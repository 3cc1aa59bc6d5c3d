/**
 * `shortenAddress` (src/utils/storage.ts:69-82): the location normaliser
 * used both when an address suggestion is picked and when a project is
 * created.
 */
module Address {
  import opened JsString

  /** `parts.map(part => part.trim())`. */
  function TrimAll(parts: seq<string>): (r: seq<string>)
    ensures |r| == |parts|
    ensures forall k :: 0 <= k < |r| ==> r[k] == Trim(parts[k])
    decreases |parts|
  {
    if parts == [] then [] else [Trim(parts[0])] + TrimAll(parts[1..])
  }

  /** The number of commas in `s`. */
  function Commas(s: string): nat
  {
    multiset(s)[',']
  }

  /**
   * Split on ',' and trim every part; an input with at most two parts comes
   * back as it was given, untrimmed, otherwise the first three trimmed parts
   * are joined with ", ". The source's last return, which would join two
   * parts, is unreachable: at that point the part count is at least three.
   */
  function ShortenAddress(fullAddress: string): (r: string)
    ensures Commas(fullAddress) <= 1 ==> r == fullAddress
    ensures Commas(fullAddress) >= 2 ==> Commas(r) == 2
  {
    var parts := TrimAll(Split(fullAddress, ','));
    if |parts| <= 2 then fullAddress
    else
      FirstThreeParts(fullAddress);
      ThreeSegmentsCommas(parts[0], parts[1], parts[2]);
      Join(parts[..3], ", ")
  }

  /** `trim` never lets a comma in. */
  lemma TrimCommaFree(s: string)
    requires ',' !in s
    ensures ',' !in Trim(s)
  {
    assert !IsSpace(',');
    TrimCount(s, ',');
    assert multiset(Trim(s))[','] == 0;
  }

  /** Every trimmed part of a split on ',' is comma-free. */
  lemma TrimmedPartsCommaFree(s: string)
    ensures forall k :: 0 <= k < |TrimAll(Split(s, ','))| ==> ',' !in TrimAll(Split(s, ','))[k]
  {
    var parts := Split(s, ',');
    forall k | 0 <= k < |parts|
      ensures ',' !in Trim(parts[k])
    {
      TrimCommaFree(parts[k]);
    }
  }

  /** The ", " join of three segments, written out. */
  lemma JoinThree(a: string, b: string, c: string, sep: string)
    ensures Join([a, b, c], sep) == a + sep + b + sep + c
  {
    assert [a, b, c][1..] == [b, c];
    assert [b, c][1..] == [c];
    assert Join([c], sep) == c;
    assert Join([b, c], sep) == b + sep + c;
  }

  /** Three comma-free segments joined with ", " hold exactly two commas. */
  lemma ThreeSegmentsCommas(a: string, b: string, c: string)
    requires ',' !in a && ',' !in b && ',' !in c
    ensures Commas(Join([a, b, c], ", ")) == 2
  {
    JoinThree(a, b, c, ", ");
    assert multiset(a)[','] == 0 && multiset(b)[','] == 0 && multiset(c)[','] == 0;
    assert multiset(", ")[','] == 1 by { assert ", " == [','] + [' ']; }
    assert multiset(a + ", " + b + ", " + c) == multiset(a) + multiset(", ") + multiset(b) + multiset(", ") + multiset(c);
  }

  /** Trimming three strings one by one. */
  lemma TrimAllThree(p: string, q: string, r: string)
    ensures TrimAll([p, q, r]) == [Trim(p), Trim(q), Trim(r)]
  {
    assert [p, q, r][1..] == [q, r];
    assert [q, r][1..] == [r];
  }

  /** The space the ", " join puts before a trimmed segment is trimmed away again. */
  lemma TrimAfterSpace(b: string)
    requires Trim(b) == b
    ensures Trim(" " + b) == b
  {
    TrimSpaceFront(' ', b);
  }

  /** Splitting the ", " join of three comma-free segments on ','. */
  lemma SplitThreeSegments(a: string, b: string, c: string)
    requires ',' !in a && ',' !in b && ',' !in c
    ensures Split(Join([a, b, c], ", "), ',') == [a, " " + b, " " + c]
  {
    JoinThree(a, b, c, ", ");
    JoinThree(a, " " + b, " " + c, ",");
    assert a + ", " + b + ", " + c == a + "," + (" " + b) + "," + (" " + c);
    SplitJoin([a, " " + b, " " + c], ',');
  }

  /** Three trimmed, comma-free segments survive a ", " join, a split and a trim. */
  lemma ThreeSegmentsRoundTrip(a: string, b: string, c: string)
    requires ',' !in a && ',' !in b && ',' !in c
    requires Trim(a) == a && Trim(b) == b && Trim(c) == c
    ensures TrimAll(Split(Join([a, b, c], ", "), ',')) == [a, b, c]
  {
    SplitThreeSegments(a, b, c);
    TrimAllThree(a, " " + b, " " + c);
    TrimAfterSpace(b);
    TrimAfterSpace(c);
  }

  /** Every trimmed part of a split is its own trim. */
  lemma TrimmedPartsTrimmed(s: string)
    ensures forall k :: 0 <= k < |TrimAll(Split(s, ','))| ==>
      Trim(TrimAll(Split(s, ','))[k]) == TrimAll(Split(s, ','))[k]
  {
    var parts := Split(s, ',');
    forall k | 0 <= k < |parts|
      ensures Trim(Trim(parts[k])) == Trim(parts[k])
    {
      TrimIdempotent(parts[k]);
    }
  }

  /** The first three elements of a sequence, as a display. */
  lemma FirstThree<T>(t: seq<T>)
    requires |t| >= 3
    ensures t[..3] == [t[0], t[1], t[2]]
  {
  }

  /** The first three trimmed parts of `s`: comma-free and already trimmed. */
  lemma FirstThreeParts(s: string)
    requires Commas(s) >= 2
    ensures var t := TrimAll(Split(s, ','));
      && |t| >= 3
      && t[..3] == [t[0], t[1], t[2]]
      && ',' !in t[0] && ',' !in t[1] && ',' !in t[2]
      && Trim(t[0]) == t[0] && Trim(t[1]) == t[1] && Trim(t[2]) == t[2]
  {
    var t := TrimAll(Split(s, ','));
    FirstThree(t);
    TrimmedPartsCommaFree(s);
    TrimmedPartsTrimmed(s);
  }

  /**
   * With three or more parts the result is made of exactly the first three
   * trimmed parts of the input: splitting and trimming it gives them back.
   */
  lemma ShortenAddressSegments(s: string)
    requires Commas(s) >= 2
    ensures TrimAll(Split(ShortenAddress(s), ',')) == TrimAll(Split(s, ','))[..3]
  {
    var t := TrimAll(Split(s, ','));
    FirstThreeParts(s);
    ThreeSegmentsRoundTrip(t[0], t[1], t[2]);
  }

  /** An address whose trimmed parts are exactly three shortens to their ", " join. */
  lemma ShortenThreeParts(r: string, u: seq<string>)
    requires |u| == 3 && TrimAll(Split(r, ',')) == u
    ensures ShortenAddress(r) == Join(u, ", ")
  {
    assert u[..3] == u;
  }

  /** Shortening an address that was already shortened changes nothing. */
  lemma ShortenAddressIdempotent(s: string)
    ensures ShortenAddress(ShortenAddress(s)) == ShortenAddress(s)
  {
    if Commas(s) >= 2 {
      var t := TrimAll(Split(s, ','));
      ShortenAddressSegments(s);
      ShortenThreeParts(ShortenAddress(s), t[..3]);
    }
  }

  /** A string that is its own trim neither starts nor ends with white space. */
  lemma TrimmedEnds(a: string)
    requires Trim(a) == a
    ensures a != [] ==> !IsSpace(a[0]) && !IsSpace(a[|a| - 1])
  {
  }

  /**
   * Trimming the ", " join of three trimmed segments: nothing leads with
   * white space, and only an empty last segment leaves a trailing space.
   */
  lemma TrimJoinedSegments(a: string, b: string, c: string)
    requires a != [] ==> !IsSpace(a[0])
    requires c != [] ==> !IsSpace(c[|c| - 1])
    ensures Trim(Join([a, b, c], ", ")) == if c == [] then a + ", " + b + "," else Join([a, b, c], ", ")
  {
    JoinThree(a, b, c, ", ");
    var r := a + ", " + b + ", " + c;
    assert !IsSpace(r[0]) by {
      if a != [] { assert r[0] == a[0]; } else { assert r[0] == ','; }
    }
    TrimStartKeeps(r);
    if c != [] {
      assert r[|r| - 1] == c[|c| - 1];
      TrimEndKeeps(r);
    } else {
      var u := a + ", " + b + ",";
      assert r[..|r| - 1] == u;
      assert IsSpace(r[|r| - 1]);
      assert u[|u| - 1] == ',';
      TrimEndKeeps(u);
    }
  }

  /** Splitting `a, b,` on ','. */
  lemma SplitTrailingComma(a: string, b: string)
    requires ',' !in a && ',' !in b
    ensures Split(a + ", " + b + ",", ',') == [a, " " + b, []]
  {
    JoinThree(a, " " + b, "", ",");
    assert a + ", " + b + "," == a + "," + (" " + b) + "," + "";
    SplitJoin([a, " " + b, ""], ',');
  }

  /** Splitting and trimming `a, b,` (the trimmed join with an empty last segment). */
  lemma TrailingCommaRoundTrip(a: string, b: string)
    requires ',' !in a && ',' !in b
    requires Trim(a) == a && Trim(b) == b
    ensures TrimAll(Split(a + ", " + b + ",", ',')) == [a, b, []]
  {
    SplitTrailingComma(a, b);
    TrimAllThree(a, " " + b, "");
    TrimAfterSpace(b);
  }

  /** Trimming, splitting and trimming the ", " join of three trimmed, comma-free segments. */
  lemma JoinedSegmentsTrimmedParts(a: string, b: string, c: string)
    requires ',' !in a && ',' !in b && ',' !in c
    requires Trim(a) == a && Trim(b) == b && Trim(c) == c
    ensures TrimAll(Split(Trim(Join([a, b, c], ", ")), ',')) == [a, b, c]
  {
    TrimmedEnds(a);
    TrimmedEnds(c);
    TrimJoinedSegments(a, b, c);
    if c != [] {
      ThreeSegmentsRoundTrip(a, b, c);
    } else {
      TrailingCommaRoundTrip(a, b);
    }
  }

  /** Three trimmed, comma-free segments joined with ", " survive `trim` and `shortenAddress`. */
  lemma JoinedSegmentsTrimStable(a: string, b: string, c: string)
    requires ',' !in a && ',' !in b && ',' !in c
    requires Trim(a) == a && Trim(b) == b && Trim(c) == c
    ensures ShortenAddress(Trim(Join([a, b, c], ", "))) == Join([a, b, c], ", ")
  {
    JoinedSegmentsTrimmedParts(a, b, c);
    ShortenThreeParts(Trim(Join([a, b, c], ", ")), [a, b, c]);
  }

  /**
   * The new-project form trims the address it got from a picked suggestion
   * before `createProject` shortens it again: a shortened address with three
   * parts survives that trim-and-shorten pass unchanged.
   */
  lemma ShortenAddressTrimStable(s: string)
    requires Commas(s) >= 2
    ensures ShortenAddress(Trim(ShortenAddress(s))) == ShortenAddress(s)
  {
    var t := TrimAll(Split(s, ','));
    FirstThreeParts(s);
    JoinedSegmentsTrimStable(t[0], t[1], t[2]);
  }

  /**
   * What the new-project form stores for a picked suggestion `x` left as it
   * was: the suggestion trimmed when it has at most two parts, its shortened
   * form otherwise.
   */
  lemma PickedSuggestionStored(x: string)
    ensures ShortenAddress(Trim(ShortenAddress(x)))
         == if Commas(x) <= 1 then Trim(x) else ShortenAddress(x)
  {
    if Commas(x) <= 1 {
      assert !IsSpace(',');
      TrimCount(x, ',');
    } else {
      ShortenAddressTrimStable(x);
    }
  }

  /** At most one comma: the address comes back as given, untrimmed. */
  lemma ShortenTwoParts(s: string, a: string, b: string)
    requires ',' !in a && ',' !in b && s == a + [','] + b
    ensures ShortenAddress(s) == s
  {
    assert multiset(s)[','] == 1;
  }

  /** Two parts come back as given. */
  lemma ShortenAddressTwoPartsExample()
    ensures ShortenAddress("A, B") == "A, B"
  {
    ShortenTwoParts("A, B", "A", " B");
  }

  /** Two loosely spaced parts come back as given, untrimmed. */
  lemma ShortenAddressSpacedExample()
    ensures ShortenAddress(" Storgatan 1 , Stockholm ") == " Storgatan 1 , Stockholm "
  {
    ShortenTwoParts(" Storgatan 1 , Stockholm ", " Storgatan 1 ", " Stockholm ");
  }

  /** One part comes back as given. */
  lemma ShortenAddressOnePartExample()
    ensures ShortenAddress("A") == "A"
  {
    assert Commas("A") == 0;
  }

  /** Three comma-free parts joined by ',' shorten to their trims joined by ", ". */
  lemma ShortenThreeSegments(a: string, b: string, c: string)
    requires ',' !in a && ',' !in b && ',' !in c
    ensures ShortenAddress(a + "," + b + "," + c) == Join([Trim(a), Trim(b), Trim(c)], ", ")
  {
    var s := a + "," + b + "," + c;
    assert Split(s, ',') == [a, b, c] by {
      JoinThree(a, b, c, ",");
      SplitJoin([a, b, c], ',');
    }
    TrimAllThree(a, b, c);
    FirstThree(TrimAll([a, b, c]));
  }

  /** Splitting two comma-free parts and any tail, all separated by commas. */
  lemma SplitTwoTail(b: string, c: string, d: string)
    requires ',' !in b && ',' !in c
    ensures Split(b + [','] + (c + [','] + d), ',') == [b, c] + Split(d, ',')
  {
    var cd := c + [','] + d;
    SplitCons(c, ',', d);
    SplitCons(b, ',', cd);
    assert [b] + ([c] + Split(d, ',')) == [b, c] + Split(d, ',');
  }

  /** Splitting three comma-free parts and any tail, all separated by commas. */
  lemma SplitThreeTail(a: string, b: string, c: string, d: string)
    requires ',' !in a && ',' !in b && ',' !in c
    ensures Split(a + [','] + (b + [','] + (c + [','] + d)), ',') == [a, b, c] + Split(d, ',')
  {
    var bcd := b + [','] + (c + [','] + d);
    SplitTwoTail(b, c, d);
    SplitCons(a, ',', bcd);
    assert [a] + ([b, c] + Split(d, ',')) == [a, b, c] + Split(d, ',');
  }

  /** The first three trimmed parts are the trims of the first three parts. */
  lemma FirstThreeTrimmed(p: seq<string>, a: string, b: string, c: string)
    requires |p| >= 3 && p[..3] == [a, b, c]
    ensures TrimAll(p)[..3] == [Trim(a), Trim(b), Trim(c)]
  {
    TrimAllPrefix(p, 3);
    TrimAllThree(a, b, c);
  }

  /**
   * Three comma-separated parts followed by a tail shorten to the first
   * three, trimmed and joined with ", ": whatever the tail holds, commas
   * included, is dropped.
   */
  lemma ShortenFourParts(a: string, b: string, c: string, d: string)
    requires ',' !in a && ',' !in b && ',' !in c
    ensures ShortenAddress(a + "," + b + "," + c + "," + d) == Join([Trim(a), Trim(b), Trim(c)], ", ")
  {
    TailPartsTrimmed(a, b, c, d);
  }

  /** The trimmed parts of three comma-separated parts and a tail begin with the three, trimmed. */
  lemma TailPartsTrimmed(a: string, b: string, c: string, d: string)
    requires ',' !in a && ',' !in b && ',' !in c
    ensures var t := TrimAll(Split(a + "," + b + "," + c + "," + d, ','));
      |t| > 3 && t[..3] == [Trim(a), Trim(b), Trim(c)]
  {
    var p := Split(a + "," + b + "," + c + "," + d, ',');
    assert p == [a, b, c] + Split(d, ',') by {
      CommaRegroup(a, b, c, d);
      SplitThreeTail(a, b, c, d);
    }
    assert p[..3] == [a, b, c];
    FirstThreeTrimmed(p, a, b, c);
  }

  /** Commas written as a one-character string, regrouped to the right. */
  lemma CommaRegroup(a: string, b: string, c: string, d: string)
    ensures a + "," + b + "," + c + "," + d == a + [','] + (b + [','] + (c + [','] + d))
  {
    assert "," == [','];
  }

  /** `ShortenFourParts` for an address and an expected result given as they are written. */
  lemma ShortenFourPartsAs(s: string, r: string, a: string, b: string, c: string, d: string,
                           a': string, b': string, c': string)
    requires ',' !in a && ',' !in b && ',' !in c
    requires s == a + "," + b + "," + c + "," + d
    requires Trim(a) == a' && Trim(b) == b' && Trim(c) == c'
    requires r == a' + ", " + b' + ", " + c'
    ensures ShortenAddress(s) == r
  {
    JoinThree(a', b', c', ", ");
    ShortenFourParts(a, b, c, d);
  }

  /** A non-empty piece of text that neither starts nor ends with white space. */
  predicate Word(w: string)
  {
    w != [] && !IsSpace(w[0]) && !IsSpace(w[|w| - 1])
  }

  /** A word is its own trim. */
  lemma TrimWord(w: string)
    requires Word(w)
    ensures Trim(w) == w
  {
    TrimStartKeeps(w);
    TrimEndKeeps(w);
  }

  /** "a, b, c,d" with comma-free, trimmed a, b, c shortens to "a, b, c", whatever the tail d. */
  lemma ShortenWords(a: string, b: string, c: string, d: string)
    requires Trim(a) == a && Trim(b) == b && Trim(c) == c
    requires ',' !in a && ',' !in b && ',' !in c
    ensures ShortenAddress(a + ", " + b + ", " + c + "," + d) == a + ", " + b + ", " + c
  {
    TrimAfterSpace(b);
    TrimAfterSpace(c);
    Regroup(a, b, c, d);
    ShortenFourPartsAs(a + ", " + b + ", " + c + "," + d, a + ", " + b + ", " + c,
      a, " " + b, " " + c, d, a, b, c);
  }

  /** `ShortenWords` for words as they are spelled out: non-empty, with no white space at either end. */
  lemma ShortenSpelledWords(a: string, b: string, c: string, d: string)
    requires Word(a) && Word(b) && Word(c)
    requires ',' !in a && ',' !in b && ',' !in c
    ensures ShortenAddress(a + ", " + b + ", " + c + "," + d) == a + ", " + b + ", " + c
  {
    TrimWord(a);
    TrimWord(b);
    TrimWord(c);
    ShortenWords(a, b, c, d);
  }

  /** The blank after each ", " belongs to the next part once the text is split on ','. */
  lemma Regroup(a: string, b: string, c: string, d: string)
    ensures a + ", " + b + ", " + c + "," + d == a + "," + (" " + b) + "," + (" " + c) + "," + d
    ensures ',' !in b ==> ',' !in " " + b
    ensures ',' !in c ==> ',' !in " " + c
  {
    assert ", " + b == "," + (" " + b);
    assert ", " + c == "," + (" " + c);
  }

  /** "A, B, C, D" keeps its first three parts. */
  lemma ShortenAddressFourPartsExample(s: string)
    requires s == "A, B, C, D"
    ensures ShortenAddress(s) == "A, B, C"
  {
    FourPartsText(s);
    ShortenSpelledWords("A", "B", "C", " D");
  }

  /** The text "A, B, C, D" and its shortened form, as the pieces `ShortenSpelledWords` takes. */
  lemma FourPartsText(s: string)
    requires s == "A, B, C, D"
    ensures s == "A" + ", " + "B" + ", " + "C" + "," + " D"
    ensures "A, B, C" == "A" + ", " + "B" + ", " + "C"
  {
  }

  /** A full street address loses its trailing region. */
  lemma ShortenAddressStreetExample(s: string)
    requires s == "Storgatan 1, 11122 Stockholm, Sverige, Europa"
    ensures ShortenAddress(s) == "Storgatan 1, 11122 Stockholm, Sverige"
  {
    StreetText(s);
    StreetShortText("Storgatan 1, 11122 Stockholm, Sverige");
    ShortenSpelledWords("Storgatan 1", "11122 Stockholm", "Sverige", " Europa");
  }

  /** The street address is its shortened form followed by the region. */
  lemma StreetText(s: string)
    requires s == "Storgatan 1, 11122 Stockholm, Sverige, Europa"
    ensures s == "Storgatan 1, 11122 Stockholm, Sverige" + "," + " Europa"
  {
  }

  /** The shortened street address, as the words `ShortenSpelledWords` takes. */
  lemma StreetShortText(r: string)
    requires r == "Storgatan 1, 11122 Stockholm, Sverige"
    ensures r == "Storgatan 1" + ", " + "11122 Stockholm" + ", " + "Sverige"
  {
  }

  /** Trimming commutes with taking a prefix of the parts. */
  lemma TrimAllPrefix(parts: seq<string>, n: nat)
    requires n <= |parts|
    ensures TrimAll(parts)[..n] == TrimAll(parts[..n])
  {
    var lhs, rhs := TrimAll(parts)[..n], TrimAll(parts[..n]);
    forall k | 0 <= k < n
      ensures lhs[k] == rhs[k]
    {
      assert parts[..n][k] == parts[k];
    }
  }
}
