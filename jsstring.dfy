/**
 * The JavaScript string built-ins the address shortening relies on:
 * `String.prototype.split` with a one-character separator,
 * `String.prototype.trim` and `Array.prototype.join`. Strings are sequences
 * of Unicode scalar values; every character these operations inspect lies in
 * the Basic Multilingual Plane, so they behave as on UTF-16 code units.
 */
module JsString {

  /** The characters `trim` removes: ECMAScript WhiteSpace and LineTerminator. */
  predicate IsSpace(c: char)
  {
    || c == '\t' || c == '\n' || c == '\U{B}' || c == '\U{C}' || c == '\r'
    || c == ' ' || c == '\U{A0}' || c == '\U{1680}'
    || ('\U{2000}' <= c <= '\U{200A}')
    || c == '\U{2028}' || c == '\U{2029}' || c == '\U{202F}' || c == '\U{205F}'
    || c == '\U{3000}' || c == '\U{FEFF}'
  }

  /** `trimStart`: the suffix left after dropping the leading white space. */
  function TrimStart(s: string): (r: string)
    ensures |r| <= |s| && r == s[|s| - |r|..]
    ensures r != [] ==> !IsSpace(r[0])
    decreases |s|
  {
    if s != [] && IsSpace(s[0]) then TrimStart(s[1..]) else s
  }

  /** `trimEnd`: the prefix left after dropping the trailing white space. */
  function TrimEnd(s: string): (r: string)
    ensures |r| <= |s| && r == s[..|r|]
    ensures r != [] ==> !IsSpace(r[|r| - 1])
    decreases |s|
  {
    if s != [] && IsSpace(s[|s| - 1]) then TrimEnd(s[..|s| - 1]) else s
  }

  /** `trim`: drop the white space at both ends; what is left neither starts nor ends with it. */
  function Trim(s: string): (r: string)
    ensures |r| <= |s|
    ensures r != [] ==> !IsSpace(r[0]) && !IsSpace(r[|r| - 1])
  {
    TrimEnd(TrimStart(s))
  }

  /** `trimStart` drops white space only. */
  lemma {:induction false} TrimStartDropsSpace(s: string)
    ensures forall k :: 0 <= k < |s| - |TrimStart(s)| ==> IsSpace(s[k])
    decreases |s|
  {
    if s != [] && IsSpace(s[0]) {
      TrimStartDropsSpace(s[1..]);
    }
  }

  /** `trimEnd` drops white space only. */
  lemma {:induction false} TrimEndDropsSpace(s: string)
    ensures forall k :: |TrimEnd(s)| <= k < |s| ==> IsSpace(s[k])
    decreases |s|
  {
    if s != [] && IsSpace(s[|s| - 1]) {
      TrimEndDropsSpace(s[..|s| - 1]);
    }
  }

  /**
   * `trim` keeps an infix of its input and removes only white space: the
   * input is some white space, the result, and some more white space.
   */
  lemma TrimInfix(s: string)
    ensures var r, k := Trim(s), |s| - |TrimStart(s)|;
      && k + |r| <= |s|
      && r == s[k..k + |r|]
      && (forall m :: 0 <= m < k ==> IsSpace(s[m]))
      && (forall m :: k + |r| <= m < |s| ==> IsSpace(s[m]))
  {
    var t := TrimStart(s);
    TrimStartDropsSpace(s);
    TrimEndDropsSpace(t);
    InfixOfSuffix(s, |s| - |t|, TrimEnd(t));
  }

  /** A prefix `r` of the suffix `s[k..]` is the infix `s[k..k + |r|]`, and indices line up. */
  lemma InfixOfSuffix(s: string, k: nat, r: string)
    requires k <= |s| && |r| <= |s| - k && r == s[k..][..|r|]
    requires forall j :: |r| <= j < |s| - k ==> IsSpace(s[k..][j])
    ensures r == s[k..k + |r|]
    ensures forall m :: k + |r| <= m < |s| ==> IsSpace(s[m])
  {
    forall m | k + |r| <= m < |s|
      ensures IsSpace(s[m])
    {
      assert s[m] == s[k..][m - k];
    }
  }

  /** `trimStart` leaves a string that does not start with white space as it is. */
  lemma TrimStartKeeps(s: string)
    requires s != [] ==> !IsSpace(s[0])
    ensures TrimStart(s) == s
  {
  }

  /** `trimEnd` leaves a string that does not end with white space as it is. */
  lemma TrimEndKeeps(s: string)
    requires s != [] ==> !IsSpace(s[|s| - 1])
    ensures TrimEnd(s) == s
  {
  }

  /** Trimming a string that is already trimmed changes nothing. */
  lemma TrimIdempotent(s: string)
    ensures Trim(Trim(s)) == Trim(s)
  {
    var r := Trim(s);
    if r != [] {
      assert TrimStart(r) == r;
      assert TrimEnd(r) == r;
    }
  }

  /** A leading white-space character does not survive `trim`. */
  lemma TrimSpaceFront(c: char, s: string)
    requires IsSpace(c)
    ensures Trim([c] + s) == Trim(s)
  {
    assert ([c] + s)[1..] == s;
  }

  /** `trimStart` keeps every character that is not white space. */
  lemma {:induction false} TrimStartCount(s: string, c: char)
    requires !IsSpace(c)
    ensures multiset(TrimStart(s))[c] == multiset(s)[c]
    decreases |s|
  {
    if s != [] && IsSpace(s[0]) {
      TrimStartCount(s[1..], c);
      assert s == [s[0]] + s[1..];
    }
  }

  /** `trimEnd` keeps every character that is not white space. */
  lemma {:induction false} TrimEndCount(s: string, c: char)
    requires !IsSpace(c)
    ensures multiset(TrimEnd(s))[c] == multiset(s)[c]
    decreases |s|
  {
    if s != [] && IsSpace(s[|s| - 1]) {
      TrimEndCount(s[..|s| - 1], c);
      assert s == s[..|s| - 1] + [s[|s| - 1]];
    }
  }

  /** `trim` keeps every character that is not white space, as often as it occurs. */
  lemma TrimCount(s: string, c: char)
    requires !IsSpace(c)
    ensures multiset(Trim(s))[c] == multiset(s)[c]
  {
    TrimStartCount(s, c);
    TrimEndCount(TrimStart(s), c);
  }

  /** `s.split(sep)`: the pieces between occurrences of `sep`, in order. */
  function Split(s: string, sep: char): (parts: seq<string>)
    ensures |parts| == multiset(s)[sep] + 1
    ensures forall k :: 0 <= k < |parts| ==> sep !in parts[k]
    decreases |s|
  {
    if s == [] then [[]]
    else
      var rest := Split(s[1..], sep);
      assert s == [s[0]] + s[1..];
      if s[0] == sep then [[]] + rest
      else [[s[0]] + rest[0]] + rest[1..]
  }

  /** The combined length of the pieces. */
  function TotalLength(parts: seq<string>): nat
  {
    if parts == [] then 0 else |parts[0]| + TotalLength(parts[1..])
  }

  /**
   * `parts.join(sep)`: the pieces in order with `sep` between neighbours,
   * so the first piece leads and one separator is added per gap.
   */
  function Join(parts: seq<string>, sep: string): (r: string)
    ensures parts == [] ==> r == []
    ensures parts != [] ==> parts[0] <= r && |r| == TotalLength(parts) + (|parts| - 1) * |sep|
  {
    if |parts| == 0 then []
    else if |parts| == 1 then parts[0]
    else parts[0] + sep + Join(parts[1..], sep)
  }

  /** Prefixing a character to the first piece prefixes it to the join. */
  lemma JoinPushFront(c: char, pieces: seq<string>, sep: string)
    requires |pieces| >= 1
    ensures Join([[c] + pieces[0]] + pieces[1..], sep) == [c] + Join(pieces, sep)
  {
    var parts := [[c] + pieces[0]] + pieces[1..];
    assert parts[1..] == pieces[1..];
  }

  /** An empty first piece puts the separator at the front of the join. */
  lemma JoinEmptyFront(pieces: seq<string>, sep: string)
    requires |pieces| >= 1
    ensures Join([[]] + pieces, sep) == sep + Join(pieces, sep)
  {
    assert ([[]] + pieces)[1..] == pieces;
  }

  /** Joining the pieces of a split with the separator gives back the string. */
  lemma {:induction false} JoinSplit(s: string, sep: char)
    ensures Join(Split(s, sep), [sep]) == s
    decreases |s|
  {
    if s != [] {
      var tail := s[1..];
      var rest := Split(tail, sep);
      JoinSplit(tail, sep);
      if s[0] == sep {
        JoinEmptyFront(rest, [sep]);
      } else {
        JoinPushFront(s[0], rest, [sep]);
      }
      assert s == [s[0]] + tail;
    }
  }

  /** Splitting a comma-free string yields that string alone. */
  lemma {:induction false} SplitFree(a: string, sep: char)
    requires sep !in a
    ensures Split(a, sep) == [a]
    decreases |a|
  {
    if a != [] {
      SplitFree(a[1..], sep);
      assert a == [a[0]] + a[1..];
    }
  }

  /** Splitting at the first separator: the free prefix becomes the first piece. */
  lemma {:induction false} SplitCons(a: string, sep: char, b: string)
    requires sep !in a
    ensures Split(a + [sep] + b, sep) == [a] + Split(b, sep)
    decreases |a|
  {
    if a == [] {
      assert a + [sep] + b == [sep] + b;
      assert ([sep] + b)[1..] == b;
    } else {
      var s := a + [sep] + b;
      assert s[1..] == a[1..] + [sep] + b;
      SplitCons(a[1..], sep, b);
      assert a == [a[0]] + a[1..];
    }
  }

  /** Splitting the join of separator-free pieces gives back the pieces. */
  lemma {:induction false} SplitJoin(parts: seq<string>, sep: char)
    requires |parts| >= 1
    requires forall k :: 0 <= k < |parts| ==> sep !in parts[k]
    ensures Split(Join(parts, [sep]), sep) == parts
    decreases |parts|
  {
    if |parts| == 1 {
      SplitFree(parts[0], sep);
    } else {
      SplitJoin(parts[1..], sep);
      SplitCons(parts[0], sep, Join(parts[1..], [sep]));
      assert parts == [parts[0]] + parts[1..];
    }
  }
}
