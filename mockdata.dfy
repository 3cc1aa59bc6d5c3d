/**
 * The demonstration collection `populateWithMockData` writes when the store
 * is empty (src/utils/storage.ts:85-224): two inspections with nine notes.
 *
 * `new Date('2024-12-15')` is read as midnight UTC, while a date-time without
 * a zone (`'2024-12-15T08:30:00'`) is read in the device's local time zone, so
 * the creation, update and note timestamps depend on the zone's offset from
 * UTC, given here as `utcOffset` milliseconds (local = UTC + utcOffset).
 */
module MockData {
  import opened Wrappers
  import opened Types
  import Address

  /** Midnight UTC of 2024-12-15 and of 2024-12-10. */
  const Dec15: Instant := 1734220800000
  const Dec10: Instant := 1733788800000

  /** The instant the local wall clock shows `hour:minute` on the day starting at `day` UTC. */
  function LocalTime(day: Instant, hour: int, minute: int, utcOffset: int): Instant
  {
    day + (hour * 60 + minute) * 60000 - utcOffset
  }

  function Photo(id: string, content: string, t: Instant, url: string, file: string, size: int): (n: Note)
  {
    Note(id, NoteKind.Photo, content, Some(""), t, Some(url), Some(file), Some(size))
  }

  function Video(id: string, content: string, transcription: string, t: Instant, url: string, file: string, size: int): (n: Note)
  {
    Note(id, NoteKind.Video, content, Some(transcription), t, Some(url), Some(file), Some(size))
  }

  /** The two inspection sites, already in the short form addresses are stored in. */
  const VentilationSite: string := "Falköpingsvägen 8, Hammarbyhöjden"
  const KitchenSite: string := "Drottninggatan 42, Stockholm"

  const VentilationSummary: string :=
    "**INSPEKTIONSSAMMANFATTNING**\n\n"
    + "**Övergripande status:** Godkänd med mindre åtgärder\n\n"
    + "**Identifierade problem:**\n"
    + "• Ventilationsfläkt i källaren (Fläkt B-02) visar onormala vibrationer\n"
    + "• Filter i trapphus C behöver bytas inom 2 veckor\n"
    + "• Mindre läckage upptäckt vid rörgenomföring på våning 3\n\n"
    + "**Kontrollerade system:**\n"
    + "✓ Ventilationssystem - Huvudsakligen funktionellt\n"
    + "✓ Brandskyddssystem - Alla detektorer testade och godkända\n"
    + "✓ Elektriska installationer - Inga avvikelser\n"
    + "✓ Rörledningar - Mindre åtgärd krävs\n\n"
    + "**Rekommenderade åtgärder:**\n"
    + "1. Byt filter i trapphus C (prioritet: hög)\n"
    + "2. Service av fläkt B-02 (prioritet: medium)\n"
    + "3. Täta rörgenomföring våning 3 (prioritet: låg)\n\n"
    + "**Nästa inspektion:** Rekommenderas inom 6 månader"

  /** The media hosts the seeded notes point at. */
  const PexelsPhotos: string := "https://images.pexels.com/photos/"
  const PexelsQuery: string := "?auto=compress&cs=tinysrgb&w=800"
  const SampleVideos: string := "https://sample-videos.com/zip/10/mp4/"

  const PexelsPhoto159045: string :=
    PexelsPhotos + "159045/the-interior-of-the-repair-interior-design-159045.jpeg" + PexelsQuery
  const SampleVideo1MB: string :=
    SampleVideos + "SampleVideo_1280x720_1mb.mp4"
  const PexelsPhoto4792509: string :=
    PexelsPhotos + "4792509/pexels-photo-4792509.jpeg" + PexelsQuery
  const SampleVideo2MB: string :=
    SampleVideos + "SampleVideo_1280x720_2mb.mp4"
  const PexelsPhoto8293778: string :=
    PexelsPhotos + "8293778/pexels-photo-8293778.jpeg" + PexelsQuery
  const PexelsPhoto5691659: string :=
    PexelsPhotos + "5691659/pexels-photo-5691659.jpeg" + PexelsQuery
  const PexelsPhoto2696064: string :=
    PexelsPhotos + "2696064/pexels-photo-2696064.jpeg" + PexelsQuery

  /** The transcriptions of the four seeded videos. */
  const FanNoiseTranscript: string :=
    "Här hör vi fläkten som låter ovanligt högt. "
    + "Det verkar vara vibrationer från lagret. "
    + "Jag rekommenderar att vi byter ut lagret inom de närmaste veckorna. "
    + "Ljudnivån är betydligt högre än normalt och det kan tyda på att lagret håller på att gå sönder."

  const SmokeDetectorTranscript: string :=
    "Nu testar vi branddetektorn i korridoren på våning två. "
    + "Som ni hör så fungerar larmet perfekt. "
    + "Detektorn reagerar snabbt på teströk och ljudnivån är tillräcklig. "
    + "Alla branddetektorer i byggnaden har testats och godkänts enligt gällande säkerhetsföreskrifter."

  const SwitchboardTranscript: string :=
    "Här går vi igenom elcentralen på bottenvåningen. "
    + "Alla säkringar är märkta korrekt och det finns inga tecken på överhettning eller korrosion. "
    + "Jordfelsbryterna fungerar som de ska och har testats. "
    + "Installationen följer gällande elstandard och är i gott skick."

  const SprinklerTranscript: string :=
    "Vi testar nu sprinklersystemet i köket. "
    + "Systemet aktiveras korrekt vid 68 grader och vattentrycket är optimalt. "
    + "Alla munstycken är rena och fria från blockering. "
    + "Brandskyddssystemet uppfyller alla säkerhetskrav för kommersiella kök."

  /** The seven notes of the ventilation inspection. */
  function VentilationNotes(utcOffset: int): (notes: seq<Note>)
  {
    [ Photo("note-1", "Foto av ventilationsfläkt", LocalTime(Dec15, 9, 15, utcOffset),
        PexelsPhoto159045,
        "ventilation_flakt_001.jpg", 2456789),
      Video("note-2", "Videoinspelning av fläktljud",
        FanNoiseTranscript,
        LocalTime(Dec15, 9, 30, utcOffset),
        SampleVideo1MB,
        "flakt_ljud_inspektion.mp4", 8934567),
      Photo("note-3", "Filter som behöver bytas", LocalTime(Dec15, 10, 45, utcOffset),
        PexelsPhoto4792509,
        "filter_trapphus_c.jpg", 1876543),
      Video("note-4", "Branddetektortest",
        SmokeDetectorTranscript,
        LocalTime(Dec15, 11, 20, utcOffset),
        SampleVideo2MB,
        "branddetektortest_v2.mp4", 12456789),
      Photo("note-5", "Läckage vid rörgenomföring", LocalTime(Dec15, 12, 10, utcOffset),
        PexelsPhoto8293778,
        "lackage_ror_v3.jpg", 2234567),
      Video("note-6", "Genomgång av elcentral",
        SwitchboardTranscript,
        LocalTime(Dec15, 13, 30, utcOffset),
        SampleVideo1MB,
        "elcentral_genomgang.mp4", 7654321),
      Photo("note-7", "Slutkontroll ventilationsschema", LocalTime(Dec15, 14, 15, utcOffset),
        PexelsPhoto5691659,
        "ventilationsschema_final.jpg", 3456789) ]
  }

  /** The two notes of the kitchen inspection. */
  function KitchenNotes(utcOffset: int): (notes: seq<Note>)
  {
    [ Photo("note-8", "Köksutrustning översikt", LocalTime(Dec10, 8, 0, utcOffset),
        PexelsPhoto2696064,
        "kok_oversikt.jpg", 3234567),
      Video("note-9", "Brandskyddssystem test",
        SprinklerTranscript,
        LocalTime(Dec10, 9, 30, utcOffset),
        SampleVideo1MB,
        "sprinkler_test.mp4", 9876543) ]
  }

  /** The seeded collection, in the order it is stored. */
  function MockProjects(utcOffset: int): (r: seq<Project>)
    ensures |r| == 2
    ensures |r[0].notes| == 7 && r[0].aiSummary.Some?
    ensures |r[1].notes| == 2 && r[1].aiSummary.None?
  {
    [ Project("mock-project-1", "Kontorsbyggnad A - Ventilationsinspektion",
        VentilationSite, Dec15, "Anna Andersson",
        LocalTime(Dec15, 8, 30, utcOffset), LocalTime(Dec15, 14, 45, utcOffset),
        VentilationNotes(utcOffset), Some(VentilationSummary)),
      Project("mock-project-2", "Restaurang Kök - Säkerhetsinspektion",
        KitchenSite, Dec10, "Erik Johansson",
        LocalTime(Dec10, 7, 0, utcOffset), LocalTime(Dec10, 16, 30, utcOffset),
        KitchenNotes(utcOffset), None) ]
  }

  /**
   * The seed is a sound collection in whatever time zone: two projects with
   * distinct ids, each with ordered timestamps, unique note ids and room
   * left under the note cap.
   */
  lemma MockProjectsSound(utcOffset: int)
    ensures var r := MockProjects(utcOffset);
      && |r| == 2
      && DistinctIds(r)
      && NotesCapped(r)
      && (forall k :: 0 <= k < |r| ==> WellFormedProject(r[k]))
  {
    var r := MockProjects(utcOffset);
    var v, c := VentilationNotes(utcOffset), KitchenNotes(utcOffset);
    assert r[0].id != r[1].id by { assert r[0].id[13] != r[1].id[13]; }
    assert DistinctNoteIds(v) by { NoteIdsDiffer(v); }
    assert DistinctNoteIds(c) by { NoteIdsDiffer(c); }
  }

  /** Mock note ids "note-N" differ in their last character. */
  lemma NoteIdsDiffer(notes: seq<Note>)
    requires forall i :: 0 <= i < |notes| ==> |notes[i].id| == 6
    requires forall i, j :: 0 <= i < j < |notes| ==> notes[i].id[5] != notes[j].id[5]
    ensures DistinctNoteIds(notes)
  {
  }

  /** Both seeded locations are fixed points of the address shortening applied to new projects. */
  lemma MockSitesShort(site: string)
    requires site == VentilationSite || site == KitchenSite
    ensures Address.ShortenAddress(site) == site
  {
    if site == VentilationSite {
      assert site == "Falköpingsvägen 8" + [','] + " Hammarbyhöjden";
      Address.ShortenTwoParts(site, "Falköpingsvägen 8", " Hammarbyhöjden");
    } else {
      assert site == "Drottninggatan 42" + [','] + " Stockholm";
      Address.ShortenTwoParts(site, "Drottninggatan 42", " Stockholm");
    }
  }
}
