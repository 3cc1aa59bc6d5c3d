/**
 * The record types of the inspection log (src/types/index.ts).
 * Every `Date` is an integer count of milliseconds since the epoch; every
 * optional field (`x?: T`) is an `Option`.
 */
module Types {
  import opened Wrappers

  /** A `Date`, as milliseconds since 1970-01-01T00:00:00Z. */
  type Instant = int

  /** The `type` field of a note: 'photo' | 'video' | 'text'. */
  datatype NoteKind = Photo | Video | Text

  /** One captured observation. */
  datatype Note = Note(
    id: string,
    kind: NoteKind,
    content: string,
    transcription: Option<string>,
    timestamp: Instant,
    fileUrl: Option<string>,
    fileName: Option<string>,
    fileSize: Option<int>)

  /** A note before the store has given it an id (`Omit<Note, 'id'>`). */
  datatype NoteDraft = NoteDraft(
    kind: NoteKind,
    content: string,
    transcription: Option<string>,
    timestamp: Instant,
    fileUrl: Option<string>,
    fileName: Option<string>,
    fileSize: Option<int>)

  /** One inspection engagement with its ordered notes. */
  datatype Project = Project(
    id: string,
    name: string,
    location: string,
    date: Instant,
    inspector: string,
    createdAt: Instant,
    updatedAt: Instant,
    notes: seq<Note>,
    aiSummary: Option<string>)

  /** `{ ...note, id }`: the draft with the id the store generated. */
  function ToNote(draft: NoteDraft, id: string): (n: Note)
  {
    Note(id, draft.kind, draft.content, draft.transcription, draft.timestamp,
         draft.fileUrl, draft.fileName, draft.fileSize)
  }

  /** The ids of a collection, in order. */
  function Ids(ps: seq<Project>): (ids: seq<string>)
  {
    seq(|ps|, k requires 0 <= k < |ps| => ps[k].id)
  }

  /** No two projects of the collection share an id. */
  predicate DistinctIds(ps: seq<Project>)
  {
    forall i, j :: 0 <= i < j < |ps| ==> ps[i].id != ps[j].id
  }

  /** No two notes of a project share an id. */
  predicate DistinctNoteIds(notes: seq<Note>)
  {
    forall i, j :: 0 <= i < j < |notes| ==> notes[i].id != notes[j].id
  }

  /** A project whose timestamps are in order and whose note ids are unique. */
  predicate WellFormedProject(p: Project)
  {
    p.createdAt <= p.updatedAt && DistinctNoteIds(p.notes)
  }

  /** The largest number of notes the detail screen lets a project reach. */
  const MaxNotes: nat := 20

  /** Every project of the collection is within the note cap. */
  predicate NotesCapped(ps: seq<Project>)
  {
    forall k :: 0 <= k < |ps| ==> |ps[k].notes| <= MaxNotes
  }
}
