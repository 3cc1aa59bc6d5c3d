/**
 * The project store (src/utils/storage.ts): the whole collection of
 * inspection projects lives in one localStorage slot, written as JSON and read
 * back with its dates rehydrated. Serialisation is modelled as an exact round
 * trip, so the slot holds the collection itself; the clock and `generateId`
 * are parameters of the operations that read them.
 */
module Storage {
  import opened Wrappers
  import opened Types
  import Address
  import MockData

  /** `i` is the position of the first project carrying `id`. */
  predicate FirstWithId(ps: seq<Project>, i: int, id: string)
  {
    0 <= i < |ps| && ps[i].id == id && forall k :: 0 <= k < i ==> ps[k].id != id
  }

  /** `ps.findIndex(p => p.id === id)`: the first position carrying `id`, or -1 when there is none. */
  function FindIndex(ps: seq<Project>, id: string): (i: int)
    ensures -1 <= i < |ps|
    ensures i == -1 <==> forall k :: 0 <= k < |ps| ==> ps[k].id != id
    ensures i != -1 ==> FirstWithId(ps, i, id)
    decreases |ps|
  {
    if ps == [] then -1
    else if ps[0].id == id then 0
    else
      var j := FindIndex(ps[1..], id);
      if j == -1 then -1 else j + 1
  }

  /** The first position carrying an id is unique, and it is the one `FindIndex` reports. */
  lemma FirstWithIdUnique(ps: seq<Project>, i: int, id: string)
    requires FirstWithId(ps, i, id)
    ensures FindIndex(ps, id) == i
  {
  }

  /** `findIndex` looks at ids only. */
  lemma {:induction false} FindIndexIds(a: seq<Project>, b: seq<Project>, id: string)
    requires Ids(a) == Ids(b)
    ensures FindIndex(a, id) == FindIndex(b, id)
    decreases |a|
  {
    assert |a| == |Ids(a)| == |b|;
    if a != [] {
      assert a[0].id == Ids(a)[0] == b[0].id;
      assert Ids(a[1..]) == Ids(a)[1..] == Ids(b)[1..] == Ids(b[1..]);
      FindIndexIds(a[1..], b[1..], id);
    }
  }

  /**
   * The collection `addNoteToProject` returns: the first project carrying
   * `projectId` gets the note, with the generated id, appended to its notes
   * and `now` as its update time; without such a project nothing changes.
   */
  function AddNote(ps: seq<Project>, projectId: string, note: NoteDraft, noteId: string, now: Instant): (r: seq<Project>)
    ensures |r| == |ps|
    ensures (forall k :: 0 <= k < |ps| ==> ps[k].id != projectId) ==> r == ps
    ensures forall i | FirstWithId(ps, i, projectId) ::
      && r[i].notes == ps[i].notes + [ToNote(note, noteId)]
      && r[i].updatedAt == now
      && r[i].(notes := ps[i].notes, updatedAt := ps[i].updatedAt) == ps[i]
      && (forall k :: 0 <= k < |ps| && k != i ==> r[k] == ps[k])
  {
    var i := FindIndex(ps, projectId);
    if i == -1 then ps
    else ps[i := ps[i].(notes := ps[i].notes + [ToNote(note, noteId)], updatedAt := now)]
  }

  /** Adding a note keeps every id in its place. */
  lemma AddNoteKeepsIds(ps: seq<Project>, projectId: string, note: NoteDraft, noteId: string, now: Instant)
    ensures Ids(AddNote(ps, projectId, note, noteId, now)) == Ids(ps)
  {
    var r := AddNote(ps, projectId, note, noteId, now);
    var i := FindIndex(ps, projectId);
    if i != -1 {
      assert forall k :: 0 <= k < |ps| ==> r[k].id == ps[k].id;
    }
  }

  /**
   * Adding a note keeps every project well formed, provided the clock has
   * not gone back since the project's last update and the generated note id
   * is new within that project.
   */
  lemma AddNoteWellFormed(ps: seq<Project>, projectId: string, note: NoteDraft, noteId: string, now: Instant)
    requires forall k :: 0 <= k < |ps| ==> WellFormedProject(ps[k])
    requires forall k :: 0 <= k < |ps| && ps[k].id == projectId ==>
      ps[k].updatedAt <= now && forall j :: 0 <= j < |ps[k].notes| ==> ps[k].notes[j].id != noteId
    ensures var r := AddNote(ps, projectId, note, noteId, now);
      forall k :: 0 <= k < |r| ==> WellFormedProject(r[k])
  {
    var r := AddNote(ps, projectId, note, noteId, now);
    var i := FindIndex(ps, projectId);
    if i != -1 {
      var notes := r[i].notes;
      assert notes == ps[i].notes + [ToNote(note, noteId)];
      forall a, b | 0 <= a < b < |notes|
        ensures notes[a].id != notes[b].id
      {
        if b < |ps[i].notes| {
          assert notes[a] == ps[i].notes[a] && notes[b] == ps[i].notes[b];
        } else {
          assert notes[a] == ps[i].notes[a];
        }
      }
    }
  }

  /** The number of notes over the whole collection. */
  function NoteCount(ps: seq<Project>): nat
    decreases |ps|
  {
    if ps == [] then 0 else |ps[0].notes| + NoteCount(ps[1..])
  }

  /** Replacing one project changes the note count by the difference of the two note lists. */
  lemma {:induction false} NoteCountUpdate(ps: seq<Project>, i: nat, p: Project)
    requires i < |ps|
    ensures NoteCount(ps[i := p]) == NoteCount(ps) - |ps[i].notes| + |p.notes|
    decreases |ps|
  {
    if i > 0 {
      assert ps[i := p][1..] == ps[1..][i - 1 := p];
      NoteCountUpdate(ps[1..], i - 1, p);
    } else {
      assert ps[i := p][1..] == ps[1..];
    }
  }

  /** Adding a note adds exactly one note to the collection when the project exists, and none otherwise. */
  lemma AddNoteCount(ps: seq<Project>, projectId: string, note: NoteDraft, noteId: string, now: Instant)
    ensures NoteCount(AddNote(ps, projectId, note, noteId, now))
         == NoteCount(ps) + (if FindIndex(ps, projectId) == -1 then 0 else 1)
  {
    var i := FindIndex(ps, projectId);
    if i != -1 {
      NoteCountUpdate(ps, i, ps[i].(notes := ps[i].notes + [ToNote(note, noteId)], updatedAt := now));
    }
  }

  /** `ps.filter(p => p.id !== id)`. */
  function Without(ps: seq<Project>, id: string): (r: seq<Project>)
    ensures |r| <= |ps|
    ensures forall p :: p in r <==> p in ps && p.id != id
    decreases |ps|
  {
    if ps == [] then []
    else (if ps[0].id == id then [] else [ps[0]]) + Without(ps[1..], id)
  }

  /** Filtering distributes over concatenation, so the kept projects stay in their order. */
  lemma {:induction false} WithoutConcat(a: seq<Project>, b: seq<Project>, id: string)
    ensures Without(a + b, id) == Without(a, id) + Without(b, id)
    decreases |a|
  {
    if a != [] {
      assert (a + b)[1..] == a[1..] + b;
      WithoutConcat(a[1..], b, id);
    } else {
      assert a + b == b;
    }
  }

  /** A collection without the id is left as it is. */
  lemma {:induction false} WithoutAbsent(ps: seq<Project>, id: string)
    requires forall k :: 0 <= k < |ps| ==> ps[k].id != id
    ensures Without(ps, id) == ps
    decreases |ps|
  {
    if ps != [] {
      WithoutAbsent(ps[1..], id);
    }
  }

  /** Deleting the same id twice is deleting it once. */
  lemma WithoutIdempotent(ps: seq<Project>, id: string)
    ensures Without(Without(ps, id), id) == Without(ps, id)
  {
    var r := Without(ps, id);
    forall k | 0 <= k < |r|
      ensures r[k].id != id
    {
      assert r[k] in r;
    }
    WithoutAbsent(r, id);
  }

  /** With distinct ids, deleting an id that is present removes exactly that one project. */
  lemma {:induction false} WithoutUnique(ps: seq<Project>, i: nat, id: string)
    requires DistinctIds(ps) && i < |ps| && ps[i].id == id
    ensures Without(ps, id) == ps[..i] + ps[i + 1..]
    decreases i
  {
    var rest := ps[1..];
    if i == 0 {
      WithoutAbsent(rest, id);
    } else {
      WithoutUnique(rest, i - 1, id);
      assert ps[..i] == [ps[0]] + rest[..i - 1];
      assert ps[i + 1..] == rest[i..];
    }
  }

  /** Deleting keeps ids distinct. */
  lemma {:induction false} WithoutDistinct(ps: seq<Project>, id: string)
    requires DistinctIds(ps)
    ensures DistinctIds(Without(ps, id))
    decreases |ps|
  {
    if ps != [] {
      var rest := Without(ps[1..], id);
      WithoutDistinct(ps[1..], id);
      if ps[0].id != id {
        forall k | 0 <= k < |rest|
          ensures rest[k].id != ps[0].id
        {
          assert rest[k] in ps[1..];
        }
      }
    }
  }

  /**
   * `createProject`: a project with the generated id, the given fields,
   * the location shortened and no notes. The clock is read twice, for
   * `createdAt` and for `updatedAt`; nothing is written to storage.
   */
  function CreateProject(id: string, name: string, location: string, date: Instant, inspector: string,
                         createdAt: Instant, updatedAt: Instant): (p: Project)
    ensures p.id == id && p.name == name && p.date == date && p.inspector == inspector
    ensures p.createdAt == createdAt && p.updatedAt == updatedAt
    ensures p.notes == [] && p.aiSummary == None
    ensures p.location == Address.ShortenAddress(location)
  {
    Project(id, name, Address.ShortenAddress(location), date, inspector, createdAt, updatedAt, [], None)
  }

  /** A new project is well formed when the second clock read is not earlier than the first. */
  lemma CreatedProjectWellFormed(id: string, name: string, location: string, date: Instant, inspector: string,
                                 createdAt: Instant, updatedAt: Instant)
    requires createdAt <= updatedAt
    ensures WellFormedProject(CreateProject(id, name, location, date, inspector, createdAt, updatedAt))
  {
  }

  /**
   * The stored location is already short: shortening it again, as happens
   * when a picked suggestion is submitted, gives it back unchanged.
   */
  lemma CreatedLocationShort(id: string, name: string, location: string, date: Instant, inspector: string,
                             createdAt: Instant, updatedAt: Instant)
    ensures var p := CreateProject(id, name, location, date, inspector, createdAt, updatedAt);
      Address.ShortenAddress(p.location) == p.location
  {
    Address.ShortenAddressIdempotent(location);
  }

  /**
   * The localStorage slot under 'inspection-projects' (src/utils/storage.ts:3).
   * `None` is an absent key.
   */
  class ProjectStore {
    var slot: Option<seq<Project>>

    constructor (initial: Option<seq<Project>>)
      ensures slot == initial
    {
      slot := initial;
    }

    /** The collection `loadProjects` reads back from the slot. */
    function Persisted(): seq<Project>
      reads this
    {
      if slot.None? then [] else slot.value
    }

    /** `saveProjects`: overwrite the slot; reading it back gives the same collection. */
    method SaveProjects(projects: seq<Project>)
      modifies this
      ensures slot == Some(projects)
      ensures Persisted() == projects
    {
      slot := Some(projects);
    }

    /** `loadProjects`: the stored collection, or the empty one when the key is absent. */
    method LoadProjects() returns (projects: seq<Project>)
      ensures slot.None? ==> projects == []
      ensures slot.Some? ==> projects == slot.value
      ensures projects == Persisted()
    {
      if slot.None? {
        return [];
      }
      projects := slot.value;
    }

    /**
     * `addNoteToProject`: load, append the note to the first project with the
     * id, stamp it and save; when no project has the id, return the loaded
     * collection and leave the slot alone.
     */
    method AddNoteToProject(projectId: string, note: NoteDraft, noteId: string, now: Instant)
      returns (projects: seq<Project>)
      modifies this
      ensures projects == AddNote(old(Persisted()), projectId, note, noteId, now)
      ensures FindIndex(old(Persisted()), projectId) == -1 ==> slot == old(slot)
      ensures FindIndex(old(Persisted()), projectId) != -1 ==> slot == Some(projects)
    {
      projects := LoadProjects();
      var projectIndex := FindIndex(projects, projectId);
      if projectIndex == -1 {
        return;
      }
      var newNote := ToNote(note, noteId);
      projects := projects[projectIndex := projects[projectIndex].(notes := projects[projectIndex].notes + [newNote])];
      projects := projects[projectIndex := projects[projectIndex].(updatedAt := now)];
      SaveProjects(projects);
    }

    /** `deleteProject`: load, drop every project with the id and save, even when none matched. */
    method DeleteProject(projectId: string) returns (filtered: seq<Project>)
      modifies this
      ensures filtered == Without(old(Persisted()), projectId)
      ensures slot == Some(filtered)
    {
      var projects := LoadProjects();
      filtered := Without(projects, projectId);
      SaveProjects(filtered);
    }

    /** `populateWithMockData`: save the demonstration collection and return it. */
    method PopulateWithMockData(utcOffset: int) returns (mockProjects: seq<Project>)
      modifies this
      ensures mockProjects == MockData.MockProjects(utcOffset)
      ensures slot == Some(mockProjects)
    {
      mockProjects := MockData.MockProjects(utcOffset);
      SaveProjects(mockProjects);
    }
  }
}
