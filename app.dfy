/**
 * The application shell (src/App.tsx): which screen is shown, which tab is
 * active, the in-memory collection and the selected project, and the
 * handlers that move between them. Every handler is one atomic step; state
 * setters take effect at once.
 */
module App {
  import opened Wrappers
  import opened Types
  import Storage
  import MockData

  /** The screens of the projects tab. */
  datatype View = List | New | Detail

  /** The two tabs of the footer navigation. */
  datatype Tab = Projects | Ai

  /** `projects.map(p => p.id === updated.id ? updated : p)`. */
  function Replace(ps: seq<Project>, updated: Project): (r: seq<Project>)
    ensures |r| == |ps|
    ensures forall k :: 0 <= k < |ps| ==> r[k] == (if ps[k].id == updated.id then updated else ps[k])
    decreases |ps|
  {
    if ps == [] then []
    else [if ps[0].id == updated.id then updated else ps[0]] + Replace(ps[1..], updated)
  }

  /** Replacing by id keeps every id in its place. */
  lemma ReplaceKeepsIds(ps: seq<Project>, updated: Project)
    ensures Ids(Replace(ps, updated)) == Ids(ps)
  {
  }

  /** A replacement whose id is not in the collection changes nothing. */
  lemma ReplaceAbsent(ps: seq<Project>, updated: Project)
    requires forall k :: 0 <= k < |ps| ==> ps[k].id != updated.id
    ensures Replace(ps, updated) == ps
  {
  }

  /** Replacing twice with the same project is replacing once. */
  lemma ReplaceIdempotent(ps: seq<Project>, updated: Project)
    ensures Replace(Replace(ps, updated), updated) == Replace(ps, updated)
  {
  }

  /**
   * With distinct ids, replacing by the id of position `i` is a point update
   * of that position: the one the store's `findIndex` would pick.
   */
  lemma ReplaceAt(ps: seq<Project>, i: nat, updated: Project)
    requires DistinctIds(ps) && i < |ps| && ps[i].id == updated.id
    ensures Replace(ps, updated) == ps[i := updated]
  {
  }

  /**
   * With distinct ids, handing the project the store just gave a note back
   * to `handleProjectUpdate` reproduces the store's whole collection.
   */
  lemma ReplaceWithAddedNote(ps: seq<Project>, projectId: string, note: NoteDraft, noteId: string, now: Instant)
    requires DistinctIds(ps)
    requires Storage.FindIndex(ps, projectId) != -1
    ensures var r := Storage.AddNote(ps, projectId, note, noteId, now);
      Replace(ps, r[Storage.FindIndex(ps, projectId)]) == r
  {
    var i := Storage.FindIndex(ps, projectId);
    var r := Storage.AddNote(ps, projectId, note, noteId, now);
    ReplaceAt(ps, i, r[i]);
  }

  /** Appending a project whose id is new keeps ids distinct. */
  lemma AppendFreshDistinct(ps: seq<Project>, p: Project)
    requires DistinctIds(ps)
    requires forall k :: 0 <= k < |ps| ==> ps[k].id != p.id
    ensures DistinctIds(ps + [p])
  {
  }

  /** The state of the `App` component together with the store it drives. */
  class AppController {
    var currentView: View
    var activeTab: Tab
    var projects: seq<Project>
    var selectedProject: Option<Project>
    const store: Storage.ProjectStore

    /**
     * A project is selected exactly on the detail screen, and the selected
     * project is one of the collection.
     */
    ghost predicate Navigation()
      reads this
    {
      && (selectedProject.Some? <==> currentView == Detail)
      && (selectedProject.Some? ==> selectedProject.value in projects)
    }

    /** Navigation is consistent and the collection in memory is the persisted one. */
    ghost predicate Valid()
      reads this, store
    {
      Navigation() && projects == store.Persisted()
    }

    /**
     * The initial state (`useState` at src/App.tsx:14-17) followed by the
     * mount effect: load the stored collection and, when it is empty, seed
     * and persist the demonstration data instead.
     */
    constructor Start(store: Storage.ProjectStore, utcOffset: int)
      modifies store
      ensures this.store == store
      ensures currentView == List && activeTab == Projects && selectedProject == None
      ensures old(store.Persisted()) != [] ==> projects == old(store.Persisted()) && store.slot == old(store.slot)
      ensures old(store.Persisted()) == [] ==>
        projects == MockData.MockProjects(utcOffset) && store.slot == Some(projects)
      ensures projects != []
      ensures Valid()
    {
      currentView := List;
      activeTab := Projects;
      projects := [];
      selectedProject := None;
      this.store := store;
      new;
      var savedProjects := store.LoadProjects();
      if |savedProjects| == 0 {
        savedProjects := store.PopulateWithMockData(utcOffset);
      }
      projects := savedProjects;
    }

    /** `handleProjectCreated`: append, persist, select the new project and show it. */
    method HandleProjectCreated(project: Project)
      requires Valid()
      modifies this, store
      ensures projects == old(projects) + [project]
      ensures store.slot == Some(projects)
      ensures selectedProject == Some(project) && currentView == Detail
      ensures activeTab == old(activeTab)
      ensures Valid()
    {
      var updatedProjects := projects + [project];
      projects := updatedProjects;
      store.SaveProjects(updatedProjects);
      selectedProject := Some(project);
      currentView := Detail;
    }

    /** `handleSelectProject`: open a project of the list; the collection and the store are untouched. */
    method HandleSelectProject(project: Project)
      requires Valid() && project in projects
      modifies this
      ensures selectedProject == Some(project) && currentView == Detail
      ensures projects == old(projects) && activeTab == old(activeTab)
      ensures Valid()
    {
      selectedProject := Some(project);
      currentView := Detail;
    }

    /**
     * `handleProjectUpdate`: replace every project with the updated one's id,
     * persist the result and select the updated project. It is called from
     * the detail screen of the project it updates; the store may have been
     * written just before, so only navigation is required beforehand.
     */
    method HandleProjectUpdate(updatedProject: Project)
      requires Navigation() && selectedProject.Some?
      requires updatedProject.id == selectedProject.value.id
      modifies this, store
      ensures projects == Replace(old(projects), updatedProject)
      ensures store.slot == Some(projects)
      ensures selectedProject == Some(updatedProject)
      ensures currentView == old(currentView) && activeTab == old(activeTab)
      ensures Valid()
    {
      var updatedProjects := Replace(projects, updatedProject);
      projects := updatedProjects;
      store.SaveProjects(updatedProjects);
      selectedProject := Some(updatedProject);
      assert projects[IndexOf(old(projects), old(selectedProject.value))] == updatedProject;
    }

    /** `handleProjectDelete`: reload the collection from the store, back to the list. */
    method HandleProjectDelete()
      modifies this
      ensures projects == store.Persisted()
      ensures currentView == List && selectedProject == None
      ensures activeTab == old(activeTab)
      ensures Valid()
    {
      var updatedProjects := store.LoadProjects();
      projects := updatedProjects;
      currentView := List;
      selectedProject := None;
    }

    /** `handleBackToList`: back to the list with nothing selected. */
    method HandleBackToList()
      requires Valid()
      modifies this
      ensures currentView == List && selectedProject == None
      ensures projects == old(projects) && activeTab == old(activeTab)
      ensures Valid()
    {
      currentView := List;
      selectedProject := None;
    }

    /**
     * `handleTabChange`: switch tab; switching to the projects tab also
     * returns to the list with nothing selected, switching to the assistant
     * keeps the projects tab's screen as it was.
     */
    method HandleTabChange(tab: Tab)
      requires Valid()
      modifies this
      ensures activeTab == tab && projects == old(projects)
      ensures tab == Projects ==> currentView == List && selectedProject == None
      ensures tab == Ai ==> currentView == old(currentView) && selectedProject == old(selectedProject)
      ensures Valid()
    {
      activeTab := tab;
      if tab == Projects {
        currentView := List;
        selectedProject := None;
      }
    }

    /** The list screen's add button (src/App.tsx:90): show the new-project form. */
    method OpenNewProject()
      requires Valid() && currentView == List
      modifies this
      ensures currentView == New && selectedProject == None
      ensures projects == old(projects) && activeTab == old(activeTab)
      ensures Valid()
    {
      currentView := New;
    }
  }

  /** A position of `p` in `ps`. */
  function IndexOf(ps: seq<Project>, p: Project): (i: nat)
    requires p in ps
    ensures i < |ps| && ps[i] == p
  {
    if ps[0] == p then 0 else 1 + IndexOf(ps[1..], p)
  }
}
