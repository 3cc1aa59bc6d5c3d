/**
 * The detail screen's callbacks into the store and the shell
 * (src/components/ProjectDetail.tsx). Adding a note writes through the
 * store and hands the stored project to the shell; deleting writes through
 * the store and the shell reloads; a summary is set on the shown project in
 * memory and the shell persists it. Each flow leaves the collection in
 * memory equal to the persisted one.
 */
module ProjectDetail {
  import opened Wrappers
  import opened Types
  import Storage
  import App

  /**
   * Capture a note for the shown project (`openMediaRecorder`'s cap, then
   * `handleAddNote`): the store appends it, the shell takes the stored
   * project back: the shell replaces by id with the project the store
   * updated, and that project is selected. With distinct ids the shell then
   * holds exactly the store's collection with the note added, still within
   * the note cap.
   */
  method AddNote(app: App.AppController, note: NoteDraft, noteId: string, now: Instant)
    requires app.Valid() && app.selectedProject.Some?
    requires |app.selectedProject.value.notes| < MaxNotes
    modifies app, app.store
    ensures app.Valid()
    ensures app.currentView == App.Detail && app.activeTab == old(app.activeTab)
    ensures var id := old(app.selectedProject.value.id);
      var r := Storage.AddNote(old(app.projects), id, note, noteId, now);
      var i := Storage.FindIndex(old(app.projects), id);
      && 0 <= i < |r| && r[i].id == id
      && app.projects == App.Replace(old(app.projects), r[i])
      && app.selectedProject == Some(r[i])
    ensures DistinctIds(old(app.projects)) ==>
      app.projects == Storage.AddNote(old(app.projects), old(app.selectedProject.value.id), note, noteId, now)
    ensures DistinctIds(old(app.projects)) ==> DistinctIds(app.projects)
    ensures DistinctIds(old(app.projects)) && NotesCapped(old(app.projects)) ==> NotesCapped(app.projects)
  {
    var project := app.selectedProject.value;
    ghost var before := app.projects;
    ghost var at := App.IndexOf(before, project);
    var projects := app.store.AddNoteToProject(project.id, note, noteId, now);
    Storage.AddNoteKeepsIds(before, project.id, note, noteId, now);
    Storage.FindIndexIds(projects, before, project.id);
    var i := Storage.FindIndex(projects, project.id);
    assert i != -1 by {
      assert before[at].id == project.id;
    }
    app.HandleProjectUpdate(projects[i]);
    if DistinctIds(before) {
      assert Ids(app.projects) == Ids(before) by {
        App.ReplaceKeepsIds(before, projects[i]);
      }
      App.ReplaceWithAddedNote(before, project.id, note, noteId, now);
      assert i == at by {
        Storage.FirstWithIdUnique(before, i, project.id);
      }
    }
  }

  /** `handleDeleteProject`: the store drops the project, the shell reloads and returns to the list. */
  method DeleteProject(app: App.AppController)
    requires app.Valid() && app.selectedProject.Some?
    modifies app, app.store
    ensures app.projects == Storage.Without(old(app.projects), old(app.selectedProject.value.id))
    ensures app.store.slot == Some(app.projects)
    ensures app.currentView == App.List && app.selectedProject == None
    ensures app.activeTab == old(app.activeTab)
    ensures app.Valid()
  {
    var project := app.selectedProject.value;
    var _ := app.store.DeleteProject(project.id);
    app.HandleProjectDelete();
  }

  /**
   * `handleGenerateSummary` once the assistant has answered: `response` is
   * the summary, or `None` when the request failed, in which case only an
   * error message is shown. A summary is stored on the shown project.
   */
  method GenerateSummary(app: App.AppController, response: Option<string>)
    requires app.Valid() && app.selectedProject.Some?
    modifies app, app.store
    ensures response.None? ==>
      && app.projects == old(app.projects)
      && app.store.slot == old(app.store.slot)
      && app.selectedProject == old(app.selectedProject)
    ensures response.Some? ==>
      && app.projects == App.Replace(old(app.projects), old(app.selectedProject.value).(aiSummary := response))
      && app.selectedProject == Some(old(app.selectedProject.value).(aiSummary := response))
    ensures app.currentView == old(app.currentView) && app.activeTab == old(app.activeTab)
    ensures app.Valid()
  {
    if response.Some? {
      var project := app.selectedProject.value;
      var updatedProject := project.(aiSummary := Some(response.value));
      app.HandleProjectUpdate(updatedProject);
    }
  }
}
