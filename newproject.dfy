/**
 * The new-project form's submission (src/components/NewProject.tsx:91-105):
 * the form is checked, the project built from the trimmed inputs and handed
 * to the shell. The address field already holds a shortened suggestion when
 * one was picked; `Address.PickedSuggestionStored` states what is stored then.
 */
module NewProject {
  import opened Wrappers
  import opened Types
  import opened JsString
  import Address
  import Storage
  import App

  /** The form is rejected when a text field is blank after trimming or no date is chosen. */
  predicate Incomplete(name: string, address: string, date: Option<Instant>, inspector: string)
  {
    Trim(name) == [] || Trim(address) == [] || date.None? || Trim(inspector) == []
  }

  /**
   * `handleSubmit`: an incomplete form changes nothing; otherwise the new
   * project, with a generated id and two clock reads, is appended, persisted
   * and shown. Its name and inspector are trimmed and non-empty and its
   * location is non-empty.
   */
  method Submit(app: App.AppController, name: string, address: string, date: Option<Instant>,
                inspector: string, id: string, createdAt: Instant, updatedAt: Instant)
    returns (created: Option<Project>)
    requires app.Valid()
    modifies app, app.store
    ensures Incomplete(name, address, date, inspector) ==>
      && created == None
      && app.projects == old(app.projects)
      && app.store.slot == old(app.store.slot)
      && app.currentView == old(app.currentView)
      && app.selectedProject == old(app.selectedProject)
    ensures !Incomplete(name, address, date, inspector) ==>
      && created == Some(Storage.CreateProject(id, Trim(name), Trim(address), date.value, Trim(inspector),
                                               createdAt, updatedAt))
      && app.projects == old(app.projects) + [created.value]
      && app.selectedProject == created
      && app.currentView == App.Detail
    ensures app.activeTab == old(app.activeTab)
    ensures created.Some? ==>
      && created.value.name != [] && Trim(created.value.name) == created.value.name
      && created.value.inspector != [] && Trim(created.value.inspector) == created.value.inspector
      && created.value.location != []
    ensures app.Valid()
  {
    if Incomplete(name, address, date, inspector) {
      return None;
    }
    var project := Storage.CreateProject(id, Trim(name), Trim(address), date.value, Trim(inspector),
                                         createdAt, updatedAt);
    TrimIdempotent(name);
    TrimIdempotent(inspector);
    assert project.location != [] by {
      var a := Trim(address);
      if Address.Commas(a) >= 2 {
        assert Address.Commas(project.location) == 2;
      }
    }
    app.HandleProjectCreated(project);
    created := Some(project);
  }
}
