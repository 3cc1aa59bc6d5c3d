# Inspection projects: local store and application shell

A model of the part of the inspection assistant that keeps the
inspector's projects: the local project store (`src/utils/storage.ts`)
and the application shell (`src/App.tsx`), which holds the collection in
memory and moves between the list, new-project and detail screens. The
detail screen's callbacks (`src/components/ProjectDetail.tsx`) and the
new-project form's submission (`src/components/NewProject.tsx`) are
modelled as well. The detail screen has three flows. Adding a note writes
through the store's `addNoteToProject` and hands the stored project to
the shell. Deleting writes through the store's `deleteProject`, and the
shell reloads the collection from storage. A summary is set on the shown
project in memory and persisted by the shell's `handleProjectUpdate`.
The form builds the project with `createProject`, which writes nothing,
and the shell's `handleProjectCreated` persists it.

The whole collection lives in one localStorage slot. `ProjectStore`
holds that slot as `Option<seq<Project>>`, with `None` for an absent key.
JSON serialisation and the ISO date round trip are an identity, so a
`Date` is an integer count of milliseconds. The clock and `generateId`
are parameters: every "fresh id" fact is a hypothesis, never a proof
obligation. `AppController` holds the four state fields of `App` and a
reference to the store. Its invariant `Valid` says two things. First, a
project is selected exactly on the detail screen, and it is one of the
collection. Second, the collection in memory equals the persisted one.
Every handler, and every detail-screen and form flow built on them, ends
in `Valid`.

Modules:

- `Wrappers`: `Option`.
- `Types`: `Note`, `NoteDraft` (a note without its id), `Project`, and
  the predicates `DistinctIds`, `WellFormedProject` and `NotesCapped`
  (at most 20 notes per project).
- `JsString`: the JavaScript built-ins that `shortenAddress` uses:
  `split` on one character, `trim` (ECMAScript white space and line
  terminators) and `join`.
- `Address`: `shortenAddress` and its properties.
- `MockData`: the demonstration collection seeded on first start.
- `Storage`: the pure collection operations (`findIndex`, the
  note-adding update, `filter` by id, `createProject`) and the
  `ProjectStore` class.
- `App`: the id-based replacement `map` and the `AppController` class.
- `ProjectDetail`, `NewProject`: the component flows that drive the
  store and the shell.

Points where the code's behaviour is easy to misread, and what the model
does about each:

- Unreadable stored data: `loadProjects` calls `JSON.parse` without a
  guard (src/utils/storage.ts:13), so unreadable data raises an error.
  The model has no corrupt slot; only an absent key reads as empty.
- `createProject` reads the clock twice (src/utils/storage.ts:37-38), so
  `createdAt` and `updatedAt` may differ. The model takes two instants,
  and a project is well formed when the second is not earlier than the
  first.
- Deleting by id: the `filter` at src/utils/storage.ts:63 removes every
  project with that id. `Without` models the filter, and `WithoutUnique`
  gives the single removal when ids are distinct.
- `shortenAddress` always keeps three parts once there are three or more,
  so its `slice(0, 2)` return is unreachable and the model has only two
  branches.

## Model

| member | source | states |
|---|---|---|
| JsString.Split | src/utils/storage.ts:70 | `split(',')` yields one more piece than there are separators, and no piece contains the separator |
| JsString.Join | src/utils/storage.ts:78 | `join(', ')`: the first piece leads the result, and its length is the pieces' total plus one separator per gap; `SplitJoin` and `JoinSplit` tie it to `split` |
| JsString.JoinSplit | src/utils/storage.ts:70 | joining the pieces of a split with the separator gives back the input |
| JsString.SplitJoin | src/utils/storage.ts:70 | splitting the join of separator-free pieces gives back the pieces |
| JsString.Trim | src/utils/storage.ts:70 | `trim` never lengthens, and a non-empty result neither starts nor ends with white space |
| JsString.TrimInfix | src/utils/storage.ts:70 | the trimmed string is an infix of the input, and everything cut off on either side is white space |
| JsString.TrimIdempotent | src/utils/storage.ts:70 | trimming twice is trimming once |
| JsString.TrimCount | src/utils/storage.ts:70 | `trim` keeps every non-white-space character as often as it occurs (so a comma count is kept) |
| JsString.TrimSpaceFront | src/utils/storage.ts:70 | a leading white-space character does not survive `trim` |
| Address.TrimAll | src/utils/storage.ts:70 | `map(part => part.trim())` keeps the number of parts and trims each one in place |
| Address.ShortenAddress | src/utils/storage.ts:69-82 | at most one comma (at most two parts): the input comes back unchanged and untrimmed; otherwise the result has exactly two commas |
| Address.ShortenAddressSegments | src/utils/storage.ts:77-79 | with three or more parts, splitting and trimming the result gives exactly the first three trimmed parts of the input |
| Address.ShortenThreeParts | src/utils/storage.ts:77-79 | an address whose trimmed parts are exactly three shortens to those three joined by ", " |
| Address.ShortenTwoParts | src/utils/storage.ts:72-74 | an address of two comma-free parts is returned as it is |
| Address.ShortenThreeSegments | src/utils/storage.ts:70-78 | three comma-free parts joined by ',' shorten to their trims joined by ", " |
| Address.ShortenFourParts | src/utils/storage.ts:77-79 | three comma-separated parts followed by any tail, commas included, shorten to the first three, trimmed, joined by ", " |
| Address.ShortenWords | src/utils/storage.ts:77-79 | "a, b, c,d" with a, b, c free of commas and of surrounding white space (empty allowed) shortens to "a, b, c", whatever d is, commas included |
| Address.ShortenAddressIdempotent | src/utils/storage.ts:69-82 | shortening an already shortened address changes nothing |
| Address.ShortenAddressTrimStable | src/utils/storage.ts:77-79 | a shortened address of three parts survives the form's `trim` and a second shortening unchanged |
| Address.PickedSuggestionStored | src/components/NewProject.tsx:83-98 | a picked suggestion is shortened, trimmed on submit and shortened again by `createProject`; the stored location is the trimmed input when it had at most one comma, and its shortening otherwise |
| Address.ShortenAddressOnePartExample | src/utils/storage.ts:72-74 | "A" comes back as "A" |
| Address.ShortenAddressTwoPartsExample | src/utils/storage.ts:72-74 | "A, B" comes back as "A, B" |
| Address.ShortenAddressSpacedExample | src/utils/storage.ts:72-74 | " Storgatan 1 , Stockholm " comes back untrimmed |
| Address.ShortenAddressFourPartsExample | src/utils/storage.ts:77-79 | "A, B, C, D" becomes "A, B, C" |
| Address.ShortenAddressStreetExample | src/utils/storage.ts:77-79 | "Storgatan 1, 11122 Stockholm, Sverige, Europa" becomes "Storgatan 1, 11122 Stockholm, Sverige" |
| MockData.MockProjects | src/utils/storage.ts:86-220 | the seed: two projects, the ventilation inspection with seven notes and a stored summary, the kitchen inspection with two notes and none |
| MockData.MockProjectsSound | src/utils/storage.ts:86-220 | the seed holds two projects with distinct ids; each has ordered timestamps and unique note ids and is within the note cap, in any time zone |
| MockData.MockSitesShort | src/utils/storage.ts:90-192 | both seeded locations, the ventilation site (line 90) and the kitchen site (line 192), are fixed points of `shortenAddress` |
| Storage.FindIndex | src/utils/storage.ts:45 | `findIndex` gives -1 exactly when no project has the id, and otherwise the first position that has it |
| Storage.FirstWithIdUnique | src/utils/storage.ts:45 | any first position with the id is the one `findIndex` reports |
| Storage.FindIndexIds | src/utils/storage.ts:45 | two collections with the same ids in the same order give the same `findIndex` |
| Storage.AddNote | src/utils/storage.ts:43-59 | no project with the id: the collection is unchanged. Otherwise only the first such project changes: the note, with the generated id, is appended to its notes, its `updatedAt` becomes now, and all its other fields, every other project, the length and the order stay as they were |
| Storage.AddNoteKeepsIds | src/utils/storage.ts:54-55 | adding a note keeps every id in its place |
| Storage.AddNoteWellFormed | src/utils/storage.ts:49-55 | if the clock has not gone back and the note id is new in its project, every project stays well formed |
| Storage.AddNoteCount | src/utils/storage.ts:54 | the collection gains exactly one note when the project exists, and none otherwise |
| Storage.NoteCountUpdate | src/utils/storage.ts:54 | replacing one project changes the total note count by the difference of the two note lists |
| Storage.Without | src/utils/storage.ts:63 | the filtered collection holds exactly the projects whose id differs, and is no longer |
| Storage.WithoutConcat | src/utils/storage.ts:63 | filtering distributes over concatenation, so the kept projects stay in their original order |
| Storage.WithoutAbsent | src/utils/storage.ts:63 | filtering out an id nobody has changes nothing |
| Storage.WithoutIdempotent | src/utils/storage.ts:61-66 | deleting the same id twice equals deleting it once |
| Storage.WithoutUnique | src/utils/storage.ts:63 | with distinct ids, deleting a present id removes exactly that one project and keeps the rest in order |
| Storage.WithoutDistinct | src/utils/storage.ts:63 | deleting keeps ids distinct |
| Storage.CreateProject | src/utils/storage.ts:30-41 | a new project carries the given id, name, date and inspector, both clock reads, no notes, no summary, and the shortened location |
| Storage.CreatedProjectWellFormed | src/utils/storage.ts:37-38 | the new project is well formed when the second clock read is not earlier than the first |
| Storage.CreatedLocationShort | src/utils/storage.ts:34 | the stored location is a fixed point of `shortenAddress` |
| Storage.ProjectStore.SaveProjects | src/utils/storage.ts:5-7 | the slot holds the collection, and reading it back gives the same collection |
| Storage.ProjectStore.LoadProjects | src/utils/storage.ts:9-24 | an absent key reads as the empty collection; otherwise the stored collection is returned, and the slot is not touched |
| Storage.ProjectStore.AddNoteToProject | src/utils/storage.ts:43-59 | the returned collection is `AddNote` of the loaded one; it is saved when the project exists, and the slot is untouched otherwise |
| Storage.ProjectStore.DeleteProject | src/utils/storage.ts:61-66 | the returned collection is the loaded one without the id, and it is always saved |
| Storage.ProjectStore.PopulateWithMockData | src/utils/storage.ts:222-223 | the seed collection is saved and returned |
| App.Replace | src/App.tsx:44-46 | the mapped collection has the same length; each position holds the update when its id matches, and is unchanged otherwise |
| App.ReplaceKeepsIds | src/App.tsx:44-46 | replacing by id keeps every id in its place |
| App.ReplaceAbsent | src/App.tsx:44-46 | an update whose id is in no project changes nothing |
| App.ReplaceIdempotent | src/App.tsx:44-46 | applying the same update twice is applying it once |
| App.ReplaceAt | src/App.tsx:44-46 | with distinct ids, replacing by id is a point update at that project's position |
| App.ReplaceWithAddedNote | src/App.tsx:43-50 | with distinct ids, handing the store's updated project to the shell reproduces the store's whole collection |
| App.AppendFreshDistinct | src/App.tsx:31 | appending a project with a new id keeps ids distinct |
| App.AppController.Start | src/App.tsx:14-28 | starts on the list of the projects tab with nothing selected. A non-empty stored collection is used as it is and storage is untouched; an empty one is replaced by the seed, which is persisted. The collection is never empty afterwards, and `Valid` holds |
| App.AppController.HandleProjectCreated | src/App.tsx:30-36 | appends the project at the end, persists exactly that collection, selects the project and shows its details |
| App.AppController.HandleSelectProject | src/App.tsx:38-41 | selects a listed project and shows its details; the collection, the tab and storage are untouched |
| App.AppController.HandleProjectUpdate | src/App.tsx:43-50 | replaces every project with the update's id, persists the collection it keeps in memory, selects the update, and restores `Valid` even after the store was written first |
| App.AppController.HandleProjectDelete | src/App.tsx:52-57 | the collection becomes whatever storage holds, back on the list with nothing selected; `Valid` holds from any state |
| App.AppController.HandleBackToList | src/App.tsx:59-62 | back on the list with nothing selected; the collection is untouched |
| App.AppController.HandleTabChange | src/App.tsx:64-70 | the assistant tab changes only the tab; the projects tab also returns to the list with nothing selected |
| App.AppController.OpenNewProject | src/App.tsx:89-90 | the list's add button shows the form with nothing selected |
| ProjectDetail.AddNote | src/components/ProjectDetail.tsx:25-32 | below the 20-note cap, the store appends the note and the shell takes the stored project back: the collection is the id replacement of the old one by the project the store updated, that project is selected, the detail screen and the tab stay. `Valid` holds afterwards, and with distinct ids the shell's collection is exactly `AddNote` of the old one, with ids still distinct and the cap still kept |
| ProjectDetail.DeleteProject | src/components/ProjectDetail.tsx:34-37 | the store drops the project and the shell reloads: the collection is the old one without the id, persisted, and the list is shown with nothing selected, on the same tab |
| ProjectDetail.GenerateSummary | src/components/ProjectDetail.tsx:39-55 | a failed request changes nothing (collection, slot, selection, screen and tab); a summary is stored on the shown project through the id replacement, and it stays selected |
| NewProject.Submit | src/components/NewProject.tsx:91-105 | a blank field or a missing date changes nothing. Otherwise `createProject` of the trimmed inputs is appended, persisted and shown; its name and inspector are trimmed and non-empty and its location is non-empty. The tab never changes |

## Left out

- React rendering, JSX, the date and locale formatting, and the
  `isSubmitting` and `summaryError` flags: they are presentation only.
- `generateId`'s clock and `Math.random`: ids are parameters, so
  uniqueness is assumed where it is needed and never proved.
- The real JSON and ISO-8601 encoding: the slot holds the collection
  itself. Date rehydration in `loadProjects` (src/utils/storage.ts:14-23)
  is therefore the identity.
- Unreadable stored data, where `JSON.parse` throws: the model has no
  corrupt slot.
- Storage.ProjectStore.SaveProjects: the write always succeeds. A throwing
  `localStorage.setItem` (src/utils/storage.ts:6, for example when the
  quota is exceeded) is not modelled. `handleProjectCreated` and
  `handleProjectUpdate` (src/App.tsx:32-33, 47-48) set the collection in
  memory before saving, so in the program a failed write leaves memory
  ahead of storage, and `handleProjectCreated` never shows the detail
  screen; the mirror half of `Valid` assumes every write succeeds.
- Asynchronous ordering and React state batching: each handler and each
  component flow is one atomic step. In the program a summary that arrives
  after the user has left the detail screen still runs the old
  `onProjectUpdate` closure (src/components/ProjectDetail.tsx:45-48,
  src/App.tsx:44-49): it selects a project while the list is shown and
  saves a collection that may be out of date, for example one without a
  project created in the meantime. Both halves of `Valid` can then fail;
  the model does not capture that interleaving.
- The network calls behind address suggestions and summaries: a summary
  is a parameter (`None` for a failed request). The note texts sent with
  it (src/components/ProjectDetail.tsx:44) are not modelled.
- Media capture (src/components/MediaRecorder.tsx), PDF export
  (src/utils/export.ts), the AI chat and the HTTP clients: device I/O,
  foreign libraries and network.
- `formatFileSize`: floating-point division and `toFixed`.
- MockData.MockProjects: the local-time stamps use one fixed offset from
  UTC for the whole day. A device whose zone offset differs across those
  timestamps is not modelled.
- JsString.Trim: characters are Unicode scalar values, not UTF-16 code
  units. Every character `trim` and `split` inspect lies in the Basic
  Multilingual Plane, so results agree except on unpaired surrogates.
