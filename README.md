# Note-App data layer in Dafny

This project models the data layer of an Electron note-taking app. The layer has two halves.

- **The storage process** (`src/main/main.js`). It answers six IPC requests: `save-note`, `load-notes`, `delete-note`, `save-folders`, `load-folders` and `delete-folder`. Each note lives in its own file, `notes/<id>.json`. All folders live together in one file, `folders.json`.
- **The renderer's working set** (`src/renderer/index.js`). It holds `notes`, `folders`, `currentNote` and `currentFolder`, plus the operations that change them: create/rename/delete folder, create/save/rename/move/delete note, the full reload, and the three derived views (unassigned notes, a folder's notes, the five most recent notes).

## Modules

- `entities.dfy`, module `Entities`: the `Note` and `Folder` records, `Option`, the falsy test on `folderId`, and JavaScript's `String.prototype.trim` with the full ECMAScript whitespace set.
- `seqs.dfy`, module `Seqs`: `Filter` (the model of `Array.prototype.filter`) and `SortDesc`, a stable insertion sort standing for `Array.prototype.sort` with a comparator that puts the largest key first. It comes with lemmas for order preservation, sortedness, permutation and stability.
- `storage.dfy`, module `Storage`: class `NoteStore`.
  - `notes: map<string, Note>` is the notes directory. `folders: Option<seq<Folder>>` is `folders.json`, with `None` before the file first exists.
  - JSON serialisation is the identity.
  - Every file-system call that can fail is a boolean parameter. A handler that throws gives `ok == false` and writes nothing.
- `renderer.dfy`, module `Renderer`: class `Workspace`, holding the working set and a reference to the store. Each `ipcRenderer.invoke` is a direct call to the store.
  - `currentNote` is a JavaScript object reference. It is modelled by `Current`:
    - `Attached(i)` means `currentNote` is the same object as `notes[i]`, so a change through either is seen by both (`moveNoteToFolder`, `finishRenaming`).
    - `Detached(n)` means an object no longer in `notes`. This happens after a reload builds new objects, or after `deleteFolder` filters the note out.
  - The in-place sort tracks the attached object with a boolean tag (`SortTracking`). Filtering tracks it by counting survivors (`CurrentAfterFilter`).
- `scenarios.dfy`, module `Scenarios`: concrete runs. Each starts from an empty store.
  - Moving a new note into a new folder "Recipes".
  - Storage round trips.
  - For each finding, a run of the as-written operation and a run of the corrected one.

## Behaviour worth knowing

- `delete-note` for an id with no file fails: `unlink` throws ENOENT and the handler answers `success: false`. A caller might expect deleting an absent note to succeed; it does not.
- `load-notes` answers `[]` as soon as any file fails to read or parse. One unreadable file hides every note, not just itself.
- `currentFolder` is read by `createNewNote` but never assigned anywhere in the renderer. In practice every new note therefore starts with `folderId == null`. The model keeps the field, and no operation writes it.
- `loadFoldersAndNotes` ends by calling `showRecentNotes`, which sorts `notes` in place. So after every reload, `notes` is in newest-first order (`Reloaded`).
- `deleteNote` does not clear `currentNote`. A later `saveCurrentNote` writes the deleted note back to disk.
- `deleteFolder` drops the folder's notes from memory only; `delete-folder` never touches note files. The next reload brings those notes back still carrying the deleted `folderId`, so they show in neither the main list nor any folder's list (`Scenarios.OrphanAfterReload`).
- `saveCurrentNote` applies its edits in memory before the save. A failed save keeps them; there is no rollback. `moveNoteToFolder` is the only operation that rolls back.

## Model

| member | source | states |
|---|---|---|
| `Entities.Trim` | src/renderer/index.js:56 | The result is empty exactly when the input is all whitespace; otherwise it neither starts nor ends with whitespace; the input is some whitespace, then the result, then some whitespace |
| `Entities.TrimIdempotent` | src/renderer/index.js:264 | Trimming an already-trimmed value changes nothing |
| `Entities.TrimmedNonEmpty` | src/renderer/index.js:56-57 | `if (folderName)` after `trim()` passes exactly when the typed text holds a non-whitespace character |
| `Seqs.Filter` | src/main/main.js:106 | The filtered sequence holds exactly the elements the selector accepts, is no longer than the input, and is a sub-multiset of it |
| `Seqs.FilterAppend` | src/renderer/index.js:485-486 | Filtering commutes with concatenation, so the survivors keep their relative order |
| `Seqs.FilterAt` | src/renderer/index.js:486 | A surviving element lands right after the survivors that came before it |
| `Seqs.SortDesc` | src/renderer/index.js:350 | The sort is a permutation of its input, with the same length |
| `Seqs.SortDescending` | src/renderer/index.js:350 | The sorted notes are ordered by `updatedAt`, newest first |
| `Seqs.PrefixDominates` | src/renderer/index.js:351 | The first five of a newest-first list are themselves newest first, are drawn from the list, and no note after them is newer than one of them |
| `Seqs.SortStable` | src/renderer/index.js:350 | For every timestamp, the notes with that timestamp come out in their original order (the sort is stable) |
| `Storage.WithoutFolder` | src/main/main.js:106 | `delete-folder` keeps exactly the folders whose id differs |
| `Storage.NoteStore.SaveNote` | src/main/main.js:45-51 | On success, the record at `n.id` becomes `n` (last write wins) and no other key changes; on a failed write nothing changes; `folders.json` is never touched |
| `Storage.NoteStore.LoadNotes` | src/main/main.js:53-70 | When every read succeeds, the answer lists each stored note exactly once; on any failure it is `[]`, not a partial list |
| `Storage.NoteStore.DeleteNote` | src/main/main.js:72-82 | Succeeds exactly when the record exists and the unlink works, and then removes only that key; otherwise the store is unchanged |
| `Storage.NoteStore.SaveFolders` | src/main/main.js:84-88 | On success, `folders.json` is replaced wholesale by the given collection; note files are untouched |
| `Storage.NoteStore.LoadFolders` | src/main/main.js:90-99 | Returns the stored collection, or `[]` when the file is missing or unreadable |
| `Storage.NoteStore.DeleteFolder` | src/main/main.js:101-113 | Succeeds exactly when the file is present, readable and writable, and then rewrites it without the folders carrying the id, in order; otherwise nothing is written; note files are never touched |
| `Storage.SavedNoteIsListed` | src/main/main.js:45-70 | After `n` is saved, a listing contains `n` itself and no other record with its id |
| `Storage.DistinctIdsBothListed` | src/main/main.js:48 | Two notes with different ids, whatever their titles, are both listed after both are saved |
| `Storage.DeletedNoteNotListed` | src/main/main.js:72-82 | After a deletion, no listed note has the deleted id |
| `Storage.ListingPermuted` | src/main/main.js:57-64 | Any reordering of a listing is still a listing (`readdir` fixes no order) |
| `Storage.ListingHasDistinctIds` | src/main/main.js:48 | A listing never holds two notes with the same id, because each file is named after its note's id |
| `Renderer.SelectedFolder` | src/renderer/index.js:98 | `folderSelect.value \|\| null`: empty selection becomes no folder, anything else is kept |
| `Renderer.Edited` | src/renderer/index.js:95-98 | The saved note keeps its id and creation time and takes content, title, `updatedAt` and folder from the inputs |
| `Renderer.EditedIgnoresTitle` | src/renderer/index.js:96 | The title a note had before `saveCurrentNote` has no effect on what is saved |
| `Renderer.UnassignedNotes` | src/renderer/index.js:190 | The main list is exactly the notes whose `folderId` is falsy |
| `Renderer.FolderNotes` | src/renderer/index.js:180 | A folder's list is exactly the notes whose `folderId` is that folder's id |
| `Renderer.ViewsKeepOrder` | src/renderer/index.js:180-190 | Both views preserve the order of `notes` |
| `Renderer.RecentNotes` | src/renderer/index.js:350-351 | The home page shows min(5, number of notes) notes, newest first, all drawn from `notes`; no note left out is newer than a note shown |
| `Renderer.FindNote` | src/renderer/index.js:410 | Returns the first index whose note has the id, or nothing when no note has it |
| `Renderer.DeleteFolderKeepsReferences` | src/renderer/index.js:485-486 | In memory, until the next reload: if every assigned note pointed at an existing folder before `deleteFolder`, that still holds afterwards |
| `Renderer.DeletedFolderViewEmpty` | src/renderer/index.js:486 | After the filter, the deleted folder's list is empty |
| `Renderer.SortTracking` | src/renderer/index.js:350 | Sorting gives `SortDesc` of the notes and reports where the note at a given index ended up |
| `Renderer.Workspace.constructor` | src/renderer/index.js:3-6 | The working set starts empty, with no current note and no current folder |
| `Renderer.Workspace.ShowRecentNotes` | src/renderer/index.js:350-351 | `notes` is sorted in place; the view is its first five entries; `currentNote` still refers to the same note |
| `Renderer.Workspace.LoadFoldersAndNotes` | src/renderer/index.js:109-119 | Both collections are replaced wholesale by the store's answers (`[]` on a failed read); notes end up sorted newest first with distinct ids; `currentNote` becomes detached |
| `Renderer.Workspace.CreateNewFolder` | src/renderer/index.js:63-72 | Appends exactly `{id, name, notes: []}`, leaving earlier folders as they were, and sends the whole list to `save-folders`; a fresh id keeps folder ids distinct |
| `Renderer.Workspace.ConfirmNewFolder` | src/renderer/index.js:55-61 | A name that is empty after trimming creates nothing and saves nothing; otherwise the trimmed name is created |
| `Renderer.Workspace.CreateNewNote` | src/renderer/index.js:74-90 | Appends one untitled, empty note in the current folder (or in none) with the given timestamps and makes it current; a fresh id keeps note ids distinct; nothing is saved |
| `Renderer.Workspace.LoadNote` | src/renderer/index.js:313-319 | The chosen note becomes current |
| `Renderer.Workspace.SaveCurrentNote` | src/renderer/index.js:92-107 | No current note: nothing happens. Otherwise the edit is applied in place; on success the store holds the edited note and the working set is reloaded; on failure the in-memory edit remains |
| `Renderer.Workspace.FinishRenaming` | src/renderer/index.js:263-270 | An empty or unchanged trimmed title changes nothing. Otherwise the store ends up exactly as if the current note had been saved without any rename. A failed save leaves the renamed title in `notes` together with the current note's edit; a successful one reloads and detaches `currentNote` |
| `Renderer.Workspace.RenameNote` | src/renderer/index.js:263-270 | Corrected rename: the renamed note itself is saved, and on success the stored record carries the new title and the reload detaches `currentNote`; a failed save keeps the new title in memory |
| `Renderer.Workspace.FinishRenamingFolder` | src/renderer/index.js:469-476 | An empty or unchanged trimmed name changes nothing and saves nothing; otherwise that folder's name becomes the trimmed value and the whole list is saved |
| `Renderer.Workspace.DeleteNote` | src/renderer/index.js:303-311 | The store deletes the record if it can; the working set is then reloaded from the store and, after a successful delete, holds no note with that id |
| `Renderer.Workspace.MoveNoteToFolder` | src/renderer/index.js:409-433 | Unknown id: nothing changes. Save succeeds: the note's folder is the target and the store holds it. Save fails: the old folder is restored. No other note changes in any case |
| `Renderer.Workspace.CurrentAfterFilter` | src/renderer/index.js:486 | After the filter, `currentNote` still refers to the same note if it survived, and is detached otherwise |
| `Renderer.Workspace.ForgetFolder` | src/renderer/index.js:485-486 | The in-memory half of both deletes: the folder and every note in it leave memory, the survivors keep their order, and `currentNote` stays on its note if it survived and is detached otherwise |
| `Renderer.Workspace.DeleteFolder` | src/renderer/index.js:482-493 | As written: whatever the store answers, memory loses every folder with that id and every note in it, with survivors in order; the store's notes are untouched |
| `Renderer.Workspace.DeleteFolderChecked` | src/renderer/index.js:482-493 | Corrected delete: memory changes only when the store succeeds, so memory and `folders.json` stay in step; on success the folder and its notes leave memory and `currentNote` is kept or detached as in `deleteFolder` |
| `Scenarios.MoveIntoNewFolder` | src/renderer/index.js:409-433 | Create folder "Recipes", create a note, move it in, reload: the note's `folderId` is the folder's id |
| `Scenarios.DeleteFolderIgnoresFailure` | src/renderer/index.js:482-493 | If `folders.json` cannot be read, the store keeps the folder but memory drops it |
| `Scenarios.DeleteFolderCheckedKeepsSync` | src/renderer/index.js:482-493 | The same run with the corrected delete leaves memory and disk equal |
| `Scenarios.RenameIsLost` | src/renderer/index.js:263-270 | Renaming the current new note to "Groceries" is accepted, yet both the stored and the reloaded title stay "Untitled Note" |
| `Scenarios.RenameNoteIsKept` | src/renderer/index.js:263-270 | With the corrected rename, "Groceries" is stored and survives the reload |
| `Scenarios.NoteRoundTrip` | src/main/main.js:45-70 | `save-note` then `load-notes` on an empty directory reads back exactly the saved note |
| `Scenarios.FoldersRoundTrip` | src/main/main.js:84-99 | `save-folders` then `load-folders` returns exactly the written collection |
| `Scenarios.DeleteThenLoad` | src/main/main.js:72-82 | After one note is deleted, only the other is listed, and deleting it a second time fails |
| `Scenarios.OrphanAfterReload` | src/renderer/index.js:482-493 | After a folder holding a note is deleted and the working set reloaded, the note is back with the deleted `folderId`, no folder resolves it, and the main list is empty |

## Findings

| source | as written | input that shows it | evidently intended | confidence | as-written member | corrected member |
|---|---|---|---|---|---|---|
| src/renderer/index.js:482-493 | `deleteFolder` filters `folders` and `notes` as soon as `invoke('delete-folder')` resolves. But the handler catches its own errors and resolves with `{success: false}`, so the "failure" branch never runs | `folders.json` holds folder "1" but cannot be read; delete folder "1" | Change memory only when the store reports success | high (not executed) | `Renderer.Workspace.DeleteFolder`, `Scenarios.DeleteFolderIgnoresFailure` | `Renderer.Workspace.DeleteFolderChecked`, `Scenarios.DeleteFolderCheckedKeepsSync` |
| src/renderer/index.js:263-270 | `finishRenaming` sets `note.title` and then calls `saveCurrentNote`. That function copies the title input over `currentNote.title` and saves `currentNote`, not the renamed note, so the new title is not stored unless the title input already holds it | Create a note (its title input shows "Untitled Note"), rename it via the list to "Groceries" | Save the renamed note with its new title | high (not executed) | `Renderer.Workspace.FinishRenaming`, `Scenarios.RenameIsLost` | `Renderer.Workspace.RenameNote`, `Scenarios.RenameNoteIsKept` |

## Left out

- The Quill editor, all DOM rendering, the rename input widgets, `showEditor`, the theme toggle and the drag-and-drop wiring. These are UI. The editor's HTML, the title input, the folder selector and the dropped ids enter as plain parameters.
- The Electron window lifecycle and app events. These are platform plumbing.
- The IPC transport and asynchrony. Each `invoke` is a synchronous call. `loadFoldersAndNotes` runs to completion where the source fires it without `await`, so interleavings between concurrent saves, deletes and reloads are not modelled.
- `Date.now()` ids and the clock. Ids and timestamps are parameters; timestamps are integers, where the source stores ISO-8601 strings and compares them through `new Date`.
- JSON, `path.join` and `fs.mkdir`. Serialisation is the identity and files are map entries. A failed `writeFile` is modelled as writing nothing. A partly written file that would later fail to parse is not modelled (it would turn into a `load-notes` failure).
- `readdir` order. `load-notes` returns the records in an arbitrary order; only "each stored note exactly once" is promised.
- `Renderer.Workspace.ShowRecentNotes`: says that `currentNote` refers to an entry holding the same note value after the sort. The object it follows is the tagged one; the ensures does not spell out which of two equal entries that is.
- `Renderer.Workspace.CreateNewNote`: the source reads the clock twice, once for `createdAt` and once for `updatedAt`, so the two are separate parameters. They coincide only when both reads return the same instant.
- `Renderer.Workspace.LoadNote`: modelled only for a note that is still in `notes`. A recent-notes card that survives `deleteFolder` can make a note that has left `notes` current; that case is not modelled.
- `tailwind.config.js` is styling configuration and is not part of this model.
