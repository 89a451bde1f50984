/** Concrete runs of the working set against a fresh store: the move
    scenario the app is meant to support, and the two places where the
    renderer does not do what it evidently means to (each next to the
    corrected operation). */
module Scenarios {
  import opened Entities
  import opened Storage
  import opened Renderer
  import opened Seqs

  /** Create folder "Recipes", create a note outside any folder, drag it
      onto the folder, reload: the reloaded note belongs to the folder. */
  method MoveIntoNewFolder() returns (created: bool, moved: bool, folderId: Option<string>)
    ensures created && moved && folderId == Some("1")
  {
    var store := new NoteStore();
    var ws := new Workspace(store);
    TrimOfTrimmed("Recipes");
    created := ws.ConfirmNewFolder("Recipes", "1", true);
    ws.CreateNewNote("2", 0, 0);
    moved := ws.MoveNoteToFolder("2", "1", true);
    ws.LoadFoldersAndNotes(true, true);
    assert "2" in store.notes;
    assert ws.notes[0] in ws.notes;
    folderId := ws.notes[0].folderId;
  }

  /** `deleteFolder` as written: `folders.json` cannot be read, the store
      answers `success: false` and keeps the folder, yet the folder is gone
      from memory — and comes back with the next reload. */
  method DeleteFolderIgnoresFailure() returns (ok: bool, inMemory: seq<Folder>, onDisk: Option<seq<Folder>>)
    ensures !ok && inMemory == [] && onDisk == Some([Folder("1", "Work", [])])
  {
    var store := new NoteStore();
    var ws := new Workspace(store);
    ws.CreateNewFolder("Work", "1", true);
    ok := ws.DeleteFolder("1", false, true);
    assert [] + [Folder("1", "Work", [])] == [Folder("1", "Work", [])];
    assert [Folder("1", "Work", [])][1..] == [];
    inMemory, onDisk := ws.folders, store.folders;
  }

  /** The same run with the corrected `DeleteFolderChecked`: memory and
      `folders.json` still agree. */
  method DeleteFolderCheckedKeepsSync() returns (ok: bool, inMemory: seq<Folder>, onDisk: Option<seq<Folder>>)
    ensures !ok && inMemory == [Folder("1", "Work", [])] && onDisk == Some(inMemory)
  {
    var store := new NoteStore();
    var ws := new Workspace(store);
    ws.CreateNewFolder("Work", "1", true);
    ok := ws.DeleteFolderChecked("1", false, true);
    inMemory, onDisk := ws.folders, store.folders;
  }

  /** `finishRenaming` as written: the new note is current and the title
      input shows "Untitled Note". Renaming it to "Groceries" is accepted,
      but `saveCurrentNote` copies the title input back over the new title
      before saving, so both the stored record and the reloaded list keep
      the old title. */
  method RenameIsLost() returns (renamed: bool, stored: string, shown: string)
    ensures renamed && stored == UntitledNote && shown == UntitledNote
  {
    var store := new NoteStore();
    var ws := new Workspace(store);
    ws.CreateNewNote("7", 0, 0);
    TrimOfTrimmed("Groceries");
    renamed := ws.FinishRenaming(0, "Groceries", "", UntitledNote, "", 1, true, true, true);
    assert "7" in store.notes;
    stored := store.notes["7"].title;
    assert ws.notes[0] in ws.notes;
    shown := ws.notes[0].title;
  }

  /** The same run with the corrected `RenameNote`: the new title is
      stored and survives the reload. */
  method RenameNoteIsKept() returns (renamed: bool, saved: bool, stored: string, shown: string)
    ensures renamed && saved && stored == "Groceries" && shown == "Groceries"
  {
    var store := new NoteStore();
    var ws := new Workspace(store);
    ws.CreateNewNote("7", 0, 0);
    TrimOfTrimmed("Groceries");
    renamed, saved := ws.RenameNote(0, "Groceries", true, true, true);
    assert "7" in store.notes;
    stored := store.notes["7"].title;
    assert ws.notes[0] in ws.notes;
    shown := ws.notes[0].title;
  }

  /** `save-note` then `load-notes` on an empty notes directory: the one
      record read back is the note that was saved. */
  method NoteRoundTrip(n: Note) returns (loaded: seq<Note>)
    ensures loaded == [n]
  {
    var store := new NoteStore();
    var _ := store.SaveNote(n, true);
    loaded := store.LoadNotes(true);
    SavedNoteIsListed(map[], n, loaded);
    assert |loaded| == 1;
    assert loaded[0] in loaded;
  }

  /** `save-folders` then `load-folders` gives back exactly the collection
      that was written, whatever was there before. */
  method FoldersRoundTrip(before: seq<Folder>, fs: seq<Folder>) returns (loaded: seq<Folder>)
    ensures loaded == fs
  {
    var store := new NoteStore();
    var _ := store.SaveFolders(before, true);
    var _ := store.SaveFolders(fs, true);
    loaded := store.LoadFolders(true);
  }

  /** `delete-note` of a stored note, then `load-notes`: the id is gone and
      the other note is still there; deleting it again fails. */
  method DeleteThenLoad(a: Note, b: Note) returns (first: bool, again: bool, loaded: seq<Note>)
    requires a.id != b.id
    ensures first && !again && loaded == [b]
  {
    var store := new NoteStore();
    var _ := store.SaveNote(a, true);
    var _ := store.SaveNote(b, true);
    first := store.DeleteNote(a.id, true);
    again := store.DeleteNote(a.id, true);
    loaded := store.LoadNotes(true);
    assert store.notes == map[b.id := b];
    assert |loaded| == 1;
    assert loaded[0] in loaded;
  }

  /** `deleteFolder` removes a folder's notes from memory only: their files
      stay, so the next reload brings them back still pointing at the
      deleted folder, and they show in neither the main list nor any
      folder's list. */
  method OrphanAfterReload(n: Note) returns (folders: seq<Folder>, orphans: seq<Note>, unassigned: seq<Note>)
    requires n.folderId == Some("1")
    ensures folders == [] && orphans == [n] && unassigned == []
    ensures !FolderIdsResolve(orphans, folders)
  {
    var store := new NoteStore();
    var _ := store.SaveNote(n, true);
    var _ := store.SaveFolders([Folder("1", "Work", [])], true);
    var ws := new Workspace(store);
    ws.LoadFoldersAndNotes(true, true);
    var _ := ws.DeleteFolder("1", true, true);
    OnlyFolderRemoved();
    ws.LoadFoldersAndNotes(true, true);
    SingleListing(ws.notes, n);
    folders, orphans := ws.folders, ws.notes;
    unassigned := UnassignedNotes(orphans);
    OrphanInvisible(n);
  }

  lemma OnlyFolderRemoved()
    ensures WithoutFolder([Folder("1", "Work", [])], "1") == []
  {
    assert [Folder("1", "Work", [])][1..] == [];
  }

  lemma SingleListing(r: seq<Note>, n: Note)
    requires IsListing(r, map[n.id := n])
    ensures r == [n]
  {
    assert |r| == 1 && r[0] in r;
  }

  lemma OrphanInvisible(n: Note)
    requires n.folderId == Some("1")
    ensures UnassignedNotes([n]) == [] && !FolderIdsResolve([n], [])
  {
    assert [n][1..] == [];
  }
}
