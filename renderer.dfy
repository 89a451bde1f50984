/** The renderer's working set: the module-level `notes`, `folders`,
    `currentNote` and `currentFolder` of the renderer script, and the
    operations that change them. Each `ipcRenderer.invoke` is a direct call
    on the `NoteStore`; the file-system outcomes it depends on are boolean
    parameters, and the editor's HTML, the title input, the folder
    selector and the clock are plain parameters. */
module Renderer {
  import opened Entities
  import opened Seqs
  import opened Storage

  /** The object `currentNote` refers to. `Attached(i)`: the very object
      `notes[i]`, so a change made through either is seen by both.
      `Detached(n)`: an object that is no longer in `notes` (a reload
      builds new objects, a folder deletion may drop it). */
  datatype Current = NoNote | Attached(index: nat) | Detached(note: Note)

  function Min(a: int, b: int): int {
    if a <= b then a else b
  }

  /** How many notes the home page lists. */
  const RecentCount: nat := 5

  /** `folderSelect.value || null`. */
  function SelectedFolder(selection: string): (r: Option<string>)
    ensures r == None <==> selection == ""
    ensures r.Some? ==> r.value == selection
  {
    if selection == "" then None else Some(selection)
  }

  /** The fields `saveCurrentNote` copies from the editor, the title input
      and the folder selector, and the fresh `updatedAt`; the id and the
      creation time are kept. */
  function Edited(n: Note, content: string, titleInput: string, selection: string, now: Timestamp): (r: Note)
    ensures r.id == n.id && r.createdAt == n.createdAt
    ensures r.content == content && r.title == titleInput && r.updatedAt == now
    ensures r.folderId == SelectedFolder(selection)
  {
    n.(content := content, title := titleInput, updatedAt := now, folderId := SelectedFolder(selection))
  }

  /** `saveCurrentNote` overwrites the title, so the title the note had
      before makes no difference to what is saved. */
  lemma EditedIgnoresTitle(n: Note, t: string, content: string, titleInput: string, selection: string, now: Timestamp)
    ensures Edited(n.(title := t), content, titleInput, selection, now)
         == Edited(n, content, titleInput, selection, now)
  {
  }

  /** The main list: `notes.filter(note => !note.folderId)`. */
  function UnassignedNotes(notes: seq<Note>): (r: seq<Note>)
    ensures forall n :: n in r <==> n in notes && IsUnassigned(n)
    ensures |r| <= |notes|
  {
    Filter(notes, IsUnassigned)
  }

  /** The selector `note => note.folderId === folderId`. */
  function InFolder(folderId: string): Note -> bool {
    (n: Note) => n.folderId == Some(folderId)
  }

  /** The selector `note => note.folderId !== folderId`. */
  function OutsideFolder(folderId: string): Note -> bool {
    (n: Note) => n.folderId != Some(folderId)
  }

  /** A folder's list: `notes.filter(note => note.folderId === folder.id)`. */
  function FolderNotes(notes: seq<Note>, folder: Folder): (r: seq<Note>)
    ensures forall n :: n in r <==> n in notes && n.folderId == Some(folder.id)
    ensures |r| <= |notes|
  {
    Filter(notes, InFolder(folder.id))
  }

  /** Both views keep the order of `notes`: the view of a concatenation is
      the concatenation of the views. */
  lemma ViewsKeepOrder(a: seq<Note>, b: seq<Note>, folder: Folder)
    ensures UnassignedNotes(a + b) == UnassignedNotes(a) + UnassignedNotes(b)
    ensures FolderNotes(a + b, folder) == FolderNotes(a, folder) + FolderNotes(b, folder)
  {
    FilterAppend(a, b, IsUnassigned);
    FilterAppend(a, b, InFolder(folder.id));
  }

  /** The home page: the first five notes after sorting by `updatedAt`,
      newest first. No note left out is newer than a note shown. */
  function RecentNotes(notes: seq<Note>): (r: seq<Note>)
    ensures |r| == Min(RecentCount, |notes|)
    ensures IsDescending(r, UpdatedAt)
    ensures multiset(r) <= multiset(notes)
    ensures forall x, y :: x in r && y in multiset(notes) - multiset(r) ==> y.updatedAt <= x.updatedAt
  {
    var sorted := SortDesc(notes, UpdatedAt);
    var k := Min(RecentCount, |sorted|);
    SortDescending(notes, UpdatedAt);
    PrefixDominates(sorted, UpdatedAt, k);
    sorted[..k]
  }

  /** `notes.find(n => n.id === noteId)`: the first note with this id. */
  function FindNote(notes: seq<Note>, noteId: string): (r: Option<nat>)
    ensures r.Some? ==> r.value < |notes| && notes[r.value].id == noteId
    ensures r.Some? ==> forall k :: 0 <= k < r.value ==> notes[k].id != noteId
    ensures r.None? ==> forall k :: 0 <= k < |notes| ==> notes[k].id != noteId
  {
    if notes == [] then None
    else if notes[0].id == noteId then Some(0)
    else match FindNote(notes[1..], noteId)
      case None => None
      case Some(k) => Some(k + 1)
  }

  /** No two notes share an id. */
  ghost predicate NoteIdsDistinct(notes: seq<Note>) {
    forall i, j :: 0 <= i < j < |notes| ==> notes[i].id != notes[j].id
  }

  /** No two folders share an id. */
  ghost predicate FolderIdsDistinct(folders: seq<Folder>) {
    forall i, j :: 0 <= i < j < |folders| ==> folders[i].id != folders[j].id
  }

  /** Notes pointing at a folder id that exists (an empty id is falsy and
      counts as no folder). */
  ghost predicate FolderIdsResolve(notes: seq<Note>, folders: seq<Folder>) {
    forall n :: n in notes && !IsUnassigned(n) ==> exists f :: f in folders && Some(f.id) == n.folderId
  }

  /** Deleting a folder from both collections, as `deleteFolder` does,
      leaves no note pointing at a folder that is gone. */
  lemma DeleteFolderKeepsReferences(notes: seq<Note>, folders: seq<Folder>, folderId: string)
    requires FolderIdsResolve(notes, folders)
    ensures FolderIdsResolve(Filter(notes, OutsideFolder(folderId)), WithoutFolder(folders, folderId))
  {
    var kept, fs := Filter(notes, OutsideFolder(folderId)), WithoutFolder(folders, folderId);
    forall n | n in kept && !IsUnassigned(n) ensures exists f :: f in fs && Some(f.id) == n.folderId {
      assert n in notes && n.folderId != Some(folderId);
      var f :| f in folders && Some(f.id) == n.folderId;
      assert f in fs;
    }
  }

  /** After a folder is deleted from memory its list is empty. */
  lemma DeletedFolderViewEmpty(notes: seq<Note>, folder: Folder)
    ensures FolderNotes(Filter(notes, OutsideFolder(folder.id)), folder) == []
  {
    var kept := Filter(notes, OutsideFolder(folder.id));
    forall j | 0 <= j < |kept| ensures !InFolder(folder.id)(kept[j]) {
      assert kept[j] in kept;
    }
    FilterNone(kept, InFolder(folder.id));
  }

  /* Tracking `currentNote` through the in-place sort: the note it refers
     to is tagged `true`, the sequence is sorted by the same key, and the
     tag shows where the object went. */

  function Tag(s: seq<Note>, i: nat): (r: seq<(Note, bool)>)
    ensures |r| == |s|
    ensures forall k :: 0 <= k < |s| ==> r[k] == (s[k], k == i)
  {
    seq(|s|, k requires 0 <= k < |s| => (s[k], k == i))
  }

  function Untag(s: seq<(Note, bool)>): (r: seq<Note>)
    ensures |r| == |s|
    ensures forall k :: 0 <= k < |s| ==> r[k] == s[k].0
  {
    seq(|s|, k requires 0 <= k < |s| => s[k].0)
  }

  function TaggedUpdatedAt(p: (Note, bool)): Timestamp {
    p.0.updatedAt
  }

  lemma {:induction false} UntagInsert(p: (Note, bool), l: seq<(Note, bool)>)
    ensures Untag(Insert(p, l, TaggedUpdatedAt)) == Insert(p.0, Untag(l), UpdatedAt)
  {
    if l != [] && TaggedUpdatedAt(p) < TaggedUpdatedAt(l[0]) {
      UntagInsert(p, l[1..]);
      assert Untag(l)[1..] == Untag(l[1..]);
      assert Untag([l[0]] + Insert(p, l[1..], TaggedUpdatedAt))
          == [l[0].0] + Untag(Insert(p, l[1..], TaggedUpdatedAt));
    } else {
      assert Untag([p] + l) == [p.0] + Untag(l);
    }
  }

  /** Sorting the tagged sequence moves the notes exactly as sorting the
      notes themselves. */
  lemma {:induction false} UntagSort(l: seq<(Note, bool)>)
    ensures Untag(SortDesc(l, TaggedUpdatedAt)) == SortDesc(Untag(l), UpdatedAt)
  {
    if l != [] {
      var rest := SortDesc(l[1..], TaggedUpdatedAt);
      var u := Untag(l);
      assert u != [] && u[0] == l[0].0 && u[1..] == Untag(l[1..]);
      calc {
        Untag(SortDesc(l, TaggedUpdatedAt));
        Untag(Insert(l[0], rest, TaggedUpdatedAt));
        { UntagInsert(l[0], rest); }
        Insert(l[0].0, Untag(rest), UpdatedAt);
        { UntagSort(l[1..]); }
        Insert(u[0], SortDesc(u[1..], UpdatedAt), UpdatedAt);
        SortDesc(u, UpdatedAt);
      }
    }
  }

  lemma UntagTag(s: seq<Note>, i: nat)
    ensures Untag(Tag(s, i)) == s
  {
  }

  /** The sort keeps exactly one tagged entry, and it is the tagged note. */
  lemma TagSurvivesSort(s: seq<Note>, i: nat)
    requires i < |s|
    ensures (s[i], true) in SortDesc(Tag(s, i), TaggedUpdatedAt)
    ensures forall p :: p in SortDesc(Tag(s, i), TaggedUpdatedAt) && p.1 ==> p == (s[i], true)
  {
    var t := Tag(s, i);
    var sorted := SortDesc(t, TaggedUpdatedAt);
    assert t[i] == (s[i], true);
    assert (s[i], true) in multiset(sorted);
    forall p | p in sorted && p.1 ensures p == (s[i], true) {
      assert p in multiset(t);
      var k :| 0 <= k < |t| && t[k] == p;
    }
  }

  /** Position of the tagged entry. */
  function TagIndex(s: seq<(Note, bool)>, n: Note): (k: nat)
    requires (n, true) in s
    ensures k < |s| && s[k] == (n, true)
  {
    if s[0] == (n, true) then 0 else 1 + TagIndex(s[1..], n)
  }

  /** The sorted notes, and where the note that was at index `i` ended up. */
  function SortTracking(s: seq<Note>, i: nat): (r: (seq<Note>, nat))
    requires i < |s|
    ensures r.0 == SortDesc(s, UpdatedAt)
    ensures r.1 < |r.0| && r.0[r.1] == s[i]
  {
    var tagged := SortDesc(Tag(s, i), TaggedUpdatedAt);
    TagSurvivesSort(s, i);
    UntagSort(Tag(s, i));
    UntagTag(s, i);
    var k := TagIndex(tagged, s[i]);
    (Untag(tagged), k)
  }

  class Workspace {
    var notes: seq<Note>
    var folders: seq<Folder>
    var current: Current
    /** Read by `createNewNote`; no code of the renderer ever assigns it. */
    var currentFolder: Option<Folder>
    /** The storage process on the other side of `ipcRenderer.invoke`. */
    const store: NoteStore

    ghost predicate Valid()
      reads this, store
    {
      && store.Valid()
      && (current.Attached? ==> current.index < |notes|)
    }

    /** The value of the object `currentNote` refers to, if any. */
    function CurrentNote(): (r: Option<Note>)
      reads this
      requires current.Attached? ==> current.index < |notes|
      ensures r.None? <==> current.NoNote?
    {
      match current
      case NoNote => None
      case Attached(i) => Some(notes[i])
      case Detached(n) => Some(n)
    }

    /** The in-memory folder list mirrors `folders.json`. */
    ghost predicate FoldersInSync()
      reads this, store
    {
      store.folders == Some(folders)
    }

    /** What `loadFoldersAndNotes` leaves: both collections replaced by what
        the store answered, and the notes sorted newest first by the
        `showRecentNotes` it ends with. */
    ghost predicate Reloaded(foldersReadOk: bool, notesReadOk: bool)
      reads this, store
    {
      && folders == (if foldersReadOk && store.folders.Some? then store.folders.value else [])
      && (if notesReadOk then IsListing(notes, store.notes) else notes == [])
      && IsDescending(notes, UpdatedAt)
    }

    /** The state before `DOMContentLoaded` fires. */
    constructor (store: NoteStore)
      requires store.Valid()
      ensures Valid()
      ensures this.store == store
      ensures notes == [] && folders == [] && current == NoNote && currentFolder == None
    {
      this.store := store;
      notes := [];
      folders := [];
      current := NoNote;
      currentFolder := None;
    }

    /** `showRecentNotes`: sorts `notes` in place, newest first, and shows
        the first five. `currentNote` still refers to the same object. */
    method ShowRecentNotes() returns (recent: seq<Note>)
      requires Valid()
      modifies this
      ensures Valid()
      ensures notes == SortDesc(old(notes), UpdatedAt)
      ensures recent == RecentNotes(old(notes)) && recent == notes[..|recent|]
      ensures folders == old(folders) && currentFolder == old(currentFolder)
      ensures old(current).Attached? ==>
                current.Attached? && notes[current.index] == old(notes)[old(current).index]
      ensures !old(current).Attached? ==> current == old(current)
    {
      if current.Attached? {
        var sorted := SortTracking(notes, current.index);
        notes, current := sorted.0, Attached(sorted.1);
      } else {
        notes := SortDesc(notes, UpdatedAt);
      }
      recent := notes[..Min(RecentCount, |notes|)];
    }

    /** `loadFoldersAndNotes`: replace both collections wholesale with what
        the store answers; neither handler throws, so this always runs
        through. The object `currentNote` refers to is no longer in the
        rebuilt `notes`. */
    method LoadFoldersAndNotes(foldersReadOk: bool, notesReadOk: bool)
      requires Valid()
      modifies this
      ensures Valid()
      ensures Reloaded(foldersReadOk, notesReadOk)
      ensures NoteIdsDistinct(notes)
      ensures old(current).Attached? ==> current == Detached(old(notes)[old(current).index])
      ensures !old(current).Attached? ==> current == old(current)
      ensures currentFolder == old(currentFolder)
    {
      folders := store.LoadFolders(foldersReadOk);
      var loaded := store.LoadNotes(notesReadOk);
      if current.Attached? {
        current := Detached(notes[current.index]);
      }
      notes := loaded;
      var _ := ShowRecentNotes();
      if notesReadOk {
        ListingPermuted(loaded, notes, store.notes);
        ListingHasDistinctIds(store.notes, notes);
      }
      SortDescending(loaded, UpdatedAt);
    }

    /** `createNewFolder`: append the folder, then `saveFolders`, whose
        failure is only logged. */
    method CreateNewFolder(name: string, id: string, writeOk: bool)
      requires Valid()
      modifies this, store
      ensures Valid()
      ensures folders == old(folders) + [Folder(id, name, [])]
      ensures FolderIdsDistinct(old(folders)) && (forall f :: f in old(folders) ==> f.id != id) ==>
                FolderIdsDistinct(folders)
      ensures store.folders == if writeOk then Some(folders) else old(store.folders)
      ensures store.notes == old(store.notes)
      ensures notes == old(notes) && current == old(current) && currentFolder == old(currentFolder)
    {
      folders := folders + [Folder(id, name, [])];
      var _ := store.SaveFolders(folders, writeOk);
    }

    /** `confirmNewFolder`: trim the typed name; a name that is empty after
        trimming creates nothing. */
    method ConfirmNewFolder(input: string, id: string, writeOk: bool) returns (created: bool)
      requires Valid()
      modifies this, store
      ensures Valid()
      ensures created <==> Trim(input) != ""
      ensures created ==> folders == old(folders) + [Folder(id, Trim(input), [])]
      ensures !created ==> folders == old(folders)
      ensures store.folders == if created && writeOk then Some(folders) else old(store.folders)
      ensures store.notes == old(store.notes)
      ensures notes == old(notes) && current == old(current) && currentFolder == old(currentFolder)
    {
      var name := Trim(input);
      created := name != "";
      if created {
        CreateNewFolder(name, id, writeOk);
      }
    }

    /** `createNewNote`: a new untitled note in the current folder (or in
        none), appended and made current. Nothing is saved yet. */
    method CreateNewNote(id: string, createdAt: Timestamp, updatedAt: Timestamp)
      requires Valid()
      modifies this
      ensures Valid()
      ensures |notes| == |old(notes)| + 1 && notes[..|old(notes)|] == old(notes)
      ensures var n := notes[|old(notes)|];
        && n.id == id && n.title == UntitledNote && n.content == ""
        && n.createdAt == createdAt && n.updatedAt == updatedAt
        && n.folderId == (if currentFolder.Some? then Some(currentFolder.value.id) else None)
      ensures NoteIdsDistinct(old(notes)) && (forall n :: n in old(notes) ==> n.id != id) ==>
                NoteIdsDistinct(notes)
      ensures current == Attached(|old(notes)|)
      ensures folders == old(folders) && currentFolder == old(currentFolder)
    {
      var folderId := if currentFolder.Some? then Some(currentFolder.value.id) else None;
      var n := Note(id, UntitledNote, "", createdAt, updatedAt, folderId);
      current := Attached(|notes|);
      notes := notes + [n];
    }

    /** `loadNote`: open a listed note in the editor. */
    method LoadNote(i: nat)
      requires Valid() && i < |notes|
      modifies this
      ensures Valid()
      ensures current == Attached(i) && CurrentNote() == Some(notes[i])
      ensures notes == old(notes) && folders == old(folders) && currentFolder == old(currentFolder)
    {
      current := Attached(i);
    }

    /** `saveCurrentNote`: nothing without a current note. Otherwise copy
        the editor's content, the title input, the clock and the folder
        selector into the current note in place, send it to `save-note`,
        and reload on success. A failed save keeps the in-memory edit. */
    method SaveCurrentNote(content: string, titleInput: string, selection: string, now: Timestamp,
                           writeOk: bool, foldersReadOk: bool, notesReadOk: bool)
      returns (saved: bool)
      requires Valid()
      modifies this, store
      ensures Valid()
      ensures store.folders == old(store.folders) && currentFolder == old(currentFolder)
      ensures old(current).NoNote? ==>
        && !saved && store.notes == old(store.notes)
        && notes == old(notes) && folders == old(folders) && current == NoNote
      ensures !old(current).NoNote? ==>
        var after := Edited(old(CurrentNote()).value, content, titleInput, selection, now);
        && saved == writeOk
        && store.notes == (if saved then old(store.notes)[after.id := after] else old(store.notes))
        && (saved ==> Reloaded(foldersReadOk, notesReadOk) && current == Detached(after))
        && (!saved ==> folders == old(folders) && CurrentNote() == Some(after))
        && (!saved && old(current).Attached? ==>
              current == old(current) && notes == old(notes)[old(current).index := after])
        && (!saved && old(current).Detached? ==> current == Detached(after) && notes == old(notes))
    {
      if current.NoNote? {
        return false;
      }
      var after := Edited(CurrentNote().value, content, titleInput, selection, now);
      if current.Attached? {
        notes := notes[current.index := after];
      } else {
        current := Detached(after);
      }
      saved := store.SaveNote(after, writeOk);
      if saved {
        LoadFoldersAndNotes(foldersReadOk, notesReadOk);
      }
    }

    /** `finishRenaming`, as written: set the listed note's title to the
        trimmed input when it is non-empty and different, then call
        `saveCurrentNote` — which saves the CURRENT note with the title
        taken from the title input. */
    method FinishRenaming(i: nat, input: string, content: string, titleInput: string, selection: string,
                          now: Timestamp, writeOk: bool, foldersReadOk: bool, notesReadOk: bool)
      returns (renamed: bool)
      requires Valid() && i < |notes|
      modifies this, store
      ensures Valid()
      ensures renamed <==> Trim(input) != "" && Trim(input) != old(notes[i].title)
      ensures store.folders == old(store.folders) && currentFolder == old(currentFolder)
      ensures !renamed ==>
        store.notes == old(store.notes) && notes == old(notes) && folders == old(folders) && current == old(current)
      ensures renamed && old(current).NoNote? ==>
        && store.notes == old(store.notes) && folders == old(folders) && current == NoNote
        && notes == old(notes)[i := old(notes[i]).(title := Trim(input))]
      ensures renamed && !old(current).NoNote? ==>
        var after := Edited(old(CurrentNote()).value, content, titleInput, selection, now);
        var retitled := old(notes)[i := old(notes[i]).(title := Trim(input))];
        && store.notes == (if writeOk then old(store.notes)[after.id := after] else old(store.notes))
        && (writeOk ==> Reloaded(foldersReadOk, notesReadOk) && current == Detached(after))
        && (!writeOk ==> folders == old(folders) && CurrentNote() == Some(after))
        && (!writeOk && old(current).Attached? ==>
              current == old(current) && notes == retitled[old(current).index := after])
        && (!writeOk && old(current).Detached? ==> current == Detached(after) && notes == retitled)
    {
      var title := Trim(input);
      renamed := title != "" && title != notes[i].title;
      if renamed {
        ghost var c := CurrentNote();
        notes := notes[i := notes[i].(title := title)];
        if c.Some? {
          EditedIgnoresTitle(c.value, title, content, titleInput, selection, now);
        }
        var _ := SaveCurrentNote(content, titleInput, selection, now, writeOk, foldersReadOk, notesReadOk);
      }
    }

    /** Renaming a listed note as evidently intended: set its title to the
        trimmed input when that is non-empty and different, save THAT note,
        and reload on success. */
    method RenameNote(i: nat, input: string, writeOk: bool, foldersReadOk: bool, notesReadOk: bool)
      returns (renamed: bool, saved: bool)
      requires Valid() && i < |notes|
      modifies this, store
      ensures Valid()
      ensures renamed <==> Trim(input) != "" && Trim(input) != old(notes[i].title)
      ensures saved ==> renamed
      ensures store.folders == old(store.folders) && currentFolder == old(currentFolder)
      ensures !renamed ==>
        store.notes == old(store.notes) && notes == old(notes) && folders == old(folders) && current == old(current)
      ensures renamed ==>
        var r := old(notes[i]).(title := Trim(input));
        && saved == writeOk
        && store.notes == (if saved then old(store.notes)[r.id := r] else old(store.notes))
        && (saved ==> Reloaded(foldersReadOk, notesReadOk))
        && (!saved ==> notes == old(notes)[i := r] && folders == old(folders) && current == old(current))
        && (saved ==> r.id in store.notes && store.notes[r.id].title == Trim(input))
        && (saved && old(current).Attached? ==>
              current == Detached(old(notes)[i := r][old(current).index]))
        && (saved && !old(current).Attached? ==> current == old(current))
    {
      var title := Trim(input);
      renamed := title != "" && title != notes[i].title;
      saved := false;
      if renamed {
        notes := notes[i := notes[i].(title := title)];
        saved := store.SaveNote(notes[i], writeOk);
        if saved {
          LoadFoldersAndNotes(foldersReadOk, notesReadOk);
        }
      }
    }

    /** `finishRenamingFolder`: a trimmed, non-empty, different name
        replaces the folder's name and the whole collection is saved;
        otherwise nothing happens. */
    method FinishRenamingFolder(i: nat, input: string, writeOk: bool) returns (renamed: bool)
      requires Valid() && i < |folders|
      modifies this, store
      ensures Valid()
      ensures renamed <==> Trim(input) != "" && Trim(input) != old(folders[i].name)
      ensures folders == if renamed then old(folders)[i := old(folders[i]).(name := Trim(input))] else old(folders)
      ensures store.folders == if renamed && writeOk then Some(folders) else old(store.folders)
      ensures store.notes == old(store.notes)
      ensures notes == old(notes) && current == old(current) && currentFolder == old(currentFolder)
    {
      var name := Trim(input);
      renamed := name != "" && name != folders[i].name;
      if renamed {
        folders := folders[i := folders[i].(name := name)];
        var _ := store.SaveFolders(folders, writeOk);
      }
    }

    /** `deleteNote`: ask the store to unlink the note, then reload whatever
        it answered. `currentNote` is not cleared. */
    method DeleteNote(noteId: string, unlinkOk: bool, foldersReadOk: bool, notesReadOk: bool)
      returns (ok: bool)
      requires Valid()
      modifies this, store
      ensures Valid()
      ensures ok <==> noteId in old(store.notes) && unlinkOk
      ensures store.notes == if ok then old(store.notes) - {noteId} else old(store.notes)
      ensures store.folders == old(store.folders)
      ensures Reloaded(foldersReadOk, notesReadOk)
      ensures ok ==> forall n :: n in notes ==> n.id != noteId
      ensures old(current).Attached? ==> current == Detached(old(notes)[old(current).index])
      ensures !old(current).Attached? ==> current == old(current)
      ensures currentFolder == old(currentFolder)
    {
      ok := store.DeleteNote(noteId, unlinkOk);
      LoadFoldersAndNotes(foldersReadOk, notesReadOk);
      if ok && notesReadOk {
        DeletedNoteNotListed(old(store.notes), noteId, notes);
      }
    }

    /** `moveNoteToFolder`: find the note, set its folder in place, save it,
        and put the old folder back if the save fails. No other note
        changes. */
    method MoveNoteToFolder(noteId: string, folderId: string, writeOk: bool) returns (moved: bool)
      requires Valid()
      modifies this, store
      ensures Valid()
      ensures folders == old(folders) && current == old(current) && currentFolder == old(currentFolder)
      ensures store.folders == old(store.folders)
      ensures |notes| == |old(notes)|
      ensures FindNote(old(notes), noteId).None? ==>
        !moved && notes == old(notes) && store.notes == old(store.notes)
      ensures FindNote(old(notes), noteId).Some? ==>
        var j := FindNote(old(notes), noteId).value;
        && moved == writeOk
        && (forall k :: 0 <= k < |notes| && k != j ==> notes[k] == old(notes)[k])
        && (moved ==> notes[j] == old(notes)[j].(folderId := Some(folderId))
                      && store.notes == old(store.notes)[noteId := notes[j]])
        && (!moved ==> notes[j] == old(notes)[j] && store.notes == old(store.notes))
    {
      moved := false;
      var found := FindNote(notes, noteId);
      if found.Some? {
        var j := found.value;
        var oldFolderId := notes[j].folderId;
        notes := notes[j := notes[j].(folderId := Some(folderId))];
        moved := store.SaveNote(notes[j], writeOk);
        if !moved {
          notes := notes[j := notes[j].(folderId := oldFolderId)];
        }
      }
    }

    /** Where the object `currentNote` refers to is after `notes` is
        filtered by `keep`. */
    function CurrentAfterFilter(keep: Note -> bool): (c: Current)
      reads this
      requires current.Attached? ==> current.index < |notes|
      ensures current.Attached? && keep(notes[current.index]) ==>
        c.Attached? && c.index < |Filter(notes, keep)| && Filter(notes, keep)[c.index] == notes[current.index]
      ensures current.Attached? && !keep(notes[current.index]) ==> c == Detached(notes[current.index])
      ensures !current.Attached? ==> c == current
    {
      match current
      case Attached(i) =>
        if keep(notes[i]) then
          FilterAt(notes, keep, i);
          Attached(|Filter(notes[..i], keep)|)
        else Detached(notes[i])
      case _ => current
    }

    /** The in-memory half of `deleteFolder`: drop the folder from
        `folders` and its notes from `notes`, keeping the order of the
        rest; `currentNote` follows its object. */
    method ForgetFolder(folderId: string)
      requires Valid()
      modifies this
      ensures Valid()
      ensures folders == WithoutFolder(old(folders), folderId)
      ensures notes == Filter(old(notes), OutsideFolder(folderId))
      ensures forall f :: f in folders ==> f.id != folderId
      ensures forall n :: n in notes ==> n.folderId != Some(folderId)
      ensures old(current).Attached? && old(notes)[old(current).index].folderId != Some(folderId) ==>
        current.Attached? && notes[current.index] == old(notes)[old(current).index]
      ensures old(current).Attached? && old(notes)[old(current).index].folderId == Some(folderId) ==>
        current == Detached(old(notes)[old(current).index])
      ensures !old(current).Attached? ==> current == old(current)
      ensures currentFolder == old(currentFolder)
    {
      folders := WithoutFolder(folders, folderId);
      current := CurrentAfterFilter(OutsideFolder(folderId));
      notes := Filter(notes, OutsideFolder(folderId));
    }

    /** `deleteFolder`, as written: the handler never throws, so the
        folder and its notes leave memory even when the store answered
        `success: false` and kept them. */
    method DeleteFolder(folderId: string, readOk: bool, writeOk: bool) returns (ok: bool)
      requires Valid()
      modifies this, store
      ensures Valid()
      ensures ok <==> old(store.folders).Some? && readOk && writeOk
      ensures store.folders == if ok then Some(WithoutFolder(old(store.folders).value, folderId)) else old(store.folders)
      ensures store.notes == old(store.notes)
      ensures folders == WithoutFolder(old(folders), folderId)
      ensures notes == Filter(old(notes), OutsideFolder(folderId))
      ensures forall f :: f in folders ==> f.id != folderId
      ensures forall n :: n in notes ==> n.folderId != Some(folderId)
      ensures old(current).Attached? && old(notes)[old(current).index].folderId != Some(folderId) ==>
        current.Attached? && notes[current.index] == old(notes)[old(current).index]
      ensures old(current).Attached? && old(notes)[old(current).index].folderId == Some(folderId) ==>
        current == Detached(old(notes)[old(current).index])
      ensures !old(current).Attached? ==> current == old(current)
      ensures currentFolder == old(currentFolder)
    {
      ok := store.DeleteFolder(folderId, readOk, writeOk);
      ForgetFolder(folderId);
    }

    /** `deleteFolder` as evidently intended: change memory only when the
        store reports success, so the folder list stays in step with
        `folders.json`. */
    method DeleteFolderChecked(folderId: string, readOk: bool, writeOk: bool) returns (ok: bool)
      requires Valid()
      modifies this, store
      ensures Valid()
      ensures ok <==> old(store.folders).Some? && readOk && writeOk
      ensures store.folders == if ok then Some(WithoutFolder(old(store.folders).value, folderId)) else old(store.folders)
      ensures store.notes == old(store.notes)
      ensures folders == if ok then WithoutFolder(old(folders), folderId) else old(folders)
      ensures notes == if ok then Filter(old(notes), OutsideFolder(folderId)) else old(notes)
      ensures ok ==> forall f :: f in folders ==> f.id != folderId
      ensures ok ==> forall n :: n in notes ==> n.folderId != Some(folderId)
      ensures ok && old(current).Attached? && old(notes)[old(current).index].folderId != Some(folderId) ==>
        current.Attached? && notes[current.index] == old(notes)[old(current).index]
      ensures ok && old(current).Attached? && old(notes)[old(current).index].folderId == Some(folderId) ==>
        current == Detached(old(notes)[old(current).index])
      ensures !ok || !old(current).Attached? ==> current == old(current)
      ensures currentFolder == old(currentFolder)
      ensures old(FoldersInSync()) ==> FoldersInSync()
    {
      ok := store.DeleteFolder(folderId, readOk, writeOk);
      if ok {
        ForgetFolder(folderId);
      }
    }
  }
}
