/** The storage process: the IPC handlers installed by `setupIpcHandlers`.
    Notes live one per file, `notes/<id>.json`, modelled as a map keyed by
    id; folders live in one file, `folders.json`, modelled as an optional
    sequence (None while the file does not exist). JSON serialisation is the
    identity. Each file-system call that can fail is a boolean parameter. */
module Storage {
  import opened Entities
  import opened Seqs

  /** Every note file is named after the id of the note it holds. */
  ghost predicate KeyedById(m: map<string, Note>) {
    forall k :: k in m ==> m[k].id == k
  }

  /** `r` lists every stored note exactly once, in some order (`readdir`
      promises none). */
  ghost predicate IsListing(r: seq<Note>, m: map<string, Note>) {
    && |r| == |m|
    && (forall x :: x in r ==> x.id in m && m[x.id] == x)
    && (forall k :: k in m ==> m[k] in r)
  }

  /** What `delete-folder` keeps: `folder => folder.id !== folderId`. */
  function OtherFolder(folderId: string): Folder -> bool {
    (f: Folder) => f.id != folderId
  }

  /** The folders `delete-folder` writes back: the old record with exactly
      the folders carrying `folderId` removed, in the same order. */
  function WithoutFolder(fs: seq<Folder>, folderId: string): (r: seq<Folder>)
    ensures forall f :: f in r <==> f in fs && f.id != folderId
  {
    Filter(fs, OtherFolder(folderId))
  }

  class NoteStore {
    /** The `notes` directory: file `<id>.json` holds `notes[id]`. */
    var notes: map<string, Note>
    /** `folders.json`, or None before it is first written. */
    var folders: Option<seq<Folder>>

    ghost predicate Valid()
      reads this
    {
      KeyedById(notes)
    }

    /** A fresh user-data directory. */
    constructor ()
      ensures Valid()
      ensures notes == map[] && folders == None
    {
      notes := map[];
      folders := None;
    }

    /** `save-note`: write the note to `<id>.json`, replacing any earlier
        record with that id. A failing `mkdir` or `writeFile` makes the
        handler throw (`ok` false) and nothing is written. */
    method SaveNote(n: Note, writeOk: bool) returns (ok: bool)
      requires Valid()
      modifies this
      ensures Valid()
      ensures ok == writeOk
      ensures notes == if ok then old(notes)[n.id := n] else old(notes)
      ensures folders == old(folders)
    {
      ok := writeOk;
      if ok {
        notes := notes[n.id := n];
      }
    }

    /** `load-notes`: read every file of the notes directory. Any failing
        read or parse (`readOk` false) turns the whole answer into `[]`. */
    method LoadNotes(readOk: bool) returns (r: seq<Note>)
      requires Valid()
      ensures readOk ==> IsListing(r, notes)
      ensures !readOk ==> r == []
    {
      r := [];
      if !readOk {
        return;
      }
      var pending := notes.Keys;
      while pending != {}
        invariant pending <= notes.Keys
        invariant |r| + |pending| == |notes|
        invariant forall x :: x in r ==> x.id in notes && notes[x.id] == x && x.id !in pending
        invariant forall k :: k in notes && k !in pending ==> notes[k] in r
        decreases |pending|
      {
        var k :| k in pending;
        r := r + [notes[k]];
        pending := pending - {k};
      }
    }

    /** `delete-note`: unlink `<id>.json`. Unlinking a file that is not
        there fails like any other unlink error. */
    method DeleteNote(id: string, unlinkOk: bool) returns (ok: bool)
      requires Valid()
      modifies this
      ensures Valid()
      ensures ok <==> id in old(notes) && unlinkOk
      ensures notes == if ok then old(notes) - {id} else old(notes)
      ensures folders == old(folders)
    {
      ok := id in notes && unlinkOk;
      if ok {
        notes := notes - {id};
      }
    }

    /** `save-folders`: overwrite `folders.json` with the whole collection;
        a failing `writeFile` makes the handler throw. */
    method SaveFolders(fs: seq<Folder>, writeOk: bool) returns (ok: bool)
      requires Valid()
      modifies this
      ensures Valid()
      ensures ok == writeOk
      ensures folders == if ok then Some(fs) else old(folders)
      ensures notes == old(notes)
    {
      ok := writeOk;
      if ok {
        folders := Some(fs);
      }
    }

    /** `load-folders`: the stored collection, or `[]` when `folders.json`
        is missing or cannot be read and parsed. */
    method LoadFolders(readOk: bool) returns (r: seq<Folder>)
      ensures folders == None ==> r == []
      ensures !readOk ==> r == []
      ensures readOk && folders.Some? ==> r == folders.value
    {
      if readOk && folders.Some? {
        r := folders.value;
      } else {
        r := [];
      }
    }

    /** `delete-folder`: read `folders.json`, drop the folders with this
        id and write the rest back. A missing or unreadable file, or a
        failing write, answers `success: false` and leaves the file as it
        was. Note files are never touched. */
    method DeleteFolder(folderId: string, readOk: bool, writeOk: bool) returns (ok: bool)
      requires Valid()
      modifies this
      ensures Valid()
      ensures ok <==> old(folders).Some? && readOk && writeOk
      ensures folders == if ok then Some(WithoutFolder(old(folders).value, folderId)) else old(folders)
      ensures notes == old(notes)
    {
      if folders.None? || !readOk {
        return false;
      }
      var kept := WithoutFolder(folders.value, folderId);
      if !writeOk {
        return false;
      }
      folders := Some(kept);
      ok := true;
    }
  }

  /** Save-then-load round trip: once `n` is stored, a listing of the store
      contains `n` itself and no other note with its id. */
  lemma SavedNoteIsListed(m: map<string, Note>, n: Note, r: seq<Note>)
    requires IsListing(r, m[n.id := n])
    ensures n in r
    ensures forall x :: x in r && x.id == n.id ==> x == n
  {
    assert n.id in m[n.id := n];
  }

  /** Titles are not keys: two notes with different ids are both listed
      after both are saved, whatever their titles. */
  lemma DistinctIdsBothListed(m: map<string, Note>, a: Note, b: Note, r: seq<Note>)
    requires a.id != b.id
    requires IsListing(r, m[a.id := a][b.id := b])
    ensures a in r && b in r
  {
    var m' := m[a.id := a][b.id := b];
    assert a.id in m' && m'[a.id] == a;
    assert b.id in m' && m'[b.id] == b;
  }

  /** After a successful `delete-note`, no listing contains the id. */
  lemma DeletedNoteNotListed(m: map<string, Note>, id: string, r: seq<Note>)
    requires IsListing(r, m - {id})
    ensures forall x :: x in r ==> x.id != id
  {
  }

  /** Reordering a listing leaves a listing. */
  lemma ListingPermuted(r: seq<Note>, r': seq<Note>, m: map<string, Note>)
    requires IsListing(r, m)
    requires multiset(r) == multiset(r')
    ensures IsListing(r', m)
  {
    assert |r| == |multiset(r)| == |multiset(r')| == |r'|;
    forall x ensures x in r' <==> x in r {
      assert x in r' <==> x in multiset(r');
      assert x in r <==> x in multiset(r);
    }
  }

  /** The ids of the notes in `s`. */
  ghost function Ids(s: seq<Note>): set<string> {
    set x | x in s :: x.id
  }

  /** The ids of a non-empty sequence: its head's id and the ids of its tail. */
  lemma IdsCons(s: seq<Note>)
    requires s != []
    ensures Ids(s) == Ids(s[1..]) + {s[0].id}
  {
    assert s == [s[0]] + s[1..];
    forall k | k in Ids(s) ensures k in Ids(s[1..]) + {s[0].id} {
      var x :| x in s && x.id == k;
      if x != s[0] { assert x in s[1..]; }
    }
  }

  /** A sequence with a repeated id has fewer ids than entries. */
  lemma {:induction false} RepeatedIdShrinks(s: seq<Note>, i: nat, j: nat)
    requires i < j < |s| && s[i].id == s[j].id
    ensures |Ids(s)| < |s|
  {
    IdsCons(s);
    IdsBound(s[1..]);
    if i == 0 {
      assert s[j] == s[1..][j - 1];
      assert s[0].id in Ids(s[1..]);
      assert Ids(s) == Ids(s[1..]);
    } else {
      assert s[i] == s[1..][i - 1] && s[j] == s[1..][j - 1];
      RepeatedIdShrinks(s[1..], i - 1, j - 1);
    }
  }

  lemma {:induction false} IdsBound(s: seq<Note>)
    ensures |Ids(s)| <= |s|
  {
    if s != [] {
      IdsBound(s[1..]);
      IdsCons(s);
    }
  }

  /** A listing holds no two records with the same id, because each file is
      named after its note's id. */
  lemma ListingHasDistinctIds(m: map<string, Note>, r: seq<Note>)
    requires KeyedById(m)
    requires IsListing(r, m)
    ensures forall i, j :: 0 <= i < j < |r| ==> r[i].id != r[j].id
  {
    assert Ids(r) == m.Keys by {
      forall k | k in m.Keys ensures k in Ids(r) {
        assert m[k] in r;
      }
    }
    forall i, j | 0 <= i < j < |r| ensures r[i].id != r[j].id {
      if r[i].id == r[j].id {
        RepeatedIdShrinks(r, i, j);
        assert false;
      }
    }
  }
}
