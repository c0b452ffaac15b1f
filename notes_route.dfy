/** The notes API route, app/api/notes/route.ts. The JSON file `data/notes.json` is a
    `Stored<Note>` field; each handler reads it, computes, and writes it back in one
    atomic step. */
module NotesRoute {
  import opened Wrappers
  import opened Types
  import opened JsArray
  import opened NoteQueries

  // ---------------------------------------------------------------------------
  // The two updates, as functions of the stored array
  // ---------------------------------------------------------------------------

  /** What POST does to the array: the first record with the note's id is overwritten in
      place, or the note is pushed at the end when no record has that id. */
  function Upsert(ns: seq<Note>, note: Note): (r: seq<Note>)
    ensures note in r
    ensures |ns| <= |r| <= |ns| + 1
  {
    var k := FindIndex(ns, NoteId, note.id);
    if k >= 0 then
      assert ns[k := note][k] == note;
      ns[k := note]
    else ns + [note]
  }

  /** What DELETE does to the array: every record with the given id goes. */
  function RemoveById(ns: seq<Note>, id: string): (r: seq<Note>)
    ensures forall n :: n in r <==> n in ns && n.id != id
  {
    Filter(ns, IdIsNot(id))
  }

  /** An id already present: its first record is overwritten at the same index, the
      length is unchanged and every other slot keeps its record. */
  lemma UpsertExisting(ns: seq<Note>, note: Note, k: nat)
    requires k < |ns| && ns[k].id == note.id
    requires forall j :: 0 <= j < k ==> ns[j].id != note.id
    ensures |Upsert(ns, note)| == |ns|
    ensures Upsert(ns, note)[k] == note
    ensures forall j :: 0 <= j < |ns| && j != k ==> Upsert(ns, note)[j] == ns[j]
  {
    assert FindIndex(ns, NoteId, note.id) == k;
  }

  /** A new id: the note is appended and the length grows by one. */
  lemma UpsertNew(ns: seq<Note>, note: Note)
    requires forall j :: 0 <= j < |ns| ==> ns[j].id != note.id
    ensures Upsert(ns, note) == ns + [note]
  {
  }

  /** Round trip: looking the id up after POST finds exactly the posted note. */
  lemma UpsertThenFind(ns: seq<Note>, note: Note)
    ensures NoteById(Upsert(ns, note), note.id) == Some(note)
  {
    var r := Upsert(ns, note);
    var k := FindIndex(ns, NoteId, note.id);
    var at := if k >= 0 then k else |ns|;
    assert r[at] == note;
    forall j | 0 <= j < at ensures r[j].id != note.id {
      assert r[j] == ns[j];
    }
    assert FindIndex(r, NoteId, note.id) == at;
  }

  /** Lookups of every other id see the same record as before. */
  lemma UpsertKeepsOtherLookups(ns: seq<Note>, note: Note, id: string)
    requires id != note.id
    ensures NoteById(Upsert(ns, note), id) == NoteById(ns, id)
  {
    var r := Upsert(ns, note);
    forall j | 0 <= j < |r| ensures (r[j].id == id) == (j < |ns| && ns[j].id == id) {
      if j < |ns| && r[j] != ns[j] { assert r[j] == note; }
    }
    var a, b := FindIndex(r, NoteId, id), FindIndex(ns, NoteId, id);
    if b >= 0 {
      assert r[b] == ns[b];
    }
    if a >= 0 && a < |ns| {
      assert r[a].id == id;
    }
    assert a == b;
  }

  /** All other records stay, in the same relative order: dropping the note's id from
      both sides gives the same array. */
  lemma UpsertKeepsOthers(ns: seq<Note>, note: Note)
    ensures RemoveById(Upsert(ns, note), note.id) == RemoveById(ns, note.id)
  {
    var c := IdIsNot(note.id);
    var k := FindIndex(ns, NoteId, note.id);
    if k >= 0 {
      assert ns == ns[..k] + [ns[k]] + ns[k + 1..];
      assert Upsert(ns, note) == ns[..k] + [note] + ns[k + 1..];
      FilterSkips(ns[..k], ns[k], ns[k + 1..], c);
      FilterSkips(ns[..k], note, ns[k + 1..], c);
    } else {
      FilterSkips(ns, note, [], c);
      assert ns + [note] + [] == Upsert(ns, note);
      assert Filter([], c) == [] && ns + [] == ns;
    }
  }

  /** A record that fails the criterion contributes nothing to the filter. */
  lemma FilterSkips(a: seq<Note>, x: Note, b: seq<Note>, c: Criterion)
    requires !Meets(x, c)
    ensures Filter(a + [x] + b, c) == Filter(a, c) + Filter(b, c)
  {
    assert [x][1..] == [];
    assert Filter([x], c) == [];
    FilterAppend(a, [x], c);
    assert Filter(a + [x], c) == Filter(a, c);
    FilterAppend(a + [x], b, c);
  }

  /** POST keeps ids pairwise distinct. */
  lemma UpsertKeepsUniqueIds(ns: seq<Note>, note: Note)
    requires UniqueIds(ns)
    ensures UniqueIds(Upsert(ns, note))
  {
    var r := Upsert(ns, note);
    var k := FindIndex(ns, NoteId, note.id);
    forall i, j | 0 <= i < j < |r| ensures r[i].id != r[j].id {
      if k >= 0 {
        assert r[i].id == ns[i].id && r[j].id == ns[j].id;
      } else if j == |ns| {
        assert r[i] == ns[i] && NoteId(ns[i]) != note.id;
      } else {
        assert r[i] == ns[i] && r[j] == ns[j];
      }
    }
  }

  /** Posting the same note twice leaves the array as posting it once. */
  lemma UpsertIdempotent(ns: seq<Note>, note: Note)
    ensures Upsert(Upsert(ns, note), note) == Upsert(ns, note)
  {
    var r := Upsert(ns, note);
    var k := FindIndex(ns, NoteId, note.id);
    var at := if k >= 0 then k else |ns|;
    forall j | 0 <= j < at ensures r[j].id != note.id {
      assert r[j] == ns[j];
    }
    assert r[at] == note;
    assert FindIndex(r, NoteId, note.id) == at;
    assert r[at := note] == r;
  }

  /** Deleting an id no record has leaves the array as it is. */
  lemma RemoveAbsentId(ns: seq<Note>, id: string)
    requires forall i :: 0 <= i < |ns| ==> ns[i].id != id
    ensures RemoveById(ns, id) == ns
  {
    FilterAll(ns, IdIsNot(id));
  }

  /** DELETE drops exactly the records with the id: each other record stays as often as
      it was stored, the deleted id occurs nowhere, and storage order is kept. */
  lemma RemoveByIdExact(ns: seq<Note>, id: string, n: Note, more: seq<Note>)
    ensures multiset(RemoveById(ns, id))[n] == if n.id != id then multiset(ns)[n] else 0
    ensures forall i :: 0 <= i < |RemoveById(ns, id)| ==> RemoveById(ns, id)[i].id != id
    ensures RemoveById(ns + more, id) == RemoveById(ns, id) + RemoveById(more, id)
  {
    FilterCount(ns, IdIsNot(id), n);
    FilterAppend(ns, more, IdIsNot(id));
    var r := RemoveById(ns, id);
    forall i | 0 <= i < |r| ensures r[i].id != id {
      assert r[i] in r;
    }
  }

  /** Deleting after posting a note with a new id gives back the array from before. */
  lemma RemoveUndoesInsert(ns: seq<Note>, note: Note)
    requires forall j :: 0 <= j < |ns| ==> ns[j].id != note.id
    ensures RemoveById(Upsert(ns, note), note.id) == ns
  {
    UpsertKeepsOthers(ns, note);
    RemoveAbsentId(ns, note.id);
  }

  /** A run of POST requests, one note after another. */
  function SaveAll(ns: seq<Note>, saves: seq<Note>): (r: seq<Note>)
    ensures |ns| <= |r| <= |ns| + |saves|
    ensures saves != [] ==> saves[|saves| - 1] in r
    decreases |saves|
  {
    if saves == [] then ns
    else
      var rest := saves[1..];
      assert rest != [] ==> rest[|rest| - 1] == saves[|saves| - 1];
      SaveAll(Upsert(ns, saves[0]), rest)
  }

  /** Uniqueness: starting from distinct ids, any run of POST requests keeps the ids
      pairwise distinct; in particular from the empty file the module creates. */
  lemma {:induction false} SaveAllKeepsUniqueIds(ns: seq<Note>, saves: seq<Note>)
    requires UniqueIds(ns)
    ensures UniqueIds(SaveAll(ns, saves))
    decreases |saves|
  {
    if saves != [] {
      UpsertKeepsUniqueIds(ns, saves[0]);
      SaveAllKeepsUniqueIds(Upsert(ns, saves[0]), saves[1..]);
    }
  }

  /** After a run of POST requests, the id of the last one finds exactly that note. */
  lemma {:induction false} SaveAllThenFindLast(ns: seq<Note>, saves: seq<Note>)
    requires saves != []
    ensures NoteById(SaveAll(ns, saves), saves[|saves| - 1].id) == Some(saves[|saves| - 1])
    decreases |saves|
  {
    var next, rest := Upsert(ns, saves[0]), saves[1..];
    assert SaveAll(ns, saves) == SaveAll(next, rest);
    if |saves| == 1 {
      assert rest == [];
      UpsertThenFind(ns, saves[0]);
    } else {
      assert rest[|rest| - 1] == saves[|saves| - 1];
      SaveAllThenFindLast(next, rest);
    }
  }

  // ---------------------------------------------------------------------------
  // The route: the file and its three handlers
  // ---------------------------------------------------------------------------

  /** The notes file as the route module sees it. `Malformed` stands for every state in
      which reading or `JSON.parse` throws. A request body is `None` when
      `request.json()` throws. */
  class NotesFile {
    var file: Stored<Note>

    /** Loading the module: a missing file is created holding `[]`. */
    constructor (initial: Stored<Note>)
      ensures file == InitFile(initial, [])
    {
      file := InitFile(initial, []);
    }

    /** GET: the stored array, or the error body when the file cannot be read. */
    method Get() returns (r: Result<seq<Note>>)
      ensures file.Holds? ==> r == Success(file.items)
      ensures !file.Holds? ==> r == Failure("Failed to fetch notes")
    {
      if file.Holds? {
        r := Success(file.items);
      } else {
        r := Failure("Failed to fetch notes");
      }
    }

    /** POST: overwrite the first record with the posted id, or push the note; answer
        with the note. Any failure leaves the file as it was. */
    method Post(request: Option<Note>) returns (r: Result<Note>)
      modifies this
      ensures request.Some? && old(file).Holds? ==>
        r == Success(request.value) && file == Holds(Upsert(old(file).items, request.value))
      ensures old(file).Holds? && UniqueIds(old(file).items) ==> file.Holds? && UniqueIds(file.items)
      ensures !(request.Some? && old(file).Holds?) ==>
        r == Failure("Failed to save note") && file == old(file)
    {
      if request.None? || !file.Holds? {
        return Failure("Failed to save note");
      }
      var note := request.value;
      var notes := file.items;
      var existingIndex := FindIndex(notes, NoteId, note.id);
      if existingIndex >= 0 {
        notes := notes[existingIndex := note];
      } else {
        notes := notes + [note];
      }
      assert notes == Upsert(file.items, note);
      if UniqueIds(file.items) {
        UpsertKeepsUniqueIds(file.items, note);
      }
      file := Holds(notes);
      r := Success(note);
    }

    /** DELETE: keep every record whose id differs and answer `{ success: true }`, also
        when no record had the id. */
    method Delete(request: Option<string>) returns (r: Result<bool>)
      modifies this
      ensures request.Some? && old(file).Holds? ==>
        r == Success(true) && file == Holds(RemoveById(old(file).items, request.value))
      ensures !(request.Some? && old(file).Holds?) ==>
        r == Failure("Failed to delete note") && file == old(file)
    {
      if request.None? || !file.Holds? {
        return Failure("Failed to delete note");
      }
      file := Holds(RemoveById(file.items, request.value));
      r := Success(true);
    }
  }
}
