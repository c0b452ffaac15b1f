/** The records of lib/types.ts and the state of a JSON document on disk. */
module Types {

  /** A note. `createdAt` and `updatedAt` stand for `new Date(s).getTime()` of the
      ISO-8601 strings the program stores: milliseconds since the epoch. */
  datatype Note = Note(
    id: string,
    title: string,
    content: string,
    category: string,
    tags: seq<string>,
    pinned: bool,
    isPublic: bool,
    views: int,
    createdAt: int,
    updatedAt: int)

  datatype Category = Category(id: string, name: string, color: string, icon: string)

  /** A JSON document holding an array: absent, present but unreadable or not valid
      JSON, or present and holding `items`. */
  datatype Stored<T> = Missing | Malformed | Holds(items: seq<T>)

  /** Create-if-absent, which both modules run when they are loaded: a missing document
      is written holding `default`; one that exists, readable or not, is left alone, so
      the document changes exactly when it was missing. */
  function InitFile<T>(stored: Stored<T>, default: seq<T>): (r: Stored<T>)
    ensures !r.Missing?
    ensures r != stored <==> stored.Missing?
    ensures stored.Missing? ==> r == Holds(default)
  {
    if stored.Missing? then Holds(default) else stored
  }

  /** Running the initialisation again changes nothing, whatever default it brings. */
  lemma InitFileIdempotent<T>(stored: Stored<T>, default: seq<T>, other: seq<T>)
    ensures InitFile(InitFile(stored, default), other) == InitFile(stored, default)
  {
  }

  /** Named field readers, passed as keys to the array helpers. */
  function NoteId(n: Note): string { n.id }
  function CategoryId(c: Category): string { c.id }
  function UpdatedAt(n: Note): int { n.updatedAt }

  /** No two records share an id. */
  ghost predicate UniqueIds(ns: seq<Note>) {
    forall i, j :: 0 <= i < j < |ns| ==> ns[i].id != ns[j].id
  }
}
