/** Two worked examples of the query semantics: how ties in `updatedAt` and in tag
    counts are ordered. */
module Scenarios {
  import opened Types
  import opened JsArray
  import opened JsString
  import opened NoteQueries

  /** Notes A and C updated at the same instant, B later, stored as A, B, C: the three
      most recent are B, A, C, the tie kept in storage order. */
  lemma RecencyTie(a: Note, b: Note, c: Note)
    requires a.updatedAt == c.updatedAt < b.updatedAt
    ensures RecentNotes([a, b, c], 3) == [b, a, c]
  {
    SortTie(a, b, c, UpdatedAt);
    assert Take([b, a, c], 3) == [b, a, c];
  }

  /** The sort on three elements whose first and last keys tie below the middle one. */
  lemma SortTie<T>(a: T, b: T, c: T, k: T -> int)
    requires k(a) == k(c) < k(b)
    ensures SortDesc([a, b, c], k) == [b, a, c]
  {
    SortPair(b, c, k);
    SortCons(a, [b] + [c], k);
    InsertPast(a, b, [c], k);
    InsertFront(a, [c], k);
    Cons3(a, b, c);
    Cons3(b, a, c);
  }

  /** The sort on two elements whose keys do not increase leaves them in place. */
  lemma SortPair<T>(b: T, c: T, k: T -> int)
    requires k(b) >= k(c)
    ensures SortDesc([b] + [c], k) == [b] + [c]
  {
    SortCons(c, [], k);
    InsertFront(c, [], k);
    assert [c] + [] == [c];
    SortCons(b, [c], k);
    InsertFront(b, [c], k);
  }

  /** The tally of the tags `x, y, y, z, x`, step by step. */
  lemma TallyXYYZX()
    ensures TallyTags(["x", "y", "y", "z", "x"]) == [TagCount("x", 2), TagCount("y", 2), TagCount("z", 1)]
  {
    var t1 := ["x"];
    assert t1[..0] == [];
    assert TallyTags(t1) == [TagCount("x", 1)];
    var t2 := t1 + ["y"];
    TallyTagsSnoc(t1, "y");
    assert TallyTags(t2) == [TagCount("x", 1), TagCount("y", 1)];
    var t3 := t2 + ["y"];
    TallyTagsSnoc(t2, "y");
    assert FindIndex([TagCount("x", 1), TagCount("y", 1)], Tag, "y") == 1;
    assert TallyTags(t3) == [TagCount("x", 1), TagCount("y", 2)];
    var t4 := t3 + ["z"];
    TallyTagsSnoc(t3, "z");
    assert TallyTags(t4) == [TagCount("x", 1), TagCount("y", 2), TagCount("z", 1)];
    TallyTagsSnoc(t4, "x");
    assert FindIndex(TallyTags(t4), Tag, "x") == 0;
    assert t4 + ["x"] == ["x", "y", "y", "z", "x"];
  }

  /** The tags of three notes, note by note. */
  lemma AllTagsOfThree(a: Note, b: Note, c: Note)
    ensures AllTags([a, b, c]) == a.tags + b.tags + c.tags
  {
    var p1 := [a];
    var p2 := p1 + [b];
    var p3 := p2 + [c];
    assert p1 == [] + [a];
    AllTagsSnocNote([], a);
    AllTagsSnocNote(p1, b);
    AllTagsSnocNote(p2, c);
    Snoc3(a, b, c);
  }

  /** The tally of the scenario's notes. */
  lemma TallyOfTie(a: Note, b: Note, c: Note)
    requires a.tags == ["x", "y"] && b.tags == ["y", "z"] && c.tags == ["x"]
    ensures Tally([a, b, c]) == [TagCount("x", 2), TagCount("y", 2), TagCount("z", 1)]
  {
    AllTagsOfThree(a, b, c);
    assert AllTags([a, b, c]) == ["x", "y", "y", "z", "x"];
    TallyXYYZX();
  }

  /** The sort on three elements whose keys do not increase leaves them in place. */
  lemma SortSorted<T>(a: T, b: T, c: T, k: T -> int)
    requires k(a) >= k(b) >= k(c)
    ensures SortDesc([a, b, c], k) == [a, b, c]
  {
    SortPair(b, c, k);
    SortCons(a, [b] + [c], k);
    InsertFront(a, [b] + [c], k);
    Cons3(a, b, c);
  }

  /** The scenario's counts, listed: `Object.entries` keeps them in first-seen order
      and the sort keeps the tie. */
  lemma TieEntriesSorted(d: seq<TagCount>)
    requires d == [TagCount("x", 2), TagCount("y", 2), TagCount("z", 1)]
    ensures Take(SortDesc(Entries(d), Count), 10) == d
  {
    assert !IsArrayIndex("x") && !IsArrayIndex("y") && !IsArrayIndex("z");
    EntriesWithoutIndexKeys(d);
    SortSorted(d[0], d[1], d[2], Count);
    assert [d[0], d[1], d[2]] == d;
  }

  /** Notes tagged `[x, y]`, `[y, z]` and `[x]`: the counts are x 2, y 2, z 1, and the
      tie between x and y is in first-seen order. */
  lemma PopularTie(a: Note, b: Note, c: Note)
    requires a.tags == ["x", "y"] && b.tags == ["y", "z"] && c.tags == ["x"]
    ensures PopularTags([a, b, c], 10) == [TagCount("x", 2), TagCount("y", 2), TagCount("z", 1)]
  {
    TallyOfTie(a, b, c);
    TieEntriesSorted(Tally([a, b, c]));
  }
}
