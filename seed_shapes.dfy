/** Facts about any eight notes whose fields are ordered as those of the seed in
    lib/data/notes.ts, and about the seed's tag list written out. None of them mentions
    the seed constants, so the long note contents stay out of their proofs; the seed
    facts instantiate them. */
module SeedShapes {
  import opened Types
  import opened JsArray
  import opened NoteQueries

  /** Eight notes numbered `note-1` to `note-8` have pairwise distinct ids. */
  lemma IdsOfEight(ns: seq<Note>)
    requires |ns| == 8
    requires ns[0].id == "note-1" && ns[1].id == "note-2" && ns[2].id == "note-3"
    requires ns[3].id == "note-4" && ns[4].id == "note-5" && ns[5].id == "note-6"
    requires ns[6].id == "note-7" && ns[7].id == "note-8"
    ensures UniqueIds(ns)
  {
    forall i, j | 0 <= i < j < 8 ensures ns[i].id != ns[j].id {
      assert ns[i].id[5] != ns[j].id[5];
    }
  }

  /** Eight notes pinned as the seed's are: the filter keeps the first, third, sixth
      and eighth. */
  lemma PinnedOfEight(a: Note, b: Note, c: Note, d: Note, e: Note, f: Note, g: Note, h: Note)
    requires a.pinned && !b.pinned && c.pinned && !d.pinned && !e.pinned && f.pinned && !g.pinned && h.pinned
    ensures PinnedNotes([a, b, c, d, e, f, g, h]) == [a, c, f, h]
  {
    var s7 := [h];
    var s6 := [g] + s7;
    var s5 := [f] + s6;
    var s4 := [e] + s5;
    var s3 := [d] + s4;
    var s2 := [c] + s3;
    var s1 := [b] + s2;
    var s0 := [a] + s1;
    FilterKeeps(h, [], IsPinned);
    assert [h] + [] == s7 && [h] + Filter([], IsPinned) == [h];
    FilterDrops(g, s7, IsPinned);
    FilterKeeps(f, s6, IsPinned);
    FilterDrops(e, s5, IsPinned);
    FilterDrops(d, s4, IsPinned);
    FilterKeeps(c, s3, IsPinned);
    FilterDrops(b, s2, IsPinned);
    FilterKeeps(a, s1, IsPinned);
    Cons8(a, b, c, d, e, f, g, h);
    Cons4(a, c, f, h);
  }

  /** Eight notes updated in the seed's order: the sort puts them as 1, 6, 7, 2, 8, 3,
      4, 5. */
  lemma RecentOfEight(a: Note, b: Note, c: Note, d: Note, e: Note, f: Note, g: Note, h: Note)
    requires a.updatedAt > f.updatedAt > g.updatedAt > b.updatedAt > h.updatedAt
    requires h.updatedAt > c.updatedAt > d.updatedAt > e.updatedAt
    ensures SortDesc([a, b, c, d, e, f, g, h], UpdatedAt) == [a, f, g, b, h, c, d, e]
  {
    var k := UpdatedAt;
    var s7 := [h];
    var s6 := [g] + s7;
    var s5 := [f] + s6;
    var s4 := [e] + s5;
    var s3 := [d] + s4;
    var s2 := [c] + s3;
    var s1 := [b] + s2;
    var s0 := [a] + s1;
    SortCons(h, [], k);
    assert [h] + [] == s7;
    InsertFront(h, [], k);
    var t7 := [h];
    assert SortDesc(s7, k) == t7;
    SortCons(g, s7, k);
    InsertFront(g, t7, k);
    var t6 := [g] + t7;
    assert SortDesc(s6, k) == t6;
    SortCons(f, s6, k);
    InsertFront(f, t6, k);
    var t5 := [f] + t6;
    assert SortDesc(s5, k) == t5;
    SortCons(e, s5, k);
    InsertPast(e, f, [g] + [h], k);
    InsertPast(e, g, [h], k);
    InsertPast(e, h, [], k);
    InsertFront(e, [], k);
    assert [h] + [] == [h] && [e] + [] == [e];
    var t4 := [f] + ([g] + ([h] + [e]));
    assert SortDesc(s4, k) == t4;
    SortCons(d, s4, k);
    InsertPast(d, f, [g] + ([h] + [e]), k);
    InsertPast(d, g, [h] + [e], k);
    InsertPast(d, h, [e], k);
    InsertFront(d, [e], k);
    var t3 := [f] + ([g] + ([h] + ([d] + [e])));
    assert SortDesc(s3, k) == t3;
    SortCons(c, s3, k);
    InsertPast(c, f, [g] + ([h] + ([d] + [e])), k);
    InsertPast(c, g, [h] + ([d] + [e]), k);
    InsertPast(c, h, [d] + [e], k);
    InsertFront(c, [d] + [e], k);
    var rest := [c] + ([d] + [e]);
    var t2 := [f] + ([g] + ([h] + rest));
    assert SortDesc(s2, k) == t2;
    SortCons(b, s2, k);
    InsertPast(b, f, [g] + ([h] + rest), k);
    InsertPast(b, g, [h] + rest, k);
    InsertFront(b, [h] + rest, k);
    var t1 := [f] + ([g] + ([b] + ([h] + rest)));
    assert SortDesc(s1, k) == t1;
    SortCons(a, s1, k);
    InsertFront(a, t1, k);
    Cons8(a, b, c, d, e, f, g, h);
    Cons8(a, f, g, b, h, c, d, e);
  }

  /** The same eight notes: the five most recent are 1, 6, 7, 2 and 8. */
  lemma RecentFiveOfEight(a: Note, b: Note, c: Note, d: Note, e: Note, f: Note, g: Note, h: Note)
    requires a.updatedAt > f.updatedAt > g.updatedAt > b.updatedAt > h.updatedAt
    requires h.updatedAt > c.updatedAt > d.updatedAt > e.updatedAt
    ensures RecentNotes([a, b, c, d, e, f, g, h], 5) == [a, f, g, b, h]
  {
    RecentOfEight(a, b, c, d, e, f, g, h);
    FiveOfEight(a, f, g, b, h, c, d, e);
  }

  /** Proof step: the first five of a display of eight. */
  lemma FiveOfEight<T>(a: T, b: T, c: T, d: T, e: T, f: T, g: T, h: T)
    ensures Take([a, b, c, d, e, f, g, h], 5) == [a, b, c, d, e]
  {
  }

  /** The tags of eight notes, note by note. */
  lemma AllTagsOfEight(a: Note, b: Note, c: Note, d: Note, e: Note, f: Note, g: Note, h: Note)
    ensures AllTags([a, b, c, d, e, f, g, h]) ==
      a.tags + b.tags + c.tags + d.tags + e.tags + f.tags + g.tags + h.tags
  {
    var p1 := [a];
    assert p1 == [] + [a];
    AllTagsSnocNote([], a);
    var p2 := p1 + [b];
    AllTagsSnocNote(p1, b);
    var p3 := p2 + [c];
    AllTagsSnocNote(p2, c);
    var p4 := p3 + [d];
    AllTagsSnocNote(p3, d);
    var p5 := p4 + [e];
    AllTagsSnocNote(p4, e);
    var p6 := p5 + [f];
    AllTagsSnocNote(p5, f);
    var p7 := p6 + [g];
    AllTagsSnocNote(p6, g);
    var p8 := p7 + [h];
    AllTagsSnocNote(p7, h);
    assert p8 == [a, b, c, d, e, f, g, h];
  }

  /** The seed tags, listed: only positions 1 and 22, both `product`, repeat. */
  lemma ProductRepeatsOnce(ts: seq<string>)
    requires ts ==
      ["marketing", "product", "launch", "travel", "vacation", "summer", "app", "fitness", "startup",
       "web", "design", "development", "books", "reading", "self-improvement", "goals", "planning", "quarterly",
       "home", "renovation", "kitchen", "ai", "product", "innovation"]
    ensures multiset(ts)["product"] == 2
    ensures forall t :: t != "product" ==> multiset(ts)[t] <= 1
  {
    ProductPositions(ts);
    assert ts[1] == "product";
    OneRepeat(ts, 1, 22);
  }

  /** The seed tags, listed: the only two equal positions are 1 and 22. */
  lemma ProductPositions(ts: seq<string>)
    requires ts ==
      ["marketing", "product", "launch", "travel", "vacation", "summer", "app", "fitness", "startup",
       "web", "design", "development", "books", "reading", "self-improvement", "goals", "planning", "quarterly",
       "home", "renovation", "kitchen", "ai", "product", "innovation"]
    ensures forall p, q :: 0 <= p < q < |ts| && ts[p] == ts[q] ==> p == 1 && q == 22
  {
  }

  /** The seed tag lists, joined. */
  lemma JoinSeedTags(a: seq<string>, b: seq<string>, c: seq<string>, d: seq<string>,
                     e: seq<string>, f: seq<string>, g: seq<string>, h: seq<string>)
    requires a == ["marketing", "product", "launch"] && b == ["travel", "vacation", "summer"]
    requires c == ["app", "fitness", "startup"] && d == ["web", "design", "development"]
    requires e == ["books", "reading", "self-improvement"] && f == ["goals", "planning", "quarterly"]
    requires g == ["home", "renovation", "kitchen"] && h == ["ai", "product", "innovation"]
    ensures a + b + c + d + e + f + g + h ==
      ["marketing", "product", "launch", "travel", "vacation", "summer", "app", "fitness", "startup",
       "web", "design", "development", "books", "reading", "self-improvement", "goals", "planning", "quarterly",
       "home", "renovation", "kitchen", "ai", "product", "innovation"]
  {
  }
}
