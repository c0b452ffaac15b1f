/** The read-side queries that lib/data/server-data.ts, lib/data/data-service.ts and
    lib/utils.ts each define over their own array of notes (a file, a fetched list, the
    seed): lookup by id, the category and pinned filters, the recent notes and the
    popular tags. Each of those modules applies these functions to its own source. */
module NoteQueries {
  import opened Wrappers
  import opened Types
  import opened JsArray
  import opened JsString

  // ---------------------------------------------------------------------------
  // Lookup
  // ---------------------------------------------------------------------------

  /** `notes.find((note) => note.id === id)`: the first record with that id, or `undefined`. */
  function NoteById(ns: seq<Note>, id: string): (r: Option<Note>)
    ensures r.None? <==> forall i :: 0 <= i < |ns| ==> ns[i].id != id
    ensures r.Some? ==> r.value.id == id && exists i :: 0 <= i < |ns| && ns[i] == r.value &&
                                                       forall j :: 0 <= j < i ==> ns[j].id != id
  {
    Find(ns, NoteId, id)
  }

  /** `categories.find((category) => category.id === id)`. */
  function CategoryById(cs: seq<Category>, id: string): (r: Option<Category>)
    ensures r.None? <==> forall i :: 0 <= i < |cs| ==> cs[i].id != id
    ensures r.Some? ==> r.value.id == id && exists i :: 0 <= i < |cs| && cs[i] == r.value &&
                                                       forall j :: 0 <= j < i ==> cs[j].id != id
  {
    Find(cs, CategoryId, id)
  }

  /** With unique ids, the lookup finds the one record with that id wherever it stands. */
  lemma NoteByIdUnique(ns: seq<Note>, i: nat)
    requires UniqueIds(ns) && i < |ns|
    ensures NoteById(ns, ns[i].id) == Some(ns[i])
  {
  }

  // ---------------------------------------------------------------------------
  // Filters
  // ---------------------------------------------------------------------------

  /** The predicates the program filters notes by. */
  datatype Criterion = IdIsNot(id: string) | InCategory(category: string) | IsPinned

  predicate Meets(n: Note, c: Criterion) {
    match c
    case IdIsNot(id) => n.id != id
    case InCategory(category) => n.category == category
    case IsPinned => n.pinned
  }

  /** `notes.filter((note) => Meets(note, c))`. */
  function Filter(ns: seq<Note>, c: Criterion): (r: seq<Note>)
    ensures |r| <= |ns|
    ensures forall n :: n in r <==> n in ns && Meets(n, c)
  {
    if ns == [] then []
    else (if Meets(ns[0], c) then [ns[0]] else []) + Filter(ns[1..], c)
  }

  /** Filtering works piecewise, so the records that pass keep their relative order. */
  lemma {:induction false} FilterAppend(a: seq<Note>, b: seq<Note>, c: Criterion)
    ensures Filter(a + b, c) == Filter(a, c) + Filter(b, c)
  {
    if a == [] {
      assert a + b == b;
    } else {
      assert (a + b)[1..] == a[1..] + b;
      FilterAppend(a[1..], b, c);
    }
  }

  /** A record that passes appears as often as it does in the input; one that fails, never. */
  lemma {:induction false} FilterCount(ns: seq<Note>, c: Criterion, n: Note)
    ensures multiset(Filter(ns, c))[n] == if Meets(n, c) then multiset(ns)[n] else 0
  {
    if ns != [] {
      var x, rest := ns[0], ns[1..];
      assert ns == [x] + rest;
      FilterCount(rest, c, n);
      if Meets(x, c) {
        assert Filter(ns, c) == [x] + Filter(rest, c);
      } else {
        assert Filter(ns, c) == Filter(rest, c);
      }
    }
  }

  /** When every record passes, the filter returns its input. */
  lemma {:induction false} FilterAll(ns: seq<Note>, c: Criterion)
    requires forall i :: 0 <= i < |ns| ==> Meets(ns[i], c)
    ensures Filter(ns, c) == ns
  {
    if ns != [] {
      FilterAll(ns[1..], c);
    }
  }

  /** `notes.filter((note) => note.category === categoryId)`. */
  function NotesByCategory(ns: seq<Note>, categoryId: string): (r: seq<Note>)
    ensures forall n :: n in r <==> n in ns && n.category == categoryId
  {
    Filter(ns, InCategory(categoryId))
  }

  /** `notes.filter((note) => note.pinned)`. */
  function PinnedNotes(ns: seq<Note>): (r: seq<Note>)
    ensures forall n :: n in r <==> n in ns && n.pinned
  {
    Filter(ns, IsPinned)
  }

  /** One step of `filter` with a head that passes. */
  lemma FilterKeeps(n: Note, rest: seq<Note>, c: Criterion)
    requires Meets(n, c)
    ensures Filter([n] + rest, c) == [n] + Filter(rest, c)
  {
    assert ([n] + rest)[1..] == rest;
  }

  /** One step of `filter` with a head that fails. */
  lemma FilterDrops(n: Note, rest: seq<Note>, c: Criterion)
    requires !Meets(n, c)
    ensures Filter([n] + rest, c) == Filter(rest, c)
  {
    assert ([n] + rest)[1..] == rest;
  }

  /** The category filter returns exactly the records of that category, each as often
      as it is stored, and in storage order. */
  lemma NotesByCategoryExact(ns: seq<Note>, categoryId: string, n: Note, more: seq<Note>)
    ensures multiset(NotesByCategory(ns, categoryId))[n] ==
            if n.category == categoryId then multiset(ns)[n] else 0
    ensures NotesByCategory(ns + more, categoryId) ==
            NotesByCategory(ns, categoryId) + NotesByCategory(more, categoryId)
  {
    FilterCount(ns, InCategory(categoryId), n);
    FilterAppend(ns, more, InCategory(categoryId));
  }

  /** The pinned filter returns exactly the pinned records, each as often as it is
      stored, and in storage order. */
  lemma PinnedNotesExact(ns: seq<Note>, n: Note, more: seq<Note>)
    ensures multiset(PinnedNotes(ns))[n] == if n.pinned then multiset(ns)[n] else 0
    ensures PinnedNotes(ns + more) == PinnedNotes(ns) + PinnedNotes(more)
  {
    FilterCount(ns, IsPinned, n);
    FilterAppend(ns, more, IsPinned);
  }

  // ---------------------------------------------------------------------------
  // Recent notes
  // ---------------------------------------------------------------------------

  /** `[...notes].sort((a, b) => b.updatedAt - a.updatedAt).slice(0, limit)`: a prefix of
      a copy sorted from the latest update to the earliest. */
  function RecentNotes(ns: seq<Note>, limit: int): (r: seq<Note>)
    ensures NonIncreasing(r, UpdatedAt)
    ensures multiset(r) <= multiset(ns)
    ensures 0 <= limit ==> |r| == if limit <= |ns| then limit else |ns|
    ensures limit >= |ns| ==> multiset(r) == multiset(ns)
  {
    var sorted := SortDesc(ns, UpdatedAt);
    var r := Take(sorted, limit);
    assert sorted == r + sorted[|r|..];
    assert multiset(sorted) == multiset(r) + multiset(sorted[|r|..]);
    r
  }

  /** Equal timestamps keep storage order: the notes of one timestamp appear in the
      result as a prefix of their order in the store. */
  lemma RecentNotesStable(ns: seq<Note>, limit: int, time: int)
    ensures KeyClass(RecentNotes(ns, limit), UpdatedAt, time) <= KeyClass(ns, UpdatedAt, time)
  {
    var sorted := SortDesc(ns, UpdatedAt);
    KeyClassOfPrefix(sorted, |RecentNotes(ns, limit)|, UpdatedAt, time);
    SortDescStable(ns, UpdatedAt, time);
  }

  /** Every note the limit leaves out was updated no later than every note returned. */
  lemma RecentNotesAreLatest(ns: seq<Note>, limit: int)
    ensures var r := RecentNotes(ns, limit);
      forall n, i :: n in multiset(ns) - multiset(r) && 0 <= i < |r| ==> n.updatedAt <= r[i].updatedAt
  {
    var r := RecentNotes(ns, limit);
    assert r == Take(SortDesc(ns, UpdatedAt), limit);
    TopOfSorted(ns, UpdatedAt, limit);
    forall n, i | n in multiset(ns) - multiset(r) && 0 <= i < |r| ensures n.updatedAt <= r[i].updatedAt {
      assert UpdatedAt(n) <= UpdatedAt(r[i]);
    }
  }

  // ---------------------------------------------------------------------------
  // Popular tags
  // ---------------------------------------------------------------------------

  /** One `{ tag, count }` entry of the tag-count object. */
  datatype TagCount = TagCount(tag: string, count: int)

  function Count(e: TagCount): int { e.count }
  function Tag(e: TagCount): string { e.tag }

  /** The tags of the entries, in order. */
  function Keys(d: seq<TagCount>): (r: seq<string>)
    ensures |r| == |d| && forall i :: 0 <= i < |d| ==> r[i] == d[i].tag
  {
    seq(|d|, i requires 0 <= i < |d| => d[i].tag)
  }

  /** No two entries share a tag. */
  ghost predicate DistinctTags(d: seq<TagCount>) {
    forall i, j :: 0 <= i < j < |d| ==> d[i].tag != d[j].tag
  }

  /** Every tag of every note, note by note and each list in its own order: the order
      in which the nested `forEach` visits them. */
  function AllTags(ns: seq<Note>): seq<string> {
    if ns == [] then [] else AllTags(ns[..|ns| - 1]) + ns[|ns| - 1].tags
  }

  /** The distinct elements of `ts`, each where it first occurs. */
  function FirstSeen(ts: seq<string>): (r: seq<string>)
    ensures forall t :: t in r <==> t in ts
    ensures Distinct(r)
  {
    if ts == [] then []
    else
      var p := FirstSeen(ts[..|ts| - 1]);
      var t := ts[|ts| - 1];
      assert ts == ts[..|ts| - 1] + [t];
      if t in p then p else p + [t]
  }

  /** `acc[tag] = (acc[tag] || 0) + 1` on an object whose only properties are its own
      entries, listed in creation order: the entry for `t` is incremented in place, or
      appended with count 1 when there is none. */
  function Bump(d: seq<TagCount>, t: string): seq<TagCount> {
    var i := FindIndex(d, Tag, t);
    if i >= 0 then d[i := TagCount(t, d[i].count + 1)] else d + [TagCount(t, 1)]
  }

  /** An increment keeps the key order and adds a key only for a new tag; it adds one
      to the count of `t` and leaves every other count alone. */
  lemma BumpFacts(d: seq<TagCount>, t: string)
    ensures var r := Bump(d, t);
      && Keys(r) == (if t in Keys(d) then Keys(d) else Keys(d) + [t])
      && (DistinctTags(d) ==> forall i :: 0 <= i < |d| ==>
            r[i].count == if d[i].tag == t then d[i].count + 1 else d[i].count)
      && (t !in Keys(d) ==> r[|d|].count == 1)
  {
    var i := FindIndex(d, Tag, t);
    if i >= 0 {
      assert Keys(d)[i] == t;
    } else {
      forall j | 0 <= j < |d| ensures Keys(d)[j] != t { assert Tag(d[j]) != t; }
    }
  }

  /** The tag-count object after visiting the tags `ts` in order, one `Bump` per tag. */
  function TallyTags(ts: seq<string>): seq<TagCount> {
    if ts == [] then [] else Bump(TallyTags(ts[..|ts| - 1]), ts[|ts| - 1])
  }

  /** The tally has one entry per distinct tag, in first-seen order, holding the number
      of times the tag occurs in `ts`, repeats within one list included. */
  lemma {:induction false} TallyTagsFacts(ts: seq<string>)
    ensures var d := TallyTags(ts);
      && Keys(d) == FirstSeen(ts)
      && DistinctTags(d)
      && forall i :: 0 <= i < |d| ==> d[i].count == multiset(ts)[d[i].tag]
  {
    if ts != [] {
      var prefix, t := ts[..|ts| - 1], ts[|ts| - 1];
      assert ts == prefix + [t];
      TallyTagsFacts(prefix);
      TallyStep(prefix, t, TallyTags(prefix));
    }
  }

  /** One tag later: the three facts of the tally carry over from `prefix` to
      `prefix + [t]`. */
  lemma TallyStep(prefix: seq<string>, t: string, d0: seq<TagCount>)
    requires Keys(d0) == FirstSeen(prefix) && DistinctTags(d0)
    requires forall i :: 0 <= i < |d0| ==> d0[i].count == multiset(prefix)[d0[i].tag]
    ensures var d := Bump(d0, t);
      && Keys(d) == FirstSeen(prefix + [t])
      && DistinctTags(d)
      && forall i :: 0 <= i < |d| ==> d[i].count == multiset(prefix + [t])[d[i].tag]
  {
    TallyStepKeys(prefix, t, d0);
    DistinctKeys(Bump(d0, t));
    TallyStepCounts(prefix, t, d0);
  }

  /** The keys one tag later are the tags first seen one tag later. */
  lemma TallyStepKeys(prefix: seq<string>, t: string, d0: seq<TagCount>)
    requires Keys(d0) == FirstSeen(prefix)
    ensures Keys(Bump(d0, t)) == FirstSeen(prefix + [t])
  {
    var ts := prefix + [t];
    BumpFacts(d0, t);
    assert ts[..|ts| - 1] == prefix && ts[|ts| - 1] == t;
  }

  /** Distinct keys are distinct tags. */
  lemma DistinctKeys(d: seq<TagCount>)
    requires Distinct(Keys(d))
    ensures DistinctTags(d)
  {
    forall i, j | 0 <= i < j < |d| ensures d[i].tag != d[j].tag {
      assert Keys(d)[i] == d[i].tag && Keys(d)[j] == d[j].tag;
    }
  }

  /** The counts one tag later are the occurrences one tag later. */
  lemma TallyStepCounts(prefix: seq<string>, t: string, d0: seq<TagCount>)
    requires Keys(d0) == FirstSeen(prefix) && DistinctTags(d0)
    requires forall i :: 0 <= i < |d0| ==> d0[i].count == multiset(prefix)[d0[i].tag]
    ensures var d := Bump(d0, t);
      forall i :: 0 <= i < |d| ==> d[i].count == multiset(prefix + [t])[d[i].tag]
  {
    var ts := prefix + [t];
    var d := Bump(d0, t);
    BumpFacts(d0, t);
    assert t in Keys(d0) <==> t in prefix;
    forall i | 0 <= i < |d| ensures d[i].count == multiset(ts)[d[i].tag] {
      if i < |d0| {
        assert d[i].tag == Keys(d)[i] == Keys(d0)[i] == d0[i].tag;
      } else {
        assert d[i].tag == Keys(d)[i] == t;
      }
    }
  }

  /** The tag-count object that counting the tags of `ns` builds. */
  function Tally(ns: seq<Note>): seq<TagCount> {
    TallyTags(AllTags(ns))
  }

  /** The tag-count object one tag later. */
  lemma TallyTagsSnoc(ts: seq<string>, t: string)
    ensures TallyTags(ts + [t]) == Bump(TallyTags(ts), t)
  {
    assert (ts + [t])[..|ts + [t]| - 1] == ts;
  }

  /** The tags of one more note come after those seen so far. */
  lemma AllTagsSnoc(ns: seq<Note>, i: nat)
    requires i < |ns|
    ensures AllTags(ns[..i + 1]) == AllTags(ns[..i]) + ns[i].tags
  {
    assert ns[..i + 1][..i] == ns[..i];
  }

  /** The tags of one more note come after the tags seen so far. */
  lemma AllTagsSnocNote(ns: seq<Note>, n: Note)
    ensures AllTags(ns + [n]) == AllTags(ns) + n.tags
  {
    assert (ns + [n])[..|ns|] == ns;
  }

  /** Within one note's tags, the tally one tag further on. */
  lemma TallyNextTag(before: seq<string>, tags: seq<string>, j: nat)
    requires j < |tags|
    ensures TallyTags(before + tags[..j + 1]) == Bump(TallyTags(before + tags[..j]), tags[j])
  {
    assert tags[..j + 1] == tags[..j] + [tags[j]];
    assert before + tags[..j + 1] == (before + tags[..j]) + [tags[j]];
    TallyTagsSnoc(before + tags[..j], tags[j]);
  }

  /** The loop all three copies run to build the tag-count object: for each note, for
      each of its tags, `acc[tag] = (acc[tag] || 0) + 1`. */
  method TallyNotes(ns: seq<Note>) returns (acc: seq<TagCount>)
    ensures acc == Tally(ns)
  {
    acc := [];
    var i := 0;
    while i < |ns|
      invariant 0 <= i <= |ns|
      invariant acc == TallyTags(AllTags(ns[..i]))
    {
      var tags := ns[i].tags;
      ghost var before := AllTags(ns[..i]);
      var j := 0;
      assert before + tags[..0] == before;
      while j < |tags|
        invariant 0 <= j <= |tags|
        invariant acc == TallyTags(before + tags[..j])
      {
        TallyNextTag(before, tags, j);
        acc := Bump(acc, tags[j]);
        j := j + 1;
      }
      AllTagsSnoc(ns, i);
      assert tags[..j] == tags;
      i := i + 1;
    }
    assert ns[..i] == ns;
  }

  /** Whether an entry's key is an array index, and its place among those keys: a key
      with a larger index gets a smaller rank. */
  function IndexRank(e: TagCount): int {
    if IsArrayIndex(e.tag) then -(DigitsValue(e.tag) as int) else 0
  }

  /** The entries whose key is (or is not) an array index, in creation order. */
  function EntriesWhere(d: seq<TagCount>, index: bool): (r: seq<TagCount>)
    ensures forall e :: e in r <==> e in d && IsArrayIndex(e.tag) == index
  {
    if d == [] then []
    else (if IsArrayIndex(d[0].tag) == index then [d[0]] else []) + EntriesWhere(d[1..], index)
  }

  /** The two groups together are the entries again. */
  lemma {:induction false} EntriesSplit(d: seq<TagCount>)
    ensures multiset(EntriesWhere(d, true)) + multiset(EntriesWhere(d, false)) == multiset(d)
  {
    if d != [] {
      EntriesSplit(d[1..]);
      assert d == [d[0]] + d[1..];
    }
  }

  /** `Object.entries(acc)`: the keys that are array indices first, in ascending numeric
      order, then the other keys in creation order (OrdinaryOwnPropertyKeys,
      ECMA-262, section 10.1.11.1). */
  function Entries(d: seq<TagCount>): (r: seq<TagCount>)
    ensures multiset(r) == multiset(d) && |r| == |d|
  {
    var indices := SortDesc(EntriesWhere(d, true), IndexRank);
    var named := EntriesWhere(d, false);
    EntriesSplit(d);
    assert multiset(indices + named) == multiset(indices) + multiset(named);
    indices + named
  }

  /** A reordering of entries with distinct tags still has distinct tags. */
  lemma PermutationKeepsDistinctTags(a: seq<TagCount>, b: seq<TagCount>)
    requires multiset(a) == multiset(b) && DistinctTags(a)
    ensures DistinctTags(b)
  {
    forall i, j | 0 <= i < j < |b| ensures b[i].tag != b[j].tag {
      var p, q := PermutationPositions(a, b, i, j);
      assert a[p].tag != a[q].tag by {
        if p < q { } else { }
      }
    }
  }

  /** The keys that are array indices come first, in ascending numeric order. */
  lemma EntriesIndicesFirst(d: seq<TagCount>)
    ensures |EntriesWhere(d, true)| <= |Entries(d)|
    ensures var r := Entries(d);
      forall i :: 0 <= i < |EntriesWhere(d, true)| ==> IsArrayIndex(r[i].tag)
    ensures var r := Entries(d);
      forall i, j :: 0 <= i < j < |EntriesWhere(d, true)| ==> -IndexRank(r[i]) <= -IndexRank(r[j])
  {
    var w := EntriesWhere(d, true);
    var indices := SortDesc(w, IndexRank);
    var r := Entries(d);
    assert r[..|indices|] == indices;
    forall i | 0 <= i < |indices| ensures IsArrayIndex(r[i].tag) {
      assert r[i] == indices[i];
      assert indices[i] in multiset(w);
    }
    forall i, j | 0 <= i < j < |indices| ensures -IndexRank(r[i]) <= -IndexRank(r[j]) {
      assert r[i] == indices[i] && r[j] == indices[j];
    }
  }

  /** The other keys follow, in creation order. */
  lemma EntriesNamedAfter(d: seq<TagCount>)
    ensures |EntriesWhere(d, true)| <= |Entries(d)|
    ensures Entries(d)[|EntriesWhere(d, true)|..] == EntriesWhere(d, false)
  {
    var indices := SortDesc(EntriesWhere(d, true), IndexRank);
    assert Entries(d) == indices + EntriesWhere(d, false);
  }

  /** Without integer-like tags, `Object.entries` lists the entries in creation order. */
  lemma {:induction false} EntriesWithoutIndexKeys(d: seq<TagCount>)
    requires forall i :: 0 <= i < |d| ==> !IsArrayIndex(d[i].tag)
    ensures Entries(d) == d
  {
    NoIndexEntries(d);
    assert SortDesc(EntriesWhere(d, true), IndexRank) == [];
  }

  lemma {:induction false} NoIndexEntries(d: seq<TagCount>)
    requires forall i :: 0 <= i < |d| ==> !IsArrayIndex(d[i].tag)
    ensures EntriesWhere(d, true) == [] && EntriesWhere(d, false) == d
  {
    if d != [] {
      NoIndexEntries(d[1..]);
    }
  }

  /** Any reordering of the tally, such as `Object.entries` of it or a sort of those:
      one entry per distinct tag, holding its number of occurrences. */
  lemma PermutedTally(ts: seq<string>, e: seq<TagCount>)
    requires multiset(e) == multiset(TallyTags(ts))
    ensures DistinctTags(e)
    ensures |e| == |FirstSeen(ts)|
    ensures forall i :: 0 <= i < |e| ==> e[i].tag in ts && e[i].count == multiset(ts)[e[i].tag]
    ensures forall t :: t in ts ==> t in Keys(e)
  {
    var d := TallyTags(ts);
    TallyTagsFacts(ts);
    PermutationKeepsDistinctTags(d, e);
    assert |e| == |multiset(e)| == |multiset(d)| == |d| == |Keys(d)|;
    forall i | 0 <= i < |e| ensures e[i].tag in ts && e[i].count == multiset(ts)[e[i].tag] {
      assert e[i] in multiset(d);
      var p :| 0 <= p < |d| && d[p] == e[i];
      assert Keys(d)[p] == e[i].tag;
    }
    forall t | t in ts ensures t in Keys(e) {
      assert t in Keys(d);
      var p :| 0 <= p < |d| && Keys(d)[p] == t;
      assert d[p] in multiset(e);
      var q :| 0 <= q < |e| && e[q] == d[p];
      assert Keys(e)[q] == t;
    }
  }

  /** `Object.entries(tagCounts).map(...).sort((a, b) => b.count - a.count).slice(0, limit)`. */
  function PopularTags(ns: seq<Note>, limit: int): seq<TagCount> {
    Take(SortDesc(Entries(Tally(ns)), Count), limit)
  }

  /** Every reported tag occurs in the notes, its count is its total number of
      occurrences across all tag lists, and no tag is reported twice. */
  lemma PopularTagsCounts(ns: seq<Note>, limit: int)
    ensures DistinctTags(PopularTags(ns, limit))
    ensures var r := PopularTags(ns, limit);
      forall i :: 0 <= i < |r| ==> r[i].tag in AllTags(ns) && r[i].count == multiset(AllTags(ns))[r[i].tag]
  {
    var sorted := SortDesc(Entries(Tally(ns)), Count);
    var r := PopularTags(ns, limit);
    assert r == sorted[..|r|];
    PrefixOfPermutedTally(AllTags(ns), sorted, |r|);
  }

  /** A prefix of a reordered tally keeps its entries' facts. */
  lemma PrefixOfPermutedTally(ts: seq<string>, s: seq<TagCount>, m: nat)
    requires multiset(s) == multiset(TallyTags(ts)) && m <= |s|
    ensures DistinctTags(s[..m])
    ensures forall i :: 0 <= i < m ==> s[..m][i].tag in ts && s[..m][i].count == multiset(ts)[s[..m][i].tag]
  {
    PermutedTally(ts, s);
    var p := s[..m];
    forall i, j | 0 <= i < j < m ensures p[i].tag != p[j].tag {
      assert p[i] == s[i] && p[j] == s[j];
    }
    forall i | 0 <= i < m ensures p[i].tag in ts && p[i].count == multiset(ts)[p[i].tag] {
      assert p[i] == s[i];
    }
  }

  /** The result is ordered by count from the largest down and holds `limit` entries,
      or every distinct tag when there are fewer. */
  lemma PopularTagsShape(ns: seq<Note>, limit: int)
    ensures NonIncreasing(PopularTags(ns, limit), Count)
    ensures 0 <= limit ==>
      |PopularTags(ns, limit)| == (if limit <= |FirstSeen(AllTags(ns))| then limit else |FirstSeen(AllTags(ns))|)
  {
    var sorted := SortDesc(Entries(Tally(ns)), Count);
    var r := PopularTags(ns, limit);
    PermutedTally(AllTags(ns), sorted);
    assert r == sorted[..|r|];
    forall i, j | 0 <= i < j < |r| ensures Count(r[i]) >= Count(r[j]) {
      assert r[i] == sorted[i] && r[j] == sorted[j];
    }
  }

  /** Once `limit` reaches the number of distinct tags, every tag is reported. */
  lemma PopularTagsComplete(ns: seq<Note>, limit: int)
    requires |FirstSeen(AllTags(ns))| <= limit
    ensures forall t :: t in AllTags(ns) ==> t in Keys(PopularTags(ns, limit))
  {
    var sorted := SortDesc(Entries(Tally(ns)), Count);
    PermutedTally(AllTags(ns), sorted);
    assert PopularTags(ns, limit) == sorted;
  }

  /** A tag left out occurs no more often than any tag reported. */
  lemma PopularTagsTop(ns: seq<Note>, limit: int)
    ensures var r := PopularTags(ns, limit);
      forall t, i :: t in AllTags(ns) && t !in Keys(r) && 0 <= i < |r| ==>
        multiset(AllTags(ns))[t] <= r[i].count
  {
    var sorted := SortDesc(Entries(Tally(ns)), Count);
    var r := PopularTags(ns, limit);
    assert r == sorted[..|r|];
    PrefixOfSortedTally(AllTags(ns), sorted, |r|);
  }

  /** A tag that occurs strictly more often than every other tag heads the list, with
      its number of occurrences, whenever the limit lets anything through. */
  lemma PopularTagsLeader(ns: seq<Note>, limit: int, p: string)
    requires 0 < limit && p in AllTags(ns)
    requires forall t :: t in AllTags(ns) && t != p ==> multiset(AllTags(ns))[t] < multiset(AllTags(ns))[p]
    ensures |PopularTags(ns, limit)| > 0
    ensures PopularTags(ns, limit)[0] == TagCount(p, multiset(AllTags(ns))[p])
  {
    PopularTagsCounts(ns, limit);
    PopularTagsShape(ns, limit);
    PopularTagsTop(ns, limit);
    assert p in FirstSeen(AllTags(ns));
    LeaderFirst(PopularTags(ns, limit), AllTags(ns), p);
  }

  /** The step of the above for any non-empty, count-sorted list with true counts that
      no left-out tag beats. */
  lemma LeaderFirst(r: seq<TagCount>, ts: seq<string>, p: string)
    requires |r| > 0 && p in ts && NonIncreasing(r, Count)
    requires forall i :: 0 <= i < |r| ==> r[i].tag in ts && r[i].count == multiset(ts)[r[i].tag]
    requires forall t, i :: t in ts && t !in Keys(r) && 0 <= i < |r| ==> multiset(ts)[t] <= r[i].count
    requires forall t :: t in ts && t != p ==> multiset(ts)[t] < multiset(ts)[p]
    ensures r[0] == TagCount(p, multiset(ts)[p])
  {
    assert p in Keys(r);
    var i :| 0 <= i < |r| && Keys(r)[i] == p;
    assert Count(r[0]) >= Count(r[i]);
    assert r[0].tag == p;
  }

  /** When one tag occurs twice and every other tag once at most, the list starts with
      that tag and a count of 2, and every other entry has count 1. */
  lemma PopularWithOneRepeat(ns: seq<Note>, limit: int, p: string)
    requires 0 < limit && multiset(AllTags(ns))[p] == 2
    requires forall t :: t != p ==> multiset(AllTags(ns))[t] <= 1
    ensures var r := PopularTags(ns, limit);
      && |r| > 0 && r[0] == TagCount(p, 2)
      && forall i :: 0 < i < |r| ==> r[i].count == 1
  {
    var ts := AllTags(ns);
    forall t | t in ts && t != p ensures multiset(ts)[t] < multiset(ts)[p] {
    }
    PopularTagsLeader(ns, limit, p);
    PopularTagsCounts(ns, limit);
    var r := PopularTags(ns, limit);
    forall i | 0 < i < |r| ensures r[i].count == 1 {
      assert r[i].tag != r[0].tag;
      assert r[i].tag in ts;
    }
  }

  /** In a tally sorted by count, a tag outside a prefix counts no more than any entry of it. */
  lemma PrefixOfSortedTally(ts: seq<string>, s: seq<TagCount>, m: nat)
    requires multiset(s) == multiset(TallyTags(ts)) && NonIncreasing(s, Count) && m <= |s|
    ensures forall t, i :: t in ts && t !in Keys(s[..m]) && 0 <= i < m ==> multiset(ts)[t] <= s[i].count
  {
    PermutedTally(ts, s);
    forall t, i | t in ts && t !in Keys(s[..m]) && 0 <= i < m ensures multiset(ts)[t] <= s[i].count {
      assert t in Keys(s);
      var q :| 0 <= q < |s| && Keys(s)[q] == t;
      forall j | 0 <= j < m ensures Keys(s)[j] != t {
        assert Keys(s[..m])[j] == Keys(s)[j];
      }
      assert Count(s[i]) >= Count(s[q]);
    }
  }

  /** Ties keep entry order: the tags of one count appear as a prefix of their order in
      `Object.entries`; when no tag is integer-like, that is the order in which the tags
      were first met. */
  lemma PopularTagsStable(ns: seq<Note>, limit: int, count: int)
    ensures KeyClass(PopularTags(ns, limit), Count, count) <= KeyClass(Entries(Tally(ns)), Count, count)
    ensures (forall t :: t in AllTags(ns) ==> !IsArrayIndex(t)) ==>
      && Entries(Tally(ns)) == Tally(ns)
      && Keys(Tally(ns)) == FirstSeen(AllTags(ns))
  {
    var e := Entries(Tally(ns));
    assert KeyClass(PopularTags(ns, limit), Count, count) <= KeyClass(e, Count, count) by {
      var sorted := SortDesc(e, Count);
      KeyClassOfPrefix(sorted, |PopularTags(ns, limit)|, Count, count);
      SortDescStable(e, Count, count);
    }
    if forall t :: t in AllTags(ns) ==> !IsArrayIndex(t) {
      TallyInFirstSeenOrder(ns);
    }
  }

  /** Without integer-like tags, `Object.entries` lists the tally as built, which is in
      first-seen order. */
  lemma TallyInFirstSeenOrder(ns: seq<Note>)
    requires forall t :: t in AllTags(ns) ==> !IsArrayIndex(t)
    ensures Entries(Tally(ns)) == Tally(ns)
    ensures Keys(Tally(ns)) == FirstSeen(AllTags(ns))
  {
    TallyTagsFacts(AllTags(ns));
    var d := Tally(ns);
    forall i | 0 <= i < |d| ensures !IsArrayIndex(d[i].tag) {
      assert Keys(d)[i] == d[i].tag;
    }
    EntriesWithoutIndexKeys(d);
  }
}
