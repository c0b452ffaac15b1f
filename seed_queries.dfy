/** The queries of lib/utils.ts that read the seed data of lib/data/notes.ts directly
    instead of a store. */
module SeedQueries {
  import opened Wrappers
  import opened Types
  import opened JsArray
  import opened NoteQueries
  import SeedData

  /** `getNotesByCategory(categoryId)` over the seed notes. */
  function GetNotesByCategory(categoryId: string): (r: seq<Note>)
    ensures forall n :: n in r <==> n in SeedData.Notes && n.category == categoryId
    ensures forall n :: multiset(r)[n] == if n.category == categoryId then multiset(SeedData.Notes)[n] else 0
  {
    var r := NotesByCategory(SeedData.Notes, categoryId);
    assert forall n :: multiset(r)[n] == if n.category == categoryId then multiset(SeedData.Notes)[n] else 0 by {
      forall n ensures multiset(r)[n] == if n.category == categoryId then multiset(SeedData.Notes)[n] else 0 {
        NotesByCategoryExact(SeedData.Notes, categoryId, n, []);
      }
    }
    r
  }

  /** `getRecentNotes(limit = 5)`: a sorted copy of the seed notes, truncated. */
  function GetRecentNotes(limit: int := 5): (r: seq<Note>)
    ensures NonIncreasing(r, UpdatedAt)
    ensures multiset(r) <= multiset(SeedData.Notes)
    ensures 0 <= limit ==> |r| == if limit <= |SeedData.Notes| then limit else |SeedData.Notes|
  {
    RecentNotes(SeedData.Notes, limit)
  }

  /** `getPinnedNotes()` over the seed notes. */
  function GetPinnedNotes(): (r: seq<Note>)
    ensures forall n :: n in r <==> n in SeedData.Notes && n.pinned
    ensures forall n :: multiset(r)[n] == if n.pinned then multiset(SeedData.Notes)[n] else 0
  {
    var r := PinnedNotes(SeedData.Notes);
    assert forall n :: multiset(r)[n] == if n.pinned then multiset(SeedData.Notes)[n] else 0 by {
      forall n ensures multiset(r)[n] == if n.pinned then multiset(SeedData.Notes)[n] else 0 {
        PinnedNotesExact(SeedData.Notes, n, []);
      }
    }
    r
  }

  /** `getCategoryById(categoryId)` over the seed categories. */
  function GetCategoryById(categoryId: string): (r: Option<Category>)
    ensures r.None? <==> forall i :: 0 <= i < |SeedData.Categories| ==> SeedData.Categories[i].id != categoryId
    ensures r.Some? ==> exists i :: 0 <= i < |SeedData.Categories| && SeedData.Categories[i] == r.value &&
                                    r.value.id == categoryId &&
                                    forall j :: 0 <= j < i ==> SeedData.Categories[j].id != categoryId
  {
    CategoryById(SeedData.Categories, categoryId)
  }

  /** `getPopularTags(limit = 10)`: the nested `forEach` fills the counts, then the
      entries are sorted by count and truncated. */
  method GetPopularTags(limit: int := 10) returns (r: seq<TagCount>)
    ensures r == PopularTags(SeedData.Notes, limit)
    ensures DistinctTags(r) && NonIncreasing(r, Count)
    ensures forall i :: 0 <= i < |r| ==>
      r[i].tag in AllTags(SeedData.Notes) && r[i].count == multiset(AllTags(SeedData.Notes))[r[i].tag]
    ensures 0 <= limit ==>
      |r| == (if limit <= |FirstSeen(AllTags(SeedData.Notes))| then limit else |FirstSeen(AllTags(SeedData.Notes))|)
  {
    var tagCounts := TallyNotes(SeedData.Notes);
    r := Take(SortDesc(Entries(tagCounts), Count), limit);
    PopularTagsCounts(SeedData.Notes, limit);
    PopularTagsShape(SeedData.Notes, limit);
  }
}
