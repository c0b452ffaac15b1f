/** What the seed of lib/data/notes.ts gives the seed-backed helpers of lib/utils.ts.
    Each fact is proved once for any notes with the relevant fields, then for the seed
    notes themselves, so that the long note contents stay out of the proofs. */
module SeedFacts {
  import opened Wrappers
  import opened Types
  import opened JsArray
  import opened NoteQueries
  import opened SeedData
  import opened SeedShapes
  import SeedQueries

  // ---------------------------------------------------------------------------
  // Categories and ids
  // ---------------------------------------------------------------------------

  /** The four seed categories, their ids in order, each with its named colour and the
      `BookMarked` icon. */
  lemma SeedCategories()
    ensures |Categories| == 4
    ensures Categories[0].id == "business" && Categories[1].id == "personal"
    ensures Categories[2].id == "ideas" && Categories[3].id == "projects"
    ensures Categories[0].color == "blue" && Categories[1].color == "green"
    ensures Categories[2].color == "amber" && Categories[3].color == "purple"
    ensures forall c :: c in Categories ==> c.icon == "BookMarked"
  {
  }

  /** The eight seed ids are `note-1` to `note-8`, in that order, so they are pairwise
      distinct. */
  lemma SeedIds()
    ensures |Notes| == 8
    ensures Notes[0].id == "note-1" && Notes[1].id == "note-2" && Notes[2].id == "note-3"
    ensures Notes[3].id == "note-4" && Notes[4].id == "note-5" && Notes[5].id == "note-6"
    ensures Notes[6].id == "note-7" && Notes[7].id == "note-8"
    ensures UniqueIds(Notes)
  {
    IdsOfEight(Notes);
  }

  /** Every seed note's category is a seed category, so looking it up never gives
      `undefined`. */
  lemma SeedCategoriesResolve()
    ensures forall n :: n in Notes ==> SeedQueries.GetCategoryById(n.category).Some?
  {
    var ids := ["business", "personal", "ideas", "projects"];
    forall n | n in Notes ensures n.category in ids {
    }
    forall k | 0 <= k < 4 ensures SeedQueries.GetCategoryById(ids[k]).Some? {
      assert Categories[k].id == ids[k];
    }
  }

  /** Exactly notes 3, 5 and 8 are public. */
  lemma SeedPublic()
    ensures forall n :: n in Notes ==> (n.isPublic <==> n.id in {"note-3", "note-5", "note-8"})
  {
  }

  // ---------------------------------------------------------------------------
  // Pinned notes
  // ---------------------------------------------------------------------------

  /** `getPinnedNotes()` gives notes 1, 3, 6 and 8, in that order. */
  lemma SeedPinned()
    ensures SeedQueries.GetPinnedNotes() == [Note1, Note3, Note6, Note8]
  {
    PinnedOfEight(Note1, Note2, Note3, Note4, Note5, Note6, Note7, Note8);
  }

  // ---------------------------------------------------------------------------
  // Recent notes
  // ---------------------------------------------------------------------------

  /** `getRecentNotes()` gives notes 1, 6, 7, 2 and 8, the latest update first. */
  lemma SeedRecent()
    ensures SeedQueries.GetRecentNotes() == [Note1, Note6, Note7, Note2, Note8]
  {
    RecentFiveOfEight(Note1, Note2, Note3, Note4, Note5, Note6, Note7, Note8);
  }

  // ---------------------------------------------------------------------------
  // Popular tags
  // ---------------------------------------------------------------------------

  /** The seed tags in visiting order. */
  lemma SeedTagList()
    ensures AllTags(Notes) ==
      ["marketing", "product", "launch", "travel", "vacation", "summer", "app", "fitness", "startup",
       "web", "design", "development", "books", "reading", "self-improvement", "goals", "planning", "quarterly",
       "home", "renovation", "kitchen", "ai", "product", "innovation"]
  {
    AllTagsOfEight(Note1, Note2, Note3, Note4, Note5, Note6, Note7, Note8);
    JoinSeedTags(Note1.tags, Note2.tags, Note3.tags, Note4.tags, Note5.tags, Note6.tags, Note7.tags, Note8.tags);
  }

  /** `product` is the only seed tag used twice. */
  lemma SeedTags()
    ensures multiset(AllTags(Notes))["product"] == 2
    ensures forall t :: t != "product" ==> multiset(AllTags(Notes))[t] <= 1
  {
    SeedTagList();
    ProductRepeatsOnce(AllTags(Notes));
  }

  /** `getPopularTags()` puts `product` first, with count 2, and every other tag it
      reports occurs once. */
  lemma SeedPopularTags()
    ensures var r := PopularTags(Notes, 10);
      && |r| > 0 && r[0] == TagCount("product", 2)
      && forall i :: 0 < i < |r| ==> r[i].count == 1
  {
    SeedTags();
    PopularWithOneRepeat(Notes, 10, "product");
  }
}
