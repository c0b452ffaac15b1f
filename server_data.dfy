/** The server-side store, lib/data/server-data.ts: two JSON documents, created with
    their defaults when the module is loaded, read afresh by every query, with a read or
    parse failure read as an empty array. */
module ServerData {
  import opened Wrappers
  import opened Types
  import opened JsArray
  import opened NoteQueries

  /** The categories this module writes into a missing `categories.json`. */
  const DefaultCategories: seq<Category> := [
    Category("business", "Business", "#4CAF50", "Briefcase"),
    Category("personal", "Personal", "#2196F3", "User"),
    Category("ideas", "Ideas", "#9C27B0", "Lightbulb"),
    Category("projects", "Projects", "#FF9800", "Folder")
  ]

  /** The default categories are the four ids `business`, `personal`, `ideas` and
      `projects`, distinct, each coloured with a seven-character hex code. */
  lemma DefaultCategoriesFacts()
    ensures |DefaultCategories| == 4
    ensures DefaultCategories[0].id == "business" && DefaultCategories[1].id == "personal"
    ensures DefaultCategories[2].id == "ideas" && DefaultCategories[3].id == "projects"
    ensures forall i, j :: 0 <= i < j < |DefaultCategories| ==> DefaultCategories[i].id != DefaultCategories[j].id
    ensures forall c :: c in DefaultCategories ==> |c.color| == 7 && c.color[0] == '#'
  {
  }

  class ServerStore {
    var notesFile: Stored<Note>
    var categoriesFile: Stored<Category>

    /** Loading the module: a missing notes file is created holding `[]` and a missing
        categories file holding the default categories; a file that exists is kept as
        it is. The defaults are a parameter because app/api/categories/route.ts
        initialises the same file with other colours, and whichever module loads first
        decides its contents. */
    constructor (notes: Stored<Note>, categories: Stored<Category>, defaultCategories: seq<Category>)
      ensures notesFile == InitFile(notes, [])
      ensures categoriesFile == InitFile(categories, defaultCategories)
    {
      notesFile := InitFile(notes, []);
      categoriesFile := InitFile(categories, defaultCategories);
    }

    /** `getNotes()`: the stored notes, or `[]` when reading or parsing fails. */
    function GetNotes(): (r: seq<Note>)
      reads this
      ensures notesFile.Holds? ==> r == notesFile.items
      ensures !notesFile.Holds? ==> r == []
    {
      if notesFile.Holds? then notesFile.items else []
    }

    /** `getCategories()`: the stored categories, or `[]` when reading or parsing fails. */
    function GetCategories(): (r: seq<Category>)
      reads this
      ensures categoriesFile.Holds? ==> r == categoriesFile.items
      ensures !categoriesFile.Holds? ==> r == []
    {
      if categoriesFile.Holds? then categoriesFile.items else []
    }

    /** `getNoteById(id)`: the first stored note with that id, or `undefined`. */
    function GetNoteById(id: string): (r: Option<Note>)
      reads this
      ensures r.None? <==> forall i :: 0 <= i < |GetNotes()| ==> GetNotes()[i].id != id
      ensures r.Some? ==> exists i :: 0 <= i < |GetNotes()| && GetNotes()[i] == r.value && r.value.id == id &&
                                      forall j :: 0 <= j < i ==> GetNotes()[j].id != id
    {
      NoteById(GetNotes(), id)
    }

    /** `getCategoryById(id)`: the first stored category with that id, or `undefined`. */
    function GetCategoryById(id: string): (r: Option<Category>)
      reads this
      ensures r.None? <==> forall i :: 0 <= i < |GetCategories()| ==> GetCategories()[i].id != id
      ensures r.Some? ==> exists i :: 0 <= i < |GetCategories()| && GetCategories()[i] == r.value &&
                                      r.value.id == id &&
                                      forall j :: 0 <= j < i ==> GetCategories()[j].id != id
    {
      CategoryById(GetCategories(), id)
    }

    /** `getNotesByCategory(categoryId)`: every stored note of the category, each as often
        as it is stored, and nothing else. */
    function GetNotesByCategory(categoryId: string): (r: seq<Note>)
      reads this
      ensures forall n :: n in r <==> n in GetNotes() && n.category == categoryId
      ensures forall n :: multiset(r)[n] == if n.category == categoryId then multiset(GetNotes())[n] else 0
    {
      var r := NotesByCategory(GetNotes(), categoryId);
      assert forall n :: multiset(r)[n] == if n.category == categoryId then multiset(GetNotes())[n] else 0 by {
        forall n ensures multiset(r)[n] == if n.category == categoryId then multiset(GetNotes())[n] else 0 {
          NotesByCategoryExact(GetNotes(), categoryId, n, []);
        }
      }
      r
    }

    /** `getRecentNotes(limit = 5)`: at most `limit` stored notes, the latest update
        first, taken from a copy, so the store keeps its order. */
    function GetRecentNotes(limit: int := 5): (r: seq<Note>)
      reads this
      ensures NonIncreasing(r, UpdatedAt)
      ensures multiset(r) <= multiset(GetNotes())
      ensures 0 <= limit ==> |r| == if limit <= |GetNotes()| then limit else |GetNotes()|
    {
      RecentNotes(GetNotes(), limit)
    }

    /** `getPinnedNotes()`: every pinned stored note, each as often as it is stored, and
        nothing else. */
    function GetPinnedNotes(): (r: seq<Note>)
      reads this
      ensures forall n :: n in r <==> n in GetNotes() && n.pinned
      ensures forall n :: multiset(r)[n] == if n.pinned then multiset(GetNotes())[n] else 0
    {
      var r := PinnedNotes(GetNotes());
      assert forall n :: multiset(r)[n] == if n.pinned then multiset(GetNotes())[n] else 0 by {
        forall n ensures multiset(r)[n] == if n.pinned then multiset(GetNotes())[n] else 0 {
          PinnedNotesExact(GetNotes(), n, []);
        }
      }
      r
    }

    /** `getPopularTags(limit = 5)`: counts the tags with the accumulator loop, lists the
        entries, sorts them by count from the largest down and keeps `limit` of them. */
    method GetPopularTags(limit: int := 5) returns (r: seq<TagCount>)
      ensures r == PopularTags(GetNotes(), limit)
      ensures DistinctTags(r)
      ensures forall i :: 0 <= i < |r| ==>
        r[i].tag in AllTags(GetNotes()) && r[i].count == multiset(AllTags(GetNotes()))[r[i].tag]
      ensures NonIncreasing(r, Count)
      ensures 0 <= limit ==>
        |r| == (if limit <= |FirstSeen(AllTags(GetNotes()))| then limit else |FirstSeen(AllTags(GetNotes()))|)
    {
      var notes := GetNotes();
      var tagCounts := TallyNotes(notes);
      r := Take(SortDesc(Entries(tagCounts), Count), limit);
      PopularTagsCounts(notes, limit);
      PopularTagsShape(notes, limit);
    }
  }
}
