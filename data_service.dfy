/** The client-side data layer, lib/data/data-service.ts. Each call fetches from the
    API; the model takes the response as a parameter, and a call that throws an `Error`
    returns a `Failure` with the message it throws. */
module DataService {
  import opened Wrappers
  import opened Types
  import opened JsArray
  import opened NoteQueries

  /** An HTTP response: whether its status is 2xx, and its body parsed as JSON. */
  datatype Response<T> = Response(ok: bool, body: T)

  /** `getNotes()`: the fetched notes, or throws when the response is not ok. */
  function GetNotes(response: Response<seq<Note>>): (r: Result<seq<Note>>)
    ensures r.Success? <==> response.ok
    ensures r.Success? ==> r.value == response.body
    ensures r.Failure? ==> r.error == "Failed to fetch notes"
  {
    if !response.ok then Failure("Failed to fetch notes") else Success(response.body)
  }

  /** `getCategories()`: the fetched categories, or throws when the response is not ok. */
  function GetCategories(response: Response<seq<Category>>): (r: Result<seq<Category>>)
    ensures r.Success? <==> response.ok
    ensures r.Success? ==> r.value == response.body
    ensures r.Failure? ==> r.error == "Failed to fetch categories"
  {
    if !response.ok then Failure("Failed to fetch categories") else Success(response.body)
  }

  /** `saveNote(note)`: throws exactly when the POST response is not ok. */
  function SaveNote(response: Response<()>): (r: Result<()>)
    ensures r.Success? <==> response.ok
    ensures r.Failure? ==> r.error == "Failed to save note"
  {
    if !response.ok then Failure("Failed to save note") else Success(())
  }

  /** `deleteNote(id)`: throws exactly when the DELETE response is not ok. */
  function DeleteNote(response: Response<()>): (r: Result<()>)
    ensures r.Success? <==> response.ok
    ensures r.Failure? ==> r.error == "Failed to delete note"
  {
    if !response.ok then Failure("Failed to delete note") else Success(())
  }

  /** `getNoteById(id)`: the first fetched note with that id, or `undefined`; the fetch
      error passes through. */
  function GetNoteById(response: Response<seq<Note>>, id: string): (r: Result<Option<Note>>)
    ensures r.Failure? <==> !response.ok
    ensures r.Failure? ==> r.error == "Failed to fetch notes"
    ensures r.Success? ==> (r.value.None? <==> forall i :: 0 <= i < |response.body| ==> response.body[i].id != id)
    ensures r.Success? && r.value.Some? ==>
      exists i :: 0 <= i < |response.body| && response.body[i] == r.value.value && r.value.value.id == id &&
                  forall j :: 0 <= j < i ==> response.body[j].id != id
  {
    var notes :- GetNotes(response);
    Success(NoteById(notes, id))
  }

  /** `getCategoryById(id)`: the first fetched category with that id, or `undefined`. */
  function GetCategoryById(response: Response<seq<Category>>, id: string): (r: Result<Option<Category>>)
    ensures r.Failure? <==> !response.ok
    ensures r.Failure? ==> r.error == "Failed to fetch categories"
    ensures r.Success? ==> (r.value.None? <==> forall i :: 0 <= i < |response.body| ==> response.body[i].id != id)
    ensures r.Success? && r.value.Some? ==>
      exists i :: 0 <= i < |response.body| && response.body[i] == r.value.value && r.value.value.id == id &&
                  forall j :: 0 <= j < i ==> response.body[j].id != id
  {
    var categories :- GetCategories(response);
    Success(CategoryById(categories, id))
  }

  /** `getNotesByCategory(categoryId)`: the fetched notes of that category. */
  function GetNotesByCategory(response: Response<seq<Note>>, categoryId: string): (r: Result<seq<Note>>)
    ensures r.Failure? <==> !response.ok
    ensures r.Failure? ==> r.error == "Failed to fetch notes"
    ensures r.Success? ==> forall n :: n in r.value <==> n in response.body && n.category == categoryId
    ensures r.Success? ==> forall n ::
      multiset(r.value)[n] == if n.category == categoryId then multiset(response.body)[n] else 0
  {
    var notes :- GetNotes(response);
    var found := NotesByCategory(notes, categoryId);
    assert forall n :: multiset(found)[n] == if n.category == categoryId then multiset(notes)[n] else 0 by {
      forall n ensures multiset(found)[n] == if n.category == categoryId then multiset(notes)[n] else 0 {
        NotesByCategoryExact(notes, categoryId, n, []);
      }
    }
    Success(found)
  }

  /** `getRecentNotes(limit = 5)`: at most `limit` fetched notes, the latest update first. */
  function GetRecentNotes(response: Response<seq<Note>>, limit: int := 5): (r: Result<seq<Note>>)
    ensures r.Failure? <==> !response.ok
    ensures r.Failure? ==> r.error == "Failed to fetch notes"
    ensures r.Success? ==> NonIncreasing(r.value, UpdatedAt) && multiset(r.value) <= multiset(response.body)
    ensures r.Success? && 0 <= limit ==>
      |r.value| == if limit <= |response.body| then limit else |response.body|
  {
    var notes :- GetNotes(response);
    Success(RecentNotes(notes, limit))
  }

  /** `getPinnedNotes()`: the pinned fetched notes. */
  function GetPinnedNotes(response: Response<seq<Note>>): (r: Result<seq<Note>>)
    ensures r.Failure? <==> !response.ok
    ensures r.Failure? ==> r.error == "Failed to fetch notes"
    ensures r.Success? ==> forall n :: n in r.value <==> n in response.body && n.pinned
    ensures r.Success? ==> forall n :: multiset(r.value)[n] == if n.pinned then multiset(response.body)[n] else 0
  {
    var notes :- GetNotes(response);
    var found := PinnedNotes(notes);
    assert forall n :: multiset(found)[n] == if n.pinned then multiset(notes)[n] else 0 by {
      forall n ensures multiset(found)[n] == if n.pinned then multiset(notes)[n] else 0 {
        PinnedNotesExact(notes, n, []);
      }
    }
    Success(found)
  }

  /** `getPopularTags(limit = 5)`: the tag counts of the fetched notes, the most used
      first, at most `limit` of them. */
  method GetPopularTags(response: Response<seq<Note>>, limit: int := 5) returns (r: Result<seq<TagCount>>)
    ensures r.Failure? <==> !response.ok
    ensures r.Failure? ==> r.error == "Failed to fetch notes"
    ensures r.Success? ==> r.value == PopularTags(response.body, limit)
    ensures r.Success? ==> NonIncreasing(r.value, Count) && DistinctTags(r.value)
  {
    var fetched := GetNotes(response);
    if fetched.Failure? {
      return Failure(fetched.error);
    }
    var notes := fetched.value;
    var tagCounts := TallyNotes(notes);
    r := Success(Take(SortDesc(Entries(tagCounts), Count), limit));
    PopularTagsCounts(notes, limit);
    PopularTagsShape(notes, limit);
  }
}
