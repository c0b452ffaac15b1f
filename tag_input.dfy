/** The tag editor of components/editor/tag-input.tsx. The tag list belongs to the
    parent and is replaced through `onChange`; the text box is the component's own
    `inputValue` state. Both are fields here, and each handler is one method. */
module TagEditor {
  import opened JsArray
  import opened JsString

  class TagInput {
    var tags: seq<string>
    var inputValue: string

    /** No tag is listed twice. */
    ghost predicate Valid()
      reads this
    {
      Distinct(tags)
    }

    /** The component as first rendered: the parent's tags and an empty text box. */
    constructor (initialTags: seq<string>)
      ensures tags == initialTags && inputValue == ""
    {
      tags := initialTags;
      inputValue := "";
    }

    /** `handleInputChange`: the text box takes the typed value. */
    method InputChange(value: string)
      modifies this
      ensures inputValue == value && tags == old(tags)
    {
      inputValue := value;
    }

    /** `addTag(tag)`: a non-empty tag that is not listed yet is appended and the text box
        is cleared; otherwise nothing changes, so a duplicate stays in the text box. */
    method AddTag(tag: string)
      modifies this
      ensures tag != "" && tag !in old(tags) ==> tags == old(tags) + [tag] && inputValue == ""
      ensures !(tag != "" && tag !in old(tags)) ==> tags == old(tags) && inputValue == old(inputValue)
      ensures old(Valid()) ==> Valid()
    {
      if tag != "" && tag !in tags {
        var newTags := tags + [tag];
        assert forall i :: 0 <= i < |tags| ==> newTags[i] == tags[i];
        tags := newTags;
        inputValue := "";
      }
    }

    /** `removeTag(index)`: a copy of the list with `splice(index, 1)` applied. */
    method RemoveTag(index: int)
      modifies this
      ensures tags == RemoveAt(old(tags), index) && inputValue == old(inputValue)
      ensures old(Valid()) ==> Valid()
    {
      if Valid() {
        RemoveAtKeepsDistinct(tags, index);
      }
      tags := RemoveAt(tags, index);
    }

    /** `handleInputKeyDown`: Enter with some non-blank text adds the trimmed text;
        Backspace in an empty text box removes the last tag; any other key, and Enter
        on blank text, changes nothing. */
    method KeyDown(key: string)
      modifies this
      ensures key == "Enter" && Trim(old(inputValue)) != "" ==>
        var tag := Trim(old(inputValue));
        if tag !in old(tags) then tags == old(tags) + [tag] && inputValue == ""
        else tags == old(tags) && inputValue == old(inputValue)
      ensures key == "Backspace" && old(inputValue) == "" && |old(tags)| > 0 ==>
        tags == old(tags)[..|old(tags)| - 1] && inputValue == old(inputValue)
      ensures !(key == "Enter" && Trim(old(inputValue)) != "") &&
              !(key == "Backspace" && old(inputValue) == "" && |old(tags)| > 0) ==>
        tags == old(tags) && inputValue == old(inputValue)
      ensures old(Valid()) ==> Valid()
    {
      if key == "Enter" && Trim(inputValue) != "" {
        AddTag(Trim(inputValue));
      } else if key == "Backspace" && inputValue == "" && |tags| > 0 {
        ghost var before := tags;
        RemoveTag(|tags| - 1);
        assert tags == before[..|before| - 1];
      }
    }

    /** `handleAddClick`: the add button does what Enter does. */
    method AddClick()
      modifies this
      ensures Trim(old(inputValue)) != "" ==>
        var tag := Trim(old(inputValue));
        if tag !in old(tags) then tags == old(tags) + [tag] && inputValue == ""
        else tags == old(tags) && inputValue == old(inputValue)
      ensures Trim(old(inputValue)) == "" ==> tags == old(tags) && inputValue == old(inputValue)
      ensures old(Valid()) ==> Valid()
    {
      if Trim(inputValue) != "" {
        AddTag(Trim(inputValue));
      }
    }
  }
}
