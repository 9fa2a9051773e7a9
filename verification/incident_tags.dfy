/**
 * The tag picker of src/incident/incidentform/IncidentTags.js: its own copy of
 * the selected tags, the free-form tag list kept in the "tags" collection, and
 * the text typed for a new tag. The collection write is a parameter:
 * `writeSucceeds` says whether `addDoc` resolved.
 */
module IncidentTags {
  import opened Wrappers
  import opened Text
  import opened TagList

  /** A document of the "tags" collection. */
  datatype TagDoc = TagDoc(name: string)

  datatype Picker = Picker(tags: seq<TagDoc>, newTag: string, selected: seq<string>)

  const InitialPicker := Picker([], "", [])

  /** The picker after a click, and the value handed to the parent's `onTagsChange`. */
  datatype Toggled = Toggled(picker: Picker, notified: string)

  /**
   * `toggleTag`: flips the tag's membership in the picker's selection and tells
   * the parent which tag was clicked (the tag itself, not the new list).
   */
  function ToggleTag(p: Picker, tag: string): (r: Toggled)
    ensures r.notified == tag
    ensures tag in r.picker.selected <==> tag !in p.selected
    ensures RemoveAll(r.picker.selected, tag) == RemoveAll(p.selected, tag)
    ensures r.picker.(selected := p.selected) == p
  {
    Toggled(p.(selected := Toggle(p.selected, tag)), tag)
  }

  /** The picker after an add, and the document the add tried to write, if any. */
  datatype AddTag = AddTag(picker: Picker, written: Option<TagDoc>)

  /**
   * `handleAddTag`: blank input does nothing. Otherwise `{name: newTag}` is
   * written untrimmed; when the write succeeds it is appended to the tag list
   * and the input is cleared, and when it fails nothing changes.
   */
  function HandleAddTag(p: Picker, writeSucceeds: bool): (r: AddTag)
    ensures r.written.Some? <==> !IsBlank(p.newTag)
    ensures r.written.Some? ==> r.written.value == TagDoc(p.newTag)
    ensures IsBlank(p.newTag) || !writeSucceeds ==> r.picker == p
    ensures !IsBlank(p.newTag) && writeSucceeds ==>
              r.picker == p.(tags := p.tags + [TagDoc(p.newTag)], newTag := "")
  {
    TrimEmptyIffBlank(p.newTag);
    if Trim(p.newTag) == "" then
      AddTag(p, None)
    else if !writeSucceeds then
      AddTag(p, Some(TagDoc(p.newTag)))
    else
      AddTag(p.(newTag := "", tags := p.tags + [TagDoc(p.newTag)]), Some(TagDoc(p.newTag)))
  }
}
