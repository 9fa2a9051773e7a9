/**
 * The report page as one state machine: the form state of src/ItemForm.js and
 * the tag picker it renders (src/incident/incidentform/IncidentTags.js), driven
 * by the events the page's controls can raise. Each tag click runs the picker's
 * updater once, and that updater calls the form's `handleTagsChange` once with
 * the clicked tag.
 *
 * `StepAsWritten` is the page as the source builds it. After a successful
 * submission the form's tags are cleared but the picker keeps its own
 * selection, so the two copies disagree from then on
 * (`SubmitLeavesPickerStale`). `Step` clears the picker's selection together
 * with the form, and every property of the page is proved of `Step`.
 */
module ReportPage {
  import opened Wrappers
  import opened Seqs
  import opened TagList
  import opened ItemForm
  import opened IncidentTags

  datatype Page = Page(form: FormData, picker: Picker)

  const InitialPage := Page(EmptyForm, InitialPicker)

  datatype Event =
    | Typed(input: TextInput, value: string)
    | PickedFiles(files: seq<File>)
    | ClickedTag(tag: string)
    | ClickedLocation(badge: nat)
    | Submitted(user: Option<string>, backendSucceeds: bool)

  /** The events the rendered controls can raise: tag badges carry vocabulary tags, location badges exist for the 25 towns. */
  predicate FromUi(e: Event) {
    match e
    case ClickedTag(t) => t in PredefinedTags
    case ClickedLocation(i) => i < |LocationTags|
    case _ => true
  }

  /**
   * One event, handled as the source handles it. Only a tag click reaches the
   * picker, and it flips the clicked tag in both copies; a submission leaves
   * the picker as it was.
   */
  function StepAsWritten(p: Page, e: Event): (r: Page)
    ensures !e.ClickedTag? ==> r.picker == p.picker
    ensures e.ClickedTag? ==> (e.tag in r.picker.selected <==> e.tag !in p.picker.selected)
    ensures e.ClickedTag? ==> (e.tag in r.form.tags <==> e.tag !in p.form.tags)
  {
    match e
    case Typed(input, value) => p.(form := HandleChange(p.form, input, value))
    case PickedFiles(files) => p.(form := HandleFileChange(p.form, files).form)
    case ClickedTag(tag) =>
      var toggled := ToggleTag(p.picker, tag);
      Page(HandleTagsChange(p.form, toggled.notified), toggled.picker)
    case ClickedLocation(i) =>
      if i < |LocationTags| then p.(form := SelectLocation(p.form, LocationTags[i])) else p
    case Submitted(user, ok) => p.(form := HandleSubmit(p.form, user, ok).form)
  }

  /** The submission succeeded and the form was reset. */
  predicate ResetsForm(p: Page, e: Event) {
    e.Submitted? && HandleSubmit(p.form, e.user, e.backendSucceeds).sent.Some? && e.backendSucceeds
  }

  /** One event, with the picker's selection cleared whenever the form is reset. */
  function Step(p: Page, e: Event): (r: Page)
    ensures !ResetsForm(p, e) ==> r == StepAsWritten(p, e)
    ensures ResetsForm(p, e) ==> r.form == EmptyForm && r.picker.selected == []
  {
    if ResetsForm(p, e) then Page(EmptyForm, p.picker.(selected := [])) else StepAsWritten(p, e)
  }

  /** The correction touches nothing but the picker's selection, and only on a reset. */
  lemma StepDiffersOnlyInPicker(p: Page, e: Event)
    ensures Step(p, e).form == StepAsWritten(p, e).form
    ensures Step(p, e).picker == if ResetsForm(p, e) then StepAsWritten(p, e).picker.(selected := [])
                                 else StepAsWritten(p, e).picker
  {
    if ResetsForm(p, e) {
      var sub := HandleSubmit(p.form, e.user, e.backendSucceeds);
      assert sub.form == EmptyForm;
      assert StepAsWritten(p, e) == p.(form := sub.form);
    }
  }

  function Run(p: Page, events: seq<Event>): Page
    decreases |events|
  {
    if events == [] then p else Run(Step(p, events[0]), events[1..])
  }

  function RunAsWritten(p: Page, events: seq<Event>): Page
    decreases |events|
  {
    if events == [] then p else RunAsWritten(StepAsWritten(p, events[0]), events[1..])
  }

  /**
   * What the form's own handlers keep, with or without the correction: the
   * selected tags are distinct vocabulary tags, the location is unset or one of
   * the location badges, and there are at most five photos, none over 500 KiB.
   */
  predicate FormInv(f: FormData) {
    && NoDup(f.tags)
    && (forall t :: t in f.tags ==> t in PredefinedTags)
    && (f.location == "" || f.location in LocationTags)
    && |f.files| <= MaxFiles
    && (forall i :: 0 <= i < |f.files| ==> f.files[i].size <= MaxFileBytes)
  }

  /** What holds of every page the user can reach: `FormInv`, and the picker and the form agree on the selected tags. */
  predicate PageInv(p: Page) {
    p.picker.selected == p.form.tags && FormInv(p.form)
  }

  /** As written, every UI event keeps the form's invariant, whatever the picker shows. */
  lemma StepAsWrittenKeepsFormInv(p: Page, e: Event)
    requires FormInv(p.form)
    requires FromUi(e)
    ensures FormInv(StepAsWritten(p, e).form)
  {
    var r := StepAsWritten(p, e);
    match e {
      case Typed(input, value) =>
      case PickedFiles(files) =>
        if |files| <= MaxFiles {
          forall i | 0 <= i < |r.form.files| ensures r.form.files[i].size <= MaxFileBytes {
            var x := r.form.files[i];
            assert x in r.form.files;
            assert multiset(r.form.files)[x] > 0;
          }
        }
      case ClickedTag(tag) =>
        ToggleKeepsNoDup(p.form.tags, tag);
      case ClickedLocation(i) =>
      case Submitted(user, ok) =>
    }
  }

  /** As written, any run of UI events keeps the form's invariant: the desync reaches the picker only. */
  lemma {:induction false} RunAsWrittenKeepsFormInv(p: Page, events: seq<Event>)
    requires FormInv(p.form)
    requires forall i :: 0 <= i < |events| ==> FromUi(events[i])
    ensures FormInv(RunAsWritten(p, events).form)
    decreases |events|
  {
    if events != [] {
      StepAsWrittenKeepsFormInv(p, events[0]);
      RunAsWrittenKeepsFormInv(StepAsWritten(p, events[0]), events[1..]);
    }
  }

  lemma StepKeepsInvariant(p: Page, e: Event)
    requires PageInv(p)
    requires FromUi(e)
    ensures PageInv(Step(p, e))
  {
    StepAsWrittenKeepsFormInv(p, e);
    StepDiffersOnlyInPicker(p, e);
  }

  /** Every page reached from the initial one through UI events satisfies `PageInv`. */
  lemma {:induction false} RunKeepsInvariant(p: Page, events: seq<Event>)
    requires PageInv(p)
    requires forall i :: 0 <= i < |events| ==> FromUi(events[i])
    ensures PageInv(Run(p, events))
    decreases |events|
  {
    if events != [] {
      StepKeepsInvariant(p, events[0]);
      RunKeepsInvariant(Step(p, events[0]), events[1..]);
    }
  }

  lemma InitialPageInv()
    ensures PageInv(InitialPage)
  {
  }

  function TagClicks(tags: seq<string>): (r: seq<Event>)
    ensures |r| == |tags|
    ensures forall i :: 0 <= i < |r| ==> r[i] == ClickedTag(tags[i])
  {
    seq(|tags|, i requires 0 <= i < |tags| => ClickedTag(tags[i]))
  }

  /**
   * As written, a series of tag clicks keeps the picker's selection and the
   * form's tags equal, given one updater run per click: both apply the same
   * toggle to the same tag.
   */
  lemma {:induction false} TagClicksKeepCopiesEqual(p: Page, tags: seq<string>)
    requires p.picker.selected == p.form.tags
    ensures RunAsWritten(p, TagClicks(tags)).picker.selected ==
            RunAsWritten(p, TagClicks(tags)).form.tags
    ensures RunAsWritten(p, TagClicks(tags)).form.tags == ToggleAll(p.form.tags, tags)
    decreases |tags|
  {
    if tags != [] {
      var clicks := TagClicks(tags);
      assert clicks[1..] == TagClicks(tags[1..]);
      TagClicksKeepCopiesEqual(StepAsWritten(p, clicks[0]), tags[1..]);
    }
  }

  /** A complete report with one tag selected in both copies. */
  const WalletForm := FormData("Black wallet", "2024-05-01", "0971234567", ["Keys"], "Lusaka", [])
  const WalletPage := Page(WalletForm, Picker([], "", ["Keys"]))

  lemma WalletPageValid()
    ensures Complete(WalletForm) && PageInv(WalletPage)
  {
    assert !Text.IsJsSpace(WalletForm.description[0]);
    assert Text.IsTenDigits(WalletForm.phoneNumber);
    assert "Keys" in PredefinedTags;
    assert "Lusaka" in LocationTags;
  }

  /**
   * As written, a successful submission leaves the picker showing the old
   * selection while the form's tags are empty; the next click on that tag
   * deselects it in the picker but adds it to the form.
   */
  lemma SubmitLeavesPickerStale()
    ensures
      var p1 := StepAsWritten(WalletPage, Submitted(Some("u1"), true));
      var p2 := StepAsWritten(p1, ClickedTag("Keys"));
      && PageInv(WalletPage)
      && p1.form == EmptyForm && p1.picker.selected == ["Keys"]
      && p2.picker.selected == [] && p2.form.tags == ["Keys"]
  {
    WalletPageValid();
    var p1 := StepAsWritten(WalletPage, Submitted(Some("u1"), true));
    assert p1.form == EmptyForm;
  }

  /** With the correction, the same sequence keeps the copies equal. */
  lemma CorrectedSubmitClearsPicker()
    ensures
      var p2 := Step(Step(WalletPage, Submitted(Some("u1"), true)), ClickedTag("Keys"));
      p2.picker.selected == ["Keys"] && p2.form.tags == ["Keys"]
  {
    WalletPageValid();
    assert ResetsForm(WalletPage, Submitted(Some("u1"), true));
  }
}
