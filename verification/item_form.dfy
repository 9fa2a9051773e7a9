/**
 * The incident-report form of src/ItemForm.js: its state, the validator, the
 * photo admission rule, the tag and location updaters, and the record built on
 * submission. The store writes, photo uploads and the signed-in user are
 * parameters: `user` is the current user's id if any, `backendSucceeds` whether
 * every awaited store and upload call resolved.
 */
module ItemForm {
  import opened Wrappers
  import opened Text
  import opened Seqs
  import opened TagList

  datatype File = File(name: string, size: nat)

  datatype FormData = FormData(
    description: string,
    dateLost: string,
    phoneNumber: string,
    tags: seq<string>,
    location: string,
    files: seq<File>)

  /** The state the form starts in and returns to after a successful submission. */
  const EmptyForm := FormData("", "", "", [], "", [])

  const MaxFiles := 5
  const MaxFileBytes := 500 * 1024

  /** The location badges, in display order. */
  const LocationTags: seq<string> := [
    "Lusaka", "Kitwe", "Ndola", "Kabwe", "Chingola", "Livingstone", "Luanshya",
    "Chipata", "Mufulira", "Kasama", "Mazabuka", "Solwezi", "Monze", "Mongu",
    "Choma", "Kalulushi", "Mansa", "Kapiri Mposhi", "Mpika", "Nchelenge",
    "Siavonga", "Kafue", "Petauke", "Kaoma", "Mbala"
  ]

  // ---------------------------------------------------------------- validation

  datatype Field = Description | DateLost | PhoneNumber | Location

  /** The problem recorded for a field; each comment gives the message shown under the input. */
  datatype Problem =
    | DescriptionRequired   // "Description is required."
    | DateLostRequired      // "Date Lost is required."
    | PhoneRequired         // "Phone number is required."
    | PhoneNotTenDigits     // "Phone number must be 10 digits."
    | LocationRequired      // "Location is required."

  /** One entry per field at fault, so at most one phone problem. */
  type Errors = map<Field, Problem>

  /** What a submittable report looks like, stated field by field. */
  predicate Complete(f: FormData) {
    && !IsBlank(f.description)
    && f.dateLost != ""
    && IsTenDigits(f.phoneNumber)
    && f.location != ""
  }

  datatype Validation = Validation(ok: bool, errors: Errors)

  /**
   * `validateForm`: records a problem for a blank description, an empty date, a
   * blank or malformed phone number (the pattern is matched against the untrimmed
   * text) and an empty location, and succeeds when it recorded none.
   */
  function ValidateForm(f: FormData): (v: Validation)
    ensures v.ok <==> v.errors == map[]
    ensures v.ok <==> Complete(f)
    ensures Description in v.errors <==> IsBlank(f.description)
    ensures DateLost in v.errors <==> f.dateLost == ""
    ensures PhoneNumber in v.errors <==> !IsTenDigits(f.phoneNumber)
    ensures Location in v.errors <==> f.location == ""
    ensures Description in v.errors ==> v.errors[Description] == DescriptionRequired
    ensures DateLost in v.errors ==> v.errors[DateLost] == DateLostRequired
    ensures Location in v.errors ==> v.errors[Location] == LocationRequired
    ensures PhoneNumber in v.errors ==>
              (v.errors[PhoneNumber] == PhoneRequired <==> IsBlank(f.phoneNumber))
    ensures PhoneNumber in v.errors ==>
              (v.errors[PhoneNumber] == PhoneNotTenDigits <==> !IsBlank(f.phoneNumber))
  {
    CompleteIffNoProblem(f);
    var errors := Problems(f);
    Validation(|errors| == 0, errors)
  }

  /** The problems `validateForm` records, one per failing field. */
  function Problems(f: FormData): Errors {
    map k: Field | FieldProblem(f, k).Some? :: FieldProblem(f, k).value
  }

  lemma CompleteIffNoProblem(f: FormData)
    ensures Complete(f) <==> Problems(f) == map[]
    ensures Description in Problems(f) <==> IsBlank(f.description)
    ensures DateLost in Problems(f) <==> f.dateLost == ""
    ensures PhoneNumber in Problems(f) <==> !IsTenDigits(f.phoneNumber)
    ensures Location in Problems(f) <==> f.location == ""
    ensures Description in Problems(f) ==> Problems(f)[Description] == DescriptionRequired
    ensures DateLost in Problems(f) ==> Problems(f)[DateLost] == DateLostRequired
    ensures Location in Problems(f) ==> Problems(f)[Location] == LocationRequired
    ensures PhoneNumber in Problems(f) ==>
              (Problems(f)[PhoneNumber] == PhoneRequired <==> IsBlank(f.phoneNumber))
    ensures PhoneNumber in Problems(f) ==>
              (Problems(f)[PhoneNumber] == PhoneNotTenDigits <==> !IsBlank(f.phoneNumber))
  {
    FieldProblemSpec(f);
    var errors := Problems(f);
    if Complete(f) {
      forall k: Field ensures k !in errors {
        match k {
          case Description =>
          case DateLost =>
          case PhoneNumber =>
          case Location =>
        }
      }
    } else if IsBlank(f.description) {
      assert Description in errors;
    } else if f.dateLost == "" {
      assert DateLost in errors;
    } else if !IsTenDigits(f.phoneNumber) {
      assert PhoneNumber in errors;
    } else {
      assert Location in errors;
    }
  }

  /** Each field's check, restated without `trim`. */
  lemma FieldProblemSpec(f: FormData)
    ensures FieldProblem(f, Description) ==
              (if IsBlank(f.description) then Some(DescriptionRequired) else None)
    ensures FieldProblem(f, DateLost) ==
              (if f.dateLost == "" then Some(DateLostRequired) else None)
    ensures FieldProblem(f, PhoneNumber) ==
              (if IsBlank(f.phoneNumber) then Some(PhoneRequired)
               else if !IsTenDigits(f.phoneNumber) then Some(PhoneNotTenDigits)
               else None)
    ensures FieldProblem(f, Location) ==
              (if f.location == "" then Some(LocationRequired) else None)
    ensures IsTenDigits(f.phoneNumber) ==> !IsBlank(f.phoneNumber)
  {
    TrimEmptyIffBlank(f.description);
    TrimEmptyIffBlank(f.phoneNumber);
    TenDigitsNotBlank(f.phoneNumber);
  }

  /** The check `validateForm` makes of one field, with the problem it records. */
  function FieldProblem(f: FormData, k: Field): Option<Problem> {
    match k
    case Description =>
      if Trim(f.description) == "" then Some(DescriptionRequired) else None
    case DateLost =>
      if f.dateLost == "" then Some(DateLostRequired) else None
    case PhoneNumber =>
      if Trim(f.phoneNumber) == "" then Some(PhoneRequired)
      else if !IsTenDigits(f.phoneNumber) then Some(PhoneNotTenDigits)
      else None
    case Location =>
      if f.location == "" then Some(LocationRequired) else None
  }

  // ---------------------------------------------------------------- field updaters

  /** The three text inputs wired to `handleChange`, by their `name` attribute. */
  datatype TextInput = DescriptionInput | DateLostInput | PhoneNumberInput

  /** `handleChange`: `{ ...formData, [name]: value }` for one of the text inputs. */
  function HandleChange(f: FormData, input: TextInput, value: string): (r: FormData)
    ensures r.tags == f.tags && r.location == f.location && r.files == f.files
    ensures r.description == (if input == DescriptionInput then value else f.description)
    ensures r.dateLost == (if input == DateLostInput then value else f.dateLost)
    ensures r.phoneNumber == (if input == PhoneNumberInput then value else f.phoneNumber)
  {
    match input
    case DescriptionInput => f.(description := value)
    case DateLostInput => f.(dateLost := value)
    case PhoneNumberInput => f.(phoneNumber := value)
  }

  /** The filter predicate `(file) => file.size <= 500 * 1024`, limit included. */
  function FitsLimit(): File -> bool {
    (file: File) => file.size <= MaxFileBytes
  }

  datatype Notice = TooManyFiles | SomeFilesTooLarge

  datatype FileChange = FileChange(form: FormData, notice: Option<Notice>)

  /**
   * `handleFileChange`: more than five files are refused outright (form
   * unchanged); otherwise `files` becomes the selected files of at most 500 KiB,
   * with a notice when any was dropped.
   */
  function HandleFileChange(f: FormData, selected: seq<File>): (r: FileChange)
    ensures |selected| > MaxFiles ==> r.form == f && r.notice == Some(TooManyFiles)
    ensures |selected| <= MaxFiles ==> r.form == f.(files := r.form.files)
    ensures |selected| <= MaxFiles ==>
              forall x :: multiset(r.form.files)[x] ==
                if x.size <= MaxFileBytes then multiset(selected)[x] else 0
    ensures |selected| <= MaxFiles ==>
              (r.notice == Some(SomeFilesTooLarge) <==>
               exists i :: 0 <= i < |selected| && selected[i].size > MaxFileBytes)
    ensures |selected| <= MaxFiles ==> r.notice != Some(TooManyFiles)
  {
    var validFiles := Filter(selected, FitsLimit());
    if |selected| > MaxFiles then
      FileChange(f, Some(TooManyFiles))
    else
      FilterDropsNothingIff(selected, FitsLimit());
      FilterCounts(selected, FitsLimit());
      FileChange(
        f.(files := validFiles),
        if |validFiles| != |selected| then Some(SomeFilesTooLarge) else None)
  }

  /**
   * Admission looks at each file on its own: admitting a selection split in two
   * gives the admitted files of the first part followed by those of the second,
   * so the admitted files keep the order they were selected in.
   */
  lemma AdmissionKeepsOrder(f: FormData, a: seq<File>, b: seq<File>)
    requires |a + b| <= MaxFiles
    ensures HandleFileChange(f, a + b).form.files ==
            HandleFileChange(f, a).form.files + HandleFileChange(f, b).form.files
  {
    FilterAppend(a, b, FitsLimit());
  }

  /** `handleTagsChange`: the form's copy of the selected tags, toggled. */
  function HandleTagsChange(f: FormData, tag: string): (r: FormData)
    ensures tag in r.tags <==> tag !in f.tags
    ensures RemoveAll(r.tags, tag) == RemoveAll(f.tags, tag)
    ensures r.(tags := f.tags) == f
  {
    f.(tags := Toggle(f.tags, tag))
  }

  /** `selectLocation`: replaces the location and touches nothing else. */
  function SelectLocation(f: FormData, location: string): (r: FormData)
    ensures r.location == location
    ensures r.(location := f.location) == f
  {
    f.(location := location)
  }

  // ---------------------------------------------------------------- submission

  /** The document written to the "Incidents" collection before any photo is uploaded. */
  datatype IncidentDoc = IncidentDoc(
    uid: string,
    tags: seq<string>,
    description: string,
    location: string,
    dateLost: string,
    phoneNumber: string,
    status: string,
    imagePaths: seq<string>)

  datatype SubmitNotice = MustLogIn | SubmittedOk | SubmitFailed

  datatype Submission = Submission(
    form: FormData,
    errors: Errors,
    sent: Option<IncidentDoc>,
    notice: Option<SubmitNotice>)

  /**
   * `handleSubmit`: validation always runs and replaces the shown errors. A
   * record is sent only for a complete form and a signed-in user; it copies the
   * form's fields, is "Unclaimed" and has no image paths yet. The form is reset
   * only when every backend call succeeded.
   */
  function HandleSubmit(f: FormData, user: Option<string>, backendSucceeds: bool): (r: Submission)
    ensures (r.errors == map[]) <==> Complete(f)
    ensures r.sent.Some? <==> Complete(f) && user.Some?
    ensures r.sent.Some? ==>
              var d := r.sent.value;
              && d.uid == user.value
              && d.tags == f.tags
              && d.description == f.description
              && d.location == f.location
              && d.dateLost == f.dateLost
              && d.phoneNumber == f.phoneNumber
              && d.status == "Unclaimed"
              && d.imagePaths == []
    ensures r.form == (if r.sent.Some? && backendSucceeds then EmptyForm else f)
    ensures r.notice == Some(MustLogIn) <==> Complete(f) && user.None?
    ensures r.notice.None? <==> !Complete(f)
  {
    var v := ValidateForm(f);
    if !v.ok then
      Submission(f, v.errors, None, None)
    else if user.None? then
      Submission(f, v.errors, None, Some(MustLogIn))
    else
      var doc := IncidentDoc(
        user.value, f.tags, f.description, f.location, f.dateLost, f.phoneNumber,
        "Unclaimed", []);
      if backendSucceeds then
        Submission(EmptyForm, v.errors, Some(doc), Some(SubmittedOk))
      else
        Submission(f, v.errors, Some(doc), Some(SubmitFailed))
  }
}
