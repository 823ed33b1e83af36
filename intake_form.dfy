/**
 * The public intake form: the field rules of its schema, the image picker's size limit, and
 * the submit handler that uploads the optional image and inserts one report record.
 *
 * The schema trims its four text fields before checking them, and the values it hands to the
 * submit handler are the trimmed ones. The two selections (website and status) are not
 * trimmed and start out unset. The storage upload and the insert are replaced by their
 * outcomes; the upload's file name prefix (a timestamp and a random suffix) is a parameter.
 */
module IntakeForm {
  import opened Wrappers
  import opened JsText

  /** A day picked in the calendar. Its `yyyy-MM-dd` formatting is not part of this model. */
  datatype Date = Date(year: int, month: int, day: int)

  /** The form's inputs as the user left them. */
  datatype RawForm = RawForm(
    username: string,
    whatsapp: string,
    issueDate: Option<Date>,
    issueTitle: string,
    websiteId: Option<string>,
    issueDescription: string,
    statusId: Option<string>)

  /** The form's default values: empty text fields, no date and no selection. */
  const Defaults := RawForm("", "", None, "", None, "", None)

  datatype Field = Username | Whatsapp | IssueDate | IssueTitle | WebsiteId | IssueDescription | StatusId

  /** What the schema hands to the submit handler. */
  datatype FormValues = FormValues(
    username: string,
    whatsapp: string,
    issueDate: Date,
    issueTitle: string,
    websiteId: string,
    issueDescription: string,
    statusId: string)

  datatype Validation = Valid(values: FormValues) | Invalid(errors: set<Field>)

  const MaxUsername := 100
  const MaxTitle := 200
  const MaxDescription := 2000
  const MinPhone := 8
  const MaxPhone := 20

  /** A trimmed length between 1 and `max`, counted in UTF-16 code units as zod counts it. */
  predicate TextOk(s: string, max: nat) {
    1 <= JsLength(Trim(s)) <= max
  }

  /** The character class `[0-9+\-\s]`. */
  predicate PhoneChar(c: char) {
    ('0' <= c <= '9') || c == '+' || c == '-' || IsWhitespace(c)
  }

  /** The trimmed number is non-empty and matches `^[0-9+\-\s]{8,20}$` as a whole. Every
      character of the class is one UTF-16 code unit, so the repetition counts characters. */
  predicate WhatsappOk(s: string) {
    var t := Trim(s);
    1 <= JsLength(t) && MinPhone <= |t| <= MaxPhone && forall i :: 0 <= i < |t| ==> PhoneChar(t[i])
  }

  /** A selection is made and is not the empty string. */
  predicate SelectionOk(o: Option<string>) {
    o.Some? && |o.value| >= 1
  }

  predicate FieldOk(raw: RawForm, f: Field) {
    match f
    case Username => TextOk(raw.username, MaxUsername)
    case Whatsapp => WhatsappOk(raw.whatsapp)
    case IssueDate => raw.issueDate.Some?
    case IssueTitle => TextOk(raw.issueTitle, MaxTitle)
    case WebsiteId => SelectionOk(raw.websiteId)
    case IssueDescription => TextOk(raw.issueDescription, MaxDescription)
    case StatusId => SelectionOk(raw.statusId)
  }

  const AllFields: set<Field> := {Username, Whatsapp, IssueDate, IssueTitle, WebsiteId, IssueDescription, StatusId}

  lemma AllFieldsComplete(f: Field)
    ensures f in AllFields
  {
  }

  /** The fields the form reports as invalid. */
  function ErrorsOf(raw: RawForm): set<Field> {
    set f | f in AllFields && !FieldOk(raw, f)
  }

  /**
   * The schema: either every field is acceptable and the handler receives the trimmed text
   * fields and the untrimmed selections, or the form reports exactly the failing fields.
   */
  function Validate(raw: RawForm): (v: Validation)
    ensures v.Valid? <==> forall f :: FieldOk(raw, f)
    ensures v.Invalid? ==> v.errors != {} && forall f :: f in v.errors <==> !FieldOk(raw, f)
    ensures v.Valid? ==>
      && v.values.username == Trim(raw.username) && v.values.whatsapp == Trim(raw.whatsapp)
      && v.values.issueTitle == Trim(raw.issueTitle) && v.values.issueDescription == Trim(raw.issueDescription)
      && Some(v.values.issueDate) == raw.issueDate
      && Some(v.values.websiteId) == raw.websiteId && Some(v.values.statusId) == raw.statusId
  {
    var errors := ErrorsOf(raw);
    assert forall f :: f in errors <==> !FieldOk(raw, f) by {
      forall f ensures f in errors <==> !FieldOk(raw, f) { AllFieldsComplete(f); }
    }
    if errors == {} then
      assert IssueDate !in errors && WebsiteId !in errors && StatusId !in errors;
      Valid(FormValues(Trim(raw.username), Trim(raw.whatsapp), raw.issueDate.value, Trim(raw.issueTitle),
                       raw.websiteId.value, Trim(raw.issueDescription), raw.statusId.value))
    else
      assert exists f :: !FieldOk(raw, f);
      Invalid(errors)
  }

  /** The values the schema produces, put back into the form. */
  function AsRaw(v: FormValues): RawForm {
    RawForm(v.username, v.whatsapp, Some(v.issueDate), v.issueTitle, Some(v.websiteId), v.issueDescription, Some(v.statusId))
  }

  /** Validating the schema's own output accepts it unchanged: its text is already trimmed. */
  lemma ValidateIdempotent(raw: RawForm)
    requires Validate(raw).Valid?
    ensures Validate(AsRaw(Validate(raw).values)) == Validate(raw)
  {
    TrimIdempotent(raw.username);
    TrimIdempotent(raw.whatsapp);
    TrimIdempotent(raw.issueTitle);
    TrimIdempotent(raw.issueDescription);
    var again := AsRaw(Validate(raw).values);
    forall f ensures FieldOk(again, f) {
      assert FieldOk(raw, f);
    }
  }

  /** The default form is rejected, on every field. */
  lemma DefaultsRejected()
    ensures Validate(Defaults) == Invalid({Username, Whatsapp, IssueDate, IssueTitle, WebsiteId, IssueDescription, StatusId})
  {
    assert Trim("") == "";
    assert ErrorsOf(Defaults) == {Username, Whatsapp, IssueDate, IssueTitle, WebsiteId, IssueDescription, StatusId};
  }

  /** White space around a number does not count toward its length; white space inside does. */
  lemma WhatsappIgnoresOuterSpace(s: string, pad1: string, pad2: string)
    requires AllWhitespace(pad1) && AllWhitespace(pad2)
    requires s == [] || (!IsWhitespace(s[0]) && !IsWhitespace(s[|s| - 1]))
    ensures WhatsappOk(pad1 + s + pad2) <==> WhatsappOk(s)
  {
    TrimPadded(s, pad1, pad2);
    TrimFixed(s);
  }

  // ---------------------------------------------------------------------------
  // Image and submit
  // ---------------------------------------------------------------------------

  /** 5 MB, the largest image the picker accepts. */
  const MaxImageBytes := 5 * 1024 * 1024

  datatype File = File(name: string, size: nat)

  /** `name.split(".").pop()`: the upload's file extension. */
  function Extension(name: string): string {
    LastPart(name, '.')
  }

  /** The extension is the text after the last dot: all of the name when it has no dot, and
      empty when the name ends with a dot. */
  lemma ExtensionAfterLastDot(name: string)
    ensures var ext := Extension(name);
      && '.' !in ext
      && ('.' !in name ==> ext == name)
      && ('.' in name ==> |ext| < |name| && name == name[..|name| - |ext| - 1] + "." + ext)
      && (name != [] && name[|name| - 1] == '.' ==> ext == [])
  {
    SplitLast(name, '.');
    var ext := Extension(name);
    if '.' in name {
      assert name == name[..|name| - |ext| - 1] + [name[|name| - |ext| - 1]] + name[|name| - |ext|..];
    }
    if name != [] && name[|name| - 1] == '.' {
      assert name[|name| - 1] in name;
    }
  }

  /** The record inserted into the reports table. */
  datatype ReportRecord = ReportRecord(
    username: string,
    whatsapp: string,
    issueDate: Date,
    issueTitle: string,
    websiteId: string,
    issueDescription: string,
    statusId: string,
    imageUrl: Option<string>)

  function RecordOf(v: FormValues, imageUrl: Option<string>): ReportRecord {
    ReportRecord(v.username, v.whatsapp, v.issueDate, v.issueTitle, v.websiteId, v.issueDescription, v.statusId, imageUrl)
  }

  /** From the raw form to the inserted record: the text fields arrive trimmed, the selections
      exactly as chosen, and the image URL is the one given or null. */
  lemma RecordFromForm(raw: RawForm, imageUrl: Option<string>)
    requires Validate(raw).Valid?
    ensures var r := RecordOf(Validate(raw).values, imageUrl);
      && r.username == Trim(raw.username) && r.whatsapp == Trim(raw.whatsapp)
      && r.issueTitle == Trim(raw.issueTitle) && r.issueDescription == Trim(raw.issueDescription)
      && Some(r.issueDate) == raw.issueDate
      && Some(r.websiteId) == raw.websiteId && Some(r.statusId) == raw.statusId
      && r.imageUrl == imageUrl
      && 1 <= JsLength(r.username) <= MaxUsername && 1 <= JsLength(r.issueTitle) <= MaxTitle
      && 1 <= JsLength(r.issueDescription) <= MaxDescription && MinPhone <= |r.whatsapp| <= MaxPhone
  {
    assert FieldOk(raw, Username) && FieldOk(raw, Whatsapp) && FieldOk(raw, IssueTitle) && FieldOk(raw, IssueDescription);
  }

  /** The page's form and image state. */
  class IntakePage {
    var form: RawForm
    var imageFile: Option<File>
    var imagePreview: Option<string>
    var submitting: bool

    constructor ()
      ensures form == Defaults && imageFile.None? && imagePreview.None? && !submitting
    {
      form, imageFile, imagePreview, submitting := Defaults, None, None, false;
    }

    /**
     * `handleImageChange` with the first selected file, if any, and the object URL the browser
     * makes for it. A file over 5 MB is refused with an error notice and the previous image
     * and preview stay; no selection changes nothing.
     */
    method ImageChange(selected: Option<File>, objectUrl: string) returns (tooLarge: bool)
      modifies this
      ensures tooLarge <==> selected.Some? && selected.value.size > MaxImageBytes
      ensures selected.Some? && !tooLarge ==> imageFile == selected && imagePreview == Some(objectUrl)
      ensures selected.None? || tooLarge ==> imageFile == old(imageFile) && imagePreview == old(imagePreview)
      ensures form == old(form) && submitting == old(submitting)
    {
      tooLarge := false;
      if selected.Some? {
        var file := selected.value;
        if file.size > MaxImageBytes {
          tooLarge := true;
          return;
        }
        imageFile := Some(file);
        imagePreview := Some(objectUrl);
      }
    }

    /**
     * `onSubmit`, which the form calls with the schema's output for the current form. With
     * an image, it is uploaded under `<stem>.<extension>`; a failed upload ends the submission before the insert. The
     * record is then inserted with the image's public URL, or null without an image. Only a
     * successful insert resets the form and the image; `submitting` is false afterwards
     * whatever happened.
     */
    method Submit(values: FormValues, stem: string, uploadError: Option<string>, publicUrl: string,
                  insertError: Option<string>)
      returns (uploadPath: Option<string>, inserted: Option<ReportRecord>, succeeded: bool)
      requires Validate(form).Valid? && values == Validate(form).values
      modifies this
      ensures old(imageFile).Some? ==> uploadPath == Some(stem + "." + Extension(old(imageFile).value.name))
      ensures old(imageFile).None? ==> uploadPath.None?
      ensures inserted.Some? <==> uploadPath.None? || uploadError.None?
      ensures inserted.Some? ==>
        inserted.value == RecordOf(values, if old(imageFile).Some? then Some(publicUrl) else None)
      ensures succeeded <==> inserted.Some? && insertError.None?
      ensures succeeded ==> form == Defaults && imageFile.None? && imagePreview.None?
      ensures !succeeded ==> form == old(form) && imageFile == old(imageFile) && imagePreview == old(imagePreview)
      ensures !submitting
    {
      submitting := true;
      uploadPath, inserted, succeeded := None, None, false;
      var imageUrl: Option<string> := None;
      if imageFile.Some? {
        var ext := Extension(imageFile.value.name);
        uploadPath := Some(stem + "." + ext);
        if uploadError.Some? {
          submitting := false;
          return;
        }
        imageUrl := Some(publicUrl);
      }
      var record := RecordOf(values, imageUrl);
      inserted := Some(record);
      if insertError.None? {
        succeeded := true;
        form := Defaults;
        imageFile := None;
        imagePreview := None;
      }
      submitting := false;
    }
  }
}
