/**
  The form's data (`AppState.formData`, `AppState.language`) and the
  validation pass that the submit handler runs over it.
 */
module Form {
  import opened Wrappers
  import opened Text
  import opened Validation

  /** The two interface languages; Arabic is laid out right to left. */
  datatype Language = En | Ar

  datatype Direction = Ltr | Rtl

  /** The language toggle: `en` becomes `ar` and anything else becomes `en`. */
  function Flip(l: Language): (r: Language)
    ensures r != l
  {
    if l == En then Ar else En
  }

  /** The `dir` attribute the page is rendered with: right to left exactly in Arabic. */
  function DirectionOf(l: Language): (d: Direction)
    ensures d == Rtl <==> l == Ar
  {
    match l
    case En => Ltr
    case Ar => Rtl
  }

  /** Toggling twice restores the language, and every toggle mirrors the layout. */
  lemma FlipMirrors(l: Language)
    ensures Flip(Flip(l)) == l
    ensures DirectionOf(Flip(l)) != DirectionOf(l)
  {
  }

  /** `AppState.formData`: five strings and the optional attached file. */
  datatype FormData = FormData(name: string, email: string, site: string, department: string,
                               message: string, file: Option<Attachment>)

  /** The form as it starts and as a successful submission leaves it. */
  const EmptyForm: FormData := FormData("", "", "", "", "", None)

  /** The names of the text inputs, selects and text area of the form. */
  const TextFields: set<string> := {"name", "email", "site", "department", "message"}

  /** The names the submit handler marks as touched and validates, in order. */
  const SubmitFields: seq<string> := ["email", "message", "site", "management", "file"]

  /** The same names as a set: what the submit pass adds to `touched`. */
  const SubmitFieldSet: set<string> := set f | f in SubmitFields

  /** `formData[field]` for a string entry; a name the form does not hold reads as `undefined`, that is "". */
  function FieldText(form: FormData, field: string): (r: string)
    ensures field !in TextFields ==> r == ""
  {
    if field == "name" then form.name
    else if field == "email" then form.email
    else if field == "site" then form.site
    else if field == "department" then form.department
    else if field == "message" then form.message
    else ""
  }

  /** `formData[field] = value` for one of the text inputs. */
  function WithText(form: FormData, field: string, value: string): (r: FormData)
    requires field in TextFields
    ensures r.file == form.file
  {
    if field == "name" then form.(name := value)
    else if field == "email" then form.(email := value)
    else if field == "site" then form.(site := value)
    else if field == "department" then form.(department := value)
    else form.(message := value)
  }

  /** Writing one text input changes that entry alone. */
  lemma WithTextFrame(form: FormData, field: string, value: string, other: string)
    requires field in TextFields
    ensures FieldText(WithText(form, field, value), field) == value
    ensures other != field ==> FieldText(WithText(form, field, value), other) == FieldText(form, other)
  {
  }

  /** The value the submit handler validates under `field`: the file slot for "file", the string entry otherwise. */
  function SubmitValue(form: FormData, field: string): (v: Value)
    ensures v.FileValue? && v.file.Some? ==> field == "file"
  {
    if field == "file" then FileValue(form.file) else StrValue(FieldText(form, field))
  }

  /** The error the submit pass records for `field`, if any. */
  function SubmitCheck(form: FormData, field: string): Option<FieldError> {
    ValidateField(field, SubmitValue(form, field))
  }

  /** The errors the submit pass leaves behind: one entry per failing field of `SubmitFields`. */
  function FormErrors(form: FormData): (errs: map<string, FieldError>)
    ensures forall f :: f in errs ==> f in CheckedFields && errs[f] == TagOf(f)
    ensures "management" !in errs
  {
    map f | f in SubmitFields && SubmitCheck(form, f).Some? :: SubmitCheck(form, f).value
  }

  /**
    What a report needs in order to be sent, in the validator's own terms:
    an email that is empty or matches the pattern, a message that is not
    blank, a chosen site, and no attachment above 10 MiB.
   */
  ghost predicate Acceptable(form: FormData) {
    && (form.email == "" || MatchesEmailPattern(form.email))
    && !AllSpace(form.message)
    && form.site != ""
    && (form.file.None? || form.file.value.size <= 10485760)
  }

  /** Every field of the submit pass passes its check. */
  predicate AllChecksPass(form: FormData) {
    && SubmitCheck(form, "email").None?
    && SubmitCheck(form, "message").None?
    && SubmitCheck(form, "site").None?
    && SubmitCheck(form, "file").None?
  }

  lemma FormErrorsEmptyIffChecksPass(form: FormData)
    ensures FormErrors(form) == map[] <==> AllChecksPass(form)
  {
    var errs := FormErrors(form);
    if !AllChecksPass(form) {
      var f :| f in CheckedFields && SubmitCheck(form, f).Some?;
      assert f in SubmitFields;
      assert f in errs;
    } else {
      assert SubmitCheck(form, "management").None?;
      assert errs.Keys == {};
    }
  }

  /** The submit pass finds no error exactly when the report is acceptable. */
  lemma FormErrorsEmptyIffAcceptable(form: FormData)
    ensures FormErrors(form) == map[] <==> Acceptable(form)
  {
    FormErrorsEmptyIffChecksPass(form);
    ChecksPassIffAcceptable(form);
  }

  lemma ChecksPassIffAcceptable(form: FormData)
    ensures AllChecksPass(form) <==> Acceptable(form)
  {
    EmailCheckOfForm(form);
    MessageCheckOfForm(form);
    SiteCheckOfForm(form);
    FileCheckOfForm(form);
  }

  lemma EmailCheckOfForm(form: FormData)
    ensures SubmitCheck(form, "email").None? <==> (form.email == "" || MatchesEmailPattern(form.email))
  {
    assert SubmitValue(form, "email") == StrValue(form.email);
    EmailRule(form.email);
  }

  lemma MessageCheckOfForm(form: FormData)
    ensures SubmitCheck(form, "message").None? <==> !AllSpace(form.message)
  {
    assert SubmitValue(form, "message") == StrValue(form.message);
    MessageRule(form.message);
  }

  lemma SiteCheckOfForm(form: FormData)
    ensures SubmitCheck(form, "site").None? <==> form.site != ""
  {
    assert SubmitValue(form, "site") == StrValue(form.site);
    SiteRule(form.site);
  }

  lemma FileCheckOfForm(form: FormData)
    ensures SubmitCheck(form, "file").None? <==> (form.file.None? || form.file.value.size <= 10485760)
  {
    FileRule(form.file);
  }

  /** The byte limit the submit handler applies a second time: 10 * 1024 * 1024. */
  const MAX_FILE_SIZE: nat := 10 * 1024 * 1024

  /**
    The submit handler's second size check can never fire: once the
    validation pass left no error, an attached file is within
    `MAX_FILE_SIZE`, because 10 * 1024 * 1024 and 10 * 1048576 are the same
    bound.
   */
  lemma SecondSizeCheckUnreachable(form: FormData)
    requires FormErrors(form) == map[]
    ensures form.file.None? || form.file.value.size <= MAX_FILE_SIZE
  {
  }
}
