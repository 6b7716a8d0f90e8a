/**
  The web part's state (`AppState`) and the event handlers that update it
  in place: the navigation clicks, the file picker, the per-keystroke input
  handler, the blur handler and the submit handler.
 */
module WebPart {
  import opened Wrappers
  import opened Text
  import opened Validation
  import opened Form
  import opened Submission

  /**
    `if (error) errors[field] = error; else delete errors[field];`: the
    entry for `field` is present exactly when the check failed, and no
    other entry changes.
   */
  function Record(errors: map<string, FieldError>, field: string, e: Option<FieldError>): (r: map<string, FieldError>)
    ensures field in r <==> e.Some?
    ensures e.Some? ==> r[field] == e.value
    ensures forall k :: k != field ==> (k in r <==> k in errors) && (k in r ==> r[k] == errors[k])
  {
    if e.Some? then errors[field := e.value] else errors - {field}
  }

  /** Every recorded error belongs to a checked field and is that field's own error. */
  predicate WellTagged(errors: map<string, FieldError>) {
    forall k :: k in errors ==> k in CheckedFields && errors[k] == TagOf(k)
  }

  /** Recording a validator result keeps the errors well tagged. */
  lemma RecordWellTagged(errors: map<string, FieldError>, field: string, e: Option<FieldError>)
    requires WellTagged(errors)
    requires e.Some? ==> field in CheckedFields && e.value == TagOf(field)
    ensures WellTagged(Record(errors, field, e))
  {
  }

  /** The names in `done`, as a set. */
  function Names(done: seq<string>): (names: set<string>)
    ensures forall f :: f in names <==> f in done
    decreases |done|
  {
    if done == [] then {} else Names(done[..|done| - 1]) + {done[|done| - 1]}
  }

  /**
    `errors` after the submit pass has recorded, in order, the checks of
    the names in `done`, starting from `before`.
   */
  function AfterChecks(before: map<string, FieldError>, form: FormData, done: seq<string>): map<string, FieldError>
    decreases |done|
  {
    if done == [] then before
    else
      var last := done[|done| - 1];
      Record(AfterChecks(before, form, done[..|done| - 1]), last, SubmitCheck(form, last))
  }

  /**
    After the pass over `done`, a name in `done` is present exactly when
    its check fails, with that check's error, and any other name keeps its
    entry from `before`.
   */
  lemma {:induction false} AfterChecksEntry(before: map<string, FieldError>, form: FormData,
                                            done: seq<string>, k: string)
    ensures var errs := AfterChecks(before, form, done);
      && (k in done ==> (k in errs <==> SubmitCheck(form, k).Some?))
      && (k in done && k in errs ==> errs[k] == SubmitCheck(form, k).value)
      && (k !in done ==> (k in errs <==> k in before))
      && (k !in done && k in errs ==> errs[k] == before[k])
    decreases |done|
  {
    if done != [] {
      var init := done[..|done| - 1];
      assert done == init + [done[|done| - 1]];
      AfterChecksEntry(before, form, init, k);
    }
  }

  /** The whole pass, started from errors of checked fields only, leaves exactly the form's errors. */
  lemma AfterChecksAll(before: map<string, FieldError>, form: FormData)
    requires forall k :: k in before ==> k in CheckedFields
    ensures AfterChecks(before, form, SubmitFields) == FormErrors(form)
  {
    var errs := AfterChecks(before, form, SubmitFields);
    var want := FormErrors(form);
    forall k ensures (k in errs <==> k in want) && (k in errs ==> errs[k] == want[k]) {
      AfterChecksEntry(before, form, SubmitFields, k);
    }
  }

  class WebPartState {
    var language: Language
    var mobileMenuOpen: bool
    var formData: FormData
    var submitting: bool
    var errors: map<string, FieldError>
    var touched: set<string>

    /** The state's invariant: the recorded errors are well tagged. */
    ghost predicate Valid()
      reads this
    {
      WellTagged(errors)
    }

    /** The initial state: English, menu closed, empty form, nothing touched, no error. */
    constructor ()
      ensures Valid()
      ensures language == En && !mobileMenuOpen && formData == EmptyForm
      ensures !submitting && errors == map[] && touched == {}
    {
      language := En;
      mobileMenuOpen := false;
      formData := EmptyForm;
      submitting := false;
      errors := map[];
      touched := {};
    }

    /** The `toggleLanguage` click: the language flips and nothing else changes. */
    method ToggleLanguage()
      requires Valid()
      modifies this
      ensures Valid()
      ensures language == Flip(old(language))
      ensures mobileMenuOpen == old(mobileMenuOpen) && formData == old(formData)
      ensures submitting == old(submitting) && errors == old(errors) && touched == old(touched)
    {
      language := Flip(language);
    }

    /** The `toggleMenu` click: the mobile menu opens or closes and nothing else changes. */
    method ToggleMenu()
      requires Valid()
      modifies this
      ensures Valid()
      ensures mobileMenuOpen == !old(mobileMenuOpen)
      ensures language == old(language) && formData == old(formData)
      ensures submitting == old(submitting) && errors == old(errors) && touched == old(touched)
    {
      mobileMenuOpen := !mobileMenuOpen;
    }

    /**
      The `scrollTo` click: with a non-empty target the menu closes (the
      scrolling itself is the browser's); without one nothing happens.
     */
    method ScrollTo(target: Option<string>)
      requires Valid()
      modifies this
      ensures Valid()
      ensures mobileMenuOpen == (if target.Some? && target.value != "" then false else old(mobileMenuOpen))
      ensures language == old(language) && formData == old(formData)
      ensures submitting == old(submitting) && errors == old(errors) && touched == old(touched)
    {
      if target.Some? && target.value != "" {
        mobileMenuOpen := false;
      }
    }

    /** The remove-file button: the file slot empties and only the file's error is dropped. */
    method RemoveFile()
      requires Valid()
      modifies this
      ensures Valid()
      ensures formData == old(formData).(file := None)
      ensures errors == old(errors) - {"file"}
      ensures language == old(language) && mobileMenuOpen == old(mobileMenuOpen)
      ensures submitting == old(submitting) && touched == old(touched)
    {
      formData := formData.(file := None);
      errors := errors - {"file"};
    }

    /**
      An input event on a text input, select or text area: the entry takes
      the new value; a field already touched is re-validated on the spot,
      an untouched one leaves the errors alone.
     */
    method InputText(field: string, value: string)
      requires Valid()
      requires field in TextFields
      modifies this
      ensures Valid()
      ensures formData == WithText(old(formData), field, value)
      ensures errors == if field in old(touched)
                        then Record(old(errors), field, ValidateField(field, StrValue(value)))
                        else old(errors)
      ensures language == old(language) && mobileMenuOpen == old(mobileMenuOpen)
      ensures submitting == old(submitting) && touched == old(touched)
    {
      formData := WithText(formData, field, value);
      if field in touched {
        var error := ValidateField(field, StrValue(value));
        RecordWellTagged(errors, field, error);
        errors := Record(errors, field, error);
      }
    }

    /** An input event on the file picker: the chosen file (or none) fills the slot and "file" is touched. */
    method InputFile(selected: Option<Attachment>)
      requires Valid()
      modifies this
      ensures Valid()
      ensures formData == old(formData).(file := selected)
      ensures touched == old(touched) + {"file"}
      ensures language == old(language) && mobileMenuOpen == old(mobileMenuOpen)
      ensures submitting == old(submitting) && errors == old(errors)
    {
      formData := formData.(file := selected);
      touched := touched + {"file"};
    }

    /** Leaving a text input, select or text area: it becomes touched and its stored value is validated. */
    method Blur(field: string)
      requires Valid()
      requires field in TextFields
      modifies this
      ensures Valid()
      ensures touched == old(touched) + {field}
      ensures errors == Record(old(errors), field, ValidateField(field, StrValue(FieldText(old(formData), field))))
      ensures language == old(language) && mobileMenuOpen == old(mobileMenuOpen)
      ensures formData == old(formData) && submitting == old(submitting)
    {
      touched := touched + {field};
      var error := ValidateField(field, StrValue(FieldText(formData, field)));
      errors := Record(errors, field, error);
    }

    /**
      Leaving the file picker: "file" becomes touched and the picker's
      current file, or else the stored one, is validated; the stored file
      itself is not replaced.
     */
    method BlurFile(picked: Option<Attachment>)
      requires Valid()
      modifies this
      ensures Valid()
      ensures touched == old(touched) + {"file"}
      ensures errors == Record(old(errors), "file",
                               ValidateField("file", FileValue(if picked.Some? then picked else old(formData).file)))
      ensures language == old(language) && mobileMenuOpen == old(mobileMenuOpen)
      ensures formData == old(formData) && submitting == old(submitting)
    {
      touched := touched + {"file"};
      var selected := if picked.Some? then picked else formData.file;
      var error := ValidateField("file", FileValue(selected));
      errors := Record(errors, "file", error);
    }

    /**
      The body of the submit pass for one name: the name is touched and its
      check's error recorded or deleted.
     */
    method CheckForSubmit(field: string)
      modifies this
      ensures touched == old(touched) + {field}
      ensures errors == Record(old(errors), field, SubmitCheck(old(formData), field))
      ensures formData == old(formData) && language == old(language)
      ensures mobileMenuOpen == old(mobileMenuOpen) && submitting == old(submitting)
    {
      touched := touched + {field};
      var error := SubmitCheck(formData, field);
      errors := Record(errors, field, error);
    }

    /**
      The validation pass of the submit handler: each name of
      `SubmitFields` in turn is touched and checked, its error recorded or
      deleted. Afterwards the errors are exactly those of the form.
     */
    method ValidateForSubmit()
      requires Valid()
      modifies this
      ensures Valid()
      ensures touched == old(touched) + SubmitFieldSet
      ensures errors == FormErrors(formData)
      ensures formData == old(formData) && language == old(language)
      ensures mobileMenuOpen == old(mobileMenuOpen) && submitting == old(submitting)
    {
      var form, before, fields := formData, errors, SubmitFields;
      var i := 0;
      while i < |fields|
        invariant 0 <= i <= |fields|
        invariant touched == old(touched) + Names(fields[..i])
        invariant errors == AfterChecks(before, form, fields[..i])
        invariant formData == form && language == old(language)
        invariant mobileMenuOpen == old(mobileMenuOpen) && submitting == old(submitting)
      {
        CheckForSubmit(fields[i]);
        assert fields[..i + 1][..i] == fields[..i];
        i := i + 1;
      }
      assert fields[..i] == SubmitFields;
      assert Names(SubmitFields) == SubmitFieldSet;
      AfterChecksAll(before, form);
    }

    /**
      The sending stage of the submit handler, entered once the validation
      pass left no error. The handler goes busy, builds the payload (`read`
      is the data URL the file reader produced, None when it failed) and
      posts it to the endpoint (`posted` tells whether the POST went
      through). A sent report resets the form, the touched set and the
      errors; a failed one keeps them. Either way the handler ends idle.
      The result is the request that was posted, if one was.
     */
    method Send(read: Option<string>, posted: bool, configured: Option<string>, timestamp: string)
      returns (request: Option<Request>)
      requires Valid() && errors == map[]
      modifies this
      ensures Valid()
      ensures language == old(language) && mobileMenuOpen == old(mobileMenuOpen) && !submitting
      ensures request == (match BuildPayload(old(formData), old(language), read, timestamp)
                          case None => None
                          case Some(p) => Some(Request(Endpoint(configured), p)))
      ensures if request.Some? && posted
              then formData == EmptyForm && touched == {} && errors == map[]
              else formData == old(formData) && touched == old(touched) && errors == map[]
    {
      var form, lang := formData, language;
      submitting := true;
      var payload := BuildPayload(form, lang, read, timestamp);
      if payload.None? {
        // The reader's rejection lands in the handler's catch; its finally clears the flag.
        submitting := false;
        return None;
      }
      request := Some(Request(Endpoint(configured), payload.value));
      if posted {
        formData := EmptyForm;
        touched := {};
        errors := map[];
      }
      submitting := false;
    }

    /**
      The submit handler. Every name of `SubmitFields` is touched and
      validated; the errors are then exactly those of the form. With any
      error nothing is sent and the handler stays idle; otherwise the
      report goes through `Send`.
     */
    method Submit(read: Option<string>, posted: bool, configured: Option<string>, timestamp: string)
      returns (request: Option<Request>)
      requires Valid()
      modifies this
      ensures Valid()
      ensures language == old(language) && mobileMenuOpen == old(mobileMenuOpen)
      ensures FormErrors(old(formData)) != map[] ==>
        && request.None?
        && formData == old(formData) && submitting == old(submitting)
        && errors == FormErrors(old(formData)) && touched == old(touched) + SubmitFieldSet
      ensures FormErrors(old(formData)) == map[] ==>
        && !submitting
        && request == (match BuildPayload(old(formData), old(language), read, timestamp)
                       case None => None
                       case Some(p) => Some(Request(Endpoint(configured), p)))
        && if request.Some? && posted
           then formData == EmptyForm && touched == {} && errors == map[]
           else formData == old(formData) && touched == old(touched) + SubmitFieldSet && errors == map[]
    {
      ValidateForSubmit();
      if |errors| > 0 {
        return None;
      }
      assert errors == map[];

      // The second size check of the source never fires.
      SecondSizeCheckUnreachable(formData);
      if formData.file.Some? && formData.file.value.size > MAX_FILE_SIZE {
        assert false;
      }

      request := Send(read, posted, configured, timestamp);
    }
  }
}
