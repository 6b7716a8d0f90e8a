/**
  What the submit handler sends: the normalised report payload, the
  endpoint it is posted to, and the base64 text taken from the file
  reader's data URL.
 */
module Submission {
  import opened Wrappers
  import opened Text
  import opened Validation
  import opened Form

  /** The attachment as sent: its name and its base64 content. */
  datatype FilePayload = FilePayload(name: string, base64: string)

  /** The JSON body of the report. */
  datatype Payload = Payload(name: string, email: string, site: string, department: string,
                             message: string, file: Option<FilePayload>,
                             language: Language, timestamp: string)

  /** One POST: where to, and what. */
  datatype Request = Request(endpoint: string, payload: Payload)

  /** The sentinel sent for a blank optional field. */
  const ANONYMOUS: string := "Anonymous"

  /**
    `(s || '').trim() || 'Anonymous'`: a blank field becomes the sentinel,
    any other is sent trimmed.
   */
  function OrAnonymous(s: string): (r: string)
    ensures AllSpace(s) ==> r == ANONYMOUS
    ensures !AllSpace(s) ==> r == Trim(s)
  {
    var t := Trim(s);
    if t == "" then ANONYMOUS else t
  }

  /**
    What a normalised field holds: the sentinel for a blank field, and
    otherwise a slice of the input with only whitespace on either side of
    it and none at its ends.
   */
  lemma OrAnonymousMeaning(s: string)
    ensures AllSpace(s) ==> OrAnonymous(s) == ANONYMOUS
    ensures !AllSpace(s) ==>
      var r := OrAnonymous(s);
      && r != [] && !IsSpace(r[0]) && !IsSpace(r[|r| - 1])
      && exists i :: 0 <= i <= |s| - |r| && r == s[i..i + |r|] && AllSpace(s[..i]) && AllSpace(s[i + |r|..])
  {
    if !AllSpace(s) {
      var r := Trim(s);
      var i := |s| - |TrimStart(s)|;
      TrimIsSlice(s);
      assert OrAnonymous(s) == r;
      assert 0 <= i <= |s| - |r| && r == s[i..i + |r|] && AllSpace(s[..i]) && AllSpace(s[i + |r|..]);
    }
  }

  /** `DEFAULT_ENDPOINT`: the hard-coded webhook used when none is configured. */
  const DEFAULT_ENDPOINT: string :=
    "https://default10bfe07b12fc4c4ca9122a8b161354.f9.environment.api.powerplatform.com/powerautomate/automations/direct/workflows/38d75b43da9c41aba1cb3d65326b73f9/triggers/manual/paths/invoke?api-version=1&sp=%2Ftriggers%2Fmanual%2Frun&sv=1.0&sig=jziffN3HZd2PlufYFPert4xouJalQQQWyAwLFvqPshk"

  /**
    `(properties?.apiEndpoint || '').trim() || defaultEndpoint`: the
    configured URL without surrounding whitespace, or the default one when
    nothing but whitespace is configured. The URL used is never blank, and
    a configured one is never padded.
   */
  function Endpoint(configured: Option<string>): (url: string)
    ensures configured.None? || AllSpace(configured.value) ==> url == DEFAULT_ENDPOINT
    ensures configured.Some? && !AllSpace(configured.value) ==> url == Trim(configured.value)
    ensures url != []
  {
    var t := Trim(if configured.Some? then configured.value else "");
    if t == "" then DEFAULT_ENDPOINT else t
  }

  /**
    `result.split(',')[1] || ''` on the file reader's data URL: the text
    between the first and the second comma (or the end), and "" when
    there is no comma.
   */
  function DataUrlPayload(dataUrl: string): (r: string)
    ensures ',' !in r
    ensures ',' !in dataUrl ==> r == ""
  {
    var parts := Split(dataUrl, ',');
    if |parts| > 1 then parts[1] else ""
  }

  /**
    For a data URL of the form `data:[<mediatype>][;base64],<data>` (section
    3 of RFC 2397) whose header holds no comma, the result is the data up to
    its first comma; base64 text holds none, so it is then the whole data.
   */
  lemma {:induction false} DataUrlPayloadOfDataUrl(header: string, data: string)
    requires ',' !in header
    ensures DataUrlPayload(header + "," + data) == Split(data, ',')[0]
    ensures ',' !in data ==> DataUrlPayload(header + "," + data) == data
  {
    SplitAfterHead(header, ',', data);
    if ',' !in data {
      SplitWithoutSeparator(data, ',');
    }
  }

  /** The attachment part of the payload: `{name, base64}` built from what the reader returned. */
  function EncodeFile(file: Attachment, dataUrl: string): (p: FilePayload)
    ensures p.name == file.name && p.base64 == DataUrlPayload(dataUrl) && ',' !in p.base64
  {
    FilePayload(file.name, DataUrlPayload(dataUrl))
  }

  /**
    The payload built from the form: `read` is the data URL the file reader
    produced, or None when it failed. There is no payload exactly when a
    file is attached and could not be read; otherwise name, email and
    department are normalised, site and message are sent as entered, the
    file part is null exactly when no file is attached, and the language is
    the current one.
   */
  function BuildPayload(form: FormData, lang: Language, read: Option<string>, timestamp: string): (r: Option<Payload>)
    ensures r.None? <==> form.file.Some? && read.None?
    ensures r.Some? ==>
      && r.value.name == OrAnonymous(form.name)
      && r.value.email == OrAnonymous(form.email)
      && r.value.department == OrAnonymous(form.department)
      && r.value.site == form.site && r.value.message == form.message
      && (r.value.file.None? <==> form.file.None?)
      && (r.value.file.Some? ==> r.value.file.value.name == form.file.value.name
                                 && r.value.file.value.base64 == DataUrlPayload(read.value))
      && r.value.language == lang && r.value.timestamp == timestamp
  {
    if form.file.Some? && read.None? then None
    else
      var file := if form.file.Some? then Some(EncodeFile(form.file.value, read.value)) else None;
      Some(Payload(OrAnonymous(form.name), OrAnonymous(form.email), form.site, OrAnonymous(form.department),
                   form.message, file, lang, timestamp))
  }

  /**
    The smallest report that can be sent: a site and a message, everything
    else left blank. It passes validation, and its payload names the
    reporter, their email and their department as "Anonymous".
   */
  lemma MinimalReportIsAnonymous(lang: Language, timestamp: string)
    ensures var form := FormData("", "", "Riyadh HQ", "", "test", None);
      && FormErrors(form) == map[]
      && BuildPayload(form, lang, None, timestamp) ==
           Some(Payload(ANONYMOUS, ANONYMOUS, "Riyadh HQ", ANONYMOUS, "test", None, lang, timestamp))
  {
    var form := FormData("", "", "Riyadh HQ", "", "test", None);
    assert !IsSpace("test"[0]);
    FormErrorsEmptyIffAcceptable(form);
  }
}
