/**
 * What one press of the Submit button does: the input guard, PDF extraction,
 * rendering the prompt, the model call, cleaning and parsing the reply, and
 * which messages end up on the page.
 *
 * The collaborators the handler cannot see into are parameters: `extract`
 * stands for `extract_pdf_text`, `model` for the Gemini call that yields
 * `response.text`, and `parse` for `json.loads`; each either returns a value
 * or raises. The page is the list of widgets the handler writes.
 */
module Submission {
  import opened Text
  import opened Fences
  import opened Prompt

  datatype Option<T> = None | Some(value: T)

  /** `extract_pdf_text(uploaded_file)`: the text of every page, or an
      exception from the PDF reader. */
  datatype Extraction = Extracted(text: string) | ExtractionRaised(message: string)

  /** The model call: the reply text, or an exception (network, API key,
      blocked reply). */
  datatype Reply = Replied(text: string) | Raised(message: string)

  /** `json.loads`: a value, `json.JSONDecodeError`, or some other exception. */
  datatype Decoding<J> = Decoded(value: J) | DecodeError | DecodeRaised(message: string)

  /** The Streamlit calls the handler makes. */
  datatype Widget<J> =
    | Subheader(text: string)
    | JsonView(value: J)
    | ErrorBox(text: string)
    | WarningBox(text: string)

  /** The effect of one run of the handler: the widgets written, the prompts
      sent to the model, and the exception that escapes the handler, if any. */
  datatype Run<J> = Run(widgets: seq<Widget<J>>, prompts: seq<string>, uncaught: Option<string>)

  const ResultTitle := "ATS Analysis Result"
  const NotJsonMessage := "Error: The response from Gemini is not valid JSON. Please try again."
  const RawPrefix := "Raw response: "
  const ProcessingMessage := "Error occurred while processing. Please try again."
  const DetailsPrefix := "Details: "
  const MissingInputMessage := "Please upload a resume and provide a job description!"

  /** `get_gemini_response`: the model's reply, trimmed; an exception passes
      through. */
  function GetResponse(model: string -> Reply, prompt: string): (r: Reply)
    ensures r.Replied? <==> model(prompt).Replied?
    ensures r.Replied? ==> r.text == Strip(model(prompt).text) && Trimmed(r.text)
    ensures r.Raised? ==> r == model(prompt)
  {
    match model(prompt)
    case Replied(text) => Replied(Strip(text))
    case Raised(message) => Raised(message)
  }

  /** What the outer `except Exception` writes. */
  function Failure<J>(message: string): seq<Widget<J>> {
    [ErrorBox(ProcessingMessage), ErrorBox(DetailsPrefix + message)]
  }

  /** The reply handed on by `get_gemini_response`, cleaned and parsed: the
      result on success, the decode error together with the cleaned text
      exactly as it was handed to `json.loads`, or, for any other exception,
      what the outer handler writes. */
  function ParseReply<J>(reply: string, parse: string -> Decoding<J>): (widgets: seq<Widget<J>>)
    ensures |widgets| == 2
    ensures var cleaned := CleanResponse(reply);
      match parse(cleaned)
      case Decoded(v) => widgets == [Subheader(ResultTitle), JsonView(v)]
      case DecodeError => widgets == [ErrorBox(NotJsonMessage), ErrorBox(RawPrefix + cleaned)]
      case DecodeRaised(m) => widgets == Failure(m)
  {
    var cleaned := CleanResponse(reply);
    match parse(cleaned)
    case Decoded(v) => [Subheader(ResultTitle), JsonView(v)]
    case DecodeError => [ErrorBox(NotJsonMessage), ErrorBox(RawPrefix + cleaned)]
    case DecodeRaised(message) => Failure(message)
  }

  /** The outer `try` with the rendered prompt: nothing in it escapes. A
      model failure is reported by the outer handler; a reply is trimmed
      before it is cleaned. */
  function Analyse<J>(prompt: string, model: string -> Reply, parse: string -> Decoding<J>): (widgets: seq<Widget<J>>)
    ensures |widgets| == 2
    ensures model(prompt).Raised? ==> widgets == Failure(model(prompt).message)
    ensures model(prompt).Replied? ==> widgets == ParseReply(Strip(model(prompt).text), parse)
  {
    match GetResponse(model, prompt)
    case Raised(message) => Failure(message)
    case Replied(text) => ParseReply(text, parse)
  }

  /** The inputs get past the guard: a file was uploaded and the job
      description holds something other than whitespace. */
  predicate Accepted<F>(upload: Option<F>, jd: string) {
    upload.Some? && !AllSpace(jd)
  }

  /** The `if submit:` block. The job description is checked after
      stripping, but it is the unstripped text that goes into the prompt. */
  function HandleSubmit<F, J>(submit: bool, upload: Option<F>, jd: string,
                              extract: F -> Extraction, model: string -> Reply,
                              parse: string -> Decoding<J>): (run: Run<J>)
    ensures !submit ==> run == Run([], [], None)
    ensures submit && !Accepted(upload, jd) ==> run == Run([WarningBox(MissingInputMessage)], [], None)
    ensures run.uncaught.Some? ==> run.widgets == [] && run.prompts == []
    ensures |run.prompts| <= 1
    ensures submit && Accepted(upload, jd) && extract(upload.value).Extracted? ==>
              run.uncaught == None &&
              run.widgets == Analyse(RenderPrompt(extract(upload.value).text, jd), model, parse)
  {
    StripEmptyIff(jd);
    if !submit then
      Run([], [], None)
    else if upload.None? || Strip(jd) == [] then
      Run([WarningBox(MissingInputMessage)], [], None)
    else
      match extract(upload.value)
      case ExtractionRaised(message) => Run([], [], Some(message))
      case Extracted(resume) =>
        var prompt := RenderPrompt(resume, jd);
        Run(Analyse(prompt, model, parse), [prompt], None)
  }

  // ----- the guard ----------------------------------------------------------

  /** A press without a file, or with a job description that is empty or only
      whitespace, shows the warning and does nothing else. */
  lemma WarningUnlessAccepted<F, J>(upload: Option<F>, jd: string, extract: F -> Extraction,
                                    model: string -> Reply, parse: string -> Decoding<J>)
    ensures !Accepted(upload, jd) <==>
            HandleSubmit(true, upload, jd, extract, model, parse) == Run([WarningBox(MissingInputMessage)], [], None)
  {
    StripEmptyIff(jd);
    var run := HandleSubmit(true, upload, jd, extract, model, parse);
    if Accepted(upload, jd) {
      match extract(upload.value)
      case ExtractionRaised(m) =>
        assert run.uncaught.Some?;
      case Extracted(resume) =>
        assert run.prompts != [];
    }
  }

  /** The model is asked exactly when Submit was pressed, the inputs were
      accepted and the PDF could be read; it is asked once, with the prompt
      rendered from the extracted text and the job description as typed. */
  lemma ModelCalledIff<F, J>(submit: bool, upload: Option<F>, jd: string, extract: F -> Extraction,
                             model: string -> Reply, parse: string -> Decoding<J>)
    ensures var run := HandleSubmit(submit, upload, jd, extract, model, parse);
      && (run.prompts != [] <==> submit && Accepted(upload, jd) && extract(upload.value).Extracted?)
      && (run.prompts != [] ==> run.prompts == [RenderPrompt(extract(upload.value).text, jd)])
  {
    StripEmptyIff(jd);
  }

  /** `extract_pdf_text` runs before the `try`, so its exception escapes the
      handler and nothing is written. */
  lemma ExtractionFailureUncaught<F, J>(upload: Option<F>, jd: string, extract: F -> Extraction,
                                        model: string -> Reply, parse: string -> Decoding<J>)
    requires Accepted(upload, jd) && extract(upload.value).ExtractionRaised?
    ensures HandleSubmit(true, upload, jd, extract, model, parse)
         == Run([], [], Some(extract(upload.value).message))
  {
    StripEmptyIff(jd);
  }

  /** Once past the guard and the extraction, the handler never lets an
      exception escape and writes exactly the two widgets of the analysis of
      the rendered prompt. */
  lemma AnalysedRunsCaught<F, J>(upload: Option<F>, jd: string, extract: F -> Extraction,
                                 model: string -> Reply, parse: string -> Decoding<J>)
    requires Accepted(upload, jd) && extract(upload.value).Extracted?
    ensures var run := HandleSubmit(true, upload, jd, extract, model, parse);
      var prompt := RenderPrompt(extract(upload.value).text, jd);
      run == Run(Analyse(prompt, model, parse), [prompt], None) && |run.widgets| == 2
  {
    StripEmptyIff(jd);
  }

  // ----- replies ------------------------------------------------------------

  /** A parsed result is shown only for the value `json.loads` returned on the
      cleaned reply. */
  lemma ShownOnlyIfParsed<J>(reply: string, parse: string -> Decoding<J>, v: J)
    ensures JsonView(v) in ParseReply(reply, parse) <==> parse(CleanResponse(reply)) == Decoded(v)
  {
    var widgets := ParseReply(reply, parse);
    var cleaned := CleanResponse(reply);
    match parse(cleaned)
    case Decoded(w) =>
      assert widgets == [Subheader(ResultTitle), JsonView(w)];
    case DecodeError =>
      assert widgets == [ErrorBox(NotJsonMessage), ErrorBox(RawPrefix + cleaned)];
    case DecodeRaised(m) =>
      assert widgets == Failure(m);
  }

  /** A failed model call never shows a result. */
  lemma NoResultWithoutReply<J>(prompt: string, model: string -> Reply, parse: string -> Decoding<J>, v: J)
    requires model(prompt).Raised?
    ensures JsonView(v) !in Analyse(prompt, model, parse)
  {
    assert Analyse(prompt, model, parse) == Failure(model(prompt).message);
  }

  lemma StripNoBacktick(text: string)
    requires NoBacktick(text)
    ensures NoBacktick(Strip(text))
  {
    StripIsSlice(text);
    NoBacktickSlice(text, SpaceRun(text), SpaceRun(text) + |Strip(text)|);
  }

  lemma NoBacktickSlice(t: string, i: nat, j: nat)
    requires i <= j <= |t| && NoBacktick(t)
    ensures NoBacktick(t[i..j])
  {
    forall k | 0 <= k < j - i ensures t[i..j][k] != '`' {
      assert t[i..j][k] == t[i + k];
    }
  }

  lemma NoBacktickNoCloser(s: string)
    requires NoBacktick(s)
    ensures !HasCloser(s)
  {
    forall i | 0 <= i <= |s| - |Closer| ensures !CloserAt(s, i) {
      assert s[i..i + |Closer|][0] == s[i];
    }
  }

  /** A reply without backticks reaches `json.loads` only trimmed. */
  lemma PlainReplyTrimmed(text: string)
    requires NoBacktick(text)
    ensures CleanResponse(Strip(text)) == Strip(text)
  {
    StripNoBacktick(text);
    NoBacktickNoCloser(Strip(text));
    NoFenceCleanIsStrip(Strip(text));
    StripIdempotent(text);
  }

  /** A reply that is a fenced JSON block, with any whitespace around the
      fences and inside them, reaches `json.loads` as exactly its payload. */
  lemma FencedReplyParsed(w0: string, w1: string, payload: string, w2: string, w3: string)
    requires AllSpace(w0) && AllSpace(w1) && AllSpace(w2) && AllSpace(w3)
    requires Trimmed(payload) && NoBacktick(payload)
    ensures CleanResponse(Strip(w0 + (Opener + w1 + payload + w2 + Closer) + w3)) == payload
  {
    var fenced := Opener + w1 + payload + w2 + Closer;
    assert fenced[0] == '`' && fenced[|fenced| - 1] == '`';
    StripUnique(w0, fenced, w3);
    FencedPayload(w1, payload, w2);
  }

  /** The model's reply is stripped before the pattern runs, and that matters:
      were the whitespace in front of the opener left in place, the second
      alternative would take it together with the backticks, and the language
      tag "json" would stay in front of the payload. */
  lemma UnstrippedReplyKeepsTag(w: string, w1: string, payload: string, w2: string)
    requires AllSpace(w) && w != [] && AllSpace(w1) && AllSpace(w2)
    requires Trimmed(payload) && NoBacktick(payload) && payload != []
    ensures CleanResponse(w + Opener + w1 + payload + w2 + Closer) == "json" + (w1 + payload)
  {
    UnstrippedFencesKeepTag(w, w1, payload, w2);
    StripTagged(w1, payload);
  }

  /** "json", whitespace and a trimmed payload: already trimmed. */
  lemma StripTagged(w1: string, payload: string)
    requires payload != [] && !IsSpace(payload[|payload| - 1])
    ensures Strip("json" + (w1 + payload)) == "json" + (w1 + payload)
  {
    var t := "json" + (w1 + payload);
    assert t[0] == 'j';
    assert t[|t| - 1] == payload[|payload| - 1];
    StripTrimmed(t);
  }

  lemma UnstrippedFencesKeepTag(w: string, w1: string, payload: string, w2: string)
    requires AllSpace(w) && w != [] && AllSpace(w1) && AllSpace(w2)
    requires Trimmed(payload) && NoBacktick(payload) && payload != []
    ensures StripFences(w + Opener + w1 + payload + w2 + Closer) == "json" + (w1 + payload)
  {
    Regroup6(w, Opener, w1, payload, w2, Closer);
    SpaceBeforeOpenerKeepsJson(w, (w1 + payload) + (w2 + Closer));
    PayloadThenCloser(w1, payload, w2);
  }

  /** Whitespace, a trimmed payload, whitespace and a closer: only the closer
      and the whitespace before it go. */
  lemma PayloadThenCloser(w1: string, payload: string, w2: string)
    requires AllSpace(w1) && AllSpace(w2)
    requires Trimmed(payload) && NoBacktick(payload) && payload != []
    ensures StripFences((w1 + payload) + (w2 + Closer)) == w1 + payload
  {
    SpacedPayload(w1, payload);
    PlainThenCloser(w1 + payload, w2);
  }

  lemma Regroup6(a: string, b: string, c: string, d: string, e: string, f: string)
    ensures a + b + c + d + e + f == a + b + ((c + d) + (e + f))
  {
  }

  /** A reply without backticks that is not JSON is shown trimmed, with the
      decode error, for instance "Sorry, I cannot comply.". */
  lemma PlainReplyNotJson<J>(prompt: string, model: string -> Reply, parse: string -> Decoding<J>)
    requires model(prompt).Replied? && NoBacktick(model(prompt).text)
    requires parse(Strip(model(prompt).text)) == DecodeError
    ensures Analyse(prompt, model, parse)
         == [ErrorBox(NotJsonMessage), ErrorBox(RawPrefix + Strip(model(prompt).text))]
  {
    PlainReplyTrimmed(model(prompt).text);
  }

  /** A fenced JSON reply is shown as the value `json.loads` makes of its
      payload. */
  lemma FencedReplyShown<J>(prompt: string, model: string -> Reply, parse: string -> Decoding<J>,
                            w0: string, w1: string, payload: string, w2: string, w3: string)
    requires AllSpace(w0) && AllSpace(w1) && AllSpace(w2) && AllSpace(w3)
    requires Trimmed(payload) && NoBacktick(payload)
    requires model(prompt) == Replied(w0 + (Opener + w1 + payload + w2 + Closer) + w3)
    requires parse(payload).Decoded?
    ensures Analyse(prompt, model, parse) == [Subheader(ResultTitle), JsonView(parse(payload).value)]
  {
    FencedReplyParsed(w0, w1, payload, w2, w3);
  }
}
