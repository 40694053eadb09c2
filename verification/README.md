# Smart ATS: the string pipeline behind the Submit button

Smart ATS is a Streamlit page. It takes a resume as a PDF and a job
description, and asks a Gemini model to compare them. Between its UI calls
there is a short, deterministic pipeline, and this project models it in
Dafny and proves what it does:

- `Text` holds Python's whitespace test and `str.strip()`. The reply from the
  model is stripped as soon as it arrives. The job description is checked
  with `.strip()` before anything else happens.
- `Prompt` holds a model of `str.format` for a template with the two fields
  `{resume}` and `{jd}`. It covers `{{` and `}}` and the errors `str.format`
  raises. It also holds the prompt template of the page, written as short
  pieces, and proves what formatting that template yields.
- `Fences` holds the cleaner ``re.sub(r'```json\s*|\s*```', '', reply).strip()``.
  It scans from left to right as Python's `re.sub` does:
  - At each position it tries the first alternative, then the second.
  - It removes the match and resumes after it.
  - Where nothing matches, it keeps one character.
- `Submission` holds the `if submit:` handler over its collaborators:
  - the PDF extractor, the model call and `json.loads` are function
    parameters, each of which either returns a value or raises;
  - the result of a run is the list of widgets written, the prompts sent to
    the model, and the exception that escapes the handler, if any.

All members are functions and lemmas: the parts of the script modelled here
compute values and change no state.

## Model

| member | source | states |
|---|---|---|
| Text.Strip | main.py:19 | `str.strip()`: the result has no whitespace at either end, and the input is whitespace, then the result, then whitespace |
| Text.StripUnique | main.py:19 | whitespace around a trimmed core is exactly what `strip()` removes, so the decomposition determines the result |
| Text.StripIdempotent | main.py:72 | stripping the already stripped reply a second time changes nothing |
| Text.StripEmptyIff | main.py:62 | `job_description.strip()` is falsy exactly when the job description is empty or all whitespace |
| Fences.MatchLength | main.py:71 | where it is positive, the prefix it measures matches ```` ```json\s* ```` or ```` \s*``` ```` |
| Fences.MatchLengthLongest | main.py:71 | every non-empty prefix the pattern matches is found, and the one chosen is the longest |
| Fences.MatchLengthPrefersOpener | main.py:71 | where the first alternative can match, it is the one taken |
| Fences.StripFences | main.py:71 | `re.sub` as a leftmost-first scan over `MatchLength`: a match is dropped and the scan resumes after it, otherwise one character is kept; the result is never longer than the reply, and the lemmas below prove it a subsequence of the reply that keeps every significant character |
| Fences.StripFencesDeletesOnly | main.py:71 | the substitution only deletes: its output is a subsequence of the reply, in the original order |
| Fences.KeepsSignificant | main.py:71 | the substitution removes only whitespace, backticks and the letters of "json": every other character survives, in order |
| Fences.CleanResponse | main.py:71-72 | the cleaned reply is no longer than the reply, is trimmed, and keeps every character other than whitespace, backticks and j, s, o, n |
| Fences.NoFenceUnchanged | main.py:71 | a reply without "```" is left unchanged by the substitution |
| Fences.NoFenceCleanIsStrip | main.py:71-72 | a reply without "```" is cleaned exactly by trimming it |
| Fences.CloserAlone | main.py:71 | whitespace followed by "```" is removed as one match |
| Fences.OpenerRemoved | main.py:71 | "```json" and all the whitespace after it are removed as one match |
| Fences.FencedPayload | main.py:71-72 | "```json", whitespace, a trimmed payload without backticks, whitespace and "```" clean to exactly the payload |
| Fences.UntaggedFencedPayload | main.py:71-72 | an untagged fence, "```", non-empty whitespace, a trimmed payload without backticks, whitespace and "```", cleans to exactly the payload |
| Fences.InteriorCloserRemoved | main.py:71 | whitespace followed by "```" is removed wherever it occurs, also inside the payload: text without backticks in front stays, and the scan goes on after the match |
| Fences.SpaceBeforeOpenerKeepsJson | main.py:71 | whitespace in front of "```json" is taken by the second alternative, so the word "json" stays in the output |
| Fences.UpperCaseTagKept | main.py:71 | the tag is matched case-sensitively: after "```JSON" only the backticks are removed |
| Prompt.Format | main.py:65 | `str.format` with `resume=` and `jd=`: a template without braces formats to itself; with the lemmas below, "{{" and "}}" render as one brace, the two fields as their arguments, a template of such pieces as their renderings, and a single "}" or an unknown field fails |
| Prompt.FormatPlain | main.py:65 | `str.format` copies text without braces as it is |
| Prompt.FormatField | main.py:41-42 | "{resume}" and "{jd}" render as the argument, inserted verbatim and not scanned again |
| Prompt.FormatSingleCloseBrace | main.py:65 | a "}" that is not doubled makes `str.format` fail |
| Prompt.FormatUnknownField | main.py:65 | a field whose name has no braces and no conversion, format spec, attribute or index, and is neither `resume` nor `jd`, makes `str.format` fail with that name |
| Prompt.FormatPiece | main.py:65 | formatting a literal piece, a doubled brace or a field, followed by more template, yields its rendering in front of the rest |
| Prompt.FormatPieces | main.py:65 | a template made of such pieces formats, piece by piece, to their renderings |
| Prompt.LayoutWellFormed | main.py:33-50 | literal text around the two fields and a schema between doubled braces consists only of pieces `str.format` accepts |
| Prompt.TemplateRenders | main.py:33-50 | for every resume and job description, formatting the template succeeds and yields prefix + resume + middle + jd + suffix; the schema's doubled braces appear single in the suffix |
| Prompt.RenderPrompt | main.py:65 | the prompt is the result of `prompt_template.format(resume=..., jd=...)` and is prefix + resume + middle + jd + suffix |
| Submission.GetResponse | main.py:16-19 | the reply is passed on stripped of surrounding whitespace, and an exception passes through unchanged |
| Submission.ParseReply | main.py:70-81 | the result is shown when `json.loads` succeeds on the cleaned reply; on a decode error the page shows the error and the cleaned reply exactly; other exceptions get the generic error |
| Submission.Analyse | main.py:67-84 | a failed model call gives the generic error with its message; a reply is stripped before it is cleaned and parsed; two widgets are written either way |
| Submission.HandleSubmit | main.py:61-86 | nothing happens without Submit; without a file or with a blank job description only the warning is shown; an escaping exception writes nothing; the model is called at most once; once the inputs are accepted and the PDF is read, nothing escapes and the widgets written are those of the analysis of the prompt rendered from the extracted text and the job description |
| Submission.WarningUnlessAccepted | main.py:62 | the warning alone is the outcome exactly when no file was uploaded or the job description is all whitespace |
| Submission.ModelCalledIff | main.py:61-68 | the model is called exactly when Submit was pressed, the inputs were accepted and the PDF was read, and then once, with the prompt rendered from the extracted text and the job description as typed |
| Submission.ExtractionFailureUncaught | main.py:63 | an exception from PDF extraction escapes the handler: no prompt, no widget |
| Submission.AnalysedRunsCaught | main.py:67-84 | once the PDF is read, no exception escapes, the one prompt is the rendered template, and the two widgets written are the analysis of the model's reply to it |
| Submission.ShownOnlyIfParsed | main.py:76-78 | a value is shown exactly when `json.loads` returned it for the cleaned reply |
| Submission.NoResultWithoutReply | main.py:82-84 | a failed model call never shows a result |
| Submission.PlainReplyTrimmed | main.py:71-72 | a reply without backticks reaches `json.loads` only trimmed |
| Submission.PlainReplyNotJson | main.py:79-81 | a reply without backticks that is not JSON, such as "Sorry, I cannot comply.", is shown trimmed beside the decode error |
| Submission.FencedReplyParsed | main.py:71-72 | a fenced JSON block with any whitespace around and inside the fences reaches `json.loads` as exactly its payload |
| Submission.FencedReplyShown | main.py:68-78 | a fenced JSON reply shows the value `json.loads` makes of its payload |
| Submission.UnstrippedReplyKeepsTag | main.py:19 | the strip before cleaning matters: with whitespace left before "```json", the cleaned text would be "json" + whitespace + payload |

## Left out

- Streamlit rendering (`st.title`, `st.text_area`, `st.file_uploader`, `st.button`, `st.subheader`, `st.json`, `st.error`, `st.warning`) is UI. A run is modelled as the list of widgets written, not as a page.
- `load_dotenv`, `genai.configure` and `GenerativeModel.generate_content` (main.py:9-18) load credentials and call a hosted model over the network. The reply is a function parameter that returns text or raises.
- `extract_pdf_text` (main.py:22-29) is a loop over PyPDF2 pages. Its text is a foreign call, so extraction is a parameter that returns text or raises. Its position before the `try` is modelled.
- `json.loads` internals are library code. Parsing is a parameter that returns a value, raises `JSONDecodeError`, or raises something else.
- Prompt.Format: only what the template needs is modelled. It covers literal text, doubled braces, the fields `resume` and `jd`, a trailing "{", a single "}", an unclosed field and an unknown name. It does not model format specs (`{resume:>10}`), conversions (`{resume!r}`), attribute or index access, or positional fields. Those are reported as an unknown field, where Python would format them or raise a different exception.
- Prompt.FormatUnknownField: an all-digit name is looked up positionally by Python and raises IndexError rather than KeyError; the model reports both as an unknown field, and in both cases formatting fails.
- Submission.HandleSubmit: an exception raised by `st.subheader` or `st.json` inside the inner `try` would be caught by the outer handler. Widget calls are not modelled as failing.
- Exception messages are strings. The model does not cover how Python renders an exception as text in `f"Details: {e}"`.
- Fence removal is not limited to the ends of the reply: whitespace followed by "```" inside the payload, even inside a JSON string, is removed too (Fences.InteriorCloserRemoved).
- Fence removal is case-sensitive: only lower-case "```json" opens a fence, and "```JSON" loses only its backticks (Fences.UpperCaseTagKept).
