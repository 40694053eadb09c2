/**
 * The instruction sent to the model: a fixed template into which
 * `str.format` substitutes the resume text and the job description.
 */
module Prompt {

  // ----- str.format with the two keyword arguments resume= and jd= ----------

  /** The ValueError and KeyError cases `str.format` raises on a bad template. */
  datatype FormatError =
    | SingleOpenBrace         // "{" as the last character
    | SingleCloseBrace        // "}" not followed by a second "}"
    | UnclosedField           // "{name" with no "}" after it
    | UnknownField(name: string)

  datatype Formatted = Ok(text: string) | Err(error: FormatError)

  /** `text` in front of a formatted result; an error stays an error. */
  function Prepend(text: string, r: Formatted): Formatted {
    match r
    case Ok(t) => Ok(text + t)
    case Err(_) => r
  }

  predicate NoBrace(s: string) {
    forall i | 0 <= i < |s| :: s[i] != '{' && s[i] != '}'
  }

  /** Number of characters before the first "}" of `s` (all of `s` if none). */
  function FieldLength(s: string): (n: nat)
    ensures n <= |s|
    ensures forall i | 0 <= i < n :: s[i] != '}'
    ensures n < |s| ==> s[n] == '}'
  {
    if s == [] || s[0] == '}' then 0 else 1 + FieldLength(s[1..])
  }

  /** `t.format(resume=resume, jd=jd)`: literal text is copied, "{{" and "}}"
      stand for one brace each, and "{resume}" and "{jd}" are replaced by the
      argument, which is inserted as it is and not scanned again. */
  function Format(t: string, resume: string, jd: string): (r: Formatted)
    ensures NoBrace(t) ==> r == Ok(t)
    decreases |t|
  {
    if t == [] then
      Ok([])
    else if t[0] == '{' then
      if |t| == 1 then
        Err(SingleOpenBrace)
      else if t[1] == '{' then
        Prepend("{", Format(t[2..], resume, jd))
      else
        var n := FieldLength(t[1..]);
        if n == |t| - 1 then
          Err(UnclosedField)
        else
          var name := t[1..n + 1];
          if name == "resume" then Prepend(resume, Format(t[n + 2..], resume, jd))
          else if name == "jd" then Prepend(jd, Format(t[n + 2..], resume, jd))
          else Err(UnknownField(name))
    else if t[0] == '}' then
      if |t| >= 2 && t[1] == '}' then Prepend("}", Format(t[2..], resume, jd))
      else Err(SingleCloseBrace)
    else
      assert NoBrace(t) ==> NoBrace(t[1..]) && [t[0]] + t[1..] == t;
      Prepend([t[0]], Format(t[1..], resume, jd))
  }

  lemma PrependPrepend(a: string, b: string, r: Formatted)
    ensures Prepend(a, Prepend(b, r)) == Prepend(a + b, r)
  {
    match r
    case Ok(t) =>
      assert a + (b + t) == (a + b) + t;
    case Err(_) =>
  }

  /** Text without braces is copied as it is. */
  lemma {:induction false} FormatPlain(p: string, rest: string, resume: string, jd: string)
    requires NoBrace(p)
    ensures Format(p + rest, resume, jd) == Prepend(p, Format(rest, resume, jd))
    decreases |p|
  {
    if p == [] {
      assert p + rest == rest;
      match Format(rest, resume, jd)
      case Ok(t) => assert p + t == t;
      case Err(_) =>
    } else {
      var t := p + rest;
      assert t[0] == p[0];
      assert t[1..] == p[1..] + rest;
      FormatPlain(p[1..], rest, resume, jd);
      PrependPrepend([p[0]], p[1..], Format(rest, resume, jd));
      assert [p[0]] + p[1..] == p;
    }
  }

  /** A doubled brace stands for one brace. */
  lemma FormatDoubledBrace(b: string, rest: string, resume: string, jd: string)
    requires b == "{{" || b == "}}"
    ensures Format(b + rest, resume, jd) == Prepend([b[0]], Format(rest, resume, jd))
  {
    var t := b + rest;
    assert t[0] == b[0] && t[1] == b[1];
    assert t[2..] == rest;
  }

  /** A replacement field stands for its argument, inserted verbatim. */
  lemma FormatField(name: string, rest: string, resume: string, jd: string)
    requires name == "resume" || name == "jd"
    ensures Format("{" + name + "}" + rest, resume, jd)
         == Prepend(if name == "resume" then resume else jd, Format(rest, resume, jd))
  {
    var t := "{" + name + "}" + rest;
    assert t[0] == '{' && t[1] == name[0];
    assert t[1..] == name + ("}" + rest);
    FieldLengthOf(name, "}" + rest);
    var n := FieldLength(t[1..]);
    assert t[1..n + 1] == name;
    assert t[n + 2..] == rest;
  }

  lemma {:induction false} FieldLengthOf(name: string, rest: string)
    requires forall i | 0 <= i < |name| :: name[i] != '}'
    requires rest != [] && rest[0] == '}'
    ensures FieldLength(name + rest) == |name|
  {
    var s := name + rest;
    if name == [] {
      assert s == rest;
    } else {
      assert s[0] == name[0];
      assert s[1..] == name[1..] + rest;
      FieldLengthOf(name[1..], rest);
    }
  }

  /** A "}" that is not doubled makes `str.format` raise ValueError. */
  lemma FormatSingleCloseBrace(p: string, rest: string, resume: string, jd: string)
    requires NoBrace(p)
    requires rest == [] || rest[0] != '}'
    ensures Format(p + "}" + rest, resume, jd) == Err(SingleCloseBrace)
  {
    assert p + "}" + rest == p + ("}" + rest);
    FormatPlain(p, "}" + rest, resume, jd);
    var t := "}" + rest;
    assert t[0] == '}';
    assert |t| >= 2 ==> t[1] == rest[0];
  }

  /** A field name with no braces and none of the characters that start a
      conversion (!), a format spec (:), an attribute (.) or an index ([). */
  predicate SimpleName(name: string) {
    forall i | 0 <= i < |name| ::
      name[i] != '{' && name[i] != '}' && name[i] != '!' && name[i] != ':' && name[i] != '.' && name[i] != '['
  }

  /** A field other than `resume` and `jd` makes `str.format` raise KeyError. */
  lemma FormatUnknownField(name: string, rest: string, resume: string, jd: string)
    requires name != [] && SimpleName(name)
    requires name != "resume" && name != "jd"
    ensures Format("{" + name + "}" + rest, resume, jd) == Err(UnknownField(name))
  {
    var t := "{" + name + "}" + rest;
    assert t[0] == '{' && t[1] == name[0];
    assert t[1..] == name + ("}" + rest);
    FieldLengthOf(name, "}" + rest);
    assert t[1..|name| + 1] == name;
  }

  // ----- the template as a sequence of pieces -----------------------------

  /** A piece of template text that `Format` handles on its own: text without
      braces, a doubled brace, or one of the two replacement fields. */
  predicate Piece(p: string) {
    NoBrace(p) || p == "{{" || p == "}}" || p == "{resume}" || p == "{jd}"
  }

  /** Pieces without braces: literal text only. */
  predicate Plain(ps: seq<string>) {
    forall i | 0 <= i < |ps| :: NoBrace(ps[i])
  }

  predicate Pieces(ps: seq<string>) {
    forall i | 0 <= i < |ps| :: Piece(ps[i])
  }

  /** What `Format` makes of one piece. */
  function RenderPiece(p: string, resume: string, jd: string): string {
    if p == "{{" then "{"
    else if p == "}}" then "}"
    else if p == "{resume}" then resume
    else if p == "{jd}" then jd
    else p
  }

  function Join(ps: seq<string>): string {
    if ps == [] then [] else ps[0] + Join(ps[1..])
  }

  function Rendered(ps: seq<string>, resume: string, jd: string): string {
    if ps == [] then [] else RenderPiece(ps[0], resume, jd) + Rendered(ps[1..], resume, jd)
  }

  lemma FormatPiece(p: string, rest: string, resume: string, jd: string)
    requires Piece(p)
    ensures Format(p + rest, resume, jd) == Prepend(RenderPiece(p, resume, jd), Format(rest, resume, jd))
  {
    if p == "{{" || p == "}}" {
      FormatDoubledBrace(p, rest, resume, jd);
    } else if p == "{resume}" || p == "{jd}" {
      FormatFieldPiece(p, rest, resume, jd);
    } else {
      FormatPlain(p, rest, resume, jd);
    }
  }

  lemma FormatFieldPiece(p: string, rest: string, resume: string, jd: string)
    requires p == "{resume}" || p == "{jd}"
    ensures Format(p + rest, resume, jd) == Prepend(RenderPiece(p, resume, jd), Format(rest, resume, jd))
  {
    if p == "{resume}" {
      FormatField("resume", rest, resume, jd);
      assert "{" + "resume" + "}" == p;
    } else {
      FormatField("jd", rest, resume, jd);
      assert "{" + "jd" + "}" == p;
    }
  }

  /** A template made of pieces formats, piece by piece, to their renderings:
      `str.format` never fails on it. */
  lemma {:induction false} FormatPieces(ps: seq<string>, rest: string, resume: string, jd: string)
    requires Pieces(ps)
    ensures Format(Join(ps) + rest, resume, jd) == Prepend(Rendered(ps, resume, jd), Format(rest, resume, jd))
  {
    if ps == [] {
      assert Join(ps) + rest == rest;
      match Format(rest, resume, jd)
      case Ok(t) => assert [] + t == t;
      case Err(_) =>
    } else {
      assert Piece(ps[0]);
      assert Pieces(ps[1..]) by {
        forall i | 0 <= i < |ps[1..]| ensures Piece(ps[1..][i]) {
          assert ps[1..][i] == ps[i + 1];
        }
      }
      assert Join(ps) + rest == ps[0] + (Join(ps[1..]) + rest);
      FormatPiece(ps[0], Join(ps[1..]) + rest, resume, jd);
      FormatPieces(ps[1..], rest, resume, jd);
      PrependPrepend(RenderPiece(ps[0], resume, jd), Rendered(ps[1..], resume, jd), Format(rest, resume, jd));
    }
  }

  lemma {:induction false} RenderedAppend(a: seq<string>, b: seq<string>, resume: string, jd: string)
    ensures Rendered(a + b, resume, jd) == Rendered(a, resume, jd) + Rendered(b, resume, jd)
  {
    if a == [] {
      assert a + b == b;
    } else {
      assert (a + b)[0] == a[0];
      assert (a + b)[1..] == a[1..] + b;
      RenderedAppend(a[1..], b, resume, jd);
    }
  }

  /** Pieces without braces render to themselves. */
  lemma {:induction false} RenderedPlain(ps: seq<string>, resume: string, jd: string)
    requires Plain(ps)
    ensures Rendered(ps, resume, jd) == Join(ps)
  {
    if ps != [] {
      assert NoBrace(ps[0]);
      assert ps[0] != "{{" && ps[0] != "}}" && ps[0] != "{resume}" && ps[0] != "{jd}" by {
        assert "{{"[0] == '{' && "}}"[0] == '}' && "{resume}"[0] == '{' && "{jd}"[0] == '{';
      }
      RenderedPlain(ps[1..], resume, jd);
    }
  }

  // ----- the prompt template of the analyser ------------------------------

  /** The instructions before the resume, line by line (the template opens
      with a line break). */
  const Role: seq<string> := [
    "\n", "Hey, act as a skilled ATS ", "(Applicant Tracking System) ",
    "with expertise in analyzing ", "resumes and job descriptions.", "\n"
  ]
  const Task: seq<string> := [
    "Evaluate the resume provided ", "based on the job ", "description. \n",
    "Your output should include:", "\n"
  ]
  const MatchItem: seq<string> := ["1. Job Description Match ", "percentage (0% to 100%),", "\n"]
  const KeywordsItem: seq<string> := ["2. Missing Keywords that ", "are important for the job,", "\n"]
  const SummaryItem: seq<string> := [
    "3. A concise Profile Summary ", "highlighting the candidate's ", "strengths.", "\n"
  ]
  const ResumeLabel: seq<string> := ["\n", "Resume: "]

  const Instructions: seq<string> := Role + Task + MatchItem + KeywordsItem + SummaryItem + ResumeLabel

  /** Between the resume and the job description. */
  const JobLabel: seq<string> := ["\n", "Job Description: "]

  /** After the job description, up to the opening brace of the schema. */
  const SchemaIntro: seq<string> := ["\n", "\n", "Your response must follow ", "this exact JSON format:", "\n"]

  /** The members of the JSON object the model is asked to return, one
      line each. */
  const MatchMember: seq<string> := ["\n", "    \"Job Description Match\": ", "\"<percentage>%\",", "\n"]
  const KeywordsMember: seq<string> := ["    \"Missing Keywords\": ", "[\"<keyword1>\", ", "\"<keyword2>\", ...],", "\n"]
  const SummaryMember: seq<string> := ["    \"Profile Summary\": ", "\"<summary>\"", "\n"]

  const SchemaBody: seq<string> := MatchMember + KeywordsMember + SummaryMember

  /** The template as it is written in the program, with its doubled braces. */
  const TemplatePieces: seq<string> := Layout(Instructions, JobLabel, SchemaIntro, SchemaBody)

  const PromptTemplate: string := Join(TemplatePieces)

  /** The fixed text of the rendered prompt around the two inputs. */
  const Prefix: string := Join(Instructions)
  const Middle: string := Join(JobLabel)
  const Suffix: string := Join(SchemaIntro) + "{" + Join(SchemaBody) + "}" + "\n"

  lemma RolePlain()
    ensures Plain(Role)
  {
    assert NoBrace(Role[0]);
    assert NoBrace(Role[1]);
    assert NoBrace(Role[2]);
    assert NoBrace(Role[3]);
    assert NoBrace(Role[4]);
    assert NoBrace(Role[5]);
  }

  lemma TaskPlain()
    ensures Plain(Task)
  {
    assert NoBrace(Task[0]);
    assert NoBrace(Task[1]);
    assert NoBrace(Task[2]);
    assert NoBrace(Task[3]);
    assert NoBrace(Task[4]);
  }

  lemma MatchItemPlain()
    ensures Plain(MatchItem)
  {
    assert NoBrace(MatchItem[0]);
    assert NoBrace(MatchItem[1]);
    assert NoBrace(MatchItem[2]);
  }

  lemma KeywordsItemPlain()
    ensures Plain(KeywordsItem)
  {
    assert NoBrace(KeywordsItem[0]);
    assert NoBrace(KeywordsItem[1]);
    assert NoBrace(KeywordsItem[2]);
  }

  lemma SummaryItemPlain()
    ensures Plain(SummaryItem)
  {
    assert NoBrace(SummaryItem[0]);
    assert NoBrace(SummaryItem[1]);
    assert NoBrace(SummaryItem[2]);
    assert NoBrace(SummaryItem[3]);
  }

  lemma ResumeLabelPlain()
    ensures Plain(ResumeLabel)
  {
    assert NoBrace(ResumeLabel[0]);
    assert NoBrace(ResumeLabel[1]);
  }

  lemma JobLabelPlain()
    ensures Plain(JobLabel)
  {
    assert NoBrace(JobLabel[0]);
    assert NoBrace(JobLabel[1]);
  }

  lemma SchemaIntroPlain()
    ensures Plain(SchemaIntro)
  {
    assert NoBrace(SchemaIntro[0]);
    assert NoBrace(SchemaIntro[1]);
    assert NoBrace(SchemaIntro[2]);
    assert NoBrace(SchemaIntro[3]);
    assert NoBrace(SchemaIntro[4]);
  }

  lemma MatchMemberPlain()
    ensures Plain(MatchMember)
  {
    assert NoBrace(MatchMember[0]);
    assert NoBrace(MatchMember[1]);
    assert NoBrace(MatchMember[2]);
    assert NoBrace(MatchMember[3]);
  }

  lemma KeywordsMemberPlain()
    ensures Plain(KeywordsMember)
  {
    assert NoBrace(KeywordsMember[0]);
    assert NoBrace(KeywordsMember[1]);
    assert NoBrace(KeywordsMember[2]);
    assert NoBrace(KeywordsMember[3]);
  }

  lemma SummaryMemberPlain()
    ensures Plain(SummaryMember)
  {
    assert NoBrace(SummaryMember[0]);
    assert NoBrace(SummaryMember[1]);
    assert NoBrace(SummaryMember[2]);
  }

  lemma {:induction false} PlainAppend(a: seq<string>, b: seq<string>)
    requires Plain(a) && Plain(b)
    ensures Plain(a + b)
  {
    forall i | 0 <= i < |a + b| ensures NoBrace((a + b)[i]) {
      if i < |a| {
        assert (a + b)[i] == a[i];
      } else {
        assert (a + b)[i] == b[i - |a|];
      }
    }
  }

  lemma {:induction false} PiecesAppend(a: seq<string>, b: seq<string>)
    requires Pieces(a) && Pieces(b)
    ensures Pieces(a + b)
  {
    forall i | 0 <= i < |a + b| ensures Piece((a + b)[i]) {
      if i < |a| {
        assert (a + b)[i] == a[i];
      } else {
        assert (a + b)[i] == b[i - |a|];
      }
    }
  }

  lemma SchemaBodyPlain()
    ensures Plain(SchemaBody)
  {
    MatchMemberPlain();
    KeywordsMemberPlain();
    SummaryMemberPlain();
    PlainAppend(MatchMember, KeywordsMember);
    PlainAppend(MatchMember + KeywordsMember, SummaryMember);
  }

  lemma InstructionsPlain()
    ensures Plain(Instructions)
  {
    RolePlain();
    TaskPlain();
    MatchItemPlain();
    KeywordsItemPlain();
    SummaryItemPlain();
    ResumeLabelPlain();
    PlainAppend(Role, Task);
    PlainAppend(Role + Task, MatchItem);
    PlainAppend(Role + Task + MatchItem, KeywordsItem);
    PlainAppend(Role + Task + MatchItem + KeywordsItem, SummaryItem);
    PlainAppend(Role + Task + MatchItem + KeywordsItem + SummaryItem, ResumeLabel);
  }

  /** The layout of the template: literal text, the resume field, literal
      text and the job description field ... */
  function Fields(intro: seq<string>, jobLabel: seq<string>): seq<string> {
    intro + ["{resume}"] + jobLabel + ["{jd}"]
  }

  /** ... then literal text and a JSON schema between doubled braces. */
  function Schema(schemaIntro: seq<string>, schemaBody: seq<string>): seq<string> {
    schemaIntro + ["{{"] + schemaBody + ["}}", "\n"]
  }

  function Layout(intro: seq<string>, jobLabel: seq<string>, schemaIntro: seq<string>, schemaBody: seq<string>): seq<string> {
    Fields(intro, jobLabel) + Schema(schemaIntro, schemaBody)
  }

  lemma LayoutWellFormed(intro: seq<string>, jobLabel: seq<string>, schemaIntro: seq<string>, schemaBody: seq<string>)
    requires Plain(intro) && Plain(jobLabel) && Plain(schemaIntro) && Plain(schemaBody)
    ensures Pieces(Layout(intro, jobLabel, schemaIntro, schemaBody))
  {
    assert Pieces(["{resume}"]) && Pieces(["{jd}"]) && Pieces(["{{"]);
    assert Pieces(["}}", "\n"]) by {
      assert NoBrace("\n");
    }
    PiecesAppend(intro, ["{resume}"]);
    PiecesAppend(intro + ["{resume}"], jobLabel);
    PiecesAppend(intro + ["{resume}"] + jobLabel, ["{jd}"]);
    PiecesAppend(schemaIntro, ["{{"]);
    PiecesAppend(schemaIntro + ["{{"], schemaBody);
    PiecesAppend(schemaIntro + ["{{"] + schemaBody, ["}}", "\n"]);
    PiecesAppend(Fields(intro, jobLabel), Schema(schemaIntro, schemaBody));
  }

  lemma RenderedSingle(p: string, resume: string, jd: string)
    ensures Rendered([p], resume, jd) == RenderPiece(p, resume, jd)
  {
    assert [p][1..] == [];
  }

  lemma FieldsRendered(intro: seq<string>, jobLabel: seq<string>, resume: string, jd: string)
    requires Plain(intro) && Plain(jobLabel)
    ensures Rendered(Fields(intro, jobLabel), resume, jd) == Join(intro) + resume + Join(jobLabel) + jd
  {
    RenderedPlain(intro, resume, jd);
    RenderedPlain(jobLabel, resume, jd);
    RenderedSingle("{resume}", resume, jd);
    RenderedSingle("{jd}", resume, jd);
    RenderedAppend(intro, ["{resume}"], resume, jd);
    RenderedAppend(intro + ["{resume}"], jobLabel, resume, jd);
    RenderedAppend(intro + ["{resume}"] + jobLabel, ["{jd}"], resume, jd);
  }

  lemma SchemaRendered(schemaIntro: seq<string>, schemaBody: seq<string>, resume: string, jd: string)
    requires Plain(schemaIntro) && Plain(schemaBody)
    ensures Rendered(Schema(schemaIntro, schemaBody), resume, jd)
         == Join(schemaIntro) + "{" + Join(schemaBody) + "}" + "\n"
  {
    RenderedPlain(schemaIntro, resume, jd);
    RenderedPlain(schemaBody, resume, jd);
    RenderedSingle("{{", resume, jd);
    assert Rendered(["}}", "\n"], resume, jd) == "}" + "\n" by {
      assert ["}}", "\n"][1..] == ["\n"];
      RenderedSingle("\n", resume, jd);
    }
    RenderedAppend(schemaIntro, ["{{"], resume, jd);
    RenderedAppend(schemaIntro + ["{{"], schemaBody, resume, jd);
    RenderedAppend(schemaIntro + ["{{"] + schemaBody, ["}}", "\n"], resume, jd);
  }

  /** The template renders to its fixed text with the resume and the job
      description spliced in, and every doubled brace in it becomes a single
      brace: `str.format` cannot fail on it, whatever the inputs. */
  lemma TemplateRenders(resume: string, jd: string)
    ensures Format(PromptTemplate, resume, jd) == Ok(Prefix + resume + Middle + jd + Suffix)
  {
    InstructionsPlain();
    JobLabelPlain();
    SchemaIntroPlain();
    SchemaBodyPlain();
    LayoutWellFormed(Instructions, JobLabel, SchemaIntro, SchemaBody);
    FieldsRendered(Instructions, JobLabel, resume, jd);
    SchemaRendered(SchemaIntro, SchemaBody, resume, jd);
    RenderedAppend(Fields(Instructions, JobLabel), Schema(SchemaIntro, SchemaBody), resume, jd);
    FormatPieces(TemplatePieces, [], resume, jd);
    assert PromptTemplate + [] == PromptTemplate;
    var r := Rendered(TemplatePieces, resume, jd);
    assert r + [] == r;
  }

  /** The prompt sent to the model for a resume and a job description: the
      template with the two inputs spliced in, each exactly once and as it is. */
  function RenderPrompt(resume: string, jd: string): (prompt: string)
    ensures Format(PromptTemplate, resume, jd) == Ok(prompt)
    ensures prompt == Prefix + resume + Middle + jd + Suffix
  {
    TemplateRenders(resume, jd);
    Prefix + resume + Middle + jd + Suffix
  }
}
