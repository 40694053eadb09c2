/**
 * The cleaner applied to the model's reply before it is parsed as JSON:
 *
 *   re.sub(r'```json\s*|\s*```', '', response).strip()
 *
 * `re.sub` scans the reply from left to right. At each position it tries the
 * first alternative (the opener "```json" and the whitespace after it), then
 * the second (whitespace and the closer "```"), removes the first match it
 * finds and resumes after it; where nothing matches, it keeps one character
 * and moves on. Neither alternative matches the empty string.
 */
module Fences {
  import opened Text

  const Opener := "```json"
  const Closer := "```"

  /** Text the first alternative, ```json\s*, matches. */
  predicate OpenerMatch(m: string) {
    Opener <= m && AllSpace(m[|Opener|..])
  }

  /** Text the second alternative, \s*```, matches. */
  predicate CloserMatch(m: string) {
    |m| >= |Closer| && AllSpace(m[..|m| - |Closer|]) && m[|m| - |Closer|..] == Closer
  }

  predicate FenceMatch(m: string) {
    OpenerMatch(m) || CloserMatch(m)
  }

  /** Length of the text the pattern matches at the start of `s`, or 0 where it
      does not match. The first alternative is tried first and its `\s*` is
      greedy; the `\s*` of the second alternative can only succeed at its
      longest, since a backtick is not whitespace. */
  function MatchLength(s: string): (n: nat)
    ensures n <= |s|
    ensures n > 0 ==> FenceMatch(s[..n])
  {
    if Opener <= s then
      var n := |Opener| + SpaceRun(s[|Opener|..]);
      assert s[..n][..|Opener|] == Opener;
      assert s[..n][|Opener|..] == s[|Opener|..][..SpaceRun(s[|Opener|..])];
      n
    else
      var w := SpaceRun(s);
      if Closer <= s[w..] then
        assert s[..w + |Closer|][..w] == s[..w];
        assert s[..w + |Closer|][w..] == s[w..][..|Closer|];
        w + |Closer|
      else
        0
  }

  /** What a string that starts with an opener or a closer starts with. */
  lemma FenceStart(t: string)
    ensures Opener <= t ==> |t| >= |Opener| && t[..|Closer|] == Closer
    ensures Closer <= t ==> |t| >= |Closer| && t[0] == '`'
  {
  }

  /** The pattern does not match the empty string. */
  lemma NoEmptyMatch()
    ensures !FenceMatch([])
  {
  }

  /** A prefix of `s` that the first alternative matches ends within the
      whitespace run that follows the opener. */
  lemma OpenerMatchBound(s: string, k: nat)
    requires k <= |s| && OpenerMatch(s[..k])
    ensures Opener <= s
    ensures k <= |Opener| + SpaceRun(s[|Opener|..])
  {
    assert s[..k][..|Opener|] == s[..|Opener|];
    assert s[|Opener|..][..k - |Opener|] == s[..k][|Opener|..];
    SpaceRunCovers(s[|Opener|..], k - |Opener|);
  }

  /** A prefix of `s` that the second alternative matches is the whole leading
      whitespace run of `s` followed by a closer. */
  lemma CloserMatchAt(s: string, k: nat)
    requires k <= |s| && CloserMatch(s[..k])
    ensures k == SpaceRun(s) + |Closer|
    ensures Closer <= s[SpaceRun(s)..]
  {
    CloserMatchParts(s, k);
    RunThenCloserAt(s, k);
  }

  /** `s` starts with whitespace up to position `j`, where a closer begins. */
  predicate RunThenCloser(s: string, j: nat) {
    j < |s| && !IsSpace(s[j]) && AllSpace(s[..j]) && Closer <= s[j..]
  }

  lemma RunThenCloserAt(s: string, k: nat)
    requires |Closer| <= k && RunThenCloser(s, k - |Closer|)
    ensures k == SpaceRun(s) + |Closer|
    ensures Closer <= s[SpaceRun(s)..]
  {
    SpaceRunEndsAt(s, k - |Closer|);
  }

  lemma CloserSuffix(s: string, k: nat)
    requires |Closer| <= k <= |s| && s[..k][k - |Closer|..] == Closer
    ensures Closer <= s[k - |Closer|..]
  {
    assert s[k - |Closer|..][..|Closer|] == s[..k][k - |Closer|..];
  }

  /** A prefix the second alternative matches: whitespace up to a closer. */
  lemma CloserMatchParts(s: string, k: nat)
    requires k <= |s| && CloserMatch(s[..k])
    ensures |Closer| <= k && RunThenCloser(s, k - |Closer|)
  {
    var m := s[..k];
    var j := k - |Closer|;
    assert m[j..][0] == '`';
    assert s[..j] == m[..j];
    CloserSuffix(s, k);
  }

  /** No match starts at a character other than a backtick whose whitespace
      run, if any, is not followed by a backtick either. */
  lemma NoMatchHere(s: string)
    requires s != [] && s[0] != '`'
    requires SpaceRun(s) == |s| || s[SpaceRun(s)] != '`'
    ensures MatchLength(s) == 0
  {
    FenceStart(s);
    var w := SpaceRun(s);
    FenceStart(s[w..]);
  }

  /** `MatchLength` finds every match: it is zero exactly when no non-empty
      prefix of `s` matches, and otherwise the longest matching prefix. */
  lemma MatchLengthLongest(s: string, k: nat)
    requires k <= |s| && FenceMatch(s[..k])
    ensures 0 < k <= MatchLength(s)
  {
    NoEmptyMatch();
    if OpenerMatch(s[..k]) {
      OpenerMatchBound(s, k);
    } else {
      CloserMatchAt(s, k);
      if Opener <= s {
        assert s[0] == '`';
        assert SpaceRun(s) == 0;
      }
    }
  }

  /** Where the first alternative can match, it is the one chosen. */
  lemma MatchLengthPrefersOpener(s: string, k: nat)
    requires k <= |s| && OpenerMatch(s[..k])
    ensures OpenerMatch(s[..MatchLength(s)])
  {
    OpenerMatchBound(s, k);
    var n := MatchLength(s);
    assert s[..n][..|Opener|] == Opener;
    assert s[..n][|Opener|..] == s[|Opener|..][..n - |Opener|];
  }

  /** `re.sub(r'```json\s*|\s*```', '', s)` */
  function StripFences(s: string): (r: string)
    ensures |r| <= |s|
    decreases |s|
  {
    if s == [] then
      []
    else
      var n := MatchLength(s);
      if n > 0 then StripFences(s[n..]) else [s[0]] + StripFences(s[1..])
  }

  /** One step of the scan where nothing matches ... */
  lemma StripFencesKeeps(s: string)
    requires s != [] && MatchLength(s) == 0
    ensures StripFences(s) == [s[0]] + StripFences(s[1..])
  {
  }

  /** ... and one where a match is removed. */
  lemma StripFencesRemoves(s: string)
    requires MatchLength(s) > 0
    ensures StripFences(s) == StripFences(s[MatchLength(s)..])
  {
  }

  /** The reply as it is handed to `json.loads`. */
  function CleanResponse(s: string): (r: string)
    ensures |r| <= |s|
    ensures Trimmed(r)
    ensures Significant(r) == Significant(s)
  {
    KeepsSignificant(s);
    StripKeepsSignificant(StripFences(s));
    Strip(StripFences(s))
  }

  // ----- what the cleaner keeps -----------------------------------------

  /** The only characters a match can consist of. */
  predicate Removable(c: char) {
    IsSpace(c) || c == '`' || c == 'j' || c == 's' || c == 'o' || c == 'n'
  }

  /** The characters of `s` that no match can remove, in order. */
  function Significant(s: string): string {
    if s == [] then [] else (if Removable(s[0]) then [] else [s[0]]) + Significant(s[1..])
  }

  lemma {:induction false} SignificantAppend(a: string, b: string)
    ensures Significant(a + b) == Significant(a) + Significant(b)
  {
    if a == [] {
      assert a + b == b;
    } else {
      assert (a + b)[0] == a[0];
      assert (a + b)[1..] == a[1..] + b;
      SignificantAppend(a[1..], b);
    }
  }

  lemma {:induction false} SignificantOfRemovable(s: string)
    requires forall i | 0 <= i < |s| :: Removable(s[i])
    ensures Significant(s) == []
  {
    if s != [] {
      SignificantOfRemovable(s[1..]);
    }
  }

  lemma MatchIsRemovable(s: string)
    requires MatchLength(s) > 0
    ensures Significant(s[..MatchLength(s)]) == []
  {
    var m := s[..MatchLength(s)];
    if OpenerMatch(m) {
      OpenerMatchRemovable(m);
    } else {
      CloserMatchRemovable(m);
    }
    SignificantOfRemovable(m);
  }

  lemma OpenerMatchRemovable(m: string)
    requires OpenerMatch(m)
    ensures forall i | 0 <= i < |m| :: Removable(m[i])
  {
    forall i | 0 <= i < |m| ensures Removable(m[i]) {
      if i < |Opener| {
        assert m[i] == Opener[i];
      } else {
        assert m[i] == m[|Opener|..][i - |Opener|];
      }
    }
  }

  lemma CloserMatchRemovable(m: string)
    requires CloserMatch(m)
    ensures forall i | 0 <= i < |m| :: Removable(m[i])
  {
    var k := |m| - |Closer|;
    forall i | 0 <= i < |m| ensures Removable(m[i]) {
      if i < k {
        assert m[i] == m[..k][i];
      } else {
        assert m[i] == m[k..][i - k];
      }
    }
  }

  /** Every character that is neither whitespace, a backtick nor one of the
      letters of "json" survives the substitution, in its original order. */
  lemma {:induction false} KeepsSignificant(s: string)
    ensures Significant(StripFences(s)) == Significant(s)
    decreases |s|
  {
    if s != [] {
      var n := MatchLength(s);
      if n > 0 {
        assert s == s[..n] + s[n..];
        SignificantAppend(s[..n], s[n..]);
        MatchIsRemovable(s);
        KeepsSignificant(s[n..]);
      } else {
        KeepsSignificant(s[1..]);
        SignificantAppend([s[0]], StripFences(s[1..]));
        assert s == [s[0]] + s[1..];
        SignificantAppend([s[0]], s[1..]);
      }
    }
  }

  lemma StripKeepsSignificant(s: string)
    ensures Significant(Strip(s)) == Significant(s)
  {
    var n := SpaceRun(s);
    var r := Strip(s);
    SignificantOfRemovable(s[..n]);
    SignificantOfRemovable(s[n + |r|..]);
    SignificantAppend(s[..n], r);
    SignificantAppend(s[..n] + r, s[n + |r|..]);
  }

  /** The substitution only deletes characters: its result is a subsequence of
      its input. */
  predicate Subsequence(r: string, s: string)
    decreases |s|
  {
    if r == [] then true
    else if s == [] then false
    else (r[0] == s[0] && Subsequence(r[1..], s[1..])) || Subsequence(r, s[1..])
  }

  lemma {:induction false} SubsequenceOfLonger(r: string, p: string, t: string)
    requires Subsequence(r, t)
    ensures Subsequence(r, p + t)
    decreases |p|
  {
    if p != [] {
      assert (p + t)[1..] == p[1..] + t;
      SubsequenceOfLonger(r, p[1..], t);
    } else {
      assert p + t == t;
    }
  }

  lemma {:induction false} StripFencesDeletesOnly(s: string)
    ensures Subsequence(StripFences(s), s)
    decreases |s|
  {
    if s != [] {
      var n := MatchLength(s);
      if n > 0 {
        StripFencesDeletesOnly(s[n..]);
        StripFencesRemoves(s);
        SubsequenceSkip(StripFences(s), s, n);
      } else {
        StripFencesDeletesOnly(s[1..]);
        StripFencesKeeps(s);
        SubsequenceKeep(StripFences(s[1..]), s);
      }
    }
  }

  lemma SubsequenceSkip(r: string, s: string, n: nat)
    requires n <= |s| && Subsequence(r, s[n..])
    ensures Subsequence(r, s)
  {
    assert s == s[..n] + s[n..];
    SubsequenceOfLonger(r, s[..n], s[n..]);
  }

  lemma SubsequenceKeep(r: string, s: string)
    requires s != [] && Subsequence(r, s[1..])
    ensures Subsequence([s[0]] + r, s)
  {
    var x := [s[0]] + r;
    assert x[0] == s[0] && x[1..] == r;
  }

  // ----- replies without fences -----------------------------------------

  predicate CloserAt(s: string, i: int) {
    0 <= i <= |s| - |Closer| && s[i..i + |Closer|] == Closer
  }

  predicate HasCloser(s: string) {
    exists i | 0 <= i <= |s| - |Closer| :: CloserAt(s, i)
  }

  /** Without a "```" anywhere, nothing matches and nothing is removed. */
  lemma {:induction false} NoFenceUnchanged(s: string)
    requires !HasCloser(s)
    ensures StripFences(s) == s
    decreases |s|
  {
    if s != [] {
      FenceStart(s);
      assert !CloserAt(s, 0);
      var w := SpaceRun(s);
      FenceStart(s[w..]);
      assert !CloserAt(s, w);
      assert MatchLength(s) == 0;
      assert !HasCloser(s[1..]) by {
        forall i | 0 <= i <= |s[1..]| - |Closer| ensures !CloserAt(s[1..], i) {
          assert s[1..][i..i + |Closer|] == s[i + 1..i + 1 + |Closer|];
          assert !CloserAt(s, i + 1);
        }
      }
      NoFenceUnchanged(s[1..]);
      assert s == [s[0]] + s[1..];
    }
  }

  /** A reply without "```" is cleaned exactly by trimming it. */
  lemma NoFenceCleanIsStrip(s: string)
    requires !HasCloser(s)
    ensures CleanResponse(s) == Strip(s)
  {
    NoFenceUnchanged(s);
  }

  // ----- fenced replies ---------------------------------------------------

  predicate NoBacktick(s: string) {
    forall i | 0 <= i < |s| :: s[i] != '`'
  }

  /** Text without backticks that does not end in whitespace. */
  predicate PlainEnd(t: string) {
    NoBacktick(t) && (t == [] || !IsSpace(t[|t| - 1]))
  }

  /** No match starts at the first character of text without backticks
      that does not end in whitespace. */
  lemma PlainHead(t: string, u: string)
    requires t != [] && NoBacktick(t) && !IsSpace(t[|t| - 1])
    ensures MatchLength(t + u) == 0
  {
    var s := t + u;
    assert s[0] == t[0];
    assert s[|t| - 1] == t[|t| - 1];
    SpaceRunBound(s, |t| - 1);
    assert s[SpaceRun(s)] == t[SpaceRun(s)];
    NoMatchHere(s);
  }

  lemma ConsAppend(c: char, a: string, b: string)
    ensures [c] + (a + b) == ([c] + a) + b
  {
  }

  lemma PlainStep(t: string, u: string)
    requires t != [] && NoBacktick(t) && !IsSpace(t[|t| - 1])
    ensures StripFences(t + u) == [t[0]] + StripFences(t[1..] + u)
  {
    var s := t + u;
    PlainHead(t, u);
    StripFencesKeeps(s);
    assert s[0] == t[0];
    assert s[1..] == t[1..] + u;
  }

  /** Text without backticks that does not end in whitespace passes through
      untouched: no match can start inside it. */
  lemma {:induction false} PlainPrefix(t: string, u: string)
    requires NoBacktick(t)
    requires t == [] || !IsSpace(t[|t| - 1])
    ensures StripFences(t + u) == t + StripFences(u)
    decreases |t|
  {
    if t == [] {
      assert t + u == u;
    } else {
      PlainTail(t);
      PlainPrefix(t[1..], u);
      PlainStep(t, u);
      ConsAppend(t[0], t[1..], StripFences(u));
    }
  }

  lemma PlainTail(t: string)
    requires t != [] && NoBacktick(t) && !IsSpace(t[|t| - 1])
    ensures NoBacktick(t[1..])
    ensures t[1..] == [] || !IsSpace(t[1..][|t[1..]| - 1])
    ensures [t[0]] + t[1..] == t
  {
    var t' := t[1..];
    forall i | 0 <= i < |t'| ensures t'[i] != '`' {
      assert t'[i] == t[i + 1];
    }
    assert t' == [] || t'[|t'| - 1] == t[|t| - 1];
  }

  /** Whitespace and a closing fence are removed as one match. */
  lemma CloserAlone(w: string)
    requires AllSpace(w)
    ensures StripFences(w + Closer) == []
  {
    var s := w + Closer;
    FenceStart(s);
    SpaceRunAppend(w, Closer);
    assert SpaceRun(Closer) == 0;
    assert s[|w|..] == Closer;
    assert MatchLength(s) == |s|;
    StripFencesRemoves(s);
  }

  /** The opener and all the whitespace after it form one match. */
  lemma OpenerRemoved(ws: string, rest: string)
    requires AllSpace(ws)
    requires rest == [] || !IsSpace(rest[0])
    ensures StripFences(Opener + ws + rest) == StripFences(rest)
  {
    var s := Opener + ws + rest;
    assert s[..|Opener|] == Opener;
    assert s[|Opener|..] == ws + rest;
    SpaceRunAppend(ws, rest);
    assert SpaceRun(rest) == 0;
    assert MatchLength(s) == |Opener| + |ws|;
    assert s[|Opener| + |ws|..] == rest;
    StripFencesRemoves(s);
  }

  lemma EmptyFencedStripped(ws: string)
    requires AllSpace(ws)
    ensures StripFences(Opener + ws + Closer) == []
  {
    OpenerRemoved(ws, Closer);
    CloserAlone([]);
    assert [] + Closer == Closer;
  }

  lemma NonEmptyFencedStripped(w1: string, payload: string, w2: string)
    requires AllSpace(w1) && AllSpace(w2)
    requires Trimmed(payload) && NoBacktick(payload) && payload != []
    ensures StripFences(Opener + w1 + (payload + (w2 + Closer))) == payload
  {
    var x := payload + (w2 + Closer);
    assert x[0] == payload[0];
    OpenerRemoved(w1, x);
    PlainThenCloser(payload, w2);
  }

  /** Text without backticks that does not end in whitespace, then whitespace
      and a closer: the text stays and the rest is one match. */
  lemma PlainThenCloser(t: string, w: string)
    requires PlainEnd(t) && AllSpace(w)
    ensures StripFences(t + (w + Closer)) == t
  {
    PlainPrefix(t, w + Closer);
    CloserAlone(w);
    assert t + [] == t;
  }

  lemma Regroup(w1: string, payload: string, w2: string)
    ensures Opener + w1 + payload + w2 + Closer == Opener + w1 + (payload + (w2 + Closer))
    ensures payload == [] ==> Opener + w1 + payload + w2 + Closer == Opener + (w1 + w2) + Closer
  {
  }

  /** The substitution alone: both fences go, with the whitespace inside them. */
  lemma FencedStripped(w1: string, payload: string, w2: string)
    requires AllSpace(w1) && AllSpace(w2)
    requires Trimmed(payload) && NoBacktick(payload)
    ensures StripFences(Opener + w1 + payload + w2 + Closer) == payload
  {
    if payload == [] {
      assert AllSpace(w1 + w2);
      EmptyFencedStripped(w1 + w2);
      Regroup(w1, payload, w2);
    } else {
      NonEmptyFencedStripped(w1, payload, w2);
      Regroup(w1, payload, w2);
    }
  }

  /** A reply fenced as a JSON block cleans to exactly its payload, whatever
      whitespace surrounds the payload inside the fences. */
  lemma FencedPayload(w1: string, payload: string, w2: string)
    requires AllSpace(w1) && AllSpace(w2)
    requires Trimmed(payload) && NoBacktick(payload)
    ensures CleanResponse(Opener + w1 + payload + w2 + Closer) == payload
  {
    FencedStripped(w1, payload, w2);
    StripTrimmed(payload);
  }

  /** Whitespace then a trimmed payload: no backticks, and no whitespace at
      the end. */
  lemma SpacedPayload(w1: string, payload: string)
    requires AllSpace(w1) && Trimmed(payload) && NoBacktick(payload) && payload != []
    ensures PlainEnd(w1 + payload)
  {
    forall i | 0 <= i < |w1 + payload| ensures (w1 + payload)[i] != '`' {
      if i < |w1| {
        assert (w1 + payload)[i] == w1[i];
        assert IsSpace(w1[i]);
      } else {
        assert (w1 + payload)[i] == payload[i - |w1|];
      }
    }
    assert (w1 + payload)[|w1 + payload| - 1] == payload[|payload| - 1];
  }

  /** An untagged fence: "```", whitespace, a trimmed payload without
      backticks, whitespace and "```" clean to exactly the payload. The
      whitespace after the first fence must not be empty, or a payload
      starting with "json" would be read as the tag. */
  lemma UntaggedFencedPayload(w1: string, payload: string, w2: string)
    requires AllSpace(w1) && w1 != [] && AllSpace(w2)
    requires Trimmed(payload) && NoBacktick(payload) && payload != []
    ensures CleanResponse(Closer + w1 + payload + w2 + Closer) == payload
  {
    UntaggedFencedStripped(w1, payload, w2);
    StripUnique(w1, payload, []);
    assert w1 + payload + [] == w1 + payload;
  }

  lemma UntaggedFencedStripped(w1: string, payload: string, w2: string)
    requires AllSpace(w1) && w1 != [] && AllSpace(w2)
    requires Trimmed(payload) && NoBacktick(payload) && payload != []
    ensures StripFences(Closer + w1 + payload + w2 + Closer) == w1 + payload
  {
    var rest := (w1 + payload) + (w2 + Closer);
    assert Closer + w1 + payload + w2 + Closer == Closer + rest;
    assert rest[0] == w1[0];
    BareCloserRemoved(rest);
    SpacedPayload(w1, payload);
    PlainThenCloser(w1 + payload, w2);
  }

  /** "```" followed by whitespace is a match of the second alternative on
      its own: the first needs "json" right after the backticks. */
  lemma BareCloserRemoved(rest: string)
    requires rest != [] && IsSpace(rest[0])
    ensures StripFences(Closer + rest) == StripFences(rest)
  {
    BareCloserMatch(rest);
    StripFencesRemoves(Closer + rest);
  }

  lemma BareCloserMatch(rest: string)
    requires rest != [] && IsSpace(rest[0])
    ensures MatchLength(Closer + rest) == |Closer|
    ensures (Closer + rest)[|Closer|..] == rest
  {
    var s := Closer + rest;
    assert s[|Closer|] == rest[0];
    FenceStart(s);
    assert s[..|Closer|] == Closer;
  }

  /** Fence removal is not limited to the ends of the reply: whitespace and
      "```" inside the text are removed too, whatever follows them. */
  lemma InteriorCloserRemoved(p: string, w: string, q: string)
    requires PlainEnd(p) && AllSpace(w) && w != []
    ensures StripFences(p + (w + Closer + q)) == p + StripFences(q)
  {
    PlainPrefix(p, w + Closer + q);
    SpacedCloserRemoved(w, q);
  }

  /** Non-empty whitespace and "```" form one match, whatever follows. */
  lemma SpacedCloserRemoved(w: string, q: string)
    requires AllSpace(w) && w != []
    ensures StripFences(w + Closer + q) == StripFences(q)
  {
    var s := w + Closer + q;
    assert s[0] == w[0];
    FenceStart(s);
    assert s == w + (Closer + q);
    SpaceRunAppend(w, Closer + q);
    assert SpaceRun(Closer + q) == 0;
    assert s[|w|..] == Closer + q;
    assert MatchLength(s) == |w| + |Closer|;
    assert s[|w| + |Closer|..] == q;
    StripFencesRemoves(s);
  }

  // ----- what the pattern does not do ---------------------------------------

  /** Whitespace before an opener is taken by the second alternative, which
      removes only that whitespace and the backticks: "json" stays. */
  lemma SpaceBeforeOpenerKeepsJson(w: string, rest: string)
    requires AllSpace(w) && w != []
    ensures StripFences(w + Opener + rest) == "json" + StripFences(rest)
  {
    var s := w + Opener + rest;
    SpaceBeforeOpenerMatch(w, rest);
    StripFencesRemoves(s);
    TagsPlain();
    PlainPrefix("json", rest);
  }

  /** The two spellings of the tag hold no backticks and end in a letter. */
  lemma TagsPlain()
    ensures NoBacktick("json") && !IsSpace("json"[|"json"| - 1])
    ensures NoBacktick("JSON") && !IsSpace("JSON"[|"JSON"| - 1])
  {
  }

  /** The match at whitespace before an opener ends after the backticks. */
  lemma SpaceBeforeOpenerMatch(w: string, rest: string)
    requires AllSpace(w) && w != []
    ensures MatchLength(w + Opener + rest) == |w| + |Closer|
    ensures (w + Opener + rest)[|w| + |Closer|..] == "json" + rest
  {
    var s := w + Opener + rest;
    assert s[0] == w[0];
    FenceStart(s);
    assert s == w + (Opener + rest);
    SpaceRunAppend(w, Opener + rest);
    assert SpaceRun(Opener + rest) == 0;
    assert s[|w|..] == Opener + rest;
  }

  /** The opener is matched case-sensitively: an upper-case language tag is
      left in place and only its backticks are removed. */
  lemma UpperCaseTagKept(rest: string)
    ensures StripFences("```JSON" + rest) == "JSON" + StripFences(rest)
  {
    var s := "```JSON" + rest;
    assert s[3] == 'J';
    assert !(Opener <= s);
    assert SpaceRun(s) == 0;
    assert Closer <= s;
    assert MatchLength(s) == |Closer|;
    assert s[|Closer|..] == "JSON" + rest;
    TagsPlain();
    PlainPrefix("JSON", rest);
  }
}
