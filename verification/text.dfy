/**
 * Python's notion of whitespace and `str.strip()`.
 *
 * CPython uses one whitespace test for `str.isspace()`, for the `\s` class of
 * a `str` regular expression and for the characters `str.strip()` removes when
 * it is called without arguments; `IsSpace` is that test.
 */
module Text {

  /** The characters for which Python's `str.isspace()` is true: the ASCII
      controls TAB..CR and FS..US, SPACE, NEL, NO-BREAK SPACE, OGHAM SPACE MARK,
      EN QUAD..HAIR SPACE, LINE and PARAGRAPH SEPARATOR, NARROW NO-BREAK SPACE,
      MEDIUM MATHEMATICAL SPACE and IDEOGRAPHIC SPACE. */
  predicate IsSpace(c: char) {
    || ('\t' <= c <= '\r')
    || ('\U{1C}' <= c <= ' ')
    || c == '\U{85}'
    || c == '\U{A0}'
    || c == '\U{1680}'
    || ('\U{2000}' <= c <= '\U{200A}')
    || c == '\U{2028}'
    || c == '\U{2029}'
    || c == '\U{202F}'
    || c == '\U{205F}'
    || c == '\U{3000}'
  }

  predicate AllSpace(s: string) {
    forall i | 0 <= i < |s| :: IsSpace(s[i])
  }

  /** A string with no whitespace at either end: what `str.strip()` returns. */
  predicate Trimmed(s: string) {
    s == [] || (!IsSpace(s[0]) && !IsSpace(s[|s| - 1]))
  }

  /** Length of the longest all-whitespace prefix of `s` (what a greedy `\s*`
      consumes when it starts at the beginning of `s`). */
  function SpaceRun(s: string): (n: nat)
    ensures n <= |s|
    ensures AllSpace(s[..n])
    ensures n < |s| ==> !IsSpace(s[n])
  {
    if s != [] && IsSpace(s[0]) then
      var m := SpaceRun(s[1..]);
      assert s[..1 + m] == [s[0]] + s[1..][..m];
      1 + m
    else
      0
  }

  /** `str.lstrip()` */
  function TrimStart(s: string): (r: string)
    ensures |r| <= |s|
    ensures s == s[..|s| - |r|] + r
    ensures AllSpace(s[..|s| - |r|])
    ensures r == [] || !IsSpace(r[0])
  {
    s[SpaceRun(s)..]
  }

  /** `str.rstrip()` */
  function TrimEnd(s: string): (r: string)
    ensures |r| <= |s|
    ensures s == r + s[|r|..]
    ensures AllSpace(s[|r|..])
    ensures r == [] || !IsSpace(r[|r| - 1])
  {
    if s != [] && IsSpace(s[|s| - 1]) then
      var r := TrimEnd(s[..|s| - 1]);
      TrimEndStep(s, r);
      r
    else
      s
  }

  /** Dropping one trailing whitespace character from `s` and then trimming
      `s[..|s| - 1]` to `r` trims `s` to `r`. */
  lemma TrimEndStep(s: string, r: string)
    requires s != [] && IsSpace(s[|s| - 1])
    requires |r| <= |s| - 1 && s[..|s| - 1] == r + s[..|s| - 1][|r|..]
    requires AllSpace(s[..|s| - 1][|r|..])
    ensures s == r + s[|r|..] && AllSpace(s[|r|..])
  {
    assert s == s[..|s| - 1] + [s[|s| - 1]];
    assert s[|r|..] == s[..|s| - 1][|r|..] + [s[|s| - 1]];
  }

  /** `str.strip()`: `s` is some whitespace, then the result, then some
      whitespace, and the result has no whitespace at either end. */
  function Strip(s: string): (r: string)
    ensures |r| <= |s|
    ensures Trimmed(r)
    ensures SpaceRun(s) + |r| <= |s|
    ensures s == s[..SpaceRun(s)] + r + s[SpaceRun(s) + |r|..]
    ensures AllSpace(s[..SpaceRun(s)]) && AllSpace(s[SpaceRun(s) + |r|..])
  {
    var t := TrimStart(s);
    var r := TrimEnd(t);
    StripParts(s, SpaceRun(s), t, r);
    r
  }

  /** Trimming the front and then the back leaves whitespace, the result and
      whitespace. */
  lemma StripParts(s: string, k: nat, t: string, r: string)
    requires k <= |s| && t == s[k..] && AllSpace(s[..k])
    requires t == [] || !IsSpace(t[0])
    requires |r| <= |t| && t == r + t[|r|..] && AllSpace(t[|r|..])
    requires r == [] || !IsSpace(r[|r| - 1])
    ensures k + |r| <= |s| && Trimmed(r)
    ensures s == s[..k] + r + s[k + |r|..]
    ensures AllSpace(s[k + |r|..])
  {
    assert s[k + |r|..] == t[|r|..];
    assert r != [] ==> r[0] == t[0];
  }

  /** The stripped string is the stretch of `s` after its leading
      whitespace. */
  lemma StripIsSlice(s: string)
    ensures Strip(s) == s[SpaceRun(s)..SpaceRun(s) + |Strip(s)|]
  {
    var k := SpaceRun(s);
    var r := Strip(s);
    assert s == s[..k] + r + s[k + |r|..];
    assert s[k..k + |r|] == (s[..k] + r + s[k + |r|..])[k..k + |r|];
  }

  /** A greedy `\s*` runs through a whitespace prefix and on into what follows. */
  lemma {:induction false} SpaceRunAppend(a: string, b: string)
    requires AllSpace(a)
    ensures SpaceRun(a + b) == |a| + SpaceRun(b)
  {
    if a != [] {
      assert (a + b)[0] == a[0];
      assert (a + b)[1..] == a[1..] + b;
      SpaceRunAppend(a[1..], b);
    } else {
      assert a + b == b;
    }
  }

  /** The leading whitespace run reaches over any all-whitespace prefix ... */
  lemma {:induction false} SpaceRunCovers(s: string, j: nat)
    requires j <= |s| && AllSpace(s[..j])
    ensures j <= SpaceRun(s)
  {
    if j > 0 {
      assert s[..j][0] == s[0];
      assert s[1..][..j - 1] == s[..j][1..];
      SpaceRunCovers(s[1..], j - 1);
    }
  }

  /** ... and stops at the first character that is not whitespace. */
  lemma {:induction false} SpaceRunBound(s: string, j: nat)
    requires j < |s| && !IsSpace(s[j])
    ensures SpaceRun(s) <= j
  {
    if IsSpace(s[0]) {
      assert s[1..][j - 1] == s[j];
      SpaceRunBound(s[1..], j - 1);
    }
  }

  /** The run is exactly the whitespace before the first other character. */
  lemma SpaceRunEndsAt(s: string, j: nat)
    requires j < |s| && !IsSpace(s[j]) && AllSpace(s[..j])
    ensures SpaceRun(s) == j
  {
    SpaceRunBound(s, j);
    SpaceRunCovers(s, j);
  }

  /** Whitespace appended after a string is all that `rstrip` removes of it. */
  lemma {:induction false} TrimEndAppend(c: string, t: string)
    requires AllSpace(t)
    ensures TrimEnd(c + t) == TrimEnd(c)
  {
    if t != [] {
      var s := c + t;
      assert s[..|s| - 1] == c + t[..|t| - 1];
      TrimEndAppend(c, t[..|t| - 1]);
    } else {
      assert c + t == c;
    }
  }

  /** Whitespace around a trimmed core is exactly what `Strip` removes: the
      decomposition in `Strip`'s contract determines its result. */
  lemma StripUnique(lead: string, core: string, trail: string)
    requires AllSpace(lead) && AllSpace(trail) && Trimmed(core)
    ensures Strip(lead + core + trail) == core
  {
    var s := lead + core + trail;
    assert s == lead + (core + trail);
    SpaceRunAppend(lead, core + trail);
    if core == [] {
      assert core + trail == trail;
      SpaceRunAppend(trail, []);
      assert trail + [] == trail;
      assert TrimStart(s) == [];
    } else {
      assert (core + trail)[0] == core[0];
      assert TrimStart(s) == core + trail;
      TrimEndAppend(core, trail);
    }
  }

  /** `str.strip()` leaves a trimmed string alone and is idempotent. */
  lemma StripTrimmed(s: string)
    requires Trimmed(s)
    ensures Strip(s) == s
  {
    StripUnique([], s, []);
    assert [] + s + [] == s;
  }

  lemma StripIdempotent(s: string)
    ensures Strip(Strip(s)) == Strip(s)
  {
    StripTrimmed(Strip(s));
  }

  /** A string is falsy after `.strip()` exactly when it is all whitespace. */
  lemma StripEmptyIff(s: string)
    ensures Strip(s) == [] <==> AllSpace(s)
  {
    if AllSpace(s) {
      StripUnique(s, [], []);
      assert s + [] + [] == s;
    } else {
      var i :| 0 <= i < |s| && !IsSpace(s[i]);
      var n := SpaceRun(s);
      assert i >= n;
      var t := TrimStart(s);
      assert t[i - n] == s[i];
      assert !AllSpace(t);
    }
  }
}
