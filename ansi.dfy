/** The colour-code removal both git-log folders apply before comparing graph
    prefixes: `re.sub(pattern, "", s)` where the pattern is ESC, an
    introducer, a run of parameter characters and a closing `m`.
    git_compress.py uses `\x1b\[[0-9;]*m`: the introducer `[` (an ANSI SGR
    sequence) and the class `[0-9;]`. graphfold.py writes `\x1b\\[[0-9;]*m`
    in a raw string: the introducer is a literal backslash, and the class that
    follows is `[[0-9;]`, which also admits `[`. */
module Ansi {

  const Esc: char := '\U{1B}'

  /** The part of a pattern after ESC: the introducer, and whether `[` is a
      parameter character besides the digits and `;`. */
  datatype Pattern = Pattern(introducer: char, bracketParam: bool)

  /** git_compress.py's `\x1b\[[0-9;]*m`. */
  const SgrPattern: Pattern := Pattern('[', false)

  /** graphfold.py's `\x1b\\[[0-9;]*m`: ESC, backslash, then `[[0-9;]*m`. */
  const BackslashPattern: Pattern := Pattern('\\', true)

  /** The pattern's parameter class: [0-9;], or [[0-9;] for graphfold.py. */
  predicate ParamChar(p: Pattern, c: char) {
    '0' <= c <= '9' || c == ';' || (p.bracketParam && c == '[')
  }

  /** The end of the run of parameter characters that starts at i. */
  function ParamEnd(p: Pattern, s: string, i: nat): (k: nat)
    requires i <= |s|
    ensures i <= k <= |s|
    ensures forall j :: i <= j < k ==> ParamChar(p, s[j])
    ensures k == |s| || !ParamChar(p, s[k])
    decreases |s| - i
  {
    if i < |s| && ParamChar(p, s[i]) then ParamEnd(p, s, i + 1) else i
  }

  /** The length of the pattern's match at the front of s, or 0 when it does
      not match there. The greedy run of parameters can only be followed by
      `m` at its end, since `m` is not a parameter character, so no
      backtracking can find another match. */
  function CodeLength(s: string, p: Pattern): (n: nat)
    ensures n == 0 || 3 <= n <= |s|
  {
    if |s| >= 2 && s[0] == Esc && s[1] == p.introducer then
      var k := ParamEnd(p, s, 2);
      if k < |s| && s[k] == 'm' then k + 1 else 0
    else 0
  }

  /** re.sub: scan left to right; a match is dropped, any other character is
      kept and the scan moves one character on. */
  function StripCodes(s: string, p: Pattern): (r: string)
    ensures |r| <= |s|
    decreases |s|
  {
    if s == [] then []
    else
      var n := CodeLength(s, p);
      if n > 0 then StripCodes(s[n..], p)
      else [s[0]] + StripCodes(s[1..], p)
  }

  /** One escape sequence with the given parameters. */
  function Code(introducer: char, params: string): string {
    [Esc, introducer] + params + "m"
  }

  /** Text without ESC is left alone. */
  lemma {:induction false} StripCodesPlain(s: string, p: Pattern)
    requires Esc !in s
    ensures StripCodes(s, p) == s
    decreases |s|
  {
    if s != [] {
      assert s[0] != Esc;
      StripCodesPlain(s[1..], p);
    }
  }

  /** A well-formed sequence at the front is removed. */
  lemma {:induction false} StripCodesDropsCode(p: Pattern, params: string, t: string)
    requires forall j :: 0 <= j < |params| ==> ParamChar(p, params[j])
    ensures StripCodes(Code(p.introducer, params) + t, p) == StripCodes(t, p)
  {
    var s := Code(p.introducer, params) + t;
    var k := |params| + 2;
    assert forall j :: 2 <= j < k ==> s[j] == params[j - 2];
    assert s[k] == 'm';
    assert ParamEnd(p, s, 2) == k by {
      ParamEndAt(p, s, 2, k);
    }
    assert s[k + 1..] == t;
  }

  lemma {:induction false} ParamEndAt(p: Pattern, s: string, i: nat, k: nat)
    requires i <= k < |s|
    requires forall j :: i <= j < k ==> ParamChar(p, s[j])
    requires !ParamChar(p, s[k])
    ensures ParamEnd(p, s, i) == k
    decreases k - i
  {
    if i < k {
      ParamEndAt(p, s, i + 1, k);
    }
  }

  /** With a backslash as introducer, an ordinary colour sequence ESC [ ... m
      is not a match: it is kept, character for character. */
  lemma {:induction false} BackslashPatternKeepsColour(params: string, t: string)
    requires forall j :: 0 <= j < |params| ==> ParamChar(SgrPattern, params[j])
    requires Esc !in t
    ensures StripCodes(Code('[', params) + t, BackslashPattern) == Code('[', params) + t
  {
    var s := Code('[', params) + t;
    assert s[1] == '[';
    assert CodeLength(s, BackslashPattern) == 0;
    assert Esc !in s[1..] by {
      assert forall j :: 0 <= j < |params| ==> params[j] != Esc;
      assert s[1..] == ['['] + params + "m" + t;
    }
    StripCodesPlain(s[1..], BackslashPattern);
  }

  /** What graphfold.py's pattern does remove: ESC, a backslash, then `[`
      and digits or `;` (the bracket belongs to the class), then `m`. */
  lemma {:induction false} BackslashPatternDropsEscapedCode(params: string, t: string)
    requires forall j :: 0 <= j < |params| ==> ParamChar(SgrPattern, params[j])
    ensures StripCodes(Code('\\', "[" + params) + t, BackslashPattern) == StripCodes(t, BackslashPattern)
  {
    var ps := "[" + params;
    assert forall j :: 0 <= j < |ps| ==> ParamChar(BackslashPattern, ps[j]) by {
      forall j | 0 <= j < |ps|
        ensures ParamChar(BackslashPattern, ps[j])
      {
        if j > 0 {
          assert ps[j] == params[j - 1];
        }
      }
    }
    StripCodesDropsCode(BackslashPattern, ps, t);
  }
}
