/** Python's built-in string operations used across the scripts: str.isspace,
    strip/lstrip/rstrip, split() without arguments, sep.join, str(int) and
    reading digits back, str.upper and str.lower (ASCII letters), the
    character classes the scripts' patterns use, startswith/endswith,
    replace, and the code-point order of `<` on str. */
module Strings {

  /** str.isspace() for one character: the set str.split(), str.strip() and the
      regular-expression class \s treat as whitespace. */
  predicate IsSpace(c: char) {
    || c == ' '
    || ('\t' <= c <= '\r')
    || ('\U{1C}' <= c <= '\U{1F}')
    || c == '\U{85}' || c == '\U{A0}' || c == '\U{1680}'
    || ('\U{2000}' <= c <= '\U{200A}')
    || c == '\U{2028}' || c == '\U{2029}' || c == '\U{202F}' || c == '\U{205F}'
    || c == '\U{3000}'
  }

  predicate NoSpace(s: string) {
    forall i :: 0 <= i < |s| ==> !IsSpace(s[i])
  }

  /** s.lstrip(): s without its maximal leading run of whitespace. */
  function LStrip(s: string): (r: string)
    ensures |r| <= |s| && r == s[|s| - |r|..]
    ensures r == [] || !IsSpace(r[0])
    ensures forall i :: 0 <= i < |s| - |r| ==> IsSpace(s[i])
  {
    if s != [] && IsSpace(s[0]) then LStrip(s[1..]) else s
  }

  /** s.rstrip(): s without its maximal trailing run of whitespace. */
  function RStrip(s: string): (r: string)
    ensures |r| <= |s| && r == s[..|r|]
    ensures r == [] || !IsSpace(r[|r| - 1])
    ensures forall i :: |r| <= i < |s| ==> IsSpace(s[i])
  {
    if s != [] && IsSpace(s[|s| - 1]) then RStrip(s[..|s| - 1]) else s
  }

  /** s.strip() */
  function Strip(s: string): (r: string)
    ensures |r| <= |s|
    ensures r == [] || (!IsSpace(r[0]) && !IsSpace(r[|r| - 1]))
  {
    RStrip(LStrip(s))
  }

  /** Index of the first whitespace character at or after i (or |s|). */
  function TokenEnd(s: string, i: nat): (k: nat)
    requires i <= |s|
    ensures i <= k <= |s|
    ensures NoSpace(s[i..k])
    ensures k == |s| || IsSpace(s[k])
    decreases |s| - i
  {
    if i == |s| || IsSpace(s[i]) then i else TokenEnd(s, i + 1)
  }

  /** s.split() with no argument: the maximal runs of non-whitespace, in order. */
  function Words(s: string): (ws: seq<string>)
    ensures forall k :: 0 <= k < |ws| ==> ws[k] != [] && NoSpace(ws[k])
    decreases |s|
  {
    if s == [] then []
    else if IsSpace(s[0]) then Words(s[1..])
    else
      var k := TokenEnd(s, 0);
      [s[..k]] + Words(s[k..])
  }

  /** sep.join(ws) */
  function Join(ws: seq<string>, sep: string): string {
    if ws == [] then []
    else if |ws| == 1 then ws[0]
    else ws[0] + sep + Join(ws[1..], sep)
  }

  /** " ".join(s.split()): whitespace collapsed to single spaces, ends stripped. */
  function Collapse(s: string): string {
    Join(Words(s), " ")
  }

  lemma {:induction false} JoinSnoc(ws: seq<string>, w: string, sep: string)
    requires ws != []
    ensures Join(ws + [w], sep) == Join(ws, sep) + sep + w
    decreases |ws|
  {
    if |ws| == 1 {
      assert ws + [w] == [ws[0], w];
    } else {
      assert (ws + [w])[1..] == ws[1..] + [w];
      JoinSnoc(ws[1..], w, sep);
    }
  }

  /** A character found in neither the parts nor the separator is not in
      their join. */
  lemma {:induction false} JoinAvoids(ws: seq<string>, sep: string, c: char)
    requires c !in sep
    requires forall k :: 0 <= k < |ws| ==> c !in ws[k]
    ensures c !in Join(ws, sep)
    decreases |ws|
  {
    if |ws| > 1 {
      JoinAvoids(ws[1..], sep, c);
      assert c !in ws[0];
    }
  }

  /** Every character of a space-joined list of words is a space or a character
      of one of the words. */
  lemma {:induction false} JoinedCharacters(ws: seq<string>, i: nat)
    requires i < |Join(ws, " ")|
    ensures Join(ws, " ")[i] == ' ' || exists k, j :: 0 <= k < |ws| && 0 <= j < |ws[k]| && ws[k][j] == Join(ws, " ")[i]
    decreases |ws|
  {
    if |ws| == 1 {
      assert ws[0][i] == Join(ws, " ")[i];
    } else if i < |ws[0]| {
      assert ws[0][i] == Join(ws, " ")[i];
    } else if i > |ws[0]| {
      var i' := i - |ws[0]| - 1;
      assert Join(ws, " ")[i] == Join(ws[1..], " ")[i'];
      JoinedCharacters(ws[1..], i');
      if Join(ws[1..], " ")[i'] != ' ' {
        var k, j :| 0 <= k < |ws[1..]| && 0 <= j < |ws[1..][k]| && ws[1..][k][j] == Join(ws[1..], " ")[i'];
        assert ws[k + 1][j] == Join(ws, " ")[i];
      }
    }
  }

  /** A collapsed string holds no whitespace other than the plain space, and so
      no newline. */
  lemma {:induction false} CollapseHasOnlyPlainSpaces(s: string)
    ensures forall i :: 0 <= i < |Collapse(s)| ==> Collapse(s)[i] == ' ' || !IsSpace(Collapse(s)[i])
  {
    var ws := Words(s);
    forall i | 0 <= i < |Collapse(s)|
      ensures Collapse(s)[i] == ' ' || !IsSpace(Collapse(s)[i])
    {
      JoinedCharacters(ws, i);
    }
  }

  lemma {:induction false} WordsOfWordThenRest(w: string, rest: string)
    requires w != [] && NoSpace(w)
    requires rest == [] || IsSpace(rest[0])
    ensures Words(w + rest) == [w] + Words(rest)
  {
    var s := w + rest;
    assert s[0..|w|] == w;
    TokenEndIsFirstSpace(s, 0, |w|);
    assert s[|w|..] == rest;
  }

  /** TokenEnd is determined by its two postconditions. */
  lemma {:induction false} TokenEndIsFirstSpace(s: string, i: nat, k: nat)
    requires i <= k <= |s|
    requires NoSpace(s[i..k])
    requires k == |s| || IsSpace(s[k])
    ensures TokenEnd(s, i) == k
    decreases |s| - i
  {
    if i < k {
      assert s[i] == s[i..k][0];
      assert s[i + 1..k] == s[i..k][1..];
      TokenEndIsFirstSpace(s, i + 1, k);
    }
  }

  /** Splitting a space-joined list of words gives the words back. */
  lemma {:induction false} WordsOfJoin(ws: seq<string>)
    requires forall k :: 0 <= k < |ws| ==> ws[k] != [] && NoSpace(ws[k])
    ensures Words(Join(ws, " ")) == ws
    decreases |ws|
  {
    if ws == [] {
    } else if |ws| == 1 {
      WordsOfWordThenRest(ws[0], []);
      assert ws[0] + [] == ws[0];
    } else {
      var rest := " " + Join(ws[1..], " ");
      assert Join(ws, " ") == ws[0] + rest;
      WordsOfWordThenRest(ws[0], rest);
      assert rest[1..] == Join(ws[1..], " ");
      WordsOfJoin(ws[1..]);
    }
  }

  /** Collapsing is idempotent: the words of the collapsed text are the words of
      the text. */
  lemma {:induction false} CollapseKeepsWords(s: string)
    ensures Words(Collapse(s)) == Words(s)
    ensures Collapse(Collapse(s)) == Collapse(s)
  {
    WordsOfJoin(Words(s));
  }

  /** str(n) for a natural number. */
  function Decimal(n: nat): (r: string)
    ensures r != [] && AllDigits(r)
    ensures n < 10 <==> |r| == 1
    ensures 10 <= n < 100 <==> |r| == 2
  {
    if n < 10 then [Digit(n)] else Decimal(n / 10) + [Digit(n % 10)]
  }

  /** str(i) for an integer. */
  function IntToString(i: int): string {
    if i < 0 then "-" + Decimal(-i) else Decimal(i)
  }

  function Digit(d: nat): (c: char)
    requires d < 10
    ensures '0' <= c <= '9' && (c as int) - ('0' as int) == d
  {
    (('0' as int) + d) as char
  }

  /** The regular-expression class [0-9a-f]. */
  predicate IsHex(c: char) {
    '0' <= c <= '9' || 'a' <= c <= 'f'
  }

  /** The regular-expression class \w, on ASCII. */
  predicate IsWordChar(c: char) {
    'a' <= c <= 'z' || 'A' <= c <= 'Z' || '0' <= c <= '9' || c == '_'
  }

  predicate AllDigits(s: string) {
    forall i :: 0 <= i < |s| ==> '0' <= s[i] <= '9'
  }

  /** int(s) for a string of ASCII digits. */
  function DigitsValue(s: string): nat
    requires AllDigits(s)
  {
    if s == [] then 0
    else DigitsValue(s[..|s| - 1]) * 10 + ((s[|s| - 1] as int) - ('0' as int))
  }

  /** int(str(n)) == n */
  lemma {:induction false} DecimalRoundTrip(n: nat)
    ensures DigitsValue(Decimal(n)) == n
  {
    var r := Decimal(n);
    if n >= 10 {
      DecimalRoundTrip(n / 10);
      assert r[..|r| - 1] == Decimal(n / 10);
    }
  }

  /** A leading zero does not change the value. */
  lemma {:induction false} LeadingZero(s: string)
    requires AllDigits(s)
    ensures AllDigits("0" + s) && DigitsValue("0" + s) == DigitsValue(s)
    decreases |s|
  {
    if s != [] {
      var init := s[..|s| - 1];
      LeadingZero(init);
      assert ("0" + s)[..|"0" + s| - 1] == "0" + init;
    }
  }

  /** c * n: n copies of c, empty when n <= 0. */
  function Repeat(c: char, n: int): (r: string)
    ensures |r| == if n <= 0 then 0 else n
    ensures forall i :: 0 <= i < |r| ==> r[i] == c
  {
    if n <= 0 then [] else [c] + Repeat(c, n - 1)
  }

  function UpperChar(c: char): char {
    if 'a' <= c <= 'z' then ((c as int) - 32) as char else c
  }

  /** s.upper() on ASCII letters; other characters are left unchanged. */
  function Upper(s: string): (r: string)
    ensures |r| == |s|
    ensures forall i :: 0 <= i < |s| ==> r[i] == UpperChar(s[i])
  {
    seq(|s|, i requires 0 <= i < |s| => UpperChar(s[i]))
  }

  function LowerChar(c: char): char {
    if 'A' <= c <= 'Z' then ((c as int) + 32) as char else c
  }

  /** s.lower() on ASCII letters; other characters are left unchanged. */
  function Lower(s: string): (r: string)
    ensures |r| == |s|
    ensures forall i :: 0 <= i < |s| ==> r[i] == LowerChar(s[i])
  {
    seq(|s|, i requires 0 <= i < |s| => LowerChar(s[i]))
  }

  predicate StartsWith(s: string, prefix: string) {
    prefix <= s
  }

  predicate EndsWith(s: string, suffix: string) {
    |suffix| <= |s| && s[|s| - |suffix|..] == suffix
  }

  /** s.replace(pat, rep): every non-overlapping occurrence, left to right. */
  function Replace(s: string, pat: string, rep: string): string
    requires pat != []
    decreases |s|
  {
    if |s| < |pat| then s
    else if s[..|pat|] == pat then rep + Replace(s[|pat|..], pat, rep)
    else [s[0]] + Replace(s[1..], pat, rep)
  }

  /** Text without the first character of the pattern is copied through
      unchanged by replace. */
  lemma {:induction false} ReplaceSkipsClean(a: string, t: string, pat: string, rep: string)
    requires pat != []
    requires forall i :: 0 <= i < |a| ==> a[i] != pat[0]
    ensures Replace(a + t, pat, rep) == a + Replace(t, pat, rep)
    decreases |a|
  {
    var s := a + t;
    if a == [] {
      assert s == t;
    } else {
      assert s[1..] == a[1..] + t;
      ReplaceSkipsClean(a[1..], t, pat, rep);
      var rest := Replace(t, pat, rep);
      assert Replace(s[1..], pat, rep) == a[1..] + rest;
      if |s| < |pat| {
        assert Replace(s[1..], pat, rep) == s[1..];
        assert rest == t;
      } else {
        assert s[..|pat|][0] == a[0];
        assert Replace(s, pat, rep) == [a[0]] + (a[1..] + rest);
      }
      assert [a[0]] + a[1..] == a;
    }
  }

  /** Whether pat occurs in s at index i. */
  predicate OccursAt(s: string, pat: string, i: nat) {
    i + |pat| <= |s| && s[i..i + |pat|] == pat
  }

  /** A text in which the pattern never occurs is copied through unchanged. */
  lemma {:induction false} ReplaceNoMatch(s: string, pat: string, rep: string)
    requires pat != []
    requires forall i: nat :: !OccursAt(s, pat, i)
    ensures Replace(s, pat, rep) == s
    decreases |s|
  {
    if |s| >= |pat| {
      assert !OccursAt(s, pat, 0);
      assert s[..|pat|] == s[0..0 + |pat|];
      forall i: nat
        ensures !OccursAt(s[1..], pat, i)
      {
        assert !OccursAt(s, pat, i + 1);
        if i + |pat| <= |s[1..]| {
          assert s[1..][i..i + |pat|] == s[i + 1..i + 1 + |pat|];
        }
      }
      ReplaceNoMatch(s[1..], pat, rep);
      assert [s[0]] + s[1..] == s;
    }
  }

  /** An occurrence of the pattern at the front is replaced. */
  lemma {:induction false} ReplaceAtFront(t: string, pat: string, rep: string)
    requires pat != []
    ensures Replace(pat + t, pat, rep) == rep + Replace(t, pat, rep)
  {
    var s := pat + t;
    assert s[..|pat|] == pat;
    assert s[|pat|..] == t;
  }

  /** a < b on Python str: code-point order, a proper prefix first. */
  predicate Below(a: string, b: string) {
    if a == [] then b != []
    else if b == [] then false
    else if a[0] == b[0] then Below(a[1..], b[1..])
    else a[0] < b[0]
  }

  lemma {:induction false} BelowIrreflexive(a: string)
    ensures !Below(a, a)
  {
    if a != [] {
      BelowIrreflexive(a[1..]);
    }
  }

  lemma {:induction false} BelowTransitive(a: string, b: string, c: string)
    requires Below(a, b) && Below(b, c)
    ensures Below(a, c)
  {
    if a != [] && b != [] && c != [] && a[0] == b[0] == c[0] {
      BelowTransitive(a[1..], b[1..], c[1..]);
    }
  }

  lemma {:induction false} BelowTotal(a: string, b: string)
    requires a != b
    ensures Below(a, b) || Below(b, a)
  {
    if a != [] && b != [] && a[0] == b[0] {
      assert a == [a[0]] + a[1..] && b == [b[0]] + b[1..];
      BelowTotal(a[1..], b[1..]);
    }
  }
}
