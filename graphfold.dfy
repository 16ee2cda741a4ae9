/** graphfold.py: a second folder for `git log --graph --oneline` output. It
    remembers the graph prefix of the last line it printed (the text before
    the first hex digit, after colour codes are removed) and drops every
    following line with the same prefix; when a dropped run ends, one marker
    line `prefix…` keeps the graph connected. The git subprocess is not
    modelled: the log arrives as a sequence of lines. */
module GraphFold {
  import opened Wrappers
  import opened Strings
  import opened Ansi

  const Ellipsis: char := '\U{2026}'

  /** The copy of a line the prefix is read from: the colour pattern of
      graphfold.py removed, ESC and a literal backslash followed by a run of
      `[`, digits and `;`, then `m`. */
  function Clean(line: string): string {
    StripCodes(line, BackslashPattern)
  }

  /** The position of the first hex digit at or after i, if any. */
  function FirstHexDigit(s: string, i: nat): (r: Option<nat>)
    requires i <= |s|
    ensures r.Some? ==> i <= r.value < |s| && IsHex(s[r.value])
    ensures forall j :: i <= j < (if r.Some? then r.value else |s|) ==> !IsHex(s[j])
    decreases |s| - i
  {
    if i == |s| then None
    else if IsHex(s[i]) then Some(i)
    else FirstHexDigit(s, i + 1)
  }

  /** re.match(r"([^0-9a-f]*)([0-9a-f])", clean).group(1), or None when the
      line has no hex digit at all. */
  function Key(line: string): Option<string> {
    var clean := Clean(line);
    match FirstHexDigit(clean, 0)
    case Some(j) => Some(clean[..j])
    case None => None
  }

  /** The line at i is folded away: it has a prefix, and the line before it
      had the same one. After any line, the remembered prefix is that line's
      key, so this is exactly the test the loop makes. */
  predicate Suppressed(log: seq<string>, i: nat)
    requires i < |log|
  {
    i > 0 && Key(log[i]).Some? && Key(log[i - 1]) == Key(log[i])
  }

  function Marker(prefix: string): string {
    prefix + [Ellipsis]
  }

  /** What line i contributes: nothing when folded; otherwise the line,
      preceded by a marker when it ends a folded run and has a prefix. */
  function Piece(log: seq<string>, i: nat): seq<string>
    requires i < |log|
  {
    if Key(log[i]).None? then [log[i]]
    else if Suppressed(log, i) then []
    else if i > 0 && Suppressed(log, i - 1) then [Marker(Key(log[i - 1]).value), log[i]]
    else [log[i]]
  }

  /** The output for the first n lines, before the closing marker. */
  function Pieces(log: seq<string>, n: nat): seq<string>
    requires n <= |log|
  {
    if n == 0 then [] else Pieces(log, n - 1) + Piece(log, n - 1)
  }

  /** The marker printed after the loop when the log ends inside a fold. */
  function Closing(log: seq<string>): seq<string> {
    if |log| > 0 && Suppressed(log, |log| - 1) then [Marker(Key(log[|log| - 1]).value)] else []
  }

  /** Everything graphfold.py prints for a log. */
  function Folded(log: seq<string>): seq<string> {
    Pieces(log, |log|) + Closing(log)
  }

  /** The module-level loop, with `prev_prefix` and `skipped` as its state. */
  method Fold(log: seq<string>) returns (out: seq<string>)
    ensures out == Folded(log)
  {
    out := [];
    var prevPrefix: Option<string> := None;
    var skipped := false;
    for i := 0 to |log|
      invariant prevPrefix == (if i == 0 then None else Key(log[i - 1]))
      invariant skipped == (i > 0 && Suppressed(log, i - 1))
      invariant out == Pieces(log, i)
    {
      var line := log[i];
      var clean := Clean(line);
      var m := FirstHexDigit(clean, 0);
      if m.None? {
        out := out + [line];
        prevPrefix, skipped := None, false;
        continue;
      }
      var prefix := clean[..m.value];
      if Some(prefix) == prevPrefix {
        skipped := true;
        continue;
      }
      if skipped {
        out := out + [Marker(prevPrefix.value)];
        skipped := false;
      }
      out := out + [line];
      prevPrefix := Some(prefix);
    }
    if skipped {
      out := out + [Marker(prevPrefix.value)];
    }
  }

  // ----- properties -----

  /** With no two neighbouring lines sharing a prefix, nothing is folded. */
  lemma {:induction false} NoRepeatsNoFold(log: seq<string>)
    requires forall i :: 0 < i < |log| ==> !Suppressed(log, i)
    ensures Folded(log) == log
  {
    PiecesWithoutFolds(log, |log|);
    assert log[..|log|] == log;
  }

  lemma {:induction false} PiecesWithoutFolds(log: seq<string>, n: nat)
    requires n <= |log|
    requires forall i :: 0 < i < |log| ==> !Suppressed(log, i)
    ensures Pieces(log, n) == log[..n]
  {
    if n > 0 {
      PiecesWithoutFolds(log, n - 1);
      assert log[..n] == log[..n - 1] + [log[n - 1]];
    }
  }

  /** Folding never prints more lines than the log has: each marker stands
      for a line that was folded away. */
  lemma {:induction false} NeverLonger(log: seq<string>)
    ensures |Folded(log)| <= |log|
  {
    PiecesCount(log, |log|);
  }

  lemma {:induction false} PiecesCount(log: seq<string>, n: nat)
    requires n <= |log|
    ensures |Pieces(log, n)| + (if n > 0 && Suppressed(log, n - 1) then 1 else 0) <= n
  {
    if n > 0 {
      PiecesCount(log, n - 1);
    }
  }

  /** The first line is always printed first. */
  lemma {:induction false} FirstLineShown(log: seq<string>)
    requires log != []
    ensures Folded(log) != [] && Folded(log)[0] == log[0]
  {
    PiecesStart(log, |log|);
  }

  lemma {:induction false} PiecesStart(log: seq<string>, n: nat)
    requires 0 < n <= |log|
    ensures Pieces(log, n) != [] && Pieces(log, n)[0] == log[0]
  {
    if n > 1 {
      PiecesStart(log, n - 1);
    } else {
      assert Pieces(log, 0) == [];
    }
  }

  /** A line followed only by lines with its prefix prints as itself and one
      marker. */
  lemma {:induction false} RunFoldsToMarker(log: seq<string>)
    requires |log| > 1
    requires Key(log[0]).Some?
    requires forall i :: 0 < i < |log| ==> Key(log[i]) == Key(log[0])
    ensures Folded(log) == [log[0], Marker(Key(log[0]).value)]
  {
    PiecesOfRun(log, |log|);
  }

  lemma {:induction false} PiecesOfRun(log: seq<string>, n: nat)
    requires 0 < n <= |log|
    requires Key(log[0]).Some?
    requires forall i :: 0 < i < |log| ==> Key(log[i]) == Key(log[0])
    ensures Pieces(log, n) == [log[0]]
  {
    if n > 1 {
      PiecesOfRun(log, n - 1);
      assert Suppressed(log, n - 1);
    } else {
      assert Pieces(log, 0) == [];
    }
  }

  /** A line's prefix does not see a leading ESC-backslash sequence: such a
      code is removed before the first hex digit is looked for. */
  lemma {:induction false} KeyIgnoresEscapedCode(params: string, line: string)
    requires forall j :: 0 <= j < |params| ==> ParamChar(SgrPattern, params[j])
    ensures Key(Code('\\', "[" + params) + line) == Key(line)
  {
    BackslashPatternDropsEscapedCode(params, line);
  }

  /** So a line opening with ESC, a backslash and `[<params>m` is folded
      with a following line of the same graph prefix. */
  lemma EscapedCodeFoldsWithNextLine(params: string, first: string, next: string)
    requires forall j :: 0 <= j < |params| ==> ParamChar(SgrPattern, params[j])
    requires Key(first).Some? && Key(next) == Key(first)
    ensures Folded([Code('\\', "[" + params) + first, next])
         == [Code('\\', "[" + params) + first, Marker(Key(first).value)]
  {
    KeyIgnoresEscapedCode(params, first);
    RunFoldsToMarker([Code('\\', "[" + params) + first, next]);
  }
}
