/** git_compress.py: folds `git log --graph` output. Consecutive lines with
    the same graph prefix (the text before the commit hash) form a run; a run
    of more than two lines is shown as its first and last line, optionally
    with one line between them that counts the hidden commits. The git
    subprocess is not modelled: the log arrives as a sequence of lines. */
module GitCompress {
  import opened Wrappers
  import opened Strings
  import opened Ansi
  import opened Seqs

  // ----- extract_graph_prefix -----

  /** \b at position p of s: a word character on exactly one side. */
  predicate Boundary(s: string, p: nat)
    requires p <= |s|
  {
    (p > 0 && IsWordChar(s[p - 1])) != (p < |s| && IsWordChar(s[p]))
  }

  predicate AllHex(s: string) {
    forall j :: 0 <= j < |s| ==> IsHex(s[j])
  }

  /** The end of the run of hex digits that starts at i. */
  function HexEnd(s: string, i: nat): (k: nat)
    requires i <= |s|
    ensures i <= k <= |s|
    ensures AllHex(s[i..k])
    ensures k == |s| || !IsHex(s[k])
    decreases |s| - i
  {
    if i < |s| && IsHex(s[i]) then HexEnd(s, i + 1) else i
  }

  /** The pattern \b[0-9a-f]{7,40}\b matches at i: the run of hex digits
      starting at i is 7 to 40 long, and word boundaries close it on both
      sides. */
  predicate HashAt(s: string, i: nat) {
    && i < |s|
    && (i == 0 || !IsWordChar(s[i - 1]))
    && var k := HexEnd(s, i);
       7 <= k - i <= 40 && (k == |s| || !IsWordChar(s[k]))
  }

  /** The matching a regular-expression engine performs at i: some count n
      of 7 to 40 hex digits with a word boundary before and after. */
  ghost predicate PatternAt(s: string, i: nat) {
    exists n :: MatchesWith(s, i, n)
  }

  predicate MatchesWith(s: string, i: nat, n: nat) {
    7 <= n <= 40 && i + n <= |s| && AllHex(s[i..i + n]) && Boundary(s, i) && Boundary(s, i + n)
  }

  /** The run test is the pattern: a shorter count stops inside the run of
      hex digits, where no boundary is, and a run over 40 digits has no
      boundary after any count the pattern allows. */
  lemma {:induction false} HashAtIsPattern(s: string, i: nat)
    ensures HashAt(s, i) <==> PatternAt(s, i)
  {
    if HashAt(s, i) {
      var n := HexEnd(s, i) - i;
      assert AllHex(s[i..i + n]);
      assert IsHex(s[i]) by {
        assert s[i..i + n][0] == s[i];
      }
      assert Boundary(s, i);
      assert s[i + n - 1] == s[i..i + n][n - 1];
      assert Boundary(s, i + n);
      assert MatchesWith(s, i, n);
    }
    if PatternAt(s, i) {
      var n: nat :| MatchesWith(s, i, n);
      assert IsHex(s[i]) by {
        assert s[i..i + n][0] == s[i];
      }
      assert s[i..i + n][n - 1] == s[i + n - 1];
      assert IsHex(s[i..i + n][n - 1]);
      assert i + n == |s| || !IsHex(s[i + n]);
      HexRunEnds(s, i, n);
    }
  }

  /** A run of n hex digits followed by the end or a non-hex character ends
      exactly there. */
  lemma {:induction false} HexRunEnds(s: string, i: nat, n: nat)
    requires i + n <= |s|
    requires AllHex(s[i..i + n])
    requires i + n == |s| || !IsHex(s[i + n])
    ensures HexEnd(s, i) == i + n
    decreases n
  {
    if n > 0 {
      assert IsHex(s[i]) by {
        assert s[i..i + n][0] == s[i];
      }
      assert s[i + 1..i + 1 + (n - 1)] == s[i..i + n][1..];
      HexRunEnds(s, i + 1, n - 1);
    }
  }

  /** re.search: the first position at or after i where the pattern matches. */
  function FirstHash(s: string, i: nat): (r: Option<nat>)
    requires i <= |s|
    ensures r.Some? ==> i <= r.value < |s| && HashAt(s, r.value)
    ensures forall j :: i <= j < (if r.Some? then r.value else |s|) ==> !HashAt(s, j)
    decreases |s| - i
  {
    if i == |s| then None
    else if HashAt(s, i) then Some(i)
    else FirstHash(s, i + 1)
  }

  /** extract_graph_prefix: the text before the first commit hash, or the
      whole line when it holds none. */
  function GraphPrefix(line: string): string {
    match FirstHash(line, 0)
    case Some(i) => line[..i]
    case None => line
  }

  /** The prefix is line[:m.start()] for the leftmost match m of the hash
      pattern, and the whole line when the pattern matches nowhere. */
  lemma {:induction false} PrefixEndsAtFirstHash(line: string)
    ensures GraphPrefix(line) <= line
    ensures forall j :: 0 <= j < |GraphPrefix(line)| ==> !PatternAt(line, j)
    ensures |GraphPrefix(line)| < |line| ==> PatternAt(line, |GraphPrefix(line)|)
  {
    var p := GraphPrefix(line);
    forall j | 0 <= j < |p|
      ensures !PatternAt(line, j)
    {
      HashAtIsPattern(line, j);
    }
    if |p| < |line| {
      HashAtIsPattern(line, |p|);
    }
  }

  // ----- process_buffer -----

  const VerticalEllipsis: char := '\U{22EE}'

  /** The spacer line: as many spaces as the prefix has visible characters,
      then the count of hidden commits. */
  function GapLine(prefix: string, hidden: int): string {
    Repeat(' ', |StripCodes(prefix, SgrPattern)|) + "  " + [VerticalEllipsis] + "  (hidden " + IntToString(hidden) + " commits)"
  }

  /** process_buffer, as the lines it prints. */
  function Flush(buffer: seq<string>, prefix: string, showGap: bool): (r: seq<string>)
    ensures |buffer| <= 2 ==> r == buffer
    ensures |buffer| > 2 ==> |r| == (if showGap then 3 else 2) && r[0] == buffer[0] && r[|r| - 1] == buffer[|buffer| - 1]
    ensures |buffer| > 2 && showGap ==> r[1] == GapLine(prefix, |buffer| - 2)
    ensures |r| <= |buffer|
  {
    if |buffer| > 2 then
      [buffer[0]] + (if showGap then [GapLine(prefix, |buffer| - 2)] else []) + [buffer[|buffer| - 1]]
    else buffer
  }

  /** Colour codes in the prefix do not widen the spacer's indent. */
  lemma {:induction false} GapIgnoresColour(params: string, prefix: string, hidden: int)
    requires forall j :: 0 <= j < |params| ==> ParamChar(SgrPattern, params[j])
    ensures GapLine(Code('[', params) + prefix, hidden) == GapLine(prefix, hidden)
  {
    StripCodesDropsCode(SgrPattern, params, prefix);
  }

  /** Without colour codes the indent is exactly as wide as the prefix. */
  lemma {:induction false} GapIndentIsPrefixWidth(prefix: string, hidden: int)
    requires Esc !in prefix
    ensures |GapLine(prefix, hidden)| > |prefix| && GapLine(prefix, hidden)[..|prefix|] == Repeat(' ', |prefix|)
  {
    StripCodesPlain(prefix, SgrPattern);
  }

  // ----- the grouping loop of main -----

  /** The maximal runs of consecutive lines with equal graph prefixes. */
  function Runs(lines: seq<string>): (rs: seq<seq<string>>)
    ensures forall k :: 0 <= k < |rs| ==> rs[k] != []
    ensures rs == [] <==> lines == []
    decreases |lines|
  {
    if lines == [] then [] else Extend(Runs(lines[..|lines| - 1]), Last(lines))
  }

  /** One more line: it joins the last run when its prefix is that run's,
      and starts a run of its own otherwise. */
  function Extend(rs: seq<seq<string>>, x: string): (rs': seq<seq<string>>)
    requires forall k :: 0 <= k < |rs| ==> rs[k] != []
    ensures forall k :: 0 <= k < |rs'| ==> rs'[k] != []
    ensures rs' != [] && Last(Last(rs')) == x
  {
    if rs != [] && GraphPrefix(Last(rs)[0]) == GraphPrefix(x) then rs[..|rs| - 1] + [Last(rs) + [x]]
    else rs + [[x]]
  }

  /** What the folded log prints for a sequence of runs. */
  function FlushAll(rs: seq<seq<string>>, showGap: bool): seq<string>
    requires forall k :: 0 <= k < |rs| ==> rs[k] != []
  {
    if rs == [] then []
    else FlushAll(rs[..|rs| - 1], showGap) + Flush(Last(rs), GraphPrefix(Last(rs)[0]), showGap)
  }

  /** main: fold the log line by line, flushing a run when the prefix
      changes and once more at the end. */
  method Compress(lines: seq<string>, showGap: bool) returns (out: seq<string>)
    ensures out == FlushAll(Runs(lines), showGap)
  {
    if lines == [] {
      return [];
    }
    out := [];
    var buffer: seq<string> := [];
    var lastPrefix: Option<string> := None;
    ghost var closed: seq<seq<string>> := [];
    for i := 0 to |lines|
      invariant i == 0 ==> buffer == [] && lastPrefix == None && closed == []
      invariant i > 0 ==> buffer != [] && lastPrefix == Some(GraphPrefix(buffer[0]))
      invariant i > 0 ==> Runs(lines[..i]) == closed + [buffer]
      invariant forall k :: 0 <= k < |closed| ==> closed[k] != []
      invariant out == FlushAll(closed, showGap)
    {
      var line := lines[i];
      var current := GraphPrefix(line);
      RunsStep(lines, i, closed, buffer);
      if lastPrefix != Some(current) {
        if buffer != [] {
          out := out + Flush(buffer, lastPrefix.value, showGap);
          FlushAllSnoc(closed, buffer, showGap);
          closed := closed + [buffer];
        }
        buffer := [line];
        lastPrefix := Some(current);
      } else {
        buffer := buffer + [line];
      }
    }
    assert lines[..|lines|] == lines;
    FlushAllSnoc(closed, buffer, showGap);
    out := out + Flush(buffer, lastPrefix.value, showGap);
  }

  /** How the runs of the first i + 1 lines follow from those of the
      first i, in the terms of the loop's buffer. */
  lemma {:induction false} RunsStep(lines: seq<string>, i: nat, closed: seq<seq<string>>, buffer: seq<string>)
    requires i < |lines|
    requires i == 0 ==> closed == [] && buffer == []
    requires i > 0 ==> buffer != [] && Runs(lines[..i]) == closed + [buffer]
    requires forall k :: 0 <= k < |closed| ==> closed[k] != []
    ensures i == 0 ==> Runs(lines[..i + 1]) == [[lines[i]]]
    ensures i > 0 && GraphPrefix(buffer[0]) == GraphPrefix(lines[i]) ==> Runs(lines[..i + 1]) == closed + [buffer + [lines[i]]]
    ensures i > 0 && GraphPrefix(buffer[0]) != GraphPrefix(lines[i]) ==> Runs(lines[..i + 1]) == (closed + [buffer]) + [[lines[i]]]
  {
    assert lines[..i + 1][..i] == lines[..i];
    if i > 0 {
      var rs := closed + [buffer];
      assert Last(rs) == buffer;
      assert rs[..|rs| - 1] == closed;
    } else {
      assert Runs(lines[..0]) == [];
    }
  }

  lemma {:induction false} FlushAllSnoc(closed: seq<seq<string>>, buffer: seq<string>, showGap: bool)
    requires forall k :: 0 <= k < |closed| ==> closed[k] != []
    requires buffer != []
    ensures FlushAll(closed + [buffer], showGap) == FlushAll(closed, showGap) + Flush(buffer, GraphPrefix(buffer[0]), showGap)
  {
    assert (closed + [buffer])[..|closed|] == closed;
  }

  // ----- properties of the grouping -----

  /** The runs put back together are the log. */
  lemma {:induction false} RunsCoverLog(lines: seq<string>)
    ensures Flatten(Runs(lines)) == lines
    decreases |lines|
  {
    if lines != [] {
      var init := lines[..|lines| - 1];
      RunsCoverLog(init);
      FlattenExtend(Runs(init), Last(lines));
      assert init + [Last(lines)] == lines;
    }
  }

  lemma {:induction false} FlattenExtend(rs: seq<seq<string>>, x: string)
    requires forall k :: 0 <= k < |rs| ==> rs[k] != []
    ensures Flatten(Extend(rs, x)) == Flatten(rs) + [x]
  {
    var rs' := Extend(rs, x);
    if rs != [] && GraphPrefix(Last(rs)[0]) == GraphPrefix(x) {
      assert rs'[..|rs'| - 1] == rs[..|rs| - 1];
      calc {
        Flatten(rs');
        Flatten(rs[..|rs| - 1]) + (Last(rs) + [x]);
        (Flatten(rs[..|rs| - 1]) + Last(rs)) + [x];
        Flatten(rs) + [x];
      }
    } else {
      assert rs'[..|rs|] == rs;
    }
  }

  /** Within a run every line has the prefix of the run's first line. */
  predicate SamePrefix(run: seq<string>) {
    forall j :: 0 <= j < |run| ==> GraphPrefix(run[j]) == GraphPrefix(run[0])
  }

  /** Every run is uniform, and neighbouring runs differ in prefix. */
  predicate Maximal(rs: seq<seq<string>>)
    requires forall k :: 0 <= k < |rs| ==> rs[k] != []
  {
    && (forall k :: 0 <= k < |rs| ==> SamePrefix(rs[k]))
    && (forall k :: 0 < k < |rs| ==> GraphPrefix(rs[k - 1][0]) != GraphPrefix(rs[k][0]))
  }

  /** The runs are maximal runs of equal prefixes. */
  lemma {:induction false} RunsAreMaximal(lines: seq<string>)
    ensures Maximal(Runs(lines))
    decreases |lines|
  {
    if lines != [] {
      var init := lines[..|lines| - 1];
      RunsAreMaximal(init);
      ExtendKeepsMaximal(Runs(init), Last(lines));
    }
  }

  lemma {:induction false} ExtendKeepsMaximal(rs: seq<seq<string>>, x: string)
    requires forall k :: 0 <= k < |rs| ==> rs[k] != []
    requires Maximal(rs)
    ensures Maximal(Extend(rs, x))
  {
    var rs' := Extend(rs, x);
    if rs != [] && GraphPrefix(Last(rs)[0]) == GraphPrefix(x) {
      assert forall k :: 0 <= k < |rs| - 1 ==> rs'[k] == rs[k];
      assert SamePrefix(Last(rs));
      assert (Last(rs) + [x])[0] == Last(rs)[0];
      assert SamePrefix(Last(rs) + [x]);
    } else {
      assert forall k :: 0 <= k < |rs| ==> rs'[k] == rs[k];
    }
  }

  /** The first printed line is the first line of the log. */
  lemma {:induction false} FirstLineKept(lines: seq<string>, showGap: bool)
    requires lines != []
    ensures FlushAll(Runs(lines), showGap) != []
    ensures FlushAll(Runs(lines), showGap)[0] == lines[0]
  {
    RunsCoverLog(lines);
    FlushAllStartsWithFirstRun(Runs(lines), showGap);
    FlattenStartsWithFirstRun(Runs(lines));
  }

  lemma {:induction false} FlushAllStartsWithFirstRun(rs: seq<seq<string>>, showGap: bool)
    requires rs != []
    requires forall k :: 0 <= k < |rs| ==> rs[k] != []
    ensures FlushAll(rs, showGap) != [] && FlushAll(rs, showGap)[0] == rs[0][0]
    decreases |rs|
  {
    if |rs| > 1 {
      FlushAllStartsWithFirstRun(rs[..|rs| - 1], showGap);
    }
  }

  lemma {:induction false} FlattenStartsWithFirstRun(rs: seq<seq<string>>)
    requires rs != []
    requires forall k :: 0 <= k < |rs| ==> rs[k] != []
    ensures Flatten(rs) != [] && Flatten(rs)[0] == rs[0][0]
    decreases |rs|
  {
    if |rs| > 1 {
      FlattenStartsWithFirstRun(rs[..|rs| - 1]);
    }
  }

  /** The last printed line is the last line of the log. */
  lemma {:induction false} LastLineKept(lines: seq<string>, showGap: bool)
    requires lines != []
    ensures FlushAll(Runs(lines), showGap) != []
    ensures Last(FlushAll(Runs(lines), showGap)) == Last(lines)
  {
    var rs := Runs(lines);
    var f := Flush(Last(rs), GraphPrefix(Last(rs)[0]), showGap);
    assert f != [] && Last(f) == Last(Last(rs));
  }

  /** Folding never prints more lines than the log has. */
  lemma {:induction false} NeverLonger(lines: seq<string>, showGap: bool)
    ensures |FlushAll(Runs(lines), showGap)| <= |lines|
  {
    RunsCoverLog(lines);
    FlushAllShorter(Runs(lines), showGap);
  }

  lemma {:induction false} FlushAllShorter(rs: seq<seq<string>>, showGap: bool)
    requires forall k :: 0 <= k < |rs| ==> rs[k] != []
    ensures |FlushAll(rs, showGap)| <= |Flatten(rs)|
    decreases |rs|
  {
    if rs != [] {
      FlushAllShorter(rs[..|rs| - 1], showGap);
    }
  }

  /** Without the spacer, every printed line is a line of the log. */
  lemma {:induction false} NoGapPrintsOnlyLogLines(lines: seq<string>)
    ensures forall k :: 0 <= k < |FlushAll(Runs(lines), false)| ==> FlushAll(Runs(lines), false)[k] in lines
  {
    RunsCoverLog(lines);
    FlushAllFromRuns(Runs(lines));
  }

  lemma {:induction false} FlushAllFromRuns(rs: seq<seq<string>>)
    requires forall k :: 0 <= k < |rs| ==> rs[k] != []
    ensures forall k :: 0 <= k < |FlushAll(rs, false)| ==> FlushAll(rs, false)[k] in Flatten(rs)
    decreases |rs|
  {
    if rs != [] {
      var init := rs[..|rs| - 1];
      FlushAllFromRuns(init);
      var f := Flush(Last(rs), GraphPrefix(Last(rs)[0]), false);
      assert forall j :: 0 <= j < |f| ==> f[j] in Last(rs);
      assert Flatten(rs) == Flatten(init) + Last(rs);
      assert FlushAll(rs, false) == FlushAll(init, false) + f;
    }
  }
}
