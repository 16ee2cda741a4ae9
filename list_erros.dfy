/** list_erros.py: collects the Python files a Dockerfile copies into the
    image, and counts the diagnostics ruff and pyright report for each. The
    Dockerfile arrives as the lines the file iterator yields; the linters'
    standard output arrives as a string. Running the linters, checking that
    a file exists and printing the table are not modelled. */
module ListErrors {
  import opened Wrappers
  import opened Strings
  import opened Seqs

  // ----- extract_python_files_from_dockerfile -----

  /** line.rstrip("\n") */
  function TrimNewlines(line: string): (r: string)
    ensures r <= line
    ensures r == [] || r[|r| - 1] != '\n'
  {
    if line != [] && line[|line| - 1] == '\n' then TrimNewlines(line[..|line| - 1]) else line
  }

  /** A physical line that continues on the next one: it ends in a backslash
      once trailing whitespace is ignored. */
  predicate Continued(line: string) {
    EndsWith(RStrip(line), "\\")
  }

  /** What a continued line adds to the buffer: the line without trailing
      whitespace and without its backslash, then one space. */
  function Continuation(line: string): string
    requires Continued(line)
  {
    var s := RStrip(line);
    s[..|s| - 1] + " "
  }

  /** The state of the scan: the buffers of the logical commands completed
      so far, and the buffer of a command still open. */
  datatype Scan = Scan(commands: seq<string>, pending: string)

  /** One physical line (newline already removed) fed to the scan. */
  function Feed(st: Scan, line: string): Scan {
    if Continued(line) then Scan(st.commands, st.pending + Continuation(line))
    else Scan(st.commands + [st.pending + line], "")
  }

  function ScanLines(lines: seq<string>): Scan {
    if lines == [] then Scan([], "")
    else Feed(ScanLines(lines[..|lines| - 1]), TrimNewlines(lines[|lines| - 1]))
  }

  /** cmd.upper().startswith(("COPY ", "ADD ")) */
  predicate IsCopyOrAdd(cmd: string) {
    StartsWith(Upper(cmd), "COPY ") || StartsWith(Upper(cmd), "ADD ")
  }

  /** parts[1:-1]: the tokens between the first and the last. */
  function Middle(parts: seq<string>): (r: seq<string>)
    ensures |parts| >= 2 ==> r == parts[1..|parts| - 1]
    ensures |parts| < 2 ==> r == []
  {
    if |parts| < 2 then [] else parts[1..|parts| - 1]
  }

  /** The tokens that end in ".py", in order. */
  function KeepPy(sources: seq<string>): (r: seq<string>)
    ensures |r| <= |sources|
    ensures forall k :: 0 <= k < |r| ==> EndsWith(r[k], ".py") && r[k] in sources
  {
    if sources == [] then []
    else
      var last := sources[|sources| - 1];
      KeepPy(sources[..|sources| - 1]) + (if EndsWith(last, ".py") then [last] else [])
  }

  /** What one logical command contributes, given its buffer. The command is
      the stripped buffer, so re.split(r"\s+", cmd) splits it into its
      words. */
  function PyFiles(buffer: string): seq<string> {
    var cmd := Strip(buffer);
    if IsCopyOrAdd(cmd) then KeepPy(Middle(Words(cmd))) else []
  }

  /** A whole whitespace-free token that ends in ".py". */
  predicate IsPyToken(f: string) {
    f != [] && NoSpace(f) && EndsWith(f, ".py")
  }

  /** Every logical command's contribution, in order. */
  function AllPyFiles(commands: seq<string>): seq<string> {
    FlatMap(commands, PyFiles)
  }

  /** Each file one command contributes is a whole token ending in ".py". */
  lemma {:induction false} PyFilesAreTokens(buffer: string)
    ensures forall k :: 0 <= k < |PyFiles(buffer)| ==> IsPyToken(PyFiles(buffer)[k])
  {
    var cmd := Strip(buffer);
    if IsCopyOrAdd(cmd) {
      var ws := Words(cmd);
      var r := KeepPy(Middle(ws));
      assert forall k :: 0 <= k < |r| ==> r[k] in ws;
    }
  }

  /** Every result is a whole token that ends in ".py". */
  lemma {:induction false} ResultsArePyTokens(commands: seq<string>)
    ensures forall k :: 0 <= k < |AllPyFiles(commands)| ==> IsPyToken(AllPyFiles(commands)[k])
    decreases |commands|
  {
    if commands != [] {
      var init := commands[..|commands| - 1];
      ResultsArePyTokens(init);
      PyFilesAreTokens(Last(commands));
      assert AllPyFiles(commands) == AllPyFiles(init) + PyFiles(Last(commands));
    }
  }

  /** The inner loop over the sources of one command. */
  method SelectPy(sources: seq<string>) returns (found: seq<string>)
    ensures found == KeepPy(sources)
  {
    found := [];
    for j := 0 to |sources|
      invariant found == KeepPy(sources[..j])
    {
      assert sources[..j + 1][..j] == sources[..j];
      if EndsWith(sources[j], ".py") {
        found := found + [sources[j]];
      }
    }
    assert sources[..|sources|] == sources;
  }

  /** The body of the loop for one complete buffer: strip it and, for a COPY
      or ADD command, keep the ".py" tokens between the first and the last. */
  method CommandPyFiles(buffer: string) returns (found: seq<string>)
    ensures found == PyFiles(buffer)
  {
    found := [];
    var cmd := Strip(buffer);
    if StartsWith(Upper(cmd), "COPY ") || StartsWith(Upper(cmd), "ADD ") {
      var parts := Words(cmd);
      found := SelectPy(Middle(parts));
    }
  }

  /** extract_python_files_from_dockerfile, over the lines of the file. */
  method ExtractPythonFiles(rawLines: seq<string>) returns (pyFiles: seq<string>)
    ensures pyFiles == AllPyFiles(ScanLines(rawLines).commands)
  {
    pyFiles := [];
    var buffer := "";
    for i := 0 to |rawLines|
      invariant ScanLines(rawLines[..i]).pending == buffer
      invariant pyFiles == AllPyFiles(ScanLines(rawLines[..i]).commands)
    {
      ScanPrefixStep(rawLines, i);
      var line := TrimNewlines(rawLines[i]);
      var stripped := RStrip(line);
      if EndsWith(stripped, "\\") {
        buffer := buffer + stripped[..|stripped| - 1] + " ";
      } else {
        buffer := buffer + line;
        var found := CommandPyFiles(buffer);
        AllPyFilesSnoc(ScanLines(rawLines[..i]).commands, buffer);
        pyFiles := pyFiles + found;
        buffer := "";
      }
    }
    assert rawLines[..|rawLines|] == rawLines;
  }

  /** The scan of one more line is one more Feed. */
  lemma ScanPrefixStep(rawLines: seq<string>, i: nat)
    requires i < |rawLines|
    ensures ScanLines(rawLines[..i + 1]) == Feed(ScanLines(rawLines[..i]), TrimNewlines(rawLines[i]))
  {
    assert rawLines[..i + 1][..i] == rawLines[..i];
  }

  /** One more complete command adds its files at the end. */
  lemma AllPyFilesSnoc(commands: seq<string>, buffer: string)
    ensures AllPyFiles(commands + [buffer]) == AllPyFiles(commands) + PyFiles(buffer)
  {
    assert (commands + [buffer])[..|commands|] == commands;
  }

  // ----- properties of the extraction -----

  /** A continuation still open at the end of the file is dropped. */
  lemma {:induction false} OpenContinuationDropped(rawLines: seq<string>, last: string)
    requires Continued(TrimNewlines(last))
    ensures AllPyFiles(ScanLines(rawLines + [last]).commands) == AllPyFiles(ScanLines(rawLines).commands)
  {
    assert (rawLines + [last])[..|rawLines|] == rawLines;
  }

  /** A continued line and the line after it make one command: the first
      without its backslash, a space, then the second. */
  lemma {:induction false} ContinuationJoins(rawLines: seq<string>, a: string, b: string)
    requires ScanLines(rawLines).pending == ""
    requires '\n' !in a && '\n' !in b
    requires Continued(a) && !Continued(b)
    ensures ScanLines(rawLines + [a, b]).commands == ScanLines(rawLines).commands + [Continuation(a) + b]
  {
    NoNewlineKept(a);
    NoNewlineKept(b);
    var ls := rawLines + [a, b];
    assert ls[..|ls| - 1] == rawLines + [a];
    assert (rawLines + [a])[..|rawLines|] == rawLines;
    var open := ScanLines(rawLines + [a]);
    assert open.pending == Continuation(a);
    assert open.commands == ScanLines(rawLines).commands;
  }

  lemma {:induction false} NoNewlineKept(line: string)
    requires '\n' !in line
    ensures TrimNewlines(line) == line
  {
    if line != [] {
      assert line[|line| - 1] in line;
    }
  }

  /** After a complete command the scan starts afresh: the commands of two
      pieces of a file are those of each piece, in order. */
  lemma {:induction false} ScanAppend(xs: seq<string>, ys: seq<string>)
    requires ScanLines(xs).pending == ""
    ensures ScanLines(xs + ys).commands == ScanLines(xs).commands + ScanLines(ys).commands
    ensures ScanLines(xs + ys).pending == ScanLines(ys).pending
    decreases |ys|
  {
    if ys == [] {
      assert xs + ys == xs;
    } else {
      var init := ys[..|ys| - 1];
      ScanAppend(xs, init);
      assert (xs + ys)[..|xs + ys| - 1] == xs + init;
      assert (xs + ys)[|xs + ys| - 1] == ys[|ys| - 1];
      FeedFrame(ScanLines(xs).commands, ScanLines(init), TrimNewlines(ys[|ys| - 1]));
    }
  }

  /** Feeding a line touches only the end of the command list. */
  lemma {:induction false} FeedFrame(done: seq<string>, st: Scan, line: string)
    ensures Feed(Scan(done + st.commands, st.pending), line) == Scan(done + Feed(st, line).commands, Feed(st, line).pending)
  {
    if !Continued(line) {
      assert done + st.commands + [st.pending + line] == done + (st.commands + [st.pending + line]);
    }
  }

  /** The files keep their order of appearance, duplicates included: the
      result for a file is the result for its first part followed by the
      result for the rest, whenever the first part ends a command. */
  lemma {:induction false} ExtractionKeepsOrder(xs: seq<string>, ys: seq<string>)
    requires ScanLines(xs).pending == ""
    ensures AllPyFiles(ScanLines(xs + ys).commands) == AllPyFiles(ScanLines(xs).commands) + AllPyFiles(ScanLines(ys).commands)
  {
    ScanAppend(xs, ys);
    FlatMapAppend(ScanLines(xs).commands, ScanLines(ys).commands, PyFiles);
  }

  // ----- str.splitlines -----

  /** The characters str.splitlines breaks at. */
  predicate IsLineBreak(c: char) {
    c == '\n' || c == '\r' || c == '\U{0B}' || c == '\U{0C}' || c == '\U{1C}' || c == '\U{1D}' || c == '\U{1E}'
    || c == '\U{85}' || c == '\U{2028}' || c == '\U{2029}'
  }

  function FirstBreak(s: string, i: nat): (k: nat)
    requires i <= |s|
    ensures i <= k <= |s|
    ensures forall j :: i <= j < k ==> !IsLineBreak(s[j])
    ensures k == |s| || IsLineBreak(s[k])
    decreases |s| - i
  {
    if i == |s| || IsLineBreak(s[i]) then i else FirstBreak(s, i + 1)
  }

  /** The length of the line boundary at k: "\r\n" counts as one. */
  function BreakLength(s: string, k: nat): nat
    requires k < |s|
  {
    if s[k] == '\r' && k + 1 < |s| && s[k + 1] == '\n' then 2 else 1
  }

  /** s.splitlines(): the pieces between line boundaries, with no empty piece
      after a final boundary. */
  function SplitLines(s: string): (r: seq<string>)
    ensures forall k, j :: 0 <= k < |r| && 0 <= j < |r[k]| ==> !IsLineBreak(r[k][j])
    decreases |s|
  {
    if s == [] then []
    else
      var k := FirstBreak(s, 0);
      if k == |s| then [s]
      else [s[..k]] + SplitLines(s[k + BreakLength(s, k)..])
  }

  /** Reference count of line boundaries, character by character: every
      line-break character except the "\n" of a "\r\n". */
  function Boundaries(s: string, afterCR: bool): nat {
    if s == [] then 0
    else (if IsLineBreak(s[0]) && !(afterCR && s[0] == '\n') then 1 else 0) + Boundaries(s[1..], s[0] == '\r')
  }

  /** splitlines yields one piece per boundary, plus the text after the last
      boundary when there is any. */
  lemma {:induction false} SplitLinesCount(s: string)
    requires s != []
    ensures |SplitLines(s)| == Boundaries(s, false) + (if IsLineBreak(s[|s| - 1]) then 0 else 1)
    decreases |s|
  {
    var k := FirstBreak(s, 0);
    PlainPrefixHasNoBoundary(s, k, false);
    if k < |s| {
      var n := BreakLength(s, k);
      var rest := s[k + n..];
      var after := s[k..];
      assert after[0] == s[k];
      if n == 2 {
        assert after[1..][0] == '\n';
        assert after[1..][1..] == rest;
      } else {
        assert after[1..] == rest;
        if s[k] == '\r' {
          assert Boundaries(rest, true) == Boundaries(rest, false);
        }
      }
      if rest != [] {
        SplitLinesCount(rest);
        assert rest[|rest| - 1] == s[|s| - 1];
      }
    }
  }

  /** A stretch without line breaks adds no boundary, and forgets a
      preceding carriage return. */
  lemma {:induction false} PlainPrefixHasNoBoundary(s: string, k: nat, afterCR: bool)
    requires k <= |s|
    requires forall j :: 0 <= j < k ==> !IsLineBreak(s[j])
    ensures Boundaries(s, afterCR) == Boundaries(s[k..], if k == 0 then afterCR else false)
    decreases k
  {
    if k > 0 {
      assert s[1..][k - 1..] == s[k..];
      PlainPrefixHasNoBoundary(s[1..], k - 1, false);
    }
  }

  // ----- count_ruff_issues -----

  /** The number of lines ruff printed, blank output counting zero. */
  function RuffCount(stdout: string): nat {
    if Strip(stdout) == [] then 0 else |SplitLines(Strip(stdout))|
  }

  /** Stripped output never ends in a line break, so the count is one more
      than the number of boundaries inside it. */
  lemma {:induction false} RuffCountIsBoundariesPlusOne(stdout: string)
    requires Strip(stdout) != []
    ensures RuffCount(stdout) == Boundaries(Strip(stdout), false) + 1
  {
    SplitLinesCount(Strip(stdout));
  }

  // ----- count_pyright_issues -----

  /** LEVEL_ORDER */
  const LevelOrder: map<string, nat> := map["error" := 3, "warning" := 2, "information" := 1]

  /** LEVEL_ORDER.get(level, 0) */
  function Rank(level: string): nat {
    if level in LevelOrder then LevelOrder[level] else 0
  }

  predicate IsDigit(c: char) {
    '0' <= c <= '9'
  }

  function DigitsEnd(s: string, i: nat): (k: nat)
    requires i <= |s|
    ensures i <= k <= |s|
    ensures forall j :: i <= j < k ==> IsDigit(s[j])
    ensures k == |s| || !IsDigit(s[k])
    decreases |s| - i
  {
    if i < |s| && IsDigit(s[i]) then DigitsEnd(s, i + 1) else i
  }

  function WordEnd(s: string, i: nat): (k: nat)
    requires i <= |s|
    ensures i <= k <= |s|
    ensures forall j :: i <= j < k ==> IsWordChar(s[j])
    ensures k == |s| || !IsWordChar(s[k])
    decreases |s| - i
  {
    if i < |s| && IsWordChar(s[i]) then WordEnd(s, i + 1) else i
  }

  /** Where the level word starts when `:\d+:\d+ - \w` follows position p,
      or None. Digits are not ':' or ' ', so each \d+ can only end where its
      run of digits ends. */
  function LevelStart(s: string, p: nat): (r: Option<nat>)
    ensures r.Some? ==> p < r.value < |s| && IsWordChar(s[r.value])
  {
    if p < |s| && s[p] == ':' then
      var a := DigitsEnd(s, p + 1);
      if a > p + 1 && a < |s| && s[a] == ':' then
        var b := DigitsEnd(s, a + 1);
        if b > a + 1 && b + 3 < |s| && s[b..b + 3] == " - " && IsWordChar(s[b + 3]) then Some(b + 3)
        else None
      else None
    else None
  }

  /** The greedy `.+` ends at the last position p >= 1 from which the rest
      of the pattern matches; searching from p downwards. */
  function LastMatch(s: string, p: nat): (r: Option<nat>)
    ensures r.Some? ==> 1 <= r.value <= p && LevelStart(s, r.value).Some?
    ensures forall q :: (if r.Some? then r.value else 0) < q <= p ==> LevelStart(s, q).None?
  {
    if p == 0 then None
    else if LevelStart(s, p).Some? then Some(p)
    else LastMatch(s, p - 1)
  }

  /** re.match(r"^\s*.+:\d+:\d+ - (\w+)", line).group(1), on a line as
      splitlines yields it (so with no newline for `.` to stop at). */
  function Level(line: string): Option<string> {
    match LastMatch(line, |line|)
    case None => None
    case Some(p) =>
      var w := LevelStart(line, p).value;
      Some(line[w..WordEnd(line, w)])
  }

  /** A pyright line counts when it has a level whose rank reaches the
      minimum level's. */
  predicate Counts(line: string, minLevel: string)
    requires minLevel in LevelOrder
  {
    Level(line).Some? && Rank(Lower(Level(line).value)) >= LevelOrder[minLevel]
  }

  /** Reference: the number of lines that count. */
  function CountWhere(lines: seq<string>, minLevel: string): (n: nat)
    requires minLevel in LevelOrder
    ensures n <= |lines|
  {
    if lines == [] then 0
    else CountWhere(lines[..|lines| - 1], minLevel) + (if Counts(lines[|lines| - 1], minLevel) then 1 else 0)
  }

  /** count_pyright_issues, over pyright's standard output; `minLevel` is one
      of the choices the command line allows. */
  method CountPyright(stdout: string, minLevel: string) returns (count: nat)
    requires minLevel in LevelOrder
    ensures count == CountWhere(SplitLines(stdout), minLevel)
  {
    var lines := SplitLines(stdout);
    count := 0;
    for i := 0 to |lines|
      invariant count == CountWhere(lines[..i], minLevel)
    {
      assert lines[..i + 1][..i] == lines[..i];
      var m := Level(lines[i]);
      if m.Some? {
        var level := Lower(m.value);
        if Rank(level) >= LevelOrder[minLevel] {
          count := count + 1;
        }
      }
    }
    assert lines[..|lines|] == lines;
  }

  /** A level not in the table ranks 0 and never counts. */
  lemma {:induction false} UnknownLevelsNeverCount(line: string, minLevel: string)
    requires minLevel in LevelOrder
    requires Level(line).Some? && Lower(Level(line).value) !in LevelOrder
    ensures !Counts(line, minLevel)
  {
    assert LevelOrder[minLevel] >= 1;
  }

  /** Lowering the minimum level never lowers the count. */
  lemma {:induction false} CountMonotone(lines: seq<string>, lo: string, hi: string)
    requires lo in LevelOrder && hi in LevelOrder
    requires LevelOrder[lo] <= LevelOrder[hi]
    ensures CountWhere(lines, hi) <= CountWhere(lines, lo)
    decreases |lines|
  {
    if lines != [] {
      CountMonotone(lines[..|lines| - 1], lo, hi);
    }
  }
}
