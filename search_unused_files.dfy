/** search_unused_files.py: lists the files of a source tree that no COPY line
    of a Dockerfile brings into the image. The Dockerfile arrives as its
    lines and the source tree as a value: a directory is the sequence of its
    named entries, each a file or a directory. Opening files and walking the
    disk are not modelled. */
module SearchUnusedFiles {
  import opened Wrappers
  import opened Strings
  import opened Seqs

  // ----- parse_dockerfile -----

  /** The sources one line names: for a stripped line whose upper-case form
      starts with "COPY" (no separator needed), the tokens strictly between
      the first and the last. */
  function LineSources(line: string): seq<string> {
    var l := Strip(line);
    if StartsWith(Upper(l), "COPY") then
      var parts := Words(l);
      if |parts| >= 2 then parts[1..|parts| - 1] else []
    else []
  }

  function SetOf(xs: seq<string>): set<string> {
    set k | 0 <= k < |xs| :: xs[k]
  }

  lemma {:induction false} SetOfAppend(a: seq<string>, b: seq<string>)
    ensures SetOf(a + b) == SetOf(a) + SetOf(b)
  {
    forall x | x in SetOf(a + b)
      ensures x in SetOf(a) + SetOf(b)
    {
      var k :| 0 <= k < |a + b| && (a + b)[k] == x;
      if k >= |a| {
        assert b[k - |a|] == x;
      }
    }
    forall x | x in SetOf(a) + SetOf(b)
      ensures x in SetOf(a + b)
    {
      if x in SetOf(a) {
        var k :| 0 <= k < |a| && a[k] == x;
        assert (a + b)[k] == x;
      } else {
        var k :| 0 <= k < |b| && b[k] == x;
        assert (a + b)[|a| + k] == x;
      }
    }
  }

  lemma {:induction false} InSetOf(xs: seq<string>, x: string)
    ensures x in SetOf(xs) <==> x in xs
  {
    if x in xs {
      var k :| 0 <= k < |xs| && xs[k] == x;
      assert x in SetOf(xs);
    }
  }

  /** Every source any of the lines names, once each. */
  function CopiedBy(lines: seq<string>): set<string> {
    SetOf(FlatMap(lines, LineSources))
  }

  /** The loop body for one line. */
  method LineCopySources(line: string) returns (sources: seq<string>)
    ensures sources == LineSources(line)
  {
    sources := [];
    var l := Strip(line);
    if StartsWith(Upper(l), "COPY") {
      var parts := Words(l);
      if |parts| >= 2 {
        sources := parts[1..|parts| - 1];
      }
    }
  }

  /** parse_dockerfile, over the lines of the file. */
  method ParseDockerfile(lines: seq<string>) returns (copied: set<string>)
    ensures copied == CopiedBy(lines)
  {
    copied := {};
    for i := 0 to |lines|
      invariant copied == CopiedBy(lines[..i])
    {
      assert lines[..i + 1][..i] == lines[..i];
      var sources := LineCopySources(lines[i]);
      SetOfAppend(FlatMap(lines[..i], LineSources), sources);
      copied := copied + SetOf(sources);
    }
    assert lines[..|lines|] == lines;
  }

  /** A source is copied exactly when some line names it. */
  lemma {:induction false} CopiedIffNamed(lines: seq<string>, x: string)
    ensures x in CopiedBy(lines) <==> exists i :: 0 <= i < |lines| && x in LineSources(lines[i])
  {
    InSetOf(FlatMap(lines, LineSources), x);
    FlatMapMember(lines, LineSources, x);
  }

  /** The set forgets the order of the lines. */
  lemma {:induction false} CopiedIgnoresOrder(a: seq<string>, b: seq<string>)
    ensures CopiedBy(a + b) == CopiedBy(b + a)
  {
    FlatMapAppend(a, b, LineSources);
    FlatMapAppend(b, a, LineSources);
    SetOfAppend(FlatMap(a, LineSources), FlatMap(b, LineSources));
    SetOfAppend(FlatMap(b, LineSources), FlatMap(a, LineSources));
  }

  /** A COPY line with at most two tokens names nothing. */
  lemma {:induction false} ShortLinesNameNothing(line: string)
    requires |Words(Strip(line))| <= 2
    ensures LineSources(line) == []
  {
  }

  // ----- get_all_files -----

  /** A node of the source tree: a file, or a directory of named entries. */
  datatype Node = File | Dir(entries: seq<Entry>)
  datatype Entry = Entry(name: string, node: Node)

  /** Path(name).suffix: from the last dot, when that dot is neither the
      first nor the last character; otherwise empty. */
  function Suffix(name: string): (r: string)
    ensures r == [] || (|r| >= 2 && r[0] == '.' && EndsWith(name, r) && |r| < |name|)
  {
    LastDotSuffix(name, |name|)
  }

  /** Searches for the last dot before position i. */
  function LastDotSuffix(name: string, i: nat): (r: string)
    requires i <= |name|
    ensures r == [] || (|r| >= 2 && r[0] == '.' && EndsWith(name, r) && |r| < |name|)
    decreases i
  {
    if i == 0 then []
    else if name[i - 1] == '.' then
      if 0 < i - 1 < |name| - 1 then name[i - 1..] else []
    else LastDotSuffix(name, i - 1)
  }

  /** The directory test of the pruning comprehension. An empty exclusion
      list excludes nothing, so `not exclude_dirs or d not in exclude_dirs`
      is plain membership. */
  predicate KeepDir(name: string, excludeDirs: seq<string>) {
    !StartsWith(name, ".") && name !in excludeDirs
  }

  /** The file tests: hidden files and excluded suffixes are skipped. */
  predicate KeepFile(name: string, excludeExts: seq<string>) {
    !StartsWith(name, ".") && Suffix(name) !in excludeExts
  }

  predicate Admits(e: Entry, excludeDirs: seq<string>, excludeExts: seq<string>) {
    if e.node.File? then KeepFile(e.name, excludeExts) else KeepDir(e.name, excludeDirs)
  }

  /** Every file under a node, as the names along its path. */
  function Files(n: Node): set<seq<string>> {
    match n
    case File => {[]}
    case Dir(es) => set e, p | e in es && p in Files(e.node) :: [e.name] + p
  }

  /** The files the pruned walk reaches: a directory that fails its test is
      not entered, a file that fails its test is skipped. */
  function Walked(n: Node, excludeDirs: seq<string>, excludeExts: seq<string>): set<seq<string>> {
    match n
    case File => {[]}
    case Dir(es) => set e, p | e in es && Admits(e, excludeDirs, excludeExts) && p in Walked(e.node, excludeDirs, excludeExts) :: [e.name] + p
  }

  /** get_all_files: the relative paths of the files the walk reaches.
      os.walk yields nothing for a base that is a regular file, so such a
      base has no files at all. */
  function AllFiles(tree: Node, excludeDirs: seq<string>, excludeExts: seq<string>): set<string> {
    if tree.File? then {}
    else set p | p in Walked(tree, excludeDirs, excludeExts) :: Join(p, "/")
  }

  /** A source directory that is a regular file lists no files, so none is
      reported as unused. */
  lemma FileBaseHasNoFiles(xd: seq<string>, xe: seq<string>)
    ensures AllFiles(File, xd, xe) == {}
    ensures Walked(File, xd, xe) == {[]}
  {
  }

  /** A path survives the name tests: every directory on it passes, and so
      does the file name at its end. */
  predicate Visible(p: seq<string>, excludeDirs: seq<string>, excludeExts: seq<string>) {
    p != []
    && (forall k :: 0 <= k < |p| - 1 ==> KeepDir(p[k], excludeDirs))
    && KeepFile(p[|p| - 1], excludeExts)
  }

  /** The walk reaches only visible files of the tree. */
  lemma {:induction false} WalkedAreVisible(n: Node, xd: seq<string>, xe: seq<string>, p: seq<string>)
    requires n.Dir?
    requires p in Walked(n, xd, xe)
    ensures p in Files(n) && Visible(p, xd, xe)
    decreases n
  {
    var e, q :| e in n.entries && Admits(e, xd, xe) && q in Walked(e.node, xd, xe) && p == [e.name] + q;
    if e.node.Dir? {
      WalkedAreVisible(e.node, xd, xe, q);
      assert forall k :: 1 <= k < |p| ==> p[k] == q[k - 1];
    } else {
      assert q == [];
    }
  }

  /** And it reaches every visible file. */
  lemma {:induction false} VisibleAreWalked(n: Node, xd: seq<string>, xe: seq<string>, p: seq<string>)
    requires n.Dir?
    requires p in Files(n) && Visible(p, xd, xe)
    ensures p in Walked(n, xd, xe)
    decreases n
  {
    var e, q :| e in n.entries && q in Files(e.node) && p == [e.name] + q;
    if e.node.Dir? {
      assert q != [] by {
        FilesOfDirAreNonEmpty(e.node);
      }
      assert forall k :: 0 <= k < |q| ==> q[k] == p[k + 1];
      assert Visible(q, xd, xe);
      assert KeepDir(p[0], xd);
      VisibleAreWalked(e.node, xd, xe, q);
    } else {
      assert q == [];
    }
  }

  lemma {:induction false} FilesOfDirAreNonEmpty(n: Node)
    requires n.Dir?
    ensures [] !in Files(n)
  {
  }

  // ----- resolving the copied paths -----

  /** The end of the run of characters other than '/' from i. */
  function SlashEnd(s: string, i: nat): (k: nat)
    requires i <= |s|
    ensures i <= k <= |s|
    ensures forall j :: i <= j < k ==> s[j] != '/'
    ensures k == |s| || s[k] == '/'
    decreases |s| - i
  {
    if i == |s| || s[i] == '/' then i else SlashEnd(s, i + 1)
  }

  /** The parts of Path(path): the names between slashes, with empty and "."
      parts dropped. */
  function Components(path: string): (r: seq<string>)
    ensures forall k :: 0 <= k < |r| ==> r[k] != [] && r[k] != "." && '/' !in r[k]
    decreases |path|
  {
    if path == [] then []
    else if path[0] == '/' then Components(path[1..])
    else
      var k := SlashEnd(path, 0);
      (if path[..k] == "." then [] else [path[..k]]) + Components(path[k..])
  }

  /** The node a relative path leads to, if any. */
  function Lookup(n: Node, names: seq<string>): Option<Node>
    decreases |names|
  {
    if names == [] then Some(n)
    else match n
      case File => None
      case Dir(es) =>
        match Find(es, names[0])
        case None => None
        case Some(e) => Lookup(e.node, names[1..])
  }

  /** The first entry with the given name. */
  function Find(es: seq<Entry>, name: string): (r: Option<Entry>)
    ensures r.Some? ==> r.value in es && r.value.name == name
    ensures r.None? ==> forall e :: e in es ==> e.name != name
  {
    if es == [] then None
    else if es[0].name == name then Some(es[0])
    else Find(es[1..], name)
  }

  /** What one copied source adds: every file under it when it is a
      directory (hidden and excluded ones included), its own normalised path
      when it is a file, and nothing when it does not exist. */
  function ResolveOne(tree: Node, path: string): set<string> {
    var names := Components(path);
    match Lookup(tree, names)
    case None => {}
    case Some(File) => {Join(names, "/")}
    case Some(Dir(es)) => set p | p in Files(Dir(es)) :: Join(names + p, "/")
  }

  /** Everything the copied sources resolve to. */
  function ResolveAll(tree: Node, copied: set<string>): set<string> {
    set x, path | path in copied && x in ResolveOne(tree, path) :: x
  }

  /** The loop of main that fills copied_resolved, one source at a time in
      any order. */
  method ResolveCopied(tree: Node, copied: set<string>) returns (resolved: set<string>)
    ensures resolved == ResolveAll(tree, copied)
  {
    resolved := {};
    var todo := copied;
    while todo != {}
      invariant todo <= copied
      invariant resolved == ResolveAll(tree, copied - todo)
      decreases |todo|
    {
      var path :| path in todo;
      ResolveAllAdd(tree, copied - todo, path);
      assert (copied - todo) + {path} == copied - (todo - {path});
      resolved := resolved + ResolveOne(tree, path);
      todo := todo - {path};
    }
    assert copied - todo == copied;
  }

  lemma {:induction false} ResolveAllAdd(tree: Node, done: set<string>, path: string)
    ensures ResolveAll(tree, done + {path}) == ResolveAll(tree, done) + ResolveOne(tree, path)
  {
    var a := ResolveAll(tree, done + {path});
    var b := ResolveAll(tree, done) + ResolveOne(tree, path);
    forall x | x in a
      ensures x in b
    {
      var x', p :| p in done + {path} && x' in ResolveOne(tree, p) && x == x';
      if p in done {
        assert x in ResolveAll(tree, done);
      }
    }
    forall x | x in b
      ensures x in a
    {
      if x in ResolveOne(tree, path) {
        assert path in done + {path};
      } else {
        var x', p :| p in done && x' in ResolveOne(tree, p) && x == x';
        assert p in done + {path};
      }
    }
  }

  /** A copied source that names nothing in the tree resolves to nothing. */
  lemma {:induction false} MissingSourceAddsNothing(tree: Node, path: string)
    requires Lookup(tree, Components(path)).None?
    ensures ResolveOne(tree, path) == {}
  {
  }

  /** Copying the tree's root directory covers every file it holds. */
  lemma {:induction false} CopyingEverythingLeavesNothing(tree: Node, xd: seq<string>, xe: seq<string>)
    ensures AllFiles(tree, xd, xe) <= ResolveOne(tree, ".")
  {
    if tree.Dir? {
      assert Components(".") == [] by {
        assert SlashEnd(".", 0) == 1;
      }
      forall x | x in AllFiles(tree, xd, xe)
        ensures x in ResolveOne(tree, ".")
      {
        var p :| p in Walked(tree, xd, xe) && x == Join(p, "/");
        WalkedAreVisible(tree, xd, xe, p);
        assert [] + p == p;
      }
    }
  }

  // ----- the report -----

  /** Strictly ascending in str order. */
  predicate Ascending(xs: seq<string>) {
    forall i, j :: 0 <= i < j < |xs| ==> Below(xs[i], xs[j])
  }

  /** sorted(s) for a set of strings: the least remaining element, one at a
      time. */
  method SortedStrings(s: set<string>) returns (out: seq<string>)
    ensures Ascending(out)
    ensures SetOf(out) == s && |out| == |s|
  {
    out := [];
    var todo := s;
    while todo != {}
      invariant Sorting(s, out, todo)
      decreases |todo|
    {
      var m := Least(todo);
      SortStep(s, out, todo, m);
      out := out + [m];
      todo := todo - {m};
    }
  }

  /** The loop invariant of SortedStrings: out is ascending, holds the
      elements already taken, and each of them is below every element left. */
  predicate Sorting(s: set<string>, out: seq<string>, todo: set<string>) {
    && todo <= s
    && Ascending(out)
    && SetOf(out) == s - todo && |out| + |todo| == |s|
    && forall i, y :: 0 <= i < |out| && y in todo ==> Below(out[i], y)
  }

  /** Taking the least remaining element keeps the invariant. */
  lemma SortStep(s: set<string>, out: seq<string>, todo: set<string>, m: string)
    requires Sorting(s, out, todo)
    requires IsLeast(m, todo)
    ensures Sorting(s, out + [m], todo - {m})
  {
    SetOfAppend(out, [m]);
    assert SetOf([m]) == {m} by {
      InSetOf([m], m);
    }
    AscendingSnoc(out, m);
    var out', todo' := out + [m], todo - {m};
    forall i, y | 0 <= i < |out'| && y in todo'
      ensures Below(out'[i], y)
    {
      if i < |out| {
        assert out'[i] == out[i];
      }
    }
  }

  lemma {:induction false} AscendingSnoc(xs: seq<string>, m: string)
    requires Ascending(xs)
    requires forall i :: 0 <= i < |xs| ==> Below(xs[i], m)
    ensures Ascending(xs + [m])
  {
    var ys := xs + [m];
    forall i, j | 0 <= i < j < |ys|
      ensures Below(ys[i], ys[j])
    {
      if j < |xs| {
        assert ys[i] == xs[i] && ys[j] == xs[j];
      } else {
        assert ys[i] == xs[i];
      }
    }
  }

  /** The least element of a non-empty set. */
  method Least(s: set<string>) returns (m: string)
    requires s != {}
    ensures m in s && forall y :: y in s && y != m ==> Below(m, y)
  {
    LeastExists(s);
    m :| IsLeast(m, s);
  }

  predicate IsLeast(m: string, s: set<string>) {
    m in s && forall y :: y in s && y != m ==> Below(m, y)
  }

  /** A non-empty finite set of strings has a least element. */
  lemma {:induction false} LeastExists(s: set<string>)
    requires s != {}
    ensures exists m :: IsLeast(m, s)
    decreases |s|
  {
    var x :| x in s;
    if s == {x} {
      assert IsLeast(x, s);
    } else {
      var rest := s - {x};
      LeastExists(rest);
      var m :| IsLeast(m, rest);
      LeastAdd(m, rest, x);
      assert rest + {x} == s;
    }
  }

  /** Adding x to a set whose least element is m: the smaller of the two is
      least. */
  lemma LeastAdd(m: string, rest: set<string>, x: string)
    requires IsLeast(m, rest) && x !in rest
    ensures IsLeast(if Below(m, x) then m else x, rest + {x})
  {
    BelowTotal(m, x);
    if !Below(m, x) {
      forall y | y in rest + {x} && y != x
        ensures Below(x, y)
      {
        if y != m {
          BelowTransitive(x, m, y);
        }
      }
    }
  }

  /** main, after reading its inputs: the files of the tree that no copied
      source covers, in sorted order. */
  method UnusedFiles(dockerfile: seq<string>, tree: Node, excludeDirs: seq<string>, excludeExts: seq<string>)
    returns (unused: seq<string>)
    ensures SetOf(unused) == AllFiles(tree, excludeDirs, excludeExts) - ResolveAll(tree, CopiedBy(dockerfile))
    ensures Ascending(unused)
  {
    var copied := ParseDockerfile(dockerfile);
    var actual := AllFiles(tree, excludeDirs, excludeExts);
    var resolved := ResolveCopied(tree, copied);
    unused := SortedStrings(actual - resolved);
  }
}
