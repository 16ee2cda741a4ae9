/** The docstring audit: every plain `def` anywhere in a module whose body
    does not open with a string literal is reported as a target (file, line,
    name); the targets of all files are sorted by (file, line) and printed as
    `relpath:lineno:name` lines.

    A path is the list of its components; the audited files are resolved
    absolute paths, so a path is the list of components below the root of
    the file system. */
module ListMissingDocstrings {
  import opened Wrappers
  import opened Strings
  import opened Seqs
  import opened PyAst

  type Path = seq<string>

  /** Target(filepath, lineno, name) */
  datatype Target = Target(filepath: Path, lineno: nat, name: string)

  /** Path("<string>"), the file path of a target when none is given. */
  const StringPath: Path := ["<string>"]

  // ----- find_missing_docstrings -----

  /** ast.get_docstring(node) is not None: the body opens with an expression
      statement whose value is a string constant. */
  predicate HasDocstring(body: seq<Stmt>) {
    body != [] && body[0].StringExpr?
  }

  /** The walk reports a node: a plain (not async) function definition
      without a docstring. */
  predicate Missing(n: Node) {
    n.StmtNode? && n.stmt.FunctionDef? && !HasDocstring(n.stmt.body)
  }

  function TargetOf(n: Node, path: Path): (t: Target)
    requires Missing(n)
  {
    Target(path, n.stmt.line, n.stmt.name)
  }

  /** The reported nodes of `ns`, in order. */
  function MissingNodes(ns: seq<Node>): (r: seq<Node>)
    ensures forall k :: 0 <= k < |r| ==> Missing(r[k])
  {
    if ns == [] then []
    else if Missing(Last(ns)) then MissingNodes(ns[..|ns| - 1]) + [Last(ns)]
    else MissingNodes(ns[..|ns| - 1])
  }

  /** The targets produced for the nodes `ns`, in order. */
  function Targets(ns: seq<Node>, path: Path): seq<Target> {
    if ns == [] then []
    else if Missing(Last(ns)) then Targets(ns[..|ns| - 1], path) + [TargetOf(Last(ns), path)]
    else Targets(ns[..|ns| - 1], path)
  }

  /** The nodes ast.walk visits in a module with statements `body`. */
  function ModuleWalk(body: seq<Stmt>): seq<Node> {
    Walk([ModuleNode(body)])
  }

  /** find_missing_docstrings(source, file_path), on the parsed module. */
  method FindMissingDocstrings(body: seq<Stmt>, filePath: Option<Path>) returns (targets: seq<Target>)
    ensures targets == Targets(ModuleWalk(body), filePath.GetOr(StringPath))
  {
    var path := filePath.GetOr(StringPath);
    var nodes := ModuleWalk(body);
    targets := [];
    for i := 0 to |nodes|
      invariant targets == Targets(nodes[..i], path)
    {
      TargetsStep(nodes, i, path);
      var node := nodes[i];
      if node.StmtNode? && node.stmt.FunctionDef? && !HasDocstring(node.stmt.body) {
        targets := targets + [Target(path, node.stmt.line, node.stmt.name)];
      }
    }
    assert nodes[..|nodes|] == nodes;
  }

  lemma TargetsStep(ns: seq<Node>, i: nat, path: Path)
    requires i < |ns|
    ensures Targets(ns[..i + 1], path)
      == if Missing(ns[i]) then Targets(ns[..i], path) + [TargetOf(ns[i], path)] else Targets(ns[..i], path)
  {
    assert ns[..i + 1][..i] == ns[..i];
  }

  /** The k-th target describes the k-th reported node: its line and name,
      and the given path. */
  lemma {:induction false} TargetsDescribeMissingNodes(ns: seq<Node>, path: Path)
    ensures |Targets(ns, path)| == |MissingNodes(ns)|
    ensures forall k :: 0 <= k < |Targets(ns, path)| ==>
      Targets(ns, path)[k] == TargetOf(MissingNodes(ns)[k], path)
  {
    if ns != [] {
      TargetsDescribeMissingNodes(ns[..|ns| - 1], path);
    }
  }

  /** A node is reported once for each of its occurrences when it is a
      function without a docstring, and never otherwise. */
  lemma {:induction false} MissingCount(ns: seq<Node>, n: Node)
    ensures multiset(MissingNodes(ns))[n] == if Missing(n) then multiset(ns)[n] else 0
  {
    if ns != [] {
      var init := ns[..|ns| - 1];
      MissingCount(init, n);
      assert ns == init + [Last(ns)];
    }
  }

  /** Every function definition anywhere in the module (methods and nested
      functions included) that has no docstring is reported exactly once;
      async functions, classes, documented functions and all other nodes
      are never reported. */
  lemma ReportsEachMissingFunctionOnce(body: seq<Stmt>, n: Node)
    ensures multiset(MissingNodes(ModuleWalk(body)))[n] ==
      if Missing(n) then AllNodes([ModuleNode(body)])[n] else 0
  {
    MissingCount(ModuleWalk(body), n);
    WalkVisitsEveryNodeOnce([ModuleNode(body)]);
  }

  // ----- main: collecting, sorting and formatting -----

  /** One audited file: its resolved path and its parsed module body. */
  datatype SourceFile = SourceFile(path: Path, body: seq<Stmt>)

  function FileTargets(f: SourceFile): seq<Target> {
    Targets(ModuleWalk(f.body), f.path)
  }

  /** The targets of all files, file after file. */
  function AllTargets(files: seq<SourceFile>): seq<Target> {
    FlatMap(files, FileTargets)
  }

  /** p < q on paths: their component lists compared lexicographically. */
  predicate PathBelow(p: Path, q: Path) {
    if p == [] then q != []
    else if q == [] then false
    else if p[0] == q[0] then PathBelow(p[1..], q[1..])
    else Below(p[0], q[0])
  }

  lemma {:induction false} PathBelowIrreflexive(p: Path)
    ensures !PathBelow(p, p)
  {
    if p != [] {
      PathBelowIrreflexive(p[1..]);
    }
  }

  lemma {:induction false} PathBelowTransitive(p: Path, q: Path, r: Path)
    requires PathBelow(p, q) && PathBelow(q, r)
    ensures PathBelow(p, r)
  {
    if p != [] && q != [] && r != [] {
      if p[0] == q[0] == r[0] {
        PathBelowTransitive(p[1..], q[1..], r[1..]);
      } else if p[0] != q[0] && q[0] != r[0] && p[0] != r[0] {
        BelowTransitive(p[0], q[0], r[0]);
      } else if p[0] == r[0] {
        BelowTransitive(p[0], q[0], r[0]);
        BelowIrreflexive(p[0]);
      }
    }
  }

  lemma {:induction false} PathBelowTotal(p: Path, q: Path)
    requires p != q
    ensures PathBelow(p, q) || PathBelow(q, p)
  {
    if p != [] && q != [] {
      if p[0] == q[0] {
        assert p == [p[0]] + p[1..] && q == [q[0]] + q[1..];
        PathBelowTotal(p[1..], q[1..]);
      } else {
        BelowTotal(p[0], q[0]);
      }
    }
  }

  /** The sort key (filepath, lineno) of a is below that of b. */
  predicate KeyBelow(a: Target, b: Target) {
    PathBelow(a.filepath, b.filepath) || (a.filepath == b.filepath && a.lineno < b.lineno)
  }

  /** a may precede b in sorted order. */
  predicate KeyAtMost(a: Target, b: Target) {
    !KeyBelow(b, a)
  }

  lemma KeyAtMostTransitive(a: Target, b: Target, c: Target)
    requires KeyAtMost(a, b) && KeyAtMost(b, c)
    ensures KeyAtMost(a, c)
  {
    if KeyBelow(c, a) {
      if a.filepath != b.filepath {
        PathBelowTotal(a.filepath, b.filepath);
      }
      if b.filepath != c.filepath {
        PathBelowTotal(b.filepath, c.filepath);
      }
      if PathBelow(a.filepath, b.filepath) && PathBelow(b.filepath, c.filepath) {
        PathBelowTransitive(a.filepath, b.filepath, c.filepath);
      }
      if PathBelow(c.filepath, a.filepath) && PathBelow(a.filepath, b.filepath) {
        PathBelowTransitive(c.filepath, a.filepath, b.filepath);
      }
      if PathBelow(b.filepath, c.filepath) && PathBelow(c.filepath, a.filepath) {
        PathBelowTransitive(b.filepath, c.filepath, a.filepath);
      }
      PathBelowIrreflexive(a.filepath);
      PathBelowIrreflexive(b.filepath);
      PathBelowIrreflexive(c.filepath);
    }
  }

  lemma KeyAtMostTotal(a: Target, b: Target)
    ensures KeyAtMost(a, b) || KeyAtMost(b, a)
  {
    if KeyBelow(a, b) && KeyBelow(b, a) {
      if PathBelow(a.filepath, b.filepath) && PathBelow(b.filepath, a.filepath) {
        PathBelowTransitive(a.filepath, b.filepath, a.filepath);
      }
      PathBelowIrreflexive(a.filepath);
    }
  }

  /** Ordered by (filepath, lineno). */
  predicate Sorted(s: seq<Target>) {
    forall i, j :: 0 <= i < j < |s| ==> KeyAtMost(s[i], s[j])
  }

  /** missing.sort(key=lambda t: (t.filepath, t.lineno)), in place. */
  method SortTargets(a: array<Target>)
    modifies a
    ensures Sorted(a[..])
    ensures multiset(a[..]) == multiset(old(a[..]))
  {
    for i := 0 to a.Length
      invariant Sorted(a[..i])
      invariant multiset(a[..]) == multiset(old(a[..]))
    {
      Insert(a, i);
    }
  }

  /** Insertion of s[i] into the sorted s[..i] is under way and has brought
      it to position j: s[..i + 1] without s[j] is sorted, and s[j] is at
      most everything after it. */
  predicate Inserting(s: seq<Target>, i: nat, j: nat) {
    j <= i < |s| &&
    (forall k, l :: 0 <= k < l <= i && k != j && l != j ==> KeyAtMost(s[k], s[l])) &&
    (forall l :: j < l <= i ==> KeyAtMost(s[j], s[l]))
  }

  /** s with positions j - 1 and j exchanged. */
  function Swapped(s: seq<Target>, j: nat): (r: seq<Target>)
    requires 0 < j < |s|
    ensures multiset(r) == multiset(s)
  {
    s[j - 1 := s[j]][j := s[j - 1]]
  }

  lemma InsertStart(s: seq<Target>, i: nat)
    requires i < |s| && Sorted(s[..i])
    ensures Inserting(s, i, i)
  {
    assert forall k :: 0 <= k < i ==> s[..i][k] == s[k];
  }

  lemma InsertStep(s: seq<Target>, i: nat, j: nat)
    requires Inserting(s, i, j) && 0 < j && KeyBelow(s[j], s[j - 1])
    ensures Inserting(Swapped(s, j), i, j - 1)
  {
    KeyAtMostTotal(s[j], s[j - 1]);
  }

  lemma InsertDone(s: seq<Target>, i: nat, j: nat)
    requires Inserting(s, i, j) && (j == 0 || !KeyBelow(s[j], s[j - 1]))
    ensures Sorted(s[..i + 1])
  {
    forall k | 0 <= k < j
      ensures KeyAtMost(s[k], s[j])
    {
      if k < j - 1 {
        KeyAtMostTransitive(s[k], s[j - 1], s[j]);
      }
    }
    assert forall k :: 0 <= k <= i ==> s[..i + 1][k] == s[k];
  }

  /** Moves a[i] left past every larger key, keeping a[..i] sorted. */
  method Insert(a: array<Target>, i: nat)
    requires i < a.Length
    requires Sorted(a[..i])
    modifies a
    ensures Sorted(a[..i + 1])
    ensures multiset(a[..]) == multiset(old(a[..]))
  {
    InsertStart(a[..], i);
    var j: nat := i;
    while j > 0 && KeyBelow(a[j], a[j - 1])
      invariant Inserting(a[..], i, j)
      invariant multiset(a[..]) == multiset(old(a[..]))
    {
      InsertStep(a[..], i, j);
      Swap(a, j);
      j := j - 1;
    }
    InsertDone(a[..], i, j);
  }

  /** Exchanges a[j - 1] and a[j]. */
  method Swap(a: array<Target>, j: nat)
    requires 0 < j < a.Length
    modifies a
    ensures a[..] == Swapped(old(a[..]), j)
  {
    a[j], a[j - 1] := a[j - 1], a[j];
  }

  /** No two targets share a (filepath, lineno) key. */
  predicate DistinctKeys(s: seq<Target>) {
    forall i, j :: 0 <= i < j < |s| ==> s[i].filepath != s[j].filepath || s[i].lineno != s[j].lineno
  }

  lemma KeyAtMostBothWays(a: Target, b: Target)
    requires KeyAtMost(a, b) && KeyAtMost(b, a)
    ensures a.filepath == b.filepath && a.lineno == b.lineno
  {
    if a.filepath != b.filepath {
      PathBelowTotal(a.filepath, b.filepath);
    }
  }

  lemma SortedTail(s: seq<Target>)
    requires s != [] && Sorted(s)
    ensures Sorted(s[1..])
  {
    assert forall k :: 0 <= k < |s| - 1 ==> s[1..][k] == s[k + 1];
  }

  lemma DistinctTail(s: seq<Target>)
    requires s != [] && DistinctKeys(s)
    ensures DistinctKeys(s[1..])
  {
    assert forall k :: 0 <= k < |s| - 1 ==> s[1..][k] == s[k + 1];
  }

  /** Of two sorted lists holding the same targets, the first of one is at
      most the first of the other. */
  lemma HeadAtMost(s: seq<Target>, t: seq<Target>)
    requires s != [] && t != [] && Sorted(s) && t[0] in s
    ensures KeyAtMost(s[0], t[0])
  {
    var i :| 0 <= i < |s| && s[i] == t[0];
    if i == 0 {
      KeyAtMostTotal(s[0], s[0]);
    }
  }

  lemma HeadsEqual(s: seq<Target>, t: seq<Target>)
    requires s != [] && Sorted(s) && Sorted(t) && multiset(s) == multiset(t) && DistinctKeys(s)
    ensures t != [] && s[0] == t[0]
  {
    assert s[0] in multiset(t);
    assert t[0] in multiset(s);
    HeadAtMost(s, t);
    HeadAtMost(t, s);
    KeyAtMostBothWays(s[0], t[0]);
    var i :| 0 <= i < |s| && s[i] == t[0];
    assert i == 0;
  }

  /** The sort makes the output deterministic: when keys are distinct, the
      order in which the targets were collected does not matter. */
  lemma {:induction false} SortedIsUnique(s: seq<Target>, t: seq<Target>)
    requires Sorted(s) && Sorted(t) && multiset(s) == multiset(t) && DistinctKeys(s)
    ensures s == t
    decreases |s|
  {
    assert |s| == |multiset(s)| == |multiset(t)| == |t|;
    if s != [] {
      HeadsEqual(s, t);
      TailsSameElements(s, t);
      SortedTail(s);
      SortedTail(t);
      DistinctTail(s);
      SortedIsUnique(s[1..], t[1..]);
    }
  }

  lemma TailsSameElements(s: seq<Target>, t: seq<Target>)
    requires s != [] && t != [] && s[0] == t[0] && multiset(s) == multiset(t)
    ensures multiset(s[1..]) == multiset(t[1..])
  {
    assert s == [s[0]] + s[1..] && t == [t[0]] + t[1..];
    assert multiset(s) == multiset{s[0]} + multiset(s[1..]);
    assert multiset(t) == multiset{s[0]} + multiset(t[1..]);
    assert multiset(s[1..]) == multiset(s) - multiset{s[0]};
    assert multiset(t[1..]) == multiset(t) - multiset{s[0]};
  }

  /** str(t.filepath.relative_to(root)): the components below the root
      joined by "/", or "." for the root itself. */
  function RelativePath(root: Path, p: Path): string
    requires root <= p
  {
    var rest := p[|root|..];
    if rest == [] then "." else Join(rest, "/")
  }

  /** f"{relpath}:{lineno}:{name}" */
  function FormatLine(root: Path, t: Target): string
    requires root <= t.filepath
  {
    RelativePath(root, t.filepath) + ":" + Decimal(t.lineno) + ":" + t.name
  }

  /** The report lines, one per target, in order. */
  function Lines(root: Path, ts: seq<Target>): (r: seq<string>)
    requires forall t :: t in ts ==> root <= t.filepath
    ensures |r| == |ts|
    ensures forall k :: 0 <= k < |ts| ==> r[k] == FormatLine(root, ts[k])
  {
    seq(|ts|, k requires 0 <= k < |ts| => FormatLine(root, ts[k]))
  }

  /** The position of the last occurrence of c in s, if any. */
  function LastIndexOf(s: string, c: char): (r: Option<nat>)
    ensures r.Some? ==>
      r.value < |s| && s[r.value] == c && (forall k :: r.value < k < |s| ==> s[k] != c)
    ensures r.None? ==> c !in s
  {
    if s == [] then None
    else if Last(s) == c then Some(|s| - 1)
    else LastIndexOf(s[..|s| - 1], c)
  }

  /** Splits a report line back into (relpath, lineno text, name) at its
      last two colons. */
  function ReadLine(line: string): Option<(string, string, string)> {
    match LastIndexOf(line, ':')
    case None => None
    case Some(j) =>
      match LastIndexOf(line[..j], ':')
      case None => None
      case Some(i) => Some((line[..i], line[i + 1..j], line[j + 1..]))
  }

  lemma LastIndexOfAfter(s: string, c: char, t: string)
    requires c !in t
    ensures LastIndexOf(s + [c] + t, c) == Some(|s|)
    decreases |t|
  {
    var u := s + [c] + t;
    if t == [] {
      assert Last(u) == c;
    } else {
      assert Last(u) == Last(t);
      assert u[..|u| - 1] == s + [c] + t[..|t| - 1];
      LastIndexOfAfter(s, c, t[..|t| - 1]);
    }
  }

  /** A report line reads back as the relative path, the line number and
      the function name: a Python identifier never holds a colon. */
  lemma ReadLineRoundTrip(root: Path, t: Target)
    requires root <= t.filepath
    requires ':' !in t.name
    ensures ReadLine(FormatLine(root, t)) ==
      Some((RelativePath(root, t.filepath), Decimal(t.lineno), t.name))
  {
    var rel := RelativePath(root, t.filepath);
    var digits := Decimal(t.lineno);
    var line := FormatLine(root, t);
    assert ':' !in digits by {
      forall k | 0 <= k < |digits|
        ensures digits[k] != ':'
      {
        assert digits[k] in digits;
      }
    }
    assert line == (rel + ":" + digits) + [':'] + t.name;
    LastIndexOfAfter(rel + ":" + digits, ':', t.name);
    var j := |rel + ":" + digits|;
    assert line[..j] == rel + [':'] + digits;
    LastIndexOfAfter(rel, ':', digits);
    assert line[..|rel|] == rel;
    assert line[|rel| + 1..j] == digits;
    assert line[j + 1..] == t.name;
  }

  /** What main reports. */
  datatype Outcome =
    | NoFiles          // "No *.py files found."
    | NothingMissing   // "No missing docstrings found.": no report, no list
    | Listing(lines: seq<string>)

  /** The collection, sort and formatting of main, over the files found under
      `root` (each already read and parsed); `sorted` is the sorted list. */
  method Audit(root: Path, files: seq<SourceFile>) returns (outcome: Outcome, sorted: seq<Target>)
    requires forall f :: f in files ==> root <= f.path
    ensures outcome == NoFiles <==> files == []
    ensures outcome == NothingMissing <==> files != [] && AllTargets(files) == []
    ensures outcome.Listing? ==>
      Sorted(sorted) && multiset(sorted) == multiset(AllTargets(files)) &&
      (forall t :: t in sorted ==> root <= t.filepath) &&
      outcome.lines == Lines(root, sorted)
  {
    if files == [] {
      return NoFiles, [];
    }
    var missing := CollectTargets(files);
    if missing == [] {
      return NothingMissing, [];
    }
    var a := new Target[|missing|](k requires 0 <= k < |missing| => missing[k]);
    assert a[..] == missing;
    SortTargets(a);
    sorted := a[..];
    forall t | t in sorted
      ensures root <= t.filepath
    {
      assert t in multiset(missing);
      AllTargetsUnderRoot(root, files, t);
    }
    outcome := Listing(Lines(root, sorted));
  }

  /** The loop of main that extends `missing` file after file. */
  method CollectTargets(files: seq<SourceFile>) returns (missing: seq<Target>)
    ensures missing == AllTargets(files)
  {
    missing := [];
    for i := 0 to |files|
      invariant missing == AllTargets(files[..i])
    {
      assert files[..i + 1][..i] == files[..i];
      var found := FindMissingDocstrings(files[i].body, Some(files[i].path));
      missing := missing + found;
    }
    assert files[..|files|] == files;
  }

  /** Every target of a file carries that file's path. */
  lemma {:induction false} TargetsCarryPath(ns: seq<Node>, path: Path)
    ensures forall t :: t in Targets(ns, path) ==> t.filepath == path
  {
    if ns != [] {
      TargetsCarryPath(ns[..|ns| - 1], path);
    }
  }

  lemma AllTargetsUnderRoot(root: Path, files: seq<SourceFile>, t: Target)
    requires forall f :: f in files ==> root <= f.path
    requires t in AllTargets(files)
    ensures root <= t.filepath
  {
    FlatMapMember(files, FileTargets, t);
    var i :| 0 <= i < |files| && t in FileTargets(files[i]);
    TargetsCarryPath(ModuleWalk(files[i].body), files[i].path);
  }
}
