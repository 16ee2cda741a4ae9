/** logic_map.py: the condensed "logic map" of a Python module. Only logical
    statements become tree nodes; every other node is looked through, its
    logical descendants hanging under the nearest logical ancestor. A try
    node gets one synthetic branch per handler and optional `else` and
    `finally` branches, and if/for/while nodes an optional `else` branch.

    The tree is grown in place by `_add_children` and `_add_stmt_list`
    (methods on a `Tree` arena below); `Children` and `FoldAll` are the same
    traversal as pure functions, and the methods are proved to append exactly
    the pre-order encoding of what those functions compute. */
module LogicMap {
  import opened Wrappers
  import opened Strings
  import opened PyAst
  import opened TextWrap
  import opened ExprText
  import opened TreeArena

  // ----- the allow-list -----

  /** BASE_LOGICAL_NODES */
  const BaseLogicalNodes: set<Kind> :=
    {ClassDefKind, FunctionDefKind, AsyncFunctionDefKind, IfKind, ForKind, WhileKind, WithKind, TryKind, MatchKind}

  /** EXIT_NODES */
  const ExitNodes: set<Kind> := {ReturnKind, BreakKind, ContinueKind}

  /** RAISE_NODES */
  const RaiseNodes: set<Kind> := {RaiseKind}

  /** The node tuple show_logic_map assembles from its two switches. */
  function NodeSet(includeExits: bool, includeRaises: bool): (nodes: set<Kind>)
    ensures forall k :: k in BaseLogicalNodes ==> k in nodes
    ensures forall k :: k in nodes ==> k in BaseLogicalNodes || k in ExitNodes || k in RaiseNodes
    ensures ReturnKind in nodes <==> includeExits
    ensures BreakKind in nodes <==> includeExits
    ensures ContinueKind in nodes <==> includeExits
    ensures RaiseKind in nodes <==> includeRaises
  {
    var nodes := BaseLogicalNodes;
    var nodes := if includeExits then nodes + ExitNodes else nodes;
    if includeRaises then nodes + RaiseNodes else nodes
  }

  /** Kinds no switch ever makes logical. */
  lemma NeverLogical(includeExits: bool, includeRaises: bool)
    ensures var nodes := NodeSet(includeExits, includeRaises);
      && AsyncForKind !in nodes && AsyncWithKind !in nodes && TryStarKind !in nodes
      && ExceptHandlerKind !in nodes && MatchCaseKind !in nodes && ModuleKind !in nodes
      && ExprKind !in nodes && SimpleKind !in nodes
  {
  }

  // ----- labels -----

  /** The text appended for a shown line number. */
  function LinenoSuffix(lineno: nat): string {
    " [dim](L" + Decimal(lineno) + ")[/]"
  }

  /** `_with_lineno_text(text, lineno, show)`: the text, followed by the line
      number exactly when one is to be shown and exists. */
  function WithLinenoText(text: string, lineno: Option<nat>, show: bool): (r: string)
    ensures text <= r
    ensures r == text <==> !(show && lineno.Some?)
    ensures show && lineno.Some? ==>
      exists digits :: AllDigits(digits) && DigitsValue(digits) == lineno.value
        && r == text + " [dim](L" + digits + ")[/]"
  {
    if show && lineno.Some? then
      DecimalRoundTrip(lineno.value);
      text + LinenoSuffix(lineno.value)
    else text
  }

  /** Whether `_label` calls `_expr` for the node: always for the if, for,
      while, with and match labels, for a return label when it has a value,
      and for a raise label when it has an exception. */
  predicate LabelNeedsExpr(n: Node) {
    n.StmtNode? && (
      || n.stmt.If? || n.stmt.For? || n.stmt.While? || n.stmt.With? || n.stmt.Match?
      || (n.stmt.Return? && n.stmt.value.Some?)
      || (n.stmt.Raise? && n.stmt.exc.Some?))
  }

  /** The per-kind text of `_label`, before the line number. A width textwrap
      rejects is harmless exactly when the label calls no `_expr`. */
  function LabelText(n: Node, maxLen: int): string
    requires WidthOk(maxLen) || !LabelNeedsExpr(n)
  {
    match n
    case StmtNode(ClassDef(name, _, _)) => "[cyan]class[/] [bold]" + name
    case StmtNode(FunctionDef(name, _, _)) => "[green]def[/] [bold]" + name + "()"
    case StmtNode(AsyncFunctionDef(name, _, _)) => "[green]async def[/] [bold]" + name + "()"
    case StmtNode(If(test, _, _, _)) => "[magenta]if[/] " + ShortExpr(test, maxLen)
    case StmtNode(For(target, iter, _, _, _)) =>
      "[magenta]for[/] " + ShortExpr(target, maxLen) + " in " + ShortExpr(iter, maxLen)
    case StmtNode(While(test, _, _, _)) => "[magenta]while[/] " + ShortExpr(test, maxLen)
    case StmtNode(With(item, _, _, _)) => "[magenta]with[/] " + ShortExpr(item, maxLen)
    case StmtNode(Try(_, _, _, _, _)) => "[magenta]try[/]"
    case StmtNode(Match(subject, _, _)) => "[magenta]match[/] " + ShortExpr(subject, maxLen)
    case StmtNode(Return(value, _)) =>
      if value.None? then "[red]return[/]" else "[red]return[/] " + ShortExpr(value.value, maxLen)
    case StmtNode(Break(_)) => "[red]break[/]"
    case StmtNode(Continue(_)) => "[red]continue[/]"
    case StmtNode(Raise(exc, cause, _)) => "[red]raise[/]" + RaiseTail(exc, cause, maxLen)
    case _ => TypeName(n)
  }

  /** The part of a raise label after "raise": the exception, and the cause
      only when there is an exception. */
  function RaiseTail(exc: Option<Expr>, cause: Option<Expr>, maxLen: int): string
    requires WidthOk(maxLen) || exc.None?
  {
    var parts := if exc.None? then []
      else if cause.None? then [ShortExpr(exc.value, maxLen)]
      else [ShortExpr(exc.value, maxLen), "from " + ShortExpr(cause.value, maxLen)];
    if parts == [] then "" else " " + Join(parts, " ")
  }

  /** `_label(node, max_len=..., show_lineno=...)` */
  function Label(n: Node, maxLen: int, show: bool): (r: string)
    requires WidthOk(maxLen) || !LabelNeedsExpr(n)
    ensures LabelText(n, maxLen) <= r
  {
    WithLinenoText(LabelText(n, maxLen), LineOf(n), show)
  }

  const ElseLabel: string := "[magenta]else[/]"
  const FinallyLabel: string := "[magenta]finally[/]"

  /** The literal the if-branch of `_add_children` builds its else label from. */
  function IfElseLabel(): string {
    Replace("[magenta]else//[/]", "//", "")
  }

  /** Whether an except clause binds a name (`getattr(h, "name", None)` is
      truthy). */
  predicate Named(h: Handler) {
    h.name.Some? && h.name.value != ""
  }

  /** The label of a handler branch: "except", then the exception type and
      " as <name>" when there are any, then the handler's line number. */
  function HandlerLabel(h: Handler, maxLen: int, show: bool): string
    requires WidthOk(maxLen) || h.exceptionType.None?
  {
    WithLinenoText(HandlerText(h, maxLen), Some(h.line), show)
  }

  /** The handler label before the line number. */
  function HandlerText(h: Handler, maxLen: int): string
    requires WidthOk(maxLen) || h.exceptionType.None?
  {
    var exc := if h.exceptionType.Some? then ShortExpr(h.exceptionType.value, maxLen) else "";
    var name := if Named(h) then " as " + h.name.value else "";
    "[magenta]except[/]" + (if exc != "" || name != "" then " " + exc + name else "")
  }

  // ----- where the fold calls `_expr` -----

  /** Whether `_add_children(branch, n, ...)` reaches a call of `_expr`: the
      same traversal as `Children`, asking of each label whether it needs
      one. Every such call raises ValueError for a width textwrap rejects. */
  predicate ChildrenNeedExpr(n: Node, nodes: set<Kind>)
    decreases NodeSize(n), 1
  {
    if n.StmtNode? && n.stmt.Try? then
      var s := n.stmt;
      StmtsNodesSize(s.body);
      FoldAllNeedsExpr(Stmts(s.body), nodes) || HandlersNeedExpr(s.handlers, nodes)
        || ClauseNeedsExpr(s.orelse, nodes) || ClauseNeedsExpr(s.finalbody, nodes)
    else if n.StmtNode? && (n.stmt.If? || n.stmt.For? || n.stmt.While?) then
      StmtsNodesSize(n.stmt.body);
      FoldAllNeedsExpr(Stmts(n.stmt.body), nodes) || ClauseNeedsExpr(n.stmt.orelse, nodes)
    else
      ChildNodesSmaller(n);
      FoldAllNeedsExpr(ChildNodes(n), nodes)
  }

  /** An else/finally clause: its own label is a literal. */
  predicate ClauseNeedsExpr(ss: seq<Stmt>, nodes: set<Kind>)
    decreases StmtsSize(ss), 1
  {
    StmtsNodesSize(ss);
    FoldAllNeedsExpr(Stmts(ss), nodes)
  }

  /** One handler branch: its label shortens the exception type, if any. */
  predicate HandlerNeedsExpr(h: Handler, nodes: set<Kind>)
    decreases StmtsSize(h.body), 1
  {
    StmtsNodesSize(h.body);
    h.exceptionType.Some? || FoldAllNeedsExpr(Stmts(h.body), nodes)
  }

  predicate HandlersNeedExpr(hs: seq<Handler>, nodes: set<Kind>)
    decreases HandlersSize(hs), 0
  {
    hs != [] && (HandlerNeedsExpr(hs[0], nodes) || HandlersNeedExpr(hs[1..], nodes))
  }

  predicate FoldOneNeedsExpr(n: Node, nodes: set<Kind>)
    decreases NodeSize(n), 2
  {
    (KindOf(n) in nodes && LabelNeedsExpr(n)) || ChildrenNeedExpr(n, nodes)
  }

  predicate FoldAllNeedsExpr(ns: seq<Node>, nodes: set<Kind>)
    decreases NodesSize(ns), 0
  {
    ns != [] && (HeadSmaller(ns); FoldOneNeedsExpr(ns[0], nodes) || FoldAllNeedsExpr(ns[1..], nodes))
  }

  /** Whether show_logic_map reaches a call of `_expr` for a module. */
  predicate LogicMapNeedsExpr(body: seq<Stmt>, includeExits: bool, includeRaises: bool) {
    ChildrenNeedExpr(ModuleNode(body), NodeSet(includeExits, includeRaises))
  }

  // ----- the fold, as a function -----

  /** The branches `_add_children(branch, n, ...)` adds under `branch`. */
  function Children(n: Node, nodes: set<Kind>, maxLen: int, show: bool): seq<LNode<string>>
    requires WidthOk(maxLen) || !ChildrenNeedExpr(n, nodes)
    decreases NodeSize(n), 1
  {
    if n.StmtNode? && n.stmt.Try? then
      TryBranches(n.stmt, nodes, maxLen, show)
    else if n.StmtNode? && (n.stmt.If? || n.stmt.For? || n.stmt.While?) then
      BodyAndElse(n.stmt, nodes, maxLen, show)
    else
      ChildNodesSmaller(n);
      FoldAll(ChildNodes(n), nodes, maxLen, show)
  }

  /** The try case: the body, one branch per handler, then the else and
      finally clauses. */
  function TryBranches(s: Stmt, nodes: set<Kind>, maxLen: int, show: bool): seq<LNode<string>>
    requires s.Try?
    requires WidthOk(maxLen) || !(FoldAllNeedsExpr(Stmts(s.body), nodes) || HandlersNeedExpr(s.handlers, nodes)
      || ClauseNeedsExpr(s.orelse, nodes) || ClauseNeedsExpr(s.finalbody, nodes))
    decreases StmtSize(s), 0
  {
    StmtsNodesSize(s.body);
    FoldAll(Stmts(s.body), nodes, maxLen, show) + HandlerBranches(s.handlers, nodes, maxLen, show)
      + Clause(ElseLabel, s.orelse, nodes, maxLen, show) + Clause(FinallyLabel, s.finalbody, nodes, maxLen, show)
  }

  /** The if and loop cases: the body, then the else clause, whose caption
      the if case builds from its own literal. */
  function BodyAndElse(s: Stmt, nodes: set<Kind>, maxLen: int, show: bool): seq<LNode<string>>
    requires s.If? || s.For? || s.While?
    requires WidthOk(maxLen) || !(FoldAllNeedsExpr(Stmts(s.body), nodes) || ClauseNeedsExpr(s.orelse, nodes))
    decreases StmtSize(s), 0
  {
    StmtsNodesSize(s.body);
    FoldAll(Stmts(s.body), nodes, maxLen, show) + Clause(if s.If? then IfElseLabel() else ElseLabel, s.orelse, nodes, maxLen, show)
  }

  /** An optional `else`/`finally` branch: none for an empty clause, else one
      branch labelled with the line of the clause's first statement. */
  function Clause(caption: string, ss: seq<Stmt>, nodes: set<Kind>, maxLen: int, show: bool): seq<LNode<string>>
    requires WidthOk(maxLen) || !ClauseNeedsExpr(ss, nodes)
    decreases StmtsSize(ss), 1
  {
    StmtsNodesSize(ss);
    if ss == [] then []
    else [LNode(WithLinenoText(caption, Some(ss[0].line), show), FoldAll(Stmts(ss), nodes, maxLen, show))]
  }

  /** One `except` branch per handler, in handler order. */
  function HandlerBranches(hs: seq<Handler>, nodes: set<Kind>, maxLen: int, show: bool): (r: seq<LNode<string>>)
    requires WidthOk(maxLen) || !HandlersNeedExpr(hs, nodes)
    ensures |r| == |hs|
    decreases HandlersSize(hs), 0
  {
    if hs == [] then []
    else
      StmtsNodesSize(hs[0].body);
      assert WidthOk(maxLen) || !HandlerNeedsExpr(hs[0], nodes);
      [LNode(HandlerLabel(hs[0], maxLen, show), FoldAll(Stmts(hs[0].body), nodes, maxLen, show))]
        + HandlerBranches(hs[1..], nodes, maxLen, show)
  }

  /** What one node met by `_add_stmt_list` or the generic descent adds: a
      labelled node holding its children when it is logical, its children
      directly otherwise. */
  function FoldOne(n: Node, nodes: set<Kind>, maxLen: int, show: bool): seq<LNode<string>>
    requires WidthOk(maxLen) || !FoldOneNeedsExpr(n, nodes)
    decreases NodeSize(n), 2
  {
    if KindOf(n) in nodes then [LNode(Label(n, maxLen, show), Children(n, nodes, maxLen, show))]
    else Children(n, nodes, maxLen, show)
  }

  function FoldAll(ns: seq<Node>, nodes: set<Kind>, maxLen: int, show: bool): seq<LNode<string>>
    requires WidthOk(maxLen) || !FoldAllNeedsExpr(ns, nodes)
    decreases NodesSize(ns), 0
  {
    if ns == [] then []
    else
      HeadSmaller(ns);
      FoldOne(ns[0], nodes, maxLen, show) + FoldAll(ns[1..], nodes, maxLen, show)
  }

  /** The branches show_logic_map hangs under the root for a parsed module. */
  function LogicMapOf(body: seq<Stmt>, includeExits: bool, includeRaises: bool, exprWidth: int, show: bool): seq<LNode<string>>
    requires WidthOk(exprWidth) || !LogicMapNeedsExpr(body, includeExits, includeRaises)
  {
    Children(ModuleNode(body), NodeSet(includeExits, includeRaises), exprWidth, show)
  }

  // ----- the fold, in place -----

  lemma {:induction false} FoldAllSnoc(ns: seq<Node>, n: Node, nodes: set<Kind>, maxLen: int, show: bool)
    ensures FoldAllNeedsExpr(ns + [n], nodes) <==> FoldAllNeedsExpr(ns, nodes) || FoldOneNeedsExpr(n, nodes)
    ensures WidthOk(maxLen) || !FoldAllNeedsExpr(ns + [n], nodes) ==>
      FoldAll(ns + [n], nodes, maxLen, show) == FoldAll(ns, nodes, maxLen, show) + FoldOne(n, nodes, maxLen, show)
  {
    FoldAllAppend(ns, [n], nodes, maxLen, show);
    assert [n][1..] == [];
  }

  lemma {:induction false} HandlerBranchesSnoc(hs: seq<Handler>, h: Handler, nodes: set<Kind>, maxLen: int, show: bool)
    ensures HandlersNeedExpr(hs + [h], nodes) <==> HandlersNeedExpr(hs, nodes) || HandlerNeedsExpr(h, nodes)
    ensures WidthOk(maxLen) || !HandlersNeedExpr(hs + [h], nodes) ==>
      HandlerBranches(hs + [h], nodes, maxLen, show)
        == HandlerBranches(hs, nodes, maxLen, show) + [LNode(HandlerLabel(h, maxLen, show), FoldAll(Stmts(h.body), nodes, maxLen, show))]
    decreases |hs|
  {
    if hs == [] {
      assert [h][1..] == [];
    } else {
      assert (hs + [h])[0] == hs[0] && (hs + [h])[1..] == hs[1..] + [h];
      HandlerBranchesSnoc(hs[1..], h, nodes, maxLen, show);
    }
  }

  /** One step of the loops over statements and child nodes: the arena that
      holds the fold of the first i nodes, extended by node i's fold, holds
      the fold of the first i + 1. */
  lemma {:induction false} FoldStep(start: seq<Entry<string>>, prev: seq<Entry<string>>, branch: nat, ns: seq<Node>, i: nat,
                 nodes: set<Kind>, maxLen: int, show: bool)
    requires i < |ns|
    requires WidthOk(maxLen) || (!FoldAllNeedsExpr(ns[..i], nodes) && !FoldOneNeedsExpr(ns[i], nodes))
    requires prev == start + Emit(branch, |start|, FoldAll(ns[..i], nodes, maxLen, show))
    ensures WidthOk(maxLen) || !FoldAllNeedsExpr(ns[..i + 1], nodes)
    ensures prev + Emit(branch, |prev|, FoldOne(ns[i], nodes, maxLen, show))
         == start + Emit(branch, |start|, FoldAll(ns[..i + 1], nodes, maxLen, show))
  {
    FoldAllPrefix(ns, i, nodes, maxLen, show);
    EmitStep(start, prev, branch, FoldAll(ns[..i], nodes, maxLen, show), FoldOne(ns[i], nodes, maxLen, show));
  }

  lemma {:induction false} FoldAllPrefix(ns: seq<Node>, i: nat, nodes: set<Kind>, maxLen: int, show: bool)
    requires i < |ns|
    ensures FoldAllNeedsExpr(ns[..i + 1], nodes) <==> FoldAllNeedsExpr(ns[..i], nodes) || FoldOneNeedsExpr(ns[i], nodes)
    ensures WidthOk(maxLen) || !FoldAllNeedsExpr(ns[..i + 1], nodes) ==>
      FoldAll(ns[..i + 1], nodes, maxLen, show) == FoldAll(ns[..i], nodes, maxLen, show) + FoldOne(ns[i], nodes, maxLen, show)
  {
    var a := ns[..i];
    assert ns[..i + 1] == a + [ns[i]];
    FoldAllSnoc(a, ns[i], nodes, maxLen, show);
  }

  /** A node that reaches `_expr` makes every list holding it reach `_expr`. */
  lemma {:induction false} FoldAllNeedsExprAt(ns: seq<Node>, i: nat, nodes: set<Kind>)
    requires i < |ns| && FoldOneNeedsExpr(ns[i], nodes)
    ensures FoldAllNeedsExpr(ns, nodes)
    decreases i
  {
    if i > 0 {
      FoldAllNeedsExprAt(ns[1..], i - 1, nodes);
    }
  }

  /** A handler that reaches `_expr` makes its try statement's handler loop
      reach `_expr`. */
  lemma {:induction false} HandlersNeedExprAt(hs: seq<Handler>, j: nat, nodes: set<Kind>)
    requires j < |hs| && HandlerNeedsExpr(hs[j], nodes)
    ensures HandlersNeedExpr(hs, nodes)
    decreases j
  {
    if j > 0 {
      HandlersNeedExprAt(hs[1..], j - 1, nodes);
    }
  }

  /** One node met by `_add_stmt_list` or by the generic descent. `ok` is
      false when a call of `_expr` raised ValueError; the arena then holds
      what was added before the error. */
  method AddNode(t: Tree<string>, branch: nat, n: Node, nodes: set<Kind>, maxLen: int, show: bool) returns (ok: bool)
    requires t.Valid() && branch < |t.nodes|
    modifies t
    ensures t.Valid() && t.expanded == old(t.expanded) && old(t.nodes) <= t.nodes
    ensures ok <==> WidthOk(maxLen) || !FoldOneNeedsExpr(n, nodes)
    ensures ok ==> t.nodes == old(t.nodes) + Emit(branch, |old(t.nodes)|, FoldOne(n, nodes, maxLen, show))
    decreases NodeSize(n), 3
  {
    FoldOneCases(n, nodes, maxLen, show);
    if KindOf(n) in nodes {
      ok := AddLogical(t, branch, n, nodes, maxLen, show);
    } else {
      ok := AddChildren(t, branch, n, nodes, maxLen, show);
    }
  }

  /** A logical node: its own branch, labelled, holding its children. A label
      that calls `_expr` with a rejected width raises before the branch is
      added. */
  method AddLogical(t: Tree<string>, branch: nat, n: Node, nodes: set<Kind>, maxLen: int, show: bool) returns (ok: bool)
    requires t.Valid() && branch < |t.nodes|
    modifies t
    ensures t.Valid() && t.expanded == old(t.expanded) && old(t.nodes) <= t.nodes
    ensures ok <==> WidthOk(maxLen) || !(LabelNeedsExpr(n) || ChildrenNeedExpr(n, nodes))
    ensures ok ==> t.nodes == old(t.nodes) + Emit(branch, |old(t.nodes)|, [LNode(Label(n, maxLen, show), Children(n, nodes, maxLen, show))])
    decreases NodeSize(n), 2
  {
    if !WidthOk(maxLen) && LabelNeedsExpr(n) {
      return false;
    }
    ghost var start := t.nodes;
    var childBranch := t.Add(branch, Label(n, maxLen, show));
    ok := AddChildren(t, childBranch, n, nodes, maxLen, show);
    if ok {
      BranchEmit(start, branch, Label(n, maxLen, show), Children(n, nodes, maxLen, show));
    }
  }

  lemma FoldOneCases(n: Node, nodes: set<Kind>, maxLen: int, show: bool)
    ensures FoldOneNeedsExpr(n, nodes) <==> (KindOf(n) in nodes && LabelNeedsExpr(n)) || ChildrenNeedExpr(n, nodes)
    ensures WidthOk(maxLen) || !FoldOneNeedsExpr(n, nodes) ==>
      && (KindOf(n) in nodes ==> FoldOne(n, nodes, maxLen, show) == [LNode(Label(n, maxLen, show), Children(n, nodes, maxLen, show))])
      && (KindOf(n) !in nodes ==> FoldOne(n, nodes, maxLen, show) == Children(n, nodes, maxLen, show))
  {
  }

  /** `_add_stmt_list(branch, stmts, nodes, ...)` */
  method AddStmtList(t: Tree<string>, branch: nat, stmts: seq<Stmt>, nodes: set<Kind>, maxLen: int, show: bool) returns (ok: bool)
    requires t.Valid() && branch < |t.nodes|
    modifies t
    ensures t.Valid() && t.expanded == old(t.expanded) && old(t.nodes) <= t.nodes
    ensures ok <==> WidthOk(maxLen) || !FoldAllNeedsExpr(Stmts(stmts), nodes)
    ensures ok ==> t.nodes == old(t.nodes) + Emit(branch, |old(t.nodes)|, FoldAll(Stmts(stmts), nodes, maxLen, show))
    decreases StmtsSize(stmts), 1
  {
    ghost var ns := Stmts(stmts);
    for i := 0 to |stmts|
      invariant t.Valid() && t.expanded == old(t.expanded) && branch < |t.nodes|
      invariant WidthOk(maxLen) || !FoldAllNeedsExpr(ns[..i], nodes)
      invariant t.nodes == old(t.nodes) + Emit(branch, |old(t.nodes)|, FoldAll(ns[..i], nodes, maxLen, show))
    {
      ghost var prev := t.nodes;
      StmtInStmtsSmaller(stmts, i);
      ok := AddNode(t, branch, StmtNode(stmts[i]), nodes, maxLen, show);
      if !ok {
        FoldAllNeedsExprAt(ns, i, nodes);
        return;
      }
      FoldStep(old(t.nodes), prev, branch, ns, i, nodes, maxLen, show);
    }
    assert ns[..|stmts|] == ns;
    ok := true;
  }

  /** One synthetic branch (`except ...`, `else`, `finally`) and its
      statements. */
  method AddBranch(t: Tree<string>, branch: nat, caption: string, stmts: seq<Stmt>, nodes: set<Kind>, maxLen: int, show: bool)
    returns (ok: bool)
    requires t.Valid() && branch < |t.nodes|
    modifies t
    ensures t.Valid() && t.expanded == old(t.expanded) && old(t.nodes) <= t.nodes
    ensures ok <==> WidthOk(maxLen) || !FoldAllNeedsExpr(Stmts(stmts), nodes)
    ensures ok ==> t.nodes == old(t.nodes) + Emit(branch, |old(t.nodes)|, [LNode(caption, FoldAll(Stmts(stmts), nodes, maxLen, show))])
    decreases StmtsSize(stmts), 2
  {
    ghost var start := t.nodes;
    var sub := t.Add(branch, caption);
    ok := AddStmtList(t, sub, stmts, nodes, maxLen, show);
    if ok {
      BranchEmit(start, branch, caption, FoldAll(Stmts(stmts), nodes, maxLen, show));
    }
  }

  /** The optional else/finally clause of a compound statement. */
  method AddClause(t: Tree<string>, branch: nat, caption: string, stmts: seq<Stmt>, nodes: set<Kind>, maxLen: int, show: bool)
    returns (ok: bool)
    requires t.Valid() && branch < |t.nodes|
    modifies t
    ensures t.Valid() && t.expanded == old(t.expanded) && old(t.nodes) <= t.nodes
    ensures ok <==> WidthOk(maxLen) || !ClauseNeedsExpr(stmts, nodes)
    ensures ok ==> t.nodes == old(t.nodes) + Emit(branch, |old(t.nodes)|, Clause(caption, stmts, nodes, maxLen, show))
    decreases StmtsSize(stmts), 3
  {
    ok := true;
    if stmts != [] {
      var ln := Some(stmts[0].line);
      ok := AddBranch(t, branch, WithLinenoText(caption, ln, show), stmts, nodes, maxLen, show);
    }
  }

  /** `_add_children(branch, node, nodes, ...)` */
  method AddChildren(t: Tree<string>, branch: nat, n: Node, nodes: set<Kind>, maxLen: int, show: bool) returns (ok: bool)
    requires t.Valid() && branch < |t.nodes|
    modifies t
    ensures t.Valid() && t.expanded == old(t.expanded) && old(t.nodes) <= t.nodes
    ensures ok <==> WidthOk(maxLen) || !ChildrenNeedExpr(n, nodes)
    ensures ok ==> t.nodes == old(t.nodes) + Emit(branch, |old(t.nodes)|, Children(n, nodes, maxLen, show))
    decreases NodeSize(n), 1
  {
    if n.StmtNode? && n.stmt.Try? {
      var s := n.stmt;
      ChildrenOfTry(n, nodes, maxLen, show);
      ok := AddTryChildren(t, branch, s.body, s.handlers, s.orelse, s.finalbody, nodes, maxLen, show);
    } else if n.StmtNode? && (n.stmt.If? || n.stmt.For? || n.stmt.While?) {
      var caption := if n.stmt.If? then IfElseLabel() else ElseLabel;
      ChildrenOfBodyAndElse(n, nodes, maxLen, show);
      ok := AddBodyAndElse(t, branch, n.stmt.body, caption, n.stmt.orelse, nodes, maxLen, show);
    } else {
      ChildrenOfOther(n, nodes, maxLen, show);
      ok := AddEachChild(t, branch, n, nodes, maxLen, show);
    }
  }

  lemma ChildrenOfTry(n: Node, nodes: set<Kind>, maxLen: int, show: bool)
    requires n.StmtNode? && n.stmt.Try?
    ensures NodeSize(n) == 1 + StmtsSize(n.stmt.body) + HandlersSize(n.stmt.handlers) + StmtsSize(n.stmt.orelse) + StmtsSize(n.stmt.finalbody)
    ensures ChildrenNeedExpr(n, nodes) <==>
      (FoldAllNeedsExpr(Stmts(n.stmt.body), nodes) || HandlersNeedExpr(n.stmt.handlers, nodes)
        || ClauseNeedsExpr(n.stmt.orelse, nodes) || ClauseNeedsExpr(n.stmt.finalbody, nodes))
    ensures WidthOk(maxLen) || !ChildrenNeedExpr(n, nodes) ==>
      Children(n, nodes, maxLen, show)
        == FoldAll(Stmts(n.stmt.body), nodes, maxLen, show) + HandlerBranches(n.stmt.handlers, nodes, maxLen, show)
          + Clause(ElseLabel, n.stmt.orelse, nodes, maxLen, show) + Clause(FinallyLabel, n.stmt.finalbody, nodes, maxLen, show)
  {
  }

  lemma ChildrenOfBodyAndElse(n: Node, nodes: set<Kind>, maxLen: int, show: bool)
    requires n.StmtNode? && (n.stmt.If? || n.stmt.For? || n.stmt.While?)
    ensures NodeSize(n) == 1 + StmtsSize(n.stmt.body) + StmtsSize(n.stmt.orelse)
    ensures ChildrenNeedExpr(n, nodes) <==> FoldAllNeedsExpr(Stmts(n.stmt.body), nodes) || ClauseNeedsExpr(n.stmt.orelse, nodes)
    ensures WidthOk(maxLen) || !ChildrenNeedExpr(n, nodes) ==>
      Children(n, nodes, maxLen, show)
        == FoldAll(Stmts(n.stmt.body), nodes, maxLen, show)
          + Clause(if n.stmt.If? then IfElseLabel() else ElseLabel, n.stmt.orelse, nodes, maxLen, show)
  {
  }

  lemma ChildrenOfOther(n: Node, nodes: set<Kind>, maxLen: int, show: bool)
    requires !(n.StmtNode? && (n.stmt.Try? || n.stmt.If? || n.stmt.For? || n.stmt.While?))
    ensures ChildrenNeedExpr(n, nodes) <==> FoldAllNeedsExpr(ChildNodes(n), nodes)
    ensures WidthOk(maxLen) || !ChildrenNeedExpr(n, nodes) ==>
      Children(n, nodes, maxLen, show) == FoldAll(ChildNodes(n), nodes, maxLen, show)
  {
  }

  /** The try branch of `_add_children`: the body, one branch per handler,
      then the else and finally clauses; the first error stops it. */
  method AddTryChildren(t: Tree<string>, branch: nat, body: seq<Stmt>, hs: seq<Handler>, orelse: seq<Stmt>, fin: seq<Stmt>,
                        nodes: set<Kind>, maxLen: int, show: bool) returns (ok: bool)
    requires t.Valid() && branch < |t.nodes|
    modifies t
    ensures t.Valid() && t.expanded == old(t.expanded) && old(t.nodes) <= t.nodes
    ensures ok <==>
      (WidthOk(maxLen) || !(FoldAllNeedsExpr(Stmts(body), nodes) || HandlersNeedExpr(hs, nodes)
        || ClauseNeedsExpr(orelse, nodes) || ClauseNeedsExpr(fin, nodes)))
    ensures ok ==> t.nodes == old(t.nodes) + Emit(branch, |old(t.nodes)|,
      FoldAll(Stmts(body), nodes, maxLen, show) + HandlerBranches(hs, nodes, maxLen, show)
        + Clause(ElseLabel, orelse, nodes, maxLen, show) + Clause(FinallyLabel, fin, nodes, maxLen, show))
    decreases 1 + StmtsSize(body) + HandlersSize(hs) + StmtsSize(orelse) + StmtsSize(fin), 0
  {
    ghost var start := t.nodes;
    ok := AddStmtList(t, branch, body, nodes, maxLen, show);
    if !ok {
      return;
    }
    ghost var prev := t.nodes;
    ok := AddHandlerBranches(t, branch, hs, nodes, maxLen, show);
    if !ok {
      return;
    }
    EmitStep(start, prev, branch, FoldAll(Stmts(body), nodes, maxLen, show), HandlerBranches(hs, nodes, maxLen, show));
    prev := t.nodes;
    ok := AddClause(t, branch, ElseLabel, orelse, nodes, maxLen, show);
    if !ok {
      return;
    }
    EmitStep(start, prev, branch, FoldAll(Stmts(body), nodes, maxLen, show) + HandlerBranches(hs, nodes, maxLen, show),
      Clause(ElseLabel, orelse, nodes, maxLen, show));
    prev := t.nodes;
    ok := AddClause(t, branch, FinallyLabel, fin, nodes, maxLen, show);
    if !ok {
      return;
    }
    EmitStep(start, prev, branch, FoldAll(Stmts(body), nodes, maxLen, show) + HandlerBranches(hs, nodes, maxLen, show)
      + Clause(ElseLabel, orelse, nodes, maxLen, show), Clause(FinallyLabel, fin, nodes, maxLen, show));
  }

  /** The handler loop of the try branch: one `except` branch per handler. A
      typed handler's label calls `_expr` before its branch is added. */
  method AddHandlerBranches(t: Tree<string>, branch: nat, hs: seq<Handler>, nodes: set<Kind>, maxLen: int, show: bool)
    returns (ok: bool)
    requires t.Valid() && branch < |t.nodes|
    modifies t
    ensures t.Valid() && t.expanded == old(t.expanded) && old(t.nodes) <= t.nodes
    ensures ok <==> WidthOk(maxLen) || !HandlersNeedExpr(hs, nodes)
    ensures ok ==> t.nodes == old(t.nodes) + Emit(branch, |old(t.nodes)|, HandlerBranches(hs, nodes, maxLen, show))
    decreases HandlersSize(hs), 3
  {
    for j := 0 to |hs|
      invariant t.Valid() && t.expanded == old(t.expanded) && branch < |t.nodes|
      invariant WidthOk(maxLen) || !HandlersNeedExpr(hs[..j], nodes)
      invariant t.nodes == old(t.nodes) + Emit(branch, |old(t.nodes)|, HandlerBranches(hs[..j], nodes, maxLen, show))
    {
      HandlerInHandlersSmaller(hs, j);
      if !WidthOk(maxLen) && hs[j].exceptionType.Some? {
        HandlersNeedExprAt(hs, j, nodes);
        return false;
      }
      ghost var prev := t.nodes;
      ok := AddBranch(t, branch, HandlerLabel(hs[j], maxLen, show), hs[j].body, nodes, maxLen, show);
      if !ok {
        HandlersNeedExprAt(hs, j, nodes);
        return;
      }
      HandlerStep(old(t.nodes), prev, branch, hs, j, nodes, maxLen, show);
    }
    assert hs[..|hs|] == hs;
    ok := true;
  }

  /** One step of the handler loop: the arena that holds the branches of the
      first j handlers, extended by handler j's branch, holds those of the
      first j + 1. */
  lemma HandlerStep(start: seq<Entry<string>>, prev: seq<Entry<string>>, branch: nat, hs: seq<Handler>, j: nat,
                    nodes: set<Kind>, maxLen: int, show: bool)
    requires j < |hs|
    requires WidthOk(maxLen) || (!HandlersNeedExpr(hs[..j], nodes) && !HandlerNeedsExpr(hs[j], nodes))
    requires prev == start + Emit(branch, |start|, HandlerBranches(hs[..j], nodes, maxLen, show))
    ensures WidthOk(maxLen) || !HandlersNeedExpr(hs[..j + 1], nodes)
    ensures prev + Emit(branch, |prev|, [LNode(HandlerLabel(hs[j], maxLen, show), FoldAll(Stmts(hs[j].body), nodes, maxLen, show))])
      == start + Emit(branch, |start|, HandlerBranches(hs[..j + 1], nodes, maxLen, show))
  {
    var x := LNode(HandlerLabel(hs[j], maxLen, show), FoldAll(Stmts(hs[j].body), nodes, maxLen, show));
    HandlerBranchesPrefix(hs, j, nodes, maxLen, show);
    EmitStep(start, prev, branch, HandlerBranches(hs[..j], nodes, maxLen, show), [x]);
  }

  lemma HandlerBranchesPrefix(hs: seq<Handler>, j: nat, nodes: set<Kind>, maxLen: int, show: bool)
    requires j < |hs|
    ensures HandlersNeedExpr(hs[..j + 1], nodes) <==> HandlersNeedExpr(hs[..j], nodes) || HandlerNeedsExpr(hs[j], nodes)
    ensures WidthOk(maxLen) || !HandlersNeedExpr(hs[..j + 1], nodes) ==>
      HandlerBranches(hs[..j + 1], nodes, maxLen, show)
        == HandlerBranches(hs[..j], nodes, maxLen, show) + [LNode(HandlerLabel(hs[j], maxLen, show), FoldAll(Stmts(hs[j].body), nodes, maxLen, show))]
  {
    assert hs[..j + 1] == hs[..j] + [hs[j]];
    HandlerBranchesSnoc(hs[..j], hs[j], nodes, maxLen, show);
  }

  /** The if and loop branches of `_add_children`: the body, then the
      optional else clause. */
  method AddBodyAndElse(t: Tree<string>, branch: nat, body: seq<Stmt>, caption: string, orelse: seq<Stmt>,
                        nodes: set<Kind>, maxLen: int, show: bool) returns (ok: bool)
    requires t.Valid() && branch < |t.nodes|
    modifies t
    ensures t.Valid() && t.expanded == old(t.expanded) && old(t.nodes) <= t.nodes
    ensures ok <==> WidthOk(maxLen) || !(FoldAllNeedsExpr(Stmts(body), nodes) || ClauseNeedsExpr(orelse, nodes))
    ensures ok ==> t.nodes == old(t.nodes) + Emit(branch, |old(t.nodes)|,
      FoldAll(Stmts(body), nodes, maxLen, show) + Clause(caption, orelse, nodes, maxLen, show))
    decreases 1 + StmtsSize(body) + StmtsSize(orelse), 0
  {
    ghost var start := t.nodes;
    ok := AddStmtList(t, branch, body, nodes, maxLen, show);
    if !ok {
      return;
    }
    ghost var prev := t.nodes;
    ok := AddClause(t, branch, caption, orelse, nodes, maxLen, show);
    if ok {
      EmitStep(start, prev, branch, FoldAll(Stmts(body), nodes, maxLen, show), Clause(caption, orelse, nodes, maxLen, show));
    }
  }

  /** The generic branch of `_add_children`: every child node in turn. */
  method AddEachChild(t: Tree<string>, branch: nat, n: Node, nodes: set<Kind>, maxLen: int, show: bool) returns (ok: bool)
    requires t.Valid() && branch < |t.nodes|
    modifies t
    ensures t.Valid() && t.expanded == old(t.expanded) && old(t.nodes) <= t.nodes
    ensures ok <==> WidthOk(maxLen) || !FoldAllNeedsExpr(ChildNodes(n), nodes)
    ensures ok ==> t.nodes == old(t.nodes) + Emit(branch, |old(t.nodes)|, FoldAll(ChildNodes(n), nodes, maxLen, show))
    decreases NodeSize(n), 0
  {
    var children := ChildNodes(n);
    ChildNodesSmaller(n);
    for i := 0 to |children|
      invariant t.Valid() && t.expanded == old(t.expanded) && branch < |t.nodes|
      invariant WidthOk(maxLen) || !FoldAllNeedsExpr(children[..i], nodes)
      invariant t.nodes == old(t.nodes) + Emit(branch, |old(t.nodes)|, FoldAll(children[..i], nodes, maxLen, show))
    {
      ghost var prev := t.nodes;
      NodeInNodesSmaller(children, i);
      ok := AddNode(t, branch, children[i], nodes, maxLen, show);
      if !ok {
        FoldAllNeedsExprAt(children, i, nodes);
        return;
      }
      FoldStep(old(t.nodes), prev, branch, children, i, nodes, maxLen, show);
    }
    assert children[..|children|] == children;
    ok := true;
  }

  /** show_logic_map on a parsed module: a root labelled with the module name
      and the logic map below it; `raised` is the ValueError that the first
      call of `_expr` raises for a width textwrap rejects, in which case
      nothing is printed. */
  method ShowLogicMap(name: string, body: seq<Stmt>, includeExits: bool, includeRaises: bool, show: bool, exprWidth: int)
    returns (t: Tree<string>, raised: Option<WrapError>)
    ensures fresh(t) && t.Valid() && t.expanded == {}
    ensures raised.None? <==> WidthOk(exprWidth) || !LogicMapNeedsExpr(body, includeExits, includeRaises)
    ensures raised.Some? ==> raised.value == WidthError(exprWidth)
    ensures raised.None? ==>
      t.nodes == [Entry(0, "[bold bright_blue]" + name)] + Emit(0, 1, LogicMapOf(body, includeExits, includeRaises, exprWidth, show))
  {
    t := new Tree("[bold bright_blue]" + name);
    var nodes := NodeSet(includeExits, includeRaises);
    var ok := AddChildren(t, 0, ModuleNode(body), nodes, exprWidth, show);
    raised := if ok then None else Some(WidthError(exprWidth));
  }

  // ----- properties of the fold -----

  lemma {:induction false} FoldAllAppend(a: seq<Node>, b: seq<Node>, nodes: set<Kind>, maxLen: int, show: bool)
    ensures FoldAllNeedsExpr(a + b, nodes) <==> FoldAllNeedsExpr(a, nodes) || FoldAllNeedsExpr(b, nodes)
    ensures WidthOk(maxLen) || !FoldAllNeedsExpr(a + b, nodes) ==>
      FoldAll(a + b, nodes, maxLen, show) == FoldAll(a, nodes, maxLen, show) + FoldAll(b, nodes, maxLen, show)
    decreases |a|
  {
    if a == [] {
      assert a + b == b;
    } else {
      assert (a + b)[0] == a[0] && (a + b)[1..] == a[1..] + b;
      FoldAllAppend(a[1..], b, nodes, maxLen, show);
    }
  }

  // ----- the width matters only through `_expr` -----

  /** A label that calls no `_expr` reads the same at every width. */
  lemma {:induction false} LabelWidthFree(n: Node, w: int, w': int, show: bool)
    requires !LabelNeedsExpr(n)
    ensures Label(n, w, show) == Label(n, w', show)
  {
    if n.StmtNode? && n.stmt.Raise? {
      assert RaiseTail(n.stmt.exc, n.stmt.cause, w) == "";
    }
  }

  /** A traversal that reaches no `_expr` builds the same branches at every
      width, so the widths textwrap rejects change nothing there. */
  lemma {:induction false} ChildrenWidthFree(n: Node, nodes: set<Kind>, w: int, w': int, show: bool)
    requires !ChildrenNeedExpr(n, nodes)
    ensures Children(n, nodes, w, show) == Children(n, nodes, w', show)
    decreases NodeSize(n), 1
  {
    if n.StmtNode? && n.stmt.Try? {
      var s := n.stmt;
      StmtsNodesSize(s.body);
      FoldAllWidthFree(Stmts(s.body), nodes, w, w', show);
      HandlersWidthFree(s.handlers, nodes, w, w', show);
      ClauseWidthFree(ElseLabel, s.orelse, nodes, w, w', show);
      ClauseWidthFree(FinallyLabel, s.finalbody, nodes, w, w', show);
    } else if n.StmtNode? && (n.stmt.If? || n.stmt.For? || n.stmt.While?) {
      StmtsNodesSize(n.stmt.body);
      FoldAllWidthFree(Stmts(n.stmt.body), nodes, w, w', show);
      ClauseWidthFree(if n.stmt.If? then IfElseLabel() else ElseLabel, n.stmt.orelse, nodes, w, w', show);
    } else {
      ChildNodesSmaller(n);
      FoldAllWidthFree(ChildNodes(n), nodes, w, w', show);
    }
  }

  lemma {:induction false} ClauseWidthFree(caption: string, ss: seq<Stmt>, nodes: set<Kind>, w: int, w': int, show: bool)
    requires !ClauseNeedsExpr(ss, nodes)
    ensures Clause(caption, ss, nodes, w, show) == Clause(caption, ss, nodes, w', show)
    decreases StmtsSize(ss), 1
  {
    StmtsNodesSize(ss);
    FoldAllWidthFree(Stmts(ss), nodes, w, w', show);
  }

  lemma {:induction false} HandlersWidthFree(hs: seq<Handler>, nodes: set<Kind>, w: int, w': int, show: bool)
    requires !HandlersNeedExpr(hs, nodes)
    ensures HandlerBranches(hs, nodes, w, show) == HandlerBranches(hs, nodes, w', show)
    decreases HandlersSize(hs), 0
  {
    if hs != [] {
      StmtsNodesSize(hs[0].body);
      assert !HandlerNeedsExpr(hs[0], nodes);
      FoldAllWidthFree(Stmts(hs[0].body), nodes, w, w', show);
      HandlersWidthFree(hs[1..], nodes, w, w', show);
    }
  }

  lemma {:induction false} FoldOneWidthFree(n: Node, nodes: set<Kind>, w: int, w': int, show: bool)
    requires !FoldOneNeedsExpr(n, nodes)
    ensures FoldOne(n, nodes, w, show) == FoldOne(n, nodes, w', show)
    decreases NodeSize(n), 2
  {
    ChildrenWidthFree(n, nodes, w, w', show);
    if KindOf(n) in nodes {
      LabelWidthFree(n, w, w', show);
    }
  }

  lemma {:induction false} FoldAllWidthFree(ns: seq<Node>, nodes: set<Kind>, w: int, w': int, show: bool)
    requires !FoldAllNeedsExpr(ns, nodes)
    ensures FoldAll(ns, nodes, w, show) == FoldAll(ns, nodes, w', show)
    decreases NodesSize(ns), 0
  {
    if ns != [] {
      HeadSmaller(ns);
      FoldOneWidthFree(ns[0], nodes, w, w', show);
      FoldAllWidthFree(ns[1..], nodes, w, w', show);
    }
  }

  /** A module whose map calls no `_expr` prints the same map at every
      expr_width, the widths textwrap rejects included. */
  lemma {:induction false} LogicMapWidthFree(body: seq<Stmt>, includeExits: bool, includeRaises: bool, w: int, w': int, show: bool)
    requires !LogicMapNeedsExpr(body, includeExits, includeRaises)
    ensures LogicMapOf(body, includeExits, includeRaises, w, show) == LogicMapOf(body, includeExits, includeRaises, w', show)
  {
    ChildrenWidthFree(ModuleNode(body), NodeSet(includeExits, includeRaises), w, w', show);
  }

  // ----- properties of the labels -----

  /** The handler label: "except" for a bare clause, "except T" for a typed
      one, with " as n" at the end when the clause binds a name; an empty
      name is no name. */
  lemma {:induction false} HandlerTextCases(h: Handler, maxLen: int)
    requires maxLen >= |BarePlaceholder|
    ensures "[magenta]except[/]" <= HandlerText(h, maxLen)
    ensures h.exceptionType.None? && !Named(h) ==> HandlerText(h, maxLen) == "[magenta]except[/]"
    ensures h.exceptionType.Some? && !Named(h) && ShortExpr(h.exceptionType.value, maxLen) != "" ==>
      HandlerText(h, maxLen) == "[magenta]except[/] " + ShortExpr(h.exceptionType.value, maxLen)
    ensures Named(h) ==> EndsWith(HandlerText(h, maxLen), " as " + h.name.value)
    ensures h.name == Some("") ==> HandlerText(h, maxLen) == HandlerText(h.(name := None), maxLen)
  {
    var r := HandlerText(h, maxLen);
    if Named(h) {
      var exc := if h.exceptionType.Some? then ShortExpr(h.exceptionType.value, maxLen) else "";
      var suffix := " as " + h.name.value;
      assert r == ("[magenta]except[/] " + exc) + suffix;
      assert r[|r| - |suffix|..] == suffix;
    }
  }

  /** The type-name fallback of `_label` is taken for the kinds that no
      switch makes logical. */
  lemma {:induction false} LabelFallback(n: Node, maxLen: int)
    requires maxLen >= |BarePlaceholder|
    requires KindOf(n) !in NodeSet(true, true)
    ensures LabelText(n, maxLen) == TypeName(n)
  {
    assert NodeSet(true, true) == BaseLogicalNodes + ExitNodes + RaiseNodes;
  }

  /** Every kind that can be logical has a label of its own, which starts
      with a style tag, so the fallback is never reached for them. */
  lemma {:induction false} LabelTagged(n: Node, maxLen: int)
    requires maxLen >= |BarePlaceholder|
    requires KindOf(n) in NodeSet(true, true)
    ensures LabelText(n, maxLen) != [] && LabelText(n, maxLen)[0] == '['
  {
    assert NodeSet(true, true) == BaseLogicalNodes + ExitNodes + RaiseNodes;
    assert n.StmtNode?;
  }

  /** A bare return is labelled "return"; a raise without an exception is
      labelled "raise" whatever its cause; a with statement is labelled by its
      first context item alone. */
  lemma {:induction false} LabelRules(maxLen: int, line: nat, cause: Option<Expr>, item: Expr, more: seq<Expr>, more': seq<Expr>, body: seq<Stmt>)
    requires maxLen >= |BarePlaceholder|
    ensures LabelText(StmtNode(Return(None, line)), maxLen) == "[red]return[/]"
    ensures LabelText(StmtNode(Raise(None, cause, line)), maxLen) == "[red]raise[/]"
    ensures LabelText(StmtNode(With(item, more, body, line)), maxLen) == LabelText(StmtNode(With(item, more', [], line)), maxLen)
  {
    assert RaiseTail(None, cause, maxLen) == "";
  }

  /** The else label the if branch builds with `.replace` is the one loops and
      try use. */
  lemma {:induction false} IfElseLabelIsElseLabel()
    ensures IfElseLabel() == ElseLabel
  {
    var head, tail := "[magenta]else", "[/]";
    assert "[magenta]else//[/]" == head + ("//" + tail);
    CloseTagHasNoDoubleSlash();
    ReplaceNoMatch(tail, "//", "");
    ReplaceAtFront(tail, "//", "");
    assert Replace("//" + tail, "//", "") == tail;
    ElseTagHasNoSlash();
    ReplaceSkipsClean(head, "//" + tail, "//", "");
    ElseLabelParts();
  }

  lemma {:induction false} ElseLabelParts()
    ensures "[magenta]else" + "[/]" == ElseLabel
  {
  }

  lemma {:induction false} ElseTagHasNoSlash()
    ensures forall i :: 0 <= i < |"[magenta]else"| ==> "[magenta]else"[i] != "//"[0]
  {
  }

  lemma {:induction false} CloseTagHasNoDoubleSlash()
    ensures forall i: nat :: !OccursAt("[/]", "//", i)
  {
    var tail := "[/]";
    forall i: nat
      ensures !OccursAt(tail, "//", i)
    {
      if i + 2 <= |tail| {
        var w := tail[i..i + 2];
        assert w[0] == tail[i] && w[1] == tail[i + 1];
        assert tail[i] != '/' || tail[i + 1] != '/';
        assert w[0] != "//"[0] || w[1] != "//"[1];
      }
    }
  }

  // ----- skip-through: non-logical nodes flatten into their parent -----

  /** The folds of the match arms' bodies, one after the other. */
  function ArmBodies(cs: seq<MatchCase>, nodes: set<Kind>, maxLen: int, show: bool): seq<LNode<string>>
    requires maxLen >= |BarePlaceholder|
  {
    if cs == [] then [] else FoldAll(Stmts(cs[0].body), nodes, maxLen, show) + ArmBodies(cs[1..], nodes, maxLen, show)
  }

  /** The folds of the except clauses' bodies, one after the other. */
  function HandlerBodies(hs: seq<Handler>, nodes: set<Kind>, maxLen: int, show: bool): seq<LNode<string>>
    requires maxLen >= |BarePlaceholder|
  {
    if hs == [] then [] else FoldAll(Stmts(hs[0].body), nodes, maxLen, show) + HandlerBodies(hs[1..], nodes, maxLen, show)
  }

  /** Match arms are never logical: their bodies fold straight into the
      branch that holds the match. */
  lemma {:induction false} FoldCases(cs: seq<MatchCase>, nodes: set<Kind>, maxLen: int, show: bool)
    requires maxLen >= |BarePlaceholder| && MatchCaseKind !in nodes
    ensures FoldAll(Cases(cs), nodes, maxLen, show) == ArmBodies(cs, nodes, maxLen, show)
    decreases |cs|
  {
    if cs != [] {
      var ns := Cases(cs);
      assert ns[1..] == Cases(cs[1..]);
      FoldCases(cs[1..], nodes, maxLen, show);
      assert FoldOne(ns[0], nodes, maxLen, show) == FoldAll(Stmts(cs[0].body), nodes, maxLen, show);
    }
  }

  /** Except clauses met by the generic descent (those of a try/except*)
      are never logical: their bodies fold straight into the parent branch. */
  lemma {:induction false} FoldHandlers(hs: seq<Handler>, nodes: set<Kind>, maxLen: int, show: bool)
    requires maxLen >= |BarePlaceholder| && ExceptHandlerKind !in nodes
    ensures FoldAll(Handlers(hs), nodes, maxLen, show) == HandlerBodies(hs, nodes, maxLen, show)
    decreases |hs|
  {
    if hs != [] {
      var ns := Handlers(hs);
      assert ns[1..] == Handlers(hs[1..]);
      FoldHandlers(hs[1..], nodes, maxLen, show);
      assert FoldOne(ns[0], nodes, maxLen, show) == FoldAll(Stmts(hs[0].body), nodes, maxLen, show);
    }
  }

  /** A match statement holds its arms' logical statements directly, in arm
      order, with no node for an arm. */
  lemma {:induction false} MatchFlattens(subject: Expr, cs: seq<MatchCase>, line: nat, nodes: set<Kind>, maxLen: int, show: bool)
    requires maxLen >= |BarePlaceholder| && MatchCaseKind !in nodes
    ensures Children(StmtNode(Match(subject, cs, line)), nodes, maxLen, show) == ArmBodies(cs, nodes, maxLen, show)
  {
    var n := StmtNode(Match(subject, cs, line));
    assert ChildNodes(n) == Cases(cs);
    ChildrenOfOther(n, nodes, maxLen, show);
    FoldCases(cs, nodes, maxLen, show);
  }

  /** async for is not logical: its body and its else clause fold into the
      parent branch, with no else marker. */
  lemma {:induction false} AsyncForFlattens(target: Expr, iter: Expr, body: seq<Stmt>, orelse: seq<Stmt>, line: nat,
                                            nodes: set<Kind>, maxLen: int, show: bool)
    requires maxLen >= |BarePlaceholder| && AsyncForKind !in nodes
    ensures FoldOne(StmtNode(AsyncFor(target, iter, body, orelse, line)), nodes, maxLen, show)
      == FoldAll(Stmts(body), nodes, maxLen, show) + FoldAll(Stmts(orelse), nodes, maxLen, show)
  {
    FoldAllAppend(Stmts(body), Stmts(orelse), nodes, maxLen, show);
  }

  /** async with is not logical: its body folds into the parent branch. */
  lemma {:induction false} AsyncWithFlattens(item: Expr, more: seq<Expr>, body: seq<Stmt>, line: nat,
                                             nodes: set<Kind>, maxLen: int, show: bool)
    requires maxLen >= |BarePlaceholder| && AsyncWithKind !in nodes
    ensures FoldOne(StmtNode(AsyncWith(item, more, body, line)), nodes, maxLen, show) == FoldAll(Stmts(body), nodes, maxLen, show)
  {
  }

  /** try/except* is not logical and gets none of the try branches: body,
      except* bodies, else and finally statements fold into the parent
      branch in field order. */
  lemma {:induction false} TryStarFlattens(body: seq<Stmt>, hs: seq<Handler>, orelse: seq<Stmt>, fin: seq<Stmt>, line: nat,
                                           nodes: set<Kind>, maxLen: int, show: bool)
    requires maxLen >= |BarePlaceholder| && TryStarKind !in nodes && ExceptHandlerKind !in nodes
    ensures FoldOne(StmtNode(TryStar(body, hs, orelse, fin, line)), nodes, maxLen, show)
      == FoldAll(Stmts(body), nodes, maxLen, show) + HandlerBodies(hs, nodes, maxLen, show)
        + FoldAll(Stmts(orelse), nodes, maxLen, show) + FoldAll(Stmts(fin), nodes, maxLen, show)
  {
    var a, b, c, d := Stmts(body), Handlers(hs), Stmts(orelse), Stmts(fin);
    FoldAllAppend(a + b + c, d, nodes, maxLen, show);
    FoldAllAppend(a + b, c, nodes, maxLen, show);
    FoldAllAppend(a, b, nodes, maxLen, show);
    FoldHandlers(hs, nodes, maxLen, show);
  }

  // ----- the synthetic branches -----

  /** Branch i of the handler branches belongs to handler i. */
  lemma {:induction false} HandlerBranchAt(hs: seq<Handler>, i: nat, nodes: set<Kind>, maxLen: int, show: bool)
    requires maxLen >= |BarePlaceholder| && i < |hs|
    ensures HandlerBranches(hs, nodes, maxLen, show)[i]
      == LNode(HandlerLabel(hs[i], maxLen, show), FoldAll(Stmts(hs[i].body), nodes, maxLen, show))
    decreases i
  {
    if i > 0 {
      HandlerBranchAt(hs[1..], i - 1, nodes, maxLen, show);
    }
  }

  /** A try node holds, in order: its folded body; one branch per handler;
      an else branch exactly when the else clause is non-empty; a finally
      branch exactly when the finally clause is non-empty. */
  lemma {:induction false} TryLayout(body: seq<Stmt>, hs: seq<Handler>, orelse: seq<Stmt>, fin: seq<Stmt>, line: nat,
                                     nodes: set<Kind>, maxLen: int, show: bool)
    requires maxLen >= |BarePlaceholder|
    ensures var r := Children(StmtNode(Try(body, hs, orelse, fin, line)), nodes, maxLen, show);
      var k := |FoldAll(Stmts(body), nodes, maxLen, show)|;
      && |r| == k + |hs| + Present(orelse) + Present(fin)
      && r[..k] == FoldAll(Stmts(body), nodes, maxLen, show)
  {
    var a := FoldAll(Stmts(body), nodes, maxLen, show);
    var b := HandlerBranches(hs, nodes, maxLen, show);
    var c := Clause(ElseLabel, orelse, nodes, maxLen, show);
    var d := Clause(FinallyLabel, fin, nodes, maxLen, show);
    TryChildren(body, hs, orelse, fin, line, nodes, maxLen, show);
    ClauseShape(ElseLabel, orelse, nodes, maxLen, show);
    ClauseShape(FinallyLabel, fin, nodes, maxLen, show);
    ConcatPositions(a, b, c, d);
  }

  /** After the body, a try node holds one branch per handler, in handler
      order, labelled with that handler's label and holding its folded
      body. */
  lemma {:induction false} TryHandlerBranches(body: seq<Stmt>, hs: seq<Handler>, orelse: seq<Stmt>, fin: seq<Stmt>, line: nat,
                                              nodes: set<Kind>, maxLen: int, show: bool, i: nat)
    requires maxLen >= |BarePlaceholder| && i < |hs|
    ensures var r := Children(StmtNode(Try(body, hs, orelse, fin, line)), nodes, maxLen, show);
      var k := |FoldAll(Stmts(body), nodes, maxLen, show)|;
      k + i < |r| && r[k + i] == LNode(HandlerLabel(hs[i], maxLen, show), FoldAll(Stmts(hs[i].body), nodes, maxLen, show))
  {
    var a := FoldAll(Stmts(body), nodes, maxLen, show);
    var b := HandlerBranches(hs, nodes, maxLen, show);
    var c := Clause(ElseLabel, orelse, nodes, maxLen, show);
    var d := Clause(FinallyLabel, fin, nodes, maxLen, show);
    TryChildren(body, hs, orelse, fin, line, nodes, maxLen, show);
    ConcatPositions(a, b, c, d);
    HandlerBranchAt(hs, i, nodes, maxLen, show);
  }

  /** A try node's else branch follows its handler branches, captioned with
      the line of the else clause's first statement. */
  lemma {:induction false} TryElse(body: seq<Stmt>, hs: seq<Handler>, orelse: seq<Stmt>, fin: seq<Stmt>, line: nat,
                                   nodes: set<Kind>, maxLen: int, show: bool)
    requires maxLen >= |BarePlaceholder| && orelse != []
    ensures var r := Children(StmtNode(Try(body, hs, orelse, fin, line)), nodes, maxLen, show);
      var k := |FoldAll(Stmts(body), nodes, maxLen, show)|;
      && k + |hs| < |r|
      && r[k + |hs|] == LNode(WithLinenoText(ElseLabel, Some(orelse[0].line), show), FoldAll(Stmts(orelse), nodes, maxLen, show))
  {
    var a := FoldAll(Stmts(body), nodes, maxLen, show);
    var b := HandlerBranches(hs, nodes, maxLen, show);
    var c := Clause(ElseLabel, orelse, nodes, maxLen, show);
    var d := Clause(FinallyLabel, fin, nodes, maxLen, show);
    TryChildren(body, hs, orelse, fin, line, nodes, maxLen, show);
    ClauseShape(ElseLabel, orelse, nodes, maxLen, show);
    ConcatPositions(a, b, c, d);
  }

  /** A try node's finally branch comes last, captioned with the line of
      the finally clause's first statement. */
  lemma {:induction false} TryFinally(body: seq<Stmt>, hs: seq<Handler>, orelse: seq<Stmt>, fin: seq<Stmt>, line: nat,
                                      nodes: set<Kind>, maxLen: int, show: bool)
    requires maxLen >= |BarePlaceholder| && fin != []
    ensures var r := Children(StmtNode(Try(body, hs, orelse, fin, line)), nodes, maxLen, show);
      && |r| > 0
      && r[|r| - 1] == LNode(WithLinenoText(FinallyLabel, Some(fin[0].line), show), FoldAll(Stmts(fin), nodes, maxLen, show))
  {
    var a := FoldAll(Stmts(body), nodes, maxLen, show);
    var b := HandlerBranches(hs, nodes, maxLen, show);
    var c := Clause(ElseLabel, orelse, nodes, maxLen, show);
    var d := Clause(FinallyLabel, fin, nodes, maxLen, show);
    TryChildren(body, hs, orelse, fin, line, nodes, maxLen, show);
    ClauseShape(FinallyLabel, fin, nodes, maxLen, show);
    ConcatPositions(a, b, c, d);
  }

  /** Where the parts of a + b + c + d sit in the whole. */
  lemma {:induction false} ConcatPositions<T>(a: seq<T>, b: seq<T>, c: seq<T>, d: seq<T>)
    ensures var r := a + b + c + d;
      && |r| == |a| + |b| + |c| + |d|
      && r[..|a|] == a
      && (forall i :: 0 <= i < |b| ==> r[|a| + i] == b[i])
      && (|c| > 0 ==> r[|a| + |b|] == c[0])
      && (|d| > 0 ==> r[|r| - 1] == d[|d| - 1])
  {
    var r := a + b + c + d;
    assert r[..|a|] == a;
  }

  /** The try branch of Children, unfolded. */
  lemma {:induction false} TryChildren(body: seq<Stmt>, hs: seq<Handler>, orelse: seq<Stmt>, fin: seq<Stmt>, line: nat,
                                       nodes: set<Kind>, maxLen: int, show: bool)
    requires maxLen >= |BarePlaceholder|
    ensures Children(StmtNode(Try(body, hs, orelse, fin, line)), nodes, maxLen, show)
      == FoldAll(Stmts(body), nodes, maxLen, show) + HandlerBranches(hs, nodes, maxLen, show)
        + Clause(ElseLabel, orelse, nodes, maxLen, show) + Clause(FinallyLabel, fin, nodes, maxLen, show)
  {
  }

  /** An else or finally clause gives one branch exactly when it is
      non-empty, captioned with the line of its first statement. */
  lemma {:induction false} ClauseShape(caption: string, ss: seq<Stmt>, nodes: set<Kind>, maxLen: int, show: bool)
    requires maxLen >= |BarePlaceholder|
    ensures |Clause(caption, ss, nodes, maxLen, show)| == if ss == [] then 0 else 1
    ensures ss != [] ==> (Clause(caption, ss, nodes, maxLen, show)[0]
      == LNode(WithLinenoText(caption, Some(ss[0].line), show), FoldAll(Stmts(ss), nodes, maxLen, show)))
  {
  }

  /** if, for and while nodes hold their folded body, then one else branch
      exactly when the else clause is non-empty, with the same caption for
      all three. */
  lemma {:induction false} ElseLayout(n: Node, nodes: set<Kind>, maxLen: int, show: bool)
    requires maxLen >= |BarePlaceholder|
    requires n.StmtNode? && (n.stmt.If? || n.stmt.For? || n.stmt.While?)
    ensures var r := Children(n, nodes, maxLen, show);
      var k := |FoldAll(Stmts(n.stmt.body), nodes, maxLen, show)|;
      && |r| == k + (if n.stmt.orelse == [] then 0 else 1)
      && r[..k] == FoldAll(Stmts(n.stmt.body), nodes, maxLen, show)
      && (n.stmt.orelse != [] ==>
            r[k] == LNode(WithLinenoText(ElseLabel, Some(n.stmt.orelse[0].line), show),
                          FoldAll(Stmts(n.stmt.orelse), nodes, maxLen, show)))
  {
    IfElseLabelIsElseLabel();
    ChildrenOfBodyAndElse(n, nodes, maxLen, show);
    ClauseShape(ElseLabel, n.stmt.orelse, nodes, maxLen, show);
  }

  /** An elif shows as an else branch holding a single if node: the else
      branch carries the line of the elif. */
  lemma {:induction false} ElifNests(test: Expr, body: seq<Stmt>, elif: Stmt, line: nat, nodes: set<Kind>, maxLen: int, show: bool)
    requires maxLen >= |BarePlaceholder| && elif.If? && IfKind in nodes
    ensures Children(StmtNode(If(test, body, [elif], line)), nodes, maxLen, show)
      == FoldAll(Stmts(body), nodes, maxLen, show)
        + [LNode(WithLinenoText(ElseLabel, Some(elif.line), show),
                 [LNode(Label(StmtNode(elif), maxLen, show), Children(StmtNode(elif), nodes, maxLen, show))])]
  {
    IfElseLabelIsElseLabel();
    ChildrenOfBodyAndElse(StmtNode(If(test, body, [elif], line)), nodes, maxLen, show);
    var inner := StmtNode(elif);
    assert Stmts([elif]) == [inner];
    assert [inner][1..] == [];
    var one := FoldOne(inner, nodes, maxLen, show);
    assert FoldAll([inner], nodes, maxLen, show) == one + [];
    assert one + [] == one;
  }

  // ----- census: one tree node per logical node and per synthetic branch -----

  /** 1 for a non-empty clause, 0 for an empty one. */
  function Present(ss: seq<Stmt>): nat {
    if ss == [] then 0 else 1
  }

  /** The synthetic branches `_add_children` adds for n itself: one per
      handler and one per non-empty else/finally clause of a try, one for a
      non-empty else clause of an if, for or while. */
  function Synthetic(n: Node): nat {
    if n.StmtNode? && n.stmt.Try? then |n.stmt.handlers| + Present(n.stmt.orelse) + Present(n.stmt.finalbody)
    else if n.StmtNode? && (n.stmt.If? || n.stmt.For? || n.stmt.While?) then Present(n.stmt.orelse)
    else 0
  }

  /** The number of logical nodes and synthetic branches in the subtree of n,
      counted over `ast.iter_child_nodes` independently of the fold. */
  function Census(n: Node, nodes: set<Kind>): nat
    decreases NodeSize(n), 1
  {
    ChildNodesSmaller(n);
    (if KindOf(n) in nodes then 1 else 0) + Synthetic(n) + CensusAll(ChildNodes(n), nodes)
  }

  function CensusAll(ns: seq<Node>, nodes: set<Kind>): nat
    decreases NodesSize(ns), 0
  {
    if ns == [] then 0
    else
      HeadSmaller(ns);
      Census(ns[0], nodes) + CensusAll(ns[1..], nodes)
  }

  lemma {:induction false} CensusAllAppend(a: seq<Node>, b: seq<Node>, nodes: set<Kind>)
    ensures CensusAll(a + b, nodes) == CensusAll(a, nodes) + CensusAll(b, nodes)
    decreases |a|
  {
    if a == [] {
      assert a + b == b;
    } else {
      TailOfAppend(a, b);
      CensusAllAppend(a[1..], b, nodes);
    }
  }

  /** The fold of one node holds exactly one tree node per logical node
      below it (itself included) and one per synthetic branch: nothing is
      added for a non-logical node, and nothing logical is lost. */
  lemma {:induction false} CountFoldOne(n: Node, nodes: set<Kind>, maxLen: int, show: bool)
    requires maxLen >= |BarePlaceholder| && ExceptHandlerKind !in nodes
    ensures Count(FoldOne(n, nodes, maxLen, show)) == Census(n, nodes)
    decreases NodeSize(n), 2
  {
    CountChildren(n, nodes, maxLen, show);
    if KindOf(n) in nodes {
      CountSingle(LNode(Label(n, maxLen, show), Children(n, nodes, maxLen, show)));
    }
  }

  lemma {:induction false} CountChildren(n: Node, nodes: set<Kind>, maxLen: int, show: bool)
    requires maxLen >= |BarePlaceholder| && ExceptHandlerKind !in nodes
    ensures Count(Children(n, nodes, maxLen, show)) == Synthetic(n) + CensusAll(ChildNodes(n), nodes)
    decreases NodeSize(n), 1
  {
    if n.StmtNode? && n.stmt.Try? {
      var body, hs, orelse, fin := n.stmt.body, n.stmt.handlers, n.stmt.orelse, n.stmt.finalbody;
      assert n == StmtNode(Try(body, hs, orelse, fin, n.stmt.line));
      TryCount(body, hs, orelse, fin, n.stmt.line, nodes, maxLen, show);
      TryChildNodes(body, hs, orelse, fin, n.stmt.line);
      CensusAllFour(Stmts(body), Handlers(hs), Stmts(orelse), Stmts(fin), nodes);
    } else if n.StmtNode? && (n.stmt.If? || n.stmt.For? || n.stmt.While?) {
      BodyAndElseCount(n, nodes, maxLen, show);
    } else {
      ChildNodesSmaller(n);
      CountFoldAll(ChildNodes(n), nodes, maxLen, show);
    }
  }

  /** The count for the if and loop branches: the body, then the else
      clause. */
  lemma {:induction false} BodyAndElseCount(n: Node, nodes: set<Kind>, maxLen: int, show: bool)
    requires maxLen >= |BarePlaceholder| && ExceptHandlerKind !in nodes
    requires n.StmtNode? && (n.stmt.If? || n.stmt.For? || n.stmt.While?)
    ensures Count(Children(n, nodes, maxLen, show)) == Synthetic(n) + CensusAll(ChildNodes(n), nodes)
    decreases NodeSize(n), 0
  {
    var body, orelse := n.stmt.body, n.stmt.orelse;
    var caption := if n.stmt.If? then IfElseLabel() else ElseLabel;
    assert Children(n, nodes, maxLen, show) == FoldAll(Stmts(body), nodes, maxLen, show) + Clause(caption, orelse, nodes, maxLen, show);
    assert ChildNodes(n) == Stmts(body) + Stmts(orelse);
    StmtsNodesSize(body);
    CountFoldAll(Stmts(body), nodes, maxLen, show);
    CountClause(caption, orelse, nodes, maxLen, show);
    CountAppend(FoldAll(Stmts(body), nodes, maxLen, show), Clause(caption, orelse, nodes, maxLen, show));
    CensusAllAppend(Stmts(body), Stmts(orelse), nodes);
  }

  /** The count for the try branch, piece by piece: one branch per handler
      and per non-empty clause, plus the census of the body, the handlers,
      the else clause and the finally clause. */
  lemma {:induction false} TryCount(body: seq<Stmt>, hs: seq<Handler>, orelse: seq<Stmt>, fin: seq<Stmt>, line: nat,
                                    nodes: set<Kind>, maxLen: int, show: bool)
    requires maxLen >= |BarePlaceholder| && ExceptHandlerKind !in nodes
    ensures Count(Children(StmtNode(Try(body, hs, orelse, fin, line)), nodes, maxLen, show))
      == |hs| + Present(orelse) + Present(fin)
        + CensusAll(Stmts(body), nodes) + CensusAll(Handlers(hs), nodes)
        + CensusAll(Stmts(orelse), nodes) + CensusAll(Stmts(fin), nodes)
    decreases NodeSize(StmtNode(Try(body, hs, orelse, fin, line))), 0
  {
    TryNodeSize(body, hs, orelse, fin, line);
    StmtsNodesSize(body);
    TryChildren(body, hs, orelse, fin, line, nodes, maxLen, show);
    CountFour(FoldAll(Stmts(body), nodes, maxLen, show), HandlerBranches(hs, nodes, maxLen, show),
              Clause(ElseLabel, orelse, nodes, maxLen, show), Clause(FinallyLabel, fin, nodes, maxLen, show));
    CountFoldAll(Stmts(body), nodes, maxLen, show);
    CountHandlerBranches(hs, nodes, maxLen, show);
    CountClause(ElseLabel, orelse, nodes, maxLen, show);
    CountClause(FinallyLabel, fin, nodes, maxLen, show);
  }

  lemma TryNodeSize(body: seq<Stmt>, hs: seq<Handler>, orelse: seq<Stmt>, fin: seq<Stmt>, line: nat)
    ensures NodeSize(StmtNode(Try(body, hs, orelse, fin, line)))
      == 1 + StmtsSize(body) + HandlersSize(hs) + StmtsSize(orelse) + StmtsSize(fin)
  {
  }

  lemma TryChildNodes(body: seq<Stmt>, hs: seq<Handler>, orelse: seq<Stmt>, fin: seq<Stmt>, line: nat)
    ensures ChildNodes(StmtNode(Try(body, hs, orelse, fin, line))) == Stmts(body) + Handlers(hs) + Stmts(orelse) + Stmts(fin)
  {
    var s := Try(body, hs, orelse, fin, line);
    assert ChildNodes(StmtNode(s)) == Stmts(s.body) + Handlers(s.handlers) + Stmts(s.orelse) + Stmts(s.finalbody);
  }

  lemma CountFour(a: seq<LNode<string>>, b: seq<LNode<string>>, c: seq<LNode<string>>, d: seq<LNode<string>>)
    ensures Count(a + b + c + d) == Count(a) + Count(b) + Count(c) + Count(d)
  {
    CountAppend(a + b + c, d);
    CountAppend(a + b, c);
    CountAppend(a, b);
  }

  lemma CensusAllFour(a: seq<Node>, b: seq<Node>, c: seq<Node>, d: seq<Node>, nodes: set<Kind>)
    ensures CensusAll(a + b + c + d, nodes) == CensusAll(a, nodes) + CensusAll(b, nodes) + CensusAll(c, nodes) + CensusAll(d, nodes)
  {
    CensusAllAppend(a + b + c, d, nodes);
    CensusAllAppend(a + b, c, nodes);
    CensusAllAppend(a, b, nodes);
  }

  lemma {:induction false} CountFoldAll(ns: seq<Node>, nodes: set<Kind>, maxLen: int, show: bool)
    requires maxLen >= |BarePlaceholder| && ExceptHandlerKind !in nodes
    ensures Count(FoldAll(ns, nodes, maxLen, show)) == CensusAll(ns, nodes)
    decreases NodesSize(ns), 0
  {
    if ns != [] {
      HeadSmaller(ns);
      CountFoldOne(ns[0], nodes, maxLen, show);
      CountFoldAll(ns[1..], nodes, maxLen, show);
      CountAppend(FoldOne(ns[0], nodes, maxLen, show), FoldAll(ns[1..], nodes, maxLen, show));
    }
  }

  lemma {:induction false} CountHandlerBranches(hs: seq<Handler>, nodes: set<Kind>, maxLen: int, show: bool)
    requires maxLen >= |BarePlaceholder| && ExceptHandlerKind !in nodes
    ensures Count(HandlerBranches(hs, nodes, maxLen, show)) == |hs| + CensusAll(Handlers(hs), nodes)
    decreases HandlersSize(hs), 0
  {
    if hs != [] {
      var x := LNode(HandlerLabel(hs[0], maxLen, show), FoldAll(Stmts(hs[0].body), nodes, maxLen, show));
      var rest := HandlerBranches(hs[1..], nodes, maxLen, show);
      StmtsNodesSize(hs[0].body);
      CountFoldAll(Stmts(hs[0].body), nodes, maxLen, show);
      CountHandlerBranches(hs[1..], nodes, maxLen, show);
      CountSingle(x);
      CountAppend([x], rest);
      assert Handlers(hs)[1..] == Handlers(hs[1..]);
      assert Census(HandlerNode(hs[0]), nodes) == CensusAll(Stmts(hs[0].body), nodes);
    }
  }

  lemma {:induction false} CountClause(caption: string, ss: seq<Stmt>, nodes: set<Kind>, maxLen: int, show: bool)
    requires maxLen >= |BarePlaceholder| && ExceptHandlerKind !in nodes
    ensures Count(Clause(caption, ss, nodes, maxLen, show)) == Present(ss) + CensusAll(Stmts(ss), nodes)
    decreases StmtsSize(ss), 1
  {
    if ss != [] {
      StmtsNodesSize(ss);
      CountFoldAll(Stmts(ss), nodes, maxLen, show);
      CountSingle(LNode(WithLinenoText(caption, Some(ss[0].line), show), FoldAll(Stmts(ss), nodes, maxLen, show)));
    }
  }

  /** show_logic_map draws, under the root, one node per logical statement
      of the module and one per synthetic branch. */
  lemma {:induction false} LogicMapSize(body: seq<Stmt>, includeExits: bool, includeRaises: bool, exprWidth: int, show: bool)
    requires exprWidth >= |BarePlaceholder|
    ensures Count(LogicMapOf(body, includeExits, includeRaises, exprWidth, show))
      == CensusAll(Stmts(body), NodeSet(includeExits, includeRaises))
  {
    NeverLogical(includeExits, includeRaises);
    CountChildren(ModuleNode(body), NodeSet(includeExits, includeRaises), exprWidth, show);
  }
}
