/** logic_map_tui.py: the earlier interactive outline. The same
    `_populate` walk as lmt.py (see `LogicalOutline.Populate`), with a
    shorter allow-list (no async loops or context managers, no except
    handlers), a `with` label that shows only the first context manager,
    and no handling of a SyntaxError: the parser's error ends `compose`. */
module LogicMapTui {
  import opened Wrappers
  import opened PyAst
  import opened TreeArena
  import opened ExprText
  import opened LogicalOutline
  import Lmt
  import LogicMap

  /** LOGICAL_NODES; `ast.Match` is on it when the running Python has it. */
  function LogicalNodes(hasMatch: bool): (nodes: set<Kind>)
    ensures MatchKind in nodes <==> hasMatch
    ensures ExceptHandlerKind !in nodes && AsyncForKind !in nodes && AsyncWithKind !in nodes
    ensures ReturnKind !in nodes && BreakKind !in nodes && ContinueKind !in nodes && RaiseKind !in nodes
    ensures TryStarKind !in nodes && MatchCaseKind !in nodes && ModuleKind !in nodes
    ensures ExprKind !in nodes && SimpleKind !in nodes
  {
    {ClassDefKind, FunctionDefKind, AsyncFunctionDefKind, IfKind, ForKind, WhileKind, WithKind, TryKind}
    + (if hasMatch then {MatchKind} else {})
  }

  /** `_label(node)`; the label shapes are those of lmt.py. */
  function Label(n: Node): Caption {
    match n
    case StmtNode(s) => StmtLabel(s)
    case _ => Rich([Span(TypeName(n), "")])
  }

  /** `_label` on a statement node. */
  function StmtLabel(s: Stmt): Caption {
    match s
    case ClassDef(name, _, _) => Lmt.DefLabel("class ", "cyan", name)
    case FunctionDef(name, _, _) => Lmt.DefLabel("def ", "green", name + "()")
    case AsyncFunctionDef(name, _, _) => Lmt.DefLabel("async def ", "green", name + "()")
    case If(test, _, _, _) => Lmt.ExprLabel("if ", test)
    case For(target, iter, _, _, _) => Lmt.LoopLabel("for ", target, iter)
    case While(test, _, _, _) => Lmt.ExprLabel("while ", test)
    case With(item, _, _, _) => Lmt.ExprLabel("with ", item)
    case Try(_, _, _, _, _) => Rich([Span("try", "magenta")])
    case Match(subject, _, _) => Lmt.ExprLabel("match ", subject)
    case _ => Rich([Span(TypeName(StmtNode(s)), "")])
  }

  /** `LogicMapApp.compose`: the tree for a module named `name` whose source
      the parser turned into `parsed`. A SyntaxError is not caught: it
      propagates out of compose, and no tree is shown. */
  method Compose(name: string, parsed: Result<seq<Stmt>, string>, hasMatch: bool) returns (r: Result<Tree<Caption>, string>)
    ensures parsed.Failure? ==> r == Failure(parsed.error)
    ensures parsed.Success? ==> r.Success? && fresh(r.value) && r.value.Valid() && r.value.expanded == {}
    ensures parsed.Success? ==>
      r.value.nodes == [Entry(0, Lmt.RootCaption(name))] + Emit(0, 1, Outline(ModuleNode(parsed.value), LogicalNodes(hasMatch), Label))
  {
    match parsed {
      case Failure(message) =>
        r := Failure(message);
      case Success(body) =>
        var t := new Tree(Lmt.RootCaption(name));
        Populate(t, 0, ModuleNode(body), LogicalNodes(hasMatch), Label);
        r := Success(t);
    }
  }

  // ----- properties, next to lmt.py -----

  /** This allow-list is the logic map's base list, and part of lmt.py's. */
  lemma {:induction false} NodesWithinLmt(hasMatch: bool)
    ensures LogicalNodes(hasMatch) <= Lmt.LogicalNodes(hasMatch)
    ensures LogicalNodes(true) == LogicMap.BaseLogicalNodes
  {
  }

  /** Every node on this allow-list except `with` is labelled as lmt.py
      labels it. */
  lemma {:induction false} LabelsAgreeWithLmt(n: Node)
    requires KindOf(n) in LogicalNodes(true) && KindOf(n) != WithKind
    ensures Label(n) == Lmt.Label(n)
  {
    match n.stmt {
      case ClassDef(_, _, _) =>
      case FunctionDef(_, _, _) =>
      case AsyncFunctionDef(_, _, _) =>
      case If(_, _, _, _) =>
      case For(_, _, _, _, _) =>
      case While(_, _, _, _) =>
      case Try(_, _, _, _, _) =>
      case Match(_, _, _) =>
    }
  }

  /** A `with` shows only its first context manager: its label is the one
      lmt.py gives the same statement holding that item alone. */
  lemma {:induction false} WithShowsFirstItem(item: Expr, more: seq<Expr>, body: seq<Stmt>, line: nat)
    ensures Label(StmtNode(With(item, more, body, line))) == Lmt.Label(StmtNode(With(item, [], body, line)))
  {
    OneContext(item);
  }

  /** Joining the rendering of a single context manager is that rendering. */
  lemma {:induction false} OneContext(item: Expr)
    ensures Lmt.Contexts(item, []) == ShortExpr(item, Lmt.ExprWidth)
  {
    assert [item] + [] == [item];
    assert Lmt.ShortAll([item]) == [ShortExpr(item, Lmt.ExprWidth)];
  }

  /** What an except block holds never shows: the outline of a try
      statement is that of the same statement without handlers. */
  lemma {:induction false} HandlersHidden(body: seq<Stmt>, hs: seq<Handler>, orelse: seq<Stmt>, fin: seq<Stmt>, line: nat, hasMatch: bool)
    ensures Outline(StmtNode(Try(body, hs, orelse, fin, line)), LogicalNodes(hasMatch), Label)
         == Outline(StmtNode(Try(body, [], orelse, fin, line)), LogicalNodes(hasMatch), Label)
  {
    HandlersVanish(body, hs, [], orelse, fin, line, LogicalNodes(hasMatch), Label);
  }

  /** The outline never holds more nodes than lmt.py's outline of the same
      module. */
  lemma {:induction false} NoMoreNodesThanLmt(body: seq<Stmt>, hasMatch: bool)
    ensures Count(Outline(ModuleNode(body), LogicalNodes(hasMatch), Label))
         <= Count(Outline(ModuleNode(body), Lmt.LogicalNodes(hasMatch), Lmt.Label))
  {
    OutlineCount(ModuleNode(body), LogicalNodes(hasMatch), Label);
    OutlineCount(ModuleNode(body), Lmt.LogicalNodes(hasMatch), Lmt.Label);
    NodesWithinLmt(hasMatch);
    ReachedMonotone(ModuleNode(body), LogicalNodes(hasMatch), Lmt.LogicalNodes(hasMatch));
  }
}
