/** lmt.py: the foldable outline of a Python module. Each logical statement
    (and each except handler) becomes a tree node with a coloured label;
    its logical descendants hang below it (see `LogicalOutline.Populate`). Source
    that does not parse yields a single red "SyntaxError" node under the
    root. */
module Lmt {
  import opened Wrappers
  import opened Strings
  import opened PyAst
  import opened TreeArena
  import opened TextWrap
  import opened ExprText
  import opened LogicalOutline
  import LogicMap

  /** The default `max_len` of `_expr`. */
  const ExprWidth: int := 60

  /** LOGICAL_NODES; `ast.Match` is on it when the running Python has it. */
  function LogicalNodes(hasMatch: bool): (nodes: set<Kind>)
    ensures MatchKind in nodes <==> hasMatch
    ensures ExceptHandlerKind in nodes && AsyncForKind in nodes && AsyncWithKind in nodes
    ensures ReturnKind !in nodes && BreakKind !in nodes && ContinueKind !in nodes && RaiseKind !in nodes
    ensures TryStarKind !in nodes && MatchCaseKind !in nodes && ModuleKind !in nodes
    ensures ExprKind !in nodes && SimpleKind !in nodes
  {
    {ClassDefKind, FunctionDefKind, AsyncFunctionDefKind, IfKind, ForKind, AsyncForKind,
     WhileKind, WithKind, AsyncWithKind, TryKind, ExceptHandlerKind}
    + (if hasMatch then {MatchKind} else {})
  }

  /** `_expr` of each expression, in order. */
  function ShortAll(es: seq<Expr>): (r: seq<string>)
    ensures |r| == |es|
    ensures forall i :: 0 <= i < |es| ==> r[i] == ShortExpr(es[i], ExprWidth)
  {
    seq(|es|, i requires 0 <= i < |es| => ShortExpr(es[i], ExprWidth))
  }

  /** ", ".join(_expr(item.context_expr) for item in node.items) */
  function Contexts(item: Expr, more: seq<Expr>): string {
    Join(ShortAll([item] + more), ", ")
  }

  /** Text.assemble((keyword, style), (name, "bold")): a definition. */
  function DefLabel(keyword: string, style: string, name: string): Caption {
    Rich([Span(keyword, style), Span(name, "bold")])
  }

  /** Text.assemble((keyword, "magenta"), _expr(e)): a statement led by one
      expression. */
  function ExprLabel(keyword: string, e: Expr): Caption {
    Rich([Span(keyword, "magenta"), Span(ShortExpr(e, ExprWidth), "")])
  }

  /** Text.assemble((keyword, "magenta"), _expr(target), " in ", _expr(iter)) */
  function LoopLabel(keyword: string, target: Expr, iter: Expr): Caption {
    Rich([Span(keyword, "magenta"), Span(ShortExpr(target, ExprWidth), ""), Span(" in ", ""), Span(ShortExpr(iter, ExprWidth), "")])
  }

  /** Text.assemble((keyword, "magenta"), contexts) */
  function WithLabel(keyword: string, item: Expr, more: seq<Expr>): Caption {
    Rich([Span(keyword, "magenta"), Span(Contexts(item, more), "")])
  }

  /** The label of an except handler: the exception type, never the name. */
  function HandlerLabel(h: Handler): Caption {
    match h.exceptionType
    case None => Rich([Span("except", "magenta")])
    case Some(e) => ExprLabel("except ", e)
  }

  /** `_label(node)` */
  function Label(n: Node): Caption {
    match n
    case StmtNode(s) => StmtLabel(s)
    case HandlerNode(h) => HandlerLabel(h)
    case _ => Rich([Span(TypeName(n), "")])
  }

  /** `_label` on a statement node. */
  function StmtLabel(s: Stmt): Caption {
    match s
    case ClassDef(name, _, _) => DefLabel("class ", "cyan", name)
    case FunctionDef(name, _, _) => DefLabel("def ", "green", name + "()")
    case AsyncFunctionDef(name, _, _) => DefLabel("async def ", "green", name + "()")
    case If(test, _, _, _) => ExprLabel("if ", test)
    case For(target, iter, _, _, _) => LoopLabel("for ", target, iter)
    case AsyncFor(target, iter, _, _, _) => LoopLabel("async for ", target, iter)
    case While(test, _, _, _) => ExprLabel("while ", test)
    case With(item, more, _, _) => WithLabel("with ", item, more)
    case AsyncWith(item, more, _, _) => WithLabel("async with ", item, more)
    case Try(_, _, _, _, _) => Rich([Span("try", "magenta")])
    case Match(subject, _, _) => ExprLabel("match ", subject)
    case _ => Rich([Span(TypeName(StmtNode(s)), "")])
  }

  /** The root caption, f"[bold bright_blue]{name}". */
  function RootCaption(name: string): Caption {
    Markup("[bold bright_blue]" + name)
  }

  /** The caption added under the root when the source does not parse. */
  function SyntaxErrorCaption(message: string): Caption {
    Rich([Span("SyntaxError: " + message, "red")])
  }

  /** `LogicMapApp.compose`: the tree shown for a module named `name`, whose
      source the parser turned into `parsed` (its statements, or the message
      of the SyntaxError it raised). The root is expanded either way. */
  method Compose(name: string, parsed: Result<seq<Stmt>, string>, hasMatch: bool) returns (t: Tree<Caption>)
    ensures fresh(t) && t.Valid()
    ensures parsed.Success? ==>
      t.nodes == [Entry(0, RootCaption(name))] + Emit(0, 1, Outline(ModuleNode(parsed.value), LogicalNodes(hasMatch), Label))
    ensures parsed.Failure? ==>
      t.nodes == [Entry(0, RootCaption(name)), Entry(0, SyntaxErrorCaption(parsed.error))]
    ensures t.expanded == {0}
  {
    t := new Tree(RootCaption(name));
    match parsed {
      case Success(body) =>
        Populate(t, 0, ModuleNode(body), LogicalNodes(hasMatch), Label);
      case Failure(message) =>
        var _ := t.Add(0, SyntaxErrorCaption(message));
    }
    t.Expand(0);
  }

  // ----- properties -----

  /** Every node on the allow-list has a label of its own, led by a styled
      keyword: the `type(node).__name__` fallback is never shown. */
  lemma {:induction false} LabelStyled(n: Node)
    requires KindOf(n) in LogicalNodes(true)
    ensures Label(n).Rich? && |Label(n).spans| > 0 && Label(n).spans[0].style != ""
  {
    if n.StmtNode? {
      match n.stmt {
        case ClassDef(_, _, _) =>
        case FunctionDef(_, _, _) =>
        case AsyncFunctionDef(_, _, _) =>
        case If(_, _, _, _) =>
        case For(_, _, _, _, _) =>
        case AsyncFor(_, _, _, _, _) =>
        case While(_, _, _, _) =>
        case With(_, _, _, _) =>
        case AsyncWith(_, _, _, _) =>
        case Try(_, _, _, _, _) =>
        case Match(_, _, _) =>
      }
    }
  }

  /** Any other node is labelled by its class name alone. */
  lemma {:induction false} LabelFallback(n: Node)
    requires KindOf(n) !in LogicalNodes(true)
    ensures Label(n) == Rich([Span(TypeName(n), "")])
  {
  }

  /** A handler's label shows its exception type (shortened like any
      expression) or nothing after "except"; the bound name never shows. */
  lemma {:induction false} HandlerLabelHidesName(h: Handler, name: Option<string>)
    ensures Label(HandlerNode(h)) == Label(HandlerNode(h.(name := name)))
    ensures h.exceptionType.None? ==> Label(HandlerNode(h)) == Rich([Span("except", "magenta")])
    ensures h.exceptionType.Some? ==>
      Label(HandlerNode(h)).spans[1].text == ShortExpr(h.exceptionType.value, ExprWidth)
  {
  }

  /** Class, function and node type names are identifiers, without newlines. */
  predicate NamesOneLine(n: Node) {
    && '\n' !in TypeName(n)
    && (n.StmtNode? && (n.stmt.ClassDef? || n.stmt.FunctionDef? || n.stmt.AsyncFunctionDef?) ==> '\n' !in n.stmt.name)
  }

  /** Every label fits on one line: expressions spanning several source
      lines are flattened by `_expr`. */
  lemma {:induction false} LabelIsOneLine(n: Node)
    requires NamesOneLine(n)
    ensures OneLine(Label(n))
  {
    match n {
      case StmtNode(s) => StmtLabelOneLine(s);
      case HandlerNode(h) =>
        if h.exceptionType.Some? {
          assert '\n' !in "except ";
          ExprLabelOneLine("except ", h.exceptionType.value);
        } else {
          assert '\n' !in "except";
        }
      case _ =>
    }
  }

  lemma {:induction false} StmtLabelOneLine(s: Stmt)
    requires NamesOneLine(StmtNode(s))
    ensures OneLine(StmtLabel(s))
  {
    match s {
      case ClassDef(name, _, _) =>
        assert '\n' !in "class ";
        DefLabelOneLine("class ", "cyan", name);
      case FunctionDef(name, _, _) =>
        assert '\n' !in "def " && '\n' !in name + "()";
        DefLabelOneLine("def ", "green", name + "()");
      case AsyncFunctionDef(name, _, _) =>
        assert '\n' !in "async def " && '\n' !in name + "()";
        DefLabelOneLine("async def ", "green", name + "()");
      case If(_, _, _, _) => TestLabelOneLine(s);
      case While(_, _, _, _) => TestLabelOneLine(s);
      case Match(_, _, _) => TestLabelOneLine(s);
      case For(target, iter, _, _, _) =>
        assert '\n' !in "for ";
        LoopLabelOneLine("for ", target, iter);
      case AsyncFor(target, iter, _, _, _) =>
        assert '\n' !in "async for ";
        LoopLabelOneLine("async for ", target, iter);
      case With(item, more, _, _) =>
        assert '\n' !in "with ";
        WithLabelOneLine("with ", item, more);
      case AsyncWith(item, more, _, _) =>
        assert '\n' !in "async with ";
        WithLabelOneLine("async with ", item, more);
      case Try(_, _, _, _, _) =>
        assert '\n' !in "try";
      case _ =>
    }
  }

  lemma {:induction false} TestLabelOneLine(s: Stmt)
    requires s.If? || s.While? || s.Match?
    ensures OneLine(StmtLabel(s))
  {
    match s {
      case If(test, _, _, _) =>
        assert '\n' !in "if ";
        ExprLabelOneLine("if ", test);
      case While(test, _, _, _) =>
        assert '\n' !in "while ";
        ExprLabelOneLine("while ", test);
      case Match(subject, _, _) =>
        assert '\n' !in "match ";
        ExprLabelOneLine("match ", subject);
    }
  }

  lemma {:induction false} DefLabelOneLine(keyword: string, style: string, name: string)
    requires '\n' !in keyword && '\n' !in name
    ensures OneLine(DefLabel(keyword, style, name))
  {
  }

  lemma {:induction false} ExprLabelOneLine(keyword: string, e: Expr)
    requires '\n' !in keyword
    ensures OneLine(ExprLabel(keyword, e))
  {
    assert '\n' !in ShortExpr(e, ExprWidth);
  }

  lemma {:induction false} LoopLabelOneLine(keyword: string, target: Expr, iter: Expr)
    requires '\n' !in keyword
    ensures OneLine(LoopLabel(keyword, target, iter))
  {
    var a, b := ShortExpr(target, ExprWidth), ShortExpr(iter, ExprWidth);
    var spans := [Span(keyword, "magenta"), Span(a, ""), Span(" in ", ""), Span(b, "")];
    assert LoopLabel(keyword, target, iter) == Rich(spans);
    assert '\n' !in " in ";
    forall i | 0 <= i < |spans|
      ensures '\n' !in spans[i].text
    {
      if i == 1 {
        assert spans[i].text == a;
      } else if i == 3 {
        assert spans[i].text == b;
      }
    }
  }

  lemma {:induction false} WithLabelOneLine(keyword: string, item: Expr, more: seq<Expr>)
    requires '\n' !in keyword
    ensures OneLine(WithLabel(keyword, item, more))
  {
    var ws := ShortAll([item] + more);
    assert '\n' !in ", ";
    forall k | 0 <= k < |ws| ensures '\n' !in ws[k] {
      assert ws[k] == ShortExpr(([item] + more)[k], ExprWidth);
    }
    JoinAvoids(ws, ", ", '\n');
    assert '\n' !in Contexts(item, more);
  }

  /** The handlers of a try statement each show as a node holding the
      outline of the handler's body. */
  lemma {:induction false} HandlersShown(hs: seq<Handler>, hasMatch: bool)
    ensures var r := OutlineAll(Handlers(hs), LogicalNodes(hasMatch), Label);
      && |r| == |hs|
      && forall i :: 0 <= i < |hs| ==>
        r[i] == LNode(HandlerLabel(hs[i]), OutlineAll(Stmts(hs[i].body), LogicalNodes(hasMatch), Label))
    decreases |hs|
  {
    var nodes := LogicalNodes(hasMatch);
    if hs != [] {
      HandlersShown(hs[1..], hasMatch);
      var ns := Handlers(hs);
      assert ns[0] == HandlerNode(hs[0]) && ns[1..] == Handlers(hs[1..]);
      assert OutlineOne(ns[0], nodes, Label) == [LNode(HandlerLabel(hs[0]), Outline(ns[0], nodes, Label))];
      assert ChildNodes(ns[0]) == Stmts(hs[0].body);
    }
  }

  /** Next to the logic map's allow-list without exits or raises, this one
      adds the async loops and context managers and the except handlers. */
  lemma {:induction false} NodesBeyondLogicMap()
    ensures LogicalNodes(true) == LogicMap.NodeSet(false, false) + {AsyncForKind, AsyncWithKind, ExceptHandlerKind}
  {
  }
}
