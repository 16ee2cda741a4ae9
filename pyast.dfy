/** The part of Python's `ast` module the scripts read: statements, exception
    handlers and match arms, `ast.iter_child_nodes` restricted to the nodes that
    can hold statements, and `ast.walk`.

    Expressions are opaque: only their unparsed source text matters, so an
    expression is represented by that text and `ast.unparse` returns it.
    Expression nodes never contain statements, so they are left out of
    `ChildNodes`; none of the scripts' allow-lists names an expression type. */
module PyAst {
  import opened Wrappers

  /** An expression node, known by its source text. */
  datatype Expr = Expr(source: string)

  /** ast.unparse */
  function Unparse(e: Expr): string {
    e.source
  }

  /** Statement nodes. Every statement the parser produces has a line number.
      `With` and `AsyncWith` hold at least one context item, as the grammar
      demands. `StringExpr` is an expression statement whose value is a string
      constant (a docstring candidate); `Simple` is any other simple statement
      (assignment, call, import, pass, ...), known by its class name. */
  datatype Stmt =
    | ClassDef(name: string, body: seq<Stmt>, line: nat)
    | FunctionDef(name: string, body: seq<Stmt>, line: nat)
    | AsyncFunctionDef(name: string, body: seq<Stmt>, line: nat)
    | If(test: Expr, body: seq<Stmt>, orelse: seq<Stmt>, line: nat)
    | For(target: Expr, iter: Expr, body: seq<Stmt>, orelse: seq<Stmt>, line: nat)
    | AsyncFor(target: Expr, iter: Expr, body: seq<Stmt>, orelse: seq<Stmt>, line: nat)
    | While(test: Expr, body: seq<Stmt>, orelse: seq<Stmt>, line: nat)
    | With(item: Expr, moreItems: seq<Expr>, body: seq<Stmt>, line: nat)
    | AsyncWith(item: Expr, moreItems: seq<Expr>, body: seq<Stmt>, line: nat)
    | Try(body: seq<Stmt>, handlers: seq<Handler>, orelse: seq<Stmt>, finalbody: seq<Stmt>, line: nat)
    | TryStar(body: seq<Stmt>, handlers: seq<Handler>, orelse: seq<Stmt>, finalbody: seq<Stmt>, line: nat)
    | Match(subject: Expr, cases: seq<MatchCase>, line: nat)
    | Return(value: Option<Expr>, line: nat)
    | Break(line: nat)
    | Continue(line: nat)
    | Raise(exc: Option<Expr>, cause: Option<Expr>, line: nat)
    | StringExpr(text: string, line: nat)
    | Simple(typeName: string, line: nat)

  /** ast.ExceptHandler: `except <exceptionType> as <name>:` */
  datatype Handler = Handler(exceptionType: Option<Expr>, name: Option<string>, body: seq<Stmt>, line: nat)

  /** ast.match_case; its pattern and guard are expressions. */
  datatype MatchCase = MatchCase(body: seq<Stmt>)

  /** Any node that can hold statements. */
  datatype Node =
    | ModuleNode(stmts: seq<Stmt>)
    | StmtNode(stmt: Stmt)
    | HandlerNode(handler: Handler)
    | CaseNode(matchCase: MatchCase)

  /** The node classes that `isinstance` tests against. */
  datatype Kind =
    | ModuleKind | ClassDefKind | FunctionDefKind | AsyncFunctionDefKind
    | IfKind | ForKind | AsyncForKind | WhileKind | WithKind | AsyncWithKind
    | TryKind | TryStarKind | MatchKind | ReturnKind | BreakKind | ContinueKind
    | RaiseKind | ExprKind | SimpleKind | ExceptHandlerKind | MatchCaseKind

  function KindOf(n: Node): Kind {
    match n
    case ModuleNode(_) => ModuleKind
    case HandlerNode(_) => ExceptHandlerKind
    case CaseNode(_) => MatchCaseKind
    case StmtNode(s) =>
      match s
      case ClassDef(_, _, _) => ClassDefKind
      case FunctionDef(_, _, _) => FunctionDefKind
      case AsyncFunctionDef(_, _, _) => AsyncFunctionDefKind
      case If(_, _, _, _) => IfKind
      case For(_, _, _, _, _) => ForKind
      case AsyncFor(_, _, _, _, _) => AsyncForKind
      case While(_, _, _, _) => WhileKind
      case With(_, _, _, _) => WithKind
      case AsyncWith(_, _, _, _) => AsyncWithKind
      case Try(_, _, _, _, _) => TryKind
      case TryStar(_, _, _, _, _) => TryStarKind
      case Match(_, _, _) => MatchKind
      case Return(_, _) => ReturnKind
      case Break(_) => BreakKind
      case Continue(_) => ContinueKind
      case Raise(_, _, _) => RaiseKind
      case StringExpr(_, _) => ExprKind
      case Simple(_, _) => SimpleKind
  }

  /** type(node).__name__ */
  function TypeName(n: Node): string {
    match n
    case ModuleNode(_) => "Module"
    case HandlerNode(_) => "ExceptHandler"
    case CaseNode(_) => "match_case"
    case StmtNode(s) =>
      match s
      case ClassDef(_, _, _) => "ClassDef"
      case FunctionDef(_, _, _) => "FunctionDef"
      case AsyncFunctionDef(_, _, _) => "AsyncFunctionDef"
      case If(_, _, _, _) => "If"
      case For(_, _, _, _, _) => "For"
      case AsyncFor(_, _, _, _, _) => "AsyncFor"
      case While(_, _, _, _) => "While"
      case With(_, _, _, _) => "With"
      case AsyncWith(_, _, _, _) => "AsyncWith"
      case Try(_, _, _, _, _) => "Try"
      case TryStar(_, _, _, _, _) => "TryStar"
      case Match(_, _, _) => "Match"
      case Return(_, _) => "Return"
      case Break(_) => "Break"
      case Continue(_) => "Continue"
      case Raise(_, _, _) => "Raise"
      case StringExpr(_, _) => "Expr"
      case Simple(name, _) => name
  }

  /** The line number of a node that has one (`hasattr(node, "lineno")`). */
  function LineOf(n: Node): Option<nat> {
    match n
    case ModuleNode(_) => None
    case StmtNode(s) => Some(s.line)
    case HandlerNode(h) => Some(h.line)
    case CaseNode(_) => None
  }

  function Stmts(ss: seq<Stmt>): (r: seq<Node>)
    ensures |r| == |ss|
    ensures forall i :: 0 <= i < |ss| ==> r[i] == StmtNode(ss[i])
  {
    if ss == [] then [] else [StmtNode(ss[0])] + Stmts(ss[1..])
  }

  function Handlers(hs: seq<Handler>): (r: seq<Node>)
    ensures |r| == |hs|
    ensures forall i :: 0 <= i < |hs| ==> r[i] == HandlerNode(hs[i])
  {
    if hs == [] then [] else [HandlerNode(hs[0])] + Handlers(hs[1..])
  }

  function Cases(cs: seq<MatchCase>): (r: seq<Node>)
    ensures |r| == |cs|
    ensures forall i :: 0 <= i < |cs| ==> r[i] == CaseNode(cs[i])
  {
    if cs == [] then [] else [CaseNode(cs[0])] + Cases(cs[1..])
  }

  /** ast.iter_child_nodes(n), keeping the children that can hold statements,
      in field order. */
  function ChildNodes(n: Node): seq<Node> {
    match n
    case ModuleNode(body) => Stmts(body)
    case HandlerNode(h) => Stmts(h.body)
    case CaseNode(c) => Stmts(c.body)
    case StmtNode(s) =>
      match s
      case ClassDef(_, body, _) => Stmts(body)
      case FunctionDef(_, body, _) => Stmts(body)
      case AsyncFunctionDef(_, body, _) => Stmts(body)
      case If(_, body, orelse, _) => Stmts(body) + Stmts(orelse)
      case For(_, _, body, orelse, _) => Stmts(body) + Stmts(orelse)
      case AsyncFor(_, _, body, orelse, _) => Stmts(body) + Stmts(orelse)
      case While(_, body, orelse, _) => Stmts(body) + Stmts(orelse)
      case With(_, _, body, _) => Stmts(body)
      case AsyncWith(_, _, body, _) => Stmts(body)
      case Try(body, hs, orelse, fin, _) => Stmts(body) + Handlers(hs) + Stmts(orelse) + Stmts(fin)
      case TryStar(body, hs, orelse, fin, _) => Stmts(body) + Handlers(hs) + Stmts(orelse) + Stmts(fin)
      case Match(_, cs, _) => Cases(cs)
      case _ => []
  }

  // ----- sizes, for termination of traversals over ChildNodes -----

  function StmtSize(s: Stmt): nat {
    match s
    case ClassDef(_, body, _) => 1 + StmtsSize(body)
    case FunctionDef(_, body, _) => 1 + StmtsSize(body)
    case AsyncFunctionDef(_, body, _) => 1 + StmtsSize(body)
    case If(_, body, orelse, _) => 1 + StmtsSize(body) + StmtsSize(orelse)
    case For(_, _, body, orelse, _) => 1 + StmtsSize(body) + StmtsSize(orelse)
    case AsyncFor(_, _, body, orelse, _) => 1 + StmtsSize(body) + StmtsSize(orelse)
    case While(_, body, orelse, _) => 1 + StmtsSize(body) + StmtsSize(orelse)
    case With(_, _, body, _) => 1 + StmtsSize(body)
    case AsyncWith(_, _, body, _) => 1 + StmtsSize(body)
    case Try(body, hs, orelse, fin, _) => 1 + StmtsSize(body) + HandlersSize(hs) + StmtsSize(orelse) + StmtsSize(fin)
    case TryStar(body, hs, orelse, fin, _) => 1 + StmtsSize(body) + HandlersSize(hs) + StmtsSize(orelse) + StmtsSize(fin)
    case Match(_, cs, _) => 1 + CasesSize(cs)
    case _ => 1
  }

  function StmtsSize(ss: seq<Stmt>): nat {
    if ss == [] then 0 else StmtSize(ss[0]) + 1 + StmtsSize(ss[1..])
  }

  function HandlersSize(hs: seq<Handler>): nat {
    if hs == [] then 0 else 2 + StmtsSize(hs[0].body) + HandlersSize(hs[1..])
  }

  function CasesSize(cs: seq<MatchCase>): nat {
    if cs == [] then 0 else 2 + StmtsSize(cs[0].body) + CasesSize(cs[1..])
  }

  function NodeSize(n: Node): nat {
    match n
    case ModuleNode(body) => 1 + StmtsSize(body)
    case StmtNode(s) => StmtSize(s)
    case HandlerNode(h) => 1 + StmtsSize(h.body)
    case CaseNode(c) => 1 + StmtsSize(c.body)
  }

  /** Size of a list of nodes: each node's size plus one. */
  function NodesSize(ns: seq<Node>): nat {
    if ns == [] then 0 else NodeSize(ns[0]) + 1 + NodesSize(ns[1..])
  }

  lemma {:induction false} NodesSizeAppend(a: seq<Node>, b: seq<Node>)
    ensures NodesSize(a + b) == NodesSize(a) + NodesSize(b)
    decreases |a|
  {
    if a == [] {
      assert a + b == b;
    } else {
      assert (a + b)[0] == a[0] && (a + b)[1..] == a[1..] + b;
      NodesSizeAppend(a[1..], b);
    }
  }

  lemma {:induction false} StmtsNodesSize(ss: seq<Stmt>)
    ensures NodesSize(Stmts(ss)) == StmtsSize(ss)
    decreases |ss|
  {
    if ss != [] {
      assert Stmts(ss)[1..] == Stmts(ss[1..]);
      StmtsNodesSize(ss[1..]);
    }
  }

  lemma {:induction false} HandlersNodesSize(hs: seq<Handler>)
    ensures NodesSize(Handlers(hs)) == HandlersSize(hs)
    decreases |hs|
  {
    if hs != [] {
      assert Handlers(hs)[1..] == Handlers(hs[1..]);
      HandlersNodesSize(hs[1..]);
    }
  }

  lemma {:induction false} CasesNodesSize(cs: seq<MatchCase>)
    ensures NodesSize(Cases(cs)) == CasesSize(cs)
    decreases |cs|
  {
    if cs != [] {
      assert Cases(cs)[1..] == Cases(cs[1..]);
      CasesNodesSize(cs[1..]);
    }
  }

  /** The children of a node are, all together, smaller than the node. */
  lemma {:induction false} ChildNodesSmaller(n: Node)
    ensures NodesSize(ChildNodes(n)) < NodeSize(n)
  {
    match n
    case ModuleNode(body) => StmtsNodesSize(body);
    case HandlerNode(h) => StmtsNodesSize(h.body);
    case CaseNode(c) => StmtsNodesSize(c.body);
    case StmtNode(s) => StmtChildNodesSmaller(s);
  }

  lemma {:induction false} StmtChildNodesSmaller(s: Stmt)
    ensures NodesSize(ChildNodes(StmtNode(s))) < StmtSize(s)
  {
    if s.ClassDef? || s.FunctionDef? || s.AsyncFunctionDef? || s.With? || s.AsyncWith? {
      StmtsNodesSize(s.body);
    } else if s.If? || s.For? || s.AsyncFor? || s.While? {
      StmtsNodesSize(s.body); StmtsNodesSize(s.orelse);
      NodesSizeAppend(Stmts(s.body), Stmts(s.orelse));
    } else if s.Try? || s.TryStar? {
      TrySize(s.body, s.handlers, s.orelse, s.finalbody);
    } else if s.Match? {
      CasesNodesSize(s.cases);
    }
  }

  lemma {:induction false} TrySize(body: seq<Stmt>, hs: seq<Handler>, orelse: seq<Stmt>, fin: seq<Stmt>)
    ensures NodesSize(Stmts(body) + Handlers(hs) + Stmts(orelse) + Stmts(fin))
         == StmtsSize(body) + HandlersSize(hs) + StmtsSize(orelse) + StmtsSize(fin)
  {
    StmtsNodesSize(body); HandlersNodesSize(hs); StmtsNodesSize(orelse); StmtsNodesSize(fin);
    NodesSizeAppend(Stmts(body), Handlers(hs));
    NodesSizeAppend(Stmts(body) + Handlers(hs), Stmts(orelse));
    NodesSizeAppend(Stmts(body) + Handlers(hs) + Stmts(orelse), Stmts(fin));
  }

  lemma {:induction false} HeadSmaller(ns: seq<Node>)
    requires ns != []
    ensures NodeSize(ns[0]) < NodesSize(ns)
    ensures NodesSize(ns[1..]) < NodesSize(ns)
  {
  }

  /** Each statement of a list is smaller than the list. */
  lemma {:induction false} StmtInStmtsSmaller(ss: seq<Stmt>, i: nat)
    requires i < |ss|
    ensures StmtSize(ss[i]) < StmtsSize(ss)
    decreases i
  {
    if i > 0 {
      StmtInStmtsSmaller(ss[1..], i - 1);
    }
  }

  lemma {:induction false} NodeInNodesSmaller(ns: seq<Node>, i: nat)
    requires i < |ns|
    ensures NodeSize(ns[i]) < NodesSize(ns)
    decreases i
  {
    if i > 0 {
      NodeInNodesSmaller(ns[1..], i - 1);
    }
  }

  lemma {:induction false} HandlerInHandlersSmaller(hs: seq<Handler>, i: nat)
    requires i < |hs|
    ensures StmtsSize(hs[i].body) < HandlersSize(hs)
    decreases i
  {
    if i > 0 {
      HandlerInHandlersSmaller(hs[1..], i - 1);
    }
  }

  // ----- ast.walk -----

  /** ast.walk over a queue of nodes: breadth first, each node followed (later
      in the queue) by its children. */
  function Walk(queue: seq<Node>): seq<Node>
    decreases NodesSize(queue)
  {
    if queue == [] then []
    else
      var n := queue[0];
      ChildNodesSmaller(n);
      NodesSizeAppend(queue[1..], ChildNodes(n));
      [n] + Walk(queue[1..] + ChildNodes(n))
  }

  /** Reference: every node of the trees rooted in `ns`, counted with
      multiplicity (depth first). */
  function AllNodes(ns: seq<Node>): multiset<Node>
    decreases NodesSize(ns), 0
  {
    if ns == [] then multiset{}
    else
      HeadSmaller(ns);
      Subtree(ns[0]) + AllNodes(ns[1..])
  }

  function Subtree(n: Node): multiset<Node>
    decreases NodeSize(n), 1
  {
    ChildNodesSmaller(n);
    multiset{n} + AllNodes(ChildNodes(n))
  }

  lemma {:induction false} AllNodesAppend(a: seq<Node>, b: seq<Node>)
    ensures AllNodes(a + b) == AllNodes(a) + AllNodes(b)
    decreases |a|
  {
    if a == [] {
      assert a + b == b;
    } else {
      assert (a + b)[0] == a[0] && (a + b)[1..] == a[1..] + b;
      AllNodesAppend(a[1..], b);
      var t := Subtree(a[0]);
      assert AllNodes(a + b) == t + AllNodes(a[1..] + b);
      assert t + (AllNodes(a[1..]) + AllNodes(b)) == (t + AllNodes(a[1..])) + AllNodes(b);
    }
  }

  /** ast.walk visits every node of the tree exactly once. */
  lemma {:induction false} WalkVisitsEveryNodeOnce(queue: seq<Node>)
    ensures multiset(Walk(queue)) == AllNodes(queue)
    decreases NodesSize(queue)
  {
    if queue != [] {
      var n := queue[0];
      ChildNodesSmaller(n);
      NodesSizeAppend(queue[1..], ChildNodes(n));
      WalkVisitsEveryNodeOnce(queue[1..] + ChildNodes(n));
      AllNodesAppend(queue[1..], ChildNodes(n));
    }
  }
}
