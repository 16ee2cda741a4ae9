/** `_populate(tree_node, ast_node)`, shared by lmt.py and logic_map_tui.py:
    every logical child of a node becomes a tree node labelled by the
    script's `_label`, filled in by the same procedure on that child. A
    non-logical child is skipped together with everything below it. The two
    scripts differ only in their allow-list and their labels, which are
    parameters here. */
module LogicalOutline {
  import opened PyAst
  import opened TreeArena

  /** One run of a rich `Text`: its characters and its style ("" for none). */
  datatype Span = Span(text: string, style: string)

  /** A tree caption: console markup (the root's f-string) or a rich `Text`
      assembled from runs (every other node). */
  datatype Caption = Markup(markup: string) | Rich(spans: seq<Span>)

  /** A caption without a line break. */
  predicate OneLine(c: Caption) {
    match c
    case Markup(m) => '\n' !in m
    case Rich(spans) => forall i :: 0 <= i < |spans| ==> '\n' !in spans[i].text
  }

  // ----- the outline, as a function -----

  /** The children `_populate(tree_node, n)` adds under tree_node. */
  function Outline(n: Node, nodes: set<Kind>, labelOf: Node -> Caption): seq<LNode<Caption>>
    decreases NodeSize(n), 1
  {
    ChildNodesSmaller(n);
    OutlineAll(ChildNodes(n), nodes, labelOf)
  }

  /** What one child adds: a labelled node holding its own outline when it is
      logical, nothing otherwise. */
  function OutlineOne(n: Node, nodes: set<Kind>, labelOf: Node -> Caption): seq<LNode<Caption>>
    decreases NodeSize(n), 2
  {
    if KindOf(n) in nodes then [LNode(labelOf(n), Outline(n, nodes, labelOf))] else []
  }

  function OutlineAll(ns: seq<Node>, nodes: set<Kind>, labelOf: Node -> Caption): seq<LNode<Caption>>
    decreases NodesSize(ns), 0
  {
    if ns == [] then []
    else
      HeadSmaller(ns);
      OutlineOne(ns[0], nodes, labelOf) + OutlineAll(ns[1..], nodes, labelOf)
  }

  // ----- the outline, in place -----

  /** `_populate(tree_node, ast_node)` on the tree node in slot `id`. */
  method Populate(t: Tree<Caption>, id: nat, n: Node, nodes: set<Kind>, labelOf: Node -> Caption)
    requires t.Valid() && id < |t.nodes|
    modifies t
    ensures t.Valid() && t.expanded == old(t.expanded)
    ensures t.nodes == old(t.nodes) + Emit(id, |old(t.nodes)|, Outline(n, nodes, labelOf))
    decreases NodeSize(n), 1
  {
    var children := ChildNodes(n);
    ChildNodesSmaller(n);
    for i := 0 to |children|
      invariant t.Valid() && t.expanded == old(t.expanded) && id < |t.nodes|
      invariant t.nodes == old(t.nodes) + Emit(id, |old(t.nodes)|, OutlineAll(children[..i], nodes, labelOf))
    {
      ghost var prev := t.nodes;
      NodeInNodesSmaller(children, i);
      PopulateChild(t, id, children[i], nodes, labelOf);
      OutlineStep(old(t.nodes), prev, id, children, i, nodes, labelOf);
    }
    assert children[..|children|] == children;
  }

  /** The loop body of `_populate`: a logical child is added under slot `id`
      and populated in turn; any other child is passed over. */
  method PopulateChild(t: Tree<Caption>, id: nat, child: Node, nodes: set<Kind>, labelOf: Node -> Caption)
    requires t.Valid() && id < |t.nodes|
    modifies t
    ensures t.Valid() && t.expanded == old(t.expanded)
    ensures t.nodes == old(t.nodes) + Emit(id, |old(t.nodes)|, OutlineOne(child, nodes, labelOf))
    decreases NodeSize(child), 2
  {
    ghost var start := t.nodes;
    if KindOf(child) in nodes {
      ghost var x := LNode(labelOf(child), Outline(child, nodes, labelOf));
      var sub := t.Add(id, labelOf(child));
      Populate(t, sub, child, nodes, labelOf);
      EmitSingle(id, |start|, x);
      AppendAssoc(start, [Entry(id, x.caption)], Emit(|start|, |start| + 1, x.children));
    } else {
      assert start + Emit(id, |start|, []) == start;
    }
  }

  /** One step of the loop: the arena that holds the outline of the first i
      children, extended by child i's, holds the outline of the first i + 1. */
  lemma {:induction false} OutlineStep(start: seq<Entry<Caption>>, prev: seq<Entry<Caption>>, id: nat, ns: seq<Node>, i: nat,
                                       nodes: set<Kind>, labelOf: Node -> Caption)
    requires i < |ns|
    requires prev == start + Emit(id, |start|, OutlineAll(ns[..i], nodes, labelOf))
    ensures prev + Emit(id, |prev|, OutlineOne(ns[i], nodes, labelOf))
         == start + Emit(id, |start|, OutlineAll(ns[..i + 1], nodes, labelOf))
  {
    var n := ns[i];
    assert ns[..i + 1] == ns[..i] + [n];
    OutlineAllAppend(ns[..i], [n], nodes, labelOf);
    assert [n][1..] == [];
    var one := OutlineOne(n, nodes, labelOf);
    assert OutlineAll([n], nodes, labelOf) == one + [];
    assert one + [] == one;
    EmitStep(start, prev, id, OutlineAll(ns[..i], nodes, labelOf), one);
  }

  // ----- properties of the outline -----

  lemma {:induction false} OutlineAllAppend(a: seq<Node>, b: seq<Node>, nodes: set<Kind>, labelOf: Node -> Caption)
    ensures OutlineAll(a + b, nodes, labelOf) == OutlineAll(a, nodes, labelOf) + OutlineAll(b, nodes, labelOf)
    decreases |a|
  {
    if a == [] {
      assert a + b == b;
    } else {
      TailOfAppend(a, b);
      OutlineAllAppend(a[1..], b, nodes, labelOf);
      AppendAssoc(OutlineOne(a[0], nodes, labelOf), OutlineAll(a[1..], nodes, labelOf), OutlineAll(b, nodes, labelOf));
    }
  }

  /** Children whose kind is not on the allow-list add nothing at all, not
      even what lies below them. */
  lemma {:induction false} OutlineSkipsAll(ns: seq<Node>, nodes: set<Kind>, labelOf: Node -> Caption)
    requires forall i :: 0 <= i < |ns| ==> KindOf(ns[i]) !in nodes
    ensures OutlineAll(ns, nodes, labelOf) == []
    decreases |ns|
  {
    if ns != [] {
      assert KindOf(ns[0]) !in nodes;
      OutlineSkipsAll(ns[1..], nodes, labelOf);
    }
  }

  /** Every node of the outline is labelled by the label of a logical node:
      the outline holds one node per logical node that is reached from the
      root through logical nodes only, and nothing else. */
  function Reached(n: Node, nodes: set<Kind>): nat
    decreases NodeSize(n), 1
  {
    ChildNodesSmaller(n);
    ReachedAll(ChildNodes(n), nodes)
  }

  function ReachedAll(ns: seq<Node>, nodes: set<Kind>): nat
    decreases NodesSize(ns), 0
  {
    if ns == [] then 0
    else
      HeadSmaller(ns);
      (if KindOf(ns[0]) in nodes then 1 + Reached(ns[0], nodes) else 0) + ReachedAll(ns[1..], nodes)
  }

  /** The outline of n has exactly as many nodes as n has logical
      descendants reached through logical nodes only. */
  lemma {:induction false} OutlineCount(n: Node, nodes: set<Kind>, labelOf: Node -> Caption)
    ensures Count(Outline(n, nodes, labelOf)) == Reached(n, nodes)
    decreases NodeSize(n), 1
  {
    ChildNodesSmaller(n);
    OutlineAllCount(ChildNodes(n), nodes, labelOf);
  }

  lemma {:induction false} OutlineAllCount(ns: seq<Node>, nodes: set<Kind>, labelOf: Node -> Caption)
    ensures Count(OutlineAll(ns, nodes, labelOf)) == ReachedAll(ns, nodes)
    decreases NodesSize(ns), 0
  {
    if ns != [] {
      HeadSmaller(ns);
      var one := OutlineOne(ns[0], nodes, labelOf);
      OutlineAllCount(ns[1..], nodes, labelOf);
      CountAppend(one, OutlineAll(ns[1..], nodes, labelOf));
      if KindOf(ns[0]) in nodes {
        OutlineCount(ns[0], nodes, labelOf);
        CountSingle(LNode(labelOf(ns[0]), Outline(ns[0], nodes, labelOf)));
      }
    }
  }

  /** A larger allow-list reaches at least as many nodes. */
  lemma {:induction false} ReachedMonotone(n: Node, nodes: set<Kind>, more: set<Kind>)
    requires nodes <= more
    ensures Reached(n, nodes) <= Reached(n, more)
    decreases NodeSize(n), 1
  {
    ChildNodesSmaller(n);
    ReachedAllMonotone(ChildNodes(n), nodes, more);
  }

  lemma {:induction false} ReachedAllMonotone(ns: seq<Node>, nodes: set<Kind>, more: set<Kind>)
    requires nodes <= more
    ensures ReachedAll(ns, nodes) <= ReachedAll(ns, more)
    decreases NodesSize(ns), 0
  {
    if ns != [] {
      HeadSmaller(ns);
      ReachedAllMonotone(ns[1..], nodes, more);
      if KindOf(ns[0]) in nodes {
        ReachedMonotone(ns[0], nodes, more);
      }
    }
  }

  /** An if, for or while statement's else clause is not marked: its
      outline follows the body's as further children of the same node, so
      an elif shows as a sibling if. */
  lemma {:induction false} ElseFollowsBody(n: Node, nodes: set<Kind>, labelOf: Node -> Caption)
    requires n.StmtNode? && (n.stmt.If? || n.stmt.For? || n.stmt.While?)
    ensures Outline(n, nodes, labelOf)
      == OutlineAll(Stmts(n.stmt.body), nodes, labelOf) + OutlineAll(Stmts(n.stmt.orelse), nodes, labelOf)
  {
    assert ChildNodes(n) == Stmts(n.stmt.body) + Stmts(n.stmt.orelse);
    OutlineAllAppend(Stmts(n.stmt.body), Stmts(n.stmt.orelse), nodes, labelOf);
  }

  /** Match arms are never on an allow-list, so nothing inside a match
      statement is shown. */
  lemma {:induction false} MatchArmsVanish(subject: Expr, cs: seq<MatchCase>, line: nat, nodes: set<Kind>, labelOf: Node -> Caption)
    requires MatchCaseKind !in nodes
    ensures Outline(StmtNode(Match(subject, cs, line)), nodes, labelOf) == []
  {
    OutlineSkipsAll(Cases(cs), nodes, labelOf);
  }

  /** A try statement's outline: its body, its handlers (as handler nodes,
      when those are logical), its else and its finally statements, in field
      order and with no marker between them. */
  lemma {:induction false} TryFieldOrder(body: seq<Stmt>, hs: seq<Handler>, orelse: seq<Stmt>, fin: seq<Stmt>, line: nat,
                                         nodes: set<Kind>, labelOf: Node -> Caption)
    ensures Outline(StmtNode(Try(body, hs, orelse, fin, line)), nodes, labelOf)
      == OutlineAll(Stmts(body), nodes, labelOf) + OutlineAll(Handlers(hs), nodes, labelOf)
        + OutlineAll(Stmts(orelse), nodes, labelOf) + OutlineAll(Stmts(fin), nodes, labelOf)
  {
    var a, b, c, d := Stmts(body), Handlers(hs), Stmts(orelse), Stmts(fin);
    assert ChildNodes(StmtNode(Try(body, hs, orelse, fin, line))) == a + b + c + d;
    OutlineAllAppend(a + b + c, d, nodes, labelOf);
    OutlineAllAppend(a + b, c, nodes, labelOf);
    OutlineAllAppend(a, b, nodes, labelOf);
  }

  /** Without handler nodes on the allow-list, a try statement's outline does
      not depend on its handlers: nothing inside an except block is shown. */
  lemma {:induction false} HandlersVanish(body: seq<Stmt>, hs: seq<Handler>, hs': seq<Handler>, orelse: seq<Stmt>, fin: seq<Stmt>,
                                          line: nat, nodes: set<Kind>, labelOf: Node -> Caption)
    requires ExceptHandlerKind !in nodes
    ensures Outline(StmtNode(Try(body, hs, orelse, fin, line)), nodes, labelOf)
         == Outline(StmtNode(Try(body, hs', orelse, fin, line)), nodes, labelOf)
  {
    var a, c, d := OutlineAll(Stmts(body), nodes, labelOf), OutlineAll(Stmts(orelse), nodes, labelOf), OutlineAll(Stmts(fin), nodes, labelOf);
    TryFieldOrder(body, hs, orelse, fin, line, nodes, labelOf);
    TryFieldOrder(body, hs', orelse, fin, line, nodes, labelOf);
    HandlersSkipped(hs, nodes, labelOf);
    HandlersSkipped(hs', nodes, labelOf);
    assert Outline(StmtNode(Try(body, hs, orelse, fin, line)), nodes, labelOf) == a + [] + c + d;
  }

  lemma {:induction false} HandlersSkipped(hs: seq<Handler>, nodes: set<Kind>, labelOf: Node -> Caption)
    requires ExceptHandlerKind !in nodes
    ensures OutlineAll(Handlers(hs), nodes, labelOf) == []
  {
    var ns := Handlers(hs);
    forall i | 0 <= i < |ns|
      ensures KindOf(ns[i]) !in nodes
    {
      assert ns[i] == HandlerNode(hs[i]);
    }
    OutlineSkipsAll(ns, nodes, labelOf);
  }
}
