/** The display trees the scripts build: a rich `Tree` or a textual `TreeNode`
    grows by `branch.add(caption)`, which appends a child to an existing node and
    returns the new node. The tree is kept as an arena: a sequence of entries,
    each naming its parent by index, where entry 0 is the root. Nodes are only
    ever appended, so the arena lists the tree in the order the scripts add
    nodes, which is pre-order. */
module TreeArena {

  /** A finished tree, as a value: a caption and the ordered children. */
  datatype LNode<L> = LNode(caption: L, children: seq<LNode<L>>)

  /** One arena slot: the index of the parent node and the caption. */
  datatype Entry<L> = Entry(parent: nat, caption: L)

  /** Number of nodes in a forest. */
  function Count<L>(ts: seq<LNode<L>>): nat {
    if ts == [] then 0 else 1 + Count(ts[0].children) + Count(ts[1..])
  }

  /** The entries that adding the forest `ts` under node `parent`, one node at
      a time and depth first, appends to an arena whose next free slot is
      `base`. */
  function Emit<L>(parent: nat, base: nat, ts: seq<LNode<L>>): seq<Entry<L>>
    decreases ts
  {
    if ts == [] then []
    else EmitTree(parent, base, ts[0]) + Emit(parent, base + 1 + Count(ts[0].children), ts[1..])
  }

  /** The entries for one tree: its root in slot `base`, then its children
      under that slot. */
  function EmitTree<L>(parent: nat, base: nat, t: LNode<L>): seq<Entry<L>>
    decreases t
  {
    [Entry(parent, t.caption)] + Emit(base, base + 1, t.children)
  }

  /** The encoding of a forest has one entry per node. */
  lemma {:induction false} EmitLength<L>(parent: nat, base: nat, ts: seq<LNode<L>>)
    ensures |Emit(parent, base, ts)| == Count(ts)
    decreases ts
  {
    if ts != [] {
      EmitLength(base, base + 1, ts[0].children);
      EmitLength(parent, base + 1 + Count(ts[0].children), ts[1..]);
    }
  }

  lemma {:induction false} CountAppend<L>(xs: seq<LNode<L>>, ys: seq<LNode<L>>)
    ensures Count(xs + ys) == Count(xs) + Count(ys)
    decreases |xs|
  {
    if xs == [] {
      assert xs + ys == ys;
    } else {
      TailOfAppend(xs, ys);
      CountAppend(xs[1..], ys);
    }
  }

  /** A forest of one tree counts that tree's root and its descendants. */
  lemma {:induction false} CountSingle<L>(x: LNode<L>)
    ensures Count([x]) == 1 + Count(x.children)
  {
    assert [x][1..] == [];
  }

  /** Adding two forests one after the other appends their encodings. */
  lemma {:induction false} EmitAppend<L>(parent: nat, base: nat, xs: seq<LNode<L>>, ys: seq<LNode<L>>)
    ensures Emit(parent, base, xs + ys) == Emit(parent, base, xs) + Emit(parent, base + Count(xs), ys)
  {
    EmitAppendAt(parent, base, xs, ys, base + Count(xs));
  }

  /** EmitAppend, with the slot where the second forest starts held fixed
      through the induction. */
  lemma {:induction false} EmitAppendAt<L>(parent: nat, base: nat, xs: seq<LNode<L>>, ys: seq<LNode<L>>, mid: nat)
    requires mid == base + Count(xs)
    ensures Emit(parent, base, xs + ys) == Emit(parent, base, xs) + Emit(parent, mid, ys)
    decreases |xs|
  {
    if xs == [] {
      assert xs + ys == ys;
      var e := Emit(parent, base, ys);
      assert Emit(parent, base, xs) == [];
      assert [] + e == e;
    } else {
      var b := base + 1 + Count(xs[0].children);
      EmitAppendAt(parent, b, xs[1..], ys, mid);
      TailOfAppend(xs, ys);
      AppendAssoc(EmitTree(parent, base, xs[0]), Emit(parent, b, xs[1..]), Emit(parent, mid, ys));
    }
  }

  /** One unfolding of Emit on a non-empty forest. */
  lemma {:induction false} EmitCons<L>(parent: nat, base: nat, ts: seq<LNode<L>>)
    requires ts != []
    ensures Emit(parent, base, ts) == ([Entry(parent, ts[0].caption)] + Emit(base, base + 1, ts[0].children))
      + Emit(parent, base + 1 + Count(ts[0].children), ts[1..])
  {
  }

  /** A forest of one tree is encoded as that tree. */
  lemma {:induction false} EmitSingle<L>(parent: nat, base: nat, x: LNode<L>)
    ensures Emit(parent, base, [x]) == EmitTree(parent, base, x)
  {
    var e := EmitTree(parent, base, x);
    assert [x][1..] == [];
    assert e + [] == e;
  }

  /** Adding one node under `parent` and then its children under it appends
      the encoding of that one-node forest. */
  lemma {:induction false} BranchEmit<L>(start: seq<Entry<L>>, parent: nat, caption: L, kids: seq<LNode<L>>)
    ensures start + [Entry(parent, caption)] + Emit(|start|, |start| + 1, kids)
      == start + Emit(parent, |start|, [LNode(caption, kids)])
  {
    EmitSingle(parent, |start|, LNode(caption, kids));
    AppendAssoc(start, [Entry(parent, caption)], Emit(|start|, |start| + 1, kids));
  }

  /** An arena that holds the encoding of xs after `start`, extended by the
      encoding of ys, holds the encoding of xs + ys. */
  lemma {:induction false} EmitStep<L>(start: seq<Entry<L>>, prev: seq<Entry<L>>, parent: nat, xs: seq<LNode<L>>, ys: seq<LNode<L>>)
    requires prev == start + Emit(parent, |start|, xs)
    ensures prev + Emit(parent, |prev|, ys) == start + Emit(parent, |start|, xs + ys)
  {
    EmitLength(parent, |start|, xs);
    EmitAppendAt(parent, |start|, xs, ys, |prev|);
    AppendAssoc(start, Emit(parent, |start|, xs), Emit(parent, |prev|, ys));
  }

  lemma {:induction false} TailOfAppend<T>(xs: seq<T>, ys: seq<T>)
    requires xs != []
    ensures (xs + ys)[0] == xs[0] && (xs + ys)[1..] == xs[1..] + ys
  {
  }

  lemma {:induction false} AppendAssoc<T>(a: seq<T>, b: seq<T>, c: seq<T>)
    ensures (a + b) + c == a + (b + c)
  {
  }

  /** Entry k of es hangs under `parent` or under an entry placed at or after
      `base` and before it (es is to be stored from slot `base` on). */
  predicate HangsUnder<L>(es: seq<Entry<L>>, parent: nat, base: nat) {
    forall k :: 0 <= k < |es| ==> es[k].parent == parent || base <= es[k].parent < base + k
  }

  /** Every appended entry hangs either under `parent` or under a node
      appended before it. */
  lemma {:induction false} EmitParents<L>(parent: nat, base: nat, ts: seq<LNode<L>>)
    ensures HangsUnder(Emit(parent, base, ts), parent, base)
    decreases ts
  {
    if ts != [] {
      var c := Count(ts[0].children);
      var inner := Emit(base, base + 1, ts[0].children);
      var rest := Emit(parent, base + 1 + c, ts[1..]);
      EmitParents(base, base + 1, ts[0].children);
      EmitParents(parent, base + 1 + c, ts[1..]);
      EmitLength(base, base + 1, ts[0].children);
      EmitCons(parent, base, ts);
      HangsUnderRoot(Entry(parent, ts[0].caption), inner, base);
      HangsUnderAppend([Entry(parent, ts[0].caption)] + inner, rest, parent, base);
    }
  }

  /** A root entry under `parent` followed by its descendants, which hang
      under it or under each other. */
  lemma {:induction false} HangsUnderRoot<L>(root: Entry<L>, inner: seq<Entry<L>>, base: nat)
    requires HangsUnder(inner, base, base + 1)
    ensures HangsUnder([root] + inner, root.parent, base)
  {
    var es := [root] + inner;
    forall k | 0 <= k < |es|
      ensures es[k].parent == root.parent || base <= es[k].parent < base + k
    {
      if k > 0 {
        assert es[k] == inner[k - 1];
      }
    }
  }

  lemma {:induction false} HangsUnderAppend<L>(xs: seq<Entry<L>>, ys: seq<Entry<L>>, parent: nat, base: nat)
    requires HangsUnder(xs, parent, base) && HangsUnder(ys, parent, base + |xs|)
    ensures HangsUnder(xs + ys, parent, base)
  {
    var es := xs + ys;
    forall k | 0 <= k < |es|
      ensures es[k].parent == parent || base <= es[k].parent < base + k
    {
      if k >= |xs| {
        assert es[k] == ys[k - |xs|];
      } else {
        assert es[k] == xs[k];
      }
    }
  }

  /** A mutable display tree (rich `Tree`, textual `Tree.root`). */
  class Tree<L> {
    var nodes: seq<Entry<L>>
    /** The nodes a script asked to show unfolded (textual `expand()`). */
    var expanded: set<nat>

    ghost predicate Valid()
      reads this
    {
      && |nodes| > 0
      && nodes[0].parent == 0
      && (forall i :: 0 < i < |nodes| ==> nodes[i].parent < i)
      && (forall i :: i in expanded ==> i < |nodes|)
    }

    /** A tree holding only its root. */
    constructor (caption: L)
      ensures Valid()
      ensures nodes == [Entry(0, caption)] && expanded == {}
    {
      nodes := [Entry(0, caption)];
      expanded := {};
    }

    /** branch.add(caption): a new last child of `parent`. */
    method Add(parent: nat, caption: L) returns (id: nat)
      requires Valid() && parent < |nodes|
      modifies this
      ensures Valid()
      ensures id == |old(nodes)| && nodes == old(nodes) + [Entry(parent, caption)]
      ensures expanded == old(expanded)
    {
      id := |nodes|;
      nodes := nodes + [Entry(parent, caption)];
    }

    /** node.expand() */
    method Expand(id: nat)
      requires Valid() && id < |nodes|
      modifies this
      ensures Valid()
      ensures nodes == old(nodes) && expanded == old(expanded) + {id}
    {
      expanded := expanded + {id};
    }
  }

  /** The captions of a forest in pre-order: each tree's root, then its
      children's forest, then the following trees. */
  function PreOrder<L>(ts: seq<LNode<L>>): seq<L>
    decreases ts
  {
    if ts == [] then [] else [ts[0].caption] + PreOrder(ts[0].children) + PreOrder(ts[1..])
  }

  /** The captions of arena entries, slot by slot. */
  function Captions<L>(es: seq<Entry<L>>): (cs: seq<L>)
    ensures |cs| == |es|
  {
    if es == [] then [] else [es[0].caption] + Captions(es[1..])
  }

  lemma {:induction false} CaptionsAppend<L>(a: seq<Entry<L>>, b: seq<Entry<L>>)
    ensures Captions(a + b) == Captions(a) + Captions(b)
    decreases |a|
  {
    if a == [] {
      assert a + b == b;
    } else {
      assert (a + b)[1..] == a[1..] + b;
      CaptionsAppend(a[1..], b);
    }
  }

  /** The arena lists the captions of an added forest in pre-order. */
  lemma {:induction false} EmitIsPreOrder<L>(parent: nat, base: nat, ts: seq<LNode<L>>)
    ensures Captions(Emit(parent, base, ts)) == PreOrder(ts)
    decreases ts
  {
    if ts != [] {
      var c := Count(ts[0].children);
      var head := [Entry(parent, ts[0].caption)];
      var inner := Emit(base, base + 1, ts[0].children);
      var rest := Emit(parent, base + 1 + c, ts[1..]);
      calc {
        Captions(Emit(parent, base, ts));
        { EmitCons(parent, base, ts); }
        Captions((head + inner) + rest);
        { CaptionsAppend(head + inner, rest); CaptionsAppend(head, inner); }
        (Captions(head) + Captions(inner)) + Captions(rest);
        { CaptionsSingle(head[0]);
          EmitIsPreOrder(base, base + 1, ts[0].children);
          EmitIsPreOrder(parent, base + 1 + c, ts[1..]); }
        ([ts[0].caption] + PreOrder(ts[0].children)) + PreOrder(ts[1..]);
        { PreOrderCons(ts); }
        PreOrder(ts);
      }
    }
  }

  lemma {:induction false} CaptionsSingle<L>(e: Entry<L>)
    ensures Captions([e]) == [e.caption]
  {
    assert [e][1..] == [];
  }

  lemma {:induction false} PreOrderCons<L>(ts: seq<LNode<L>>)
    requires ts != []
    ensures PreOrder(ts) == [ts[0].caption] + PreOrder(ts[0].children) + PreOrder(ts[1..])
  {
  }

  /** An arena that receives the encoding of a forest under one of its nodes
      stays a well-formed tree. */
  lemma {:induction false} EmitKeepsParentsBefore<L>(nodes: seq<Entry<L>>, parent: nat, ts: seq<LNode<L>>)
    requires |nodes| > 0 && nodes[0].parent == 0
    requires forall i :: 0 < i < |nodes| ==> nodes[i].parent < i
    requires parent < |nodes|
    ensures var all := nodes + Emit(parent, |nodes|, ts);
      forall i :: 0 < i < |all| ==> all[i].parent < i
  {
    var es := Emit(parent, |nodes|, ts);
    var all := nodes + es;
    EmitParents(parent, |nodes|, ts);
    forall i | 0 < i < |all|
      ensures all[i].parent < i
    {
      if i >= |nodes| {
        assert all[i] == es[i - |nodes|];
      }
    }
  }
}
