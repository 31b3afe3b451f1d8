/** `map_nested`: a recursive, depth-first, pre-order walk over a nested
    document, parameterised by two extractors supplied by the caller. */
module Walker {
  import opened Py
  import opened Json

  /** `gen_items(node, path)`: the items visible at one node. */
  type ItemsFn<!P, I> = (Value, seq<P>) -> Stream<I>

  /** `gen_children(node, path)`: the (child_path, child_node) pairs to descend into. */
  type ChildrenFn<!P> = (Value, seq<P>) -> Stream<(seq<P>, Value)>

  /** The walk terminates because every child an extractor hands back is a
      strict part of the node it came from (the input is a tree). */
  ghost predicate ChildrenShrink<P(!new)>(children: ChildrenFn<P>) {
    forall n: Value, p: seq<P>, c :: c in children(n, p).items ==> Size(c.1) < Size(n)
  }

  /** `_recursive_map_nested`: nothing for an empty or absent node; otherwise
      the node's own items, then the full walk of each child in the order the
      children extractor yields them. */
  function Walk<P(!new), I>(node: Value, path: seq<P>, items: ItemsFn<P, I>, children: ChildrenFn<P>): Stream<I>
    requires ChildrenShrink(children)
    decreases Size(node), 1
  {
    if !Truthy(node) then Empty()
    else
      var kids := children(node, path);
      Then(items(node, path), Then(WalkAll(node, kids.items, items, children), Stream([], kids.raised)))
  }

  /** The walks of a sequence of children, one after the other. */
  function WalkAll<P(!new), I>(ghost parent: Value, kids: seq<(seq<P>, Value)>, items: ItemsFn<P, I>, children: ChildrenFn<P>): Stream<I>
    requires ChildrenShrink(children)
    requires forall c :: c in kids ==> Size(c.1) < Size(parent)
    decreases Size(parent), 0, |kids|
  {
    if kids == [] then Empty()
    else Then(Walk(kids[0].1, kids[0].0, items, children), WalkAll(parent, kids[1..], items, children))
  }

  /** `map_nested`: the walk starts at the root with the empty path. */
  function MapNested<P(!new), I>(node: Value, items: ItemsFn<P, I>, children: ChildrenFn<P>): Stream<I>
    requires ChildrenShrink(children)
  {
    Walk(node, [], items, children)
  }

  /** An empty or absent node yields nothing and raises nothing, whatever the
      extractors are: neither of them is consulted. */
  lemma WalkEmptyNode<P(!new), I>(node: Value, path: seq<P>,
                                   items1: ItemsFn<P, I>, children1: ChildrenFn<P>,
                                   items2: ItemsFn<P, I>, children2: ChildrenFn<P>)
    requires ChildrenShrink(children1) && ChildrenShrink(children2)
    requires !Truthy(node)
    ensures Walk(node, path, items1, children1) == Walk(node, path, items2, children2) == Empty()
  {
  }

  /** Pre-order: the items of a non-empty node come first; if extracting them
      raises, the walk raises right there and no child is visited. */
  lemma WalkItemsFirst<P(!new), I>(node: Value, path: seq<P>, items: ItemsFn<P, I>, children: ChildrenFn<P>)
    requires ChildrenShrink(children)
    requires Truthy(node)
    ensures items(node, path).items <= Walk(node, path, items, children).items
    ensures items(node, path).raised.Some? ==> Walk(node, path, items, children) == items(node, path)
  {
  }

  /** Post-processing commutes with the walk: walking with extractors whose
      items are `f` applied to the items of other extractors is the same as
      walking with those and applying `f` afterwards. */
  lemma {:induction false} WalkBind<P(!new), I, J>(node: Value, path: seq<P>, items1: ItemsFn<P, I>,
                                                   items2: ItemsFn<P, J>, children: ChildrenFn<P>, f: I -> Stream<J>)
    requires ChildrenShrink(children)
    requires forall n, p :: items2(n, p) == Bind(items1(n, p), f)
    ensures Walk(node, path, items2, children) == Bind(Walk(node, path, items1, children), f)
    decreases Size(node), 1
  {
    if Truthy(node) {
      var kids := children(node, path);
      var tail: Stream<I> := Stream([], kids.raised);
      WalkAllBind(node, kids.items, items1, items2, children, f);
      assert Bind(tail, f) == Stream([], kids.raised);
      BindThen(WalkAll(node, kids.items, items1, children), tail, f);
      BindThen(items1(node, path), Then(WalkAll(node, kids.items, items1, children), tail), f);
    }
  }

  lemma {:induction false} WalkAllBind<P(!new), I, J>(parent: Value, kids: seq<(seq<P>, Value)>, items1: ItemsFn<P, I>,
                                                      items2: ItemsFn<P, J>, children: ChildrenFn<P>, f: I -> Stream<J>)
    requires ChildrenShrink(children)
    requires forall c :: c in kids ==> Size(c.1) < Size(parent)
    requires forall n, p :: items2(n, p) == Bind(items1(n, p), f)
    ensures WalkAll(parent, kids, items2, children) == Bind(WalkAll(parent, kids, items1, children), f)
    decreases Size(parent), 0, |kids|
  {
    if kids != [] {
      WalkBind(kids[0].1, kids[0].0, items1, items2, children, f);
      WalkAllBind(parent, kids[1..], items1, items2, children, f);
      BindThen(Walk(kids[0].1, kids[0].0, items1, children), WalkAll(parent, kids[1..], items1, children), f);
    }
  }

  /** Where an item of a walk comes from: the node's own items, or the walk
      of one of the children the extractor yielded. */
  lemma WalkItemOrigin<P(!new), I>(node: Value, path: seq<P>, items: ItemsFn<P, I>, children: ChildrenFn<P>, x: I)
    requires ChildrenShrink(children)
    requires x in Walk(node, path, items, children).items
    ensures Truthy(node)
    ensures x in items(node, path).items || x in WalkAll(node, children(node, path).items, items, children).items
  {
  }

  lemma {:induction false} WalkAllItemOrigin<P(!new), I>(parent: Value, kids: seq<(seq<P>, Value)>, items: ItemsFn<P, I>,
                                                        children: ChildrenFn<P>, x: I) returns (j: nat)
    requires ChildrenShrink(children)
    requires forall c :: c in kids ==> Size(c.1) < Size(parent)
    requires x in WalkAll(parent, kids, items, children).items
    ensures j < |kids| && x in Walk(kids[j].1, kids[j].0, items, children).items
    decreases |kids|
  {
    if x in Walk(kids[0].1, kids[0].0, items, children).items {
      j := 0;
    } else {
      var j' := WalkAllItemOrigin(parent, kids[1..], items, children, x);
      assert kids[1..][j'] == kids[j' + 1];
      j := j' + 1;
    }
  }

  /** A walk that did not raise contains all of its node's items and the
      whole walk of every child, none of which raised. */
  lemma WalkNoRaise<P(!new), I>(node: Value, path: seq<P>, items: ItemsFn<P, I>, children: ChildrenFn<P>)
    requires ChildrenShrink(children)
    requires Truthy(node)
    requires Walk(node, path, items, children).raised.None?
    ensures items(node, path).raised.None? && children(node, path).raised.None?
    ensures WalkAll(node, children(node, path).items, items, children).raised.None?
    ensures items(node, path).items <= Walk(node, path, items, children).items
    ensures forall x :: x in WalkAll(node, children(node, path).items, items, children).items ==>
                          x in Walk(node, path, items, children).items
  {
  }

  lemma {:induction false} WalkAllNoRaise<P(!new), I>(parent: Value, kids: seq<(seq<P>, Value)>, items: ItemsFn<P, I>,
                                                     children: ChildrenFn<P>, j: nat)
    requires ChildrenShrink(children)
    requires forall c :: c in kids ==> Size(c.1) < Size(parent)
    requires WalkAll(parent, kids, items, children).raised.None?
    requires j < |kids|
    ensures Walk(kids[j].1, kids[j].0, items, children).raised.None?
    ensures forall x :: x in Walk(kids[j].1, kids[j].0, items, children).items ==>
                          x in WalkAll(parent, kids, items, children).items
    decreases |kids|
  {
    if j > 0 {
      WalkAllNoRaise(parent, kids[1..], items, children, j - 1);
      assert kids[1..][j - 1] == kids[j];
    }
  }
}
