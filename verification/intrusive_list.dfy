/**
  The intrusive circular doubly-linked list (intrusive_list.h), modelled over
  an arena: every `list_element` object, list sentinels included, is a node of
  a `Heap` that maps its identity to its two pointers.  A list is named by its
  sentinel (`fake_node`); an iterator is the node it designates, the sentinel
  being `end()`.

  Every operation below performs the same pointer writes, in the same order,
  as the C++ member it models, reading each pointer from the heap as it is at
  that point.  What the writes mean for the sequence of elements is stated by
  the relation `Ring` and proved in module ListLemmas.
 */
module IntrusiveList {

  /** Identity of a `list_element` object. */
  type NodeId = nat

  /** The `prev` and `next` pointers every `list_element` carries. */
  datatype Link = Link(prev: NodeId, next: NodeId)

  /**
    The link fields of every element object in existence, indexed by identity:
    object `x` exists when `x < |h|`, and a new object takes the next identity.
   */
  type Heap = seq<Link>

  /** Every pointer in the heap designates an object of the heap. */
  ghost predicate Closed(h: Heap) {
    forall x :: 0 <= x < |h| ==> h[x].prev < |h| && h[x].next < |h|
  }

  // ---------------------------------------------------------------------
  // The abstraction: sentinel `s` and elements `xs` form one ring.
  // ---------------------------------------------------------------------

  /** No node occurs twice in `xs`. */
  ghost predicate Distinct(xs: seq<NodeId>) {
    forall i, j :: 0 <= i < j < |xs| ==> xs[i] != xs[j]
  }

  /** Iterator position `k` of a list with elements `xs`: `xs[k]`, or `end()` when `k == |xs|`. */
  function Pos(s: NodeId, xs: seq<NodeId>, k: nat): NodeId
    requires k <= |xs|
  {
    if k == |xs| then s else xs[k]
  }

  /** The node before the `i`-th element in the ring. */
  function PrevOf(s: NodeId, xs: seq<NodeId>, i: nat): NodeId
    requires i < |xs|
  {
    if i == 0 then s else xs[i - 1]
  }

  /** The node after the `i`-th element in the ring. */
  function NextOf(s: NodeId, xs: seq<NodeId>, i: nat): NodeId
    requires i < |xs|
  {
    Pos(s, xs, i + 1)
  }

  /** The node before the sentinel: the last element, or the sentinel itself. */
  function Last(s: NodeId, xs: seq<NodeId>): NodeId {
    if xs == [] then s else xs[|xs| - 1]
  }

  /**
    The sentinel `s` and the elements `xs`, in this order, form a consistent
    circular doubly-linked ring: `x.next.prev == x` and `x.prev.next == x`
    for every member, and forward traversal from `s` meets exactly `xs`.
   */
  ghost predicate Ring(h: Heap, s: NodeId, xs: seq<NodeId>) {
    && s < |h|
    && s !in xs
    && Distinct(xs)
    && (forall i :: 0 <= i < |xs| ==> xs[i] < |h|)
    && (forall i {:trigger h[xs[i]]} :: 0 <= i < |xs| ==> h[xs[i]] == Link(PrevOf(s, xs, i), NextOf(s, xs, i)))
    && h[s] == Link(Last(s, xs), Pos(s, xs, 0))
  }

  // ---------------------------------------------------------------------
  // Single pointer writes.
  // ---------------------------------------------------------------------

  /** `x->next = v` */
  function SetNext(h: Heap, x: NodeId, v: NodeId): (r: Heap)
    requires x < |h|
    ensures |r| == |h|
    ensures r[x] == Link(h[x].prev, v)
    ensures forall y :: 0 <= y < |h| && y != x ==> r[y] == h[y]
    ensures Closed(h) && v < |h| ==> Closed(r)
  {
    h[x := h[x].(next := v)]
  }

  /** `x->prev = v` */
  function SetPrev(h: Heap, x: NodeId, v: NodeId): (r: Heap)
    requires x < |h|
    ensures |r| == |h|
    ensures r[x] == Link(v, h[x].next)
    ensures forall y :: 0 <= y < |h| && y != x ==> r[y] == h[y]
    ensures Closed(h) && v < |h| ==> Closed(r)
  {
    h[x := h[x].(prev := v)]
  }

  // ---------------------------------------------------------------------
  // list_element
  // ---------------------------------------------------------------------

  /** `list_element()`: the new element, with the next identity, points to itself both ways. */
  function NewElement(h: Heap): (r: Heap)
    ensures |r| == |h| + 1
    ensures r[|h|] == Link(|h|, |h|) && !IsLinked(r, |h|)
    ensures forall y :: 0 <= y < |h| ==> r[y] == h[y]
    ensures Closed(h) ==> Closed(r)
  {
    h + [Link(|h|, |h|)]
  }

  /** `is_linked()`: an element is unlinked exactly when it points to itself both ways. */
  predicate IsLinked(h: Heap, x: NodeId)
    requires x < |h|
  {
    h[x].next != x || h[x].prev != x
  }

  /**
    `unlink()`: joins the element's neighbours to each other, then points the
    element to itself.  Nothing but these three nodes changes.
   */
  function Unlink(h: Heap, x: NodeId): (r: Heap)
    requires Closed(h) && x < |h|
    ensures Closed(r) && |r| == |h|
    ensures r[x] == Link(x, x)
    ensures h[x].prev != x ==> r[h[x].prev].next == h[x].next
    ensures h[x].next != x ==> r[h[x].next].prev == h[x].prev
    ensures h[x].prev != x && h[x].prev != h[x].next ==> r[h[x].prev].prev == h[h[x].prev].prev
    ensures h[x].next != x && h[x].prev != h[x].next ==> r[h[x].next].next == h[h[x].next].next
    ensures forall y :: 0 <= y < |h| && y != x && y != h[x].prev && y != h[x].next ==> r[y] == h[y]
  {
    var h1 := SetPrev(h, h[x].next, h[x].prev);
    var h2 := SetNext(h1, h1[x].prev, h1[x].next);
    var h3 := SetNext(h2, x, x);
    SetPrev(h3, x, x)
  }

  // ---------------------------------------------------------------------
  // list
  // ---------------------------------------------------------------------

  /** `list()`: the sentinel of a new list, with the next identity, points to itself. */
  function NewList(h: Heap): (r: Heap)
    ensures |r| == |h| + 1
    ensures Ring(r, |h|, []) && Empty(r, |h|)
    ensures forall y :: 0 <= y < |h| ==> r[y] == h[y]
    ensures Closed(h) ==> Closed(r)
  {
    var r := NewElement(h);
    var s := |h|;
    SetPrev(SetNext(r, s, s), s, s)
  }

  /** `std::swap(a.prev, b.prev)` */
  function SwapPrev(h: Heap, a: NodeId, b: NodeId): (r: Heap)
    requires a < |h| && b < |h|
    ensures |r| == |h|
    ensures Closed(h) ==> Closed(r)
    ensures r[a].prev == h[b].prev && r[b].prev == h[a].prev
    ensures r[a].next == h[a].next && r[b].next == h[b].next
    ensures forall y :: 0 <= y < |h| && y != a && y != b ==> r[y] == h[y]
  {
    var va := h[a].prev;
    var vb := h[b].prev;
    SetPrev(SetPrev(h, a, vb), b, va)
  }

  /** `std::swap(a.next, b.next)` */
  function SwapNext(h: Heap, a: NodeId, b: NodeId): (r: Heap)
    requires a < |h| && b < |h|
    ensures |r| == |h|
    ensures Closed(h) ==> Closed(r)
    ensures r[a].next == h[b].next && r[b].next == h[a].next
    ensures r[a].prev == h[a].prev && r[b].prev == h[b].prev
    ensures forall y :: 0 <= y < |h| && y != a && y != b ==> r[y] == h[y]
  {
    var va := h[a].next;
    var vb := h[b].next;
    SetNext(SetNext(h, a, vb), b, va)
  }

  /**
    `list::swap(node1, node2)`: exchanges the memberships of two sentinels by
    swapping their pointers and then their neighbours' back-pointers.
   */
  function Swap(h: Heap, a: NodeId, b: NodeId): (r: Heap)
    requires Closed(h) && a < |h| && b < |h|
    ensures Closed(r) && |r| == |h|
  {
    var h1 := SwapPrev(h, a, b);
    var h2 := SwapNext(h1, h1[a].prev, h1[b].prev);
    var h3 := SwapNext(h2, a, b);
    SwapPrev(h3, h3[a].next, h3[b].next)
  }

  /** `empty()`: the sentinel's `next` is the sentinel. */
  predicate Empty(h: Heap, s: NodeId)
    requires s < |h|
  {
    h[s].next == s
  }

  /** `begin()` */
  function Begin(h: Heap, s: NodeId): NodeId
    requires s < |h|
  {
    h[s].next
  }

  /** `end()`: the sentinel itself. */
  function End(s: NodeId): NodeId {
    s
  }

  /** `front()`: the element after the sentinel. */
  function Front(h: Heap, s: NodeId): NodeId
    requires s < |h|
  {
    h[s].next
  }

  /** `back()`: the element before the sentinel. */
  function Back(h: Heap, s: NodeId): NodeId
    requires s < |h|
  {
    h[s].prev
  }

  /** Iterator `++`: moves to `current->next`. */
  function Inc(h: Heap, it: NodeId): NodeId
    requires it < |h|
  {
    h[it].next
  }

  /** Iterator `--`: moves to `current->prev`. */
  function Dec(h: Heap, it: NodeId): NodeId
    requires it < |h|
  {
    h[it].prev
  }

  /**
    Postfix `it++`: the iterator moves to `current->next` and the value
    returned is rebuilt from the new position as `current->prev`.
   */
  function PostInc(h: Heap, it: NodeId): (r: (NodeId, NodeId))
    requires Closed(h) && it < |h|
    ensures r.0 < |h| && r.1 < |h|
  {
    var moved := h[it].next;
    (moved, h[moved].prev)
  }

  /** Postfix `it--`, symmetric to `PostInc`. */
  function PostDec(h: Heap, it: NodeId): (r: (NodeId, NodeId))
    requires Closed(h) && it < |h|
    ensures r.0 < |h| && r.1 < |h|
  {
    var moved := h[it].prev;
    (moved, h[moved].next)
  }

  /** `non_const_transform(pos)`: rebuilds the iterator as `pos->prev->next`. */
  function NonConst(h: Heap, pos: NodeId): (r: NodeId)
    requires Closed(h) && pos < |h|
    ensures r < |h|
  {
    h[h[pos].prev].next
  }

  /** `as_iterator(element)`: the iterator designating the element itself. */
  function AsIterator(x: NodeId): NodeId {
    x
  }

  /** `push_back(node)` */
  function PushBack(h: Heap, s: NodeId, n: NodeId): (r: Heap)
    requires Closed(h) && s < |h| && n < |h|
    ensures Closed(r) && |r| == |h|
    ensures forall y :: 0 <= y < |h| && y != s && y != n && y != h[s].prev ==> r[y] == h[y]
  {
    var h1 := SetNext(h, h[s].prev, n);
    var h2 := SetPrev(h1, n, h1[s].prev);
    var h3 := SetNext(h2, n, s);
    SetPrev(h3, s, n)
  }

  /** `pop_back()`: unlinks the element before the sentinel. */
  function PopBack(h: Heap, s: NodeId): (r: Heap)
    requires Closed(h) && s < |h|
    ensures Closed(r) && |r| == |h|
  {
    Unlink(h, h[s].prev)
  }

  /** `push_front(node)` */
  function PushFront(h: Heap, s: NodeId, n: NodeId): (r: Heap)
    requires Closed(h) && s < |h| && n < |h|
    ensures Closed(r) && |r| == |h|
    ensures forall y :: 0 <= y < |h| && y != s && y != n && y != h[s].next ==> r[y] == h[y]
  {
    var h1 := SetPrev(h, h[s].next, n);
    var h2 := SetNext(h1, n, h1[s].next);
    var h3 := SetPrev(h2, n, s);
    SetNext(h3, s, n)
  }

  /** `pop_front()`: unlinks the element after the sentinel. */
  function PopFront(h: Heap, s: NodeId): (r: Heap)
    requires Closed(h) && s < |h|
    ensures Closed(r) && |r| == |h|
  {
    Unlink(h, h[s].next)
  }

  /** `insert(pos, node)`: links `node` in before `pos`; returns the heap and an iterator to `node`. */
  function Insert(h: Heap, pos: NodeId, n: NodeId): (r: (Heap, NodeId))
    requires Closed(h) && pos < |h| && n < |h|
    ensures Closed(r.0) && |r.0| == |h|
    ensures var p := NonConst(h, pos);
            forall y :: 0 <= y < |h| && y != p && y != n && y != h[p].prev ==> r.0[y] == h[y]
  {
    var p := NonConst(h, pos);
    var h1 := SetNext(h, h[p].prev, n);
    var h2 := SetNext(h1, n, p);
    var h3 := SetPrev(h2, n, h2[p].prev);
    var h4 := SetPrev(h3, p, n);
    (h4, n)
  }

  /** `erase(pos)`: unlinks the element at `pos`; returns the heap and the iterator after it. */
  function Erase(h: Heap, pos: NodeId): (r: (Heap, NodeId))
    requires Closed(h) && pos < |h|
    ensures Closed(r.0) && |r.0| == |h| && r.1 < |h|
  {
    var p := NonConst(h, pos);
    var cur := h[p].next;
    (Unlink(h, h[cur].prev), cur)
  }

  /**
    `splice(pos, l, first, last)`: moves the range `[first, last)` of another
    list in front of `pos` by rewriting six pointers; nothing when `first == last`.
   */
  function Splice(h: Heap, pos: NodeId, first: NodeId, last: NodeId): (r: Heap)
    requires Closed(h) && pos < |h| && first < |h| && last < |h|
    ensures Closed(r) && |r| == |h|
    ensures first == last ==> r == h
  {
    if first == last then h
    else
      var p := NonConst(h, pos);
      var f := NonConst(h, first);
      var l := NonConst(h, last);
      var h1 := SetNext(h, h[p].prev, f);
      var h2 := SetNext(h1, h1[f].prev, l);
      var h3 := SetNext(h2, h2[l].prev, p);
      var tmp := h3[f].prev;
      var h4 := SetPrev(h3, f, h3[p].prev);
      var h5 := SetPrev(h4, p, h4[l].prev);
      SetPrev(h5, l, tmp)
  }
}
