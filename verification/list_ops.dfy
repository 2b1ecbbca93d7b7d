/**
  The members of `intrusive::list` that loop or combine several pointer
  operations (`clear`, the destructor, the move constructor and move
  assignment), iterator movement over a ring, and traversals that read a
  list back as the sequence it holds.
 */
module ListOps {
  import opened IntrusiveList
  import opened ListLemmas

  // ---------------------------------------------------------------------
  // Iterators
  // ---------------------------------------------------------------------

  /**
    On a ring, `++` moves position `k` to position `k + 1` and `--` moves it
    back; `++end()` is `begin()` and `--begin()` is `end()`, so both wrap
    around through the sentinel.
   */
  lemma StepRing(h: Heap, s: NodeId, xs: seq<NodeId>, k: nat)
    requires Ring(h, s, xs) && k <= |xs|
    ensures Inc(h, Pos(s, xs, k)) == (if k == |xs| then Pos(s, xs, 0) else Pos(s, xs, k + 1))
    ensures Dec(h, Pos(s, xs, k)) == (if k == 0 then s else Pos(s, xs, k - 1))
    ensures Front(h, s) == Pos(s, xs, 0) && Back(h, s) == Last(s, xs)
  {
    if k < |xs| {
      assert h[xs[k]] == Link(PrevOf(s, xs, k), NextOf(s, xs, k));
    } else if k > 0 {
      assert Dec(h, s) == xs[k - 1];
    }
  }

  /**
    Postfix `it++` on position `k < |xs|` moves the iterator to `k + 1` and
    returns position `k`, and postfix `it--` on position `k > 0` moves it to
    `k - 1` and returns position `k`: the value rebuilt from the neighbour's
    back-pointer is the old position.
   */
  lemma PostStepRing(h: Heap, s: NodeId, xs: seq<NodeId>, k: nat)
    requires Closed(h) && Ring(h, s, xs) && k <= |xs|
    ensures k < |xs| ==> PostInc(h, Pos(s, xs, k)) == (Pos(s, xs, k + 1), Pos(s, xs, k))
    ensures k > 0 ==> PostDec(h, Pos(s, xs, k)) == (Pos(s, xs, k - 1), Pos(s, xs, k))
  {
    if k < |xs| {
      assert h[xs[k]] == Link(PrevOf(s, xs, k), NextOf(s, xs, k));
      if k + 1 < |xs| {
        assert h[xs[k + 1]] == Link(PrevOf(s, xs, k + 1), NextOf(s, xs, k + 1));
      }
    }
    if k > 0 {
      assert h[xs[k - 1]] == Link(PrevOf(s, xs, k - 1), NextOf(s, xs, k - 1));
      if k < |xs| {
        assert h[xs[k]] == Link(PrevOf(s, xs, k), NextOf(s, xs, k));
      }
    }
  }

  /**
    Range-for over a list: starting at `begin()` and applying `++` until
    `end()` visits exactly the elements, in order.
   */
  method Elements(h: Heap, s: NodeId, ghost xs: seq<NodeId>) returns (ys: seq<NodeId>)
    requires Ring(h, s, xs)
    ensures ys == xs
  {
    var it := Begin(h, s);
    ys := [];
    while it != End(s)
      invariant |ys| <= |xs| && ys == xs[..|ys|]
      invariant it == Pos(s, xs, |ys|)
      decreases |xs| - |ys|
    {
      StepRing(h, s, xs, |ys|);
      ys := ys + [it];
      it := Inc(h, it);
    }
  }

  /** Walking from `end()` with `--` until `end()` again visits the elements back to front. */
  method ElementsBackward(h: Heap, s: NodeId, ghost xs: seq<NodeId>) returns (ys: seq<NodeId>)
    requires Ring(h, s, xs)
    ensures |ys| == |xs|
    ensures forall i :: 0 <= i < |ys| ==> ys[i] == xs[|xs| - 1 - i]
  {
    var it := Dec(h, End(s));
    ys := [];
    StepRing(h, s, xs, |xs|);
    while it != End(s)
      invariant |ys| <= |xs|
      invariant forall i :: 0 <= i < |ys| ==> ys[i] == xs[|xs| - 1 - i]
      invariant it == (if |ys| == |xs| then s else xs[|xs| - 1 - |ys|])
      decreases |xs| - |ys|
    {
      StepRing(h, s, xs, |xs| - 1 - |ys|);
      ys := ys + [it];
      it := Dec(h, it);
    }
  }

  // ---------------------------------------------------------------------
  // clear, destructor, moves
  // ---------------------------------------------------------------------

  /**
    `clear()`: pops the back element until the list is empty.  Every former
    element ends up unlinked, the list is empty, and no other node changes.
   */
  method Clear(h: Heap, s: NodeId, ghost xs: seq<NodeId>) returns (r: Heap)
    requires Closed(h) && Ring(h, s, xs)
    ensures Closed(r) && Ring(r, s, []) && Outside(h, r, s, xs)
    ensures forall i :: 0 <= i < |xs| ==> r[xs[i]] == Link(xs[i], xs[i])
  {
    r := h;
    ghost var m := |xs|;
    assert xs[..m] == xs;
    EmptyIff(r, s, xs[..m]);
    while !Empty(r, s)
      invariant ClearedFrom(h, r, s, xs, m)
      invariant Empty(r, s) <==> m == 0
      decreases m
    {
      ClearStep(h, r, s, xs, m);
      r := PopBack(r, s);
      m := m - 1;
      EmptyIff(r, s, xs[..m]);
    }
    assert xs[..m] == [];
  }

  /**
    Where `clear()` stands after popping all but the first `m` elements:
    those still form the list, the rest are unlinked, nothing else changed.
   */
  ghost predicate ClearedFrom(h: Heap, r: Heap, s: NodeId, xs: seq<NodeId>, m: nat) {
    && m <= |xs| && Closed(r) && Ring(r, s, xs[..m])
    && Outside(h, r, s, xs)
    && forall i :: m <= i < |xs| ==> xs[i] < |r| && r[xs[i]] == Link(xs[i], xs[i])
  }

  /** One `pop_back()` of `clear()` moves from `m` remaining elements to `m - 1`. */
  lemma ClearStep(h: Heap, r: Heap, s: NodeId, xs: seq<NodeId>, m: nat)
    requires Distinct(xs) && s !in xs && ClearedFrom(h, r, s, xs, m) && m > 0
    ensures ClearedFrom(h, PopBack(r, s), s, xs, m - 1)
  {
    var ys := xs[..m];
    PopBackRing(r, s, ys);
    assert ys[..m - 1] == xs[..m - 1];
    assert Last(s, ys) == xs[m - 1];
    ClearStepFrame(h, r, PopBack(r, s), s, xs, m);
  }

  /** The nodes one `pop_back()` of `clear()` does not touch. */
  lemma ClearStepFrame(h: Heap, r: Heap, r1: Heap, s: NodeId, xs: seq<NodeId>, m: nat)
    requires Distinct(xs) && s !in xs && m <= |xs| && Outside(h, r, s, xs) && Outside(r, r1, s, xs[..m])
    requires forall i :: m <= i < |xs| ==> xs[i] < |r|
    ensures Outside(h, r1, s, xs)
    ensures forall i :: m <= i < |xs| ==> r1[xs[i]] == r[xs[i]]
  {
    var ys := xs[..m];
    forall y | 0 <= y < |h| && y != s && y !in xs ensures r1[y] == h[y] {
      assert y !in ys;
    }
    forall i | m <= i < |xs| ensures r1[xs[i]] == r[xs[i]] {
      assert xs[i] !in ys by {
        forall j | 0 <= j < m ensures ys[j] != xs[i] {
          assert ys[j] == xs[j];
        }
      }
    }
  }

  /** `~list()`: the same as `clear()`; the sentinel is then gone. */
  method Destroy(h: Heap, s: NodeId, ghost xs: seq<NodeId>) returns (r: Heap)
    requires Closed(h) && Ring(h, s, xs)
    ensures Closed(r) && Ring(r, s, []) && Outside(h, r, s, xs)
    ensures forall i :: 0 <= i < |xs| ==> r[xs[i]] == Link(xs[i], xs[i])
  {
    r := Clear(h, s, xs);
  }

  /**
    `list(list&& other)`: a new empty list swaps sentinels with `other` and
    `other` is cleared.  The new sentinel `s` (the next identity) holds the
    elements `other` held, in order, and `other` is left empty.
   */
  method MoveConstruct(h: Heap, other: NodeId, ghost xs: seq<NodeId>) returns (r: Heap, s: NodeId)
    requires Closed(h) && Ring(h, other, xs)
    ensures s == |h| && |r| == |h| + 1 && Closed(r)
    ensures Ring(r, s, xs) && Ring(r, other, [])
    ensures forall y :: 0 <= y < |h| && y != other && y !in xs ==> r[y] == h[y]
  {
    s := |h|;
    var h1 := NewList(h);
    RingFrame(h, h1[..|h|], other, xs);
    RingGrow(h, h1, other, xs);
    var h2 := Swap(h1, s, other);
    SwapRing(h1, s, [], other, xs);
    r := Clear(h2, other, []);
  }

  /**
    `operator=(list&& other)`: nothing on self-assignment; otherwise the two
    sentinels swap and `other`, which now holds the old elements, is cleared.
    This list then holds `other`'s elements, `other` is empty, and the old
    elements are unlinked.
   */
  method MoveAssign(h: Heap, s: NodeId, ghost xs: seq<NodeId>, other: NodeId, ghost ys: seq<NodeId>)
      returns (r: Heap)
    requires Closed(h) && Ring(h, s, xs) && Ring(h, other, ys)
    requires s != other ==> Disjoint(s, xs, other, ys)
    ensures s == other ==> r == h
    ensures Outside2(h, r, s, xs, other, ys)
    ensures s != other ==> Closed(r) && Ring(r, s, ys) && Ring(r, other, [])
    ensures s != other ==> forall i :: 0 <= i < |xs| ==> r[xs[i]] == Link(xs[i], xs[i])
  {
    if s == other {
      r := h;
    } else {
      var h1 := Swap(h, s, other);
      SwapRing(h, s, xs, other, ys);
      r := Clear(h1, other, xs);
      forall y | 0 <= y < |h| && y != s && y != other && y !in xs && y !in ys ensures r[y] == h[y] {
        assert r[y] == h1[y];
      }
    }
  }

  /** A ring survives the heap growing by fresh objects. */
  lemma RingGrow(h: Heap, r: Heap, s: NodeId, xs: seq<NodeId>)
    requires Ring(h, s, xs) && |h| <= |r| && r[..|h|] == h
    ensures Ring(r, s, xs)
  {
    forall i | 0 <= i < |xs| ensures r[xs[i]] == Link(PrevOf(s, xs, i), NextOf(s, xs, i)) {
      assert r[xs[i]] == r[..|h|][xs[i]];
      assert h[xs[i]] == Link(PrevOf(s, xs, i), NextOf(s, xs, i));
    }
    assert r[s] == r[..|h|][s];
  }
}
