/**
  What the pointer writes of module IntrusiveList mean for the sequence of
  elements: each operation takes a ring to the ring of the expected sequence,
  and leaves every node outside the rings it touches as it was.
 */
module ListLemmas {
  import opened IntrusiveList

  /** `r` agrees with `h` on every node outside the ring `s, xs`. */
  ghost predicate Outside(h: Heap, r: Heap, s: NodeId, xs: seq<NodeId>) {
    && |r| == |h|
    && forall y :: 0 <= y < |h| && y != s && y !in xs ==> r[y] == h[y]
  }

  /** Every node of the heap apart from the listed ones is unlinked. */
  ghost predicate UnlinkedExcept(h: Heap, s: NodeId, xs: seq<NodeId>) {
    forall y :: 0 <= y < |h| && y != s && y !in xs ==> h[y] == Link(y, y)
  }

  // ---------------------------------------------------------------------
  // list_element
  // ---------------------------------------------------------------------

  /** `unlink` on an element that is not linked changes nothing; so `unlink` is idempotent. */
  lemma UnlinkIdempotent(h: Heap, x: NodeId)
    requires Closed(h) && x < |h|
    ensures !IsLinked(h, x) ==> Unlink(h, x) == h
    ensures Unlink(Unlink(h, x), x) == Unlink(h, x)
  {
    if !IsLinked(h, x) {
      assert h[x] == Link(x, x);
      assert Unlink(h, x) == h;
    }
    var r := Unlink(h, x);
    assert r[x] == Link(x, x);
    assert Unlink(r, x) == r;
  }

  /** Removing one entry of a sequence without repetitions leaves one without repetitions. */
  lemma DistinctRemove(xs: seq<NodeId>, k: nat)
    requires Distinct(xs) && k < |xs|
    ensures Distinct(xs[..k] + xs[k + 1..])
    ensures forall y :: y in xs[..k] + xs[k + 1..] ==> y in xs && y != xs[k]
  {
    var ys := xs[..k] + xs[k + 1..];
    forall i, j | 0 <= i < j < |ys| ensures ys[i] != ys[j] {
      var i' := if i < k then i else i + 1;
      var j' := if j < k then j else j + 1;
      assert ys[i] == xs[i'] && ys[j] == xs[j'];
    }
    forall y | y in ys ensures y in xs && y != xs[k] {
      var i :| 0 <= i < |ys| && ys[i] == y;
      var i' := if i < k then i else i + 1;
      assert ys[i] == xs[i'];
    }
  }

  /** Inserting a new node into a sequence without repetitions leaves one without repetitions. */
  lemma DistinctInsert(xs: seq<NodeId>, k: nat, n: NodeId)
    requires Distinct(xs) && k <= |xs| && n !in xs
    ensures Distinct(xs[..k] + [n] + xs[k..])
    ensures forall y :: y in xs[..k] + [n] + xs[k..] <==> y in xs || y == n
  {
    var ys := xs[..k] + [n] + xs[k..];
    forall i, j | 0 <= i < j < |ys| ensures ys[i] != ys[j] {
      if i < k && j > k {
        assert ys[i] == xs[i] && ys[j] == xs[j - 1];
      } else if i > k {
        assert ys[i] == xs[i - 1] && ys[j] == xs[j - 1];
      } else if j < k {
        assert ys[i] == xs[i] && ys[j] == xs[j];
      }
    }
    assert xs == xs[..k] + xs[k..];
  }

  /** The links of the remaining nodes after the `k`-th element of a ring is unlinked. */
  lemma UnlinkRingLinks(h: Heap, s: NodeId, xs: seq<NodeId>, k: nat)
    requires Closed(h) && Ring(h, s, xs) && k < |xs|
    ensures var r, ys := Unlink(h, xs[k]), xs[..k] + xs[k + 1..];
            && (forall i :: 0 <= i < |ys| ==> r[ys[i]] == Link(PrevOf(s, ys, i), NextOf(s, ys, i)))
            && r[s] == Link(Last(s, ys), Pos(s, ys, 0))
  {
    var x := xs[k];
    var r := Unlink(h, x);
    var ys := xs[..k] + xs[k + 1..];
    var p := PrevOf(s, xs, k);
    var n := NextOf(s, xs, k);
    assert h[x] == Link(p, n);
    assert p != x && n != x;
    forall i | 0 <= i < |ys|
      ensures r[ys[i]] == Link(PrevOf(s, ys, i), NextOf(s, ys, i))
    {
      if i < k {
        assert ys[i] == xs[i];
        assert h[xs[i]] == Link(PrevOf(s, xs, i), NextOf(s, xs, i));
        if i == k - 1 {
          assert xs[i] == p;
        } else {
          assert xs[i] != p && xs[i] != n;
        }
      } else {
        assert ys[i] == xs[i + 1];
        assert h[xs[i + 1]] == Link(PrevOf(s, xs, i + 1), NextOf(s, xs, i + 1));
        if i == k {
          assert xs[i + 1] == n;
        } else {
          assert xs[i + 1] != p && xs[i + 1] != n;
        }
      }
    }
  }

  /**
    Unlinking the `k`-th element of a ring removes exactly that element, keeps
    the others in order, and leaves the element pointing to itself.
   */
  lemma UnlinkRing(h: Heap, s: NodeId, xs: seq<NodeId>, k: nat)
    requires Closed(h) && Ring(h, s, xs) && k < |xs|
    ensures Ring(Unlink(h, xs[k]), s, xs[..k] + xs[k + 1..])
    ensures Unlink(h, xs[k])[xs[k]] == Link(xs[k], xs[k])
    ensures Outside(h, Unlink(h, xs[k]), s, xs)
  {
    var x := xs[k];
    assert h[x] == Link(PrevOf(s, xs, k), NextOf(s, xs, k));
    UnlinkRingLinks(h, s, xs, k);
    DistinctRemove(xs, k);
  }

  /** In a ring, the iterator rebuilt by `non_const_transform` is the one given. */
  lemma NonConstInRing(h: Heap, s: NodeId, xs: seq<NodeId>, k: nat)
    requires Closed(h) && Ring(h, s, xs) && k <= |xs|
    ensures NonConst(h, Pos(s, xs, k)) == Pos(s, xs, k)
  {
    if k < |xs| {
      assert h[xs[k]] == Link(PrevOf(s, xs, k), NextOf(s, xs, k));
      if k > 0 {
        assert h[xs[k - 1]] == Link(PrevOf(s, xs, k - 1), NextOf(s, xs, k - 1));
      }
    } else if k > 0 {
      assert h[xs[k - 1]] == Link(PrevOf(s, xs, k - 1), NextOf(s, xs, k - 1));
    }
  }

  /**
    The ring determines its element sequence: two abstractions of the same
    sentinel in the same heap are equal.
   */
  lemma RingUnique(h: Heap, s: NodeId, xs: seq<NodeId>, ys: seq<NodeId>)
    requires Ring(h, s, xs) && Ring(h, s, ys)
    ensures xs == ys
  {
    var m := if |xs| < |ys| then |xs| else |ys|;
    SamePositions(h, s, xs, ys, m);
    forall i | 0 <= i < |xs| ensures xs[i] == ys[i] {
      SamePositions(h, s, xs, ys, i);
    }
  }

  /** Walking `i` steps forward from the sentinel reaches the same node in both abstractions. */
  lemma {:induction false} SamePositions(h: Heap, s: NodeId, xs: seq<NodeId>, ys: seq<NodeId>, i: nat)
    requires Ring(h, s, xs) && Ring(h, s, ys) && i <= |xs| && i <= |ys|
    ensures Pos(s, xs, i) == Pos(s, ys, i)
    decreases i
  {
    if i > 0 {
      SamePositions(h, s, xs, ys, i - 1);
      assert h[xs[i - 1]] == Link(PrevOf(s, xs, i - 1), NextOf(s, xs, i - 1));
      assert h[ys[i - 1]] == Link(PrevOf(s, ys, i - 1), NextOf(s, ys, i - 1));
    }
  }

  /** `empty()` holds exactly when the list has no element, exactly when `begin() == end()`. */
  lemma EmptyIff(h: Heap, s: NodeId, xs: seq<NodeId>)
    requires Ring(h, s, xs)
    ensures Empty(h, s) <==> xs == []
    ensures Empty(h, s) <==> Begin(h, s) == End(s)
  {
  }

  /** `push_back(n)` appends `n` to the sequence and keeps the ring consistent. */
  lemma PushBackRing(h: Heap, s: NodeId, xs: seq<NodeId>, n: NodeId)
    requires Closed(h) && Ring(h, s, xs) && n < |h| && n != s && n !in xs
    ensures Ring(PushBack(h, s, n), s, xs + [n])
    ensures Outside(h, PushBack(h, s, n), s, xs + [n])
  {
    var k := |xs|;
    NonConstInRing(h, s, xs, 0);
    assert h[h[s].prev].next == s by {
      if xs != [] { assert h[xs[k - 1]] == Link(PrevOf(s, xs, k - 1), NextOf(s, xs, k - 1)); }
    }
    PushBackEffect(h, s, n);
    assert xs[..k] + [n] + xs[k..] == xs + [n];
    InsertedRing(h, PushBack(h, s, n), s, xs, k, n);
  }

  /** `push_front(n)` prepends `n` to the sequence and keeps the ring consistent. */
  lemma PushFrontRing(h: Heap, s: NodeId, xs: seq<NodeId>, n: NodeId)
    requires Closed(h) && Ring(h, s, xs) && n < |h| && n != s && n !in xs
    ensures Ring(PushFront(h, s, n), s, [n] + xs)
    ensures Outside(h, PushFront(h, s, n), s, [n] + xs)
  {
    assert h[h[s].next].prev == s by {
      if xs != [] { assert h[xs[0]] == Link(PrevOf(s, xs, 0), NextOf(s, xs, 0)); }
    }
    PushFrontEffect(h, s, n);
    assert xs[..0] + [n] + xs[0..] == [n] + xs;
    InsertedRing(h, PushFront(h, s, n), s, xs, 0, n);
  }

  /**
    `r` is `h` with `n` linked in between `b` and `p`, where `b` was the
    node in front of `p`.
   */
  ghost predicate InsertEffect(h: Heap, r: Heap, p: NodeId, b: NodeId, n: NodeId) {
    && |r| == |h|
    && forall y :: 0 <= y < |h| ==>
         r[y] == Link(if y == n then b else if y == p then n else h[y].prev,
                      if y == n then p else if y == b then n else h[y].next)
  }

  /** `push_back(n)` links `n` in front of the sentinel. */
  lemma PushBackEffect(h: Heap, s: NodeId, n: NodeId)
    requires Closed(h) && s < |h| && n < |h| && h[h[s].prev].next == s && n != s && n != h[s].prev
    ensures InsertEffect(h, PushBack(h, s, n), s, h[s].prev, n)
  {
    var l := h[s].prev;
    var h1 := SetNext(h, l, n);
    var h2 := SetPrev(h1, n, l);
    var h3 := SetNext(h2, n, s);
    var r := SetPrev(h3, s, n);
    assert r == PushBack(h, s, n);
    forall y | 0 <= y < |h|
      ensures r[y] == Link(if y == n then l else if y == s then n else h[y].prev,
                           if y == n then s else if y == l then n else h[y].next)
    {
      assert h1[y] == Link(h[y].prev, if y == l then n else h[y].next);
    }
  }

  /** `push_front(n)` links `n` right after the sentinel. */
  lemma PushFrontEffect(h: Heap, s: NodeId, n: NodeId)
    requires Closed(h) && s < |h| && n < |h| && h[h[s].next].prev == s && n != s && n != h[s].next
    ensures InsertEffect(h, PushFront(h, s, n), h[s].next, s, n)
  {
    var f := h[s].next;
    var h1 := SetPrev(h, f, n);
    var h2 := SetNext(h1, n, f);
    var h3 := SetPrev(h2, n, s);
    var r := SetNext(h3, s, n);
    assert r == PushFront(h, s, n);
    forall y | 0 <= y < |h|
      ensures r[y] == Link(if y == n then s else if y == f then n else h[y].prev,
                           if y == n then f else if y == s then n else h[y].next)
    {
      assert h1[y] == Link(if y == f then n else h[y].prev, h[y].next);
    }
  }

  /** `insert(pos, n)` links `n` in front of `pos`. */
  lemma InsertEffectOf(h: Heap, pos: NodeId, n: NodeId)
    requires Closed(h) && pos < |h| && n < |h| && NonConst(h, pos) == pos && n != pos && n != h[pos].prev
    ensures InsertEffect(h, Insert(h, pos, n).0, pos, h[pos].prev, n)
  {
    var b := h[pos].prev;
    var h1 := SetNext(h, b, n);
    var h2 := SetNext(h1, n, pos);
    var h3 := SetPrev(h2, n, b);
    var r := SetPrev(h3, pos, n);
    assert r == Insert(h, pos, n).0;
    forall y | 0 <= y < |h|
      ensures r[y] == Link(if y == n then b else if y == pos then n else h[y].prev,
                           if y == n then pos else if y == b then n else h[y].next)
    {
      assert h2[y] == Link(h[y].prev, if y == n then pos else if y == b then n else h[y].next);
    }
  }

  /** Linking `n` in at the `k`-th position of a ring inserts it into the sequence there. */
  lemma InsertedRing(h: Heap, r: Heap, s: NodeId, xs: seq<NodeId>, k: nat, n: NodeId)
    requires Ring(h, s, xs) && k <= |xs| && n < |h| && n != s && n !in xs
    requires InsertEffect(h, r, Pos(s, xs, k), Before(s, xs, k), n)
    ensures Ring(r, s, xs[..k] + [n] + xs[k..])
    ensures Outside(h, r, s, xs + [n])
  {
    DistinctInsert(xs, k, n);
    InsertedLinks(h, r, s, xs, k, n);
    InsertedSentinel(h, r, s, xs, k, n);
    InsertedOutside(h, r, s, xs, k, n);
  }

  /** Linking `n` in at the `k`-th position touches only the ring and `n`. */
  lemma InsertedOutside(h: Heap, r: Heap, s: NodeId, xs: seq<NodeId>, k: nat, n: NodeId)
    requires k <= |xs| && InsertEffect(h, r, Pos(s, xs, k), Before(s, xs, k), n)
    ensures Outside(h, r, s, xs + [n])
  {
    assert Before(s, xs, k) == s || Before(s, xs, k) in xs;
    assert Pos(s, xs, k) == s || Pos(s, xs, k) in xs;
  }

  /** The sentinel's links after linking `n` in at the `k`-th position. */
  lemma InsertedSentinel(h: Heap, r: Heap, s: NodeId, xs: seq<NodeId>, k: nat, n: NodeId)
    requires Ring(h, s, xs) && k <= |xs| && n < |h| && n != s && n !in xs
    requires InsertEffect(h, r, Pos(s, xs, k), Before(s, xs, k), n)
    ensures var ys := xs[..k] + [n] + xs[k..];
            r[s] == Link(Last(s, ys), Pos(s, ys, 0))
  {
    var ys := xs[..k] + [n] + xs[k..];
    if k < |xs| { assert Last(s, ys) == Last(s, xs); }
    if k > 0 { assert ys[0] == xs[0]; }
  }

  /** The links of every element after linking `n` in at the `k`-th position. */
  lemma InsertedLinks(h: Heap, r: Heap, s: NodeId, xs: seq<NodeId>, k: nat, n: NodeId)
    requires Ring(h, s, xs) && k <= |xs| && n < |h| && n != s && n !in xs
    requires InsertEffect(h, r, Pos(s, xs, k), Before(s, xs, k), n)
    ensures var ys := xs[..k] + [n] + xs[k..];
            forall i :: 0 <= i < |ys| ==> ys[i] < |r| && r[ys[i]] == Link(PrevOf(s, ys, i), NextOf(s, ys, i))
  {
    var ys := xs[..k] + [n] + xs[k..];
    forall i | 0 <= i < |ys|
      ensures ys[i] < |r| && r[ys[i]] == Link(PrevOf(s, ys, i), NextOf(s, ys, i))
    {
      if i < k {
        assert ys[i] == xs[i];
        assert h[xs[i]] == Link(PrevOf(s, xs, i), NextOf(s, xs, i));
        if i + 1 < k { assert ys[i + 1] == xs[i + 1]; }
      } else if i > k {
        assert ys[i] == xs[i - 1];
        assert h[xs[i - 1]] == Link(PrevOf(s, xs, i - 1), NextOf(s, xs, i - 1));
        if i > k + 1 { assert ys[i - 1] == xs[i - 2]; }
      } else if k < |xs| {
        assert ys[k + 1] == xs[k];
      }
    }
  }

  /**
    `pop_back()` on a non-empty list removes exactly the last element and
    unlinks it; on an empty list it changes nothing.
   */
  lemma PopBackRing(h: Heap, s: NodeId, xs: seq<NodeId>)
    requires Closed(h) && Ring(h, s, xs)
    ensures xs == [] ==> PopBack(h, s) == h
    ensures xs != [] ==> Ring(PopBack(h, s), s, xs[..|xs| - 1])
    ensures xs != [] ==> PopBack(h, s)[Last(s, xs)] == Link(Last(s, xs), Last(s, xs))
    ensures Outside(h, PopBack(h, s), s, xs)
  {
    if xs == [] {
      UnlinkIdempotent(h, s);
    } else {
      var k := |xs| - 1;
      UnlinkRing(h, s, xs, k);
      assert xs[..k] + xs[k + 1..] == xs[..k];
    }
  }

  /**
    `pop_front()` on a non-empty list removes exactly the first element and
    unlinks it; on an empty list it changes nothing.
   */
  lemma PopFrontRing(h: Heap, s: NodeId, xs: seq<NodeId>)
    requires Closed(h) && Ring(h, s, xs)
    ensures xs == [] ==> PopFront(h, s) == h
    ensures xs != [] ==> Ring(PopFront(h, s), s, xs[1..])
    ensures xs != [] ==> PopFront(h, s)[xs[0]] == Link(xs[0], xs[0])
    ensures Outside(h, PopFront(h, s), s, xs)
  {
    if xs == [] {
      UnlinkIdempotent(h, s);
    } else {
      UnlinkRing(h, s, xs, 0);
      assert xs[..0] + xs[1..] == xs[1..];
    }
  }

  /**
    `insert(pos, n)` with `pos` the `k`-th position places `n` immediately
    before it and returns an iterator to `n`.
   */
  lemma InsertRing(h: Heap, s: NodeId, xs: seq<NodeId>, k: nat, n: NodeId)
    requires Closed(h) && Ring(h, s, xs) && k <= |xs| && n < |h| && n != s && n !in xs
    ensures Insert(h, Pos(s, xs, k), n).1 == n
    ensures Ring(Insert(h, Pos(s, xs, k), n).0, s, xs[..k] + [n] + xs[k..])
    ensures Outside(h, Insert(h, Pos(s, xs, k), n).0, s, xs + [n])
  {
    var pos := Pos(s, xs, k);
    NonConstInRing(h, s, xs, k);
    assert h[pos].prev == Before(s, xs, k) by {
      if k < |xs| { assert h[xs[k]] == Link(PrevOf(s, xs, k), NextOf(s, xs, k)); }
    }
    InsertEffectOf(h, pos, n);
    InsertedRing(h, Insert(h, pos, n).0, s, xs, k, n);
  }

  /**
    `erase(pos)` with `pos` the `k`-th element removes exactly that element,
    unlinks it and returns an iterator to its former successor.
   */
  lemma EraseRing(h: Heap, s: NodeId, xs: seq<NodeId>, k: nat)
    requires Closed(h) && Ring(h, s, xs) && k < |xs|
    ensures Erase(h, xs[k]).1 == Pos(s, xs, k + 1)
    ensures Ring(Erase(h, xs[k]).0, s, xs[..k] + xs[k + 1..])
    ensures Erase(h, xs[k]).0[xs[k]] == Link(xs[k], xs[k])
    ensures Outside(h, Erase(h, xs[k]).0, s, xs)
  {
    NonConstInRing(h, s, xs, k);
    assert h[xs[k]] == Link(PrevOf(s, xs, k), NextOf(s, xs, k));
    var cur := Pos(s, xs, k + 1);
    assert h[cur].prev == xs[k] by {
      if k + 1 < |xs| {
        assert h[xs[k + 1]] == Link(PrevOf(s, xs, k + 1), NextOf(s, xs, k + 1));
      }
    }
    UnlinkRing(h, s, xs, k);
  }

  /** Two rings share no node. */
  ghost predicate Disjoint(s1: NodeId, xs: seq<NodeId>, s2: NodeId, ys: seq<NodeId>) {
    && s1 != s2
    && s1 !in ys
    && s2 !in xs
    && forall i, j :: 0 <= i < |xs| && 0 <= j < |ys| ==> xs[i] != ys[j]
  }

  /** `r` agrees with `h` on every node outside the two rings. */
  ghost predicate Outside2(h: Heap, r: Heap, s1: NodeId, xs: seq<NodeId>, s2: NodeId, ys: seq<NodeId>) {
    && |r| == |h|
    && forall y :: 0 <= y < |h| && y != s1 && y != s2 && y !in xs && y !in ys ==> r[y] == h[y]
  }

  /** The node in front of iterator position `k`. */
  function Before(s: NodeId, xs: seq<NodeId>, k: nat): NodeId
    requires k <= |xs|
  {
    if k == 0 then s else xs[k - 1]
  }

  /** A ring is kept by any heap that agrees on its nodes. */
  lemma RingFrame(h: Heap, r: Heap, s: NodeId, xs: seq<NodeId>)
    requires Ring(h, s, xs) && |r| == |h| && r[s] == h[s]
    requires forall i :: 0 <= i < |xs| ==> r[xs[i]] == h[xs[i]]
    ensures Ring(r, s, xs)
  {
    forall i | 0 <= i < |xs| ensures r[xs[i]] == Link(PrevOf(s, xs, i), NextOf(s, xs, i)) {
      assert h[xs[i]] == Link(PrevOf(s, xs, i), NextOf(s, xs, i));
    }
  }

  /**
    `list::swap(a, b)` on two disjoint rings exchanges their element
    sequences and touches no other node.
   */
  lemma SwapRing(h: Heap, a: NodeId, xs: seq<NodeId>, b: NodeId, ys: seq<NodeId>)
    requires Closed(h) && Ring(h, a, xs) && Ring(h, b, ys) && Disjoint(a, xs, b, ys)
    ensures Ring(Swap(h, a, b), a, ys)
    ensures Ring(Swap(h, a, b), b, xs)
    ensures Outside2(h, Swap(h, a, b), a, xs, b, ys)
  {
    var r := Swap(h, a, b);
    SwapFields(h, a, xs, b, ys);
    SwapRingSide(h, r, a, xs, b, ys);
    SwapRingSide(h, r, b, ys, a, xs);
    forall y | 0 <= y < |h| && y != a && y != b && y !in xs && y !in ys ensures r[y] == h[y] {
      assert y != Pos(a, xs, 0) && y != Last(a, xs);
      assert y != Pos(b, ys, 0) && y != Last(b, ys);
    }
  }

  /**
    The fields `list::swap(a, b)` writes, for two disjoint rings: each
    sentinel takes the other's pointers, and the first and last element of
    each ring point back to their new sentinel.
   */
  lemma SwapFields(h: Heap, a: NodeId, xs: seq<NodeId>, b: NodeId, ys: seq<NodeId>)
    requires Closed(h) && Ring(h, a, xs) && Ring(h, b, ys) && Disjoint(a, xs, b, ys)
    ensures SwapEffect(h, Swap(h, a, b), a, xs, b, ys)
  {
    var la, fa, lb, fb := Last(a, xs), Pos(a, xs, 0), Last(b, ys), Pos(b, ys, 0);
    if xs != [] {
      assert h[fa] == Link(a, NextOf(a, xs, 0));
      assert h[la] == Link(PrevOf(a, xs, |xs| - 1), a);
    }
    if ys != [] {
      assert h[fb] == Link(b, NextOf(b, ys, 0));
      assert h[lb] == Link(PrevOf(b, ys, |ys| - 1), b);
    }
    assert la != lb && la != fb && fa != lb && fa != fb;
    SwapUnfold(h, a, b, la, fa, lb, fb);
    SwapChain(h, a, b, la, fa, lb, fb);
    SwapEffectOf(h, Swap(h, a, b), a, xs, b, ys);
  }

  /** `Swap` is the chain `SwapSteps` with the neighbours read off the two sentinels. */
  lemma SwapUnfold(h: Heap, a: NodeId, b: NodeId, la: NodeId, fa: NodeId, lb: NodeId, fb: NodeId)
    requires Closed(h) && a < |h| && b < |h| && a != b
    requires h[a] == Link(la, fa) && h[b] == Link(lb, fb)
    requires h[la].next == a && h[lb].next == b
    requires (la == a <==> fa == a) && (lb == b <==> fb == b)
    requires la != b && lb != a && la != lb
    ensures Swap(h, a, b) == SwapSteps(h, a, b, lb, la, if fb == b then a else fb, if fa == a then b else fa)
  {
    SwapHalfEffect(h, a, b, la, fa, lb, fb);
    var h1 := SwapPrev(h, a, b);
    assert h1[a].prev == lb && h1[b].prev == la;
  }

  /** `SwapEffectAt` on the end nodes of two rings' sequences is `SwapEffect`. */
  lemma SwapEffectOf(h: Heap, r: Heap, a: NodeId, xs: seq<NodeId>, b: NodeId, ys: seq<NodeId>)
    requires a < |h| && b < |h|
    requires xs != [] ==> Last(a, xs) != a && Pos(a, xs, 0) != a
    requires ys != [] ==> Last(b, ys) != b && Pos(b, ys, 0) != b
    requires SwapEffectAt(h, r, a, b, Last(a, xs), Pos(a, xs, 0), Last(b, ys), Pos(b, ys, 0))
    ensures SwapEffect(h, r, a, xs, b, ys)
  {
  }

  /** The four pointer exchanges of `list::swap` in source order, on any heap. */
  function SwapSteps(h: Heap, a: NodeId, b: NodeId, la: NodeId, lb: NodeId, na: NodeId, nb: NodeId): (r: Heap)
    requires a < |h| && b < |h| && la < |h| && lb < |h| && na < |h| && nb < |h|
    ensures |r| == |h|
  {
    SwapPrev(SwapHalf(h, a, b, la, lb), na, nb)
  }

  /** The first three exchanges of `list::swap`: everything but the new neighbours' `prev`. */
  function SwapHalf(h: Heap, a: NodeId, b: NodeId, la: NodeId, lb: NodeId): (r: Heap)
    requires a < |h| && b < |h| && la < |h| && lb < |h|
    ensures |r| == |h|
  {
    SwapNext(SwapNext(SwapPrev(h, a, b), la, lb), a, b)
  }

  /**
    What `list::swap(a, b)` does given each sentinel's last (`la`, `lb`) and
    first (`fa`, `fb`) node, where a sentinel is its own first and last node
    exactly when its list is empty.
   */
  ghost predicate SwapEffectAt(h: Heap, r: Heap, a: NodeId, b: NodeId, la: NodeId, fa: NodeId, lb: NodeId, fb: NodeId)
    requires a < |h| && b < |h|
  {
    && |r| == |h|
    && r[a] == Link(if lb == b then a else lb, if fb == b then a else fb)
    && r[b] == Link(if la == a then b else la, if fa == a then b else fa)
    && forall y :: 0 <= y < |h| && y != a && y != b ==>
         r[y] == Link(if y == fb then a else if y == fa then b else h[y].prev,
                      if y == lb then a else if y == la then b else h[y].next)
  }

  /** The pointer exchanges of `list::swap`, from the pointers at both sentinels. */
  lemma SwapChain(h: Heap, a: NodeId, b: NodeId, la: NodeId, fa: NodeId, lb: NodeId, fb: NodeId)
    requires a < |h| && b < |h| && la < |h| && fa < |h| && lb < |h| && fb < |h| && a != b
    requires h[a] == Link(la, fa) && h[b] == Link(lb, fb)
    requires h[la].next == a && h[fa].prev == a && h[lb].next == b && h[fb].prev == b
    requires (la == a <==> fa == a) && (lb == b <==> fb == b)
    requires la != b && fa != b && lb != a && fb != a
    requires la != lb && la != fb && fa != lb && fa != fb
    ensures SwapEffectAt(h, SwapSteps(h, a, b, lb, la, if fb == b then a else fb, if fa == a then b else fa),
                         a, b, la, fa, lb, fb)
  {
    var na, nb := if fb == b then a else fb, if fa == a then b else fa;
    SwapHalfEffect(h, a, b, la, fa, lb, fb);
    var h3 := SwapHalf(h, a, b, lb, la);
    assert h3[na].prev == (if fb == b then lb else b);
    assert h3[nb].prev == (if fa == a then la else a);
    var r := SwapPrev(h3, na, nb);
    assert r == SwapSteps(h, a, b, lb, la, na, nb);
    forall y | 0 <= y < |h| && y != a && y != b
      ensures r[y] == Link(if y == fb then a else if y == fa then b else h[y].prev,
                           if y == lb then a else if y == la then b else h[y].next)
    {
      assert h3[y] == Link(h[y].prev, if y == lb then a else if y == la then b else h[y].next);
    }
  }

  /** The state after the first three exchanges of `list::swap`. */
  lemma SwapHalfEffect(h: Heap, a: NodeId, b: NodeId, la: NodeId, fa: NodeId, lb: NodeId, fb: NodeId)
    requires a < |h| && b < |h| && la < |h| && fa < |h| && lb < |h| && fb < |h| && a != b
    requires h[a] == Link(la, fa) && h[b] == Link(lb, fb)
    requires h[la].next == a && h[lb].next == b
    requires (la == a <==> fa == a) && (lb == b <==> fb == b)
    requires la != b && lb != a && la != lb
    ensures var h3 := SwapHalf(h, a, b, lb, la);
            && h3[a] == Link(lb, if fb == b then a else fb)
            && h3[b] == Link(la, if fa == a then b else fa)
            && forall y :: 0 <= y < |h| && y != a && y != b ==>
                 h3[y] == Link(h[y].prev, if y == lb then a else if y == la then b else h[y].next)
  {
    var h1 := SwapPrev(h, a, b);
    assert h1[a] == Link(lb, fa) && h1[b] == Link(la, fb);
    var h2 := SwapNext(h1, lb, la);
    assert h2[lb].next == a && h2[la].next == b;
    assert h2[a] == Link(lb, if fa == a then b else fa);
    assert h2[b] == Link(la, if fb == b then a else fb);
    var h3 := SwapNext(h2, a, b);
    assert h3 == SwapHalf(h, a, b, lb, la);
    forall y | 0 <= y < |h| && y != a && y != b
      ensures h3[y] == Link(h[y].prev, if y == lb then a else if y == la then b else h[y].next)
    {
      assert h2[y] == h3[y];
    }
  }

  /** What `list::swap(a, b)` does to two disjoint rings, field by field. */
  ghost predicate SwapEffect(h: Heap, r: Heap, a: NodeId, xs: seq<NodeId>, b: NodeId, ys: seq<NodeId>)
    requires a < |h| && b < |h|
  {
    && |r| == |h|
    && r[a] == Link(Last(a, ys), Pos(a, ys, 0))
    && r[b] == Link(Last(b, xs), Pos(b, xs, 0))
    && forall y :: 0 <= y < |h| && y != a && y != b ==>
         r[y] == Link(if y == Pos(b, ys, 0) then a else if y == Pos(a, xs, 0) then b else h[y].prev,
                      if y == Last(b, ys) then a else if y == Last(a, xs) then b else h[y].next)
  }

  /** One half of `SwapRing`: the elements of `ys` now hang off `a`. */
  lemma SwapRingSide(h: Heap, r: Heap, a: NodeId, xs: seq<NodeId>, b: NodeId, ys: seq<NodeId>)
    requires Ring(h, a, xs) && Ring(h, b, ys) && Disjoint(a, xs, b, ys)
    requires SwapEffect(h, r, a, xs, b, ys) || SwapEffect(h, r, b, ys, a, xs)
    ensures Ring(r, a, ys)
  {
    forall i | 0 <= i < |ys| ensures r[ys[i]] == Link(PrevOf(a, ys, i), NextOf(a, ys, i)) {
      assert h[ys[i]] == Link(PrevOf(b, ys, i), NextOf(b, ys, i));
      assert ys[i] != Pos(a, xs, 0) && ys[i] != Last(a, xs);
    }
  }

  /**
    The six fields `splice` writes: the nodes in front of `pos`, `first` and
    `last` get new `next` pointers, and `first`, `pos` and `last` new `prev`
    pointers.
   */
  ghost predicate SpliceEffect(h: Heap, r: Heap, pos: NodeId, first: NodeId, last: NodeId,
                               p: NodeId, f: NodeId, l: NodeId)
  {
    && |r| == |h|
    && forall y :: 0 <= y < |h| ==>
         r[y] == Link(if y == first then p else if y == pos then l else if y == last then f else h[y].prev,
                      if y == p then first else if y == f then last else if y == l then pos else h[y].next)
  }

  /** The arguments of a well-formed `splice(pos, l, first, last)` between two disjoint lists. */
  ghost predicate SpliceArgs(h: Heap, s1: NodeId, xs: seq<NodeId>, s2: NodeId, ys: seq<NodeId>,
                             k: nat, a: nat, b: nat)
  {
    && Closed(h) && Ring(h, s1, xs) && Ring(h, s2, ys) && Disjoint(s1, xs, s2, ys)
    && k <= |xs| && a <= b <= |ys|
  }

  /** `splice` performs exactly the six writes of `SpliceEffect` on a non-empty range. */
  lemma SpliceFields(h: Heap, s1: NodeId, xs: seq<NodeId>, s2: NodeId, ys: seq<NodeId>, k: nat, a: nat, b: nat)
    requires SpliceArgs(h, s1, xs, s2, ys, k, a, b) && a < b
    ensures SpliceEffect(h, Splice(h, Pos(s1, xs, k), ys[a], Pos(s2, ys, b)),
                         Pos(s1, xs, k), ys[a], Pos(s2, ys, b), Before(s1, xs, k), Before(s2, ys, a), ys[b - 1])
  {
    var pos, first, last := Pos(s1, xs, k), ys[a], Pos(s2, ys, b);
    var p, f, l := Before(s1, xs, k), Before(s2, ys, a), ys[b - 1];
    NonConstInRing(h, s1, xs, k);
    NonConstInRing(h, s2, ys, a);
    NonConstInRing(h, s2, ys, b);
    assert h[pos].prev == p by {
      if k < |xs| { assert h[xs[k]] == Link(PrevOf(s1, xs, k), NextOf(s1, xs, k)); }
    }
    assert h[first].prev == f by {
      assert h[ys[a]] == Link(PrevOf(s2, ys, a), NextOf(s2, ys, a));
    }
    assert h[last].prev == l by {
      if b < |ys| { assert h[ys[b]] == Link(PrevOf(s2, ys, b), NextOf(s2, ys, b)); }
    }
    assert p != f && p != l && f != l;
    assert first != pos && first != last && pos != last;
    SpliceWrites(h, pos, first, last, p, f, l);
  }

  /** The pointer writes of `splice`, given what the three iterators' `prev` pointers hold. */
  lemma SpliceWrites(h: Heap, pos: NodeId, first: NodeId, last: NodeId, p: NodeId, f: NodeId, l: NodeId)
    requires Closed(h) && pos < |h| && first < |h| && last < |h|
    requires NonConst(h, pos) == pos && NonConst(h, first) == first && NonConst(h, last) == last
    requires h[pos].prev == p && h[first].prev == f && h[last].prev == l
    requires p != f && p != l && f != l
    requires first != pos && first != last && pos != last
    ensures SpliceEffect(h, Splice(h, pos, first, last), pos, first, last, p, f, l)
  {
    var h1 := SetNext(h, p, first);
    assert h1[first].prev == f;
    var h2 := SetNext(h1, f, last);
    assert h2[last].prev == l;
    var h3 := SetNext(h2, l, pos);
    assert h3[first].prev == f && h3[pos].prev == p;
    var h4 := SetPrev(h3, first, p);
    assert h4[last].prev == l;
    assert Splice(h, pos, first, last) == SpliceSteps(h, pos, first, last, p, f, l);
    SpliceChain(h, pos, first, last, p, f, l);
  }

  /** The six writes of `splice` in source order, on any heap. */
  function SpliceSteps(h: Heap, pos: NodeId, first: NodeId, last: NodeId, p: NodeId, f: NodeId, l: NodeId): (r: Heap)
    requires pos < |h| && first < |h| && last < |h| && p < |h| && f < |h| && l < |h|
    ensures |r| == |h|
  {
    var h3 := SetNext(SetNext(SetNext(h, p, first), f, last), l, pos);
    SetPrev(SetPrev(SetPrev(h3, first, p), pos, l), last, f)
  }

  /** Pointwise effect of `SpliceSteps` when the six nodes are pairwise as in a splice. */
  lemma SpliceChain(h: Heap, pos: NodeId, first: NodeId, last: NodeId, p: NodeId, f: NodeId, l: NodeId)
    requires pos < |h| && first < |h| && last < |h| && p < |h| && f < |h| && l < |h|
    requires p != f && p != l && f != l
    requires first != pos && first != last && pos != last
    ensures SpliceEffect(h, SpliceSteps(h, pos, first, last, p, f, l), pos, first, last, p, f, l)
  {
    var h1 := SetNext(h, p, first);
    var h2 := SetNext(h1, f, last);
    var h3 := SetNext(h2, l, pos);
    var h4 := SetPrev(h3, first, p);
    var h5 := SetPrev(h4, pos, l);
    var r := SetPrev(h5, last, f);
    assert r == SpliceSteps(h, pos, first, last, p, f, l);
    forall y | 0 <= y < |h|
      ensures r[y] == Link(if y == first then p else if y == pos then l else if y == last then f else h[y].prev,
                           if y == p then first else if y == f then last else if y == l then pos else h[y].next)
    {
      var n := if y == p then first else if y == f then last else if y == l then pos else h[y].next;
      assert h3[y] == Link(h[y].prev, n);
    }
  }

  /** After `splice`, the target ring runs through the moved range in front of `pos`. */
  lemma SpliceTarget(h: Heap, r: Heap, s1: NodeId, xs: seq<NodeId>, s2: NodeId, ys: seq<NodeId>, k: nat, a: nat, b: nat)
    requires SpliceArgs(h, s1, xs, s2, ys, k, a, b) && a < b
    requires SpliceEffect(h, r, Pos(s1, xs, k), ys[a], Pos(s2, ys, b), Before(s1, xs, k), Before(s2, ys, a), ys[b - 1])
    ensures var zs := xs[..k] + ys[a..b] + xs[k..];
            && (forall i :: 0 <= i < |zs| ==> r[zs[i]] == Link(PrevOf(s1, zs, i), NextOf(s1, zs, i)))
            && r[s1] == Link(Last(s1, zs), Pos(s1, zs, 0))
  {
    var zs := xs[..k] + ys[a..b] + xs[k..];
    SpliceTargetPrefix(h, r, s1, xs, s2, ys, k, a, b);
    SpliceTargetRange(h, r, s1, xs, s2, ys, k, a, b);
    SpliceTargetSuffix(h, r, s1, xs, s2, ys, k, a, b);
    SpliceTargetSentinel(h, r, s1, xs, s2, ys, k, a, b);
  }

  /** `SpliceTarget` for the target's sentinel. */
  lemma SpliceTargetSentinel(h: Heap, r: Heap, s1: NodeId, xs: seq<NodeId>, s2: NodeId, ys: seq<NodeId>, k: nat, a: nat, b: nat)
    requires SpliceArgs(h, s1, xs, s2, ys, k, a, b) && a < b
    requires SpliceEffect(h, r, Pos(s1, xs, k), ys[a], Pos(s2, ys, b), Before(s1, xs, k), Before(s2, ys, a), ys[b - 1])
    ensures var zs := xs[..k] + ys[a..b] + xs[k..];
            r[s1] == Link(Last(s1, zs), Pos(s1, zs, 0))
  {
    var zs := xs[..k] + ys[a..b] + xs[k..];
    if k < |xs| {
      assert zs[|zs| - 1] == xs[|xs| - 1];
    } else {
      assert zs[|zs| - 1] == ys[b - 1];
    }
    if k > 0 {
      assert zs[0] == xs[0];
    } else {
      assert zs[0] == ys[a];
    }
  }

  /** `SpliceTarget` for the elements in front of `pos`. */
  lemma SpliceTargetPrefix(h: Heap, r: Heap, s1: NodeId, xs: seq<NodeId>, s2: NodeId, ys: seq<NodeId>, k: nat, a: nat, b: nat)
    requires SpliceArgs(h, s1, xs, s2, ys, k, a, b) && a < b
    requires SpliceEffect(h, r, Pos(s1, xs, k), ys[a], Pos(s2, ys, b), Before(s1, xs, k), Before(s2, ys, a), ys[b - 1])
    ensures var zs := xs[..k] + ys[a..b] + xs[k..];
            forall i :: 0 <= i < k ==> r[zs[i]] == Link(PrevOf(s1, zs, i), NextOf(s1, zs, i))
  {
    var zs := xs[..k] + ys[a..b] + xs[k..];
    var pos, first, last := Pos(s1, xs, k), ys[a], Pos(s2, ys, b);
    var p, f, l := Before(s1, xs, k), Before(s2, ys, a), ys[b - 1];
    forall i | 0 <= i < k ensures r[zs[i]] == Link(PrevOf(s1, zs, i), NextOf(s1, zs, i)) {
      assert zs[i] == xs[i];
      assert h[xs[i]] == Link(PrevOf(s1, xs, i), NextOf(s1, xs, i));
      assert xs[i] != first && xs[i] != pos && xs[i] != last && xs[i] != f && xs[i] != l;
      if i > 0 { assert zs[i - 1] == xs[i - 1]; }
      if i + 1 < k { assert zs[i + 1] == xs[i + 1]; } else { assert zs[i + 1] == ys[a]; }
    }
  }

  /** `SpliceTarget` for the moved range. */
  lemma SpliceTargetRange(h: Heap, r: Heap, s1: NodeId, xs: seq<NodeId>, s2: NodeId, ys: seq<NodeId>, k: nat, a: nat, b: nat)
    requires SpliceArgs(h, s1, xs, s2, ys, k, a, b) && a < b
    requires SpliceEffect(h, r, Pos(s1, xs, k), ys[a], Pos(s2, ys, b), Before(s1, xs, k), Before(s2, ys, a), ys[b - 1])
    ensures var zs := xs[..k] + ys[a..b] + xs[k..];
            forall i :: k <= i < k + (b - a) ==> r[zs[i]] == Link(PrevOf(s1, zs, i), NextOf(s1, zs, i))
  {
    var zs := xs[..k] + ys[a..b] + xs[k..];
    var m := b - a;
    var pos, first, last := Pos(s1, xs, k), ys[a], Pos(s2, ys, b);
    var p, f, l := Before(s1, xs, k), Before(s2, ys, a), ys[b - 1];
    forall i | k <= i < k + m ensures r[zs[i]] == Link(PrevOf(s1, zs, i), NextOf(s1, zs, i)) {
      var j := a + i - k;
      assert zs[i] == ys[j];
      assert h[ys[j]] == Link(PrevOf(s2, ys, j), NextOf(s2, ys, j));
      assert ys[j] != pos && ys[j] != last && ys[j] != p && ys[j] != f;
      if i > k { assert zs[i - 1] == ys[j - 1]; } else if k > 0 { assert zs[i - 1] == xs[k - 1]; }
      if i + 1 < k + m { assert zs[i + 1] == ys[j + 1]; } else if k < |xs| { assert zs[i + 1] == xs[k]; }
    }
  }

  /** `SpliceTarget` for `pos` and the elements after it. */
  lemma SpliceTargetSuffix(h: Heap, r: Heap, s1: NodeId, xs: seq<NodeId>, s2: NodeId, ys: seq<NodeId>, k: nat, a: nat, b: nat)
    requires SpliceArgs(h, s1, xs, s2, ys, k, a, b) && a < b
    requires SpliceEffect(h, r, Pos(s1, xs, k), ys[a], Pos(s2, ys, b), Before(s1, xs, k), Before(s2, ys, a), ys[b - 1])
    ensures var zs := xs[..k] + ys[a..b] + xs[k..];
            forall i :: k + (b - a) <= i < |zs| ==> r[zs[i]] == Link(PrevOf(s1, zs, i), NextOf(s1, zs, i))
  {
    var zs := xs[..k] + ys[a..b] + xs[k..];
    var m := b - a;
    var pos, first, last := Pos(s1, xs, k), ys[a], Pos(s2, ys, b);
    var p, f, l := Before(s1, xs, k), Before(s2, ys, a), ys[b - 1];
    forall i | k + m <= i < |zs| ensures r[zs[i]] == Link(PrevOf(s1, zs, i), NextOf(s1, zs, i)) {
      var j := i - m;
      assert zs[i] == xs[j];
      assert h[xs[j]] == Link(PrevOf(s1, xs, j), NextOf(s1, xs, j));
      assert xs[j] != first && xs[j] != last && xs[j] != p && xs[j] != f && xs[j] != l;
      if i > k + m { assert zs[i - 1] == xs[j - 1]; } else { assert zs[i - 1] == ys[b - 1]; }
      if j + 1 < |xs| { assert zs[i + 1] == xs[j + 1]; }
    }
  }

  /** After `splice`, the source ring closes over the gap the range left. */
  lemma SpliceSource(h: Heap, r: Heap, s1: NodeId, xs: seq<NodeId>, s2: NodeId, ys: seq<NodeId>, k: nat, a: nat, b: nat)
    requires SpliceArgs(h, s1, xs, s2, ys, k, a, b) && a < b
    requires SpliceEffect(h, r, Pos(s1, xs, k), ys[a], Pos(s2, ys, b), Before(s1, xs, k), Before(s2, ys, a), ys[b - 1])
    ensures var ws := ys[..a] + ys[b..];
            && (forall i :: 0 <= i < |ws| ==> r[ws[i]] == Link(PrevOf(s2, ws, i), NextOf(s2, ws, i)))
            && r[s2] == Link(Last(s2, ws), Pos(s2, ws, 0))
  {
    var ws := ys[..a] + ys[b..];
    var m := b - a;
    var pos, first, last := Pos(s1, xs, k), ys[a], Pos(s2, ys, b);
    var p, f, l := Before(s1, xs, k), Before(s2, ys, a), ys[b - 1];
    forall i | 0 <= i < |ws| ensures r[ws[i]] == Link(PrevOf(s2, ws, i), NextOf(s2, ws, i)) {
      if i < a {
        assert ws[i] == ys[i];
        assert h[ys[i]] == Link(PrevOf(s2, ys, i), NextOf(s2, ys, i));
        assert ys[i] != first && ys[i] != pos && ys[i] != last && ys[i] != p && ys[i] != l;
        if i + 1 < a { assert ws[i + 1] == ys[i + 1]; }
        if i + 1 == a && b < |ys| { assert ws[i + 1] == ys[b]; }
      } else {
        var j := i + m;
        assert ws[i] == ys[j];
        assert h[ys[j]] == Link(PrevOf(s2, ys, j), NextOf(s2, ys, j));
        assert ys[j] != first && ys[j] != pos && ys[j] != p && ys[j] != f && ys[j] != l;
        if i > a { assert ws[i - 1] == ys[j - 1]; }
        if i + 1 < |ws| { assert ws[i + 1] == ys[j + 1]; }
      }
    }
    if b < |ys| {
      assert ws[|ws| - 1] == ys[|ys| - 1];
    } else if a > 0 {
      assert ws[|ws| - 1] == ys[a - 1];
    }
    if a > 0 {
      assert ws[0] == ys[0];
    } else if b < |ys| {
      assert ws[0] == ys[b];
    }
  }

  /**
    `splice(pos, l, first, last)`: nothing when `first == last`; otherwise the
    range `[first, last)` of `l` moves, in order, in front of `pos`, `l` keeps
    the rest in order, and no node outside the two lists changes.
   */
  lemma SpliceRing(h: Heap, s1: NodeId, xs: seq<NodeId>, s2: NodeId, ys: seq<NodeId>, k: nat, a: nat, b: nat)
    requires SpliceArgs(h, s1, xs, s2, ys, k, a, b)
    ensures a == b ==> Splice(h, Pos(s1, xs, k), Pos(s2, ys, a), Pos(s2, ys, b)) == h
    ensures Ring(Splice(h, Pos(s1, xs, k), Pos(s2, ys, a), Pos(s2, ys, b)), s1, xs[..k] + ys[a..b] + xs[k..])
    ensures Ring(Splice(h, Pos(s1, xs, k), Pos(s2, ys, a), Pos(s2, ys, b)), s2, ys[..a] + ys[b..])
    ensures Outside2(h, Splice(h, Pos(s1, xs, k), Pos(s2, ys, a), Pos(s2, ys, b)), s1, xs, s2, ys)
  {
    if a == b {
      assert xs[..k] + ys[a..b] + xs[k..] == xs;
      assert ys[..a] + ys[b..] == ys;
    } else {
      var r := Splice(h, Pos(s1, xs, k), ys[a], Pos(s2, ys, b));
      SpliceFields(h, s1, xs, s2, ys, k, a, b);
      SpliceRingTarget(h, r, s1, xs, s2, ys, k, a, b);
      SpliceRingSource(h, r, s1, xs, s2, ys, k, a, b);
      SpliceOutside(h, r, s1, xs, s2, ys, k, a, b);
    }
  }

  /** The target half of `SpliceRing` on a non-empty range. */
  lemma SpliceRingTarget(h: Heap, r: Heap, s1: NodeId, xs: seq<NodeId>, s2: NodeId, ys: seq<NodeId>, k: nat, a: nat, b: nat)
    requires SpliceArgs(h, s1, xs, s2, ys, k, a, b) && a < b
    requires SpliceEffect(h, r, Pos(s1, xs, k), ys[a], Pos(s2, ys, b), Before(s1, xs, k), Before(s2, ys, a), ys[b - 1])
    ensures Ring(r, s1, xs[..k] + ys[a..b] + xs[k..])
  {
    var zs := xs[..k] + ys[a..b] + xs[k..];
    SpliceTarget(h, r, s1, xs, s2, ys, k, a, b);
    SpliceDistinct(s1, xs, s2, ys, k, a, b);
    SpliceBounds(|h|, xs, ys, k, a, b);
  }

  /** Every node `splice` leaves in either sequence is one of the heap's. */
  lemma SpliceBounds(n: nat, xs: seq<NodeId>, ys: seq<NodeId>, k: nat, a: nat, b: nat)
    requires k <= |xs| && a <= b <= |ys|
    requires (forall i :: 0 <= i < |xs| ==> xs[i] < n) && (forall i :: 0 <= i < |ys| ==> ys[i] < n)
    ensures var zs := xs[..k] + ys[a..b] + xs[k..]; forall i :: 0 <= i < |zs| ==> zs[i] < n
    ensures var ws := ys[..a] + ys[b..]; forall i :: 0 <= i < |ws| ==> ws[i] < n
  {
    var zs := xs[..k] + ys[a..b] + xs[k..];
    forall i | 0 <= i < |zs| ensures zs[i] < n {
      if k <= i < k + (b - a) { assert zs[i] == ys[a + i - k]; }
      else if i < k { assert zs[i] == xs[i]; }
      else { assert zs[i] == xs[i - (b - a)]; }
    }
    var ws := ys[..a] + ys[b..];
    forall i | 0 <= i < |ws| ensures ws[i] < n {
      if i < a { assert ws[i] == ys[i]; } else { assert ws[i] == ys[i + (b - a)]; }
    }
  }

  /** The source half of `SpliceRing` on a non-empty range. */
  lemma SpliceRingSource(h: Heap, r: Heap, s1: NodeId, xs: seq<NodeId>, s2: NodeId, ys: seq<NodeId>, k: nat, a: nat, b: nat)
    requires SpliceArgs(h, s1, xs, s2, ys, k, a, b) && a < b
    requires SpliceEffect(h, r, Pos(s1, xs, k), ys[a], Pos(s2, ys, b), Before(s1, xs, k), Before(s2, ys, a), ys[b - 1])
    ensures Ring(r, s2, ys[..a] + ys[b..])
  {
    var ws := ys[..a] + ys[b..];
    SpliceSource(h, r, s1, xs, s2, ys, k, a, b);
    SpliceDistinct(s1, xs, s2, ys, k, a, b);
    SpliceBounds(|h|, xs, ys, k, a, b);
  }

  /** `splice` touches only nodes of the two rings. */
  lemma SpliceOutside(h: Heap, r: Heap, s1: NodeId, xs: seq<NodeId>, s2: NodeId, ys: seq<NodeId>, k: nat, a: nat, b: nat)
    requires SpliceArgs(h, s1, xs, s2, ys, k, a, b) && a < b
    requires SpliceEffect(h, r, Pos(s1, xs, k), ys[a], Pos(s2, ys, b), Before(s1, xs, k), Before(s2, ys, a), ys[b - 1])
    ensures Outside2(h, r, s1, xs, s2, ys)
  {
    var pos, first, last := Pos(s1, xs, k), ys[a], Pos(s2, ys, b);
    var p, f, l := Before(s1, xs, k), Before(s2, ys, a), ys[b - 1];
    assert pos == s1 || pos in xs;
    assert p == s1 || p in xs;
    assert last == s2 || last in ys;
    assert f == s2 || f in ys;
    assert first in ys && l in ys;
  }

  /** The sequences `splice` produces repeat no node and keep the sentinels out. */
  lemma SpliceDistinct(s1: NodeId, xs: seq<NodeId>, s2: NodeId, ys: seq<NodeId>, k: nat, a: nat, b: nat)
    requires Distinct(xs) && Distinct(ys) && Disjoint(s1, xs, s2, ys) && s1 !in xs && s2 !in ys
    requires k <= |xs| && a <= b <= |ys|
    ensures Distinct(xs[..k] + ys[a..b] + xs[k..]) && s1 !in xs[..k] + ys[a..b] + xs[k..]
    ensures Distinct(ys[..a] + ys[b..]) && s2 !in ys[..a] + ys[b..]
  {
    var zs := xs[..k] + ys[a..b] + xs[k..];
    var m := b - a;
    forall i, j | 0 <= i < j < |zs| ensures zs[i] != zs[j] {
      var vi := if i < k then xs[i] else if i < k + m then ys[a + i - k] else xs[i - m];
      var vj := if j < k then xs[j] else if j < k + m then ys[a + j - k] else xs[j - m];
      assert zs[i] == vi && zs[j] == vj;
      assert vi in xs ==> vi !in ys;
      assert vj in xs ==> vj !in ys;
    }
    forall i | 0 <= i < |zs| ensures zs[i] != s1 {
      if k <= i < k + m { assert zs[i] == ys[a + i - k]; } else if i < k { assert zs[i] == xs[i]; } else { assert zs[i] == xs[i - m]; }
    }
    var ws := ys[..a] + ys[b..];
    forall i, j | 0 <= i < j < |ws| ensures ws[i] != ws[j] {
      var vi := if i < a then i else i + m;
      var vj := if j < a then j else j + m;
      assert ws[i] == ys[vi] && ws[j] == ys[vj];
    }
    forall i | 0 <= i < |ws| ensures ws[i] != s2 {
      if i < a { assert ws[i] == ys[i]; } else { assert ws[i] == ys[i + m]; }
    }
  }
}
