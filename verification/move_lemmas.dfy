/**
  What moving a connection does to the signal's list and to the cursors of
  running emissions: the moved-to connection takes the moved-from one's
  place in the list, and every cursor on the moved-from connection follows
  it.
 */
module MoveLemmas {
  import opened IntrusiveList
  import opened ListLemmas
  import opened ListOps
  import opened Signals
  import opened SignalLemmas

  /**
    The pointer work of `safe_move`: inserting `dst` before the `k`-th
    element and unlinking that element puts `dst` in its place, and every
    other object stays unlinked.
   */
  lemma SafeMoveHeap(h: Heap, s: NodeId, xs: seq<NodeId>, k: nat, dst: NodeId)
    requires Closed(h) && Ring(h, s, xs) && UnlinkedExcept(h, s, xs) && k < |xs|
    requires dst < |h| && dst != s && dst !in xs
    ensures var r := Unlink(Insert(h, AsIterator(xs[k]), dst).0, xs[k]);
            && Ring(r, s, xs[..k] + [dst] + xs[k + 1..])
            && UnlinkedExcept(r, s, xs[..k] + [dst] + xs[k + 1..])
  {
    var h1 := SafeMoveInsert(h, s, xs, k, dst);
    var zs := xs[..k] + [dst] + xs[k..];
    CutAround(xs, k, dst);
    UnlinkRing(h1, s, zs, k + 1);
    SafeMoveUnlinked(h, h1, Unlink(h1, xs[k]), s, xs, k, dst);
  }

  /** The insertion step of `safe_move`: `dst` goes in front of the `k`-th element. */
  lemma SafeMoveInsert(h: Heap, s: NodeId, xs: seq<NodeId>, k: nat, dst: NodeId) returns (h1: Heap)
    requires Closed(h) && Ring(h, s, xs) && k < |xs| && dst < |h| && dst != s && dst !in xs
    ensures h1 == Insert(h, AsIterator(xs[k]), dst).0 && Closed(h1)
    ensures Ring(h1, s, xs[..k] + [dst] + xs[k..]) && Outside(h, h1, s, xs + [dst])
  {
    InsertRing(h, s, xs, k, dst);
    h1 := Insert(h, Pos(s, xs, k), dst).0;
  }

  /** After inserting `dst` at `k`, the old `k`-th element sits at `k + 1`, and cutting it out leaves `dst` in its place. */
  lemma CutAround(xs: seq<NodeId>, k: nat, dst: NodeId)
    requires k < |xs|
    ensures var zs := xs[..k] + [dst] + xs[k..];
            zs[k + 1] == xs[k] && zs[..k + 1] + zs[k + 2..] == xs[..k] + [dst] + xs[k + 1..]
  {
    var zs := xs[..k] + [dst] + xs[k..];
    assert zs[..k + 1] == xs[..k] + [dst];
    assert zs[k + 2..] == xs[k + 1..];
  }

  /** The objects `safe_move` leaves unlinked. */
  lemma SafeMoveUnlinked(h: Heap, h1: Heap, r: Heap, s: NodeId, xs: seq<NodeId>, k: nat, dst: NodeId)
    requires UnlinkedExcept(h, s, xs) && k < |xs| && dst !in xs && Distinct(xs)
    requires Outside(h, h1, s, xs + [dst]) && Outside(h1, r, s, xs[..k] + [dst] + xs[k..])
    requires xs[k] < |r| && r[xs[k]] == Link(xs[k], xs[k])
    ensures UnlinkedExcept(r, s, xs[..k] + [dst] + xs[k + 1..])
  {
    var ys := xs[..k] + [dst] + xs[k + 1..];
    forall y | 0 <= y < |r| && y != s && y !in ys ensures r[y] == Link(y, y) {
      if y != xs[k] {
        assert y !in xs by {
          forall i | 0 <= i < |xs| ensures xs[i] != y {
            if i < k { assert xs[i] == ys[i]; } else if i > k { assert xs[i] == ys[i]; }
          }
        }
        assert y !in xs + [dst];
        assert y !in xs[..k] + [dst] + xs[k..];
      }
    }
  }

  /**
    `safe_move(other)` into an unlinked, attached `dst` leaves the list with
    `dst` in `other`'s place, and moves exactly the cursors on the stack
    that designated `other` to `dst`.
   */
  lemma SafeMoveContents(st: Signal, xs: seq<NodeId>, dst: NodeId, other: NodeId)
    requires Shape(st, xs) && IsConnection(st, dst) && IsConnection(st, other) && dst != other && dst !in xs
    requires other in xs ==> st.conns[dst].attached
    ensures var r := SafeMove(st, dst, other);
            && Shape(r, Replace(xs, other, dst))
            && forall t :: 0 <= t < |st.toks| ==>
                 r.toks[t].current == if other in xs && t in st.top && st.toks[t].current == other
                                      then dst else st.toks[t].current
  {
    LinkedIff(st, xs, other);
    if other in xs {
      var k :| 0 <= k < |xs| && xs[k] == other;
      SafeMoveLinked(st, xs, k, dst);
      ReplaceAt(xs, k, dst);
    } else {
      ReplaceAbsent(xs, other, dst);
    }
  }

  /** `SafeMoveContents` for a linked `other`, at position `k`. */
  lemma SafeMoveLinked(st: Signal, xs: seq<NodeId>, k: nat, dst: NodeId)
    requires Shape(st, xs) && k < |xs| && IsConnection(st, dst) && dst !in xs && st.conns[dst].attached
    ensures IsLinked(st.heap, xs[k])
    ensures Shape(SafeMove(st, dst, xs[k]), xs[..k] + [dst] + xs[k + 1..])
  {
    LinkedIff(st, xs, xs[k]);
    var r := SafeMove(st, dst, xs[k]);
    assert r.heap == Unlink(Insert(st.heap, AsIterator(xs[k]), dst).0, xs[k]);
    SafeMoveHeap(st.heap, st.fake, xs, k, dst);
    AttachedInPlace(st.conns, xs, k, dst);
  }

  /** Listed connections stay attached when an attached `dst` takes the `k`-th place. */
  lemma AttachedInPlace(conns: seq<Connection>, xs: seq<NodeId>, k: nat, dst: NodeId)
    requires k < |xs| && dst < |conns| && conns[dst].attached
    requires forall i :: 0 <= i < |xs| ==> xs[i] < |conns| && conns[xs[i]].attached
    ensures var ys := xs[..k] + [dst] + xs[k + 1..];
            forall i :: 0 <= i < |ys| ==> ys[i] < |conns| && conns[ys[i]].attached
  {
    var ys := xs[..k] + [dst] + xs[k + 1..];
    forall i | 0 <= i < |ys| ensures ys[i] < |conns| && conns[ys[i]].attached {
      if i < k { assert ys[i] == xs[i]; } else if i > k { assert ys[i] == xs[i]; }
    }
  }

  /** Corrected or not, `safe_move` keeps the invariant. */
  lemma SafeMoveInv(st: Signal, xs: seq<NodeId>, dst: NodeId, other: NodeId)
    requires InvOf(st, xs) && IsConnection(st, dst) && IsConnection(st, other) && dst != other && dst !in xs
    requires other in xs ==> st.conns[dst].attached
    ensures InvOf(SafeMove(st, dst, other), Replace(xs, other, dst))
  {
    SafeMoveContents(st, xs, dst, other);
    var r := SafeMove(st, dst, other);
    var ys := Replace(xs, other, dst);
    forall j | 0 <= j < |r.top| && r.toks[r.top[j]].attached
      ensures r.toks[r.top[j]].current == r.fake || r.toks[r.top[j]].current in ys
    {
      var t := r.top[j];
      var cur := st.toks[t].current;
      if cur != st.fake && !(other in xs && cur == other) {
        assert cur in xs;
        var i :| 0 <= i < |xs| && xs[i] == cur;
        assert ys[i] == cur;
      } else if cur == other {
        var i :| 0 <= i < |xs| && xs[i] == other;
        assert ys[i] == dst;
      }
    }
  }

  /** A signal keeps its shape when a fresh unlinked object is added to the heap. */
  lemma GrowShape(st: Signal, xs: seq<NodeId>, c: Connection)
    requires Shape(st, xs)
    ensures Shape(st.(heap := NewElement(st.heap), conns := st.conns + [c]), xs)
  {
    var h1 := NewElement(st.heap);
    RingFrame(st.heap, h1[..|st.heap|], st.fake, xs);
    RingGrow(st.heap, h1, st.fake, xs);
  }

  /**
    `connection(connection&& other)`: the new connection `n` takes
    `other`'s place in the list and `other`'s signal and slot, and every
    cursor on the stack that designated a linked `other` now designates `n`.
   */
  lemma MoveConstructContents(st: Signal, xs: seq<NodeId>, other: NodeId)
    requires Shape(st, xs) && IsConnection(st, other)
    ensures var (r, n) := Signals.MoveConstruct(st, other);
            && Shape(r, Replace(xs, other, n)) && r.conns[n] == st.conns[other]
            && forall t :: 0 <= t < |st.toks| ==>
                 r.toks[t].current == if other in xs && t in st.top && st.toks[t].current == other
                                      then n else st.toks[t].current
  {
    var st1 := MoveConstructGrow(st, xs, other);
    SafeMoveContents(st1, xs, |st.heap|, other);
  }

  /**
    The first stage of `connection(connection&& other)`: the new connection
    is a fresh unlinked object with `other`'s signal and slot, and the
    constructor is `safe_move` from it.
   */
  lemma MoveConstructGrow(st: Signal, xs: seq<NodeId>, other: NodeId) returns (st1: Signal)
    requires Shape(st, xs) && IsConnection(st, other)
    ensures st1 == st.(heap := NewElement(st.heap), conns := st.conns + [st.conns[other]])
    ensures Shape(st1, xs) && IsConnection(st1, |st.heap|) && IsConnection(st1, other) && |st.heap| != other
    ensures |st.heap| !in xs && (other in xs ==> st1.conns[|st.heap|].attached)
    ensures Signals.MoveConstruct(st, other) == (SafeMove(st1, |st.heap|, other), |st.heap|)
  {
    var n := |st.heap|;
    st1 := st.(heap := NewElement(st.heap), conns := st.conns + [st.conns[other]]);
    GrowShape(st, xs, st.conns[other]);
    assert n !in xs;
    if other in xs {
      var k :| 0 <= k < |xs| && xs[k] == other;
    }
  }

  /** Corrected or not, moving a connection into a new one keeps the invariant. */
  lemma MoveConstructInv(st: Signal, xs: seq<NodeId>, other: NodeId)
    requires InvOf(st, xs) && IsConnection(st, other)
    ensures var (r, n) := Signals.MoveConstruct(st, other);
            InvOf(r, Replace(xs, other, n))
  {
    var st1 := MoveConstructGrow(st, xs, other);
    SafeMoveInv(st1, xs, |st.heap|, other);
  }

  /**
    `operator=(connection&& other)` with `dst != other`: `dst` is
    disconnected and then takes `other`'s place, so the list loses `dst`
    and has `dst` where `other` was; in either build.
   */
  lemma MoveAssignContents(st: Signal, xs: seq<NodeId>, dst: NodeId, other: NodeId, build: Build)
    requires Shape(st, xs) && IsConnection(st, dst) && IsConnection(st, other) && dst != other
    ensures Shape(Signals.MoveAssign(st, dst, other, build), Replace(Remove(xs, dst), other, dst))
  {
    var st1 := Signals.Disconnect(st, dst, build);
    var xs1 := Remove(xs, dst);
    DisconnectContents(st, xs, dst, build);
    var st2 := MoveAssignFields(st1, xs1, dst, other);
    SafeMoveContents(st2, xs1, dst, other);
  }

  /**
    The field copy of move assignment: `dst` gets `other`'s `sig` and slot
    and `other`'s slot is emptied, which keeps the shape when `dst` is not
    listed.
   */
  lemma MoveAssignFields(st1: Signal, xs1: seq<NodeId>, dst: NodeId, other: NodeId) returns (st2: Signal)
    requires Shape(st1, xs1) && IsConnection(st1, dst) && IsConnection(st1, other) && dst != other && dst !in xs1
    ensures st2 == st1.(conns := st1.conns[dst := Connection(st1.conns[other].attached, st1.conns[other].slot)]
                                          [other := st1.conns[other].(slot := NoCallback)])
    ensures Shape(st2, xs1) && (other in xs1 ==> st2.conns[dst].attached)
  {
    var moved := st1.conns[other];
    st2 := st1.(conns := st1.conns[dst := Connection(moved.attached, moved.slot)][other := moved.(slot := NoCallback)]);
    forall i | 0 <= i < |xs1| ensures st2.conns[xs1[i]].attached {
      assert xs1[i] != dst;
    }
    if other in xs1 {
      var k :| 0 <= k < |xs1| && xs1[k] == other;
    }
  }

  /** Corrected, move assignment keeps the invariant. */
  lemma MoveAssignInv(st: Signal, xs: seq<NodeId>, dst: NodeId, other: NodeId)
    requires InvOf(st, xs) && IsConnection(st, dst) && IsConnection(st, other) && dst != other
    ensures InvOf(Signals.MoveAssign(st, dst, other, Corrected), Replace(Remove(xs, dst), other, dst))
  {
    var st1 := Signals.Disconnect(st, dst, Corrected);
    var xs1 := Remove(xs, dst);
    DisconnectInvRemove(st, xs, dst);
    var st2 := MoveAssignFields(st1, xs1, dst, other);
    SafeMoveInv(st2, xs1, dst, other);
  }

  /**
    Move assignment `xs[k] = std::move(other)` in two stages: `disconnect()`
    gives `st1`, and `safe_move` then moves to `xs[k]` exactly the stack
    cursors that `st1` has on a listed `other`.
   */
  lemma MoveAssignStages(st: Signal, xs: seq<NodeId>, k: nat, other: NodeId, build: Build) returns (st1: Signal)
    requires Shape(st, xs) && k < |xs| && IsConnection(st, other) && other != xs[k]
    ensures st1 == Signals.Disconnect(st, xs[k], build) && |st1.toks| == |st.toks|
    ensures var r := Signals.MoveAssign(st, xs[k], other, build);
            forall t :: 0 <= t < |st.toks| ==>
              r.toks[t].current == if other in xs && t in st.top && st1.toks[t].current == other
                                   then xs[k] else st1.toks[t].current
  {
    var dst := xs[k];
    st1 := Signals.Disconnect(st, dst, build);
    var ys := xs[..k] + xs[k + 1..];
    DisconnectShape(st, xs, k, build);
    CutMembers(xs, k);
    MoveAssignAfterDisconnect(st, st1, ys, dst, other, build);
  }

  /** The `safe_move` half of move assignment, once `dst` is out of the list `ys`. */
  lemma MoveAssignAfterDisconnect(st: Signal, st1: Signal, ys: seq<NodeId>, dst: NodeId, other: NodeId, build: Build)
    requires WF(st) && IsConnection(st, dst) && IsConnection(st, other) && dst != other
    requires st1 == Signals.Disconnect(st, dst, build) && Shape(st1, ys) && dst !in ys
    ensures var r := Signals.MoveAssign(st, dst, other, build);
            forall t :: 0 <= t < |st.toks| ==>
              r.toks[t].current == if other in ys && t in st.top && st1.toks[t].current == other
                                   then dst else st1.toks[t].current
  {
    var st2 := MoveAssignFields(st1, ys, dst, other);
    SafeMoveContents(st2, ys, dst, other);
  }

  /** Cutting the `k`-th element out of a list without repetitions removes exactly that element. */
  lemma CutMembers(xs: seq<NodeId>, k: nat)
    requires Distinct(xs) && k < |xs|
    ensures forall y :: y in xs[..k] + xs[k + 1..] <==> y in xs && y != xs[k]
  {
    var head, tail := xs[..k], xs[k + 1..];
    assert xs == head + [xs[k]] + tail;
    forall i | 0 <= i < |head| ensures head[i] != xs[k] {
      assert head[i] == xs[i];
    }
    forall i | 0 <= i < |tail| ensures tail[i] != xs[k] {
      assert tail[i] == xs[k + 1 + i];
    }
  }

  /**
    As written, move assignment `xs[k] = std::move(other)` moves only the
    cursors on `other`, to `xs[k]`: `disconnect()` moves nothing, so a
    cursor on `xs[k]` stays there and now designates `other`'s old place.
   */
  lemma MoveAssignAsWrittenCursors(st: Signal, xs: seq<NodeId>, k: nat, other: NodeId)
    requires Shape(st, xs) && k < |xs| && IsConnection(st, other) && other != xs[k]
    ensures var r := Signals.MoveAssign(st, xs[k], other, AsWritten);
            forall t :: 0 <= t < |st.toks| ==>
              r.toks[t].current == if other in xs && t in st.top && st.toks[t].current == other
                                   then xs[k] else st.toks[t].current
  {
    var st1 := MoveAssignStages(st, xs, k, other, AsWritten);
    DisconnectAsWrittenCursors(st, xs, k);
  }

  /**
    Corrected, move assignment `xs[k] = std::move(other)` sends a cursor on
    `xs[k]` to its successor, and a cursor on `other` (or on `xs[k]` whose
    successor is `other`) to `xs[k]`.
   */
  lemma MoveAssignCorrectedCursors(st: Signal, xs: seq<NodeId>, k: nat, other: NodeId)
    requires Shape(st, xs) && k < |xs| && IsConnection(st, other) && other != xs[k]
    ensures var r := Signals.MoveAssign(st, xs[k], other, Corrected);
            var next := Pos(st.fake, xs, k + 1);
            forall t :: 0 <= t < |st.toks| ==>
              r.toks[t].current ==
                if other in xs && t in st.top && (st.toks[t].current == other || (st.toks[t].current == xs[k] && next == other))
                then xs[k]
                else if t in st.top && st.toks[t].current == xs[k] then next
                else st.toks[t].current
  {
    var st1 := MoveAssignStages(st, xs, k, other, Corrected);
    DisconnectCorrectedCursors(st, xs, k);
  }

  /**
    Move assignment into an unlisted `dst`: `disconnect()` does nothing, so
    in either build exactly the cursors on a listed `other` move, to `dst`.
   */
  lemma MoveAssignUnlinkedCursors(st: Signal, xs: seq<NodeId>, dst: NodeId, other: NodeId, build: Build)
    requires Shape(st, xs) && IsConnection(st, dst) && IsConnection(st, other) && dst != other && dst !in xs
    ensures var r := Signals.MoveAssign(st, dst, other, build);
            forall t :: 0 <= t < |st.toks| ==>
              r.toks[t].current == if other in xs && t in st.top && st.toks[t].current == other
                                   then dst else st.toks[t].current
  {
    DisconnectUnlinked(st, xs, dst, build);
    var st2 := MoveAssignFields(st, xs, dst, other);
    SafeMoveContents(st2, xs, dst, other);
  }

  /** Corrected, `disconnect` keeps the invariant with contents `Remove(xs, c)`. */
  lemma DisconnectInvRemove(st: Signal, xs: seq<NodeId>, c: NodeId)
    requires InvOf(st, xs) && IsConnection(st, c)
    ensures InvOf(Signals.Disconnect(st, c, Corrected), Remove(xs, c))
  {
    RemoveAt(xs, c);
    DisconnectInv(st, xs, c);
    if c in xs {
      var k :| 0 <= k < |xs| && xs[k] == c;
    }
  }
}
