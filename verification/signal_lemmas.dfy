/**
  What the signal operations of module Signals do to the connection list
  and to the cursors of running emissions.

  `Shape(st, xs)` says the signal's list holds the connections `xs` in
  order, every other object is unlinked, every listed connection points
  back to the signal, and a destroyed signal has an empty list.  Both
  builds keep it.  `Cursors` says every attached token on the stack
  designates a listed connection or `end()`, and `Detached` says a
  destroyed signal has no attached token left on its stack: the
  corrected build keeps them, and the build as written breaks each.
 */
module SignalLemmas {
  import opened IntrusiveList
  import opened ListLemmas
  import opened ListOps
  import opened Signals

  ghost predicate Shape(st: Signal, xs: seq<NodeId>) {
    && WF(st)
    && Ring(st.heap, st.fake, xs)
    && UnlinkedExcept(st.heap, st.fake, xs)
    && (forall i :: 0 <= i < |xs| ==> st.conns[xs[i]].attached)
    && (!st.alive ==> xs == [])
  }

  /** Every attached token on the stack designates a listed connection or `end()`. */
  ghost predicate Cursors(st: Signal, xs: seq<NodeId>)
    requires WF(st)
  {
    forall j :: 0 <= j < |st.top| && st.toks[st.top[j]].attached ==>
      st.toks[st.top[j]].current == st.fake || st.toks[st.top[j]].current in xs
  }

  /** A destroyed signal has no attached token on its stack. */
  ghost predicate Detached(st: Signal)
    requires WF(st)
  {
    !st.alive ==> forall j :: 0 <= j < |st.top| ==> !st.toks[st.top[j]].attached
  }

  /** The invariant the corrected build keeps, with list contents `xs`. */
  ghost predicate InvOf(st: Signal, xs: seq<NodeId>) {
    Shape(st, xs) && Cursors(st, xs) && Detached(st)
  }

  // ---------------------------------------------------------------------
  // Basic facts
  // ---------------------------------------------------------------------

  /** The identities below `n`. */
  ghost function Ids(n: nat): (r: set<NodeId>)
    ensures |r| == n
    ensures forall y: nat :: y in r <==> y < n
  {
    if n == 0 then {}
    else
      var b := Ids(n - 1);
      assert n - 1 !in b;
      b + {n - 1}
  }

  /** The entries of a sequence, as a set. */
  ghost function Entries(xs: seq<NodeId>): set<NodeId> {
    set i | 0 <= i < |xs| :: xs[i]
  }

  /** A sequence without repetitions has as many distinct entries as positions. */
  lemma {:induction false} DistinctCard(xs: seq<NodeId>)
    requires Distinct(xs)
    ensures |Entries(xs)| == |xs|
  {
    if xs != [] {
      var ys := xs[..|xs| - 1];
      DistinctCard(ys);
      var last := xs[|xs| - 1];
      assert Entries(xs) == Entries(ys) + {last};
      assert last !in Entries(ys);
    }
  }

  /** A list never holds more elements than the heap has objects besides its sentinel. */
  lemma RingBound(h: Heap, s: NodeId, xs: seq<NodeId>)
    requires Ring(h, s, xs)
    ensures |xs| < |h|
  {
    DistinctCard(xs);
    var e, b := Entries(xs) + {s}, Ids(|h|);
    assert s !in Entries(xs);
    assert |e| == |xs| + 1;
    assert e <= b;
    assert b == e + (b - e) && e * (b - e) == {};
  }

  /** In a well-shaped signal, a connection is linked exactly when it is listed. */
  lemma LinkedIff(st: Signal, xs: seq<NodeId>, c: NodeId)
    requires Shape(st, xs) && IsConnection(st, c)
    ensures IsLinked(st.heap, c) <==> c in xs
  {
    if c in xs {
      var k :| 0 <= k < |xs| && xs[k] == c;
      assert st.heap[c] == Link(PrevOf(st.fake, xs, k), NextOf(st.fake, xs, k));
    }
  }

  /** A node that points to itself is in no ring but its own. */
  lemma SelfLoopNotInRing(h: Heap, s: NodeId, xs: seq<NodeId>, c: NodeId)
    requires Ring(h, s, xs) && c < |h| && c != s && h[c] == Link(c, c)
    ensures c !in xs
  {
    forall k | 0 <= k < |xs| ensures xs[k] != c {
      assert h[xs[k]] == Link(PrevOf(s, xs, k), NextOf(s, xs, k));
    }
  }

  /** A new signal is empty and keeps the invariant. */
  lemma NewSignalInv()
    ensures InvOf(NewSignal(), [])
  {
  }

  /** The invariant survives replacing the stack by one whose tokens were all on it. */
  lemma InvSubStack(st: Signal, xs: seq<NodeId>, top': seq<TokId>)
    requires InvOf(st, xs) && forall j :: 0 <= j < |top'| ==> top'[j] in st.top
    ensures InvOf(st.(top := top'), xs)
  {
    var st' := st.(top := top');
    forall j | 0 <= j < |top'| ensures top'[j] < |st.toks| {
      var i :| 0 <= i < |st.top| && st.top[i] == top'[j];
    }
    forall j | 0 <= j < |top'| && st'.toks[top'[j]].attached
      ensures st'.toks[top'[j]].current == st.fake || st'.toks[top'[j]].current in xs
    {
      var i :| 0 <= i < |st.top| && st.top[i] == top'[j];
    }
    if !st.alive {
      forall j | 0 <= j < |top'| ensures !st'.toks[top'[j]].attached {
        var i :| 0 <= i < |st.top| && st.top[i] == top'[j];
      }
    }
  }

  /**
    Unlinking the `k`-th element of a list whose other objects are all
    unlinked leaves the list without it and, again, every other object
    unlinked.
   */
  lemma UnlinkShapeHeap(h: Heap, s: NodeId, xs: seq<NodeId>, k: nat)
    requires Closed(h) && Ring(h, s, xs) && UnlinkedExcept(h, s, xs) && k < |xs|
    ensures Ring(Unlink(h, xs[k]), s, xs[..k] + xs[k + 1..])
    ensures UnlinkedExcept(Unlink(h, xs[k]), s, xs[..k] + xs[k + 1..])
  {
    var r, ys := Unlink(h, xs[k]), xs[..k] + xs[k + 1..];
    UnlinkRing(h, s, xs, k);
    DistinctRemove(xs, k);
    forall y | 0 <= y < |r| && y != s && y !in ys ensures r[y] == Link(y, y) {
      if y != xs[k] {
        assert y !in xs;
      }
    }
  }

  /** Listed connections stay attached when only a connection outside the new list changes. */
  lemma AttachedKept(conns: seq<Connection>, conns': seq<Connection>, xs: seq<NodeId>, ys: seq<NodeId>, c: NodeId)
    requires |conns'| == |conns| && forall i :: 0 <= i < |xs| ==> xs[i] < |conns| && conns[xs[i]].attached
    requires forall y :: 0 <= y < |conns| && y != c ==> conns'[y] == conns[y]
    requires forall y :: y in ys ==> y in xs && y != c
    ensures forall i :: 0 <= i < |ys| ==> ys[i] < |conns'| && conns'[ys[i]].attached
  {
    forall i | 0 <= i < |ys| ensures ys[i] < |conns'| && conns'[ys[i]].attached {
      assert ys[i] in xs;
      var j :| 0 <= j < |xs| && xs[j] == ys[i];
    }
  }

  // ---------------------------------------------------------------------
  // connect
  // ---------------------------------------------------------------------

  /**
    `connect` puts the new connection at the front of the list, so a later
    emission reaches it first; no token moves, and the invariant is kept.
   */
  lemma ConnectShape(st: Signal, xs: seq<NodeId>, slot: Callback)
    requires Shape(st, xs) && st.alive
    ensures var (r, n) := Signals.Connect(st, slot);
            && Shape(r, [n] + xs) && r.conns[n] == Connection(true, slot)
            && (Cursors(st, xs) ==> Cursors(r, [n] + xs))
            && (Detached(st) ==> Detached(r))
  {
    var (r, n) := Signals.Connect(st, slot);
    var h1 := NewElement(st.heap);
    RingFrame(st.heap, h1[..|st.heap|], st.fake, xs);
    RingGrow(st.heap, h1, st.fake, xs);
    assert n !in xs;
    PushFrontRing(h1, st.fake, xs, n);
    forall y | 0 <= y < |r.heap| && y != st.fake && y !in [n] + xs ensures r.heap[y] == Link(y, y) {
      assert y !in xs && y != n && r.heap[y] == h1[y];
    }
    forall i | 0 <= i < |[n] + xs| ensures r.conns[([n] + xs)[i]].attached {
      if i > 0 { assert ([n] + xs)[i] == xs[i - 1]; }
    }
  }

  // ---------------------------------------------------------------------
  // disconnect
  // ---------------------------------------------------------------------

  /** `disconnect` on a connection that is not linked changes nothing, in either build. */
  lemma DisconnectUnlinked(st: Signal, xs: seq<NodeId>, c: NodeId, build: Build)
    requires Shape(st, xs) && IsConnection(st, c) && c !in xs
    ensures Signals.Disconnect(st, c, build) == st
  {
    LinkedIff(st, xs, c);
  }

  /**
    `disconnect` on the `k`-th connection removes exactly it from the list,
    keeps the others in order, empties its slot and nulls its `sig`, in
    either build.
   */
  lemma DisconnectShape(st: Signal, xs: seq<NodeId>, k: nat, build: Build)
    requires Shape(st, xs) && k < |xs|
    ensures var r := Signals.Disconnect(st, xs[k], build);
            && Shape(r, xs[..k] + xs[k + 1..])
            && r.heap == Unlink(st.heap, xs[k])
            && r.conns == st.conns[xs[k] := Connection(false, NoCallback)]
  {
    var c := xs[k];
    var r := Signals.Disconnect(st, c, build);
    var ys := xs[..k] + xs[k + 1..];
    LinkedIff(st, xs, c);
    assert r.heap == Unlink(st.heap, c);
    UnlinkShapeHeap(st.heap, st.fake, xs, k);
    DistinctRemove(xs, k);
    AttachedKept(st.conns, r.conns, xs, ys, c);
  }

  /**
    As written, `disconnect` moves no cursor at all: `++` runs after
    `unlink`, so it reads the connection's own self-loop, and a token that
    designated the connection still designates it, although it is no
    longer in the list.
   */
  lemma DisconnectAsWrittenCursors(st: Signal, xs: seq<NodeId>, k: nat)
    requires Shape(st, xs) && k < |xs|
    ensures var r := Signals.Disconnect(st, xs[k], AsWritten);
            && r.toks == st.toks
            && r.heap[xs[k]] == Link(xs[k], xs[k])
            && forall ys :: Ring(r.heap, r.fake, ys) ==> xs[k] !in ys
  {
    var c := xs[k];
    LinkedIff(st, xs, c);
    var r := DisconnectAsWritten(st, c);
    RepointSelf(st.toks, st.top, st.fake, c, Inc(Unlink(st.heap, c), c));
    forall ys | Ring(r.heap, r.fake, ys) ensures c !in ys {
      SelfLoopNotInRing(r.heap, r.fake, ys, c);
    }
  }

  /** Repointing a cursor to where it already is changes no token. */
  lemma RepointSelf(toks: seq<Token>, chain: seq<TokId>, end: NodeId, from: NodeId, to: NodeId)
    requires forall j :: 0 <= j < |chain| ==> chain[j] < |toks|
    requires to == from
    ensures Repoint(toks, chain, end, from, to) == toks
  {
    var r := Repoint(toks, chain, end, from, to);
    forall t | 0 <= t < |toks| ensures r[t] == toks[t] {
    }
  }

  /**
    Corrected, `disconnect` of the `k`-th connection moves every token on
    the stack that designated it to its old successor, and no other token.
   */
  lemma DisconnectCorrectedCursors(st: Signal, xs: seq<NodeId>, k: nat)
    requires Shape(st, xs) && k < |xs|
    ensures var r := Signals.Disconnect(st, xs[k], Corrected);
            forall t :: 0 <= t < |st.toks| ==>
              r.toks[t].current == if t in st.top && st.toks[t].current == xs[k]
                                   then Pos(st.fake, xs, k + 1) else st.toks[t].current
  {
    LinkedIff(st, xs, xs[k]);
    assert st.heap[xs[k]] == Link(PrevOf(st.fake, xs, k), NextOf(st.fake, xs, k));
  }

  /** Corrected, `disconnect` keeps the invariant. */
  lemma DisconnectInv(st: Signal, xs: seq<NodeId>, c: NodeId)
    requires InvOf(st, xs) && IsConnection(st, c)
    ensures c !in xs ==> InvOf(Signals.Disconnect(st, c, Corrected), xs)
    ensures forall k :: 0 <= k < |xs| && xs[k] == c ==>
              InvOf(Signals.Disconnect(st, c, Corrected), xs[..k] + xs[k + 1..])
  {
    if c !in xs {
      DisconnectUnlinked(st, xs, c, Corrected);
    } else {
      forall k | 0 <= k < |xs| && xs[k] == c
        ensures InvOf(Signals.Disconnect(st, c, Corrected), xs[..k] + xs[k + 1..])
      {
        DisconnectInvAt(st, xs, k);
      }
    }
  }

  /** `DisconnectInv` for the `k`-th connection. */
  lemma DisconnectInvAt(st: Signal, xs: seq<NodeId>, k: nat)
    requires InvOf(st, xs) && k < |xs|
    ensures InvOf(Signals.Disconnect(st, xs[k], Corrected), xs[..k] + xs[k + 1..])
  {
    var r := Signals.Disconnect(st, xs[k], Corrected);
    DisconnectShape(st, xs, k, Corrected);
    DisconnectCorrectedCursors(st, xs, k);
    CursorsAfterRemove(st, r, xs, k);
  }

  /**
    Removing the `k`-th connection keeps every cursor in the list when the
    tokens that designated it move to its successor and no other moves.
   */
  lemma CursorsAfterRemove(st: Signal, r: Signal, xs: seq<NodeId>, k: nat)
    requires WF(st) && WF(r) && Cursors(st, xs) && Distinct(xs) && k < |xs|
    requires r.top == st.top && r.fake == st.fake && |r.toks| == |st.toks|
    requires forall t :: 0 <= t < |st.toks| ==> r.toks[t].attached == st.toks[t].attached
    requires forall t :: 0 <= t < |st.toks| ==>
               r.toks[t].current == if t in st.top && st.toks[t].current == xs[k]
                                    then Pos(st.fake, xs, k + 1) else st.toks[t].current
    ensures Cursors(r, xs[..k] + xs[k + 1..])
  {
    var ys := xs[..k] + xs[k + 1..];
    forall j | 0 <= j < |r.top| && r.toks[r.top[j]].attached
      ensures r.toks[r.top[j]].current == r.fake || r.toks[r.top[j]].current in ys
    {
      var t := r.top[j];
      assert t in st.top;
      if st.toks[t].current == xs[k] {
        if k + 1 < |xs| { assert xs[k + 1] == ys[k]; }
      } else if st.toks[t].current != st.fake {
        assert st.toks[t].current in xs;
        var i :| 0 <= i < |xs| && xs[i] == st.toks[t].current;
        assert i != k;
        if i < k { assert ys[i] == xs[i]; } else { assert ys[i - 1] == xs[i]; }
      }
    }
  }

  // ---------------------------------------------------------------------
  // List contents, abstractly
  // ---------------------------------------------------------------------

  /** `xs` without `c`: the contents after `c` is disconnected. */
  function Remove(xs: seq<NodeId>, c: NodeId): (r: seq<NodeId>)
    ensures forall y :: y in r <==> y in xs && y != c
  {
    if xs == [] then []
    else (if xs[0] == c then [] else [xs[0]]) + Remove(xs[1..], c)
  }

  /** `xs` with `d` in the place of `c`: the contents after `d` takes over from `c`. */
  function Replace(xs: seq<NodeId>, c: NodeId, d: NodeId): (r: seq<NodeId>)
    ensures |r| == |xs|
    ensures forall i :: 0 <= i < |xs| ==> r[i] == if xs[i] == c then d else xs[i]
  {
    if xs == [] then []
    else [if xs[0] == c then d else xs[0]] + Replace(xs[1..], c, d)
  }

  /** Removing an entry that occurs once cuts it out at its position; removing an absent one does nothing. */
  lemma {:induction false} RemoveAt(xs: seq<NodeId>, c: NodeId)
    requires Distinct(xs)
    ensures c !in xs ==> Remove(xs, c) == xs
    ensures forall k :: 0 <= k < |xs| && xs[k] == c ==> Remove(xs, c) == xs[..k] + xs[k + 1..]
  {
    if xs != [] {
      assert Distinct(xs[1..]);
      RemoveAt(xs[1..], c);
      if xs[0] == c {
        assert c !in xs[1..];
      } else {
        forall k | 0 <= k < |xs| && xs[k] == c ensures Remove(xs, c) == xs[..k] + xs[k + 1..] {
          assert k > 0 && xs[1..][k - 1] == c;
          assert xs[..k] + xs[k + 1..] == [xs[0]] + (xs[1..][..k - 1] + xs[1..][k..]);
        }
      }
    }
  }

  /** Replacing an entry that occurs once puts the new one at its position. */
  lemma ReplaceAt(xs: seq<NodeId>, k: nat, d: NodeId)
    requires Distinct(xs) && k < |xs|
    ensures Replace(xs, xs[k], d) == xs[..k] + [d] + xs[k + 1..]
  {
    var r := Replace(xs, xs[k], d);
    var ys := xs[..k] + [d] + xs[k + 1..];
    assert |ys| == |xs|;
    forall i | 0 <= i < |xs| ensures r[i] == ys[i] {
      if i < k {
        assert xs[i] != xs[k];
        assert ys[i] == xs[i];
      } else if i > k {
        assert xs[k] != xs[i];
        assert ys[i] == xs[k + 1..][i - k - 1];
      }
    }
  }

  /** Replacing an absent entry changes nothing. */
  lemma ReplaceAbsent(xs: seq<NodeId>, c: NodeId, d: NodeId)
    requires c !in xs
    ensures Replace(xs, c, d) == xs
  {
  }

  /**
    `disconnect` leaves the list `Remove(xs, c)`, in either build, whether
    or not `c` was linked; its slot is empty afterwards when it was linked.
   */
  lemma DisconnectContents(st: Signal, xs: seq<NodeId>, c: NodeId, build: Build)
    requires Shape(st, xs) && IsConnection(st, c)
    ensures Shape(Signals.Disconnect(st, c, build), Remove(xs, c))
    ensures c in xs ==> Signals.Disconnect(st, c, build).conns[c] == Connection(false, NoCallback)
  {
    RemoveAt(xs, c);
    if c in xs {
      var k :| 0 <= k < |xs| && xs[k] == c;
      DisconnectShape(st, xs, k, build);
    } else {
      DisconnectUnlinked(st, xs, c, build);
    }
  }

  // ---------------------------------------------------------------------
  // ~signal
  // ---------------------------------------------------------------------

  /**
    The drain loop of `~signal()`, given at least as many rounds as the
    list is long, empties the list, unlinks each former element and clears
    its connection fields, and touches no other object.
   */
  lemma {:induction false} DrainRing(st: Signal, xs: seq<NodeId>, fuel: nat)
    requires WF(st) && Ring(st.heap, st.fake, xs) && |xs| <= fuel
    ensures var r := Drain(st, fuel);
            && Ring(r.heap, st.fake, []) && Outside(st.heap, r.heap, st.fake, xs)
            && (forall i :: 0 <= i < |xs| ==>
                  r.heap[xs[i]] == Link(xs[i], xs[i]) && r.conns[xs[i]] == Connection(false, NoCallback))
            && (forall y :: 0 <= y < |st.conns| && y !in xs ==> r.conns[y] == st.conns[y])
    decreases fuel
  {
    EmptyIff(st.heap, st.fake, xs);
    if xs != [] {
      var st1 := DrainFirst(st, xs, fuel);
      DrainRing(st1, xs[1..], fuel - 1);
      DrainStep(st, st1, Drain(st1, fuel - 1), xs);
    }
  }

  /** The first round of the drain loop on a non-empty list unlinks its front element. */
  lemma DrainFirst(st: Signal, xs: seq<NodeId>, fuel: nat) returns (st1: Signal)
    requires WF(st) && Ring(st.heap, st.fake, xs) && xs != [] && 0 < fuel
    ensures st1 == st.(heap := Unlink(st.heap, xs[0]), conns := st.conns[xs[0] := Connection(false, NoCallback)])
    ensures WF(st1) && Drain(st, fuel) == Drain(st1, fuel - 1)
    ensures Ring(st1.heap, st.fake, xs[1..]) && Outside(st.heap, st1.heap, st.fake, xs)
    ensures st1.heap[xs[0]] == Link(xs[0], xs[0])
  {
    EmptyIff(st.heap, st.fake, xs);
    StepRing(st.heap, st.fake, xs, 0);
    st1 := st.(heap := Unlink(st.heap, xs[0]), conns := st.conns[xs[0] := Connection(false, NoCallback)]);
    UnlinkRing(st.heap, st.fake, xs, 0);
    assert xs[..0] + xs[1..] == xs[1..];
  }

  /** Composes one round of the drain loop with the rest. */
  lemma DrainStep(st: Signal, st1: Signal, r: Signal, xs: seq<NodeId>)
    requires Distinct(xs) && xs != [] && st.fake !in xs && WF(st)
    requires forall i :: 0 <= i < |xs| ==> xs[i] < |st.heap|
    requires st1.heap == Unlink(st.heap, xs[0]) && st1.conns == st.conns[xs[0] := Connection(false, NoCallback)]
    requires Outside(st.heap, st1.heap, st.fake, xs) && st1.heap[xs[0]] == Link(xs[0], xs[0])
    requires |r.conns| == |st.conns| && Outside(st1.heap, r.heap, st.fake, xs[1..])
    requires forall i :: 0 <= i < |xs[1..]| ==>
               r.heap[xs[1..][i]] == Link(xs[1..][i], xs[1..][i]) && r.conns[xs[1..][i]] == Connection(false, NoCallback)
    requires forall y :: 0 <= y < |st1.conns| && y !in xs[1..] ==> r.conns[y] == st1.conns[y]
    ensures Outside(st.heap, r.heap, st.fake, xs)
    ensures forall i :: 0 <= i < |xs| ==>
              r.heap[xs[i]] == Link(xs[i], xs[i]) && r.conns[xs[i]] == Connection(false, NoCallback)
    ensures forall y :: 0 <= y < |st.conns| && y !in xs ==> r.conns[y] == st.conns[y]
  {
    assert xs[0] !in xs[1..];
    forall i | 0 < i < |xs| ensures r.heap[xs[i]] == Link(xs[i], xs[i]) && r.conns[xs[i]] == Connection(false, NoCallback) {
      assert xs[i] == xs[1..][i - 1];
    }
    forall y | 0 <= y < |st.heap| && y != st.fake && y !in xs ensures r.heap[y] == st.heap[y] {
      assert y !in xs[1..];
    }
  }

  /**
    `~signal()`, in either build, leaves an empty list with every former
    connection unlinked, its slot empty and its `sig` null, and a token's
    `sig` is nulled exactly when it is on the stack and the build detaches
    it: corrected every such token, as written only those whose cursor is
    not `end()`.
   */
  lemma DestroyShape(st: Signal, xs: seq<NodeId>, build: Build)
    requires Shape(st, xs)
    ensures var r := Signals.Destroy(st, build);
            && Shape(r, [])
            && (forall i :: 0 <= i < |xs| ==>
                  r.heap[xs[i]] == Link(xs[i], xs[i]) && r.conns[xs[i]] == Connection(false, NoCallback))
            && forall t :: 0 <= t < |st.toks| ==>
                 r.toks[t].attached == (st.toks[t].attached && !(t in st.top && (build == Corrected || st.toks[t].current != st.fake)))
  {
    var toks1 := Detach(st.toks, st.top, st.fake, build == Corrected);
    var st1 := st.(toks := toks1);
    RingBound(st.heap, st.fake, xs);
    DrainRing(st1, xs, |st.heap|);
    DrainedUnlinked(st.heap, Drain(st1, |st.heap|).heap, st.fake, xs);
  }

  /** After the drain, every object but the sentinel is unlinked. */
  lemma DrainedUnlinked(h: Heap, r: Heap, s: NodeId, xs: seq<NodeId>)
    requires UnlinkedExcept(h, s, xs) && Outside(h, r, s, xs)
    requires forall i :: 0 <= i < |xs| ==> xs[i] < |r| && r[xs[i]] == Link(xs[i], xs[i])
    ensures UnlinkedExcept(r, s, [])
  {
    forall y | 0 <= y < |r| && y != s ensures r[y] == Link(y, y) {
      if y in xs {
        var i :| 0 <= i < |xs| && xs[i] == y;
      }
    }
  }

  /** Corrected, `~signal()` keeps the invariant: no attached token is left on the stack. */
  lemma DestroyInv(st: Signal, xs: seq<NodeId>)
    requires InvOf(st, xs)
    ensures InvOf(Signals.Destroy(st, Corrected), [])
  {
    DestroyShape(st, xs, Corrected);
    var r := Signals.Destroy(st, Corrected);
    forall j | 0 <= j < |r.top| ensures !r.toks[r.top[j]].attached {
      assert r.top[j] in st.top;
    }
  }

  /**
    As written, `~signal()` leaves a token attached when its cursor is at
    `end()`, which it is while the last connection's callback runs; that
    token's destructor then writes `top_token` of the destroyed signal.
   */
  lemma DestroyAsWrittenLeavesAttached(st: Signal, xs: seq<NodeId>, j: nat)
    requires Shape(st, xs) && j < |st.top|
    requires st.toks[st.top[j]].attached && st.toks[st.top[j]].current == st.fake
    ensures var r := Signals.Destroy(st, AsWritten);
            !r.alive && r.toks[st.top[j]].attached && !Detached(r)
  {
    DestroyShape(st, xs, AsWritten);
  }
}
