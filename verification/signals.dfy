/**
  One `signals::signal` with its connections and iteration tokens
  (signals.h), over the list arena of module IntrusiveList.

  Every `connection` object is a node of the heap; the signal's
  `connections` list is the ring of sentinel `fake`.  A connection's `sig`
  pointer is either this signal or null (`attached`), and its `slot` is an
  opaque callback or empty.  Iteration tokens live on the stacks of running
  emissions; they are kept in an arena `toks` indexed by `TokId`.  The
  signal's `top_token` chain is the sequence `top`, top first, and a token's
  `next` pointer is represented by the chain it leads to, which no operation
  ever rewrites.

  Two places in signals.h do not do what the surrounding code relies on;
  the `Build` parameter selects the code as written or the corrected code.
 */
module Signals {
  import opened IntrusiveList

  /** Identity of an `iteration_token`. */
  type TokId = nat

  /**
    `AsWritten` follows signals.h line by line; `Corrected` fixes the order
    of unlinking and cursor repair in `disconnect` and detaches every token
    in the signal's destructor.
   */
  datatype Build = AsWritten | Corrected

  /** A `std::function` slot: empty, or some callable. */
  datatype Callback = NoCallback | Callback(id: nat)

  /** The fields a `connection` adds to its list element: `sig != nullptr` and `slot`. */
  datatype Connection = Connection(attached: bool, slot: Callback)

  /** An `iteration_token`: its cursor, the chain below it, and `sig != nullptr`. */
  datatype Token = Token(current: NodeId, next: seq<TokId>, attached: bool)

  /**
    The signal and everything reachable from it.  `conns[x]` holds the
    connection fields of node `x` (the entry of `fake` is unused), and
    `alive` is false once the signal's destructor has run.
   */
  datatype Signal = Signal(heap: Heap, conns: seq<Connection>, fake: NodeId,
                           top: seq<TokId>, toks: seq<Token>, alive: bool)

  /** The references the state holds are all in range. */
  ghost predicate WF(st: Signal) {
    && Closed(st.heap) && st.fake < |st.heap| && |st.conns| == |st.heap|
    && (forall j :: 0 <= j < |st.top| ==> st.top[j] < |st.toks|)
    && (forall t :: 0 <= t < |st.toks| ==> st.toks[t].current < |st.heap|)
    && (forall t, j :: 0 <= t < |st.toks| && 0 <= j < |st.toks[t].next| ==> st.toks[t].next[j] < |st.toks|)
  }

  /** `c` names a connection object of the state (not the list's sentinel). */
  predicate IsConnection(st: Signal, c: NodeId) {
    c < |st.heap| && c != st.fake
  }

  /** `signal()`: an empty connection list and no running emission. */
  function NewSignal(): (st: Signal)
    ensures WF(st) && st.alive && st.top == [] && st.toks == []
    ensures Ring(st.heap, st.fake, [])
  {
    Signal(NewList([]), [Connection(false, NoCallback)], 0, [], [], true)
  }

  // ---------------------------------------------------------------------
  // Token walks
  // ---------------------------------------------------------------------

  /**
    The cursor repair loop of `disconnect` and `safe_move`: every token of
    `chain` whose cursor is not `end` and designates `from` is moved to `to`.
   */
  function Repoint(toks: seq<Token>, chain: seq<TokId>, end: NodeId, from: NodeId, to: NodeId): (r: seq<Token>)
    requires forall j :: 0 <= j < |chain| ==> chain[j] < |toks|
    ensures |r| == |toks|
    ensures forall t :: 0 <= t < |toks| ==>
              r[t] == if t in chain && toks[t].current != end && toks[t].current == from
                      then toks[t].(current := to) else toks[t]
    decreases |chain|
  {
    if chain == [] then toks
    else
      var t := chain[0];
      var toks1 := if toks[t].current != end && toks[t].current == from
                   then toks[t := toks[t].(current := to)] else toks;
      Repoint(toks1, chain[1..], end, from, to)
  }

  /**
    The first loop of `~signal()`: every token of `chain` is detached
    (`sig = nullptr`) when `all` holds, and otherwise only those whose
    cursor is not `end`.
   */
  function Detach(toks: seq<Token>, chain: seq<TokId>, end: NodeId, all: bool): (r: seq<Token>)
    requires forall j :: 0 <= j < |chain| ==> chain[j] < |toks|
    ensures |r| == |toks|
    ensures forall t :: 0 <= t < |toks| ==>
              r[t] == if t in chain && (all || toks[t].current != end)
                      then toks[t].(attached := false) else toks[t]
    decreases |chain|
  {
    if chain == [] then toks
    else
      var t := chain[0];
      var toks1 := if all || toks[t].current != end
                   then toks[t := toks[t].(attached := false)] else toks;
      Detach(toks1, chain[1..], end, all)
  }

  /** `Repoint` moves cursors only to `to` and leaves chains and attachment alone. */
  lemma RepointFrame(toks: seq<Token>, chain: seq<TokId>, end: NodeId, from: NodeId, to: NodeId, n: nat)
    requires forall j :: 0 <= j < |chain| ==> chain[j] < |toks|
    requires to < n && forall t :: 0 <= t < |toks| ==> toks[t].current < n
    ensures var r := Repoint(toks, chain, end, from, to);
            forall t :: 0 <= t < |toks| ==>
              r[t].current < n && r[t].next == toks[t].next && r[t].attached == toks[t].attached
  {
  }

  // ---------------------------------------------------------------------
  // connection
  // ---------------------------------------------------------------------

  /** `connection()`: a new unlinked connection with no signal and an empty slot. */
  function NewConnection(st: Signal): (r: (Signal, NodeId))
    requires WF(st)
    ensures WF(r.0) && r.1 == |st.heap| && IsConnection(r.0, r.1)
    ensures !IsLinked(r.0.heap, r.1) && r.0.conns[r.1] == Connection(false, NoCallback)
    ensures r.0.heap[..|st.heap|] == st.heap && r.0.conns[..|st.conns|] == st.conns
    ensures r.0.fake == st.fake && r.0.top == st.top && r.0.toks == st.toks && r.0.alive == st.alive
  {
    var n := |st.heap|;
    (st.(heap := NewElement(st.heap), conns := st.conns + [Connection(false, NoCallback)]), n)
  }

  /**
    What `disconnect` does to a linked connection `c` in either build: `c`
    is unlinked, its slot emptied and its `sig` nulled, and of the tokens
    only cursors move.
   */
  ghost predicate Disconnected(st: Signal, c: NodeId, r: Signal)
    requires WF(st) && IsConnection(st, c)
  {
    && WF(r) && r.heap == Unlink(st.heap, c) && r.conns == st.conns[c := Connection(false, NoCallback)]
    && r.fake == st.fake && r.top == st.top && r.alive == st.alive && |r.toks| == |st.toks|
    && forall t :: 0 <= t < |st.toks| ==>
         r.toks[t].next == st.toks[t].next && r.toks[t].attached == st.toks[t].attached
  }

  /**
    `connection::disconnect()`: nothing if the connection is not linked;
    otherwise what the build does.
   */
  function Disconnect(st: Signal, c: NodeId, build: Build): (r: Signal)
    requires WF(st) && IsConnection(st, c)
    ensures WF(r) && |r.heap| == |st.heap| && |r.conns| == |st.conns|
    ensures r.fake == st.fake && r.top == st.top && r.alive == st.alive && |r.toks| == |st.toks|
    ensures forall t :: 0 <= t < |st.toks| ==>
              r.toks[t].next == st.toks[t].next && r.toks[t].attached == st.toks[t].attached
    ensures !IsLinked(st.heap, c) ==> r == st
    ensures IsLinked(st.heap, c) ==> Disconnected(st, c, r)
    ensures !IsLinked(r.heap, c)
  {
    if !IsLinked(st.heap, c) then st
    else
      match build
      case AsWritten => DisconnectAsWritten(st, c)
      case Corrected => DisconnectCorrected(st, c)
  }

  /**
    `disconnect` of a linked connection as signals.h writes it: the
    connection is unlinked first, and only then is every token whose cursor
    designates it advanced with `++`, which now reads the self-loop
    `unlink` left behind.
   */
  function DisconnectAsWritten(st: Signal, c: NodeId): (r: Signal)
    requires WF(st) && IsConnection(st, c) && IsLinked(st.heap, c)
    ensures Disconnected(st, c, r)
  {
    var h1 := Unlink(st.heap, c);
    var conns1 := st.conns[c := st.conns[c].(slot := NoCallback)];
    var toks1 := Repoint(st.toks, st.top, st.fake, c, Inc(h1, c));
    RepointFrame(st.toks, st.top, st.fake, c, Inc(h1, c), |h1|);
    st.(heap := h1, conns := conns1[c := conns1[c].(attached := false)], toks := toks1)
  }

  /**
    `disconnect` of a linked connection, corrected: every token whose
    cursor designates it is advanced with `++` while it is still linked,
    and only then is it unlinked.
   */
  function DisconnectCorrected(st: Signal, c: NodeId): (r: Signal)
    requires WF(st) && IsConnection(st, c) && IsLinked(st.heap, c)
    ensures Disconnected(st, c, r)
  {
    var toks1 := Repoint(st.toks, st.top, st.fake, c, Inc(st.heap, c));
    RepointFrame(st.toks, st.top, st.fake, c, Inc(st.heap, c), |st.heap|);
    st.(heap := Unlink(st.heap, c), conns := st.conns[c := Connection(false, NoCallback)], toks := toks1)
  }

  /**
    `connection::safe_move(other)`: if `other` is linked, `dst` is inserted
    in front of it, `other` is unlinked, and every token whose cursor
    designates `other` is moved to `dst`.
   */
  function SafeMove(st: Signal, dst: NodeId, other: NodeId): (r: Signal)
    requires WF(st) && IsConnection(st, dst) && IsConnection(st, other) && dst != other
    ensures WF(r) && |r.heap| == |st.heap| && r.conns == st.conns
    ensures r.fake == st.fake && r.top == st.top && r.alive == st.alive && |r.toks| == |st.toks|
    ensures forall t :: 0 <= t < |st.toks| ==>
              r.toks[t].next == st.toks[t].next && r.toks[t].attached == st.toks[t].attached
    ensures !IsLinked(st.heap, other) ==> r == st
    ensures !IsLinked(r.heap, other)
  {
    if !IsLinked(st.heap, other) then st
    else
      var h1 := Insert(st.heap, AsIterator(other), dst).0;
      var h2 := Unlink(h1, other);
      var toks1 := Repoint(st.toks, st.top, st.fake, other, AsIterator(dst));
      RepointFrame(st.toks, st.top, st.fake, other, AsIterator(dst), |h2|);
      st.(heap := h2, toks := toks1)
  }

  /**
    `connection(connection&& other)`: a new connection (the next identity)
    copies `other`'s signal and slot and then takes `other`'s place through
    `safe_move`.
   */
  function MoveConstruct(st: Signal, other: NodeId): (r: (Signal, NodeId))
    requires WF(st) && IsConnection(st, other)
    ensures WF(r.0) && r.1 == |st.heap| && IsConnection(r.0, r.1) && |r.0.heap| == |st.heap| + 1
    ensures r.0.conns == st.conns + [st.conns[other]]
    ensures r.0.fake == st.fake && r.0.top == st.top && r.0.alive == st.alive && |r.0.toks| == |st.toks|
    ensures forall t :: 0 <= t < |st.toks| ==>
              r.0.toks[t].next == st.toks[t].next && r.0.toks[t].attached == st.toks[t].attached
    ensures !IsLinked(r.0.heap, other)
  {
    var n := |st.heap|;
    var st1 := st.(heap := NewElement(st.heap), conns := st.conns + [st.conns[other]]);
    (SafeMove(st1, n, other), n)
  }

  /**
    `connection::operator=(connection&& other)`: nothing on self-assignment;
    otherwise this connection is disconnected, takes `other`'s signal and
    (moved-from, hence emptied) slot, and takes `other`'s place through
    `safe_move`.
   */
  function MoveAssign(st: Signal, dst: NodeId, other: NodeId, build: Build): (r: Signal)
    requires WF(st) && IsConnection(st, dst) && IsConnection(st, other)
    ensures WF(r) && |r.heap| == |st.heap| && |r.conns| == |st.conns|
    ensures r.fake == st.fake && r.top == st.top && r.alive == st.alive && |r.toks| == |st.toks|
    ensures forall t :: 0 <= t < |st.toks| ==>
              r.toks[t].next == st.toks[t].next && r.toks[t].attached == st.toks[t].attached
    ensures dst == other ==> r == st
    ensures dst != other ==> r.conns[dst] == st.conns[other] && r.conns[other].slot == NoCallback
    ensures dst != other ==> !IsLinked(r.heap, other)
    ensures forall y :: 0 <= y < |st.conns| && y != dst && y != other ==> r.conns[y] == st.conns[y]
  {
    if dst == other then st
    else
      var st1 := Disconnect(st, dst, build);
      var moved := st1.conns[other];
      var st2 := st1.(conns := st1.conns[dst := Connection(moved.attached, moved.slot)]
                                        [other := moved.(slot := NoCallback)]);
      SafeMove(st2, dst, other)
  }

  // ---------------------------------------------------------------------
  // signal
  // ---------------------------------------------------------------------

  /**
    `signal::connect(slot)`: a new connection (the next identity) attached
    to this signal with the given slot, pushed to the front of the list.
   */
  function Connect(st: Signal, slot: Callback): (r: (Signal, NodeId))
    requires WF(st)
    ensures WF(r.0) && r.1 == |st.heap| && IsConnection(r.0, r.1) && |r.0.heap| == |st.heap| + 1
    ensures r.0.conns == st.conns + [Connection(true, slot)]
    ensures r.0.fake == st.fake && r.0.top == st.top && r.0.toks == st.toks && r.0.alive == st.alive
  {
    var n := |st.heap|;
    var h1 := NewElement(st.heap);
    (st.(heap := PushFront(h1, st.fake, n), conns := st.conns + [Connection(true, slot)]), n)
  }

  /**
    The second loop of `~signal()`, with at most `fuel` rounds: while the
    list is not empty, its front connection gets an empty slot and a null
    `sig` and is unlinked.
   */
  function Drain(st: Signal, fuel: nat): (r: Signal)
    requires WF(st)
    ensures WF(r) && |r.heap| == |st.heap| && |r.conns| == |st.conns|
    ensures r.fake == st.fake && r.top == st.top && r.toks == st.toks && r.alive == st.alive
    decreases fuel
  {
    if fuel == 0 || Empty(st.heap, st.fake) then st
    else
      var f := Front(st.heap, st.fake);
      var conns1 := st.conns[f := Connection(false, NoCallback)];
      Drain(st.(heap := Unlink(st.heap, f), conns := conns1), fuel - 1)
  }

  /**
    `~signal()`: detaches the tokens on the stack (as written, only those
    whose cursor is not `end()`), then empties the connection list.  The
    list never holds more connections than the heap has objects, so `|heap|`
    rounds suffice (lemma DrainRing).
   */
  function Destroy(st: Signal, build: Build): (r: Signal)
    requires WF(st)
    ensures WF(r) && !r.alive && |r.heap| == |st.heap| && |r.conns| == |st.conns|
    ensures r.fake == st.fake && r.top == st.top && |r.toks| == |st.toks|
    ensures forall t :: 0 <= t < |st.toks| ==>
              r.toks[t].next == st.toks[t].next && r.toks[t].current == st.toks[t].current
    ensures forall t :: 0 <= t < |st.toks| && !st.toks[t].attached ==> !r.toks[t].attached
  {
    var toks1 := Detach(st.toks, st.top, st.fake, build == Corrected);
    var st1 := Drain(st.(toks := toks1), |st.heap|);
    st1.(alive := false)
  }
}
