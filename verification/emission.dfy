/**
  `signal::operator()` (signals.h) with the callbacks it invokes.

  A callback body is not visible, so each invocation performs a reaction
  taken from a script: a sequence of actions from a small menu (disconnect
  a connection, move it to a new handle, move-assign it, connect, destroy
  the signal, emit again, throw).  The script is consumed one reaction per
  invocation, across nested emissions; when it runs out the run stops with
  outcome `Exhausted`.

  A run ends with one of five outcomes: it returned; an exception
  propagated (`Threw` from a callback, `BadCall` from invoking an empty
  slot, which is `std::bad_function_call`); the script ran out; the script
  asked for something the caller may not do (`Misuse`); or the library
  itself touched the destroyed signal (`UseAfterFree`).
 */
module Emission {
  import opened IntrusiveList
  import opened Signals

  /** What a callback may do. */
  datatype Action =
    | Disconnect(c: NodeId)
    | MoveNew(c: NodeId)
    | MoveAssign(dst: NodeId, src: NodeId)
    | Connect(slot: Callback)
    | Destroy
    | Emit
    | Throw

  /** The actions one callback invocation performs, in order. */
  type Reaction = seq<Action>

  datatype Outcome = Returned | Threw | BadCall | Exhausted | Misuse | UseAfterFree

  /** The run finished in a way C++ defines: neither the caller nor the library did something undefined. */
  predicate Defined(out: Outcome) {
    out != Misuse && out != UseAfterFree
  }

  /** Final state, how many reactions of the script were consumed, the connections invoked in order, and the outcome. */
  datatype Run = Run(st: Signal, used: nat, trace: seq<NodeId>, out: Outcome)

  /**
    How any run may change the state: objects and tokens are only added,
    token chains are never rewritten, a detached token stays detached, a
    destroyed signal stays destroyed, tokens are detached only by
    destruction, and the signal's token chain only grows below the part
    that was there.
   */
  ghost predicate Evolves(st: Signal, st': Signal) {
    && |st.heap| <= |st'.heap| && |st.toks| <= |st'.toks| && st'.fake == st.fake
    && (forall t :: 0 <= t < |st.toks| ==> st'.toks[t].next == st.toks[t].next)
    && (forall t :: 0 <= t < |st.toks| && !st.toks[t].attached ==> !st'.toks[t].attached)
    && (st'.alive ==> st.alive)
    && (st'.alive ==> forall t :: 0 <= t < |st.toks| ==> st'.toks[t].attached == st.toks[t].attached)
    && |st.top| <= |st'.top| && EndsWith(st'.top, st.top)
  }

  /** `low` is the bottom part of the token chain `top`. */
  predicate EndsWith(top: seq<TokId>, low: seq<TokId>) {
    |low| <= |top| && top[|top| - |low|..] == low
  }

  /** Every state evolves into itself. */
  lemma EvolvesRefl(st: Signal)
    ensures Evolves(st, st)
  {
    assert st.top[|st.top| - |st.top|..] == st.top;
  }

  /** `Evolves` composes. */
  lemma EvolvesTrans(a: Signal, b: Signal, c: Signal)
    requires Evolves(a, b) && Evolves(b, c)
    ensures Evolves(a, c)
  {
    var k := |c.top| - |b.top|;
    assert c.top[k..] == b.top;
    assert c.top[|c.top| - |a.top|..] == b.top[|b.top| - |a.top|..];
  }

  /**
    The loop of `operator()` for token `tid`: while the cursor is not
    `end()`, run one round (`Round`); the loop ends as soon as the token
    has been detached.
   */
  function Loop(st: Signal, tid: TokId, script: seq<Reaction>, build: Build): (r: Run)
    requires WF(st) && tid < |st.toks| && st.toks[tid].attached
    ensures WF(r.st) && |st.toks| <= |r.st.toks| && r.used <= |script|
    decreases |script|, 2
  {
    if !st.alive then Run(st, 0, [], UseAfterFree)
    else if st.toks[tid].current == End(st.fake) then Run(st, 0, [], Returned)
    else Round(st, tid, script, build)
  }

  /**
    One round of the loop: copy the cursor, advance the cursor itself with
    postfix `++` (whose result is discarded), and invoke the copy's slot; an
    empty slot throws `bad_function_call`.
   */
  function Round(st: Signal, tid: TokId, script: seq<Reaction>, build: Build): (r: Run)
    requires WF(st) && tid < |st.toks| && st.toks[tid].attached
    ensures WF(r.st) && |st.toks| <= |r.st.toks| && r.used <= |script|
    decreases |script|, 1
  {
    var copy := st.toks[tid].current;
    var st1 := st.(toks := st.toks[tid := st.toks[tid].(current := PostInc(st.heap, copy).0)]);
    if st1.conns[copy].slot == NoCallback then Run(st1, 0, [copy], BadCall)
    else
      var r := Invoke(st1, tid, script, build);
      r.(trace := [copy] + r.trace)
  }

  /**
    A callback runs the next reaction of the script; the loop goes on
    unless the callback did not return normally or the token was detached
    meanwhile.
   */
  function Invoke(st: Signal, tid: TokId, script: seq<Reaction>, build: Build): (r: Run)
    requires WF(st) && tid < |st.toks|
    ensures WF(r.st) && |st.toks| <= |r.st.toks| && r.used <= |script|
    decreases |script|, 0
  {
    if script == [] then Run(st, 0, [], Exhausted)
    else
      var r1 := Perform(st, script[0], script[1..], build);
      if r1.out != Returned || !r1.st.toks[tid].attached then
        Run(r1.st, 1 + r1.used, r1.trace, r1.out)
      else
        var r2 := Loop(r1.st, tid, script[1 + r1.used..], build);
        Run(r2.st, 1 + r1.used + r2.used, r1.trace + r2.trace, r2.out)
  }

  /**
    `operator()`: an emission on a destroyed signal is the caller's misuse;
    otherwise a token is pushed (cursor `begin()`, `next` the old top), the
    loop runs, and the token's destructor pops it again if it is still
    attached, which on a destroyed signal is a write to freed memory.  The
    destructor runs on every exit C++ defines, exceptions included.
   */
  function EmitRun(st: Signal, script: seq<Reaction>, build: Build): (r: Run)
    requires WF(st)
    ensures WF(r.st) && |st.toks| <= |r.st.toks| && r.used <= |script|
    decreases |script|, 3
  {
    if !st.alive then Run(st, 0, [], Misuse)
    else
      var tid := |st.toks|;
      var st1 := st.(toks := st.toks + [Token(Begin(st.heap, st.fake), st.top, true)], top := [tid] + st.top);
      var r := Loop(st1, tid, script, build);
      if !Defined(r.out) || !r.st.toks[tid].attached then r
      else if !r.st.alive then r.(out := UseAfterFree)
      else r.(st := r.st.(top := r.st.toks[tid].next))
  }

  /** Pushing a new token is an evolution of the state. */
  lemma PushEvolves(st: Signal, st1: Signal)
    requires st.fake < |st.heap|
    requires st1 == st.(toks := st.toks + [Token(Begin(st.heap, st.fake), st.top, true)], top := [|st.toks|] + st.top)
    ensures Evolves(st, st1)
  {
    assert st1.top[|st1.top| - |st.top|..] == st.top;
  }

  /** Popping the token pushed in `st1` restores the chain of `st`. */
  lemma PopEvolves(st: Signal, st1: Signal, st2: Signal, tid: TokId)
    requires Evolves(st, st2) && Evolves(st1, st2) && WF(st2)
    requires tid == |st.toks| && tid < |st1.toks| && st1.toks[tid].next == st.top
    ensures Evolves(st, st2.(top := st2.toks[tid].next))
  {
  }

  /** One action of a callback. */
  function Step(st: Signal, a: Action, script: seq<Reaction>, build: Build): (r: Run)
    requires WF(st)
    ensures WF(r.st) && |st.toks| <= |r.st.toks| && r.used <= |script|
    decreases |script|, 4
  {
    if a.Emit? then EmitRun(st, script, build)
    else
      var (st', out) := Apply(st, a, build);
      Run(st', 0, [], out)
  }

  /**
    An action other than `Emit`: a call on a connection or on the signal,
    or a `throw`.  Naming an object that is not a connection, or connecting
    to or destroying a destroyed signal, is the caller's misuse.
   */
  function Apply(st: Signal, a: Action, build: Build): (r: (Signal, Outcome))
    requires WF(st) && !a.Emit?
    ensures WF(r.0) && Evolves(st, r.0) && r.0.top == st.top
    ensures r.1 == Returned || r.1 == Threw || r.1 == Misuse
  {
    match a
    case Disconnect(c) =>
      if !IsConnection(st, c) then (st, Misuse)
      else (Signals.Disconnect(st, c, build), Returned)
    case MoveNew(c) =>
      if !IsConnection(st, c) then (st, Misuse)
      else (MoveConstruct(st, c).0, Returned)
    case MoveAssign(dst, src) =>
      if !IsConnection(st, dst) || !IsConnection(st, src) then (st, Misuse)
      else (Signals.MoveAssign(st, dst, src, build), Returned)
    case Connect(slot) =>
      if !st.alive then (st, Misuse)
      else (Signals.Connect(st, slot).0, Returned)
    case Destroy =>
      if !st.alive then (st, Misuse)
      else (Signals.Destroy(st, build), Returned)
    case Throw =>
      (st, Threw)
  }

  /** The actions of one reaction in order, stopping at the first that does not return normally. */
  function Perform(st: Signal, acts: Reaction, script: seq<Reaction>, build: Build): (r: Run)
    requires WF(st)
    ensures WF(r.st) && |st.toks| <= |r.st.toks| && r.used <= |script|
    decreases |script|, 5, |acts|
  {
    if acts == [] then Run(st, 0, [], Returned)
    else
      var r1 := Step(st, acts[0], script, build);
      if r1.out != Returned then r1
      else
        var r2 := Perform(r1.st, acts[1..], script[r1.used..], build);
        Run(r2.st, r1.used + r2.used, r1.trace + r2.trace, r2.out)
  }
}
