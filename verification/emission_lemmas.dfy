/**
  Properties of whole emissions (module Emission), proved by induction
  over the interpreter: `Loop`, `EmitRun`, `Step` and `Perform` are
  mutually recursive, and so are the lemmas about them.
 */
module EmissionLemmas {
  import opened IntrusiveList
  import opened ListLemmas
  import opened ListOps
  import opened Signals
  import opened SignalLemmas
  import opened MoveLemmas
  import opened Emission

  // ---------------------------------------------------------------------
  // How a run changes the state; the token stack is restored
  // ---------------------------------------------------------------------

  /**
    In either build, an emission only evolves the state (`Evolves`), and a
    run that ends in a way C++ defines, on a signal that is still alive,
    leaves `top_token` as it found it: every token an emission pushes is
    popped again by its destructor, also when an exception propagates.
   */
  lemma {:induction false} EmitEvolves(st: Signal, script: seq<Reaction>, build: Build)
    requires WF(st)
    ensures var r := EmitRun(st, script, build);
            && Evolves(st, r.st)
            && (Defined(r.out) && r.st.alive ==> r.st.top == st.top)
    decreases |script|, 3
  {
    if st.alive {
      var tid := |st.toks|;
      var st1 := st.(toks := st.toks + [Token(Begin(st.heap, st.fake), st.top, true)], top := [tid] + st.top);
      PushEvolves(st, st1);
      LoopEvolves(st1, tid, script, build);
      var r := Loop(st1, tid, script, build);
      EvolvesTrans(st, st1, r.st);
      if Defined(r.out) && r.st.toks[tid].attached && r.st.alive {
        PopEvolves(st, st1, r.st, tid);
      }
    } else {
      EvolvesRefl(st);
    }
  }

  /** `EmitEvolves` for the loop of a running emission. */
  lemma {:induction false} LoopEvolves(st: Signal, tid: TokId, script: seq<Reaction>, build: Build)
    requires WF(st) && tid < |st.toks| && st.toks[tid].attached
    ensures var r := Loop(st, tid, script, build);
            && Evolves(st, r.st)
            && (Defined(r.out) && r.st.alive ==> r.st.top == st.top)
    decreases |script|, 2
  {
    if st.alive && st.toks[tid].current != End(st.fake) {
      RoundEvolves(st, tid, script, build);
    } else {
      EvolvesRefl(st);
    }
  }

  /** `EmitEvolves` for one round of the loop. */
  lemma {:induction false} RoundEvolves(st: Signal, tid: TokId, script: seq<Reaction>, build: Build)
    requires WF(st) && tid < |st.toks| && st.toks[tid].attached
    ensures var r := Round(st, tid, script, build);
            && Evolves(st, r.st)
            && (Defined(r.out) && r.st.alive ==> r.st.top == st.top)
    decreases |script|, 1
  {
    var copy := st.toks[tid].current;
    var st1 := st.(toks := st.toks[tid := st.toks[tid].(current := PostInc(st.heap, copy).0)]);
    EvolvesRefl(st);
    assert Evolves(st, st1);
    if st1.conns[copy].slot != NoCallback {
      InvokeEvolves(st1, tid, script, build);
      EvolvesTrans(st, st1, Invoke(st1, tid, script, build).st);
    }
  }

  /** `EmitEvolves` for one callback invocation and the rest of the loop. */
  lemma {:induction false} InvokeEvolves(st: Signal, tid: TokId, script: seq<Reaction>, build: Build)
    requires WF(st) && tid < |st.toks|
    ensures var r := Invoke(st, tid, script, build);
            && Evolves(st, r.st)
            && (Defined(r.out) && r.st.alive ==> r.st.top == st.top)
    decreases |script|, 0, 1
  {
    if script == [] {
      EvolvesRefl(st);
    } else {
      var r := Invoke(st, tid, script, build);
      var r1 := Perform(st, script[0], script[1..], build);
      if r1.out == Returned && r1.st.toks[tid].attached {
        var r2 := Loop(r1.st, tid, script[1 + r1.used..], build);
        InvokeResumes(st, tid, script, build, r1, r2);
        ResumeEvolves(st, tid, script, build, r1, r2);
      } else {
        InvokeStops(st, tid, script, build, r1);
        PerformEvolves(st, script[0], script[1..], build);
      }
    }
  }

  /** `EmitEvolves` for the rest of the loop after a callback returned with the token attached. */
  lemma {:induction false} ResumeEvolves(st: Signal, tid: TokId, script: seq<Reaction>, build: Build, r1: Run, r2: Run)
    requires WF(st) && tid < |st.toks| && script != []
    requires r1 == Perform(st, script[0], script[1..], build)
    requires r1.out == Returned && tid < |r1.st.toks| && r1.st.toks[tid].attached
    requires r2 == Loop(r1.st, tid, script[1 + r1.used..], build)
    ensures Evolves(st, r2.st) && (Defined(r2.out) && r2.st.alive ==> r2.st.top == st.top)
    decreases |script|, 0, 0
  {
    assert WF(r1.st) && Evolves(st, r1.st) && (r1.st.alive ==> r1.st.top == st.top) && 1 + r1.used <= |script| by {
      PerformEvolves(st, script[0], script[1..], build);
    }
    LoopEvolves(r1.st, tid, script[1 + r1.used..], build);
    EvolvesTrans(st, r1.st, r2.st);
  }

  /** A callback invocation whose reaction `r1` did not return normally, or detached the token, ends with it. */
  lemma InvokeStops(st: Signal, tid: TokId, script: seq<Reaction>, build: Build, r1: Run)
    requires WF(st) && tid < |st.toks| && script != []
    requires r1 == Perform(st, script[0], script[1..], build)
    requires r1.out != Returned || !r1.st.toks[tid].attached
    ensures Invoke(st, tid, script, build) == Run(r1.st, 1 + r1.used, r1.trace, r1.out)
  {
  }

  /** A callback invocation whose reaction `r1` returned with the token attached goes on with the loop `r2`. */
  lemma InvokeResumes(st: Signal, tid: TokId, script: seq<Reaction>, build: Build, r1: Run, r2: Run)
    requires WF(st) && tid < |st.toks| && script != []
    requires r1 == Perform(st, script[0], script[1..], build)
    requires r1.out == Returned && tid < |r1.st.toks| && r1.st.toks[tid].attached
    requires r2 == Loop(r1.st, tid, script[1 + r1.used..], build)
    ensures Invoke(st, tid, script, build) == Run(r2.st, 1 + r1.used + r2.used, r1.trace + r2.trace, r2.out)
  {
  }

  /** A round whose cursor designates a callable slot invokes it with the cursor advanced. */
  lemma RoundInvokes(st: Signal, tid: TokId, script: seq<Reaction>, build: Build, st1: Signal, ri: Run)
    requires WF(st) && tid < |st.toks| && st.toks[tid].attached
    requires st1 == st.(toks := st.toks[tid := st.toks[tid].(current := PostInc(st.heap, st.toks[tid].current).0)])
    requires st.conns[st.toks[tid].current].slot != NoCallback
    requires WF(st1) && ri == Invoke(st1, tid, script, build)
    ensures Round(st, tid, script, build) == ri.(trace := [st.toks[tid].current] + ri.trace)
  {
  }

  /** `EmitEvolves` for one action. */
  lemma {:induction false} StepEvolves(st: Signal, a: Action, script: seq<Reaction>, build: Build)
    requires WF(st)
    ensures var r := Step(st, a, script, build);
            && Evolves(st, r.st)
            && (Defined(r.out) && r.st.alive ==> r.st.top == st.top)
    decreases |script|, 4
  {
    if a.Emit? {
      EmitEvolves(st, script, build);
    }
  }

  /** `EmitEvolves` for one reaction. */
  lemma {:induction false} PerformEvolves(st: Signal, acts: Reaction, script: seq<Reaction>, build: Build)
    requires WF(st)
    ensures var r := Perform(st, acts, script, build);
            && Evolves(st, r.st)
            && (Defined(r.out) && r.st.alive ==> r.st.top == st.top)
    decreases |script|, 5, |acts|
  {
    if acts == [] {
      EvolvesRefl(st);
    } else {
      StepEvolves(st, acts[0], script, build);
      var r1 := Step(st, acts[0], script, build);
      if r1.out == Returned {
        PerformEvolves(r1.st, acts[1..], script[r1.used..], build);
        EvolvesTrans(st, r1.st, Perform(r1.st, acts[1..], script[r1.used..], build).st);
      }
    }
  }

  // ---------------------------------------------------------------------
  // The corrected build neither touches a destroyed signal nor calls an empty slot
  // ---------------------------------------------------------------------

  /** Every listed connection has a callable slot. */
  ghost predicate Callable(st: Signal, xs: seq<NodeId>) {
    forall i :: 0 <= i < |xs| ==> xs[i] < |st.conns| && st.conns[xs[i]].slot != NoCallback
  }

  /** The corrected build's invariant, together with callable slots for all listed connections. */
  ghost predicate Safe(st: Signal) {
    exists xs :: InvOf(st, xs) && Callable(st, xs)
  }

  /** A reaction never connects an empty slot. */
  predicate NoEmptyConnect(acts: Reaction) {
    forall j :: 0 <= j < |acts| ==> !acts[j].Connect? || acts[j].slot != NoCallback
  }

  /** No reaction of the script connects an empty slot. */
  predicate ScriptOk(script: seq<Reaction>) {
    forall i :: 0 <= i < |script| ==> NoEmptyConnect(script[i])
  }

  /** A new signal is safe. */
  lemma NewSignalSafe()
    ensures Safe(NewSignal())
  {
    NewSignalInv();
    assert InvOf(NewSignal(), []) && Callable(NewSignal(), []);
  }

  /** Slots of the listed connections stay callable when only a connection outside the new list changes. */
  lemma SlotsKept(conns: seq<Connection>, conns': seq<Connection>, xs: seq<NodeId>, ys: seq<NodeId>, c: NodeId)
    requires |conns'| == |conns| && forall i :: 0 <= i < |xs| ==> xs[i] < |conns| && conns[xs[i]].slot != NoCallback
    requires forall y :: 0 <= y < |conns| && y != c ==> conns'[y] == conns[y]
    requires forall y :: y in ys ==> y in xs && y != c
    ensures forall i :: 0 <= i < |ys| ==> ys[i] < |conns'| && conns'[ys[i]].slot != NoCallback
  {
    forall i | 0 <= i < |ys| ensures ys[i] < |conns'| && conns'[ys[i]].slot != NoCallback {
      assert ys[i] in xs;
      var j :| 0 <= j < |xs| && xs[j] == ys[i];
    }
  }

  /** Corrected, `disconnect` keeps the signal safe. */
  lemma DisconnectSafe(st: Signal, xs: seq<NodeId>, c: NodeId)
    requires InvOf(st, xs) && Callable(st, xs) && IsConnection(st, c)
    ensures Safe(Signals.Disconnect(st, c, Corrected))
  {
    var r := Signals.Disconnect(st, c, Corrected);
    DisconnectInvRemove(st, xs, c);
    SlotsKept(st.conns, r.conns, xs, Remove(xs, c), c);
    assert InvOf(r, Remove(xs, c)) && Callable(r, Remove(xs, c));
  }

  /** Moving a connection into a new one keeps the signal safe: the new one takes the old one's slot. */
  lemma MoveConstructSafe(st: Signal, xs: seq<NodeId>, c: NodeId)
    requires InvOf(st, xs) && Callable(st, xs) && IsConnection(st, c)
    ensures Safe(Signals.MoveConstruct(st, c).0)
  {
    var (r, n) := Signals.MoveConstruct(st, c);
    MoveConstructInv(st, xs, c);
    var ys := Replace(xs, c, n);
    forall i | 0 <= i < |ys| ensures ys[i] < |r.conns| && r.conns[ys[i]].slot != NoCallback {
      assert xs[i] < |st.conns| && st.conns[xs[i]].slot != NoCallback;
    }
    assert InvOf(r, ys) && Callable(r, ys);
  }

  /** Corrected, move assignment keeps the signal safe: `dst` takes `other`'s slot along with its place. */
  lemma MoveAssignSafe(st: Signal, xs: seq<NodeId>, dst: NodeId, other: NodeId)
    requires InvOf(st, xs) && Callable(st, xs) && IsConnection(st, dst) && IsConnection(st, other) && dst != other
    ensures Safe(Signals.MoveAssign(st, dst, other, Corrected))
  {
    var r := Signals.MoveAssign(st, dst, other, Corrected);
    MoveAssignInv(st, xs, dst, other);
    var zs := Remove(xs, dst);
    var ys := Replace(zs, other, dst);
    forall i | 0 <= i < |ys| ensures ys[i] < |r.conns| && r.conns[ys[i]].slot != NoCallback {
      assert zs[i] in xs;
      var j :| 0 <= j < |xs| && xs[j] == zs[i];
    }
    assert InvOf(r, ys) && Callable(r, ys);
  }

  /** `connect` with a callable slot keeps the signal safe. */
  lemma ConnectSafe(st: Signal, xs: seq<NodeId>, slot: Callback)
    requires InvOf(st, xs) && Callable(st, xs) && st.alive && slot != NoCallback
    ensures Safe(Signals.Connect(st, slot).0)
  {
    var (r, n) := Signals.Connect(st, slot);
    ConnectShape(st, xs, slot);
    var ys := [n] + xs;
    forall i | 0 <= i < |ys| ensures ys[i] < |r.conns| && r.conns[ys[i]].slot != NoCallback {
      if i > 0 { assert ys[i] == xs[i - 1]; }
    }
    assert InvOf(r, ys) && Callable(r, ys);
  }

  /** Corrected, `~signal()` leaves a safe, empty, destroyed signal. */
  lemma DestroySafe(st: Signal, xs: seq<NodeId>)
    requires InvOf(st, xs)
    ensures Safe(Signals.Destroy(st, Corrected))
  {
    DestroyInv(st, xs);
    assert InvOf(Signals.Destroy(st, Corrected), []) && Callable(Signals.Destroy(st, Corrected), []);
  }

  /** Corrected, every action but `Emit` keeps the signal safe, unless it connects an empty slot. */
  lemma ApplySafe(st: Signal, a: Action)
    requires WF(st) && Safe(st) && !a.Emit? && (a.Connect? ==> a.slot != NoCallback)
    ensures Safe(Apply(st, a, Corrected).0)
  {
    var xs :| InvOf(st, xs) && Callable(st, xs);
    match a
    case Disconnect(c) =>
      if IsConnection(st, c) { DisconnectSafe(st, xs, c); }
    case MoveNew(c) =>
      if IsConnection(st, c) { MoveConstructSafe(st, xs, c); }
    case MoveAssign(dst, src) =>
      if IsConnection(st, dst) && IsConnection(st, src) && dst != src { MoveAssignSafe(st, xs, dst, src); }
    case Connect(slot) =>
      if st.alive { ConnectSafe(st, xs, slot); }
    case Destroy =>
      if st.alive { DestroySafe(st, xs); }
    case Throw =>
  }

  /** A token on the stack stays on it while the state evolves. */
  lemma StaysOnTop(st: Signal, st': Signal, tid: TokId)
    requires Evolves(st, st') && tid in st.top
    ensures tid in st'.top
  {
    var j :| 0 <= j < |st.top| && st.top[j] == tid;
    var k := |st'.top| - |st.top|;
    assert st'.top[k..][j] == tid;
  }

  /** In a safe state, an attached token on the stack means the signal is alive and its cursor is listed or `end()`. */
  lemma AttachedOnTop(st: Signal, xs: seq<NodeId>, tid: TokId)
    requires InvOf(st, xs) && tid in st.top && st.toks[tid].attached
    ensures st.alive && (st.toks[tid].current == st.fake || st.toks[tid].current in xs)
  {
    var j :| 0 <= j < |st.top| && st.top[j] == tid;
  }

  /** Pushing the token of a new emission, whose cursor is `begin()`, keeps the signal safe. */
  lemma PushSafe(st: Signal, xs: seq<NodeId>)
    requires InvOf(st, xs) && Callable(st, xs) && st.alive
    ensures var st1 := st.(toks := st.toks + [Token(Begin(st.heap, st.fake), st.top, true)], top := [|st.toks|] + st.top);
            InvOf(st1, xs) && Callable(st1, xs)
  {
    var tid := |st.toks|;
    var st1 := st.(toks := st.toks + [Token(Begin(st.heap, st.fake), st.top, true)], top := [tid] + st.top);
    assert Begin(st.heap, st.fake) == Pos(st.fake, xs, 0);
    forall j | 0 <= j < |st1.top| && st1.toks[st1.top[j]].attached
      ensures st1.toks[st1.top[j]].current == st1.fake || st1.toks[st1.top[j]].current in xs
    {
      if j > 0 { assert st1.top[j] == st.top[j - 1]; }
    }
  }

  /** Advancing an emission's cursor from the `k`-th connection to the next position keeps the signal safe. */
  lemma AdvanceSafe(st: Signal, xs: seq<NodeId>, tid: TokId, k: nat)
    requires InvOf(st, xs) && Callable(st, xs) && tid < |st.toks| && k < |xs|
    ensures var st1 := st.(toks := st.toks[tid := st.toks[tid].(current := Pos(st.fake, xs, k + 1))]);
            InvOf(st1, xs) && Callable(st1, xs)
  {
  }

  /**
    Corrected, an emission on a safe signal, whose script never connects
    an empty slot, leaves the signal safe, never touches it after its
    destruction, and never invokes an empty slot.
   */
  lemma {:induction false} EmitSafe(st: Signal, script: seq<Reaction>)
    requires WF(st) && Safe(st) && ScriptOk(script)
    ensures var r := EmitRun(st, script, Corrected);
            Safe(r.st) && r.out != UseAfterFree && r.out != BadCall
    decreases |script|, 3
  {
    if st.alive {
      var xs :| InvOf(st, xs) && Callable(st, xs);
      var tid := |st.toks|;
      var st1 := st.(toks := st.toks + [Token(Begin(st.heap, st.fake), st.top, true)], top := [tid] + st.top);
      PushSafe(st, xs);
      LoopSafe(st1, tid, script);
      LoopEvolves(st1, tid, script, Corrected);
      var r := Loop(st1, tid, script, Corrected);
      var ys :| InvOf(r.st, ys) && Callable(r.st, ys);
      StaysOnTop(st1, r.st, tid);
      if r.st.toks[tid].attached {
        AttachedOnTop(r.st, ys, tid);
        if Defined(r.out) {
          PopSafe(st, st1, r.st, ys, tid);
        }
      }
    }
  }

  /** The token's destructor pops it, which keeps the signal safe: the chain below it was on the stack. */
  lemma PopSafe(st: Signal, st1: Signal, st2: Signal, ys: seq<NodeId>, tid: TokId)
    requires Evolves(st1, st2) && InvOf(st2, ys) && Callable(st2, ys)
    requires tid < |st1.toks| && st1.toks[tid].next == st.top && st1.top == [tid] + st.top
    ensures Safe(st2.(top := st2.toks[tid].next))
  {
    forall j | 0 <= j < |st.top| ensures st.top[j] in st2.top {
      assert st.top[j] == st1.top[j + 1];
      StaysOnTop(st1, st2, st.top[j]);
    }
    InvSubStack(st2, ys, st.top);
    assert InvOf(st2.(top := st2.toks[tid].next), ys) && Callable(st2.(top := st2.toks[tid].next), ys);
  }

  /** `EmitSafe` for the loop of a running emission whose token is on the stack. */
  lemma {:induction false} LoopSafe(st: Signal, tid: TokId, script: seq<Reaction>)
    requires WF(st) && tid < |st.toks| && st.toks[tid].attached && tid in st.top && Safe(st) && ScriptOk(script)
    ensures var r := Loop(st, tid, script, Corrected);
            Safe(r.st) && r.out != UseAfterFree && r.out != BadCall
    decreases |script|, 2
  {
    var xs :| InvOf(st, xs) && Callable(st, xs);
    AttachedOnTop(st, xs, tid);
    if st.toks[tid].current != End(st.fake) {
      RoundSafe(st, xs, tid, script);
    }
  }

  /** `EmitSafe` for one round of the loop, whose cursor designates a listed connection. */
  lemma {:induction false} RoundSafe(st: Signal, xs: seq<NodeId>, tid: TokId, script: seq<Reaction>)
    requires WF(st) && tid < |st.toks| && st.toks[tid].attached && tid in st.top && ScriptOk(script)
    requires InvOf(st, xs) && Callable(st, xs) && st.toks[tid].current in xs
    ensures var r := Round(st, tid, script, Corrected);
            Safe(r.st) && r.out != UseAfterFree && r.out != BadCall
    decreases |script|, 1
  {
    var k :| 0 <= k < |xs| && xs[k] == st.toks[tid].current;
    PostStepRing(st.heap, st.fake, xs, k);
    var st1 := st.(toks := st.toks[tid := st.toks[tid].(current := Pos(st.fake, xs, k + 1))]);
    AdvanceSafe(st, xs, tid, k);
    InvokeSafe(st1, tid, script);
  }

  /** `EmitSafe` for one callback invocation and the rest of the loop. */
  lemma {:induction false} InvokeSafe(st: Signal, tid: TokId, script: seq<Reaction>)
    requires WF(st) && tid < |st.toks| && tid in st.top && Safe(st) && ScriptOk(script)
    ensures var r := Invoke(st, tid, script, Corrected);
            Safe(r.st) && r.out != UseAfterFree && r.out != BadCall
    decreases |script|, 0, 1
  {
    if script != [] {
      var r := Invoke(st, tid, script, Corrected);
      var r1 := Perform(st, script[0], script[1..], Corrected);
      if r1.out == Returned && r1.st.toks[tid].attached {
        var r2 := Loop(r1.st, tid, script[1 + r1.used..], Corrected);
        InvokeResumes(st, tid, script, Corrected, r1, r2);
        ResumeSafe(st, tid, script, r1, r2);
      } else {
        InvokeStops(st, tid, script, Corrected, r1);
        PerformSafe(st, script[0], script[1..]);
      }
    }
  }

  /** `EmitSafe` for the rest of the loop after a callback returned with the token attached. */
  lemma {:induction false} ResumeSafe(st: Signal, tid: TokId, script: seq<Reaction>, r1: Run, r2: Run)
    requires WF(st) && tid < |st.toks| && tid in st.top && Safe(st) && ScriptOk(script) && script != []
    requires r1 == Perform(st, script[0], script[1..], Corrected)
    requires r1.out == Returned && tid < |r1.st.toks| && r1.st.toks[tid].attached
    requires r2 == Loop(r1.st, tid, script[1 + r1.used..], Corrected)
    ensures Safe(r2.st) && r2.out != UseAfterFree && r2.out != BadCall
    decreases |script|, 0, 0
  {
    assert WF(r1.st) && Safe(r1.st) && tid in r1.st.top && 1 + r1.used <= |script| by {
      PerformSafe(st, script[0], script[1..]);
      PerformEvolves(st, script[0], script[1..], Corrected);
      StaysOnTop(st, r1.st, tid);
    }
    LoopSafe(r1.st, tid, script[1 + r1.used..]);
  }

  /** `EmitSafe` for one action. */
  lemma {:induction false} StepSafe(st: Signal, a: Action, script: seq<Reaction>)
    requires WF(st) && Safe(st) && ScriptOk(script) && (a.Connect? ==> a.slot != NoCallback)
    ensures var r := Step(st, a, script, Corrected);
            Safe(r.st) && r.out != UseAfterFree && r.out != BadCall
    decreases |script|, 4
  {
    if a.Emit? {
      EmitSafe(st, script);
    } else {
      ApplySafe(st, a);
    }
  }

  /** `EmitSafe` for one reaction. */
  lemma {:induction false} PerformSafe(st: Signal, acts: Reaction, script: seq<Reaction>)
    requires WF(st) && Safe(st) && ScriptOk(script) && NoEmptyConnect(acts)
    ensures var r := Perform(st, acts, script, Corrected);
            Safe(r.st) && r.out != UseAfterFree && r.out != BadCall
    decreases |script|, 5, |acts|
  {
    if acts != [] {
      StepSafe(st, acts[0], script);
      var r1 := Step(st, acts[0], script, Corrected);
      if r1.out == Returned {
        PerformSafe(r1.st, acts[1..], script[r1.used..]);
        var r2 := Perform(r1.st, acts[1..], script[r1.used..], Corrected);
        assert Perform(st, acts, script, Corrected).st == r2.st;
        assert Perform(st, acts, script, Corrected).out == r2.out;
      } else {
        assert Perform(st, acts, script, Corrected) == r1;
      }
    }
  }

  // ---------------------------------------------------------------------
  // Emission order
  // ---------------------------------------------------------------------

  /** Every callback of the script does nothing. */
  predicate Idle(script: seq<Reaction>) {
    forall i :: 0 <= i < |script| ==> script[i] == []
  }

  /**
    In either build, an emission whose callbacks do nothing invokes the
    listed connections once each, in list order (newest first, since
    `connect` pushes to the front), returns normally, and pops its token.
   */
  lemma EmitOrder(st: Signal, xs: seq<NodeId>, script: seq<Reaction>, build: Build)
    requires Shape(st, xs) && Callable(st, xs) && st.alive && Idle(script) && |xs| <= |script|
    ensures var r := EmitRun(st, script, build);
            r.out == Returned && r.trace == xs && r.used == |xs| && r.st.top == st.top
  {
    var tid := |st.toks|;
    var st1 := PushOrder(st, xs);
    LoopOrder(st1, xs, tid, 0, script, build);
    LoopEvolves(st1, tid, script, build);
    var r := Loop(st1, tid, script, build);
    assert r.st.toks[tid].next == st.top;
  }

  /** The state `EmitRun` hands to the loop meets `LoopOrder`'s demands at position 0. */
  lemma PushOrder(st: Signal, xs: seq<NodeId>) returns (st1: Signal)
    requires Shape(st, xs) && Callable(st, xs) && st.alive
    ensures st1 == st.(toks := st.toks + [Token(Begin(st.heap, st.fake), st.top, true)], top := [|st.toks|] + st.top)
    ensures WF(st1) && Ring(st1.heap, st1.fake, xs) && Shape(st1, xs) && Callable(st1, xs) && st1.alive
    ensures st1.toks[|st.toks|].attached && st1.toks[|st.toks|].current == Pos(st1.fake, xs, 0)
    ensures st1.toks[|st.toks|].next == st.top
  {
    st1 := st.(toks := st.toks + [Token(Begin(st.heap, st.fake), st.top, true)], top := [|st.toks|] + st.top);
    assert Begin(st.heap, st.fake) == Pos(st.fake, xs, 0);
  }

  /** `EmitOrder` for the loop, from the cursor at position `k`. */
  lemma {:induction false} LoopOrder(st: Signal, xs: seq<NodeId>, tid: TokId, k: nat, script: seq<Reaction>, build: Build)
    requires WF(st) && Ring(st.heap, st.fake, xs) && Callable(st, xs) && st.alive
    requires tid < |st.toks| && st.toks[tid].attached && k <= |xs| && st.toks[tid].current == Pos(st.fake, xs, k)
    requires Idle(script) && |xs| - k <= |script|
    ensures var r := Loop(st, tid, script, build);
            && r.out == Returned && r.trace == xs[k..] && r.used == |xs| - k
            && r.st.toks[tid].attached && r.st.top == st.top && r.st.alive
    decreases |xs| - k, 1
  {
    if k < |xs| {
      RoundOrder(st, xs, tid, k, script, build, Round(st, tid, script, build));
    }
  }

  /** `EmitOrder` for one round `r` of the loop, at position `k < |xs|`. */
  lemma {:induction false} RoundOrder(st: Signal, xs: seq<NodeId>, tid: TokId, k: nat, script: seq<Reaction>, build: Build, r: Run)
    requires WF(st) && Ring(st.heap, st.fake, xs) && Callable(st, xs) && st.alive
    requires tid < |st.toks| && st.toks[tid].attached && k < |xs| && st.toks[tid].current == xs[k]
    requires Idle(script) && |xs| - k <= |script|
    requires r == Round(st, tid, script, build)
    ensures && r.out == Returned && r.trace == xs[k..] && r.used == |xs| - k
            && r.st.toks[tid].attached && r.st.top == st.top && r.st.alive
    decreases |xs| - k, 0
  {
    PostStepRing(st.heap, st.fake, xs, k);
    var st1 := st.(toks := st.toks[tid := st.toks[tid].(current := Pos(st.fake, xs, k + 1))]);
    var ri := Invoke(st1, tid, script, build);
    RoundInvokes(st, tid, script, build, st1, ri);
    InvokeOrder(st1, xs, tid, k + 1, script, build, ri);
    SuffixCons(xs, k);
  }

  /** The suffix from position `k` is the `k`-th element followed by the suffix after it. */
  lemma SuffixCons(xs: seq<NodeId>, k: nat)
    requires k < |xs|
    ensures xs[k..] == [xs[k]] + xs[k + 1..]
  {
    assert ([xs[k]] + xs[k + 1..])[1..] == xs[k + 1..];
  }

  /** `EmitOrder` for an idle callback and the rest of the loop from position `k`. */
  lemma {:induction false} InvokeOrder(st: Signal, xs: seq<NodeId>, tid: TokId, k: nat, script: seq<Reaction>, build: Build, r: Run)
    requires WF(st) && Ring(st.heap, st.fake, xs) && Callable(st, xs) && st.alive
    requires tid < |st.toks| && st.toks[tid].attached && 0 < k <= |xs| && st.toks[tid].current == Pos(st.fake, xs, k)
    requires Idle(script) && |xs| - k < |script|
    requires r == Invoke(st, tid, script, build)
    ensures && r.out == Returned && r.trace == xs[k..] && r.used == 1 + |xs| - k
            && r.st.toks[tid].attached && r.st.top == st.top && r.st.alive
    decreases |xs| - k, 2
  {
    var r1 := Perform(st, script[0], script[1..], build);
    assert r1 == Run(st, 0, [], Returned) by {
      assert script[0] == [];
    }
    assert script[1 + r1.used..] == script[1..];
    var r2 := Loop(st, tid, script[1..], build);
    InvokeResumes(st, tid, script, build, r1, r2);
    LoopOrder(st, xs, tid, k, script[1..], build);
  }


  /**
    As written, a callback that disconnects the connection the running
    emission's cursor already points at leaves the cursor on the unlinked
    node; the next round invokes its emptied slot, which throws
    `bad_function_call`.
   */
  lemma DisconnectNextAsWritten(st: Signal, xs: seq<NodeId>, k: nat, tid: TokId, script: seq<Reaction>)
    requires Shape(st, xs) && k < |xs|
    requires tid < |st.toks| && st.toks[tid].attached && st.toks[tid].current == xs[k]
    ensures var r := Loop(Signals.Disconnect(st, xs[k], AsWritten), tid, script, AsWritten);
            r.out == BadCall && r.trace == [xs[k]]
  {
    DisconnectAsWrittenCursors(st, xs, k);
    DisconnectShape(st, xs, k, AsWritten);
    assert xs[k] != st.fake;
  }

  /**
    Corrected, the same emission skips the disconnected connection and
    invokes exactly the ones after it, returning normally when their
    callbacks do nothing.
   */
  lemma DisconnectNextCorrected(st: Signal, xs: seq<NodeId>, k: nat, tid: TokId, j: nat, script: seq<Reaction>)
    requires Shape(st, xs) && Callable(st, xs) && k < |xs|
    requires j < |st.top| && st.top[j] == tid && st.toks[tid].attached && st.toks[tid].current == xs[k]
    requires Idle(script) && |xs| - k - 1 <= |script|
    ensures var r := Loop(Signals.Disconnect(st, xs[k], Corrected), tid, script, Corrected);
            r.out == Returned && r.trace == xs[k + 1..]
  {
    var ys := SkipDisconnected(st, xs, k, tid, j);
    LoopOrder(Signals.Disconnect(st, xs[k], Corrected), ys, tid, k, script, Corrected);
  }

  /** After the corrected `disconnect` of `xs[k]`, a cursor that was on it sits at position `k` of the remaining list. */
  lemma SkipDisconnected(st: Signal, xs: seq<NodeId>, k: nat, tid: TokId, j: nat) returns (ys: seq<NodeId>)
    requires Shape(st, xs) && Callable(st, xs) && k < |xs|
    requires j < |st.top| && st.top[j] == tid && st.toks[tid].attached && st.toks[tid].current == xs[k]
    ensures var r := Signals.Disconnect(st, xs[k], Corrected);
            && WF(r) && Ring(r.heap, r.fake, ys) && Callable(r, ys) && r.alive
            && tid < |r.toks| && r.toks[tid].attached && k <= |ys| && r.toks[tid].current == Pos(r.fake, ys, k)
            && |ys| == |xs| - 1 && ys[k..] == xs[k + 1..]
  {
    ys := xs[..k] + xs[k + 1..];
    DisconnectShape(st, xs, k, Corrected);
    DisconnectCorrectedCursors(st, xs, k);
    CallableRemove(st, xs, k, Signals.Disconnect(st, xs[k], Corrected));
    assert Pos(st.fake, xs, k + 1) == Pos(st.fake, ys, k);
    assert ys[k..] == xs[k + 1..];
  }

  /** Emptying the slot of `xs[k]` keeps the other listed connections callable. */
  lemma CallableRemove(st: Signal, xs: seq<NodeId>, k: nat, r: Signal)
    requires Callable(st, xs) && k < |xs| && Distinct(xs)
    requires r.conns == st.conns[xs[k] := Connection(false, NoCallback)]
    ensures Callable(r, xs[..k] + xs[k + 1..])
  {
    var ys := xs[..k] + xs[k + 1..];
    forall i | 0 <= i < |ys| ensures ys[i] < |r.conns| && r.conns[ys[i]].slot != NoCallback {
      if i < k {
        assert ys[i] == xs[i];
      } else {
        assert ys[i] == xs[i + 1];
      }
    }
  }

  /** A reaction that only destroys the signal returns normally with the destroyed state. */
  lemma PerformDestroy(st: Signal, rest: seq<Reaction>, build: Build)
    requires WF(st) && st.alive
    ensures Perform(st, [Destroy], rest, build) == Run(Signals.Destroy(st, build), 0, [], Returned)
  {
    assert Step(st, Destroy, rest, build) == Run(Signals.Destroy(st, build), 0, [], Returned);
  }

  /**
    A callback that destroys the signal while the emission's cursor is at
    `end()` (the last connection is running): as written the token stays
    attached and the loop then reads the destroyed signal; corrected the
    token is detached and the emission returns.
   */
  lemma DestroyAtEnd(st: Signal, xs: seq<NodeId>, tid: TokId, j: nat, script: seq<Reaction>, build: Build)
    requires Shape(st, xs) && st.alive
    requires j < |st.top| && st.top[j] == tid && st.toks[tid].attached && st.toks[tid].current == st.fake
    requires 0 < |script| && script[0] == [Destroy]
    ensures var r := Invoke(st, tid, script, build);
            && r.trace == []
            && r.out == (if build == AsWritten then UseAfterFree else Returned)
            && (build == Corrected ==> !r.st.toks[tid].attached) && !r.st.alive
  {
    var d := Signals.Destroy(st, build);
    PerformDestroy(st, script[1..], build);
    DestroyAttached(st, xs, tid, j, build);
    assert !d.alive;
  }

  /** Destroying the signal leaves the token at `end()` attached exactly in the as-written build. */
  lemma DestroyAttached(st: Signal, xs: seq<NodeId>, tid: TokId, j: nat, build: Build)
    requires Shape(st, xs)
    requires j < |st.top| && st.top[j] == tid && st.toks[tid].attached && st.toks[tid].current == st.fake
    ensures var d := Signals.Destroy(st, build);
            WF(d) && !d.alive && tid < |d.toks| && d.toks[tid].attached == (build == AsWritten)
  {
    DestroyShape(st, xs, build);
    assert tid in st.top;
  }

  /**
    An emission over a single connection whose callback destroys the
    signal: as written it ends in a use of the destroyed signal, corrected
    it returns normally.
   */
  lemma EmitDestroy(st: Signal, c: NodeId, script: seq<Reaction>, build: Build)
    requires Shape(st, [c]) && st.conns[c].slot != NoCallback && st.alive
    requires 0 < |script| && script[0] == [Destroy]
    ensures var r := EmitRun(st, script, build);
            && r.trace == [c]
            && r.out == (if build == AsWritten then UseAfterFree else Returned)
  {
    var tid := |st.toks|;
    var st1 := PushOrder(st, [c]);
    RoundDestroy(st1, c, tid, script, build);
    assert Loop(st1, tid, script, build) == Round(st1, tid, script, build);
  }

  /** The single round of `EmitDestroy`. */
  lemma RoundDestroy(st: Signal, c: NodeId, tid: TokId, script: seq<Reaction>, build: Build)
    requires Shape(st, [c]) && st.conns[c].slot != NoCallback && st.alive
    requires 0 < |st.top| && st.top[0] == tid && st.toks[tid].attached && st.toks[tid].current == c
    requires 0 < |script| && script[0] == [Destroy]
    ensures var r := Round(st, tid, script, build);
            && r.trace == [c]
            && r.out == (if build == AsWritten then UseAfterFree else Returned)
            && (build == Corrected ==> !r.st.toks[tid].attached) && !r.st.alive
  {
    PostStepRing(st.heap, st.fake, [c], 0);
    var st2 := st.(toks := st.toks[tid := st.toks[tid].(current := st.fake)]);
    DestroyAtEnd(st2, [c], tid, 0, script, build);
  }
}
