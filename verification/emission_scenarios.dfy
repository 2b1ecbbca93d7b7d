/**
  Whole emissions whose callbacks mutate the signal: a callback that
  disconnects its own connection, one that emits again, and one that
  destroys the signal.  Every other callback of the script does nothing.
 */
module EmissionScenarios {
  import opened IntrusiveList
  import opened ListLemmas
  import opened ListOps
  import opened Signals
  import opened SignalLemmas
  import opened Emission
  import opened EmissionLemmas

  /** The state with the cursor of token `tid` moved to `cur`. */
  function MoveCursor(st: Signal, tid: TokId, cur: NodeId): Signal
    requires tid < |st.toks|
  {
    st.(toks := st.toks[tid := st.toks[tid].(current := cur)])
  }

  /** The first `d` reactions of the script do nothing. */
  predicate IdleBefore(script: seq<Reaction>, d: nat) {
    d <= |script| && forall i :: 0 <= i < d ==> script[i] == []
  }

  /** Every reaction but the `k`-th does nothing. */
  predicate IdleExcept(script: seq<Reaction>, k: nat) {
    forall i :: 0 <= i < |script| && i != k ==> script[i] == []
  }

  /** Moving a cursor to a position of the list keeps the signal's shape and callable slots. */
  lemma MoveCursorShape(st: Signal, xs: seq<NodeId>, tid: TokId, k: nat)
    requires Shape(st, xs) && Callable(st, xs) && tid < |st.toks| && k <= |xs|
    ensures var st1 := MoveCursor(st, tid, Pos(st.fake, xs, k));
            && Shape(st1, xs) && Callable(st1, xs) && st1.top == st.top && st1.alive == st.alive
            && |st1.toks| == |st.toks| && st1.toks[tid] == st.toks[tid].(current := Pos(st.fake, xs, k))
  {
  }

  /** A reaction of a single action behaves as that action. */
  lemma PerformOne(st: Signal, a: Action, rest: seq<Reaction>, build: Build)
    requires WF(st)
    ensures Perform(st, [a], rest, build) == Step(st, a, rest, build)
  {
    var r1 := Step(st, a, rest, build);
    if r1.out == Returned {
      assert [a][1..] == [];
      assert Perform(r1.st, [], rest[r1.used..], build) == Run(r1.st, 0, [], Returned);
      assert r1.trace + [] == r1.trace;
    }
  }

  // ---------------------------------------------------------------------
  // Rounds whose callbacks do nothing
  // ---------------------------------------------------------------------

  /**
    The rounds from position `k` to position `j` with idle callbacks: they
    invoke `xs[k..j]`, consume `j - k` reactions and only move the cursor,
    so the loop goes on from position `j` with the rest `tail` of the
    script, as the run `rest`.
   */
  lemma {:induction false} LoopSkip(st: Signal, xs: seq<NodeId>, tid: TokId, k: nat, j: nat, script: seq<Reaction>, build: Build,
                                    target: Signal, tail: seq<Reaction>, rest: Run)
    requires WF(st) && Ring(st.heap, st.fake, xs) && Callable(st, xs) && st.alive
    requires tid < |st.toks| && st.toks[tid].attached && k <= j <= |xs| && st.toks[tid].current == Pos(st.fake, xs, k)
    requires IdleBefore(script, j - k)
    requires target == MoveCursor(st, tid, Pos(st.fake, xs, j)) && tail == script[j - k..]
    requires rest == Loop(target, tid, tail, build)
    ensures var r := Loop(st, tid, script, build);
            r == Run(rest.st, r.used, xs[k..j] + rest.trace, rest.out) && r.used == j - k + rest.used
    decreases j - k, 1
  {
    if k == j {
      assert target == st by {
        assert target.toks == st.toks;
      }
      assert tail == script;
      assert xs[k..j] + rest.trace == rest.trace;
    } else {
      RoundSkip(st, xs, tid, k, j, script, build, Round(st, tid, script, build), target, tail, rest);
    }
  }

  /** The first of the rounds of `LoopSkip`, which invokes `xs[k]`. */
  lemma {:induction false} RoundSkip(st: Signal, xs: seq<NodeId>, tid: TokId, k: nat, j: nat, script: seq<Reaction>, build: Build, r: Run,
                                     target: Signal, tail: seq<Reaction>, rest: Run)
    requires WF(st) && Ring(st.heap, st.fake, xs) && Callable(st, xs) && st.alive
    requires tid < |st.toks| && st.toks[tid].attached && k < j <= |xs| && st.toks[tid].current == xs[k]
    requires IdleBefore(script, j - k)
    requires r == Round(st, tid, script, build)
    requires target == MoveCursor(st, tid, Pos(st.fake, xs, j)) && tail == script[j - k..]
    requires rest == Loop(target, tid, tail, build)
    ensures r == Run(rest.st, r.used, xs[k..j] + rest.trace, rest.out) && r.used == j - k + rest.used
    decreases j - k, 0
  {
    var st1 := Advance(st, xs, tid, k);
    MoveCursorTwice(st, tid, Pos(st.fake, xs, k + 1), Pos(st.fake, xs, j));
    var ri := Invoke(st1, tid, script, build);
    RoundInvokes(st, tid, script, build, st1, ri);
    assert tail == script[1 + (j - (k + 1))..];
    InvokeSkip(st1, xs, tid, k + 1, j, script, build, ri, target, tail, rest);
    SliceCons(xs, k, j);
    ConsAppend(xs[k], xs[k + 1..j], rest.trace, xs[k..j]);
  }

  /** The state a round hands to its callback: the cursor has stepped from `xs[k]` to position `k + 1`. */
  lemma Advance(st: Signal, xs: seq<NodeId>, tid: TokId, k: nat) returns (st1: Signal)
    requires WF(st) && Ring(st.heap, st.fake, xs) && Callable(st, xs) && st.alive
    requires tid < |st.toks| && st.toks[tid].attached && k < |xs| && st.toks[tid].current == xs[k]
    ensures st1 == st.(toks := st.toks[tid := st.toks[tid].(current := PostInc(st.heap, st.toks[tid].current).0)])
    ensures st1 == MoveCursor(st, tid, Pos(st.fake, xs, k + 1))
    ensures WF(st1) && Ring(st1.heap, st1.fake, xs) && Callable(st1, xs) && st1.alive && st1.fake == st.fake
    ensures tid < |st1.toks| && st1.toks[tid].attached && st1.toks[tid].current == Pos(st1.fake, xs, k + 1)
    ensures st.conns[st.toks[tid].current].slot != NoCallback
  {
    PostStepRing(st.heap, st.fake, xs, k);
    st1 := MoveCursor(st, tid, Pos(st.fake, xs, k + 1));
  }

  /** Moving a cursor twice is moving it once, to the second place. */
  lemma MoveCursorTwice(st: Signal, tid: TokId, a: NodeId, b: NodeId)
    requires tid < |st.toks|
    ensures MoveCursor(MoveCursor(st, tid, a), tid, b) == MoveCursor(st, tid, b)
  {
    assert MoveCursor(MoveCursor(st, tid, a), tid, b).toks == MoveCursor(st, tid, b).toks;
  }

  /** A non-empty slice is its first element followed by the rest of it. */
  lemma SliceCons(xs: seq<NodeId>, k: nat, j: nat)
    requires k < j <= |xs|
    ensures xs[k..j] == [xs[k]] + xs[k + 1..j]
  {
    assert ([xs[k]] + xs[k + 1..j])[1..] == xs[k + 1..j];
  }

  /** Prefixing one element to a concatenation prefixes it to the first part. */
  lemma ConsAppend(x: NodeId, a: seq<NodeId>, b: seq<NodeId>, c: seq<NodeId>)
    requires c == [x] + a
    ensures [x] + (a + b) == c + b
  {
    assert [x] + (a + b) == ([x] + a) + b;
  }

  /** A sequence is its prefix before `k` followed by its suffix from `k`. */
  lemma PrefixSuffix(xs: seq<NodeId>, k: nat)
    requires k <= |xs|
    ensures xs[..k] + xs[k..] == xs
  {
  }

  /** The prefix before `k` followed by the `k`-th element is the prefix before `k + 1`. */
  lemma PrefixSnoc(xs: seq<NodeId>, k: nat)
    requires k < |xs|
    ensures xs[..k] + [xs[k]] == xs[..k + 1]
  {
  }

  /** The invocation order of a nested emission spliced in after the `k`-th element. */
  lemma PrefixSplice(xs: seq<NodeId>, k: nat)
    requires k < |xs|
    ensures xs[..k] + ([xs[k]] + xs + xs[k + 1..]) == xs[..k + 1] + xs + xs[k + 1..]
  {
    PrefixSnoc(xs, k);
    assert xs[..k] + ([xs[k]] + xs + xs[k + 1..]) == (xs[..k] + [xs[k]]) + xs + xs[k + 1..];
  }

  /** An idle callback, then the idle rounds from position `k` to position `j`. */
  lemma {:induction false} InvokeSkip(st: Signal, xs: seq<NodeId>, tid: TokId, k: nat, j: nat, script: seq<Reaction>, build: Build, r: Run,
                                      target: Signal, tail: seq<Reaction>, rest: Run)
    requires WF(st) && Ring(st.heap, st.fake, xs) && Callable(st, xs) && st.alive
    requires tid < |st.toks| && st.toks[tid].attached && k <= j <= |xs| && st.toks[tid].current == Pos(st.fake, xs, k)
    requires IdleBefore(script, 1 + (j - k))
    requires r == Invoke(st, tid, script, build)
    requires target == MoveCursor(st, tid, Pos(st.fake, xs, j)) && tail == script[1 + (j - k)..]
    requires rest == Loop(target, tid, tail, build)
    ensures r == Run(rest.st, r.used, xs[k..j] + rest.trace, rest.out) && r.used == 1 + (j - k) + rest.used
    decreases j - k, 2
  {
    var r1 := Perform(st, script[0], script[1..], build);
    assert r1 == Run(st, 0, [], Returned) by {
      assert script[0] == [];
    }
    assert script[1 + r1.used..] == script[1..];
    InvokeResumes(st, tid, script, build, r1, Loop(st, tid, script[1..], build));
    assert IdleBefore(script[1..], j - k);
    assert tail == script[1..][j - k..];
    LoopSkip(st, xs, tid, k, j, script[1..], build, target, tail, rest);
  }

  /**
    The idle rounds before position `k < |xs|`, from `begin()`: the loop
    invokes `xs[..k]`, then runs the round `ra` at `xs[k]` on the state
    `stk` whose only change is the cursor.
   */
  lemma LoopTo(st: Signal, xs: seq<NodeId>, tid: TokId, k: nat, script: seq<Reaction>, build: Build) returns (stk: Signal, ra: Run)
    requires Shape(st, xs) && Callable(st, xs) && st.alive
    requires tid < |st.toks| && st.toks[tid].attached && st.toks[tid].current == Pos(st.fake, xs, 0)
    requires k < |xs| && k < |script| && IdleBefore(script, k)
    ensures Shape(stk, xs) && Callable(stk, xs) && stk.alive && stk.top == st.top && |stk.toks| == |st.toks|
    ensures stk.toks[tid] == st.toks[tid].(current := xs[k])
    ensures ra == Round(stk, tid, script[k..], build)
    ensures var r := Loop(st, tid, script, build);
            r == Run(ra.st, r.used, xs[..k] + ra.trace, ra.out)
  {
    MoveCursorShape(st, xs, tid, k);
    stk := MoveCursor(st, tid, Pos(st.fake, xs, k));
    ra := Loop(stk, tid, script[k..], build);
    LoopSkip(st, xs, tid, 0, k, script, build, stk, script[k..], ra);
    assert ra == Round(stk, tid, script[k..], build);
    assert xs[0..k] == xs[..k];
  }

  /**
    An emission whose first `|xs|` callbacks do nothing changes nothing but
    the token arena, which keeps its finished token (cursor at `end()`),
    and invokes every listed connection once, in list order.
   */
  lemma EmitIdle(st: Signal, xs: seq<NodeId>, script: seq<Reaction>, build: Build)
    requires Shape(st, xs) && Callable(st, xs) && st.alive && IdleBefore(script, |xs|)
    ensures EmitRun(st, script, build) == Run(st.(toks := st.toks + [Token(st.fake, st.top, true)]), |xs|, xs, Returned)
  {
    var tid := |st.toks|;
    var st1 := PushOrder(st, xs);
    var ste := LoopAtEnd(st1, xs, tid, script[|xs|..], build);
    LoopSkip(st1, xs, tid, 0, |xs|, script, build, ste, script[|xs|..], Run(ste, 0, [], Returned));
    PrefixSuffix(xs, |xs|);
    FinishedToken(st, st1, ste, tid);
  }

  /** With the cursor moved to `end()`, the loop stops at once. */
  lemma LoopAtEnd(st: Signal, xs: seq<NodeId>, tid: TokId, tail: seq<Reaction>, build: Build) returns (ste: Signal)
    requires Shape(st, xs) && Callable(st, xs) && st.alive && tid < |st.toks| && st.toks[tid].attached
    ensures ste == MoveCursor(st, tid, Pos(st.fake, xs, |xs|))
    ensures ste.toks == st.toks[tid := st.toks[tid].(current := st.fake)] && ste.top == st.top
    ensures Loop(ste, tid, tail, build) == Run(ste, 0, [], Returned)
  {
    MoveCursorShape(st, xs, tid, |xs|);
    ste := MoveCursor(st, tid, Pos(st.fake, xs, |xs|));
  }

  /** Popping the pushed token, finished at `end()`, leaves the token arena one finished token longer. */
  lemma FinishedToken(st: Signal, st1: Signal, ste: Signal, tid: TokId)
    requires WF(st) && tid == |st.toks|
    requires st1 == st.(toks := st.toks + [Token(Begin(st.heap, st.fake), st.top, true)], top := [tid] + st.top)
    requires ste.toks == st1.toks[tid := st1.toks[tid].(current := st.fake)] && ste.heap == st1.heap && ste.conns == st1.conns
    requires ste.fake == st1.fake && ste.alive == st1.alive
    ensures ste.(top := ste.toks[tid].next) == st.(toks := st.toks + [Token(st.fake, st.top, true)])
  {
    assert ste.toks == st.toks + [Token(st.fake, st.top, true)];
  }

  // ---------------------------------------------------------------------
  // A callback disconnects its own connection
  // ---------------------------------------------------------------------

  /**
    In either build, an emission in which the callback of the `k`-th
    connection disconnects that connection, and every other callback does
    nothing, still invokes every listed connection exactly once, in order,
    and returns normally with the token stack restored.
   */
  lemma EmitSelfDisconnect(st: Signal, xs: seq<NodeId>, k: nat, script: seq<Reaction>, build: Build)
    requires Shape(st, xs) && Callable(st, xs) && st.alive && k < |xs| <= |script|
    requires script[k] == [Action.Disconnect(xs[k])] && IdleExcept(script, k)
    ensures var r := EmitRun(st, script, build);
            r.out == Returned && r.trace == xs && r.st.top == st.top
  {
    var tid := |st.toks|;
    var st1 := PushOrder(st, xs);
    LoopSelfDisconnect(st1, xs, tid, k, script, build);
    LoopEvolves(st1, tid, script, build);
    assert Loop(st1, tid, script, build).st.toks[tid].next == st.top;
  }

  /** The loop of `EmitSelfDisconnect`, from `begin()`. */
  lemma LoopSelfDisconnect(st: Signal, xs: seq<NodeId>, tid: TokId, k: nat, script: seq<Reaction>, build: Build)
    requires Shape(st, xs) && Callable(st, xs) && st.alive
    requires tid < |st.toks| && st.toks[tid].attached && st.toks[tid].current == Pos(st.fake, xs, 0)
    requires k < |xs| <= |script| && script[k] == [Action.Disconnect(xs[k])] && IdleExcept(script, k)
    ensures var r := Loop(st, tid, script, build);
            r.out == Returned && r.trace == xs && r.st.toks[tid].attached && r.st.alive
  {
    var stk, ra := LoopTo(st, xs, tid, k, script, build);
    assert IdleExcept(script[k..], 0);
    SelfDisconnectRound(stk, xs, tid, k, script[k..], build, ra);
    PrefixSuffix(xs, k);
  }

  /** The round of `EmitSelfDisconnect` that invokes `xs[k]`, and the rest of the loop. */
  lemma SelfDisconnectRound(st: Signal, xs: seq<NodeId>, tid: TokId, k: nat, script: seq<Reaction>, build: Build, r: Run)
    requires Shape(st, xs) && Callable(st, xs) && st.alive
    requires tid < |st.toks| && st.toks[tid].attached && k < |xs| && st.toks[tid].current == xs[k]
    requires 0 < |script| && script[0] == [Action.Disconnect(xs[k])] && IdleExcept(script, 0) && |xs| - k <= |script|
    requires r == Round(st, tid, script, build)
    ensures r.out == Returned && r.trace == xs[k..] && r.st.toks[tid].attached && r.st.alive
  {
    MoveCursorShape(st, xs, tid, k + 1);
    var st1 := Advance(st, xs, tid, k);
    var ri := Invoke(st1, tid, script, build);
    RoundInvokes(st, tid, script, build, st1, ri);
    SelfDisconnectInvoke(st1, xs, tid, k, script, build, ri);
    SuffixCons(xs, k);
  }

  /** The callback that disconnects `xs[k]`, after the cursor has moved past it, and the rest of the loop. */
  lemma SelfDisconnectInvoke(st: Signal, xs: seq<NodeId>, tid: TokId, k: nat, script: seq<Reaction>, build: Build, r: Run)
    requires Shape(st, xs) && Callable(st, xs) && st.alive
    requires tid < |st.toks| && st.toks[tid].attached && k < |xs| && st.toks[tid].current == Pos(st.fake, xs, k + 1)
    requires 0 < |script| && script[0] == [Action.Disconnect(xs[k])] && IdleExcept(script, 0) && |xs| - k <= |script|
    requires r == Invoke(st, tid, script, build)
    ensures r.out == Returned && r.trace == xs[k + 1..] && r.st.toks[tid].attached && r.st.alive
  {
    var ys := DisconnectReaction(st, xs, k, tid, script, build);
    var r1 := Run(Signals.Disconnect(st, xs[k], build), 0, [], Returned);
    var tail := script[1 + r1.used..];
    InvokeResumes(st, tid, script, build, r1, Loop(r1.st, tid, tail, build));
    assert Idle(tail);
    LoopOrder(r1.st, ys, tid, k, tail, build);
  }

  /** The reaction of `SelfDisconnectInvoke`: `disconnect` of `xs[k]`, which leaves `ys`. */
  lemma DisconnectReaction(st: Signal, xs: seq<NodeId>, k: nat, tid: TokId, script: seq<Reaction>, build: Build) returns (ys: seq<NodeId>)
    requires Shape(st, xs) && Callable(st, xs) && st.alive && k < |xs|
    requires tid < |st.toks| && st.toks[tid].attached && st.toks[tid].current == Pos(st.fake, xs, k + 1)
    requires 0 < |script| && script[0] == [Action.Disconnect(xs[k])]
    ensures Perform(st, script[0], script[1..], build) == Run(Signals.Disconnect(st, xs[k], build), 0, [], Returned)
    ensures var r := Signals.Disconnect(st, xs[k], build);
            && WF(r) && Ring(r.heap, r.fake, ys) && Callable(r, ys) && r.alive
            && tid < |r.toks| && r.toks[tid].attached && k <= |ys| && r.toks[tid].current == Pos(r.fake, ys, k)
            && |ys| == |xs| - 1 && ys[k..] == xs[k + 1..]
  {
    PerformOne(st, Action.Disconnect(xs[k]), script[1..], build);
    ys := DisconnectBehind(st, xs, k, tid, build);
  }

  /**
    Disconnecting `xs[k]` while the cursor has already moved on to position
    `k + 1` leaves that cursor where it is, which is position `k` of the
    remaining list, in either build.
   */
  lemma DisconnectBehind(st: Signal, xs: seq<NodeId>, k: nat, tid: TokId, build: Build) returns (ys: seq<NodeId>)
    requires Shape(st, xs) && Callable(st, xs) && st.alive && k < |xs|
    requires tid < |st.toks| && st.toks[tid].attached && st.toks[tid].current == Pos(st.fake, xs, k + 1)
    ensures var r := Signals.Disconnect(st, xs[k], build);
            && WF(r) && Ring(r.heap, r.fake, ys) && Callable(r, ys) && r.alive
            && tid < |r.toks| && r.toks[tid].attached && k <= |ys| && r.toks[tid].current == Pos(r.fake, ys, k)
            && |ys| == |xs| - 1 && ys[k..] == xs[k + 1..]
  {
    ys := xs[..k] + xs[k + 1..];
    DisconnectShape(st, xs, k, build);
    CursorBehind(st, xs, k, tid, build);
    CallableRemove(st, xs, k, Signals.Disconnect(st, xs[k], build));
    assert Pos(st.fake, xs, k + 1) == Pos(st.fake, ys, k);
    assert ys[k..] == xs[k + 1..];
  }

  /** In either build, `disconnect` of `xs[k]` moves no cursor that is already past it. */
  lemma CursorBehind(st: Signal, xs: seq<NodeId>, k: nat, tid: TokId, build: Build)
    requires Shape(st, xs) && k < |xs| && tid < |st.toks| && st.toks[tid].current == Pos(st.fake, xs, k + 1)
    ensures Signals.Disconnect(st, xs[k], build).toks[tid].current == Pos(st.fake, xs, k + 1)
  {
    assert Pos(st.fake, xs, k + 1) != xs[k];
    if build == AsWritten {
      DisconnectAsWrittenCursors(st, xs, k);
    } else {
      DisconnectCorrectedCursors(st, xs, k);
    }
  }

  // ---------------------------------------------------------------------
  // A callback emits again
  // ---------------------------------------------------------------------

  /**
    In either build, when the callback of the `k`-th connection emits the
    signal again and every other callback does nothing, the nested
    emission invokes the whole list from `begin()`, and then the outer one
    resumes after `xs[k]`: the connections are invoked in the order
    `xs[..k + 1] + xs + xs[k + 1..]`, and the token stack is restored.
   */
  lemma EmitReentrant(st: Signal, xs: seq<NodeId>, k: nat, script: seq<Reaction>, build: Build)
    requires Shape(st, xs) && Callable(st, xs) && st.alive && k < |xs| && 2 * |xs| <= |script|
    requires script[k] == [Emit] && IdleExcept(script, k)
    ensures var r := EmitRun(st, script, build);
            r.out == Returned && r.trace == xs[..k + 1] + xs + xs[k + 1..] && r.st.top == st.top
  {
    var tid := |st.toks|;
    var st1 := PushOrder(st, xs);
    LoopReentrant(st1, xs, tid, k, script, build);
    LoopEvolves(st1, tid, script, build);
    assert Loop(st1, tid, script, build).st.toks[tid].next == st.top;
  }

  /** The loop of `EmitReentrant`, from `begin()`. */
  lemma LoopReentrant(st: Signal, xs: seq<NodeId>, tid: TokId, k: nat, script: seq<Reaction>, build: Build)
    requires Shape(st, xs) && Callable(st, xs) && st.alive
    requires tid < |st.toks| && st.toks[tid].attached && st.toks[tid].current == Pos(st.fake, xs, 0)
    requires k < |xs| && 2 * |xs| <= |script| && script[k] == [Emit] && IdleExcept(script, k)
    ensures var r := Loop(st, tid, script, build);
            r.out == Returned && r.trace == xs[..k + 1] + xs + xs[k + 1..] && r.st.toks[tid].attached && r.st.alive
  {
    var stk, ra := LoopTo(st, xs, tid, k, script, build);
    assert IdleExcept(script[k..], 0);
    ReentrantRound(stk, xs, tid, k, script[k..], build, ra);
    PrefixSplice(xs, k);
  }

  /** The round of `EmitReentrant` that invokes `xs[k]`, and the rest of the loop. */
  lemma ReentrantRound(st: Signal, xs: seq<NodeId>, tid: TokId, k: nat, script: seq<Reaction>, build: Build, r: Run)
    requires Shape(st, xs) && Callable(st, xs) && st.alive
    requires tid < |st.toks| && st.toks[tid].attached && k < |xs| && st.toks[tid].current == xs[k]
    requires 0 < |script| && script[0] == [Emit] && IdleExcept(script, 0) && 2 * |xs| - k <= |script|
    requires r == Round(st, tid, script, build)
    ensures r.out == Returned && r.trace == [xs[k]] + xs + xs[k + 1..] && r.st.toks[tid].attached && r.st.alive
  {
    MoveCursorShape(st, xs, tid, k + 1);
    var st1 := Advance(st, xs, tid, k);
    var ri := Invoke(st1, tid, script, build);
    RoundInvokes(st, tid, script, build, st1, ri);
    ReentrantInvoke(st1, xs, tid, k, script, build, ri);
    ConsAppend(xs[k], xs, xs[k + 1..], [xs[k]] + xs);
  }

  /** The callback that emits again, after the cursor has moved past `xs[k]`, and the rest of the outer loop. */
  lemma ReentrantInvoke(st: Signal, xs: seq<NodeId>, tid: TokId, k: nat, script: seq<Reaction>, build: Build, r: Run)
    requires Shape(st, xs) && Callable(st, xs) && st.alive
    requires tid < |st.toks| && st.toks[tid].attached && k < |xs| && st.toks[tid].current == Pos(st.fake, xs, k + 1)
    requires 0 < |script| && script[0] == [Emit] && IdleExcept(script, 0) && 2 * |xs| - k <= |script|
    requires r == Invoke(st, tid, script, build)
    ensures r.out == Returned && r.trace == xs + xs[k + 1..] && r.st.toks[tid].attached && r.st.alive
  {
    var ste := NestedReaction(st, xs, script, build);
    var r1 := Run(ste, |xs|, xs, Returned);
    var tail := script[1 + r1.used..];
    InvokeResumes(st, tid, script, build, r1, Loop(r1.st, tid, tail, build));
    assert Idle(tail);
    LoopOrder(ste, xs, tid, k + 1, tail, build);
  }

  /**
    The reaction of `ReentrantInvoke`, a nested emission: it leaves the
    outer state as it was, but for its finished token.
   */
  lemma NestedReaction(st: Signal, xs: seq<NodeId>, script: seq<Reaction>, build: Build) returns (ste: Signal)
    requires Shape(st, xs) && Callable(st, xs) && st.alive
    requires 0 < |script| && script[0] == [Emit] && IdleExcept(script, 0) && |xs| < |script|
    ensures ste == st.(toks := st.toks + [Token(st.fake, st.top, true)])
    ensures Perform(st, script[0], script[1..], build) == Run(ste, |xs|, xs, Returned)
    ensures WF(ste) && Ring(ste.heap, ste.fake, xs) && Callable(ste, xs) && ste.alive && ste.top == st.top
    ensures forall t :: 0 <= t < |st.toks| ==> ste.toks[t] == st.toks[t]
  {
    ste := st.(toks := st.toks + [Token(st.fake, st.top, true)]);
    assert IdleBefore(script[1..], |xs|);
    EmitIdle(st, xs, script[1..], build);
    PerformOne(st, Emit, script[1..], build);
  }

  // ---------------------------------------------------------------------
  // A callback destroys the signal
  // ---------------------------------------------------------------------

  /**
    When the callback of the `k`-th connection destroys the signal (the
    callbacks before it doing nothing), no further callback runs: the
    emission has invoked exactly `xs[..k + 1]`.  Corrected it then returns
    normally; as written it does so too, unless `xs[k]` was the last
    connection, where the emission goes on to touch the destroyed signal.
   */
  lemma EmitDestroyAt(st: Signal, xs: seq<NodeId>, k: nat, script: seq<Reaction>, build: Build)
    requires Shape(st, xs) && Callable(st, xs) && st.alive && k < |xs| && k < |script|
    requires script[k] == [Action.Destroy] && IdleBefore(script, k)
    ensures var r := EmitRun(st, script, build);
            && r.trace == xs[..k + 1] && !r.st.alive
            && r.out == (if build == AsWritten && k == |xs| - 1 then UseAfterFree else Returned)
  {
    var tid := |st.toks|;
    var st1 := PushOrder(st, xs);
    LoopDestroyAt(st1, xs, tid, k, script, build);
  }

  /** The loop of `EmitDestroyAt`, from `begin()`, for the token on top of the stack. */
  lemma LoopDestroyAt(st: Signal, xs: seq<NodeId>, tid: TokId, k: nat, script: seq<Reaction>, build: Build)
    requires Shape(st, xs) && Callable(st, xs) && st.alive
    requires 0 < |st.top| && st.top[0] == tid && st.toks[tid].attached && st.toks[tid].current == Pos(st.fake, xs, 0)
    requires k < |xs| && k < |script| && script[k] == [Action.Destroy] && IdleBefore(script, k)
    ensures var r := Loop(st, tid, script, build);
            && r.trace == xs[..k + 1] && !r.st.alive
            && r.out == (if build == AsWritten && k == |xs| - 1 then UseAfterFree else Returned)
            && (r.out == Returned ==> !r.st.toks[tid].attached)
  {
    var stk, ra := LoopTo(st, xs, tid, k, script, build);
    DestroyRound(stk, xs, tid, k, script[k..], build, ra);
    PrefixSnoc(xs, k);
  }

  /** The round of `EmitDestroyAt` that invokes `xs[k]`. */
  lemma DestroyRound(st: Signal, xs: seq<NodeId>, tid: TokId, k: nat, script: seq<Reaction>, build: Build, r: Run)
    requires Shape(st, xs) && Callable(st, xs) && st.alive
    requires 0 < |st.top| && st.top[0] == tid && st.toks[tid].attached && k < |xs| && st.toks[tid].current == xs[k]
    requires 0 < |script| && script[0] == [Action.Destroy]
    requires r == Round(st, tid, script, build)
    ensures && r.trace == [xs[k]] && !r.st.alive
            && r.out == (if build == AsWritten && k == |xs| - 1 then UseAfterFree else Returned)
            && (r.out == Returned ==> !r.st.toks[tid].attached)
  {
    MoveCursorShape(st, xs, tid, k + 1);
    var st1 := Advance(st, xs, tid, k);
    var ri := Invoke(st1, tid, script, build);
    RoundInvokes(st, tid, script, build, st1, ri);
    DestroyInvoke(st1, xs, tid, k, script, build);
  }

  /** The callback that destroys the signal, after the cursor has moved past `xs[k]`. */
  lemma DestroyInvoke(st: Signal, xs: seq<NodeId>, tid: TokId, k: nat, script: seq<Reaction>, build: Build)
    requires Shape(st, xs) && st.alive
    requires 0 < |st.top| && st.top[0] == tid && st.toks[tid].attached && k < |xs| && st.toks[tid].current == Pos(st.fake, xs, k + 1)
    requires 0 < |script| && script[0] == [Action.Destroy]
    ensures var r := Invoke(st, tid, script, build);
            && r.trace == [] && !r.st.alive
            && r.out == (if build == AsWritten && k == |xs| - 1 then UseAfterFree else Returned)
            && (r.out == Returned ==> !r.st.toks[tid].attached)
  {
    if k == |xs| - 1 {
      DestroyAtEnd(st, xs, tid, 0, script, build);
    } else {
      DestroyInside(st, xs, tid, k + 1, script, build);
    }
  }

  /**
    A callback that destroys the signal while the emission's cursor is on
    a listed connection: in either build the token is detached and the
    emission returns without invoking anything more.
   */
  lemma DestroyInside(st: Signal, xs: seq<NodeId>, tid: TokId, k: nat, script: seq<Reaction>, build: Build)
    requires Shape(st, xs) && st.alive
    requires 0 < |st.top| && st.top[0] == tid && st.toks[tid].attached && k < |xs| && st.toks[tid].current == xs[k]
    requires 0 < |script| && script[0] == [Action.Destroy]
    ensures var r := Invoke(st, tid, script, build);
            r.trace == [] && r.out == Returned && !r.st.alive && !r.st.toks[tid].attached
  {
    var d := Signals.Destroy(st, build);
    PerformDestroy(st, script[1..], build);
    DestroyShape(st, xs, build);
    assert xs[k] != st.fake;
    InvokeStops(st, tid, script, build, Run(d, 0, [], Returned));
  }
}
