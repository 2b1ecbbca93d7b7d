# signal_task in Dafny

A model of the two headers at the core of the `signal_task` library:

- `intrusive_list.h`: a circular, doubly linked, intrusive list. Every element embeds its own `prev`/`next` pointers, and the list owns a sentinel (`fake_node`).
- `signals.h`: an observer primitive built on that list.
  - A `signal` holds a list of `connection`s.
  - `connect` links a new connection at the front.
  - `operator()` walks the list and invokes every connection's slot.
  - Callbacks may disconnect, move or move-assign connections, connect new ones, emit again, throw, or destroy the signal. Every running emission keeps an `iteration_token` on the signal's token stack, so these mutations can repair the emissions' cursors.

## How the model is built

**Heap.** Objects live in an arena, `Heap = seq<Link>`.
- A node's identity is its index. `Link(prev, next)` holds its two pointers.
- `Ring(h, s, xs)` relates a heap to the sequence `xs` of elements of the list with sentinel `s`, in list order.
- `Pos(s, xs, k)` is the iterator at position `k`, which is `end()` when `k == |xs|`.

**Operations.**
- Every list operation is a pure function on the heap that performs the pointer writes of the source in source order (module `IntrusiveList`).
- The list-level lemmas (module `ListLemmas`) state what those writes mean for the sequence.
- The loops `clear()` and the traversals are methods with loop invariants (module `ListOps`).

**Signal.** A `Signal` value (module `Signals`) holds:
- the heap;
- the fields each connection adds to its list element: whether `sig` is set, and the slot;
- the sentinel;
- the token arena and the signal's token stack, with `top_token` first;
- whether the signal is still alive.

**Builds.** Two statements of `signals.h` do not do what the surrounding code relies on (see Findings). The `Build` parameter selects the code as written (`AsWritten`) or the corrected code (`Corrected`).

**Emission.** Module `Emission` interprets `operator()` together with the callbacks it runs.
- A callback's body is a *reaction* taken from a script: a sequence of actions.
- The functions `Loop`, `Round` and `Invoke` follow the loop of `signals.h:101-113`.
- `EmitRun` adds the token's constructor and destructor.
- A run ends `Returned`, `Threw`, `BadCall` (an empty `std::function` was invoked), `Exhausted` (the script ran out), `Misuse` (the script asked for something a caller may not do) or `UseAfterFree` (the library itself touched the destroyed signal).

**Invariants.**
- `SignalLemmas.Shape(st, xs)`: the list holds `xs`, every other object is unlinked, and a destroyed signal is empty. Both builds keep it.
- `Cursors`: every attached token on the stack designates a listed connection or `end()`.
- `Detached`: a destroyed signal has no attached token.
- The corrected build keeps `Cursors` and `Detached`.
- `EmissionLemmas.Safe` adds that every listed slot is callable.

## Model

| member | source | states |
|---|---|---|
| IntrusiveList.NewElement | intrusive_list.h:24-27 | A new element is a fresh object that points to itself both ways, so `is_linked()` is false for it; no existing object changes. |
| IntrusiveList.NewList | intrusive_list.h:121-124 | A new list is a fresh sentinel whose sequence of elements is empty, and `empty()` holds. |
| ListLemmas.UnlinkIdempotent | intrusive_list.h:20-39 | `unlink()` on an element that is not linked changes nothing, so unlinking twice is the same as unlinking once. |
| ListLemmas.UnlinkRing | intrusive_list.h:33-39 | Unlinking the `k`-th element removes exactly that element from the list's sequence and leaves it pointing to itself; no object outside the list changes. |
| ListLemmas.RingUnique | intrusive_list.h:195-207 | A list's links determine its contents: two element sequences that both fit the links from the same sentinel are equal, so the walk from `begin()` to `end()` has one answer. |
| ListLemmas.NonConstInRing | intrusive_list.h:255-257 | `non_const_transform` (through `prev->next`) gives back the same iterator for every position of a list, `end()` included. |
| ListLemmas.EmptyIff | intrusive_list.h:191-207 | `empty()` holds exactly when the list has no element, and exactly when `begin() == end()`. |
| ListLemmas.PushBackRing | intrusive_list.h:155-160 | `push_back(n)` of an unlinked `n` makes the sequence `xs + [n]`; nothing outside the list and `n` changes. |
| ListLemmas.PushFrontRing | intrusive_list.h:174-179 | `push_front(n)` of an unlinked `n` makes the sequence `[n] + xs`; nothing outside the list and `n` changes. |
| ListLemmas.PopBackRing | intrusive_list.h:162-164 | On an empty list `pop_back()` changes nothing. Otherwise it drops the last element, which is left pointing to itself. |
| ListLemmas.PopFrontRing | intrusive_list.h:180-182 | On an empty list `pop_front()` changes nothing. Otherwise it drops the first element, which is left pointing to itself. |
| ListLemmas.InsertRing | intrusive_list.h:209-217 | `insert(pos_k, n)` puts `n` in front of position `k` (at the back for `end()`) and returns the iterator to `n`; nothing outside changes. |
| ListLemmas.EraseRing | intrusive_list.h:219-225 | `erase(pos_k)` removes the `k`-th element, leaves it self-looped, and returns the iterator to its successor (`end()` for the last). |
| ListLemmas.SwapRing | intrusive_list.h:113-119 | Swapping two sentinels of disjoint lists exchanges the lists' contents, whether or not either is empty; no other object changes. |
| ListLemmas.SpliceRing | intrusive_list.h:227-244 | `splice(pos_k, l, first_a, last_b)` moves `ys[a..b]` of `l` in front of position `k` of this list, and `l` keeps `ys[..a] + ys[b..]`. An empty range changes nothing, and nothing outside the two lists changes. |
| ListOps.StepRing | intrusive_list.h:67-74 | `++` moves an iterator to the next position and `--` to the previous one, cyclically through `end()`; `front()`/`back()` are the first/last element. |
| ListOps.PostStepRing | intrusive_list.h:76-83 | Postfix `++` on an element's iterator advances it and returns the old position; postfix `--` steps back and returns the old position. |
| ListOps.Elements | intrusive_list.h:195-207 | Walking from `begin()` with `++` until `end()` visits exactly the list's elements, in order. |
| ListOps.ElementsBackward | intrusive_list.h:71-74 | Walking from `end()` with `--` until `end()` again visits the elements in reverse order. |
| ListOps.Clear | intrusive_list.h:145-149 | After `clear()` the list is empty, every former element is unlinked, and no other object changes. |
| ListOps.Destroy | intrusive_list.h:132-134 | `~list()` leaves every former element unlinked and changes nothing else. |
| ListOps.MoveConstruct | intrusive_list.h:127-130 | The new list holds the moved-from list's elements in the same order, and the moved-from list is empty. |
| ListOps.MoveAssign | intrusive_list.h:137-143 | Self-assignment changes nothing. Otherwise this list takes the other's elements, the other becomes empty, and this list's former elements are unlinked. |
| Signals.NewSignal | signals.h:78 | A new signal is alive, has no connection, and has no running emission. |
| Signals.NewConnection | signals.h:16 | A default connection is a fresh unlinked object with no signal and an empty slot; nothing else changes. |
| Signals.Disconnect | signals.h:35-47 | On an unlinked connection nothing changes. Otherwise the connection is unlinked, its slot emptied and its `sig` cleared, and of the tokens only cursors move. It is unlinked afterwards in every case, so a second call is a no-op. |
| Signals.DisconnectAsWritten | signals.h:36-46 | The as-written `disconnect` of a linked connection has the effect `Disconnected` describes (heap unlinked, fields cleared, chains and attachment kept). |
| Signals.DisconnectCorrected | signals.h:36-46 | The corrected `disconnect` has the same effect on heap, fields, chains and attachment. |
| Signals.SafeMove | signals.h:58-68 | On an unlinked `other` nothing changes. In every case `other` ends unlinked, the connections' fields are untouched, and token chains and attachment are kept. |
| Signals.MoveConstruct | signals.h:18-20 | The new connection copies `other`'s `sig` and slot, `other` ends unlinked, and token chains and attachment are kept. |
| Signals.MoveAssign | signals.h:22-33 | Self-assignment changes nothing. Otherwise `dst` takes `other`'s `sig` and slot, `other`'s slot is left empty and `other` unlinked, and no other connection changes. |
| Signals.Connect | signals.h:97-99 | `connect(slot)` creates one new connection with this signal and `slot`, and leaves tokens and older objects' fields alone. |
| Signals.Destroy | signals.h:83-95 | After `~signal()` the signal is dead, token chains and cursors are unchanged, and no detached token becomes attached. |
| SignalLemmas.NewSignalInv | signals.h:78 | A new signal has an empty list and satisfies the invariant (`Shape`, `Cursors`, `Detached`). |
| SignalLemmas.LinkedIff | signals.h:36 | In a well-shaped signal, `is_linked()` holds for a connection exactly when it is in the signal's list. |
| SignalLemmas.ConnectShape | signals.h:54-56 | `connect` puts the new connection at the front of the list with its slot, and keeps `Cursors` and `Detached`. |
| SignalLemmas.DisconnectUnlinked | signals.h:35-36 | `disconnect` on a connection outside the list changes nothing, in either build. |
| SignalLemmas.DisconnectShape | signals.h:35-47 | Disconnecting the `k`-th connection removes exactly it from the list, unlinks it, and empties its slot and `sig`. |
| SignalLemmas.DisconnectContents | signals.h:35-47 | After `disconnect(c)` the list holds the former contents without `c`, in either build. |
| SignalLemmas.DisconnectAsWrittenCursors | signals.h:37-43 | As written, disconnecting the `k`-th connection moves no cursor. A cursor on it stays on a node that is in no list. |
| SignalLemmas.DisconnectCorrectedCursors | signals.h:40-44 | Corrected, exactly the cursors of the stack's tokens that designate the disconnected connection move, and they move to its successor (`end()` for the last). |
| SignalLemmas.DisconnectInv | signals.h:35-47 | Corrected, `disconnect` keeps the invariant, with the connection removed from the contents. |
| SignalLemmas.DrainRing | signals.h:90-94 | The destructor's second loop empties the list within `|heap|` rounds. Every former connection is left unlinked with an empty slot and no `sig`, and no other connection changes. |
| SignalLemmas.DestroyShape | signals.h:83-95 | After `~signal()` the list is empty and every former connection is cleared. A token stays attached exactly when it was attached and was not detached: the corrected build detaches every token on the stack, the as-written one only those not at `end()`. |
| SignalLemmas.DestroyInv | signals.h:83-95 | Corrected, `~signal()` keeps the invariant: the destroyed signal is empty and has no attached token on its stack. |
| SignalLemmas.DestroyAsWrittenLeavesAttached | signals.h:84-88 | As written, a token on the stack whose cursor is `end()` stays attached to the destroyed signal, which breaks `Detached`. |
| MoveLemmas.SafeMoveContents | signals.h:58-68 | `safe_move` puts `dst` in `other`'s place in the list, and moves exactly the cursors on `other` to `dst`. |
| MoveLemmas.SafeMoveInv | signals.h:58-68 | `safe_move` keeps the invariant, with `other` replaced by `dst` in the contents. |
| MoveLemmas.MoveConstructContents | signals.h:18-20 | The move constructor puts the new connection in `other`'s place with `other`'s slot, and moves the cursors on `other` to it. |
| MoveLemmas.MoveConstructInv | signals.h:18-20 | The move constructor keeps the invariant, with `other` replaced by the new connection. |
| MoveLemmas.MoveAssignContents | signals.h:22-33 | Move assignment first removes `dst` from the list, then puts `dst` in `other`'s place. |
| MoveLemmas.MoveAssignInv | signals.h:22-33 | Corrected, move assignment keeps the invariant with those contents. |
| MoveLemmas.MoveAssignAsWrittenCursors | signals.h:22-43 | As written, `xs[k] = std::move(other)` moves exactly the stack cursors on a listed `other`, to `xs[k]`. `disconnect()` moves nothing, so a cursor on `xs[k]` stays there, and `xs[k]` now sits in `other`'s old place. |
| MoveLemmas.MoveAssignCorrectedCursors | signals.h:22-43 | Corrected, `xs[k] = std::move(other)` sends a stack cursor on `xs[k]` to its successor `Pos(fake, xs, k + 1)`. A cursor on a listed `other` goes to `xs[k]`, and so does one on `xs[k]` whose successor is `other`. Every other cursor stays. |
| MoveLemmas.MoveAssignUnlinkedCursors | signals.h:58-68 | Move assignment into an unlisted `dst` moves exactly the stack cursors on a listed `other`, to `dst`, in either build. |
| EmissionLemmas.EmitEvolves | signals.h:101-125 | An emission only adds objects and tokens, never rewrites a token's chain, never re-attaches a token and never revives the signal. When it ends in a defined way on a live signal, the token stack is what it was before (the token's destructor pops it). |
| EmissionLemmas.EmitSafe | signals.h:101-113 | Corrected, an emission on a safe signal, whose callbacks do anything except connect an empty slot, never touches the destroyed signal and never invokes an empty slot, and leaves the signal safe. |
| EmissionLemmas.EmitOrder | signals.h:101-113 | In either build, when the callbacks do nothing, an emission invokes every listed connection exactly once, in list order (newest first), returns normally, and restores the token stack. |
| EmissionLemmas.DisconnectNextAsWritten | signals.h:35-47 | As written, when a callback disconnects the connection its emission's cursor designates, the loop next invokes that connection's emptied slot, which throws `bad_function_call`. |
| EmissionLemmas.DisconnectNextCorrected | signals.h:35-47 | Corrected, the disconnected connection is skipped, and every connection after it is still invoked, once each and in order. |
| EmissionLemmas.DestroyAtEnd | signals.h:83-88 | When a callback invoked with the cursor at `end()` destroys the signal, the as-written emission touches the destroyed signal. The corrected one returns with its token detached. |
| EmissionLemmas.EmitDestroy | signals.h:101-121 | An emission over one connection whose callback destroys the signal invokes that connection. It then touches the destroyed signal as written, and returns normally corrected. |
| EmissionScenarios.LoopSkip | signals.h:104-112 | Rounds whose callbacks do nothing, from position `k` to position `j`, invoke `xs[k..j]` in order, use one reaction each and change only the cursor; the loop then goes on from position `j` exactly as if started there. |
| EmissionScenarios.EmitIdle | signals.h:101-125 | An emission whose callbacks do nothing invokes the whole list in order, returns normally, and leaves the signal exactly as before apart from its finished token. |
| EmissionScenarios.EmitSelfDisconnect | signals.h:101-113 | In either build, when one callback disconnects its own connection and the others do nothing, the emission still invokes every listed connection once, in order, returns normally and restores the token stack. |
| EmissionScenarios.DisconnectBehind | signals.h:35-47 | In either build, `disconnect` of the `k`-th connection while a cursor is already at position `k + 1` leaves that cursor in place, which is position `k` of the shortened list; the list keeps the rest in order. |
| EmissionScenarios.EmitReentrant | signals.h:101-125 | In either build, when the `k`-th callback emits again and the others do nothing, the connections are invoked in the order `xs[..k + 1] + xs + xs[k + 1..]`: the nested emission runs the whole list, then the outer one resumes after `xs[k]`. The emission returns normally and restores the token stack. |
| EmissionScenarios.EmitDestroyAt | signals.h:101-121 | When the `k`-th callback destroys the signal, the emission has invoked exactly `xs[..k + 1]` and the signal is dead. Corrected, it returns normally. As written, it also returns normally unless `xs[k]` was the last connection, where it touches the destroyed signal. |
| EmissionScenarios.DestroyInside | signals.h:83-95 | When a callback destroys the signal while the cursor is on a listed connection, both builds detach the token, and the invocation returns with nothing more invoked. |

## Left out

- Slots and call arguments: a `std::function` is an opaque identity or empty, and the variadic `Args...` are not modelled. What a callback does is given by a script of actions.
- Finite scripts: when the script runs out a run stops with outcome `Exhausted`, so every statement about emissions is about runs with a given finite script.
- Several signals: a state holds one signal. A connection's `sig` is a flag meaning "this signal". Moving connections between different signals is not modelled.
- Default-constructed `connection` (signals.h:16): its `sig` is left uninitialised by `= default`. The model gives it no signal, which is harmless because it is unlinked and `disconnect` never reads `sig` then. The move constructor (signals.h:18) and move assignment (signals.h:28) copy that uninitialised `sig` from an unlinked `other`. This is harmless too, because `safe_move` checks `other.is_linked()` before it reads `sig` (signals.h:59).
- Moved-from slot in move assignment (signals.h:29): a moved-from `std::function` is valid but unspecified. The model takes it to be empty.
- Object lifetime: objects are never freed or reused. The end of the signal's life is the flag `alive`, and every access after it is reported as `UseAfterFree` at the first place the library makes one.
- `~connection()` (signals.h:49-51) is the same as `disconnect()`, and `~list_element()` (intrusive_list.h:28-30) the same as `unlink()`. They are covered by those operations rather than modelled separately.
- Iterator plumbing: `const_iterator` versus `iterator`, the tag parameter, `operator*`/`operator->`, `==`/`!=` and the `const` overloads of `front`/`back`/`begin`/`end`/`as_iterator`. An iterator is the node it points to, so `as_iterator` (intrusive_list.h:246-252) is the identity `IntrusiveList.AsIterator`.
- Splicing within one list, or with `pos` inside the moved range, is not modelled. ListLemmas.SpliceRing requires two disjoint lists.
- Signals.Drain: the destructor's second loop is given `|heap|` rounds of fuel. SignalLemmas.DrainRing proves the fuel always suffices, so nothing is lost.
- Emission order: `connect` links at the front (signals.h:55), so an emission calls connections newest first, the reverse of the order they were connected. The order lemmas state it in list order.
- EmissionLemmas.EmitSafe: it excludes scripts that connect an empty slot. Invoking such a connection throws `bad_function_call` in either build, as C++ defines.
- EmissionLemmas.EmitOrder: stated only for callbacks that do nothing. Whole emissions with one mutating callback are EmissionScenarios.EmitSelfDisconnect, EmissionScenarios.EmitReentrant and EmissionScenarios.EmitDestroyAt. Other mutations are covered by EmissionLemmas.DisconnectNextCorrected, EmissionLemmas.EmitSafe and EmissionLemmas.EmitDestroy. Emissions with several mutating callbacks have no order lemma.
- Signals.Connect: its own contract does not say where the new connection lands in the list. That it goes to the front, with its slot, is SignalLemmas.ConnectShape.
- Signals.MoveConstruct: its own contract does not say where the new connection lands in the list. That it takes `other`'s place, and that cursors on `other` move to it, is MoveLemmas.MoveConstructContents.
- Signals.MoveAssign: its own contract says neither where `dst` lands in the list nor where cursors go. That `dst` first leaves the list and then takes `other`'s place is MoveLemmas.MoveAssignContents. The cursors are in MoveLemmas.MoveAssignAsWrittenCursors, MoveLemmas.MoveAssignCorrectedCursors and MoveLemmas.MoveAssignUnlinkedCursors.
- Signals.SafeMove: its own contract is a frame. Where `dst` lands and how cursors move is MoveLemmas.SafeMoveContents.
- Signals.Destroy: its own contract is a frame. The emptied list and the detached tokens are SignalLemmas.DestroyShape.
- Signals.DisconnectAsWritten and Signals.DisconnectCorrected: their own contracts cover heap, fields, chains and attachment only. How each moves cursors is SignalLemmas.DisconnectAsWrittenCursors and SignalLemmas.DisconnectCorrectedCursors.

## Findings

| source | as written | input that shows it | evidently intended | confidence | as-written member | corrected member |
|---|---|---|---|---|---|---|
| signals.h:37-42 | `disconnect` unlinks the connection before advancing the tokens whose cursor designates it. The `++` then follows the self-loop `unlink` just made, so the cursor stays on the disconnected connection. | Signal with connections `[a, b]`, emission running. `a`'s callback disconnects `b`, on which the emission's cursor already sits. The loop then copies the cursor (still `b`) and invokes `b`'s emptied slot, which throws `bad_function_call`. A second input: connections `[a, d, b, o, c]`, where `a`'s callback runs `d = std::move(o)`. The cursor already sits on `d` and stays there, and `d` moves to `o`'s place, so `b` is never invoked. | Advance the cursors while the connection is still linked, so `b` is skipped and the connections after it are still invoked. | not executed | EmissionLemmas.DisconnectNextAsWritten | EmissionLemmas.DisconnectNextCorrected |
| signals.h:84-88 | `~signal()` clears `sig` only in tokens whose cursor is not `end()`. | Signal with one connection `c`. During an emission `c`'s callback destroys the signal. The cursor is already at `end()`, so the token keeps `sig`. The loop's check (line 104) and the token's destructor (line 119) then read and write the destroyed signal. | Detach every token on the stack, so the emission stops without touching the signal. | not executed | SignalLemmas.DestroyAsWrittenLeavesAttached | SignalLemmas.DestroyInv |

Each finding also has emission-level lemmas, and the corrected code is what EmissionLemmas.EmitSafe is proved about.
- First finding: SignalLemmas.DisconnectAsWrittenCursors shows the cursor that does not move; SignalLemmas.DisconnectCorrectedCursors shows the repaired one. Through move assignment, MoveLemmas.MoveAssignAsWrittenCursors leaves a cursor on `d` where `o` was, so the connections between them are skipped. MoveLemmas.MoveAssignCorrectedCursors sends it to `d`'s successor.
- Second finding: EmissionLemmas.EmitDestroy and EmissionLemmas.DestroyAtEnd show the as-written emission touching the destroyed signal and the corrected one returning. EmissionScenarios.EmitDestroyAt shows that, over any list whose earlier callbacks do nothing, the as-written code touches the destroyed signal exactly when the destroying callback is the last one.
