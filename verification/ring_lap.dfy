/** Two runs of a ring of two slots, thread by thread: one shows that the standing assumption
    is needed, the other that a consumer of sync mode may lose its claim. */
module RingLap {
  import opened Bytes
  import opened RingBuffer
  import opened RingInvariant
  import opened RingTheorems

  lemma {:induction false} RunOn(c: Config, s: State, run: Schedule, tid: Tid, ch: Choice)
    requires Shaped(c, s) && NeverLapped(c, s, run)
    requires var e := After(c, s, run); Shaped(c, e) && tid in e.threads && NoLap(c, e, e.threads[tid])
    ensures NeverLapped(c, s, run + [(tid, ch)]) && After(c, s, run + [(tid, ch)]) == Step(c, After(c, s, run), tid, ch)
    decreases |run|
  {
    hide NoLap;
    var more := run + [(tid, ch)];
    if run == [] {
      assert more[1..] == [];
    } else {
      RunOn(c, Step(c, s, run[0].0, run[0].1), run[1..], tid, ch);
      assert more[0] == run[0] && more[1..] == run[1..] + [(tid, ch)];
    }
  }

  /** One more step of a run. */
  lemma Onward(c: Config, s: State, tid: Tid, ch: Choice)
    requires ReachableUnlapped(c, s) && Shaped(c, s) && tid in s.threads && NoLap(c, s, s.threads[tid])
    ensures ReachableUnlapped(c, Step(c, s, tid, ch))
  {
    hide NoLap, Step;
    var s0: State, run: Schedule :| Init(c, s0) && NeverLapped(c, s0, run) && After(c, s0, run) == s;
    RunOn(c, s0, run, tid, ch);
  }

  lemma Starts(c: Config, s: State)
    requires Init(c, s)
    ensures ReachableUnlapped(c, s)
  {
    assert NeverLapped(c, s, []) && After(c, s, []) == s;
  }

  /** A reachable state, with its indices and marks. */
  ghost predicate Ring(c: Config, s: State, hold: nat, write: nat, proc: nat, read: nat, mark: seq<Mark>) {
    && ReachableUnlapped(c, s) && Shaped(c, s) && c.len == 2 && c.sync
    && s.m.hold == hold && s.m.write == write && s.m.proc == proc && s.m.read == read && s.m.mark == mark
  }

  /** Thread `a` is at `pc`, and thread `b`, at `rest`, does not move. */
  ghost predicate Stand(s: State, a: Tid, pc: Pc, b: Tid, rest: Pc) {
    a != b && a in s.threads && s.threads[a] == pc && b in s.threads && s.threads[b] == rest
  }

  const CLEAR: seq<Mark> := [Invalid, Invalid]

  lemma Moves(c: Config, s: State, tid: Tid, go: bool) returns (s': State)
    requires ReachableUnlapped(c, s) && Shaped(c, s) && tid in s.threads && NoLap(c, s, s.threads[tid])
    ensures ReachableUnlapped(c, s') && s' == Step(c, s, tid, Choice(go, ""))
  {
    hide NoLap, Step, ReachableUnlapped;
    s' := Step(c, s, tid, Choice(go, ""));
    Onward(c, s, tid, Choice(go, ""));
  }

  lemma Zeroed(c: Config) returns (s: State)
    requires c.len == 2 && c.logSize >= 2 && c.sync
    ensures Ring(c, s, 0, 0, 0, 0, CLEAR) && Stand(s, 1, Idle, 2, Idle)
  {
    s := State(Memory(0, 0, 0, 0, CLEAR, ["", ""]), Counters(0, 0, 0), map[1 := Idle, 2 := Idle],
               History([], [], map[], [], map[]));
    Starts(c, s);
  }

  /** A thread looks at the ring, finds room, and is about to swap. */
  lemma Looks(c: Config, s: State, a: Tid, b: Tid, rest: Pc, n: nat) returns (s': State)
    requires Ring(c, s, n, n, n, n, CLEAR) && Stand(s, a, Idle, b, rest)
    ensures Ring(c, s', n, n, n, n, CLEAR) && Stand(s', a, HoldCas(n), b, rest)
  {
    hide ReachableUnlapped;
    SlotDistinct(2, n, n + 1);
    s' := Moves(c, s, a, true);
    s' := Moves(c, s', a, true);
    s' := Moves(c, s', a, true);
  }

  lemma Holds(c: Config, s: State, a: Tid, b: Tid, rest: Pc, n: nat) returns (s': State)
    requires Ring(c, s, n, n, n, n, CLEAR) && Stand(s, a, Idle, b, rest)
    ensures Ring(c, s', n + 1, n, n, n, CLEAR) && Stand(s', a, HoldCount(n), b, rest)
  {
    hide ReachableUnlapped;
    s' := Looks(c, s, a, b, rest, n);
    s' := Moves(c, s', a, true);
  }

  lemma Composes(c: Config, s: State, a: Tid, b: Tid, rest: Pc, n: nat) returns (s': State)
    requires n < 2 && Ring(c, s, n + 1, n, n, n, CLEAR) && Stand(s, a, HoldCount(n), b, rest)
    ensures Ring(c, s', n + 1, n, n, n, CLEAR[n := Hold]) && a in s'.threads
    ensures s'.threads[a].Seal? && s'.threads[a].ticket == n && Stand(s', a, s'.threads[a], b, rest)
  {
    hide ReachableUnlapped;
    s' := Moves(c, s, a, true);
    s' := Moves(c, s', a, true);
    s' := Moves(c, s', a, true);
    s' := Moves(c, s', a, false);
  }

  lemma Publishes(c: Config, s: State, a: Tid, b: Tid, rest: Pc, n: nat) returns (s': State)
    requires n < 2 && Ring(c, s, n + 1, n, n, n, CLEAR) && Stand(s, a, HoldCount(n), b, rest)
    ensures Ring(c, s', n + 1, n, n, n, CLEAR[n := Ready]) && Stand(s', a, PushLoad, b, rest)
  {
    hide ReachableUnlapped;
    s' := Composes(c, s, a, b, rest, n);
    s' := Moves(c, s', a, true);
    s' := Moves(c, s', a, true);
  }

  lemma Pushes(c: Config, s: State, a: Tid, b: Tid, rest: Pc, n: nat) returns (s': State)
    requires n < 2 && Ring(c, s, n + 1, n, n, n, CLEAR[n := Ready]) && Stand(s, a, PushLoad, b, rest)
    ensures Ring(c, s', n + 1, n + 1, n, n, CLEAR[n := Ready]) && Stand(s', a, PushLoad, b, rest)
  {
    hide ReachableUnlapped;
    SlotDistinct(2, n, n + 1);
    s' := Moves(c, s, a, true);
    s' := Moves(c, s', a, true);
    s' := Moves(c, s', a, true);
    assert Ring(c, s', n + 1, n, n, n, CLEAR[n := Ready]) && Stand(s', a, PushCas(n), b, rest);
    s' := Moves(c, s', a, true);
    s' := Moves(c, s', a, true);
  }

  /** With nothing left to publish, the thread turns to consuming. */
  lemma Turns(c: Config, s: State, a: Tid, b: Tid, rest: Pc, n: nat) returns (s': State)
    requires n < 2 && Ring(c, s, n + 1, n + 1, n, n, CLEAR[n := Ready]) && Stand(s, a, PushLoad, b, rest)
    ensures Ring(c, s', n + 1, n + 1, n, n, CLEAR[n := Ready]) && Stand(s', a, ProcLoad, b, rest)
  {
    hide ReachableUnlapped;
    s' := Moves(c, s, a, true);
    s' := Moves(c, s', a, true);
  }

  /** One ticket, from the hold to the turn to consuming. */
  lemma Produces(c: Config, s: State, a: Tid, b: Tid, rest: Pc, n: nat) returns (s': State)
    requires n < 2 && Ring(c, s, n, n, n, n, CLEAR) && Stand(s, a, Idle, b, rest)
    ensures Ring(c, s', n + 1, n + 1, n, n, CLEAR[n := Ready]) && Stand(s', a, ProcLoad, b, rest)
  {
    hide Ring, Stand;
    s' := Holds(c, s, a, b, rest, n);
    s' := Publishes(c, s', a, b, rest, n);
    s' := Pushes(c, s', a, b, rest, n);
    s' := Turns(c, s', a, b, rest, n);
  }

  /** A thread finds a record, and is about to claim it. */
  lemma Finds(c: Config, s: State, a: Tid, b: Tid, rest: Pc, n: nat) returns (s': State)
    requires n < 2 && Ring(c, s, n + 1, n + 1, n, n, CLEAR[n := Ready]) && Stand(s, a, ProcLoad, b, rest)
    ensures Ring(c, s', n + 1, n + 1, n, n, CLEAR[n := Ready]) && Stand(s', a, ProcCas(n), b, rest)
  {
    hide ReachableUnlapped;
    SlotDistinct(2, n, n + 1);
    s' := Moves(c, s, a, true);
    s' := Moves(c, s', a, true);
  }

  lemma Claims(c: Config, s: State, a: Tid, b: Tid, rest: Pc, n: nat) returns (s': State)
    requires n < 2 && Ring(c, s, n + 1, n + 1, n, n, CLEAR[n := Ready]) && Stand(s, a, ProcLoad, b, rest)
    ensures Ring(c, s', n + 1, n + 1, n + 1, n, CLEAR[n := Ready]) && Stand(s', a, Dispatch(n), b, rest)
  {
    hide ReachableUnlapped;
    s' := Finds(c, s, a, b, rest, n);
    s' := Moves(c, s', a, true);
  }

  lemma Dispatches(c: Config, s: State, a: Tid, b: Tid, rest: Pc) returns (s': State)
    requires Ring(c, s, 1, 1, 0, 0, CLEAR[0 := Ready]) && Stand(s, a, ProcLoad, b, rest)
    ensures Ring(c, s', 1, 1, 1, 0, CLEAR) && Stand(s', a, ReadLoad, b, rest)
  {
    hide ReachableUnlapped;
    s' := Claims(c, s, a, b, rest, 0);
    s' := Moves(c, s', a, true);
    s' := Moves(c, s', a, true);
    s' := Moves(c, s', a, true);
  }

  lemma Recycles(c: Config, s: State, a: Tid, b: Tid, rest: Pc) returns (s': State)
    requires Ring(c, s, 1, 1, 1, 0, CLEAR) && Stand(s, a, ReadLoad, b, rest)
    ensures Ring(c, s', 1, 1, 1, 1, CLEAR) && Stand(s', a, ReadLoad, b, rest)
  {
    hide ReachableUnlapped;
    s' := Moves(c, s, a, true);
    s' := Moves(c, s', a, true);
    s' := Moves(c, s', a, true);
    s' := Moves(c, s', a, true);
  }

  /** With nothing left to recycle, the thread looks for another record. */
  lemma Returns(c: Config, s: State, a: Tid, b: Tid, rest: Pc) returns (s': State)
    requires Ring(c, s, 1, 1, 1, 1, CLEAR) && Stand(s, a, ReadLoad, b, rest)
    ensures Ring(c, s', 1, 1, 1, 1, CLEAR) && Stand(s', a, ProcLoad, b, rest)
  {
    hide ReachableUnlapped;
    s' := Moves(c, s, a, true);
    s' := Moves(c, s', a, true);
  }

  /** The first ticket, all the way round. */
  lemma FirstRound(c: Config, s: State, a: Tid, b: Tid, rest: Pc) returns (s': State)
    requires Ring(c, s, 0, 0, 0, 0, CLEAR) && Stand(s, a, Idle, b, rest)
    ensures Ring(c, s', 1, 1, 1, 1, CLEAR) && Stand(s', a, ProcLoad, b, rest)
  {
    hide Ring, Stand;
    s' := Produces(c, s, a, b, rest, 0);
    s' := Dispatches(c, s', a, b, rest);
    s' := Recycles(c, s', a, b, rest);
    s' := Returns(c, s', a, b, rest);
  }

  lemma Leaves(c: Config, s: State, a: Tid, b: Tid, rest: Pc) returns (s': State)
    requires Ring(c, s, 1, 1, 1, 1, CLEAR) && Stand(s, a, ProcLoad, b, rest)
    ensures Ring(c, s', 1, 1, 1, 1, CLEAR) && Stand(s', a, Idle, b, rest)
  {
    hide ReachableUnlapped;
    s' := Moves(c, s, a, true);
    s' := Moves(c, s', a, true);
  }

  /** In a ring of two slots a thread that sleeps for one lap between its look and its swap
      holds a slot that the ring no longer has: the hold index passes the read index by a
      whole lap. Every swap before that kept the assumption. */
  lemma SleepingBreaksRing(c: Config) returns (s: State)
    requires c.len == 2 && c.logSize >= 2 && c.sync
    ensures ReachableUnlapped(c, s) && Shaped(c, s) && 1 in s.threads
    ensures !NoLap(c, s, s.threads[1]) && !GuardHolds(c, s, s.threads[1])
    ensures var m := Step(c, s, 1, Choice(true, "")).m; m.hold > m.read + c.len - 1
  {
    hide ReachableUnlapped;
    s := Zeroed(c);
    s := Looks(c, s, 1, 2, Idle, 0);
    s := FirstRound(c, s, 2, 1, HoldCas(0));
    s := Leaves(c, s, 2, 1, HoldCas(0));
    s := Holds(c, s, 2, 1, HoldCas(0), 1);
  }

  /** In sync mode two threads may go for one record, and then one of them loses the claim:
      the branch is reachable that the code says will not be. */
  lemma ClaimCanBeLost(c: Config) returns (s: State)
    requires c.len == 2 && c.logSize >= 2 && c.sync
    ensures ReachableUnlapped(c, s) && Shaped(c, s) && 2 in s.threads && s.threads[2].ProcCas?
    ensures NoLap(c, s, s.threads[2]) && !Same(c, s.threads[2].seen, s.m.proc)
  {
    hide ReachableUnlapped;
    s := Zeroed(c);
    s := FirstRound(c, s, 1, 2, Idle);
    s := Produces(c, s, 2, 1, ProcLoad, 1);
    s := Finds(c, s, 2, 1, ProcLoad, 1);
    s := Claims(c, s, 1, 2, ProcCas(1), 1);
  }
}
