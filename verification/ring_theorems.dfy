/** Whole runs of the ring: safety, exactly-once delivery and drainage at rest. */
module RingTheorems {
  import opened Bytes
  import opened RingBuffer
  import opened RingInvariant

  lemma InitInv(c: Config, s: State)
    requires Init(c, s)
    ensures Inv(c, s)
  {
    assert Holding(s) == {} && Publishing(s) == {} && Processing(s) == {};
    assert forall t: nat :: SlotOk(c, s, t);
  }

  lemma {:induction false} RunKept(c: Config, s: State, run: Schedule)
    requires Inv(c, s) && Runs(c, s, run)
    ensures Inv(c, After(c, s, run))
    decreases |run|
  {
    if run != [] {
      StepKept(c, s, run[0].0, run[0].1);
      RunKept(c, Step(c, s, run[0].0, run[0].1), run[1..]);
    }
  }

  /** The invariant holds at the beginning of the run and after each of its steps. */
  ghost predicate SafeAlong(c: Config, s: State, run: Schedule)
    decreases |run|
  {
    Inv(c, s) &&
    (run == [] || (run[0].0 in s.threads && SafeAlong(c, Step(c, s, run[0].0, run[0].1), run[1..])))
  }

  /** The standing assumption is exact: a run is safe all along if and only if it keeps it. */
  lemma {:induction false} RunExactly(c: Config, s: State, run: Schedule)
    requires Inv(c, s) && Possible(c, s, run)
    ensures SafeAlong(c, s, run) <==> Runs(c, s, run)
    decreases |run|
  {
    assert Shaped(c, s);
    hide Inv, Step, GuardHolds;
    if run != [] {
      StepExactly(c, s, run[0].0, run[0].1);
      if GuardHolds(c, s, s.threads[run[0].0]) {
        RunExactly(c, Step(c, s, run[0].0, run[0].1), run[1..]);
      } else {
        Unsafe(c, Step(c, s, run[0].0, run[0].1), run[1..]);
      }
    }
  }

  lemma Unsafe(c: Config, s: State, run: Schedule)
    requires !Inv(c, s)
    ensures !SafeAlong(c, s, run)
  {
  }

  /** A run in which no thread sleeps for a lap keeps it. */
  lemma {:induction false} NeverLappedRuns(c: Config, s: State, run: Schedule)
    requires Inv(c, s) && NeverLapped(c, s, run)
    ensures Runs(c, s, run)
    decreases |run|
  {
    hide Step, GuardHolds, NoLap;
    if run != [] {
      NoLapSuffices(c, s, run[0].0);
      StepKept(c, s, run[0].0, run[0].1);
      NeverLappedRuns(c, Step(c, s, run[0].0, run[0].1), run[1..]);
    }
  }

  /** Reachable from the zeroed buffer by some interleaving. */
  ghost predicate Reachable(c: Config, s: State) {
    exists s0: State, run: Schedule :: Init(c, s0) && Runs(c, s0, run) && After(c, s0, run) == s
  }

  /** Reachable without any thread sleeping for a lap. */
  ghost predicate ReachableUnlapped(c: Config, s: State) {
    exists s0: State, run: Schedule :: Init(c, s0) && NeverLapped(c, s0, run) && After(c, s0, run) == s
  }

  lemma UnlappedIsReachable(c: Config, s: State)
    requires ReachableUnlapped(c, s)
    ensures Reachable(c, s)
  {
    var s0: State, run: Schedule :| Init(c, s0) && NeverLapped(c, s0, run) && After(c, s0, run) == s;
    InitInv(c, s0);
    NeverLappedRuns(c, s0, run);
  }

  lemma ReachableInv(c: Config, s: State)
    requires Reachable(c, s)
    ensures Inv(c, s)
  {
    var s0: State, run: Schedule :| Init(c, s0) && Runs(c, s0, run) && After(c, s0, run) == s;
    InitInv(c, s0);
    RunKept(c, s0, run);
  }

  /** Ring safety, in every interleaving of any number of threads: the tickets are ordered
      and never lap; a slot between write and hold is READY and nobody's, or has exactly one
      owner; a slot between proc and write is READY and nobody's; a slot between read and
      proc is INVALID and nobody's, or READY with exactly one consumer; all others are
      INVALID. */
  lemma RingSafety(c: Config, s: State)
    requires Reachable(c, s)
    ensures ShapedMemory(c, s.m) && s.m.read <= s.m.proc <= s.m.write <= s.m.hold <= s.m.read + c.len - 1
    ensures forall t: nat {:trigger MarkAt(c, s.m, t)} :: s.m.write <= t < s.m.hold ==>
      if MarkAt(c, s.m, t) == Ready then forall i :: i in s.threads ==> Owned(s.threads[i]) != Some(t)
      else HasOwner(s, t) && forall i :: i in s.threads && Owned(s.threads[i]) == Some(t) ==> i == s.h.producer[t]
    ensures forall t: nat {:trigger MarkAt(c, s.m, t)} :: s.m.proc <= t < s.m.write ==>
      MarkAt(c, s.m, t) == Ready && forall i :: i in s.threads ==>
        Owned(s.threads[i]) != Some(t) &&
        Taken(s.threads[i]) != Some(t)
    ensures forall t: nat {:trigger MarkAt(c, s.m, t)} :: s.m.read <= t < s.m.proc ==>
      if MarkAt(c, s.m, t) == Invalid then forall i :: i in s.threads ==> Taken(s.threads[i]) != Some(t)
      else MarkAt(c, s.m, t) == Ready && HasTaker(s, t) &&
           forall i :: i in s.threads && Taken(s.threads[i]) == Some(t) ==> i == s.h.claimer[t]
    ensures forall t: nat {:trigger MarkAt(c, s.m, t)} :: s.m.hold <= t < s.m.read + c.len ==>
              MarkAt(c, s.m, t) == Invalid
  {
    ReachableInv(c, s);
    Owners(c, s);
    Takers(c, s);
    assert forall t: nat :: SlotOk(c, s, t);
  }

  lemma Owners(c: Config, s: State)
    requires Inv(c, s)
    ensures forall i, t: nat :: i in s.threads && Owned(s.threads[i]) == Some(t) ==>
      s.m.write <= t < s.m.hold && MarkAt(c, s.m, t) != Ready && s.h.producer[t] == i
  {
    forall i, t: nat | i in s.threads && Owned(s.threads[i]) == Some(t)
      ensures s.m.write <= t < s.m.hold && MarkAt(c, s.m, t) != Ready && s.h.producer[t] == i
    { assert ThreadOk(c, s.m, s.threads[i]); }
  }

  lemma Takers(c: Config, s: State)
    requires Inv(c, s)
    ensures forall i, t: nat :: i in s.threads && Taken(s.threads[i]) == Some(t) ==>
      s.m.read <= t < s.m.proc && MarkAt(c, s.m, t) == Ready && s.h.claimer[t] == i
  {
    forall i, t: nat | i in s.threads && Taken(s.threads[i]) == Some(t)
      ensures s.m.read <= t < s.m.proc && MarkAt(c, s.m, t) == Ready && s.h.claimer[t] == i
    { assert ThreadOk(c, s.m, s.threads[i]); }
  }

  /** The text a producer composed is still in its slot when it publishes it, whatever the
      other threads did meanwhile. */
  lemma OwnerUndisturbed(c: Config, s: State, tid: Tid)
    requires Reachable(c, s) && tid in s.threads && s.threads[tid].Publish?
    ensures Shaped(c, s) && ContentAt(c, s.m, s.threads[tid].ticket) == s.threads[tid].text
  {
    ReachableInv(c, s);
    assert ThreadOk(c, s.m, s.threads[tid]);
  }

  /** Exactly once, unchanged: the log never dispatches a ticket twice, dispatches only
      published tickets, and dispatches each with exactly the text its producer published.
      What a claimed ticket still owes is one dispatch by the thread that claimed it. */
  lemma ExactlyOnce(c: Config, s: State)
    requires Reachable(c, s)
    ensures forall k, l :: 0 <= k < l < |s.h.dispatched| ==> s.h.dispatched[k].0 != s.h.dispatched[l].0
    ensures forall k :: 0 <= k < |s.h.dispatched| ==>
      s.h.dispatched[k].0 in s.h.pushed && s.h.dispatched[k].1 == s.h.pushed[s.h.dispatched[k].0]
    ensures forall t: nat :: t < s.m.proc && !InDispatch(s, t) ==>
      exists k :: 0 <= k < |s.h.dispatched| && s.h.dispatched[k].0 == t
  {
    ReachableInv(c, s);
    forall k, l | 0 <= k < l < |s.h.dispatched| ensures s.h.dispatched[k].0 != s.h.dispatched[l].0 {
      assert s.h.place[s.h.dispatched[k].0] == k && s.h.place[s.h.dispatched[l].0] == l;
    }
    forall t: nat | t < s.m.proc && !InDispatch(s, t)
      ensures exists k :: 0 <= k < |s.h.dispatched| && s.h.dispatched[k].0 == t
    {
      assert Dispatched(s, t);
      assert s.h.dispatched[s.h.place[t]].0 == t;
    }
  }

  /** With the single consumer of async mode, dispatch order is hold order. */
  lemma AsyncInOrder(c: Config, s: State, k: nat)
    requires Reachable(c, s) && !c.sync && k < |s.h.dispatched|
    ensures s.h.dispatched[k].0 == k && k in s.h.pushed && s.h.dispatched[k].1 == s.h.pushed[k]
  {
    ReachableInv(c, s);
  }

  /** The single consumer of async mode never loses a claim: the index it loaded is current. */
  lemma AsyncClaims(c: Config, s: State, tid: Tid)
    requires Reachable(c, s) && !c.sync && tid in s.threads && s.threads[tid].ProcCas?
    ensures s.threads[tid].seen == s.m.proc
  {
    ReachableInv(c, s);
    assert Consuming(s.threads[tid]);
  }

  /** Outside the logger, or not yet the winner of a ticket. */
  predicate Resting(pc: Pc) {
    pc.Idle? || pc.HoldLoad? || pc.HoldCheck? || pc.HoldCas?
  }

  /** No thread is between winning a ticket and the end of its push and process calls. */
  ghost predicate AtRest(s: State) {
    forall i :: i in s.threads ==> Resting(s.threads[i])
  }

  /** Drained at rest (sync mode): although a thread that loses a race just leaves, nothing
      is stranded. The indices and the counters agree, and every ticket ever won was
      published and dispatched. */
  lemma DrainedAtRest(c: Config, s: State)
    requires Reachable(c, s) && c.sync && AtRest(s)
    ensures s.m.read == s.m.proc == s.m.write == s.m.hold
    ensures s.n.hold == s.n.push == s.n.processed == s.m.hold
    ensures |s.h.dispatched| == s.m.hold && s.h.pushed.Keys == Below(s.m.hold)
    ensures forall t: nat :: t < s.m.hold ==>
              t in s.h.pushed && exists k :: 0 <= k < |s.h.dispatched| && s.h.dispatched[k] == (t, s.h.pushed[t])
  {
    ReachableInv(c, s);
    NobodyWorks(s);
    assert SlotOk(c, s, s.m.read) && SlotOk(c, s, s.m.write);
    assert s.m.read == s.m.proc && s.m.proc == s.m.write && s.m.write == s.m.hold;
    assert Holding(s) == {} && Publishing(s) == {} && Processing(s) == {};
    forall t: nat | t < s.m.hold
      ensures t in s.h.pushed && exists k :: 0 <= k < |s.h.dispatched| && s.h.dispatched[k] == (t, s.h.pushed[t])
    {
      assert t in s.h.pushed || HasOwner(s, t);
      assert Dispatched(s, t) || InDispatch(s, t);
      var k := s.h.place[t];
      assert 0 <= k < |s.h.dispatched| && s.h.dispatched[k].0 == t;
      assert s.h.dispatched[k] == (t, s.h.pushed[t]);
    }
    forall t: nat | t < s.m.proc ensures Dispatched(s, t) { assert Dispatched(s, t) || InDispatch(s, t); }
    LogSize(s);
  }

  lemma NobodyWorks(s: State)
    requires AtRest(s)
    ensures !WriteAttended(s) && !ProcAttended(s) && !ReadAttended(s)
    ensures forall t: nat :: !HasOwner(s, t) && !HasTaker(s, t) && !InDispatch(s, t)
  {
  }

  /** The tickets below n. */
  ghost function Below(n: nat): (r: set<nat>)
    ensures forall k: nat :: k in r <==> k < n
    ensures |r| == n
  {
    if n == 0 then {} else Below(n - 1) + {n - 1}
  }

  /** A log that holds every ticket below proc once has exactly proc entries. */
  lemma LogSize(s: State)
    requires forall t: nat :: t < s.m.proc ==> Dispatched(s, t)
    requires forall t :: t in s.h.place ==> t < s.m.proc
    requires forall k :: 0 <= k < |s.h.dispatched| ==>
               s.h.dispatched[k].0 in s.h.place &&
               s.h.place[s.h.dispatched[k].0] == k
    ensures |s.h.dispatched| == s.m.proc
  {
    forall t | t in s.h.place ensures s.h.place[t] in Below(|s.h.dispatched|) { assert Dispatched(s, t); }
    forall t, u | t in s.h.place && u in s.h.place && s.h.place[t] == s.h.place[u] ensures t == u {
      assert Dispatched(s, t) && Dispatched(s, u);
    }
    forall t: nat | t < s.m.proc ensures t in s.h.place { assert Dispatched(s, t); }
    assert s.h.place.Keys == Below(s.m.proc);
    forall k | k in Below(|s.h.dispatched|) ensures exists t :: t in s.h.place && s.h.place[t] == k {
      var t := s.h.dispatched[k].0;
      assert t in s.h.place && s.h.place[t] == k;
    }
    SameSize(s.h.place, Below(|s.h.dispatched|));
  }

  /** A map that is one-to-one onto a set has as many keys as the set has elements. */
  lemma {:induction false} SameSize(place: map<nat, nat>, positions: set<nat>)
    requires forall t :: t in place ==> place[t] in positions
    requires forall k :: k in positions ==> exists t :: t in place && place[t] == k
    requires forall t, u :: t in place && u in place && place[t] == place[u] ==> t == u
    ensures |place.Keys| == |positions|
    decreases positions
  {
    if positions == {} {
      assert place.Keys == {};
    } else {
      var k: nat :| k in positions;
      var t :| t in place && place[t] == k;
      var rest := place - {t};
      assert rest.Keys == place.Keys - {t};
      forall j | j in positions - {k} ensures exists u :: u in rest && rest[u] == j {
        var u :| u in place && place[u] == j;
        assert u in rest;
      }
      SameSize(rest, positions - {k});
    }
  }
}
