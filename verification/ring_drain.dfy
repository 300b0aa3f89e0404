/** Progress in async mode: the consumer, left alone, claims and dispatches every record. */
module RingDrain {
  import opened Bytes
  import opened RingBuffer
  import opened RingInvariant
  import opened RingTheorems

  /** The async consumer never leaves its loop, and nobody but it moves the read index. */
  ghost predicate Sole(c: Config, s: State) {
    !c.sync && c.consumer in s.threads ==>
      var pc := s.threads[c.consumer];
      Consuming(pc) && (pc.ReadCheckProc? || pc.ReadCheckMark? || pc.ReadCas? ==> pc.seen == s.m.read)
  }

  lemma SoleKept(c: Config, s: State, tid: Tid, ch: Choice)
    requires Shaped(c, s) && Sole(c, s) && tid in s.threads
    requires !c.sync ==> forall i :: i in s.threads && Consuming(s.threads[i]) ==> i == c.consumer
    ensures Sole(c, Step(c, s, tid, ch))
  {
    if !c.sync && c.consumer in s.threads && tid != c.consumer {
      assert !Consuming(s.threads[tid]);
    }
  }

  lemma {:induction false} SoleAlong(c: Config, s: State, run: Schedule)
    requires Inv(c, s) && Sole(c, s) && Runs(c, s, run)
    ensures Sole(c, After(c, s, run))
    decreases |run|
  {
    hide Step, GuardHolds;
    if run != [] {
      StepKept(c, s, run[0].0, run[0].1);
      SoleKept(c, s, run[0].0, run[0].1);
      SoleAlong(c, Step(c, s, run[0].0, run[0].1), run[1..]);
    }
  }

  lemma ReachableSole(c: Config, s: State)
    requires Reachable(c, s)
    ensures Sole(c, s)
  {
    var s0: State, run: Schedule :| Init(c, s0) && Runs(c, s0, run) && After(c, s0, run) == s;
    InitInv(c, s0);
    SoleAlong(c, s0, run);
  }

  ghost predicate OthersRest(c: Config, s: State) {
    forall i :: i in s.threads && i != c.consumer ==> Resting(s.threads[i])
  }

  /** The consumer has the ring to itself. */
  ghost predicate Alone(c: Config, s: State) {
    !c.sync && c.consumer in s.threads && Inv(c, s) && Sole(c, s) && OthersRest(c, s)
  }

  /** Nothing is left to publish; nothing is left to recycle while the consumer looks for a claim. */
  lemma AloneZones(c: Config, s: State)
    requires Alone(c, s)
    ensures s.m.write == s.m.hold && s.m.read <= s.m.proc <= s.m.write < s.m.read + c.len
    ensures var pc := s.threads[c.consumer];
      (pc.ProcLoad? || pc.ProcCheck? || pc.ProcCas? ==> s.m.read == s.m.proc) &&
      (pc.ReadCheckMark? && s.m.read < s.m.proc ==> MarkAt(c, s.m, s.m.read) == Invalid)
  {
    AloneWrites(c, s);
    AloneReads(c, s);
  }

  lemma AloneWrites(c: Config, s: State)
    requires Alone(c, s)
    ensures s.m.write == s.m.hold
  {
    hide PublishedOk, DispatchedOk, AsyncOk, Counted, ThreadsOk, Exclusive;
    assert SlotOk(c, s, s.m.write);
    assert !WriteAttended(s) && !HasOwner(s, s.m.write);
  }

  lemma AloneReads(c: Config, s: State)
    requires Alone(c, s)
    ensures var pc := s.threads[c.consumer];
      (pc.ProcLoad? || pc.ProcCheck? || pc.ProcCas? ==> s.m.read == s.m.proc) &&
      (pc.ReadCheckMark? && s.m.read < s.m.proc ==> MarkAt(c, s.m, s.m.read) == Invalid)
  {
    hide PublishedOk, DispatchedOk, AsyncOk, Counted, ThreadsOk, Exclusive;
    assert SlotOk(c, s, s.m.read);
    assert Taken(s.threads[c.consumer]).Some? || !HasTaker(s, s.m.read);
  }

  /** The steps the consumer still needs, by where it stands. */
  ghost function Left(c: Config, s: State): int
    requires c.consumer in s.threads
  {
    var rest := 12 * (s.m.hold - s.m.proc) + 4 * (s.m.proc - s.m.read);
    match s.threads[c.consumer]
    case ProcLoad => rest
    case ProcCheck(_) => if rest == 0 then 0 else rest - 1
    case ProcCas(_) => rest - 2
    case Dispatch(_) => rest + 5
    case Clear(_) => rest + 4
    case ProcCount => rest + 3
    case ReadLoad => rest + 2
    case ReadCheckProc(_) => rest + 1
    case ReadCheckMark(_) => rest
    case _ => rest - 1
  }

  /** The consumer's own swaps meet their guards. */
  lemma AloneGuarded(c: Config, s: State)
    requires Alone(c, s)
    ensures Shaped(c, s) && GuardHolds(c, s, s.threads[c.consumer])
  {
    assert ThreadOk(c, s.m, s.threads[c.consumer]);
  }

  lemma AloneKept(c: Config, s: State, ch: Choice)
    requires Alone(c, s)
    ensures Alone(c, Step(c, s, c.consumer, ch)) && Shaped(c, Step(c, s, c.consumer, ch))
    ensures Step(c, s, c.consumer, ch).m.hold == s.m.hold && Step(c, s, c.consumer, ch).h.pushed == s.h.pushed
  {
    AloneGuarded(c, s);
    StepKept(c, s, c.consumer, ch);
    SoleKept(c, s, c.consumer, ch);
    OnlyItself(c, s, ch);
  }

  lemma OnlyItself(c: Config, s: State, ch: Choice)
    requires Shaped(c, s) && c.consumer in s.threads && Consuming(s.threads[c.consumer])
    ensures var s' := Step(c, s, c.consumer, ch);
      s'.m.hold == s.m.hold && s'.h.pushed == s.h.pushed && c.consumer in s'.threads &&
      s'.threads == s.threads[c.consumer := s'.threads[c.consumer]]
  {
  }

  /** Each step of the consumer brings it nearer to an empty ring, where it stays. */
  lemma LeftFalls(c: Config, s: State, ch: Choice)
    requires Alone(c, s)
    ensures c.consumer in Step(c, s, c.consumer, ch).threads && Left(c, s) >= 0
    ensures var next := Left(c, Step(c, s, c.consumer, ch)); if Left(c, s) == 0 then next == 0 else next < Left(c, s)
  {
    AloneZones(c, s);
    assert ThreadOk(c, s.m, s.threads[c.consumer]) && Current(s.m.proc, s.threads[c.consumer]);
    if Same(c, s.m.proc, s.m.write) { SameIsEqual(c, s.m.proc, s.m.write); }
    if Same(c, s.m.read, s.m.proc) { SameIsEqual(c, s.m.read, s.m.proc); }
    hide Inv, Slot, Alone, ThreadOk;
    StepsDown(c, s, ch);
  }

  lemma StepsDown(c: Config, s: State, ch: Choice)
    requires Shaped(c, s) && !c.sync && c.consumer in s.threads && Consuming(s.threads[c.consumer]) && Sole(c, s)
    requires s.m.read <= s.m.proc <= s.m.write == s.m.hold && Current(s.m.proc, s.threads[c.consumer])
    requires Same(c, s.m.proc, s.m.write) ==> s.m.proc == s.m.write
    requires Same(c, s.m.read, s.m.proc) ==> s.m.read == s.m.proc
    requires var pc := s.threads[c.consumer];
      (pc.ProcLoad? || pc.ProcCheck? || pc.ProcCas? ==> s.m.read == s.m.proc) &&
      (pc.ProcCas? ==> s.m.proc < s.m.write) &&
      (pc.ReadCheckMark? ==> s.m.read < s.m.proc && MarkAt(c, s.m, s.m.read) == Invalid) &&
      (pc.ReadCas? ==> s.m.read < s.m.proc)
    ensures c.consumer in Step(c, s, c.consumer, ch).threads && Left(c, s) >= 0
    ensures var next := Left(c, Step(c, s, c.consumer, ch)); if Left(c, s) == 0 then next == 0 else next < Left(c, s)
  {
    hide Slot;
  }

  lemma {:induction false} Drains(c: Config, s: State, run: Schedule)
    requires Alone(c, s) && (forall k :: 0 <= k < |run| ==> run[k].0 == c.consumer)
    ensures var s' := After(c, s, run);
      Alone(c, s') && s'.m.hold == s.m.hold && s'.h.pushed == s.h.pushed &&
      0 <= Left(c, s') && (Left(c, s') == 0 || Left(c, s') + |run| <= Left(c, s))
    decreases |run|
  {
    hide Step, Inv, Sole, OthersRest, Left;
    assert Shaped(c, s) by { AloneGuarded(c, s); }
    LeftFalls(c, s, Choice(true, ""));
    if run != [] {
      assert run[0].0 == c.consumer;
      LeftFalls(c, s, run[0].1);
      AloneKept(c, s, run[0].1);
      Drains(c, Step(c, s, c.consumer, run[0].1), run[1..]);
    }
  }

  /** With nothing left to do every record has been dispatched. */
  lemma Finished(c: Config, s: State)
    requires Alone(c, s) && Left(c, s) == 0
    ensures s.m.read == s.m.proc == s.m.write == s.m.hold
    ensures s.n.hold == s.n.push == s.n.processed == s.m.hold
    ensures |s.h.dispatched| == s.m.hold
    ensures forall t: nat :: t < s.m.hold ==> t in s.h.pushed && s.h.dispatched[t] == (t, s.h.pushed[t])
  {
    AloneZones(c, s);
    assert ThreadOk(c, s.m, s.threads[c.consumer]);
    assert s.threads[c.consumer].ProcLoad? || s.threads[c.consumer].ProcCheck?;
    assert Holding(s) == {} && Publishing(s) == {} && Processing(s) == {};
    forall t: nat | t < s.m.hold ensures t in s.h.pushed && s.h.dispatched[t] == (t, s.h.pushed[t]) {
      assert t in s.h.pushed || HasOwner(s, t);
    }
  }

  /** Async progress: from every reachable state in which the other threads are at rest, the
      consumer alone, in any run of at least twelve steps for each slot in use and five more,
      empties the ring. The indices and the counters agree, and every ticket won was dispatched,
      in its place, with the text its producer published. */
  lemma AsyncDrains(c: Config, s: State, run: Schedule)
    requires Reachable(c, s) && !c.sync && c.consumer in s.threads
    requires forall i :: i in s.threads && i != c.consumer ==> Resting(s.threads[i])
    requires forall k :: 0 <= k < |run| ==> run[k].0 == c.consumer
    requires |run| >= 12 * (s.m.hold - s.m.read) + 5
    ensures Shaped(c, s)
    ensures var m := After(c, s, run).m; m.read == m.proc == m.write == m.hold == s.m.hold
    ensures var n := After(c, s, run).n; n.hold == n.push == n.processed == s.m.hold
    ensures After(c, s, run).h.pushed == s.h.pushed && |After(c, s, run).h.dispatched| == s.m.hold
    ensures forall t: nat :: t < s.m.hold ==>
      t in s.h.pushed && After(c, s, run).h.dispatched[t] == (t, s.h.pushed[t])
  {
    ReachableInv(c, s);
    ReachableSole(c, s);
    Bounded(c, s);
    Drains(c, s, run);
    Finished(c, After(c, s, run));
  }

  lemma Bounded(c: Config, s: State)
    requires Alone(c, s)
    ensures Left(c, s) <= 12 * (s.m.hold - s.m.read) + 5
  {
    AloneZones(c, s);
  }
}
