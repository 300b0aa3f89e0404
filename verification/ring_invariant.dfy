/** What every step of the ring protocol keeps. */
module RingInvariant {
  import opened Bytes
  import opened RingBuffer

  /** The slot a producer won and has not published yet. */
  function Owned(pc: Pc): Option<nat> {
    match pc
    case HoldCount(t) => Some(t)
    case HoldMark(t) => Some(t)
    case Compose(t) => Some(t)
    case Fill(t, _) => Some(t)
    case Seal(t, _) => Some(t)
    case Publish(t, _) => Some(t)
    case _ => None
  }

  /** The slot a consumer claimed and has not recycled yet. */
  function Taken(pc: Pc): Option<nat> {
    match pc
    case Dispatch(t) => Some(t)
    case Clear(t) => Some(t)
    case _ => None
  }

  predicate Consuming(pc: Pc) {
    pc.ProcLoad? || pc.ProcCheck? || pc.ProcCas? || pc.Dispatch? || pc.Clear? || pc.ProcCount? ||
    pc.ReadLoad? || pc.ReadCheckProc? || pc.ReadCheckMark? || pc.ReadCas?
  }

  predicate Pushing(pc: Pc) {
    pc.PushLoad? || pc.PushCheckHold? || pc.PushCheckMark? || pc.PushCas? || pc.PushCount?
  }

  /** The ticket's winner still owns its slot. */
  predicate HasOwner(s: State, t: nat) {
    t < |s.h.producer| && s.h.producer[t] in s.threads && Owned(s.threads[s.h.producer[t]]) == Some(t)
  }

  /** The ticket's claimer still works on its slot. */
  predicate HasTaker(s: State, t: nat) {
    t < |s.h.claimer| && s.h.claimer[t] in s.threads && Taken(s.threads[s.h.claimer[t]]) == Some(t)
  }

  predicate InDispatch(s: State, t: nat) {
    t < |s.h.claimer| && s.h.claimer[t] in s.threads && s.threads[s.h.claimer[t]] == Dispatch(t)
  }

  predicate Dispatched(s: State, t: nat) {
    t in s.h.place && s.h.place[t] < |s.h.dispatched| && s.h.dispatched[s.h.place[t]].0 == t
  }

  // ----- the invariant, conjunct by conjunct

  /** The four indices chase each other and never lap. */
  ghost predicate Ordered(c: Config, m: Memory) {
    m.read <= m.proc <= m.write <= m.hold <= m.read + c.len - 1
  }

  /** What a thread may rely on at each program point. */
  ghost predicate ThreadOk(c: Config, m: Memory, pc: Pc)
    requires ShapedMemory(c, m)
  {
    match pc
    case HoldCheck(o) => o <= m.hold
    case HoldCas(o) => o <= m.hold && (o == m.hold ==> o + 1 < m.read + c.len)
    case HoldCount(t) => m.write <= t < m.hold && MarkAt(c, m, t) == Invalid
    case HoldMark(t) => m.write <= t < m.hold && MarkAt(c, m, t) == Invalid
    case Compose(t) => m.write <= t < m.hold && MarkAt(c, m, t) == Hold
    case Fill(t, x) => m.write <= t < m.hold && MarkAt(c, m, t) == Hold && ContentAt(c, m, t) == x
    case Seal(t, x) => m.write <= t < m.hold && MarkAt(c, m, t) == Hold && ContentAt(c, m, t) == x
    case Publish(t, x) => m.write <= t < m.hold && MarkAt(c, m, t) == Hold && ContentAt(c, m, t) == x
    case PushCheckHold(o) => o <= m.write
    case PushCheckMark(o) => o <= m.write && (o == m.write ==> m.write < m.hold)
    case PushCas(o) => o <= m.write && (o == m.write ==> m.write < m.hold && MarkAt(c, m, o) == Ready)
    case ProcCheck(o) => o <= m.proc
    case ProcCas(o) => o <= m.proc && (o == m.proc ==> m.proc < m.write)
    case Dispatch(t) => m.read <= t < m.proc && MarkAt(c, m, t) == Ready
    case Clear(t) => m.read <= t < m.proc && MarkAt(c, m, t) == Ready
    case ReadCheckProc(o) => o <= m.read
    case ReadCheckMark(o) => o <= m.read && (o == m.read ==> m.read < m.proc)
    case ReadCas(o) => o <= m.read && (o == m.read ==> m.read < m.proc && MarkAt(c, m, o) == Invalid)
    case _ => true
  }

  ghost predicate ThreadsOk(c: Config, s: State)
    requires Shaped(c, s)
  {
    forall i :: i in s.threads ==> ThreadOk(c, s.m, s.threads[i])
  }

  /** A slot is owned only by the thread that won it, and taken only by the thread that
      claimed it; so it never has two owners or two takers. */
  ghost predicate Exclusive(s: State) {
    && |s.h.producer| == s.m.hold && |s.h.claimer| == s.m.proc
    && (forall i :: i in s.threads ==>
          (Owned(s.threads[i]).Some? ==>
             Owned(s.threads[i]).value < s.m.hold && s.h.producer[Owned(s.threads[i]).value] == i) &&
          (Taken(s.threads[i]).Some? ==>
             Taken(s.threads[i]).value < s.m.proc && s.h.claimer[Taken(s.threads[i]).value] == i))
  }

  /** What the mark of a slot says, by the zone its ticket is in. */
  ghost predicate SlotOk(c: Config, s: State, t: nat)
    requires Shaped(c, s)
  {
    && (s.m.read <= t < s.m.proc ==> MarkAt(c, s.m, t) == Invalid || (MarkAt(c, s.m, t) == Ready && HasTaker(s, t)))
    && (s.m.proc <= t < s.m.write ==> MarkAt(c, s.m, t) == Ready)
    && (s.m.write <= t < s.m.hold ==> MarkAt(c, s.m, t) == Ready || HasOwner(s, t))
    && (s.m.hold <= t < s.m.read + c.len ==> MarkAt(c, s.m, t) == Invalid)
  }

  ghost predicate SlotsOk(c: Config, s: State)
    requires Shaped(c, s)
  {
    forall t: nat {:trigger SlotOk(c, s, t)} {:trigger MarkAt(c, s.m, t)} :: SlotOk(c, s, t)
  }

  /** A published slot still holds what its producer published. */
  ghost predicate PublishedOk(c: Config, s: State)
    requires Shaped(c, s)
  {
    && (forall t :: t in s.h.pushed ==> t < s.m.hold)
    && (forall t: nat {:trigger t in s.h.pushed} {:trigger HasOwner(s, t)} ::
          t < s.m.hold ==> t in s.h.pushed || HasOwner(s, t))
    && (forall t: nat {:trigger MarkAt(c, s.m, t)} :: s.m.read <= t < s.m.hold && MarkAt(c, s.m, t) == Ready ==>
          t in s.h.pushed && ContentAt(c, s.m, t) == s.h.pushed[t])
  }

  /** Each claimed ticket is dispatched once, with the published text. */
  ghost predicate DispatchedOk(s: State) {
    && (forall k :: 0 <= k < |s.h.dispatched| ==>
          var (t, x) := s.h.dispatched[k];
          t < s.m.proc && t in s.h.pushed && x == s.h.pushed[t] && t in s.h.place && s.h.place[t] == k)
    && (forall t :: t in s.h.place ==> t < s.m.proc && !InDispatch(s, t))
    && (forall t: nat {:trigger Dispatched(s, t)} {:trigger InDispatch(s, t)} ::
          t < s.m.proc ==> Dispatched(s, t) || InDispatch(s, t))
  }

  /** The claim index a consumer loaded is the current one. */
  predicate Current(proc: nat, pc: Pc) {
    pc.ProcCheck? || pc.ProcCas? ==> pc.seen == proc
  }

  /** In async mode one thread consumes, it dispatches in ticket order, and no one overtakes it. */
  ghost predicate AsyncOk(c: Config, s: State) {
    !c.sync ==>
      && (forall i :: i in s.threads && Consuming(s.threads[i]) ==> i == c.consumer)
      && (c.consumer in s.threads ==> Current(s.m.proc, s.threads[c.consumer]))
      && (forall k :: 0 <= k < |s.h.dispatched| ==> s.h.dispatched[k].0 == k)
      && var busy := c.consumer in s.threads && s.threads[c.consumer].Dispatch?;
         |s.h.dispatched| + (if busy then 1 else 0) == s.m.proc &&
         (busy ==> s.threads[c.consumer].ticket + 1 == s.m.proc)
  }

  // ----- who will finish the work that is left

  ghost predicate WriteDuty(s: State, pc: Pc) {
    pc.PushLoad? || pc.PushCount? || pc == PushCheckHold(s.m.write) || pc == PushCheckMark(s.m.write) ||
      pc == PushCas(s.m.write)
  }

  ghost predicate ProcDuty(s: State, pc: Pc) {
    Pushing(pc) || pc.ProcLoad? || pc == ProcCheck(s.m.proc) || pc == ProcCas(s.m.proc) ||
    (Consuming(pc) && !pc.ProcCheck? && !pc.ProcCas?)
  }

  ghost predicate ReadDuty(s: State, pc: Pc) {
    pc.ProcCount? || pc.ReadLoad? || pc == ReadCheckProc(s.m.read) || pc == ReadCheckMark(s.m.read) ||
      pc == ReadCas(s.m.read)
  }

  ghost predicate WriteAttended(s: State) {
    exists i :: i in s.threads && WriteDuty(s, s.threads[i])
  }

  ghost predicate ProcAttended(s: State) {
    exists i :: i in s.threads && ProcDuty(s, s.threads[i])
  }

  ghost predicate ReadAttended(s: State) {
    exists i :: i in s.threads && ReadDuty(s, s.threads[i])
  }

  /** A publishable slot, a claimable slot or a recyclable slot always has a thread that
      is going to look at it again. */
  ghost predicate Attended(c: Config, s: State)
    requires Shaped(c, s)
  {
    && (s.m.write < s.m.hold && MarkAt(c, s.m, s.m.write) == Ready ==> WriteAttended(s))
    && (c.sync && s.m.proc < s.m.write ==> ProcAttended(s))
    && (s.m.read < s.m.proc && MarkAt(c, s.m, s.m.read) == Invalid ==> ReadAttended(s))
  }

  // ----- counters

  ghost function Holding(s: State): set<Tid> {
    set i | i in s.threads && s.threads[i].HoldCount?
  }

  ghost function Publishing(s: State): set<Tid> {
    set i | i in s.threads && s.threads[i].PushCount?
  }

  ghost function Processing(s: State): set<Tid> {
    set i | i in s.threads && (s.threads[i].Dispatch? || s.threads[i].Clear? || s.threads[i].ProcCount?)
  }

  ghost predicate Counted(s: State) {
    s.n.hold + |Holding(s)| == s.m.hold && s.n.push + |Publishing(s)| == s.m.write &&
      s.n.processed + |Processing(s)| == s.m.proc
  }

  ghost predicate Inv(c: Config, s: State) {
    && Shaped(c, s)
    && Ordered(c, s.m) && ThreadsOk(c, s) && Exclusive(s) && SlotsOk(c, s)
    && PublishedOk(c, s) && DispatchedOk(s) && AsyncOk(c, s) && Attended(c, s) && Counted(s)
  }

  // ----- one step keeps it

  /** The thread may move under the standing assumption. */
  ghost predicate Enabled(c: Config, s: State, tid: Tid) {
    Inv(c, s) && tid in s.threads && GuardHolds(c, s, s.threads[tid])
  }

  /** Inside one lap, equal slots are equal tickets. */
  lemma SameIsEqual(c: Config, a: nat, b: nat)
    requires ValidConfig(c) && a <= b < a + c.len && Same(c, a, b)
    ensures a == b
  {
    if a < b { SlotDistinct(c.len, a, b); }
  }

  /** Under NoLap a compare-and-swap that succeeds has the current ticket. */
  lemma CasIsCurrent(c: Config, s: State, tid: Tid)
    requires Shaped(c, s) && tid in s.threads && ThreadOk(c, s.m, s.threads[tid]) && NoLap(c, s, s.threads[tid])
    ensures s.threads[tid].HoldCas? && Same(c, s.threads[tid].seen, s.m.hold) ==> s.threads[tid].seen == s.m.hold
    ensures s.threads[tid].PushCas? && Same(c, s.threads[tid].seen, s.m.write) ==> s.threads[tid].seen == s.m.write
    ensures s.threads[tid].ProcCas? && Same(c, s.threads[tid].seen, s.m.proc) ==> s.threads[tid].seen == s.m.proc
    ensures s.threads[tid].ReadCas? && Same(c, s.threads[tid].seen, s.m.read) ==> s.threads[tid].seen == s.m.read
  {
    match s.threads[tid]
    case HoldCas(o) => if Same(c, o, s.m.hold) { SameIsEqual(c, o, s.m.hold); }
    case PushCas(o) => if Same(c, o, s.m.write) { SameIsEqual(c, o, s.m.write); }
    case ProcCas(o) => if Same(c, o, s.m.proc) { SameIsEqual(c, o, s.m.proc); }
    case ReadCas(o) => if Same(c, o, s.m.read) { SameIsEqual(c, o, s.m.read); }
    case _ =>
  }

  /** So its guard, which held of that ticket when it was tested, holds now. */
  lemma NoLapSuffices(c: Config, s: State, tid: Tid)
    requires Inv(c, s) && tid in s.threads && NoLap(c, s, s.threads[tid])
    ensures GuardHolds(c, s, s.threads[tid])
  {
    assert ThreadOk(c, s.m, s.threads[tid]);
    CasIsCurrent(c, s, tid);
  }

  /** Writing one slot changes no other slot of the lap [read, read + len). */
  lemma LapFrame(c: Config, s: State, t: nat)
    requires Shaped(c, s) && s.m.read <= t < s.m.read + c.len
    ensures forall k: Mark, u: nat {:trigger MarkAt(c, SetMark(c, s, t, k).m, u)} ::
              s.m.read <= u < s.m.read + c.len ==>
      MarkAt(c, SetMark(c, s, t, k).m, u) == if u == t then k else MarkAt(c, s.m, u)
    ensures forall x: Text, u: nat {:trigger ContentAt(c, SetContent(c, s, t, x).m, u)} ::
              s.m.read <= u < s.m.read + c.len ==>
      ContentAt(c, SetContent(c, s, t, x).m, u) == if u == t then x else ContentAt(c, s.m, u)
  {
    SlotsDistinct(c.len, s.m.read);
  }

  // ----- steps that leave the memory alone

  /** `s'` differs from `s` by one thread's program point, counters and the dispatch log;
      the thread owns and takes the same slot as before. */
  ghost predicate Quiet(s: State, s': State, tid: Tid) {
    && tid in s.threads && tid in s'.threads && s'.threads == s.threads[tid := s'.threads[tid]] && s'.m == s.m
    && Owned(s.threads[tid]) == Owned(s'.threads[tid]) && Taken(s.threads[tid]) == Taken(s'.threads[tid])
    && s'.h.producer == s.h.producer && s'.h.claimer == s.h.claimer && s'.h.pushed == s.h.pushed
  }

  lemma QuietThreads(c: Config, s: State, s': State, tid: Tid)
    requires Shaped(c, s) && ThreadsOk(c, s) && Exclusive(s)
    requires Quiet(s, s', tid) && ThreadOk(c, s.m, s'.threads[tid])
    ensures ThreadsOk(c, s') && Exclusive(s')
  {
  }

  lemma QuietSlots(c: Config, s: State, s': State, tid: Tid)
    requires Shaped(c, s) && SlotsOk(c, s) && PublishedOk(c, s) && Quiet(s, s', tid)
    ensures SlotsOk(c, s') && PublishedOk(c, s')
  {
    assert forall t: nat :: HasOwner(s', t) == HasOwner(s, t) && HasTaker(s', t) == HasTaker(s, t);
    forall t: nat ensures SlotOk(c, s', t) { assert SlotOk(c, s, t); }
  }

  /** The dispatch log is untouched by a step that neither claims nor dispatches. */
  lemma LogKept(c: Config, s: State, s': State, tid: Tid)
    requires DispatchedOk(s) && AsyncOk(c, s)
    requires tid in s.threads && tid in s'.threads && s'.threads == s.threads[tid := s'.threads[tid]]
    requires s.threads[tid].Dispatch? == s'.threads[tid].Dispatch? == false
    requires !c.sync && Consuming(s'.threads[tid]) ==> tid == c.consumer && Current(s.m.proc, s'.threads[tid])
    requires s'.m.proc == s.m.proc && s'.h.(pushed := s.h.pushed, producer := s.h.producer) == s.h
    requires forall t :: t in s.h.pushed && t < s.m.proc ==> t in s'.h.pushed && s'.h.pushed[t] == s.h.pushed[t]
    ensures DispatchedOk(s') && AsyncOk(c, s')
  {
    assert forall t: nat :: InDispatch(s', t) == InDispatch(s, t) && Dispatched(s', t) == Dispatched(s, t);
  }

  function AtHold(pc: Pc): nat { if pc.HoldCount? then 1 else 0 }

  function AtPush(pc: Pc): nat { if pc.PushCount? then 1 else 0 }

  function AtProc(pc: Pc): nat { if pc.Dispatch? || pc.Clear? || pc.ProcCount? then 1 else 0 }

  lemma CountedKept(s: State, s': State, tid: Tid)
    requires Counted(s)
    requires tid in s.threads && tid in s'.threads && s'.threads == s.threads[tid := s'.threads[tid]]
    requires s'.n.hold + AtHold(s'.threads[tid]) - s'.m.hold == s.n.hold + AtHold(s.threads[tid]) - s.m.hold
    requires s'.n.push + AtPush(s'.threads[tid]) - s'.m.write == s.n.push + AtPush(s.threads[tid]) - s.m.write
    requires s'.n.processed + AtProc(s'.threads[tid]) - s'.m.proc == s.n.processed + AtProc(s.threads[tid]) - s.m.proc
    ensures Counted(s')
  {
    hide Holding, Publishing, Processing;
    HoldingMoves(s, s', tid);
    PublishingMoves(s, s', tid);
    ProcessingMoves(s, s', tid);
  }

  lemma HoldingMoves(s: State, s': State, tid: Tid)
    requires tid in s.threads && tid in s'.threads && s'.threads == s.threads[tid := s'.threads[tid]]
    ensures |Holding(s')| - AtHold(s'.threads[tid]) == |Holding(s)| - AtHold(s.threads[tid])
  {
    assert Holding(s') - {tid} == Holding(s) - {tid};
    SizeWithout(Holding(s), tid);
    SizeWithout(Holding(s'), tid);
  }

  lemma PublishingMoves(s: State, s': State, tid: Tid)
    requires tid in s.threads && tid in s'.threads && s'.threads == s.threads[tid := s'.threads[tid]]
    ensures |Publishing(s')| - AtPush(s'.threads[tid]) == |Publishing(s)| - AtPush(s.threads[tid])
  {
    assert Publishing(s') - {tid} == Publishing(s) - {tid};
    SizeWithout(Publishing(s), tid);
    SizeWithout(Publishing(s'), tid);
  }

  lemma ProcessingMoves(s: State, s': State, tid: Tid)
    requires tid in s.threads && tid in s'.threads && s'.threads == s.threads[tid := s'.threads[tid]]
    ensures |Processing(s')| - AtProc(s'.threads[tid]) == |Processing(s)| - AtProc(s.threads[tid])
  {
    assert Processing(s') - {tid} == Processing(s) - {tid};
    SizeWithout(Processing(s), tid);
    SizeWithout(Processing(s'), tid);
  }

  lemma SizeWithout(xs: set<Tid>, x: Tid)
    ensures |xs - {x}| == |xs| - (if x in xs then 1 else 0)
  {
    if x !in xs { assert xs - {x} == xs; }
  }

  /** A thread hands on its share of the work: any other thread's duty is untouched. */
  lemma AttendedKept(s: State, s': State, tid: Tid)
    requires tid in s.threads && tid in s'.threads && s'.threads == s.threads[tid := s'.threads[tid]]
    ensures (&& WriteAttended(s) && s'.m.write == s.m.write
             && (WriteDuty(s, s.threads[tid]) ==> WriteDuty(s', s'.threads[tid]))) ==>
              WriteAttended(s')
    ensures (&& ProcAttended(s) && s'.m.proc == s.m.proc
             && (ProcDuty(s, s.threads[tid]) ==> ProcDuty(s', s'.threads[tid]))) ==>
              ProcAttended(s')
    ensures (&& ReadAttended(s) && s'.m.read == s.m.read
             && (ReadDuty(s, s.threads[tid]) ==> ReadDuty(s', s'.threads[tid]))) ==>
              ReadAttended(s')
  {
    if WriteAttended(s) && s'.m.write == s.m.write &&
       (WriteDuty(s, s.threads[tid]) ==> WriteDuty(s', s'.threads[tid])) {
      var i :| i in s.threads && WriteDuty(s, s.threads[i]);
      assert i in s'.threads && WriteDuty(s', s'.threads[i]);
    }
    if ProcAttended(s) && s'.m.proc == s.m.proc && (ProcDuty(s, s.threads[tid]) ==> ProcDuty(s', s'.threads[tid])) {
      var i :| i in s.threads && ProcDuty(s, s.threads[i]);
      assert i in s'.threads && ProcDuty(s', s'.threads[i]);
    }
    if ReadAttended(s) && s'.m.read == s.m.read && (ReadDuty(s, s.threads[tid]) ==> ReadDuty(s', s'.threads[tid])) {
      var i :| i in s.threads && ReadDuty(s, s.threads[i]);
      assert i in s'.threads && ReadDuty(s', s'.threads[i]);
    }
  }

  /** The thread may move to `pc'` on its own, the counters to `n` with it: it keeps what it
      owns and takes, and drops a duty only when there is nothing left to do. */
  ghost predicate LocalOk(c: Config, s: State, tid: Tid, n: Counters, pc': Pc)
    requires Shaped(c, s) && tid in s.threads
  {
    var pc := s.threads[tid];
    && ThreadOk(c, s.m, pc') && Owned(pc) == Owned(pc') && Taken(pc) == Taken(pc') &&
         pc.Dispatch? == pc'.Dispatch? == false
    && n.hold + AtHold(pc') == s.n.hold + AtHold(pc) && n.push + AtPush(pc') == s.n.push + AtPush(pc)
    && n.processed + AtProc(pc') == s.n.processed + AtProc(pc)
    && (!c.sync && Consuming(pc') ==> tid == c.consumer && Current(s.m.proc, pc'))
    && (s.m.write < s.m.hold && MarkAt(c, s.m, s.m.write) == Ready && WriteDuty(s, pc) ==> WriteDuty(s, pc'))
    && (c.sync && s.m.proc < s.m.write && ProcDuty(s, pc) ==> ProcDuty(s, pc'))
    && (s.m.read < s.m.proc && MarkAt(c, s.m, s.m.read) == Invalid && ReadDuty(s, pc) ==> ReadDuty(s, pc'))
  }

  lemma LocalAttended(c: Config, s: State, tid: Tid, n: Counters, pc': Pc)
    requires Shaped(c, s) && Attended(c, s) && tid in s.threads && LocalOk(c, s, tid, n, pc')
    ensures Attended(c, To(s.(n := n), tid, pc'))
  {
    AttendedKept(s, To(s.(n := n), tid, pc'), tid);
  }

  /** A thread that moves only itself and its counter, and leaves no work unattended. */
  lemma LocalKept(c: Config, s: State, tid: Tid, n: Counters, pc': Pc)
    requires Inv(c, s) && tid in s.threads && LocalOk(c, s, tid, n, pc')
    ensures Inv(c, To(s.(n := n), tid, pc'))
  {
    var s' := To(s.(n := n), tid, pc');
    QuietThreads(c, s, s', tid);
    QuietSlots(c, s, s', tid);
    LogKept(c, s, s', tid);
    LocalAttended(c, s, tid, n, pc');
    CountedKept(s, s', tid);
  }

  // ----- an index moves: what the other threads know stays true

  lemma HoldFrame(c: Config, m: Memory, pc: Pc)
    requires ShapedMemory(c, m) && ThreadOk(c, m, pc)
    ensures ThreadOk(c, m.(hold := m.hold + 1), pc)
  {
  }

  lemma WriteFrame(c: Config, m: Memory, pc: Pc)
    requires ShapedMemory(c, m) && ThreadOk(c, m, pc) && (Owned(pc).Some? ==> Owned(pc).value != m.write)
    ensures ThreadOk(c, m.(write := m.write + 1), pc)
  {
  }

  lemma ProcFrame(c: Config, m: Memory, pc: Pc)
    requires ShapedMemory(c, m) && ThreadOk(c, m, pc)
    ensures ThreadOk(c, m.(proc := m.proc + 1), pc)
  {
  }

  lemma ReadFrame(c: Config, m: Memory, pc: Pc)
    requires ShapedMemory(c, m) && ThreadOk(c, m, pc) && (Taken(pc).Some? ==> Taken(pc).value != m.read)
    ensures ThreadOk(c, m.(read := m.read + 1), pc)
  {
  }

  // ----- HoldChannel wins a ticket

  lemma HoldWonThreads(c: Config, s: State, tid: Tid)
    requires Shaped(c, s) && Ordered(c, s.m) && ThreadsOk(c, s) && Exclusive(s) && SlotOk(c, s, s.m.hold)
    requires tid in s.threads && s.threads[tid] == HoldCas(s.m.hold)
    ensures var s' := HoldStep(c, s, tid, s.threads[tid]); Ordered(c, s'.m) && ThreadsOk(c, s') && Exclusive(s')
  {
    var s' := HoldStep(c, s, tid, s.threads[tid]);
    assert s' == To(s.(m := s.m.(hold := s.m.hold + 1), h := s'.h), tid, HoldCount(s.m.hold));
    assert ThreadOk(c, s.m, s.threads[tid]);
    forall i | i in s'.threads && i != tid ensures ThreadOk(c, s'.m, s'.threads[i]) {
      assert ThreadOk(c, s.m, s.threads[i]);
      HoldFrame(c, s.m, s.threads[i]);
    }
  }

  lemma HoldWonSlots(c: Config, s: State, tid: Tid)
    requires Shaped(c, s) && Ordered(c, s.m) && |s.h.producer| == s.m.hold && SlotsOk(c, s) && PublishedOk(c, s)
    requires tid in s.threads && s.threads[tid] == HoldCas(s.m.hold)
    ensures var s' := HoldStep(c, s, tid, s.threads[tid]); SlotsOk(c, s') && PublishedOk(c, s')
  {
    var s' := HoldStep(c, s, tid, s.threads[tid]);
    assert HasOwner(s', s.m.hold) && MarkAt(c, s.m, s.m.hold) == Invalid by { assert SlotOk(c, s, s.m.hold); }
    forall t: nat ensures HasOwner(s, t) ==> HasOwner(s', t) {}
    forall t: nat ensures SlotOk(c, s', t) { assert SlotOk(c, s, t) && HasTaker(s', t) == HasTaker(s, t); }
    forall t: nat | t < s'.m.hold ensures t in s'.h.pushed || HasOwner(s', t) {
      if t < s.m.hold { assert t in s.h.pushed || HasOwner(s, t); }
    }
    forall t: nat | s'.m.read <= t < s'.m.hold && MarkAt(c, s'.m, t) == Ready
      ensures t in s'.h.pushed && ContentAt(c, s'.m, t) == s'.h.pushed[t]
    { assert MarkAt(c, s.m, t) == Ready; }
  }

  lemma HoldWonAttended(c: Config, s: State, tid: Tid)
    requires Shaped(c, s) && Ordered(c, s.m) && SlotOk(c, s, s.m.hold) && Attended(c, s)
    requires tid in s.threads && s.threads[tid] == HoldCas(s.m.hold)
    ensures Attended(c, HoldStep(c, s, tid, s.threads[tid]))
  {
    AttendedKept(s, HoldStep(c, s, tid, s.threads[tid]), tid);
  }

  lemma HoldWonLog(c: Config, s: State, tid: Tid)
    requires Inv(c, s) && tid in s.threads && s.threads[tid] == HoldCas(s.m.hold)
    ensures var s' := HoldStep(c, s, tid, s.threads[tid]); DispatchedOk(s') && AsyncOk(c, s') && Counted(s')
  {
    var s' := HoldStep(c, s, tid, s.threads[tid]);
    hide SlotsOk, Attended, ThreadOk;
    LogKept(c, s, s', tid);
    CountedKept(s, s', tid);
  }

  /** A producer wins the ticket `hold`. */
  lemma HoldWon(c: Config, s: State, tid: Tid)
    requires Inv(c, s) && tid in s.threads && s.threads[tid] == HoldCas(s.m.hold)
    ensures Inv(c, HoldStep(c, s, tid, s.threads[tid]))
  {
    assert SlotOk(c, s, s.m.hold);
    hide Ordered, ThreadsOk, Exclusive, SlotsOk, PublishedOk, DispatchedOk, AsyncOk, Attended, Counted, HoldStep;
    HoldWonThreads(c, s, tid);
    HoldWonSlots(c, s, tid);
    HoldWonLog(c, s, tid);
    HoldWonAttended(c, s, tid);
  }

  /** A step that moves no index and no mark, by a thread that keeps its duties. */
  lemma SteadyAttended(c: Config, s: State, s': State, tid: Tid)
    requires Shaped(c, s) && Attended(c, s) && s'.m == s.m.(content := s'.m.content) && |s'.m.content| == c.len
    requires tid in s.threads && tid in s'.threads && s'.threads == s.threads[tid := s'.threads[tid]]
    requires WriteDuty(s, s.threads[tid]) ==> WriteDuty(s', s'.threads[tid])
    requires ProcDuty(s, s.threads[tid]) ==> ProcDuty(s', s'.threads[tid])
    requires ReadDuty(s, s.threads[tid]) ==> ReadDuty(s', s'.threads[tid])
    ensures Attended(c, s')
  {
    AttendedKept(s, s', tid);
    assert forall t :: MarkAt(c, s'.m, t) == MarkAt(c, s.m, t);
  }

  // ----- a slot's mark changes

  /** Changing the mark of a slot someone else owns or took leaves a thread's facts alone. */
  lemma MarkFrame(c: Config, s: State, t: nat, k: Mark, pc: Pc)
    requires Shaped(c, s) && Ordered(c, s.m) && ThreadOk(c, s.m, pc) && Owned(pc) != Some(t) && Taken(pc) != Some(t)
    requires (s.m.write <= t < s.m.hold && MarkAt(c, s.m, t) != Ready) || (s.m.read <= t < s.m.proc && k == Invalid)
    ensures ThreadOk(c, SetMark(c, s, t, k).m, pc)
  {
    LapFrame(c, s, t);
  }

  lemma MarkThreads(c: Config, s: State, s': State, tid: Tid, t: nat, k: Mark)
    requires Shaped(c, s) && Ordered(c, s.m) && ThreadsOk(c, s) && Exclusive(s)
    requires tid in s.threads && (Owned(s.threads[tid]) == Some(t) || Taken(s.threads[tid]) == Some(t))
    requires (s.m.write <= t < s.m.hold && MarkAt(c, s.m, t) != Ready) || (s.m.read <= t < s.m.proc && k == Invalid)
    requires tid in s'.threads && s'.threads == s.threads[tid := s'.threads[tid]] && s'.m == SetMark(c, s, t, k).m
    requires s'.h.producer == s.h.producer && s'.h.claimer == s.h.claimer
    requires Owned(s'.threads[tid]) in {None, Owned(s.threads[tid])} &&
             Taken(s'.threads[tid]) in {None, Taken(s.threads[tid])}
    requires ThreadOk(c, s'.m, s'.threads[tid])
    ensures ThreadsOk(c, s') && Exclusive(s')
  {
    forall i | i in s'.threads ensures ThreadOk(c, s'.m, s'.threads[i]) {
      if i != tid {
        assert ThreadOk(c, s.m, s.threads[i]);
        assert Owned(s.threads[i]) != Some(t) && Taken(s.threads[i]) != Some(t) by {
          OwnerTakerApart(c, s, tid, i, t);
        }
        MarkFrame(c, s, t, k, s.threads[i]);
      }
    }
  }

  /** A thread that owns or took a slot shares it with nobody. */
  lemma OwnerTakerApart(c: Config, s: State, i: Tid, j: Tid, t: nat)
    requires Shaped(c, s) && Ordered(c, s.m) && ThreadsOk(c, s) && Exclusive(s) && i in s.threads &&
             j in s.threads && i != j
    requires Owned(s.threads[i]) == Some(t) || Taken(s.threads[i]) == Some(t)
    ensures Owned(s.threads[j]) != Some(t) && Taken(s.threads[j]) != Some(t)
  {
    assert ThreadOk(c, s.m, s.threads[i]) && ThreadOk(c, s.m, s.threads[j]);
  }

  lemma HoldMarkThreads(c: Config, s: State, tid: Tid)
    requires Shaped(c, s) && Ordered(c, s.m) && ThreadsOk(c, s) && Exclusive(s) && tid in s.threads &&
             s.threads[tid].HoldMark?
    ensures var s' := HoldStep(c, s, tid, s.threads[tid]);
            Shaped(c, s') && Ordered(c, s'.m) && ThreadsOk(c, s') && Exclusive(s')
  {
    var s', t := HoldStep(c, s, tid, s.threads[tid]), s.threads[tid].ticket;
    assert ThreadOk(c, s.m, s.threads[tid]);
    assert s' == To(SetMark(c, s, t, Hold), tid, Compose(t));
    LapFrame(c, s, t);
    hide ThreadsOk, Exclusive;
    MarkThreads(c, s, s', tid, t, Hold);
  }

  lemma HoldMarkLog(c: Config, s: State, tid: Tid)
    requires Inv(c, s) && tid in s.threads && s.threads[tid].HoldMark?
    ensures var s' := HoldStep(c, s, tid, s.threads[tid]); DispatchedOk(s') && AsyncOk(c, s') && Counted(s')
  {
    var s' := HoldStep(c, s, tid, s.threads[tid]);
    assert ThreadOk(c, s.m, s.threads[tid]);
    var t := s.threads[tid].ticket;
    assert s' == To(SetMark(c, s, t, Hold), tid, Compose(t));
    hide SlotsOk, Attended, ThreadOk;
    LogKept(c, s, s', tid);
    CountedKept(s, s', tid);
  }

  lemma HoldMarkKept(c: Config, s: State, tid: Tid)
    requires Inv(c, s) && tid in s.threads && s.threads[tid].HoldMark?
    ensures Inv(c, HoldStep(c, s, tid, s.threads[tid]))
  {
    assert ThreadOk(c, s.m, s.threads[tid]);
    HoldMarkThreads(c, s, tid);
    HoldMarkLog(c, s, tid);
    hide Ordered, ThreadsOk, Exclusive, SlotsOk, PublishedOk, DispatchedOk, AsyncOk, Attended, Counted, HoldStep,
      ThreadOk;
    HoldMarkSlots(c, s, tid);
    HoldMarkAttended(c, s, tid);
  }

  lemma HoldMarkSlots(c: Config, s: State, tid: Tid)
    requires Shaped(c, s) && Ordered(c, s.m) && SlotsOk(c, s) && PublishedOk(c, s) && Exclusive(s)
    requires tid in s.threads && s.threads[tid].HoldMark? && ThreadOk(c, s.m, s.threads[tid])
    ensures var s' := HoldStep(c, s, tid, s.threads[tid]); SlotsOk(c, s') && PublishedOk(c, s')
  {
    var s', t := HoldStep(c, s, tid, s.threads[tid]), s.threads[tid].ticket;
    LapFrame(c, s, t);
    assert forall u: nat :: HasOwner(s', u) == HasOwner(s, u) && HasTaker(s', u) == HasTaker(s, u);
    forall u: nat ensures SlotOk(c, s', u) { assert SlotOk(c, s, u); }
    forall u: nat | s'.m.read <= u < s'.m.hold && MarkAt(c, s'.m, u) == Ready
      ensures u in s'.h.pushed && ContentAt(c, s'.m, u) == s'.h.pushed[u]
    { assert MarkAt(c, s.m, u) == Ready; }
  }

  lemma HoldMarkAttended(c: Config, s: State, tid: Tid)
    requires Shaped(c, s) && Ordered(c, s.m) && Attended(c, s)
    requires tid in s.threads && s.threads[tid].HoldMark? && ThreadOk(c, s.m, s.threads[tid])
    ensures Attended(c, HoldStep(c, s, tid, s.threads[tid]))
  {
    LapFrame(c, s, s.threads[tid].ticket);
    AttendedKept(s, HoldStep(c, s, tid, s.threads[tid]), tid);
  }

  // ----- the owner writes its slot

  lemma ContentFrame(c: Config, s: State, t: nat, x: Text, pc: Pc)
    requires Shaped(c, s) && Ordered(c, s.m) && ThreadOk(c, s.m, pc) && Owned(pc) != Some(t)
    requires s.m.write <= t < s.m.hold
    ensures ThreadOk(c, SetContent(c, s, t, x).m, pc)
  {
    LapFrame(c, s, t);
    assert forall u :: MarkAt(c, SetContent(c, s, t, x).m, u) == MarkAt(c, s.m, u);
  }

  lemma WroteThreads(c: Config, s: State, tid: Tid, x: Text, pc': Pc)
    requires Shaped(c, s) && Ordered(c, s.m) && ThreadsOk(c, s) && Exclusive(s) && tid in s.threads
    requires Owned(pc').Some? && Owned(s.threads[tid]) == Owned(pc') && Taken(pc') == None
    requires ThreadOk(c, SetContent(c, s, Owned(pc').value, x).m, pc')
    ensures var s' := To(SetContent(c, s, Owned(pc').value, x), tid, pc'); ThreadsOk(c, s') && Exclusive(s')
  {
    var t := Owned(pc').value;
    var s' := To(SetContent(c, s, t, x), tid, pc');
    assert ThreadOk(c, s.m, s.threads[tid]);
    forall i | i in s'.threads ensures ThreadOk(c, s'.m, s'.threads[i]) {
      if i != tid {
        assert ThreadOk(c, s.m, s.threads[i]);
        OwnerTakerApart(c, s, tid, i, t);
        ContentFrame(c, s, t, x, s.threads[i]);
      }
    }
  }

  lemma WroteSlots(c: Config, s: State, tid: Tid, x: Text, pc': Pc)
    requires Shaped(c, s) && Ordered(c, s.m) && SlotsOk(c, s) && PublishedOk(c, s) && tid in s.threads
    requires Owned(pc').Some? && Owned(s.threads[tid]) == Owned(pc') && Taken(pc') == Taken(s.threads[tid])
    requires s.m.write <= Owned(pc').value < s.m.hold && MarkAt(c, s.m, Owned(pc').value) == Hold
    ensures var s' := To(SetContent(c, s, Owned(pc').value, x), tid, pc'); SlotsOk(c, s') && PublishedOk(c, s')
  {
    var t := Owned(pc').value;
    var s' := To(SetContent(c, s, t, x), tid, pc');
    LapFrame(c, s, t);
    assert forall u: nat :: HasOwner(s', u) == HasOwner(s, u) && HasTaker(s', u) == HasTaker(s, u);
    forall u: nat ensures SlotOk(c, s', u) { assert SlotOk(c, s, u) && MarkAt(c, s'.m, u) == MarkAt(c, s.m, u); }
    forall u: nat | s'.m.read <= u < s'.m.hold && MarkAt(c, s'.m, u) == Ready
      ensures u in s'.h.pushed && ContentAt(c, s'.m, u) == s'.h.pushed[u]
    { assert MarkAt(c, s.m, u) == Ready; }
  }

  /** The owner of a slot neither publishes nor consumes meanwhile. */
  lemma OwnerRole(s: State, pc: Pc)
    requires Owned(pc).Some?
    ensures !WriteDuty(s, pc) && !ProcDuty(s, pc) && !ReadDuty(s, pc) && !Consuming(pc) && Taken(pc) == None
    ensures AtPush(pc) == AtProc(pc) == 0 && !pc.Dispatch?
  {
  }

  /** LogStream's writes and the final line feed reach only the owner's slot. */
  lemma WroteKept(c: Config, s: State, tid: Tid, x: Text, pc': Pc)
    requires Inv(c, s) && tid in s.threads
    requires Owned(pc').Some? && Owned(s.threads[tid]) == Owned(pc') && !pc'.HoldCount? && !s.threads[tid].HoldCount?
    requires ThreadOk(c, s.m, s.threads[tid]) && MarkAt(c, s.m, Owned(pc').value) == Hold
    requires ThreadOk(c, SetContent(c, s, Owned(pc').value, x).m, pc')
    ensures Inv(c, To(SetContent(c, s, Owned(pc').value, x), tid, pc'))
  {
    var s' := To(SetContent(c, s, Owned(pc').value, x), tid, pc');
    OwnerRole(s, pc');
    OwnerRole(s, s.threads[tid]);
    WroteThreads(c, s, tid, x, pc');
    WroteSlots(c, s, tid, x, pc');
    LogKept(c, s, s', tid);
    SteadyAttended(c, s, s', tid);
    CountedKept(s, s', tid);
  }

  // ----- PushChannel publishes

  lemma PublishSlots(c: Config, s: State, tid: Tid)
    requires Shaped(c, s) && Ordered(c, s.m) && SlotsOk(c, s) && PublishedOk(c, s) && Exclusive(s)
    requires tid in s.threads && s.threads[tid].Publish? && ThreadOk(c, s.m, s.threads[tid])
    ensures var s' := To(SetMark(c, s, s.threads[tid].ticket, Ready), tid, PushLoad)
                        .(h := s.h.(pushed := s.h.pushed[s.threads[tid].ticket := s.threads[tid].text]));
            SlotsOk(c, s') && PublishedOk(c, s')
  {
    var t := s.threads[tid].ticket;
    var s' := To(SetMark(c, s, t, Ready), tid, PushLoad).(h := s.h.(pushed := s.h.pushed[t := s.threads[tid].text]));
    LapFrame(c, s, t);
    assert forall u: nat :: u != t ==> HasOwner(s', u) == HasOwner(s, u);
    assert forall u: nat :: HasTaker(s', u) == HasTaker(s, u);
    forall u: nat ensures SlotOk(c, s', u) { assert SlotOk(c, s, u); }
    forall u: nat | u < s'.m.hold ensures u in s'.h.pushed || HasOwner(s', u) {
      assert u in s.h.pushed || HasOwner(s, u);
    }
    forall u: nat | s'.m.read <= u < s'.m.hold && MarkAt(c, s'.m, u) == Ready
      ensures u in s'.h.pushed && ContentAt(c, s'.m, u) == s'.h.pushed[u]
    { if u != t { assert MarkAt(c, s.m, u) == Ready; } }
  }

  lemma PublishAttended(c: Config, s: State, s': State, tid: Tid)
    requires Shaped(c, s) && Ordered(c, s.m) && Attended(c, s)
    requires tid in s.threads && s.threads[tid].Publish? && ThreadOk(c, s.m, s.threads[tid])
    requires s'.threads == s.threads[tid := PushLoad] && s'.m == SetMark(c, s, s.threads[tid].ticket, Ready).m
    ensures Attended(c, s')
  {
    LapFrame(c, s, s.threads[tid].ticket);
    AttendedKept(s, s', tid);
    assert WriteAttended(s') by { assert s'.threads[tid].PushLoad?; }
  }

  lemma PublishThreads(c: Config, s: State, tid: Tid, ch: Choice)
    requires Shaped(c, s) && Ordered(c, s.m) && ThreadsOk(c, s) && Exclusive(s) && tid in s.threads &&
             s.threads[tid].Publish?
    ensures var s' := FillStep(c, s, tid, s.threads[tid], ch);
            Shaped(c, s') && Ordered(c, s'.m) && ThreadsOk(c, s') && Exclusive(s')
  {
    var s', t := FillStep(c, s, tid, s.threads[tid], ch), s.threads[tid].ticket;
    assert ThreadOk(c, s.m, s.threads[tid]);
    assert s' == To(SetMark(c, s, t, Ready), tid, PushLoad)
                 .(h := s.h.(pushed := s.h.pushed[t := s.threads[tid].text]));
    LapFrame(c, s, t);
    hide ThreadsOk, Exclusive;
    MarkThreads(c, s, s', tid, t, Ready);
  }

  lemma PublishLog(c: Config, s: State, tid: Tid, ch: Choice)
    requires Inv(c, s) && tid in s.threads && s.threads[tid].Publish?
    ensures var s' := FillStep(c, s, tid, s.threads[tid], ch); DispatchedOk(s') && AsyncOk(c, s') && Counted(s')
  {
    var s' := FillStep(c, s, tid, s.threads[tid], ch);
    assert ThreadOk(c, s.m, s.threads[tid]);
    var t := s.threads[tid].ticket;
    assert s' == To(SetMark(c, s, t, Ready), tid, PushLoad)
                 .(h := s.h.(pushed := s.h.pushed[t := s.threads[tid].text]));
    hide SlotsOk, Attended, ThreadOk;
    LogKept(c, s, s', tid);
    CountedKept(s, s', tid);
  }

  lemma PublishKept(c: Config, s: State, tid: Tid, ch: Choice)
    requires Inv(c, s) && tid in s.threads && s.threads[tid].Publish?
    ensures Inv(c, FillStep(c, s, tid, s.threads[tid], ch))
  {
    assert ThreadOk(c, s.m, s.threads[tid]);
    PublishThreads(c, s, tid, ch);
    PublishLog(c, s, tid, ch);
    var s' := FillStep(c, s, tid, s.threads[tid], ch);
    var t := s.threads[tid].ticket;
    assert s' == To(SetMark(c, s, t, Ready), tid, PushLoad)
                 .(h := s.h.(pushed := s.h.pushed[t := s.threads[tid].text]));
    hide Ordered, ThreadsOk, Exclusive, SlotsOk, PublishedOk, DispatchedOk, AsyncOk, Attended, Counted, FillStep,
      ThreadOk;
    PublishSlots(c, s, tid);
    PublishAttended(c, s, s', tid);
  }

  // ----- the write index moves

  lemma PushWonThreads(c: Config, s: State, tid: Tid)
    requires Shaped(c, s) && Ordered(c, s.m) && ThreadsOk(c, s) && Exclusive(s)
    requires tid in s.threads && s.threads[tid] == PushCas(s.m.write)
    ensures var s' := PushStep(c, s, tid, s.threads[tid]); Ordered(c, s'.m) && ThreadsOk(c, s') && Exclusive(s')
  {
    var s' := PushStep(c, s, tid, s.threads[tid]);
    assert s' == To(s.(m := s.m.(write := s.m.write + 1)), tid, PushCount);
    assert ThreadOk(c, s.m, s.threads[tid]);
    forall i | i in s'.threads && i != tid ensures ThreadOk(c, s'.m, s'.threads[i]) {
      assert ThreadOk(c, s.m, s.threads[i]);
      WriteFrame(c, s.m, s.threads[i]);
    }
  }

  lemma PushWonSlots(c: Config, s: State, tid: Tid)
    requires Shaped(c, s) && Ordered(c, s.m) && SlotsOk(c, s) && PublishedOk(c, s)
    requires tid in s.threads && ThreadOk(c, s.m, s.threads[tid]) && s.threads[tid] == PushCas(s.m.write)
    ensures var s' := PushStep(c, s, tid, s.threads[tid]); SlotsOk(c, s') && PublishedOk(c, s')
  {
    var s' := PushStep(c, s, tid, s.threads[tid]);
    assert forall u: nat :: HasOwner(s', u) == HasOwner(s, u) && HasTaker(s', u) == HasTaker(s, u);
    forall u: nat ensures SlotOk(c, s', u) { assert SlotOk(c, s, u); }
    forall u: nat | s'.m.read <= u < s'.m.hold && MarkAt(c, s'.m, u) == Ready
      ensures u in s'.h.pushed && ContentAt(c, s'.m, u) == s'.h.pushed[u]
    { assert MarkAt(c, s.m, u) == Ready; }
  }

  lemma PushWonAttended(c: Config, s: State, tid: Tid)
    requires Shaped(c, s) && Ordered(c, s.m) && Attended(c, s)
    requires tid in s.threads && s.threads[tid] == PushCas(s.m.write)
    ensures Attended(c, PushStep(c, s, tid, s.threads[tid]))
  {
    var s' := PushStep(c, s, tid, s.threads[tid]);
    AttendedKept(s, s', tid);
    assert s'.threads[tid].PushCount?;
    assert WriteDuty(s', s'.threads[tid]) && ProcDuty(s', s'.threads[tid]);
    assert forall t :: MarkAt(c, s'.m, t) == MarkAt(c, s.m, t);
  }

  lemma PushWonLog(c: Config, s: State, tid: Tid)
    requires Inv(c, s) && tid in s.threads && s.threads[tid] == PushCas(s.m.write)
    ensures var s' := PushStep(c, s, tid, s.threads[tid]); DispatchedOk(s') && AsyncOk(c, s') && Counted(s')
  {
    var s' := PushStep(c, s, tid, s.threads[tid]);
    assert s' == To(s.(m := s.m.(write := s.m.write + 1)), tid, PushCount);
    hide SlotsOk, Attended, ThreadOk;
    LogKept(c, s, s', tid);
    CountedKept(s, s', tid);
  }

  lemma PushWon(c: Config, s: State, tid: Tid)
    requires Inv(c, s) && tid in s.threads && s.threads[tid] == PushCas(s.m.write)
    ensures Inv(c, PushStep(c, s, tid, s.threads[tid]))
  {
    assert ThreadOk(c, s.m, s.threads[tid]);
    hide Ordered, ThreadsOk, Exclusive, SlotsOk, PublishedOk, DispatchedOk, AsyncOk, Attended, Counted, PushStep,
      ThreadOk;
    PushWonThreads(c, s, tid);
    PushWonSlots(c, s, tid);
    PushWonLog(c, s, tid);
    PushWonAttended(c, s, tid);
  }

  // ----- the read index moves

  lemma ReadWonThreads(c: Config, s: State, tid: Tid)
    requires Shaped(c, s) && Ordered(c, s.m) && ThreadsOk(c, s) && Exclusive(s)
    requires tid in s.threads && s.threads[tid] == ReadCas(s.m.read)
    ensures var s' := ProcStep(c, s, tid, s.threads[tid]); Ordered(c, s'.m) && ThreadsOk(c, s') && Exclusive(s')
  {
    var s' := ProcStep(c, s, tid, s.threads[tid]);
    assert s' == To(s.(m := s.m.(read := s.m.read + 1)), tid, ReadLoad);
    assert ThreadOk(c, s.m, s.threads[tid]);
    ReadLoadExclusive(s, s', tid);
    hide ProcStep, Exclusive;
    forall i | i in s'.threads && i != tid ensures ThreadOk(c, s'.m, s'.threads[i]) {
      assert ThreadOk(c, s.m, s.threads[i]);
      ReadFrame(c, s.m, s.threads[i]);
    }
  }

  lemma ReadLoadExclusive(s: State, s': State, tid: Tid)
    requires Exclusive(s) && tid in s.threads && s' == To(s.(m := s'.m), tid, ReadLoad)
    requires s'.m.hold == s.m.hold && s'.m.proc == s.m.proc
    ensures Exclusive(s')
  {
  }

  lemma ReadWonSlots(c: Config, s: State, tid: Tid)
    requires Shaped(c, s) && Ordered(c, s.m) && SlotsOk(c, s) && PublishedOk(c, s)
    requires tid in s.threads && ThreadOk(c, s.m, s.threads[tid]) && s.threads[tid] == ReadCas(s.m.read)
    ensures var s' := ProcStep(c, s, tid, s.threads[tid]); SlotsOk(c, s') && PublishedOk(c, s')
  {
    var s' := ProcStep(c, s, tid, s.threads[tid]);
    assert Slot(c.len, s.m.read + c.len) == Slot(c.len, s.m.read);
    assert forall u: nat :: HasOwner(s', u) == HasOwner(s, u) && HasTaker(s', u) == HasTaker(s, u);
    forall u: nat ensures SlotOk(c, s', u) {
      assert SlotOk(c, s, u);
      if u == s.m.read + c.len { assert MarkAt(c, s'.m, u) == MarkAt(c, s.m, s.m.read); }
    }
    forall u: nat | s'.m.read <= u < s'.m.hold && MarkAt(c, s'.m, u) == Ready
      ensures u in s'.h.pushed && ContentAt(c, s'.m, u) == s'.h.pushed[u]
    { assert MarkAt(c, s.m, u) == Ready; }
  }

  lemma ReadWonAttended(c: Config, s: State, tid: Tid)
    requires Shaped(c, s) && Ordered(c, s.m) && Attended(c, s)
    requires tid in s.threads && s.threads[tid] == ReadCas(s.m.read)
    ensures Attended(c, ProcStep(c, s, tid, s.threads[tid]))
  {
    var s' := ProcStep(c, s, tid, s.threads[tid]);
    AttendedKept(s, s', tid);
    assert s'.threads[tid].ReadLoad?;
    assert ReadDuty(s', s'.threads[tid]);
    assert forall t :: MarkAt(c, s'.m, t) == MarkAt(c, s.m, t);
  }

  lemma ReadWonLog(c: Config, s: State, tid: Tid)
    requires Inv(c, s) && tid in s.threads && s.threads[tid] == ReadCas(s.m.read)
    ensures var s' := ProcStep(c, s, tid, s.threads[tid]); DispatchedOk(s') && AsyncOk(c, s') && Counted(s')
  {
    var s' := ProcStep(c, s, tid, s.threads[tid]);
    assert s' == To(s.(m := s.m.(read := s.m.read + 1)), tid, ReadLoad);
    hide SlotsOk, Attended, ThreadOk;
    LogKept(c, s, s', tid);
    CountedKept(s, s', tid);
  }

  lemma ReadWon(c: Config, s: State, tid: Tid)
    requires Inv(c, s) && tid in s.threads && s.threads[tid] == ReadCas(s.m.read)
    ensures Inv(c, ProcStep(c, s, tid, s.threads[tid]))
  {
    assert ThreadOk(c, s.m, s.threads[tid]);
    hide Ordered, ThreadsOk, Exclusive, SlotsOk, PublishedOk, DispatchedOk, AsyncOk, Attended, Counted, ProcStep,
      ThreadOk;
    ReadWonThreads(c, s, tid);
    ReadWonSlots(c, s, tid);
    ReadWonLog(c, s, tid);
    ReadWonAttended(c, s, tid);
  }

  // ----- EnterProcChannel claims, dispatches and recycles

  lemma ProcWonThreads(c: Config, s: State, tid: Tid)
    requires Shaped(c, s) && Ordered(c, s.m) && ThreadsOk(c, s) && Exclusive(s) && SlotOk(c, s, s.m.proc)
    requires tid in s.threads && s.threads[tid] == ProcCas(s.m.proc)
    ensures var s' := ProcStep(c, s, tid, s.threads[tid]); Ordered(c, s'.m) && ThreadsOk(c, s') && Exclusive(s')
  {
    var s' := ProcStep(c, s, tid, s.threads[tid]);
    assert s' == To(s.(m := s.m.(proc := s.m.proc + 1), h := s'.h), tid, Dispatch(s.m.proc));
    assert ThreadOk(c, s.m, s.threads[tid]);
    forall i | i in s'.threads && i != tid ensures ThreadOk(c, s'.m, s'.threads[i]) {
      assert ThreadOk(c, s.m, s.threads[i]);
      ProcFrame(c, s.m, s.threads[i]);
    }
  }

  lemma ProcWonSlots(c: Config, s: State, tid: Tid)
    requires Shaped(c, s) && Ordered(c, s.m) && SlotsOk(c, s) && PublishedOk(c, s) && |s.h.claimer| == s.m.proc
    requires tid in s.threads && ThreadOk(c, s.m, s.threads[tid]) && s.threads[tid] == ProcCas(s.m.proc)
    ensures var s' := ProcStep(c, s, tid, s.threads[tid]); SlotsOk(c, s') && PublishedOk(c, s')
  {
    var s' := ProcStep(c, s, tid, s.threads[tid]);
    assert forall u: nat :: HasOwner(s', u) == HasOwner(s, u);
    forall u: nat ensures HasTaker(s, u) ==> HasTaker(s', u) {}
    forall u: nat ensures SlotOk(c, s', u) { assert SlotOk(c, s, u); }
    forall u: nat | s'.m.read <= u < s'.m.hold && MarkAt(c, s'.m, u) == Ready
      ensures u in s'.h.pushed && ContentAt(c, s'.m, u) == s'.h.pushed[u]
    { assert MarkAt(c, s.m, u) == Ready; }
  }

  lemma ProcWonLog(c: Config, s: State, tid: Tid)
    requires Shaped(c, s) && DispatchedOk(s) && AsyncOk(c, s) && |s.h.claimer| == s.m.proc
    requires tid in s.threads && s.threads[tid] == ProcCas(s.m.proc)
    ensures var s' := ProcStep(c, s, tid, s.threads[tid]); DispatchedOk(s') && AsyncOk(c, s')
  {
    var s' := ProcStep(c, s, tid, s.threads[tid]);
    forall t: nat ensures Dispatched(s', t) == Dispatched(s, t) &&
      (t != s.m.proc ==> InDispatch(s', t) == InDispatch(s, t)) {}
    forall t: nat | t < s'.m.proc ensures Dispatched(s', t) || InDispatch(s', t) {
      if t < s.m.proc { assert Dispatched(s, t) || InDispatch(s, t); }
    }
  }

  lemma ProcWonAttended(c: Config, s: State, tid: Tid)
    requires Shaped(c, s) && Ordered(c, s.m) && Attended(c, s) && SlotOk(c, s, s.m.proc)
    requires tid in s.threads && ThreadOk(c, s.m, s.threads[tid]) && s.threads[tid] == ProcCas(s.m.proc)
    ensures Attended(c, ProcStep(c, s, tid, s.threads[tid]))
  {
    var s' := ProcStep(c, s, tid, s.threads[tid]);
    AttendedKept(s, s', tid);
    assert s'.threads[tid].Dispatch?;
    assert ProcDuty(s', s'.threads[tid]);
    assert forall t :: MarkAt(c, s'.m, t) == MarkAt(c, s.m, t);
  }

  lemma ProcWonCounted(c: Config, s: State, tid: Tid)
    requires Counted(s) && Shaped(c, s) && tid in s.threads && s.threads[tid] == ProcCas(s.m.proc)
    ensures Counted(ProcStep(c, s, tid, s.threads[tid]))
  {
    var s' := ProcStep(c, s, tid, s.threads[tid]);
    assert s' == To(s.(m := s.m.(proc := s.m.proc + 1), h := s'.h), tid, Dispatch(s.m.proc));
    CountedKept(s, s', tid);
  }

  /** A consumer claims the ticket `proc`. */
  lemma ProcWon(c: Config, s: State, tid: Tid)
    requires Inv(c, s) && tid in s.threads && s.threads[tid] == ProcCas(s.m.proc)
    ensures Inv(c, ProcStep(c, s, tid, s.threads[tid]))
  {
    assert ThreadOk(c, s.m, s.threads[tid]) && SlotOk(c, s, s.m.proc) && |s.h.claimer| == s.m.proc;
    hide Ordered, ThreadsOk, Exclusive, SlotsOk, PublishedOk, DispatchedOk, AsyncOk, Attended, Counted, ProcStep,
      ThreadOk, SlotOk;
    ProcWonThreads(c, s, tid);
    ProcWonSlots(c, s, tid);
    ProcWonLog(c, s, tid);
    ProcWonAttended(c, s, tid);
    ProcWonCounted(c, s, tid);
  }

  lemma DispatchLog(c: Config, s: State, tid: Tid)
    requires Shaped(c, s) && Ordered(c, s.m) && PublishedOk(c, s) && DispatchedOk(s)
    requires Exclusive(s) && tid in s.threads && s.threads[tid].Dispatch? && ThreadOk(c, s.m, s.threads[tid])
    ensures DispatchedOk(ProcStep(c, s, tid, s.threads[tid]))
  {
    var s', t := ProcStep(c, s, tid, s.threads[tid]), s.threads[tid].ticket;
    assert InDispatch(s, t) && !InDispatch(s', t);
    assert t !in s.h.place && MarkAt(c, s.m, t) == Ready;
    forall u: nat ensures u != t ==> InDispatch(s', u) == InDispatch(s, u) && Dispatched(s', u) == Dispatched(s, u) {}
    forall u: nat | u < s'.m.proc ensures Dispatched(s', u) || InDispatch(s', u) {
      if u != t { assert Dispatched(s, u) || InDispatch(s, u); }
    }
  }

  lemma DispatchOrder(c: Config, s: State, tid: Tid)
    requires Shaped(c, s) && AsyncOk(c, s) && tid in s.threads && s.threads[tid].Dispatch?
    ensures AsyncOk(c, ProcStep(c, s, tid, s.threads[tid]))
  {
  }

  lemma DispatchAttended(c: Config, s: State, tid: Tid)
    requires Shaped(c, s) && Attended(c, s) && tid in s.threads && s.threads[tid].Dispatch?
    ensures Attended(c, ProcStep(c, s, tid, s.threads[tid]))
  {
    SteadyAttended(c, s, ProcStep(c, s, tid, s.threads[tid]), tid);
  }

  lemma DispatchCounted(c: Config, s: State, tid: Tid)
    requires Shaped(c, s) && Counted(s) && tid in s.threads && s.threads[tid].Dispatch?
    ensures Counted(ProcStep(c, s, tid, s.threads[tid]))
  {
    CountedKept(s, ProcStep(c, s, tid, s.threads[tid]), tid);
  }

  lemma DispatchQuiet(c: Config, s: State, tid: Tid)
    requires Shaped(c, s) && ThreadsOk(c, s) && tid in s.threads && s.threads[tid].Dispatch?
    ensures var s' := ProcStep(c, s, tid, s.threads[tid]); Quiet(s, s', tid) && ThreadOk(c, s.m, s'.threads[tid])
  {
    var s', t := ProcStep(c, s, tid, s.threads[tid]), s.threads[tid].ticket;
    assert ThreadOk(c, s.m, s.threads[tid]);
    assert s' == To(s.(h := s'.h), tid, Clear(t));
  }

  /** The claimed record is dispatched exactly as it was published. */
  lemma DispatchKept(c: Config, s: State, tid: Tid)
    requires Inv(c, s) && tid in s.threads && s.threads[tid].Dispatch?
    ensures Inv(c, ProcStep(c, s, tid, s.threads[tid]))
  {
    var s' := ProcStep(c, s, tid, s.threads[tid]);
    assert ThreadOk(c, s.m, s.threads[tid]);
    DispatchQuiet(c, s, tid);
    assert s'.m == s.m;
    hide Ordered, ThreadsOk, Exclusive, SlotsOk, PublishedOk, DispatchedOk, AsyncOk, Attended, Counted, ProcStep,
      ThreadOk, Quiet;
    DispatchLog(c, s, tid);
    DispatchOrder(c, s, tid);
    DispatchAttended(c, s, tid);
    QuietThreads(c, s, s', tid);
    QuietSlots(c, s, s', tid);
    DispatchCounted(c, s, tid);
  }

  lemma ClearSlots(c: Config, s: State, tid: Tid)
    requires Shaped(c, s) && Ordered(c, s.m) && SlotsOk(c, s) && PublishedOk(c, s) && Exclusive(s)
    requires tid in s.threads && s.threads[tid].Clear? && ThreadOk(c, s.m, s.threads[tid])
    ensures var s' := ProcStep(c, s, tid, s.threads[tid]); SlotsOk(c, s') && PublishedOk(c, s')
  {
    var s', t := ProcStep(c, s, tid, s.threads[tid]), s.threads[tid].ticket;
    LapFrame(c, s, t);
    assert forall u: nat :: HasOwner(s', u) == HasOwner(s, u);
    assert forall u: nat :: u != t ==> HasTaker(s', u) == HasTaker(s, u);
    forall u: nat ensures SlotOk(c, s', u) { assert SlotOk(c, s, u); }
    forall u: nat | s'.m.read <= u < s'.m.hold && MarkAt(c, s'.m, u) == Ready
      ensures u in s'.h.pushed && ContentAt(c, s'.m, u) == s'.h.pushed[u]
    { assert MarkAt(c, s.m, u) == Ready; }
  }

  lemma ClearAttended(c: Config, s: State, tid: Tid)
    requires Shaped(c, s) && Ordered(c, s.m) && Attended(c, s)
    requires tid in s.threads && s.threads[tid].Clear? && ThreadOk(c, s.m, s.threads[tid])
    ensures Attended(c, ProcStep(c, s, tid, s.threads[tid]))
  {
    var s' := ProcStep(c, s, tid, s.threads[tid]);
    LapFrame(c, s, s.threads[tid].ticket);
    AttendedKept(s, s', tid);
    assert s'.threads[tid].ProcCount?;
    assert ReadDuty(s', s'.threads[tid]);
  }

  lemma ClearThreads(c: Config, s: State, tid: Tid)
    requires Shaped(c, s) && Ordered(c, s.m) && ThreadsOk(c, s) && Exclusive(s) && tid in s.threads &&
             s.threads[tid].Clear?
    ensures var s' := ProcStep(c, s, tid, s.threads[tid]);
            Shaped(c, s') && Ordered(c, s'.m) && ThreadsOk(c, s') && Exclusive(s')
  {
    var s', t := ProcStep(c, s, tid, s.threads[tid]), s.threads[tid].ticket;
    assert ThreadOk(c, s.m, s.threads[tid]);
    assert s' == To(SetMark(c, s, t, Invalid), tid, ProcCount);
    LapFrame(c, s, t);
    hide ThreadsOk, Exclusive;
    MarkThreads(c, s, s', tid, t, Invalid);
  }

  lemma ClearLog(c: Config, s: State, tid: Tid)
    requires Inv(c, s) && tid in s.threads && s.threads[tid].Clear?
    ensures var s' := ProcStep(c, s, tid, s.threads[tid]); DispatchedOk(s') && AsyncOk(c, s') && Counted(s')
  {
    var s' := ProcStep(c, s, tid, s.threads[tid]);
    assert ThreadOk(c, s.m, s.threads[tid]);
    var t := s.threads[tid].ticket;
    assert s' == To(SetMark(c, s, t, Invalid), tid, ProcCount);
    hide SlotsOk, Attended, ThreadOk;
    LogKept(c, s, s', tid);
    CountedKept(s, s', tid);
  }

  lemma ClearKept(c: Config, s: State, tid: Tid)
    requires Inv(c, s) && tid in s.threads && s.threads[tid].Clear?
    ensures Inv(c, ProcStep(c, s, tid, s.threads[tid]))
  {
    assert ThreadOk(c, s.m, s.threads[tid]);
    ClearThreads(c, s, tid);
    ClearLog(c, s, tid);
    hide Ordered, ThreadsOk, Exclusive, SlotsOk, PublishedOk, DispatchedOk, AsyncOk, Attended, Counted, ProcStep,
      ThreadOk;
    ClearSlots(c, s, tid);
    ClearAttended(c, s, tid);
  }

  // ----- every step

  /** What the full-ring test of HoldChannel leaves its caller knowing. */
  lemma NotFull(c: Config, m: Memory, o: nat)
    requires ShapedMemory(c, m) && Ordered(c, m) && ThreadOk(c, m, HoldCheck(o)) && !Same(c, o + 1, m.read)
    ensures ThreadOk(c, m, HoldCas(o))
  {
    assert Slot(c.len, m.read + c.len) == Slot(c.len, m.read);
  }

  /** The empty tests compare slots; for a current index they compare tickets. */
  lemma NotEmpty(c: Config, m: Memory, o: nat)
    requires ShapedMemory(c, m) && Ordered(c, m)
    ensures o == m.write && Same(c, o, m.hold) ==> m.write == m.hold
    ensures o == m.proc && Same(c, o, m.write) ==> m.proc == m.write
    ensures o == m.read && Same(c, o, m.proc) ==> m.read == m.proc
  {
    if o == m.write && Same(c, o, m.hold) { SameIsEqual(c, o, m.hold); }
    if o == m.proc && Same(c, o, m.write) { SameIsEqual(c, o, m.write); }
    if o == m.read && Same(c, o, m.proc) { SameIsEqual(c, o, m.proc); }
  }

  /** The steps that move nothing but the thread itself and a counter. */
  predicate IsLocal(c: Config, s: State, pc: Pc, ch: Choice)
    requires c.len > 0
  {
    match pc
    case Idle => ch.go
    case Fill(_, _) => !ch.go
    case HoldCas(o) => !Same(c, o, s.m.hold)
    case PushCas(o) => !Same(c, o, s.m.write)
    case ProcCas(o) => !Same(c, o, s.m.proc)
    case ReadCas(o) => !Same(c, o, s.m.read)
    case HoldLoad | HoldCheck(_) | HoldCount(_) | PushLoad | PushCheckHold(_) | PushCheckMark(_) | PushCount => true
    case ProcLoad | ProcCheck(_) | ProcCount | ReadLoad | ReadCheckProc(_) | ReadCheckMark(_) => true
    case _ => false
  }

  lemma LocalHoldCheck(c: Config, s: State, tid: Tid)
    requires Shaped(c, s) && Ordered(c, s.m) && tid in s.threads && ThreadOk(c, s.m, s.threads[tid]) &&
             s.threads[tid].HoldCheck?
    ensures var o := s.threads[tid].seen;
            LocalOk(c, s, tid, s.n, if Same(c, o + 1, s.m.read) then HoldLoad else HoldCas(o))
  {
    var o := s.threads[tid].seen;
    if !Same(c, o + 1, s.m.read) { NotFull(c, s.m, o); }
  }

  lemma LocalHold(c: Config, s: State, tid: Tid, ch: Choice)
    requires Shaped(c, s) && Ordered(c, s.m) && tid in s.threads && ThreadOk(c, s.m, s.threads[tid])
    requires IsLocal(c, s, s.threads[tid], ch) && !Consuming(s.threads[tid]) && !Pushing(s.threads[tid])
    ensures var s' := Step(c, s, tid, ch);
            tid in s'.threads && s' == To(s.(n := s'.n), tid, s'.threads[tid]) &&
              LocalOk(c, s, tid, s'.n, s'.threads[tid])
  {
    var pc := s.threads[tid];
    if pc.HoldCheck? {
      LocalHoldCheck(c, s, tid);
      hide LocalOk;
      assert Step(c, s, tid, ch) == To(s, tid, if Same(c, pc.seen + 1, s.m.read) then HoldLoad else HoldCas(pc.seen));
    } else {
      LocalHoldRest(c, s, tid, ch);
    }
  }

  lemma LocalHoldRest(c: Config, s: State, tid: Tid, ch: Choice)
    requires Shaped(c, s) && Ordered(c, s.m) && tid in s.threads && ThreadOk(c, s.m, s.threads[tid]) &&
             !s.threads[tid].HoldCheck?
    requires IsLocal(c, s, s.threads[tid], ch) && !Consuming(s.threads[tid]) && !Pushing(s.threads[tid])
    ensures var s' := Step(c, s, tid, ch);
            tid in s'.threads && s' == To(s.(n := s'.n), tid, s'.threads[tid]) &&
              LocalOk(c, s, tid, s'.n, s'.threads[tid])
  {
    hide LocalOk;
    match s.threads[tid]
    case Idle => LocalMove(c, s, tid, HoldLoad);
    case HoldLoad => LocalMove(c, s, tid, HoldCheck(s.m.hold));
    case HoldCas(_) => LocalMove(c, s, tid, HoldLoad);
    case HoldCount(t) => LocalHoldCount(c, s, tid, ch);
    case Fill(t, x) => LocalFill(c, s, tid, ch);
  }

  /** Moves of a thread that owns and takes nothing and has no duty. */
  lemma LocalMove(c: Config, s: State, tid: Tid, pc': Pc)
    requires Shaped(c, s) && tid in s.threads && ThreadOk(c, s.m, pc')
    requires s.threads[tid].Idle? || s.threads[tid].HoldLoad? || s.threads[tid].HoldCas?
    requires pc'.HoldLoad? || pc'.HoldCheck?
    ensures LocalOk(c, s, tid, s.n, pc')
  {
  }

  lemma LocalHoldCount(c: Config, s: State, tid: Tid, ch: Choice)
    requires Shaped(c, s) && tid in s.threads && ThreadOk(c, s.m, s.threads[tid]) && s.threads[tid].HoldCount?
    ensures var s' := Step(c, s, tid, ch);
            tid in s'.threads && s' == To(s.(n := s'.n), tid, s'.threads[tid]) &&
              LocalOk(c, s, tid, s'.n, s'.threads[tid])
  {
  }

  lemma LocalFill(c: Config, s: State, tid: Tid, ch: Choice)
    requires Shaped(c, s) && tid in s.threads && ThreadOk(c, s.m, s.threads[tid]) && s.threads[tid].Fill? && !ch.go
    ensures var s' := Step(c, s, tid, ch);
            tid in s'.threads && s' == To(s.(n := s'.n), tid, s'.threads[tid]) &&
              LocalOk(c, s, tid, s'.n, s'.threads[tid])
  {
  }

  lemma LocalPushTest(c: Config, s: State, tid: Tid)
    requires Shaped(c, s) && Ordered(c, s.m) && tid in s.threads && ThreadOk(c, s.m, s.threads[tid]) &&
             s.threads[tid].PushCheckHold?
    ensures var o := s.threads[tid].seen;
            LocalOk(c, s, tid, s.n, if !Same(c, o, s.m.hold) then PushCheckMark(o) else if c.sync then ProcLoad
                    else Idle)
  {
    NotEmpty(c, s.m, s.threads[tid].seen);
  }

  lemma LocalPush(c: Config, s: State, tid: Tid, ch: Choice)
    requires Shaped(c, s) && Ordered(c, s.m) && tid in s.threads && ThreadOk(c, s.m, s.threads[tid])
    requires IsLocal(c, s, s.threads[tid], ch) && Pushing(s.threads[tid])
    ensures var s' := Step(c, s, tid, ch);
            tid in s'.threads && s' == To(s.(n := s'.n), tid, s'.threads[tid]) &&
              LocalOk(c, s, tid, s'.n, s'.threads[tid])
  {
    var pc := s.threads[tid];
    if pc.PushCheckHold? {
      LocalPushTest(c, s, tid);
      hide LocalOk;
      var leave := if c.sync then ProcLoad else Idle;
      assert Step(c, s, tid, ch) == To(s, tid, if Same(c, pc.seen, s.m.hold) then leave else PushCheckMark(pc.seen));
    } else if pc.PushCount? {
      LocalPushCount(c, s, tid, ch);
    } else {
      LocalPushRest(c, s, tid, ch);
    }
  }

  lemma LocalPushCount(c: Config, s: State, tid: Tid, ch: Choice)
    requires Shaped(c, s) && tid in s.threads && s.threads[tid].PushCount?
    ensures var s' := Step(c, s, tid, ch);
            tid in s'.threads && s' == To(s.(n := s'.n), tid, s'.threads[tid]) &&
              LocalOk(c, s, tid, s'.n, s'.threads[tid])
  {
  }

  lemma LocalPushRest(c: Config, s: State, tid: Tid, ch: Choice)
    requires Shaped(c, s) && Ordered(c, s.m) && tid in s.threads && ThreadOk(c, s.m, s.threads[tid])
    requires IsLocal(c, s, s.threads[tid], ch)
    requires s.threads[tid].PushLoad? || s.threads[tid].PushCheckMark? || s.threads[tid].PushCas?
    ensures var s' := Step(c, s, tid, ch);
            tid in s'.threads && s' == To(s.(n := s'.n), tid, s'.threads[tid]) &&
              LocalOk(c, s, tid, s'.n, s'.threads[tid])
  {
  }

  lemma LocalProc(c: Config, s: State, tid: Tid, ch: Choice)
    requires Shaped(c, s) && Ordered(c, s.m) && tid in s.threads && ThreadOk(c, s.m, s.threads[tid])
    requires IsLocal(c, s, s.threads[tid], ch) && (!c.sync ==> tid == c.consumer && Current(s.m.proc, s.threads[tid]))
    requires s.threads[tid].ProcLoad? || s.threads[tid].ProcCheck? || s.threads[tid].ProcCas?
    ensures var s' := Step(c, s, tid, ch);
            tid in s'.threads && s' == To(s.(n := s'.n), tid, s'.threads[tid]) &&
              LocalOk(c, s, tid, s'.n, s'.threads[tid])
  {
    var pc, leave := s.threads[tid], if c.sync then Idle else ProcLoad;
    if pc.ProcCheck? {
      LocalProcTest(c, s, tid);
      hide LocalOk;
      assert Step(c, s, tid, ch) == To(s, tid, if Same(c, pc.seen, s.m.write) then leave else ProcCas(pc.seen));
    } else {
      LocalProcRest(c, s, tid, ch);
    }
  }

  lemma LocalProcTest(c: Config, s: State, tid: Tid)
    requires Shaped(c, s) && Ordered(c, s.m) && tid in s.threads && ThreadOk(c, s.m, s.threads[tid])
    requires s.threads[tid].ProcCheck? && (!c.sync ==> tid == c.consumer && Current(s.m.proc, s.threads[tid]))
    ensures var o := s.threads[tid].seen;
            LocalOk(c, s, tid, s.n, if !Same(c, o, s.m.write) then ProcCas(o) else if c.sync then Idle else ProcLoad)
  {
    NotEmpty(c, s.m, s.threads[tid].seen);
  }

  lemma LocalProcRest(c: Config, s: State, tid: Tid, ch: Choice)
    requires Shaped(c, s) && Ordered(c, s.m) && tid in s.threads && ThreadOk(c, s.m, s.threads[tid])
    requires IsLocal(c, s, s.threads[tid], ch) && (!c.sync ==> tid == c.consumer && Current(s.m.proc, s.threads[tid]))
    requires s.threads[tid].ProcLoad? || s.threads[tid].ProcCas?
    ensures var s' := Step(c, s, tid, ch);
            tid in s'.threads && s' == To(s.(n := s'.n), tid, s'.threads[tid]) &&
              LocalOk(c, s, tid, s'.n, s'.threads[tid])
  {
  }

  lemma LocalRead(c: Config, s: State, tid: Tid, ch: Choice)
    requires Shaped(c, s) && Ordered(c, s.m) && tid in s.threads && ThreadOk(c, s.m, s.threads[tid])
    requires IsLocal(c, s, s.threads[tid], ch) && (!c.sync ==> tid == c.consumer)
    requires s.threads[tid].ProcCount? || s.threads[tid].ReadLoad? || s.threads[tid].ReadCheckProc? ||
             s.threads[tid].ReadCheckMark? || s.threads[tid].ReadCas?
    ensures var s' := Step(c, s, tid, ch);
            tid in s'.threads && s' == To(s.(n := s'.n), tid, s'.threads[tid]) &&
              LocalOk(c, s, tid, s'.n, s'.threads[tid])
  {
    var pc := s.threads[tid];
    if pc.ReadCheckProc? {
      LocalReadTest(c, s, tid);
      hide LocalOk;
      assert Step(c, s, tid, ch) == To(s, tid, if Same(c, pc.seen, s.m.proc) then ProcLoad else ReadCheckMark(pc.seen));
    } else if pc.ReadCheckMark? {
      LocalReadMark(c, s, tid, ch);
    } else {
      LocalReadRest(c, s, tid, ch);
    }
  }

  lemma LocalReadTest(c: Config, s: State, tid: Tid)
    requires Shaped(c, s) && Ordered(c, s.m) && tid in s.threads && ThreadOk(c, s.m, s.threads[tid])
    requires s.threads[tid].ReadCheckProc? && (!c.sync ==> tid == c.consumer)
    ensures var o := s.threads[tid].seen;
            LocalOk(c, s, tid, s.n, if Same(c, o, s.m.proc) then ProcLoad else ReadCheckMark(o))
  {
    NotEmpty(c, s.m, s.threads[tid].seen);
  }

  lemma LocalReadMark(c: Config, s: State, tid: Tid, ch: Choice)
    requires Shaped(c, s) && Ordered(c, s.m) && tid in s.threads && ThreadOk(c, s.m, s.threads[tid])
    requires s.threads[tid].ReadCheckMark? && (!c.sync ==> tid == c.consumer)
    ensures var s' := Step(c, s, tid, ch);
            tid in s'.threads && s' == To(s.(n := s'.n), tid, s'.threads[tid]) &&
              LocalOk(c, s, tid, s'.n, s'.threads[tid])
  {
  }

  lemma LocalReadRest(c: Config, s: State, tid: Tid, ch: Choice)
    requires Shaped(c, s) && Ordered(c, s.m) && tid in s.threads && ThreadOk(c, s.m, s.threads[tid])
    requires IsLocal(c, s, s.threads[tid], ch) && (!c.sync ==> tid == c.consumer)
    requires s.threads[tid].ProcCount? || s.threads[tid].ReadLoad? || s.threads[tid].ReadCas?
    ensures var s' := Step(c, s, tid, ch);
            tid in s'.threads && s' == To(s.(n := s'.n), tid, s'.threads[tid]) &&
              LocalOk(c, s, tid, s'.n, s'.threads[tid])
  {
  }

  /** What the owner's slot holds after it writes, and where the owner is then. */
  function Written(c: Config, pc: Pc, text: Text): Text
    requires c.logSize >= 2
  {
    match pc
    case Compose(_) => Clip(text, c.logSize)
    case Fill(_, x) => Clip(x + text, c.logSize)
    case Seal(_, x) => Sealed(c, x)
    case _ => ""
  }

  lemma WriteStepIs(c: Config, s: State, tid: Tid, ch: Choice)
    requires Shaped(c, s) && tid in s.threads && ThreadOk(c, s.m, s.threads[tid])
    requires s.threads[tid].Compose? || (s.threads[tid].Fill? && ch.go) || s.threads[tid].Seal?
    ensures var pc := s.threads[tid];
            var x := Written(c, pc, ch.text);
            var pc' := if pc.Seal? then Publish(pc.ticket, x) else Fill(pc.ticket, x);
            var s' := SetContent(c, s, pc.ticket, x);
            Step(c, s, tid, ch) == To(s', tid, pc') && MarkAt(c, s.m, pc.ticket) == Hold && ThreadOk(c, s'.m, pc')
  {
    hide Clip, Sealed;
  }

  lemma WriteStepKept(c: Config, s: State, tid: Tid, ch: Choice)
    requires Inv(c, s) && tid in s.threads
    requires s.threads[tid].Compose? || (s.threads[tid].Fill? && ch.go) || s.threads[tid].Seal?
    ensures Inv(c, Step(c, s, tid, ch))
  {
    assert Shaped(c, s) && ThreadOk(c, s.m, s.threads[tid]);
    WriteStepIs(c, s, tid, ch);
    var pc, x := s.threads[tid], Written(c, s.threads[tid], ch.text);
    hide Inv, Step, ThreadOk, Written, SetContent;
    WroteKept(c, s, tid, x, if pc.Seal? then Publish(pc.ticket, x) else Fill(pc.ticket, x));
  }

  lemma LocalStepKept(c: Config, s: State, tid: Tid, ch: Choice)
    requires Inv(c, s) && tid in s.threads && IsLocal(c, s, s.threads[tid], ch)
    ensures Inv(c, Step(c, s, tid, ch))
  {
    assert ThreadOk(c, s.m, s.threads[tid]);
    var pc := s.threads[tid];
    if pc.ProcLoad? || pc.ProcCheck? || pc.ProcCas? {
      LocalProc(c, s, tid, ch);
    } else if Consuming(pc) {
      LocalRead(c, s, tid, ch);
    } else if Pushing(s.threads[tid]) {
      LocalPush(c, s, tid, ch);
    } else {
      LocalHold(c, s, tid, ch);
    }
    LocalKept(c, s, tid, Step(c, s, tid, ch).n, Step(c, s, tid, ch).threads[tid]);
  }

  // ----- a compare-and-swap that goes through

  /** The thread at its swap, with the current ticket instead of the one it loaded. */
  function Refreshed(m: Memory, pc: Pc): Pc {
    match pc
    case HoldCas(_) => HoldCas(m.hold)
    case PushCas(_) => PushCas(m.write)
    case ProcCas(_) => ProcCas(m.proc)
    case ReadCas(_) => ReadCas(m.read)
    case _ => pc
  }

  predicate Swapping(pc: Pc) {
    pc.HoldCas? || pc.PushCas? || pc.ProcCas? || pc.ReadCas?
  }

  /** While the guard holds, the current ticket will do as well. */
  lemma RefreshedKept(c: Config, s: State, tid: Tid, ch: Choice)
    requires Enabled(c, s, tid) && Swapping(s.threads[tid]) && !IsLocal(c, s, s.threads[tid], ch)
    ensures Inv(c, To(s, tid, Refreshed(s.m, s.threads[tid])))
  {
    assert ThreadOk(c, s.m, s.threads[tid]);
    RefreshedLocal(c, s, tid);
    assert s.(n := s.n) == s;
    hide Inv, LocalOk;
    LocalKept(c, s, tid, s.n, Refreshed(s.m, s.threads[tid]));
  }

  lemma RefreshedLocal(c: Config, s: State, tid: Tid)
    requires Enabled(c, s, tid) && Swapping(s.threads[tid])
    requires !IsLocal(c, s, s.threads[tid], Choice(true, ""))
    ensures LocalOk(c, s, tid, s.n, Refreshed(s.m, s.threads[tid]))
  {
    hide LocalOk;
    if s.threads[tid].HoldCas? || s.threads[tid].PushCas? {
      RefreshedProducer(c, s, tid);
    } else {
      RefreshedConsumer(c, s, tid);
    }
  }

  lemma RefreshedProducer(c: Config, s: State, tid: Tid)
    requires Shaped(c, s) && tid in s.threads && GuardHolds(c, s, s.threads[tid])
    requires s.threads[tid].HoldCas? || s.threads[tid].PushCas?
    requires !IsLocal(c, s, s.threads[tid], Choice(true, ""))
    ensures LocalOk(c, s, tid, s.n, Refreshed(s.m, s.threads[tid]))
  {
  }

  lemma RefreshedConsumer(c: Config, s: State, tid: Tid)
    requires Shaped(c, s) && tid in s.threads && GuardHolds(c, s, s.threads[tid]) && (!c.sync ==> tid == c.consumer)
    requires s.threads[tid].ProcCas? || s.threads[tid].ReadCas?
    requires !IsLocal(c, s, s.threads[tid], Choice(true, ""))
    ensures LocalOk(c, s, tid, s.n, Refreshed(s.m, s.threads[tid]))
  {
  }

  /** The swap of either takes the thread to the same state. */
  lemma SameSwap(c: Config, s: State, tid: Tid, ch: Choice)
    requires Shaped(c, s) && tid in s.threads && Swapping(s.threads[tid]) && !IsLocal(c, s, s.threads[tid], ch)
    ensures Step(c, To(s, tid, Refreshed(s.m, s.threads[tid])), tid, ch) == Step(c, s, tid, ch)
  {
    var s0, s' := To(s, tid, Refreshed(s.m, s.threads[tid])), Step(c, s, tid, ch);
    assert s0.threads[tid := s'.threads[tid]] == s.threads[tid := s'.threads[tid]];
  }

  lemma FreshSwapKept(c: Config, s: State, tid: Tid, ch: Choice)
    requires Inv(c, s) && tid in s.threads && Swapping(s.threads[tid]) &&
             s.threads[tid] == Refreshed(s.m, s.threads[tid])
    ensures Inv(c, Step(c, s, tid, ch))
  {
    hide Inv;
    match s.threads[tid]
    case HoldCas(_) => HoldWon(c, s, tid);
    case PushCas(_) => PushWon(c, s, tid);
    case ProcCas(_) => ProcWon(c, s, tid);
    case ReadCas(_) => ReadWon(c, s, tid);
  }

  lemma SwapKept(c: Config, s: State, tid: Tid, ch: Choice)
    requires Enabled(c, s, tid) && Swapping(s.threads[tid]) && !IsLocal(c, s, s.threads[tid], ch)
    ensures Inv(c, Step(c, s, tid, ch))
  {
    RefreshedKept(c, s, tid, ch);
    SameSwap(c, s, tid, ch);
    hide Inv, Step;
    FreshSwapKept(c, To(s, tid, Refreshed(s.m, s.threads[tid])), tid, ch);
  }

  /** A swap that goes through although its guard fails breaks the invariant at once. */
  lemma SwapBreaks(c: Config, s: State, tid: Tid, ch: Choice)
    requires Inv(c, s) && tid in s.threads && !GuardHolds(c, s, s.threads[tid])
    ensures !Inv(c, Step(c, s, tid, ch))
  {
    match s.threads[tid]
    case HoldCas(_) =>
    case PushCas(_) => PushBreaks(c, s, tid, ch);
    case ProcCas(_) =>
    case ReadCas(_) => ReadBreaks(c, s, tid, ch);
  }

  lemma PushBreaks(c: Config, s: State, tid: Tid, ch: Choice)
    requires Inv(c, s) && tid in s.threads && s.threads[tid].PushCas? && !GuardHolds(c, s, s.threads[tid])
    ensures !Inv(c, Step(c, s, tid, ch))
  {
    var s' := Step(c, s, tid, ch);
    assert s'.m == s.m.(write := s.m.write + 1);
    if s.m.write < s.m.hold { assert !SlotOk(c, s', s.m.write); }
  }

  lemma ReadBreaks(c: Config, s: State, tid: Tid, ch: Choice)
    requires Inv(c, s) && tid in s.threads && s.threads[tid].ReadCas? && !GuardHolds(c, s, s.threads[tid])
    ensures !Inv(c, Step(c, s, tid, ch))
  {
    var s' := Step(c, s, tid, ch);
    assert s'.m == s.m.(read := s.m.read + 1);
    assert Slot(c.len, s.m.read + c.len) == Slot(c.len, s.m.read);
    if s.m.read < s.m.proc { assert !SlotOk(c, s', s.m.read + c.len); }
  }

  lemma WorkStepKept(c: Config, s: State, tid: Tid, ch: Choice)
    requires Inv(c, s) && tid in s.threads
    requires s.threads[tid].HoldMark? || s.threads[tid].Publish? || s.threads[tid].Dispatch? || s.threads[tid].Clear?
    ensures Inv(c, Step(c, s, tid, ch))
  {
    match s.threads[tid]
    case HoldMark(_) => HoldMarkKept(c, s, tid);
    case Publish(_, _) => PublishKept(c, s, tid, ch);
    case Dispatch(_) => DispatchKept(c, s, tid);
    case Clear(_) => ClearKept(c, s, tid);
  }

  /** Every step of every thread keeps the invariant, under the standing assumption. */
  lemma StepKept(c: Config, s: State, tid: Tid, ch: Choice)
    requires Enabled(c, s, tid)
    ensures Inv(c, Step(c, s, tid, ch))
  {
    hide HoldStep, FillStep, PushStep, ProcStep;
    if IsLocal(c, s, s.threads[tid], ch) {
      LocalStepKept(c, s, tid, ch);
    } else if Swapping(s.threads[tid]) {
      SwapKept(c, s, tid, ch);
    } else {
      assert Shaped(c, s);
      hide Inv, GuardHolds;
      match s.threads[tid]
      case Compose(_) | Fill(_, _) | Seal(_, _) => WriteStepKept(c, s, tid, ch);
      case HoldMark(_) | Publish(_, _) | Dispatch(_) | Clear(_) => WorkStepKept(c, s, tid, ch);
      case Idle =>
    }
  }

  /** The assumption is exact: a step keeps the invariant if and only if it meets it. */
  lemma StepExactly(c: Config, s: State, tid: Tid, ch: Choice)
    requires Inv(c, s) && tid in s.threads
    ensures Inv(c, Step(c, s, tid, ch)) <==> GuardHolds(c, s, s.threads[tid])
  {
    assert Shaped(c, s);
    hide Inv, Step, GuardHolds;
    if GuardHolds(c, s, s.threads[tid]) {
      StepKept(c, s, tid, ch);
    } else {
      SwapBreaks(c, s, tid, ch);
    }
  }
}
