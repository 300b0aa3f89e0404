/** The FNLog channel ring: producers hold, fill and publish slots, consumers claim,
    dispatch and recycle them, all through compare-and-swap on four wrapped indices.

    The protocol is a transition system. One step is one atomic load, store, add or
    compare-and-swap of one thread; steps of any number of threads interleave freely.
    An index is kept as an ever-growing ticket, and every comparison the code makes is
    made on the wrapped value `Slot(ticket)`, exactly as the code makes it. */
module RingBuffer {
  import opened Bytes

  type Tid = nat
  type Text = string

  datatype Mark = Invalid | Hold | Ready

  /** `len` is BUFFER_LEN, `logSize` is LOG_SIZE; in async mode only `consumer` consumes. */
  datatype Config = Config(len: nat, logSize: nat, sync: bool, consumer: Tid)

  ghost predicate ValidConfig(c: Config) {
    c.len >= 2 && c.logSize >= 2
  }

  /** Where a thread stands, with its local variables. `ticket` is a slot the thread won;
      `seen` is an index it loaded and has not used yet; `text` is what it wrote so far. */
  datatype Pc =
    | Idle
    // HoldChannel
    | HoldLoad | HoldCheck(seen: nat) | HoldCas(seen: nat) | HoldCount(ticket: nat) | HoldMark(ticket: nat)
    // LogStream between hold and push
    | Compose(ticket: nat) | Fill(ticket: nat, text: Text)
    // PushChannel
    | Seal(ticket: nat, text: Text) | Publish(ticket: nat, text: Text)
    | PushLoad | PushCheckHold(seen: nat) | PushCheckMark(seen: nat) | PushCas(seen: nat) | PushCount
    // EnterProcChannel
    | ProcLoad | ProcCheck(seen: nat) | ProcCas(seen: nat) | Dispatch(ticket: nat) | Clear(ticket: nat) | ProcCount
    | ReadLoad | ReadCheckProc(seen: nat) | ReadCheckMark(seen: nat) | ReadCas(seen: nat)

  /** The shared ring: four indices and, slot by slot, the mark and the record. */
  datatype Memory = Memory(hold: nat, write: nat, proc: nat, read: nat, mark: seq<Mark>, content: seq<Text>)

  /** The channel's HOLD, PUSH and PROCESSED counters. */
  datatype Counters = Counters(hold: nat, push: nat, processed: nat)

  /** What happened so far; no step reads it. `place` says where in `dispatched` a ticket is. */
  datatype History = History(
    producer: seq<Tid>, claimer: seq<Tid>,
    pushed: map<nat, Text>, dispatched: seq<(nat, Text)>, place: map<nat, nat>)

  datatype State = State(m: Memory, n: Counters, threads: map<Tid, Pc>, h: History)

  /** The scheduler's and the caller's free choices for one step. */
  datatype Choice = Choice(go: bool, text: Text)

  // ----- the slot of a ticket

  /** The index an int counter wrapped at `len` holds for this ticket. */
  function Slot(len: nat, t: nat): (i: nat)
    requires len > 0
    ensures i < len
  {
    if t < len then t else Slot(len, t - len)
  }

  lemma {:induction false} SlotIsRemainder(len: nat, t: nat)
    requires len > 0
    ensures Slot(len, t) == t % len
  {
    if t >= len {
      SlotIsRemainder(len, t - len);
      assert (t - len) % len == t % len by { RemainderStep(t, len); }
    } else {
      RemainderSmall(t, len);
    }
  }

  lemma RemainderSmall(t: nat, len: nat)
    requires t < len
    ensures t % len == t
  {
  }

  lemma MulGrows(k: nat, len: nat)
    requires k >= 1
    ensures k * len >= len
  {
  }

  lemma Distribute(p: int, q: int, len: int)
    ensures (p - q) * len == p * len - q * len
  {
  }

  lemma QuotientOrder(len: nat, p: int, r: nat, q: int, r': nat)
    requires r < len && r' < len && p * len + r == q * len + r'
    ensures p <= q
  {
    if p > q {
      MulGrows(p - q, len);
      Distribute(p, q, len);
    }
  }

  lemma RemainderStep(t: nat, len: nat)
    requires 0 < len <= t
    ensures (t - len) % len == t % len
  {
    var p, q := (t - len) / len + 1, t / len;
    assert p * len == (t - len) / len * len + len;
    QuotientOrder(len, p, (t - len) % len, q, t % len);
    QuotientOrder(len, q, t % len, p, (t - len) % len);
  }

  /** Two different tickets less than one lap apart never share a slot. */
  lemma {:induction false} SlotDistinct(len: nat, a: nat, b: nat)
    requires len > 0 && a < b < a + len
    ensures Slot(len, a) != Slot(len, b)
  {
    if a >= len {
      SlotDistinct(len, a - len, b - len);
    } else if b >= len {
      assert Slot(len, b) == b - len;
    }
  }

  lemma SlotsDistinct(len: nat, lo: nat)
    requires len > 0
    ensures forall a, b {:trigger Slot(len, a), Slot(len, b)} :: lo <= a < b < lo + len ==> Slot(len, a) != Slot(len, b)
  {
    forall a, b | lo <= a < b < lo + len ensures Slot(len, a) != Slot(len, b) {
      SlotDistinct(len, a, b);
    }
  }

  // ----- one step

  function Clip(text: Text, n: nat): Text {
    if |text| <= n then text else text[..n]
  }

  /** PushChannel cuts the record to leave room, then appends the line feed. */
  function Sealed(c: Config, text: Text): Text
    requires c.logSize >= 2
  {
    Clip(text, c.logSize - 2) + ['\n']
  }

  ghost predicate ShapedMemory(c: Config, m: Memory) {
    ValidConfig(c) && |m.mark| == c.len && |m.content| == c.len
  }

  ghost predicate Shaped(c: Config, s: State) {
    ShapedMemory(c, s.m)
  }

  function To(s: State, tid: Tid, pc: Pc): State {
    s.(threads := s.threads[tid := pc])
  }

  function MarkAt(c: Config, m: Memory, t: nat): Mark
    requires c.len > 0 && |m.mark| == c.len
  {
    m.mark[Slot(c.len, t)]
  }

  function ContentAt(c: Config, m: Memory, t: nat): Text
    requires c.len > 0 && |m.content| == c.len
  {
    m.content[Slot(c.len, t)]
  }

  function SetMark(c: Config, s: State, t: nat, k: Mark): State
    requires c.len > 0 && |s.m.mark| == c.len
  {
    s.(m := s.m.(mark := s.m.mark[Slot(c.len, t) := k]))
  }

  function SetContent(c: Config, s: State, t: nat, text: Text): State
    requires c.len > 0 && |s.m.content| == c.len
  {
    s.(m := s.m.(content := s.m.content[Slot(c.len, t) := text]))
  }

  function Same(c: Config, a: nat, b: nat): bool
    requires c.len > 0
  {
    Slot(c.len, a) == Slot(c.len, b)
  }

  /** HoldChannel, with the retry after a full ring or a lost race. */
  function HoldStep(c: Config, s: State, tid: Tid, pc: Pc): State
    requires Shaped(c, s)
  {
    match pc
    case HoldLoad => To(s, tid, HoldCheck(s.m.hold))
    case HoldCheck(seen) => To(s, tid, if Same(c, seen + 1, s.m.read) then HoldLoad else HoldCas(seen))
    case HoldCas(seen) =>
      if Same(c, seen, s.m.hold) then
        To(s.(m := s.m.(hold := s.m.hold + 1), h := s.h.(producer := s.h.producer + [tid])), tid, HoldCount(s.m.hold))
      else To(s, tid, HoldLoad)
    case HoldCount(t) => To(s.(n := s.n.(hold := s.n.hold + 1)), tid, HoldMark(t))
    case HoldMark(t) => To(SetMark(c, s, t, Hold), tid, Compose(t))
    case _ => s
  }

  /** LogStream and the head of PushChannel: the owner writes its slot, then publishes it. */
  function FillStep(c: Config, s: State, tid: Tid, pc: Pc, ch: Choice): State
    requires Shaped(c, s)
  {
    match pc
    case Compose(t) =>
      var text := Clip(ch.text, c.logSize);
      To(SetContent(c, s, t, text), tid, Fill(t, text))
    case Fill(t, x) =>
      if ch.go then
        To(SetContent(c, s, t, Clip(ContentAt(c, s.m, t) + ch.text, c.logSize)), tid,
           Fill(t, Clip(x + ch.text, c.logSize)))
      else To(s, tid, Seal(t, x))
    case Seal(t, x) => To(SetContent(c, s, t, Sealed(c, ContentAt(c, s.m, t))), tid, Publish(t, Sealed(c, x)))
    case Publish(t, x) => To(SetMark(c, s, t, Ready).(h := s.h.(pushed := s.h.pushed[t := x])), tid, PushLoad)
    case _ => s
  }

  /** The publishing loop of PushChannel. */
  function PushStep(c: Config, s: State, tid: Tid, pc: Pc): State
    requires Shaped(c, s)
  {
    var leave := if c.sync then ProcLoad else Idle;
    match pc
    case PushLoad => To(s, tid, PushCheckHold(s.m.write))
    case PushCheckHold(seen) => To(s, tid, if Same(c, seen, s.m.hold) then leave else PushCheckMark(seen))
    case PushCheckMark(seen) => To(s, tid, if MarkAt(c, s.m, seen) != Ready then leave else PushCas(seen))
    case PushCas(seen) =>
      if Same(c, seen, s.m.write) then To(s.(m := s.m.(write := s.m.write + 1)), tid, PushCount)
        else To(s, tid, PushLoad)
    case PushCount => To(s.(n := s.n.(push := s.n.push + 1)), tid, PushLoad)
    case _ => s
  }

  /** EnterProcChannel. A sync caller returns when it finds nothing to claim; the async
      consumer starts over. */
  function ProcStep(c: Config, s: State, tid: Tid, pc: Pc): State
    requires Shaped(c, s)
  {
    var leave := if c.sync then Idle else ProcLoad;
    match pc
    case ProcLoad => To(s, tid, ProcCheck(s.m.proc))
    case ProcCheck(seen) => To(s, tid, if Same(c, seen, s.m.write) then leave else ProcCas(seen))
    case ProcCas(seen) =>
      if Same(c, seen, s.m.proc) then
        To(s.(m := s.m.(proc := s.m.proc + 1), h := s.h.(claimer := s.h.claimer + [tid])), tid, Dispatch(s.m.proc))
      else To(s, tid, leave)
    case Dispatch(t) =>
      To(s.(h := s.h.(dispatched := s.h.dispatched + [(t, ContentAt(c, s.m, t))],
                      place := s.h.place[t := |s.h.dispatched|])), tid, Clear(t))
    case Clear(t) => To(SetMark(c, s, t, Invalid), tid, ProcCount)
    case ProcCount => To(s.(n := s.n.(processed := s.n.processed + 1)), tid, ReadLoad)
    case ReadLoad => To(s, tid, ReadCheckProc(s.m.read))
    case ReadCheckProc(seen) => To(s, tid, if Same(c, seen, s.m.proc) then ProcLoad else ReadCheckMark(seen))
    case ReadCheckMark(seen) => To(s, tid, if MarkAt(c, s.m, seen) != Invalid then ProcLoad else ReadCas(seen))
    case ReadCas(seen) =>
      if Same(c, seen, s.m.read) then To(s.(m := s.m.(read := s.m.read + 1)), tid, ReadLoad) else To(s, tid, ReadLoad)
    case _ => s
  }

  function Step(c: Config, s: State, tid: Tid, ch: Choice): State
    requires Shaped(c, s) && tid in s.threads
  {
    match s.threads[tid]
    case Idle => if ch.go then To(s, tid, HoldLoad) else s
    case HoldLoad | HoldCheck(_) | HoldCas(_) | HoldCount(_) | HoldMark(_) => HoldStep(c, s, tid, s.threads[tid])
    case Compose(_) | Fill(_, _) | Seal(_, _) | Publish(_, _) => FillStep(c, s, tid, s.threads[tid], ch)
    case PushLoad | PushCheckHold(_) | PushCheckMark(_) | PushCas(_) | PushCount => PushStep(c, s, tid, s.threads[tid])
    case _ => ProcStep(c, s, tid, s.threads[tid])
  }

  /** The zeroed buffer, with no thread inside the logger but the async consumer. */
  ghost predicate Init(c: Config, s: State) {
    && Shaped(c, s)
    && s.m.hold == s.m.write == s.m.proc == s.m.read == s.n.hold == s.n.push == s.n.processed == 0
    && (forall i :: 0 <= i < c.len ==> s.m.mark[i] == Invalid)
    && (forall i :: i in s.threads ==> s.threads[i] == if !c.sync && i == c.consumer then ProcLoad else Idle)
    && s.h.producer == s.h.claimer == [] && s.h.pushed == map[] && s.h.dispatched == [] && s.h.place == map[]
  }

  /** The standing assumption, about a thread that executes a compare-and-swap: if the swap goes
      through, then what the thread tested before it holds now, of the slot it gets or moves past.
      A swap compares slots, so it may go through although the index has gone round since. */
  ghost predicate GuardHolds(c: Config, s: State, pc: Pc)
    requires Shaped(c, s)
  {
    match pc
    case HoldCas(seen) => Same(c, seen, s.m.hold) ==> s.m.hold + 1 < s.m.read + c.len
    case PushCas(seen) => Same(c, seen, s.m.write) ==> s.m.write < s.m.hold && MarkAt(c, s.m, s.m.write) == Ready
    case ProcCas(seen) => Same(c, seen, s.m.proc) ==> s.m.proc < s.m.write
    case ReadCas(seen) => Same(c, seen, s.m.read) ==> s.m.read < s.m.proc && MarkAt(c, s.m, s.m.read) == Invalid
    case _ => true
  }

  /** A condition that implies it: the index the thread loaded is less than one lap old, so
      equal slots mean equal tickets. */
  ghost predicate NoLap(c: Config, s: State, pc: Pc) {
    match pc
    case HoldCas(seen) => s.m.hold < seen + c.len
    case PushCas(seen) => s.m.write < seen + c.len
    case ProcCas(seen) => s.m.proc < seen + c.len
    case ReadCas(seen) => s.m.read < seen + c.len
    case _ => true
  }

  /** A schedule: which thread moves, and with which choices. */
  type Schedule = seq<(Tid, Choice)>

  /** The schedule moves threads that there are. */
  ghost predicate Possible(c: Config, s: State, run: Schedule)
    requires Shaped(c, s)
    decreases |run|
  {
    run == [] || (run[0].0 in s.threads && Possible(c, Step(c, s, run[0].0, run[0].1), run[1..]))
  }

  /** It keeps the standing assumption. */
  ghost predicate Runs(c: Config, s: State, run: Schedule)
    requires Shaped(c, s)
    decreases |run|
  {
    run == [] ||
    (run[0].0 in s.threads && GuardHolds(c, s, s.threads[run[0].0]) &&
     Runs(c, Step(c, s, run[0].0, run[0].1), run[1..]))
  }

  /** No thread sleeps for a lap between loading an index and its compare-and-swap. */
  ghost predicate NeverLapped(c: Config, s: State, run: Schedule)
    requires Shaped(c, s)
    decreases |run|
  {
    run == [] ||
    (run[0].0 in s.threads && NoLap(c, s, s.threads[run[0].0]) &&
     NeverLapped(c, Step(c, s, run[0].0, run[0].1), run[1..]))
  }

  /** The state after the run; a thread that is not there does not move. */
  ghost function After(c: Config, s: State, run: Schedule): (s': State)
    requires Shaped(c, s)
    decreases |run|
  {
    if run == [] || run[0].0 !in s.threads then s else After(c, Step(c, s, run[0].0, run[0].1), run[1..])
  }
}
