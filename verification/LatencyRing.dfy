/** The single-producer, single-consumer ring of `LatencyRecorder`, as a state machine.

    `record` (producer) and `writerLoop` (writer) interleave between any two atomic accesses. The
    slot's fields are plain stores, so a slot under construction may hold anything at all. Indices
    are 64-bit words that wrap; each acquire or release access is one step. */
module LatencyRing {
  import opened Common
  import opened DivMod
  import opened Bits

  datatype Sample = Sample(scanStampNs: int, callbackStartNs: int, callbackEndNs: int, matchedCount: int, unmatchedCount: int)

  datatype Producer =
    | PIdle
    | PLoaded(writePos: nat, readPos: nat, sample: Sample)  // both indices loaded
    | PFilling(writePos: nat, sample: Sample)               // buffer not full, slot partly written
    | PFilled(writePos: nat, sample: Sample)                // slot written, index not yet published

  datatype Writer =
    | WStart
    | WTop                                               // at the test of running_
    | WRunning                                           // saw running_ == true
    | WStopping                                          // saw running_ == false
    | WDraining(current: nat, writePos: nat, final: bool)
    | WDone

  datatype Machine = Machine(ring: seq<Sample>, writeIdx: nat, readIdx: nat, running: bool, producer: Producer, writer: Writer,
                             written: nat, dropped: nat)

  // Unbounded counts behind the wrapping words, and what was accepted and written so far.
  datatype History = History(accepted: seq<Sample>, rows: seq<Sample>, calls: nat, fileOk: bool,
                             readCount: nat, staleRead: nat, snapshot: nat)

  datatype State = State(m: Machine, h: History)

  function Inc(i: nat): nat {
    (i + 1) % WORD
  }

  function Mask(m: Machine, i: nat): nat
    requires |m.ring| > 0
  {
    BitAnd(i, |m.ring| - 1)
  }

  datatype Step =
    | Record(sample: Sample)
    | CheckFull
    | Scribble(junk: Sample)     // any partial state of the slot's fields
    | FillSlot
    | Publish
    | Stop                       // the destructor: running_ = false
    | OpenFile(ok: bool)
    | TestRunning
    | LoadIndices
    | DrainOne
    | EndDrain

  predicate Enabled(s: State, step: Step) {
    match step
    case Record(_) => s.m.producer == PIdle && s.m.running
    case CheckFull => s.m.producer.PLoaded?
    case Scribble(_) => s.m.producer.PFilling?
    case FillSlot => s.m.producer.PFilling?
    case Publish => s.m.producer.PFilled?
    case Stop => s.m.producer == PIdle && s.m.running
    case OpenFile(_) => s.m.writer == WStart
    case TestRunning => s.m.writer == WTop
    case LoadIndices => s.m.writer == WRunning || s.m.writer == WStopping
    case DrainOne => s.m.writer.WDraining? && s.m.writer.current != s.m.writer.writePos
    case EndDrain => s.m.writer.WDraining? && s.m.writer.current == s.m.writer.writePos
  }

  // Slots are always in range: the mask is below the ring's length.
  ghost predicate RingOk(m: Machine) {
    |m.ring| > 0 && forall i: nat :: Mask(m, i) < |m.ring|
  }

  ghost function DoMachine(m: Machine, h: History, step: Step): Machine
    requires RingOk(m) && Enabled(State(m, h), step)
  {
    match step
    case Record(x) => m.(producer := PLoaded(m.writeIdx, m.readIdx, x))
    case CheckFull =>
      var p := m.producer;
      if Mask(m, Inc(p.writePos)) == Mask(m, p.readPos) then m.(dropped := m.dropped + 1, producer := PIdle)
      else m.(producer := PFilling(p.writePos, p.sample))
    case Scribble(junk) => m.(ring := m.ring[Mask(m, m.producer.writePos) := junk])
    case FillSlot =>
      m.(ring := m.ring[Mask(m, m.producer.writePos) := m.producer.sample], producer := PFilled(m.producer.writePos, m.producer.sample))
    case Publish => m.(writeIdx := Inc(m.producer.writePos), producer := PIdle)
    case Stop => m.(running := false)
    case OpenFile(ok) => m.(writer := if ok then WTop else WDone)
    case TestRunning => m.(writer := if m.running then WRunning else WStopping)
    case LoadIndices =>
      if m.writer == WRunning && m.readIdx == m.writeIdx then m.(writer := WTop)
      else m.(writer := WDraining(m.readIdx, m.writeIdx, m.writer == WStopping))
    case DrainOne => m.(written := m.written + 1, writer := m.writer.(current := Inc(m.writer.current)))
    case EndDrain => m.(readIdx := m.writer.current, writer := if m.writer.final then WDone else WTop)
  }

  ghost function DoHistory(m: Machine, h: History, step: Step): History
    requires RingOk(m) && Enabled(State(m, h), step)
  {
    match step
    case Record(_) => h.(calls := h.calls + 1, staleRead := h.readCount)
    case Publish => h.(accepted := h.accepted + [m.producer.sample])
    case OpenFile(ok) => h.(fileOk := ok)
    case LoadIndices => h.(snapshot := |h.accepted|)
    case DrainOne => h.(rows := h.rows + [m.ring[Mask(m, m.writer.current)]])
    case EndDrain => h.(readCount := |h.rows|)
    case _ => h
  }

  ghost function Do(s: State, step: Step): State
    requires RingOk(s.m) && Enabled(s, step)
  {
    State(DoMachine(s.m, s.h, step), DoHistory(s.m, s.h, step))
  }

  // ---------------------------------------------------------------- invariant

  ghost predicate CapacityOk(n: nat) {
    exists k: nat :: k <= 64 && n == Pow2(k)
  }

  // How the wrapping words stand for the unbounded counts.
  ghost predicate IndexInv(s: State) {
    var cap, W := |s.m.ring|, |s.h.accepted|;
    && CapacityOk(cap)
    && s.m.writeIdx == W % WORD && s.m.readIdx == s.h.readCount % WORD
    && s.h.readCount <= |s.h.rows| <= W < s.h.readCount + cap
    && s.m.written == |s.h.rows|
  }

  ghost predicate ProducerInv(s: State) {
    var cap, W := |s.m.ring|, |s.h.accepted|;
    cap > 0 &&
    match s.m.producer
    case PIdle => true
    case PLoaded(w, r, _) => w == W % WORD && r == s.h.staleRead % WORD && s.h.staleRead <= s.h.readCount && W < s.h.staleRead + cap
    case PFilling(w, _) => w == W % WORD && W + 1 < s.h.readCount + cap
    case PFilled(w, x) => w == W % WORD && W + 1 < s.h.readCount + cap && s.m.ring[W % cap] == x
  }

  ghost predicate WriterInv(s: State) {
    match s.m.writer
    case WDraining(current, writePos, final) =>
      && current == |s.h.rows| % WORD && writePos == s.h.snapshot % WORD
      && |s.h.rows| <= s.h.snapshot <= |s.h.accepted|
      && s.h.fileOk
      && (final ==> !s.m.running && s.h.snapshot == |s.h.accepted|)
    case WDone =>
      && s.h.readCount == |s.h.rows|
      && (if s.h.fileOk then !s.m.running && |s.h.rows| == |s.h.accepted| else s.h.rows == [])
    case WStart => s.h.readCount == 0 && s.h.rows == []
    case _ => s.h.readCount == |s.h.rows| && s.h.fileOk && (s.m.writer == WStopping ==> !s.m.running)
  }

  // Every accepted sample the writer has not released is still in its slot.
  ghost predicate SlotInv(s: State) {
    && |s.m.ring| > 0
    && (forall j :: s.h.readCount <= j < |s.h.accepted| ==> s.m.ring[j % |s.m.ring|] == s.h.accepted[j])
    && |s.h.rows| <= |s.h.accepted| && s.h.rows == s.h.accepted[..|s.h.rows|]
  }

  ghost predicate CountInv(s: State) {
    && s.h.calls == |s.h.accepted| + s.m.dropped + (if s.m.producer == PIdle then 0 else 1)
    && (!s.m.running ==> s.m.producer == PIdle)
  }

  // Outside a drain, everything accepted at the writer's last look has its row.
  ghost predicate LookInv(s: State) {
    !s.m.writer.WDraining? ==> |s.h.rows| == s.h.snapshot
  }

  ghost predicate Inv(s: State) {
    IndexInv(s) && ProducerInv(s) && WriterInv(s) && SlotInv(s) && CountInv(s) && LookInv(s)
  }

  // ---------------------------------------------------------------- index arithmetic

  lemma MaskWord(m: Machine, n: nat)
    requires CapacityOk(|m.ring|)
    ensures |m.ring| > 0 && Mask(m, n % WORD) == n % |m.ring| < |m.ring|
  {
    var k: nat :| k <= 64 && |m.ring| == Pow2(k);
    MaskSurvivesWrap(n, k);
  }

  lemma CapacityFits(n: nat)
    requires CapacityOk(n)
    ensures 0 < n <= WORD
  {
    var k: nat :| k <= 64 && n == Pow2(k);
    WordIsPow2();
    if k < 64 { Pow2Mono(k, 64); }
  }

  lemma RingFromInv(m: Machine)
    requires CapacityOk(|m.ring|)
    ensures RingOk(m)
  {
    forall i: nat
      ensures |m.ring| > 0 && Mask(m, i) < |m.ring|
    {
      var k: nat :| k <= 64 && |m.ring| == Pow2(k);
      MaskIsMod(i, k);
    }
  }

  lemma IncWord(n: nat)
    ensures Inc(n % WORD) == (n + 1) % WORD
  {
  }

  // ---------------------------------------------------------------- every step keeps the invariant

  lemma RecordStep(s: State, x: Sample)
    requires Inv(s) && RingOk(s.m) && Enabled(s, Record(x))
    ensures Inv(Do(s, Record(x)))
  {
  }

  lemma CheckFullStep(s: State)
    requires Inv(s) && RingOk(s.m) && Enabled(s, CheckFull)
    ensures Inv(Do(s, CheckFull))
  {
    var p, W := s.m.producer, |s.h.accepted|;
    IncWord(W);
    MaskWord(s.m, W + 1);
    MaskWord(s.m, s.h.staleRead);
    FullTest(s.h.staleRead, W, |s.m.ring|);
    hide CapacityOk, Mask, Inc, SlotInv, WriterInv;
    assert SlotInv(Do(s, CheckFull)) && WriterInv(Do(s, CheckFull)) by { SameSlots(s, Do(s, CheckFull)); }
  }

  lemma SameSlots(s: State, s': State)
    requires SlotInv(s) && WriterInv(s) && s'.h == s.h && s'.m.ring == s.m.ring && s'.m.writer == s.m.writer && s'.m.running == s.m.running
    ensures SlotInv(s') && WriterInv(s')
  {
  }

  // The slot being filled is none the writer may still read.
  lemma SlotIsFree(s: State, j: nat)
    requires Inv(s) && (s.m.producer.PFilling? || s.m.producer.PFilled?)
    requires s.h.readCount <= j < |s.h.accepted|
    ensures |s.m.ring| > 0 && j % |s.m.ring| != |s.h.accepted| % |s.m.ring|
  {
    if j % |s.m.ring| == |s.h.accepted| % |s.m.ring| {
      SameRemainder(j, |s.h.accepted|, |s.m.ring|);
    }
  }

  lemma StoreKeepsSlots(s: State, x: Sample, m': Machine)
    requires Inv(s) && s.m.producer.PFilling?
    requires |s.m.ring| > 0 && m'.ring == s.m.ring[|s.h.accepted| % |s.m.ring| := x]
    ensures SlotInv(State(m', s.h))
  {
    forall j | s.h.readCount <= j < |s.h.accepted|
      ensures m'.ring[j % |m'.ring|] == s.h.accepted[j]
    {
      SlotIsFree(s, j);
    }
  }

  lemma ScribbleStep(s: State, junk: Sample)
    requires Inv(s) && RingOk(s.m) && Enabled(s, Scribble(junk))
    ensures Inv(Do(s, Scribble(junk)))
  {
    MaskWord(s.m, |s.h.accepted|);
    StoreKeepsSlots(s, junk, Do(s, Scribble(junk)).m);
    hide CapacityOk, Mask, SlotInv;
  }

  lemma FillStep(s: State)
    requires Inv(s) && RingOk(s.m) && Enabled(s, FillSlot)
    ensures Inv(Do(s, FillSlot))
  {
    MaskWord(s.m, |s.h.accepted|);
    StoreKeepsSlots(s, s.m.producer.sample, Do(s, FillSlot).m);
    hide CapacityOk, Mask, SlotInv;
  }

  lemma PublishStep(s: State)
    requires Inv(s) && RingOk(s.m) && Enabled(s, Publish)
    ensures Inv(Do(s, Publish))
  {
    IncWord(|s.h.accepted|);
    assert (s.h.accepted + [s.m.producer.sample])[..|s.h.rows|] == s.h.accepted[..|s.h.rows|];
    hide CapacityOk, Mask, Inc;
  }

  lemma StopStep(s: State)
    requires Inv(s) && RingOk(s.m) && Enabled(s, Stop)
    ensures Inv(Do(s, Stop))
  {
    hide CapacityOk, Mask;
  }

  lemma ControlStep(s: State, step: Step)
    requires Inv(s) && RingOk(s.m) && Enabled(s, step) && (step.OpenFile? || step.TestRunning? || step.LoadIndices?)
    ensures Inv(Do(s, step))
  {
    hide CapacityOk, Mask, SlotInv;
    assert SlotInv(Do(s, step)) by { SlotsIgnoreControl(s, Do(s, step)); }
    if step.LoadIndices? && s.m.writer == WRunning && s.m.readIdx == s.m.writeIdx {
      EmptyRing(s);
    }
  }

  // Equal index words mean that every accepted sample has been released.
  lemma EmptyRing(s: State)
    requires Inv(s) && s.m.readIdx == s.m.writeIdx
    ensures s.h.readCount == |s.h.rows| == |s.h.accepted|
  {
    CapacityFits(|s.m.ring|);
    SameRemainder(s.h.readCount, |s.h.accepted|, WORD);
  }

  lemma SlotsIgnoreControl(s: State, s': State)
    requires SlotInv(s) && s'.m.ring == s.m.ring && s'.h.accepted == s.h.accepted && s'.h.rows == s.h.rows && s'.h.readCount == s.h.readCount
    ensures SlotInv(s')
  {
  }

  // The writer stops exactly at its snapshot, and reads an intact slot before that.
  lemma DrainPosition(s: State)
    requires Inv(s) && s.m.writer.WDraining?
    ensures s.m.writer.current == s.m.writer.writePos <==> |s.h.rows| == s.h.snapshot
  {
    CapacityFits(|s.m.ring|);
    if s.m.writer.current == s.m.writer.writePos {
      SameRemainder(|s.h.rows|, s.h.snapshot, WORD);
    }
  }

  lemma DrainOneStep(s: State)
    requires Inv(s) && RingOk(s.m) && Enabled(s, DrainOne)
    ensures Inv(Do(s, DrainOne))
    ensures |s.h.rows| < |s.h.accepted| && Do(s, DrainOne).h.rows == s.h.rows + [s.h.accepted[|s.h.rows|]]
    ensures Mask(s.m, s.m.writer.current) < |s.m.ring| && s.m.ring[Mask(s.m, s.m.writer.current)] == s.h.accepted[|s.h.rows|]
  {
    DrainPosition(s);
    MaskWord(s.m, |s.h.rows|);
    IncWord(|s.h.rows|);
    assert s.h.accepted[..|s.h.rows|] + [s.h.accepted[|s.h.rows|]] == s.h.accepted[..|s.h.rows| + 1];
    hide CapacityOk, Mask, Inc;
  }

  lemma EndDrainStep(s: State)
    requires Inv(s) && RingOk(s.m) && Enabled(s, EndDrain)
    ensures Inv(Do(s, EndDrain))
  {
    DrainPosition(s);
    hide CapacityOk, Mask, Inc;
  }

  /** Every step of either thread keeps the invariant. */
  lemma InvStep(s: State, step: Step)
    requires Inv(s) && RingOk(s.m) && Enabled(s, step)
    ensures Inv(Do(s, step)) && RingOk(Do(s, step).m)
  {
    hide Inv, Do, RingOk;
    match step {
      case Record(x) => RecordStep(s, x);
      case CheckFull => CheckFullStep(s);
      case Scribble(junk) => ScribbleStep(s, junk);
      case FillSlot => FillStep(s);
      case Publish => PublishStep(s);
      case Stop => StopStep(s);
      case OpenFile(_) => ControlStep(s, step);
      case TestRunning => ControlStep(s, step);
      case LoadIndices => ControlStep(s, step);
      case DrainOne => DrainOneStep(s);
      case EndDrain => EndDrainStep(s);
    }
    InvHasCapacity(Do(s, step));
    RingFromInv(Do(s, step).m);
  }

  lemma InvHasCapacity(s: State)
    requires Inv(s)
    ensures CapacityOk(|s.m.ring|)
  {
  }

  // ---------------------------------------------------------------- the initial state

  function Init(ring: seq<Sample>): State {
    State(Machine(ring, 0, 0, true, PIdle, WStart, 0, 0), History([], [], 0, false, 0, 0, 0))
  }

  lemma InitHasInv(ring: seq<Sample>)
    requires CapacityOk(|ring|)
    ensures Inv(Init(ring)) && RingOk(Init(ring).m)
  {
    CapacityFits(|ring|);
    RingFromInv(Init(ring).m);
  }
}
