/** The translator node's buffer, flush and retry protocol, as a state machine.

    Node callbacks exclude one another (one executor); the flush thread interleaves with them
    between any two atomic sections. A section is what runs under one lock or one atomic access,
    merged with neighbours the flush thread can neither see nor change. */
module Translator {
  import opened RunningMap
  import opened Delivery

  datatype Config = Config(
    enableBuffering: bool,
    waitForReady: bool,
    useService: bool,
    publishInitReady: bool,
    agvCount: int,
    chunkSize: int)

  // Where the executor stands inside a callback.
  datatype NodePc =
    | Idle
    | RequestDue                                      // a flush request is the next statement
    | TimerChecked                                    // saw is_flushing_ == false
    | TimerRead(shouldFlush: bool, bufferEmpty: bool) // copied what it needs from the buffer

  // Where the flush thread stands.
  datatype FlushPc =
    | Waiting
    | Woken       // flush_requested_ cleared
    | Claimed     // is_flushing_ set
    | Delivering  // buffer taken and collapsed
    | Answered    // all answers in
    | Settled     // outcome recorded, guard still set

  datatype Control = Control(
    flushRequested: bool,
    isFlushing: bool,
    gateOpen: bool,
    readyAgvs: set<string>,
    bufferFlushed: bool,
    initPublished: bool,
    node: NodePc,
    flush: FlushPc,
    // history, read by no guard
    lastFailed: bool,
    left: bool,      // some update has left the node
    timedOut: bool,
    initCount: nat)

  // What has left the node: history, read by no guard.
  datatype Sent = Sent(
    topic: seq<Update>,       // everything published to the topic, in order
    tried: set<ObstacleId>,   // the ids of all batches handed to service delivery
    landed: set<ObstacleId>)  // ... and of those that every AGV accepted

  datatype Data = Data(
    buffer: seq<Update>,
    batch: seq<Update>,         // updates_to_send, meaningful while Delivering or Answered
    ok: bool,                   // the answer of deliver(), meaningful while Answered
    agvMaps: seq<ObstacleMap>,  // the maps behind the AGVs' services
    // history, read by no guard
    received: seq<Update>,      // everything ever put in the buffer by a callback, in order
    taken: nat,                 // how much of it the last batch covered
    settled: nat,               // how much of it the last successful batch covered
    returned: seq<Update>,      // what the last failed flush put back
    sent: Sent)

  datatype State = State(c: Control, d: Data)

  function Init(cfg: Config, agvMaps: seq<ObstacleMap>): State {
    State(Control(false, false, !cfg.waitForReady, {}, false, false, Idle, Waiting, false, false, false, 0),
          Data([], [], false, agvMaps, [], 0, 0, [], Sent([], {}, {})))
  }

  datatype Step =
    | Receive(us: seq<Update>)       // obstacleUpdatesCallback up to its first lock
    | RequestFlush                   // flush_requested_ = true, second lock of a callback
    | Ready(ns: string)              // geofenceReadyCallback and checkAllGeofencesReady
    | ReadyTimeout
    | TimerStart
    | TimerReadBuffer(silent: bool)  // silent: the silence timeout has elapsed
    | TimerFinish
    | Wake
    | Claim
    | Take(collapsed: seq<Update>)
    | Deliver(answers: seq<seq<Answer>>)
    | SettleFlush
    | Release

  ghost predicate Enabled(cfg: Config, s: State, step: Step) {
    match step
    case Receive(us) => s.c.node == Idle && us != []
    case RequestFlush => s.c.node == RequestDue
    case Ready(_) => s.c.node == Idle && cfg.waitForReady
    case ReadyTimeout => s.c.node == Idle && cfg.waitForReady
    case TimerStart => s.c.node == Idle && cfg.enableBuffering
    case TimerReadBuffer(_) => s.c.node == TimerChecked
    case TimerFinish => s.c.node.TimerRead?
    case Wake => s.c.flush == Waiting && s.c.flushRequested
    case Claim => s.c.flush == Woken
    case Take(collapsed) => s.c.flush == Claimed && IsCollapse(s.d.buffer, collapsed)
    case Deliver(answers) => s.c.flush == Delivering && AnswersFit(answers, |Chunks(s.d.batch, cfg.chunkSize)|, |s.d.agvMaps|)
    case SettleFlush => s.c.flush == Answered
    case Release => s.c.flush == Settled
  }

  // obstacleUpdatesCallback: hold updates back instead of sending them on?
  predicate WillBuffer(cfg: Config, c: Control) {
    cfg.enableBuffering || (cfg.waitForReady && !c.gateOpen)
  }

  // Outside service delivery an unbuffered update is published straight to the topic.
  predicate Publishes(cfg: Config, c: Control) {
    !WillBuffer(cfg, c) && !cfg.useService
  }

  function ReadyControl(cfg: Config, c: Control, ns: string): Control {
    if ns in c.readyAgvs then c
    else
      var ready := c.readyAgvs + {ns};
      if !c.gateOpen && |ready| >= cfg.agvCount
      then c.(readyAgvs := ready, gateOpen := true, node := RequestDue)
      else c.(readyAgvs := ready)
  }

  function FinishControl(cfg: Config, c: Control): Control
    requires c.node.TimerRead?
  {
    if c.node.shouldFlush then
      c.(node := Idle, flushRequested := c.flushRequested || !cfg.waitForReady || c.gateOpen)
    else if c.node.bufferEmpty && c.bufferFlushed && !c.initPublished && cfg.publishInitReady then
      c.(node := Idle, initPublished := true, initCount := c.initCount + 1)
    else
      c.(node := Idle)
  }

  // The flags and positions after a step; `empty` and `ok` are all it learns from the data.
  function NextControl(cfg: Config, c: Control, empty: bool, ok: bool, step: Step): Control
    requires step.TimerFinish? ==> c.node.TimerRead?
  {
    match step
    case Receive(_) => if WillBuffer(cfg, c) then c else if cfg.useService then c.(node := RequestDue) else c.(left := true)
    case RequestFlush => c.(flushRequested := true, node := Idle)
    case Ready(ns) => ReadyControl(cfg, c, ns)
    case ReadyTimeout => if c.gateOpen then c else c.(timedOut := true, gateOpen := true, node := RequestDue)
    case TimerStart => if c.isFlushing then c else c.(node := TimerChecked)
    case TimerReadBuffer(silent) => c.(node := TimerRead(!empty && silent, empty))
    case TimerFinish => FinishControl(cfg, c)
    case Wake => c.(flushRequested := false, flush := Woken)
    case Claim => if c.isFlushing then c.(flush := Waiting) else c.(isFlushing := true, flush := Claimed)
    case Take(_) => if empty then c.(isFlushing := false, flush := Waiting) else c.(flush := Delivering, lastFailed := false)
    case Deliver(_) => c.(flush := Answered, left := true)
    case SettleFlush => if ok then c.(bufferFlushed := true, flush := Settled) else c.(lastFailed := true, flush := Settled)
    case Release => c.(isFlushing := false, flush := Waiting)
  }

  function Append(d: Data, us: seq<Update>): Data {
    d.(buffer := d.buffer + us, received := d.received + us)
  }

  function TakeBatch(d: Data, collapsed: seq<Update>): Data {
    d.(buffer := [], batch := collapsed, taken := |d.received|, returned := [])
  }

  function Publish(d: Data, us: seq<Update>): Data {
    d.(sent := d.sent.(topic := d.sent.topic + us))
  }

  function Ids(us: seq<Update>): set<ObstacleId> {
    set i | 0 <= i < |us| :: us[i].id
  }

  function Tried(sent: Sent, batch: seq<Update>, ok: bool): Sent {
    sent.(tried := sent.tried + Ids(batch), landed := if ok then sent.landed + Ids(batch) else sent.landed)
  }

  // Topic delivery is fire and forget: it always reports success.
  ghost function Attempt(cfg: Config, d: Data, answers: seq<seq<Answer>>): Data
    requires AnswersFit(answers, |Chunks(d.batch, cfg.chunkSize)|, |d.agvMaps|)
  {
    if cfg.useService
    then d.(agvMaps := AfterDelivery(d.agvMaps, d.batch, cfg.chunkSize, answers), ok := AllAccepted(answers),
            sent := Tried(d.sent, d.batch, AllAccepted(answers)))
    else Publish(d, d.batch).(ok := true)
  }

  function SettleBatch(d: Data): Data {
    if d.ok then d.(settled := d.taken) else d.(buffer := d.batch + d.buffer, returned := d.batch)
  }

  ghost function NextData(cfg: Config, s: State, step: Step): Data
    requires Enabled(cfg, s, step)
  {
    match step
    case Receive(us) => if Publishes(cfg, s.c) then Publish(s.d, us) else Append(s.d, us)
    case Take(collapsed) => if s.d.buffer == [] then s.d else TakeBatch(s.d, collapsed)
    case Deliver(answers) => Attempt(cfg, s.d, answers)
    case SettleFlush => SettleBatch(s.d)
    case _ => s.d
  }

  ghost function Do(cfg: Config, s: State, step: Step): State
    requires Enabled(cfg, s, step)
  {
    State(NextControl(cfg, s.c, s.d.buffer == [], s.d.ok, step), NextData(cfg, s, step))
  }

  // ---------------------------------------------------------------- invariants: flags

  predicate Carrying(c: Control) {
    c.flush == Delivering || c.flush == Answered
  }

  ghost predicate GuardInv(c: Control) {
    c.isFlushing <==> c.flush != Waiting && c.flush != Woken
  }

  ghost predicate GateInv(cfg: Config, c: Control) {
    && (!cfg.waitForReady ==> c.gateOpen)
    && (c.flushRequested || c.flush != Waiting || c.node == RequestDue || c.left || c.bufferFlushed ==> c.gateOpen)
    && (cfg.waitForReady && c.gateOpen ==> |c.readyAgvs| >= cfg.agvCount || c.timedOut)
  }

  // A flush is asked for, about to be asked for, or about to take the buffer.
  ghost predicate FlushComing(c: Control) {
    c.flushRequested || c.node == RequestDue || c.flush == Woken || c.flush == Claimed
  }

  ghost predicate WakeInv(cfg: Config, c: Control, empty: bool) {
    !cfg.enableBuffering && c.gateOpen && !empty ==> FlushComing(c) || c.lastFailed
  }

  ghost predicate InitInv(c: Control) {
    && c.initCount == (if c.initPublished then 1 else 0)
    && (c.initPublished ==> c.bufferFlushed)
  }

  ghost predicate ControlInv(cfg: Config, s: State) {
    GuardInv(s.c) && GateInv(cfg, s.c) && WakeInv(cfg, s.c, s.d.buffer == []) && InitInv(s.c)
  }

  // The control invariant after a callback of a ready signal.
  lemma ReadyStep(cfg: Config, c: Control, ns: string, empty: bool)
    requires GuardInv(c) && GateInv(cfg, c) && WakeInv(cfg, c, empty) && InitInv(c)
    ensures var c' := ReadyControl(cfg, c, ns);
            GuardInv(c') && GateInv(cfg, c') && WakeInv(cfg, c', empty) && InitInv(c')
  {
  }

  lemma FinishStep(cfg: Config, c: Control, empty: bool)
    requires GuardInv(c) && GateInv(cfg, c) && WakeInv(cfg, c, empty) && InitInv(c) && c.node.TimerRead?
    ensures var c' := FinishControl(cfg, c);
            GuardInv(c') && GateInv(cfg, c') && WakeInv(cfg, c', empty) && InitInv(c')
  {
    if c.node.shouldFlush {
      assert FinishControl(cfg, c) == c.(node := Idle, flushRequested := c.flushRequested || !cfg.waitForReady || c.gateOpen);
    } else if c.node.bufferEmpty && c.bufferFlushed && !c.initPublished && cfg.publishInitReady {
      assert FinishControl(cfg, c) == c.(node := Idle, initPublished := true, initCount := c.initCount + 1);
    } else {
      assert FinishControl(cfg, c) == c.(node := Idle);
    }
  }

  // What the flags must know of an enabled step: where each thread stands, and what becomes of the buffer.
  ghost predicate StepFits(cfg: Config, c: Control, empty: bool, ok: bool, step: Step, empty': bool) {
    && (step.TimerFinish? ==> c.node.TimerRead?)
    && (step.Receive? || step.Ready? || step.ReadyTimeout? || step.TimerStart? ==> c.node == Idle)
    && (step.RequestFlush? ==> c.node == RequestDue)
    && (step.TimerReadBuffer? ==> c.node == TimerChecked)
    && (step.Wake? ==> c.flush == Waiting && c.flushRequested)
    && (step.Claim? ==> c.flush == Woken)
    && (step.Take? ==> c.flush == Claimed && empty')
    && (step.Deliver? ==> c.flush == Delivering)
    && (step.SettleFlush? ==> c.flush == Answered && (ok ==> empty' == empty))
    && (step.Release? ==> c.flush == Settled)
    && (!step.Receive? && !step.Take? && !step.SettleFlush? ==> empty' == empty)
    && (step.Receive? && Publishes(cfg, c) ==> empty' == empty)
  }

  predicate FlushThreadStep(step: Step) {
    step.Wake? || step.Claim? || step.Take? || step.Deliver? || step.SettleFlush? || step.Release?
  }

  lemma NodeStep(cfg: Config, c: Control, empty: bool, ok: bool, step: Step, empty': bool)
    requires GuardInv(c) && GateInv(cfg, c) && WakeInv(cfg, c, empty) && InitInv(c)
    requires StepFits(cfg, c, empty, ok, step, empty') && !FlushThreadStep(step)
    ensures var c' := NextControl(cfg, c, empty, ok, step);
            GuardInv(c') && GateInv(cfg, c') && WakeInv(cfg, c', empty') && InitInv(c')
  {
    hide ReadyControl, FinishControl;
    match step
    case Ready(ns) => ReadyStep(cfg, c, ns, empty);
    case TimerFinish => FinishStep(cfg, c, empty);
    case _ =>
  }

  lemma ThreadStep(cfg: Config, c: Control, empty: bool, ok: bool, step: Step, empty': bool)
    requires GuardInv(c) && GateInv(cfg, c) && WakeInv(cfg, c, empty) && InitInv(c)
    requires StepFits(cfg, c, empty, ok, step, empty') && FlushThreadStep(step)
    ensures var c' := NextControl(cfg, c, empty, ok, step);
            GuardInv(c') && GateInv(cfg, c') && WakeInv(cfg, c', empty') && InitInv(c')
  {
    hide ReadyControl, FinishControl, Publishes, WillBuffer;
  }

  lemma ControlStep(cfg: Config, s: State, step: Step)
    requires ControlInv(cfg, s) && Enabled(cfg, s, step)
    ensures ControlInv(cfg, Do(cfg, s, step))
  {
    hide Replay, IsCollapse, AfterDelivery, AnswersFit, AllAccepted, Chunks, NextControl, GuardInv, GateInv, WakeInv, InitInv;
    var empty, empty' := s.d.buffer == [], NextData(cfg, s, step).buffer == [];
    if FlushThreadStep(step) {
      ThreadStep(cfg, s.c, empty, s.d.ok, step, empty');
    } else {
      NodeStep(cfg, s.c, empty, s.d.ok, step, empty');
    }
  }

  // ---------------------------------------------------------------- invariants: data

  // The buffer is what a failed flush put back, then everything received since.
  ghost predicate DataInv(carrying: bool, d: Data) {
    && d.settled <= d.taken <= |d.received|
    && d.buffer == d.returned + d.received[d.taken..]
    && (carrying ==> d.returned == [] && IsCollapse(d.received[d.settled..d.taken], d.batch))
    && (!carrying ==> Replay(map[], d.returned) == Replay(map[], d.received[d.settled..d.taken]))
  }

  lemma ReceiveKeepsPrefix(received: seq<Update>, us: seq<Update>, a: nat, b: nat)
    requires a <= b <= |received|
    ensures (received + us)[a..b] == received[a..b] && (received + us)[b..] == received[b..] + us
    ensures (received + us)[..a] == received[..a]
  {
  }

  lemma AppendData(carrying: bool, d: Data, us: seq<Update>)
    requires DataInv(carrying, d)
    ensures DataInv(carrying, Append(d, us))
  {
    hide Replay, IsCollapse;
    ReceiveKeepsPrefix(d.received, us, d.settled, d.taken);
    assert d.returned + (d.received[d.taken..] + us) == (d.returned + d.received[d.taken..]) + us;
  }

  lemma PublishData(carrying: bool, d: Data, us: seq<Update>)
    requires DataInv(carrying, d)
    ensures DataInv(carrying, Publish(d, us))
  {
    hide Replay, IsCollapse;
  }

  lemma TakeData(d: Data, collapsed: seq<Update>)
    requires DataInv(false, d) && IsCollapse(d.buffer, collapsed)
    ensures DataInv(true, TakeBatch(d, collapsed))
  {
    var older, newer := d.received[d.settled..d.taken], d.received[d.taken..];
    assert d.received[d.settled..|d.received|] == older + newer;
    ReplayConcat(map[], older, newer);
    ReplayConcat(map[], d.returned, newer);
    assert [] + d.received[|d.received|..] == [];
  }

  lemma SettleData(d: Data)
    requires DataInv(true, d)
    ensures DataInv(false, SettleBatch(d))
  {
  }

  // Callbacks do not move the flush thread.
  lemma CallbacksKeepFlush(cfg: Config, c: Control, ns: string)
    ensures ReadyControl(cfg, c, ns).flush == c.flush
    ensures c.node.TimerRead? ==> FinishControl(cfg, c).flush == c.flush
  {
  }

  lemma CarryingStep(cfg: Config, s: State, step: Step)
    requires Enabled(cfg, s, step)
    ensures Carrying(NextControl(cfg, s.c, s.d.buffer == [], s.d.ok, step)) == match step
              case Take(_) => s.d.buffer != []
              case SettleFlush => false
              case _ => Carrying(s.c)
    ensures NextControl(cfg, s.c, s.d.buffer == [], s.d.ok, step).flush == Answered <==>
            if step.Deliver? then true else s.c.flush == Answered && !step.SettleFlush?
    ensures step.Take? ==> !Carrying(s.c)
    ensures step.Deliver? || step.SettleFlush? ==> Carrying(s.c)
  {
    hide Replay, IsCollapse, AnswersFit, Chunks, ReadyControl, FinishControl, WillBuffer, Publishes;
    CallbacksKeepFlush(cfg, s.c, if step.Ready? then step.ns else "");
  }

  lemma DataStep(cfg: Config, s: State, step: Step)
    requires DataInv(Carrying(s.c), s.d) && Enabled(cfg, s, step)
    ensures DataInv(Carrying(Do(cfg, s, step).c), Do(cfg, s, step).d)
  {
    hide DataInv, Append, Publish, TakeBatch, SettleBatch, Attempt, Replay, IsCollapse, AnswersFit, NextControl;
    CarryingStep(cfg, s, step);
    match step
    case Receive(us) =>
      AppendData(Carrying(s.c), s.d, us);
      PublishData(Carrying(s.c), s.d, us);
    case Take(collapsed) => TakeData(s.d, collapsed);
    case Deliver(answers) => AttemptData(cfg, s.d, answers);
    case SettleFlush => SettleData(s.d);
    case _ =>
  }

  lemma AttemptData(cfg: Config, d: Data, answers: seq<seq<Answer>>)
    requires DataInv(true, d) && AnswersFit(answers, |Chunks(d.batch, cfg.chunkSize)|, |d.agvMaps|)
    ensures DataInv(true, Attempt(cfg, d, answers))
  {
  }

  // ---------------------------------------------------------------- invariants: the AGVs' maps

  // Map m holds every obstacle of `target`, with its geometry, except ids touched by `us`.
  ghost predicate HoldsExcept(m: ObstacleMap, target: ObstacleMap, us: seq<Update>) {
    forall k :: k in target && !Touches(us, k) ==> k in m && m[k] == target[k]
  }

  // Full replay of the first n updates: the map the AGVs should show.
  ghost function Truth(d: Data, n: nat): ObstacleMap
    requires n <= |d.received|
  {
    Replay(map[], d.received[..n])
  }

  ghost predicate AgvInv(cfg: Config, answered: bool, d: Data) {
    && d.settled <= d.taken <= |d.received|
    && (cfg.useService ==> forall i :: 0 <= i < |d.agvMaps| ==>
          && HoldsExcept(d.agvMaps[i], Truth(d, d.settled), d.received[d.settled..d.taken])
          && (answered && d.ok ==> HoldsExcept(d.agvMaps[i], Replay(map[], d.batch), [])))
  }

  // A successful batch brings an AGV up to date with everything the batch covered.
  lemma BatchCatchesUp(m: ObstacleMap, before: seq<Update>, us: seq<Update>)
    requires HoldsExcept(m, Replay(map[], before), us)
    requires HoldsExcept(m, Replay(map[], us), [])
    ensures HoldsExcept(m, Replay(map[], before + us), [])
  {
    ReplayConcat(map[], before, us);
    forall k | k in Replay(map[], before + us)
      ensures k in m && m[k] == Replay(map[], before + us)[k]
    {
      assert !Touches([], k);
      if Touches(us, k) {
        var i := TouchedHasLast(us, k);
        LastDecides(map[], us, k, i);
        LastDecides(Replay(map[], before), us, k, i);
      } else {
        UntouchedKept(Replay(map[], before), us, k);
      }
    }
  }

  // An attempt cannot disturb ids the batch does not mention.
  lemma AttemptKeeps(maps: seq<ObstacleMap>, raw: seq<Update>, batch: seq<Update>, size: int, answers: seq<seq<Answer>>, i: nat,
                     target: ObstacleMap)
    requires AnswersFit(answers, |Chunks(batch, size)|, |maps|) && i < |maps| && IsCollapse(raw, batch)
    requires HoldsExcept(maps[i], target, raw)
    ensures HoldsExcept(AfterDelivery(maps, batch, size, answers)[i], target, raw)
    ensures AllAccepted(answers) ==> HoldsExcept(AfterDelivery(maps, batch, size, answers)[i], Replay(map[], batch), [])
  {
    var m' := AfterDelivery(maps, batch, size, answers)[i];
    forall k | k in target && !Touches(raw, k)
      ensures k in m' && m'[k] == target[k]
    {
      AttemptBetween(maps, batch, size, answers, i, k);
      if j :| 0 <= j < |batch| && batch[j].id == k {
        MentionedTouched(raw, batch, j);
      }
    }
    if AllAccepted(answers) {
      SuccessReplaysBatch(maps, batch, size, answers, i);
      InsertsOverlay(maps[i], batch);
    }
  }

  lemma MentionedTouched(raw: seq<Update>, batch: seq<Update>, j: nat)
    requires IsCollapse(raw, batch) && j < |batch|
    ensures Touches(raw, batch[j].id)
  {
    var k := batch[j].id;
    assert LastAt(batch, k, j);
    LastDecides(map[], batch, k, j);
    if !Touches(raw, k) {
      UntouchedKept(map[], raw, k);
    }
  }

  lemma AgvAppend(cfg: Config, answered: bool, d: Data, us: seq<Update>)
    requires AgvInv(cfg, answered, d)
    ensures AgvInv(cfg, answered, Append(d, us))
  {
    hide HoldsExcept, Replay;
    ReceiveKeepsPrefix(d.received, us, d.settled, d.taken);
  }

  lemma AgvPublish(cfg: Config, answered: bool, d: Data, us: seq<Update>)
    requires AgvInv(cfg, answered, d)
    ensures AgvInv(cfg, answered, Publish(d, us))
  {
    hide HoldsExcept, Replay;
  }

  lemma AgvTake(cfg: Config, d: Data, collapsed: seq<Update>)
    requires AgvInv(cfg, false, d)
    ensures AgvInv(cfg, false, TakeBatch(d, collapsed))
  {
    hide Replay;
    var older, raw := d.received[d.settled..d.taken], d.received[d.settled..|d.received|];
    assert forall i :: 0 <= i < |older| ==> raw[i] == older[i];
    assert forall k :: Touches(older, k) ==> Touches(raw, k);
  }

  lemma AgvAttempt(cfg: Config, d: Data, answers: seq<seq<Answer>>)
    requires DataInv(true, d) && AgvInv(cfg, false, d) && AnswersFit(answers, |Chunks(d.batch, cfg.chunkSize)|, |d.agvMaps|)
    ensures AgvInv(cfg, true, Attempt(cfg, d, answers))
  {
    hide HoldsExcept, Replay, IsCollapse, AllAccepted, AnswersFit;
    if cfg.useService {
      forall i | 0 <= i < |d.agvMaps|
        ensures HoldsExcept(Attempt(cfg, d, answers).agvMaps[i], Truth(d, d.settled), d.received[d.settled..d.taken])
        ensures AllAccepted(answers) ==> HoldsExcept(Attempt(cfg, d, answers).agvMaps[i], Replay(map[], d.batch), [])
      {
        AttemptKeeps(d.agvMaps, d.received[d.settled..d.taken], d.batch, cfg.chunkSize, answers, i, Truth(d, d.settled));
      }
    }
  }

  // What every AGV shows right after a successful flush.
  ghost predicate AgvsCurrent(d: Data) {
    d.settled <= |d.received| && forall i :: 0 <= i < |d.agvMaps| ==> HoldsExcept(d.agvMaps[i], Truth(d, d.settled), [])
  }

  lemma AgvSettle(cfg: Config, d: Data)
    requires DataInv(true, d) && AgvInv(cfg, true, d)
    ensures AgvInv(cfg, false, SettleBatch(d))
    ensures d.ok && cfg.useService ==> AgvsCurrent(SettleBatch(d))
  {
    hide HoldsExcept, Replay;
    if d.ok && cfg.useService {
      var raw := d.received[d.settled..d.taken];
      assert d.received[..d.taken] == d.received[..d.settled] + raw;
      assert d.received[d.taken..d.taken] == [];
      forall i | 0 <= i < |d.agvMaps|
        ensures HoldsExcept(d.agvMaps[i], Truth(d, d.taken), [])
      {
        BatchCatchesUp(d.agvMaps[i], d.received[..d.settled], raw);
      }
    }
  }

  lemma AgvStep(cfg: Config, s: State, step: Step)
    requires DataInv(Carrying(s.c), s.d) && AgvInv(cfg, s.c.flush == Answered, s.d) && Enabled(cfg, s, step)
    ensures AgvInv(cfg, Do(cfg, s, step).c.flush == Answered, Do(cfg, s, step).d)
  {
    hide DataInv, AgvInv, Append, Publish, TakeBatch, SettleBatch, Attempt, Replay, IsCollapse, AnswersFit, NextControl;
    CarryingStep(cfg, s, step);
    match step
    case Receive(us) =>
      AgvAppend(cfg, s.c.flush == Answered, s.d, us);
      AgvPublish(cfg, s.c.flush == Answered, s.d, us);
    case Take(collapsed) => AgvTake(cfg, s.d, collapsed);
    case Deliver(answers) => AgvAttempt(cfg, s.d, answers);
    case SettleFlush => AgvSettle(cfg, s.d);
    case _ =>
  }

  // ---------------------------------------------------------------- runs

  ghost predicate Inv(cfg: Config, s: State) {
    ControlInv(cfg, s) && DataInv(Carrying(s.c), s.d) && AgvInv(cfg, s.c.flush == Answered, s.d)
  }

  /** Every step, of either thread, keeps every invariant. */
  lemma InvStep(cfg: Config, s: State, step: Step)
    requires Inv(cfg, s) && Enabled(cfg, s, step)
    ensures Inv(cfg, Do(cfg, s, step))
  {
    hide ControlInv, DataInv, AgvInv, Enabled, Do;
    ControlStep(cfg, s, step);
    DataStep(cfg, s, step);
    AgvStep(cfg, s, step);
  }

  ghost predicate IsRun(cfg: Config, start: State, steps: seq<Step>)
    decreases |steps|
  {
    steps == [] || (Enabled(cfg, start, steps[0]) && IsRun(cfg, Do(cfg, start, steps[0]), steps[1..]))
  }

  ghost function After(cfg: Config, start: State, steps: seq<Step>): State
    requires IsRun(cfg, start, steps)
    decreases |steps|
  {
    if steps == [] then start else After(cfg, Do(cfg, start, steps[0]), steps[1..])
  }

  lemma {:induction false} RunInv(cfg: Config, start: State, steps: seq<Step>)
    requires Inv(cfg, start) && IsRun(cfg, start, steps)
    ensures Inv(cfg, After(cfg, start, steps))
    decreases |steps|
  {
    hide Inv, Enabled, Do;
    if steps != [] {
      InvStep(cfg, start, steps[0]);
      RunInv(cfg, Do(cfg, start, steps[0]), steps[1..]);
    }
  }

  lemma InitHasInv(cfg: Config, agvMaps: seq<ObstacleMap>)
    ensures Inv(cfg, Init(cfg, agvMaps))
  {
  }

  function InFlight(s: State): seq<Update> {
    if Carrying(s.c) then s.d.batch else []
  }

  // What no successful batch has covered, as a map.
  ghost function Outstanding(d: Data): ObstacleMap
    requires d.settled <= |d.received|
  {
    Replay(map[], d.received[d.settled..])
  }

  lemma OutstandingIs(cfg: Config, s: State)
    requires Inv(cfg, s)
    ensures s.d.settled <= |s.d.received| && Replay(map[], InFlight(s) + s.d.buffer) == Outstanding(s.d)
  {
    var older, newer := s.d.received[s.d.settled..s.d.taken], s.d.received[s.d.taken..];
    assert s.d.received[s.d.settled..] == older + newer;
    ReplayConcat(map[], older, newer);
    if Carrying(s.c) {
      assert s.d.buffer == newer;
      ReplayConcat(map[], s.d.batch, newer);
    } else {
      assert [] + s.d.buffer == s.d.returned + newer;
      ReplayConcat(map[], s.d.returned, newer);
    }
  }

  /** In every reachable state, whatever has failed and arrived, the batch in flight followed by the
      buffer replays to the same map as all raw updates no successful batch has covered. */
  lemma NothingLost(cfg: Config, agvMaps: seq<ObstacleMap>, steps: seq<Step>)
    requires IsRun(cfg, Init(cfg, agvMaps), steps)
    ensures var s := After(cfg, Init(cfg, agvMaps), steps);
            && s.d.settled <= |s.d.received|
            && Replay(map[], InFlight(s) + s.d.buffer) == Outstanding(s.d)
  {
    InitHasInv(cfg, agvMaps);
    RunInv(cfg, Init(cfg, agvMaps), steps);
    OutstandingIs(cfg, After(cfg, Init(cfg, agvMaps), steps));
  }

  /** When a flush succeeds, every AGV holds, with its latest geometry, every obstacle whose last
      update so far covered is an INSERT, however many attempts had failed half-way before. */
  lemma SuccessBringsAgvsUpToDate(cfg: Config, agvMaps: seq<ObstacleMap>, steps: seq<Step>, i: nat, k: ObstacleId, j: nat)
    requires cfg.useService && IsRun(cfg, Init(cfg, agvMaps), steps)
    requires var s := After(cfg, Init(cfg, agvMaps), steps);
             && s.c.flush == Answered && s.d.ok && i < |s.d.agvMaps|
             && s.d.taken <= |s.d.received|
             && LastAt(s.d.received[..s.d.taken], k, j) && s.d.received[j].operation == Insert
    ensures var s := After(cfg, Init(cfg, agvMaps), steps);
            var s' := Do(cfg, s, SettleFlush);
            && s'.d.settled == s.d.taken && s'.c.bufferFlushed
            && k in s'.d.agvMaps[i] && s'.d.agvMaps[i][k] == s.d.received[j].geometry
  {
    InitHasInv(cfg, agvMaps);
    hide Inv, Replay, LastAt;
    RunInv(cfg, Init(cfg, agvMaps), steps);
    hide IsRun, After;
    SettledHolds(cfg, After(cfg, Init(cfg, agvMaps), steps), i, k, j);
  }

  lemma SettledHolds(cfg: Config, s: State, i: nat, k: ObstacleId, j: nat)
    requires cfg.useService && Inv(cfg, s) && s.c.flush == Answered && s.d.ok && i < |s.d.agvMaps|
    requires s.d.taken <= |s.d.received| && LastAt(s.d.received[..s.d.taken], k, j) && s.d.received[j].operation == Insert
    ensures var d := SettleBatch(s.d);
            d.settled == s.d.taken && k in d.agvMaps[i] && d.agvMaps[i][k] == s.d.received[j].geometry
  {
    hide ControlInv, HoldsExcept, Replay, IsCollapse;
    AgvSettle(cfg, s.d);
    hide DataInv, AgvInv;
    var d := SettleBatch(s.d);
    assert HoldsExcept(d.agvMaps[i], Truth(d, d.settled), []);
    HoldsLast(s.d.agvMaps[i], s.d.received[..s.d.taken], k, j);
  }

  lemma HoldsLast(m: ObstacleMap, us: seq<Update>, k: ObstacleId, j: nat)
    requires HoldsExcept(m, Replay(map[], us), []) && LastAt(us, k, j) && us[j].operation == Insert
    ensures k in m && m[k] == us[j].geometry
  {
    LastDecides(map[], us, k, j);
    assert !Touches([], k);
  }

  /** No update leaves the node before enough AGVs are ready or the timeout fired. */
  lemma NothingLeavesEarly(cfg: Config, agvMaps: seq<ObstacleMap>, steps: seq<Step>)
    requires cfg.waitForReady && IsRun(cfg, Init(cfg, agvMaps), steps)
    ensures var c := After(cfg, Init(cfg, agvMaps), steps).c;
            c.left || c.flushRequested || Carrying(c) ==> c.gateOpen && (|c.readyAgvs| >= cfg.agvCount || c.timedOut)
  {
    InitHasInv(cfg, agvMaps);
    RunInv(cfg, Init(cfg, agvMaps), steps);
  }

  lemma GateStaysOpen(cfg: Config, c: Control, empty: bool, ok: bool, step: Step)
    requires c.gateOpen && (step.TimerFinish? ==> c.node.TimerRead?)
    ensures NextControl(cfg, c, empty, ok, step).gateOpen
  {
    hide ReadyControl;
    match step
    case Ready(ns) => ReadyKeepsGate(cfg, c, ns);
    case _ =>
  }

  lemma ReadyKeepsGate(cfg: Config, c: Control, ns: string)
    requires c.gateOpen
    ensures ReadyControl(cfg, c, ns).gateOpen
  {
  }

  lemma {:induction false} GateNeverCloses(cfg: Config, s: State, steps: seq<Step>)
    requires IsRun(cfg, s, steps) && s.c.gateOpen
    ensures After(cfg, s, steps).c.gateOpen
    decreases |steps|
  {
    hide NextData, NextControl;
    if steps != [] {
      GateStaysOpen(cfg, s.c, s.d.buffer == [], s.d.ok, steps[0]);
      GateNeverCloses(cfg, Do(cfg, s, steps[0]), steps[1..]);
    }
  }

  lemma FlushedStays(cfg: Config, c: Control, empty: bool, ok: bool, step: Step)
    requires c.bufferFlushed && (step.TimerFinish? ==> c.node.TimerRead?)
    ensures NextControl(cfg, c, empty, ok, step).bufferFlushed
  {
    hide WillBuffer, Publishes;
    match step
    case Ready(ns) =>
    case TimerFinish =>
    case _ => hide ReadyControl, FinishControl;
  }

  /** A first successful flush stays the first: the step that starts the replay is taken at most once. */
  lemma {:induction false} FirstFlushOnce(cfg: Config, s: State, steps: seq<Step>)
    requires IsRun(cfg, s, steps) && s.c.bufferFlushed
    ensures After(cfg, s, steps).c.bufferFlushed
    decreases |steps|
  {
    hide NextData, NextControl;
    if steps != [] {
      FlushedStays(cfg, s.c, s.d.buffer == [], s.d.ok, steps[0]);
      FirstFlushOnce(cfg, Do(cfg, s, steps[0]), steps[1..]);
    }
  }

  /** No wake-up is lost outside buffering mode: with the gate open, a non-empty buffer has a flush
      coming, unless the last one failed. */
  lemma NoLostWakeup(cfg: Config, agvMaps: seq<ObstacleMap>, steps: seq<Step>)
    requires !cfg.enableBuffering && IsRun(cfg, Init(cfg, agvMaps), steps)
    ensures var s := After(cfg, Init(cfg, agvMaps), steps);
            s.c.gateOpen && s.d.buffer != [] ==> FlushComing(s.c) || s.c.lastFailed
  {
    InitHasInv(cfg, agvMaps);
    RunInv(cfg, Init(cfg, agvMaps), steps);
  }

  /** initialization_ready is published at most once, and only after a flush has succeeded. */
  lemma InitReadyOnce(cfg: Config, agvMaps: seq<ObstacleMap>, steps: seq<Step>)
    requires IsRun(cfg, Init(cfg, agvMaps), steps)
    ensures var c := After(cfg, Init(cfg, agvMaps), steps).c;
            c.initCount <= 1 && (c.initCount == 1 ==> c.bufferFlushed)
  {
    InitHasInv(cfg, agvMaps);
    RunInv(cfg, Init(cfg, agvMaps), steps);
  }

  lemma RunCons(cfg: Config, s: State, step: Step, rest: seq<Step>)
    requires Enabled(cfg, s, step) && IsRun(cfg, Do(cfg, s, step), rest)
    ensures IsRun(cfg, s, [step] + rest) && After(cfg, s, [step] + rest) == After(cfg, Do(cfg, s, step), rest)
  {
  }

  lemma {:induction false} RunSnoc(cfg: Config, s: State, steps: seq<Step>, step: Step)
    requires IsRun(cfg, s, steps) && Enabled(cfg, After(cfg, s, steps), step)
    ensures IsRun(cfg, s, steps + [step])
    ensures After(cfg, s, steps + [step]) == Do(cfg, After(cfg, s, steps), step)
    decreases |steps|
  {
    hide Enabled, Do;
    if steps == [] {
      RunCons(cfg, s, step, []);
    } else {
      RunSnoc(cfg, Do(cfg, s, steps[0]), steps[1..], step);
      assert steps + [step] == [steps[0]] + (steps[1..] + [step]);
      RunCons(cfg, s, steps[0], steps[1..] + [step]);
    }
  }

  lemma GoOn(cfg: Config, start: State, steps: seq<Step>, s: State, step: Step) returns (steps': seq<Step>, s': State)
    requires IsRun(cfg, start, steps) && After(cfg, start, steps) == s && Enabled(cfg, s, step)
    ensures IsRun(cfg, start, steps') && After(cfg, start, steps') == s'
    ensures steps' == steps + [step] && s' == Do(cfg, s, step)
  {
    RunSnoc(cfg, start, steps, step);
    steps', s' := steps + [step], Do(cfg, s, step);
  }
}
