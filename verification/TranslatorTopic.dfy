/** The translator in topic mode without buffering: once the gate is open new updates are published at once,
    while older ones may still wait for the flush thread. When can they be overtaken? */
module TranslatorTopic {
  import opened RunningMap
  import opened Delivery
  import opened Translator
  import opened TranslatorRuns

  ghost predicate Direct(cfg: Config) {
    !cfg.enableBuffering && !cfg.useService
  }

  // Something that came in earlier is still to leave: a batch not yet published, or a buffer that does
  // not cancel itself out.
  ghost predicate Behind(s: State) {
    (s.c.flush == Delivering && s.d.batch != []) || Replay(map[], s.d.buffer) != map[]
  }

  // ---------------------------------------------------------------- topic delivery never fails

  // Nothing comes back, and once the buffer has been taken it stays empty: with the gate open nothing is
  // put into it any more.
  ghost predicate TopicInv(s: State) {
    && !s.c.lastFailed && (s.c.flush == Answered ==> s.d.ok)
    && (s.c.flush == Delivering || s.c.flush == Answered || s.c.flush == Settled ==> s.d.buffer == [])
  }

  lemma TopicStep(cfg: Config, s: State, step: Step)
    requires Direct(cfg) && TopicInv(s) && GateInv(cfg, s.c) && Enabled(cfg, s, step)
    ensures TopicInv(Do(cfg, s, step))
  {
    hide Replay, IsCollapse, AnswersFit, Chunks;
    if FlushThreadStep(step) {
      hide ReadyControl, FinishControl, WillBuffer, Publishes;
    } else {
      TopicFlags(cfg, s.c, s.d.buffer == [], s.d.ok, step);
      hide NextControl;
    }
  }

  // A step of a callback moves neither the flush thread nor what the last failure left.
  lemma TopicFlags(cfg: Config, c: Control, empty: bool, ok: bool, step: Step)
    requires !FlushThreadStep(step) && (step.TimerFinish? ==> c.node.TimerRead?)
    ensures var c' := NextControl(cfg, c, empty, ok, step); c'.flush == c.flush && c'.lastFailed == c.lastFailed
  {
    match step
    case Ready(ns) =>
      assert NextControl(cfg, c, empty, ok, step) == ReadyControl(cfg, c, ns) by { hide ReadyControl; }
      hide NextControl;
      ReadyThread(cfg, c, ns);
    case TimerFinish =>
      assert NextControl(cfg, c, empty, ok, step) == FinishControl(cfg, c) by { hide FinishControl; }
      hide NextControl;
      FinishThread(cfg, c);
    case _ => hide ReadyControl, FinishControl;
  }

  lemma ReadyThread(cfg: Config, c: Control, ns: string)
    ensures ReadyControl(cfg, c, ns).flush == c.flush && ReadyControl(cfg, c, ns).lastFailed == c.lastFailed
  {
  }

  lemma FinishThread(cfg: Config, c: Control)
    requires c.node.TimerRead?
    ensures FinishControl(cfg, c).flush == c.flush && FinishControl(cfg, c).lastFailed == c.lastFailed
  {
  }

  ghost predicate Good(cfg: Config, s: State) {
    Inv(cfg, s) && TopicInv(s)
  }

  lemma GoodStep(cfg: Config, s: State, step: Step)
    requires Direct(cfg) && Good(cfg, s) && Enabled(cfg, s, step)
    ensures Good(cfg, Do(cfg, s, step))
  {
    hide TopicInv, Do, Enabled, DataInv, AgvInv;
    InvStep(cfg, s, step);
    TopicStep(cfg, s, step);
  }

  lemma {:induction false} GoodRun(cfg: Config, s: State, steps: seq<Step>)
    requires Direct(cfg) && Good(cfg, s) && IsRun(cfg, s, steps)
    ensures Good(cfg, After(cfg, s, steps))
    decreases |steps|
  {
    hide Good, Do, Enabled;
    if steps != [] {
      GoodStep(cfg, s, steps[0]);
      GoodRun(cfg, Do(cfg, s, steps[0]), steps[1..]);
    }
  }

  lemma InitGood(cfg: Config, agvMaps: seq<ObstacleMap>)
    ensures Good(cfg, Init(cfg, agvMaps))
  {
    InitHasInv(cfg, agvMaps);
  }

  // ---------------------------------------------------------------- what is behind does leave

  // Silence from every AGV, for the delivery step; topic delivery does not look at it.
  function NoAnswers(chunks: nat, agvs: nat): (answers: seq<seq<Answer>>)
    ensures |answers| == chunks && forall c :: 0 <= c < chunks ==> |answers[c]| == agvs
  {
    seq(chunks, c => Silence(agvs))
  }

  // How far the flush thread is from publishing something.
  function Distance(s: State): nat {
    match s.c.flush
    case Delivering => 0
    case Claimed => 1
    case Woken => 2
    case Waiting => 3
    case Settled => 4
    case Answered => 5
  }

  // The flush thread's next step.
  lemma NextStep(cfg: Config, s: State) returns (step: Step)
    requires Direct(cfg) && Good(cfg, s) && Behind(s) && s.c.node == Idle && s.c.gateOpen
    ensures Enabled(cfg, s, step) && !step.Receive?
    ensures if s.c.flush == Delivering
            then Do(cfg, s, step).d.sent.topic == s.d.sent.topic + s.d.batch && s.d.batch != []
            else var s' := Do(cfg, s, step);
                 Behind(s') && s'.c.node == Idle && s'.c.gateOpen && Distance(s') < Distance(s) && s'.d.sent == s.d.sent
  {
    hide AnswersFit, Chunks, DataInv, AgvInv;
    match s.c.flush
    case Delivering =>
      step := Deliver(NoAnswers(|Chunks(s.d.batch, cfg.chunkSize)|, |s.d.agvMaps|));
      FitsNoAnswers(|Chunks(s.d.batch, cfg.chunkSize)|, |s.d.agvMaps|);
      hide Replay;
    case Claimed =>
      var collapsed := CollapseOf(s.d.buffer);
      step := Take(collapsed);
      NotEmptied(s.d.buffer, collapsed);
    case Woken => step := Claim;
    case Waiting => step := Wake;
    case Settled => step := Release;
    case Answered => step := SettleFlush;
  }

  lemma FitsNoAnswers(chunks: nat, agvs: nat)
    ensures AnswersFit(NoAnswers(chunks, agvs), chunks, agvs)
  {
  }

  // A buffer that does not cancel itself out leaves something in its batch, and only then.
  lemma NotEmptied(us: seq<Update>, batch: seq<Update>)
    requires IsCollapse(us, batch)
    ensures batch == [] <==> Replay(map[], us) == map[]
  {
    CollapseIds(us, batch);
    if batch != [] {
      assert batch[0].id in Ids(batch);
    }
  }

  // Without a new update, `later` is published next.
  ghost predicate Leaves(cfg: Config, s: State, steps: seq<Step>, later: seq<Update>) {
    && IsRun(cfg, s, steps) && NoReceive(steps) && later != []
    && After(cfg, s, steps).d.sent.topic == s.d.sent.topic + later
  }

  lemma {:induction false} BehindLeaves(cfg: Config, s: State) returns (steps: seq<Step>, later: seq<Update>)
    requires Direct(cfg) && Good(cfg, s) && Behind(s) && s.c.node == Idle && s.c.gateOpen
    ensures Leaves(cfg, s, steps, later)
    decreases Distance(s)
  {
    hide Good, Behind, Do, Enabled;
    var step := NextStep(cfg, s);
    var s' := Do(cfg, s, step);
    if s.c.flush == Delivering {
      steps, later := [], s.d.batch;
    } else {
      GoodStep(cfg, s, step);
      steps, later := BehindLeaves(cfg, s');
    }
    RunCons(cfg, s, step, steps);
    steps := [step] + steps;
  }

  // ---------------------------------------------------------------- nothing behind, nothing leaves

  lemma NothingBehindStep(cfg: Config, s: State, step: Step)
    requires Direct(cfg) && Good(cfg, s) && !Behind(s) && Enabled(cfg, s, step) && !step.Receive?
    ensures !Behind(Do(cfg, s, step)) && Do(cfg, s, step).d.sent == s.d.sent
  {
    hide AnswersFit, Chunks, ControlInv, DataInv, AgvInv;
    assert s.d.sent.topic + [] == s.d.sent.topic;
    match step
    case Take(collapsed) => NotEmptied(s.d.buffer, collapsed);
    case Ready(ns) => CallbacksKeepFlush(cfg, s.c, ns); hide ReadyControl, Replay;
    case TimerFinish => CallbacksKeepFlush(cfg, s.c, ""); hide FinishControl, Replay;
    case _ => hide ReadyControl, FinishControl;
  }

  lemma {:induction false} NothingBehindRun(cfg: Config, s: State, steps: seq<Step>)
    requires Direct(cfg) && Good(cfg, s) && !Behind(s) && IsRun(cfg, s, steps) && NoReceive(steps)
    ensures After(cfg, s, steps).d.sent == s.d.sent
    decreases |steps|
  {
    hide Good, Behind, Do, Enabled;
    if steps != [] {
      NothingBehindStep(cfg, s, steps[0]);
      GoodStep(cfg, s, steps[0]);
      NothingBehindRun(cfg, Do(cfg, s, steps[0]), steps[1..]);
    }
  }

  // ---------------------------------------------------------------- overtaking

  // After `us` is published directly from s, something that came in earlier may still leave, behind it.
  ghost predicate Overtakes(cfg: Config, s: State, us: seq<Update>)
    requires Enabled(cfg, s, Receive(us))
  {
    exists steps, later :: Leaves(cfg, Do(cfg, s, Receive(us)), steps, later)
  }

  /** In every run, an update published directly overtakes earlier ones exactly when at that moment a batch
      is not yet published, or the buffer holds an update its own later ones do not cancel. */
  lemma OvertakesIff(cfg: Config, agvMaps: seq<ObstacleMap>, run: seq<Step>, us: seq<Update>)
    requires IsRun(cfg, Init(cfg, agvMaps), run)
    requires var s := After(cfg, Init(cfg, agvMaps), run); Enabled(cfg, s, Receive(us)) && Publishes(cfg, s.c)
    ensures var s := After(cfg, Init(cfg, agvMaps), run);
            && Do(cfg, s, Receive(us)).d.sent.topic == s.d.sent.topic + us
            && (Overtakes(cfg, s, us) <==> Behind(s))
  {
    var start := Init(cfg, agvMaps);
    var s := After(cfg, start, run);
    InitGood(cfg, agvMaps);
    hide Good;
    GoodRun(cfg, start, run);
    hide IsRun, After;
    GoodStep(cfg, s, Receive(us));
    OpenGate(cfg, s);
    DirectReceive(cfg, s, us);
    var s' := Do(cfg, s, Receive(us));
    hide Do, Enabled, Behind;
    if Behind(s') {
      var steps, later := BehindLeaves(cfg, s');
    } else if steps: seq<Step>, later: seq<Update> :| Leaves(cfg, s', steps, later) {
      NothingBehindRun(cfg, s', steps);
      assert false;
    }
  }

  lemma OpenGate(cfg: Config, s: State)
    requires Good(cfg, s) && Publishes(cfg, s.c)
    ensures s.c.gateOpen
  {
  }

  lemma DirectReceive(cfg: Config, s: State, us: seq<Update>)
    requires Enabled(cfg, s, Receive(us)) && Publishes(cfg, s.c)
    ensures Do(cfg, s, Receive(us)) == State(s.c.(left := true), Publish(s.d, us))
    ensures Behind(Do(cfg, s, Receive(us))) <==> Behind(s)
  {
  }

  // ---------------------------------------------------------------- how long it can happen

  // The gate is open, and nothing waits.
  ghost predicate Drained(s: State) {
    s.c.gateOpen && s.d.buffer == [] && s.c.flush != Delivering
  }

  lemma DrainedStep(cfg: Config, s: State, step: Step)
    requires Direct(cfg) && Good(cfg, s) && Drained(s) && Enabled(cfg, s, step)
    ensures Drained(Do(cfg, s, step))
  {
    GateStaysOpen(cfg, s.c, s.d.buffer == [], s.d.ok, step);
    hide AnswersFit, Chunks, ControlInv, DataInv, AgvInv, Replay, IsCollapse;
    match step
    case Ready(ns) => CallbacksKeepFlush(cfg, s.c, ns); hide ReadyControl;
    case TimerFinish => CallbacksKeepFlush(cfg, s.c, ""); hide FinishControl;
    case _ => hide ReadyControl, FinishControl;
  }

  lemma {:induction false} DrainedRun(cfg: Config, s: State, steps: seq<Step>)
    requires Direct(cfg) && Good(cfg, s) && Drained(s) && IsRun(cfg, s, steps)
    ensures Drained(After(cfg, s, steps)) && !Behind(After(cfg, s, steps))
    decreases |steps|
  {
    hide Good, Do, Enabled;
    if steps != [] {
      hide Drained;
      DrainedStep(cfg, s, steps[0]);
      GoodStep(cfg, s, steps[0]);
      DrainedRun(cfg, Do(cfg, s, steps[0]), steps[1..]);
    }
  }

  /** Overtaking ends with the first delivery, or with any state in which the gate is open and nothing waits;
      without a gate it never happens. */
  lemma OvertakingEnds(cfg: Config, agvMaps: seq<ObstacleMap>, run: seq<Step>, more: seq<Step>)
    requires Direct(cfg) && IsRun(cfg, Init(cfg, agvMaps), run)
    requires var s := After(cfg, Init(cfg, agvMaps), run); (!cfg.waitForReady && run == []) || s.c.flush == Answered || Drained(s)
    requires IsRun(cfg, After(cfg, Init(cfg, agvMaps), run), more)
    ensures !Behind(After(cfg, After(cfg, Init(cfg, agvMaps), run), more))
  {
    var s := After(cfg, Init(cfg, agvMaps), run);
    InitGood(cfg, agvMaps);
    GoodRun(cfg, Init(cfg, agvMaps), run);
    if s.c.flush == Answered {
      DrainedBy(cfg, s);
    }
    hide Good;
    DrainedRun(cfg, s, more);
  }

  lemma DrainedBy(cfg: Config, s: State)
    requires Direct(cfg) && Good(cfg, s) && s.c.flush == Answered
    ensures Drained(s)
  {
  }

  // Topic delivery for one AGV, behind the gate.
  const GATED := Config(false, true, false, false, 1, 0)

  /** It does happen: an obstacle comes in before the gate opens and again after, and the older update is
      published last. Whoever applies what is published ends with the old geometry. */
  lemma OvertakenRun(a: Update, b: Update) returns (steps: seq<Step>)
    requires a.operation == b.operation == Insert && a.id == b.id && a.geometry != b.geometry
    ensures IsRun(GATED, Init(GATED, []), steps)
    ensures var s := After(GATED, Init(GATED, []), steps);
            s.d.sent.topic == [b, a] && Replay(map[], s.d.sent.topic) == map[a.id := a.geometry] != map[a.id := b.geometry]
  {
    var start := Init(GATED, []);
    LastOne(b, a);
    assert IsRun(GATED, start, []) && After(GATED, start, []) == start;
    hide Replay, IsRun, After;
    var s;
    steps, s := HeldBack(start, a);
    ReceiveDo(s, a, b);
    hide *;
    steps, s := GoOn(GATED, start, steps, s, Receive([b]));
    steps, s := FlushOne(start, steps, s, a);
    assert [] + [b] + [a] == [b, a];
  }

  lemma ReceiveDo(s: State, a: Update, b: Update)
    requires Ahead(s, a)
    ensures Enabled(GATED, s, Receive([b])) && Ahead(Do(GATED, s, Receive([b])), a)
    ensures Do(GATED, s, Receive([b])).d.sent.topic == s.d.sent.topic + [b]
  {
  }

  lemma FlushOne(start: State, steps: seq<Step>, s: State, a: Update) returns (steps': seq<Step>, s': State)
    requires IsRun(GATED, start, steps) && After(GATED, start, steps) == s && Ahead(s, a) && a.operation == Insert
    ensures IsRun(GATED, start, steps') && After(GATED, start, steps') == s'
    ensures s'.d.sent.topic == s.d.sent.topic + [a]
  {
    SingleInsert(a, 0);
    assert AnswersFit([[]], 1, 0);
    hide IsRun, After, IsCollapse, Chunks, AnswersFit, Replay;
    steps', s' := GoOn(GATED, start, steps, s, Wake);
    steps', s' := GoOn(GATED, start, steps', s', Claim);
    steps', s' := GoOn(GATED, start, steps', s', Take([a]));
    steps', s' := GoOn(GATED, start, steps', s', Deliver([[]]));
  }

  // One update waits for the gate, which then opens.
  lemma HeldBack(start: State, a: Update) returns (steps: seq<Step>, s: State)
    requires start == Init(GATED, [])
    ensures IsRun(GATED, start, steps) && After(GATED, start, steps) == s
    ensures Ahead(s, a) && s.d.sent.topic == []
  {
    assert IsRun(GATED, start, []) && After(GATED, start, []) == start;
    hide IsRun, After;
    steps, s := GoOn(GATED, start, [], start, Receive([a]));
    steps, s := GoOn(GATED, start, steps, s, Ready("agv_0"));
    steps, s := GoOn(GATED, start, steps, s, Step.RequestFlush);
  }

  // A flush of one update is due.
  ghost predicate Ahead(s: State, a: Update) {
    && s.c.gateOpen && s.c.node == Idle && s.c.flush == Waiting && s.c.flushRequested && !s.c.isFlushing
    && s.d.buffer == [a] && s.d.agvMaps == []
  }

  lemma LastOne(b: Update, a: Update)
    requires a.operation == b.operation == Insert && a.id == b.id && a.geometry != b.geometry
    ensures Replay(map[], [b, a]) == map[a.id := a.geometry] != map[a.id := b.geometry]
  {
    assert map[a.id := a.geometry][a.id] != map[a.id := b.geometry][a.id];
    assert [b, a][..1] == [b] && [b][..0] == [];
    assert Replay(map[], [b]) == map[b.id := b.geometry];
  }
}
