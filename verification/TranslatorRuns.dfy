/** Runs of the translator's protocol: when the readiness signal is right, what becomes of a failed
    flush, and what is left on an AGV. */
module TranslatorRuns {
  import opened RunningMap
  import opened Delivery
  import opened Translator

  // ---------------------------------------------------------------- a failed flush

  // Quiet after a failed flush: nothing under way on either thread.
  ghost predicate StrandedBy(cfg: Config, s: State) {
    s.c.gateOpen && s.d.buffer != [] && s.c.node == Idle && s.c.flush == Waiting && !s.c.flushRequested
  }

  /** Outside buffering mode nothing retries a failed flush: until the next update arrives, no step
      the node can take moves the stranded buffer. */
  lemma FailedFlushStrands(cfg: Config, s: State, step: Step)
    requires !cfg.enableBuffering && StrandedBy(cfg, s) && Enabled(cfg, s, step) && !step.Receive?
    ensures StrandedBy(cfg, Do(cfg, s, step)) && Do(cfg, s, step).d == s.d
  {
  }

  /** In buffering mode the timer does retry: six steps bring the buffer back into delivery. */
  lemma TimerRetries(cfg: Config, s: State, collapsed: seq<Update>)
    requires cfg.enableBuffering && Inv(cfg, s) && StrandedBy(cfg, s) && IsCollapse(s.d.buffer, collapsed)
    ensures var steps := [TimerStart, TimerReadBuffer(true), TimerFinish] + [Wake, Claim, Take(collapsed)];
            IsRun(cfg, s, steps) && After(cfg, s, steps).c.flush == Delivering && After(cfg, s, steps).d.batch == collapsed
  {
    hide IsCollapse, Replay, IsRun, After;
    var s1 := Do(cfg, s, TimerStart);
    var s2 := Do(cfg, s1, TimerReadBuffer(true));
    var s3 := Do(cfg, s2, TimerFinish);
    FlushStarts(cfg, s3, collapsed);
    hide Do, Enabled, Inv;
    var rest := [Wake, Claim, Take(collapsed)];
    RunCons(cfg, s2, TimerFinish, rest);
    RunCons(cfg, s1, TimerReadBuffer(true), [TimerFinish] + rest);
    RunCons(cfg, s, TimerStart, [TimerReadBuffer(true)] + ([TimerFinish] + rest));
    assert [TimerStart] + ([TimerReadBuffer(true)] + ([TimerFinish] + rest)) == [TimerStart, TimerReadBuffer(true), TimerFinish] + rest;
  }

  // A request that finds the thread waiting takes the buffer.
  lemma FlushStarts(cfg: Config, s: State, collapsed: seq<Update>)
    requires s.c.flush == Waiting && s.c.flushRequested && !s.c.isFlushing && s.d.buffer != [] && IsCollapse(s.d.buffer, collapsed)
    ensures var steps := [Wake, Claim, Take(collapsed)];
            IsRun(cfg, s, steps) && After(cfg, s, steps).c.flush == Delivering && After(cfg, s, steps).d.batch == collapsed
  {
    hide IsCollapse, Replay;
    var s1 := Do(cfg, s, Wake);
    var s2 := Do(cfg, s1, Claim);
    RunCons(cfg, s2, Take(collapsed), []);
    RunCons(cfg, s1, Claim, [Take(collapsed)]);
    RunCons(cfg, s, Wake, [Claim, Take(collapsed)]);
    assert [Wake] + [Claim, Take(collapsed)] == [Wake, Claim, Take(collapsed)];
  }

  ghost predicate NoReceive(steps: seq<Step>) {
    forall k :: 0 <= k < |steps| ==> !steps[k].Receive?
  }

  /** ... over any number of such steps. */
  lemma {:induction false} StrandedForever(cfg: Config, s: State, steps: seq<Step>)
    requires !cfg.enableBuffering && StrandedBy(cfg, s) && IsRun(cfg, s, steps) && NoReceive(steps)
    ensures StrandedBy(cfg, After(cfg, s, steps)) && After(cfg, s, steps).d == s.d
    decreases |steps|
  {
    hide Do, Enabled, StrandedBy;
    if steps != [] {
      FailedFlushStrands(cfg, s, steps[0]);
      StrandedForever(cfg, Do(cfg, s, steps[0]), steps[1..]);
    }
  }

  ghost predicate Retries(cfg: Config, s: State, steps: seq<Step>) {
    NoReceive(steps) && IsRun(cfg, s, steps) && After(cfg, s, steps).c.flush == Delivering
  }

  /** Without a new update a failed batch is delivered again exactly in buffering mode. */
  lemma RetriedIffBuffering(cfg: Config, s: State)
    requires Inv(cfg, s) && StrandedBy(cfg, s)
    ensures (exists steps :: Retries(cfg, s, steps)) <==> cfg.enableBuffering
  {
    hide Inv, IsRun, After;
    if cfg.enableBuffering {
      var collapsed := CollapseOf(s.d.buffer);
      TimerRetries(cfg, s, collapsed);
      assert Retries(cfg, s, [TimerStart, TimerReadBuffer(true), TimerFinish] + [Wake, Claim, Take(collapsed)]);
    } else {
      forall steps: seq<Step> | NoReceive(steps) && IsRun(cfg, s, steps)
        ensures After(cfg, s, steps).c.flush == Waiting
      {
        StrandedForever(cfg, s, steps);
      }
    }
  }

  function Drop(us: seq<Update>, id: ObstacleId): seq<Update> {
    if us == [] then [] else Drop(us[..|us| - 1], id) + if us[|us| - 1].id == id then [] else [us[|us| - 1]]
  }

  lemma TouchesMore(a: seq<Update>, b: seq<Update>, k: ObstacleId)
    ensures Touches(a, k) || Touches(b, k) <==> Touches(a + b, k)
  {
    assert forall i :: 0 <= i < |a| ==> (a + b)[i] == a[i];
    assert forall i :: 0 <= i < |b| ==> (a + b)[|a| + i] == b[i];
  }

  lemma {:induction false} DropTouches(us: seq<Update>, id: ObstacleId, k: ObstacleId)
    ensures Touches(Drop(us, id), k) <==> Touches(us, k) && k != id
  {
    if us != [] {
      var init, last := us[..|us| - 1], us[|us| - 1];
      DropTouches(init, id, k);
      TouchesMore(init, [last], k);
      TouchesMore(Drop(init, id), [last], k);
      TouchesOne(last, k);
      assert us == init + [last];
      hide Touches;
      assert Drop(us, id) == if last.id == id then Drop(init, id) else Drop(init, id) + [last];
      hide Drop;
    }
  }

  lemma TouchesOne(u: Update, k: ObstacleId)
    ensures Touches([u], k) <==> u.id == k
  {
    assert [u][0] == u;
  }

  lemma {:induction false} DropDistinct(us: seq<Update>, id: ObstacleId)
    requires InsertsOnly(us) && DistinctIds(us)
    ensures InsertsOnly(Drop(us, id)) && DistinctIds(Drop(us, id))
  {
    if us != [] {
      var init, last := us[..|us| - 1], us[|us| - 1];
      DropDistinct(init, id);
      DropTouches(init, id, last.id);
    }
  }

  lemma {:induction false} DropReplay(us: seq<Update>, id: ObstacleId)
    requires InsertsOnly(us)
    ensures Replay(map[], Drop(us, id)) == Replay(map[], us) - {id}
  {
    if us != [] {
      var init, last := us[..|us| - 1], us[|us| - 1];
      DropReplay(init, id);
      ReplayOne(map[], Drop(init, id), last);
      MapDrop(Replay(map[], init), last.id, last.geometry, id);
      assert Drop(init, id) + [] == Drop(init, id);
    }
  }

  lemma MapDrop(m: ObstacleMap, k: ObstacleId, g: Geometry, id: ObstacleId)
    ensures m[k := g] - {id} == if k == id then m - {id} else (m - {id})[k := g]
  {
  }

  // Every update list has a collapse.
  lemma {:induction false} CollapseOf(us: seq<Update>) returns (batch: seq<Update>)
    ensures IsCollapse(us, batch)
  {
    if us == [] {
      batch := [];
    } else {
      batch := CollapseOf(us[..|us| - 1]);
      batch := CollapseMore(us[..|us| - 1], batch, us[|us| - 1]);
      assert us[..|us| - 1] + [us[|us| - 1]] == us;
    }
  }

  lemma CollapseMore(us: seq<Update>, before: seq<Update>, u: Update) returns (batch: seq<Update>)
    requires IsCollapse(us, before)
    ensures IsCollapse(us + [u], batch)
  {
    DropDistinct(before, u.id);
    DropReplay(before, u.id);
    DropTouches(before, u.id, u.id);
    ReplayOne(map[], us, u);
    batch := Drop(before, u.id);
    hide Drop;
    if u.operation == Insert {
      ReplayOne(map[], batch, u);
      PutBack(Replay(map[], us), u.id, u.geometry);
      hide Replay;
      batch := batch + [u];
    }
  }

  lemma PutBack(m: ObstacleMap, k: ObstacleId, g: Geometry)
    ensures (m - {k})[k := g] == m[k := g]
  {
  }

  // ---------------------------------------------------------------- one flush outside buffering mode

  ghost predicate Unbuffered(cfg: Config, s: State) {
    && !cfg.enableBuffering && cfg.useService && s.c.gateOpen
    && s.c.node == Idle && s.c.flush == Waiting && !s.c.isFlushing && s.d.buffer == []
  }

  // Updates come in and the flush thread takes them.
  lemma ReceiveAndTake(cfg: Config, start: State, steps: seq<Step>, s: State, us: seq<Update>, batch: seq<Update>)
    returns (steps': seq<Step>, s': State)
    requires IsRun(cfg, start, steps) && After(cfg, start, steps) == s && Unbuffered(cfg, s) && us != [] && IsCollapse(us, batch)
    ensures IsRun(cfg, start, steps') && After(cfg, start, steps') == s'
    ensures s'.c == s.c.(flushRequested := false, isFlushing := true, flush := Delivering, lastFailed := false)
    ensures s'.d == TakeBatch(Append(s.d, us), batch)
  {
    hide IsRun, After, IsCollapse, Replay;
    steps', s' := GoOn(cfg, start, steps, s, Receive(us));
    steps', s' := GoOn(cfg, start, steps', s', Step.RequestFlush);
    steps', s' := GoOn(cfg, start, steps', s', Wake);
    steps', s' := GoOn(cfg, start, steps', s', Claim);
    assert s'.d.buffer == us;
    steps', s' := GoOn(cfg, start, steps', s', Take(batch));
  }

  // ... and delivers them.
  lemma DeliverAndSettle(cfg: Config, start: State, steps: seq<Step>, s: State, answers: seq<seq<Answer>>)
    returns (steps': seq<Step>, s': State)
    requires IsRun(cfg, start, steps) && After(cfg, start, steps) == s && cfg.useService && s.c.flush == Delivering
    requires AnswersFit(answers, |Chunks(s.d.batch, cfg.chunkSize)|, |s.d.agvMaps|)
    ensures IsRun(cfg, start, steps') && After(cfg, start, steps') == s'
    ensures s'.c == s.c.(isFlushing := false, flush := Waiting, left := true, bufferFlushed := s.c.bufferFlushed || AllAccepted(answers),
                         lastFailed := s.c.lastFailed || !AllAccepted(answers))
    ensures s'.d.agvMaps == AfterDelivery(s.d.agvMaps, s.d.batch, cfg.chunkSize, answers) && s'.d.received == s.d.received
    ensures if AllAccepted(answers) then s'.d.settled == s.d.taken && s'.d.buffer == s.d.buffer
            else s'.d.settled == s.d.settled && s'.d.buffer == s.d.batch + s.d.buffer
  {
    hide IsRun, After, AnswersFit, AllAccepted, Chunks, AfterDelivery, IsCollapse;
    steps', s' := GoOn(cfg, start, steps, s, Deliver(answers));
    assert s' == State(s.c.(flush := Answered, left := true), Attempt(cfg, s.d, answers));
    steps', s' := SettleAndRelease(cfg, start, steps', s');
  }

  function AfterSettle(c: Control, ok: bool): Control {
    if ok then c.(bufferFlushed := true, flush := Settled) else c.(lastFailed := true, flush := Settled)
  }

  lemma SettleDo(cfg: Config, s: State)
    requires s.c.flush == Answered
    ensures Enabled(cfg, s, SettleFlush) && Do(cfg, s, SettleFlush) == State(AfterSettle(s.c, s.d.ok), SettleBatch(s.d))
  {
  }

  lemma ReleaseDo(cfg: Config, s: State)
    requires s.c.flush == Settled
    ensures Enabled(cfg, s, Release) && Do(cfg, s, Release) == State(s.c.(isFlushing := false, flush := Waiting), s.d)
  {
  }

  lemma SettleAndRelease(cfg: Config, start: State, steps: seq<Step>, s: State) returns (steps': seq<Step>, s': State)
    requires IsRun(cfg, start, steps) && After(cfg, start, steps) == s && s.c.flush == Answered
    ensures IsRun(cfg, start, steps') && After(cfg, start, steps') == s'
    ensures s'.c == s.c.(isFlushing := false, flush := Waiting, bufferFlushed := s.c.bufferFlushed || s.d.ok,
                         lastFailed := s.c.lastFailed || !s.d.ok)
    ensures s'.d == SettleBatch(s.d)
  {
    hide *;
    SettleDo(cfg, s);
    steps', s' := GoOn(cfg, start, steps, s, SettleFlush);
    SettledFlags(s.c, s.d.ok);
    ReleaseDo(cfg, s');
    steps', s' := GoOn(cfg, start, steps', s', Release);
  }

  lemma SettledFlags(c: Control, ok: bool)
    ensures AfterSettle(c, ok).flush == Settled
    ensures AfterSettle(c, ok).(isFlushing := false, flush := Waiting)
            == c.(isFlushing := false, flush := Waiting, bufferFlushed := c.bufferFlushed || ok, lastFailed := c.lastFailed || !ok)
  {
    if ok {} else {}
  }

  lemma SingleInsert(u: Update, size: int)
    requires u.operation == Insert
    ensures IsCollapse([u], [u]) && Chunks([u], size) == [[u]]
  {
  }

  function Silence(agvs: nat): (row: seq<Answer>)
    ensures |row| == agvs && forall i :: 0 <= i < agvs ==> row[i] == Unavailable
  {
    seq(agvs, i => Unavailable)
  }

  /** Such a state is reached: with no AGV answering, eight steps strand the first update. */
  lemma FailureIsReached(cfg: Config, agvMaps: seq<ObstacleMap>, u: Update) returns (steps: seq<Step>)
    requires !cfg.enableBuffering && cfg.useService && !cfg.waitForReady && agvMaps != [] && u.operation == Insert
    ensures IsRun(cfg, Init(cfg, agvMaps), steps)
    ensures var s := After(cfg, Init(cfg, agvMaps), steps);
            StrandedBy(cfg, s) && s.c.lastFailed && s.d.buffer == [u] && Inv(cfg, s)
  {
    var start := Init(cfg, agvMaps);
    var answers := [Silence(|agvMaps|)];
    SingleInsert(u, cfg.chunkSize);
    assert !RowAccepted(answers[0]) by { assert answers[0][0] == Unavailable; }
    InitHasInv(cfg, agvMaps);
    hide IsCollapse, Inv, Chunks, Silence;
    var s;
    steps, s := ReceiveAndTake(cfg, start, [], start, [u], [u]);
    steps, s := DeliverAndSettle(cfg, start, steps, s, answers);
    RunInv(cfg, start, steps);
  }

  // ---------------------------------------------------------------- the readiness signal

  // In one step of the timer, the signal goes out.
  ghost predicate Announces(s: State, s': State) {
    s'.c.initCount > s.c.initCount
  }

  /** The timer announces readiness exactly when it read an empty buffer, some flush has succeeded, and it
      has not done so before. */
  lemma AnnouncesIff(cfg: Config, s: State)
    requires s.c.node.TimerRead?
    ensures Announces(s, Do(cfg, s, TimerFinish)) <==>
            && !s.c.node.shouldFlush && s.c.node.bufferEmpty
            && s.c.bufferFlushed && !s.c.initPublished && cfg.publishInitReady
  {
  }

  // Finishing the timer from s announces nothing too early.
  ghost predicate RightToFinish(cfg: Config, s: State) {
    && s.c.node.TimerRead? && s.d.settled <= |s.d.received|
    && (Announces(s, Do(cfg, s, TimerFinish)) ==> Outstanding(s.d) == map[])
  }

  ghost predicate FlushOnly(steps: seq<Step>) {
    forall k :: 0 <= k < |steps| ==> FlushThreadStep(steps[k])
  }

  // While the timer stands between its read of an empty buffer and its end.
  ghost predicate ReadEmpty(s: State) {
    && s.c.node == TimerRead(false, true)
    && (Carrying(s.c) ==> s.d.buffer == [])
    && (s.c.bufferFlushed ==> s.d.buffer == [] && InFlight(s) == [])
  }

  // The flush thread leaves the executor's part of the flags alone.
  lemma ThreadKeepsTimer(cfg: Config, c: Control, empty: bool, ok: bool, step: Step)
    requires FlushThreadStep(step)
    ensures var c' := NextControl(cfg, c, empty, ok, step);
            && c'.node == c.node && c'.initPublished == c.initPublished && c'.initCount == c.initCount
            && c'.bufferFlushed == (c.bufferFlushed || (step.SettleFlush? && ok))
  {
    hide ReadyControl, FinishControl, WillBuffer, Publishes;
    match step
    case Wake =>
    case Claim => if c.isFlushing {} else {}
    case Take(_) => if empty {} else {}
    case Deliver(_) =>
    case SettleFlush => if ok {} else {}
    case Release =>
    case _ =>
  }

  lemma ReadEmptyStep(cfg: Config, s: State, step: Step)
    requires ReadEmpty(s) && Enabled(cfg, s, step) && FlushThreadStep(step)
    ensures ReadEmpty(Do(cfg, s, step))
  {
    ThreadKeepsTimer(cfg, s.c, s.d.buffer == [], s.d.ok, step);
    CarryingStep(cfg, s, step);
    hide NextControl, Carrying, Replay, IsCollapse, AnswersFit, Chunks, AfterDelivery, AllAccepted;
  }

  lemma {:induction false} ReadEmptyRun(cfg: Config, s: State, steps: seq<Step>)
    requires ReadEmpty(s) && IsRun(cfg, s, steps) && FlushOnly(steps)
    ensures ReadEmpty(After(cfg, s, steps))
    decreases |steps|
  {
    hide ReadEmpty, Do, Enabled;
    if steps != [] {
      ReadEmptyStep(cfg, s, steps[0]);
      ReadEmptyRun(cfg, Do(cfg, s, steps[0]), steps[1..]);
    }
  }

  // Whatever the flush thread does meanwhile.
  ghost predicate AlwaysRight(cfg: Config, s: State) {
    forall between :: IsRun(cfg, s, between) && FlushOnly(between) ==> RightToFinish(cfg, After(cfg, s, between))
  }

  lemma ReadEmptyIsRight(cfg: Config, s: State)
    requires Inv(cfg, s) && ReadEmpty(s)
    ensures AlwaysRight(cfg, s)
  {
    forall between | IsRun(cfg, s, between) && FlushOnly(between)
      ensures RightToFinish(cfg, After(cfg, s, between))
    {
      var s' := After(cfg, s, between);
      ReadEmptyRun(cfg, s, between);
      RunInv(cfg, s, between);
      hide Inv;
      OutstandingIs(cfg, s');
      AnnouncesIff(cfg, s');
      assert s'.c.bufferFlushed ==> InFlight(s') + s'.d.buffer == [];
    }
  }

  lemma InFlightIsOutstanding(cfg: Config, s: State)
    requires Inv(cfg, s) && s.d.buffer == []
    ensures s.d.settled <= |s.d.received| && (Outstanding(s.d) == map[] <==> InFlight(s) == [])
  {
    OutstandingIs(cfg, s);
    assert InFlight(s) + [] == InFlight(s);
    if InFlight(s) != [] {
      var last := |InFlight(s)| - 1;
      assert LastAt(InFlight(s), InFlight(s)[last].id, last);
      LastDecides(map[], InFlight(s), InFlight(s)[last].id, last);
    }
  }

  /** When the timer reads an empty buffer, its announcement is right whatever the flush thread does until
      then, exactly when no non-empty batch is in flight at the read (or nothing will be announced). */
  lemma InitReadyRightIff(cfg: Config, agvMaps: seq<ObstacleMap>, steps: seq<Step>, silent: bool)
    requires IsRun(cfg, Init(cfg, agvMaps), steps)
    requires var s := After(cfg, Init(cfg, agvMaps), steps); s.c.node == TimerChecked && s.d.buffer == []
    ensures var s := After(cfg, Init(cfg, agvMaps), steps);
            AlwaysRight(cfg, Do(cfg, s, TimerReadBuffer(silent))) <==>
            InFlight(s) == [] || !s.c.bufferFlushed || s.c.initPublished || !cfg.publishInitReady
  {
    InitHasInv(cfg, agvMaps);
    RunInv(cfg, Init(cfg, agvMaps), steps);
    var s := After(cfg, Init(cfg, agvMaps), steps);
    var s1 := Do(cfg, s, TimerReadBuffer(silent));
    InvStep(cfg, s, TimerReadBuffer(silent));
    if InFlight(s) == [] || !s.c.bufferFlushed {
      hide Inv;
      ReadEmptyIsRight(cfg, s1);
    } else {
      assert IsRun(cfg, s1, []) && FlushOnly([]) && After(cfg, s1, []) == s1;
      AnnouncesIff(cfg, s1);
      hide Inv;
      InFlightIsOutstanding(cfg, s1);
      if s.c.initPublished || !cfg.publishInitReady {
        NeverAnnounces(cfg, s1);
      }
    }
  }

  lemma {:induction false} KeepsSilent(cfg: Config, s: State, steps: seq<Step>)
    requires s.c.node == TimerRead(false, true) && (s.c.initPublished || !cfg.publishInitReady)
    requires IsRun(cfg, s, steps) && FlushOnly(steps)
    ensures var c := After(cfg, s, steps).c; c.node == TimerRead(false, true) && (c.initPublished || !cfg.publishInitReady)
    decreases |steps|
  {
    hide Enabled, NextData, NextControl;
    if steps != [] {
      ThreadKeepsTimer(cfg, s.c, s.d.buffer == [], s.d.ok, steps[0]);
      KeepsSilent(cfg, Do(cfg, s, steps[0]), steps[1..]);
    }
  }

  lemma NeverAnnounces(cfg: Config, s: State)
    requires Inv(cfg, s) && s.c.node == TimerRead(false, true) && (s.c.initPublished || !cfg.publishInitReady)
    ensures AlwaysRight(cfg, s)
  {
    forall between | IsRun(cfg, s, between) && FlushOnly(between)
      ensures RightToFinish(cfg, After(cfg, s, between))
    {
      KeepsSilent(cfg, s, between);
      RunInv(cfg, s, between);
      OutstandingIs(cfg, After(cfg, s, between));
      AnnouncesIff(cfg, After(cfg, s, between));
    }
  }

  // Buffering, service delivery to one AGV, no gate.
  const BUFFERED := Config(true, false, true, true, 1, 0)

  // One update is received, and the timer asks for a flush.
  lemma BufferAndSignal(start: State, steps: seq<Step>, s: State, u: Update) returns (steps': seq<Step>, s': State)
    requires IsRun(BUFFERED, start, steps) && After(BUFFERED, start, steps) == s
    requires s.c.node == Idle && s.c.flush == Waiting && !s.c.isFlushing && s.d.buffer == []
    ensures IsRun(BUFFERED, start, steps') && After(BUFFERED, start, steps') == s'
    ensures s'.c == s.c.(flushRequested := true)
    ensures s'.d == s.d.(buffer := [u], received := s.d.received + [u])
  {
    steps', s' := GoOn(BUFFERED, start, steps, s, Receive([u]));
    steps', s' := GoOn(BUFFERED, start, steps', s', TimerStart);
    steps', s' := GoOn(BUFFERED, start, steps', s', TimerReadBuffer(true));
    steps', s' := GoOn(BUFFERED, start, steps', s', TimerFinish);
  }

  lemma WakeAndTake(start: State, steps: seq<Step>, s: State, u: Update) returns (steps': seq<Step>, s': State)
    requires IsRun(BUFFERED, start, steps) && After(BUFFERED, start, steps) == s && u.operation == Insert
    requires s.c.flush == Waiting && s.c.flushRequested && !s.c.isFlushing && s.d.buffer == [u]
    ensures IsRun(BUFFERED, start, steps') && After(BUFFERED, start, steps') == s'
    ensures s'.c == s.c.(flushRequested := false, isFlushing := true, flush := Delivering, lastFailed := false)
    ensures s'.d == TakeBatch(s.d, [u])
  {
    SingleInsert(u, 0);
    hide IsCollapse, AnswersFit, Chunks;
    steps', s' := GoOn(BUFFERED, start, steps, s, Wake);
    steps', s' := GoOn(BUFFERED, start, steps', s', Claim);
    steps', s' := GoOn(BUFFERED, start, steps', s', Take([u]));
  }

  /** It can be wrong: the flush thread takes the buffer between the timer's two looks, and
      initialization_ready goes out with an update still in flight. */
  lemma InitReadyTooEarly(u: Update, m: ObstacleMap) returns (steps: seq<Step>)
    requires u.operation == Insert
    ensures IsRun(BUFFERED, Init(BUFFERED, [m]), steps)
    ensures var s := After(BUFFERED, Init(BUFFERED, [m]), steps); s.c.initPublished && InFlight(s) == [u]
  {
    var start := Init(BUFFERED, [m]);
    var s := start;
    steps := [];
    steps, s := BufferAndSignal(start, steps, s, u);
    steps, s := WakeAndTake(start, steps, s, u);
    SingleInsert(u, 0);
    steps, s := DeliverAndSettle(BUFFERED, start, steps, s, [[Accepted]]);
    steps, s := BufferAndSignal(start, steps, s, u);
    hide IsRun, After, NextData, IsCollapse, Replay;
    steps, s := GoOn(BUFFERED, start, steps, s, TimerStart);
    steps, s := WakeAndTake(start, steps, s, u);
    steps, s := GoOn(BUFFERED, start, steps, s, TimerReadBuffer(true));
    steps, s := GoOn(BUFFERED, start, steps, s, TimerFinish);
  }

  // ---------------------------------------------------------------- what is left on an AGV

  // Every key of every AGV's map has come from an update taken so far.
  ghost predicate OnlyTouched(d: Data) {
    d.taken <= |d.received| && forall i, k :: 0 <= i < |d.agvMaps| && k in d.agvMaps[i] ==> Touches(d.received[..d.taken], k)
  }

  lemma AttemptTouched(cfg: Config, d: Data, answers: seq<seq<Answer>>)
    requires DataInv(true, d) && OnlyTouched(d) && AnswersFit(answers, |Chunks(d.batch, cfg.chunkSize)|, |d.agvMaps|)
    ensures OnlyTouched(Attempt(cfg, d, answers))
  {
    var raw := d.received[d.settled..d.taken];
    assert d.received[..d.taken] == d.received[..d.settled] + raw;
    hide Replay, IsCollapse, Touches, AnswersFit, Chunks;
    if cfg.useService {
      forall i, k | 0 <= i < |d.agvMaps| && k in AfterDelivery(d.agvMaps, d.batch, cfg.chunkSize, answers)[i]
        ensures Touches(d.received[..d.taken], k)
      {
        KeyFromBatch(d, cfg.chunkSize, answers, i, k, raw);
        TouchesMore(d.received[..d.settled], raw, k);
      }
    }
  }

  lemma KeyFromBatch(d: Data, size: int, answers: seq<seq<Answer>>, i: nat, k: ObstacleId, raw: seq<Update>)
    requires IsCollapse(raw, d.batch) && AnswersFit(answers, |Chunks(d.batch, size)|, |d.agvMaps|) && i < |d.agvMaps|
    requires k in AfterDelivery(d.agvMaps, d.batch, size, answers)[i]
    ensures k in d.agvMaps[i] || Touches(raw, k)
  {
    AttemptBetween(d.agvMaps, d.batch, size, answers, i, k);
    if k !in d.agvMaps[i] {
      var j :| 0 <= j < |d.batch| && d.batch[j].id == k;
      MentionedTouched(raw, d.batch, j);
    }
  }

  lemma TouchedStep(cfg: Config, s: State, step: Step)
    requires DataInv(Carrying(s.c), s.d) && OnlyTouched(s.d) && Enabled(cfg, s, step)
    ensures OnlyTouched(Do(cfg, s, step).d)
  {
    hide NextControl, Replay, IsCollapse, AnswersFit, Attempt, Touches;
    CarryingStep(cfg, s, step);
    match step
    case Receive(us) => ReceiveKeepsPrefix(s.d.received, us, s.d.taken, s.d.taken);
    case Take(collapsed) => TakeTouched(s.d, collapsed);
    case Deliver(answers) => AttemptTouched(cfg, s.d, answers);
    case _ =>
  }

  lemma TakeTouched(d: Data, collapsed: seq<Update>)
    requires OnlyTouched(d)
    ensures OnlyTouched(TakeBatch(d, collapsed))
  {
    var more := d.received[d.taken..];
    assert d.received[..|d.received|] == d.received[..d.taken] + more;
    hide Touches;
    forall i, k | 0 <= i < |d.agvMaps| && k in d.agvMaps[i]
      ensures Touches(d.received[..|d.received|], k)
    {
      TouchesMore(d.received[..d.taken], more, k);
    }
  }

  lemma {:induction false} TouchedRun(cfg: Config, s: State, steps: seq<Step>)
    requires Inv(cfg, s) && OnlyTouched(s.d) && IsRun(cfg, s, steps)
    ensures OnlyTouched(After(cfg, s, steps).d)
    decreases |steps|
  {
    hide Enabled, Do, OnlyTouched, AgvInv, ControlInv, DataInv;
    if steps != [] {
      TouchedStep(cfg, s, steps[0]);
      InvStep(cfg, s, steps[0]);
      TouchedRun(cfg, Do(cfg, s, steps[0]), steps[1..]);
    }
  }

  function Empties(agvs: nat): (maps: seq<ObstacleMap>)
    ensures |maps| == agvs && forall i :: 0 <= i < agvs ==> maps[i] == map[]
  {
    seq(agvs, i => map[])
  }

  /** When a flush succeeds, an AGV that started empty shows exactly the full replay of everything covered
      if and only if it holds no obstacle whose last update was a DELETE. */
  lemma AgvExactIff(cfg: Config, agvs: nat, steps: seq<Step>, i: nat)
    requires cfg.useService && IsRun(cfg, Init(cfg, Empties(agvs)), steps) && i < agvs
    requires var s := After(cfg, Init(cfg, Empties(agvs)), steps); s.c.flush == Answered && s.d.ok
    ensures var d := Do(cfg, After(cfg, Init(cfg, Empties(agvs)), steps), SettleFlush).d;
            && i < |d.agvMaps| && d.settled <= |d.received|
            && (d.agvMaps[i] == Truth(d, d.settled) <==>
                forall k :: k in d.agvMaps[i] ==> !LastIs(d.received[..d.settled], k, Delete))
  {
    var start := Init(cfg, Empties(agvs));
    InitHasInv(cfg, Empties(agvs));
    hide Inv, OnlyTouched, IsRun, After, Replay;
    EmptyTouched(cfg, agvs);
    RunInv(cfg, start, steps);
    TouchedRun(cfg, start, steps);
    AgvCount(cfg, start, steps);
    SettledExact(cfg, After(cfg, start, steps), i);
  }

  lemma EmptyTouched(cfg: Config, agvs: nat)
    ensures OnlyTouched(Init(cfg, Empties(agvs)).d)
  {
  }

  lemma SettledExact(cfg: Config, s: State, i: nat)
    requires cfg.useService && Inv(cfg, s) && OnlyTouched(s.d) && s.c.flush == Answered && s.d.ok && i < |s.d.agvMaps|
    ensures var d := SettleBatch(s.d);
            && i < |d.agvMaps| && d.settled <= |d.received|
            && (d.agvMaps[i] == Truth(d, d.settled) <==>
                forall k :: k in d.agvMaps[i] ==> !LastIs(d.received[..d.settled], k, Delete))
  {
    hide GuardInv, GateInv, WakeInv, InitInv, HoldsExcept, Replay, IsCollapse;
    AgvSettle(cfg, s.d);
    hide DataInv, AgvInv, ControlInv;
    SettledTouched(s.d);
    hide OnlyTouched;
    MapExactIff(SettleBatch(s.d).agvMaps[i], SettleBatch(s.d).received[..SettleBatch(s.d).settled]);
  }

  lemma SettledTouched(d: Data)
    requires OnlyTouched(d) && d.ok
    ensures OnlyTouched(SettleBatch(d)) && SettleBatch(d).settled == SettleBatch(d).taken <= |SettleBatch(d).received|
    ensures forall i, k :: 0 <= i < |d.agvMaps| && k in d.agvMaps[i] ==> Touches(d.received[..d.taken], k)
  {
  }

  lemma {:induction false} AgvCount(cfg: Config, s: State, steps: seq<Step>)
    requires IsRun(cfg, s, steps)
    ensures |After(cfg, s, steps).d.agvMaps| == |s.d.agvMaps|
    decreases |steps|
  {
    hide NextControl, Replay, IsCollapse;
    if steps != [] {
      AgvCount(cfg, Do(cfg, s, steps[0]), steps[1..]);
    }
  }

  // A map that holds the replay, and beyond it only touched keys.
  lemma MapExactIff(m: ObstacleMap, us: seq<Update>)
    requires HoldsExcept(m, Replay(map[], us), []) && forall k :: k in m ==> Touches(us, k)
    ensures m == Replay(map[], us) <==> forall k :: k in m ==> !LastIs(us, k, Delete)
  {
    forall k: ObstacleId
      ensures Touches(us, k) ==> (k in Replay(map[], us) <==> !LastIs(us, k, Delete))
      ensures k in Replay(map[], us) ==> k in m && m[k] == Replay(map[], us)[k]
    {
      assert !Touches([], k);
      if Touches(us, k) {
        var j := TouchedHasLast(us, k);
        LastDecides(map[], us, k, j);
        assert forall l: nat :: LastAt(us, k, l) ==> l == j;
      }
    }
    if forall k :: k in m ==> !LastIs(us, k, Delete) {
      MapsEqual(m, Replay(map[], us));
    }
  }

  // ---------------------------------------------------------------- the same from the updates alone

  /** A batch mentions exactly the ids its raw updates leave inserted. */
  lemma CollapseIds(us: seq<Update>, batch: seq<Update>)
    requires IsCollapse(us, batch)
    ensures Ids(batch) == Replay(map[], us).Keys
  {
    forall k: ObstacleId
      ensures k in Ids(batch) <==> k in Replay(map[], batch)
    {
      if Touches(batch, k) {
        var j := TouchedHasLast(batch, k);
        LastDecides(map[], batch, k, j);
      } else {
        UntouchedKept(map[], batch, k);
      }
    }
  }

  // Every AGV holds the ids that landed, and none that was never tried.
  ghost predicate KeysBetween(m: ObstacleMap, sent: Sent) {
    sent.landed <= m.Keys <= sent.tried
  }

  ghost predicate AllBetween(d: Data) {
    forall i :: 0 <= i < |d.agvMaps| ==> KeysBetween(d.agvMaps[i], d.sent)
  }

  lemma AttemptKeysBetween(d: Data, size: int, answers: seq<seq<Answer>>, i: nat, raw: seq<Update>)
    requires IsCollapse(raw, d.batch) && AnswersFit(answers, |Chunks(d.batch, size)|, |d.agvMaps|) && i < |d.agvMaps|
    requires KeysBetween(d.agvMaps[i], d.sent)
    ensures KeysBetween(AfterDelivery(d.agvMaps, d.batch, size, answers)[i], Tried(d.sent, d.batch, AllAccepted(answers)))
  {
    hide AfterDelivery, AllAccepted, Chunks, AnswersFit, Replay;
    var m' := AfterDelivery(d.agvMaps, d.batch, size, answers)[i];
    forall k: ObstacleId
      ensures k in d.agvMaps[i] ==> k in m'
      ensures k in m' ==> k in d.agvMaps[i] || k in Ids(d.batch)
    {
      AttemptBetween(d.agvMaps, d.batch, size, answers, i, k);
    }
    if AllAccepted(answers) {
      SuccessReplaysBatch(d.agvMaps, d.batch, size, answers, i);
      InsertsOverlay(d.agvMaps[i], d.batch);
      CollapseIds(raw, d.batch);
    }
  }

  lemma AttemptBetweenAll(cfg: Config, d: Data, answers: seq<seq<Answer>>)
    requires cfg.useService && DataInv(true, d) && AllBetween(d) && AnswersFit(answers, |Chunks(d.batch, cfg.chunkSize)|, |d.agvMaps|)
    ensures AllBetween(Attempt(cfg, d, answers))
  {
    hide Replay, IsCollapse, AnswersFit, Chunks, KeysBetween, AfterDelivery, AllAccepted, Tried;
    forall i | 0 <= i < |d.agvMaps|
      ensures KeysBetween(Attempt(cfg, d, answers).agvMaps[i], Attempt(cfg, d, answers).sent)
    {
      AttemptKeysBetween(d, cfg.chunkSize, answers, i, d.received[d.settled..d.taken]);
    }
  }

  lemma BetweenStep(cfg: Config, s: State, step: Step)
    requires cfg.useService && DataInv(Carrying(s.c), s.d) && AllBetween(s.d) && Enabled(cfg, s, step)
    ensures AllBetween(Do(cfg, s, step).d)
  {
    hide NextControl, Replay, IsCollapse, AnswersFit, Attempt, DataInv, KeysBetween;
    CarryingStep(cfg, s, step);
    match step
    case Deliver(answers) => AttemptBetweenAll(cfg, s.d, answers);
    case _ =>
  }

  lemma {:induction false} BetweenRun(cfg: Config, s: State, steps: seq<Step>)
    requires cfg.useService && Inv(cfg, s) && AllBetween(s.d) && IsRun(cfg, s, steps)
    ensures AllBetween(After(cfg, s, steps).d)
    decreases |steps|
  {
    hide Enabled, Do, AllBetween, AgvInv, ControlInv, DataInv;
    if steps != [] {
      BetweenStep(cfg, s, steps[0]);
      InvStep(cfg, s, steps[0]);
      BetweenRun(cfg, Do(cfg, s, steps[0]), steps[1..]);
    }
  }

  // None of these ids has a DELETE as its last update.
  ghost predicate NoneDeleted(ids: set<ObstacleId>, us: seq<Update>) {
    forall k :: k in ids ==> !LastIs(us, k, Delete)
  }

  /** Judged by the updates alone: an AGV is exact after a successful flush if no id of any attempted batch
      was last deleted, and only if no id of a successful one was; without failed attempts these are one. */
  lemma AgvExactByHistory(cfg: Config, agvs: nat, steps: seq<Step>, i: nat)
    requires cfg.useService && IsRun(cfg, Init(cfg, Empties(agvs)), steps) && i < agvs
    requires var s := After(cfg, Init(cfg, Empties(agvs)), steps); s.c.flush == Answered && s.d.ok
    ensures var d := Do(cfg, After(cfg, Init(cfg, Empties(agvs)), steps), SettleFlush).d;
            && i < |d.agvMaps| && d.settled <= |d.received|
            && (NoneDeleted(d.sent.tried, d.received[..d.settled]) ==> d.agvMaps[i] == Truth(d, d.settled))
            && (d.agvMaps[i] == Truth(d, d.settled) ==> NoneDeleted(d.sent.landed, d.received[..d.settled]))
            && (d.sent.tried == d.sent.landed ==>
                  (d.agvMaps[i] == Truth(d, d.settled) <==> NoneDeleted(d.sent.landed, d.received[..d.settled])))
  {
    var start := Init(cfg, Empties(agvs));
    InitHasInv(cfg, Empties(agvs));
    assert AllBetween(start.d);
    AgvExactIff(cfg, agvs, steps, i);
    hide Inv, IsRun, After, Replay, Truth;
    BetweenRun(cfg, start, steps);
    var d := Do(cfg, After(cfg, start, steps), SettleFlush).d;
    hide LastIs;
    assert KeysBetween(d.agvMaps[i], d.sent);
  }

  // Every attempt of the run was accepted throughout.
  ghost predicate NoFailure(steps: seq<Step>) {
    forall k :: 0 <= k < |steps| && steps[k].Deliver? ==> AllAccepted(steps[k].answers)
  }

  lemma {:induction false} AllLanded(cfg: Config, s: State, steps: seq<Step>)
    requires IsRun(cfg, s, steps) && NoFailure(steps) && s.d.sent.landed == s.d.sent.tried
    ensures After(cfg, s, steps).d.sent.landed == After(cfg, s, steps).d.sent.tried
    decreases |steps|
  {
    hide NextControl, Replay, IsCollapse, AnswersFit, AllAccepted, AfterDelivery, Ids;
    if steps != [] {
      AllLanded(cfg, Do(cfg, s, steps[0]), steps[1..]);
    }
  }

  /** In a run without failed attempts, an AGV holds exactly the ids of all batches sent so far, and so is exact
      exactly when none of those was last deleted. */
  lemma AgvExactWithoutFailures(cfg: Config, agvs: nat, steps: seq<Step>, i: nat)
    requires cfg.useService && IsRun(cfg, Init(cfg, Empties(agvs)), steps) && i < agvs && NoFailure(steps)
    requires var s := After(cfg, Init(cfg, Empties(agvs)), steps); s.c.flush == Answered && s.d.ok
    ensures var d := Do(cfg, After(cfg, Init(cfg, Empties(agvs)), steps), SettleFlush).d;
            && i < |d.agvMaps| && d.settled <= |d.received|
            && d.agvMaps[i].Keys == d.sent.tried
            && (d.agvMaps[i] == Truth(d, d.settled) <==> NoneDeleted(d.sent.tried, d.received[..d.settled]))
  {
    var start := Init(cfg, Empties(agvs));
    InitHasInv(cfg, Empties(agvs));
    assert AllBetween(start.d);
    AgvExactByHistory(cfg, agvs, steps, i);
    hide Inv, IsRun, After, Replay, Truth, LastIs;
    AllLanded(cfg, start, steps);
    BetweenRun(cfg, start, steps);
    assert KeysBetween(Do(cfg, After(cfg, start, steps), SettleFlush).d.agvMaps[i], After(cfg, start, steps).d.sent);
  }

  // No buffering, service delivery to one AGV, no gate.
  const IMMEDIATE := Config(false, false, true, false, 1, 0)

  lemma DeleteCollapses(u: Update)
    requires u.operation == Delete
    ensures IsCollapse([u], []) && Chunks([], 0) == [[]]
  {
    assert [u][..0] == [];
    assert Replay(map[], [u]) == map[] - {u.id};
  }

  /** It need not: an obstacle inserted by one flush and deleted by the next stays on the AGV. */
  lemma DeletedStays(u: Update, x: Update) returns (steps: seq<Step>)
    requires u.operation == Insert && x == u.(operation := Delete)
    ensures IsRun(IMMEDIATE, Init(IMMEDIATE, [map[]]), steps)
    ensures var s := After(IMMEDIATE, Init(IMMEDIATE, [map[]]), steps);
            && s.d.received == [u, x] && s.d.settled == 2 && !s.c.lastFailed
            && s.d.agvMaps == [map[u.id := u.geometry]]
  {
    var start := Init(IMMEDIATE, [map[]]);
    var s;
    SingleInsert(u, 0);
    DeleteCollapses(x);
    steps, s := ReceiveAndTake(IMMEDIATE, start, [], start, [u], [u]);
    DeliverOne(map[], [u]);
    steps, s := DeliverAndSettle(IMMEDIATE, start, steps, s, [[Accepted]]);
    assert [u][..0] == [];
    assert s.d.agvMaps == [map[u.id := u.geometry]];
    hide IsRun, After, Replay, IsCollapse, AfterDelivery;
    steps, s := ReceiveAndTake(IMMEDIATE, start, steps, s, [x], []);
    DeliverOne(map[u.id := u.geometry], []);
    steps, s := DeliverAndSettle(IMMEDIATE, start, steps, s, [[Accepted]]);
    EmptyReplay(map[u.id := u.geometry]);
  }

  lemma EmptyReplay(m: ObstacleMap)
    ensures Replay(m, []) == m
  {
  }

  // One chunk to one AGV that accepts it.
  lemma DeliverOne(m: ObstacleMap, us: seq<Update>)
    requires Chunks(us, 0) == [us]
    ensures AnswersFit([[Accepted]], 1, 1) && AllAccepted([[Accepted]])
    ensures AfterDelivery([m], us, 0, [[Accepted]]) == [Replay(m, us)]
  {
    assert RowAccepted([[Accepted]][0]);
    SuccessReplaysBatch([m], us, 0, [[Accepted]], 0);
  }
}
