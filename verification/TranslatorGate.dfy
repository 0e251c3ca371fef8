/** What opens the translator's gate and what makes a flush due: the readiness signals, the timeout, and the
    silence the buffer timer waits for. Judged by the steps of a run alone. */
module TranslatorGate {
  import opened RunningMap
  import opened Delivery
  import opened Translator
  import opened TranslatorRuns

  // ---------------------------------------------------------------- when the gate is open

  // The namespaces that have signalled.
  ghost function Signalled(steps: seq<Step>): set<string> {
    set k | 0 <= k < |steps| && steps[k].Ready? :: steps[k].ns
  }

  ghost predicate TimedOut(steps: seq<Step>) {
    exists k :: 0 <= k < |steps| && steps[k].ReadyTimeout?
  }

  // Enough namespaces, and at least one: the test runs only when one is new.
  ghost predicate Enough(cfg: Config, ready: set<string>) {
    ready != {} && |ready| >= cfg.agvCount
  }

  // What the flags show after the steps so far.
  ghost predicate GateShows(cfg: Config, c: Control, ready: set<string>, timedOut: bool) {
    && (cfg.waitForReady ==> c.readyAgvs == ready)
    && (c.gateOpen <==> !cfg.waitForReady || timedOut || Enough(cfg, ready))
  }

  ghost function ReadyAfter(ready: set<string>, step: Step): set<string> {
    if step.Ready? then ready + {step.ns} else ready
  }

  // Only the two signals touch the gate.
  lemma GateKept(cfg: Config, c: Control, empty: bool, ok: bool, step: Step)
    requires !step.Ready? && !step.ReadyTimeout? && (step.TimerFinish? ==> c.node.TimerRead?)
    ensures var c' := NextControl(cfg, c, empty, ok, step); c'.gateOpen == c.gateOpen && c'.readyAgvs == c.readyAgvs
  {
    if step.TimerFinish? {
      hide ReadyControl, WillBuffer;
    } else if FlushThreadStep(step) {
      hide ReadyControl, FinishControl, WillBuffer;
    } else {
      hide ReadyControl, FinishControl;
    }
  }

  lemma GateStep(cfg: Config, c: Control, empty: bool, ok: bool, step: Step, ready: set<string>, timedOut: bool)
    requires GateShows(cfg, c, ready, timedOut) && (step.TimerFinish? ==> c.node.TimerRead?)
    requires step.Ready? || step.ReadyTimeout? ==> cfg.waitForReady
    ensures GateShows(cfg, NextControl(cfg, c, empty, ok, step), ReadyAfter(ready, step), timedOut || step.ReadyTimeout?)
  {
    match step
    case Ready(ns) => GateReady(cfg, c, ns, ready, timedOut);
    case ReadyTimeout => hide ReadyControl, FinishControl, Enough;
    case _ =>
      GateKept(cfg, c, empty, ok, step);
      hide NextControl, Enough;
  }

  lemma GateReady(cfg: Config, c: Control, ns: string, ready: set<string>, timedOut: bool)
    requires GateShows(cfg, c, ready, timedOut) && cfg.waitForReady
    ensures GateShows(cfg, ReadyControl(cfg, c, ns), ready + {ns}, timedOut)
  {
    assert ReadyControl(cfg, c, ns).gateOpen <==>
           c.gateOpen || (ns !in c.readyAgvs && |c.readyAgvs + {ns}| >= cfg.agvCount);
    assert ReadyControl(cfg, c, ns).readyAgvs == c.readyAgvs + {ns};
    hide ReadyControl;
    if ns in ready {
      assert ready + {ns} == ready;
    } else {
      assert |ready + {ns}| == |ready| + 1;
    }
  }

  lemma SignalledCons(step: Step, rest: seq<Step>)
    ensures Signalled([step] + rest) == ReadyAfter({}, step) + Signalled(rest)
    ensures TimedOut([step] + rest) <==> step.ReadyTimeout? || TimedOut(rest)
  {
    var steps := [step] + rest;
    assert steps[0] == step && forall k :: 0 <= k < |rest| ==> steps[k + 1] == rest[k];
    forall ns: string
      ensures ns in Signalled(steps) <==> ns in ReadyAfter({}, step) + Signalled(rest)
    {
      if k :| 0 <= k < |rest| && rest[k].Ready? && rest[k].ns == ns {
        assert steps[k + 1].Ready? && steps[k + 1].ns == ns;
      }
      if k :| 0 <= k < |steps| && steps[k].Ready? && steps[k].ns == ns {
        assert k > 0 ==> rest[k - 1] == steps[k];
      }
    }
    if k :| 0 <= k < |rest| && rest[k].ReadyTimeout? {
      assert steps[k + 1].ReadyTimeout?;
    }
    if k :| 0 <= k < |steps| && steps[k].ReadyTimeout? {
      assert k > 0 ==> rest[k - 1] == steps[k];
    }
  }

  lemma GateDo(cfg: Config, s: State, step: Step, ready: set<string>, timedOut: bool)
    requires Enabled(cfg, s, step) && GateShows(cfg, s.c, ready, timedOut)
    ensures GateShows(cfg, Do(cfg, s, step).c, ReadyAfter(ready, step), timedOut || step.ReadyTimeout?)
  {
    GateStep(cfg, s.c, s.d.buffer == [], s.d.ok, step, ready, timedOut);
    hide NextControl, GateShows, Replay, IsCollapse, AnswersFit;
  }

  lemma SignalledMore(ready: set<string>, steps: seq<Step>)
    requires steps != []
    ensures ReadyAfter(ready, steps[0]) + Signalled(steps[1..]) == ready + Signalled(steps)
    ensures steps[0].ReadyTimeout? || TimedOut(steps[1..]) <==> TimedOut(steps)
  {
    assert steps == [steps[0]] + steps[1..];
    SignalledCons(steps[0], steps[1..]);
    hide Signalled, TimedOut;
  }

  lemma {:induction false} GateRun(cfg: Config, s: State, steps: seq<Step>, ready: set<string>, timedOut: bool)
    requires IsRun(cfg, s, steps) && GateShows(cfg, s.c, ready, timedOut)
    ensures GateShows(cfg, After(cfg, s, steps).c, ready + Signalled(steps), timedOut || TimedOut(steps))
    decreases |steps|
  {
    if steps == [] {
      assert ready + Signalled([]) == ready;
    } else {
      hide GateShows, Do, Enabled, Signalled, TimedOut, ReadyAfter;
      GateDo(cfg, s, steps[0], ready, timedOut);
      GateRun(cfg, Do(cfg, s, steps[0]), steps[1..], ReadyAfter(ready, steps[0]), timedOut || steps[0].ReadyTimeout?);
      SignalledMore(ready, steps);
    }
  }

  /** After any run the gate is open exactly when the node need not wait, the timeout has fired, or enough
      different namespaces have signalled. */
  lemma GateOpenIff(cfg: Config, agvMaps: seq<ObstacleMap>, steps: seq<Step>)
    requires IsRun(cfg, Init(cfg, agvMaps), steps)
    ensures After(cfg, Init(cfg, agvMaps), steps).c.gateOpen <==>
            !cfg.waitForReady || TimedOut(steps) || (Signalled(steps) != {} && |Signalled(steps)| >= cfg.agvCount)
  {
    GateRun(cfg, Init(cfg, agvMaps), steps, {}, false);
    assert {} + Signalled(steps) == Signalled(steps);
  }

  // ---------------------------------------------------------------- opening it

  lemma OpeningControl(cfg: Config, c: Control, empty: bool, ok: bool, step: Step)
    requires !c.gateOpen && (step.TimerFinish? ==> c.node.TimerRead?) && NextControl(cfg, c, empty, ok, step).gateOpen
    ensures var c' := NextControl(cfg, c, empty, ok, step);
            (step.Ready? || step.ReadyTimeout?) && c'.node == RequestDue && c'.flush == c.flush && c'.isFlushing == c.isFlushing
  {
    match step
    case Ready(ns) =>
      hide FinishControl, WillBuffer, ReadyControl;
      assert NextControl(cfg, c, empty, ok, step) == ReadyControl(cfg, c, ns);
      hide NextControl;
      OpeningReady(cfg, c, ns);
    case ReadyTimeout => hide ReadyControl, FinishControl, WillBuffer;
    case _ =>
      GateKept(cfg, c, empty, ok, step);
      hide NextControl;
  }

  lemma OpeningReady(cfg: Config, c: Control, ns: string)
    requires !c.gateOpen && ReadyControl(cfg, c, ns).gateOpen
    ensures var c' := ReadyControl(cfg, c, ns); c'.node == RequestDue && c'.flush == c.flush && c'.isFlushing == c.isFlushing
  {
    var ready := c.readyAgvs + {ns};
    assert ns !in c.readyAgvs && |ready| >= cfg.agvCount;
    assert ReadyControl(cfg, c, ns) == c.(readyAgvs := ready, gateOpen := true, node := RequestDue);
    hide ReadyControl;
  }

  /** Whatever step opens the gate, a flush is due: what was held back goes out next. */
  lemma OpeningDelivers(cfg: Config, s: State, step: Step, collapsed: seq<Update>)
    requires Inv(cfg, s) && Enabled(cfg, s, step) && !s.c.gateOpen && Do(cfg, s, step).c.gateOpen
    requires s.d.buffer != [] && IsCollapse(s.d.buffer, collapsed)
    ensures var steps := [RequestFlush] + [Wake, Claim, Take(collapsed)];
            && IsRun(cfg, Do(cfg, s, step), steps)
            && After(cfg, Do(cfg, s, step), steps).c.flush == Delivering && After(cfg, Do(cfg, s, step), steps).d.batch == collapsed
  {
    OpeningControl(cfg, s.c, s.d.buffer == [], s.d.ok, step);
    OpeningData(cfg, s, step);
    ClosedIsQuiet(cfg, s);
    var s1 := Do(cfg, s, step);
    hide Inv, IsCollapse, Replay, IsRun, After;
    var s2 := RequestDo(cfg, s1);
    FlushStarts(cfg, s2, collapsed);
    RunCons(cfg, s1, Step.RequestFlush, [Wake, Claim, Take(collapsed)]);
  }

  lemma OpeningData(cfg: Config, s: State, step: Step)
    requires Enabled(cfg, s, step) && (step.Ready? || step.ReadyTimeout?)
    ensures Do(cfg, s, step).d == s.d
  {
  }

  lemma ClosedIsQuiet(cfg: Config, s: State)
    requires Inv(cfg, s) && !s.c.gateOpen
    ensures s.c.flush == Waiting && !s.c.flushRequested && !s.c.isFlushing && s.c.node != RequestDue && !s.c.left
  {
    hide DataInv, AgvInv;
  }

  lemma RequestDo(cfg: Config, s: State) returns (s': State)
    requires s.c.node == RequestDue
    ensures Enabled(cfg, s, Step.RequestFlush) && s' == Do(cfg, s, Step.RequestFlush)
    ensures s'.c.flushRequested && s'.c.flush == s.c.flush && s'.c.isFlushing == s.c.isFlushing && s'.d == s.d
  {
    s' := Do(cfg, s, Step.RequestFlush);
  }

  // ---------------------------------------------------------------- a closed gate

  // Nothing has been published, and no AGV has been sent anything.
  ghost predicate NothingSent(d: Data, agvMaps: seq<ObstacleMap>) {
    d.sent == Sent([], {}, {}) && d.agvMaps == agvMaps
  }

  lemma ClosedStep(cfg: Config, s: State, step: Step, agvMaps: seq<ObstacleMap>)
    requires Inv(cfg, s) && Enabled(cfg, s, step) && !Do(cfg, s, step).c.gateOpen && NothingSent(s.d, agvMaps)
    ensures !s.c.gateOpen && NothingSent(Do(cfg, s, step).d, agvMaps)
  {
    if s.c.gateOpen {
      OpenStays(cfg, s, step);
    } else {
      ClosedIsQuiet(cfg, s);
      ClosedWaits(cfg, s);
      hide *;
      ClosedData(cfg, s, step, agvMaps);
    }
  }

  lemma ClosedWaits(cfg: Config, s: State)
    requires Inv(cfg, s) && !s.c.gateOpen
    ensures cfg.waitForReady
  {
    hide DataInv, AgvInv;
  }

  lemma ClosedData(cfg: Config, s: State, step: Step, agvMaps: seq<ObstacleMap>)
    requires cfg.waitForReady && !s.c.gateOpen && s.c.flush == Waiting && !s.c.flushRequested
    requires Enabled(cfg, s, step) && NothingSent(s.d, agvMaps)
    ensures NothingSent(Do(cfg, s, step).d, agvMaps)
  {
    hide Replay, IsCollapse, NextControl;
  }

  lemma {:induction false} ClosedRun(cfg: Config, s: State, steps: seq<Step>, agvMaps: seq<ObstacleMap>)
    requires Inv(cfg, s) && IsRun(cfg, s, steps) && !After(cfg, s, steps).c.gateOpen && NothingSent(s.d, agvMaps)
    ensures NothingSent(After(cfg, s, steps).d, agvMaps)
    decreases |steps|
  {
    hide Inv, Enabled, Do, NothingSent;
    if steps != [] {
      if Do(cfg, s, steps[0]).c.gateOpen {
        GateNeverCloses(cfg, Do(cfg, s, steps[0]), steps[1..]);
      }
      ClosedStep(cfg, s, steps[0], agvMaps);
      InvStep(cfg, s, steps[0]);
      ClosedRun(cfg, Do(cfg, s, steps[0]), steps[1..], agvMaps);
    }
  }

  /** While the gate is closed nothing has been published and every AGV's map is as it was. */
  lemma ClosedSendsNothing(cfg: Config, agvMaps: seq<ObstacleMap>, steps: seq<Step>)
    requires IsRun(cfg, Init(cfg, agvMaps), steps) && !After(cfg, Init(cfg, agvMaps), steps).c.gateOpen
    ensures var d := After(cfg, Init(cfg, agvMaps), steps).d; d.sent == Sent([], {}, {}) && d.agvMaps == agvMaps
  {
    InitHasInv(cfg, agvMaps);
    ClosedRun(cfg, Init(cfg, agvMaps), steps, agvMaps);
  }

  // ---------------------------------------------------------------- buffering waits for silence

  // No flush is under way, requested or about to be.
  ghost predicate Calm(s: State) {
    && s.c.flush == Waiting && !s.c.flushRequested && s.c.node != RequestDue
    && (s.c.node.TimerRead? ==> !s.c.node.shouldFlush)
  }

  // The timer never finds the silence it waits for.
  ghost predicate NoSilence(steps: seq<Step>) {
    forall k :: 0 <= k < |steps| ==> steps[k] != TimerReadBuffer(true)
  }

  // Everything the callbacks receive.
  ghost function ReceivedIn(steps: seq<Step>): seq<Update>
    decreases |steps|
  {
    if steps == [] then [] else (if steps[0].Receive? then steps[0].us else []) + ReceivedIn(steps[1..])
  }

  lemma OpenStays(cfg: Config, s: State, step: Step)
    requires s.c.gateOpen && Enabled(cfg, s, step)
    ensures Do(cfg, s, step).c.gateOpen
  {
    GateStaysOpen(cfg, s.c, s.d.buffer == [], s.d.ok, step);
  }

  lemma CalmStep(cfg: Config, s: State, step: Step)
    requires cfg.enableBuffering && Calm(s) && Enabled(cfg, s, step) && step != TimerReadBuffer(true)
    requires Do(cfg, s, step).c.gateOpen ==> s.c.gateOpen
    ensures Calm(Do(cfg, s, step))
    ensures Do(cfg, s, step).d == if step.Receive? then Append(s.d, step.us) else s.d
  {
    hide Replay, IsCollapse, AnswersFit, Chunks;
    match step
    case Ready(ns) => hide FinishControl;
    case TimerFinish => hide ReadyControl;
    case _ => hide ReadyControl, FinishControl;
  }

  lemma AppendMore(d: Data, us: seq<Update>, more: seq<Update>)
    ensures Append(Append(d, us), more) == Append(d, us + more)
    ensures Append(d, []) == d
  {
    assert d.buffer + us + more == d.buffer + (us + more) && d.received + us + more == d.received + (us + more);
    assert d.buffer + [] == d.buffer && d.received + [] == d.received;
  }

  lemma {:induction false} CalmRun(cfg: Config, s: State, steps: seq<Step>)
    requires cfg.enableBuffering && Calm(s) && IsRun(cfg, s, steps) && NoSilence(steps)
    requires After(cfg, s, steps).c.gateOpen ==> s.c.gateOpen
    ensures Calm(After(cfg, s, steps))
    ensures After(cfg, s, steps).d == Append(s.d, ReceivedIn(steps))
    decreases |steps|
  {
    hide Calm, Enabled, Do;
    if steps == [] {
      AppendMore(s.d, [], []);
    } else {
      var s1 := Do(cfg, s, steps[0]);
      if s1.c.gateOpen {
        GateNeverCloses(cfg, s1, steps[1..]);
      }
      if s.c.gateOpen {
        OpenStays(cfg, s, steps[0]);
      }
      CalmStep(cfg, s, steps[0]);
      CalmRun(cfg, s1, steps[1..]);
      assert ReceivedIn(steps) == (if steps[0].Receive? then steps[0].us else []) + ReceivedIn(steps[1..]);
      hide ReceivedIn, Append, IsRun, After;
      AppendMore(s.d, if steps[0].Receive? then steps[0].us else [], ReceivedIn(steps[1..]));
    }
  }

  /** With buffering, nothing is sent and no flush becomes due until the timer has found silence or the gate
      has opened: until then the buffer just collects what comes in. */
  lemma BufferingWaits(cfg: Config, agvMaps: seq<ObstacleMap>, steps: seq<Step>)
    requires cfg.enableBuffering && IsRun(cfg, Init(cfg, agvMaps), steps) && NoSilence(steps)
    requires After(cfg, Init(cfg, agvMaps), steps).c.gateOpen ==> !cfg.waitForReady
    ensures var s := After(cfg, Init(cfg, agvMaps), steps);
            && Calm(s) && s.d.buffer == s.d.received == ReceivedIn(steps)
            && s.d.sent == Sent([], {}, {}) && s.d.agvMaps == agvMaps
  {
    CalmRun(cfg, Init(cfg, agvMaps), steps);
    assert [] + ReceivedIn(steps) == ReceivedIn(steps);
  }

  /** A timer tick does nothing exactly while a flush is under way. */
  lemma TimerSkipsIff(cfg: Config, s: State)
    requires Inv(cfg, s) && Enabled(cfg, s, TimerStart)
    ensures Do(cfg, s, TimerStart) == s <==> s.c.flush != Waiting && s.c.flush != Woken
    ensures s.c.flush == Waiting || s.c.flush == Woken ==> Do(cfg, s, TimerStart).c.node == TimerChecked
  {
    hide DataInv, AgvInv;
  }

  // ---------------------------------------------------------------- the flag of the first flush

  // The flag stands for a successful batch, and every batch covers something new.
  ghost predicate FlushedInv(s: State) {
    && (s.c.bufferFlushed <==> s.d.settled > 0)
    && (Carrying(s.c) || s.d.returned != [] ==> s.d.settled < s.d.taken)
  }

  lemma FlushedStep(cfg: Config, s: State, step: Step)
    requires Inv(cfg, s) && FlushedInv(s) && Enabled(cfg, s, step)
    ensures FlushedInv(Do(cfg, s, step))
  {
    FlushedFlag(cfg, s.c, s.d.buffer == [], s.d.ok, step);
    CarryingStep(cfg, s, step);
    assert DataInv(Carrying(s.c), s.d);
    hide Inv, NextControl, Carrying, Replay, IsCollapse, AnswersFit, AllAccepted, AfterDelivery;
  }

  lemma FlushedFlag(cfg: Config, c: Control, empty: bool, ok: bool, step: Step)
    requires step.TimerFinish? ==> c.node.TimerRead?
    ensures NextControl(cfg, c, empty, ok, step).bufferFlushed == (c.bufferFlushed || (step.SettleFlush? && ok))
  {
    if FlushThreadStep(step) {
      hide ReadyControl, FinishControl, WillBuffer;
    } else if step.TimerFinish? {
      hide ReadyControl, WillBuffer;
    } else {
      hide FinishControl;
    }
  }

  lemma {:induction false} FlushedRun(cfg: Config, s: State, steps: seq<Step>)
    requires Inv(cfg, s) && FlushedInv(s) && IsRun(cfg, s, steps)
    ensures FlushedInv(After(cfg, s, steps))
    decreases |steps|
  {
    hide Inv, FlushedInv, Enabled, Do;
    if steps != [] {
      FlushedStep(cfg, s, steps[0]);
      InvStep(cfg, s, steps[0]);
      FlushedRun(cfg, Do(cfg, s, steps[0]), steps[1..]);
    }
  }

  /** The flag that starts the replay and lets readiness out is set exactly when some update has been covered
      by a successful batch. */
  lemma FlushedIff(cfg: Config, agvMaps: seq<ObstacleMap>, steps: seq<Step>)
    requires IsRun(cfg, Init(cfg, agvMaps), steps)
    ensures var s := After(cfg, Init(cfg, agvMaps), steps); s.c.bufferFlushed <==> s.d.settled > 0
  {
    InitHasInv(cfg, agvMaps);
    FlushedRun(cfg, Init(cfg, agvMaps), steps);
  }
}
