/** Whole runs of the latency ring: any interleaving of the producer's and the writer's steps. */
module LatencyRuns {
  import opened Common
  import opened DivMod
  import opened LatencyRing

  ghost predicate IsRun(start: State, steps: seq<Step>)
    decreases |steps|
  {
    steps == [] || (RingOk(start.m) && Enabled(start, steps[0]) && IsRun(Do(start, steps[0]), steps[1..]))
  }

  ghost function After(start: State, steps: seq<Step>): State
    requires IsRun(start, steps)
    decreases |steps|
  {
    if steps == [] then start else After(Do(start, steps[0]), steps[1..])
  }

  lemma {:induction false} RunInv(start: State, steps: seq<Step>)
    requires Inv(start) && RingOk(start.m) && IsRun(start, steps)
    ensures Inv(After(start, steps)) && RingOk(After(start, steps).m)
    decreases |steps|
  {
    hide Inv, Enabled, Do, RingOk;
    if steps != [] {
      InvStep(start, steps[0]);
      RunInv(Do(start, steps[0]), steps[1..]);
    }
  }

  /** In every interleaving the rows written are a prefix of the accepted samples, in order, and
      at most capacity - 1 samples are waiting. */
  lemma RowsArePrefix(ring: seq<Sample>, steps: seq<Step>)
    requires CapacityOk(|ring|) && IsRun(Init(ring), steps)
    ensures var s := After(Init(ring), steps);
            && s.h.rows <= s.h.accepted && s.m.written == |s.h.rows|
            && |s.h.accepted| - s.h.readCount <= |s.m.ring| - 1
            && s.m.writeIdx == |s.h.accepted| % WORD && s.m.readIdx == s.h.readCount % WORD
  {
    InitHasInv(ring);
    RunInv(Init(ring), steps);
  }

  /** Every call of `record` is accepted or dropped, or is the one still running. */
  lemma CallsAddUp(ring: seq<Sample>, steps: seq<Step>)
    requires CapacityOk(|ring|) && IsRun(Init(ring), steps)
    ensures var s := After(Init(ring), steps);
            s.h.calls == |s.h.accepted| + s.m.dropped + (if s.m.producer == PIdle then 0 else 1)
  {
    InitHasInv(ring);
    RunInv(Init(ring), steps);
  }

  /** While the producer fills a slot, that slot holds no sample the writer has yet to read. */
  lemma NeverOverwritesUnread(ring: seq<Sample>, steps: seq<Step>, j: nat)
    requires CapacityOk(|ring|) && IsRun(Init(ring), steps)
    requires var s := After(Init(ring), steps);
             s.m.producer.PFilling? && |s.h.rows| <= j < |s.h.accepted|
    ensures var s := After(Init(ring), steps);
            && RingOk(s.m)
            && Mask(s.m, s.m.producer.writePos) != Mask(s.m, j % WORD)
            && s.m.ring[Mask(s.m, j % WORD)] == s.h.accepted[j]
  {
    InitHasInv(ring);
    RunInv(Init(ring), steps);
    var s := After(Init(ring), steps);
    MaskWord(s.m, |s.h.accepted|);
    MaskWord(s.m, j);
    SlotIsFree(s, j);
  }

  /** A sample is dropped exactly when capacity - 1 samples were unread at the moment the call loaded
      the read index. */
  lemma DroppedIffFull(ring: seq<Sample>, steps: seq<Step>)
    requires CapacityOk(|ring|) && IsRun(Init(ring), steps)
    requires After(Init(ring), steps).m.producer.PLoaded?
    ensures var s := After(Init(ring), steps);
            && RingOk(s.m)
            && (Do(s, CheckFull).m.dropped == s.m.dropped + 1 <==> |s.h.accepted| - s.h.staleRead == |s.m.ring| - 1)
  {
    InitHasInv(ring);
    RunInv(Init(ring), steps);
    var s := After(Init(ring), steps);
    IncWord(|s.h.accepted|);
    MaskWord(s.m, |s.h.accepted| + 1);
    MaskWord(s.m, s.h.staleRead);
    FullTest(s.h.staleRead, |s.h.accepted|, |s.m.ring|);
  }

  /** Once the writer thread has ended after the destructor's signal, every accepted sample has its
      row; if its file could not be reopened, no row was ever written. */
  lemma ShutdownDrainsAll(ring: seq<Sample>, steps: seq<Step>)
    requires CapacityOk(|ring|) && IsRun(Init(ring), steps) && After(Init(ring), steps).m.writer == WDone
    ensures var s := After(Init(ring), steps);
            if s.h.fileOk then s.h.rows == s.h.accepted && !s.m.running && s.h.calls == |s.h.rows| + s.m.dropped else s.h.rows == []
  {
    InitHasInv(ring);
    RunInv(Init(ring), steps);
  }

  // ---------------------------------------------------------------- every look is followed by its rows

  // Outside a drain the first n samples have their rows; a drain goes at least that far.
  ghost predicate WrittenUpTo(s: State, n: nat) {
    if s.m.writer.WDraining? then s.h.snapshot >= n else |s.h.rows| >= n
  }

  lemma WrittenStep(s: State, step: Step, n: nat)
    requires Inv(s) && RingOk(s.m) && Enabled(s, step) && WrittenUpTo(s, n)
    ensures WrittenUpTo(Do(s, step), n)
  {
    InvStep(s, step);
    if step.EndDrain? {
      DrainPosition(s);
    }
    hide CapacityOk, Mask, IndexInv, ProducerInv, SlotInv, CountInv, RingOk;
  }

  lemma {:induction false} WrittenRun(s: State, steps: seq<Step>, n: nat)
    requires Inv(s) && IsRun(s, steps) && WrittenUpTo(s, n)
    ensures WrittenUpTo(After(s, steps), n)
    decreases |steps|
  {
    hide Inv, Enabled, Do, RingOk, WrittenUpTo;
    if steps != [] {
      WrittenStep(s, steps[0], n);
      InvStep(s, steps[0]);
      WrittenRun(Do(s, steps[0]), steps[1..], n);
    }
  }

  /** When the writer looks at the indices, running or stopping, every sample accepted by then has its row
      whenever it is next outside a drain: it does not wait for the shutdown. */
  lemma LookIsWritten(ring: seq<Sample>, before: seq<Step>, after: seq<Step>)
    requires CapacityOk(|ring|) && IsRun(Init(ring), before)
    requires var s := After(Init(ring), before); RingOk(s.m) && Enabled(s, LoadIndices) && IsRun(Do(s, LoadIndices), after)
    requires var s := After(Init(ring), before); !After(Do(s, LoadIndices), after).m.writer.WDraining?
    ensures var s := After(Init(ring), before);
            |After(Do(s, LoadIndices), after).h.rows| >= |s.h.accepted|
  {
    InitHasInv(ring);
    RunInv(Init(ring), before);
    var s := After(Init(ring), before);
    InvStep(s, LoadIndices);
    LookCovers(s);
    hide Inv;
    WrittenRun(Do(s, LoadIndices), after, |s.h.accepted|);
  }

  lemma LookCovers(s: State)
    requires Inv(s) && RingOk(s.m) && Enabled(s, LoadIndices)
    ensures WrittenUpTo(Do(s, LoadIndices), |s.h.accepted|)
  {
    if s.m.readIdx == s.m.writeIdx {
      EmptyRing(s);
    }
    hide CapacityOk, Mask, IndexInv, ProducerInv, SlotInv, CountInv, RingOk;
  }

  // ---------------------------------------------------------------- the writer ends

  predicate WriterStep(step: Step) {
    step.OpenFile? || step.TestRunning? || step.LoadIndices? || step.DrainOne? || step.EndDrain?
  }

  // A bound on the writer's steps once running_ is false.
  ghost function StepsLeft(s: State): int {
    var waiting := |s.h.accepted| - |s.h.rows|;
    match s.m.writer
    case WDone => 0
    case WDraining(_, _, final) => if final then waiting + 1 else waiting + 4
    case WStopping => waiting + 2
    case WTop => waiting + 3
    case WRunning => waiting + 5
    case WStart => waiting + 6
  }

  /** After the destructor's signal each step of the writer brings it nearer its end, and it is never stuck
      before that: the join returns. */
  lemma WriterEnds(s: State)
    requires Inv(s) && RingOk(s.m) && !s.m.running
    ensures StepsLeft(s) >= 0 && (StepsLeft(s) == 0 <==> s.m.writer == WDone)
    ensures s.m.writer != WDone <==> exists step :: WriterStep(step) && Enabled(s, step)
    ensures forall step :: WriterStep(step) && Enabled(s, step) ==>
              !Do(s, step).m.running && 0 <= StepsLeft(Do(s, step)) < StepsLeft(s)
  {
    SomeStep(s);
    forall step | WriterStep(step) && Enabled(s, step)
      ensures !Do(s, step).m.running && 0 <= StepsLeft(Do(s, step)) < StepsLeft(s)
    {
      StepCloser(s, step);
    }
    assert |s.h.rows| <= |s.h.accepted|;
  }

  lemma SomeStep(s: State)
    ensures s.m.writer != WDone <==> exists step :: WriterStep(step) && Enabled(s, step)
  {
    match s.m.writer
    case WStart => assert WriterStep(OpenFile(true)) && Enabled(s, OpenFile(true));
    case WTop => assert WriterStep(TestRunning) && Enabled(s, TestRunning);
    case WRunning => assert WriterStep(LoadIndices) && Enabled(s, LoadIndices);
    case WStopping => assert WriterStep(LoadIndices) && Enabled(s, LoadIndices);
    case WDraining(current, writePos, _) =>
      assert WriterStep(DrainOne) && WriterStep(EndDrain);
      assert Enabled(s, DrainOne) || Enabled(s, EndDrain);
    case WDone =>
  }

  lemma StepCloser(s: State, step: Step)
    requires Inv(s) && RingOk(s.m) && !s.m.running && WriterStep(step) && Enabled(s, step)
    ensures !Do(s, step).m.running && 0 <= StepsLeft(Do(s, step)) < StepsLeft(s)
  {
    InvStep(s, step);
    if step.EndDrain? {
      DrainPosition(s);
    }
    hide CapacityOk, Mask, ProducerInv, CountInv, RingOk;
  }

  ghost predicate Stopped(steps: seq<Step>) {
    exists k :: 0 <= k < |steps| && steps[k].Stop?
  }

  /** The running flag is down from the destructor's signal on, and not before. */
  lemma {:induction false} RunningUntilStopped(s: State, steps: seq<Step>)
    requires IsRun(s, steps) && s.m.running
    ensures After(s, steps).m.running <==> !Stopped(steps)
    decreases |steps|
  {
    hide Mask, Inc, RingOk;
    if steps != [] {
      var rest := steps[1..];
      if Do(s, steps[0]).m.running {
        RunningUntilStopped(Do(s, steps[0]), rest);
        if k :| 0 <= k < |steps| && steps[k].Stop? {
          assert rest[k - 1].Stop?;
        }
      } else {
        assert steps[0].Stop?;
        StaysStopped(Do(s, steps[0]), rest);
      }
    }
  }

  lemma {:induction false} StaysStopped(s: State, steps: seq<Step>)
    requires IsRun(s, steps) && !s.m.running
    ensures !After(s, steps).m.running
    decreases |steps|
  {
    hide Mask, Inc, RingOk;
    if steps != [] {
      StaysStopped(Do(s, steps[0]), steps[1..]);
    }
  }

  /** A look goes back to sleep exactly when the writer is running and every accepted sample has its row. */
  lemma RestsIff(s: State)
    requires Inv(s) && RingOk(s.m) && Enabled(s, LoadIndices)
    ensures !Do(s, LoadIndices).m.writer.WDraining? <==> s.m.writer == WRunning && s.h.rows == s.h.accepted
    ensures !Do(s, LoadIndices).m.writer.WDraining? ==> Do(s, LoadIndices).m.writer == WTop
  {
    if s.m.readIdx == s.m.writeIdx {
      EmptyRing(s);
    }
    assert s.h.rows == s.h.accepted[..|s.h.rows|];
  }

  // ---------------------------------------------------------------- the producer ends

  predicate ProducerStep(step: Step) {
    step.CheckFull? || step.FillSlot? || step.Publish?
  }

  // The accesses a call of `record` still has to make, stores into the slot apart.
  function AccessesLeft(p: Producer): nat {
    match p
    case PIdle => 0
    case PLoaded(_, _, _) => 3
    case PFilling(_, _) => 2
    case PFilled(_, _) => 1
  }

  /** A call of `record` is over after at most three more steps of its own, whatever the writer does: it never
      waits. */
  lemma RecordFinishes(s: State)
    requires RingOk(s.m) && s.m.producer != PIdle
    ensures exists step :: ProducerStep(step) && Enabled(s, step)
    ensures forall step :: ProducerStep(step) && Enabled(s, step) ==>
              AccessesLeft(Do(s, step).m.producer) < AccessesLeft(s.m.producer)
    ensures forall step :: !ProducerStep(step) && Enabled(s, step) ==>
              AccessesLeft(Do(s, step).m.producer) == AccessesLeft(s.m.producer)
  {
    hide Mask, Inc, RingOk;
    match s.m.producer
    case PLoaded(_, _, _) => assert ProducerStep(CheckFull) && Enabled(s, CheckFull);
    case PFilling(_, _) => assert ProducerStep(FillSlot) && Enabled(s, FillSlot);
    case PFilled(_, _) => assert ProducerStep(Publish) && Enabled(s, Publish);
  }

  // ---------------------------------------------------------------- what is accepted

  // The samples of all calls of `record`.
  ghost function Offered(steps: seq<Step>): seq<Sample> {
    if steps == [] then [] else Offered(steps[..|steps| - 1]) + if steps[|steps| - 1].Record? then [steps[|steps| - 1].sample] else []
  }

  // `at` says which call each accepted sample came from; the running call is the last one.
  ghost predicate Traced(s: State, offered: seq<Sample>, at: seq<nat>) {
    && |offered| == s.h.calls && |at| == |s.h.accepted|
    && (forall k :: 0 <= k < |at| ==> at[k] < |offered| && s.h.accepted[k] == offered[at[k]])
    && (forall k, l :: 0 <= k < l < |at| ==> at[k] < at[l])
    && (s.m.producer != PIdle ==> |offered| > 0 && s.m.producer.sample == offered[|offered| - 1]
                                  && forall k :: 0 <= k < |at| ==> at[k] < |offered| - 1)
  }

  lemma TracedStep(s: State, step: Step, offered: seq<Sample>, at: seq<nat>) returns (at': seq<nat>)
    requires Inv(s) && RingOk(s.m) && Enabled(s, step) && Traced(s, offered, at)
    ensures Traced(Do(s, step), offered + (if step.Record? then [step.sample] else []), at')
  {
    at' := if step.Publish? then at + [|offered| - 1] else at;
    hide *;
    if step.Record? {
      TracedRecord(s, step.sample, offered, at);
    } else if step.Publish? {
      TracedPublish(s, offered, at);
      assert offered + [] == offered;
    } else {
      OtherSteps(s, step);
      SameTrace(s, Do(s, step), offered, at);
      assert offered + [] == offered;
    }
  }

  lemma TracedRecord(s: State, x: Sample, offered: seq<Sample>, at: seq<nat>)
    requires RingOk(s.m) && Enabled(s, Record(x)) && Traced(s, offered, at)
    ensures Traced(Do(s, Record(x)), offered + [x], at)
  {
    hide Mask, Inc, RingOk;
  }

  lemma TracedPublish(s: State, offered: seq<Sample>, at: seq<nat>)
    requires RingOk(s.m) && Enabled(s, Publish) && Traced(s, offered, at)
    ensures |offered| > 0 && Traced(Do(s, Publish), offered, at + [|offered| - 1])
  {
    hide Mask, Inc, RingOk;
    var h, h' := s.h, Do(s, Publish).h;
    assert h'.accepted == h.accepted + [s.m.producer.sample] && h'.calls == h.calls && Do(s, Publish).m.producer == PIdle;
    hide Do;
  }

  lemma SameTrace(s: State, s': State, offered: seq<Sample>, at: seq<nat>)
    requires Traced(s, offered, at) && s'.h.calls == s.h.calls && s'.h.accepted == s.h.accepted
    requires s'.m.producer != PIdle ==> s.m.producer != PIdle && s'.m.producer.sample == s.m.producer.sample
    ensures Traced(s', offered, at)
  {
  }

  lemma OtherSteps(s: State, step: Step)
    requires RingOk(s.m) && Enabled(s, step) && !step.Record? && !step.Publish?
    ensures Do(s, step).h.calls == s.h.calls && Do(s, step).h.accepted == s.h.accepted
    ensures Do(s, step).m.producer != PIdle ==> s.m.producer != PIdle && Do(s, step).m.producer.sample == s.m.producer.sample
  {
    hide Mask, Inc, RingOk;
  }

  lemma {:induction false} TracedRun(ring: seq<Sample>, steps: seq<Step>) returns (at: seq<nat>)
    requires CapacityOk(|ring|) && IsRun(Init(ring), steps)
    ensures Traced(After(Init(ring), steps), Offered(steps), at)
    decreases |steps|
  {
    if steps == [] {
      at := [];
    } else {
      var n := |steps| - 1;
      assert steps == steps[..n] + [steps[n]];
      RunSplit(Init(ring), steps[..n], steps[n]);
      at := TracedRun(ring, steps[..n]);
      InitHasInv(ring);
      RunInv(Init(ring), steps[..n]);
      hide Inv, Enabled, Do, RingOk, Traced, CapacityOk;
      at := TracedStep(After(Init(ring), steps[..n]), steps[n], Offered(steps[..n]), at);
    }
  }

  lemma {:induction false} RunSplit(s: State, steps: seq<Step>, step: Step)
    requires IsRun(s, steps + [step])
    ensures IsRun(s, steps) && RingOk(After(s, steps).m) && Enabled(After(s, steps), step)
    ensures After(s, steps + [step]) == Do(After(s, steps), step)
    decreases |steps|
  {
    hide Enabled, Do, RingOk;
    if steps == [] {
      assert [] + [step] == [step] && [step][1..] == [];
    } else {
      assert (steps + [step])[1..] == steps[1..] + [step];
      RunSplit(Do(s, steps[0]), steps[1..], step);
    }
  }

  /** What is accepted, and so every row written, is a sample some call was given, unchanged and in the order
      of the calls. */
  lemma AcceptedAreOffered(ring: seq<Sample>, steps: seq<Step>) returns (at: seq<nat>)
    requires CapacityOk(|ring|) && IsRun(Init(ring), steps)
    ensures var accepted, offered := After(Init(ring), steps).h.accepted, Offered(steps);
            && |at| == |accepted| <= |offered|
            && (forall k :: 0 <= k < |at| ==> at[k] < |offered| && accepted[k] == offered[at[k]])
            && (forall k, l :: 0 <= k < l < |at| ==> at[k] < at[l])
  {
    at := TracedRun(ring, steps);
    InitHasInv(ring);
    RunInv(Init(ring), steps);
  }
}
