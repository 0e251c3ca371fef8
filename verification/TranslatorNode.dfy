/** `MessageTranslatorNode`: the fields and atomic sections of the node itself.

    Each method is one section and refines one step of the state machine in `Translator`, so
    everything proved there about runs holds of any interleaving of these methods. */
module TranslatorNode {
  import opened RunningMap
  import opened Delivery
  import opened Translator

  lemma EmptyCollapse()
    ensures IsCollapse([], [])
  {
  }

  lemma TakeStep(cfg: Config, s: State, collapsed: seq<Update>)
    requires Inv(cfg, s) && s.c.flush == Claimed && IsCollapse(s.d.buffer, collapsed)
    ensures Enabled(cfg, s, Take(collapsed)) && Inv(cfg, Do(cfg, s, Take(collapsed)))
    ensures Do(cfg, s, Take(collapsed)) ==
            if s.d.buffer == [] then State(s.c.(isFlushing := false, flush := Waiting), s.d)
            else State(s.c.(flush := Delivering, lastFailed := false), TakeBatch(s.d, collapsed))
  {
    InvStep(cfg, s, Take(collapsed));
  }

  // The history fields of `Control` and `Data`.
  datatype Log = Log(lastFailed: bool, left: bool, timedOut: bool, initCount: nat, received: seq<Update>, taken: nat, settled: nat,
                     returned: seq<Update>, sent: Sent)

  class MessageTranslatorNode {
    const cfg: Config
    const enableReplay: bool
    const strategy: ServiceDeliveryStrategy

    var bufferedUpdates: seq<Update>
    var flushRequested: bool
    var isFlushing: bool
    var allGeofencesReady: bool
    var readyAgvs: set<string>
    var bufferFlushed: bool
    var initReadyPublished: bool

    // where each thread stands, with the locals it carries from one section to the next
    var node: NodePc
    var flush: FlushPc
    var updatesToSend: seq<Update>
    var allSuccess: bool

    ghost var log: Log

    ghost function View(): State
      reads this, strategy
    {
      State(Control(flushRequested, isFlushing, allGeofencesReady, readyAgvs, bufferFlushed, initReadyPublished, node, flush,
                    log.lastFailed, log.left, log.timedOut, log.initCount),
            Data(bufferedUpdates, updatesToSend, allSuccess, strategy.agvMaps, log.received, log.taken, log.settled, log.returned,
                 log.sent))
    }

    ghost predicate Valid()
      reads this, strategy
    {
      strategy.chunkSize == cfg.chunkSize && Inv(cfg, View())
    }

    constructor (cfg: Config, enableReplay: bool, strategy: ServiceDeliveryStrategy)
      requires strategy.chunkSize == cfg.chunkSize
      ensures this.cfg == cfg && this.enableReplay == enableReplay && this.strategy == strategy
      ensures Valid() && View() == Init(cfg, strategy.agvMaps)
    {
      this.cfg, this.enableReplay, this.strategy := cfg, enableReplay, strategy;
      bufferedUpdates, flushRequested, isFlushing, allGeofencesReady := [], false, false, !cfg.waitForReady;
      readyAgvs, bufferFlushed, initReadyPublished := {}, false, false;
      node, flush, updatesToSend, allSuccess := Idle, Waiting, [], false;
      log := Log(false, false, false, 0, [], 0, 0, [], Sent([], {}, {}));
      new;
      InitHasInv(cfg, strategy.agvMaps);
    }

    // ---------------------------------------------------------------- executor callbacks

    method ObstacleUpdatesCallback(parsedUpdates: seq<Update>)
      requires Valid() && node == Idle && parsedUpdates != []
      modifies this
      ensures Valid() && View() == Do(cfg, old(View()), Receive(parsedUpdates))
    {
      InvStep(cfg, View(), Receive(parsedUpdates));
      hide Inv;
      var willBuffer := cfg.enableBuffering || (cfg.waitForReady && !allGeofencesReady);
      if willBuffer || cfg.useService {
        bufferedUpdates := bufferedUpdates + parsedUpdates;
        log := log.(received := log.received + parsedUpdates);
        if !willBuffer {
          node := RequestDue;
        }
      } else {
        log := log.(left := true, sent := log.sent.(topic := log.sent.topic + parsedUpdates));  // published as it is
      }
    }

    method RequestFlush()
      requires Valid() && node == RequestDue
      modifies this
      ensures Valid() && View() == Do(cfg, old(View()), Step.RequestFlush)
    {
      InvStep(cfg, View(), Step.RequestFlush);
      hide Inv;
      flushRequested, node := true, Idle;
    }

    method GeofenceReadyCallback(agvNamespace: string, data: bool)
      requires Valid() && node == Idle && cfg.waitForReady
      modifies this
      ensures Valid() && View() == if data then Do(cfg, old(View()), Ready(agvNamespace)) else old(View())
    {
      if !data {
        return;
      }
      InvStep(cfg, View(), Ready(agvNamespace));
      hide Inv;
      if agvNamespace in readyAgvs {
        return;
      }
      readyAgvs := readyAgvs + {agvNamespace};
      if !allGeofencesReady && |readyAgvs| >= cfg.agvCount {
        allGeofencesReady, node := true, RequestDue;
      }
    }

    method GeofenceReadyTimeoutCallback()
      requires Valid() && node == Idle && cfg.waitForReady
      modifies this
      ensures Valid() && View() == Do(cfg, old(View()), ReadyTimeout)
    {
      InvStep(cfg, View(), ReadyTimeout);
      hide Inv;
      if allGeofencesReady {
        return;
      }
      allGeofencesReady, node, log := true, RequestDue, log.(timedOut := true);
    }

    method BufferTimerStart()
      requires Valid() && node == Idle && cfg.enableBuffering
      modifies this
      ensures Valid() && View() == Do(cfg, old(View()), TimerStart)
    {
      InvStep(cfg, View(), TimerStart);
      hide Inv;
      if isFlushing {
        return;
      }
      node := TimerChecked;
    }

    method BufferTimerRead(silent: bool)
      requires Valid() && node == TimerChecked
      modifies this
      ensures Valid() && View() == Do(cfg, old(View()), TimerReadBuffer(silent))
    {
      InvStep(cfg, View(), TimerReadBuffer(silent));
      hide Inv;
      node := TimerRead(bufferedUpdates != [] && silent, bufferedUpdates == []);
    }

    method BufferTimerFinish()
      requires Valid() && node.TimerRead?
      modifies this
      ensures Valid() && View() == Do(cfg, old(View()), TimerFinish)
    {
      InvStep(cfg, View(), TimerFinish);
      hide Inv;
      var shouldFlush, bufferEmpty := node.shouldFlush, node.bufferEmpty;
      node := Idle;
      if shouldFlush {
        if !cfg.waitForReady || allGeofencesReady {
          flushRequested := true;
        }
      }
      if bufferEmpty && !shouldFlush && bufferFlushed && !initReadyPublished && cfg.publishInitReady {
        initReadyPublished := true;
        log := log.(initCount := log.initCount + 1);
      }
    }

    // ---------------------------------------------------------------- the flush thread

    method FlushThreadWake()
      requires Valid() && flush == Waiting && flushRequested
      modifies this
      ensures Valid() && View() == Do(cfg, old(View()), Wake)
    {
      InvStep(cfg, View(), Wake);
      hide Inv;
      flushRequested, flush := false, Woken;
    }

    method FlushClaim()
      requires Valid() && flush == Woken
      modifies this
      ensures Valid() && View() == Do(cfg, old(View()), Claim)
      ensures isFlushing && flush == Claimed  // the guard is never found already set
    {
      InvStep(cfg, View(), Claim);
      if isFlushing {
        assert false;
      } else {
        hide Inv;
        isFlushing, flush := true, Claimed;
      }
    }

    method FlushTake()
      requires Valid() && flush == Claimed && bufferedUpdates != []
      modifies this
      ensures Valid() && IsCollapse(old(bufferedUpdates), updatesToSend)
      ensures Enabled(cfg, old(View()), Take(updatesToSend)) && View() == Do(cfg, old(View()), Take(updatesToSend))
    {
      hide *;
      var batch := Collapse(bufferedUpdates);
      TakeNow(batch);
    }

    method TakeNow(batch: seq<Update>)
      requires Valid() && flush == Claimed && bufferedUpdates != [] && IsCollapse(bufferedUpdates, batch)
      modifies this
      ensures Valid() && updatesToSend == batch
      ensures Enabled(cfg, old(View()), Take(batch)) && View() == Do(cfg, old(View()), Take(batch))
    {
      hide Inv, IsCollapse, Replay, Do, Enabled;
      TakeStep(cfg, View(), batch);
      updatesToSend, bufferedUpdates, flush := batch, [], Delivering;
      log := log.(taken := |log.received|, returned := [], lastFailed := false);
    }

    // Woken with nothing to send: the guard is dropped again.
    method FlushTakeNothing()
      requires Valid() && flush == Claimed && bufferedUpdates == []
      modifies this
      ensures Valid() && Enabled(cfg, old(View()), Take([])) && View() == Do(cfg, old(View()), Take([]))
    {
      EmptyCollapse();
      TakeStep(cfg, View(), []);
      hide Inv, IsCollapse, Replay, Do, Enabled;
      isFlushing, flush := false, Waiting;
    }

    method FlushDeliver(answers: seq<seq<Answer>>)
      requires Valid() && flush == Delivering
      requires AnswersFit(answers, |Chunks(updatesToSend, cfg.chunkSize)|, |strategy.agvMaps|)
      modifies this, strategy
      ensures Valid() && View() == Do(cfg, old(View()), Deliver(answers))
    {
      InvStep(cfg, View(), Deliver(answers));
      hide Inv, AnswersFit, AllAccepted, Chunks;
      flush, log := Answered, log.(left := true);
      if cfg.useService {
        var ok := strategy.Deliver(updatesToSend, answers);
        allSuccess, log := ok, log.(sent := Tried(log.sent, updatesToSend, ok));
      } else {
        log := log.(sent := log.sent.(topic := log.sent.topic + updatesToSend));
        allSuccess := true;
      }
    }

    // The replay is started by the first successful flush.
    method FlushSettle() returns (startReplay: bool)
      requires Valid() && flush == Answered
      modifies this
      ensures Valid() && View() == Do(cfg, old(View()), SettleFlush)
      ensures startReplay <==> enableReplay && old(allSuccess) && !old(bufferFlushed)
      ensures startReplay ==> bufferFlushed
    {
      InvStep(cfg, View(), SettleFlush);
      hide Inv;
      flush := Settled;
      startReplay := false;
      if allSuccess {
        var firstFlush := !bufferFlushed;
        bufferFlushed, log := true, log.(settled := log.taken);
        startReplay := firstFlush && enableReplay;
      } else {
        bufferedUpdates := updatesToSend + bufferedUpdates;
        log := log.(returned := updatesToSend, lastFailed := true);
      }
    }

    method FlushRelease()
      requires Valid() && flush == Settled
      modifies this
      ensures Valid() && View() == Do(cfg, old(View()), Release)
    {
      InvStep(cfg, View(), Release);
      hide Inv;
      isFlushing, flush := false, Waiting;
    }
  }
}
