/** `MessageTranslatorNode`'s part in the replay: the callbacks of the three streams, the flag the flush thread
    sets, and the calls into `TFReplayManager`. Each method refines one step of `ReplayRace`. */
module ReplayNode {
  import opened Common
  import opened ReplayManager
  import opened ReplayRace

  class ReplayNode {
    const manager: TFReplayManager
    const enableBuffering: bool
    var bufferFlushed: bool
    var due: Option<Arrival>  // what the running callback is about to buffer

    ghost var flush: FlushPc
    ghost var sorted: Streams<seq<Message>>
    ghost var late: Option<Arrival>
    ghost var ticked: Option<int>

    ghost function Buffers(): Streams<seq<Message>>
      reads manager
    {
      Streams(manager.tf.buffer, manager.scans.buffer, manager.validations.buffer)
    }

    ghost function Cursors(): Streams<nat>
      reads manager
    {
      Streams(manager.tf.index, manager.scans.index, manager.validations.index)
    }

    ghost function View(): Race
      reads this, manager
    {
      Race(due, flush, Buffers(), Cursors(), manager.replaying, sorted, late, ticked)
    }

    ghost predicate Valid()
      reads this, manager
    {
      manager.Valid() && Inv(View()) && (bufferFlushed <==> flush != NotFlushed)
    }

    constructor (manager: TFReplayManager, enableBuffering: bool)
      requires manager.Valid() && !manager.replaying && manager.tf.buffer == manager.scans.buffer == manager.validations.buffer == []
      ensures this.manager == manager && this.enableBuffering == enableBuffering
      ensures Valid() && View() == INIT
    {
      this.manager, this.enableBuffering := manager, enableBuffering;
      bufferFlushed, due := false, None;
      flush, sorted, late, ticked := NotFlushed, NO_MESSAGES, None, None;
      new;
      InitHasInv();
    }

    // The first half of tfStampCallback, laserScanCallback and validateCallback; `empty`: a TF message
    // without transforms.
    method CallbackLook(a: Arrival, empty: bool) returns (relayed: seq<Message>)
      requires Valid() && due.None? && (empty ==> a.kind == Tf)
      modifies this
      ensures Valid()
      ensures View() == if empty || !enableBuffering then old(View()) else Do(old(View()), Look(a))
      ensures relayed == if empty || (enableBuffering && !bufferFlushed) then [] else [a.m]
    {
      if empty {
        return [];
      }
      InvStep(View(), Look(a));
      hide Inv;
      if enableBuffering && !bufferFlushed {
        due, relayed := Some(a), [];
      } else {
        relayed := [a.m];
      }
    }

    // ... and the second.
    method CallbackBuffer()
      requires Valid() && due.Some?
      modifies this, manager
      ensures Valid() && View() == Do(old(View()), Buffer)
    {
      InvStep(View(), Buffer);
      hide Inv;
      var a := due.value;
      match a.kind {
        case Tf => manager.BufferMessage(a.m);
        case Scan => manager.BufferLaserScan(a.m);
        case Validation => manager.BufferValidation(a.m);
      }
      if flush == Started {
        late := due;
      }
      due := None;
    }

    method MarkFlushed()
      requires Valid() && flush == NotFlushed
      modifies this
      ensures Valid() && View() == Do(old(View()), SetFlag)
    {
      InvStep(View(), SetFlag);
      hide Inv;
      bufferFlushed, flush := true, Flagged;
    }

    method StartReplay(now: int, replayRate: real)
      requires Valid() && flush == Flagged
      modifies this, manager
      ensures Valid() && Enabled(old(View()), Start(Buffers())) && View() == Do(old(View()), Start(Buffers()))
    {
      ghost var before := View();
      manager.StartReplay(now, replayRate);
      ghost var after := Buffers();
      SortedBuffers(before.buffers, after);
      InvStep(before, Start(after));
      hide Inv;
      flush := Started;
      if before.buffers != NO_MESSAGES {
        sorted := after;
      }
    }

    lemma SortedBuffers(before: Streams<seq<Message>>, after: Streams<seq<Message>>)
      requires SortOf(before.tf, after.tf) && SortOf(before.scans, after.scans) && SortOf(before.validations, after.validations)
      ensures forall k: Kind :: SortOf(before.Get(k), after.Get(k))
    {
    }

    // The clock does not run backwards.
    method ReplayTimer(now: int)
      requires Valid() && manager.replaying && due.None? && (ticked.Some? ==> ticked.value <= manager.ReplayTime(now))
      modifies this, manager
      ensures Valid() && View() == Do(old(View()), Tick(old(manager.ReplayTime(now))))
    {
      ghost var t := manager.ReplayTime(now);
      ghost var before := View();
      InvStep(before, Tick(t));
      hide Inv, Advance;
      manager.ReplayTimerCallback(now);
      if manager.replaying {
        ticked := Some(t);
      }
    }
  }
}
