/** `LatencyRecorder` itself: the buffer array and the two index words, one method per atomic access.

    Each method refines one step of `LatencyRing`, so the theorems of `LatencyRuns` hold of any
    interleaving of the producer's methods with the writer's. */
module LatencyRecorder {
  import opened Common
  import opened Bits
  import opened LatencyRing

  lemma SizeIsCapacity(size: nat)
    requires IsPow2(size) && size < WORD
    ensures CapacityOk(size) && size > 0
  {
    WordIsPow2();
    var k: nat :| size == Pow2(k);
    if k > 64 { Pow2Mono(64, k); }
  }

  class LatencyRecorder {
    const buffer: array<Sample>
    const mask: nat
    var writeIdx: nat
    var readIdx: nat
    var running: bool
    var samplesWritten: nat
    var samplesDropped: nat

    // where each thread stands, with its local variables
    var producer: Producer
    var writer: Writer

    ghost var log: History

    ghost function View(): State
      reads this, buffer
    {
      State(Machine(buffer[..], writeIdx, readIdx, running, producer, writer, samplesWritten, samplesDropped), log)
    }

    ghost predicate Valid()
      reads this, buffer
    {
      buffer.Length > 0 && mask == buffer.Length - 1 && Inv(View()) && RingOk(View().m)
    }

    // The recorder is sound for every request that is rounded up rightly, among them all up to 2^32.
    constructor (requested: nat)
      requires requested < WORD
      ensures fresh(buffer) && mask == (buffer.Length + WORD - 1) % WORD
      ensures LeastPow2From(Wanted(requested), buffer.Length) <==> RoundsRightly(requested)
      ensures requested <= 0x1_0000_0000 ==> RoundsRightly(requested)
      ensures RoundsRightly(requested) ==> Valid() && View() == Init(buffer[..])
    {
      var size := RoundUp(requested);
      var ring := new Sample[size](_ => Sample(0, 0, 0, 0, 0));
      buffer, mask := ring, (size + WORD - 1) % WORD;
      writeIdx, readIdx, running, samplesWritten, samplesDropped := 0, 0, true, 0, 0;
      producer, writer := PIdle, WStart;
      log := History([], [], 0, false, 0, 0, 0);
      new;
      if RoundsRightly(requested) {
        SizeIsCapacity(size);
        InitHasInv(buffer[..]);
      }
    }

    // ---------------------------------------------------------------- record(), step by step

    method LoadBoth(sample: Sample)
      requires Valid() && producer == PIdle && running
      modifies this
      ensures Valid() && View() == Do(old(View()), Record(sample))
    {
      InvStep(View(), Record(sample));
      hide Inv, RingOk;
      producer := PLoaded(writeIdx, readIdx, sample);
      log := log.(calls := log.calls + 1, staleRead := log.readCount);
    }

    method DropIfFull()
      requires Valid() && producer.PLoaded?
      modifies this
      ensures Valid() && View() == Do(old(View()), CheckFull)
    {
      InvStep(View(), CheckFull);
      hide Inv, RingOk;
      var writePos, readPos := producer.writePos, producer.readPos;
      if BitAnd((writePos + 1) % WORD, mask) == BitAnd(readPos, mask) {
        samplesDropped := samplesDropped + 1;
        producer := PIdle;
      } else {
        producer := PFilling(writePos, producer.sample);
      }
    }

    method StorePart(junk: Sample)
      requires Valid() && producer.PFilling?
      modifies buffer
      ensures Valid() && View() == Do(old(View()), Scribble(junk))
    {
      InvStep(View(), Scribble(junk));
      assert Mask(View().m, producer.writePos) < buffer.Length;
      hide Inv, RingOk;
      buffer[BitAnd(producer.writePos, mask)] := junk;
    }

    method StoreSample()
      requires Valid() && producer.PFilling?
      modifies this, buffer
      ensures Valid() && View() == Do(old(View()), FillSlot)
    {
      InvStep(View(), FillSlot);
      assert Mask(View().m, producer.writePos) < buffer.Length;
      hide Inv, RingOk;
      buffer[BitAnd(producer.writePos, mask)] := producer.sample;
      producer := PFilled(producer.writePos, producer.sample);
    }

    method PublishIndex()
      requires Valid() && producer.PFilled?
      modifies this
      ensures Valid() && View() == Do(old(View()), Publish)
    {
      InvStep(View(), Publish);
      hide Inv, RingOk;
      log := log.(accepted := log.accepted + [producer.sample]);
      writeIdx := (producer.writePos + 1) % WORD;
      producer := PIdle;
    }

    method RequestStop()
      requires Valid() && producer == PIdle && running
      modifies this
      ensures Valid() && View() == Do(old(View()), Stop)
    {
      InvStep(View(), Stop);
      hide Inv, RingOk;
      running := false;
    }

    // ---------------------------------------------------------------- writerLoop(), step by step

    method Reopen(ok: bool)
      requires Valid() && writer == WStart
      modifies this
      ensures Valid() && View() == Do(old(View()), OpenFile(ok))
    {
      InvStep(View(), OpenFile(ok));
      hide Inv, RingOk;
      writer := if ok then WTop else WDone;
      log := log.(fileOk := ok);
    }

    method LoopTest()
      requires Valid() && writer == WTop
      modifies this
      ensures Valid() && View() == Do(old(View()), TestRunning)
    {
      InvStep(View(), TestRunning);
      hide Inv, RingOk;
      writer := if running then WRunning else WStopping;
    }

    method LoadForDrain()
      requires Valid() && (writer == WRunning || writer == WStopping)
      modifies this
      ensures Valid() && View() == Do(old(View()), LoadIndices)
    {
      InvStep(View(), LoadIndices);
      hide Inv, RingOk;
      log := log.(snapshot := |log.accepted|);
      if writer == WRunning && readIdx == writeIdx {
        writer := WTop;
        return;
      }
      writer := WDraining(readIdx, writeIdx, writer == WStopping);
    }

    // One pass of the drain loop; `row` goes to the file.
    method WriteRow() returns (row: Sample)
      requires Valid() && writer.WDraining? && writer.current != writer.writePos
      modifies this
      ensures Valid() && View() == Do(old(View()), DrainOne)
      ensures |old(log.rows)| < |log.accepted| && row == log.accepted[|old(log.rows)|]
    {
      InvStep(View(), DrainOne);
      DrainOneStep(View());
      hide Inv, RingOk, BitAnd;
      row := buffer[BitAnd(writer.current, mask)];
      log := log.(rows := log.rows + [row]);
      samplesWritten := samplesWritten + 1;
      writer := writer.(current := (writer.current + 1) % WORD);
    }

    method ReleaseSlots()
      requires Valid() && writer.WDraining? && writer.current == writer.writePos
      modifies this
      ensures Valid() && View() == Do(old(View()), EndDrain)
    {
      InvStep(View(), EndDrain);
      hide Inv, RingOk;
      readIdx := writer.current;
      log := log.(readCount := |log.rows|);
      writer := if writer.final then WDone else WTop;
    }
  }
}
