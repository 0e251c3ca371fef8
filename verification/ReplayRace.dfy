/** The start of the replay against the callbacks that fill its streams, as a state machine.

    A callback looks at the flush flag and then buffers or relays, in two steps; the flush thread sets the
    flag and starts the replay, in two steps of its own. Callbacks and the replay timer run on one executor
    and exclude one another. Buffering and replay are enabled. */
module ReplayRace {
  import opened Common
  import opened ReplayManager

  datatype Kind = Tf | Scan | Validation

  datatype Streams<T> = Streams(tf: T, scans: T, validations: T) {
    function Get(k: Kind): T {
      match k case Tf => tf case Scan => scans case Validation => validations
    }

    function Set(k: Kind, x: T): (r: Streams<T>)
      ensures r.Get(k) == x && forall j :: j != k ==> r.Get(j) == Get(j)
    {
      match k case Tf => this.(tf := x) case Scan => this.(scans := x) case Validation => this.(validations := x)
    }
  }

  const NO_MESSAGES: Streams<seq<Message>> := Streams([], [], [])
  const AT_START: Streams<nat> := Streams(0, 0, 0)

  datatype Arrival = Arrival(kind: Kind, m: Message)

  datatype FlushPc =
    | NotFlushed
    | Flagged  // buffer_flushed_ set, startReplay not yet run
    | Started  // startReplay has run

  datatype Race = Race(
    due: Option<Arrival>,  // a callback has seen no flush and is about to buffer this
    flush: FlushPc,
    buffers: Streams<seq<Message>>,
    cursors: Streams<nat>,
    replaying: bool,
    // history
    sorted: Streams<seq<Message>>,  // the buffers as the sort left them
    late: Option<Arrival>,          // what was buffered after the sort
    ticked: Option<int>)            // the replay time of the latest tick

  const INIT := Race(None, NotFlushed, NO_MESSAGES, AT_START, false, NO_MESSAGES, None, None)

  datatype Step =
    | Look(a: Arrival)  // a callback reads the flag, and relays if it is set
    | Buffer            // ... or goes on to buffer its message
    | SetFlag
    | Start(sorted: Streams<seq<Message>>)
    | Tick(t: int)

  ghost predicate SortOf(s: seq<Message>, r: seq<Message>) {
    Sorted(r) && multiset(r) == multiset(s)
  }

  ghost predicate Enabled(s: Race, step: Step) {
    match step
    case Look(_) => s.due.None?
    case Buffer => s.due.Some?
    case SetFlag => s.flush == NotFlushed
    case Start(sorted) => s.flush == Flagged && forall k: Kind :: SortOf(s.buffers.Get(k), sorted.Get(k))
    case Tick(t) => s.replaying && s.due.None? && (s.ticked.Some? ==> s.ticked.value <= t)
  }

  function Moved(s: seq<Message>, i: nat, t: int): nat {
    if i <= |s| then Advance(s, i, t) else i
  }

  predicate AllDone(s: Race) {
    s.cursors.tf >= |s.buffers.tf| && s.cursors.scans >= |s.buffers.scans| && s.cursors.validations >= |s.buffers.validations|
  }

  ghost function Do(s: Race, step: Step): Race
    requires Enabled(s, step)
  {
    match step
    case Look(a) => if s.flush == NotFlushed then s.(due := Some(a)) else s
    case Buffer =>
      var a := s.due.value;
      s.(due := None, buffers := s.buffers.Set(a.kind, s.buffers.Get(a.kind) + [a.m]), late := if s.flush == Started then s.due else s.late)
    case SetFlag => s.(flush := Flagged)
    case Start(sorted) =>
      if s.buffers == NO_MESSAGES then s.(flush := Started)
      else s.(flush := Started, buffers := sorted, cursors := AT_START, replaying := true, sorted := sorted)
    case Tick(t) =>
      if AllDone(s) then s.(replaying := false, buffers := NO_MESSAGES, cursors := AT_START)
      else s.(cursors := Streams(Moved(s.buffers.tf, s.cursors.tf, t), Moved(s.buffers.scans, s.cursors.scans, t),
                                 Moved(s.buffers.validations, s.cursors.validations, t)),
              ticked := Some(t))
  }

  ghost predicate IsRun(start: Race, steps: seq<Step>)
    decreases |steps|
  {
    steps == [] || (Enabled(start, steps[0]) && IsRun(Do(start, steps[0]), steps[1..]))
  }

  ghost function After(start: Race, steps: seq<Step>): Race
    requires IsRun(start, steps)
    decreases |steps|
  {
    if steps == [] then start else After(Do(start, steps[0]), steps[1..])
  }

  // ---------------------------------------------------------------- the invariant

  // What stands behind the sorted part of stream k.
  function LatePart(late: Option<Arrival>, k: Kind): seq<Message> {
    if late.Some? && late.value.kind == k then [late.value.m] else []
  }

  function CursorAt(buffer: seq<Message>, ticked: Option<int>): nat {
    if ticked.None? then 0 else Advance(buffer, 0, ticked.value)
  }

  // Stream k holds its sorted messages and then the late one, and has been published up to the last tick.
  ghost predicate StreamInv(s: Race, k: Kind) {
    && Sorted(s.sorted.Get(k))
    && s.buffers.Get(k) == s.sorted.Get(k) + LatePart(s.late, k)
    && s.cursors.Get(k) == CursorAt(s.buffers.Get(k), s.ticked)
  }

  ghost predicate Inv(s: Race) {
    && (s.due.Some? ==> s.late.None? && s.ticked.None?)
    && (s.flush != Started ==> !s.replaying && s.late.None? && s.ticked.None?)
    && (!s.replaying && s.ticked.None? ==> s.cursors == AT_START && s.sorted == NO_MESSAGES)
    && (s.replaying && s.ticked.None? ==> s.buffers != NO_MESSAGES)
    && (s.flush == Started && (s.replaying || s.ticked.None?) ==> forall k: Kind :: StreamInv(s, k))
  }

  lemma InitHasInv()
    ensures Inv(INIT)
  {
  }

  lemma BufferStep(s: Race)
    requires Inv(s) && s.due.Some?
    ensures Inv(Do(s, Buffer))
  {
    hide Sorted;
    var s' := Do(s, Buffer);
    forall k: Kind | s.flush == Started
      ensures StreamInv(s', k)
    {
      assert StreamInv(s, k);
      assert s'.buffers.Get(k) == s'.sorted.Get(k) + LatePart(s'.late, k);
    }
  }

  lemma NotDone(s: Race)
    requires s.cursors == AT_START && s.buffers != NO_MESSAGES
    ensures !AllDone(s)
  {
  }

  lemma StartStep(s: Race, sorted: Streams<seq<Message>>)
    requires Inv(s) && Enabled(s, Start(sorted))
    ensures Inv(Do(s, Start(sorted)))
  {
    var s' := Do(s, Start(sorted));
    forall k: Kind
      ensures StreamInv(s', k)
    {
      assert SortOf(s.buffers.Get(k), sorted.Get(k));
      assert s'.buffers.Get(k) == s'.sorted.Get(k) + LatePart(s'.late, k);
    }
    if s.buffers != NO_MESSAGES {
      SameSize(s.buffers.tf, sorted.Get(Tf));
      SameSize(s.buffers.scans, sorted.Get(Scan));
      SameSize(s.buffers.validations, sorted.Get(Validation));
    }
  }

  // A tick goes on as if it had published everything itself.
  lemma TickCursor(buffer: seq<Message>, ticked: Option<int>, t: int)
    requires ticked.Some? ==> ticked.value <= t
    ensures Moved(buffer, CursorAt(buffer, ticked), t) == CursorAt(buffer, Some(t))
  {
    if ticked.Some? {
      TicksCompose(buffer, 0, ticked.value, t);
    }
  }

  lemma TickStep(s: Race, t: int)
    requires Inv(s) && Enabled(s, Tick(t))
    ensures Inv(Do(s, Tick(t)))
  {
    hide Sorted, Advance, CursorAt, Moved;
    var s' := Do(s, Tick(t));
    assert StreamInv(s, Tf) && StreamInv(s, Scan) && StreamInv(s, Validation);
    TickCursor(s.buffers.tf, s.ticked, t);
    TickCursor(s.buffers.scans, s.ticked, t);
    TickCursor(s.buffers.validations, s.ticked, t);
    if s.ticked.None? {
      assert s.cursors == AT_START by { hide *; FirstCursor(s); }
      NotDone(s);
    }
    if !AllDone(s) {
      forall k: Kind
        ensures StreamInv(s', k)
      {
        match k case Tf => case Scan => case Validation =>
      }
    }
  }

  lemma FirstCursor(s: Race)
    requires s.ticked.None? && forall k: Kind :: StreamInv(s, k)
    ensures s.cursors == AT_START
  {
    assert StreamInv(s, Tf) && StreamInv(s, Scan) && StreamInv(s, Validation);
  }

  /** Every step of the callbacks, the timer and the flush thread keeps the invariant. */
  lemma InvStep(s: Race, step: Step)
    requires Inv(s) && Enabled(s, step)
    ensures Inv(Do(s, step))
  {
    match step
    case Look(a) => LookStep(s, a);
    case Buffer => BufferStep(s);
    case SetFlag => FlagStep(s);
    case Start(sorted) => StartStep(s, sorted);
    case Tick(t) => TickStep(s, t);
  }

  lemma LookStep(s: Race, a: Arrival)
    requires Inv(s) && s.due.None?
    ensures Inv(Do(s, Look(a)))
  {
  }

  lemma FlagStep(s: Race)
    requires Inv(s) && s.flush == NotFlushed
    ensures Inv(Do(s, SetFlag))
  {
  }

  lemma {:induction false} RunInv(s: Race, steps: seq<Step>)
    requires Inv(s) && IsRun(s, steps)
    ensures Inv(After(s, steps))
    decreases |steps|
  {
    hide Inv, Enabled, Do;
    if steps != [] {
      InvStep(s, steps[0]);
      RunInv(Do(s, steps[0]), steps[1..]);
    }
  }

  // ---------------------------------------------------------------- what every run keeps

  /** At most one message is ever buffered after the sort, and only before the first tick; it stands behind
      the sorted ones of its stream, and every other stream is as the sort left it. */
  lemma OneLateMessage(steps: seq<Step>, k: Kind)
    requires IsRun(INIT, steps)
    ensures var s := After(INIT, steps);
            && (s.flush == Started && s.due.Some? ==> s.late.None? && s.ticked.None?)
            && (s.flush == Started && (s.replaying || s.ticked.None?) ==>
                  Sorted(s.sorted.Get(k)) && s.buffers.Get(k) == s.sorted.Get(k) + LatePart(s.late, k))
  {
    InitHasInv();
    RunInv(INIT, steps);
    OneLate(After(INIT, steps), k);
  }

  lemma OneLate(s: Race, k: Kind)
    requires Inv(s)
    ensures s.flush == Started && (s.replaying || s.ticked.None?) ==>
              Sorted(s.sorted.Get(k)) && s.buffers.Get(k) == s.sorted.Get(k) + LatePart(s.late, k)
  {
    hide Sorted;
    if s.flush == Started && (s.replaying || s.ticked.None?) {
      assert StreamInv(s, k);
    }
  }

  // Nothing late in this stream, or nothing it could hold up at time t.
  ghost predicate Unharmed(s: Race, k: Kind, t: int) {
    LatePart(s.late, k) == [] || s.late.value.m.stamp > t || forall i :: 0 <= i < |s.sorted.Get(k)| ==> s.sorted.Get(k)[i].stamp <= t
  }

  /** In every run, what a stream has published by the latest tick is exactly what was due unless a late
      message was due while an older stream message was not. */
  lemma RunExactIff(steps: seq<Step>, k: Kind)
    requires IsRun(INIT, steps)
    requires After(INIT, steps).replaying && After(INIT, steps).ticked.Some?
    ensures var s := After(INIT, steps);
            ExactAt(s.buffers.Get(k), s.cursors.Get(k), s.ticked.value) <==> Unharmed(s, k, s.ticked.value)
  {
    InitHasInv();
    hide Inv;
    RunInv(INIT, steps);
    StateExactIff(After(INIT, steps), k, After(INIT, steps).ticked.value);
  }

  lemma StateExactIff(s: Race, k: Kind, t: int)
    requires Inv(s) && s.replaying && s.ticked == Some(t)
    ensures ExactAt(s.buffers.Get(k), s.cursors.Get(k), t) <==> Unharmed(s, k, t)
  {
    assert StreamInv(s, k);
    hide Sorted, ExactAt, Advance;
    PrefixExactIff(s.sorted.Get(k), s.late, k, t);
  }

  lemma PrefixExactIff(sorted: seq<Message>, late: Option<Arrival>, k: Kind, t: int)
    requires Sorted(sorted)
    ensures ExactAt(sorted + LatePart(late, k), Advance(sorted + LatePart(late, k), 0, t), t) <==>
            LatePart(late, k) == [] || late.value.m.stamp > t || forall i :: 0 <= i < |sorted| ==> sorted[i].stamp <= t
  {
    if LatePart(late, k) == [] {
      assert sorted + [] == sorted;
      TickStream(sorted, 0, t, t);
    } else {
      LateAtTick(sorted, 0, t, late.value.m, t);
    }
  }

  /** Before the first tick the whole replay can be judged: every tick of a stream will be exact exactly when
      the stream has no late message or no sorted one is later than it. */
  lemma ReplayRightIff(steps: seq<Step>, k: Kind)
    requires IsRun(INIT, steps)
    requires var s := After(INIT, steps); s.replaying && s.ticked.None? && s.due.None?
    ensures var s := After(INIT, steps);
            (forall t :: ExactAt(s.buffers.Get(k), Do(s, Tick(t)).cursors.Get(k), t)) <==>
            LatePart(s.late, k) == [] || forall i :: 0 <= i < |s.sorted.Get(k)| ==> s.sorted.Get(k)[i].stamp <= s.late.value.m.stamp
  {
    InitHasInv();
    hide Inv;
    RunInv(INIT, steps);
    FirstTickRightIff(After(INIT, steps), k);
  }

  lemma FirstTickRightIff(s: Race, k: Kind)
    requires Inv(s) && s.replaying && s.ticked.None? && s.due.None?
    ensures (forall t :: ExactAt(s.buffers.Get(k), Do(s, Tick(t)).cursors.Get(k), t)) <==>
            LatePart(s.late, k) == [] || forall i :: 0 <= i < |s.sorted.Get(k)| ==> s.sorted.Get(k)[i].stamp <= s.late.value.m.stamp
  {
    FirstCursor(s);
    NotDone(s);
    forall t
      ensures ExactAt(s.buffers.Get(k), Do(s, Tick(t)).cursors.Get(k), t) <==> Unharmed(s, k, t)
    {
      TickStep(s, t);
      hide Inv;
      StateExactIff(Do(s, Tick(t)), k, t);
    }
    hide Inv, ExactAt;
    if LatePart(s.late, k) != [] {
      assert Unharmed(s, k, s.late.value.m.stamp) ==> forall i :: 0 <= i < |s.sorted.Get(k)| ==> s.sorted.Get(k)[i].stamp <= s.late.value.m.stamp;
    }
  }

  // ---------------------------------------------------------------- nothing to sort

  // startReplay found nothing to replay, and no callback is under way.
  ghost predicate Passed(s: Race) {
    s.flush == Started && !s.replaying && s.ticked.None? && s.due.None?
  }

  /** When the sort found nothing, there is no replay, and a late message is never published. */
  lemma {:induction false} StuckForever(s: Race, steps: seq<Step>)
    requires Passed(s) && IsRun(s, steps)
    ensures After(s, steps) == s
    decreases |steps|
  {
    if steps != [] {
      StuckForever(Do(s, steps[0]), steps[1..]);
    }
  }

  // ---------------------------------------------------------------- runs

  lemma {:induction false} RunSnoc(s: Race, steps: seq<Step>, step: Step)
    requires IsRun(s, steps) && Enabled(After(s, steps), step)
    ensures IsRun(s, steps + [step]) && After(s, steps + [step]) == Do(After(s, steps), step)
    decreases |steps|
  {
    hide Enabled, Do;
    if steps == [] {
      assert [] + [step] == [step] && [step][1..] == [];
    } else {
      RunSnoc(Do(s, steps[0]), steps[1..], step);
      assert (steps + [step])[1..] == steps[1..] + [step];
    }
  }

  lemma GoOn(steps: seq<Step>, s: Race, step: Step) returns (steps': seq<Step>, s': Race)
    requires IsRun(INIT, steps) && After(INIT, steps) == s && Enabled(s, step)
    ensures IsRun(INIT, steps') && After(INIT, steps') == s' && s' == Do(s, step)
  {
    RunSnoc(INIT, steps, step);
    steps', s' := steps + [step], Do(s, step);
  }

  // A callback buffers a TF message before any flush.
  lemma BufferTf(steps: seq<Step>, s: Race, m: Message) returns (steps': seq<Step>, s': Race)
    requires IsRun(INIT, steps) && After(INIT, steps) == s && s.due.None? && s.flush == NotFlushed
    ensures IsRun(INIT, steps') && After(INIT, steps') == s' && s' == s.(buffers := s.buffers.(tf := s.buffers.tf + [m]))
  {
    hide IsRun, After;
    steps', s' := GoOn(steps, s, Look(Arrival(Tf, m)));
    steps', s' := GoOn(steps', s', Buffer);
  }

  // A callback has seen no flush; the flush thread starts the replay, and then the callback buffers.
  lemma LateTf(steps: seq<Step>, s: Race, m: Message, r: seq<Message>) returns (steps': seq<Step>, s': Race)
    requires IsRun(INIT, steps) && After(INIT, steps) == s && s.due.None? && s.flush == NotFlushed
    requires s.buffers.tf != [] && s.buffers.scans == s.buffers.validations == [] && SortOf(s.buffers.tf, r)
    ensures IsRun(INIT, steps') && After(INIT, steps') == s'
    ensures s' == Race(None, Started, Streams(r + [m], [], []), AT_START, true, Streams(r, [], []), Some(Arrival(Tf, m)), s.ticked)
  {
    assert SortOf([], []);
    hide IsRun, After, Sorted, SortOf;
    steps', s' := GoOn(steps, s, Look(Arrival(Tf, m)));
    steps', s' := GoOn(steps', s', SetFlag);
    steps', s' := GoOn(steps', s', Start(Streams(r, [], [])));
    steps', s' := GoOn(steps', s', Buffer);
  }

  /** Two messages are buffered and a third comes late; at time 8 it is due and has not been published. */
  lemma LateRun(x: string) returns (steps: seq<Step>)
    ensures IsRun(INIT, steps)
    ensures var s := After(INIT, steps);
            && s.replaying && s.ticked == Some(8) && s.late == Some(Arrival(Tf, Message(7, x)))
            && s.buffers.tf == [Message(5, x), Message(9, x), Message(7, x)] && s.cursors.tf == 1
            && !ExactAt(s.buffers.tf, s.cursors.tf, 8)
  {
    var a, b, c := Message(5, x), Message(9, x), Message(7, x);
    var s;
    EmptyRun();
    HeldUp(a, b, c, 8);
    InStampOrder(a, b);
    hide *;
    steps, s := BufferTf([], INIT, b);
    steps, s := BufferTf(steps, s, a);
    assert s.buffers.tf == [b, a];
    steps, s := LateTf(steps, s, c, [a, b]);
    assert [a, b] + [c] == [a, b, c];
    TickDo(s, 8);
    steps, s := GoOn(steps, s, Tick(8));
  }

  lemma InStampOrder(a: Message, b: Message)
    requires a.stamp <= b.stamp
    ensures SortOf([b, a], [a, b])
  {
    assert multiset([b, a]) == multiset([a, b]);
  }

  // The second message is not due and holds up the third, which is.
  lemma HeldUp(a: Message, b: Message, c: Message, t: int)
    requires a.stamp <= t < b.stamp && c.stamp <= t
    ensures Advance([a, b, c], 0, t) == 1 && !ExactAt([a, b, c], 1, t)
  {
    assert Advance([a, b, c], 1, t) == 1;
    assert [a, b, c][2].stamp <= t;
  }

  lemma TickDo(s: Race, t: int)
    requires s.replaying && s.due.None? && s.ticked.None? && s.cursors == AT_START && s.buffers.tf != []
    ensures Enabled(s, Tick(t)) && Do(s, Tick(t)) == s.(cursors := Do(s, Tick(t)).cursors, ticked := Some(t))
    ensures Do(s, Tick(t)).cursors.tf == Advance(s.buffers.tf, 0, t)
  {
    hide Advance;
  }

  lemma EmptyRun()
    ensures IsRun(INIT, []) && After(INIT, []) == INIT
  {
  }

  /** The only message of a run, buffered late, is never published. */
  lemma StuckRun(m: Message) returns (steps: seq<Step>)
    ensures IsRun(INIT, steps)
    ensures var s := After(INIT, steps); Passed(s) && s.late == Some(Arrival(Tf, m)) && s.buffers.tf == [m] && s.cursors.tf == 0
  {
    var s;
    hide IsRun, After;
    assert IsRun(INIT, []) && After(INIT, []) == INIT by { EmptyRun(); }
    steps, s := GoOn([], INIT, Look(Arrival(Tf, m)));
    steps, s := GoOn(steps, s, SetFlag);
    assert forall k: Kind :: NO_MESSAGES.Get(k) == [];
    steps, s := GoOn(steps, s, Start(NO_MESSAGES));
    steps, s := GoOn(steps, s, Buffer);
  }
}
