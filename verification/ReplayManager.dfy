/** `TFReplayManager`: three buffered streams, sorted by stamp and replayed against a scaled clock.

    Stamps are nanoseconds. `std::sort` leaves the order of equal stamps open; any sorted
    permutation may come out. */
module ReplayManager {

  datatype Message = Message(stamp: int, body: string)

  // One stream: its buffer, its cursor, and what has been published from it since the start.
  datatype Stream = Stream(buffer: seq<Message>, index: nat, published: seq<Message>)

  ghost predicate Sorted(s: seq<Message>) {
    forall i, j :: 0 <= i < j < |s| ==> s[i].stamp <= s[j].stamp
  }

  ghost predicate StreamOk(st: Stream) {
    st.index <= |st.buffer| && st.published == st.buffer[..st.index]
  }

  // Insertion into a sorted list.
  function Insert(s: seq<Message>, m: Message): seq<Message> {
    if s == [] || s[|s| - 1].stamp <= m.stamp then s + [m] else Insert(s[..|s| - 1], m) + [s[|s| - 1]]
  }

  lemma {:induction false} InsertElements(s: seq<Message>, m: Message)
    ensures multiset(Insert(s, m)) == multiset(s) + multiset{m}
  {
    if !(s == [] || s[|s| - 1].stamp <= m.stamp) {
      InsertElements(s[..|s| - 1], m);
      assert s == s[..|s| - 1] + [s[|s| - 1]];
    }
  }

  lemma {:induction false} InsertSorted(s: seq<Message>, m: Message, bound: int)
    requires Sorted(s) && m.stamp <= bound && forall i :: 0 <= i < |s| ==> s[i].stamp <= bound
    ensures Sorted(Insert(s, m)) && forall i :: 0 <= i < |Insert(s, m)| ==> Insert(s, m)[i].stamp <= bound
  {
    if !(s == [] || s[|s| - 1].stamp <= m.stamp) {
      InsertSorted(s[..|s| - 1], m, s[|s| - 1].stamp);
    }
  }

  method SortByStamp(s: seq<Message>) returns (r: seq<Message>)
    ensures Sorted(r) && multiset(r) == multiset(s)
  {
    r := [];
    for i := 0 to |s|
      invariant Sorted(r) && multiset(r) == multiset(s[..i])
    {
      assert s[..i + 1] == s[..i] + [s[i]];
      InsertElements(r, s[i]);
      InsertSorted(r, s[i], if r == [] || r[|r| - 1].stamp <= s[i].stamp then s[i].stamp else r[|r| - 1].stamp);
      r := Insert(r, s[i]);
    }
    assert s[..|s|] == s;
  }

  // ---------------------------------------------------------------- one stream up to a time

  // The cursor after publishing everything up to replay time t, one message at a time.
  function Advance(s: seq<Message>, i: nat, t: int): (j: nat)
    requires i <= |s|
    ensures i <= j <= |s|
    decreases |s| - i
  {
    if i < |s| && s[i].stamp <= t then Advance(s, i + 1, t) else i
  }

  ghost predicate StopsAt(s: seq<Message>, i: nat, t: int, j: nat) {
    && i <= j <= |s|
    && (forall k :: i <= k < j ==> s[k].stamp <= t)
    && (j < |s| ==> s[j].stamp > t)
  }

  lemma {:induction false} AdvanceStops(s: seq<Message>, i: nat, t: int)
    requires i <= |s|
    ensures StopsAt(s, i, t, Advance(s, i, t))
    decreases |s| - i
  {
    if i < |s| && s[i].stamp <= t { AdvanceStops(s, i + 1, t); }
  }

  // Everything already published at an earlier tick.
  ghost predicate DueBy(s: seq<Message>, i: nat, t: int) {
    i <= |s| && forall k :: 0 <= k < i ==> s[k].stamp <= t
  }

  /** On a sorted stream the published part after a tick is exactly the messages stamped up to it. */
  lemma PublishedIsDue(s: seq<Message>, i: nat, t: int, k: nat)
    requires Sorted(s) && DueBy(s, i, t) && k < |s|
    ensures k < Advance(s, i, t) <==> s[k].stamp <= t
  {
    AdvanceStops(s, i, t);
  }

  /** A later tick continues where the earlier one stopped, as if it had run alone. */
  lemma {:induction false} TicksCompose(s: seq<Message>, i: nat, t: int, u: int)
    requires i <= |s| && t <= u
    ensures Advance(s, Advance(s, i, t), u) == Advance(s, i, u)
    decreases |s| - i
  {
    if i < |s| && s[i].stamp <= t { TicksCompose(s, i + 1, t, u); }
  }

  // ---------------------------------------------------------------- the scaled clock

  // Conversion of a real duration to whole nanoseconds drops the fraction, towards zero.
  function Truncate(x: real): int {
    if x >= 0.0 then x.Floor else -(-x).Floor
  }

  /** Truncation goes towards zero, by less than a nanosecond. */
  lemma TruncateTowardsZero(x: real)
    ensures if x >= 0.0 then 0.0 <= Truncate(x) as real <= x < Truncate(x) as real + 1.0
            else Truncate(x) as real - 1.0 < x <= Truncate(x) as real <= 0.0
  {
  }

  function Scaled(elapsed: int, rate: real): real {
    elapsed as real * rate
  }

  function ReplayTimeAt(base: int, start: int, rate: real, now: int): int {
    base + Truncate(Scaled(now - start, rate))
  }

  lemma ScaledMono(a: int, b: int, rate: real)
    requires a <= b && rate >= 0.0
    ensures Scaled(a, rate) <= Scaled(b, rate)
  {
  }

  lemma TruncateMono(x: real, y: real)
    requires x <= y
    ensures Truncate(x) <= Truncate(y)
  {
  }

  /** With a rate that is not negative, replay time never runs backwards. */
  lemma ReplayTimeMono(base: int, start: int, rate: real, a: int, b: int)
    requires a <= b && rate >= 0.0
    ensures ReplayTimeAt(base, start, rate, a) <= ReplayTimeAt(base, start, rate, b)
  {
    hide Truncate, Scaled;
    ScaledMono(a - start, b - start, rate);
    TruncateMono(Scaled(a - start, rate), Scaled(b - start, rate));
  }

  /** Comparing a stamp with the replay time is comparing its distance from the base time with the scaled time
      since the start: truncation to whole nanoseconds makes no difference. */
  lemma ReplayTimeIsClock(base: int, start: int, rate: real, now: int, stamp: int)
    requires now >= start && rate >= 0.0
    ensures stamp <= ReplayTimeAt(base, start, rate, now) <==> (stamp - base) as real <= (now - start) as real * rate
  {
    var x := Scaled(now - start, rate);
    assert x >= 0.0 by { ScaledMono(0, now - start, rate); ScaledZero(rate); }
    assert stamp - base <= x.Floor <==> (stamp - base) as real <= x;
  }

  lemma ScaledZero(rate: real)
    ensures Scaled(0, rate) == 0.0
  {
  }

  // ---------------------------------------------------------------- ticks and base time

  // What is published of a stream is exactly what is due at replay time t.
  ghost predicate ExactAt(buffer: seq<Message>, index: nat, t: int) {
    forall k: nat :: k < |buffer| ==> (k < index <==> buffer[k].stamp <= t)
  }

  method PublishUpTo(st: Stream, t: int) returns (r: Stream)
    requires StreamOk(st)
    ensures StreamOk(r) && r.buffer == st.buffer && r.index == Advance(st.buffer, st.index, t)
  {
    r := st;
    while r.index < |r.buffer|
      invariant StreamOk(r) && r.buffer == st.buffer
      invariant Advance(r.buffer, r.index, t) == Advance(st.buffer, st.index, t)
      decreases |r.buffer| - r.index
    {
      var m := r.buffer[r.index];
      if m.stamp > t {
        break;
      }
      assert r.buffer[..r.index + 1] == r.buffer[..r.index] + [m];
      r := r.(published := r.published + [m], index := r.index + 1);
    }
  }

  // One tick of one stream.
  lemma TickStream(s: seq<Message>, i: nat, t0: int, t: int)
    requires Sorted(s) && DueBy(s, i, t0) && t0 <= t
    ensures DueBy(s, Advance(s, i, t), t) && ExactAt(s, Advance(s, i, t), t)
  {
    AdvanceStops(s, i, t);
  }

  // The first stamp of a stream, if it is before t.
  function Earlier(t: int, s: seq<Message>): int {
    if s != [] && s[0].stamp < t then s[0].stamp else t
  }

  // The stamp the replay starts from: the current time only counts when there are no TF messages.
  function Base(now: int, a: seq<Message>, b: seq<Message>, c: seq<Message>): int {
    Earlier(Earlier(if a != [] then a[0].stamp else now, b), c)
  }

  method BaseTime(now: int, a: seq<Message>, b: seq<Message>, c: seq<Message>) returns (earliest: int)
    ensures earliest == Base(now, a, b, c)
  {
    earliest := now;
    if a != [] {
      earliest := a[0].stamp;
    }
    if b != [] && b[0].stamp < earliest {
      earliest := b[0].stamp;
    }
    if c != [] && c[0].stamp < earliest {
      earliest := c[0].stamp;
    }
  }

  /** The base time is never after a buffered message, and is the stamp of one whenever the first TF
      message or some message before the current time exists. */
  lemma BaseIsEarliest(now: int, a: seq<Message>, b: seq<Message>, c: seq<Message>)
    requires Sorted(a) && Sorted(b) && Sorted(c)
    ensures forall m :: m in a || m in b || m in c ==> Base(now, a, b, c) <= m.stamp
    ensures a != [] || (exists m :: (m in b || m in c) && m.stamp < now) ==>
              exists m :: (m in a || m in b || m in c) && m.stamp == Base(now, a, b, c)
    ensures a == [] && (forall m :: m in b || m in c ==> m.stamp >= now) ==> Base(now, a, b, c) == now
  {
    var base := Base(now, a, b, c);
    assert forall i :: 0 <= i < |a| ==> a[0].stamp <= a[i].stamp;
    assert forall i :: 0 <= i < |b| ==> b[0].stamp <= b[i].stamp;
    assert forall i :: 0 <= i < |c| ==> c[0].stamp <= c[i].stamp;
    if c != [] && base == c[0].stamp {
      assert c[0] in c;
    } else if b != [] && base == b[0].stamp {
      assert b[0] in b;
    } else if a != [] && base == a[0].stamp {
      assert a[0] in a;
    }
  }

  lemma SameSize(a: seq<Message>, b: seq<Message>)
    requires multiset(a) == multiset(b)
    ensures |a| == |b| && (a == [] <==> b == [])
  {
    assert |multiset(a)| == |a| && |multiset(b)| == |b|;
  }

  // ---------------------------------------------------------------- a whole replay

  // The published part after ticks at the given replay times.
  ghost function PublishedAfter(s: seq<Message>, ticks: seq<int>): nat
    ensures PublishedAfter(s, ticks) <= |s|
  {
    if ticks == [] then 0 else Advance(s, PublishedAfter(s, ticks[..|ticks| - 1]), ticks[|ticks| - 1])
  }

  ghost predicate NonDecreasing(ticks: seq<int>) {
    forall i, j :: 0 <= i < j < |ticks| ==> ticks[i] <= ticks[j]
  }

  lemma {:induction false} TicksCollapse(s: seq<Message>, ticks: seq<int>)
    requires NonDecreasing(ticks) && ticks != []
    ensures PublishedAfter(s, ticks) == Advance(s, 0, ticks[|ticks| - 1])
  {
    var n := |ticks| - 1;
    if n > 0 {
      TicksCollapse(s, ticks[..n]);
      TicksCompose(s, 0, ticks[n - 1], ticks[n]);
    } else {
      assert ticks[..0] == [];
    }
  }

  // The replay times of a list of clock readings.
  function TickTimes(base: int, start: int, rate: real, nows: seq<int>): (ticks: seq<int>)
    ensures |ticks| == |nows| && forall i :: 0 <= i < |ticks| ==> ticks[i] == ReplayTimeAt(base, start, rate, nows[i])
  {
    seq(|nows|, i requires 0 <= i < |nows| => ReplayTimeAt(base, start, rate, nows[i]))
  }

  /** Over any non-decreasing clock, what a sorted stream has published is exactly what the last tick
      made due: each such message once, in stamp order, and no other. */
  lemma ReplayExact(s: seq<Message>, base: int, start: int, rate: real, nows: seq<int>)
    requires Sorted(s) && rate >= 0.0 && NonDecreasing(nows) && nows != []
    ensures ExactAt(s, PublishedAfter(s, TickTimes(base, start, rate, nows)), ReplayTimeAt(base, start, rate, nows[|nows| - 1]))
  {
    var ticks := TickTimes(base, start, rate, nows);
    hide ReplayTimeAt;
    forall i, j | 0 <= i < j < |ticks|
      ensures ticks[i] <= ticks[j]
    {
      ReplayTimeMono(base, start, rate, nows[i], nows[j]);
    }
    TicksCollapse(s, ticks);
    forall k: nat | k < |s|
      ensures k < PublishedAfter(s, ticks) <==> s[k].stamp <= ticks[|ticks| - 1]
    {
      PublishedIsDue(s, 0, ticks[|ticks| - 1], k);
    }
  }

  /** A stream is exhausted exactly when the clock has passed its last stamp. */
  lemma ReplayCompletes(s: seq<Message>, base: int, start: int, rate: real, nows: seq<int>)
    requires Sorted(s) && rate >= 0.0 && NonDecreasing(nows) && nows != []
    ensures PublishedAfter(s, TickTimes(base, start, rate, nows)) == |s| <==>
            forall m :: m in s ==> m.stamp <= ReplayTimeAt(base, start, rate, nows[|nows| - 1])
  {
    hide ReplayTimeAt;
    ReplayExact(s, base, start, rate, nows);
    var n := PublishedAfter(s, TickTimes(base, start, rate, nows));
    if n < |s| {
      assert s[n] in s;
    }
  }

  /** Over any non-decreasing clock from the start on, a message has been published exactly when, by the clock
      alone, its distance from the base time has passed at the given rate. */
  lemma ReplayFollowsClock(s: seq<Message>, base: int, start: int, rate: real, nows: seq<int>, k: nat)
    requires Sorted(s) && rate >= 0.0 && NonDecreasing(nows) && nows != [] && nows[0] >= start && k < |s|
    ensures k < PublishedAfter(s, TickTimes(base, start, rate, nows)) <==>
            (s[k].stamp - base) as real <= Scaled(nows[|nows| - 1] - start, rate)
  {
    var last := nows[|nows| - 1];
    assert last >= start by { assert |nows| > 1 ==> nows[0] <= last; }
    ReplayExact(s, base, start, rate, nows);
    hide *;
    ScaledClock(base, start, rate, last, s[k].stamp);
  }

  lemma ScaledClock(base: int, start: int, rate: real, now: int, stamp: int)
    requires now >= start && rate >= 0.0
    ensures stamp <= ReplayTimeAt(base, start, rate, now) <==> (stamp - base) as real <= Scaled(now - start, rate)
  {
    ReplayTimeIsClock(base, start, rate, now, stamp);
  }

  // ---------------------------------------------------------------- a late message

  // A callback that had seen the flush still pending buffers its message after the sort, behind the
  // sorted stream. The stream is at cursor i, and has published nothing ahead of time t0.

  /** A later tick is exact exactly when the late message is not due yet, or everything before it is. */
  lemma LateAtTick(s: seq<Message>, i: nat, t0: int, m: Message, t: int)
    requires Sorted(s) && DueBy(s, i, t0) && t >= t0
    ensures i <= |s + [m]|
    ensures ExactAt(s + [m], Advance(s + [m], i, t), t) <==>
            m.stamp > t || forall k :: i <= k < |s| ==> s[k].stamp <= t
  {
    var b := s + [m];
    AdvanceStops(b, i, t);
    var j := Advance(b, i, t);
    hide Advance;
    assert b[|s|] == m && forall k :: 0 <= k < |s| ==> b[k] == s[k];
    if j == |b| {
      assert forall k :: i <= k < |s| ==> b[k].stamp <= t;
    } else if j == |s| {
      assert m.stamp > t;
    } else {
      assert s[j].stamp > t;
      assert |s| >= j;
      if m.stamp <= t {
        assert !(|s| < j) && b[|s|].stamp <= t;
      }
    }
  }

  /** Every later tick is exact exactly when nothing still to be published is later than both the late
      message and the last tick. */
  lemma LateMessage(s: seq<Message>, i: nat, t0: int, m: Message)
    requires Sorted(s) && DueBy(s, i, t0)
    ensures i <= |s + [m]|
    ensures (forall t :: t >= t0 ==> ExactAt(s + [m], Advance(s + [m], i, t), t)) <==>
            forall k :: i <= k < |s| ==> s[k].stamp <= t0 || s[k].stamp <= m.stamp
  {
    hide ExactAt, Advance, DueBy, Sorted;
    var worst := if m.stamp > t0 then m.stamp else t0;
    LateAtTick(s, i, t0, m, worst);
    if forall k :: i <= k < |s| ==> s[k].stamp <= t0 || s[k].stamp <= m.stamp {
      forall t | t >= t0
        ensures ExactAt(s + [m], Advance(s + [m], i, t), t)
      {
        LateAtTick(s, i, t0, m, t);
      }
    }
  }

  // ---------------------------------------------------------------- the manager

  class TFReplayManager {
    var tf: Stream
    var scans: Stream
    var validations: Stream
    var rate: real
    var startTime: int
    var baseTime: int
    var replaying: bool
    ghost var lastNow: int  // the clock at the latest tick

    ghost predicate Valid()
      reads this
    {
      StreamOk(tf) && StreamOk(scans) && StreamOk(validations)
    }

    // All three streams in stamp order, and nothing published ahead of the clock.
    ghost predicate InOrder()
      reads this
    {
      && Sorted(tf.buffer) && Sorted(scans.buffer) && Sorted(validations.buffer)
      && DueBy(tf.buffer, tf.index, ReplayTime(lastNow)) && DueBy(scans.buffer, scans.index, ReplayTime(lastNow))
      && DueBy(validations.buffer, validations.index, ReplayTime(lastNow))
      && lastNow >= startTime
    }

    // What a stream has published is what is due by the clock.
    ghost predicate FollowsClock(st: Stream, now: int)
      reads this
    {
      forall k: nat :: k < |st.buffer| ==>
                         (k < st.index <==> (st.buffer[k].stamp - baseTime) as real <= (now - startTime) as real * rate)
    }

    constructor ()
      ensures Valid() && InOrder() && !replaying && tf.buffer == scans.buffer == validations.buffer == []
    {
      tf, scans, validations := Stream([], 0, []), Stream([], 0, []), Stream([], 0, []);
      rate, startTime, baseTime, replaying, lastNow := 1.0, 0, 0, false, 0;
    }

    method BufferMessage(m: Message)
      requires Valid()
      modifies this`tf
      ensures Valid() && tf == old(tf).(buffer := old(tf).buffer + [m])
    {
      tf := tf.(buffer := tf.buffer + [m]);
    }

    method BufferLaserScan(m: Message)
      requires Valid()
      modifies this`scans
      ensures Valid() && scans == old(scans).(buffer := old(scans).buffer + [m])
    {
      scans := scans.(buffer := scans.buffer + [m]);
    }

    method BufferValidation(m: Message)
      requires Valid()
      modifies this`validations
      ensures Valid() && validations == old(validations).(buffer := old(validations).buffer + [m])
    {
      validations := validations.(buffer := validations.buffer + [m]);
    }

    /** Sorts all three streams, rewinds the cursors, and takes the earliest stamp as the base time. */
    method StartReplay(now: int, replayRate: real)
      requires Valid()
      modifies this
      ensures Valid()
      ensures if old(tf).buffer == old(scans).buffer == old(validations).buffer == []
              then tf == old(tf) && scans == old(scans) && validations == old(validations) && replaying == old(replaying)
              else replaying && InOrder() && lastNow == startTime == now && rate == replayRate
                   && tf.index == scans.index == validations.index == 0
      ensures multiset(tf.buffer) == multiset(old(tf).buffer) && multiset(scans.buffer) == multiset(old(scans).buffer)
      ensures multiset(validations.buffer) == multiset(old(validations).buffer)
      ensures replaying && !old(replaying) ==> baseTime == Base(now, tf.buffer, scans.buffer, validations.buffer)
    {
      if |tf.buffer| + |scans.buffer| + |validations.buffer| == 0 {
        return;
      }
      var a := SortByStamp(tf.buffer);
      var b := SortByStamp(scans.buffer);
      var c := SortByStamp(validations.buffer);
      SameSize(a, tf.buffer);
      SameSize(b, scans.buffer);
      SameSize(c, validations.buffer);
      tf, scans, validations := Stream(a, 0, []), Stream(b, 0, []), Stream(c, 0, []);
      rate, startTime := replayRate, now;
      var earliest := BaseTime(now, a, b, c);
      hide Base, Sorted;
      baseTime, replaying, lastNow := earliest, true, now;
    }

    function ReplayTime(now: int): int
      reads this
    {
      ReplayTimeAt(baseTime, startTime, rate, now)
    }

    ghost predicate AllDone()
      reads this
    {
      tf.index == |tf.buffer| && scans.index == |scans.buffer| && validations.index == |validations.buffer|
    }

    /** One timer tick. The replay ends only when all three streams are exhausted; otherwise each one
        publishes what has become due, and no message twice. */
    method ReplayTimerCallback(now: int)
      requires Valid() && replaying
      modifies this
      ensures Valid()
      ensures replaying <==> !old(AllDone())
      ensures !replaying ==> tf.buffer == scans.buffer == validations.buffer == []
      ensures replaying ==>
                && tf.buffer == old(tf).buffer && tf.index == Advance(old(tf).buffer, old(tf).index, old(ReplayTime(now)))
                && scans.buffer == old(scans).buffer && scans.index == Advance(old(scans).buffer, old(scans).index, old(ReplayTime(now)))
                && validations.buffer == old(validations).buffer
                && validations.index == Advance(old(validations).buffer, old(validations).index, old(ReplayTime(now)))
      ensures rate == old(rate) && baseTime == old(baseTime) && startTime == old(startTime)
      ensures replaying && old(InOrder()) && rate >= 0.0 && now >= old(lastNow) ==>
                && InOrder() && lastNow == now
                && ExactAt(tf.buffer, tf.index, ReplayTime(now)) && ExactAt(scans.buffer, scans.index, ReplayTime(now))
                && ExactAt(validations.buffer, validations.index, ReplayTime(now))
                && FollowsClock(tf, now) && FollowsClock(scans, now) && FollowsClock(validations, now)
    {
      if tf.index >= |tf.buffer| && scans.index >= |scans.buffer| && validations.index >= |validations.buffer| {
        replaying := false;
        tf, scans, validations := Stream([], 0, []), Stream([], 0, []), Stream([], 0, []);
        return;
      }
      var t := ReplayTime(now);
      if InOrder() && rate >= 0.0 && now >= lastNow {
        ReplayTimeMono(baseTime, startTime, rate, lastNow, now);
        TickStream(tf.buffer, tf.index, ReplayTime(lastNow), t);
        TickStream(scans.buffer, scans.index, ReplayTime(lastNow), t);
        TickStream(validations.buffer, validations.index, ReplayTime(lastNow), t);
      }
      hide ReplayTimeAt, Advance, DueBy, ExactAt, Sorted;
      var a := PublishUpTo(tf, t);
      var b := PublishUpTo(scans, t);
      var c := PublishUpTo(validations, t);
      tf, scans, validations := a, b, c;
      lastNow := now;
      if rate >= 0.0 && now >= startTime {
        ExactFollowsClock(tf, now);
        ExactFollowsClock(scans, now);
        ExactFollowsClock(validations, now);
      }
    }

    lemma ExactFollowsClock(st: Stream, now: int)
      requires rate >= 0.0 && now >= startTime
      ensures ExactAt(st.buffer, st.index, ReplayTime(now)) <==> FollowsClock(st, now)
    {
      hide ReplayTimeAt;
      forall k: nat | k < |st.buffer|
        ensures st.buffer[k].stamp <= ReplayTime(now) <==>
                (st.buffer[k].stamp - baseTime) as real <= (now - startTime) as real * rate
      {
        ReplayTimeIsClock(baseTime, startTime, rate, now, st.buffer[k].stamp);
      }
    }
  }
}
