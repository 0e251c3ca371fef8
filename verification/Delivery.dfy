/** `ServiceDeliveryStrategy`: a batch goes out in chunks, each chunk to every AGV.

    What an AGV answers is the environment's choice. A request that timed out or was rejected may
    still have applied a prefix of its chunk by the time of the next attempt. */
module Delivery {
  import opened Common
  import opened RunningMap
  import opened DivMod

  datatype Answer = Unavailable | Accepted | Failed(applied: nat)

  // The map of one AGV after one request.
  function AfterAnswer(m: ObstacleMap, chunk: seq<Update>, a: Answer): ObstacleMap {
    match a
    case Unavailable => m
    case Accepted => Replay(m, chunk)
    case Failed(n) => Replay(m, chunk[..if n < |chunk| then n else |chunk|])
  }

  // The map of one AGV after a list of chunks, in order.
  function AfterChunks(m: ObstacleMap, chunks: seq<seq<Update>>, answers: seq<Answer>): ObstacleMap
    requires |answers| == |chunks|
  {
    if chunks == [] then m
    else
      var n := |chunks| - 1;
      AfterAnswer(AfterChunks(m, chunks[..n], answers[..n]), chunks[n], answers[n])
  }

  function Chunks(us: seq<Update>, size: int): (cs: seq<seq<Update>>)
    ensures |cs| > 0
    decreases |us|
  {
    if size <= 0 || |us| <= size then [us] else [us[..size]] + Chunks(us[size..], size)
  }

  // Row c of the answers is chunk c, column i is AGV i.
  ghost predicate AnswersFit(answers: seq<seq<Answer>>, chunks: nat, agvs: nat) {
    |answers| == chunks && forall c :: 0 <= c < |answers| ==> |answers[c]| == agvs
  }

  function Column(answers: seq<seq<Answer>>, i: nat): (col: seq<Answer>)
    requires forall c :: 0 <= c < |answers| ==> i < |answers[c]|
    ensures |col| == |answers| && forall c :: 0 <= c < |col| ==> col[c] == answers[c][i]
  {
    seq(|answers|, c requires 0 <= c < |answers| => answers[c][i])
  }

  ghost predicate RowAccepted(row: seq<Answer>) {
    forall i :: 0 <= i < |row| ==> row[i] == Accepted
  }

  ghost predicate AllAccepted(answers: seq<seq<Answer>>) {
    forall c :: 0 <= c < |answers| ==> RowAccepted(answers[c])
  }

  // The maps of all AGVs after delivering `us`.
  ghost function AfterDelivery(maps: seq<ObstacleMap>, us: seq<Update>, size: int, answers: seq<seq<Answer>>): (r: seq<ObstacleMap>)
    requires AnswersFit(answers, |Chunks(us, size)|, |maps|)
    ensures |r| == |maps|
    ensures forall i :: 0 <= i < |r| ==> r[i] == AfterChunks(maps[i], Chunks(us, size), Column(answers, i))
  {
    seq(|maps|, i requires 0 <= i < |maps| => AfterChunks(maps[i], Chunks(us, size), Column(answers, i)))
  }

  lemma OneMoreChunk(m: ObstacleMap, chunks: seq<seq<Update>>, answers: seq<Answer>, c: nat)
    requires |answers| == |chunks| && c < |chunks|
    ensures AfterChunks(m, chunks[..c + 1], answers[..c + 1])
            == AfterAnswer(AfterChunks(m, chunks[..c], answers[..c]), chunks[c], answers[c])
  {
    assert chunks[..c + 1][..c] == chunks[..c] && answers[..c + 1][..c] == answers[..c];
  }

  lemma WholeList(chunks: seq<seq<Update>>, answers: seq<Answer>)
    requires |answers| == |chunks|
    ensures chunks[..|chunks|] == chunks && answers[..|chunks|] == answers
  {
  }

  // ---------------------------------------------------------------- the chunks

  lemma {:induction false} ChunkCount(us: seq<Update>, size: int)
    requires size > 0 && |us| > 0
    ensures |Chunks(us, size)| == (|us| + size - 1) / size
    decreases |us|
  {
    if |us| > size {
      ChunkCount(us[size..], size);
      DivStep(|us| + size - 1, size);
    } else {
      DivModUnique(|us| + size - 1, size, 1, |us| - 1);
    }
  }

  /** Chunk c is the slice the index loop cuts. */
  lemma {:induction false} ChunkAt(us: seq<Update>, size: int, c: nat)
    requires size > 0 && c < |Chunks(us, size)|
    ensures 0 <= c * size <= |us|
    ensures Chunks(us, size)[c] == us[c * size..if c * size + size < |us| then c * size + size else |us|]
    decreases c
  {
    if c > 0 {
      ChunkAt(us[size..], size, c - 1);
      assert c * size == (c - 1) * size + size;
    }
  }

  /** The chunks partition the batch in order, and none is over the chunk size. */
  lemma {:induction false} ChunksPartition(us: seq<Update>, size: int)
    ensures Flatten(Chunks(us, size)) == us
    ensures size > 0 ==> forall c :: 0 <= c < |Chunks(us, size)| ==> |Chunks(us, size)[c]| <= size
    decreases |us|
  {
    if size <= 0 || |us| <= size {
      assert [us][1..] == [];
    } else {
      var rest := Chunks(us[size..], size);
      assert ([us[..size]] + rest)[1..] == rest;
      ChunksPartition(us[size..], size);
    }
  }

  // ---------------------------------------------------------------- what an AGV ends up with

  lemma {:induction false} AcceptedChunks(m: ObstacleMap, chunks: seq<seq<Update>>, answers: seq<Answer>)
    requires |answers| == |chunks| && RowAccepted(answers)
    ensures AfterChunks(m, chunks, answers) == Replay(m, Flatten(chunks))
  {
    if chunks != [] {
      var n := |chunks| - 1;
      AcceptedChunks(m, chunks[..n], answers[..n]);
      FlattenSnoc(chunks[..n], chunks[n]);
      assert chunks[..n] + [chunks[n]] == chunks;
      ReplayConcat(m, Flatten(chunks[..n]), chunks[n]);
    }
  }

  /** A delivery reported as successful has replayed the whole batch on every AGV. */
  lemma SuccessReplaysBatch(maps: seq<ObstacleMap>, us: seq<Update>, size: int, answers: seq<seq<Answer>>, i: nat)
    requires AnswersFit(answers, |Chunks(us, size)|, |maps|) && AllAccepted(answers) && i < |maps|
    ensures AfterDelivery(maps, us, size, answers)[i] == Replay(maps[i], us)
  {
    forall c | 0 <= c < |answers|
      ensures Column(answers, i)[c] == Accepted
    {
      assert RowAccepted(answers[c]);
    }
    AcceptedChunks(maps[i], Chunks(us, size), Column(answers, i));
    ChunksPartition(us, size);
  }

  // Key k of m' is as in m, or carries the geometry some INSERT of `us` gives it.
  ghost predicate KeyBetween(m: ObstacleMap, us: seq<Update>, m': ObstacleMap, k: ObstacleId) {
    || ((k in m' <==> k in m) && (k in m ==> m'[k] == m[k]))
    || (k in m' && exists j :: 0 <= j < |us| && us[j].id == k && us[j].geometry == m'[k])
  }

  lemma {:induction false} ReplayBetween(m: ObstacleMap, us: seq<Update>, k: ObstacleId)
    requires InsertsOnly(us)
    ensures KeyBetween(m, us, Replay(m, us), k)
  {
    if us != [] {
      var init := us[..|us| - 1];
      ReplayBetween(m, init, k);
      BetweenMore(m, init, [us[|us| - 1]], Replay(m, init), k);
      assert init + [us[|us| - 1]] == us;
      if us[|us| - 1].id == k {
        assert Replay(m, us)[k] == us[|us| - 1].geometry;
      }
    }
  }

  lemma BetweenMore(m: ObstacleMap, us: seq<Update>, more: seq<Update>, m': ObstacleMap, k: ObstacleId)
    requires KeyBetween(m, us, m', k)
    ensures KeyBetween(m, us + more, m', k)
  {
    if j :| 0 <= j < |us| && us[j].id == k && k in m' && us[j].geometry == m'[k] {
      assert (us + more)[j] == us[j];
    }
  }

  lemma BetweenThen(m: ObstacleMap, us: seq<Update>, m': ObstacleMap, chunk: seq<Update>, m'': ObstacleMap, k: ObstacleId)
    requires KeyBetween(m, us, m', k) && KeyBetween(m', chunk, m'', k)
    ensures KeyBetween(m, us + chunk, m'', k)
  {
    BetweenMore(m, us, chunk, m', k);
    if j :| 0 <= j < |chunk| && chunk[j].id == k && k in m'' && chunk[j].geometry == m''[k] {
      assert (us + chunk)[|us| + j] == chunk[j];
    }
  }

  lemma AnswerBetween(m: ObstacleMap, chunk: seq<Update>, a: Answer, k: ObstacleId)
    requires InsertsOnly(chunk)
    ensures KeyBetween(m, chunk, AfterAnswer(m, chunk, a), k)
  {
    var part := match a
      case Unavailable => []
      case Accepted => chunk
      case Failed(n) => chunk[..if n < |chunk| then n else |chunk|];
    ReplayBetween(m, part, k);
    BetweenMore(m, part, chunk[|part|..], Replay(m, part), k);
    assert part + chunk[|part|..] == chunk;
  }

  lemma InsertsOnlyParts(us: seq<Update>, more: seq<Update>)
    requires InsertsOnly(us + more)
    ensures InsertsOnly(us) && InsertsOnly(more)
  {
    assert forall i :: 0 <= i < |us| ==> us[i] == (us + more)[i];
    assert forall i :: 0 <= i < |more| ==> more[i] == (us + more)[|us| + i];
  }

  lemma {:induction false} ChunksBetween(m: ObstacleMap, chunks: seq<seq<Update>>, answers: seq<Answer>, k: ObstacleId)
    requires |answers| == |chunks| && InsertsOnly(Flatten(chunks))
    ensures KeyBetween(m, Flatten(chunks), AfterChunks(m, chunks, answers), k)
  {
    hide KeyBetween, InsertsOnly, AfterAnswer;
    if chunks != [] {
      var n := |chunks| - 1;
      var before, chunk := Flatten(chunks[..n]), chunks[n];
      FlattenSnoc(chunks[..n], chunk);
      assert chunks[..n] + [chunk] == chunks;
      InsertsOnlyParts(before, chunk);
      ChunksBetween(m, chunks[..n], answers[..n], k);
      var m' := AfterChunks(m, chunks[..n], answers[..n]);
      AnswerBetween(m', chunk, answers[n], k);
      BetweenThen(m, before, m', chunk, AfterAnswer(m', chunk, answers[n]), k);
    } else {
      NothingBetween(m, k);
    }
  }

  lemma NothingBetween(m: ObstacleMap, k: ObstacleId)
    ensures KeyBetween(m, [], m, k)
  {
  }

  /** Whatever the AGVs answer, an attempt leaves each key as it was or with its new geometry. */
  lemma AttemptBetween(maps: seq<ObstacleMap>, us: seq<Update>, size: int, answers: seq<seq<Answer>>, i: nat, k: ObstacleId)
    requires AnswersFit(answers, |Chunks(us, size)|, |maps|) && InsertsOnly(us) && i < |maps|
    ensures KeyBetween(maps[i], us, AfterDelivery(maps, us, size, answers)[i], k)
  {
    ChunksPartition(us, size);
    ChunksBetween(maps[i], Chunks(us, size), Column(answers, i), k);
  }

  // ---------------------------------------------------------------- one key, exactly

  // How many updates of a chunk an answer has applied.
  function AppliedCount(a: Answer, chunk: nat): nat {
    match a
    case Unavailable => 0
    case Accepted => chunk
    case Failed(n) => if n < chunk then n else chunk
  }

  // Key k of m' is as in m.
  ghost predicate KeyKept(m: ObstacleMap, m': ObstacleMap, k: ObstacleId) {
    (k in m' <==> k in m) && (k in m ==> m'[k] == m[k])
  }

  lemma AnswerIsPart(m: ObstacleMap, chunk: seq<Update>, a: Answer)
    ensures AfterAnswer(m, chunk, a) == Replay(m, chunk[..AppliedCount(a, |chunk|)])
  {
    assert chunk[..|chunk|] == chunk && chunk[..0] == [];
  }

  lemma AnswerKeeps(m: ObstacleMap, chunk: seq<Update>, a: Answer, k: ObstacleId)
    requires forall p :: 0 <= p < AppliedCount(a, |chunk|) ==> chunk[p].id != k
    ensures KeyKept(m, AfterAnswer(m, chunk, a), k)
  {
    var part := chunk[..AppliedCount(a, |chunk|)];
    UntouchedKept(m, part, k);
    AnswerIsPart(m, chunk, a);
  }

  lemma AnswerLands(m: ObstacleMap, chunk: seq<Update>, a: Answer, p: nat)
    requires InsertsOnly(chunk) && DistinctIds(chunk) && p < AppliedCount(a, |chunk|)
    ensures chunk[p].id in AfterAnswer(m, chunk, a) && AfterAnswer(m, chunk, a)[chunk[p].id] == chunk[p].geometry
  {
    var part := chunk[..AppliedCount(a, |chunk|)];
    assert LastAt(part, part[p].id, p);
    LastDecides(m, part, part[p].id, p);
    AnswerIsPart(m, chunk, a);
  }

  // Chunks before and after the one that holds key k leave it alone.
  lemma {:induction false} ChunksKeep(m: ObstacleMap, chunks: seq<seq<Update>>, answers: seq<Answer>, c: nat, n: nat, k: ObstacleId)
    requires |answers| == |chunks| && c <= n <= |chunks|
    requires forall d, p :: c <= d < n && 0 <= p < |chunks[d]| ==> chunks[d][p].id != k
    ensures KeyKept(AfterChunks(m, chunks[..c], answers[..c]), AfterChunks(m, chunks[..n], answers[..n]), k)
    decreases n
  {
    if c < n {
      ChunksKeep(m, chunks, answers, c, n - 1, k);
      OneMoreChunk(m, chunks, answers, n - 1);
      AnswerKeeps(AfterChunks(m, chunks[..n - 1], answers[..n - 1]), chunks[n - 1], answers[n - 1], k);
    }
  }

  // Where update j stands: in which chunk, and where in it.
  function ChunkOf(size: int, j: nat): (nat, nat) {
    if size <= 0 then (0, j) else (j / size, j % size)
  }

  lemma {:induction false} ChunkHolds(us: seq<Update>, size: int, j: nat)
    requires j < |us|
    ensures var (c, p) := ChunkOf(size, j);
            c < |Chunks(us, size)| && p < |Chunks(us, size)[c]| && Chunks(us, size)[c][p] == us[j]
    decreases |us|
  {
    if size > 0 && j < size {
      DivModUnique(j, size, 0, j);
    } else if size > 0 {
      ChunkHolds(us[size..], size, j - size);
      NextChunk(j, size);
      assert us[size..][j - size] == us[j];
    }
  }

  lemma NextChunk(j: nat, size: int)
    requires 0 < size <= j
    ensures ChunkOf(size, j) == (ChunkOf(size, j - size).0 + 1, ChunkOf(size, j - size).1)
  {
    var q, r := (j - size) / size, (j - size) % size;
    assert j - size == size * q + r;
    assert size * (q + 1) == size * q + size;
    DivModUnique(j, size, q + 1, r);
  }

  // Each chunk holds only updates of its own places in the batch.
  lemma ChunkFrom(us: seq<Update>, size: int, d: nat, p: nat) returns (j: nat)
    requires d < |Chunks(us, size)| && p < |Chunks(us, size)[d]|
    ensures j < |us| && us[j] == Chunks(us, size)[d][p] && ChunkOf(size, j) == (d, p)
  {
    if size <= 0 {
      j := p;
    } else {
      ChunkAt(us, size, d);
      ChunksPartition(us, size);
      j := d * size + p;
      assert d * size == size * d;
      if p < size {
        DivModUnique(j, size, d, p);
      }
    }
  }

  /** Key by key, an attempt is exact: update j reaches AGV i when its chunk was accepted, or had been applied
      that far when it failed; otherwise the key is as before, whatever became of the other chunks. */
  lemma DeliveryByKey(maps: seq<ObstacleMap>, us: seq<Update>, size: int, answers: seq<seq<Answer>>, i: nat, j: nat)
    requires AnswersFit(answers, |Chunks(us, size)|, |maps|) && InsertsOnly(us) && DistinctIds(us) && i < |maps| && j < |us|
    ensures var (c, p) := ChunkOf(size, j);
            && c < |answers|
            && var m', a, k := AfterDelivery(maps, us, size, answers)[i], answers[c][i], us[j].id;
               if a == Accepted || (a.Failed? && p < a.applied)
               then k in m' && m'[k] == us[j].geometry
               else (k in m' <==> k in maps[i]) && (k in maps[i] ==> m'[k] == maps[i][k])
  {
    var chunks: seq<seq<Update>>, col, k, m := Chunks(us, size), Column(answers, i), us[j].id, maps[i];
    var (c, p) := ChunkOf(size, j);
    ChunkHolds(us, size, j);
    forall d, q | 0 <= d < |chunks| && 0 <= q < |chunks[d]| && chunks[d][q].id == k
      ensures d == c && q == p
    {
      var j' := ChunkFrom(us, size, d, q);
    }
    hide Chunks, ChunkOf, AfterAnswer, Column;
    ChunksKeep(m, chunks, col, 0, c, k);
    assert chunks[..0] == [] && col[..0] == [];
    var before := AfterChunks(m, chunks[..c], col[..c]);
    OneMoreChunk(m, chunks, col, c);
    ChunksKeep(m, chunks, col, c + 1, |chunks|, k);
    WholeList(chunks, col);
    if p < AppliedCount(col[c], |chunks[c]|) {
      PartOfBatch(us, size, c);
      AnswerLands(before, chunks[c], col[c], p);
    } else {
      AnswerKeeps(before, chunks[c], col[c], k);
    }
    hide AfterChunks;
  }

  lemma PartOfBatch(us: seq<Update>, size: int, c: nat)
    requires InsertsOnly(us) && DistinctIds(us) && c < |Chunks(us, size)|
    ensures InsertsOnly(Chunks(us, size)[c]) && DistinctIds(Chunks(us, size)[c])
  {
    if size > 0 {
      ChunkAt(us, size, c);
    }
  }

  // ---------------------------------------------------------------- the service

  class ServiceDeliveryStrategy {
    const chunkSize: int
    var agvMaps: seq<ObstacleMap>  // the maps behind the AGVs' update_map services

    constructor (chunkSize: int, agvMaps: seq<ObstacleMap>)
      ensures this.chunkSize == chunkSize && this.agvMaps == agvMaps
    {
      this.chunkSize, this.agvMaps := chunkSize, agvMaps;
    }

    method DeliverChunk(updates: seq<Update>, answers: seq<Answer>) returns (ok: bool)
      requires |answers| == |agvMaps|
      modifies this
      ensures |agvMaps| == |old(agvMaps)|
      ensures forall i :: 0 <= i < |agvMaps| ==> agvMaps[i] == AfterAnswer(old(agvMaps)[i], updates, answers[i])
      ensures ok <==> RowAccepted(answers)
    {
      var allAvailable := true;
      for i := 0 to |answers|
        invariant |agvMaps| == |old(agvMaps)|
        invariant forall j :: 0 <= j < |agvMaps| ==>
                                agvMaps[j] == if j < i then AfterAnswer(old(agvMaps)[j], updates, answers[j]) else old(agvMaps)[j]
        invariant allAvailable <==> forall j :: 0 <= j < i ==> answers[j] != Unavailable
      {
        if answers[i] == Unavailable {
          allAvailable := false;
        } else {
          agvMaps := agvMaps[i := AfterAnswer(agvMaps[i], updates, answers[i])];
        }
      }
      if !allAvailable {
        return false;
      }
      ok := true;
      for i := 0 to |answers|
        invariant ok <==> forall j :: 0 <= j < i ==> answers[j] == Accepted
      {
        if answers[i] != Accepted {
          ok := false;
        }
      }
    }

    method Deliver(updates: seq<Update>, answers: seq<seq<Answer>>) returns (ok: bool)
      requires AnswersFit(answers, |Chunks(updates, chunkSize)|, |agvMaps|)
      modifies this
      ensures agvMaps == AfterDelivery(old(agvMaps), updates, chunkSize, answers)
      ensures ok <==> AllAccepted(answers)
    {
      var count := |updates|;
      ghost var chunks := Chunks(updates, chunkSize);
      if chunkSize <= 0 || count <= chunkSize {
        ok := DeliverChunk(updates, answers[0]);
        forall i | 0 <= i < |agvMaps|
          ensures agvMaps[i] == AfterChunks(old(agvMaps)[i], chunks, Column(answers, i))
        {
          OneMoreChunk(old(agvMaps)[i], chunks, Column(answers, i), 0);
          WholeList(chunks, Column(answers, i));
        }
        return;
      }
      var totalChunks := (count + chunkSize - 1) / chunkSize;
      ChunkCount(updates, chunkSize);
      hide AfterChunks, AfterAnswer, RowAccepted, Chunks, Column;
      ok := true;
      for c := 0 to totalChunks
        invariant |agvMaps| == |old(agvMaps)|
        invariant forall i :: 0 <= i < |agvMaps| ==>
                                agvMaps[i] == AfterChunks(old(agvMaps)[i], chunks[..c], Column(answers, i)[..c])
        invariant ok <==> forall j :: 0 <= j < c ==> RowAccepted(answers[j])
      {
        ChunkAt(updates, chunkSize, c);
        var start := c * chunkSize;
        var end := if start + chunkSize < count then start + chunkSize else count;
        ghost var before := agvMaps;
        var chunkOk := DeliverChunk(updates[start..end], answers[c]);
        forall i | 0 <= i < |agvMaps|
          ensures agvMaps[i] == AfterChunks(old(agvMaps)[i], chunks[..c + 1], Column(answers, i)[..c + 1])
        {
          OneMoreChunk(old(agvMaps)[i], chunks, Column(answers, i), c);
        }
        if !chunkOk {
          ok := false;
        }
      }
      forall i | 0 <= i < |agvMaps|
        ensures agvMaps[i] == AfterChunks(old(agvMaps)[i], chunks, Column(answers, i))
      {
        WholeList(chunks, Column(answers, i));
      }
    }
  }
}
