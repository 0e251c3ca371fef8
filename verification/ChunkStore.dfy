/** Chunked pallet attributes of the Orion bridge: pushing the chunks under numbered names, reading them
    back in name order, and the sync at start that does both. */
module ChunkStore {
  import opened Common
  import opened Decimal
  import opened RectChunks

  // ---------------------------------------------------------------- attribute names

  const PREFIX := "map_obstacles_"

  function TwoDigits(i: nat): string {
    if i < 10 then "0" + ToDecimal(i) else ToDecimal(i)
  }

  function Name(i: nat): string {
    PREFIX + TwoDigits(i)
  }

  lemma NameInjective(i: nat, j: nat)
    requires Name(i) == Name(j)
    ensures i == j
  {
    assert Name(i)[|PREFIX|..] == TwoDigits(i) && Name(j)[|PREFIX|..] == TwoDigits(j);
    ValueOfDecimal(i);
    ValueOfDecimal(j);
    LeadingZero(ToDecimal(i));
    LeadingZero(ToDecimal(j));
  }

  lemma TwoDigitForm(i: nat)
    requires i < 100
    ensures TwoDigits(i) == [Digit(i / 10), Digit(i % 10)]
  {
    if i >= 10 {
      assert ToDecimal(i / 10) == [Digit(i / 10)];
      assert ToDecimal(i) == ToDecimal(i / 10) + [Digit(i % 10)];
    }
  }

  lemma NamesAscend(i: nat, j: nat)
    requires i < j < 100
    ensures Less(Name(i), Name(j))
  {
    TwoDigitForm(i);
    TwoDigitForm(j);
    SamePrefix(PREFIX, TwoDigits(i), TwoDigits(j));
    var a, b := TwoDigits(i), TwoDigits(j);
    assert a[1..] == [Digit(i % 10)] && b[1..] == [Digit(j % 10)];
  }

  function Names(n: nat): (ks: seq<string>)
    ensures |ks| == n && forall i :: 0 <= i < n ==> ks[i] == Name(i)
  {
    seq(n, i requires i >= 0 => Name(i))
  }

  lemma ElevenNotLess()
    ensures !Less(Name(11), Name(100))
  {
    SamePrefix(PREFIX, "11", "100");
    assert ToDecimal(100) == ToDecimal(10) + "0" && ToDecimal(10) == "1" + "0" && ToDecimal(11) == "11";
    assert Name(100) == PREFIX + "100" && Name(11) == PREFIX + "11";
    assert !Less("11", "100") by { assert "11"[1..] == "1" && "100"[1..] == "00"; }
  }

  /** String order and index order agree exactly up to 100 chunks. */
  lemma NamesSortedIffHundred(n: nat)
    ensures Sorted(Names(n)) <==> n <= 100
  {
    if n <= 100 {
      forall i, j | 0 <= i < j < n
        ensures Less(Names(n)[i], Names(n)[j])
      {
        NamesAscend(i, j);
      }
    } else {
      ElevenNotLess();
      assert !Less(Names(n)[11], Names(n)[100]);
    }
  }

  // ---------------------------------------------------------------- push and read back

  // An attribute's value: its count, if it has one, and its rectangles, [] if it has none.
  datatype Attribute<R> = Attribute(count: Option<int>, rectangles: seq<R>)
  type Entity<R> = map<string, Attribute<R>>

  predicate IsChunkName(k: string) {
    PREFIX <= k
  }

  // Chunk i is stored with the total under Name(i); other attributes are not touched.
  ghost predicate Pushed<R>(entity: Entity<R>, total: int, chunks: seq<seq<R>>, r: Entity<R>) {
    && (forall i :: 0 <= i < |chunks| ==> Name(i) in r && r[Name(i)] == Attribute(Some(total), chunks[i]))
    && (forall k :: k !in Names(|chunks|) ==> (k in r <==> k in entity) && (k in r ==> r[k] == entity[k]))
  }

  method PushChunks<R>(entity: Entity<R>, total: int, chunks: seq<seq<R>>) returns (r: Entity<R>)
    ensures Pushed(entity, total, chunks, r)
  {
    hide Name;
    r := entity;
    for i := 0 to |chunks|
      invariant forall j :: 0 <= j < i ==> Name(j) in r && r[Name(j)] == Attribute(Some(total), chunks[j])
      invariant forall k :: k !in Names(|chunks|) ==> (k in r <==> k in entity) && (k in r ==> r[k] == entity[k])
    {
      forall j | 0 <= j < i
        ensures Name(j) != Name(i)
      {
        if Name(j) == Name(i) { NameInjective(j, i); }
      }
      assert Names(|chunks|)[i] == Name(i);
      r := r[Name(i) := Attribute(Some(total), chunks[i])];
    }
  }

  // All attribute names in string order, as sorted() lists them.
  ghost predicate SortedKeys<R>(entity: Entity<R>, keys: seq<string>) {
    Sorted(keys) && forall k :: k in keys <==> k in entity
  }

  function ChunkKeys(keys: seq<string>): (ks: seq<string>)
    ensures forall k :: k in ks <==> k in keys && IsChunkName(k)
  {
    if keys == [] then []
    else
      assert keys == keys[..|keys| - 1] + [keys[|keys| - 1]];
      ChunkKeys(keys[..|keys| - 1]) + if IsChunkName(keys[|keys| - 1]) then [keys[|keys| - 1]] else []
  }

  function Lists<R>(entity: Entity<R>, ks: seq<string>): (cs: seq<seq<R>>)
    requires forall k :: k in ks ==> k in entity
    ensures |cs| == |ks| && forall i :: 0 <= i < |cs| ==> cs[i] == entity[ks[i]].rectangles
  {
    seq(|ks|, i requires 0 <= i < |ks| => assert ks[i] in ks; entity[ks[i]].rectangles)
  }

  // The count of the first chunk that has rectangles; a count of zero lets the next one decide.
  function FirstCount<R>(entity: Entity<R>, ks: seq<string>): int
    requires forall k :: k in ks ==> k in entity
  {
    if ks == [] then 0
    else
      var before, a := FirstCount(entity, ks[..|ks| - 1]), entity[ks[|ks| - 1]];
      if before != 0 || a.rectangles == [] then before
      else match a.count case Some(c) => c case None => |a.rectangles|
  }

  // What the sync collects: the rectangles of all chunk attributes, and the total.
  datatype Reading<R> = Reading(rectangles: seq<R>, total: int)

  function Read<R>(entity: Entity<R>, keys: seq<string>): Reading<R>
    requires forall k :: k in keys ==> k in entity
  {
    Reading(Flatten(Lists(entity, ChunkKeys(keys))), FirstCount(entity, ChunkKeys(keys)))
  }

  // The loop of `_initial_sync` over the attributes in name order.
  method Reassemble<R>(entity: Entity<R>, keys: seq<string>) returns (all: seq<R>, total: int)
    requires SortedKeys(entity, keys)
    ensures Reading(all, total) == Read(entity, keys)
  {
    all, total := [], 0;
    ReadNothing(entity);
    assert keys[..0] == [];
    hide Read, IsChunkName, Sorted;
    for i := 0 to |keys|
      invariant Reading(all, total) == Read(entity, keys[..i])
    {
      var attribute := entity[keys[i]];
      ReadNext(entity, keys[..i], keys[i]);
      assert keys[..i + 1] == keys[..i] + [keys[i]];
      if !IsChunkName(keys[i]) {
        continue;
      }
      if attribute.rectangles == [] {
        continue;
      }
      if total == 0 {
        total := match attribute.count case Some(c) => c case None => |attribute.rectangles|;
      }
      all := all + attribute.rectangles;
    }
    assert keys[..|keys|] == keys;
  }

  lemma ReadNothing<R>(entity: Entity<R>)
    ensures Read(entity, []) == Reading([], 0)
  {
  }

  lemma ReadNext<R>(entity: Entity<R>, keys: seq<string>, k: string)
    requires k in entity && forall j :: j in keys ==> j in entity
    ensures Read(entity, keys + [k]) ==
            if !IsChunkName(k) || entity[k].rectangles == [] then Read(entity, keys)
            else Reading(Read(entity, keys).rectangles + entity[k].rectangles,
                         if Read(entity, keys).total != 0 then Read(entity, keys).total
                         else match entity[k].count case Some(c) => c case None => |entity[k].rectangles|)
  {
    var ks := ChunkKeys(keys);
    assert (keys + [k])[..|keys|] == keys;
    if IsChunkName(k) {
      assert ChunkKeys(keys + [k]) == ks + [k];
      assert (ks + [k])[..|ks|] == ks;
      assert Lists(entity, ks + [k]) == Lists(entity, ks) + [entity[k].rectangles];
      FlattenSnoc(Lists(entity, ks), entity[k].rectangles);
    } else {
      assert ChunkKeys(keys + [k]) == ks;
    }
  }

  // ---------------------------------------------------------------- what is read back

  // The entity's chunk attributes are exactly Name(0), Name(1), ... with the given rectangles.
  ghost predicate Stores<R>(entity: Entity<R>, chunks: seq<seq<R>>) {
    && (forall k :: k in entity && IsChunkName(k) ==> k in Names(|chunks|))
    && (forall i :: 0 <= i < |chunks| ==> Name(i) in entity && entity[Name(i)].rectangles == chunks[i])
  }

  lemma {:induction false} ChunkKeysSorted(keys: seq<string>)
    requires Sorted(keys)
    ensures Sorted(ChunkKeys(keys))
  {
    if keys != [] {
      var init := keys[..|keys| - 1];
      ChunkKeysSorted(init);
      forall i | 0 <= i < |ChunkKeys(init)|
        ensures Less(ChunkKeys(init)[i], keys[|keys| - 1])
      {
        assert ChunkKeys(init)[i] in init;
      }
    }
  }

  // The chunk names found are exactly the names of the stored chunks.
  lemma StoredNames<R>(entity: Entity<R>, chunks: seq<seq<R>>, keys: seq<string>)
    requires Stores(entity, chunks) && SortedKeys(entity, keys)
    ensures Sorted(ChunkKeys(keys)) && forall k :: k in ChunkKeys(keys) <==> k in Names(|chunks|)
    ensures forall k :: k in Names(|chunks|) ==> k in entity
    ensures Lists(entity, Names(|chunks|)) == chunks
  {
    ChunkKeysSorted(keys);
    forall k | k in Names(|chunks|)
      ensures k in entity && IsChunkName(k)
    {
      var i :| 0 <= i < |chunks| && k == Names(|chunks|)[i];
      assert k == Name(i);
    }
  }

  /** With at most 100 chunk attributes, reading back in name order returns the list in order. */
  lemma ReadsBackInOrder<R>(entity: Entity<R>, chunks: seq<seq<R>>, keys: seq<string>)
    requires Stores(entity, chunks) && |chunks| <= 100 && SortedKeys(entity, keys)
    ensures ChunkKeys(keys) == Names(|chunks|) && Read(entity, keys).rectangles == Flatten(chunks)
  {
    StoredNames(entity, chunks, keys);
    NamesSortedIffHundred(|chunks|);
    SortedUnique(ChunkKeys(keys), Names(|chunks|));
  }

  /** However many chunks there are, every rectangle is read back as often as it was stored. */
  lemma NothingLostByName<R>(entity: Entity<R>, chunks: seq<seq<R>>, keys: seq<string>)
    requires Stores(entity, chunks) && SortedKeys(entity, keys)
    ensures multiset(Read(entity, keys).rectangles) == multiset(Flatten(chunks))
  {
    var n := |chunks|;
    StoredNames(entity, chunks, keys);
    forall i, j | 0 <= i < j < n
      ensures Names(n)[i] != Names(n)[j]
    {
      if Name(i) == Name(j) { NameInjective(i, j); }
    }
    forall i, j | 0 <= i < j < |ChunkKeys(keys)|
      ensures ChunkKeys(keys)[i] != ChunkKeys(keys)[j]
    {
      LessIrreflexive(ChunkKeys(keys)[i]);
    }
    SameNames(ChunkKeys(keys), Names(n));
    PermutedNames(entity, ChunkKeys(keys), Names(n));
  }

  ghost predicate Distinct<T>(s: seq<T>) {
    forall i, j :: 0 <= i < j < |s| ==> s[i] != s[j]
  }

  lemma {:induction false} DistinctOnce(a: seq<string>, k: string)
    requires Distinct(a)
    ensures multiset(a)[k] == if k in a then 1 else 0
  {
    if a != [] {
      var init := a[..|a| - 1];
      assert a == init + [a[|a| - 1]];
      DistinctOnce(init, k);
    }
  }

  lemma SameNames(a: seq<string>, b: seq<string>)
    requires Distinct(a) && Distinct(b) && forall k :: k in a <==> k in b
    ensures multiset(a) == multiset(b)
  {
    forall k: string
      ensures multiset(a)[k] == multiset(b)[k]
    {
      DistinctOnce(a, k);
      DistinctOnce(b, k);
    }
  }

  // The rectangles under k count the same wherever k stands.
  lemma TakenOut<R>(entity: Entity<R>, u: seq<string>, k: string, v: seq<string>)
    requires forall j :: j in u + [k] + v ==> j in entity
    ensures forall j :: j in u + v ==> j in entity
    ensures multiset(Flatten(Lists(entity, u + [k] + v))) == multiset(Flatten(Lists(entity, u + v))) + multiset(entity[k].rectangles)
  {
    assert k in u + [k] + v;
    var a, c, b := Lists(entity, u), entity[k].rectangles, Lists(entity, v);
    assert Lists(entity, u + [k] + v) == a + [c] + b;
    assert Lists(entity, u + v) == a + b;
    hide Lists, Flatten;
    FlattenSnoc(a, c);
    FlattenParts(a + [c], b);
    FlattenParts(a, b);
  }

  lemma CancelOne<T>(a: multiset<T>, b: multiset<T>, k: T)
    requires a + multiset{k} == b + multiset{k}
    ensures a == b
  {
    assert a == (a + multiset{k}) - multiset{k} && b == (b + multiset{k}) - multiset{k};
  }

  lemma RemoveOne<T>(a: seq<T>, b: seq<T>) returns (p: nat)
    requires a != [] && multiset(a) == multiset(b)
    ensures p < |b| && b[p] == a[|a| - 1] && multiset(a[..|a| - 1]) == multiset(b[..p] + b[p + 1..])
  {
    var n, k := |a| - 1, a[|a| - 1];
    assert k in multiset(b);
    p :| 0 <= p < |b| && b[p] == k;
    var init, u, v := a[..n], b[..p], b[p + 1..];
    assert multiset(a) == multiset(init) + multiset{k} by { assert a == init + [k]; }
    assert multiset(b) == multiset(u + v) + multiset{k} by { assert b == u + ([k] + v); }
    CancelOne(multiset(init), multiset(u + v), k);
  }

  lemma {:induction false} PermutedNames<R>(entity: Entity<R>, a: seq<string>, b: seq<string>)
    requires multiset(a) == multiset(b) && (forall k :: k in a ==> k in entity) && forall k :: k in b ==> k in entity
    ensures multiset(Flatten(Lists(entity, a))) == multiset(Flatten(Lists(entity, b)))
    decreases |a|
  {
    if a == [] {
      assert |multiset(b)| == 0;
    } else {
      hide Lists, Flatten;
      var p := RemoveOne(a, b);
      var init, k, u, v := a[..|a| - 1], a[|a| - 1], b[..p], b[p + 1..];
      assert a == init + [k] + [] && b == u + [k] + v && init + [] == init;
      TakenOut(entity, init, k, []);
      TakenOut(entity, u, k, v);
      PermutedNames(entity, init, u + v);
    }
  }

  // x comes somewhere before y.
  ghost predicate Before<T>(s: seq<T>, x: T, y: T) {
    exists i, j :: 0 <= i < j < |s| && s[i] == x && s[j] == y
  }

  lemma InFlatten<T>(cs: seq<seq<T>>, p: nat, x: T)
    requires p < |cs| && x in cs[p]
    ensures x in Flatten(cs)
  {
    assert cs == cs[..p] + cs[p..] && cs[p..][0] == cs[p];
    FlattenParts(cs[..p], cs[p..]);
  }

  lemma FlattenBefore<T>(cs: seq<seq<T>>, p: nat, q: nat, x: T, y: T)
    requires p < q < |cs| && x in cs[p] && y in cs[q]
    ensures Before(Flatten(cs), x, y)
  {
    assert cs == cs[..q] + cs[q..];
    FlattenParts(cs[..q], cs[q..]);
    InFlatten(cs[..q], p, x);
    InFlatten(cs[q..], 0, y);
    var i :| 0 <= i < |Flatten(cs[..q])| && Flatten(cs[..q])[i] == x;
    var j :| 0 <= j < |Flatten(cs[q..])| && Flatten(cs[q..])[j] == y;
    assert Flatten(cs)[i] == x && Flatten(cs)[|Flatten(cs[..q])| + j] == y;
  }

  // In string order chunk 100 comes before chunk 11.
  lemma HundredFirst(ks: seq<string>) returns (p: nat, q: nat)
    requires Sorted(ks) && Name(100) in ks && Name(11) in ks
    ensures p < q < |ks| && ks[p] == Name(100) && ks[q] == Name(11)
  {
    ElevenNotLess();
    if Name(11) == Name(100) { NameInjective(11, 100); }
    hide Name, Less;
    p :| 0 <= p < |ks| && ks[p] == Name(100);
    q :| 0 <= q < |ks| && ks[q] == Name(11);
  }

  // ... so its rectangles are read before.
  lemma HundredBeforeEleven<R>(entity: Entity<R>, chunks: seq<seq<R>>, keys: seq<string>, x: R, y: R)
    requires Stores(entity, chunks) && SortedKeys(entity, keys) && |chunks| > 100
    requires x in chunks[100] && y in chunks[11]
    ensures Before(Read(entity, keys).rectangles, x, y) && Before(Flatten(chunks), y, x)
  {
    StoredNames(entity, chunks, keys);
    NameListed(100, |chunks|);
    NameListed(11, |chunks|);
    var p, q := HundredFirst(ChunkKeys(keys));
    hide Name, Names, Sorted, Flatten, Before;
    FlattenBefore(Lists(entity, ChunkKeys(keys)), p, q, x, y);
    FlattenBefore(chunks, 11, 100, y, x);
  }

  /** Lists of distinct rectangles in chunks that are not empty are read back in order exactly when there
      are at most 100 chunks. */
  lemma ReadsBackIffHundred<R>(entity: Entity<R>, chunks: seq<seq<R>>, keys: seq<string>)
    requires Stores(entity, chunks) && SortedKeys(entity, keys)
    requires Distinct(Flatten(chunks)) && forall i :: 0 <= i < |chunks| ==> chunks[i] != []
    ensures Read(entity, keys).rectangles == Flatten(chunks) <==> |chunks| <= 100
  {
    if |chunks| <= 100 {
      ReadsBackInOrder(entity, chunks, keys);
    } else {
      HundredBeforeEleven(entity, chunks, keys, chunks[100][0], chunks[11][0]);
    }
  }

  /** 101 chunks of one rectangle each are not read back in order: the last comes before the twelfth. */
  lemma HundredAndOneChunks(entity: Entity<int>, chunks: seq<seq<int>>, keys: seq<string>)
    requires |chunks| == 101 && forall i :: 0 <= i < 101 ==> chunks[i] == [i]
    requires Stores(entity, chunks) && SortedKeys(entity, keys)
    ensures Before(Read(entity, keys).rectangles, 100, 11) && Read(entity, keys).rectangles != Flatten(chunks)
  {
    HundredBeforeEleven(entity, chunks, keys, 100, 11);
    SinglesFlatten(chunks);
  }

  lemma {:induction false} SinglesFlatten(chunks: seq<seq<int>>)
    requires forall i :: 0 <= i < |chunks| ==> chunks[i] == [i]
    ensures |Flatten(chunks)| == |chunks| && forall i :: 0 <= i < |chunks| ==> Flatten(chunks)[i] == i
  {
    if chunks != [] {
      var n := |chunks| - 1;
      SinglesFlatten(chunks[..n]);
      FlattenSnoc(chunks[..n], chunks[n]);
      assert chunks == chunks[..n] + [chunks[n]];
    }
  }

  // ---------------------------------------------------------------- pushing over an older push

  function Leftover<R>(before: seq<seq<R>>, chunks: seq<seq<R>>): seq<seq<R>> {
    if |before| <= |chunks| then [] else before[|chunks|..]
  }

  lemma NameListed(i: nat, n: nat)
    ensures i < n ==> Name(i) in Names(n)
  {
  }

  lemma PushedStores<R>(entity: Entity<R>, before: seq<seq<R>>, total: int, chunks: seq<seq<R>>, pushed: Entity<R>)
    requires Stores(entity, before) && Pushed(entity, total, chunks, pushed)
    ensures Stores(pushed, chunks + Leftover(before, chunks))
  {
    hide Name;
    var all := chunks + Leftover(before, chunks);
    forall k | k in pushed && IsChunkName(k)
      ensures k in Names(|all|)
    {
      if k in Names(|chunks|) {
        var i :| 0 <= i < |chunks| && k == Names(|chunks|)[i];
        assert Names(|all|)[i] == k;
      } else {
        var i :| 0 <= i < |before| && k == Names(|before|)[i];
        NameListed(i, |chunks|);
        assert Names(|all|)[i] == k;
      }
    }
    forall i | |chunks| <= i < |all|
      ensures Name(i) in pushed && pushed[Name(i)].rectangles == all[i]
    {
      if Name(i) in Names(|chunks|) {
        var j :| 0 <= j < |chunks| && Name(i) == Names(|chunks|)[j];
        NameInjective(i, j);
      }
      assert all[i] == before[i];
    }
  }

  /** Pushing does not delete: chunks of an earlier, longer push survive behind the new ones. The list
      read back is the one pushed exactly when those leftovers hold no rectangle. */
  lemma PushThenRead<R>(entity: Entity<R>, before: seq<seq<R>>, total: int, chunks: seq<seq<R>>, pushed: Entity<R>, keys: seq<string>)
    requires Stores(entity, before) && |before| <= 100 && |chunks| <= 100
    requires Pushed(entity, total, chunks, pushed) && SortedKeys(pushed, keys)
    ensures Read(pushed, keys).rectangles == Flatten(chunks) + Flatten(Leftover(before, chunks))
    ensures Read(pushed, keys).rectangles == Flatten(chunks) <==> Flatten(Leftover(before, chunks)) == []
  {
    PushedStores(entity, before, total, chunks, pushed);
    ReadsBackInOrder(pushed, chunks + Leftover(before, chunks), keys);
    hide *;
    FlattenParts(chunks, Leftover(before, chunks));
    if Read(pushed, keys).rectangles == Flatten(chunks) {
      assert |Flatten(Leftover(before, chunks))| == 0;
    }
  }

  /** The total read back is the one pushed, whatever is left over. */
  lemma TotalReadBack<R>(entity: Entity<R>, before: seq<seq<R>>, total: int, chunks: seq<seq<R>>, pushed: Entity<R>, keys: seq<string>)
    requires Stores(entity, before) && |before| <= 100 && |chunks| <= 100
    requires Pushed(entity, total, chunks, pushed) && SortedKeys(pushed, keys) && total != 0 && Flatten(chunks) != []
    ensures Read(pushed, keys).total == total
  {
    PushedStores(entity, before, total, chunks, pushed);
    ReadsBackInOrder(pushed, chunks + Leftover(before, chunks), keys);
    TotalOfNames(pushed, total, chunks, |chunks + Leftover(before, chunks)|);
  }

  lemma TotalOfNames<R>(pushed: Entity<R>, total: int, chunks: seq<seq<R>>, n: nat)
    requires |chunks| <= n && total != 0 && Flatten(chunks) != []
    requires forall i :: 0 <= i < |chunks| ==> Name(i) in pushed && pushed[Name(i)] == Attribute(Some(total), chunks[i])
    requires forall i :: 0 <= i < n ==> Name(i) in pushed
    ensures forall k :: k in Names(n) ==> k in pushed
    ensures FirstCount(pushed, Names(n)) == total
  {
    NameListedAll(pushed, n);
    NameListedAll(pushed, |chunks|);
    assert Names(n)[..|chunks|] == Names(|chunks|);
    hide Name;
    CountKept(pushed, Names(|chunks|), total, chunks);
    hide Names, Flatten, FirstCount;
    CountStays(pushed, Names(n), |chunks|);
  }

  lemma {:induction false} CountKept<R>(entity: Entity<R>, ks: seq<string>, total: int, chunks: seq<seq<R>>)
    requires |ks| == |chunks| && total != 0 && forall k :: k in ks ==> k in entity
    requires forall i :: 0 <= i < |ks| ==> ks[i] in ks && entity[ks[i]] == Attribute(Some(total), chunks[i])
    ensures FirstCount(entity, ks) == if Flatten(chunks) == [] then 0 else total
  {
    if ks != [] {
      var n := |ks| - 1;
      CountKept(entity, ks[..n], total, chunks[..n]);
      CountNext(entity, ks[..n], ks[n]);
      FlattenSnoc(chunks[..n], chunks[n]);
      hide Flatten, FirstCount;
      assert ks == ks[..n] + [ks[n]] && chunks == chunks[..n] + [chunks[n]];
    }
  }

  lemma CountNext<R>(entity: Entity<R>, ks: seq<string>, k: string)
    requires k in entity && forall j :: j in ks ==> j in entity
    ensures FirstCount(entity, ks + [k]) == var before := FirstCount(entity, ks);
            if before != 0 || entity[k].rectangles == [] then before
            else match entity[k].count case Some(c) => c case None => |entity[k].rectangles|
  {
    assert (ks + [k])[..|ks|] == ks;
  }

  lemma NameListedAll<R>(entity: Entity<R>, n: nat)
    requires forall i :: 0 <= i < n ==> Name(i) in entity
    ensures forall k :: k in Names(n) ==> k in entity
  {
  }

  lemma {:induction false} CountStays<R>(entity: Entity<R>, ks: seq<string>, n: nat)
    requires n <= |ks| && (forall k :: k in ks ==> k in entity) && FirstCount(entity, ks[..n]) != 0
    ensures FirstCount(entity, ks) == FirstCount(entity, ks[..n])
    decreases |ks|
  {
    if n == |ks| {
      assert ks[..n] == ks;
    } else {
      assert ks[..|ks| - 1][..n] == ks[..n];
      CountStays(entity, ks[..|ks| - 1], n);
    }
  }

  /** Two chunks pushed, then one: the second is still there, and the total no longer counts the list. */
  lemma LeftoverExample<R>(e: Entity<R>, e1: Entity<R>, e2: Entity<R>, keys: seq<string>, a: R, b: R, c: R)
    requires Stores<R>(e, []) && Pushed(e, 2, [[a], [b]], e1) && Pushed(e1, 1, [[c]], e2) && SortedKeys(e2, keys)
    ensures Read(e2, keys) == Reading([c, b], 1)
  {
    PushedStores(e, [], 2, [[a], [b]], e1);
    assert [[a], [b]] + Leftover([], [[a], [b]]) == [[a], [b]];
    PushThenRead(e1, [[a], [b]], 1, [[c]], e2, keys);
    assert Leftover([[a], [b]], [[c]]) == [[b]];
    FlattenSnoc([], [c]);
    FlattenSnoc([], [b]);
    assert [] + [[c]] == [[c]] && [] + [[b]] == [[b]];
    TotalReadBack(e1, [[a], [b]], 1, [[c]], e2, keys);
  }

  // ---------------------------------------------------------------- the sync at start

  /** `_initial_sync`: what is read is split anew and pushed over itself. */
  method InitialSync<R>(entity: Entity<R>, keys: seq<string>, size: R -> nat) returns (r: Entity<R>, chunks: seq<seq<R>>)
    requires SortedKeys(entity, keys)
    ensures var seen := Read(entity, keys);
            if seen.rectangles == [] then chunks == [] && r == entity
            else Flatten(chunks) == seen.rectangles && AllFit(chunks, size) && Greedy(chunks, size)
                 && Pushed(entity, seen.total, chunks, r)
  {
    var all, total := Reassemble(entity, keys);
    if all == [] {
      return entity, [];
    }
    chunks := MakeRectChunks(all, size);
    r := PushChunks(entity, total, chunks);
  }

  /** The list survives the sync exactly when the chunks it no longer needs held nothing; otherwise their
      rectangles are doubled. */
  lemma SyncThenRead<R>(entity: Entity<R>, before: seq<seq<R>>, total: int, chunks: seq<seq<R>>, synced: Entity<R>, keys: seq<string>)
    requires Stores(entity, before) && |before| <= 100 && |chunks| <= 100 && Flatten(chunks) == Flatten(before)
    requires Pushed(entity, total, chunks, synced) && SortedKeys(synced, keys)
    ensures Read(synced, keys).rectangles == Flatten(before) + Flatten(Leftover(before, chunks))
    ensures Read(synced, keys).rectangles == Flatten(before) <==> Flatten(Leftover(before, chunks)) == []
  {
    PushThenRead(entity, before, total, chunks, synced, keys);
  }

  /** A sync never needs more chunks than were stored, if those obeyed its own size rule: so it is exact on
      a stored list of such chunks, none of them empty, exactly when it needs as many. */
  lemma SyncExactIff<R>(entity: Entity<R>, before: seq<seq<R>>, total: int, chunks: seq<seq<R>>, synced: Entity<R>, keys: seq<string>, size: R -> nat)
    requires Stores(entity, before) && |before| <= 100 && before != [] && AllFit(before, size)
    requires forall i :: 0 <= i < |before| ==> before[i] != []
    requires Flatten(chunks) == Flatten(before) && Greedy(chunks, size)
    requires Pushed(entity, total, chunks, synced) && SortedKeys(synced, keys)
    ensures |chunks| <= |before|
    ensures Read(synced, keys).rectangles == Flatten(before) <==> |chunks| == |before|
  {
    NoMoreThanBefore(before, chunks, size);
    hide *;
    SyncThenRead(entity, before, total, chunks, synced, keys);
  }

  lemma NoMoreThanBefore<R>(before: seq<seq<R>>, chunks: seq<seq<R>>, size: R -> nat)
    requires before != [] && AllFit(before, size) && Flatten(chunks) == Flatten(before) && Greedy(chunks, size)
    requires forall i :: 0 <= i < |before| ==> before[i] != []
    ensures |chunks| <= |before|
    ensures Flatten(Leftover(before, chunks)) == [] <==> |chunks| == |before|
  {
    hide Fits;
    FewestChunks(Flatten(before), chunks, before, size);
    LeftoverEmptyIff(before, chunks);
  }

  lemma LeftoverEmptyIff<R>(before: seq<seq<R>>, chunks: seq<seq<R>>)
    requires forall i :: 0 <= i < |before| ==> before[i] != []
    ensures Flatten(Leftover(before, chunks)) == [] <==> |chunks| >= |before|
  {
    assert Leftover(before, chunks) != [] ==> Leftover(before, chunks)[0] != [];
  }

  /** Two chunks with room in one: after a sync the second's rectangle is read back twice. */
  lemma SyncDoubles<R>(e: Entity<R>, synced: Entity<R>, total: int, keys: seq<string>, a: R, b: R)
    requires Stores(e, [[a], [b]]) && Pushed(e, total, [[a, b]], synced) && SortedKeys(synced, keys)
    ensures Read(synced, keys).rectangles == [a, b, b]
  {
    PushThenRead(e, [[a], [b]], total, [[a, b]], synced, keys);
    assert Leftover([[a], [b]], [[a, b]]) == [[b]];
    FlattenSnoc([], [a, b]);
    FlattenSnoc([], [b]);
    assert [] + [[a, b]] == [[a, b]] && [] + [[b]] == [[b]];
  }
}
