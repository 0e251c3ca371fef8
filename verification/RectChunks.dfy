/** Chunked pallet attributes of the Orion bridge: the greedy size-bounded split, and the text written
    for a chunk. A rectangle's serialised length is a parameter. */
module RectChunks {
  import opened Common
  import opened Decimal

  const LIMIT := 1850
  const OVERHEAD := 30  // length of {"count":9999,"rectangles":[]}

  function Total<R>(s: seq<R>, size: R -> nat): nat {
    if s == [] then 0 else Total(s[..|s| - 1], size) + size(s[|s| - 1])
  }

  // The code's own size count of a chunk: overhead, elements, and a comma between elements.
  function Bytes<R>(chunk: seq<R>, size: R -> nat): nat {
    OVERHEAD + Total(chunk, size) + if chunk == [] then 0 else |chunk| - 1
  }

  ghost predicate Fits<R>(chunk: seq<R>, size: R -> nat) {
    |chunk| >= 2 ==> Bytes(chunk, size) <= LIMIT
  }

  ghost predicate AllFit<R>(cs: seq<seq<R>>, size: R -> nat) {
    forall i :: 0 <= i < |cs| ==> Fits(cs[i], size)
  }

  // No chunk has room for the first element of the next one.
  ghost predicate Greedy<R>(cs: seq<seq<R>>, size: R -> nat) {
    && (forall i :: 0 <= i < |cs| ==> cs[i] != [])
    && (forall i :: 0 < i < |cs| ==> !Fits(cs[i - 1] + [cs[i][0]], size))
  }

  /** The greedy split: nothing lost or reordered, every chunk within the limit or a single
      rectangle, none of the chunks empty except for the empty input. */
  method MakeRectChunks<R>(rectangles: seq<R>, size: R -> nat) returns (chunks: seq<seq<R>>)
    ensures Flatten(chunks) == rectangles && AllFit(chunks, size)
    ensures if rectangles == [] then chunks == [[]] else Greedy(chunks, size)
  {
    if rectangles == [] {
      chunks := [[]];
      FlattenSnoc<R>([], []);
      assert [] + chunks == chunks;
      return;
    }
    chunks := [];
    var current: seq<R> := [];
    var currentBytes: nat := OVERHEAD;
    SplitStart(size);
    assert rectangles[..0] == [];
    hide Splitting, Flatten, Greedy, AllFit, Bytes;
    for k := 0 to |rectangles|
      invariant Splitting(chunks, current, currentBytes, rectangles[..k], size)
      invariant current == [] <==> k == 0
    {
      var rect := rectangles[k];
      var extra := size(rect) + if current != [] then 1 else 0;
      SplitNext(chunks, current, currentBytes, rectangles[..k], rect, size);
      assert rectangles[..k + 1] == rectangles[..k] + [rect];
      if current != [] && currentBytes + extra > LIMIT {
        chunks := chunks + [current];
        current := [rect];
        currentBytes := OVERHEAD + size(rect);
      } else {
        current := current + [rect];
        currentBytes := currentBytes + extra;
      }
    }
    assert rectangles[..|rectangles|] == rectangles;
    SplitEnd(chunks, current, currentBytes, rectangles, size);
    chunks := chunks + [current];
  }

  // The finished chunks and the open one hold `done`, with the size of the open one in `bytes`.
  ghost predicate Splitting<R>(chunks: seq<seq<R>>, current: seq<R>, bytes: nat, done: seq<R>, size: R -> nat) {
    && Flatten(chunks) + current == done
    && AllFit(chunks, size) && Fits(current, size) && bytes == Bytes(current, size)
    && (current == [] ==> chunks == [])
    && Greedy(chunks + (if current == [] then [] else [current]), size)
  }

  lemma SplitStart<R>(size: R -> nat)
    ensures Splitting([], [], OVERHEAD, [], size)
  {
  }

  // Both branches of the loop.
  lemma SplitNext<R>(chunks: seq<seq<R>>, current: seq<R>, bytes: nat, done: seq<R>, r: R, size: R -> nat)
    requires Splitting(chunks, current, bytes, done, size)
    ensures var extra := size(r) + if current != [] then 1 else 0;
            if current != [] && bytes + extra > LIMIT
            then Splitting(chunks + [current], [r], OVERHEAD + size(r), done + [r], size)
            else Splitting(chunks, current + [r], bytes + extra, done + [r], size)
  {
    FitsSnoc(chunks, current, r, size);
    FitsSnoc(chunks, [], r, size);
    assert [] + [r] == [r];
    assert done + [r] == Flatten(chunks) + (current + [r]) == (Flatten(chunks) + current) + [r];
    hide Fits, Bytes, AllFit;
    FlattenSnoc(chunks, current);
    hide Flatten;
    if current != [] && !Fits(current + [r], size) {
      GreedyNext(chunks, current, r, size);
    } else {
      GreedyGrow(chunks, current, r, size);
    }
  }

  lemma SplitEnd<R>(chunks: seq<seq<R>>, current: seq<R>, bytes: nat, done: seq<R>, size: R -> nat)
    requires Splitting(chunks, current, bytes, done, size) && current != []
    ensures Flatten(chunks + [current]) == done && AllFit(chunks + [current], size) && Greedy(chunks + [current], size)
  {
    FlattenSnoc(chunks, current);
    FitsSnoc(chunks, current, current[0], size);
  }

  // The branch condition decides whether one more element fits.
  lemma FitsSnoc<R>(chunks: seq<seq<R>>, current: seq<R>, r: R, size: R -> nat)
    ensures Fits(current + [r], size) <==> current == [] || Bytes(current, size) + size(r) + 1 <= LIMIT
    ensures Bytes(current + [r], size) == Bytes(current, size) + size(r) + if current == [] then 0 else 1
    ensures Bytes<R>([], size) == OVERHEAD
    ensures AllFit(chunks, size) && Fits(current, size) ==> AllFit(chunks + [current], size)
  {
  }

  lemma GreedyNext<R>(chunks: seq<seq<R>>, current: seq<R>, r: R, size: R -> nat)
    requires current != [] && Greedy(chunks + [current], size) && !Fits(current + [r], size)
    ensures Greedy(chunks + [current] + [[r]], size)
  {
  }

  // Growing the open chunk does not change its first element.
  lemma GreedyGrow<R>(chunks: seq<seq<R>>, current: seq<R>, r: R, size: R -> nat)
    requires Greedy(chunks + (if current == [] then [] else [current]), size) && (current == [] ==> chunks == [])
    ensures Greedy(chunks + [current + [r]], size)
  {
    if current != [] {
      var cs, cs' := chunks + [current], chunks + [current + [r]];
      forall i | 0 <= i < |cs'|
        ensures cs'[i] != []
      {
        assert cs[i] != [];
      }
      forall i | 0 < i < |cs'|
        ensures !Fits(cs'[i - 1] + [cs'[i][0]], size)
      {
        assert !Fits(cs[i - 1] + [cs[i][0]], size);
        assert cs'[i][0] == cs[i][0];
      }
    }
  }

  // ---------------------------------------------------------------- optimality

  lemma {:induction false} TotalParts<R>(s: seq<R>, t: seq<R>, size: R -> nat)
    ensures Total(s + t, size) == Total(s, size) + Total(t, size)
  {
    if t == [] {
      assert s + t == s;
    } else {
      assert (s + t)[..|s + t| - 1] == s + t[..|t| - 1];
      TotalParts(s, t[..|t| - 1], size);
    }
  }

  // A contiguous part of a chunk that fits also fits.
  lemma PartFits<R>(c: seq<R>, i: nat, j: nat, size: R -> nat)
    requires i <= j <= |c| && Fits(c, size)
    ensures Fits(c[i..j], size)
  {
    TotalParts(c[..i], c[i..j], size);
    TotalParts(c[..j], c[j..], size);
    assert c[..i] + c[i..j] == c[..j] && c[..j] + c[j..] == c;
  }

  // `part` is the tail end of `whole`.
  ghost predicate IsSuffix<R>(part: seq<R>, whole: seq<R>) {
    |part| <= |whole| && part == whole[|whole| - |part|..]
  }

  lemma GreedyTail<R>(gs: seq<seq<R>>, size: R -> nat)
    requires gs != [] && Greedy(gs, size)
    ensures Greedy(gs[1..], size)
  {
  }

  // A greedy split of a suffix never needs more chunks than any fitting split of the whole.
  lemma {:induction false} StaysAhead<R>(gs: seq<seq<R>>, cs: seq<seq<R>>, size: R -> nat)
    requires Greedy(gs, size) && AllFit(cs, size) && IsSuffix(Flatten(gs), Flatten(cs))
    ensures |gs| <= |cs|
    decreases |cs|
  {
    if gs != [] {
      GreedyTail(gs, size);
      FlattenHead(gs);
      assert cs != [] && gs[0] != [];
      FlattenHead(cs);
      var c, rest := cs[0], Flatten(cs[1..]);
      assert AllFit(cs[1..], size) && Fits(c, size);
      hide Greedy, Fits, AllFit, Flatten, IsSuffix;
      if |Flatten(gs)| <= |rest| {
        SuffixOfTail(Flatten(gs), c, rest);
        StaysAhead(gs, cs[1..], size);
      } else if |gs| > 1 {
        FirstCovers(gs, c, rest, size);
        StaysAhead(gs[1..], cs[1..], size);
      }
    }
  }

  lemma FlattenHead<R>(cs: seq<seq<R>>)
    requires cs != []
    ensures Flatten(cs) == cs[0] + Flatten(cs[1..])
  {
  }

  lemma SuffixOfTail<R>(part: seq<R>, c: seq<R>, rest: seq<R>)
    requires IsSuffix(part, c + rest) && |part| <= |rest|
    ensures IsSuffix(part, rest)
  {
    assert (c + rest)[|c + rest| - |part|..] == rest[|rest| - |part|..];
  }

  // The first greedy chunk reaches at least to the end of the chunk it starts in.
  lemma FirstCovers<R>(gs: seq<seq<R>>, c: seq<R>, rest: seq<R>, size: R -> nat)
    requires |gs| > 1 && Greedy(gs, size) && Fits(c, size)
    requires IsSuffix(Flatten(gs), c + rest) && |Flatten(gs)| > |rest|
    ensures IsSuffix(Flatten(gs[1..]), rest)
  {
    var g, all, k := gs[0], Flatten(gs), |c| + |rest| - |Flatten(gs)|;
    assert all == (c + rest)[k..];
    var next := gs[1][0];
    assert !Fits(g + [next], size);
    assert gs[1..][0] == gs[1] && all[|g|] == next by {
      assert Flatten(gs[1..]) == gs[1] + Flatten(gs[1..][1..]);
    }
    if k + |g| < |c| {
      assert g + [next] == c[k..k + |g| + 1] by {
        assert forall i :: 0 <= i < |g| ==> g[i] == all[i] == c[k + i];
      }
      PartFits(c, k, k + |g| + 1, size);
    }
    assert Flatten(gs[1..]) == all[|g|..] == (c + rest)[k + |g|..] == rest[k + |g| - |c|..];
  }

  /** No contiguous split that obeys the same size rule uses fewer chunks. */
  lemma FewestChunks<R>(rectangles: seq<R>, chunks: seq<seq<R>>, other: seq<seq<R>>, size: R -> nat)
    requires rectangles != [] && Flatten(chunks) == rectangles && Greedy(chunks, size)
    requires Flatten(other) == rectangles && AllFit(other, size)
    ensures |chunks| <= |other|
  {
    StaysAhead(chunks, other, size);
  }

  // ---------------------------------------------------------------- the text really written

  // json.dumps separates with ", " and ": "; the code's count allows one character for each comma.
  function Joined<R>(chunk: seq<R>, show: R -> string): string {
    if chunk == [] then []
    else if |chunk| == 1 then show(chunk[0])
    else Joined(chunk[..|chunk| - 1], show) + ", " + show(chunk[|chunk| - 1])
  }

  function AttributeText<R>(chunk: seq<R>, show: R -> string, count: nat): string {
    "{\"count\": " + ToDecimal(count) + ", \"rectangles\": [" + Joined(chunk, show) + "]}"
  }

  ghost predicate Measures<R(!new)>(size: R -> nat, show: R -> string) {
    forall r :: size(r) == |show(r)|
  }

  lemma {:induction false} JoinedLength<R(!new)>(chunk: seq<R>, show: R -> string, size: R -> nat)
    requires Measures(size, show)
    ensures |Joined(chunk, show)| == Total(chunk, size) + if chunk == [] then 0 else 2 * (|chunk| - 1)
  {
    if |chunk| == 1 {
      assert chunk[..0] == [];
      assert Total(chunk, size) == size(chunk[0]);
    } else if chunk != [] {
      JoinedLength(chunk[..|chunk| - 1], show, size);
    }
  }

  /** The text is longer than the code's count by one character for each comma, and by the digits of the
      total beyond four less three. */
  lemma TextLength<R(!new)>(chunk: seq<R>, show: R -> string, size: R -> nat, count: nat)
    requires Measures(size, show) && chunk != []
    ensures |AttributeText(chunk, show, count)| == Bytes(chunk, size) + |chunk| - 1 + |ToDecimal(count)| - 1
  {
    JoinedLength(chunk, show, size);
    assert |"{\"count\": "| == 10 && |", \"rectangles\": ["| == 17 && |"]}"| == 2;
  }

  lemma {:induction false} TotalAtLeast<R>(chunk: seq<R>, size: R -> nat, least: nat)
    requires forall i :: 0 <= i < |chunk| ==> size(chunk[i]) >= least
    ensures Total(chunk, size) >= least * |chunk|
  {
    if chunk != [] {
      var n := |chunk| - 1;
      TotalAtLeast(chunk[..n], size, least);
      assert least * |chunk| == least * n + least;
    }
  }

  const SHORTEST := 12  // length of [0, 0, 0, 0]

  /** A chunk the code accepts is not always within its limit as written, but every chunk of two or more
      four-number arrays stays below two kilobytes as long as the total has at most 50 digits. */
  lemma TextBelowTwoKilobytes<R(!new)>(chunk: seq<R>, show: R -> string, size: R -> nat, count: nat)
    requires Measures(size, show) && |chunk| >= 2 && Fits(chunk, size)
    requires forall i :: 0 <= i < |chunk| ==> |show(chunk[i])| >= SHORTEST
    ensures |AttributeText(chunk, show, count)| <= 1988 + |ToDecimal(count)|
    ensures |ToDecimal(count)| <= 50 ==> |AttributeText(chunk, show, count)| < 2048
  {
    TotalAtLeast(chunk, size, SHORTEST);
    TextLength(chunk, show, size, count);
  }

  /** 140 of the shortest arrays fill the limit by the code's count, and exceed it as written. */
  lemma TextOverLimit<R(!new)>(chunk: seq<R>, show: R -> string, size: R -> nat, count: nat)
    requires Measures(size, show) && |chunk| == 140 && forall i :: 0 <= i < |chunk| ==> |show(chunk[i])| == SHORTEST
    ensures Fits(chunk, size) && |AttributeText(chunk, show, count)| > LIMIT
  {
    TotalExactly(chunk, size, SHORTEST);
    TextLength(chunk, show, size, count);
  }

  lemma {:induction false} TotalExactly<R>(chunk: seq<R>, size: R -> nat, each: nat)
    requires forall i :: 0 <= i < |chunk| ==> size(chunk[i]) == each
    ensures Total(chunk, size) == each * |chunk|
  {
    if chunk != [] {
      var n := |chunk| - 1;
      TotalExactly(chunk[..n], size, each);
      assert each * |chunk| == each * n + each;
    }
  }

  /** As written, a chunk is within the limit exactly when the code's count leaves room for the rest. */
  lemma TextWithinIff<R(!new)>(chunk: seq<R>, show: R -> string, size: R -> nat, count: nat)
    requires Measures(size, show) && chunk != []
    ensures |AttributeText(chunk, show, count)| <= LIMIT
            <==> Bytes(chunk, size) <= LIMIT - (|chunk| - 1) - (|ToDecimal(count)| - 1)
  {
    TextLength(chunk, show, size, count);
  }
}
