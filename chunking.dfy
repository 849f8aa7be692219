/**
  `_chunk_list`: cuts the list of documents into `nb_parts` consecutive
  slices; slice `i` runs from `round(L * i / n)` to `round(L * (i + 1) / n)`,
  where `L` is the length of the list and `n` the number of parts.

  Python computes `L / n` and its products in floating point and rounds with
  `round`, which sends a value halfway between two integers to the even one.
  Here the quotient is kept exact and rounded half to even.
 */
module Chunking {
  import opened Results

  /** The exception `len(the_list) / nb_parts` raises for `nb_parts == 0`. */
  datatype ChunkError = ZeroDivisionError

  /**
    Python's `round(p / q)`: the integer nearest to `p / q`, the even one of
    the two when `p / q` lies halfway between them.
   */
  function RoundHalfEven(p: nat, q: nat): (r: nat)
    requires q > 0
    ensures 2 * p <= 2 * (q * r) + q && 2 * (q * r) <= 2 * p + q
    ensures 2 * (q * r) == 2 * p + q || 2 * (q * r) + q == 2 * p ==> r % 2 == 0
  {
    var down := FloorDiv(p, q);
    var twiceRem := 2 * (p - q * down);
    MulDistrib(q, down, 1);
    if twiceRem < q then down
    else if twiceRem > q then down + 1
    else if down % 2 == 0 then down
    else down + 1
  }

  /** `p // q`: the largest `d` with `q * d <= p`. */
  function FloorDiv(p: nat, q: nat): (d: nat)
    requires q > 0
    ensures q * d <= p < q * d + q
  {
    p / q
  }

  /** Multiplication distributes over addition. */
  lemma MulDistrib(x: int, y: int, z: int)
    ensures x * (y + z) == x * y + x * z
  {
  }

  /** Multiplying by a positive number keeps the order. */
  lemma MulMonotone(q: nat, a: int, b: int)
    requires a <= b
    ensures q * a <= q * b
  {
    assert q * b - q * a == q * (b - a);
  }

  /** Multiples of `q` at different factors are at least `q` apart, and `2 * q` when the factors are. */
  lemma MulStep(q: nat, a: int, b: int)
    requires a < b
    ensures q * a + q <= q * b
    ensures a + 1 < b ==> q * a + 2 * q <= q * b
  {
    MulMonotone(q, a + 1, b);
    assert q * (a + 1) == q * a + q;
    if a + 1 < b {
      MulMonotone(q, a + 2, b);
      assert q * (a + 2) == q * a + 2 * q;
    }
  }

  /**
    Those two properties pin the rounded value down: no other integer is
    within a half of `p / q` with ties going to the even one.
   */
  lemma RoundUnique(p: nat, q: nat, r': int)
    requires q > 0
    requires 2 * p <= 2 * (q * r') + q && 2 * (q * r') <= 2 * p + q
    requires 2 * (q * r') == 2 * p + q || 2 * (q * r') + q == 2 * p ==> r' % 2 == 0
    ensures r' == RoundHalfEven(p, q)
  {
    var r := RoundHalfEven(p, q);
    if r' > r {
      MulStep(q, r, r');
    } else if r' < r {
      MulStep(q, r', r);
    }
  }

  /** A larger numerator never rounds lower. */
  lemma RoundMonotone(p1: nat, p2: nat, q: nat)
    requires q > 0 && p1 <= p2
    ensures RoundHalfEven(p1, q) <= RoundHalfEven(p2, q)
  {
    var r1, r2 := RoundHalfEven(p1, q), RoundHalfEven(p2, q);
    if r1 > r2 {
      MulStep(q, r2, r1);
    }
  }

  /** `round(division * i)`, the `i`-th cut, with `division == total / parts` kept exact. */
  function Cut(total: nat, parts: nat, i: nat): nat
    requires parts > 0
  {
    RoundHalfEven(total * i, parts)
  }

  /** The first cut is at the start and the last at the end. */
  lemma CutEnds(total: nat, parts: nat)
    requires parts > 0
    ensures Cut(total, parts, 0) == 0
    ensures Cut(total, parts, parts) == total
  {
    RoundUnique(0, parts, 0);
    assert total * parts == parts * total;
    RoundUnique(total * parts, parts, total);
  }

  /** Cuts never go backwards. */
  lemma CutMonotone(total: nat, parts: nat, i: nat, j: nat)
    requires parts > 0 && i <= j
    ensures Cut(total, parts, i) <= Cut(total, parts, j)
  {
    MulMonotone(total, i, j);
    RoundMonotone(total * i, total * j, parts);
  }

  /** A cut at or before the last part lies within the list. */
  lemma CutWithin(total: nat, parts: nat, i: nat)
    requires parts > 0 && i <= parts
    ensures Cut(total, parts, i) <= total
  {
    CutMonotone(total, parts, i, parts);
    CutEnds(total, parts);
  }

  /** `s[lo:hi]` for non-negative bounds: both are clamped to the length, an inverted range is empty. */
  function Slice<T>(s: seq<T>, lo: nat, hi: nat): (r: seq<T>)
    ensures lo <= hi <= |s| ==> r == s[lo..hi]
  {
    var a := if lo <= |s| then lo else |s|;
    var b := if hi <= |s| then hi else |s|;
    if a <= b then s[a..b] else []
  }

  /**
    `_chunk_list(the_list, nb_parts)`: divides by `nb_parts` first, so 0
    raises; a negative count makes `range` empty and so gives no chunk;
    otherwise chunk `i` is the slice between cut `i` and cut `i + 1`.
   */
  function ChunkList<T>(theList: seq<T>, nbParts: int): (r: Result<seq<seq<T>>, ChunkError>)
    ensures r.Err? <==> nbParts == 0
    ensures r.Err? ==> r.error == ZeroDivisionError
    ensures nbParts < 0 ==> r == Ok([])
    ensures nbParts > 0 ==> r.Ok? && |r.value| == nbParts
  {
    if nbParts == 0 then Err(ZeroDivisionError)
    else if nbParts < 0 then Ok([])
    else
      var total := |theList|;
      Ok(seq(nbParts, i requires 0 <= i < nbParts =>
        Slice(theList, Cut(total, nbParts, i), Cut(total, nbParts, i + 1))))
  }

  /** The chunks, one after the other. */
  function Concat<T>(chunks: seq<seq<T>>): seq<T> {
    if chunks == [] then [] else Concat(chunks[..|chunks| - 1]) + chunks[|chunks| - 1]
  }

  /** Chunk `i` is exactly the list between cut `i` and cut `i + 1`. */
  lemma ChunkIsCutSlice<T>(theList: seq<T>, nbParts: nat, i: nat)
    requires 0 <= i < nbParts
    ensures var total := |theList|;
      && Cut(total, nbParts, i) <= Cut(total, nbParts, i + 1) <= total
      && ChunkList(theList, nbParts).value[i] == theList[Cut(total, nbParts, i)..Cut(total, nbParts, i + 1)]
  {
    CutMonotone(|theList|, nbParts, i, i + 1);
    CutWithin(|theList|, nbParts, i + 1);
  }

  /** Each of `chunks` is the slice of `s` between two consecutive `cuts`, the first of which is 0. */
  ghost predicate SlicesBetween<T>(s: seq<T>, cuts: seq<nat>, chunks: seq<seq<T>>) {
    && |cuts| == |chunks| + 1
    && cuts[0] == 0
    && forall i :: 0 <= i < |chunks| ==> SliceAt(s, cuts, chunks, i)
  }

  /** Chunk `i` is the slice of `s` between cuts `i` and `i + 1`, which are in order and within `s`. */
  ghost predicate SliceAt<T>(s: seq<T>, cuts: seq<nat>, chunks: seq<seq<T>>, i: nat)
    requires i < |chunks| && |cuts| == |chunks| + 1
  {
    cuts[i] <= cuts[i + 1] <= |s| && chunks[i] == s[cuts[i]..cuts[i + 1]]
  }

  /**
    Slices of `s` between consecutive cuts, starting from 0, put one after
    the other, give `s` up to the last cut.
   */
  lemma {:induction false} ConcatSlices<T>(s: seq<T>, cuts: seq<nat>, chunks: seq<seq<T>>, k: nat)
    requires SlicesBetween(s, cuts, chunks) && k <= |chunks|
    ensures cuts[k] <= |s|
    ensures Concat(chunks[..k]) == s[..cuts[k]]
  {
    if k > 0 {
      assert SliceAt(s, cuts, chunks, k - 1);
      ConcatSlices(s, cuts, chunks, k - 1);
      assert chunks[..k][..k - 1] == chunks[..k - 1];
      assert s[..cuts[k - 1]] + s[cuts[k - 1]..cuts[k]] == s[..cuts[k]];
    }
  }

  /** The cuts of a list of `total` items into `parts` chunks, first to last. */
  function Cuts(total: nat, parts: nat): (cuts: seq<nat>)
    requires parts > 0
    ensures |cuts| == parts + 1
  {
    seq(parts + 1, i requires 0 <= i <= parts => Cut(total, parts, i))
  }

  /** Every chunk is the slice between its two cuts, which are in order and within the list. */
  lemma ChunksBetweenCuts<T>(theList: seq<T>, nbParts: nat)
    requires nbParts > 0
    ensures SlicesBetween(theList, Cuts(|theList|, nbParts), ChunkList(theList, nbParts).value)
  {
    var cuts, chunks := Cuts(|theList|, nbParts), ChunkList(theList, nbParts).value;
    forall i | 0 <= i < nbParts
      ensures SliceAt(theList, cuts, chunks, i)
    {
      ChunkIsCutSlice(theList, nbParts, i);
      assert cuts[i] == Cut(|theList|, nbParts, i) && cuts[i + 1] == Cut(|theList|, nbParts, i + 1);
    }
    CutEnds(|theList|, nbParts);
  }

  /**
    The chunks partition the list: there are `nb_parts` of them and, put one
    after the other, they give back the list.
   */
  lemma ChunkListPartition<T>(theList: seq<T>, nbParts: int)
    requires nbParts > 0
    ensures ChunkList(theList, nbParts).Ok?
    ensures |ChunkList(theList, nbParts).value| == nbParts
    ensures Concat(ChunkList(theList, nbParts).value) == theList
  {
    var chunks, cuts := ChunkList(theList, nbParts).value, Cuts(|theList|, nbParts);
    ChunksBetweenCuts(theList, nbParts);
    CutEnds(|theList|, nbParts);
    ConcatSlices(theList, cuts, chunks, nbParts);
    assert chunks[..nbParts] == chunks;
    assert theList[..|theList|] == theList;
  }

  /** A positive factor can be cancelled. */
  lemma MulCancel(q: nat, x: int)
    requires q > 0 && q * x == 0
    ensures x == 0
  {
    if x > 0 {
      MulMonotone(q, 1, x);
    } else if x < 0 {
      MulMonotone(q, x, -1);
    }
  }

  /**
    When `L / n` is a whole number `k`, no `L * i / n` lies halfway between
    two integers: a cut is then never a halfway case.
   */
  lemma NoHalfway(n: nat, k: int, i: int, a: int)
    requires n > 0
    ensures 2 * (n * a) + n != 2 * ((n * k) * i)
    ensures 2 * (n * a) != 2 * ((n * k) * i) + n
  {
    var m := k * i;
    assert (n * k) * i == n * m;
    if 2 * (n * a) + n == 2 * (n * m) {
      assert n * (2 * a + 1 - 2 * m) == 0;
      MulCancel(n, 2 * a + 1 - 2 * m);
    }
    if 2 * (n * a) == 2 * (n * m) + n {
      assert n * (2 * a - 1 - 2 * m) == 0;
      MulCancel(n, 2 * a - 1 - 2 * m);
    }
  }

  /**
    Every chunk is within one of `L / n` in size, strictly: `L - n < n * size < L + n`.
    (Reaching either end would take halfway cases at both cuts of the chunk,
    which needs `L / n` to be a whole number, and then no cut is halfway.)
   */
  lemma ChunkSizeBound(total: nat, parts: nat, i: nat)
    requires 0 <= i < parts
    ensures Cut(total, parts, i) <= Cut(total, parts, i + 1)
    ensures total - parts < parts * (Cut(total, parts, i + 1) - Cut(total, parts, i)) < total + parts
  {
    CutMonotone(total, parts, i, i + 1);
    var a, b := Cut(total, parts, i), Cut(total, parts, i + 1);
    var size := b - a;
    MulDistrib(total, i, 1);
    MulDistrib(parts, a, size);
    if parts * size == total + parts {
      MulDistrib(parts, size - 1, 1);
      NoHalfway(parts, size - 1, i, a);
    }
    if parts * size + parts == total {
      MulDistrib(parts, size, 1);
      NoHalfway(parts, size + 1, i, a);
    }
  }

  /** Every chunk holds within one of `L / n` items, strictly: `L - n < n * size < L + n`. */
  lemma ChunkSizeNear<T>(theList: seq<T>, nbParts: nat, i: nat)
    requires i < nbParts
    ensures |theList| - nbParts < nbParts * |ChunkList(theList, nbParts).value[i]| < |theList| + nbParts
  {
    ChunkIsCutSlice(theList, nbParts, i);
    ChunkSizeBound(|theList|, nbParts, i);
  }

  /** Chunk sizes differ by at most one: the parts are as equal as the length allows. */
  lemma ChunkSizesBalanced<T>(theList: seq<T>, nbParts: nat, i: nat, j: nat)
    requires i < nbParts && j < nbParts
    ensures -1 <= |ChunkList(theList, nbParts).value[i]| - |ChunkList(theList, nbParts).value[j]| <= 1
  {
    var chunks := ChunkList(theList, nbParts).value;
    ChunkSizeNear(theList, nbParts, i);
    ChunkSizeNear(theList, nbParts, j);
    var si, sj := |chunks[i]|, |chunks[j]|;
    if si > sj {
      MulStep(nbParts, sj, si);
    } else if sj > si {
      MulStep(nbParts, si, sj);
    }
  }

  /** The number of non-empty chunks. */
  function NonEmptyCount<T>(chunks: seq<seq<T>>): nat {
    if chunks == [] then 0
    else NonEmptyCount(chunks[..|chunks| - 1]) + (if chunks[|chunks| - 1] == [] then 0 else 1)
  }

  /** Chunks of at most one element each: as many are non-empty as they hold elements. */
  lemma {:induction false} NonEmptyCountSmall<T>(chunks: seq<seq<T>>)
    requires forall i :: 0 <= i < |chunks| ==> |chunks[i]| <= 1
    ensures NonEmptyCount(chunks) == |Concat(chunks)|
    decreases |chunks|
  {
    if chunks != [] {
      NonEmptyCountSmall(chunks[..|chunks| - 1]);
    }
  }

  /**
    With at least as many parts as items, every chunk holds at most one item
    and exactly `L` chunks are non-empty: the surplus parts are empty.
   */
  lemma SurplusPartsEmpty<T>(theList: seq<T>, nbParts: nat)
    requires nbParts > 0 && nbParts >= |theList|
    ensures forall i :: 0 <= i < nbParts ==> |ChunkList(theList, nbParts).value[i]| <= 1
    ensures NonEmptyCount(ChunkList(theList, nbParts).value) == |theList|
  {
    var chunks := ChunkList(theList, nbParts).value;
    forall i | 0 <= i < nbParts ensures |chunks[i]| <= 1 {
      ChunkSizeNear(theList, nbParts, i);
      if |chunks[i]| >= 2 {
        MulMonotone(nbParts, 2, |chunks[i]|);
      }
    }
    ChunkListPartition(theList, nbParts);
    NonEmptyCountSmall(chunks);
  }
}
