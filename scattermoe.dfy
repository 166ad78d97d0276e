/** `padded_block_indices` of the scattermoe operators
    (`khd/scattermoe/triton_implementation/ops.py`): the tokens, sorted by
    expert, are cut into blocks of `N` tokens that never straddle two
    experts; the function returns the first token of every block and the
    end boundary of every expert. Whole-tensor operations become sequence
    functions: `bincount`, `cumsum` and the masked sum. */
module ScatterMoE {
  import opened Exceptions
  import opened CudaMath

  const BLOCK_M: nat := 128

  /** Number of occurrences of expert `e`. */
  function Count(xs: seq<nat>, e: nat): nat
  {
    if xs == [] then 0 else Count(xs[..|xs| - 1], e) + (if xs[|xs| - 1] == e then 1 else 0)
  }

  /** One past the largest expert id, 0 for no tokens. */
  function MaxPlusOne(xs: seq<nat>): (r: nat)
    ensures forall i :: 0 <= i < |xs| ==> xs[i] < r
    ensures xs != [] ==> exists i :: 0 <= i < |xs| && r == xs[i] + 1
  {
    if xs == [] then 0
    else
      var m := MaxPlusOne(xs[..|xs| - 1]);
      assert forall i :: 0 <= i < |xs| - 1 ==> xs[..|xs| - 1][i] == xs[i];
      if xs[|xs| - 1] + 1 > m then xs[|xs| - 1] + 1 else m
  }

  /** `torch.bincount(xs, minlength=k)`. */
  function Bincount(xs: seq<nat>, minlength: nat): (counts: seq<nat>)
  {
    var n := if MaxPlusOne(xs) > minlength then MaxPlusOne(xs) else minlength;
    seq(n, e requires 0 <= e < n => Count(xs, e))
  }

  function Sum(s: seq<int>): int
  {
    if s == [] then 0 else Sum(s[..|s| - 1]) + s[|s| - 1]
  }

  /** `cumsum(-1)`: inclusive prefix sums. */
  function Cumsum(s: seq<int>): (r: seq<int>)
    ensures |r| == |s|
  {
    seq(|s|, i requires 0 <= i < |s| => Sum(s[..i + 1]))
  }

  /** `((count - 1) // N) + 1` with floor division: the number of `N`-token
      blocks needed for `count` tokens. */
  function PaddedBlockCount(count: nat, n: nat): (r: nat)
    requires n > 0
    ensures count == 0 ==> r == 0
    ensures count > 0 ==> r == CeilDivide(count, n)
  {
    var q := (count - 1) / n + 1;
    if count == 0 then
      assert (count - 1) / n == -1;
      q
    else
      CeilDividePredecessor(count, n);
      q
  }

  lemma CeilDividePredecessor(x: nat, d: nat)
    requires x > 0 && d > 0
    ensures (x - 1) / d + 1 == CeilDivide(x, d)
  {
    var r := (x - 1) / d + 1;
    var q, m := (x - 1) / d, (x - 1) % d;
    assert x - 1 == q * d + m;
    assert r * d == q * d + d;
    assert (r - 1) * d == q * d;
    CeilDivideUnique(x, d, r);
  }

  /** Per-expert padded block counts. */
  function PaddedBlockCounts(counts: seq<nat>, n: nat): (r: seq<nat>)
    requires n > 0
    ensures |r| == |counts|
  {
    seq(|counts|, e requires 0 <= e < |counts| => PaddedBlockCount(counts[e], n))
  }

  /** `end - counts`: the start of every segment from the inclusive prefix sums. */
  function Starts(s: seq<int>): (r: seq<int>)
    ensures |r| == |s|
  {
    var ends := Cumsum(s);
    seq(|s|, e requires 0 <= e < |s| => ends[e] - s[e])
  }

  /** The two outputs of `padded_block_indices`: the first token of every
      padded block, and `expert_boundaries_end`. */
  datatype BlockLayout = BlockLayout(blockStarts: seq<int>, boundariesEnd: seq<int>)

  /** Value of block `b` in the column of expert `e` before the masked sum. */
  function MaskedEntry(b: int, paddedStart: int, paddedEnd: int, boundaryStart: int, n: nat): int
  {
    if b < paddedStart || b >= paddedEnd then 0 else n * (b - paddedStart) + boundaryStart
  }

  /** `padded_block_indices(sorted_experts_idxs, k, N_BLOCK_SIZE)`. With no
      expert at all (`k == 0` and no tokens), `padded_expert_block_end[-1]`
      raises `IndexError`. */
  function PaddedBlockIndices(sortedExpertsIdxs: seq<nat>, k: nat, nBlockSize: nat): (r: Result<BlockLayout>)
    requires nBlockSize > 0
    ensures r.Raise? <==> k == 0 && sortedExpertsIdxs == []
  {
    var expertCounts := Bincount(sortedExpertsIdxs, k);
    var paddedBlockCounts := PaddedBlockCounts(expertCounts, nBlockSize);
    var paddedExpertBlockEnd := Cumsum(paddedBlockCounts);
    var expertBoundariesEnd := Cumsum(expertCounts);
    var expertBoundariesStart := Starts(expertCounts);
    var paddedExpertBlockStart := Starts(paddedBlockCounts);
    if |expertCounts| == 0 then
      Raise(IndexError)
    else
      Ok(BlockLayout(
        BlockIdxs(paddedExpertBlockStart, paddedExpertBlockEnd, expertBoundariesStart, nBlockSize),
        expertBoundariesEnd))
  }

  /** `arange(padded_expert_block_end[-1])`, compared against every
      expert's padded range, mapped to the chunk start, masked and summed
      over the experts. */
  function BlockIdxs(paddedStart: seq<int>, paddedEnd: seq<int>, boundariesStart: seq<int>, n: nat): (r: seq<int>)
    requires |paddedStart| == |paddedEnd| == |boundariesStart| > 0
    ensures |r| == if paddedEnd[|paddedEnd| - 1] < 0 then 0 else paddedEnd[|paddedEnd| - 1]
  {
    var total := paddedEnd[|paddedEnd| - 1];
    seq(if total < 0 then 0 else total, b =>
      Sum(MaskedColumn(b, paddedStart, paddedEnd, boundariesStart, n)))
  }

  /** Row `b` of the masked matrix: one entry per expert. */
  function MaskedColumn(b: int, paddedStart: seq<int>, paddedEnd: seq<int>, boundariesStart: seq<int>, n: nat): (r: seq<int>)
    requires |paddedStart| == |paddedEnd| == |boundariesStart|
    ensures |r| == |paddedStart|
  {
    seq(|paddedStart|, e requires 0 <= e < |paddedStart| =>
      MaskedEntry(b, paddedStart[e], paddedEnd[e], boundariesStart[e], n))
  }

  // ---------------------------------------------------------------------
  // Sums and prefix sums

  predicate AllNonneg(s: seq<int>)
  {
    forall i :: 0 <= i < |s| ==> s[i] >= 0
  }

  lemma {:induction false} SumOfNatsNonneg(s: seq<nat>)
    ensures Sum(s) >= 0
  {
    if s != [] {
      SumOfNatsNonneg(s[..|s| - 1]);
    }
  }

  /** Extending a prefix by one element adds that element. */
  lemma SumPrefixStep(s: seq<int>, i: nat)
    requires i < |s|
    ensures Sum(s[..i + 1]) == Sum(s[..i]) + s[i]
  {
    assert s[..i + 1][..i] == s[..i];
  }

  lemma {:induction false} SumPrefixMonotone(s: seq<int>, i: nat, j: nat)
    requires AllNonneg(s) && i <= j <= |s|
    ensures Sum(s[..i]) <= Sum(s[..j])
  {
    if i < j {
      SumPrefixMonotone(s, i, j - 1);
      SumPrefixStep(s, j - 1);
    }
  }

  /** `Cumsum` is the inclusive and `Starts` the exclusive prefix sum. */
  lemma PrefixSums(s: seq<int>, e: nat)
    requires e < |s|
    ensures Cumsum(s)[e] == Sum(s[..e + 1])
    ensures Starts(s)[e] == Sum(s[..e])
  {
    SumPrefixStep(s, e);
  }

  /** A sum whose terms vanish everywhere except at `e` equals that term. */
  lemma {:induction false} SumSingleTerm(s: seq<int>, e: nat)
    requires e < |s|
    requires forall i :: 0 <= i < |s| && i != e ==> s[i] == 0
    ensures Sum(s) == s[e]
  {
    var init := s[..|s| - 1];
    if e == |s| - 1 {
      SumAllZero(init);
    } else {
      SumSingleTerm(init, e);
    }
  }

  lemma {:induction false} SumAllZero(s: seq<int>)
    requires forall i :: 0 <= i < |s| ==> s[i] == 0
    ensures Sum(s) == 0
  {
    if s != [] {
      SumAllZero(s[..|s| - 1]);
    }
  }

  // ---------------------------------------------------------------------
  // Expert counts

  /** Number of tokens routed to an expert below `n`. */
  function CountBelow(xs: seq<nat>, n: nat): nat
  {
    if xs == [] then 0 else CountBelow(xs[..|xs| - 1], n) + (if xs[|xs| - 1] < n then 1 else 0)
  }

  /** The bins of the experts below `n`. */
  function CountsUpTo(xs: seq<nat>, n: nat): (r: seq<nat>)
    ensures |r| == n
  {
    seq(n, e requires 0 <= e < n => Count(xs, e))
  }

  lemma {:induction false} CountBelowStep(xs: seq<nat>, n: nat)
    ensures CountBelow(xs, n + 1) == CountBelow(xs, n) + Count(xs, n)
  {
    if xs != [] {
      CountBelowStep(xs[..|xs| - 1], n);
    }
  }

  lemma {:induction false} CountBelowAll(xs: seq<nat>, n: nat)
    requires forall i :: 0 <= i < |xs| ==> xs[i] < n
    ensures CountBelow(xs, n) == |xs|
  {
    if xs != [] {
      CountBelowAll(xs[..|xs| - 1], n);
    }
  }

  /** Summing the bins of the experts below `n` counts their tokens. */
  lemma {:induction false} SumCountsUpTo(xs: seq<nat>, n: nat)
    ensures Sum(CountsUpTo(xs, n)) == CountBelow(xs, n)
  {
    if n > 0 {
      assert CountsUpTo(xs, n)[..n - 1] == CountsUpTo(xs, n - 1);
      SumCountsUpTo(xs, n - 1);
      CountBelowStep(xs, n - 1);
    } else {
      CountBelowNone(xs);
    }
  }

  lemma {:induction false} CountBelowNone(xs: seq<nat>)
    ensures CountBelow(xs, 0) == 0
  {
    if xs != [] {
      CountBelowNone(xs[..|xs| - 1]);
    }
  }

  /** `bincount` has at least `minlength` bins and a bin for every expert id
      that occurs, bin `e` holds the number of tokens of expert `e`, and
      every token is counted exactly once. */
  lemma BincountCoversTokens(xs: seq<nat>, minlength: nat)
    ensures |Bincount(xs, minlength)| >= minlength
    ensures forall i :: 0 <= i < |xs| ==> xs[i] < |Bincount(xs, minlength)|
    ensures forall e :: 0 <= e < |Bincount(xs, minlength)| ==> Bincount(xs, minlength)[e] == Count(xs, e)
    ensures Sum(Bincount(xs, minlength)) == |xs|
  {
    var counts := Bincount(xs, minlength);
    assert counts == CountsUpTo(xs, |counts|);
    SumCountsUpTo(xs, |counts|);
    CountBelowAll(xs, |counts|);
  }

  /** In a sorted sequence the tokens of experts below `n` form a prefix. */
  lemma {:induction false} SortedPrefix(xs: seq<nat>, n: nat, i: nat)
    requires Sorted(xs) && i < |xs|
    ensures i < CountBelow(xs, n) <==> xs[i] < n
  {
    var init := xs[..|xs| - 1];
    assert Sorted(init);
    CountBelowAtMost(init, n);
    if i < |init| {
      SortedPrefix(init, n, i);
      if xs[|xs| - 1] < n {
        assert xs[i] <= xs[|xs| - 1];
      }
    } else if xs[|xs| - 1] < n {
      CountBelowAll(init, n);
    } else {
      assert CountBelow(xs, n) == CountBelow(init, n);
    }
  }

  lemma {:induction false} CountBelowAtMost(xs: seq<nat>, n: nat)
    ensures CountBelow(xs, n) <= |xs|
  {
    if xs != [] {
      CountBelowAtMost(xs[..|xs| - 1], n);
    }
  }

  predicate Sorted(xs: seq<nat>)
  {
    forall i, j :: 0 <= i <= j < |xs| ==> xs[i] <= xs[j]
  }

  // ---------------------------------------------------------------------
  // Properties of `padded_block_indices`

  /** The second output is the inclusive prefix sum of the expert counts;
      for sorted expert ids, expert `e` owns exactly the tokens between
      `boundaries_start[e]` and `boundaries_end[e]`. */
  lemma {:induction false} ExpertBoundaries(xs: seq<nat>, k: nat, n: nat, e: nat, i: nat)
    requires n > 0 && Sorted(xs) && PaddedBlockIndices(xs, k, n).Ok?
    requires e < |Bincount(xs, k)| && i < |xs|
    ensures Starts(Bincount(xs, k))[e] <= i < Cumsum(Bincount(xs, k))[e] <==> xs[i] == e
  {
    var counts := Bincount(xs, k);
    PrefixSums(counts, e);
    assert counts[..e + 1] == CountsUpTo(xs, e + 1);
    assert counts[..e] == CountsUpTo(xs, e);
    SumCountsUpTo(xs, e + 1);
    SumCountsUpTo(xs, e);
    SortedPrefix(xs, e + 1, i);
    SortedPrefix(xs, e, i);
  }

  /** The block output of `padded_block_indices`, from the expert counts. */
  function BlocksOf(counts: seq<nat>, n: nat): seq<int>
    requires n > 0 && |counts| > 0
  {
    var p := PaddedBlockCounts(counts, n);
    BlockIdxs(Starts(p), Cumsum(p), Starts(counts), n)
  }

  /** The first output of `padded_block_indices` is `BlocksOf` its counts. */
  lemma LayoutFromCounts(xs: seq<nat>, k: nat, n: nat)
    requires n > 0 && PaddedBlockIndices(xs, k, n).Ok?
    ensures PaddedBlockIndices(xs, k, n).value.blockStarts == BlocksOf(Bincount(xs, k), n)
    ensures PaddedBlockIndices(xs, k, n).value.boundariesEnd == Cumsum(Bincount(xs, k))
  {
  }

  /** One block index per padded block: the output has as many entries as
      the padded block counts add up to. */
  lemma BlockCountIsSumOfPaddedCounts(counts: seq<nat>, n: nat)
    requires n > 0 && |counts| > 0
    ensures |BlocksOf(counts, n)| == Sum(PaddedBlockCounts(counts, n))
  {
    var p := PaddedBlockCounts(counts, n);
    PrefixSums(p, |p| - 1);
    assert p[..|p|] == p;
    SumOfNatsNonneg(p);
  }

  /** Every value below the total of a nat sequence falls in exactly one
      segment `[Sum(p[..e]), Sum(p[..e + 1]))`. */
  lemma {:induction false} FindSegment(p: seq<nat>, b: nat, m: nat) returns (e: nat)
    requires m <= |p| && b < Sum(p[..m])
    ensures e < m && Sum(p[..e]) <= b < Sum(p[..e + 1])
  {
    assert p[..0] == [];
    SumPrefixStep(p, m - 1);
    if b < Sum(p[..m - 1]) {
      e := FindSegment(p, b, m - 1);
    } else {
      e := m - 1;
    }
  }

  lemma SegmentsDisjoint(p: seq<nat>, b: nat, e1: nat, e2: nat)
    requires e1 < |p| && e2 < |p|
    requires Sum(p[..e1]) <= b < Sum(p[..e1 + 1])
    requires Sum(p[..e2]) <= b < Sum(p[..e2 + 1])
    ensures e1 == e2
  {
    if e1 < e2 {
      SumPrefixMonotone(p, e1 + 1, e2);
    } else if e2 < e1 {
      SumPrefixMonotone(p, e2 + 1, e1);
    }
  }

  /** Block `b` lies in the padded range of exactly one expert `e`; its value
      is the first token of the `(b - padded_start[e])`-th chunk of `N`
      tokens of that expert, which lies inside the expert's tokens. */
  lemma BlockOwner(counts: seq<nat>, n: nat, b: nat) returns (e: nat)
    requires n > 0 && |counts| > 0 && b < |BlocksOf(counts, n)|
    ensures var p := PaddedBlockCounts(counts, n);
      && e < |counts|
      && Starts(p)[e] <= b < Cumsum(p)[e]
      && (forall e' :: 0 <= e' < |counts| && Starts(p)[e'] <= b < Cumsum(p)[e'] ==> e' == e)
      && BlocksOf(counts, n)[b] == n * (b - Starts(p)[e]) + Starts(counts)[e]
      && Starts(counts)[e] <= BlocksOf(counts, n)[b] < Cumsum(counts)[e]
  {
    var p := PaddedBlockCounts(counts, n);
    var pStart, pEnd, bStart := Starts(p), Cumsum(p), Starts(counts);
    var blocks := BlocksOf(counts, n);
    assert blocks == BlockIdxs(pStart, pEnd, bStart, n);
    assert b < pEnd[|p| - 1];
    e := OwnerSegment(p, b);
    assert blocks[b] == Sum(MaskedColumn(b, pStart, pEnd, bStart, n));
    MaskedSumAtOwner(b, pStart, pEnd, bStart, n, e);
    assert p[e] == PaddedBlockCount(counts[e], n);
    ChunkInsideExpert(counts[e], n, b - pStart[e]);
    PrefixSums(counts, e);
  }

  /** The padded ranges partition `[0, total)`. */
  lemma OwnerSegment(p: seq<nat>, b: nat) returns (e: nat)
    requires |p| > 0 && b < Cumsum(p)[|p| - 1]
    ensures e < |p| && Starts(p)[e] <= b < Cumsum(p)[e]
    ensures forall e' :: 0 <= e' < |p| && Starts(p)[e'] <= b < Cumsum(p)[e'] ==> e' == e
  {
    PrefixSums(p, |p| - 1);
    assert p[..|p|] == p;
    e := FindSegment(p, b, |p|);
    PrefixSums(p, e);
    forall e' | 0 <= e' < |p| && Starts(p)[e'] <= b < Cumsum(p)[e']
      ensures e' == e
    {
      PrefixSums(p, e');
      SegmentsDisjoint(p, b, e, e');
    }
  }

  lemma MaskedSumAtOwner(b: int, pStart: seq<int>, pEnd: seq<int>, bStart: seq<int>, n: nat, e: nat)
    requires |pStart| == |pEnd| == |bStart| && e < |pStart|
    requires pStart[e] <= b < pEnd[e]
    requires forall e' :: 0 <= e' < |pStart| && pStart[e'] <= b < pEnd[e'] ==> e' == e
    ensures Sum(MaskedColumn(b, pStart, pEnd, bStart, n)) == n * (b - pStart[e]) + bStart[e]
  {
    SumSingleTerm(MaskedColumn(b, pStart, pEnd, bStart, n), e);
  }

  /** A chunk index below the padded count starts inside the expert's tokens. */
  lemma ChunkInsideExpert(count: nat, n: nat, j: int)
    requires n > 0 && 0 <= j < PaddedBlockCount(count, n)
    ensures 0 <= n * j < count
  {
    MulMonotone(0, j, n);
    var c := PaddedBlockCount(count, n);
    assert c == CeilDivide(count, n);
    MulMonotone(j, c - 1, n);
  }
}
