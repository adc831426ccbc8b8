/**
 * The adaptive chunk-size optimizer as ChunkSizeOptimizer.cpp implements
 * it: a sorted list of candidate sizes, an index into it, and per size an
 * integer-microsecond latency total, a sample count and their truncated
 * average.  The optimal size is one whose average latency is smallest.
 */
module Optimizer {
  import opened Ints

  /** `PerformanceData` as the .cpp uses it (microsecond durations). */
  datatype PerfRecord = PerfRecord(totalLatency: int, count: nat, averageLatency: int)

  /** `PerformanceData{}`: no samples, average 0. */
  const FRESH_RECORD := PerfRecord(0, 0, 0)

  predicate Sorted(s: seq<nat>)
  {
    forall i, j :: 0 <= i < j < |s| ==> s[i] <= s[j]
  }

  function Sum(xs: seq<int>): int
  {
    if xs == [] then 0 else Sum(xs[..|xs| - 1]) + xs[|xs| - 1]
  }

  /** A record holds the total, the count and the truncated mean of exactly these latency samples. */
  ghost predicate Summarises(r: PerfRecord, samples: seq<int>)
  {
    && r.totalLatency == Sum(samples)
    && r.count == |samples|
    && r.averageLatency == (if samples == [] then 0 else TruncDiv(Sum(samples), |samples|))
  }

  /** `recordPerformance` on one record: one more sample, its latency added, the average recomputed. */
  function Recorded(r: PerfRecord, latency: int): (r': PerfRecord)
    ensures r'.count == r.count + 1 && r'.totalLatency == r.totalLatency + latency
    ensures r'.totalLatency >= 0 ==> r'.averageLatency == r'.totalLatency / r'.count
    ensures r'.totalLatency < 0 ==> r'.averageLatency == -((-r'.totalLatency) / r'.count)
  {
    var total := r.totalLatency + latency;
    var count := r.count + 1;
    TruncDivIsDiv(total, count);
    PerfRecord(total, count, TruncDiv(total, count))
  }

  /** Recording a sample keeps a record the summary of its samples, with the new sample appended. */
  lemma RecordedSummarises(r: PerfRecord, samples: seq<int>, latency: int)
    requires Summarises(r, samples)
    ensures Summarises(Recorded(r, latency), samples + [latency])
  {
    assert (samples + [latency])[..|samples|] == samples;
  }

  /** `std::sort` of the candidate list, as an insertion sort. */
  function SortedCopy(s: seq<nat>): (r: seq<nat>)
    ensures Sorted(r) && multiset(r) == multiset(s) && |r| == |s|
  {
    if s == [] then []
    else
      assert s == s[..|s| - 1] + [s[|s| - 1]];
      var t := SortedCopy(s[..|s| - 1]);
      InsertSorted(t, s[|s| - 1]);
      Insert(t, s[|s| - 1])
  }

  /** `x` placed before the first element of `s` not smaller than it. */
  function Insert(s: seq<nat>, x: nat): (r: seq<nat>)
    ensures multiset(r) == multiset(s) + multiset{x} && |r| == |s| + 1
    ensures r[0] == x || (s != [] && r[0] == s[0])
  {
    if s == [] || x <= s[0] then [x] + s
    else
      assert s == [s[0]] + s[1..];
      [s[0]] + Insert(s[1..], x)
  }

  /** Inserting into a sorted sequence keeps it sorted. */
  lemma {:induction false} InsertSorted(s: seq<nat>, x: nat)
    requires Sorted(s)
    ensures Sorted(Insert(s, x))
  {
    if s != [] && x > s[0] {
      var t := Insert(s[1..], x);
      InsertSorted(s[1..], x);
      assert s[0] <= t[0];
      assert Insert(s, x) == [s[0]] + t;
    }
  }

  /** Inserting a value above every element appends it. */
  lemma {:induction false} InsertAtEnd(s: seq<nat>, x: nat)
    requires forall i :: 0 <= i < |s| ==> s[i] < x
    ensures Insert(s, x) == s + [x]
  {
    if s != [] {
      InsertAtEnd(s[1..], x);
      assert s == [s[0]] + s[1..];
    }
  }

  /** Sorting a strictly increasing list leaves it as it is. */
  lemma {:induction false} SortedCopyOfIncreasing(s: seq<nat>)
    requires forall i, j :: 0 <= i < j < |s| ==> s[i] < s[j]
    ensures SortedCopy(s) == s
  {
    if s != [] {
      var init, last := s[..|s| - 1], s[|s| - 1];
      assert SortedCopy(init) == init by {
        assert forall i, j :: 0 <= i < j < |init| ==> init[i] < init[j];
        SortedCopyOfIncreasing(init);
      }
      assert Insert(init, last) == init + [last] by {
        assert forall i :: 0 <= i < |init| ==> init[i] < last;
        InsertAtEnd(init, last);
      }
      assert init + [last] == s;
      assert SortedCopy(s) == Insert(SortedCopy(init), last);
    }
  }

  /** Sequences with the same multiset hold the same elements. */
  lemma SameElements(a: seq<nat>, b: seq<nat>)
    requires multiset(a) == multiset(b)
    ensures forall x :: x in a <==> x in b
  {
    forall x ensures x in a <==> x in b {
      assert x in a <==> x in multiset(a);
      assert x in b <==> x in multiset(b);
    }
  }

  /** `std::find` (and `std::string::find`): the first position of `x` in `s`, or |s| (the end, npos) when it is absent. */
  function Find<T(==)>(s: seq<T>, x: T): (i: nat)
    ensures i <= |s|
    ensures i < |s| ==> s[i] == x
    ensures forall j :: 0 <= j < i ==> s[j] != x
  {
    if s == [] then 0
    else if s[0] == x then 0
    else 1 + Find(s[1..], x)
  }

  /** `k` has the smallest average latency of all records. */
  ghost predicate IsMinimiser(perf: map<nat, PerfRecord>, k: nat)
  {
    k in perf && forall j :: j in perf ==> perf[k].averageLatency <= perf[j].averageLatency
  }

  /**
   * The index after `optimizeChunkSize`: the first position of a size of
   * smallest average latency, or the earlier index when that size is not
   * a candidate.
   */
  ghost predicate Reoptimized(perf: map<nat, PerfRecord>, sizes: seq<nat>, oldIndex: nat, index: nat)
  {
    exists c :: && IsMinimiser(perf, c)
                && (c in sizes ==> index == Find(sizes, c))
                && (c !in sizes ==> index == oldIndex)
  }

  /**
   * `std::min_element` over `performance_data_` by average latency.  The
   * source breaks ties by hash-table order; here any minimiser may be
   * returned.
   */
  method MinLatencySize(perf: map<nat, PerfRecord>) returns (best: nat)
    requires perf != map[]
    ensures IsMinimiser(perf, best)
  {
    var keys := perf.Keys;
    best :| best in keys;
    keys := keys - {best};
    while keys != {}
      invariant keys <= perf.Keys && best in perf
      invariant forall j :: j in perf && j !in keys ==> perf[best].averageLatency <= perf[j].averageLatency
      decreases keys
    {
      var k :| k in keys;
      if perf[k].averageLatency < perf[best].averageLatency {
        best := k;
      }
      keys := keys - {k};
    }
  }

  /** With every sample non-negative, every average is non-negative. */
  lemma {:induction false} SumNonNegative(xs: seq<int>)
    requires forall i :: 0 <= i < |xs| ==> xs[i] >= 0
    ensures Sum(xs) >= 0
  {
    if xs != [] {
      SumNonNegative(xs[..|xs| - 1]);
    }
  }

  lemma {:induction false} SumAtLeastCount(xs: seq<int>)
    requires forall i :: 0 <= i < |xs| ==> xs[i] >= 1
    ensures Sum(xs) >= |xs|
  {
    if xs != [] {
      SumAtLeastCount(xs[..|xs| - 1]);
    }
  }

  /**
   * Because an untried size keeps average 0, a size all of whose samples
   * took at least a microsecond is never optimal while some size is
   * untried: the optimizer tries every candidate before returning to a
   * measured one.
   */
  lemma MeasuredLosesToUntried(perf: map<nat, PerfRecord>, samples: map<nat, seq<int>>, measured: nat, untried: nat)
    requires perf.Keys == samples.Keys
    requires forall k :: k in perf ==> Summarises(perf[k], samples[k])
    requires measured in perf && samples[measured] != []
    requires forall i :: 0 <= i < |samples[measured]| ==> samples[measured][i] >= 1
    requires untried in perf && samples[untried] == []
    ensures !IsMinimiser(perf, measured)
  {
    var xs := samples[measured];
    SumAtLeastCount(xs);
    var q := TruncDiv(Sum(xs), |xs|);
    assert q != 0;
    assert perf[untried].averageLatency == 0;
  }

  /** With non-negative samples an untried size is always among the optimal ones. */
  lemma UntriedIsOptimal(perf: map<nat, PerfRecord>, samples: map<nat, seq<int>>, untried: nat)
    requires perf.Keys == samples.Keys
    requires forall k :: k in perf ==> Summarises(perf[k], samples[k])
    requires forall k, i :: k in samples && 0 <= i < |samples[k]| ==> samples[k][i] >= 0
    requires untried in perf && samples[untried] == []
    ensures IsMinimiser(perf, untried)
  {
    forall j | j in perf ensures perf[j].averageLatency >= 0 {
      SumNonNegative(samples[j]);
    }
  }

  /** The constructor's loop: a fresh record for every candidate, and no other keys. */
  method FreshRecords(sizes: seq<nat>) returns (data: map<nat, PerfRecord>)
    ensures forall s :: s in data <==> s in sizes
    ensures forall s :: s in data ==> data[s] == FRESH_RECORD
  {
    data := map[];
    for i := 0 to |sizes|
      invariant forall s :: s in data <==> s in sizes[..i]
      invariant forall s :: s in data ==> data[s] == FRESH_RECORD
    {
      assert sizes[..i + 1] == sizes[..i] + [sizes[i]];
      data := data[sizes[i] := FRESH_RECORD];
    }
    assert sizes[..|sizes|] == sizes;
  }

  class ChunkSizeOptimizer {
    /** `possible_sizes_`, sorted by the constructor. */
    var possibleSizes: seq<nat>
    /** `current_size_index_`. */
    var currentSizeIndex: nat
    /** `performance_data_`. */
    var performanceData: map<nat, PerfRecord>
    /** The latency samples recorded for each size, oldest first. */
    ghost var Samples: map<nat, seq<int>>

    ghost predicate Valid()
      reads this
    {
      && Sorted(possibleSizes)
      && (possibleSizes != [] ==> currentSizeIndex < |possibleSizes|)
      && (forall s :: s in possibleSizes ==> s in performanceData)
      && performanceData.Keys == Samples.Keys
      && (forall k :: k in performanceData ==> Summarises(performanceData[k], Samples[k]))
    }

    /**
     * The constructor: sorts the candidates, starts at the middle index and
     * gives every candidate a fresh record.
     */
    constructor (sizes: seq<nat>)
      ensures Valid()
      ensures possibleSizes == SortedCopy(sizes)
      ensures currentSizeIndex == |sizes| / 2
      ensures forall s :: s in performanceData <==> s in sizes
      ensures forall s :: s in performanceData ==> performanceData[s] == FRESH_RECORD
      ensures forall s :: s in Samples ==> Samples[s] == []
    {
      var sorted := SortedCopy(sizes);
      var data := FreshRecords(sorted);
      SameElements(sorted, sizes);
      possibleSizes := sorted;
      currentSizeIndex := |sizes| / 2;
      performanceData := data;
      Samples := map k | k in data :: [];
    }

    /**
     * `recordPerformance`: the size's record (created fresh if the size is
     * not a candidate) gains one sample; every other record is unchanged.
     */
    method RecordPerformance(size: nat, latency: int)
      requires Valid()
      modifies this
      ensures Valid()
      ensures performanceData == old(performanceData)[size :=
                Recorded(if size in old(performanceData) then old(performanceData)[size] else FRESH_RECORD, latency)]
      ensures Samples == old(Samples)[size := (if size in old(Samples) then old(Samples)[size] else []) + [latency]]
      ensures possibleSizes == old(possibleSizes) && currentSizeIndex == old(currentSizeIndex)
    {
      var data := if size in performanceData then performanceData[size] else FRESH_RECORD;
      ghost var samples := if size in Samples then Samples[size] else [];
      RecordedSummarises(data, samples, latency);
      performanceData := performanceData[size := Recorded(data, latency)];
      Samples := Samples[size := samples + [latency]];
    }

    /**
     * `optimizeChunkSize`: picks a size of smallest average latency and,
     * if it is a candidate, moves the index to its first position.
     */
    method OptimizeChunkSize() returns (ghost chosen: nat)
      requires Valid() && possibleSizes != []
      modifies this`currentSizeIndex
      ensures Valid()
      ensures IsMinimiser(performanceData, chosen)
      ensures chosen in possibleSizes ==> currentSizeIndex == Find(possibleSizes, chosen)
      ensures chosen !in possibleSizes ==> currentSizeIndex == old(currentSizeIndex)
    {
      assert possibleSizes[0] in performanceData;
      var optimalSize := MinLatencySize(performanceData);
      chosen := optimalSize;
      var i := Find(possibleSizes, optimalSize);
      if i < |possibleSizes| {
        currentSizeIndex := i;
      }
    }

    /**
     * `getOptimalChunkSize`: re-optimizes, then returns the candidate at the
     * index.  The result is always a candidate, and it has the smallest
     * average latency whenever the minimiser picked is a candidate.
     */
    method GetOptimalChunkSize() returns (size: nat)
      requires Valid() && possibleSizes != []
      modifies this`currentSizeIndex
      ensures Valid()
      ensures size in possibleSizes && size == possibleSizes[currentSizeIndex]
      ensures (forall k :: IsMinimiser(performanceData, k) ==> k in possibleSizes) ==> IsMinimiser(performanceData, size)
      ensures forall c :: c in possibleSizes && (forall k :: IsMinimiser(performanceData, k) ==> k == c) ==> size == c
      ensures Reoptimized(performanceData, possibleSizes, old(currentSizeIndex), currentSizeIndex)
    {
      ghost var chosen := OptimizeChunkSize();
      size := possibleSizes[currentSizeIndex];
    }
  }
}
