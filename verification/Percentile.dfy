/**
  The two latency percentiles of the benchmarks (scripts/bench_ingestion.py,
  scripts/benchmarks/latency_evaluate.py), over reals.
 */
module Percentile {
  import opened Basics

  predicate Sorted(xs: seq<real>) {
    forall i, j :: 0 <= i <= j < |xs| ==> xs[i] <= xs[j]
  }

  // --- sorted(values) ---

  function Insert(xs: seq<real>, x: real): (r: seq<real>)
    ensures |r| == |xs| + 1
  {
    if xs == [] || x <= xs[0] then [x] + xs else [xs[0]] + Insert(xs[1..], x)
  }

  function Sort(values: seq<real>): (r: seq<real>)
    ensures |r| == |values|
  {
    if values == [] then [] else Insert(Sort(values[1..]), values[0])
  }

  lemma {:induction false} InsertAdds(xs: seq<real>, x: real)
    ensures multiset(Insert(xs, x)) == multiset(xs) + multiset{x}
  {
    if xs != [] && x > xs[0] {
      InsertAdds(xs[1..], x);
      assert xs == [xs[0]] + xs[1..];
    }
  }

  predicate Below(low: real, xs: seq<real>) {
    forall i :: 0 <= i < |xs| ==> low <= xs[i]
  }

  lemma SortedCons(x: real, xs: seq<real>)
    requires Sorted(xs) && Below(x, xs)
    ensures Sorted([x] + xs) && ([x] + xs)[1..] == xs
  {
  }

  lemma SortedTail(xs: seq<real>)
    requires Sorted(xs) && xs != []
    ensures Sorted(xs[1..]) && Below(xs[0], xs[1..])
  {
  }

  lemma {:induction false} InsertSorts(xs: seq<real>, x: real, low: real)
    requires Sorted(xs) && Below(low, xs) && low <= x
    ensures Sorted(Insert(xs, x)) && Below(low, Insert(xs, x))
  {
    if xs == [] || x <= xs[0] {
      SortedCons(x, xs);
    } else {
      SortedTail(xs);
      InsertSorts(xs[1..], x, xs[0]);
      SortedCons(xs[0], Insert(xs[1..], x));
    }
  }

  lemma {:induction false} SortSorts(values: seq<real>)
    ensures Sorted(Sort(values)) && multiset(Sort(values)) == multiset(values)
  {
    if values != [] {
      SortSorts(values[1..]);
      var xs, x := Sort(values[1..]), values[0];
      InsertSorts(xs, x, if xs != [] && xs[0] < x then xs[0] else x);
      InsertAdds(xs, x);
      assert values == [x] + values[1..];
    }
  }

  // --- The two functions ---

  function Floor(x: real): int {
    x.Floor
  }

  function Ceil(x: real): int {
    if x == x.Floor as real then x.Floor else x.Floor + 1
  }

  function Times(a: real, b: real): real {
    a * b
  }

  /** The point at fraction t of the way from a to b. */
  function Mix(a: real, b: real, t: real): real {
    a + Times(b - a, t)
  }

  /** None is the NaN of an empty list. */
  function PercentileMs(values: seq<real>, p: real): Option<real>
    requires 0.0 <= p <= 100.0
  {
    var xs := Sort(values);
    var n := |xs|;
    if n == 0 then None
    else if n == 1 then Some(xs[0])
    else Some(NearestRanks(xs, Rank(n, p)))
  }

  function Rank(n: nat, p: real): (rank: real)
    requires n >= 1 && 0.0 <= p <= 100.0
    ensures 0.0 <= rank <= (n - 1) as real
  {
    Product(p / 100.0, (n - 1) as real);
    Times(p / 100.0, (n - 1) as real)
  }

  function NearestRanks(xs: seq<real>, rank: real): real
    requires 0.0 <= rank <= (|xs| - 1) as real
  {
    var lo, hi := Floor(rank), Ceil(rank);
    if lo == hi then xs[lo] else Mix(xs[lo], xs[hi], rank - lo as real)
  }

  function PercentileOf(sortedMs: seq<real>, p: real): real
    requires 0.0 <= p <= 100.0
  {
    if sortedMs == [] then 0.0
    else
      Product(p / 100.0, (|sortedMs| - 1) as real);
      UpperNeighbour(sortedMs, Times((|sortedMs| - 1) as real, p / 100.0))
  }

  function UpperNeighbour(sortedMs: seq<real>, k: real): real
    requires 0.0 <= k <= (|sortedMs| - 1) as real
  {
    var f := Floor(k);
    var c := if f + 1 < |sortedMs| - 1 then f + 1 else |sortedMs| - 1;
    if f == c then sortedMs[f] else Mix(sortedMs[f], sortedMs[c], k - f as real)
  }

  lemma Product(q: real, m: real)
    requires 0.0 <= q <= 1.0 && 0.0 <= m
    ensures 0.0 <= Times(q, m) <= m && Times(q, m) == Times(m, q)
  {
    assert m - q * m == (1.0 - q) * m;
  }

  // --- One piecewise linear function ---

  /** The broken line through the points (i, xs[i]). */
  function At(xs: seq<real>, k: real): real
    requires 0.0 <= k <= (|xs| - 1) as real
  {
    var f := Floor(k);
    if f == |xs| - 1 then xs[f] else Mix(xs[f], xs[f + 1], k - f as real)
  }

  lemma Between(a: real, b: real, t: real)
    requires a <= b && 0.0 <= t <= 1.0
    ensures a <= Mix(a, b, t) <= b
  {
    var d := b - a;
    Product(t, d);
  }

  lemma Steeper(d: real, t: real, t': real)
    requires 0.0 <= d && t <= t'
    ensures Times(d, t) <= Times(d, t')
  {
    assert d * t' - d * t == d * (t' - t);
  }

  lemma MixMonotone(a: real, b: real, t: real, t': real)
    requires a <= b && t <= t'
    ensures Mix(a, b, t) <= Mix(a, b, t')
  {
    Steeper(b - a, t, t');
  }

  /** The line stays between its neighbouring points. */
  lemma AtBetween(xs: seq<real>, k: real)
    requires Sorted(xs) && 0.0 <= k <= (|xs| - 1) as real
    ensures xs[Floor(k)] <= At(xs, k)
    ensures Floor(k) + 1 < |xs| ==> At(xs, k) <= xs[Floor(k) + 1]
    ensures xs[0] <= At(xs, k) <= xs[|xs| - 1]
  {
    var f := Floor(k);
    if f < |xs| - 1 { Between(xs[f], xs[f + 1], k - f as real); }
  }

  lemma AtMonotone(xs: seq<real>, k: real, k': real)
    requires Sorted(xs) && 0.0 <= k <= k' <= (|xs| - 1) as real
    ensures At(xs, k) <= At(xs, k')
  {
    var f, f' := Floor(k), Floor(k');
    if f == f' {
      if f < |xs| - 1 { MixMonotone(xs[f], xs[f + 1], k - f as real, k' - f as real); }
    } else {
      AtBetween(xs, k);
      AtBetween(xs, k');
      assert xs[f + 1] <= xs[f'];
    }
  }

  lemma UpperNeighbourIsAt(xs: seq<real>, k: real)
    requires 0.0 <= k <= (|xs| - 1) as real
    ensures UpperNeighbour(xs, k) == At(xs, k)
  {
  }

  lemma PercentileOfIsAt(xs: seq<real>, p: real)
    requires xs != [] && 0.0 <= p <= 100.0
    ensures PercentileOf(xs, p) == At(xs, Rank(|xs|, p))
  {
    Product(p / 100.0, (|xs| - 1) as real);
    UpperNeighbourIsAt(xs, Rank(|xs|, p));
  }

  lemma NearestRanksIsAt(xs: seq<real>, rank: real)
    requires 0.0 <= rank <= (|xs| - 1) as real
    ensures NearestRanks(xs, rank) == At(xs, rank)
  {
    var f := Floor(rank);
    if rank == f as real && f < |xs| - 1 { MixZero(xs[f], xs[f + 1]); }
  }

  lemma MixZero(a: real, b: real)
    ensures Mix(a, b, 0.0) == a
  {
  }

  lemma PercentileMsIsAt(values: seq<real>, p: real)
    requires values != [] && 0.0 <= p <= 100.0
    ensures |Sort(values)| == |values|
    ensures PercentileMs(values, p) == Some(At(Sort(values), Rank(|values|, p)))
  {
    NearestRanksIsAt(Sort(values), Rank(|values|, p));
  }

  lemma RankIs(n: nat, p: real)
    requires n >= 1 && 0.0 <= p <= 100.0
    ensures Rank(n, p) == p * (n - 1) as real / 100.0
  {
  }

  lemma MixWeighs(a: real, b: real, low: real, k: real)
    requires low <= k <= low + 1.0
    ensures Mix(a, b, k - low) == a * (low + 1.0 - k) + b * (k - low)
  {
    var t := k - low;
    assert (b - a) * t == b * t - a * t;
    assert a * (1.0 - t) == a - a * t;
  }

  lemma AtWeighs(xs: seq<real>, k: real, i: nat)
    requires i + 1 < |xs| && i as real <= k <= (i + 1) as real
    ensures At(xs, k) == xs[i] * ((i + 1) as real - k) + xs[i + 1] * (k - i as real)
  {
    MixWeighs(xs[i], xs[i + 1], i as real, k);
    if k == (i + 1) as real {
      assert Floor(k) == i + 1;
      assert xs[i] * 0.0 + xs[i + 1] * 1.0 == xs[i + 1];
      if i + 1 < |xs| - 1 { MixZero(xs[i + 1], xs[i + 2]); }
    } else {
      assert Floor(k) == i;
    }
  }

  /**
    The value itself: where the p-th part of the way along the sorted list falls between two neighbours, their mean,
    each weighed by how close it is.
   */
  lemma PercentileExactly(values: seq<real>, xs: seq<real>, p: real, rank: real, i: nat)
    requires 0.0 <= p <= 100.0 && i + 1 < |values| && Sorted(xs) && multiset(xs) == multiset(values)
    requires |xs| == |values| && rank == p * (|values| - 1) as real / 100.0 && i as real <= rank <= (i + 1) as real
    ensures PercentileMs(values, p) == Some(xs[i] * ((i + 1) as real - rank) + xs[i + 1] * (rank - i as real))
  {
    SortSorts(values);
    SortedUnique(Sort(values), xs);
    PercentileMsIsAt(values, p);
    RankIs(|values|, p);
    AtWeighs(xs, rank, i);
    assert Rank(|values|, p) == rank;
  }

  /** The two agree on exactly the lists that are not empty; of an empty one they make NaN and zero. */
  lemma PercentilesAgree(values: seq<real>, p: real)
    requires 0.0 <= p <= 100.0
    ensures PercentileMs(values, p) == Some(PercentileOf(Sort(values), p)) <==> values != []
    ensures values == [] ==> PercentileMs(values, p) == None && PercentileOf(Sort(values), p) == 0.0
  {
    if values != [] {
      PercentileMsIsAt(values, p);
      PercentileOfIsAt(Sort(values), p);
    }
  }

  lemma RankMonotone(n: nat, p: real, p': real)
    requires n >= 1 && 0.0 <= p <= p' <= 100.0
    ensures Rank(n, p) <= Rank(n, p')
    ensures Rank(n, 0.0) == 0.0 && Rank(n, 100.0) == (n - 1) as real
  {
    Steeper((n - 1) as real, p / 100.0, p' / 100.0);
    Product(p / 100.0, (n - 1) as real);
    Product(p' / 100.0, (n - 1) as real);
  }

  /** The value lies within the sample and grows with p. */
  lemma PercentileMonotone(values: seq<real>, p: real, p': real)
    requires values != [] && 0.0 <= p <= p' <= 100.0
    ensures PercentileMs(values, p).value <= PercentileMs(values, p').value
  {
    SortSorts(values);
    PercentileMsIsAt(values, p);
    PercentileMsIsAt(values, p');
    RankMonotone(|values|, p, p');
    AtMonotone(Sort(values), Rank(|values|, p), Rank(|values|, p'));
  }

  /** At 0 and at 100 it is the least and the greatest value. */
  lemma PercentileEnds(values: seq<real>)
    requires values != []
    ensures PercentileMs(values, 0.0) == Some(Sort(values)[0])
    ensures PercentileMs(values, 100.0) == Some(Sort(values)[|values| - 1])
    ensures Sort(values)[0] in values && Sort(values)[|values| - 1] in values
    ensures forall v :: v in values ==> Sort(values)[0] <= v <= Sort(values)[|values| - 1]
  {
    PercentileMsIsAt(values, 0.0);
    PercentileMsIsAt(values, 100.0);
    RankMonotone(|values|, 0.0, 100.0);
    SortSorts(values);
    SameMembers(Sort(values), values);
  }

  lemma SameMembers(xs: seq<real>, ys: seq<real>)
    requires multiset(xs) == multiset(ys)
    ensures forall v :: v in xs <==> v in ys
  {
    forall v ensures v in xs <==> v in ys {
      assert v in multiset(xs) <==> v in multiset(ys);
    }
  }

  /** Only the values matter, not their order. */
  lemma PercentileIgnoresOrder(values: seq<real>, values': seq<real>, p: real)
    requires multiset(values) == multiset(values') && 0.0 <= p <= 100.0
    ensures PercentileMs(values, p) == PercentileMs(values', p)
  {
    SortSorts(values);
    SortSorts(values');
    SortedUnique(Sort(values), Sort(values'));
    assert |values| == |Sort(values)| == |values'|;
    if values != [] {
      PercentileMsIsAt(values, p);
      PercentileMsIsAt(values', p);
    }
  }

  lemma {:induction false} SortedUnique(xs: seq<real>, ys: seq<real>)
    requires Sorted(xs) && Sorted(ys) && multiset(xs) == multiset(ys)
    ensures xs == ys
  {
    if xs == [] {
      assert |ys| == |multiset(ys)|;
    } else {
      SameMembers(xs, ys);
      assert xs[0] in xs;
      SameHead(xs, ys);
      TailLess(xs);
      TailLess(ys);
      SortedUnique(xs[1..], ys[1..]);
    }
  }

  lemma TailLess(xs: seq<real>)
    requires xs != []
    ensures multiset(xs[1..]) == multiset(xs) - multiset{xs[0]} && xs == [xs[0]] + xs[1..]
  {
    assert xs == [xs[0]] + xs[1..];
  }

  lemma SameHead(xs: seq<real>, ys: seq<real>)
    requires Sorted(xs) && Sorted(ys) && xs != [] && ys != []
    requires forall v :: v in xs <==> v in ys
    ensures xs[0] == ys[0]
  {
    assert xs[0] in xs && ys[0] in ys;
    var i :| 0 <= i < |ys| && ys[i] == xs[0];
    var j :| 0 <= j < |xs| && xs[j] == ys[0];
  }
}
