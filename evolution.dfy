/** Machinery the two genetic matchers share (app/utils/floatGeneticAlgorithm.ts and
    app/utils/geneticAlgorithm.ts): the random stream that stands for Math.random, the
    fitness transform, roulette-wheel selection, the best-of-generation search and the
    elite that survives into the next generation. */
module Evolution {
  import opened Js
  import opened Sorting

  /** Math.random as an explicit stream: the k-th call returns draw(k). */
  ghost predicate IsUnitStream(draw: nat -> real)
  {
    forall k: nat :: 0.0 <= draw(k) < 1.0
  }

  /** A value built from the stream, and the position of the first draw it left unused. */
  datatype Drawn<T> = Drawn(value: T, next: nat)

  /** What the model needs of Math.sqrt: a non-negative square root on non-negative input,
      zero at zero. */
  ghost predicate NonNegativeRoot(sqrt: real -> real)
  {
    sqrt(0.0) == 0.0 && forall x: real :: x >= 0.0 ==> sqrt(x) >= 0.0 && sqrt(x) * sqrt(x) == x
  }

  /** `Math.floor(Math.random() * count)`: an index below `count`. */
  function RandomBelow(r: real, count: nat): (k: nat)
    requires 0.0 <= r < 1.0 && count > 0
    ensures k < count
    ensures k as real <= r * count as real < k as real + 1.0
  {
    assert count as real - r * count as real == (1.0 - r) * count as real;
    assert (1.0 - r) * count as real > 0.0;
    Floor(r * count as real)
  }

  /** `1 / (1 + d)`: the fitness of a distance. */
  function Fitness(d: real): (f: real)
    requires d >= 0.0
    ensures 0.0 < f <= 1.0
    ensures f == 1.0 <==> d == 0.0
  {
    1.0 / (1.0 + d)
  }

  /** A smaller distance never has a smaller fitness. */
  lemma FitnessAntitone(d1: real, d2: real)
    requires 0.0 <= d1 <= d2
    ensures Fitness(d1) >= Fitness(d2)
  {
    assert Fitness(d1) * (1.0 + d1) == 1.0;
    assert Fitness(d2) * (1.0 + d2) == 1.0;
    assert Fitness(d2) * (1.0 + d1) <= Fitness(d2) * (1.0 + d2);
  }

  /** `distances.map(d => 1 / (1 + d))`. */
  function FitnessScores(distances: seq<real>): (scores: seq<real>)
    requires forall i :: 0 <= i < |distances| ==> distances[i] >= 0.0
    ensures |scores| == |distances| && AllPositive(scores)
    ensures forall i :: 0 <= i < |scores| ==> scores[i] == Fitness(distances[i])
  {
    seq(|distances|, i requires 0 <= i < |distances| => Fitness(distances[i]))
  }

  // ---------------------------------------------------------------- roulette-wheel selection

  /** The sum of the first n scores, added left to right as `reduce` does. */
  function PrefixSum(scores: seq<real>, n: nat): real
    requires n <= |scores|
  {
    if n == 0 then 0.0 else PrefixSum(scores, n - 1) + scores[n - 1]
  }

  /** `fitnessScores.reduce((a, b) => a + b, 0)`. */
  function Sum(scores: seq<real>): real
  {
    PrefixSum(scores, |scores|)
  }

  /** The running total once slot i has been subtracted. */
  function RunningTotal(scores: seq<real>, i: nat): real
    requires i < |scores|
  {
    PrefixSum(scores, i + 1)
  }

  predicate AllPositive(scores: seq<real>)
  {
    forall i :: 0 <= i < |scores| ==> scores[i] > 0.0
  }

  /** With positive scores the running totals climb. */
  lemma {:induction false} PrefixSumMonotone(scores: seq<real>, m: nat, n: nat)
    requires AllPositive(scores) && m <= n <= |scores|
    ensures PrefixSum(scores, m) <= PrefixSum(scores, n)
    ensures m < n ==> PrefixSum(scores, m) < PrefixSum(scores, n)
    decreases n
  {
    if m < n {
      PrefixSumMonotone(scores, m, n - 1);
    }
  }

  /** A sum of positive scores over a non-empty list is positive. */
  lemma SumPositive(scores: seq<real>)
    requires AllPositive(scores) && |scores| > 0
    ensures Sum(scores) > 0.0
  {
    PrefixSumMonotone(scores, 0, |scores|);
  }

  /** Where the wheel stops for `target`: the first slot whose running total reaches the
      target, or the last slot when none does. */
  function WheelSlot(scores: seq<real>, target: real): (i: nat)
    requires |scores| > 0
    ensures i < |scores|
    ensures forall j :: 0 <= j < i ==> RunningTotal(scores, j) < target
    ensures RunningTotal(scores, i) >= target || i == |scores| - 1
  {
    FirstReaching(scores, target, 0)
  }

  function FirstReaching(scores: seq<real>, target: real, from: nat): (i: nat)
    requires from < |scores|
    requires forall j :: 0 <= j < from ==> RunningTotal(scores, j) < target
    ensures from <= i < |scores|
    ensures forall j :: 0 <= j < i ==> RunningTotal(scores, j) < target
    ensures RunningTotal(scores, i) >= target || i == |scores| - 1
    decreases |scores| - from
  {
    if RunningTotal(scores, from) >= target || from == |scores| - 1 then from
    else FirstReaching(scores, target, from + 1)
  }

  /** The wheel is a partition of [0, total] into one segment per slot: with positive
      scores and a target in [0, total], slot i is chosen exactly when the target falls in
      i's segment (PrefixSum(i), PrefixSum(i + 1)] (the first segment closed at 0). */
  lemma WheelSlotSegment(scores: seq<real>, target: real, i: nat)
    requires |scores| > 0 && AllPositive(scores)
    requires 0.0 <= target <= Sum(scores) && i < |scores|
    ensures WheelSlot(scores, target) == i <==>
      (i == 0 || PrefixSum(scores, i) < target) && target <= PrefixSum(scores, i + 1)
  {
    var w := WheelSlot(scores, target);
    PrefixSumMonotone(scores, w + 1, |scores|);
    if w == i && i > 0 {
      assert RunningTotal(scores, i - 1) < target;
    }
    if (i == 0 || PrefixSum(scores, i) < target) && target <= PrefixSum(scores, i + 1) {
      forall j | 0 <= j < i
        ensures RunningTotal(scores, j) < target
      {
        PrefixSumMonotone(scores, j + 1, i);
      }
      assert RunningTotal(scores, i) >= target;
      assert w <= i;
      assert w >= i;
    }
  }

  /** `selectParent`: spins the wheel once with `Math.random() * totalFitness`, subtracting
      each score in turn until the remainder is not positive, falling back to the last member. */
  method SelectParent<T(==)>(population: seq<T>, fitnessScores: seq<real>, draw: nat -> real, at: nat)
    returns (parent: T, next: nat)
    requires |population| > 0 && |fitnessScores| == |population|
    ensures next == at + 1
    ensures parent == population[WheelSlot(fitnessScores, draw(at) * Sum(fitnessScores))]
    ensures parent in population
  {
    var totalFitness := Sum(fitnessScores);
    ghost var target := draw(at) * totalFitness;
    var random := draw(at) * totalFitness;
    next := at + 1;
    var i := 0;
    while i < |population|
      invariant 0 <= i <= |population|
      invariant random == target - PrefixSum(fitnessScores, i)
      invariant forall j :: 0 <= j < i ==> RunningTotal(fitnessScores, j) < target
    {
      random := random - fitnessScores[i];
      if random <= 0.0 {
        assert RunningTotal(fitnessScores, i) >= target;
        ghost var w := WheelSlot(fitnessScores, target);
        assert w == i;
        return population[i], next;
      }
      i := i + 1;
    }
    return population[|population| - 1], next;
  }

  // ---------------------------------------------------------------- best and elite

  /** Entry k + 1 is not above entry k. */
  predicate StepsDown(xs: seq<real>, k: nat)
    requires k + 1 < |xs|
  {
    xs[k + 1] <= xs[k]
  }

  /** A sequence that never rises from one entry to the next never rises at all. */
  lemma NonIncreasingFromSteps(xs: seq<real>)
    requires forall k :: 0 <= k < |xs| - 1 ==> StepsDown(xs, k)
    ensures forall g, h :: 0 <= g < h < |xs| ==> xs[h] <= xs[g]
  {
    forall g, h | 0 <= g < h < |xs|
      ensures xs[h] <= xs[g]
    {
      NonIncreasingBetween(xs, g, h);
    }
  }

  lemma {:induction false} NonIncreasingBetween(xs: seq<real>, g: nat, h: nat)
    requires forall k :: 0 <= k < |xs| - 1 ==> StepsDown(xs, k)
    requires g <= h < |xs|
    ensures xs[h] <= xs[g]
    decreases h - g
  {
    if g < h {
      NonIncreasingBetween(xs, g + 1, h);
      assert StepsDown(xs, g);
    }
  }

  /** `distances.indexOf(Math.min(...distances))`: the first position of the smallest value. */
  function MinIndex(ds: seq<real>): (i: nat)
    requires |ds| > 0
    ensures i < |ds|
    ensures forall j :: 0 <= j < |ds| ==> ds[i] <= ds[j]
    ensures forall j :: 0 <= j < i ==> ds[j] != ds[i]
  {
    if |ds| == 1 then 0
    else
      var m := MinIndex(ds[..|ds| - 1]);
      if ds[|ds| - 1] < ds[m] then |ds| - 1 else m
  }

  /** The best distance seen so far; `Infinity` before the first generation. */
  datatype Extended = Infinite | Finite(value: real)

  /** `d < bestDistance`. */
  predicate Below(d: real, best: Extended)
  {
    best.Infinite? || d < best.value
  }

  /** An individual with its distance, as the elite computation pairs them up. */
  datatype Scored<T> = Scored(individual: T, distance: real)

  function Zip<T>(population: seq<T>, distances: seq<real>): (z: seq<Scored<T>>)
    requires |distances| == |population|
    ensures |z| == |population|
    ensures forall i :: 0 <= i < |z| ==> z[i] == Scored(population[i], distances[i])
  {
    seq(|population|, i requires 0 <= i < |population| => Scored(population[i], distances[i]))
  }

  /** The key under which sorting largest-first means `(a, b) => a.distance - b.distance`. */
  function NegatedDistance<T>(s: Scored<T>): real
  {
    -s.distance
  }

  /** The pairs in non-decreasing distance, equal distances in population order. */
  function Ranked<T>(population: seq<T>, distances: seq<real>): (r: seq<Scored<T>>)
    requires |distances| == |population|
    ensures |r| == |population|
  {
    SortDescending(Zip(population, distances), NegatedDistance)
  }

  /** Ranking is a permutation of the pairs into non-decreasing distance. */
  lemma RankedIsOrderedPermutation<T>(population: seq<T>, distances: seq<real>)
    requires |distances| == |population|
    ensures multiset(Ranked(population, distances)) == multiset(Zip(population, distances))
    ensures forall i, j :: 0 <= i < j < |population| ==>
      Ranked(population, distances)[i].distance <= Ranked(population, distances)[j].distance
  {
    var r := Ranked(population, distances);
    SortDescendingSorts(Zip(population, distances), NegatedDistance);
    assert forall i, j :: 0 <= i < j < |r| ==> NegatedDistance(r[i]) >= NegatedDistance(r[j]);
  }

  /** `population.map(...).sort(...).slice(0, size).map(e => e.individual)`. */
  function Elite<T>(population: seq<T>, distances: seq<real>, size: nat): (elite: seq<T>)
    requires |distances| == |population|
    ensures |elite| == MinNat(size, |population|)
    ensures forall a :: 0 <= a < |elite| ==> elite[a] == Ranked(population, distances)[a].individual
  {
    var r := Ranked(population, distances);
    var k := MinNat(size, |population|);
    seq(k, a requires 0 <= a < k => r[a].individual)
  }

  /** The elite are the lowest-distance individuals: every member of the population either
      is among the first `size` ranked pairs or is at least as far as each of them. */
  lemma EliteAreLowest<T>(population: seq<T>, distances: seq<real>, size: nat, j: nat)
    requires |distances| == |population| && j < |population|
    ensures Scored(population[j], distances[j]) in Ranked(population, distances)[..MinNat(size, |population|)]
      || forall a :: 0 <= a < MinNat(size, |population|) ==> Ranked(population, distances)[a].distance <= distances[j]
  {
    var r := Ranked(population, distances);
    RankedIsOrderedPermutation(population, distances);
    var z := Zip(population, distances);
    var k := MinNat(size, |population|);
    assert z[j] in multiset(r);
    var b :| 0 <= b < |r| && r[b] == z[j];
    if b < k {
      assert r[..k][b] == z[j];
    }
  }

  /** Every elite member comes from the population, with its own distance. */
  lemma EliteFromPopulation<T>(population: seq<T>, distances: seq<real>, size: nat, a: nat)
    requires |distances| == |population| && a < MinNat(size, |population|)
    ensures exists j :: (0 <= j < |population| && Elite(population, distances, size)[a] == population[j]
                         && Ranked(population, distances)[a].distance == distances[j])
  {
    var r := Ranked(population, distances);
    RankedIsOrderedPermutation(population, distances);
    var z := Zip(population, distances);
    assert r[a] in multiset(z);
    var j :| 0 <= j < |z| && z[j] == r[a];
    assert Elite(population, distances, size)[a] == population[j];
  }

  /** The first ranked pair has the smallest distance in the population. */
  lemma RankedHeadIsMinimum<T>(population: seq<T>, distances: seq<real>)
    requires |distances| == |population| && |population| > 0
    ensures Ranked(population, distances)[0].distance == distances[MinIndex(distances)]
  {
    var r := Ranked(population, distances);
    RankedIsOrderedPermutation(population, distances);
    var z := Zip(population, distances);
    var m := MinIndex(distances);
    assert r[0] in multiset(z);
    var j :| 0 <= j < |z| && z[j] == r[0];
    assert z[m] in multiset(r);
    var b :| 0 <= b < |r| && r[b] == z[m];
    assert r[0].distance <= r[b].distance;
  }
}
