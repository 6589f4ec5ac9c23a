/** The floating-point genetic matcher of app/utils/floatGeneticAlgorithm.ts: individuals
    are twelve (amplitude, phase) pairs evolved towards a target set of epicycles under a
    circular phase distance, then quantised onto the word grid. */
module FloatGenetic {
  import opened Js
  import opened Bip39
  import opened Evolution
  import MnemonicCodec
  import Fourier

  const POPULATION_SIZE: nat := 150
  const MAX_GENERATIONS: nat := 80
  const MUTATION_RATE: real := 0.2
  const MUTATION_STRENGTH: real := 0.1
  const ELITE_SIZE: nat := 15
  const INDIVIDUAL_LENGTH: nat := 12

  datatype FloatEpicycle = FloatEpicycle(amplitude: real, phase: real)

  type FloatIndividual = seq<FloatEpicycle>

  /** The shape every individual the matcher creates keeps: twelve epicycles, amplitude in
      [0.1, 1], phase strictly inside (-2 pi, 2 pi) (mutation's `%` may leave it negative). */
  predicate IsIndividual(individual: FloatIndividual)
  {
    |individual| == INDIVIDUAL_LENGTH &&
    forall i :: 0 <= i < |individual| ==>
      0.1 <= individual[i].amplitude <= 1.0 && -2.0 * PI < individual[i].phase < 2.0 * PI
  }

  // ---------------------------------------------------------------- distance

  /** The phase difference taken round the circle: |p1 - p2|, replaced by 2 pi minus it
      when it exceeds pi. */
  function PhaseGap(p1: real, p2: real): (dp: real)
    ensures dp <= PI
    ensures -2.0 * PI <= p1 - p2 <= 2.0 * PI ==> 0.0 <= dp
    ensures -PI <= p1 - p2 <= PI ==> dp == (if p1 >= p2 then p1 - p2 else p2 - p1)
  {
    var d := if p1 - p2 < 0.0 then p2 - p1 else p1 - p2;
    if d > PI then 2.0 * PI - d else d
  }

  /** The squared length of (amplitude difference, circular phase difference). */
  function SquaredGap(e1: FloatEpicycle, e2: FloatEpicycle): (q: real)
    ensures q >= 0.0
  {
    (e1.amplitude - e2.amplitude) * (e1.amplitude - e2.amplitude)
      + PhaseGap(e1.phase, e2.phase) * PhaseGap(e1.phase, e2.phase)
  }

  /** One pair's term of the distance. */
  function PairDistance(e1: FloatEpicycle, e2: FloatEpicycle, sqrt: real -> real): real
  {
    sqrt(SquaredGap(e1, e2))
  }

  /** The distance over the first n pairs, summed left to right. */
  function DistanceUpTo(a: FloatIndividual, b: FloatIndividual, n: nat, sqrt: real -> real): real
    requires n <= |a| && n <= |b|
  {
    if n == 0 then 0.0 else DistanceUpTo(a, b, n - 1, sqrt) + PairDistance(a[n - 1], b[n - 1], sqrt)
  }

  /** The distance between two epicycle sets: over the pairs both of them have, and never
      negative. */
  function Distance(a: FloatIndividual, b: FloatIndividual, sqrt: real -> real): (d: real)
    ensures NonNegativeRoot(sqrt) ==> d >= 0.0
  {
    assert NonNegativeRoot(sqrt) ==> DistanceUpTo(a, b, MinNat(|a|, |b|), sqrt) >= 0.0 by {
      if NonNegativeRoot(sqrt) {
        DistanceUpToNonNegative(a, b, MinNat(|a|, |b|), sqrt);
      }
    }
    DistanceUpTo(a, b, MinNat(|a|, |b|), sqrt)
  }

  /** `calculateDistance`: the accumulator loop. */
  method CalculateDistance(epicycles1: FloatIndividual, epicycles2: FloatIndividual, sqrt: real -> real)
    returns (distance: real)
    ensures distance == Distance(epicycles1, epicycles2, sqrt)
  {
    distance := 0.0;
    var len := MinNat(|epicycles1|, |epicycles2|);
    var i := 0;
    while i < len
      invariant 0 <= i <= len
      invariant distance == DistanceUpTo(epicycles1, epicycles2, i, sqrt)
    {
      var da := epicycles1[i].amplitude - epicycles2[i].amplitude;
      var dp := if epicycles1[i].phase - epicycles2[i].phase < 0.0
        then epicycles2[i].phase - epicycles1[i].phase
        else epicycles1[i].phase - epicycles2[i].phase;
      if dp > PI {
        dp := 2.0 * PI - dp;
      }
      assert dp == PhaseGap(epicycles1[i].phase, epicycles2[i].phase);
      assert da * da + dp * dp == SquaredGap(epicycles1[i], epicycles2[i]);
      assert DistanceUpTo(epicycles1, epicycles2, i + 1, sqrt)
        == DistanceUpTo(epicycles1, epicycles2, i, sqrt) + PairDistance(epicycles1[i], epicycles2[i], sqrt);
      distance := distance + sqrt(da * da + dp * dp);
      i := i + 1;
    }
  }

  lemma {:induction false} DistanceUpToNonNegative(a: FloatIndividual, b: FloatIndividual, n: nat, sqrt: real -> real)
    requires NonNegativeRoot(sqrt) && n <= |a| && n <= |b|
    ensures DistanceUpTo(a, b, n, sqrt) >= 0.0
  {
    if n > 0 {
      DistanceUpToNonNegative(a, b, n - 1, sqrt);
      assert SquaredGap(a[n - 1], b[n - 1]) >= 0.0;
    }
  }

  lemma {:induction false} DistanceUpToSymmetric(a: FloatIndividual, b: FloatIndividual, n: nat, sqrt: real -> real)
    requires n <= |a| && n <= |b|
    ensures DistanceUpTo(a, b, n, sqrt) == DistanceUpTo(b, a, n, sqrt)
  {
    if n > 0 {
      DistanceUpToSymmetric(a, b, n - 1, sqrt);
      var x, y := a[n - 1], b[n - 1];
      assert (x.amplitude - y.amplitude) * (x.amplitude - y.amplitude)
        == (y.amplitude - x.amplitude) * (y.amplitude - x.amplitude);
      assert PhaseGap(x.phase, y.phase) == PhaseGap(y.phase, x.phase);
      assert SquaredGap(x, y) == SquaredGap(y, x);
    }
  }

  /** The distance is symmetric. */
  lemma DistanceSymmetric(a: FloatIndividual, b: FloatIndividual, sqrt: real -> real)
    ensures Distance(a, b, sqrt) == Distance(b, a, sqrt)
  {
    DistanceUpToSymmetric(a, b, MinNat(|a|, |b|), sqrt);
  }

  lemma {:induction false} DistanceUpToPrefix(a: FloatIndividual, b: FloatIndividual, n: nat, m: nat, sqrt: real -> real)
    requires n <= m <= |a| && m <= |b|
    ensures DistanceUpTo(a, b, n, sqrt) == DistanceUpTo(a[..m], b[..m], n, sqrt)
  {
    if n > 0 {
      DistanceUpToPrefix(a, b, n - 1, m, sqrt);
    }
  }

  /** Only the pairs both sets have count: entries beyond the shorter set are ignored. */
  lemma DistanceOfCommonPrefix(a: FloatIndividual, b: FloatIndividual, sqrt: real -> real)
    ensures Distance(a, b, sqrt) == Distance(a[..MinNat(|a|, |b|)], b[..MinNat(|a|, |b|)], sqrt)
  {
    DistanceUpToPrefix(a, b, MinNat(|a|, |b|), MinNat(|a|, |b|), sqrt);
  }

  // ---------------------------------------------------------------- random individuals

  /** `count` random epicycles, each drawing its amplitude `0.1 + r * 0.9` first and then
      its phase `r * 2 * Math.PI`. */
  function RandomEpicycles(count: nat, draw: nat -> real, at: nat): (r: Drawn<FloatIndividual>)
    ensures |r.value| == count && r.next == at + 2 * count
    ensures forall i :: 0 <= i < count ==>
      r.value[i] == FloatEpicycle(0.1 + draw(at + 2 * i) * 0.9, draw(at + 2 * i + 1) * 2.0 * PI)
  {
    if count == 0 then Drawn([], at)
    else
      var e := FloatEpicycle(0.1 + draw(at) * 0.9, draw(at + 1) * 2.0 * PI);
      var rest := RandomEpicycles(count - 1, draw, at + 2);
      Drawn([e] + rest.value, rest.next)
  }

  /** `generateRandomIndividual`: twelve random epicycles, amplitude in [0.1, 1) and phase
      in [0, 2 pi). */
  function GenerateRandomIndividual(draw: nat -> real, at: nat): (r: Drawn<FloatIndividual>)
    requires IsUnitStream(draw)
    ensures r.next == at + 2 * INDIVIDUAL_LENGTH
    ensures IsIndividual(r.value)
    ensures forall i :: 0 <= i < |r.value| ==>
      r.value[i].amplitude < 1.0 && 0.0 <= r.value[i].phase
  {
    var r := RandomEpicycles(INDIVIDUAL_LENGTH, draw, at);
    assert forall i :: 0 <= i < INDIVIDUAL_LENGTH ==> 0.0 <= draw(at + 2 * i) < 1.0 && 0.0 <= draw(at + 2 * i + 1) < 1.0;
    r
  }

  /** `Array.from({ length: count }, generateRandomIndividual)`. */
  function RandomPopulation(count: nat, draw: nat -> real, at: nat): (r: Drawn<seq<FloatIndividual>>)
    requires IsUnitStream(draw)
    ensures |r.value| == count && r.next >= at
    ensures forall i :: 0 <= i < count ==> IsIndividual(r.value[i])
  {
    if count == 0 then Drawn([], at)
    else
      var first := GenerateRandomIndividual(draw, at);
      var rest := RandomPopulation(count - 1, draw, first.next);
      Drawn([first.value] + rest.value, rest.next)
  }

  // ---------------------------------------------------------------- crossover and mutation

  /** `Math.floor(Math.random() * 12)`. */
  function CrossoverPoint(draw: nat -> real, at: nat): (cp: nat)
    requires IsUnitStream(draw)
    ensures cp < INDIVIDUAL_LENGTH
  {
    RandomBelow(draw(at), INDIVIDUAL_LENGTH)
  }

  /** `crossover`: parent1 before the crossover point, parent2 from it on. */
  function Crossover(parent1: FloatIndividual, parent2: FloatIndividual, draw: nat -> real, at: nat)
    : (r: Drawn<FloatIndividual>)
    requires IsUnitStream(draw)
    ensures r.next == at + 1
    ensures |r.value| == MinNat(CrossoverPoint(draw, at), |parent1|)
      + (|parent2| - MinNat(CrossoverPoint(draw, at), |parent2|))
    ensures |parent1| == |parent2| == INDIVIDUAL_LENGTH ==>
      |r.value| == INDIVIDUAL_LENGTH &&
      forall i :: 0 <= i < INDIVIDUAL_LENGTH ==>
        r.value[i] == (if i < CrossoverPoint(draw, at) then parent1[i] else parent2[i])
  {
    var cp := CrossoverPoint(draw, at);
    Drawn(Slice(parent1, 0, cp) + Slice(parent2, cp, |parent2|), at + 1)
  }

  /** Two well-formed parents give a well-formed child. */
  lemma CrossoverKeepsShape(parent1: FloatIndividual, parent2: FloatIndividual, draw: nat -> real, at: nat)
    requires IsUnitStream(draw) && IsIndividual(parent1) && IsIndividual(parent2)
    ensures IsIndividual(Crossover(parent1, parent2, draw, at).value)
  {
    var child := Crossover(parent1, parent2, draw, at).value;
    forall i | 0 <= i < |child|
      ensures 0.1 <= child[i].amplitude <= 1.0 && -2.0 * PI < child[i].phase < 2.0 * PI
    {
      assert child[i] == parent1[i] || child[i] == parent2[i];
    }
  }

  /** What mutation may make of an epicycle: the amplitude moved by less than half the
      mutation strength and clamped into [0.1, 1], the phase moved and reduced by `%` to
      strictly inside (-2 pi, 2 pi). */
  predicate IsMutationOf(e: FloatEpicycle, m: FloatEpicycle)
  {
    0.1 <= m.amplitude <= 1.0 &&
    (0.1 <= e.amplitude <= 1.0 ==> -0.05 <= m.amplitude - e.amplitude <= 0.05) &&
    -2.0 * PI < m.phase < 2.0 * PI &&
    (-2.0 * PI < e.phase < 2.0 * PI ==> 0.0 <= PhaseGap(m.phase, e.phase) <= PI / 2.0)
  }

  /** Turning a phase inside (-2 pi, 2 pi) by at most a quarter turn and reducing it with
      `%` moves it round the circle by exactly the size of the turn: the reduction takes
      off at most one full turn, and only on the side the turn went. */
  lemma TurnedPhaseGap(p: real, d: real)
    requires -PI / 2.0 <= d <= PI / 2.0
    ensures -2.0 * PI < p < 2.0 * PI ==> PhaseGap(Rem(p + d, 2.0 * PI), p) == (if d >= 0.0 then d else -d)
  {
    if !(-2.0 * PI < p < 2.0 * PI) { return; }
    var x := p + d;
    var q := x / (2.0 * PI);
    assert x == q * (2.0 * PI);
    var k := Trunc(q);
    assert -1 <= k <= 1 by {
      assert -1.25 < q < 1.25 by {
        assert -2.5 * PI < x < 2.5 * PI;
      }
    }
    assert Rem(x, 2.0 * PI) == x - 2.0 * PI * (k as real);
    if k == 1 {
      assert q >= 1.0;
      assert x >= 2.0 * PI;
      assert d > 0.0;
    } else if k == -1 {
      assert q <= -1.0;
      assert x <= -2.0 * PI;
      assert d < 0.0;
    } else {
      assert k == 0;
    }
  }

  /** One element of `mutate`'s map: with probability MUTATION_RATE, draw an amplitude step
      and then a phase step. */
  function MutateEpicycle(e: FloatEpicycle, draw: nat -> real, at: nat): (r: Drawn<FloatEpicycle>)
    requires IsUnitStream(draw)
    ensures draw(at) >= MUTATION_RATE ==> r == Drawn(e, at + 1)
    ensures draw(at) < MUTATION_RATE ==> r.next == at + 3 && IsMutationOf(e, r.value)
  {
    if draw(at) < MUTATION_RATE then
      var amplitude := Clamp(0.1, 1.0, e.amplitude + (draw(at + 1) - 0.5) * MUTATION_STRENGTH);
      var turned := e.phase + (draw(at + 2) - 0.5) * PI;
      RemTwoPiBounds(turned);
      assert -PI / 2.0 <= (draw(at + 2) - 0.5) * PI <= PI / 2.0 by {
        assert 0.0 <= draw(at + 2) < 1.0;
      }
      TurnedPhaseGap(e.phase, (draw(at + 2) - 0.5) * PI);
      Drawn(FloatEpicycle(amplitude, Rem(turned, 2.0 * PI)), at + 3)
    else
      Drawn(e, at + 1)
  }

  /** `mutate`: the element-wise map, drawing left to right. Each entry is kept as it is or
      mutated; the length never changes. */
  function Mutate(individual: FloatIndividual, draw: nat -> real, at: nat): (r: Drawn<FloatIndividual>)
    requires IsUnitStream(draw)
    ensures |r.value| == |individual|
    ensures at + |individual| <= r.next <= at + 3 * |individual|
    ensures forall i :: 0 <= i < |individual| ==>
      r.value[i] == individual[i] || IsMutationOf(individual[i], r.value[i])
  {
    if individual == [] then Drawn([], at)
    else
      var first := MutateEpicycle(individual[0], draw, at);
      var rest := Mutate(individual[1..], draw, first.next);
      Drawn([first.value] + rest.value, rest.next)
  }

  /** Mutating a well-formed individual gives a well-formed individual. */
  lemma MutateKeepsShape(individual: FloatIndividual, draw: nat -> real, at: nat)
    requires IsUnitStream(draw) && IsIndividual(individual)
    ensures IsIndividual(Mutate(individual, draw, at).value)
  {
  }

  // ---------------------------------------------------------------- quantisation

  /** `quantizeToWordIndex`: like the codec's decoding but with neither phase normalisation
      nor amplitude clamp, only the closing clamp to [0, 2047]. */
  function QuantizeToWordIndex(e: FloatEpicycle): (index: nat)
    ensures index < WORD_COUNT
  {
    var row := Round((e.phase / (2.0 * PI)) * 31.0);
    var col := Round(((e.amplitude - 0.1) / 0.9) * 63.0);
    ClampInt(0, WORD_COUNT - 1, row * 64 + col)
  }

  /** On the codec's own domain (phase in [0, 2 pi), amplitude in [0.1, 1]) quantisation is
      the codec's decoding, whatever frequency the epicycle is given. */
  lemma QuantizeAgreesWithCodec(e: FloatEpicycle, frequency: real, totalWords: real)
    requires 0.0 <= e.phase < 2.0 * PI && 0.1 <= e.amplitude <= 1.0
    ensures QuantizeToWordIndex(e)
      == MnemonicCodec.EpicycleToWordIndex(Fourier.Epicycle(e.amplitude, frequency, e.phase), totalWords)
  {
    var c := Fourier.Epicycle(e.amplitude, frequency, e.phase);
    var row := Round((e.phase / (2.0 * PI)) * 31.0);
    var col := Round(((e.amplitude - 0.1) / 0.9) * 63.0);
    assert QuantizeToWordIndex(e) == ClampInt(0, WORD_COUNT - 1, row * 64 + col);
    assert MnemonicCodec.DecodeRow(e.phase) == row by {
      assert MnemonicCodec.NormalizePhase(e.phase) == e.phase;
      assert (MnemonicCodec.ROWS - 1) as real == 31.0;
    }
    assert MnemonicCodec.DecodeColumn(e.amplitude) == col by {
      assert Clamp(0.1, 1.0, e.amplitude) == e.amplitude;
      assert (MnemonicCodec.COLS - 1) as real == 63.0;
    }
    assert 0 <= row < 32 && 0 <= col < 64;
    MnemonicCodec.ClampIsNoOp(c, totalWords);
    assert MnemonicCodec.EpicycleToWordIndex(c, totalWords) == row * 64 + col;
  }

  /** A phase below -pi/31 (which mutation can produce) rounds to row -1 or lower, and the
      clamp then sends the epicycle to index 0 whatever its amplitude in [0.1, 1]. */
  lemma NegativePhaseQuantizesToZero(e: FloatEpicycle)
    requires e.phase < -PI / 31.0 && 0.1 <= e.amplitude <= 1.0
    ensures QuantizeToWordIndex(e) == 0
  {
    var row := Round((e.phase / (2.0 * PI)) * 31.0);
    var col := Round(((e.amplitude - 0.1) / 0.9) * 63.0);
    assert (e.phase / (2.0 * PI)) * 31.0 < -0.5;
    assert row <= -1;
    assert col <= 63;
  }

  /** The words `floatIndividualToMnemonic` joins. */
  function QuantizedWords(individual: FloatIndividual, wordlist: seq<string>): (words: seq<string>)
    requires IsWordlist(wordlist)
    ensures |words| == |individual|
    ensures forall i :: 0 <= i < |words| ==>
      words[i] == wordlist[QuantizeToWordIndex(individual[i])] && ' ' !in words[i]
  {
    seq(|individual|, i requires 0 <= i < |individual| => wordlist[QuantizeToWordIndex(individual[i])])
  }

  /** `floatIndividualToMnemonic`: one list word per epicycle, joined by spaces; splitting
      the phrase gives the words back. */
  function FloatIndividualToMnemonic(individual: FloatIndividual, wordlist: seq<string>): (mnemonic: string)
    requires IsWordlist(wordlist)
    ensures individual == [] ==> mnemonic == ""
    ensures individual != [] ==> Split(mnemonic, ' ') == QuantizedWords(individual, wordlist)
  {
    var words := QuantizedWords(individual, wordlist);
    assert words != [] ==> Split(Join(words, ' '), ' ') == words by {
      if words != [] {
        SplitJoin(words, ' ');
      }
    }
    Join(words, ' ')
  }

  // ---------------------------------------------------------------- the generational loop

  /** `population.map(individual => calculateDistance(individual, targetEpicycles))`. */
  function Distances(population: seq<FloatIndividual>, target: FloatIndividual, sqrt: real -> real)
    : (ds: seq<real>)
    requires NonNegativeRoot(sqrt)
    ensures |ds| == |population|
    ensures forall i :: 0 <= i < |ds| ==> ds[i] == Distance(population[i], target, sqrt) && ds[i] >= 0.0
  {
    seq(|population|, i requires 0 <= i < |population| => Distance(population[i], target, sqrt))
  }

  /** A child bred from `population`: the mutation of a crossover of two of its members,
      drawn from some position of the stream on. */
  ghost predicate Bred(child: FloatIndividual, population: seq<FloatIndividual>, draw: nat -> real)
  {
    IsUnitStream(draw) &&
    exists parent1, parent2, c: nat :: parent1 in population && parent2 in population &&
      child == Mutate(Crossover(parent1, parent2, draw, c).value, draw, Crossover(parent1, parent2, draw, c).next).value
  }

  /** A child bred from well-formed individuals is well formed. */
  lemma BredKeepsShape(child: FloatIndividual, population: seq<FloatIndividual>, draw: nat -> real)
    requires Bred(child, population, draw)
    requires forall i :: 0 <= i < |population| ==> IsIndividual(population[i])
    ensures IsIndividual(child)
  {
    var parent1, parent2, c: nat :| parent1 in population && parent2 in population &&
      child == Mutate(Crossover(parent1, parent2, draw, c).value, draw, Crossover(parent1, parent2, draw, c).next).value;
    CrossoverKeepsShape(parent1, parent2, draw, c);
    MutateKeepsShape(Crossover(parent1, parent2, draw, c).value, draw, Crossover(parent1, parent2, draw, c).next);
  }

  /** One turn of the breeding loop: two roulette-selected parents, their crossover, and
      its mutation, which is a child bred from the population. */
  method BreedOne(population: seq<FloatIndividual>, fitnessScores: seq<real>, draw: nat -> real, at: nat)
    returns (child: FloatIndividual, next: nat)
    requires IsUnitStream(draw) && |population| > 0 && |fitnessScores| == |population|
    ensures next > at
    ensures Bred(child, population, draw)
  {
    var parent1, parent2, cursor;
    parent1, cursor := SelectParent(population, fitnessScores, draw, at);
    parent2, cursor := SelectParent(population, fitnessScores, draw, cursor);
    var crossed := Crossover(parent1, parent2, draw, cursor);
    var mutated := Mutate(crossed.value, draw, crossed.next);
    child, next := mutated.value, mutated.next;
  }

  /** The breeding loop: starting from the elite, push mutated crossovers of two
      roulette-selected parents until the generation is full. */
  method Breed(population: seq<FloatIndividual>, fitnessScores: seq<real>, elite: seq<FloatIndividual>,
               draw: nat -> real, at: nat)
    returns (nextGeneration: seq<FloatIndividual>, cursor: nat)
    requires |population| > 0 && |fitnessScores| == |population| && |elite| <= POPULATION_SIZE
    requires IsUnitStream(draw)
    requires forall i :: 0 <= i < |population| ==> IsIndividual(population[i])
    requires forall i :: 0 <= i < |elite| ==> IsIndividual(elite[i])
    ensures |nextGeneration| == POPULATION_SIZE
    ensures nextGeneration[..|elite|] == elite
    ensures forall i :: |elite| <= i < |nextGeneration| ==> Bred(nextGeneration[i], population, draw)
    ensures forall i :: 0 <= i < |nextGeneration| ==> IsIndividual(nextGeneration[i])
    ensures cursor >= at
  {
    nextGeneration := elite;
    cursor := at;
    while |nextGeneration| < POPULATION_SIZE
      invariant |elite| <= |nextGeneration| <= POPULATION_SIZE
      invariant nextGeneration[..|elite|] == elite
      invariant forall i :: |elite| <= i < |nextGeneration| ==> Bred(nextGeneration[i], population, draw)
      invariant forall i :: 0 <= i < |nextGeneration| ==> IsIndividual(nextGeneration[i])
      invariant cursor >= at
      decreases POPULATION_SIZE - |nextGeneration|
    {
      var child;
      child, cursor := BreedOne(population, fitnessScores, draw, cursor);
      BredKeepsShape(child, population, draw);
      nextGeneration := nextGeneration + [child];
    }
  }

  /** What `onProgress` is called with at the end of each generation. */
  datatype Progress = Progress(generation: nat, fitness: real, best: FloatIndividual)

  /** Generation g + 1 opens with the elite of generation g, and every later member of it
      was bred from generation g. */
  ghost predicate CarriesElite(generations: seq<seq<FloatIndividual>>, g: nat, target: FloatIndividual,
                               sqrt: real -> real, draw: nat -> real)
    requires g + 1 < |generations| && NonNegativeRoot(sqrt)
  {
    var successor := generations[g + 1];
    ELITE_SIZE <= |successor| &&
    successor[..ELITE_SIZE] == Elite(generations[g], Distances(generations[g], target, sqrt), ELITE_SIZE) &&
    forall i :: ELITE_SIZE <= i < |successor| ==> Bred(successor[i], generations[g], draw)
  }

  /** The best individual reported after generation g + 1 is no farther from the target than
      the one reported after generation g. */
  ghost predicate Improves(reports: seq<Progress>, g: nat, target: FloatIndividual, sqrt: real -> real)
    requires g + 1 < |reports|
  {
    Distance(reports[g + 1].best, target, sqrt) <= Distance(reports[g].best, target, sqrt)
  }

  /** Step-by-step improvement gives improvement between any two reports, and with it
      fitness that never falls. */
  lemma ReportsImprove(reports: seq<Progress>, target: FloatIndividual, sqrt: real -> real)
    requires NonNegativeRoot(sqrt)
    requires forall g :: 0 <= g < |reports| - 1 ==> Improves(reports, g, target, sqrt)
    requires forall g :: 0 <= g < |reports| ==> Scores(reports[g], target, sqrt)
    ensures forall g, h :: 0 <= g < h < |reports| ==>
      Distance(reports[h].best, target, sqrt) <= Distance(reports[g].best, target, sqrt)
    ensures forall g, h :: 0 <= g < h < |reports| ==> reports[g].fitness <= reports[h].fitness
  {
    var bests := seq(|reports|, g requires 0 <= g < |reports| => Distance(reports[g].best, target, sqrt));
    forall k | 0 <= k < |reports| - 1
      ensures StepsDown(bests, k)
    {
      assert Improves(reports, k, target, sqrt);
    }
    NonIncreasingFromSteps(bests);
    forall g, h | 0 <= g < h < |reports|
      ensures Distance(reports[h].best, target, sqrt) <= Distance(reports[g].best, target, sqrt)
      ensures reports[g].fitness <= reports[h].fitness
    {
      assert bests[h] <= bests[g];
      FitnessAntitone(bests[h], bests[g]);
    }
  }

  /** A full generation of well-formed individuals. */
  predicate IsGeneration(population: seq<FloatIndividual>)
  {
    |population| == POPULATION_SIZE && forall i :: 0 <= i < |population| ==> IsIndividual(population[i])
  }

  /** The fitness a report carries is that of its best individual. */
  ghost predicate Scores(report: Progress, target: FloatIndividual, sqrt: real -> real)
    requires NonNegativeRoot(sqrt)
  {
    report.fitness == Fitness(Distance(report.best, target, sqrt))
  }

  /** The report made on `population`, the g-th generation: its number, a best individual
      at least as close to the target as every member of that generation, and that
      individual's fitness. */
  ghost predicate ReportsOn(report: Progress, g: nat, population: seq<FloatIndividual>,
                            target: FloatIndividual, sqrt: real -> real)
    requires NonNegativeRoot(sqrt)
  {
    report.generation == g && Scores(report, target, sqrt) &&
    forall i :: 0 <= i < |population| ==>
      Distance(report.best, target, sqrt) <= Distance(population[i], target, sqrt)
  }

  /** One evaluation: the distances of the generation and the best individual seen so far,
      replaced by the generation's first closest member when that one is strictly closer.
      `kept` says whether the old best stayed. */
  method KeepBest(population: seq<FloatIndividual>, target: FloatIndividual, sqrt: real -> real,
                  bestIndividual: FloatIndividual, bestDistance: Extended)
    returns (distances: seq<real>, best: FloatIndividual, newDistance: Extended, kept: bool)
    requires |population| > 0 && NonNegativeRoot(sqrt)
    requires bestDistance.Finite? ==> bestDistance.value == Distance(bestIndividual, target, sqrt)
    ensures distances == Distances(population, target, sqrt)
    ensures newDistance == Finite(Distance(best, target, sqrt))
    ensures forall i :: 0 <= i < |population| ==>
      Distance(best, target, sqrt) <= Distance(population[i], target, sqrt)
    ensures bestDistance.Finite? ==> newDistance.value <= bestDistance.value
    ensures kept ==> bestDistance.Finite? && best == bestIndividual
    ensures !kept ==> best in population
  {
    distances := Distances(population, target, sqrt);
    var bestIndex := MinIndex(distances);
    var minDistance := distances[bestIndex];
    if Below(minDistance, bestDistance) {
      best, newDistance, kept := population[bestIndex], Finite(minDistance), false;
    } else {
      best, newDistance, kept := bestIndividual, bestDistance, true;
    }
  }

  /** What the run has recorded about generation g: a full, well-formed population and,
      once it was evaluated, the next one opening with its elite, a report on it about an
      individual found in that or an earlier generation, and, when a later report exists,
      a later best no farther from the target. */
  ghost predicate Recorded(generations: seq<seq<FloatIndividual>>, reports: seq<Progress>, origins: seq<nat>,
                           g: nat, target: FloatIndividual, sqrt: real -> real, draw: nat -> real)
    requires NonNegativeRoot(sqrt) && g < |generations| == |reports| + 1 && |origins| == |reports|
  {
    IsGeneration(generations[g]) &&
    (g < |reports| ==>
       CarriesElite(generations, g, target, sqrt, draw) &&
       ReportsOn(reports[g], g, generations[g], target, sqrt) &&
       origins[g] <= g && reports[g].best in generations[origins[g]]) &&
    (g + 1 < |reports| ==> Improves(reports, g, target, sqrt))
  }

  /** The record of a run after `|reports|` generations: one entry per generation. */
  ghost predicate History(generations: seq<seq<FloatIndividual>>, reports: seq<Progress>, origins: seq<nat>,
                          target: FloatIndividual, sqrt: real -> real, draw: nat -> real)
    requires NonNegativeRoot(sqrt)
  {
    |generations| == |reports| + 1 && |origins| == |reports| &&
    forall g :: 0 <= g < |generations| ==> Recorded(generations, reports, origins, g, target, sqrt, draw)
  }

  /** One more generation keeps the history: a report on the last population that is no
      farther than the previous one, and a next population that opens with its elite. */
  lemma HistoryExtended(generations: seq<seq<FloatIndividual>>, reports: seq<Progress>, origins: seq<nat>,
                        report: Progress, origin: nat, next: seq<FloatIndividual>,
                        target: FloatIndividual, sqrt: real -> real, draw: nat -> real)
    requires NonNegativeRoot(sqrt) && History(generations, reports, origins, target, sqrt, draw)
    requires ReportsOn(report, |reports|, generations[|reports|], target, sqrt)
    requires origin <= |reports| && report.best in generations[origin]
    requires |reports| > 0 ==>
      Distance(report.best, target, sqrt) <= Distance(reports[|reports| - 1].best, target, sqrt)
    requires IsGeneration(next)
    requires next[..ELITE_SIZE] == Elite(generations[|reports|], Distances(generations[|reports|], target, sqrt), ELITE_SIZE)
    requires forall i :: ELITE_SIZE <= i < |next| ==> Bred(next[i], generations[|reports|], draw)
    ensures History(generations + [next], reports + [report], origins + [origin], target, sqrt, draw)
  {
    var gs, rs, os := generations + [next], reports + [report], origins + [origin];
    var n := |reports|;
    forall g | 0 <= g < |gs|
      ensures Recorded(gs, rs, os, g, target, sqrt, draw)
    {
      if g < n {
        assert Recorded(generations, reports, origins, g, target, sqrt, draw);
        assert gs[g] == generations[g] && gs[g + 1] == generations[g + 1];
        assert rs[g] == reports[g] && os[g] == origins[g] && gs[os[g]] == generations[os[g]];
        assert CarriesElite(generations, g, target, sqrt, draw);
        if g + 1 < n {
          assert rs[g + 1] == reports[g + 1];
          assert Improves(reports, g, target, sqrt);
        }
      } else if g == n {
        assert Recorded(generations, reports, origins, g, target, sqrt, draw);
        assert gs[g] == generations[g] && gs[os[g]] == generations[os[g]];
      }
    }
  }

  /** The reports of a recorded run never move away from the target, so their fitness
      never falls. */
  lemma HistoryImproves(generations: seq<seq<FloatIndividual>>, reports: seq<Progress>, origins: seq<nat>,
                        target: FloatIndividual, sqrt: real -> real, draw: nat -> real)
    requires NonNegativeRoot(sqrt) && History(generations, reports, origins, target, sqrt, draw)
    ensures forall g, h :: 0 <= g < h < |reports| ==>
      Distance(reports[h].best, target, sqrt) <= Distance(reports[g].best, target, sqrt)
    ensures forall g, h :: 0 <= g < h < |reports| ==> reports[g].fitness <= reports[h].fitness
  {
    forall g | 0 <= g < |reports|
      ensures Scores(reports[g], target, sqrt)
      ensures g < |reports| - 1 ==> Improves(reports, g, target, sqrt)
    {
      assert Recorded(generations, reports, origins, g, target, sqrt, draw);
    }
    ReportsImprove(reports, target, sqrt);
  }

  /** The body of one generation: evaluate, keep the best so far, report, and breed the
      next population from the elite and roulette-selected parents. */
  method Generation(population: seq<FloatIndividual>, generation: nat, target: FloatIndividual, sqrt: real -> real,
                    bestIndividual: FloatIndividual, bestDistance: Extended, draw: nat -> real, at: nat)
    returns (report: Progress, newDistance: Extended, kept: bool, nextGeneration: seq<FloatIndividual>, cursor: nat)
    requires IsGeneration(population) && NonNegativeRoot(sqrt) && IsUnitStream(draw)
    requires bestDistance.Finite? ==> bestDistance.value == Distance(bestIndividual, target, sqrt)
    ensures ReportsOn(report, generation, population, target, sqrt)
    ensures newDistance == Finite(Distance(report.best, target, sqrt))
    ensures bestDistance.Finite? ==> newDistance.value <= bestDistance.value
    ensures kept ==> bestDistance.Finite? && report.best == bestIndividual
    ensures !kept ==> report.best in population
    ensures IsGeneration(nextGeneration)
    ensures nextGeneration[..ELITE_SIZE] == Elite(population, Distances(population, target, sqrt), ELITE_SIZE)
    ensures forall i :: ELITE_SIZE <= i < |nextGeneration| ==> Bred(nextGeneration[i], population, draw)
  {
    var distances, best;
    distances, best, newDistance, kept := KeepBest(population, target, sqrt, bestIndividual, bestDistance);
    report := Progress(generation, Fitness(newDistance.value), best);
    var elite := Elite(population, distances, ELITE_SIZE);
    forall a | 0 <= a < |elite|
      ensures IsIndividual(elite[a])
    {
      EliteFromPopulation(population, distances, ELITE_SIZE, a);
    }
    var fitnessScores := FitnessScores(distances);
    nextGeneration, cursor := Breed(population, fitnessScores, elite, draw, at);
  }

  /** The state the main loop carries from one generation to the next: the recorded
      history, the population of generation `generation` at its end, and the best
      individual seen so far, which is the last report's. */
  ghost predicate Tracking(generations: seq<seq<FloatIndividual>>, reports: seq<Progress>, origins: seq<nat>,
                           population: seq<FloatIndividual>, generation: nat,
                           bestIndividual: FloatIndividual, bestDistance: Extended, origin: nat,
                           target: FloatIndividual, sqrt: real -> real, draw: nat -> real)
    requires NonNegativeRoot(sqrt)
  {
    |reports| == generation &&
    History(generations, reports, origins, target, sqrt, draw) &&
    generations[generation] == population &&
    (generation == 0 ==> bestDistance.Infinite?) &&
    (generation > 0 ==>
       bestDistance == Finite(Distance(bestIndividual, target, sqrt)) &&
       bestIndividual == reports[generation - 1].best &&
       origin == origins[generation - 1])
  }

  /** What one generation's results make of the state the main loop carries. */
  lemma TrackingExtended(generations: seq<seq<FloatIndividual>>, reports: seq<Progress>, origins: seq<nat>,
                         population: seq<FloatIndividual>, generation: nat,
                         bestIndividual: FloatIndividual, bestDistance: Extended, origin: nat,
                         target: FloatIndividual, sqrt: real -> real,
                         report: Progress, newDistance: Extended, kept: bool, next: seq<FloatIndividual>, draw: nat -> real)
    requires NonNegativeRoot(sqrt)
    requires Tracking(generations, reports, origins, population, generation,
                      bestIndividual, bestDistance, origin, target, sqrt, draw)
    requires ReportsOn(report, generation, population, target, sqrt)
    requires newDistance == Finite(Distance(report.best, target, sqrt))
    requires bestDistance.Finite? ==> newDistance.value <= bestDistance.value
    requires kept ==> bestDistance.Finite? && report.best == bestIndividual
    requires !kept ==> report.best in population
    requires IsGeneration(next)
    requires next[..ELITE_SIZE] == Elite(population, Distances(population, target, sqrt), ELITE_SIZE)
    requires forall i :: ELITE_SIZE <= i < |next| ==> Bred(next[i], population, draw)
    ensures Tracking(generations + [next], reports + [report], origins + [if kept then origin else generation],
                     next, generation + 1, report.best, newDistance, if kept then origin else generation,
                     target, sqrt, draw)
  {
    assert generation > 0 ==> Recorded(generations, reports, origins, generation - 1, target, sqrt, draw);
    HistoryExtended(generations, reports, origins, report, if kept then origin else generation, next, target, sqrt, draw);
  }

  /** One turn of the main loop, with the history it extends. */
  method Advance(ghost generations: seq<seq<FloatIndividual>>, reports: seq<Progress>, ghost origins: seq<nat>,
                 population: seq<FloatIndividual>, generation: nat,
                 bestIndividual: FloatIndividual, bestDistance: Extended, ghost origin: nat,
                 target: FloatIndividual, sqrt: real -> real, draw: nat -> real, cursor: nat)
    returns (ghost generations': seq<seq<FloatIndividual>>, reports': seq<Progress>, ghost origins': seq<nat>,
             population': seq<FloatIndividual>,
             bestIndividual': FloatIndividual, bestDistance': Extended, ghost origin': nat, cursor': nat)
    requires NonNegativeRoot(sqrt) && IsUnitStream(draw)
    requires Tracking(generations, reports, origins, population, generation,
                      bestIndividual, bestDistance, origin, target, sqrt, draw)
    ensures Tracking(generations', reports', origins', population', generation + 1,
                     bestIndividual', bestDistance', origin', target, sqrt, draw)
    ensures reports'[..generation] == reports
  {
    assert Recorded(generations, reports, origins, generation, target, sqrt, draw);
    var report, kept, nextGeneration;
    report, bestDistance', kept, nextGeneration, cursor' :=
      Generation(population, generation, target, sqrt, bestIndividual, bestDistance, draw, cursor);
    bestIndividual' := report.best;
    origin' := if kept then origin else generation;
    TrackingExtended(generations, reports, origins, population, generation, bestIndividual, bestDistance, origin,
                     target, sqrt, report, bestDistance', kept, nextGeneration, draw);
    reports' := reports + [report];
    origins' := origins + [origin'];
    generations' := generations + [nextGeneration];
    population' := nextGeneration;
  }

  /** `solveForMnemonicFloat`: MAX_GENERATIONS rounds of evaluate, keep the best so far,
      report, carry the elite over and breed the rest; the best individual is quantised at
      the end. `generations` records each population the loop works on, `origins[g]` the
      generation in which the individual reported at g was found. */
  method SolveForMnemonicFloat(targetEpicycles: FloatIndividual, wordlist: seq<string>, sqrt: real -> real,
                               draw: nat -> real, at: nat)
    returns (mnemonic: string, reports: seq<Progress>,
             ghost generations: seq<seq<FloatIndividual>>, ghost origins: seq<nat>)
    requires IsWordlist(wordlist) && NonNegativeRoot(sqrt) && IsUnitStream(draw)
    ensures |reports| == MAX_GENERATIONS
    ensures History(generations, reports, origins, targetEpicycles, sqrt, draw)
    ensures mnemonic == FloatIndividualToMnemonic(reports[MAX_GENERATIONS - 1].best, wordlist)
  {
    var initial := RandomPopulation(POPULATION_SIZE, draw, at);
    var population := initial.value;
    var cursor := initial.next;
    var bestIndividual := population[0];
    var bestDistance: Extended := Infinite;
    reports := [];
    generations := [population];
    origins := [];
    ghost var origin := 0;
    var generation := 0;
    while generation < MAX_GENERATIONS
      invariant generation <= MAX_GENERATIONS
      invariant Tracking(generations, reports, origins, population, generation,
                         bestIndividual, bestDistance, origin, targetEpicycles, sqrt, draw)
    {
      generations, reports, origins, population, bestIndividual, bestDistance, origin, cursor :=
        Advance(generations, reports, origins, population, generation, bestIndividual, bestDistance, origin,
                targetEpicycles, sqrt, draw, cursor);
      generation := generation + 1;
    }
    mnemonic := FloatIndividualToMnemonic(bestIndividual, wordlist);
  }
}
