/** The word-level genetic matcher of app/utils/geneticAlgorithm.ts: individuals are
    space-separated phrases of list words, scored by a plain (non-circular) distance between
    their grid epicycles and the target, and evolved by splicing and replacing words. */
module WordGenetic {
  import opened Js
  import opened Bip39
  import opened Evolution
  import MnemonicCodec

  const POPULATION_SIZE: nat := 100
  const MAX_GENERATIONS: nat := 50
  const MUTATION_RATE: real := 0.1
  const ELITE_SIZE: nat := 10
  /** Crossover and mutation positions are drawn below 11: the words before the last one. */
  const HEAD_LENGTH: nat := 11
  const PHRASE_LENGTH: nat := 12

  datatype Option<T> = None | Some(value: T)

  datatype WordEpicycle = WordEpicycle(amplitude: real, phase: real)

  // ---------------------------------------------------------------- encoding and distance

  /** The grid epicycle of a word index, without a frequency. */
  function EncodeWord(index: nat): (e: WordEpicycle)
    ensures index < WORD_COUNT ==> 0.1 <= e.amplitude < 1.0 && 0.0 <= e.phase < 2.0 * PI
  {
    var cell := MnemonicCodec.Cell(index);
    WordEpicycle(MnemonicCodec.GridAmplitude(cell.1), MnemonicCodec.GridPhase(cell.0))
  }

  /** `mnemonicToEpicycles` of this file: one pair per piece of `mnemonic.split(' ')`, the
      amplitude and phase the main codec gives the same phrase (its frequency dropped), and
      the pair of index 0 for a word the list does not hold. */
  function MnemonicToEpicycles(mnemonic: string, wordlist: seq<string>): (es: seq<WordEpicycle>)
    ensures |es| == |Split(mnemonic, ' ')|
    ensures forall k :: 0 <= k < |es| ==>
      es[k].amplitude == MnemonicCodec.MnemonicToEpicycles(mnemonic, wordlist)[k].amplitude &&
      es[k].phase == MnemonicCodec.MnemonicToEpicycles(mnemonic, wordlist)[k].phase
    ensures forall k :: 0 <= k < |es| && Split(mnemonic, ' ')[k] !in wordlist ==> es[k] == WordEpicycle(0.1, 0.0)
    ensures IsWordlist(wordlist) ==> forall k :: 0 <= k < |es| ==>
      0.1 <= es[k].amplitude < 1.0 && 0.0 <= es[k].phase < 2.0 * PI
  {
    var words := Split(mnemonic, ' ');
    seq(|words|, k requires 0 <= k < |words| => EncodeWord(IndexOf(wordlist, words[k])))
  }

  /** The squared length of (amplitude difference, phase difference). */
  function SquaredGap(e1: WordEpicycle, e2: WordEpicycle): (q: real)
    ensures q >= 0.0
    ensures e1 == e2 ==> q == 0.0
  {
    (e1.amplitude - e2.amplitude) * (e1.amplitude - e2.amplitude)
      + (e1.phase - e2.phase) * (e1.phase - e2.phase)
  }

  /** The distance over the first n pairs, summed left to right. */
  function DistanceUpTo(a: seq<WordEpicycle>, b: seq<WordEpicycle>, n: nat, sqrt: real -> real): real
    requires n <= |a| && n <= |b|
  {
    if n == 0 then 0.0 else DistanceUpTo(a, b, n - 1, sqrt) + sqrt(SquaredGap(a[n - 1], b[n - 1]))
  }

  /** The distance between two epicycle lists, over the pairs both have; never negative. */
  function Distance(a: seq<WordEpicycle>, b: seq<WordEpicycle>, sqrt: real -> real): (d: real)
    ensures NonNegativeRoot(sqrt) ==> d >= 0.0
  {
    assert NonNegativeRoot(sqrt) ==> DistanceUpTo(a, b, MinNat(|a|, |b|), sqrt) >= 0.0 by {
      if NonNegativeRoot(sqrt) {
        DistanceUpToNonNegative(a, b, MinNat(|a|, |b|), sqrt);
      }
    }
    DistanceUpTo(a, b, MinNat(|a|, |b|), sqrt)
  }

  lemma {:induction false} DistanceUpToNonNegative(a: seq<WordEpicycle>, b: seq<WordEpicycle>, n: nat, sqrt: real -> real)
    requires NonNegativeRoot(sqrt) && n <= |a| && n <= |b|
    ensures DistanceUpTo(a, b, n, sqrt) >= 0.0
  {
    if n > 0 {
      DistanceUpToNonNegative(a, b, n - 1, sqrt);
      assert SquaredGap(a[n - 1], b[n - 1]) >= 0.0;
    }
  }

  lemma {:induction false} DistanceUpToSelf(a: seq<WordEpicycle>, n: nat, sqrt: real -> real)
    requires NonNegativeRoot(sqrt) && n <= |a|
    ensures DistanceUpTo(a, a, n, sqrt) == 0.0
  {
    if n > 0 {
      DistanceUpToSelf(a, n - 1, sqrt);
    }
  }

  /** An epicycle list is at distance 0 from itself. */
  lemma DistanceToSelf(a: seq<WordEpicycle>, sqrt: real -> real)
    requires NonNegativeRoot(sqrt)
    ensures Distance(a, a, sqrt) == 0.0
  {
    DistanceUpToSelf(a, |a|, sqrt);
  }

  /** `calculateDistance`: the accumulator loop. */
  method CalculateDistance(epicycles1: seq<WordEpicycle>, epicycles2: seq<WordEpicycle>, sqrt: real -> real)
    returns (distance: real)
    ensures distance == Distance(epicycles1, epicycles2, sqrt)
  {
    distance := 0.0;
    var len := MinNat(|epicycles1|, |epicycles2|);
    var i := 0;
    while i < len
      invariant 0 <= i <= len
      invariant distance == DistanceUpTo(epicycles1, epicycles2, i, sqrt)
    {
      var da := epicycles1[i].amplitude - epicycles2[i].amplitude;
      var dp := epicycles1[i].phase - epicycles2[i].phase;
      assert da * da + dp * dp == SquaredGap(epicycles1[i], epicycles2[i]);
      distance := distance + sqrt(da * da + dp * dp);
      i := i + 1;
    }
  }

  /** How far a phrase is from the target: the distance of its epicycles. */
  function MnemonicDistance(mnemonic: string, target: seq<WordEpicycle>, wordlist: seq<string>, sqrt: real -> real)
    : (d: real)
    requires NonNegativeRoot(sqrt)
    ensures d >= 0.0
  {
    Distance(MnemonicToEpicycles(mnemonic, wordlist), target, sqrt)
  }

  /** A phrase whose epicycles are the target is at distance 0 from it. */
  lemma ExactPhraseHasDistanceZero(mnemonic: string, target: seq<WordEpicycle>, wordlist: seq<string>, sqrt: real -> real)
    requires NonNegativeRoot(sqrt) && target == MnemonicToEpicycles(mnemonic, wordlist)
    ensures MnemonicDistance(mnemonic, target, wordlist, sqrt) == 0.0
  {
    DistanceToSelf(target, sqrt);
  }

  // ---------------------------------------------------------------- random phrases

  /** The word `wordList[Math.floor(Math.random() * wordList.length)]` drawn at position k. */
  function RandomWord(wordlist: seq<string>, draw: nat -> real, k: nat): (w: string)
    requires IsWordlist(wordlist) && IsUnitStream(draw)
    ensures w in wordlist && ' ' !in w
  {
    wordlist[RandomBelow(draw(k), WORD_COUNT)]
  }

  /** `Math.floor(Math.random() * 256)` for each of the 11 words: 11 bytes. */
  function EntropyBytes(draw: nat -> real, at: nat): (bytes: seq<int>)
    requires IsUnitStream(draw)
    ensures |bytes| == HEAD_LENGTH
    ensures forall i :: 0 <= i < |bytes| ==> 0 <= bytes[i] < 256
  {
    var bytes := seq(HEAD_LENGTH, i requires 0 <= i < HEAD_LENGTH => RandomBelow(draw(at + i), 256) as int);
    assert forall i :: 0 <= i < HEAD_LENGTH ==> bytes[i] == RandomBelow(draw(at + i), 256);
    bytes
  }

  /** Twelve words, each from the list: the shape of every phrase the matcher creates when
      the encoder keeps the BIP-39 length rule. */
  predicate IsPhrase(mnemonic: string, wordlist: seq<string>)
  {
    |Split(mnemonic, ' ')| == PHRASE_LENGTH &&
    forall i :: 0 <= i < PHRASE_LENGTH ==> Split(mnemonic, ' ')[i] in wordlist
  }

  /** The rule BIP-39 ("Generating the mnemonic") lays down for entropy: 128 to 256 bits in
      steps of 32, that is 16, 20, 24, 28 or 32 bytes; an encoder that keeps it refuses any
      other length. */
  ghost predicate RefusesBadEntropy(entropyToMnemonic: seq<int> -> Option<string>)
  {
    forall e: seq<int> :: |e| % 4 != 0 || |e| < 16 || 32 < |e| ==> entropyToMnemonic(e).None?
  }

  /** `generateRandomMnemonic`: eleven random words, then 11 random bytes handed to
      `entropyToMnemonic` (None standing for the exception it throws); what it returns is the
      phrase, and when it throws a twelfth random word completes the eleven. An encoder that
      keeps the BIP-39 length rule always throws on 11 bytes, so the phrase is then always
      twelve list words. */
  method GenerateRandomMnemonic(wordlist: seq<string>, entropyToMnemonic: seq<int> -> Option<string>,
                                draw: nat -> real, at: nat)
    returns (mnemonic: string, next: nat)
    requires IsWordlist(wordlist) && IsUnitStream(draw)
    ensures entropyToMnemonic(EntropyBytes(draw, at + HEAD_LENGTH)).Some? ==>
      mnemonic == entropyToMnemonic(EntropyBytes(draw, at + HEAD_LENGTH)).value && next == at + 2 * HEAD_LENGTH
    ensures entropyToMnemonic(EntropyBytes(draw, at + HEAD_LENGTH)).None? ==>
      next == at + 2 * HEAD_LENGTH + 1 &&
      Split(mnemonic, ' ') == seq(PHRASE_LENGTH, i requires 0 <= i < PHRASE_LENGTH =>
        RandomWord(wordlist, draw, if i < HEAD_LENGTH then at + i else at + 2 * HEAD_LENGTH))
    ensures RefusesBadEntropy(entropyToMnemonic) ==> IsPhrase(mnemonic, wordlist)
  {
    var words: seq<string> := [];
    var i := 0;
    while i < HEAD_LENGTH
      invariant 0 <= i <= HEAD_LENGTH && |words| == i
      invariant forall j :: 0 <= j < i ==> words[j] == RandomWord(wordlist, draw, at + j)
    {
      words := words + [wordlist[RandomBelow(draw(at + i), WORD_COUNT)]];
      i := i + 1;
    }
    var entropy := EntropyBytes(draw, at + HEAD_LENGTH);
    var encoded := entropyToMnemonic(entropy);
    if encoded.Some? {
      assert |entropy| % 4 != 0 && entropyToMnemonic(entropy).Some?;
      assert !RefusesBadEntropy(entropyToMnemonic);
      return encoded.value, at + 2 * HEAD_LENGTH;
    }
    words := words + [wordlist[RandomBelow(draw(at + 2 * HEAD_LENGTH), WORD_COUNT)]];
    assert forall i :: 0 <= i < PHRASE_LENGTH ==>
      words[i] == RandomWord(wordlist, draw, if i < HEAD_LENGTH then at + i else at + 2 * HEAD_LENGTH);
    assert words == seq(PHRASE_LENGTH, i requires 0 <= i < PHRASE_LENGTH =>
      RandomWord(wordlist, draw, if i < HEAD_LENGTH then at + i else at + 2 * HEAD_LENGTH));
    SplitJoin(words, ' ');
    mnemonic, next := Join(words, ' '), at + 2 * HEAD_LENGTH + 1;
  }

  // ---------------------------------------------------------------- crossover and mutation

  /** `Math.floor(Math.random() * 11)`: a position in [0, 10]. */
  function HeadPosition(draw: nat -> real, at: nat): (p: nat)
    requires IsUnitStream(draw)
    ensures p < HEAD_LENGTH
  {
    RandomBelow(draw(at), HEAD_LENGTH)
  }

  /** `crossover`: the words of parent1 before the crossover point, those of parent2 from it
      up to position 11, and a random list word (the `try` around it cannot throw, so the
      `catch` is never taken). */
  function Crossover(parent1: string, parent2: string, wordlist: seq<string>, draw: nat -> real, at: nat)
    : (r: Drawn<string>)
    requires IsWordlist(wordlist) && IsUnitStream(draw)
    ensures r.next == at + 2
    ensures Split(r.value, ' ') == Slice(Split(parent1, ' '), 0, HeadPosition(draw, at))
      + Slice(Split(parent2, ' '), HeadPosition(draw, at), HEAD_LENGTH) + [RandomWord(wordlist, draw, at + 1)]
  {
    var words1 := Split(parent1, ' ');
    var words2 := Split(parent2, ' ');
    var cp := HeadPosition(draw, at);
    var head1, head2 := Slice(words1, 0, cp), Slice(words2, cp, HEAD_LENGTH);
    SliceKeepsWords(words1, 0, cp);
    SliceKeepsWords(words2, cp, HEAD_LENGTH);
    var childWords := head1 + head2 + [RandomWord(wordlist, draw, at + 1)];
    assert forall j :: 0 <= j < |childWords| ==> ' ' !in childWords[j];
    SplitJoin(childWords, ' ');
    Drawn(Join(childWords, ' '), at + 2)
  }

  /** A slice of space-free words is space-free. */
  lemma SliceKeepsWords(words: seq<string>, start: nat, end: nat)
    requires forall j :: 0 <= j < |words| ==> ' ' !in words[j]
    ensures forall j :: 0 <= j < |Slice(words, start, end)| ==> ' ' !in Slice(words, start, end)[j]
  {
  }

  /** Two parents of at least 11 words give a 12-word child whose word i comes from parent1
      before the crossover point, from parent2 from there to position 10, and is the fresh
      random word at position 11. */
  lemma CrossoverWords(parent1: string, parent2: string, wordlist: seq<string>, draw: nat -> real, at: nat)
    requires IsWordlist(wordlist) && IsUnitStream(draw)
    requires |Split(parent1, ' ')| >= HEAD_LENGTH && |Split(parent2, ' ')| >= HEAD_LENGTH
    ensures |Split(Crossover(parent1, parent2, wordlist, draw, at).value, ' ')| == PHRASE_LENGTH
    ensures forall i :: 0 <= i < PHRASE_LENGTH ==>
      Split(Crossover(parent1, parent2, wordlist, draw, at).value, ' ')[i] ==
        if i < HeadPosition(draw, at) then Split(parent1, ' ')[i]
        else if i < HEAD_LENGTH then Split(parent2, ' ')[i]
        else RandomWord(wordlist, draw, at + 1)
  {
    var words1 := Split(parent1, ' ');
    var words2 := Split(parent2, ' ');
    var cp := HeadPosition(draw, at);
    var head1 := Slice(words1, 0, cp);
    var head2 := Slice(words2, cp, HEAD_LENGTH);
    assert head1 == words1[..cp] && head2 == words2[cp..HEAD_LENGTH];
    var child := Split(Crossover(parent1, parent2, wordlist, draw, at).value, ' ');
    assert child == head1 + head2 + [RandomWord(wordlist, draw, at + 1)];
  }

  /** Crossing two phrases gives a phrase. */
  lemma CrossoverKeepsPhrase(parent1: string, parent2: string, wordlist: seq<string>, draw: nat -> real, at: nat)
    requires IsWordlist(wordlist) && IsUnitStream(draw)
    requires IsPhrase(parent1, wordlist) && IsPhrase(parent2, wordlist)
    ensures IsPhrase(Crossover(parent1, parent2, wordlist, draw, at).value, wordlist)
  {
    CrossoverWords(parent1, parent2, wordlist, draw, at);
  }

  /** A JavaScript array after `words[i] = w`: position i holds w, every other position keeps
      its word, and an i past the end first extends the array with holes, which `join`
      renders as empty strings. */
  function WriteAt(words: seq<string>, i: nat, w: string): (r: seq<string>)
    ensures |r| == if i < |words| then |words| else i + 1
    ensures r[i] == w
    ensures forall j :: 0 <= j < |words| && j != i ==> r[j] == words[j]
    ensures forall j :: |words| <= j < i ==> r[j] == ""
  {
    if i < |words| then words[i := w]
    else words + seq(i - |words|, _ => "") + [w]
  }

  /** `mutate`: with probability MUTATION_RATE one word at a position in [0, 10] is replaced
      by a random list word; otherwise the phrase comes back unchanged. The word count of a
      phrase with at least 11 words never changes, and its twelfth word is never touched. */
  function Mutation(mnemonic: string, wordlist: seq<string>, draw: nat -> real, at: nat): (r: Drawn<string>)
    requires IsWordlist(wordlist) && IsUnitStream(draw)
    ensures draw(at) > MUTATION_RATE ==> r == Drawn(mnemonic, at + 1)
    ensures draw(at) <= MUTATION_RATE ==>
      r.next == at + 3 &&
      Split(r.value, ' ') == WriteAt(Split(mnemonic, ' '), HeadPosition(draw, at + 1), RandomWord(wordlist, draw, at + 2))
    ensures |Split(mnemonic, ' ')| >= HEAD_LENGTH ==>
      |Split(r.value, ' ')| == |Split(mnemonic, ' ')| &&
      forall j :: 0 <= j < |Split(mnemonic, ' ')| && (draw(at) > MUTATION_RATE || j != HeadPosition(draw, at + 1)) ==>
        Split(r.value, ' ')[j] == Split(mnemonic, ' ')[j]
    ensures |Split(mnemonic, ' ')| > HEAD_LENGTH ==>
      Split(r.value, ' ')[HEAD_LENGTH] == Split(mnemonic, ' ')[HEAD_LENGTH]
    ensures IsPhrase(mnemonic, wordlist) ==> IsPhrase(r.value, wordlist)
  {
    if draw(at) > MUTATION_RATE then Drawn(mnemonic, at + 1)
    else
      var words := WriteAt(Split(mnemonic, ' '), HeadPosition(draw, at + 1), RandomWord(wordlist, draw, at + 2));
      assert forall j :: 0 <= j < |words| ==> ' ' !in words[j];
      SplitJoin(words, ' ');
      Drawn(Join(words, ' '), at + 3)
  }

  /** `mutate` as it runs: the word array is written at the drawn position and joined
      again, giving the mutation drawn from the stream at `at`. */
  method Mutate(mnemonic: string, wordlist: seq<string>, draw: nat -> real, at: nat)
    returns (mutated: string, next: nat)
    requires IsWordlist(wordlist) && IsUnitStream(draw)
    ensures Drawn(mutated, next) == Mutation(mnemonic, wordlist, draw, at)
  {
    if draw(at) > MUTATION_RATE {
      return mnemonic, at + 1;
    }
    var words := Split(mnemonic, ' ');
    var mutationPoint := RandomBelow(draw(at + 1), HEAD_LENGTH);
    var word := wordlist[RandomBelow(draw(at + 2), WORD_COUNT)];
    if mutationPoint < |words| {
      words := words[mutationPoint := word];
    } else {
      words := words + seq(mutationPoint - |words|, _ => "") + [word];
    }
    assert words == WriteAt(Split(mnemonic, ' '), mutationPoint, word);
    mutated, next := Join(words, ' '), at + 3;
  }

  // ---------------------------------------------------------------- the generational loop

  /** `Array.from({ length: count }, () => generateRandomMnemonic())`. */
  method RandomPopulation(count: nat, wordlist: seq<string>, entropyToMnemonic: seq<int> -> Option<string>,
                          draw: nat -> real, at: nat)
    returns (population: seq<string>, cursor: nat)
    requires IsWordlist(wordlist) && IsUnitStream(draw)
    ensures |population| == count
    ensures RefusesBadEntropy(entropyToMnemonic) ==> AllPhrases(population, wordlist)
  {
    population, cursor := [], at;
    while |population| < count
      invariant |population| <= count
      invariant RefusesBadEntropy(entropyToMnemonic) ==> AllPhrases(population, wordlist)
      decreases count - |population|
    {
      var mnemonic;
      mnemonic, cursor := GenerateRandomMnemonic(wordlist, entropyToMnemonic, draw, cursor);
      population := population + [mnemonic];
    }
  }

  /** Every member is a phrase. */
  predicate AllPhrases(population: seq<string>, wordlist: seq<string>)
  {
    forall i :: 0 <= i < |population| ==> IsPhrase(population[i], wordlist)
  }

  /** `mnemonic => calculateDistance(mnemonicToEpicycles(mnemonic), targetEpicycles)`, the
      measure the loop ranks phrases by. */
  function PhraseDistance(target: seq<WordEpicycle>, wordlist: seq<string>, sqrt: real -> real)
    : (distance: string -> real)
    requires NonNegativeRoot(sqrt)
    ensures forall m :: distance(m) == MnemonicDistance(m, target, wordlist, sqrt) && distance(m) >= 0.0
  {
    m => MnemonicDistance(m, target, wordlist, sqrt)
  }

  /** `population.map(...)` of the distances. */
  function Distances(population: seq<string>, distance: string -> real): (ds: seq<real>)
    ensures |ds| == |population|
    ensures forall i :: 0 <= i < |ds| ==> ds[i] == distance(population[i])
  {
    seq(|population|, i requires 0 <= i < |population| => distance(population[i]))
  }

  /** A child bred from `population`: the mutation of a crossover of two of its members,
      drawn from some position of the stream on. */
  ghost predicate Bred(child: string, population: seq<string>, wordlist: seq<string>, draw: nat -> real)
  {
    IsWordlist(wordlist) && IsUnitStream(draw) &&
    exists parent1, parent2, c: nat :: parent1 in population && parent2 in population &&
      child == Mutation(Crossover(parent1, parent2, wordlist, draw, c).value, wordlist, draw,
                        Crossover(parent1, parent2, wordlist, draw, c).next).value
  }

  /** A child bred from phrases is a phrase. */
  lemma BredKeepsPhrase(child: string, population: seq<string>, wordlist: seq<string>, draw: nat -> real)
    requires Bred(child, population, wordlist, draw) && AllPhrases(population, wordlist)
    ensures IsPhrase(child, wordlist)
  {
    var parent1, parent2, c: nat :| parent1 in population && parent2 in population &&
      child == Mutation(Crossover(parent1, parent2, wordlist, draw, c).value, wordlist, draw,
                        Crossover(parent1, parent2, wordlist, draw, c).next).value;
    CrossoverKeepsPhrase(parent1, parent2, wordlist, draw, c);
  }

  /** One turn of the breeding loop: two roulette-selected parents, their crossover, and
      its mutation, which is a child bred from the population. */
  method BreedOne(population: seq<string>, fitnessScores: seq<real>, wordlist: seq<string>,
                  draw: nat -> real, at: nat)
    returns (child: string, next: nat)
    requires IsWordlist(wordlist) && IsUnitStream(draw)
    requires |population| > 0 && |fitnessScores| == |population|
    ensures next > at
    ensures Bred(child, population, wordlist, draw)
  {
    var parent1, parent2, cursor;
    parent1, cursor := SelectParent(population, fitnessScores, draw, at);
    parent2, cursor := SelectParent(population, fitnessScores, draw, cursor);
    var crossed := Crossover(parent1, parent2, wordlist, draw, cursor);
    child, next := Mutate(crossed.value, wordlist, draw, crossed.next);
  }

  /** The breeding loop: starting from the elite, push mutated crossovers of two
      roulette-selected parents until the generation is full. Phrases breed phrases. */
  method Breed(population: seq<string>, fitnessScores: seq<real>, elite: seq<string>, wordlist: seq<string>,
               draw: nat -> real, at: nat)
    returns (nextGeneration: seq<string>, cursor: nat)
    requires IsWordlist(wordlist) && IsUnitStream(draw)
    requires |population| > 0 && |fitnessScores| == |population| && |elite| <= POPULATION_SIZE
    ensures |nextGeneration| == POPULATION_SIZE
    ensures nextGeneration[..|elite|] == elite
    ensures forall i :: |elite| <= i < |nextGeneration| ==> Bred(nextGeneration[i], population, wordlist, draw)
    ensures AllPhrases(population, wordlist) && AllPhrases(elite, wordlist) ==> AllPhrases(nextGeneration, wordlist)
    ensures cursor >= at
  {
    nextGeneration := elite;
    cursor := at;
    while |nextGeneration| < POPULATION_SIZE
      invariant |elite| <= |nextGeneration| <= POPULATION_SIZE
      invariant nextGeneration[..|elite|] == elite
      invariant forall i :: |elite| <= i < |nextGeneration| ==> Bred(nextGeneration[i], population, wordlist, draw)
      invariant AllPhrases(population, wordlist) && AllPhrases(elite, wordlist) ==> AllPhrases(nextGeneration, wordlist)
      invariant cursor >= at
      decreases POPULATION_SIZE - |nextGeneration|
    {
      var child;
      child, cursor := BreedOne(population, fitnessScores, wordlist, draw, cursor);
      if AllPhrases(population, wordlist) {
        BredKeepsPhrase(child, population, wordlist, draw);
      }
      nextGeneration := nextGeneration + [child];
    }
  }

  /** What `onProgress` is called with at the end of each generation. */
  datatype Progress = Progress(generation: nat, fitness: real)

  /** A full generation; when `phrases` holds, every member is a phrase. */
  predicate IsGeneration(population: seq<string>, wordlist: seq<string>, phrases: bool)
  {
    |population| == POPULATION_SIZE && (phrases ==> AllPhrases(population, wordlist))
  }

  /** Generation g + 1 opens with the elite of generation g, and every later member of it
      was bred from generation g. */
  ghost predicate CarriesElite(generations: seq<seq<string>>, g: nat, distance: string -> real,
                               wordlist: seq<string>, draw: nat -> real)
    requires g + 1 < |generations|
  {
    var successor := generations[g + 1];
    ELITE_SIZE <= |successor| &&
    successor[..ELITE_SIZE] == Elite(generations[g], Distances(generations[g], distance), ELITE_SIZE) &&
    forall i :: ELITE_SIZE <= i < |successor| ==> Bred(successor[i], generations[g], wordlist, draw)
  }

  /** The report of the g-th generation, with `best` the phrase kept so far: its number and
      the fitness of that phrase. */
  predicate Scores(report: Progress, best: string, g: nat, distance: string -> real)
  {
    report.generation == g && distance(best) >= 0.0 && report.fitness == Fitness(distance(best))
  }

  /** `best` is at least as close to the target as every member of `population`. */
  predicate Closest(best: string, population: seq<string>, distance: string -> real)
  {
    forall i :: 0 <= i < |population| ==> distance(best) <= distance(population[i])
  }

  /** The report made on `population`, the g-th generation, with `best` the phrase kept so
      far: its number, and the fitness of a phrase at least as close to the target as every
      member of that generation. */
  predicate ReportsOn(report: Progress, best: string, g: nat, population: seq<string>, distance: string -> real)
  {
    Scores(report, best, g, distance) && Closest(best, population, distance)
  }

  /** The phrase kept after generation g + 1 is no farther from the target than the one kept
      after generation g. */
  predicate Improves(bests: seq<string>, g: nat, distance: string -> real)
    requires g + 1 < |bests|
  {
    distance(bests[g + 1]) <= distance(bests[g])
  }

  /** What the run has recorded about generation g: a full population (of phrases, when
      `phrases` holds) and, once it was evaluated, the next one opening with its elite, a
      report on it whose kept phrase was found in that or an earlier generation, and, when a
      later one exists, a later kept phrase no farther from the target. */
  ghost predicate Recorded(generations: seq<seq<string>>, reports: seq<Progress>, bests: seq<string>,
                     origins: seq<nat>, g: nat, distance: string -> real, wordlist: seq<string>, phrases: bool, draw: nat -> real)
    requires g < |generations| == |reports| + 1 && |bests| == |reports| && |origins| == |reports|
  {
    IsGeneration(generations[g], wordlist, phrases) &&
    (g < |reports| ==>
       CarriesElite(generations, g, distance, wordlist, draw) &&
       ReportsOn(reports[g], bests[g], g, generations[g], distance) &&
       origins[g] <= g && bests[g] in generations[origins[g]]) &&
    (g + 1 < |reports| ==> Improves(bests, g, distance))
  }

  /** The record of a run after `|reports|` generations: one entry per generation. */
  ghost predicate History(generations: seq<seq<string>>, reports: seq<Progress>, bests: seq<string>,
                    origins: seq<nat>, distance: string -> real, wordlist: seq<string>, phrases: bool, draw: nat -> real)
  {
    |generations| == |reports| + 1 && |bests| == |reports| && |origins| == |reports| &&
    forall g :: 0 <= g < |generations| ==>
      Recorded(generations, reports, bests, origins, g, distance, wordlist, phrases, draw)
  }

  /** One more generation keeps the history: a report on the last population whose kept
      phrase is no farther than the previous one, and a next population that opens with its
      elite. */
  lemma HistoryExtended(generations: seq<seq<string>>, reports: seq<Progress>, bests: seq<string>,
                        origins: seq<nat>, report: Progress, best: string, origin: nat, next: seq<string>,
                        distance: string -> real, wordlist: seq<string>, phrases: bool, draw: nat -> real)
    requires History(generations, reports, bests, origins, distance, wordlist, phrases, draw)
    requires ReportsOn(report, best, |reports|, generations[|reports|], distance)
    requires origin <= |reports| && best in generations[origin]
    requires |reports| > 0 ==> distance(best) <= distance(bests[|reports| - 1])
    requires IsGeneration(next, wordlist, phrases)
    requires next[..ELITE_SIZE] == Elite(generations[|reports|], Distances(generations[|reports|], distance), ELITE_SIZE)
    requires forall i :: ELITE_SIZE <= i < |next| ==> Bred(next[i], generations[|reports|], wordlist, draw)
    ensures History(generations + [next], reports + [report], bests + [best], origins + [origin],
                    distance, wordlist, phrases, draw)
  {
    var gs, rs, bs, os := generations + [next], reports + [report], bests + [best], origins + [origin];
    var n := |reports|;
    forall g | 0 <= g < |gs|
      ensures Recorded(gs, rs, bs, os, g, distance, wordlist, phrases, draw)
    {
      if g < n {
        assert Recorded(generations, reports, bests, origins, g, distance, wordlist, phrases, draw);
        assert gs[g] == generations[g] && gs[g + 1] == generations[g + 1];
        assert rs[g] == reports[g] && bs[g] == bests[g] && os[g] == origins[g] && gs[os[g]] == generations[os[g]];
        assert CarriesElite(generations, g, distance, wordlist, draw);
        if g + 1 < n {
          assert bs[g + 1] == bests[g + 1];
          assert Improves(bests, g, distance);
        }
      } else if g == n {
        assert Recorded(generations, reports, bests, origins, g, distance, wordlist, phrases, draw);
        assert gs[g] == generations[g] && gs[os[g]] == generations[os[g]];
      }
    }
  }

  /** Reports on each generation whose kept phrases never move away from the target: the
      phrase kept after generation h is at least as close to the target as every phrase of
      every generation up to h, and the reported fitness never falls. */
  lemma ReportsKeepBest(generations: seq<seq<string>>, reports: seq<Progress>, bests: seq<string>,
                        distance: string -> real)
    requires |bests| == |reports| <= |generations|
    requires forall g :: 0 <= g < |reports| ==> Scores(reports[g], bests[g], g, distance)
    requires forall g :: 0 <= g < |reports| ==> Closest(bests[g], generations[g], distance)
    requires forall g :: 0 <= g < |reports| - 1 ==> Improves(bests, g, distance)
    ensures forall g, h, i :: 0 <= g <= h < |reports| && 0 <= i < |generations[g]| ==>
      distance(bests[h]) <= distance(generations[g][i])
    ensures forall g, h :: 0 <= g < h < |reports| ==> reports[g].fitness <= reports[h].fitness
  {
    var ds := seq(|bests|, g requires 0 <= g < |bests| => distance(bests[g]));
    forall k | 0 <= k < |ds| - 1
      ensures StepsDown(ds, k)
    {
      assert Improves(bests, k, distance);
    }
    NonIncreasingFromSteps(ds);
    forall g, h, i | 0 <= g <= h < |reports| && 0 <= i < |generations[g]|
      ensures distance(bests[h]) <= distance(generations[g][i])
    {
      assert Closest(bests[g], generations[g], distance);
      assert ds[h] <= ds[g];
    }
    forall g, h | 0 <= g < h < |reports|
      ensures reports[g].fitness <= reports[h].fitness
    {
      assert Scores(reports[g], bests[g], g, distance);
      assert Scores(reports[h], bests[h], h, distance);
      FitnessAntitone(ds[h], ds[g]);
    }
  }

  /** In a recorded run the phrase kept after generation h is at least as close to the
      target as every phrase of every generation evaluated up to h, and the reported fitness
      never falls. */
  lemma HistoryKeepsBest(generations: seq<seq<string>>, reports: seq<Progress>, bests: seq<string>,
                         origins: seq<nat>, distance: string -> real, wordlist: seq<string>, phrases: bool, draw: nat -> real)
    requires History(generations, reports, bests, origins, distance, wordlist, phrases, draw)
    ensures forall g, h, i :: 0 <= g <= h < |reports| && 0 <= i < |generations[g]| ==>
      distance(bests[h]) <= distance(generations[g][i])
    ensures forall g, h :: 0 <= g < h < |reports| ==> reports[g].fitness <= reports[h].fitness
  {
    forall g | 0 <= g < |reports|
      ensures Scores(reports[g], bests[g], g, distance)
      ensures Closest(bests[g], generations[g], distance)
      ensures g < |reports| - 1 ==> Improves(bests, g, distance)
    {
      assert Recorded(generations, reports, bests, origins, g, distance, wordlist, phrases, draw);
    }
    ReportsKeepBest(generations, reports, bests, distance);
  }

  /** One evaluation: the distances of the generation and the phrase kept so far, replaced
      by the generation's first closest member when that one is strictly closer. `kept`
      says whether the old phrase stayed. */
  method KeepBest(population: seq<string>, distance: string -> real, bestMnemonic: string, bestDistance: Extended)
    returns (distances: seq<real>, best: string, newDistance: Extended, kept: bool)
    requires |population| > 0
    requires bestDistance.Finite? ==> bestDistance.value == distance(bestMnemonic)
    ensures distances == Distances(population, distance)
    ensures newDistance == Finite(distance(best))
    ensures Closest(best, population, distance)
    ensures bestDistance.Finite? ==> newDistance.value <= bestDistance.value
    ensures kept ==> bestDistance.Finite? && best == bestMnemonic
    ensures !kept ==> best in population
  {
    distances := Distances(population, distance);
    var bestIndex := MinIndex(distances);
    var minDistance := distances[bestIndex];
    if Below(minDistance, bestDistance) {
      best, newDistance, kept := population[bestIndex], Finite(minDistance), false;
    } else {
      best, newDistance, kept := bestMnemonic, bestDistance, true;
    }
  }

  /** The body of one generation: evaluate, keep the best phrase so far, report, and breed
      the next population from the elite and roulette-selected parents. */
  method Generation(population: seq<string>, generation: nat, distance: string -> real, wordlist: seq<string>,
                    bestMnemonic: string, bestDistance: Extended, draw: nat -> real, at: nat, ghost phrases: bool)
    returns (report: Progress, best: string, newDistance: Extended, kept: bool,
             nextGeneration: seq<string>, cursor: nat)
    requires IsWordlist(wordlist) && IsUnitStream(draw)
    requires forall m :: distance(m) >= 0.0
    requires IsGeneration(population, wordlist, phrases)
    requires bestDistance.Finite? ==> bestDistance.value == distance(bestMnemonic)
    ensures ReportsOn(report, best, generation, population, distance)
    ensures newDistance == Finite(distance(best))
    ensures bestDistance.Finite? ==> newDistance.value <= bestDistance.value
    ensures kept ==> bestDistance.Finite? && best == bestMnemonic
    ensures !kept ==> best in population
    ensures IsGeneration(nextGeneration, wordlist, phrases)
    ensures nextGeneration[..ELITE_SIZE] == Elite(population, Distances(population, distance), ELITE_SIZE)
    ensures forall i :: ELITE_SIZE <= i < |nextGeneration| ==> Bred(nextGeneration[i], population, wordlist, draw)
  {
    var distances;
    distances, best, newDistance, kept := KeepBest(population, distance, bestMnemonic, bestDistance);
    report := Progress(generation, Fitness(newDistance.value));
    var elite := Elite(population, distances, ELITE_SIZE);
    if phrases {
      forall a | 0 <= a < |elite|
        ensures IsPhrase(elite[a], wordlist)
      {
        EliteFromPopulation(population, distances, ELITE_SIZE, a);
      }
    }
    var fitnessScores := FitnessScores(distances);
    nextGeneration, cursor := Breed(population, fitnessScores, elite, wordlist, draw, at);
  }

  /** The state the main loop carries from one generation to the next: the recorded
      history, the population of generation `generation` at its end, and the phrase kept so
      far, which is the last report's. */
  ghost predicate Tracking(generations: seq<seq<string>>, reports: seq<Progress>, bests: seq<string>,
                     origins: seq<nat>, population: seq<string>, generation: nat,
                     bestMnemonic: string, bestDistance: Extended, distance: string -> real,
                     wordlist: seq<string>, phrases: bool, draw: nat -> real)
  {
    |reports| == generation &&
    History(generations, reports, bests, origins, distance, wordlist, phrases, draw) &&
    generations[generation] == population &&
    (generation == 0 ==> bestDistance.Infinite?) &&
    (generation > 0 ==> bestDistance == Finite(distance(bestMnemonic)) && bestMnemonic == bests[generation - 1])
  }

  /** One turn of the main loop, with the history it extends. */
  method Advance(ghost generations: seq<seq<string>>, reports: seq<Progress>, ghost bests: seq<string>,
                 ghost origins: seq<nat>, population: seq<string>, generation: nat,
                 bestMnemonic: string, bestDistance: Extended, distance: string -> real,
                 wordlist: seq<string>, draw: nat -> real, cursor: nat, ghost phrases: bool)
    returns (ghost generations': seq<seq<string>>, reports': seq<Progress>, ghost bests': seq<string>,
             ghost origins': seq<nat>, population': seq<string>,
             bestMnemonic': string, bestDistance': Extended, cursor': nat)
    requires IsWordlist(wordlist) && IsUnitStream(draw)
    requires forall m :: distance(m) >= 0.0
    requires Tracking(generations, reports, bests, origins, population, generation,
                      bestMnemonic, bestDistance, distance, wordlist, phrases, draw)
    ensures Tracking(generations', reports', bests', origins', population', generation + 1,
                     bestMnemonic', bestDistance', distance, wordlist, phrases, draw)
  {
    assert Recorded(generations, reports, bests, origins, generation, distance, wordlist, phrases, draw);
    assert generation > 0 ==>
      Recorded(generations, reports, bests, origins, generation - 1, distance, wordlist, phrases, draw);
    var report, kept, nextGeneration;
    report, bestMnemonic', bestDistance', kept, nextGeneration, cursor' :=
      Generation(population, generation, distance, wordlist, bestMnemonic, bestDistance, draw, cursor, phrases);
    ghost var origin := if kept then origins[generation - 1] else generation;
    HistoryExtended(generations, reports, bests, origins, report, bestMnemonic', origin, nextGeneration,
                    distance, wordlist, phrases, draw);
    reports' := reports + [report];
    bests' := bests + [bestMnemonic'];
    origins' := origins + [origin];
    generations' := generations + [nextGeneration];
    population' := nextGeneration;
  }

  /** `solveForMnemonic`: MAX_GENERATIONS rounds of evaluate, keep the best phrase so far,
      report, carry the elite over and breed the rest. The phrase returned is at least as
      close to the target as every phrase of every generation, and the reported fitness
      never falls. `generations` records each population the loop works on, `bests[g]` the
      phrase kept after generation g and `origins[g]` the generation it was found in; with
      an encoder that keeps the BIP-39 length rule every population consists of phrases. */
  method SolveForMnemonic(targetEpicycles: seq<WordEpicycle>, wordlist: seq<string>,
                          entropyToMnemonic: seq<int> -> Option<string>, sqrt: real -> real,
                          draw: nat -> real, at: nat)
    returns (bestMnemonic: string, reports: seq<Progress>,
             ghost generations: seq<seq<string>>, ghost bests: seq<string>, ghost origins: seq<nat>)
    requires IsWordlist(wordlist) && NonNegativeRoot(sqrt) && IsUnitStream(draw)
    ensures |reports| == MAX_GENERATIONS
    ensures History(generations, reports, bests, origins, PhraseDistance(targetEpicycles, wordlist, sqrt),
                    wordlist, RefusesBadEntropy(entropyToMnemonic), draw)
    ensures bestMnemonic == bests[MAX_GENERATIONS - 1]
    ensures forall g, i :: 0 <= g < MAX_GENERATIONS && 0 <= i < |generations[g]| ==>
      MnemonicDistance(bestMnemonic, targetEpicycles, wordlist, sqrt)
        <= MnemonicDistance(generations[g][i], targetEpicycles, wordlist, sqrt)
    ensures forall g, h :: 0 <= g < h < MAX_GENERATIONS ==> reports[g].fitness <= reports[h].fitness
  {
    ghost var phrases := RefusesBadEntropy(entropyToMnemonic);
    var distance := PhraseDistance(targetEpicycles, wordlist, sqrt);
    var population, cursor := RandomPopulation(POPULATION_SIZE, wordlist, entropyToMnemonic, draw, at);
    bestMnemonic := population[0];
    var bestDistance: Extended := Infinite;
    reports := [];
    generations := [population];
    bests := [];
    origins := [];
    var generation := 0;
    while generation < MAX_GENERATIONS
      invariant generation <= MAX_GENERATIONS
      invariant Tracking(generations, reports, bests, origins, population, generation,
                         bestMnemonic, bestDistance, distance, wordlist, phrases, draw)
    {
      generations, reports, bests, origins, population, bestMnemonic, bestDistance, cursor :=
        Advance(generations, reports, bests, origins, population, generation, bestMnemonic, bestDistance,
                distance, wordlist, draw, cursor, phrases);
      generation := generation + 1;
    }
    HistoryKeepsBest(generations, reports, bests, origins, distance, wordlist, phrases, draw);
  }
}
