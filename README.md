# Mnemonic epicycles: a Dafny model of the drawing-to-phrase core

The application turns a BIP-39 mnemonic phrase into a set of Fourier epicycles and back. It
also searches for a phrase whose epicycles come close to a drawing.

This project models the five utility files that do that work, and proves what they promise:

- **the grid codec** (`app/utils/mnemonicToEpicycles.ts`): a word's index is split into a
  (row, column) cell of a 32 × 64 grid. The row becomes a phase, the column an amplitude, and
  the word's position in the phrase a frequency. Decoding quantises back to a clamped index.
- **the Fourier layer** (`app/utils/fourierTransform.ts`):
  - a complex FFT built from two real FFTs over zero-padded signals;
  - centring the points on their centroid;
  - two epicycles per coefficient, stably sorted by |amplitude|;
  - the position at time t as the sum of the epicycles;
  - sampling of the whole path.
- **two genetic matchers**:
  - over word phrases (`app/utils/geneticAlgorithm.ts`);
  - over real-valued epicycle sets quantised to words at the end
    (`app/utils/floatGeneticAlgorithm.ts`).

  Both have roulette selection, single-point crossover, mutation, elitism and a fixed budget
  of generations.
- **the SVG path reader** (`app/utils/svgPathParser.ts`): it normalises and splits the path
  string, then walks the tokens with a cursor, moving a pen and collecting points.

Modules:

| module | file | what it holds |
|---|---|---|
| `Js` | js.dfy | JavaScript semantics the core relies on: `Math.round`, truncating `%`, `Math.trunc`, `Math.max/min` clamping, `split`/`join` on one character, `slice` with clamped bounds, and π as the exact rational value of the double `Math.PI` |
| `Bip39` | bip39.dfy | the English wordlist as a sequence of 2048 distinct words, and the word-to-index lookup |
| `Sorting` | sorting.dfy | `Array.prototype.sort` with a numeric comparator, as a stable insertion sort on values |
| `Evolution` | evolution.dfy | the random stream, fitness `1/(1+d)`, the roulette wheel, the arg-min and the elite, shared by both matchers |
| `MnemonicCodec` | mnemonic_codec.dfy | the grid codec |
| `Fourier` | fourier.dfy | FFT recombination, epicycle extraction and synthesis |
| `WordGenetic` | word_genetic.dfy | the word-phrase matcher |
| `FloatGenetic` | float_genetic.dfy | the real-valued matcher |
| `SvgPath` | svg_path.dfy | the SVG path reader |

Code that works by loops is modelled as methods with loops:

- `calculateDistance`, `selectParent`, `complexFFT`, the emit loop of `pointsToEpicycles`,
  `calculatePosition` and `generatePath` are each proved equal to a function of their inputs;
- the command loop of `parseSVGPath` is proved equal to a run of the reader's step function;
- the breeding loops, the random initial population and the generation loops of both matchers
  are specified by relations rather than functions. Each child is bred from two members of the
  previous generation (`Bred`). Each generation opens with the elite of the one before. The
  run's record (`History`) ties every report to its generation.

Expression code is modelled as functions. Properties relating several calls are lemmas.

Foreign code and the environment are function parameters:

- `Math.random` is a stream `draw: nat -> real` of values in [0, 1), read at an explicit
  cursor. Every consumer returns the cursor after its draws.
- `Math.sqrt`, `Math.cos`, `Math.sin`, `fft-js`'s `fft.fft`, `parseFloat` and bip39's
  `entropyToMnemonic` are parameters. Where a proof needs a fact about one, a predicate states
  that fact (`NonNegativeRoot`, `PreservesLength`, `RefusesBadEntropy`).
- The `onProgress` callback is the sequence of `Progress` reports that the matchers return.

## Model

| member | source | states |
|---|---|---|
| Js.Round | app/utils/mnemonicToEpicycles.ts:46 | `Math.round(x)` is the integer n with n - 1/2 <= x < n + 1/2 |
| Js.Trunc | app/utils/floatGeneticAlgorithm.ts:62 | truncation towards zero: below a non-negative value, above a negative one, less than one away |
| Js.RemTwoPiBounds | app/utils/floatGeneticAlgorithm.ts:62 | JavaScript `x % 2π` lies in [0, 2π) for x >= 0 and in (-2π, 0] for x < 0: it keeps the dividend's sign |
| Js.RemTwoPiOfReduced | app/utils/mnemonicToEpicycles.ts:45 | `%` leaves a value already in [0, 2π) unchanged |
| Js.Clamp | app/utils/floatGeneticAlgorithm.ts:59-61 | `Math.max(lo, Math.min(hi, x))` lies in [lo, hi], is x inside it and the nearer bound outside |
| Js.ClampInt | app/utils/mnemonicToEpicycles.ts:53 | the integer instance of Clamp: the result lies in [lo, hi], is n inside it and the nearer bound outside |
| Js.Split | app/utils/mnemonicToEpicycles.ts:22 | `split(sep)` gives at least one piece, no piece holds the separator, joining the pieces gives back the string, and there is one piece more than separators |
| Js.SplitJoin | app/utils/mnemonicToEpicycles.ts:71 | splitting a join of separator-free pieces gives back the pieces |
| Js.Slice | app/utils/geneticAlgorithm.ts:82-83 | `slice(start, end)` is the in-range slice, empty when end <= start or start is past the end, and runs to the end when end is past it |
| Bip39.IndexOf | app/utils/mnemonicToEpicycles.ts:17-23 | the Map built by `forEach` answers the last position of a word, and `?? 0` answers 0 for a word not in the list |
| Bip39.IndexOfWordAt | app/utils/mnemonicToEpicycles.ts:17-23 | over a list of distinct words, the lookup of the i-th word is i |
| MnemonicCodec.Cell | app/utils/mnemonicToEpicycles.ts:26-27 | row · 64 + col = index with col < 64, and row < 32 for every index below 2048 |
| MnemonicCodec.GridPhase | app/utils/mnemonicToEpicycles.ts:29 | the phase of a row below 32 lies in [0, 2π) |
| MnemonicCodec.GridAmplitude | app/utils/mnemonicToEpicycles.ts:30 | the amplitude of a column below 64 lies in [0.1, 1) |
| MnemonicCodec.EncodeIndex | app/utils/mnemonicToEpicycles.ts:25-34 | a word index below 2048 gives amplitude in [0.1, 1) and phase in [0, 2π); the frequency is -2πk/n |
| MnemonicCodec.FrequencyDecreasing | app/utils/mnemonicToEpicycles.ts:31 | frequencies strictly decrease with the position in the phrase |
| MnemonicCodec.MnemonicToEpicycles | app/utils/mnemonicToEpicycles.ts:15-35 | one epicycle per space-separated word, each the encoding of the word's index; an unknown word encodes index 0; with a real wordlist every amplitude and phase is in range |
| MnemonicCodec.EncodedFrequenciesFall | app/utils/mnemonicToEpicycles.ts:31 | an encoded phrase is already in descending frequency order |
| MnemonicCodec.EncodedNeedsNoSorting | app/utils/mnemonicToEpicycles.ts:63 | so the decoder's sort by frequency leaves an encoded phrase unchanged |
| MnemonicCodec.NormalizePhase | app/utils/mnemonicToEpicycles.ts:45 | `((p % 2π) + 2π) % 2π` lies in [0, 2π) and is p for p already in it |
| MnemonicCodec.DecodeRow | app/utils/mnemonicToEpicycles.ts:45-46 | the decoded row is below 32 for every phase, negative ones included |
| MnemonicCodec.DecodeColumn | app/utils/mnemonicToEpicycles.ts:49-50 | the decoded column is below 64 for every amplitude |
| MnemonicCodec.EpicycleToWordIndex | app/utils/mnemonicToEpicycles.ts:40-54 | the decoded index is always a valid word index, below 2048 |
| MnemonicCodec.ClampIsNoOp | app/utils/mnemonicToEpicycles.ts:52-53 | the final clamp never changes row · 64 + col |
| MnemonicCodec.DecodeIgnoresFrequency | app/utils/mnemonicToEpicycles.ts:42 | the index depends on neither the frequency nor `totalWords`: the position k is computed and never used |
| MnemonicCodec.RoundScaled | app/utils/mnemonicToEpicycles.ts:46-50 | `round(c / size · (size - 1))` is c up to the middle of the axis and c - 1 beyond it |
| MnemonicCodec.RowRoundTrip | app/utils/mnemonicToEpicycles.ts:29-46 | decoding the phase of row r gives r for r <= 16 and r - 1 above |
| MnemonicCodec.ColumnRoundTrip | app/utils/mnemonicToEpicycles.ts:30-50 | decoding the amplitude of column c gives c for c <= 32 and c - 1 above |
| MnemonicCodec.DecodeEncode | app/utils/mnemonicToEpicycles.ts:25-53 | decoding the encoding of an index gives the index of the degraded cell |
| MnemonicCodec.RoundTripExactIff | app/utils/mnemonicToEpicycles.ts:25-53 | decode(encode(i)) = i exactly when row <= 16 and column <= 32; both directions |
| MnemonicCodec.DecodedWords | app/utils/mnemonicToEpicycles.ts:63-69 | min(12, n) words, the j-th decoded from the j-th epicycle of the copy sorted by descending frequency, each a wordlist word without spaces |
| MnemonicCodec.EpicyclesToMnemonic | app/utils/mnemonicToEpicycles.ts:59-72 | no epicycles give the empty string; otherwise splitting the result on spaces gives the decoded words |
| MnemonicCodec.DecodedWordsInPhraseOrder | app/utils/mnemonicToEpicycles.ts:25-69 | decoding an encoded phrase takes word j from epicycle j: the sort does not reorder it |
| MnemonicCodec.DecodedWordOfCell | app/utils/mnemonicToEpicycles.ts:59-72 | in a sorted epicycle list, the word decoded at position j is the word at the degraded cell of the index encoded there |
| MnemonicCodec.PhraseRoundTrip | app/utils/mnemonicToEpicycles.ts:15-72 | word j of decode(encode(phrase)) is the word at the degraded cell of word j's index |
| Sorting.SortDescendingSorts | app/utils/fourierTransform.ts:132 | the sort's output is a permutation of its input, non-increasing by key |
| Sorting.SortStable | app/utils/mnemonicToEpicycles.ts:63 | equal keys keep their input order |
| Sorting.SortOfSorted | app/utils/mnemonicToEpicycles.ts:63 | a sequence already in order comes back unchanged |
| Sorting.SortedContains | app/utils/geneticAlgorithm.ts:156-158 | every input element is in the output |
| Evolution.RandomBelow | app/utils/geneticAlgorithm.ts:60 | `Math.floor(r · count)` for r in [0, 1) is a valid index k with k <= r · count < k + 1 |
| Evolution.Fitness | app/utils/geneticAlgorithm.ts:152-163 | `1 / (1 + d)` lies in (0, 1] for d >= 0, and is 1 exactly when d = 0 |
| Evolution.FitnessAntitone | app/utils/geneticAlgorithm.ts:163 | a larger distance never has a larger fitness |
| Evolution.FitnessScores | app/utils/geneticAlgorithm.ts:163 | one positive score per distance, the i-th being the fitness of the i-th distance |
| Evolution.WheelSlot | app/utils/geneticAlgorithm.ts:110-118 | the first slot whose running total reaches the target, or the last slot when none does |
| Evolution.WheelSlotSegment | app/utils/geneticAlgorithm.ts:110-118 | for a target within the total, slot i is chosen exactly when the target lies in slot i's segment of the wheel |
| Evolution.SelectParent | app/utils/geneticAlgorithm.ts:109-119 | one draw; the parent is the member in the wheel slot of draw · total, and so a member of the population |
| Evolution.MinIndex | app/utils/geneticAlgorithm.ts:142-143 | `indexOf(Math.min(...ds))`: an index of a least distance, and the first such |
| Evolution.RankedIsOrderedPermutation | app/utils/geneticAlgorithm.ts:156-158 | the sorted (individual, distance) pairs are a permutation of the zipped pairs, ordered by distance |
| Evolution.Elite | app/utils/geneticAlgorithm.ts:156-160 | min(size, n) individuals, the first of the ranking |
| Evolution.EliteAreLowest | app/utils/geneticAlgorithm.ts:156-160 | an individual left out of the elite is no closer than any elite member |
| Evolution.EliteFromPopulation | app/utils/geneticAlgorithm.ts:156-160 | every elite member is a population member, ranked with that member's distance |
| Evolution.RankedHeadIsMinimum | app/utils/geneticAlgorithm.ts:142-158 | the first ranked distance is the least distance |
| FloatGenetic.PhaseGap | app/utils/floatGeneticAlgorithm.ts:28-29 | the circular phase difference is at most π, non-negative for differences within 2π, and |Δ| for differences within π |
| FloatGenetic.SquaredGap | app/utils/floatGeneticAlgorithm.ts:26-31 | the term under the square root is never negative |
| FloatGenetic.Distance | app/utils/floatGeneticAlgorithm.ts:21-35 | the distance is non-negative when the square root is |
| FloatGenetic.CalculateDistance | app/utils/floatGeneticAlgorithm.ts:21-35 | the accumulating loop computes the distance |
| FloatGenetic.DistanceUpToNonNegative | app/utils/floatGeneticAlgorithm.ts:25-32 | every partial sum of the loop is non-negative |
| FloatGenetic.DistanceSymmetric | app/utils/floatGeneticAlgorithm.ts:21-35 | the distance is symmetric in its two arguments |
| FloatGenetic.DistanceOfCommonPrefix | app/utils/floatGeneticAlgorithm.ts:23 | only the first min(|a|, |b|) pairs count |
| FloatGenetic.RandomEpicycles | app/utils/floatGeneticAlgorithm.ts:38-43 | `count` epicycles from two draws each, amplitude 0.1 + 0.9r and phase 2πr |
| FloatGenetic.GenerateRandomIndividual | app/utils/floatGeneticAlgorithm.ts:38-43 | twelve epicycles with amplitude in [0.1, 1) and phase in [0, 2π) |
| FloatGenetic.RandomPopulation | app/utils/floatGeneticAlgorithm.ts:112-115 | `count` individuals of the right shape |
| FloatGenetic.CrossoverPoint | app/utils/floatGeneticAlgorithm.ts:47 | the crossover point is below 12 |
| FloatGenetic.Crossover | app/utils/floatGeneticAlgorithm.ts:46-52 | the child is parent1 up to the point and parent2 from it on; two 12-long parents give a 12-long child |
| FloatGenetic.CrossoverKeepsShape | app/utils/floatGeneticAlgorithm.ts:46-52 | crossover of well-formed parents is well-formed |
| FloatGenetic.MutateEpicycle | app/utils/floatGeneticAlgorithm.ts:56-65 | one draw leaves the epicycle as it is at or above the rate; below it, two more draws give an amplitude moved by at most 0.05 and clamped into [0.1, 1], and a phase inside (-2π, 2π), possibly negative, that lies at most π/2 round the circle from the old phase (when the old phase was inside (-2π, 2π)) |
| FloatGenetic.Mutate | app/utils/floatGeneticAlgorithm.ts:55-67 | same length; each entry is unchanged or a mutation of the original |
| FloatGenetic.MutateKeepsShape | app/utils/floatGeneticAlgorithm.ts:55-67 | mutating a well-formed individual keeps it well-formed |
| FloatGenetic.QuantizeToWordIndex | app/utils/floatGeneticAlgorithm.ts:83-96 | the index is below 2048 whatever the phase |
| FloatGenetic.QuantizeAgreesWithCodec | app/utils/floatGeneticAlgorithm.ts:83-96 | for phases in [0, 2π) and amplitudes in [0.1, 1] it is the codec's `epicycleToWordIndex` |
| FloatGenetic.NegativePhaseQuantizesToZero | app/utils/floatGeneticAlgorithm.ts:88-95 | a phase below -π/31, which mutation can produce, quantises to index 0 |
| FloatGenetic.QuantizedWords | app/utils/floatGeneticAlgorithm.ts:101-102 | one wordlist word per epicycle, the word at its quantised index |
| FloatGenetic.FloatIndividualToMnemonic | app/utils/floatGeneticAlgorithm.ts:99-104 | splitting the phrase on spaces gives the quantised words |
| FloatGenetic.Distances | app/utils/floatGeneticAlgorithm.ts:122-124 | one non-negative distance per individual |
| FloatGenetic.TurnedPhaseGap | app/utils/floatGeneticAlgorithm.ts:62 | turning a phase inside (-2π, 2π) by d with abs(d) <= π/2 and reducing it with `%` leaves it exactly abs(d) round the circle from where it was |
| FloatGenetic.BredKeepsShape | app/utils/floatGeneticAlgorithm.ts:155-158 | a child bred from well-formed individuals is well-formed |
| FloatGenetic.BreedOne | app/utils/floatGeneticAlgorithm.ts:155-159 | one turn: the pushed child is the mutation of the crossover of two members of the population, and the stream moves on |
| FloatGenetic.Breed | app/utils/floatGeneticAlgorithm.ts:152-160 | exactly 150 individuals, all well-formed, opening with the elite; every later one is the mutation of the crossover of two members of the population |
| FloatGenetic.KeepBest | app/utils/floatGeneticAlgorithm.ts:122-133 | the best so far is at least as close as every member of this generation, its distance never increases, and it is either kept or taken from this generation |
| FloatGenetic.ReportsImprove | app/utils/floatGeneticAlgorithm.ts:130-139 | step-by-step improvement gives: a later report's best is no farther, and reported fitness never falls |
| FloatGenetic.HistoryExtended | app/utils/floatGeneticAlgorithm.ts:120-162 | one more generation with its report and a successor that opens with its elite and is otherwise bred from it extends the run's record |
| FloatGenetic.HistoryImproves | app/utils/floatGeneticAlgorithm.ts:130-139 | over a recorded run, the best distance never increases and the reported fitness never falls |
| FloatGenetic.Generation | app/utils/floatGeneticAlgorithm.ts:121-160 | one generation: the report on it, a best no farther than before, and a full next generation of well-formed individuals opening with the 15 lowest-distance ones and followed by children bred from the generation |
| FloatGenetic.TrackingExtended | app/utils/floatGeneticAlgorithm.ts:120-162 | the results of one generation (its report, the kept or replaced best, the successor that opens with the elite and is otherwise bred) turn the loop state of generation g into that of generation g + 1 |
| FloatGenetic.Advance | app/utils/floatGeneticAlgorithm.ts:120-166 | one turn of the generation loop keeps the record of the run and leaves the earlier reports alone |
| FloatGenetic.SolveForMnemonicFloat | app/utils/floatGeneticAlgorithm.ts:107-170 | exactly 80 reports, a record of generations of 150, each opening with the previous elite and otherwise bred from the previous generation, and the phrase quantised from the last report's best |
| WordGenetic.EncodeWord | app/utils/geneticAlgorithm.ts:30-35 | amplitude in [0.1, 1) and phase in [0, 2π) for a word index below 2048 |
| WordGenetic.MnemonicToEpicycles | app/utils/geneticAlgorithm.ts:17-37 | one (amplitude, phase) per word, equal to the main codec's without the frequency; an unknown word is index 0 |
| WordGenetic.SquaredGap | app/utils/geneticAlgorithm.ts:45-47 | the plain, non-circular term is never negative, and zero for equal epicycles |
| WordGenetic.Distance | app/utils/geneticAlgorithm.ts:40-51 | the distance is non-negative when the square root is |
| WordGenetic.DistanceUpToNonNegative | app/utils/geneticAlgorithm.ts:44-48 | every partial sum of the loop is non-negative |
| WordGenetic.DistanceUpToSelf | app/utils/geneticAlgorithm.ts:44-48 | every partial sum of a set against itself is zero |
| WordGenetic.DistanceToSelf | app/utils/geneticAlgorithm.ts:40-51 | a set is at distance 0 from itself |
| WordGenetic.CalculateDistance | app/utils/geneticAlgorithm.ts:40-51 | the accumulating loop computes the distance |
| WordGenetic.MnemonicDistance | app/utils/geneticAlgorithm.ts:136-139 | a phrase's distance to the target is non-negative |
| WordGenetic.ExactPhraseHasDistanceZero | app/utils/geneticAlgorithm.ts:136-139 | the phrase that produced the target is at distance 0 |
| WordGenetic.RandomWord | app/utils/geneticAlgorithm.ts:60-61 | a random word is a wordlist word without spaces |
| WordGenetic.EntropyBytes | app/utils/geneticAlgorithm.ts:66 | eleven random bytes, each in [0, 256) |
| WordGenetic.GenerateRandomMnemonic | app/utils/geneticAlgorithm.ts:54-73 | the encoder's phrase when it returns; when it throws, the eleven words plus a twelfth; with a length-checking encoder it is always a 12-word phrase of wordlist words |
| WordGenetic.HeadPosition | app/utils/geneticAlgorithm.ts:101 | `Math.floor(Math.random() * 11)` is below 11 |
| WordGenetic.Crossover | app/utils/geneticAlgorithm.ts:76-94 | two draws; the child's words are parent1's before the point, parent2's from the point up to 11, then a random word |
| WordGenetic.CrossoverWords | app/utils/geneticAlgorithm.ts:76-94 | parents of at least 11 words give a 12-word child, word by word |
| WordGenetic.CrossoverKeepsPhrase | app/utils/geneticAlgorithm.ts:76-94 | crossover of two 12-word wordlist phrases is one |
| WordGenetic.WriteAt | app/utils/geneticAlgorithm.ts:103 | `words[i] = w` sets position i, keeps every other one, and fills a gap past the end with empty words |
| WordGenetic.Mutation | app/utils/geneticAlgorithm.ts:97-106 | above the rate the phrase comes back unchanged; otherwise only the word at a position below 11 is replaced, the word count is kept, the twelfth word is never touched, and a 12-word phrase stays one |
| WordGenetic.Mutate | app/utils/geneticAlgorithm.ts:97-106 | the in-place write `words[i] = w` followed by `join` gives the phrase and cursor of Mutation |
| WordGenetic.RandomPopulation | app/utils/geneticAlgorithm.ts:127-129 | `count` phrases, all 12-word wordlist phrases under a length-checking encoder |
| WordGenetic.PhraseDistance | app/utils/geneticAlgorithm.ts:136-139 | the distance used inside the loop is the phrase's distance to the target, never negative |
| WordGenetic.Distances | app/utils/geneticAlgorithm.ts:136-139 | one distance per phrase |
| WordGenetic.BredKeepsPhrase | app/utils/geneticAlgorithm.ts:169-172 | a child bred from 12-word wordlist phrases is one |
| WordGenetic.BreedOne | app/utils/geneticAlgorithm.ts:169-173 | one turn: the pushed child is the mutation of the crossover of two members of the population, and the stream moves on |
| WordGenetic.Breed | app/utils/geneticAlgorithm.ts:166-174 | exactly 100 phrases, opening with the elite; every later one is the mutation of the crossover of two members of the population; 12-word phrases breed 12-word phrases |
| WordGenetic.KeepBest | app/utils/geneticAlgorithm.ts:136-148 | the best so far is at least as close as every member of this generation, its distance never increases, and it is either kept or a member of this generation |
| WordGenetic.ReportsKeepBest | app/utils/geneticAlgorithm.ts:142-153 | every best is at least as close as every member of its own and every earlier generation, and the reported fitness never falls |
| WordGenetic.HistoryExtended | app/utils/geneticAlgorithm.ts:134-176 | one more generation with its report and a successor that opens with its elite and is otherwise bred from it extends the run's record |
| WordGenetic.HistoryKeepsBest | app/utils/geneticAlgorithm.ts:131-153 | over a recorded run, the best is never beaten by an earlier individual and fitness never falls |
| WordGenetic.Generation | app/utils/geneticAlgorithm.ts:136-174 | one generation: the report, a best no farther than before, and 100 next phrases opening with the 10 lowest-distance ones and followed by children bred from the generation |
| WordGenetic.Advance | app/utils/geneticAlgorithm.ts:134-180 | one turn of the generation loop keeps the record of the run |
| WordGenetic.SolveForMnemonic | app/utils/geneticAlgorithm.ts:122-183 | exactly 50 reports; the returned phrase is at least as close to the target as every phrase of every generation; fitness never falls; every generation has 100 phrases, opens with the previous elite and is otherwise bred from the previous generation |
| Fourier.FftSize | app/utils/fourierTransform.ts:26 | `2^ceil(log2 N)` is 0 for N = 0 and otherwise the power of two with N <= size < 2N |
| Fourier.ZeroPad | app/utils/fourierTransform.ts:33-42 | the padded signal has fftSize entries, the input parts first and zeros from N on |
| Fourier.Recombine | app/utils/fourierTransform.ts:58-66 | N coefficients, R[i] + i · I[i], that is re = R.re - I.im and im = R.im + I.re |
| Fourier.Transform | app/utils/fourierTransform.ts:19-71 | the complex transform keeps the number of points |
| Fourier.ComplexFFT | app/utils/fourierTransform.ts:19-71 | the padding and recombining loops compute the transform |
| Fourier.RelativeTo | app/utils/fourierTransform.ts:95-98 | each complex sample is the point minus the centre |
| Fourier.CenteredSumsToZero | app/utils/fourierTransform.ts:88-98 | centred on the arithmetic-mean centroid, the samples sum to zero in both parts |
| Fourier.EpicyclesOf | app/utils/fourierTransform.ts:110-129 | two epicycles per coefficient |
| Fourier.EpicyclesOfAt | app/utils/fourierTransform.ts:112-129 | coefficient i gives (-re/N, -2πi/N, π/2) then (-im/N, -2πi/N, 0) |
| Fourier.EmittedShape | app/utils/fourierTransform.ts:114-128 | every emitted phase is π/2 or 0, and epicycle j has the frequency of coefficient j/2 |
| Fourier.EmitEpicycles | app/utils/fourierTransform.ts:110-129 | the push loop emits exactly those epicycles |
| Fourier.PointsToEpicycles | app/utils/fourierTransform.ts:77-135 | no points give no epicycles; otherwise 2N epicycles, a permutation of the emitted list, non-increasing by |amplitude|, and that list stably sorted |
| Fourier.PositionAdditive | app/utils/fourierTransform.ts:140-151 | the empty set is at (0, 0), and the position is additive over concatenation |
| Fourier.PositionIgnoresSorting | app/utils/fourierTransform.ts:132-151 | sorting the epicycles does not move the position |
| Fourier.PositionSnoc | app/utils/fourierTransform.ts:144-148 | one more epicycle adds amplitude · (cos, sin)(frequency · t + phase) |
| Fourier.CalculatePosition | app/utils/fourierTransform.ts:140-151 | the accumulator loop computes the position |
| Fourier.SampleTime | app/utils/fourierTransform.ts:160 | every sample time lies in [0, 2π) |
| Fourier.SampleTimesIncrease | app/utils/fourierTransform.ts:160 | sample times strictly increase |
| Fourier.GeneratePath | app/utils/fourierTransform.ts:156-165 | exactly numPoints points, point i being the position at t = i / numPoints · 2π |
| SvgPath.PadIsolates | app/utils/svgPathParser.ts:14 | after padding, every command letter has whitespace or an end on each side |
| SvgPath.CommasKeepIsolation | app/utils/svgPathParser.ts:15 | commas become spaces; letters stay isolated and no comma is left |
| SvgPath.CollapseKeepsIsolation | app/utils/svgPathParser.ts:16 | collapsing whitespace runs keeps letters isolated and leaves the single space as the only whitespace |
| SvgPath.TrimKeepsIsolation | app/utils/svgPathParser.ts:17 | trimming keeps both properties |
| SvgPath.SplitGivesCleanTokens | app/utils/svgPathParser.ts:19 | splitting such a string on spaces gives tokens with no comma and no whitespace, in which a command letter is the whole token |
| SvgPath.TokensAreClean | app/utils/svgPathParser.ts:13-19 | every token of every path string has these properties |
| SvgPath.Plus | app/utils/svgPathParser.ts:33-34 | a number plus NaN is NaN, otherwise the sum |
| SvgPath.StepWith | app/utils/svgPathParser.ts:22-108 | every turn moves the cursor strictly forward, so the loop ends |
| SvgPath.RunBound | app/utils/svgPathParser.ts:22-109 | the loop never pushes more points than there are tokens left |
| SvgPath.OnlyCommandsDraw | app/utils/svgPathParser.ts:25-106 | a turn pushes a point exactly for M, L, H, V, C and S in either case; Z, z and unknown tokens move the cursor by one and leave the pen |
| SvgPath.AbsoluteIgnoresPen | app/utils/svgPathParser.ts:26-67 | M, L, C and S do not depend on the pen; H keeps y and V keeps x |
| SvgPath.RelativeIsShiftedAbsolute | app/utils/svgPathParser.ts:26-96 | a lowercase command is its uppercase counterpart read from the origin and shifted by the pen, over the same tokens |
| SvgPath.LeadingMoveIsAbsolute | app/utils/svgPathParser.ts:9-36 | with the pen starting at (0, 0), a leading `m x y` lands at (x, y) like `M x y` |
| SvgPath.AsWrittenMisreadsEndpoint | app/utils/svgPathParser.ts:70-96 | as written, a C/c or S/s segment yields the pair one token before its endpoint, and the cursor stops on the segment's last argument |
| SvgPath.CubicEndpointMisread | app/utils/svgPathParser.ts:70-75 | on `M 0 0 C 1 2 3 4 5 6` the reader pushes (4, 5) where the curve ends at (5, 6) |
| SvgPath.SmoothEndpointMisread | app/utils/svgPathParser.ts:84-89 | on `M 0 0 S 1 2 3 4` the reader pushes (2, 3) where the curve ends at (3, 4) |
| SvgPath.IntendedReadsEndpoint | app/utils/svgPathParser.ts:70-96 | read at offsets 5 and 3, the point is the segment's last argument pair and the cursor lands on the next command |
| SvgPath.ParseIntended | app/utils/svgPathParser.ts:7-112 | the corrected reader also pushes at most one point per token |
| SvgPath.Turn | app/utils/svgPathParser.ts:23-108 | the switch and `i++` compute one turn; the pushed point is the pen just after the command |
| SvgPath.Walk | app/utils/svgPathParser.ts:20-109 | the command loop computes the run from cursor 0 and pen (0, 0), with at most one point per token |
| SvgPath.ParseSVGPath | app/utils/svgPathParser.ts:7-112 | `parseSVGPath` is the run over the tokens of the normalised string, with no more points than tokens |

## Left out

- Console output, the `await setTimeout` yield and the optional `onProgress` callback are left out. Reports are returned as a sequence instead, because they have no effect on the computed values.
- The modules' `wordlists.english`, `fft.fft`, `entropyToMnemonic`, `Math.random`, `Math.sqrt`, `Math.cos`, `Math.sin` and `parseFloat` are parameters, and their code is not part of this model. π is the exact value of the double `Math.PI`, 884279719003555 / 2^48; the trigonometry that uses it is a parameter.
- Fourier.GeneratePath takes the point count as a `nat`. The default of 1000 points that `generatePath` applies when the argument is omitted is left to the caller. A negative count gives no points in the source and cannot be passed here. A fractional count makes the source take ⌈numPoints⌉ samples at t = i / numPoints · 2π, and the model does not cover it.
- Numbers are real numbers, not IEEE doubles: rounding error, overflow to Infinity and NaN from arithmetic are not modelled. The exception is the SVG reader, where NaN from `parseFloat` and from reading past the last token is modelled as a value that spreads through `+=`.
- `Math.log2`/`Math.pow` in `complexFFT` are modelled by their result, the next power of two (0 for no points).
- `Array.prototype.sort` is modelled on values as a stable insertion sort. The in-place update of `epicycles` and the copy made by `[...epicycles]` are not distinguished, since no caller sees the difference.
- Evolution.SelectParent: requires a non-empty population, because on an empty one the source returns `population[-1]`, which is `undefined`. Neither matcher calls it on an empty population.
- WordGenetic.MnemonicDistance: states only non-negativity on its own; its tie to the target is the lemma ExactPhraseHasDistanceZero.
- WordGenetic.GenerateRandomMnemonic: the promise that the result is a 12-word phrase holds only for an `entropyToMnemonic` that refuses entropy whose length BIP-39 forbids. Such an encoder always refuses the 11 bytes the source passes, so under the BIP-39 rule the try branch always throws and the fallback phrase is the result.
- The codec is not a round trip, and no lemma claims it is one; RowRoundTrip, ColumnRoundTrip and RoundTripExactIff state exactly what decoding recovers.
- FloatGenetic.Distance and WordGenetic.Distance: non-negative only for a square root that is non-negative and zero at zero (`NonNegativeRoot`), which is all the proofs need of `Math.sqrt`.
- SvgPath.ParseSVGPath models the reader as written, with the endpoint misread described under Findings. The corrected reader is ParseIntended. Nothing else in the modelled core consumes the points, so it is used by no other member.
- The tokeniser is proved correct in general, but no lemma evaluates it on a particular literal path string; the misread lemmas start from the token list.
- The UI components and their SVG normalisation are not part of this model.

## Findings

| source | as written | input that shows it | evidently intended | confidence | as-written member | corrected member |
|---|---|---|---|---|---|---|
| app/utils/svgPathParser.ts:70-96 | `C`/`c` advance 4 tokens and read the endpoint at offsets 4 and 5; `S`/`s` advance 2 and read offsets 2 and 3. That is the second control point's y with the endpoint's x, and the cursor then stops on the endpoint's y, which the next turn skips as an unknown token | tokens `M 0 0 C 1 2 3 4 5 6` push (4, 5); tokens `M 0 0 S 1 2 3 4` push (2, 3) | the endpoint, the segment's last two arguments: offsets 5 and 6 for `C`, 3 and 4 for `S`, giving (5, 6) and (3, 4), with the cursor on the next command | high; not executed | SvgPath.CubicEndpointMisread | SvgPath.IntendedReadsEndpoint |
