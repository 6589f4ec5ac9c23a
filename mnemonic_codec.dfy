/** The quantisation codec of app/utils/mnemonicToEpicycles.ts. A word's BIP-39 index is
    cut into a 32 x 64 grid cell (row = index div 64, column = index mod 64); the row sets
    the phase, the column the amplitude, and the word's position in the phrase the
    frequency. Decoding rounds phase and amplitude back onto the grid and clamps.
    Decoding scales by 31 and 63 where encoding divided by 32 and 64, so the two are not
    inverse; DecodeEncode states exactly what comes back. */
module MnemonicCodec {
  import opened Js
  import opened Bip39
  import opened Sorting
  import opened Fourier

  const ROWS: nat := 32
  const COLS: nat := 64

  /** `(Math.floor(index / COLS), index % COLS)`: the grid cell of a word index. */
  function Cell(index: nat): (cell: (nat, nat))
    ensures cell.0 * COLS + cell.1 == index
    ensures cell.1 < COLS
    ensures index < WORD_COUNT ==> cell.0 < ROWS
  {
    (index / COLS, index % COLS)
  }

  /** `(row / ROWS) * 2 * Math.PI`. */
  function GridPhase(row: nat): (phase: real)
    ensures row < ROWS ==> 0.0 <= phase < 2.0 * PI
  {
    (row as real / ROWS as real) * 2.0 * PI
  }

  /** `0.1 + (col / COLS) * 0.9`. */
  function GridAmplitude(col: nat): (amplitude: real)
    ensures col < COLS ==> 0.1 <= amplitude < 1.0
  {
    0.1 + (col as real / COLS as real) * 0.9
  }

  /** The epicycle of the word with index `index` at position k of an n-word phrase. */
  function EncodeIndex(index: nat, k: nat, n: nat): (e: Epicycle)
    requires n > 0
    ensures index < WORD_COUNT ==> 0.1 <= e.amplitude < 1.0 && 0.0 <= e.phase < 2.0 * PI
    ensures e.frequency == Frequency(k, n)
  {
    var cell := Cell(index);
    Epicycle(GridAmplitude(cell.1), Frequency(k, n), GridPhase(cell.0))
  }

  /** The frequency `-2 pi k / n` strictly falls as the position k grows. */
  lemma FrequencyDecreasing(j: nat, k: nat, n: nat)
    requires j < k && n > 0
    ensures Frequency(j, n) > Frequency(k, n)
  {
    var m := n as real;
    assert Frequency(j, n) - Frequency(k, n) == 2.0 * PI * (k - j) as real / m;
  }

  /** `mnemonicToEpicycles`: one epicycle per piece of `mnemonic.split(' ')`, each from the
      word's index, 0 for a word the list does not hold. */
  function MnemonicToEpicycles(mnemonic: string, wordlist: seq<string>): (es: seq<Epicycle>)
    ensures |es| == Occurrences(mnemonic, ' ') + 1
    ensures forall k :: 0 <= k < |es| ==>
      es[k] == EncodeIndex(IndexOf(wordlist, Split(mnemonic, ' ')[k]), k, |es|)
    ensures forall k :: 0 <= k < |es| ==> es[k].frequency == Frequency(k, |es|)
    ensures forall k :: 0 <= k < |es| && Split(mnemonic, ' ')[k] !in wordlist ==>
      es[k] == EncodeIndex(0, k, |es|)
    ensures IsWordlist(wordlist) ==> forall k :: 0 <= k < |es| ==>
      0.1 <= es[k].amplitude < 1.0 && 0.0 <= es[k].phase < 2.0 * PI
  {
    var words := Split(mnemonic, ' ');
    seq(|words|, k requires 0 <= k < |words| => EncodeIndex(IndexOf(wordlist, words[k]), k, |words|))
  }

  function FrequencyOf(e: Epicycle): real
  {
    e.frequency
  }

  /** The epicycles of a phrase come out in order of strictly falling frequency. */
  lemma EncodedFrequenciesFall(mnemonic: string, wordlist: seq<string>)
    ensures SortedDescending(MnemonicToEpicycles(mnemonic, wordlist), FrequencyOf)
  {
    var es := MnemonicToEpicycles(mnemonic, wordlist);
    var n := |es|;
    assert forall k :: 0 <= k < n ==> FrequencyOf(es[k]) == Frequency(k, n);
    forall i, j | 0 <= i < j < n
      ensures FrequencyOf(es[i]) >= FrequencyOf(es[j])
    {
      FrequencyDecreasing(i, j, n);
    }
  }

  /** Sorting a phrase's epicycles by falling frequency leaves them as they are. */
  lemma EncodedNeedsNoSorting(mnemonic: string, wordlist: seq<string>)
    ensures SortDescending(MnemonicToEpicycles(mnemonic, wordlist), FrequencyOf) == MnemonicToEpicycles(mnemonic, wordlist)
  {
    EncodedFrequenciesFall(mnemonic, wordlist);
    SortOfSorted(MnemonicToEpicycles(mnemonic, wordlist), FrequencyOf);
  }

  // ---------------------------------------------------------------- decoding

  /** `((phase % (2 * Math.PI)) + 2 * Math.PI) % (2 * Math.PI)`: into [0, 2 pi), leaving
      values already there alone. */
  function NormalizePhase(phase: real): (p: real)
    ensures 0.0 <= p < 2.0 * PI
    ensures 0.0 <= phase < 2.0 * PI ==> p == phase
  {
    var once := Rem(phase, 2.0 * PI);
    RemTwoPiBounds(phase);
    RemTwoPiBounds(once + 2.0 * PI);
    assert 0.0 <= phase < 2.0 * PI ==> once == phase by {
      if 0.0 <= phase < 2.0 * PI {
        RemTwoPiOfReduced(phase);
      }
    }
    Rem(once + 2.0 * PI, 2.0 * PI)
  }

  /** The row read back from a phase: `Math.round((normalizedPhase / (2 * Math.PI)) * (ROWS - 1))`. */
  function DecodeRow(phase: real): (row: nat)
    ensures row < ROWS
  {
    Round((NormalizePhase(phase) / (2.0 * PI)) * (ROWS - 1) as real)
  }

  /** The column read back from an amplitude clamped into [0.1, 1]:
      `Math.round(((normalizedAmplitude - 0.1) / 0.9) * (COLS - 1))`. */
  function DecodeColumn(amplitude: real): (col: nat)
    ensures col < COLS
  {
    Round(((Clamp(0.1, 1.0, amplitude) - 0.1) / 0.9) * (COLS - 1) as real)
  }

  /** `epicycleToWordIndex`: the grid cell read back from phase and amplitude, clamped to
      [0, 2047]. The position `k` it derives from the frequency is never used. */
  function EpicycleToWordIndex(e: Epicycle, totalWords: real): (index: nat)
    ensures index < WORD_COUNT
  {
    var k := Round((-e.frequency * totalWords) / (2.0 * PI));
    var index := DecodeRow(e.phase) * COLS + DecodeColumn(e.amplitude);
    ClampInt(0, WORD_COUNT - 1, index)
  }

  /** The closing clamp never changes anything: row and column already lie inside the grid. */
  lemma ClampIsNoOp(e: Epicycle, totalWords: real)
    ensures EpicycleToWordIndex(e, totalWords) == DecodeRow(e.phase) * COLS + DecodeColumn(e.amplitude)
  {
  }

  /** The decoded index depends on phase and amplitude only, never on the frequency or on
      the word count. */
  lemma DecodeIgnoresFrequency(e: Epicycle, frequency: real, totalWords: real, otherTotal: real)
    ensures EpicycleToWordIndex(e, totalWords) == EpicycleToWordIndex(e.(frequency := frequency), otherTotal)
  {
  }

  /** What decoding makes of a grid coordinate c of an axis of `size` cells:
      `Math.round(c * (size - 1) / size)`, which is c up to the middle of the axis and
      c - 1 beyond it. */
  function Degrade(c: nat, size: nat): nat
    requires c < size
  {
    if 2 * c <= size then c else c - 1
  }

  /** Where c / size sits against one half and one. */
  lemma QuotientBounds(c: nat, size: nat)
    requires 0 < size && c < size
    ensures (c as real / size as real) * size as real == c as real
    ensures 2 * c <= size ==> 0.0 <= c as real / size as real <= 0.5
    ensures 2 * c > size ==> 0.5 < c as real / size as real < 1.0
  {
    var s := size as real;
    var q := c as real / s;
    assert q * s == c as real;
    var half := q - 0.5;
    var one := q - 1.0;
    assert half * s == c as real - 0.5 * s;
    assert one * s == c as real - s;
    SignOfProduct(q, s);
    SignOfProduct(half, s);
    SignOfProduct(one, s);
    if 2 * c <= size {
      assert half * s <= 0.0;
    } else {
      assert half * s > 0.0;
    }
  }

  /** With a positive factor, a product has the sign of the other factor. */
  lemma SignOfProduct(a: real, b: real)
    requires b > 0.0
    ensures a * b > 0.0 <==> a > 0.0
    ensures a * b >= 0.0 <==> a >= 0.0
  {
    if a > 0.0 { assert a * b > 0.0; }
    if a < 0.0 { assert (-a) * b > 0.0; }
  }

  lemma RoundScaled(c: nat, size: nat)
    requires 0 < size && c < size
    ensures Round((c as real / size as real) * (size - 1) as real) == Degrade(c, size)
  {
    var s := size as real;
    var q := c as real / s;
    QuotientBounds(c, size);
    var x := q * (size - 1) as real;
    assert x == q * s - q;
    var n := Round(x);
  }

  /** A row encoded as a phase reads back as its degraded value. */
  lemma RowRoundTrip(row: nat)
    requires row < ROWS
    ensures DecodeRow(GridPhase(row)) == Degrade(row, ROWS)
  {
    var phase := GridPhase(row);
    var q := row as real / ROWS as real;
    assert DecodeRow(phase) == Round((phase / (2.0 * PI)) * 31.0) by {
      assert NormalizePhase(phase) == phase;
      assert (ROWS - 1) as real == 31.0;
    }
    assert phase / (2.0 * PI) == q by {
      assert phase == q * (2.0 * PI);
    }
    RoundScaled(row, ROWS);
    assert (ROWS - 1) as real == 31.0;
  }

  /** A column encoded as an amplitude reads back as its degraded value. */
  lemma ColumnRoundTrip(col: nat)
    requires col < COLS
    ensures DecodeColumn(GridAmplitude(col)) == Degrade(col, COLS)
  {
    var amplitude := GridAmplitude(col);
    assert Clamp(0.1, 1.0, amplitude) == amplitude;
    assert (amplitude - 0.1) / 0.9 == col as real / COLS as real;
    RoundScaled(col, COLS);
  }

  /** Decoding an encoded word gives back the grid cell with each coordinate past the middle
      of its axis lowered by one: rows above 16 and columns above 32 do not survive. */
  lemma DecodeEncode(index: nat, k: nat, n: nat, totalWords: real)
    requires index < WORD_COUNT && n > 0
    ensures EpicycleToWordIndex(EncodeIndex(index, k, n), totalWords)
      == Degrade(Cell(index).0, ROWS) * COLS + Degrade(Cell(index).1, COLS)
  {
    var cell := Cell(index);
    RowRoundTrip(cell.0);
    ColumnRoundTrip(cell.1);
    ClampIsNoOp(EncodeIndex(index, k, n), totalWords);
  }

  /** A word survives encoding and decoding exactly when its grid cell lies in the lower half
      of both axes (row at most 16, column at most 32). */
  lemma RoundTripExactIff(index: nat, k: nat, n: nat, totalWords: real)
    requires index < WORD_COUNT && n > 0
    ensures EpicycleToWordIndex(EncodeIndex(index, k, n), totalWords) == index
      <==> Cell(index).0 <= 16 && Cell(index).1 <= 32
  {
    DecodeEncode(index, k, n, totalWords);
  }

  // ---------------------------------------------------------------- phrase from epicycles

  /** The words `epicyclesToMnemonic` joins: the first twelve epicycles in order of falling
      frequency, each decoded to a word of the list. */
  function DecodedWords(epicycles: seq<Epicycle>, wordlist: seq<string>): (words: seq<string>)
    requires IsWordlist(wordlist)
    ensures |words| == MinNat(12, |epicycles|)
    ensures forall j :: 0 <= j < |words| ==>
      words[j] == wordlist[EpicycleToWordIndex(SortDescending(epicycles, FrequencyOf)[j], 12.0)]
    ensures forall j :: 0 <= j < |words| ==> words[j] in wordlist && ' ' !in words[j]
  {
    var top := Slice(SortDescending(epicycles, FrequencyOf), 0, 12);
    seq(|top|, j requires 0 <= j < |top| => wordlist[EpicycleToWordIndex(top[j], 12.0)])
  }

  /** `epicyclesToMnemonic`: the decoded words joined by single spaces; an empty input gives
      the empty string, and otherwise splitting the phrase again gives back the words. */
  function EpicyclesToMnemonic(epicycles: seq<Epicycle>, wordlist: seq<string>): (mnemonic: string)
    requires IsWordlist(wordlist)
    ensures epicycles == [] ==> mnemonic == ""
    ensures epicycles != [] ==> Split(mnemonic, ' ') == DecodedWords(epicycles, wordlist)
  {
    var words := DecodedWords(epicycles, wordlist);
    assert words != [] ==> Split(Join(words, ' '), ' ') == words by {
      if words != [] {
        SplitJoin(words, ' ');
      }
    }
    Join(words, ' ')
  }

  /** The j-th decoded word, for an input already in order of falling frequency. */
  lemma DecodedWordsAt(epicycles: seq<Epicycle>, wordlist: seq<string>, j: nat)
    requires IsWordlist(wordlist) && j < MinNat(12, |epicycles|)
    requires SortDescending(epicycles, FrequencyOf) == epicycles
    ensures DecodedWords(epicycles, wordlist)[j] == wordlist[EpicycleToWordIndex(epicycles[j], 12.0)]
  {
  }

  /** The epicycles of a phrase need no reordering, so the j-th decoded word is the
      decoding of the j-th epicycle. */
  lemma DecodedWordsInPhraseOrder(mnemonic: string, wordlist: seq<string>, j: nat)
    requires IsWordlist(wordlist)
    requires j < MinNat(12, Occurrences(mnemonic, ' ') + 1)
    ensures DecodedWords(MnemonicToEpicycles(mnemonic, wordlist), wordlist)[j]
      == wordlist[EpicycleToWordIndex(MnemonicToEpicycles(mnemonic, wordlist)[j], 12.0)]
  {
    var es := MnemonicToEpicycles(mnemonic, wordlist);
    EncodedNeedsNoSorting(mnemonic, wordlist);
    DecodedWordsAt(es, wordlist, j);
  }

  /** Encoding a phrase and decoding it again keeps the word order (the frequencies are
      already sorted) and returns, at each of the first twelve positions, the word of the
      degraded grid cell of the original word's index. */
  lemma PhraseRoundTrip(mnemonic: string, wordlist: seq<string>, j: nat)
    requires IsWordlist(wordlist)
    requires j < MinNat(12, Occurrences(mnemonic, ' ') + 1)
    ensures Split(EpicyclesToMnemonic(MnemonicToEpicycles(mnemonic, wordlist), wordlist), ' ')[j]
      == wordlist[Degrade(Cell(IndexOf(wordlist, Split(mnemonic, ' ')[j])).0, ROWS) * COLS
                  + Degrade(Cell(IndexOf(wordlist, Split(mnemonic, ' ')[j])).1, COLS)]
  {
    var es := MnemonicToEpicycles(mnemonic, wordlist);
    var index := IndexOf(wordlist, Split(mnemonic, ' ')[j]);
    assert j < MinNat(12, |es|) && index < WORD_COUNT && es[j] == EncodeIndex(index, j, |es|)
      && SortDescending(es, FrequencyOf) == es by {
      EncodedNeedsNoSorting(mnemonic, wordlist);
    }
    DecodedWordOfCell(es, wordlist, j, index);
    assert Split(EpicyclesToMnemonic(es, wordlist), ' ')[j]
      == wordlist[Degrade(Cell(index).0, ROWS) * COLS + Degrade(Cell(index).1, COLS)];
  }

  /** In epicycles already in decoding order whose j-th one encodes `index`, the j-th word of
      the decoded phrase is the word of the degraded cell of `index`. */
  lemma DecodedWordOfCell(es: seq<Epicycle>, wordlist: seq<string>, j: nat, index: nat)
    requires IsWordlist(wordlist) && j < MinNat(12, |es|) && index < WORD_COUNT
    requires SortDescending(es, FrequencyOf) == es
    requires es[j] == EncodeIndex(index, j, |es|)
    ensures Split(EpicyclesToMnemonic(es, wordlist), ' ')[j]
      == wordlist[Degrade(Cell(index).0, ROWS) * COLS + Degrade(Cell(index).1, COLS)]
  {
    assert Split(EpicyclesToMnemonic(es, wordlist), ' ') == DecodedWords(es, wordlist);
    DecodedWordsAt(es, wordlist, j);
    DecodeEncode(index, j, |es|, 12.0);
  }
}
