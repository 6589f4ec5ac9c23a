/** The BIP-39 English wordlist, seen only through its interface: an ordered list of
    2048 words that contain no space, looked up by position and by word. */
module Bip39 {

  const WORD_COUNT: nat := 2048

  /** What the application relies on of the list it imports: 2048 entries, none holding
      the space that separates the words of a phrase. */
  predicate IsWordlist(wordlist: seq<string>)
  {
    |wordlist| == WORD_COUNT && forall i :: 0 <= i < |wordlist| ==> ' ' !in wordlist[i]
  }

  /** No word appears twice (true of the real list; only needed for lookups to invert). */
  predicate Distinct(wordlist: seq<string>)
  {
    forall i, j :: 0 <= i < j < |wordlist| ==> wordlist[i] != wordlist[j]
  }

  /** `wordToIndex.get(word) ?? 0` where the map was filled by `wordList.forEach`:
      a later duplicate overwrites an earlier one, so this is the LAST position of `word`,
      and 0 for a word the list does not hold. */
  function IndexOf(wordlist: seq<string>, word: string): (index: nat)
    ensures |wordlist| > 0 ==> index < |wordlist|
    ensures word in wordlist ==> wordlist[index] == word && word !in wordlist[index + 1..]
    ensures word !in wordlist ==> index == 0
  {
    LastIndexBelow(wordlist, word, |wordlist|)
  }

  /** The last position below `n` that holds `word`, or 0 when there is none. */
  function LastIndexBelow(wordlist: seq<string>, word: string, n: nat): (index: nat)
    requires n <= |wordlist|
    ensures n > 0 ==> index < n
    ensures word in wordlist[..n] ==> wordlist[index] == word && word !in wordlist[index + 1..n]
    ensures word !in wordlist[..n] ==> index == 0
    decreases n
  {
    if n == 0 then 0
    else if wordlist[n - 1] == word then n - 1
    else
      assert wordlist[..n] == wordlist[..n - 1] + [wordlist[n - 1]];
      LastIndexBelow(wordlist, word, n - 1)
  }

  /** On a list without duplicates, looking up the word at position i gives back i. */
  lemma IndexOfWordAt(wordlist: seq<string>, i: nat)
    requires Distinct(wordlist) && i < |wordlist|
    ensures IndexOf(wordlist, wordlist[i]) == i
  {
  }
}
