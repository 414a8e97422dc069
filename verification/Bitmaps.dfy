/** Bitmaps held in arrays of 32-bit words, as sets of bit numbers. */
module Bitmaps {
  import opened Bits

  const WORD: nat := 32

  predicate BitAt(words: seq<nat>, i: nat) {
    i / WORD < |words| && Bit(words[i / WORD], i % WORD)
  }

  function BitsOf(words: seq<nat>): set<nat> {
    set i | 0 <= i < WORD * |words| && BitAt(words, i)
  }

  lemma PlaceIsIndex(i: nat, j: nat)
    ensures i / WORD == j / WORD && i % WORD == j % WORD ==> i == j
  {}

  lemma UpdateBit(words: seq<nat>, i: nat, on: bool)
    requires i < WORD * |words|
    ensures BitsOf(words[i / WORD := WithBit(words[i / WORD], i % WORD, on)])
         == if on then BitsOf(words) + {i} else BitsOf(words) - {i}
  {
    var words' := words[i / WORD := WithBit(words[i / WORD], i % WORD, on)];
    forall j | 0 <= j < WORD * |words| ensures BitAt(words', j) == if j == i then on else BitAt(words, j) {
      PlaceIsIndex(i, j);
      BitOfWithBit(words[i / WORD], i % WORD, on, j % WORD);
    }
  }

  /** The bit numbers a word `w` stands for at place `n`. */
  function WordBits(n: nat, w: nat): set<nat> {
    set i | n * WORD <= i < n * WORD + WORD && HasBit(w, n, i)
  }

  predicate HasBit(w: nat, n: nat, i: nat) {
    n * WORD <= i && Bit(w, i - n * WORD)
  }

  /** Replacing a whole word replaces the 32 bits it holds. */
  lemma UpdateWord(words: seq<nat>, n: nat, w: nat)
    requires n < |words|
    ensures BitsOf(words[n := w]) == (set i | i in BitsOf(words) && i / WORD != n) + WordBits(n, w)
  {
    forall i | 0 <= i < WORD * |words|
      ensures BitAt(words[n := w], i) == if i / WORD == n then i in WordBits(n, w) else BitAt(words, i)
    {}
  }
}
