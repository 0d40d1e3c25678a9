/** Bits of 32-bit words, as the block bitmap has them (fs/fs.c, tools/fsformat.c).  A word
    is the natural number it stands for, below 2^32, taken apart binary digit by digit. */
module Bitmap {
  import opened Common

  /** `w & (1 << i)`. */
  predicate Digit(w: nat, i: nat) {
    if i == 0 then w % 2 == 1 else Digit(w / 2, i - 1)
  }

  /** `w | (1 << i)`. */
  function SetDigit(w: nat, i: nat): nat {
    if i == 0 then w / 2 * 2 + 1 else SetDigit(w / 2, i - 1) * 2 + w % 2
  }

  /** `w & ~(1 << i)`. */
  function ClearDigit(w: nat, i: nat): nat {
    if i == 0 then w / 2 * 2 else ClearDigit(w / 2, i - 1) * 2 + w % 2
  }

  /** Setting or clearing one digit changes no other, and a word stays a word. */
  lemma {:induction false} DigitAfter(w: nat, i: nat, j: nat)
    ensures Digit(SetDigit(w, i), j) <==> (i == j || Digit(w, j))
    ensures Digit(ClearDigit(w, i), j) <==> (i != j && Digit(w, j))
    decreases i
  {
    Appended(w / 2, w % 2);
    if i == 0 {
      Appended(w / 2, 0);
      Appended(w / 2, 1);
    } else {
      Appended(SetDigit(w / 2, i - 1), w % 2);
      Appended(ClearDigit(w / 2, i - 1), w % 2);
      if j > 0 { DigitAfter(w / 2, i - 1, j - 1); }
    }
  }

  lemma Appended(w: nat, d: nat)
    requires d < 2
    ensures (w * 2 + d) / 2 == w && (w * 2 + d) % 2 == d
  {
  }

  lemma {:induction false} DigitFits(w: nat, i: nat, n: nat)
    requires i < n && w < Pow2(n)
    ensures SetDigit(w, i) < Pow2(n) && ClearDigit(w, i) <= w
    decreases n
  {
    HalfFits(w, Pow2(n - 1));
    if i > 0 { DigitFits(w / 2, i - 1, n - 1); }
  }

  lemma HalfFits(w: nat, p: nat)
    ensures w < 2 * p <==> w / 2 < p
    ensures w == w / 2 * 2 + w % 2
  {
  }

  /** All digits of 0xffffffff are set. */
  lemma {:induction false} AllDigits(i: nat, n: nat)
    requires i < n
    ensures Digit(Pow2(n) - 1, i)
    decreases n
  {
    if i > 0 { AllDigits(i - 1, n - 1); }
  }

  // ---- The bitmap, an array of words ------------------------------------------------------

  predicate Bit(words: seq<nat>, b: nat)
    requires b / WORD_BITS < |words|
  {
    Digit(words[b / WORD_BITS], b % WORD_BITS)
  }

  /** `words[b / 32] |= 1 << (b % 32)`. */
  function Set(words: seq<nat>, b: nat): seq<nat>
    requires b / WORD_BITS < |words|
  {
    words[b / WORD_BITS := SetDigit(words[b / WORD_BITS], b % WORD_BITS)]
  }

  /** `words[b / 32] &= ~(1 << (b % 32))`. */
  function Clear(words: seq<nat>, b: nat): seq<nat>
    requires b / WORD_BITS < |words|
  {
    words[b / WORD_BITS := ClearDigit(words[b / WORD_BITS], b % WORD_BITS)]
  }

  lemma BitAfter(words: seq<nat>, b: nat, c: nat)
    requires b / WORD_BITS < |words| && c / WORD_BITS < |words|
    ensures Bit(Set(words, b), c) <==> (c == b || Bit(words, c))
    ensures Bit(Clear(words, b), c) <==> (c != b && Bit(words, c))
  {
    DigitAfter(words[b / WORD_BITS], b % WORD_BITS, c % WORD_BITS);
  }
}
