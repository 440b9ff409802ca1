/**
  Bits of machine words and of word arrays, as the `bit_field` crate reads and writes them: a
  word is a number below 2^64, bit 0 the least significant.
*/
module Bits {

  const WORD_BITS: nat := 64
  const WORD_MAX: nat := 0xFFFF_FFFF_FFFF_FFFF

  type Word = w: nat | w <= WORD_MAX

  function Bit(w: nat, i: nat): bool
    decreases i
  {
    if i == 0 then w % 2 == 1 else Bit(w / 2, i - 1)
  }

  function SetBit(w: nat, i: nat, b: bool): nat
    decreases i
  {
    if i == 0 then w / 2 * 2 + (if b then 1 else 0)
    else SetBit(w / 2, i - 1, b) * 2 + w % 2
  }

  /** The greatest number of `n` bits. */
  function Ones(n: nat): nat {
    if n == 0 then 0 else Ones(n - 1) * 2 + 1
  }

  lemma OnesOfWord()
    ensures Ones(64) == WORD_MAX
  {
    assert Ones(8) == 0xFF;
    assert Ones(16) == 0xFFFF;
    OnesStep(16);
    OnesStep(24);
    OnesStep(32);
    OnesStep(40);
    OnesStep(48);
    OnesStep(56);
  }

  lemma OnesStep(n: nat)
    ensures Ones(n + 8) == Ones(n) * 256 + 255
  {
    assert Ones(n + 1) == Ones(n) * 2 + 1;
    assert Ones(n + 2) == Ones(n + 1) * 2 + 1;
    assert Ones(n + 3) == Ones(n + 2) * 2 + 1;
    assert Ones(n + 4) == Ones(n + 3) * 2 + 1;
    assert Ones(n + 5) == Ones(n + 4) * 2 + 1;
    assert Ones(n + 6) == Ones(n + 5) * 2 + 1;
    assert Ones(n + 7) == Ones(n + 6) * 2 + 1;
  }

  lemma {:induction false} SetBitGet(w: nat, i: nat, b: bool, j: nat)
    ensures Bit(SetBit(w, i, b), j) == if i == j then b else Bit(w, j)
    decreases i
  {
    var v := SetBit(w, i, b);
    if i == 0 {
      assert v / 2 == w / 2;
    } else {
      assert v / 2 == SetBit(w / 2, i - 1, b) && v % 2 == w % 2;
      if j > 0 {
        SetBitGet(w / 2, i - 1, b, j - 1);
      }
    }
  }

  lemma {:induction false} SetBitBound(w: nat, i: nat, b: bool, n: nat)
    requires i < n && w <= Ones(n)
    ensures SetBit(w, i, b) <= Ones(n)
    decreases i
  {
    if i > 0 {
      SetBitBound(w / 2, i - 1, b, n - 1);
    }
  }

  lemma {:induction false} OnesBits(n: nat, i: nat)
    requires i < n
    ensures Bit(Ones(n), i)
  {
    assert Ones(n) / 2 == Ones(n - 1);
    if i > 0 {
      OnesBits(n - 1, i - 1);
    }
  }

  lemma {:induction false} ZeroBits(i: nat)
    ensures !Bit(0, i)
  {
    if i > 0 {
      ZeroBits(i - 1);
    }
  }

  lemma {:induction false} NotOnes(w: nat, n: nat) returns (i: nat)
    requires w < Ones(n)
    ensures i < n && !Bit(w, i)
  {
    if w % 2 == 0 {
      i := 0;
    } else {
      var j := NotOnes(w / 2, n - 1);
      i := j + 1;
    }
  }

  function WordSetBit(w: Word, i: nat, b: bool): (r: Word)
    requires i < WORD_BITS
    ensures forall j :: 0 <= j < WORD_BITS ==> (Bit(r, j) <==> if i == j then b else Bit(w, j))
  {
    OnesOfWord();
    SetBitBound(w, i, b, WORD_BITS);
    assert forall j :: 0 <= j < WORD_BITS ==> (Bit(SetBit(w, i, b), j) <==> if i == j then b else Bit(w, j)) by {
      forall j | 0 <= j < WORD_BITS
        ensures Bit(SetBit(w, i, b), j) <==> if i == j then b else Bit(w, j)
      {
        SetBitGet(w, i, b, j);
      }
    }
    SetBit(w, i, b)
  }

  /** A word is the greatest one exactly when every bit is set. */
  lemma FullWord(w: Word)
    ensures w == WORD_MAX <==> forall i :: 0 <= i < WORD_BITS ==> Bit(w, i)
  {
    OnesOfWord();
    if w == WORD_MAX {
      forall i | 0 <= i < WORD_BITS ensures Bit(w, i) {
        OnesBits(WORD_BITS, i);
      }
    } else {
      var k := NotOnes(w, WORD_BITS);
      assert !Bit(w, k);
    }
  }

  /* ---------- Word arrays ---------- */

  function Get(ws: seq<Word>, i: nat): bool
    requires i < |ws| * WORD_BITS
  {
    Bit(ws[i / WORD_BITS], i % WORD_BITS)
  }

  function Set(ws: seq<Word>, i: nat, b: bool): (r: seq<Word>)
    requires i < |ws| * WORD_BITS
    ensures |r| == |ws|
    ensures forall j :: 0 <= j < |ws| * WORD_BITS ==> (Get(r, j) <==> if i == j then b else Get(ws, j))
  {
    ws[i / WORD_BITS := WordSetBit(ws[i / WORD_BITS], i % WORD_BITS, b)]
  }

  /** The number of clear bits below `n`. */
  function CountClear(ws: seq<Word>, n: nat): (c: nat)
    requires n <= |ws| * WORD_BITS
    ensures c <= n
  {
    if n == 0 then 0 else CountClear(ws, n - 1) + (if Get(ws, n - 1) then 0 else 1)
  }

  lemma {:induction false} CountAllClear(ws: seq<Word>, lo: nat, hi: nat)
    requires lo <= hi <= |ws| * WORD_BITS
    requires forall i :: lo <= i < hi ==> !Get(ws, i)
    ensures CountClear(ws, hi) == CountClear(ws, lo) + (hi - lo)
    decreases hi
  {
    if lo < hi {
      CountAllClear(ws, lo, hi - 1);
    }
  }

  lemma {:induction false} CountAllSet(ws: seq<Word>, lo: nat, hi: nat)
    requires lo <= hi <= |ws| * WORD_BITS
    requires forall i :: lo <= i < hi ==> Get(ws, i)
    ensures CountClear(ws, hi) == CountClear(ws, lo)
    decreases hi
  {
    if lo < hi {
      CountAllSet(ws, lo, hi - 1);
    }
  }

  lemma {:induction false} CountMonotone(ws: seq<Word>, lo: nat, hi: nat)
    requires lo <= hi <= |ws| * WORD_BITS
    ensures CountClear(ws, lo) <= CountClear(ws, hi)
    decreases hi
  {
    if lo < hi {
      CountMonotone(ws, lo, hi - 1);
    }
  }

  /** Reading the array through one of its words. */
  lemma WordView(ws: seq<Word>, k: nat, i: nat)
    requires k < |ws| && i < WORD_BITS
    ensures k * WORD_BITS + i < |ws| * WORD_BITS
    ensures Get(ws, k * WORD_BITS + i) == Bit(ws[k], i)
  {
    assert (k * WORD_BITS + i) / WORD_BITS == k;
  }
}
