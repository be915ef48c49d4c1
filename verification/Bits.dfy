/** 64-bit words, bit by bit. Every operation the schedule and its parser apply to a
    `uint64` is a bit operation, so a word is its 64 bits, least significant first.
    Shifting truncates: what moves to position 64 or beyond is lost. */
module Bits {
  const WIDTH: nat := 64
  const STAR_POSITION: nat := 63

  type Word = bits: seq<bool> | |bits| == 64 witness Fill(false, 64)

  const ZERO: Word := Fill(false, 64)
  const ONE: Word := [true] + Fill(false, 63)
  const MAX_WORD: Word := Fill(true, 64)
  const STAR_BIT: Word := Shl(ONE, STAR_POSITION)

  function Fill(b: bool, n: nat): (bits: seq<bool>)
    ensures |bits| == n && forall i | 0 <= i < n :: bits[i] == b
  {
    if n == 0 then [] else Fill(b, n - 1) + [b]
  }

  function Shl(w: Word, n: nat): Word {
    if n >= 64 then ZERO else Fill(false, n) + w[..64 - n]
  }

  function Or(a: Word, b: Word): Word {
    seq(64, i requires 0 <= i < 64 => a[i] || b[i])
  }

  function And(a: Word, b: Word): Word {
    seq(64, i requires 0 <= i < 64 => a[i] && b[i])
  }

  function Not(a: Word): Word {
    seq(64, i requires 0 <= i < 64 => !a[i])
  }

  /** spec.go:374-376: the mask test for one position. */
  predicate HasBit(w: Word, position: nat) {
    And(Shl(ONE, position), w) != ZERO
  }

  /** The mask test reads exactly the bit at `position`; there is no bit from 64 on. */
  lemma HasBitReads(w: Word, position: nat)
    ensures HasBit(w, position) <==> position < WIDTH && w[position]
  {
    var m := And(Shl(ONE, position), w);
    forall i | 0 <= i < 64 ensures m[i] <==> i == position && w[i] {}
    if position < WIDTH && w[position] {
      assert m[position];
    } else {
      assert m == ZERO;
    }
  }

  predicate Starred(w: Word) {
    And(w, STAR_BIT) != ZERO
  }

  lemma StarredIsBit63(w: Word)
    ensures Starred(w) <==> w[STAR_POSITION]
  {
    var m := And(w, STAR_BIT);
    forall i | 0 <= i < 64 ensures m[i] <==> i == 63 && w[i] {}
    if w[63] { assert m[63]; } else { assert m == ZERO; }
  }
}
