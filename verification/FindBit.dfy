/** `lib/find_bit.c`: searching a bitmap word by word. A word is its 32 bits, least significant
    first; the bitwise operators work bit by bit. */
module FindBit {

  const BITS: nat := 32

  type Word = w: seq<bool> | |w| == 32 witness seq(32, _ => false)

  const ZERO: Word := seq(32, _ => false)

  function Bit(map_: seq<Word>, i: nat): bool
    requires i / 32 < |map_|
  {
    map_[i / 32][i % 32]
  }

  /** `__set_bit` and `__clear_bit`. */
  function Put(map_: seq<Word>, i: nat, v: bool): (r: seq<Word>)
    requires i / 32 < |map_|
    ensures |r| == |map_|
  {
    map_[i / 32 := map_[i / 32][i % 32 := v]]
  }

  lemma {:induction false} PutBit(map_: seq<Word>, i: nat, v: bool, j: nat)
    requires i / 32 < |map_| && j / 32 < |map_|
    ensures Bit(Put(map_, i, v), j) == if i == j then v else Bit(map_, j)
  {
    assert i == 32 * (i / 32) + i % 32 && j == 32 * (j / 32) + j % 32;
  }

  predicate Any(w: Word) {
    exists b :: 0 <= b < 32 && w[b]
  }

  predicate All(w: Word) {
    forall b :: 0 <= b < 32 ==> w[b]
  }

  /** `w ^ invert`, `invert` being all zeros or all ones. */
  function Xor(w: Word, invert: bool): Word {
    seq(32, b requires 0 <= b < 32 => w[b] != invert)
  }

  /** `w & BITMAP_FIRST_WORD_MASK(start)`. */
  function From(w: Word, start: nat): Word {
    seq(32, b requires 0 <= b < 32 => w[b] && b >= start % 32)
  }

  /** `__ffs`. */
  method FirstSet(w: Word) returns (b: nat)
    requires Any(w)
    ensures b < 32 && w[b] && forall c :: 0 <= c < b ==> !w[c]
  {
    b := 0;
    while !w[b]
      invariant b < 32 && forall c :: 0 <= c < b ==> !w[c]
      decreases 32 - b
    {
      assert exists c :: 0 <= c < 32 && w[c];
      b := b + 1;
    }
  }

  /** No bit of `from..to` differs from `invert`. */
  ghost predicate Clear(map_: seq<Word>, invert: bool, from: nat, to: nat) {
    forall j: nat :: from <= j < to && j / 32 < |map_| ==> Bit(map_, j) == invert
  }

  /** `tmp` marks the bits wanted in the word at `base`. */
  ghost predicate Candidates(map_: seq<Word>, invert: bool, start: nat, base: nat, tmp: Word) {
    true == (base % 32 == 0 && base / 32 < |map_|
    && forall b :: 0 <= b < 32 ==> (tmp[b] <==> base + b >= start && map_[base / 32][b] != invert))
  }

  lemma {:induction false} BitAt(map_: seq<Word>, base: nat, j: nat)
    requires base % 32 == 0 && base / 32 < |map_| && base <= j < base + 32
    ensures j / 32 == base / 32 && Bit(map_, j) == map_[base / 32][j - base]
  {}

  /** The bits before the first candidate are not wanted. */
  lemma {:induction false} ClearUpTo(map_: seq<Word>, invert: bool, start: nat, base: nat, tmp: Word, b: nat)
    requires Candidates(map_, invert, start, base, tmp) && Clear(map_, invert, start, base) && b <= 32
    requires forall c :: 0 <= c < b ==> !tmp[c]
    ensures Clear(map_, invert, start, base + b)
  {
    forall j: nat | start <= j < base + b && j / 32 < |map_|
      ensures Bit(map_, j) == invert
    {
      if j >= base {
        BitAt(map_, base, j);
        assert !tmp[j - base];
      }
    }
  }

  /** `_find_next_bit` on one bitmap: the least index from `start` on whose bit is not `invert`,
      or `nbits`. */
  method FindNext(map_: seq<Word>, nbits: nat, start: nat, invert: bool) returns (r: nat)
    requires nbits <= 32 * |map_|
    ensures r <= nbits && (r < nbits ==> start <= r && Bit(map_, r) != invert)
    ensures Clear(map_, invert, start, r)
  {
    if start >= nbits {
      return nbits;
    }
    var tmp := From(Xor(map_[start / 32], invert), start);
    var base := start / 32 * 32;
    while !Any(tmp)
      invariant base < nbits && Candidates(map_, invert, start, base, tmp) && Clear(map_, invert, start, base)
      decreases nbits - base
    {
      ClearUpTo(map_, invert, start, base, tmp, 32);
      base := base + 32;
      if base >= nbits {
        r := nbits;
        return;
      }
      tmp := Xor(map_[base / 32], invert);
    }
    var b := FirstSet(tmp);
    ClearUpTo(map_, invert, start, base, tmp, b);
    BitAt(map_, base, base + b);
    r := if base + b < nbits then base + b else nbits;
  }
}
