/** `sort_r` of `lib/sort.c`: bottom-up heapsort on a buffer of bytes, in byte offsets. */
module Sort {

  import opened HeapOrder
  import opened Machine

  newtype Byte = x: int | 0 <= x < 256

  // ---------------------------------------------------------------- the arithmetic of `parent`

  /** Bitwise and. */
  function And(x: nat, y: nat): nat {
    if x == 0 || y == 0 then 0 else 2 * And(x / 2, y / 2) + (x % 2) * (y % 2)
  }

  /** `x << v`. */
  function Shl(x: nat, v: nat): nat {
    if v == 0 then x else 2 * Shl(x, v - 1)
  }

  function Pow2(n: nat): nat {
    Shl(1, n)
  }

  /** Unsigned subtraction and negation. */
  function Sub(x: nat, y: nat): nat
    requires y <= WORD
  {
    (x + WORD - y) % WORD
  }

  /** `parent`, as it is computed. */
  function Parent(i: nat, lsbit: nat, size: nat): nat
    requires size < WORD
  {
    var i1 := Sub(i, size);
    AndLess(i1, lsbit);
    var mask := Sub(0, And(i1, lsbit));
    AndLess(size, mask);
    Sub(i1, And(size, mask)) / 2
  }

  lemma {:induction false} AndLess(x: nat, y: nat)
    ensures And(x, y) <= x
  {
    if x != 0 && y != 0 {
      AndLess(x / 2, y / 2);
    }
  }

  lemma {:induction false} AndComplement(x: nat, n: nat)
    requires x < Pow2(n)
    ensures And(x, Pow2(n) - 1 - x) == 0
  {
    if x != 0 && Pow2(n) - 1 - x != 0 {
      AndComplement(x / 2, n - 1);
      assert (Pow2(n) - 1 - x) / 2 == Pow2(n - 1) - 1 - x / 2;
      assert (x % 2) + (Pow2(n) - 1 - x) % 2 == 1;
    }
  }

  lemma {:induction false} AndMask(x: nat, n: nat)
    requires x < Pow2(n)
    ensures And(x, Pow2(n) - 1) == x
  {
    if x != 0 && n > 0 {
      AndMask(x / 2, n - 1);
      assert (Pow2(n) - 1) / 2 == Pow2(n - 1) - 1 && (Pow2(n) - 1) % 2 == 1;
    }
  }

  lemma {:induction false} AndShl(x: nat, y: nat, v: nat)
    ensures And(Shl(x, v), Shl(y, v)) == Shl(And(x, y), v)
  {
    if v > 0 {
      AndShl(x, y, v - 1);
      assert And(2 * Shl(x, v - 1), 2 * Shl(y, v - 1)) == 2 * And(Shl(x, v - 1), Shl(y, v - 1));
    }
  }

  lemma {:induction false} AndOne(x: nat)
    ensures And(x, 1) == x % 2
  {}

  lemma {:induction false} ShlZero(v: nat)
    ensures Shl(0, v) == 0
  {
    if v > 0 {
      ShlZero(v - 1);
    }
  }

  /** `size & -size` is the largest power of two that divides `size`. */
  lemma {:induction false} LowestBit(size: nat, n: nat) returns (v: nat, odd: nat)
    requires 0 < size < Pow2(n)
    ensures And(size, Pow2(n) - size) == Pow2(v) && size == Shl(odd, v) && odd % 2 == 1 && v < n
  {
    if size % 2 == 1 {
      v, odd := 0, size;
      assert n > 0 && (Pow2(n) - size) / 2 == Pow2(n - 1) - 1 - size / 2 && (Pow2(n) - size) % 2 == 1;
      AndComplement(size / 2, n - 1);
    } else {
      v, odd := LowestBit(size / 2, n - 1);
      AndShl(size / 2, Pow2(n - 1) - size / 2, 1);
      v := v + 1;
    }
  }

  lemma {:induction false} ShlTimes(x: nat, v: nat, m: nat)
    ensures Shl(x, v) * m == Shl(x * m, v)
  {
    if v > 0 {
      ShlTimes(x, v - 1, m);
    }
  }

  lemma {:induction false} ShlAdd(x: nat, y: nat, v: nat)
    ensures Shl(x, v) + Shl(y, v) == Shl(x + y, v)
  {
    if v > 0 {
      ShlAdd(x, y, v - 1);
    }
  }

  lemma {:induction false} ShlShl(x: nat, v: nat, w: nat)
    ensures Shl(Shl(x, v), w) == Shl(x, v + w)
  {
    if w > 0 {
      ShlShl(x, v, w - 1);
    }
  }

  lemma {:induction false} OddTimes(odd: nat, m: nat)
    requires odd % 2 == 1
    ensures (odd * m) % 2 == m % 2
  {
    assert odd * m == 2 * (odd / 2 * m) + m;
  }

  /** The mask `-lsbit` keeps all of `size`. */
  lemma {:induction false} MaskKeeps(odd: nat, v: nat, n: nat)
    requires v <= n && Shl(odd, v) < Pow2(n)
    ensures Pow2(v) <= Pow2(n) && And(Shl(odd, v), Pow2(n) - Pow2(v)) == Shl(odd, v)
  {
    PowPositive(n - v);
    ShlShl(1, n - v, v);
    ShlAdd(Pow2(n - v) - 1, 1, v);
    ShlLess(odd, Pow2(n - v), v);
    AndShl(odd, Pow2(n - v) - 1, v);
    AndMask(odd, n - v);
  }

  lemma {:induction false} ShlLess(x: nat, y: nat, v: nat)
    requires Shl(x, v) < Shl(y, v)
    ensures x < y
  {
    if v > 0 {
      ShlLess(x, y, v - 1);
    }
  }

  function LowBit(size: nat): nat
    requires size < WORD
  {
    And(size, Sub(0, size))
  }

  lemma {:induction false} LowBitIs(size: nat) returns (v: nat, odd: nat)
    requires 0 < size < WORD
    ensures LowBit(size) == Pow2(v) && size == Shl(odd, v) && odd % 2 == 1 && v <= 32 && WORD == Pow2(32)
  {
    WordIs();
    v, odd := LowestBit(size, 32);
  }

  /** `i & lsbit` tells whether the offset is an odd multiple of `size`. */
  lemma {:induction false} OddMultiple(size: nat, m: nat)
    requires 0 < size < WORD
    ensures And(m * size, LowBit(size)) == if m % 2 == 1 then LowBit(size) else 0
  {
    var v, odd := LowBitIs(size);
    ShlTimes(odd, v, m);
    AndShl(odd * m, 1, v);
    AndOne(odd * m);
    OddTimes(odd, m);
    ShlZero(v);
  }

  lemma {:induction false} NegLowBit(size: nat)
    requires 0 < size < WORD
    ensures 0 < LowBit(size) < WORD && And(size, WORD - LowBit(size)) == size
  {
    var v, odd := LowBitIs(size);
    MaskKeeps(odd, v, 32);
    AndLess(size, WORD - size);
    PowPositive(v);
  }

  lemma {:induction false} ShlFour(x: nat, v: nat)
    ensures Shl(x, v + 4) == 16 * Shl(x, v)
  {
    assert Shl(x, v + 2) == 4 * Shl(x, v);
  }

  lemma {:induction false} WordIs()
    ensures Pow2(32) == WORD
  {
    ShlFour(1, 0);
    ShlFour(1, 4);
    ShlFour(1, 8);
    ShlFour(1, 12);
    ShlFour(1, 16);
    ShlFour(1, 20);
    ShlFour(1, 24);
    ShlFour(1, 28);
  }

  lemma {:induction false} PowPositive(v: nat)
    ensures Pow2(v) > 0
  {
    if v > 0 {
      PowPositive(v - 1);
    }
  }

  lemma {:induction false} SubExact(x: nat, y: nat)
    requires y <= x < WORD
    ensures Sub(x, y) == x - y
  {}

  /** `parent` once the masks are known: `cut` is what is subtracted in the second line. */
  lemma {:induction false} ParentCut(i1: nat, lsbit: nat, size: nat, cut: nat)
    requires 0 < size && i1 + size < WORD && And(i1, lsbit) < WORD && cut <= i1
    requires cut == And(size, Sub(0, And(i1, lsbit)))
    ensures Parent(i1 + size, lsbit, size) == (i1 - cut) / 2
  {
    SubExact(i1 + size, size);
    SubExact(i1, cut);
  }

  /** The masks of `parent`, for the offset `i1` of the element before. */
  lemma {:induction false} ParentBits(i1: nat, size: nat, odd: bool, half: nat)
    requires 0 < size && i1 + size < WORD && And(i1, LowBit(size)) == (if odd then LowBit(size) else 0)
    requires 0 < LowBit(size) < WORD && And(size, WORD - LowBit(size)) == size
    requires i1 == 2 * half + if odd then size else 0
    ensures Parent(i1 + size, LowBit(size), size) == half
  {
    if odd {
      assert Sub(0, LowBit(size)) == WORD - LowBit(size);
      ParentCut(i1, LowBit(size), size, size);
    } else {
      assert Sub(0, 0) == 0 && And(size, 0) == 0;
      ParentCut(i1, LowBit(size), size, 0);
    }
  }

  /** On offsets of elements `parent` is the parent in the heap. */
  lemma {:induction false} ParentIs(k: nat, size: nat)
    requires 0 < size && 0 < k && k * size < WORD && size < WORD
    ensures Parent(k * size, LowBit(size), size) == Par(k) * size
  {
    var m := k - 1;
    var x: nat, h: nat := m * size, m / 2 * size;
    assert k * size == x + size;
    OddMultiple(size, m);
    NegLowBit(size);
    Halve(m, size);
    ParentBits(x, size, m % 2 == 1, h);
  }

  lemma {:induction false} Halve(m: nat, size: nat)
    ensures m * size == 2 * (m / 2 * size) + if m % 2 == 1 then size else 0
  {
    var h := m / 2;
    assert m == 2 * h + m % 2;
    assert m * size == 2 * (h * size) + (m % 2) * size;
  }

  // ---------------------------------------------------------------- elements in a buffer

  lemma {:induction false} MulLess(i: int, j: int, size: nat)
    requires size > 0 && i < j
    ensures i * size < j * size
    decreases j - i
  {
    if i + 1 < j {
      MulLess(i, j - 1, size);
    }
    assert j * size == (j - 1) * size + size;
  }

  lemma {:induction false} MulMono(i: int, j: int, size: nat)
    requires size > 0
    ensures i * size < j * size <==> i < j
    ensures i * size == j * size <==> i == j
    ensures (i + 1) * size == i * size + size
  {
    if i < j {
      MulLess(i, j, size);
    } else if j < i {
      MulLess(j, i, size);
    }
  }

  lemma {:induction false} InBuffer(i: nat, num: nat, size: nat)
    requires i < num
    ensures 0 <= i * size && i * size + size <= num * size && (i + 1) * size == i * size + size
  {
    assert num * size == (i + 1) * size + (num - i - 1) * size;
  }

  function Elem(m: seq<Byte>, size: nat, num: nat, i: nat): seq<Byte>
    requires |m| == num * size && i < num
  {
    InBuffer(i, num, size);
    m[i * size..i * size + size]
  }

  function Elems(m: seq<Byte>, size: nat, num: nat): (e: seq<seq<Byte>>)
    requires |m| == num * size
    ensures |e| == num
  {
    seq(num, i requires 0 <= i < num => Elem(m, size, num, i))
  }

  /** The `n` bytes at `a` and the `n` bytes at `b` exchanged. */
  function BytesSwapped(m: seq<Byte>, a: nat, b: nat, n: nat): (r: seq<Byte>)
    requires a + n <= |m| && b + n <= |m|
    ensures |r| == |m|
  {
    seq(|m|, x requires 0 <= x < |m| => if a <= x < a + n then m[b + (x - a)]
        else if b <= x < b + n then m[a + (x - b)] else m[x])
  }

  lemma {:induction false} Apart(i: nat, j: nat, size: nat)
    requires i != j
    ensures i * size + size <= j * size || j * size + size <= i * size
  {
    if i < j {
      InBuffer(i, j, size);
    } else {
      InBuffer(j, i, size);
    }
  }

  /** What the exchange does to stretches of `n` bytes. */
  lemma {:induction false} SliceSwapped(m: seq<Byte>, a: nat, b: nat, n: nat, c: nat)
    requires a + n <= |m| && b + n <= |m| && c + n <= |m| && (a + n <= b || b + n <= a)
    requires c == a || c == b || ((a + n <= c || c + n <= a) && (b + n <= c || c + n <= b))
    ensures BytesSwapped(m, a, b, n)[c..c + n] == if c == a then m[b..b + n] else if c == b then m[a..a + n]
        else m[c..c + n]
  {}

  /** Exchanging the bytes of two elements exchanges the elements. */
  lemma {:induction false} SwapElems(m: seq<Byte>, size: nat, num: nat, i: nat, j: nat)
    requires |m| == num * size && i < num && j < num && i != j && size > 0
    ensures i * size + size <= |m| && j * size + size <= |m|
    ensures Elems(BytesSwapped(m, i * size, j * size, size), size, num) == Swapped(Elems(m, size, num), i, j)
  {
    InBuffer(i, num, size);
    InBuffer(j, num, size);
    Apart(i, j, size);
    var r := BytesSwapped(m, i * size, j * size, size);
    var e, e' := Swapped(Elems(m, size, num), i, j), Elems(r, size, num);
    forall k: nat | k < num
      ensures e'[k] == e[k]
    {
      SwapElemAt(m, size, num, i, j, k);
    }
  }

  lemma {:induction false} SwapElemAt(m: seq<Byte>, size: nat, num: nat, i: nat, j: nat, k: nat)
    requires |m| == num * size && i < num && j < num && i != j && size > 0 && k < num
    requires i * size + size <= |m| && j * size + size <= |m|
    ensures Elem(BytesSwapped(m, i * size, j * size, size), size, num, k) == Elem(m, size, num, if k == i then j
        else if k == j then i else k)
  {
    InBuffer(k, num, size);
    Apart(i, j, size);
    MulMono(k, i, size);
    MulMono(k, j, size);
    if k != i {
      Apart(k, i, size);
    }
    if k != j {
      Apart(k, j, size);
    }
    SliceSwapped(m, i * size, j * size, size, k * size);
  }

  /** Exchanging `k` more bytes before a stretch already exchanged. */
  lemma {:induction false} SwapMore(m: seq<Byte>, a: nat, b: nat, k: nat, n: nat)
    requires a + k + n <= |m| && b + k + n <= |m| && (a + k + n <= b || b + k + n <= a)
    ensures BytesSwapped(BytesSwapped(m, a + k, b + k, n), a, b, k) == BytesSwapped(m, a, b, k + n)
  {
    var r1 := BytesSwapped(m, a + k, b + k, n);
    var r2, r := BytesSwapped(r1, a, b, k), BytesSwapped(m, a, b, k + n);
    forall x | 0 <= x < |m|
      ensures r2[x] == r[x]
    {
    }
  }

  /** The last `size - n` of `size` bytes at `a` and `b` have been exchanged. */
  ghost predicate Exchanged(m0: seq<Byte>, m: seq<Byte>, a: nat, b: nat, n: int, size: nat) {
    true == (0 <= n <= size && a + size <= |m0| && b + size <= |m0| && (a + size <= b || b + size <= a)
    && m == BytesSwapped(m0, a + n, b + n, size - n))
  }

  lemma {:induction false} ExchangeMore(m0: seq<Byte>, m: seq<Byte>, m': seq<Byte>, a: nat, b: nat, n: nat, n': nat,
      k: nat, size: nat)
    requires Exchanged(m0, m, a, b, n, size) && n == n' + k && |m| == |m0|
    requires m' == BytesSwapped(m, a + n', b + n', k)
    ensures Exchanged(m0, m', a, b, n', size)
  {
    SwapMore(m0, a + n', b + n', k, size - n);
  }

  lemma {:induction false} ExchangeNone(m: seq<Byte>, a: nat, b: nat, size: nat)
    requires a + size <= |m| && b + size <= |m| && (a + size <= b || b + size <= a)
    ensures Exchanged(m, m, a, b, size, size)
  {
    assert BytesSwapped(m, a + size, b + size, 0) == m;
  }

  method SwapByte(base: array<Byte>, a: nat, b: nat)
    requires a < base.Length && b < base.Length && a != b
    modifies base
    ensures base[..] == BytesSwapped(old(base[..]), a, b, 1)
  {
    var t := base[a];
    base[a] := base[b];
    base[b] := t;
  }

  method SwapWord(base: array<Byte>, a: nat, b: nat)
    requires a + 4 <= base.Length && b + 4 <= base.Length && (a + 4 <= b || b + 4 <= a)
    modifies base
    ensures base[..] == BytesSwapped(old(base[..]), a, b, 4)
  {
    var t := base[a..a + 4];
    forall k | 0 <= k < 4 {
      base[a + k] := base[b + k];
    }
    forall k | 0 <= k < 4 {
      base[b + k] := t[k];
    }
  }

  method ExchangeByte(base: array<Byte>, a: nat, b: nat, n: nat, size: nat, ghost m0: seq<Byte>)
    requires |m0| == base.Length && Exchanged(m0, base[..], a, b, n, size) && n >= 1
    modifies base
    ensures Exchanged(m0, base[..], a, b, n - 1, size)
  {
    ghost var m := base[..];
    SwapByte(base, a + (n - 1), b + (n - 1));
    ExchangeMore(m0, m, base[..], a, b, n, n - 1, 1, size);
  }

  method ExchangeWord(base: array<Byte>, a: nat, b: nat, n: nat, size: nat, ghost m0: seq<Byte>)
    requires |m0| == base.Length && Exchanged(m0, base[..], a, b, n, size) && n >= 4
    modifies base
    ensures Exchanged(m0, base[..], a, b, n - 4, size)
  {
    ghost var m := base[..];
    SwapWord(base, a + (n - 4), b + (n - 4));
    ExchangeMore(m0, m, base[..], a, b, n, n - 4, 4, size);
  }

  /** `swap_bytes`. */
  method SwapBytes(base: array<Byte>, a: nat, b: nat, size: nat)
    requires size > 0 && a + size <= base.Length && b + size <= base.Length && (a + size <= b || b + size <= a)
    modifies base
    ensures base[..] == BytesSwapped(old(base[..]), a, b, size)
  {
    var n := size;
    ExchangeNone(base[..], a, b, size);
    while n > 0
      invariant 0 <= n && Exchanged(old(base[..]), base[..], a, b, n, size)
    {
      ExchangeByte(base, a, b, n, size, old(base[..]));
      n := n - 1;
    }
  }

  /** `swap_words_32`: a word of four bytes at a time. */
  method SwapWords32(base: array<Byte>, a: nat, b: nat, size: nat)
    requires size > 0 && size % 4 == 0 && a + size <= base.Length && b + size <= base.Length
    requires (a + size <= b || b + size <= a)
    modifies base
    ensures base[..] == BytesSwapped(old(base[..]), a, b, size)
  {
    var n := size;
    ExchangeNone(base[..], a, b, size);
    while n > 0
      invariant 0 <= n && n % 4 == 0 && Exchanged(old(base[..]), base[..], a, b, n, size)
    {
      ExchangeWord(base, a, b, n, size, old(base[..]));
      n := n - 4;
    }
  }

  /** `swap_words_64`: two words at a time. */
  method SwapWords64(base: array<Byte>, a: nat, b: nat, size: nat)
    requires size > 0 && size % 8 == 0 && a + size <= base.Length && b + size <= base.Length
    requires (a + size <= b || b + size <= a)
    modifies base
    ensures base[..] == BytesSwapped(old(base[..]), a, b, size)
  {
    var n := size;
    ExchangeNone(base[..], a, b, size);
    while n > 0
      invariant 0 <= n && n % 8 == 0 && Exchanged(old(base[..]), base[..], a, b, n, size)
    {
      ExchangeWord(base, a, b, n, size, old(base[..]));
      n := n - 4;
      ExchangeWord(base, a, b, n, size, old(base[..]));
      n := n - 4;
    }
  }

  /** `do_swap` with the routine that `sort_r` picks by the alignment of `size`. */
  method DoSwap(base: array<Byte>, a: nat, b: nat, size: nat, num: nat, ghost i: nat, ghost j: nat)
    requires size > 0 && base.Length == num * size && i < num && j < num && i != j && a == i * size && b == j * size
    modifies base
    ensures Elems(base[..], size, num) == Swapped(old(Elems(base[..], size, num)), i, j)
  {
    InBuffer(i, num, size);
    InBuffer(j, num, size);
    Apart(i, j, size);
    SwapElems(base[..], size, num, i, j);
    if size % 8 == 0 {
      SwapWords64(base, a, b, size);
    } else if size % 4 == 0 {
      SwapWords32(base, a, b, size);
    } else {
      SwapBytes(base, a, b, size);
    }
  }

  // ---------------------------------------------------------------- the sort

  /** The offsets of the children of `leaf`, and when they are within the heap. */
  lemma {:induction false} Children(b: nat, leaf: nat, len: nat, size: nat)
    requires size > 0 && b == leaf * size
    ensures 2 * b + size == (2 * leaf + 1) * size && 2 * b + size + size == (2 * leaf + 2) * size
    ensures 2 * b + size + size < len * size <==> 2 * leaf + 2 < len
    ensures 2 * b + size + size == len * size <==> 2 * leaf + 2 == len
  {
    assert (2 * leaf + 1) * size == 2 * (leaf * size) + size;
    MulMono(2 * leaf + 1, len, size);
    MulMono(2 * leaf + 2, len, size);
  }

  /** The last element at which the descent looks for children: an only child is reached without. */
  function Tested(len: nat): nat
    requires len > 0
  {
    if len % 2 == 0 then len - 2 else len - 1
  }

  /** There the offset of a second child does not wrap around. */
  predicate Fits(len: nat, size: nat)
    requires len > 0
  {
    (2 * Tested(len) + 2) * size < WORD
  }

  lemma {:induction false} NoWrap(leaf: nat, len: nat, size: nat)
    requires size > 0 && len > 0 && Fits(len, size) && leaf <= Tested(len)
    ensures (2 * leaf + 2) * size < WORD
  {
    MulMono(2 * leaf + 2, 2 * Tested(len) + 2, size);
  }

  lemma {:induction false} FitsFewer(len: nat, num: nat, size: nat)
    requires size > 0 && 0 < len <= num && Fits(num, size)
    ensures Fits(len, size)
  {
    NoWrap(Tested(len), num, size);
  }

  /** The offsets of two children, as they are computed. */
  function NextKids(b: nat, size: nat): (nat, nat) {
    ((2 * b + size) % WORD, ((2 * b + size) % WORD + size) % WORD)
  }

  lemma {:induction false} SmallKids(b: nat, size: nat)
    requires 2 * b + size + size < WORD
    ensures NextKids(b, size) == (2 * b + size, 2 * b + size + size)
  {}

  /** What the offsets at `leaf` say. */
  ghost predicate Tells(leaf: nat, len: nat, n: nat, size: nat, c: nat, d: nat) {
    true == (c == (2 * leaf + 1) * size && (d < n <==> 2 * leaf + 2 < len) && (d == n <==> 2 * leaf + 2 == len))
  }

  lemma {:induction false} KidsTell(b: nat, leaf: nat, len: nat, n: nat, size: nat)
    requires size > 0 && len > 0 && Fits(len, size) && leaf <= Tested(len) && b == leaf * size && n == len * size
    ensures Tells(leaf, len, n, size, NextKids(b, size).0, NextKids(b, size).1)
  {
    Children(b, leaf, len, size);
    NoWrap(leaf, len, size);
    SmallKids(b, size);
  }

  lemma {:induction false} KidsAt(b: nat, leaf: nat, num: nat, size: nat)
    requires size > 0 && 2 * leaf + 2 < num && num * size < WORD && b == leaf * size
    ensures NextKids(b, size) == ((2 * leaf + 1) * size, (2 * leaf + 2) * size)
  {
    Children(b, leaf, num, size);
    SmallKids(b, size);
  }

  /** The element at a byte offset. */
  method Load(base: array<Byte>, off: nat, size: nat, num: nat, ghost i: nat) returns (x: seq<Byte>)
    requires base.Length == num * size && i < num && off == i * size
    ensures x == Elems(base[..], size, num)[i]
  {
    InBuffer(i, num, size);
    x := base[off..off + size];
    assert x == base[..][off..off + size];
  }

  /** The greater of two children. */
  method Pick(base: array<Byte>, b: nat, size: nat, num: nat, cmp: (seq<Byte>, seq<Byte>) -> int, ghost i: nat,
      ghost leaf: nat, ghost len: nat)
    returns (b': nat, ghost leaf': nat)
    requires size > 0 && base.Length == num * size && i <= leaf && 2 * leaf + 2 < len <= num && b == leaf * size
    requires Above(i, leaf) && base.Length < WORD
    requires Preorder(cmp, Elems(base[..], size, num)) ==> Greatest(cmp, Elems(base[..], size, num), i, leaf, len)
    ensures leaf < leaf' < len && leaf' <= 2 * leaf + 2 && b' == leaf' * size && Above(i, leaf')
    ensures Preorder(cmp, Elems(base[..], size, num)) ==> Greatest(cmp, Elems(base[..], size, num), i, leaf', len)
  {
    ghost var e := Elems(base[..], size, num);
    KidsAt(b, leaf, num, size);
    var (c, d) := NextKids(b, size);
    var x := Load(base, c, size, num, 2 * leaf + 1);
    var y := Load(base, d, size, num, 2 * leaf + 2);
    if cmp(x, y) >= 0 {
      b', leaf' := c, 2 * leaf + 1;
    } else {
      b', leaf' := d, 2 * leaf + 2;
    }
    PickIs(cmp, e, i, leaf, leaf', len);
  }

  lemma {:induction false} PickIs<T>(cmp: (T, T) -> int, e: seq<T>, i: nat, leaf: nat, c: nat, len: nat)
    requires i <= leaf && 2 * leaf + 2 < len <= |e| && Above(i, leaf)
    requires c == if Geq(cmp, e[2 * leaf + 1], e[2 * leaf + 2]) then 2 * leaf + 1 else 2 * leaf + 2
    ensures Above(i, c) && (Preorder(cmp, e) && Greatest(cmp, e, i, leaf, len) ==> Greatest(cmp, e, i, c, len))
  {
    if Preorder(cmp, e) && Greatest(cmp, e, i, leaf, len) {
      forall k | 0 < k < len && Par(k) == leaf
        ensures Geq(cmp, e[c], e[k])
      {
        assert k == 2 * leaf + 1 || k == 2 * leaf + 2;
        assert Geq(cmp, e[c], e[c]);
      }
      GreatestStep(cmp, e, i, leaf, c, len);
    }
  }

  lemma {:induction false} OnlyChild<T>(cmp: (T, T) -> int, e: seq<T>, i: nat, leaf: nat, len: nat)
    requires i <= leaf && 2 * leaf + 2 == len <= |e| && Above(i, leaf)
    ensures Above(i, 2 * leaf + 1)
    ensures (Preorder(cmp, e) && Greatest(cmp, e, i, leaf, len) ==> Greatest(cmp, e, i, 2 * leaf + 1, len))
  {
    var c := 2 * leaf + 1;
    if Preorder(cmp, e) && Greatest(cmp, e, i, leaf, len) {
      forall k | 0 < k < len && Par(k) == leaf
        ensures Geq(cmp, e[c], e[k])
      {
        assert k == c && Geq(cmp, e[c], e[c]);
      }
      GreatestStep(cmp, e, i, leaf, c, len);
    }
  }

  /** Down from `a` over the greater children to a leaf: the first inner loop of `sort_r`. */
  method Descend(base: array<Byte>, a: nat, n: nat, size: nat, num: nat, cmp: (seq<Byte>, seq<Byte>) -> int,
      ghost i: nat, ghost len: nat)
    returns (b: nat, ghost leaf: nat)
    requires size > 0 && base.Length == num * size < WORD && i < len <= num && a == i * size && n == len * size
    requires Fits(len, size) && i <= Tested(len)
    ensures i <= leaf < len && b == leaf * size && Above(i, leaf) && len <= 2 * leaf + 1
    ensures Preorder(cmp, Elems(base[..], size, num)) ==> Greatest(cmp, Elems(base[..], size, num), i, leaf, len)
  {
    ghost var e := Elems(base[..], size, num);
    b, leaf := a, i;
    var (c, d) := NextKids(b, size);
    KidsTell(b, leaf, len, n, size);
    while d < n
      invariant i <= leaf <= Tested(len) && b == leaf * size && Above(i, leaf) && Tells(leaf, len, n, size, c, d)
      invariant Preorder(cmp, e) ==> Greatest(cmp, e, i, leaf, len)
      decreases len - leaf
    {
      b, leaf := Pick(base, b, size, num, cmp, i, leaf, len);
      var kids := NextKids(b, size);
      c, d := kids.0, kids.1;
      KidsTell(b, leaf, len, n, size);
    }
    if d == n {
      OnlyChild(cmp, e, i, leaf, len);
      b, leaf := c, 2 * leaf + 1;
    }
  }

  /** `parent` of an element within the buffer. */
  method ParentOf(b: nat, lsbit: nat, size: nat, num: nat, ghost j: nat) returns (p: nat)
    requires 0 < size < WORD && num * size < WORD && 0 < j < num && b == j * size && lsbit == LowBit(size)
    ensures p == Par(j) * size
  {
    InBuffer(j, num, size);
    ParentIs(j, size);
    p := Parent(b, lsbit, size);
  }

  /** Back up to the place of the element at `a`: the second inner loop. */
  method Climb(base: array<Byte>, a: nat, b0: nat, lsbit: nat, size: nat, num: nat, cmp: (seq<Byte>, seq<Byte>) -> int,
      ghost i: nat, ghost leaf: nat)
    returns (b: nat, ghost j: nat)
    requires 0 < size < WORD && base.Length == num * size < WORD && i <= leaf < num && a == i * size
    requires b0 == leaf * size && Above(i, leaf) && lsbit == LowBit(size)
    ensures i <= j <= leaf && b == j * size && Above(i, j) && Above(j, leaf)
    ensures var e := Elems(base[..], size, num);
      (j != i ==> !Geq(cmp, e[i], e[j])) && (j != leaf ==> Geq(cmp, e[i], e[Toward(j, leaf)]))
  {
    b, j := b0, leaf;
    ghost var e := Elems(base[..], size, num);
    var x := Load(base, a, size, num, i);
    while b != a
      invariant i <= j <= leaf && b == j * size && Above(i, j) && Above(j, leaf)
      invariant j != leaf ==> Geq(cmp, e[i], e[Toward(j, leaf)])
      decreases j
    {
      MulMono(i, j, size);
      var y := Load(base, b, size, num, j);
      if cmp(x, y) < 0 {
        break;
      }
      TowardUnique(j, leaf);
      b := ParentOf(b, lsbit, size, num, j);
      j := Par(j);
    }
    MulMono(i, j, size);
  }

  /** Shift the path up and the element at `a` into its place: the third inner loop. */
  method Shift(base: array<Byte>, a: nat, b0: nat, lsbit: nat, size: nat, num: nat, ghost i: nat, ghost k: nat)
    requires 0 < size < WORD && base.Length == num * size < WORD && i <= k < num && a == i * size && b0 == k * size
    requires Above(i, k) && lsbit == LowBit(size)
    modifies base
    ensures Elems(base[..], size, num) == Rotated(old(Elems(base[..], size, num)), i, k)
    ensures multiset(Elems(base[..], size, num)) == multiset(old(Elems(base[..], size, num)))
  {
    ghost var e := Elems(base[..], size, num);
    var c, b := b0, b0;
    ghost var j := k;
    assert Rotated(e, k, k) == e;
    while b != a
      invariant i <= j <= k && b == j * size && Above(i, j) && Above(j, k)
      invariant Elems(base[..], size, num) == Rotated(e, j, k) && multiset(Elems(base[..], size, num)) == multiset(e)
      decreases j
    {
      MulMono(i, j, size);
      RotateStep(e, j, k);
      SwapCount(Rotated(e, j, k), Par(j), k);
      b := ParentOf(b, lsbit, size, num, j);
      j := Par(j);
      DoSwap(base, b, c, size, num, j, k);
    }
    MulMono(i, j, size);
  }

  /** One round of `sort_r` after its first lines: the element at `a` sinks to its place. */
  method Sift(base: array<Byte>, a: nat, n: nat, lsbit: nat, size: nat, num: nat, cmp: (seq<Byte>, seq<Byte>) -> int,
      ghost i: nat, ghost len: nat)
    requires 0 < size < WORD && base.Length == num * size < WORD && i < len <= num && a == i * size
    requires n == len * size && lsbit == LowBit(size) && Fits(len, size) && i <= Tested(len)
    modifies base
    ensures multiset(Elems(base[..], size, num)) == multiset(old(Elems(base[..], size, num)))
    ensures var e := old(Elems(base[..], size, num));
      Preorder(cmp, e) && Heap(cmp, e, i + 1, len) && Done(cmp, e, len) ==>
        Heap(cmp, Elems(base[..], size, num), i, len) && Done(cmp, Elems(base[..], size, num), len)
  {
    ghost var e := Elems(base[..], size, num);
    var b, c;
    ghost var leaf, k;
    if len < num {
      MulLess(len, num, size);
    }
    b, leaf := Descend(base, a, n, size, num, cmp, i, len);
    c, k := Climb(base, a, b, lsbit, size, num, cmp, i, leaf);
    if Preorder(cmp, e) && Heap(cmp, e, i + 1, len) && Done(cmp, e, len) {
      RotateHeap(cmp, e, i, k, leaf, len);
      RotateDone(cmp, e, i, k, len);
    }
    Shift(base, a, c, lsbit, size, num, i, k);
  }

  /** The state of `sort_r` between rounds: `e` rearranges `e0`; it is a heap from `i` on up to
      `len`, and sorted from there. */
  ghost predicate Sorting<T>(cmp: (T, T) -> int, e0: seq<T>, e: seq<T>, i: nat, len: nat)
    requires len <= |e|
  {
    true == (multiset(e) == multiset(e0) && (Preorder(cmp, e0) ==> Heap(cmp, e, i, len) && Done(cmp, e, len)))
  }

  lemma {:induction false} StartSorting<T>(cmp: (T, T) -> int, e: seq<T>)
    ensures Sorting(cmp, e, e, |e| / 2, |e|)
  {}

  lemma {:induction false} EndSorting<T>(cmp: (T, T) -> int, e0: seq<T>, e: seq<T>)
    requires |e| > 0 && Sorting(cmp, e0, e, 0, 1)
    ensures multiset(e) == multiset(e0) && (Preorder(cmp, e0) ==> Sorted(cmp, e))
  {}

  lemma {:induction false} RootSorting<T>(cmp: (T, T) -> int, e0: seq<T>, e: seq<T>, len: nat)
    requires 0 < len <= |e| && Sorting(cmp, e0, e, 0, len)
    ensures Sorting(cmp, e0, Swapped(e, 0, len - 1), 1, len - 1)
  {
    SwapCount(e, 0, len - 1);
    if Preorder(cmp, e0) {
      SamePreorder(cmp, e0, e);
      TakeRoot(cmp, e, len);
    }
  }

  /** Between its rounds: the offset of the element to sift, or the end. */
  method NextRound(base: array<Byte>, a: nat, n: nat, size: nat, num: nat, cmp: (seq<Byte>, seq<Byte>) -> int,
      ghost e0: seq<seq<Byte>>, ghost i: nat, ghost len: nat)
    returns (over: bool, a': nat, n': nat, ghost i': nat, ghost len': nat)
    requires 0 < size && base.Length == num * size && i < len <= num && a == i * size && n == len * size
    requires Sorting(cmp, e0, Elems(base[..], size, num), i, len)
    modifies base
    ensures over ==> i == 0 && len == 1 && base[..] == old(base[..])
    ensures !over ==>
        i' < len' <= num && a' == i' * size && n' == len' * size
        && Sorting(cmp, e0, Elems(base[..], size, num), i' + 1, len')
    ensures !over ==> if i > 0 then i' == i - 1 && len' == len else i' == 0 && len' == len - 1
  {
    MulMono(0, i, size);
    over, a', n', i', len' := false, a, n, i, len;
    if a != 0 {
      MulMono(i - 1, i, size);
      a', i' := a - size, i - 1;
    } else {
      MulMono(len - 1, len, size);
      MulMono(0, len - 1, size);
      n', len' := n - size, len - 1;
      if n' == 0 {
        over := true;
      } else {
        RootSorting(cmp, e0, Elems(base[..], size, num), len);
        DoSwap(base, 0, n', size, num, 0, len');
      }
    }
  }

  /** At element `k` of `len` the test for a second child, and that for an only child, are right. */
  predicate Right(k: nat, len: nat, size: nat) {
    var d := (2 * k + 2) * size % WORD;
    (d < len * size <==> 2 * k + 2 < len) && (d == len * size <==> 2 * k + 2 == len)
  }

  /** Why the array has to fit: wherever the descent makes its tests they are right, exactly then. */
  lemma {:induction false} LeafTest(len: nat, size: nat)
    requires len > 0 && size > 0 && len * size < WORD
    ensures (forall k :: 0 <= k <= Tested(len) ==> Right(k, len, size)) <==> Fits(len, size)
  {
    if Fits(len, size) {
      forall k | 0 <= k <= Tested(len)
        ensures Right(k, len, size)
      {
        NoWrap(k, len, size);
        MulMono(2 * k + 2, len, size);
      }
    } else {
      var d := (2 * Tested(len) + 2) * size;
      assert d <= 2 * (len * size) by {
        MulMono(2 * Tested(len) + 2, 2 * len, size);
        assert (2 * len) * size == 2 * (len * size);
      }
      assert d % WORD == d - WORD < len * size;
      assert !Right(Tested(len), len, size);
    }
  }

  /** Three elements of 2^30 bytes each do not fit. The descent starts at 0 and goes on to the greater child. From the
      first child it goes on to compare with what lies behind the array; from the second it comes back to itself. */
  lemma {:induction false} Overrun()
    ensures var size := 0x4000_0000;
      var n := 3 * size;
      n < WORD && !Fits(3, size)
      && NextKids(0, size) == (size, 2 * size) && 2 * size < n
      && NextKids(size, size) == (n, 0) && 0 < n
      && NextKids(2 * size, size) == (size, 2 * size)
  {}

  /** Less than two elements are sorted, and so are elements of no bytes. */
  lemma {:induction false} FewSorted(cmp: (seq<Byte>, seq<Byte>) -> int, m: seq<Byte>, size: nat, num: nat)
    requires |m| == num * size && (size == 0 || num < 2)
    ensures Preorder(cmp, Elems(m, size, num)) ==> Sorted(cmp, Elems(m, size, num))
  {
    var e := Elems(m, size, num);
    if Preorder(cmp, e) {
      forall i, j | 0 <= i < j < |e|
        ensures Geq(cmp, e[j], e[i])
      {
        assert e[i] == e[j];
      }
    }
  }

  /** `sort_r` without a swap function of the caller's: the elements are permuted, and sorted if
      the comparison is a total preorder. */
  method SortR(base: array<Byte>, num: nat, size: nat, cmp: (seq<Byte>, seq<Byte>) -> int)
    requires size < WORD && base.Length == num * size < WORD && (num > 0 ==> Fits(num, size))
    modifies base
    ensures multiset(Elems(base[..], size, num)) == multiset(old(Elems(base[..], size, num)))
    ensures Preorder(cmp, old(Elems(base[..], size, num))) ==> Sorted(cmp, Elems(base[..], size, num))
  {
    ghost var e0 := Elems(base[..], size, num);
    var n: nat, a: nat := num * size, num / 2 * size;
    var lsbit := LowBit(size);
    if size > 0 {
      MulMono(0, num / 2, size);
    }
    if a == 0 {
      FewSorted(cmp, base[..], size, num);
      return;
    }
    ghost var i: nat, len: nat := num / 2, num;
    StartSorting(cmp, e0);
    while true
      invariant i < len <= num && i <= len / 2 && a == i * size && n == len * size
      invariant Sorting(cmp, e0, Elems(base[..], size, num), i, len)
      decreases len, i
    {
      var over;
      ghost var i0, len0 := i, len;
      over, a, n, i, len := NextRound(base, a, n, size, num, cmp, e0, i, len);
      if over {
        EndSorting(cmp, e0, Elems(base[..], size, num));
        break;
      }
      ghost var e := Elems(base[..], size, num);
      if Preorder(cmp, e0) {
        SamePreorder(cmp, e0, e);
      }
      FitsFewer(len, num, size);
      Sift(base, a, n, lsbit, size, num, cmp, i, len);
    }
  }
}
