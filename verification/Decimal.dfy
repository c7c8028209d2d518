/** Decimal digits: `put_dec` of `lib/vsprintf.c`, in the variant for 32-bit machines, writes them in
    pairs and finds them by multiplication. */
module Decimal {

  import opened Machine

  function Digit(x: nat): (c: char)
    requires x < 10
  {
    '0' + x as char
  }

  /** The decimal numeral of `n`, the lowest digit first. */
  function Dec(n: nat): (t: string)
    ensures |t| >= 1
  {
    if n < 10 then [Digit(n)] else [Digit(n % 10)] + Dec(n / 10)
  }

  /** The lowest `k` decimal digits of `n`. */
  function Pad(n: nat, k: nat): (t: string)
    ensures |t| == k
  {
    if k == 0 then [] else [Digit(n % 10)] + Pad(n / 10, k - 1)
  }

  function Pow10(k: nat): nat {
    if k == 0 then 1 else 10 * Pow10(k - 1)
  }

  /** The entry of `decpair`, as bytes. */
  function Pair(x: nat): (t: string)
    requires x < 100
    ensures |t| == 2
  {
    [Digit(x % 10), Digit(x / 10)]
  }

  lemma {:induction false} Assoc(a: string, b: string, c: string)
    ensures a + b + c == a + (b + c)
  {}

  lemma {:induction false} DecPair(n: nat)
    requires n >= 100
    ensures Dec(n) == Pair(n % 100) + Dec(n / 100)
  {
    assert n % 100 % 10 == n % 10 && n % 100 / 10 == n / 10 % 10;
    assert n / 10 / 10 == n / 100;
    assert Dec(n) == [Digit(n % 10)] + ([Digit(n / 10 % 10)] + Dec(n / 100));
  }

  lemma {:induction false} PadPair(n: nat, k: nat)
    ensures Pad(n, k + 2) == Pair(n % 100) + Pad(n / 100, k)
  {
    assert n % 100 % 10 == n % 10 && n % 100 / 10 == n / 10 % 10;
    assert n / 10 / 10 == n / 100;
    assert Pad(n, k + 2) == [Digit(n % 10)] + ([Digit(n / 10 % 10)] + Pad(n / 100, k));
  }

  lemma {:induction false} Four(n: nat)
    ensures Pad(n, 4) == Pair(n % 100) + Pair(n / 100 % 100)
  {
    PadPair(n, 2);
    PadPair(n / 100, 0);
    var p := Pair(n / 100 % 100);
    assert p + [] == p;
  }

  lemma {:induction false} DecFour(n: nat)
    requires n >= 10000
    ensures Dec(n) == Pad(n, 4) + Dec(n / 10000)
  {
    DecPair(n);
    DecPair(n / 100);
    Four(n);
    assert n / 100 / 100 == n / 10000;
    Assoc(Pair(n % 100), Pair(n / 100 % 100), Dec(n / 10000));
  }

  lemma {:induction false} PadFour(n: nat, k: nat)
    ensures Pad(n, k + 4) == Pad(n, 4) + Pad(n / 10000, k)
  {
    PadPair(n, k + 2);
    PadPair(n / 100, k);
    Four(n);
    assert n / 100 / 100 == n / 10000;
    Assoc(Pair(n % 100), Pair(n / 100 % 100), Pad(n / 10000, k));
  }

  lemma {:induction false} LowPairs(n: nat)
    ensures n % 10000 % 100 == n % 100 && n % 10000 / 100 % 100 == n / 100 % 100
  {
    var a, b := n / 10000, n % 10000;
    var c, d := b / 100, b % 100;
    assert n == 100 * (100 * a + c) + d && c < 100;
    assert n / 100 == 100 * a + c;
  }

  /** The lowest four digits do not depend on what lies above them. */
  lemma {:induction false} PadLow(n: nat)
    ensures Pad(n, 4) == Pad(n % 10000, 4)
  {
    Four(n);
    Four(n % 10000);
    LowPairs(n);
    assert Pair(n % 10000 % 100) == Pair(n % 100) && Pair(n % 10000 / 100 % 100) == Pair(n / 100 % 100);
  }

  function Zeros(k: nat): (t: string)
    ensures |t| == k
  {
    seq(k, i => '0')
  }

  /** Filled up to `k` digits, a numeral gets zeros at its high end. */
  lemma {:induction false} PadIsDec(n: nat, k: nat)
    requires 0 < n < Pow10(k)
    ensures |Dec(n)| <= k && Pad(n, k) == Dec(n) + Zeros(k - |Dec(n)|)
    decreases k
  {
    if n < 10 {
      PadZero(k - 1);
      assert Pad(n, k) == [Digit(n)] + Pad(0, k - 1);
    } else {
      assert n / 10 < Pow10(k - 1);
      PadIsDec(n / 10, k - 1);
      assert Pad(n, k) == [Digit(n % 10)] + (Dec(n / 10) + Zeros(k - |Dec(n)|));
    }
  }

  lemma {:induction false} PadZero(k: nat)
    ensures Pad(0, k) == Zeros(k)
  {
    if k > 0 {
      PadZero(k - 1);
    }
  }

  /** A numeral has no superfluous zero. */
  lemma {:induction false} DecHigh(n: nat)
    requires n > 0
    ensures Dec(n)[|Dec(n)| - 1] != '0'
  {
    if n >= 10 {
      DecHigh(n / 10);
    }
  }

  // ---------------------------------------------------------------- division by multiplication

  lemma {:induction false} Hundredth(r: nat)
    requires r < 100_000_000
    ensures r * 0x28f_5c29 / WORD == r / 100
  {
    var a, b := r / 100, r % 100;
    assert r * 0x28f_5c29 == a * WORD + (4 * a + b * 0x28f_5c29);
  }

  lemma {:induction false} SmallHundredth(r: nat)
    requires r < 10000
    ensures r * 0x147b / 0x8_0000 == r / 100
  {
    var a, b := r / 100, r % 100;
    assert r * 0x147b == a * 0x8_0000 + (12 * a + b * 0x147b);
  }

  lemma {:induction false} TenThousandth(x: nat)
    requires x <= 1_125_520_955
    ensures x * 0x346D_C5D7 / 0x800_0000_0000 == x / 10000
  {
    var a, b := x / 10000, x % 10000;
    assert x * 0x346D_C5D7 == a * 0x800_0000_0000 + (7792 * a + b * 0x346D_C5D7);
  }

  // ---------------------------------------------------------------- the writers

  method PutPair(buf: array<char>, at: nat, x: nat)
    requires x < 100 && at + 2 <= buf.Length
    modifies buf
    ensures buf[..at + 2] == old(buf[..at]) + Pair(x) && buf[at + 2..] == old(buf[at + 2..])
  {
    var p := Pair(x);
    buf[at] := p[0];
    buf[at + 1] := p[1];
  }

  /** What is in the buffer up to `at` and what is still to be written make up `goal`. */
  ghost predicate Writing(buf: array<char>, at: nat, r: nat, goal: string)
    reads buf
  {
    true == (at <= buf.Length && buf[..at] + Dec(r) == goal)
  }

  /** One division and one pair. */
  method PairStep(buf: array<char>, at: nat, r: nat, q: nat, ghost goal: string)
    requires r >= 100 && q == r / 100 && at + 2 <= buf.Length && Writing(buf, at, r, goal)
    modifies buf
    ensures Writing(buf, at + 2, q, goal)
  {
    DecPair(r);
    PutPair(buf, at, r - 100 * q);
    assert old(buf[..at]) + (Pair(r % 100) + Dec(q)) == old(buf[..at]) + Pair(r % 100) + Dec(q);
  }

  method PutDecTrunc8(buf: array<char>, start: nat, n: nat) returns (at: nat)
    requires n < 100_000_000 && start + 8 <= buf.Length
    modifies buf
    ensures start < at <= start + 8 && buf[..at] == old(buf[..start]) + Dec(n)
  {
    var r := n;
    at := start;
    ghost var goal := buf[..start] + Dec(n);
    if r >= 100 {
      Hundredth(r);
      var q := r * 0x28f_5c29 / WORD;
      PairStep(buf, at, r, q, goal);
      at := at + 2;
      r := q;
      if r >= 100 {
        Hundredth(r);
        q := r * 0x28f_5c29 / WORD;
        PairStep(buf, at, r, q, goal);
        at := at + 2;
        r := q;
        if r >= 100 {
          SmallHundredth(r);
          q := r * 0x147b / 0x8_0000;
          PairStep(buf, at, r, q, goal);
          at := at + 2;
          r := q;
        }
      }
    }
    at := LastPair(buf, at, r, goal);
  }

  /** The last one or two digits. */
  method LastPair(buf: array<char>, start: nat, r: nat, ghost goal: string) returns (at: nat)
    requires r < 100 && start + 2 <= buf.Length && Writing(buf, start, r, goal)
    modifies buf
    ensures start < at <= start + 2 && buf[..at] == goal
  {
    ghost var done := buf[..start];
    PutPair(buf, start, r);
    at := start + if r < 10 then 1 else 2;
    assert Dec(r) == if r < 10 then [Digit(r)] else [Digit(r % 10)] + [Digit(r / 10)];
    assert buf[..at] == done + Dec(r);
  }

  /** Four digits, zeros included. */
  method PutDecFull4(buf: array<char>, at: nat, r: nat)
    requires r < 10000 && at + 4 <= buf.Length
    modifies buf
    ensures buf[..at + 4] == old(buf[..at]) + Pad(r, 4)
  {
    SmallHundredth(r);
    var q := r * 0x147b / 0x8_0000;
    PutPair(buf, at, r - 100 * q);
    PutPair(buf, at + 2, q);
    PadPair(r, 2);
    PadPair(q, 0);
    assert old(buf[..at]) + (Pair(r % 100) + Pair(q)) == old(buf[..at]) + Pair(r % 100) + Pair(q);
  }

  method PutDecHelper4(buf: array<char>, at: nat, x: nat) returns (q: nat)
    requires x <= 1_125_520_955 && at + 4 <= buf.Length
    modifies buf
    ensures q == x / 10000 && buf[..at + 4] == old(buf[..at]) + Pad(x, 4)
  {
    TenThousandth(x);
    q := x * 0x346D_C5D7 / 0x800_0000_0000;
    PadLow(x);
    PutDecFull4(buf, at, x - q * 10000);
  }

  lemma {:induction false} Carry(a: nat, b: nat)
    ensures (10000 * a + b) / 10000 == a + b / 10000 && (10000 * a + b) % 10000 == b % 10000
  {}

  lemma {:induction false} SameLow(m: nat, n: nat)
    requires m % 10000 == n % 10000
    ensures Pad(m, 4) == Pad(n, 4)
  {
    PadLow(m);
    PadLow(n);
  }

  /** Twelve digits in groups of four, and what is left. */
  lemma {:induction false} Twelve(n: nat)
    ensures Pad(n, 12) == Pad(n, 4) + Pad(n / 10000, 4) + Pad(n / 10000 / 10000, 4)
  {
    PadFour(n, 8);
    PadFour(n / 10000, 4);
    Assoc(Pad(n, 4), Pad(n / 10000, 4), Pad(n / 10000 / 10000, 4));
  }

  lemma {:induction false} DecTwelve(n: nat)
    requires n >= 1_000_000_000_000
    ensures Dec(n) == Pad(n, 12) + Dec(n / 10000 / 10000 / 10000)
  {
    var a, b, c, d := Pad(n, 4), Pad(n / 10000, 4), Pad(n / 10000 / 10000, 4), Dec(n / 10000 / 10000 / 10000);
    Twelve(n);
    DecFour(n);
    DecFour(n / 10000);
    DecFour(n / 10000 / 10000);
    Assoc(b, c, d);
    Assoc(a, b + c, d);
    Assoc(a, b, c);
  }

  /** `n` from its 16-bit parts: the groups of four digits come from sums of multiples of the groups of
      the powers of 65536. */
  lemma {:induction false} Groups(n: nat, d3: nat, d2: nat, d1: nat, d0: nat, q0: nat, q1: nat, q2: nat)
    requires n == d3 * 0x1_0000_0000_0000 + d2 * 0x1_0000_0000 + d1 * 0x1_0000 + d0
    requires q0 == 656 * d3 + 7296 * d2 + 5536 * d1 + d0
    requires q1 == q0 / 10000 + 7671 * d3 + 9496 * d2 + 6 * d1
    requires q2 == q1 / 10000 + 4749 * d3 + 42 * d2
    ensures Pad(n, 12) == Pad(q0, 4) + Pad(q1, 4) + Pad(q2, 4)
    ensures n / 10000 / 10000 / 10000 == q2 / 10000 + 281 * d3
  {
    var a1 := 28_100_000_000 * d3 + 10000 * (4749 * d3 + 42 * d2) + (7671 * d3 + 9496 * d2 + 6 * d1);
    var a2 := 2_810_000 * d3 + (4749 * d3 + 42 * d2);
    assert n == 10000 * a1 + q0;
    Carry(a1, q0);
    assert n / 10000 == 10000 * a2 + q1;
    Carry(a2, q1);
    assert n / 10000 / 10000 == 10000 * (281 * d3) + q2;
    Carry(281 * d3, q2);
    SameLow(n, q0);
    SameLow(n / 10000, q1);
    SameLow(n / 10000 / 10000, q2);
    Twelve(n);
  }

  /** Takes back the zeros at the high end. */
  method StripZeros(buf: array<char>, start: nat, ghost n: nat) returns (at: nat)
    requires start + 12 <= buf.Length && 0 < n < Pow10(12) && buf[start..start + 12] == Pad(n, 12)
    ensures start < at <= start + 12 && buf[start..at] == Dec(n)
  {
    PadIsDec(n, 12);
    DecHigh(n);
    ghost var l := |Dec(n)|;
    at := start + 12;
    while buf[at - 1] == '0'
      invariant start + l <= at <= start + 12
      decreases at
    {
      assert buf[at - 1] == buf[start..start + 12][at - 1 - start];
      at := at - 1;
    }
    assert buf[at - 1] == buf[start..start + 12][at - 1 - start];
    assert buf[start..at] == buf[start..start + 12][..at - start];
  }

  /** The three groups. */
  method PutGroups(buf: array<char>, start: nat, d3: nat, d2: nat, d1: nat, d0: nat, ghost n: nat) returns (q: nat)
    requires d3 < 65536 && d2 < 65536 && d1 < 65536 && d0 < 65536 && start + 12 <= buf.Length
    requires n == d3 * 0x1_0000_0000_0000 + d2 * 0x1_0000_0000 + d1 * 0x1_0000 + d0
    modifies buf
    ensures q == n / 10000 / 10000 / 10000 && buf[..start + 12] == old(buf[..start]) + Pad(n, 12)
  {
    ghost var pre := buf[..start];
    var q0 := 656 * d3 + 7296 * d2 + 5536 * d1 + d0;
    q := PutDecHelper4(buf, start, q0);
    assert q <= 88400;
    var q1 := q + 7671 * d3 + 9496 * d2 + 6 * d1;
    q := PutDecHelper4(buf, start + 4, q1);
    assert q <= 112552;
    var q2 := q + 4749 * d3 + 42 * d2;
    q := PutDecHelper4(buf, start + 8, q2);
    q := q + 281 * d3;
    Groups(n, d3, d2, d1, d0, q0, q1, q2);
    Concat4(pre, Pad(q0, 4), Pad(q1, 4), Pad(q2, 4));
  }

  lemma {:induction false} Concat4(p: string, a: string, b: string, c: string)
    ensures p + a + b + c == p + (a + b + c)
  {}

  lemma {:induction false} Parts(n: nat, low: nat, h: nat)
    requires n < WORD * WORD && low == n % WORD && h == n / WORD
    ensures h / 0x1_0000 < 0x1_0000 && low / 0x1_0000 < 0x1_0000
    ensures n == h / 0x1_0000 * 0x1_0000_0000_0000 + h % 0x1_0000 * 0x1_0000_0000
      + low / 0x1_0000 * 0x1_0000 + low % 0x1_0000
  {}

  lemma {:induction false} TopGroup(n: nat)
    ensures n / 10000 / 10000 / 10000 == 0 <==> n < 1_000_000_000_000
    ensures n < WORD * WORD ==> n / 10000 / 10000 / 10000 < 100_000_000
    ensures Pow10(12) == 1_000_000_000_000
  {}

  /** `put_dec` for more than eight digits. */
  method PutLong(buf: array<char>, start: nat, n: nat) returns (at: nat)
    requires 0 < n < WORD * WORD && start + 20 <= buf.Length
    modifies buf
    ensures start < at <= start + 20 && buf[..at] == old(buf[..start]) + Dec(n)
  {
    ghost var pre := buf[..start];
    var low, h := n % WORD, n / WORD;
    Parts(n, low, h);
    var q := PutGroups(buf, start, h / 0x1_0000, h % 0x1_0000, low / 0x1_0000, low % 0x1_0000, n);
    TopGroup(n);
    if q != 0 {
      at := PutDecTrunc8(buf, start + 12, q);
      DecTwelve(n);
      Assoc(pre, Pad(n, 12), Dec(q));
    } else {
      assert buf[start..start + 12] == buf[..start + 12][start..] == Pad(n, 12);
      at := StripZeros(buf, start, n);
      assert buf[..at] == buf[..start + 12][..start] + buf[start..at];
    }
  }

  /** The decimal numeral of any 64-bit number. */
  method PutDec(buf: array<char>, start: nat, n: nat) returns (at: nat)
    requires n < WORD * WORD && start + 20 <= buf.Length
    modifies buf
    ensures start < at <= start + 20 && buf[..at] == old(buf[..start]) + Dec(n)
  {
    if n < 100_000_000 {
      at := PutDecTrunc8(buf, start, n);
    } else {
      at := PutLong(buf, start, n);
    }
  }
}
