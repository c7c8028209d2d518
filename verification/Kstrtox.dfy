/** `lib/kstrtox.c`: text to integers, with exact detection of overflow. */
module Kstrtox {

  import opened Machine
  import PrintSpec

  function At(s: string, i: nat): char {
    PrintSpec.At(s, i)
  }

  const OVERFLOW: nat := 0x8000_0000

  datatype Result = Ok(n: int) | Range | Inval

  function DigitVal(c: char): (v: int)
    ensures -1 <= v < 16
  {
    if '0' <= c <= '9' then (c - '0') as int
    else if 'a' <= c <= 'f' then (c - 'a') as int + 10
    else if 'A' <= c <= 'F' then (c - 'A') as int + 10
    else -1
  }

  predicate IsDigitOf(c: char, base: nat) {
    0 <= DigitVal(c) < base
  }

  /** The digits at the head of `s`. */
  function Span(s: string, base: nat): (n: nat)
    ensures n <= |s|
    ensures forall k :: 0 <= k < n ==> IsDigitOf(s[k], base)
    ensures n < |s| ==> !IsDigitOf(s[n], base)
  {
    if s != [] && IsDigitOf(s[0], base) then
      var n := 1 + Span(s[1..], base);
      assert forall k :: 1 <= k < n ==> s[k] == s[1..][k - 1];
      n
    else 0
  }

  function Shifted(v: nat, base: nat, digit: nat): nat {
    v * base + digit
  }

  /** What the digits stand for, however large. */
  function Valued(s: string, base: nat): (v: nat)
    requires forall k :: 0 <= k < |s| ==> IsDigitOf(s[k], base)
  {
    if s == [] then 0 else
      var t := s[..|s| - 1];
      assert IsDigitOf(s[|s| - 1], base) && forall k :: 0 <= k < |t| ==> t[k] == s[k];
      Shifted(Valued(t, base), base, DigitVal(s[|s| - 1]))
  }

  /** The digits that `_parse_integer_limit` reads. */
  function Limited(s: string, base: nat, most: nat): (n: nat)
    ensures n <= |s|
    ensures forall k :: 0 <= k < n ==> IsDigitOf(s[k], base)
  {
    Span(if |s| > most then s[..most] else s, base)
  }

  /** `_parse_integer_fixup_radix`. */
  function FixupRadix(s: string, base: nat): (r: (string, nat))
    ensures base <= 16 ==> r.1 <= 16
    ensures r.1 > 0
  {
    var b := if base != 0 then base
             else if At(s, 0) != '0' then 10
             else if At(s, 1) in {'x', 'X'} && DigitVal(At(s, 2)) >= 0 then 16 else 8;
    (if b == 16 && At(s, 0) == '0' && At(s, 1) in {'x', 'X'} then s[2..] else s, b)
  }

  // ---------------------------------------------------------------- what the functions compute

  /** `_kstrtoull`: all digits, then perhaps a newline, then the end. */
  function Unsigned(s: string, base: nat): (r: Result)
    ensures r.Ok? ==> 0 <= r.n < LONGLONG
  {
    var (t, b) := FixupRadix(s, base);
    var n := Limited(t, b, INT_MAX);
    var v := Valued(t[..n], b);
    if v >= LONGLONG then Range
    else if n == 0 then Inval
    else
      var m := if At(t, n) == '\n' then n + 1 else n;
      if At(t, m) != '\0' then Inval else Ok(v)
  }

  function Kstrtoull(s: string, base: nat): (r: Result)
    ensures r.Ok? ==> 0 <= r.n < LONGLONG
  {
    Unsigned(if At(s, 0) == '+' then s[1..] else s, base)
  }

  function Kstrtoll(s: string, base: nat): (r: Result)
    ensures r.Ok? ==> -(LONGLONG / 2) <= r.n < LONGLONG / 2
  {
    if At(s, 0) == '-' then
      var r := Unsigned(s[1..], base);
      if r.Ok? && r.n > LONGLONG / 2 then Range else if r.Ok? then Ok(-r.n) else r
    else
      var r := Kstrtoull(s, base);
      if r.Ok? && r.n >= LONGLONG / 2 then Range else r
  }

  // ---------------------------------------------------------------- the loop

  lemma {:induction false} MulLe(a: nat, x: nat, y: nat)
    requires x <= y
    ensures x * a <= y * a
  {
    assert y * a == x * a + (y - x) * a;
  }

  /** The test for overflow is exact. */
  lemma {:induction false} Exceeds(v: nat, base: nat, val: nat)
    requires 0 < base <= 16 && val < base && v < LONGLONG
    ensures v < 0x1000_0000_0000_0000 ==> v * base + val < LONGLONG
    ensures v > (LONGLONG - 1 - val) / base <==> v * base + val >= LONGLONG
  {
    var y := LONGLONG - 1 - val;
    var q := y / base;
    assert y == q * base + y % base;
    if v <= q {
      MulLe(base, v, q);
    } else {
      MulLe(base, q + 1, v);
      assert (q + 1) * base == q * base + base;
    }
    if v < 0x1000_0000_0000_0000 {
      MulLe(base, v, 0xfff_ffff_ffff_ffff);
      assert 0xfff_ffff_ffff_ffff * base <= 0xfff_ffff_ffff_ffff * 16;
    }
  }

  /** Wrapping around on the way does not change the low 64 bits. */
  lemma {:induction false} Wraps(v: nat, base: nat, val: nat)
    ensures (v % LONGLONG * base + val) % LONGLONG == (v * base + val) % LONGLONG
  {
    var q, r := v / LONGLONG, v % LONGLONG;
    assert v == q * LONGLONG + r;
    assert v * base == q * base * LONGLONG + r * base by {
      assert (q * LONGLONG + r) * base == q * LONGLONG * base + r * base;
      assert q * LONGLONG * base == q * base * LONGLONG;
    }
    LongTurns(r * base + val, q * base);
  }

  predicate Digits(t: string, base: nat) {
    forall k :: 0 <= k < |t| ==> IsDigitOf(t[k], base)
  }

  /** The test for overflow, on the low 64 bits of the value. */
  predicate Fires(res: nat, base: nat, val: nat)
    requires base > 0 && val < 16
  {
    res >= 0x1000_0000_0000_0000 && res > (LONGLONG - 1 - val) / base
  }

  /** The test for overflow has fired at one of the digits. */
  predicate Flagged(t: string, base: nat)
    requires Digits(t, base)
  {
    t != []
    && var u, c := t[..|t| - 1], t[|t| - 1];
       assert IsDigitOf(c, base) && Digits(u, base);
       Flagged(u, base) || Fires(Valued(u, base) % LONGLONG, base, DigitVal(c))
  }

  lemma {:induction false} TakeDigit(u: string, c: char, base: nat)
    requires Digits(u, base) && IsDigitOf(c, base)
    ensures Digits(u + [c], base) && Valued(u + [c], base) == Valued(u, base) * base + DigitVal(c)
    ensures Flagged(u + [c], base) == (Flagged(u, base) || Fires(Valued(u, base) % LONGLONG, base, DigitVal(c)))
  {
    assert (u + [c])[..|u|] == u && (u + [c])[|u|] == c;
  }

  /** In the bases up to 16 the flag is set exactly if the value does not fit 64 bits. */
  lemma {:induction false} FlagExact(t: string, base: nat)
    requires Digits(t, base) && base <= 16
    ensures Flagged(t, base) <==> Valued(t, base) >= LONGLONG
    decreases |t|
  {
    if t != [] {
      var u, c := t[..|t| - 1], t[|t| - 1];
      assert t == u + [c] && IsDigitOf(c, base) && Digits(u, base);
      FlagExact(u, base);
      TakeDigit(u, c, base);
      ExceedsOrHas(Valued(u, base), base, DigitVal(c));
    }
  }

  lemma {:induction false} ExceedsOrHas(v: nat, base: nat, val: nat)
    requires 0 < base <= 16 && val < base
    ensures v * base + val >= LONGLONG <==> v >= LONGLONG || Fires(v % LONGLONG, base, val)
  {
    if v < LONGLONG {
      Exceeds(v, base, val);
    } else {
      MulLe(v, 1, base);
    }
  }

  function Pow17(k: nat): nat {
    if k == 0 then 1 else 17 * Pow17(k - 1)
  }

  /** "68" and `k` zeros. */
  function Zeros68(k: nat): string {
    if k == 0 then ['6', '8'] else Zeros68(k - 1) + ['0']
  }

  lemma {:induction false} Pow17Up(k: nat)
    requires k <= 13
    ensures Pow17(k) <= Pow17(13)
    decreases 13 - k
  {
    if k < 13 {
      Pow17Up(k + 1);
    }
  }

  lemma {:induction false} Pow17Is()
    ensures Pow17(13) == 9904578032905937
  {
    assert Pow17(4) == 83521;
    assert Pow17(8) == 83521 * 83521;
    assert Pow17(12) == 83521 * 83521 * 83521;
  }

  lemma {:induction false} Small(v: nat, base: nat, val: nat)
    requires v < 0x1000_0000_0000_0000 && base > 0 && val < 16
    ensures !Fires(v % LONGLONG, base, val)
  {}

  lemma {:induction false} Small17(k: nat)
    requires k <= 13
    ensures 110 * Pow17(k) < 0x1000_0000_0000_0000
  {
    Pow17Is();
    Pow17Up(k);
  }

  lemma {:induction false} SixtyEight()
    ensures Digits(Zeros68(0), 17) && Valued(Zeros68(0), 17) == 110 && !Flagged(Zeros68(0), 17)
  {
    TwoDigits('6', '8', 17);
  }

  lemma {:induction false} TwoDigits(c: char, d: char, base: nat)
    requires IsDigitOf(c, base) && IsDigitOf(d, base)
    ensures Digits([c, d], base) && Valued([c, d], base) == DigitVal(c) * base + DigitVal(d) && !Flagged([c, d], base)
  {
    var x, y := DigitVal(c), DigitVal(d);
    assert [] + [c] == [c] && [c] + [d] == [c, d];
    TakeDigit([], c, base);
    TakeDigit([c], d, base);
    assert Valued([c], base) == x by {
      assert 0 * base + x == x;
    }
    Small(0, base, x);
    Small(x, base, y);
  }

  lemma {:induction false} Zeros68Value(k: nat)
    requires k <= 14
    ensures Digits(Zeros68(k), 17) && Valued(Zeros68(k), 17) == 110 * Pow17(k) && !Flagged(Zeros68(k), 17)
  {
    if k == 0 {
      SixtyEight();
    } else {
      var u := Zeros68(k - 1);
      Zeros68Value(k - 1);
      Small17(k - 1);
      Small(Valued(u, 17), 17, 0);
      TakeDigit(u, '0', 17);
    }
  }

  /** In base 17 the test comes too late: "68" and 14 zeros do not fit 64 bits, and the flag is not set. */
  lemma {:induction false} WideBase()
    ensures Digits(Zeros68(14), 17) && Valued(Zeros68(14), 17) >= LONGLONG && !Flagged(Zeros68(14), 17)
  {
    Zeros68Value(14);
    Pow17Is();
  }

  /** What `_parse_integer_limit` keeps of the digits `t`. */
  ghost predicate Keeps(t: string, base: nat, rv: nat, res: nat)
    requires Digits(t, base)
  {
    res == Valued(t, base) % LONGLONG && (|t| <= INT_MAX ==> rv == |t| + if Flagged(t, base) then OVERFLOW else 0)
  }

  /** `rv |= KSTRTOX_OVERFLOW` if need be, and `rv++`. */
  function Counted(rv: nat, fires: bool): nat {
    ((if fires && rv < OVERFLOW then rv + OVERFLOW else rv) + 1) % WORD
  }

  lemma {:induction false} CountedIs(n: nat, flagged: bool, fires: bool)
    requires n < INT_MAX
    ensures Counted(n + (if flagged then OVERFLOW else 0), fires) == n + 1 + if flagged || fires then OVERFLOW else 0
  {}

  lemma {:induction false} KeepsMore(u: string, c: char, base: nat, rv: nat, res: nat)
    requires Digits(u, base) && IsDigitOf(c, base) && Keeps(u, base, rv, res)
    ensures var val := DigitVal(c);
      Digits(u + [c], base)
      && Keeps(u + [c], base, Counted(rv, Fires(res, base, val)), (res * base + val) % LONGLONG)
  {
    TakeDigit(u, c, base);
    Wraps(Valued(u, base), base, DigitVal(c));
    if |u| < INT_MAX {
      CountedIs(|u|, Flagged(u, base), Fires(res, base, DigitVal(c)));
    }
  }

  /** One digit of `_parse_integer_limit`. */
  method PushDigit(rv0: nat, res0: nat, base: nat, c: char, ghost t: string) returns (rv: nat, res: nat)
    requires Digits(t, base) && IsDigitOf(c, base) && Keeps(t, base, rv0, res0)
    ensures Digits(t + [c], base) && Keeps(t + [c], base, rv, res)
  {
    var val := DigitVal(c);
    rv := Counted(rv0, Fires(res0, base, val));
    res := (res0 * base + val) % LONGLONG;
    KeepsMore(t, c, base, rv0, res0);
  }

  lemma {:induction false} DigitsMore(t: string, i: nat, base: nat)
    requires i < |t| && Digits(t[..i], base) && IsDigitOf(t[i], base)
    ensures t[..i] + [t[i]] == t[..i + 1] && Digits(t[..i + 1], base)
  {}

  lemma {:induction false} SpanEnds(t: string, i: nat, base: nat)
    requires i <= |t| && Digits(t[..i], base) && (i < |t| ==> !IsDigitOf(t[i], base))
    ensures Span(t, base) == i
  {
    assert forall k :: 0 <= k < i ==> t[k] == t[..i][k];
  }

  /** `_parse_integer_limit`, in any base: the number of digits, the low 64 bits of their value, and in `rv` the flag
      for overflow, unless there are too many digits to count beside it. */
  method ParseIntegerLimit(s: string, base: nat, most: nat) returns (rv: nat, res: nat)
    ensures var n := Limited(s, base, most);
      res == Valued(s[..n], base) % LONGLONG
      && (n <= INT_MAX ==> rv == n + if Flagged(s[..n], base) then OVERFLOW else 0)
    ensures var n := Limited(s, base, most);
      base <= 16 && n <= INT_MAX ==> rv == n + if Valued(s[..n], base) >= LONGLONG then OVERFLOW else 0
  {
    ghost var i;
    rv, res, i := ReadDigits(s, base, most);
    if base <= 16 {
      FlagExact(s[..i], base);
    }
  }

  /** The loop. */
  method ReadDigits(s: string, base: nat, most: nat) returns (rv: nat, res: nat, ghost n: nat)
    ensures n == Limited(s, base, most) && Digits(s[..n], base) && Keeps(s[..n], base, rv, res)
  {
    res, rv := 0, 0;
    var i := 0;
    ghost var t := if |s| > most then s[..most] else s;
    assert t[..0] == [];
    while i < most && i < |s| && IsDigitOf(s[i], base)
      invariant 0 <= i <= |t| && Digits(t[..i], base) && Keeps(t[..i], base, rv, res)
    {
      DigitsMore(t, i, base);
      rv, res := PushDigit(rv, res, base, s[i], t[..i]);
      i := i + 1;
    }
    SpanEnds(t, i, base);
    assert t[..i] == s[..i];
    n := i;
  }

  /** `_kstrtoull`. */
  method ParseUnsigned(s: string, base: nat) returns (r: Result)
    requires base <= 16
    ensures r == Unsigned(s, base)
  {
    var (t, b) := FixupRadix(s, base);
    var rv, res := ParseIntegerLimit(t, b, INT_MAX);
    if rv >= OVERFLOW {
      return Range;
    }
    if rv == 0 {
      return Inval;
    }
    var end := rv;
    if At(t, end) == '\n' {
      end := end + 1;
    }
    if At(t, end) != '\0' {
      return Inval;
    }
    r := Ok(res);
  }

  method ParseKstrtoull(s: string, base: nat) returns (r: Result)
    requires base <= 16
    ensures r == Kstrtoull(s, base)
  {
    r := ParseUnsigned(if At(s, 0) == '+' then s[1..] else s, base);
  }

  method ParseKstrtoll(s: string, base: nat) returns (r: Result)
    requires base <= 16
    ensures r == Kstrtoll(s, base)
  {
    if At(s, 0) == '-' {
      r := ParseUnsigned(s[1..], base);
      if !r.Ok? {
        return;
      }
      var negated := (LONGLONG - r.n) % LONGLONG;
      if 0 < negated < LONGLONG / 2 {
        return Range;
      }
      r := Ok(if negated == 0 then 0 else negated - LONGLONG);
    } else {
      r := ParseKstrtoull(s, base);
      if r.Ok? && r.n >= LONGLONG / 2 {
        return Range;
      }
    }
  }
}
