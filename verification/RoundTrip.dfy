/** Printing with `vsnprintf` and parsing with `kstrtoull` or `kstrtoll` in base 0 gives back every 64-bit
    number. */
module RoundTrip {

  import opened PrintSpec
  import opened Kstrtox
  import opened Decimal
  import opened Machine

  /** A numeral as it is read, the highest digit first. */
  function Plain(n: nat, b: nat, small: bool): (t: string)
    requires Base(b)
    ensures |t| >= 1
  {
    Reversed(Numeral(n, b, small))
  }

  lemma {:induction false} GlyphVal(x: nat, small: bool)
    requires x < 16
    ensures DigitVal(Glyph(x, small)) == x
  {}

  lemma {:induction false} ReversedStep(c: char, t: string)
    ensures Reversed([c] + t) == Reversed(t) + [c]
  {}

  lemma {:induction false} PlainStep(n: nat, b: nat, small: bool)
    requires Base(b) && n >= b
    ensures Plain(n, b, small) == Plain(n / b, b, small) + [Glyph(n % b, small)]
  {
    ReversedStep(Glyph(n % b, small), Numeral(n / b, b, small));
  }

  /** A numeral is all digits and stands for its number. */
  lemma {:induction false} PlainValue(n: nat, b: nat, small: bool)
    requires Base(b)
    ensures var t := Plain(n, b, small);
      (forall k :: 0 <= k < |t| ==> IsDigitOf(t[k], b)) && Valued(t, b) == n
  {
    var t := Plain(n, b, small);
    if n < b {
      GlyphVal(n, small);
      assert t == [Glyph(n, small)];
      assert t[..0] == [];
    } else {
      PlainStep(n, b, small);
      PlainValue(n / b, b, small);
      GlyphVal(n % b, small);
      var u := Plain(n / b, b, small);
      assert t[..|t| - 1] == u;
      assert forall k :: 0 <= k < |t| - 1 ==> t[k] == u[k];
      assert n == n / b * b + n % b;
    }
  }

  /** Only zero begins with the digit zero. */
  lemma {:induction false} PlainHead(n: nat, b: nat, small: bool)
    requires Base(b)
    ensures Plain(n, b, small)[0] == '0' <==> n == 0
    ensures IsDigitOf(Plain(n, b, small)[0], b)
  {
    var t := Plain(n, b, small);
    if n < b {
      GlyphVal(n, small);
      assert t == [Glyph(n, small)];
    } else {
      PlainStep(n, b, small);
      PlainHead(n / b, b, small);
    }
  }

  lemma {:induction false} SpanAll(t: string, b: nat)
    requires forall k :: 0 <= k < |t| ==> IsDigitOf(t[k], b)
    ensures Span(t, b) == |t|
  {}

  lemma {:induction false} PlainLength(n: nat, b: nat, small: bool, k: nat)
    requires Base(b) && n < Pow8(k) && k > 0
    ensures |Plain(n, b, small)| <= k
  {
    if n >= b {
      assert Pow8(k) == 8 * Pow8(k - 1);
      if b == 8 {
        assert n / 8 < Pow8(k - 1);
      } else if b == 10 {
        assert n / 10 < Pow8(k - 1);
      } else {
        assert n / 16 < Pow8(k - 1);
      }
      PlainLength(n / b, b, small, k - 1);
    }
  }

  /** Digits alone parse to their value. */
  lemma {:induction false} ParsesDigits(s: string, base: nat, t: string, b: nat)
    requires FixupRadix(s, base) == (t, b) && 0 < |t| <= INT_MAX
    requires (forall k :: 0 <= k < |t| ==> IsDigitOf(t[k], b)) && Valued(t, b) < LONGLONG
    ensures Unsigned(s, base) == Ok(Valued(t, b))
  {
    SpanAll(t, b);
    assert t[..|t|] == t;
  }

  lemma {:induction false} PlainParses(s: string, base: nat, n: nat, b: nat, small: bool)
    requires Base(b) && n < LONGLONG && FixupRadix(s, base) == (Plain(n, b, small), b)
    ensures Unsigned(s, base) == Ok(n)
  {
    PlainValue(n, b, small);
    Octals();
    PlainLength(n, b, small, 22);
    ParsesDigits(s, base, Plain(n, b, small), b);
  }

  // ---------------------------------------------------------------- base 0 finds the base of each form

  lemma {:induction false} DecimalParses(n: nat)
    requires n < LONGLONG
    ensures Unsigned(Plain(n, 10, false), 0) == Ok(n) && Plain(n, 10, false)[0] !in {'+', '-'}
  {
    var s := Plain(n, 10, false);
    PlainHead(n, 10, false);
    if n == 0 {
      assert s == Plain(0, 8, false);
      PlainParses(s, 0, n, 8, false);
    } else {
      PlainParses(s, 0, n, 10, false);
    }
  }

  lemma {:induction false} OctalParses(n: nat)
    requires n < LONGLONG
    ensures Unsigned((if n == 0 then "" else "0") + Plain(n, 8, false), 0) == Ok(n)
  {
    var t := Plain(n, 8, false);
    PlainHead(n, 8, false);
    if n == 0 {
      assert "" + t == t;
      PlainParses(t, 0, n, 8, false);
    } else {
      PlainValue(n, 8, false);
      Octals();
      PlainLength(n, 8, false, 22);
      LeadingZero(t);
      OctalRadix(t);
      ParsesDigits("0" + t, 0, "0" + t, 8);
    }
  }

  lemma {:induction false} OctalRadix(t: string)
    requires t != [] && IsDigitOf(t[0], 8)
    ensures FixupRadix("0" + t, 0) == ("0" + t, 8)
  {
    assert ("0" + t)[1] == t[0];
  }

  /** A zero in front changes nothing. */
  lemma {:induction false} LeadingZero(t: string)
    requires forall k :: 0 <= k < |t| ==> IsDigitOf(t[k], 8)
    ensures forall k :: 0 <= k < |t| + 1 ==> IsDigitOf(("0" + t)[k], 8)
    ensures Valued("0" + t, 8) == Valued(t, 8)
  {
    var s := "0" + t;
    assert forall k :: 1 <= k < |s| ==> s[k] == t[k - 1];
    if t == [] {
      assert s[..0] == [];
    } else {
      LeadingZero(t[..|t| - 1]);
      assert s[..|s| - 1] == "0" + t[..|t| - 1];
    }
  }

  lemma {:induction false} HexParses(n: nat, small: bool)
    requires n < LONGLONG
    ensures Unsigned(['0', if small then 'x' else 'X'] + Plain(n, 16, small), 0) == Ok(n)
  {
    var t := Plain(n, 16, small);
    var s := ['0', if small then 'x' else 'X'] + t;
    PlainHead(n, 16, small);
    assert s[2..] == t && s[2] == t[0];
    PlainParses(s, 0, n, 16, small);
  }

  // ---------------------------------------------------------------- from the format on

  /** A conversion without width, precision and filling. */
  function Bare(kind: Kind, f: Flags, base: nat): Spec {
    Spec(kind, -1, f, base, -1)
  }

  lemma {:induction false} BareParts(f: Flags, room: int, sign: string, prefix: string, digits: string)
    requires !f.left && !f.zeropad && room < 0
    ensures Lead(f, room, sign, prefix) + Trail(f, room, 0, digits) == sign + (prefix + Reversed(digits))
  {
    assert Lead(f, room, sign, prefix) == sign + prefix;
    assert Trail(f, room, 0, digits) == Reversed(digits);
    assert (sign + prefix) + Reversed(digits) == sign + (prefix + Reversed(digits));
  }

  lemma {:induction false} BareText(num: nat, kind: Kind, f: Flags, base: nat)
    requires num < LONGLONG && Base(base) && !f.left && !f.zeropad
    ensures NumberText(num, Bare(kind, f, base))
      == SignOf(num, f) + (PrefixOf(num, base, f) + Plain(Magnitude(num, f), base, f.small))
  {
    var sign, prefix, digits := SignOf(num, f), PrefixOf(num, base, f), Numeral(Magnitude(num, f), base, f.small);
    BareParts(f, -1 - |sign| - |prefix| - |digits|, sign, prefix, digits);
  }

  /** A format that is nothing but this conversion. */
  ghost predicate Converts(fmt: string, f: Flags, base: nat) {
    fmt != [] && Decode(fmt, START) == (Bare(LongLong, f, base), |fmt|)
  }

  lemma {:induction false} Formats()
    ensures Converts("%llu", NO_FLAGS, 10)
    ensures Converts("%#llo", NO_FLAGS.(special := true), 8)
    ensures Converts("%#llx", NO_FLAGS.(special := true, small := true), 16)
    ensures Converts("%#llX", NO_FLAGS.(special := true), 16)
    ensures Converts("%lld", NO_FLAGS.(sign := true), 10)
  {}

  lemma {:induction false} OneConversion(pointer: (string, Arg, Spec) -> string, fmt: string, f: Flags, base: nat,
      n: int)
    requires Converts(fmt, f, base) && Base(base)
    ensures Output(pointer, fmt, START, [Num(n)]) == NumberText(n % LONGLONG, Bare(LongLong, f, base))
  {
    assert fmt[|fmt|..] == [];
    Residue(n);
    var t := NumberText(n % LONGLONG, Bare(LongLong, f, base));
    assert t + [] == t;
  }

  lemma {:induction false} Residue(n: int)
    ensures Integer(LongLong, true, n) == n % LONGLONG == Integer(LongLong, false, n)
  {}

  lemma {:induction false} Printed(pointer: (string, Arg, Spec) -> string, fmt: string, f: Flags, base: nat, n: int,
      num: nat)
    requires Converts(fmt, f, base) && Base(base) && !f.left && !f.zeropad && num == n % LONGLONG
    ensures Output(pointer, fmt, START, [Num(n)])
      == SignOf(num, f) + (PrefixOf(num, base, f) + Plain(Magnitude(num, f), base, f.small))
  {
    OneConversion(pointer, fmt, f, base, n);
    BareText(num, LongLong, f, base);
  }

  // ---------------------------------------------------------------- the round trips

  lemma {:induction false} Unit(t: string)
    ensures "" + t == t
  {}

  /** Decimal, parsed in base 0. */
  lemma {:induction false} DecimalRoundTrip(pointer: (string, Arg, Spec) -> string, fmt: string, n: nat)
    requires n < LONGLONG && Converts(fmt, NO_FLAGS, 10)
    ensures Kstrtoull(Output(pointer, fmt, START, [Num(n)]), 0) == Ok(n)
  {
    Printed(pointer, fmt, NO_FLAGS, 10, n, n);
    DecimalParses(n);
    Unit(Plain(n, 10, false));
  }

  /** Octal with its prefix, parsed in base 0. */
  lemma {:induction false} OctalRoundTrip(pointer: (string, Arg, Spec) -> string, fmt: string, n: nat)
    requires n < LONGLONG && Converts(fmt, NO_FLAGS.(special := true), 8)
    ensures Kstrtoull(Output(pointer, fmt, START, [Num(n)]), 0) == Ok(n)
  {
    Printed(pointer, fmt, NO_FLAGS.(special := true), 8, n, n);
    var t := (if n == 0 then "" else "0") + Plain(n, 8, false);
    OctalParses(n);
    Unit(t);
    Unsigned8(t, n);
  }

  lemma {:induction false} Unsigned8(t: string, n: nat)
    requires t == (if n == 0 then "" else "0") + Plain(n, 8, false)
    ensures t[0] != '+'
  {
    PlainHead(n, 8, false);
  }

  /** Hexadecimal with its prefix, in small letters or capitals, parsed in base 0. */
  lemma {:induction false} HexRoundTrip(pointer: (string, Arg, Spec) -> string, fmt: string, n: nat, small: bool)
    requires n < LONGLONG && Converts(fmt, NO_FLAGS.(special := true, small := small), 16)
    ensures Kstrtoull(Output(pointer, fmt, START, [Num(n)]), 0) == Ok(n)
  {
    Printed(pointer, fmt, NO_FLAGS.(special := true, small := small), 16, n, n);
    HexParses(n, small);
    Unit(['0', if small then 'x' else 'X'] + Plain(n, 16, small));
  }

  lemma {:induction false} SignedParses(n: int)
    requires -(LONGLONG / 2) <= n < LONGLONG / 2
    ensures Kstrtoll(if n < 0 then "-" + Plain(-n, 10, false) else Plain(n, 10, false), 0) == Ok(n)
  {
    var m := if n < 0 then -n else n;
    var t := Plain(m, 10, false);
    DecimalParses(m);
    assert ("-" + t)[1..] == t;
  }

  /** Signed decimal, parsed in base 0, the least number included. */
  lemma {:induction false} SignedRoundTrip(pointer: (string, Arg, Spec) -> string, fmt: string, n: int)
    requires -(LONGLONG / 2) <= n < LONGLONG / 2 && Converts(fmt, NO_FLAGS.(sign := true), 10)
    ensures Kstrtoll(Output(pointer, fmt, START, [Num(n)]), 0) == Ok(n)
  {
    var f := NO_FLAGS.(sign := true);
    var num := if n >= 0 then n else n + LONGLONG;
    var t := Plain(if n < 0 then -n else n, 10, false);
    Printed(pointer, fmt, f, 10, n, num);
    assert Magnitude(num, f) == if n < 0 then -n else n;
    Unit(t);
    SignedParses(n);
  }
}
