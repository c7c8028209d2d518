/** What a conversion of any integer type prints parses back to the argument, reduced to that type. */
module TypedRoundTrip {

  import opened Machine
  import opened PrintSpec
  import opened Kstrtox
  import opened RoundTrip
  import opened PrintTexts
  import opened PrintMeaning
  import F = PrintFormat

  type Pointer = (string, Arg, Spec) -> string

  /** A conversion without width and precision. */
  function Simple(flags: string, z: F.Size, x: char): F.Item {
    F.Conversion(flags, F.Absent, F.Absent, z, x)
  }

  lemma {:induction false} OnePrints(pointer: Pointer, flags: string, z: F.Size, x: char, n: int)
    requires (forall k :: 0 <= k < |flags| ==> flags[k] in "-+ #0") && x in "diuoxX"
    ensures Output(pointer, F.Spelt(Simple(flags, z, x)), START, [Num(n)])
      == F.Integer(F.Typed(z, x in "di", n), flags, '-' in flags, 0, -1, x)
  {
    var c := Simple(flags, z, x);
    assert [c][1..] == [] && [Num(n)][1..] == [];
    var t := F.Spelt(c);
    assert F.SpeltAll([c]) == t + "" == t;
    FormatMeans(pointer, [c], [Num(n)]);
    var m := F.Meaning(c, [Num(n)]);
    assert F.AllMean([c], [Num(n)]) == m + "" == m;
  }

  /** Nothing is filled up. */
  lemma {:induction false} BareLaid(head: string, digits: string)
    ensures F.Laid(head, F.Body(digits, -1), false, false, 0) == head + digits
  {
    FillRepeats('0', -1 - |digits|);
    assert F.Body(digits, -1) == digits;
    FillRepeats(' ', 0 - |head + digits|);
    assert "" + (head + digits) == head + digits;
  }

  lemma {:induction false} BareInteger(v: int, flags: string, x: char)
    requires '0' !in flags && x in "diuoxX"
    ensures F.Integer(v, flags, false, 0, -1, x)
      == ((if x in "di" then F.SignText(v, flags) else "") + (if '#' in flags then F.PrefixText(v, x) else ""))
         + Plain(if v < 0 then -v else v, BaseOf(x), x == 'x')
  {
    var sign := if x in "di" then F.SignText(v, flags) else "";
    var prefix := if '#' in flags then F.PrefixText(v, x) else "";
    var m := if v < 0 then -v else v;
    NumeralMeans(m, BaseOf(x), x == 'x', x == 'X');
    BareLaid(sign + prefix, F.Numeral(m, BaseOf(x), x == 'X'));
  }

  /** `%d` and `%i`, of every size. */
  lemma {:induction false} SignedTrip(pointer: Pointer, z: F.Size, x: char, n: int)
    requires x in "di"
    ensures Kstrtoll(Output(pointer, F.Spelt(Simple("", z, x)), START, [Num(n)]), 0) == Ok(F.Typed(z, true, n))
  {
    var v := F.Typed(z, true, n);
    OnePrints(pointer, "", z, x, n);
    BareInteger(v, "", x);
    ValueMeans(z, x, n);
    SignedBack(v);
  }

  lemma {:induction false} SignedBack(v: int)
    requires -(LONGLONG / 2) <= v < LONGLONG / 2
    ensures Kstrtoll((F.SignText(v, "") + "") + Plain(if v < 0 then -v else v, 10, false), 0) == Ok(v)
  {
    SignedParses(v);
    assert F.SignText(v, "") + "" == if v < 0 then "-" else "";
    Unit(Plain(if v < 0 then -v else v, 10, false));
  }

  /** `%u`. */
  lemma {:induction false} UnsignedTrip(pointer: Pointer, z: F.Size, n: int)
    ensures Kstrtoull(Output(pointer, F.Spelt(Simple("", z, 'u')), START, [Num(n)]), 0) == Ok(F.Typed(z, false, n))
  {
    var v := F.Typed(z, false, n);
    OnePrints(pointer, "", z, 'u', n);
    BareInteger(v, "", 'u');
    Unit(Plain(v, 10, false));
    ValueMeans(z, 'u', n);
    DecimalParses(v);
  }

  /** `%#o`. */
  lemma {:induction false} OctalTrip(pointer: Pointer, z: F.Size, n: int)
    ensures Kstrtoull(Output(pointer, F.Spelt(Simple("#", z, 'o')), START, [Num(n)]), 0) == Ok(F.Typed(z, false, n))
  {
    var v := F.Typed(z, false, n);
    OnePrints(pointer, "#", z, 'o', n);
    BareInteger(v, "#", 'o');
    ValueMeans(z, 'o', n);
    OctalBack(v);
  }

  lemma {:induction false} OctalBack(v: nat)
    requires v < LONGLONG
    ensures Kstrtoull(("" + F.PrefixText(v, 'o')) + Plain(v, 8, false), 0) == Ok(v)
  {
    OctalParses(v);
    Unit(F.PrefixText(v, 'o'));
    Unsigned8(F.PrefixText(v, 'o') + Plain(v, 8, false), v);
  }

  /** `%#x` and `%#X`. */
  lemma {:induction false} HexTrip(pointer: Pointer, z: F.Size, x: char, n: int)
    requires x in "xX"
    ensures Kstrtoull(Output(pointer, F.Spelt(Simple("#", z, x)), START, [Num(n)]), 0) == Ok(F.Typed(z, false, n))
  {
    var v := F.Typed(z, false, n);
    OnePrints(pointer, "#", z, x, n);
    BareInteger(v, "#", x);
    ValueMeans(z, x, n);
    HexBack(v, x);
  }

  lemma {:induction false} HexBack(v: nat, x: char)
    requires x in "xX" && v < LONGLONG
    ensures Kstrtoull(("" + F.PrefixText(v, x)) + Plain(v, 16, x == 'x'), 0) == Ok(v)
  {
    var small := x == 'x';
    HexParses(v, small);
    assert "" + F.PrefixText(v, x) == ['0', if small then 'x' else 'X'];
  }

  /** A number that the type holds stays as it is. */
  lemma {:induction false} TypedKeeps(z: F.Size, n: int)
    ensures -(F.Values(z) / 2) <= n < F.Values(z) / 2 ==> F.Typed(z, true, n) == n
    ensures z != F.T && 0 <= n < F.Values(z) ==> F.Typed(z, false, n) == n
  {
    var m := F.Values(z);
    if -(m / 2) <= n < m / 2 {
      ModIs(n + m / 2, m, 0, n + m / 2);
    }
    if 0 <= n < m {
      ModIs(n, m, 0, n);
    }
  }

  lemma {:induction false} Spellings()
    ensures F.Spelt(Simple("", F.Plain, 'd')) == "%d" && F.Spelt(Simple("", F.Plain, 'i')) == "%i"
    ensures F.Spelt(Simple("", F.HH, 'd')) == "%hhd" && F.Spelt(Simple("", F.H, 'u')) == "%hu"
    ensures F.Spelt(Simple("#", F.L, 'x')) == "%#lx" && F.Spelt(Simple("#", F.Z, 'o')) == "%#zo"
    ensures F.Spelt(Simple("", F.T, 'd')) == "%td"
  {}
}
