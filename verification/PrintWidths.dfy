/** Widths and precisions of `lib/vsprintf.c`. They are kept in signed bit fields of 24 and 16 bits, so not every
    one that is asked for is used; here is exactly which are. */
module PrintWidths {

  import opened Machine
  import opened PrintSpec
  import RoundTrip

  function Max(a: int, b: int): int {
    if a < b then b else a
  }

  function Min(a: int, b: int): int {
    if a < b then a else b
  }

  function Abs(n: int): int {
    if n < 0 then -n else n
  }

  /** The least value of a 24-bit field, which has no positive counterpart. */
  const WIDTH_MIN: int := -0x80_0000

  lemma {:induction false} PrecisionBits(n: nat)
    ensures Max(0, Bits(n, PRECISIONS)) == n <==> n <= PRECISION_MAX
  {
    if n > PRECISION_MAX {
      assert Bits(n, PRECISIONS) <= PRECISION_MAX;
    }
  }

  /** What `set_field_width` stores, and what becomes of it when it is negated. */
  lemma {:induction false} ArgumentBits(spec: Spec, n: int)
    ensures var w := SetWidth(spec, n).width;
      (w < 0 <==> n < 0)
      && (if n == WIDTH_MIN then w == n && Bits(-w, WIDTHS) == n else Abs(w) == Min(Abs(n), WIDTH_MAX))
      && (n != WIDTH_MIN ==> Bits(Abs(w), WIDTHS) == Abs(w))
  {
    assert Bits(n, WIDTHS) == n <==> WIDTH_MIN <= n <= WIDTH_MAX;
  }

  lemma {:induction false} ArgumentPrecisionBits(spec: Spec, n: int)
    ensures Max(0, SetPrecision(spec, n).precision) == Max(0, Min(n, PRECISION_MAX))
  {
    assert Bits(n, PRECISIONS) == n <==> -0x8000 <= n <= PRECISION_MAX;
  }

  // ---------------------------------------------------------------- what the format asks for

  /** A conversion comes next in `fmt`, and the width written in it is `n`. */
  predicate Writes(fmt: string, n: nat) {
    fmt != [] && fmt[0] == '%'
    && var i := ReadFlags(fmt, 1, NO_FLAGS).1;
       IsDigit(At(fmt, i)) && ReadNumber(fmt, i, 0).0 == n
  }

  /** A width written in the format is kept exactly if it is less than 2^23. */
  lemma {:induction false} WrittenWidth(fmt: string, spec: Spec, n: nat)
    requires Writes(fmt, n) && spec.kind !in {Width, Precision}
    ensures var w := Decode(fmt, spec).0.width;
      w == Bits(n, WIDTHS) && (w == n <==> n <= WIDTH_MAX)
  {}

  /** Where the precision of a conversion is looked for. */
  function PrecisionAt(fmt: string, spec: Spec): nat
    requires fmt != []
  {
    if spec.kind == Width then 0
    else
      var i := ReadFlags(fmt, 1, NO_FLAGS).1;
      if IsDigit(At(fmt, i)) then ReadNumber(fmt, i, 0).1 else i
  }

  /** The precision written in the conversion that comes next, or is being read, is `n`. */
  predicate WritesPrecision(fmt: string, spec: Spec, n: nat) {
    fmt != [] && spec.kind != Precision && (spec.kind == Width || fmt[0] == '%')
    && var i := PrecisionAt(fmt, spec);
       At(fmt, i) == '.' && IsDigit(At(fmt, i + 1)) && ReadNumber(fmt, i + 1, 0).0 == n
  }

  /** A precision written in the format is kept exactly if it is less than 2^15; 2^15 becomes 0. */
  lemma {:induction false} WrittenPrecision(fmt: string, spec: Spec, n: nat)
    requires WritesPrecision(fmt, spec, n)
    ensures var p := Decode(fmt, spec).0.precision;
      p == Max(0, Bits(n, PRECISIONS)) && (p == n <==> n <= PRECISION_MAX)
  {
    PrecisionBits(n);
    var i := PrecisionAt(fmt, spec);
    assert spec.kind != Width ==> Literal(fmt, 0) == 0;
    var s := if spec.kind == Width then Decode(fmt, spec).0 else spec;
    assert Decode(fmt, spec).0.precision == Precised(fmt, i, s).0.precision;
  }

  /** An `int` is used as a width by its magnitude, `WIDTH_MAX` at most and to the left if it is negative; all but
      one of them. */
  lemma {:induction false} ArgumentWidth(fmt: string, spec: Spec, n: int)
    requires fmt != [] && spec.kind == Width
    ensures var s := Decode(fmt, SetWidth(spec, n)).0;
      s.flags.left == (spec.flags.left || n < 0)
      && (s.width == Min(Abs(n), WIDTH_MAX) <==> n != WIDTH_MIN) && (n == WIDTH_MIN ==> s.width == n)
  {
    ArgumentBits(spec, n);
  }

  /** An `int` is used as a precision between 0 and `PRECISION_MAX`. */
  lemma {:induction false} ArgumentPrecision(fmt: string, spec: Spec, n: int)
    requires fmt != [] && spec.kind == Precision
    ensures Decode(fmt, SetPrecision(spec, n)).0.precision == Max(0, Min(n, PRECISION_MAX))
  {
    ArgumentPrecisionBits(spec, n);
  }

  // ---------------------------------------------------------------- what is printed

  lemma {:induction false} NumberLength(num: nat, spec: Spec)
    requires num < LONGLONG && Base(spec.base)
    ensures |NumberText(num, spec)| == Max(spec.width, |NumberText(num, spec.(width := 0))|)
  {}

  /** Without a width a number is short. */
  lemma {:induction false} NumberShort(num: nat, spec: Spec)
    requires num < LONGLONG && Base(spec.base) && spec.precision <= PRECISION_MAX
    ensures |NumberText(num, spec.(width := 0))| <= PRECISION_MAX + 3
  {
    Octals();
    RoundTrip.PlainLength(Magnitude(num, spec.flags), spec.base, spec.flags.small, 22);
  }

  lemma {:induction false} WidenedLength(t: string, spec: Spec)
    ensures |Widened(t, spec)| == Max(spec.width, |t|)
  {}

  /** A character is filled up to the width except for the two least values of the field. */
  lemma {:induction false} CharLength(c: char, spec: Spec)
    requires WIDTH_MIN <= spec.width <= WIDTH_MAX
    ensures |CharText(c, spec)| == Max(spec.width, 1) <==>
      spec.width != WIDTH_MIN && (spec.width == WIDTH_MIN + 1 ==> spec.flags.left)
    ensures spec.width == WIDTH_MIN ==> |CharText(c, spec)| == WIDTH_MAX + 1
    ensures spec.width == WIDTH_MIN + 1 ==> |CharText(c, spec)| == if spec.flags.left then 1 else WIDTH_MAX + 1
  {}

  /** The conversions that have a width. */
  predicate Wide(k: Kind) {
    k !in {None, Width, Precision, Ptr, Percent, Invalid}
  }

  /** The length of what `s` prints when no width is asked for. */
  function Own(s: Spec, a: Arg): nat
    requires Wide(s.kind) && Base(s.base)
  {
    |Piece((r, x, y) => "", s.(width := 0), "", "", a)|
  }

  /** What a conversion with that width in its field is filled up to. */
  function Filled(kind: Kind, left: bool, width: int, own: nat): int {
    if kind != Char || width > WIDTH_MIN + 1 then Max(width, own)
    else if width == WIDTH_MIN + 1 && left then 1 else WIDTH_MAX + 1
  }

  lemma {:induction false} WrittenExact(kind: Kind, left: bool, n: nat, own: nat)
    requires if kind == Char then own == 1 else kind != Str ==> own <= PRECISION_MAX + 3
    ensures Filled(kind, left, Bits(n, WIDTHS), own) == Max(n, own) <==>
      n <= WIDTH_MAX || (kind == Str && n <= own) || (kind == Char && n == WIDTH_MAX + 1)
  {
    if n > WIDTH_MAX {
      assert Bits(n, WIDTHS) <= WIDTH_MAX;
    }
  }

  lemma {:induction false} ArgumentExact(kind: Kind, left: bool, n: int, width: int, own: nat)
    requires if kind == Char then own == 1 else kind != Str ==> own <= PRECISION_MAX + 3
    requires if n == WIDTH_MIN then width == n && left else width == Min(Abs(n), WIDTH_MAX)
    ensures Filled(kind, left, width, own) == Max(Min(Abs(n), WIDTH_MAX), own) <==>
      n != WIDTH_MIN || (kind == Str && WIDTH_MAX <= own)
  {}

  /** The length of what is printed, when the width in the field is `s.width`. */
  lemma {:induction false} PieceLength(pointer: (string, Arg, Spec) -> string, s: Spec, literal: string, rest: string,
      a: Arg)
    requires Wide(s.kind) && Base(s.base) && WIDTH_MIN <= s.width <= WIDTH_MAX && s.precision <= PRECISION_MAX
    ensures s.kind == Char ==> Own(s, a) == 1
    ensures s.kind !in {Char, Str} ==> Own(s, a) <= PRECISION_MAX + 3
    ensures |Piece(pointer, s, literal, rest, a)| == Filled(s.kind, s.flags.left, s.width, Own(s, a))
  {
    if s.kind == Char {
      CharLength((IntOf(a) % 256) as char, s);
    } else if s.kind == Str {
    } else {
      NumberLength(Integer(s.kind, s.flags.sign, IntOf(a)), s);
      NumberShort(Integer(s.kind, s.flags.sign, IntOf(a)), s);
    }
  }

  /** A format that is one conversion. */
  lemma {:induction false} OneConversion(pointer: (string, Arg, Spec) -> string, fmt: string, spec: Spec, a: Arg)
    requires fmt != [] && Decode(fmt, spec).1 == |fmt| && Wide(Decode(fmt, spec).0.kind)
    ensures Output(pointer, fmt, spec, [a]) == Piece(pointer, Decode(fmt, spec).0, fmt, "", a)
  {
    var s := Decode(fmt, spec).0;
    assert fmt[|fmt|..] == [] && fmt[..|fmt|] == fmt;
    assert Output(pointer, NextFormat(s, []), NextSpec(s, a), NextArgs(s, [a])) == [];
  }

  /** A format that is one conversion with `*` for its width. */
  lemma {:induction false} StarConversion(pointer: (string, Arg, Spec) -> string, fmt: string, n: int, a: Arg)
    requires fmt != [] && Decode(fmt, START).0.kind == Width && Bits(n, WORD) == n
    requires var (w, k) := Decode(fmt, START);
      k < |fmt| && var r := Decode(fmt[k..], SetWidth(w, n)); r.1 == |fmt[k..]| && Wide(r.0.kind)
    ensures var (w, k) := Decode(fmt, START);
      Output(pointer, fmt, START, [Num(n), a])
      == Piece(pointer, Decode(fmt[k..], SetWidth(w, n)).0, fmt[k..], "", a)
  {
    var (w, k) := Decode(fmt, START);
    assert [Num(n), a][1..] == [a];
    assert Output(pointer, fmt, START, [Num(n), a]) == Output(pointer, fmt[k..], SetWidth(w, n), [a]);
    OneConversion(pointer, fmt[k..], SetWidth(w, n), a);
  }

  /** The precision of a conversion that is complete. */
  lemma {:induction false} PrecisionBound(fmt: string, spec: Spec)
    requires fmt != [] && spec.precision <= PRECISION_MAX && Decode(fmt, spec).0.kind != None
    ensures Decode(fmt, spec).0.precision <= PRECISION_MAX
  {}

  /** A written width is filled up exactly if it is less than 2^23, or the string is as long by itself, or it is the
      2^23 of a character. */
  lemma {:induction false} WrittenFilled(pointer: (string, Arg, Spec) -> string, fmt: string, n: nat, a: Arg)
    requires Writes(fmt, n) && Decode(fmt, START).1 == |fmt| && Wide(Decode(fmt, START).0.kind)
    ensures var s := Decode(fmt, START).0;
      |Output(pointer, fmt, START, [a])| == Max(n, Own(s, a)) <==>
        n <= WIDTH_MAX || (s.kind == Str && n <= Own(s, a)) || (s.kind == Char && n == WIDTH_MAX + 1)
  {
    var s := Decode(fmt, START).0;
    WrittenWidth(fmt, START, n);
    PrecisionBound(fmt, START);
    OneConversion(pointer, fmt, START, a);
    PieceLength(pointer, s, fmt, "", a);
    WrittenExact(s.kind, s.flags.left, n, Own(s, a));
  }

  /** A width given as an `int` is filled up exactly if it is not the least of the field, or the string is as long by
      itself. */
  lemma {:induction false} ArgumentFilled(pointer: (string, Arg, Spec) -> string, fmt: string, n: int, a: Arg)
    requires fmt != [] && Decode(fmt, START).0.kind == Width && Bits(n, WORD) == n
    requires var (w, k) := Decode(fmt, START);
      k < |fmt| && var r := Decode(fmt[k..], SetWidth(w, n)); r.1 == |fmt[k..]| && Wide(r.0.kind)
    ensures var (w, k) := Decode(fmt, START);
      var s := Decode(fmt[k..], SetWidth(w, n)).0;
      |Output(pointer, fmt, START, [Num(n), a])| == Max(Min(Abs(n), WIDTH_MAX), Own(s, a)) <==>
        n != WIDTH_MIN || (s.kind == Str && WIDTH_MAX <= Own(s, a))
  {
    var (w, k) := Decode(fmt, START);
    var rest, s' := fmt[k..], SetWidth(w, n);
    var s := Decode(rest, s').0;
    ArgumentWidth(rest, w, n);
    PrecisionBound(rest, s');
    StarConversion(pointer, fmt, n, a);
    PieceLength(pointer, s, rest, "", a);
    ArgumentExact(s.kind, s.flags.left, n, s.width, Own(s, a));
  }

  // ---------------------------------------------------------------- the widths that are not used

  /** The number that the digits of `d` from `i` on make of `acc`. */
  function ValueOf(d: string, i: nat, acc: nat): nat
    requires i <= |d| && forall k :: 0 <= k < |d| ==> IsDigit(d[k])
    decreases |d| - i
  {
    if i == |d| then acc else
      assert IsDigit(d[i]);
      ValueOf(d, i + 1, acc * 10 + (d[i] - '0') as nat)
  }

  lemma {:induction false} ReadDigits(fmt: string, d: string, i: nat, acc: nat)
    requires i <= |d| && |d| < |fmt| && fmt[1..1 + |d|] == d && !IsDigit(At(fmt, 1 + |d|))
    requires forall k :: 0 <= k < |d| ==> IsDigit(d[k])
    ensures ReadNumber(fmt, 1 + i, acc) == (ValueOf(d, i, acc), 1 + |d|)
    decreases |d| - i
  {
    if i < |d| {
      assert IsDigit(d[i]) && fmt[1 + i] == fmt[1..1 + |d|][i] == d[i];
      ReadDigits(fmt, d, i + 1, acc * 10 + (d[i] - '0') as nat);
    }
  }

  /** The text of a conversion whose only part is a width, `d`. */
  predicate Plainly(d: string, x: char) {
    d != [] && d[0] != '0' && (forall k :: 0 <= k < |d| ==> IsDigit(d[k])) && x in {'c', 's', 'd'}
  }

  function KindOf(x: char): Kind {
    if x == 'c' then Char else if x == 's' then Str else Int
  }

  /** Such a conversion, whatever follows it. */
  lemma {:induction false} DecodePlainly(d: string, x: char, more: string, spec: Spec)
    requires Plainly(d, x) && spec.kind !in {Width, Precision}
    ensures Decode("%" + d + [x] + more, spec)
      == (Spec(KindOf(x), Bits(ValueOf(d, 0, 0), WIDTHS), NO_FLAGS.(sign := x == 'd'), 10, -1), |d| + 2)
  {
    var fmt := "%" + d + [x] + more;
    assert fmt[0] == '%' && fmt[1] == d[0] && fmt[1..1 + |d|] == d && fmt[1 + |d|] == x;
    ReadDigits(fmt, d, 0, 0);
  }

  lemma {:induction false} ZeroText(s: Spec)
    requires s.flags == NO_FLAGS.(sign := true, left := s.flags.left) && s.base == 10 && s.width <= 1
    requires s.precision <= 1
    ensures NumberText(0, s) == "0"
  {
    assert Numeral(0, 10, false) == "0";
    assert Lead(s.flags, s.width - 1, "", "") == "";
    assert Trail(s.flags, s.width - 1, 0, "0") == "0";
  }

  /** The least width on the left, or the one after it on the right: the spaces come behind the character. */
  lemma {:induction false} LeastText(s: Spec, c: char)
    requires s.width == if s.flags.left then WIDTH_MIN else WIDTH_MIN + 1
    ensures CharText(c, s) == [c] + Fill(' ', WIDTH_MAX)
  {
    assert Less(WIDTH_MIN) == WIDTH_MAX && Less(WIDTH_MIN + 1) == WIDTH_MIN;
  }

  /** What a conversion of the field's least width prints of a zero, an empty string, or a character. */
  lemma {:induction false} LeastPiece(pointer: (string, Arg, Spec) -> string, s: Spec, literal: string, c: nat)
    requires s.base == 10 && c < 256 && s.precision <= 1
    ensures s.kind == Int && s.width <= 1 && s.flags == NO_FLAGS.(sign := true, left := s.flags.left) ==>
      Piece(pointer, s, literal, "", Num(0)) == "0"
    ensures s.kind == Str && s.width <= 0 ==> Piece(pointer, s, literal, "", Text("")) == ""
    ensures s.kind == Char && s.width == (if s.flags.left then WIDTH_MIN else WIDTH_MIN + 1) ==>
      Piece(pointer, s, literal, "", Num(c)) == [c as char] + Fill(' ', WIDTH_MAX)
  {
    if s.kind == Int && s.width <= 1 && s.flags == NO_FLAGS.(sign := true, left := s.flags.left) {
      ZeroText(s);
    } else if s.kind == Char && s.width == if s.flags.left then WIDTH_MIN else WIDTH_MIN + 1 {
      LeastText(s, c as char);
    }
  }

  /** `%8388608d` prints a zero as "0" and `%8388608s` an empty string as it is; `%8388609c` puts the spaces behind the
      character. */
  lemma {:induction false} WrittenLost(pointer: (string, Arg, Spec) -> string, d: string, x: char, c: nat)
    requires Plainly(d, x) && c < 256 && (x == 'd' ==> c == 0)
    requires ValueOf(d, 0, 0) == WIDTH_MAX + if x == 'c' then 2 else 1
    ensures Output(pointer, "%" + d + [x], START, [if x == 's' then Text("") else Num(c)])
      == if x == 'd' then "0" else if x == 's' then "" else [c as char] + Fill(' ', WIDTH_MAX)
  {
    var fmt, a := "%" + d + [x], if x == 's' then Text("") else Num(c);
    assert fmt + "" == fmt;
    DecodePlainly(d, x, "", START);
    OneConversion(pointer, fmt, START, a);
    LeastPiece(pointer, Decode(fmt, START).0, fmt, c);
  }

  lemma {:induction false} LostDigits()
    ensures ValueOf("8388608", 0, 0) == WIDTH_MAX + 1 && ValueOf("8388609", 0, 0) == WIDTH_MAX + 2
    ensures Plainly("8388608", 'd') && Plainly("8388608", 's') && Plainly("8388609", 'c')
  {}

  /** `%.32768d`, whose precision becomes 0, prints a zero as "0". */
  lemma {:induction false} PrecisionLost(pointer: (string, Arg, Spec) -> string, fmt: string)
    requires fmt != [] && Decode(fmt, START) == (Spec(Int, -1, NO_FLAGS.(sign := true), 10, 0), |fmt|)
    ensures Output(pointer, fmt, START, [Num(0)]) == "0"
  {
    OneConversion(pointer, fmt, START, Num(0));
    LeastPiece(pointer, Decode(fmt, START).0, fmt, 0);
  }

  lemma {:induction false} LostPrecision()
    ensures Decode("%.32768d", START) == (Spec(Int, -1, NO_FLAGS.(sign := true), 10, 0), 8)
  {}

  /** A format that is one conversion with `*` for its width. */
  ghost predicate Starred(fmt: string, kind: Kind) {
    |fmt| > 2 && Decode(fmt, START) == (Spec(Width, -1, NO_FLAGS, 0, 0), 2)
    && Decode(fmt[2..], Spec(Width, WIDTH_MIN, NO_FLAGS, 0, 0))
      == (Spec(kind, WIDTH_MIN, NO_FLAGS.(sign := kind == Int, left := true), 10, -1), |fmt| - 2)
  }

  lemma {:induction false} StarredNumber()
    ensures Starred("%*d", Int)
  {
    assert "%*d"[2..] == "d";
  }

  lemma {:induction false} StarredCharacter()
    ensures Starred("%*c", Char)
  {
    assert "%*c"[2..] == "c";
  }

  /** The least width of the field as an argument: `%*d` prints a zero as "0", `%*c` fills up one too far. */
  lemma {:induction false} ArgumentLost(pointer: (string, Arg, Spec) -> string, fmt: string, kind: Kind, c: nat)
    requires Starred(fmt, kind) && kind in {Int, Char} && c < 256 && (kind == Int ==> c == 0)
    ensures Output(pointer, fmt, START, [Num(WIDTH_MIN), Num(c)])
      == if kind == Int then "0" else [c as char] + Fill(' ', WIDTH_MAX)
  {
    var w := Decode(fmt, START).0;
    assert SetWidth(w, WIDTH_MIN) == w.(width := WIDTH_MIN);
    StarConversion(pointer, fmt, WIDTH_MIN, Num(c));
    LeastPiece(pointer, Decode(fmt[2..], w.(width := WIDTH_MIN)).0, fmt[2..], c);
  }

  // ---------------------------------------------------------------- output longer than an `int` can tell

  lemma {:induction false} OutputStep(pointer: (string, Arg, Spec) -> string, fmt: string, spec: Spec, args: seq<Arg>,
      s: Spec, read: nat)
    requires fmt != [] && Decode(fmt, spec) == (s, read) && Wide(s.kind)
    ensures Output(pointer, fmt, spec, args)
      == Piece(pointer, s, fmt[..read], fmt[read..], Head(args)) + Output(pointer, fmt[read..], s, Tail(args))
  {}

  function Repeated(one: string, k: nat): string {
    if k == 0 then "" else one + Repeated(one, k - 1)
  }

  lemma {:induction false} RepeatedNext(one: string, j: nat, k: nat)
    requires k == j + 1
    ensures Repeated(one, k) == one + Repeated(one, j)
  {}

  function Times(v: nat, k: nat): nat {
    if k == 0 then 0 else v + Times(v, k - 1)
  }

  lemma {:induction false} TimesStep(v: nat, j: nat, k: nat)
    requires k == j + 1
    ensures Times(v, k) == v + Times(v, j)
  {}

  lemma {:induction false} FirstOfMany(pointer: (string, Arg, Spec) -> string, fmt: string, s: Spec, more: string,
      spec: Spec, args: seq<Arg>)
    requires fmt != [] && Decode(fmt, spec).0 == s && fmt[Decode(fmt, spec).1..] == more
    requires s == Spec(Int, s.width, NO_FLAGS.(sign := true), 10, -1) && PRECISION_MAX + 3 <= s.width <= WIDTH_MAX
    ensures |Output(pointer, fmt, spec, args)| == s.width + |Output(pointer, more, s, Tail(args))|
  {
    var read := Decode(fmt, spec).1;
    OutputStep(pointer, fmt, spec, args, s, read);
    PieceLength(pointer, s, fmt[..read], more, Head(args));
  }

  /** `one` is a conversion with the width `v`, whatever follows it. */
  ghost predicate Prints(one: string, v: nat) {
    true == (one != [] && PRECISION_MAX + 3 <= v <= WIDTH_MAX
    && forall more, spec: Spec :: spec.kind != Width && spec.kind != Precision ==>
      Decode(one + more, spec) == (Spec(Int, v, NO_FLAGS.(sign := true), 10, -1), |one|))
  }

  lemma {:induction false} PrintsOne(one: string, v: nat, fmt: string, more: string, spec: Spec)
    requires Prints(one, v) && spec.kind != Width && spec.kind != Precision && fmt == one + more
    ensures fmt != [] && fmt[|one|..] == more
    ensures Decode(fmt, spec) == (Spec(Int, v, NO_FLAGS.(sign := true), 10, -1), |one|)
    ensures PRECISION_MAX + 3 <= v <= WIDTH_MAX
  {}

  lemma {:induction false} RepeatedStep(pointer: (string, Arg, Spec) -> string, one: string, v: nat, j: nat, k: nat,
      s: Spec, spec: Spec, rest: seq<Arg>, args: seq<Arg>)
    requires k == j + 1 && Prints(one, v) && spec.kind != Width && spec.kind != Precision
    requires s == Spec(Int, v, NO_FLAGS.(sign := true), 10, -1) && rest == Tail(args)
    ensures |Output(pointer, Repeated(one, k), spec, args)| == v + |Output(pointer, Repeated(one, j), s, rest)|
  {
    RepeatedNext(one, j, k);
    PrintsOne(one, v, Repeated(one, k), Repeated(one, j), spec);
    FirstOfMany(pointer, Repeated(one, k), s, Repeated(one, j), spec, args);
  }

  lemma {:induction false} RepeatedLength(pointer: (string, Arg, Spec) -> string, one: string, v: nat, k: nat,
      spec: Spec, args: seq<Arg>)
    requires Prints(one, v) && spec.kind != Width && spec.kind != Precision
    ensures |Output(pointer, Repeated(one, k), spec, args)| == Times(v, k)
    decreases k
  {
    if k > 0 {
      var s, j, rest := Spec(Int, v, NO_FLAGS.(sign := true), 10, -1), k - 1, Tail(args);
      TimesStep(v, j, k);
      RepeatedStep(pointer, one, v, j, k, s, spec, rest, args);
      RepeatedLength(pointer, one, v, j, s, rest);
    }
  }

  lemma {:induction false} TimesIs(v: nat, k: nat)
    ensures Times(v, k) == v * k
  {
    if k > 0 {
      TimesIs(v, k - 1);
    }
  }

  /** 257 times `%8388607d`: what comes back is negative. */
  lemma {:induction false} TooLong(pointer: (string, Arg, Spec) -> string, one: string, args: seq<Arg>)
    requires Prints(one, WIDTH_MAX)
    ensures var n := |Output(pointer, Repeated(one, 257), START, args)|;
      n == 2155871999 > INT_MAX && AsInt(n) == n - WORD < 0
  {
    RepeatedLength(pointer, one, WIDTH_MAX, 257, START, args);
    TimesIs(WIDTH_MAX, 257);
  }

  lemma {:induction false} LongestWidth(d: string)
    requires Plainly(d, 'd') && ValueOf(d, 0, 0) == WIDTH_MAX
    ensures Prints("%" + d + ['d'], WIDTH_MAX)
  {
    forall more, spec: Spec | spec.kind != Width && spec.kind != Precision
      ensures Decode("%" + d + ['d'] + more, spec) == (Spec(Int, WIDTH_MAX, NO_FLAGS.(sign := true), 10, -1), |d| + 2)
    {
      DecodePlainly(d, 'd', more, spec);
    }
  }

  lemma {:induction false} LongestDigits()
    ensures Plainly("8388607", 'd') && ValueOf("8388607", 0, 0) == WIDTH_MAX
  {}
}
