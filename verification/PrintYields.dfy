/** One conversion, from its format and its arguments to the specification that it is printed by. */
module PrintYields {

  import opened Machine
  import opened PrintSpec
  import opened PrintTexts
  import opened PrintDecode
  import F = PrintFormat

  // ---------------------------------------------------------------- output

  type Pointer = (string, Arg, Spec) -> string

  lemma {:induction false} Prints(pointer: Pointer, fmt: string, spec: Spec, args: seq<Arg>, s: Spec, read: nat)
    requires fmt != [] && Decode(fmt, spec) == (s, read) && s.kind !in {None, Width, Precision, Ptr, Percent, Invalid}
    requires args != []
    ensures Output(pointer, fmt, spec, args)
      == Piece(pointer, s, fmt[..read], fmt[read..], args[0]) + Output(pointer, fmt[read..], s, args[1..])
  {}

  lemma {:induction false} TakesNumber(pointer: Pointer, fmt: string, spec: Spec, args: seq<Arg>, s: Spec, read: nat)
    requires fmt != [] && Decode(fmt, spec) == (s, read) && s.kind in {Width, Precision} && args != []
    ensures Output(pointer, fmt, spec, args) == Output(pointer, fmt[read..], NextSpec(s, args[0]), args[1..])
  {}

  lemma {:induction false} StandsWhole(u: string, rest: string)
    ensures Stands(u + rest, 0, u) && (u + rest)[|u|..] == rest
  {}

  /** The printed conversions. */
  predicate Printing(s: Spec) {
    s.kind !in {None, Width, Precision, Ptr, Percent, Invalid} && Base(s.base)
  }

  lemma {:induction false} PieceAny(pointer: Pointer, s: Spec, literal: string, rest: string, a: Arg)
    requires Printing(s)
    ensures Piece(pointer, s, literal, rest, a) == Piece(pointer, s, "", "", a)
  {}

  /** A conversion is printed by specification `s`, with the argument `k`. */
  ghost predicate Yields(pointer: Pointer, fmt: string, spec: Spec, args: seq<Arg>, s: Spec, k: nat, rest: string) {
    true == (k < |args| && Printing(s)
    && Output(pointer, fmt, spec, args) == Piece(pointer, s, "", "", args[k]) + Output(pointer, rest, s, args[k + 1..]))
  }

  lemma {:induction false} YieldsAtOnce(pointer: Pointer, fmt: string, spec: Spec, args: seq<Arg>, s: Spec, read: nat,
      rest: string)
    requires fmt != [] && Decode(fmt, spec) == (s, read) && Printing(s) && args != [] && fmt[read..] == rest
    ensures Yields(pointer, fmt, spec, args, s, 0, rest)
  {
    Prints(pointer, fmt, spec, args, s, read);
    PieceAny(pointer, s, fmt[..read], rest, args[0]);
  }

  lemma {:induction false} YieldsLater(pointer: Pointer, fmt: string, spec: Spec, args: seq<Arg>, t: Spec, read: nat,
      fmt': string, s: Spec, k: nat, rest: string)
    requires fmt != [] && Decode(fmt, spec) == (t, read) && t.kind in {Width, Precision} && args != []
    requires fmt[read..] == fmt' && Yields(pointer, fmt', NextSpec(t, args[0]), args[1..], s, k, rest)
    ensures Yields(pointer, fmt, spec, args, s, k + 1, rest)
  {
    TakesNumber(pointer, fmt, spec, args, t, read);
    assert args[1..][k] == args[k + 1] && args[1..][k + 1..] == args[k + 2..];
  }

  lemma {:induction false} LetteredPrints(s: Spec, z: F.Size, x: char)
    requires x in "diuoxXcs"
    ensures Printing(Lettered(s, z, x))
  {}

  /** The precision given by an argument. */
  function Clamped(n: int): int {
    if n < 0 then 0 else F.Lesser(n, 0x7fff)
  }

  lemma {:induction false} ClampedIs(s: Spec, n: int)
    ensures var p := SetPrecision(s, n).precision;
      (if p < 0 then 0 else p) == Clamped(n)
  {
    assert Bits(n, PRECISIONS) == n <==> -0x8000 <= n <= PRECISION_MAX;
  }

  /** From the size on, after a precision by argument. */
  lemma {:induction false} YieldsSize(pointer: Pointer, z: F.Size, x: char, rest: string, t: Spec, n: int,
      args: seq<Arg>)
    requires x in "diuoxXcs" && args != [] && !t.flags.sign && !t.flags.small && t.kind == Precision
    ensures Yields(pointer, F.SizeText(z) + [x] + rest, SetPrecision(t, n), args,
        Lettered(t.(kind := None, precision := Clamped(n)), z, x), 0, rest)
  {
    var u, s := F.SizeText(z) + [x], t.(kind := None, precision := Clamped(n));
    StandsWhole(u, rest);
    ClampedIs(t, n);
    SizeRead(u + rest, 0, z, x, s);
    DecodeSize(u + rest, SetPrecision(t, n), s);
    LetteredPrints(s, z, x);
    YieldsAtOnce(pointer, u + rest, SetPrecision(t, n), args, Lettered(s, z, x), |u|, rest);
  }

  lemma {:induction false} DecodeSize(fmt: string, t: Spec, s: Spec)
    requires fmt != [] && t.kind == Precision
    requires s == t.(kind := None, precision := if t.precision < 0 then 0 else t.precision)
    ensures Decode(fmt, t) == Qualified(fmt, 0, s)
  {}

  /** The precision of a conversion, the first argument being for `*`. */
  function PrecisionBy(p: F.Count, args: seq<Arg>): int
    requires LegalPrecision(p) && (p == F.Star ==> args != [] && args[0].Num?)
  {
    if p == F.Star then Clamped(args[0].n) else PrecisionOf(p)
  }

  function Extra(p: F.Count): nat {
    if p == F.Star then 1 else 0
  }

  lemma {:induction false} IntBits(n: int)
    requires -0x8000_0000 <= n <= 0x7fff_ffff
    ensures Bits(n, WORD) == n
  {}

  /** From the precision on. */
  lemma {:induction false} YieldsPrecision(pointer: Pointer, fmt: string, spec: Spec, j: nat, p: F.Count, z: F.Size,
      x: char, s: Spec, rest: string, args: seq<Arg>)
    requires fmt != [] && Stands(fmt, j, F.PrecisionText(p) + (F.SizeText(z) + [x]))
    requires Decode(fmt, spec) == Precised(fmt, j, s)
    requires fmt[j + |F.PrecisionText(p) + (F.SizeText(z) + [x])|..] == rest
    requires LegalPrecision(p) && x in "diuoxXcs" && !s.flags.sign && !s.flags.small
    requires |args| > Extra(p) && (p == F.Star ==> F.IsInt(args[0]))
    ensures Yields(pointer, fmt, spec, args, Lettered(s.(precision := PrecisionBy(p, args)), z, x), Extra(p), rest)
  {
    var v := F.SizeText(z) + [x];
    if p == F.Star {
      PrecisionStar(fmt, j, v, s);
      RestAfter(fmt, j, ".*", v, rest);
      YieldsStar(pointer, fmt, spec, j + 2, z, x, s, rest, args);
    } else {
      PrecisionRead(fmt, j, p, z, x, s);
      LetteredPrints(s.(precision := PrecisionOf(p)), z, x);
      YieldsAtOnce(pointer, fmt, spec, args, Lettered(s.(precision := PrecisionOf(p)), z, x),
          j + |F.PrecisionText(p)| + |F.SizeText(z)| + 1, rest);
    }
  }

  lemma {:induction false} YieldsStar(pointer: Pointer, fmt: string, spec: Spec, read: nat, z: F.Size, x: char, s: Spec,
      rest: string, args: seq<Arg>)
    requires fmt != [] && Decode(fmt, spec) == (s.(precision := -1, kind := Precision), read)
    requires fmt[read..] == F.SizeText(z) + [x] + rest && x in "diuoxXcs" && !s.flags.sign && !s.flags.small
    requires |args| > 1 && F.IsInt(args[0])
    ensures Yields(pointer, fmt, spec, args, Lettered(s.(precision := Clamped(args[0].n)), z, x), 1, rest)
  {
    var t, n := s.(precision := -1, kind := Precision), args[0].n;
    IntBits(n);
    YieldsSize(pointer, z, x, rest, t, n, args[1..]);
    LetteredKind(t.(precision := Clamped(n)), s.(precision := Clamped(n)), z, x);
    YieldsLater(pointer, fmt, spec, args, t, read, F.SizeText(z) + [x] + rest,
        Lettered(s.(precision := Clamped(n)), z, x), 0, rest);
  }

  lemma {:induction false} LetteredKind(s: Spec, t: Spec, z: F.Size, x: char)
    requires t == s.(kind := t.kind)
    ensures Lettered(s.(kind := None), z, x) == Lettered(t, z, x)
  {}

  lemma {:induction false} RestAfter(fmt: string, j: nat, u: string, v: string, rest: string)
    requires Stands(fmt, j, u + v) && fmt[j + |u + v|..] == rest
    ensures fmt[j + |u|..] == v + rest
  {
    StandsParts(fmt, j, u, v);
    assert fmt[j + |u|..] == fmt[j + |u|..j + |u| + |v|] + fmt[j + |u| + |v|..];
  }

  /** The width given by an argument. */
  lemma {:induction false} WidthBy(fmt: string, t: Spec, n: int)
    requires fmt != [] && t.kind == Width && n != -0x80_0000
    ensures Decode(fmt, SetWidth(t, n)) == Precised(fmt, 0,
        t.(kind := None, width := F.Lesser(if n < 0 then -n else n, 0x7f_ffff),
           flags := t.flags.(left := t.flags.left || n < 0)))
  {
    var w := SetWidth(t, n).width;
    assert Bits(n, WIDTHS) == n <==> -0x80_0000 <= n <= WIDTH_MAX;
    assert w < 0 ==> Bits(-w, WIDTHS) == -w;
    assert t.flags.(left := t.flags.left || false) == t.flags;
  }

  /** The parts of a conversion. */
  predicate Proper(f: string, w: F.Count, p: F.Count, x: char) {
    (forall k :: 0 <= k < |f| ==> f[k] in "-+ #0") && LegalWidth(w) && LegalPrecision(p) && x in "diuoxXcs"
  }

  /** Enough arguments of the right types for them. */
  predicate Provided(w: F.Count, p: F.Count, x: char, args: seq<Arg>) {
    F.Suit(F.Conversion("", w, p, F.Plain, x), args)
  }

  /** A conversion whose width is not an argument. */
  lemma {:induction false} YieldsWritten(pointer: Pointer, f: string, w: F.Count, p: F.Count, z: F.Size, x: char,
      rest: string, spec: Spec, args: seq<Arg>)
    requires Proper(f, w, p, x) && w != F.Star && Provided(w, p, x, args) && spec.kind !in {Width, Precision}
    ensures Yields(pointer, "%" + (f + AfterFlags(w, p, z, x)) + rest, spec, args,
        Lettered(Widthed(spec, f, w).(precision := PrecisionBy(p, args)), z, x), Extra(p), rest)
  {
    var v := F.PrecisionText(p) + (F.SizeText(z) + [x]);
    var u := "%" + (f + AfterFlags(w, p, z, x));
    var j := 1 + |f| + |F.WidthText(w)|;
    StandsWhole(u, rest);
    FirstAfterFlags(w, p, z, x);
    WidthRead(u + rest, f, w, v, 1 + |f|, j, spec);
    assert j + |v| == |u|;
    YieldsPrecision(pointer, u + rest, spec, j, p, z, x, Widthed(spec, f, w), rest, args);
  }

  /** The specification of a width by argument. */
  function Starred(spec: Spec, f: string, n: int): Spec {
    spec.(kind := None, width := F.Lesser(if n < 0 then -n else n, 0x7f_ffff),
          flags := WithFlags(f, NO_FLAGS).(left := '-' in f || n < 0))
  }

  lemma {:induction false} YieldsByArgument(pointer: Pointer, f: string, p: F.Count, z: F.Size, x: char, rest: string,
      spec: Spec, args: seq<Arg>)
    requires Proper(f, F.Star, p, x) && Provided(F.Star, p, x, args) && spec.kind !in {Width, Precision}
    ensures Yields(pointer, "%" + (f + AfterFlags(F.Star, p, z, x)) + rest, spec, args,
        Lettered(Starred(spec, f, args[0].n).(precision := PrecisionBy(p, args[1..])), z, x), 1 + Extra(p), rest)
  {
    var v := F.PrecisionText(p) + (F.SizeText(z) + [x]);
    var u := "%" + (f + AfterFlags(F.Star, p, z, x));
    var t, n := Widthed(spec, f, F.Star).(kind := Width), args[0].n;
    StarRead(f, p, z, x, u + rest, rest, spec);
    IntBits(n);
    YieldsAfterStar(pointer, f, p, z, x, rest, spec, n, args[1..]);
    YieldsLater(pointer, u + rest, spec, args, t, 2 + |f|, v + rest,
        Lettered(Starred(spec, f, n).(precision := PrecisionBy(p, args[1..])), z, x), Extra(p), rest);
  }

  /** Up to the width. */
  lemma {:induction false} StarRead(f: string, p: F.Count, z: F.Size, x: char, fmt: string, rest: string, spec: Spec)
    requires Proper(f, F.Star, p, x) && spec.kind !in {Width, Precision}
    requires fmt == "%" + (f + AfterFlags(F.Star, p, z, x)) + rest
    ensures Decode(fmt, spec) == (Widthed(spec, f, F.Star).(kind := Width), 2 + |f|)
    ensures fmt[2 + |f|..] == F.PrecisionText(p) + (F.SizeText(z) + [x]) + rest
  {
    var v := F.PrecisionText(p) + (F.SizeText(z) + [x]);
    var u := "%" + (f + AfterFlags(F.Star, p, z, x));
    StandsWhole(u, rest);
    FirstAfterFlags(F.Star, p, z, x);
    WidthRead(fmt, f, F.Star, v, 1 + |f|, 2 + |f|, spec);
    assert |u| == 2 + |f| + |v|;
    RestAfter(fmt, 2 + |f|, "", v, rest);
  }

  /** From the width on. */
  lemma {:induction false} YieldsAfterStar(pointer: Pointer, f: string, p: F.Count, z: F.Size, x: char, rest: string,
      spec: Spec, n: int, args: seq<Arg>)
    requires LegalPrecision(p) && x in "diuoxXcs" && |args| > Extra(p) && (p == F.Star ==> F.IsInt(args[0]))
    requires n != -0x80_0000
    ensures Yields(pointer, F.PrecisionText(p) + (F.SizeText(z) + [x]) + rest,
        SetWidth(Widthed(spec, f, F.Star).(kind := Width), n), args,
        Lettered(Starred(spec, f, n).(precision := PrecisionBy(p, args)), z, x), Extra(p), rest)
  {
    var v, t := F.PrecisionText(p) + (F.SizeText(z) + [x]), Widthed(spec, f, F.Star).(kind := Width);
    StandsWhole(v, rest);
    WidthBy(v + rest, t, n);
    StarredIs(spec, f, n);
    YieldsPrecision(pointer, v + rest, SetWidth(t, n), 0, p, z, x, Starred(spec, f, n), rest, args);
  }

  lemma {:induction false} StarredIs(spec: Spec, f: string, n: int)
    ensures var t := Widthed(spec, f, F.Star).(kind := Width);
      t.(kind := None, width := F.Lesser(if n < 0 then -n else n, 0x7f_ffff),
         flags := t.flags.(left := t.flags.left || n < 0)) == Starred(spec, f, n)
  {}
}
