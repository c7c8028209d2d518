/** What `number`, `string` and the case for `%c` print is what a conversion with their numbers stands for. */
module PrintTexts {

  import opened Machine
  import opened PrintSpec
  import F = PrintFormat

  // ---------------------------------------------------------------- texts

  lemma {:induction false} FillRepeats(c: char, n: int)
    ensures Fill(c, n) == F.Repeat(c, n)
    decreases n
  {
    if n > 0 {
      FillRepeats(c, n - 1);
      assert Fill(c, n) == [c] + Fill(c, n - 1);
    }
  }

  lemma {:induction false} GlyphMeans(x: nat, small: bool, upper: bool)
    requires x < 16 && (x < 10 || small == !upper)
    ensures Glyph(x, small) == F.Digit(x, upper)
  {}

  lemma {:induction false} ReversedMore(c: char, t: string)
    ensures Reversed([c] + t) == Reversed(t) + [c] && Reversed([c]) == [c]
  {}

  lemma {:induction false} NumeralMeans(n: nat, b: nat, small: bool, upper: bool)
    requires Base(b) && (b == 16 ==> small == !upper)
    ensures Reversed(Numeral(n, b, small)) == F.Numeral(n, b, upper)
  {
    if n < b {
      GlyphMeans(n, small, upper);
      ReversedMore(Glyph(n, small), "");
    } else {
      NumeralMeans(n / b, b, small, upper);
      GlyphMeans(n % b, small, upper);
      ReversedMore(Glyph(n % b, small), Numeral(n / b, b, small));
    }
  }

  lemma {:induction false} LimitedMeans(s: string, lim: int)
    ensures Limited(s, lim) == F.UpTo(F.BeforeNul(s), lim)
  {
    if s != "" && s[0] != '\0' && lim != 0 {
      LimitedMeans(s[1..], lim - 1);
      var t := F.BeforeNul(s[1..]);
      assert 0 < lim < |[s[0]] + t| ==> ([s[0]] + t)[..lim] == [s[0]] + t[..lim - 1];
    }
  }

  /** Texts without NUL. */
  lemma {:induction false} NoNul(t: string)
    requires '\0' !in t
    ensures F.BeforeNul(t) == t
  {
    if t != "" {
      NoNul(t[1..]);
      assert t == [t[0]] + t[1..];
    }
  }

  // ---------------------------------------------------------------- values

  /** The kind that `format_decode` finds. */
  function KindOf(z: F.Size, x: char): Kind {
    if x == 'c' then Char else if x == 's' then Str else IntegerKind(z, x in "di")
  }

  function IntegerKind(z: F.Size, signed: bool): Kind {
    match z
    case HH => if signed then Byte else UByte
    case H => if signed then Short else UShort
    case L => if signed then Long else ULong
    case LL => LongLong
    case BigL => LongLong
    case Z => SizeT
    case T => PtrDiff
    case Plain => if signed then Int else UInt
  }

  lemma {:induction false} SignedBits(n: int, m: nat)
    requires m > 0 && m % 2 == 0
    ensures Bits(n, m) == F.Signed(n, m) && -(m / 2) <= Bits(n, m) < m / 2
  {
    var u, h := n % m, m / 2;
    assert n == n / m * m + u && m == 2 * h;
    if u < h {
      ModIs(n + h, m, n / m, u + h);
    } else {
      ModIs(n + h, m, n / m + 1, u - h);
    }
  }

  lemma {:induction false} ModIs(a: int, m: nat, q: int, r: int)
    requires m > 0 && a == q * m + r && 0 <= r < m
    ensures a % m == r
  {
    var d := a / m - q;
    assert a == a / m * m + a % m;
    assert a % m == r - d * m;
  }

  /** What goes to `number` is the value in 64 bits. */
  lemma {:induction false} ValueMeans(z: F.Size, x: char, n: int)
    requires x in "diuoxX"
    ensures var v := F.Typed(z, x in "di", n);
      Integer(KindOf(z, x), x in "di", n) == v % LONGLONG
      && (if x in "di" then -(LONGLONG / 2) <= v < LONGLONG / 2 else 0 <= v < LONGLONG)
  {
    SignedBits(n, F.Values(z));
    if z == F.LL || z == F.BigL {
      LongValue(n);
    }
  }

  lemma {:induction false} LongValue(n: int)
    ensures Bits(n, LONGLONG) % LONGLONG == n % LONGLONG
  {}

  // ---------------------------------------------------------------- conversions

  function BaseOf(x: char): nat {
    if x == 'o' then 8 else if x == 'x' || x == 'X' then 16 else 10
  }

  function FlagsOf(f: string, left: bool, x: char): Flags {
    Flags(x in "di", left || '-' in f, '+' in f, ' ' in f, '0' in f, x == 'x', '#' in f)
  }

  /** The specification that a conversion is decoded to. */
  function SpecOf(f: string, left: bool, width: int, precision: int, z: F.Size, x: char): Spec {
    Spec(KindOf(z, x), width, FlagsOf(f, left, x), BaseOf(x), precision)
  }

  lemma {:induction false} HeadMeans(f: string, left: bool, x: char, v: int, num: nat)
    requires num < LONGLONG && num == v % LONGLONG && x in "diuoxX"
    requires if x in "di" then -(LONGLONG / 2) <= v < LONGLONG / 2 else 0 <= v < LONGLONG
    ensures var g := FlagsOf(f, left, x);
      SignOf(num, g) == (if x in "di" then F.SignText(v, f) else "")
      && PrefixOf(num, BaseOf(x), g) == (if '#' in f then F.PrefixText(v, x) else "")
      && Magnitude(num, g) == if v < 0 then -v else v
  {
    assert v % LONGLONG == if v < 0 then v + LONGLONG else v;
  }

  /** The parts of a number put together in either way. */
  lemma {:induction false} PartsMean(g: Flags, width: int, precision: int, zeros: nat, room: int, sign: string,
      prefix: string, digits: string)
    requires zeros == (if |digits| > precision then 0 else precision - |digits|)
    requires room == width - |sign| - |prefix| - (|digits| + zeros)
    ensures Lead(g, room, sign, prefix) + Trail(g, room, zeros, digits)
      == F.Laid(sign + prefix, F.Body(Reversed(digits), precision), g.zeropad, g.left, width)
  {
    var body := Fill('0', zeros) + Reversed(digits);
    FillRepeats('0', precision - |digits|);
    FillRepeats('0', room);
    FillRepeats(' ', room);
    Joined(g, room, zeros, sign, prefix, digits, body);
    assert F.Body(Reversed(digits), precision) == body;
    assert |(sign + prefix) + body| == |sign| + |prefix| + |digits| + zeros;
  }

  lemma {:induction false} NumberParts(num: nat, s: Spec, sign: string, prefix: string, digits: string, zeros: int)
    requires num < LONGLONG && Base(s.base) && sign == SignOf(num, s.flags) && prefix == PrefixOf(num, s.base, s.flags)
    requires digits == Numeral(Magnitude(num, s.flags), s.base, s.flags.small)
    requires zeros == (if |digits| > s.precision then 0 else s.precision - |digits|)
    ensures var room := s.width - |sign| - |prefix| - (|digits| + zeros);
      NumberText(num, s) == Lead(s.flags, room, sign, prefix) + Trail(s.flags, room, zeros, digits)
  {
    var prec := if |digits| > s.precision then |digits| else s.precision;
    assert prec == |digits| + zeros && prec - |digits| == zeros;
  }

  lemma {:induction false} NumberLaid(num: nat, s: Spec, sign: string, prefix: string, digits: string)
    requires num < LONGLONG && Base(s.base) && sign == SignOf(num, s.flags) && prefix == PrefixOf(num, s.base, s.flags)
    requires digits == Numeral(Magnitude(num, s.flags), s.base, s.flags.small)
    ensures NumberText(num, s)
      == F.Laid(sign + prefix, F.Body(Reversed(digits), s.precision), s.flags.zeropad, s.flags.left, s.width)
  {
    var zeros := if |digits| > s.precision then 0 else s.precision - |digits|;
    NumberParts(num, s, sign, prefix, digits, zeros);
    PartsMean(s.flags, s.width, s.precision, zeros, s.width - |sign| - |prefix| - (|digits| + zeros), sign, prefix,
        digits);
  }

  lemma {:induction false} Joined(g: Flags, room: int, zeros: nat, sign: string, prefix: string, digits: string,
      body: string)
    requires body == Fill('0', zeros) + Reversed(digits)
    ensures Lead(g, room, sign, prefix) + Trail(g, room, zeros, digits)
      == if g.left then (sign + prefix + body) + Fill(' ', room)
         else if g.zeropad then (sign + prefix) + (Fill('0', room) + body)
         else Fill(' ', room) + (sign + prefix + body)
  {
    var r, z := Reversed(digits), Fill('0', zeros);
    if g.left {
      assert Lead(g, room, sign, prefix) == sign + prefix;
      assert Trail(g, room, zeros, digits) == body + Fill(' ', room);
    } else if g.zeropad {
      assert Lead(g, room, sign, prefix) == (sign + prefix) + Fill('0', room);
      assert Trail(g, room, zeros, digits) == body;
    } else {
      assert Lead(g, room, sign, prefix) == Fill(' ', room) + (sign + prefix);
      assert Trail(g, room, zeros, digits) == body;
    }
  }

  lemma {:induction false} NumberMeans(f: string, left: bool, width: int, precision: int, z: F.Size, x: char, n: int)
    requires x in "diuoxX"
    ensures var s := SpecOf(f, left, width, precision, z, x);
      NumberText(Integer(s.kind, s.flags.sign, n), s)
        == F.Integer(F.Typed(z, x in "di", n), f, s.flags.left, width, precision, x)
  {
    var s := SpecOf(f, left, width, precision, z, x);
    var v, num := F.Typed(z, x in "di", n), Integer(s.kind, s.flags.sign, n);
    ValueMeans(z, x, n);
    HeadMeans(f, left, x, v, num);
    var m := if v < 0 then -v else v;
    NumberLaid(num, s, SignOf(num, s.flags), PrefixOf(num, s.base, s.flags), Numeral(m, s.base, s.flags.small));
    NumeralMeans(m, s.base, s.flags.small, x == 'X');
  }

  lemma {:induction false} WidenedMeans(u: string, s: Spec)
    ensures Widened(u, s) == F.Padded(u, s.flags.left, s.width)
  {
    FillRepeats(' ', s.width - |u|);
  }

  lemma {:induction false} StringMeans(a: Arg, s: Spec)
    requires s.precision >= -1
    ensures StringText(a, s) == F.Padded(F.UpTo(F.Chars(a), s.precision), s.flags.left, s.width)
  {
    match a {
      case Text(u) =>
        LimitedMeans(u, s.precision);
        WidenedMeans(Limited(u, s.precision), s);
      case Null => SpecialMeans("(null)", s);
      case Num(_) => SpecialMeans("(efault)", s);
    }
  }

  lemma {:induction false} SpecialMeans(u: string, s: Spec)
    requires '\0' !in u && |u| <= 8 && s.precision >= -1
    ensures var lim := if s.precision == -1 then 8 else s.precision;
      Widened(Limited(u, lim), s) == F.Padded(F.UpTo(u, s.precision), s.flags.left, s.width)
  {
    var lim := if s.precision == -1 then 8 else s.precision;
    NoNul(u);
    LimitedMeans(u, lim);
    WidenedMeans(Limited(u, lim), s);
  }

  lemma {:induction false} CharMeans(c: char, s: Spec)
    requires -1 <= s.width <= WIDTH_MAX
    ensures CharText(c, s) == F.Padded([c], s.flags.left, s.width)
  {
    var w := s.width;
    FillRepeats(' ', w - 1);
    assert Less(w) == w - 1 && Fill(' ', Less(0)) == "" && Fill(' ', Less(Spent(w))) == "";
    assert Fill(' ', w - 1) + ([c] + "") == Fill(' ', w - 1) + [c];
  }

  /** No width is as good as none. */
  lemma {:induction false} NoWidth(head: string, body: string, zeros: bool, left: bool)
    ensures F.Laid(head, body, zeros, left, -1) == F.Laid(head, body, zeros, left, 0)
    ensures F.Padded(body, left, -1) == F.Padded(body, left, 0)
  {
    NothingPadded(head + body, left);
    NothingPadded(body, left);
    FillRepeats('0', -1 - |head| - |body|);
    FillRepeats('0', 0 - |head| - |body|);
  }

  lemma {:induction false} NothingPadded(u: string, left: bool)
    ensures F.Padded(u, left, -1) == u == F.Padded(u, left, 0)
  {
    FillRepeats(' ', -1 - |u|);
    FillRepeats(' ', 0 - |u|);
  }

  /** What a conversion prints with these numbers. */
  function Printed(f: string, left: bool, width: int, precision: int, z: F.Size, x: char, a: Arg): string
    requires x in "diuoxXcs" && (x != 's' ==> a.Num?)
  {
    if x == 's' then F.Padded(F.UpTo(F.Chars(a), precision), left, width)
    else if x == 'c' then F.Padded([(a.n % 256) as char], left, width)
    else F.Integer(F.Typed(z, x in "di", a.n), f, left, width, precision, x)
  }

  lemma {:induction false} PrintedNarrow(f: string, left: bool, precision: int, z: F.Size, x: char, a: Arg)
    requires x in "diuoxXcs" && (x != 's' ==> a.Num?)
    ensures Printed(f, left, -1, precision, z, x, a) == Printed(f, left, 0, precision, z, x, a)
  {
    if x == 's' {
      NoWidth("", F.UpTo(F.Chars(a), precision), false, left);
    } else if x == 'c' {
      NoWidth("", [(a.n % 256) as char], false, left);
    } else {
      var v := F.Typed(z, x in "di", a.n);
      var sign := if x in "di" then F.SignText(v, f) else "";
      var prefix := if '#' in f then F.PrefixText(v, x) else "";
      var digits := F.Numeral(if v < 0 then -v else v, BaseOf(x), x == 'X');
      NoWidth(sign + prefix, F.Body(digits, precision), '0' in f, left);
    }
  }

  lemma {:induction false} PieceMeans(pointer: (string, Arg, Spec) -> string, f: string, left: bool, width: int,
      precision: int, z: F.Size, x: char, literal: string, rest: string, a: Arg)
    requires x in "diuoxXcs" && (x != 's' ==> a.Num?) && -1 <= width <= WIDTH_MAX && precision >= -1
    ensures var s := SpecOf(f, left, width, precision, z, x);
      Piece(pointer, s, literal, rest, a) == Printed(f, s.flags.left, width, precision, z, x, a)
  {
    var s := SpecOf(f, left, width, precision, z, x);
    if x == 's' {
      StringMeans(a, s);
    } else if x == 'c' {
      CharMeans((a.n % 256) as char, s);
    } else {
      NumberPiece(pointer, s, literal, rest, a);
      NumberMeans(f, left, width, precision, z, x, a.n);
    }
  }

  lemma {:induction false} NumberPiece(pointer: (string, Arg, Spec) -> string, s: Spec, literal: string, rest: string,
      a: Arg)
    requires s.kind !in {None, Width, Precision, Char, Str, Ptr, Percent, Invalid} && Base(s.base) && a.Num?
    ensures Piece(pointer, s, literal, rest, a) == NumberText(Integer(s.kind, s.flags.sign, a.n), s)
  {}
}
