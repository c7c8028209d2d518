/** `format_decode` reads a conversion as it is spelt. */
module PrintDecode {

  import opened PrintSpec
  import opened PrintTexts
  import F = PrintFormat

  // ---------------------------------------------------------------- the format

  /** `u` stands in `fmt` from `i` on. */
  predicate Stands(fmt: string, i: nat, u: string) {
    i + |u| <= |fmt| && fmt[i..i + |u|] == u
  }

  lemma {:induction false} StandsParts(fmt: string, i: nat, u: string, v: string)
    requires Stands(fmt, i, u + v)
    ensures Stands(fmt, i, u) && Stands(fmt, i + |u|, v)
  {
    assert fmt[i..i + |u|] == fmt[i..i + |u + v|][..|u|] == u;
    assert fmt[i + |u|..i + |u| + |v|] == fmt[i..i + |u + v|][|u|..] == v;
  }

  lemma {:induction false} StandsFirst(fmt: string, i: nat, u: string)
    requires Stands(fmt, i, u) && u != ""
    ensures At(fmt, i) == u[0] == fmt[i] && Stands(fmt, i + 1, u[1..])
  {
    assert fmt[i] == fmt[i..i + |u|][0];
    assert [u[0]] + u[1..] == u;
    StandsParts(fmt, i, [u[0]], u[1..]);
  }

  function WithFlags(f: string, g: Flags): Flags {
    Flags(g.sign, g.left || '-' in f, g.plus || '+' in f, g.space || ' ' in f, g.zeropad || '0' in f, g.small,
          g.special || '#' in f)
  }

  lemma {:induction false} FlagsRead(fmt: string, i: nat, f: string, g: Flags)
    requires Stands(fmt, i, f) && (forall k :: 0 <= k < |f| ==> f[k] in "-+ #0")
    requires At(fmt, i + |f|) !in {'-', '+', ' ', '#', '0'}
    ensures ReadFlags(fmt, i, g) == (WithFlags(f, g), i + |f|)
    decreases |f|
  {
    if f != "" {
      StandsFirst(fmt, i, f);
      FlagsRead(fmt, i + 1, f[1..], OneFlag(f[0], g));
      assert f == [f[0]] + f[1..];
    }
  }

  function ValueFrom(d: string, acc: nat): nat
    requires forall i :: 0 <= i < |d| ==> '0' <= d[i] <= '9'
  {
    if d == "" then acc else ValueFrom(d[1..], acc * 10 + (d[0] - '0') as nat)
  }

  lemma {:induction false} ValueFromLast(d: string, c: char, acc: nat)
    requires (forall i :: 0 <= i < |d| ==> '0' <= d[i] <= '9') && '0' <= c <= '9'
    ensures ValueFrom(d + [c], acc) == ValueFrom(d, acc) * 10 + (c - '0') as nat
    decreases |d|
  {
    if d == "" {
      assert ([] + [c])[1..] == "";
    } else {
      assert (d + [c])[1..] == d[1..] + [c];
      ValueFromLast(d[1..], c, acc * 10 + (d[0] - '0') as nat);
    }
  }

  lemma {:induction false} ValueIs(d: string)
    requires d != "" ==> F.AllDigits(d)
    ensures F.Value(d) == ValueFrom(d, 0)
  {
    if d != "" {
      var l := d[..|d| - 1];
      ValueIs(l);
      ValueFromLast(l, d[|d| - 1], 0);
      assert d == l + [d[|d| - 1]];
    }
  }

  lemma {:induction false} DigitsRead(fmt: string, i: nat, d: string, acc: nat)
    requires Stands(fmt, i, d) && (forall k :: 0 <= k < |d| ==> '0' <= d[k] <= '9') && !IsDigit(At(fmt, i + |d|))
    ensures ReadNumber(fmt, i, acc) == (ValueFrom(d, acc), i + |d|)
    decreases |d|
  {
    if d != "" {
      StandsFirst(fmt, i, d);
      DigitsRead(fmt, i + 1, d[1..], acc * 10 + (d[0] - '0') as nat);
    }
  }

  /** The specification when its letter has been read. */
  function Lettered(s: Spec, z: F.Size, x: char): Spec {
    s.(kind := KindOf(z, x), base := BaseOf(x), flags := s.flags.(sign := x in "di", small := x == 'x'))
  }

  /** The qualifier as `format_decode` keeps it. */
  function Qualifier(z: F.Size): char {
    match z
    case HH => 'H'
    case H => 'h'
    case Plain => '\0'
    case L => 'l'
    case LL => 'L'
    case BigL => 'L'
    case Z => 'z'
    case T => 't'
  }

  lemma {:induction false} LetterRead(fmt: string, i: nat, z: F.Size, x: char, s: Spec)
    requires i < |fmt| && fmt[i] == x && x in "diuoxXcs" && !s.flags.sign && !s.flags.small
    ensures Conversion(fmt, i, Qualifier(z), s) == (Lettered(s, z, x), i + 1)
  {
    var u := s.(base := BaseOf(x), flags := s.flags.(sign := x in "di", small := x == 'x'));
    SizedIs(u, z);
    assert s.flags.(sign := false, small := false) == s.flags;
  }

  lemma {:induction false} SizedIs(s: Spec, z: F.Size)
    ensures Sized(s, Qualifier(z)) == s.(kind := IntegerKind(z, s.flags.sign))
  {}

  lemma {:induction false} SizeRead(fmt: string, i: nat, z: F.Size, x: char, s: Spec)
    requires Stands(fmt, i, F.SizeText(z) + [x]) && x in "diuoxXcs" && !s.flags.sign && !s.flags.small
    ensures Qualified(fmt, i, s) == (Lettered(s, z, x), i + |F.SizeText(z)| + 1)
  {
    var u := F.SizeText(z) + [x];
    StandsFirst(fmt, i, u);
    if |u| > 1 {
      StandsFirst(fmt, i + 1, u[1..]);
      if |u| > 2 {
        StandsFirst(fmt, i + 2, u[1..][1..]);
      }
    }
    LetterRead(fmt, i + |u| - 1, z, x, s);
  }

  /** The precision that is read. */
  function PrecisionOf(p: F.Count): int
    requires p.Written? ==> F.AllDigits(p.digits)
  {
    if p.Written? then F.Value(p.digits) else -1
  }

  predicate LegalPrecision(p: F.Count) {
    p.Written? ==> F.AllDigits(p.digits) && F.Value(p.digits) <= 0x7fff
  }

  lemma {:induction false} FirstLetter(z: F.Size, x: char)
    requires x in "diuoxXcs"
    ensures var c := (F.SizeText(z) + [x])[0];
      !IsDigit(c) && c != '*' && c != '.' && c != '%' && c !in {'-', '+', ' ', '#', '0'}
  {}

  lemma {:induction false} PrecisionRead(fmt: string, i: nat, p: F.Count, z: F.Size, x: char, s: Spec)
    requires LegalPrecision(p) && p != F.Star && x in "diuoxXcs" && !s.flags.sign && !s.flags.small
    requires Stands(fmt, i, F.PrecisionText(p) + (F.SizeText(z) + [x]))
    ensures Precised(fmt, i, s)
      == (Lettered(s.(precision := PrecisionOf(p)), z, x), i + |F.PrecisionText(p)| + |F.SizeText(z)| + 1)
  {
    var u, v := F.PrecisionText(p), F.SizeText(z) + [x];
    FirstLetter(z, x);
    StandsParts(fmt, i, u, v);
    PrecisionTo(fmt, i, p, v, s);
    SizeRead(fmt, i + |u|, z, x, s.(precision := PrecisionOf(p)));
  }

  lemma {:induction false} PrecisionTo(fmt: string, i: nat, p: F.Count, v: string, s: Spec)
    requires LegalPrecision(p) && p != F.Star && Stands(fmt, i, F.PrecisionText(p)) && v != ""
    requires Stands(fmt, i + |F.PrecisionText(p)|, v) && !IsDigit(v[0]) && v[0] != '*' && v[0] != '.'
    ensures Precised(fmt, i, s) == Qualified(fmt, i + |F.PrecisionText(p)|, s.(precision := PrecisionOf(p)))
  {
    var u := F.PrecisionText(p);
    StandsFirst(fmt, i + |u|, v);
    match p {
      case Written(d) =>
        assert u[0] == '.' && u[1..] == d;
        StandsFirst(fmt, i, u);
        PrecisionDigits(fmt, i, d, s);
      case Dot =>
        StandsFirst(fmt, i, u);
        PrecisionDot(fmt, i, s);
      case Absent => PrecisionNone(fmt, i, s);
    }
  }

  lemma {:induction false} PrecisionDot(fmt: string, i: nat, s: Spec)
    requires i + 1 <= |fmt| && At(fmt, i) == '.' && !IsDigit(At(fmt, i + 1)) && At(fmt, i + 1) != '*'
    ensures Precised(fmt, i, s) == Qualified(fmt, i + 1, s.(precision := -1))
  {}

  lemma {:induction false} PrecisionNone(fmt: string, i: nat, s: Spec)
    requires i <= |fmt| && At(fmt, i) != '.'
    ensures Precised(fmt, i, s) == Qualified(fmt, i, s.(precision := -1))
  {}

  lemma {:induction false} PrecisionDigits(fmt: string, i: nat, d: string, s: Spec)
    requires At(fmt, i) == '.' && Stands(fmt, i + 1, d) && F.AllDigits(d) && F.Value(d) <= 0x7fff
    requires !IsDigit(At(fmt, i + 1 + |d|))
    ensures i + 1 + |d| <= |fmt|
    ensures Precised(fmt, i, s) == Qualified(fmt, i + 1 + |d|, s.(precision := F.Value(d)))
  {
    StandsFirst(fmt, i + 1, d);
    DigitsRead(fmt, i + 1, d, 0);
    ValueIs(d);
    assert Bits(F.Value(d), PRECISIONS) == F.Value(d);
  }

  lemma {:induction false} PrecisionStar(fmt: string, i: nat, u: string, s: Spec)
    requires Stands(fmt, i, ".*" + u)
    ensures Precised(fmt, i, s) == (s.(precision := -1, kind := Precision), i + 2)
  {
    StandsFirst(fmt, i, ".*" + u);
    assert (".*" + u)[1..] == "*" + u;
    StandsFirst(fmt, i + 1, "*" + u);
  }

  /** What follows the flags of a conversion. */
  function AfterFlags(w: F.Count, p: F.Count, z: F.Size, x: char): string {
    F.WidthText(w) + (F.PrecisionText(p) + (F.SizeText(z) + [x]))
  }

  predicate LegalWidth(w: F.Count) {
    match w
    case Written(d) => F.AllDigits(d) && d[0] != '0' && F.Value(d) <= 0x7f_ffff
    case Dot => false
    case _ => true
  }

  lemma {:induction false} FirstAfterFlags(w: F.Count, p: F.Count, z: F.Size, x: char)
    requires LegalWidth(w) && x in "diuoxXcs"
    ensures var u := AfterFlags(w, p, z, x);
      u != "" && u[0] !in {'-', '+', ' ', '#', '0'} && u[0] != '%'
    ensures var v := F.PrecisionText(p) + (F.SizeText(z) + [x]);
      v != "" && !IsDigit(v[0]) && v[0] != '*'
  {
    FirstLetter(z, x);
  }

  /** The specification when flags and width have been read. */
  function Widthed(spec: Spec, f: string, w: F.Count): Spec
    requires LegalWidth(w)
  {
    spec.(kind := None, flags := WithFlags(f, NO_FLAGS), width := if w.Written? then F.Value(w.digits) else -1)
  }

  /** A conversion, its flags having been read. */
  ghost predicate Flagged(fmt: string, spec: Spec, g: Flags, i: nat) {
    fmt != [] && fmt[0] == '%' && spec.kind !in {Width, Precision}
    && ReadFlags(fmt, 1, NO_FLAGS) == (g, i) && i <= |fmt|
  }

  /** The steps of `format_decode` from there to the precision. */
  lemma {:induction false} DecodeDigits(fmt: string, spec: Spec, g: Flags, i: nat, n: nat, j: nat)
    requires Flagged(fmt, spec, g, i) && IsDigit(At(fmt, i)) && ReadNumber(fmt, i, 0) == (n, j) && Bits(n, WIDTHS) == n
    ensures Decode(fmt, spec) == Precised(fmt, j, spec.(kind := None, flags := g, width := n))
  {
    assert Literal(fmt, 0) == 0;
  }

  lemma {:induction false} DecodeStar(fmt: string, spec: Spec, g: Flags, i: nat)
    requires Flagged(fmt, spec, g, i) && At(fmt, i) == '*'
    ensures Decode(fmt, spec) == (spec.(kind := Width, flags := g, width := -1), i + 1)
  {
    assert Literal(fmt, 0) == 0;
  }

  lemma {:induction false} DecodeNone(fmt: string, spec: Spec, g: Flags, i: nat)
    requires Flagged(fmt, spec, g, i) && !IsDigit(At(fmt, i)) && At(fmt, i) != '*'
    ensures Decode(fmt, spec) == Precised(fmt, i, spec.(kind := None, flags := g, width := -1))
  {
    assert Literal(fmt, 0) == 0;
  }

  lemma {:induction false} WidthRead(fmt: string, f: string, w: F.Count, v: string, i: nat, j: nat, spec: Spec)
    requires Stands(fmt, 0, "%" + (f + (F.WidthText(w) + v))) && (forall k :: 0 <= k < |f| ==> f[k] in "-+ #0")
    requires LegalWidth(w) && spec.kind !in {Width, Precision} && i == 1 + |f| && j == i + |F.WidthText(w)|
    requires v != "" && !IsDigit(v[0]) && v[0] != '*' && (F.WidthText(w) + v)[0] !in {'-', '+', ' ', '#', '0'}
    ensures fmt != [] && Stands(fmt, j, v)
    ensures w != F.Star ==> Decode(fmt, spec) == Precised(fmt, j, Widthed(spec, f, w))
    ensures w == F.Star ==> Decode(fmt, spec) == (Widthed(spec, f, w).(kind := Width), j)
  {
    FlagsThen(fmt, f, F.WidthText(w) + v);
    WidthDone(fmt, i, w, v);
    var g := WithFlags(f, NO_FLAGS);
    match w {
      case Written(d) => DecodeDigits(fmt, spec, g, i, F.Value(d), j);
      case Star => DecodeStar(fmt, spec, g, i);
      case Absent => DecodeNone(fmt, spec, g, i);
    }
  }

  lemma {:induction false} FlagsThen(fmt: string, f: string, u: string)
    requires Stands(fmt, 0, "%" + (f + u)) && (forall k :: 0 <= k < |f| ==> f[k] in "-+ #0")
    requires u != "" && u[0] !in {'-', '+', ' ', '#', '0'}
    ensures fmt != [] && fmt[0] == '%' && Stands(fmt, 1 + |f|, u)
    ensures ReadFlags(fmt, 1, NO_FLAGS) == (WithFlags(f, NO_FLAGS), 1 + |f|)
  {
    StandsFirst(fmt, 0, "%" + (f + u));
    assert ("%" + (f + u))[1..] == f + u;
    StandsParts(fmt, 1, f, u);
    StandsFirst(fmt, 1 + |f|, u);
    FlagsRead(fmt, 1, f, NO_FLAGS);
  }

  lemma {:induction false} WidthDone(fmt: string, i: nat, w: F.Count, v: string)
    requires LegalWidth(w) && Stands(fmt, i, F.WidthText(w) + v) && v != "" && !IsDigit(v[0]) && v[0] != '*'
    ensures Stands(fmt, i + |F.WidthText(w)|, v)
    ensures match w
      case Written(d) => IsDigit(At(fmt, i)) && ReadNumber(fmt, i, 0) == (F.Value(d), i + |d|)
        && Bits(F.Value(d), WIDTHS) == F.Value(d)
      case Star => At(fmt, i) == '*'
      case _ => !IsDigit(At(fmt, i)) && At(fmt, i) != '*'
  {
    StandsParts(fmt, i, F.WidthText(w), v);
    StandsFirst(fmt, i + |F.WidthText(w)|, v);
    match w {
      case Written(d) =>
        StandsFirst(fmt, i, d);
        DigitsRead(fmt, i, d, 0);
        ValueIs(d);
      case Star => StandsFirst(fmt, i, "*");
      case _ =>
    }
  }
}
