/** What `vsnprintf` of `lib/vsprintf.c` prints, as text, without regard to the room there is for it. */
module PrintSpec {

  import opened Decimal
  import opened Machine

  datatype Kind = None | Width | Precision | Char | Str | Ptr | Percent | Invalid
    | LongLong | ULong | Long | UByte | Byte | UShort | Short | UInt | Int | SizeT | PtrDiff

  datatype Flags = Flags(sign: bool, left: bool, plus: bool, space: bool, zeropad: bool, small: bool, special: bool)

  /** `struct printf_spec`. */
  datatype Spec = Spec(kind: Kind, width: int, flags: Flags, base: nat, precision: int)

  const NO_FLAGS := Flags(false, false, false, false, false, false, false)

  /** What `vsnprintf` starts with. */
  const START := Spec(None, 0, NO_FLAGS, 0, 0)

  datatype Arg = Num(n: int) | Text(s: string) | Null

  // ---------------------------------------------------------------- integers

  function Fill(c: char, n: int): (t: string)
    ensures |t| == if n > 0 then n else 0
  {
    if n <= 0 then [] else seq(n, i => c)
  }

  function Reversed(t: string): (r: string)
    ensures |r| == |t|
  {
    seq(|t|, i requires 0 <= i < |t| => t[|t| - 1 - i])
  }

  /** An element of `hex_asc_upper`, in lower case if need be. */
  function Glyph(x: nat, small: bool): char
    requires x < 16
  {
    if x < 10 then '0' + x as char else (if small then 'a' else 'A') + (x - 10) as char
  }

  predicate Base(b: nat) {
    b == 8 || b == 10 || b == 16
  }

  /** The numeral of `n`, the lowest digit first. */
  function Numeral(n: nat, b: nat, small: bool): (t: string)
    requires Base(b)
    ensures |t| >= 1
  {
    if n < b then [Glyph(n, small)] else [Glyph(n % b, small)] + Numeral(n / b, b, small)
  }

  lemma {:induction false} DecimalNumeral(n: nat, small: bool)
    ensures Numeral(n, 10, small) == Dec(n)
  {
    if n >= 10 {
      DecimalNumeral(n / 10, small);
    }
  }

  function Pow8(k: nat): nat {
    if k == 0 then 1 else 8 * Pow8(k - 1)
  }

  lemma {:induction false} Octals()
    ensures Pow8(22) >= LONGLONG
  {
    assert Pow8(8) == 0x100_0000;
    assert Pow8(16) == 0x1_0000_0000_0000;
    assert Pow8(22) == 64 * LONGLONG / 16;
  }

  function SignOf(num: nat, f: Flags): string {
    if !f.sign then "" else if num >= LONGLONG / 2 then "-" else if f.plus then "+" else if f.space then " " else ""
  }

  function PrefixOf(num: nat, base: nat, f: Flags): string {
    if !f.special || base == 10 then ""
    else if base == 16 then ['0', if f.small then 'x' else 'X']
    else if num != 0 then "0" else ""
  }

  function Magnitude(num: nat, f: Flags): (n: nat)
    requires num < LONGLONG
    ensures n < LONGLONG
  {
    if f.sign && num >= LONGLONG / 2 then LONGLONG - num else num
  }

  /** What comes before the digits. */
  function Lead(f: Flags, room: int, sign: string, prefix: string): string {
    Fill(' ', if f.left || f.zeropad then 0 else room)
    + (sign + (prefix + Fill('0', if !f.left && f.zeropad then room else 0)))
  }

  /** The digits, given the lowest first, and what comes after them. */
  function Trail(f: Flags, room: int, zeros: int, digits: string): string {
    Fill('0', zeros) + (Reversed(digits) + Fill(' ', if f.left then room else 0))
  }

  /** `number`: filling, sign, prefix, zeros, digits, filling. */
  function NumberText(num: nat, spec: Spec): string
    requires num < LONGLONG && Base(spec.base)
  {
    var f := spec.flags;
    var digits := Numeral(Magnitude(num, f), spec.base, f.small);
    var prec := if |digits| > spec.precision then |digits| else spec.precision;
    var room := spec.width - |SignOf(num, f)| - |PrefixOf(num, spec.base, f)| - prec;
    Lead(f, room, SignOf(num, f), PrefixOf(num, spec.base, f)) + Trail(f, room, prec - |digits|, digits)
  }

  // ---------------------------------------------------------------- bit fields

  const WIDTHS: nat := 0x100_0000
  const PRECISIONS: nat := 0x1_0000
  /** `FIELD_WIDTH_MAX` and `PRECISION_MAX`. */
  const WIDTH_MAX: int := 0x7f_ffff
  const PRECISION_MAX: int := 0x7fff

  /** What is left of a number in a signed bit field. */
  function Bits(n: int, m: nat): int
    requires m > 0
  {
    var u := n % m;
    if u >= m / 2 then u - m else u
  }

  // ---------------------------------------------------------------- characters and strings

  /** `--spec.field_width`, in its bit field. */
  function Less(w: int): int {
    Bits(w - 1, WIDTHS)
  }

  /** The width after `while (--spec.field_width > 0)`. */
  function Spent(w: int): int {
    if Less(w) > 0 then 0 else Less(w)
  }

  /** The case for `%c`: spaces before the character unless `left`, and after it what the width then asks for. */
  function CharText(c: char, spec: Spec): string {
    var w := spec.width;
    Fill(' ', if spec.flags.left then 0 else Less(w))
    + ([c] + Fill(' ', Less(if spec.flags.left then w else Spent(w))))
  }

  /** The characters before a NUL, `lim` at most unless `lim` is negative. */
  function Limited(s: string, lim: int): string {
    if s == [] || s[0] == '\0' || lim == 0 then [] else [s[0]] + Limited(s[1..], lim - 1)
  }

  function Widened(t: string, spec: Spec): string {
    var fill := Fill(' ', spec.width - |t|);
    if spec.flags.left then t + fill else fill + t
  }

  function StringText(a: Arg, spec: Spec): string {
    match a
    case Text(s) => Widened(Limited(s, spec.precision), spec)
    case Null => Widened(Limited("(null)", if spec.precision == -1 then 8 else spec.precision), spec)
    case Num(_) => Widened(Limited("(efault)", if spec.precision == -1 then 8 else spec.precision), spec)
  }

  // ---------------------------------------------------------------- the format

  function At(s: string, i: nat): char {
    if i < |s| then s[i] else '\0'
  }

  predicate IsDigit(c: char) {
    '0' <= c <= '9'
  }

  /** The characters before the next `%`. */
  function Literal(fmt: string, i: nat): (j: nat)
    requires i <= |fmt|
    ensures i <= j <= |fmt|
    decreases |fmt| - i
  {
    if i == |fmt| || fmt[i] == '%' then i else Literal(fmt, i + 1)
  }

  function OneFlag(c: char, f: Flags): Flags {
    match c
    case '-' => f.(left := true)
    case '+' => f.(plus := true)
    case ' ' => f.(space := true)
    case '#' => f.(special := true)
    case _ => f.(zeropad := true)
  }

  function ReadFlags(fmt: string, i: nat, f: Flags): (r: (Flags, nat))
    requires i <= |fmt|
    ensures i <= r.1 <= |fmt|
    decreases |fmt| - i
  {
    if i < |fmt| && fmt[i] in {'-', '+', ' ', '#', '0'} then ReadFlags(fmt, i + 1, OneFlag(fmt[i], f)) else (f, i)
  }

  /** `skip_atoi`. */
  function ReadNumber(fmt: string, i: nat, acc: nat): (r: (nat, nat))
    requires i <= |fmt|
    ensures i <= r.1 <= |fmt|
    decreases |fmt| - i
  {
    if i < |fmt| && IsDigit(fmt[i]) then ReadNumber(fmt, i + 1, acc * 10 + (fmt[i] - '0') as nat) else (acc, i)
  }

  /** A length as an `int`, which holds it up to `INT_MAX`. */
  function AsInt(n: nat): (r: int)
    ensures n < WORD ==> (r == n <==> n <= INT_MAX)
  {
    Bits(n, WORD)
  }

  /** `format_decode` from the conversion letter on. */
  function Conversion(fmt: string, i: nat, qualifier: char, spec: Spec): (r: (Spec, nat))
    requires i <= |fmt|
    ensures i <= r.1 <= |fmt| && (r.0.kind != Invalid ==> i < r.1)
    ensures r.0.kind !in {None, Width, Precision} && Base(r.0.base)
    ensures r.0.width == spec.width && r.0.precision == spec.precision && r.0.flags.left == spec.flags.left
  {
    var s := spec.(base := 10);
    match At(fmt, i)
    case 'c' => (s.(kind := Char), i + 1)
    case 's' => (s.(kind := Str), i + 1)
    case 'p' => (s.(kind := Ptr), i + 1)
    case '%' => (s.(kind := Percent), i + 1)
    case 'o' => (Sized(s.(base := 8), qualifier), i + 1)
    case 'x' => (Sized(s.(base := 16, flags := s.flags.(small := true)), qualifier), i + 1)
    case 'X' => (Sized(s.(base := 16), qualifier), i + 1)
    case 'd' => (Sized(s.(flags := s.flags.(sign := true)), qualifier), i + 1)
    case 'i' => (Sized(s.(flags := s.flags.(sign := true)), qualifier), i + 1)
    case 'u' => (Sized(s, qualifier), i + 1)
    case _ => (s.(kind := Invalid), i)
  }

  function Sized(s: Spec, qualifier: char): (r: Spec)
    ensures r == s.(kind := r.kind)
    ensures r.kind in {LongLong, ULong, Long, UByte, Byte, UShort, Short, UInt, Int, SizeT, PtrDiff}
  {
    var signed := s.flags.sign;
    match qualifier
    case 'L' => s.(kind := LongLong)
    case 'l' => s.(kind := if signed then Long else ULong)
    case 'z' => s.(kind := SizeT)
    case 't' => s.(kind := PtrDiff)
    case 'H' => s.(kind := if signed then Byte else UByte)
    case 'h' => s.(kind := if signed then Short else UShort)
    case _ => s.(kind := if signed then Int else UInt)
  }

  /** `format_decode` from the qualifier on. */
  function Qualified(fmt: string, i: nat, spec: Spec): (r: (Spec, nat))
    requires i <= |fmt|
    ensures i <= r.1 <= |fmt| && (r.0.kind != Invalid ==> i < r.1)
    ensures r.0.kind !in {None, Width, Precision} && Base(r.0.base)
    ensures r.0.width == spec.width && r.0.precision == spec.precision && r.0.flags.left == spec.flags.left
  {
    var c := At(fmt, i);
    if c in {'h', 'l', 'L', 'z', 't'} then
      if c == At(fmt, i + 1) && c == 'l' then Conversion(fmt, i + 2, 'L', spec)
      else if c == At(fmt, i + 1) && c == 'h' then Conversion(fmt, i + 2, 'H', spec)
      else Conversion(fmt, i + 1, c, spec)
    else Conversion(fmt, i, '\0', spec)
  }

  /** `format_decode` from the precision on. */
  function Precised(fmt: string, i: nat, spec: Spec): (r: (Spec, nat))
    requires i <= |fmt|
    ensures i <= r.1 <= |fmt| && (r.0.kind != Invalid ==> i < r.1)
    ensures r.0.kind !in {None, Width} && (r.0.kind != Precision ==> Base(r.0.base))
    ensures r.0.width == spec.width && r.0.flags.left == spec.flags.left
  {
    if At(fmt, i) != '.' then Qualified(fmt, i, spec.(precision := -1))
    else if IsDigit(At(fmt, i + 1)) then
      var (n, j) := ReadNumber(fmt, i + 1, 0);
      var p := Bits(n, PRECISIONS);
      Qualified(fmt, j, spec.(precision := if p < 0 then 0 else p))
    else if At(fmt, i + 1) == '*' then (spec.(precision := -1, kind := Precision), i + 2)
    else Qualified(fmt, i + 1, spec.(precision := -1))
  }

  /** `format_decode`: what comes next in the format, and how far it reaches. */
  function Decode(fmt: string, spec: Spec): (r: (Spec, nat))
    requires fmt != []
    ensures r.1 <= |fmt| && (r.0.kind != Invalid ==> r.1 > 0)
    ensures r.0.kind !in {None, Width, Precision} ==> Base(r.0.base)
  {
    if spec.kind == Width then
      var s := if spec.width < 0 then spec.(width := Bits(-spec.width, WIDTHS), flags := spec.flags.(left := true))
          else spec;
      Precised(fmt, 0, s.(kind := None))
    else if spec.kind == Precision then
      Qualified(fmt, 0, spec.(precision := if spec.precision < 0 then 0 else spec.precision, kind := None))
    else if Literal(fmt, 0) > 0 then (spec.(kind := None), Literal(fmt, 0))
    else
      var (f, i) := ReadFlags(fmt, 1, NO_FLAGS);
      var s := spec.(kind := None, flags := f, width := -1);
      if IsDigit(At(fmt, i)) then
        var (n, j) := ReadNumber(fmt, i, 0);
        Precised(fmt, j, s.(width := Bits(n, WIDTHS)))
      else if At(fmt, i) == '*' then (s.(kind := Width), i + 1)
      else Precised(fmt, i, s)
  }

  /** `set_field_width`. */
  function SetWidth(spec: Spec, n: int): Spec {
    spec.(width := if Bits(n, WIDTHS) == n then n else if n < -WIDTH_MAX then -WIDTH_MAX else WIDTH_MAX)
  }

  /** `set_precision`. */
  function SetPrecision(spec: Spec, n: int): Spec {
    spec.(precision := if Bits(n, PRECISIONS) == n then n else if n < 0 then 0 else PRECISION_MAX)
  }

  function Widen(n: int, m: nat, signed: bool): (r: nat)
    requires 0 < m <= LONGLONG
    ensures r < LONGLONG
  {
    if signed then Bits(n, m) % LONGLONG else n % m
  }

  /** The integer argument as `vsnprintf` hands it to `number`. */
  function Integer(kind: Kind, sign: bool, n: int): (r: nat)
    ensures r < LONGLONG
  {
    match kind
    case LongLong => Widen(n, LONGLONG, true)
    case ULong => Widen(n, WORD, false)
    case Long => Widen(n, WORD, true)
    case SizeT => Widen(n, WORD, sign)
    case PtrDiff => Widen(n, WORD, true)
    case UByte => Widen(n, 0x100, false)
    case Byte => Widen(n, 0x100, true)
    case UShort => Widen(n, 0x1_0000, false)
    case Short => Widen(n, 0x1_0000, true)
    case Int => Widen(n, WORD, true)
    case _ => Widen(n, WORD, false)
  }

  function Head(args: seq<Arg>): Arg {
    if args == [] then Null else args[0]
  }

  function Tail(args: seq<Arg>): seq<Arg> {
    if args == [] then [] else args[1..]
  }

  function IntOf(a: Arg): int {
    if a.Num? then a.n else 0
  }

  /** The letters and digits after `%p`. */
  function Alnums(fmt: string): (n: nat)
    ensures n <= |fmt|
  {
    if fmt != [] && (IsDigit(fmt[0]) || 'a' <= fmt[0] <= 'z' || 'A' <= fmt[0] <= 'Z') then 1 + Alnums(fmt[1..]) else 0
  }

  /** What one step of the loop of `vsnprintf` prints. */
  function Piece(pointer: (string, Arg, Spec) -> string, s: Spec, literal: string, rest: string, a: Arg): string
    requires s.kind !in {None, Width, Precision, Invalid} ==> Base(s.base)
  {
    match s.kind
    case None => literal
    case Width => []
    case Precision => []
    case Char => CharText((IntOf(a) % 256) as char, s)
    case Str => StringText(a, s)
    case Ptr => pointer(rest, a, s)
    case Percent => "%"
    case Invalid => []
    case _ => NumberText(Integer(s.kind, s.flags.sign, IntOf(a)), s)
  }

  function NextSpec(s: Spec, a: Arg): Spec {
    var n := Bits(IntOf(a), WORD);
    if s.kind == Width then SetWidth(s, n) else if s.kind == Precision then SetPrecision(s, n) else s
  }

  function NextFormat(s: Spec, rest: string): (r: string)
    ensures |r| <= |rest|
  {
    if s.kind == Ptr then rest[Alnums(rest)..] else rest
  }

  function NextArgs(s: Spec, args: seq<Arg>): seq<Arg> {
    if s.kind in {None, Percent} then args else Tail(args)
  }

  /** All that `vsnprintf` prints; `pointer` is what `%p` prints, given what follows it. */
  function Output(pointer: (string, Arg, Spec) -> string, fmt: string, spec: Spec, args: seq<Arg>): string
    decreases |fmt|
  {
    if fmt == [] then []
    else
      var (s, read) := Decode(fmt, spec);
      if s.kind == Invalid then []
      else
        var rest, a := fmt[read..], Head(args);
        Piece(pointer, s, fmt[..read], rest, a) + Output(pointer, NextFormat(s, rest), NextSpec(s, a),
            NextArgs(s, args))
  }
}
