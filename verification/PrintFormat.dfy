/** What a format asks for, in the terms of the language C as the kernel has it: items of a format, how they are spelt,
    and the text they stand for. Of the printer this takes the arguments of `PrintSpec` and nothing else. */
module PrintFormat {

  import PrintSpec

  type Arg = PrintSpec.Arg

  datatype Size = HH | H | Plain | L | LL | BigL | Z | T

  /** A width or precision: none, digits, `*`, or, for a precision, a dot with nothing behind it. */
  datatype Count = Absent | Written(digits: string) | Star | Dot

  datatype Item =
    | Words(text: string)
    | PercentSign
    | Conversion(flags: string, width: Count, precision: Count, size: Size, letter: char)

  // ---------------------------------------------------------------- how it is spelt

  function SizeText(z: Size): string {
    match z
    case HH => "hh"
    case H => "h"
    case Plain => ""
    case L => "l"
    case LL => "ll"
    case BigL => "L"
    case Z => "z"
    case T => "t"
  }

  function WidthText(w: Count): string {
    match w
    case Written(d) => d
    case Star => "*"
    case _ => ""
  }

  function PrecisionText(p: Count): string {
    match p
    case Absent => ""
    case Written(d) => "." + d
    case Star => ".*"
    case Dot => "."
  }

  function Spelt(i: Item): string {
    match i
    case Words(t) => t
    case PercentSign => "%%"
    case Conversion(f, w, p, z, x) => "%" + (f + (WidthText(w) + (PrecisionText(p) + (SizeText(z) + [x]))))
  }

  function SpeltAll(items: seq<Item>): string {
    if items == [] then "" else Spelt(items[0]) + SpeltAll(items[1..])
  }

  predicate AllDigits(d: string) {
    d != "" && forall i :: 0 <= i < |d| ==> '0' <= d[i] <= '9'
  }

  function Value(d: string): nat
    requires d != "" ==> AllDigits(d)
  {
    if d == "" then 0 else Value(d[..|d| - 1]) * 10 + (d[|d| - 1] - '0') as nat
  }

  /** Numbers that the fields of a conversion hold; for others see `PrintWidths`. */
  predicate Legal(i: Item) {
    match i
    case Words(t) => '%' !in t
    case PercentSign => true
    case Conversion(f, w, p, z, x) =>
      (forall k :: 0 <= k < |f| ==> f[k] in "-+ #0")
      && (match w
          case Written(d) => AllDigits(d) && d[0] != '0' && Value(d) <= 0x7f_ffff
          case Dot => false
          case _ => true)
      && (p.Written? ==> AllDigits(p.digits) && Value(p.digits) <= 0x7fff)
      && x in "diuoxXcs"
  }

  // ---------------------------------------------------------------- what it stands for

  function Repeat(c: char, n: int): string {
    if n <= 0 then "" else [c] + Repeat(c, n - 1)
  }

  /** Filled up with spaces. */
  function Padded(t: string, left: bool, width: int): string {
    if left then t + Repeat(' ', width - |t|) else Repeat(' ', width - |t|) + t
  }

  function Digit(x: nat, upper: bool): char
    requires x < 16
  {
    if upper then "0123456789ABCDEF"[x] else "0123456789abcdef"[x]
  }

  /** The number, the highest digit first. */
  function Numeral(n: nat, base: nat, upper: bool): string
    requires 2 <= base <= 16
  {
    if n < base then [Digit(n, upper)] else Numeral(n / base, base, upper) + [Digit(n % base, upper)]
  }

  /** How many values a type has. */
  function Values(z: Size): nat {
    match z
    case HH => 0x100
    case H => 0x1_0000
    case LL => 0x1_0000_0000_0000_0000
    case BigL => 0x1_0000_0000_0000_0000
    case _ => 0x1_0000_0000
  }

  function Signed(n: int, m: nat): int
    requires m > 0
  {
    (n + m / 2) % m - m / 2
  }

  /** The argument as the type that the conversion asks for. An unsigned conversion of a `ptrdiff_t` takes the signed
      number to 64 bits. */
  function Typed(z: Size, signed: bool, n: int): int {
    if signed then Signed(n, Values(z))
    else if z == T then Signed(n, Values(z)) % 0x1_0000_0000_0000_0000
    else n % Values(z)
  }

  function SignText(v: int, flags: string): string {
    if v < 0 then "-" else if '+' in flags then "+" else if ' ' in flags then " " else ""
  }

  function PrefixText(v: int, letter: char): string {
    match letter
    case 'x' => "0x"
    case 'X' => "0X"
    case 'o' => if v == 0 then "" else "0"
    case _ => ""
  }

  /** Zeros up to the precision, and the digits. */
  function Body(digits: string, precision: int): string {
    Repeat('0', precision - |digits|) + digits
  }

  /** Filled up to the width, with zeros behind sign and prefix or with spaces on either side. */
  function Laid(head: string, body: string, zeros: bool, left: bool, width: int): string {
    if zeros && !left then head + (Repeat('0', width - |head| - |body|) + body) else Padded(head + body, left, width)
  }

  function Integer(v: int, flags: string, left: bool, width: int, precision: int, letter: char): string {
    var sign := if letter in "di" then SignText(v, flags) else "";
    var prefix := if '#' in flags then PrefixText(v, letter) else "";
    var base := if letter == 'o' then 8 else if letter in "xX" then 16 else 10;
    var digits := Numeral(if v < 0 then -v else v, base, letter == 'X');
    Laid(sign + prefix, Body(digits, precision), '0' in flags, left, width)
  }

  /** The characters before a NUL. */
  function BeforeNul(s: string): string {
    if s == "" || s[0] == '\0' then "" else [s[0]] + BeforeNul(s[1..])
  }

  function Chars(a: Arg): string {
    match a
    case Text(s) => BeforeNul(s)
    case Null => "(null)"
    case Num(_) => "(efault)"
  }

  function UpTo(t: string, precision: int): string {
    if 0 <= precision < |t| then t[..precision] else t
  }

  function Lesser(a: int, b: int): int {
    if a < b then a else b
  }

  /** The arguments that an item takes. */
  function Takes(i: Item): nat {
    if i.Conversion? then (if i.width == Star then 1 else 0) + (if i.precision == Star then 1 else 0) + 1 else 0
  }

  /** They are there and have the right types. A width of -8388608 is left to `PrintWidths`. */
  predicate Suit(i: Item, args: seq<Arg>) {
    |args| >= Takes(i)
    && (i.Conversion? ==>
          (i.width == Star ==> IsInt(args[0]) && args[0].n != -0x80_0000)
          && (i.precision == Star ==> IsInt(args[Takes(i) - 2]))
          && (i.letter != 's' ==> args[Takes(i) - 1].Num?))
  }

  predicate IsInt(a: Arg) {
    a.Num? && -0x8000_0000 <= a.n <= 0x7fff_ffff
  }

  /** What an item stands for. */
  function Meaning(i: Item, args: seq<Arg>): string
    requires Legal(i) && Suit(i, args)
  {
    match i
    case Words(t) => t
    case PercentSign => "%"
    case Conversion(f, w, p, z, x) =>
      var a := args[Takes(i) - 1];
      var left := '-' in f || (w == Star && args[0].n < 0);
      var width := match w
        case Written(d) => Value(d)
        case Star => Lesser(if args[0].n < 0 then -args[0].n else args[0].n, 0x7f_ffff)
        case _ => 0;
      var precision := match p
        case Written(d) => Value(d)
        case Star => if args[Takes(i) - 2].n < 0 then 0 else Lesser(args[Takes(i) - 2].n, 0x7fff)
        case _ => -1;
      if x == 's' then Padded(UpTo(Chars(a), precision), left, width)
      else if x == 'c' then Padded([(a.n % 256) as char], left, width)
      else Integer(Typed(z, x in "di", a.n), f, left, width, precision, x)
  }

  /** All items, with their arguments. */
  predicate AllSuit(items: seq<Item>, args: seq<Arg>)
    decreases |items|
  {
    items == []
    || (Legal(items[0]) && Suit(items[0], args) && AllSuit(items[1..], args[Takes(items[0])..]))
  }

  function AllMean(items: seq<Item>, args: seq<Arg>): string
    requires AllSuit(items, args)
    decreases |items|
  {
    if items == [] then "" else Meaning(items[0], args) + AllMean(items[1..], args[Takes(items[0])..])
  }
}
