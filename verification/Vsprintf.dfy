/** `vsnprintf` of `lib/vsprintf.c`: it writes through a pointer that moves on even past the end of the
    buffer, and every write is guarded. */
module Vsprintf {

  import opened Decimal
  import opened Machine
  import opened PrintSpec

  lemma {:induction false} Shift(n: nat, base: nat, k: nat)
    requires (base == 8 || base == 16) && n < Pow8(k + 1)
    ensures 0 <= n / base < Pow8(k) && 0 <= n % base < base
  {
    assert Pow8(k + 1) == 8 * Pow8(k);
    if base == 16 {
      assert n / 16 < Pow8(k);
    }
  }

  lemma {:induction false} NumeralStep(n: nat, base: nat, small: bool)
    requires Base(base) && 0 <= n / base && 0 <= n % base < base
    ensures n > 0 ==> Numeral(n, base, small) == [Glyph(n % base, small)] + Rest(n / base, base, small)
  {
    if base == 8 {
    } else if base == 16 {
    }
  }

  function Rest(n: nat, base: nat, small: bool): string
    requires Base(base)
  {
    if n == 0 then [] else Numeral(n, base, small)
  }

  /** The digits of `number` in octal or hexadecimal, the lowest first; the mask and the shift are a
      remainder and a quotient. */
  method ShiftOut(tmp: array<char>, num: nat, base: nat, small: bool) returns (i: nat)
    requires 0 < num < LONGLONG && (base == 8 || base == 16) && tmp.Length == 24
    modifies tmp
    ensures i <= 24 && tmp[..i] == Numeral(num, base, small)
  {
    i := 0;
    var n: nat := num;
    Octals();
    while n != 0
      invariant i <= 22 && n < Pow8(22 - i)
      invariant Numeral(num, base, small) == tmp[..i] + Rest(n, base, small)
      decreases 22 - i
    {
      ghost var done, goal := tmp[..i], Numeral(num, base, small);
      Shift(n, base, 21 - i);
      NumeralStep(n, base, small);
      var c := Glyph(n % base, small);
      tmp[i] := c;
      n := n / base;
      i := i + 1;
      assert tmp[..i] == done + [c];
      Assoc(done, [c], Rest(n, base, small));
    }
  }

  method PutNumeral(tmp: array<char>, num: nat, base: nat, small: bool) returns (i: nat)
    requires num < LONGLONG && Base(base) && tmp.Length == 24
    modifies tmp
    ensures i <= 24 && tmp[..i] == Numeral(num, base, small)
  {
    if num < base {
      tmp[0] := Glyph(num, small);
      i := 1;
    } else if base != 10 {
      i := ShiftOut(tmp, num, base, small);
    } else {
      i := PutDec(tmp, 0, num);
      DecimalNumeral(num, small);
    }
  }

  lemma {:induction false} Joined(o: string, o1: string, o2: string, num: nat, spec: Spec, digits: string,
      precision: int, room: int)
    requires num < LONGLONG && Base(spec.base)
    requires digits == Numeral(Magnitude(num, spec.flags), spec.base, spec.flags.small)
    requires precision == if |digits| > spec.precision then |digits| else spec.precision
    requires room == spec.width - |SignOf(num, spec.flags)| - |PrefixOf(num, spec.base, spec.flags)| - precision
    requires o1 == o + Lead(spec.flags, room, SignOf(num, spec.flags), PrefixOf(num, spec.base, spec.flags))
    requires o2 == o1 + Trail(spec.flags, room, precision - |digits|, digits)
    ensures o2 == o + NumberText(num, spec)
  {
    Assoc(o, Lead(spec.flags, room, SignOf(num, spec.flags), PrefixOf(num, spec.base, spec.flags)),
        Trail(spec.flags, room, precision - |digits|, digits));
  }

  /** The sign, the magnitude, and the width that sign and prefix leave. */
  method Measure(num: nat, spec: Spec) returns (n: nat, sign: char, width: int)
    requires num < LONGLONG && Base(spec.base)
    ensures n == Magnitude(num, spec.flags) && SignOf(num, spec.flags) == if sign == '\0' then "" else [sign]
    ensures width == spec.width - |SignOf(num, spec.flags)| - |PrefixOf(num, spec.base, spec.flags)|
  {
    var f := spec.flags;
    n, sign, width := num, '\0', spec.width;
    if f.sign {
      if num >= LONGLONG / 2 {
        sign := '-';
        n := LONGLONG - num;
        width := width - 1;
      } else if f.plus {
        sign := '+';
        width := width - 1;
      } else if f.space {
        sign := ' ';
        width := width - 1;
      }
    }
    if f.special && spec.base != 10 {
      if spec.base == 16 {
        width := width - 2;
      } else if num != 0 {
        width := width - 1;
      }
    }
  }

  /** What `b` has room for of `o` with spaces put in at `at`. */
  ghost predicate Spaced(b: string, o: string, at: nat, spaces: nat) {
    at <= |o|
    && (forall j :: 0 <= j < |b| && j < at ==> b[j] == o[j])
    && (forall j :: 0 <= j < |b| && at <= j < at + spaces ==> b[j] == ' ')
    && (forall j :: 0 <= j < |b| && at + spaces <= j < |o| + spaces ==> b[j] == o[j - spaces])
  }

  lemma {:induction false} SpacedText(b: string, o: string, at: nat, spaces: nat)
    requires Spaced(b, o, at, spaces)
    ensures var t := o[..at] + Fill(' ', spaces) + o[at..];
      var k := if |t| < |b| then |t| else |b|;
      b[..k] == t[..k]
  {
    var t := o[..at] + Fill(' ', spaces) + o[at..];
    var k := if |t| < |b| then |t| else |b|;
    forall j | 0 <= j < k
      ensures b[j] == t[j]
    {
      if at + spaces <= j {
        assert t[j] == o[at..][j - spaces - at];
      }
    }
  }

  /** The buffer, its end and the position `str`. `out` is what was printed so far, stored or not. */
  class Sink {
    const buf: array<char>
    const size: nat
    var str: nat
    ghost var out: string

    ghost function Kept(): nat
      reads this
    {
      if str < size then str else size
    }

    ghost predicate Valid()
      reads this, buf
    {
      size <= buf.Length && str == |out| && buf[..Kept()] == out[..Kept()]
    }

    constructor (buf: array<char>, size: nat)
      requires size <= buf.Length
      ensures this.buf == buf && this.size == size && Valid() && out == []
    {
      this.buf, this.size, str, out := buf, size, 0, [];
    }

    /** A guarded write. */
    method Put(c: char)
      requires Valid()
      modifies this, buf
      ensures Valid() && out == old(out) + [c] && buf[size..] == old(buf[size..])
    {
      if str < size {
        buf[str] := c;
      }
      str := str + 1;
      out := out + [c];
      assert out[..Kept()] == old(out)[..old(Kept())] + if old(str) < size then [c] else [];
    }

    /** `while (--n >= 0)` of guarded writes; returns what is left of `n`. */
    method PutMany(c: char, n: int) returns (left: int)
      requires Valid()
      modifies this, buf
      ensures Valid() && out == old(out) + Fill(c, n) && left < 0 && buf[size..] == old(buf[size..])
    {
      left := n - 1;
      while left >= 0
        invariant Valid() && left < n && out == old(out) + Fill(c, if left >= 0 then n - 1 - left else n)
        invariant buf[size..] == old(buf[size..])
        invariant left >= -1 || left == n - 1
      {
        Put(c);
        left := left - 1;
      }
    }

    method PutAll(t: string)
      requires Valid()
      modifies this, buf
      ensures Valid() && out == old(out) + t && buf[size..] == old(buf[size..])
    {
      var i := 0;
      while i < |t|
        invariant 0 <= i <= |t| && Valid() && out == old(out) + t[..i] && buf[size..] == old(buf[size..])
      {
        Put(t[i]);
        assert t[..i + 1] == t[..i] + [t[i]];
        i := i + 1;
      }
      assert t[..i] == t;
    }

    /** The digits of `tmp`, the last first. */
    method PutReversed(tmp: array<char>, n: nat)
      requires Valid() && n <= tmp.Length && tmp != buf
      modifies this, buf
      ensures Valid() && out == old(out) + Reversed(tmp[..n]) && buf[size..] == old(buf[size..])
    {
      var i := n;
      ghost var r := Reversed(tmp[..n]);
      while i > 0
        invariant 0 <= i <= n && Valid() && out == old(out) + r[..n - i] && buf[size..] == old(buf[size..])
        invariant tmp[..n] == old(tmp[..n])
      {
        i := i - 1;
        assert r[..n - i] == r[..n - i - 1] + [tmp[i]];
        Put(tmp[i]);
      }
      assert r[..n] == r;
    }

    method PutSign(sign: char)
      requires Valid()
      modifies this, buf
      ensures Valid() && out == old(out) + (if sign == '\0' then "" else [sign]) && buf[size..] == old(buf[size..])
    {
      if sign != '\0' {
        Put(sign);
      }
    }

    method PutPrefix(num: nat, spec: Spec)
      requires Valid() && Base(spec.base)
      modifies this, buf
      ensures Valid() && out == old(out) + PrefixOf(num, spec.base, spec.flags) && buf[size..] == old(buf[size..])
    {
      if spec.flags.special && spec.base != 10 {
        if spec.base == 16 || num != 0 {
          Put('0');
        }
        if spec.base == 16 {
          Put(if spec.flags.small then 'x' else 'X');
        }
      }
    }

    /** What `number` writes before the digits; returns the width that is left. */
    method PutLead(num: nat, sign: char, width: int, spec: Spec) returns (left: int)
      requires Valid() && Base(spec.base)
      modifies this, buf
      ensures Valid() && buf[size..] == old(buf[size..])
      ensures out == old(out) + Lead(spec.flags, width, if sign == '\0' then "" else [sign],
          PrefixOf(num, spec.base, spec.flags))
      ensures if spec.flags.left then left == width else left < 0
    {
      var f := spec.flags;
      var zeropad := f.zeropad && !f.left;
      ghost var a := Fill(' ', if f.left || f.zeropad then 0 else width);
      ghost var s := if sign == '\0' then "" else [sign];
      ghost var p := PrefixOf(num, spec.base, f);
      ghost var z := Fill('0', if !f.left && f.zeropad then width else 0);
      left := width;
      if !(zeropad || f.left) {
        left := PutMany(' ', left);
      }
      assert out == old(out) + a;
      PutSign(sign);
      PutPrefix(num, spec);
      if !f.left {
        left := PutMany(if zeropad then '0' else ' ', left);
      }
      assert out == old(out) + a + s + p + z;
      Assoc(old(out) + a + s, p, z);
      Assoc(old(out) + a, s, p + z);
      Assoc(old(out), a, s + (p + z));
    }

    /** The digits in `tmp` and what `number` writes after them. */
    method PutTrail(tmp: array<char>, i: nat, precision: int, width: int, ghost room: int, spec: Spec)
      requires Valid() && i <= tmp.Length && tmp != buf && (if spec.flags.left then width == room else width < 0)
      modifies this, buf
      ensures Valid() && buf[size..] == old(buf[size..])
      ensures out == old(out) + Trail(spec.flags, room, precision - i, tmp[..i])
    {
      ghost var digits := tmp[..i];
      var left := PutMany('0', precision - i);
      assert tmp[..i] == digits;
      PutReversed(tmp, i);
      left := PutMany(' ', width);
      ghost var y, d, b := Fill('0', precision - i), Reversed(digits), Fill(' ', if spec.flags.left then room else 0);
      Assoc(old(out) + y, d, b);
      Assoc(old(out), y, d + b);
    }

    method Number(num: nat, spec: Spec)
      requires Valid() && num < LONGLONG && Base(spec.base)
      modifies this, buf
      ensures Valid() && out == old(out) + NumberText(num, spec) && buf[size..] == old(buf[size..])
    {
      var tmp := new char[24];
      var f := spec.flags;
      var n, sign, width := Measure(num, spec);
      var i := PutNumeral(tmp, n, spec.base, f.small);
      var precision := if i > spec.precision then i else spec.precision;
      width := width - precision;
      ghost var room, digits := width, tmp[..i];
      width := PutLead(num, sign, width, spec);
      ghost var o := out;
      assert tmp[..i] == digits;
      PutTrail(tmp, i, precision, width, room, spec);
      Joined(old(out), o, out, num, spec, digits, precision, room);
    }

    /** The end of what was printed, moved right by `spaces`, in the buffer as far as it reaches. */
    method MoveRight(len: nat, spaces: nat)
      requires Valid() && len <= str
      modifies buf
      ensures size <= buf.Length && buf[size..] == old(buf[size..])
      ensures Spaced(buf[..size], out, str - len, spaces)
    {
      var at := str - len;
      if at >= size {
        return;
      }
      var room := size - at;
      if room <= spaces {
        forall j | 0 <= j < room {
          buf[at + j] := ' ';
        }
        return;
      }
      var moved := if len > room - spaces then room - spaces else len;
      forall j | 0 <= j < moved {
        buf[at + spaces + j] := buf[at + j];
      }
      forall j | 0 <= j < spaces {
        buf[at + j] := ' ';
      }
    }

    /** `spaces` spaces put in before the last `len` characters. */
    method SpaceBefore(len: nat, spaces: nat)
      requires Valid() && len <= str
      modifies this, buf
      ensures Valid() && buf[size..] == old(buf[size..])
      ensures out == old(out)[..old(str) - len] + Fill(' ', spaces) + old(out)[old(str) - len..]
    {
      MoveRight(len, spaces);
      SpacedText(buf[..size], out, str - len, spaces);
      out := out[..str - len] + Fill(' ', spaces) + out[str - len..];
      str := str + spaces;
    }

    /** `widen_string`, `len` characters having been printed. */
    method WidenString(len: nat, spec: Spec)
      requires Valid() && len <= str
      modifies this, buf
      ensures Valid() && buf[size..] == old(buf[size..])
      ensures out == old(out)[..old(str) - len] + Widened(old(out)[old(str) - len..], spec)
    {
      ghost var pre, t := out[..str - len], out[str - len..];
      assert out == pre + t;
      if len >= spec.width {
        return;
      }
      var spaces := spec.width - len;
      if !spec.flags.left {
        SpaceBefore(len, spaces);
        Assoc(pre, Fill(' ', spaces), t);
        return;
      }
      var _ := PutMany(' ', spaces);
      Assoc(pre, t, Fill(' ', spaces));
    }

    method StringNocheck(s: string, spec: Spec, lim: int)
      requires Valid()
      modifies this, buf
      ensures Valid() && buf[size..] == old(buf[size..])
      ensures out == old(out) + Widened(Limited(s, lim), spec)
    {
      var i: nat, left := 0, lim;
      ghost var goal := Limited(s, lim);
      while left != 0 && i < |s| && s[i] != '\0'
        invariant i <= |s| && left == lim - i && Valid() && buf[size..] == old(buf[size..])
        invariant i <= |goal| && out == old(out) + goal[..i] && goal[i..] == Limited(s[i..], left)
        decreases |s| - i
      {
        assert s[i..][1..] == s[i + 1..];
        assert goal[..i + 1] == goal[..i] + [goal[i]] && goal[i..][0] == goal[i] && goal[i..][1..] == goal[i + 1..];
        Put(s[i]);
        i, left := i + 1, left - 1;
      }
      assert goal[i..] == [] && goal[..i] == goal;
      assert out[..str - i] == old(out) && out[str - i..] == goal;
      WidenString(i, spec);
    }

    /** `string`. */
    method String(a: Arg, spec: Spec)
      requires Valid()
      modifies this, buf
      ensures Valid() && buf[size..] == old(buf[size..])
      ensures out == old(out) + StringText(a, spec)
    {
      match a {
        case Text(s) => StringNocheck(s, spec, spec.precision);
        case Null => StringNocheck("(null)", spec, if spec.precision == -1 then 8 else spec.precision);
        case Num(_) => StringNocheck("(efault)", spec, if spec.precision == -1 then 8 else spec.precision);
      }
    }

    /** `while (--spec.field_width > 0)` of guarded spaces; returns the width that is left. */
    method PutSpaces(width: int) returns (left: int)
      requires Valid()
      modifies this, buf
      ensures Valid() && out == old(out) + Fill(' ', Less(width)) && left == Spent(width)
      ensures buf[size..] == old(buf[size..])
    {
      left := Less(width);
      while left > 0
        invariant Valid() && buf[size..] == old(buf[size..])
        invariant if Less(width) > 0 then 0 <= left <= Less(width) && out == old(out) + Fill(' ', Less(width) - left)
          else left == Less(width) && out == old(out)
      {
        Put(' ');
        left := Less(left);
      }
    }

    /** The case for `%c`. */
    method Character(c: char, spec: Spec)
      requires Valid()
      modifies this, buf
      ensures Valid() && buf[size..] == old(buf[size..])
      ensures out == old(out) + CharText(c, spec)
    {
      var width := spec.width;
      if !spec.flags.left {
        width := PutSpaces(width);
      }
      ghost var before, after := Fill(' ', if spec.flags.left then 0 else Less(spec.width)), Fill(' ', Less(width));
      assert out == old(out) + before;
      Put(c);
      var _ := PutSpaces(width);
      Assoc(old(out) + before, [c], after);
      Assoc(old(out), before, [c] + after);
    }

    /** The case for literal text, copied as far as there is room. */
    method Copy(t: string)
      requires Valid()
      modifies this, buf
      ensures Valid() && buf[size..] == old(buf[size..]) && out == old(out) + t
    {
      if str < size {
        var n := if |t| > size - str then size - str else |t|;
        forall j | 0 <= j < n {
          buf[str + j] := t[j];
        }
      }
      ghost var o := out;
      str := str + |t|;
      out := out + t;
      assert forall j :: 0 <= j < Kept() ==> buf[j] == out[j];
    }

    /** One turn of the loop of `vsnprintf`. */
    method Step(pointer: (string, Arg, Spec) -> string, s: Spec, literal: string, rest: string, a: Arg)
      requires Valid() && (s.kind !in {None, Width, Precision, Invalid} ==> Base(s.base))
      modifies this, buf
      ensures Valid() && buf[size..] == old(buf[size..]) && out == old(out) + Piece(pointer, s, literal, rest, a)
    {
      match s.kind {
        case None => Copy(literal);
        case Width =>
        case Precision =>
        case Char => Character((IntOf(a) % 256) as char, s);
        case Str => String(a, s);
        case Ptr => PutAll(pointer(rest, a, s));
        case Percent => Put('%');
        case Invalid =>
        case _ => Number(Integer(s.kind, s.flags.sign, IntOf(a)), s);
      }
    }

    /** The final NUL. */
    method Finish()
      requires Valid()
      modifies buf
      ensures buf[size..] == old(buf[size..])
      ensures size > 0 ==> var k := if str < size then str else size - 1;
        buf[..k] == out[..k] && buf[k] == '\0'
    {
      if size > 0 {
        buf[if str < size then str else size - 1] := '\0';
      }
    }
  }

  /** Whatever the size, what is printed is `Output`: of it the buffer gets what fits, and a NUL. Its
      length comes back as an `int`, which holds it exactly up to `INT_MAX`. */
  method Vsnprintf(buf: array<char>, size: nat, format: string, arguments: seq<Arg>,
      pointer: (string, Arg, Spec) -> string)
    returns (r: int)
    requires size <= buf.Length
    modifies buf
    ensures size > INT_MAX ==> r == 0 && buf[..] == old(buf[..])
    ensures buf[size..] == old(buf[size..])
    ensures size <= INT_MAX ==> r == AsInt(|Output(pointer, format, START, arguments)|)
    ensures 0 < size <= INT_MAX ==> var o := Output(pointer, format, START, arguments);
      var k := if |o| < size then |o| else size - 1;
      buf[..k] == o[..k] && buf[k] == '\0'
  {
    if size > INT_MAX {
      return 0;
    }
    var sink := new Sink(buf, size);
    var fmt, spec, args := format, START, arguments;
    ghost var goal := Output(pointer, format, START, arguments);
    ghost var left := goal;
    while fmt != []
      invariant sink.buf == buf && sink.size == size && fresh(sink) && sink.Valid() && buf[size..] == old(buf[size..])
      invariant left == Output(pointer, fmt, spec, args) && sink.out + left == goal
      decreases |fmt|
    {
      var (s, read) := Decode(fmt, spec);
      if s.kind == Invalid {
        break;
      }
      var literal, rest, a := fmt[..read], fmt[read..], Head(args);
      ghost var o, piece := sink.out, Piece(pointer, s, literal, rest, a);
      sink.Step(pointer, s, literal, rest, a);
      fmt, spec, args := NextFormat(s, rest), NextSpec(s, a), NextArgs(s, args);
      left := Output(pointer, fmt, spec, args);
      Assoc(o, piece, left);
    }
    assert sink.out == goal;
    sink.Finish();
    r := AsInt(sink.str);
  }
}
