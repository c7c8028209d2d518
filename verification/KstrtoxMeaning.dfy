/** Which texts `kstrtoull` and `kstrtoll` accept, and for what number. */
module KstrtoxMeaning {

  import opened Machine
  import opened Kstrtox

  // ---------------------------------------------------------------- numerals

  /** The digit `c` is worth `x`. */
  predicate Worth(c: char, x: nat) {
    x < 16 && (c == "0123456789abcdef"[x] || c == "0123456789ABCDEF"[x])
  }

  /** `d` is `v` in base `b`. */
  ghost predicate Spells(d: string, b: nat, v: nat) {
    if d == "" then v == 0
    else
      var l, c := d[..|d| - 1], d[|d| - 1];
      exists x: nat, u: nat :: Worth(c, x) && Spells(l, b, u) && x < b && v == u * b + x
  }

  /** The end of the text, after a newline perhaps. */
  predicate Ends(tail: string) {
    Over(tail) || (tail[0] == '\n' && Over(tail[1..]))
  }

  predicate Over(tail: string) {
    tail == "" || tail[0] == '\0'
  }

  /** The base that is asked for, or the one that base 0 stands for. */
  predicate Radix(base: nat, prefix: string, d: string, b: nat) {
    if base == 0 then
      if prefix == "" then d != "" && b == (if d[0] == '0' then 8 else 10) else prefix in {"0x", "0X"} && b == 16
    else b == base && (prefix == "" || (b == 16 && prefix in {"0x", "0X"}))
  }

  /** A prefix, digits of value `v`, and the end. */
  ghost predicate Reads(s: string, base: nat, v: nat) {
    exists prefix, d, tail, b :: Radix(base, prefix, d, b) && Ends(tail) && Parts(s, prefix, d, tail) && Spells(d, b, v)
  }

  predicate Parts(s: string, prefix: string, d: string, tail: string) {
    s == prefix + (d + tail) && 0 < |d| <= INT_MAX
  }

  // ---------------------------------------------------------------- digits

  lemma {:induction false} WorthIs(c: char, x: nat)
    ensures Worth(c, x) <==> DigitVal(c) == x
  {}

  lemma {:induction false} SpellsValue(d: string, b: nat)
    requires forall k :: 0 <= k < |d| ==> IsDigitOf(d[k], b)
    ensures Spells(d, b, Valued(d, b))
  {
    if d != "" {
      var l, c := d[..|d| - 1], d[|d| - 1];
      assert forall k :: 0 <= k < |l| ==> l[k] == d[k];
      SpellsValue(l, b);
      WorthIs(c, DigitVal(c));
    }
  }

  lemma {:induction false} SpellsDigits(d: string, b: nat, v: nat)
    requires Spells(d, b, v)
    ensures (forall k :: 0 <= k < |d| ==> IsDigitOf(d[k], b)) && Valued(d, b) == v
  {
    if d != "" {
      var l, c := d[..|d| - 1], d[|d| - 1];
      var x, u := LastDigit(d, l, c, b, v);
      SpellsDigits(l, b, u);
      ValuedLast(d, l, c, b);
    }
  }

  lemma {:induction false} LastDigit(d: string, l: string, c: char, b: nat, v: nat) returns (x: nat, u: nat)
    requires d != "" && l == d[..|d| - 1] && c == d[|d| - 1] && Spells(d, b, v)
    ensures DigitVal(c) == x && IsDigitOf(c, b) && Spells(l, b, u) && v == u * b + x
  {
    x, u :| Worth(c, x) && Spells(l, b, u) && x < b && v == u * b + x;
    WorthIs(c, x);
  }

  lemma {:induction false} ValuedLast(d: string, l: string, c: char, b: nat)
    requires d == l + [c] && (forall k :: 0 <= k < |l| ==> IsDigitOf(l[k], b)) && IsDigitOf(c, b)
    ensures (forall k :: 0 <= k < |d| ==> IsDigitOf(d[k], b)) && Valued(d, b) == Valued(l, b) * b + DigitVal(c)
  {
    assert d[..|d| - 1] == l;
  }

  lemma {:induction false} SpanIs(d: string, tail: string, b: nat)
    requires (forall k :: 0 <= k < |d| ==> IsDigitOf(d[k], b)) && (tail == "" || !IsDigitOf(tail[0], b))
    ensures Span(d + tail, b) == |d|
  {
    var s := d + tail;
    assert forall k :: 0 <= k < |d| ==> s[k] == d[k];
    assert tail != "" ==> s[|d|] == tail[0];
  }

  lemma {:induction false} EndsNoDigit(tail: string, b: nat)
    requires Ends(tail)
    ensures tail == "" || !IsDigitOf(tail[0], b)
  {}

  lemma {:induction false} LimitedIs(d: string, tail: string, b: nat)
    requires (forall k :: 0 <= k < |d| ==> IsDigitOf(d[k], b)) && Ends(tail) && |d| <= INT_MAX
    ensures Limited(d + tail, b, INT_MAX) == |d|
  {
    EndsNoDigit(tail, b);
    if |d + tail| > INT_MAX {
      var rest := tail[..INT_MAX - |d|];
      assert (d + tail)[..INT_MAX] == d + rest;
      SpanIs(d, rest, b);
    } else {
      SpanIs(d, tail, b);
    }
  }

  // ---------------------------------------------------------------- the base

  lemma {:induction false} RadixRead(s: string, base: nat, prefix: string, d: string, tail: string, b: nat)
    requires Radix(base, prefix, d, b) && s == prefix + (d + tail) && d != "" && (|d| > 1 || Ends(tail))
    requires forall k :: 0 <= k < |d| ==> IsDigitOf(d[k], b)
    ensures FixupRadix(s, base) == (d + tail, b)
  {
    if prefix == "" {
      assert s == d + tail && s[0] == d[0];
      assert |d| > 1 ==> s[1] == d[1];
      assert |d| == 1 && tail != "" ==> s[1] == tail[0];
      assert At(s, 1) !in {'x', 'X'};
    } else {
      assert s[0] == '0' && s[1] == prefix[1] && s[2] == d[0] && s[2..] == d + tail;
    }
  }

  lemma {:induction false} RadixFound(s: string, base: nat, t: string, b: nat, d: string) returns (prefix: string)
    requires FixupRadix(s, base) == (t, b) && d != "" && d <= t && IsDigitOf(d[0], b)
    ensures s == prefix + t && Radix(base, prefix, d, b)
  {
    if t == s {
      prefix := "";
      assert s == "" + t && t[0] == d[0];
    } else {
      prefix := s[..2];
      assert s == prefix + s[2..] && prefix == [s[0], s[1]];
    }
  }

  // ---------------------------------------------------------------- what is accepted

  /** `_kstrtoull` accepts a text for a number exactly if it reads that number. */
  lemma {:induction false} UnsignedReads(s: string, base: nat, v: nat)
    ensures Unsigned(s, base) == Ok(v) <==> Reads(s, base, v) && v < LONGLONG
  {
    if Unsigned(s, base) == Ok(v) {
      AcceptedReads(s, base, v);
    }
    if Reads(s, base, v) && v < LONGLONG {
      ReadsAccepted(s, base, v);
    }
  }

  lemma {:induction false} AcceptedReads(s: string, base: nat, v: nat)
    requires Unsigned(s, base) == Ok(v)
    ensures Reads(s, base, v)
  {
    var (t, b) := FixupRadix(s, base);
    var n := Limited(t, b, INT_MAX);
    AcceptedEnds(s, base, t, b, n);
    DigitsRead(s, base, t, b, t[..n], t[n..]);
  }

  lemma {:induction false} DigitsRead(s: string, base: nat, t: string, b: nat, d: string, tail: string)
    requires FixupRadix(s, base) == (t, b) && t == d + tail && 0 < |d| <= INT_MAX && Ends(tail)
    requires forall k :: 0 <= k < |d| ==> IsDigitOf(d[k], b)
    ensures Reads(s, base, Valued(d, b))
  {
    var prefix := RadixFound(s, base, t, b, d);
    SpellsValue(d, b);
    assert Parts(s, prefix, d, tail);
  }

  lemma {:induction false} AcceptedEnds(s: string, base: nat, t: string, b: nat, n: nat)
    requires Unsigned(s, base).Ok? && FixupRadix(s, base) == (t, b) && n == Limited(t, b, INT_MAX)
    ensures 0 < n <= INT_MAX && Ends(t[n..]) && Valued(t[..n], b) == Unsigned(s, base).n
  {
    var tail := t[n..];
    assert At(t, n) == At(tail, 0) && At(t, n + 1) == At(tail, 1);
    assert |tail| > 1 ==> tail[1..][0] == tail[1];
  }

  lemma {:induction false} ReadsAccepted(s: string, base: nat, v: nat)
    requires Reads(s, base, v) && v < LONGLONG
    ensures Unsigned(s, base) == Ok(v)
  {
    var prefix, d, tail, b :| Radix(base, prefix, d, b) && Ends(tail) && Parts(s, prefix, d, tail) && Spells(d, b, v);
    SpellsDigits(d, b, v);
    RadixRead(s, base, prefix, d, tail, b);
    LimitedIs(d, tail, b);
    DigitsAccepted(s, base, d, tail, b);
  }

  lemma {:induction false} DigitsAccepted(s: string, base: nat, d: string, tail: string, b: nat)
    requires FixupRadix(s, base) == (d + tail, b) && Limited(d + tail, b, INT_MAX) == |d| > 0 && Ends(tail)
    requires (forall k :: 0 <= k < |d| ==> IsDigitOf(d[k], b)) && Valued(d, b) < LONGLONG
    ensures Unsigned(s, base) == Ok(Valued(d, b))
  {
    var t := d + tail;
    assert t[..|d|] == d;
    assert At(t, |d|) == At(tail, 0) && At(t, |d| + 1) == At(tail, 1);
  }

  /** `kstrtoull`: the same after a plus sign perhaps. */
  lemma {:induction false} KstrtoullReads(s: string, base: nat, v: nat)
    ensures Kstrtoull(s, base) == Ok(v)
      <==> v < LONGLONG && Reads(if "+" <= s then s[1..] else s, base, v)
  {
    UnsignedReads(if "+" <= s then s[1..] else s, base, v);
    assert "+" <= s <==> At(s, 0) == '+';
  }

  /** `kstrtoll`: after a minus sign the number is negated, and the range is that of 64 bits with sign. */
  lemma {:induction false} KstrtollReads(s: string, base: nat, v: int)
    ensures Kstrtoll(s, base) == Ok(v)
      <==> -(LONGLONG / 2) <= v < LONGLONG / 2
           && if "-" <= s then v <= 0 && Reads(s[1..], base, -v)
              else v >= 0 && Reads(if "+" <= s then s[1..] else s, base, v)
  {
    assert "-" <= s <==> At(s, 0) == '-';
    if "-" <= s {
      if v <= 0 {
        UnsignedReads(s[1..], base, -v);
      }
    } else if v >= 0 {
      KstrtoullReads(s, base, v);
    }
  }

  // ---------------------------------------------------------------- what is refused

  /** A prefix and digits of value `v`, as many as there are or as are counted, whatever follows. */
  ghost predicate Heads(s: string, base: nat, v: nat) {
    exists prefix, d, tail, b ::
      Radix(base, prefix, d, b) && Longest(d, tail, b) && Parts(s, prefix, d, tail) && Spells(d, b, v)
  }

  ghost predicate Longest(d: string, tail: string, b: nat) {
    |d| == INT_MAX || tail == "" || forall x: nat :: Worth(tail[0], x) ==> x >= b
  }

  lemma {:induction false} LongestIs(d: string, tail: string, b: nat)
    requires (forall k :: 0 <= k < |d| ==> IsDigitOf(d[k], b)) && |d| <= INT_MAX
    ensures Longest(d, tail, b) <==> Limited(d + tail, b, INT_MAX) == |d|
  {
    var t := d + tail;
    var u := if |t| > INT_MAX then t[..INT_MAX] else t;
    var m := Span(u, b);
    assert m < |u| ==> u[m] == t[m];
    assert forall k :: 0 <= k < |d| ==> u[k] == d[k];
    if tail != "" {
      NoDigit(tail[0], b);
      assert |d| < INT_MAX ==> u[|d|] == tail[0];
    }
  }

  lemma {:induction false} NoDigit(c: char, b: nat)
    ensures !IsDigitOf(c, b) <==> forall x: nat :: Worth(c, x) ==> x >= b
  {
    forall x: nat
      ensures Worth(c, x) <==> DigitVal(c) == x
    {
      WorthIs(c, x);
    }
    if IsDigitOf(c, b) {
      assert Worth(c, DigitVal(c));
    }
  }

  lemma {:induction false} OneDigitSmall(d: string, b: nat, v: nat)
    requires Spells(d, b, v) && |d| == 1
    ensures v < 16
  {
    var x: nat, u: nat :| Worth(d[0], x) && Spells(d[..0], b, u) && x < b && v == u * b + x;
    assert u == 0;
  }

  /** Digits at the head of more than 64 bits are out of range, whatever follows, and nothing else is, */
  lemma {:induction false} OutOfRange(s: string, base: nat)
    ensures Unsigned(s, base) == Range <==> exists v: nat :: v >= LONGLONG && Heads(s, base, v)
  {
    if Unsigned(s, base) == Range {
      RangeHeads(s, base);
    }
    if v: nat :| v >= LONGLONG && Heads(s, base, v) {
      HeadsRange(s, base, v);
    }
  }

  lemma {:induction false} RangeHeads(s: string, base: nat)
    requires Unsigned(s, base) == Range
    ensures exists v: nat :: v >= LONGLONG && Heads(s, base, v)
  {
    var (t, b) := FixupRadix(s, base);
    var n := Limited(t, b, INT_MAX);
    assert t == t[..n] + t[n..];
    DigitsHead(s, base, t, b, t[..n], t[n..]);
  }

  lemma {:induction false} DigitsHead(s: string, base: nat, t: string, b: nat, d: string, tail: string)
    requires FixupRadix(s, base) == (t, b) && t == d + tail && 0 < |d| <= INT_MAX
    requires (forall k :: 0 <= k < |d| ==> IsDigitOf(d[k], b)) && Limited(t, b, INT_MAX) == |d|
    ensures Heads(s, base, Valued(d, b))
  {
    var prefix := RadixFound(s, base, t, b, d);
    SpellsValue(d, b);
    LongestIs(d, tail, b);
    assert Parts(s, prefix, d, tail);
  }

  lemma {:induction false} HeadsRange(s: string, base: nat, v: nat)
    requires v >= LONGLONG && Heads(s, base, v)
    ensures Unsigned(s, base) == Range
  {
    var prefix, d, tail, b :| Radix(base, prefix, d, b) && Longest(d, tail, b) && Parts(s, prefix, d, tail)
      && Spells(d, b, v);
    if |d| == 1 {
      OneDigitSmall(d, b, v);
    }
    SpellsDigits(d, b, v);
    RadixRead(s, base, prefix, d, tail, b);
    LongestIs(d, tail, b);
    assert (d + tail)[..|d|] == d;
  }

  /** and everything else that reads no number is invalid. */
  lemma {:induction false} Invalid(s: string, base: nat)
    ensures Unsigned(s, base) == Inval
      <==> (forall v: nat :: v >= LONGLONG ==> !Heads(s, base, v))
           && forall v: nat :: v < LONGLONG ==> !Reads(s, base, v)
  {
    var r := Unsigned(s, base);
    OutOfRange(s, base);
    if r.Ok? {
      UnsignedReads(s, base, r.n);
    } else {
      forall v: nat | v < LONGLONG
        ensures !Reads(s, base, v)
      {
        UnsignedReads(s, base, v);
      }
    }
  }
}
