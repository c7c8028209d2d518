/** `vsnprintf` prints what the items of its format stand for. */
module PrintMeaning {

  import opened PrintSpec
  import opened PrintTexts
  import opened PrintDecode
  import opened PrintYields
  import F = PrintFormat

  lemma {:induction false} SpecIs(s: Spec, f: string, left: bool, precision: int, z: F.Size, x: char)
    requires s.flags == WithFlags(f, NO_FLAGS).(left := left || '-' in f)
    ensures Lettered(s.(precision := precision), z, x) == SpecOf(f, left, s.width, precision, z, x)
  {}

  lemma {:induction false} WrittenMeaning(c: F.Item, args: seq<Arg>)
    requires c.Conversion? && F.Legal(c) && F.Suit(c, args) && c.width != F.Star
    ensures LegalWidth(c.width) && LegalPrecision(c.precision) && F.Takes(c) == Extra(c.precision) + 1
    ensures F.Meaning(c, args) == Printed(c.flags, '-' in c.flags,
        if c.width.Written? then F.Value(c.width.digits) else 0, PrecisionBy(c.precision, args), c.size, c.letter,
        args[Extra(c.precision)])
  {}

  lemma {:induction false} StarredMeaning(c: F.Item, args: seq<Arg>)
    requires c.Conversion? && F.Legal(c) && F.Suit(c, args) && c.width == F.Star
    ensures LegalPrecision(c.precision) && F.Takes(c) == Extra(c.precision) + 2
    ensures F.Meaning(c, args) == Printed(c.flags, '-' in c.flags || args[0].n < 0, Starred(START, "", args[0].n).width,
        PrecisionBy(c.precision, args[1..]), c.size, c.letter, args[1 + Extra(c.precision)])
  {}

  lemma {:induction false} WrittenPiece(pointer: Pointer, f: string, w: F.Count, precision: int, z: F.Size, x: char,
      spec: Spec, a: Arg)
    requires LegalWidth(w) && w != F.Star && x in "diuoxXcs" && (x != 's' ==> a.Num?) && precision >= -1
    ensures var s := Lettered(Widthed(spec, f, w).(precision := precision), z, x);
      Printing(s) && Piece(pointer, s, "", "", a)
        == Printed(f, '-' in f, if w.Written? then F.Value(w.digits) else 0, precision, z, x, a)
  {
    var width := Widthed(spec, f, w).width;
    SpecIs(Widthed(spec, f, w), f, false, precision, z, x);
    LetteredPrints(Widthed(spec, f, w).(precision := precision), z, x);
    PieceMeans(pointer, f, false, width, precision, z, x, "", "", a);
    PrintedNarrow(f, '-' in f, precision, z, x, a);
  }

  lemma {:induction false} StarredPiece(pointer: Pointer, f: string, n: int, precision: int, z: F.Size, x: char,
      spec: Spec, a: Arg)
    requires x in "diuoxXcs" && (x != 's' ==> a.Num?) && precision >= -1
    ensures var s := Lettered(Starred(spec, f, n).(precision := precision), z, x);
      Printing(s) && Piece(pointer, s, "", "", a)
        == Printed(f, '-' in f || n < 0, Starred(START, "", n).width, precision, z, x, a)
  {
    SpecIs(Starred(spec, f, n), f, n < 0, precision, z, x);
    LetteredPrints(Starred(spec, f, n).(precision := precision), z, x);
    PieceMeans(pointer, f, n < 0, Starred(spec, f, n).width, precision, z, x, "", "", a);
  }

  lemma {:induction false} WrittenMeans(pointer: Pointer, c: F.Item, rest: string, spec: Spec, args: seq<Arg>)
      returns (s: Spec)
    requires c.Conversion? && F.Legal(c) && F.Suit(c, args) && c.width != F.Star && spec.kind !in {Width, Precision}
    ensures Output(pointer, F.Spelt(c) + rest, spec, args)
      == F.Meaning(c, args) + Output(pointer, rest, s, args[F.Takes(c)..])
    ensures Printing(s)
  {
    WrittenMeaning(c, args);
    var precision := PrecisionBy(c.precision, args);
    YieldsWritten(pointer, c.flags, c.width, c.precision, c.size, c.letter, rest, spec, args);
    WrittenPiece(pointer, c.flags, c.width, precision, c.size, c.letter, spec, args[Extra(c.precision)]);
    s := Lettered(Widthed(spec, c.flags, c.width).(precision := precision), c.size, c.letter);
  }

  lemma {:induction false} StarredMeans(pointer: Pointer, c: F.Item, rest: string, spec: Spec, args: seq<Arg>)
      returns (s: Spec)
    requires c.Conversion? && F.Legal(c) && F.Suit(c, args) && c.width == F.Star && spec.kind !in {Width, Precision}
    ensures Output(pointer, F.Spelt(c) + rest, spec, args)
      == F.Meaning(c, args) + Output(pointer, rest, s, args[F.Takes(c)..])
    ensures Printing(s)
  {
    StarredMeaning(c, args);
    var precision := PrecisionBy(c.precision, args[1..]);
    YieldsByArgument(pointer, c.flags, c.precision, c.size, c.letter, rest, spec, args);
    StarredPiece(pointer, c.flags, args[0].n, precision, c.size, c.letter, spec, args[1 + Extra(c.precision)]);
    s := Lettered(Starred(spec, c.flags, args[0].n).(precision := precision), c.size, c.letter);
  }

  // ---------------------------------------------------------------- the other items

  lemma {:induction false} LiteralOn(u: string, more: string, i: nat)
    requires '%' !in u && i <= |u|
    ensures Literal(u + more, i) == |u| + Literal(more, 0)
    decreases |u| - i
  {
    if i < |u| {
      LiteralOn(u, more, i + 1);
    } else {
      LiteralShift(u, more, 0);
    }
  }

  lemma {:induction false} LiteralShift(u: string, more: string, i: nat)
    requires i <= |more|
    ensures Literal(u + more, |u| + i) == |u| + Literal(more, i)
    decreases |more| - i
  {
    if i < |more| && more[i] != '%' {
      LiteralShift(u, more, i + 1);
    }
  }

  /** Before a conversion the specification of the one before it does not matter. */
  lemma {:induction false} KindForgotten(pointer: Pointer, fmt: string, spec: Spec, args: seq<Arg>)
    requires spec.kind !in {Width, Precision}
    ensures Output(pointer, fmt, spec, args) == Output(pointer, fmt, spec.(kind := None), args)
  {
    if fmt != [] {
      assert Decode(fmt, spec) == Decode(fmt, spec.(kind := None));
    }
  }

  lemma {:induction false} LiteralPrints(pointer: Pointer, fmt: string, spec: Spec, args: seq<Arg>, n: nat)
    requires fmt != [] && spec.kind !in {Width, Precision} && n == Literal(fmt, 0) > 0
    ensures Output(pointer, fmt, spec, args) == fmt[..n] + Output(pointer, fmt[n..], spec.(kind := None), args)
  {
    assert Decode(fmt, spec) == (spec.(kind := None), n);
  }

  lemma {:induction false} WordsMean(pointer: Pointer, u: string, more: string, spec: Spec, args: seq<Arg>)
    requires '%' !in u && spec.kind !in {Width, Precision}
    ensures Output(pointer, u + more, spec, args) == u + Output(pointer, more, spec.(kind := None), args)
  {
    if u == "" {
      assert u + more == more;
      KindForgotten(pointer, more, spec, args);
    } else {
      var n := Literal(more, 0);
      LiteralOn(u, more, 0);
      LiteralPrints(pointer, u + more, spec, args, |u| + n);
      CutAt(u, more, n);
      WordsRest(pointer, u, more, spec.(kind := None), args, n);
    }
  }

  lemma {:induction false} CutAt(u: string, more: string, n: nat)
    requires n <= |more|
    ensures (u + more)[..|u| + n] == u + more[..n] && (u + more)[|u| + n..] == more[n..]
  {}

  lemma {:induction false} WordsRest(pointer: Pointer, u: string, more: string, s: Spec, args: seq<Arg>, n: nat)
    requires s.kind == None && n == Literal(more, 0)
    ensures (u + more[..n]) + Output(pointer, more[n..], s, args) == u + Output(pointer, more, s, args)
  {
    if n > 0 {
      LiteralPrints(pointer, more, s, args, n);
      Glue(u, more[..n], Output(pointer, more[n..], s, args));
    } else {
      assert more[..0] == "" && more[0..] == more && u + "" == u;
    }
  }

  lemma {:induction false} Glue(u: string, v: string, w: string)
    ensures u + (v + w) == (u + v) + w
  {}

  lemma {:induction false} PercentMeans(pointer: Pointer, rest: string, spec: Spec, args: seq<Arg>) returns (s: Spec)
    requires spec.kind !in {Width, Precision}
    ensures Output(pointer, "%%" + rest, spec, args) == "%" + Output(pointer, rest, s, args) && s.kind == Percent
  {
    var fmt := "%%" + rest;
    assert fmt[0] == '%' && fmt[1] == '%' && fmt[2..] == rest;
    s := spec.(kind := Percent, flags := NO_FLAGS, width := -1, precision := -1, base := 10);
    assert ReadFlags(fmt, 1, NO_FLAGS) == (NO_FLAGS, 1);
    DecodeNone(fmt, spec, NO_FLAGS, 1);
    PrecisionNone(fmt, 1, spec.(kind := None, flags := NO_FLAGS, width := -1));
    assert Decode(fmt, spec) == (s, 2);
  }

  // ---------------------------------------------------------------- whole formats

  lemma {:induction false} ItemMeans(pointer: Pointer, i: F.Item, rest: string, spec: Spec, args: seq<Arg>)
      returns (s: Spec)
    requires F.Legal(i) && F.Suit(i, args) && spec.kind !in {Width, Precision}
    ensures Output(pointer, F.Spelt(i) + rest, spec, args)
      == F.Meaning(i, args) + Output(pointer, rest, s, args[F.Takes(i)..])
    ensures s.kind !in {Width, Precision}
  {
    match i {
      case Words(u) =>
        s := spec.(kind := None);
        WordsMean(pointer, u, rest, spec, args);
      case PercentSign => s := PercentMeans(pointer, rest, spec, args);
      case Conversion(_, w, _, _, _) =>
        if w == F.Star {
          s := StarredMeans(pointer, i, rest, spec, args);
        } else {
          s := WrittenMeans(pointer, i, rest, spec, args);
        }
    }
  }

  lemma {:induction false} ItemsMean(pointer: Pointer, items: seq<F.Item>, spec: Spec, args: seq<Arg>)
    requires F.AllSuit(items, args) && spec.kind !in {Width, Precision}
    ensures Output(pointer, F.SpeltAll(items), spec, args) == F.AllMean(items, args)
    decreases |items|
  {
    if items != [] {
      var s := ItemMeans(pointer, items[0], F.SpeltAll(items[1..]), spec, args);
      ItemsMean(pointer, items[1..], s, args[F.Takes(items[0])..]);
    }
  }

  /** Every format of literal text, percent signs and conversions prints what its items stand for. */
  lemma {:induction false} FormatMeans(pointer: Pointer, items: seq<F.Item>, args: seq<Arg>)
    requires F.AllSuit(items, args)
    ensures Output(pointer, F.SpeltAll(items), START, args) == F.AllMean(items, args)
  {
    ItemsMean(pointer, items, START, args);
  }
}
