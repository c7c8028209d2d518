/** Feeding the unpacker of `init/initramfs.c` in pieces: where the input is cut makes no difference,
    except in the header of an entry that is passed over and in a name without a NUL. */
module CpioPieces {

  import opened CpioSpec
  import opened Machine
  import opened CpioStream

  lemma {:induction false} SameAction(env: Env, s: State, i: seq<Byte>, s': State, i': seq<Byte>)
    requires Valid(s) && Valid(s') && Action(env, s, i) == Action(env, s', i')
    ensures Run(env, s, i) == Run(env, s', i')
  {}

  // ---------------------------------------------------------------- an action that the first piece cuts

  /** `s` with the first piece eaten acts on the second as `s` does on both. */
  ghost predicate Resumes(env: Env, s: State, a: seq<Byte>, b: seq<Byte>) {
    var m := Action(env, s, a);
    true == (m.stop && m.rest == [] && Action(env, m.s, b) == Action(env, s, a + b))
  }

  lemma {:induction false} OverwriteTwice(mem: seq<Byte>, at: nat, a: seq<Byte>, b: seq<Byte>)
    requires at + |a| + |b| <= |mem|
    ensures Overwrite(Overwrite(mem, at, a), at + |a|, b) == Overwrite(mem, at, a + b)
  {
    var m := Overwrite(mem, at, a);
    assert m[..at + |a|] == mem[..at] + a;
    assert m[at + |a| + |b|..] == mem[at + |a| + |b|..];
  }

  lemma {:induction false} TakeAcross(a: seq<Byte>, b: seq<Byte>, n: nat)
    requires |a| <= n <= |a + b|
    ensures a + b[..n - |a|] == (a + b)[..n] && (a + b)[n..] == b[n - |a|..]
  {}

  lemma {:induction false} TakeWithin(a: seq<Byte>, b: seq<Byte>, n: nat)
    requires n <= |a|
    ensures (a + b)[..n] == a[..n] && (a + b)[n..] == a[n..] + b
  {}

  lemma {:induction false} Assoc(a: seq<Byte>, b: seq<Byte>, c: seq<Byte>)
    ensures (a + b) + c == a + (b + c)
  {}

  lemma {:induction false} CollectedTwice(s: State, a: seq<Byte>, b: seq<Byte>)
    requires |a| + |b| <= s.remains && (s.next == GotName ==> |s.buf| + s.remains <= |s.nameBuf|)
    ensures Collected(Collected(s, a), b) == Collected(s, a + b)
  {
    Assoc(s.buf, a, b);
    if s.next == GotName {
      OverwriteTwice(s.nameBuf, |s.buf|, a, b);
    }
  }

  lemma {:induction false} CollectResumes(env: Env, s: State, a: seq<Byte>, b: seq<Byte>)
    requires Valid(s) && s.phase == Collect && |a| < s.remains
    ensures Resumes(env, s, a, b)
  {
    if |a| + |b| < s.remains {
      CollectedTwice(s, a, b);
    } else {
      TakeAcross(a, b, s.remains);
      CollectedTwice(s, a, b[..s.remains - |a|]);
    }
  }

  lemma {:induction false} SkipResumes(env: Env, s: State, a: seq<Byte>, b: seq<Byte>)
    requires s.phase == SkipIt && s.pos + |a| < s.nextHeader
    ensures Resumes(env, s, a, b)
  {
    if s.pos + |a| + |b| >= s.nextHeader {
      TakeAcross(a, b, s.nextHeader - s.pos);
    }
  }

  lemma {:induction false} SumAdds(a: seq<Byte>, b: seq<Byte>)
    ensures Sum(a + b) == Sum(a) + Sum(b)
  {
    if a == [] {
      assert a + b == b;
    } else {
      assert (a + b)[1..] == a[1..] + b;
      SumAdds(a[1..], b);
    }
  }

  lemma {:induction false} WrittenTwice(w: World, a: seq<Byte>, b: seq<Byte>)
    requires Copying(w)
    ensures Written(Written(w, a), b) == Written(w, a + b)
  {
    var f := w.log[|w.log| - 1];
    Assoc(f.content, a, b);
    var l := w.log[..|w.log| - 1] + [f.(content := f.content + a)];
    assert l[..|l| - 1] == w.log[..|w.log| - 1];
  }

  lemma {:induction false} SummedTwice(sum: nat, present: bool, a: seq<Byte>, b: seq<Byte>)
    ensures Summed(Summed(sum, present, a), present, b) == Summed(sum, present, a + b)
  {
    SumAdds(a, b);
    ModAdd(sum, Sum(a), Sum(b));
  }

  lemma {:induction false} ModAdd(x: nat, y: nat, z: nat)
    ensures ((x + y) % WORD + z) % WORD == (x + (y + z)) % WORD
  {
    var q := (x + y) / WORD;
    assert (x + y) % WORD == x + y - q * WORD;
    WordTurns(x + y + z - q * WORD, q);
  }

  lemma {:induction false} RoomLess(env: Env, w: World, a: seq<Byte>)
    requires Copying(w) && |a| <= Room(env, w)
    ensures Room(env, Written(w, a)) == Room(env, w) - |a|
  {
    var f := w.log[|w.log| - 1];
    var l := w.log[..|w.log| - 1] + [f.(content := f.content + a)];
    assert l[..|l| - 1] == w.log[..|w.log| - 1];
  }

  lemma {:induction false} TakenTwice(env: Env, w: World, a: seq<Byte>, b: seq<Byte>)
    requires Copying(w)
    ensures var x := Taken(env, w, a);
      var y := Taken(env, Written(w, x), b);
      x + y == Taken(env, w, a + b) && (|x + y| < |a + b| <==> |x| < |a| || |y| < |b|)
      && (|x| < |a| ==> y == [])
  {
    var x := Taken(env, w, a);
    RoomLess(env, w, x);
  }

  /** Writing in two parts is writing in one, whether or not there is room. */
  lemma {:induction false} AppendTwice(env: Env, s: State, a: seq<Byte>, b: seq<Byte>)
    requires Copying(s.world)
    ensures Append(env, Append(env, s, a), b) == Append(env, s, a + b)
  {
    var x := Taken(env, s.world, a);
    var y := Taken(env, Written(s.world, x), b);
    TakenTwice(env, s.world, a, b);
    GrownTwice(s, x, y);
  }

  lemma {:induction false} GrownTwice(s: State, a: seq<Byte>, b: seq<Byte>)
    requires Copying(s.world)
    ensures Grown(Grown(s, a), b) == Grown(s, a + b)
    ensures Grown(Complain(Grown(s, a), WriteError), b) == Complain(Grown(s, a + b), WriteError)
  {
    WrittenTwice(s.world, a, b);
    SummedTwice(s.ioCsum, s.csumPresent, a, b);
  }

  /** Where the unpacker is does not matter to what is written. */
  lemma {:induction false} AppendMoves(env: Env, s: State, pos: nat, left: nat, bytes: seq<Byte>)
    ensures Append(env, s.(pos := pos, left := left), bytes) == Append(env, s, bytes).(pos := pos, left := left)
  {}

  /** What the second part adds, from where the first part has left the unpacker. */
  lemma {:induction false} AppendRest(env: Env, s: State, a: seq<Byte>, c: seq<Byte>, u: State)
    requires Copying(s.world) && u == Append(env, s, a).(pos := u.pos, left := u.left)
    ensures Append(env, u, c) == Append(env, s, a + c).(pos := u.pos, left := u.left)
  {
    AppendTwice(env, s, a, c);
    AppendMoves(env, Append(env, s, a), u.pos, u.left, c);
  }

  /** `s` has written the first part, `w` both. */
  lemma {:induction false} CopiedTwice(s: State, w: State, left: nat, a: seq<Byte>, b: seq<Byte>)
    requires |a| < left && w.pos == s.pos
    ensures var u := Copied(s, left, a).s;
      Copied(w.(pos := u.pos, left := u.left), u.left, b) == Copied(w, left, a + b)
  {
    if |b| >= left - |a| {
      TakeAcross(a, b, left);
    }
  }

  lemma {:induction false} PartTwice(left: nat, a: seq<Byte>, b: seq<Byte>)
    requires |a| < left
    ensures Part(left, a) == a && a + Part(left - |a|, b) == Part(left, a + b)
  {
    if |b| >= left - |a| {
      TakeAcross(a, b, left);
    }
  }

  lemma {:induction false} CopyTwice(env: Env, s: State, a: seq<Byte>, b: seq<Byte>)
    requires Copying(s.world) && |a| < s.left
    ensures var u := DoCopy(env, s, a).s;
      u.phase == s.phase && DoCopy(env, u, b) == DoCopy(env, s, a + b)
  {
    var t, u := Append(env, s, a), DoCopy(env, s, a).s;
    var c := Part(s.left - |a|, b);
    var w := Append(env, s, a + c);
    PartTwice(s.left, a, b);
    AppendKeeps(env, s, a);
    AppendKeeps(env, s, a + c);
    AppendRest(env, s, a, c, u);
    CopiedTwice(t, w, s.left, a, b);
  }

  lemma {:induction false} CopyResumes(env: Env, s: State, a: seq<Byte>, b: seq<Byte>)
    requires Valid(s) && s.phase == CopyFile && |a| < s.left
    ensures Resumes(env, s, a, b)
  {
    CopyTwice(env, s, a, b);
  }

  lemma {:induction false} ZerosAdd(a: seq<Byte>, b: seq<Byte>)
    ensures Zeros(a + b) == if Zeros(a) == |a| then |a| + Zeros(b) else Zeros(a)
  {
    if a == [] {
      assert a + b == b;
    } else if a[0] == 0 {
      assert (a + b)[1..] == a[1..] + b;
      ZerosAdd(a[1..], b);
    }
  }

  lemma {:induction false} ResetResumes(env: Env, s: State, a: seq<Byte>, b: seq<Byte>)
    requires s.phase == Reset && Zeros(a) == |a|
    ensures Resumes(env, s, a, b)
  {
    ZerosAdd(a, b);
    TakeAcross(a, b, |a| + Zeros(b));
  }

  // ---------------------------------------------------------------- an action that the first piece holds

  /** The first piece holds all that the next action of `s` eats. */
  ghost predicate Ahead(env: Env, s: State, a: seq<Byte>, b: seq<Byte>) {
    var m := Action(env, s, a);
    true == (!m.stop && Action(env, s, a + b) == Act(m.s, m.rest + b, false))
  }

  lemma {:induction false} CopyAhead(env: Env, s: State, a: seq<Byte>, b: seq<Byte>)
    requires s.phase == CopyFile && |a| >= s.left
    ensures Ahead(env, s, a, b)
  {
    TakeWithin(a, b, s.left);
  }

  lemma {:induction false} CollectAhead(env: Env, s: State, a: seq<Byte>, b: seq<Byte>)
    requires s.phase == Collect && |a| >= s.remains
    ensures Ahead(env, s, a, b)
  {
    TakeWithin(a, b, s.remains);
  }

  lemma {:induction false} SkipAhead(env: Env, s: State, a: seq<Byte>, b: seq<Byte>)
    requires s.phase == SkipIt && s.pos + |a| >= s.nextHeader
    ensures Ahead(env, s, a, b)
  {
    TakeWithin(a, b, if s.pos <= s.nextHeader then s.nextHeader - s.pos else 0);
  }

  /** The bytes behind a name that has a NUL are not looked at. */
  lemma {:induction false} NameAhead(env: Env, s: State, a: seq<Byte>, b: seq<Byte>)
    requires s.phase == GotName && 0 in s.buf
    ensures Ahead(env, s, a, b)
  {
    NameRead(env, s, a);
    NameRead(env, s, a + b);
  }

  lemma {:induction false} EitherWay(env: Env, s: State, a: seq<Byte>, b: seq<Byte>)
    requires Valid(s) && s.phase !in {Start, GotHeader, Reset} && (s.phase == GotName ==> 0 in s.buf)
    ensures Ahead(env, s, a, b) || Resumes(env, s, a, b)
  {
    match s.phase {
      case Collect =>
        if |a| < s.remains {
          CollectResumes(env, s, a, b);
        } else {
          CollectAhead(env, s, a, b);
        }
      case SkipIt =>
        if s.pos + |a| < s.nextHeader {
          SkipResumes(env, s, a, b);
        } else {
          SkipAhead(env, s, a, b);
        }
      case CopyFile =>
        if |a| < s.left {
          CopyResumes(env, s, a, b);
        } else {
          CopyAhead(env, s, a, b);
        }
      case GotName => NameAhead(env, s, a, b);
      case GotSymlink =>
    }
  }

  // ---------------------------------------------------------------- a read that the first piece cuts

  /** `read_into` with too little input. */
  function Begun(s: State, size: nat, next: Phase): State {
    s.(buf := [], remains := size, next := next, phase := Collect)
  }

  lemma {:induction false} BegunValid(s: State, size: nat, next: Phase)
    requires |s.nameBuf| == NAME_BUF && !s.inPlace && s.left == 0 && size > 0
    requires (next == GotHeader && size == 110) || (next == GotName && size <= NAME_BUF)
    ensures Valid(Begun(s, size, next))
  {}

  lemma {:induction false} HeaderCollected(s: State, input: seq<Byte>)
    requires s.remains == 0 && !s.inPlace && |input| >= 110
    ensures var r := DoStart(s, input);
      DoCollect(Begun(s, 110, GotHeader), input) == Act(r.s.(next := GotHeader), r.rest, false)
  {
    assert [] + input[..110] == input[..110];
  }

  /** A header read through the buffer leads where one read in place does, */
  lemma {:induction false} HeaderThrough(env: Env, s: State, input: seq<Byte>)
    requires Valid(s) && s.phase == Start && |input| >= 110 && Announces(input[..110])
    ensures var c := Begun(s, 110, GotHeader);
      Valid(c) && Run(env, c, input) == Run(env, s, input)
  {
    var c, r := Begun(s, 110, GotHeader), DoStart(s, input);
    BegunValid(s, 110, GotHeader);
    HeaderCollected(s, input);
    RunStep(env, s, input);
    RunStep(env, c, input);
    HeaderNext(env, r.s, GotHeader, r.rest);
  }

  /** and so does a name that has a NUL. */
  lemma {:induction false} NameThrough(env: Env, s: State, input: seq<Byte>, size: nat)
    requires s.remains == 0 && !s.inPlace && s.left == 0 && |s.nameBuf| == NAME_BUF && 0 < size <= NAME_BUF
    requires |input| >= size
    requires var r := ReadInto(s, input, size, GotName);
      Valid(r.s) && !Run(env, r.s, r.rest).stray
    ensures var c, r := Begun(s, size, GotName), ReadInto(s, input, size, GotName);
      Valid(c) && Alike(Run(env, c, input), Run(env, r.s, r.rest))
  {
    var c, r := Begun(s, size, GotName), ReadInto(s, input, size, GotName);
    BegunValid(s, size, GotName);
    RunStep(env, c, input);
    assert [] + input[..size] == input[..size];
    var d := Action(env, c, input);
    assert d.rest == r.rest && d.s == r.s.(next := GotName, inPlace := false, nameBuf := d.s.nameBuf);
    NameEither(env, r.s, d.s, r.rest);
  }

  lemma {:induction false} NameEither(env: Env, s: State, t: State, input: seq<Byte>)
    requires Valid(s) && Valid(t) && s.phase == GotName && !Run(env, s, input).stray
    requires t == s.(next := t.next, inPlace := t.inPlace, nameBuf := t.nameBuf)
    ensures Alike(Run(env, t, input), Run(env, s, input))
  {
    RunWorse(env, s, input);
    NameFacts(env, s, input);
    RunStep(env, s, input);
    RunStep(env, t, input);
    NameSeen(env, s, t, input);
    RunSeen(env, DoName(env, s, input), DoName(env, t, input), input);
  }

  /** The first piece is collected, and the second resumes. */
  lemma {:induction false} BegunSplits(env: Env, c: State, a: seq<Byte>, b: seq<Byte>)
    requires Valid(c) && c.phase == Collect && |a| < c.remains
    ensures Run(env, c, a) == Collected(c, a) && Valid(Collected(c, a))
    ensures Run(env, Collected(c, a), b) == Run(env, c, a + b)
  {
    CollectResumes(env, c, a, b);
    RunStop(env, c, a);
    ActionValid(env, c, a);
    SameAction(env, Collected(c, a), b, c, a + b);
  }

  // ---------------------------------------------------------------- input in two pieces

  /** The cut after which the state is `m` and the input `b` is not in the header of an entry that is
      passed over. */
  predicate CutOk(m: State, b: seq<Byte>) {
    true == (m.phase == Collect && m.next == GotHeader && |b| >= m.remains ==> Announces(m.buf + b[..m.remains]))
  }

  /** All names have their NUL; and the whole run is good, or the first piece is and the cut is. */
  ghost predicate Fit(env: Env, s: State, a: seq<Byte>, b: seq<Byte>)
    requires Valid(s)
  {
    true == (!Run(env, s, a + b).stray
    && (Good(Run(env, s, a + b)) || (Run(env, s, a).message == None && CutOk(Run(env, s, a), b))))
  }

  /** Two pieces lead where one does. */
  ghost predicate Splits(env: Env, s: State, a: seq<Byte>, b: seq<Byte>)
    requires Valid(s)
  {
    true == (Valid(Run(env, s, a)) && Alike(Run(env, Run(env, s, a), b), Run(env, s, a + b)))
  }

  lemma {:induction false} StartStops(env: Env, s: State, a: seq<Byte>)
    requires Valid(s) && s.phase == Start && |a| < 110
    ensures var c := Begun(s, 110, GotHeader);
      Valid(c) && Run(env, s, a) == Run(env, c, a)
  {
    BegunValid(s, 110, GotHeader);
    RunStep(env, s, a);
  }

  lemma {:induction false} GoodAnnounces(env: Env, s: State, input: seq<Byte>)
    requires Valid(s) && s.phase == GotHeader && Good(Run(env, s, input))
    ensures Announces(s.buf)
  {
    RunWorse(env, s, input);
  }

  lemma {:induction false} StartAnnounces(env: Env, s: State, a: seq<Byte>, b: seq<Byte>)
    requires Valid(s) && s.phase == Start && |a| < 110 <= |a + b| && Fit(env, s, a, b)
    ensures Announces((a + b)[..110])
  {
    if Good(Run(env, s, a + b)) {
      var r := DoStart(s, a + b);
      RunStep(env, s, a + b);
      GoodAnnounces(env, r.s, r.rest);
    } else {
      StartStops(env, s, a);
      BegunSplits(env, Begun(s, 110, GotHeader), a, b);
      CutHeader(s, a, b);
    }
  }

  /** What a cut header is completed to. */
  lemma {:induction false} CutHeader(s: State, a: seq<Byte>, b: seq<Byte>)
    requires |a| < 110 <= |a + b|
    ensures var m := Collected(Begun(s, 110, GotHeader), a);
      m.phase == Collect && m.next == GotHeader && m.remains <= |b| && m.buf + b[..m.remains] == (a + b)[..110]
  {
    TakeAcross(a, b, 110);
    assert [] + a == a;
  }

  lemma {:induction false} StartSplit(env: Env, s: State, a: seq<Byte>, b: seq<Byte>)
    requires Valid(s) && s.phase == Start && |a| < 110 && Fit(env, s, a, b)
    ensures Splits(env, s, a, b)
  {
    StartStops(env, s, a);
    BegunSplits(env, Begun(s, 110, GotHeader), a, b);
    if |a + b| >= 110 {
      StartAnnounces(env, s, a, b);
      HeaderThrough(env, s, a + b);
    } else {
      RunStep(env, s, a + b);
    }
  }

  lemma {:induction false} AdmitSplits(env: Env, s: State, h: Header, csum: bool, a: seq<Byte>, b: seq<Byte>)
    requires Valid(s) && s.phase == GotHeader && Valid(Admit(s, h, csum, a + b).s)
    requires var w := Admit(s, h, csum, a + b);
      !Run(env, w.s, w.rest).stray
    ensures var m, w := Admit(s, h, csum, a), Admit(s, h, csum, a + b);
      !m.stop && !w.stop && Valid(m.s) && (w == Act(m.s, m.rest + b, false)
      || (Valid(Run(env, m.s, m.rest)) && Alike(Run(env, Run(env, m.s, m.rest), b), Run(env, w.s, w.rest))))
  {
    AdmitValid(s, h, csum, a);
    if Accepted(h) && !IsLink(h.mode) {
      var n := NAlign(h.nameLen);
      NAlignPositive(h.nameLen);
      var s1 := s.(csumPresent := csum, hdr := h, nextHeader := NextHeader(s.pos, h));
      if |a| < n {
        BegunValid(s1, n, GotName);
        BegunSplits(env, Begun(s1, n, GotName), a, b);
        if |a + b| >= n {
          NameThrough(env, s1, a + b, n);
        }
      } else {
        TakeWithin(a, b, n);
      }
    }
  }

  lemma {:induction false} HeaderSplits(env: Env, s: State, a: seq<Byte>, b: seq<Byte>)
    requires Valid(s) && s.phase == GotHeader && !Run(env, s, a + b).stray && Action(env, s, a).s.message == None
    ensures Ahead(env, s, a, b) || Splits(env, s, a, b)
  {
    assert Magic(s.buf);
    RunStep(env, s, a);
    RunStep(env, s, a + b);
    AdmitSplits(env, s, ParseHeader(s.buf), s.buf[5] == '2' as int, a, b);
  }

  lemma {:induction false} FitMessage(env: Env, s: State, a: seq<Byte>, b: seq<Byte>)
    requires Valid(s) && Fit(env, s, a, b)
    ensures Action(env, s, a).s.message == None || (Action(env, s, a + b).s.message == None && s.message == None)
    ensures !Action(env, s, a + b).s.stray
  {
    RunWorse(env, s, a + b);
    RunWorse(env, s, a);
  }

  lemma {:induction false} HeaderMessage(s: State, a: seq<Byte>, b: seq<Byte>)
    ensures DoHeader(s, a).s.message == DoHeader(s, b).s.message
  {}

  lemma {:induction false} ResetSplits(env: Env, s: State, a: seq<Byte>, b: seq<Byte>)
    requires Valid(s) && s.phase == Reset && Fit(env, s, a, b)
    ensures var m := Action(env, s, a);
      (m.rest == [] ==> Resumes(env, s, a, b))
      && (m.rest != [] ==> Valid(m.s.(phase := Start)) && Run(env, s, a) == Run(env, m.s.(phase := Start), m.rest))
      && (m.rest != [] ==> Run(env, s, a + b) == Run(env, m.s.(phase := Start), m.rest + b))
  {
    ZerosAdd(a, b);
    if Zeros(a) == |a| {
      ResetResumes(env, s, a, b);
    } else {
      ZerosEnd(a);
      TakeWithin(a, b, Zeros(a));
      FitMessage(env, s, a, b);
    }
  }

  lemma {:induction false} Cases(env: Env, s: State, a: seq<Byte>, b: seq<Byte>)
    requires Valid(s) && Fit(env, s, a, b) && s.phase != Reset
    ensures Ahead(env, s, a, b) || Resumes(env, s, a, b) || Splits(env, s, a, b)
  {
    if s.phase == Start {
      if |a| < 110 {
        StartSplit(env, s, a, b);
      } else {
        TakeWithin(a, b, 110);
      }
    } else {
      FitMessage(env, s, a, b);
      if s.phase == GotHeader {
        HeaderMessage(s, a, a + b);
        HeaderSplits(env, s, a, b);
      } else {
        NameFacts(env, s, a + b);
        EitherWay(env, s, a, b);
      }
    }
  }

  /** Fed in two pieces the unpacker ends as if fed in one, if all names have their NUL and the whole
      archive gives no trouble, or else the first piece gives no error and the cut is not in the header
      of an entry that the unpacker passes over. */
  lemma {:induction false} Split(env: Env, s: State, a: seq<Byte>, b: seq<Byte>)
    requires Valid(s) && Fit(env, s, a, b)
    ensures Splits(env, s, a, b)
    decreases |a|, Rank(s)
  {
    var m := Action(env, s, a);
    ActionValid(env, s, a);
    Progress(env, s, a);
    if s.phase == Reset {
      ResetSplits(env, s, a, b);
      if m.rest != [] {
        Split(env, m.s.(phase := Start), m.rest, b);
        return;
      }
    } else {
      Cases(env, s, a, b);
    }
    if Ahead(env, s, a, b) {
      RunStep(env, s, a);
      RunStep(env, s, a + b);
      Split(env, m.s, m.rest, b);
    } else if Resumes(env, s, a, b) {
      RunStop(env, s, a);
      SameAction(env, m.s, b, s, a + b);
    }
  }

  // ---------------------------------------------------------------- input in any number of pieces

  /** The pieces handed to `flush_buffer` one after the other. */
  function FlushAll(env: Env, s: State, pieces: seq<seq<Byte>>): State
    requires Valid(s)
    decreases |pieces|
  {
    if pieces == [] then s
    else
      RunValid(env, s, pieces[0]);
      FlushAll(env, Flush(env, s, pieces[0]), pieces[1..])
  }

  function Concat(pieces: seq<seq<Byte>>): seq<Byte> {
    if pieces == [] then [] else pieces[0] + Concat(pieces[1..])
  }

  /** Between two pieces there is no error, and no cut is in the header of an entry passed over. */
  ghost predicate CutsOk(env: Env, s: State, pieces: seq<seq<Byte>>)
    requires Valid(s)
    decreases |pieces|
  {
    |pieces| > 1 ==>
      var m := Run(env, s, pieces[0]);
      RunValid(env, s, pieces[0]);
      m.message == None && CutOk(m, Concat(pieces[1..])) && CutsOk(env, m, pieces[1..])
  }

  /** However the input is cut, the unpacker ends as if it got it in one piece. */
  lemma {:induction false} Pieces(env: Env, s: State, pieces: seq<seq<Byte>>)
    requires Valid(s) && s.message == None && pieces != [] && CutsOk(env, s, pieces)
    requires !Run(env, s, Concat(pieces)).stray
    ensures Alike(FlushAll(env, s, pieces), Run(env, s, Concat(pieces)))
    decreases |pieces|
  {
    var m := Run(env, s, pieces[0]);
    RunValid(env, s, pieces[0]);
    if |pieces| > 1 {
      Split(env, s, pieces[0], Concat(pieces[1..]));
      Pieces(env, m, pieces[1..]);
    } else {
      assert Concat(pieces) == pieces[0] + [] == pieces[0];
    }
  }

  lemma {:induction false} GoodCutOk(env: Env, m: State, b: seq<Byte>)
    requires Valid(m) && Good(Run(env, m, b))
    ensures m.message == None && CutOk(m, b)
  {
    RunWorse(env, m, b);
    if m.phase == Collect && m.next == GotHeader && |b| >= m.remains {
      RunStep(env, m, b);
      var a := DoCollect(m, b);
      GoodAnnounces(env, a.s, a.rest);
    }
  }

  lemma {:induction false} GoodCuts(env: Env, s: State, pieces: seq<seq<Byte>>)
    requires Valid(s) && Good(Run(env, s, Concat(pieces)))
    ensures CutsOk(env, s, pieces)
    decreases |pieces|
  {
    if |pieces| > 1 {
      var m := Run(env, s, pieces[0]);
      Split(env, s, pieces[0], Concat(pieces[1..]));
      GoodCutOk(env, m, Concat(pieces[1..]));
      GoodCuts(env, m, pieces[1..]);
    }
  }

  /** Input that gives no trouble in one piece gives the same in any pieces. */
  lemma {:induction false} AnyPieces(env: Env, s: State, pieces: seq<seq<Byte>>)
    requires Valid(s) && pieces != [] && Good(Run(env, s, Concat(pieces)))
    ensures Alike(FlushAll(env, s, pieces), Run(env, s, Concat(pieces)))
  {
    RunWorse(env, s, Concat(pieces));
    GoodCuts(env, s, pieces);
    Pieces(env, s, pieces);
  }

  // ---------------------------------------------------------------- a cut in the header of an entry passed over

  /** A header that is passed over, with `next_state` still at `GotHeader`, is met again and again. */
  lemma {:induction false} Stale(env: Env, s: State, input: seq<Byte>)
    requires Valid(s) && s.phase == GotHeader && s.next == GotHeader && Magic(s.buf) && !Accepted(ParseHeader(s.buf))
    ensures Run(env, s, input).phase == SkipIt && Run(env, s, input).next == GotHeader
    decreases |input|
  {
    HeaderAhead(s.pos, ParseHeader(s.buf));
    RunStep(env, s, input);
    var u := DoHeader(s, input).s;
    if u.pos + |input| < u.nextHeader {
      RunStop(env, u, input);
    } else {
      RunStep(env, u, input);
      Stale(env, DoSkip(u, input).s, DoSkip(u, input).rest);
    }
  }

  /** Without a cut, `next_state` is `GotHeader` only while the input ends in a header. */
  ghost predicate Uncut(s: State, input: seq<Byte>) {
    s.next == GotHeader ==> s.phase == Collect && |input| < s.remains
  }

  /** What an action leaves of it. */
  ghost predicate StaysUncut(a: Act) {
    if a.stop then a.s.next == GotHeader ==> a.s.phase == Collect else Uncut(a.s, a.rest)
  }

  lemma {:induction false} UncutHeader(s: State, input: seq<Byte>)
    requires s.next != GotHeader
    ensures StaysUncut(DoHeader(s, input))
  {}

  lemma {:induction false} UncutCollect(s: State, input: seq<Byte>)
    requires s.phase == Collect && Uncut(s, input)
    ensures StaysUncut(DoCollect(s, input))
  {}

  lemma {:induction false} UncutStep(env: Env, s: State, input: seq<Byte>)
    requires Uncut(s, input)
    ensures StaysUncut(Action(env, s, input))
  {
    match s.phase {
      case Collect => UncutCollect(s, input);
      case GotHeader => UncutHeader(s, input);
      case GotName => NameFacts(env, s, input);
      case _ =>
    }
  }

  lemma {:induction false} UncutRun(env: Env, s: State, input: seq<Byte>)
    requires Valid(s) && Uncut(s, input)
    ensures Run(env, s, input).next == GotHeader ==> Run(env, s, input).phase == Collect
    decreases |input|, Rank(s)
  {
    var a := Action(env, s, input);
    ActionValid(env, s, input);
    Progress(env, s, input);
    UncutStep(env, s, input);
    if !a.stop {
      UncutRun(env, a.s, a.rest);
    } else if a.rest != [] && a.s.message == None && a.rest[0] == '0' as int {
      UncutRun(env, a.s.(phase := Start), a.rest);
    }
  }

  lemma {:induction false} HeaderLost(env: Env, s: State, a: seq<Byte>, b: seq<Byte>)
    requires Valid(s) && s.phase == Start && s.next != GotHeader
    requires |a| < 110 <= |a + b| && Magic((a + b)[..110]) && !Accepted(ParseHeader((a + b)[..110]))
    ensures !Splits(env, s, a, b)
  {
    var c := Begun(s, 110, GotHeader);
    StartStops(env, s, a);
    BegunSplits(env, c, a, b);
    CutHeader(s, a, b);
    UncutRun(env, s, a + b);
    var m := Collected(c, a);
    RunStep(env, m, b);
    Stale(env, DoCollect(m, b).s, DoCollect(m, b).rest);
  }

  /** A cut in a header does no harm exactly when the entry is not passed over, whatever follows: if it
      is passed over, the state that follows the skipped bytes was lost. */
  lemma {:induction false} HeaderCut(env: Env, s: State, a: seq<Byte>, b: seq<Byte>)
    requires Valid(s) && s.phase == Start && s.next != GotHeader && s.message == None && !Run(env, s, a + b).stray
    requires |a| < 110 <= |a + b| && Magic((a + b)[..110])
    ensures Splits(env, s, a, b) <==> Accepted(ParseHeader((a + b)[..110]))
  {
    if Accepted(ParseHeader((a + b)[..110])) {
      StartStops(env, s, a);
      BegunSplits(env, Begun(s, 110, GotHeader), a, b);
      CutHeader(s, a, b);
      Split(env, s, a, b);
    } else {
      HeaderLost(env, s, a, b);
    }
  }

  lemma {:induction false} FieldsAt(s: seq<Byte>, i: nat)
    requires 8 * i + 8 <= |s|
    ensures Fields(s)[i] == Field(s[8 * i..8 * i + 8])
  {
    if i > 0 {
      FieldsAt(s[8..], i - 1);
      assert s[8..][8 * (i - 1)..8 * (i - 1) + 8] == s[8 * i..8 * i + 8];
    }
  }

  lemma {:induction false} HexOfZeros(s: seq<Byte>)
    requires forall k :: 0 <= k < |s| ==> s[k] == '0' as int
    ensures Hex(s, 0) == 0
  {
    if s != [] {
      HexOfZeros(s[1..]);
    }
  }

  /** The header of all zeros is passed over, so from the start no cut in it goes unnoticed. */
  lemma {:induction false} ZeroHeaderCut(env: Env, s: State, k: nat, more: seq<Byte>)
    requires Valid(s) && s.phase == Start && s.next == Start && k < 110
    ensures var h: seq<Byte> := MAGIC + ['1' as int] + seq(104, i => '0' as int);
      !Splits(env, s, h[..k], h[k..] + more)
  {
    var h: seq<Byte> := MAGIC + ['1' as int] + seq(104, i => '0' as int);
    var z := h[6..];
    assert forall i :: 0 <= i < 104 ==> z[i] == '0' as int;
    FieldsAt(z, 11);
    HexOfZeros(z[88..96]);
    assert ParseHeader(h).nameLen == 0;
    assert (h[..k] + (h[k..] + more))[..110] == h;
    assert h[..5] == MAGIC;
    HeaderLost(env, s, h[..k], h[k..] + more);
  }

  // ---------------------------------------------------------------- a cut in a name without a NUL

  lemma {:induction false} CStringOn(s: seq<Byte>, x: seq<Byte>)
    requires 0 !in s
    ensures CString(s + x) == s + CString(x)
  {
    if s == [] {
      assert s + x == x;
    } else {
      assert (s + x)[1..] == s[1..] + x;
      CStringOn(s[1..], x);
    }
  }

  /** The same name read to the other place. */
  predicate Elsewhere(s: State, t: State) {
    |t.nameBuf| == NAME_BUF && t == s.(inPlace := !s.inPlace, nameBuf := t.nameBuf)
  }

  /** Contents of `name_buf` and of what is behind it with which a name without NUL reads otherwise
      than in place. */
  lemma {:induction false} StrayReads(env: Env, s: State, input: seq<Byte>) returns (t: State, heap: seq<Byte>)
    requires s.inPlace && 0 !in s.buf && |s.buf| <= NAME_BUF
    ensures Elsewhere(s, t) && NameAt(env.(heap := heap), t, input) != NameAt(env.(heap := heap), s, input)
  {
    var v: Byte := if CString(input + env.past) == [] then 1 else 0;
    heap := [v];
    t := s.(inPlace := false, nameBuf := seq(NAME_BUF, i => v));
    var behind := t.nameBuf[|s.buf|..] + heap;
    assert behind[0] == v;
    CStringOn(s.buf, behind);
    CStringOn(s.buf, input + env.past);
    assert |CString(behind)| == 0 <==> v == 0;
  }

  /** Whether a name is read in place or through `name_buf`, that is, where the input is cut, makes no
      difference for every content of memory exactly when the name has a NUL. */
  lemma {:induction false} NameCut(env: Env, s: State, input: seq<Byte>)
    requires s.inPlace && |s.buf| <= NAME_BUF
    ensures 0 in s.buf <==>
      forall t, heap {:trigger NameAt(env.(heap := heap), t, input)} ::
        Elsewhere(s, t) ==> NameAt(env.(heap := heap), t, input) == NameAt(env.(heap := heap), s, input)
  {
    if 0 in s.buf {
      forall t, heap: seq<Byte> | Elsewhere(s, t)
        ensures NameAt(env.(heap := heap), t, input) == NameAt(env.(heap := heap), s, input)
      {
        NameRead(env.(heap := heap), t, input);
        NameRead(env.(heap := heap), s, input);
      }
    } else {
      var t, heap := StrayReads(env, s, input);
    }
  }

  /** A file whose name_len is 2, whose name is "ab" and whose body begins with "cdef" and a NUL: read in
      place its name is "abcdef"; read through a `name_buf` that held zeros it is "ab". */
  lemma {:induction false} StrayName(env: Env, s: State, t: State, input: seq<Byte>)
    requires s.inPlace && s.buf == ['a' as int, 'b' as int] && Elsewhere(s, t) && t.nameBuf[2] == 0
    requires |input| > 4 && input[..4] == ['c' as int, 'd' as int, 'e' as int, 'f' as int] && input[4] == 0
    ensures NameAt(env, s, input) == s.buf + input[..4] && NameAt(env, t, input) == s.buf
  {
    CStringOn(s.buf, input + env.past);
    assert input + env.past == input[..4] + (input[4..] + env.past);
    CStringOn(input[..4], input[4..] + env.past);
    CStringOn(s.buf, t.nameBuf[2..] + env.heap);
    assert s.buf + [] == s.buf && input[..4] + [] == input[..4];
  }
}
