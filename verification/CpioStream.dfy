/** Feeding the unpacker of `init/initramfs.c` in pieces: however an archive is cut, the result is
    that of one piece. */
module CpioStream {

  import opened CpioSpec
  import opened Machine

  /** What the static variables satisfy between actions; what is collected has room in its buffer. */
  predicate Valid(s: State) {
    |s.nameBuf| == NAME_BUF && (s.inPlace ==> s.phase == GotName) && (s.left > 0 ==> s.phase == CopyFile)
    && match s.phase
       case Collect => Collecting(s)
       case GotName => s.remains == 0 && |s.buf| <= NAME_BUF
       case GotSymlink => s.remains == 0 && |s.buf| <= LINK_BUF
       case CopyFile => s.remains == 0 && s.next == Reset && Copying(s.world)
       case GotHeader => s.remains == 0 && |s.buf| == 110 && s.next in {Start, GotHeader, Reset}
       case _ => s.remains == 0 && s.next in {Start, GotHeader, Reset}
                 && (s.phase == SkipIt && s.next == GotHeader ==> |s.buf| == 110)
  }

  predicate Collecting(s: State) {
    s.remains > 0
    && ((s.next == GotHeader && |s.buf| + s.remains == 110)
        || (s.next == GotName && |s.buf| + s.remains <= NAME_BUF)
        || (s.next == GotSymlink && |s.buf| + s.remains <= LINK_BUF))
  }

  /** The last thing made is a file. */
  predicate Copying(w: World) {
    w.log != [] && w.log[|w.log| - 1].File?
  }

  lemma {:induction false} NamedFacts(env: Env, s: State, name: seq<Byte>)
    ensures var s' := Named(env, s, name);
      s'.phase in {SkipIt, CopyFile} && (if s'.phase == CopyFile then Copying(s'.world) else s'.left == s.left)
      && s' == s.(phase := s'.phase, next := Reset, inPlace := false, world := s'.world,
                  ioCsum := s'.ioCsum, left := s'.left, stray := s.stray || 0 !in s.buf)
  {}

  lemma {:induction false} NameFacts(env: Env, s: State, input: seq<Byte>)
    ensures var s' := DoName(env, s, input);
      s'.phase in {SkipIt, CopyFile} && (if s'.phase == CopyFile then Copying(s'.world) else s'.left == s.left)
      && s' == s.(phase := s'.phase, next := Reset, inPlace := false, world := s'.world,
                  ioCsum := s'.ioCsum, left := s'.left, stray := s.stray || 0 !in s.buf)
  {
    NamedFacts(env, s, NameAt(env, s, input));
  }

  lemma {:induction false} WrittenFacts(w: World, bytes: seq<Byte>)
    ensures Copying(w) ==> Copying(Written(w, bytes))
  {}

  lemma {:induction false} AdmitValid(s: State, h: Header, csum: bool, input: seq<Byte>)
    requires Valid(s) && s.phase == GotHeader
    ensures Valid(Admit(s, h, csum, input).s)
  {
    NAlignPositive(h.nameLen);
  }

  lemma {:induction false} HeaderValid(s: State, input: seq<Byte>)
    requires Valid(s) && s.phase == GotHeader
    ensures Valid(DoHeader(s, input).s)
  {
    AdmitValid(s, ParseHeader(s.buf), s.buf[5] == '2' as int, input);
  }

  lemma {:induction false} AppendKeeps(env: Env, s: State, bytes: seq<Byte>)
    ensures var t := Append(env, s, bytes);
      t == s.(ioCsum := t.ioCsum, world := t.world, message := t.message)
      && (Copying(s.world) ==> Copying(t.world)) && (s.message != None ==> t.message == s.message)
  {
    WrittenFacts(s.world, Taken(env, s.world, bytes));
  }

  lemma {:induction false} CopyValid(env: Env, s: State, input: seq<Byte>)
    requires Valid(s) && s.phase == CopyFile
    ensures Valid(DoCopy(env, s, input).s)
  {
    AppendKeeps(env, s, Part(s.left, input));
  }

  lemma {:induction false} CollectValid(s: State, input: seq<Byte>)
    requires Valid(s) && s.phase == Collect
    ensures Valid(DoCollect(s, input).s)
  {}

  lemma {:induction false} NameValid(env: Env, s: State, input: seq<Byte>)
    requires Valid(s) && s.phase == GotName
    ensures Valid(DoName(env, s, input))
  {
    NameFacts(env, s, input);
  }

  lemma {:induction false} SkipValid(s: State, input: seq<Byte>)
    requires Valid(s) && s.phase == SkipIt
    ensures Valid(DoSkip(s, input).s)
  {}

  lemma {:induction false} ActionValid(env: Env, s: State, input: seq<Byte>)
    requires Valid(s)
    ensures Valid(Action(env, s, input).s)
  {
    match s.phase {
      case GotHeader => HeaderValid(s, input);
      case GotName => NameValid(env, s, input);
      case CopyFile => CopyValid(env, s, input);
      case Collect => CollectValid(s, input);
      case SkipIt => SkipValid(s, input);
      case _ =>
    }
  }

  lemma {:induction false} NAlignPositive(len: nat)
    ensures NAlign(len) >= 2 && (len <= PATH_MAX ==> NAlign(len) <= NAME_BUF)
  {
    var x := (len + 1) / 4;
    var q := (4 * x + 2) / WORD;
    assert NAlign(len) == 4 * x + 2 - q * WORD;
    assert NAlign(len) == 4 * (x - q * (WORD / 4)) + 2;
  }

  lemma {:induction false} HeaderAhead(pos: nat, h: Header)
    ensures NextHeader(pos, h) > pos
  {
    NAlignPositive(h.nameLen);
    var x := pos + NAlign(h.nameLen) + h.bodyLen;
    assert (x + 3) / 4 * 4 >= x;
  }

  /** Decreases while no input is eaten. */
  function Rank(s: State): nat {
    match s.phase
    case Collect => 1
    case Start => 2
    case GotHeader => 2
    case Reset => 3
    case SkipIt => if s.pos < s.nextHeader then 1 else 4
    case CopyFile => 5
    case _ => 6
  }

  /** What an action does to the input: it eats some of it; without eating it comes closer to the
      end; and only `do_reset` leaves input behind when it returns 1. */
  ghost predicate Proceeds(s: State, input: seq<Byte>, a: Act) {
    true == (|a.rest| <= |input|
    && (!a.stop && |a.rest| == |input| ==> Rank(a.s) < Rank(s))
    && (a.stop && a.rest != [] && a.s.message == None ==> s.phase == Reset && a.s.phase == Reset && a.rest[0] != 0))
  }

  lemma {:induction false} AdmitProceeds(s: State, h: Header, csum: bool, input: seq<Byte>)
    requires s.phase == GotHeader
    ensures Proceeds(s, input, Admit(s, h, csum, input))
  {
    NAlignPositive(h.nameLen);
    HeaderAhead(s.pos, h);
  }

  lemma {:induction false} HeaderProceeds(s: State, input: seq<Byte>)
    requires Valid(s) && s.phase == GotHeader
    ensures Proceeds(s, input, DoHeader(s, input))
  {
    AdmitProceeds(s, ParseHeader(s.buf), s.buf[5] == '2' as int, input);
  }

  lemma {:induction false} CollectProceeds(s: State, input: seq<Byte>)
    requires Valid(s) && s.phase == Collect
    ensures Proceeds(s, input, DoCollect(s, input))
  {}

  lemma {:induction false} SkipProceeds(s: State, input: seq<Byte>)
    requires s.phase == SkipIt && s.next in {Start, GotHeader, Reset}
    ensures Proceeds(s, input, DoSkip(s, input))
  {}

  lemma {:induction false} ResetProceeds(s: State, input: seq<Byte>)
    requires Valid(s) && s.phase == Reset
    ensures Proceeds(s, input, DoReset(s, input))
  {
    ZerosEnd(input);
  }

  lemma {:induction false} CopyProceeds(env: Env, s: State, input: seq<Byte>)
    requires Valid(s) && s.phase == CopyFile
    ensures Proceeds(s, input, DoCopy(env, s, input))
  {
    AppendKeeps(env, s, Part(s.left, input));
  }

  lemma {:induction false} Progress(env: Env, s: State, input: seq<Byte>)
    requires Valid(s)
    ensures Proceeds(s, input, Action(env, s, input))
  {
    match s.phase {
      case GotHeader => HeaderProceeds(s, input);
      case GotName => NameFacts(env, s, input);
      case CopyFile => CopyProceeds(env, s, input);
      case Collect => CollectProceeds(s, input);
      case SkipIt => SkipProceeds(s, input);
      case Reset => ResetProceeds(s, input);
      case GotSymlink =>
      case Start =>
    }
  }

  lemma {:induction false} ZerosEnd(input: seq<Byte>)
    ensures Zeros(input) < |input| ==> input[Zeros(input)] != 0
  {
    if input != [] && input[0] == 0 {
      ZerosEnd(input[1..]);
    }
  }

  /** `flush_buffer` without its first test: `write_buffer` until an action returns 1, then on with
      the next entry if the next byte says so. */
  function Run(env: Env, s: State, input: seq<Byte>): State
    requires Valid(s)
    decreases |input|, Rank(s)
  {
    var a := Action(env, s, input);
    ActionValid(env, s, input);
    Progress(env, s, input);
    if !a.stop then Run(env, a.s, a.rest)
    else if a.rest == [] || a.s.message != None then a.s
    else if a.rest[0] == '0' as int then Run(env, a.s.(phase := Start), a.rest)
    else Complain(a.s, Junk)
  }

  /** `flush_buffer`. */
  function Flush(env: Env, s: State, input: seq<Byte>): State
    requires Valid(s)
  {
    if s.message != None then s else Run(env, s, input)
  }

  // ---------------------------------------------------------------- runs without trouble

  /** No error was reported, no entry passed over, no name used that has no NUL. */
  predicate Good(s: State) {
    s.message == None && !s.skipped && !s.stray
  }

  /** What goes wrong stays wrong. */
  ghost predicate Worse(s: State, t: State) {
    true == ((t.message == None ==> s.message == None) && (!t.skipped ==> !s.skipped) && (!t.stray ==> !s.stray))
  }

  lemma {:induction false} ActionWorse(env: Env, s: State, input: seq<Byte>)
    ensures Worse(s, Action(env, s, input).s)
  {
    match s.phase {
      case GotHeader => HeaderWorse(s, input);
      case GotName => NameFacts(env, s, input);
      case CopyFile => CopyWorse(env, s, input);
      case Reset => ResetWorse(s, input);
      case _ =>
    }
  }

  lemma {:induction false} CopyWorse(env: Env, s: State, input: seq<Byte>)
    ensures Worse(s, DoCopy(env, s, input).s)
  {
    AppendKeeps(env, s, Part(s.left, input));
  }

  lemma {:induction false} ResetWorse(s: State, input: seq<Byte>)
    ensures Worse(s, DoReset(s, input).s)
  {}

  lemma {:induction false} HeaderWorse(s: State, input: seq<Byte>)
    ensures Worse(s, DoHeader(s, input).s)
  {}

  lemma {:induction false} RunWorse(env: Env, s: State, input: seq<Byte>)
    requires Valid(s)
    ensures Worse(s, Run(env, s, input)) && Worse(Action(env, s, input).s, Run(env, s, input))
    decreases |input|, Rank(s)
  {
    var a := Action(env, s, input);
    ActionValid(env, s, input);
    Progress(env, s, input);
    ActionWorse(env, s, input);
    if !a.stop {
      RunWorse(env, a.s, a.rest);
    } else if a.rest != [] && a.s.message == None && a.rest[0] == '0' as int {
      RunWorse(env, a.s.(phase := Start), a.rest);
    }
  }

  lemma {:induction false} RunValid(env: Env, s: State, input: seq<Byte>)
    requires Valid(s)
    ensures Valid(Run(env, s, input))
    decreases |input|, Rank(s)
  {
    var a := Action(env, s, input);
    ActionValid(env, s, input);
    Progress(env, s, input);
    if !a.stop {
      RunValid(env, a.s, a.rest);
    } else if a.rest != [] && a.s.message == None && a.rest[0] == '0' as int {
      RunValid(env, a.s.(phase := Start), a.rest);
    }
  }

  /** One action of a run that goes on. */
  lemma {:induction false} RunStep(env: Env, s: State, input: seq<Byte>)
    requires Valid(s) && !Action(env, s, input).stop
    ensures var a := Action(env, s, input);
      Valid(a.s) && Run(env, s, input) == Run(env, a.s, a.rest)
  {
    ActionValid(env, s, input);
  }

  /** The last action of a run that eats all its input. */
  lemma {:induction false} RunStop(env: Env, s: State, input: seq<Byte>)
    requires Valid(s) && Action(env, s, input).stop && Action(env, s, input).rest == []
    ensures Run(env, s, input) == Action(env, s, input).s
  {}

  // ---------------------------------------------------------------- what name_buf held before

  /** The same but for the contents of `name_buf`. */
  ghost predicate Alike(s: State, t: State) {
    t == s.(nameBuf := t.nameBuf)
  }

  lemma {:induction false} CStringStops(s: seq<Byte>, x: seq<Byte>)
    requires 0 in s
    ensures CString(s + x) == CString(s)
  {
    if s[0] != 0 {
      assert (s + x)[1..] == s[1..] + x;
      CStringStops(s[1..], x);
    }
  }

  /** A name with a NUL is what was read, wherever it lies and whatever is behind it. */
  lemma {:induction false} NameRead(env: Env, s: State, input: seq<Byte>)
    requires 0 in s.buf
    ensures NameAt(env, s, input) == CString(s.buf)
  {
    CStringStops(s.buf, Behind(env, s, input));
  }

  lemma {:induction false} NamedSeen(env: Env, s: State, t: State, name: seq<Byte>)
    requires t == s.(next := t.next, inPlace := t.inPlace, nameBuf := t.nameBuf)
    ensures Named(env, t, name) == Named(env, s, name).(nameBuf := t.nameBuf)
  {}

  /** With a NUL in the name, neither `next_state` nor `name_buf` nor the place of the name matters. */
  lemma {:induction false} NameSeen(env: Env, s: State, t: State, input: seq<Byte>)
    requires 0 in s.buf && t == s.(next := t.next, inPlace := t.inPlace, nameBuf := t.nameBuf)
    ensures Alike(DoName(env, s, input), DoName(env, t, input))
  {
    NameRead(env, s, input);
    NameRead(env, t, input);
    NamedSeen(env, s, t, CString(s.buf));
  }

  lemma {:induction false} AdmitSeen(s: State, t: State, h: Header, csum: bool, input: seq<Byte>)
    requires Alike(s, t)
    ensures SameAct(Admit(s, h, csum, input), Admit(t, h, csum, input))
  {}

  lemma {:induction false} HeaderSeen(s: State, t: State, input: seq<Byte>)
    requires Alike(s, t)
    ensures SameAct(DoHeader(s, input), DoHeader(t, input))
  {
    if Magic(s.buf) {
      AdmitSeen(s, t, ParseHeader(s.buf), s.buf[5] == '2' as int, input);
    }
  }

  lemma {:induction false} CopySeen(env: Env, s: State, t: State, input: seq<Byte>)
    requires Alike(s, t)
    ensures SameAct(DoCopy(env, s, input), DoCopy(env, t, input))
  {
    AppendSeen(env, s, t, Part(s.left, input));
    CopiedSeen(Append(env, s, Part(s.left, input)), Append(env, t, Part(s.left, input)), s.left, input);
  }

  lemma {:induction false} CopiedSeen(s: State, t: State, left: nat, input: seq<Byte>)
    requires Alike(s, t)
    ensures SameAct(Copied(s, left, input), Copied(t, left, input))
  {}

  lemma {:induction false} AppendSeen(env: Env, s: State, t: State, bytes: seq<Byte>)
    requires Alike(s, t)
    ensures Alike(Append(env, s, bytes), Append(env, t, bytes))
  {
    var a := Taken(env, s.world, bytes);
    GrownSeen(s, t, a);
    ComplaintSeen(Grown(s, a), Grown(t, a), WriteError);
  }

  lemma {:induction false} GrownSeen(s: State, t: State, bytes: seq<Byte>)
    requires Alike(s, t)
    ensures Alike(Grown(s, bytes), Grown(t, bytes))
  {}

  lemma {:induction false} ComplaintSeen(s: State, t: State, p: Problem)
    requires Alike(s, t)
    ensures Alike(Complain(s, p), Complain(t, p))
  {}

  ghost predicate SameAct(a: Act, b: Act) {
    true == (Alike(a.s, b.s) && a.rest == b.rest && a.stop == b.stop)
  }

  lemma {:induction false} CollectSeen(s: State, t: State, input: seq<Byte>)
    requires Alike(s, t)
    ensures SameAct(DoCollect(s, input), DoCollect(t, input))
  {}

  lemma {:induction false} StartSeen(s: State, t: State, input: seq<Byte>)
    requires Alike(s, t)
    ensures SameAct(DoStart(s, input), DoStart(t, input))
  {}

  lemma {:induction false} ResetSeen(s: State, t: State, input: seq<Byte>)
    requires Alike(s, t)
    ensures SameAct(DoReset(s, input), DoReset(t, input))
  {}

  lemma {:induction false} SymlinkSeen(s: State, t: State)
    requires Alike(s, t)
    ensures Alike(DoSymlink(s), DoSymlink(t))
  {}

  lemma {:induction false} SkipSeen(s: State, t: State, input: seq<Byte>)
    requires Alike(s, t)
    ensures SameAct(DoSkip(s, input), DoSkip(t, input))
  {}

  lemma {:induction false} ActionSeen(env: Env, s: State, t: State, input: seq<Byte>)
    requires Alike(s, t) && !Action(env, s, input).s.stray
    ensures SameAct(Action(env, s, input), Action(env, t, input))
  {
    match s.phase {
      case GotName =>
        NameFacts(env, s, input);
        NameSeen(env, s, t, input);
      case GotHeader => HeaderSeen(s, t, input);
      case CopyFile => CopySeen(env, s, t, input);
      case Collect => CollectSeen(s, t, input);
      case SkipIt => SkipSeen(s, t, input);
      case Start => StartSeen(s, t, input);
      case Reset => ResetSeen(s, t, input);
      case GotSymlink => SymlinkSeen(s, t);
    }
  }

  /** Runs over names with NULs do not depend on what `name_buf` held. */
  lemma {:induction false} RunSeen(env: Env, s: State, t: State, input: seq<Byte>)
    requires Valid(s) && Valid(t) && Alike(s, t) && !Run(env, s, input).stray
    ensures Alike(Run(env, s, input), Run(env, t, input))
    decreases |input|, Rank(s)
  {
    var a, b := Action(env, s, input), Action(env, t, input);
    ActionValid(env, s, input);
    ActionValid(env, t, input);
    Progress(env, s, input);
    RunWorse(env, s, input);
    ActionSeen(env, s, t, input);
    if !a.stop {
      RunSeen(env, a.s, b.s, a.rest);
    } else if a.rest != [] && a.s.message == None && a.rest[0] == '0' as int {
      RunSeen(env, a.s.(phase := Start), b.s.(phase := Start), a.rest);
    }
  }

  /** What `next_state` holds does not matter once a name has been read, */
  lemma {:induction false} NameNext(env: Env, s: State, x: Phase, input: seq<Byte>)
    requires Valid(s) && s.phase == GotName
    ensures Run(env, s.(next := x), input) == Run(env, s, input)
  {
    RunStep(env, s, input);
    RunStep(env, s.(next := x), input);
    DoNameNext(env, s, x, input);
  }

  lemma {:induction false} DoNameNext(env: Env, s: State, x: Phase, input: seq<Byte>)
    ensures DoName(env, s.(next := x), input) == DoName(env, s, input)
  {
    assert NameAt(env, s.(next := x), input) == NameAt(env, s, input);
    NamedSeen(env, s, s.(next := x), NameAt(env, s, input));
  }

  /** A header of an entry that `do_header` does not pass over. */
  predicate Announces(buf: seq<Byte>) {
    true == (Magic(buf) && Accepted(ParseHeader(buf)))
  }

  lemma {:induction false} DoHeaderNext(s: State, x: Phase, input: seq<Byte>)
    requires Announces(s.buf)
    ensures var a, a' := DoHeader(s, input), DoHeader(s.(next := x), input);
      !a.stop && (a.s.phase == GotName || a.s.phase == Collect)
      && a' == if a.s.phase == GotName then a.(s := a.s.(next := x)) else a
  {
    AdmitNext(s, ParseHeader(s.buf), s.buf[5] == '2' as int, x, input);
  }

  lemma {:induction false} AdmitNext(s: State, h: Header, csum: bool, x: Phase, input: seq<Byte>)
    requires Accepted(h)
    ensures var a, a' := Admit(s, h, csum, input), Admit(s.(next := x), h, csum, input);
      !a.stop && (a.s.phase == GotName || a.s.phase == Collect)
      && a' == if a.s.phase == GotName then a.(s := a.s.(next := x)) else a
  {
    if !IsLink(h.mode) {
      ReadIntoNext(s.(csumPresent := csum, hdr := h, nextHeader := NextHeader(s.pos, h)), NAlign(h.nameLen), x, input);
    }
  }

  lemma {:induction false} ReadIntoNext(s: State, size: nat, x: Phase, input: seq<Byte>)
    ensures var a, a' := ReadInto(s, input, size, GotName), ReadInto(s.(next := x), input, size, GotName);
      !a.stop && (a.s.phase == GotName || a.s.phase == Collect)
      && a' == if a.s.phase == GotName then a.(s := a.s.(next := x)) else a
  {}

  /** nor once the header of an entry that is not passed over has been read. */
  lemma {:induction false} HeaderNext(env: Env, s: State, x: Phase, input: seq<Byte>)
    requires Valid(s) && s.phase == GotHeader && x in {Start, GotHeader, Reset} && Announces(s.buf)
    ensures Run(env, s.(next := x), input) == Run(env, s, input)
  {
    var a := Action(env, s, input);
    DoHeaderNext(s, x, input);
    RunStep(env, s, input);
    RunStep(env, s.(next := x), input);
    if a.s.phase == GotName {
      NameNext(env, a.s, x, a.rest);
    }
  }
}
