/** What `init/initramfs.c` says of input that is no archive, and what it has made until then. */
module CpioTrouble {

  import opened Machine
  import opened CpioSpec
  import opened CpioStream
  import opened CpioPieces
  import opened CpioFormat
  import opened CpioArchive

  /** A header with none of the two magic numbers: nothing is made of it. */
  lemma {:induction false} NoHeader(env: Env, s: State, h: seq<Byte>, rest: seq<Byte>)
    requires Ready(s) && |h| == 110 && h[..6] != Ascii("070701") && h[..6] != Ascii("070702")
    ensures var t := Run(env, s, h + rest);
      t.message == (if h[..6] == Ascii("070707") then IncorrectMethod else NoMagic) && t.world == s.world
  {
    Front(h, rest);
    RunStep(env, s, h + rest);
    var u := s.(pos := s.pos + 110, buf := h, phase := GotHeader);
    MagicNumbers(h);
    Complains(env, u, rest);
  }

  lemma {:induction false} MagicNumbers(h: seq<Byte>)
    requires |h| == 110
    ensures Magic(h) <==> h[..6] == Ascii("070701") || h[..6] == Ascii("070702")
    ensures Complaint(h) == if h[..6] == Ascii("070707") then IncorrectMethod else NoMagic
  {
    assert h[..6] == h[..5] + [h[5]];
    assert Ascii("070701") == MAGIC + ['1' as int] && Ascii("070702") == MAGIC + ['2' as int];
    assert Ascii("070707") == MAGIC + ['7' as int];
  }

  lemma {:induction false} Complains(env: Env, u: State, rest: seq<Byte>)
    requires Valid(u) && u.message == None && u.phase == GotHeader && !Magic(u.buf)
    ensures Run(env, u, rest) == u.(message := Complaint(u.buf))
  {}

  /** Behind an entry only NULs and, at a multiple of four, the next header may come. */
  lemma {:induction false} NoEntry(env: Env, s: State, gap: nat, c: Byte, more: seq<Byte>)
    requires Valid(s) && Good(s) && s.phase == Reset && c != 0
    ensures var t := Run(env, s, Nuls(gap) + ([c] + more));
      t.message == (if (s.pos + gap) % 4 != 0 then BrokenPadding else if c != '0' as int then Junk else t.message)
      && ((s.pos + gap) % 4 != 0 || c != '0' as int ==> t.world == s.world)
  {
    ZerosNuls(gap, [c] + more);
    var a := DoReset(s, Nuls(gap) + ([c] + more));
    assert a.rest == [c] + more && a.rest[0] == c;
  }

  /** The body written with a checksum that is not its own: all of it is there, and the complaint. */
  lemma {:induction false} WrongSumCopied(env: Env, s: State, body: seq<Byte>, rest: seq<Byte>)
    requires s.left == |body| && s.ioCsum == 0 && s.csumPresent && s.hdr.csum != Sum(body) % WORD && s.message == None
    requires |body| <= Room(env, s.world)
    ensures DoCopy(env, s, body + rest)
      == Act(s.(pos := s.pos + |body|, phase := SkipIt, left := 0, world := Written(s.world, body),
                ioCsum := Summed(0, true, body), message := BadChecksum), rest, false)
  {
    Front(body, rest);
  }

  /** A complaint made, the rest of the entry is skipped and the run is over. */
  lemma {:induction false} SkipsOut(env: Env, s: State, pad: seq<Byte>, more: seq<Byte>)
    requires Valid(s) && s.message != None && s.phase == SkipIt && s.next == Reset && s.nextHeader == s.pos + |pad|
    ensures var t := Run(env, s, pad + more);
      t.message == s.message && t.world == s.world
  {
    Front(pad, more);
    RunStep(env, s, pad + more);
  }

  lemma {:induction false} WrongSumRuns(env: Env, s: State, body: seq<Byte>, pad: seq<Byte>, more: seq<Byte>)
    requires Valid(s) && s.message == None && s.phase == CopyFile && s.left == |body| && s.ioCsum == 0 && s.csumPresent
    requires s.hdr.csum != Sum(body) % WORD && s.nextHeader == s.pos + |body| + |pad| && |body| <= Room(env, s.world)
    ensures var t := Run(env, s, body + (pad + more));
      t.message == BadChecksum && t.world == Written(s.world, body)
  {
    WrongSumCopied(env, s, body, pad + more);
    RunStep(env, s, body + (pad + more));
    SkipsOut(env, DoCopy(env, s, body + (pad + more)).s, pad, more);
  }

  /** An entry of a file that gets opened, and whose checksum is wrong. */
  ghost predicate Spoilt(env: Env, w: World, e: Entry) {
    true == (Formed(e) && e.crc && e.header.csum != Sum(e.body) % WORD && !IsLink(e.header.mode) && e.name != TRAILER
    && RoomFor(env, w, e) && Opens(env, Note(w, Clean(e.name, e.header.mode)), e.header, e.name))
  }

  ghost predicate Told(env: Env, t: State, w: World, e: Entry) {
    true == (t.message == BadChecksum && t.world == Unpacked(env, w, e))
  }

  /** From its name on. */
  lemma {:induction false} SpoiltNamed(env: Env, s: State, e: Entry, pos: nat, w: World, more: seq<Byte>)
    requires Knows(s, e, pos, w) && s.phase == GotName && s.buf == NameBytes(e) && Spoilt(env, w, e)
    requires s.nextHeader == s.pos + |e.body| + Fill(|e.body|)
    ensures Told(env, Run(env, s, e.body + (Nuls(Fill(|e.body|)) + more)), w, e)
  {
    var pad := Nuls(Fill(|e.body|));
    var w1 := Note(w, Clean(e.name, e.header.mode));
    NamedRuns(env, s, e, pos, w, e.body + (pad + more));
    WholeBody(env, MaybeLink(env, w1, e.header, e.name), e.name, e.header, LinkResult(env, w1, e.header, e.name) != 1,
        e.body);
    WrongSumRuns(env, Named(env, s, e.name), e.body, pad, more);
  }

  /** From behind its header on. */
  lemma {:induction false} SpoiltRest(env: Env, s: State, e: Entry, pos: nat, w: World, end: nat, more: seq<Byte>)
    requires AtHeader(s, e, pos, w) && Spoilt(env, w, e) && NextHeader(pos, e.header) == end
    requires end == pos + |NameBytes(e)| + |e.body| + |Nuls(Fill(|e.body|))|
    ensures Told(env, Run(env, s, Tail(e, more)), w, e)
  {
    var g := NameRuns(env, s, e, pos, w, e.body + (Nuls(Fill(|e.body|)) + more));
    SpoiltNamed(env, g, e, pos, w, more);
  }

  /** A regular file, opened, whose checksum is wrong: the file has its whole content, and it is said that the data is
      bad. */
  lemma {:induction false} WrongSum(env: Env, s: State, e: Entry, more: seq<Byte>)
    requires Ready(s) && Formed(e) && e.crc && !SumRight(e) && TypeOf(e.header.mode) == Reg && !Trailer(e)
    requires RoomFor(env, s.world, e) && Opens(env, Note(s.world, Clean(e.name, e.header.mode)), e.header, e.name)
    ensures Told(env, Run(env, s, Encode(e) + more), s.world, e)
  {
    IsSpoilt(env, s.world, e);
    EntryEnds(s.pos, e);
    EncodeNest(e, more);
    var h := HeaderRuns(env, s, e, Tail(e, more));
    SpoiltRest(env, h, e, s.pos + 110, s.world, s.pos + |Encode(e)|, more);
  }

  lemma {:induction false} IsSpoilt(env: Env, w: World, e: Entry)
    requires Formed(e) && e.crc && !SumRight(e) && TypeOf(e.header.mode) == Reg && !Trailer(e)
    requires RoomFor(env, w, e) && Opens(env, Note(w, Clean(e.name, e.header.mode)), e.header, e.name)
    ensures Spoilt(env, w, e)
  {
    Suits(e);
    Letters();
  }
}
