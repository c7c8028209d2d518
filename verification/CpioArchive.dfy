/** What `init/initramfs.c` makes of every well-formed archive, however it is cut. */
module CpioArchive {

  import opened CpioSpec
  import opened Machine
  import opened CpioStream
  import opened CpioPieces
  import opened CpioFormat

  // ---------------------------------------------------------------- what the unpacker makes of an entry

  function Unpacked(env: Env, w: World, e: Entry): World {
    var h, name := e.header, e.name;
    if IsLink(h.mode) then Note(Note(w, Clean(name, 0)), Symlink(e.body, name, h))
    else if name == TRAILER then w.(links := map[])
    else
      var w1 := Note(w, Clean(name, h.mode));
      if Opens(env, w1, h, name) then
        Note(MaybeLink(env, w1, h, name), File(name, h, LinkResult(env, w1, h, name) != 1, e.body))
      else Made(env, w1, h, name)
  }

  function UnpackedAll(env: Env, w: World, es: seq<Entry>): World
    decreases |es|
  {
    if es == [] then w else UnpackedAll(env, Unpacked(env, w, es[0]), es[1..])
  }

  /** There is room for the body, if the entry is a file that gets opened. */
  predicate RoomFor(env: Env, w: World, e: Entry) {
    var w1 := Note(w, Clean(e.name, e.header.mode));
    !IsLink(e.header.mode) && e.name != TRAILER && Opens(env, w1, e.header, e.name) ==>
      |e.body| <= env.room(MaybeLink(env, w1, e.header, e.name).log)
  }

  predicate AllRoom(env: Env, w: World, es: seq<Entry>)
    decreases |es|
  {
    es == [] || (RoomFor(env, w, es[0]) && AllRoom(env, Unpacked(env, w, es[0]), es[1..]))
  }

  // ---------------------------------------------------------------- the terms of the format and of the unpacker

  /** The type bits. */
  lemma {:induction false} Types(mode: nat)
    requires mode < 0x1_0000
    ensures TypeOf(mode) == match Kind(mode)
      case 1 => Fifo case 2 => Chr case 4 => Directory case 6 => Blk case 8 => Reg case 10 => Lnk case 12 => Sock
      case _ => Other
  {
    var k := mode / 0x1000;
    assert mode == k * 0x1000 + mode % 0x1000 && k < 16;
  }

  lemma {:induction false} Totals(bytes: seq<Byte>)
    ensures Total(bytes) == Sum(bytes)
  {
    if bytes != [] {
      var l := bytes[..|bytes| - 1];
      Totals(l);
      SumAdds(l, [bytes[|bytes| - 1]]);
      assert bytes == l + [bytes[|bytes| - 1]];
      assert Sum([bytes[|bytes| - 1]]) == bytes[|bytes| - 1] by {
        assert [bytes[|bytes| - 1]][1..] == [];
      }
    }
  }

  /** What `do_header` and `do_copy` ask of an entry. */
  lemma {:induction false} Suits(e: Entry)
    requires Formed(e)
    ensures Accepted(e.header) && (IsLink(e.header.mode) <==> TypeOf(e.header.mode) == Lnk)
    ensures IsLink(e.header.mode) ==> 0 !in e.body
    ensures SumRight(e) <==> (e.crc ==> e.header.csum == Sum(e.body) % WORD)
  {
    Types(e.header.mode);
    Totals(e.body);
  }

  lemma {:induction false} Letters()
    ensures Ascii("07070") == MAGIC && Ascii("TRAILER!!!") == TRAILER
  {}

  // ---------------------------------------------------------------- headers can be read back

  function Pow16(k: nat): nat {
    if k == 0 then 1 else 16 * Pow16(k - 1)
  }

  lemma {:induction false} HexDigitByte(x: nat)
    requires x < 16
    ensures HexDigit(HexByte(x)) == x && HexByte(x) !in {'x' as int, 'X' as int}
  {}

  predicate AllHex(s: seq<Byte>) {
    forall i :: 0 <= i < |s| ==> HexDigit(s[i]) >= 0
  }

  lemma {:induction false} HexAppend(s: seq<Byte>, b: Byte, acc: nat)
    requires AllHex(s) && HexDigit(b) >= 0
    ensures Hex(s + [b], acc) == Hex(s, acc) * 16 + HexDigit(b)
  {
    if s == [] {
      assert ([] + [b])[1..] == [];
    } else {
      assert (s + [b])[1..] == s[1..] + [b];
      HexAppend(s[1..], b, acc * 16 + HexDigit(s[0]));
    }
  }

  lemma {:induction false} HexRead(n: nat, k: nat)
    requires n < Pow16(k)
    ensures AllHex(HexText(n, k)) && Hex(HexText(n, k), 0) == n
    ensures forall i :: 0 <= i < k ==> HexText(n, k)[i] !in {'x' as int, 'X' as int}
  {
    if k > 0 {
      HexRead(n / 16, k - 1);
      HexDigitByte(n % 16);
      HexAppend(HexText(n / 16, k - 1), HexByte(n % 16), 0);
    }
  }

  lemma {:induction false} FieldRead(n: nat)
    requires n < WORD
    ensures Field(HexText(n, 8)) == n
  {
    assert Pow16(8) == WORD;
    HexRead(n, 8);
  }

  lemma {:induction false} FieldsRead(f: seq<nat>)
    requires forall i :: 0 <= i < |f| ==> f[i] < WORD
    ensures Fields(FieldText(f)) == f
  {
    if f != [] {
      FieldRead(f[0]);
      FieldsRead(f[1..]);
      var t := FieldText(f);
      assert t[..8] == HexText(f[0], 8) && t[8..] == FieldText(f[1..]);
    }
  }

  lemma {:induction false} HeaderParts(e: Entry)
    ensures var t := HeaderBytes(e);
      t[..5] == MAGIC && t[5] == (if e.crc then '2' as int else '1' as int) && t[6..] == FieldText(FieldList(e.header))
  {
    Letters();
  }

  lemma {:induction false} HeaderRead(e: Entry)
    requires Fields32(e.header)
    ensures Magic(HeaderBytes(e)) && ParseHeader(HeaderBytes(e)) == e.header
    ensures HeaderBytes(e)[5] == if e.crc then '2' as int else '1' as int
  {
    HeaderParts(e);
    var f := FieldList(e.header);
    FieldsRead(f);
    assert Fields(HeaderBytes(e)[6..]) == f;
    assert f[1] % 0x1_0000 == f[1];
  }

  // ---------------------------------------------------------------- names and positions

  lemma {:induction false} AlignHolds(len: nat)
    requires 0 < len <= PATH_MAX
    ensures len <= NAlign(len) <= NAME_BUF && (110 + NAlign(len)) % 4 == 0
  {
    NAlignPositive(len);
    var q := (len + 1) / 4;
    assert NAlign(len) == q * 4 + 2;
  }

  lemma {:induction false} CStringAll(s: seq<Byte>)
    requires 0 !in s
    ensures CString(s) == s
  {
    if s != [] {
      CStringAll(s[1..]);
    }
  }

  /** The fill behind a name is what `N_ALIGN` makes room for. */
  lemma {:induction false} NameFill(len: nat)
    requires 0 < len <= PATH_MAX
    ensures len + Fill(110 + len) == NAlign(len)
  {
    var q := (len + 1) / 4;
    assert NAlign(len) == q * 4 + 2;
    assert (110 + len + 3) / 4 == q + 28;
  }

  lemma {:induction false} NameStored(e: Entry)
    requires Formed(e)
    ensures |NameBytes(e)| == NAlign(e.header.nameLen) && 0 in NameBytes(e) && CString(NameBytes(e)) == e.name
  {
    NameFill(|e.name| + 1);
    var z := Nuls(1 + Fill(110 + |e.name| + 1));
    assert NameBytes(e)[|e.name|] == z[0] == 0;
    CStringOn(e.name, z);
    assert e.name + [] == e.name;
  }

  lemma {:induction false} EncodeLength(e: Entry)
    requires Formed(e)
    ensures |NameBytes(e)| == NAlign(e.header.nameLen)
    ensures |Encode(e)| == 110 + NAlign(e.header.nameLen) + |e.body| + |Nuls(Fill(|e.body|))|
  {
    NameStored(e);
  }

  /** The entry ends where `next_header` says. */
  lemma {:induction false} EntryEnds(pos: nat, e: Entry)
    requires Formed(e) && pos % 4 == 0
    ensures var end := pos + |Encode(e)|;
      NextHeader(pos + 110, e.header) == end && end % 4 == 0
      && end == pos + 110 + |NameBytes(e)| + |e.body| + |Nuls(Fill(|e.body|))|
  {
    EncodeLength(e);
    AlignHolds(e.header.nameLen);
    Fours(pos, 110 + NAlign(e.header.nameLen));
    RoundUp(pos + (110 + NAlign(e.header.nameLen)), |e.body|);
  }

  lemma {:induction false} Fours(a: nat, b: nat)
    requires a % 4 == 0
    ensures b % 4 == 0 ==> (a + b) % 4 == 0
  {}

  lemma {:induction false} RoundUp(x: nat, n: nat)
    requires x % 4 == 0
    ensures (x + n + 3) / 4 * 4 == x + n + Fill(n) && (x + n + Fill(n)) % 4 == 0
  {
    var q := x / 4;
    assert x == 4 * q;
    assert (x + n + 3) / 4 == q + (n + 3) / 4;
  }

  // ---------------------------------------------------------------- the run over one entry

  /** The entry is done: all of it eaten, and `w` made. */
  ghost predicate Done(s: State, pos: nat, w: World) {
    true == (Valid(s) && Good(s) && s.phase == Reset && s.next == Reset && s.pos == pos && s.world == w)
  }

  /** The unpacker before a header. */
  ghost predicate Ready(s: State) {
    true == (Valid(s) && Good(s) && s.phase == Start && s.pos % 4 == 0)
  }

  lemma {:induction false} Front(a: seq<Byte>, b: seq<Byte>)
    ensures (a + b)[..|a|] == a && (a + b)[|a|..] == b
  {}

  /** From `SkipIt` to the next header. */
  lemma {:induction false} SkipRuns(env: Env, s: State, pad: seq<Byte>, more: seq<Byte>)
    requires Valid(s) && Good(s) && s.phase == SkipIt && s.next == Reset && s.nextHeader == s.pos + |pad|
    ensures var u := s.(pos := s.nextHeader, phase := Reset);
      Done(u, s.nextHeader, s.world) && Run(env, s, pad + more) == Run(env, u, more)
  {
    Front(pad, more);
    RunStep(env, s, pad + more);
  }

  /** The header read. */
  ghost predicate AtHeader(s: State, e: Entry, pos: nat, w: World) {
    true == (Valid(s) && Good(s) && s.phase == GotHeader && s.buf == HeaderBytes(e) && s.pos == pos && s.world == w)
  }

  lemma {:induction false} HeaderRuns(env: Env, s: State, e: Entry, rest: seq<Byte>) returns (u: State)
    requires Valid(s) && Good(s) && s.phase == Start
    ensures AtHeader(u, e, s.pos + 110, s.world) && Run(env, s, HeaderBytes(e) + rest) == Run(env, u, rest)
  {
    var h := HeaderBytes(e);
    Front(h, rest);
    RunStep(env, s, h + rest);
    u := s.(pos := s.pos + 110, buf := h, phase := GotHeader);
  }

  /** `do_header` has taken note of the entry. */
  ghost predicate Knows(s: State, e: Entry, pos: nat, w: World) {
    true == (Valid(s) && Good(s) && s.hdr == e.header && s.csumPresent == e.crc
    && s.nextHeader == NextHeader(pos, e.header) && s.world == w)
  }

  lemma {:induction false} HeaderKnown(s: State, e: Entry, pos: nat, w: World, input: seq<Byte>)
    requires AtHeader(s, e, pos, w) && Fields32(e.header)
    ensures DoHeader(s, input) == Admit(s, e.header, e.crc, input)
  {
    HeaderRead(e);
  }

  lemma {:induction false} NameAdmitted(s: State, e: Entry, rest: seq<Byte>)
    requires Accepted(e.header) && !IsLink(e.header.mode) && |NameBytes(e)| == NAlign(e.header.nameLen)
    ensures Admit(s, e.header, e.crc, NameBytes(e) + rest)
      == Act(s.(csumPresent := e.crc, hdr := e.header, nextHeader := NextHeader(s.pos, e.header),
          pos := s.pos + |NameBytes(e)|,
                buf := NameBytes(e), inPlace := true, phase := GotName), rest, false)
  {
    Front(NameBytes(e), rest);
  }

  /** From the header to the name. */
  lemma {:induction false} NameRuns(env: Env, s: State, e: Entry, pos: nat, w: World, rest: seq<Byte>)
    returns (u: State)
    requires AtHeader(s, e, pos, w) && Formed(e) && !IsLink(e.header.mode)
    ensures Knows(u, e, pos, w) && u.phase == GotName && u.pos == pos + |NameBytes(e)| && u.buf == NameBytes(e)
    ensures Run(env, s, NameBytes(e) + rest) == Run(env, u, rest)
  {
    Suits(e);
    var n := NameBytes(e);
    HeaderKnown(s, e, pos, w, n + rest);
    NameStored(e);
    NameAdmitted(s, e, rest);
    RunStep(env, s, n + rest);
    u := Action(env, s, n + rest).s;
  }

  lemma {:induction false} BodyCopied(env: Env, s: State, body: seq<Byte>, rest: seq<Byte>)
    requires s.left == |body| && s.ioCsum == 0 && (s.csumPresent ==> s.hdr.csum == Sum(body) % WORD)
    requires |body| <= Room(env, s.world)
    ensures DoCopy(env, s, body + rest)
      == Act(s.(pos := s.pos + |body|, phase := SkipIt, left := 0, world := Written(s.world, body),
                ioCsum := Summed(0, s.csumPresent, body)), rest, false)
  {
    Front(body, rest);
  }

  /** A file's body is what its log entry ends up with. */
  lemma {:induction false} WholeBody(env: Env, w: World, name: seq<Byte>, h: Header, truncate: bool, body: seq<Byte>)
    ensures Written(Note(w, File(name, h, truncate, [])), body) == Note(w, File(name, h, truncate, body))
    ensures Room(env, Note(w, File(name, h, truncate, []))) == env.room(w.log)
  {
    var l := w.log + [File(name, h, truncate, [])];
    assert l[..|l| - 1] == w.log;
    assert [] + body == body;
  }

  /** A regular file that can be opened. */
  lemma {:induction false} FileRuns(env: Env, s: State, body: seq<Byte>, pad: seq<Byte>, more: seq<Byte>)
    returns (u: State)
    requires Valid(s) && Good(s) && s.phase == CopyFile && s.left == |body| && s.ioCsum == 0
    requires (s.csumPresent ==> s.hdr.csum == Sum(body) % WORD) && s.nextHeader == s.pos + |body| + |pad|
    requires |body| <= Room(env, s.world)
    ensures Done(u, s.nextHeader, Written(s.world, body)) && Run(env, s, body + (pad + more)) == Run(env, u, more)
  {
    BodyCopied(env, s, body, pad + more);
    RunStep(env, s, body + (pad + more));
    var v := DoCopy(env, s, body + (pad + more)).s;
    SkipRuns(env, v, pad, more);
    u := v.(pos := v.nextHeader, phase := Reset);
  }

  /** `do_name` for a name that has its NUL. */
  lemma {:induction false} NamedRuns(env: Env, s: State, e: Entry, pos: nat, w: World, rest: seq<Byte>)
    requires Knows(s, e, pos, w) && s.phase == GotName && s.buf == NameBytes(e) && Formed(e)
    ensures var t := Named(env, s, e.name);
      Valid(t) && Good(t) && Run(env, s, rest) == Run(env, t, rest)
  {
    NameStored(e);
    NameRead(env, s, rest);
    NamedFacts(env, s, e.name);
    RunStep(env, s, rest);
  }

  /** An entry that is not a symbolic link, from its name on. */
  lemma {:induction false} MadeRuns(env: Env, s: State, e: Entry, pos: nat, w: World, more: seq<Byte>)
    returns (u: State)
    requires Knows(s, e, pos, w) && s.phase == GotName && s.buf == NameBytes(e) && WellFormed(e)
    requires !IsLink(e.header.mode) && RoomFor(env, w, e)
    requires s.nextHeader == s.pos + |e.body| + Fill(|e.body|)
    ensures Done(u, s.nextHeader, Unpacked(env, w, e))
    ensures Run(env, s, e.body + (Nuls(Fill(|e.body|)) + more)) == Run(env, u, more)
  {
    Suits(e);
    var pad := Nuls(Fill(|e.body|));
    var t := Named(env, s, e.name);
    var w1 := Note(w, Clean(e.name, e.header.mode));
    NamedRuns(env, s, e, pos, w, e.body + (pad + more));
    if e.name != TRAILER && Opens(env, w1, e.header, e.name) {
      WholeBody(env, MaybeLink(env, w1, e.header, e.name), e.name, e.header, LinkResult(env, w1, e.header, e.name) != 1,
          e.body);
      u := FileRuns(env, t, e.body, pad, more);
    } else {
      Assoc(e.body, pad, more);
      SkipRuns(env, t, e.body + pad, more);
      u := t.(pos := t.nextHeader, phase := Reset);
    }
  }

  lemma {:induction false} LinkCollected(s: State, n: seq<Byte>, body: seq<Byte>, rest: seq<Byte>)
    requires s.remains == |n| + |body| && s.buf == [] && s.next == GotSymlink
    ensures DoCollect(s, n + (body + rest))
      == Act(s.(pos := s.pos + |n| + |body|, buf := n + body, remains := 0, phase := GotSymlink), rest, false)
  {
    Assoc(n, body, rest);
    Front(n + body, rest);
    assert [] + (n + body) == n + body;
  }

  lemma {:induction false} LinkMade(s: State, e: Entry, pos: nat, w: World)
    requires Knows(s, e, pos, w) && WellFormed(e) && IsLink(e.header.mode) && s.buf == NameBytes(e) + e.body
    ensures DoSymlink(s)
      == s.(world := Note(Note(w, Clean(e.name, 0)), Symlink(e.body, e.name, e.header)), phase := SkipIt, next := Reset)
  {
    Suits(e);
    var n := NameBytes(e);
    NameStored(e);
    CStringStops(n, e.body);
    Front(n, e.body);
    CStringAll(e.body);
  }

  /** A symbolic link, from its header on. */
  lemma {:induction false} LinkRuns(env: Env, s: State, e: Entry, pos: nat, w: World, pad: seq<Byte>,
      more: seq<Byte>) returns (u: State)
    requires AtHeader(s, e, pos, w) && WellFormed(e) && IsLink(e.header.mode)
    requires NextHeader(pos, e.header) == pos + |NameBytes(e)| + |e.body| + |pad|
    ensures Done(u, NextHeader(pos, e.header), Unpacked(env, w, e))
    ensures Run(env, s, NameBytes(e) + (e.body + (pad + more))) == Run(env, u, more)
  {
    Suits(e);
    var n := NameBytes(e);
    var input := n + (e.body + (pad + more));
    NameStored(e);
    HeaderKnown(s, e, pos, w, input);
    RunStep(env, s, input);
    var c := DoHeader(s, input).s;
    LinkCollected(c, n, e.body, pad + more);
    RunStep(env, c, input);
    var g := DoCollect(c, input).s;
    LinkMade(g, e, pos, w);
    RunStep(env, g, pad + more);
    SkipRuns(env, DoSymlink(g), pad, more);
    u := DoSymlink(g).(pos := g.nextHeader, phase := Reset);
  }

  /** What follows the header of an entry. */
  ghost function Tail(e: Entry, more: seq<Byte>): seq<Byte> {
    NameBytes(e) + (e.body + (Nuls(Fill(|e.body|)) + more))
  }

  /** Any entry, from behind its header to its last byte. */
  lemma {:induction false} RestRuns(env: Env, s: State, e: Entry, pos: nat, w: World, end: nat,
      more: seq<Byte>) returns (u: State)
    requires AtHeader(s, e, pos, w) && WellFormed(e) && RoomFor(env, w, e) && NextHeader(pos, e.header) == end
    requires end == pos + |NameBytes(e)| + |e.body| + |Nuls(Fill(|e.body|))|
    ensures Done(u, end, Unpacked(env, w, e)) && Run(env, s, Tail(e, more)) == Run(env, u, more)
  {
    var pad := Nuls(Fill(|e.body|));
    if IsLink(e.header.mode) {
      u := LinkRuns(env, s, e, pos, w, pad, more);
    } else {
      var g := NameRuns(env, s, e, pos, w, e.body + (pad + more));
      u := MadeRuns(env, g, e, pos, w, more);
    }
  }

  /** Any entry, from its first byte to its last. */
  lemma {:induction false} EntryRuns(env: Env, s: State, e: Entry, more: seq<Byte>) returns (u: State)
    requires Valid(s) && Good(s) && s.phase == Start && s.pos % 4 == 0 && WellFormed(e) && RoomFor(env, s.world, e)
    ensures Done(u, s.pos + |Encode(e)|, Unpacked(env, s.world, e))
    ensures Run(env, s, Encode(e) + more) == Run(env, u, more)
  {
    EntryEnds(s.pos, e);
    EncodeNest(e, more);
    var h := HeaderRuns(env, s, e, Tail(e, more));
    u := RestRuns(env, h, e, s.pos + 110, s.world, s.pos + |Encode(e)|, more);
  }

  lemma {:induction false} EncodeNest(e: Entry, more: seq<Byte>)
    ensures Encode(e) + more == HeaderBytes(e) + Tail(e, more)
  {
    Nest(HeaderBytes(e), NameBytes(e), e.body, Nuls(Fill(|e.body|)), more);
  }

  lemma {:induction false} Nest(h: seq<Byte>, n: seq<Byte>, b: seq<Byte>, p: seq<Byte>, more: seq<Byte>)
    ensures (h + (n + (b + p))) + more == h + (n + (b + (p + more)))
  {
    Assoc(b, p, more);
    Assoc(n, b + p, more);
    Assoc(h, n + (b + p), more);
  }

  lemma {:induction false} ZerosNuls(k: nat, more: seq<Byte>)
    requires more != [] ==> more[0] != 0
    ensures Zeros(Nuls(k) + more) == k && (Nuls(k) + more)[k..] == more
    decreases k
  {
    if k == 0 {
      assert Nuls(k) + more == more;
    } else {
      assert Nuls(k)[1..] == Nuls(k - 1) && (Nuls(k) + more)[1..] == Nuls(k - 1) + more;
      ZerosNuls(k - 1, more);
    }
  }

  lemma {:induction false} ResetRuns(env: Env, s: State, input: seq<Byte>, t: State, more: seq<Byte>)
    requires Valid(s) && Good(s) && s.phase == Reset
    requires DoReset(s, input) == Act(t, more, true) && t.message == None && (more != [] ==> more[0] == '0' as int)
    ensures Valid(t) && Valid(t.(phase := Start))
    ensures Run(env, s, input) == if more == [] then t else Run(env, t.(phase := Start), more)
  {
    ActionValid(env, s, input);
  }

  /** From the end of one entry over the NULs behind it to the next. */
  lemma {:induction false} Onward(env: Env, s: State, gap: nat, more: seq<Byte>) returns (t: State)
    requires Valid(s) && Good(s) && s.phase == Reset
    requires more != [] ==> more[0] == '0' as int && (s.pos + gap) % 4 == 0
    ensures t == s.(pos := s.pos + gap) && Valid(t) && Valid(t.(phase := Start))
    ensures Run(env, s, Nuls(gap) + more) == if more == [] then t else Run(env, t.(phase := Start), more)
  {
    t := s.(pos := s.pos + gap);
    ResetOver(s, gap, more);
    ResetRuns(env, s, Nuls(gap) + more, t, more);
  }

  lemma {:induction false} ResetOver(s: State, gap: nat, more: seq<Byte>)
    requires more != [] ==> more[0] == '0' as int && (s.pos + gap) % 4 == 0
    ensures DoReset(s, Nuls(gap) + more) == Act(s.(pos := s.pos + gap), more, true)
  {
    ZerosNuls(gap, more);
  }

  /** An entry and the NULs behind it. */
  lemma {:induction false} GapRuns(env: Env, s: State, e: Entry, end: nat, more: seq<Byte>) returns (t: State)
    requires Ready(s) && WellFormed(e) && RoomFor(env, s.world, e)
    requires end == s.pos + |Encode(e)| + e.gap && (more != [] ==> more[0] == '0' as int && end % 4 == 0)
    ensures Done(t, end, Unpacked(env, s.world, e)) && Valid(t.(phase := Start))
    ensures more != [] ==> Ready(t.(phase := Start))
    ensures Run(env, s, Encode(e) + (Nuls(e.gap) + more))
      == if more == [] then t else Run(env, t.(phase := Start), more)
  {
    var u := EntryRuns(env, s, e, Nuls(e.gap) + more);
    t := Onward(env, u, e.gap, more);
  }

  lemma {:induction false} GapEnds(pos: nat, e: Entry)
    requires WellFormed(e) && pos % 4 == 0
    ensures e.gap % 4 == 0 ==> (pos + |Encode(e)| + e.gap) % 4 == 0
  {
    EntryEnds(pos, e);
    Fours(pos + |Encode(e)|, e.gap);
  }

  lemma {:induction false} Begins(es: seq<Entry>)
    requires es != []
    ensures EncodeAll(es) != [] && EncodeAll(es)[0] == '0' as int
  {
    Letters();
    assert EncodeAll(es)[0] == Encode(es[0])[0] == HeaderBytes(es[0])[0] == MAGIC[0];
  }

  /** A well-formed archive in one piece: no trouble, and exactly the objects its entries stand for. */
  lemma {:induction false} ArchiveRuns(env: Env, s: State, es: seq<Entry>)
    requires Ready(s) && AllWellFormed(es) && es != [] && AllRoom(env, s.world, es)
    ensures Done(Run(env, s, EncodeAll(es)), s.pos + |EncodeAll(es)|, UnpackedAll(env, s.world, es))
    decreases |es|
  {
    var e, rest := es[0], es[1..];
    var more, end := EncodeAll(rest), s.pos + |Encode(e)| + e.gap;
    FirstOfAll(env, s.world, es);
    if rest != [] {
      Begins(rest);
    }
    GapEnds(s.pos, e);
    var t := GapRuns(env, s, e, end, more);
    if rest != [] {
      ArchiveRuns(env, t.(phase := Start), rest);
    }
  }

  lemma {:induction false} FirstOfAll(env: Env, w: World, es: seq<Entry>)
    requires AllWellFormed(es) && es != [] && AllRoom(env, w, es)
    ensures WellFormed(es[0]) && AllWellFormed(es[1..]) && (es[1..] != [] ==> es[0].gap % 4 == 0)
    ensures RoomFor(env, w, es[0]) && AllRoom(env, Unpacked(env, w, es[0]), es[1..])
    ensures UnpackedAll(env, w, es) == UnpackedAll(env, Unpacked(env, w, es[0]), es[1..])
    ensures EncodeAll(es) == Encode(es[0]) + (Nuls(es[0].gap) + EncodeAll(es[1..]))
  {}

  /** Streaming: a well-formed archive, cut anywhere into any number of pieces, makes exactly the objects
      its entries stand for, with their whole contents, and leaves the unpacker where one piece does. */
  lemma {:induction false} Streams(env: Env, s: State, es: seq<Entry>, pieces: seq<seq<Byte>>)
    requires Ready(s) && AllWellFormed(es) && es != [] && AllRoom(env, s.world, es)
    requires Concat(pieces) == EncodeAll(es)
    ensures Alike(FlushAll(env, s, pieces), Run(env, s, EncodeAll(es)))
    ensures Good(FlushAll(env, s, pieces)) && FlushAll(env, s, pieces).world == UnpackedAll(env, s.world, es)
  {
    ArchiveRuns(env, s, es);
    Begins(es);
    AnyPieces(env, s, pieces);
  }
}
