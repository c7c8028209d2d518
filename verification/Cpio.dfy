/** The cpio unpacker of `init/initramfs.c` itself: static variables that one action after the other
    updates, driven by `write_buffer` and `flush_buffer`. */
module Cpio {

  import opened CpioSpec
  import opened Machine
  import opened CpioStream
  import opened CpioPieces
  import CpioFormat
  import CpioMeaning

  lemma {:induction false} WrittenNone(w: World)
    requires Copying(w)
    ensures Written(w, []) == w
  {
    var f := w.log[|w.log| - 1];
    assert f.content + [] == f.content;
    assert w.log[..|w.log| - 1] + [f] == w.log;
  }

  /** `write_buffer`: actions until one of them returns 1. */
  function Write(env: Env, s: State, input: seq<Byte>): Act
    requires Valid(s)
    decreases |input|, Rank(s)
  {
    var a := Action(env, s, input);
    ActionValid(env, s, input);
    Progress(env, s, input);
    if a.stop then a else Write(env, a.s, a.rest)
  }

  lemma {:induction false} WriteFacts(env: Env, s: State, input: seq<Byte>)
    requires Valid(s)
    ensures var w := Write(env, s, input);
      Valid(w.s) && |w.rest| <= |input|
      && (w.rest != [] && w.s.message == None ==>
          w.s.phase == Reset && w.rest[0] != 0 && (|w.rest| < |input| || Rank(s) > 2))
    decreases |input|, Rank(s)
  {
    var a := Action(env, s, input);
    ActionValid(env, s, input);
    Progress(env, s, input);
    if !a.stop {
      WriteFacts(env, a.s, a.rest);
    }
  }

  /** What `flush_buffer` does with what `write_buffer` leaves. */
  lemma {:induction false} RunIsWrite(env: Env, s: State, input: seq<Byte>)
    requires Valid(s)
    ensures var w := Write(env, s, input);
      if w.rest == [] || w.s.message != None then Run(env, s, input) == w.s
      else if w.rest[0] == '0' as int then Valid(w.s.(phase := Start))
          && Run(env, s, input) == Run(env, w.s.(phase := Start), w.rest)
      else Run(env, s, input) == Complain(w.s, Junk)
    decreases |input|, Rank(s)
  {
    var a := Action(env, s, input);
    ActionValid(env, s, input);
    Progress(env, s, input);
    WriteFacts(env, s, input);
    if !a.stop {
      RunIsWrite(env, a.s, a.rest);
    }
  }

  lemma {:induction false} ResetWrite(env: Env, s: State, input: seq<Byte>)
    requires Valid(s) && s.phase == Reset && s.message != None
    ensures Write(env, s, input).s == s.(pos := Write(env, s, input).s.pos)
  {}

  lemma {:induction false} AdmitSame(s: State, t: State, input: seq<Byte>)
    requires t == s.(hdr := t.hdr, csumPresent := t.csumPresent)
    ensures CpioSpec.Admit(t, t.hdr, t.csumPresent, input) == CpioSpec.Admit(s, t.hdr, t.csumPresent, input)
  {}

  /** `do_header` from the test of the name's length on. */
  function Read(s: State, input: seq<Byte>): Act {
    if !Accepted(s.hdr) then Act(s.(skipped := true), input, false)
    else if IsLink(s.hdr.mode) then Act(CollectLink(s), input, false)
    else CpioSpec.ReadInto(s, input, NAlign(s.hdr.nameLen), GotName)
  }

  lemma {:induction false} AdmitIsRead(s: State, t: State, input: seq<Byte>)
    requires t == s.(nextHeader := NextHeader(s.pos, s.hdr), phase := SkipIt)
    ensures CpioSpec.Admit(s, s.hdr, s.csumPresent, input) == Read(t, input)
  {}

  /** Errors of the first piece are errors of the whole. */
  lemma {:induction false} FlushedWorse(env: Env, s: State, pieces: seq<seq<Byte>>)
    requires Valid(s)
    ensures Worse(s, FlushAll(env, s, pieces))
    ensures pieces != [] ==> Worse(Flush(env, s, pieces[0]), FlushAll(env, s, pieces))
    decreases |pieces|
  {
    if pieces != [] {
      RunValid(env, s, pieces[0]);
      RunWorse(env, s, pieces[0]);
      FlushedWorse(env, Flush(env, s, pieces[0]), pieces[1..]);
    }
  }

  class Unpacker {
    const env: Env
    /** How much of what it is given each call of `kernel_write` takes, as long as there is room. */
    const takes: (seq<Effect>, nat) -> nat

    var state: Phase
    var nextState: Phase
    var buf: seq<Byte>
    var victim: nat
    var byteCount: nat
    var thisHeader: nat
    var nextHeader: nat
    var collected: seq<Byte>
    var inPlace: bool
    var nameBuf: seq<Byte>
    var remains: nat
    var hdr: Header
    var bodyLen: nat
    var csumPresent: bool
    var ioCsum: nat
    var links: map<LinkKey, seq<Byte>>
    var log: seq<Effect>
    var message: Problem
    ghost var skipped: bool
    ghost var stray: bool

    ghost function View(): State
      reads this
    {
      State(state, nextState, thisHeader, nextHeader, hdr, csumPresent, ioCsum,
            if state == CopyFile then bodyLen else 0, collected, inPlace, nameBuf, remains, World(links, log), message,
            skipped, stray)
    }

    ghost function Rest(): seq<Byte>
      requires victim <= |buf|
      reads this
    {
      buf[victim..]
    }

    ghost predicate Ok()
      reads this
    {
      true == (Valid(View()) && victim + byteCount == |buf| && ioCsum < WORD
      && (state == GotName || (state == Collect && nextState != GotHeader) ==> bodyLen == hdr.bodyLen))
    }

    /** One action has turned `s` and `input` into the present state. */
    ghost predicate Did(s: State, input: seq<Byte>, stop: bool)
      reads this
    {
      true == (Ok() && Act(View(), Rest(), stop) == Action(env, s, input))
    }

    /** `write_buffer` has turned `s` and `input` into the present state. */
    ghost predicate Wrote(s: State, input: seq<Byte>, written: nat)
      requires Valid(s)
      reads this
    {
      true == (Ok() && written <= |input| && View() == Write(env, s, input).s
      && input[written..] == Write(env, s, input).rest)
    }

    constructor (env: Env, takes: (seq<Effect>, nat) -> nat, nameBuf: seq<Byte>)
      requires |nameBuf| == NAME_BUF
      ensures Ok() && Good(View()) && state == Start && thisHeader == 0 && log == [] && buf == []
      ensures this.env == env && this.takes == takes && this.nameBuf == nameBuf
    {
      this.env := env;
      this.takes := takes;
      this.nameBuf := nameBuf;
      state, nextState := Start, Start;
      buf, victim, byteCount := [], 0, 0;
      thisHeader, nextHeader := 0, 0;
      collected, inPlace, remains := [], false, 0;
      bodyLen, csumPresent, ioCsum := 0, false, 0;
      hdr := Header(0, 0, 0, 0, 0, 0, 0, 0, 0, 0, 0, 0, 0);
      links, log, message := map[], [], None;
      skipped, stray := false, false;
    }

    method Error(p: Problem)
      modifies this`message
      ensures View() == Complain(old(View()), p)
    {
      if message == None {
        message := p;
      }
    }

    method Eat(n: nat)
      requires n <= byteCount && victim + byteCount == |buf|
      modifies this`victim, this`thisHeader, this`byteCount
      ensures View() == CpioSpec.Eat(old(View()), n) && victim == old(victim) + n && byteCount == old(byteCount) - n
      ensures Rest() == old(Rest())[n..]
    {
      victim := victim + n;
      thisHeader := thisHeader + n;
      byteCount := byteCount - n;
    }

    /** `read_into` with enough input. */
    method TakeInPlace(size: nat, next: Phase)
      requires state != CopyFile && next != CopyFile && victim + byteCount == |buf| && size <= byteCount
      modifies this`victim, this`thisHeader, this`byteCount, this`collected, this`inPlace, this`state
      ensures victim + byteCount == |buf| && state == next
      ensures Act(View(), Rest(), false) == CpioSpec.ReadInto(old(View()), old(Rest()), size, next)
    {
      collected := buf[victim..victim + size];
      assert collected == Rest()[..size];
      inPlace := next == GotName;
      state := next;
      Eat(size);
    }

    method ReadInto(size: nat, next: Phase)
      requires state != CopyFile && next in {GotHeader, GotName} && victim + byteCount == |buf|
      modifies this`victim, this`thisHeader, this`byteCount, this`collected, this`inPlace, this`remains,
          this`nextState, this`state
      ensures victim + byteCount == |buf| && state in {Collect, next} && (state == Collect ==> nextState == next)
      ensures Act(View(), Rest(), false) == CpioSpec.ReadInto(old(View()), old(Rest()), size, next)
    {
      if byteCount >= size {
        TakeInPlace(size, next);
      } else {
        collected := [];
        remains := size;
        nextState := next;
        state := Collect;
      }
    }

    method DoStart() returns (stop: bool)
      requires Ok() && state == Start
      modifies this
      ensures Did(old(View()), old(Rest()), stop) && unchanged(`buf)
    {
      ActionValid(env, View(), Rest());
      ReadInto(110, GotHeader);
      stop := false;
    }

    /** The copying of `do_collect`. */
    method Gather(n: nat)
      requires n <= byteCount && n <= remains && victim + byteCount == |buf| && state == Collect
      modifies this`victim, this`thisHeader, this`byteCount, this`collected, this`nameBuf, this`remains
      ensures victim + byteCount == |buf|
      ensures View() == Collected(old(View()), old(Rest())[..n]) && Rest() == old(Rest())[n..]
    {
      var got := buf[victim..victim + n];
      assert got == Rest()[..n];
      if nextState == GotName {
        nameBuf := Overwrite(nameBuf, |collected|, got);
      }
      collected := collected + got;
      Eat(n);
      remains := remains - n;
    }

    method DoCollect() returns (stop: bool)
      requires Ok() && state == Collect
      modifies this
      ensures Did(old(View()), old(Rest()), stop) && unchanged(`buf)
    {
      CollectValid(View(), Rest());
      var n := if byteCount < remains then byteCount else remains;
      assert byteCount < remains ==> Rest()[..n] == Rest() && Rest()[n..] == [];
      Gather(n);
      stop := remains != 0;
      if !stop {
        state := nextState;
      }
    }

    /** `do_skip` when the input reaches the next header. */
    method SkipTo()
      requires victim + byteCount == |buf| && thisHeader + byteCount >= nextHeader && state == SkipIt
      requires nextState != CopyFile
      modifies this`victim, this`thisHeader, this`byteCount, this`state
      ensures victim + byteCount == |buf|
      ensures Act(View(), Rest(), false) == CpioSpec.DoSkip(old(View()), old(Rest()))
    {
      Eat(if thisHeader <= nextHeader then nextHeader - thisHeader else 0);
      state := nextState;
    }

    method DoSkip() returns (stop: bool)
      requires Ok() && state == SkipIt
      modifies this
      ensures Did(old(View()), old(Rest()), stop) && unchanged(`buf)
    {
      SkipValid(View(), Rest());
      stop := thisHeader + byteCount < nextHeader;
      if stop {
        Eat(byteCount);
      } else {
        SkipTo();
      }
    }

    method SkipZeros()
      requires victim + byteCount == |buf|
      modifies this`victim, this`thisHeader, this`byteCount
      ensures victim + byteCount == |buf|
      ensures View() == CpioSpec.Eat(old(View()), Zeros(old(Rest()))) && Rest() == old(Rest())[Zeros(old(Rest()))..]
    {
      ghost var s, i := View(), Rest();
      ghost var n: nat := 0;
      while byteCount != 0 && buf[victim] == 0
        invariant victim + byteCount == |buf| && n <= |i| && Rest() == i[n..]
        invariant View() == CpioSpec.Eat(s, n) && Zeros(i) == n + Zeros(i[n..])
        decreases byteCount
      {
        assert i[n..][1..] == i[n + 1..];
        Eat(1);
        n := n + 1;
      }
    }

    method DoReset() returns (stop: bool)
      requires Ok() && state == Reset
      modifies this
      ensures Did(old(View()), old(Rest()), stop) && unchanged(`buf)
    {
      ActionValid(env, View(), Rest());
      SkipZeros();
      if byteCount != 0 && thisHeader % 4 != 0 {
        Error(BrokenPadding);
      }
      stop := true;
    }

    /** The loop of `parse_header`. */
    static method ParseFields(all: seq<Byte>) returns (parsed: seq<nat>)
      requires |all| == 104
      ensures parsed == Fields(all) && |parsed| == 13
    {
      parsed := [];
      var s := all;
      assert parsed + Fields(s) == Fields(all);
      for i := 0 to 13
        invariant |parsed| == i && |s| == 104 - 8 * i && parsed + Fields(s) == Fields(all)
      {
        assert parsed + Fields(s) == (parsed + [Field(s[..8])]) + Fields(s[8..]);
        parsed := parsed + [Field(s[..8])];
        s := s[8..];
      }
      assert parsed == Fields(all);
    }

    method ParseHeader()
      requires |collected| == 110
      modifies this`hdr, this`bodyLen
      ensures hdr == CpioSpec.ParseHeader(collected) && bodyLen == hdr.bodyLen
    {
      var parsed := ParseFields(collected[6..]);
      hdr := Header(parsed[0], parsed[1] % 0x1_0000, parsed[2], parsed[3], parsed[4], parsed[5], parsed[6],
                    parsed[7], parsed[8], parsed[9], parsed[10], parsed[11], parsed[12]);
      bodyLen := parsed[6];
    }

    /** Asks for a link's name and its target. */
    method CollectLink()
      requires state == SkipIt
      modifies this`collected, this`remains, this`nextState, this`state
      ensures View() == old(View()).(phase := Collect, next := GotSymlink, buf := [],
                                     remains := NAlign(hdr.nameLen) + bodyLen)
    {
      collected := [];
      remains := NAlign(hdr.nameLen) + bodyLen;
      nextState := GotSymlink;
      state := Collect;
    }

    /** `do_header` with a header whose name is neither empty nor too long. */
    method ReadOn()
      requires victim + byteCount == |buf| && state == SkipIt && bodyLen == hdr.bodyLen && 0 < hdr.nameLen <= PATH_MAX
      modifies this`victim, this`thisHeader, this`byteCount, this`collected, this`inPlace, this`remains
      modifies this`nextState, this`state, this`skipped
      ensures victim + byteCount == |buf| && (state == Collect ==> nextState != GotHeader)
      ensures Act(View(), Rest(), false) == Read(old(View()), old(Rest()))
    {
      if IsLink(hdr.mode) {
        if bodyLen > PATH_MAX {
          skipped := true;
        } else {
          CollectLink();
        }
        return;
      }
      if IsRegular(hdr.mode) || bodyLen == 0 {
        ReadInto(NAlign(hdr.nameLen), GotName);
      } else {
        skipped := true;
      }
    }

    method SetNext()
      requires bodyLen == hdr.bodyLen && state == GotHeader
      modifies this`nextHeader, this`state
      ensures state == SkipIt
      ensures View() == old(View()).(nextHeader := NextHeader(thisHeader, hdr), phase := SkipIt)
    {
      nextHeader := (thisHeader + NAlign(hdr.nameLen) + bodyLen + 3) / 4 * 4;
      state := SkipIt;
    }

    /** `do_header` once the header has been parsed. */
    method Admit()
      requires victim + byteCount == |buf| && state == GotHeader && bodyLen == hdr.bodyLen
      modifies this`victim, this`thisHeader, this`byteCount, this`collected, this`inPlace, this`remains
      modifies this`nextState, this`state, this`skipped, this`nextHeader
      ensures victim + byteCount == |buf| && (state == Collect ==> nextState != GotHeader)
      ensures Act(View(), Rest(), false) == CpioSpec.Admit(old(View()), hdr, csumPresent, old(Rest()))
    {
      SetNext();
      ghost var s := View();
      if hdr.nameLen <= 0 || hdr.nameLen > PATH_MAX {
        skipped := true;
      } else {
        ReadOn();
      }
      AdmitIsRead(old(View()), s, old(Rest()));
    }

    /** The first six bytes of a header. */
    method Recognise() returns (ok: bool)
      requires |collected| == 110
      modifies this`csumPresent, this`message
      ensures ok == Magic(collected)
      ensures ok ==> View() == old(View()).(csumPresent := collected[5] == '2' as int)
      ensures !ok ==> View() == Complain(old(View()), Complaint(collected))
    {
      ok := true;
      if collected[..5] == MAGIC && collected[5] == '1' as int {
        csumPresent := false;
      } else if collected[..5] == MAGIC && collected[5] == '2' as int {
        csumPresent := true;
      } else {
        ok := false;
        if collected[..5] == MAGIC && collected[5] == '7' as int {
          Error(IncorrectMethod);
        } else {
          Error(NoMagic);
        }
      }
    }

    /** `do_header` for a header that is one. */
    method TakeHeader()
      requires victim + byteCount == |buf| && state == GotHeader && Magic(collected)
      modifies this`hdr, this`bodyLen, this`victim, this`thisHeader, this`byteCount, this`collected, this`inPlace
      modifies this`remains, this`nextState, this`state, this`skipped, this`nextHeader
      ensures victim + byteCount == |buf| && (state == Collect ==> nextState != GotHeader) && bodyLen == hdr.bodyLen
      ensures Act(View(), Rest(), false)
        == CpioSpec.Admit(old(View()), CpioSpec.ParseHeader(old(collected)), csumPresent, old(Rest()))
    {
      ParseHeader();
      ghost var s := View();
      Admit();
      AdmitSame(old(View()), s, old(Rest()));
    }

    method DoHeader() returns (stop: bool)
      requires Ok() && state == GotHeader
      modifies this
      ensures Did(old(View()), old(Rest()), stop) && unchanged(`buf)
    {
      HeaderValid(View(), Rest());
      ghost var s := View();
      var ok := Recognise();
      stop := !ok;
      if ok {
        ghost var t := View();
        TakeHeader();
        AdmitSame(s, t.(hdr := CpioSpec.ParseHeader(s.buf)), old(Rest()));
        AdmitSame(t, t.(hdr := CpioSpec.ParseHeader(s.buf)), old(Rest()));
      }
    }

    ghost function Made(): World
      reads this
    {
      World(links, log)
    }

    /** `maybe_link`, with the table of `find_link` as a map. */
    method MaybeLink(name: seq<Byte>) returns (r: int)
      modifies this`links, this`log
      ensures Made() == CpioSpec.MaybeLink(env, old(Made()), hdr, name) && r == LinkResult(env, old(Made()), hdr, name)
    {
      r := 0;
      if hdr.nlink >= 2 {
        var k := LinkKey(hdr.major, hdr.minor, hdr.ino, Kind(hdr.mode));
        if k in links {
          log := log + [Clean(name, 0)];
          if env.links(log, links[k], name) {
            log := log + [Link(links[k], name)];
            r := 1;
          } else {
            r := -1;
          }
        } else {
          links := links[k := name];
        }
      }
    }

    /** What `do_name` makes after `clean_path`; it returns whether a file was opened. */
    method Make(name: seq<Byte>) returns (isOpen: bool)
      modifies this`links, this`log
      ensures Made() == CpioSpec.Made(env, old(Made()), hdr, name) && isOpen == Opens(env, old(Made()), hdr, name)
    {
      isOpen := false;
      if IsRegular(hdr.mode) {
        var ml := MaybeLink(name);
        if ml >= 0 && env.opens(log, name) {
          log := log + [File(name, hdr, ml != 1, [])];
          isOpen := true;
        }
      } else if Kind(hdr.mode) == 4 {
        log := log + [Dir(name, hdr)];
      } else if Kind(hdr.mode) in {6, 2, 1, 12} {
        var ml := MaybeLink(name);
        if ml == 0 {
          log := log + [Node(name, hdr)];
        }
      }
    }

    /** The string that `collected` points to. */
    ghost function Name(): seq<Byte>
      requires victim <= |buf|
      reads this
    {
      NameAt(env, View(), Rest())
    }

    method ReadName() returns (name: seq<Byte>)
      requires victim <= |buf|
      ensures name == Name()
    {
      if inPlace {
        name := CString(collected + (buf[victim..] + env.past));
      } else {
        var behind := if |collected| <= |nameBuf| then nameBuf[|collected|..] else [];
        name := CString(collected + (behind + env.heap));
      }
    }

    /** What `do_name` makes; it returns whether a file was opened. */
    method MakeNamed(name: seq<Byte>) returns (isOpen: bool)
      modifies this`links, this`log
      ensures Made() == NamedWorld(env, old(Made()), hdr, name) && isOpen == NamedOpens(env, old(Made()), hdr, name)
    {
      if name == TRAILER {
        links := map[];
        return false;
      }
      log := log + [Clean(name, hdr.mode)];
      isOpen := Make(name);
    }

    /** The first statements of `do_name`. */
    method LeaveName()
      requires state == GotName
      modifies this`state, this`nextState, this`inPlace, this`stray
      ensures state == SkipIt
      ensures View() == old(View()).(phase := SkipIt, next := Reset, inPlace := false, stray := old(stray)
          || 0 !in collected)
    {
      state := SkipIt;
      nextState := Reset;
      inPlace := false;
      stray := stray || 0 !in collected;
    }

    /** `do_name`, the name being known. */
    method UseName(name: seq<Byte>)
      requires state == GotName && bodyLen == hdr.bodyLen && ioCsum < WORD
      modifies this`state, this`nextState, this`inPlace, this`stray, this`links, this`log, this`ioCsum
      ensures View() == Named(env, old(View()), name) && ioCsum < WORD
    {
      LeaveName();
      var isOpen := MakeNamed(name);
      if isOpen {
        ioCsum := 0;
        state := CopyFile;
      }
    }

    method DoName() returns (stop: bool)
      requires Ok() && state == GotName
      modifies this
      ensures Did(old(View()), old(Rest()), stop) && unchanged(`buf)
    {
      NameValid(env, View(), Rest());
      NameFacts(env, View(), Rest());
      var name := ReadName();
      UseName(name);
      stop := false;
    }

    /** The sum of `xwrite` over what one call of `kernel_write` took. */
    method AddUp(p: seq<Byte>)
      requires ioCsum < WORD
      modifies this`ioCsum
      ensures ioCsum == (old(ioCsum) + Sum(p)) % WORD
    {
      var i := 0;
      assert p[..0] == [];
      while i < |p|
        invariant 0 <= i <= |p| && ioCsum == (old(ioCsum) + Sum(p[..i])) % WORD
      {
        assert p[..i + 1] == p[..i] + [p[i]];
        SumAdds(p[..i], [p[i]]);
        ModAdd(old(ioCsum), Sum(p[..i]), p[i]);
        ioCsum := (ioCsum + p[i]) % WORD;
        i := i + 1;
      }
      assert p[..|p|] == p;
    }

    /** One round of `xwrite`. */
    method WriteSome(p: seq<Byte>)
      requires ioCsum < WORD && Copying(Made())
      modifies this`ioCsum, this`log
      ensures Made() == Written(old(Made()), p) && ioCsum == Summed(old(ioCsum), csumPresent, p) && ioCsum < WORD
    {
      var f := log[|log| - 1];
      log := log[..|log| - 1] + [f.(content := f.content + p)];
      if csumPresent {
        AddUp(p);
      }
    }

    /** `xwrite` has written `p[..out]`. */
    ghost predicate Out(w: World, sum: nat, p: seq<Byte>, out: nat)
      reads this
    {
      true == (ioCsum < WORD && out <= |p| && out <= Room(env, w) && Copying(w) && Copying(Made())
      && Made() == Written(w, p[..out]) && ioCsum == Summed(sum, csumPresent, p[..out])
      && Room(env, Made()) == Room(env, w) - out)
    }

    /** One more part written. */
    method WritePart(p: seq<Byte>, out: nat, rv: nat, ghost w: World, ghost sum: nat)
      requires Out(w, sum, p, out) && out + rv <= |p| && rv <= Room(env, Made())
      modifies this`ioCsum, this`log
      ensures Out(w, sum, p, out + rv)
    {
      ghost var done, part := p[..out], p[out..out + rv];
      assert done + part == p[..out + rv];
      WrittenTwice(w, done, part);
      SummedTwice(sum, csumPresent, done, part);
      RoomLess(env, w, p[..out + rv]);
      WrittenFacts(Made(), part);
      WriteSome(p[out..out + rv]);
    }

    /** `xwrite`: it stops where `kernel_write` fails or takes nothing, and returns how much was written. */
    method XWrite(p: seq<Byte>) returns (out: nat)
      requires ioCsum < WORD && Copying(Made())
      modifies this`ioCsum, this`log
      ensures var a := Taken(env, old(Made()), p);
        Made() == Written(old(Made()), a) && ioCsum == Summed(old(ioCsum), csumPresent, a) && out == |a|
      ensures ioCsum < WORD
    {
      out := 0;
      ghost var w, sum := Made(), ioCsum;
      WrittenNone(w);
      assert p[..0] == [];
      while out < |p|
        invariant Out(w, sum, p, out)
      {
        var room := Room(env, World(links, log));
        if room == 0 {
          break;
        }
        var most := if room < |p| - out then room else |p| - out;
        var rv := 1 + takes(log, |p| - out) % most;
        WritePart(p, out, rv, w, sum);
        out := out + rv;
      }
      assert p[..out] == Taken(env, w, p);
    }

    /** `xwrite`, and the complaint if it did not write everything. */
    method WriteOut(p: seq<Byte>)
      requires ioCsum < WORD && Copying(Made())
      modifies this`ioCsum, this`log, this`message
      ensures View() == Append(env, old(View()), p) && ioCsum < WORD
    {
      var out := XWrite(p);
      if out != |p| {
        Error(WriteError);
      }
    }

    /** The end of a file whose body has been written. */
    method CloseFile()
      requires state == CopyFile
      modifies this`message, this`state
      ensures View() == (if csumPresent && ioCsum != hdr.csum then Complain(old(View()), BadChecksum) else old(View()))
                        .(phase := SkipIt, left := 0)
    {
      if csumPresent && ioCsum != hdr.csum {
        Error(BadChecksum);
      }
      state := SkipIt;
    }

    /** `do_copy` when the input holds the rest of the body. */
    method FinishCopy()
      requires state == CopyFile && bodyLen <= byteCount && victim + byteCount == |buf| && ioCsum < WORD
      requires Copying(Made())
      modifies this`ioCsum, this`log, this`message, this`state, this`victim, this`thisHeader, this`byteCount
      ensures victim + byteCount == |buf| && ioCsum < WORD
      ensures Act(View(), Rest(), false) == CpioSpec.DoCopy(env, old(View()), old(Rest()))
    {
      ghost var s, bytes := View(), Rest()[..bodyLen];
      assert buf[victim..victim + bodyLen] == bytes;
      WriteOut(buf[victim..victim + bodyLen]);
      assert View() == Append(env, s, bytes);
      Eat(bodyLen);
      CloseFile();
    }

    /** Takes all of the input; the body has that much less to come. */
    method Leave()
      requires state == CopyFile && bodyLen > byteCount && victim + byteCount == |buf|
      modifies this`bodyLen, this`victim, this`thisHeader, this`byteCount
      ensures victim + byteCount == |buf| && Rest() == []
      ensures View() == CpioSpec.Eat(old(View()), old(byteCount)).(left := old(bodyLen) - old(byteCount))
    {
      bodyLen := bodyLen - byteCount;
      Eat(byteCount);
    }

    /** `do_copy` when it does not. */
    method CopyOn()
      requires state == CopyFile && bodyLen > byteCount && victim + byteCount == |buf| && ioCsum < WORD
      requires Copying(Made())
      modifies this`ioCsum, this`log, this`message, this`bodyLen, this`victim, this`thisHeader, this`byteCount
      ensures victim + byteCount == |buf| && ioCsum < WORD
      ensures Act(View(), Rest(), true) == CpioSpec.DoCopy(env, old(View()), old(Rest()))
    {
      WriteOut(buf[victim..]);
      Leave();
    }

    method DoCopy() returns (stop: bool)
      requires Ok() && state == CopyFile
      modifies this
      ensures Did(old(View()), old(Rest()), stop) && unchanged(`buf)
    {
      CopyValid(env, View(), Rest());
      stop := byteCount < bodyLen;
      if stop {
        CopyOn();
      } else {
        FinishCopy();
      }
    }

    method DoSymlink() returns (stop: bool)
      requires Ok() && state == GotSymlink
      modifies this
      ensures Did(old(View()), old(Rest()), stop) && unchanged(`buf)
    {
      var n := NAlign(hdr.nameLen);
      var name := CString(collected);
      var target := if n <= |collected| then CString(collected[n..]) else [];
      log := log + [Clean(name, 0)] + [Symlink(target, name, hdr)];
      state := SkipIt;
      nextState := Reset;
      stop := false;
    }

    /** `actions[state]()`. */
    method TakeAction() returns (stop: bool)
      requires Ok()
      modifies this
      ensures Did(old(View()), old(Rest()), stop) && unchanged(`buf)
    {
      match state {
        case Start => stop := DoStart();
        case Collect => stop := DoCollect();
        case GotHeader => stop := DoHeader();
        case SkipIt => stop := DoSkip();
        case GotName => stop := DoName();
        case CopyFile => stop := DoCopy();
        case GotSymlink => stop := DoSymlink();
        case Reset => stop := DoReset();
      }
    }

    /** The actions so far have turned `s` and `input` into `a`. */
    ghost predicate Writing(s: State, input: seq<Byte>, a: Act)
      reads this
    {
      true == (Valid(s) && Ok() && buf == input && a == Act(View(), Rest(), a.stop)
      && Write(env, s, input) == if a.stop then a else Write(env, a.s, a.rest))
    }

    method WriteStep(ghost s: State, ghost input: seq<Byte>, ghost a: Act) returns (stop: bool, ghost a': Act)
      requires Writing(s, input, a) && !a.stop
      modifies this
      ensures Writing(s, input, a') && a'.stop == stop
      ensures !stop ==> |a'.rest| < |a.rest| || (|a'.rest| == |a.rest| && Rank(a'.s) < Rank(a.s))
    {
      Progress(env, View(), Rest());
      stop := TakeAction();
      a' := Act(View(), Rest(), stop);
    }

    /** Runs actions until one of them returns 1; ends for every input. */
    method WriteBuffer(input: seq<Byte>) returns (written: nat)
      requires Ok()
      modifies this
      ensures Wrote(old(View()), input, written)
    {
      buf, victim, byteCount := input, 0, |input|;
      assert Rest() == input;
      var stop := false;
      ghost var s, a := View(), Act(View(), Rest(), false);
      while !stop
        invariant Writing(s, input, a) && a.stop == stop
        decreases !stop, |a.rest|, Rank(a.s)
      {
        stop, a := WriteStep(s, input, a);
      }
      written := |input| - byteCount;
    }

    /** The loop of `flush_buffer` has come to the input `rest`, from `s` on, or to junk. */
    ghost predicate Flushing(s: State, rest: seq<Byte>, written: nat, goal: State, junk: bool)
      requires Valid(s)
      reads this
    {
      true == (Ok() && (!junk ==> Wrote(s, rest, written) && Run(env, s, rest) == goal)
      && (junk ==> message == Junk && View() == goal.(pos := thisHeader)))
    }

    /** A turn of the loop of `flush_buffer`. A byte that `write_buffer` leaves is never NUL (`WriteFacts`),
        so the branch for NUL is not needed. After junk the piece is handed over once more, which moves
        `this_header`. */
    method FlushMore(rest: seq<Byte>, written: nat, ghost s: State, ghost goal: State)
      returns (rest': seq<Byte>, written': nat, ghost s': State, ghost junk: bool)
      requires Valid(s) && Flushing(s, rest, written, goal, false) && written < |rest| && message == None
      modifies this
      ensures Valid(s') && Flushing(s', rest', written', goal, junk)
      ensures !junk ==> |rest'| < |rest| || (|rest'| == |rest| && Rank(s') < Rank(s))
    {
      RunIsWrite(env, s, rest);
      WriteFacts(env, s, rest);
      s', junk := s, false;
      if rest[written] == '0' as int {
        rest' := rest[written..];
        state := Start;
        s' := View();
      } else {
        rest' := rest;
        Error(Junk);
        ResetWrite(env, View(), rest);
        junk := true;
      }
      written' := WriteBuffer(rest');
    }

    /** `flush_buffer`. */
    method FlushBuffer(input: seq<Byte>) returns (r: int)
      requires Ok()
      modifies this
      ensures Ok() && View() == Flush(env, old(View()), input).(pos := thisHeader)
      ensures message != Junk ==> thisHeader == Flush(env, old(View()), input).pos
      ensures r == if old(message) != None then -1 else |input|
    {
      if message != None {
        return -1;
      }
      var rest := input;
      ghost var s, goal, junk := View(), Run(env, View(), input), false;
      var written: nat := WriteBuffer(rest);
      while written < |rest| && message == None
        invariant Valid(s) && Flushing(s, rest, written, goal, junk)
        decreases !junk, |rest|, Rank(s)
      {
        rest, written, s, junk := FlushMore(rest, written, s, goal);
      }
      if !junk {
        RunIsWrite(env, s, rest);
      }
      r := |input|;
    }

    /** A decompressor hands over a well-formed archive piece by piece, after archives with the entries of `before`:
        what its entries stand for ends up in the file system. */
    method Unpack(pieces: seq<seq<Byte>>, ghost before: seq<CpioFormat.Entry>, ghost es: seq<CpioFormat.Entry>)
      requires Ok() && Good(View()) && state == Start && thisHeader % 4 == 0
      requires es != [] && CpioFormat.AllWellFormed(es) && Concat(pieces) == CpioFormat.EncodeAll(es)
      requires CpioMeaning.Table(links, before + es, |before|) && CpioFormat.Roomy(env, log, before + es, |before|)
      modifies this
      ensures Ok() && Good(View()) && CpioMeaning.Table(links, before + es, |before + es|)
      ensures log == CpioFormat.Objects(env, old(log), before + es, |before|)
    {
      ghost var goal := FlushAll(env, View(), pieces);
      CpioMeaning.ArchiveMeans(env, View(), before, es, pieces);
      var i := 0;
      while i < |pieces|
        invariant 0 <= i <= |pieces| && Ok() && FlushAll(env, View(), pieces[i..]) == goal
      {
        FlushedWorse(env, View(), pieces[i..]);
        var _ := FlushBuffer(pieces[i]);
        assert pieces[i..][1..] == pieces[i + 1..];
        i := i + 1;
      }
    }
  }
}
