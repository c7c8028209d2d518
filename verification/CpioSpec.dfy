/** The cpio "newc" unpacker of `init/initramfs.c` as a function of the bytes it is fed, action by
    action. What it creates is a log; the answers of the file system are a parameter. */
module CpioSpec {

  import opened Machine

  type Byte = x: int | 0 <= x < 256

  const PATH_MAX: nat := 4096

  /** The sizes of `name_buf` and of `symlink_buf`, less the final NUL. */
  const NAME_BUF: nat := 4098
  const LINK_BUF: nat := 8194

  datatype Phase = Start | Collect | GotHeader | SkipIt | GotName | CopyFile | GotSymlink | Reset

  datatype Problem = None | IncorrectMethod | NoMagic | BrokenPadding | WriteError | BadChecksum | Junk

  /** The fields that `parse_header` sets. */
  datatype Header = Header(ino: nat, mode: nat, uid: nat, gid: nat, nlink: nat, mtime: nat, bodyLen: nat,
                           major: nat, minor: nat, rmajor: nat, rminor: nat, nameLen: nat, csum: nat)

  /** What reaches the file system. A file's content grows while its body is copied. */
  datatype Effect =
    | Clean(name: seq<Byte>, mode: nat)
    | Link(old_: seq<Byte>, name: seq<Byte>)
    | File(name: seq<Byte>, header: Header, truncate: bool, content: seq<Byte>)
    | Dir(name: seq<Byte>, header: Header)
    | Node(name: seq<Byte>, header: Header)
    | Symlink(target: seq<Byte>, name: seq<Byte>, header: Header)

  /** Whether `filp_open` and `init_link` succeed, and how many bytes there is room for in the file that is made next,
      given what has been done before; and what memory holds behind a chunk of input and behind `name_buf`. */
  datatype Env = Env(opens: (seq<Effect>, seq<Byte>) -> bool, links: (seq<Effect>, seq<Byte>, seq<Byte>) -> bool,
                     room: seq<Effect> -> nat, past: seq<Byte>, heap: seq<Byte>)

  datatype LinkKey = LinkKey(major: nat, minor: nat, ino: nat, kind: nat)

  /** What has been made so far, and the table of `find_link`. */
  datatype World = World(links: map<LinkKey, seq<Byte>>, log: seq<Effect>)

  /** The static variables. `pos` is `this_header`; `buf` what was read to where `collected` points,
      which for a name is the chunk itself if `inPlace`, else `name_buf`; `left` what is left of
      `body_len` while a body is copied. `skipped` records that `do_header` has passed over an entry,
      `stray` that a name was used that has no NUL. */
  datatype State = State(phase: Phase, next: Phase, pos: nat, nextHeader: nat, hdr: Header, csumPresent: bool,
                         ioCsum: nat, left: nat, buf: seq<Byte>, inPlace: bool, nameBuf: seq<Byte>, remains: nat,
                         world: World, message: Problem, skipped: bool, stray: bool)

  /** What an action leaves: the new state, the input not eaten, whether it returns 1. */
  datatype Act = Act(s: State, rest: seq<Byte>, stop: bool)

  // ---------------------------------------------------------------- headers

  /** `N_ALIGN`, in 32 bits. */
  function NAlign(len: nat): nat {
    ((len + 1) / 4 * 4 + 2) % WORD
  }

  function HexDigit(b: Byte): int {
    if '0' as int <= b <= '9' as int then b - '0' as int
    else if 'a' as int <= b <= 'f' as int then b - 'a' as int + 10
    else if 'A' as int <= b <= 'F' as int then b - 'A' as int + 10
    else -1
  }

  /** The hexadecimal digits at the head of `s`. */
  function Hex(s: seq<Byte>, acc: nat): nat {
    if s == [] || HexDigit(s[0]) < 0 then acc else Hex(s[1..], acc * 16 + HexDigit(s[0]))
  }

  /** `simple_strtoul` in base 16, which passes over a prefix `0x`. */
  function Field(f: seq<Byte>): nat
    requires |f| == 8
  {
    if f[0] == '0' as int && f[1] in {'x' as int, 'X' as int} then Hex(f[2..], 0) else Hex(f, 0)
  }

  /** The loop of `parse_header`: eight digits a field. */
  function Fields(s: seq<Byte>): (f: seq<nat>)
    ensures |f| == |s| / 8
  {
    if |s| < 8 then [] else [Field(s[..8])] + Fields(s[8..])
  }

  function ParseHeader(h: seq<Byte>): Header
    requires |h| == 110
  {
    var p := Fields(h[6..]);
    Header(p[0], p[1] % 0x1_0000, p[2], p[3], p[4], p[5], p[6], p[7], p[8], p[9], p[10], p[11], p[12])
  }

  function Kind(mode: nat): nat {
    mode / 0x1000 % 16
  }

  predicate IsLink(mode: nat) {
    Kind(mode) == 10
  }

  predicate IsRegular(mode: nat) {
    Kind(mode) == 8
  }

  /** The entries that `do_header` does not pass over. */
  predicate Accepted(h: Header) {
    0 < h.nameLen <= PATH_MAX
    && if IsLink(h.mode) then h.bodyLen <= PATH_MAX else IsRegular(h.mode) || h.bodyLen == 0
  }

  const MAGIC := ['0' as int, '7' as int, '0' as int, '7' as int, '0' as int]

  /** The bytes before the first NUL. */
  function CString(s: seq<Byte>): seq<Byte> {
    if s == [] || s[0] == 0 then [] else [s[0]] + CString(s[1..])
  }

  const TRAILER: seq<Byte> :=
    ['T' as int, 'R' as int, 'A' as int, 'I' as int, 'L' as int, 'E' as int, 'R' as int, '!' as int, '!' as int,
        '!' as int]

  // ---------------------------------------------------------------- the actions

  function Complain(s: State, p: Problem): State {
    if s.message == None then s.(message := p) else s
  }

  function Eat(s: State, n: nat): State {
    s.(pos := s.pos + n)
  }

  /** `read_into`. */
  function ReadInto(s: State, input: seq<Byte>, size: nat, next: Phase): Act {
    if |input| >= size then
      Act(Eat(s, size).(buf := input[..size], inPlace := next == GotName, phase := next), input[size..], false)
    else Act(s.(buf := [], remains := size, next := next, phase := Collect), input, false)
  }

  function DoStart(s: State, input: seq<Byte>): Act {
    ReadInto(s, input, 110, GotHeader)
  }

  /** `mem` with `bytes` copied to offset `at`. */
  function Overwrite(mem: seq<Byte>, at: nat, bytes: seq<Byte>): seq<Byte> {
    if at + |bytes| <= |mem| then mem[..at] + bytes + mem[at + |bytes|..] else mem
  }

  /** `bytes` copied to where `collect` points. */
  function Collected(s: State, bytes: seq<Byte>): State
    requires |bytes| <= s.remains
  {
    var mem := if s.next == GotName then Overwrite(s.nameBuf, |s.buf|, bytes) else s.nameBuf;
    Eat(s, |bytes|).(buf := s.buf + bytes, nameBuf := mem, remains := s.remains - |bytes|)
  }

  function DoCollect(s: State, input: seq<Byte>): Act {
    if |input| < s.remains then Act(Collected(s, input), [], true)
    else Act(Collected(s, input[..s.remains]).(phase := s.next), input[s.remains..], false)
  }

  function NextHeader(pos: nat, h: Header): nat {
    (pos + NAlign(h.nameLen) + h.bodyLen + 3) / 4 * 4
  }

  /** `do_header` once the header has been parsed. */
  function Admit(s: State, h: Header, csum: bool, input: seq<Byte>): Act {
    var s1 := s.(csumPresent := csum, hdr := h, nextHeader := NextHeader(s.pos, h));
    if !Accepted(h) then Act(s1.(phase := SkipIt, skipped := true), input, false)
    else if IsLink(h.mode) then Act(CollectLink(s1), input, false)
    else ReadInto(s1, input, NAlign(h.nameLen), GotName)
  }

  function CollectLink(s: State): State {
    s.(buf := [], remains := NAlign(s.hdr.nameLen) + s.hdr.bodyLen, next := GotSymlink, phase := Collect)
  }

  /** The complaint about a header that is not one. */
  function Complaint(buf: seq<Byte>): Problem {
    if |buf| == 110 && buf[..5] == MAGIC && buf[5] == '7' as int then IncorrectMethod else NoMagic
  }

  predicate Magic(buf: seq<Byte>) {
    |buf| == 110 && buf[..5] == MAGIC && buf[5] in {'1' as int, '2' as int}
  }

  function DoHeader(s: State, input: seq<Byte>): Act {
    if !Magic(s.buf) then Act(Complain(s, Complaint(s.buf)), input, true)
    else Admit(s, ParseHeader(s.buf), s.buf[5] == '2' as int, input)
  }

  function DoSkip(s: State, input: seq<Byte>): Act {
    if s.pos + |input| < s.nextHeader then Act(Eat(s, |input|), [], true)
    else
      var n := if s.pos <= s.nextHeader then s.nextHeader - s.pos else 0;
      Act(Eat(s, n).(phase := s.next), input[n..], false)
  }

  function Zeros(input: seq<Byte>): (n: nat)
    ensures n <= |input|
  {
    if input == [] || input[0] != 0 then 0 else 1 + Zeros(input[1..])
  }

  function DoReset(s: State, input: seq<Byte>): Act {
    var n := Zeros(input);
    var s1 := Eat(s, n);
    Act(if n < |input| && s1.pos % 4 != 0 then Complain(s1, BrokenPadding) else s1, input[n..], true)
  }

  function Note(w: World, e: Effect): World {
    w.(log := w.log + [e])
  }

  function KeyOf(h: Header): LinkKey {
    LinkKey(h.major, h.minor, h.ino, Kind(h.mode))
  }

  /** The result of `maybe_link`: -1, 0 or 1, */
  function LinkResult(env: Env, w: World, h: Header, name: seq<Byte>): int {
    if h.nlink < 2 || KeyOf(h) !in w.links then 0
    else if env.links(w.log + [Clean(name, 0)], w.links[KeyOf(h)], name) then 1 else -1
  }

  /** and what it does. */
  function MaybeLink(env: Env, w: World, h: Header, name: seq<Byte>): World {
    if h.nlink < 2 then w
    else if KeyOf(h) !in w.links then w.(links := w.links[KeyOf(h) := name])
    else
      var w1 := Note(w, Clean(name, 0));
      if LinkResult(env, w, h, name) == 1 then Note(w1, Link(w.links[KeyOf(h)], name)) else w1
  }

  /** `do_name` gets to open the file. */
  predicate Opens(env: Env, w: World, h: Header, name: seq<Byte>) {
    IsRegular(h.mode) && LinkResult(env, w, h, name) >= 0 && env.opens(MaybeLink(env, w, h, name).log, name)
  }

  /** What `do_name` makes, after `clean_path`. */
  function Made(env: Env, w: World, h: Header, name: seq<Byte>): World {
    if IsRegular(h.mode) then
      if Opens(env, w, h, name) then
        Note(MaybeLink(env, w, h, name), File(name, h, LinkResult(env, w, h, name) != 1, []))
      else MaybeLink(env, w, h, name)
    else if Kind(h.mode) == 4 then Note(w, Dir(name, h))
    else if Kind(h.mode) in {6, 2, 1, 12} then
      if LinkResult(env, w, h, name) == 0 then Note(MaybeLink(env, w, h, name), Node(name, h))
      else MaybeLink(env, w, h, name)
    else w
  }

  /** What lies behind a name in memory: the rest of the chunk, or what `name_buf` held before. */
  function Behind(env: Env, s: State, input: seq<Byte>): seq<Byte> {
    if s.inPlace then input + env.past else (if |s.buf| <= |s.nameBuf| then s.nameBuf[|s.buf|..] else []) + env.heap
  }

  /** The name as `strcmp` and `filp_open` read it: up to the first NUL, wherever that is. */
  function NameAt(env: Env, s: State, input: seq<Byte>): seq<Byte> {
    CString(s.buf + Behind(env, s, input))
  }

  /** What `do_name` makes, */
  function NamedWorld(env: Env, w: World, h: Header, name: seq<Byte>): World {
    if name == TRAILER then w.(links := map[]) else Made(env, Note(w, Clean(name, h.mode)), h, name)
  }

  /** and whether it leaves a file open. */
  predicate NamedOpens(env: Env, w: World, h: Header, name: seq<Byte>) {
    name != TRAILER && Opens(env, Note(w, Clean(name, h.mode)), h, name)
  }

  /** `do_name`, the name being known. */
  function Named(env: Env, s: State, name: seq<Byte>): State {
    var s0 := s.(phase := SkipIt, next := Reset, inPlace := false, stray := s.stray || 0 !in s.buf,
                 world := NamedWorld(env, s.world, s.hdr, name));
    if NamedOpens(env, s.world, s.hdr, name) then s0.(phase := CopyFile, ioCsum := 0, left := s.hdr.bodyLen) else s0
  }

  function DoName(env: Env, s: State, input: seq<Byte>): State {
    Named(env, s, NameAt(env, s, input))
  }

  function Sum(bytes: seq<Byte>): nat {
    if bytes == [] then 0 else bytes[0] + Sum(bytes[1..])
  }

  /** How much the file that is being copied still takes. */
  function Room(env: Env, w: World): nat {
    if w.log == [] || !w.log[|w.log| - 1].File? then 0
    else
      var most, n := env.room(w.log[..|w.log| - 1]), |w.log[|w.log| - 1].content|;
      if n < most then most - n else 0
  }

  /** What `xwrite` gets written of `bytes` before `kernel_write` fails. */
  function Taken(env: Env, w: World, bytes: seq<Byte>): (a: seq<Byte>)
    ensures a <= bytes
  {
    if |bytes| <= Room(env, w) then bytes else bytes[..Room(env, w)]
  }

  /** What `xwrite` adds to the file that is being copied, */
  function Written(w: World, bytes: seq<Byte>): World {
    if w.log == [] || !w.log[|w.log| - 1].File? then w
    else
      var f := w.log[|w.log| - 1];
      w.(log := w.log[..|w.log| - 1] + [f.(content := f.content + bytes)])
  }

  /** and to the checksum. */
  function Summed(sum: nat, present: bool, bytes: seq<Byte>): nat {
    if present then (sum + Sum(bytes)) % WORD else sum
  }

  function Grown(s: State, bytes: seq<Byte>): State {
    s.(ioCsum := Summed(s.ioCsum, s.csumPresent, bytes), world := Written(s.world, bytes))
  }

  function Append(env: Env, s: State, bytes: seq<Byte>): State {
    var a := Taken(env, s.world, bytes);
    if |a| < |bytes| then Complain(Grown(s, a), WriteError) else Grown(s, a)
  }

  /** The end of a body. */
  function Closed(s: State): State {
    (if s.csumPresent && s.ioCsum != s.hdr.csum then Complain(s, BadChecksum) else s).(phase := SkipIt, left := 0)
  }

  /** What of the input belongs to a body with `left` bytes to come. */
  function Part(left: nat, input: seq<Byte>): seq<Byte> {
    if |input| >= left then input[..left] else input
  }

  /** `do_copy`, its part of the input having been written. */
  function Copied(s: State, left: nat, input: seq<Byte>): Act {
    if |input| >= left then Act(Closed(Eat(s, left)), input[left..], false)
    else Act(Eat(s, |input|).(left := left - |input|), [], true)
  }

  function DoCopy(env: Env, s: State, input: seq<Byte>): Act {
    Copied(Append(env, s, Part(s.left, input)), s.left, input)
  }

  function DoSymlink(s: State): State {
    var n := NAlign(s.hdr.nameLen);
    var name := CString(s.buf);
    var target := if n <= |s.buf| then CString(s.buf[n..]) else [];
    s.(world := Note(Note(s.world, Clean(name, 0)), Symlink(target, name, s.hdr)), phase := SkipIt, next := Reset)
  }

  function Action(env: Env, s: State, input: seq<Byte>): Act {
    match s.phase
    case Start => DoStart(s, input)
    case Collect => DoCollect(s, input)
    case GotHeader => DoHeader(s, input)
    case SkipIt => DoSkip(s, input)
    case GotName => Act(DoName(env, s, input), input, false)
    case CopyFile => DoCopy(env, s, input)
    case GotSymlink => Act(DoSymlink(s), input, false)
    case Reset => DoReset(s, input)
  }
}
