/** Archives in the "newc" format, as bytes, and what the entries of one stand for. Of the unpacker this takes the types
    of `CpioSpec` and none of its functions. */
module CpioFormat {

  import opened Machine
  import opened CpioSpec

  /** An entry; with `crc` it has the magic number that announces a checksum. `gap` NULs follow it, as they do where an
      archive is filled up to a block. */
  datatype Entry = Entry(crc: bool, header: Header, name: seq<Byte>, body: seq<Byte>, gap: nat)

  // ---------------------------------------------------------------- bytes

  function Ascii(s: string): (t: seq<Byte>)
    requires forall i :: 0 <= i < |s| ==> s[i] < 128 as char
    ensures |t| == |s|
  {
    seq(|s|, i requires 0 <= i < |s| => s[i] as int)
  }

  function HexByte(x: nat): Byte
    requires x < 16
  {
    if x < 10 then '0' as int + x else 'a' as int + x - 10
  }

  /** The lowest `k` hexadecimal digits of `n`. */
  function HexText(n: nat, k: nat): (t: seq<Byte>)
    ensures |t| == k
  {
    if k == 0 then [] else HexText(n / 16, k - 1) + [HexByte(n % 16)]
  }

  function FieldList(h: Header): (f: seq<nat>)
    ensures |f| == 13
  {
    [h.ino, h.mode, h.uid, h.gid, h.nlink, h.mtime, h.bodyLen, h.major, h.minor, h.rmajor, h.rminor, h.nameLen, h.csum]
  }

  function FieldText(f: seq<nat>): (t: seq<Byte>)
    ensures |t| == 8 * |f|
  {
    if f == [] then [] else HexText(f[0], 8) + FieldText(f[1..])
  }

  function HeaderBytes(e: Entry): (t: seq<Byte>)
    ensures |t| == 110
  {
    Ascii("07070") + [if e.crc then '2' as int else '1' as int] + FieldText(FieldList(e.header))
  }

  function Nuls(k: int): (t: seq<Byte>)
    ensures |t| == if k > 0 then k else 0
  {
    if k <= 0 then [] else seq(k, i => 0)
  }

  /** The fill behind `n` bytes. */
  function Fill(n: nat): (k: nat)
    ensures k < 4 && (n + k) % 4 == 0
  {
    (n + 3) / 4 * 4 - n
  }

  /** The name with its NUL, filled up so that header and name end at a multiple of four. */
  function NameBytes(e: Entry): seq<Byte> {
    e.name + Nuls(1 + Fill(110 + |e.name| + 1))
  }

  function Encode(e: Entry): seq<Byte> {
    HeaderBytes(e) + (NameBytes(e) + (e.body + Nuls(Fill(|e.body|))))
  }

  function EncodeAll(es: seq<Entry>): seq<Byte> {
    if es == [] then [] else Encode(es[0]) + (Nuls(es[0].gap) + EncodeAll(es[1..]))
  }

  // ---------------------------------------------------------------- what is well-formed

  datatype FileType = Fifo | Chr | Directory | Blk | Reg | Lnk | Sock | Other

  /** By the bits of `S_IFMT`. */
  function TypeOf(mode: nat): FileType {
    var bits := mode - mode % 0x1000;
    if bits == 0x1000 then Fifo
    else if bits == 0x2000 then Chr
    else if bits == 0x4000 then Directory
    else if bits == 0x6000 then Blk
    else if bits == 0x8000 then Reg
    else if bits == 0xa000 then Lnk
    else if bits == 0xc000 then Sock
    else Other
  }

  predicate Fields32(h: Header) {
    h.mode < 0x1_0000 && forall i :: 0 <= i < 13 ==> FieldList(h)[i] < WORD
  }

  function Total(bytes: seq<Byte>): nat {
    if bytes == [] then 0 else Total(bytes[..|bytes| - 1]) + bytes[|bytes| - 1]
  }

  /** Well-formed but for the checksum. */
  predicate Formed(e: Entry) {
    true == (Fields32(e.header) && 0 !in e.name && e.header.nameLen == |e.name| + 1 <= 4096
    && e.header.bodyLen == |e.body|
    && match TypeOf(e.header.mode)
       case Lnk => |e.body| <= 4096 && 0 !in e.body
       case Reg => true
       case _ => e.body == [])
  }

  /** The checksum, if there is one, is right. */
  predicate SumRight(e: Entry) {
    e.crc ==> e.header.csum == Total(e.body) % WORD
  }

  predicate WellFormed(e: Entry) {
    true == (Formed(e) && SumRight(e))
  }

  /** The NULs between two entries are a multiple of four. */
  predicate AllWellFormed(es: seq<Entry>) {
    (forall i :: 0 <= i < |es| ==> WellFormed(es[i])) && forall i :: 0 <= i < |es| - 1 ==> es[i].gap % 4 == 0
  }

  // ---------------------------------------------------------------- what an archive stands for

  predicate Trailer(e: Entry) {
    TypeOf(e.header.mode) != Lnk && e.name == Ascii("TRAILER!!!")
  }

  /** A file of several names, or a device and the like. */
  predicate Shared(e: Entry) {
    e.header.nlink >= 2 && TypeOf(e.header.mode) in {Reg, Chr, Blk, Fifo, Sock} && !Trailer(e)
  }

  predicate SameFile(g: Header, h: Header) {
    g.major == h.major && g.minor == h.minor && g.ino == h.ino && TypeOf(g.mode) == TypeOf(h.mode)
  }

  /** The place behind the last trailer before `i`. */
  function Since(es: seq<Entry>, i: nat): (b: nat)
    requires i <= |es|
    ensures b <= i
  {
    if i == 0 then 0 else if Trailer(es[i - 1]) then i else Since(es, i - 1)
  }

  /** The first shared entry from `j` on and before `i` that is of the same file as `h`; `i` if there is none. */
  function FirstOf(es: seq<Entry>, j: nat, i: nat, h: Header): (f: nat)
    requires j <= i <= |es|
    ensures j <= f <= i
    ensures f < i ==> Shared(es[f]) && SameFile(es[f].header, h)
    ensures forall k :: j <= k < f ==> !(Shared(es[k]) && SameFile(es[k].header, h))
    decreases i - j
  {
    if j == i || (Shared(es[j]) && SameFile(es[j].header, h)) then j else FirstOf(es, j + 1, i, h)
  }

  /** The log after entry `i`, `log` being that before it. */
  function Object(env: Env, log: seq<Effect>, es: seq<Entry>, i: nat): (after: seq<Effect>)
    requires i < |es|
  {
    var e := es[i];
    var h, name := e.header, e.name;
    if TypeOf(h.mode) == Lnk then log + [Clean(name, 0)] + [Symlink(e.body, name, h)]
    else if Trailer(e) then log
    else
      var cleaned := log + [Clean(name, h.mode)];
      if TypeOf(h.mode) == Directory then cleaned + [Dir(name, h)]
      else if TypeOf(h.mode) == Other then cleaned
      else
        var f := FirstOf(es, Since(es, i), i, h);
        if h.nlink < 2 || f == i then FirstName(env, cleaned, e) else FurtherName(env, cleaned, e, es[f].name)
  }

  /** The only name of a file, a device or the like, or the first one. */
  function FirstName(env: Env, log: seq<Effect>, e: Entry): seq<Effect> {
    if TypeOf(e.header.mode) != Reg then log + [Node(e.name, e.header)]
    else if env.opens(log, e.name) then log + [File(e.name, e.header, true, e.body)]
    else log
  }

  /** A further name of what `first` names. */
  function FurtherName(env: Env, log: seq<Effect>, e: Entry, first: seq<Byte>): seq<Effect> {
    var cleaned := log + [Clean(e.name, 0)];
    if !env.links(cleaned, first, e.name) then cleaned
    else
      var linked := cleaned + [Link(first, e.name)];
      if TypeOf(e.header.mode) == Reg && env.opens(linked, e.name) then linked + [File(e.name, e.header, false, e.body)]
      else linked
  }

  /** The log after all entries from `i` on. */
  function Objects(env: Env, log: seq<Effect>, es: seq<Entry>, i: nat): seq<Effect>
    requires i <= |es|
    decreases |es| - i
  {
    if i == |es| then log else Objects(env, Object(env, log, es, i), es, i + 1)
  }

  /** There is room for the bodies of the files that get opened. */
  predicate Roomy(env: Env, log: seq<Effect>, es: seq<Entry>, i: nat)
    requires i <= |es|
    decreases |es| - i
  {
    i == |es|
    || (HasRoom(env, log, Object(env, log, es, i), es[i]) && Roomy(env, Object(env, log, es, i), es, i + 1))
  }

  predicate HasRoom(env: Env, log: seq<Effect>, after: seq<Effect>, e: Entry) {
    |after| > |log| && after[|after| - 1].File? ==> |e.body| <= env.room(after[..|after| - 1])
  }
}
