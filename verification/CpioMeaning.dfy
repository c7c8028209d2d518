/** The unpacker makes of a well-formed archive what its entries stand for. */
module CpioMeaning {

  import opened CpioSpec
  import opened CpioStream
  import opened CpioPieces
  import opened CpioFormat
  import opened CpioArchive

  /** The first name that counts for `h` before entry `i`. */
  ghost function Before(es: seq<Entry>, i: nat, h: Header): (f: nat)
    requires i <= |es|
    ensures f <= i
  {
    FirstOf(es, Since(es, i), i, h)
  }

  /** The table of `find_link` holds the first names since the last trailer, and nothing else. */
  ghost predicate Table(links: map<LinkKey, seq<Byte>>, es: seq<Entry>, i: nat)
    requires i <= |es|
  {
    true == forall h: Header :: h.mode < 0x1_0000 ==>
      if Before(es, i, h) < i then KeyOf(h) in links && links[KeyOf(h)] == es[Before(es, i, h)].name
      else KeyOf(h) !in links || !Shares(h.mode)
  }

  predicate Shares(mode: nat) {
    TypeOf(mode) in {Reg, Chr, Blk, Fifo, Sock}
  }

  lemma {:induction false} NoTable(es: seq<Entry>)
    ensures Table(map[], es, 0)
  {}

  lemma {:induction false} SameKey(g: Header, h: Header)
    requires g.mode < 0x1_0000 && h.mode < 0x1_0000 && Shares(g.mode)
    ensures SameFile(g, h) <==> KeyOf(g) == KeyOf(h)
  {
    Types(g.mode);
    Types(h.mode);
  }

  /** One entry more before. */
  lemma {:induction false} FirstMore(es: seq<Entry>, j: nat, i: nat, h: Header)
    requires j <= i < |es|
    ensures var f := FirstOf(es, j, i, h);
      FirstOf(es, j, i + 1, h)
        == if f < i then f else if Shared(es[i]) && SameFile(es[i].header, h) then i else i + 1
    decreases i - j
  {
    if j < i && !(Shared(es[j]) && SameFile(es[j].header, h)) {
      FirstMore(es, j + 1, i, h);
    }
  }

  lemma {:induction false} BeforeMore(es: seq<Entry>, i: nat, h: Header)
    requires i < |es|
    ensures Trailer(es[i]) ==> Before(es, i + 1, h) == i + 1
    ensures !Trailer(es[i]) ==>
      Before(es, i + 1, h)
        == if Before(es, i, h) < i then Before(es, i, h)
           else if Shared(es[i]) && SameFile(es[i].header, h) then i else i + 1
  {
    if !Trailer(es[i]) {
      FirstMore(es, Since(es, i), i, h);
    }
  }

  /** The table after an entry. */
  ghost function TableAfter(links: map<LinkKey, seq<Byte>>, e: Entry): map<LinkKey, seq<Byte>> {
    if Trailer(e) then map[]
    else if Shared(e) && KeyOf(e.header) !in links then links[KeyOf(e.header) := e.name]
    else links
  }

  lemma {:induction false} TableStep(links: map<LinkKey, seq<Byte>>, es: seq<Entry>, i: nat)
    requires i < |es| && Table(links, es, i) && es[i].header.mode < 0x1_0000
    ensures Table(TableAfter(links, es[i]), es, i + 1)
  {
    var e := es[i];
    forall h: Header | h.mode < 0x1_0000
      ensures if Before(es, i + 1, h) < i + 1 then
          KeyOf(h) in TableAfter(links, e) && TableAfter(links, e)[KeyOf(h)] == es[Before(es, i + 1, h)].name
        else KeyOf(h) !in TableAfter(links, e) || !Shares(h.mode)
    {
      BeforeMore(es, i, h);
      if Shared(e) {
        SameKey(e.header, h);
        assert Before(es, i, e.header) < i ==> KeyOf(e.header) in links;
        assert Before(es, i, e.header) == i ==> KeyOf(e.header) !in links;
      }
    }
  }

  /** What `Unpacked` makes is what the entry stands for. */
  lemma {:induction false} EntryMeans(env: Env, w: World, es: seq<Entry>, i: nat)
    requires i < |es| && Table(w.links, es, i) && WellFormed(es[i])
    ensures Unpacked(env, w, es[i]) == World(TableAfter(w.links, es[i]), Object(env, w.log, es, i))
  {
    var e := es[i];
    Suits(e);
    Letters();
    Types(e.header.mode);
    assert Shares(e.header.mode) && Before(es, i, e.header) == i ==> KeyOf(e.header) !in w.links;
    assert Before(es, i, e.header) < i ==>
      KeyOf(e.header) in w.links && w.links[KeyOf(e.header)] == es[Before(es, i, e.header)].name;
  }

  lemma {:induction false} RoomMeans(env: Env, w: World, es: seq<Entry>, i: nat)
    requires i < |es| && Table(w.links, es, i) && WellFormed(es[i])
    requires HasRoom(env, w.log, Object(env, w.log, es, i), es[i])
    ensures RoomFor(env, w, es[i])
  {
    var e := es[i];
    var w1 := Note(w, Clean(e.name, e.header.mode));
    EntryMeans(env, w, es, i);
    Suits(e);
    Letters();
    if !IsLink(e.header.mode) && e.name != TRAILER && Opens(env, w1, e.header, e.name) {
      var l := MaybeLink(env, w1, e.header, e.name).log;
      var f := File(e.name, e.header, LinkResult(env, w1, e.header, e.name) != 1, e.body);
      assert Object(env, w.log, es, i) == l + [f] && (l + [f])[..|l|] == l;
    }
  }

  /** All entries from `i` on are well-formed. */
  ghost predicate GoodFrom(es: seq<Entry>, i: nat) {
    forall k :: i <= k < |es| ==> WellFormed(es[k])
  }

  lemma {:induction false} AllMean(env: Env, w: World, es: seq<Entry>, i: nat)
    requires i <= |es| && Table(w.links, es, i) && GoodFrom(es, i) && Roomy(env, w.log, es, i)
    ensures AllRoom(env, w, es[i..])
    ensures var u := UnpackedAll(env, w, es[i..]);
      u.log == Objects(env, w.log, es, i) && Table(u.links, es, |es|)
    decreases |es| - i
  {
    if i < |es| {
      var w' := Unpacked(env, w, es[i]);
      EntryMeans(env, w, es, i);
      RoomMeans(env, w, es, i);
      TableStep(w.links, es, i);
      AllMean(env, w', es, i + 1);
      assert es[i..][0] == es[i] && es[i..][1..] == es[i + 1..];
    }
  }

  /** A well-formed archive, cut anywhere into any number of pieces and fed to an unpacker that has had the entries of
      `before`, leaves in the log what its entries stand for, and no complaint. */
  lemma {:induction false} ArchiveMeans(env: Env, s: State, before: seq<Entry>, es: seq<Entry>, pieces: seq<seq<Byte>>)
    requires Ready(s) && AllWellFormed(es) && es != [] && Concat(pieces) == EncodeAll(es)
    requires Table(s.world.links, before + es, |before|) && Roomy(env, s.world.log, before + es, |before|)
    ensures AllRoom(env, s.world, es) && Good(FlushAll(env, s, pieces))
    ensures FlushAll(env, s, pieces).world.log == Objects(env, s.world.log, before + es, |before|)
    ensures Table(FlushAll(env, s, pieces).world.links, before + es, |before + es|)
  {
    var all := before + es;
    assert all[|before|..] == es;
    assert GoodFrom(all, |before|) by {
      assert forall k :: |before| <= k < |all| ==> all[k] == es[k - |before|];
    }
    AllMean(env, s.world, all, |before|);
    Streams(env, s, es, pieces);
  }
}
