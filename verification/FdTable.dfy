/** `fs/file.c`: the descriptor table with its two-level bitmap and the hint `next_fd`. */
module FdTable {

  import opened FindBit

  const NR_OPEN_DEFAULT: nat := 32

  /** No file in the slot. */
  const NONE: int := 0

  /** `BITS_TO_LONGS`. */
  function Words(bits: nat): nat {
    (bits + 31) / 32
  }

  function Zeros(n: nat): seq<Word> {
    seq(n, _ => ZERO)
  }

  /** A `full_fds_bits` bit is set exactly if its word of `open` is all ones. */
  ghost predicate FullOk(open: seq<Word>, full: seq<Word>) {
    forall w: nat :: w / 32 < |full| ==> (Bit(full, w) <==> w < |open| && All(open[w]))
  }

  /** The first word of `__set_open_fd`. */
  function SetFull(open: seq<Word>, full: seq<Word>, w: nat): seq<Word>
    requires w < |open| && w / 32 < |full|
  {
    if All(open[w]) then Put(full, w, true) else full
  }

  lemma {:induction false} SetKeepsFull(open: seq<Word>, full: seq<Word>, fd: nat)
    requires FullOk(open, full) && fd / 32 < |open| <= 32 * |full|
    ensures FullOk(Put(open, fd, true), SetFull(Put(open, fd, true), full, fd / 32))
  {
    var open', w0 := Put(open, fd, true), fd / 32;
    var full' := SetFull(open', full, w0);
    forall w: nat | w / 32 < |full'|
      ensures Bit(full', w) <==> w < |open'| && All(open'[w])
    {
      PutBit(full, w0, true, w);
      if w == w0 && All(open[w]) {
        assert open'[w] == open[w];
      }
    }
  }

  lemma {:induction false} ClearKeepsFull(open: seq<Word>, full: seq<Word>, fd: nat)
    requires FullOk(open, full) && fd / 32 < |open| <= 32 * |full|
    ensures FullOk(Put(open, fd, false), Put(full, fd / 32, false))
  {
    var open', w0 := Put(open, fd, false), fd / 32;
    forall w: nat | w / 32 < |full|
      ensures Bit(Put(full, w0, false), w) <==> w < |open'| && All(open'[w])
    {
      PutBit(full, w0, false, w);
      assert !open'[w0][fd % 32];
    }
  }

  /** Words of zeros after the bitmap, and zeros after its summary. */
  lemma {:induction false} GrowKeepsFull(open: seq<Word>, full: seq<Word>, n: nat, m: nat)
    requires FullOk(open, full) && |open| <= 32 * |full|
    ensures FullOk(open + Zeros(n), full + Zeros(m))
  {
    var open', full' := open + Zeros(n), full + Zeros(m);
    forall w: nat | w / 32 < |full'|
      ensures Bit(full', w) <==> w < |open'| && All(open'[w])
    {
      if w / 32 < |full| {
        assert Bit(full', w) == Bit(full, w);
      }
      if w < |open| {
        assert open'[w] == open[w];
      } else if w < |open'| {
        assert !open'[w][0];
      }
    }
  }

  // ---------------------------------------------------------------- what a table means

  /** The set that a bitmap of `max` bits stands for. */
  ghost function Members(map_: seq<Word>, max: nat): set<nat>
    requires max <= 32 * |map_|
  {
    set i: nat | i < max && Bit(map_, i)
  }

  lemma {:induction false} PutMembers(map_: seq<Word>, max: nat, i: nat, v: bool)
    requires max <= 32 * |map_| && i < max
    ensures Members(Put(map_, i, v), max) == if v then Members(map_, max) + {i} else Members(map_, max) - {i}
  {
    forall j: nat | j < max
      ensures j in Members(Put(map_, i, v), max) <==> if j == i then v else j in Members(map_, max)
    {
      PutBit(map_, i, v, j);
    }
  }

  lemma {:induction false} GrowMembers(map_: seq<Word>, n: nat)
    ensures Members(map_ + Zeros(n), 32 * (|map_| + n)) == Members(map_, 32 * |map_|)
  {
    forall j: nat | j < 32 * (|map_| + n)
      ensures j in Members(map_ + Zeros(n), 32 * (|map_| + n)) <==> j in Members(map_, 32 * |map_|)
    {
      if j < 32 * |map_| {
        assert Bit(map_ + Zeros(n), j) == Bit(map_, j);
      }
    }
  }

  ghost function Installed(fd: seq<int>): map<nat, int> {
    map i: nat | i < |fd| && fd[i] != NONE :: fd[i]
  }

  lemma {:induction false} InstalledPut(fd: seq<int>, i: nat, file: int)
    requires i < |fd| && file != NONE
    ensures Installed(fd[i := file]) == Installed(fd)[i := file]
  {}

  /** The descriptors in use, the files installed, the close-on-exec flags. */
  datatype View = View(open: set<nat>, files: map<nat, int>, cloexec: set<nat>)

  function PowerFrom(p: nat, n: nat): (r: nat)
    requires p > 0
    ensures r >= n && r >= p && (p < n ==> r < 2 * n)
    decreases n - p
  {
    if p >= n then p else PowerFrom(2 * p, n)
  }

  /** `roundup_pow_of_two`. */
  function RoundupPowerOfTwo(n: nat): (r: nat)
    ensures r >= n && r >= 1 && (n > 0 ==> r < 2 * n)
  {
    PowerFrom(1, n)
  }

  /** The size that `alloc_fdtable` gives a table for descriptor `nr`. */
  function TableSize(nr: nat, nrOpen: nat): (r: nat)
    requires nrOpen > 0
    ensures r % 32 == 0 && r > 0 && (r > nr || r >= nrOpen)
  {
    var p := RoundupPowerOfTwo(nr / 256 + 1);
    SizeFacts(p, nr, nrOpen);
    Capped(p * 256, nrOpen)
  }

  function Capped(n: nat, nrOpen: nat): nat
    requires nrOpen > 0
  {
    if n > nrOpen then Ceiling(nrOpen) else n
  }

  /** `((sysctl_nr_open - 1) | (BITS_PER_LONG - 1)) + 1`: the size of the largest table. */
  function Ceiling(nrOpen: nat): (r: nat)
    requires nrOpen > 0
    ensures r % 32 == 0 && nrOpen <= r < nrOpen + 32
  {
    ((nrOpen - 1) / 32 + 1) * 32
  }

  /** A table for the first `count` descriptors is large enough exactly if that is within the largest. */
  lemma {:induction false} SizeEnough(count: nat, nrOpen: nat)
    requires nrOpen > 0 && count > 0
    ensures TableSize(count - 1, nrOpen) >= count <==> Ceiling(nrOpen) >= count
  {
    var q, k := (count - 1) / 256, (nrOpen - 1) / 32;
    var p := RoundupPowerOfTwo(q + 1);
    assert count - 1 < 256 * q + 256 <= p * 256;
    assert nrOpen <= 32 * k + 32;
    SizeFacts(p, count - 1, nrOpen);
    if p * 256 <= nrOpen {
      assert Ceiling(nrOpen) >= nrOpen;
    }
  }

  lemma {:induction false} SizeFacts(p: nat, nr: nat, nrOpen: nat)
    requires nrOpen > 0 && p >= nr / 256 + 1
    ensures var r := Capped(p * 256, nrOpen);
      r % 32 == 0 && r > 0 && (r > nr || r >= nrOpen)
  {
    var q, k := nr / 256, (nrOpen - 1) / 32;
    assert nr < 256 * q + 256 <= p * 256;
    assert nrOpen <= 32 * k + 32;
    assert (p * 256) % 32 == 0;
  }

  /** `set >> k`. */
  function Shr(w: Word, k: nat): Word
    requires k <= 32
  {
    w[k..] + seq(k, _ => false)
  }

  /** One more place to the right. */
  lemma {:induction false} ShrStep(w: Word, k: nat)
    requires k <= 32 && Any(Shr(w, k))
    ensures k < 32 && Shr(w, k)[0] == w[k] && Shr(w, k)[1..] + [false] == Shr(w, k + 1)
  {
    var b :| 0 <= b < 32 && Shr(w, k)[b];
    assert Shr(w, k)[1..] + [false] == Shr(w, k + 1);
  }

  lemma {:induction false} RestUnset(w: Word, k: nat)
    requires k <= 32 && !Any(Shr(w, k))
    ensures forall b :: k <= b < 32 ==> !w[b]
  {
    forall b | k <= b < 32
      ensures !w[b]
    {
      assert !Shr(w, k)[b - k];
    }
  }

  /** The first `cw` words of a bitmap, with nothing full after them, padded with zeros. */
  lemma {:induction false} CopyKeepsFull(open: seq<Word>, full: seq<Word>, cw: nat, n: nat, m: nat)
    requires FullOk(open, full) && cw <= |open| <= 32 * |full| && cw <= 32 * Words(cw) && Words(cw) <= |full|
    requires forall w :: cw <= w < |open| ==> !All(open[w])
    ensures FullOk(open[..cw] + Zeros(n), full[..Words(cw)] + Zeros(m))
  {
    var open', full' := open[..cw] + Zeros(n), full[..Words(cw)] + Zeros(m);
    forall w: nat | w / 32 < |full'|
      ensures Bit(full', w) <==> w < |open'| && All(open'[w])
    {
      if w / 32 < Words(cw) {
        assert Bit(full', w) == Bit(full, w);
      }
      if w < cw {
        assert open'[w] == open[w] && w / 32 < Words(cw);
      } else if w < |open'| {
        assert !open'[w][0];
      }
    }
  }

  lemma {:induction false} CopyMembers(map_: seq<Word>, cw: nat, n: nat)
    requires cw <= |map_|
    ensures Members(map_[..cw] + Zeros(n), 32 * (cw + n)) == set i | i in Members(map_, 32 * |map_|) && i < 32 * cw
  {
    forall j: nat | j < 32 * (cw + n)
      ensures j in Members(map_[..cw] + Zeros(n), 32 * (cw + n)) <==> j in Members(map_, 32 * |map_|) && j < 32 * cw
    {
      if j < 32 * cw {
        assert Bit(map_[..cw] + Zeros(n), j) == Bit(map_, j);
      }
    }
  }

  ghost function Gone(v: View, n: nat): set<nat> {
    set j | j in v.cloexec && j in v.files && j < n
  }

  ghost function Closed(v: View, n: nat, m: nat): View {
    View(v.open - Gone(v, n), v.files - Gone(v, n), set j | j in v.cloexec && j >= m)
  }

  /** Nothing closed, and everything that is flagged. */
  lemma {:induction false} ClosedEnds(v: View, n: nat)
    requires forall j :: j in v.cloexec ==> j < n
    ensures Closed(v, 0, 0) == v
    ensures var gone := v.cloexec * v.files.Keys; Closed(v, n, n) == View(v.open - gone, v.files - gone, {})
  {
    assert Gone(v, 0) == {} && Gone(v, n) == v.cloexec * v.files.Keys;
  }

  lemma {:induction false} CloseStep(v: View, n: nat, m: nat)
    ensures var w := Closed(v, n, m);
      Closed(v, n + 1, m)
      == if n in v.cloexec && n in v.files then w.(open := w.open - {n}, files := w.files - {n}) else w
    ensures n in v.files <==> n in Closed(v, n, m).files
  {
    assert Gone(v, n + 1) == if n in v.cloexec && n in v.files then Gone(v, n) + {n} else Gone(v, n);
  }

  lemma {:induction false} CloseSkip(v: View, n: nat, n': nat, m: nat)
    requires n <= n' && n <= m && forall j :: n <= j < n' ==> j !in v.cloexec
    ensures Closed(v, n', if m < n' then n' else m) == Closed(v, n, m)
  {
    assert Gone(v, n') == Gone(v, n);
  }

  /** The open descriptors before `count`, without those before `i` that have no file. */
  ghost function Kept(v: View, count: nat, i: nat): set<nat> {
    set j | j in v.open && j < count && (j < i ==> j in v.files)
  }

  lemma {:induction false} KeptStep(v: View, count: nat, i: nat)
    ensures Kept(v, count, i + 1) == if i in v.files then Kept(v, count, i) else Kept(v, count, i) - {i}
  {}

  class Files {
    var maxFds: nat
    var fd: seq<int>
    var open: seq<Word>
    var cloexec: seq<Word>
    var full: seq<Word>
    var nextFd: nat
    /** `sysctl_nr_open`. */
    const nrOpen: nat

    ghost predicate Sized()
      reads this
    {
      true == (maxFds % 32 == 0 && maxFds > 0 && |fd| == maxFds && |open| == |cloexec| == maxFds / 32
      && |full| == Words(Words(maxFds)) && nrOpen > 0)
    }

    ghost predicate Valid()
      reads this
    {
      true == (Sized() && FullOk(open, full)
      && (forall i: nat :: i < nextFd ==> i in Current().open)
      && Current().files.Keys <= Current().open)
    }

    ghost function Current(): View
      requires Sized()
      reads this
    {
      View(Members(open, maxFds), Installed(fd), Members(cloexec, maxFds))
    }

    /** The table of `init_files`. */
    constructor (nrOpen: nat)
      requires nrOpen > 0
      ensures Valid() && Current() == View({}, map[], {}) && nextFd == 0
    {
      maxFds, nextFd := NR_OPEN_DEFAULT, 0;
      fd := seq(NR_OPEN_DEFAULT, _ => NONE);
      open, cloexec, full := [ZERO], [ZERO], [ZERO];
      this.nrOpen := nrOpen;
      new;
      assert FullOk(open, full);
      assert Current().open == {} && Current().cloexec == {} && Current().files == map[];
    }

    /** `find_next_fd`. */
    method FindNextFd(start: nat) returns (r: nat)
      requires Valid() && start < maxFds
      ensures start <= r <= maxFds && (r < maxFds ==> r !in Current().open)
      ensures forall j: nat :: start <= j < r ==> j in Current().open
    {
      var maxbit := maxFds / 32;
      var bitbit := FindNext(full, maxbit, start / 32, true);
      WordsFull(start / 32, bitbit);
      bitbit := bitbit * 32;
      if bitbit > maxFds {
        return maxFds;
      }
      var from := start;
      if bitbit > start {
        from := bitbit;
      }
      r := FindNext(open, maxFds, from, true);
    }

    /** Words whose summary bits are set hold no free descriptor. */
    lemma WordsFull(lo: nat, hi: nat)
      requires Valid() && hi <= maxFds / 32 && Clear(full, true, lo, hi)
      ensures forall j: nat :: lo * 32 <= j < hi * 32 ==> Bit(open, j)
    {
      forall j: nat | lo * 32 <= j < hi * 32
        ensures Bit(open, j)
      {
        assert Bit(full, j / 32);
      }
    }

    /** `expand_fdtable`: a larger table with the same content, unless the limit is in the way. */
    method ExpandFdtable(nr: nat) returns (ok: bool)
      requires Valid() && nr >= maxFds
      modifies this`maxFds, this`fd, this`open, this`cloexec, this`full
      ensures Valid() && Current() == old(Current()) && (nr < nrOpen ==> ok) && (ok ==> nr < maxFds)
    {
      var n := TableSize(nr, nrOpen);
      if n <= nr {
        return false;
      }
      var words: nat, more: nat := n / 32 - maxFds / 32, Words(Words(n)) - Words(Words(maxFds));
      GrowKeepsFull(open, full, words, more);
      GrowMembers(open, words);
      GrowMembers(cloexec, words);
      ghost var fd0 := fd;
      fd := fd + seq(n - maxFds, _ => NONE);
      assert Installed(fd) == Installed(fd0);
      open, cloexec, full := open + Zeros(words), cloexec + Zeros(words), full + Zeros(more);
      maxFds := n;
      ok := true;
    }

    /** `expand_files`; no is `-EMFILE`. */
    method ExpandFiles(nr: nat) returns (ok: bool, expanded: bool)
      requires Valid()
      modifies this`maxFds, this`fd, this`open, this`cloexec, this`full
      ensures Valid() && Current() == old(Current()) && ok == (nr < old(maxFds) || nr < nrOpen) && (ok ==> nr < maxFds)
      ensures expanded ==> old(maxFds) < nrOpen && old(maxFds) < maxFds
    {
      if nr < maxFds {
        return true, false;
      }
      if nr >= nrOpen {
        return false, false;
      }
      ok := ExpandFdtable(nr);
      expanded := true;
    }

    /** `__set_open_fd`. */
    method SetOpenFd(i: nat)
      requires Sized() && FullOk(open, full) && i < maxFds
      modifies this`open, this`full
      ensures Sized() && FullOk(open, full) && open == Put(old(open), i, true)
      ensures Members(open, maxFds) == old(Members(open, maxFds)) + {i}
    {
      SetKeepsFull(open, full, i);
      PutMembers(open, maxFds, i, true);
      open := Put(open, i, true);
      if All(open[i / 32]) {
        full := Put(full, i / 32, true);
      }
    }

    /** `__clear_open_fd`. */
    method ClearOpenFd(i: nat)
      requires Sized() && FullOk(open, full) && i < maxFds
      modifies this`open, this`full
      ensures Sized() && FullOk(open, full) && open == Put(old(open), i, false)
      ensures Members(open, maxFds) == old(Members(open, maxFds)) - {i}
    {
      ClearKeepsFull(open, full, i);
      PutMembers(open, maxFds, i, false);
      open := Put(open, i, false);
      full := Put(full, i / 32, false);
    }

    /** `__set_close_on_exec` or `__clear_close_on_exec`. */
    method SetCloseOnExec(i: nat, v: bool)
      requires Sized() && i < maxFds
      modifies this`cloexec
      ensures Sized() && Members(cloexec, maxFds) == if v then old(Members(cloexec, maxFds)) + {i}
          else old(Members(cloexec, maxFds)) - {i}
    {
      PutMembers(cloexec, maxFds, i, v);
      cloexec := Put(cloexec, i, v);
    }

    /** The loop of `alloc_fd`: the descriptor it settles on, the table being large enough. */
    method Settle(start: nat, end: nat) returns (ok: bool, r: nat)
      requires Valid()
      modifies this`maxFds, this`fd, this`open, this`cloexec, this`full
      ensures Valid() && Current() == old(Current())
      ensures ok ==>
          start <= r < end && r < maxFds && r !in Current().open && r >= nextFd
          && forall j: nat :: start <= j < r ==> j in Current().open
      ensures ok && start <= nextFd ==> forall j: nat :: j < r ==> j in Current().open
      ensures !ok ==> forall j: nat :: start <= j < end && j < nrOpen ==> j in Current().open
    {
      while true
        invariant Valid() && Current() == old(Current())
        decreases if maxFds < nrOpen then nrOpen - maxFds else 0
      {
        r := start;
        if r < nextFd {
          r := nextFd;
        }
        if r < maxFds {
          r := FindNextFd(r);
        }
        ok := false;
        if r >= end {
          return;
        }
        var expanded;
        ok, expanded := ExpandFiles(r);
        if !ok || !expanded {
          return;
        }
      }
    }

    /** `alloc_fd`: the lowest unused descriptor from `start` on, below `end`. */
    method AllocFd(start: nat, end: nat, closeOnExec: bool) returns (ok: bool, r: nat)
      requires Valid()
      modifies this
      ensures Valid()
      ensures ok ==>
        start <= r < end && r !in old(Current()).open && (forall j: nat :: start <= j < r ==> j in old(Current()).open)
      ensures ok ==> Current() == View(old(Current()).open + {r}, old(Current()).files,
          if closeOnExec then old(Current()).cloexec + {r} else old(Current()).cloexec - {r})
      ensures !ok ==> Current() == old(Current()) && forall j: nat :: start <= j < end && j < nrOpen ==>
          j in Current().open
    {
      ok, r := Settle(start, end);
      if !ok {
        return;
      }
      if start <= nextFd {
        nextFd := r + 1;
      }
      SetOpenFd(r);
      SetCloseOnExec(r, closeOnExec);
      // the slot that the code would warn about and clear is empty
      assert r !in Current().files && fd[r] == NONE;
    }

    /** `__put_unused_fd`, on a descriptor without a file. */
    method PutUnusedFd(i: nat)
      requires Sized() && FullOk(open, full) && i < maxFds && fd[i] == NONE
      requires (forall j: nat :: j < nextFd ==> j in Current().open) && Current().files.Keys <= Current().open + {i}
      modifies this`open, this`full, this`nextFd
      ensures Valid() && Current() == old(Current()).(open := old(Current()).open - {i})
    {
      ClearOpenFd(i);
      if i < nextFd {
        nextFd := i;
      }
      assert i !in Current().files;
    }

    /** `fd_install`, on a descriptor from `alloc_fd`. */
    method Install(i: nat, file: int)
      requires Valid() && i in Current().open && i !in Current().files && file != NONE
      modifies this`fd
      ensures Valid() && Current() == old(Current()).(files := old(Current()).files[i := file])
    {
      InstalledPut(fd, i, file);
      fd := fd[i := file];
    }

    /** `pick_file`. */
    method PickFile(i: nat) returns (file: int)
      requires Valid()
      modifies this`fd, this`open, this`full, this`nextFd
      ensures Valid() && file == if i in old(Current()).files then old(Current()).files[i] else NONE
      ensures Current() == if i in old(Current()).files then
          old(Current()).(open := old(Current()).open - {i}, files := old(Current()).files - {i}) else old(Current())
    {
      if i >= maxFds {
        return NONE;
      }
      file := fd[i];
      if file != NONE {
        ghost var fd0 := fd;
        fd := fd[i := NONE];
        assert Installed(fd) == Installed(fd0) - {i};
        PutUnusedFd(i);
      }
    }

    /** `do_dup2`; busy is `-EBUSY`. */
    method DoDup2(file: int, i: nat, closeOnExec: bool) returns (busy: bool)
      requires Valid() && file != NONE && i < maxFds
      modifies this`fd, this`open, this`full, this`cloexec
      ensures Valid() && busy == (i in old(Current()).open && i !in old(Current()).files)
      ensures Current() == if busy then old(Current())
        else View(old(Current()).open + {i}, old(Current()).files[i := file],
            if closeOnExec then old(Current()).cloexec + {i} else old(Current()).cloexec - {i})
    {
      if fd[i] == NONE && Bit(open, i) {
        return true;
      }
      InstalledPut(fd, i, file);
      fd := fd[i := file];
      SetOpenFd(i);
      SetCloseOnExec(i, closeOnExec);
      busy := false;
    }

    /** One descriptor of `do_close_on_exec`. */
    method CloseOne(i: nat)
      requires Valid() && i < maxFds
      modifies this`fd, this`open, this`full, this`nextFd
      ensures Valid() && Current() == if i in old(Current()).files then
          old(Current()).(open := old(Current()).open - {i}, files := old(Current()).files - {i}) else old(Current())
    {
      var _ := PickFile(i);
    }

    /** The flagged files before `n` are closed and the flags before `m` cleared. */
    ghost predicate ClosedUpTo(v: View, n: nat, m: nat)
      reads this
    {
      true == (Sized() && Current() == Closed(v, n, m))
    }

    /** One word of `do_close_on_exec`. */
    method CloseWord(i: nat, ghost v: View)
      requires Valid() && i * 32 < maxFds && ClosedUpTo(v, i * 32, i * 32)
      modifies this`fd, this`open, this`full, this`nextFd, this`cloexec
      ensures Valid() && ClosedUpTo(v, i * 32 + 32, i * 32 + 32)
    {
      var set_ := cloexec[i];
      ghost var word := set_;
      FlagBits(i, v);
      if !Any(set_) {
        CloseSkip(v, i * 32, i * 32 + 32, i * 32);
        return;
      }
      ClearFlags(i, v);
      var fdi: nat := i * 32;
      ghost var k: nat := 0;
      while Any(set_)
        invariant Valid() && k <= 32 && fdi == i * 32 + k && set_ == Shr(word, k) && ClosedUpTo(v, fdi, i * 32 + 32)
        invariant maxFds == old(maxFds)
        decreases 32 - k
      {
        ShrStep(word, k);
        CloseStep(v, fdi, i * 32 + 32);
        if set_[0] {
          CloseOne(fdi);
        }
        fdi, k := fdi + 1, k + 1;
        set_ := set_[1..] + [false];
      }
      RestUnset(word, k);
      assert forall j: nat :: fdi <= j < i * 32 + 32 ==> (j in v.cloexec <==> word[j - i * 32]);
      CloseSkip(v, fdi, i * 32 + 32, i * 32 + 32);
    }

    /** A word of `close_on_exec` holds the flags that are left. */
    lemma FlagBits(i: nat, v: View)
      requires Valid() && i * 32 < maxFds && ClosedUpTo(v, i * 32, i * 32)
      ensures forall j: nat :: i * 32 <= j < i * 32 + 32 ==> (j in v.cloexec <==> cloexec[i][j - i * 32])
    {
      forall j: nat | i * 32 <= j < i * 32 + 32
        ensures j in v.cloexec <==> cloexec[i][j - i * 32]
      {
        assert j / 32 == i && j % 32 == j - i * 32;
        assert j in Current().cloexec <==> Bit(cloexec, j);
      }
    }

    method ClearFlags(i: nat, ghost v: View)
      requires Valid() && i * 32 < maxFds && ClosedUpTo(v, i * 32, i * 32)
      modifies this`cloexec
      ensures Valid() && ClosedUpTo(v, i * 32, i * 32 + 32)
    {
      ghost var c0, m0 := cloexec, Members(cloexec, maxFds);
      assert m0 == Current().cloexec == Closed(v, i * 32, i * 32).cloexec;
      cloexec := cloexec[i := ZERO];
      forall j: nat
        ensures j in Members(cloexec, maxFds) <==> j in m0 && j >= i * 32 + 32
      {
        if j < maxFds {
          assert j / 32 == i <==> i * 32 <= j < i * 32 + 32;
          assert !ZERO[j % 32];
          assert Bit(cloexec, j) == if j / 32 == i then false else Bit(c0, j);
          assert j in m0 <==> Bit(c0, j);
        }
      }
      assert Members(cloexec, maxFds) == Closed(v, i * 32, i * 32 + 32).cloexec;
    }

    /** `do_close_on_exec`: the flagged files are closed, all flags are gone. */
    method DoCloseOnExec()
      requires Valid()
      modifies this
      ensures Valid()
      ensures var v, gone := old(Current()), old(Current()).cloexec * old(Current()).files.Keys;
        Current() == View(v.open - gone, v.files - gone, {})
    {
      var i := 0;
      ghost var v := Current();
      ClosedEnds(v, maxFds);
      while i * 32 < maxFds
        invariant Valid() && maxFds == old(maxFds) && i * 32 <= maxFds && ClosedUpTo(v, i * 32, i * 32)
      {
        CloseWord(i, v);
        assert i * 32 + 32 == (i + 1) * 32;
        i := i + 1;
      }
    }

    /** `ksys_dup3` on two different descriptors; `limit` is `RLIMIT_NOFILE`. */
    method Dup3(oldfd: nat, newfd: nat, closeOnExec: bool, limit: nat) returns (r: Dup)
      requires Valid() && oldfd != newfd
      modifies this
      ensures Valid()
      ensures var v := old(Current());
        if newfd >= limit || oldfd !in v.files || (newfd >= old(maxFds) && newfd >= nrOpen) then
          r == EBADF && Current() == v
        else if newfd in v.open && newfd !in v.files then r == EBUSY && Current() == v
        else r == Copied && Current() == View(v.open + {newfd}, v.files[newfd := v.files[oldfd]],
            if closeOnExec then v.cloexec + {newfd} else v.cloexec - {newfd})
    {
      if newfd >= limit {
        return EBADF;
      }
      var ok, _ := ExpandFiles(newfd);
      var file := if oldfd < maxFds then fd[oldfd] else NONE;
      assert oldfd in Current().files <==> file != NONE;
      if file == NONE || !ok {
        return EBADF;
      }
      var busy := DoDup2(file, newfd, closeOnExec);
      r := if busy then EBUSY else Copied;
    }

    /** `count_open_files`: the descriptors up to the last word in use, at least one word. */
    method CountOpenFiles() returns (n: nat)
      requires Valid()
      ensures n % 32 == 0 && 0 < n <= maxFds && forall w :: n / 32 <= w < |open| ==> !Any(open[w])
      ensures n > 32 ==> Any(open[n / 32 - 1])
    {
      var i := maxFds / 32;
      while i > 0
        invariant 0 <= i <= maxFds / 32 && forall w :: i <= w < |open| ==> !Any(open[w])
      {
        i := i - 1;
        if Any(open[i]) {
          break;
        }
      }
      n := (i + 1) * 32;
      assert n / 32 - 1 == i;
    }

    /** The count reaches beyond `limit` exactly if a descriptor in use does. */
    lemma CountReaches(n: nat, limit: nat)
      requires Valid() && n % 32 == 0 && 0 < n <= maxFds && limit % 32 == 0 && limit >= 32
      requires (forall w :: n / 32 <= w < |open| ==> !Any(open[w])) && (n > 32 ==> Any(open[n / 32 - 1]))
      ensures n > limit <==> exists j :: j in Current().open && j >= limit
    {
      if n > limit {
        var w := n / 32 - 1;
        var b :| 0 <= b < 32 && open[w][b];
        var j := w * 32 + b;
        assert j / 32 == w && j % 32 == b;
        assert Bit(open, j) && j in Current().open;
      } else {
        forall j | j in Current().open
          ensures j < limit
        {
          assert Bit(open, j);
          assert Any(open[j / 32]);
        }
      }
    }

    /** The part of `dup_fd` after the new table has been found: the first `count` descriptors are
        copied, those without a file are given up. */
    constructor Copy(oldf: Files, count: nat, n: nat)
      requires oldf.Valid() && count % 32 == 0 && 0 < count <= oldf.maxFds && count <= n && n % 32 == 0
      requires forall w :: count / 32 <= w < |oldf.open| ==> !Any(oldf.open[w])
      ensures Valid() && nextFd == 0 && Current().files == oldf.Current().files
          && Current().open == oldf.Current().files.Keys
      ensures Current().cloexec == set j | j in oldf.Current().cloexec && j < count
    {
      nrOpen := oldf.nrOpen;
      maxFds, nextFd := n, 0;
      var cw: nat, words: nat := count / 32, n / 32 - count / 32;
      open, cloexec := oldf.open[..cw] + Zeros(words), oldf.cloexec[..cw] + Zeros(words);
      full := oldf.full[..Words(cw)] + Zeros(Words(Words(n)) - Words(cw));
      fd := seq(n, _ => NONE);
      new;
      forall w | cw <= w < |oldf.open|
        ensures !All(oldf.open[w])
      {
        assert !oldf.open[w][0];
      }
      CopyKeepsFull(oldf.open, oldf.full, cw, words, Words(Words(n)) - Words(cw));
      CopyMembers(oldf.open, cw, words);
      CopyMembers(oldf.cloexec, cw, words);
      assert Members(open, maxFds) == Kept(oldf.Current(), count, 0);
      var i := 0;
      while i < count
        invariant 0 <= i <= count && maxFds == n && nextFd == 0 && Copying(oldf, count, i)
        invariant Members(cloexec, maxFds) == set j | j in oldf.Current().cloexec && j < count
      {
        CopyOne(oldf, count, i);
        i := i + 1;
      }
      CopyDone(oldf, count);
    }

    /** The first `i` of `count` descriptors have been gone through. */
    ghost predicate Copying(oldf: Files, count: nat, i: nat)
      reads this, oldf
    {
      true == (Sized() && oldf.Sized() && FullOk(open, full) && i <= count <= maxFds && count <= oldf.maxFds
      && Members(open, maxFds) == Kept(oldf.Current(), count, i)
      && (forall j :: 0 <= j < i ==> fd[j] == oldf.fd[j]) && (forall j :: i <= j < maxFds ==> fd[j] == NONE))
    }

    method CopyOne(oldf: Files, count: nat, i: nat)
      requires Copying(oldf, count, i) && i < count && oldf != this
      modifies this`fd, this`open, this`full
      ensures Copying(oldf, count, i + 1)
    {
      KeptStep(oldf.Current(), count, i);
      assert oldf.fd[i] != NONE <==> i in oldf.Current().files;
      if oldf.fd[i] == NONE {
        ClearOpenFd(i);
      }
      fd := fd[i := oldf.fd[i]];
    }

    lemma CopyDone(oldf: Files, count: nat)
      requires Copying(oldf, count, count) && oldf.Valid() && forall w :: count / 32 <= w < |oldf.open| ==>
          !Any(oldf.open[w])
      requires count % 32 == 0
      ensures Installed(fd) == oldf.Current().files && Members(open, maxFds) == oldf.Current().files.Keys
    {
      forall j | j in oldf.Current().files
        ensures j < count
      {
        assert Bit(oldf.open, j);
        assert Any(oldf.open[j / 32]);
      }
      assert Installed(fd) == oldf.Current().files;
    }

    /** `dup_fd` as `fork` calls it, without a bound on the descriptors; null is `-EMFILE`. */
    static method DupFd(oldf: Files) returns (newf: Files?)
      requires oldf.Valid()
      ensures newf != null ==> fresh(newf) && newf.Valid() && newf.nextFd == 0
      ensures newf != null ==>
          newf.Current().files == oldf.Current().files && newf.Current().open == oldf.Current().files.Keys
          && newf.Current().cloexec <= oldf.Current().cloexec
      ensures newf != null ==>
        newf.Current().files.Keys * newf.Current().cloexec == oldf.Current().files.Keys * oldf.Current().cloexec
      ensures newf == null <==>
        exists j :: j in oldf.Current().open && j >= NR_OPEN_DEFAULT && j >= Ceiling(oldf.nrOpen)
    {
      var count := oldf.CountOpenFiles();
      var n := NR_OPEN_DEFAULT;
      SizeEnough(count, oldf.nrOpen);
      oldf.CountReaches(count, if Ceiling(oldf.nrOpen) > n then Ceiling(oldf.nrOpen) else n);
      if count > n {
        n := TableSize(count - 1, oldf.nrOpen);
        if n < count {
          return null;
        }
      }
      newf := new Files.Copy(oldf, count, n);
      assert forall j :: j in oldf.Current().files ==> j in newf.Current().open && j < count;
    }
  }

  /** What `dup3` answers, apart from the invalid flags. */
  datatype Dup = Copied | EBADF | EBUSY
}
