/** Pathname resolution as in `fs/namei.c`: one pass of `path_lookupat` outside RCU mode, on one
    mount, every permission granted. The recursive `Resolve` is the meaning of a pathname; the
    class `NameiData` is the explicit-stack walker. */
module Namei {

  const MAXSYMLINKS: nat := 40
  const EMBEDDED_LEVELS: nat := 2

  datatype Error = ENOENT | ENOTDIR | ELOOP

  /** A directory entry that exists. `parent` is `d_parent`. */
  datatype Inode =
    | Directory(parent: int, entries: map<string, int>)
    | Regular
    | Symlink(body: string)

  /** One mounted file system; `top` is `mnt_root`. */
  datatype Fs = Fs(nodes: map<int, Inode>, top: int)

  /** `d_can_lookup`. */
  predicate IsDir(fs: Fs, n: int) {
    n in fs.nodes && fs.nodes[n].Directory?
  }

  ghost predicate WellFormed(fs: Fs) {
    true == (IsDir(fs, fs.top)
    && (forall n :: IsDir(fs, n) ==> IsDir(fs, fs.nodes[n].parent))
    && forall n, name :: IsDir(fs, n) && name in fs.nodes[n].entries ==> fs.nodes[n].entries[name] in fs.nodes)
  }

  // ---------------------------------------------------------------- what a pathname means

  datatype Outcome = Found(node: int, links: nat) | Failed(error: Error)

  datatype Entry = Hit(node: int) | Miss

  function Strip(s: string): string {
    if s != "" && s[0] == '/' then Strip(s[1..]) else s
  }

  function ComponentLength(s: string): (n: nat)
    ensures n <= |s|
  {
    if s == "" || s[0] == '/' then 0 else 1 + ComponentLength(s[1..])
  }

  /** `..` stays at the root of the process and at the root of the mount. */
  function Parent(fs: Fs, root: int, cur: int): int
    requires IsDir(fs, cur)
  {
    if cur == root || cur == fs.top then cur else fs.nodes[cur].parent
  }

  /** What one component names in the directory `cur`. */
  function EntryOf(fs: Fs, root: int, cur: int, name: string): Entry
    requires IsDir(fs, cur)
  {
    if name == "." then Hit(cur)
    else if name == ".." then Hit(Parent(fs, root, cur))
    else if name in fs.nodes[cur].entries then Hit(fs.nodes[cur].entries[name])
    else Miss
  }

  predicate Absolute(path: string) {
    path != "" && path[0] == '/'
  }

  function Budget(count: nat): nat {
    if count < MAXSYMLINKS then MAXSYMLINKS - count else 0
  }

  /** Resolution of `path` from `cur`, `count` symbolic links having been followed already. A
      link is followed unless it is the last component, nothing comes after it and `follow` is
      off. */
  function Resolve(fs: Fs, root: int, cur: int, path: string, follow: bool, count: nat): (o: Outcome)
    requires WellFormed(fs) && IsDir(fs, root) && cur in fs.nodes
    ensures o.Found? ==> o.node in fs.nodes && count <= o.links && (o.links == count || o.links <= MAXSYMLINKS)
    decreases Budget(count), |path|
  {
    var s := Strip(path);
    StripShortens(path);
    if s == "" then Found(cur, count)
    else if !IsDir(fs, cur) then Failed(ENOTDIR)
    else
      var n := ComponentLength(s);
      match EntryOf(fs, root, cur, s[..n])
      case Miss => Failed(ENOENT)
      case Hit(node) =>
        var o := if !fs.nodes[node].Symlink? || (s[n..] == "" && !follow) then Found(node, count)
          else if count >= MAXSYMLINKS then Failed(ELOOP)
          else
            var body := fs.nodes[node].body;
            Resolve(fs, root, if Absolute(body) then root else cur, body, true, count + 1);
        if s[n..] == "" then o
        else if o.Failed? then o
        else if !IsDir(fs, o.node) then Failed(ENOTDIR)
        else Resolve(fs, root, o.node, s[n..], follow, o.links)
  }

  lemma {:induction false} StripShortens(s: string)
    ensures |Strip(s)| <= |s| && (Strip(s) != "" ==> Strip(s)[0] != '/' && ComponentLength(Strip(s)) > 0)
    ensures Strip(Strip(s)) == Strip(s)
  {
    if s != "" && s[0] == '/' {
      StripShortens(s[1..]);
    }
  }

  // ---------------------------------------------------------------- laws of resolution

  function Onward(fs: Fs, root: int, o: Outcome, path: string, follow: bool): Outcome
    requires WellFormed(fs) && IsDir(fs, root) && (o.Found? ==> o.node in fs.nodes)
  {
    if o.Failed? then o
    else if !IsDir(fs, o.node) then Failed(ENOTDIR)
    else Resolve(fs, root, o.node, path, follow, o.links)
  }

  lemma {:induction false} StripAppend(p: string, q: string)
    ensures Strip(p + "/" + q) == if Strip(p) == "" then Strip(q) else Strip(p) + "/" + q
  {
    if p != "" && p[0] == '/' {
      assert (p + "/" + q)[1..] == p[1..] + "/" + q;
      StripAppend(p[1..], q);
    } else if p == "" {
      assert p + "/" + q == "/" + q && ("/" + q)[1..] == q;
    }
  }

  lemma {:induction false} ComponentAppend(p: string, q: string)
    ensures ComponentLength(p + "/" + q) == ComponentLength(p)
  {
    if p != "" && p[0] != '/' {
      assert (p + "/" + q)[1..] == p[1..] + "/" + q;
      ComponentAppend(p[1..], q);
    }
  }

  lemma {:induction false} ResolveStrip(fs: Fs, root: int, cur: int, p: string, q: string, follow: bool, count: nat)
    requires WellFormed(fs) && IsDir(fs, root) && cur in fs.nodes && Strip(p) == Strip(q)
    ensures Resolve(fs, root, cur, p, follow, count) == Resolve(fs, root, cur, q, follow, count)
  {}

  /** Resolving `p/q` is resolving `p`, which must give a directory, and `q` from there. */
  lemma {:induction false} ResolveAppend(fs: Fs, root: int, cur: int, p: string, q: string, follow: bool, count: nat)
    requires WellFormed(fs) && IsDir(fs, root) && IsDir(fs, cur)
    ensures Resolve(fs, root, cur, p + "/" + q, follow, count)
         == Onward(fs, root, Resolve(fs, root, cur, p, true, count), q, follow)
    decreases |p|
  {
    StripAppend(p, q);
    StripShortens(p);
    var s := Strip(p);
    if s == "" {
      ResolveStrip(fs, root, cur, p + "/" + q, q, follow, count);
    } else {
      var n := ComponentLength(s);
      var t := s + "/" + q;
      ComponentAppend(s, q);
      assert t[..n] == s[..n] && t[n..] == s[n..] + "/" + q && t[n..] != "";
      match EntryOf(fs, root, cur, s[..n]) {
        case Miss =>
        case Hit(node) =>
          var o := if !fs.nodes[node].Symlink? then Found(node, count)
            else if count >= MAXSYMLINKS then Failed(ELOOP)
            else Resolve(fs, root, if Absolute(fs.nodes[node].body) then root else cur, fs.nodes[node].body, true,
                count + 1);
          if o.Found? && IsDir(fs, o.node) {
            ResolveAppend(fs, root, o.node, s[n..], q, follow, o.links);
          }
      }
    }
  }

  function Fewer(o: Outcome, d: nat): Outcome
    requires o.Found? ==> d <= o.links
  {
    if o.Found? then Found(o.node, o.links - d) else o
  }

  /** What following the link `node` of the directory `cur` gives. */
  function FollowLink(fs: Fs, root: int, cur: int, node: int, count: nat): Outcome
    requires WellFormed(fs) && IsDir(fs, root) && cur in fs.nodes && node in fs.nodes && fs.nodes[node].Symlink?
  {
    var body := fs.nodes[node].body;
    if count >= MAXSYMLINKS then Failed(ELOOP)
    else Resolve(fs, root, if Absolute(body) then root else cur, body, true, count + 1)
  }

  /** What the first component of `s` gives. */
  function First(fs: Fs, root: int, cur: int, s: string, follow: bool, count: nat): (o: Outcome)
    requires WellFormed(fs) && IsDir(fs, root) && IsDir(fs, cur)
    ensures o.Found? ==> o.node in fs.nodes && count <= o.links
  {
    var n := ComponentLength(s);
    match EntryOf(fs, root, cur, s[..n])
    case Miss => Failed(ENOENT)
    case Hit(node) =>
      if !fs.nodes[node].Symlink? || (s[n..] == "" && !follow) then Found(node, count)
      else FollowLink(fs, root, cur, node, count)
  }

  lemma {:induction false} ResolveFirst(fs: Fs, root: int, cur: int, path: string, follow: bool, count: nat)
    requires WellFormed(fs) && IsDir(fs, root) && IsDir(fs, cur) && Strip(path) != ""
    ensures var s := Strip(path);
      var o := First(fs, root, cur, s, follow, count);
      Resolve(fs, root, cur, path, follow, count)
        == if s[ComponentLength(s)..] == "" then o else Onward(fs, root, o, s[ComponentLength(s)..], follow)
  {}

  lemma {:induction false} LinksBeforeFirst(fs: Fs, root: int, cur: int, s: string, follow: bool, count: nat, d: nat)
    requires WellFormed(fs) && IsDir(fs, root) && IsDir(fs, cur) && d <= count
    requires First(fs, root, cur, s, follow, count) != Failed(ELOOP)
    ensures First(fs, root, cur, s, follow, count - d) == Fewer(First(fs, root, cur, s, follow, count), d)
    decreases Budget(count), |s|, 0
  {
    var n := ComponentLength(s);
    var e := EntryOf(fs, root, cur, s[..n]);
    if e.Hit? && fs.nodes[e.node].Symlink? && !(s[n..] == "" && !follow) {
      var body := fs.nodes[e.node].body;
      LinksBefore(fs, root, if Absolute(body) then root else cur, body, true, count + 1, d);
    }
  }

  /** The links followed before matter only through the limit: without them the outcome is the
      same, unless it was `ELOOP`. */
  lemma {:induction false} LinksBefore(fs: Fs, root: int, cur: int, path: string, follow: bool, count: nat, d: nat)
    requires WellFormed(fs) && IsDir(fs, root) && cur in fs.nodes && d <= count
    requires Resolve(fs, root, cur, path, follow, count) != Failed(ELOOP)
    ensures Resolve(fs, root, cur, path, follow, count - d) == Fewer(Resolve(fs, root, cur, path, follow, count), d)
    decreases Budget(count), |path|, 1
  {
    var s := Strip(path);
    StripShortens(path);
    if s != "" && IsDir(fs, cur) {
      var n := ComponentLength(s);
      ResolveFirst(fs, root, cur, path, follow, count);
      ResolveFirst(fs, root, cur, path, follow, count - d);
      LinksBeforeFirst(fs, root, cur, s, follow, count, d);
      if s[n..] != "" {
        LinksBeforeRest(fs, root, First(fs, root, cur, s, follow, count), s[n..], follow, count, d);
      }
    }
  }

  lemma {:induction false} LinksBeforeRest(fs: Fs, root: int, o: Outcome, rest: string, follow: bool, count: nat,
      d: nat)
    requires WellFormed(fs) && IsDir(fs, root) && (o.Found? ==> o.node in fs.nodes && d <= count <= o.links)
    requires Onward(fs, root, o, rest, follow) != Failed(ELOOP)
    ensures Onward(fs, root, Fewer(o, d), rest, follow) == Fewer(Onward(fs, root, o, rest, follow), d)
    decreases Budget(count), |rest|, 2
  {
    if o.Found? && IsDir(fs, o.node) {
      LinksBefore(fs, root, o.node, rest, follow, o.links, d);
    }
  }

  // ---------------------------------------------------------------- all but the last component

  /** Where `link_path_walk` stops: in the directory `dir`, before the component `last`; an empty
      `last` says that there was no component at all. */
  datatype Stop = At(dir: int, last: string, rest: string, links: nat) | Lost(error: Error)

  /** A component that is not the last one: links are followed and a directory must result. */
  function Through(fs: Fs, root: int, cur: int, s: string, count: nat): (o: Outcome)
    requires WellFormed(fs) && IsDir(fs, root) && IsDir(fs, cur)
    ensures o.Found? ==> IsDir(fs, o.node) && count <= o.links
  {
    var o := First(fs, root, cur, s, true, count);
    if o.Found? && !IsDir(fs, o.node) then Failed(ENOTDIR) else o
  }

  /** `last` is the last component, followed by slashes only. */
  ghost predicate LastPart(last: string, rest: string) {
    Plain(last + rest) && ComponentLength(last + rest) == |last| && Strip(rest) == ""
  }

  lemma {:induction false} ResolveThrough(fs: Fs, root: int, cur: int, path: string, follow: bool, count: nat)
    requires WellFormed(fs) && IsDir(fs, root) && IsDir(fs, cur) && Strip(path) != ""
    requires Strip(path)[ComponentLength(Strip(path))..] != ""
    ensures var s := Strip(path);
      var o := Through(fs, root, cur, s, count);
      Resolve(fs, root, cur, path, follow, count)
        == if o.Failed? then o else Resolve(fs, root, o.node, s[ComponentLength(s)..], follow, o.links)
  {
    ResolveFirst(fs, root, cur, path, follow, count);
  }

  function ParentWalk(fs: Fs, root: int, cur: int, path: string, count: nat): (w: Stop)
    requires WellFormed(fs) && IsDir(fs, root) && IsDir(fs, cur)
    ensures w.At? ==> IsDir(fs, w.dir) && count <= w.links && (w.last != "" ==> LastPart(w.last, w.rest))
    decreases |path|
  {
    var s := Strip(path);
    StripShortens(path);
    if s == "" then At(cur, "", "", count)
    else
      var n := ComponentLength(s);
      if Strip(s[n..]) == "" then assert s[..n] + s[n..] == s; At(cur, s[..n], s[n..], count)
      else
        match Through(fs, root, cur, s, count)
        case Failed(e) => Lost(e)
        case Found(node, links) => ParentWalk(fs, root, node, s[n..], links)
  }

  /** Resolution is the walk to the parent and one last component. */
  lemma {:induction false} ParentThenLast(fs: Fs, root: int, cur: int, path: string, follow: bool, count: nat)
    requires WellFormed(fs) && IsDir(fs, root) && IsDir(fs, cur)
    ensures Resolve(fs, root, cur, path, follow, count) == AfterParent(fs, root,
        ParentWalk(fs, root, cur, path, count), follow)
    decreases |path|
  {
    var s := Strip(path);
    StripShortens(path);
    if s != "" {
      var n := ComponentLength(s);
      if Strip(s[n..]) == "" {
        assert s[..n] + s[n..] == s;
      } else {
        ResolveThrough(fs, root, cur, path, follow, count);
        var o := Through(fs, root, cur, s, count);
        if o.Found? {
          ParentThenLast(fs, root, o.node, s[n..], follow, o.links);
        }
      }
    }
  }

  function AfterParent(fs: Fs, root: int, w: Stop, follow: bool): Outcome
    requires WellFormed(fs) && IsDir(fs, root) && (w.At? ==> IsDir(fs, w.dir))
  {
    match w
    case Lost(e) => Failed(e)
    case At(dir, last, rest, links) => Resolve(fs, root, dir, last + rest, follow, links)
  }

  // ---------------------------------------------------------------- what the stack stands for

  /** The rest of a walk that is at `name` in directory `cur`, the names on the stack waiting. */
  function Pending(fs: Fs, root: int, cur: int, name: string, names: seq<string>, count: nat): Stop
    requires WellFormed(fs) && IsDir(fs, root) && IsDir(fs, cur)
    decreases |names|
  {
    if names == [] then ParentWalk(fs, root, cur, name, count)
    else
      var o := Resolve(fs, root, cur, name, true, count);
      if o.Failed? then Lost(o.error)
      else if !IsDir(fs, o.node) then Lost(ENOTDIR)
      else Pending(fs, root, o.node, names[|names| - 1], names[..|names| - 1], o.links)
  }

  function PendingAfter(fs: Fs, root: int, o: Outcome, names: seq<string>): Stop
    requires WellFormed(fs) && IsDir(fs, root) && names != []
  {
    if o.Failed? then Lost(o.error)
    else if !IsDir(fs, o.node) then Lost(ENOTDIR)
    else Pending(fs, root, o.node, names[|names| - 1], names[..|names| - 1], o.links)
  }

  lemma {:induction false} PendingStrip(fs: Fs, root: int, cur: int, name: string, names: seq<string>, count: nat)
    requires WellFormed(fs) && IsDir(fs, root) && IsDir(fs, cur)
    ensures Pending(fs, root, cur, name, names, count) == Pending(fs, root, cur, Strip(name), names, count)
  {
    StripShortens(name);
    ResolveStrip(fs, root, cur, name, Strip(name), true, count);
  }

  /** One component done, the walk goes on with the name on top of the stack. */
  lemma {:induction false} PendingFirst(fs: Fs, root: int, cur: int, name: string, names: seq<string>, count: nat)
    requires WellFormed(fs) && IsDir(fs, root) && IsDir(fs, cur) && name != "" && name[0] != '/'
    ensures var rest := Strip(name[ComponentLength(name)..]);
      rest != "" || names != [] ==>
        Pending(fs, root, cur, name, names, count)
          == PendingAfter(fs, root, Through(fs, root, cur, name, count), if rest == "" then names else names + [rest])
  {
    var rest := name[ComponentLength(name)..];
    var o := Through(fs, root, cur, name, count);
    ResolveFirst(fs, root, cur, name, true, count);
    if Strip(rest) != "" && o.Found? {
      PendingStrip(fs, root, o.node, rest, names, o.links);
    }
  }

  /** A name that has a component at its head. */
  predicate Plain(name: string) {
    name != "" && name[0] != '/'
  }

  ghost predicate AllPlain(names: seq<string>) {
    forall i :: 0 <= i < |names| ==> Plain(names[i])
  }

  /** What waits after one component is plain, and shorter than what waited before it. */
  lemma {:induction false} RestPlain(name: string, names: seq<string>)
    requires Plain(name) && AllPlain(names)
    ensures var rest := Strip(name[ComponentLength(name)..]);
      var names' := if rest == "" then names else names + [rest];
      AllPlain(names') && Chars(names') < |name| + Chars(names)
  {
    var rest := name[ComponentLength(name)..];
    StripShortens(rest);
    if Strip(rest) != "" {
      assert (names + [Strip(rest)])[..|names|] == names;
    }
  }

  function Chars(names: seq<string>): nat {
    if names == [] then 0 else Chars(names[..|names| - 1]) + |names[|names| - 1]|
  }

  // ---------------------------------------------------------------- the walker

  datatype LastType = LastNorm | LastRoot | LastDot | LastDotDot

  /** One slot of `nd->stack`: a link whose body is in use, and the name to go on with after it. */
  datatype Saved = Saved(link: int, name: string)

  /** What `walk_component` returns: `NULL`, an error, or the body of a link to go into. */
  datatype Walk = Done | Error(error: Error) | Body(name: string)

  datatype Status = Success | Fault(error: Error)

  datatype Answer = Ok(node: int) | Err(error: Error)

  /** `d` asks for a directory (`LOOKUP_DIRECTORY`). */
  function Demand(fs: Fs, d: bool, o: Outcome): Outcome {
    if d && o.Found? && !IsDir(fs, o.node) then Failed(ENOTDIR) else o
  }

  /** The effect of `pick_link` on a link with this body in the directory `cur`. */
  ghost predicate Picked(root: int, cur: int, body: string, count: nat, w: Walk, path: int, count': nat) {
    if count >= MAXSYMLINKS then w == Error(ELOOP)
    else
      path == (if Absolute(body) then root else cur) && count' == count + 1
      && w == if Strip(body) == "" then Done else Body(Strip(body))
  }

  /** The effect of `walk_component` on the component `last` of directory `cur`: what it
      returns, where it leaves `nd->path` and `nd->total_link_count`. */
  ghost predicate Walked(fs: Fs, root: int, cur: int, last: string, followed: bool, count: nat, w: Walk, path: int,
      count': nat)
    requires WellFormed(fs) && IsDir(fs, root) && IsDir(fs, cur)
  {
    true == (match EntryOf(fs, root, cur, last)
    case Miss => w == Error(ENOENT)
    case Hit(node) =>
      if !fs.nodes[node].Symlink? || !followed then w == Done && path == node && count' == count
      else Picked(root, cur, fs.nodes[node].body, count, w, path, count'))
  }

  /** `walk_component` against what the first component of `s` gives. */
  lemma {:induction false} WalkedFirst(fs: Fs, root: int, cur: int, s: string, follow: bool, count: nat, w: Walk,
      path: int, count': nat)
    requires WellFormed(fs) && IsDir(fs, root) && IsDir(fs, cur)
    requires var n := ComponentLength(s);
      Walked(fs, root, cur, s[..n], s[n..] != "" || follow, count, w, path, count')
    ensures var o := First(fs, root, cur, s, follow, count);
      match w
      case Error(e) => o == Failed(e)
      case Done => path in fs.nodes && o == Found(path, count') && count' >= count
      case Body(link) =>
        IsDir(fs, path) && Plain(link) && count' == count + 1 && count < MAXSYMLINKS
        && o == Resolve(fs, root, path, link, true, count')
  {
    var e := EntryOf(fs, root, cur, s[..ComponentLength(s)]);
    if e.Hit? && fs.nodes[e.node].Symlink? && count < MAXSYMLINKS {
      var body := fs.nodes[e.node].body;
      StripShortens(body);
      ResolveStrip(fs, root, if Absolute(body) then root else cur, body, Strip(body), true, count + 1);
    }
  }

  /** `walk_component` does what the pending walk asks for. */
  lemma {:induction false} WalkedPending(fs: Fs, root: int, cur: int, name: string, count: nat, w: Walk, path: int,
      count': nat, names: seq<string>)
    requires WellFormed(fs) && IsDir(fs, root) && IsDir(fs, cur) && names != []
    requires Walked(fs, root, cur, name[..ComponentLength(name)], true, count, w, path, count')
    ensures !w.Error? ==>
        count' >= count
        && (w.Body? ==> count' > count && Budget(count') < Budget(count) && Plain(w.name) && IsDir(fs, path))
    ensures PendingAfter(fs, root, Through(fs, root, cur, name, count), names)
      == match w
         case Error(e) => Lost(e)
         case Body(link) => if IsDir(fs, path) then Pending(fs, root, path, link, names, count') else Lost(ENOTDIR)
         case Done => PendingAfter(fs, root, Found(path, count'), names)
  {
    WalkedFirst(fs, root, cur, name, true, count, w, path, count');
  }

  /** The last component: slashes after it ask for a directory. */
  lemma {:induction false} ResolveLast(fs: Fs, root: int, dir: int, last: string, rest: string, follow: bool,
      directory: bool, count: nat)
    requires WellFormed(fs) && IsDir(fs, root) && IsDir(fs, dir) && LastPart(last, rest)
    ensures Demand(fs, directory, Resolve(fs, root, dir, last + rest, follow, count))
      == Demand(fs, directory || rest != "", First(fs, root, dir, last + rest, follow, count))
  {
    var s := last + rest;
    assert Strip(s) == s && s[|last|..] == rest;
    ResolveFirst(fs, root, dir, s, follow, count);
  }

  /** A trailing slash is as good as asking for a directory with links followed. */
  lemma {:induction false} TrailingSlash(fs: Fs, root: int, dir: int, last: string, rest: string, follow: bool,
      directory: bool, count: nat)
    requires WellFormed(fs) && IsDir(fs, root) && IsDir(fs, dir) && LastPart(last, rest) && rest != ""
    ensures Demand(fs, directory, Resolve(fs, root, dir, last + rest, follow, count))
      == Demand(fs, true, Resolve(fs, root, dir, last + rest, true, count))
  {
    ResolveLast(fs, root, dir, last, rest, follow, directory, count);
    ResolveLast(fs, root, dir, last, rest, true, true, count);
    assert (last + rest)[|last|..] == rest;
  }

  /** The effect of `walk_component` on the last component, in terms of resolution. */
  lemma {:induction false} WalkedLast(fs: Fs, root: int, dir: int, last: string, rest: string, follow: bool,
      directory: bool, count: nat, w: Walk, path: int, count': nat)
    requires WellFormed(fs) && IsDir(fs, root) && IsDir(fs, dir) && LastPart(last, rest)
    requires (rest != "" ==> (follow && directory) || last in {".", ".."})
    requires Walked(fs, root, dir, last, follow, count, w, path, count')
    ensures var want := Demand(fs, directory, Resolve(fs, root, dir, last + rest, follow, count));
      match w
      case Error(e) => want == Failed(e)
      case Done => path in fs.nodes && want == Demand(fs, directory, Found(path, count'))
      case Body(s) =>
          IsDir(fs, path) && Budget(count') < Budget(count)
          && want == Demand(fs, directory, Resolve(fs, root, path, s, true, count'))
  {
    ResolveLast(fs, root, dir, last, rest, follow, directory, count);
    var s := last + rest;
    assert s[..|last|] == last && s[|last|..] == rest;
    WalkedFirst(fs, root, dir, s, follow, count, w, path, count');
  }

  /** The meaning of one lookup from directory `start`. */
  function Lookup(fs: Fs, root: int, start: int, name: string, follow: bool, directory: bool, count: nat): Answer
    requires WellFormed(fs) && IsDir(fs, root) && start in fs.nodes
  {
    match Demand(fs, directory, Resolve(fs, root, if Absolute(name) then root else start, name, follow, count))
    case Found(node, _) => Ok(node)
    case Failed(e) => Err(e)
  }

  ghost function Links(s: seq<Saved>): seq<int> {
    seq(|s|, i requires 0 <= i < |s| => s[i].link)
  }

  ghost function Names(s: seq<Saved>): seq<string> {
    seq(|s|, i requires 0 <= i < |s| => s[i].name)
  }

  lemma {:induction false} Shorter(a: seq<Saved>, b: seq<Saved>, d: nat, e: nat)
    requires d <= e <= |a| && e <= |b| && a[..e] == b[..e]
    ensures a[..d] == b[..d]
  {
    assert a[..d] == a[..e][..d] && b[..d] == b[..e][..d];
  }

  lemma {:induction false} OneLess(s: seq<Saved>, i: nat)
    requires i < |s|
    ensures multiset(Links(s[i..])) - multiset{s[i].link} == multiset(Links(s[i + 1..]))
  {
    assert Links(s[i..]) == [s[i].link] + Links(s[i + 1..]);
  }

  /** The names on the stack, and `rest` above them unless it is empty. */
  ghost function Waiting(s: seq<Saved>, rest: string): seq<string> {
    if rest == "" then Names(s) else Names(s) + [rest]
  }

  lemma {:induction false} TopName(s: seq<Saved>)
    requires s != []
    ensures Names(s) == Names(s[..|s| - 1]) + [s[|s| - 1].name]
  {}

  class NameiData {
    const fs: Fs
    const root: int
    const internal: array<Saved>
    var stack: array<Saved>
    var depth: nat
    var path: int
    var last: string
    var lastRest: string
    var lastType: LastType
    var follow: bool
    var directory: bool
    var totalLinks: nat
    /** References held on link dentries. */
    var refs: multiset<int>

    ghost predicate Valid()
      reads this, stack
    {
      true == (WellFormed(fs) && IsDir(fs, root) && path in fs.nodes
      && internal.Length == EMBEDDED_LEVELS
      && (if stack == internal then depth <= EMBEDDED_LEVELS else stack.Length == MAXSYMLINKS)
      && depth <= totalLinks && depth <= MAXSYMLINKS
      && refs == multiset(Links(stack[..depth])))
    }

    /** `nd_alloc_stack`, an allocation that succeeds. */
    method AllocStack()
      requires Valid() && stack == internal && depth == EMBEDDED_LEVELS
      modifies this`stack
      ensures Valid() && fresh(stack) && stack.Length == MAXSYMLINKS && stack[..depth] == old(stack[..depth])
    {
      var p := new Saved[MAXSYMLINKS](i requires 0 <= i reads this, internal => if i < internal.Length then internal[i]
          else Saved(0, ""));
      assert p[..depth] == stack[..depth];
      stack := p;
    }

    /** `put_link`. */
    method PutLink()
      requires Valid() && depth > 0
      modifies this`depth, this`refs
      ensures Valid() && depth == old(depth) - 1
    {
      assert Links(stack[..depth]) == Links(stack[..depth - 1]) + [stack[depth - 1].link];
      depth := depth - 1;
      refs := refs - multiset{stack[depth].link};
    }

    /** With the last component of a link body the link is done with. */
    method LeaveLink(more: bool)
      requires Valid()
      modifies this`depth, this`refs
      ensures Valid() && depth == if !more && old(depth) > 0 then old(depth) - 1 else old(depth)
    {
      if !more && depth > 0 {
        PutLink();
      }
    }

    /** `reserve_stack`. */
    method ReserveStack() returns (ok: bool)
      requires Valid()
      modifies this`totalLinks, this`stack
      ensures Valid() && totalLinks == old(totalLinks) + 1 && ok == (old(totalLinks) < MAXSYMLINKS)
      ensures (stack == old(stack) || fresh(stack)) && stack[..depth] == old(stack[..depth])
      ensures (ok ==> depth < stack.Length && depth < totalLinks)
    {
      totalLinks := totalLinks + 1;
      if totalLinks - 1 >= MAXSYMLINKS {
        return false;
      }
      if depth != EMBEDDED_LEVELS {
        return true;
      }
      if stack != internal {
        return true;
      }
      AllocStack();
      return true;
    }

    /** Records the link in the slot that `reserve_stack` made available. */
    method HoldLink(link: int)
      requires Valid() && depth < stack.Length && depth < totalLinks && depth < MAXSYMLINKS
      modifies this`depth, this`refs, stack
      ensures Valid() && depth == old(depth) + 1 && stack[..old(depth)] == old(stack[..depth])
    {
      stack[depth] := stack[depth].(link := link);
      depth := depth + 1;
      refs := refs + multiset{link};
      assert Links(stack[..depth]) == Links(stack[..depth - 1]) + [link];
    }

    /** `pick_link`, called with a symbolic link. */
    method PickLink(link: int) returns (w: Walk)
      requires Valid() && link in fs.nodes && fs.nodes[link].Symlink?
      modifies this`totalLinks, this`stack, this`depth, this`refs, this`path, stack
      ensures Valid() && (stack == old(stack) || fresh(stack)) && stack[..old(depth)] == old(stack[..depth])
      ensures depth == old(depth) + if w.Body? then 1 else 0
      ensures Picked(root, old(path), fs.nodes[link].body, old(totalLinks), w, path, totalLinks)
    {
      var ok := ReserveStack();
      if !ok {
        return Error(ELOOP);
      }
      HoldLink(link);
      var res := fs.nodes[link].body;
      if res != "" && res[0] == '/' {
        path := root;
        res := res[1..];
        while res != "" && res[0] == '/'
          invariant Strip(res) == Strip(fs.nodes[link].body)
          decreases |res|
        {
          res := res[1..];
        }
      }
      if res != "" {
        return Body(res);
      }
      PutLink();
      return Done;
    }

    /** `step_into` on a dentry that exists or, with `entry == Miss`, is negative. */
    method StepInto(trailing: bool, nofollow: bool, entry: Entry) returns (w: Walk)
      requires Valid() && (entry.Hit? ==> entry.node in fs.nodes)
      modifies this`totalLinks, this`stack, this`depth, this`refs, this`path, stack
      ensures Valid() && (stack == old(stack) || fresh(stack)) && stack[..old(depth)] == old(stack[..depth])
      ensures depth == old(depth) + if w.Body? then 1 else 0
      ensures entry.Miss? ==> w == Error(ENOENT)
      ensures entry.Hit? && (!fs.nodes[entry.node].Symlink? || (trailing && !follow) || nofollow) ==>
        w == Done && path == entry.node && totalLinks == old(totalLinks)
      ensures entry.Hit? && fs.nodes[entry.node].Symlink? && (!trailing || follow) && !nofollow ==>
        Picked(root, old(path), fs.nodes[entry.node].body, old(totalLinks), w, path, totalLinks)
    {
      if entry.Miss? {
        return Error(ENOENT);
      }
      if !fs.nodes[entry.node].Symlink? || (trailing && !follow) || nofollow {
        path := entry.node;
        return Done;
      }
      w := PickLink(entry.node);
    }

    /** `handle_dots`. */
    method HandleDots() returns (w: Walk)
      requires Valid() && lastType != LastNorm && (lastType == LastDotDot ==> IsDir(fs, path))
      modifies this`totalLinks, this`stack, this`depth, this`refs, this`path, stack
      ensures Valid() && (stack == old(stack) || fresh(stack)) && stack[..depth] == old(stack[..depth])
      ensures depth == old(depth) && totalLinks == old(totalLinks) && w == Done
      ensures path == if lastType == LastDotDot then Parent(fs, root, old(path)) else old(path)
    {
      if lastType == LastDotDot {
        if path == root || path == fs.top {
          w := StepInto(false, true, Hit(path));
        } else {
          w := StepInto(false, true, Hit(fs.nodes[path].parent));
        }
        return;
      }
      return Done;
    }

    /** `last_type` says what `last` is. */
    ghost predicate LastOk()
      reads this`last, this`lastType
    {
      true == ((lastType == LastNorm ==> last !in {".", ".."})
      && (lastType == LastDot ==> last == ".")
      && (lastType == LastDotDot ==> last == ".."))
    }

    /** `walk_component`. */
    method WalkComponent(trailing: bool, more: bool) returns (w: Walk)
      requires Valid() && LastOk() && (lastType != LastRoot ==> IsDir(fs, path))
      modifies this`totalLinks, this`stack, this`depth, this`refs, this`path, stack
      ensures Valid() && (stack == old(stack) || fresh(stack))
      ensures var d := if !more && old(depth) > 0 then old(depth) - 1 else old(depth);
        d <= stack.Length && stack[..d] == old(stack[..d]) && (!w.Error? ==> depth == d + if w.Body? then 1 else 0)
      ensures lastType == LastRoot ==> w == Done && path == old(path) && totalLinks == old(totalLinks)
      ensures lastType != LastRoot ==>
        Walked(fs, root, old(path), last, !trailing || follow, old(totalLinks), w, path, totalLinks)
    {
      if lastType != LastNorm {
        LeaveLink(more);
        w := HandleDots();
        return;
      }
      var dentry := if last in fs.nodes[path].entries then Hit(fs.nodes[path].entries[last]) else Miss;
      LeaveLink(more);
      w := StepInto(trailing, false, dentry);
    }

    /** The length that `hash_name` finds: up to the next slash or the end. */
    static method HashName(name: string) returns (len: nat)
      ensures len == ComponentLength(name)
    {
      len := 0;
      while len < |name| && name[len] != '/'
        invariant len <= |name| && ComponentLength(name) == len + ComponentLength(name[len..])
      {
        assert name[len..][1..] == name[len + 1..];
        len := len + 1;
      }
    }

    static method SkipSlashes(name: string) returns (rest: string)
      ensures rest == Strip(name)
    {
      rest := name;
      while rest != "" && rest[0] == '/'
        invariant Strip(rest) == Strip(name)
        decreases |rest|
      {
        rest := rest[1..];
      }
    }

    /** Reads the component at the head of `name0`; `name` is what follows. */
    method ReadComponent(name0: string) returns (name: string)
      requires name0 != "" && name0[0] != '/'
      modifies this`last, this`lastRest, this`lastType
      ensures var n := ComponentLength(name0);
        last == name0[..n] && lastRest == name0[n..] && name == Strip(name0[n..]) && last != ""
      ensures LastOk() && lastType != LastRoot
    {
      var len := HashName(name0);
      lastType := LastNorm;
      if name0[0] == '.' {
        if len == 2 {
          if name0[1] == '.' {
            lastType := LastDotDot;
          }
        } else if len == 1 {
          lastType := LastDot;
        }
      }
      last, lastRest := name0[..len], name0[len..];
      name := SkipSlashes(lastRest);
    }

    /** A component that is not the last: `rest` follows it, or the name on top of the stack. */
    method PassComponent(rest: string, d0: nat) returns (w: Walk, next: string, d: nat)
      requires Valid() && LastOk() && lastType != LastRoot && IsDir(fs, path) && d0 <= depth && (rest != "" || d0 > 0)
      modifies this`totalLinks, this`stack, this`depth, this`refs, this`path, stack
      ensures Valid() && (stack == old(stack) || fresh(stack)) && d <= stack.Length
      ensures Walked(fs, root, old(path), last, true, old(totalLinks), w, path, totalLinks)
      ensures !w.Error? ==> depth == old(depth) - d0 + d + if w.Body? then 1 else 0
      ensures Names(stack[..d]) + [next] == Waiting(old(stack[..d0]), rest)
    {
      next, d := rest, d0;
      ghost var held, before, kept := stack[..d0], stack[..], if rest == "" && depth > 0 then depth - 1 else depth;
      if rest == "" {
        d := d0 - 1;
        next := stack[d].name;
        TopName(held);
      }
      assert Names(held[..d]) + [next] == Waiting(held, rest) && held[..d] == before[..d];
      w := WalkComponent(false, rest != "");
      assert stack[..][..kept] == before[..kept];
      Shorter(stack[..], before, d, kept);
    }

    /** One round of `link_path_walk` at `name0`, with `d0` names waiting: the walk is over, or a
        component has been taken, `next` is what to go on with and `d` names wait below it. */
    method TakeComponent(name0: string, d0: nat) returns (over: bool, w: Walk, next: string, d: nat)
      requires Valid() && IsDir(fs, path) && Plain(name0) && d0 <= depth
      modifies this`last, this`lastRest, this`lastType, this`totalLinks, this`stack, this`depth, this`refs, this`path,
          stack
      ensures Valid() && LastOk() && lastType != LastRoot && (stack == old(stack) || fresh(stack)) && d <= stack.Length
      ensures var n := ComponentLength(name0);
        last == name0[..n] && lastRest == name0[n..] && last != "" && (over <==> Strip(name0[n..]) == "" && d0 == 0)
      ensures over ==> path == old(path) && totalLinks == old(totalLinks) && depth == old(depth) && stack == old(stack)
      ensures !over ==> Walked(fs, root, old(path), last, true, old(totalLinks), w, path, totalLinks)
      ensures !over && !w.Error? ==> depth == old(depth) - d0 + d + if w.Body? then 1 else 0
      ensures !over ==>
        Names(stack[..d]) + [next] == Waiting(old(stack[..d0]), Strip(name0[ComponentLength(name0)..]))
    {
      var rest := ReadComponent(name0);
      over := rest == "" && d0 == 0;
      if over {
        w, next, d := Done, rest, d0;
      } else {
        w, next, d := PassComponent(rest, d0);
      }
    }

    method PushName(next: string, d: nat)
      requires Valid() && d < depth
      modifies stack
      ensures Valid() && Names(stack[..d + 1]) == old(Names(stack[..d])) + [next]
    {
      ghost var links := Links(stack[..depth]);
      stack[d] := stack[d].(name := next);
      assert Links(stack[..depth]) == links;
    }

    /** In `link_path_walk` at `name` with `d` names waiting, `want` still to come. */
    ghost predicate Walking(name: string, d: nat, want: Stop)
      reads this, stack
    {
      true == (Valid() && IsDir(fs, path) && Plain(name) && d <= depth && AllPlain(Names(stack[..d]))
      && Pending(fs, root, path, name, Names(stack[..d]), totalLinks) == want)
    }

    ghost function Remaining(name: string, d: nat): nat
      requires d <= stack.Length
      reads this, stack
    {
      |name| + Chars(Names(stack[..d]))
    }

    /** What follows `walk_component` in the loop of `link_path_walk`. */
    method GoOn(w: Walk, next: string, d0: nat, ghost want: Stop) returns (e: Status, name: string, d: nat)
      requires !w.Error? && d0 <= stack.Length && Midway(w, next, d0, want)
      modifies stack
      ensures Valid() && (e.Fault? ==> want == Lost(e.error))
      ensures e.Success? ==> Walking(name, d, want) && d == if w.Body? then d0 + 1 else d0
      ensures e.Success? && w.Done? ==> Remaining(name, d) == Chars(old(Names(stack[..d0])) + [next])
    {
      ghost var names := Names(stack[..d0]) + [next];
      if w.Body? {
        PushName(next, d0);
        d := d0 + 1;
        name := w.name;
      } else {
        if !IsDir(fs, path) {
          return Fault(ENOTDIR), next, d0;
        }
        assert Names(stack[..d0]) == names[..|names| - 1];
        name, d := next, d0;
      }
      e := Success;
    }

    /** What `walk_component` returned, and what is then left of `want`. */
    ghost predicate Midway(w: Walk, next: string, d: nat, want: Stop)
      requires d <= stack.Length
      reads this, stack
    {
      true == (Valid()
      && if w.Error? then want == Lost(w.error)
        else
          var names := Names(stack[..d]) + [next];
          AllPlain(names)
          && if w.Body? then d < depth && Plain(w.name) && IsDir(fs, path)
                             && want == Pending(fs, root, path, w.name, names, totalLinks)
             else d <= depth && want == PendingAfter(fs, root, Found(path, totalLinks), names))
    }

    method Advance(name: string, d: nat, ghost want: Stop) returns (over: bool, w: Walk, next: string, d': nat)
      requires Walking(name, d, want)
      modifies this`last, this`lastRest, this`lastType, this`totalLinks, this`stack, this`depth, this`refs, this`path,
          stack
      ensures Valid() && LastOk() && lastType != LastRoot && (stack == old(stack) || fresh(stack)) && d' <= stack.Length
      ensures over ==> d == 0 && depth == old(depth) && last != "" && want == At(path, last, lastRest, totalLinks)
      ensures !over && !w.Error? ==>
        depth == old(depth) - d + d' + (if w.Body? then 1 else 0) && Budget(totalLinks) <= old(Budget(totalLinks))
      ensures !over ==> Midway(w, next, d', want)
      ensures !over && w.Body? ==> Budget(totalLinks) < old(Budget(totalLinks))
      ensures !over && w.Done? ==> Chars(Names(stack[..d']) + [next]) < old(Remaining(name, d))
    {
      ghost var names, cur, count := Names(stack[..d]), path, totalLinks;
      PendingFirst(fs, root, path, name, names, totalLinks);
      RestPlain(name, names);
      over, w, next, d' := TakeComponent(name, d);
      if !over {
        WalkedPending(fs, root, cur, name, count, w, path, totalLinks, Names(stack[..d']) + [next]);
      }
    }

    method Proceed(name: string, d: nat, ghost want: Stop) returns (over: bool, e: Status, name': string, d': nat)
      requires Walking(name, d, want)
      modifies this`last, this`lastRest, this`lastType, this`totalLinks, this`stack, this`depth, this`refs, this`path,
          stack
      ensures Valid() && LastOk() && lastType != LastRoot && (stack == old(stack) || fresh(stack))
      ensures e.Fault? ==> want == Lost(e.error)
      ensures over && e.Success? ==>
        d == 0 && depth == old(depth) && last != "" && want == At(path, last, lastRest, totalLinks)
      ensures !over && e.Success? ==> Walking(name', d', want) && depth - d' == old(depth) - d
      ensures !over && e.Success? && Budget(totalLinks) >= old(Budget(totalLinks)) ==>
        Budget(totalLinks) == old(Budget(totalLinks)) && Remaining(name', d') < old(Remaining(name, d))
    {
      var w;
      over, w, name', d' := Advance(name, d, want);
      if over {
        e := Success;
      } else if w.Error? {
        e := Fault(w.error);
      } else {
        e, name', d' := GoOn(w, name', d', want);
      }
    }

    /** `link_path_walk` of a name with at least one component. */
    method WalkNames(name0: string) returns (e: Status)
      requires Valid() && IsDir(fs, path) && Plain(name0)
      modifies this`last, this`lastRest, this`lastType, this`totalLinks, this`stack, this`depth, this`refs, this`path,
          stack
      ensures Valid() && LastOk() && (stack == old(stack) || fresh(stack)) && lastType != LastRoot
      ensures var w := ParentWalk(fs, root, old(path), name0, old(totalLinks));
        if e.Success? then w == At(path, last, lastRest, totalLinks) && depth == old(depth) && last != ""
        else w == Lost(e.error)
    {
      var name, d: nat := name0, 0;
      ghost var want := ParentWalk(fs, root, path, name0, totalLinks);
      while true
        invariant Walking(name, d, want) && (stack == old(stack) || fresh(stack)) && depth == d + old(depth)
        decreases Budget(totalLinks), Remaining(name, d)
      {
        var over;
        over, e, name, d := Proceed(name, d, want);
        if over || e.Fault? {
          return;
        }
      }
    }

    /** `link_path_walk`: ends where `ParentWalk` ends. */
    method LinkPathWalk(name: string) returns (e: Status)
      requires Valid() && (Strip(name) != "" ==> IsDir(fs, path))
      modifies this, stack
      ensures Valid() && LastOk() && (stack == old(stack) || fresh(stack)) && follow == old(follow)
      ensures directory == old(directory)
      ensures Strip(name) == "" ==>
          e == Success && lastType == LastRoot && path == old(path) && totalLinks == old(totalLinks)
          && depth == old(depth)
      ensures Strip(name) != "" ==> lastType != LastRoot
      ensures var w := if Strip(name) == "" then At(0, "", "", 0)
          else ParentWalk(fs, root, old(path), name, old(totalLinks));
        Strip(name) != "" ==>
          if e.Success? then w == At(path, last, lastRest, totalLinks) && depth == old(depth) && last != ""
          else w == Lost(e.error)
    {
      lastType := LastRoot;
      var s := SkipSlashes(name);
      if s == "" {
        return Success;
      }
      StripShortens(name);
      PendingStrip(fs, root, path, name, [], totalLinks);
      e := WalkNames(s);
    }

    /** Slashes after the last component, which ask for a directory. */
    method HeedSlashes(ghost want: Outcome)
      requires AtLast(want)
      modifies this`follow, this`directory
      ensures AtLast(want) && (lastType == LastNorm && lastRest != "" ==> follow && directory)
      ensures !(lastType == LastNorm && lastRest != "") ==> follow == old(follow) && directory == old(directory)
    {
      if lastType == LastNorm && lastRest != "" {
        TrailingSlash(fs, root, path, last, lastRest, follow, directory, totalLinks);
        follow, directory := true, true;
      }
    }

    /** `lookup_last`. */
    method LookupLast(ghost want: Outcome) returns (w: Walk)
      requires AtLast(want)
      modifies this`follow, this`directory, this`totalLinks, this`stack, this`depth, this`refs, this`path, stack
      ensures Valid() && (stack == old(stack) || fresh(stack))
      ensures w.Error? ==> want == Failed(w.error)
      ensures w.Done? ==> want == Demand(fs, directory, Found(path, totalLinks))
      ensures w.Body? ==> Seeking(w.name, want) && Budget(totalLinks) < old(Budget(totalLinks))
    {
      HeedSlashes(want);
      ghost var cur, count := path, totalLinks;
      w := WalkLast();
      LastWalked(cur, count, w, want);
    }

    /** What `walk_component` has done with the last component, taken from `cur` after `count` links. */
    ghost predicate LastTaken(cur: int, count: nat, w: Walk)
      requires WellFormed(fs) && IsDir(fs, root)
      reads this
    {
      true == (if lastType == LastRoot then w == Done && path == cur && totalLinks == count
      else IsDir(fs, cur) && Walked(fs, root, cur, last, follow, count, w, path, totalLinks))
    }

    method WalkLast() returns (w: Walk)
      requires Valid() && LastOk() && (lastType != LastRoot ==> IsDir(fs, path))
      modifies this`totalLinks, this`stack, this`depth, this`refs, this`path, stack
      ensures Valid() && (stack == old(stack) || fresh(stack)) && LastTaken(old(path), old(totalLinks), w)
    {
      w := WalkComponent(true, false);
    }

    /** What `walk_component` says about `want` when it has taken the last component from `cur`. */
    lemma LastWalked(cur: int, count: nat, w: Walk, want: Outcome)
      requires Valid() && LastOk() && cur in fs.nodes && Sought(cur, count, want)
      requires lastType == LastNorm && lastRest != "" ==> follow && directory
      requires LastTaken(cur, count, w)
      ensures w.Error? ==> want == Failed(w.error)
      ensures w.Done? ==> want == Demand(fs, directory, Found(path, totalLinks))
      ensures w.Body? ==> Seeking(w.name, want) && Budget(totalLinks) < Budget(count)
    {
      if lastType != LastRoot {
        WalkedLast(fs, root, cur, last, lastRest, follow, directory, count, w, path, totalLinks);
      }
    }

    /** `terminate_walk`: every link still held is let go. */
    method TerminateWalk()
      requires Valid()
      modifies this`depth, this`refs
      ensures Valid() && depth == 0 && refs == multiset{}
    {
      ghost var held := stack[..depth];
      var i: nat := 0;
      assert held[i..] == held;
      while i < depth
        invariant i <= depth == old(depth) && refs == multiset(Links(held[i..]))
      {
        OneLess(held, i);
        refs := refs - multiset{stack[i].link};
        i := i + 1;
      }
      depth := 0;
      assert Links(stack[..0]) == [] == Links(held[i..]);
    }

    /** `want` is still to be found, by resolving `name` from where the walk is. */
    ghost predicate Seeking(name: string, want: Outcome)
      reads this, stack
    {
      true == (Valid() && (Strip(name) != "" ==> IsDir(fs, path))
      && want == Demand(fs, directory, Resolve(fs, root, path, name, follow, totalLinks)))
    }

    /** `want` is still to be found, by taking the last component. */
    ghost predicate AtLast(want: Outcome)
      reads this, stack
    {
      Valid() && LastOk() && Sought(path, totalLinks, want)
    }

    /** `want` is what the last component, taken from `cur` after `count` links, leads to. */
    ghost predicate Sought(cur: int, count: nat, want: Outcome)
      requires WellFormed(fs) && IsDir(fs, root) && cur in fs.nodes
      reads this`last, this`lastType, this`lastRest, this`follow, this`directory
    {
      true == ((lastType != LastRoot ==> IsDir(fs, cur) && LastPart(last, lastRest))
      && want == Demand(fs, directory, if lastType == LastRoot then Found(cur, count)
           else Resolve(fs, root, cur, last + lastRest, follow, count)))
    }

    method FindLast(name: string, ghost want: Outcome) returns (e: Status)
      requires Seeking(name, want)
      modifies this, stack
      ensures Valid() && (stack == old(stack) || fresh(stack))
      ensures (e.Success? ==> Budget(totalLinks) <= old(Budget(totalLinks)))
      ensures if e.Fault? then want == Failed(e.error) else AtLast(want)
    {
      ghost var cur, count := path, totalLinks;
      e := LinkPathWalk(name);
      if Strip(name) != "" {
        ParentThenLast(fs, root, cur, name, follow, count);
      }
    }

    /** The loop of `path_lookupat` over a name and the bodies of trailing links. */
    method LookupLoop(name: string, ghost want: Outcome) returns (e: Status)
      requires Seeking(name, want)
      modifies this, stack
      ensures Valid()
      ensures if e.Success? then want == Demand(fs, directory, Found(path, totalLinks)) else want == Failed(e.error)
    {
      var s := name;
      while true
        invariant Seeking(s, want) && (stack == old(stack) || fresh(stack))
        decreases Budget(totalLinks)
      {
        e := FindLast(s, want);
        if e.Fault? {
          return;
        }
        var w := LookupLast(want);
        if w.Error? {
          return Fault(w.error);
        }
        if w.Done? {
          return;
        }
        s := w.name;
      }
    }

    /** `path_lookupat`, with `path_init` and `terminate_walk`: the answer is the recursive
        definition's, and no link stays held. */
    method PathLookupAt(name: string, start: int, follow0: bool, directory0: bool) returns (a: Answer)
      requires Valid() && depth == 0 && start in fs.nodes
      modifies this, stack
      ensures Valid() && depth == 0 && refs == multiset{}
      ensures a == Lookup(fs, root, start, name, follow0, directory0, old(totalLinks))
    {
      follow, directory := follow0, directory0;
      var e := Success;
      if name != "" && name[0] == '/' {
        path := root;
      } else {
        path := start;
        if name != "" && !IsDir(fs, path) {
          e := Fault(ENOTDIR);
        }
      }
      ghost var want := Demand(fs, directory, Resolve(fs, root, path, name, follow, totalLinks));
      assert e.Fault? ==> want == Failed(e.error);
      if e.Success? {
        e := LookupLoop(name, want);
      }
      if e.Success? && directory && !IsDir(fs, path) {
        e := Fault(ENOTDIR);
      }
      a := if e.Success? then Ok(path) else Err(e.error);
      TerminateWalk();
    }

    /** `set_nameidata`; `count` links were followed in an enclosing lookup. */
    constructor (fs: Fs, root: int, count: nat)
      requires WellFormed(fs) && IsDir(fs, root)
      ensures Valid() && depth == 0 && this.fs == fs && this.root == root && totalLinks == count && fresh(stack)
    {
      var slots := new Saved[EMBEDDED_LEVELS](_ => Saved(0, ""));
      this.fs, this.root, internal, stack := fs, root, slots, slots;
      depth, path, totalLinks, refs := 0, root, count, multiset{};
      last, lastRest, lastType, follow, directory := "", "", LastRoot, false, false;
    }
  }
}
