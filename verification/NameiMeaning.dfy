/** What a pathname means, said once more without the functions of the walk: a list of components is worked off one by
    one, and the body of a link takes the place of the link. `Resolve` and `Lookup` answer exactly that. */
module NameiMeaning {

  import opened Namei

  // ---------------------------------------------------------------- components

  /** The pieces between the slashes. */
  function Split(path: string): (pieces: seq<string>)
    ensures |pieces| > 0
  {
    if path == "" then [""]
    else
      var pieces := Split(path[1..]);
      if path[0] == '/' then [""] + pieces else [[path[0]] + pieces[0]] + pieces[1..]
  }

  function Named(pieces: seq<string>): (names: seq<string>)
    ensures "" !in names
  {
    if pieces == [] then [] else if pieces[0] == "" then Named(pieces[1..]) else [pieces[0]] + Named(pieces[1..])
  }

  /** It ends in a slash. */
  predicate Slashed(path: string) {
    path != "" && path[|path| - 1] == '/'
  }

  /** The components; a slash behind the last one asks for what a dot would ask for. */
  function Components(path: string): seq<string> {
    var names := Named(Split(path));
    if names != [] && Slashed(path) then names + ["."] else names
  }

  // ---------------------------------------------------------------- the meaning

  /** Where a resolution has come to: the node, the components to come, the links followed. */
  datatype Place = Place(at: int, todo: seq<string>, links: nat)

  /** One component is taken. */
  ghost predicate Moves(fs: Fs, root: int, follow: bool, p: Place, q: Place) {
    p.todo != [] && IsDir(fs, p.at) && var name, rest := p.todo[0], p.todo[1..];
    if name == "." then q == Place(p.at, rest, p.links)
    else if name == ".." then
      q == Place(if p.at in {root, fs.top} then p.at else fs.nodes[p.at].parent, rest, p.links)
    else
      name in fs.nodes[p.at].entries && var node := fs.nodes[p.at].entries[name];
      node in fs.nodes &&
      if fs.nodes[node].Symlink? && (rest != [] || follow) then
        p.links < 40 && Enters(root, p, fs.nodes[node].body, q)
      else q == Place(node, rest, p.links)
  }

  /** A link is followed, from the root if its body begins with a slash, else from where it is. */
  ghost predicate Enters(root: int, p: Place, body: string, q: Place)
    requires p.todo != []
  {
    q == Place(if "/" <= body then root else p.at, Components(body) + p.todo[1..], p.links + 1)
  }

  /** Why it does not go on. */
  ghost predicate Stuck(fs: Fs, follow: bool, p: Place, e: Error) {
    p.todo != []
    && if !IsDir(fs, p.at) then e == ENOTDIR
       else
         p.todo[0] !in {".", ".."}
         && if p.todo[0] !in fs.nodes[p.at].entries then e == ENOENT
            else
              var node := fs.nodes[p.at].entries[p.todo[0]];
              node in fs.nodes && fs.nodes[node].Symlink? && (|p.todo| > 1 || follow) && p.links >= 40 && e == ELOOP
  }

  ghost predicate Steps(fs: Fs, root: int, follow: bool, p: Place, q: Place, n: nat)
    decreases n
  {
    if n == 0 then p == q else exists r :: Moves(fs, root, follow, p, r) && Steps(fs, root, follow, r, q, n - 1)
  }

  ghost predicate Final(fs: Fs, follow: bool, q: Place, o: Outcome) {
    match o
    case Found(node, links) => q == Place(node, [], links)
    case Failed(e) => Stuck(fs, follow, q, e)
  }

  /** Resolution from `p` comes to an end, with that outcome. */
  ghost predicate Ends(fs: Fs, root: int, follow: bool, p: Place, o: Outcome) {
    exists q, n :: Steps(fs, root, follow, p, q, n) && Final(fs, follow, q, o)
  }

  // ---------------------------------------------------------------- it has one end at most

  lemma {:induction false} OneMove(fs: Fs, root: int, follow: bool, p: Place, q: Place, r: Place)
    requires Moves(fs, root, follow, p, q) && Moves(fs, root, follow, p, r)
    ensures q == r
  {}

  lemma {:induction false} FinalStays(fs: Fs, root: int, follow: bool, p: Place, o: Outcome)
    requires Final(fs, follow, p, o)
    ensures forall q :: !Moves(fs, root, follow, p, q)
  {}

  lemma {:induction false} OneFinal(fs: Fs, follow: bool, p: Place, o: Outcome, o': Outcome)
    requires Final(fs, follow, p, o) && Final(fs, follow, p, o')
    ensures o == o'
  {}

  lemma {:induction false} OneEnd(fs: Fs, root: int, follow: bool, p: Place, q: Place, n: nat, o: Outcome, q': Place,
      n': nat, o': Outcome)
    requires Steps(fs, root, follow, p, q, n) && Final(fs, follow, q, o)
    requires Steps(fs, root, follow, p, q', n') && Final(fs, follow, q', o')
    ensures o == o'
    decreases n
  {
    if n > 0 && n' > 0 {
      var r :| Moves(fs, root, follow, p, r) && Steps(fs, root, follow, r, q, n - 1);
      var r' :| Moves(fs, root, follow, p, r') && Steps(fs, root, follow, r', q', n' - 1);
      OneMove(fs, root, follow, p, r, r');
      OneEnd(fs, root, follow, r, q, n - 1, o, q', n' - 1, o');
    } else if n > 0 {
      FinalStays(fs, root, follow, p, o');
    } else if n' > 0 {
      FinalStays(fs, root, follow, p, o);
    } else {
      OneFinal(fs, follow, p, o, o');
    }
  }

  lemma {:induction false} StepsOn(fs: Fs, root: int, follow: bool, p: Place, q: Place, n: nat, r: Place, m: nat)
    requires Steps(fs, root, follow, p, q, n) && Steps(fs, root, follow, q, r, m)
    ensures Steps(fs, root, follow, p, r, n + m)
    decreases n
  {
    if n > 0 {
      var x :| Moves(fs, root, follow, p, x) && Steps(fs, root, follow, x, q, n - 1);
      StepsOn(fs, root, follow, x, q, n - 1, r, m);
    }
  }

  lemma {:induction false} StepsFirst(fs: Fs, root: int, follow: bool, p: Place, q: Place, r: Place, m: nat)
    requires Moves(fs, root, follow, p, q) && Steps(fs, root, follow, q, r, m)
    ensures Steps(fs, root, follow, p, r, m + 1)
  {}

  // ---------------------------------------------------------------- components as the walk splits them off

  lemma {:induction false} NoPiece()
    ensures Named(Split("")) == []
  {
    assert Split("") == [""] && [""][1..] == [];
  }

  lemma {:induction false} SlashFirst(path: string)
    requires path != "" && path[0] == '/'
    ensures Named(Split(path)) == Named(Split(path[1..])) && Components(path) == Components(path[1..])
  {
    var pieces := Split(path[1..]);
    assert ([""] + pieces)[1..] == pieces;
    if path[1..] == "" {
      NoPiece();
    }
  }

  lemma {:induction false} SplitStrip(path: string)
    ensures Named(Split(path)) == Named(Split(Strip(path))) && Components(path) == Components(Strip(path))
    ensures Strip(path) == "" ==> Components(path) == []
  {
    if path == "" {
      NoPiece();
    } else if path[0] == '/' {
      SlashFirst(path);
      SplitStrip(path[1..]);
    }
  }

  lemma {:induction false} SplitFirst(s: string)
    ensures var n := ComponentLength(s);
      Split(s)[0] == s[..n] && Split(s)[1..] == if n < |s| then Split(s[n + 1..]) else []
  {
    if s != "" {
      if s[0] == '/' {
        assert Split(s)[1..] == Split(s[1..]);
      } else {
        SplitFirst(s[1..]);
        SplitLater(s, Split(s[1..]), ComponentLength(s[1..]));
      }
    }
  }

  lemma {:induction false} SplitLater(s: string, pieces: seq<string>, n: nat)
    requires s != "" && n <= |s| - 1 && pieces != [] && pieces[0] == s[1..][..n]
    ensures ([[s[0]] + pieces[0]] + pieces[1..])[1..] == pieces[1..] && [s[0]] + pieces[0] == s[..n + 1]
    ensures n < |s| - 1 ==> s[1..][n + 1..] == s[n + 2..]
  {}

  /** The first component and what follows it. */
  function After(rest: string): seq<string> {
    if rest == "" then [] else if Strip(rest) == "" then ["."] else Components(rest)
  }

  lemma {:induction false} ComponentsFirst(s: string)
    requires s != "" && s[0] != '/'
    ensures Components(s) == [s[..ComponentLength(s)]] + After(s[ComponentLength(s)..])
  {
    var n := ComponentLength(s);
    SplitFirst(s);
    assert Named(Split(s)) == [s[..n]] + Named(Split(s)[1..]);
    if s[n..] == "" {
      SlashFree(s);
    } else {
      ComponentEnds(s);
      RestNamed(s, n);
      SplitStrip(s[n..]);
    }
  }

  lemma {:induction false} RestNamed(s: string, n: nat)
    requires n < |s| && s[n] == '/'
    ensures Named(Split(s[n..])) == Named(Split(s[n + 1..])) && Slashed(s[n..]) == Slashed(s)
    ensures Strip(s[n..]) == "" ==> Slashed(s) && Named(Split(s[n + 1..])) == []
    ensures Strip(s[n..]) != "" ==> Named(Split(s[n + 1..])) != []
  {
    var rest := s[n..];
    assert rest[1..] == s[n + 1..] && Split(rest)[1..] == Split(rest[1..]);
    assert rest[|rest| - 1] == s[|s| - 1];
    if Strip(rest) == "" {
      AllSlashes(rest);
    } else {
      SplitStrip(rest);
      StripShortens(rest);
      SplitFirst(Strip(rest));
    }
  }

  lemma {:induction false} ComponentEnds(s: string)
    ensures ComponentLength(s) < |s| ==> s[ComponentLength(s)] == '/'
  {
    if s != "" && s[0] != '/' {
      ComponentEnds(s[1..]);
    }
  }

  lemma {:induction false} SlashFree(s: string)
    requires ComponentLength(s) == |s|
    ensures '/' !in s
  {
    if s != "" {
      SlashFree(s[1..]);
      assert s == [s[0]] + s[1..];
    }
  }

  lemma {:induction false} AllSlashes(s: string)
    requires Strip(s) == "" && s != ""
    ensures Slashed(s) && Named(Split(s)) == []
  {
    assert Split(s)[1..] == Split(s[1..]);
    if s[1..] == "" {
      assert Split(s[1..]) == [""] && Named([""]) == [];
    } else {
      AllSlashes(s[1..]);
    }
  }

  // ---------------------------------------------------------------- Resolve has that meaning

  lemma {:induction false} AfterSome(rest: string)
    ensures After(rest) == [] <==> rest == ""
  {
    if Strip(rest) != "" {
      StripShortens(rest);
      SplitStrip(rest);
      ComponentsFirst(Strip(rest));
    }
  }

  /** From `p` the components before `more` are worked off, with that outcome. */
  ghost predicate Comes(fs: Fs, root: int, follow: bool, p: Place, o: Outcome, more: seq<string>) {
    exists q, n :: Steps(fs, root, follow, p, q, n) && Arrives(fs, follow, o, more, q)
  }

  ghost predicate Arrives(fs: Fs, follow: bool, o: Outcome, more: seq<string>, q: Place) {
    match o
    case Found(node, links) => q == Place(node, more, links)
    case Failed(e) => Stuck(fs, follow, q, e)
  }

  lemma {:induction false} ComesAtOnce(fs: Fs, root: int, follow: bool, p: Place, o: Outcome, more: seq<string>)
    requires Arrives(fs, follow, o, more, p)
    ensures Comes(fs, root, follow, p, o, more)
  {
    assert Steps(fs, root, follow, p, p, 0);
  }

  lemma {:induction false} ComesNext(fs: Fs, root: int, follow: bool, p: Place, r: Place, o: Outcome,
      more: seq<string>)
    requires Moves(fs, root, follow, p, r) && Comes(fs, root, follow, r, o, more)
    ensures Comes(fs, root, follow, p, o, more)
  {
    var q, n :| Steps(fs, root, follow, r, q, n) && Arrives(fs, follow, o, more, q);
    StepsFirst(fs, root, follow, p, r, q, n);
  }

  lemma {:induction false} ComesOn(fs: Fs, root: int, follow: bool, p: Place, o: Outcome, more: seq<string>,
      o': Outcome, more': seq<string>)
    requires Comes(fs, root, follow, p, o, more) && o.Found?
    requires Comes(fs, root, follow, Place(o.node, more, o.links), o', more')
    ensures Comes(fs, root, follow, p, o', more')
  {
    var q, n :| Steps(fs, root, follow, p, q, n) && Arrives(fs, follow, o, more, q);
    var q', n' :| Steps(fs, root, follow, q, q', n') && Arrives(fs, follow, o', more', q');
    StepsOn(fs, root, follow, p, q, n, q', n');
  }

  lemma {:induction false} ComesNowhere(fs: Fs, root: int, follow: bool, p: Place, o: Outcome, more: seq<string>,
      more': seq<string>)
    requires Comes(fs, root, follow, p, o, more) && o.Failed?
    ensures Comes(fs, root, follow, p, o, more')
  {
    var q, n :| Steps(fs, root, follow, p, q, n) && Arrives(fs, follow, o, more, q);
    assert Arrives(fs, follow, o, more', q);
  }

  /** What the walk finds under the next component is where the place moves. */
  lemma {:induction false} HitMoves(fs: Fs, root: int, follow: bool, p: Place, name: string, todo: seq<string>,
      e: Entry)
    requires WellFormed(fs) && IsDir(fs, p.at) && p.todo == [name] + todo && e == EntryOf(fs, root, p.at, name)
    ensures e.Miss? ==> Stuck(fs, follow, p, ENOENT)
    ensures e.Hit? ==> e.node in fs.nodes
    ensures e.Hit? && (!fs.nodes[e.node].Symlink? || (todo == [] && !follow)) ==>
      Moves(fs, root, follow, p, Place(e.node, todo, p.links))
    ensures e.Hit? && fs.nodes[e.node].Symlink? && (todo != [] || follow) && p.links >= MAXSYMLINKS ==>
      Stuck(fs, follow, p, ELOOP)
    ensures e.Hit? && fs.nodes[e.node].Symlink? && (todo != [] || follow) && p.links < MAXSYMLINKS ==>
      Enters(root, p, fs.nodes[e.node].body, Inside(root, p, fs.nodes[e.node].body, todo))
      && Moves(fs, root, follow, p, Inside(root, p, fs.nodes[e.node].body, todo))
  {
    assert p.todo[1..] == todo;
  }

  function Inside(root: int, p: Place, body: string, todo: seq<string>): Place {
    Place(if Absolute(body) then root else p.at, Components(body) + todo, p.links + 1)
  }

  /** Resolution carries the place over the components of `path` to those behind them. */
  lemma {:induction false} Carries(fs: Fs, root: int, cur: int, path: string, follow: bool, count: nat,
      more: seq<string>)
    requires WellFormed(fs) && IsDir(fs, root) && cur in fs.nodes
    ensures Comes(fs, root, follow, Place(cur, Components(path) + more, count),
        Resolve(fs, root, cur, path, follow || more != [], count), more)
    decreases Budget(count), |path|, 3
  {
    var s := Strip(path);
    StripShortens(path);
    SplitStrip(path);
    var p := Place(cur, Components(path) + more, count);
    if s == "" {
      assert Components(path) + more == more;
      ComesAtOnce(fs, root, follow, p, Found(cur, count), more);
    } else {
      ComponentsFirst(s);
      var rest := s[ComponentLength(s)..];
      assert Components(path) + more == [s[..ComponentLength(s)]] + (After(rest) + more);
      if !IsDir(fs, cur) {
        ComesAtOnce(fs, root, follow, p, Failed(ENOTDIR), more);
      } else {
        ResolveFirst(fs, root, cur, path, follow || more != [], count);
        CarriesBoth(fs, root, cur, s, follow, count, more);
      }
    }
  }

  lemma {:induction false} CarriesBoth(fs: Fs, root: int, cur: int, s: string, follow: bool, count: nat,
      more: seq<string>)
    requires WellFormed(fs) && IsDir(fs, root) && IsDir(fs, cur) && s != "" && s[0] != '/'
    ensures var rest := s[ComponentLength(s)..];
      var o := First(fs, root, cur, s, follow || more != [], count);
      Comes(fs, root, follow, Place(cur, [s[..ComponentLength(s)]] + (After(rest) + more), count),
        if rest == "" then o else Onward(fs, root, o, rest, follow || more != []), more)
    decreases Budget(count), |s|, 2
  {
    var k := ComponentLength(s);
    var rest := s[k..];
    var p := Place(cur, [s[..k]] + (After(rest) + more), count);
    var o := First(fs, root, cur, s, follow || more != [], count);
    CarriesFirst(fs, root, cur, s, follow, count, more);
    if o.Failed? {
      ComesNowhere(fs, root, follow, p, o, After(rest) + more, more);
    } else if rest == "" {
      assert After(rest) + more == more;
    } else {
      FirstLinks(fs, root, cur, s, follow || more != [], count);
      CarriesRest(fs, root, o.node, rest, follow, o.links, more);
      ComesOn(fs, root, follow, p, o, After(rest) + more, Onward(fs, root, o, rest, follow || more != []), more);
    }
  }

  lemma {:induction false} FirstLinks(fs: Fs, root: int, cur: int, s: string, follow: bool, count: nat)
    requires WellFormed(fs) && IsDir(fs, root) && IsDir(fs, cur)
    ensures var o := First(fs, root, cur, s, follow, count);
      o.Found? ==> o.node in fs.nodes && Budget(o.links) <= Budget(count)
  {}

  lemma {:induction false} CarriesFirst(fs: Fs, root: int, cur: int, s: string, follow: bool, count: nat,
      more: seq<string>)
    requires WellFormed(fs) && IsDir(fs, root) && IsDir(fs, cur) && s != "" && s[0] != '/'
    ensures var k := ComponentLength(s);
      var todo := After(s[k..]) + more;
      Comes(fs, root, follow, Place(cur, [s[..k]] + todo, count),
        First(fs, root, cur, s, follow || more != [], count), todo)
    decreases Budget(count), |s|, 0
  {
    var k := ComponentLength(s);
    var todo := After(s[k..]) + more;
    var p, e := Place(cur, [s[..k]] + todo, count), EntryOf(fs, root, cur, s[..k]);
    AfterSome(s[k..]);
    HitMoves(fs, root, follow, p, s[..k], todo, e);
    if e.Miss? {
      ComesAtOnce(fs, root, follow, p, Failed(ENOENT), todo);
    } else if !fs.nodes[e.node].Symlink? || (todo == [] && !follow) {
      var q := Place(e.node, todo, count);
      ComesAtOnce(fs, root, follow, q, Found(e.node, count), todo);
      ComesNext(fs, root, follow, p, q, Found(e.node, count), todo);
    } else if count >= MAXSYMLINKS {
      ComesAtOnce(fs, root, follow, p, Failed(ELOOP), todo);
    } else {
      CarriesLink(fs, root, p, e.node, follow, todo);
    }
  }

  lemma {:induction false} CarriesLink(fs: Fs, root: int, p: Place, node: int, follow: bool, todo: seq<string>)
    requires WellFormed(fs) && IsDir(fs, root) && p.at in fs.nodes && node in fs.nodes && fs.nodes[node].Symlink?
    requires p.links < MAXSYMLINKS && (todo != [] || follow)
    requires Moves(fs, root, follow, p, Inside(root, p, fs.nodes[node].body, todo))
    ensures Comes(fs, root, follow, p, FollowLink(fs, root, p.at, node, p.links), todo)
    decreases Budget(p.links), 0, 0
  {
    var body := fs.nodes[node].body;
    var r := Inside(root, p, body, todo);
    Carries(fs, root, r.at, body, follow, p.links + 1, todo);
    ComesNext(fs, root, follow, p, r, Resolve(fs, root, r.at, body, true, p.links + 1), todo);
  }

  lemma {:induction false} CarriesRest(fs: Fs, root: int, cur: int, rest: string, follow: bool, count: nat,
      more: seq<string>)
    requires WellFormed(fs) && IsDir(fs, root) && cur in fs.nodes && rest != ""
    ensures Comes(fs, root, follow, Place(cur, After(rest) + more, count),
        Onward(fs, root, Found(cur, count), rest, follow || more != []), more)
    decreases Budget(count), |rest|, 4
  {
    AfterSome(rest);
    var p := Place(cur, After(rest) + more, count);
    if !IsDir(fs, cur) {
      ComesAtOnce(fs, root, follow, p, Failed(ENOTDIR), more);
    } else if Strip(rest) == "" {
      var q := Place(cur, more, count);
      HitMoves(fs, root, follow, p, ".", more, Hit(cur));
      ComesAtOnce(fs, root, follow, q, Found(cur, count), more);
      ComesNext(fs, root, follow, p, q, Found(cur, count), more);
    } else {
      Carries(fs, root, cur, rest, follow, count, more);
    }
  }

  /** Resolution has an outcome exactly if the components can be worked off to that end. */
  lemma {:induction false} ResolveMeans(fs: Fs, root: int, cur: int, path: string, follow: bool, count: nat, o: Outcome)
    requires WellFormed(fs) && IsDir(fs, root) && cur in fs.nodes
    ensures Resolve(fs, root, cur, path, follow, count) == o
      <==> Ends(fs, root, follow, Place(cur, Components(path), count), o)
  {
    var p := Place(cur, Components(path), count);
    Carries(fs, root, cur, path, follow, count, []);
    assert Components(path) + [] == Components(path);
    var r := Resolve(fs, root, cur, path, follow, count);
    var q, n :| Steps(fs, root, follow, p, q, n) && Arrives(fs, follow, r, [], q);
    assert Final(fs, follow, q, r);
    if Ends(fs, root, follow, p, o) {
      var q', n' :| Steps(fs, root, follow, p, q', n') && Final(fs, follow, q', o);
      OneEnd(fs, root, follow, p, q, n, r, q', n', o);
    }
  }

  /** What a lookup answers, by that meaning. */
  ghost predicate Answers(fs: Fs, root: int, start: int, name: string, follow: bool, directory: bool, count: nat,
      a: Answer)
  {
    var p := Place(if "/" <= name then root else start, Components(name), count);
    exists o :: Ends(fs, root, follow, p, o) && Says(fs, directory, o, a)
  }

  ghost predicate Says(fs: Fs, directory: bool, o: Outcome, a: Answer) {
    match o
    case Found(node, _) => a == if directory && !IsDir(fs, node) then Err(ENOTDIR) else Ok(node)
    case Failed(e) => a == Err(e)
  }

  /** The answer of `path_lookupat` is the one that the pathname means, and no other. */
  lemma {:induction false} LookupMeans(fs: Fs, root: int, start: int, name: string, follow: bool, directory: bool,
      count: nat, a: Answer)
    requires WellFormed(fs) && IsDir(fs, root) && start in fs.nodes
    ensures Lookup(fs, root, start, name, follow, directory, count) == a
      <==> Answers(fs, root, start, name, follow, directory, count, a)
  {
    var at := if "/" <= name then root else start;
    assert "/" <= name <==> Absolute(name);
    var p := Place(at, Components(name), count);
    var r := Resolve(fs, root, at, name, follow, count);
    ResolveMeans(fs, root, at, name, follow, count, r);
    if Answers(fs, root, start, name, follow, directory, count, a) {
      var o :| Ends(fs, root, follow, p, o) && Says(fs, directory, o, a);
      ResolveMeans(fs, root, at, name, follow, count, o);
    } else {
      assert !Says(fs, directory, r, a);
    }
  }

  // ---------------------------------------------------------------- some pathnames

  /** A name of one component. */
  ghost predicate Simple(name: string) {
    name != "" && '/' !in name && name != "." && name != ".."
  }

  lemma {:induction false} SimpleLength(s: string)
    requires '/' !in s
    ensures ComponentLength(s) == |s| && Strip(s) == s
  {
    if s != "" {
      SimpleLength(s[1..]);
    }
  }

  /** The name of something else than a link. */
  lemma {:induction false} NameIsNode(fs: Fs, root: int, cur: int, name: string, follow: bool, count: nat)
    requires WellFormed(fs) && IsDir(fs, root) && IsDir(fs, cur) && Simple(name) && name in fs.nodes[cur].entries
    requires !fs.nodes[fs.nodes[cur].entries[name]].Symlink?
    ensures Resolve(fs, root, cur, name, follow, count) == Found(fs.nodes[cur].entries[name], count)
  {
    SimpleLength(name);
    assert name[..|name|] == name;
  }

  /** `..` leads from a directory back to where its name is, */
  lemma {:induction false} DownAndUp(fs: Fs, root: int, cur: int, name: string, follow: bool, count: nat)
    requires WellFormed(fs) && IsDir(fs, root) && IsDir(fs, cur) && Simple(name) && name in fs.nodes[cur].entries
    requires var d := fs.nodes[cur].entries[name];
      IsDir(fs, d) && fs.nodes[d].parent == cur && d != root && d != fs.top
    ensures Resolve(fs, root, cur, name + "/" + "..", follow, count) == Found(cur, count)
  {
    NameIsNode(fs, root, cur, name, true, count);
    SimpleLength("..");
    ResolveAppend(fs, root, cur, name, "..", follow, count);
    assert ".."[..2] == "..";
  }

  /** and stays at the root of the process and at that of the mount. */
  lemma {:induction false} UpAtRoot(fs: Fs, root: int, cur: int, follow: bool, count: nat)
    requires WellFormed(fs) && IsDir(fs, root) && IsDir(fs, cur) && (cur == root || cur == fs.top)
    ensures Resolve(fs, root, cur, "..", follow, count) == Found(cur, count)
  {
    SimpleLength("..");
    assert ".."[..2] == "..";
  }

  /** A link to be followed is its body, from the root or from the directory of the link. */
  lemma {:induction false} LinkIsBody(fs: Fs, root: int, cur: int, name: string, count: nat)
    requires WellFormed(fs) && IsDir(fs, root) && IsDir(fs, cur) && Simple(name) && name in fs.nodes[cur].entries
    requires fs.nodes[fs.nodes[cur].entries[name]].Symlink?
    ensures var body := fs.nodes[fs.nodes[cur].entries[name]].body;
      Resolve(fs, root, cur, name, true, count)
        == if count >= 40 then Failed(ELOOP)
           else Resolve(fs, root, if "/" <= body then root else cur, body, true, count + 1)
  {
    SimpleLength(name);
    assert name[..|name|] == name;
    var body := fs.nodes[fs.nodes[cur].entries[name]].body;
    assert "/" <= body <==> Absolute(body);
  }

  /** In `cur` each name is that of a link to the next, and the last is that of something else. */
  ghost predicate Chain(fs: Fs, cur: int, names: seq<string>) {
    true == (names != [] && IsDir(fs, cur)
    && (forall i :: 0 <= i < |names| ==> Names(fs, cur, names[i]))
    && (forall i :: 0 <= i < |names| - 1 ==> Target(fs, cur, names[i]) == Symlink(names[i + 1]))
    && !Target(fs, cur, names[|names| - 1]).Symlink?)
  }

  ghost predicate Names(fs: Fs, cur: int, name: string) {
    IsDir(fs, cur) && Simple(name) && name in fs.nodes[cur].entries && fs.nodes[cur].entries[name] in fs.nodes
  }

  ghost function Target(fs: Fs, cur: int, name: string): Inode
    requires Names(fs, cur, name)
  {
    fs.nodes[fs.nodes[cur].entries[name]]
  }

  lemma {:induction false} LinkIsNext(fs: Fs, root: int, cur: int, name: string, next: string, count: nat)
    requires WellFormed(fs) && IsDir(fs, root) && Names(fs, cur, name) && Names(fs, cur, next)
    requires Target(fs, cur, name) == Symlink(next)
    ensures Resolve(fs, root, cur, name, true, count)
      == if count >= 40 then Failed(ELOOP) else Resolve(fs, root, cur, next, true, count + 1)
  {
    LinkIsBody(fs, root, cur, name, count);
    assert next[0] != '/';
  }

  lemma {:induction false} ChainFrom(fs: Fs, root: int, cur: int, names: seq<string>, i: nat, count: nat)
    requires WellFormed(fs) && IsDir(fs, root) && Chain(fs, cur, names) && i < |names|
    ensures var last, n := fs.nodes[cur].entries[names[|names| - 1]], count + |names| - 1 - i;
      Resolve(fs, root, cur, names[i], true, count)
        == if n <= 40 || i == |names| - 1 then Found(last, n) else Failed(ELOOP)
    decreases |names| - i
  {
    if i == |names| - 1 {
      NameIsNode(fs, root, cur, names[i], true, count);
    } else {
      ChainFrom(fs, root, cur, names, i + 1, count + 1);
      ChainStep(fs, root, cur, names, i, i + 1, count);
    }
  }

  lemma {:induction false} ChainStep(fs: Fs, root: int, cur: int, names: seq<string>, i: nat, j: nat, count: nat)
    requires WellFormed(fs) && IsDir(fs, root) && Chain(fs, cur, names) && j == i + 1 < |names|
    ensures Resolve(fs, root, cur, names[i], true, count)
      == if count >= 40 then Failed(ELOOP) else Resolve(fs, root, cur, names[j], true, count + 1)
  {
    assert Target(fs, cur, names[i]) == Symlink(names[i + 1]);
    LinkIsNext(fs, root, cur, names[i], names[j], count);
  }

  /** A chain of links is followed to its end if it has 40 links at most, those followed before included. */
  lemma {:induction false} ChainEnds(fs: Fs, root: int, cur: int, names: seq<string>, count: nat)
    requires WellFormed(fs) && IsDir(fs, root) && Chain(fs, cur, names) && |names| > 1
    ensures var last, n := fs.nodes[cur].entries[names[|names| - 1]], count + |names| - 1;
      Resolve(fs, root, cur, names[0], true, count) == if n <= 40 then Found(last, n) else Failed(ELOOP)
  {
    ChainFrom(fs, root, cur, names, 0, count);
  }
}
