/** `_lsTree(ctx, baseDirPfn, haltAtBottom)` of bin/MSStandalone/MSUnmerged/init.py:
    a depth-first, pre-order listing of a storage namespace through a gfal2
    context. The context is replaced by a finite table of the replies its
    `stat` and `listdir` give for each path string; a path the table does not
    hold is answered with ENOENT. */
module StorageWalk {

  /** errno.ENOENT */
  const ENOENT := 2

  /** What `ctx.stat(path)` gives: the kind of the entry or a GError code. */
  datatype StatReply = StatOk(isDir: bool) | StatErr(code: int)

  /** What `ctx.listdir(path)` gives: the entry names in the storage's order, or a GError code. */
  datatype ListReply = ListOk(entries: seq<string>) | ListErr(code: int)

  datatype Storage = Storage(stat: map<string, StatReply>, listdir: map<string, ListReply>)

  /** An exception that leaves `_lsTree`: a GError raised by `listdir`, or the
      IndexError of `baseDirPfn[-1]` on an empty base. */
  datatype Failure = GError(code: int, path: string) | IndexError

  /** The list `_lsTree` returns, or the exception it raises. */
  datatype Outcome = Listed(paths: seq<string>) | Raised(failure: Failure)

  function Stat(fs: Storage, p: string): StatReply
  {
    if p in fs.stat then fs.stat[p] else StatErr(ENOENT)
  }

  function ListDir(fs: Storage, p: string): ListReply
  {
    if p in fs.listdir then fs.listdir[p] else ListErr(ENOENT)
  }

  /** No directory listing holds an empty name. A storage that did would make
      `_lsTree` call itself on the same path for ever. */
  predicate NamesNonEmpty(fs: Storage)
  {
    forall p | p in fs.listdir && fs.listdir[p].ListOk? :: NonEmptyNames(fs.listdir[p].entries)
  }

  predicate NonEmptyNames(names: seq<string>)
  {
    forall k | 0 <= k < |names| :: names[k] != ""
  }

  /** The paths the storage knows that are longer than n characters: the
      measure that shrinks as the walk goes down. */
  function Deeper(fs: Storage, n: nat): set<string>
  {
    set q | q in fs.stat && |q| > n
  }

  /** The base with a trailing slash added when it lacks one. */
  function Slashed(base: string): (dir: string)
    requires base != ""
    ensures IsPathPrefix(base, dir) && dir[|dir| - 1] == '/'
    ensures |dir| <= |base| + 1
    ensures base[|base| - 1] == '/' ==> dir == base
    ensures base[|base| - 1] != '/' ==> dir == base + "/"
  {
    if base[|base| - 1] != '/' then base + "/" else base
  }

  predicate IsPathPrefix(p: string, s: string)
  {
    |p| <= |s| && s[..|p|] == p
  }

  /** The entries `_lsTree` passes over without a stat call. */
  predicate IsDotName(name: string)
  {
    name == "." || name == ".."
  }

  /** Puts the paths already collected in front of what the rest of the walk returns. */
  function Prefixed(ps: seq<string>, o: Outcome): Outcome
  {
    match o
    case Listed(qs) => Listed(ps + qs)
    case Raised(e) => Raised(e)
  }

  /** The listing of `base`, as `_lsTree` computes it. */
  function Walk(fs: Storage, base: string, halt: bool): Outcome
    requires NamesNonEmpty(fs)
    decreases Deeper(fs, |base|), 1, 0
  {
    match Stat(fs, base)
    case StatErr(_) => Listed([])
    case StatOk(isDir) =>
      if !isDir then Listed([base])
      else if base == "" then Raised(IndexError)
      else
        var dir := Slashed(base);
        match ListDir(fs, dir)
        case ListErr(code) => Raised(GError(code, dir))
        case ListOk(names) =>
          assert Deeper(fs, |dir|) <= Deeper(fs, |base|);
          WalkEntries(fs, dir, names, halt)
  }

  /** The loop over the entries of one directory listing. */
  function WalkEntries(fs: Storage, dir: string, names: seq<string>, halt: bool): Outcome
    requires NamesNonEmpty(fs) && NonEmptyNames(names)
    decreases Deeper(fs, |dir|), 0, |names|
  {
    if names == [] then Listed([])
    else if IsDotName(names[0]) then WalkEntries(fs, dir, names[1..], halt)
    else
      var child := dir + names[0];
      match Stat(fs, child)
      case StatErr(_) => WalkEntries(fs, dir, names[1..], halt)
      case StatOk(isDir) =>
        if isDir then
          DeeperShrinks(fs, dir, child);
          match Walk(fs, child, false)
          case Raised(e) => Raised(e)
          case Listed(sub) => Prefixed([child] + sub, WalkEntries(fs, dir, names[1..], halt))
        else if halt then Listed([child])
        else Prefixed([child], WalkEntries(fs, dir, names[1..], halt))
  }

  lemma DeeperShrinks(fs: Storage, dir: string, child: string)
    requires child in fs.stat && |child| > |dir|
    ensures Deeper(fs, |child|) < Deeper(fs, |dir|)
  {
    assert child in Deeper(fs, |dir|) && child !in Deeper(fs, |child|);
  }

  lemma PrefixedTwice(a: seq<string>, b: seq<string>, o: Outcome)
    ensures Prefixed(a, Prefixed(b, o)) == Prefixed(a + b, o)
  {
    if o.Listed? {
      assert a + (b + o.paths) == (a + b) + o.paths;
    }
  }

  /** `_lsTree` itself: the stat of the base, the trailing slash, the listdir,
      and the loop that appends each child and extends the list with the
      subtree of each child directory. */
  method LsTree(fs: Storage, baseDirPfn: string, haltAtBottom: bool) returns (r: Outcome)
    requires NamesNonEmpty(fs)
    ensures r == Walk(fs, baseDirPfn, haltAtBottom)
    ensures Stat(fs, baseDirPfn).StatErr? ==> r == Listed([])
    ensures Stat(fs, baseDirPfn) == StatOk(false) ==> r == Listed([baseDirPfn])
    ensures Stat(fs, baseDirPfn) == StatOk(true) && baseDirPfn != "" && ListDir(fs, Slashed(baseDirPfn)).ListErr?
            ==> r == Raised(GError(ListDir(fs, Slashed(baseDirPfn)).code, Slashed(baseDirPfn)))
    decreases Deeper(fs, |baseDirPfn|), 1
  {
    var dirList: seq<string> := [];
    var entryStat := Stat(fs, baseDirPfn);
    if entryStat.StatErr? {
      return Listed(dirList);
    }
    if !entryStat.isDir {
      dirList := dirList + [baseDirPfn];
      return Listed(dirList);
    }
    if baseDirPfn == "" {
      return Raised(IndexError);
    }
    var dir := baseDirPfn;
    if dir[|dir| - 1] != '/' {
      dir := dir + "/";
    }
    var listing := ListDir(fs, dir);
    if listing.ListErr? {
      return Raised(GError(listing.code, dir));
    }
    var names := listing.entries;
    assert Deeper(fs, |dir|) <= Deeper(fs, |baseDirPfn|);
    var i := 0;
    while i < |names|
      invariant 0 <= i <= |names|
      invariant WalkEntries(fs, dir, names, haltAtBottom)
                == Prefixed(dirList, WalkEntries(fs, dir, names[i..], haltAtBottom))
    {
      var name := names[i];
      assert names[i..][1..] == names[i + 1..];
      i := i + 1;
      if IsDotName(name) {
        continue;
      }
      var child := dir + name;
      var childStat := Stat(fs, child);
      if childStat.StatErr? {
        continue;
      }
      if childStat.isDir {
        DeeperShrinks(fs, dir, child);
        var sub := LsTree(fs, child, false);
        if sub.Raised? {
          return sub;
        }
        PrefixedTwice(dirList, [child] + sub.paths, WalkEntries(fs, dir, names[i..], haltAtBottom));
        dirList := dirList + ([child] + sub.paths);
      } else {
        if haltAtBottom {
          dirList := dirList + [child];
          return Listed(dirList);
        }
        PrefixedTwice(dirList, [child], WalkEntries(fs, dir, names[i..], haltAtBottom));
        dirList := dirList + [child];
      }
    }
    assert names[i..] == [];
    return Listed(dirList);
  }

  // ---------------------------------------------------------------- where the paths come from

  /** No listed name holds a slash: each is one path component. */
  predicate NamesWithoutSlash(fs: Storage)
  {
    forall p | p in fs.listdir && fs.listdir[p].ListOk? :: PlainNames(fs.listdir[p].entries)
  }

  predicate PlainNames(names: seq<string>)
  {
    forall k | 0 <= k < |names| :: '/' !in names[k]
  }

  predicate EndsWith(p: string, suffix: string)
  {
    |suffix| <= |p| && p[|p| - |suffix|..] == suffix
  }

  /** A path found strictly under `dir`: it extends `dir`, its stat succeeds,
      and it does not end in a `.` or `..` component. */
  predicate Below(fs: Storage, dir: string, p: string)
  {
    IsPathPrefix(dir, p) && |p| > |dir| && Stat(fs, p).StatOk?
    && !EndsWith(p, "/.") && !EndsWith(p, "/..")
  }

  predicate AllBelow(fs: Storage, dir: string, ps: seq<string>)
  {
    forall k | 0 <= k < |ps| :: Below(fs, dir, ps[k])
  }

  lemma AllBelowConcat(fs: Storage, dir: string, a: seq<string>, b: seq<string>)
    requires AllBelow(fs, dir, a) && AllBelow(fs, dir, b)
    ensures AllBelow(fs, dir, a + b)
  {
    forall k | 0 <= k < |a + b|
      ensures Below(fs, dir, (a + b)[k])
    {
      if k < |a| {
        assert (a + b)[k] == a[k];
      } else {
        assert (a + b)[k] == b[k - |a|];
      }
    }
  }

  /** What lies under a child directory lies under its parent too. */
  lemma AllBelowWiden(fs: Storage, dir: string, child: string, ps: seq<string>)
    requires child != "" && IsPathPrefix(dir, child)
    requires AllBelow(fs, Slashed(child), ps)
    ensures AllBelow(fs, dir, ps)
  {
    var d := Slashed(child);
    forall k | 0 <= k < |ps|
      ensures Below(fs, dir, ps[k])
    {
      assert Below(fs, d, ps[k]);
      assert ps[k][..|dir|] == d[..|dir|] == child[..|dir|];
    }
  }

  /** A child path built from a proper name. */
  lemma ChildBelow(fs: Storage, dir: string, name: string)
    requires name != "" && '/' !in name && !IsDotName(name)
    requires Stat(fs, dir + name).StatOk?
    ensures Below(fs, dir, dir + name)
  {
    var c := dir + name;
    assert c[..|dir|] == dir;
    assert name[|name| - 1] in name;
    if |name| >= 2 {
      assert name[|name| - 2] in name;
    }
    if |name| >= 3 {
      assert name[|name| - 3] in name;
    }
  }

  /** Every path the walk of a directory returns lies strictly under the base
      with its trailing slash, names an entry whose stat succeeds, and does
      not end in `/.` or `/..`. */
  lemma {:induction false} WalkPaths(fs: Storage, base: string, halt: bool)
    requires NamesNonEmpty(fs) && NamesWithoutSlash(fs)
    requires Stat(fs, base) == StatOk(true) && base != ""
    requires Walk(fs, base, halt).Listed?
    ensures AllBelow(fs, Slashed(base), Walk(fs, base, halt).paths)
    decreases Deeper(fs, |base|), 1, 0
  {
    var dir := Slashed(base);
    assert Deeper(fs, |dir|) <= Deeper(fs, |base|);
    EntriesPaths(fs, dir, ListDir(fs, dir).entries, halt);
  }

  lemma {:induction false} EntriesPaths(fs: Storage, dir: string, names: seq<string>, halt: bool)
    requires NamesNonEmpty(fs) && NamesWithoutSlash(fs)
    requires NonEmptyNames(names) && PlainNames(names)
    requires WalkEntries(fs, dir, names, halt).Listed?
    ensures AllBelow(fs, dir, WalkEntries(fs, dir, names, halt).paths)
    decreases Deeper(fs, |dir|), 0, |names|
  {
    if names != [] {
      var rest := names[1..];
      if IsDotName(names[0]) || Stat(fs, dir + names[0]).StatErr? {
        EntriesPaths(fs, dir, rest, halt);
      } else {
        var child := dir + names[0];
        assert names[0] in names;
        ChildBelow(fs, dir, names[0]);
        if Stat(fs, child).isDir {
          DeeperShrinks(fs, dir, child);
          WalkPaths(fs, child, false);
          AllBelowWiden(fs, dir, child, Walk(fs, child, false).paths);
          EntriesPaths(fs, dir, rest, halt);
          AllBelowConcat(fs, dir, [child], Walk(fs, child, false).paths);
          AllBelowConcat(fs, dir, [child] + Walk(fs, child, false).paths, WalkEntries(fs, dir, rest, halt).paths);
        } else if !halt {
          EntriesPaths(fs, dir, rest, halt);
          AllBelowConcat(fs, dir, [child], WalkEntries(fs, dir, rest, halt).paths);
        }
      }
    }
  }

  /** The walk raises only what a listdir raised, on the very path it was given,
      and the IndexError only for an empty base. */
  lemma {:induction false} WalkRaisedFrom(fs: Storage, base: string, halt: bool)
    requires NamesNonEmpty(fs)
    ensures Walk(fs, base, halt) == Raised(IndexError) ==> base == ""
    ensures Walk(fs, base, halt).Raised? && Walk(fs, base, halt).failure.GError?
            ==> ListDir(fs, Walk(fs, base, halt).failure.path) == ListErr(Walk(fs, base, halt).failure.code)
    decreases Deeper(fs, |base|), 1, 0
  {
    if Stat(fs, base) == StatOk(true) && base != "" {
      var dir := Slashed(base);
      if ListDir(fs, dir).ListOk? {
        assert Deeper(fs, |dir|) <= Deeper(fs, |base|);
        EntriesRaisedFrom(fs, dir, ListDir(fs, dir).entries, halt);
      }
    }
  }

  lemma {:induction false} EntriesRaisedFrom(fs: Storage, dir: string, names: seq<string>, halt: bool)
    requires NamesNonEmpty(fs) && NonEmptyNames(names)
    ensures WalkEntries(fs, dir, names, halt).Raised?
            ==> WalkEntries(fs, dir, names, halt).failure.GError?
                && ListDir(fs, WalkEntries(fs, dir, names, halt).failure.path)
                   == ListErr(WalkEntries(fs, dir, names, halt).failure.code)
    decreases Deeper(fs, |dir|), 0, |names|
  {
    if names != [] {
      var rest := names[1..];
      var child := dir + names[0];
      if !IsDotName(names[0]) && Stat(fs, child) == StatOk(true) {
        assert names[0] in names;
        DeeperShrinks(fs, dir, child);
        WalkRaisedFrom(fs, child, false);
        assert child != "";
      }
      EntriesRaisedFrom(fs, dir, rest, halt);
    }
  }

  // ---------------------------------------------------------------- order

  /** The walk of one list of names followed by the walk of another; an
      exception in the first ends it. */
  function Chain(o1: Outcome, o2: Outcome): (r: Outcome)
    ensures o1.Raised? ==> r == o1
    ensures o1.Listed? && o2.Listed? ==> r == Listed(o1.paths + o2.paths)
    ensures o1.Listed? && o2.Raised? ==> r == o2
  {
    match o1
    case Raised(e) => Raised(e)
    case Listed(ps) => Prefixed(ps, o2)
  }

  /** Children are visited in the order listdir gives them: walking `a + b` is
      walking `a` and then `b`. */
  lemma {:induction false} EntriesAppend(fs: Storage, dir: string, a: seq<string>, b: seq<string>)
    requires NamesNonEmpty(fs) && NonEmptyNames(a) && NonEmptyNames(b)
    ensures NonEmptyNames(a + b)
    ensures WalkEntries(fs, dir, a + b, false)
            == Chain(WalkEntries(fs, dir, a, false), WalkEntries(fs, dir, b, false))
  {
    assert forall k | 0 <= k < |a + b| :: (a + b)[k] == if k < |a| then a[k] else b[k - |a|];
    var wb := WalkEntries(fs, dir, b, false);
    if a == [] {
      assert a + b == b;
      if wb.Listed? {
        assert [] + wb.paths == wb.paths;
      }
    } else {
      assert (a + b)[0] == a[0] && (a + b)[1..] == a[1..] + b;
      EntriesAppend(fs, dir, a[1..], b);
      var child := dir + a[0];
      var tail := WalkEntries(fs, dir, a[1..], false);
      if !IsDotName(a[0]) && Stat(fs, child).StatOk? {
        var head := if Stat(fs, child).isDir then Walk(fs, child, false) else Listed([]);
        if head.Listed? {
          ChainPrefixed([child] + head.paths, tail, wb);
        }
      }
    }
  }

  lemma ChainPrefixed(ps: seq<string>, o1: Outcome, o2: Outcome)
    ensures Chain(Prefixed(ps, o1), o2) == Prefixed(ps, Chain(o1, o2))
  {
    if o1.Listed? && o2.Listed? {
      assert (ps + o1.paths) + o2.paths == ps + (o1.paths + o2.paths);
    }
  }

  /** An entry named `.` or `..`, or one whose stat fails. */
  predicate Skipped(fs: Storage, dir: string, name: string)
  {
    IsDotName(name) || Stat(fs, dir + name).StatErr?
  }

  /** A skipped entry contributes nothing, wherever it stands in the listing. */
  lemma {:induction false} SkippedContributesNothing(fs: Storage, dir: string, a: seq<string>, name: string,
                                                     b: seq<string>, halt: bool)
    requires NamesNonEmpty(fs) && NonEmptyNames(a) && NonEmptyNames(b) && name != ""
    requires Skipped(fs, dir, name)
    ensures NonEmptyNames(a + [name] + b) && NonEmptyNames(a + b)
    ensures WalkEntries(fs, dir, a + [name] + b, halt) == WalkEntries(fs, dir, a + b, halt)
  {
    var x := a + [name] + b;
    assert forall k | 0 <= k < |x| :: x[k] == if k < |a| then a[k] else if k == |a| then name else b[k - |a| - 1];
    assert forall k | 0 <= k < |a + b| :: (a + b)[k] == if k < |a| then a[k] else b[k - |a|];
    if a == [] {
      assert x == [name] + b && x[1..] == b && a + b == b;
    } else {
      assert x[0] == a[0] && x[1..] == a[1..] + [name] + b;
      assert (a + b)[0] == a[0] && (a + b)[1..] == a[1..] + b;
      SkippedContributesNothing(fs, dir, a[1..], name, b, halt);
    }
  }

  /** Each directory in a listing is followed at once by the listing of its
      own subtree, walked without halting: the walk is pre-order. */
  lemma {:induction false} SubtreeFollowsDirectory(fs: Storage, base: string, halt: bool, i: nat)
    requires NamesNonEmpty(fs)
    requires Walk(fs, base, halt).Listed? && i < |Walk(fs, base, halt).paths|
    requires Stat(fs, Walk(fs, base, halt).paths[i]) == StatOk(true)
    ensures Walk(fs, Walk(fs, base, halt).paths[i], false).Listed?
    ensures var ps := Walk(fs, base, halt).paths;
            var sub := Walk(fs, ps[i], false).paths;
            i + 1 + |sub| <= |ps| && ps[i + 1..i + 1 + |sub|] == sub
    decreases Deeper(fs, |base|), 1, 0
  {
    var dir := Slashed(base);
    assert Deeper(fs, |dir|) <= Deeper(fs, |base|);
    EntriesSubtree(fs, dir, ListDir(fs, dir).entries, halt, i);
  }

  lemma {:induction false} EntriesSubtree(fs: Storage, dir: string, names: seq<string>, halt: bool, i: nat)
    requires NamesNonEmpty(fs) && NonEmptyNames(names)
    requires WalkEntries(fs, dir, names, halt).Listed? && i < |WalkEntries(fs, dir, names, halt).paths|
    requires Stat(fs, WalkEntries(fs, dir, names, halt).paths[i]) == StatOk(true)
    ensures Walk(fs, WalkEntries(fs, dir, names, halt).paths[i], false).Listed?
    ensures var ps := WalkEntries(fs, dir, names, halt).paths;
            var sub := Walk(fs, ps[i], false).paths;
            i + 1 + |sub| <= |ps| && ps[i + 1..i + 1 + |sub|] == sub
    decreases Deeper(fs, |dir|), 0, |names|, 2
  {
    var child := dir + names[0];
    if IsDotName(names[0]) || Stat(fs, child).StatErr? {
      EntriesSubtree(fs, dir, names[1..], halt, i);
    } else if Stat(fs, child).isDir {
      DirEntrySubtree(fs, dir, names, halt, i);
    } else {
      FileEntrySubtree(fs, dir, names, halt, i);
    }
  }

  /** The case of EntriesSubtree where the first name is a file. */
  lemma {:induction false} FileEntrySubtree(fs: Storage, dir: string, names: seq<string>, halt: bool, i: nat)
    requires NamesNonEmpty(fs) && NonEmptyNames(names) && names != []
    requires !IsDotName(names[0]) && Stat(fs, dir + names[0]) == StatOk(false)
    requires WalkEntries(fs, dir, names, halt).Listed? && i < |WalkEntries(fs, dir, names, halt).paths|
    requires Stat(fs, WalkEntries(fs, dir, names, halt).paths[i]) == StatOk(true)
    ensures Walk(fs, WalkEntries(fs, dir, names, halt).paths[i], false).Listed?
    ensures var ps := WalkEntries(fs, dir, names, halt).paths;
            var sub := Walk(fs, ps[i], false).paths;
            i + 1 + |sub| <= |ps| && ps[i + 1..i + 1 + |sub|] == sub
    decreases Deeper(fs, |dir|), 0, |names|, 1
  {
    var child := dir + names[0];
    FileEntryShape(fs, dir, names, halt);
    if halt || i == 0 {
      assert false;
    } else {
      FileEntryRest(fs, dir, names, i);
    }
  }

  /** A directory listed after a first entry that is a file. */
  lemma {:induction false} FileEntryRest(fs: Storage, dir: string, names: seq<string>, i: nat)
    requires NamesNonEmpty(fs) && NonEmptyNames(names) && names != [] && NonEmptyNames(names[1..])
    requires WalkEntries(fs, dir, names[1..], false).Listed?
    requires WalkEntries(fs, dir, names, false) == Listed([dir + names[0]] + WalkEntries(fs, dir, names[1..], false).paths)
    requires 0 < i < |WalkEntries(fs, dir, names, false).paths|
    requires Stat(fs, WalkEntries(fs, dir, names, false).paths[i]) == StatOk(true)
    ensures Walk(fs, WalkEntries(fs, dir, names, false).paths[i], false).Listed?
    ensures var ps := WalkEntries(fs, dir, names, false).paths;
            var sub := Walk(fs, ps[i], false).paths;
            i + 1 + |sub| <= |ps| && ps[i + 1..i + 1 + |sub|] == sub
    decreases Deeper(fs, |dir|), 0, |names|, 0
  {
    var child := dir + names[0];
    var tail := WalkEntries(fs, dir, names[1..], false).paths;
    FollowInPart([child], tail, [], i - 1, []);
    EntriesSubtree(fs, dir, names[1..], false, i - 1);
    FollowInPart([child], tail, [], i - 1, Walk(fs, tail[i - 1], false).paths);
  }

  /** The case of EntriesSubtree where the first name is a directory. */
  lemma {:induction false} DirEntrySubtree(fs: Storage, dir: string, names: seq<string>, halt: bool, i: nat)
    requires NamesNonEmpty(fs) && NonEmptyNames(names) && names != []
    requires !IsDotName(names[0]) && Stat(fs, dir + names[0]) == StatOk(true)
    requires WalkEntries(fs, dir, names, halt).Listed? && i < |WalkEntries(fs, dir, names, halt).paths|
    requires Stat(fs, WalkEntries(fs, dir, names, halt).paths[i]) == StatOk(true)
    ensures Walk(fs, WalkEntries(fs, dir, names, halt).paths[i], false).Listed?
    ensures var ps := WalkEntries(fs, dir, names, halt).paths;
            var sub := Walk(fs, ps[i], false).paths;
            i + 1 + |sub| <= |ps| && ps[i + 1..i + 1 + |sub|] == sub
    decreases Deeper(fs, |dir|), 0, |names|, 1
  {
    var child := dir + names[0];
    DirEntryShape(fs, dir, names, halt);
    var sub := Walk(fs, child, false).paths;
    var tail := WalkEntries(fs, dir, names[1..], halt).paths;
    if i == 0 {
      FollowInPart([], [child] + sub, tail, 0, sub);
    } else if i < 1 + |sub| {
      InsideSubtree(fs, dir, names, halt, i);
    } else {
      AfterSubtree(fs, dir, names, halt, i);
    }
  }

  /** A directory inside the first entry's subtree: its own subtree follows it there. */
  lemma {:induction false} InsideSubtree(fs: Storage, dir: string, names: seq<string>, halt: bool, i: nat)
    requires NamesNonEmpty(fs) && NonEmptyNames(names) && names != []
    requires !IsDotName(names[0]) && Stat(fs, dir + names[0]) == StatOk(true)
    requires WalkEntries(fs, dir, names, halt).Listed? && i < |WalkEntries(fs, dir, names, halt).paths|
    requires Stat(fs, WalkEntries(fs, dir, names, halt).paths[i]) == StatOk(true)
    requires Walk(fs, dir + names[0], false).Listed? && 0 < i < 1 + |Walk(fs, dir + names[0], false).paths|
    ensures Walk(fs, WalkEntries(fs, dir, names, halt).paths[i], false).Listed?
    ensures var ps := WalkEntries(fs, dir, names, halt).paths;
            var sub := Walk(fs, ps[i], false).paths;
            i + 1 + |sub| <= |ps| && ps[i + 1..i + 1 + |sub|] == sub
    decreases Deeper(fs, |dir|), 0, |names|, 0
  {
    var child := dir + names[0];
    assert names[0] in names;
    DeeperShrinks(fs, dir, child);
    DirEntryShape(fs, dir, names, halt);
    var sub := Walk(fs, child, false).paths;
    var tail := WalkEntries(fs, dir, names[1..], halt).paths;
    FollowInPart([child], sub, tail, i - 1, []);
    SubtreeFollowsDirectory(fs, child, false, i - 1);
    FollowInPart([child], sub, tail, i - 1, Walk(fs, sub[i - 1], false).paths);
  }

  /** A directory listed after the first entry's subtree: the rest of the loop. */
  lemma {:induction false} AfterSubtree(fs: Storage, dir: string, names: seq<string>, halt: bool, i: nat)
    requires NamesNonEmpty(fs) && NonEmptyNames(names) && names != []
    requires !IsDotName(names[0]) && Stat(fs, dir + names[0]) == StatOk(true)
    requires WalkEntries(fs, dir, names, halt).Listed? && i < |WalkEntries(fs, dir, names, halt).paths|
    requires Stat(fs, WalkEntries(fs, dir, names, halt).paths[i]) == StatOk(true)
    requires Walk(fs, dir + names[0], false).Listed? && 1 + |Walk(fs, dir + names[0], false).paths| <= i
    ensures Walk(fs, WalkEntries(fs, dir, names, halt).paths[i], false).Listed?
    ensures var ps := WalkEntries(fs, dir, names, halt).paths;
            var sub := Walk(fs, ps[i], false).paths;
            i + 1 + |sub| <= |ps| && ps[i + 1..i + 1 + |sub|] == sub
    decreases Deeper(fs, |dir|), 0, |names|, 0
  {
    var child := dir + names[0];
    DirEntryShape(fs, dir, names, halt);
    var sub := Walk(fs, child, false).paths;
    var tail := WalkEntries(fs, dir, names[1..], halt).paths;
    var ps := WalkEntries(fs, dir, names, halt).paths;
    var j := i - 1 - |sub|;
    FollowInTail(ps, child, sub, tail, j, []);
    EntriesSubtree(fs, dir, names[1..], halt, j);
    FollowInTail(ps, child, sub, tail, j, Walk(fs, tail[j], false).paths);
  }

  lemma FollowInTail(ps: seq<string>, child: string, sub: seq<string>, tail: seq<string>, j: nat, sub2: seq<string>)
    requires ps == [child] + sub + tail
    requires j + 1 + |sub2| <= |tail| && tail[j + 1..j + 1 + |sub2|] == sub2
    ensures var i := 1 + |sub| + j;
            i + 1 + |sub2| <= |ps| && ps[i] == tail[j] && ps[i + 1..i + 1 + |sub2|] == sub2
  {
    FollowInPart([child] + sub, tail, [], j, sub2);
    assert ps == ([child] + sub) + tail + [];
  }

  /** The listing of a directory entry followed by the rest of the loop. */
  lemma DirEntryShape(fs: Storage, dir: string, names: seq<string>, halt: bool)
    requires NamesNonEmpty(fs) && NonEmptyNames(names) && names != []
    requires !IsDotName(names[0]) && Stat(fs, dir + names[0]) == StatOk(true)
    requires WalkEntries(fs, dir, names, halt).Listed?
    ensures NonEmptyNames(names[1..])
    ensures Walk(fs, dir + names[0], false).Listed? && WalkEntries(fs, dir, names[1..], halt).Listed?
    ensures WalkEntries(fs, dir, names, halt).paths
            == [dir + names[0]] + Walk(fs, dir + names[0], false).paths + WalkEntries(fs, dir, names[1..], halt).paths
  {
    assert names[0] in names;
  }

  /** The listing of a file entry: the file alone when halting, followed by the
      rest of the loop otherwise. */
  lemma FileEntryShape(fs: Storage, dir: string, names: seq<string>, halt: bool)
    requires NamesNonEmpty(fs) && NonEmptyNames(names) && names != []
    requires !IsDotName(names[0]) && Stat(fs, dir + names[0]) == StatOk(false)
    requires WalkEntries(fs, dir, names, halt).Listed?
    ensures NonEmptyNames(names[1..])
    ensures halt ==> WalkEntries(fs, dir, names, halt).paths == [dir + names[0]]
    ensures !halt ==> WalkEntries(fs, dir, names[1..], halt).Listed?
                      && WalkEntries(fs, dir, names, halt).paths == [dir + names[0]] + WalkEntries(fs, dir, names[1..], halt).paths
  {
    assert names[0] in names;
  }

  lemma FollowInPart(pre: seq<string>, mid: seq<string>, post: seq<string>, j: nat, sub: seq<string>)
    requires j < |mid|
    requires j + 1 + |sub| <= |mid| && mid[j + 1..j + 1 + |sub|] == sub
    ensures var ps := pre + mid + post;
            var i := |pre| + j;
            i + 1 + |sub| <= |ps| && ps[i] == mid[j] && ps[i + 1..i + 1 + |sub|] == sub
  {
    var ps := pre + mid + post;
    var i := |pre| + j;
    assert ps[i + 1..i + 1 + |sub|] == mid[j + 1..j + 1 + |sub|];
  }

  // ---------------------------------------------------------------- haltAtBottom

  /** A name whose entry is not a directory. */
  predicate IsFileChild(fs: Storage, dir: string, name: string)
  {
    !IsDotName(name) && Stat(fs, dir + name) == StatOk(false)
  }

  /** How many names the halting loop consumes: up to and including the first
      file, or all of them when there is none. */
  function FileCut(fs: Storage, dir: string, names: seq<string>): (n: nat)
    ensures n <= |names|
    ensures forall k | 0 <= k < n - 1 :: !IsFileChild(fs, dir, names[k])
    ensures (exists k | 0 <= k < |names| :: IsFileChild(fs, dir, names[k]))
            <==> 0 < n && IsFileChild(fs, dir, names[n - 1])
    ensures (forall k | 0 <= k < |names| :: !IsFileChild(fs, dir, names[k])) ==> n == |names|
  {
    if names == [] then 0
    else if IsFileChild(fs, dir, names[0]) then 1
    else
      var n := 1 + FileCut(fs, dir, names[1..]);
      assert forall k | 1 <= k < |names| :: names[k] == names[1..][k - 1];
      n
  }

  /** With haltAtBottom the loop walks the names up to the first file exactly as
      it would without it, and stops there. */
  lemma {:induction false} HaltAtFirstFile(fs: Storage, dir: string, names: seq<string>)
    requires NamesNonEmpty(fs) && NonEmptyNames(names)
    ensures NonEmptyNames(names[..FileCut(fs, dir, names)])
    ensures WalkEntries(fs, dir, names, true)
            == WalkEntries(fs, dir, names[..FileCut(fs, dir, names)], false)
  {
    var n := FileCut(fs, dir, names);
    assert forall k | 0 <= k < n :: names[..n][k] == names[k];
    if names != [] {
      var child := dir + names[0];
      if IsFileChild(fs, dir, names[0]) {
        assert names[..n] == [names[0]] && names[..n][1..] == [];
      } else {
        HaltAtFirstFile(fs, dir, names[1..]);
        assert names[..n][0] == names[0] && names[..n][1..] == names[1..][..n - 1];
      }
    }
  }

  /** In a directory without a file child, halting changes nothing. */
  lemma HaltWithoutFile(fs: Storage, dir: string, names: seq<string>)
    requires NamesNonEmpty(fs) && NonEmptyNames(names)
    requires forall k | 0 <= k < |names| :: !IsFileChild(fs, dir, names[k])
    ensures WalkEntries(fs, dir, names, true) == WalkEntries(fs, dir, names, false)
  {
    HaltAtFirstFile(fs, dir, names);
    assert names[..|names|] == names;
  }

  /** A halted walk that found a file ends with that file. */
  lemma HaltEndsAtFile(fs: Storage, dir: string, names: seq<string>)
    requires NamesNonEmpty(fs) && NonEmptyNames(names)
    requires WalkEntries(fs, dir, names, true).Listed?
    ensures var ps := WalkEntries(fs, dir, names, true).paths;
            var n := FileCut(fs, dir, names);
            0 < n && IsFileChild(fs, dir, names[n - 1]) ==> ps != [] && ps[|ps| - 1] == dir + names[n - 1]
  {
    var n := FileCut(fs, dir, names);
    HaltAtFirstFile(fs, dir, names);
    if 0 < n && IsFileChild(fs, dir, names[n - 1]) {
      var a := names[..n - 1];
      var last := [names[n - 1]];
      SplitLast(names, n);
      EntriesAppend(fs, dir, a, last);
      FileEntry(fs, dir, names[n - 1]);
      ChainEndsWith(WalkEntries(fs, dir, a, false), dir + names[n - 1]);
    }
  }

  /** The halted listing is a prefix of the listing the walk would have
      produced without halting. */
  lemma HaltIsPrefix(fs: Storage, dir: string, names: seq<string>)
    requires NamesNonEmpty(fs) && NonEmptyNames(names)
    requires WalkEntries(fs, dir, names, false).Listed?
    ensures WalkEntries(fs, dir, names, true).Listed?
    ensures WalkEntries(fs, dir, names, true).paths <= WalkEntries(fs, dir, names, false).paths
  {
    var n := FileCut(fs, dir, names);
    HaltAtFirstFile(fs, dir, names);
    SplitAt(names, n);
    EntriesAppend(fs, dir, names[..n], names[n..]);
    ChainKeepsFirst(WalkEntries(fs, dir, names[..n], false), WalkEntries(fs, dir, names[n..], false));
  }

  lemma SplitAt(names: seq<string>, n: nat)
    requires n <= |names| && NonEmptyNames(names)
    ensures names == names[..n] + names[n..]
    ensures NonEmptyNames(names[..n]) && NonEmptyNames(names[n..])
  {
    assert forall k | 0 <= k < |names| - n :: names[n..][k] == names[n + k];
    assert forall k | 0 <= k < n :: names[..n][k] == names[k];
  }

  lemma SplitLast(names: seq<string>, n: nat)
    requires 0 < n <= |names| && NonEmptyNames(names[..n])
    ensures names[..n] == names[..n - 1] + [names[n - 1]]
    ensures NonEmptyNames(names[..n - 1]) && NonEmptyNames([names[n - 1]])
  {
    assert forall k | 0 <= k < n - 1 :: names[..n - 1][k] == names[..n][k];
    assert names[..n][n - 1] == names[n - 1];
  }

  /** The walk of a single file entry lists just that file. */
  lemma FileEntry(fs: Storage, dir: string, name: string)
    requires NamesNonEmpty(fs) && IsFileChild(fs, dir, name) && name != ""
    ensures WalkEntries(fs, dir, [name], false) == Listed([dir + name])
  {
    assert [name][1..] == [];
  }

  lemma ChainEndsWith(o1: Outcome, x: string)
    requires Chain(o1, Listed([x])).Listed?
    ensures var ps := Chain(o1, Listed([x])).paths; ps != [] && ps[|ps| - 1] == x
  {
  }

  lemma ChainKeepsFirst(o1: Outcome, o2: Outcome)
    requires Chain(o1, o2).Listed?
    ensures o1.Listed? && o1.paths <= Chain(o1, o2).paths
  {
    assert o1.paths <= o1.paths + o2.paths;
  }
}
