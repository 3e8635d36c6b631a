/** What an rcp transfer leaves at the sink: the tree that was sent, less what was refused. */
module RcpTree {
  import opened Wrappers
  import opened RcpRecords
  import opened RcpProtocol
  import opened RcpTransfer

  // ---------- paths ----------

  function Join(dir: string, name: string): string { dir + "/" + name }

  /** `q` is `path` or lies below it. */
  predicate Within(path: string, q: string) {
    q == path || path + "/" <= q
  }

  predicate Covered(dir: string, ns: seq<Node>, q: string) {
    exists i :: 0 <= i < |ns| && Within(Join(dir, ns[i].name), q)
  }

  /** Nothing is at `path` or below it. */
  predicate Vacant(fs: FileSystem, path: string) {
    forall q :: q in fs ==> !Within(path, q)
  }

  /** Names that a directory can hold, different from each other within every directory. */
  predicate WellNamed(n: Node)
    decreases n
  {
    n.name != "" && '/' !in n.name && (n.Dir? ==> WellNamedAll(n.children))
  }

  predicate WellNamedAll(ns: seq<Node>)
    decreases ns
  {
    ns == [] || (WellNamed(ns[0]) && (forall i :: 0 < i < |ns| ==> ns[i].name != ns[0].name) && WellNamedAll(ns[1..]))
  }

  // ---------- what is at a path ----------

  /** The mode of something new: under -p the mode that was sent, otherwise that less the bits of the umask. */
  predicate NewMode(cfg: Config, sent: bv12, mode: bv12) {
    (cfg.pflag ==> mode == sent) && (!cfg.pflag ==> mode == sent & !cfg.umask)
  }

  /** `fs` holds exactly the tree `n` at `path`: modes, times, contents, and in a directory nothing else. */
  ghost predicate Holds(cfg: Config, fs: FileSystem, path: string, n: Node)
    decreases n
  {
    && path in fs
    && match n
       case File(_, mode, mtime, atime, data) =>
         && NewMode(cfg, mode, fs[path].mode)
         && fs[path] == FileEntry(fs[path].mode, if cfg.pflag then Some(Times(mtime, 0, atime, 0)) else None, data)
       case Dir(_, mode, mtime, atime, children) =>
         && NewMode(cfg, mode, fs[path].mode)
         && fs[path] == DirEntry(fs[path].mode, if cfg.pflag then Some(Times(mtime, 0, atime, 0)) else None)
         && HoldsAll(cfg, fs, path, children)
         && forall q :: q in fs && Within(path, q) && q != path ==> Covered(path, children, q)
  }

  ghost predicate HoldsAll(cfg: Config, fs: FileSystem, dir: string, ns: seq<Node>)
    decreases ns
  {
    ns == [] || (Holds(cfg, fs, Join(dir, ns[0].name), ns[0]) && HoldsAll(cfg, fs, dir, ns[1..]))
  }

  /** The tree without the nodes that the sink's system refuses, given where the tree goes. */
  function Pruned(cfg: Config, path: string, n: Node): Option<Node>
    decreases n
  {
    if path in cfg.denied then None
    else if n.File? then Some(n)
    else Some(n.(children := PrunedAll(cfg, path, n.children)))
  }

  function PrunedAll(cfg: Config, dir: string, ns: seq<Node>): seq<Node>
    decreases ns
  {
    if ns == [] then [] else
    match Pruned(cfg, Join(dir, ns[0].name), ns[0])
    case None => PrunedAll(cfg, dir, ns[1..])
    case Some(n) => [n] + PrunedAll(cfg, dir, ns[1..])
  }

  /** How many nodes are refused; what is below a refused directory is not asked for. */
  function Refusals(cfg: Config, path: string, n: Node): nat
    decreases n
  {
    if path in cfg.denied then 1 else if n.File? then 0 else RefusalsAll(cfg, path, n.children)
  }

  function RefusalsAll(cfg: Config, dir: string, ns: seq<Node>): nat
    decreases ns
  {
    if ns == [] then 0 else Refusals(cfg, Join(dir, ns[0].name), ns[0]) + RefusalsAll(cfg, dir, ns[1..])
  }

  // ---------- paths of siblings ----------

  /** The path component that starts at position `at`. */
  function Component(q: string, at: nat): string
    decreases |q| - at
  {
    if at >= |q| || q[at] == '/' then "" else [q[at]] + Component(q, at + 1)
  }

  lemma {:induction false} ComponentIs(q: string, at: nat, a: string)
    requires at + |a| <= |q| && q[at..at + |a|] == a && '/' !in a
    requires at + |a| == |q| || q[at + |a|] == '/'
    ensures Component(q, at) == a
    decreases |a|
  {
    if a != "" {
      assert q[at] == a[0];
      assert q[at + 1..at + |a|] == a[1..];
      ComponentIs(q, at + 1, a[1..]);
    }
  }

  lemma NextComponent(dir: string, a: string, q: string)
    requires Within(Join(dir, a), q) && '/' !in a
    ensures Component(q, |dir| + 1) == a
  {
    var j := Join(dir, a);
    assert j[|dir| + 1..] == a;
    if q != j {
      assert q[..|j| + 1] == j + "/";
      assert q[|j|] == '/' && q[..|j|] == j;
    }
    ComponentIs(q, |dir| + 1, a);
  }

  lemma SiblingsApart(dir: string, a: string, b: string, q: string)
    requires '/' !in a && '/' !in b && a != b && Within(Join(dir, a), q)
    ensures !Within(Join(dir, b), q)
  {
    NextComponent(dir, a, q);
    if Within(Join(dir, b), q) {
      NextComponent(dir, b, q);
    }
  }

  lemma WithinTrans(dir: string, name: string, q: string)
    requires Within(Join(dir, name), q)
    ensures Within(dir, q) && q != dir
  {
    var j := Join(dir, name);
    assert (dir + "/") <= j;
  }

  lemma CoveredWithin(dir: string, ns: seq<Node>, q: string)
    requires Covered(dir, ns, q)
    ensures Within(dir, q) && q != dir
  {
    var i :| 0 <= i < |ns| && Within(Join(dir, ns[i].name), q);
    WithinTrans(dir, ns[i].name, q);
  }

  // ---------- what one deposit leaves alone ----------

  /** Apart from what is within `path`, and the times of `parent`, the two file systems agree. */
  ghost predicate OnlyWithin(fs: FileSystem, fs': FileSystem, path: string, parent: string) {
    && (forall q :: !Within(path, q) ==> (q in fs <==> q in fs'))
    && (forall q :: !Within(path, q) && q in fs && q != parent ==> fs'[q] == fs[q])
    && (!Within(path, parent) && parent in fs ==> SameBarTimes(fs[parent], fs'[parent]))
  }

  predicate SameBarTimes(e: Entry, e': Entry) {
    if e.FileEntry? then e' == e else e' == e || e' == e.(times := None)
  }

  ghost predicate Agree(fs: FileSystem, fs': FileSystem, path: string) {
    forall q :: Within(path, q) ==> (q in fs <==> q in fs') && (q in fs ==> fs'[q] == fs[q])
  }

  lemma {:induction false} HoldsFrame(cfg: Config, fs: FileSystem, fs': FileSystem, path: string, n: Node)
    requires Agree(fs, fs', path) && Holds(cfg, fs, path, n)
    ensures Holds(cfg, fs', path, n)
    decreases n
  {
    assert Within(path, path);
    if n.Dir? {
      HoldsAllFrame(cfg, fs, fs', path, n.children);
    }
  }

  lemma {:induction false} HoldsAllFrame(cfg: Config, fs: FileSystem, fs': FileSystem, dir: string, ns: seq<Node>)
    requires forall i :: 0 <= i < |ns| ==> Agree(fs, fs', Join(dir, ns[i].name)) || Agree(fs, fs', dir)
    requires HoldsAll(cfg, fs, dir, ns)
    ensures HoldsAll(cfg, fs', dir, ns)
    decreases ns
  {
    if ns != [] {
      assert Agree(fs, fs', Join(dir, ns[0].name)) by {
        if Agree(fs, fs', dir) {
          forall q | Within(Join(dir, ns[0].name), q)
            ensures Within(dir, q)
          {
            WithinTrans(dir, ns[0].name, q);
          }
        }
      }
      HoldsFrame(cfg, fs, fs', Join(dir, ns[0].name), ns[0]);
      forall i | 0 <= i < |ns[1..]|
        ensures Agree(fs, fs', Join(dir, ns[1..][i].name)) || Agree(fs, fs', dir)
      {
        assert ns[1..][i] == ns[i + 1];
      }
      HoldsAllFrame(cfg, fs, fs', dir, ns[1..]);
    }
  }

  // ---------- a deposit where nothing was ----------

  /** Apart from what the names of `ns` cover, and the times of `dir`, the two file systems agree. */
  ghost predicate OnlyCovered(fs: FileSystem, fs': FileSystem, dir: string, ns: seq<Node>) {
    && (forall q :: !Covered(dir, ns, q) ==> (q in fs <==> q in fs'))
    && (forall q :: !Covered(dir, ns, q) && q in fs && q != dir ==> fs'[q] == fs[q])
    && (!Covered(dir, ns, dir) && dir in fs ==> SameBarTimes(fs[dir], fs'[dir]))
  }

  lemma PathNotEmpty(p: Place, name: string)
    requires p.targ != ""
    ensures PathIn(p, name) == (if p.isDir then Join(p.targ, name) else p.targ) != ""
    ensures p.isDir ==> !Within(PathIn(p, name), p.targ)
  {
  }

  lemma FileBuilds(cfg: Config, fs: FileSystem, p: Place, n: Node)
    requires n.File? && p.targ != "" && Vacant(fs, PathIn(p, n.name)) && PathIn(p, n.name) !in cfg.denied
    ensures var path, fs' := PathIn(p, n.name), Deposit(cfg, fs, p, n).fs;
            OnlyWithin(fs, fs', path, p.targ) && Holds(cfg, fs', path, n)
  {
    var path := PathIn(p, n.name);
    PathNotEmpty(p, n.name);
    assert Within(path, path);
    var atOpen := OpenFile(cfg, fs, p.targ, path, n.mode);
    assert Truncated(Overwritten("", n.data), |n.data|) == n.data;
    assert StoreContent(atOpen, path, n.data)[path] == FileEntry(Created(cfg, n.mode), None, n.data);
  }

  lemma {:induction false} DepositBuilds(cfg: Config, fs: FileSystem, p: Place, n: Node)
    requires WellNamed(n) && p.targ != "" && Vacant(fs, PathIn(p, n.name))
    ensures var path, fs', kept := PathIn(p, n.name), Deposit(cfg, fs, p, n).fs, Pruned(cfg, PathIn(p, n.name), n);
            && OnlyWithin(fs, fs', path, p.targ)
            && Deposit(cfg, fs, p, n).refusals == Refusals(cfg, path, n)
            && (kept.None? ==> fs' == fs)
            && (kept.Some? ==> kept.value.name == n.name && Holds(cfg, fs', path, kept.value))
    decreases n
  {
    var path := PathIn(p, n.name);
    PathNotEmpty(p, n.name);
    assert Within(path, path);
    if path !in cfg.denied {
      if n.File? {
        FileBuilds(cfg, fs, p, n);
      } else {
        var made := MakeDirectory(cfg, fs, p.targ, path, n.mode);
        assert made == Touch(fs, p.targ)[path := DirEntry(Created(cfg, n.mode), None)];
        forall i | 0 <= i < |n.children|
          ensures Vacant(made, Join(path, n.children[i].name))
        {
          ChildVacant(fs, made, path, n.children[i].name);
        }
        DepositAllBuilds(cfg, made, path, n.children);
        DirectoryBuilds(cfg, fs, made, p, n);
      }
    }
  }

  lemma ChildVacant(fs: FileSystem, made: FileSystem, path: string, name: string)
    requires Vacant(fs, path) && forall q :: q in made ==> q in fs || q == path
    ensures Vacant(made, Join(path, name))
  {
    forall q | q in made
      ensures !Within(Join(path, name), q)
    {
      if Within(Join(path, name), q) {
        WithinTrans(path, name, q);
      }
    }
  }

  lemma DirectoryBuilds(cfg: Config, fs: FileSystem, made: FileSystem, p: Place, n: Node)
    requires n.Dir? && p.targ != "" && PathIn(p, n.name) !in cfg.denied
    requires Vacant(fs, PathIn(p, n.name))
    requires made == MakeDirectory(cfg, fs, p.targ, PathIn(p, n.name), n.mode)
    requires var path := PathIn(p, n.name);
             var inside := DepositAll(cfg, made, Place(path, true), n.children).fs;
             && HoldsAll(cfg, inside, path, PrunedAll(cfg, path, n.children))
             && OnlyCovered(made, inside, path, n.children)
             && forall q :: q in inside && Covered(path, n.children, q) ==>
                  Covered(path, PrunedAll(cfg, path, n.children), q)
    ensures var path, fs' := PathIn(p, n.name), Deposit(cfg, fs, p, n).fs;
            && OnlyWithin(fs, fs', path, p.targ)
            && Holds(cfg, fs', path, n.(children := PrunedAll(cfg, path, n.children)))
  {
    hide HoldsAll, Covered, DepositAll, PrunedAll, Within, PathIn, Join, MakeDirectory;
    var path := PathIn(p, n.name);
    var inside := DepositAll(cfg, made, Place(path, true), n.children).fs;
    var kept := PrunedAll(cfg, path, n.children);
    var fs' := Stamp(inside, path, SentTimes(cfg, n));
    MadeFresh(cfg, fs, p, n);
    CoveredBelow(path, n.children);
    CoveredBelow(path, kept);
    StampHolds(cfg, inside, fs', path, kept);
    assert fs'[path] == DirEntry(Created(cfg, n.mode), SentTimes(cfg, n));
  }

  lemma MadeFresh(cfg: Config, fs: FileSystem, p: Place, n: Node)
    requires p.targ != "" && Vacant(fs, PathIn(p, n.name))
    ensures var path := PathIn(p, n.name);
            var made := MakeDirectory(cfg, fs, p.targ, path, n.mode);
            && path != "" && Within(path, path) && OnlyWithin(fs, made, path, p.targ)
            && path in made && made[path] == DirEntry(Created(cfg, n.mode), None)
            && forall q :: q in made && Within(path, q) ==> q == path
  {
    PathNotEmpty(p, n.name);
    assert Within(PathIn(p, n.name), PathIn(p, n.name));
  }

  lemma CoveredBelow(dir: string, ns: seq<Node>)
    requires dir != ""
    ensures forall q :: Covered(dir, ns, q) ==> Within(dir, q) && q != dir
  {
    forall q | Covered(dir, ns, q)
      ensures Within(dir, q) && q != dir
    {
      CoveredWithin(dir, ns, q);
    }
  }

  lemma StampHolds(cfg: Config, fs: FileSystem, fs': FileSystem, path: string, ns: seq<Node>)
    requires HoldsAll(cfg, fs, path, ns) && path != ""
    requires forall q :: q != path ==> (q in fs <==> q in fs') && (q in fs ==> fs'[q] == fs[q])
    ensures HoldsAll(cfg, fs', path, ns)
  {
    hide HoldsAll;
    forall i | 0 <= i < |ns|
      ensures Agree(fs, fs', Join(path, ns[i].name))
    {
      assert !Within(Join(path, ns[i].name), path);
    }
    HoldsAllFrame(cfg, fs, fs', path, ns);
  }

  lemma {:induction false} DepositAllBuilds(cfg: Config, fs: FileSystem, dir: string, ns: seq<Node>)
    requires WellNamedAll(ns) && dir != ""
    requires forall i :: 0 <= i < |ns| ==> Vacant(fs, Join(dir, ns[i].name))
    ensures DepositAll(cfg, fs, Place(dir, true), ns).refusals == RefusalsAll(cfg, dir, ns)
    ensures var fs', kept := DepositAll(cfg, fs, Place(dir, true), ns).fs, PrunedAll(cfg, dir, ns);
            && HoldsAll(cfg, fs', dir, kept)
            && OnlyCovered(fs, fs', dir, ns)
            && forall q :: q in fs' && Covered(dir, ns, q) ==> Covered(dir, kept, q)
    decreases ns
  {
    hide Holds, Pruned, Deposit, OnlyWithin, Vacant;
    if ns != [] {
      var n, path := ns[0], Join(dir, ns[0].name);
      var p := Place(dir, true);
      var rest := ns[1..];
      assert PathIn(p, n.name) == path;
      DepositBuilds(cfg, fs, p, n);
      var mid := Deposit(cfg, fs, p, n).fs;
      RestIsVacant(fs, mid, dir, ns);
      DepositAllBuilds(cfg, mid, dir, rest);
      DepositAllStep(cfg, fs, mid, dir, ns);
    }
  }

  lemma {:induction false} NamesDiffer(ns: seq<Node>)
    requires WellNamedAll(ns)
    ensures forall i :: 0 <= i < |ns| ==> '/' !in ns[i].name
    ensures forall i :: 0 < i < |ns| ==> ns[i].name != ns[0].name
    decreases ns
  {
    if ns != [] {
      NamesDiffer(ns[1..]);
      assert forall i :: 0 < i < |ns| ==> ns[i] == ns[1..][i - 1];
    }
  }

  /** A sibling's deposit leaves the other names free. */
  lemma RestIsVacant(fs: FileSystem, mid: FileSystem, dir: string, ns: seq<Node>)
    requires ns != [] && WellNamedAll(ns) && OnlyWithin(fs, mid, Join(dir, ns[0].name), dir)
    requires forall i :: 0 <= i < |ns| ==> Vacant(fs, Join(dir, ns[i].name))
    ensures forall i :: 0 <= i < |ns[1..]| ==> Vacant(mid, Join(dir, ns[1..][i].name))
  {
    hide WellNamedAll;
    NamesDiffer(ns);
    forall i | 0 <= i < |ns[1..]|
      ensures Vacant(mid, Join(dir, ns[1..][i].name))
    {
      var name := ns[i + 1].name;
      assert ns[1..][i] == ns[i + 1] && Vacant(fs, Join(dir, name));
      forall q | q in mid
        ensures !Within(Join(dir, name), q)
      {
        if Within(Join(dir, name), q) {
          SiblingsApart(dir, name, ns[0].name, q);
        }
      }
    }
  }

  lemma DepositAllStep(cfg: Config, fs: FileSystem, mid: FileSystem, dir: string, ns: seq<Node>)
    requires ns != [] && WellNamedAll(ns) && dir != ""
    requires Vacant(fs, Join(dir, ns[0].name))
    requires mid == Deposit(cfg, fs, Place(dir, true), ns[0]).fs
    requires var path := Join(dir, ns[0].name);
             var kept := Pruned(cfg, path, ns[0]);
             && OnlyWithin(fs, mid, path, dir)
             && (kept.None? ==> mid == fs)
             && (kept.Some? ==> kept.value.name == ns[0].name && Holds(cfg, mid, path, kept.value))
    requires var fs', kept := DepositAll(cfg, mid, Place(dir, true), ns[1..]).fs, PrunedAll(cfg, dir, ns[1..]);
             && HoldsAll(cfg, fs', dir, kept)
             && OnlyCovered(mid, fs', dir, ns[1..])
             && forall q :: q in fs' && Covered(dir, ns[1..], q) ==> Covered(dir, kept, q)
    ensures var fs', kept := DepositAll(cfg, fs, Place(dir, true), ns).fs, PrunedAll(cfg, dir, ns);
            && HoldsAll(cfg, fs', dir, kept)
            && OnlyCovered(fs, fs', dir, ns)
            && forall q :: q in fs' && Covered(dir, ns, q) ==> Covered(dir, kept, q)
  {
    hide Within, Covered, Join, Holds, Deposit, Pruned;
    var path := Join(dir, ns[0].name);
    var fs' := DepositAll(cfg, mid, Place(dir, true), ns[1..]).fs;
    assert fs' == DepositAll(cfg, fs, Place(dir, true), ns).fs;
    var later := PrunedAll(cfg, dir, ns[1..]);
    var kept := PrunedAll(cfg, dir, ns);
    forall q
      ensures Within(path, q) ==> !Covered(dir, ns[1..], q) && q != dir
      ensures Covered(dir, ns, q) <==> Within(path, q) || Covered(dir, ns[1..], q)
    {
      CoveredSplits(dir, ns, q);
      if Within(path, q) {
        FirstApart(dir, ns, q);
      }
    }
    assert !Covered(dir, ns, dir) by {
      if Covered(dir, ns, dir) {
        CoveredWithin(dir, ns, dir);
      }
    }
    assert Agree(mid, fs', path);
    match Pruned(cfg, path, ns[0])
    case None =>
      assert kept == later;
    case Some(n) =>
      assert kept == [n] + later && kept[1..] == later && kept[0] == n;
      HoldsFrame(cfg, mid, fs', path, n);
      forall q
        ensures Covered(dir, kept, q) <==> Within(path, q) || Covered(dir, later, q)
      {
        CoveredSplits(dir, kept, q);
      }
  }

  lemma FirstApart(dir: string, ns: seq<Node>, q: string)
    requires ns != [] && WellNamedAll(ns) && Within(Join(dir, ns[0].name), q)
    ensures !Covered(dir, ns[1..], q) && q != dir
  {
    WithinTrans(dir, ns[0].name, q);
    NamesDiffer(ns);
    if Covered(dir, ns[1..], q) {
      var i :| 0 <= i < |ns[1..]| && Within(Join(dir, ns[1..][i].name), q);
      SiblingsApart(dir, ns[0].name, ns[i + 1].name, q);
    }
  }

  lemma CoveredSplits(dir: string, ns: seq<Node>, q: string)
    requires ns != []
    ensures Covered(dir, ns, q) <==> Within(Join(dir, ns[0].name), q) || Covered(dir, ns[1..], q)
  {
    if Covered(dir, ns, q) {
      var i :| 0 <= i < |ns| && Within(Join(dir, ns[i].name), q);
      if i > 0 {
        assert ns[1..][i - 1] == ns[i];
      }
    }
    if Covered(dir, ns[1..], q) {
      var i :| 0 <= i < |ns[1..]| && Within(Join(dir, ns[1..][i].name), q);
      assert ns[i + 1] == ns[1..][i];
    }
  }

  lemma {:induction false} NothingPruned(cfg: Config, path: string, n: Node)
    ensures Refusals(cfg, path, n) == 0 ==> Pruned(cfg, path, n) == Some(n)
    decreases n
  {
    if n.Dir? {
      NothingPrunedAll(cfg, path, n.children);
    }
  }

  lemma {:induction false} NothingPrunedAll(cfg: Config, dir: string, ns: seq<Node>)
    ensures RefusalsAll(cfg, dir, ns) == 0 ==> PrunedAll(cfg, dir, ns) == ns
    decreases ns
  {
    if ns != [] {
      NothingPruned(cfg, Join(dir, ns[0].name), ns[0]);
      NothingPrunedAll(cfg, dir, ns[1..]);
    }
  }

  // ---------- the round trip ----------

  /** Into an existing directory that uses none of the names: whatever the order of moves, both calls return if
      and only if no node dated before 1970 is come to under -p and a local sink refuses nothing, and then the
      target directory holds exactly the trees that were sent, less what the sink's system refused, and
      everything else is as it was. */
  lemma NewTreesArrive(cfg: Config, roots: seq<Node>, targ: string, fs: FileSystem, order: seq<Side>)
    requires targ != "" && targ in fs && fs[targ].DirEntry?
    requires WellNamedAll(roots) && RoomyAll(cfg, Place(targ, true), roots)
    requires forall i :: 0 <= i < |roots| ==> Vacant(fs, Join(targ, roots[i].name))
    requires var n := Run(cfg, Start(roots, targ, fs), order); n.Some? && Terminal(cfg, n.value)
    ensures var end, kept := Run(cfg, Start(roots, targ, fs), order).value, PrunedAll(cfg, targ, roots);
            && (Finished(end) <==>
                  Aborted(cfg, roots, targ, fs) == None && (cfg.sinkRemote || RefusalsAll(cfg, targ, roots) == 0))
            && (Finished(end) ==>
                  && end.src.errs == end.snk.errs == RefusalsAll(cfg, targ, roots)
                  && HoldsAll(cfg, end.snk.fs, targ, kept)
                  && OnlyCovered(fs, end.snk.fs, targ, roots)
                  && (forall q :: q in end.snk.fs && Covered(targ, roots, q) ==> Covered(targ, kept, q)))
            && (RefusalsAll(cfg, targ, roots) == 0 ==> kept == roots)
  {
    hide Run, Step, Finished, Holds, Covered;
    DepositAllBuilds(cfg, fs, targ, roots);
    NothingPrunedAll(cfg, targ, roots);
    FinishedIff(cfg, roots, targ, fs, order);
  }

  /** Onto a name that is not in use: on the same condition both calls return, and then the tree has arrived
      under that name, less what the sink's system refused. */
  lemma NewTreeArrives(cfg: Config, n: Node, targ: string, fs: FileSystem, order: seq<Side>)
    requires targ != "" && Vacant(fs, targ)
    requires WellNamed(n) && RoomyAll(cfg, Place(targ, false), [n])
    requires var m := Run(cfg, Start([n], targ, fs), order); m.Some? && Terminal(cfg, m.value)
    ensures var end, kept := Run(cfg, Start([n], targ, fs), order).value, Pruned(cfg, targ, n);
            && (Finished(end) <==>
                  Aborted(cfg, [n], targ, fs) == None && (cfg.sinkRemote || Refusals(cfg, targ, n) == 0))
            && (Finished(end) ==>
                  && end.src.errs == end.snk.errs == Refusals(cfg, targ, n)
                  && (kept.None? ==> end.snk.fs == fs)
                  && (kept.Some? ==> Holds(cfg, end.snk.fs, targ, kept.value))
                  && OnlyWithin(fs, end.snk.fs, targ, targ))
            && (Refusals(cfg, targ, n) == 0 ==> kept == Some(n))
  {
    hide Run, Step, Finished, Holds, Terminal, Roomy, RoomyAll, WellNamed;
    var p := Place(targ, false);
    assert Within(targ, targ) && targ !in fs;
    assert Start([n], targ, fs).snk.frames[0].place == p;
    DepositBuilds(cfg, fs, p, n);
    NothingPruned(cfg, targ, n);
    var d := Deposit(cfg, fs, p, n);
    assert [n][1..] == [];
    assert DepositAll(cfg, d.fs, p, []) == Deposited(d.fs, 0);
    assert DepositAll(cfg, fs, p, [n]) == d;
    FinishedIff(cfg, [n], targ, fs, order);
  }
}
