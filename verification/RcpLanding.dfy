/** What an rcp transfer leaves at the sink whatever is there already: existing files are replaced, existing
    directories are entered, and what is in the way is refused. */
module RcpLanding {
  import opened Wrappers
  import opened RcpRecords
  import opened RcpProtocol
  import opened RcpTransfer
  import opened RcpTree

  // ---------- the outcome, by what is there before ----------

  /** The system lets the node be opened or entered: judged by what is at its path before the transfer. */
  predicate Accepted(cfg: Config, fs: FileSystem, path: string, n: Node) {
    Obstacle(cfg, fs, path, n.Dir?).None?
  }

  function RefusedAt(cfg: Config, fs: FileSystem, path: string, n: Node): nat
    decreases n
  {
    if !Accepted(cfg, fs, path, n) then 1 else if n.File? then 0 else RefusedIn(cfg, fs, path, n.children)
  }

  function RefusedIn(cfg: Config, fs: FileSystem, dir: string, ns: seq<Node>): nat
    decreases ns
  {
    if ns == [] then 0 else RefusedAt(cfg, fs, Join(dir, ns[0].name), ns[0]) + RefusedIn(cfg, fs, dir, ns[1..])
  }

  /** `q` is the path of a node of the tree that is accepted, as are those above it. */
  predicate SentTo(cfg: Config, fs: FileSystem, path: string, n: Node, q: string)
    decreases n
  {
    Accepted(cfg, fs, path, n) && (q == path || (n.Dir? && SentInto(cfg, fs, path, n.children, q)))
  }

  predicate SentInto(cfg: Config, fs: FileSystem, dir: string, ns: seq<Node>, q: string)
    decreases ns
  {
    ns != [] && (SentTo(cfg, fs, Join(dir, ns[0].name), ns[0], q) || SentInto(cfg, fs, dir, ns[1..], q))
  }

  /** One of the nodes makes a new name in `dir`. */
  predicate Adds(cfg: Config, fs: FileSystem, dir: string, ns: seq<Node>)
    decreases ns
  {
    ns != [] && (NewName(cfg, fs, Join(dir, ns[0].name), ns[0]) || Adds(cfg, fs, dir, ns[1..]))
  }

  predicate NewName(cfg: Config, fs: FileSystem, path: string, n: Node) {
    Accepted(cfg, fs, path, n) && path !in fs
  }

  /** A directory's entry when names have been added to it, or have not. */
  function Touched(e: Entry, adds: bool): Entry {
    if adds && e.DirEntry? then e.(times := None) else e
  }

  function LandedMode(cfg: Config, fs: FileSystem, path: string, mode: bv12): bv12 {
    if cfg.pflag then mode else if path in fs then fs[path].mode else mode & !cfg.umask
  }

  /** The entry that an accepted node gets. */
  function Landed(cfg: Config, fs: FileSystem, path: string, n: Node): Entry {
    match n
    case File(_, mode, mtime, atime, data) =>
      FileEntry(LandedMode(cfg, fs, path, mode), if cfg.pflag then Some(Times(mtime, 0, atime, 0)) else None, data)
    case Dir(_, mode, mtime, atime, children) =>
      DirEntry(LandedMode(cfg, fs, path, mode),
        if cfg.pflag then Some(Times(mtime, 0, atime, 0))
        else if path in fs && !Adds(cfg, fs, path, children) then fs[path].times else None)
  }

  /** Every accepted node of the tree has its entry in `fs'`. */
  ghost predicate Arrived(cfg: Config, fs: FileSystem, fs': FileSystem, path: string, n: Node)
    decreases n
  {
    Accepted(cfg, fs, path, n) ==>
      && path in fs' && fs'[path] == Landed(cfg, fs, path, n)
      && (n.Dir? ==> ArrivedIn(cfg, fs, fs', path, n.children))
  }

  ghost predicate ArrivedIn(cfg: Config, fs: FileSystem, fs': FileSystem, dir: string, ns: seq<Node>)
    decreases ns
  {
    ns == [] || (Arrived(cfg, fs, fs', Join(dir, ns[0].name), ns[0]) && ArrivedIn(cfg, fs, fs', dir, ns[1..]))
  }

  ghost predicate SameAt(fs: FileSystem, fs': FileSystem, q: string) {
    (q in fs <==> q in fs') && (q in fs ==> fs'[q] == fs[q])
  }

  // ---------- only what is within the path matters ----------

  lemma AgreeBelow(fs: FileSystem, fs': FileSystem, path: string, name: string)
    requires Agree(fs, fs', path)
    ensures Agree(fs, fs', Join(path, name))
  {
    forall q | Within(Join(path, name), q)
      ensures Within(path, q)
    {
      WithinTrans(path, name, q);
    }
  }

  /** The names below `dir` that the nodes take. */
  ghost predicate AgreeOn(fs: FileSystem, fs': FileSystem, dir: string, ns: seq<Node>) {
    forall i :: 0 <= i < |ns| ==> Agree(fs, fs', Join(dir, ns[i].name))
  }

  lemma AgreeOnRest(fs: FileSystem, fs': FileSystem, dir: string, ns: seq<Node>)
    requires AgreeOn(fs, fs', dir, ns) && ns != []
    ensures Agree(fs, fs', Join(dir, ns[0].name)) && AgreeOn(fs, fs', dir, ns[1..])
  {
    forall i | 0 <= i < |ns[1..]|
      ensures Agree(fs, fs', Join(dir, ns[1..][i].name))
    {
      assert ns[1..][i] == ns[i + 1];
    }
  }

  lemma AgreeOnAll(fs: FileSystem, fs': FileSystem, path: string, ns: seq<Node>)
    requires Agree(fs, fs', path)
    ensures AgreeOn(fs, fs', path, ns)
  {
    forall i | 0 <= i < |ns|
      ensures Agree(fs, fs', Join(path, ns[i].name))
    {
      AgreeBelow(fs, fs', path, ns[i].name);
    }
  }

  lemma {:induction false} SameOutcome(cfg: Config, fs: FileSystem, mid: FileSystem, fs': FileSystem, path: string,
                                       n: Node)
    requires Agree(fs, mid, path)
    ensures Accepted(cfg, mid, path, n) == Accepted(cfg, fs, path, n)
    ensures RefusedAt(cfg, mid, path, n) == RefusedAt(cfg, fs, path, n)
    ensures Arrived(cfg, mid, fs', path, n) <==> Arrived(cfg, fs, fs', path, n)
    ensures forall q :: SentTo(cfg, mid, path, n, q) == SentTo(cfg, fs, path, n, q)
    decreases n
  {
    hide Agree;
    assert SameAt(fs, mid, path) by {
      HereToo(fs, mid, path);
    }
    if n.Dir? {
      AgreeOnAll(fs, mid, path, n.children);
      SameOutcomes(cfg, fs, mid, fs', path, n.children);
    }
  }

  lemma HereToo(fs: FileSystem, fs': FileSystem, path: string)
    requires Agree(fs, fs', path)
    ensures SameAt(fs, fs', path)
  {
    assert Within(path, path);
  }

  lemma {:induction false} SameOutcomes(cfg: Config, fs: FileSystem, mid: FileSystem, fs': FileSystem, dir: string,
                                        ns: seq<Node>)
    requires AgreeOn(fs, mid, dir, ns)
    ensures RefusedIn(cfg, mid, dir, ns) == RefusedIn(cfg, fs, dir, ns)
    ensures ArrivedIn(cfg, mid, fs', dir, ns) <==> ArrivedIn(cfg, fs, fs', dir, ns)
    ensures forall q :: SentInto(cfg, mid, dir, ns, q) == SentInto(cfg, fs, dir, ns, q)
    ensures Adds(cfg, mid, dir, ns) == Adds(cfg, fs, dir, ns)
    decreases ns
  {
    hide Agree, AgreeOn, Accepted;
    if ns != [] {
      AgreeOnRest(fs, mid, dir, ns);
      HereToo(fs, mid, Join(dir, ns[0].name));
      SameOutcome(cfg, fs, mid, fs', Join(dir, ns[0].name), ns[0]);
      SameOutcomes(cfg, fs, mid, fs', dir, ns[1..]);
    }
  }

  lemma {:induction false} ArrivedStays(cfg: Config, fs: FileSystem, fs': FileSystem, fs'': FileSystem, path: string,
                                        n: Node)
    requires Agree(fs', fs'', path) && Arrived(cfg, fs, fs', path, n)
    ensures Arrived(cfg, fs, fs'', path, n)
    decreases n
  {
    hide Agree, Landed;
    HereToo(fs', fs'', path);
    if n.Dir? && Accepted(cfg, fs, path, n) {
      AgreeOnAll(fs', fs'', path, n.children);
      AllArrivedStay(cfg, fs, fs', fs'', path, n.children);
    }
  }

  lemma {:induction false} AllArrivedStay(cfg: Config, fs: FileSystem, fs': FileSystem, fs'': FileSystem, dir: string,
                                          ns: seq<Node>)
    requires AgreeOn(fs', fs'', dir, ns) && ArrivedIn(cfg, fs, fs', dir, ns)
    ensures ArrivedIn(cfg, fs, fs'', dir, ns)
    decreases ns
  {
    hide Agree, AgreeOn;
    if ns != [] {
      AgreeOnRest(fs', fs'', dir, ns);
      ArrivedStays(cfg, fs, fs', fs'', Join(dir, ns[0].name), ns[0]);
      AllArrivedStay(cfg, fs, fs', fs'', dir, ns[1..]);
    }
  }

  lemma {:induction false} SentWithin(cfg: Config, fs: FileSystem, path: string, n: Node, q: string)
    requires SentTo(cfg, fs, path, n, q)
    ensures Within(path, q)
    decreases n
  {
    if q != path {
      SentIsCovered(cfg, fs, path, n.children, q);
      CoveredWithin(path, n.children, q);
    }
  }

  lemma {:induction false} SentIsCovered(cfg: Config, fs: FileSystem, dir: string, ns: seq<Node>, q: string)
    requires SentInto(cfg, fs, dir, ns, q)
    ensures Covered(dir, ns, q)
    decreases ns
  {
    CoveredSplits(dir, ns, q);
    if SentTo(cfg, fs, Join(dir, ns[0].name), ns[0], q) {
      SentWithin(cfg, fs, Join(dir, ns[0].name), ns[0], q);
    } else {
      SentIsCovered(cfg, fs, dir, ns[1..], q);
    }
  }

  // ---------- what a deposit does ----------

  /** The deposit `d` of one node: its entries, the names added to `dir`, the refusals, and nothing else. */
  ghost predicate Meets(cfg: Config, fs: FileSystem, d: Deposited, dir: string, path: string, n: Node) {
    && d.refusals == RefusedAt(cfg, fs, path, n)
    && Arrived(cfg, fs, d.fs, path, n)
    && (forall q :: !SentTo(cfg, fs, path, n, q) && q != dir ==> SameAt(fs, d.fs, q))
    && (dir != path ==> IsTouched(fs, d.fs, dir, NewName(cfg, fs, path, n)))
    && (!Accepted(cfg, fs, path, n) ==> d.fs == fs)
  }

  ghost predicate IsTouched(fs: FileSystem, fs': FileSystem, dir: string, adds: bool) {
    (dir in fs <==> dir in fs') && (dir in fs ==> fs'[dir] == Touched(fs[dir], adds))
  }

  ghost predicate MeetsAll(cfg: Config, fs: FileSystem, d: Deposited, dir: string, ns: seq<Node>) {
    && d.refusals == RefusedIn(cfg, fs, dir, ns)
    && ArrivedIn(cfg, fs, d.fs, dir, ns)
    && (forall q :: !SentInto(cfg, fs, dir, ns, q) && q != dir ==> SameAt(fs, d.fs, q))
    && IsTouched(fs, d.fs, dir, Adds(cfg, fs, dir, ns))
  }

  lemma FileLands(cfg: Config, fs: FileSystem, p: Place, n: Node)
    requires n.File? && Accepted(cfg, fs, PathIn(p, n.name), n)
    ensures Meets(cfg, fs, Deposit(cfg, fs, p, n), p.targ, PathIn(p, n.name), n)
  {
    var path := PathIn(p, n.name);
    var atOpen := OpenFile(cfg, fs, p.targ, path, n.mode);
    var before := atOpen[path].content;
    assert Truncated(Overwritten(before, n.data), |n.data|) == n.data;
  }

  lemma {:induction false} DepositLands(cfg: Config, fs: FileSystem, p: Place, n: Node)
    requires WellNamed(n) && p.targ != ""
    ensures Meets(cfg, fs, Deposit(cfg, fs, p, n), p.targ, PathIn(p, n.name), n)
    decreases n
  {
    var path := PathIn(p, n.name);
    if Accepted(cfg, fs, path, n) {
      if n.File? {
        FileLands(cfg, fs, p, n);
      } else {
        PathNotEmpty(p, n.name);
        var made := MakeDirectory(cfg, fs, p.targ, path, n.mode);
        DepositAllLands(cfg, made, path, n.children);
        DirectoryLands(cfg, fs, p, n);
      }
    }
  }

  lemma DirectoryLands(cfg: Config, fs: FileSystem, p: Place, n: Node)
    requires n.Dir? && p.targ != "" && Accepted(cfg, fs, PathIn(p, n.name), n)
    requires var path := PathIn(p, n.name);
      var made := MakeDirectory(cfg, fs, p.targ, path, n.mode);
      MeetsAll(cfg, made, DepositAll(cfg, made, Place(path, true), n.children), path, n.children)
    ensures Meets(cfg, fs, Deposit(cfg, fs, p, n), p.targ, PathIn(p, n.name), n)
  {
    hide Agree, AgreeOn, MakeDirectory, DepositAll, PathIn, Meets, SentInto, ArrivedIn, RefusedIn, Adds;
    var path := PathIn(p, n.name);
    PathNotEmpty(p, n.name);
    var made := MakeDirectory(cfg, fs, p.targ, path, n.mode);
    var inside := DepositAll(cfg, made, Place(path, true), n.children);
    var fs' := Stamp(inside.fs, path, SentTimes(cfg, n));
    MadeAgrees(cfg, fs, made, p, n);
    SameOutcomes(cfg, fs, made, inside.fs, path, n.children);
    StampAgrees(inside.fs, fs', path, n.children);
    AllArrivedStay(cfg, fs, inside.fs, fs', path, n.children);
    TargetIsAbove(cfg, fs, p, n);
    EnteredAndStamped(cfg, fs, made, inside, p.targ, path, n);
  }

  /** The three steps put together: the directory is there, what is in it has landed, its times are set. */
  lemma EnteredAndStamped(cfg: Config, fs: FileSystem, made: FileSystem, inside: Deposited, dir: string, path: string,
                          n: Node)
    requires n.Dir? && Accepted(cfg, fs, path, n)
    requires path in made
    requires made[path] == DirEntry(LandedMode(cfg, fs, path, n.mode), if path in fs then fs[path].times else None)
    requires forall q :: q != path && q != dir ==> SameAt(fs, made, q)
    requires dir != path ==> IsTouched(fs, made, dir, NewName(cfg, fs, path, n))
    requires inside.refusals == RefusedIn(cfg, fs, path, n.children)
    requires ArrivedIn(cfg, fs, Stamp(inside.fs, path, SentTimes(cfg, n)), path, n.children)
    requires forall q :: !SentInto(cfg, fs, path, n.children, q) && q != path ==> SameAt(made, inside.fs, q)
    requires IsTouched(made, inside.fs, path, Adds(cfg, fs, path, n.children))
    requires !SentInto(cfg, fs, path, n.children, dir) && !SentInto(cfg, fs, path, n.children, path)
    ensures Meets(cfg, fs, Deposited(Stamp(inside.fs, path, SentTimes(cfg, n)), inside.refusals), dir, path, n)
  {
    hide Accepted, NewName, SentInto, ArrivedIn, RefusedIn, Adds, LandedMode;
    var fs' := Stamp(inside.fs, path, SentTimes(cfg, n));
    assert fs'[path] == Landed(cfg, fs, path, n) by {
      LandedDir(cfg, fs, made[path], inside.fs[path], path, n);
    }
    forall q | !SentTo(cfg, fs, path, n, q) && q != dir
      ensures SameAt(fs, fs', q)
    {
      assert SameAt(fs, made, q) && SameAt(made, inside.fs, q);
    }
  }

  lemma LandedDir(cfg: Config, fs: FileSystem, made: Entry, inside: Entry, path: string, n: Node)
    requires n.Dir?
    requires made == DirEntry(LandedMode(cfg, fs, path, n.mode), if path in fs then fs[path].times else None)
    requires inside == Touched(made, Adds(cfg, fs, path, n.children))
    ensures Landed(cfg, fs, path, n) == if cfg.pflag then inside.(times := SentTimes(cfg, n)) else inside
  {
    hide LandedMode, Adds;
  }

  lemma TargetIsAbove(cfg: Config, fs: FileSystem, p: Place, n: Node)
    requires n.Dir? && p.targ != ""
    ensures !SentInto(cfg, fs, PathIn(p, n.name), n.children, p.targ)
    ensures !SentInto(cfg, fs, PathIn(p, n.name), n.children, PathIn(p, n.name))
  {
    var path := PathIn(p, n.name);
    PathNotEmpty(p, n.name);
    forall q | SentInto(cfg, fs, path, n.children, q)
      ensures Within(path, q) && q != path
    {
      SentIsCovered(cfg, fs, path, n.children, q);
      CoveredWithin(path, n.children, q);
    }
  }

  lemma MadeAgrees(cfg: Config, fs: FileSystem, made: FileSystem, p: Place, n: Node)
    requires p.targ != "" && n.Dir? && Accepted(cfg, fs, PathIn(p, n.name), n)
    requires made == MakeDirectory(cfg, fs, p.targ, PathIn(p, n.name), n.mode)
    ensures var path := PathIn(p, n.name);
      && AgreeOn(fs, made, path, n.children)
      && path in made
      && made[path] == DirEntry(LandedMode(cfg, fs, path, n.mode), if path in fs then fs[path].times else None)
      && (forall q :: q != path && q != p.targ ==> SameAt(fs, made, q))
      && (p.targ != path ==> IsTouched(fs, made, p.targ, NewName(cfg, fs, path, n)))
  {
    var path := PathIn(p, n.name);
    PathNotEmpty(p, n.name);
    forall i | 0 <= i < |n.children|
      ensures Agree(fs, made, Join(path, n.children[i].name))
    {
      assert !Within(Join(path, n.children[i].name), path);
      assert !Within(Join(path, n.children[i].name), p.targ);
    }
  }

  lemma StampAgrees(fs: FileSystem, fs': FileSystem, path: string, ns: seq<Node>)
    requires forall q :: q != path ==> SameAt(fs, fs', q)
    ensures AgreeOn(fs, fs', path, ns)
  {
    forall i | 0 <= i < |ns|
      ensures Agree(fs, fs', Join(path, ns[i].name))
    {
      forall q | Within(Join(path, ns[i].name), q)
        ensures SameAt(fs, fs', q)
      {
        WithinTrans(path, ns[i].name, q);
      }
    }
  }

  lemma {:induction false} DepositAllLands(cfg: Config, fs: FileSystem, dir: string, ns: seq<Node>)
    requires WellNamedAll(ns) && dir != ""
    ensures MeetsAll(cfg, fs, DepositAll(cfg, fs, Place(dir, true), ns), dir, ns)
    decreases ns
  {
    hide Deposit, Meets, WellNamed;
    if ns != [] {
      var p := Place(dir, true);
      assert PathIn(p, ns[0].name) == Join(dir, ns[0].name);
      DepositLands(cfg, fs, p, ns[0]);
      var mid := Deposit(cfg, fs, p, ns[0]);
      DepositAllLands(cfg, mid.fs, dir, ns[1..]);
      FirstAndRest(cfg, fs, mid, DepositAll(cfg, mid.fs, p, ns[1..]), dir, ns);
    }
  }

  lemma FirstAndRest(cfg: Config, fs: FileSystem, mid: Deposited, last: Deposited, dir: string, ns: seq<Node>)
    requires ns != [] && WellNamedAll(ns) && dir != ""
    requires Meets(cfg, fs, mid, dir, Join(dir, ns[0].name), ns[0])
    requires MeetsAll(cfg, mid.fs, last, dir, ns[1..])
    ensures MeetsAll(cfg, fs, Deposited(last.fs, mid.refusals + last.refusals), dir, ns)
  {
    hide Within, Covered, Join, WellNamedAll, Arrived, SentTo, Landed, RefusedAt, Accepted;
    var path, rest := Join(dir, ns[0].name), ns[1..];
    DirIsAbove(dir, ns[0].name);
    RestUntouched(cfg, fs, mid.fs, dir, ns);
    SameOutcomes(cfg, fs, mid.fs, last.fs, dir, rest);
    FirstUntouched(cfg, mid.fs, last.fs, dir, ns);
    ArrivedStays(cfg, fs, mid.fs, last.fs, path, ns[0]);
    var d := Deposited(last.fs, mid.refusals + last.refusals);
    assert d.refusals == RefusedIn(cfg, fs, dir, ns);
    assert ArrivedIn(cfg, fs, d.fs, dir, ns);
    assert IsTouched(fs, d.fs, dir, Adds(cfg, fs, dir, ns));
    forall q | !SentInto(cfg, fs, dir, ns, q) && q != dir
      ensures SameAt(fs, d.fs, q)
    {
      assert !SentTo(cfg, fs, path, ns[0], q) && !SentInto(cfg, mid.fs, dir, rest, q);
      assert SameAt(fs, mid.fs, q) && SameAt(mid.fs, last.fs, q);
    }
  }

  lemma DirIsAbove(dir: string, name: string)
    ensures dir != Join(dir, name)
  {
  }

  lemma RestUntouched(cfg: Config, fs: FileSystem, mid: FileSystem, dir: string, ns: seq<Node>)
    requires ns != [] && WellNamedAll(ns)
    requires forall q :: !SentTo(cfg, fs, Join(dir, ns[0].name), ns[0], q) && q != dir ==> SameAt(fs, mid, q)
    ensures AgreeOn(fs, mid, dir, ns[1..])
  {
    hide WellNamedAll, SentTo, Accepted;
    NamesDiffer(ns);
    forall i | 0 <= i < |ns[1..]|
      ensures Agree(fs, mid, Join(dir, ns[1..][i].name))
    {
      var name := ns[i + 1].name;
      assert ns[1..][i] == ns[i + 1];
      forall q | Within(Join(dir, name), q)
        ensures SameAt(fs, mid, q)
      {
        WithinTrans(dir, name, q);
        if SentTo(cfg, fs, Join(dir, ns[0].name), ns[0], q) {
          SentWithin(cfg, fs, Join(dir, ns[0].name), ns[0], q);
          SiblingsApart(dir, ns[0].name, name, q);
        }
      }
    }
  }

  lemma FirstUntouched(cfg: Config, mid: FileSystem, last: FileSystem, dir: string, ns: seq<Node>)
    requires ns != [] && WellNamedAll(ns)
    requires forall q :: !SentInto(cfg, mid, dir, ns[1..], q) && q != dir ==> SameAt(mid, last, q)
    ensures Agree(mid, last, Join(dir, ns[0].name))
  {
    hide SentInto, Covered;
    forall q | Within(Join(dir, ns[0].name), q)
      ensures SameAt(mid, last, q)
    {
      FirstApart(dir, ns, q);
      if SentInto(cfg, mid, dir, ns[1..], q) {
        SentIsCovered(cfg, mid, dir, ns[1..], q);
      }
    }
  }

  // ---------- every run ----------

  /** Into an existing directory, whatever is in it, and however the moves of the two sides are interleaved: both
      calls return if and only if no node dated before 1970 is come to under -p and a local sink refuses nothing.
      Then every node that the sink's system accepts is there with the sent content or as a directory, with its
      mode and times; refusals are those of what was in the way, counted on both sides; every other path is as
      it was, and the directory itself but for its times when names were added. */
  lemma TreesArrive(cfg: Config, roots: seq<Node>, targ: string, fs: FileSystem, order: seq<Side>)
    requires targ != "" && targ in fs && fs[targ].DirEntry?
    requires WellNamedAll(roots) && RoomyAll(cfg, Place(targ, true), roots)
    requires var n := Run(cfg, Start(roots, targ, fs), order); n.Some? && Terminal(cfg, n.value)
    ensures var end := Run(cfg, Start(roots, targ, fs), order).value;
      && (Finished(end) <==>
            Aborted(cfg, roots, targ, fs) == None && (cfg.sinkRemote || RefusedIn(cfg, fs, targ, roots) == 0))
      && (Finished(end) ==>
            && end.src.errs == end.snk.errs == RefusedIn(cfg, fs, targ, roots)
            && ArrivedIn(cfg, fs, end.snk.fs, targ, roots)
            && (forall q :: !SentInto(cfg, fs, targ, roots, q) && q != targ ==> SameAt(fs, end.snk.fs, q))
            && IsTouched(fs, end.snk.fs, targ, Adds(cfg, fs, targ, roots)))
  {
    hide Run, Step, Finished, ArrivedIn, SentInto, Adds, WellNamedAll, RoomyAll, Terminal, DepositAll, AbortIn;
    DepositAllLands(cfg, fs, targ, roots);
    FinishedIff(cfg, roots, targ, fs, order);
  }

  /** Onto a name that is no directory: both calls return on the same condition, and then the one node sent has
      that name, which may have been unused or a file's. */
  lemma TreeArrivesAs(cfg: Config, n: Node, targ: string, fs: FileSystem, order: seq<Side>)
    requires targ != "" && (targ in fs ==> fs[targ].FileEntry?)
    requires WellNamed(n) && RoomyAll(cfg, Place(targ, false), [n])
    requires var m := Run(cfg, Start([n], targ, fs), order); m.Some? && Terminal(cfg, m.value)
    ensures var end := Run(cfg, Start([n], targ, fs), order).value;
      && (Finished(end) <==>
            Aborted(cfg, [n], targ, fs) == None && (cfg.sinkRemote || RefusedAt(cfg, fs, targ, n) == 0))
      && (Finished(end) ==>
            && end.src.errs == end.snk.errs == RefusedAt(cfg, fs, targ, n)
            && Arrived(cfg, fs, end.snk.fs, targ, n)
            && (forall q :: !SentTo(cfg, fs, targ, n, q) ==> SameAt(fs, end.snk.fs, q)))
  {
    hide Run, Step, Finished, Arrived, SentTo, WellNamed, RoomyAll, Terminal, Deposit, AbortIn;
    var p := Place(targ, false);
    DepositLands(cfg, fs, p, n);
    OnlyOne(cfg, fs, p, n);
    FinishedIff(cfg, [n], targ, fs, order);
    TargetIsSentOrRefused(cfg, fs, targ, n);
  }

  lemma OnlyOne(cfg: Config, fs: FileSystem, p: Place, n: Node)
    ensures DepositAll(cfg, fs, p, [n]) == Deposit(cfg, fs, p, n)
  {
    var d := Deposit(cfg, fs, p, n);
    assert [n][1..] == [];
    assert DepositAll(cfg, d.fs, p, []) == Deposited(d.fs, 0);
  }

  lemma TargetIsSentOrRefused(cfg: Config, fs: FileSystem, targ: string, n: Node)
    ensures SentTo(cfg, fs, targ, n, targ) <==> Accepted(cfg, fs, targ, n)
  {
  }

  /** A file sent onto one that is there: whatever the order of moves, and whether it is named by the target
      or found in a target directory, it ends as exactly the sent octets, its mode changes only under -p, and
      nothing else changes; or under -p, if it is dated before 1970, nothing changes at all. */
  lemma ExistingFileReplaced(cfg: Config, n: Node, targ: string, fs: FileSystem, order: seq<Side>)
    requires n.File? && WellNamed(n) && targ != "" && targ in fs
    requires RoomyAll(cfg, Place(targ, fs[targ].DirEntry?), [n])
    requires var path := PathIn(Place(targ, fs[targ].DirEntry?), n.name);
      path in fs && fs[path].FileEntry? && path !in cfg.denied
    requires var m := Run(cfg, Start([n], targ, fs), order); m.Some? && Terminal(cfg, m.value)
    ensures var end := Run(cfg, Start([n], targ, fs), order).value;
      var path := PathIn(Place(targ, fs[targ].DirEntry?), n.name);
      && (Finished(end) <==> !(cfg.pflag && Early(n)))
      && (Finished(end) ==> end.src.errs == end.snk.errs == 0)
      && end.snk.fs == if cfg.pflag && Early(n) then fs else
           fs[path := if cfg.pflag then FileEntry(n.mode, Some(Times(n.mtime, 0, n.atime, 0)), n.data)
                      else FileEntry(fs[path].mode, None, n.data)]
  {
    hide Run, Step, Finished, RoomyAll, Terminal;
    AbortInIff(cfg, fs, Place(targ, fs[targ].DirEntry?), [n]);
    assert [n][1..] == [] && !AnyEarly([]);
    var p := Place(targ, fs[targ].DirEntry?);
    var path := PathIn(p, n.name);
    assert Truncated(Overwritten(fs[path].content, n.data), |n.data|) == n.data;
    OnlyOne(cfg, fs, p, n);
    FinishedIff(cfg, [n], targ, fs, order);
  }
}
