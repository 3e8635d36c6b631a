/** One complete order of moves for an rcp transfer, and with it the outcome of every order. */
module RcpTransfer {
  import opened Wrappers
  import opened RcpRecords
  import opened RcpProtocol
  import opened RcpRuns

  // ---------- what a transfer is meant to do ----------

  datatype Deposited = Deposited(fs: FileSystem, refusals: nat)

  function SentTimes(cfg: Config, n: Node): Option<Times> {
    if cfg.pflag then Some(Times(n.mtime, 0, n.atime, 0)) else None
  }

  /** The sink's file system after `n` has been placed in `p`, and how many nodes it refused.
      A refused directory takes its whole subtree with it. */
  function Deposit(cfg: Config, fs: FileSystem, p: Place, n: Node): Deposited
    decreases n
  {
    var path := PathIn(p, n.name);
    if Obstacle(cfg, fs, path, n.Dir?).Some? then Deposited(fs, 1) else
    match n
    case File(_, mode, _, _, data) =>
      var atOpen := OpenFile(cfg, fs, p.targ, path, mode);
      Deposited(Stamp(StoreContent(atOpen, path, data), path, SentTimes(cfg, n)), 0)
    case Dir(_, mode, _, _, children) =>
      var made := MakeDirectory(cfg, fs, p.targ, path, mode);
      var inside := DepositAll(cfg, made, Place(path, true), children);
      Deposited(Stamp(inside.fs, path, SentTimes(cfg, n)), inside.refusals)
  }

  function DepositAll(cfg: Config, fs: FileSystem, p: Place, ns: seq<Node>): Deposited
    decreases ns
  {
    if ns == [] then Deposited(fs, 0) else
    var d := Deposit(cfg, fs, p, ns[0]);
    var ds := DepositAll(cfg, d.fs, p, ns[1..]);
    Deposited(ds.fs, d.refusals + ds.refusals)
  }

  /** Dated before 1970. */
  predicate Early(n: Node) { n.mtime < 0 || n.atime < 0 }

  function EarlyReason(n: Node): string
    requires Early(n)
  {
    if n.mtime < 0 then "mtime.sec not delimited" else "atime.sec not delimited"
  }

  /** The traversal comes to a node dated before 1970 under -p, at which the sink gives up: the file system as
      it is then.  None if it does not come to one, because there is none, or none that is asked for: what is
      below a refused directory is not, and with a local sink nothing is after the first refusal. */
  function AbortAt(cfg: Config, fs: FileSystem, p: Place, n: Node): Option<FileSystem>
    decreases n
  {
    var path := PathIn(p, n.name);
    if cfg.pflag && Early(n) then Some(fs)
    else if n.File? || Obstacle(cfg, fs, path, true).Some? then None
    else AbortIn(cfg, MakeDirectory(cfg, fs, p.targ, path, n.mode), Place(path, true), n.children)
  }

  function AbortIn(cfg: Config, fs: FileSystem, p: Place, ns: seq<Node>): Option<FileSystem>
    decreases ns
  {
    if ns == [] then None else
    var a, d := AbortAt(cfg, fs, p, ns[0]), Deposit(cfg, fs, p, ns[0]);
    if a.Some? then a
    else if cfg.sinkRemote || d.refusals == 0 then AbortIn(cfg, d.fs, p, ns[1..])
    else None
  }

  lemma InTurn(cfg: Config, fs: FileSystem, p: Place, ns: seq<Node>)
    ensures ns == [] ==> DepositAll(cfg, fs, p, ns) == Deposited(fs, 0) && AbortIn(cfg, fs, p, ns) == None
    ensures ns != [] ==>
              var a, d := AbortAt(cfg, fs, p, ns[0]), Deposit(cfg, fs, p, ns[0]);
              var ds := DepositAll(cfg, d.fs, p, ns[1..]);
              && DepositAll(cfg, fs, p, ns) == Deposited(ds.fs, d.refusals + ds.refusals)
              && AbortIn(cfg, fs, p, ns) ==
                 if a.Some? || (!cfg.sinkRemote && d.refusals > 0) then a else AbortIn(cfg, d.fs, p, ns[1..])
  {
  }

  // ---------- what fits the buffers ----------

  predicate ErrorFits(path: string, why: string) {
    NoControl(path) && NoControl(why) && |path| + |why| + 8 <= RCP_BUFSIZ - 2
  }

  /** Every line and path of the tree fits the buffers of both programs, and so does any complaint about it. */
  predicate Roomy(cfg: Config, p: Place, n: Node)
    decreases n
  {
    var path := PathIn(p, n.name);
    && NoControl(n.name)
    && |Header(n)| + 1 < RCP_BUFSIZ
    && |TimesLine(n.mtime, n.atime)| + 1 < RCP_BUFSIZ
    && !TooLong(p, n.name)
    && ErrorFits(path, NOT_A_DIRECTORY)
    && ErrorFits(path, IS_A_DIRECTORY)
    && (path in cfg.denied ==> ErrorFits(path, cfg.denied[path]))
    && (n.Dir? ==> RoomyAll(cfg, Place(path, true), n.children))
  }

  predicate RoomyAll(cfg: Config, p: Place, ns: seq<Node>)
    decreases ns
  {
    ns == [] || (Roomy(cfg, p, ns[0]) && RoomyAll(cfg, p, ns[1..]))
  }

  // ---------- single exchanges ----------

  /** Nobody has anything to read: the source is about to run `tasks`, the sink waits for a line. */
  function Idle(tasks: seq<Task>, srcErrs: nat, frames: seq<Frame>, fs: FileSystem, snkErrs: nat): Net {
    Net(Source(tasks, Fresh, srcErrs, false), Sink(frames, ReadLine(""), fs, snkErrs, false), "", "")
  }

  lemma {:induction false} SinkReads(cfg: Config, n: Net, done: string, rest: string) returns (order: seq<Side>)
    requires !SinkDone(n.snk) && n.snk.phase == ReadLine(done)
    requires n.toSink == rest + "\n" && '\n' !in rest
    ensures var m := Obey(cfg, n.snk.(phase := ReadLine(done + rest)), Parse(done + rest, n.snk.frames[0].first));
            Run(cfg, n, order) == Some(n.(snk := m.next, toSink := "", toSource := n.toSource + m.sent))
    decreases |rest|
  {
    var line := done + rest;
    if rest == "" {
      assert line == done;
      order := [AtSink];
      assert n.toSink == "\n";
      assert n.snk.(phase := ReadLine(line)) == n.snk;
      ObeyTakesOne(cfg, n.snk, Parse(line, n.snk.frames[0].first));
      assert Run(cfg, Step(cfg, n, AtSink).value, []) == Step(cfg, n, AtSink);
    } else {
      var m := n.(snk := n.snk.(phase := ReadLine(done + [rest[0]])), toSink := rest[1..] + "\n");
      assert n.toSink[0] == rest[0] && n.toSink[1..] == rest[1..] + "\n";
      assert n.toSource + "" == n.toSource;
      assert Step(cfg, n, AtSink) == Some(m);
      assert (done + [rest[0]]) + rest[1..] == line;
      var o := SinkReads(cfg, m, done + [rest[0]], rest[1..]);
      order := [AtSink] + o;
      assert order[1..] == o;
    }
  }

  lemma ObeyTakesOne(cfg: Config, s: Sink, c: Command)
    requires s.frames != []
    ensures Obey(cfg, s, c).Move? && Obey(cfg, s, c).taken == 1
  {
  }

  lemma SourceSpeaks(cfg: Config, n: Net, s: Source, sent: string)
    requires SourceMove(cfg, n.src, n.toSource, SinkDone(n.snk)) == Move(s, 0, sent)
    ensures Run(cfg, n, [AtSource]) == Some(n.(src := s, toSink := n.toSink + sent))
  {
    assert n.toSource[0..] == n.toSource;
    assert [AtSource][1..] == [];
  }

  lemma SourceAccepts(cfg: Config, n: Net)
    requires !SourceDone(n.src) && n.src.reply == Fresh && n.toSource == ACK
    requires n.src.tasks[0].AwaitGreeting? || n.src.tasks[0].AwaitTimes? || n.src.tasks[0].AwaitHeader?
          || n.src.tasks[0].AwaitStored? || n.src.tasks[0].AwaitLeave?
    ensures Run(cfg, n, [AtSource])
         == Some(n.(src := n.src.(tasks := OnAccept(n.src.tasks[0]) + n.src.tasks[1..]), toSource := ""))
  {
    var s := n.src.(tasks := OnAccept(n.src.tasks[0]) + n.src.tasks[1..]);
    var m := n.(src := s, toSource := "");
    assert n.toSink + "" == n.toSink;
    assert s == n.src.(tasks := OnAccept(n.src.tasks[0]) + n.src.tasks[1..], reply := Fresh);
    assert SourceAwaits(cfg, n.src, ACK, SinkDone(n.snk)) == Move(s, 1, "");
    assert SourceMove(cfg, n.src, ACK, SinkDone(n.snk)) == Move(s, 1, "");
    assert ACK[1..] == "";
    assert Step(cfg, n, AtSource) == Some(m);
    assert [AtSource][1..] == [];
  }

  /** A complaint read by the source ends the record it answers. */
  lemma {:induction false} SourceRefused(cfg: Config, n: Net, count: nat, text: string) returns (order: seq<Side>)
    requires !SourceDone(n.src) && (n.src.tasks[0].AwaitHeader? || n.src.tasks[0].AwaitTimes?)
    requires n.src.reply == Reading(ERROR_MARK, count) && n.toSource == text + "\n"
    requires '\n' !in text && count + |text| + 1 < RCP_BUFSIZ
    ensures Run(cfg, n, order)
         == Some(n.(src := n.src.(tasks := n.src.tasks[1..], reply := Fresh, errs := n.src.errs + 1), toSource := ""))
    decreases |text|
  {
    hide Step;
    ComplaintRead(cfg, n, count, text);
    if text == "" {
      order := [AtSource];
      assert [AtSource][1..] == [];
    } else {
      var m := n.(src := n.src.(reply := Reading(ERROR_MARK, count + 1)), toSource := text[1..] + "\n");
      var o := SourceRefused(cfg, m, count + 1, text[1..]);
      order := [AtSource] + o;
      assert order[1..] == o;
    }
  }

  /** One octet of a complaint, its newline included. */
  lemma ComplaintRead(cfg: Config, n: Net, count: nat, text: string)
    requires !SourceDone(n.src) && (n.src.tasks[0].AwaitHeader? || n.src.tasks[0].AwaitTimes?)
    requires n.src.reply == Reading(ERROR_MARK, count) && n.toSource == text + "\n"
    requires '\n' !in text && count + |text| + 1 < RCP_BUFSIZ
    ensures var src := if text == "" then n.src.(tasks := n.src.tasks[1..], reply := Fresh, errs := n.src.errs + 1)
                       else n.src.(reply := Reading(ERROR_MARK, count + 1));
            Step(cfg, n, AtSource) == Some(n.(src := src, toSource := n.toSource[1..]))
    ensures n.toSource[1..] == if text == "" then "" else text[1..] + "\n"
  {
    assert n.toSink + "" == n.toSink;
    assert text != "" ==> n.toSource[0] == text[0];
  }

  // ---------- the octets of a file ----------

  lemma {:induction false} SourceSends(cfg: Config, n: Net, node: Node, sent: nat) returns (order: seq<Side>)
    requires !SourceDone(n.src) && n.src.tasks[0] == SendBody(node, sent)
    requires node.File? && sent <= |node.data|
    ensures Run(cfg, n, order)
         == Some(n.(src := n.src.(tasks := [AwaitStored] + n.src.tasks[1..]),
                    toSink := n.toSink + node.data[sent..] + ACK))
    decreases |node.data| - sent
  {
    hide Step, Run;
    if sent == |node.data| {
      order := [AtSource];
      SourceSpeaks(cfg, n, n.src.(tasks := [AwaitStored] + n.src.tasks[1..]), ACK);
      assert n.toSink + node.data[sent..] + ACK == n.toSink + ACK;
    } else {
      var end := if sent + RCP_BUFSIZ <= |node.data| then sent + RCP_BUFSIZ else |node.data|;
      var m := n.(src := n.src.(tasks := [SendBody(node, end)] + n.src.tasks[1..]),
                  toSink := n.toSink + node.data[sent..end]);
      SourceSpeaks(cfg, n, m.src, node.data[sent..end]);
      assert m.src.tasks[1..] == n.src.tasks[1..];
      var o := SourceSends(cfg, m, node, end);
      assert n.toSink + node.data[sent..end] + node.data[end..] + ACK == n.toSink + node.data[sent..] + ACK;
      RunConcat(cfg, n, [AtSource], o);
      order := [AtSource] + o;
    }
  }

  lemma {:induction false} SinkCollects(cfg: Config, n: Net, path: string, size: nat, got: string, rest: string)
    returns (order: seq<Side>)
    requires !SinkDone(n.snk) && n.snk.phase == Receive(n.snk, path, size, got).phase
    requires |got| < size ==> n.snk.phase == ReadData(path, size, got)
    requires n.toSink == rest + ACK && |got| + |rest| == size && rest != ""
    ensures Run(cfg, n, order)
         == Some(n.(snk := n.snk.(fs := StoreContent(n.snk.fs, path, got + rest), phase := AwaitReply(path, Fresh)),
                    toSink := ACK))
    decreases |rest|
  {
    var m := n.(snk := Receive(n.snk, path, size, got + [rest[0]]), toSink := rest[1..] + ACK);
    assert n.toSink[0] == rest[0] && n.toSink[1..] == rest[1..] + ACK;
    assert n.toSource + "" == n.toSource;
    assert Step(cfg, n, AtSink) == Some(m);
    assert (got + [rest[0]]) + rest[1..] == got + rest;
    if |rest| == 1 {
      order := [AtSink];
      assert rest[1..] + ACK == ACK;
      assert got + [rest[0]] == got + rest;
      assert [AtSink][1..] == [];
    } else {
      var o := SinkCollects(cfg, m, path, size, got + [rest[0]], rest[1..]);
      order := [AtSink] + o;
      assert order[1..] == o;
    }
  }

  // ---------- the record of one node ----------

  /** The T record, when there is one. */
  lemma SendTimes(cfg: Config, n: Node, rest: seq<Task>, se: nat, f: Frame, outer: seq<Frame>, fs: FileSystem, ke: nat)
    returns (order: seq<Side>, first: bool)
    requires Roomy(cfg, f.place, n) && !(cfg.pflag && Early(n))
    requires !cfg.pflag ==> f.setimes == None
    ensures Run(cfg, Idle([Visit(n)] + rest, se, [f] + outer, fs, ke), order)
         == Some(Idle([Announce(n)] + rest, se, [f.(first := first, setimes := SentTimes(cfg, n))] + outer, fs, ke))
  {
    hide Run, Step, Parse, TimesLine, Header, ErrorFits, PathIn;
    var start := Idle([Visit(n)] + rest, se, [f] + outer, fs, ke);
    assert ([Visit(n)] + rest)[1..] == rest && ([f] + outer)[1..] == outer;
    if !cfg.pflag {
      first := f.first;
      order := [AtSource];
      SourceSpeaks(cfg, start, start.src.(tasks := [Announce(n)] + rest), "");
      assert f.(first := first, setimes := None) == f && start.toSink + "" == "";
    } else {
      first := false;
      var line := TimesLine(n.mtime, n.atime);
      TimesLineParses(n.mtime, n.atime, f.first);
      var n1 := start.(src := start.src.(tasks := [AwaitTimes(n)] + rest), toSink := line + "\n");
      assert "" + (line + "\n") == line + "\n";
      SourceSpeaks(cfg, start, n1.src, line + "\n");
      var o := SinkReads(cfg, n1, "", line);
      assert "" + line == line;
      var f' := f.(first := false, setimes := SentTimes(cfg, n));
      var n2 := n1.(snk := n1.snk.(frames := [f'] + outer), toSink := "", toSource := ACK);
      assert "" + ACK == ACK;
      assert Run(cfg, n1, o) == Some(n2);
      SourceAccepts(cfg, n2);
      assert ([AwaitTimes(n)] + rest)[1..] == rest;
      var n3 := Idle([Announce(n)] + rest, se, [f'] + outer, fs, ke);
      assert Run(cfg, n2, [AtSource]) == Some(n3);
      RunConcat(cfg, start, [AtSource], o);
      RunConcat(cfg, start, [AtSource] + o, [AtSource]);
      order := [AtSource] + o + [AtSource];
      assert Run(cfg, start, order) == Some(n3);
    }
  }

  /** What the T record of a node that is dated before 1970 does instead: the sink takes it for a screwup and
      exits, with nothing stored. */
  lemma EarlyTimesAbort(cfg: Config, n: Node, rest: seq<Task>, se: nat, f: Frame, outer: seq<Frame>,
                        fs: FileSystem, ke: nat)
    returns (order: seq<Side>, last: Net)
    requires cfg.pflag && Early(n) && |TimesLine(n.mtime, n.atime)| + 1 < RCP_BUFSIZ
    ensures Run(cfg, Idle([Visit(n)] + rest, se, [f] + outer, fs, ke), order) == Some(last)
    ensures last.snk.exited && last.snk.fs == fs && last.snk.errs == ke + 1 && last.toSink == ""
    ensures last.src == Source([AwaitTimes(n)] + rest, Fresh, se, false)
    ensures last.toSource == Reported(cfg, [ERROR_MARK] + Clipped("rcp: protocol screwup: " + EarlyReason(n) + "\n"))
  {
    hide Run, Step, Parse, TimesLine, Header, ErrorFits, PathIn;
    var start := Idle([Visit(n)] + rest, se, [f] + outer, fs, ke);
    assert ([Visit(n)] + rest)[1..] == rest;
    var line := TimesLine(n.mtime, n.atime);
    TimesLineParses(n.mtime, n.atime, f.first);
    var n1 := start.(src := start.src.(tasks := [AwaitTimes(n)] + rest), toSink := line + "\n");
    assert "" + (line + "\n") == line + "\n";
    SourceSpeaks(cfg, start, n1.src, line + "\n");
    var o := SinkReads(cfg, n1, "", line);
    assert "" + line == line;
    var m := Obey(cfg, n1.snk.(phase := ReadLine(line)), Parse(line, f.first));
    assert "" + m.sent == m.sent;
    RunConcat(cfg, start, [AtSource], o);
    order, last := [AtSource] + o, n1.(snk := m.next, toSink := "", toSource := m.sent);
  }

  lemma HeaderParsed(n: Node, first: bool)
    requires NoControl(n.name)
    ensures NoControl(Header(n))
    ensures Parse(Header(n), first) ==
            if n.File? then StoreFile(n.mode, |n.data|, n.name) else EnterDirectory(n.mode, n.name)
  {
    if n.File? {
      FileLineParses(n.mode, |n.data|, n.name, first);
    } else {
      DirectoryLineParses(n.mode, n.name, first);
    }
  }

  /** The header is sent and obeyed. */
  lemma SendHeader(cfg: Config, n: Node, rest: seq<Task>, se: nat, f: Frame, outer: seq<Frame>, fs: FileSystem, ke: nat)
    returns (order: seq<Side>)
    requires Roomy(cfg, f.place, n)
    ensures var start := Idle([Announce(n)] + rest, se, [f] + outer, fs, ke);
            var c := if n.File? then StoreFile(n.mode, |n.data|, n.name) else EnterDirectory(n.mode, n.name);
            var m := Obey(cfg, start.snk, c);
            Run(cfg, start, order) ==
            Some(start.(src := start.src.(tasks := [AwaitHeader(n)] + rest), snk := m.next, toSource := m.sent))
  {
    hide Run, Step, Parse, Obey, Header, Obstacle, PathIn, ErrorFits, TimesLine;
    var start := Idle([Announce(n)] + rest, se, [f] + outer, fs, ke);
    assert ([Announce(n)] + rest)[1..] == rest;
    var line := Header(n);
    HeaderParsed(n, f.first);
    var n1 := start.(src := start.src.(tasks := [AwaitHeader(n)] + rest), toSink := line + "\n");
    assert "" + (line + "\n") == line + "\n";
    SourceSpeaks(cfg, start, n1.src, line + "\n");
    var o := SinkReads(cfg, n1, "", line);
    assert "" + line == line;
    ObeyIgnoresLine(cfg, n1.snk, line, Parse(line, f.first));
    ObeyTakesOne(cfg, n1.snk, Parse(line, f.first));
    var m := Obey(cfg, n1.snk, Parse(line, f.first));
    assert "" + m.sent == m.sent;
    RunConcat(cfg, start, [AtSource], o);
    order := [AtSource] + o;
  }

  lemma ObeyIgnoresLine(cfg: Config, s: Sink, line: string, c: Command)
    requires s.frames != [] && (c.StoreFile? || c.EnterDirectory?)
    requires !TooLong(s.frames[0].place, c.name)
    ensures Obey(cfg, s.(phase := ReadLine(line)), c) == Obey(cfg, s, c)
  {
  }

  /** A refused header: from a remote sink the source learns of it, from a local one it never does. */
  lemma RefuseHeader(cfg: Config, n: Node, rest: seq<Task>, se: nat, f: Frame, outer: seq<Frame>, fs: FileSystem,
                     ke: nat)
    returns (order: seq<Side>, last: Net)
    requires Roomy(cfg, f.place, n) && Obstacle(cfg, fs, PathIn(f.place, n.name), n.Dir?).Some?
    ensures Run(cfg, Idle([Announce(n)] + rest, se, [f] + outer, fs, ke), order) == Some(last)
    ensures cfg.sinkRemote ==> last == Idle(rest, se + 1, [f.(first := false)] + outer, fs, ke + 1)
    ensures !cfg.sinkRemote ==> Deadlocked(cfg, last)
  {
    hide Run, Step, Parse, Header, TimesLine, Deadlocked;
    var start := Idle([Announce(n)] + rest, se, [f] + outer, fs, ke);
    var o := SendHeader(cfg, n, rest, se, f, outer, fs, ke);
    var path := PathIn(f.place, n.name);
    var why := Obstacle(cfg, fs, path, n.Dir?).value;
    var f' := f.(first := false);
    var n1 := Idle([AwaitHeader(n)] + rest, se, [f'] + outer, fs, ke + 1);
    ObeyRefuses(cfg, start.snk, n, outer);
    assert ErrorFits(path, why) by { ObstacleFits(cfg, fs, f.place, n); }
    if cfg.sinkRemote {
      var o' := RefusalHeard(cfg, n1, n, rest, path, why);
      RunConcat(cfg, start, o, o');
      order, last := o + o', n1.(src := Source(rest, Fresh, se + 1, false));
    } else {
      order, last := o, n1;
      BothWait(cfg, n1, n, rest);
    }
  }

  lemma ObstacleFits(cfg: Config, fs: FileSystem, p: Place, n: Node)
    requires Roomy(cfg, p, n) && Obstacle(cfg, fs, PathIn(p, n.name), n.Dir?).Some?
    ensures ErrorFits(PathIn(p, n.name), Obstacle(cfg, fs, PathIn(p, n.name), n.Dir?).value)
  {
  }

  lemma ObeyRefuses(cfg: Config, s: Sink, n: Node, outer: seq<Frame>)
    requires s.frames != [] && s.frames[1..] == outer && s.phase == ReadLine("") && !s.exited
    requires !TooLong(s.frames[0].place, n.name)
    requires Obstacle(cfg, s.fs, PathIn(s.frames[0].place, n.name), n.Dir?).Some?
    ensures var path := PathIn(s.frames[0].place, n.name);
            var why := Obstacle(cfg, s.fs, path, n.Dir?).value;
            Obey(cfg, s, if n.File? then StoreFile(n.mode, |n.data|, n.name) else EnterDirectory(n.mode, n.name)) ==
            Move(s.(frames := [s.frames[0].(first := false)] + outer, errs := s.errs + 1), 1,
                 Reported(cfg, ErrorMessage(path, why)))
  {
  }

  lemma ObeyEnters(cfg: Config, s: Sink, n: Node, outer: seq<Frame>)
    requires s.frames != [] && s.frames[1..] == outer && s.phase == ReadLine("") && !s.exited
    requires !TooLong(s.frames[0].place, n.name)
    requires Obstacle(cfg, s.fs, PathIn(s.frames[0].place, n.name), true).None?
    ensures var place := s.frames[0].place;
            var path := PathIn(place, n.name);
            Obey(cfg, s, EnterDirectory(n.mode, n.name)) ==
            Move(s.(frames := [Frame(Place(path, true), true, None)] + ([s.frames[0].(first := false)] + outer),
                    fs := MakeDirectory(cfg, s.fs, place.targ, path, n.mode)), 1, ACK)
  {
    var f, inner := s.frames[0].(first := false), Frame(Place(PathIn(s.frames[0].place, n.name), true), true, None);
    assert [inner, f] + outer == [inner] + ([f] + outer);
  }

  lemma BothWait(cfg: Config, n1: Net, n: Node, rest: seq<Task>)
    requires n1.src.tasks == [AwaitHeader(n)] + rest && !n1.src.exited
    requires !SinkDone(n1.snk) && n1.toSink == "" && n1.toSource == ""
    ensures Deadlocked(cfg, n1)
  {
  }

  /** The complaint of a remote sink is heard by the source. */
  lemma RefusalHeard(cfg: Config, n1: Net, n: Node, rest: seq<Task>, path: string, why: string)
    returns (order: seq<Side>)
    requires n1.src.tasks == [AwaitHeader(n)] + rest && n1.src.reply == Fresh && !n1.src.exited && n1.toSource == ""
    requires ErrorFits(path, why)
    ensures Run(cfg, n1.(toSource := ErrorMessage(path, why)), order)
         == Some(n1.(src := Source(rest, Fresh, n1.src.errs + 1, false)))
  {
    hide Step, ErrorMessage, ErrorFits;
    var text := "rcp: " + path + ": " + why;
    WholeComplaint(path, why);
    var n2 := n1.(toSource := ErrorMessage(path, why));
    var n3 := n1.(src := n1.src.(reply := Reading(ERROR_MARK, 0)), toSource := text + "\n");
    MarkRead(cfg, n2, n, rest, text);
    var o := SourceRefused(cfg, n3, 0, text);
    order := [AtSource] + o;
    assert order[1..] == o;
  }

  lemma WholeComplaint(path: string, why: string)
    requires ErrorFits(path, why)
    ensures var text := "rcp: " + path + ": " + why;
            ErrorMessage(path, why) == [ERROR_MARK] + (text + "\n") && '\n' !in text && |text| + 1 < RCP_BUFSIZ
  {
  }

  lemma MarkRead(cfg: Config, n2: Net, n: Node, rest: seq<Task>, text: string)
    requires n2.src.tasks == [AwaitHeader(n)] + rest && n2.src.reply == Fresh && !n2.src.exited
    requires n2.toSource == [ERROR_MARK] + (text + "\n")
    ensures Step(cfg, n2, AtSource)
         == Some(n2.(src := n2.src.(reply := Reading(ERROR_MARK, 0)), toSource := text + "\n"))
  {
    assert n2.toSource[0] == ERROR_MARK && n2.toSource[1..] == text + "\n";
    assert n2.toSink + "" == n2.toSink;
  }

  /** The C record of a file that can be stored. */
  lemma SendFile(cfg: Config, n: Node, rest: seq<Task>, se: nat, f: Frame, outer: seq<Frame>, fs: FileSystem, ke: nat)
    returns (order: seq<Side>)
    requires Roomy(cfg, f.place, n) && n.File?
    requires Obstacle(cfg, fs, PathIn(f.place, n.name), false).None?
    ensures
      var path := PathIn(f.place, n.name);
      var fs' := Stamp(StoreContent(OpenFile(cfg, fs, f.place.targ, path, n.mode), path, n.data), path, f.setimes);
      Run(cfg, Idle([Announce(n)] + rest, se, [f] + outer, fs, ke), order)
      == Some(Idle(rest, se, [f.(first := false, setimes := None)] + outer, fs', ke))
  {
    hide Run, Step, Parse, Header, TimesLine, ErrorFits, Obey, Obstacle, OpenFile, StoreContent, Stamp, PathIn, Receive;
    var start := Idle([Announce(n)] + rest, se, [f] + outer, fs, ke);
    var path := PathIn(f.place, n.name);
    var f' := f.(first := false);
    var s0 := Sink([f'] + outer, ReadLine(""), OpenFile(cfg, fs, f.place.targ, path, n.mode), ke, false);
    assert ([f] + outer)[1..] == outer && ([f'] + outer)[1..] == outer;
    var o1 := SendHeader(cfg, n, rest, se, f, outer, fs, ke);
    ObeyOpens(cfg, start.snk, n, outer);
    var n1 := Net(Source([AwaitHeader(n)] + rest, Fresh, se, false), Receive(s0, path, |n.data|, ""), "", ACK);
    var o2 := DataFollows(cfg, n1, n, rest, s0, path);
    RunConcat(cfg, start, o1, o2);
    order := o1 + o2;
  }

  lemma ObeyOpens(cfg: Config, s: Sink, n: Node, outer: seq<Frame>)
    requires n.File? && s.frames != [] && s.frames[1..] == outer && s.phase == ReadLine("") && !s.exited
    requires !TooLong(s.frames[0].place, n.name)
    requires Obstacle(cfg, s.fs, PathIn(s.frames[0].place, n.name), false).None?
    ensures var place := s.frames[0].place;
            var path := PathIn(place, n.name);
            var s0 := s.(frames := [s.frames[0].(first := false)] + outer,
                         fs := OpenFile(cfg, s.fs, place.targ, path, n.mode));
            Obey(cfg, s, StoreFile(n.mode, |n.data|, n.name)) == Move(Receive(s0, path, |n.data|, ""), 1, ACK)
  {
  }

  /** The source takes the answer to its C record; the data, and the replies behind it. */
  lemma DataFollows(cfg: Config, n1: Net, n: Node, rest: seq<Task>, s0: Sink, path: string) returns (order: seq<Side>)
    requires n.File? && n1.src.tasks == [AwaitHeader(n)] + rest && n1.src.reply == Fresh && !n1.src.exited
    requires !SinkDone(s0) && n1.snk == Receive(s0, path, |n.data|, "") && n1.toSink == "" && n1.toSource == ACK
    ensures Run(cfg, n1, order)
         == Some(Net(n1.src.(tasks := rest), Settled(s0.(fs := StoreContent(s0.fs, path, n.data)), path), "", ""))
  {
    hide Run, Step, StoreContent, Stamp, Receive;
    assert n1.src.tasks[1..] == rest;
    SourceAccepts(cfg, n1);
    var n2 := n1.(src := n1.src.(tasks := [SendBody(n, 0)] + rest), toSource := "");
    assert n2.src.tasks[1..] == rest && n.data[0..] == n.data && "" + n.data + ACK == n.data + ACK;
    var o2 := SourceSends(cfg, n2, n, 0);
    var n3 := n2.(src := n1.src.(tasks := [AwaitStored] + rest), toSink := n.data + ACK);
    var o3, n4 := BodyArrives(cfg, n3, path, n.data, s0);
    var o4 := StoredReply(cfg, n4, path, rest);
    RunConcat(cfg, n3, o3, o4);
    RunConcat(cfg, n2, o2, o3 + o4);
    RunConcat(cfg, n1, [AtSource], o2 + (o3 + o4));
    order := [AtSource] + (o2 + (o3 + o4));
  }

  lemma BodyArrives(cfg: Config, n: Net, path: string, data: string, s0: Sink) returns (order: seq<Side>, last: Net)
    requires !SinkDone(s0) && n.snk == Receive(s0, path, |data|, "") && n.toSink == data + ACK
    ensures last == n.(snk := s0.(fs := StoreContent(s0.fs, path, data), phase := AwaitReply(path, Fresh)),
                       toSink := ACK)
    ensures Run(cfg, n, order) == Some(last)
  {
    last := n.(snk := s0.(fs := StoreContent(s0.fs, path, data), phase := AwaitReply(path, Fresh)), toSink := ACK);
    if data == "" {
      order := [];
      assert data + ACK == ACK;
    } else {
      order := SinkCollects(cfg, n, path, |data|, "", data);
      assert "" + data == data;
    }
  }

  /** After the last octet the source's zero octet is read, and the sink's is answered. */
  lemma StoredReply(cfg: Config, n: Net, path: string, rest: seq<Task>) returns (order: seq<Side>)
    requires n.src.tasks == [AwaitStored] + rest && n.src.reply == Fresh && !n.src.exited
    requires !SinkDone(n.snk) && n.snk.phase == AwaitReply(path, Fresh)
    requires n.toSink == ACK && n.toSource == ""
    ensures Run(cfg, n, order) == Some(Net(n.src.(tasks := rest), Settled(n.snk, path), "", ""))
  {
    var m := n.(snk := Settled(n.snk, path), toSink := "", toSource := ACK);
    assert "" + ACK == ACK && ACK[1..] == "";
    assert SinkMove(cfg, n.snk, ACK, false) == Move(Settled(n.snk, path), 1, ACK);
    assert Step(cfg, n, AtSink) == Some(m);
    assert [AtSink][1..] == [];
    assert Run(cfg, n, [AtSink]) == Some(m);
    assert m.src.tasks[1..] == rest;
    SourceAccepts(cfg, m);
    assert OnAccept(AwaitStored) + rest == rest;
    RunConcat(cfg, n, [AtSink], [AtSource]);
    order := [AtSink] + [AtSource];
  }

  /** The D record of a directory that can be entered. */
  lemma EnterDir(cfg: Config, n: Node, rest: seq<Task>, se: nat, f: Frame, outer: seq<Frame>, fs: FileSystem, ke: nat)
    returns (order: seq<Side>)
    requires Roomy(cfg, f.place, n) && n.Dir?
    requires Obstacle(cfg, fs, PathIn(f.place, n.name), true).None?
    ensures
      var path := PathIn(f.place, n.name);
      var made := MakeDirectory(cfg, fs, f.place.targ, path, n.mode);
      Run(cfg, Idle([Announce(n)] + rest, se, [f] + outer, fs, ke), order)
      == Some(Idle(Visits(n.children) + ([Leave] + rest), se,
                   [Frame(Place(path, true), true, None)] + ([f.(first := false)] + outer), made, ke))
  {
    hide Run, Step, Parse, Header, TimesLine, ErrorFits, Obey, Obstacle, MakeDirectory, PathIn;
    var start := Idle([Announce(n)] + rest, se, [f] + outer, fs, ke);
    var path := PathIn(f.place, n.name);
    var made := MakeDirectory(cfg, fs, f.place.targ, path, n.mode);
    assert ([f] + outer)[1..] == outer;
    var frames := [Frame(Place(path, true), true, None)] + ([f.(first := false)] + outer);
    var o := SendHeader(cfg, n, rest, se, f, outer, fs, ke);
    ObeyEnters(cfg, start.snk, n, outer);
    var n1 := Idle([AwaitHeader(n)] + rest, se, frames, made, ke).(toSource := ACK);
    DirAnnounced(cfg, n1, n, rest);
    RunConcat(cfg, start, o, [AtSource]);
    order := o + [AtSource];
  }

  /** The source takes the answer to its D record and turns to what is inside. */
  lemma DirAnnounced(cfg: Config, n1: Net, n: Node, rest: seq<Task>)
    requires n.Dir? && n1.src.tasks == [AwaitHeader(n)] + rest && !n1.src.exited && n1.src.reply == Fresh
    requires n1.toSource == ACK
    ensures Run(cfg, n1, [AtSource])
         == Some(n1.(src := n1.src.(tasks := Visits(n.children) + ([Leave] + rest)), toSource := ""))
  {
    hide Run;
    assert n1.src.tasks[1..] == rest;
    assert Visits(n.children) + [Leave] + rest == Visits(n.children) + ([Leave] + rest);
    SourceAccepts(cfg, n1);
  }

  /** The E record: the inner call of `sink` returns and its caller sets the directory's times. */
  lemma LeaveDir(cfg: Config, rest: seq<Task>, se: nat, g: Frame, f: Frame, outer: seq<Frame>, fs: FileSystem, ke: nat)
    returns (order: seq<Side>)
    ensures Run(cfg, Idle([Leave] + rest, se, [g] + ([f] + outer), fs, ke), order)
         == Some(Idle(rest, se, [f.(setimes := None)] + outer, Stamp(fs, g.place.targ, f.setimes), ke))
  {
    hide Run, Step, ParseTimes, ParseHeader;
    var start := Idle([Leave] + rest, se, [g] + ([f] + outer), fs, ke);
    var n1 := start.(src := start.src.(tasks := [AwaitLeave] + rest), toSink := "E\n");
    assert start.src.tasks[1..] == rest && "" + "E\n" == "E\n";
    SourceSpeaks(cfg, start, n1.src, "E\n");
    assert "E" + "\n" == "E\n";
    var o := SinkReads(cfg, n1, "", "E");
    assert "" + "E" == "E";
    var g' := g.(first := false);
    assert ([g] + ([f] + outer))[1..] == [f] + outer;
    assert ([g'] + ([f] + outer))[1..] == [f] + outer && ([f] + outer)[1..] == outer;
    var snk := Sink([f.(setimes := None)] + outer, ReadLine(""), Stamp(fs, g.place.targ, f.setimes), ke, false);
    var n2 := Net(n1.src, snk, "", ACK);
    assert "" + ACK == ACK;
    assert Parse("E", g.first) == LeaveDirectory;
    assert Run(cfg, n1, o) == Some(n2);
    SourceAccepts(cfg, n2);
    assert n2.src.tasks[1..] == rest && OnAccept(AwaitLeave) + rest == rest;
    assert Run(cfg, n2, [AtSource]) == Some(Idle(rest, se, n2.snk.frames, n2.snk.fs, ke));
    RunConcat(cfg, start, [AtSource], o);
    RunConcat(cfg, start, [AtSource] + o, [AtSource]);
    order := [AtSource] + o + [AtSource];
  }

  // ---------- whole trees ----------

  /** What a run from an idle state amounts to: the sink has given up at a node dated before 1970; or else, with
      a remote sink, or without refusals, the deposit; or else, with a local sink that refuses something, a
      deadlock. */
  ghost predicate Outcome(cfg: Config, a: Option<FileSystem>, d: Deposited, last: Net, rest: seq<Task>, se: nat,
                          f: Frame, outer: seq<Frame>, ke: nat)
  {
    if a.Some? then last.snk.exited && last.snk.fs == a.value
    else if cfg.sinkRemote || d.refusals == 0 then
      exists left: Frame ::
        && left.place == f.place && (!cfg.pflag ==> left.setimes == None)
        && last == Idle(rest, se + d.refusals, [left] + outer, d.fs, ke + d.refusals)
    else Deadlocked(cfg, last)
  }

  lemma {:induction false} TransferNode(cfg: Config, n: Node, rest: seq<Task>, se: nat, f: Frame, outer: seq<Frame>,
                                        fs: FileSystem, ke: nat)
    returns (order: seq<Side>, last: Net)
    requires Roomy(cfg, f.place, n)
    requires !cfg.pflag ==> f.setimes == None
    ensures Run(cfg, Idle([Visit(n)] + rest, se, [f] + outer, fs, ke), order) == Some(last)
    ensures Outcome(cfg, AbortAt(cfg, fs, f.place, n), Deposit(cfg, fs, f.place, n), last, rest, se, f, outer, ke)
    decreases n
  {
    hide Run, Deadlocked, Stamp, StoreContent, OpenFile, MakeDirectory, PathIn, Obstacle, TooLong, ErrorFits;
    hide Header, TimesLine, AbortIn, DepositAll, RoomyAll;
    var start := Idle([Visit(n)] + rest, se, [f] + outer, fs, ke);
    if cfg.pflag && Early(n) {
      order, last := EarlyTimesAbort(cfg, n, rest, se, f, outer, fs, ke);
      return;
    }
    var o1, first := SendTimes(cfg, n, rest, se, f, outer, fs, ke);
    var g := f.(first := first, setimes := SentTimes(cfg, n));
    var path := PathIn(f.place, n.name);
    if Obstacle(cfg, fs, path, n.Dir?).Some? {
      var o2, m := RefuseHeader(cfg, n, rest, se, g, outer, fs, ke);
      RunConcat(cfg, start, o1, o2);
      order, last := o1 + o2, m;
      if cfg.sinkRemote {
        var left := g.(first := false);
        assert last == Idle(rest, se + 1, [left] + outer, fs, ke + 1);
      }
    } else if n.File? {
      var o2 := SendFile(cfg, n, rest, se, g, outer, fs, ke);
      RunConcat(cfg, start, o1, o2);
      var left := g.(first := false, setimes := None);
      order, last := o1 + o2, Idle(rest, se, [left] + outer, Deposit(cfg, fs, f.place, n).fs, ke);
    } else {
      var o2, m := TransferDir(cfg, n, rest, se, g, outer, fs, ke);
      RunConcat(cfg, start, o1, o2);
      order, last := o1 + o2, m;
    }
  }

  /** A directory that can be entered, from its D record on. */
  lemma {:induction false} TransferDir(cfg: Config, n: Node, rest: seq<Task>, se: nat, g: Frame, outer: seq<Frame>,
                                       fs: FileSystem, ke: nat)
    returns (order: seq<Side>, last: Net)
    requires Roomy(cfg, g.place, n) && n.Dir? && !(cfg.pflag && Early(n)) && g.setimes == SentTimes(cfg, n)
    requires Obstacle(cfg, fs, PathIn(g.place, n.name), true).None?
    ensures Run(cfg, Idle([Announce(n)] + rest, se, [g] + outer, fs, ke), order) == Some(last)
    ensures Outcome(cfg, AbortAt(cfg, fs, g.place, n), Deposit(cfg, fs, g.place, n), last, rest, se, g, outer, ke)
    decreases n, 0
  {
    hide Run, Deadlocked, Stamp, MakeDirectory, PathIn, Obstacle, TooLong, ErrorFits, Header, TimesLine;
    var start := Idle([Announce(n)] + rest, se, [g] + outer, fs, ke);
    var path := PathIn(g.place, n.name);
    var made := MakeDirectory(cfg, fs, g.place.targ, path, n.mode);
    var o1 := EnterDir(cfg, n, rest, se, g, outer, fs, ke);
    var inner := Frame(Place(path, true), true, None);
    var g' := g.(first := false);
    var o2, m := TransferAll(cfg, n.children, [Leave] + rest, se, inner, [g'] + outer, made, ke);
    RunConcat(cfg, start, o1, o2);
    var d := DepositAll(cfg, made, inner.place, n.children);
    if AbortIn(cfg, made, inner.place, n.children).None? && (cfg.sinkRemote || d.refusals == 0) {
      var left: Frame :| left.place == inner.place
               && m == Idle([Leave] + rest, se + d.refusals, [left] + ([g'] + outer), d.fs, ke + d.refusals);
      var o3 := LeaveDir(cfg, rest, se + d.refusals, left, g', outer, d.fs, ke + d.refusals);
      RunConcat(cfg, start, o1 + o2, o3);
      var after := g'.(setimes := None);
      order := o1 + o2 + o3;
      last := Idle(rest, se + d.refusals, [after] + outer, Stamp(d.fs, path, SentTimes(cfg, n)), ke + d.refusals);
    } else {
      order, last := o1 + o2, m;
    }
  }

  lemma {:induction false} TransferAll(cfg: Config, ns: seq<Node>, rest: seq<Task>, se: nat, f: Frame,
                                       outer: seq<Frame>, fs: FileSystem, ke: nat)
    returns (order: seq<Side>, last: Net)
    requires RoomyAll(cfg, f.place, ns)
    requires !cfg.pflag ==> f.setimes == None
    ensures Run(cfg, Idle(Visits(ns) + rest, se, [f] + outer, fs, ke), order) == Some(last)
    ensures Outcome(cfg, AbortIn(cfg, fs, f.place, ns), DepositAll(cfg, fs, f.place, ns), last, rest, se, f, outer, ke)
    decreases ns
  {
    hide Deadlocked, Deposit, DepositAll, Step, Roomy, AbortAt, AbortIn;
    var start := Idle(Visits(ns) + rest, se, [f] + outer, fs, ke);
    InTurn(cfg, fs, f.place, ns);
    if ns == [] {
      assert Visits(ns) + rest == rest;
      order, last := [], start;
      assert last == Idle(rest, se, [f] + outer, fs, ke);
    } else {
      var more := Visits(ns[1..]) + rest;
      assert Visits(ns) + rest == [Visit(ns[0])] + more;
      var d := Deposit(cfg, fs, f.place, ns[0]);
      var o1, m := TransferNode(cfg, ns[0], more, se, f, outer, fs, ke);
      if AbortAt(cfg, fs, f.place, ns[0]).None? && (cfg.sinkRemote || d.refusals == 0) {
        var left: Frame :| left.place == f.place && (!cfg.pflag ==> left.setimes == None)
                 && m == Idle(more, se + d.refusals, [left] + outer, d.fs, ke + d.refusals);
        var o2, m2 := TransferAll(cfg, ns[1..], rest, se + d.refusals, left, outer, d.fs, ke + d.refusals);
        RunConcat(cfg, start, o1, o2);
        order, last := o1 + o2, m2;
      } else {
        order, last := o1, m;
      }
    }
  }

  // ---------- the theorem about every run ----------

  function Landing(cfg: Config, roots: seq<Node>, targ: string, fs: FileSystem): Deposited {
    DepositAll(cfg, fs, Start(roots, targ, fs).snk.frames[0].place, roots)
  }

  /** The end that a transfer is meant to come to. */
  predicate Accomplished(cfg: Config, roots: seq<Node>, targ: string, fs: FileSystem, n: Net) {
    var d := Landing(cfg, roots, targ, fs);
    Finished(n) && n.snk.fs == d.fs && n.src.errs == d.refusals && n.snk.errs == d.refusals
  }

  function Aborted(cfg: Config, roots: seq<Node>, targ: string, fs: FileSystem): Option<FileSystem> {
    AbortIn(cfg, fs, Start(roots, targ, fs).snk.frames[0].place, roots)
  }

  /** When a transfer can complete: no node dated before 1970 is come to under -p, and the sink is the remote
      side or refuses nothing. */
  predicate Completes(cfg: Config, roots: seq<Node>, targ: string, fs: FileSystem) {
    Aborted(cfg, roots, targ, fs).None? && (cfg.sinkRemote || Landing(cfg, roots, targ, fs).refusals == 0)
  }

  /** The transfer is accomplished if it can complete; otherwise the sink gives up at the node dated before
      1970, or else the two sides deadlock. */
  predicate Ended(cfg: Config, roots: seq<Node>, targ: string, fs: FileSystem, n: Net) {
    if Completes(cfg, roots, targ, fs) then Accomplished(cfg, roots, targ, fs, n)
    else if Aborted(cfg, roots, targ, fs).Some? then
      n.snk.exited && n.snk.fs == Aborted(cfg, roots, targ, fs).value
    else Deadlocked(cfg, n)
  }

  lemma OneOrder(cfg: Config, roots: seq<Node>, targ: string, fs: FileSystem) returns (order: seq<Side>, final: Net)
    requires RoomyAll(cfg, Start(roots, targ, fs).snk.frames[0].place, roots)
    ensures Run(cfg, Start(roots, targ, fs), order) == Some(final)
    ensures Terminal(cfg, final) && Ended(cfg, roots, targ, fs, final)
  {
    hide AbortIn, DepositAll, RoomyAll;
    var start := Start(roots, targ, fs);
    var f := start.snk.frames[0];
    SourceAccepts(cfg, start);
    assert start.src.tasks[1..] == Visits(roots) && OnAccept(AwaitGreeting) + Visits(roots) == Visits(roots) + [];
    assert start.snk.frames == [f] + [];
    var n1 := Idle(Visits(roots) + [], 0, [f] + [], fs, 0);
    assert Run(cfg, start, [AtSource]) == Some(n1);
    var o, m := TransferAll(cfg, roots, [], 0, f, [], fs, 0);
    RunConcat(cfg, start, [AtSource], o);
    var d := DepositAll(cfg, fs, f.place, roots);
    if Aborted(cfg, roots, targ, fs).Some? {
      var o';
      o', final := WindsDown(cfg, m);
      RunConcat(cfg, start, [AtSource] + o, o');
      order := [AtSource] + o + o';
    } else if cfg.sinkRemote || d.refusals == 0 {
      var left: Frame :| m == Idle([], d.refusals, [left] + [], d.fs, d.refusals);
      final := Idle([], d.refusals, [], d.fs, d.refusals);
      SinkSeesEnd(cfg, m, left, d);
      RunConcat(cfg, start, [AtSource] + o, [AtSink]);
      order := [AtSource] + o + [AtSink];
    } else {
      order, final := [AtSource] + o, m;
    }
  }

  lemma SinkSeesEnd(cfg: Config, m: Net, left: Frame, d: Deposited)
    requires m == Idle([], d.refusals, [left] + [], d.fs, d.refusals)
    ensures Run(cfg, m, [AtSink]) == Some(Idle([], d.refusals, [], d.fs, d.refusals))
    ensures Terminal(cfg, Idle([], d.refusals, [], d.fs, d.refusals))
  {
    assert m.snk.frames[1..] == [] && m.toSink[0..] == "" && m.toSource + "" == "";
    assert SinkMove(cfg, m.snk, "", true) == Move(m.snk.(frames := []), 0, "");
    assert Step(cfg, m, AtSink) == Some(Idle([], d.refusals, [], d.fs, d.refusals));
    assert [AtSink][1..] == [];
  }

  /** However the moves of the two sides are interleaved, the run can always be completed, and always to
      the same end; and no run goes on for longer than the run that completes it. */
  lemma EveryOrder(cfg: Config, roots: seq<Node>, targ: string, fs: FileSystem, soFar: seq<Side>)
    returns (toGo: seq<Side>, final: Net)
    requires RoomyAll(cfg, Start(roots, targ, fs).snk.frames[0].place, roots)
    requires Run(cfg, Start(roots, targ, fs), soFar).Some?
    ensures Run(cfg, Run(cfg, Start(roots, targ, fs), soFar).value, toGo) == Some(final)
    ensures Terminal(cfg, final) && Ended(cfg, roots, targ, fs, final)
  {
    var order;
    order, final := OneOrder(cfg, roots, targ, fs);
    toGo := RunsConverge(cfg, Start(roots, targ, fs), order, soFar);
  }

  lemma RunsAreBounded(cfg: Config, roots: seq<Node>, targ: string, fs: FileSystem) returns (bound: nat)
    requires RoomyAll(cfg, Start(roots, targ, fs).snk.frames[0].place, roots)
    ensures forall soFar :: Run(cfg, Start(roots, targ, fs), soFar).Some? ==> |soFar| <= bound
  {
    var order, final := OneOrder(cfg, roots, targ, fs);
    bound := |order|;
    forall soFar | Run(cfg, Start(roots, targ, fs), soFar).Some?
      ensures |soFar| <= bound
    {
      var _ := RunsConverge(cfg, Start(roots, targ, fs), order, soFar);
    }
  }

  lemma TerminalStays(cfg: Config, n: Net, order: seq<Side>)
    requires Terminal(cfg, n)
    ensures Run(cfg, n, order).Some? ==> order == []
  {
    if order != [] {
      assert order[0] == AtSource || order[0] == AtSink;
    }
  }

  lemma RunNothing(cfg: Config, n: Net)
    ensures Run(cfg, n, []) == Some(n)
  {
  }

  /** The end of every run that has come to one. */
  lemma EveryEnd(cfg: Config, roots: seq<Node>, targ: string, fs: FileSystem, order: seq<Side>)
    requires RoomyAll(cfg, Start(roots, targ, fs).snk.frames[0].place, roots)
    requires var n := Run(cfg, Start(roots, targ, fs), order); n.Some? && Terminal(cfg, n.value)
    ensures Ended(cfg, roots, targ, fs, Run(cfg, Start(roots, targ, fs), order).value)
  {
    hide Run, Step, Terminal, RoomyAll, Ended;
    var toGo, final := EveryOrder(cfg, roots, targ, fs, order);
    TerminalStays(cfg, Run(cfg, Start(roots, targ, fs), order).value, toGo);
    RunNothing(cfg, Run(cfg, Start(roots, targ, fs), order).value);
  }

  /** Whatever the order of moves, both calls return with nothing left on the wire if and only if no node dated
      before 1970 is come to under -p, and the sink is the remote side or refuses nothing. */
  lemma FinishedIff(cfg: Config, roots: seq<Node>, targ: string, fs: FileSystem, order: seq<Side>)
    requires RoomyAll(cfg, Start(roots, targ, fs).snk.frames[0].place, roots)
    requires var n := Run(cfg, Start(roots, targ, fs), order); n.Some? && Terminal(cfg, n.value)
    ensures var end := Run(cfg, Start(roots, targ, fs), order).value;
      && (Finished(end) <==> Completes(cfg, roots, targ, fs))
      && (Finished(end) ==> Accomplished(cfg, roots, targ, fs, end))
      && (Aborted(cfg, roots, targ, fs).Some? ==>
            end.snk.exited && end.snk.fs == Aborted(cfg, roots, targ, fs).value)
  {
    hide Run, Step, Terminal, RoomyAll, AbortIn, DepositAll;
    EveryEnd(cfg, roots, targ, fs, order);
  }

  /** Lock step: in a reachable state both sides are blocked only when the transfer is accomplished, if and only
      if no node dated before 1970 is come to under -p, and the sink is the remote side or refuses nothing. */
  lemma LockStep(cfg: Config, roots: seq<Node>, targ: string, fs: FileSystem)
    requires RoomyAll(cfg, Start(roots, targ, fs).snk.frames[0].place, roots)
    ensures (forall soFar :: Run(cfg, Start(roots, targ, fs), soFar).Some?
                             && Terminal(cfg, Run(cfg, Start(roots, targ, fs), soFar).value)
                             ==> Accomplished(cfg, roots, targ, fs, Run(cfg, Start(roots, targ, fs), soFar).value))
       <==> Completes(cfg, roots, targ, fs)
  {
    hide Step, Run, Terminal, RoomyAll, AbortIn, DepositAll;
    var start := Start(roots, targ, fs);
    forall soFar | Run(cfg, start, soFar).Some? && Terminal(cfg, Run(cfg, start, soFar).value)
      ensures Ended(cfg, roots, targ, fs, Run(cfg, start, soFar).value)
    {
      EveryEnd(cfg, roots, targ, fs, soFar);
    }
    var order, final := OneOrder(cfg, roots, targ, fs);
    assert Run(cfg, start, order).Some? && Terminal(cfg, Run(cfg, start, order).value);
  }

  // ---------- when no node dated before 1970 is come to ----------

  predicate SomeEarly(n: Node)
    decreases n
  {
    Early(n) || (n.Dir? && AnyEarly(n.children))
  }

  predicate AnyEarly(ns: seq<Node>)
    decreases ns
  {
    ns != [] && (SomeEarly(ns[0]) || AnyEarly(ns[1..]))
  }

  /** A sink that refuses nothing comes to every node, and so gives up if and only if one is dated too early. */
  lemma {:induction false} AbortIff(cfg: Config, fs: FileSystem, p: Place, n: Node)
    ensures AbortAt(cfg, fs, p, n).Some? ==> cfg.pflag && SomeEarly(n)
    ensures Deposit(cfg, fs, p, n).refusals == 0 ==> (AbortAt(cfg, fs, p, n).Some? <==> cfg.pflag && SomeEarly(n))
    decreases n
  {
    hide MakeDirectory, OpenFile, StoreContent, Stamp, Obstacle;
    if n.Dir? {
      var path := PathIn(p, n.name);
      AbortInIff(cfg, MakeDirectory(cfg, fs, p.targ, path, n.mode), Place(path, true), n.children);
    }
  }

  lemma {:induction false} AbortInIff(cfg: Config, fs: FileSystem, p: Place, ns: seq<Node>)
    ensures AbortIn(cfg, fs, p, ns).Some? ==> cfg.pflag && AnyEarly(ns)
    ensures DepositAll(cfg, fs, p, ns).refusals == 0 ==>
      (AbortIn(cfg, fs, p, ns).Some? <==> cfg.pflag && AnyEarly(ns))
    decreases ns
  {
    hide Deposit, AbortAt, SomeEarly;
    if ns != [] {
      AbortIff(cfg, fs, p, ns[0]);
      AbortInIff(cfg, Deposit(cfg, fs, p, ns[0]).fs, p, ns[1..]);
    }
  }
}
