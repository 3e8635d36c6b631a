/** What the two ends of an rcp transfer (bsd/krcp.c) make of a peer that complains, sends what is no record, or
    goes away: from any state in which they wait for it. */
module RcpFaults {
  import opened Wrappers
  import opened RcpRecords
  import opened RcpProtocol
  import opened RcpTransfer
  import opened RcpLoops

  // ---------- replies ----------

  /** A reply of any kind: a zero octet is an acknowledgement; anything else is read with the text behind it up to
      the newline, or until 4096 octets are held, which leaves out an error mark; a message with mark 1 refuses
      what it answers, and any other one ends the program. */
  lemma ReplyMeans(code: char, text: string, more: string)
    requires '\n' !in text
    ensures var room := if code == '\U{1}' || code == '\U{2}' then 4096 else 4095;
            Heard(Fresh, [code] + text + "\n" + more) ==
            if code == '\0' then (Accepted, 1)
            else (if code == '\U{1}' then Refused else Quit, 1 + if |text| + 1 <= room then |text| + 1 else room)
  {
    var s := [code] + text + "\n" + more;
    assert s[0] == code && s[1..] == text + "\n" + more;
    if code != '\0' {
      HeardToEnd(code, if code == '\U{1}' || code == '\U{2}' then 0 else 1, text, more);
    }
  }

  lemma {:induction false} HeardToEnd(code: char, count: nat, text: string, more: string)
    requires '\n' !in text && count < RCP_BUFSIZ
    ensures var room := RCP_BUFSIZ - count;
            Heard(Reading(code, count), text + "\n" + more)
            == (if code == ERROR_MARK then Refused else Quit, if |text| + 1 <= room then |text| + 1 else room)
    decreases |text|
  {
    var s := text + "\n" + more;
    if text != "" {
      assert s[0] == text[0] && s[1..] == text[1..] + "\n" + more;
      if count + 1 < RCP_BUFSIZ {
        HeardToEnd(code, count + 1, text[1..], more);
      }
    } else {
      assert s[0] == '\n';
    }
  }

  predicate Waits(t: Task) {
    t.AwaitGreeting? || t.AwaitTimes? || t.AwaitHeader? || t.AwaitStored? || t.AwaitLeave?
  }

  /** A source that waits reads one reply and no further.  Accepted, it goes on; refused, it counts an
      error and skips the record, but when the sink is remote and refuses the greeting it exits; any other message
      makes it count an error and exit. */
  lemma {:induction false} SourceHears(cfg: Config, n: Net) returns (order: seq<Side>, m: Net)
    requires !SourceDone(n.src) && Waits(n.src.tasks[0]) && !Heard(n.src.reply, n.toSource).0.More?
    ensures Run(cfg, n, order) == Some(m) && m.snk == n.snk && m.toSink == n.toSink
    ensures var (v, used) := Heard(n.src.reply, n.toSource);
            var t, rest := n.src.tasks[0], n.src.tasks[1..];
            && used <= |n.toSource| && m.toSource == n.toSource[used..]
            && (v.Accepted? ==> m.src == Source(OnAccept(t) + rest, Fresh, n.src.errs, false))
            && (v.Refused? ==> m.src == Source(rest, Fresh, n.src.errs + 1, t.AwaitGreeting? && cfg.sinkRemote))
            && (v.Quit? ==> m.src.exited && m.src.errs == n.src.errs + 1)
    decreases |n.toSource|
  {
    hide OnAccept, ReplyStep;
    m := Step(cfg, n, AtSource).value;
    assert n.toSink + "" == n.toSink;
    if ReplyStep(n.src.reply, n.toSource[0]).More? {
      var o;
      o, m := SourceHears(cfg, m);
      order := [AtSource] + o;
      assert order[1..] == o;
    } else {
      order := [AtSource];
      assert [AtSource][1..] == [];
    }
  }

  /** The sink after the last octet of a file: accepted or refused it sets the times that are pending and answers,
      having counted an error for a refusal; any other message ends it, unanswered. */
  lemma {:induction false} SinkHears(cfg: Config, n: Net, path: string, reply: Reply)
    returns (order: seq<Side>, m: Net)
    requires !SinkDone(n.snk) && n.snk.phase == AwaitReply(path, reply) && !Heard(reply, n.toSink).0.More?
    ensures Run(cfg, n, order) == Some(m) && m.src == n.src
    ensures var (v, used) := Heard(reply, n.toSink);
            var s := n.snk;
            var f := s.frames[0];
            var fs := if f.setimes.Some? && path in s.fs then s.fs[path := s.fs[path].(times := f.setimes)] else s.fs;
            && used <= |n.toSink| && m.toSink == n.toSink[used..]
            && (v.Quit? ==> m.snk.exited && m.snk.errs == s.errs + 1 && m.snk.fs == s.fs && m.toSource == n.toSource)
            && (!v.Quit? ==>
                  && m.toSource == n.toSource + "\0"
                  && m.snk == Sink([f.(setimes := None)] + s.frames[1..], ReadLine(""), fs,
                                   s.errs + if v.Refused? then 1 else 0, false))
    decreases |n.toSink|
  {
    hide ReplyStep;
    m := Step(cfg, n, AtSink).value;
    assert n.toSource + "" == n.toSource;
    if ReplyStep(reply, n.toSink[0]).More? {
      var o;
      o, m := SinkHears(cfg, m, path, ReplyStep(reply, n.toSink[0]).reply);
      order := [AtSink] + o;
      assert order[1..] == o;
    } else {
      order := [AtSink];
      assert [AtSink][1..] == [];
    }
  }

  // ---------- lines that are no records, and records that are not obeyed ----------

  /** What the remote side tells the peer about an error of its own; the local side tells the user instead. */
  predicate Tells(cfg: Config, n: Net, m: Net, message: string) {
    m.toSource == n.toSource + if cfg.sinkRemote then "\U{1}" + message + "\n" else ""
  }

  lemma Told(cfg: Config, n: Net, m: Net, message: string)
    requires |message| + 1 <= 4094 && m.toSource == n.toSource + Reported(cfg, [ERROR_MARK] + Clipped(message + "\n"))
    ensures Tells(cfg, n, m, message)
  {
    assert [ERROR_MARK] + (message + "\n") == "\U{1}" + message + "\n";
  }

  /** The sink and a whole line.  A message of the source counts as an error and the sink goes on, but a fatal one
      ends it; what is no record ends it after one error and one complaint, which quotes a line that came first and
      names the reason for any later one; so does a name that does not fit, and a record for something that is in
      the way costs one error and one complaint while the sink goes on. */
  lemma SinkOnLine(cfg: Config, n: Net, line: string) returns (order: seq<Side>, m: Net)
    requires !SinkDone(n.snk) && n.snk.phase == ReadLine("") && n.toSink == line + "\n" && '\n' !in line
    ensures Run(cfg, n, order) == Some(m) && m.src == n.src && m.toSink == ""
    ensures var s := n.snk;
            var f := s.frames[0];
            var on := s.(frames := [f.(first := false)] + s.frames[1..], errs := s.errs + 1);
            match Parse(line, f.first)
            case Complaint(_, fatal) =>
              && m.toSource == n.toSource && m.snk.fs == s.fs
              && if fatal then m.snk.exited && m.snk.errs == s.errs else m.snk == on
            case Foreign(text) =>
              && m.snk.exited && m.snk.errs == s.errs + 1 && m.snk.fs == s.fs
              && (|text| + 1 <= 4094 ==> Tells(cfg, n, m, text))
            case Screwup(reason) =>
              && m.snk.exited && m.snk.errs == s.errs + 1 && m.snk.fs == s.fs
              && (|reason| <= 4000 ==> Tells(cfg, n, m, "rcp: protocol screwup: " + reason))
            case SetTimes(t) =>
              && m.toSource == n.toSource + "\0"
              && m.snk == s.(frames := [f.(first := false, setimes := Some(t))] + s.frames[1..])
            case _ => true
  {
    hide Parse, Run, Step;
    order := SinkReads(cfg, n, "", line);
    assert "" + line == line;
    var s := n.snk;
    var c := Parse(line, s.frames[0].first);
    var o := Obey(cfg, s.(phase := ReadLine(line)), c);
    m := n.(snk := o.next, toSink := "", toSource := n.toSource + o.sent);
    assert n.toSource + "" == n.toSource;
    if c.Foreign? && |c.text| + 1 <= 4094 {
      Told(cfg, n, m, c.text);
    }
    if c.Screwup? && |c.reason| <= 4000 {
      Told(cfg, n, m, "rcp: protocol screwup: " + c.reason);
    }
  }

  /** Why a record for `path` is not obeyed, by what is there and by what the system says. */
  predicate InTheWay(cfg: Config, fs: FileSystem, path: string, asDir: bool, why: string) {
    if asDir then
      || (path in fs && fs[path].FileEntry? && why == "Not a directory")
      || (path !in fs && path in cfg.denied && why == cfg.denied[path])
    else
      || (path in cfg.denied && why == cfg.denied[path])
      || (path !in cfg.denied && path in fs && fs[path].DirEntry? && why == "Is a directory")
  }

  /** The path a record is for, and whether it fits the sink's buffer. */
  function Named(f: Frame, name: string): string {
    if !f.place.isDir then f.place.targ
    else if f.place.targ == "" then name
    else f.place.targ + "/" + name
  }

  predicate Fits(f: Frame, name: string) {
    if f.place.isDir then |f.place.targ| + |name| + 2 < 4096 else |f.place.targ| + 1 < 4096
  }

  lemma PathIsNamed(f: Frame, name: string)
    ensures PathIn(f.place, name) == Named(f, name) && (TooLong(f.place, name) <==> !Fits(f, name))
  {
    if f.place.targ == "" {
      assert f.place.targ + "" + name == name;
    }
  }

  lemma ObstacleIsInTheWay(cfg: Config, fs: FileSystem, path: string, asDir: bool, why: string)
    ensures Obstacle(cfg, fs, path, asDir) == Some(why) <==> InTheWay(cfg, fs, path, asDir, why)
  {
  }

  lemma EnteredIsThere(cfg: Config, fs: FileSystem, parent: string, path: string, mode: bv12)
    requires Obstacle(cfg, fs, path, true).None?
    ensures var made := MakeDirectory(cfg, fs, parent, path, mode); path in made && made[path].DirEntry?
  {
  }

  /** The sink and a record of a file or a directory.  A name that does not fit ends the transfer; what is in the way
      costs one error and one complaint, and the sink goes on with the next line; otherwise the record is
      acknowledged, a directory is entered, and a file's octets or, if it has none, the reply behind them come next. */
  lemma SinkOnHeader(cfg: Config, n: Net, line: string, asDir: bool, size: nat, name: string, why: string)
    returns (order: seq<Side>, m: Net)
    requires !SinkDone(n.snk) && n.snk.phase == ReadLine("") && n.toSink == line + "\n" && '\n' !in line
    requires var c := Parse(line, n.snk.frames[0].first);
             if asDir then c.EnterDirectory? && c.name == name else c.StoreFile? && c.name == name && c.size == size
    ensures Run(cfg, n, order) == Some(m) && m.src == n.src && m.toSink == ""
    ensures var s := n.snk;
            var f := s.frames[0].(first := false);
            var outer, path := s.frames[1..], Named(f, name);
            if !Fits(f, name) then
              && m.snk.exited && m.snk.errs == s.errs + 1 && m.snk.fs == s.fs
              && Tells(cfg, n, m, "rcp: protocol screwup: " + "target name too long")
            else if InTheWay(cfg, s.fs, path, asDir, why) then
              && m.snk == s.(frames := [f] + outer, errs := s.errs + 1)
              && (|path| + |why| <= 4000 ==> Tells(cfg, n, m, "rcp: " + path + ": " + why))
            else (forall w :: !InTheWay(cfg, s.fs, path, asDir, w)) ==>
              && m.toSource == n.toSource + "\0" && m.snk.errs == s.errs && !m.snk.exited
              && (asDir ==> m.snk.phase == ReadLine("") && |m.snk.frames| == 2 + |outer|
                            && m.snk.frames[0] == Frame(Place(path, true), true, None)
                            && m.snk.frames[1..] == [f] + outer)
              && (!asDir ==> m.snk.frames == [f] + outer
                             && m.snk.phase == if size == 0 then AwaitReply(path, Fresh) else ReadData(path, size, ""))
  {
    hide Parse, Run, Step, Obstacle, TooLong, PathIn, InTheWay, Fits, Named, MakeDirectory, OpenFile, StoreContent;
    hide Tells, Clipped, Reported, ErrorMessage;
    var s := n.snk;
    var f := s.frames[0];
    order := SinkReads(cfg, n, "", line);
    assert "" + line == line;
    var o := Obey(cfg, s.(phase := ReadLine(line)), Parse(line, f.first));
    m := n.(snk := o.next, toSink := "", toSource := n.toSource + o.sent);
    assert n.toSource + "" == n.toSource;
    PathIsNamed(f.(first := false), name);
    var path := Named(f.(first := false), name);
    ObstacleIsInTheWay(cfg, s.fs, path, asDir, why);
    if Obstacle(cfg, s.fs, path, asDir).Some? {
      ObstacleIsInTheWay(cfg, s.fs, path, asDir, Obstacle(cfg, s.fs, path, asDir).value);
    } else if asDir {
      EnteredIsThere(cfg, s.fs, f.place.targ, path, Parse(line, f.first).mode);
    }
    if !Fits(f.(first := false), name) {
      Told(cfg, n, m, "rcp: protocol screwup: " + "target name too long");
    } else if InTheWay(cfg, s.fs, path, asDir, why) && |path| + |why| <= 4000 {
      assert o.sent == Reported(cfg, ErrorMessage(path, why));
      MessageTold(cfg, n, m, path, why);
    }
  }

  lemma MessageTold(cfg: Config, n: Net, m: Net, path: string, why: string)
    requires |path| + |why| <= 4000 && m.toSource == n.toSource + Reported(cfg, ErrorMessage(path, why))
    ensures Tells(cfg, n, m, "rcp: " + path + ": " + why)
  {
    Told(cfg, n, m, "rcp: " + path + ": " + why);
  }

  /** The E record, or the source's end between two lines: the running call of `sink` returns, and its caller sets
      the times that are pending for the directory; only the record is answered.  The outermost return ends the
      program. */
  lemma SinkReturns(cfg: Config, n: Net, text: string) returns (order: seq<Side>, m: Net)
    requires !SinkDone(n.snk) && n.snk.phase == ReadLine("")
    requires (n.toSink == "E" + text + "\n" && '\n' !in text) || (n.toSink == "" && SourceDone(n.src))
    ensures Run(cfg, n, order) == Some(m) && m.src == n.src && m.toSink == ""
    ensures m.toSource == n.toSource + if n.toSink == "" then "" else "\0"
    ensures var s := n.snk;
            var outer := s.frames[1..];
            if outer == [] then m.snk == s.(frames := [])
            else
              var dir, t := s.frames[0].place.targ, outer[0].setimes;
              m.snk == s.(frames := [outer[0].(setimes := None)] + outer[1..],
                          fs := if t.Some? && dir in s.fs then s.fs[dir := s.fs[dir].(times := t)] else s.fs)
  {
    hide ParseTimes, ParseHeader;
    var s := n.snk;
    if n.toSink == "" {
      order := [AtSink];
      m := Step(cfg, n, AtSink).value;
      assert n.toSink[0..] == "" && n.toSource + "" == n.toSource && [AtSink][1..] == [];
    } else {
      hide Run, Step;
      var line := "E" + text;
      order := SinkReads(cfg, n, "", line);
      assert "" + line == line && Parse(line, s.frames[0].first) == LeaveDirectory;
      var o := Obey(cfg, s.(phase := ReadLine(line)), LeaveDirectory);
      m := n.(snk := o.next, toSink := "", toSource := n.toSource + o.sent);
    }
  }

  // ---------- a peer that is gone ----------

  /** A source that ends inside a record ends the sink: inside a line after a complaint of a lost connection, inside a
      file after one of a dropped connection, which has no newline, and behind a file without any. */
  lemma SinkLosesSource(cfg: Config, n: Net)
    requires !SinkDone(n.snk) && n.snk.phase != ReadLine("") && n.toSink == "" && SourceDone(n.src)
    ensures Step(cfg, n, AtSink).Some?
    ensures var m, s := Step(cfg, n, AtSink).value, n.snk;
            && m.src == n.src && m.toSink == "" && m.snk.exited && m.snk.fs == s.fs
            && match s.phase
               case ReadLine(_) =>
                 m.snk.errs == s.errs + 1 && Tells(cfg, n, m, "rcp: protocol screwup: " + "lost connection")
               case ReadData(_, _, _) =>
                 && m.snk.errs == s.errs + 1
                 && m.toSource == n.toSource + if cfg.sinkRemote then "\U{1}" + "rcp: dropped connection" else ""
               case AwaitReply(_, _) => m.snk.errs == s.errs && m.toSource == n.toSource
  {
    hide Clipped, Tells;
    assert n.toSource + "" == n.toSource && [ERROR_MARK] == "\U{1}" && n.toSink[0..] == "";
    if n.snk.phase.ReadLine? {
      Told(cfg, n, Step(cfg, n, AtSink).value, "rcp: protocol screwup: " + "lost connection");
    }
  }

  /** A source that waits for a sink that has gone exits without counting an error. */
  lemma SourceLosesSink(cfg: Config, n: Net)
    requires !SourceDone(n.src) && Waits(n.src.tasks[0]) && n.toSource == "" && SinkDone(n.snk)
    ensures Step(cfg, n, AtSource) == Some(n.(src := n.src.(exited := true)))
  {
    assert n.toSink + "" == n.toSink && n.toSource[0..] == "";
  }
}
