/** The octets that the source of an rcp transfer (bsd/krcp.c) writes for a tree when everything is acknowledged. */
module RcpScript {
  import opened Wrappers
  import opened RcpRecords
  import opened RcpProtocol
  import opened RcpRuns

  // ---------- what is written, and how many acknowledgements it takes ----------

  /** The times under -p; then the header of a file, its octets and a zero octet, or the header of a directory, what
      is in it, and the record of its end. */
  function Script(cfg: Config, n: Node): string
    decreases n
  {
    (if cfg.pflag then Printed(TimesLine(n.mtime, n.atime) + "\n") else "") +
    match n
    case File(name, mode, _, _, data) => Printed(FileLine(mode, |data|, name) + "\n") + (data + "\0")
    case Dir(name, mode, _, _, children) =>
      Printed(DirectoryLine(mode, name) + "\n") + (ScriptAll(cfg, children) + "E\n")
  }

  function ScriptAll(cfg: Config, ns: seq<Node>): string
    decreases ns
  {
    if ns == [] then "" else Script(cfg, ns[0]) + ScriptAll(cfg, ns[1..])
  }

  function Answers(cfg: Config, n: Node): nat
    decreases n
  {
    (if cfg.pflag then 1 else 0) + 1 + (if n.File? then 0 else AnswersAll(cfg, n.children)) + 1
  }

  function AnswersAll(cfg: Config, ns: seq<Node>): nat
    decreases ns
  {
    if ns == [] then 0 else Answers(cfg, ns[0]) + AnswersAll(cfg, ns[1..])
  }

  function Zeros(k: nat): string { seq(k, _ => '\0') }

  lemma ZerosSplit(a: nat, b: nat, more: string)
    ensures Zeros(a + b) + more == Zeros(a) + (Zeros(b) + more)
  {
    assert Zeros(a + b) == Zeros(a) + Zeros(b);
  }

  lemma FewZeros()
    ensures Zeros(0) == "" && Zeros(1) == "\0"
  {
  }

  /** The acknowledgements of a node: of its times, of its header, of what is in it, and the last one. */
  lemma AnswersSplit(cfg: Config, n: Node, more: string)
    ensures Zeros(Answers(cfg, n)) + more == (if cfg.pflag then "\0" else "")
      + ("\0" + (Zeros(if n.File? then 0 else AnswersAll(cfg, n.children)) + ("\0" + more)))
  {
    hide Zeros, AnswersAll;
    FewZeros();
    var inner := if n.File? then 0 else AnswersAll(cfg, n.children);
    ZerosSplit(if cfg.pflag then 1 else 0, 1 + inner + 1, more);
    ZerosSplit(1, inner + 1, more);
    ZerosSplit(inner, 1, more);
  }

  /** The script of a node, bit by bit behind what has been written. */
  lemma ScriptSplit(cfg: Config, n: Node, wrote: string)
    ensures var times := if cfg.pflag then Printed(TimesLine(n.mtime, n.atime) + "\n") else "";
      var said := wrote + times + Printed(Header(n) + "\n");
      && (n.File? ==> said + (n.data + "\0") == wrote + Script(cfg, n))
      && (n.Dir? ==> said + ScriptAll(cfg, n.children) + "E\n" == wrote + Script(cfg, n))
  {
    hide Printed, TimesLine, FileLine, DirectoryLine, ScriptAll;
    var times := if cfg.pflag then Printed(TimesLine(n.mtime, n.atime) + "\n") else "";
    var rest := if n.File? then n.data + "\0" else ScriptAll(cfg, n.children) + "E\n";
    assert Script(cfg, n) == times + (Printed(Header(n) + "\n") + rest);
    Regrouped(wrote, times, Printed(Header(n) + "\n"), rest);
    if n.Dir? {
      Regrouped(wrote + times + Printed(Header(n) + "\n"), "", ScriptAll(cfg, n.children), "E\n");
    }
  }

  lemma Regrouped(a: string, b: string, c: string, d: string)
    ensures a + b + c + d == a + (b + (c + d))
    ensures b == "" ==> a + c + d == a + (c + d)
  {
    assert b == "" ==> a + b == a;
  }

  /** The first of several nodes and the others. */
  lemma FirstAndRest(cfg: Config, ns: seq<Node>, wrote: string, more: string, rest: seq<Task>)
    requires ns != []
    ensures Visits(ns) + rest == [Visit(ns[0])] + (Visits(ns[1..]) + rest)
    ensures Zeros(AnswersAll(cfg, ns)) + more == Zeros(Answers(cfg, ns[0])) + (Zeros(AnswersAll(cfg, ns[1..])) + more)
    ensures wrote + Script(cfg, ns[0]) + ScriptAll(cfg, ns[1..]) == wrote + ScriptAll(cfg, ns)
  {
    hide Zeros, Script, Answers;
    ZerosSplit(Answers(cfg, ns[0]), AnswersAll(cfg, ns[1..]), more);
    Regrouped(wrote, "", Script(cfg, ns[0]), ScriptAll(cfg, ns[1..]));
  }

  lemma NothingToWrite(cfg: Config, wrote: string, more: string, rest: seq<Task>)
    ensures Visits([]) + rest == rest && wrote + ScriptAll(cfg, []) == wrote
    ensures Zeros(AnswersAll(cfg, [])) + more == more
  {
    FewZeros();
    assert "" + more == more && wrote + "" == wrote && [] + rest == rest;
  }

  // ---------- single moves of the source ----------

  /** The source is about to run `tasks`; it has written `wrote`, and `inbox` waits for it. */
  function AtWork(tasks: seq<Task>, errs: nat, snk: Sink, wrote: string, inbox: string): Net {
    Net(Source(tasks, Fresh, errs, false), snk, wrote, inbox)
  }

  predicate Leads(cfg: Config, a: Net, order: seq<Side>, b: Net) { Run(cfg, a, order) == Some(b) }

  lemma Then(cfg: Config, a: Net, o: seq<Side>, b: Net, p: seq<Side>, c: Net)
    requires Leads(cfg, a, o, b) && Leads(cfg, b, p, c)
    ensures Leads(cfg, a, o + p, c)
  {
    RunConcat(cfg, a, o, p);
  }

  lemma NoMove(cfg: Config, a: Net)
    ensures Leads(cfg, a, [], a)
  {
  }

  lemma ByOne(cfg: Config, a: Net, b: Net)
    requires Step(cfg, a, AtSource) == Some(b)
    ensures Leads(cfg, a, [AtSource], b)
  {
    hide Step;
    assert [AtSource][1..] == [];
  }

  lemma Answered(cfg: Config, t: Task, rest: seq<Task>, errs: nat, snk: Sink, wrote: string, more: string)
    requires t.AwaitGreeting? || t.AwaitTimes? || t.AwaitHeader? || t.AwaitStored? || t.AwaitLeave?
    ensures Leads(cfg, AtWork([t] + rest, errs, snk, wrote, "\0" + more), [AtSource],
                  AtWork(OnAccept(t) + rest, errs, snk, wrote, more))
  {
    hide Leads, OnAccept;
    var a := AtWork([t] + rest, errs, snk, wrote, "\0" + more);
    assert a.src.tasks[0] == t && a.src.tasks[1..] == rest;
    assert a.toSource[0] == '\0' && a.toSource[1..] == more && wrote + "" == wrote;
    ByOne(cfg, a, AtWork(OnAccept(t) + rest, errs, snk, wrote, more));
  }

  lemma Announced(cfg: Config, n: Node, rest: seq<Task>, errs: nat, snk: Sink, wrote: string, more: string)
    ensures Leads(cfg, AtWork([Announce(n)] + rest, errs, snk, wrote, more), [AtSource],
                  AtWork([AwaitHeader(n)] + rest, errs, snk, wrote + Printed(Header(n) + "\n"), more))
  {
    hide Leads, Printed, Header;
    var a := AtWork([Announce(n)] + rest, errs, snk, wrote, more);
    assert a.src.tasks[1..] == rest && more[0..] == more;
    ByOne(cfg, a, AtWork([AwaitHeader(n)] + rest, errs, snk, wrote + Printed(Header(n) + "\n"), more));
  }

  lemma Left(cfg: Config, rest: seq<Task>, errs: nat, snk: Sink, wrote: string, more: string)
    ensures Leads(cfg, AtWork([Leave] + rest, errs, snk, wrote, more), [AtSource],
                  AtWork([AwaitLeave] + rest, errs, snk, wrote + "E\n", more))
  {
    hide Leads, Printed, TimesLine, Header, SourceAwaits;
    var a := AtWork([Leave] + rest, errs, snk, wrote, more);
    assert a.src.tasks[1..] == rest && more[0..] == more;
    ByOne(cfg, a, AtWork([AwaitLeave] + rest, errs, snk, wrote + "E\n", more));
  }

  lemma Visited(cfg: Config, n: Node, rest: seq<Task>, errs: nat, snk: Sink, wrote: string, more: string)
    ensures Leads(cfg, AtWork([Visit(n)] + rest, errs, snk, wrote, more), [AtSource],
                  if cfg.pflag then
                    AtWork([AwaitTimes(n)] + rest, errs, snk, wrote + Printed(TimesLine(n.mtime, n.atime) + "\n"), more)
                  else AtWork([Announce(n)] + rest, errs, snk, wrote, more))
  {
    hide Leads, Printed, TimesLine;
    var a := AtWork([Visit(n)] + rest, errs, snk, wrote, more);
    assert a.src.tasks[1..] == rest && more[0..] == more && wrote + "" == wrote;
    ByOne(cfg, a, Step(cfg, a, AtSource).value);
  }

  // ---------- a file's octets ----------

  lemma {:induction false} BodyWritten(cfg: Config, n: Node, sent: nat, rest: seq<Task>, errs: nat, snk: Sink,
                                       wrote: string, more: string) returns (order: seq<Side>)
    requires n.File? && sent <= |n.data|
    ensures Leads(cfg, AtWork([SendBody(n, sent)] + rest, errs, snk, wrote, more), order,
                  AtWork([AwaitStored] + rest, errs, snk, wrote + (n.data[sent..] + "\0"), more))
    decreases |n.data| - sent
  {
    hide Leads;
    var a := AtWork([SendBody(n, sent)] + rest, errs, snk, wrote, more);
    assert a.src.tasks[1..] == rest && more[0..] == more;
    order := [AtSource];
    if sent < |n.data| {
      var end := if sent + RCP_BUFSIZ <= |n.data| then sent + RCP_BUFSIZ else |n.data|;
      var b := AtWork([SendBody(n, end)] + rest, errs, snk, wrote + n.data[sent..end], more);
      ByOne(cfg, a, b);
      var o := BodyWritten(cfg, n, end, rest, errs, snk, b.toSink, more);
      assert n.data[sent..] == n.data[sent..end] + n.data[end..];
      assert b.toSink + (n.data[end..] + "\0") == wrote + (n.data[sent..] + "\0");
      Then(cfg, a, order, b, o, AtWork([AwaitStored] + rest, errs, snk, wrote + (n.data[sent..] + "\0"), more));
      order := order + o;
    } else {
      assert n.data[sent..] + "\0" == "\0";
      ByOne(cfg, a, AtWork([AwaitStored] + rest, errs, snk, wrote + (n.data[sent..] + "\0"), more));
    }
  }

  // ---------- trees ----------

  /** From the visit of a node to the reading of its header's acknowledgement. */
  lemma HeaderWritten(cfg: Config, n: Node, rest: seq<Task>, errs: nat, snk: Sink, wrote: string, more: string)
    returns (order: seq<Side>)
    ensures var times := if cfg.pflag then Printed(TimesLine(n.mtime, n.atime) + "\n") else "";
      Leads(cfg, AtWork([Visit(n)] + rest, errs, snk, wrote, (if cfg.pflag then "\0" else "") + ("\0" + more)), order,
            AtWork(OnAccept(AwaitHeader(n)) + rest, errs, snk, wrote + times + Printed(Header(n) + "\n"), more))
  {
    hide Leads, OnAccept, Printed, Header, TimesLine;
    var times := if cfg.pflag then Printed(TimesLine(n.mtime, n.atime) + "\n") else "";
    var inbox := (if cfg.pflag then "\0" else "") + ("\0" + more);
    var a := AtWork([Visit(n)] + rest, errs, snk, wrote, inbox);
    var b := AtWork([Announce(n)] + rest, errs, snk, wrote + times, "\0" + more);
    Visited(cfg, n, rest, errs, snk, wrote, inbox);
    order := [AtSource];
    if cfg.pflag {
      Answered(cfg, AwaitTimes(n), rest, errs, snk, wrote + times, "\0" + more);
      TimesAccepted(n);
      Then(cfg, a, order, AtWork([AwaitTimes(n)] + rest, errs, snk, wrote + times, inbox), [AtSource], b);
      order := order + [AtSource];
    } else {
      assert inbox == "\0" + more && wrote + times == wrote;
    }
    var c := AtWork([AwaitHeader(n)] + rest, errs, snk, wrote + times + Printed(Header(n) + "\n"), "\0" + more);
    Announced(cfg, n, rest, errs, snk, wrote + times, "\0" + more);
    Answered(cfg, AwaitHeader(n), rest, errs, snk, c.toSink, more);
    Then(cfg, a, order, b, [AtSource], c);
    Then(cfg, a, order + [AtSource], c, [AtSource], AtWork(OnAccept(AwaitHeader(n)) + rest, errs, snk, c.toSink, more));
    order := order + [AtSource] + [AtSource];
  }

  lemma TimesAccepted(n: Node)
    ensures OnAccept(AwaitTimes(n)) == [Announce(n)]
  {
  }

  /** A node, its header, and what belongs to it, in the order in which the source comes to them. */
  lemma {:induction false} NodeWritten(cfg: Config, n: Node, rest: seq<Task>, errs: nat, snk: Sink, wrote: string,
                                       more: string) returns (order: seq<Side>)
    ensures Leads(cfg, AtWork([Visit(n)] + rest, errs, snk, wrote, Zeros(Answers(cfg, n)) + more), order,
                  AtWork(rest, errs, snk, wrote + Script(cfg, n), more))
    decreases n
  {
    hide Leads, Printed, TimesLine, Header, Zeros, Answers, AnswersAll, Script, ScriptAll;
    var left := Zeros(if n.File? then 0 else AnswersAll(cfg, n.children)) + ("\0" + more);
    AnswersSplit(cfg, n, more);
    ScriptSplit(cfg, n, wrote);
    var times := if cfg.pflag then Printed(TimesLine(n.mtime, n.atime) + "\n") else "";
    var said := wrote + times + Printed(Header(n) + "\n");
    var a := AtWork([Visit(n)] + rest, errs, snk, wrote, Zeros(Answers(cfg, n)) + more);
    var b := AtWork(OnAccept(AwaitHeader(n)) + rest, errs, snk, said, left);
    var o := HeaderWritten(cfg, n, rest, errs, snk, wrote, left);
    var p, last := [], AtWork(rest, errs, snk, wrote + Script(cfg, n), more);
    if n.File? {
      p := FileWritten(cfg, n, rest, errs, snk, said, more);
      FewZeros();
      assert left == "\0" + more && OnAccept(AwaitHeader(n)) == [SendBody(n, 0)];
    } else {
      var q := NodesWritten(cfg, n.children, [Leave] + rest, errs, snk, said, "\0" + more);
      var inside := said + ScriptAll(cfg, n.children);
      p := DirectoryLeft(cfg, rest, errs, snk, inside, more);
      assert Visits(n.children) + [Leave] + rest == Visits(n.children) + ([Leave] + rest);
      Then(cfg, b, q, AtWork([Leave] + rest, errs, snk, inside, "\0" + more), p, last);
      p := q + p;
    }
    Then(cfg, a, o, b, p, last);
    order := o + p;
  }

  lemma FileWritten(cfg: Config, n: Node, rest: seq<Task>, errs: nat, snk: Sink, wrote: string, more: string)
    returns (order: seq<Side>)
    requires n.File?
    ensures Leads(cfg, AtWork([SendBody(n, 0)] + rest, errs, snk, wrote, "\0" + more), order,
                  AtWork(rest, errs, snk, wrote + (n.data + "\0"), more))
  {
    hide Leads;
    var o := BodyWritten(cfg, n, 0, rest, errs, snk, wrote, "\0" + more);
    assert n.data[0..] == n.data && OnAccept(AwaitStored) + rest == rest;
    var said := wrote + (n.data + "\0");
    Answered(cfg, AwaitStored, rest, errs, snk, said, more);
    Then(cfg, AtWork([SendBody(n, 0)] + rest, errs, snk, wrote, "\0" + more), o,
         AtWork([AwaitStored] + rest, errs, snk, said, "\0" + more), [AtSource], AtWork(rest, errs, snk, said, more));
    order := o + [AtSource];
  }

  lemma DirectoryLeft(cfg: Config, rest: seq<Task>, errs: nat, snk: Sink, wrote: string, more: string)
    returns (order: seq<Side>)
    ensures Leads(cfg, AtWork([Leave] + rest, errs, snk, wrote, "\0" + more), order,
                  AtWork(rest, errs, snk, wrote + "E\n", more))
  {
    hide Leads;
    Left(cfg, rest, errs, snk, wrote, "\0" + more);
    Answered(cfg, AwaitLeave, rest, errs, snk, wrote + "E\n", more);
    assert OnAccept(AwaitLeave) + rest == rest;
    Then(cfg, AtWork([Leave] + rest, errs, snk, wrote, "\0" + more), [AtSource],
         AtWork([AwaitLeave] + rest, errs, snk, wrote + "E\n", "\0" + more), [AtSource],
         AtWork(rest, errs, snk, wrote + "E\n", more));
    order := [AtSource] + [AtSource];
  }

  lemma {:induction false} NodesWritten(cfg: Config, ns: seq<Node>, rest: seq<Task>, errs: nat, snk: Sink,
                                        wrote: string, more: string) returns (order: seq<Side>)
    ensures Leads(cfg, AtWork(Visits(ns) + rest, errs, snk, wrote, Zeros(AnswersAll(cfg, ns)) + more), order,
                  AtWork(rest, errs, snk, wrote + ScriptAll(cfg, ns), more))
    decreases ns
  {
    hide Script, Answers, Leads, Zeros, Visits, AnswersAll, ScriptAll;
    order := [];
    if ns == [] {
      NothingToWrite(cfg, wrote, more, rest);
      NoMove(cfg, AtWork(rest, errs, snk, wrote, more));
    } else {
      var tasks, left := Visits(ns[1..]) + rest, Zeros(AnswersAll(cfg, ns[1..])) + more;
      var said := wrote + Script(cfg, ns[0]);
      var o := NodeWritten(cfg, ns[0], tasks, errs, snk, wrote, left);
      var p := NodesWritten(cfg, ns[1..], rest, errs, snk, said, more);
      FirstAndRest(cfg, ns, wrote, more, rest);
      Then(cfg, AtWork(Visits(ns) + rest, errs, snk, wrote, Zeros(AnswersAll(cfg, ns)) + more), o,
           AtWork(tasks, errs, snk, said, left), p, AtWork(rest, errs, snk, wrote + ScriptAll(cfg, ns), more));
      order := o + p;
    }
  }

  /** A source that is acknowledged from the greeting on writes exactly its script, reads one acknowledgement for each
      record, and comes to its end. */
  lemma SourceWritesScript(cfg: Config, roots: seq<Node>, targ: string, fs: FileSystem, more: string)
    returns (order: seq<Side>)
    ensures var start := Start(roots, targ, fs).(toSource := Zeros(1 + AnswersAll(cfg, roots)) + more);
      var end := Run(cfg, start, order);
      && end.Some? && SourceDone(end.value.src) && !end.value.src.exited && end.value.src.errs == 0
      && end.value.toSink == ScriptAll(cfg, roots) && end.value.toSource == more && end.value.snk == start.snk
  {
    hide Run, ScriptAll, AnswersAll;
    var start := Start(roots, targ, fs).(toSource := Zeros(1 + AnswersAll(cfg, roots)) + more);
    var tasks, left := Visits(roots), Zeros(AnswersAll(cfg, roots)) + more;
    assert start.toSource == "\0" + left && OnAccept(AwaitGreeting) + tasks == tasks && tasks + [] == tasks;
    assert start == AtWork([AwaitGreeting] + tasks, 0, start.snk, "", "\0" + left);
    Answered(cfg, AwaitGreeting, tasks, 0, start.snk, "", left);
    var o := NodesWritten(cfg, roots, [], 0, start.snk, "", more);
    assert "" + ScriptAll(cfg, roots) == ScriptAll(cfg, roots);
    Then(cfg, start, [AtSource], AtWork(tasks, 0, start.snk, "", left), o,
         AtWork([], 0, start.snk, ScriptAll(cfg, roots), more));
    order := [AtSource] + o;
  }
}
