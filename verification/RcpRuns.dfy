/** Runs of an rcp transfer: however the two sides are scheduled, they end alike. */
module RcpRuns {
  import opened Wrappers
  import opened RcpProtocol
  import opened RcpRecords

  lemma {:induction false} RunConcat(cfg: Config, n: Net, a: seq<Side>, b: seq<Side>)
    requires Run(cfg, n, a).Some?
    ensures Run(cfg, n, a + b) == Run(cfg, Run(cfg, n, a).value, b)
    decreases a
  {
    hide Step;
    if a == [] {
      assert a + b == b;
    } else {
      RunConcat(cfg, Step(cfg, n, a[0]).value, a[1..], b);
      assert (a + b)[1..] == a[1..] + b;
    }
  }

  /** A run that ends can be made to begin with any move that is possible now, at no extra length. */
  lemma {:induction false} Advance(cfg: Config, n: Net, a: seq<Side>, side: Side) returns (a': seq<Side>)
    requires Run(cfg, n, a).Some? && Terminal(cfg, Run(cfg, n, a).value)
    requires Step(cfg, n, side).Some?
    ensures |a'| + 1 == |a|
    ensures Run(cfg, Step(cfg, n, side).value, a') == Run(cfg, n, a)
    decreases a
  {
    assert a != [];
    if a[0] == side {
      a' := a[1..];
    } else {
      MovesCommute(cfg, n);
      var rest := Advance(cfg, Step(cfg, n, a[0]).value, a[1..], side);
      a' := [a[0]] + rest;
      assert a'[1..] == rest;
    }
  }

  /** If one order of moves ends in a terminal state, every order does: any run, taken as far as
      one likes, is no longer and can be completed to the same state with the same number of moves. */
  lemma {:induction false} RunsConverge(cfg: Config, n: Net, a: seq<Side>, b: seq<Side>) returns (c: seq<Side>)
    requires Run(cfg, n, a).Some? && Terminal(cfg, Run(cfg, n, a).value)
    requires Run(cfg, n, b).Some?
    ensures |b| + |c| == |a|
    ensures Run(cfg, Run(cfg, n, b).value, c) == Run(cfg, n, a)
    decreases b
  {
    if b == [] {
      c := a;
    } else {
      var a' := Advance(cfg, n, a, b[0]);
      c := RunsConverge(cfg, Step(cfg, n, b[0]).value, a', b[1..]);
    }
  }

  // ---------- the source after the sink has gone ----------

  /** A bound on what is left to do for a node once its header has been answered, and for a task. */
  function Weight(n: Node): nat
    decreases n
  {
    match n
    case File(_, _, _, _, data) => |data| + 1
    case Dir(_, _, _, _, children) => WeightAll(children) + 1
  }

  function WeightAll(ns: seq<Node>): nat
    decreases ns
  {
    if ns == [] then 0 else Weight(ns[0]) + 2 + WeightAll(ns[1..])
  }

  function TaskWeight(t: Task): nat {
    match t
    case Visit(n) => Weight(n) + 2
    case AwaitTimes(n) => Weight(n) + 1
    case Announce(n) => Weight(n) + 1
    case AwaitHeader(n) => Weight(n)
    case SendBody(n, sent) => if n.File? && sent < |n.data| then |n.data| - sent + 1 else 1
    case Leave => 1
    case _ => 0
  }

  function Load(ts: seq<Task>): nat
    decreases ts
  {
    if ts == [] then 0 else TaskWeight(ts[0]) + Load(ts[1..])
  }

  lemma {:induction false} LoadConcat(a: seq<Task>, b: seq<Task>)
    ensures Load(a + b) == Load(a) + Load(b)
    decreases a
  {
    if a == [] {
      assert a + b == b;
    } else {
      assert (a + b)[1..] == a[1..] + b;
      LoadConcat(a[1..], b);
    }
  }

  lemma {:induction false} LoadOfVisits(ns: seq<Node>)
    ensures Load(Visits(ns)) == WeightAll(ns)
    decreases ns
  {
    if ns != [] {
      LoadOfVisits(ns[1..]);
      assert Visits(ns)[1..] == Visits(ns[1..]);
    }
  }

  lemma AnswerLightens(t: Task)
    ensures Load(OnAccept(t)) <= TaskWeight(t)
  {
    if t.AwaitTimes? {
      assert Load([Announce(t.n)]) == TaskWeight(Announce(t.n));
    } else if t.AwaitHeader? {
      if t.n.File? {
        assert Load([SendBody(t.n, 0)]) == TaskWeight(SendBody(t.n, 0));
      } else {
        LoadOfVisits(t.n.children);
        LoadConcat(Visits(t.n.children), [Leave]);
        assert Load([Leave]) == 1;
      }
    }
  }

  /** How much a source still has in front of it whose sink has gone. */
  function ToDo(s: Source, inbox: string): nat {
    if SourceDone(s) then 0 else 1 + Load(s.tasks) + |inbox|
  }

  lemma SourceAdvances(cfg: Config, s: Source, inbox: string)
    requires !SourceDone(s)
    ensures var m := SourceMove(cfg, s, inbox, true);
      m.Move? && m.taken <= |inbox| && ToDo(m.next, inbox[m.taken..]) < ToDo(s, inbox)
  {
    hide SourceAwaits, Header, Weight, Load, TaskWeight, Visits;
    var t, rest := s.tasks[0], s.tasks[1..];
    assert s.tasks == [t] + rest && inbox[0..] == inbox;
    LoadCons(t, rest);
    match t
    case Visit(n) =>
      LoadCons(AwaitTimes(n), rest);
      LoadCons(Announce(n), rest);
      Lighter(n);
    case Announce(n) =>
      LoadCons(AwaitHeader(n), rest);
      Lighter(n);
    case SendBody(n, sent) =>
      if n.File? && sent < |n.data| {
        var end := if sent + RCP_BUFSIZ <= |n.data| then sent + RCP_BUFSIZ else |n.data|;
        LoadCons(SendBody(n, end), rest);
      } else {
        LoadCons(AwaitStored, rest);
      }
      BodyLightens(n, sent);
    case Leave =>
      LoadCons(AwaitLeave, rest);
      assert TaskWeight(AwaitLeave) < TaskWeight(Leave) by { LeaveLightens(); }
    case _ => ReplyAdvances(cfg, s, inbox);
  }

  lemma LoadCons(t: Task, rest: seq<Task>)
    ensures Load([t] + rest) == TaskWeight(t) + Load(rest)
  {
    assert ([t] + rest)[1..] == rest;
  }

  lemma Lighter(n: Node)
    ensures TaskWeight(AwaitHeader(n)) < TaskWeight(Announce(n)) == TaskWeight(AwaitTimes(n)) < TaskWeight(Visit(n))
  {
  }

  lemma BodyLightens(n: Node, sent: nat)
    ensures TaskWeight(AwaitStored) < TaskWeight(SendBody(n, sent))
    ensures n.File? ==> forall end :: sent < end <= |n.data| ==>
      TaskWeight(SendBody(n, end)) < TaskWeight(SendBody(n, sent))
  {
  }

  lemma LeaveLightens()
    ensures TaskWeight(AwaitLeave) < TaskWeight(Leave)
  {
  }

  lemma ReplyAdvances(cfg: Config, s: Source, inbox: string)
    requires !SourceDone(s)
    ensures var m := SourceAwaits(cfg, s, inbox, true);
      m.Move? && m.taken <= |inbox| && ToDo(m.next, inbox[m.taken..]) < ToDo(s, inbox)
  {
    hide ReplyStep, OnAccept, Load, TaskWeight;
    var t, rest := s.tasks[0], s.tasks[1..];
    assert s.tasks == [t] + rest;
    LoadCons(t, rest);
    AnswerLightens(t);
    LoadConcat(OnAccept(t), rest);
  }

  /** A source whose sink has gone comes to an end by itself. */
  lemma {:induction false} WindsDown(cfg: Config, n: Net) returns (order: seq<Side>, final: Net)
    requires SinkDone(n.snk)
    ensures Run(cfg, n, order) == Some(final) && Terminal(cfg, final) && final.snk == n.snk
    decreases ToDo(n.src, n.toSource)
  {
    hide SourceMove, ToDo;
    if SourceDone(n.src) {
      assert SourceMove(cfg, n.src, n.toSource, true).Blocked? by { DoneIsBlocked(cfg, n.src, n.toSource); }
      order, final := [], n;
    } else {
      SourceAdvances(cfg, n.src, n.toSource);
      var o;
      o, final := WindsDown(cfg, Step(cfg, n, AtSource).value);
      order := [AtSource] + o;
      assert order[1..] == o;
    }
  }

  lemma DoneIsBlocked(cfg: Config, s: Source, inbox: string)
    requires SourceDone(s)
    ensures SourceMove(cfg, s, inbox, true).Blocked?
  {
  }
}
