/** Whole sessions of the record layer (bsd/kcmd.c): two ends, two channels, both directions, and any
    interleaving of writes and reads. */
module KcmdSessions {
  import opened Bytes
  import opened Kcmd
  import opened KcmdStreams

  /** One direction of one channel: the octets under way, and as a record of what happened all payloads
      written and how many of them the receiver has taken off the wire. */
  datatype Link = Link(wire: seq<byte>, written: seq<seq<byte>>, taken: nat)

  /** The static variables of one end. */
  datatype End = End(ivIn: seq<State>, ivOut: seq<State>, stored: seq<byte>)

  /** `ends[0]` is the client.  `links[e]` are the two channels on which end `e` receives. */
  datatype Session = Session(ends: seq<End>, links: seq<seq<Link>>)

  datatype Common = Common(setup: Setup, enctype: Enctype, newProtocol: bool)

  predicate IsClient(e: nat) { e == 0 }

  function UsageIn(c: Common, e: nat, ch: nat): nat
    requires ch < 2
  {
    Usages(c.enctype, c.newProtocol, IsClient(e), true)[ch]
  }

  function UsageOut(c: Common, e: nat, ch: nat): nat
    requires ch < 2
  {
    Usages(c.enctype, c.newProtocol, IsClient(e), false)[ch]
  }

  function Opening(c: Common, e: nat): End {
    End(InitialStates(c.enctype, c.newProtocol, IsClient(e), true),
        InitialStates(c.enctype, c.newProtocol, IsClient(e), false), [])
  }

  const UNUSED := Link([], [], 0)

  function Start(c: Common): Session {
    Session([Opening(c, 0), Opening(c, 1)], [[UNUSED, UNUSED], [UNUSED, UNUSED]])
  }

  /** What an end may do: send a payload on a channel, or read from one with a buffer of some size. */
  datatype Action = Send(end: nat, ch: nat, payload: seq<byte>) | Receive(end: nat, ch: nat, len: nat)

  predicate Shaped(s: Session) {
    && |s.ends| == 2 && |s.links| == 2
    && (forall e :: 0 <= e < 2 ==> |s.ends[e].ivIn| == 2 && |s.ends[e].ivOut| == 2 && |s.links[e]| == 2)
  }

  predicate Allowed(c: Common, s: Session, a: Action) {
    a.end < 2 && a.ch < 2 && (a.Send? ==> Writable(c.setup, a.payload))
  }

  function Sent(c: Common, s: Session, e: nat, ch: nat, payload: seq<byte>): Session
    requires Shaped(s) && e < 2 && ch < 2 && Writable(c.setup, payload)
  {
    var me, other := s.ends[e], 1 - e;
    var link := s.links[other][ch];
    var u := UsageOut(c, e, ch);
    Session(
      s.ends[e := me.(ivOut := me.ivOut[ch := NextState(c.setup, u, me.ivOut[ch], payload)])],
      s.links[other := s.links[other][ch :=
        link.(wire := link.wire + Packet(c.setup, u, me.ivOut[ch], payload), written := link.written + [payload])]])
  }

  /** A read waits for octets that have not arrived: while the other end is alive it has no effect unless the
      store suffices or something is on the wire. */
  predicate Answered(s: Session, e: nat, ch: nat, len: nat)
    requires Shaped(s) && e < 2 && ch < 2
  {
    len <= |s.ends[e].stored| || s.links[e][ch].wire != []
  }

  function ReadBy(c: Common, s: Session, e: nat, ch: nat, len: nat): ReadResult
    requires Shaped(s) && e < 2 && ch < 2
  {
    ReadSpec(c.setup, UsageIn(c, e, ch), s.ends[e].ivIn[ch], s.ends[e].stored, s.links[e][ch].wire, len)
  }

  function Received(c: Common, s: Session, e: nat, ch: nat, len: nat): Session
    requires Shaped(s) && e < 2 && ch < 2
  {
    var r := ReadBy(c, s, e, ch, len);
    var me, link := s.ends[e], s.links[e][ch];
    var fetched := if len <= |me.stored| then 0 else 1;
    Session(
      s.ends[e := me.(ivIn := me.ivIn[ch := r.state], stored := r.stored)],
      s.links[e := s.links[e][ch := link.(wire := r.rest, taken := link.taken + fetched)]])
  }

  function Perform(c: Common, s: Session, a: Action): Session
    requires Shaped(s) && Allowed(c, s, a)
  {
    match a
    case Send(e, ch, payload) => Sent(c, s, e, ch, payload)
    case Receive(e, ch, len) => if Answered(s, e, ch, len) then Received(c, s, e, ch, len) else s
  }

  // ---------- the invariant ----------

  /** The receiver's state is the sender's as of the last record taken; what is on the wire are the records
      since then, and the sender's state is the one behind them. */
  ghost predicate InStep(c: Common, u: nat, start: State, ivIn: State, ivOut: State, l: Link) {
    && l.taken <= |l.written| && AllWritable(c.setup, l.written)
    && AllWritable(c.setup, l.written[..l.taken]) && AllWritable(c.setup, l.written[l.taken..])
    && ivIn == StateAfter(c.setup, u, start, l.written[..l.taken])
    && ivOut == StateAfter(c.setup, u, start, l.written)
    && l.wire == Packets(c.setup, u, ivIn, l.written[l.taken..])
  }

  function StartOf(c: Common, e: nat, ch: nat): State
    requires ch < 2
  {
    InitialStates(c.enctype, c.newProtocol, IsClient(e), true)[ch]
  }

  ghost predicate Inv(c: Common, s: Session) {
    && Shaped(s)
    && forall e, ch :: 0 <= e < 2 && 0 <= ch < 2 ==>
         InStep(c, UsageIn(c, e, ch), StartOf(c, e, ch), s.ends[e].ivIn[ch], s.ends[1 - e].ivOut[ch], s.links[e][ch])
  }

  /** The usages and starting states of the two ends are paired: each end receives with what the other sends with. */
  lemma EndsArePaired(c: Common, e: nat, ch: nat)
    requires e < 2 && ch < 2
    ensures UsageOut(c, 1 - e, ch) == UsageIn(c, e, ch)
    ensures Opening(c, 1 - e).ivOut[ch] == StartOf(c, e, ch)
  {
  }

  /** The four starting states of an end differ from each other when blocks are not empty, as do its usages
      otherwise. */
  lemma DirectionsDiffer(c: Common, e: nat)
    requires e < 2 && c.newProtocol
    ensures c.enctype.WithIvec? && c.enctype.blocksize > 0 ==>
            var o := Opening(c, e);
            && o.ivIn[0] != o.ivIn[1] && o.ivOut[0] != o.ivOut[1]
            && o.ivIn[0] !in o.ivOut && o.ivIn[1] !in o.ivOut
    ensures c.enctype.WithUsages? ==>
            && UsageIn(c, e, 0) != UsageIn(c, e, 1) && UsageOut(c, e, 0) != UsageOut(c, e, 1)
            && UsageIn(c, e, 0) !in [UsageOut(c, e, 0), UsageOut(c, e, 1)]
            && UsageIn(c, e, 1) !in [UsageOut(c, e, 0), UsageOut(c, e, 1)]
  {
    if c.enctype.WithIvec? && c.enctype.blocksize > 0 {
      var n := c.enctype.blocksize;
      assert Block(0, n)[0] == 0 && Block(1, n)[0] == 1 && Block(2, n)[0] == 2 && Block(3, n)[0] == 3;
    }
  }

  lemma StartInv(c: Common)
    ensures Inv(c, Start(c))
  {
    hide InStep;
    forall e, ch | 0 <= e < 2 && 0 <= ch < 2
      ensures InStep(c, UsageIn(c, e, ch), StartOf(c, e, ch), Start(c).ends[e].ivIn[ch], Start(c).ends[1 - e].ivOut[ch],
                     UNUSED)
    {
      EndsArePaired(c, e, ch);
      UnusedInStep(c, UsageIn(c, e, ch), StartOf(c, e, ch));
    }
  }

  lemma UnusedInStep(c: Common, u: nat, start: State)
    ensures InStep(c, u, start, start, start, UNUSED)
  {
  }

  lemma {:induction false} StateAfterSnoc(s: Setup, u: nat, st: State, ps: seq<seq<byte>>, p: seq<byte>)
    requires AllWritable(s, ps) && Writable(s, p)
    ensures AllWritable(s, ps + [p])
    ensures StateAfter(s, u, st, ps + [p]) == NextState(s, u, StateAfter(s, u, st, ps), p)
    ensures Packets(s, u, st, ps + [p]) == Packets(s, u, st, ps) + Packet(s, u, StateAfter(s, u, st, ps), p)
    decreases ps
  {
    hide NextState, Packet;
    var all := ps + [p];
    if ps == [] {
      assert all == [p] && all[1..] == [];
    } else {
      var st' := NextState(s, u, st, ps[0]);
      assert all[0] == ps[0] && all[1..] == ps[1..] + [p];
      StateAfterSnoc(s, u, st', ps[1..], p);
      var first := Packet(s, u, st, ps[0]);
      assert Packets(s, u, st, all) == first + Packets(s, u, st', all[1..]);
    }
  }

  lemma {:induction false} StateAfterConcat(s: Setup, u: nat, st: State, a: seq<seq<byte>>, b: seq<seq<byte>>)
    requires AllWritable(s, a) && AllWritable(s, b) && AllWritable(s, a + b)
    ensures StateAfter(s, u, st, a + b) == StateAfter(s, u, StateAfter(s, u, st, a), b)
    decreases a
  {
    if a == [] {
      assert a + b == b;
    } else {
      assert (a + b)[1..] == a[1..] + b;
      StateAfterConcat(s, u, NextState(s, u, st, a[0]), a[1..], b);
    }
  }

  lemma SendKeepsStep(c: Common, u: nat, start: State, ivIn: State, ivOut: State, l: Link, p: seq<byte>)
    requires InStep(c, u, start, ivIn, ivOut, l) && Writable(c.setup, p)
    ensures InStep(c, u, start, ivIn, NextState(c.setup, u, ivOut, p),
                   l.(wire := l.wire + Packet(c.setup, u, ivOut, p), written := l.written + [p]))
  {
    var s := c.setup;
    var done, due := l.written[..l.taken], l.written[l.taken..];
    assert done + due == l.written;
    StateAfterConcat(s, u, start, done, due);
    StateAfterSnoc(s, u, start, l.written, p);
    StateAfterSnoc(s, u, ivIn, due, p);
    assert (l.written + [p])[..l.taken] == done && (l.written + [p])[l.taken..] == due + [p];
  }

  /** A fetch takes exactly the next record. */
  lemma FetchKeepsStep(c: Common, u: nat, start: State, ivIn: State, ivOut: State, l: Link)
    requires Lawful(c.setup.cipher) && InStep(c, u, start, ivIn, ivOut, l) && l.wire != []
    ensures l.taken < |l.written|
    ensures var f := Fetch(c.setup, u, ivIn, l.wire);
            && f.ret == 1 && f.stored == l.written[l.taken]
            && InStep(c, u, start, f.state, ivOut, l.(wire := f.rest, taken := l.taken + 1))
  {
    hide Fetch, Packet, NextState, Lawful, StateAfter;
    var s := c.setup;
    var due := l.written[l.taken..];
    var p := due[0];
    RecordArrives(s, u, ivIn, p, Packets(s, u, NextState(s, u, ivIn, p), due[1..]));
    assert due[1..] == l.written[l.taken + 1..];
    assert l.written[..l.taken + 1] == l.written[..l.taken] + [p];
    StateAfterSnoc(s, u, start, l.written[..l.taken], p);
  }

  lemma SendKeepsInv(c: Common, s: Session, e: nat, ch: nat, payload: seq<byte>)
    requires Inv(c, s) && e < 2 && ch < 2 && Writable(c.setup, payload)
    ensures Inv(c, Sent(c, s, e, ch, payload))
  {
    hide InStep, Packet, NextState;
    var other := 1 - e;
    EndsArePaired(c, other, ch);
    var u, start, ivIn, l := UsageIn(c, other, ch), StartOf(c, other, ch), s.ends[other].ivIn[ch], s.links[other][ch];
    assert InStep(c, u, start, ivIn, s.ends[1 - other].ivOut[ch], l);
    SendKeepsStep(c, u, start, ivIn, s.ends[e].ivOut[ch], l, payload);
  }

  /** What a read reports, and that it leaves the two ends of every direction in step. */
  lemma ReceiveKeepsInv(c: Common, s: Session, e: nat, ch: nat, len: nat)
    requires Lawful(c.setup.cipher) && Inv(c, s) && e < 2 && ch < 2 && Answered(s, e, ch, len)
    ensures Inv(c, Received(c, s, e, ch, len))
    ensures var me, link, r := s.ends[e], s.links[e][ch], ReadBy(c, s, e, ch, len);
            if len <= |me.stored| then r.ret == len && r.buf == me.stored[..len] && r.stored == me.stored[len..]
            else
              && link.taken < |link.written|
              && var all := me.stored + link.written[link.taken];
                 && r.ret == (if len <= |all| then len else |all|)
                 && r.buf == all[..r.ret] && r.stored == all[r.ret..]
  {
    hide InStep, Fetch;
    var me, link := s.ends[e], s.links[e][ch];
    var u := UsageIn(c, e, ch);
    assert InStep(c, u, StartOf(c, e, ch), me.ivIn[ch], s.ends[1 - e].ivOut[ch], link);
    if len > |me.stored| {
      FetchKeepsStep(c, u, StartOf(c, e, ch), me.ivIn[ch], s.ends[1 - e].ivOut[ch], link);
    }
  }

  lemma PerformKeepsInv(c: Common, s: Session, a: Action)
    requires Lawful(c.setup.cipher) && Inv(c, s) && Allowed(c, s, a)
    ensures Inv(c, Perform(c, s, a))
  {
    match a
    case Send(e, ch, payload) => SendKeepsInv(c, s, e, ch, payload);
    case Receive(e, ch, len) =>
      if Answered(s, e, ch, len) {
        ReceiveKeepsInv(c, s, e, ch, len);
      }
  }

  // ---------- whole sessions ----------

  /** The session after a list of actions; an action that is not allowed does not happen. */
  function Performed(c: Common, s: Session, acts: seq<Action>): Session
    decreases acts
  {
    if acts == [] then s
    else if Shaped(s) && Allowed(c, s, acts[0]) then Performed(c, Perform(c, s, acts[0]), acts[1..])
    else Performed(c, s, acts[1..])
  }

  lemma {:induction false} SessionsStayInStep(c: Common, s: Session, acts: seq<Action>)
    requires Lawful(c.setup.cipher) && Inv(c, s)
    ensures Inv(c, Performed(c, s, acts))
    decreases acts
  {
    hide Inv, Perform, Lawful;
    if acts != [] {
      if Shaped(s) && Allowed(c, s, acts[0]) {
        PerformKeepsInv(c, s, acts[0]);
        SessionsStayInStep(c, Perform(c, s, acts[0]), acts[1..]);
      } else {
        SessionsStayInStep(c, s, acts[1..]);
      }
    }
  }

  /** From the pairing at the start on, after any interleaving over both channels and both directions, each
      receiving state is the sending state as of the last record taken, and the wire carries the records since. */
  lemma CipherStatesAgree(c: Common, acts: seq<Action>, e: nat, ch: nat)
    requires Lawful(c.setup.cipher) && e < 2 && ch < 2
    ensures var s, st := Performed(c, Start(c), acts), Opening(c, 1 - e).ivOut[ch];
            && Shaped(s)
            && var l := s.links[e][ch];
               && l.taken <= |l.written| && AllWritable(c.setup, l.written)
               && AllWritable(c.setup, l.written[..l.taken]) && AllWritable(c.setup, l.written[l.taken..])
               && s.ends[e].ivIn[ch] == StateAfter(c.setup, UsageIn(c, e, ch), st, l.written[..l.taken])
               && s.ends[1 - e].ivOut[ch] == StateAfter(c.setup, UsageOut(c, 1 - e, ch), st, l.written)
               && l.wire == Packets(c.setup, UsageIn(c, e, ch), s.ends[e].ivIn[ch], l.written[l.taken..])
  {
    StartInv(c);
    SessionsStayInStep(c, Start(c), acts);
    EndsArePaired(c, e, ch);
    var s := Performed(c, Start(c), acts);
    assert InStep(c, UsageIn(c, e, ch), StartOf(c, e, ch), s.ends[e].ivIn[ch], s.ends[1 - e].ivOut[ch], s.links[e][ch]);
  }
}
