/** When the two channels of the record layer (bsd/kcmd.c) keep apart, although one store serves both. */
module KcmdChannels {
  import opened Bytes
  import opened Kcmd
  import opened KcmdSessions

  /** For each end and channel on which it receives, a size that no payload sent there exceeds and no read
      there falls below. */
  type Caps = (nat, nat) -> nat

  predicate FitsOne(c: Common, cap: Caps, a: Action) {
    match a
    case Send(e, ch, p) => e < 2 && Writable(c.setup, p) ==> |p| <= cap(1 - e, ch)
    case Receive(e, ch, len) => len >= cap(e, ch)
  }

  predicate Fits(c: Common, cap: Caps, acts: seq<Action>) {
    forall i :: 0 <= i < |acts| ==> FitsOne(c, cap, acts[i])
  }

  predicate AllAtMost(ps: seq<seq<byte>>, n: nat) {
    forall i :: 0 <= i < |ps| ==> |ps[i]| <= n
  }

  /** Nothing is stored at either end, and every payload so far is within its size. */
  ghost predicate Apart(cap: Caps, s: Session) {
    && Shaped(s) && s.ends[0].stored == [] && s.ends[1].stored == []
    && forall e, ch :: 0 <= e < 2 && 0 <= ch < 2 ==> AllAtMost(s.links[e][ch].written, cap(e, ch))
  }

  /** What one action, and a list of them, tells end `e` it has read on channel `ch`. */
  function HeardOne(c: Common, s: Session, a: Action, e: nat, ch: nat): seq<byte>
    requires Shaped(s) && e < 2 && ch < 2
  {
    if a.Receive? && a.end == e && a.ch == ch && Answered(s, e, ch, a.len) then ReadBy(c, s, e, ch, a.len).buf else []
  }

  function Heard(c: Common, s: Session, acts: seq<Action>, e: nat, ch: nat): seq<byte>
    requires e < 2 && ch < 2
    decreases acts
  {
    if acts == [] then []
    else if Shaped(s) && Allowed(c, s, acts[0]) then
      HeardOne(c, s, acts[0], e, ch) + Heard(c, Perform(c, s, acts[0]), acts[1..], e, ch)
    else Heard(c, s, acts[1..], e, ch)
  }

  /** The octets of the records that have been taken off the wire. */
  ghost function Taken(l: Link): seq<byte>
    requires l.taken <= |l.written|
  {
    Flat(l.written[..l.taken])
  }

  lemma LinkIsSound(c: Common, s: Session, e: nat, ch: nat)
    requires Inv(c, s) && e < 2 && ch < 2
    ensures s.links[e][ch].taken <= |s.links[e][ch].written|
  {
    assert InStep(c, UsageIn(c, e, ch), StartOf(c, e, ch), s.ends[e].ivIn[ch], s.ends[1 - e].ivOut[ch], s.links[e][ch]);
  }

  /** With nothing stored, a read that is at least as large as the next record reports exactly that. */
  lemma NextRecord(c: Common, cap: Caps, s: Session, e: nat, ch: nat, len: nat)
    requires Lawful(c.setup.cipher) && Inv(c, s) && Apart(cap, s) && e < 2 && ch < 2
    requires s.links[e][ch].wire != [] && 0 < len && cap(e, ch) <= len
    ensures var l, r := s.links[e][ch], ReadBy(c, s, e, ch, len);
      && l.taken < |l.written| && r.stored == []
      && r.buf == l.written[l.taken] && r.ret == |l.written[l.taken]|
  {
    hide Lawful, Inv, ReadBy;
    var l := s.links[e][ch];
    ReceiveKeepsInv(c, s, e, ch, len);
    assert s.ends[e].stored == [];
    assert [] + l.written[l.taken] == l.written[l.taken];
  }

  lemma PerformKeepsApart(c: Common, cap: Caps, s: Session, a: Action, e: nat, ch: nat)
    requires Lawful(c.setup.cipher) && Inv(c, s) && Apart(cap, s) && e < 2 && ch < 2
    requires Allowed(c, s, a) && FitsOne(c, cap, a)
    ensures Inv(c, Perform(c, s, a)) && Apart(cap, Perform(c, s, a))
    ensures s.links[e][ch].taken <= |s.links[e][ch].written|
    ensures var l' := Perform(c, s, a).links[e][ch];
      && l'.taken <= |l'.written|
      && Taken(s.links[e][ch]) + HeardOne(c, s, a, e, ch) == Taken(l')
  {
    hide Lawful, Inv, Perform, HeardOne, Taken;
    PerformKeepsInv(c, s, a);
    LinkIsSound(c, s, e, ch);
    LinkIsSound(c, Perform(c, s, a), e, ch);
    if a.Send? {
      SendKeepsApart(c, cap, s, a, e, ch);
    } else if Answered(s, a.end, a.ch, a.len) {
      ReceiveKeepsApart(c, cap, s, a, e, ch);
    } else {
      NothingDone(c, s, a, e, ch);
    }
  }

  lemma NothingDone(c: Common, s: Session, a: Action, e: nat, ch: nat)
    requires Shaped(s) && Allowed(c, s, a) && a.Receive? && !Answered(s, a.end, a.ch, a.len) && e < 2 && ch < 2
    requires s.links[e][ch].taken <= |s.links[e][ch].written|
    ensures Perform(c, s, a) == s && Taken(s.links[e][ch]) + HeardOne(c, s, a, e, ch) == Taken(s.links[e][ch])
  {
  }

  lemma SendKeepsApart(c: Common, cap: Caps, s: Session, a: Action, e: nat, ch: nat)
    requires Apart(cap, s) && e < 2 && ch < 2 && a.Send? && Allowed(c, s, a) && FitsOne(c, cap, a)
    requires s.links[e][ch].taken <= |s.links[e][ch].written|
    ensures Apart(cap, Perform(c, s, a))
    ensures var l' := Perform(c, s, a).links[e][ch];
      l'.taken <= |l'.written| && Taken(s.links[e][ch]) + HeardOne(c, s, a, e, ch) == Taken(l')
  {
    hide Packet, NextState, Writable, Taken;
    var l := s.links[e][ch];
    TakenSame(l, Perform(c, s, a).links[e][ch]);
    assert Taken(l) + [] == Taken(l);
  }

  lemma TakenSame(l: Link, l': Link)
    requires l.taken <= |l.written| && l'.taken == l.taken && l.written <= l'.written
    ensures Taken(l') == Taken(l)
  {
    assert l'.written[..l.taken] == l.written[..l.taken];
  }

  lemma ReceiveKeepsApart(c: Common, cap: Caps, s: Session, a: Action, e: nat, ch: nat)
    requires Lawful(c.setup.cipher) && Inv(c, s) && Apart(cap, s) && e < 2 && ch < 2
    requires a.Receive? && Allowed(c, s, a) && FitsOne(c, cap, a) && Answered(s, a.end, a.ch, a.len)
    requires s.links[e][ch].taken <= |s.links[e][ch].written|
    ensures Apart(cap, Perform(c, s, a))
    ensures var l' := Perform(c, s, a).links[e][ch];
      l'.taken <= |l'.written| && Taken(s.links[e][ch]) + HeardOne(c, s, a, e, ch) == Taken(l')
  {
    hide Lawful, Inv, ReadBy, Taken;
    var l := s.links[e][ch];
    assert Taken(l) + [] == Taken(l);
    if a.len == 0 {
      NothingAsked(c, s, a.end, a.ch);
    } else {
      assert s.ends[a.end].stored == [];
      NextRecord(c, cap, s, a.end, a.ch, a.len);
      if a.end == e && a.ch == ch {
        TakenOneMore(l, Perform(c, s, a).links[e][ch]);
      }
    }
  }

  lemma TakenOneMore(l: Link, l': Link)
    requires l.taken < |l.written| && l'.written == l.written && l'.taken == l.taken + 1
    ensures Taken(l') == Taken(l) + l.written[l.taken]
  {
    assert l.written[..l.taken + 1] == l.written[..l.taken] + [l.written[l.taken]];
    FlatConcat(l.written[..l.taken], [l.written[l.taken]]);
    assert Flat([l.written[l.taken]]) == l.written[l.taken];
  }

  lemma NothingAsked(c: Common, s: Session, e: nat, ch: nat)
    requires Shaped(s) && e < 2 && ch < 2
    ensures var r := ReadBy(c, s, e, ch, 0);
      r.buf == [] && r.stored == s.ends[e].stored && r.rest == s.links[e][ch].wire
  {
  }

  lemma {:induction false} SessionKeepsApart(c: Common, cap: Caps, s: Session, acts: seq<Action>, e: nat, ch: nat)
    requires Lawful(c.setup.cipher) && Inv(c, s) && Apart(cap, s) && Fits(c, cap, acts) && e < 2 && ch < 2
    ensures Inv(c, Performed(c, s, acts)) && Apart(cap, Performed(c, s, acts))
    ensures s.links[e][ch].taken <= |s.links[e][ch].written|
    ensures var l' := Performed(c, s, acts).links[e][ch];
      && l'.taken <= |l'.written|
      && Taken(s.links[e][ch]) + Heard(c, s, acts, e, ch) == Taken(l')
    decreases acts
  {
    hide Lawful, Inv, Perform, HeardOne, Taken, FitsOne;
    LinkIsSound(c, s, e, ch);
    var done := Taken(s.links[e][ch]);
    if acts == [] {
      assert done + [] == done;
    } else if Allowed(c, s, acts[0]) {
      var s' := Perform(c, s, acts[0]);
      PerformKeepsApart(c, cap, s, acts[0], e, ch);
      SessionKeepsApart(c, cap, s', acts[1..], e, ch);
      var now, more := HeardOne(c, s, acts[0], e, ch), Heard(c, s', acts[1..], e, ch);
      assert done + (now + more) == done + now + more;
    } else {
      SessionKeepsApart(c, cap, s, acts[1..], e, ch);
    }
  }

  /** If on every channel each read is at least as large as any record sent there, nothing is ever stored
      between reads; what an end has been told is exactly the records it has taken, and each read that is
      answered reports exactly the next record of its own channel. */
  lemma RoomyReadsDoNotMix(c: Common, cap: Caps, acts: seq<Action>, e: nat, ch: nat, len: nat)
    requires Lawful(c.setup.cipher) && Fits(c, cap, acts) && e < 2 && ch < 2 && 0 < len && cap(e, ch) <= len
    ensures var s := Performed(c, Start(c), acts);
      && Shaped(s) && s.ends[0].stored == [] && s.ends[1].stored == []
      && var l, r := s.links[e][ch], ReadBy(c, s, e, ch, len);
         && l.taken <= |l.written|
         && Heard(c, Start(c), acts, e, ch) == Flat(l.written[..l.taken])
         && (l.wire != [] ==> l.taken < |l.written| && r.buf == l.written[l.taken] && r.ret == |l.written[l.taken]|)
  {
    hide Lawful, Inv, ReadBy, Heard, Performed, Start, Apart;
    StartInv(c);
    StartApart(c, cap, e, ch);
    SessionKeepsApart(c, cap, Start(c), acts, e, ch);
    var s := Performed(c, Start(c), acts);
    assert [] + Heard(c, Start(c), acts, e, ch) == Heard(c, Start(c), acts, e, ch);
    NothingStored(cap, s);
    if s.links[e][ch].wire != [] {
      NextRecord(c, cap, s, e, ch, len);
    }
  }

  lemma StartApart(c: Common, cap: Caps, e: nat, ch: nat)
    requires e < 2 && ch < 2
    ensures Apart(cap, Start(c)) && Start(c).links[e][ch].taken == 0 && Taken(Start(c).links[e][ch]) == []
  {
  }

  lemma NothingStored(cap: Caps, s: Session)
    requires Apart(cap, s)
    ensures Shaped(s) && s.ends[0].stored == [] && s.ends[1].stored == []
  {
  }

  // ---------- exactly when ----------

  /** Payloads of at most `m` octets, and reads of at least `n`. */
  predicate Sized(acts: seq<Action>, m: nat, n: nat) {
    forall i :: 0 <= i < |acts| ==> match acts[i] case Send(_, _, p) => |p| <= m case Receive(_, _, len) => len >= n
  }

  /** Each channel is a stream of its own: what is read on it is a prefix of what was written on it. */
  predicate OwnStream(c: Common, acts: seq<Action>, e: nat, ch: nat)
    requires e < 2 && ch < 2
  {
    var s := Performed(c, Start(c), acts);
    Shaped(s) && Heard(c, Start(c), acts, e, ch) <= Flat(s.links[e][ch].written)
  }

  /** With payloads of at most `m` octets and reads of at least `n`, no session mixes the channels if and only
      if no payload that can be written is longer than a read may be; if one of `m` octets can be written,
      if and only if m <= n. */
  lemma ChannelsKeepApartIff(c: Common, m: nat, n: nat)
    requires Lawful(c.setup.cipher) && n >= 1
    ensures (forall acts, e, ch :: Sized(acts, m, n) && 0 <= e < 2 && 0 <= ch < 2 ==> OwnStream(c, acts, e, ch))
       <==> (forall p :: Writable(c.setup, p) && |p| <= m ==> |p| <= n)
    ensures Writable(c.setup, Filled(1, m)) ==>
      ((forall p :: Writable(c.setup, p) && |p| <= m ==> |p| <= n) <==> m <= n)
  {
    hide Lawful, Writable, OwnStream;
    assert |Filled(1, m)| == m;
    if forall p :: Writable(c.setup, p) && |p| <= m ==> |p| <= n {
      forall acts, e, ch | Sized(acts, m, n) && 0 <= e < 2 && 0 <= ch < 2
        ensures OwnStream(c, acts, e, ch)
      {
        SizedKeepsApart(c, m, n, acts, e, ch);
      }
    } else {
      var p :| Writable(c.setup, p) && |p| <= m && |p| > n;
      WritableByLength(c, p, Filled(1, |p|));
      ChannelsMix(c, |p|, n);
      var acts := MixingSession(|p|, n);
      assert Sized(acts, m, n) && !OwnStream(c, acts, 1, 1);
    }
  }

  lemma SizedKeepsApart(c: Common, m: nat, n: nat, acts: seq<Action>, e: nat, ch: nat)
    requires Lawful(c.setup.cipher) && n >= 1 && Sized(acts, m, n) && e < 2 && ch < 2
    requires forall p :: Writable(c.setup, p) && |p| <= m ==> |p| <= n
    ensures OwnStream(c, acts, e, ch)
  {
    hide Lawful, Writable, Heard, Performed, ReadBy;
    var cap: Caps := (e, ch) => n;
    assert Fits(c, cap, acts);
    RoomyReadsDoNotMix(c, cap, acts, e, ch, n);
    var l := Performed(c, Start(c), acts).links[e][ch];
    FlatConcat(l.written[..l.taken], l.written[l.taken..]);
    assert l.written[..l.taken] + l.written[l.taken..] == l.written;
  }

  function Filled(x: byte, k: nat): seq<byte> { seq(k, i => x) }

  /** A record of k octets on each channel, and a read of n on each. */
  function MixingSession(k: nat, n: nat): seq<Action> {
    [Send(0, 0, Filled(1, k)), Send(0, 1, Filled(2, k)), Receive(1, 0, n), Receive(1, 1, n)]
  }

  /** One record longer than a read is enough: what it leaves in the store is reported on the other channel. */
  lemma ChannelsMix(c: Common, k: nat, n: nat)
    requires Lawful(c.setup.cipher) && k > n >= 1 && Writable(c.setup, Filled(1, k))
    ensures var s := Performed(c, Start(c), MixingSession(k, n));
      && Shaped(s) && s.links[1][1].written == [Filled(2, k)]
      && var heard := Heard(c, Start(c), MixingSession(k, n), 1, 1);
         |heard| == n && heard[0] == 1 && !(heard <= Filled(2, k))
    ensures !OwnStream(c, MixingSession(k, n), 1, 1)
  {
    hide Lawful, InStep, Perform, ReadBy, Start, Writable;
    var acts := MixingSession(k, n);
    var p, q := Filled(1, k), Filled(2, k);
    WritableByLength(c, p, q);
    StartInv(c);
    var s1 := BothSent(c, p, q);
    var s2 := Perform(c, s1, acts[1]);
    var s3 := ShortRead(c, s2, p, q, n);
    HeardInMixing(c, acts, n, s1, s2, s3);
    assert Flat([q]) == q && q[0] == 2;
  }

  /** Both records are on the wire. */
  lemma BothSent(c: Common, p: seq<byte>, q: seq<byte>) returns (s1: Session)
    requires Lawful(c.setup.cipher) && Writable(c.setup, p) && Writable(c.setup, q)
    ensures Inv(c, Start(c)) && s1 == Perform(c, Start(c), Send(0, 0, p)) && Inv(c, s1)
    ensures var s2 := Perform(c, s1, Send(0, 1, q));
      && Inv(c, s2) && s2.ends[1].stored == []
      && s2.links[1][0].written == [p] && s2.links[1][0].taken == 0 && s2.links[1][0].wire != []
      && s2.links[1][1].written == [q] && s2.links[1][1].taken == 0 && s2.links[1][1].wire != []
  {
    hide Lawful, Inv, Packet, NextState, Writable;
    StartInv(c);
    PerformKeepsInv(c, Start(c), Send(0, 0, p));
    s1 := Perform(c, Start(c), Send(0, 0, p));
    PerformKeepsInv(c, s1, Send(0, 1, q));
    SentWire(c, Start(c), 0, 0, p);
    SentWire(c, s1, 0, 1, q);
    assert [] + [p] == [p] && [] + [q] == [q];
  }

  /** A read of n on the one channel leaves the rest of its record for the other. */
  lemma ShortRead(c: Common, s2: Session, p: seq<byte>, q: seq<byte>, n: nat) returns (s3: Session)
    requires Lawful(c.setup.cipher) && Inv(c, s2) && s2.ends[1].stored == [] && |p| == |q| > n >= 1
    requires s2.links[1][0].written == [p] && s2.links[1][0].taken == 0 && s2.links[1][0].wire != []
    requires s2.links[1][1].written == [q] && s2.links[1][1].taken == 0 && s2.links[1][1].wire != []
    ensures s3 == Perform(c, s2, Receive(1, 0, n)) && Inv(c, s3) && Answered(s3, 1, 1, n)
    ensures var buf := ReadBy(c, s3, 1, 1, n).buf; |buf| == n && buf[0] == p[n]
    ensures Shaped(Perform(c, s3, Receive(1, 1, n)))
    ensures Perform(c, s3, Receive(1, 1, n)).links[1][1].written == [q]
  {
    hide Lawful, InStep, ReadBy;
    assert [] + p == p && [p][0] == p && [q][0] == q;
    ReceiveKeepsInv(c, s2, 1, 0, n);
    s3 := Perform(c, s2, Receive(1, 0, n));
    assert s3.ends[1].stored == p[n..];
    ReceiveKeepsInv(c, s3, 1, 1, n);
  }

  lemma WritableByLength(c: Common, p: seq<byte>, q: seq<byte>)
    requires |p| == |q|
    ensures Writable(c.setup, p) <==> Writable(c.setup, q)
  {
  }

  lemma SentWire(c: Common, s: Session, e: nat, ch: nat, p: seq<byte>)
    requires Shaped(s) && e < 2 && ch < 2 && Writable(c.setup, p)
    ensures Sent(c, s, e, ch, p).links[1 - e][ch].wire != []
  {
  }

  lemma HeardInMixing(c: Common, acts: seq<Action>, n: nat, s1: Session, s2: Session, s3: Session)
    requires |acts| == 4 && Shaped(Start(c)) && Allowed(c, Start(c), acts[0]) && s1 == Perform(c, Start(c), acts[0])
    requires Shaped(s1) && Allowed(c, s1, acts[1]) && s2 == Perform(c, s1, acts[1])
    requires Shaped(s2) && Allowed(c, s2, acts[2]) && s3 == Perform(c, s2, acts[2])
    requires Shaped(s3) && Allowed(c, s3, acts[3])
    requires acts[0].Send? && acts[1].Send? && acts[2] == Receive(1, 0, n) && acts[3] == Receive(1, 1, n)
    requires Answered(s3, 1, 1, n)
    ensures Performed(c, Start(c), acts) == Perform(c, s3, acts[3])
    ensures Heard(c, Start(c), acts, 1, 1) == ReadBy(c, s3, 1, 1, n).buf
  {
    hide Perform, ReadBy, Start;
    var t1, t2, t3 := acts[1..], acts[2..], acts[3..];
    assert t1[1..] == t2 && t2[1..] == t3 && t3[1..] == [];
    var b := ReadBy(c, s3, 1, 1, n).buf;
    var s4 := Perform(c, s3, acts[3]);
    assert Performed(c, s4, []) == s4 && Heard(c, s4, [], 1, 1) == [];
    assert Performed(c, s3, t3) == s4 && Heard(c, s3, t3, 1, 1) == b + [];
    assert b + [] == b;
    assert Performed(c, s2, t2) == s4 && Heard(c, s2, t2, 1, 1) == [] + b;
    assert [] + b == b;
    assert Performed(c, s1, t1) == s4 && Heard(c, s1, t1, 1, 1) == [] + b;
  }
}
