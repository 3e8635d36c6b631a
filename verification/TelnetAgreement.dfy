/** What the negotiation of telnet/libtelnet/enc_des.c guarantees: for one side against any peer, and for
    two sides that run the same code over FIFO channels. */
module TelnetAgreement {
  import opened Wrappers
  import opened TelnetFeedback
  import opened TelnetFeedbackLaws
  import opened TelnetNegotiation

  // ---------- one side, whatever the other does ----------

  /** A record of what happened to the encrypting half of one side. */
  datatype Log = Log(sent: seq<Block>, acked: bool, keyIdTaken: bool, keyGiven: bool)

  const NO_LOG := Log([], false, false, false)

  predicate SendsIv(o: Outcome) { o.sent != [] && o.sent[0].Is? && |o.sent[0].data| == 9 }

  /** `acked` tells whether an FB64_IV_OK has come in since the last vector was sent. */
  function Logged(log: Log, e: Event, o: Outcome): Log {
    var keyGiven := log.keyGiven || (e.SessionKey? && e.key.Some?);
    var keyIdTaken := log.keyIdTaken || (e.KeyIdCalled? && e.dir == Encrypt && e.id == [0]);
    if SendsIv(o) then Log(log.sent + [o.sent[0].data[1..]], false, keyIdTaken, keyGiven)
    else if e.ReplyReceived? && e.data != [] && e.data[0] == FB64_IV_OK then
      Log(log.sent, log.sent != [], keyIdTaken, keyGiven)
    else Log(log.sent, log.acked, keyIdTaken, keyGiven)
  }

  predicate Cleared(state: bv8, flag: bv8) { state != FAILED && state & flag == 0 }

  function Last<T>(s: seq<T>): T
    requires s != []
  {
    s[|s| - 1]
  }

  predicate SideInv(p: Party, log: Log) {
    && p.validKey == log.keyGiven
    && (p.encState == FAILED || p.encState <= IN_PROGRESS)
    && (p.decState == FAILED || p.decState == IN_PROGRESS || p.decState == NO_SEND_IV | NO_RECV_IV)
    && p.enc.output == p.enc.iv && p.dec.output == p.dec.iv
    && (Cleared(p.encState, NO_SEND_IV) ==> p.validKey && log.sent != [] && p.tempFeed == Last(log.sent))
    && (Cleared(p.encState, NO_SEND_IV) && Cleared(p.encState, NO_RECV_IV) ==>
          log.acked && p.enc.iv == p.tempFeed && p.enc.index == 8)
    && (Cleared(p.encState, NO_KEYID) ==> log.keyIdTaken)
  }

  lemma VectorSentFlags(st: bv8)
    requires st <= IN_PROGRESS
    ensures (st & !NO_SEND_IV) | NO_RECV_IV <= IN_PROGRESS && ((st & !NO_SEND_IV) | NO_RECV_IV) & NO_RECV_IV != 0
    ensures ((st & !NO_SEND_IV) | NO_RECV_IV) & NO_SEND_IV == 0
    ensures ((st & !NO_SEND_IV) | NO_RECV_IV) & NO_KEYID == st & NO_KEYID
  {
  }

  lemma AnsweredFlags(st: bv8)
    requires st <= IN_PROGRESS
    ensures st & !NO_RECV_IV <= IN_PROGRESS && (st & !NO_RECV_IV) & NO_SEND_IV == st & NO_SEND_IV
    ensures (st & !NO_RECV_IV) & NO_RECV_IV == 0 && (st & !NO_RECV_IV) & NO_KEYID == st & NO_KEYID
  {
  }

  lemma KeyIdFlags(st: bv8)
    requires st == FAILED || st <= IN_PROGRESS
    ensures var st' := Unfailed(st) & !NO_KEYID;
            && st' <= IN_PROGRESS
            && Cleared(st', NO_SEND_IV) == Cleared(st, NO_SEND_IV)
            && Cleared(st', NO_RECV_IV) == Cleared(st, NO_RECV_IV) && Cleared(st', NO_KEYID)
  {
  }

  lemma SuccessFlags(st: bv8)
    requires st <= IN_PROGRESS
    ensures st == SUCCESS <==> st & NO_SEND_IV == 0 && st & NO_RECV_IV == 0 && st & NO_KEYID == 0
  {
  }

  lemma StartKeepsInv(p: Party, log: Log, dir: Dir, seed: Option<Block>)
    requires SideInv(p, log)
    ensures SideInv(StartSpec(p, dir, seed).party, Logged(log, StartCalled(dir, seed), StartSpec(p, dir, seed)))
  {
    VectorSentFlags(Unfailed(p.encState));
    if dir == Encrypt && seed.Some? {
      assert ([FB64_IV] + seed.value)[1..] == seed.value;
    }
  }

  lemma SessionKeepsInv(p: Party, log: Log, key: Option<Block>, seed: Option<Block>)
    requires SideInv(p, log)
    ensures SideInv(SessionSpec(p, key, seed).party, Logged(log, SessionKey(key, seed), SessionSpec(p, key, seed)))
  {
    if key.Some? {
      var q := p.(validKey := true, enc := WithKey(p.enc, key.value), dec := WithKey(p.dec, key.value));
      var log' := log.(keyGiven := true);
      assert SideInv(q, log') && SideInv(q.(needStart := false), log');
      StartKeepsInv(q.(needStart := false), log', Encrypt, seed);
    }
  }

  lemma KeyIdMoves(p: Party, log: Log, dir: Dir, id: seq<Octet>)
    ensures var o := KeyIdSpec(p, dir, id);
            var enc := if dir == Encrypt && id == [0] then Unfailed(p.encState) & !NO_KEYID else p.encState;
            var dec := if dir == Decrypt && id == [0] then Unfailed(p.decState) & !NO_KEYID else p.decState;
            && o.sent == [] && o.party == p.(encState := enc, decState := dec)
            && Logged(log, KeyIdCalled(dir, id), o) ==
               log.(keyIdTaken := log.keyIdTaken || (dir == Encrypt && id == [0]))
  {
    hide Unfailed;
  }

  lemma KeyIdKeepsInv(p: Party, log: Log, dir: Dir, id: seq<Octet>)
    requires SideInv(p, log)
    ensures SideInv(KeyIdSpec(p, dir, id).party, Logged(log, KeyIdCalled(dir, id), KeyIdSpec(p, dir, id)))
  {
    hide SideInv, Unfailed, KeyIdSpec, Logged;
    KeyIdMoves(p, log, dir, id);
    if dir == Encrypt && id == [0] {
      EncKeyIdTaken(p, log);
    } else if dir == Decrypt && id == [0] {
      DecKeyIdTaken(p, log);
    }
  }

  lemma EncKeyIdTaken(p: Party, log: Log)
    requires SideInv(p, log)
    ensures SideInv(p.(encState := Unfailed(p.encState) & !NO_KEYID), log.(keyIdTaken := true))
  {
    hide Cleared, Unfailed;
    KeyIdFlags(p.encState);
  }

  lemma DecKeyIdTaken(p: Party, log: Log)
    requires SideInv(p, log)
    ensures SideInv(p.(decState := Unfailed(p.decState) & !NO_KEYID), log)
  {
    hide Cleared;
  }

  lemma ReplyKeepsInv(p: Party, log: Log, data: seq<Octet>)
    requires SideInv(p, log)
    ensures SideInv(ReplySpec(p, data).party, Logged(log, ReplyReceived(data), ReplySpec(p, data)))
  {
    if data != [] && data[0] == FB64_IV_OK {
      AnsweredFlags(Unfailed(p.encState));
      assert !SendsIv(ReplySpec(p, data));
    }
  }

  lemma HandleKeepsInv(p: Party, log: Log, e: Event)
    requires SideInv(p, log)
    ensures SideInv(Handle(p, e).party, Logged(log, e, Handle(p, e)))
  {
    hide SideInv, Logged, StartSpec, SessionSpec, KeyIdSpec, ReplySpec;
    match e
    case StartCalled(dir, seed) => StartKeepsInv(p, log, dir, seed);
    case SessionKey(key, seed) => SessionKeepsInv(p, log, key, seed);
    case KeyIdCalled(dir, id) => KeyIdKeepsInv(p, log, dir, id);
    case IsReceived(data) => IsKeepsInv(p, log, data);
    case ReplyReceived(data) => ReplyKeepsInv(p, log, data);
  }

  lemma IsKeepsInv(p: Party, log: Log, data: seq<Octet>)
    requires SideInv(p, log)
    ensures SideInv(IsSpec(p, data).party, Logged(log, IsReceived(data), IsSpec(p, data)))
  {
  }

  function Handled(p: Party, log: Log, es: seq<Event>): (Party, Log)
    decreases es
  {
    if es == [] then (p, log) else
    var o := Handle(p, es[0]);
    Handled(o.party, Logged(log, es[0], o), es[1..])
  }

  lemma {:induction false} RunKeepsInv(p: Party, log: Log, es: seq<Event>)
    requires SideInv(p, log)
    ensures SideInv(Handled(p, log, es).0, Handled(p, log, es).1)
    decreases es
  {
    if es != [] {
      HandleKeepsInv(p, log, es[0]);
      RunKeepsInv(Handle(p, es[0]).party, Logged(log, es[0], Handle(p, es[0])), es[1..]);
    }
  }

  /** Whatever the peer and the callers do: SUCCESS for encryption means a valid key, a vector that was
      acknowledged after it was sent and is the one in use, and an accepted key id of 0. */
  lemma SuccessIsEarned(es: seq<Event>)
    ensures var (p, log) := Handled(Fresh(), NO_LOG, es);
            p.encState == SUCCESS ==>
              && p.validKey && log.keyGiven && log.keyIdTaken
              && log.sent != [] && log.acked && p.enc.iv == Last(log.sent)
  {
    RunKeepsInv(Fresh(), NO_LOG, es);
    var p := Handled(Fresh(), NO_LOG, es).0;
    if p.encState == SUCCESS {
      SuccessFlags(p.encState);
    }
  }

  /** The state for decryption never becomes SUCCESS: a received vector starts it anew, and nothing clears
      its first two flags. */
  lemma DecryptionNeverSucceeds(es: seq<Event>)
    ensures Handled(Fresh(), NO_LOG, es).0.decState != SUCCESS
  {
    RunKeepsInv(Fresh(), NO_LOG, es);
  }

  // ---------- a start before the key ----------

  predicate GivesKey(e: Event) { e.SessionKey? && e.key.Some? }

  predicate AsksToStart(e: Event) { e.StartCalled? && e.dir == Encrypt }

  /** Neither key nor vector yet. */
  predicate Waits(p: Party) { !p.validKey && !Cleared(p.encState, NO_SEND_IV) }

  /** Without a key nothing is sent, and only a call to start encryption is remembered. */
  lemma WaitingStep(p: Party, e: Event)
    requires Waits(p) && !GivesKey(e)
    ensures var o := Handle(p, e);
            && Waits(o.party) && (forall i :: 0 <= i < |o.sent| ==> !o.sent[i].Is?)
            && (o.party.needStart <==> p.needStart || AsksToStart(e))
  {
    hide StartSpec, ReplySpec, KeyIdSpec, Waits;
    match e
    case StartCalled(dir, seed) => StartWaits(p, dir, seed);
    case KeyIdCalled(dir, id) => KeyIdWaits(p, dir, id);
    case ReplyReceived(data) => ReplyWaits(p, data);
    case IsReceived(data) => SameWaits(p, IsSpec(p, data).party);
    case SessionKey(_, _) =>
  }

  lemma SameWaits(p: Party, q: Party)
    requires Waits(p) && p.validKey == q.validKey && p.encState == q.encState
    ensures Waits(q)
  {
  }

  lemma StartWaits(p: Party, dir: Dir, seed: Option<Block>)
    requires Waits(p)
    ensures var o := StartSpec(p, dir, seed);
      Waits(o.party) && o.sent == [] && (o.party.needStart <==> p.needStart || dir == Encrypt)
  {
  }

  lemma KeyIdWaits(p: Party, dir: Dir, id: seq<Octet>)
    requires Waits(p)
    ensures var o := KeyIdSpec(p, dir, id); Waits(o.party) && o.sent == [] && o.party.needStart == p.needStart
  {
    hide Waits, Unfailed, KeyIdSpec;
    KeyIdMoves(p, NO_LOG, dir, id);
    VectorStaysUnsent(p, NO_KEYID, p.enc);
    SameWaits(p, p.(decState := KeyIdSpec(p, dir, id).party.decState));
  }

  lemma ReplyWaits(p: Party, data: seq<Octet>)
    requires Waits(p)
    ensures var o := ReplySpec(p, data);
      && Waits(o.party) && o.party.needStart == p.needStart
      && forall i :: 0 <= i < |o.sent| ==> !o.sent[i].Is?
  {
    hide Waits, Unfailed, WithIv;
    if data != [] && data[0] == FB64_IV_OK {
      VectorStaysUnsent(p, NO_RECV_IV, WithIv(p.enc, p.tempFeed));
    } else {
      FailedWaits(p, ReplySpec(p, data).party);
    }
  }

  lemma FailedWaits(p: Party, q: Party)
    requires Waits(p) && p.validKey == q.validKey && q.encState == FAILED
    ensures Waits(q)
  {
  }

  lemma VectorStaysUnsent(p: Party, flag: bv8, s: Stream)
    requires Waits(p) && (flag == NO_RECV_IV || flag == NO_KEYID)
    ensures Waits(p.(enc := s, encState := Unfailed(p.encState) & !flag))
  {
  }

  lemma {:induction false} Waiting(p: Party, log: Log, es: seq<Event>)
    requires Waits(p)
    requires forall i :: 0 <= i < |es| ==> !GivesKey(es[i])
    ensures var q := Handled(p, log, es).0;
            && Waits(q)
            && (q.needStart <==> p.needStart || exists i :: 0 <= i < |es| && AsksToStart(es[i]))
    decreases es
  {
    hide Handle, Logged, Waits, AsksToStart, GivesKey;
    if es != [] {
      WaitingStep(p, es[0]);
      Waiting(Handle(p, es[0]).party, Logged(log, es[0], Handle(p, es[0])), es[1..]);
      assert (exists i :: 0 <= i < |es| && AsksToStart(es[i])) <==>
          AsksToStart(es[0]) || exists i :: 0 <= i < |es[1..]| && AsksToStart(es[1..][i]) by {
        FirstOrLater(es);
      }
    }
  }

  lemma FirstOrLater(es: seq<Event>)
    requires es != []
    ensures (exists i :: 0 <= i < |es| && AsksToStart(es[i])) <==>
      AsksToStart(es[0]) || exists i :: 0 <= i < |es[1..]| && AsksToStart(es[1..][i])
  {
    if i :| 0 <= i < |es| && AsksToStart(es[i]) {
      assert i > 0 ==> es[1..][i - 1] == es[i];
    }
    if i :| 0 <= i < |es[1..]| && AsksToStart(es[1..][i]) {
      assert es[i + 1] == es[1..][i];
    }
  }

  /** When the session key comes at last, the vector is sent at once if and only if encryption was to be started
      while there was none; whatever else happened in between. */
  lemma VectorFollowsKey(p: Party, es: seq<Event>, key: Block, iv: Block)
    requires !p.validKey && !Cleared(p.encState, NO_SEND_IV)
    requires forall i :: 0 <= i < |es| ==> !GivesKey(es[i])
    ensures var o := Handle(Handled(p, NO_LOG, es).0, SessionKey(Some(key), Some(iv)));
            && o.sent == (if p.needStart || exists i :: 0 <= i < |es| && AsksToStart(es[i]) then [Is([1] + iv)] else [])
            && o.party.validKey && !o.party.needStart
            && (Cleared(o.party.encState, NO_SEND_IV) <==> o.sent != [])
  {
    hide Handled, AsksToStart;
    Waiting(p, NO_LOG, es);
    VectorSent(Handled(p, NO_LOG, es).0, key, iv);
  }

  lemma VectorSent(q: Party, key: Block, iv: Block)
    requires !q.validKey && !Cleared(q.encState, NO_SEND_IV)
    ensures var o := Handle(q, SessionKey(Some(key), Some(iv)));
            && o.sent == (if q.needStart then [Is([1] + iv)] else []) && o.party.validKey && !o.party.needStart
            && (Cleared(o.party.encState, NO_SEND_IV) <==> o.sent != [])
  {
    SentIsCleared(q.encState);
  }

  lemma SentIsCleared(st: bv8)
    requires !Cleared(st, NO_SEND_IV)
    ensures Cleared((Unfailed(st) & !NO_SEND_IV) | NO_RECV_IV, NO_SEND_IV)
  {
  }

  // ---------- two sides ----------

  /** `channels[i]` are the messages on their way to side `i`. */
  datatype System = System(parties: seq<Party>, logs: seq<Log>, channels: seq<seq<Message>>)

  /** Something happens at a side by itself, or the next message reaches it.  A key id that is offered is
      taken up, if at all, by a call of `fb64_keyid`, which may come at any time. */
  datatype Action = Local(side: nat, event: Event) | Deliver(side: nat)

  predicate Shaped(s: System) { |s.parties| == |s.logs| == |s.channels| == 2 }

  function Both(): System { System([Fresh(), Fresh()], [NO_LOG, NO_LOG], [[], []]) }

  function AtSide(s: System, i: nat, e: Event, waiting: seq<Message>): System
    requires Shaped(s) && i < 2
  {
    var o := Handle(s.parties[i], e);
    System(s.parties[i := o.party], s.logs[i := Logged(s.logs[i], e, o)],
           s.channels[i := waiting][1 - i := s.channels[1 - i] + o.sent])
  }

  function Act(s: System, a: Action): (r: System)
    requires Shaped(s)
    ensures Shaped(r)
  {
    if a.side >= 2 then s else
    match a
    case Local(i, e) => if e.IsReceived? || e.ReplyReceived? then s else AtSide(s, i, e, s.channels[i])
    case Deliver(i) =>
      if s.channels[i] == [] then s else
      match s.channels[i][0]
      case Is(data) => AtSide(s, i, IsReceived(data), s.channels[i][1..])
      case Reply(data) => AtSide(s, i, ReplyReceived(data), s.channels[i][1..])
      case KeyIdOffer(_) => s.(channels := s.channels[i := s.channels[i][1..]])
  }

  function Acted(s: System, acts: seq<Action>): (r: System)
    requires Shaped(s)
    ensures Shaped(r)
    decreases acts
  {
    if acts == [] then s else Acted(Act(s, acts[0]), acts[1..])
  }

  /** The vectors among some messages, and the number of replies. */
  function Vectors(ms: seq<Message>): seq<seq<Octet>> {
    if ms == [] then [] else (if ms[0].Is? then [ms[0].data] else []) + Vectors(ms[1..])
  }

  function Replies(ms: seq<Message>): nat {
    if ms == [] then 0 else (if ms[0].Reply? then 1 else 0) + Replies(ms[1..])
  }

  predicate Honest(ms: seq<Message>) {
    forall k :: 0 <= k < |ms| ==>
      && (ms[k].Is? ==> |ms[k].data| == 9 && ms[k].data[0] == FB64_IV)
      && (ms[k].Reply? ==> ms[k].data == [FB64_IV_OK])
  }

  lemma {:induction false} CountsConcat(a: seq<Message>, b: seq<Message>)
    ensures Vectors(a + b) == Vectors(a) + Vectors(b) && Replies(a + b) == Replies(a) + Replies(b)
    decreases a
  {
    if a == [] {
      assert a + b == b;
    } else {
      assert (a + b)[0] == a[0] && (a + b)[1..] == a[1..] + b;
      CountsConcat(a[1..], b);
      var head := if a[0].Is? then [a[0].data] else [];
      assert head + (Vectors(a[1..]) + Vectors(b)) == (head + Vectors(a[1..])) + Vectors(b);
    }
  }

  /** The vector of one direction: not yet sent, or on its way with the peer, or on its way back, or acknowledged. */
  predicate DirectionInv(p: Party, log: Log, out: seq<seq<Octet>>, back: nat, peer: Party) {
    && |log.sent| <= 1
    && |out| + back <= |log.sent|
    && (log.sent == [] <==> !Cleared(p.encState, NO_SEND_IV))
    && (log.sent != [] ==>
          && (|out| == 1 ==> out[0] == [FB64_IV] + log.sent[0] && !log.acked)
          && (back == 1 ==> !log.acked)
          && (log.acked <==> |out| + back == 0)
          && (|out| == 0 ==> peer.dec.iv == log.sent[0] && peer.dec.index == 8))
  }

  predicate Inv(s: System) {
    && Shaped(s)
    && Honest(s.channels[0]) && Honest(s.channels[1])
    && SideInv(s.parties[0], s.logs[0]) && SideInv(s.parties[1], s.logs[1])
    && DirectionInv(s.parties[0], s.logs[0], Vectors(s.channels[1]), Replies(s.channels[0]), s.parties[1])
    && DirectionInv(s.parties[1], s.logs[1], Vectors(s.channels[0]), Replies(s.channels[1]), s.parties[0])
  }

  lemma StartKeepsDirection(p: Party, log: Log, e: Event, dir: Dir, seed: Option<Block>, out: seq<seq<Octet>>,
                            back: nat, peer: Party)
    requires p.encState == FAILED || p.encState <= IN_PROGRESS
    requires DirectionInv(p, log, out, back, peer) && (e == StartCalled(dir, seed) || e.SessionKey?)
    ensures var o := StartSpec(p, dir, seed);
            && DirectionInv(o.party, Logged(log, e, o), out + Vectors(o.sent), back, peer)
            && Honest(o.sent) && Replies(o.sent) == 0
            && o.party.dec == p.dec
  {
    VectorSentFlags(Unfailed(p.encState));
    var o := StartSpec(p, dir, seed);
    if o.sent == [] {
      assert out + [] == out;
    } else {
      var m := [FB64_IV] + seed.value;
      assert m[1..] == seed.value && o.sent[1..] == [];
      assert Vectors(o.sent) == [m];
      assert out == [] && log.sent == [];
      assert out + [m] == [m];
    }
  }

  lemma SessionKeepsDirection(p: Party, log: Log, key: Option<Block>, seed: Option<Block>, out: seq<seq<Octet>>,
                              back: nat, peer: Party)
    requires p.encState == FAILED || p.encState <= IN_PROGRESS
    requires DirectionInv(p, log, out, back, peer)
    ensures var e := SessionKey(key, seed);
            var o := Handle(p, e);
            && DirectionInv(o.party, Logged(log, e, o), out + Vectors(o.sent), back, peer)
            && Honest(o.sent) && Replies(o.sent) == 0
            && o.party.dec.iv == p.dec.iv && (p.dec.index == 8 ==> o.party.dec.index == 8)
  {
    if key.Some? {
      var q := p.(validKey := true, enc := WithKey(p.enc, key.value), dec := WithKey(p.dec, key.value));
      if q.needStart {
        var q', log' := q.(needStart := false), log.(keyGiven := true);
        StartKeepsDirection(q', log', SessionKey(key, seed), Encrypt, seed, out, back, peer);
      } else {
        assert out + [] == out;
      }
    } else {
      assert out + [] == out;
    }
  }

  lemma KeyIdKeepsDirection(p: Party, log: Log, dir: Dir, id: seq<Octet>, out: seq<seq<Octet>>, back: nat, peer: Party)
    requires p.encState == FAILED || p.encState <= IN_PROGRESS
    requires DirectionInv(p, log, out, back, peer)
    ensures var e := KeyIdCalled(dir, id);
            var o := Handle(p, e);
            && DirectionInv(o.party, Logged(log, e, o), out + Vectors(o.sent), back, peer)
            && o.sent == [] && o.party.dec == p.dec
  {
    hide Cleared, Unfailed, DirectionInv, KeyIdSpec, Logged;
    var o := KeyIdSpec(p, dir, id);
    KeyIdMoves(p, log, dir, id);
    KeyIdFlags(p.encState);
    assert out + Vectors(o.sent) == out;
    SameDirection(p, o.party, log, Logged(log, KeyIdCalled(dir, id), o), out, back, peer);
  }

  lemma SameDirection(p: Party, p': Party, log: Log, log': Log, out: seq<seq<Octet>>, back: nat, peer: Party)
    requires DirectionInv(p, log, out, back, peer)
    requires Cleared(p'.encState, NO_SEND_IV) == Cleared(p.encState, NO_SEND_IV)
    requires log'.sent == log.sent && log'.acked == log.acked
    ensures DirectionInv(p', log', out, back, peer)
  {
    hide Cleared;
  }

  /** A side that handles an event of its own stays a good peer, and sends no reply. */
  lemma LocalKeepsDirection(p: Party, log: Log, e: Event, out: seq<seq<Octet>>, back: nat, peer: Party)
    requires p.encState == FAILED || p.encState <= IN_PROGRESS
    requires DirectionInv(p, log, out, back, peer) && !e.IsReceived? && !e.ReplyReceived?
    ensures var o := Handle(p, e);
            && DirectionInv(o.party, Logged(log, e, o), out + Vectors(o.sent), back, peer)
            && Honest(o.sent) && Replies(o.sent) == 0 && StillPeer(p, o.party)
  {
    hide DirectionInv, Logged, StartSpec, SessionSpec, KeyIdSpec;
    match e
    case StartCalled(dir, seed) => StartKeepsDirection(p, log, e, dir, seed, out, back, peer);
    case SessionKey(key, seed) => SessionKeepsDirection(p, log, key, seed, out, back, peer);
    case KeyIdCalled(dir, id) => KeyIdKeepsDirection(p, log, dir, id, out, back, peer);
  }

  /** The decrypting stream has kept its vector. */
  predicate StillPeer(p: Party, p': Party) {
    p'.dec.iv == p.dec.iv && (p.dec.index == 8 ==> p'.dec.index == 8)
  }

  lemma PeerKeepsDirection(p: Party, log: Log, out: seq<seq<Octet>>, back: nat, peer: Party, peer': Party)
    requires DirectionInv(p, log, out, back, peer) && StillPeer(peer, peer')
    ensures DirectionInv(p, log, out, back, peer')
  {
  }

  lemma VectorTaken(p: Party, log: Log, data: seq<Octet>, out: seq<seq<Octet>>, back: nat, peer: Party)
    requires DirectionInv(p, log, [data] + out, back, peer) && |data| == 9 && data[0] == FB64_IV
    ensures DirectionInv(p, log, out, back + 1, IsSpec(peer, data).party)
    ensures IsSpec(peer, data).sent == [Reply([FB64_IV_OK])]
  {
    assert ([FB64_IV] + log.sent[0])[1..] == log.sent[0];
  }

  lemma IsKeepsOwnDirection(p: Party, log: Log, data: seq<Octet>, out: seq<seq<Octet>>, back: nat, peer: Party)
    requires DirectionInv(p, log, out, back, peer)
    ensures DirectionInv(IsSpec(p, data).party, Logged(log, IsReceived(data), IsSpec(p, data)), out, back, peer)
  {
  }

  lemma ReplyTaken(p: Party, log: Log, out: seq<seq<Octet>>, back: nat, peer: Party)
    requires p.encState == FAILED || p.encState <= IN_PROGRESS
    requires DirectionInv(p, log, out, back + 1, peer)
    ensures var data := [FB64_IV_OK];
            var o := ReplySpec(p, data);
            && DirectionInv(o.party, Logged(log, ReplyReceived(data), o), out, back, peer)
            && o.sent == [KeyIdOffer([0])] && o.party.dec == p.dec
  {
    AnsweredFlags(Unfailed(p.encState));
  }

  ghost predicate DirectionOk(s: System, i: nat)
    requires Shaped(s) && i < 2
  {
    DirectionInv(s.parties[i], s.logs[i], Vectors(s.channels[1 - i]), Replies(s.channels[i]), s.parties[1 - i])
  }

  lemma InvBoth(s: System, i: nat)
    requires Shaped(s) && i < 2
    ensures Inv(s) <==>
              && Honest(s.channels[i]) && Honest(s.channels[1 - i])
              && SideInv(s.parties[i], s.logs[i]) && SideInv(s.parties[1 - i], s.logs[1 - i])
              && DirectionOk(s, i) && DirectionOk(s, 1 - i)
  {
    assert i == 0 || i == 1;
  }

  lemma HonestConcat(a: seq<Message>, b: seq<Message>)
    requires Honest(a) && Honest(b)
    ensures Honest(a + b)
  {
  }

  lemma LocalKeepsInv(s: System, i: nat, e: Event)
    requires Shaped(s) && Inv(s) && i < 2 && !e.IsReceived? && !e.ReplyReceived?
    ensures Inv(AtSide(s, i, e, s.channels[i]))
  {
    hide Handle, Logged, SideInv, DirectionInv, StillPeer, Inv, Honest, Vectors, Replies;
    var o, j, p := Handle(s.parties[i], e), 1 - i, s.parties[i];
    InvBoth(s, i);
    HandleKeepsInv(p, s.logs[i], e);
    SideStates(p, s.logs[i]);
    LocalKeepsDirection(p, s.logs[i], e, Vectors(s.channels[j]), Replies(s.channels[i]), s.parties[j]);
    PeerKeepsDirection(s.parties[j], s.logs[j], Vectors(s.channels[i]), Replies(s.channels[j]), p, o.party);
    CountsConcat(s.channels[j], o.sent);
    HonestConcat(s.channels[j], o.sent);
    InvBoth(AtSide(s, i, e, s.channels[i]), i);
  }

  lemma VectorOff(ms: seq<Message>)
    requires ms != [] && Honest(ms) && ms[0].Is?
    ensures |ms[0].data| == 9 && ms[0].data[0] == FB64_IV && Honest(ms[1..])
    ensures Vectors(ms) == [ms[0].data] + Vectors(ms[1..]) && Replies(ms) == Replies(ms[1..])
  {
  }

  lemma ReplyAdded(ms: seq<Message>)
    requires Honest(ms)
    ensures var more := ms + [Reply([FB64_IV_OK])];
            Honest(more) && Vectors(more) == Vectors(ms) && Replies(more) == Replies(ms) + 1
  {
    var sent := [Reply([FB64_IV_OK])];
    CountsConcat(ms, sent);
    assert sent[1..] == [] && Vectors(sent) == [] && Replies(sent) == 1;
    assert Vectors(ms) + [] == Vectors(ms);
  }

  /** A vector arrives: the receiver takes it and answers. */
  lemma VectorKeepsInv(s: System, i: nat)
    requires Shaped(s) && Inv(s) && i < 2 && s.channels[i] != [] && s.channels[i][0].Is?
    ensures Inv(AtSide(s, i, IsReceived(s.channels[i][0].data), s.channels[i][1..]))
  {
    hide Logged, SideInv, DirectionInv, StillPeer, Inv, IsSpec, Honest, Vectors, Replies;
    var j, data, rest, p := 1 - i, s.channels[i][0].data, s.channels[i][1..], s.parties[i];
    InvBoth(s, i);
    HandleKeepsInv(p, s.logs[i], IsReceived(data));
    VectorOff(s.channels[i]);
    VectorTaken(s.parties[j], s.logs[j], data, Vectors(rest), Replies(s.channels[j]), p);
    IsKeepsOwnDirection(p, s.logs[i], data, Vectors(s.channels[j]), Replies(s.channels[i]), s.parties[j]);
    ReplyAdded(s.channels[j]);
    InvBoth(AtSide(s, i, IsReceived(data), rest), i);
  }

  lemma ReplyOff(ms: seq<Message>)
    requires ms != [] && Honest(ms) && ms[0].Reply?
    ensures ms[0].data == [FB64_IV_OK] && Honest(ms[1..])
    ensures Vectors(ms) == Vectors(ms[1..]) && Replies(ms) == Replies(ms[1..]) + 1
  {
    assert [] + Vectors(ms[1..]) == Vectors(ms[1..]);
  }

  lemma OfferAdded(ms: seq<Message>)
    requires Honest(ms)
    ensures var more := ms + [KeyIdOffer([0])];
            Honest(more) && Vectors(more) == Vectors(ms) && Replies(more) == Replies(ms)
  {
    var sent := [KeyIdOffer([0])];
    CountsConcat(ms, sent);
    assert sent[1..] == [] && Vectors(sent) == [] && Replies(sent) == 0;
    assert Vectors(ms) + [] == Vectors(ms);
  }

  /** The answer arrives: the sender takes its vector into use. */
  lemma ReplyKeepsSystemInv(s: System, i: nat)
    requires Shaped(s) && Inv(s) && i < 2 && s.channels[i] != [] && s.channels[i][0].Reply?
    ensures Inv(AtSide(s, i, ReplyReceived(s.channels[i][0].data), s.channels[i][1..]))
  {
    hide Logged, SideInv, DirectionInv, Inv, ReplySpec, Honest, Vectors, Replies;
    var j, data, rest, p := 1 - i, s.channels[i][0].data, s.channels[i][1..], s.parties[i];
    InvBoth(s, i);
    HandleKeepsInv(p, s.logs[i], ReplyReceived(data));
    SideStates(p, s.logs[i]);
    ReplyOff(s.channels[i]);
    ReplyTaken(p, s.logs[i], Vectors(s.channels[j]), Replies(rest), s.parties[j]);
    PeerKeepsDirection(s.parties[j], s.logs[j], Vectors(s.channels[i]), Replies(s.channels[j]), p,
                       Handle(p, ReplyReceived(data)).party);
    OfferAdded(s.channels[j]);
    InvBoth(AtSide(s, i, ReplyReceived(data), rest), i);
  }

  lemma SideStates(p: Party, log: Log)
    requires SideInv(p, log)
    ensures p.encState == FAILED || p.encState <= IN_PROGRESS
  {
  }

  lemma ActKeepsInv(s: System, a: Action)
    requires Inv(s)
    ensures Inv(Act(s, a))
  {
    hide SideInv, DirectionInv, Handle, Logged;
    if a.side < 2 {
      match a
      case Local(i, e) =>
        if !e.IsReceived? && !e.ReplyReceived? {
          LocalKeepsInv(s, i, e);
        }
      case Deliver(i) =>
        if s.channels[i] != [] {
          match s.channels[i][0]
          case Is(data) => VectorKeepsInv(s, i);
          case Reply(data) => ReplyKeepsSystemInv(s, i);
          case KeyIdOffer(_) => assert [] + Vectors(s.channels[i][1..]) == Vectors(s.channels[i][1..]);
        }
    }
  }

  lemma {:induction false} ActedKeepsInv(s: System, acts: seq<Action>)
    requires Inv(s)
    ensures Inv(Acted(s, acts))
    decreases acts
  {
    if acts != [] {
      ActKeepsInv(s, acts[0]);
      ActedKeepsInv(Act(s, acts[0]), acts[1..]);
    }
  }

  // ---------- nothing is cleared that is then asked for again ----------

  predicate FlagsFollow(p: Party, log: Log) {
    && (p.encState == FAILED || p.encState <= IN_PROGRESS)
    && (log.keyIdTaken ==> Cleared(p.encState, NO_KEYID))
    && (log.acked ==> Cleared(p.encState, NO_RECV_IV))
  }

  lemma HandleKeepsFlags(p: Party, log: Log, e: Event)
    requires FlagsFollow(p, log) && (e.ReplyReceived? ==> e.data == [FB64_IV_OK])
    ensures FlagsFollow(Handle(p, e).party, Logged(log, e, Handle(p, e)))
  {
    hide FlagsFollow, Logged, StartSpec, SessionSpec, KeyIdSpec, ReplySpec, IsSpec;
    match e
    case StartCalled(dir, seed) => StartKeepsFlags(p, log, e, dir, seed);
    case SessionKey(key, seed) => SessionKeepsFlags(p, log, key, seed);
    case KeyIdCalled(dir, id) => KeyIdKeepsFlags(p, log, dir, id);
    case IsReceived(data) => IsKeepsFlags(p, log, data);
    case ReplyReceived(data) => ReplyKeepsFlags(p, log);
  }

  lemma StartKeepsFlags(p: Party, log: Log, e: Event, dir: Dir, seed: Option<Block>)
    requires FlagsFollow(p, log) && (e == StartCalled(dir, seed) || e.SessionKey?)
    ensures FlagsFollow(StartSpec(p, dir, seed).party, Logged(log, e, StartSpec(p, dir, seed)))
  {
    VectorSentFlags(Unfailed(p.encState));
  }

  lemma SessionKeepsFlags(p: Party, log: Log, key: Option<Block>, seed: Option<Block>)
    requires FlagsFollow(p, log)
    ensures FlagsFollow(SessionSpec(p, key, seed).party, Logged(log, SessionKey(key, seed), SessionSpec(p, key, seed)))
  {
    hide Cleared;
    if key.Some? {
      var q := p.(validKey := true, enc := WithKey(p.enc, key.value), dec := WithKey(p.dec, key.value));
      StartKeepsFlags(q.(needStart := false), log, SessionKey(key, seed), Encrypt, seed);
    }
  }

  lemma KeyIdKeepsFlags(p: Party, log: Log, dir: Dir, id: seq<Octet>)
    requires FlagsFollow(p, log)
    ensures FlagsFollow(KeyIdSpec(p, dir, id).party, Logged(log, KeyIdCalled(dir, id), KeyIdSpec(p, dir, id)))
  {
    hide Cleared, Unfailed, KeyIdSpec, Logged;
    KeyIdMoves(p, log, dir, id);
    KeyIdFlags(p.encState);
  }

  lemma IsKeepsFlags(p: Party, log: Log, data: seq<Octet>)
    requires FlagsFollow(p, log)
    ensures FlagsFollow(IsSpec(p, data).party, Logged(log, IsReceived(data), IsSpec(p, data)))
  {
    hide Cleared;
  }

  lemma ReplyKeepsFlags(p: Party, log: Log)
    requires FlagsFollow(p, log)
    ensures var o := ReplySpec(p, [FB64_IV_OK]); FlagsFollow(o.party, Logged(log, ReplyReceived([FB64_IV_OK]), o))
  {
    AnsweredFlags(Unfailed(p.encState));
  }

  lemma ActKeepsFlags(s: System, a: Action, i: nat)
    requires Inv(s) && i < 2 && FlagsFollow(s.parties[i], s.logs[i])
    ensures FlagsFollow(Act(s, a).parties[i], Act(s, a).logs[i])
  {
    hide FlagsFollow, Handle, Logged, SideInv, DirectionInv;
    if a.side == i {
      match a
      case Local(_, e) =>
        if !e.IsReceived? && !e.ReplyReceived? {
          HandleKeepsFlags(s.parties[i], s.logs[i], e);
        }
      case Deliver(_) =>
        if s.channels[i] != [] {
          match s.channels[i][0]
          case Is(data) => HandleKeepsFlags(s.parties[i], s.logs[i], IsReceived(data));
          case Reply(data) => HandleKeepsFlags(s.parties[i], s.logs[i], ReplyReceived(data));
          case KeyIdOffer(_) =>
        }
    }
  }

  lemma {:induction false} ActedKeepsFlags(s: System, acts: seq<Action>, i: nat)
    requires Inv(s) && i < 2 && FlagsFollow(s.parties[i], s.logs[i])
    ensures FlagsFollow(Acted(s, acts).parties[i], Acted(s, acts).logs[i])
    decreases acts
  {
    hide FlagsFollow, SideInv, DirectionInv, Act;
    if acts != [] {
      ActKeepsInv(s, acts[0]);
      ActKeepsFlags(s, acts[0], i);
      ActedKeepsFlags(Act(s, acts[0]), acts[1..], i);
    }
  }

  lemma FlagsOfBoth(i: nat)
    requires i < 2
    ensures FlagsFollow(Both().parties[i], Both().logs[i])
  {
  }

  /** All three flags are cleared. */
  lemma AllDone(p: Party, log: Log, out: seq<seq<Octet>>, back: nat, peer: Party)
    requires FlagsFollow(p, log) && DirectionInv(p, log, out, back, peer)
    requires log.sent != [] && log.acked && log.keyIdTaken
    ensures p.encState == SUCCESS
  {
    SuccessFlags(p.encState);
  }

  /** Between two sides that run this code, in any order of calls and deliveries: each sends at most one
      vector, at most one is outstanding, and a side's encrypting state is SUCCESS if and only if its vector has
      been sent and acknowledged and key id 0 has been accepted; and then it has a key, and the other side's
      decrypting stream has the same vector and stands at the same place. */
  lemma VectorsAgree(acts: seq<Action>, i: nat)
    requires i < 2
    ensures var s := Acted(Both(), acts);
            && |s.logs[i].sent| <= 1
            && |Vectors(s.channels[1 - i])| + Replies(s.channels[i]) <= 1
            && (s.parties[i].encState == SUCCESS <==>
                  s.logs[i].sent != [] && s.logs[i].acked && s.logs[i].keyIdTaken)
            && (s.parties[i].encState == SUCCESS ==>
                  && s.parties[i].validKey && s.logs[i].keyIdTaken && s.logs[i].acked
                  && |Vectors(s.channels[1 - i])| + Replies(s.channels[i]) == 0
                  && s.logs[i].sent == [s.parties[i].enc.iv]
                  && s.parties[1 - i].dec.iv == s.parties[i].enc.iv
                  && s.parties[1 - i].dec.output == s.parties[i].enc.output == s.parties[i].enc.iv
                  && s.parties[1 - i].dec.index == s.parties[i].enc.index == 8)
  {
    hide SideInv, DirectionInv, FlagsFollow, Acted, Inv, Handle, Both, Vectors, Replies;
    BothInv();
    ActedKeepsInv(Both(), acts);
    var s := Acted(Both(), acts);
    InvBoth(s, i);
    SideStates(s.parties[i], s.logs[i]);
    Outstanding(s.parties[i], s.logs[i], Vectors(s.channels[1 - i]), Replies(s.channels[i]), s.parties[1 - i]);
    FlagsOfBoth(i);
    ActedKeepsFlags(Both(), acts, i);
    if s.logs[i].sent != [] && s.logs[i].acked && s.logs[i].keyIdTaken {
      AllDone(s.parties[i], s.logs[i], Vectors(s.channels[1 - i]), Replies(s.channels[i]), s.parties[1 - i]);
    }
    if s.parties[i].encState == SUCCESS {
      SuccessfulSide(s.parties[i], s.logs[i]);
      DecOutput(s.parties[1 - i], s.logs[1 - i]);
    }
  }

  lemma BothInv()
    ensures Inv(Both())
  {
    assert Shaped(Both());
  }

  lemma Outstanding(p: Party, log: Log, out: seq<seq<Octet>>, back: nat, peer: Party)
    requires DirectionInv(p, log, out, back, peer)
    ensures |log.sent| <= 1 && |out| + back <= 1
    ensures log.acked && log.sent != [] ==>
              |out| + back == 0 && log.sent == [Last(log.sent)] && peer.dec.iv == Last(log.sent) && peer.dec.index == 8
  {
  }

  lemma SuccessfulSide(p: Party, log: Log)
    requires SideInv(p, log) && p.encState == SUCCESS
    ensures p.validKey && log.keyIdTaken && log.acked && log.sent != []
    ensures p.enc.iv == Last(log.sent) && p.enc.output == p.enc.iv && p.enc.index == 8
  {
    SuccessFlags(p.encState);
  }

  lemma DecOutput(p: Party, log: Log)
    requires SideInv(p, log)
    ensures p.dec.output == p.dec.iv
  {
  }

  /** And then what the one encrypts with cipher feedback under a key, the other decrypts under the same key. */
  lemma AgreementDecrypts(acts: seq<Action>, i: nat, des: Block -> Block, feed: Block, feed': Block, p: seq<Octet>)
    requires i < 2 && Acted(Both(), acts).parties[i].encState == SUCCESS
    ensures var s := Acted(Both(), acts);
            var from := Feedback(s.parties[i].enc.output, feed, s.parties[i].enc.index);
            var to := Feedback(s.parties[1 - i].dec.output, feed', s.parties[1 - i].dec.index);
            && InRange(from) && InRange(to)
            && CfbEncrypt(des, from, p).1 == CfbBlocks(des, s.parties[i].enc.iv, p)
            && CfbDecrypt(des, to, CfbEncrypt(des, from, p).1).1 == p
  {
    VectorsAgree(acts, i);
    var s := Acted(Both(), acts);
    var from := Feedback(s.parties[i].enc.output, feed, 8);
    var to := Feedback(s.parties[1 - i].dec.output, feed', 8);
    CfbFollowsDiagram(des, from, p);
    CfbFollowsDiagram(des, to, p);
    CfbInverse(des, to, p);
  }

  /** Nor is SUCCESS out of reach: a key and a start, in either order, the vector there, the answer back, and
      key id 0. */
  lemma SuccessIsReached(key: Block, iv: Block, startFirst: bool)
    ensures var begin :=
              if startFirst then [Local(0, StartCalled(Encrypt, None)), Local(0, SessionKey(Some(key), Some(iv)))]
              else [Local(0, SessionKey(Some(key), None)), Local(0, StartCalled(Encrypt, Some(iv)))];
            var acts := begin + [Deliver(1), Deliver(0), Local(0, KeyIdCalled(Encrypt, [0]))];
            Acted(Both(), acts).parties[0].encState == SUCCESS
  {
    hide Act;
    var a1 := Local(0, if startFirst then StartCalled(Encrypt, None) else SessionKey(Some(key), None));
    var a2 := Local(0, if startFirst then SessionKey(Some(key), Some(iv)) else StartCalled(Encrypt, Some(iv)));
    var a3, a4, a5 := Deliver(1), Deliver(0), Local(0, KeyIdCalled(Encrypt, [0]));
    var s2, s4 := Act(Act(Both(), a1), a2), Act(Act(Act(Act(Both(), a1), a2), a3), a4);
    if startFirst {
      VectorAfterKey(key, iv);
    } else {
      VectorOnItsWay(key, iv);
    }
    VectorAnswered(s2, iv);
    KeyIdTakenUp(s4);
    var acts := [a1, a2, a3, a4, a5];
    assert acts == [a1, a2] + [a3, a4, a5];
    assert acts[1..] == [a2, a3, a4, a5] && [a2, a3, a4, a5][1..] == [a3, a4, a5];
    assert [a3, a4, a5][1..] == [a4, a5] && [a4, a5][1..] == [a5];
    assert Acted(s4, [a5]) == Act(s4, a5);
    assert Acted(s2, [a3, a4, a5]) == Acted(Act(s2, a3), [a4, a5]) == Acted(s4, [a5]);
    assert Acted(Both(), acts) == Acted(Act(Both(), a1), [a2, a3, a4, a5]) == Acted(s2, [a3, a4, a5]);
  }

  lemma VectorAfterKey(key: Block, iv: Block)
    ensures var s := Act(Act(Both(), Local(0, StartCalled(Encrypt, None))), Local(0, SessionKey(Some(key), Some(iv))));
            && s.parties[0].encState == NO_RECV_IV | NO_KEYID
            && s.channels[0] == [] && s.channels[1] == [Is([FB64_IV] + iv)]
  {
  }

  lemma VectorOnItsWay(key: Block, iv: Block)
    ensures var s := Act(Act(Both(), Local(0, SessionKey(Some(key), None))), Local(0, StartCalled(Encrypt, Some(iv))));
            && s.parties[0].encState == NO_RECV_IV | NO_KEYID
            && s.channels[0] == [] && s.channels[1] == [Is([FB64_IV] + iv)]
  {
  }

  lemma VectorAnswered(s: System, iv: Block)
    requires Shaped(s) && s.parties[0].encState == NO_RECV_IV | NO_KEYID
    requires s.channels[0] == [] && s.channels[1] == [Is([FB64_IV] + iv)]
    ensures var s' := Act(Act(s, Deliver(1)), Deliver(0));
            s'.parties[0].encState == NO_KEYID
  {
    var s1 := Act(s, Deliver(1));
    assert s1.channels[0] == [] + [Reply([FB64_IV_OK])] && s1.parties[0] == s.parties[0];
  }

  lemma KeyIdTakenUp(s: System)
    requires Shaped(s) && s.parties[0].encState == NO_KEYID
    ensures Act(s, Local(0, KeyIdCalled(Encrypt, [0]))).parties[0].encState == SUCCESS
  {
  }
}
