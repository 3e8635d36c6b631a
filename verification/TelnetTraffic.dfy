/** Encrypted text between two sides of telnet/libtelnet/enc_des.c while the negotiation goes on: cipher
    feedback in both directions over FIFO channels, under one key. */
module TelnetTraffic {
  import opened Wrappers
  import opened TelnetFeedback
  import opened TelnetFeedbackLaws
  import opened TelnetNegotiation
  import opened TelnetAgreement

  // ---------- negotiation and text together ----------

  /** The sending and the receiving stream of each side; `wires[i]` are the octets on their way to side `i`,
      `said[i]` the text that side `i` has encrypted and `heard[i]` the text that it has decrypted. */
  datatype Traffic = Traffic(sys: System, enc: seq<Feedback>, dec: seq<Feedback>,
                             wires: seq<seq<Octet>>, said: seq<seq<Octet>>, heard: seq<seq<Octet>>)

  /** A move of the negotiation, an octet encrypted, which is done only at SUCCESS, or the next octet decrypted. */
  datatype Move = Negotiate(a: Action) | Say(side: nat, x: Octet) | Hear(side: nat)

  predicate Usable(s: seq<Feedback>) { |s| == 2 && InRange(s[0]) && InRange(s[1]) }

  predicate Formed(t: Traffic) {
    && Shaped(t.sys) && Usable(t.enc) && Usable(t.dec)
    && |t.wires| == |t.said| == |t.heard| == 2
  }

  const UNUSED := Feedback(ZEROS, ZEROS, 0)

  function Quiet(): Traffic {
    Traffic(Both(), [UNUSED, UNUSED], [UNUSED, UNUSED], [[], []], [[], []], [[], []])
  }

  /** The event that an action comes to. */
  function EventOf(s: System, a: Action): Option<Event>
    requires Shaped(s)
  {
    if a.side >= 2 then None else
    match a
    case Local(_, e) => if e.IsReceived? || e.ReplyReceived? then None else Some(e)
    case Deliver(i) =>
      if s.channels[i] == [] then None else
      match s.channels[i][0]
      case Is(data) => Some(IsReceived(data))
      case Reply(data) => Some(ReplyReceived(data))
      case KeyIdOffer(_) => None
  }

  /** The events that start a stream anew from its vector. */
  predicate RestartsEnc(e: Event) {
    || (e.SessionKey? && e.key.Some?)
    || (e.ReplyReceived? && e.data != [] && (e.data[0] == FB64_IV_OK || e.data[0] == FB64_IV_BAD))
  }

  predicate RestartsDec(e: Event) {
    || (e.SessionKey? && e.key.Some?)
    || (e.IsReceived? && |e.data| == 9 && e.data[0] == FB64_IV)
  }

  function Restarted(f: Feedback, s: Stream): Feedback { f.(output := s.iv, index := 8) }

  function Moved(des: Block -> Block, t: Traffic, m: Move): (r: Traffic)
    requires Formed(t)
    ensures Formed(r)
  {
    match m
    case Negotiate(a) =>
      var s, e := Act(t.sys, a), EventOf(t.sys, a);
      if e == None then t.(sys := s) else
      var i := a.side;
      t.(sys := s,
         enc := if RestartsEnc(e.value) then t.enc[i := Restarted(t.enc[i], s.parties[i].enc)] else t.enc,
         dec := if RestartsDec(e.value) then t.dec[i := Restarted(t.dec[i], s.parties[i].dec)] else t.dec)
    case Say(i, x) =>
      if i >= 2 || t.sys.parties[i].encState != SUCCESS then t else
      var (f, y) := CfbEncryptOctet(des, t.enc[i], x);
      t.(enc := t.enc[i := f], wires := t.wires[1 - i := t.wires[1 - i] + [y]], said := t.said[i := t.said[i] + [x]])
    case Hear(i) =>
      if i >= 2 || t.wires[i] == [] then t else
      var (f, x) := CfbDecryptOctet(des, t.dec[i], t.wires[i][0]);
      t.(dec := t.dec[i := f], wires := t.wires[i := t.wires[i][1..]], heard := t.heard[i := t.heard[i] + [x]])
  }

  function Ran(des: Block -> Block, t: Traffic, ms: seq<Move>): (r: Traffic)
    requires Formed(t)
    ensures Formed(r)
    decreases ms
  {
    if ms == [] then t else Ran(des, Moved(des, t, ms[0]), ms[1..])
  }

  /** Nothing else writes the streams: the negotiation of TelnetNegotiation keeps, of output and index, what was
      last written there. */
  lemma OnlyRestarts(p: Party, e: Event)
    ensures var q := Handle(p, e).party;
            && q.enc == (if RestartsEnc(e) then q.enc.(output := q.enc.iv, index := 8) else p.enc)
            && q.dec == (if RestartsDec(e) then q.dec.(output := q.dec.iv, index := 8) else p.dec)
            && (e.SessionKey? ==> q.enc.iv == p.enc.iv && q.dec.iv == p.dec.iv)
  {
  }

  /** A session key is given to either side only while side `i` has not encrypted anything. */
  predicate Calm(des: Block -> Block, t: Traffic, ms: seq<Move>, i: nat)
    requires Formed(t) && i < 2
    decreases ms
  {
    ms == [] ||
    (&& (ms[0].Negotiate? && ms[0].a.Local? && ms[0].a.event.SessionKey? && ms[0].a.event.key.Some? ==> t.said[i] == [])
     && Calm(des, Moved(des, t, ms[0]), ms[1..], i))
  }

  // ---------- one direction ----------

  /** Equal as far as anything that follows can tell: at the end of a block the feed is made anew. */
  predicate Alike(f: Feedback, g: Feedback) {
    f.output == g.output && f.index == g.index && (f.index < 8 ==> f.feed == g.feed)
  }

  function FromIv(iv: Block): Feedback { Feedback(iv, ZEROS, 8) }

  /** The sender stands behind all of `said`, the receiver behind `heard`; the wire has the ciphertext between. */
  ghost predicate Follows(des: Block -> Block, iv: Block, enc: Feedback, dec: Feedback, wire: seq<Octet>,
                          said: seq<Octet>, heard: seq<Octet>)
  {
    && heard <= said
    && Alike(enc, CfbEncrypt(des, FromIv(iv), said).0)
    && Alike(dec, CfbEncrypt(des, FromIv(iv), heard).0)
    && wire == CfbEncrypt(des, FromIv(iv), said).1[|heard|..]
  }

  lemma AlikeOctets(des: Block -> Block, f: Feedback, g: Feedback, x: Octet)
    requires InRange(f) && Alike(f, g)
    ensures CfbEncryptOctet(des, f, x) == CfbEncryptOctet(des, g, x)
    ensures CfbDecryptOctet(des, f, x) == CfbDecryptOctet(des, g, x)
  {
  }

  lemma OctetInverse(des: Block -> Block, f: Feedback, x: Octet)
    requires InRange(f)
    ensures var (g, y) := CfbEncryptOctet(des, f, x);
            CfbDecryptOctet(des, f, y) == (g, x)
  {
    var r := CfbReady(des, f);
    XorCommutes(x, r.feed[r.index]);
  }

  lemma SayFollows(des: Block -> Block, iv: Block, enc: Feedback, dec: Feedback, wire: seq<Octet>, said: seq<Octet>,
                   heard: seq<Octet>, x: Octet)
    requires InRange(enc) && Follows(des, iv, enc, dec, wire, said, heard)
    ensures var (f, y) := CfbEncryptOctet(des, enc, x);
            Follows(des, iv, f, dec, wire + [y], said + [x], heard)
  {
    hide CfbEncrypt, CfbEncryptOctet;
    var (g, c) := CfbEncrypt(des, FromIv(iv), said);
    AlikeOctets(des, enc, g, x);
    CfbEncryptSnoc(des, FromIv(iv), said, x);
    var y := CfbEncryptOctet(des, enc, x).1;
    assert (c + [y])[|heard|..] == c[|heard|..] + [y];
  }

  /** The ciphertext octet at the place where the receiver stands. */
  lemma NextOctet(des: Block -> Block, b: Feedback, said: seq<Octet>, k: nat)
    requires InRange(b) && k < |said|
    ensures var g := CfbEncrypt(des, b, said[..k]).0;
            && CfbEncrypt(des, b, said).1[k] == CfbEncryptOctet(des, g, said[k]).1
            && CfbEncrypt(des, b, said[..k + 1]).0 == CfbEncryptOctet(des, g, said[k]).0
  {
    hide CfbEncrypt, CfbEncryptOctet;
    assert said[..k + 1] == said[..k] + [said[k]];
    assert said == said[..k + 1] + said[k + 1..];
    CfbEncryptSnoc(des, b, said[..k], said[k]);
    CfbEncryptConcat(des, b, said[..k + 1], said[k + 1..]);
  }

  lemma HearFollows(des: Block -> Block, iv: Block, enc: Feedback, dec: Feedback, wire: seq<Octet>, said: seq<Octet>,
                    heard: seq<Octet>)
    requires InRange(dec) && Follows(des, iv, enc, dec, wire, said, heard) && wire != []
    ensures var (f, x) := CfbDecryptOctet(des, dec, wire[0]);
            Follows(des, iv, enc, f, wire[1..], said, heard + [x])
  {
    hide CfbEncrypt, CfbEncryptOctet, CfbDecryptOctet;
    var b, k := FromIv(iv), |heard|;
    assert heard == said[..k];
    NextOctet(des, b, said, k);
    var g := CfbEncrypt(des, b, heard).0;
    AlikeOctets(des, dec, g, wire[0]);
    OctetInverse(des, g, said[k]);
    assert said[..k + 1] == heard + [said[k]];
  }

  // ---------- the invariant ----------

  /** Before the first octet the streams are as the negotiation left them; from then on they follow the text,
      and the vector they began from stays acknowledged. */
  ghost predicate Direction(des: Block -> Block, t: Traffic, i: nat)
    requires Formed(t) && i < 2
  {
    var j := 1 - i;
    var p, q, log := t.sys.parties[i], t.sys.parties[j], t.sys.logs[i];
    if t.said[i] == [] then
      && t.wires[j] == [] && t.heard[j] == []
      && t.enc[i].output == p.enc.output && t.enc[i].index == p.enc.index
      && t.dec[j].output == q.dec.output && t.dec[j].index == q.dec.index
    else
      && log.acked && log.sent == [p.enc.iv]
      && Follows(des, p.enc.iv, t.enc[i], t.dec[j], t.wires[j], t.said[i], t.heard[j])
  }

  /** When side `i` may encrypt, its first octet finds both streams at the start of the acknowledged vector. */
  lemma MayBegin(des: Block -> Block, t: Traffic, i: nat)
    requires Formed(t) && i < 2 && Inv(t.sys) && Direction(des, t, i) && t.sys.parties[i].encState == SUCCESS
    ensures var iv := t.sys.parties[i].enc.iv;
            && t.sys.logs[i].acked && t.sys.logs[i].sent == [iv]
            && Follows(des, iv, t.enc[i], t.dec[1 - i], t.wires[1 - i], t.said[i], t.heard[1 - i])
  {
    hide SideInv, DirectionInv, Inv, Vectors, Replies;
    var s, j := t.sys, 1 - i;
    InvBoth(s, i);
    SuccessfulSide(s.parties[i], s.logs[i]);
    DecOutput(s.parties[j], s.logs[j]);
    Outstanding(s.parties[i], s.logs[i], Vectors(s.channels[j]), Replies(s.channels[i]), s.parties[j]);
    CfbHead(des, FromIv(s.parties[i].enc.iv), []);
  }

  /** While the vector stays acknowledged no message that would start one of the two streams anew is on its way. */
  lemma NoRestart(s: System, a: Action, i: nat)
    requires Shaped(s) && Inv(s) && i < 2 && s.logs[i].acked && s.logs[i].sent != []
    requires EventOf(s, a).Some? && !(EventOf(s, a).value.SessionKey? && EventOf(s, a).value.key.Some?)
    ensures a.side == i ==> !RestartsEnc(EventOf(s, a).value)
    ensures a.side == 1 - i ==> !RestartsDec(EventOf(s, a).value)
  {
    hide SideInv, DirectionInv, Inv;
    var j := 1 - i;
    InvBoth(s, i);
    Outstanding(s.parties[i], s.logs[i], Vectors(s.channels[j]), Replies(s.channels[i]), s.parties[j]);
  }

  /** What a side does keeps the acknowledgement of a vector, since it sends no second one. */
  lemma StaysAcked(s: System, a: Action, i: nat)
    requires Shaped(s) && Inv(s) && i < 2 && s.logs[i].acked && s.logs[i].sent != []
    ensures Shaped(Act(s, a))
    ensures Act(s, a).logs[i].acked && Act(s, a).logs[i].sent == s.logs[i].sent
  {
    hide Inv, Handle;
    ActKeepsInv(s, a);
    AtMostOne(s, i);
    AtMostOne(Act(s, a), i);
  }

  lemma AtMostOne(s: System, i: nat)
    requires Inv(s) && i < 2
    ensures |s.logs[i].sent| <= 1
  {
    assert i == 0 || i == 1;
  }

  /** An action is one event at one side. */
  lemma ActIsEvent(s: System, a: Action, i: nat)
    requires Shaped(s) && i < 2
    ensures var e := EventOf(s, a);
            Act(s, a).parties[i] == if e.Some? && a.side == i then Handle(s.parties[i], e.value).party else s.parties[i]
  {
    hide Handle, Logged;
  }

  lemma NegotiateKeeps(des: Block -> Block, t: Traffic, a: Action, i: nat)
    requires Formed(t) && i < 2 && Inv(t.sys) && Direction(des, t, i)
    requires a.Local? && a.event.SessionKey? && a.event.key.Some? ==> t.said[i] == []
    ensures Direction(des, Moved(des, t, Negotiate(a)), i)
  {
    hide Inv, Act, Handle, Follows, RestartsEnc, RestartsDec, EventOf;
    var j, e := 1 - i, EventOf(t.sys, a);
    ActIsEvent(t.sys, a, i);
    ActIsEvent(t.sys, a, j);
    if e.Some? && a.side < 2 {
      OnlyRestarts(t.sys.parties[a.side], e.value);
    }
    if t.said[i] != [] {
      StaysAcked(t.sys, a, i);
      if e.Some? {
        if e.value.SessionKey? {
          KeysAreLocal(t.sys, a);
        }
        NoRestart(t.sys, a, i);
      }
    }
  }

  lemma KeysAreLocal(s: System, a: Action)
    requires Shaped(s) && EventOf(s, a).Some? && EventOf(s, a).value.SessionKey?
    ensures a.Local? && a.event == EventOf(s, a).value
  {
  }

  lemma MoveKeeps(des: Block -> Block, t: Traffic, m: Move, i: nat)
    requires Formed(t) && i < 2 && Inv(t.sys) && Direction(des, t, i) && Calm(des, t, [m], i)
    ensures Inv(Moved(des, t, m).sys) && Direction(des, Moved(des, t, m), i)
  {
    hide Inv, Act, Follows, CfbEncryptOctet, CfbDecryptOctet, EventOf;
    match m
    case Negotiate(a) =>
      ActKeepsInv(t.sys, a);
      NegotiateKeeps(des, t, a, i);
    case Say(k, x) =>
      if k == i && t.sys.parties[i].encState == SUCCESS {
        MayBegin(des, t, i);
        SayFollows(des, t.sys.parties[i].enc.iv, t.enc[i], t.dec[1 - i], t.wires[1 - i], t.said[i], t.heard[1 - i], x);
      }
    case Hear(k) =>
      if k == 1 - i && t.wires[k] != [] {
        HearFollows(des, t.sys.parties[i].enc.iv, t.enc[i], t.dec[k], t.wires[k], t.said[i], t.heard[k]);
      }
  }

  lemma {:induction false} RunKeeps(des: Block -> Block, t: Traffic, ms: seq<Move>, i: nat)
    requires Formed(t) && i < 2 && Inv(t.sys) && Direction(des, t, i) && Calm(des, t, ms, i)
    ensures Inv(Ran(des, t, ms).sys) && Direction(des, Ran(des, t, ms), i)
    decreases ms
  {
    hide Inv, Direction, Moved;
    if ms != [] {
      assert [ms[0]][1..] == [];
      MoveKeeps(des, t, ms[0], i);
      RunKeeps(des, Moved(des, t, ms[0]), ms[1..], i);
    }
  }

  /** Any order of negotiation, encryption and decryption: as long as no session key is given to either side
      behind the first octet, what is heard is the beginning of what was said, what is on the way is the rest of
      the block-chained ciphertext from the acknowledged vector, and the receiver's stream is the sender's as
      of the last octet heard. */
  lemma TrafficArrives(des: Block -> Block, ms: seq<Move>, i: nat)
    requires i < 2 && Calm(des, Quiet(), ms, i)
    ensures var t, j := Ran(des, Quiet(), ms), 1 - i;
            var iv := t.sys.parties[i].enc.iv;
            var cipher := CfbEncrypt(des, FromIv(iv), t.said[i]).1;
            && t.heard[j] <= t.said[i] && (t.heard[j] == t.said[i] <==> t.wires[j] == [])
            && (t.said[i] != [] ==>
                  && t.sys.logs[i].acked && t.sys.logs[i].sent == [iv]
                  && cipher == CfbBlocks(des, iv, t.said[i]) && t.wires[j] == cipher[|t.heard[j]|..]
                  && Alike(t.enc[i], CfbEncrypt(des, FromIv(iv), t.said[i]).0)
                  && Alike(t.dec[j], CfbEncrypt(des, FromIv(iv), t.heard[j]).0))
  {
    hide Inv, Ran, Calm, Both, CfbEncrypt, CfbBlocks;
    BothInv();
    QuietDirection(des, i);
    RunKeeps(des, Quiet(), ms, i);
    var t := Ran(des, Quiet(), ms);
    CfbFollowsDiagram(des, FromIv(t.sys.parties[i].enc.iv), t.said[i]);
  }

  lemma QuietDirection(des: Block -> Block, i: nat)
    requires i < 2
    ensures Direction(des, Quiet(), i)
  {
  }

  // ---------- a session key in between ----------

  lemma SayOne(des: Block -> Block, t: Traffic, i: nat, x: Octet, b: Feedback)
    requires Formed(t) && i < 2 && t.sys.parties[i].encState == SUCCESS && Alike(t.enc[i], b)
    ensures InRange(b)
    ensures var (f, y) := CfbEncryptOctet(des, b, x);
            Moved(des, t, Say(i, x)) ==
            t.(enc := t.enc[i := f], wires := t.wires[1 - i := t.wires[1 - i] + [y]],
               said := t.said[i := t.said[i] + [x]])
  {
    hide CfbEncryptOctet;
    AlikeOctets(des, t.enc[i], b, x);
  }

  lemma HearOne(des: Block -> Block, t: Traffic, i: nat, c: Octet, b: Feedback)
    requires Formed(t) && i < 2 && t.wires[i] == [c] && Alike(t.dec[i], b)
    ensures InRange(b)
    ensures var (f, x) := CfbDecryptOctet(des, b, c);
            Moved(des, t, Hear(i)) ==
            t.(dec := t.dec[i := f], wires := t.wires[i := []], heard := t.heard[i := t.heard[i] + [x]])
  {
    hide CfbDecryptOctet;
    AlikeOctets(des, t.dec[i], b, c);
    assert t.wires[i][1..] == [];
  }

  lemma KeyAgain(des: Block -> Block, t: Traffic, i: nat, key: Block, seed: Option<Block>)
    requires Formed(t) && i < 2 && t.sys.parties[i].encState == SUCCESS
    ensures var t' := Moved(des, t, Negotiate(Local(i, SessionKey(Some(key), seed))));
            && Alike(t'.enc[i], FromIv(t.sys.parties[i].enc.iv)) && t'.dec[1 - i] == t.dec[1 - i]
            && t'.wires == t.wires && t'.said == t.said && t'.heard == t.heard
            && t'.sys.parties[i].encState == SUCCESS
  {
  }

  /** One octet said and heard, when the two streams are at these places. */
  lemma OverTheWire(des: Block -> Block, t: Traffic, i: nat, x: Octet, b: Feedback, d: Feedback)
    requires Formed(t) && i < 2 && t.sys.parties[i].encState == SUCCESS && t.wires[1 - i] == []
    requires Alike(t.enc[i], b) && Alike(t.dec[1 - i], d)
    ensures InRange(b) && InRange(d)
    ensures var t' := Moved(des, Moved(des, t, Say(i, x)), Hear(1 - i));
            var y := CfbEncryptOctet(des, b, x).1;
            var (f, z) := CfbDecryptOctet(des, d, y);
            && t'.said[i] == t.said[i] + [x] && t'.heard[1 - i] == t.heard[1 - i] + [z]
            && t'.wires[1 - i] == [] && t'.dec[1 - i] == f && t'.sys == t.sys
  {
    hide Moved, CfbEncryptOctet, CfbDecryptOctet, Alike;
    SayOne(des, t, i, x, b);
    HearOne(des, Moved(des, t, Say(i, x)), 1 - i, CfbEncryptOctet(des, b, x).1, d);
  }

  function Xored(a: Octet, b: Octet): Octet { a ^ b }

  /** The octet `y` between two octets of a feed: one added by the sender, the other by the receiver. */
  function Shifted(a: Octet, y: Octet, b: Octet): Octet { Xored(Xored(a, y), b) }

  lemma XoredCancels(a: Octet, b: Octet)
    ensures Xored(Xored(a, b), b) == a && Xored(a, b) == Xored(b, a)
  {
    XorCommutes(a, b);
  }

  lemma ShiftedIsSame(a: Octet, y: Octet, b: Octet)
    ensures Shifted(a, y, b) == y <==> a == b
  {
    hide Xored;
    XoredCancels(a, y);
    XoredCancels(Xored(a, y), b);
    XoredCancels(b, y);
    XoredCancels(y, b);
  }

  lemma ShiftedOctet(des: Block -> Block, iv: Block, x: Octet, y: Octet)
    ensures var f := CfbEncryptOctet(des, FromIv(iv), x).0;
            CfbDecryptOctet(des, f, CfbEncryptOctet(des, FromIv(iv), y).1).1 == Shifted(des(iv)[0], y, des(iv)[1])
  {
  }

  lemma AlikeItself(f: Feedback)
    ensures Alike(f, f)
  {
  }

  lemma OneAfterAnother(x: Octet, y: Octet)
    ensures [] + [x] + [y] == [x, y]
  {
  }

  lemma KeyBetween(des: Block -> Block, t: Traffic, i: nat, x: Octet, y: Octet, key: Block, seed: Option<Block>)
    requires Formed(t) && i < 2 && t.sys.parties[i].encState == SUCCESS
    requires t.said[i] == [] && t.wires[1 - i] == [] && t.heard[1 - i] == []
    requires Alike(t.enc[i], FromIv(t.sys.parties[i].enc.iv)) && Alike(t.dec[1 - i], FromIv(t.sys.parties[i].enc.iv))
    ensures var feed := des(t.sys.parties[i].enc.iv);
            var z := Shifted(feed[0], y, feed[1]);
            var t1 := Moved(des, Moved(des, t, Say(i, x)), Hear(1 - i));
            var t2 := Moved(des, t1, Negotiate(Local(i, SessionKey(Some(key), seed))));
            var t3 := Moved(des, Moved(des, t2, Say(i, y)), Hear(1 - i));
            t3.said[i] == [x, y] && t3.heard[1 - i] == [x, z] && (z == y <==> feed[0] == feed[1])
  {
    hide Moved, CfbEncryptOctet, CfbDecryptOctet, Alike;
    var b := FromIv(t.sys.parties[i].enc.iv);
    OctetInverse(des, b, x);
    OverTheWire(des, t, i, x, b, b);
    var t1 := Moved(des, Moved(des, t, Say(i, x)), Hear(1 - i));
    KeyAgain(des, t1, i, key, seed);
    var t2 := Moved(des, t1, Negotiate(Local(i, SessionKey(Some(key), seed))));
    var f := CfbEncryptOctet(des, b, x).0;
    AlikeItself(f);
    OverTheWire(des, t2, i, y, b, f);
    ShiftedOctet(des, b.output, x, y);
    ShiftedIsSame(des(b.output)[0], y, des(b.output)[1]);
    OneAfterAnother(x, y);
    OneAfterAnother(x, CfbDecryptOctet(des, f, CfbEncryptOctet(des, b, y).1).1);
  }

  lemma Beginning(des: Block -> Block, ms: seq<Move>, i: nat)
    requires i < 2 && Calm(des, Quiet(), ms, i)
    requires Ran(des, Quiet(), ms).said[i] == [] && Ran(des, Quiet(), ms).sys.parties[i].encState == SUCCESS
    ensures var t := Ran(des, Quiet(), ms);
            var b := FromIv(t.sys.parties[i].enc.iv);
            && t.wires[1 - i] == [] && t.heard[1 - i] == []
            && Alike(t.enc[i], b) && Alike(t.dec[1 - i], b)
  {
    hide Ran, Calm, Inv, CfbEncrypt;
    BothInv();
    QuietDirection(des, i);
    RunKeeps(des, Quiet(), ms, i);
    MayBegin(des, Ran(des, Quiet(), ms), i);
    CfbHead(des, FromIv(Ran(des, Quiet(), ms).sys.parties[i].enc.iv), []);
  }

  /** And no longer: give the sender its session key once more behind the first octet, and the second is heard
      combined with two octets of the first feed, which is as it was said if and only if they happen to be equal. */
  lemma SessionBetween(des: Block -> Block, ms: seq<Move>, i: nat, x: Octet, y: Octet, key: Block, seed: Option<Block>)
    requires i < 2 && Calm(des, Quiet(), ms, i)
    requires Ran(des, Quiet(), ms).said[i] == [] && Ran(des, Quiet(), ms).sys.parties[i].encState == SUCCESS
    ensures var t := Ran(des, Quiet(), ms);
            var feed := des(t.sys.parties[i].enc.iv);
            var z := Shifted(feed[0], y, feed[1]);
            var t1 := Moved(des, Moved(des, t, Say(i, x)), Hear(1 - i));
            var t2 := Moved(des, t1, Negotiate(Local(i, SessionKey(Some(key), seed))));
            var t3 := Moved(des, Moved(des, t2, Say(i, y)), Hear(1 - i));
            t3.said[i] == [x, y] && t3.heard[1 - i] == [x, z] && (z == y <==> feed[0] == feed[1])
  {
    hide Ran, Calm, Moved, Alike, FromIv;
    Beginning(des, ms, i);
    KeyBetween(des, Ran(des, Quiet(), ms), i, x, y, key, seed);
  }
}
