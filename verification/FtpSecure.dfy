/** The protected data channel of gssftp/ftp/secure.c: octets are queued, wrapped by the security mechanism
    in blocks, and sent as length-prefixed tokens; an empty block ends a transfer. */
module FtpSecure {
  import opened Wrappers
  import opened Bytes

  /** The security mechanism with the negotiated buffer size.  The number passed along is the position of
      the message in its direction, so that no two wraps need look alike. */
  datatype Mechanism = Mechanism(wrap: (nat, seq<byte>) -> seq<byte>, unwrap: (nat, seq<byte>) -> Option<seq<byte>>,
                                 limit: nat, maxbuf: nat)

  /** What GSSAPI promises: anything up to the wrap size limit becomes a token that fits the buffer and
      unwraps to itself, and no token holds more than its own length. */
  ghost predicate Lawful(m: Mechanism) {
    && 0 < m.limit && m.maxbuf < 0x8000_0000
    && (forall n: nat, p: seq<byte> :: |p| <= m.limit ==>
         |m.wrap(n, p)| <= m.maxbuf && m.unwrap(n, m.wrap(n, p)) == Some(p))
    && (forall n: nat, t: seq<byte> :: m.unwrap(n, t).Some? ==> |m.unwrap(n, t).value| <= |t|)
  }

  lemma LimitFits(m: Mechanism)
    requires Lawful(m)
    ensures 0 < m.limit <= m.maxbuf
  {
    var p: seq<byte> := seq(m.limit, i => 0);
    assert |m.wrap(0, p)| <= m.maxbuf && m.unwrap(0, m.wrap(0, p)) == Some(p);
  }

  lemma TokenHoldsNoMore(m: Mechanism, n: nat, t: seq<byte>)
    requires Lawful(m)
    ensures m.unwrap(n, t).Some? ==> |m.unwrap(n, t).value| <= |t|
  {
  }

  // ---------- what the sender puts on the wire ----------

  /** The full blocks that leave when `s` is queued, and what stays behind. */
  function Full(limit: nat, s: seq<byte>): (blocks: seq<seq<byte>>)
    requires limit > 0
    ensures forall i :: 0 <= i < |blocks| ==> |blocks[i]| == limit
  {
    if |s| < limit then [] else [s[..limit]] + Full(limit, s[limit..])
  }

  function Tail(limit: nat, s: seq<byte>): (rest: seq<byte>)
    requires limit > 0
    ensures |rest| < limit
  {
    if |s| < limit then s else Tail(limit, s[limit..])
  }

  /** What a flush adds: the block left over, if any, and the empty one. */
  function Closing(queue: seq<byte>): seq<seq<byte>> {
    (if queue == [] then [] else [queue]) + [[]]
  }

  function Frame(m: Mechanism, n: nat, p: seq<byte>): seq<byte>
    requires Lawful(m) && |p| <= m.limit
  {
    BigEndian(|m.wrap(n, p)|) + m.wrap(n, p)
  }

  predicate Small(m: Mechanism, blocks: seq<seq<byte>>) {
    forall i :: 0 <= i < |blocks| ==> |blocks[i]| <= m.limit
  }

  function Frames(m: Mechanism, n: nat, blocks: seq<seq<byte>>): seq<byte>
    requires Lawful(m) && Small(m, blocks)
    decreases blocks
  {
    if blocks == [] then [] else Frame(m, n, blocks[0]) + Frames(m, n + 1, blocks[1..])
  }

  lemma {:induction false} FramesConcat(m: Mechanism, n: nat, a: seq<seq<byte>>, b: seq<seq<byte>>)
    requires Lawful(m) && Small(m, a) && Small(m, b)
    ensures Small(m, a + b)
    ensures Frames(m, n, a + b) == Frames(m, n, a) + Frames(m, n + |a|, b)
    decreases a
  {
    hide Lawful, Frame;
    if a == [] {
      assert a + b == b;
    } else {
      assert (a + b)[1..] == a[1..] + b;
      FramesConcat(m, n + 1, a[1..], b);
    }
  }

  /** Queueing in two goes is queueing at once. */
  lemma {:induction false} QueueInParts(limit: nat, s: seq<byte>, t: seq<byte>)
    requires limit > 0
    ensures Full(limit, s + t) == Full(limit, s) + Full(limit, Tail(limit, s) + t)
    ensures Tail(limit, s + t) == Tail(limit, Tail(limit, s) + t)
    decreases s
  {
    if |s| >= limit {
      assert (s + t)[..limit] == s[..limit] && (s + t)[limit..] == s[limit..] + t;
      QueueInParts(limit, s[limit..], t);
    }
  }

  /** The blocks hold exactly what was queued, in order. */
  lemma {:induction false} NothingLost(limit: nat, s: seq<byte>)
    requires limit > 0
    ensures Flat(Full(limit, s)) + Tail(limit, s) == s
    decreases s
  {
    if |s| >= limit {
      NothingLost(limit, s[limit..]);
      var all := Full(limit, s);
      assert all[1..] == Full(limit, s[limit..]);
      assert s[..limit] + s[limit..] == s;
    }
  }

  lemma FirstBlock(m: Mechanism, n: nat, s: seq<byte>)
    requires Lawful(m) && |s| <= m.limit
    ensures |s| < m.limit ==> Full(m.limit, s) == [] && Tail(m.limit, s) == s
    ensures |s| == m.limit ==> Full(m.limit, s) == [s] && Tail(m.limit, s) == []
    ensures Frames(m, n, Full(m.limit, s)) == if |s| < m.limit then [] else Frame(m, n, s)
  {
    hide Frame;
    if |s| == m.limit {
      assert s[..m.limit] == s && s[m.limit..] == [];
      assert Full(m.limit, s) == [s];
    }
  }

  lemma ClosingFrames(m: Mechanism, n: nat, queue: seq<byte>)
    requires Lawful(m) && |queue| <= m.limit
    ensures Small(m, Closing(queue)) && |Closing(queue)| == if queue == [] then 1 else 2
    ensures Frames(m, n, Closing(queue)) ==
      if queue == [] then Frame(m, n, []) else Frame(m, n, queue) + Frame(m, n + 1, [])
  {
    hide Frame, Lawful;
    var last: seq<seq<byte>> := [[]];
    assert last[1..] == [];
    assert Frames(m, n, last) == Frame(m, n, []);
    if queue != [] {
      assert ([queue] + last)[1..] == last;
      assert Frames(m, n + 1, last) == Frame(m, n + 1, []);
    }
  }

  /** The sending half: what is queued, how many blocks have been wrapped, and what has been written. */
  datatype Outbox = Outbox(queue: seq<byte>, sealed: nat, wire: seq<byte>)

  ghost function Queued(m: Mechanism, o: Outbox, data: seq<byte>): Outbox
    requires Lawful(m)
  {
    var s := o.queue + data;
    Outbox(Tail(m.limit, s), o.sealed + |Full(m.limit, s)|, o.wire + Frames(m, o.sealed, Full(m.limit, s)))
  }

  ghost function Flushed(m: Mechanism, o: Outbox): Outbox
    requires Lawful(m) && |o.queue| <= m.limit
  {
    var blocks := Closing(o.queue);
    Outbox([], o.sealed + |blocks|, o.wire + Frames(m, o.sealed, blocks))
  }

  /** The queue and the wire after one block. */
  ghost function Wrapped(m: Mechanism, o: Outbox, p: seq<byte>, queue: seq<byte>): Outbox
    requires Lawful(m) && |p| <= m.limit
  {
    Outbox(queue, o.sealed + 1, o.wire + Frame(m, o.sealed, p))
  }

  lemma QueuedByOne(m: Mechanism, o: Outbox, b: byte)
    requires Lawful(m) && |o.queue| < m.limit
    ensures var s := o.queue + [b];
      Queued(m, o, [b]) == if |s| < m.limit then o.(queue := s) else Wrapped(m, o, s, [])
  {
    hide Lawful, Frame, Frames, Full, Tail;
    FirstBlock(m, o.sealed, o.queue + [b]);
    assert o.wire + [] == o.wire;
  }

  lemma QueuedInTurn(m: Mechanism, o: Outbox, a: seq<byte>, b: seq<byte>)
    requires Lawful(m)
    ensures Queued(m, Queued(m, o, a), b) == Queued(m, o, a + b)
  {
    hide Lawful, Frame, Frames, Full, Tail;
    LimitFits(m);
    var s := o.queue + a;
    QueueInParts(m.limit, s, b);
    FramesConcat(m, o.sealed, Full(m.limit, s), Full(m.limit, Tail(m.limit, s) + b));
    assert o.queue + (a + b) == s + b;
    var f := Frames(m, o.sealed, Full(m.limit, s));
    var g := Frames(m, o.sealed + |Full(m.limit, s)|, Full(m.limit, Tail(m.limit, s) + b));
    assert o.wire + f + g == o.wire + (f + g);
  }

  lemma QueuedNothing(m: Mechanism, o: Outbox)
    requires Lawful(m) && |o.queue| < m.limit
    ensures Queued(m, o, []) == o
  {
    assert o.queue + [] == o.queue && o.wire + [] == o.wire;
  }

  lemma FlushedInTwo(m: Mechanism, o: Outbox)
    requires Lawful(m) && |o.queue| <= m.limit
    ensures Flushed(m, o) == Wrapped(m, if o.queue == [] then o else Wrapped(m, o, o.queue, []), [], [])
  {
    hide Lawful, Frame, Frames, Closing;
    ClosingFrames(m, o.sealed, o.queue);
    if o.queue != [] {
      var f, g := Frame(m, o.sealed, o.queue), Frame(m, o.sealed + 1, []);
      assert o.wire + f + g == o.wire + (f + g);
    }
  }

  // ---------- what the receiver makes of it ----------

  datatype Got = Byte(b: byte) | End | Bad

  /** Decrypted octets not yet handed out, the number of the next token, and what is still to be read. */
  datatype Inbox = Inbox(unread: seq<byte>, n: nat, input: seq<byte>)

  /** Reading one block: false if the input ends inside it, or it is longer than the buffer, or it does
      not unwrap. */
  function Fetch(m: Mechanism, s: Inbox): (bool, Inbox) {
    if |s.input| < 4 then (false, s.(input := []))
    else
      var length := FromBigEndian(s.input[..4]);
      if length > m.maxbuf then (false, s.(input := s.input[4..]))
      else if |s.input| < 4 + length then (false, s.(input := []))
      else
        var s' := Inbox([], s.n + 1, s.input[4 + length..]);
        match m.unwrap(s.n, s.input[4..4 + length])
        case None => (false, s')
        case Some(p) => (true, s'.(unread := p))
  }

  /** One octet; a block without any is the end of the transfer. */
  function Next(m: Mechanism, s: Inbox): (Got, Inbox) {
    var (ok, s') := if s.unread == [] then Fetch(m, s) else (true, s);
    if !ok then (Bad, s')
    else if s'.unread == [] then (End, s')
    else (Byte(s'.unread[0]), s'.(unread := s'.unread[1..]))
  }

  datatype Stop = Filled | AtEnd | Broken

  function Gather(m: Mechanism, s: Inbox, nbyte: nat): (seq<byte>, Stop, Inbox)
    decreases nbyte
  {
    if nbyte == 0 then ([], Filled, s) else
    match Next(m, s)
    case (Bad, s') => ([], Broken, s')
    case (End, s') => ([], AtEnd, s')
    case (Byte(b), s') => var (bytes, stop, s'') := Gather(m, s', nbyte - 1); ([b] + bytes, stop, s'')
  }

  function Prepend(bytes: seq<byte>, rest: (seq<byte>, Stop, Inbox)): (seq<byte>, Stop, Inbox) {
    (bytes + rest.0, rest.1, rest.2)
  }

  lemma GatherOne(m: Mechanism, bytes: seq<byte>, s: Inbox, nbyte: nat)
    requires nbyte > 0
    ensures Prepend(bytes, Gather(m, s, nbyte)) == match Next(m, s)
      case (Bad, s') => (bytes, Broken, s')
      case (End, s') => (bytes, AtEnd, s')
      case (Byte(b), s') => Prepend(bytes + [b], Gather(m, s', nbyte - 1))
  {
    hide Next;
    assert bytes + [] == bytes;
    match Next(m, s)
    case (Bad, s') =>
    case (End, s') =>
    case (Byte(b), s') =>
      var rest := Gather(m, s', nbyte - 1);
      assert bytes + ([b] + rest.0) == bytes + [b] + rest.0;
  }

  lemma GatherNone(m: Mechanism, bytes: seq<byte>, s: Inbox)
    ensures Prepend(bytes, Gather(m, s, 0)) == (bytes, Filled, s)
  {
    assert bytes + [] == bytes;
  }

  lemma PrependNothing(rest: (seq<byte>, Stop, Inbox))
    ensures Prepend([], rest) == rest
  {
    assert [] + rest.0 == rest.0;
  }

  /** `ended`: the last read ran into the end of the transfer after delivering something. */
  datatype Reader = Reader(inbox: Inbox, ended: bool)

  datatype Outcome = Data(bytes: seq<byte>) | Failed

  function Concluded(all: (seq<byte>, Stop, Inbox)): (Outcome, Reader) {
    match all
    case (bytes, Broken, s') => (Failed, Reader(s', false))
    case (bytes, AtEnd, s') => (Data(bytes), Reader(s', bytes != []))
    case (bytes, Filled, s') => (Data(bytes), Reader(s', false))
  }

  function ReadSpec(m: Mechanism, s: Reader, nbyte: nat): (Outcome, Reader) {
    if s.ended then (Data([]), s.(ended := false)) else
    Concluded(Gather(m, s.inbox, nbyte))
  }

  // ---------- the functions themselves ----------

  /** Where the next octet is queued. */
  function NextPlace(at: nat, limit: nat): nat { if at + 1 == limit then 0 else at + 1 }

  /** The cleartext buffer after octets have been queued from position `at` on, again from the front each
      time the limit is reached. */
  function Laid(buffer: seq<byte>, at: nat, limit: nat, data: seq<byte>): (r: seq<byte>)
    requires at < limit <= |buffer|
    ensures |r| == |buffer|
    decreases data
  {
    if data == [] then buffer else Laid(buffer[at := data[0]], NextPlace(at, limit), limit, data[1..])
  }

  const ERR := -2

  /** `looping_write`: each single write takes at least one octet of what is left. */
  method LoopingWrite(wire: seq<byte>, buf: seq<byte>, accepts: nat -> nat) returns (now: seq<byte>)
    ensures now == wire + buf
  {
    now := wire;
    var wrlen, done, k := |buf|, 0, 0;
    while wrlen > 0
      invariant 0 <= wrlen && 0 <= done && done + wrlen == |buf| && 0 <= k
      invariant now == wire + buf[..done]
    {
      var cc := if 1 <= accepts(k) then accepts(k) else 1;
      if cc > wrlen {
        cc := wrlen;
      }
      assert buf[..done + cc] == buf[..done] + buf[done..done + cc];
      now, done, wrlen, k := now + buf[done..done + cc], done + cc, wrlen - cc, k + 1;
    }
  }

  /** One end of a protected session: both directions share the cleartext buffer. */
  class Secure {
    const m: Mechanism
    /** How much of what is asked for the k-th system call on behalf of the n-th block moves. */
    const moves: (nat, nat) -> nat
    const ucbuf: array<byte>
    var nout: nat
    var smaxbuf: nat
    var smaxqueue: nat
    var nin: nat
    var bufp: nat
    var c: int
    // the security context, and the two byte streams of the connection
    var sealed: nat
    var unsealed: nat
    var wire: seq<byte>
    var input: seq<byte>

    ghost predicate Valid()
      reads this, ucbuf
    {
      && Lawful(m) && ucbuf.Length == m.maxbuf
      && ((smaxbuf == m.maxbuf && smaxqueue == m.limit) || (smaxbuf == smaxqueue == nout == 0))
      && nout < m.limit <= m.maxbuf < 0x8000_0000
      && nin <= bufp <= ucbuf.Length
    }

    ghost function Out(): Outbox
      reads this, ucbuf
      requires Valid()
    {
      Outbox(ucbuf[..nout], sealed, wire)
    }

    ghost function State(): Reader
      reads this, ucbuf
      requires Valid()
    {
      Reader(Inbox(ucbuf[bufp - nin..bufp], unsealed, input), c == EOF)
    }

    constructor (m: Mechanism, moves: (nat, nat) -> nat)
      requires Lawful(m)
      ensures Valid() && fresh(ucbuf) && this.m == m && this.moves == moves
      ensures Out() == Outbox([], 0, []) && State() == Reader(Inbox([], 0, []), false)
    {
      LimitFits(m);
      this.m, this.moves := m, moves;
      ucbuf := new byte[m.maxbuf];
      nout, smaxbuf, smaxqueue := 0, 0, 0;
      nin, bufp, c := 0, 0, 0;
      sealed, unsealed, wire, input := 0, 0, [], [];
    }

    /** `secure_putbuf` */
    method PutBuf(p: seq<byte>)
      requires Lawful(m) && |p| <= m.limit
      modifies this`sealed, this`wire
      ensures wire == old(wire) + Frame(m, old(sealed), p) && sealed == old(sealed) + 1
    {
      var outbuf := m.wrap(sealed, p);
      var n := sealed;
      wire := LoopingWrite(wire, BigEndian(|outbuf|), k => moves(2 * n, k));
      wire := LoopingWrite(wire, outbuf, k => moves(2 * n + 1, k));
      sealed := sealed + 1;
    }

    /** `secure_determine_constants` */
    method DetermineConstants()
      modifies this`smaxbuf, this`smaxqueue
      ensures smaxbuf == m.maxbuf && smaxqueue == m.limit
    {
      smaxbuf, smaxqueue := m.maxbuf, m.maxbuf;
      smaxqueue := m.limit;
    }

    method Lay(b: byte)
      requires nout < ucbuf.Length
      modifies this`nout, ucbuf
      ensures nout == old(nout) + 1 && ucbuf[..] == old(ucbuf[..])[old(nout) := b]
      ensures ucbuf[..nout] == old(ucbuf[..nout]) + [b]
    {
      ucbuf[nout] := b;
      nout := nout + 1;
    }

    /** `secure_putbyte`; the octet goes into the buffer in which a received block may be half read. */
    method PutByte(b: byte) returns (r: int)
      requires Valid()
      modifies this`nout, this`smaxbuf, this`smaxqueue, this`sealed, this`wire, ucbuf
      ensures Valid() && r == b && Out() == Queued(m, old(Out()), [b])
      ensures ucbuf[..] == old(ucbuf[..])[old(nout) := b] && nout == NextPlace(old(nout), m.limit)
      ensures nin == 0 ==> State() == old(State())
    {
      hide Lawful, Queued, Frame;
      QueuedByOne(m, Out(), b);
      if smaxbuf == 0 || smaxqueue == 0 || smaxbuf != m.maxbuf {
        DetermineConstants();
      }
      Lay(b);
      if nout == smaxqueue {
        nout := 0;
        PutBuf(ucbuf[..smaxqueue]);
      }
      r := b;
    }

    /** `secure_write` */
    method Write(buf: seq<byte>) returns (r: int)
      requires Valid()
      modifies this`nout, this`smaxbuf, this`smaxqueue, this`sealed, this`wire, ucbuf
      ensures Valid() && r == |buf| && Out() == Queued(m, old(Out()), buf)
      ensures ucbuf[..] == Laid(old(ucbuf[..]), old(nout), m.limit, buf)
      ensures nin == 0 ==> State() == old(State())
    {
      hide Lawful, Queued;
      var i, nbyte := 0, |buf|;
      QueuedNothing(m, Out());
      while nbyte > 0
        invariant 0 <= i && 0 <= nbyte && i + nbyte == |buf|
        invariant Valid() && (nin == 0 ==> State() == old(State()))
        invariant Out() == Queued(m, old(Out()), buf[..i])
        invariant Laid(ucbuf[..], nout, m.limit, buf[i..]) == Laid(old(ucbuf[..]), old(nout), m.limit, buf)
      {
        QueuedInTurn(m, old(Out()), buf[..i], [buf[i]]);
        assert buf[..i + 1] == buf[..i] + [buf[i]] && buf[i..][1..] == buf[i + 1..];
        var c := PutByte(buf[i]);
        if c < 0 {
          return c;
        }
        i, nbyte := i + 1, nbyte - 1;
      }
      assert buf[..i] == buf;
      r := i;
    }

    /** `secure_flush` */
    method Flush()
      requires Valid()
      modifies this`nout, this`sealed, this`wire
      ensures Valid() && State() == old(State()) && Out() == Flushed(m, old(Out()))
    {
      hide Lawful, Frame, Flushed;
      FlushedInTwo(m, Out());
      if nout > 0 {
        PutBuf(ucbuf[..nout]);
      }
      nout := 0;
      PutBuf([]);
    }

    /** The part of `secure_getbyte` that reads and unwraps the next block, into the buffer the sender
        queues in. */
    method Refill() returns (ok: bool)
      requires Valid() && nin == 0
      modifies this`nin, this`bufp, this`unsealed, this`input, ucbuf
      ensures Valid() && ok == Fetch(m, old(State()).inbox).0
      ensures State().inbox == Fetch(m, old(State()).inbox).1
    {
      hide Lawful, Fetch;
      assert ucbuf[bufp - nin..bufp] == [];
      var n := unsealed;
      var token := TakeToken();
      if token == None {
        return false;
      }
      TokenHoldsNoMore(m, n, token.value);
      match m.unwrap(n, token.value)
      case None => return false;
      case Some(p) =>
        Store(p);
        return true;
    }

    /** The length and the token of the next block. */
    method TakeToken() returns (token: Option<seq<byte>>)
      requires Valid()
      modifies this`unsealed, this`input
      ensures Valid()
      ensures var fetched := Fetch(m, Inbox([], old(unsealed), old(input)));
              match token
              case None => fetched == (false, Inbox([], unsealed, input))
              case Some(t) =>
                && unsealed == old(unsealed) + 1 && |t| <= m.maxbuf
                && fetched == match m.unwrap(old(unsealed), t)
                              case None => (false, Inbox([], unsealed, input))
                              case Some(p) => (true, Inbox(p, unsealed, input))
    {
      hide Lawful;
      var n := unsealed;
      var header, rest := FullRead(input, 4, k => moves(2 * n, k));
      input := rest;
      if |header| != 4 {
        return None;
      }
      var length := FromBigEndian(header);
      if length > m.maxbuf {
        return None;
      }
      var t, rest' := FullRead(input, length, k => moves(2 * n + 1, k));
      input := rest';
      if |t| != length {
        return None;
      }
      unsealed := unsealed + 1;
      assert old(input)[4..][..length] == old(input)[4..4 + length];
      token := Some(t);
    }

    method Store(p: seq<byte>)
      requires |p| <= ucbuf.Length
      modifies this`nin, this`bufp, ucbuf
      ensures nin == bufp == |p| && ucbuf[..|p|] == p
    {
      forall i | 0 <= i < |p| {
        ucbuf[i] := p[i];
      }
      nin, bufp := |p|, |p|;
    }

    /** `secure_getbyte`; a new block goes into the buffer in which octets may be queued. */
    method GetByte() returns (r: int)
      requires Valid()
      modifies this`nin, this`bufp, this`unsealed, this`input, ucbuf
      ensures Valid() && (nout == 0 ==> Out() == old(Out()))
      ensures State().inbox == Next(m, old(State()).inbox).1
      ensures r == match Next(m, old(State()).inbox).0 case Byte(b) => b as int case End => EOF case Bad => ERR
    {
      hide Fetch, Lawful;
      if nin == 0 {
        var ok := Refill();
        if !ok {
          return ERR;
        }
      }
      if nin == 0 {
        return EOF;
      }
      r := ucbuf[bufp - nin];
      nin := nin - 1;
    }

    /** `secure_read` */
    method Read(nbyte: nat) returns (r: int, buf: seq<byte>)
      requires Valid()
      modifies this`nin, this`bufp, this`unsealed, this`input, this`c, ucbuf
      ensures Valid() && (nout == 0 ==> Out() == old(Out()))
      ensures var (out, s) := ReadSpec(m, old(State()), nbyte);
        State() == s && (match out case Data(bytes) => r == |bytes| && buf == bytes case Failed => r == ERR)
    {
      hide Lawful, Next, Gather, Prepend;
      buf := [];
      if c == EOF {
        c := 0;
        return 0, [];
      }
      ghost var all := Gather(m, State().inbox, nbyte);
      PrependNothing(all);
      var left := nbyte;
      while left > 0
        invariant 0 <= left && |buf| + left == nbyte && Valid() && c != EOF
        invariant nout == 0 ==> Out() == old(Out())
        invariant Prepend(buf, Gather(m, State().inbox, left)) == all
      {
        GatherOne(m, buf, State().inbox, left);
        c := GetByte();
        if c == ERR {
          assert all == (buf, Broken, State().inbox);
          return c, buf;
        }
        if c == EOF {
          assert all == (buf, AtEnd, State().inbox);
          if |buf| == 0 {
            c := 0;
          }
          return |buf|, buf;
        }
        buf, left := buf + [c], left - 1;
      }
      GatherNone(m, buf, State().inbox);
      r := |buf|;
    }
  }
}
