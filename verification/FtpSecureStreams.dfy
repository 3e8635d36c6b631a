/** What one end of the protected data channel sends arrives at the other (gssftp/ftp/secure.c), however
    it was queued, cut into blocks and read. */
module FtpSecureStreams {
  import opened Bytes
  import opened FtpSecure
  import opened Wrappers

  // ---------- sending ----------

  /** One transfer as it is sent: each piece is one `secure_putc` or one `secure_write`, and
      `secure_flush` ends it.  `queue` is what waits in the buffer. */
  function Sent(limit: nat, queue: seq<byte>, pieces: seq<seq<byte>>): seq<seq<byte>>
    requires limit > 0
    decreases |pieces|
  {
    if pieces == [] then Closing(queue)
    else Full(limit, queue + pieces[0]) + Sent(limit, Tail(limit, queue + pieces[0]), pieces[1..])
  }

  /** Only the octets matter, not the calls that queued them. */
  lemma {:induction false} AnyMixSendsTheSame(limit: nat, queue: seq<byte>, pieces: seq<seq<byte>>)
    requires limit > 0 && |queue| < limit
    ensures Sent(limit, queue, pieces) == Sent(limit, queue, [Flat(pieces)])
    ensures Sent(limit, [], pieces) == Sent(limit, [], [Flat(pieces)])
    decreases |pieces|
  {
    SentAtOnce(limit, queue, pieces);
    SentAtOnce(limit, [], pieces);
    SentAtOnce(limit, queue, [Flat(pieces)]);
    SentAtOnce(limit, [], [Flat(pieces)]);
    assert Flat([Flat(pieces)]) == Flat(pieces);
  }

  lemma NothingFull(limit: nat, queue: seq<byte>)
    requires |queue| < limit
    ensures Full(limit, queue) == [] && Tail(limit, queue) == queue
    ensures [] + Closing(queue) == Closing(queue)
  {
    assert [] + Closing(queue) == Closing(queue);
  }

  lemma {:induction false} SentAtOnce(limit: nat, queue: seq<byte>, pieces: seq<seq<byte>>)
    requires limit > 0 && |queue| < limit
    ensures Sent(limit, queue, pieces) ==
      Full(limit, queue + Flat(pieces)) + Closing(Tail(limit, queue + Flat(pieces)))
    decreases |pieces|
  {
    hide Closing, Full, Tail;
    if pieces == [] {
      assert queue + Flat(pieces) == queue;
      NothingFull(limit, queue);
    } else {
      var s := queue + pieces[0];
      var q := Tail(limit, s) + Flat(pieces[1..]);
      SentAtOnce(limit, Tail(limit, s), pieces[1..]);
      QueueInParts(limit, s, Flat(pieces[1..]));
      assert queue + Flat(pieces) == s + Flat(pieces[1..]);
      assert Full(limit, s) + (Full(limit, q) + Closing(Tail(limit, q)))
          == Full(limit, s) + Full(limit, q) + Closing(Tail(limit, q));
    }
  }

  /** The blocks of a transfer: non-empty ones that fit, holding the data in order, then an empty one. */
  lemma BlocksOfTransfer(m: Mechanism, pieces: seq<seq<byte>>) returns (blocks: seq<seq<byte>>)
    requires m.limit > 0
    ensures Sent(m.limit, [], pieces) == blocks + [[]]
    ensures Solid(m, blocks) && Flat(blocks) == Flat(pieces)
  {
    var data := Flat(pieces);
    SentAtOnce(m.limit, [], pieces);
    assert [] + data == data;
    NothingLost(m.limit, data);
    var rest := Tail(m.limit, data);
    if rest == [] {
      blocks := Full(m.limit, data);
      assert Full(m.limit, data) + Closing(rest) == blocks + [[]];
    } else {
      blocks := Full(m.limit, data) + [rest];
      assert Full(m.limit, data) + Closing(rest) == blocks + [[]];
      FlatConcat(Full(m.limit, data), [rest]);
      assert Flat([rest]) == rest;
    }
  }

  predicate Solid(m: Mechanism, blocks: seq<seq<byte>>) {
    forall i :: 0 <= i < |blocks| ==> 0 < |blocks[i]| <= m.limit
  }

  /** The outbox after a list of calls and a flush. */
  ghost function AfterCalls(m: Mechanism, o: Outbox, pieces: seq<seq<byte>>): Outbox
    requires Lawful(m) && |o.queue| < m.limit
    decreases |pieces|
  {
    if pieces == [] then Flushed(m, o) else AfterCalls(m, Queued(m, o, pieces[0]), pieces[1..])
  }

  /** The calls write what `Sent` says, and leave nothing queued. */
  lemma {:induction false} CallsSend(m: Mechanism, o: Outbox, pieces: seq<seq<byte>>)
    requires Lawful(m) && |o.queue| < m.limit
    ensures var blocks := Sent(m.limit, o.queue, pieces);
      && Small(m, blocks)
      && AfterCalls(m, o, pieces) == Outbox([], o.sealed + |blocks|, o.wire + Frames(m, o.sealed, blocks))
    decreases |pieces|
  {
    hide Lawful, Frame, Frames, Full, Tail, Closing;
    if pieces == [] {
      ClosingFrames(m, o.sealed, o.queue);
    } else {
      var s, o' := o.queue + pieces[0], Queued(m, o, pieces[0]);
      CallsSend(m, o', pieces[1..]);
      FramesConcat(m, o.sealed, Full(m.limit, s), Sent(m.limit, o'.queue, pieces[1..]));
      var f, g := Frames(m, o.sealed, Full(m.limit, s)), Frames(m, o'.sealed, Sent(m.limit, o'.queue, pieces[1..]));
      assert o.wire + f + g == o.wire + (f + g);
    }
  }

  // ---------- receiving ----------

  /** The inbox holds the rest of a transfer, in `blocks` not yet read, and then `after`. */
  ghost predicate Holds(m: Mechanism, s: Inbox, blocks: seq<seq<byte>>, after: Inbox)
    requires Lawful(m)
  {
    && Solid(m, blocks) && Small(m, blocks + [[]])
    && s.input == Frames(m, s.n, blocks + [[]]) + after.input
    && after.unread == [] && after.n == s.n + |blocks| + 1
  }

  function Left(s: Inbox, blocks: seq<seq<byte>>): seq<byte> {
    s.unread + Flat(blocks)
  }

  /** A frame comes off the wire as the block that went in. */
  lemma FrameOpens(m: Mechanism, s: Inbox, p: seq<byte>, more: seq<byte>)
    requires Lawful(m) && |p| <= m.limit && s.input == Frame(m, s.n, p) + more
    ensures Fetch(m, s) == (true, Inbox(p, s.n + 1, more))
  {
    var token := m.wrap(s.n, p);
    assert |token| <= m.maxbuf && m.unwrap(s.n, token) == Some(p);
    BigEndianInverse(|token|);
    assert s.input == BigEndian(|token|) + (token + more);
    assert s.input[..4] == BigEndian(|token|);
    assert s.input[4..4 + |token|] == token && s.input[4 + |token|..] == more;
  }

  lemma FirstBlockOpens(m: Mechanism, s: Inbox, blocks: seq<seq<byte>>, after: Inbox)
    requires Lawful(m) && Holds(m, s, blocks, after)
    ensures blocks == [] ==> Fetch(m, s) == (true, after)
    ensures blocks != [] ==> var s' := Fetch(m, s).1;
      Fetch(m, s).0 && s'.unread == blocks[0] && Holds(m, s', blocks[1..], after)
  {
    hide Lawful, Frame, Fetch;
    var all := blocks + [[]];
    var more := Frames(m, s.n + 1, all[1..]) + after.input;
    assert s.input == Frame(m, s.n, all[0]) + more;
    FrameOpens(m, s, all[0], more);
    if blocks == [] {
      assert all[1..] == [];
      assert more == after.input;
    } else {
      assert all[1..] == blocks[1..] + [[]];
    }
  }

  /** Octet by octet, `secure_getc` delivers what is left and then the end. */
  lemma NextDelivers(m: Mechanism, s: Inbox, blocks: seq<seq<byte>>, after: Inbox) returns (blocks': seq<seq<byte>>)
    requires Lawful(m) && Holds(m, s, blocks, after)
    ensures Left(s, blocks) == [] ==> Next(m, s) == (End, after)
    ensures Left(s, blocks) != [] ==> var (got, s') := Next(m, s);
      && got == Byte(Left(s, blocks)[0]) && Holds(m, s', blocks', after)
      && Left(s', blocks') == Left(s, blocks)[1..]
  {
    hide Lawful, Fetch, Frames;
    blocks' := blocks;
    if s.unread != [] {
      assert Left(s, blocks)[1..] == s.unread[1..] + Flat(blocks);
    } else {
      FirstBlockOpens(m, s, blocks, after);
      if blocks != [] {
        blocks' := blocks[1..];
        var s' := Fetch(m, s).1;
        assert Left(s, blocks) == blocks[0] + Flat(blocks');
        assert (blocks[0] + Flat(blocks'))[1..] == blocks[0][1..] + Flat(blocks');
      }
    }
  }

  lemma {:induction false} GatherDelivers(m: Mechanism, s: Inbox, blocks: seq<seq<byte>>, after: Inbox, nbyte: nat)
    returns (blocks': seq<seq<byte>>)
    requires Lawful(m) && Holds(m, s, blocks, after)
    ensures var (bytes, stop, s') := Gather(m, s, nbyte);
      if nbyte <= |Left(s, blocks)| then
        && bytes == Left(s, blocks)[..nbyte] && stop == Filled
        && Holds(m, s', blocks', after) && Left(s', blocks') == Left(s, blocks)[nbyte..]
      else
        bytes == Left(s, blocks) && stop == AtEnd && s' == after
    decreases nbyte
  {
    hide Lawful, Next, Holds, Left;
    blocks' := blocks;
    var data := Left(s, blocks);
    if nbyte > 0 {
      var next := NextDelivers(m, s, blocks, after);
      if data != [] {
        var s' := Next(m, s).1;
        blocks' := GatherDelivers(m, s', next, after, nbyte - 1);
        assert [data[0]] + data[1..] == data;
        if nbyte <= |data| {
          assert [data[0]] + data[1..][..nbyte - 1] == data[..nbyte];
          assert data[1..][nbyte - 1..] == data[nbyte..];
        }
      }
    }
  }

  /** The reader owes `data` before its next zero return, and stands at `after` then. */
  ghost predicate Owes(m: Mechanism, s: Reader, blocks: seq<seq<byte>>, after: Inbox, data: seq<byte>)
    requires Lawful(m)
  {
    if s.ended then data == [] && s.inbox == after
    else Holds(m, s.inbox, blocks, after) && Left(s.inbox, blocks) == data
  }

  function Least(a: nat, b: nat): nat { if a <= b then a else b }

  /** A read returns as much as was asked for, or all that is left; it returns nothing exactly when
      nothing is left, and the reader then stands at the next transfer. */
  lemma ReadDelivers(m: Mechanism, s: Reader, blocks: seq<seq<byte>>, after: Inbox, data: seq<byte>, nbyte: nat)
    returns (blocks': seq<seq<byte>>)
    requires Lawful(m) && Owes(m, s, blocks, after, data) && nbyte > 0
    ensures var (out, s') := ReadSpec(m, s, nbyte);
      && out == Data(data[..Least(nbyte, |data|)])
      && if data == [] then s' == Reader(after, false)
         else Owes(m, s', blocks', after, data[Least(nbyte, |data|)..])
  {
    hide Lawful, Gather, Holds, Left;
    blocks' := blocks;
    if !s.ended {
      blocks' := GatherDelivers(m, s.inbox, blocks, after, nbyte);
    }
  }

  /** Reads until one returns nothing; the octets, or nothing if a read failed. */
  ghost function ReadTransfer(m: Mechanism, s: Reader, sizes: nat -> nat, k: nat): (Option<seq<byte>>, Reader)
    requires Lawful(m) && forall j :: sizes(j) > 0
    decreases |s.inbox.unread| + |s.inbox.input|
  {
    match ReadSpec(m, s, sizes(k))
    case (Failed, s') => (None, s')
    case (Data(bytes), s') =>
      if bytes == [] then (Some([]), s') else
      ReadShrinks(m, s, sizes(k));
      match ReadTransfer(m, s', sizes, k + 1)
      case (None, s'') => (None, s'')
      case (Some(more), s'') => (Some(bytes + more), s'')
  }

  lemma NextShrinks(m: Mechanism, s: Inbox)
    requires Lawful(m)
    ensures var (got, s') := Next(m, s);
      |s'.unread| + |s'.input| + (if got.Byte? then 1 else 0) <= |s.unread| + |s.input|
  {
    if s.unread == [] && |s.input| >= 4 {
      var length := FromBigEndian(s.input[..4]);
      if length <= m.maxbuf && 4 + length <= |s.input| {
        var token := s.input[4..4 + length];
        assert m.unwrap(s.n, token).Some? ==> |m.unwrap(s.n, token).value| <= |token|;
      }
    }
  }

  lemma {:induction false} GatherShrinks(m: Mechanism, s: Inbox, nbyte: nat)
    requires Lawful(m)
    ensures var (bytes, stop, s') := Gather(m, s, nbyte);
      |s'.unread| + |s'.input| + |bytes| <= |s.unread| + |s.input|
    decreases nbyte
  {
    hide Lawful, Next;
    if nbyte > 0 {
      NextShrinks(m, s);
      if Next(m, s).0.Byte? {
        GatherShrinks(m, Next(m, s).1, nbyte - 1);
      }
    }
  }

  lemma ReadShrinks(m: Mechanism, s: Reader, nbyte: nat)
    requires Lawful(m)
    ensures var (out, s') := ReadSpec(m, s, nbyte); out.Data? ==>
      |s'.inbox.unread| + |s'.inbox.input| + |out.bytes| <= |s.inbox.unread| + |s.inbox.input|
  {
    GatherShrinks(m, s.inbox, nbyte);
  }

  lemma {:induction false} TransferDelivers(m: Mechanism, s: Reader, blocks: seq<seq<byte>>, after: Inbox,
                                            data: seq<byte>, sizes: nat -> nat, k: nat)
    requires Lawful(m) && Owes(m, s, blocks, after, data)
    requires forall j :: sizes(j) > 0
    ensures ReadTransfer(m, s, sizes, k) == (Some(data), Reader(after, false))
    decreases |data|
  {
    hide Lawful, ReadSpec, Owes;
    var blocks' := ReadDelivers(m, s, blocks, after, data, sizes(k));
    var i := Least(sizes(k), |data|);
    if data != [] {
      TransferDelivers(m, ReadSpec(m, s, sizes(k)).1, blocks', after, data[i..], sizes, k + 1);
      assert data[..i] != [] && data[..i] + data[i..] == data;
    }
  }

  // ---------- damage ----------

  function LengthOf(d: seq<byte>): nat
    requires |d| >= 4
  {
    d[0] as nat * 0x100_0000 + d[1] as nat * 0x1_0000 + d[2] as nat * 0x100 + d[3] as nat
  }

  /** No block can be had from `d`: it ends within the length or the token, the token is too long, or it does
      not unwrap as the n-th one. */
  predicate Damaged(m: Mechanism, n: nat, d: seq<byte>) {
    || |d| < 4 || LengthOf(d) > m.maxbuf || |d| < 4 + LengthOf(d)
    || m.unwrap(n, d[4..4 + LengthOf(d)]) == None
  }

  /** What the attempt has used up: all there is if the input ends, else the length, and the token with it if
      that was not too long. */
  function Behind(m: Mechanism, n: nat, d: seq<byte>): Inbox {
    if |d| < 4 then Inbox([], n, [])
    else if LengthOf(d) > m.maxbuf then Inbox([], n, d[4..])
    else if |d| < 4 + LengthOf(d) then Inbox([], n, [])
    else Inbox([], n + 1, d[4 + LengthOf(d)..])
  }

  ghost predicate Spoilt(m: Mechanism, s: Inbox, blocks: seq<seq<byte>>, d: seq<byte>)
    requires Lawful(m)
  {
    && Solid(m, blocks) && Small(m, blocks)
    && s.input == Frames(m, s.n, blocks) + d && Damaged(m, s.n + |blocks|, d)
  }

  lemma NoFrames(m: Mechanism, n: nat)
    requires Lawful(m)
    ensures Small(m, []) && Frames(m, n, []) == []
  {
  }

  lemma DamageIsMet(m: Mechanism, s: Inbox)
    requires Damaged(m, s.n, s.input)
    ensures s.unread == [] ==> Next(m, s) == (Bad, Behind(m, s.n, s.input))
  {
  }

  lemma NextBeforeDamage(m: Mechanism, s: Inbox, blocks: seq<seq<byte>>, d: seq<byte>) returns (blocks': seq<seq<byte>>)
    requires Lawful(m) && Spoilt(m, s, blocks, d)
    ensures Left(s, blocks) == [] ==> Next(m, s) == (Bad, Behind(m, s.n + |blocks|, d))
    ensures Left(s, blocks) != [] ==> var (got, s') := Next(m, s);
      && got == Byte(Left(s, blocks)[0]) && Spoilt(m, s', blocks', d)
      && Left(s', blocks') == Left(s, blocks)[1..] && s'.n + |blocks'| == s.n + |blocks|
  {
    hide Lawful, Frames, Fetch, Damaged, Behind;
    blocks' := blocks;
    if s.unread != [] {
      assert Left(s, blocks)[1..] == s.unread[1..] + Flat(blocks);
    } else if blocks == [] {
      NoFrames(m, s.n);
      assert s.input == d;
      DamageIsMet(m, s);
    } else {
      blocks' := blocks[1..];
      OpensBeforeDamage(m, s, blocks, d);
      assert (blocks[0] + Flat(blocks'))[1..] == blocks[0][1..] + Flat(blocks');
    }
  }

  lemma OpensBeforeDamage(m: Mechanism, s: Inbox, blocks: seq<seq<byte>>, d: seq<byte>)
    requires Lawful(m) && Spoilt(m, s, blocks, d) && blocks != []
    ensures var s' := Fetch(m, s).1;
      Fetch(m, s).0 && s'.unread == blocks[0] && s'.n == s.n + 1 && Spoilt(m, s', blocks[1..], d)
  {
    hide Lawful, Frame, Fetch, Damaged;
    FrameOpens(m, s, blocks[0], Frames(m, s.n + 1, blocks[1..]) + d);
    assert s.input == Frame(m, s.n, blocks[0]) + (Frames(m, s.n + 1, blocks[1..]) + d);
  }

  lemma {:induction false} GatherBeforeDamage(m: Mechanism, s: Inbox, blocks: seq<seq<byte>>, d: seq<byte>, nbyte: nat)
    returns (blocks': seq<seq<byte>>)
    requires Lawful(m) && Spoilt(m, s, blocks, d)
    ensures var (bytes, stop, s') := Gather(m, s, nbyte);
      if nbyte <= |Left(s, blocks)| then
        && bytes == Left(s, blocks)[..nbyte] && stop == Filled
        && Spoilt(m, s', blocks', d) && Left(s', blocks') == Left(s, blocks)[nbyte..]
        && s'.n + |blocks'| == s.n + |blocks|
      else
        stop == Broken && s' == Behind(m, s.n + |blocks|, d)
    decreases nbyte
  {
    hide Lawful, Next, Spoilt, Left, Behind;
    blocks' := blocks;
    var data := Left(s, blocks);
    if nbyte > 0 {
      var next := NextBeforeDamage(m, s, blocks, d);
      if data != [] {
        blocks' := GatherBeforeDamage(m, Next(m, s).1, next, d, nbyte - 1);
        if nbyte <= |data| {
          assert [data[0]] + data[1..][..nbyte - 1] == data[..nbyte];
          assert data[1..][nbyte - 1..] == data[nbyte..];
        }
      }
    }
  }

  /** Up to a damaged place reads deliver what was sent.  The read that reaches it fails, and what it had
      gathered is lost; the next one goes on behind the length or the token that was read. */
  lemma DamageFails(m: Mechanism, s: Inbox, blocks: seq<seq<byte>>, d: seq<byte>, nbyte: nat)
    returns (blocks': seq<seq<byte>>)
    requires Lawful(m) && Spoilt(m, s, blocks, d)
    ensures var (out, s') := ReadSpec(m, Reader(s, false), nbyte);
      var data := s.unread + Flat(blocks);
      if nbyte <= |data| then
        && out == Data(data[..nbyte]) && !s'.ended && Spoilt(m, s'.inbox, blocks', d)
        && s'.inbox.unread + Flat(blocks') == data[nbyte..] && s'.inbox.n + |blocks'| == s.n + |blocks|
      else
        out == Failed && s' == Reader(Behind(m, s.n + |blocks|, d), false)
  {
    hide Lawful, Gather, Spoilt, Behind;
    blocks' := GatherBeforeDamage(m, s, blocks, d, nbyte);
  }

  // ---------- whole sessions ----------

  /** Everything one end sends: a list of transfers, each a mix of calls. */
  ghost function Wire(m: Mechanism, n: nat, transfers: seq<seq<seq<byte>>>): seq<byte>
    requires Lawful(m)
    decreases |transfers|
  {
    if transfers == [] then [] else
    SentIsSmall(m, transfers[0]);
    Frames(m, n, Sent(m.limit, [], transfers[0])) + Wire(m, n + |Sent(m.limit, [], transfers[0])|, transfers[1..])
  }

  lemma SentIsSmall(m: Mechanism, pieces: seq<seq<byte>>)
    requires m.limit > 0
    ensures Small(m, Sent(m.limit, [], pieces))
  {
    var blocks := BlocksOfTransfer(m, pieces);
  }

  /** The next `count` transfers, the j-th read of the i-th asking for sizes(i, j). */
  ghost function ReadTransfers(m: Mechanism, s: Reader, sizes: (nat, nat) -> nat, i: nat, count: nat)
    : seq<Option<seq<byte>>>
    requires Lawful(m) && forall a, b :: sizes(a, b) > 0
    decreases count
  {
    if count == 0 then [] else
    var (data, s') := ReadTransfer(m, s, j => sizes(i, j), 0);
    [data] + ReadTransfers(m, s', sizes, i + 1, count - 1)
  }

  function Contents(transfers: seq<seq<seq<byte>>>): seq<Option<seq<byte>>> {
    if transfers == [] then [] else [Some(Flat(transfers[0]))] + Contents(transfers[1..])
  }

  lemma WireHead(m: Mechanism, n: nat, transfers: seq<seq<seq<byte>>>, more: seq<byte>)
    requires Lawful(m) && transfers != []
    ensures var now := Sent(m.limit, [], transfers[0]);
      && Small(m, now)
      && Wire(m, n, transfers) + more == Frames(m, n, now) + (Wire(m, n + |now|, transfers[1..]) + more)
  {
    hide Frames, Sent;
    SentIsSmall(m, transfers[0]);
  }

  lemma NothingUnread(s: Inbox, blocks: seq<seq<byte>>)
    requires s.unread == []
    ensures Left(s, blocks) == Flat(blocks)
  {
  }

  /** Any number of transfers, any mix of calls in each, any positive sizes of reads: every transfer is
      read back octet for octet, and ends with one zero return before the next begins. */
  lemma {:induction false} TransfersArrive(m: Mechanism, n: nat, transfers: seq<seq<seq<byte>>>, more: seq<byte>,
                                           sizes: (nat, nat) -> nat, i: nat)
    requires Lawful(m) && forall a, b :: sizes(a, b) > 0
    ensures var s := Reader(Inbox([], n, Wire(m, n, transfers) + more), false);
      ReadTransfers(m, s, sizes, i, |transfers|) == Contents(transfers)
    decreases |transfers|
  {
    hide Lawful, Frames, ReadTransfer, Sent, Wire, Left;
    if transfers != [] {
      LimitFits(m);
      var now := Sent(m.limit, [], transfers[0]);
      var blocks := BlocksOfTransfer(m, transfers[0]);
      var rest := Wire(m, n + |now|, transfers[1..]) + more;
      var s := Reader(Inbox([], n, Wire(m, n, transfers) + more), false);
      var after := Inbox([], n + |now|, rest);
      WireHead(m, n, transfers, more);
      NothingUnread(s.inbox, blocks);
      TransferDelivers(m, s, blocks, after, Flat(transfers[0]), j => sizes(i, j), 0);
      TransfersArrive(m, n + |now|, transfers[1..], more, sizes, i + 1);
    }
  }
}
