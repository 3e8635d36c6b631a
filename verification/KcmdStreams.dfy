/** What the record layer of bsd/kcmd.c gives its callers: a stream of octets on each channel, and
    cipher states that never drift apart. */
module KcmdStreams {
  import opened Wrappers
  import opened Bytes
  import opened Kcmd

  // ---------- one record ----------

  lemma PacketBounds(s: Setup, usage: nat, st: State, p: seq<byte>)
    requires Lawful(s.cipher) && Writable(s, p)
    ensures Packet(s, usage, st, p)[0] == 0
    ensures FromBigEndian(Packet(s, usage, st, p)[..4]) == |p|
    ensures |Packet(s, usage, st, p)| == 4 + BodyLength(s, |p|)
    ensures 0 < BodyLength(s, |p|) <= BUFFER
  {
    var n := if s.useIvecs then |p| + 4 else |p|;
    assert |Clear(s, p)| == n;
    assert 0 < s.cipher.length(n) && n <= s.cipher.length(n);
    assert |s.cipher.encrypt(usage, Handed(s, st), Clear(s, p)).0| == s.cipher.length(|Clear(s, p)|);
    BigEndianInverse(|p|);
    assert Packet(s, usage, st, p)[..4] == BigEndian(|p|);
  }

  lemma SealedOpens(s: Setup, usage: nat, st: State, p: seq<byte>, rest: seq<byte>)
    requires Lawful(s.cipher) && Writable(s, p)
    ensures FetchBody(s, usage, st, |p|, Sealed(s, usage, st, p) + rest)
         == Fetched(1, p, NextState(s, usage, st, p), rest)
  {
    PacketBounds(s, usage, st, p);
    var body := Sealed(s, usage, st, p);
    assert (body + rest)[..|body|] == body && (body + rest)[|body|..] == rest;
    var clear := Clear(s, p);
    assert body == s.cipher.encrypt(usage, Handed(s, st), clear).0;
    var plain := s.cipher.decrypt(usage, Handed(s, st), body).value.0;
    assert clear <= plain;
    if s.useIvecs {
      BigEndianInverse(|p|);
      assert plain[..|clear|] == clear;
      assert plain[..4] == clear[..4] == BigEndian(|p|);
      assert plain[4..|p| + 4] == clear[4..] == p;
    } else {
      assert plain[..|p|] == p;
    }
  }

  /** A whole record at the front of the wire is taken off it, with or without resynchronisation. */
  lemma RecordArrives(s: Setup, usage: nat, st: State, p: seq<byte>, rest: seq<byte>)
    requires Lawful(s.cipher) && Writable(s, p)
    ensures Fetch(s, usage, st, Packet(s, usage, st, p) + rest) == Fetched(1, p, NextState(s, usage, st, p), rest)
  {
    PacketBounds(s, usage, st, p);
    var wire := Packet(s, usage, st, p) + rest;
    var body := Sealed(s, usage, st, p);
    var after := wire[1..];
    assert wire[..4] == Packet(s, usage, st, p)[..4];
    assert [wire[0], after[0], after[1], after[2]] == wire[..4];
    assert after[3..] == body + rest;
    assert Sync(s.lencheck, wire) == Some((0, after));
    SealedOpens(s, usage, st, p, rest);
  }

  /** Any length on the wire and what comes behind it.  Too long for the input buffer, cut short, or not deciphered,
      it is an error that stores nothing and leaves the state; deciphered, it moves the state, its first octets are
      stored, as many as the length says, and it is an error still if the new protocol finds another length in
      front of them. */
  lemma AnyRecord(s: Setup, usage: nat, st: State, n: nat, body: seq<byte>, rest: seq<byte>)
    requires Lawful(s.cipher) && n < 0x1_0000_0000 && (BigEndian(n)[0] == 0 || !s.lencheck)
    ensures var f := Fetch(s, usage, st, BigEndian(n) + body + rest);
            var size := s.cipher.length(if s.useIvecs then n + 4 else n);
            var d := s.cipher.decrypt(usage, if s.useIvecs then st else [], body);
            && (size > 10240 ==> f == Fetched(-1, [], st, body + rest))
            && (size <= 10240 && |body| + |rest| < size ==> f == Fetched(-1, [], st, []))
            && (size <= 10240 && |body| == size && d == None ==> f == Fetched(-1, [], st, rest))
            && (size <= 10240 && |body| == size && d.Some? ==>
                  var (plain, st') := d.value;
                  && n <= |plain| && f.rest == rest && f.state == (if s.useIvecs then st' else st)
                  && (!s.useIvecs ==> f.ret == 1 && f.stored == plain[..n])
                  && (s.useIvecs && BigEndian(n) <= plain ==>
                        n + 4 <= |plain| && f.ret == 1 && f.stored == plain[4..n + 4])
                  && (s.useIvecs && !(BigEndian(n) <= plain) ==> f.ret == -1 && f.stored == plain[..n]))
  {
    hide FetchBody, Lawful;
    var wire := BigEndian(n) + body + rest;
    var after := wire[1..];
    assert wire[..4] == BigEndian(n) && [wire[0], after[0], after[1], after[2]] == wire[..4];
    assert after[3..] == body + rest;
    BigEndianInverse(n);
    assert Sync(s.lencheck, wire) == Some((wire[0], after));
    AnyBody(s, usage, st, n, body, rest);
  }

  lemma AnyBody(s: Setup, usage: nat, st: State, n: nat, body: seq<byte>, rest: seq<byte>)
    requires Lawful(s.cipher) && n < 0x1_0000_0000
    ensures var f := FetchBody(s, usage, st, n, body + rest);
            var size := s.cipher.length(if s.useIvecs then n + 4 else n);
            var d := s.cipher.decrypt(usage, if s.useIvecs then st else [], body);
            && (size > 10240 ==> f == Fetched(-1, [], st, body + rest))
            && (size <= 10240 && |body| + |rest| < size ==> f == Fetched(-1, [], st, []))
            && (size <= 10240 && |body| == size && d == None ==> f == Fetched(-1, [], st, rest))
            && (size <= 10240 && |body| == size && d.Some? ==>
                  var (plain, st') := d.value;
                  && n <= |plain| && f.rest == rest && f.state == (if s.useIvecs then st' else st)
                  && (!s.useIvecs ==> f.ret == 1 && f.stored == plain[..n])
                  && (s.useIvecs && BigEndian(n) <= plain ==>
                        n + 4 <= |plain| && f.ret == 1 && f.stored == plain[4..n + 4])
                  && (s.useIvecs && !(BigEndian(n) <= plain) ==> f.ret == -1 && f.stored == plain[..n]))
  {
    var size := s.cipher.length(if s.useIvecs then n + 4 else n);
    assert size > 0;
    if |body| == size {
      assert (body + rest)[..size] == body && (body + rest)[size..] == rest;
      if s.cipher.decrypt(usage, Handed(s, st), body).Some? {
        var plain := s.cipher.decrypt(usage, Handed(s, st), body).value.0;
        OpenedLength(s.cipher, usage, Handed(s, st), body, if s.useIvecs then n + 4 else n);
        if s.useIvecs {
          LengthInFront(plain, n);
        }
      }
    }
  }

  lemma LengthInFront(plain: seq<byte>, n: nat)
    requires n < 0x1_0000_0000 && |plain| >= 4
    ensures FromBigEndian(plain[..4]) == n <==> BigEndian(n) <= plain
  {
    BigEndianInverse(n);
    var p := plain[..4];
    if FromBigEndian(p) == n {
      FromIsOnce(p);
      assert p == BigEndian(n);
    }
    if BigEndian(n) <= plain {
      assert p == BigEndian(n);
    }
  }

  lemma FromIsOnce(p: seq<byte>)
    requires |p| == 4
    ensures FromBigEndian(p) < 0x1_0000_0000 && BigEndian(FromBigEndian(p)) == p
  {
    var a, b, c, d := p[0] as int, p[1] as int, p[2] as int, p[3] as int;
    var n := ((a * 0x100 + b) * 0x100 + c) * 0x100 + d;
    assert n / 0x100 == (a * 0x100 + b) * 0x100 + c && n % 0x100 == d;
    assert n / 0x1_0000 == a * 0x100 + b && n / 0x100 % 0x100 == c;
    assert n / 0x100_0000 == a && n / 0x1_0000 % 0x100 == b;
  }

  /** A record that is cut short gives an end or an error, and stores nothing. */
  lemma RecordCut(s: Setup, usage: nat, st: State, p: seq<byte>, cut: nat)
    requires Lawful(s.cipher) && Writable(s, p) && cut < |Packet(s, usage, st, p)|
    ensures var f := Fetch(s, usage, st, Packet(s, usage, st, p)[..cut]);
            f.ret <= 0 && f.stored == [] && f.state == st && (f.ret == 0 <==> cut < 4)
  {
    PacketBounds(s, usage, st, p);
    var packet := Packet(s, usage, st, p);
    var wire := packet[..cut];
    if wire != [] {
      var after := wire[1..];
      assert wire[0] == 0;
      assert Sync(s.lencheck, wire) == Some((0, after));
      if cut >= 4 {
        assert [wire[0], after[0], after[1], after[2]] == packet[..4];
      }
    }
  }

  // ---------- resynchronisation ----------

  /** With `do_lencheck` set, octets other than zero in front of a record are skipped; without it,
      or when there are none, nothing is. */
  lemma {:induction false} Resync(s: Setup, usage: nat, st: State, junk: seq<byte>, wire: seq<byte>)
    requires s.lencheck && forall i :: 0 <= i < |junk| ==> junk[i] != 0
    ensures Fetch(s, usage, st, junk + wire) == Fetch(s, usage, st, wire)
    decreases |junk|
  {
    SyncSkips(junk, wire);
  }

  lemma {:induction false} SyncSkips(junk: seq<byte>, wire: seq<byte>)
    requires forall i :: 0 <= i < |junk| ==> junk[i] != 0
    ensures Sync(true, junk + wire) == Sync(true, wire)
    decreases |junk|
  {
    if junk == [] {
      assert junk + wire == wire;
    } else {
      assert (junk + wire)[1..] == junk[1..] + wire;
      SyncSkips(junk[1..], wire);
    }
  }

  // ---------- one channel as a stream ----------

  /** The octets that a series of reads reports, up to the first return that is not positive. */
  function Reported(s: Setup, usage: nat, st: State, stored: seq<byte>, wire: seq<byte>, lens: seq<nat>): seq<byte>
    decreases lens
  {
    if lens == [] then [] else
    var r := ReadSpec(s, usage, st, stored, wire, lens[0]);
    if r.ret <= 0 || r.ret > |r.buf| then []
    else r.buf[..r.ret] + Reported(s, usage, r.state, r.stored, r.rest, lens[1..])
  }

  /** A read that reports something takes it off the front of what is stored and still to come. */
  lemma OneRead(s: Setup, usage: nat, st: State, stored: seq<byte>, ps: seq<seq<byte>>, cut: nat, len: nat)
    returns (later: seq<seq<byte>>, cut': nat)
    requires Lawful(s.cipher) && AllWritable(s, ps)
    requires cut <= |Packets(s, usage, st, ps)|
    ensures AllWritable(s, later)
    ensures var r := ReadSpec(s, usage, st, stored, Packets(s, usage, st, ps)[..cut], len);
            r.ret > 0 ==>
              && r.ret == |r.buf|
              && cut' <= |Packets(s, usage, r.state, later)|
              && r.rest == Packets(s, usage, r.state, later)[..cut']
              && r.buf + (r.stored + Flat(later)) == stored + Flat(ps)
  {
    hide Fetch, Packet, Sealed, NextState, Lawful;
    later, cut' := ps, cut;
    var wire := Packets(s, usage, st, ps)[..cut];
    if |stored| >= len {
      PrefixStep([], stored, Flat(ps), len);
      assert [] + stored == stored && [] + (stored + Flat(ps)) == stored + Flat(ps);
    } else if ps == [] {
      assert wire == [];
      NothingArrives(s, usage, st);
    } else if cut < |Packet(s, usage, st, ps[0])| {
      assert wire == Packet(s, usage, st, ps[0])[..cut];
      RecordCut(s, usage, st, ps[0], cut);
    } else {
      var packet := Packet(s, usage, st, ps[0]);
      later, cut' := ps[1..], cut - |packet|;
      var tail := Packets(s, usage, NextState(s, usage, st, ps[0]), later)[..cut'];
      assert wire == packet + tail;
      ReadAmount(s, usage, st, stored, ps[0], tail, len);
      PrefixStep(stored, ps[0], Flat(later), if len <= |stored| + |ps[0]| then len else |stored| + |ps[0]|);
    }
  }

  lemma NothingArrives(s: Setup, usage: nat, st: State)
    ensures Fetch(s, usage, st, []).ret == 0
  {
  }

  /** Whatever part of the sender's records arrives before the connection ends, and however the reader
      cuts its reads, what it is told it has read is a prefix of what was written. */
  lemma {:induction false} ReadsArePrefix(s: Setup, usage: nat, st: State, stored: seq<byte>, ps: seq<seq<byte>>,
                                          cut: nat, lens: seq<nat>)
    requires Lawful(s.cipher) && AllWritable(s, ps)
    requires cut <= |Packets(s, usage, st, ps)|
    ensures Reported(s, usage, st, stored, Packets(s, usage, st, ps)[..cut], lens) <= stored + Flat(ps)
    decreases lens
  {
    hide ReadSpec, Packets, Lawful, Writable;
    if lens != [] {
      var later, cut' := OneRead(s, usage, st, stored, ps, cut, lens[0]);
      var r := ReadSpec(s, usage, st, stored, Packets(s, usage, st, ps)[..cut], lens[0]);
      if r.ret > 0 {
        ReadsArePrefix(s, usage, r.state, r.stored, later, cut', lens[1..]);
        assert r.buf[..r.ret] == r.buf;
      }
    }
  }

  // ---------- the length check on a stream of records ----------

  function Checked(s: Setup, lencheck: bool): Setup { s.(lencheck := lencheck) }

  /** A wire that is empty or starts with a zero octet is read the same. */
  lemma CheckLeavesRead(s: Setup, lencheck: bool, usage: nat, st: State, stored: seq<byte>, wire: seq<byte>, len: nat)
    requires wire == [] || wire[0] == 0
    ensures ReadSpec(Checked(s, lencheck), usage, st, stored, wire, len) == ReadSpec(s, usage, st, stored, wire, len)
  {
    assert Sync(lencheck, wire) == Sync(s.lencheck, wire);
    var after := if wire == [] then [] else wire[1..];
    if |after| >= 3 {
      CheckLeavesBody(s, lencheck, usage, st, FromBigEndian([wire[0], after[0], after[1], after[2]]), after[3..]);
    }
  }

  lemma CheckLeavesBody(s: Setup, lencheck: bool, usage: nat, st: State, rdLen: nat, after: seq<byte>)
    ensures FetchBody(Checked(s, lencheck), usage, st, rdLen, after) == FetchBody(s, usage, st, rdLen, after)
  {
  }

  /** The check discards nothing from a stream of records: wherever it is cut off and however it is read,
      the reads report the same with the check and without it. */
  lemma {:induction false} CheckDiscardsNothing(s: Setup, usage: nat, st: State, stored: seq<byte>,
                                                ps: seq<seq<byte>>, cut: nat, lens: seq<nat>, lencheck: bool)
    requires Lawful(s.cipher) && AllWritable(s, ps) && cut <= |Packets(s, usage, st, ps)|
    ensures var wire := Packets(s, usage, st, ps)[..cut];
      Reported(Checked(s, lencheck), usage, st, stored, wire, lens) == Reported(s, usage, st, stored, wire, lens)
    decreases lens
  {
    hide ReadSpec, Lawful, Writable, Packet, Checked;
    if lens != [] {
      var wire := Packets(s, usage, st, ps)[..cut];
      if ps != [] {
        PacketBounds(s, usage, st, ps[0]);
      }
      CheckLeavesRead(s, lencheck, usage, st, stored, wire, lens[0]);
      var later, cut' := OneRead(s, usage, st, stored, ps, cut, lens[0]);
      var r := ReadSpec(s, usage, st, stored, wire, lens[0]);
      if r.ret > 0 {
        CheckDiscardsNothing(s, usage, r.state, r.stored, later, cut', lens[1..], lencheck);
      }
    }
  }

  lemma PrefixStep<T>(a: seq<T>, b: seq<T>, c: seq<T>, k: nat)
    requires k <= |a| + |b|
    ensures (a + b)[..k] + ((a + b)[k..] + c) == a + (b + c)
  {
  }

  /** A read is answered as far as the store and one more record go. */
  lemma ReadAmount(s: Setup, usage: nat, st: State, stored: seq<byte>, p: seq<byte>, rest: seq<byte>, len: nat)
    requires Lawful(s.cipher) && Writable(s, p)
    ensures var r := ReadSpec(s, usage, st, stored, Packet(s, usage, st, p) + rest, len);
            && r.ret == (if len <= |stored| + |p| then len else |stored| + |p|)
            && r.buf == (stored + p)[..r.ret]
            && (len <= |stored| ==>
                  r.stored == stored[len..] && r.state == st && r.rest == Packet(s, usage, st, p) + rest)
            && (len > |stored| ==>
                  r.stored == (stored + p)[r.ret..] && r.state == NextState(s, usage, st, p) && r.rest == rest)
  {
    RecordArrives(s, usage, st, p, rest);
  }

  /** Octets in the store are reported in front of an empty record, but at the end of the connection a read
      that asks for more than is stored reports nothing and empties the store: what it held is lost. */
  lemma EmptyRecordAndEnd(s: Setup, usage: nat, st: State, stored: seq<byte>, rest: seq<byte>, len: nat)
    requires Lawful(s.cipher) && Writable(s, [])
    ensures ReadSpec(s, usage, st, stored, Packet(s, usage, st, []) + rest, len).ret
         == (if len <= |stored| then len else |stored|)
    ensures ReadSpec(s, usage, st, stored, [], len)
         == if len <= |stored| then ReadResult(len, stored[..len], stored[len..], st, [])
            else ReadResult(0, stored, [], st, [])
  {
    ReadAmount(s, usage, st, stored, [], rest, len);
  }
}
