/** The encrypted record layer of the Kerberos r-commands (bsd/kcmd.c): length-framed records, a
    store for what a read did not take, and a cipher state for each channel and direction. */
module Kcmd {
  import opened Wrappers
  import opened Bytes

  const RCMD_BUFSIZ: nat := 5120
  const BUFFER: nat := 2 * RCMD_BUFSIZ   // des_inbuf, storage, and the body part of des_outpkt
  const TMPBUF: nat := 2 * RCMD_BUFSIZ + 8

  type State = seq<byte>

  /** The Kerberos library's part: encryption under a key usage and a cipher state gives the ciphertext
      and the next state. */
  datatype Cipher = Cipher(
    encrypt: (nat, State, seq<byte>) -> (seq<byte>, State),
    decrypt: (nat, State, seq<byte>) -> Option<(seq<byte>, State)>,
    length: nat -> nat)

  /** Decryption undoes encryption, up to padding behind the text; lengths depend on lengths only. */
  ghost predicate Lawful(c: Cipher) {
    && (forall n: nat :: 0 < c.length(n) && n <= c.length(n))
    && (forall u: nat, st: State, p: seq<byte> ::
          && |c.encrypt(u, st, p).0| == c.length(|p|)
          && var d := c.decrypt(u, st, c.encrypt(u, st, p).0);
             d.Some? && p <= d.value.0 && d.value.1 == c.encrypt(u, st, p).1)
    && (forall u: nat, st: State, e: seq<byte>, n: nat ::
          |e| == c.length(n) && c.decrypt(u, st, e).Some? ==> n <= |c.decrypt(u, st, e).value.0| <= |e|)
  }

  lemma OpenedLength(c: Cipher, usage: nat, st: State, e: seq<byte>, n: nat)
    requires Lawful(c) && |e| == c.length(n) && c.decrypt(usage, st, e).Some?
    ensures n <= |c.decrypt(usage, st, e).value.0| <= |e|
  {
  }

  /** What both ends agree on before the first record. */
  datatype Setup = Setup(cipher: Cipher, useIvecs: bool, lencheck: bool)

  // ---------- writing ----------

  /** The cleartext of a record: under the new protocol the length comes first. */
  function Clear(s: Setup, payload: seq<byte>): seq<byte>
    requires |payload| < 0x1_0000_0000
  {
    if s.useIvecs then BigEndian(|payload|) + payload else payload
  }

  /** The state handed to the library; the old protocol has none. */
  function Handed(s: Setup, st: State): State {
    if s.useIvecs then st else []
  }

  function Sealed(s: Setup, usage: nat, st: State, payload: seq<byte>): seq<byte>
    requires |payload| < 0x1_0000_0000
  {
    s.cipher.encrypt(usage, Handed(s, st), Clear(s, payload)).0
  }

  function Packet(s: Setup, usage: nat, st: State, payload: seq<byte>): seq<byte>
    requires |payload| < 0x1_0000_0000
  {
    BigEndian(|payload|) + Sealed(s, usage, st, payload)
  }

  function NextState(s: Setup, usage: nat, st: State, payload: seq<byte>): State
    requires |payload| < 0x1_0000_0000
  {
    if s.useIvecs then s.cipher.encrypt(usage, st, Clear(s, payload)).1 else st
  }

  function BodyLength(s: Setup, n: nat): nat {
    s.cipher.length(if s.useIvecs then n + 4 else n)
  }

  /** The payloads that one call of `v5_des_write` can send. */
  predicate Writable(s: Setup, payload: seq<byte>) {
    && |payload| < 0x1_0000_0000
    && (s.useIvecs ==> |payload| + 4 <= TMPBUF)
    && BodyLength(s, |payload|) <= BUFFER
  }

  predicate AllWritable(s: Setup, ps: seq<seq<byte>>) {
    forall i :: 0 <= i < |ps| ==> Writable(s, ps[i])
  }

  function Packets(s: Setup, usage: nat, st: State, ps: seq<seq<byte>>): seq<byte>
    requires AllWritable(s, ps)
    decreases ps
  {
    if ps == [] then [] else Packet(s, usage, st, ps[0]) + Packets(s, usage, NextState(s, usage, st, ps[0]), ps[1..])
  }

  function StateAfter(s: Setup, usage: nat, st: State, ps: seq<seq<byte>>): State
    requires AllWritable(s, ps)
    decreases ps
  {
    if ps == [] then st else StateAfter(s, usage, NextState(s, usage, st, ps[0]), ps[1..])
  }

  // ---------- reading ----------

  /** The first octet taken as the start of a length, and what follows it. */
  function Sync(lencheck: bool, wire: seq<byte>): Option<(byte, seq<byte>)> {
    if wire == [] then None
    else if wire[0] == 0 || !lencheck then Some((wire[0], wire[1..]))
    else Sync(lencheck, wire[1..])
  }

  /** The outcome of taking one record off the wire: 1 if there is one, 0 at the end, -1 for trouble;
      what is stored, the cipher state, and the wire afterwards. */
  datatype Fetched = Fetched(ret: int, stored: seq<byte>, state: State, rest: seq<byte>)

  function Fetch(s: Setup, usage: nat, st: State, wire: seq<byte>): Fetched {
    match Sync(s.lencheck, wire)
    case None => Fetched(0, [], st, [])
    case Some((c, after)) =>
      if |after| < 3 then Fetched(0, [], st, []) else
      var rdLen := FromBigEndian([c, after[0], after[1], after[2]]);
      FetchBody(s, usage, st, rdLen, after[3..])
  }

  function FetchBody(s: Setup, usage: nat, st: State, rdLen: nat, after: seq<byte>): Fetched {
    var netLen := BodyLength(s, rdLen);
    if netLen <= 0 || netLen > BUFFER then Fetched(-1, [], st, after)
    else if |after| < netLen then Fetched(-1, [], st, [])
    else
      match s.cipher.decrypt(usage, Handed(s, st), after[..netLen])
      case None => Fetched(-1, [], st, after[netLen..])
      case Some((plain, st')) =>
        if !s.useIvecs then Fetched(1, if rdLen <= |plain| then plain[..rdLen] else plain, st, after[netLen..])
        else if |plain| < 4 || FromBigEndian(plain[..4]) != rdLen then
          Fetched(-1, if rdLen <= |plain| then plain[..rdLen] else plain, st', after[netLen..])
        else Fetched(1, if rdLen + 4 <= |plain| then plain[4..rdLen + 4] else plain[4..], st', after[netLen..])
  }

  /** The outcome of `v5_des_read`: its return value, the octets it put into the caller's buffer, what
      stays stored, the cipher state of the channel, and the wire. */
  datatype ReadResult = ReadResult(ret: int, buf: seq<byte>, stored: seq<byte>, state: State, rest: seq<byte>)

  function ReadSpec(s: Setup, usage: nat, st: State, stored: seq<byte>, wire: seq<byte>, len: nat): ReadResult {
    if |stored| >= len then ReadResult(len, stored[..len], stored[len..], st, wire) else
    var f := Fetch(s, usage, st, wire);
    if f.ret <= 0 then ReadResult(f.ret, stored, f.stored, f.state, f.rest) else
    var want := len - |stored|;
    if |f.stored| > want then ReadResult(len, stored + f.stored[..want], f.stored[want..], f.state, f.rest)
    else ReadResult(|stored| + |f.stored|, stored + f.stored, [], f.state, f.rest)
  }

  // ---------- the start of a session ----------

  /** The enctypes for which the starting states are blocks of a repeated octet, and the rest, for which
      the library makes a state for each key usage. */
  datatype Enctype = WithIvec(blocksize: nat) | WithUsages(initState: nat -> State)

  const KCMD_KEYUSAGE: nat := 1026

  function Usages(e: Enctype, newProtocol: bool, amClient: bool, incoming: bool): (us: seq<nat>)
    ensures |us| == 2
    ensures newProtocol && e.WithUsages? ==> us == if amClient == incoming then [1028, 1030] else [1032, 1034]
    ensures KCMD_KEYUSAGE in us <==> !newProtocol || e.WithIvec?
    ensures us[0] == us[1] <==> us == [KCMD_KEYUSAGE, KCMD_KEYUSAGE]
  {
    if !newProtocol || e.WithIvec? then [KCMD_KEYUSAGE, KCMD_KEYUSAGE]
    else if amClient == incoming then [1028, 1030]
    else [1032, 1034]
  }

  function Block(octet: byte, size: nat): (st: State)
    ensures |st| == size && forall i :: 0 <= i < size ==> st[i] == octet
  {
    seq(size, i => octet)
  }

  function InitialStates(e: Enctype, newProtocol: bool, amClient: bool, incoming: bool): (sts: seq<State>)
    ensures |sts| == 2
    ensures !newProtocol ==> sts[0] == sts[1] == []
    ensures newProtocol && e.WithIvec? ==> |sts[0]| == |sts[1]| == e.blocksize
    ensures newProtocol && e.WithIvec? && e.blocksize > 0 ==> sts[0] != sts[1]
  {
    if !newProtocol then [[], []]
    else
      match e
      case WithIvec(size) =>
        var low := if amClient == incoming then 1 else 0;
        assert size > 0 ==> Block(low, size)[0] != Block(2 + low, size)[0];
        [Block(low, size), Block(2 + low, size)]
      case WithUsages(initState) =>
        var us := Usages(e, newProtocol, amClient, incoming);
        [initState(us[0]), initState(us[1])]
  }

  // ---------- the static variables and the functions that change them ----------

  class Stream {
    const setup: Setup
    const usageIn: seq<nat>
    const usageOut: seq<nat>
    var encivecIn: seq<State>
    var encivecOut: seq<State>
    const storage: array<byte>
    var nstored: nat
    var storePtr: nat

    ghost predicate Valid()
      reads this
    {
      && Lawful(setup.cipher)
      && |usageIn| == |usageOut| == |encivecIn| == |encivecOut| == 2
      && storage.Length == BUFFER
      && storePtr + nstored <= BUFFER
    }

    ghost function Stored(): (s: seq<byte>)
      requires Valid()
      reads this, storage
      ensures |s| == nstored
    {
      storage[storePtr..storePtr + nstored]
    }

    /** `rcmd_stream_init_krb5` with encryption on. */
    constructor (cipher: Cipher, e: Enctype, lencheck: bool, amClient: bool, newProtocol: bool)
      requires Lawful(cipher)
      ensures Valid() && Stored() == [] && setup == Setup(cipher, newProtocol, lencheck)
      ensures usageIn == Usages(e, newProtocol, amClient, true) && usageOut == Usages(e, newProtocol, amClient, false)
      ensures newProtocol && e.WithUsages? && amClient ==> usageIn == [1028, 1030] && usageOut == [1032, 1034]
      ensures newProtocol && e.WithUsages? && !amClient ==> usageIn == [1032, 1034] && usageOut == [1028, 1030]
      ensures encivecIn == InitialStates(e, newProtocol, amClient, true)
      ensures encivecOut == InitialStates(e, newProtocol, amClient, false)
    {
      setup := Setup(cipher, newProtocol, lencheck);
      storage := new byte[BUFFER](i => 0);
      nstored, storePtr := 0, 0;
      usageIn, usageOut := [KCMD_KEYUSAGE, KCMD_KEYUSAGE], [KCMD_KEYUSAGE, KCMD_KEYUSAGE];
      encivecIn, encivecOut := [[], []], [[], []];
      if newProtocol {
        match e {
          case WithIvec(size) =>
            var am := if amClient then 1 else 0;
            encivecIn := [Block(am, size), Block(2 + am, size)];
            encivecOut := [Block(1 - am, size), Block(2 + (1 - am), size)];
          case WithUsages(initState) =>
            var usIn, usOut := [1032, 1034], [1028, 1030];
            if amClient {
              usIn, usOut := [1028, 1030], [1032, 1034];
            }
            usageIn, usageOut := usIn, usOut;
            encivecIn := [initState(usIn[0]), initState(usIn[1])];
            encivecOut := [initState(usOut[0]), initState(usOut[1])];
        }
      }
    }

    /** `v5_des_write`; `aborted` stands for the call of abort(). */
    method Write(buf: seq<byte>, secondary: nat) returns (ret: int, aborted: bool, packet: seq<byte>)
      requires Valid() && secondary < 2 && |buf| < 0x1_0000_0000
      modifies this`encivecOut
      ensures Valid() && Stored() == old(Stored())
      ensures !aborted && ret == |buf| <==> Writable(setup, buf)
      ensures Writable(setup, buf) ==>
                && packet == Packet(setup, usageOut[secondary], old(encivecOut[secondary]), buf)
                && encivecOut == old(encivecOut)[secondary :=
                     NextState(setup, usageOut[secondary], old(encivecOut[secondary]), buf)]
      ensures !Writable(setup, buf) ==> packet == [] && encivecOut == old(encivecOut) && ret == -1
      ensures aborted <==> setup.useIvecs && |buf| + 4 > TMPBUF
    {
      ret, aborted, packet := -1, false, [];
      var plain := buf;
      if setup.useIvecs {
        if |buf| + 4 > TMPBUF {
          return -1, true, [];
        }
        plain := BigEndian(|buf|) + buf;
      }
      if setup.cipher.length(|plain|) > BUFFER {
        return -1, false, [];
      }
      var st := if setup.useIvecs then encivecOut[secondary] else [];
      var (cipher, st') := setup.cipher.encrypt(usageOut[secondary], st, plain);
      if setup.useIvecs {
        encivecOut := encivecOut[secondary := st'];
      }
      packet := BigEndian(|buf|) + cipher;
      ret := |buf|;
    }

    /** `v5_des_read` with a buffer of `len` octets; `wire` is all that will still arrive on the descriptor. */
    method Read(wire: seq<byte>, len: nat, secondary: nat, delivers: nat -> nat)
      returns (ret: int, buf: seq<byte>, rest: seq<byte>)
      requires Valid() && secondary < 2
      modifies this`nstored, this`storePtr, this`encivecIn, storage
      ensures Valid()
      ensures var r := ReadSpec(setup, usageIn[secondary], old(encivecIn[secondary]), old(Stored()), wire, len);
              && ret == r.ret && buf == r.buf && rest == r.rest && Stored() == r.stored
              && encivecIn == old(encivecIn)[secondary := r.state]
    {
      hide Fetch, Lawful, Stored;
      ghost var stored, st := Stored(), encivecIn[secondary];
      assert encivecIn[secondary := st] == encivecIn;
      if nstored >= len {
        buf := Take(len);
        return len, buf, wire;
      }
      buf := Take(nstored);
      assert buf == stored;
      ret, rest := ReadRecord(wire, secondary, delivers);
      if ret > 0 {
        var more := TakeUpTo(len - |buf|);
        buf := buf + more;
        ret := |buf|;
      }
    }

    /** memcpy from the store, which then begins behind what was copied. */
    method Take(n: nat) returns (data: seq<byte>)
      requires Valid() && n <= nstored
      modifies this`nstored, this`storePtr
      ensures Valid() && nstored == old(nstored) - n
      ensures data == old(Stored())[..n] && Stored() == old(Stored())[n..]
    {
      ghost var stored := Stored();
      data := storage[storePtr..storePtr + n];
      assert data == stored[..n] && storage[storePtr + n..storePtr + nstored] == stored[n..];
      storePtr, nstored := storePtr + n, nstored - n;
    }

    /** As much of `want` octets as the store has. */
    method TakeUpTo(want: nat) returns (data: seq<byte>)
      requires Valid()
      modifies this`nstored, this`storePtr
      ensures Valid()
      ensures var stored := old(Stored());
              if |stored| > want then data == stored[..want] && Stored() == stored[want..]
              else data == stored && Stored() == []
    {
      hide Stored;
      data := Take(if nstored > want then want else nstored);
    }

    /** One record off the wire and into the empty store. */
    method ReadRecord(wire: seq<byte>, secondary: nat, delivers: nat -> nat) returns (ret: int, rest: seq<byte>)
      requires Valid() && secondary < 2 && nstored == 0
      modifies this`nstored, this`storePtr, this`encivecIn, storage
      ensures Valid()
      ensures var f := Fetch(setup, usageIn[secondary], old(encivecIn[secondary]), wire);
              && ret == f.ret && rest == f.rest && Stored() == f.stored
              && encivecIn == old(encivecIn)[secondary := f.state]
    {
      hide FetchBody, Lawful;
      var found, c;
      found, c, rest := FindLength(wire, delivers);
      if !found {
        return 0, rest;
      }
      var more;
      more, rest := FullRead(rest, 3, delivers);
      if |more| != 3 {
        return 0, rest;
      }
      assert [c] + more == [c, more[0], more[1], more[2]];
      ret, rest := ReadBody(FromBigEndian([c] + more), rest, secondary, delivers);
    }

    /** Skip to an octet that can start a length; with `do_lencheck` set only a zero can. */
    method FindLength(wire: seq<byte>, delivers: nat -> nat) returns (found: bool, c: byte, rest: seq<byte>)
      ensures Sync(setup.lencheck, wire) == if found then Some((c, rest)) else None
      ensures !found ==> rest == []
    {
      rest := wire;
      while true
        invariant Sync(setup.lencheck, rest) == Sync(setup.lencheck, wire)
        decreases |rest|
      {
        var octet;
        octet, rest := FullRead(rest, 1, delivers);
        if |octet| != 1 {
          return false, 0, rest;
        }
        if octet[0] == 0 || !setup.lencheck {
          return true, octet[0], rest;
        }
      }
    }

    /** The cleartext goes to the front of the store, where `n` octets of it are what is stored. */
    method Keep(plain: seq<byte>, n: nat)
      requires Valid() && n <= |plain| <= BUFFER
      modifies this`nstored, this`storePtr, storage
      ensures Valid() && storePtr == 0 && nstored == n
      ensures storage[..|plain|] == plain && Stored() == plain[..n]
    {
      forall i | 0 <= i < |plain| {
        storage[i] := plain[i];
      }
      storePtr, nstored := 0, n;
      assert storage[..|plain|] == plain;
      assert storage[0..0 + n] == plain[..n];
    }

    /** `store_ptr += 4`, past the length in front of the cleartext. */
    method PassLength(ghost plain: seq<byte>)
      requires Valid() && storePtr == 0 && nstored + 4 <= |plain| <= BUFFER && storage[..|plain|] == plain
      modifies this`storePtr
      ensures Valid() && Stored() == plain[4..4 + nstored]
    {
      storePtr := storePtr + 4;
      forall i | 4 <= i < 4 + nstored
        ensures storage[i] == plain[i]
      {
        assert storage[..|plain|][i] == plain[i];
      }
    }

    /** From the known length of a record to its cleartext in the store. */
    method ReadBody(rdLen: nat, wire: seq<byte>, secondary: nat, delivers: nat -> nat)
      returns (ret: int, rest: seq<byte>)
      requires Valid() && secondary < 2 && nstored == 0
      modifies this`nstored, this`storePtr, this`encivecIn, storage
      ensures Valid()
      ensures var f := FetchBody(setup, usageIn[secondary], old(encivecIn[secondary]), rdLen, wire);
              && ret == f.ret && rest == f.rest && Stored() == f.stored
              && encivecIn == old(encivecIn)[secondary := f.state]
    {
      hide Lawful, Stored;
      assert encivecIn[secondary := encivecIn[secondary]] == encivecIn;
      assert Stored() == [];
      rest := wire;
      var netLen := setup.cipher.length(if setup.useIvecs then rdLen + 4 else rdLen);
      if netLen <= 0 || netLen > BUFFER {
        return -1, rest;
      }
      var body;
      body, rest := FullRead(rest, netLen, delivers);
      if |body| != netLen {
        return -1, rest;
      }
      var st := if setup.useIvecs then encivecIn[secondary] else [];
      var d := setup.cipher.decrypt(usageIn[secondary], st, body);
      if d == None {
        return -1, rest;
      }
      var (plain, st') := d.value;
      OpenedLength(setup.cipher, usageIn[secondary], st, body, if setup.useIvecs then rdLen + 4 else rdLen);
      if setup.useIvecs {
        encivecIn := encivecIn[secondary := st'];
      }
      Keep(plain, rdLen);
      if setup.useIvecs {
        assert storage[..4] == plain[..4];
        if FromBigEndian(storage[..4]) != rdLen {
          return -1, rest;
        }
        PassLength(plain);
      }
      ret := 1;
    }
  }

  /** What either side puts on the wire first on a channel, in terms of the Kerberos library's functions alone:
      the length in the clear, then the text enciphered under the usage of side and channel, from the state that
      the library makes for that usage or a block of one octet; under the old protocol without a state. */
  method FirstRecord(cipher: Cipher, e: Enctype, lencheck: bool, amClient: bool, newProtocol: bool, secondary: nat,
                     buf: seq<byte>)
    returns (ret: int, packet: seq<byte>)
    requires Lawful(cipher) && secondary < 2 && |buf| < 0x1_0000_0000
    ensures ret == |buf| ==>
              var length := [|buf| / 0x100_0000, |buf| / 0x1_0000 % 0x100, |buf| / 0x100 % 0x100, |buf| % 0x100];
              var usage := (if amClient then 1032 else 1028) + 2 * secondary;
              var octet := (if amClient then 0 else 1) + 2 * secondary;
              packet == length +
                if !newProtocol then cipher.encrypt(1026, [], buf).0
                else match e
                     case WithUsages(initState) => cipher.encrypt(usage, initState(usage), length + buf).0
                     case WithIvec(size) => cipher.encrypt(1026, Block(octet, size), length + buf).0
    ensures ret == |buf| <==>
              if newProtocol then |buf| + 4 <= 10248 && cipher.length(|buf| + 4) <= 10240
              else cipher.length(|buf|) <= 10240
    ensures ret != |buf| ==> packet == []
  {
    var stream := new Stream(cipher, e, lencheck, amClient, newProtocol);
    assert secondary == 0 || secondary == 1;
    assert newProtocol && e.WithUsages? ==>
        && stream.usageOut[secondary] == (if amClient then 1032 else 1028) + 2 * secondary
        && stream.encivecOut[secondary] == e.initState(stream.usageOut[secondary]);
    assert newProtocol && e.WithIvec? ==>
        stream.encivecOut[secondary] == Block((if amClient then 0 else 1) + 2 * secondary, e.blocksize);
    var aborted;
    ret, aborted, packet := stream.Write(buf, secondary);
  }
}
