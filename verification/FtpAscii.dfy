/** ASCII type transfers and their restart (gssftp/ftpd/ftpd.c and gssftp/ftp/ftp.c), section 3.1.1.1 of
    RFC 959: a line end is LF in a file and CR LF on the wire. */
module FtpAscii {
  import opened Bytes

  const CR: byte := 13
  const LF: byte := 10
  const NUL: byte := 0

  // ---------- the wire form ----------

  function Send(file: seq<byte>): seq<byte> {
    if file == [] then [] else (if file[0] == LF then [CR, LF] else [file[0]]) + Send(file[1..])
  }

  /** What a receiver stores, and how many line feeds came without a CR before them. */
  datatype Received = Received(file: seq<byte>, bare: nat)

  function After(file: seq<byte>, bare: nat, r: Received): Received {
    Received(file + r.file, bare + r.bare)
  }

  /** `keepCr` is the client's tcrflag; the server never keeps the CR of a line end. */
  function Receive(w: seq<byte>, keepCr: bool): Received
    decreases |w|
  {
    if w == [] then Received([], 0)
    else if w[0] != CR then After([w[0]], if w[0] == LF then 1 else 0, Receive(w[1..], keepCr))
    else if |w| == 1 then Received([CR], 0)
    else if w[1] == LF && !keepCr then After([LF], 0, Receive(w[2..], keepCr))
    else if w[1] == NUL then After([CR], 0, Receive(w[2..], keepCr))
    else if w[1] == CR then After([CR], 0, Receive(w[1..], keepCr))
    else After([CR, w[1]], 0, Receive(w[2..], keepCr))
  }

  // ---------- the loops ----------

  lemma SendStep(file: seq<byte>, i: nat)
    requires i < |file|
    ensures Send(file[..i + 1]) == Send(file[..i]) + if file[i] == LF then [CR, LF] else [file[i]]
  {
    assert file[..i + 1] == file[..i] + [file[i]];
    SendConcat(file[..i], [file[i]]);
  }

  lemma {:induction false} SendConcat(a: seq<byte>, b: seq<byte>)
    ensures Send(a + b) == Send(a) + Send(b)
    decreases |a|
  {
    if a == [] {
      assert a + b == b;
    } else {
      assert (a + b)[1..] == a[1..] + b;
      SendConcat(a[1..], b);
    }
  }

  /** The TYPE_A loop of the server's `send_data`; `byte_count` counts octets of the file. */
  method SendData(instr: seq<byte>) returns (outstr: seq<byte>, byteCount: nat)
    ensures outstr == Send(instr) && byteCount == |instr|
  {
    outstr, byteCount := [], 0;
    while byteCount < |instr|
      invariant byteCount <= |instr| && outstr == Send(instr[..byteCount])
    {
      var c := instr[byteCount];
      SendStep(instr, byteCount);
      byteCount := byteCount + 1;
      if c == LF {
        outstr := outstr + [CR];
      }
      outstr := outstr + [c];
    }
    assert instr[..byteCount] == instr;
  }

  /** The TYPE_A loop of the client's `sendrequest`; `bytes` counts octets of the wire. */
  method SendRequest(fin: seq<byte>) returns (dout: seq<byte>, bytes: nat)
    ensures dout == Send(fin) && bytes == |dout|
  {
    dout, bytes := [], 0;
    var i := 0;
    while i < |fin|
      invariant 0 <= i <= |fin| && dout == Send(fin[..i]) && bytes == |dout|
    {
      var c := fin[i];
      SendStep(fin, i);
      i := i + 1;
      if c == LF {
        dout, bytes := dout + [CR], bytes + 1;
      }
      dout, bytes := dout + [c], bytes + 1;
    }
    assert fin[..i] == fin;
  }

  function Getc(s: seq<byte>, i: nat): int { if i < |s| then s[i] else EOF }

  /** The character just read, `c`, and those from `i` on: what they are received as. */
  function Pending(w: seq<byte>, i: nat, c: int, keepCr: bool): Received
    requires i <= |w| && c < 256
  {
    if c < 0 then Received([], 0)
    else if c == CR as int then Receive([CR] + w[i..], keepCr)
    else After([c], 0, Receive(w[i..], keepCr))
  }

  lemma AfterAfter(a: seq<byte>, m: nat, b: seq<byte>, n: nat, r: Received)
    ensures After(a, m, After(b, n, r)) == After(a + b, m + n, r)
    ensures After([], 0, r) == r
    ensures After(a, m, Received([], 0)) == Received(a, m)
  {
    assert a + (b + r.file) == a + b + r.file;
    assert [] + r.file == r.file && a + [] == a;
  }

  /** One turn of the inner loop: the character after a CR. */
  lemma PendingStep(w: seq<byte>, i: nat, keepCr: bool)
    requires i <= |w|
    ensures var c, i' := Getc(w, i), if i < |w| then i + 1 else i;
      Pending(w, i, CR, keepCr) ==
      if c == LF as int && !keepCr then Pending(w, i', c, keepCr)
      else if c == NUL as int then After([CR], 0, Receive(w[i'..], keepCr))
      else After([CR], 0, Pending(w, i', c, keepCr))
  {
    var s := [CR] + w[i..];
    assert s[1..] == w[i..];
    if i < |w| {
      assert s[2..] == w[i + 1..] && [w[i]] + w[i + 1..] == w[i..];
      if w[i] != CR {
        AfterAfter([CR], 0, [w[i]], 0, Receive(w[i + 1..], keepCr));
        assert [CR] + [w[i]] == [CR, w[i]];
      }
    }
  }

  lemma FirstStep(w: seq<byte>, i: nat, keepCr: bool)
    requires i < |w|
    ensures Receive(w[i..], keepCr) == After([], if w[i] == LF then 1 else 0, Pending(w, i + 1, w[i], keepCr))
  {
    assert w[i..][1..] == w[i + 1..] && w[i..] == [w[i]] + w[i + 1..];
    AfterAfter([], 0, [w[i]], 0, Receive(w[i + 1..], keepCr));
  }

  /** The TYPE_A loop of the server's `receive_data`. */
  method ReceiveData(instr: seq<byte>) returns (outstr: seq<byte>, bareLfs: nat)
    ensures Received(outstr, bareLfs) == Receive(instr, false)
  {
    hide Receive, Pending, After;
    outstr, bareLfs := [], 0;
    var i := 0;
    ghost var all := Receive(instr, false);
    Start(instr, false);
    while i < |instr|
      invariant 0 <= i <= |instr| && all == After(outstr, bareLfs, Receive(instr[i..], false))
      decreases |instr| - i
    {
      var c: int := instr[i];
      ghost var start := i;
      FirstStep(instr, i, false);
      Counted(outstr, bareLfs, c, Pending(instr, i + 1, c, false));
      i := i + 1;
      if c == LF as int {
        bareLfs := bareLfs + 1;
      }
      var dropped := false;
      while c == CR as int && !dropped
        invariant start < i <= |instr| && EOF <= c < 256 && (c < 0 ==> i == |instr|)
        invariant all == After(outstr, bareLfs,
          if dropped then Receive(instr[i..], false) else Pending(instr, i, c, false))
        decreases |instr| - i + (if c == CR as int then 1 else 0), !dropped
      {
        PendingStep(instr, i, false);
        c := Getc(instr, i);
        if i < |instr| {
          i := i + 1;
        }
        if c != LF as int {
          AfterAfter(outstr, bareLfs, [CR], 0,
            if c == NUL as int then Receive(instr[i..], false) else Pending(instr, i, c, false));
          outstr := outstr + [CR];
          if c == NUL as int {
            dropped := true;
          }
        }
      }
      if !dropped {
        PutStep(instr, i, c, false, outstr, bareLfs);
        if c < 0 {
          return;
        }
        outstr := outstr + [c];
      }
    }
    End(outstr, bareLfs, instr, false);
  }

  /** The TYPE_A loop of the client's `recvrequest`; `bytes` counts octets of the wire. */
  method RecvRequest(instr: seq<byte>, keepCr: bool) returns (outstr: seq<byte>, bareLfs: nat, bytes: nat)
    ensures Received(outstr, bareLfs) == Receive(instr, keepCr)
    ensures bytes == |instr|
  {
    hide Receive, Pending, After;
    outstr, bareLfs, bytes := [], 0, 0;
    var i := 0;
    ghost var all := Receive(instr, keepCr);
    Start(instr, keepCr);
    while i < |instr|
      invariant 0 <= i <= |instr| && all == After(outstr, bareLfs, Receive(instr[i..], keepCr)) && bytes == i
      decreases |instr| - i
    {
      var c: int := instr[i];
      ghost var start := i;
      FirstStep(instr, i, keepCr);
      Counted(outstr, bareLfs, c, Pending(instr, i + 1, c, keepCr));
      i := i + 1;
      if c == LF as int {
        bareLfs := bareLfs + 1;
      }
      var dropped := false;
      while c == CR as int && !dropped
        invariant start < i <= |instr| && EOF <= c < 256 && (c < 0 ==> i == |instr|)
        invariant bytes == if dropped || c < 0 then i else i - 1
        invariant all == After(outstr, bareLfs,
          if dropped then Receive(instr[i..], keepCr) else Pending(instr, i, c, keepCr))
        decreases |instr| - i + (if c == CR as int then 1 else 0), !dropped
      {
        PendingStep(instr, i, keepCr);
        bytes := bytes + 1;
        c := Getc(instr, i);
        if i < |instr| {
          i := i + 1;
        }
        if c != LF as int || keepCr {
          AfterAfter(outstr, bareLfs, [CR], 0,
            if c == NUL as int then Receive(instr[i..], keepCr) else Pending(instr, i, c, keepCr));
          outstr := outstr + [CR];
          if c == NUL as int {
            dropped := true;
            bytes := bytes + 1;
          }
        }
      }
      if !dropped {
        PutStep(instr, i, c, keepCr, outstr, bareLfs);
        if c < 0 {
          return;
        }
        outstr := outstr + [c];
        bytes := bytes + 1;
      }
    }
    End(outstr, bareLfs, instr, keepCr);
  }

  lemma Counted(out: seq<byte>, bare: nat, c: int, r: Received)
    ensures After(out, bare, After([], if c == LF as int then 1 else 0, r)) ==
      After(out, if c == LF as int then bare + 1 else bare, r)
  {
    assert [] + r.file == r.file;
  }

  lemma Start(w: seq<byte>, keepCr: bool)
    ensures Receive(w, keepCr) == After([], 0, Receive(w[0..], keepCr))
  {
    assert w[0..] == w;
    AfterAfter([], 0, [], 0, Receive(w, keepCr));
  }

  lemma PutStep(w: seq<byte>, i: nat, c: int, keepCr: bool, out: seq<byte>, bare: nat)
    requires i <= |w| && c < 256 && c != CR as int && (c < 0 ==> i == |w|)
    ensures After(out, bare, Pending(w, i, c, keepCr)) == if c < 0 then Received(out, bare)
      else After(out + [c], bare, Receive(w[i..], keepCr))
    ensures After(out, bare, Receive(w[|w|..], keepCr)) == Received(out, bare)
  {
    AfterAfter(out, bare, [], 0, Received([], 0));
    if c >= 0 {
      AfterAfter(out, bare, [c], 0, Receive(w[i..], keepCr));
    }
  }

  lemma End(out: seq<byte>, bare: nat, w: seq<byte>, keepCr: bool)
    ensures After(out, bare, Receive(w[|w|..], keepCr)) == Received(out, bare)
  {
    assert out + [] == out;
  }
}
