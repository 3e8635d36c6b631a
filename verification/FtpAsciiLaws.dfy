/** What an ASCII transfer, whole or resumed, preserves. */
module FtpAsciiLaws {
  import opened Bytes
  import opened Wrappers
  import opened FtpAscii

  // ---------- whole transfers ----------

  /** The data without each NUL that directly follows a CR. */
  function DropNul(s: seq<byte>): (r: seq<byte>)
    ensures |r| <= |s| && (s != [] ==> r != [] && r[0] == s[0])
  {
    if s == [] then [] else [s[0]] + DropNul(if s[0] == CR && |s| > 1 && s[1] == NUL then s[2..] else s[1..])
  }

  predicate HasCrNul(s: seq<byte>) { exists i :: 0 <= i < |s| - 1 && s[i] == 13 && s[i + 1] == 0 }

  lemma CrNulSplits(s: seq<byte>)
    requires s != []
    ensures HasCrNul(s) <==> (|s| > 1 && s[0] == CR && s[1] == NUL) || HasCrNul(s[1..])
  {
    if i :| 0 <= i < |s| - 1 && s[i] == CR && s[i + 1] == NUL {
      if i > 0 {
        assert s[1..][i - 1] == CR && s[1..][i] == NUL;
      }
    }
    if i :| 0 <= i < |s[1..]| - 1 && s[1..][i] == CR && s[1..][i + 1] == NUL {
      assert s[i + 1] == CR && s[i + 2] == NUL;
    }
  }

  lemma {:induction false} DropsOnlyCrNul(s: seq<byte>)
    ensures DropNul(s) == s <==> !HasCrNul(s)
    ensures HasCrNul(s) ==> |DropNul(s)| < |s|
    decreases |s|
  {
    if s != [] {
      CrNulSplits(s);
      if s[0] == CR && |s| > 1 && s[1] == NUL {
      } else {
        DropsOnlyCrNul(s[1..]);
        assert s == [s[0]] + s[1..];
      }
    }
  }

  /** The server's receiver gives back what was sent, without the NULs that follow a CR, and finds no bare
      line feed. */
  lemma {:induction false} ReceivedIsSent(d: seq<byte>)
    ensures Receive(Send(d), false) == Received(DropNul(d), 0)
    decreases |d|, 1
  {
    hide After, Send, DropNul;
    SendFront(CR, []);
    DropFront(d);
    if d != [] {
      var rest := Send(d[1..]);
      assert d == [d[0]] + d[1..];
      SendFront(d[0], d[1..]);
      AfterIs([d[0]], DropNul(d[1..]));
      if d[0] == LF {
        assert ([CR, LF] + rest)[2..] == rest;
        ReceivedIsSent(d[1..]);
      } else {
        assert ([d[0]] + rest)[1..] == rest;
        if d[0] != CR || |d| == 1 {
          ReceivedIsSent(d[1..]);
        } else {
          CrThenSent(d);
        }
      }
    }
  }

  /** What follows a CR. */
  lemma CrThenSent(d: seq<byte>)
    requires |d| > 1 && d[0] == CR
    ensures Receive([CR] + Send(d[1..]), false) == Received(DropNul(d), 0)
    decreases |d|, 0
  {
    hide After, Send, DropNul, Receive;
    var u := d[2..];
    var rest := Send(u);
    assert d[1..] == [d[1]] + u && d[1..][1..] == u;
    SendFront(d[1], u);
    DropFront(d);
    DropFront(d[1..]);
    if d[1] == CR || d[1] == LF {
      var more := if d[1] == CR then rest else [LF] + rest;
      assert Send(d[1..]) == [CR] + more;
      ReceiveAfterCr(CR, more);
      ReceivedIsSent(d[1..]);
      AfterIs([CR], DropNul(d[1..]));
    } else {
      ReceiveAfterCr(d[1], rest);
      ReceivedIsSent(u);
      AfterIs([CR], DropNul(u));
      AfterIs([CR, d[1]], DropNul(u));
      assert [CR] + ([d[1]] + DropNul(u)) == [CR, d[1]] + DropNul(u);
    }
  }

  lemma ReceiveAfterCr(c: byte, rest: seq<byte>)
    ensures Receive([CR] + ([c] + rest), false) ==
      if c == LF then After([LF], 0, Receive(rest, false))
      else if c == NUL then After([CR], 0, Receive(rest, false))
      else if c == CR then After([CR], 0, Receive([c] + rest, false))
      else After([CR, c], 0, Receive(rest, false))
  {
    hide After;
    var w := [CR] + ([c] + rest);
    assert w[1..] == [c] + rest && w[2..] == rest;
  }

  lemma DropFront(s: seq<byte>)
    ensures DropNul([]) == []
    ensures s != [] ==> DropNul(s) == [s[0]] + DropNul(if s[0] == CR && |s| > 1 && s[1] == NUL then s[2..] else s[1..])
  {
  }

  lemma AfterIs(a: seq<byte>, f: seq<byte>)
    ensures After(a, 0, Received(f, 0)) == Received(a + f, 0)
  {
  }

  /** A transfer of a file, in either direction, is the identity exactly on data without CR NUL. */
  lemma TransferIsIdentity(d: seq<byte>)
    ensures Receive(Send(d), false).file == d <==> !HasCrNul(d)
  {
    ReceivedIsSent(d);
    DropsOnlyCrNul(d);
  }

  /** A line of a file goes out as it is, and CR LF where the file has LF. */
  lemma {:induction false} LineGoesOut(line: seq<byte>, more: seq<byte>)
    requires 10 !in line
    ensures Send(line) == line && Send(line + [10] + more) == line + [13, 10] + Send(more)
    decreases |line|
  {
    hide Send;
    if line == [] {
      SendFront(10, more);
      assert [] + [10] + more == [10] + more && [] + [13, 10] == [13, 10];
    } else {
      LineGoesOut(line[1..], more);
      assert line == [line[0]] + line[1..];
      assert line + [10] + more == [line[0]] + (line[1..] + [10] + more);
      SendFront(line[0], line[1..]);
      SendFront(line[0], line[1..] + [10] + more);
      assert [line[0]] + (line[1..] + [13, 10] + Send(more)) == line + [13, 10] + Send(more);
    }
  }

  /** What comes without CR is stored as it is; a CR at the end or before a CR is itself, with NUL it is CR, with
      LF it is LF, unless the client keeps the CR, and with anything else it is what it is. */
  lemma {:induction false} LineComesIn(line: seq<byte>, c: byte, more: seq<byte>, keepCr: bool)
    requires 13 !in line
    ensures Receive(line, keepCr).file == line && Receive(line + [13], keepCr).file == line + [13]
    ensures Receive(line + [13, c] + more, keepCr).file == line
      + (if c == 13 || c == 0 then [13] else if c == 10 && !keepCr then [10] else [13, c])
      + Receive(if c == 13 then [13] + more else more, keepCr).file
    decreases |line|
  {
    hide Receive;
    if line == [] {
      CrComesIn(c, more, keepCr);
      assert [] + [13] == [13] && [] + [13, c] + more == [13, c] + more;
    } else {
      var x, rest := line[0], line[1..];
      LineComesIn(rest, c, more, keepCr);
      OctetComesIn(x, rest, keepCr);
      OctetComesIn(x, rest + [13], keepCr);
      OctetComesIn(x, rest + [13, c] + more, keepCr);
      assert line == [x] + rest && line + [13] == [x] + (rest + [13]);
      assert line + [13, c] + more == [x] + (rest + [13, c] + more);
    }
  }

  lemma OctetComesIn(x: byte, rest: seq<byte>, keepCr: bool)
    requires x != 13
    ensures Receive([x] + rest, keepCr).file == [x] + Receive(rest, keepCr).file
  {
    assert ([x] + rest)[1..] == rest;
  }

  lemma CrComesIn(c: byte, more: seq<byte>, keepCr: bool)
    ensures Receive([], keepCr).file == [] && Receive([13], keepCr).file == [13]
    ensures Receive([13, c] + more, keepCr).file
      == (if c == 13 || c == 0 then [13] else if c == 10 && !keepCr then [10] else [13, c])
      + Receive(if c == 13 then [13] + more else more, keepCr).file
  {
    var w := [13, c] + more;
    assert w[1..] == [c] + more && w[2..] == more;
  }

  lemma DropsNeither(w: seq<byte>)
    requires |w| > 1 && w[0] == CR && w[1] != CR && w[1] != NUL
    ensures DropNul(w) == [CR, w[1]] + DropNul(w[2..])
  {
    var rest := DropNul(w[2..]);
    assert w[1..][1..] == w[2..];
    assert DropNul(w[1..]) == [w[1]] + rest;
    assert DropNul(w) == [CR] + ([w[1]] + rest) == [CR, w[1]] + rest;
  }

  /** A client that does not strip stores the wire form itself, but for the NULs. */
  lemma {:induction false} UnstrippedIsWire(w: seq<byte>)
    ensures Receive(w, true).file == DropNul(w)
    decreases |w|
  {
    if |w| > 1 && w[0] == CR && w[1] != CR {
      UnstrippedIsWire(w[2..]);
      if w[1] != NUL {
        DropsNeither(w);
      }
    } else if w != [] {
      UnstrippedIsWire(w[1..]);
      if |w| == 1 {
        assert w[1..] == [];
      }
    }
  }

  /** The line feeds in `w` that do not stand behind a CR; `behindCr` tells what stands before `w`. */
  function BareLfs(w: seq<byte>, behindCr: bool): nat {
    if w == [] then 0
    else (if w[0] == 10 && !behindCr then 1 else 0) + BareLfs(w[1..], w[0] == 13)
  }

  /** Exactly those are counted, whether the client strips or not. */
  lemma {:induction false} BareLfsAreCounted(w: seq<byte>, keepCr: bool)
    ensures Receive(w, keepCr).bare == BareLfs(w, false)
    decreases |w|
  {
    if w != [] {
      if w[0] != CR || |w| == 1 || w[1] == CR {
        BareLfsAreCounted(w[1..], keepCr);
      } else {
        assert w[1..][1..] == w[2..];
        BareLfsAreCounted(w[2..], keepCr);
      }
    }
  }

  /** The other way round: a file received is sent again as the same octets exactly if no line feed came
      bare and no CR NUL came at all. */
  lemma SentAgain(w: seq<byte>)
    ensures Send(Receive(w, false).file) == w <==> Receive(w, false).bare == 0 && !HasCrNul(w)
  {
    var r := Receive(w, false);
    if r.bare == 0 && !HasCrNul(w) {
      CleanIsSentAgain(w);
    }
    if Send(r.file) == w {
      ReceivedIsSent(r.file);
      DropsOnlyCrNul(r.file);
      SendAddsNoCrNul(r.file);
    }
  }

  lemma {:induction false} CleanIsSentAgain(w: seq<byte>)
    requires Receive(w, false).bare == 0 && !HasCrNul(w)
    ensures Send(Receive(w, false).file) == w
    decreases |w|
  {
    hide Send, After;
    if w == [CR] || w == [] {
      SendFront(CR, []);
      assert [CR] + [] == [CR];
    } else {
      CrNulSplits(w);
      if w[0] == CR && w[1] != CR {
        CrNulSplits(w[1..]);
        var r := Receive(w[2..], false);
        assert w[1..][1..] == w[2..] && w == [CR] + ([w[1]] + w[2..]);
        AfterParts([w[1]], 0, r);
        AfterParts([CR, w[1]], 0, r);
        assert [CR, w[1]] + r.file == [CR] + ([w[1]] + r.file);
        SendFront(w[1], r.file);
        SendFront(CR, [w[1]] + r.file);
        assert [CR, LF] + w[2..] == [CR] + ([LF] + w[2..]);
        CleanIsSentAgain(w[2..]);
      } else {
        var r := Receive(w[1..], false);
        assert w == [w[0]] + w[1..];
        AfterParts([w[0]], if w[0] == LF then 1 else 0, r);
        SendFront(w[0], r.file);
        CleanIsSentAgain(w[1..]);
      }
    }
  }

  lemma AfterParts(a: seq<byte>, n: nat, r: Received)
    ensures After(a, n, r).file == a + r.file && After(a, n, r).bare == n + r.bare
  {
  }

  lemma SendFront(x: byte, f: seq<byte>)
    ensures Send([]) == [] && Send([x] + f) == (if x == LF then [CR, LF] else [x]) + Send(f)
  {
    assert ([x] + f)[1..] == f;
  }

  lemma {:induction false} SendAddsNoCrNul(d: seq<byte>)
    ensures HasCrNul(Send(d)) <==> HasCrNul(d)
    decreases |d|
  {
    if d != [] {
      SendAddsNoCrNul(d[1..]);
      CrNulSplits(d);
      var w, rest := Send(d), Send(d[1..]);
      CrNulSplits(w);
      if d[0] == LF {
        assert w == [CR, LF] + rest && w[1..] == [LF] + rest && w[1..][1..] == rest;
        CrNulSplits(w[1..]);
      } else {
        assert w == [d[0]] + rest && w[1..] == rest;
        if |d| > 1 {
          assert rest[0] == if d[1] == LF then CR else d[1];
        }
      }
    }
  }

  // ---------- restart ----------

  /** How many characters of the file the skip loops of `retrieve`, `store_file` and `recvrequest` read for
      a restart point `n`: line feeds count twice.  None if the file ends first. */
  function Skip(file: seq<byte>, n: int): Option<nat> {
    if n <= 0 then Some(0)
    else if file == [] then None
    else match Skip(file[1..], n - if file[0] == LF then 2 else 1)
      case None => None
      case Some(k) => Some(k + 1)
  }

  /** The skip loop. */
  method SkipTo(file: seq<byte>, n: nat) returns (ok: bool, k: nat)
    ensures Skip(file, n) == if ok then Some(k) else None
  {
    var i := 0;
    k := 0;
    assert file[0..] == file;
    while i < n
      invariant 0 <= i && k <= |file|
      invariant match Skip(file[k..], n - i)
        case None => Skip(file, n) == None
        case Some(m) => Skip(file, n) == Some(k + m)
      decreases |file| - k
    {
      i := i + 1;
      if k == |file| {
        return false, k;
      }
      var c := file[k];
      assert file[k..][1..] == file[k + 1..];
      k := k + 1;
      if c == LF {
        i := i + 1;
      }
    }
    ok := true;
  }

  /** The loop stops at the first character at which the wire form has reached the restart point, and fails
      exactly if it never does. */
  lemma {:induction false} SkipIsWireOffset(file: seq<byte>, n: int)
    ensures Skip(file, n).Some? <==> n <= |Send(file)|
    ensures Skip(file, n).Some? ==> var k := Skip(file, n).value;
      && k <= |file| && n <= |Send(file[..k])| && (forall j :: 0 <= j < k ==> |Send(file[..j])| < n)
    decreases |file|
  {
    if n > 0 && file != [] {
      var width := if file[0] == LF then 2 else 1;
      SkipIsWireOffset(file[1..], n - width);
      if Skip(file, n).Some? {
        var k := Skip(file, n).value;
        forall j | 0 <= j <= |file|
          ensures |Send(file[..j])| == if j == 0 then 0 else width + |Send(file[1..][..j - 1])|
        {
          if j > 0 {
            assert file[..j][1..] == file[1..][..j - 1];
          }
        }
      }
    }
  }

  /** Only the part of the file that is skipped matters. */
  lemma {:induction false} SkipOfPrefix(file: seq<byte>, more: seq<byte>, n: int)
    requires Skip(file, n).Some?
    ensures Skip(file + more, n) == Skip(file, n)
    decreases |file|
  {
    if n > 0 && file != [] {
      assert (file + more)[1..] == file[1..] + more;
      SkipOfPrefix(file[1..], more, n - if file[0] == LF then 2 else 1);
    }
  }

  /** Writing at a position of a file opened for update. */
  function Patched(file: seq<byte>, k: nat, data: seq<byte>): seq<byte>
    requires k <= |file|
  {
    file[..k] + data + if k + |data| < |file| then file[k + |data|..] else []
  }

  /** A download resumed at any wire offset of the local part, even inside a CR LF: both skip loops stop at
      the same character.  What is kept and what is received are together the remote file exactly if no NUL
      follows a CR from there on.  The local file is not cut: while it is shorter than the remote one it ends
      as the remote one on that same condition; if it is complete already, it stays so exactly if what is
      received repeats what stands there. */
  lemma DownloadResumes(local: seq<byte>, remote: seq<byte>, n: nat)
    requires local <= remote && n <= |Send(local)|
    ensures Skip(local, n).Some? && Skip(remote, n) == Skip(local, n)
    ensures var k := Skip(local, n).value; k <= |local|
    ensures var k := Skip(local, n).value; var got := Receive(Send(remote[k..]), false).file;
      && (local[..k] + got == remote <==> !HasCrNul(remote[k..]))
      && (local < remote ==> (Patched(local, k, got) == remote <==> !HasCrNul(remote[k..])))
      && (local == remote ==> (Patched(local, k, got) == remote <==> DropNul(remote[k..]) <= remote[k..]))
  {
    hide Send, Receive, Skip, HasCrNul, DropNul;
    SkipIsWireOffset(local, n);
    SkipOfPrefix(local, remote[|local|..], n);
    assert local + remote[|local|..] == remote;
    var k := Skip(local, n).value;
    ReceivedIsSent(remote[k..]);
    DropsOnlyCrNul(remote[k..]);
    var got := DropNul(remote[k..]);
    assert local[..k] == remote[..k];
    Joined(remote, k, k, got);
    PatchedIs(local, remote, k, got);
  }

  /** A part of the whole and the rest from somewhere make the whole only if nothing is lost between. */
  lemma Joined(whole: seq<byte>, k: nat, n: nat, got: seq<byte>)
    requires k <= n <= |whole| && |got| <= |whole| - n
    ensures whole[..k] + got == whole <==> k == n && got == whole[n..]
  {
    assert whole == whole[..n] + whole[n..];
    if whole[..k] + got == whole {
      assert k == n;
      assert got == (whole[..k] + got)[k..];
    }
  }

  /** A file that begins the whole, overwritten from `k` on. */
  lemma PatchedIs(file: seq<byte>, whole: seq<byte>, k: nat, got: seq<byte>)
    requires file <= whole && k <= |file| && k + |got| <= |whole|
    ensures file < whole ==> (Patched(file, k, got) == whole <==> whole[..k] + got == whole)
    ensures file == whole ==> (Patched(file, k, got) == whole <==> got <= whole[k..])
  {
    assert file[..k] == whole[..k];
    var p := Patched(file, k, got);
    if file == whole {
      assert p[k..k + |got|] == got;
      if got <= whole[k..] {
        assert got == whole[k..][..|got|] == whole[k..k + |got|];
        assert p == whole[..k] + whole[k..k + |got|] + whole[k + |got|..];
      }
    } else if k + |got| < |file| {
      assert |p| == |file| < |whole|;
    } else {
      assert p == whole[..k] + got + [];
    }
  }

  /** An upload is another matter: the client seeks to octet n of its file, the server skips n octets of
      wire form.  While the server's part is shorter, the file is restored exactly if no line feed stands
      before the last of the n octets and no NUL follows a CR behind them.  If the server has all of it
      already, it stays so exactly if what is received repeats what stands where it is written. */
  lemma UploadResumes(local: seq<byte>, remote: seq<byte>, n: nat)
    requires remote <= local && n <= |Send(remote)| && n <= |local|
    ensures Skip(remote, n).Some? && Skip(remote, n).value <= |remote|
    ensures var k := Skip(remote, n).value; var got := Receive(Send(local[n..]), false).file;
      && (remote < local ==>
            (Patched(remote, k, got) == local <==> LF !in local[..Before(n)] && !HasCrNul(local[n..])))
      && (remote == local ==> (Patched(remote, k, got) == local <==> DropNul(local[n..]) <= local[k..]))
  {
    hide Send, Receive, Skip, HasCrNul, DropNul;
    SkipIsWireOffset(remote, n);
    var k := Skip(remote, n).value;
    ReceivedIsSent(local[n..]);
    DropsOnlyCrNul(local[n..]);
    var got := DropNul(local[n..]);
    SkipWithoutLf(remote, n);
    assert k == n <==> LF !in local[..Before(n)] by {
      if n <= |remote| {
        assert remote[..Before(n)] == local[..Before(n)];
      } else {
        PlainLength(remote);
        assert forall i :: 0 <= i < |remote| ==> remote[i] == local[..Before(n)][i];
      }
    }
    Joined(local, k, n, got);
    PatchedIs(remote, local, k, got);
  }

  /** Four line feeds, all there already: writing three of them one place too early changes nothing. */
  lemma CompleteUploadMayStay()
    ensures var file := [LF, LF, LF, LF];
      && Skip(file, 2) == Some(1) && LF in file[..Before(2)]
      && Patched(file, 1, Receive(Send(file[2..]), false).file) == file
  {
    var file := [LF, LF, LF, LF];
    assert file[1..] == [LF, LF, LF] && Skip([LF, LF, LF], 0) == Some(0);
    assert file[2..] == [LF, LF] && [LF, LF][1..] == [LF] && [LF][1..] == [];
    ReceivedIsSent([LF, LF]);
    assert DropNul([LF]) == [LF] && DropNul([LF, LF]) == [LF, LF];
    assert file[..1] + [LF, LF] + file[3..] == file;
    assert LF == file[..1][0];
  }

  function Before(n: nat): nat { if n == 0 then 0 else n - 1 }

  lemma {:induction false} PlainLength(s: seq<byte>)
    ensures LF !in s ==> |Send(s)| == |s|
    decreases |s|
  {
    if s != [] {
      PlainLength(s[1..]);
    }
  }

  lemma {:induction false} SkipWithoutLf(file: seq<byte>, n: nat)
    requires Skip(file, n).Some?
    ensures var k := Skip(file, n).value;
      k <= n && (k == n <==> n <= |file| && LF !in file[..Before(n)])
    decreases |file|
  {
    if n > 1 {
      if file[0] == LF {
        SkipWithoutLf(file[1..], n - 2);
        assert n <= |file| ==> file[..n - 1][0] == LF;
      } else {
        SkipWithoutLf(file[1..], n - 1);
        assert n <= |file| ==> file[..n - 1] == [file[0]] + file[1..][..n - 2];
      }
    } else if n == 1 {
      assert Skip(file[1..], 0) == Some(0) && Skip(file[1..], -1) == Some(0);
    }
  }
}
