/** ASCII transfers over a protected data channel: the character loops of gssftp/ftpd/ftpd.c and
    gssftp/ftp/ftp.c on top of the queue of gssftp/ftp/secure.c. */
module FtpProtected {
  import opened Bytes
  import opened Wrappers
  import opened FtpSecure
  import opened FtpSecureStreams
  import opened FtpAscii
  import opened FtpAsciiLaws

  /** `secure_getc` until it returns something negative; None if that is an error. */
  ghost function Getcs(m: Mechanism, s: Inbox): (Option<seq<byte>>, Inbox)
    requires FtpSecure.Lawful(m)
    decreases |s.unread| + |s.input|
  {
    NextShrinks(m, s);
    match Next(m, s)
    case (Bad, s') => (None, s')
    case (End, s') => (Some([]), s')
    case (Byte(b), s') =>
      match Getcs(m, s')
      case (None, s'') => (None, s'')
      case (Some(more), s'') => (Some([b] + more), s'')
  }

  lemma {:induction false} GetcsDeliver(m: Mechanism, s: Inbox, blocks: seq<seq<byte>>, after: Inbox)
    requires FtpSecure.Lawful(m) && Holds(m, s, blocks, after)
    ensures Getcs(m, s) == (Some(FtpSecureStreams.Left(s, blocks)), after)
    decreases |FtpSecureStreams.Left(s, blocks)|
  {
    hide FtpSecure.Lawful, Holds, FtpSecureStreams.Left, Next;
    var data := FtpSecureStreams.Left(s, blocks);
    var blocks' := NextDelivers(m, s, blocks, after);
    if data != [] {
      GetcsDeliver(m, Next(m, s).1, blocks', after);
      assert [data[0]] + data[1..] == data;
    }
  }

  /** One `secure_putc` for each octet. */
  function Putcs(w: seq<byte>): seq<seq<byte>> {
    if w == [] then [] else [[w[0]]] + Putcs(w[1..])
  }

  lemma {:induction false} PutcsAreAll(w: seq<byte>)
    ensures Flat(Putcs(w)) == w
    decreases |w|
  {
    if w != [] {
      PutcsAreAll(w[1..]);
      assert Putcs(w)[1..] == Putcs(w[1..]) && w == [w[0]] + w[1..];
    }
  }

  /** A text file sent character by character over the protected channel and flushed, and received character
      by character, arrives without the NULs that follow a CR, and the channel stands at what comes after. */
  lemma ProtectedText(m: Mechanism, n: nat, file: seq<byte>, more: seq<byte>)
    requires FtpSecure.Lawful(m)
    ensures var o := AfterCalls(m, Outbox([], n, []), Putcs(Send(file)));
      var (text, s) := Getcs(m, Inbox([], n, o.wire + more));
      && text.Some? && s == Inbox([], o.sealed, more) && o.queue == []
      && Receive(text.value, false) == Received(DropNul(file), 0)
      && (Receive(text.value, false).file == file <==> !HasCrNul(file))
  {
    hide FtpSecure.Lawful, Getcs, Receive, Send, Frames, FtpSecureStreams.Sent, AfterCalls;
    LimitFits(m);
    var w := Send(file);
    var o := AfterCalls(m, Outbox([], n, []), Putcs(w));
    PutcsAreAll(w);
    CallsSend(m, Outbox([], n, []), Putcs(w));
    var blocks := BlocksOfTransfer(m, Putcs(w));
    var wire := Frames(m, n, blocks + [[]]);
    assert o.wire == wire by {
      assert [] + wire == wire;
    }
    var s := Inbox([], n, o.wire + more);
    assert Holds(m, s, blocks, Inbox([], o.sealed, more));
    assert FtpSecureStreams.Left(s, blocks) == w;
    GetcsDeliver(m, s, blocks, Inbox([], o.sealed, more));
    ReceivedIsSent(file);
    TransferIsIdentity(file);
  }
}
