/** The loops of bsd/krcp.c that move file data and read replies, against what the step machines say. */
module RcpLoops {
  import opened RcpRecords
  import opened RcpProtocol

  /** The write loop of `source`: blocks of RCP_BUFSIZ octets and a shorter last one. */
  method SendBody(data: string) returns (wire: string)
    ensures wire == data
  {
    wire := "";
    var i := 0;
    while i < |data|
      invariant 0 <= i
      invariant wire == data[..if i <= |data| then i else |data|]
    {
      var amt := RCP_BUFSIZ;
      if i + amt > |data| {
        amt := |data| - i;
      }
      wire := wire + data[i..i + amt];
      i := i + RCP_BUFSIZ;
    }
  }

  /** `write` at a file offset. */
  function WrittenAt(content: string, offset: nat, data: string): string
    requires offset <= |content|
  {
    content[..offset] + data + if offset + |data| <= |content| then content[offset + |data|..] else ""
  }

  lemma WritesJoin(before: string, a: string, b: string)
    ensures WrittenAt(Overwritten(before, a), |a|, b) == Overwritten(before, a + b)
  {
  }

  /** The inner loop of `sink`: read until the buffer holds the `amt` octets wanted after its first `cp`;
      each read delivers at least one octet and at most what is asked for and has arrived. */
  method FillBlock(buf: array<char>, cp: nat, amt: nat, input: string, delivers: nat -> nat)
    returns (ok: bool)
    requires cp + amt <= buf.Length
    modifies buf
    ensures ok == (amt <= |input|)
    ensures ok ==> buf[..cp + amt] == old(buf[..cp]) + input[..amt]
  {
    ghost var was := buf[..];
    var left, got, k := amt, 0, 0;
    while left > 0
      invariant 0 <= left && 0 <= got <= |input| && got + left == amt && 0 <= k
      invariant forall x :: 0 <= x < cp ==> buf[x] == was[x]
      invariant forall x :: cp <= x < cp + got ==> buf[x] == input[x - cp]
    {
      if got == |input| {
        return false;
      }
      var j := if 1 <= delivers(k) then delivers(k) else 1;
      if j > left {
        j := left;
      }
      if j > |input| - got {
        j := |input| - got;
      }
      forall x | cp + got <= x < cp + got + j {
        buf[x] := input[x - cp];
      }
      left, got, k := left - j, got + j, k + 1;
    }
    assert buf[..cp + amt] == was[..cp] + input[..amt];
    ok := true;
  }

  /** The read loop of `sink`: however the octets arrive, the file gets the first `size` octets of the
      input and is cut there.  `ok` is false if the connection drops before that. */
  method ReceiveBody(input: string, delivers: nat -> nat, size: nat, before: string)
    returns (ok: bool, content: string, used: nat)
    ensures ok == (size <= |input|)
    ensures ok ==> used == size && content == input[..size]
    ensures ok ==> content == Truncated(Overwritten(before, input[..size]), size)
  {
    hide Overwritten, Truncated, Store;
    var buf := new char[RCP_BUFSIZ];
    var count, i, offset := 0, 0, 0;
    content, used := before, 0;
    NothingWritten(before);
    assert input[..0] == "";
    while i < size
      invariant 0 <= i && 0 <= offset && offset + count == used <= |input|
      invariant used == if i <= size then i else size
      invariant 0 <= count < RCP_BUFSIZ && (i < size ==> count == 0)
      invariant content == Overwritten(before, input[..offset])
      invariant buf[..count] == input[offset..used]
    {
      var amt := RCP_BUFSIZ;
      if i + amt > size {
        amt := size - i;
      }
      var filled := FillBlock(buf, count, amt, input[used..], delivers);
      if !filled {
        return false, content, used;
      }
      assert input[used..][..amt] == input[offset..used + amt];
      count, used := count + amt, used + amt;
      if count == RCP_BUFSIZ {
        content := Store(before, content, input, offset, buf[..count]);
        offset, count := offset + count, 0;
      }
      i := i + RCP_BUFSIZ;
    }
    if count != 0 {
      content := Store(before, content, input, offset, buf[..count]);
    }
    CutToData(before, input[..size]);
    content := Truncated(content, size);
    ok := true;
  }

  lemma NothingWritten(before: string)
    ensures Overwritten(before, "") == before
  {
  }

  /** What is left of an old file is cut off. */
  lemma CutToData(before: string, data: string)
    ensures Truncated(Overwritten(before, data), |data|) == data
  {
  }

  /** Writing the buffered octets out extends the part of the file that holds the input. */
  function Store(before: string, content: string, input: string, offset: nat, block: string): (r: string)
    requires offset + |block| <= |input| && block == input[offset..offset + |block|]
    requires content == Overwritten(before, input[..offset])
    ensures r == Overwritten(before, input[..offset + |block|])
  {
    WritesJoin(before, input[..offset], block);
    assert input[..offset] + block == input[..offset + |block|];
    WrittenAt(content, offset, block)
  }

  // ---------- response() as a loop ----------

  /** What `response` makes of its input, and how many octets it reads; More when the input gives out. */
  function Heard(r: Reply, input: string): (Verdict, nat)
    decreases input
  {
    if input == "" then (More(r), 0) else
    match ReplyStep(r, input[0])
    case More(r') => var (v, n) := Heard(r', input[1..]); (v, n + 1)
    case v => (v, 1)
  }

  method Response(input: string) returns (v: Verdict, used: nat)
    ensures (v, used) == Heard(Fresh, input)
  {
    if input == "" {
      return More(Fresh), 0;
    }
    var resp := input[0];
    used := 1;
    if resp == '\0' {
      return Accepted, 1;
    }
    var count := if resp == ERROR_MARK || resp == FATAL_MARK then 0 else 1;
    ghost var all := Heard(Fresh, input);
    while true
      invariant 1 <= used <= |input| && count < RCP_BUFSIZ
      invariant var (v, n) := Heard(Reading(resp, count), input[used..]); all == (v, n + used)
      decreases |input| - used
    {
      if used == |input| {
        return More(Reading(resp, count)), used;
      }
      var c := input[used];
      assert input[used..][1..] == input[used + 1..];
      used, count := used + 1, count + 1;
      if count >= RCP_BUFSIZ || c == '\n' {
        return if resp == ERROR_MARK then Refused else Quit, used;
      }
    }
  }

  /** One acknowledgement answers one `response`; a complaint that fits is read to its end and no further. */
  lemma OneReplyEach(path: string, why: string, more: string)
    requires NoControl(path) && NoControl(why) && |path| + |why| + 8 <= RCP_BUFSIZ - 2
    ensures Heard(Fresh, ACK + more) == (Accepted, 1)
    ensures Heard(Fresh, ErrorMessage(path, why) + more) == (Refused, |ErrorMessage(path, why)|)
  {
    var text := "rcp: " + path + ": " + why;
    assert "rcp: " + path + ": " + why + "\n" == text + "\n";
    var s := ErrorMessage(path, why) + more;
    assert s[0] == ERROR_MARK && s[1..] == text + "\n" + more;
    HeardToNewline(0, text, more);
  }

  lemma {:induction false} HeardToNewline(count: nat, text: string, more: string)
    requires '\n' !in text && count + |text| + 1 < RCP_BUFSIZ
    ensures Heard(Reading(ERROR_MARK, count), text + "\n" + more) == (Refused, |text| + 1)
    decreases |text|
  {
    var s := text + "\n" + more;
    if text != "" {
      assert s[0] == text[0] && s[1..] == text[1..] + "\n" + more;
      HeardToNewline(count + 1, text[1..], more);
    }
  }

  /** A complaint too long for the buffer of `error` loses its newline, and `response` waits for more. */
  lemma LongComplaintHangs(path: string, why: string)
    requires NoControl(path) && NoControl(why)
    ensures Heard(Fresh, ErrorMessage(path, why)).0.More? <==> |path| + |why| + 8 > RCP_BUFSIZ - 2
  {
    var text := "rcp: " + path + ": " + why + "\n";
    if |text| <= RCP_BUFSIZ - 2 {
      OneReplyEach(path, why, "");
      assert ErrorMessage(path, why) + "" == ErrorMessage(path, why);
    } else {
      var cut := text[..RCP_BUFSIZ - 2];
      assert ErrorMessage(path, why) == [ERROR_MARK] + cut;
      assert ([ERROR_MARK] + cut)[1..] == cut;
      HeardNoNewline(0, cut);
    }
  }

  lemma {:induction false} HeardNoNewline(count: nat, text: string)
    requires '\n' !in text && count + |text| < RCP_BUFSIZ
    ensures Heard(Reading(ERROR_MARK, count), text).0.More?
    decreases |text|
  {
    if text != "" {
      HeardNoNewline(count + 1, text[1..]);
    }
  }
}
