/** In-band signalling of rlogin: the server quotes doubled flag octets and sends marks (bsd/krlogind.c), the
    client's scan takes both out of its buffer again (bsd/krlogin.c); and the window messages the other way. */
module RloginInband {
  import opened Bytes

  const FF: byte := 255
  const Q: byte := 113
  const O: byte := 111
  const S: byte := 115

  const WINSIZE: nat := 8   // sizeof(struct winsize)

  // ---------- server to client: quoting ----------

  /** What the server sends for one piece of output. */
  function Quote(c: seq<byte>): (r: seq<byte>)
    ensures |c| <= |r| <= 2 * |c|
  {
    if c == [] then []
    else if |c| >= 2 && c[0] == FF && c[1] == FF then [FF, FF, Q, Q] + Quote(c[2..])
    else [c[0]] + Quote(c[1..])
  }

  /** The loop in `protocol` that fills `qpibuf`, which is twice as long as the buffer it is filled from. */
  method QuoteInto(pbp: array<byte>, pcc: nat, qpibuf: array<byte>) returns (qpcc: nat)
    requires pcc <= pbp.Length && 2 * pbp.Length <= qpibuf.Length && pbp != qpibuf
    modifies qpibuf
    ensures qpcc <= qpibuf.Length && qpibuf[..qpcc] == Quote(pbp[..pcc])
    ensures pcc <= qpcc <= 2 * pcc
  {
    hide Quote;
    qpcc := 0;
    var i := 0;
    ghost var data, out := pbp[..pcc], [];
    assert data[0..] == data && [] + Quote(data) == Quote(data);
    while i < pcc
      invariant 0 <= i <= pcc && i <= qpcc <= 2 * i
      invariant pbp[..pcc] == data && qpcc == |out|
      invariant forall k :: 0 <= k < qpcc ==> qpibuf[k] == out[k]
      invariant out + Quote(data[i..]) == Quote(data)
    {
      QuoteStep(data, i, out);
      if pbp[i] == FF && i + 1 < pcc && pbp[i + 1] == FF {
        qpibuf[qpcc] := FF;
        qpibuf[qpcc + 1] := FF;
        qpibuf[qpcc + 2] := Q;
        qpibuf[qpcc + 3] := Q;
        out := out + [FF, FF, Q, Q];
        i, qpcc := i + 2, qpcc + 4;
      } else {
        qpibuf[qpcc] := pbp[i];
        out := out + [data[i]];
        i, qpcc := i + 1, qpcc + 1;
      }
    }
    QuoteStep(data, i, out);
    assert qpibuf[..qpcc] == out;
  }

  lemma QuoteStep(d: seq<byte>, i: nat, out: seq<byte>)
    requires i <= |d|
    ensures i == |d| ==> out + Quote(d[i..]) == out
    ensures i + 1 < |d| && d[i] == FF && d[i + 1] == FF ==>
              out + Quote(d[i..]) == (out + [FF, FF, Q, Q]) + Quote(d[i + 2..])
    ensures i < |d| && !(i + 1 < |d| && d[i] == FF && d[i + 1] == FF) ==>
              out + Quote(d[i..]) == (out + [d[i]]) + Quote(d[i + 1..])
  {
    assert i + 2 <= |d| ==> d[i..][2..] == d[i + 2..];
    assert i < |d| ==> d[i..][1..] == d[i + 1..];
  }

  /** `sendoob` */
  function MarkMessage(mark: byte): seq<byte> { [FF, FF, O, O, mark] }

  // ---------- the client's scan ----------

  /** What a scan leaves in the buffer and the marks it hands on; a mark that asks for a flush ends it. */
  datatype Decoded = Decoded(out: seq<byte>, marks: seq<byte>, flushed: bool)

  predicate IsMark(w: seq<byte>) { |w| >= 5 && w[0] == FF && w[1] == FF && w[2] == O && w[3] == O }

  predicate IsQuoted(w: seq<byte>) { |w| >= 4 && w[0] == FF && w[1] == FF && w[2] == Q && w[3] == Q }

  /** The scan from a place where `w` is what is left in the buffer.  A quoted pair becomes two flag octets,
      and the scan looks at them again. */
  function Decode(w: seq<byte>, flush: byte -> bool): Decoded
    decreases |w|
  {
    if |w| < 2 then Decoded(w, [], false)
    else if IsMark(w) then
      if flush(w[4]) then Decoded([], [w[4]], true)
      else var r := Decode(w[5..], flush); r.(marks := [w[4]] + r.marks)
    else if IsQuoted(w) then Decode([FF, FF] + w[4..], flush)
    else var r := Decode(w[1..], flush); r.(out := [w[0]] + r.out)
  }

  /** What the buffer holds after the scan: a flush leaves nothing. */
  function Left(done: seq<byte>, r: Decoded): seq<byte> { if r.flushed then [] else done + r.out }

  /** memmove of the octets behind the `n` at `cp` down over them. */
  method TakeOut(a: array<byte>, cp: nat, n: nat, end: nat)
    requires cp + n <= end <= a.Length
    modifies a
    ensures a[..cp] == old(a[..cp])
    ensures a[cp..end - n] == old(a[cp..end])[n..]
  {
    ghost var all := a[..];
    for k := cp to end - n
      invariant forall i :: 0 <= i < cp ==> a[i] == all[i]
      invariant forall i :: cp <= i < k ==> a[i] == all[i + n]
      invariant forall i :: k <= i < a.Length ==> a[i] == all[i]
    {
      a[k] := a[k + n];
    }
    assert a[..cp] == all[..cp];
    assert a[cp..end - n] == all[cp + n..end] == all[cp..end][n..];
  }

  lemma PairLeft(tail: seq<byte>)
    ensures ([FF, FF, FF, FF] + tail)[2..] == [FF, FF] + tail
  {
    assert [FF, FF, FF, FF] + tail == [FF, FF] + ([FF, FF] + tail);
  }

  lemma OneOn(a: array<byte>, cp: nat, end: nat)
    requires cp < end <= a.Length
    ensures a[cp..end][0] == a[cp] && a[cp..end][1..] == a[cp + 1..end] && a[..cp] + [a[cp]] == a[..cp + 1]
  {
  }

  /** The in-band scan of `reader`, with `control`, over the first `cnt` octets of `rcvbuf`. */
  method ScanBuffer(rcvbuf: array<byte>, cnt: nat, flush: byte -> bool) returns (rcvcnt: nat, marks: seq<byte>)
    requires cnt <= rcvbuf.Length
    modifies rcvbuf
    ensures rcvcnt <= cnt
    ensures var r := Decode(old(rcvbuf[..cnt]), flush); rcvbuf[..rcvcnt] == Left([], r) && marks == r.marks
  {
    hide Decode, Progress;
    rcvcnt, marks := cnt, [];
    ghost var all := Decode(rcvbuf[..cnt], flush);
    var cp := 0;
    assert rcvbuf[cp..rcvcnt] == rcvbuf[..cnt] && rcvbuf[..cp] == [];
    NothingDone(all);
    while cp + 1 < rcvcnt
      invariant 0 <= cp <= rcvcnt <= cnt
      invariant Progress(all, rcvbuf[..cp], marks, Decode(rcvbuf[cp..rcvcnt], flush))
      decreases rcvcnt - cp
    {
      ghost var done, w := rcvbuf[..cp], rcvbuf[cp..rcvcnt];
      var n := 0;
      if rcvbuf[cp] == FF && rcvbuf[cp + 1] == FF {
        var mark;
        n, mark := Control(rcvbuf, cp, rcvcnt);
        if n == 5 {
          marks := marks + [mark];
          if flush(mark) {
            TakeOut(rcvbuf, 0, cp + 5, rcvcnt);
            rcvcnt := 0;
            MarkStep(all, done, marks[..|marks| - 1], w, flush);
            return;
          }
        }
      }
      if n > 0 {
        TakeOut(rcvbuf, cp, n, rcvcnt);
        rcvcnt := rcvcnt - n;
        if n == 5 {
          MarkStep(all, done, marks[..|marks| - 1], w, flush);
        } else {
          PairLeft(w[4..]);
          QuoteScanStep(all, done, marks, w, flush);
        }
      } else {
        PlainStep(all, done, marks, w, flush);
        OneOn(rcvbuf, cp, rcvcnt);
        cp := cp + 1;
      }
    }
    ShortEnd(all, rcvbuf[..cp], marks, rcvbuf[cp..rcvcnt], flush);
    assert rcvbuf[..cp] + rcvbuf[cp..rcvcnt] == rcvbuf[..rcvcnt];
  }

  /** `control` of the client: how many octets to take out at `cp`, and the mark if there is one. */
  method Control(rcvbuf: array<byte>, cp: nat, end: nat) returns (n: nat, mark: byte)
    requires cp + 2 <= end <= rcvbuf.Length && rcvbuf[cp] == FF && rcvbuf[cp + 1] == FF
    modifies rcvbuf
    ensures var w := old(rcvbuf[cp..end]);
            && n == (if IsMark(w) then 5 else if IsQuoted(w) then 2 else 0)
            && (n == 5 ==> mark == w[4])
            && rcvbuf[..cp] == old(rcvbuf[..cp])
            && rcvbuf[cp..end] == if n == 2 then [FF, FF, FF, FF] + w[4..] else w
  {
    n, mark := 0, 0;
    ghost var w := rcvbuf[cp..end];
    if end - cp >= 5 && rcvbuf[cp + 2] == O && rcvbuf[cp + 3] == O {
      return 5, rcvbuf[cp + 4];
    } else if end - cp >= 4 && rcvbuf[cp + 2] == Q && rcvbuf[cp + 3] == Q {
      rcvbuf[cp + 2], rcvbuf[cp + 3] := FF, FF;
      return 2, 0;
    }
  }

  /** How the outcome of the whole scan follows from what is done and the scan of the rest. */
  predicate Progress(all: Decoded, done: seq<byte>, marks: seq<byte>, r: Decoded) {
    && all.marks == marks + r.marks && all.flushed == r.flushed
    && (!all.flushed ==> all.out == done + r.out)
  }

  lemma NothingDone(all: Decoded)
    ensures Progress(all, [], [], all)
  {
  }

  lemma MarkStep(all: Decoded, done: seq<byte>, marks: seq<byte>, w: seq<byte>, flush: byte -> bool)
    requires Progress(all, done, marks, Decode(w, flush)) && IsMark(w)
    ensures flush(w[4]) ==> all.flushed && all.marks == marks + [w[4]]
    ensures !flush(w[4]) ==> Progress(all, done, marks + [w[4]], Decode(w[5..], flush))
  {
  }

  lemma QuoteScanStep(all: Decoded, done: seq<byte>, marks: seq<byte>, w: seq<byte>, flush: byte -> bool)
    requires Progress(all, done, marks, Decode(w, flush)) && !IsMark(w) && IsQuoted(w)
    ensures Progress(all, done, marks, Decode([FF, FF] + w[4..], flush))
  {
  }

  lemma PlainStep(all: Decoded, done: seq<byte>, marks: seq<byte>, w: seq<byte>, flush: byte -> bool)
    requires Progress(all, done, marks, Decode(w, flush)) && !IsMark(w) && !IsQuoted(w) && |w| >= 2
    ensures Progress(all, done + [w[0]], marks, Decode(w[1..], flush))
  {
    hide Decode, IsMark, IsQuoted;
    PlainDecode(w, flush);
    var out := Decode(w[1..], flush).out;
    assert done + ([w[0]] + out) == (done + [w[0]]) + out;
  }

  lemma PlainDecode(w: seq<byte>, flush: byte -> bool)
    requires !IsMark(w) && !IsQuoted(w) && |w| >= 2
    ensures var r := Decode(w[1..], flush); Decode(w, flush) == r.(out := [w[0]] + r.out)
  {
    hide IsMark, IsQuoted;
  }

  lemma ShortEnd(all: Decoded, done: seq<byte>, marks: seq<byte>, w: seq<byte>, flush: byte -> bool)
    requires Progress(all, done, marks, Decode(w, flush)) && |w| < 2
    ensures !all.flushed && all.out == done + w && all.marks == marks
  {
  }
}
