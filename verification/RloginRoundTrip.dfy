/** What the quoting of rlogin preserves: the round trip from the server's loop (bsd/krlogind.c) through the
    client's scan (bsd/krlogin.c), for every way of cutting the output into chunks. */
module RloginRoundTrip {
  import opened Bytes
  import opened RloginInband

  // ---------- the round trip ----------

  /** How an octet or a pair of flag octets of the data went over the wire. */
  datatype Sent = Raw(x: byte) | Pair

  function Wire(ss: seq<Sent>): seq<byte> {
    if ss == [] then [] else (match ss[0] case Raw(x) => [x] case Pair => [255, 255, 113, 113]) + Wire(ss[1..])
  }

  function Data(ss: seq<Sent>): seq<byte> {
    if ss == [] then [] else (match ss[0] case Raw(x) => [x] case Pair => [255, 255]) + Data(ss[1..])
  }

  /** Two flag octets at `i` are followed by `qq`, or by `oo` and one more octet. */
  predicate ControlAt(d: seq<byte>, i: nat) {
    && i + 4 <= |d| && d[i] == 255 && d[i + 1] == 255
    && (d[i + 2..i + 4] == [113, 113] || (d[i + 2..i + 4] == [111, 111] && i + 5 <= |d|))
  }

  ghost predicate HasControl(d: seq<byte>) { exists i: nat :: ControlAt(d, i) }

  lemma ControlFrom(d: seq<byte>, i: nat)
    requires i <= |d|
    ensures ControlAt(d, i) <==> IsMark(d[i..]) || IsQuoted(d[i..])
  {
    if i + 4 <= |d| {
      assert d[i + 2..i + 4] == [d[i + 2], d[i + 3]];
    }
  }

  lemma ControlOfTail(d: seq<byte>, k: nat)
    requires k <= |d| && HasControl(d[k..])
    ensures HasControl(d)
  {
    var i: nat :| ControlAt(d[k..], i);
    assert d[k..][i + 2..i + 4] == d[k + i + 2..k + i + 4];
    assert ControlAt(d, k + i);
  }

  lemma ControlSplits(d: seq<byte>)
    requires d != []
    ensures HasControl(d) <==> IsMark(d) || IsQuoted(d) || HasControl(d[1..])
  {
    assert d[0..] == d;
    ControlFrom(d, 0);
    if HasControl(d) {
      var i: nat :| ControlAt(d, i);
      if i > 0 {
        assert d[1..][i + 1..i + 3] == d[i + 2..i + 4];
        assert ControlAt(d[1..], i - 1);
      }
    }
    if HasControl(d[1..]) {
      ControlOfTail(d, 1);
    }
  }

  lemma Starts(ss: seq<Sent>, c: byte)
    requires c != FF
    ensures Wire(ss) != [] <==> ss != []
    ensures Data(ss) != [] <==> ss != []
    ensures ss != [] ==> (Wire(ss)[0] == c <==> ss[0] == Raw(c)) && (Data(ss)[0] == c <==> ss[0] == Raw(c))
    ensures ss != [] && ss[0].Raw? ==> Wire(ss)[1..] == Wire(ss[1..]) && Data(ss)[1..] == Data(ss[1..])
  {
  }

  predicate Doubled(s: seq<byte>, c: byte) { |s| >= 2 && s[0] == c && s[1] == c }

  /** Octets other than flags are the same on the wire and in the data. */
  lemma DoubledSame(ss: seq<Sent>, c: byte)
    requires c != FF
    ensures Doubled(Wire(ss), c) <==> Doubled(Data(ss), c)
    ensures Doubled(Wire(ss), c) ==> |ss| >= 2 && ss[0] == Raw(c) && ss[1] == Raw(c)
    ensures Doubled(Wire(ss), c) ==> (|Wire(ss)| >= 3 <==> |Data(ss)| >= 3)
  {
    Starts(ss, c);
    if ss != [] && ss[0] == Raw(c) {
      Starts(ss[1..], c);
      assert Wire(ss)[1..] == Wire(ss[1..]) && Data(ss)[1..] == Data(ss[1..]);
      if |ss| >= 2 {
        assert Wire(ss)[1] == Wire(ss[1..])[0] && Data(ss)[1] == Data(ss[1..])[0];
        if ss[1] == Raw(c) {
          Starts(ss[1..][1..], c);
          assert Wire(ss)[2..] == Wire(ss[1..])[1..] && Data(ss)[2..] == Data(ss[1..])[1..];
        }
      }
    }
  }

  /** When something goes over the wire raw, the scan sees a control there only if the data has one there. */
  lemma RawHead(ss: seq<Sent>)
    requires ss != [] && ss[0].Raw?
    ensures IsMark(Wire(ss)) <==> IsMark(Data(ss))
    ensures IsQuoted(Wire(ss)) <==> IsQuoted(Data(ss))
    ensures IsMark(Wire(ss)) || IsQuoted(Wire(ss)) ==> |ss| >= 4 && ss[0] == Raw(FF) && ss[1] == Raw(FF)
    ensures IsQuoted(Wire(ss)) ==> ss[2] == Raw(Q) && ss[3] == Raw(Q)
  {
    hide Wire, Data, Doubled;
    TwoHeads(ss);
    if |ss| > 1 {
      TwoHeads(ss[1..]);
      if ss[1].Raw? {
        TwoRaw(ss);
        DoubledSame(ss[2..], Q);
        DoubledSame(ss[2..], O);
        ControlShape(Wire(ss));
        ControlShape(Data(ss));
      }
    }
  }

  lemma TwoRaw(ss: seq<Sent>)
    requires |ss| > 1 && ss[0].Raw? && ss[1].Raw?
    ensures [ss[0].x, ss[1].x] <= Wire(ss) && [ss[0].x, ss[1].x] <= Data(ss)
    ensures Wire(ss)[2..] == Wire(ss[2..]) && Data(ss)[2..] == Data(ss[2..])
  {
    hide Wire, Data;
    TwoHeads(ss);
    TwoHeads(ss[1..]);
    assert ss[1..][1..] == ss[2..];
    BehindTwo(ss[0].x, ss[1].x, Wire(ss[2..]));
    BehindTwo(ss[0].x, ss[1].x, Data(ss[2..]));
  }

  lemma BehindTwo(x: byte, y: byte, rest: seq<byte>)
    ensures var w := [x] + ([y] + rest); [x, y] <= w && w[2..] == rest
  {
  }

  lemma TwoHeads(ss: seq<Sent>)
    requires ss != []
    ensures ss[0].Raw? ==> Wire(ss) == [ss[0].x] + Wire(ss[1..]) && Data(ss) == [ss[0].x] + Data(ss[1..])
    ensures ss[0].Pair? ==> Wire(ss) == [FF, FF, Q, Q] + Wire(ss[1..]) && Data(ss) == [FF, FF] + Data(ss[1..])
    ensures Wire([]) == [] && Data([]) == []
  {
  }

  lemma ControlShape(w: seq<byte>)
    requires |w| >= 2
    ensures IsQuoted(w) <==> w[0] == FF && w[1] == FF && Doubled(w[2..], Q)
    ensures IsMark(w) <==> w[0] == FF && w[1] == FF && Doubled(w[2..], O) && |w[2..]| >= 3
  {
  }

  /** A quoted pair is turned back and looked at again as if it had been sent raw. */
  lemma PairDecodes(ss: seq<Sent>, flush: byte -> bool)
    requires ss != [] && ss[0].Pair?
    ensures var raw := [Raw(FF), Raw(FF)] + ss[1..];
            && Decode(Wire(ss), flush) == Decode(Wire(raw), flush)
            && Data(raw) == Data(ss) && |Wire(raw)| < |Wire(ss)|
  {
    hide Wire, Data, Decode;
    PairWire(ss);
    QuotedDecodes(Wire(ss[1..]), flush);
  }

  lemma PairWire(ss: seq<Sent>)
    requires ss != [] && ss[0].Pair?
    ensures var raw := [Raw(FF), Raw(FF)] + ss[1..];
            && Wire(ss) == [FF, FF, Q, Q] + Wire(ss[1..]) && Wire(raw) == [FF, FF] + Wire(ss[1..])
            && Data(raw) == Data(ss)
  {
    hide Wire, Data;
    TwoHeads(ss);
    StepsConcat([Raw(FF), Raw(FF)], ss[1..]);
    FlagsRaw();
  }

  lemma RawDecodes(ss: seq<Sent>, flush: byte -> bool)
    requires ss != [] && ss[0].Raw? && !IsMark(Wire(ss)) && !IsQuoted(Wire(ss))
    ensures var r := Decode(Wire(ss[1..]), flush);
            Decode(Wire(ss), flush) == r.(out := [ss[0].x] + r.out)
    ensures Data(ss) == [ss[0].x] + Data(ss[1..]) && |Wire(ss)| == 1 + |Wire(ss[1..])|
  {
    TwoHeads(ss);
    assert Wire(ss)[1..] == Wire(ss[1..]);
    if |Wire(ss)| == 1 {
      assert Wire(ss[1..]) == [];
    }
  }

  /** Data without controls arrives as it was and triggers nothing, however it was quoted. */
  lemma {:induction false} CleanDataArrives(ss: seq<Sent>, flush: byte -> bool)
    requires !HasControl(Data(ss))
    ensures Decode(Wire(ss), flush) == Decoded(Data(ss), [], false)
    decreases |Wire(ss)|
  {
    if ss != [] {
      if ss[0].Pair? {
        PairDecodes(ss, flush);
        CleanDataArrives([Raw(FF), Raw(FF)] + ss[1..], flush);
      } else {
        RawHead(ss);
        TwoHeads(ss);
        ControlSplits(Data(ss));
        RawDecodes(ss, flush);
        assert Data(ss)[1..] == Data(ss[1..]);
        CleanDataArrives(ss[1..], flush);
      }
    }
  }

  /** If no mark is seen, nothing is added; and data with a control in it comes out shorter. */
  lemma {:induction false} ControlsCostOctets(ss: seq<Sent>, flush: byte -> bool)
    requires Decode(Wire(ss), flush).marks == []
    ensures var out := Decode(Wire(ss), flush).out;
            |out| <= |Data(ss)| && (HasControl(Data(ss)) ==> |out| < |Data(ss)|)
    decreases |Wire(ss)|
  {
    if ss == [] {
      assert !HasControl([]);
    } else if ss[0].Pair? {
      PairDecodes(ss, flush);
      ControlsCostOctets([Raw(FF), Raw(FF)] + ss[1..], flush);
    } else {
      RawHead(ss);
      if IsMark(Wire(ss)) {
        MarkIsSeen(Wire(ss), flush);
      } else if IsQuoted(Wire(ss)) {
        RawQuoteDecodes(ss, flush);
        ControlsCostOctets([Raw(FF), Raw(FF)] + ss[4..], flush);
      } else {
        RawDecodes(ss, flush);
        ControlSplits(Data(ss));
        assert Data(ss)[1..] == Data(ss[1..]);
        ControlsCostOctets(ss[1..], flush);
      }
    }
  }

  lemma MarkIsSeen(w: seq<byte>, flush: byte -> bool)
    requires IsMark(w)
    ensures Decode(w, flush).marks != []
  {
  }

  /** Data that looks like a quote loses the two octets that make it look so. */
  lemma RawQuoteDecodes(ss: seq<Sent>, flush: byte -> bool)
    requires |ss| >= 4 && ss[0] == Raw(FF) && ss[1] == Raw(FF) && ss[2] == Raw(Q) && ss[3] == Raw(Q)
    ensures var less := [Raw(FF), Raw(FF)] + ss[4..];
            && Decode(Wire(ss), flush) == Decode(Wire(less), flush)
            && |Data(less)| == |Data(ss)| - 2 && |Wire(less)| < |Wire(ss)|
  {
    var less, head, t := [Raw(FF), Raw(FF)] + ss[4..], [Raw(FF), Raw(FF), Raw(Q), Raw(Q)], ss[4..];
    assert ss == head + t;
    StepsConcat(head, t);
    StepsConcat([Raw(FF), Raw(FF)], t);
    FourRaw(FF, FF, Q, Q);
    FlagsRaw();
    var w := Wire(ss);
    assert w == [FF, FF, Q, Q] + Wire(t);
    assert w[4..] == Wire(t);
    QuotedDecodes(Wire(t), flush);
  }

  lemma FourRaw(a: byte, b: byte, c: byte, d: byte)
    ensures Wire([Raw(a), Raw(b), Raw(c), Raw(d)]) == [a, b, c, d] == Data([Raw(a), Raw(b), Raw(c), Raw(d)])
  {
    var ss := [Raw(a), Raw(b), Raw(c), Raw(d)];
    assert ss[1..] == [Raw(b), Raw(c), Raw(d)] && ss[1..][1..] == [Raw(c), Raw(d)] && ss[1..][1..][1..] == [Raw(d)];
    TwoHeads(ss);
    TwoHeads([Raw(b), Raw(c), Raw(d)]);
    TwoHeads([Raw(c), Raw(d)]);
    TwoHeads([Raw(d)]);
    assert [Raw(d)][1..] == [];
  }

  lemma FlagsRaw()
    ensures Wire([Raw(FF), Raw(FF)]) == [FF, FF] == Data([Raw(FF), Raw(FF)])
  {
    var ss := [Raw(FF), Raw(FF)];
    assert ss[1..] == [Raw(FF)] && [Raw(FF)][1..] == [];
    TwoHeads(ss);
    TwoHeads([Raw(FF)]);
  }

  lemma QuotedDecodes(t: seq<byte>, flush: byte -> bool)
    ensures Decode([FF, FF, Q, Q] + t, flush) == Decode([FF, FF] + t, flush)
  {
    var w := [FF, FF, Q, Q] + t;
    assert IsQuoted(w) && !IsMark(w) && w[4..] == t;
  }

  // ---------- for the server's chunks ----------

  predicate NoPair(c: seq<byte>) { forall i :: 0 <= i < |c| - 1 ==> !(c[i] == 255 && c[i + 1] == 255) }

  /** Output without two flags in a row goes out as it is, and `qq` is put behind the first two that follow
      each other; what comes behind them is quoted by itself. */
  lemma {:induction false} PairsAreQuoted(a: seq<byte>, b: seq<byte>)
    requires NoPair(a)
    ensures Quote(a) == a
    ensures (a == [] || a[|a| - 1] != 255) ==> Quote(a + [255, 255] + b) == a + [255, 255, 113, 113] + Quote(b)
    decreases |a|
  {
    hide Quote, NoPair;
    if a == [] {
      QuoteFront(255, [], b);
      assert [] + [255, 255] + b == [255, 255] + b && [] + [255, 255, 113, 113] == [255, 255, 113, 113];
    } else {
      var x, rest := a[0], a[1..];
      NoPairBehind(a);
      PairsAreQuoted(rest, b);
      QuoteFront(x, rest, b);
      assert a == [x] + rest && a + [255, 255] + b == [x] + (rest + [255, 255] + b);
      if rest != [] {
        QuoteFront(x, rest + [255, 255] + b, b);
      } else if x != 255 {
        QuoteFront(x, [255, 255] + b, b);
        assert rest + [255, 255] + b == [255, 255] + b;
      }
      if a[|a| - 1] != 255 {
        assert [x] + (rest + [255, 255, 113, 113] + Quote(b)) == a + [255, 255, 113, 113] + Quote(b);
      }
    }
  }

  lemma NoPairBehind(a: seq<byte>)
    requires a != [] && NoPair(a)
    ensures NoPair(a[1..]) && (|a| > 1 ==> a[0] != 255 || a[1] != 255)
  {
    forall i | 0 <= i < |a[1..]| - 1
      ensures !(a[1..][i] == 255 && a[1..][i + 1] == 255)
    {
      assert a[1..][i] == a[i + 1] && a[1..][i + 1] == a[(i + 1) + 1];
    }
  }

  lemma QuoteFront(x: byte, rest: seq<byte>, b: seq<byte>)
    ensures x != 255 || rest == [] || rest[0] != 255 ==> Quote([x] + rest) == [x] + Quote(rest)
    ensures Quote([255, 255] + b) == [255, 255, 113, 113] + Quote(b) && Quote([]) == []
  {
    assert ([x] + rest)[1..] == rest && ([255, 255] + b)[2..] == b;
  }

  function StepsOf(c: seq<byte>): seq<Sent> {
    if c == [] then []
    else if |c| >= 2 && c[0] == FF && c[1] == FF then [Pair] + StepsOf(c[2..])
    else [Raw(c[0])] + StepsOf(c[1..])
  }

  lemma {:induction false} StepsOfQuote(c: seq<byte>)
    ensures Wire(StepsOf(c)) == Quote(c) && Data(StepsOf(c)) == c
    decreases |c|
  {
    hide Wire, Data;
    if c == [] {
      TwoHeads([Pair]);
    } else if |c| >= 2 && c[0] == FF && c[1] == FF {
      StepsOfQuote(c[2..]);
      Prepend(Pair, StepsOf(c[2..]));
      assert [FF, FF] + c[2..] == c;
    } else {
      StepsOfQuote(c[1..]);
      Prepend(Raw(c[0]), StepsOf(c[1..]));
      assert [c[0]] + c[1..] == c;
    }
  }

  lemma Prepend(first: Sent, rest: seq<Sent>)
    ensures Wire([first] + rest) == (match first case Raw(x) => [x] case Pair => [FF, FF, Q, Q]) + Wire(rest)
    ensures Data([first] + rest) == (match first case Raw(x) => [x] case Pair => [FF, FF]) + Data(rest)
  {
    assert ([first] + rest)[1..] == rest;
    TwoHeads([first] + rest);
  }

  lemma {:induction false} StepsConcat(a: seq<Sent>, b: seq<Sent>)
    ensures Wire(a + b) == Wire(a) + Wire(b) && Data(a + b) == Data(a) + Data(b)
    decreases a
  {
    hide Wire, Data;
    if a == [] {
      TwoHeads([Pair]);
      assert a + b == b;
    } else {
      assert (a + b)[0] == a[0] && (a + b)[1..] == a[1..] + b;
      TwoHeads(a);
      TwoHeads(a + b);
      StepsConcat(a[1..], b);
    }
  }

  /** The wire for a series of chunks, each quoted by itself. */
  function QuoteAll(chunks: seq<seq<byte>>): seq<byte> {
    if chunks == [] then [] else Quote(chunks[0]) + QuoteAll(chunks[1..])
  }

  lemma {:induction false} ChunksAreSteps(chunks: seq<seq<byte>>) returns (ss: seq<Sent>)
    ensures Wire(ss) == QuoteAll(chunks) && Data(ss) == Flat(chunks)
    decreases chunks
  {
    if chunks == [] {
      ss := [];
    } else {
      var rest := ChunksAreSteps(chunks[1..]);
      StepsOfQuote(chunks[0]);
      StepsConcat(StepsOf(chunks[0]), rest);
      ss := StepsOf(chunks[0]) + rest;
    }
  }

  /** However the server's output is cut into chunks, the client gets it back, and sees no mark in it, exactly
      if it nowhere has two flag octets that are followed by `qq`, or by `oo` and another octet. */
  lemma QuotingRoundTrip(chunks: seq<seq<byte>>, flush: byte -> bool)
    ensures var r := Decode(QuoteAll(chunks), flush);
            (Left([], r) == Flat(chunks) && r.marks == []) <==> !HasControl(Flat(chunks))
  {
    var ss := ChunksAreSteps(chunks);
    var r := Decode(QuoteAll(chunks), flush);
    if !HasControl(Flat(chunks)) {
      CleanDataArrives(ss, flush);
    } else if r.marks == [] {
      ControlsCostOctets(ss, flush);
      UnmarkedNotFlushed(Wire(ss), flush);
    }
  }

  lemma {:induction false} UnmarkedNotFlushed(w: seq<byte>, flush: byte -> bool)
    ensures Decode(w, flush).flushed ==> Decode(w, flush).marks != []
    decreases |w|
  {
    if |w| >= 2 && !IsMark(w) {
      if IsQuoted(w) {
        UnmarkedNotFlushed([FF, FF] + w[4..], flush);
      } else {
        UnmarkedNotFlushed(w[1..], flush);
      }
    }
  }

  /** A mark between clean pieces of output is handed on and leaves no trace, unless it asks for a flush:
      then everything in the buffer goes, what followed the mark included. */
  lemma {:induction false} MarkIsHandedOn(ss: seq<Sent>, mark: byte, later: seq<byte>, flush: byte -> bool)
    requires !HasControl(Data(ss) + [FF, FF])
    ensures MarkMessage(mark) == [255, 255, 111, 111, mark]
    ensures var all := Decode(Wire(ss) + MarkMessage(mark) + later, flush);
            if flush(mark) then all == Decoded(Data(ss), [mark], true)
            else var r := Decode(later, flush); all == Decoded(Data(ss) + r.out, [mark] + r.marks, r.flushed)
    decreases |Wire(ss)|
  {
    hide Wire, Data, Decode, HasControl, IsMark, IsQuoted;
    if ss == [] {
      TwoHeads([Raw(FF)]);
      MarkFirst(mark, later, flush);
    } else if ss[0].Pair? {
      PairBefore(ss, MarkMessage(mark) + later, flush);
      var raw := [Raw(FF), Raw(FF)] + ss[1..];
      assert Wire(raw) + MarkMessage(mark) + later == Wire(raw) + (MarkMessage(mark) + later);
      assert Wire(ss) + MarkMessage(mark) + later == Wire(ss) + (MarkMessage(mark) + later);
      MarkIsHandedOn(raw, mark, later, flush);
    } else {
      TwoHeads(ss);
      var w, d := Wire(ss) + MarkMessage(mark) + later, Data(ss) + [FF, FF];
      assert d[1..] == Data(ss[1..]) + [FF, FF];
      ControlSplits(d);
      NoControlBeforeMark(ss, mark, later);
      assert w[1..] == Wire(ss[1..]) + MarkMessage(mark) + later;
      MarkIsHandedOn(ss[1..], mark, later, flush);
      PlainFirst(w, flush);
    }
  }

  lemma PlainFirst(w: seq<byte>, flush: byte -> bool)
    requires |w| >= 2 && !IsMark(w) && !IsQuoted(w)
    ensures var r := Decode(w[1..], flush); Decode(w, flush) == r.(out := [w[0]] + r.out)
  {
  }

  lemma MarkFirst(mark: byte, later: seq<byte>, flush: byte -> bool)
    ensures var all := Decode([] + MarkMessage(mark) + later, flush);
            if flush(mark) then all == Decoded([], [mark], true)
            else var r := Decode(later, flush); all == Decoded([] + r.out, [mark] + r.marks, r.flushed)
  {
    var w := [] + MarkMessage(mark) + later;
    assert w[5..] == later;
    assert [] + Decode(later, flush).out == Decode(later, flush).out;
  }

  lemma PairBefore(ss: seq<Sent>, tail: seq<byte>, flush: byte -> bool)
    requires ss != [] && ss[0].Pair?
    ensures var raw := [Raw(FF), Raw(FF)] + ss[1..];
            && Decode(Wire(ss) + tail, flush) == Decode(Wire(raw) + tail, flush)
            && Data(raw) == Data(ss) && |Wire(raw)| < |Wire(ss)|
  {
    hide Wire, Data, Decode;
    var raw := [Raw(FF), Raw(FF)] + ss[1..];
    PairWire(ss);
    QuotedDecodes(Wire(ss[1..]) + tail, flush);
    assert Wire(ss) + tail == [FF, FF, Q, Q] + (Wire(ss[1..]) + tail);
    assert Wire(raw) + tail == [FF, FF] + (Wire(ss[1..]) + tail);
  }

  /** In front of a mark the scan sees a control only where the data has one. */
  lemma NoControlBeforeMark(ss: seq<Sent>, mark: byte, later: seq<byte>)
    requires ss != [] && ss[0].Raw? && !IsMark(Data(ss) + [FF, FF]) && !IsQuoted(Data(ss) + [FF, FF])
    ensures var w := Wire(ss) + MarkMessage(mark) + later; !IsMark(w) && !IsQuoted(w)
  {
    hide Wire, Data;
    var xs := ss + [Raw(FF), Raw(FF)];
    assert xs[0] == ss[0];
    StepsConcat(ss, [Raw(FF), Raw(FF)]);
    FlagsRaw();
    RawHead(xs);
    TwoHeads(ss);
    FlagsBeforeMark(Wire(ss), [mark] + later);
    assert Wire(ss) + MarkMessage(mark) + later == Wire(ss) + [FF, FF] + [O, O] + ([mark] + later);
  }

  lemma FlagsBeforeMark(u: seq<byte>, more: seq<byte>)
    requires u != [] && !IsMark(u + [FF, FF]) && !IsQuoted(u + [FF, FF])
    ensures var w := u + [FF, FF] + [O, O] + more; !IsMark(w) && !IsQuoted(w)
  {
    var x, w := u + [FF, FF], u + [FF, FF] + [O, O] + more;
    if |u| == 1 {
      assert w[2] == FF;
    } else if |u| == 2 {
      assert w[2] == FF;
    } else {
      assert w[0] == x[0] && w[1] == x[1] && w[2] == x[2] && w[3] == x[3];
    }
  }
}
