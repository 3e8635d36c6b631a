/** Window size messages of rlogin: `sendwindow` of the client (bsd/krlogin.c) puts them into the stream of
    keystrokes, the server's `protocol` loop with `control` (bsd/krlogind.c) takes them out again. */
module RloginWindows {
  import opened Bytes
  import opened RloginInband

  predicate IsWindow(w: seq<byte>) {
    |w| >= 4 + WINSIZE && w[0] == FF && w[1] == FF && w[2] == S && w[3] == S
  }

  /** The keystrokes and the window sizes in what the server has read. */
  function Strip(w: seq<byte>): (seq<byte>, seq<seq<byte>>)
    decreases |w|
  {
    if |w| < 2 then (w, [])
    else if IsWindow(w) then var (d, sizes) := Strip(w[4 + WINSIZE..]); (d, [w[4..4 + WINSIZE]] + sizes)
    else var (d, sizes) := Strip(w[1..]); ([w[0]] + d, sizes)
  }

  /** The stripping loop of `protocol` over the first `cnt` octets of `fibuf`. */
  method StripBuffer(fibuf: array<byte>, cnt: nat) returns (fcc: nat, sizes: seq<seq<byte>>)
    requires cnt <= fibuf.Length
    modifies fibuf
    ensures fcc <= cnt && (fibuf[..fcc], sizes) == Strip(old(fibuf[..cnt]))
  {
    hide Strip, Came;
    fcc, sizes := cnt, [];
    ghost var all := Strip(fibuf[..cnt]);
    var cp := 0;
    assert fibuf[cp..fcc] == fibuf[..cnt] && fibuf[..cp] == [];
    NothingCame(fibuf[..cnt]);
    while cp + 1 < fcc
      invariant 0 <= cp <= fcc <= cnt
      invariant Came(all, fibuf[..cp], sizes, fibuf[cp..fcc])
      decreases fcc - cp
    {
      ghost var done, w := fibuf[..cp], fibuf[cp..fcc];
      if fibuf[cp] == FF && fibuf[cp + 1] == FF && fcc - cp >= 4 + WINSIZE && fibuf[cp + 2] == S && fibuf[cp + 3] == S {
        var size := fibuf[cp + 4..cp + 4 + WINSIZE];
        SizeAt(fibuf, cp, fcc);
        WindowCame(all, done, sizes, w);
        sizes := sizes + [size];
        TakeOut(fibuf, cp, 4 + WINSIZE, fcc);
        fcc := fcc - (4 + WINSIZE);
      } else {
        KeyCame(all, done, sizes, w);
        OneOn(fibuf, cp, fcc);
        cp := cp + 1;
      }
    }
    LastCame(all, fibuf[..cp], sizes, fibuf[cp..fcc]);
    assert fibuf[..cp] + fibuf[cp..fcc] == fibuf[..fcc];
  }

  lemma SizeAt(a: array<byte>, cp: nat, end: nat)
    requires cp + 4 + WINSIZE <= end <= a.Length
    ensures a[cp + 4..cp + 4 + WINSIZE] == a[cp..end][4..4 + WINSIZE]
  {
    var size, w := a[cp + 4..cp + 4 + WINSIZE], a[cp..end];
    forall k | 0 <= k < WINSIZE
      ensures size[k] == w[4..4 + WINSIZE][k]
    {
      assert size[k] == a[cp + 4 + k] == w[4 + k];
    }
    assert size == w[4..4 + WINSIZE];
  }

  /** How the outcome for the whole buffer follows from what has come and what is still to be looked at. */
  predicate Came(all: (seq<byte>, seq<seq<byte>>), done: seq<byte>, sizes: seq<seq<byte>>, w: seq<byte>) {
    all == (done + Strip(w).0, sizes + Strip(w).1)
  }

  lemma NothingCame(w: seq<byte>)
    ensures Came(Strip(w), [], [], w)
  {
    hide Strip;
    assert [] + Strip(w).0 == Strip(w).0 && [] + Strip(w).1 == Strip(w).1;
  }

  lemma WindowCame(all: (seq<byte>, seq<seq<byte>>), done: seq<byte>, sizes: seq<seq<byte>>, w: seq<byte>)
    requires Came(all, done, sizes, w) && IsWindow(w)
    ensures Came(all, done, sizes + [w[4..4 + WINSIZE]], w[4 + WINSIZE..])
  {
    hide Strip;
    StripStep(w);
    var r := Strip(w[4 + WINSIZE..]).1;
    assert sizes + ([w[4..4 + WINSIZE]] + r) == (sizes + [w[4..4 + WINSIZE]]) + r;
  }

  lemma KeyCame(all: (seq<byte>, seq<seq<byte>>), done: seq<byte>, sizes: seq<seq<byte>>, w: seq<byte>)
    requires |w| >= 2 && Came(all, done, sizes, w) && !IsWindow(w)
    ensures Came(all, done + [w[0]], sizes, w[1..])
  {
    hide Strip, IsWindow;
    StripStep(w);
    assert done + ([w[0]] + Strip(w[1..]).0) == (done + [w[0]]) + Strip(w[1..]).0;
  }

  lemma LastCame(all: (seq<byte>, seq<seq<byte>>), done: seq<byte>, sizes: seq<seq<byte>>, w: seq<byte>)
    requires |w| < 2 && Came(all, done, sizes, w)
    ensures all == (done + w, sizes)
  {
    assert sizes + [] == sizes;
  }

  lemma StripStep(w: seq<byte>)
    ensures |w| < 2 ==> Strip(w) == (w, [])
    ensures |w| >= 2 && IsWindow(w) ==>
              Strip(w) == (Strip(w[4 + WINSIZE..]).0, [w[4..4 + WINSIZE]] + Strip(w[4 + WINSIZE..]).1)
    ensures |w| >= 2 && !IsWindow(w) ==> Strip(w) == ([w[0]] + Strip(w[1..]).0, Strip(w[1..]).1)
  {
  }

  /** A whole window message stands at `i`: two flags, two letters and the size. */
  predicate WindowAt(d: seq<byte>, i: nat) {
    i + 12 <= |d| && d[i] == 0xFF && d[i + 1] == 0xFF && d[i + 2] == 's' as byte && d[i + 3] == 's' as byte
  }

  // ---------- what the client sends ----------

  datatype Act = Typed(x: byte) | Resized(size: seq<byte>)

  predicate Sized(acts: seq<Act>) {
    forall i :: 0 <= i < |acts| && acts[i].Resized? ==> |acts[i].size| == WINSIZE
  }

  function Wire(acts: seq<Act>): seq<byte> {
    if acts == [] then []
    else (match acts[0] case Typed(x) => [x] case Resized(z) => [FF, FF, S, S] + z) + Wire(acts[1..])
  }

  function Keys(acts: seq<Act>): seq<byte> {
    if acts == [] then [] else (match acts[0] case Typed(x) => [x] case Resized(_) => []) + Keys(acts[1..])
  }

  function Sizes(acts: seq<Act>): seq<seq<byte>> {
    if acts == [] then [] else (match acts[0] case Typed(_) => [] case Resized(z) => [z]) + Sizes(acts[1..])
  }

  /** Nowhere does something typed look to the server like a window message. */
  predicate NoFalseWindow(acts: seq<Act>) {
    forall i :: 0 <= i < |acts| && acts[i].Typed? ==> !WindowAt(Wire(acts[i..]), 0)
  }

  lemma Head(acts: seq<Act>)
    requires acts != []
    ensures acts[0].Typed? ==>
              && Wire(acts) == [acts[0].x] + Wire(acts[1..]) && Keys(acts) == [acts[0].x] + Keys(acts[1..])
              && Sizes(acts) == Sizes(acts[1..])
    ensures acts[0].Resized? ==>
              Wire(acts) == [FF, FF, S, S] + acts[0].size + Wire(acts[1..]) && Keys(acts) == Keys(acts[1..])
              && Sizes(acts) == [acts[0].size] + Sizes(acts[1..])
  {
    assert [] + Sizes(acts[1..]) == Sizes(acts[1..]) && [] + Keys(acts[1..]) == Keys(acts[1..]);
  }

  lemma WireEmpty()
    ensures Wire([]) == [] && Keys([]) == [] && Sizes([]) == []
  {
  }

  /** Keystrokes and window changes, in any order, come apart again at the server. */
  lemma {:induction false} WindowsComeApart(acts: seq<Act>)
    requires Sized(acts) && NoFalseWindow(acts)
    ensures Strip(Wire(acts)) == (Keys(acts), Sizes(acts))
    decreases acts
  {
    hide Wire, Keys, Sizes, Strip;
    var w := Wire(acts);
    StripStep(w);
    if acts == [] {
      WireEmpty();
    } else {
      var rest := acts[1..];
      Head(acts);
      assert Sized(rest) && NoFalseWindow(rest) by { RestIsGood(acts); }
      WindowsComeApart(rest);
      if acts[0].Resized? {
        assert |acts[0].size| == WINSIZE;
        assert w[4..4 + WINSIZE] == acts[0].size && w[4 + WINSIZE..] == Wire(rest);
        assert IsWindow(w);
      } else {
        assert w[1..] == Wire(rest) && acts[0..] == acts;
        if |w| < 2 {
          assert Wire(rest) == [];
          StripStep(Wire(rest));
          assert w == [w[0]];
        }
      }
    }
  }

  lemma RestIsGood(acts: seq<Act>)
    requires acts != [] && Sized(acts) && NoFalseWindow(acts)
    ensures Sized(acts[1..]) && NoFalseWindow(acts[1..])
  {
    forall i | 0 <= i < |acts[1..]| && acts[1..][i].Resized?
      ensures |acts[1..][i].size| == WINSIZE
    {
      assert acts[1..][i] == acts[i + 1];
    }
    forall i | 0 <= i < |acts[1..]| && acts[1..][i].Typed?
      ensures !WindowAt(Wire(acts[1..][i..]), 0)
    {
      assert acts[1..][i] == acts[i + 1] && acts[1..][i..] == acts[i + 1..];
    }
  }

  /** Four flags and letters typed, and a window change. */
  function TypedFour(z: seq<byte>): seq<Act> { [Typed(FF), Typed(FF), Typed(S), Typed(S), Resized(z)] }

  lemma WireOfFour(z: seq<byte>)
    ensures var f := [FF, FF, S, S];
      Wire(TypedFour(z)) == f + (f + z) && Keys(TypedFour(z)) == f && Sizes(TypedFour(z)) == [z]
  {
    hide Wire, Keys, Sizes;
    var acts := TypedFour(z);
    var t1, t2, t3, t4 := acts[1..], acts[2..], acts[3..], acts[4..];
    assert t1[1..] == t2 && t2[1..] == t3 && t3[1..] == t4 && t4[1..] == [];
    WireEmpty();
    Head(acts);
    Head(t1);
    Head(t2);
    Head(t3);
    Head(t4);
    assert [z] + [] == [z];
  }

  /** The condition is not needed in every case: here the text loses its octets to a message that gives the
      same ones back. */
  lemma FalseWindowMadeGood()
    ensures var z := [FF, FF, S, S] + [FF, FF, S, S];
      var acts := TypedFour(z);
      Sized(acts) && !NoFalseWindow(acts) && Strip(Wire(acts)) == (Keys(acts), Sizes(acts))
  {
    hide Wire, Keys, Sizes, Strip;
    var f := [FF, FF, S, S];
    var z := f + f;
    var acts := TypedFour(z);
    WireOfFour(z);
    var w := Wire(acts);
    assert acts[0..] == acts && acts[0].Typed? && IsWindow(w);
    assert w[4..4 + WINSIZE] == z && w[4 + WINSIZE..] == f;
    StripStep(w);
    TypedTextPasses(f);
    assert [z] + [] == [z];
  }

  // ---------- more than one read ----------

  /** Keystrokes and sizes of one read after the other: each is stripped by itself. */
  function StripReads(pieces: seq<seq<byte>>): (seq<byte>, seq<seq<byte>>) {
    if pieces == [] then ([], [])
    else (Strip(pieces[0]).0 + StripReads(pieces[1..]).0, Strip(pieces[0]).1 + StripReads(pieces[1..]).1)
  }

  /** No window message begins in `a` and ends in `b`. */
  predicate NoneAcross(a: seq<byte>, b: seq<byte>) {
    forall i :: 0 <= i < |a| && WindowAt(a + b, i) ==> i + 12 <= |a|
  }

  predicate NoneCut(pieces: seq<seq<byte>>) {
    pieces == [] || (NoneAcross(pieces[0], Flat(pieces[1..])) && NoneCut(pieces[1..]))
  }

  lemma {:induction false} StripConcat(a: seq<byte>, b: seq<byte>)
    requires NoneAcross(a, b)
    ensures Strip(a + b) == (Strip(a).0 + Strip(b).0, Strip(a).1 + Strip(b).1)
    decreases |a|
  {
    hide Strip, NoneAcross;
    var w := a + b;
    if a == [] {
      StripStep(a);
      assert w == b && [] + Strip(b).0 == Strip(b).0 && [] + Strip(b).1 == Strip(b).1;
    } else {
      var n := if IsWindow(w) then 4 + WINSIZE else 1;
      AcrossLater(a, b, n);
      assert w[n..] == a[n..] + b;
      StripConcat(a[n..], b);
      var r, q := Strip(a[n..]), Strip(b);
      if IsWindow(w) {
        StripStep(a);
        StripStep(w);
        assert w[4..4 + WINSIZE] == a[4..4 + WINSIZE];
        assert [a[4..4 + WINSIZE]] + (r.1 + q.1) == ([a[4..4 + WINSIZE]] + r.1) + q.1;
      } else {
        KeyFirst(a);
        KeyFirst(w);
        assert [a[0]] + (r.0 + q.0) == ([a[0]] + r.0) + q.0;
      }
    }
  }

  lemma KeyFirst(w: seq<byte>)
    requires w != [] && !IsWindow(w)
    ensures Strip(w) == ([w[0]] + Strip(w[1..]).0, Strip(w[1..]).1)
  {
    if |w| == 1 {
      assert w[1..] == [] && w == [w[0]] + [];
    }
  }

  lemma AcrossLater(a: seq<byte>, b: seq<byte>, n: nat)
    requires a != [] && NoneAcross(a, b) && n == if IsWindow(a + b) then 4 + WINSIZE else 1
    ensures n <= |a| && (IsWindow(a) <==> IsWindow(a + b)) && NoneAcross(a[n..], b)
  {
    assert IsWindow(a + b) ==> WindowAt(a + b, 0);
    forall i | 0 <= i < |a[n..]| && WindowAt(a[n..] + b, i)
      ensures i + 12 <= |a[n..]|
    {
      assert WindowAt(a + b, n + i);
    }
  }

  /** What the client sends comes apart whatever reads it arrives in, if none of them ends within a message. */
  lemma ReadsComeApart(acts: seq<Act>, pieces: seq<seq<byte>>)
    requires Sized(acts) && NoFalseWindow(acts) && Flat(pieces) == Wire(acts) && NoneCut(pieces)
    ensures StripReads(pieces) == (Keys(acts), Sizes(acts))
  {
    ReadsAsOne(pieces);
    WindowsComeApart(acts);
  }

  lemma {:induction false} ReadsAsOne(pieces: seq<seq<byte>>)
    requires NoneCut(pieces)
    ensures StripReads(pieces) == Strip(Flat(pieces))
    decreases pieces
  {
    if pieces != [] {
      ReadsAsOne(pieces[1..]);
      StripConcat(pieces[0], Flat(pieces[1..]));
    }
  }

  /** A message that two reads cut anywhere is typed at the shell, octet by octet. */
  lemma CutMessageIsTyped(size: seq<byte>, k: nat)
    requires |size| == 8 && 0 < k < 12
    ensures var m := [0xFF, 0xFF, 's' as byte, 's' as byte] + size;
            StripReads([m[..k], m[k..]]) == (m, []) && Strip(m) == ([], [size])
  {
    hide Strip;
    var m := [FF, FF, S, S] + size;
    TwoReads(m[..k], m[k..]);
    ShortIsTyped(m[..k]);
    ShortIsTyped(m[k..]);
    assert m == m[..k] + m[k..];
    var none: seq<seq<byte>> := [];
    assert none + none == none;
    assert m[4..4 + WINSIZE] == size && m[4 + WINSIZE..] == [] && [size] + [] == [size];
    StripStep(m);
    StripStep([]);
  }

  lemma TwoReads(a: seq<byte>, b: seq<byte>)
    ensures StripReads([a, b]) == (Strip(a).0 + Strip(b).0, Strip(a).1 + Strip(b).1)
  {
    hide Strip;
    var pieces: seq<seq<byte>> := [a, b];
    assert pieces[1..] == [b] && pieces[1..][1..] == [];
    assert StripReads([b]) == (Strip(b).0 + [], Strip(b).1 + []);
    assert Strip(b).0 + [] == Strip(b).0 && Strip(b).1 + [] == Strip(b).1;
  }

  lemma {:induction false} ShortIsTyped(w: seq<byte>)
    requires |w| < 4 + WINSIZE
    ensures Strip(w) == (w, [])
    decreases |w|
  {
    if |w| >= 2 {
      ShortIsTyped(w[1..]);
      assert w == [w[0]] + w[1..];
    }
  }

  // ---------- nothing but keystrokes ----------

  ghost predicate ShowsWindow(d: seq<byte>) { exists i: nat :: WindowAt(d, i) }

  lemma ShowsWindowSplits(d: seq<byte>)
    requires d != []
    ensures ShowsWindow(d) <==> IsWindow(d) || ShowsWindow(d[1..])
  {
    if i: nat :| WindowAt(d, i) {
      if i > 0 {
        assert WindowAt(d[1..], i - 1);
      } else {
        assert IsWindow(d);
      }
    }
    if IsWindow(d) {
      assert WindowAt(d, 0);
    }
    if i: nat :| WindowAt(d[1..], i) {
      assert WindowAt(d, i + 1);
    }
  }

  /** What has been typed reaches the shell as it was if and only if it nowhere looks like a window message;
      otherwise octets of it are taken out and become window sizes. */
  lemma {:induction false} TypedTextPasses(d: seq<byte>)
    ensures Strip(d) == (d, []) <==> !ShowsWindow(d)
    ensures ShowsWindow(d) ==> |Strip(d).0| < |d| && Strip(d).1 != []
    decreases |d|
  {
    hide ShowsWindow;
    StripShrinks(d);
    if |d| >= 2 {
      ShowsWindowSplits(d);
      if IsWindow(d) {
        assert Strip(d).1 != [];
      } else {
        TypedTextPasses(d[1..]);
        assert d == [d[0]] + d[1..];
      }
    } else {
      TooShort(d);
    }
  }

  lemma TooShort(d: seq<byte>)
    requires |d| < 2
    ensures !ShowsWindow(d)
  {
  }

  /** Every octet is a keystroke or part of a message. */
  lemma {:induction false} StripShrinks(w: seq<byte>)
    ensures |Strip(w).0| + (4 + WINSIZE) * |Strip(w).1| == |w|
    decreases |w|
  {
    if |w| >= 2 {
      if IsWindow(w) {
        StripShrinks(w[4 + WINSIZE..]);
      } else {
        StripShrinks(w[1..]);
      }
    }
  }
}
