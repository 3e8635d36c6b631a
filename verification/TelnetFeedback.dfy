/** The DES feedback modes of telnet (telnet/libtelnet/enc_des.c): 64-bit cipher feedback and output
    feedback over an arbitrary block function.  See section 4 of RFC 2952 and section 4 of RFC 2953. */
module TelnetFeedback {

  type Octet = bv8
  type Block = b: seq<Octet> | |b| == 8 witness [0, 0, 0, 0, 0, 0, 0, 0]

  /** The part of `struct stinfo` that the two modes use. */
  datatype Feedback = Feedback(output: Block, feed: Block, index: nat)

  predicate InRange(s: Feedback) { s.index <= 8 }

  // ---------- one octet ----------

  /** At the end of a block the next feed is made. */
  function CfbReady(des: Block -> Block, s: Feedback): Feedback {
    if s.index == 8 then s.(feed := des(s.output), index := 0) else s
  }

  function CfbEncryptOctet(des: Block -> Block, s: Feedback, x: Octet): (r: (Feedback, Octet))
    requires InRange(s)
    ensures InRange(r.0)
  {
    var t := CfbReady(des, s);
    var y := t.feed[t.index] ^ x;
    (t.(output := t.output[t.index := y], index := t.index + 1), y)
  }

  function CfbDecryptOctet(des: Block -> Block, s: Feedback, y: Octet): (r: (Feedback, Octet))
    requires InRange(s)
    ensures InRange(r.0)
  {
    var t := CfbReady(des, s);
    (t.(output := t.output[t.index := y], index := t.index + 1), y ^ t.feed[t.index])
  }

  function OfbReady(des: Block -> Block, s: Feedback): Feedback {
    if s.index == 8 then s.(feed := des(s.feed), index := 0) else s
  }

  function OfbOctet(des: Block -> Block, s: Feedback, x: Octet): (r: (Feedback, Octet))
    requires InRange(s)
    ensures InRange(r.0)
  {
    var t := OfbReady(des, s);
    (t.(index := t.index + 1), x ^ t.feed[t.index])
  }

  function BackUp(s: Feedback): Feedback {
    if s.index > 0 then s.(index := s.index - 1) else s
  }

  // ---------- strings of octets ----------

  function CfbEncrypt(des: Block -> Block, s: Feedback, p: seq<Octet>): (r: (Feedback, seq<Octet>))
    requires InRange(s)
    ensures InRange(r.0) && |r.1| == |p|
    decreases p
  {
    if p == [] then (s, []) else
    var (s1, y) := CfbEncryptOctet(des, s, p[0]);
    var (s2, ys) := CfbEncrypt(des, s1, p[1..]);
    (s2, [y] + ys)
  }

  function CfbDecrypt(des: Block -> Block, s: Feedback, c: seq<Octet>): (r: (Feedback, seq<Octet>))
    requires InRange(s)
    ensures InRange(r.0) && |r.1| == |c|
    decreases c
  {
    if c == [] then (s, []) else
    var (s1, x) := CfbDecryptOctet(des, s, c[0]);
    var (s2, xs) := CfbDecrypt(des, s1, c[1..]);
    (s2, [x] + xs)
  }

  function Ofb(des: Block -> Block, s: Feedback, p: seq<Octet>): (r: (Feedback, seq<Octet>))
    requires InRange(s)
    ensures InRange(r.0) && |r.1| == |p|
    decreases p
  {
    if p == [] then (s, []) else
    var (s1, y) := OfbOctet(des, s, p[0]);
    var (s2, ys) := Ofb(des, s1, p[1..]);
    (s2, [y] + ys)
  }

  lemma CfbHead(des: Block -> Block, s: Feedback, p: seq<Octet>)
    requires InRange(s)
    ensures p == [] ==> CfbEncrypt(des, s, p) == (s, [])
    ensures p != [] ==>
              var (s1, y) := CfbEncryptOctet(des, s, p[0]);
              var (s2, ys) := CfbEncrypt(des, s1, p[1..]);
              CfbEncrypt(des, s, p) == (s2, [y] + ys)
  {
    hide CfbEncryptOctet;
  }

  lemma OfbHead(des: Block -> Block, s: Feedback, p: seq<Octet>)
    requires InRange(s)
    ensures p == [] ==> Ofb(des, s, p) == (s, [])
    ensures p != [] ==>
              var (s1, y) := OfbOctet(des, s, p[0]);
              var (s2, ys) := Ofb(des, s1, p[1..]);
              Ofb(des, s, p) == (s2, [y] + ys)
  {
    hide OfbOctet;
  }

  /** Cutting the text into several calls changes nothing. */
  lemma {:induction false} CfbEncryptConcat(des: Block -> Block, s: Feedback, a: seq<Octet>, b: seq<Octet>)
    requires InRange(s)
    ensures var (s1, x) := CfbEncrypt(des, s, a);
            var (s2, y) := CfbEncrypt(des, s1, b);
            CfbEncrypt(des, s, a + b) == (s2, x + y)
    decreases a
  {
    hide CfbEncryptOctet, CfbEncrypt;
    CfbHead(des, s, a);
    CfbHead(des, s, a + b);
    if a == [] {
      assert a + b == b && [] + CfbEncrypt(des, s, b).1 == CfbEncrypt(des, s, b).1;
    } else {
      var (s1, c) := CfbEncryptOctet(des, s, a[0]);
      var (s2, x) := CfbEncrypt(des, s1, a[1..]);
      CfbEncryptConcat(des, s1, a[1..], b);
      assert (a + b)[0] == a[0] && (a + b)[1..] == a[1..] + b;
      assert [c] + (x + CfbEncrypt(des, s2, b).1) == ([c] + x) + CfbEncrypt(des, s2, b).1;
    }
  }

  lemma CfbEncryptSnoc(des: Block -> Block, s: Feedback, a: seq<Octet>, x: Octet)
    requires InRange(s)
    ensures var (s1, ys) := CfbEncrypt(des, s, a);
            var (s2, y) := CfbEncryptOctet(des, s1, x);
            CfbEncrypt(des, s, a + [x]) == (s2, ys + [y])
  {
    CfbEncryptConcat(des, s, a, [x]);
    var s1 := CfbEncrypt(des, s, a).0;
    var (s2, y) := CfbEncryptOctet(des, s1, x);
    assert [x][1..] == [] && [y] + [] == [y];
    assert CfbEncrypt(des, s1, [x]) == (s2, [y]);
  }

  lemma {:induction false} OfbConcat(des: Block -> Block, s: Feedback, a: seq<Octet>, b: seq<Octet>)
    requires InRange(s)
    ensures var (s1, x) := Ofb(des, s, a);
            var (s2, y) := Ofb(des, s1, b);
            Ofb(des, s, a + b) == (s2, x + y)
    decreases a
  {
    hide OfbOctet, Ofb;
    OfbHead(des, s, a);
    OfbHead(des, s, a + b);
    if a == [] {
      assert a + b == b && [] + Ofb(des, s, b).1 == Ofb(des, s, b).1;
    } else {
      var (s1, c) := OfbOctet(des, s, a[0]);
      var (s2, x) := Ofb(des, s1, a[1..]);
      OfbConcat(des, s1, a[1..], b);
      assert (a + b)[0] == a[0] && (a + b)[1..] == a[1..] + b;
      assert [c] + (x + Ofb(des, s2, b).1) == ([c] + x) + Ofb(des, s2, b).1;
    }
  }

  lemma OfbSnoc(des: Block -> Block, s: Feedback, a: seq<Octet>, x: Octet)
    requires InRange(s)
    ensures var (s1, ys) := Ofb(des, s, a);
            var (s2, y) := OfbOctet(des, s1, x);
            Ofb(des, s, a + [x]) == (s2, ys + [y])
  {
    OfbConcat(des, s, a, [x]);
    var s1 := Ofb(des, s, a).0;
    var (s2, y) := OfbOctet(des, s1, x);
    assert [x][1..] == [] && [y] + [] == [y];
    assert Ofb(des, s1, [x]) == (s2, [y]);
  }

  // ---------- the modes as the header comments define them ----------

  function Xor(a: seq<Octet>, b: Block): (r: seq<Octet>)
    requires |a| <= 8
    ensures |r| == |a|
  {
    seq(|a|, i requires 0 <= i < |a| => a[i] ^ b[i])
  }

  /** V0 = DES(iV), On = Dn ^ Vn, V(n+1) = DES(On). */
  function CfbBlocks(des: Block -> Block, v: Block, p: seq<Octet>): seq<Octet>
    decreases |p|
  {
    if |p| <= 8 then Xor(p, des(v)) else
    var o: Block := Xor(p[..8], des(v));
    o + CfbBlocks(des, o, p[8..])
  }

  /** V(n+1) = DES(Vn), On = Dn ^ Vn, from the block before V0. */
  function OfbBlocks(des: Block -> Block, v: Block, p: seq<Octet>): seq<Octet>
    decreases |p|
  {
    if |p| <= 8 then Xor(p, des(v)) else Xor(p[..8], des(v)) + OfbBlocks(des, des(v), p[8..])
  }

  // ---------- the functions that work in place ----------

  class StreamInfo {
    const output: array<Octet>
    const feed: array<Octet>
    const iv: array<Octet>
    var index: int

    ghost predicate Valid()
      reads this
    {
      && output.Length == feed.Length == iv.Length == 8
      && output != feed && feed != iv && output != iv
      && 0 <= index <= 8
    }

    ghost function View(): (s: Feedback)
      requires Valid()
      reads this, output, feed
      ensures InRange(s)
    {
      Feedback(output[..], feed[..], index)
    }

    /** As `fb64_init` leaves it. */
    constructor ()
      ensures Valid() && fresh(output) && fresh(feed) && fresh(iv)
      ensures forall i :: 0 <= i < 8 ==> output[i] == 0 && feed[i] == 0 && iv[i] == 0
      ensures index == 0
    {
      output := new Octet[8](i => 0);
      feed := new Octet[8](i => 0);
      iv := new Octet[8](i => 0);
      index := 0;
    }

    /** `fb64_stream_iv`: the feed is not touched. */
    method StreamIv(seed: Block)
      requires Valid()
      modifies this`index, iv, output
      ensures Valid() && iv[..] == seed && View() == Feedback(seed, old(feed[..]), 8)
    {
      forall i | 0 <= i < 8 {
        iv[i] := seed[i];
      }
      forall i | 0 <= i < 8 {
        output[i] := seed[i];
      }
      index := 8;
    }

    /** `fb64_stream_key`, apart from the key itself. */
    method StreamKey()
      requires Valid()
      modifies this`index, output
      ensures Valid() && View() == Feedback(old(iv[..]), old(feed[..]), 8)
    {
      forall i | 0 <= i < 8 {
        output[i] := iv[i];
      }
      index := 8;
    }

    method Refill(des: Block -> Block, from: Block)
      requires feed.Length == 8
      modifies feed
      ensures feed[..] == des(from)
    {
      var b := des(from);
      forall i | 0 <= i < 8 {
        feed[i] := b[i];
      }
    }

    /** The body of the loop of `cfb64_encrypt`. */
    method NextCfb(des: Block -> Block, x: Octet) returns (y: Octet)
      requires Valid()
      modifies this`index, output, feed
      ensures Valid() && (View(), y) == CfbEncryptOctet(des, old(View()), x)
    {
      if index == 8 {
        Refill(des, output[..]);
        index := 0;
      }
      y := feed[index] ^ x;
      output[index] := y;
      index := index + 1;
    }

    /** The body of the loop of `ofb64_encrypt`. */
    method NextOfb(des: Block -> Block, x: Octet) returns (y: Octet)
      requires Valid()
      modifies this`index, feed
      ensures Valid() && (View(), y) == OfbOctet(des, old(View()), x)
    {
      if index == 8 {
        Refill(des, feed[..]);
        index := 0;
      }
      y := x ^ feed[index];
      index := index + 1;
    }

    /** `cfb64_encrypt`: the first `c` octets of `s` are replaced. */
    method EncryptCfb(des: Block -> Block, s: array<Octet>, c: nat)
      requires Valid() && c <= s.Length && s != output && s != feed
      modifies this`index, output, feed, s
      ensures Valid()
      ensures (View(), s[..c]) == CfbEncrypt(des, old(View()), old(s[..c]))
      ensures s[c..] == old(s[c..])
    {
      hide CfbEncryptOctet;
      var i := 0;
      ghost var start, whole := View(), s[..c];
      assert whole[..0] == [] && CfbEncrypt(des, start, []) == (start, []);
      while i < c
        invariant 0 <= i <= c && Valid()
        invariant s[i..] == old(s[i..])
        invariant CfbEncrypt(des, start, whole[..i]) == (View(), s[..i])
      {
        ghost var done := s[..i];
        assert s[i] == s[i..][0] == whole[i];
        CfbEncryptSnoc(des, start, whole[..i], whole[i]);
        ghost var tail := s[i..];
        s[i] := NextCfb(des, s[i]);
        assert s[i + 1..] == tail[1..];
        assert whole[..i] + [whole[i]] == whole[..i + 1] && s[..i + 1] == done + [s[i]];
        i := i + 1;
      }
      assert whole[..c] == whole;
    }

    /** `cfb64_decrypt`: one octet, or -1 to back up by one. */
    method DecryptCfb(des: Block -> Block, data: int) returns (r: int)
      requires Valid() && -1 <= data < 256
      modifies this`index, output, feed
      ensures Valid()
      ensures data == -1 ==> r == 0 && View() == BackUp(old(View()))
      ensures data >= 0 ==> var (s, x) := CfbDecryptOctet(des, old(View()), data as Octet); View() == s && r == x as int
    {
      if data == -1 {
        if index != 0 {
          index := index - 1;
        }
        return 0;
      }
      var idx := index;
      index := index + 1;
      if idx == 8 {
        Refill(des, output[..]);
        index := 1;
        idx := 0;
      }
      output[idx] := data as Octet;
      r := (data as Octet ^ feed[idx]) as int;
    }

    /** `ofb64_encrypt`. */
    method EncryptOfb(des: Block -> Block, s: array<Octet>, c: nat)
      requires Valid() && c <= s.Length && s != output && s != feed
      modifies this`index, feed, s
      ensures Valid()
      ensures (View(), s[..c]) == Ofb(des, old(View()), old(s[..c]))
      ensures s[c..] == old(s[c..])
    {
      hide OfbOctet;
      var i := 0;
      ghost var start, whole := View(), s[..c];
      assert whole[..0] == [] && Ofb(des, start, []) == (start, []);
      while i < c
        invariant 0 <= i <= c && Valid()
        invariant s[i..] == old(s[i..])
        invariant Ofb(des, start, whole[..i]) == (View(), s[..i])
      {
        ghost var done := s[..i];
        assert s[i] == s[i..][0] == whole[i];
        OfbSnoc(des, start, whole[..i], whole[i]);
        ghost var tail := s[i..];
        s[i] := NextOfb(des, s[i]);
        assert s[i + 1..] == tail[1..];
        assert whole[..i] + [whole[i]] == whole[..i + 1] && s[..i + 1] == done + [s[i]];
        i := i + 1;
      }
      assert whole[..c] == whole;
    }

    /** `ofb64_decrypt`: one octet, or -1 to back up by one. */
    method DecryptOfb(des: Block -> Block, data: int) returns (r: int)
      requires Valid() && -1 <= data < 256
      modifies this`index, feed
      ensures Valid()
      ensures data == -1 ==> r == 0 && View() == BackUp(old(View()))
      ensures data >= 0 ==> var (s, x) := OfbOctet(des, old(View()), data as Octet); View() == s && r == x as int
    {
      if data == -1 {
        if index != 0 {
          index := index - 1;
        }
        return 0;
      }
      var idx := index;
      index := index + 1;
      if idx == 8 {
        Refill(des, feed[..]);
        index := 1;
        idx := 0;
      }
      r := (data as Octet ^ feed[idx]) as int;
    }
  }
}
