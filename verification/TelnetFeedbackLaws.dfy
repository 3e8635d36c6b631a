/** What the feedback modes of telnet/libtelnet/enc_des.c compute, that decryption undoes encryption, how
    far an error spreads, and that backing up is exact. */
module TelnetFeedbackLaws {
  import opened Bytes
  import opened TelnetFeedback

  // ---------- cipher feedback is what the header comment draws ----------

  /** Each octet is combined with the octet of the feed at its place in the block. */
  ghost predicate Mixed(feed: Block, index: nat, p: seq<Octet>, y: seq<Octet>)
    requires index + |p| <= 8 && |y| == |p|
  {
    forall k :: 0 <= k < |p| ==> y[k] == p[k] ^ feed[index + k]
  }

  /** Within one block the results are also kept in the output block. */
  ghost predicate SameBlock(s: Feedback, p: seq<Octet>, t: Feedback, y: seq<Octet>)
    requires s.index + |p| <= 8 && |y| == |p|
  {
    && t.feed == s.feed && t.index == s.index + |p|
    && Mixed(s.feed, s.index, p, y)
    && (forall k :: 0 <= k < 8 ==> t.output[k] == if s.index <= k < s.index + |p| then y[k - s.index] else s.output[k])
  }

  lemma {:induction false} CfbWithinBlock(des: Block -> Block, s: Feedback, p: seq<Octet>)
    requires s.index + |p| <= 8 && (s.index == 8 ==> p == [])
    ensures SameBlock(s, p, CfbEncrypt(des, s, p).0, CfbEncrypt(des, s, p).1)
    decreases |p|
  {
    hide CfbReady, CfbEncryptOctet;
    if p != [] {
      var y0 := s.feed[s.index] ^ p[0];
      var s1 := s.(output := s.output[s.index := y0], index := s.index + 1);
      assert CfbEncryptOctet(des, s, p[0]) == (s1, y0) by { CfbMidBlock(des, s, p[0]); }
      var (t1, ys) := CfbEncrypt(des, s1, p[1..]);
      XorCommutes(p[0], s.feed[s.index]);
      CfbWithinBlock(des, s1, p[1..]);
      BlockGrows(s, p, s1, t1, y0, ys);
    }
  }

  lemma BlockGrows(s: Feedback, p: seq<Octet>, s1: Feedback, t: Feedback, y0: Octet, ys: seq<Octet>)
    requires p != [] && s.index + |p| <= 8 && |ys| == |p| - 1
    requires y0 == p[0] ^ s.feed[s.index]
    requires s1 == s.(output := s.output[s.index := y0], index := s.index + 1)
    requires SameBlock(s1, p[1..], t, ys)
    ensures SameBlock(s, p, t, [y0] + ys)
  {
    hide Mixed;
    OutputGrows(s.output, s.index, s1.output, t.output, y0, ys);
    MixGrows(s.feed, s.index, p, y0, ys);
  }

  lemma NothingMixed(feed: Block, index: nat)
    requires index <= 8
    ensures Mixed(feed, index, [], [])
  {
  }

  lemma MixGrows(feed: Block, index: nat, p: seq<Octet>, y0: Octet, ys: seq<Octet>)
    requires p != [] && index + |p| <= 8 && |ys| == |p| - 1
    requires y0 == p[0] ^ feed[index] && Mixed(feed, index + 1, p[1..], ys)
    ensures Mixed(feed, index, p, [y0] + ys)
  {
    forall k | 0 < k < |p|
      ensures ([y0] + ys)[k] == p[k] ^ feed[index + k]
    {
      var j := k - 1;
      assert ys[j] == p[1..][j] ^ feed[index + 1 + j];
    }
  }

  lemma OutputGrows<T>(o: seq<T>, index: nat, o1: seq<T>, t: seq<T>, y0: T, ys: seq<T>)
    requires |o| == |o1| == |t| == 8 && index + 1 + |ys| <= 8 && o1 == o[index := y0]
    requires forall k :: 0 <= k < 8 ==> t[k] == if index + 1 <= k < index + 1 + |ys| then ys[k - (index + 1)] else o1[k]
    ensures forall k :: 0 <= k < 8 ==> t[k] == if index <= k < index + 1 + |ys| then ([y0] + ys)[k - index] else o[k]
  {
  }

  lemma CfbMidBlock(des: Block -> Block, s: Feedback, x: Octet)
    requires s.index < 8
    ensures var y := s.feed[s.index] ^ x;
            CfbEncryptOctet(des, s, x) == (s.(output := s.output[s.index := y], index := s.index + 1), y)
  {
  }

  lemma CfbStartsBlock(des: Block -> Block, s: Feedback, p: seq<Octet>)
    requires s.index == 8 && p != []
    ensures CfbEncrypt(des, s, p) == CfbEncrypt(des, CfbReady(des, s), p)
  {
  }

  lemma {:induction false} CfbFollowsDiagram(des: Block -> Block, s: Feedback, p: seq<Octet>)
    requires s.index == 8
    ensures CfbEncrypt(des, s, p).1 == CfbBlocks(des, s.output, p)
    decreases |p|
  {
    if p != [] {
      var r := CfbReady(des, s);
      CfbStartsBlock(des, s, p);
      if |p| <= 8 {
        CfbWithinBlock(des, r, p);
        XorIs(p, des(s.output), CfbEncrypt(des, r, p).1);
      } else {
        var a, b := p[..8], p[8..];
        assert p == a + b;
        CfbWithinBlock(des, r, a);
        CfbEncryptConcat(des, r, a, b);
        var (t, y) := CfbEncrypt(des, r, a);
        XorIs(a, des(s.output), y);
        assert t.output == y && t.index == 8;
        CfbFollowsDiagram(des, t, b);
      }
    }
  }

  lemma XorIs(p: seq<Octet>, v: Block, y: seq<Octet>)
    requires |y| == |p| <= 8 && Mixed(v, 0, p, y)
    ensures y == Xor(p, v)
  {
  }

  lemma XorCommutes(x: Octet, v: Octet)
    ensures x ^ v == v ^ x
    ensures (v ^ x) ^ v == x && (x ^ v) ^ v == x
  {
  }

  /** The ciphertexts of a series of calls. */
  function CfbCalls(des: Block -> Block, s: Feedback, parts: seq<seq<Octet>>): seq<seq<Octet>>
    requires InRange(s)
    decreases parts
  {
    if parts == [] then [] else
    var (t, y) := CfbEncrypt(des, s, parts[0]);
    [y] + CfbCalls(des, t, parts[1..])
  }

  lemma {:induction false} CfbCallsConcat(des: Block -> Block, s: Feedback, parts: seq<seq<Octet>>)
    requires InRange(s)
    ensures Flat(CfbCalls(des, s, parts)) == CfbEncrypt(des, s, Flat(parts)).1
    decreases parts
  {
    if parts != [] {
      var (t, y) := CfbEncrypt(des, s, parts[0]);
      CfbCallsConcat(des, t, parts[1..]);
      CfbEncryptConcat(des, s, parts[0], Flat(parts[1..]));
      assert CfbCalls(des, s, parts)[1..] == CfbCalls(des, t, parts[1..]);
    }
  }

  /** However the text is cut into calls, the ciphertext is that of the block definition from the IV. */
  lemma CfbCallsFollowDiagram(des: Block -> Block, iv: Block, feed: Block, parts: seq<seq<Octet>>)
    ensures Flat(CfbCalls(des, Feedback(iv, feed, 8), parts)) == CfbBlocks(des, iv, Flat(parts))
  {
    CfbCallsConcat(des, Feedback(iv, feed, 8), parts);
    CfbFollowsDiagram(des, Feedback(iv, feed, 8), Flat(parts));
  }

  /** Octet by octet, decryption from the state encryption began in gives the text back, and the two states
      are equal again behind every octet. */
  lemma {:induction false} CfbInverse(des: Block -> Block, s: Feedback, p: seq<Octet>)
    requires InRange(s)
    ensures CfbDecrypt(des, s, CfbEncrypt(des, s, p).1) == (CfbEncrypt(des, s, p).0, p)
    decreases p
  {
    if p != [] {
      var (s1, y) := CfbEncryptOctet(des, s, p[0]);
      var (s2, ys) := CfbEncrypt(des, s1, p[1..]);
      CfbInverse(des, s1, p[1..]);
      assert ([y] + ys)[0] == y && ([y] + ys)[1..] == ys;
      var r := CfbReady(des, s);
      XorCommutes(p[0], r.feed[r.index]);
      assert CfbDecryptOctet(des, s, y) == (s1, p[0]);
      assert [p[0]] + p[1..] == p;
    }
  }

  // ---------- output feedback ----------

  lemma {:induction false} OfbWithinBlock(des: Block -> Block, s: Feedback, p: seq<Octet>)
    requires s.index + |p| <= 8 && (s.index == 8 ==> p == [])
    ensures var (t, y) := Ofb(des, s, p);
            && Mixed(s.feed, s.index, p, y)
            && t == s.(index := s.index + |p|)
    decreases |p|
  {
    hide OfbReady, OfbOctet, Mixed;
    if p == [] {
      NothingMixed(s.feed, s.index);
    } else {
      var y0 := p[0] ^ s.feed[s.index];
      var s1 := s.(index := s.index + 1);
      assert OfbOctet(des, s, p[0]) == (s1, y0) by { OfbMidBlock(des, s, p[0]); }
      var (t1, ys) := Ofb(des, s1, p[1..]);
      OfbWithinBlock(des, s1, p[1..]);
      MixGrows(s.feed, s.index, p, y0, ys);
    }
  }

  lemma OfbMidBlock(des: Block -> Block, s: Feedback, x: Octet)
    requires s.index < 8
    ensures OfbOctet(des, s, x) == (s.(index := s.index + 1), x ^ s.feed[s.index])
  {
  }

  lemma OfbStartsBlock(des: Block -> Block, s: Feedback, p: seq<Octet>)
    requires s.index == 8 && p != []
    ensures Ofb(des, s, p) == Ofb(des, OfbReady(des, s), p)
  {
  }

  /** The key stream starts from the feed, whatever the IV was. */
  lemma {:induction false} OfbFollowsFeed(des: Block -> Block, s: Feedback, p: seq<Octet>)
    requires s.index == 8
    ensures Ofb(des, s, p).1 == OfbBlocks(des, s.feed, p)
    decreases |p|
  {
    if p != [] {
      var r := OfbReady(des, s);
      OfbStartsBlock(des, s, p);
      if |p| <= 8 {
        OfbWithinBlock(des, r, p);
        XorIs(p, des(s.feed), Ofb(des, r, p).1);
      } else {
        var a, b := p[..8], p[8..];
        assert p == a + b;
        OfbWithinBlock(des, r, a);
        OfbConcat(des, r, a, b);
        var (t, y) := Ofb(des, r, a);
        XorIs(a, des(s.feed), y);
        OfbFollowsFeed(des, t, b);
      }
    }
  }

  /** Behind an IV exchange the state is Feedback(iv, feed, 8) with the feed untouched.  The header comment's
      V0 = DES(iV) is what is computed for every text exactly when DES takes the feed and the IV to the same block;
      for a block function that is a permutation, as DES is, when the feed is the IV. */
  lemma OfbStartsFromIv(des: Block -> Block, iv: Block, feed: Block)
    ensures (forall p :: Ofb(des, Feedback(iv, feed, 8), p).1 == OfbBlocks(des, iv, p)) <==> des(feed) == des(iv)
    ensures (forall a, b :: des(a) == des(b) ==> a == b) ==> (des(feed) == des(iv) <==> feed == iv)
  {
    if des(feed) == des(iv) {
      forall p
        ensures Ofb(des, Feedback(iv, feed, 8), p).1 == OfbBlocks(des, iv, p)
      {
        OfbFollowsFeed(des, Feedback(iv, feed, 8), p);
      }
    } else {
      var zeros: Block := [0, 0, 0, 0, 0, 0, 0, 0];
      OfbFollowsFeed(des, Feedback(iv, feed, 8), zeros);
      XorZeros(des(iv));
      XorZeros(des(feed));
      assert Ofb(des, Feedback(iv, feed, 8), zeros).1 != OfbBlocks(des, iv, zeros);
    }
  }

  lemma XorZeros(v: Block)
    ensures Xor([0, 0, 0, 0, 0, 0, 0, 0], v) == v
  {
    forall i | 0 <= i < 8
      ensures 0 ^ v[i] == v[i]
    {
      ZeroXor(v[i]);
    }
  }

  lemma ZeroXor(x: Octet)
    ensures 0 ^ x == x
  {
  }

  /** From equal feeds the receiver's octet-by-octet decryption gives the text back and ends in an equal state;
      what the output blocks hold does not matter. */
  lemma {:induction false} OfbInverse(des: Block -> Block, s: Feedback, t: Feedback, p: seq<Octet>)
    requires InRange(s) && s.feed == t.feed && s.index == t.index
    ensures var (s', y) := Ofb(des, s, p);
            var (t', x) := Ofb(des, t, y);
            x == p && s'.feed == t'.feed && s'.index == t'.index
    decreases p
  {
    hide OfbOctet, Ofb;
    OfbHead(des, s, p);
    if p != [] {
      var (s1, y) := OfbOctet(des, s, p[0]);
      var (s2, ys) := Ofb(des, s1, p[1..]);
      var t1 := OfbOctet(des, t, y).0;
      OfbOctetInverse(des, s, t, p[0]);
      OfbInverse(des, s1, t1, p[1..]);
      assert ([y] + ys)[0] == y && ([y] + ys)[1..] == ys;
      OfbHead(des, t, [y] + ys);
      assert [p[0]] + p[1..] == p;
    } else {
      OfbHead(des, t, []);
    }
  }

  lemma OfbOctetInverse(des: Block -> Block, s: Feedback, t: Feedback, x: Octet)
    requires InRange(s) && s.feed == t.feed && s.index == t.index
    ensures var (s1, y) := OfbOctet(des, s, x);
            var (t1, z) := OfbOctet(des, t, y);
            z == x && s1.feed == t1.feed && s1.index == t1.index
  {
    var r := OfbReady(des, s);
    XorCommutes(x, r.feed[r.index]);
  }

  // ---------- backing up by one octet ----------

  /** An octet that is taken back leaves no trace: what follows is decrypted as if it had not been there. */
  lemma CfbBackUp(des: Block -> Block, s: Feedback, d: Octet, d': Octet)
    requires InRange(s)
    ensures InRange(BackUp(CfbDecryptOctet(des, s, d).0))
    ensures CfbDecryptOctet(des, BackUp(CfbDecryptOctet(des, s, d).0), d') == CfbDecryptOctet(des, s, d')
  {
    var r := CfbReady(des, s);
    assert r.output[r.index := d][r.index := d'] == r.output[r.index := d'];
  }

  lemma OfbBackUp(des: Block -> Block, s: Feedback, d: Octet, d': Octet)
    requires InRange(s)
    ensures InRange(BackUp(OfbOctet(des, s, d).0))
    ensures OfbOctet(des, BackUp(OfbOctet(des, s, d).0), d') == OfbOctet(des, s, d')
  {
  }

  // ---------- how far a wrong octet reaches ----------

  /** The number of the block, counted from the current one, in which octet `j` of what follows falls. */
  function BlockOf(s: Feedback, j: nat): nat { (s.index + j) / 8 }

  /** Wrong feed: the rest of the block is wrong, and the outputs before it do not matter once it is over. */
  lemma {:induction false} CfbHeals(des: Block -> Block, s: Feedback, t: Feedback, c: seq<Octet>)
    requires InRange(s) && s.index == t.index && s.index >= 1 && s.output[..s.index] == t.output[..s.index]
    ensures forall j :: 0 <= j < |c| && BlockOf(s, j) >= 1 ==> CfbDecrypt(des, s, c).1[j] == CfbDecrypt(des, t, c).1[j]
    decreases c
  {
    hide CfbDecrypt, CfbDecryptOctet, BlockOf;
    if c != [] {
      var s1, t1 := CfbDecryptOctet(des, s, c[0]).0, CfbDecryptOctet(des, t, c[0]).0;
      OutputsMeet(des, s, t, c[0]);
      if s.index < 8 {
        CfbHeals(des, s1, t1, c[1..]);
      }
      forall j | 0 <= j < |c| && BlockOf(s, j) >= 1
        ensures CfbDecrypt(des, s, c).1[j] == CfbDecrypt(des, t, c).1[j]
      {
        CfbDecryptAt(des, s, c, j);
        CfbDecryptAt(des, t, c, j);
        BlockOfFirst(s);
        if j > 0 {
          BlockOfNext(des, s, c[0], j);
        }
      }
    }
  }

  lemma OutputsMeet(des: Block -> Block, s: Feedback, t: Feedback, y: Octet)
    requires InRange(s) && s.index == t.index && s.index >= 1 && s.output[..s.index] == t.output[..s.index]
    ensures s.index == 8 ==> CfbDecryptOctet(des, s, y) == CfbDecryptOctet(des, t, y)
    ensures var s1, t1 := CfbDecryptOctet(des, s, y).0, CfbDecryptOctet(des, t, y).0;
            s.index < 8 ==> s1.index == t1.index == s.index + 1 && s1.output[..s1.index] == t1.output[..s1.index]
  {
    if s.index == 8 {
      assert s.output == t.output;
    } else {
      var i := s.index;
      assert s.output[i := y][..i + 1] == s.output[..i] + [y] == t.output[i := y][..i + 1];
    }
  }

  /** Wrong octets in the output block: only the next block is wrong. */
  lemma {:induction false} CfbSpreads(des: Block -> Block, s: Feedback, t: Feedback, c: seq<Octet>)
    requires InRange(s) && s.index == t.index && s.index >= 1 && s.feed == t.feed
    ensures forall j :: 0 <= j < |c| && BlockOf(s, j) != 1 ==> CfbDecrypt(des, s, c).1[j] == CfbDecrypt(des, t, c).1[j]
    decreases c
  {
    hide CfbDecrypt, CfbDecryptOctet, BlockOf;
    if c != [] {
      var s1, t1 := CfbDecryptOctet(des, s, c[0]).0, CfbDecryptOctet(des, t, c[0]).0;
      OutputsApart(des, s, t, c[0]);
      if s.index == 8 {
        CfbHeals(des, s1, t1, c[1..]);
      } else {
        CfbSpreads(des, s1, t1, c[1..]);
      }
      forall j | 0 <= j < |c| && BlockOf(s, j) != 1
        ensures CfbDecrypt(des, s, c).1[j] == CfbDecrypt(des, t, c).1[j]
      {
        CfbDecryptAt(des, s, c, j);
        CfbDecryptAt(des, t, c, j);
        BlockOfFirst(s);
        if j > 0 {
          BlockOfNext(des, s, c[0], j);
          BlockOfFull(s, j);
        }
      }
    }
  }

  lemma OutputsApart(des: Block -> Block, s: Feedback, t: Feedback, y: Octet)
    requires InRange(s) && s.index == t.index && s.index >= 1 && s.feed == t.feed
    ensures var ((s1, x), (t1, x')) := (CfbDecryptOctet(des, s, y), CfbDecryptOctet(des, t, y));
            && InRange(s1) && s1.index == t1.index && s1.index >= 1
            && (s.index == 8 ==> s1.output[..s1.index] == t1.output[..t1.index])
            && (s.index < 8 ==> x == x' && s1.feed == t1.feed)
  {
  }

  lemma CfbDecryptAt(des: Block -> Block, s: Feedback, c: seq<Octet>, j: nat)
    requires InRange(s) && j < |c|
    ensures var (s1, x) := CfbDecryptOctet(des, s, c[0]);
            CfbDecrypt(des, s, c).1[j] == if j == 0 then x else CfbDecrypt(des, s1, c[1..]).1[j - 1]
  {
    hide CfbDecryptOctet;
  }

  lemma BlockOfNext(des: Block -> Block, s: Feedback, x: Octet, j: nat)
    requires InRange(s) && j > 0
    ensures var s1 := CfbDecryptOctet(des, s, x).0;
      InRange(s1) && BlockOf(s1, j - 1) == if s.index == 8 then BlockOf(s, j) - 1 else BlockOf(s, j)
  {
  }

  /** Changing octet `i` of the ciphertext changes the text at most there and in the following block. */
  lemma {:induction false} CfbErrorIsBounded(des: Block -> Block, s: Feedback, c: seq<Octet>, i: nat, bad: Octet)
    requires InRange(s) && i < |c|
    ensures forall j :: 0 <= j < |c| && j != i && BlockOf(s, j) != BlockOf(s, i) + 1 ==>
              CfbDecrypt(des, s, c[i := bad]).1[j] == CfbDecrypt(des, s, c).1[j]
    decreases c
  {
    hide CfbDecryptOctet, BlockOf;
    var c' := c[i := bad];
    var (s1, x) := CfbDecryptOctet(des, s, c[0]);
    if i == 0 {
      var t1 := CfbDecryptOctet(des, s, bad).0;
      assert c'[1..] == c[1..];
      StartsAlike(des, s, c[0], bad);
      CfbSpreads(des, s1, t1, c[1..]);
      forall j | 0 < j < |c| && BlockOf(s, j) != BlockOf(s, 0) + 1
        ensures CfbDecrypt(des, s, c').1[j] == CfbDecrypt(des, s, c).1[j]
      {
        BlockOfNext(des, s, c[0], j);
        BlockOfFirst(s);
      }
    } else {
      assert c'[0] == c[0] && c'[1..] == c[1..][i - 1 := bad];
      BlockOfNext(des, s, c[0], i);
      CfbErrorIsBounded(des, s1, c[1..], i - 1, bad);
      forall j | 0 < j < |c| && j != i && BlockOf(s, j) != BlockOf(s, i) + 1
        ensures CfbDecrypt(des, s, c').1[j] == CfbDecrypt(des, s, c).1[j]
      {
        BlockOfNext(des, s, c[0], j);
      }
    }
  }

  lemma BlockOfFull(s: Feedback, j: nat)
    ensures s.index == 8 ==> BlockOf(s, j) >= 1
  {
  }

  lemma BlockOfFirst(s: Feedback)
    requires InRange(s)
    ensures BlockOf(s, 0) == if s.index == 8 then 1 else 0
  {
  }

  lemma StartsAlike(des: Block -> Block, s: Feedback, x: Octet, y: Octet)
    requires InRange(s)
    ensures var s1, t1 := CfbDecryptOctet(des, s, x).0, CfbDecryptOctet(des, s, y).0;
      InRange(s1) && s1.index == t1.index && s1.index >= 1 && s1.feed == t1.feed
  {
  }
}
