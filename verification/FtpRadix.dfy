/** The Base64 coding of FTP control messages (gssftp/ftp/radix.c), section 4 of RFC 4648. */
module FtpRadix {
  import opened Bytes

  const PAD := '='

  type digit = x: int | 0 <= x < 64

  // ---------- digits and letters ----------

  /** The table radixN: capitals, small letters, decimal digits, plus and slash. */
  function RadixN(d: digit): char {
    if d < 26 then ('A' as int + d) as char
    else if d < 52 then ('a' as int + d - 26) as char
    else if d < 62 then ('0' as int + d - 52) as char
    else if d == 62 then '+' else '/'
  }

  /** `strchr`: the first place of `c` in the table from `i` on, or 64. */
  function Place(c: char, i: nat): (p: nat)
    requires i <= 64
    ensures i <= p <= 64 && (p < 64 ==> RadixN(p) == c)
    ensures forall q :: i <= q < p ==> RadixN(q) != c
    decreases 64 - i
  {
    if i == 64 || RadixN(i) == c then i else Place(c, i + 1)
  }

  predicate IsLetter(c: char) { Place(c, 0) < 64 }

  lemma PlaceOfLetter(d: digit)
    ensures RadixN(d) != PAD && IsLetter(RadixN(d)) && Place(RadixN(d), 0) == d
  {
    assert RadixN(Place(RadixN(d), 0)) == RadixN(d);
  }

  predicate Letters(t: string) { forall i :: 0 <= i < |t| ==> IsLetter(t[i]) }

  function Spelled(ds: seq<digit>): (t: string)
    ensures |t| == |ds|
  {
    seq(|ds|, i requires 0 <= i < |ds| => RadixN(ds[i]))
  }

  function Valued(t: string): (ds: seq<digit>)
    requires Letters(t)
    ensures |ds| == |t|
  {
    seq(|t|, i requires 0 <= i < |t| => Place(t[i], 0))
  }

  // ---------- the coding by groups ----------

  // The four digits that three octets make, and the three octets that four digits make.  The shifts and
  // masks of the code are written as quotients and remainders; its ORs join disjoint bits and are sums.

  function Digit0(a: byte): digit { a / 4 }

  function Digit1(a: byte, b: byte): digit { a % 4 * 16 + b / 16 }

  function Digit2(b: byte, c: byte): digit { b % 16 * 4 + c / 64 }

  function Digit3(c: byte): digit { c % 64 }

  function Octet0(a: digit, b: digit): byte { a * 4 + b / 16 }

  function Octet1(b: digit, c: digit): byte { b % 16 * 16 + c / 4 }

  function Octet2(c: digit, d: digit): byte { c % 4 * 64 + d }

  lemma DigitsToOctets(a: byte, b: byte, c: byte)
    ensures Octet0(Digit0(a), Digit1(a, b)) == a
    ensures Octet1(Digit1(a, b), Digit2(b, c)) == b
    ensures Octet2(Digit2(b, c), Digit3(c)) == c
    ensures Digit1(a, 0) % 16 == 0 && Digit2(b, 0) % 4 == 0
  {
  }

  lemma OctetsToDigits(a: digit, b: digit, c: digit, d: digit)
    ensures Digit0(Octet0(a, b)) == a
    ensures Digit1(Octet0(a, b), Octet1(b, c)) == b
    ensures Digit2(Octet1(b, c), Octet2(c, d)) == c
    ensures Digit3(Octet2(c, d)) == d
    ensures b % 16 == 0 ==> Digit1(Octet0(a, b), 0) == b
    ensures c % 4 == 0 ==> Digit2(Octet1(b, c), 0) == c
  {
  }

  /** Three octets as four digits; one or two octets left over as two or three. */
  function Group(s: seq<byte>): (ds: seq<digit>)
    requires 1 <= |s| <= 3
    ensures |ds| == |s| + 1
  {
    if |s| == 1 then [Digit0(s[0]), Digit1(s[0], 0)]
    else if |s| == 2 then [Digit0(s[0]), Digit1(s[0], s[1]), Digit2(s[1], 0)]
    else [Digit0(s[0]), Digit1(s[0], s[1]), Digit2(s[1], s[2]), Digit3(s[2])]
  }

  function Sextets(s: seq<byte>): (ds: seq<digit>)
    ensures ds == [] <==> s == []
  {
    if s == [] then [] else if |s| < 3 then Group(s) else Group(s[..3]) + Sextets(s[3..])
  }

  function Padding(n: nat): string { if n % 3 == 0 then "" else if n % 3 == 1 then "==" else "=" }

  function Encode(s: seq<byte>): string {
    Spelled(Sextets(s)) + Padding(|s|)
  }

  /** Four digits as three octets; two or three digits left over as one or two. */
  function Ungroup(ds: seq<digit>): (s: seq<byte>)
    requires |ds| <= 4
    ensures |s| == if ds == [] then 0 else |ds| - 1
  {
    if |ds| < 2 then []
    else if |ds| == 2 then [Octet0(ds[0], ds[1])]
    else if |ds| == 3 then [Octet0(ds[0], ds[1]), Octet1(ds[1], ds[2])]
    else [Octet0(ds[0], ds[1]), Octet1(ds[1], ds[2]), Octet2(ds[2], ds[3])]
  }

  function Octets(ds: seq<digit>): seq<byte>
  {
    if |ds| < 4 then Ungroup(ds) else Ungroup(ds[..4]) + Octets(ds[4..])
  }

  /** The bits of the last digit that belong to no octet. */
  function Spare(ds: seq<digit>): nat {
    if |ds| % 4 == 2 then ds[|ds| - 1] % 16 else if |ds| % 4 == 3 then ds[|ds| - 1] % 4 else 0
  }

  // ---------- decoding ----------

  datatype Decoded = Ok(octets: seq<byte>) | Err(code: nat)

  const BAD_CHARACTER := 1
  const BAD_PADDING := 2
  const BAD_BITS := 3

  /** Where the scan ends: at the first pad character or at the NUL. */
  function ScanEnd(t: string): (k: nat)
    ensures k <= |t| && PAD !in t[..k] && (k < |t| ==> t[k] == PAD)
  {
    if t == "" || t[0] == PAD then 0 else
    var k := ScanEnd(t[1..]) + 1;
    assert t[..k] == [t[0]] + t[1..][..k - 1];
    k
  }

  /** What is decided after a scan of `ds`, where `rest` is left of the text. */
  function Judged(ds: seq<digit>, rest: string): Decoded {
    if |ds| % 4 == 1 || Spare(ds) != 0 then Err(BAD_BITS)
    else if (|ds| % 4 == 2 && rest != "==") || (|ds| % 4 == 3 && rest != "=") then Err(BAD_PADDING)
    else Ok(Octets(ds))
  }

  /** What decoding the characters before a NUL means. */
  function Decode(t: string): Decoded {
    var k := ScanEnd(t);
    if !Letters(t[..k]) then Err(BAD_CHARACTER) else Judged(Valued(t[..k]), t[k..])
  }

  // ---------- round trips ----------

  lemma UngroupGroup(s: seq<byte>)
    requires 1 <= |s| <= 3
    ensures Ungroup(Group(s)) == s && Spare(Group(s)) == 0
  {
    hide Digit0, Digit1, Digit2, Digit3, Octet0, Octet1, Octet2;
    DigitsToOctets(s[0], if |s| > 1 then s[1] else 0, if |s| > 2 then s[2] else 0);
  }

  lemma OctetsAfterGroup(g: seq<digit>, ds: seq<digit>)
    requires |g| == 4
    ensures Octets(g + ds) == Ungroup(g) + Octets(ds) && Spare(g + ds) == Spare(ds)
  {
    hide Ungroup;
    assert (g + ds)[..4] == g && (g + ds)[4..] == ds;
  }

  lemma {:induction false} OctetsOfSextets(s: seq<byte>)
    ensures Octets(Sextets(s)) == s && Spare(Sextets(s)) == 0
    decreases |s|
  {
    hide Group, Ungroup;
    if 0 < |s| < 3 {
      UngroupGroup(s);
    } else if |s| >= 3 {
      var g, ds := Group(s[..3]), Sextets(s[3..]);
      UngroupGroup(s[..3]);
      OctetsOfSextets(s[3..]);
      OctetsAfterGroup(g, ds);
      assert s == s[..3] + s[3..];
    }
  }

  lemma GroupUngroup(ds: seq<digit>)
    requires 2 <= |ds| <= 4 && Spare(ds) == 0
    ensures Group(Ungroup(ds)) == ds
  {
    hide Digit0, Digit1, Digit2, Digit3, Octet0, Octet1, Octet2;
    OctetsToDigits(ds[0], ds[1], if |ds| > 2 then ds[2] else 0, if |ds| > 3 then ds[3] else 0);
  }

  lemma {:induction false} SextetsOfOctets(ds: seq<digit>)
    requires |ds| % 4 != 1 && Spare(ds) == 0
    ensures Sextets(Octets(ds)) == ds
    decreases |ds|
  {
    hide Group, Ungroup;
    if 0 < |ds| < 4 {
      GroupUngroup(ds);
    } else if |ds| >= 4 {
      GroupUngroup(ds[..4]);
      SextetsOfOctets(ds[4..]);
      var s := Octets(ds);
      assert s[..3] == Ungroup(ds[..4]) && s[3..] == Octets(ds[4..]);
      assert ds == ds[..4] + ds[4..];
    }
  }

  lemma {:induction false} SextetsLength(s: seq<byte>)
    ensures |Sextets(s)| == |s| / 3 * 4 + (if |s| % 3 == 0 then 0 else |s| % 3 + 1)
    decreases |s|
  {
    hide Group;
    if |s| >= 3 {
      SextetsLength(s[3..]);
    }
  }

  lemma {:induction false} OctetsLength(ds: seq<digit>)
    ensures |Octets(ds)| == |ds| / 4 * 3 + (if |ds| % 4 == 0 then 0 else |ds| % 4 - 1)
    decreases |ds|
  {
    hide Ungroup;
    if |ds| >= 4 {
      OctetsLength(ds[4..]);
    }
  }

  lemma SpelledBack(ds: seq<digit>)
    ensures PAD !in Spelled(ds) && Letters(Spelled(ds)) && Valued(Spelled(ds)) == ds
  {
    forall i | 0 <= i < |ds|
      ensures RadixN(ds[i]) != PAD && IsLetter(RadixN(ds[i])) && Place(RadixN(ds[i]), 0) == ds[i]
    {
      PlaceOfLetter(ds[i]);
    }
  }

  lemma SpelledAgain(t: string)
    requires Letters(t)
    ensures Spelled(Valued(t)) == t
  {
  }

  lemma {:induction false} ScanEndAt(body: string, rest: string)
    requires PAD !in body && (rest == "" || rest[0] == PAD)
    ensures ScanEnd(body + rest) == |body|
    decreases |body|
  {
    if body == "" {
      assert body + rest == rest;
    } else {
      assert (body + rest)[1..] == body[1..] + rest;
      ScanEndAt(body[1..], rest);
    }
  }

  /** Decoding an encoding gives every octet string back. */
  lemma RoundTrip(s: seq<byte>)
    ensures Decode(Encode(s)) == Ok(s) && |Encode(s)| == (|s| + 2) / 3 * 4
  {
    hide Octets, Sextets, Spare, Spelled, Valued, Letters;
    var ds := Sextets(s);
    OctetsOfSextets(s);
    SextetsLength(s);
    SpelledBack(ds);
    ScanEndAt(Spelled(ds), Padding(|s|));
    var t := Encode(s);
    assert t[..|ds|] == Spelled(ds) && t[|ds|..] == Padding(|s|);
  }

  lemma JudgedCanonical(ds: seq<digit>, rest: string)
    requires Judged(ds, rest).Ok? && (rest == "" || rest[0] == PAD)
    ensures Encode(Judged(ds, rest).octets) == Spelled(ds) + rest <==> |ds| % 4 != 0 || rest == ""
  {
    hide Octets, Sextets, Spare, Spelled;
    var s := Octets(ds);
    SextetsOfOctets(ds);
    OctetsLength(ds);
    assert |ds| % 4 != 0 || rest == "" ==> Padding(|s|) == rest;
    assert (Spelled(ds) + rest)[|ds|..] == rest && Encode(s)[|ds|..] == Padding(|s|);
  }

  // ---------- what the coding is ----------

  /** The letters in their order. */
  lemma Alphabet(d: digit)
    ensures d < 26 ==> RadixN(d) == "ABCDEFGHIJKLMNOPQRSTUVWXYZ"[d]
    ensures 26 <= d < 52 ==> RadixN(d) == "abcdefghijklmnopqrstuvwxyz"[d - 26]
    ensures 52 <= d ==> RadixN(d) == "0123456789+/"[d - 52]
  {
  }

  /** Three octets and four digits are the same number; what is left over is filled up with zero bits. */
  lemma GroupIsNumber(a: byte, b: byte, c: byte)
    ensures var ds := Sextets([a, b, c]);
      |ds| == 4 && ((ds[0] as int * 64 + ds[1]) * 64 + ds[2]) * 64 + ds[3] == (a as int * 0x100 + b) * 0x100 + c
    ensures var ds := Sextets([a, b]);
      |ds| == 3 && (ds[0] as int * 64 + ds[1]) * 64 + ds[2] == (a as int * 0x100 + b) * 4
    ensures var ds := Sextets([a]); |ds| == 2 && ds[0] as int * 64 + ds[1] == a as int * 16
  {
    OneGroup([a, b, c]);
    OneGroup([a, b]);
    OneGroup([a]);
    ThreeIsFour(a, b, c);
  }

  lemma ThreeIsFour(a: byte, b: byte, c: byte)
    ensures ((Digit0(a) as int * 64 + Digit1(a, b)) * 64 + Digit2(b, c)) * 64 + Digit3(c)
      == (a as int * 0x100 + b) * 0x100 + c
    ensures (Digit0(a) as int * 64 + Digit1(a, b)) * 64 + Digit2(b, 0) == (a as int * 0x100 + b) * 4
    ensures Digit0(a) as int * 64 + Digit1(a, 0) == a as int * 16
  {
    assert a == a / 4 * 4 + a % 4 && b == b / 16 * 16 + b % 16 && c == c / 64 * 64 + c % 64;
  }

  /** One group after the other, and padding up to a whole one. */
  lemma EncodeByGroups(g: seq<byte>, s: seq<byte>)
    requires |g| == 3
    ensures Encode(g + s) == Encode(g) + Encode(s)
  {
    hide Group;
    SextetsAfterGroup(g, s);
    OneGroup(g);
    assert Spelled(Group(g) + Sextets(s)) == Spelled(Group(g)) + Spelled(Sextets(s));
    assert Encode(g) == Spelled(Group(g)) + "";
    assert |g + s| % 3 == |s| % 3;
  }

  lemma ShortTexts(a: byte, b: byte, c: byte)
    ensures Encode([a]) == [RadixN(a / 4), RadixN(a % 4 * 16), '=', '=']
    ensures Encode([a, b]) == [RadixN(a / 4), RadixN(a % 4 * 16 + b / 16), RadixN(b % 16 * 4), '=']
    ensures Encode([a, b, c])
      == [RadixN(a / 4), RadixN(a % 4 * 16 + b / 16), RadixN(b % 16 * 4 + c / 64), RadixN(c % 64)]
  {
    hide RadixN;
    OneGroup([a]);
    OneGroup([a, b]);
    OneGroup([a, b, c]);
  }

  /** The test vectors of section 10 of RFC 4648. */
  lemma TestVectors()
    ensures Encode([]) == "" && Encode([0x66]) == "Zg==" && Encode([0x66, 0x6F]) == "Zm8="
    ensures Encode([0x66, 0x6F, 0x6F]) == "Zm9v" && Encode([0x66, 0x6F, 0x6F, 0x62]) == "Zm9v" + "Yg=="
    ensures Encode([0x66, 0x6F, 0x6F, 0x62, 0x61]) == "Zm9v" + "YmE="
    ensures Encode([0x66, 0x6F, 0x6F, 0x62, 0x61, 0x72]) == "Zm9v" + "YmFy"
  {
    hide Encode;
    NoText();
    ShortTexts(0x66, 0x6F, 0x6F);
    ShortTexts(0x62, 0x61, 0x72);
    var foo: seq<byte> := [0x66, 0x6F, 0x6F];
    EncodeByGroups(foo, [0x62]);
    EncodeByGroups(foo, [0x62, 0x61]);
    EncodeByGroups(foo, [0x62, 0x61, 0x72]);
    assert foo + [0x62] == [0x66, 0x6F, 0x6F, 0x62];
    assert foo + [0x62, 0x61] == [0x66, 0x6F, 0x6F, 0x62, 0x61];
    assert foo + [0x62, 0x61, 0x72] == [0x66, 0x6F, 0x6F, 0x62, 0x61, 0x72];
  }

  lemma NoText()
    ensures Encode([]) == ""
  {
  }

  /** What is made of any text: digits up to the first pad character or the end, and what is left there.  A character
      that is no letter is the error 1; a single digit left over, or bits that belong to no octet, the error 3; two
      or three digits left over without exactly their padding the error 2. */
  lemma DecodeMeans(ds: seq<digit>, rest: string)
    ensures rest == "" || rest[0] == PAD ==>
      var n, last := |ds| % 4, if ds == [] then 0 else ds[|ds| - 1];
      var d := Decode(Spelled(ds) + rest);
      if n == 1 || (n == 2 && last % 16 != 0) || (n == 3 && last % 4 != 0) then d == Err(3)
      else if (n == 2 && rest != "==") || (n == 3 && rest != "=") then d == Err(2)
      else d.Ok? && Sextets(d.octets) == ds
    ensures rest != "" && rest[0] != PAD && !IsLetter(rest[0]) ==> Decode(Spelled(ds) + rest) == Err(1)
  {
    hide Octets, Sextets, Spelled, Valued, Letters;
    SpelledBack(ds);
    var t := Spelled(ds) + rest;
    if rest == "" || rest[0] == PAD {
      ScanEndAt(Spelled(ds), rest);
      assert t[..|ds|] == Spelled(ds) && t[|ds|..] == rest;
      if |ds| % 4 != 1 && Spare(ds) == 0 {
        SextetsOfOctets(ds);
      }
    } else if !IsLetter(rest[0]) {
      assert t[|ds|] == rest[0] && t[..|ds|] == Spelled(ds);
      ScanReaches(t, |ds|);
      BadCharacter(t, |ds|);
    }
  }

  /** An accepted text is the one encoding of what it decodes to, unless a pad character stands on a
      four-character boundary: from there on nothing is looked at. */
  lemma AcceptedIsCanonical(t: string)
    requires Decode(t).Ok?
    ensures Encode(Decode(t).octets) == t <==> ScanEnd(t) % 4 != 0 || ScanEnd(t) == |t|
  {
    hide ScanEnd, Letters, Valued, Encode, Judged, Spelled;
    var k := ScanEnd(t);
    JudgedCanonical(Valued(t[..k]), t[k..]);
    SpelledAgain(t[..k]);
    assert t == t[..k] + t[k..];
  }

  lemma AnythingAfterPad(s: seq<byte>, junk: string)
    requires |s| % 3 == 0
    ensures Decode(Encode(s) + [PAD] + junk) == Ok(s)
  {
    hide Octets, Sextets, Spare, Spelled, Valued, Letters;
    var ds := Sextets(s);
    OctetsOfSextets(s);
    SextetsLength(s);
    SpelledBack(ds);
    var t := Spelled(ds) + ([PAD] + junk);
    ScanEndAt(Spelled(ds), [PAD] + junk);
    assert Encode(s) + [PAD] + junk == t && t[..|ds|] == Spelled(ds);
  }

  // ---------- radix_encode, encoding ----------

  lemma OneGroup(s: seq<byte>)
    requires 1 <= |s| <= 3
    ensures Sextets(s) == Group(s)
  {
    hide Group;
    if |s| == 3 {
      assert s[..3] == s && s[3..] == [];
      assert Sextets(s) == Group(s) + [];
    }
  }

  lemma GroupStep(s: seq<byte>, x: byte)
    requires |s| < 3
    ensures Group(s + [x]) ==
      if s == [] then [Digit0(x), Digit1(x, 0)]
      else if |s| == 1 then [Group(s)[0], Digit1(s[0], x), Digit2(x, 0)]
      else [Group(s)[0], Group(s)[1], Digit2(s[1], x), Digit3(x)]
  {
    hide Digit0, Digit1, Digit2, Digit3;
    if s == [] {
      assert s + [x] == [x];
    } else if |s| == 1 {
      assert s + [x] == [s[0], x];
    } else {
      assert s + [x] == [s[0], s[1], x];
    }
  }

  /** One more octet: the digit that was left over is filled up, and another one may be left over. */
  lemma {:induction false} SextetsStep(s: seq<byte>, x: byte)
    ensures var ds, n := Sextets(s), |Sextets(s)|;
      Sextets(s + [x]) ==
      if |s| % 3 == 0 then ds + [Digit0(x), Digit1(x, 0)]
      else if |s| % 3 == 1 then ds[..n - 1] + [Digit1(s[|s| - 1], x), Digit2(x, 0)]
      else ds[..n - 1] + [Digit2(s[|s| - 1], x), Digit3(x)]
    decreases |s|
  {
    hide Digit0, Digit1, Digit2, Digit3, Group, Sextets;
    if |s| < 3 {
      if s != [] {
        OneGroup(s);
      } else {
        NoGroup();
      }
      GroupStep(s, x);
      OneGroup(s + [x]);
    } else {
      var g, u := s[..3], s[3..];
      SextetsStep(u, x);
      SextetsAfterGroup(g, u);
      SextetsAfterGroup(g, u + [x]);
      assert s == g + u && s + [x] == g + (u + [x]);
      if |s| % 3 != 0 {
        DropsLast(Group(g), Sextets(u));
        assert u[|u| - 1] == s[|s| - 1];
      }
    }
  }

  lemma NoGroup()
    ensures Sextets([]) == []
  {
  }

  lemma SextetsAfterGroup(g: seq<byte>, s: seq<byte>)
    requires |g| == 3
    ensures Sextets(g + s) == Group(g) + Sextets(s)
  {
    hide Group;
    assert (g + s)[..3] == g && (g + s)[3..] == s;
  }

  lemma DropsLast<T>(a: seq<T>, b: seq<T>)
    requires b != []
    ensures (a + b)[..|a + b| - 1] == a + b[..|b| - 1]
  {
  }

  /** The digits written when the octets `s` have been read, and the one still being filled. */
  function Written(s: seq<byte>): seq<digit> {
    if |s| % 3 == 0 then Sextets(s) else Sextets(s)[..|Sextets(s)| - 1]
  }

  function Carried(s: seq<byte>): digit {
    if |s| % 3 == 0 then 0 else Sextets(s)[|Sextets(s)| - 1]
  }

  lemma WrittenLength(s: seq<byte>)
    ensures |Written(s)| == |s| / 3 * 4 + |s| % 3
  {
    hide Sextets;
    SextetsLength(s);
  }

  lemma WrittenDigits(s: seq<byte>, x: byte)
    ensures s != [] ==> var y := s[|s| - 1];
      && (|s| % 3 == 1 ==> Carried(s) == Digit1(y, 0) && Written(s + [x]) == Written(s) + [Digit1(y, x)])
      && (|s| % 3 == 2 ==> Carried(s) == Digit2(y, 0) && Written(s + [x]) == Written(s) + [Digit2(y, x), Digit3(x)])
    ensures |s| % 3 == 0 ==> Written(s + [x]) == Written(s) + [Digit0(x)]
    ensures Carried(s + [x]) == if |s| % 3 == 0 then Digit1(x, 0) else if |s| % 3 == 1 then Digit2(x, 0) else 0
  {
    hide Sextets, Digit0, Digit1, Digit2, Digit3;
    SextetsStep(s, x);
    var ds, es := Sextets(s), Sextets(s + [x]);
    if |s| % 3 == 0 {
      assert es[..|es| - 1] == ds + [Digit0(x)];
    } else {
      LastSextet(s);
      if |s| % 3 == 1 {
        assert es[..|es| - 1] == ds[..|ds| - 1] + [Digit1(s[|s| - 1], x)];
      }
    }
  }

  lemma LastSextet(s: seq<byte>)
    requires |s| % 3 != 0
    ensures var ds, y := Sextets(s), s[|s| - 1];
      ds[|ds| - 1] == if |s| % 3 == 1 then Digit1(y, 0) else Digit2(y, 0)
  {
    hide Sextets, Digit0, Digit1, Digit2, Digit3;
    var front, y := s[..|s| - 1], s[|s| - 1];
    assert s == front + [y];
    SextetsStep(front, y);
  }

  lemma WrittenStep(s: seq<byte>, x: byte)
    ensures Written(s + [x]) == Written(s) +
      if |s| % 3 == 0 then [x / 4]
      else if |s| % 3 == 1 then [Carried(s) + x / 16]
      else [Carried(s) + x / 64, x % 64]
    ensures |s| % 3 == 1 ==> Carried(s) + x / 16 < 64
    ensures |s| % 3 == 2 ==> Carried(s) + x / 64 < 64
    ensures Carried(s + [x]) == if |s| % 3 == 0 then x % 4 * 16 else if |s| % 3 == 1 then x % 16 * 4 else 0
  {
    hide Written, Carried;
    WrittenDigits(s, x);
  }

  /** One turn of the encoding loop: the digits that the octet completes, and what it carries over. */
  method EncodeOctet(outbuf: array<char>, j: nat, i: nat, c: digit, x: byte, ghost s: seq<byte>)
    returns (j': nat, c': digit)
    requires |s| == i && j == |Written(s)| && c == Carried(s)
    requires j < outbuf.Length && |Written(s + [x])| <= outbuf.Length && outbuf[..j] == Spelled(Written(s))
    modifies outbuf
    ensures j' == |Written(s + [x])| && c' == Carried(s + [x])
    ensures outbuf[..j'] == Spelled(Written(s + [x]))
  {
    hide Sextets, Carried, RadixN, Written, Spelled;
    ghost var done := Written(s);
    WrittenStep(s, x);
    if i % 3 == 0 {
      outbuf[j] := RadixN(x / 4);
      SpellOne(done, x / 4);
      j', c' := j + 1, x % 4 * 16;
    } else if i % 3 == 1 {
      outbuf[j] := RadixN(c + x / 16);
      SpellOne(done, c + x / 16);
      j', c' := j + 1, x % 16 * 4;
    } else {
      outbuf[j] := RadixN(c + x / 64);
      SpellOne(done, c + x / 64);
      outbuf[j + 1] := RadixN(x % 64);
      SpellOne(done + [c + x / 64], x % 64);
      assert done + [c + x / 64, x % 64] == done + [c + x / 64] + [x % 64];
      j', c' := j + 2, 0;
    }
  }

  /** The end of the encoding: the digit begun, the padding and the NUL. */
  method PadOut(outbuf: array<char>, j: nat, c: digit, ghost s: seq<byte>, i: nat) returns (j': nat)
    requires |s| == i && j == |Written(s)| <= outbuf.Length && c == Carried(s) && outbuf[..j] == Spelled(Written(s))
    requires outbuf.Length > (i + 2) / 3 * 4
    modifies outbuf
    ensures j' < outbuf.Length && outbuf[..j'] == Encode(s) && outbuf[j'] == '\0'
  {
    hide Sextets, RadixN, Written, Carried, Spelled;
    WrittenLength(s);
    j' := j;
    if i % 3 != 0 {
      outbuf[j'] := RadixN(c);
      SpellOne(Written(s), c);
      LastDigit(s);
      j' := j' + 1;
    } else {
      AllWritten(s);
    }
    ghost var body := Spelled(Sextets(s));
    assert outbuf[..j'] == body;
    if i % 3 == 1 {
      outbuf[j'] := PAD;
      j' := j' + 1;
    }
    if i % 3 != 0 {
      outbuf[j'] := PAD;
      j' := j' + 1;
    }
    outbuf[j'] := '\0';
    assert outbuf[..j'] == body + Padding(i);
  }

  /** `radix_encode`, encoding. */
  method EncodeText(inbuf: array<byte>, outbuf: array<char>, len: nat) returns (j: nat)
    requires len <= inbuf.Length && outbuf.Length > (len + 2) / 3 * 4
    modifies outbuf
    ensures j < outbuf.Length && outbuf[..j] == Encode(inbuf[..len]) && outbuf[j] == '\0'
  {
    hide Sextets, RadixN;
    ghost var s := inbuf[..len];
    var i, c := 0, 0;
    j := 0;
    while i < len
      invariant 0 <= i <= len && j == i / 3 * 4 + i % 3 == |Written(s[..i])| && 0 <= c < 64 && c == Carried(s[..i])
      invariant outbuf[..j] == Spelled(Written(s[..i]))
    {
      assert s[..i + 1] == s[..i] + [inbuf[i]];
      WrittenLength(s[..i + 1]);
      j, c := EncodeOctet(outbuf, j, i, c, inbuf[i], s[..i]);
      i := i + 1;
    }
    assert s[..i] == s;
    j := PadOut(outbuf, j, c, s, i);
  }

  lemma AllWritten(s: seq<byte>)
    requires |s| % 3 == 0
    ensures Sextets(s) == Written(s)
  {
  }

  lemma SpellOne(ds: seq<digit>, d: digit)
    ensures Spelled(ds + [d]) == Spelled(ds) + [RadixN(d)]
  {
  }

  lemma LastDigit(s: seq<byte>)
    requires |s| % 3 != 0
    ensures Sextets(s) == Written(s) + [Carried(s)]
  {
    hide Sextets;
    SplitLast(Sextets(s));
  }

  lemma SplitLast<T>(a: seq<T>)
    requires a != []
    ensures a == a[..|a| - 1] + [a[|a| - 1]]
  {
  }

  // ---------- radix_encode, decoding ----------

  lemma OneUngroup(ds: seq<digit>)
    requires |ds| <= 4
    ensures Octets(ds) == Ungroup(ds)
  {
    hide Ungroup;
    if |ds| == 4 {
      assert ds[..4] == ds && ds[4..] == [];
      assert Octets(ds[4..]) == [] && Octets(ds) == Ungroup(ds) + [];
    }
  }

  lemma UngroupStep(ds: seq<digit>, d: digit)
    requires |ds| < 4
    ensures Ungroup(ds + [d]) == Ungroup(ds) +
      if ds == [] then [] else if |ds| == 1 then [Octet0(ds[0], d)]
      else if |ds| == 2 then [Octet1(ds[1], d)] else [Octet2(ds[2], d)]
  {
    hide Octet0, Octet1, Octet2;
    if |ds| == 3 {
      assert ds + [d] == [ds[0], ds[1], ds[2], d];
    } else if |ds| == 2 {
      assert ds + [d] == [ds[0], ds[1], d];
    } else if |ds| == 1 {
      assert ds + [d] == [ds[0], d];
    }
  }

  /** What the next digit adds to the octets: nothing, or the octet that the last one began. */
  lemma {:induction false} OctetsStep(ds: seq<digit>, d: digit)
    ensures Octets(ds + [d]) == Octets(ds) +
      if |ds| % 4 == 0 then [] else if |ds| % 4 == 1 then [Octet0(ds[|ds| - 1], d)]
      else if |ds| % 4 == 2 then [Octet1(ds[|ds| - 1], d)] else [Octet2(ds[|ds| - 1], d)]
    decreases |ds|
  {
    hide Ungroup, Octets, Octet0, Octet1, Octet2;
    if |ds| < 4 {
      UngroupStep(ds, d);
      OneUngroup(ds);
      OneUngroup(ds + [d]);
    } else {
      var g, u := ds[..4], ds[4..];
      OctetsStep(u, d);
      OctetsAfterGroup(g, u);
      OctetsAfterGroup(g, u + [d]);
      assert ds == g + u && ds + [d] == g + (u + [d]);
      if |ds| % 4 != 0 {
        assert u[|u| - 1] == ds[|ds| - 1];
      }
      assert Octets(u + [d]) == Octets(u) + Octets(u + [d])[|Octets(u)|..];
    }
  }

  lemma ScanReaches(t: string, i: nat)
    requires i <= |t| && PAD !in t[..i]
    ensures ScanEnd(t) >= i && ((i == |t| || t[i] == PAD) ==> ScanEnd(t) == i)
  {
    if i == |t| || t[i] == PAD {
      assert t == t[..i] + t[i..];
      ScanEndAt(t[..i], t[i..]);
    } else {
      ScanFromWithin(t, i);
    }
  }

  lemma {:induction false} ScanFromWithin(t: string, i: nat)
    requires i <= |t| && PAD !in t[..i]
    ensures ScanEnd(t) >= i
    decreases i
  {
    if i > 0 {
      assert t[0] == t[..i][0] && t[1..][..i - 1] == t[..i][1..];
      ScanFromWithin(t[1..], i - 1);
    }
  }

  lemma ValuedStep(t: string, i: nat)
    requires i < |t| && Letters(t[..i]) && IsLetter(t[i])
    ensures Letters(t[..i + 1]) && Valued(t[..i + 1]) == Valued(t[..i]) + [Place(t[i], 0)]
  {
  }

  /** The bits of the last digit that the next octet begins with. */
  function Kept(i: nat, d: digit): byte {
    if i % 4 == 1 then d * 4 else if i % 4 == 2 then d % 16 * 16 else d % 4 * 64
  }

  /** One turn of the decoding loop: the octet that the digit completes, and what it begins. */
  method DecodeDigit(outbuf: array<byte>, j: nat, i: nat, c: byte, D: digit, ghost ds: seq<digit>)
    returns (j': nat, c': byte)
    requires |ds| == i && j == |Octets(ds)| < outbuf.Length && (i % 4 == 0 || c == Kept(i, ds[i - 1]))
    requires outbuf[..j] == Octets(ds)
    modifies outbuf
    ensures j <= j' <= j + 1 && j' == |Octets(ds + [D])| && outbuf[..j'] == Octets(ds + [D])
    ensures (i + 1) % 4 == 0 || c' == Kept(i + 1, D)
  {
    hide Octets;
    OctetsStep(ds, D);
    j', c' := j, c;
    if i % 4 == 0 {
      c' := D * 4;
    } else if i % 4 == 1 {
      outbuf[j] := c + D / 16;
      j', c' := j + 1, D % 16 * 16;
    } else if i % 4 == 2 {
      outbuf[j] := c + D / 4;
      j', c' := j + 1, D % 4 * 64;
    } else {
      outbuf[j] := c + D;
      j' := j + 1;
    }
  }

  /** `radix_encode`, decoding the `n` characters before the NUL. */
  method DecodeText(inbuf: array<char>, outbuf: array<byte>, ghost n: nat) returns (code: nat, len: nat)
    requires n < inbuf.Length && inbuf[n] == '\0' && '\0' !in inbuf[..n] && outbuf.Length >= n
    modifies outbuf
    ensures match Decode(inbuf[..n])
      case Err(e) => code == e
      case Ok(octets) => code == 0 && len <= outbuf.Length && outbuf[..len] == octets
  {
    hide Octets, Letters, Valued, Place;
    ghost var t := inbuf[..n];
    NothingScanned();
    var i, j, D, c := 0, 0, 0, 0;
    len := 0;
    while inbuf[i] != '\0' && inbuf[i] != PAD
      invariant 0 <= i <= n && PAD !in t[..i] && Letters(t[..i])
      invariant 0 <= j == |Octets(Valued(t[..i]))| <= i && outbuf[..j] == Octets(Valued(t[..i]))
      invariant 0 <= D < 64 && (i > 0 ==> D == Valued(t[..i])[i - 1])
      invariant 0 <= c < 256 && (i % 4 == 0 || c == Kept(i, D))
      decreases n - i
    {
      var p := Place(inbuf[i], 0);
      if p == 64 {
        BadCharacter(t, i);
        return BAD_CHARACTER, 0;
      }
      D := p;
      ghost var ds := Valued(t[..i]);
      ValuedStep(t, i);
      j, c := DecodeDigit(outbuf, j, i, c, D, ds);
      i := i + 1;
    }
    ScanReaches(t, i);
    ghost var ds, rest := Valued(t[..i]), t[i..];
    assert Decode(t) == Judged(ds, rest);
    if i % 4 == 1 {
      return BAD_BITS, 0;
    } else if i % 4 == 2 {
      if D % 16 != 0 {
        return BAD_BITS, 0;
      }
      var same := SameText(inbuf, i, "==", n);
      if !same {
        return BAD_PADDING, 0;
      }
    } else if i % 4 == 3 {
      if D % 4 != 0 {
        return BAD_BITS, 0;
      }
      var same := SameText(inbuf, i, "=", n);
      if !same {
        return BAD_PADDING, 0;
      }
    }
    len, code := j, 0;
  }

  lemma NothingScanned()
    ensures Letters("") && Valued("") == [] && Octets([]) == []
  {
  }

  lemma BadCharacter(t: string, i: nat)
    requires i < |t| && PAD !in t[..i] && t[i] != PAD && !IsLetter(t[i])
    ensures Decode(t) == Err(BAD_CHARACTER)
  {
    assert PAD !in t[..i + 1] by {
      assert t[..i + 1] == t[..i] + [t[i]];
    }
    ScanFromWithin(t, i + 1);
    assert t[..ScanEnd(t)][i] == t[i];
  }

  /** `strcmp` of what follows `i`, up to the NUL at `n`, with `w`. */
  method SameText(a: array<char>, i: nat, w: string, ghost n: nat) returns (same: bool)
    requires i <= n < a.Length && a[n] == '\0' && '\0' !in a[i..n] && '\0' !in w
    ensures same == (a[i..n] == w)
  {
    var k := 0;
    while k < |w|
      invariant 0 <= k <= |w| && i + k <= n && a[i..i + k] == w[..k]
    {
      if a[i + k] != w[k] {
        if i + k < n {
          assert a[i..n][k] != w[k];
        }
        return false;
      }
      k := k + 1;
    }
    same := a[i + k] == '\0';
    assert i + k < n ==> a[i..n][k] == a[i + k];
  }
}
