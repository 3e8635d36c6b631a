/** Octets and the few facts about sequences of them that several parts share. */
module Bytes {

  type byte = x: int | 0 <= x < 256

  const EOF := -1

  function Flat<T>(parts: seq<seq<T>>): seq<T> {
    if parts == [] then [] else parts[0] + Flat(parts[1..])
  }

  lemma {:induction false} FlatConcat<T>(a: seq<seq<T>>, b: seq<seq<T>>)
    ensures Flat(a + b) == Flat(a) + Flat(b)
    decreases a
  {
    if a == [] {
      assert a + b == b;
    } else {
      assert (a + b)[1..] == a[1..] + b;
      FlatConcat(a[1..], b);
    }
  }

  /** Four octets, most significant first. */
  function BigEndian(n: nat): (s: seq<byte>)
    requires n < 0x1_0000_0000
    ensures |s| == 4
  {
    [n / 0x100_0000, n / 0x1_0000 % 0x100, n / 0x100 % 0x100, n % 0x100]
  }

  function FromBigEndian(s: seq<byte>): nat
    requires |s| == 4
  {
    ((s[0] as int * 0x100 + s[1]) * 0x100 + s[2]) * 0x100 + s[3]
  }

  lemma BigEndianInverse(n: nat)
    requires n < 0x1_0000_0000
    ensures FromBigEndian(BigEndian(n)) == n
    ensures n < 0x100_0000 ==> BigEndian(n)[0] == 0
  {
    var a, b := n / 0x100, n / 0x1_0000;
    assert n / 0x1_0000 == a / 0x100 && n / 0x100_0000 == b / 0x100;
  }

  /** `read`, repeated until `len` octets are there or the input ends; each single read delivers
      some part of what is asked for. */
  method FullRead(input: seq<byte>, len: nat, delivers: nat -> nat) returns (data: seq<byte>, rest: seq<byte>)
    ensures data == input[..if len <= |input| then len else |input|]
    ensures rest == input[|data|..]
  {
    data, rest := [], input;
    var left, k := len, 0;
    while left > 0
      invariant left + |data| == len && |data| <= |input| && 0 <= left && 0 <= k
      invariant data == input[..|data|] && rest == input[|data|..]
      decreases left
    {
      if rest == [] {
        return;
      }
      var cc := if 1 <= delivers(k) then delivers(k) else 1;
      if cc > left {
        cc := left;
      }
      if cc > |rest| {
        cc := |rest|;
      }
      data, rest, left, k := data + rest[..cc], rest[cc..], left - cc, k + 1;
    }
  }
}
