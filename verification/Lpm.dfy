/** The bit-level key format of the kernel's longest-prefix-match trie. */
module Lpm {
  import opened Base

  /** The low `w` bits of `x`, most significant first. */
  function BitsOf(x: nat, w: nat): (bs: seq<bool>)
    ensures |bs| == w
  {
    if w == 0 then [] else BitsOf(x / 2, w - 1) + [x % 2 == 1]
  }

  lemma {:induction false} BitsPrefix(x: nat, w: nat, n: nat)
    requires n <= w
    ensures BitsOf(x, w)[..n] == BitsOf(Shr(x, w - n), n)
  {
    if n < w {
      BitsPrefix(x / 2, w - 1, n);
      assert BitsOf(x, w)[..n] == BitsOf(x / 2, w - 1)[..n];
    }
  }

  lemma {:induction false} BitsInjective(x: nat, y: nat, w: nat)
    requires x < Pow2(w) && y < Pow2(w)
    requires BitsOf(x, w) == BitsOf(y, w)
    ensures x == y
  {
    if w != 0 {
      var a, b := BitsOf(x, w), BitsOf(y, w);
      assert a[..w - 1] == BitsOf(x / 2, w - 1) && b[..w - 1] == BitsOf(y / 2, w - 1);
      assert a[w - 1] == (x % 2 == 1) && b[w - 1] == (y % 2 == 1);
      BitsInjective(x / 2, y / 2, w - 1);
    }
  }

  /** Concatenating bit strings is shifting. */
  lemma {:induction false} BitsConcat(x: nat, v: nat, w: nat)
    ensures BitsOf(x, v + w) == BitsOf(Shr(x, w), v) + BitsOf(x, w)
  {
    if w != 0 {
      BitsConcat(x / 2, v, w - 1);
    } else {
      assert BitsOf(x, v) + [] == BitsOf(x, v);
    }
  }

  /** Only the low bits are read. */
  lemma {:induction false} BitsIgnoreHigh(x: nat, high: nat, w: nat)
    ensures BitsOf(x + Shl(high, w), w) == BitsOf(x, w)
  {
    if w != 0 {
      BitsIgnoreHigh(x / 2, high, w - 1);
      assert (x + Shl(high, w)) / 2 == x / 2 + Shl(high, w - 1);
    }
  }

  function ByteBits(bytes: seq<Byte>): (bs: seq<bool>)
    ensures |bs| == 8 * |bytes|
  {
    if bytes == [] then [] else BitsOf(bytes[0], 8) + ByteBits(bytes[1..])
  }

  lemma {:induction false} ByteBitsConcat(a: seq<Byte>, b: seq<Byte>)
    ensures ByteBits(a + b) == ByteBits(a) + ByteBits(b)
  {
    if a == [] {
      assert a + b == b;
    } else {
      ByteBitsConcat(a[1..], b);
      assert (a + b)[1..] == a[1..] + b && (a + b)[0] == a[0];
      ConcatAssoc(BitsOf(a[0], 8), ByteBits(a[1..]), ByteBits(b));
    }
  }

  lemma {:induction false} ByteBitsInjective(a: seq<Byte>, b: seq<Byte>)
    requires |a| == |b| && ByteBits(a) == ByteBits(b)
    ensures a == b
  {
    if a != [] {
      assert ByteBits(a)[..8] == BitsOf(a[0], 8) && ByteBits(b)[..8] == BitsOf(b[0], 8);
      assert ByteBits(a)[8..] == ByteBits(a[1..]) && ByteBits(b)[8..] == ByteBits(b[1..]);
      Pow2Values();
      BitsInjective(a[0], b[0], 8);
      ByteBitsInjective(a[1..], b[1..]);
      assert a == [a[0]] + a[1..] && b == [b[0]] + b[1..];
    }
  }

  /** Host byte order on the targets the agent is built for. */
  function LittleEndian(x: nat, n: nat): (bs: seq<Byte>)
    ensures |bs| == n
  {
    if n == 0 then [] else [x % 256] + LittleEndian(x / 256, n - 1)
  }

  /** Network byte order. */
  function BigEndian(x: nat, n: nat): (bs: seq<Byte>)
    ensures |bs| == n
  {
    if n == 0 then [] else BigEndian(x / 256, n - 1) + [x % 256]
  }

  function LittleEndianValue(b: seq<Byte>): nat {
    if b == [] then 0 else b[0] + 256 * LittleEndianValue(b[1..])
  }

  lemma {:induction false} LittleEndianBound(b: seq<Byte>)
    ensures LittleEndianValue(b) < Pow2(8 * |b|)
  {
    if b != [] {
      LittleEndianBound(b[1..]);
      Pow2Values();
      Pow2Add(8, 8 * |b[1..]|);
    }
  }

  lemma {:induction false} LittleEndianReads(x: nat, n: nat)
    requires x < Pow2(8 * n)
    ensures LittleEndianValue(LittleEndian(x, n)) == x
  {
    if n != 0 {
      ShrBound(x, 8 * n, 8);
      Shr8(x);
      LittleEndianReads(x / 256, n - 1);
      assert LittleEndian(x, n)[1..] == LittleEndian(x / 256, n - 1);
    }
  }

  lemma LowAndHigh(low: Byte, high: nat)
    ensures (low + 256 * high) % 256 == low && (low + 256 * high) / 256 == high
  {
  }

  lemma {:induction false} LittleEndianWrites(b: seq<Byte>)
    ensures LittleEndian(LittleEndianValue(b), |b|) == b
  {
    if b != [] {
      LittleEndianWrites(b[1..]);
      LowAndHigh(b[0], LittleEndianValue(b[1..]));
      assert b == [b[0]] + b[1..];
    }
  }

  lemma LittleEndianInjective(x: nat, y: nat, n: nat)
    requires x < Pow2(8 * n) && y < Pow2(8 * n)
    requires LittleEndian(x, n) == LittleEndian(y, n)
    ensures x == y
  {
    LittleEndianReads(x, n);
    LittleEndianReads(y, n);
  }

  lemma LowByte(x: nat)
    ensures BitsOf(x % 256, 8) == BitsOf(x, 8)
  {
    var h := x / 256;
    Shl8(h);
    BitsIgnoreHigh(x % 256, h, 8);
  }

  lemma {:induction false} BigEndianBits(x: nat, n: nat)
    ensures ByteBits(BigEndian(x, n)) == BitsOf(x, 8 * n)
  {
    if n != 0 {
      BigEndianBits(x / 256, n - 1);
      ByteBitsConcat(BigEndian(x / 256, n - 1), [x % 256]);
      BitsConcat(x, 8 * (n - 1), 8);
      Shr8(x);
      LowByte(x);
      assert ByteBits([x % 256]) == BitsOf(x % 256, 8) + ByteBits([]) == BitsOf(x % 256, 8);
    }
  }

  /** The packed `struct cidr_key`: prefixlen, cgroup id, address. */
  function CidrKeyBytes(prefixLen: U32, cgroup: U64, addr: U32): (bs: seq<Byte>)
    ensures |bs| == 16
  {
    LittleEndian(prefixLen, 4) + LittleEndian(cgroup, 8) + BigEndian(addr, 4)
  }

  /** The bit string the trie compares: everything after the prefix length. */
  function KeyData(key: seq<Byte>): (bs: seq<bool>)
    requires |key| == 16
    ensures |bs| == 96
  {
    ByteBits(key[4..])
  }

  /** A stored entry answers a lookup when its first `prefixLen` bits agree with it. */
  ghost predicate EntryMatches(prefixLen: U32, entry: seq<Byte>, lookup: seq<Byte>)
    requires |entry| == 16 && |lookup| == 16
  {
    prefixLen <= 96 && KeyData(entry)[..prefixLen] == KeyData(lookup)[..prefixLen]
  }

  /** `addr` lies in the IPv4 network `net/ones`: their first `ones` bits agree as numbers. */
  predicate InNet(net: U32, ones: nat, addr: U32)
    requires ones <= 32
  {
    Shr(addr, 32 - ones) == Shr(net, 32 - ones)
  }

  /** The host part of the network address is zero, as CIDR parsing leaves it. */
  predicate Masked(net: U32, ones: nat)
    requires ones <= 32
  {
    Shl(Shr(net, 32 - ones), 32 - ones) == net
  }

  /** A masked network is the block of `2^(32-ones)` addresses that starts at `net`. */
  lemma InNetIsRange(net: U32, ones: nat, addr: U32)
    requires ones <= 32 && Masked(net, ones)
    ensures InNet(net, ones, addr) <==> net <= addr < net + Pow2(32 - ones)
  {
    var k := 32 - ones;
    var p, q := Shr(addr, k), Shr(net, k);
    ShiftBracket(addr, k);
    ShlStep(q, k);
    if p < q {
      ShlMonotone(p + 1, q, k);
    } else if q < p {
      ShlMonotone(q + 1, p, k);
    }
  }

  /** Two masked networks of one length that share an address are the same network. */
  lemma MaskedUnique(net: U32, net': U32, ones: nat, addr: U32)
    requires ones <= 32 && Masked(net, ones) && Masked(net', ones)
    requires InNet(net, ones, addr) && InNet(net', ones, addr)
    ensures net == net'
  {
  }

  lemma KeyDataSplit(prefixLen: U32, cgroup: U64, addr: U32)
    ensures KeyData(CidrKeyBytes(prefixLen, cgroup, addr)) == ByteBits(LittleEndian(cgroup, 8)) + BitsOf(addr, 32)
  {
    var key := CidrKeyBytes(prefixLen, cgroup, addr);
    assert key[4..] == LittleEndian(cgroup, 8) + BigEndian(addr, 4);
    ByteBitsConcat(LittleEndian(cgroup, 8), BigEndian(addr, 4));
    BigEndianBits(addr, 4);
  }

  /** An entry for `net/ones` of one cgroup answers exactly the addresses of that
      network looked up for exactly that cgroup. */
  lemma KeyAdequacy(ones: nat, cgroup': U64, net: U32, cgroup: U64, addr: U32)
    requires ones <= 32
    ensures EntryMatches(64 + ones, CidrKeyBytes(64 + ones, cgroup', net), CidrKeyBytes(96, cgroup, addr))
            <==> cgroup == cgroup' && InNet(net, ones, addr)
  {
    var a, b := KeyData(CidrKeyBytes(64 + ones, cgroup', net)), KeyData(CidrKeyBytes(96, cgroup, addr));
    KeyDataSplit(64 + ones, cgroup', net);
    KeyDataSplit(96, cgroup, addr);
    var ca, cb := ByteBits(LittleEndian(cgroup', 8)), ByteBits(LittleEndian(cgroup, 8));
    var na, nb := BitsOf(net, 32), BitsOf(addr, 32);
    assert a[..64 + ones] == ca + na[..ones] && b[..64 + ones] == cb + nb[..ones];
    PrefixBitsIffInNet(ones, net, addr);
    if a[..64 + ones] == b[..64 + ones] {
      assert ca == a[..64 + ones][..64] && cb == b[..64 + ones][..64];
      assert na[..ones] == a[..64 + ones][64..] && nb[..ones] == b[..64 + ones][64..];
      ByteBitsInjective(LittleEndian(cgroup', 8), LittleEndian(cgroup, 8));
      Pow2Values();
      LittleEndianInjective(cgroup', cgroup, 8);
    }
  }

  lemma PrefixBitsIffInNet(ones: nat, net: U32, addr: U32)
    requires ones <= 32
    ensures BitsOf(net, 32)[..ones] == BitsOf(addr, 32)[..ones] <==> InNet(net, ones, addr)
  {
    BitsPrefix(net, 32, ones);
    BitsPrefix(addr, 32, ones);
    if BitsOf(net, 32)[..ones] == BitsOf(addr, 32)[..ones] {
      Pow2Values();
      ShrBound(net, 32, 32 - ones);
      ShrBound(addr, 32, 32 - ones);
      BitsInjective(Shr(net, 32 - ones), Shr(addr, 32 - ones), ones);
    }
  }

  /** Distinct (length, cgroup, network) triples have distinct key bytes. */
  lemma CidrKeyBytesInjective(p: U32, c: U64, a: U32, p': U32, c': U64, a': U32)
    requires CidrKeyBytes(p, c, a) == CidrKeyBytes(p', c', a')
    ensures p == p' && c == c' && a == a'
  {
    var k, k' := CidrKeyBytes(p, c, a), CidrKeyBytes(p', c', a');
    assert k[..4] == LittleEndian(p, 4) && k'[..4] == LittleEndian(p', 4);
    assert k[4..12] == LittleEndian(c, 8) && k'[4..12] == LittleEndian(c', 8);
    assert k[12..] == BigEndian(a, 4) && k'[12..] == BigEndian(a', 4);
    Pow2Values();
    LittleEndianInjective(p, p', 4);
    LittleEndianInjective(c, c', 8);
    BigEndianBits(a, 4);
    BigEndianBits(a', 4);
    BitsInjective(a, a', 32);
  }
}
