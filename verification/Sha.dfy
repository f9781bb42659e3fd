/** Hashing a message given in pieces, and the keyed hash over its parts. The compression of one block is left
    open: everything here is about how bytes reach it. */
module Sha {
  import opened Arith
  import opened Common

  const TOP: nat := 0x1_0000_0000_0000_0000

  /** Eight words. */
  type Words = h: seq<nat> | |h| == 8 witness [0, 0, 0, 0, 0, 0, 0, 0]

  datatype Compression = Compression(start: Words, block: (Words, seq<Byte>) -> Words)

  // ---------------------------------------------------------------- the standard's hash of a whole message

  /** The state after the first `k` blocks of `m`. */
  function After(c: Compression, m: seq<Byte>, k: nat): Words
    requires 64 * k <= |m|
  {
    if k == 0 then c.start else c.block(After(c, m, k - 1), m[64 * (k - 1)..64 * k])
  }

  /** Do `k` zero bytes bring `n` bytes and the marker to 56 past a block? */
  predicate Filled(n: nat, k: nat) { (n + 1 + k) % 64 == 56 }

  /** The least number of zero bytes that does. */
  function Gap(n: nat): (k: nat)
    ensures k < 64 && Filled(n, k) && forall j: nat | j < k :: !Filled(n, j)
  {
    var r := n % 64;
    var k := if r <= 55 then 55 - r else 119 - r;
    Div(n + 1 + k, 64, if r <= 55 then n / 64 else n / 64 + 1, 56);
    assert forall j: nat | j < k :: !Filled(n, j) by {
      forall j: nat | j < k ensures !Filled(n, j) {
        if Filled(n, j) { ModApart(n + 1 + j, n + 1 + k, 64); }
      }
    }
    k
  }

  /** `v` in `n` bytes, highest first. */
  function BigEndian(v: nat, n: nat): (r: seq<Byte>)
    ensures |r| == n
  {
    if n == 0 then [] else BigEndian(v / 256, n - 1) + [v % 256]
  }

  /** The padded message (FIPS 180-4, section 5.1.1); the length field holds 64 bits. */
  function Padded(m: seq<Byte>): seq<Byte> { m + [0x80] + Zeros(Gap(|m|)) + BigEndian(8 * |m| % TOP, 8) }

  lemma PaddedWhole(m: seq<Byte>)
    ensures |Padded(m)| % 64 == 0
  {
    var n := |m| + 1 + Gap(|m|);
    Div(n + 8, 64, n / 64 + 1, 0);
  }

  function Flat(h: seq<nat>): (r: seq<Byte>)
    ensures |r| == 4 * |h|
  {
    if h == [] then [] else Flat(h[..|h| - 1]) + BigEndian(h[|h| - 1], 4)
  }

  function Hash(c: Compression, m: seq<Byte>): (r: seq<Byte>)
    ensures |r| == 32
  {
    PaddedWhole(m);
    Flat(After(c, Padded(m), |Padded(m)| / 64))
  }

  // ---------------------------------------------------------------- padding loses nothing

  function FromBigEndian(s: seq<Byte>): nat { if s == [] then 0 else FromBigEndian(s[..|s| - 1]) * 256 + s[|s| - 1] }

  function Pow256(n: nat): (r: nat)
    ensures r > 0
  {
    if n == 0 then 1 else 256 * Pow256(n - 1)
  }

  lemma {:induction false} BigEndianBack(v: nat, n: nat)
    requires v < Pow256(n)
    ensures FromBigEndian(BigEndian(v, n)) == v
  {
    if n > 0 {
      BigEndianBack(v / 256, n - 1);
      var s := BigEndian(v, n);
      assert s[..n - 1] == BigEndian(v / 256, n - 1);
    }
  }

  /** Two messages short enough for the length field have the same padding only if they are the same. */
  lemma PaddedInjective(a: seq<Byte>, b: seq<Byte>)
    requires 8 * |a| < TOP && 8 * |b| < TOP && Padded(a) == Padded(b)
    ensures a == b
  {
    var p, n := Padded(a), |Padded(a)|;
    assert p[n - 8..] == BigEndian(8 * |a| % TOP, 8);
    assert p[n - 8..] == BigEndian(8 * |b| % TOP, 8) by { assert Padded(b)[n - 8..] == BigEndian(8 * |b| % TOP, 8); }
    assert Pow256(8) == TOP by { assert Pow256(4) == 0x1_0000_0000; }
    Div(8 * |a|, TOP, 0, 8 * |a|);
    Div(8 * |b|, TOP, 0, 8 * |b|);
    BigEndianBack(8 * |a|, 8);
    BigEndianBack(8 * |b|, 8);
    assert p[..|a|] == a && Padded(b)[..|b|] == b;
  }

  // ---------------------------------------------------------------- the code

  lemma {:induction false} AfterPrefix(c: Compression, m: seq<Byte>, t: seq<Byte>, k: nat)
    requires 64 * k <= |m|
    ensures After(c, m + t, k) == After(c, m, k)
  {
    if k > 0 {
      AfterPrefix(c, m, t, k - 1);
      assert (m + t)[64 * (k - 1)..64 * k] == m[64 * (k - 1)..64 * k];
    }
  }

  /** Bytes that do not fill the block wait behind those that wait already. */
  lemma AbsorbPart(c: Compression, m: seq<Byte>, x: seq<Byte>)
    requires |m| % 64 + |x| < 64
    ensures var t := m + x; var n := |m| % 64;
            && |t| % 64 == n + |x| && After(c, t, |t| / 64) == After(c, m, |m| / 64)
            && t[|t| - (n + |x|)..] == m[|m| - n..] + x
  {
    var q, n := |m| / 64, |m| % 64;
    assert |m| == q * 64 + n;
    Div(|m| + |x|, 64, q, n + |x|);
    AfterPrefix(c, m, x, q);
  }

  /** Bytes that fill the block are compressed with those that waited. */
  lemma AbsorbBlock(c: Compression, m: seq<Byte>, x: seq<Byte>)
    requires |m| % 64 + |x| == 64
    ensures var t := m + x; var n := |m| % 64;
            |t| % 64 == 0 && After(c, t, |t| / 64) == c.block(After(c, m, |m| / 64), m[|m| - n..] + x)
  {
    var q, n, t := |m| / 64, |m| % 64, m + x;
    assert |m| == q * 64 + n;
    Div(|t|, 64, q + 1, 0);
    AfterPrefix(c, m, x, q);
    assert t[64 * q..64 * (q + 1)] == m[|m| - n..] + x;
  }

  lemma LenAdds(a: nat, b: nat)
    ensures (a % TOP + b) % TOP == (a + b) % TOP
  {
    var x := a % TOP + b;
    Div(a + b, TOP, a / TOP + x / TOP, x % TOP);
  }

  lemma StartsEmpty(c: Compression)
    ensures After(c, [], 0) == c.start && 0 / 64 == 0 && 0 % 64 == 0 && 0 % TOP == 0
  {
  }

  class Hasher {
    const c: Compression
    var h: Words
    var len: nat
    const buf: array<Byte>
    var n: nat
    ghost var seen: seq<Byte>

    /** Whole blocks of `m` are compressed, the rest waits in the buffer. */
    ghost predicate Absorbed(m: seq<Byte>)
      reads this`h, this`n, buf
    {
      buf.Length == 64 && n == |m| % 64 && h == After(c, m, |m| / 64) && buf[..n] == m[|m| - n..]
    }

    ghost predicate Valid()
      reads this, buf
    {
      Absorbed(seen) && len == |seen| % TOP
    }

    constructor (c: Compression)
      ensures Valid() && seen == [] && this.c == c && fresh(buf)
    {
      this.c := c;
      h, len, n := c.start, 0, 0;
      buf := new Byte[64](_ => 0);
      seen := [];
      new;
      hide Valid, Absorbed, After;
      ValidEmpty();
    }

    lemma ValidEmpty()
      requires buf.Length == 64 && n == 0 && len == 0 && h == c.start && seen == []
      ensures Valid()
    {
      hide After;
      StartsEmpty(c);
    }

    lemma BufferRoom(m: seq<Byte>)
      requires Absorbed(m)
      ensures buf.Length == 64 && n == |m| % 64 && h == After(c, m, |m| / 64)
    {
    }

    /** Put bytes in the buffer, and compress it when they fill it. */
    method Feed(x: seq<Byte>, ghost m: seq<Byte>)
      requires Absorbed(m) && |x| <= 64 - n
      modifies this`h, this`n, buf
      ensures Absorbed(m + x)
    {
      hide After;
      ghost var waiting := buf[..n];
      forall j | 0 <= j < |x| { buf[n + j] := x[j]; }
      assert buf[..n + |x|] == waiting + x;
      if n + |x| < 64 { AbsorbPart(c, m, x); } else { AbsorbBlock(c, m, x); }
      n := n + |x|;
      if n == 64 {
        assert buf[..] == buf[..64];
        h := c.block(h, buf[..]);
        n := 0;
      }
    }

    /** Only the bytes count, not how they come in pieces. */
    method Update(d: seq<Byte>)
      requires Valid()
      modifies this, buf
      ensures Valid() && seen == old(seen) + d
    {
      hide After, Absorbed;
      ghost var s0 := seen;
      LenAdds(|seen|, |d|);
      len := (len + |d|) % TOP;
      var i := 0;
      assert s0 + d[..0] == s0;
      while i < |d|
        invariant i <= |d| && Absorbed(s0 + d[..i]) && seen == s0 && len == |s0 + d| % TOP
      {
        BufferRoom(s0 + d[..i]);
        var k := 64 - n;
        if k > |d| - i { k := |d| - i; }
        assert s0 + d[..i + k] == (s0 + d[..i]) + d[i..i + k];
        Feed(d[i..i + k], s0 + d[..i]);
        i := i + k;
      }
      assert d[..|d|] == d;
      seen := seen + d;
    }

    /** Zero bytes until 56 wait in the buffer. */
    method PadZeros(ghost m: seq<Byte>)
      requires Valid() && seen == m + [0x80]
      modifies this, buf
      ensures Valid() && seen == m + [0x80] + Zeros(Gap(|m|))
    {
      hide After, Zeros, Gap, Absorbed, Filled;
      ghost var z := 0;
      NoZeros();
      assert m + [0x80] + Zeros(0) == m + [0x80];
      BufferRoom(seen);
      while n != 56
        invariant Valid() && z <= Gap(|m|) && seen == m + [0x80] + Zeros(z) && n == |seen| % 64
        decreases Gap(|m|) - z
      {
        StillOpen(|m|, z);
        OneMoreZero(z);
        assert m + [0x80] + Zeros(z) + [0] == m + [0x80] + (Zeros(z) + [0]);
        Update([0]);
        z := z + 1;
        BufferRoom(seen);
      }
      GapReached(|m|, z);
    }

    /** The digest is the standard's hash of everything seen. */
    method Final() returns (out: seq<Byte>)
      requires Valid()
      modifies this, buf
      ensures out == Hash(c, old(seen))
    {
      hide After, Zeros, BigEndian, Gap, Flat, Absorbed;
      ghost var m := seen;
      var bits := len * 8 % TOP;
      BitsOf(|m|);
      Update([0x80]);
      PadZeros(m);
      Update(BigEndian(bits, 8));
      assert seen == Padded(m);
      PaddedWhole(m);
      BufferRoom(seen);
      out := Flat(h);
    }
  }

  lemma BitsOf(n: nat)
    ensures (n % TOP) * 8 % TOP == 8 * n % TOP
  {
    var x := n % TOP * 8;
    Div(8 * n, TOP, 8 * (n / TOP) + x / TOP, x % TOP);
  }

  lemma NoZeros()
    ensures Zeros(0) == []
  {
  }

  lemma OneMoreZero(z: nat)
    ensures Zeros(z + 1) == Zeros(z) + [0]
  {
  }

  lemma StillOpen(n: nat, z: nat)
    ensures z <= Gap(n) && (n + 1 + z) % 64 != 56 ==> z < Gap(n)
  {
    assert Filled(n, Gap(n));
  }

  lemma GapReached(n: nat, z: nat)
    requires z <= Gap(n) && (n + 1 + z) % 64 == 56
    ensures z == Gap(n)
  {
    assert Filled(n, z);
  }

  // ---------------------------------------------------------------- the keyed hash

  function XorBits(a: nat, b: nat): nat {
    if a == 0 then b else 2 * XorBits(a / 2, b / 2) + if a % 2 != b % 2 then 1 else 0
  }

  lemma {:induction false} XorBounded(a: nat, b: nat, k: nat)
    requires a < Pow2(k) && b < Pow2(k)
    ensures XorBits(a, b) < Pow2(k)
  {
    if k > 0 { XorBounded(a / 2, b / 2, k - 1); }
  }

  function Xor(a: Byte, b: Byte): Byte {
    assert Pow2(8) == 256 by { assert Pow2(4) == 16; }
    XorBounded(a, b, 8);
    XorBits(a, b)
  }

  function XorAll(s: seq<Byte>, b: Byte): (r: seq<Byte>)
    ensures |r| == |s| && forall i | 0 <= i < |s| :: r[i] == Xor(s[i], b)
  {
    seq(|s|, i requires 0 <= i < |s| => Xor(s[i], b))
  }

  /** The key in one block: hashed when it is longer. */
  function BlockKey(c: Compression, key: seq<Byte>): (k: seq<Byte>)
    ensures |k| == 64
  {
    if |key| > 64 then Hash(c, key) + Zeros(32) else key + Zeros(64 - |key|)
  }

  /** The keyed hash of a text (RFC 2104, section 2). */
  function Hmac(c: Compression, key: seq<Byte>, text: seq<Byte>): seq<Byte> {
    var k := BlockKey(c, key);
    Hash(c, XorAll(k, 0x5c) + Hash(c, XorAll(k, 0x36) + text))
  }

  /** The hash of one piece and then of others. */
  method HashParts(c: Compression, first: seq<Byte>, parts: seq<seq<Byte>>) returns (out: seq<Byte>)
    ensures out == Hash(c, first + Joint(parts))
  {
    hide Hash, After, Hasher.Absorbed;
    var s := new Hasher(c);
    s.Update(first);
    assert s.seen == first + Joint(parts[..0]);
    for i := 0 to |parts|
      invariant fresh(s) && fresh(s.buf) && s.c == c && s.Valid() && s.seen == first + Joint(parts[..i])
    {
      assert parts[..i + 1][..i] == parts[..i];
      assert first + Joint(parts[..i]) + parts[i] == first + (Joint(parts[..i]) + parts[i]);
      s.Update(parts[i]);
    }
    assert parts[..|parts|] == parts;
    out := s.Final();
  }

  lemma JointOne(p: seq<Byte>)
    ensures Joint([]) == [] && Joint([p]) == p
  {
    assert [p][..0] == [];
  }

  /** The keyed hash of parts is that of their concatenation. */
  method KeyedHash(c: Compression, key: seq<Byte>, parts: seq<seq<Byte>>) returns (out: seq<Byte>)
    ensures out == Hmac(c, key, Joint(parts))
  {
    hide Hash, Zeros, Xor, XorAll, Joint;
    var k: seq<Byte>;
    if |key| > 64 {
      var digest := HashParts(c, key, []);
      JointOne(key);
      assert key + [] == key;
      k := digest + Zeros(32);
    } else {
      k := key + Zeros(64 - |key|);
    }
    var ipad, opad := XorAll(k, 0x36), XorAll(k, 0x5c);
    var inner := HashParts(c, ipad, parts);
    JointOne(inner);
    out := HashParts(c, opad, [inner]);
  }
}
