/** The hash byte by byte: padding, digest and keyed blocks without the functions that build them. */
module ShaBytes {
  import opened Arith
  import opened Common
  import opened Sha

  lemma Regroup(q: nat, b: nat, r: nat, a: nat)
    ensures (q * b + r) * a == q * (a * b) + r * a
  {
    assert (q * b + r) * a == q * b * a + r * a;
    assert q * b * a == q * (b * a) && b * a == a * b;
  }

  lemma RestBelow(r: nat, b: nat, s: nat, a: nat)
    requires r < b && s < a
    ensures r * a + s < a * b
  {
    MulMono(r + 1, b, a);
    assert (r + 1) * a == r * a + a && b * a == a * b;
  }

  lemma DivTwice(x: nat, a: nat, b: nat)
    requires a > 0 && b > 0
    ensures a * b > 0 && x / a / b == x / (a * b)
  {
    var p, s := x / a, x % a;
    var q, r := p / b, p % b;
    Parts(x, a);
    Parts(p, b);
    RestBelow(r, b, s, a);
    Regroup(q, b, r, a);
    Div(x, a * b, q, r * a + s);
  }

  lemma Parts(x: nat, m: nat)
    requires m > 0
    ensures x == x / m * m + x % m && x % m < m
  {
  }

  /** Byte `k` of a number written highest first. */
  lemma {:induction false} BigEndianAt(v: nat, n: nat, k: nat)
    requires k < n
    ensures BigEndian(v, n)[k] == v / Pow256(n - 1 - k) % 256
  {
    if k < n - 1 {
      BigEndianAt(v / 256, n - 1, k);
      DivTwice(v, 256, Pow256(n - 2 - k));
    }
  }

  lemma {:induction false} FlatAt(h: seq<nat>, i: nat, k: nat)
    requires i < |h| && k < 4
    ensures Flat(h)[4 * i + k] == BigEndian(h[i], 4)[k]
  {
    if i < |h| - 1 { FlatAt(h[..|h| - 1], i, k); }
  }

  lemma Powers()
    ensures Pow256(0) == 1 && Pow256(1) == 0x100 && Pow256(2) == 0x1_0000 && Pow256(3) == 0x100_0000
  {
    assert Pow256(2) == 256 * Pow256(1);
  }

  /** Word `i` of the state is at bytes `4 * i` to `4 * i + 3` of the digest, highest byte first. */
  lemma DigestBytes(h: seq<nat>, i: nat)
    requires i < |h| && h[i] < 0x1_0000_0000
    ensures |Flat(h)| == 4 * |h| && Flat(h)[4 * i] == h[i] / 0x100_0000
    ensures Flat(h)[4 * i + 1] == h[i] / 0x1_0000 % 0x100 && Flat(h)[4 * i + 2] == h[i] / 0x100 % 0x100 && Flat(h)[4 * i + 3] == h[i] % 0x100
    ensures FromBigEndian(Flat(h)[4 * i..4 * i + 4]) == h[i]
  {
    hide Flat, BigEndian;
    FlatBytes(h, i);
    assert Flat(h)[4 * i..4 * i + 4] == BigEndian(h[i], 4);
    Powers();
    assert Pow256(4) == 256 * Pow256(3);
    BigEndianBack(h[i], 4);
    Div(h[i] / 0x100_0000, 256, 0, h[i] / 0x100_0000);
  }

  lemma FlatBytes(h: seq<nat>, i: nat)
    requires i < |h|
    ensures forall k | 0 <= k < 4 :: Flat(h)[4 * i + k] == BigEndian(h[i], 4)[k]
    ensures var b := BigEndian(h[i], 4);
            b[0] == h[i] / 0x100_0000 % 256 && b[1] == h[i] / 0x1_0000 % 256 && b[2] == h[i] / 0x100 % 256 && b[3] == h[i] % 256
  {
    hide Flat, BigEndian;
    Powers();
    forall k: nat | k < 4 ensures Flat(h)[4 * i + k] == BigEndian(h[i], 4)[k] { FlatAt(h, i, k); }
    BigEndianAt(h[i], 4, 0);
    BigEndianAt(h[i], 4, 1);
    BigEndianAt(h[i], 4, 2);
    BigEndianAt(h[i], 4, 3);
  }

  lemma PaddedParts(m: seq<Byte>)
    ensures var p := Padded(m); var n := |p|;
            && |m| + 9 <= n < |m| + 73
            && p[..|m|] == m && p[|m|] == 0x80 && (forall i | |m| < i < n - 8 :: p[i] == 0)
            && p[n - 8..] == BigEndian(8 * |m| % TOP, 8)
  {
    hide BigEndian, Filled;
  }

  /** The eight bytes of a number, highest first. */
  predicate HighFirst(s: seq<Byte>, v: nat) { |s| == 8 && forall k | 0 <= k < 8 :: s[k] == v / Pow256(7 - k) % 256 }

  /** A padded message is the message, the byte 0x80, fewer than 64 zeros, and the length in bits in eight bytes. */
  lemma PaddedBytes(m: seq<Byte>)
    ensures var p := Padded(m); var n := |p|;
            && n % 64 == 0 && |m| + 9 <= n < |m| + 73
            && p[..|m|] == m && p[|m|] == 0x80 && (forall i | |m| < i < n - 8 :: p[i] == 0)
            && HighFirst(p[n - 8..], 8 * |m| % TOP) && FromBigEndian(p[n - 8..]) == 8 * |m| % TOP
  {
    var v := 8 * |m| % TOP;
    PaddedWhole(m);
    PaddedParts(m);
    PowerTop();
    hide BigEndian, Padded, FromBigEndian, Pow256;
    forall k: nat | k < 8 ensures BigEndian(v, 8)[k] == v / Pow256(7 - k) % 256 { BigEndianAt(v, 8, k); }
    BigEndianBack(v, 8);
  }

  lemma PowerTop()
    ensures Pow256(8) == TOP
  {
    assert Pow256(4) == 0x1_0000_0000;
  }

  // ---------------------------------------------------------------- exclusive or

  function Bit(x: nat, i: nat): nat { x / Pow2(i) % 2 }

  lemma BitHalf(x: nat, i: nat)
    requires i > 0
    ensures Bit(x, i) == Bit(x / 2, i - 1)
  {
    DivTwice(x, 2, Pow2(i - 1));
  }

  lemma XorHalf(a: nat, b: nat)
    ensures XorBits(a, b) / 2 == XorBits(a / 2, b / 2) && XorBits(a, b) % 2 == if a % 2 != b % 2 then 1 else 0
  {
  }

  /** A bit of the exclusive or is set exactly when it is set in one of the two. */
  lemma {:induction false} XorAt(a: nat, b: nat, i: nat)
    ensures Bit(XorBits(a, b), i) == 1 <==> Bit(a, i) != Bit(b, i)
    decreases i
  {
    XorHalf(a, b);
    if i > 0 {
      BitHalf(a, i);
      BitHalf(b, i);
      BitHalf(XorBits(a, b), i);
      XorAt(a / 2, b / 2, i - 1);
    }
    hide XorBits;
  }

  lemma {:induction false} XorUndone(a: nat, b: nat)
    ensures XorBits(XorBits(a, b), b) == a
    decreases a + b
  {
    XorHalf(a, b);
    XorHalf(XorBits(a, b), b);
    if a + b > 0 { XorUndone(a / 2, b / 2); } else { assert XorBits(0, 0) == 0; }
  }

  // ---------------------------------------------------------------- the keyed blocks

  /** Byte `i` of the key's block: of the key, or of its hash when it is longer than a block, and zero behind. */
  function KeyByte(c: Compression, key: seq<Byte>, i: nat): Byte {
    var k := if |key| > 64 then Hash(c, key) else key;
    if i < |k| then k[i] else 0
  }

  ghost predicate Padding(c: Compression, key: seq<Byte>, pad: seq<Byte>, b: Byte) {
    |pad| == 64 && forall i: nat | i < 64 :: Xor(pad[i], b) == KeyByte(c, key, i)
  }

  lemma PaddingIs(c: Compression, key: seq<Byte>, pad: seq<Byte>, b: Byte)
    requires Padding(c, key, pad, b)
    ensures pad == XorAll(BlockKey(c, key), b)
  {
    hide Hash, XorBits;
    forall i: nat | i < 64 ensures pad[i] == Xor(BlockKey(c, key)[i], b) { XorUndone(pad[i], b); }
  }

  /** The keyed hash is the hash of the outer block and the hash of the inner block and the text; the blocks are those
      that give the key back when 0x36 and 0x5c are taken off. */
  lemma HmacBlocks(c: Compression, key: seq<Byte>, text: seq<Byte>, inner: seq<Byte>, outer: seq<Byte>)
    requires Padding(c, key, inner, 0x36) && Padding(c, key, outer, 0x5c)
    ensures Hmac(c, key, text) == Hash(c, outer + Hash(c, inner + text))
  {
    hide Hash, Padding, XorAll, BlockKey;
    PaddingIs(c, key, inner, 0x36);
    PaddingIs(c, key, outer, 0x5c);
  }
}
