/** How a transcoding file handle turns UTF-8 into another encoding on the way out and back on the way in.
    Kinds: 1 and 2 are UTF-16 big and little endian, 3 and 4 UTF-32, 5 Latin-1, 0 none. Words are naturals;
    a shift is a power of two, a mask a remainder, and `Or` the bitwise or. */
module FhCodec {
  import opened Arith
  import opened Common

  type Code = nat

  // ---------------------------------------------------------------- bits

  function Or(a: nat, b: nat): nat {
    if a == 0 then b else 2 * Or(a / 2, b / 2) + if a % 2 == 1 || b % 2 == 1 then 1 else 0
  }

  /** Fields that share no bit add up. */
  lemma {:induction false} OrAdds(a: nat, b: nat, k: nat)
    requires a < Pow2(k)
    ensures Or(a, b * Pow2(k)) == a + b * Pow2(k) == Or(b * Pow2(k), a)
  {
    if k == 0 {
      OrZero(b);
    } else {
      var m := b * Pow2(k - 1);
      assert b * Pow2(k) == 2 * m;
      OrAdds(a / 2, b, k - 1);
      OrZero(2 * m);
    }
  }

  lemma {:induction false} OrZero(a: nat)
    ensures Or(a, 0) == a
  {
    if a > 0 { OrZero(a / 2); }
  }

  lemma PowersAre()
    ensures Pow2(4) == 0x10 && Pow2(5) == 0x20 && Pow2(6) == 0x40 && Pow2(7) == 0x80 && Pow2(8) == 0x100
    ensures Pow2(16) == 0x1_0000 && Pow2(24) == 0x100_0000 && Pow2(3) == 8
  {
    assert Pow2(4) == 16;
    assert Pow2(8) == 256;
    assert Pow2(12) == 4096;
    assert Pow2(16) == 65536;
    assert Pow2(20) == 0x10_0000;
  }

  /** A Unicode scalar value. */
  predicate Scalar(u: Code) { u < 0xD800 || 0xDFFF < u <= 0x10FFFF }

  /** The UTF-8 form of a code (RFC 3629, section 3). */
  function Utf8(u: Code): (r: seq<Byte>)
    requires u < 0x20_0000
    ensures 1 <= |r| <= 4 && (u >= 0x80 ==> |r| >= 2)
  {
    if u < 0x80 then [u]
    else if u < 0x800 then [0xC0 + u / 0x40, 0x80 + u % 0x40]
    else if u < 0x1_0000 then [0xE0 + u / 0x1000, 0x80 + u / 0x40 % 0x40, 0x80 + u % 0x40]
    else [0xF0 + u / 0x4_0000, 0x80 + u / 0x1000 % 0x40, 0x80 + u / 0x40 % 0x40, 0x80 + u % 0x40]
  }

  // ---------------------------------------------------------------- writing

  /** `n` bytes of a character gathered in `x`, the first lowest. */
  datatype Gather = Gather(x: nat, n: nat)

  /** The bytes gathered once `b` joins them. */
  function Joined(g: Gather, b: Byte): nat { Or(if g.n == 0 then 0 else g.x, b * Pow2(8 * g.n)) }

  /** How many bytes a character has, by the first of those gathered. */
  function Need(x: nat): (n: nat)
    ensures 1 <= n <= 4
  {
    var b0 := x % 0x100;
    if b0 < 0x80 then 1 else if b0 / 0x20 == 6 then 2 else if b0 / 0x10 == 14 then 3 else if b0 / 8 == 30 then 4 else 1
  }

  /** The bits the first byte contributes. */
  function Lead(x: nat, need: nat): Code {
    if need == 1 then x % 0x100 else if need == 2 then x % 0x20 else if need == 3 then x % 0x10 else x % 8
  }

  /** `u` with the six bits of byte `m` behind it. */
  function More(u: Code, x: nat, m: nat): Code { Or(u * 0x40, x / Pow2(8 * m) % 0x40) }

  /** The code after `m` bytes. */
  function Gathered(x: nat, need: nat, m: nat): Code
    requires m > 0
  {
    if m == 1 then Lead(x, need) else More(Gathered(x, need, m - 1), x, m - 1)
  }

  /** One byte: still gathering, or a whole character. */
  function Take(g: Gather, b: Byte): (Gather, Option<Code>) {
    var x := Joined(g, b);
    var need := Need(x);
    if g.n + 1 < need then (Gather(x, g.n + 1), None) else (Gather(x, 0), Some(Gathered(x, need, need)))
  }

  /** One 16-bit unit. */
  function Unit16(k: nat, u: Code): seq<Byte> {
    if k == 1 then [u / 0x100 % 0x100, u % 0x100] else [u % 0x100, u / 0x100 % 0x100]
  }

  function Unit32(k: nat, u: Code): seq<Byte> {
    var a, b, c, d := u % 0x100, u / 0x100 % 0x100, u / 0x1_0000 % 0x100, u / 0x100_0000 % 0x100;
    if k == 3 then [d, c, b, a] else [a, b, c, d]
  }

  /** A code in the handle's encoding. */
  function Put(k: nat, u: Code): seq<Byte> {
    if k == 5 then [if u < 0x100 then u else 63]
    else if k <= 2 && u >= 0x1_0000 then Unit16(k, 0xD800 + (u - 0x1_0000) / 0x400) + Unit16(k, 0xDC00 + (u - 0x1_0000) % 0x400)
    else if k <= 2 then Unit16(k, u)
    else Unit32(k, u)
  }

  /** What one byte of text adds to the file. */
  function WriteOne(k: nat, g: Gather, b: Byte): (Gather, seq<Byte>) {
    if k == 0 then (g, [b])
    else
      var (h, u) := Take(g, b);
      (h, if u.Some? then Put(k, u.value) else [])
  }

  function Write(k: nat, g: Gather, p: seq<Byte>): (Gather, seq<Byte>)
    decreases |p|
  {
    if p == [] then (g, [])
    else
      var (h, o) := WriteOne(k, g, p[0]);
      var (i, q) := Write(k, h, p[1..]);
      (i, o + q)
  }

  /** Cutting the text into chunks makes no difference. */
  lemma {:induction false} WriteChunks(k: nat, g: Gather, p: seq<Byte>, q: seq<Byte>)
    ensures var (h, a) := Write(k, g, p); var (i, b) := Write(k, h, q); Write(k, g, p + q) == (i, a + b)
    decreases |p|
  {
    hide WriteOne;
    if p == [] {
      assert p + q == q;
      assert [] + Write(k, g, q).1 == Write(k, g, q).1;
    } else {
      var (h, o) := WriteOne(k, g, p[0]);
      assert (p + q)[0] == p[0] && (p + q)[1..] == p[1..] + q;
      WriteChunks(k, h, p[1..], q);
      var (i, a) := Write(k, h, p[1..]);
      var (j, b) := Write(k, i, q);
      assert o + (a + b) == (o + a) + b;
    }
  }

  lemma WriteOneMore(k: nat, g: Gather, p: seq<Byte>, b: Byte)
    ensures var (h, a) := Write(k, g, p); var (i, o) := WriteOne(k, h, b); Write(k, g, p + [b]) == (i, a + o)
  {
    hide WriteOne;
    WriteChunks(k, g, p, [b]);
    var h := Write(k, g, p).0;
    assert [b][1..] == [];
    var (i, o) := WriteOne(k, h, b);
    assert o + [] == o;
    assert Write(k, i, []) == (i, []);
    assert Write(k, h, [b]) == (i, o);
  }

  // ---------------------------------------------------------------- reading

  function Width(k: nat): (w: nat)
    ensures 1 <= w <= 4
  {
    if k == 5 then 1 else if k <= 2 then 2 else 4
  }

  /** The bytes of a unit, first lowest. */
  function Low(s: seq<Byte>, w: nat): (r: nat)
    requires w <= |s|
  {
    if w == 0 then 0 else Or(Low(s, w - 1), s[w - 1] * Pow2(8 * (w - 1)))
  }

  /** The unit made of the bytes in `x`, in the handle's byte order. */
  function Swapped(k: nat, x: nat): Code {
    if k == 5 then x
    else if k <= 2 then (if k == 1 then Or(x % 0x100 * 0x100, x / 0x100) else x)
    else if k == 3 then Or(Or(Or(x % 0x100 * 0x100_0000, x / 0x100 % 0x100 * 0x1_0000), x / 0x1_0000 % 0x100 * 0x100), x / 0x100_0000)
    else x
  }

  /** The next unit of the file, when there is a whole one. */
  function UnitAt(k: nat, s: seq<Byte>): (r: Option<Code>)
    ensures r.Some? ==> |s| >= Width(k)
  {
    if |s| < Width(k) then None else Some(Swapped(k, Low(s, Width(k))))
  }

  /** What is left of the file after asking for a unit: a broken one is used up. */
  function PastUnit(k: nat, s: seq<Byte>): seq<Byte> { if |s| < Width(k) then [] else s[Width(k)..] }

  predicate HighSurrogate(u: Code) { 0xD800 <= u <= 0xDBFF }

  predicate LowSurrogate(u: Code) { 0xDC00 <= u <= 0xDFFF }

  /** The next character and the rest of the file. A high surrogate takes the unit after it along. */
  function Get(k: nat, s: seq<Byte>): (r: (Option<Code>, seq<Byte>))
    ensures r.0.Some? ==> |r.1| < |s|
  {
    var u, t := UnitAt(k, s), PastUnit(k, s);
    if u.None? then (None, t)
    else if k <= 2 && HighSurrogate(u.value) then
      var v := UnitAt(k, t);
      (Some(if v.Some? && LowSurrogate(v.value) then 0x1_0000 + (u.value - 0xD800) * 0x400 + (v.value - 0xDC00) else u.value), PastUnit(k, t))
    else (u, t)
  }

  /** A character packed for reading, first byte lowest, and its length. */
  function Pack(u: Code): (r: (nat, nat))
    ensures 1 <= r.1 <= 4
  {
    if u < 0x80 then (u, 1)
    else if u < 0x800 then (Or(Or(0xC0, u / 0x40), Or(0x80, u % 0x40) * 0x100), 2)
    else if u < 0x1_0000 then (Or(Or(Or(0xE0, u / 0x1000), Or(0x80, u / 0x40 % 0x40) * 0x100), Or(0x80, u % 0x40) * 0x1_0000), 3)
    else (Or(Or(Or(Or(0xF0, u / 0x4_0000), Or(0x80, u / 0x1000 % 0x40) * 0x100), Or(0x80, u / 0x40 % 0x40) * 0x1_0000), Or(0x80, u % 0x40) * 0x100_0000), 4)
  }

  /** The `n` low bytes of `x`, lowest first. */
  function Unpack(x: nat, n: nat): (r: seq<Byte>)
    ensures |r| == n
  {
    if n == 0 then [] else [x % 0x100] + Unpack(x / 0x100, n - 1)
  }

  /** Everything the handle will yield from the file. */
  function Decoded(k: nat, s: seq<Byte>): seq<Byte>
    decreases |s|
  {
    if k == 0 then s
    else
      var (u, t) := Get(k, s);
      if u.None? then [] else Unpack(Pack(u.value).0, Pack(u.value).1) + Decoded(k, t)
  }
}
