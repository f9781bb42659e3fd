/** Text written through a transcoding handle reads back the same. */
module FhRoundTrip {
  import opened Common
  import opened Arith
  import opened FhCodec

  // ---------------------------------------------------------------- bit fields as sums

  lemma MoreAdds(u: Code, x: nat, m: nat)
    ensures More(u, x, m) == u * 0x40 + x / Pow2(8 * m) % 0x40
  {
    PowersAre();
    OrAdds(x / Pow2(8 * m) % 0x40, u, 6);
  }

  lemma JoinedAdds(g: Gather, b: Byte)
    ensures g.n == 0 ==> Joined(g, b) == b
    ensures g.n == 1 && g.x < 0x100 ==> Joined(g, b) == g.x + b * 0x100
    ensures g.n == 2 && g.x < 0x1_0000 ==> Joined(g, b) == g.x + b * 0x1_0000
    ensures g.n == 3 && g.x < 0x100_0000 ==> Joined(g, b) == g.x + b * 0x100_0000
  {
    PowersAre();
    hide Pow2, Or;
    assert Pow2(0) == 1 && (g.n == 0 ==> Joined(g, b) == b) by { ZeroJoined(b); }
    if g.n == 1 && g.x < 0x100 { OrAdds(g.x, b, 8); }
    if g.n == 2 && g.x < 0x1_0000 { OrAdds(g.x, b, 16); }
    if g.n == 3 && g.x < 0x100_0000 { OrAdds(g.x, b, 24); }
  }

  lemma ZeroJoined(b: Byte)
    ensures Pow2(0) == 1 && Or(0, b * Pow2(8 * 0)) == b
  {
  }

  lemma GatheredFlat(x: nat)
    ensures Gathered(x, 1, 1) == x % 0x100
    ensures Gathered(x, 2, 2) == x % 0x20 * 0x40 + x / 0x100 % 0x40
    ensures Gathered(x, 3, 3) == (x % 0x10 * 0x40 + x / 0x100 % 0x40) * 0x40 + x / 0x1_0000 % 0x40
    ensures Gathered(x, 4, 4) == ((x % 8 * 0x40 + x / 0x100 % 0x40) * 0x40 + x / 0x1_0000 % 0x40) * 0x40 + x / 0x100_0000 % 0x40
  {
    hide Or, Pow2, More;
    var l2, l3, l4 := Lead(x, 2), Lead(x, 3), Lead(x, 4);
    PowersAre();
    MoreAdds(l2, x, 1);
    MoreAdds(l3, x, 1);
    MoreAdds(l4, x, 1);
    assert Gathered(x, 3, 2) == More(l3, x, 1);
    assert Gathered(x, 4, 2) == More(l4, x, 1);
    MoreAdds(More(l3, x, 1), x, 2);
    MoreAdds(More(l4, x, 1), x, 2);
    assert Gathered(x, 4, 3) == More(More(l4, x, 1), x, 2);
    MoreAdds(More(More(l4, x, 1), x, 2), x, 3);
  }

  // ---------------------------------------------------------------- one character out

  lemma TakeIs(g: Gather, b: Byte, x: nat, need: nat)
    requires x == Joined(g, b) && need == Need(x)
    ensures Take(g, b) == if g.n + 1 < need then (Gather(x, g.n + 1), None) else (Gather(x, 0), Some(Gathered(x, need, need)))
  {
    hide Joined, Need, Gathered;
  }

  /** `p` is one character: it leaves nothing gathered and yields `u`. */
  ghost predicate Yields(g: Gather, p: seq<Byte>, u: Code)
    requires |p| > 0
    decreases |p|
  {
    if |p| == 1 then Take(g, p[0]).1 == Some(u) && Take(g, p[0]).0.n == 0
    else Take(g, p[0]).1 == None && Yields(Take(g, p[0]).0, p[1..], u)
  }

  /** The six-bit groups of a code. */
  lemma Groups(v: nat, t: nat, r: nat, q: nat)
    requires t < 0x40 && r < 0x40 && q < 0x40
    ensures var u := ((v * 0x40 + t) * 0x40 + r) * 0x40 + q;
            u % 0x40 == q && u / 0x40 % 0x40 == r && u / 0x1000 % 0x40 == t && u / 0x40 == (v * 0x40 + t) * 0x40 + r && u / 0x1000 == v * 0x40 + t && u / 0x4_0000 == v
  {
    var u := ((v * 0x40 + t) * 0x40 + r) * 0x40 + q;
    Div(u, 0x40, (v * 0x40 + t) * 0x40 + r, q);
    Div((v * 0x40 + t) * 0x40 + r, 0x40, v * 0x40 + t, r);
    Div(u, 0x1000, v * 0x40 + t, r * 0x40 + q);
    Div(v * 0x40 + t, 0x40, v, t);
    Div(u, 0x4_0000, v, t * 0x1000 + r * 0x40 + q);
  }

  /** The form of each character by its groups. */
  lemma Utf8Groups(u: Code) returns (v: nat, t: nat, r: nat, q: nat)
    requires u < 0x20_0000
    ensures t < 0x40 && r < 0x40 && q < 0x40 && v < 8 && u == ((v * 0x40 + t) * 0x40 + r) * 0x40 + q
    ensures q == u % 0x40 && r == u / 0x40 % 0x40 && t == u / 0x1000 % 0x40 && v == u / 0x4_0000
    ensures 0x80 <= u < 0x800 ==> v == t == 0 && r < 0x20 && u / 0x40 == r && Utf8(u) == [0xC0 + r, 0x80 + q]
    ensures 0x800 <= u < 0x1_0000 ==> v == 0 && t < 0x10 && u / 0x1000 == t && Utf8(u) == [0xE0 + t, 0x80 + r, 0x80 + q]
    ensures 0x1_0000 <= u ==> Utf8(u) == [0xF0 + v, 0x80 + t, 0x80 + r, 0x80 + q]
  {
    q, r, t, v := u % 0x40, u / 0x40 % 0x40, u / 0x40 / 0x40 % 0x40, u / 0x40 / 0x40 / 0x40;
    Groups(v, t, r, q);
  }

  /** What a word of gathered bytes says, the first byte being `a`. */
  lemma Fields(a: Byte, b: Byte, c: Byte, d: Byte)
    ensures var y := a + b * 0x100; Need(y) == Need(a) && y % 0x20 == a % 0x20 && y / 0x100 == b
    ensures var z := a + b * 0x100 + c * 0x1_0000; Need(z) == Need(a) && z % 0x10 == a % 0x10 && z / 0x100 % 0x40 == b % 0x40 && z / 0x1_0000 == c
    ensures var w := a + b * 0x100 + c * 0x1_0000 + d * 0x100_0000;
            Need(w) == Need(a) && w % 8 == a % 8 && w / 0x100 % 0x40 == b % 0x40 && w / 0x1_0000 % 0x40 == c % 0x40 && w / 0x100_0000 == d
  {
    FieldOf(a + b * 0x100, a, b);
    FieldOf(a + b * 0x100 + c * 0x1_0000, a, b + c * 0x100);
    FieldOf(a + b * 0x100 + c * 0x1_0000 + d * 0x100_0000, a, b + c * 0x100 + d * 0x1_0000);
    Div(a + b * 0x100 + c * 0x1_0000, 0x1_0000, c, a + b * 0x100);
    Div(a + b * 0x100 + c * 0x1_0000 + d * 0x100_0000, 0x1_0000, c + d * 0x100, a + b * 0x100);
    Div(a + b * 0x100 + c * 0x1_0000 + d * 0x100_0000, 0x100_0000, d, a + b * 0x100 + c * 0x1_0000);
    LowBits(b, c);
    LowBits(b, c + d * 0x100);
    LowBits(c, d);
  }

  lemma LowBits(b: Byte, c: nat)
    ensures (b + c * 0x100) % 0x40 == b % 0x40
  {
    Div(b + c * 0x100, 0x40, b / 0x40 + c * 4, b % 0x40);
  }

  lemma NeedOfLow(x: nat, a: Byte)
    requires x % 0x100 == a
    ensures Need(x) == Need(a)
  {
    Div(a, 0x100, 0, a);
  }

  lemma FieldOf(x: nat, a: Byte, rest: nat)
    requires x == a + rest * 0x100
    ensures x % 0x100 == a && x / 0x100 == rest && Need(x) == Need(a) && x % 0x20 == a % 0x20 && x % 0x10 == a % 0x10 && x % 8 == a % 8
  {
    hide *;
    Div(x, 0x100, rest, a);
    NeedOfLow(x, a);
    Div(x, 0x20, rest * 8 + a / 0x20, a % 0x20);
    Div(x, 0x10, rest * 0x10 + a / 0x10, a % 0x10);
    Div(x, 8, rest * 0x20 + a / 8, a % 8);
  }

  lemma FirstOfTwo(x: nat)
    requires x < 0x20
    ensures Need(0xC0 + x) == 2 && (0xC0 + x) % 0x20 == x
  {
    Div(0xC0 + x, 0x20, 6, x);
  }

  lemma FirstOfThree(x: nat)
    requires x < 0x10
    ensures Need(0xE0 + x) == 3 && (0xE0 + x) % 0x10 == x
  {
    Div(0xE0 + x, 0x10, 14, x);
    Div(0xE0 + x, 0x20, 7, x);
  }

  lemma FirstOfFour(x: nat)
    requires x < 8
    ensures Need(0xF0 + x) == 4 && (0xF0 + x) % 8 == x
  {
    Div(0xF0 + x, 8, 30, x);
    Div(0xF0 + x, 0x10, 15, x);
    Div(0xF0 + x, 0x20, 7, 0x10 + x);
  }

  lemma FirstOfOne(x: nat)
    requires x < 0x80
    ensures Need(x) == 1
  {
    Div(x, 0x100, 0, x);
  }

  lemma Firsts(x: nat)
    ensures x < 0x80 ==> Need(x) == 1
    ensures x < 0x20 ==> Need(0xC0 + x) == 2 && (0xC0 + x) % 0x20 == x
    ensures x < 0x10 ==> Need(0xE0 + x) == 3 && (0xE0 + x) % 0x10 == x
    ensures x < 8 ==> Need(0xF0 + x) == 4 && (0xF0 + x) % 8 == x
    ensures x < 0x40 ==> (0x80 + x) % 0x40 == x
  {
    hide *;
    if x < 0x80 { FirstOfOne(x); }
    if x < 0x20 { FirstOfTwo(x); }
    if x < 0x10 { FirstOfThree(x); }
    if x < 8 { FirstOfFour(x); }
    if x < 0x40 { Div(0x80 + x, 0x40, 2, x); }
  }

  lemma YieldsLast(g: Gather, a: Byte, x: nat, u: Code)
    requires Joined(g, a) == x && Need(x) <= g.n + 1 && Gathered(x, Need(x), Need(x)) == u
    ensures Yields(g, [a], u)
  {
    TakeIs(g, a, x, Need(x));
    hide Take, Joined, Need, Gathered;
  }

  lemma YieldsMore(g: Gather, a: Byte, x: nat, rest: seq<Byte>, u: Code)
    requires Joined(g, a) == x && Need(x) > g.n + 1 && |rest| > 0 && Yields(Gather(x, g.n + 1), rest, u)
    ensures Yields(g, [a] + rest, u)
  {
    TakeIs(g, a, x, Need(x));
    assert ([a] + rest)[1..] == rest;
    hide Take, Joined, Need, Gathered;
  }

  lemma YieldsOne(g: Gather, u: Code)
    requires g.n == 0 && u < 0x80
    ensures Yields(g, [u], u)
  {
    hide *;
    Firsts(u);
    GatheredFlat(u);
    Div(u, 0x100, 0, u);
    JoinedAdds(g, u);
    YieldsLast(g, u, u, u);
  }

  lemma YieldsTwo(g: Gather, u: Code)
    requires g.n == 0 && 0x80 <= u < 0x800
    ensures Yields(g, Utf8(u), u)
  {
    hide *;
    var v, t, r, q := Utf8Groups(u);
    var a: Byte, b: Byte := 0xC0 + r, 0x80 + q;
    var y := a + b * 0x100;
    Firsts(r);
    Firsts(q);
    Fields(a, b, 0, 0);
    GatheredFlat(y);
    JoinedAdds(g, a);
    JoinedAdds(Gather(a, 1), b);
    YieldsLast(Gather(a, 1), b, y, u);
    YieldsMore(g, a, a, [b], u);
    assert Utf8(u) == [a] + [b];
  }

  lemma YieldsThree(g: Gather, u: Code)
    requires g.n == 0 && 0x800 <= u < 0x1_0000
    ensures Yields(g, Utf8(u), u)
  {
    hide *;
    var v, t, r, q := Utf8Groups(u);
    var a: Byte, b: Byte, c: Byte := 0xE0 + t, 0x80 + r, 0x80 + q;
    var y := a + b * 0x100;
    var z := y + c * 0x1_0000;
    Firsts(t);
    Firsts(r);
    Firsts(q);
    Fields(a, b, c, 0);
    GatheredFlat(z);
    JoinedAdds(g, a);
    JoinedAdds(Gather(a, 1), b);
    JoinedAdds(Gather(y, 2), c);
    YieldsLast(Gather(y, 2), c, z, u);
    YieldsMore(Gather(a, 1), b, y, [c], u);
    YieldsMore(g, a, a, [b] + [c], u);
    assert Utf8(u) == [a] + ([b] + [c]);
  }

  /** Four bytes that all say there are four. */
  lemma YieldsChain(g: Gather, a: Byte, b: Byte, c: Byte, d: Byte, u: Code)
    requires g.n == 0 && Need(a) == 4 && Gathered(a + b * 0x100 + c * 0x1_0000 + d * 0x100_0000, 4, 4) == u
    ensures Yields(g, [a] + ([b] + ([c] + [d])), u)
  {
    hide *;
    var y := a + b * 0x100;
    var z := y + c * 0x1_0000;
    Fields(a, b, c, d);
    JoinedAdds(g, a);
    JoinedAdds(Gather(a, 1), b);
    JoinedAdds(Gather(y, 2), c);
    JoinedAdds(Gather(z, 3), d);
    YieldsLast(Gather(z, 3), d, z + d * 0x100_0000, u);
    YieldsMore(Gather(y, 2), c, z, [d], u);
    YieldsMore(Gather(a, 1), b, y, [c] + [d], u);
    YieldsMore(g, a, a, [b] + ([c] + [d]), u);
  }

  lemma YieldsFour(g: Gather, u: Code)
    requires g.n == 0 && 0x1_0000 <= u < 0x20_0000
    ensures Yields(g, Utf8(u), u)
  {
    hide *;
    var v, t, r, q := Utf8Groups(u);
    var a: Byte, b: Byte, c: Byte, d: Byte := 0xF0 + v, 0x80 + t, 0x80 + r, 0x80 + q;
    Firsts(v);
    Firsts(t);
    Firsts(r);
    Firsts(q);
    Fields(a, b, c, d);
    GatheredFlat(a + b * 0x100 + c * 0x1_0000 + d * 0x100_0000);
    YieldsChain(g, a, b, c, d, u);
    assert Utf8(u) == [a] + ([b] + ([c] + [d]));
  }

  /** However a character's bytes arrive, they come together as its code. */
  lemma Utf8Yields(g: Gather, u: Code)
    requires g.n == 0 && u < 0x20_0000
    ensures Yields(g, Utf8(u), u)
  {
    if u < 0x80 { YieldsOne(g, u); } else if u < 0x800 { YieldsTwo(g, u); } else if u < 0x1_0000 { YieldsThree(g, u); } else { YieldsFour(g, u); }
    hide Yields;
  }

  // ---------------------------------------------------------------- one character in

  lemma Marked(x: nat)
    ensures x < 0x40 ==> Or(0x80, x) == 0x80 + x
    ensures x < 0x20 ==> Or(0xC0, x) == 0xC0 + x
    ensures x < 0x10 ==> Or(0xE0, x) == 0xE0 + x
    ensures x < 8 ==> Or(0xF0, x) == 0xF0 + x
  {
    PowersAre();
    hide Or, Pow2;
    if x < 0x40 { OrAdds(x, 1, 7) by { PowersAre(); } }
    if x < 0x20 { OrAdds(x, 6, 5); }
    if x < 0x10 { OrAdds(x, 14, 4); }
    if x < 8 { OrAdds(x, 30, 3); }
  }

  lemma Fold(a: Byte, b: Byte, c: Byte, d: Byte)
    ensures Or(a, b * 0x100) == a + b * 0x100
    ensures Or(Or(a, b * 0x100), c * 0x1_0000) == a + b * 0x100 + c * 0x1_0000
    ensures Or(Or(Or(a, b * 0x100), c * 0x1_0000), d * 0x100_0000) == a + b * 0x100 + c * 0x1_0000 + d * 0x100_0000
  {
    PowersAre();
    hide Or, Pow2;
    OrAdds(a, b, 8);
    OrAdds(a + b * 0x100, c, 16);
    OrAdds(a + b * 0x100 + c * 0x1_0000, d, 24);
  }

  lemma UnpackedTwo(a: Byte, b: Byte)
    ensures Unpack(a, 1) == [a] && Unpack(a + b * 0x100, 2) == [a, b]
  {
    assert Unpack(0, 0) == [];
    hide Unpack;
    UnpackLast(a, 0, 1, []);
    UnpackLast(b, 0, 1, []);
    UnpackLast(a, b, 2, [b]);
  }

  lemma UnpackedThree(a: Byte, b: Byte, c: Byte)
    ensures Unpack(a + b * 0x100 + c * 0x1_0000, 3) == [a, b, c]
  {
    hide Unpack;
    UnpackedTwo(b, c);
    UnpackLast(a, b + c * 0x100, 3, [b, c]);
  }

  /** The bytes of a sum of fields. */
  lemma Unpacked(a: Byte, b: Byte, c: Byte, d: Byte)
    ensures Unpack(a, 1) == [a] && Unpack(a + b * 0x100, 2) == [a, b]
    ensures Unpack(a + b * 0x100 + c * 0x1_0000, 3) == [a, b, c]
    ensures Unpack(a + b * 0x100 + c * 0x1_0000 + d * 0x100_0000, 4) == [a, b, c, d]
  {
    hide Unpack;
    UnpackedTwo(a, b);
    UnpackedThree(a, b, c);
    UnpackedThree(b, c, d);
    UnpackLast(a, b + c * 0x100 + d * 0x1_0000, 4, [b, c, d]);
  }

  lemma UnpackLast(a: Byte, rest: nat, n: nat, s: seq<Byte>)
    requires n > 0 && Unpack(rest, n - 1) == s
    ensures Unpack(a + rest * 0x100, n) == [a] + s
  {
    Div(a + rest * 0x100, 0x100, rest, a);
  }

  lemma PackIs(u: Code)
    requires u < 0x20_0000
    ensures u < 0x80 ==> Pack(u) == (u, 1) && Utf8(u) == [u]
    ensures 0x80 <= u < 0x800 ==> Pack(u) == (Or(Or(0xC0, u / 0x40), Or(0x80, u % 0x40) * 0x100), 2)
    ensures 0x800 <= u < 0x1_0000 ==> Pack(u) == (Or(Or(Or(0xE0, u / 0x1000), Or(0x80, u / 0x40 % 0x40) * 0x100), Or(0x80, u % 0x40) * 0x1_0000), 3)
    ensures 0x1_0000 <= u ==>
              Pack(u) == (Or(Or(Or(Or(0xF0, u / 0x4_0000), Or(0x80, u / 0x1000 % 0x40) * 0x100), Or(0x80, u / 0x40 % 0x40) * 0x1_0000), Or(0x80, u % 0x40) * 0x100_0000), 4)
  {
    hide Or;
  }

  /** Packed and unpacked, a code has its UTF-8 form. */
  lemma UnpackPack(u: Code)
    requires u < 0x20_0000
    ensures Unpack(Pack(u).0, Pack(u).1) == Utf8(u)
  {
    hide *;
    var v, t, r, q := Utf8Groups(u);
    PackIs(u);
    Marked(v);
    Marked(t);
    Marked(r);
    Marked(q);
    if u < 0x80 {
      Unpacked(u, 0, 0, 0);
    } else if u < 0x800 {
      Fold(0xC0 + r, 0x80 + q, 0, 0);
      Unpacked(0xC0 + r, 0x80 + q, 0, 0);
    } else if u < 0x1_0000 {
      Fold(0xE0 + t, 0x80 + r, 0x80 + q, 0);
      Unpacked(0xE0 + t, 0x80 + r, 0x80 + q, 0);
    } else {
      Fold(0xF0 + v, 0x80 + t, 0x80 + r, 0x80 + q);
      Unpacked(0xF0 + v, 0x80 + t, 0x80 + r, 0x80 + q);
    }
  }

  // ---------------------------------------------------------------- one unit there and back

  function Sum(a: nat, b: nat, c: nat, d: nat): nat { a + b * 0x100 + c * 0x1_0000 + d * 0x100_0000 }

  lemma LowIs(s: seq<Byte>)
    ensures |s| >= 1 ==> Low(s, 1) == s[0]
    ensures |s| >= 2 ==> Low(s, 2) == Sum(s[0], s[1], 0, 0)
    ensures |s| >= 4 ==> Low(s, 4) == Sum(s[0], s[1], s[2], s[3])
  {
    PowersAre();
    hide Or, Pow2;
    if |s| >= 1 { ZeroJoined(s[0]); assert Low(s, 0) == 0 && Low(s, 1) == Or(0, s[0] * Pow2(8 * 0)); }
    if |s| >= 2 { OrAdds(s[0], s[1], 8); }
    if |s| >= 4 {
      OrAdds(Sum(s[0], s[1], 0, 0), s[2], 16);
      OrAdds(Sum(s[0], s[1], s[2], 0), s[3], 24);
      assert Low(s, 3) == Or(Low(s, 2), s[2] * Pow2(16));
      assert Low(s, 4) == Or(Low(s, 3), s[3] * Pow2(24));
    }
  }

  lemma SwapTwo(a: Byte, b: Byte)
    ensures Swapped(1, a + b * 0x100) == a * 0x100 + b && Swapped(2, a + b * 0x100) == a + b * 0x100
  {
    Div(a + b * 0x100, 0x100, b, a);
    PowersAre();
    OrAdds(b, a, 8);
    hide Or, Pow2;
  }

  lemma SwapFour(a: Byte, b: Byte, c: Byte, d: Byte)
    ensures Swapped(4, Sum(a, b, c, d)) == Sum(a, b, c, d) && Swapped(3, Sum(a, b, c, d)) == Sum(d, c, b, a)
  {
    hide Or, Pow2;
    var x := Sum(a, b, c, d);
    SumParts(a, b, c, d);
    PowersAre();
    OrAdds(b * 0x1_0000, a, 24);
    OrAdds(c * 0x100, a * 0x100 + b, 16);
    OrAdds(d, a * 0x1_0000 + b * 0x100 + c, 8);
    assert Swapped(3, x) == Or(Or(Or(a * 0x100_0000, b * 0x1_0000), c * 0x100), d);
  }

  /** The bytes of a word. */
  lemma SumParts(a: Byte, b: Byte, c: Byte, d: Byte)
    ensures var x := Sum(a, b, c, d);
            x % 0x100 == a && x / 0x100 % 0x100 == b && x / 0x1_0000 % 0x100 == c && x / 0x100_0000 % 0x100 == d && x / 0x100_0000 == d
  {
    var x := Sum(a, b, c, d);
    Div(x, 0x100, b + c * 0x100 + d * 0x1_0000, a);
    Div(b + c * 0x100 + d * 0x1_0000, 0x100, c + d * 0x100, b);
    Div(x, 0x1_0000, c + d * 0x100, a + b * 0x100);
    Div(c + d * 0x100, 0x100, d, c);
    Div(x, 0x100_0000, d, a + b * 0x100 + c * 0x1_0000);
    Div(d, 0x100, 0, d);
  }

  lemma Unit16Is(k: nat, a: Byte, b: Byte)
    ensures Unit16(k, a + b * 0x100) == if k == 1 then [b, a] else [a, b]
  {
    Div(a + b * 0x100, 0x100, b, a);
    Div(b, 0x100, 0, b);
  }

  lemma ShortOf(k: nat, a: Byte, b: Byte, rest: seq<Byte>)
    requires 1 <= k <= 2
    ensures UnitAt(k, [a, b] + rest) == Some(Swapped(k, a + b * 0x100)) && PastUnit(k, [a, b] + rest) == rest
  {
    var t := [a, b] + rest;
    assert t[0] == a && t[1] == b && t[2..] == rest;
    LowIs(t);
    hide Swapped, Low;
  }

  lemma Unit16Back(k: nat, u: Code, rest: seq<Byte>)
    requires 1 <= k <= 2 && u < 0x1_0000
    ensures UnitAt(k, Unit16(k, u) + rest) == Some(u) && PastUnit(k, Unit16(k, u) + rest) == rest
  {
    hide *;
    var a: Byte, b: Byte := u % 0x100, u / 0x100;
    Unit16Is(k, a, b);
    ShortOf(k, a, b, rest);
    ShortOf(k, b, a, rest);
    SwapTwo(a, b);
    SwapTwo(b, a);
  }

  /** A 32-bit code as its bytes. */
  lemma SumOf(u: Code) returns (a: Byte, b: Byte, c: Byte, d: Byte)
    requires u < 0x1_0000_0000
    ensures u == Sum(a, b, c, d)
  {
    a, b, c, d := u % 0x100, u / 0x100 % 0x100, u / 0x100 / 0x100 % 0x100, u / 0x100 / 0x100 / 0x100;
  }

  lemma Unit32Is(k: nat, a: Byte, b: Byte, c: Byte, d: Byte)
    ensures Unit32(k, Sum(a, b, c, d)) == if k == 3 then [d, c, b, a] else [a, b, c, d]
  {
    SumParts(a, b, c, d);
    hide Sum;
  }

  lemma UnitOf(k: nat, s: seq<Byte>, rest: seq<Byte>)
    requires 3 <= k <= 4 && |s| == 4
    ensures UnitAt(k, s + rest) == Some(Swapped(k, Sum(s[0], s[1], s[2], s[3]))) && PastUnit(k, s + rest) == rest
  {
    hide *;
    var t := s + rest;
    assert t[0] == s[0] && t[1] == s[1] && t[2] == s[2] && t[3] == s[3] && t[4..] == rest;
    LowIs(t);
    UnitAtIs(k, t);
  }

  lemma UnitAtIs(k: nat, t: seq<Byte>)
    requires 3 <= k <= 4 && |t| >= 4
    ensures UnitAt(k, t) == Some(Swapped(k, Low(t, 4))) && PastUnit(k, t) == t[4..]
  {
    hide Swapped, Low;
  }

  lemma Unit32Back(k: nat, u: Code, rest: seq<Byte>)
    requires 3 <= k <= 4 && u < 0x1_0000_0000
    ensures UnitAt(k, Unit32(k, u) + rest) == Some(u) && PastUnit(k, Unit32(k, u) + rest) == rest
  {
    hide *;
    var a, b, c, d := SumOf(u);
    Unit32Is(k, a, b, c, d);
    UnitOf(k, Unit32(k, u), rest);
    SwapFour(a, b, c, d);
    SwapFour(d, c, b, a);
  }

  /** A character written is the next character read. */
  lemma GetPut(k: nat, u: Code, rest: seq<Byte>)
    requires 1 <= k <= 4 && Scalar(u)
    ensures Get(k, Put(k, u) + rest) == (Some(u), rest)
  {
    hide UnitAt, PastUnit, Unit16, Unit32;
    if k >= 3 {
      Unit32Back(k, u, rest);
    } else if u < 0x1_0000 {
      Unit16Back(k, u, rest);
    } else {
      var hi, lo := 0xD800 + (u - 0x1_0000) / 0x400, 0xDC00 + (u - 0x1_0000) % 0x400;
      var t := Unit16(k, lo) + rest;
      assert Put(k, u) + rest == Unit16(k, hi) + t;
      Unit16Back(k, hi, t);
      Unit16Back(k, lo, rest);
    }
  }

  /** What Latin-1 can hold of a code. */
  function Narrow(u: Code): Code { if u < 0x100 then u else 63 }

  lemma GetLatin(u: Code, rest: seq<Byte>)
    ensures Get(5, Put(5, u) + rest) == (Some(Narrow(u)), rest)
  {
    var s := Put(5, u) + rest;
    LowIs(s);
    assert s[1..] == rest;
    hide Low;
  }

  // ---------------------------------------------------------------- whole texts

  predicate Small(us: seq<Code>) { forall i | 0 <= i < |us| :: us[i] < 0x20_0000 }

  predicate Scalars(us: seq<Code>) { forall i | 0 <= i < |us| :: Scalar(us[i]) }

  function Text(us: seq<Code>): seq<Byte>
    requires Small(us)
  {
    if us == [] then [] else Utf8(us[0]) + Text(us[1..])
  }

  function File(k: nat, us: seq<Code>): seq<Byte> { if us == [] then [] else Put(k, us[0]) + File(k, us[1..]) }

  lemma {:induction false} YieldsWrites(k: nat, g: Gather, p: seq<Byte>, u: Code)
    requires k > 0 && |p| > 0 && Yields(g, p, u)
    ensures Write(k, g, p).0.n == 0 && Write(k, g, p).1 == Put(k, u)
    decreases |p|
  {
    hide Take, Put;
    var (h, o) := WriteOne(k, g, p[0]);
    if |p| == 1 {
      assert p[1..] == [] && Write(k, h, []) == (h, []);
      assert o + [] == o;
    } else {
      YieldsWrites(k, h, p[1..], u);
      assert [] + Put(k, u) == Put(k, u);
    }
  }

  /** Writing a text puts each of its characters in the file, and leaves nothing gathered. */
  lemma {:induction false} WriteText(k: nat, g: Gather, us: seq<Code>)
    requires k > 0 && g.n == 0 && Small(us)
    ensures Write(k, g, Text(us)).0.n == 0 && Write(k, g, Text(us)).1 == File(k, us)
    decreases |us|
  {
    hide Utf8, Put, Yields, WriteOne;
    if us != [] {
      var b := Utf8(us[0]);
      Utf8Yields(g, us[0]);
      YieldsWrites(k, g, b, us[0]);
      var h := Write(k, g, b).0;
      WriteText(k, h, us[1..]);
      WriteChunks(k, g, b, Text(us[1..]));
    }
  }

  lemma DecodedStep(k: nat, u: Code, v: Code, rest: seq<Byte>)
    requires k > 0 && v < 0x20_0000 && Get(k, Put(k, u) + rest) == (Some(v), rest)
    ensures Decoded(k, Put(k, u) + rest) == Utf8(v) + Decoded(k, rest)
  {
    UnpackPack(v);
    hide Get, Put, Utf8, Pack, Unpack;
  }

  lemma DecodedEmpty(k: nat)
    ensures Decoded(k, []) == []
  {
  }

  lemma {:induction false} ReadFile(k: nat, us: seq<Code>)
    requires 1 <= k <= 4 && Scalars(us)
    ensures Decoded(k, File(k, us)) == Text(us)
  {
    hide Utf8, Put, Decoded, Get;
    if us == [] {
      DecodedEmpty(k);
    } else {
      ReadFile(k, us[1..]);
      GetPut(k, us[0], File(k, us[1..]));
      DecodedStep(k, us[0], us[0], File(k, us[1..]));
    }
  }

  function NarrowAll(us: seq<Code>): (r: seq<Code>)
    ensures |r| == |us| && forall i | 0 <= i < |r| :: r[i] == Narrow(us[i]) < 0x100
  {
    if us == [] then [] else [Narrow(us[0])] + NarrowAll(us[1..])
  }

  lemma {:induction false} ReadLatin(us: seq<Code>)
    ensures Decoded(5, File(5, us)) == Text(NarrowAll(us))
  {
    hide Utf8, Put, Decoded, Get, Narrow;
    if us == [] {
      DecodedEmpty(5);
    } else {
      ReadLatin(us[1..]);
      assert NarrowAll(us)[0] == Narrow(us[0]) < 0x100;
      GetLatin(us[0], File(5, us[1..]));
      DecodedStep(5, us[0], Narrow(us[0]), File(5, us[1..]));
      assert NarrowAll(us)[1..] == NarrowAll(us[1..]);
    }
  }

  /** A question mark is shorter than what it stands for. */
  lemma {:induction false} NarrowShorter(us: seq<Code>)
    requires Small(us)
    ensures |Text(NarrowAll(us))| <= |Text(us)|
    ensures (exists i :: 0 <= i < |us| && us[i] >= 0x100) ==> |Text(NarrowAll(us))| < |Text(us)|
    ensures (forall i | 0 <= i < |us| :: us[i] < 0x100) ==> NarrowAll(us) == us
  {
    if us != [] {
      NarrowShorter(us[1..]);
      assert NarrowAll(us)[1..] == NarrowAll(us[1..]);
      if i :| 0 <= i < |us| && us[i] >= 0x100 { assert i > 0 ==> us[1..][i - 1] >= 0x100; }
      assert us == [us[0]] + us[1..];
    }
  }

  /** What a handle of kind `k` gives back for a text. */
  function RoundTrip(k: nat, us: seq<Code>): seq<Byte>
    requires Scalars(us)
  {
    Decoded(k, Write(k, Gather(0, 0), Text(us)).1)
  }

  /** Every text of Unicode scalar values comes back byte for byte through kinds 1 to 4, and through Latin-1
      exactly when it has no character past 255. */
  lemma RoundTripExact(k: nat, us: seq<Code>)
    requires 1 <= k <= 5 && Scalars(us)
    ensures RoundTrip(k, us) == Text(us) <==> k <= 4 || forall i | 0 <= i < |us| :: us[i] < 0x100
  {
    hide Utf8, Put, Decoded, Get, Narrow, Text, File, Write;
    WriteText(k, Gather(0, 0), us);
    if k <= 4 {
      ReadFile(k, us);
    } else {
      ReadLatin(us);
      NarrowShorter(us);
    }
  }

  // ---------------------------------------------------------------- any chunks

  /** Writing one chunk after another. */
  function WriteEach(k: nat, g: Gather, ps: seq<seq<Byte>>): (Gather, seq<Byte>)
    decreases |ps|
  {
    if ps == [] then (g, [])
    else
      var (h, o) := WriteEach(k, g, ps[..|ps| - 1]);
      var (i, q) := Write(k, h, ps[|ps| - 1]);
      (i, o + q)
  }

  /** However the text is cut, even inside a character, the file is the same. */
  lemma {:induction false} AnyChunks(k: nat, g: Gather, ps: seq<seq<Byte>>)
    ensures WriteEach(k, g, ps) == Write(k, g, Joint(ps))
    decreases |ps|
  {
    if ps != [] {
      AnyChunks(k, g, ps[..|ps| - 1]);
      WriteChunks(k, g, Joint(ps[..|ps| - 1]), ps[|ps| - 1]);
    }
  }
}
