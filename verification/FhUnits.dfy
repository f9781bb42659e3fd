/** What the bytes of a transcoded file stand for, read as numbers. */
module FhUnits {
  import opened Arith
  import opened Common
  import opened FhCodec
  import opened FhRoundTrip

  /** Two bytes as a number: kind 1 has the high one first, kind 2 the low one. */
  function Read16(k: nat, s: seq<Byte>): nat
    requires |s| == 2
  {
    var a: nat, b: nat := s[0], s[1];
    if k == 1 then a * 0x100 + b else b * 0x100 + a
  }

  /** Four bytes as a number: kind 3 has the highest first, kind 4 the lowest. */
  function Read32(k: nat, s: seq<Byte>): nat
    requires |s| == 4
  {
    if k == 3 then Sum(s[3], s[2], s[1], s[0]) else Sum(s[0], s[1], s[2], s[3])
  }

  lemma Unit16Means(k: nat, u: Code)
    requires 1 <= k <= 2 && u < 0x1_0000
    ensures |Unit16(k, u)| == 2 && Read16(k, Unit16(k, u)) == u
  {
    hide Unit16;
    Unit16Is(k, u % 0x100, u / 0x100);
  }

  /** A surrogate pair and the character it stands for (RFC 2781, section 2.2). */
  predicate Pairs(hi: nat, lo: nat, u: Code) {
    0xD800 <= hi < 0xDC00 <= lo < 0xE000 && u == 0x1_0000 + (hi - 0xD800) * 0x400 + (lo - 0xDC00)
  }

  lemma SplitPair(u: Code)
    requires 0x1_0000 <= u < 0x11_0000
    ensures Pairs(0xD800 + (u - 0x1_0000) / 0x400, 0xDC00 + (u - 0x1_0000) % 0x400, u)
  {
  }

  /** What is written for a character: one unit, or the pair that stands for it; four bytes; one byte or a question mark. */
  lemma PutMeans(k: nat, u: Code)
    requires 1 <= k <= 5 && u < 0x11_0000
    ensures k <= 2 && u < 0x1_0000 ==> |Put(k, u)| == 2 && Read16(k, Put(k, u)) == u
    ensures k <= 2 && u >= 0x1_0000 ==> |Put(k, u)| == 4 && Pairs(Read16(k, Put(k, u)[..2]), Read16(k, Put(k, u)[2..]), u)
    ensures 3 <= k <= 4 ==> |Put(k, u)| == 4 && Read32(k, Put(k, u)) == u
    ensures k == 5 ==> Put(k, u) == [if u < 0x100 then u else 63]
  {
    if k <= 2 && u < 0x1_0000 { Unit16Means(k, u); }
    if k <= 2 && u >= 0x1_0000 {
      SplitPair(u);
      var hi, lo := 0xD800 + (u - 0x1_0000) / 0x400, 0xDC00 + (u - 0x1_0000) % 0x400;
      Unit16Means(k, hi);
      Unit16Means(k, lo);
      hide Unit16, Unit32, Pairs;
      assert Put(k, u)[..2] == Unit16(k, hi) && Put(k, u)[2..] == Unit16(k, lo);
    }
    if 3 <= k <= 4 {
      var a, b, c, d := SumOf(u);
      Unit32Is(k, a, b, c, d);
      hide Unit32, Sum;
    }
  }

  lemma UnitMeans(k: nat, a: Byte, b: Byte, rest: seq<Byte>)
    requires 1 <= k <= 2
    ensures UnitAt(k, [a, b] + rest) == Some(Read16(k, [a, b])) && PastUnit(k, [a, b] + rest) == rest
  {
    ShortOf(k, a, b, rest);
    SwapTwo(a, b);
    hide UnitAt, PastUnit, Swapped;
  }

  /** What two units are read as. A high surrogate takes the next unit along whatever it is: it makes a character with
      a low one, and any other is lost. */
  lemma PairRead(k: nat, s: seq<Byte>, t: seq<Byte>, rest: seq<Byte>)
    requires 1 <= k <= 2 && |s| == |t| == 2
    ensures var u, v := Read16(k, s), Read16(k, t);
            && (!(0xD800 <= u < 0xDC00) ==> Get(k, s + t + rest) == (Some(u), t + rest))
            && (0xD800 <= u < 0xDC00 && 0xDC00 <= v < 0xE000 ==>
                  Get(k, s + t + rest).0.Some? && Pairs(u, v, Get(k, s + t + rest).0.value) && Get(k, s + t + rest).1 == rest)
            && (0xD800 <= u < 0xDC00 && !(0xDC00 <= v < 0xE000) ==> Get(k, s + t + rest) == (Some(u), rest))
  {
    assert s == [s[0], s[1]] && t == [t[0], t[1]];
    assert s + t + rest == s + (t + rest);
    UnitMeans(k, s[0], s[1], t + rest);
    UnitMeans(k, t[0], t[1], rest);
    hide UnitAt, PastUnit, Read16;
  }

  /** The last unit stands for itself, a high surrogate too, and a broken one for nothing. */
  lemma LastRead(k: nat, s: seq<Byte>)
    requires 1 <= k <= 2
    ensures |s| < 2 ==> Get(k, s).0 == None
    ensures |s| == 2 ==> Get(k, s) == (Some(Read16(k, s)), [])
  {
    if |s| == 2 {
      assert s == [s[0], s[1]] && s + [] == s;
      UnitMeans(k, s[0], s[1], []);
      NoUnit(k);
      hide Read16, Swapped, Low;
    }
  }

  lemma NoUnit(k: nat)
    ensures UnitAt(k, []) == None && PastUnit(k, []) == []
  {
  }

  /** A byte that starts no character is taken for a character of its own. */
  lemma StrayByte(k: nat, g: Gather, b: Byte)
    requires k > 0 && g.n == 0 && (Continuation(b) || b >= 0xF8)
    ensures WriteOne(k, g, b).0.n == 0 && WriteOne(k, g, b).1 == Put(k, b)
  {
    JoinedAdds(g, b);
    Div(b, 0x100, 0, b);
    hide Put, Or, Pow2;
  }
}
