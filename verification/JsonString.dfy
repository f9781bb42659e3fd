/** Strings in messages: how they are written and how they are read back. Bytes are named by their ASCII code:
    34 quote, 92 backslash, 117 u. */
module JsonString {
  import opened Arith
  import opened Common
  import opened FhCodec

  // ---------------------------------------------------------------- writing

  /** How long a character is, by its first byte; 0 when no character starts so. */
  function LeadLength(b: Byte): (k: nat)
    ensures k <= 4
  {
    if b < 0x80 then 1 else if b / 0x20 == 6 then 2 else if b / 0x10 == 14 then 3 else if b / 8 == 30 then 4 else 0
  }

  /** The length of the character `s` starts with, or 0 when it is cut short or broken. */
  function CharLength(s: seq<Byte>): (k: nat)
    requires s != []
    ensures k <= |s| && k <= 4
  {
    var k := LeadLength(s[0]);
    if k == 0 || k > |s| || exists i :: 1 <= i < k && !Continuation(s[i]) then 0 else k
  }

  function HexDigit(d: nat): Byte
    requires d < 16
  {
    if d < 10 then 48 + d else 87 + d
  }

  /** The escape `\\uXXXX`. */
  function Escape(v: nat): (r: seq<Byte>)
    requires v < 0x1_0000
    ensures |r| == 6
  {
    [92, 117, HexDigit(v / 0x1000), HexDigit(v / 0x100 % 16), HexDigit(v / 0x10 % 16), HexDigit(v % 16)]
  }

  /** How many bytes of `s` are written at a time. */
  function Unit(s: seq<Byte>): (k: nat)
    requires s != []
    ensures 1 <= k <= |s|
  {
    if s[0] < 0x80 || CharLength(s) == 0 then 1 else CharLength(s)
  }

  /** What is written for them. */
  function Written(s: seq<Byte>): seq<Byte>
    requires s != []
  {
    var c := s[0];
    if c == 34 || c == 92 then [92, c]
    else if c == 10 then [92, 110]
    else if c == 9 then [92, 116]
    else if c == 13 then [92, 114]
    else if c < 0x20 then Escape(c)
    else if c < 0x80 then [c]
    else if CharLength(s) > 0 then s[..CharLength(s)]
    else Escape(0xFFFD)
  }

  function WriteBody(s: seq<Byte>): seq<Byte>
    decreases |s|
  {
    if s == [] then [] else Written(s) + WriteBody(s[Unit(s)..])
  }

  function WriteString(s: seq<Byte>): seq<Byte> { [34] + WriteBody(s) + [34] }

  // ---------------------------------------------------------------- reading

  function HexValue(c: Byte): (r: Option<nat>)
    ensures r.Some? ==> r.value < 16
  {
    if 48 <= c <= 57 then Some(c - 48) else if 97 <= c <= 102 then Some(c - 87) else if 65 <= c <= 70 then Some(c - 55) else None
  }

  /** The value of four hex digits. */
  function Hex4(t: seq<Byte>): (r: Option<nat>)
    ensures r.Some? ==> |t| >= 4 && r.value < 0x1_0000
  {
    if |t| < 4 then None
    else
      var a, b, c, d := HexValue(t[0]), HexValue(t[1]), HexValue(t[2]), HexValue(t[3]);
      if a.None? || b.None? || c.None? || d.None? then None
      else Some(((a.value * 16 + b.value) * 16 + c.value) * 16 + d.value)
  }

  /** The character read for a high surrogate and the escape after it. */
  function Merged(hi: nat, v: nat): (x: Code)
    requires 0xD800 <= hi < 0xDC00 && v < 0x1_0000
    ensures x < 0x20_0000
  {
    0x1_0000 + (hi - 0xD800) * 0x400 + v - 0xDC00
  }

  /** The code of an escape after its `\\u`, and how many bytes it takes. A high surrogate takes any escape after
      it along, without a check that it is a low one. */
  function EscapedCode(t: seq<Byte>): (r: Option<(Code, nat)>)
    ensures r.Some? ==> r.value.0 < 0x20_0000 && 4 <= r.value.1 <= |t|
  {
    var cp := Hex4(t);
    if cp.None? then None
    else if 0xD800 <= cp.value < 0xDC00 && |t| >= 10 && t[4] == 92 && t[5] == 117 && Hex4(t[6..]).Some?
    then Some((Merged(cp.value, Hex4(t[6..]).value), 10))
    else Some((cp.value, 4))
  }

  /** One character of the text: what it stands for and how many bytes it takes. */
  function ReadOne(t: seq<Byte>): (r: Option<(seq<Byte>, nat)>)
    requires t != []
    ensures r.Some? ==> 1 <= r.value.1 <= |t|
  {
    if t[0] != 92 then Some(([t[0]], 1))
    else if |t| < 2 then None
    else
      var c := t[1];
      if c == 110 then Some(([10], 2))
      else if c == 116 then Some(([9], 2))
      else if c == 114 then Some(([13], 2))
      else if c == 98 then Some(([8], 2))
      else if c == 102 then Some(([12], 2))
      else if c == 117 then
        var e := EscapedCode(t[2..]);
        if e.None? then None else Some((Utf8(e.value.0), e.value.1 + 2))
      else Some(([c], 2))
  }

  /** The string behind an opening quote, and what follows its closing one. */
  function ReadBody(t: seq<Byte>): Option<(seq<Byte>, seq<Byte>)>
    decreases |t|
  {
    if t == [] then None
    else if t[0] == 34 then Some(([], t[1..]))
    else
      var one := ReadOne(t);
      if one.None? then None
      else
        var more := ReadBody(t[one.value.1..]);
        if more.None? then None else Some((one.value.0 + more.value.0, more.value.1))
  }

  // ---------------------------------------------------------------- what comes back

  /** U+FFFD in UTF-8. */
  const REPLACEMENT: seq<Byte> := [0xEF, 0xBF, 0xBD]

  /** Bytes that start no character are replaced. */
  function Sanitized(s: seq<Byte>): seq<Byte>
    decreases |s|
  {
    if s == [] then []
    else (if CharLength(s) == 0 then REPLACEMENT else s[..Unit(s)]) + Sanitized(s[Unit(s)..])
  }

  /** A string of whole characters. */
  predicate WellFormed(s: seq<Byte>)
    decreases |s|
  {
    s == [] || (CharLength(s) > 0 && WellFormed(s[Unit(s)..]))
  }

  lemma {:induction false} SanitizedSame(s: seq<Byte>)
    ensures |Sanitized(s)| >= |s| && (|Sanitized(s)| == |s| <==> WellFormed(s))
    ensures WellFormed(s) ==> Sanitized(s) == s
    decreases |s|
  {
    if s != [] {
      SanitizedSame(s[Unit(s)..]);
      assert s == s[..Unit(s)] + s[Unit(s)..];
    }
  }

  lemma HexBack(d: nat)
    requires d < 16
    ensures HexValue(HexDigit(d)) == Some(d)
  {
  }

  lemma Hex4Back(v: nat, t: seq<Byte>)
    requires v < 0x1_0000
    ensures Hex4(Escape(v)[2..] + t) == Some(v)
  {
    var a, b, c, d := v / 0x1000, v / 0x100 % 16, v / 0x10 % 16, v % 16;
    HexBack(a);
    HexBack(b);
    HexBack(c);
    HexBack(d);
    var u := Escape(v)[2..] + t;
    assert u[0] == HexDigit(a) && u[1] == HexDigit(b) && u[2] == HexDigit(c) && u[3] == HexDigit(d);
    Nibbles(v);
    hide HexDigit, HexValue, Escape;
  }

  lemma Nibbles(v: nat)
    requires v < 0x1_0000
    ensures v == ((v / 0x1000 * 16 + v / 0x100 % 16) * 16 + v / 0x10 % 16) * 16 + v % 16
  {
    var p, q := v / 0x10, v / 0x10 / 0x10;
    Div(v, 0x100, q, p % 0x10 * 0x10 + v % 0x10);
    Div(v, 0x1000, q / 0x10, q % 0x10 * 0x100 + p % 0x10 * 0x10 + v % 0x10);
  }

  /** An escape reads as the character it names. */
  lemma ReadEscape(v: nat, t: seq<Byte>)
    requires v < 0x1_0000 && !(0xD800 <= v < 0xDC00)
    ensures ReadOne(Escape(v) + t) == Some((Utf8(v), 6))
  {
    var u := Escape(v) + t;
    assert u[2..] == Escape(v)[2..] + t;
    Hex4Back(v, t);
    hide Utf8, Hex4, HexDigit;
  }

  lemma ReadBodyStep(w: seq<Byte>, t: seq<Byte>, x: seq<Byte>)
    requires w != [] && w[0] != 34 && ReadOne(w + t) == Some((x, |w|))
    ensures ReadBody(w + t) == var more := ReadBody(t); if more.None? then None else Some((x + more.value.0, more.value.1))
  {
    assert (w + t)[|w|..] == t;
    hide ReadOne;
  }

  lemma RawByte(c: Byte, t: seq<Byte>)
    requires c >= 0x80
    ensures ReadBody([c] + t) == var more := ReadBody(t); if more.None? then None else Some(([c] + more.value.0, more.value.1))
  {
    ReadBodyStep([c], t, [c]);
  }

  /** Raw bytes past ASCII read as themselves. */
  lemma {:induction false} ReadRaw(w: seq<Byte>, t: seq<Byte>)
    requires forall i | 0 <= i < |w| :: w[i] >= 0x80
    ensures ReadBody(w + t) == var more := ReadBody(t); if more.None? then None else Some((w + more.value.0, more.value.1))
  {
    hide *;
    var more := ReadBody(t);
    if w == [] {
      assert w + t == t;
      if more.Some? { assert [] + more.value.0 == more.value.0; }
    } else {
      ReadRaw(w[1..], t);
      RawByte(w[0], w[1..] + t);
      assert w + t == [w[0]] + (w[1..] + t);
      if more.Some? { assert [w[0]] + (w[1..] + more.value.0) == w + more.value.0; }
    }
  }

  lemma ControlUtf8(c: Byte)
    requires c < 0x20
    ensures Utf8(c) == [c]
  {
  }

  lemma ReplacementUtf8()
    ensures Utf8(0xFFFD) == REPLACEMENT
  {
  }

  lemma CharBytes(s: seq<Byte>)
    requires s != [] && s[0] >= 0x80 && CharLength(s) > 0
    ensures forall i | 0 <= i < CharLength(s) :: s[..CharLength(s)][i] >= 0x80
  {
    forall i | 0 <= i < CharLength(s) ensures s[i] >= 0x80 { if i > 0 { assert Continuation(s[i]); } }
  }

  /** Each piece written reads back as what it was written for. */
  lemma ReadWritten(s: seq<Byte>, t: seq<Byte>)
    requires s != []
    ensures ReadBody(Written(s) + t) == var more := ReadBody(t); var x := if CharLength(s) == 0 then REPLACEMENT else s[..Unit(s)];
                                        if more.None? then None else Some((x + more.value.0, more.value.1))
  {
    WrittenIs(s);
    hide *;
    if s[0] < 0x80 {
      ReadAscii(s, t);
    } else if CharLength(s) > 0 {
      CharBytes(s);
      ReadRaw(s[..CharLength(s)], t);
    } else {
      ReplacementUtf8();
      ReadEscape(0xFFFD, t);
      ReadBodyStep(Escape(0xFFFD), t, REPLACEMENT);
    }
  }

  lemma WrittenIs(s: seq<Byte>)
    requires s != []
    ensures s[0] < 0x80 ==> CharLength(s) == 1 && Unit(s) == 1 && s[..1] == [s[0]]
    ensures s[0] >= 0x80 && CharLength(s) > 0 ==> Unit(s) == CharLength(s) && Written(s) == s[..CharLength(s)]
    ensures s[0] >= 0x80 && CharLength(s) == 0 ==> Written(s) == Escape(0xFFFD) && Escape(0xFFFD)[0] != 34
  {
  }

  lemma ReadAscii(s: seq<Byte>, t: seq<Byte>)
    requires s != [] && s[0] < 0x80
    ensures ReadBody(Written(s) + t) == var more := ReadBody(t); if more.None? then None else Some(([s[0]] + more.value.0, more.value.1))
  {
    var c, w := s[0], Written(s);
    var u := w + t;
    hide ReadBody, CharLength, Utf8;
    if c < 0x20 && c != 10 && c != 9 && c != 13 {
      ControlUtf8(c);
      ReadEscape(c, t);
      hide ReadOne;
    } else {
      assert u[0] == w[0] && (|w| == 2 ==> u[1] == w[1]);
    }
    ReadBodyStep(w, t, [c]);
  }

  lemma ReadEnd(rest: seq<Byte>)
    ensures ReadBody([34] + rest) == Some(([], rest))
  {
  }

  lemma {:induction false} ReadWriteBody(s: seq<Byte>, rest: seq<Byte>)
    ensures ReadBody(WriteBody(s) + ([34] + rest)) == Some((Sanitized(s), rest))
    decreases |s|
  {
    hide ReadBody, Written, CharLength, Unit;
    if s == [] {
      ReadEnd(rest);
      assert [] + ([34] + rest) == [34] + rest;
    } else {
      var k := Unit(s);
      ReadWriteBody(s[k..], rest);
      assert WriteBody(s) + ([34] + rest) == Written(s) + (WriteBody(s[k..]) + ([34] + rest));
      ReadWritten(s, WriteBody(s[k..]) + ([34] + rest));
    }
  }

  /** What `js_string` gives at an opening quote: the string and the rest of the text. */
  function ReadString(t: seq<Byte>): Option<(seq<Byte>, seq<Byte>)>
    requires t != []
  {
    ReadBody(t[1..])
  }

  /** Reading what was written takes exactly the written text and gives the string back, with every byte that
      starts no whole character replaced: the string itself exactly when it is well formed. */
  lemma ReadWriteExact(s: seq<Byte>, rest: seq<Byte>)
    ensures ReadString(WriteString(s) + rest) == Some((Sanitized(s), rest))
    ensures Sanitized(s) == s <==> WellFormed(s)
  {
    hide ReadBody, WriteBody, Sanitized, WellFormed;
    ReadWriteBody(s, rest);
    SanitizedSame(s);
    assert (WriteString(s) + rest)[1..] == WriteBody(s) + ([34] + rest);
  }

  // ---------------------------------------------------------------- escapes of other writers

  /** A character as other writers may escape it (RFC 8259, section 7). */
  function EscapeOf(u: Code): seq<Byte>
    requires Scalar(u)
  {
    if u < 0x1_0000 then Escape(u) else Escape(0xD800 + (u - 0x1_0000) / 0x400) + Escape(0xDC00 + (u - 0x1_0000) % 0x400)
  }

  lemma PairReads(hi: nat, v: nat, t: seq<Byte>)
    requires 0xD800 <= hi < 0xDC00 && v < 0x1_0000
    ensures ReadOne(Escape(hi) + Escape(v) + t) == Some((Utf8(Merged(hi, v)), 12))
  {
    var u := Escape(hi) + Escape(v) + t;
    assert u[2..] == Escape(hi)[2..] + (Escape(v) + t);
    Hex4Back(hi, Escape(v) + t);
    assert u[2..][6..] == Escape(v)[2..] + t;
    Hex4Back(v, t);
    hide Utf8, Hex4, HexDigit;
  }

  /** Every character's escape reads as the character. */
  lemma EscapeReads(u: Code, t: seq<Byte>)
    requires Scalar(u)
    ensures ReadOne(EscapeOf(u) + t) == Some((Utf8(u), |EscapeOf(u)|))
  {
    if u < 0x1_0000 {
      ReadEscape(u, t);
    } else {
      var hi, lo := 0xD800 + (u - 0x1_0000) / 0x400, 0xDC00 + (u - 0x1_0000) % 0x400;
      PairReads(hi, lo, t);
    }
    hide ReadOne, Utf8;
  }

  /** The units UTF-16 gives a character (RFC 2781, section 2.1). */
  function Units(x: nat): seq<nat>
    requires x < 0x11_0000
  {
    if x < 0x1_0000 then [x] else [0xD800 + (x - 0x1_0000) / 0x400, 0xDC00 + (x - 0x1_0000) % 0x400]
  }

  /** A high surrogate takes whatever escape comes next along and both are used up; the character read is the
      one UTF-16 assigns to the pair exactly when the second is a low surrogate. */
  lemma PairExact(hi: nat, v: nat, t: seq<Byte>)
    requires 0xD800 <= hi < 0xDC00 && v < 0x1_0000
    ensures ReadOne(Escape(hi) + Escape(v) + t) == Some((Utf8(Merged(hi, v)), 12))
    ensures Merged(hi, v) < 0x11_0000 && Units(Merged(hi, v)) == [hi, v] <==> LowSurrogate(v)
  {
    hide *;
    PairReads(hi, v, t);
    PairUnits(hi, v);
  }

  lemma PairUnits(hi: nat, v: nat)
    requires 0xD800 <= hi < 0xDC00 && v < 0x1_0000
    ensures Merged(hi, v) < 0x11_0000 && Units(Merged(hi, v)) == [hi, v] <==> LowSurrogate(v)
  {
    var x := Merged(hi, v);
    if LowSurrogate(v) { Div(x - 0x1_0000, 0x400, hi - 0xD800, v - 0xDC00); }
  }
}
