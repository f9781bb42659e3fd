/** Escapes of messages one by one, and what is written without any. */
module JsonEscapes {
  import opened Arith
  import opened Common
  import opened FhCodec
  import opened FhRoundTrip
  import opened JsonString

  /** The two-character escapes (RFC 8259, section 7): what stands behind the backslash, and the byte it means. */
  const SHORT: map<Byte, Byte> := map['"' as Byte := 34, '\\' as Byte := 92, '/' as Byte := 47, 'b' as Byte := 8,
                                      'f' as Byte := 12, 'n' as Byte := 10, 'r' as Byte := 13, 't' as Byte := 9]

  /** Each is read as its byte; any other character but u behind a backslash is read as itself. */
  lemma ShortRead(c: Byte, t: seq<Byte>)
    ensures c in SHORT ==> ReadOne([92, c] + t) == Some(([SHORT[c]], 2))
    ensures c !in SHORT && c != 'u' as Byte ==> ReadOne([92, c] + t) == Some(([c], 2))
  {
    var u := [92, c] + t;
    assert u[0] == 92 && u[1] == c;
    hide EscapedCode, Utf8;
  }

  /** A quote, a backslash, and the three control characters that have a letter of their own are written short. */
  lemma ShortWritten(c: Byte, t: seq<Byte>)
    requires c in {34, 92, 10, 13, 9}
    ensures exists e: Byte :: e in SHORT && SHORT[e] == c && Written([c] + t) == [92, e]
  {
    var s := [c] + t;
    assert s[0] == c;
    var e: Byte := if c == 10 then 'n' as Byte else if c == 13 then 'r' as Byte else if c == 9 then 't' as Byte else c;
    assert e in SHORT && SHORT[e] == c && Written(s) == [92, e];
  }

  const HEX: string := "0123456789abcdef"
  const UPPER: string := "0123456789ABCDEF"

  /** Hex digits are written in lower case and read in either. */
  lemma HexDigits(d: nat)
    requires d < 16
    ensures HexDigit(d) == HEX[d] as Byte && HexValue(HEX[d] as Byte) == Some(d) && HexValue(UPPER[d] as Byte) == Some(d)
  {
    assert HEX[d] == "0123456789abcdef"[d] && UPPER[d] == "0123456789ABCDEF"[d];
  }

  /** Any other control character is written as `\\u00` and its two hex digits. */
  lemma ControlWritten(c: Byte, t: seq<Byte>)
    requires c < 0x20 && c !in {10, 13, 9}
    ensures Written([c] + t) == [92, 'u' as Byte, '0' as Byte, '0' as Byte, HEX[c / 16] as Byte, HEX[c % 16] as Byte]
  {
    assert ([c] + t)[0] == c;
    HexDigits(0);
    HexDigits(c / 16);
    HexDigits(c % 16);
    assert c / 0x1000 == 0 && c / 0x100 % 16 == 0 && c / 0x10 % 16 == c / 16;
    hide HexDigit, CharLength;
  }

  // ---------------------------------------------------------------- text of characters

  lemma LeadOf(x: nat)
    ensures x < 0x20 ==> LeadLength(0xC0 + x) == 2
    ensures x < 0x10 ==> LeadLength(0xE0 + x) == 3
    ensures x < 8 ==> LeadLength(0xF0 + x) == 4
    ensures x < 0x40 ==> Continuation(0x80 + x)
  {
    if x < 0x20 { Div(0xC0 + x, 0x20, 6, x); }
    if x < 0x10 { Div(0xE0 + x, 0x10, 14, x); Div(0xE0 + x, 0x20, 7, x); }
    if x < 8 { Div(0xF0 + x, 8, 30, x); Div(0xF0 + x, 0x10, 15, x); Div(0xF0 + x, 0x20, 7, 0x10 + x); }
    if x < 0x40 { Div(0x80 + x, 0x40, 2, x); }
  }

  lemma LengthIs(s: seq<Byte>, k: nat)
    requires 0 < k <= |s| && LeadLength(s[0]) == k && forall i | 1 <= i < k :: Continuation(s[i])
    ensures CharLength(s) == k
  {
  }

  /** The UTF-8 form of a character is one character, whatever follows. */
  lemma CharOf(u: Code, t: seq<Byte>)
    requires u < 0x20_0000
    ensures CharLength(Utf8(u) + t) == |Utf8(u)| && Unit(Utf8(u) + t) == |Utf8(u)|
  {
    var s := Utf8(u) + t;
    var v, x, r, q := Utf8Groups(u);
    LeadOf(v);
    LeadOf(x);
    LeadOf(r);
    LeadOf(q);
    hide LeadLength, Continuation, CharLength;
    if u < 0x80 {
      AsciiLength(u);
      LengthIs(s, 1);
    } else if u < 0x800 {
      assert s[0] == 0xC0 + r && s[1] == 0x80 + q;
      LengthIs(s, 2);
    } else if u < 0x1_0000 {
      assert s[0] == 0xE0 + x && s[1] == 0x80 + r && s[2] == 0x80 + q;
      LengthIs(s, 3);
    } else {
      assert s[0] == 0xF0 + v && s[1] == 0x80 + x && s[2] == 0x80 + r && s[3] == 0x80 + q;
      LengthIs(s, 4);
    }
  }

  lemma AsciiLength(u: Byte)
    requires u < 0x80
    ensures LeadLength(u) == 1 && Utf8(u) == [u]
  {
  }

  /** A text of characters is well formed, so it is written and read back as it is. */
  lemma {:induction false} TextKept(us: seq<Code>)
    requires Small(us)
    ensures WellFormed(Text(us)) && Sanitized(Text(us)) == Text(us)
    decreases |us|
  {
    hide Utf8, CharLength, Sanitized;
    if us != [] {
      CharOf(us[0], Text(us[1..]));
      TextKept(us[1..]);
      assert Text(us)[|Utf8(us[0])|..] == Text(us[1..]);
    }
    SanitizedSame(Text(us));
  }
}
