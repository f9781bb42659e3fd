/** The string writer and reader as the kernel runs them, over a growing buffer and a moving position. */
module JsonText {
  import opened Common
  import opened FhCodec
  import opened JsonString

  method MeasureChar(s: seq<Byte>, at: nat) returns (k: nat)
    requires at < |s|
    ensures k == CharLength(s[at..])
  {
    ghost var t := s[at..];
    k := LeadLength(s[at]);
    if k == 0 || k > |s| - at { return 0; }
    for i := 1 to k
      invariant forall j | 1 <= j < i :: Continuation(t[j])
    {
      assert t[i] == s[at + i];
      if !Continuation(s[at + i]) { return 0; }
    }
  }

  /** Append the written form of a string to the buffer. */
  method PutString(b: seq<Byte>, s: seq<Byte>) returns (r: seq<Byte>)
    ensures r == b + WriteString(s)
  {
    hide CharLength, Escape, WriteBody;
    r := b + [34];
    var i := 0;
    WriteBodyEnds(s);
    assert r + WriteBody(s[0..]) == b + ([34] + WriteBody(s));
    while i < |s|
      invariant i <= |s| && r + WriteBody(s[i..]) == b + ([34] + WriteBody(s))
    {
      ghost var t, was := s[i..], r;
      var c := s[i];
      var k := 1;
      if c == 34 || c == 92 { r := r + [92, c]; }
      else if c == 10 { r := r + [92, 110]; }
      else if c == 9 { r := r + [92, 116]; }
      else if c == 13 { r := r + [92, 114]; }
      else if c < 0x20 { r := r + Escape(c); }
      else if c < 0x80 { r := r + [c]; }
      else {
        k := MeasureChar(s, i);
        if k > 0 { r := r + s[i..i + k]; assert s[i..i + k] == t[..k]; } else { r := r + Escape(0xFFFD); k := 1; }
      }
      assert r == was + Written(t) && k == Unit(t);
      i := i + k;
      WriteBodyNext(t);
      assert t[k..] == s[i..];
      assert was + (Written(t) + WriteBody(t[k..])) == r + WriteBody(s[i..]);
    }
    assert s[|s|..] == [] && r + [] == r;
    r := r + [34];
  }

  lemma WriteBodyEnds(s: seq<Byte>)
    ensures WriteBody([]) == [] && s[0..] == s
  {
  }

  lemma WriteBodyNext(t: seq<Byte>)
    requires t != []
    ensures WriteBody(t) == Written(t) + WriteBody(t[Unit(t)..])
  {
  }

  /** The value of the four hex digits at `p`. */
  method ParseHex4(t: seq<Byte>, p: nat) returns (r: Option<nat>)
    requires p <= |t|
    ensures r == Hex4(t[p..])
  {
    if |t| - p < 4 { return None; }
    hide HexValue;
    var u := t[p..];
    var cp := 0;
    var a, b, c, d := HexValue(t[p]), HexValue(t[p + 1]), HexValue(t[p + 2]), HexValue(t[p + 3]);
    assert u[0] == t[p] && u[1] == t[p + 1] && u[2] == t[p + 2] && u[3] == t[p + 3];
    for i := 0 to 4
      invariant i >= 1 ==> a.Some? && (i == 1 ==> cp == a.value)
      invariant i >= 2 ==> b.Some? && (i == 2 ==> cp == a.value * 16 + b.value)
      invariant i >= 3 ==> c.Some? && (i == 3 ==> cp == (a.value * 16 + b.value) * 16 + c.value)
      invariant i >= 4 ==> d.Some? && cp == ((a.value * 16 + b.value) * 16 + c.value) * 16 + d.value
      invariant i == 0 ==> cp == 0
    {
      var h := HexValue(t[p + i]);
      if h.None? { return None; }
      cp := cp * 16 + h.value;
    }
    return Some(cp);
  }

  /** One escape behind the backslash at `p - 1`: its bytes, and where it ends. */
  method ParseEscape(t: seq<Byte>, p: nat) returns (r: Option<(seq<Byte>, nat)>)
    requires 1 <= p <= |t| && t[p - 1] == 92
    ensures r == (var one := ReadOne(t[p - 1..]); if one.None? then None else Some((one.value.0, p - 1 + one.value.1)))
  {
    hide Utf8, Hex4;
    ghost var u := t[p - 1..];
    if p >= |t| { return None; }
    var c := t[p];
    assert u[0] == 92 && u[1] == c && u[2..] == t[p + 1..];
    if c == 110 { return Some(([10], p + 1)); }
    if c == 116 { return Some(([9], p + 1)); }
    if c == 114 { return Some(([13], p + 1)); }
    if c == 98 { return Some(([8], p + 1)); }
    if c == 102 { return Some(([12], p + 1)); }
    if c != 117 { return Some(([c], p + 1)); }
    ghost var v := t[p + 1..];
    var cp := ParseHex4(t, p + 1);
    if cp.None? { return None; }
    var q := p + 5;
    HexRoom(v);
    if 0xD800 <= cp.value < 0xDC00 && |t| - q >= 6 && t[q] == 92 && t[q + 1] == 117 {
      assert v[4] == t[q] && v[5] == t[q + 1] && v[6..] == t[q + 2..];
      var lo := ParseHex4(t, q + 2);
      if lo.Some? { return Some((Utf8(0x1_0000 + (cp.value - 0xD800) * 0x400 + lo.value - 0xDC00), q + 6)); }
    } else {
      assert |v| >= 10 ==> v[4] == t[q] && v[5] == t[q + 1];
    }
    return Some((Utf8(cp.value), q));
  }

  lemma HexRoom(v: seq<Byte>)
    ensures Hex4(v).Some? ==> |v| >= 4
  {
  }

  /** Read the string whose opening quote stands at `p`: its bytes, and where the text goes on. */
  method ParseString(t: seq<Byte>, start: nat) returns (r: Option<(seq<Byte>, nat)>)
    requires start < |t|
    ensures match ReadString(t[start..])
            case None => r == None
            case Some(o) => r.Some? && r.value.0 == o.0 && start < r.value.1 <= |t| && o.1 == t[r.value.1..]
  {
    hide ReadBody, ReadOne;
    var p := start + 1;
    var b: seq<Byte> := [];
    ghost var all := ReadBody(t[p..]);
    assert t[start..][1..] == t[p..];
    assert all.Some? ==> [] + all.value.0 == all.value.0;
    while p < |t| && t[p] != 34
      invariant start < p <= |t|
      invariant all == Behind(b, ReadBody(t[p..]))
    {
      ghost var u, was := t[p..], b;
      ReadBodyNext(u);
      assert u[0] == t[p];
      if t[p] != 92 {
        ReadOnePlain(u);
        b := b + [t[p]];
        p := p + 1;
        assert u[1..] == t[p..];
        BehindMore(was, [u[0]], ReadBody(t[p..]));
      } else {
        var e := ParseEscape(t, p + 1);
        if e.None? { return None; }
        b := b + e.value.0;
        p := e.value.1;
        assert u[ReadOne(u).value.1..] == t[p..];
        BehindMore(was, e.value.0, ReadBody(t[p..]));
      }
    }
    ReadBodyStops(t[p..]);
    if p >= |t| { return None; }
    assert t[p..][0] == t[p] && t[p..][1..] == t[p + 1..];
    assert b + [] == b;
    return Some((b, p + 1));
  }

  /** What was read before `r`. */
  ghost function Behind(b: seq<Byte>, r: Option<(seq<Byte>, seq<Byte>)>): Option<(seq<Byte>, seq<Byte>)> {
    if r.None? then None else Some((b + r.value.0, r.value.1))
  }

  lemma BehindMore(a: seq<Byte>, b: seq<Byte>, r: Option<(seq<Byte>, seq<Byte>)>)
    ensures Behind(a + b, r) == Behind(a, Behind(b, r))
  {
    if r.Some? { assert (a + b) + r.value.0 == a + (b + r.value.0); }
  }

  lemma ReadBodyNext(u: seq<Byte>)
    requires u != [] && u[0] != 34
    ensures ReadBody(u) == if ReadOne(u).None? then None else Behind(ReadOne(u).value.0, ReadBody(u[ReadOne(u).value.1..]))
  {
    hide ReadOne;
  }

  lemma ReadOnePlain(u: seq<Byte>)
    requires u != [] && u[0] != 92
    ensures ReadOne(u) == Some(([u[0]], 1))
  {
  }

  lemma ReadBodyStops(u: seq<Byte>)
    ensures u == [] ==> ReadBody(u) == None
    ensures u != [] && u[0] == 34 ==> ReadBody(u) == Some(([], u[1..]))
  {
  }
}
