/** A transcoding handle as the driver runs it: a few pending bytes each way between the text and the file. */
module FhTranscode {
  import opened Arith
  import opened Common
  import opened FhCodec
  import opened FhRoundTrip

  class Handle {
    var kind: nat
    var xin: nat
    var xinN: nat
    var xout: nat
    var xoutN: nat
    /** What was written to the file, and what is left of it to read. */
    var written: seq<Byte>
    var unread: seq<Byte>

    constructor (kind: nat, content: seq<Byte>)
      ensures this.kind == kind && xin == xinN == xoutN == 0 && written == [] && unread == content
      ensures Stream() == Decoded(kind, content)
    {
      this.kind := kind;
      xin, xinN, xout, xoutN := 0, 0, 0, 0;
      written, unread := [], content;
    }

    /** All the text the handle has still to give. */
    ghost function Stream(): seq<Byte>
      reads this
    {
      Unpack(xout, xoutN) + Decoded(kind, unread)
    }

    method WriteText(p: seq<Byte>)
      modifies this`xin, this`xinN, this`written
      ensures var (g, o) := Write(kind, old(Gather(xin, xinN)), p); Gather(xin, xinN) == g && written == old(written) + o
    {
      hide Write, Need, Or, Pow2, Lead, More, Put;
      ghost var g0, w0: seq<Byte>, o: seq<Byte> := Gather(xin, xinN), written, [];
      assert p[..0] == [];
      assert Write(kind, g0, []) == (g0, []) by { WriteNone(kind, g0); }
      var k := 0;
      while k < |p|
        invariant k <= |p|
        invariant Write(kind, g0, p[..k]) == (Gather(xin, xinN), o) && written == w0 + o
      {
        assert p[..k + 1] == p[..k] + [p[k]];
        WriteOneMore(kind, g0, p[..k], p[k]);
        ghost var g, w := Gather(xin, xinN), written;
        if kind == 0 {
          written := written + [p[k]];
        } else {
          var x := if xinN == 0 then 0 else xin;
          xin := Or(x, p[k] * Pow2(8 * xinN));
          xinN := xinN + 1;
          var need := Need(xin);
          if xinN >= need {
            var u := Lead(xin, need);
            for m := 1 to need
              invariant u == Gathered(xin, need, m)
            {
              u := More(u, xin, m);
            }
            xinN := 0;
            written := written + Put(kind, u);
          }
        }
        assert Gather(xin, xinN) == WriteOne(kind, g, p[k]).0 && written == w + WriteOne(kind, g, p[k]).1;
        assert w0 + (o + WriteOne(kind, g, p[k]).1) == (w0 + o) + WriteOne(kind, g, p[k]).1;
        o := o + WriteOne(kind, g, p[k]).1;
        k := k + 1;
      }
      assert p[..|p|] == p;
    }

    /** The next unit of the file; a broken one is used up. */
    method NextUnit() returns (u: Option<Code>)
      requires kind > 0
      modifies this`unread
      ensures u == UnitAt(kind, old(unread)) && unread == PastUnit(kind, old(unread))
    {
      hide Or, Pow2, Swapped;
      ghost var was := unread;
      var x := 0;
      var w := if kind == 5 then 1 else if kind <= 2 then 2 else 4;
      for m := 0 to w
        invariant m <= |was| && unread == was[m..] && x == Low(was, m)
      {
        if unread == [] { return None; }
        x := Or(x, unread[0] * Pow2(8 * m));
        unread := unread[1..];
      }
      return Some(Swapped(kind, x));
    }

    method NextCode() returns (u: Option<Code>)
      requires kind > 0
      modifies this`unread
      ensures (u, unread) == Get(kind, old(unread))
    {
      hide UnitAt, PastUnit;
      u := NextUnit();
      if u.None? { return; }
      if kind <= 2 && HighSurrogate(u.value) {
        var v := NextUnit();
        if v.Some? && LowSurrogate(v.value) { u := Some(0x1_0000 + (u.value - 0xD800) * 0x400 + (v.value - 0xDC00)); }
      }
    }

    /** Up to `n` of the pending bytes. */
    method TakePending(n: nat) returns (out: seq<Byte>)
      requires n > 0 && xoutN > 0
      modifies this`xout, this`xoutN
      ensures Unpack(old(xout), old(xoutN)) == out + Unpack(xout, xoutN) && 0 < |out| <= n
    {
      hide Unpack;
      out := [];
      ghost var all := Unpack(xout, xoutN);
      while xoutN > 0 && |out| < n
        invariant |out| <= n && all == out + Unpack(xout, xoutN) && (out == [] ==> xoutN > 0)
      {
        UnpackStep(xout, xoutN);
        assert out + ([xout % 0x100] + Unpack(xout / 0x100, xoutN - 1)) == (out + [xout % 0x100]) + Unpack(xout / 0x100, xoutN - 1);
        out := out + [xout % 0x100];
        xout := xout / 0x100;
        xoutN := xoutN - 1;
      }
    }

    /** Decode one more character; false at the end of the file. */
    method Refill() returns (more: bool)
      requires kind > 0 && xoutN == 0
      modifies this`xout, this`xoutN, this`unread
      ensures Stream() == old(Stream())
      ensures if more then |unread| < |old(unread)| else Stream() == []
    {
      hide Get, Pack, Decoded, Unpack;
      ghost var s := unread;
      UnpackNone(xout);
      DecodedIs(kind, s);
      assert [] + Decoded(kind, s) == Decoded(kind, s);
      var u := NextCode();
      if u.None? { DecodedEnd(kind, s, unread); return false; }
      GetShorter(kind, s);
      xout, xoutN := Pack(u.value).0, Pack(u.value).1;
      return true;
    }

    /** Untranslated bytes. */
    method TakeRaw(n: nat) returns (out: seq<Byte>)
      requires kind == 0 && xoutN == 0
      modifies this`unread
      ensures old(Stream()) == out + Stream() && |out| <= n && (|out| < n ==> Stream() == [])
    {
      hide Decoded, Unpack;
      UnpackNone(xout);
      DecodedIs(kind, unread);
      var m := if |unread| < n then |unread| else n;
      assert unread == unread[..m] + unread[m..];
      out := unread[..m];
      unread := unread[m..];
      DecodedIs(kind, unread);
      assert [] + unread == unread;
    }

    /** Reading into any buffer gives the next piece of one and the same stream, short only at its end. */
    method ReadText(n: nat) returns (buf: seq<Byte>)
      modifies this`xout, this`xoutN, this`unread
      ensures old(Stream()) == buf + Stream() && |buf| <= n
      ensures |buf| < n ==> Stream() == []
    {
      hide Decoded, Unpack;
      buf := [];
      ghost var all := Stream();
      while |buf| < n
        invariant |buf| <= n && all == buf + Stream()
        decreases n - |buf|, |unread|
      {
        if xoutN > 0 {
          ghost var rest := Decoded(kind, unread);
          var out := TakePending(n - |buf|);
          assert buf + ((out + Unpack(xout, xoutN)) + rest) == (buf + out) + (Unpack(xout, xoutN) + rest);
          buf := buf + out;
          continue;
        }
        if kind == 0 {
          var out := TakeRaw(n - |buf|);
          assert buf + (out + Stream()) == (buf + out) + Stream();
          buf := buf + out;
          return;
        }
        var more := Refill();
        if !more { return; }
      }
    }
  }

  // ---------------------------------------------------------------- written in chunks, read in pieces

  /** How many bytes buffers of these sizes hold. */
  function Capacity(ns: seq<nat>): nat { if ns == [] then 0 else Capacity(ns[..|ns| - 1]) + ns[|ns| - 1] }

  lemma CapacityNext(ns: seq<nat>, i: nat)
    requires i < |ns|
    ensures Capacity(ns[..i + 1]) == Capacity(ns[..i]) + ns[i]
  {
    assert ns[..i + 1][..i] == ns[..i];
  }

  /** Write a file chunk by chunk. */
  method WriteAll(k: nat, chunks: seq<seq<Byte>>) returns (content: seq<Byte>)
    ensures content == Write(k, Gather(0, 0), Joint(chunks)).1
  {
    hide Write;
    var h := new Handle(k, []);
    WriteNone(k, Gather(0, 0));
    assert chunks[..0] == [] && Joint([]) == [];
    for i := 0 to |chunks|
      invariant h.kind == k && (Gather(h.xin, h.xinN), h.written) == Write(k, Gather(0, 0), Joint(chunks[..i]))
    {
      assert chunks[..i + 1][..i] == chunks[..i];
      WriteChunks(k, Gather(0, 0), Joint(chunks[..i]), chunks[i]);
      h.WriteText(chunks[i]);
    }
    assert chunks[..|chunks|] == chunks;
    return h.written;
  }

  /** Read a file into one buffer after another. */
  method ReadAll(k: nat, content: seq<Byte>, sizes: seq<nat>) returns (text: seq<Byte>)
    ensures |text| == (if Capacity(sizes) < |Decoded(k, content)| then Capacity(sizes) else |Decoded(k, content)|)
    ensures text == Decoded(k, content)[..|text|]
  {
    hide Decoded;
    var h := new Handle(k, content);
    text := [];
    assert sizes[..0] == [] && [] + h.Stream() == h.Stream();
    for i := 0 to |sizes|
      invariant Decoded(k, content) == text + h.Stream()
      invariant |text| <= Capacity(sizes[..i]) && (|text| < Capacity(sizes[..i]) ==> h.Stream() == [])
    {
      CapacityNext(sizes, i);
      ghost var t := text;
      var buf := h.ReadText(sizes[i]);
      assert t + (buf + h.Stream()) == (t + buf) + h.Stream();
      text := text + buf;
    }
    assert sizes[..|sizes|] == sizes;
  }

  /** A text written in any chunks, even cut inside a character, and read back into buffers of any sizes, comes
      back in order as far as they hold: all of it as it was, unless Latin-1 has no byte for a character. */
  method WriteThenRead(k: nat, chunks: seq<seq<Byte>>, sizes: seq<nat>, ghost us: seq<Code>) returns (text: seq<Byte>)
    requires k <= 5 && Scalars(us) && Joint(chunks) == Text(us)
    ensures |text| == (if Capacity(sizes) < |RoundTrip(k, us)| then Capacity(sizes) else |RoundTrip(k, us)|)
    ensures text == RoundTrip(k, us)[..|text|]
    ensures Capacity(sizes) >= |RoundTrip(k, us)| ==> (text == Text(us) <==> k <= 4 || forall i | 0 <= i < |us| :: us[i] < 0x100)
  {
    var content := WriteAll(k, chunks);
    text := ReadAll(k, content, sizes);
    if k == 0 { RawSame(Gather(0, 0), Text(us)); } else { RoundTripExact(k, us); }
  }

  lemma {:induction false} RawSame(g: Gather, p: seq<Byte>)
    ensures Write(0, g, p) == (g, p) && Decoded(0, p) == p
    decreases |p|
  {
    if p != [] {
      RawSame(g, p[1..]);
      assert [p[0]] + p[1..] == p;
    }
  }

  lemma WriteNone(k: nat, g: Gather)
    ensures Write(k, g, []) == (g, [])
  {
  }

  lemma UnpackNone(x: nat)
    ensures Unpack(x, 0) == []
  {
  }

  lemma UnpackStep(x: nat, n: nat)
    requires n > 0
    ensures Unpack(x, n) == [x % 0x100] + Unpack(x / 0x100, n - 1)
  {
  }

  lemma DecodedIs(k: nat, s: seq<Byte>)
    ensures k == 0 ==> Decoded(k, s) == s
    ensures k > 0 ==> Decoded(k, s) == var (u, t) := Get(k, s); if u.None? then [] else Unpack(Pack(u.value).0, Pack(u.value).1) + Decoded(k, t)
  {
    hide Get, Pack, Unpack;
  }

  lemma GetShorter(k: nat, s: seq<Byte>)
    ensures Get(k, s).0.Some? ==> |Get(k, s).1| < |s|
  {
  }

  /** At its end a file gives nothing more. */
  lemma DecodedEnd(k: nat, s: seq<Byte>, t: seq<Byte>)
    requires k > 0 && Get(k, s) == (None, t)
    ensures t == [] && Decoded(k, t) == [] && Decoded(k, s) == []
  {
    hide Pack, Unpack, Swapped, Low;
  }
}
