/** Where a file handle stands: characters, lines and column, counted fast and cached. */
module FhPosition {
  import opened Arith
  import opened Common
  import opened FhCodec

  datatype Pos = Pos(chars: nat, lines: nat, column: nat)

  const ORIGIN := Pos(0, 0, 0)

  /** One byte, counted plainly. */
  function ByteStep(p: Pos, b: Byte): Pos {
    if b == 10 then Pos(p.chars + 1, p.lines + 1, 0) else Pos(p.chars + 1, p.lines, p.column + 1)
  }

  /** One byte of text shown on a terminal: return, backspace and tab move the column. */
  function ScreenStep(p: Pos, b: Byte): Pos {
    if Continuation(b) then p
    else if b == 10 then Pos(p.chars + 1, p.lines + 1, 0)
    else Pos(p.chars + 1, p.lines,
             if b == 13 then 0
             else if b == 8 then (if p.column > 0 then p.column - 1 else 0)
             else if b == 9 then p.column / 8 * 8 + 8
             else p.column + 1)
  }

  /** One byte of a file read back: only newlines move the column back. */
  function FileStep(p: Pos, b: Byte): Pos { if Continuation(b) then p else ByteStep(p, b) }

  /** The three ways of counting. */
  datatype Way = Plain | Screen | OnFile

  function Step(way: Way, p: Pos, b: Byte): Pos {
    match way
    case Plain => ByteStep(p, b)
    case Screen => ScreenStep(p, b)
    case OnFile => FileStep(p, b)
  }

  /** Counting one byte after another. */
  function Fold(way: Way, p: Pos, s: seq<Byte>): Pos {
    if s == [] then p else Step(way, Fold(way, p, s[..|s| - 1]), s[|s| - 1])
  }

  /** Counting a text in pieces gives what counting it whole gives. */
  lemma {:induction false} FoldComposes(way: Way, p: Pos, s: seq<Byte>, t: seq<Byte>)
    ensures Fold(way, p, s + t) == Fold(way, Fold(way, p, s), t)
  {
    if t == [] {
      assert s + t == s;
    } else {
      assert (s + t)[..|s + t| - 1] == s + t[..|t| - 1];
      FoldComposes(way, p, s, t[..|t| - 1]);
    }
  }

  // ---------------------------------------------------------------- what the fast form relies on

  function Newlines(s: seq<Byte>): nat { if s == [] then 0 else Newlines(s[..|s| - 1]) + if s[|s| - 1] == 10 then 1 else 0 }

  function Conts(s: seq<Byte>): (n: nat)
    ensures n <= |s|
  {
    if s == [] then 0 else Conts(s[..|s| - 1]) + if Continuation(s[|s| - 1]) then 1 else 0
  }

  lemma {:induction false} CountsAdd(s: seq<Byte>, t: seq<Byte>)
    ensures Newlines(s + t) == Newlines(s) + Newlines(t) && Conts(s + t) == Conts(s) + Conts(t)
  {
    if t == [] {
      assert s + t == s;
    } else {
      assert (s + t)[..|s + t| - 1] == s + t[..|t| - 1];
      CountsAdd(s, t[..|t| - 1]);
    }
  }

  lemma {:induction false} NoNewlines(s: seq<Byte>)
    ensures Newlines(s) == 0 <==> forall i | 0 <= i < |s| :: s[i] != 10
  {
    if s != [] { NoNewlines(s[..|s| - 1]); }
  }

  /** Characters are the bytes that continue none. */
  lemma {:induction false} ScreenCounts(p: Pos, s: seq<Byte>)
    ensures Fold(Screen, p, s).chars == p.chars + |s| - Conts(s)
    ensures Fold(Screen, p, s).lines == p.lines + Newlines(s)
    ensures Fold(OnFile, p, s).chars == p.chars + |s| - Conts(s)
    ensures Fold(OnFile, p, s).lines == p.lines + Newlines(s)
  {
    if s != [] { ScreenCounts(p, s[..|s| - 1]); }
  }

  lemma {:induction false} ByteCounts(p: Pos, s: seq<Byte>)
    ensures Fold(Plain, p, s).chars == p.chars + |s| && Fold(Plain, p, s).lines == p.lines + Newlines(s)
    ensures Newlines(s) == 0 ==> Fold(Plain, p, s).column == p.column + |s|
  {
    if s != [] { ByteCounts(p, s[..|s| - 1]); }
  }

  /** Only what follows a newline comes after it. */
  lemma AfterNewline(way: Way, p: Pos, s: seq<Byte>, i: nat)
    requires i < |s| && s[i] == 10
    ensures Fold(way, p, s) == Fold(way, Step(way, Fold(way, p, s[..i]), 10), s[i + 1..])
  {
    var head := s[..i + 1];
    assert s == head + s[i + 1..];
    FoldComposes(way, p, head, s[i + 1..]);
    assert head[..|head| - 1] == s[..i];
  }

  /** Columns do not depend on the other counts. */
  lemma {:induction false} ColumnOnly(p: Pos, q: Pos, s: seq<Byte>)
    requires p.column == q.column
    ensures Fold(Screen, p, s).column == Fold(Screen, q, s).column
    ensures Fold(Plain, p, s).column == Fold(Plain, q, s).column
  {
    if s != [] { ColumnOnly(p, q, s[..|s| - 1]); }
  }

  /** Behind byte `e` there is no newline, and one just before it unless `e` is 0. */
  ghost predicate LastLine(s: seq<Byte>, e: nat) {
    e <= |s| && (e > 0 ==> s[e - 1] == 10) && forall j | e <= j < |s| :: s[j] != 10
  }

  lemma ByteColumnAt(p: Pos, s: seq<Byte>, e: nat)
    requires 0 < e <= |s| && s[e - 1] == 10 && Newlines(s[e..]) == 0
    ensures Fold(Plain, p, s).column == |s| - e
  {
    var q := Step(Plain, Fold(Plain, p, s[..e - 1]), 10);
    assert q.column == 0;
    hide *;
    AfterNewline(Plain, p, s, e - 1);
    ByteCounts(q, s[e..]);
  }

  lemma ScreenColumnAt(p: Pos, s: seq<Byte>, e: nat)
    requires 0 < e <= |s| && s[e - 1] == 10
    ensures Fold(Screen, p, s).column == Fold(Screen, p.(column := 0), s[e..]).column
  {
    var q := Step(Screen, Fold(Screen, p, s[..e - 1]), 10);
    assert q.column == 0;
    hide *;
    AfterNewline(Screen, p, s, e - 1);
    ColumnOnly(q, p.(column := 0), s[e..]);
  }

  lemma TailPlain(s: seq<Byte>, e: nat)
    requires LastLine(s, e)
    ensures e <= |s| && (e > 0 ==> s[e - 1] == 10) && Newlines(s[e..]) == 0 && s[0..] == s
  {
    NoNewlines(s[e..]);
    hide Newlines;
  }

  lemma ByteColumn(p: Pos, s: seq<Byte>, e: nat)
    requires LastLine(s, e)
    ensures e <= |s| && Fold(Plain, p, s).column == if e > 0 then |s| - e else p.column + |s|
  {
    hide *;
    TailPlain(s, e);
    if e > 0 { ByteColumnAt(p, s, e); } else { ByteCounts(p, s); }
  }

  lemma ScreenColumn(p: Pos, s: seq<Byte>, e: nat)
    requires LastLine(s, e)
    ensures e <= |s| && Fold(Screen, p, s).column == Fold(Screen, if e > 0 then p.(column := 0) else p, s[e..]).column
  {
    hide *;
    TailPlain(s, e);
    if e > 0 { ScreenColumnAt(p, s, e); }
  }

  // ---------------------------------------------------------------- words

  /** A 64-bit word is its eight bytes. */
  type Word = w: seq<Byte> | |w| == 8 witness [0, 0, 0, 0, 0, 0, 0, 0]

  lemma {:induction false} OrHigh(a: nat, b: nat, k: nat)
    requires a < 2 * Pow2(k) && b < 2 * Pow2(k)
    ensures Or(a, b) < 2 * Pow2(k) && (Or(a, b) >= Pow2(k) <==> a >= Pow2(k) || b >= Pow2(k))
  {
    if k > 0 {
      OrHigh(a / 2, b / 2, k - 1);
    } else {
      assert Or(1, b) == 1 && Or(0, b) == b;
    }
  }

  function OrByte(a: Byte, b: Byte): (r: Byte)
    ensures r >= 0x80 <==> a >= 0x80 || b >= 0x80
  {
    PowersAre();
    OrHigh(a, b, 7);
    Or(a, b)
  }

  function OrWord(x: Word, y: Word): (r: Word)
    ensures forall i | 0 <= i < 8 :: r[i] >= 0x80 <==> x[i] >= 0x80 || y[i] >= 0x80
  {
    seq(8, i requires 0 <= i < 8 => OrByte(x[i], y[i]))
  }

  /** A single byte in the low lane. */
  function Widened(b: Byte): (r: Word)
    ensures forall i | 0 <= i < 8 :: r[i] >= 0x80 <==> i == 0 && b >= 0x80
  {
    [b, 0, 0, 0, 0, 0, 0, 0]
  }

  /** Has any lane its top bit set? */
  predicate AnyHigh(x: Word) { exists i :: 0 <= i < 8 && x[i] >= 0x80 }

  lemma {:induction false} PlainBytes(s: seq<Byte>)
    ensures (forall i | 0 <= i < |s| :: s[i] < 0x80) ==> Conts(s) == 0
  {
    if s != [] { PlainBytes(s[..|s| - 1]); }
  }

  // ---------------------------------------------------------------- the code

  class Place {
    var at: Pos

    constructor ()
      ensures at == ORIGIN
    {
      at := ORIGIN;
    }
  }

  /** Count the newlines and find where the last line starts. */
  method FindNewlines(p: seq<Byte>) returns (nl: nat, last: nat)
    ensures nl == Newlines(p) && LastLine(p, last)
  {
    nl, last := 0, 0;
    var q := 0;
    while q < |p|
      invariant q <= |p| && nl == Newlines(p[..q]) && last <= q && (last > 0 ==> p[last - 1] == 10)
      invariant forall j | last <= j < q :: p[j] != 10
    {
      assert p[..q + 1][..q] == p[..q];
      if p[q] == 10 { nl, last := nl + 1, q + 1; }
      q := q + 1;
    }
    assert p[..|p|] == p;
  }

  /** Is some byte past ASCII? Thirty-two at a time, then eight, then one. */
  method AnyHighByte(p: seq<Byte>) returns (high: bool)
    ensures high <==> exists i :: 0 <= i < |p| && p[i] >= 0x80
  {
    hide OrByte, OrWord, Or;
    var hi: Word := [0, 0, 0, 0, 0, 0, 0, 0];
    var k := 0;
    while k + 32 <= |p|
      invariant k <= |p| && (AnyHigh(hi) <==> exists i :: 0 <= i < k && p[i] >= 0x80)
    {
      var next := OrWord(hi, OrWord(OrWord(p[k..k + 8], p[k + 8..k + 16]), OrWord(p[k + 16..k + 24], p[k + 24..k + 32])));
      WordsHigh(hi, next, p, k);
      hi := next;
      k := k + 32;
    }
    while k + 8 <= |p|
      invariant k <= |p| && (AnyHigh(hi) <==> exists i :: 0 <= i < k && p[i] >= 0x80)
    {
      var next := OrWord(hi, p[k..k + 8]);
      WordHigh(hi, next, p, k);
      hi := next;
      k := k + 8;
    }
    while k < |p|
      invariant k <= |p| && (AnyHigh(hi) <==> exists i :: 0 <= i < k && p[i] >= 0x80)
    {
      var next := OrWord(hi, Widened(p[k]));
      ByteHigh(hi, next, p, k);
      hi := next;
      k := k + 1;
    }
    return AnyHigh(hi);
  }

  lemma WordHigh(x: Word, y: Word, p: seq<Byte>, k: nat)
    requires k + 8 <= |p| && forall i | 0 <= i < 8 :: y[i] >= 0x80 <==> x[i] >= 0x80 || p[k..k + 8][i] >= 0x80
    requires AnyHigh(x) <==> exists i :: 0 <= i < k && p[i] >= 0x80
    ensures AnyHigh(y) <==> exists i :: 0 <= i < k + 8 && p[i] >= 0x80
  {
    var w := p[k..k + 8];
    assert forall i | 0 <= i < 8 :: w[i] == p[k + i];
    if i: int :| 0 <= i < k + 8 && p[i] >= 0x80 {
      if i >= k { assert w[i - k] >= 0x80 && y[i - k] >= 0x80; }
      if i < k { var l :| 0 <= l < 8 && x[l] >= 0x80; assert y[l] >= 0x80; }
    }
    if AnyHigh(y) {
      var l :| 0 <= l < 8 && y[l] >= 0x80;
      assert x[l] >= 0x80 || p[k + l] >= 0x80;
    }
  }

  lemma WordsHigh(x: Word, y: Word, p: seq<Byte>, k: nat)
    requires k + 32 <= |p| && y == OrWord(x, OrWord(OrWord(p[k..k + 8], p[k + 8..k + 16]), OrWord(p[k + 16..k + 24], p[k + 24..k + 32])))
    requires AnyHigh(x) <==> exists i :: 0 <= i < k && p[i] >= 0x80
    ensures AnyHigh(y) <==> exists i :: 0 <= i < k + 32 && p[i] >= 0x80
  {
    hide OrByte, OrWord, Or, AnyHigh;
    var a := OrWord(x, p[k..k + 8]);
    var b := OrWord(a, p[k + 8..k + 16]);
    var c := OrWord(b, p[k + 16..k + 24]);
    var d := OrWord(c, p[k + 24..k + 32]);
    WordHigh(x, a, p, k);
    WordHigh(a, b, p, k + 8);
    WordHigh(b, c, p, k + 16);
    WordHigh(c, d, p, k + 24);
    SameHigh(d, y);
  }

  lemma SameHigh(x: Word, y: Word)
    requires forall i | 0 <= i < 8 :: x[i] >= 0x80 <==> y[i] >= 0x80
    ensures AnyHigh(x) <==> AnyHigh(y)
  {
  }

  lemma ByteHigh(x: Word, y: Word, p: seq<Byte>, k: nat)
    requires k < |p| && forall i | 0 <= i < 8 :: y[i] >= 0x80 <==> x[i] >= 0x80 || (i == 0 && p[k] >= 0x80)
    requires AnyHigh(x) <==> exists i :: 0 <= i < k && p[i] >= 0x80
    ensures AnyHigh(y) <==> exists i :: 0 <= i < k + 1 && p[i] >= 0x80
  {
    if i: nat :| i < k + 1 && p[i] >= 0x80 {
      if i < k { var l :| 0 <= l < 8 && x[l] >= 0x80; assert y[l] >= 0x80; } else { assert y[0] >= 0x80; }
    }
    if AnyHigh(y) {
      var l :| 0 <= l < 8 && y[l] >= 0x80;
      assert x[l] >= 0x80 || p[k] >= 0x80;
    }
  }

  method CountConts(p: seq<Byte>) returns (cont: nat)
    ensures cont == Conts(p)
  {
    cont := 0;
    for k := 0 to |p|
      invariant cont == Conts(p[..k])
    {
      assert p[..k + 1][..k] == p[..k];
      if Continuation(p[k]) { cont := cont + 1; }
    }
    assert p[..|p|] == p;
  }

  /** The column after the part of `p` from byte `start` on, which has no newline. */
  method ScreenColumnFrom(p: seq<Byte>, start: nat, column0: nat, ghost from: Pos) returns (column: nat)
    requires start <= |p| && from.column == column0 && forall j | start <= j < |p| :: p[j] != 10
    ensures column == Fold(Screen, from, p[start..]).column
  {
    hide Fold;
    ghost var tail := p[start..];
    column := column0;
    var q := start;
    FoldNone(Screen, from);
    assert tail[..0] == [];
    while q < |p|
      invariant start <= q <= |p| && column == Fold(Screen, from, tail[..q - start]).column
    {
      FoldNext(Screen, from, tail, q - start);
      var c := p[q];
      assert tail[q - start] == c && c != 10;
      if !Continuation(c) {
        if c == 13 { column := 0; }
        else if c == 8 { if column > 0 { column := column - 1; } }
        else if c == 9 { column := column / 8 * 8 + 8; }
        else { column := column + 1; }
      }
      q := q + 1;
    }
    assert tail[..|tail|] == tail;
  }

  /** Count a piece of text into either place, or both: what counting it byte by byte gives. */
  method FoldText(gs: Place?, ws: Place?, p: seq<Byte>)
    requires gs != null ==> gs != ws
    modifies gs, ws
    ensures gs != null ==> gs.at == Fold(Plain, old(gs.at), p)
    ensures ws != null ==> ws.at == Fold(Screen, old(ws.at), p)
  {
    hide Fold, Newlines, Conts;
    var nl, last := FindNewlines(p);
    TailPlain(p, last);
    if gs != null {
      ByteCounts(gs.at, p);
      ByteColumn(gs.at, p, last);
      gs.at := Pos(gs.at.chars + |p|, gs.at.lines + nl, if last > 0 then |p| - last else gs.at.column + |p|);
    }
    if ws == null { return; }
    var was := ws.at;
    var cont := 0;
    var high := AnyHighByte(p);
    PlainBytes(p);
    if high { cont := CountConts(p); }
    ScreenCounts(was, p);
    ScreenColumn(was, p, last);
    var from := if last > 0 then was.(column := 0) else was;
    var column := ScreenColumnFrom(p, last, from.column, from);
    ws.at := Pos(was.chars + (|p| - cont), was.lines + nl, column);
  }

  lemma FoldNone(way: Way, p: Pos)
    ensures Fold(way, p, []) == p
  {
  }

  lemma FoldNext(way: Way, p: Pos, s: seq<Byte>, k: nat)
    requires k < |s|
    ensures Fold(way, p, s[..k + 1]) == Step(way, Fold(way, p, s[..k]), s[k])
  {
    assert s[..k + 1][..k] == s[..k];
  }

  // ---------------------------------------------------------------- cached positions

  /** The cache of a handle on a file: the position counted up to byte `off`. */
  class FileCursor {
    var off: nat
    var at: Pos

    constructor ()
      ensures off == 0 && at == ORIGIN
    {
      off, at := 0, ORIGIN;
    }

    ghost predicate Counts(content: seq<Byte>)
      reads this
    {
      off <= |content| && at == Fold(OnFile, ORIGIN, content[..off])
    }

    /** Count on to byte `goal`, back or forward. `sizes` is what the system brings at each read, if the file has it:
        fewer bytes than asked for, or none, and then the counting stops. */
    method ScanTo(content: seq<Byte>, goal: nat, sizes: seq<int>) returns (ok: bool)
      requires Counts(content)
      modifies this
      ensures Counts(content) && (ok ==> off == goal && goal <= |content| && at == Fold(OnFile, ORIGIN, content[..goal]))
      ensures ok <==> Arrives(if goal < old(off) then 0 else old(off), goal, |content|, sizes)
    {
      hide Fold, Brought;
      FoldNone(OnFile, ORIGIN);
      if goal < off { off, at := 0, ORIGIN; assert content[..0] == []; }
      var r := 0;
      ghost var start := off;
      assert sizes[0..] == sizes;
      while off < goal
        invariant Counts(content) && off <= goal && r <= |sizes|
        invariant Arrives(start, goal, |content|, sizes) <==> Arrives(off, goal, |content|, sizes[r..])
      {
        if r == |sizes| { return false; }
        var got := Brought(off, goal, |content|, sizes[r]);
        assert sizes[r..][1..] == sizes[r + 1..];
        if got == 0 { return false; }
        var from := off;
        for i := 0 to got
          invariant off == from && at == Fold(OnFile, ORIGIN, content[..from + i])
        {
          FoldNext(OnFile, ORIGIN, content, from + i);
          at := FileStep(at, content[from + i]);
        }
        off := off + got;
        r := r + 1;
      }
      return true;
    }
  }

  /** What a read at `off` brings: no more than is asked for, 65536 bytes at most, and no more than the file has. */
  function Brought(off: nat, goal: nat, size: nat, read: int): (got: nat)
    requires off < goal && off <= size
    ensures off + got <= goal && off + got <= size
  {
    var want := if goal - off > 65536 then 65536 else goal - off;
    var got := if read > want then want else read;
    if got <= 0 then 0 else if got > size - off then size - off else got
  }

  /** Do the reads lead from `off` to `goal`, none of them empty? */
  predicate Arrives(off: nat, goal: nat, size: nat, sizes: seq<int>)
    requires off <= size
    decreases |sizes|
  {
    off >= goal || (sizes != [] && Brought(off, goal, size, sizes[0]) > 0 && Arrives(off + Brought(off, goal, size, sizes[0]), goal, size, sizes[1..]))
  }

  /** Reads that each bring something lead to every place in the file and to none past it. */
  lemma {:induction false} ArrivesExactly(off: nat, goal: nat, size: nat, sizes: seq<int>)
    requires off <= size && |sizes| >= goal - off && forall i | 0 <= i < |sizes| :: sizes[i] > 0
    ensures Arrives(off, goal, size, sizes) <==> off >= goal || goal <= size
    decreases |sizes|
  {
    if off < goal {
      var got := Brought(off, goal, size, sizes[0]);
      if got > 0 { ArrivesExactly(off + got, goal, size, sizes[1..]); }
    }
  }

  /** The cache of a handle on a memory sink. */
  class SinkCursor {
    var off: nat
    const g: Place
    const w: Place
    ghost var seen: seq<Byte>

    constructor ()
      ensures Valid() && seen == [] && fresh(g) && fresh(w)
    {
      off := 0;
      g := new Place();
      w := new Place();
      seen := [];
    }

    ghost predicate Valid()
      reads this, g, w
    {
      g != w && off == |seen| && g.at == Fold(Plain, ORIGIN, seen) && w.at == Fold(Screen, ORIGIN, seen)
    }

    /** Whatever was counted before, the answer is that of counting the whole sink. */
    method Position(content: seq<Byte>, gnu: bool) returns (r: Pos)
      requires Valid() && (off <= |content| ==> content[..off] == seen)
      modifies this, g, w
      ensures Valid() && seen == content
      ensures r == Fold(if gnu then Plain else Screen, ORIGIN, content)
    {
      hide Fold;
      FoldNone(Plain, ORIGIN);
      FoldNone(Screen, ORIGIN);
      if |content| < off { off := 0; g.at := ORIGIN; w.at := ORIGIN; seen := []; }
      if |content| > off {
        assert content == seen + content[off..];
        FoldComposes(Plain, ORIGIN, seen, content[off..]);
        FoldComposes(Screen, ORIGIN, seen, content[off..]);
        FoldText(g, w, content[off..]);
        off := |content|;
        seen := content;
      }
      return if gnu then g.at else w.at;
    }
  }

  // ---------------------------------------------------------------- the two ways of counting columns

  predicate Moves(b: Byte) { b == 8 || b == 9 || b == 13 }

  /** A file and a terminal agree on characters and lines, and on the column unless a byte moves the cursor. */
  lemma {:induction false} FileAgreesWithScreen(p: Pos, s: seq<Byte>)
    ensures Fold(OnFile, p, s).chars == Fold(Screen, p, s).chars && Fold(OnFile, p, s).lines == Fold(Screen, p, s).lines
    ensures (forall i | 0 <= i < |s| :: !Moves(s[i])) ==> Fold(OnFile, p, s) == Fold(Screen, p, s)
  {
    if s != [] { FileAgreesWithScreen(p, s[..|s| - 1]); }
  }

  /** A tab that moves the cursor by one place, as any other character does. */
  predicate Steady(p: Pos, b: Byte) { Moves(b) ==> b == 9 && p.column % 8 == 7 }

  lemma StepAgrees(p: Pos, b: Byte)
    ensures FileStep(p, b) == ScreenStep(p, b) <==> Steady(p, b)
  {
  }

  /** File and terminal agree after the first `k` bytes. */
  ghost predicate Agree(p: Pos, s: seq<Byte>, k: nat)
    requires k <= |s|
  {
    Fold(OnFile, p, s[..k]) == Fold(Screen, p, s[..k])
  }

  ghost predicate SteadyAt(p: Pos, s: seq<Byte>, k: nat)
    requires k < |s|
  {
    Steady(Fold(OnFile, p, s[..k]), s[k])
  }

  lemma AgreeNext(p: Pos, s: seq<Byte>, k: nat)
    requires k < |s|
    ensures Agree(p, s, 0)
    ensures Agree(p, s, k) ==> (Agree(p, s, k + 1) <==> SteadyAt(p, s, k))
  {
    hide Fold, Steady;
    assert s[..0] == [];
    FoldNone(OnFile, p);
    FoldNone(Screen, p);
    FoldNext(OnFile, p, s, k);
    FoldNext(Screen, p, s, k);
    StepAgrees(Fold(OnFile, p, s[..k]), s[k]);
  }

  lemma {:induction false} AgreeUpTo(p: Pos, s: seq<Byte>, n: nat)
    requires 0 < n <= |s| && forall k | 0 <= k < |s| :: SteadyAt(p, s, k)
    ensures forall k | 0 <= k <= n :: Agree(p, s, k)
  {
    hide Agree, SteadyAt;
    AgreeNext(p, s, n - 1);
    if n > 1 { AgreeUpTo(p, s, n - 1); }
  }

  /** File and terminal agree all along a text exactly when the only bytes in it that move the cursor are tabs
      in the last column before a stop. */
  lemma ColumnsAgreeExactly(p: Pos, s: seq<Byte>)
    ensures (forall k | 0 <= k <= |s| :: Agree(p, s, k)) <==> (forall k | 0 <= k < |s| :: SteadyAt(p, s, k))
  {
    if s == [] {
      FoldNone(OnFile, p);
      FoldNone(Screen, p);
      assert s[..0] == [];
    } else {
      hide Agree, SteadyAt;
      if forall k | 0 <= k <= |s| :: Agree(p, s, k) {
        forall k | 0 <= k < |s| ensures SteadyAt(p, s, k) { AgreeNext(p, s, k); assert Agree(p, s, k + 1); }
      }
      if forall k | 0 <= k < |s| :: SteadyAt(p, s, k) { AgreeUpTo(p, s, |s|); }
    }
  }

  lemma FoldTwo(way: Way, p: Pos, a: Byte, b: Byte)
    ensures Fold(way, p, [a]) == Step(way, p, a) && Fold(way, p, [a, b]) == Step(way, Step(way, p, a), b)
  {
    var s, t: seq<Byte> := [a], [a, b];
    assert s[..|s| - 1] == [] && t[..|t| - 1] == s;
    FoldNone(way, p);
  }

  /** A tab, a letter and a backspace, a letter and a return: the same bytes, two columns. */
  lemma MovesDiffer()
    ensures Fold(OnFile, ORIGIN, [9]).column == 1 && Fold(Screen, ORIGIN, [9]).column == 8
    ensures Fold(OnFile, ORIGIN, [97, 8]).column == 2 && Fold(Screen, ORIGIN, [97, 8]).column == 0
    ensures Fold(OnFile, ORIGIN, [97, 13]).column == 2 && Fold(Screen, ORIGIN, [97, 13]).column == 0
  {
    FoldTwo(OnFile, ORIGIN, 9, 9);
    FoldTwo(Screen, ORIGIN, 9, 9);
    FoldTwo(OnFile, ORIGIN, 97, 8);
    FoldTwo(Screen, ORIGIN, 97, 8);
    FoldTwo(OnFile, ORIGIN, 97, 13);
    FoldTwo(Screen, ORIGIN, 97, 13);
  }
}
