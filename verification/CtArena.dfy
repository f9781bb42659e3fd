/** The arena as the compiler runs it: headers relinked in place, bins, a bump chunk and the payload bytes. */
module CtArena {
  import opened Arith
  import opened Common
  import opened ArenaModel
  import opened ArenaProofs
  import opened ArenaRuns
  import opened ArenaLinks

  /** Freshly mapped memory reads as zero. */
  function ByteAt(m: map<nat, int>, x: nat): int { if x in m then m[x] else 0 }

  function Zeroed(m: map<nat, int>, lo: nat, hi: nat): (r: map<nat, int>)
    ensures forall x: nat | x < lo || hi <= x :: ByteAt(r, x) == ByteAt(m, x)
    ensures forall x: nat | lo <= x < hi :: ByteAt(r, x) == 0
  {
    map x | x in m && (x < lo || hi <= x) :: m[x]
  }

  /** Every payload byte of a live block of `s` reads the same in `m'` as in `m`. */
  ghost predicate Kept(s: Arena, m: map<nat, int>, m': map<nat, int>) {
    forall a, x | a in s.blk && s.blk[a].live && a + ALIGN <= x < EndOf(a, s.blk[a]) :: ByteAt(m', x) == ByteAt(m, x)
  }

  lemma FreshKeeps(s: Arena, m: map<nat, int>, at: nat, size: nat)
    requires Layout(s) && size > 0 && Fresh(s, Some(at), size)
    ensures Kept(s, m, Zeroed(m, at, at + size))
  {
    FreshIsNew(s, at, size);
    forall a, x | a in s.blk && s.blk[a].live && a + ALIGN <= x < EndOf(a, s.blk[a]) ensures ByteAt(Zeroed(m, at, at + size), x) == ByteAt(m, x) {
      assert Apart(a, EndOf(a, s.blk[a]), at, at + size);
    }
  }

  /** A request for no bytes is a request for one. */
  lemma AllocAtLeastOne(page: nat, s: Arena, n0: nat, at: Option<nat>)
    requires page > 0 && |s.bins| == BINS
    ensures var n := if n0 == 0 then 1 else n0; Alloc(page, s, n0, at) == Alloc(page, s, n, at) && Wanted(page, s, n0) == Wanted(page, s, n)
  {
  }

  lemma WantedIs(page: nat, s: Arena, n: nat)
    requires page > 0 && |s.bins| == BINS && n > 0
    ensures ClassOf(n).None? ==> Wanted(page, s, n) == BigSize(page, n) && forall at: Option<nat> | at.None? :: Alloc(page, s, n, at) == (s, None)
  {
  }

  lemma FreshAt(s: Arena, at: Option<nat>, size: nat)
    requires Fresh(s, at, size) && at.Some?
    ensures at.value > 0
  {
  }

  lemma KeptSame(s: Arena, m: map<nat, int>)
    ensures Kept(s, m, m)
  {
  }

  /** What a big allocation leaves behind. */
  lemma BigDone(page: nat, s: Arena, n: nat, at: nat, h: map<nat, Head>, bin: seq<nat>, jhead: nat, raw: Head, m: map<nat, int>)
    requires page > 0 && Inv(s) && |s.bins| == BINS && n > 0 && ClassOf(n).None? && Fresh(s, Some(at), Wanted(page, s, n)) && Represents(s, h, bin, jhead)
    requires raw.magic == BigMagic && raw.size == BigSize(page, n)
    ensures var (t, r) := Alloc(page, s, n, Some(at)); var need := BigSize(page, n);
            && at > 0 && r == Some(at) && Inv(t) && |t.bins| == BINS && Represents(t, Pushed(h[at := raw], jhead, at), bin, at)
            && t.cur == s.cur && t.end == s.end && t.taken == s.taken + need && t.mapped == s.mapped + need
            && Kept(s, m, Zeroed(m, at, at + need)) && at !in s.journal && (jhead != 0 ==> jhead in h)
  {
    hide *;
    var need := BigSize(page, n);
    WantedIs(page, s, n);
    AllocBig(page, s, n, at);
    BigKeeps(page, s, n, at);
    FreshAt(s, Some(at), need);
    InvParts(s, 0);
    FreshKeeps(s, m, at, need);
    FreshIsNew(s, at, need);
    var t := Alloc(page, s, n, Some(at)).0;
    BigMagicOf(need);
    RepNew(s, t, h, bin, jhead, at, Info(need, true, true), raw);
    InvParts(t, 0);
    NotLive(s, at);
    NewestIn(s, h, bin, jhead);
  }

  lemma BigSizeIs(page: nat, n: nat)
    requires page > 0
    ensures BigSize(page, n) == Ceil(page, n + ALIGN)
  {
  }

  lemma BigMagicOf(size: nat)
    ensures MagicOf(Info(size, true, true)) == BigMagic && MagicOf(Info(size, false, true)) == BinMagic
  {
  }

  lemma NewestIn(s: Arena, h: map<nat, Head>, bin: seq<nat>, jhead: nat)
    requires Represents(s, h, bin, jhead)
    ensures jhead != 0 ==> jhead in h && jhead in s.journal
  {
  }

  /** A bin is empty in memory exactly when it is. */
  lemma BinEmpty(s: Arena, h: map<nat, Head>, bin: seq<nat>, jhead: nat, c: nat)
    requires Inv(s) && Represents(s, h, bin, jhead) && c < BINS
    ensures |s.bins| == |bin| == BINS && bin[c] == At(s.bins[c], 0) && (bin[c] == 0 <==> s.bins[c] == [])
  {
    JournalPositive(s);
    assert s.bins[c] != [] ==> s.bins[c][0] in s.bins[c];
    hide Layout, Sum, ClassOf;
  }

  lemma BinLength(s: Arena, h: map<nat, Head>, bin: seq<nat>, jhead: nat)
    requires Represents(s, h, bin, jhead)
    ensures |bin| == BINS
  {
  }

  /** What taking a block from a bin leaves behind. */
  lemma RecycleDone(page: nat, s: Arena, n: nat, c: nat, at: Option<nat>, h: map<nat, Head>, bin: seq<nat>, jhead: nat)
    requires page > 0 && Inv(s) && |s.bins| == BINS && n > 0 && ClassOf(n) == Some(c) && c < BINS && |bin| == BINS && bin[c] != 0 && Represents(s, h, bin, jhead)
    ensures var (t, r) := Alloc(page, s, n, at); var a := bin[c];
            && r == Some(a) && a in h && Inv(t) && |t.bins| == BINS
            && Represents(t, Pushed(h[a := Head(BinMagic, Cap(c), 0, h[a].older)], jhead, a), bin[c := h[a].next], a)
            && t.cur == s.cur && t.end == s.end && t.taken == s.taken + Cap(c) && t.mapped == s.mapped && (jhead != 0 ==> jhead in h)
  {
    hide *;
    BinEmpty(s, h, bin, jhead, c);
    BinFirst(s.bins[c]);
    AllocBin(page, s, n, c, at);
    BinKeeps(page, s, n, c, at);
    var t := Alloc(page, s, n, at).0;
    NewestIn(s, h, bin, jhead);
    RepRecycledIn(s, h, bin, jhead, c);
    RepRecycled(s, t, h, bin, jhead, c, Head(BinMagic, Cap(c), 0, h[bin[c]].older));
    InvParts(t, 0);
  }

  lemma BinFirst(b: seq<nat>)
    ensures b != [] ==> At(b, 0) == b[0]
  {
  }

  lemma RepRecycledIn(s: Arena, h: map<nat, Head>, bin: seq<nat>, jhead: nat, c: nat)
    requires Inv(s) && Represents(s, h, bin, jhead) && c < BINS && |s.bins| == BINS && s.bins[c] != []
    ensures s.bins[c][0] in h
  {
    assert s.bins[c][0] in s.bins[c];
    hide Layout, Sum, ClassOf;
  }

  /** What taking a block off the chunk at hand leaves behind. */
  lemma BumpDone(page: nat, s: Arena, n: nat, c: nat, at: Option<nat>, h: map<nat, Head>, bin: seq<nat>, jhead: nat, raw: Head)
    requires page > 0 && Inv(s) && |s.bins| == BINS && n > 0 && ClassOf(n) == Some(c) && c < BINS && s.bins[c] == [] && Represents(s, h, bin, jhead)
    requires raw.magic == BinMagic && raw.size == Cap(c) && s.end - s.cur >= Cap(c) + ALIGN
    ensures var (t, r) := Alloc(page, s, n, at); var a := s.cur;
            && r == Some(a) && a > 0 && Inv(t) && |t.bins| == BINS && Represents(t, Pushed(h[a := raw], jhead, a), bin, a)
            && t.cur == a + Cap(c) + ALIGN && t.end == s.end && t.taken == s.taken + Cap(c) && t.mapped == s.mapped && (jhead != 0 ==> jhead in h)
  {
    hide *;
    ClassIsLeast(n);
    AllocCases(page, s, n, c, at);
    InvParts(s, Cap(c) + ALIGN);
    BumpKeeps(s, c);
    BumpIs(s, Cap(c));
    var t := Bump(s, Cap(c)).0;
    ChunkEnd(s);
    BumpLayout(s, t, Cap(c)) by { RoomPositive(s, Cap(c) + ALIGN); }
    RoomPositive(s, Cap(c) + ALIGN);
    BigMagicOf(Cap(c));
    NewestIn(s, h, bin, jhead);
    RepNew(s, t, h, bin, jhead, s.cur, Info(Cap(c), false, true), raw);
    InvParts(t, 0);
  }

  lemma ChunkEnd(s: Arena)
    requires Layout(s)
    ensures s.cur <= s.end
  {
  }

  lemma RoomPositive(s: Arena, need: nat)
    requires HasRoom(s, need)
    ensures s.cur > 0
  {
  }

  /** What mapping a new chunk and taking a block off it leaves behind. */
  lemma ChunkDone(page: nat, s: Arena, n: nat, c: nat, at: nat, h: map<nat, Head>, bin: seq<nat>, jhead: nat, raw: Head, m: map<nat, int>)
    requires page > 0 && Inv(s) && |s.bins| == BINS && n > 0 && ClassOf(n) == Some(c) && c < BINS && s.bins[c] == [] && Represents(s, h, bin, jhead)
    requires raw.magic == BinMagic && raw.size == Cap(c) && s.end - s.cur < Cap(c) + ALIGN && Fresh(s, Some(at), Wanted(page, s, n))
    ensures var (t, r) := Alloc(page, s, n, Some(at)); var want := ChunkSize(page, Cap(c) + ALIGN);
            && r == Some(at) && at > 0 && Inv(t) && |t.bins| == BINS && Represents(t, Pushed(h[at := raw], jhead, at), bin, at)
            && t.cur == at + Cap(c) + ALIGN && t.end == at + want && t.taken == s.taken + Cap(c) && t.mapped == s.mapped + want
            && Kept(s, m, Zeroed(m, at, at + want)) && (jhead != 0 ==> jhead in h)
  {
    hide *;
    ClassIsLeast(n);
    AllocCases(page, s, n, c, Some(at));
    InvParts(s, 0);
    var want := ChunkSize(page, Cap(c) + ALIGN);
    FreshAt(s, Some(at), want);
    FreshIsNew(s, at, want);
    FreshKeeps(s, m, at, want);
    NewChunkKeeps(s, c, at, want, n);
    var u := s.(chunk := at, cur := at, end := at + want, regions := s.regions[at := at + want], mapped := s.mapped + want);
    BumpIs(u, Cap(c));
    var t := Bump(u, Cap(c)).0;
    BigMagicOf(Cap(c));
    NewestIn(s, h, bin, jhead);
    RepNew(s, t, h, bin, jhead, at, Info(Cap(c), false, true), raw);
    InvParts(t, 0);
  }

  lemma ChunkNone(page: nat, s: Arena, n: nat, c: nat)
    requires page > 0 && |s.bins| == BINS && n > 0 && ClassOf(n) == Some(c) && c < BINS && s.bins[c] == [] && s.end - s.cur < Cap(c) + ALIGN
    ensures Alloc(page, s, n, None) == (s, None)
  {
  }

  lemma ChunkSizeIs(page: nat, need: nat)
    requires page > 0
    ensures ChunkSize(page, need) == if CHUNK > need then CHUNK else Ceil(page, need)
  {
  }

  /** What a header says about its block. */
  lemma HeadSays(s: Arena, h: map<nat, Head>, bin: seq<nat>, jhead: nat, a: nat)
    requires Inv(s) && Represents(s, h, bin, jhead)
    ensures a in h <==> a in s.blk
    ensures a in h ==> h[a].size == s.blk[a].size && (h[a].magic == NoMagic <==> !s.blk[a].live) && (h[a].magic == BigMagic <==> s.blk[a].big)
    ensures a in s.blk && s.blk[a].live ==> a in s.journal
  {
    assert forall b | b in s.blk && s.blk[b].big :: s.blk[b].live by {
      forall b | b in s.blk && s.blk[b].big ensures s.blk[b].live { assert BlockOk(s, b, s.blk[b]); }
    }
    hide Layout, Sum, ClassOf;
  }

  /** What freeing a live block leaves behind. */
  lemma DropDone(s: Arena, h: map<nat, Head>, bin: seq<nat>, jhead: nat, a: nat)
    requires Inv(s) && |s.bins| == BINS && Represents(s, h, bin, jhead) && a in h && h[a].magic != NoMagic
    ensures a in s.blk
    ensures var t := Drop(s, a); var u := Unlinked(h, a); var j := if h[a].next == 0 then h[a].older else jhead;
            && a in u && |bin| == BINS && Inv(t) && |t.bins| == BINS && t.cur == s.cur && t.end == s.end && t.mapped == s.mapped
            && h[a].size <= s.taken && t.taken == s.taken - h[a].size && u[a].size == h[a].size && u[a].magic == h[a].magic
            && (h[a].older != 0 ==> h[a].older in h) && (h[a].next != 0 ==> h[a].next in h)
            && (if h[a].magic == BigMagic then Represents(t, Cut(u, a), bin, j)
                else var c := ClassOf(h[a].size);
                     c.Some? && c.value < BINS && Represents(t, u[a := u[a].(magic := NoMagic, next := bin[c.value])], bin[c.value := a], j))
  {
    hide *;
    HeadSays(s, h, bin, jhead, a);
    DropKeeps(s, a);
    var t := Drop(s, a);
    FreedTaken(s, t, a);
    InvParts(s, 0);
    KindOf(s, a);
    DropIs(s, a);
    LinksInverse(s, h, bin, jhead, a);
    InvParts(t, 0);
    UnlinkedIs(h, a);
    EntrySelf(h, a);
    if s.blk[a].big {
      RepUnmapped(s, t, h, bin, jhead, a);
      BinLength(s, h, bin, jhead);
    } else {
      RepBinned(s, t, h, bin, jhead, a, ClassOf(s.blk[a].size).value);
    }
  }

  lemma EntrySelf(h: map<nat, Head>, a: nat)
    requires a in h
    ensures EntryWithout(h, a, a) == Head(h[a].magic, h[a].size, 0, 0)
  {
  }

  lemma FreedTaken(s: Arena, t: Arena, a: nat)
    requires Freed(s, t, a)
    ensures a in s.blk && t.taken + s.blk[a].size == s.taken
  {
  }

  lemma DropDead(s: Arena, a: nat)
    requires |s.bins| == BINS && a in s.blk && !s.blk[a].live
    ensures Drop(s, a) == s
  {
  }

  /** The three ways a block grows. */
  lemma GrowCases(page: nat, s: Arena, h: map<nat, Head>, bin: seq<nat>, jhead: nat, a: nat, n: nat, at: Option<nat>)
    requires page > 0 && Inv(s) && |s.bins| == BINS && Represents(s, h, bin, jhead) && a in h && h[a].magic != NoMagic
    ensures a in s.blk && s.blk[a].live && Room(s.blk[a]) == if h[a].magic == BinMagic then h[a].size else h[a].size - ALIGN
    ensures n <= Room(s.blk[a]) ==> Grow(page, s, a, n, at) == (s, Some(a))
    ensures n > Room(s.blk[a]) ==>
              var there := h[a].magic == BinMagic && ClassOf(n).Some? && a + ALIGN + h[a].size == s.cur && s.end - (a + ALIGN) >= Cap(ClassOf(n).value);
              Grow(page, s, a, n, at) == if there then (Extended(s, a, Cap(ClassOf(n).value)), Some(a)) else Alloc(page, s, n, at)
  {
    HeadSays(s, h, bin, jhead, a);
    hide Inv, Alloc, Extended, ClassOf, Cap;
  }

  /** What growing a block where it stands leaves behind. */
  lemma ExtendDone(s: Arena, h: map<nat, Head>, bin: seq<nat>, jhead: nat, a: nat, n: nat)
    requires Inv(s) && |s.bins| == BINS && Represents(s, h, bin, jhead) && a in h && h[a].magic == BinMagic && ClassOf(n).Some? && n > h[a].size
    requires a + ALIGN + h[a].size == s.cur && s.end - (a + ALIGN) >= Cap(ClassOf(n).value)
    ensures a in s.blk
    ensures var cap := Cap(ClassOf(n).value); var t := Extended(s, a, cap);
            && Inv(t) && |t.bins| == BINS && t.cur == a + ALIGN + cap && t.end == s.end && cap >= h[a].size && t.taken == s.taken + (cap - h[a].size) && t.mapped == s.mapped
            && Represents(t, h[a := h[a].(size := cap)], bin, jhead)
  {
    HeadSays(s, h, bin, jhead, a);
    assert CanExtend(s, a, n) && Room(s.blk[a]) == s.blk[a].size;
    hide *;
    InvParts(s, 0);
    InvChunk(s);
    var cap := Cap(ClassOf(n).value);
    ExtendFacts(s, a, n);
    ExtendedIs(s, a, cap);
    ExtendKeeps(s, a, n);
    var t := Extended(s, a, cap);
    InvParts(t, 0);
    RepResized(s, t, h, bin, jhead, a, cap);
  }

  /** The `n` bytes from `lo` on of `m'` are those from `from` on of `m`. */
  ghost predicate Copied(m: map<nat, int>, m': map<nat, int>, from: nat, lo: nat, n: nat) {
    forall x: nat | lo <= x < lo + n :: ByteAt(m', x) == ByteAt(m, from + (x - lo))
  }

  ghost predicate Outside(m: map<nat, int>, m': map<nat, int>, lo: nat, n: nat) {
    forall x: nat | x < lo || lo + n <= x :: ByteAt(m', x) == ByteAt(m, x)
  }

  lemma CopyOne(m: map<nat, int>, m': map<nat, int>, src: nat, dst: nat, k: nat, n: nat)
    requires k < n && Apart(src, src + n, dst, dst + n) && Copied(m, m', src, dst, k) && Outside(m, m', dst, k)
    ensures var m1 := m'[dst + k := ByteAt(m', src + k)]; Copied(m, m1, src, dst, k + 1) && Outside(m, m1, dst, k + 1)
  {
    var m1 := m'[dst + k := ByteAt(m', src + k)];
    assert ByteAt(m', src + k) == ByteAt(m, src + k);
    forall x: nat | x < dst || dst + (k + 1) <= x ensures ByteAt(m1, x) == ByteAt(m, x) { assert ByteAt(m', x) == ByteAt(m, x); }
    forall x: nat | dst <= x < dst + (k + 1) ensures ByteAt(m1, x) == ByteAt(m, src + (x - dst)) {
      if x < dst + k { assert ByteAt(m', x) == ByteAt(m, src + (x - dst)); }
    }
  }

  lemma KeptThrough(s: Arena, m: map<nat, int>, m1: map<nat, int>, m2: map<nat, int>)
    requires Kept(s, m, m1) && Kept(s, m1, m2)
    ensures Kept(s, m, m2)
  {
  }

  /** A new block's payload is nobody else's. */
  lemma MoveKeeps(s: Arena, t: Arena, b: nat, n: nat, used: nat, m: map<nat, int>, m': map<nat, int>)
    requires Inv(t) && Served(s, t, b, n) && used <= n && Outside(m, m', b + ALIGN, used)
    ensures Kept(s, m, m')
  {
    hide ClassOf, Cap, Sum, Lists;
    forall a, x | a in s.blk && s.blk[a].live && a + ALIGN <= x < EndOf(a, s.blk[a]) ensures ByteAt(m', x) == ByteAt(m, x) {
      assert a != b && t.blk[a] == s.blk[a];
      assert Apart(a, EndOf(a, t.blk[a]), b, EndOf(b, t.blk[b]));
    }
  }

  lemma MoveApart(s: Arena, t: Arena, a: nat, b: nat, n: nat)
    requires Inv(t) && Served(s, t, b, n) && a in s.blk && s.blk[a].live && Room(s.blk[a]) <= n
    ensures a != b && Apart(a + ALIGN, a + ALIGN + Room(s.blk[a]), b + ALIGN, b + ALIGN + Room(s.blk[a]))
  {
    hide ClassOf, Cap, Sum, Lists;
    assert t.blk[a] == s.blk[a];
    assert Apart(a, EndOf(a, t.blk[a]), b, EndOf(b, t.blk[b]));
  }

  lemma KeptBytes(s: Arena, m: map<nat, int>, m': map<nat, int>, a: nat)
    requires Kept(s, m, m') && a in s.blk && s.blk[a].live && Room(s.blk[a]) >= 0
    ensures Copied(m, m', a + ALIGN, a + ALIGN, Room(s.blk[a]))
  {
  }

  lemma CopiedThrough(m: map<nat, int>, m1: map<nat, int>, m2: map<nat, int>, from: nat, lo: nat, n: nat)
    requires Copied(m, m1, from, from, n) && Copied(m1, m2, from, lo, n)
    ensures Copied(m, m2, from, lo, n)
  {
  }

  lemma RoomNat(s: Arena, a: nat)
    requires Inv(s) && a in s.blk
    ensures Room(s.blk[a]) >= 0
  {
    assert BlockOk(s, a, s.blk[a]);
  }

  lemma OutcomeParts(s: Arena, n: nat, at: Option<nat>, r: (Arena, Option<nat>))
    requires Outcome(s, n, at, r)
    ensures Inv(r.0) && (r.1.Some? && n > 0 ==> Served(s, r.0, r.1.value, n))
  {
  }

  /** The newest block is the last of the journal. */
  lemma NewestIs(s: Arena, h: map<nat, Head>, bin: seq<nat>, jhead: nat)
    requires Inv(s) && Represents(s, h, bin, jhead) && s.journal != []
    ensures jhead == s.journal[|s.journal| - 1] && jhead in h && jhead != 0
  {
    JournalPositive(s);
    hide Layout, Sum, ClassOf;
  }

  lemma LinkedOlder(h: map<nat, Head>, j: seq<nat>, i: nat)
    requires Linked(h, j) && 0 !in j && i <= |j|
    ensures At(j, i - 1) == 0 <==> i == 0
    ensures i > 0 ==> j[i - 1] == At(j, i - 1) && At(j, i - 1) in h && h[At(j, i - 1)].older == At(j, i - 2)
    ensures Last(j) == At(j, |j| - 1)
  {
    assert i > 0 ==> j[i - 1] in j;
  }

  /** Walking `older` visits the journal from its end. */
  lemma OlderOf(s: Arena, h: map<nat, Head>, bin: seq<nat>, jhead: nat, i: nat)
    requires Inv(s) && Represents(s, h, bin, jhead) && i <= |s.journal|
    ensures jhead == At(s.journal, |s.journal| - 1)
    ensures At(s.journal, i - 1) == 0 <==> i == 0
    ensures i > 0 ==> s.journal[i - 1] == At(s.journal, i - 1) && At(s.journal, i - 1) in h && h[At(s.journal, i - 1)].older == At(s.journal, i - 2)
  {
    hide *;
    JournalPositive(s);
    RepParts(s, h, bin, jhead);
    LinkedOlder(h, s.journal, i);
  }

  lemma StopStays(s: Arena, m: nat)
    requires m in s.journal && m != s.journal[|s.journal| - 1]
    ensures m in s.journal[..|s.journal| - 1]
  {
  }

  /** `t` is `s` without the block at `p`. */
  ghost predicate Dropped(s: Arena, p: nat, t: Arena) { |s.bins| == BINS && p >= ALIGN && p - ALIGN in s.blk && t == Drop(s, p - ALIGN) }

  lemma DroppedBy(s: Arena, p: nat)
    requires |s.bins| == BINS && p >= ALIGN && p - ALIGN in s.blk
    ensures Dropped(s, p, Drop(s, p - ALIGN))
  {
    hide Drop;
  }

  function Header(q: nat): Option<nat> { if q < ALIGN then None else Some(q - ALIGN) }

  /** Growing the block at `p`: refused when it is free already; else as the value of the arena says, with the old
      contents in front of the block at `q`, if there is one. */
  ghost predicate Regrown(page: nat, s: Arena, h: map<nat, Head>, m: map<nat, int>, p: nat, n: nat, at: Option<nat>, t: Arena, m': map<nat, int>, q: nat) {
    && page > 0 && |s.bins| == BINS && p >= ALIGN && p - ALIGN in s.blk && p - ALIGN in h
    && (if h[p - ALIGN].magic == NoMagic then q == 0 && t == s
        else
          && (q == 0 || q >= ALIGN) && Room(s.blk[p - ALIGN]) >= 0
          && (t, Header(q)) == Grow(page, s, p - ALIGN, n, at)
          && (q != 0 ==> Copied(m, m', p, q, Room(s.blk[p - ALIGN]))))
  }

  lemma RegrownDead(page: nat, s: Arena, h: map<nat, Head>, m: map<nat, int>, p: nat, n: nat, at: Option<nat>)
    requires page > 0 && |s.bins| == BINS && p >= ALIGN && p - ALIGN in s.blk && p - ALIGN in h && h[p - ALIGN].magic == NoMagic
    ensures Regrown(page, s, h, m, p, n, at, s, m, 0)
  {
  }

  lemma RegrownLive(page: nat, s: Arena, h: map<nat, Head>, m: map<nat, int>, p: nat, n: nat, at: Option<nat>, t: Arena, m': map<nat, int>, q: nat)
    requires page > 0 && |s.bins| == BINS && p >= ALIGN && p - ALIGN in s.blk && p - ALIGN in h && h[p - ALIGN].magic != NoMagic
    requires (q == 0 || q >= ALIGN) && (t, if q == 0 then None else Some(q - ALIGN)) == Grow(page, s, p - ALIGN, n, at)
    requires Room(s.blk[p - ALIGN]) >= 0 && (q != 0 ==> Copied(m, m', p, q, Room(s.blk[p - ALIGN])))
    ensures Regrown(page, s, h, m, p, n, at, t, m', q)
  {
    hide Grow, Copied, Room;
  }

  lemma CopiedSelf(m: map<nat, int>, p: nat, n: nat)
    ensures Copied(m, m, p, p, n)
  {
  }

  class Allocator {
    const page: nat
    var heads: map<nat, Head>
    var bin: seq<nat>
    var jhead: nat
    var cur: nat
    var end: nat
    var taken: nat
    var mapped: nat
    var mem: map<nat, int>
    ghost var view: Arena

    ghost predicate Valid()
      reads this
    {
      && page > 0 && Inv(view) && |view.bins| == BINS
      && Represents(view, heads, bin, jhead)
      && cur == view.cur && end == view.end && taken == view.taken && mapped == view.mapped
    }

    lemma ValidIs()
      ensures Valid() <==> (page > 0 && Inv(view) && |view.bins| == BINS && Represents(view, heads, bin, jhead)
                            && cur == view.cur && end == view.end && taken == view.taken && mapped == view.mapped)
    {
    }

    constructor (page: nat)
      requires page > 0
      ensures Valid() && view == Empty()
    {
      this.page := page;
      heads, bin, jhead := map[], seq(BINS, _ => 0), 0;
      cur, end, taken, mapped := 0, 0, 0, 0;
      mem := map[];
      view := Empty();
      new;
      EmptyInv();
    }

    /** The class that serves `n` bytes. */
    static method FindClass(n: nat) returns (c: Option<nat>)
      ensures c == ClassOf(n) && (c.Some? ==> c.value < BINS)
    {
      var cap, i := 16, 0;
      while i < BINS
        invariant i <= BINS && cap == Cap(i) && ClassOf(n) == ClassFrom(n, i)
      {
        if n <= cap { return Some(i); }
        cap := 2 * cap;
        i := i + 1;
      }
      return None;
    }

    method PushJournal(h: nat) returns (p: nat)
      requires h in heads && (jhead != 0 ==> jhead in heads)
      modifies this`heads, this`jhead
      ensures heads == Pushed(old(heads), old(jhead), h) && jhead == h && p == h + ALIGN
    {
      heads := heads[h := heads[h].(older := jhead, next := 0)];
      if jhead != 0 { heads := heads[jhead := heads[jhead].(next := h)]; }
      jhead := h;
      return h + ALIGN;
    }

    method LeaveJournal(h: nat)
      requires h in heads && (heads[h].older != 0 ==> heads[h].older in heads) && (heads[h].next != 0 ==> heads[h].next in heads)
      modifies this`heads, this`jhead
      ensures heads == Unlinked(old(heads), h) && jhead == (if old(heads[h]).next == 0 then old(heads[h]).older else old(jhead))
    {
      var e := heads[h];
      if e.older != 0 { heads := heads[e.older := heads[e.older].(next := e.next)]; }
      if e.next != 0 { heads := heads[e.next := heads[e.next].(older := e.older)]; } else { jhead := e.older; }
      heads := heads[h := Head(e.magic, e.size, 0, 0)];
    }

    /** The system maps memory at `at`. */
    method MapMemory(at: nat, want: nat)
      modifies this`mem, this`mapped
      ensures mem == Zeroed(old(mem), at, at + want) && mapped == old(mapped) + want
    {
      mem := Zeroed(mem, at, at + want);
      mapped := mapped + want;
    }

    method AllocBigBlock(n: nat, at: Option<nat>) returns (p: nat)
      requires Valid() && n > 0 && ClassOf(n).None? && Fresh(view, at, Wanted(page, view, n))
      modifies this
      ensures Valid() && (p == 0 || p > ALIGN)
      ensures (view, if p == 0 then None else Some(p - ALIGN)) == Alloc(page, old(view), n, at)
      ensures Kept(old(view), old(mem), mem)
    {
      hide Inv, Represents, Fresh, Wanted, Alloc, Kept, Zeroed, Pushed, ClassOf, BigSize;
      if at.None? { WantedIs(page, view, n); KeptSame(view, mem); return 0; }
      var h := at.value;
      var need := Ceil(page, n + ALIGN);
      BigSizeIs(page, n);
      BigDone(page, view, n, h, heads, bin, jhead, Head(BigMagic, need, 0, 0), mem);
      MapMemory(h, need);
      heads := heads[h := Head(BigMagic, need, 0, 0)];
      taken := taken + need;
      view := Alloc(page, view, n, at).0;
      p := PushJournal(h);
    }

    method Recycle(n: nat, c: nat, ghost at: Option<nat>) returns (p: nat)
      requires Valid() && n > 0 && ClassOf(n) == Some(c) && c < BINS && |bin| == BINS && bin[c] != 0
      modifies this
      ensures Valid() && p > ALIGN
      ensures (view, Some(p - ALIGN)) == Alloc(page, old(view), n, at)
      ensures mem == old(mem)
    {
      hide Inv, Represents, Alloc, Pushed, ClassOf, Cap;
      RecycleDone(page, view, n, c, at, heads, bin, jhead);
      var h := bin[c];
      bin := bin[c := heads[h].next];
      heads := heads[h := Head(BinMagic, CapOf(c), 0, heads[h].older)];
      taken := taken + heads[h].size;
      view := Alloc(page, view, n, at).0;
      p := PushJournal(h);
    }

    method BumpBlock(n: nat, c: nat, at: Option<nat>) returns (p: nat)
      requires Valid() && n > 0 && ClassOf(n) == Some(c) && c < BINS && view.bins[c] == [] && Fresh(view, at, Wanted(page, view, n))
      modifies this
      ensures Valid() && (p == 0 || p > ALIGN)
      ensures (view, if p == 0 then None else Some(p - ALIGN)) == Alloc(page, old(view), n, at)
      ensures Kept(old(view), old(mem), mem)
    {
      hide *;
      ValidIs();
      var cap := CapOf(c);
      var need := cap + ALIGN;
      if end - cur < need {
        var want := if CHUNK > need then CHUNK else Ceil(page, need);
        if at.None? { ChunkNone(page, view, n, c); KeptSame(view, mem); return 0; }
        ChunkSizeIs(page, need);
        ChunkDone(page, view, n, c, at.value, heads, bin, jhead, Head(BinMagic, cap, 0, 0), mem);
        MapMemory(at.value, want);
        cur := at.value;
        end := cur + want;
      } else {
        BumpDone(page, view, n, c, at, heads, bin, jhead, Head(BinMagic, cap, 0, 0));
        KeptSame(view, mem);
      }
      var h := cur;
      cur := cur + need;
      heads := heads[h := Head(BinMagic, cap, 0, 0)];
      taken := taken + cap;
      view := Alloc(page, view, n, at).0;
      p := PushJournal(h);
      ValidIs();
    }

    static function CapOf(c: nat): (r: nat)
      ensures r == Cap(c)
    {
      Cap(c)
    }

    /** 0 stands for the null of the caller that may fail and for the exit of the caller that may not. */
    method AllocIn(n0: nat, at: Option<nat>) returns (p: nat)
      requires Valid() && Fresh(view, at, Wanted(page, view, n0))
      modifies this
      ensures Valid() && (p == 0 || p > ALIGN)
      ensures (view, if p == 0 then None else Some(p - ALIGN)) == Alloc(page, old(view), n0, at)
      ensures Kept(old(view), old(mem), mem)
    {
      hide Inv, Represents, Alloc, ClassOf, Fresh, Wanted, Kept;
      AllocAtLeastOne(page, view, n0, at);
      var n := if n0 == 0 then 1 else n0;
      var cls := FindClass(n);
      if cls.None? {
        p := AllocBigBlock(n, at);
      } else {
        BinEmpty(view, heads, bin, jhead, cls.value);
        if bin[cls.value] != 0 {
          KeptSame(view, mem);
          p := Recycle(n, cls.value, at);
        } else {
          p := BumpBlock(n, cls.value, at);
        }
      }
    }

    method MarkNow(at: Option<nat>) returns (m: nat)
      requires Valid() && Fresh(view, at, Wanted(page, view, 1))
      modifies this
      ensures Valid() && (m == 0 || m > ALIGN)
      ensures (view, if m == 0 then None else Some(m - ALIGN)) == Alloc(page, old(view), 1, at)
      ensures Kept(old(view), old(mem), mem)
    {
      m := AllocIn(1, at);
    }

    method DropBlock(p: nat)
      requires Valid() && (p != 0 ==> p >= ALIGN && p - ALIGN in heads)
      modifies this
      ensures Valid() && mem == old(mem)
      ensures p == 0 ==> view == old(view)
      ensures p != 0 ==> Dropped(old(view), p, view)
    {
      hide *;
      ValidIs();
      if p == 0 { return; }
      var h := p - ALIGN;
      HeadSays(view, heads, bin, jhead, h);
      ghost var s := view;
      if heads[h].magic == NoMagic { DropDead(view, h); DroppedBy(s, p); return; }
      DropDone(view, heads, bin, jhead, h);
      LeaveJournal(h);
      var size := heads[h].size;
      if heads[h].magic == BinMagic {
        var cls := FindClass(size);
        taken := taken - size;
        heads := heads[h := heads[h].(magic := NoMagic, next := bin[cls.value])];
        bin := bin[cls.value := h];
      } else {
        taken := taken - size;
        heads := Cut(heads, h);
      }
      view := Drop(view, h);
      DroppedBy(s, p);
      ValidIs();
    }

    method CopyBytes(src: nat, dst: nat, n: nat)
      requires Apart(src, src + n, dst, dst + n)
      modifies this`mem
      ensures Copied(old(mem), mem, src, dst, n) && Outside(old(mem), mem, dst, n)
    {
      hide ByteAt;
      var k := 0;
      while k < n
        invariant k <= n && Copied(old(mem), mem, src, dst, k) && Outside(old(mem), mem, dst, k)
      {
        CopyOne(old(mem), mem, src, dst, k, n);
        mem := mem[dst + k := ByteAt(mem, src + k)];
        k := k + 1;
      }
    }

    /** 0 stands for the exits: no memory, or a block the arena did not hand out. */
    method GrowBlock(p: nat, n: nat, at: Option<nat>) returns (q: nat)
      requires Valid() && Fresh(view, at, Wanted(page, view, n)) && (p != 0 ==> p >= ALIGN && p - ALIGN in heads)
      modifies this
      ensures Valid() && (q == 0 || q >= ALIGN)
      ensures p == 0 ==> (view, if q == 0 then None else Some(q - ALIGN)) == Alloc(page, old(view), n, at)
      ensures p != 0 ==> Regrown(page, old(view), old(heads), old(mem), p, n, at, view, mem, q)
      ensures Kept(old(view), old(mem), mem)
    {
      hide *;
      ValidIs();
      KeptSame(view, mem);
      if p == 0 { q := AllocIn(n, at); return; }
      var h := p - ALIGN;
      HeadSays(view, heads, bin, jhead, h);
      ghost var h0, s0, m0 := heads, view, mem;
      if heads[h].magic == NoMagic { RegrownDead(page, s0, h0, m0, p, n, at); return 0; }
      GrowCases(page, view, heads, bin, jhead, h, n, at);
      var used := if heads[h].magic == BinMagic then heads[h].size else heads[h].size - ALIGN;
      assert Room(view.blk[h]) >= 0 by { RoomNat(view, h); }
      KeptBytes(view, mem, mem, h);
      CopiedSelf(mem, p, used);
      if n <= used { RegrownLive(page, s0, h0, m0, p, n, at, s0, mem, p); return p; }
      var cls := FindClass(n);
      if heads[h].magic == BinMagic && cls.Some? && p + used == cur && end - p >= CapOf(cls.value) {
        ExtendDone(view, heads, bin, jhead, h, n);
        var cap := CapOf(cls.value);
        cur := p + cap;
        taken := taken + (cap - used);
        heads := heads[h := heads[h].(size := cap)];
        view := Extended(view, h, cap);
        RegrownLive(page, s0, h0, m0, p, n, at, view, mem, p);
        ValidIs();
        return p;
      }
      AllocKeeps(page, s0, n, at);
      q := AllocIn(n, at);
      ValidIs();
      if q == 0 { RegrownLive(page, s0, h0, m0, p, n, at, view, mem, 0); return; }
      OutcomeParts(s0, n, at, Alloc(page, s0, n, at));
      MoveApart(s0, view, h, q - ALIGN, n);
      KeptBytes(s0, m0, mem, h);
      ghost var m1 := mem;
      CopyBytes(p, q, used);
      MoveKeeps(s0, view, q - ALIGN, n, used, m1, mem);
      KeptThrough(s0, m0, m1, mem);
      CopiedThrough(m0, m1, mem, p, q, used);
      RegrownLive(page, s0, h0, m0, p, n, at, view, mem, q);
      ValidIs();
    }

    method ReleaseMark(m: nat)
      requires Valid() && (m == 0 || m >= ALIGN)
      modifies this
      ensures Valid() && mem == old(mem)
      ensures m == 0 ==> view == old(view)
      ensures m != 0 ==> view == Release(old(view), m - ALIGN)
    {
      hide Inv, Represents, Drop, Unwind, Before, At, Linked, Tagged, Chains, Last, Freed, NoDup;
      if m == 0 { return; }
      var stop := m - ALIGN;
      var h := jhead;
      ghost var i := |view.journal|;
      OlderOf(view, heads, bin, jhead, i);
      while h != 0 && h != stop
        invariant Valid() && view == old(view) && mem == old(mem)
        invariant 0 <= i <= |view.journal| && h == At(view.journal, i - 1)
        invariant forall k | i <= k < |view.journal| :: view.journal[k] != stop
        decreases i
      {
        OlderOf(view, heads, bin, jhead, i);
        i := i - 1;
        h := heads[h].older;
        OlderOf(view, heads, bin, jhead, i);
      }
      if h == 0 { OlderOf(view, heads, bin, jhead, i); assert Release(view, stop) == view; return; }
      OlderOf(view, heads, bin, jhead, i);
      assert stop in view.journal;
      while jhead != stop
        invariant Valid() && mem == old(mem) && stop in view.journal && Unwind(view, stop) == Unwind(old(view), stop)
        decreases |view.journal|
      {
        NewestIs(view, heads, bin, jhead);
        UnwindStep(view, stop);
        StopStays(view, stop);
        DropBlock(jhead + ALIGN);
      }
      NewestIs(view, heads, bin, jhead);
      UnwindStep(view, stop);
      DropBlock(m);
    }
  }
}
