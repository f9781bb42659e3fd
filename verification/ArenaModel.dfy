/** The segregated-fit arena as a value: which blocks exist, which are live, and in what order.
    A block is named by the address of its header; its payload starts `ALIGN` bytes later. */
module ArenaModel {
  import opened Arith
  import opened Common

  const ALIGN: nat := 32
  const BINS: nat := 20
  const CHUNK: nat := 0x40_0000

  /** `size` is the payload of a binned block and the whole mapping of a big one. */
  datatype Info = Info(size: nat, big: bool, live: bool)

  /** `journal` lists the live blocks, oldest first; `bins[c]` the free blocks of class `c`, next one
      out first. `[cur, end)` is what is left of the chunk at `chunk`. `regions` maps the start of
      every mapping to its end. */
  datatype Arena = Arena(
    blk: map<nat, Info>,
    journal: seq<nat>,
    bins: seq<seq<nat>>,
    chunk: nat, cur: nat, end: nat,
    regions: map<nat, nat>,
    taken: nat,
    mapped: nat)

  // ---------------------------------------------------------------- size classes

  /** Payload bytes of class `c`. */
  function Cap(c: nat): (r: nat)
    ensures r >= 16
  {
    16 * Pow2(c)
  }

  function ClassFrom(n: nat, i: nat): Option<nat>
    decreases BINS - i
  {
    if i >= BINS then None else if n <= Cap(i) then Some(i) else ClassFrom(n, i + 1)
  }

  /** The class that serves `n` bytes, when one does. */
  function ClassOf(n: nat): Option<nat> { ClassFrom(n, 0) }

  lemma {:induction false} CapGrows(i: nat, j: nat)
    requires i < j
    ensures Cap(i) < Cap(j)
    decreases j
  {
    if i + 1 < j { CapGrows(i, j - 1); }
  }

  lemma {:induction false} ClassFromLeast(n: nat, i: nat)
    requires i <= BINS
    ensures match ClassFrom(n, i)
            case Some(c) => i <= c < BINS && n <= Cap(c) && forall j | i <= j < c :: Cap(j) < n
            case None => forall j | i <= j < BINS :: Cap(j) < n
    decreases BINS - i
  {
    if i < BINS { ClassFromLeast(n, i + 1); }
  }

  /** The class is the smallest that fits, and a block's own size leads back to its class. */
  lemma ClassIsLeast(n: nat)
    ensures match ClassOf(n)
            case Some(c) => c < BINS && n <= Cap(c) && (forall j | 0 <= j < c :: Cap(j) < n) && ClassOf(Cap(c)) == Some(c)
            case None => forall j | 0 <= j < BINS :: Cap(j) < n
  {
    ClassFromLeast(n, 0);
    if ClassOf(n).Some? {
      var c := ClassOf(n).value;
      ClassFromLeast(Cap(c), 0);
      forall j | 0 <= j < c ensures Cap(j) < Cap(c) { CapGrows(j, c); }
    }
  }

  // ---------------------------------------------------------------- layout

  /** The end of the block at `a`, header included. */
  function EndOf(a: nat, i: Info): nat { if i.big then a + i.size else a + ALIGN + i.size }

  /** Payload bytes a client may use. */
  function Room(i: Info): int { if i.big then i.size - ALIGN else i.size }

  ghost predicate Apart(a: nat, b: nat, c: nat, d: nat) { b <= c || d <= a }

  ghost predicate InRegion(regions: map<nat, nat>, lo: nat, hi: nat) {
    exists r :: r in regions && r <= lo && hi <= regions[r]
  }

  function Sum(blk: map<nat, Info>, s: seq<nat>): nat {
    if s == [] then 0 else (if s[|s| - 1] in blk then blk[s[|s| - 1]].size else 0) + Sum(blk, s[..|s| - 1])
  }

  /** A big block is a live mapping of its own; any other has the size of its class. */
  ghost predicate KindOk(regions: map<nat, nat>, chunk: nat, a: nat, i: Info) {
    if i.big then i.live && i.size > ALIGN && a in regions && regions[a] == a + i.size && a != chunk
    else ClassOf(i.size).Some? && Cap(ClassOf(i.size).value) == i.size
  }

  ghost predicate BlockOk(s: Arena, a: nat, i: Info) {
    && a > 0 && KindOk(s.regions, s.chunk, a, i)
    && InRegion(s.regions, a, EndOf(a, i))
    && Apart(a, EndOf(a, i), s.cur, s.end)
  }

  ghost predicate PairsApart(blk: map<nat, Info>) {
    forall a, b | a in blk && b in blk && a != b :: Apart(a, EndOf(a, blk[a]), b, EndOf(b, blk[b]))
  }

  ghost predicate RegionsApart(regions: map<nat, nat>) {
    && (forall r | r in regions :: 0 < r < regions[r])
    && (forall r, q | r in regions && q in regions && r != q :: Apart(r, regions[r], q, regions[q]))
  }

  /** Blocks lie inside mapped memory, apart from one another and from the rest of the chunk. */
  ghost predicate Blocks(s: Arena) {
    && (forall a | a in s.blk :: BlockOk(s, a, s.blk[a]))
    && PairsApart(s.blk)
    && RegionsApart(s.regions)
  }

  ghost predicate ChunkOk(s: Arena) {
    if s.chunk == 0 then s.cur == s.end == 0 else s.chunk in s.regions && s.regions[s.chunk] == s.end && s.chunk < s.cur <= s.end
  }

  ghost predicate Layout(s: Arena) { Blocks(s) && ChunkOk(s) }

  /** The journal holds each live block once; each free block sits once in the bin of its class. */
  ghost predicate Lists(s: Arena) {
    && NoDup(s.journal) && (forall a :: a in s.journal <==> a in s.blk && s.blk[a].live)
    && |s.bins| == BINS
    && (forall c | 0 <= c < BINS :: NoDup(s.bins[c]))
    && (forall c, a | 0 <= c < BINS :: a in s.bins[c] <==> a in s.blk && !s.blk[a].live && ClassOf(s.blk[a].size) == Some(c))
  }

  ghost predicate Inv(s: Arena) { Layout(s) && Lists(s) && s.taken == Sum(s.blk, s.journal) }

  // ---------------------------------------------------------------- operations

  /** The system may map memory only where none is mapped. */
  ghost predicate Fresh(s: Arena, at: Option<nat>, size: nat) {
    at.Some? ==> at.value > 0 && forall r | r in s.regions :: Apart(r, s.regions[r], at.value, at.value + size)
  }

  function BigSize(page: nat, n: nat): nat
    requires page > 0
  {
    Ceil(page, n + ALIGN)
  }

  function ChunkSize(page: nat, need: nat): nat
    requires page > 0
  {
    if CHUNK > need then CHUNK else Ceil(page, need)
  }

  /** Bytes an allocation asks the system for, 0 when it needs none. */
  function Wanted(page: nat, s: Arena, n0: nat): nat
    requires page > 0 && |s.bins| == BINS
  {
    var n := if n0 == 0 then 1 else n0;
    match ClassOf(n)
    case None => BigSize(page, n)
    case Some(c) =>
      var need := Cap(c) + ALIGN;
      if c < BINS && s.bins[c] == [] && s.end - s.cur < need then ChunkSize(page, need) else 0
  }

  /** Take `need` bytes off the chunk. */
  function Bump(s: Arena, cap: nat): (Arena, nat) {
    (s.(blk := s.blk[s.cur := Info(cap, false, true)], journal := s.journal + [s.cur], cur := s.cur + cap + ALIGN, taken := s.taken + cap), s.cur)
  }

  /** `None`: no memory. The other component is the header of the new block. */
  function Alloc(page: nat, s: Arena, n0: nat, at: Option<nat>): (Arena, Option<nat>)
    requires page > 0 && |s.bins| == BINS
  {
    var n := if n0 == 0 then 1 else n0;
    match ClassOf(n)
    case None =>
      var need := BigSize(page, n);
      if at.None? then (s, None)
      else (s.(blk := s.blk[at.value := Info(need, true, true)], journal := s.journal + [at.value],
               regions := s.regions[at.value := at.value + need], taken := s.taken + need, mapped := s.mapped + need), at)
    case Some(c) =>
      var cap := Cap(c);
      if c < BINS && s.bins[c] != [] then
        var a := s.bins[c][0];
        (s.(blk := s.blk[a := Info(cap, false, true)], journal := s.journal + [a], bins := s.bins[c := s.bins[c][1..]], taken := s.taken + cap), Some(a))
      else if s.end - s.cur >= cap + ALIGN then var (t, a) := Bump(s, cap); (t, Some(a))
      else if at.None? then (s, None)
      else
        var want := ChunkSize(page, cap + ALIGN);
        var (t, a) := Bump(s.(chunk := at.value, cur := at.value, end := at.value + want,
                              regions := s.regions[at.value := at.value + want], mapped := s.mapped + want), cap);
        (t, Some(a))
  }

  function Without(s: seq<nat>, a: nat): (r: seq<nat>) {
    if s == [] then [] else if s[|s| - 1] == a then Without(s[..|s| - 1], a) else Without(s[..|s| - 1], a) + [s[|s| - 1]]
  }

  function Cut<V>(m: map<nat, V>, a: nat): (r: map<nat, V>)
    ensures forall x :: x in r <==> x in m && x != a
    ensures forall x | x in r :: r[x] == m[x]
  {
    map x | x in m && x != a :: m[x]
  }

  /** Free the block with header `a`: nothing when it is free already. */
  function Drop(s: Arena, a: nat): Arena
    requires |s.bins| == BINS && a in s.blk
  {
    var i := s.blk[a];
    if !i.live then s
    else if i.big then
      s.(blk := Cut(s.blk, a), journal := Without(s.journal, a),
         regions := Cut(s.regions, a), taken := if s.taken >= i.size then s.taken - i.size else 0)
    else
      match ClassOf(i.size)
      case None => s.(journal := Without(s.journal, a))
      case Some(c) =>
        s.(blk := s.blk[a := i.(live := false)], journal := Without(s.journal, a),
           bins := if c < BINS then s.bins[c := [a] + s.bins[c]] else s.bins, taken := if s.taken >= i.size then s.taken - i.size else 0)
  }

  /** Does the block at `a` end where the chunk's rest begins, with room for class `c` there? */
  predicate CanExtend(s: Arena, a: nat, n: nat)
    requires a in s.blk
  {
    !s.blk[a].big && ClassOf(n).Some? && a + ALIGN + s.blk[a].size == s.cur && s.end - (a + ALIGN) >= Cap(ClassOf(n).value)
  }

  /** The chunk's last block resized to `cap` where it stands. */
  function Extended(s: Arena, a: nat, cap: nat): Arena
    requires a in s.blk
  {
    s.(blk := s.blk[a := s.blk[a].(size := cap)], cur := a + ALIGN + cap, taken := s.taken + (if cap >= s.blk[a].size then cap - s.blk[a].size else 0))
  }

  /** `None` in the second place: no memory. */
  function Grow(page: nat, s: Arena, a: nat, n: nat, at: Option<nat>): (Arena, Option<nat>)
    requires page > 0 && |s.bins| == BINS && a in s.blk
  {
    var i := s.blk[a];
    if n <= Room(i) then (s, Some(a))
    else if CanExtend(s, a, n) then
      var cap := Cap(ClassOf(n).value);
      (Extended(s, a, cap), Some(a))
    else Alloc(page, s, n, at)
  }

  /** Drop the newest block until the newest is `m`, then `m`. */
  function Unwind(s: Arena, m: nat): Arena
    requires |s.bins| == BINS
    decreases |s.journal|
  {
    if s.journal == [] then s
    else
      var a := s.journal[|s.journal| - 1];
      if a !in s.blk || !s.blk[a].live || |Without(s.journal, a)| >= |s.journal| then s
      else
        var t := Drop(s, a);
        if a == m || |t.journal| >= |s.journal| || |t.bins| != BINS then t else Unwind(t, m)
  }

  /** A mark that is not on the journal is ignored. */
  function Release(s: Arena, m: nat): Arena
    requires |s.bins| == BINS
  {
    if m in s.journal then Unwind(s, m) else s
  }
}
