/** Where each block comes from and what becomes of it: when memory is mapped, when a block is used again, when one
    grows in place. */
module ArenaExact {
  import opened Arith
  import opened Common
  import opened ArenaModel
  import opened ArenaProofs

  /** Class `c` is the smallest of at least `n` bytes. */
  ghost predicate Serves(c: nat, n: nat) { c < BINS && n <= Cap(c) && forall j: nat | j < c :: Cap(j) < n }

  lemma ServesIs(c: nat, n: nat)
    ensures Serves(c, n) <==> ClassOf(n) == Some(c)
    ensures ClassOf(n).None? <==> forall j: nat | j < BINS :: Cap(j) < n
  {
    ClassIsLeast(n);
    hide Cap;
    if Serves(c, n) && ClassOf(n).Some? {
      var d := ClassOf(n).value;
      assert !(c < d) && !(d < c);
    }
    if ClassOf(n).None? { assert forall j: nat | j < BINS :: Cap(j) < n; }
  }

  function AtLeastOne(n: nat): nat { if n == 0 then 1 else n }

  ghost predicate FreeOf(s: Arena, c: nat, a: nat) { a in s.blk && !s.blk[a].live && s.blk[a].size == Cap(c) }

  /** A free block of class `c` waits in its bin, and nowhere else. */
  lemma FreeInBin(s: Arena, c: nat, a: nat)
    requires Inv(s) && c < BINS
    ensures |s.bins| == BINS
    ensures a in s.bins[c] ==> FreeOf(s, c, a)
    ensures FreeOf(s, c, a) ==> a in s.bins[c]
  {
    CapClass(c);
    if a in s.bins[c] { BinSize(s, c, a); }
    hide Layout, ClassOf, Cap;
  }

  lemma CapClass(c: nat)
    requires c < BINS
    ensures ClassOf(Cap(c)) == Some(c)
  {
    forall j: nat | j < c ensures Cap(j) < Cap(c) { CapGrows(j, c); }
    hide Cap, ClassOf;
    ServesIs(c, Cap(c));
  }

  lemma BinSize(s: Arena, c: nat, a: nat)
    requires Inv(s) && c < BINS && a in s.bins[c]
    ensures FreeOf(s, c, a)
  {
    BinEntry(s, c, a);
    hide *;
    InvBlocks(s);
    KindOf(s, a);
    KindSize(s, c, a);
  }

  lemma BinEntry(s: Arena, c: nat, a: nat)
    requires Inv(s) && c < BINS && a in s.bins[c]
    ensures a in s.blk && !s.blk[a].live && ClassOf(s.blk[a].size) == Some(c)
  {
    hide Layout, ClassOf, Sum, NoDup;
  }

  lemma KindSize(s: Arena, c: nat, a: nat)
    requires a in s.blk && KindOk(s.regions, s.chunk, a, s.blk[a]) && !s.blk[a].live && ClassOf(s.blk[a].size) == Some(c)
    ensures FreeOf(s, c, a)
  {
    hide ClassOf, Cap;
  }

  ghost predicate SomeFree(s: Arena, c: nat) { exists a: nat :: FreeOf(s, c, a) }

  lemma SomeFreeIs(s: Arena, c: nat)
    requires Inv(s) && c < BINS
    ensures |s.bins| == BINS && (SomeFree(s, c) <==> s.bins[c] != [])
    ensures s.bins[c] != [] ==> FreeOf(s, c, s.bins[c][0])
  {
    FreeInBin(s, c, 0);
    hide Inv, FreeOf;
    if SomeFree(s, c) { var a: nat :| FreeOf(s, c, a); FreeInBin(s, c, a); }
    if s.bins[c] != [] { FreeInBin(s, c, s.bins[c][0]); }
  }

  /** `w` bytes are what is mapped for a chunk that must hold `need`: the usual chunk, or, when that is no larger, as
      many pages as hold it. */
  ghost predicate ChunkFor(page: nat, need: nat, w: nat) { if need < CHUNK then w == CHUNK else FirstPage(page, need, w) }

  lemma ChunkForIs(page: nat, need: nat, w: nat)
    requires page > 0
    ensures ChunkFor(page, need, w) <==> w == ChunkSize(page, need)
  {
    CeilFirst(page, need, w);
    hide FirstPage, Ceil;
  }

  /** A new block of class `c` at header `a`. */
  ghost predicate Opens(s: Arena, t: Arena, c: nat, a: nat) {
    t.blk == s.blk[a := Info(Cap(c), false, true)] && t.journal == s.journal + [a] && t.taken == s.taken + Cap(c)
  }

  /** A free block of the class is used again before anything else, then what is left of the chunk, and only then is
      memory mapped. */
  lemma AllocSmall(page: nat, s: Arena, n: nat, at: Option<nat>, c: nat, w: nat)
    requires page > 0 && Inv(s) && Serves(c, AtLeastOne(n)) && ChunkFor(page, Cap(c) + ALIGN, w)
    ensures |s.bins| == BINS
    ensures var (t, r) := Alloc(page, s, n, at); var need := Cap(c) + ALIGN;
            if SomeFree(s, c) then
              r.Some? && FreeOf(s, c, r.value) && Opens(s, t, c, r.value) && t.cur == s.cur && t.end == s.end && t.regions == s.regions && t.mapped == s.mapped
            else if s.end - s.cur >= need then
              r == Some(s.cur) && Opens(s, t, c, s.cur) && t.cur == s.cur + need && t.end == s.end && t.regions == s.regions && t.mapped == s.mapped
            else if at.None? then r == None && t == s
            else
              && r == at && Opens(s, t, c, at.value) && t.cur == at.value + need && t.end == at.value + w
              && t.regions == s.regions[at.value := at.value + w] && t.mapped == s.mapped + w
  {
    hide *;
    var m := AtLeastOne(n);
    AtLeastIs(n);
    ServesBin(c, m);
    ServesIs(c, m);
    SomeFreeIs(s, c);
    ChunkForIs(page, Cap(c) + ALIGN, w);
    AllocCases(page, s, n, c, at);
    if s.bins[c] != [] {
      AllocBin(page, s, m, c, at);
      BinOpens(s, Alloc(page, s, m, at).0, c, s.bins[c][0]);
    } else if s.end - s.cur >= Cap(c) + ALIGN {
      BumpOpens(s, c);
    } else if at.Some? {
      var u := s.(chunk := at.value, cur := at.value, end := at.value + w, regions := s.regions[at.value := at.value + w], mapped := s.mapped + w);
      BumpOpens(u, c);
      OpensSame(s, u, Bump(u, Cap(c)).0, c, at.value);
    }
  }

  lemma ServesBin(c: nat, n: nat)
    requires Serves(c, n)
    ensures c < BINS
  {
  }

  lemma BinOpens(s: Arena, t: Arena, c: nat, a: nat)
    requires t == s.(blk := s.blk[a := Info(Cap(c), false, true)], journal := s.journal + [a], bins := t.bins, taken := s.taken + Cap(c))
    ensures Opens(s, t, c, a)
  {
  }

  lemma BumpOpens(s: Arena, c: nat)
    ensures var (t, a) := Bump(s, Cap(c));
            && a == s.cur && Opens(s, t, c, a) && t.cur == s.cur + (Cap(c) + ALIGN) && t.end == s.end && t.regions == s.regions && t.mapped == s.mapped
  {
  }

  lemma OpensSame(s: Arena, u: Arena, t: Arena, c: nat, a: nat)
    requires Opens(u, t, c, a) && u.blk == s.blk && u.journal == s.journal && u.taken == s.taken
    ensures Opens(s, t, c, a)
  {
  }

  /** A request past every class gets whole pages of its own. */
  lemma AllocLarge(page: nat, s: Arena, n: nat, at: Option<nat>, w: nat)
    requires page > 0 && |s.bins| == BINS && (forall j: nat | j < BINS :: Cap(j) < AtLeastOne(n)) && FirstPage(page, AtLeastOne(n) + ALIGN, w)
    ensures var (t, r) := Alloc(page, s, n, at);
            if at.None? then r == None && t == s
            else
              && r == at && t == s.(blk := s.blk[at.value := Info(w, true, true)], journal := s.journal + [at.value],
                                    regions := s.regions[at.value := at.value + w], taken := s.taken + w, mapped := s.mapped + w)
  {
    var m := AtLeastOne(n);
    ServesIs(0, m);
    CeilFirst(page, m + ALIGN, w);
    hide Cap, ClassOf, Ceil, FirstPage;
    assert Alloc(page, s, n, at) == Alloc(page, s, m, at);
    if at.Some? { AllocBig(page, s, m, at.value); }
  }

  /** A block too big for a class is unmapped when it is dropped; any other stays, free. */
  lemma DropExact(s: Arena, a: nat)
    requires Inv(s) && a in s.blk && s.blk[a].live
    ensures |s.bins| == BINS
    ensures s.blk[a].big ==> a in s.regions && a !in Drop(s, a).blk && Drop(s, a).regions == Cut(s.regions, a) && Drop(s, a).bins == s.bins
    ensures !s.blk[a].big ==> Drop(s, a).blk == s.blk[a := s.blk[a].(live := false)] && Drop(s, a).regions == s.regions
    ensures Drop(s, a).cur == s.cur && Drop(s, a).end == s.end && Drop(s, a).journal == Without(s.journal, a)
    ensures s.taken >= s.blk[a].size && Drop(s, a).taken == s.taken - s.blk[a].size
  {
    hide *;
    InvParts(s, 0);
    InvBlocks(s);
    OnJournal(s, a);
    SumWithout(s.blk, s.journal, a);
    KindOf(s, a);
    if s.blk[a].big { KindRegion(s.regions, s.chunk, a, s.blk[a]); }
    DropIs(s, a);
  }

  lemma InvBlocks(s: Arena)
    requires Inv(s)
    ensures Blocks(s) && Lists(s)
  {
    hide Blocks, Lists, Sum;
  }

  lemma KindRegion(regions: map<nat, nat>, chunk: nat, a: nat, i: Info)
    requires KindOk(regions, chunk, a, i) && i.big
    ensures a in regions
  {
  }

  /** The block dropped last is the first to be used again. */
  lemma ReuseLast(page: nat, s: Arena, a: nat, n: nat, at: Option<nat>)
    requires page > 0 && Inv(s) && a in s.blk && s.blk[a].live && !s.blk[a].big && ClassOf(AtLeastOne(n)) == ClassOf(s.blk[a].size)
    ensures |s.bins| == |Drop(s, a).bins| == BINS && Alloc(page, Drop(s, a), n, at).1 == Some(a)
  {
    hide *;
    InvParts(s, 0);
    InvBlocks(s);
    OnJournal(s, a);
    SumWithout(s.blk, s.journal, a);
    KindOf(s, a);
    DropIs(s, a);
    var t, c := Drop(s, a), ClassOf(s.blk[a].size).value;
    assert t.bins[c][0] == a;
    AtLeastIs(n);
    AllocCases(page, t, n, c, at);
    AllocBin(page, t, AtLeastOne(n), c, at);
  }

  lemma AtLeastIs(n: nat)
    ensures AtLeastOne(n) == (if n == 0 then 1 else n) > 0
  {
  }

  /** A block that holds `n` bytes already stays; the last block of the chunk grows where it stands if its new class
      fits there; and any other request is an allocation. */
  lemma GrowExact(page: nat, s: Arena, a: nat, n: nat, at: Option<nat>, c: nat)
    requires page > 0 && |s.bins| == BINS && a in s.blk && (Serves(c, n) || forall j: nat :: !Serves(j, n))
    ensures var i := s.blk[a];
            Grow(page, s, a, n, at) ==
              if n <= (if i.big then i.size - ALIGN else i.size) then (s, Some(a))
              else if !i.big && Serves(c, n) && a + ALIGN + i.size == s.cur && a + ALIGN + Cap(c) <= s.end
              then (s.(blk := s.blk[a := i.(size := Cap(c))], cur := a + ALIGN + Cap(c), taken := s.taken + if Cap(c) >= i.size then Cap(c) - i.size else 0), Some(a))
              else Alloc(page, s, n, at)
  {
    ServesIs(c, n);
    if ClassOf(n).Some? { ServesIs(ClassOf(n).value, n); }
    hide Cap, ClassOf, Serves, Alloc;
  }
}
