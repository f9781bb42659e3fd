/** Every arena operation keeps blocks apart, lists exact and the account balanced. */
module ArenaProofs {
  import opened Common
  import opened ArenaModel

  // ---------------------------------------------------------------- lists of addresses

  lemma {:induction false} WithoutExact(s: seq<nat>, a: nat)
    ensures forall x :: x in Without(s, a) <==> x in s && x != a
    ensures NoDup(s) ==> NoDup(Without(s, a)) && |Without(s, a)| == |s| - (if a in s then 1 else 0)
  {
    if s != [] {
      var rest, last := s[..|s| - 1], s[|s| - 1];
      assert s == rest + [last];
      WithoutExact(rest, a);
      var w := Without(rest, a);
      assert forall x :: x in w + [last] <==> x in w || x == last;
      if NoDup(s) {
        assert NoDup(rest);
        assert last !in rest;
      }
    }
  }

  lemma {:induction false} SumAgrees(blk: map<nat, Info>, blk': map<nat, Info>, s: seq<nat>)
    requires forall a | a in s :: a in blk && a in blk' && blk[a].size == blk'[a].size
    ensures Sum(blk, s) == Sum(blk', s)
  {
    if s != [] { SumAgrees(blk, blk', s[..|s| - 1]); }
  }

  lemma SumPush(blk: map<nat, Info>, s: seq<nat>, a: nat)
    requires a in blk
    ensures Sum(blk, s + [a]) == Sum(blk, s) + blk[a].size
  {
    assert (s + [a])[..|s|] == s;
  }

  lemma {:induction false} SumWithout(blk: map<nat, Info>, s: seq<nat>, a: nat)
    requires NoDup(s) && a in s && a in blk
    ensures Sum(blk, s) == Sum(blk, Without(s, a)) + blk[a].size
  {
    var rest, last := s[..|s| - 1], s[|s| - 1];
    assert NoDup(rest);
    if last == a {
      assert a !in rest;
      WithoutAbsent(rest, a);
    } else {
      SumWithout(blk, rest, a);
      assert (Without(rest, a) + [last])[..|Without(rest, a)|] == Without(rest, a);
    }
  }

  lemma {:induction false} WithoutAbsent(s: seq<nat>, a: nat)
    requires a !in s
    ensures Without(s, a) == s
  {
    if s != [] { WithoutAbsent(s[..|s| - 1], a); assert s == s[..|s| - 1] + [s[|s| - 1]]; }
  }

  /** Resizing one block of the journal. */
  lemma {:induction false} SumResized(blk: map<nat, Info>, s: seq<nat>, a: nat, i: Info)
    requires NoDup(s) && a in s && a in blk
    ensures Sum(blk[a := i], s) + blk[a].size == Sum(blk, s) + i.size
  {
    var rest, last := s[..|s| - 1], s[|s| - 1];
    assert NoDup(rest);
    if last == a {
      SumOther(blk, rest, a, i);
    } else {
      SumResized(blk, rest, a, i);
    }
  }

  lemma {:induction false} SumOther(blk: map<nat, Info>, s: seq<nat>, a: nat, i: Info)
    requires a !in s
    ensures Sum(blk[a := i], s) == Sum(blk, s)
  {
    if s != [] { SumOther(blk, s[..|s| - 1], a, i); }
  }

  // ---------------------------------------------------------------- allocation

  /** The block at `a` after an allocation: new to the live blocks, big enough, and unchanged elsewhere. */
  ghost predicate Served(s: Arena, t: Arena, a: nat, n: nat) {
    && a in t.blk && t.blk[a].live && Room(t.blk[a]) >= n
    && (a in s.blk ==> !s.blk[a].live)
    && t.journal == s.journal + [a]
    && (forall b | b in s.blk && b != a :: b in t.blk && t.blk[b] == s.blk[b])
    && (forall b | b in t.blk && b != a :: b in s.blk)
  }

  /** An allocation keeps the invariant; it serves a block unless the system gives no memory. */
  ghost predicate Outcome(s: Arena, n: nat, at: Option<nat>, r: (Arena, Option<nat>)) {
    && Inv(r.0)
    && (r.1.None? ==> r.0 == s && at.None?)
    && (r.1.Some? ==> Served(s, r.0, r.1.value, if n == 0 then 1 else n))
  }

  lemma OutcomeServed(s: Arena, n: nat, at: Option<nat>, t: Arena, a: nat)
    requires Inv(t) && Served(s, t, a, if n == 0 then 1 else n)
    ensures Outcome(s, n, at, (t, Some(a)))
  {
  }

  lemma OutcomeNone(s: Arena, n: nat)
    requires Inv(s)
    ensures Outcome(s, n, None, (s, None))
  {
  }

  // ---------------------------------------------------------------- blocks apart

  lemma PairsAdd(blk: map<nat, Info>, a: nat, i: Info)
    requires PairsApart(blk) && a !in blk && forall b | b in blk :: Apart(b, EndOf(b, blk[b]), a, EndOf(a, i))
    ensures PairsApart(blk[a := i])
  {
    var new_ := blk[a := i];
    forall b, d | b in new_ && d in new_ && b != d ensures Apart(b, EndOf(b, new_[b]), d, EndOf(d, new_[d])) {
      if b == a { assert Apart(d, EndOf(d, blk[d]), a, EndOf(a, i)); }
      else if d == a { assert Apart(b, EndOf(b, blk[b]), a, EndOf(a, i)); }
    }
  }

  lemma PairsUpdate(blk: map<nat, Info>, a: nat, i: Info)
    requires PairsApart(blk) && a in blk && forall b | b in blk && b != a :: Apart(b, EndOf(b, blk[b]), a, EndOf(a, i))
    ensures PairsApart(blk[a := i])
  {
    var new_ := blk[a := i];
    forall b, d | b in new_ && d in new_ && b != d ensures Apart(b, EndOf(b, new_[b]), d, EndOf(d, new_[d])) {
      if b == a { assert Apart(d, EndOf(d, blk[d]), a, EndOf(a, i)); }
      else if d == a { assert Apart(b, EndOf(b, blk[b]), a, EndOf(a, i)); }
    }
  }

  lemma RegionsAdd(regions: map<nat, nat>, at: nat, end: nat)
    requires RegionsApart(regions) && at !in regions && 0 < at < end && forall r | r in regions :: Apart(r, regions[r], at, end)
    ensures RegionsApart(regions[at := end])
  {
    var g := regions[at := end];
    forall r, q | r in g && q in g && r != q ensures Apart(r, g[r], q, g[q]) {
      if r == at { assert Apart(q, regions[q], at, end); }
      else if q == at { assert Apart(r, regions[r], at, end); }
    }
  }

  lemma InGrownRegions(regions: map<nat, nat>, at: nat, end: nat, lo: nat, hi: nat)
    requires at !in regions && InRegion(regions, lo, hi)
    ensures InRegion(regions[at := end], lo, hi)
  {
    var r :| r in regions && r <= lo && hi <= regions[r];
    assert r in regions[at := end];
  }

  /** Fresh memory is apart from everything the arena knows. */
  lemma FreshIsNew(s: Arena, at: nat, size: nat)
    requires Layout(s) && size > 0 && Fresh(s, Some(at), size)
    ensures at !in s.blk && at !in s.regions && at != s.chunk && Apart(s.cur, s.end, at, at + size)
    ensures forall a | a in s.blk :: Apart(a, EndOf(a, s.blk[a]), at, at + size)
  {
    forall a | a in s.blk ensures Apart(a, EndOf(a, s.blk[a]), at, at + size) && a != at {
      assert BlockOk(s, a, s.blk[a]);
      var r :| r in s.regions && r <= a && EndOf(a, s.blk[a]) <= s.regions[r];
      assert Apart(r, s.regions[r], at, at + size);
    }
    assert s.chunk != 0 ==> Apart(s.chunk, s.regions[s.chunk], at, at + size);
    forall r | r in s.regions ensures r != at { assert Apart(r, s.regions[r], at, at + size); }
  }

  /** A block stays fine when regions are added and the rest of the chunk moves elsewhere. */
  lemma BlockStays(s: Arena, t: Arena, a: nat, at: nat, end: nat)
    requires a in s.blk && BlockOk(s, a, s.blk[a]) && at !in s.regions && t.regions == s.regions[at := end]
    requires t.chunk == s.chunk || t.chunk == at
    requires Apart(a, EndOf(a, s.blk[a]), t.cur, t.end)
    ensures BlockOk(t, a, s.blk[a])
  {
    hide ClassOf, Cap;
    InGrownRegions(s.regions, at, end, a, EndOf(a, s.blk[a]));
    hide InRegion;
  }

  // ---------------------------------------------------------------- big blocks

  lemma BigLayout(s: Arena, t: Arena, at: nat, size: nat)
    requires Layout(s) && at > 0 && size > ALIGN && Fresh(s, Some(at), size)
    requires t.blk == s.blk[at := Info(size, true, true)] && t.regions == s.regions[at := at + size]
    requires t.chunk == s.chunk && t.cur == s.cur && t.end == s.end
    ensures Layout(t) && at !in s.blk
  {
    FreshIsNew(s, at, size);
    PairsAdd(s.blk, at, t.blk[at]);
    RegionsAdd(s.regions, at, at + size);
    forall a | a in t.blk ensures BlockOk(t, a, t.blk[a]) { if a == at { BigBlockOk(t, at); } else { OldBlockOk(s, t, a, at, size); } }
    hide PairsApart, RegionsApart, BlockOk, Fresh;
  }

  lemma BigBlockOk(t: Arena, at: nat)
    requires at > 0 && at in t.blk && t.blk[at].big && t.blk[at].live && t.blk[at].size > ALIGN
    requires at in t.regions && t.regions[at] == at + t.blk[at].size && at != t.chunk && Apart(t.cur, t.end, at, at + t.blk[at].size)
    ensures BlockOk(t, at, t.blk[at])
  {
  }

  lemma OldBlockOk(s: Arena, t: Arena, a: nat, at: nat, size: nat)
    requires Layout(s) && a in s.blk && at !in s.regions && t.regions == s.regions[at := at + size]
    requires t.chunk == s.chunk && t.cur == s.cur && t.end == s.end
    ensures BlockOk(t, a, s.blk[a])
  {
    assert BlockOk(s, a, s.blk[a]);
    BlockStays(s, t, a, at, at + size);
  }

  lemma BigLists(s: Arena, t: Arena, at: nat, i: Info)
    requires Lists(s) && at !in s.blk && i.live && t.blk == s.blk[at := i] && t.journal == s.journal + [at] && t.bins == s.bins
    ensures Lists(t)
  {
    hide ClassOf;
    assert forall x :: x in t.journal <==> x in s.journal || x == at;
  }

  lemma AllocBig(page: nat, s: Arena, n: nat, at: nat)
    requires page > 0 && n > 0 && ClassOf(n).None? && |s.bins| == BINS
    ensures var need := BigSize(page, n);
            && need >= n + ALIGN
            && Alloc(page, s, n, Some(at)) ==
                (s.(blk := s.blk[at := Info(need, true, true)], journal := s.journal + [at],
                    regions := s.regions[at := at + need], taken := s.taken + need, mapped := s.mapped + need), Some(at))
  {
  }

  lemma ServedNew(s: Arena, t: Arena, a: nat, i: Info, n: nat)
    requires a !in s.blk && i.live && Room(i) >= n && t.blk == s.blk[a := i] && t.journal == s.journal + [a]
    ensures Served(s, t, a, n)
  {
  }

  lemma BigKeeps(page: nat, s: Arena, n: nat, at: nat)
    requires page > 0 && Inv(s) && |s.bins| == BINS && n > 0 && ClassOf(n).None? && Fresh(s, Some(at), BigSize(page, n))
    ensures Inv(Alloc(page, s, n, Some(at)).0) && Served(s, Alloc(page, s, n, Some(at)).0, at, n) && Alloc(page, s, n, Some(at)).1 == Some(at)
  {
    hide *;
    var need := BigSize(page, n);
    var t := Alloc(page, s, n, Some(at)).0;
    AllocBig(page, s, n, at);
    InvParts(s, 0);
    BigLayout(s, t, at, need) by { FreshPositive(s, at, need); }
    BigLists(s, t, at, t.blk[at]);
    NotLive(s, at);
    SumOther(s.blk, s.journal, at, t.blk[at]);
    SumPush(t.blk, s.journal, at);
    ServedNew(s, t, at, t.blk[at], n) by { RoomOfBig(need); }
    InvOf(t);
  }

  lemma FreshPositive(s: Arena, at: nat, size: nat)
    requires Fresh(s, Some(at), size)
    ensures at > 0
  {
  }

  lemma RoomOfBig(need: nat)
    ensures Room(Info(need, true, true)) == need - ALIGN
  {
  }

  lemma InvOf(t: Arena)
    requires Layout(t) && Lists(t) && t.taken == Sum(t.blk, t.journal)
    ensures Inv(t)
  {
  }

  // ---------------------------------------------------------------- recycled blocks

  lemma RelabelLayout(s: Arena, t: Arena, a: nat, live: bool)
    requires Layout(s) && a in s.blk && !s.blk[a].big && t.blk == s.blk[a := s.blk[a].(live := live)]
    requires t.regions == s.regions && t.chunk == s.chunk && t.cur == s.cur && t.end == s.end
    ensures Layout(t)
  {
    hide ClassOf, Cap, InRegion;
    forall b | b in s.blk && b != a ensures Apart(b, EndOf(b, s.blk[b]), a, EndOf(a, t.blk[a])) {
      assert Apart(b, EndOf(b, s.blk[b]), a, EndOf(a, s.blk[a]));
    }
    PairsUpdate(s.blk, a, t.blk[a]);
    hide PairsApart;
    forall b | b in t.blk ensures BlockOk(t, b, t.blk[b]) { assert BlockOk(s, b, s.blk[b]); }
  }

  lemma BinLists(s: Arena, t: Arena, a: nat, c: nat)
    requires Lists(s) && c < BINS && s.bins[c] != [] && a == s.bins[c][0] && a in s.blk && s.blk[a].size == Cap(c)
    requires t.blk == s.blk[a := Info(Cap(c), false, true)] && t.journal == s.journal + [a] && t.bins == s.bins[c := s.bins[c][1..]]
    ensures Lists(t)
  {
    hide ClassOf, Cap;
    var rest := s.bins[c][1..];
    assert s.bins[c] == [a] + rest;
    assert a !in rest by { assert forall k | 0 <= k < |rest| :: rest[k] == s.bins[c][k + 1]; }
    assert forall x :: x in s.bins[c] <==> x == a || x in rest;
    assert a in s.bins[c];
  }

  lemma BinMember(s: Arena, c: nat)
    requires Lists(s) && c < BINS && s.bins[c] != []
    ensures var a := s.bins[c][0]; a in s.blk && !s.blk[a].live && ClassOf(s.blk[a].size) == Some(c)
  {
    hide ClassOf;
    assert s.bins[c][0] in s.bins[c];
  }

  lemma BinHead(s: Arena, c: nat)
    requires Blocks(s) && Lists(s) && |s.bins| == BINS && c < BINS && s.bins[c] != []
    ensures s.bins[c][0] in s.blk && s.blk[s.bins[c][0]] == Info(Cap(c), false, false)
  {
    hide Lists, Blocks, ClassOf, Cap;
    BinMember(s, c);
    KindOf(s, s.bins[c][0]);
  }

  lemma AllocBin(page: nat, s: Arena, n: nat, c: nat, at: Option<nat>)
    requires page > 0 && n > 0 && |s.bins| == BINS && ClassOf(n) == Some(c) && c < BINS && s.bins[c] != []
    ensures var a := s.bins[c][0];
            Alloc(page, s, n, at) == (s.(blk := s.blk[a := Info(Cap(c), false, true)], journal := s.journal + [a], bins := s.bins[c := s.bins[c][1..]], taken := s.taken + Cap(c)), Some(a))
  {
  }

  lemma ServedAgain(s: Arena, t: Arena, a: nat, n: nat)
    requires a in s.blk && !s.blk[a].live && !s.blk[a].big && s.blk[a].size >= n
    requires t.blk == s.blk[a := s.blk[a].(live := true)] && t.journal == s.journal + [a]
    ensures Served(s, t, a, n)
  {
  }

  lemma BinKeeps(page: nat, s: Arena, n: nat, c: nat, at: Option<nat>)
    requires page > 0 && Inv(s) && |s.bins| == BINS && n > 0 && ClassOf(n) == Some(c) && c < BINS && s.bins[c] != []
    ensures Inv(Alloc(page, s, n, at).0) && Served(s, Alloc(page, s, n, at).0, s.bins[c][0], n)
    ensures Alloc(page, s, n, at).1 == Some(s.bins[c][0])
  {
    hide *;
    var a, cap := s.bins[c][0], Cap(c);
    var t := Alloc(page, s, n, at).0;
    AllocBin(page, s, n, c, at);
    ClassIsLeast(n);
    InvParts(s, 0);
    BinHead(s, c);
    RelabelLayout(s, t, a, true);
    BinLists(s, t, a, c);
    NotLive(s, a);
    SumOther(s.blk, s.journal, a, t.blk[a]);
    SumPush(t.blk, s.journal, a);
    ServedAgain(s, t, a, n);
    InvOf(t);
  }

  lemma NotLive(s: Arena, a: nat)
    requires Lists(s) && (a in s.blk ==> !s.blk[a].live)
    ensures a !in s.journal
  {
  }

  // ---------------------------------------------------------------- the chunk

  ghost predicate HasRoom(s: Arena, need: nat) {
    s.chunk > 0 && s.chunk in s.regions && s.regions[s.chunk] == s.end && s.chunk <= s.cur && s.cur + need <= s.end
  }

  lemma BumpLayout(s: Arena, t: Arena, cap: nat)
    requires Blocks(s) && HasRoom(s, cap + ALIGN) && ClassOf(cap).Some? && Cap(ClassOf(cap).value) == cap
    requires t.blk == s.blk[s.cur := Info(cap, false, true)] && t.regions == s.regions && t.chunk == s.chunk && t.end == s.end && t.cur == s.cur + cap + ALIGN
    ensures Layout(t) && s.cur !in s.blk
  {
    var a := s.cur;
    hide ClassOf, Cap;
    forall b | b in s.blk ensures Apart(b, EndOf(b, s.blk[b]), a, a + ALIGN + cap) && b != a && BlockOk(t, b, s.blk[b]) {
      assert BlockOk(s, b, s.blk[b]);
    }
    PairsAdd(s.blk, a, t.blk[a]);
    hide PairsApart, RegionsApart;
    assert BlockOk(t, a, t.blk[a]);
  }

  lemma BumpIs(s: Arena, cap: nat)
    ensures Bump(s, cap) == (s.(blk := s.blk[s.cur := Info(cap, false, true)], journal := s.journal + [s.cur], cur := s.cur + cap + ALIGN, taken := s.taken + cap), s.cur)
    ensures Room(Info(cap, false, true)) == cap
  {
  }

  lemma BumpKeeps(s: Arena, c: nat)
    requires Blocks(s) && Lists(s) && s.taken == Sum(s.blk, s.journal) && HasRoom(s, Cap(c) + ALIGN) && c < BINS && ClassOf(Cap(c)) == Some(c)
    ensures var (t, a) := Bump(s, Cap(c)); Inv(t) && Served(s, t, a, Cap(c)) && a == s.cur
  {
    hide *;
    var (t, a) := Bump(s, Cap(c));
    BumpIs(s, Cap(c));
    BumpLayout(s, t, Cap(c));
    BigLists(s, t, a, t.blk[a]);
    NotLive(s, a);
    SumOther(s.blk, s.journal, a, t.blk[a]);
    SumPush(t.blk, s.journal, a);
    ServedNew(s, t, a, t.blk[a], Cap(c));
    InvOf(t);
  }

  /** Mapping a new chunk. */
  lemma ChunkKeeps(s: Arena, t: Arena, at: nat, want: nat)
    requires Layout(s) && want > 0 && Fresh(s, Some(at), want)
    requires t == s.(chunk := at, cur := at, end := at + want, regions := s.regions[at := at + want], mapped := s.mapped + want)
    ensures Blocks(t) && HasRoom(t, want)
  {
    FreshIsNew(s, at, want);
    FreshAt(s, at, want);
    RegionsAdd(s.regions, at, at + want);
    hide PairsApart, RegionsApart, BlockOk, Fresh, Apart;
    forall a | a in t.blk ensures BlockOk(t, a, t.blk[a]) { ChunkBlock(s, t, a, at, want); }
  }

  lemma FreshAt(s: Arena, at: nat, size: nat)
    requires Layout(s) && Fresh(s, Some(at), size)
    ensures at > 0 && RegionsApart(s.regions) && forall r | r in s.regions :: Apart(r, s.regions[r], at, at + size)
  {
  }

  lemma ChunkBlock(s: Arena, t: Arena, a: nat, at: nat, want: nat)
    requires Blocks(s) && a in s.blk && at !in s.regions && Apart(a, EndOf(a, s.blk[a]), at, at + want)
    requires t == s.(chunk := at, cur := at, end := at + want, regions := s.regions[at := at + want], mapped := s.mapped + want)
    ensures BlockOk(t, a, s.blk[a])
  {
    assert BlockOk(s, a, s.blk[a]);
    hide *;
    BlockStays(s, t, a, at, at + want);
  }

  /** The three ways a small request is served. */
  lemma AllocCases(page: nat, s: Arena, n: nat, c: nat, at: Option<nat>)
    requires page > 0 && |s.bins| == BINS && ClassOf(if n == 0 then 1 else n) == Some(c) && c < BINS
    ensures s.bins[c] != [] ==> Alloc(page, s, n, at) == Alloc(page, s, if n == 0 then 1 else n, at)
    ensures s.bins[c] == [] && s.end - s.cur >= Cap(c) + ALIGN ==>
              Alloc(page, s, n, at) == (Bump(s, Cap(c)).0, Some(Bump(s, Cap(c)).1))
    ensures s.bins[c] == [] && s.end - s.cur < Cap(c) + ALIGN ==>
              var want := ChunkSize(page, Cap(c) + ALIGN);
              && want >= Cap(c) + ALIGN
              && Wanted(page, s, n) == want
              && Alloc(page, s, n, at) == if at.None? then (s, None) else
                   var u := s.(chunk := at.value, cur := at.value, end := at.value + want, regions := s.regions[at.value := at.value + want], mapped := s.mapped + want);
                   (Bump(u, Cap(c)).0, Some(Bump(u, Cap(c)).1))
  {
  }

  lemma InvParts(s: Arena, need: nat)
    requires Inv(s)
    ensures |s.bins| == BINS && Layout(s) && Blocks(s) && Lists(s) && s.taken == Sum(s.blk, s.journal)
    ensures need > 0 && s.end - s.cur >= need ==> HasRoom(s, need)
  {
    hide Blocks, Sum, ClassOf, NoDup;
  }

  lemma SmallKeeps(page: nat, s: Arena, n: nat, c: nat, at: Option<nat>)
    requires page > 0 && Inv(s) && |s.bins| == BINS && Fresh(s, at, Wanted(page, s, n)) && ClassOf(if n == 0 then 1 else n) == Some(c)
    ensures Outcome(s, n, at, Alloc(page, s, n, at))
  {
    hide *;
    var m := if n == 0 then 1 else n;
    ClassIsLeast(m);
    InvParts(s, Cap(c) + ALIGN);
    AllocCases(page, s, n, c, at);
    if s.bins[c] != [] {
      BinKeeps(page, s, m, c, at);
      OutcomeServed(s, n, at, Alloc(page, s, n, at).0, s.bins[c][0]);
    } else if s.end - s.cur >= Cap(c) + ALIGN {
      BumpKeeps(s, c);
      ServedAtLeast(s, Bump(s, Cap(c)).0, s.cur, Cap(c), m);
      OutcomeServed(s, n, at, Bump(s, Cap(c)).0, s.cur);
    } else if at.Some? {
      NewChunkKeeps(s, c, at.value, ChunkSize(page, Cap(c) + ALIGN), m);
      OutcomeServed(s, n, at, Alloc(page, s, n, at).0, Alloc(page, s, n, at).1.value);
    } else {
      OutcomeNone(s, n);
    }
  }

  /** Opening a chunk leaves blocks, journal and account as they are. */
  lemma ChunkLists(s: Arena, u: Arena)
    requires Inv(s) && u.blk == s.blk && u.journal == s.journal && u.bins == s.bins && u.taken == s.taken
    ensures Layout(s) && Lists(u) && u.taken == Sum(u.blk, u.journal)
  {
    hide Blocks, Sum, ClassOf, Layout, NoDup;
  }

  lemma RoomFor(s: Arena, want: nat, need: nat)
    requires HasRoom(s, want) && need <= want
    ensures HasRoom(s, need)
  {
  }

  lemma NewChunkKeeps(s: Arena, c: nat, at: nat, want: nat, m: nat)
    requires Inv(s) && Fresh(s, Some(at), want) && c < BINS && ClassOf(Cap(c)) == Some(c) && want >= Cap(c) + ALIGN && m <= Cap(c)
    ensures var (t, a) := Bump(s.(chunk := at, cur := at, end := at + want, regions := s.regions[at := at + want], mapped := s.mapped + want), Cap(c));
            Inv(t) && Served(s, t, a, m)
  {
    assert ALIGN > 0;
    hide *;
    var u := s.(chunk := at, cur := at, end := at + want, regions := s.regions[at := at + want], mapped := s.mapped + want);
    var t := Bump(u, Cap(c)).0;
    ChunkLists(s, u);
    ChunkKeeps(s, u, at, want);
    RoomFor(u, want, Cap(c) + ALIGN);
    BumpKeeps(u, c);
    ServedAtLeast(u, t, u.cur, Cap(c), m);
    ServedFrom(s, u, t, u.cur, m);
  }

  lemma ServedAtLeast(s: Arena, t: Arena, a: nat, n: nat, m: nat)
    requires Served(s, t, a, n) && m <= n
    ensures Served(s, t, a, m)
  {
  }

  lemma ServedFrom(s: Arena, u: Arena, t: Arena, a: nat, n: nat)
    requires Served(u, t, a, n) && u.blk == s.blk && u.journal == s.journal
    ensures Served(s, t, a, n)
  {
  }

  lemma AllocKeeps(page: nat, s: Arena, n: nat, at: Option<nat>)
    requires page > 0 && Inv(s) && |s.bins| == BINS && Fresh(s, at, Wanted(page, s, n))
    ensures Outcome(s, n, at, Alloc(page, s, n, at))
  {
    var m := if n == 0 then 1 else n;
    assert ClassOf(m).None? ==> Wanted(page, s, n) == BigSize(page, m) && (at.None? ==> Alloc(page, s, n, at) == (s, None)) && Alloc(page, s, n, at) == Alloc(page, s, m, at);
    hide *;
    if ClassOf(m).Some? {
      SmallKeeps(page, s, n, ClassOf(m).value, at);
    } else if at.Some? {
      assert at == Some(at.value);
      BigKeeps(page, s, m, at.value);
      assert Alloc(page, s, m, at) == (Alloc(page, s, m, at).0, Some(at.value));
      OutcomeServed(s, n, at, Alloc(page, s, m, at).0, at.value);
    } else {
      OutcomeNone(s, n);
    }
  }

  // ---------------------------------------------------------------- freeing

  /** Freeing `a` takes it off the journal and changes no other block. */
  ghost predicate Freed(s: Arena, t: Arena, a: nat) {
    && a in s.blk && s.blk[a].live
    && t.journal == Without(s.journal, a)
    && (a in t.blk ==> !t.blk[a].live)
    && (forall b | b in s.blk && b != a :: b in t.blk && t.blk[b] == s.blk[b])
    && (forall b | b in t.blk :: b in s.blk)
    && t.taken + s.blk[a].size == s.taken
  }

  lemma PairsRemove(blk: map<nat, Info>, a: nat)
    requires PairsApart(blk)
    ensures PairsApart(Cut(blk, a))
  {
  }

  lemma RegionStays(s: Arena, a: nat, b: nat)
    requires a in s.blk && s.blk[a].big && b in s.blk && b != a && BlockOk(s, a, s.blk[a]) && BlockOk(s, b, s.blk[b])
    requires Apart(a, EndOf(a, s.blk[a]), b, EndOf(b, s.blk[b]))
    ensures InRegion(Cut(s.regions, a), b, EndOf(b, s.blk[b]))
  {
    hide ClassOf, Cap;
    var r :| r in s.regions && r <= b && EndOf(b, s.blk[b]) <= s.regions[r];
    assert b < EndOf(b, s.blk[b]);
    assert r != a;
    assert r in Cut(s.regions, a);
  }

  lemma DropBigBlock(s: Arena, t: Arena, a: nat, b: nat)
    requires Layout(s) && a in s.blk && s.blk[a].big && b in s.blk && b != a
    requires t.regions == Cut(s.regions, a) && t.chunk == s.chunk && t.cur == s.cur && t.end == s.end
    ensures BlockOk(t, b, s.blk[b])
  {
    assert BlockOk(s, b, s.blk[b]) && BlockOk(s, a, s.blk[a]) && Apart(a, EndOf(a, s.blk[a]), b, EndOf(b, s.blk[b]));
    hide ClassOf, Cap, Layout;
    RegionStays(s, a, b);
    hide InRegion;
  }

  lemma DropRegion(regions: map<nat, nat>, a: nat)
    requires RegionsApart(regions)
    ensures RegionsApart(Cut(regions, a))
  {
  }

  lemma BigIsNotChunk(s: Arena, a: nat)
    requires Layout(s) && a in s.blk && s.blk[a].big
    ensures a != s.chunk && ChunkOk(s)
  {
    assert BlockOk(s, a, s.blk[a]);
  }

  lemma DropBigLayout(s: Arena, t: Arena, a: nat)
    requires Layout(s) && a in s.blk && s.blk[a].big
    requires t.blk == Cut(s.blk, a) && t.regions == Cut(s.regions, a)
    requires t.chunk == s.chunk && t.cur == s.cur && t.end == s.end
    ensures Layout(t)
  {
    PairsRemove(s.blk, a);
    DropRegion(s.regions, a);
    BigIsNotChunk(s, a);
    hide PairsApart, RegionsApart, BlockOk, Cut;
    forall b | b in t.blk ensures BlockOk(t, b, t.blk[b]) { DropBigBlock(s, t, a, b); }
  }

  lemma DropBigLists(s: Arena, t: Arena, a: nat)
    requires Lists(s) && a in s.blk && s.blk[a].live && t.blk == Cut(s.blk, a)
    requires t.journal == Without(s.journal, a) && t.bins == s.bins
    ensures Lists(t)
  {
    hide ClassOf, Without;
    WithoutExact(s.journal, a);
  }

  lemma DropBinLists(s: Arena, t: Arena, a: nat, c: nat)
    requires Lists(s) && a in s.blk && s.blk[a].live && ClassOf(s.blk[a].size) == Some(c) && c < BINS
    requires t.blk == s.blk[a := s.blk[a].(live := false)] && t.journal == Without(s.journal, a) && t.bins == s.bins[c := [a] + s.bins[c]]
    ensures Lists(t)
  {
    hide ClassOf, Without;
    WithoutExact(s.journal, a);
    var b := s.bins[c];
    assert a !in b;
    assert forall x :: x in [a] + b <==> x == a || x in b;
  }

  lemma KindOf(s: Arena, a: nat)
    requires Blocks(s) && a in s.blk
    ensures KindOk(s.regions, s.chunk, a, s.blk[a])
    ensures !s.blk[a].big ==> ClassOf(s.blk[a].size).Some? && ClassOf(s.blk[a].size).value < BINS
  {
    assert BlockOk(s, a, s.blk[a]);
    hide Blocks, ClassOf, Cap;
    ClassIsLeast(s.blk[a].size);
  }

  lemma DropIs(s: Arena, a: nat)
    requires |s.bins| == BINS && a in s.blk && s.blk[a].live && s.taken >= s.blk[a].size
    requires !s.blk[a].big ==> ClassOf(s.blk[a].size).Some? && ClassOf(s.blk[a].size).value < BINS
    ensures s.blk[a].big ==>
              (Drop(s, a) == s.(blk := Cut(s.blk, a), journal := Without(s.journal, a), regions := Cut(s.regions, a), taken := s.taken - s.blk[a].size))
    ensures !s.blk[a].big ==>
              var c := ClassOf(s.blk[a].size).value;
              (Drop(s, a) == s.(blk := s.blk[a := s.blk[a].(live := false)], journal := Without(s.journal, a),
                                bins := s.bins[c := [a] + s.bins[c]], taken := s.taken - s.blk[a].size))
  {
    hide ClassOf, Cut, Without;
  }

  /** Freeing a live block keeps the invariant and settles the account. */
  lemma DropKeeps(s: Arena, a: nat)
    requires Inv(s) && |s.bins| == BINS && a in s.blk && s.blk[a].live
    ensures Inv(Drop(s, a)) && Freed(s, Drop(s, a), a)
  {
    hide *;
    InvParts(s, 0);
    OnJournal(s, a);
    SumWithout(s.blk, s.journal, a);
    KindOf(s, a);
    DropIs(s, a);
    var t := Drop(s, a);
    WithoutExact(s.journal, a);
    if s.blk[a].big {
      DropBigLayout(s, t, a);
      DropBigLists(s, t, a);
    } else {
      RelabelLayout(s, t, a, false);
      DropBinLists(s, t, a, ClassOf(s.blk[a].size).value);
    }
    SumAfterDrop(s, t, a);
    InvOf(t);
    FreedOf(s, t, a);
  }

  lemma OnJournal(s: Arena, a: nat)
    requires Lists(s) && a in s.blk && s.blk[a].live
    ensures a in s.journal && NoDup(s.journal)
  {
  }

  lemma SumAfterDrop(s: Arena, t: Arena, a: nat)
    requires Lists(s) && Lists(t) && t.journal == Without(s.journal, a) && a in s.blk && s.blk[a].live && s.taken == Sum(s.blk, s.journal)
    requires forall b | b in t.blk :: b in s.blk && t.blk[b].size == s.blk[b].size
    requires t.taken + s.blk[a].size == s.taken
    ensures t.taken == Sum(t.blk, t.journal)
  {
    OnJournal(s, a);
    hide ClassOf, Sum, Without;
    SumWithout(s.blk, s.journal, a);
    SumAgrees(s.blk, t.blk, t.journal);
  }

  lemma FreedOf(s: Arena, t: Arena, a: nat)
    requires a in s.blk && s.blk[a].live && t.journal == Without(s.journal, a) && t.taken + s.blk[a].size == s.taken
    requires t.blk == Cut(s.blk, a) || t.blk == s.blk[a := s.blk[a].(live := false)]
    ensures Freed(s, t, a)
  {
  }

  // ---------------------------------------------------------------- growing

  lemma ExtendRegion(s: Arena, a: nat, end: nat)
    requires Layout(s) && a in s.blk && !s.blk[a].big && EndOf(a, s.blk[a]) == s.cur && end <= s.end && s.chunk > 0
    ensures InRegion(s.regions, a, end)
  {
    assert BlockOk(s, a, s.blk[a]);
    var r :| r in s.regions && r <= a && EndOf(a, s.blk[a]) <= s.regions[r];
    assert r != s.chunk ==> Apart(r, s.regions[r], s.chunk, s.end);
  }

  lemma ExtendApart(s: Arena, a: nat, b: nat, end: nat)
    requires Layout(s) && a in s.blk && EndOf(a, s.blk[a]) == s.cur && s.cur < end <= s.end && b in s.blk && b != a
    ensures Apart(b, EndOf(b, s.blk[b]), a, end) && Apart(b, EndOf(b, s.blk[b]), end, s.end)
  {
    assert BlockOk(s, b, s.blk[b]);
    assert Apart(b, EndOf(b, s.blk[b]), a, EndOf(a, s.blk[a]));
  }

  lemma ExtendLayout(s: Arena, t: Arena, a: nat, cap: nat)
    requires Layout(s) && a in s.blk && !s.blk[a].big && EndOf(a, s.blk[a]) == s.cur && s.cur < a + ALIGN + cap <= s.end && s.chunk > 0
    requires ClassOf(cap).Some? && Cap(ClassOf(cap).value) == cap
    requires t.blk == s.blk[a := s.blk[a].(size := cap)] && t.regions == s.regions && t.chunk == s.chunk && t.end == s.end && t.cur == a + ALIGN + cap
    ensures Layout(t)
  {
    ExtendRegion(s, a, t.cur);
    forall b | b in s.blk && b != a ensures Apart(b, EndOf(b, s.blk[b]), a, EndOf(a, t.blk[a])) && Apart(b, EndOf(b, s.blk[b]), t.cur, t.end) { ExtendApart(s, a, b, t.cur); }
    PairsUpdate(s.blk, a, t.blk[a]);
    hide PairsApart, RegionsApart, ClassOf, Cap, InRegion;
    forall b | b in t.blk ensures BlockOk(t, b, t.blk[b]) { assert BlockOk(s, b, s.blk[b]); }
  }

  lemma ExtendLists(s: Arena, t: Arena, a: nat, cap: nat)
    requires Lists(s) && a in s.blk && s.blk[a].live && t.blk == s.blk[a := s.blk[a].(size := cap)] && t.journal == s.journal && t.bins == s.bins
    ensures Lists(t)
  {
    hide ClassOf;
  }

  /** Where a grown block ends up: in place with room for `n`, or in a new block beside the old one. */
  ghost predicate Grown(s: Arena, t: Arena, a: nat, q: nat, n: nat) {
    && a in s.blk && a in t.blk && t.blk[a].live && q in t.blk && t.blk[q].live && Room(t.blk[q]) >= n
    && (if q == a then
          && t.journal == s.journal && (forall b :: b in t.blk <==> b in s.blk) && (forall b | b in s.blk && b != a :: t.blk[b] == s.blk[b])
          && Room(t.blk[a]) >= Room(s.blk[a])
        else
          && t.blk[a] == s.blk[a] && Served(s, t, q, if n == 0 then 1 else n))
  }

  lemma ExtendFacts(s: Arena, a: nat, n: nat)
    requires ChunkOk(s) && a in s.blk && n > Room(s.blk[a]) && CanExtend(s, a, n)
    ensures !s.blk[a].big && EndOf(a, s.blk[a]) == s.cur && s.chunk > 0 && Room(s.blk[a]) == s.blk[a].size
    ensures var cap := Cap(ClassOf(n).value); cap >= n > s.blk[a].size && s.cur < a + ALIGN + cap <= s.end && ClassOf(cap).Some? && Cap(ClassOf(cap).value) == cap
  {
    ClassIsLeast(n);
    hide ClassOf, Cap;
  }

  lemma GrownExtended(s: Arena, a: nat, cap: nat, n: nat)
    requires a in s.blk && s.blk[a].live && !s.blk[a].big && cap >= n > s.blk[a].size
    ensures Grown(s, Extended(s, a, cap), a, a, n)
  {
  }

  lemma ExtendKeeps(s: Arena, a: nat, n: nat)
    requires Inv(s) && |s.bins| == BINS && a in s.blk && s.blk[a].live && n > Room(s.blk[a]) && CanExtend(s, a, n) && ClassOf(n).Some?
    ensures var t := Extended(s, a, Cap(ClassOf(n).value)); Inv(t) && Grown(s, t, a, a, n)
  {
    hide *;
    var cap := Cap(ClassOf(n).value);
    var t := Extended(s, a, cap);
    InvParts(s, 0);
    InvChunk(s);
    ExtendFacts(s, a, n);
    ExtendedIs(s, a, cap);
    ExtendLayout(s, t, a, cap);
    ExtendLists(s, t, a, cap);
    OnJournal(s, a);
    SumResized(s.blk, s.journal, a, t.blk[a]);
    InvOf(t);
    GrownExtended(s, a, cap, n);
  }

  lemma InvChunk(s: Arena)
    requires Layout(s)
    ensures ChunkOk(s)
  {
  }

  lemma ExtendedIs(s: Arena, a: nat, cap: nat)
    requires a in s.blk && cap >= s.blk[a].size
    ensures Extended(s, a, cap) == s.(blk := s.blk[a := s.blk[a].(size := cap)], cur := a + ALIGN + cap, taken := s.taken + cap - s.blk[a].size)
  {
  }

  lemma CanExtendClass(s: Arena, a: nat, n: nat)
    requires a in s.blk && CanExtend(s, a, n)
    ensures ClassOf(n).Some?
  {
  }

  lemma GrownByMoving(s: Arena, t: Arena, a: nat, q: nat, n: nat)
    requires a in s.blk && s.blk[a].live && Served(s, t, q, if n == 0 then 1 else n)
    ensures Grown(s, t, a, q, n)
  {
  }

  lemma GrownInPlace(s: Arena, a: nat, n: nat)
    requires a in s.blk && s.blk[a].live && n <= Room(s.blk[a])
    ensures Grown(s, s, a, a, n)
  {
  }

  /** Growing keeps the invariant; the old block stays live, in place or beside the new one. */
  lemma GrowKeeps(page: nat, s: Arena, a: nat, n: nat, at: Option<nat>)
    requires page > 0 && Inv(s) && |s.bins| == BINS && a in s.blk && s.blk[a].live && Fresh(s, at, Wanted(page, s, n))
    ensures var (t, q) := Grow(page, s, a, n, at);
            Inv(t) && (q.None? ==> t == s && at.None?) && (q.Some? ==> Grown(s, t, a, q.value, n))
  {
    hide Inv, Grown, Alloc, CanExtend, Fresh, Wanted, ClassOf, Cap, Room;
    if n <= Room(s.blk[a]) {
      GrownInPlace(s, a, n);
    } else if CanExtend(s, a, n) {
      assert ClassOf(n).Some? by { CanExtendClass(s, a, n); }
      ExtendKeeps(s, a, n);
    } else {
      AllocKeeps(page, s, n, at);
      var (t, q) := Alloc(page, s, n, at);
      if q.Some? { GrownByMoving(s, t, a, q.value, n); }
    }
  }

  /** The grown block overlaps no other live block. */
  lemma LivePayloadsApart(s: Arena, a: nat, b: nat)
    requires Inv(s) && a in s.journal && b in s.journal && a != b
    ensures a in s.blk && b in s.blk
    ensures a + ALIGN + Room(s.blk[a]) <= b || b + ALIGN + Room(s.blk[b]) <= a
    ensures InRegion(s.regions, a, EndOf(a, s.blk[a]))
  {
    hide ClassOf, Cap, InRegion, Sum;
    assert BlockOk(s, a, s.blk[a]);
    assert Apart(a, EndOf(a, s.blk[a]), b, EndOf(b, s.blk[b]));
  }
}
