/** Whole runs of the pool, and reclaiming in any order. */
module PoolRuns {
  import opened Arith
  import opened Common
  import opened PoolModel
  import opened PoolProofs

  // ---------------------------------------------------------------- every operation keeps the invariant

  /** A new region is page-aligned, inside the pool, and nobody's: neither owned nor in a hole. */
  lemma AllocKeeps(s: Pool, size: nat)
    requires Inv(s)
    ensures Inv(Alloc(s, size).0)
    ensures match Alloc(s, size)
            case (t, None) => t == s && s.top + Ceil(s.page, size) > s.limit
            case (t, Some(p)) =>
              && Aligned(s.page, p) && p + size <= t.top <= s.limit
              && (forall o: nat | p <= o < t.top :: o in t.owner && t.owner[o] == s.calls && o !in s.owner && !In(s.holes, o))
              && (forall o: nat | !(p <= o < t.top) :: o in t.owner <==> o in s.owner)
              && (forall o | o in s.owner :: t.owner[o] == s.owner[o])
  {
    CeilOfAligned(s.page, s.top);
    CeilAligned(s.page, size);
    AlignedSum(s.page, s.top, Ceil(s.page, size));
    hide Ceil, Aligned;
    forall o: nat | In(s.holes, o) ensures o < s.top { var k :| 0 <= k < |s.holes| && Within(s.holes[k], o); }
  }

  lemma OwnedKeeps(s: Pool, cut: nat)
    requires Inv(s) && Aligned(s.page, cut) && cut <= s.top && Owned(s, cut, s.top)
    ensures Inv(s.(top := cut, owner := Take(s.owner, cut, s.top)))
  {
    var t := s.(top := cut, owner := Take(s.owner, cut, s.top));
    forall k | 0 <= k < |s.holes| ensures s.holes[k].hi <= cut {
      var o := s.holes[k].hi - 1;
      assert Within(s.holes[k], o);
      assert In(s.holes, o);
      assert o in s.owner <==> !In(s.holes, o);
    }
    hide In, Aligned;
  }

  lemma TrimKeeps(s: Pool, buf: nat, reserved: nat, used: nat)
    requires Inv(s) && Owned(s, buf, buf + Ceil(s.page, reserved))
    ensures Inv(Trim(s, buf, reserved, used))
    ensures forall o: nat | o in s.owner && (o < buf + used || o >= s.top) :: o in Trim(s, buf, reserved, used).owner && Trim(s, buf, reserved, used).owner[o] == s.owner[o]
  {
    CeilAligned(s.page, buf + used);
    var want := Ceil(s.page, buf + used);
    if !(buf + Ceil(s.page, reserved) != s.top || want < buf || want > s.top) { OwnedKeeps(s, want); }
  }

  lemma FreeKeeps(s: Pool, buf: nat, size: nat)
    requires Inv(s) && Aligned(s.page, buf) && Owned(s, buf, buf + Ceil(s.page, size))
    ensures Free(s, buf, size).Some? ==> Inv(Free(s, buf, size).value)
    ensures Free(s, buf, size).None? <==> buf + Ceil(s.page, size) != s.top
  {
    if Free(s, buf, size).Some? { OwnedKeeps(s, buf); }
  }

  lemma ReleaseKeeps(s: Pool, mark: nat)
    requires Inv(s) && Aligned(s.page, mark)
    ensures Inv(Release(s, mark))
    ensures mark <= s.top ==> Release(s, mark).top == mark && forall o: nat | o < mark :: o in s.owner <==> o in Release(s, mark).owner
  {
    if mark <= s.top {
      TruncateExact(s.page, s.top, s.holes, mark);
      hide Truncate, Aligned, In, Canonical;
    }
  }

  lemma FirstFitExact(holes: seq<Hole>, min: nat, i: nat)
    ensures match FirstFit(holes, min, i)
            case None => forall k | i <= k < |holes| :: holes[k].hi - holes[k].lo < min
            case Some(j) => holes[j].hi - holes[j].lo >= min && forall k | i <= k < j :: holes[k].hi - holes[k].lo < min
    decreases |holes| - i
  {
    if i < |holes| && holes[i].hi - holes[i].lo < min { FirstFitExact(holes, min, i + 1); }
  }

  lemma AllocHoleBytes(s: Pool, i: nat, o: nat)
    requires Inv(s) && i < |s.holes|
    ensures In(s.holes, o) <==> In(Erase(s.holes, i, 1), o) || Within(s.holes[i], o)
    ensures Within(s.holes[i], o) ==> o !in s.owner && !In(Erase(s.holes, i, 1), o) && o < s.top
    ensures o < s.top ==> (o in s.owner <==> !In(s.holes, o))
    ensures o >= s.top ==> o !in s.owner
  {
    InSplit(s.holes, i, o);
    if Within(s.holes[i], o) { ErasedApart(s.page, s.top, s.holes, i, o); }
  }

  lemma AllocHoleInv(s: Pool, i: nat)
    requires Inv(s) && i < |s.holes|
    ensures Inv(s.(holes := Erase(s.holes, i, 1), owner := Grant(s.owner, s.holes[i].lo, s.holes[i].hi, s.calls), calls := s.calls + 1))
  {
    ErasedCanonical(s.page, s.top, s.holes, i);
    forall o: nat
      ensures In(s.holes, o) <==> In(Erase(s.holes, i, 1), o) || Within(s.holes[i], o)
      ensures Within(s.holes[i], o) ==> o !in s.owner && !In(Erase(s.holes, i, 1), o) && o < s.top
      ensures o < s.top ==> (o in s.owner <==> !In(s.holes, o))
      ensures o >= s.top ==> o !in s.owner
    {
      AllocHoleBytes(s, i, o);
    }
    hide In, Aligned, Erase, Canonical;
  }

  /** A hole handed out is the lowest one large enough, and it was nobody's. */
  lemma AllocHoleKeeps(s: Pool, min: nat)
    requires Inv(s)
    ensures Inv(AllocHole(s, min).0)
    ensures match AllocHole(s, min)
            case (t, None) => t == s && forall k | 0 <= k < |s.holes| :: s.holes[k].hi - s.holes[k].lo < min
            case (t, Some(h)) =>
              && h in s.holes && h.hi - h.lo >= min && t.top == s.top
              && (forall k | 0 <= k < |s.holes| && s.holes[k].lo < h.lo :: s.holes[k].hi - s.holes[k].lo < min)
              && (forall o: nat :: o in t.owner <==> o in s.owner || Within(h, o))
              && (forall o: nat | Within(h, o) :: t.owner[o] == s.calls && o !in s.owner)
              && (forall o | o in s.owner :: t.owner[o] == s.owner[o])
  {
    FirstFitExact(s.holes, min, 0);
    if FirstFit(s.holes, min, 0).Some? {
      var i := FirstFit(s.holes, min, 0).value;
      HolesSorted(s, i);
      hide In, Aligned, Erase, Canonical, Inv, Grant, FirstFit;
      AllocHoleInv(s, i);
      AllocHoleOwners(s, i);
    }
  }

  lemma HolesSorted(s: Pool, i: nat)
    requires Inv(s) && i < |s.holes|
    ensures forall k | 0 <= k < |s.holes| && s.holes[k].lo < s.holes[i].lo :: k < i
  {
    assert forall k | i < k < |s.holes| :: s.holes[i].hi < s.holes[k].lo;
  }

  /** The bytes of a hole handed out were nobody's and belong to the call; all others stay. */
  lemma AllocHoleOwners(s: Pool, i: nat)
    requires Inv(s) && i < |s.holes|
    ensures var g, h := Grant(s.owner, s.holes[i].lo, s.holes[i].hi, s.calls), s.holes[i];
            && (forall o: nat :: o in g <==> o in s.owner || Within(h, o))
            && (forall o: nat | Within(h, o) :: g[o] == s.calls && o !in s.owner)
            && (forall o | o in s.owner :: g[o] == s.owner[o])
  {
    hide In, Aligned, Erase, Canonical, Inv;
    forall o: nat | Within(s.holes[i], o) ensures o !in s.owner { AllocHoleBytes(s, i, o); }
  }

  lemma ErasedApart(page: nat, top: nat, holes: seq<Hole>, i: nat, o: nat)
    requires Canonical(page, top, holes) && i < |holes| && Within(holes[i], o)
    ensures In(holes, o) && !In(Erase(holes, i, 1), o) && o < top
  {
    var e := Erase(holes, i, 1);
    forall k | 0 <= k < |e| ensures !Within(e[k], o) { assert e[k] == holes[if k < i then k else k + 1]; }
  }

  lemma HoleReturnIs(s: Pool, buf: nat, keep: nat, cap: nat)
    requires s.page > 0
    ensures var lo := Ceil(s.page, buf + keep); HoleReturn(s, buf, keep, cap) == if buf + cap <= lo then Some(s) else Reclaim(s, lo, buf + cap)
  {
    hide Reclaim;
  }

  /** The unused end of a hole goes back without ever aborting; its kept front stays owned. */
  lemma HoleReturnKeeps(s: Pool, buf: nat, keep: nat, cap: nat)
    requires Inv(s) && Aligned(s.page, buf + cap) && Owned(s, buf, buf + cap)
    ensures HoleReturn(s, buf, keep, cap).Some? && Inv(HoleReturn(s, buf, keep, cap).value)
    ensures forall o: nat | o in s.owner && (o < buf + keep || o >= buf + cap) ::
              o in HoleReturn(s, buf, keep, cap).value.owner && HoleReturn(s, buf, keep, cap).value.owner[o] == s.owner[o]
  {
    CeilAligned(s.page, buf + keep);
    var lo := Ceil(s.page, buf + keep);
    if lo < buf + cap {
      assert Live(s, lo, buf + cap);
      ReclaimExact(s, lo, buf + cap);
    }
  }

  // ---------------------------------------------------------------- runs

  /** The calls a client may make. A hole aborted is one returned with nothing kept. */
  datatype Op =
    | DoAlloc(size: nat)
    | DoTrim(buf: nat, reserved: nat, used: nat)
    | DoFree(buf: nat, size: nat)
    | DoRelease(mark: nat)
    | DoReclaim(lo: nat, hi: nat)
    | DoAllocHole(min: nat)
    | DoHoleReturn(buf: nat, keep: nat, cap: nat)

  /** Clients pass regions they own, marks they were given, and reclaim only live page-aligned ranges. */
  ghost predicate Legal(s: Pool, op: Op)
    requires s.page > 0
  {
    match op
    case DoAlloc(_) => true
    case DoTrim(b, r, _) => Owned(s, b, b + Ceil(s.page, r))
    case DoFree(b, n) => Aligned(s.page, b) && Owned(s, b, b + Ceil(s.page, n)) && b + Ceil(s.page, n) == s.top
    case DoRelease(m) => Aligned(s.page, m)
    case DoReclaim(lo, hi) => Live(s, lo, hi)
    case DoAllocHole(_) => true
    case DoHoleReturn(b, _, c) => Aligned(s.page, b + c) && Owned(s, b, b + c)
  }

  /** `None`: the program aborts. */
  ghost function Do(s: Pool, op: Op): Option<Pool>
    requires s.page > 0
  {
    match op
    case DoAlloc(n) => Some(Alloc(s, n).0)
    case DoTrim(b, r, u) => Some(Trim(s, b, r, u))
    case DoFree(b, n) => Free(s, b, n)
    case DoRelease(m) => Some(Release(s, m))
    case DoReclaim(lo, hi) => Reclaim(s, lo, hi)
    case DoAllocHole(n) => Some(AllocHole(s, n).0)
    case DoHoleReturn(b, k, c) => HoleReturn(s, b, k, c)
  }

  lemma DoKeeps(s: Pool, op: Op)
    requires Inv(s) && Legal(s, op)
    ensures Do(s, op).Some? && Inv(Do(s, op).value)
  {
    hide Alloc, Trim, Free, Release, Reclaim, AllocHole, HoleReturn, Inv, Live, Aligned, Owned, Ceil;
    match op
    case DoAlloc(n) => AllocKeeps(s, n);
    case DoTrim(b, r, u) => TrimKeeps(s, b, r, u);
    case DoFree(b, n) => FreeKeeps(s, b, n);
    case DoRelease(m) => ReleaseKeeps(s, m);
    case DoReclaim(lo, hi) => ReclaimExact(s, lo, hi);
    case DoAllocHole(n) => AllocHoleKeeps(s, n);
    case DoHoleReturn(b, k, c) => HoleReturnKeeps(s, b, k, c);
  }

  ghost predicate LegalRun(s: Pool, ops: seq<Op>)
    requires s.page > 0
    decreases |ops|
  {
    ops == [] || (Legal(s, ops[0]) && (Do(s, ops[0]).Some? && Do(s, ops[0]).value.page > 0 ==> LegalRun(Do(s, ops[0]).value, ops[1..])))
  }

  ghost function After(s: Pool, ops: seq<Op>): Option<Pool>
    requires s.page > 0
    decreases |ops|
  {
    if ops == [] then Some(s)
    else match Do(s, ops[0])
         case None => None
         case Some(t) => if t.page > 0 then After(t, ops[1..]) else None
  }

  /** In every run the pool never aborts, and regions and holes always partition `[0, top)`. */
  lemma {:induction false} RunKeeps(s: Pool, ops: seq<Op>)
    requires Inv(s) && LegalRun(s, ops)
    ensures After(s, ops).Some? && Inv(After(s, ops).value)
    decreases |ops|
  {
    if ops != [] {
      DoKeeps(s, ops[0]);
      RunKeeps(Do(s, ops[0]).value, ops[1..]);
    }
  }

  function Empty(page: nat, limit: nat): Pool { Pool(page, limit, 0, [], map[], 0) }

  lemma EmptyInv(page: nat, limit: nat)
    requires page > 0
    ensures Inv(Empty(page, limit))
  {
    assert Times(page, 0, 0);
  }

  // ---------------------------------------------------------------- reclaiming in any order

  /** Live ranges, no two of which share a byte. */
  ghost predicate AllLive(s: Pool, rs: seq<Hole>) {
    && (forall k | 0 <= k < |rs| :: Live(s, rs[k].lo, rs[k].hi))
    && (forall k, l, o | 0 <= k < l < |rs| && Within(rs[k], o) :: !Within(rs[l], o))
  }

  ghost function ReclaimAll(s: Pool, rs: seq<Hole>): Option<Pool>
    decreases |rs|
  {
    if rs == [] then Some(s)
    else match Reclaim(s, rs[0].lo, rs[0].hi)
         case None => None
         case Some(t) => ReclaimAll(t, rs[1..])
  }

  lemma InRest(rs: seq<Hole>, o: nat)
    requires rs != []
    ensures In(rs, o) <==> Within(rs[0], o) || In(rs[1..], o)
  {
    assert rs == [rs[0]] + rs[1..];
    InBoth([rs[0]], rs[1..], o);
    InOne(rs[0], o);
  }

  lemma RestStaysLive(s: Pool, t: Pool, rs: seq<Hole>)
    requires rs != [] && AllLive(s, rs) && t.page == s.page && t.owner == Take(s.owner, rs[0].lo, rs[0].hi)
    ensures AllLive(t, rs[1..])
  {
    forall k | 0 <= k < |rs[1..]| ensures Live(t, rs[1..][k].lo, rs[1..][k].hi) {
      var first, r := rs[0], rs[k + 1];
      assert Live(s, r.lo, r.hi);
      forall o: nat | rs[k + 1].lo <= o < rs[k + 1].hi ensures o in t.owner {
        assert Within(r, o);
        assert !Within(first, o);
      }
    }
  }

  lemma TailUnused(s: Pool)
    requires Inv(s)
    ensures Tail(s) !in s.owner
  {
    if Tail(s) < s.top { assert Within(s.holes[|s.holes| - 1], Tail(s)); }
  }

  /** A live range holds the byte before the free tail only by ending at it. */
  lemma TailNotInside(s: Pool, lo: nat, hi: nat)
    requires Inv(s) && Live(s, lo, hi) && lo < Tail(s) <= hi
    ensures hi == Tail(s)
  {
    TailUnused(s);
  }

  /** What reclaiming all the ranges comes to, in terms of the ranges' union alone. */
  ghost predicate Fate(s: Pool, rs: seq<Hole>, t: Pool) {
    && Inv(t) && t.page == s.page && t.limit == s.limit && t.calls == s.calls
    && (forall o: nat :: o in t.owner <==> o in s.owner && !In(rs, o))
    && (forall o: nat | o in t.owner :: t.owner[o] == s.owner[o])
    && (forall o: nat :: Unused(t, o) <==> Unused(s, o) || In(rs, o))
    && (if Tail(s) > 0 && In(rs, Tail(s) - 1) then Tail(t) == t.top else t.top == s.top && Tail(t) == Tail(s))
  }

  lemma FirstFateBytes(s: Pool, rs: seq<Hole>, u: Pool, t: Pool, o: nat)
    requires Inv(s) && rs != [] && Live(s, rs[0].lo, rs[0].hi)
    requires Reclaim(s, rs[0].lo, rs[0].hi) == Some(u) && Fate(u, rs[1..], t)
    ensures o in t.owner <==> o in s.owner && !In(rs, o)
    ensures o in t.owner ==> t.owner[o] == s.owner[o]
    ensures Unused(t, o) <==> Unused(s, o) || In(rs, o)
  {
    ReclaimExact(s, rs[0].lo, rs[0].hi);
    InRest(rs, o);
    assert Unused(u, o) <==> Unused(s, o) || Within(rs[0], o);
    hide Inv, Reclaim, In, Live, Tail, Unused;
  }

  lemma FirstFateTail(s: Pool, rs: seq<Hole>, u: Pool, t: Pool)
    requires Inv(s) && rs != [] && Live(s, rs[0].lo, rs[0].hi)
    requires Reclaim(s, rs[0].lo, rs[0].hi) == Some(u) && Fate(u, rs[1..], t)
    ensures if Tail(s) > 0 && In(rs, Tail(s) - 1) then Tail(t) == t.top else t.top == s.top && Tail(t) == Tail(s)
  {
    ReclaimExact(s, rs[0].lo, rs[0].hi);
    var a := Tail(s);
    if a > 0 {
      InRest(rs, a - 1);
      if Within(rs[0], a - 1) { TailNotInside(s, rs[0].lo, rs[0].hi); }
    }
    hide Inv, Reclaim, In, Live, Tail, Unused, Take;
  }

  lemma FirstFate(s: Pool, rs: seq<Hole>, u: Pool, t: Pool)
    requires Inv(s) && rs != [] && Live(s, rs[0].lo, rs[0].hi)
    requires Reclaim(s, rs[0].lo, rs[0].hi) == Some(u) && Fate(u, rs[1..], t)
    ensures Fate(s, rs, t)
  {
    hide Inv, Reclaim, In, Live, Tail, Unused, Take, Within;
    forall o: nat
      ensures o in t.owner <==> o in s.owner && !In(rs, o)
      ensures o in t.owner ==> t.owner[o] == s.owner[o]
      ensures Unused(t, o) <==> Unused(s, o) || In(rs, o)
    {
      FirstFateBytes(s, rs, u, t, o);
    }
    FirstFateTail(s, rs, u, t);
    ReclaimExact(s, rs[0].lo, rs[0].hi);
  }

  lemma {:induction false} ReclaimAllFate(s: Pool, rs: seq<Hole>)
    requires Inv(s) && AllLive(s, rs)
    ensures ReclaimAll(s, rs).Some? && Fate(s, rs, ReclaimAll(s, rs).value)
    decreases |rs|
  {
    if rs != [] {
      assert Live(s, rs[0].lo, rs[0].hi);
      ReclaimExact(s, rs[0].lo, rs[0].hi);
      var u := Reclaim(s, rs[0].lo, rs[0].hi).value;
      RestStaysLive(s, u, rs);
      hide Reclaim, Inv, Fate, Live, AllLive, Unused, Tail;
      ReclaimAllFate(u, rs[1..]);
      FirstFate(s, rs, u, ReclaimAll(u, rs[1..]).value);
    }
  }

  /** The byte below a top that no hole reaches is in use. */
  lemma BelowTopUsed(t: Pool)
    requires Inv(t) && Tail(t) == t.top && t.top > 0
    ensures !Unused(t, t.top - 1)
  {
    assert forall k | 0 <= k < |t.holes| - 1 :: t.holes[k].hi < t.holes[|t.holes| - 1].lo;
  }

  lemma FateDetermines(s: Pool, rs: seq<Hole>, qs: seq<Hole>, t: Pool, u: Pool)
    requires Inv(s) && Fate(s, rs, t) && Fate(s, qs, u) && forall o: nat :: In(rs, o) <==> In(qs, o)
    ensures t == u
  {
    var same := Tail(s) > 0 && In(rs, Tail(s) - 1);
    assert same == (Tail(s) > 0 && In(qs, Tail(s) - 1));
    assert forall o: nat :: Unused(t, o) <==> Unused(u, o);
    if same {
      if t.top > 0 { BelowTopUsed(t); }
      if u.top > 0 { BelowTopUsed(u); }
    }
    assert t.top == u.top;
    forall o: nat ensures In(t.holes, o) <==> In(u.holes, o) {
      HolesBelowTop(t, o);
      HolesBelowTop(u, o);
      assert Unused(t, o) <==> Unused(u, o);
    }
    SameBytesSameHoles(s.page, t.top, t.holes, u.holes);
    assert t.owner == u.owner;
  }

  lemma HolesBelowTop(t: Pool, o: nat)
    requires Inv(t)
    ensures In(t.holes, o) ==> o < t.top
  {
  }

  /** Reclaiming live ranges in any order, and cut up in any way, ends in the same pool: only the
      set of bytes given back matters. This holds from every state, a hole at the top included. */
  lemma OrderDoesNotMatter(s: Pool, rs: seq<Hole>, qs: seq<Hole>)
    requires Inv(s) && AllLive(s, rs) && AllLive(s, qs) && forall o: nat :: In(rs, o) <==> In(qs, o)
    ensures ReclaimAll(s, rs).Some? && ReclaimAll(s, rs) == ReclaimAll(s, qs)
  {
    ReclaimAllFate(s, rs);
    ReclaimAllFate(s, qs);
    FateDetermines(s, rs, qs, ReclaimAll(s, rs).value, ReclaimAll(s, qs).value);
  }
}
