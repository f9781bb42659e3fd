/** What each operation of the pool hands out and takes back, to the byte. */
module PoolExact {
  import opened Arith
  import opened PoolModel
  import opened PoolProofs
  import opened PoolRuns
  import opened Common

  /** From `cut` on nothing is owned any more; below, all is as it was. */
  ghost predicate CutAt(s: Pool, t: Pool, cut: nat) {
    && t == s.(top := cut, owner := t.owner)
    && (forall o: nat :: o in t.owner <==> o in s.owner && o < cut)
    && (forall o | o in t.owner :: t.owner[o] == s.owner[o])
  }

  lemma TakenAbove(s: Pool, cut: nat)
    requires Inv(s) && cut <= s.top
    ensures CutAt(s, s.(top := cut, owner := Take(s.owner, cut, s.top)), cut)
  {
    assert forall o: nat | o >= s.top :: o !in s.owner;
  }

  /** The new region starts at the top and takes the pages it needs, unless they pass the limit. */
  lemma AllocExact(s: Pool, size: nat, room: nat)
    requires Inv(s) && FirstPage(s.page, size, room)
    ensures Alloc(s, size).1 == if s.top + room > s.limit then None else Some(s.top)
    ensures Alloc(s, size).1.None? ==> Alloc(s, size).0 == s
    ensures Alloc(s, size).1.Some? ==>
              var t := Alloc(s, size).0;
              && t == s.(top := s.top + room, owner := t.owner, calls := s.calls + 1)
              && (forall o: nat :: o in t.owner <==> o in s.owner || s.top <= o < t.top)
              && (forall o: nat | o in t.owner :: t.owner[o] == if s.top <= o < t.top then s.calls else s.owner[o])
  {
    CeilFirst(s.page, size, room);
    CeilOfAligned(s.page, s.top);
    hide Ceil, Aligned, FirstPage, Canonical, In;
  }

  /** A region that ends at the top shrinks to the pages it uses, and the next one starts behind them; any other
      region, or one that would have to grow, stays as it is. */
  lemma TrimExact(s: Pool, buf: nat, reserved: nat, used: nat, room: nat, want: nat, size: nat)
    requires Inv(s) && Owned(s, buf, buf + room) && FirstPage(s.page, reserved, room) && FirstPage(s.page, buf + used, want)
    ensures var t := Trim(s, buf, reserved, used);
            if buf + room == s.top && want <= s.top
            then CutAt(s, t, want) && (Alloc(t, size).1.Some? ==> Alloc(t, size).1 == Some(want))
            else t == s
  {
    CeilFirst(s.page, reserved, room);
    CeilFirst(s.page, buf + used, want);
    if buf + room == s.top && want <= s.top {
      TakenAbove(s, want);
      CeilOfAligned(s.page, want);
    }
    hide Ceil, Aligned, FirstPage, Inv, CutAt, Take;
  }

  /** A free takes back the last region whole, and aborts for any other. */
  lemma FreeExact(s: Pool, buf: nat, size: nat, room: nat)
    requires Inv(s) && Owned(s, buf, buf + room) && FirstPage(s.page, size, room)
    ensures Free(s, buf, size).None? <==> buf + room != s.top
    ensures Free(s, buf, size).Some? ==> CutAt(s, Free(s, buf, size).value, buf)
  {
    CeilFirst(s.page, size, room);
    if buf + room == s.top { TakenAbove(s, buf); }
    hide Ceil, Aligned, FirstPage, Inv, CutAt, Take;
  }

  lemma NoneAbove(s: Pool)
    requires Inv(s)
    ensures forall o: nat | o >= s.top :: o !in s.owner
  {
  }

  /** Freeing what was just allocated leaves the pool as it was, but for the count of calls. */
  lemma FreeUndoesAlloc(s: Pool, size: nat)
    requires Inv(s) && Alloc(s, size).1.Some?
    ensures Free(Alloc(s, size).0, Alloc(s, size).1.value, size) == Some(s.(calls := s.calls + 1))
  {
    var room := Ceil(s.page, size);
    CeilFirst(s.page, size, room);
    AllocExact(s, size, room);
    AllocKeeps(s, size);
    NoneAbove(s);
    var t := Alloc(s, size).0;
    assert Free(t, s.top, size) == Some(t.(top := s.top, owner := Take(t.owner, s.top, t.top)));
    hide Alloc, Free, Inv, FirstPage, Ceil;
    assert Take(t.owner, s.top, t.top) == s.owner;
  }

  /** A release to a mark below the top makes it the top, and drops what is owned or a hole above it; above, it does nothing. */
  lemma ReleaseExact(s: Pool, mark: nat)
    requires Inv(s) && Aligned(s.page, mark)
    ensures var t := Release(s, mark);
            if mark > s.top then t == s
            else CutAt(s.(holes := t.holes), t, mark) && forall o: nat :: In(t.holes, o) <==> In(s.holes, o) && o < mark
  {
    if mark <= s.top {
      TruncateExact(s.page, s.top, s.holes, mark);
      TakenAbove(s, mark);
      hide Truncate, Aligned, In, Inv, Take;
    }
  }

  /** The end of a hole comes back from the first page behind what is kept. */
  lemma HoleReturnExact(s: Pool, buf: nat, keep: nat, cap: nat, lo: nat)
    requires Inv(s) && Aligned(s.page, buf + cap) && Owned(s, buf, buf + cap) && FirstPage(s.page, buf + keep, lo)
    ensures HoleReturn(s, buf, keep, cap).Some?
    ensures var t := HoleReturn(s, buf, keep, cap).value;
            && (forall o: nat :: Unused(t, o) <==> Unused(s, o) || lo <= o < buf + cap)
            && (forall o: nat :: o in t.owner <==> o in s.owner && !(lo <= o < buf + cap))
            && (lo >= buf + cap ==> t == s)
  {
    CeilFirst(s.page, buf + keep, lo);
    HoleReturnIs(s, buf, keep, cap);
    if lo < buf + cap {
      assert Live(s, lo, buf + cap);
      hide Reclaim, HoleReturn, Inv, Live, Aligned, Unused, FirstPage;
      ReclaimExact(s, lo, buf + cap);
    }
  }
}
