/** The pool as the compiler runs it: a bump pointer and a sorted table of holes changed in place. */
module BbPool {
  import opened Arith
  import opened Common
  import opened PoolModel
  import opened PoolProofs
  import opened PoolRuns

  class CodePool {
    const page: nat
    const limit: nat
    var top: nat
    var holes: seq<Hole>
    ghost var owner: map<nat, nat>
    ghost var calls: nat

    ghost function View(): Pool
      reads this
    {
      Pool(page, limit, top, holes, owner, calls)
    }

    ghost predicate Valid()
      reads this
    {
      Inv(View())
    }

    constructor (page: nat, limit: nat)
      requires page > 0
      ensures Valid() && View() == Empty(page, limit)
    {
      this.page, this.limit := page, limit;
      top, holes := 0, [];
      owner, calls := map[], 0;
      new;
      EmptyInv(page, limit);
    }

    function PageCeil(x: nat): (r: nat)
      requires page > 0
    {
      Ceil(page, x)
    }

    method FindHole(x: nat) returns (a: nat)
      requires Valid()
      ensures a == Find(holes, x)
    {
      FindSplits(page, top, holes, x);
      hide Find, Canonical;
      var b := |holes|;
      a := 0;
      while a < b
        invariant 0 <= a <= Find(holes, x) <= b <= |holes|
      {
        var m := (a + b) / 2;
        if holes[m].lo < x { a := m + 1; } else { b := m; }
      }
    }

    method EraseHoles(i: nat, n: nat)
      requires i + n <= |holes|
      modifies this`holes
      ensures holes == Erase(old(holes), i, n)
    {
      holes := holes[..i] + holes[i + n..];
    }

    method InsertHole(i: nat, lo: nat, hi: nat)
      requires i <= |holes|
      modifies this`holes
      ensures holes == Insert(old(holes), i, Hole(lo, hi))
    {
      holes := holes[..i] + [Hole(lo, hi)] + holes[i..];
    }

    method TruncateHoles(mark: nat)
      requires Valid()
      modifies this`holes
      ensures holes == Truncate(old(holes), mark)
    {
      var i := FindHole(mark);
      ghost var was := holes;
      if i < |holes| { EraseHoles(i, |holes| - i); }
      assert holes == was[..i];
      if i > 0 && holes[i - 1].hi > mark {
        if holes[i - 1].lo >= mark { EraseHoles(i - 1, 1); } else { holes := holes[i - 1 := Hole(holes[i - 1].lo, mark)]; }
      }
    }

    method Alloc(size: nat) returns (p: Option<nat>)
      requires Valid()
      modifies this
      ensures Valid() && (View(), p) == PoolModel.Alloc(old(View()), size)
    {
      AllocKeeps(View(), size);
      var start := PageCeil(top);
      var room := PageCeil(size);
      if start + room > limit { return None; }
      owner := Grant(owner, start, start + room, calls);
      calls := calls + 1;
      top := start + room;
      return Some(start);
    }

    method TrimLast(buf: nat, reserved: nat, used: nat)
      requires Valid() && Owned(View(), buf, buf + Ceil(page, reserved))
      modifies this
      ensures Valid() && View() == Trim(old(View()), buf, reserved, used)
    {
      TrimKeeps(View(), buf, reserved, used);
      var reservedTop := buf + PageCeil(reserved);
      if reservedTop != top { return; }
      var want := PageCeil(buf + used);
      if want < buf || want > top { return; }
      owner := Take(owner, want, top);
      top := want;
    }

    /** `aborted` stands for the program's own abort. */
    method Free(buf: nat, size: nat) returns (aborted: bool)
      requires Valid() && Aligned(page, buf) && Owned(View(), buf, buf + Ceil(page, size))
      modifies this
      ensures aborted <==> PoolModel.Free(old(View()), buf, size).None?
      ensures Valid() && (if aborted then View() == old(View()) else Some(View()) == PoolModel.Free(old(View()), buf, size))
    {
      FreeKeeps(View(), buf, size);
      if buf + PageCeil(size) != top { return true; }
      owner := Take(owner, buf, top);
      top := buf;
      return false;
    }

    method Release(mark: nat)
      requires Valid() && Aligned(page, mark)
      modifies this
      ensures Valid() && View() == PoolModel.Release(old(View()), mark)
    {
      ReleaseKeeps(View(), mark);
      if mark > top { return; }
      TruncateHoles(mark);
      owner := Take(owner, mark, top);
      top := mark;
    }

    method AbsorbLeft(i: nat, lo: nat) returns (j: nat, a: nat)
      requires i == Find(holes, lo)
      modifies this`holes
      ensures (holes, j, a) == MergeLeft(old(holes), lo)
    {
      j, a := i, lo;
      if i > 0 && holes[i - 1].hi == lo {
        a, j := holes[i - 1].lo, i - 1;
        EraseHoles(j, 1);
      }
    }

    method AbsorbRight(i: nat, hi: nat) returns (b: nat)
      requires i <= |holes|
      modifies this`holes
      ensures (holes, b) == MergeRight(old(holes), i, hi)
    {
      b := hi;
      if i < |holes| && holes[i].lo == hi {
        b := holes[i].hi;
        EraseHoles(i, 1);
      }
    }

    /** The part of reclaiming behind the range checks. */
    method GiveBack(lo0: nat, hi0: nat) returns (aborted: bool)
      requires Valid() && lo0 < hi0 <= top
      modifies this
      ensures aborted <==> PoolModel.Reclaim(old(View()), lo0, hi0).None?
      ensures !aborted ==> Some(View()) == PoolModel.Reclaim(old(View()), lo0, hi0)
    {
      hide Inv, MergeLeft, MergeRight, Find, Insert, Erase, Take;
      var i := FindHole(lo0);
      if (i > 0 && holes[i - 1].hi > lo0) || (i < |holes| && holes[i].lo < hi0) { return true; }
      owner := Take(owner, lo0, hi0);
      var j, lo := AbsorbLeft(i, lo0);
      var hi := AbsorbRight(j, hi0);
      if hi == top { top := lo; } else { InsertHole(j, lo, hi); }
      return false;
    }

    /** Bounds are offsets from the base; a range that starts below it is ignored. `aborted` stands
        for the program's own abort, which a live range never meets. */
    method Reclaim(lo: int, hi0: int) returns (aborted: bool)
      requires Valid()
      modifies this
      ensures aborted <==> 0 <= lo < hi0 && PoolModel.Reclaim(old(View()), lo, hi0).None?
      ensures !aborted ==> Some(View()) == if 0 <= lo < hi0 then PoolModel.Reclaim(old(View()), lo, hi0) else Some(old(View()))
      ensures lo < 0 || hi0 <= lo || Live(old(View()), lo, hi0) ==> Valid() && !aborted
    {
      if lo < 0 || hi0 <= lo { return false; }
      hide Inv, MergeLeft, MergeRight, Find, Insert, Take, Tail, Overlaps;
      if Live(View(), lo, hi0) { ReclaimKeeps(View(), lo, hi0); }
      var hi := if hi0 > top then top else hi0;
      if hi <= lo { return false; }
      aborted := GiveBack(lo, hi);
    }

    method AllocHole(min: nat) returns (h: Option<Hole>)
      requires Valid()
      modifies this
      ensures Valid() && (View(), h) == PoolModel.AllocHole(old(View()), min)
    {
      AllocHoleKeeps(View(), min);
      hide Inv, Erase, Grant;
      var i := 0;
      while i < |holes|
        invariant 0 <= i <= |holes| && View() == old(View())
        invariant FirstFit(holes, min, 0) == FirstFit(holes, min, i)
      {
        var found := holes[i];
        if found.hi - found.lo >= min {
          EraseHoles(i, 1);
          owner := Grant(owner, found.lo, found.hi, calls);
          calls := calls + 1;
          return Some(found);
        }
        i := i + 1;
      }
      return None;
    }

    method HoleReturn(buf: nat, keep: nat, cap: nat)
      requires Valid() && Aligned(page, buf + cap) && Owned(View(), buf, buf + cap)
      modifies this
      ensures Valid() && Some(View()) == PoolModel.HoleReturn(old(View()), buf, keep, cap)
    {
      HoleReturnKeeps(View(), buf, keep, cap);
      assert page > 0;
      HoleReturnIs(View(), buf, keep, cap);
      hide Inv, Live, Owned, Aligned, Ceil, PoolModel.Reclaim, PoolModel.HoleReturn;
      ghost var was, goal := View(), PoolModel.HoleReturn(View(), buf, keep, cap);
      var lo := PageCeil(buf + keep);
      if buf + cap <= lo { return; }
      assert PoolModel.Reclaim(was, lo, buf + cap) == goal;
      var aborted := Reclaim(lo, buf + cap);
      assert !aborted;
      assert Some(View()) == goal;
    }

    /** A hole given back whole. */
    method HoleAbort(buf: nat, cap: nat)
      requires Valid() && Aligned(page, buf) && Aligned(page, buf + cap) && Owned(View(), buf, buf + cap)
      modifies this
      ensures Valid() && Some(View()) == if cap == 0 then Some(old(View())) else PoolModel.Reclaim(old(View()), buf, buf + cap)
    {
      if cap == 0 { return; }
      var _ := Reclaim(buf, buf + cap);
    }

    /** By binary search, exactly: is byte `o` in some hole? */
    method IsInHole(o: int) returns (b: bool)
      requires Valid()
      ensures b <==> o >= 0 && In(holes, o)
    {
      if o < 0 { return false; }
      InHoleExact(page, top, holes, o);
      var i := FindHole(o + 1);
      return i > 0 && holes[i - 1].lo <= o < holes[i - 1].hi;
    }
  }
}
