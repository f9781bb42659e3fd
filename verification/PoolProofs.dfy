/** What every pool operation keeps, and what reclaiming in any order comes to. */
module PoolProofs {
  import opened Arith
  import opened Common
  import opened PoolModel

  // ---------------------------------------------------------------- hole lists as sets of bytes

  lemma InBoth(a: seq<Hole>, b: seq<Hole>, o: nat)
    ensures In(a + b, o) <==> In(a, o) || In(b, o)
  {
    forall k | 0 <= k < |a| && Within(a[k], o) ensures In(a + b, o) { assert Within((a + b)[k], o); }
    forall k | 0 <= k < |b| && Within(b[k], o) ensures In(a + b, o) { assert Within((a + b)[|a| + k], o); }
  }

  lemma InOne(h: Hole, o: nat)
    ensures In([h], o) <==> Within(h, o)
  {
    if Within(h, o) { assert Within([h][0], o); }
  }

  lemma InSplit(holes: seq<Hole>, i: nat, o: nat)
    requires i < |holes|
    ensures In(holes, o) <==> In(Erase(holes, i, 1), o) || Within(holes[i], o)
  {
    assert holes == holes[..i] + [holes[i]] + holes[i + 1..];
    InBoth(holes[..i] + [holes[i]], holes[i + 1..], o);
    InBoth(holes[..i], [holes[i]], o);
    InBoth(holes[..i], holes[i + 1..], o);
    InOne(holes[i], o);
  }

  lemma InInserted(holes: seq<Hole>, i: nat, h: Hole, o: nat)
    requires i <= |holes|
    ensures In(Insert(holes, i, h), o) <==> In(holes, o) || Within(h, o)
  {
    assert holes == holes[..i] + holes[i..];
    InBoth(holes[..i] + [h], holes[i..], o);
    InBoth(holes[..i], [h], o);
    InBoth(holes[..i], holes[i..], o);
    InOne(h, o);
  }

  /** The binary search answers membership, for every byte. */
  lemma InHoleExact(page: nat, top: nat, holes: seq<Hole>, o: nat)
    requires Canonical(page, top, holes)
    ensures InHole(holes, o) <==> In(holes, o)
  {
    FindSplits(page, top, holes, o + 1);
    var i := Find(holes, o + 1);
    assert forall k | 0 <= k && k + 1 < i :: holes[k].hi < holes[i - 1].lo;
    if InHole(holes, o) { assert Within(holes[i - 1], o); }
    if In(holes, o) { var k :| 0 <= k < |holes| && Within(holes[k], o); }
  }

  /** The two neighbours tell whether a range meets any hole. */
  lemma OverlapsExact(page: nat, top: nat, holes: seq<Hole>, lo: nat, hi: nat)
    requires Canonical(page, top, holes) && lo < hi
    ensures Overlaps(holes, lo, hi) <==> exists o: nat :: lo <= o < hi && In(holes, o)
  {
    FindSplits(page, top, holes, lo);
    var i := Find(holes, lo);
    if i > 0 && holes[i - 1].hi > lo { assert Within(holes[i - 1], lo); assert In(holes, lo); }
    if i < |holes| && holes[i].lo < hi { assert Within(holes[i], holes[i].lo); assert In(holes, holes[i].lo); }
    if exists o: nat :: lo <= o < hi && In(holes, o) {
      var o: nat :| lo <= o < hi && In(holes, o);
      var k :| 0 <= k < |holes| && Within(holes[k], o);
      if k + 1 < i { assert holes[k].hi < holes[i - 1].lo; }
      if i < k { assert holes[i].hi < holes[k].lo; }
    }
  }

  lemma HasBytes(page: nat, top: nat, a: seq<Hole>)
    requires Canonical(page, top, a)
    ensures a != [] ==> In(a, a[0].lo)
  {
    if a != [] { assert Within(a[0], a[0].lo); }
  }

  /** Canonical lists are determined by the bytes they hold. */
  lemma {:induction false} SameBytesSameHoles(page: nat, top: nat, a: seq<Hole>, b: seq<Hole>)
    requires Canonical(page, top, a) && Canonical(page, top, b) && forall o: nat :: In(a, o) <==> In(b, o)
    ensures a == b
  {
    HasBytes(page, top, a);
    HasBytes(page, top, b);
    hide In, Aligned;
    if a != [] && b != [] {
      FirstStartsNoLater(page, top, a, b);
      FirstStartsNoLater(page, top, b, a);
      FirstEndsNoLater(page, top, a, b);
      FirstEndsNoLater(page, top, b, a);
      forall o: nat ensures In(a[1..], o) <==> In(b[1..], o) {
        RestOf(page, top, a, o);
        RestOf(page, top, b, o);
        assert In(a, o) <==> In(b, o);
      }
      SameBytesSameHoles(page, top, a[1..], b[1..]);
      assert a == [a[0]] + a[1..] && b == [b[0]] + b[1..];
    }
  }

  lemma FirstStartsNoLater(page: nat, top: nat, a: seq<Hole>, b: seq<Hole>)
    requires Canonical(page, top, a) && Canonical(page, top, b) && a != [] && b != [] && forall o: nat :: In(a, o) ==> In(b, o)
    ensures b[0].lo <= a[0].lo
  {
    HasBytes(page, top, a);
    var k :| 0 <= k < |b| && Within(b[k], a[0].lo);
    assert forall l | 0 < l < |b| :: b[0].hi < b[l].lo;
  }

  lemma FirstEndsNoLater(page: nat, top: nat, a: seq<Hole>, b: seq<Hole>)
    requires Canonical(page, top, a) && Canonical(page, top, b) && a != [] && b != [] && a[0].lo == b[0].lo
    requires forall o: nat :: In(a, o) ==> In(b, o)
    ensures a[0].hi <= b[0].hi
  {
    var x := b[0].hi;
    assert !In(b, x) by { assert forall l | 0 < l < |b| :: b[0].hi < b[l].lo; }
    assert !In(a, x);
    assert !Within(a[0], x);
  }

  lemma RestOf(page: nat, top: nat, a: seq<Hole>, o: nat)
    requires Canonical(page, top, a) && a != []
    ensures In(a[1..], o) <==> In(a, o) && !Within(a[0], o)
  {
    assert a == [a[0]] + a[1..];
    InBoth([a[0]], a[1..], o);
    InOne(a[0], o);
    if In(a[1..], o) {
      var k :| 0 <= k < |a[1..]| && Within(a[1..][k], o);
      assert a[0].hi < a[k + 1].lo;
    }
  }

  // ---------------------------------------------------------------- truncating and merging

  lemma TruncateShape(page: nat, top: nat, holes: seq<Hole>, mark: nat)
    requires Canonical(page, top, holes)
    ensures var t := Truncate(holes, mark);
            && |t| == Find(holes, mark)
            && (forall k | 0 <= k < |t| :: t[k] == Hole(holes[k].lo, if holes[k].hi > mark then mark else holes[k].hi) && holes[k].lo < mark)
            && (forall k | |t| <= k < |holes| :: holes[k].lo >= mark)
            && (forall k | 0 <= k && k + 1 < |t| :: holes[k].hi < mark)
  {
    hide Aligned, Find;
    FindSplits(page, top, holes, mark);
    var i := Find(holes, mark);
    forall k: nat | k + 1 < i ensures holes[k].hi < mark { assert holes[k].hi < holes[i - 1].lo; }
    assert i > 0 ==> holes[i - 1].lo < mark;
    hide Canonical;
  }

  lemma TruncateBytes(page: nat, top: nat, holes: seq<Hole>, mark: nat, o: nat)
    requires Canonical(page, top, holes)
    ensures In(Truncate(holes, mark), o) <==> In(holes, o) && o < mark
  {
    TruncateShape(page, top, holes, mark);
    hide Truncate, Find, Canonical;
    var t := Truncate(holes, mark);
    if In(t, o) {
      var k :| 0 <= k < |t| && Within(t[k], o);
      assert Within(holes[k], o);
    }
    if In(holes, o) && o < mark {
      var k :| 0 <= k < |holes| && Within(holes[k], o);
      assert Within(t[k], o);
    }
  }

  lemma TruncateExact(page: nat, top: nat, holes: seq<Hole>, mark: nat)
    requires Canonical(page, top, holes) && Aligned(page, mark)
    ensures Canonical(page, mark, Truncate(holes, mark))
    ensures forall o: nat :: In(Truncate(holes, mark), o) <==> In(holes, o) && o < mark
  {
    forall o: nat ensures In(Truncate(holes, mark), o) <==> In(holes, o) && o < mark { TruncateBytes(page, top, holes, mark, o); }
    TruncateShape(page, top, holes, mark);
    hide Truncate, Find, In, Aligned;
  }

  /** `[lo, hi)` may be merged into the list: nothing of it is in a hole. */
  ghost predicate Apart(page: nat, top: nat, holes: seq<Hole>, lo: nat, hi: nat) {
    Canonical(page, top, holes) && lo < hi <= top && Aligned(page, lo) && Aligned(page, hi) && !Overlaps(holes, lo, hi)
  }

  /** Position `i` separates the holes that end before `a` from those that start after `b`. */
  ghost predicate Fits(holes: seq<Hole>, i: nat, a: nat, b: nat) {
    i <= |holes| && (forall k | 0 <= k < i :: holes[k].hi < a) && (forall k | i <= k < |holes| :: b < holes[k].lo)
  }

  lemma ErasedCanonical(page: nat, top: nat, holes: seq<Hole>, i: nat)
    requires Canonical(page, top, holes) && i < |holes|
    ensures Canonical(page, top, Erase(holes, i, 1))
  {
  }

  lemma Neighbours(page: nat, top: nat, holes: seq<Hole>, lo: nat, hi: nat)
    requires Apart(page, top, holes, lo, hi)
    ensures lo < hi <= top
    ensures var j := Find(holes, lo);
            && (forall k | 0 <= k < j :: holes[k].hi <= lo && (k + 1 < j ==> holes[k].hi < holes[j - 1].lo < lo))
            && (forall k | j <= k < |holes| :: hi <= holes[k].lo)
  {
    FindSplits(page, top, holes, lo);
    var j := Find(holes, lo);
    hide Aligned, Find;
    forall k: nat | k < j ensures holes[k].hi <= lo && (k + 1 < j ==> holes[k].hi < holes[j - 1].lo < lo) {}
    forall k | j <= k < |holes| ensures hi <= holes[k].lo { assert k > j ==> holes[j].hi < holes[k].lo; }
  }

  lemma MergeLeftCases(holes: seq<Hole>, lo: nat)
    ensures var j := Find(holes, lo);
            MergeLeft(holes, lo) == if j > 0 && holes[j - 1].hi == lo then (Erase(holes, j - 1, 1), j - 1, holes[j - 1].lo) else (holes, j, lo)
    ensures var (h, i, a) := MergeLeft(holes, lo); i <= |h| && i <= |holes| && h[..i] == holes[..i] && h[i..] == holes[Find(holes, lo)..]
  {
    hide Find;
  }

  lemma MergeLeftShape(page: nat, top: nat, holes: seq<Hole>, lo: nat, hi: nat)
    requires Apart(page, top, holes, lo, hi)
    ensures var (h, i, a) := MergeLeft(holes, lo);
            && Canonical(page, top, h) && a <= lo && Aligned(page, a)
            && (if a == lo then h == holes else i < |holes| && holes[i] == Hole(a, lo) && h == Erase(holes, i, 1))
            && (forall k | 0 <= k < i :: h[k].hi < a)
            && (forall k | i <= k < |h| :: hi <= h[k].lo)
            && h[i..] == holes[Find(holes, lo)..]
  {
    hide *;
    var j := Find(holes, lo);
    ApartParts(page, top, holes, lo, hi);
    Neighbours(page, top, holes, lo, hi);
    MergeLeftCases(holes, lo);
    if j > 0 { ErasedCanonical(page, top, holes, j - 1); }
    var (h, i, a) := MergeLeft(holes, lo);
    forall k | 0 <= k < i ensures h[k].hi < a { assert h[k] == h[..i][k] == holes[..i][k]; }
    forall k | i <= k < |h| ensures hi <= h[k].lo { assert h[k] == h[i..][k - i] == holes[j..][k - i]; }
  }

  lemma ApartParts(page: nat, top: nat, holes: seq<Hole>, lo: nat, hi: nat)
    requires Apart(page, top, holes, lo, hi)
    ensures Canonical(page, top, holes) && Aligned(page, lo) && forall k | 0 <= k < |holes| :: Aligned(page, holes[k].lo) && holes[k].lo < holes[k].hi
  {
    hide Aligned, Overlaps;
  }

  lemma MergeLeftExact(page: nat, top: nat, holes: seq<Hole>, lo: nat, hi: nat)
    requires Apart(page, top, holes, lo, hi)
    ensures var (h, i, a) := MergeLeft(holes, lo);
            && Canonical(page, top, h) && a <= lo && Aligned(page, a)
            && (forall k | 0 <= k < i :: h[k].hi < a) && (forall k | i <= k < |h| :: hi <= h[k].lo)
            && (forall o: nat :: In(h, o) || a <= o < hi <==> In(holes, o) || lo <= o < hi)
  {
    MergeLeftShape(page, top, holes, lo, hi);
    var (h, i, a) := MergeLeft(holes, lo);
    hide MergeLeft, Find, Aligned, In, Canonical, Erase;
    if a != lo { forall o: nat ensures In(holes, o) <==> In(h, o) || Within(holes[i], o) { InSplit(holes, i, o); } }
  }

  lemma MergeRightExact(page: nat, top: nat, h: seq<Hole>, i: nat, a: nat, hi: nat)
    requires Canonical(page, top, h) && i <= |h| && a < hi <= top && Aligned(page, hi)
    requires (forall k | 0 <= k < i :: h[k].hi < a) && (forall k | i <= k < |h| :: hi <= h[k].lo)
    ensures var (g, b) := MergeRight(h, i, hi);
            && Canonical(page, top, g) && Fits(g, i, a, b) && hi <= b <= top && Aligned(page, b)
            && (forall o: nat :: In(g, o) || a <= o < b <==> In(h, o) || a <= o < hi)
            && (b != hi ==> i < |h| && h[i] == Hole(hi, b))
            && (b == hi ==> forall k | i <= k < |h| :: h[k].lo != hi)
  {
    if i < |h| && h[i].lo == hi { MergeRightJoins(page, top, h, i, a, hi); }
    hide In, Aligned;
  }

  /** The hole that starts at `hi` is taken off the list and its end is the new bound. */
  lemma MergeRightJoins(page: nat, top: nat, h: seq<Hole>, i: nat, a: nat, hi: nat)
    requires Canonical(page, top, h) && i < |h| && a < hi <= top && h[i].lo == hi && forall k | 0 <= k < i :: h[k].hi < a
    ensures var g, b := Erase(h, i, 1), h[i].hi;
            && Canonical(page, top, g) && Fits(g, i, a, b) && hi < b <= top && Aligned(page, b)
            && (forall o: nat :: In(g, o) || a <= o < b <==> In(h, o) || a <= o < hi)
  {
    var g := Erase(h, i, 1);
    ErasedCanonical(page, top, h, i);
    assert forall k | i < k < |h| :: h[i].hi < h[k].lo;
    hide In, Aligned, Canonical;
    forall o: nat ensures In(g, o) || a <= o < h[i].hi <==> In(h, o) || a <= o < hi { InSplit(h, i, o); }
  }

  // ---------------------------------------------------------------- reclaiming

  /** Where the free tail begins: at the hole that ends at the top, else at the top. */
  ghost function Tail(s: Pool): nat { TailOf(s.holes, s.top) }

  ghost function TailOf(holes: seq<Hole>, top: nat): nat {
    if holes != [] && holes[|holes| - 1].hi == top then holes[|holes| - 1].lo else top
  }

  lemma TailOfSuffix(holes: seq<Hole>, j: nat, top: nat)
    requires j <= |holes| && forall k | 0 <= k < j :: holes[k].hi < top
    ensures TailOf(holes, top) == TailOf(holes[j..], top)
  {
  }

  /** The holes `S` at or after `hi`: absorbing the first one reaches the top exactly when `hi` is the tail. */
  lemma TailOfRight(page: nat, S: seq<Hole>, hi: nat, top: nat)
    requires Canonical(page, top, S) && hi <= top && forall k | 0 <= k < |S| :: hi <= S[k].lo
    ensures var (g, b) := MergeRight(S, 0, hi);
            (b == top <==> hi == TailOf(S, top)) && (b != top ==> TailOf(g, top) == TailOf(S, top))
  {
    hide Aligned;
    if S != [] { assert forall k | 0 <= k < |S| - 1 :: S[k].hi < S[|S| - 1].lo; }
  }

  /** Not handed out: in a hole, or at or above the top. */
  ghost predicate Unused(s: Pool, o: nat) { In(s.holes, o) || o >= s.top }

  ghost predicate Live(s: Pool, lo: nat, hi: nat) {
    lo < hi && Aligned(s.page, lo) && Aligned(s.page, hi) && Owned(s, lo, hi)
  }

  lemma LiveIsApart(s: Pool, lo: nat, hi: nat)
    requires Inv(s) && Live(s, lo, hi)
    ensures hi <= s.top && Apart(s.page, s.top, s.holes, lo, hi)
  {
    assert hi - 1 in s.owner;
    OverlapsExact(s.page, s.top, s.holes, lo, hi);
  }

  lemma InsertedCanonical(page: nat, top: nat, h: seq<Hole>, i: nat, a: nat, b: nat)
    requires Canonical(page, top, h) && Fits(h, i, a, b) && a < b <= top && Aligned(page, a) && Aligned(page, b)
    ensures Canonical(page, top, Insert(h, i, Hole(a, b)))
    ensures forall o: nat :: In(Insert(h, i, Hole(a, b)), o) <==> In(h, o) || a <= o < b
  {
    forall o: nat ensures In(Insert(h, i, Hole(a, b)), o) <==> In(h, o) || a <= o < b { InInserted(h, i, Hole(a, b), o); }
  }

  /** The merged interval `[a, b)` and the holes `h` left around it at position `i`. */
  ghost predicate Merged(s: Pool, lo: nat, hi: nat, h: seq<Hole>, i: nat, a: nat, b: nat) {
    && Canonical(s.page, s.top, h) && Fits(h, i, a, b)
    && a <= lo < hi <= b <= s.top && Aligned(s.page, a) && Aligned(s.page, b)
    && (forall o: nat :: In(h, o) || a <= o < b <==> In(s.holes, o) || lo <= o < hi)
    && (b == s.top <==> hi == Tail(s))
    && (b != s.top ==> TailOf(h, s.top) == Tail(s))
  }

  lemma SuffixCanonical(page: nat, top: nat, h: seq<Hole>, i: nat)
    requires Canonical(page, top, h) && i <= |h|
    ensures Canonical(page, top, h[i..])
  {
  }

  lemma MergeRightOfSuffix(h: seq<Hole>, i: nat, hi: nat)
    requires i <= |h|
    ensures MergeRight(h[i..], 0, hi).1 == MergeRight(h, i, hi).1
    ensures MergeRight(h, i, hi).0 == h[..i] + MergeRight(h[i..], 0, hi).0
  {
    if i < |h| && h[i].lo == hi { assert Erase(h, i, 1) == h[..i] + Erase(h[i..], 0, 1); } else { assert h == h[..i] + h[i..]; }
  }

  lemma MergedTail(page: nat, top: nat, holes: seq<Hole>, lo: nat, hi: nat)
    requires Apart(page, top, holes, lo, hi)
    ensures var (h1, i, a) := MergeLeft(holes, lo); var (h, b) := MergeRight(h1, i, hi);
            (b == top <==> hi == TailOf(holes, top)) && (b != top ==> TailOf(h, top) == TailOf(holes, top))
  {
    hide *;
    MergeLeftShape(page, top, holes, lo, hi);
    Neighbours(page, top, holes, lo, hi);
    var (h1, i, a) := MergeLeft(holes, lo);
    var j := Find(holes, lo);
    SuffixCanonical(page, top, h1, i);
    MergeRightOfSuffix(h1, i, hi);
    assert forall k | 0 <= k < j :: holes[k].hi < top;
    TailOfSuffix(holes, j, top);
    var S := h1[i..];
    assert forall k | 0 <= k < |S| :: S[k] == h1[i + k];
    TailOfRight(page, S, hi, top);
    var h, g := MergeRight(h1, i, hi).0, MergeRight(S, 0, hi).0;
    assert h == h1[..i] + g && h[i..] == g;
    assert forall k | 0 <= k < i :: h[k] == h1[k];
    TailOfSuffix(h, i, top);
  }

  lemma ReclaimForm(s: Pool, lo: nat, hi: nat) returns (h: seq<Hole>, i: nat, a: nat, b: nat)
    requires Inv(s) && Live(s, lo, hi)
    ensures Merged(s, lo, hi, h, i, a, b)
    ensures Reclaim(s, lo, hi) == Some(if b == s.top then s.(top := a, holes := h, owner := Take(s.owner, lo, hi))
                                       else s.(holes := Insert(h, i, Hole(a, b)), owner := Take(s.owner, lo, hi)))
  {
    hide MergeLeft, MergeRight, Find, Aligned, In, Canonical, Owned, Partition, TailOf, Overlaps, Inv, Take, Insert, Fits;
    LiveIsApart(s, lo, hi);
    MergedTail(s.page, s.top, s.holes, lo, hi);
    MergeLeftExact(s.page, s.top, s.holes, lo, hi);
    var (h1, i1, a1) := MergeLeft(s.holes, lo);
    MergeRightExact(s.page, s.top, h1, i1, a1, hi);
    var (g, b1) := MergeRight(h1, i1, hi);
    h, i, a, b := g, i1, a1, b1;
  }

  /** Reclaiming a live range never aborts, keeps the invariant, and adds exactly that range to the
      unused bytes. The free tail grows when the range touches it and otherwise stays. */
  lemma ReclaimExact(s: Pool, lo: nat, hi: nat)
    requires Inv(s) && Live(s, lo, hi)
    ensures Reclaim(s, lo, hi).Some?
    ensures var t := Reclaim(s, lo, hi).value;
            && Inv(t) && t.owner == Take(s.owner, lo, hi) && t.page == s.page && t.limit == s.limit && t.calls == s.calls
            && (forall o: nat :: Unused(t, o) <==> Unused(s, o) || lo <= o < hi)
            && t.top <= s.top
            && (if hi == Tail(s) then Tail(t) == t.top else t.top == s.top && Tail(t) == Tail(s))
  {
    var h, i, a, b := ReclaimForm(s, lo, hi);
    hide Reclaim;
    var t := Reclaim(s, lo, hi).value;
    if b == s.top { CollapsedOk(s, t, lo, hi, h, i, a, b); } else { InsertedOk(s, t, lo, hi, h, i, a, b); }
  }

  lemma ReclaimKeeps(s: Pool, lo: nat, hi: nat)
    requires Inv(s) && Live(s, lo, hi)
    ensures Reclaim(s, lo, hi).Some? && Inv(Reclaim(s, lo, hi).value)
  {
    ReclaimExact(s, lo, hi);
  }

  lemma CollapsedOk(s: Pool, t: Pool, lo: nat, hi: nat, h: seq<Hole>, i: nat, a: nat, b: nat)
    requires Inv(s) && Live(s, lo, hi) && Merged(s, lo, hi, h, i, a, b) && b == s.top
    requires t == s.(top := a, holes := h, owner := Take(s.owner, lo, hi))
    ensures Inv(t) && Tail(t) == t.top && forall o: nat :: Unused(t, o) <==> Unused(s, o) || lo <= o < hi
  {
    hide Aligned, In;
    forall o: nat ensures In(h, o) ==> o < a { BelowAll(s.page, s.top, h, i, a, o); }
    assert hi - 1 in s.owner;
    forall o: nat ensures Unused(t, o) <==> Unused(s, o) || lo <= o < hi { assert In(h, o) || a <= o < b <==> In(s.holes, o) || lo <= o < hi; }
    assert Partition(t) by {
      forall o: nat ensures (o < t.top ==> (o in t.owner <==> !In(t.holes, o))) && (o >= t.top ==> o !in t.owner) {
        assert In(h, o) || a <= o < b <==> In(s.holes, o) || lo <= o < hi;
      }
    }
  }

  lemma BelowAll(page: nat, top: nat, h: seq<Hole>, i: nat, a: nat, o: nat)
    requires Canonical(page, top, h) && Fits(h, i, a, top)
    ensures In(h, o) ==> o < a
  {
  }

  lemma InsertedOk(s: Pool, t: Pool, lo: nat, hi: nat, h: seq<Hole>, i: nat, a: nat, b: nat)
    requires Inv(s) && Live(s, lo, hi) && Merged(s, lo, hi, h, i, a, b) && b != s.top
    requires t == s.(holes := Insert(h, i, Hole(a, b)), owner := Take(s.owner, lo, hi))
    ensures Inv(t) && Tail(t) == Tail(s) && forall o: nat :: Unused(t, o) <==> Unused(s, o) || lo <= o < hi
  {
    InsertedCanonical(s.page, s.top, h, i, a, b);
    assert hi - 1 in s.owner;
    assert t.holes[|t.holes| - 1] == if i < |h| then h[|h| - 1] else Hole(a, b);
    hide Aligned, In, Insert, Canonical;
  }
}
