/** The pool of emitted code as address intervals: a bump pointer, a list of holes, and, for the
    proofs, which allocation owns each byte. Addresses are offsets from the page-aligned base. */
module PoolModel {
  import opened Arith
  import opened Common

  datatype Hole = Hole(lo: nat, hi: nat)

  /** `owner` maps every byte handed out to the number of the call that handed it out. */
  datatype Pool = Pool(page: nat, limit: nat, top: nat, holes: seq<Hole>, owner: map<nat, nat>, calls: nat)

  ghost predicate Within(h: Hole, o: nat) { h.lo <= o < h.hi }

  ghost predicate In(holes: seq<Hole>, o: nat) { exists k :: 0 <= k < |holes| && Within(holes[k], o) }

  /** Non-empty, strictly sorted, never adjacent, page-aligned, below the top. */
  ghost predicate Canonical(page: nat, top: nat, holes: seq<Hole>) {
    && (forall k | 0 <= k < |holes| :: holes[k].lo < holes[k].hi <= top && Aligned(page, holes[k].lo) && Aligned(page, holes[k].hi))
    && (forall k, l | 0 <= k < l < |holes| :: holes[k].hi < holes[l].lo)
  }

  /** Outstanding allocations and holes partition `[0, top)`. */
  ghost predicate Partition(s: Pool) {
    forall o: nat :: (o < s.top ==> (o in s.owner <==> !In(s.holes, o))) && (o >= s.top ==> o !in s.owner)
  }

  ghost predicate Inv(s: Pool) {
    && s.page > 0 && Aligned(s.page, s.top) && s.top <= s.limit
    && Canonical(s.page, s.top, s.holes)
    && Partition(s)
    && (forall o | o in s.owner :: s.owner[o] < s.calls)
  }

  ghost predicate Owned(s: Pool, lo: nat, hi: nat) { forall o: nat | lo <= o < hi :: o in s.owner }

  /** Bytes `[lo, hi)` go to call `id`. */
  ghost function Grant(owner: map<nat, nat>, lo: nat, hi: nat, id: nat): (r: map<nat, nat>)
    ensures forall o: nat :: o in r <==> o in owner || lo <= o < hi
    ensures forall o: nat | o in r :: r[o] == if lo <= o < hi then id else owner[o]
    decreases hi
  {
    if lo >= hi then owner else Grant(owner, lo, hi - 1, id)[hi - 1 := id]
  }

  ghost function Take(owner: map<nat, nat>, lo: nat, hi: nat): map<nat, nat> {
    map o: nat | o in owner && !(lo <= o < hi) :: owner[o]
  }

  // ---------------------------------------------------------------- hole list

  /** The number of holes that start below `x`. */
  function Find(holes: seq<Hole>, x: nat): (i: nat)
    ensures i <= |holes|
  {
    if holes == [] || holes[0].lo >= x then 0 else 1 + Find(holes[1..], x)
  }

  lemma {:induction false} FindSplits(page: nat, top: nat, holes: seq<Hole>, x: nat)
    requires Canonical(page, top, holes)
    ensures forall k | 0 <= k < |holes| :: holes[k].lo < x <==> k < Find(holes, x)
  {
    if holes != [] && holes[0].lo < x {
      var rest := holes[1..];
      FindSplits(page, top, rest, x);
      forall k | 0 <= k < |holes| ensures holes[k].lo < x <==> k < Find(holes, x) {
        if k > 0 { assert holes[k] == rest[k - 1]; }
      }
    }
  }

  function Erase(holes: seq<Hole>, i: nat, n: nat): seq<Hole>
    requires i + n <= |holes|
  {
    holes[..i] + holes[i + n..]
  }

  function Insert(holes: seq<Hole>, i: nat, h: Hole): seq<Hole>
    requires i <= |holes|
  {
    holes[..i] + [h] + holes[i..]
  }

  function Truncate(holes: seq<Hole>, top: nat): seq<Hole> {
    var i := Find(holes, top);
    if i > 0 && holes[i - 1].hi > top then
      if holes[i - 1].lo >= top then Erase(holes[..i], i - 1, 1) else holes[..i][i - 1 := Hole(holes[i - 1].lo, top)]
    else holes[..i]
  }

  /** Absorb the hole that ends at `lo`: the list, the position and the new lower bound. */
  function MergeLeft(holes: seq<Hole>, lo: nat): (r: (seq<Hole>, nat, nat))
    ensures r.1 <= |r.0|
  {
    var i := Find(holes, lo);
    if i > 0 && holes[i - 1].hi == lo then (Erase(holes, i - 1, 1), i - 1, holes[i - 1].lo) else (holes, i, lo)
  }

  /** Absorb the hole at position `i` if it starts at `hi`: the list and the new upper bound. */
  function MergeRight(holes: seq<Hole>, i: nat, hi: nat): (r: (seq<Hole>, nat))
    requires i <= |holes|
    ensures i <= |r.0|
  {
    if i < |holes| && holes[i].lo == hi then (Erase(holes, i, 1), holes[i].hi) else (holes, hi)
  }

  predicate Overlaps(holes: seq<Hole>, lo: nat, hi: nat) {
    var i := Find(holes, lo);
    (i > 0 && holes[i - 1].hi > lo) || (i < |holes| && holes[i].lo < hi)
  }

  /** First fit: the lowest hole of at least `min` bytes. */
  function FirstFit(holes: seq<Hole>, min: nat, i: nat): (r: Option<nat>)
    ensures r.Some? ==> i <= r.value < |holes|
    decreases |holes| - i
  {
    if i >= |holes| then None else if holes[i].hi - holes[i].lo >= min then Some(i) else FirstFit(holes, min, i + 1)
  }

  // ---------------------------------------------------------------- operations

  ghost function Alloc(s: Pool, size: nat): (Pool, Option<nat>)
    requires s.page > 0
  {
    var start, room := Ceil(s.page, s.top), Ceil(s.page, size);
    if start + room > s.limit then (s, None)
    else (s.(top := start + room, owner := Grant(s.owner, start, start + room, s.calls), calls := s.calls + 1), Some(start))
  }

  ghost function Trim(s: Pool, buf: nat, reserved: nat, used: nat): Pool
    requires s.page > 0
  {
    var want := Ceil(s.page, buf + used);
    if buf + Ceil(s.page, reserved) != s.top || want < buf || want > s.top then s
    else s.(top := want, owner := Take(s.owner, want, s.top))
  }

  /** `None`: the program aborts on an out-of-order free. */
  ghost function Free(s: Pool, buf: nat, size: nat): Option<Pool>
    requires s.page > 0
  {
    if buf + Ceil(s.page, size) != s.top then None else Some(s.(top := buf, owner := Take(s.owner, buf, s.top)))
  }

  ghost function Release(s: Pool, mark: nat): Pool {
    if mark > s.top then s else s.(top := mark, holes := Truncate(s.holes, mark), owner := Take(s.owner, mark, s.top))
  }

  /** `None`: the program aborts, the range overlaps a hole. */
  ghost function Reclaim(s: Pool, lo: nat, hi0: nat): Option<Pool> {
    var hi := if hi0 > s.top then s.top else hi0;
    if hi <= lo then Some(s)
    else if Overlaps(s.holes, lo, hi) then None
    else
      var (h1, i, a) := MergeLeft(s.holes, lo);
      var (h, b) := MergeRight(h1, i, hi);
      var owner := Take(s.owner, lo, hi);
      if b == s.top then Some(s.(top := a, holes := h, owner := owner)) else Some(s.(holes := Insert(h, i, Hole(a, b)), owner := owner))
  }

  ghost function AllocHole(s: Pool, min: nat): (Pool, Option<Hole>) {
    match FirstFit(s.holes, min, 0)
    case None => (s, None)
    case Some(i) => (s.(holes := Erase(s.holes, i, 1), owner := Grant(s.owner, s.holes[i].lo, s.holes[i].hi, s.calls), calls := s.calls + 1), Some(s.holes[i]))
  }

  ghost function HoleReturn(s: Pool, buf: nat, keep: nat, cap: nat): Option<Pool>
    requires s.page > 0
  {
    var lo := Ceil(s.page, buf + keep);
    if buf + cap <= lo then Some(s) else Reclaim(s, lo, buf + cap)
  }

  predicate InHole(holes: seq<Hole>, o: nat) {
    var i := Find(holes, o + 1);
    i > 0 && holes[i - 1].lo <= o < holes[i - 1].hi
  }
}
