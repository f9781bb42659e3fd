/** C3 linearization: merging ordered lists of class names into one order. */
module C3Model {
  import opened Common

  type Name = string

  predicate InTail(l: seq<Name>, x: Name) { exists k :: 1 <= k < |l| && l[k] == x }

  predicate InSomeTail(ls: seq<seq<Name>>, x: Name) { exists j :: 0 <= j < |ls| && InTail(ls[j], x) }

  /** The head of list `i` may be emitted next. */
  predicate Good(ls: seq<seq<Name>>, i: nat)
    requires i < |ls|
  {
    ls[i] != [] && !InSomeTail(ls, ls[i][0])
  }

  /** The first list from `i` on whose head may be emitted. */
  function FirstGood(ls: seq<seq<Name>>, i: nat): (r: Option<nat>)
    requires i <= |ls|
    ensures r.Some? ==> i <= r.value < |ls| && Good(ls, r.value) && forall k | i <= k < r.value :: !Good(ls, k)
    ensures r.None? ==> forall k | i <= k < |ls| :: !Good(ls, k)
    decreases |ls| - i
  {
    if i == |ls| then None else if Good(ls, i) then Some(i) else FirstGood(ls, i + 1)
  }

  /** `l` without `x`. */
  function Strip(l: seq<Name>, x: Name): seq<Name> {
    if l == [] then [] else Strip(l[..|l| - 1], x) + if l[|l| - 1] == x then [] else [l[|l| - 1]]
  }

  function StripAll(ls: seq<seq<Name>>, x: Name): (r: seq<seq<Name>>)
    ensures |r| == |ls| && forall i | 0 <= i < |ls| :: r[i] == Strip(ls[i], x)
  {
    seq(|ls|, i requires 0 <= i < |ls| => Strip(ls[i], x))
  }

  function Total(ls: seq<seq<Name>>): nat { if ls == [] then 0 else Total(ls[..|ls| - 1]) + |ls[|ls| - 1]| }

  lemma {:induction false} StripShorter(l: seq<Name>, x: Name)
    ensures |Strip(l, x)| <= |l| && (x in l ==> |Strip(l, x)| < |l|)
    ensures forall y :: y in Strip(l, x) <==> y in l && y != x
  {
    if l != [] {
      StripShorter(l[..|l| - 1], x);
      assert l == l[..|l| - 1] + [l[|l| - 1]];
    }
  }

  lemma {:induction false} TotalShorter(ls: seq<seq<Name>>, rs: seq<seq<Name>>, i: nat)
    requires |ls| == |rs| && forall k | 0 <= k < |ls| :: |rs[k]| <= |ls[k]|
    ensures Total(rs) <= Total(ls)
    ensures i < |ls| && |rs[i]| < |ls[i]| ==> Total(rs) < Total(ls)
  {
    if ls != [] {
      var n := |ls| - 1;
      TotalShorter(ls[..n], rs[..n], i);
    }
  }

  /** Emitting a head makes the lists shorter. */
  lemma PickShrinks(ls: seq<seq<Name>>, i: nat)
    requires i < |ls| && ls[i] != []
    ensures Total(StripAll(ls, ls[i][0])) < Total(ls)
  {
    var rs := StripAll(ls, ls[i][0]);
    forall k | 0 <= k < |ls| ensures |rs[k]| <= |ls[k]| { StripShorter(ls[k], ls[i][0]); }
    StripShorter(ls[i], ls[i][0]);
    TotalShorter(ls, rs, i);
  }

  /** What a merge emits, and the lists it is left with. */
  function Merge(ls: seq<seq<Name>>): (seq<Name>, seq<seq<Name>>)
    decreases Total(ls)
  {
    match FirstGood(ls, 0)
    case None => ([], ls)
    case Some(i) =>
      PickShrinks(ls, i);
      var x := ls[i][0];
      var (out, rest) := Merge(StripAll(ls, x));
      ([x] + out, rest)
  }

  function Emitted(ls: seq<seq<Name>>): seq<Name> { Merge(ls).0 }

  function Rest(ls: seq<seq<Name>>): seq<seq<Name>> { Merge(ls).1 }

  lemma MergeStep(ls: seq<seq<Name>>)
    ensures match FirstGood(ls, 0)
            case None => Emitted(ls) == [] && Rest(ls) == ls
            case Some(i) =>
              var x := ls[i][0];
              Emitted(ls) == [x] + Emitted(StripAll(ls, x)) && Rest(ls) == Rest(StripAll(ls, x)) && Total(StripAll(ls, x)) < Total(ls)
  {
    if FirstGood(ls, 0).Some? { PickShrinks(ls, FirstGood(ls, 0).value); }
  }

  // ---------------------------------------------------------------- what is emitted

  ghost predicate Occurs(ls: seq<seq<Name>>, x: Name) { exists i :: 0 <= i < |ls| && x in ls[i] }

  lemma StripOccurs(ls: seq<seq<Name>>, x: Name, y: Name)
    ensures Occurs(StripAll(ls, x), y) <==> Occurs(ls, y) && y != x
  {
    forall i | 0 <= i < |ls| ensures y in StripAll(ls, x)[i] <==> y in ls[i] && y != x { StripShorter(ls[i], x); }
    if Occurs(ls, y) && y != x {
      var i :| 0 <= i < |ls| && y in ls[i];
      assert y in StripAll(ls, x)[i];
    }
  }

  /** The merge emits names of the lists, none twice, and no more than the output has room for. Every name
      of the lists is emitted or left over, never both. */
  lemma {:induction false} MergeEmits(ls: seq<seq<Name>>)
    ensures NoDup(Emitted(ls)) && |Emitted(ls)| <= Total(ls) && |Rest(ls)| == |ls|
    ensures forall y :: y in Emitted(ls) ==> Occurs(ls, y)
    ensures forall y :: Occurs(ls, y) <==> y in Emitted(ls) || Occurs(Rest(ls), y)
    ensures forall y :: !(y in Emitted(ls) && Occurs(Rest(ls), y))
    decreases Total(ls)
  {
    hide Merge, Emitted, Rest, Total, FirstGood, StripAll, Occurs;
    MergeStep(ls);
    var g := FirstGood(ls, 0);
    if g.Some? {
      var x := ls[g.value][0];
      var rs := StripAll(ls, x);
      MergeEmits(rs);
      assert Occurs(ls, x) by { HeadOccurs(ls, g.value); }
      forall y ensures Occurs(rs, y) <==> Occurs(ls, y) && y != x { StripOccurs(ls, x, y); }
      assert x !in Emitted(rs);
      assert forall y :: y in Emitted(ls) <==> y == x || y in Emitted(rs);
    }
  }

  lemma HeadOccurs(ls: seq<seq<Name>>, i: nat)
    requires i < |ls| && ls[i] != []
    ensures Occurs(ls, ls[i][0])
  {
    assert ls[i][0] in ls[i];
  }

  // ---------------------------------------------------------------- order

  /** `x` stands before `y` in `s`. */
  ghost predicate Before(s: seq<Name>, x: Name, y: Name) { exists p, q :: 0 <= p < q < |s| && s[p] == x && s[q] == y }

  lemma {:induction false} StripKeepsOrder(l: seq<Name>, v: Name, x: Name, y: Name)
    requires Before(l, x, y) && x != v && y != v
    ensures Before(Strip(l, v), x, y)
  {
    var p, q :| 0 <= p < q < |l| && l[p] == x && l[q] == y;
    var front := l[..|l| - 1];
    var t := Strip(front, v);
    if q < |l| - 1 {
      assert front[p] == x && front[q] == y;
      StripKeepsOrder(front, v, x, y);
      var a, b :| 0 <= a < b < |t| && t[a] == x && t[b] == y;
      assert Strip(l, v)[a] == x && Strip(l, v)[b] == y;
    } else {
      StripShorter(front, v);
      assert front[p] == x && x in t;
      var a :| 0 <= a < |t| && t[a] == x;
      assert Strip(l, v)[a] == x && Strip(l, v)[|t|] == y;
    }
  }

  /** A name that stands behind another in some list is not emitted before it. */
  lemma {:induction false} MergeKeepsOrder(ls: seq<seq<Name>>, j: nat, x: Name, y: Name)
    requires j < |ls| && Before(ls[j], x, y) && y in Emitted(ls)
    ensures Before(Emitted(ls), x, y)
    decreases Total(ls)
  {
    hide Merge, Emitted, Rest, Total, FirstGood, StripAll;
    MergeStep(ls);
    var g := FirstGood(ls, 0);
    if g.Some? {
      var v := ls[g.value][0];
      var rs := StripAll(ls, v);
      assert y != v by { TailNotGood(ls, g.value, j, x, y); }
      assert y in Emitted(rs);
      if x == v {
        var q :| 0 <= q < |Emitted(rs)| && Emitted(rs)[q] == y;
        assert Emitted(ls)[0] == x && Emitted(ls)[q + 1] == y;
      } else {
        StripKeepsOrder(ls[j], v, x, y);
        MergeKeepsOrder(rs, j, x, y);
        var a, b :| 0 <= a < b < |Emitted(rs)| && Emitted(rs)[a] == x && Emitted(rs)[b] == y;
        assert Emitted(ls)[a + 1] == x && Emitted(ls)[b + 1] == y;
      }
    }
  }

  lemma TailNotGood(ls: seq<seq<Name>>, i: nat, j: nat, x: Name, y: Name)
    requires i < |ls| && j < |ls| && Good(ls, i) && Before(ls[j], x, y)
    ensures y != ls[i][0]
  {
    var p, q :| 0 <= p < q < |ls[j]| && ls[j][p] == x && ls[j][q] == y;
    assert InTail(ls[j], y);
  }

  // ---------------------------------------------------------------- where it stops

  ghost predicate Done(ls: seq<seq<Name>>) { forall i | 0 <= i < |ls| :: ls[i] == [] }

  /** Every list that is left has a head that stands in some tail. */
  ghost predicate Stuck(ls: seq<seq<Name>>) { forall i | 0 <= i < |ls| && ls[i] != [] :: InSomeTail(ls, ls[i][0]) }

  lemma {:induction false} MergeStops(ls: seq<seq<Name>>)
    ensures Stuck(Rest(ls))
    decreases Total(ls)
  {
    hide Total, StripAll;
    MergeStep(ls);
    var g := FirstGood(ls, 0);
    if g.Some? {
      MergeStops(StripAll(ls, ls[g.value][0]));
    } else {
      forall i | 0 <= i < |ls| && ls[i] != [] ensures InSomeTail(ls, ls[i][0]) { assert !Good(ls, i); }
      hide Emitted, Rest, Merge, InSomeTail;
    }
  }

  // ---------------------------------------------------------------- exactly what is emitted, and when all is

  /** With each name of `d` all names before it in any list are in `d`, and `rank` puts them in that order. */
  ghost predicate Grounded(ls: seq<seq<Name>>, d: set<Name>, rank: Name -> int) {
    forall j, p, q | 0 <= j < |ls| && 0 <= p < q < |ls[j]| && ls[j][q] in d :: ls[j][p] in d && rank(ls[j][p]) < rank(ls[j][q])
  }

  /** Some linear order agrees with all lists on `x` and everything that must come before it. */
  ghost predicate Orderly(ls: seq<seq<Name>>, x: Name) {
    exists d: set<Name>, rank: Name -> int :: x in d && Grounded(ls, d, rank)
  }

  ghost predicate HeadIn(ls: seq<seq<Name>>, d: set<Name>, i: nat)
    requires i < |ls|
  {
    ls[i] != [] && ls[i][0] in d
  }

  /** Of the heads in `d` of the first `n` lists, one of least rank. */
  lemma {:induction false} LeastHead(ls: seq<seq<Name>>, d: set<Name>, rank: Name -> int, n: nat) returns (i: nat)
    requires n <= |ls| && exists k :: 0 <= k < n && HeadIn(ls, d, k)
    ensures i < n && HeadIn(ls, d, i) && forall k | 0 <= k < n && HeadIn(ls, d, k) :: rank(ls[i][0]) <= rank(ls[k][0])
  {
    if exists k :: 0 <= k < n - 1 && HeadIn(ls, d, k) {
      i := LeastHead(ls, d, rank, n - 1);
      if HeadIn(ls, d, n - 1) && rank(ls[n - 1][0]) < rank(ls[i][0]) { i := n - 1; }
    } else {
      i := n - 1;
    }
  }

  lemma TailAbove(ls: seq<seq<Name>>, d: set<Name>, rank: Name -> int, x: Name)
    requires Grounded(ls, d, rank) && x in d && InSomeTail(ls, x)
    ensures exists j :: 0 <= j < |ls| && HeadIn(ls, d, j) && rank(ls[j][0]) < rank(x)
  {
    var j :| 0 <= j < |ls| && InTail(ls[j], x);
    var k :| 1 <= k < |ls[j]| && ls[j][k] == x;
    assert HeadIn(ls, d, j);
  }

  /** Where a name of `d` is left, a list is headed by one. */
  lemma HeadOver(ls: seq<seq<Name>>, d: set<Name>, rank: Name -> int, x: Name)
    requires Grounded(ls, d, rank) && x in d && Occurs(ls, x)
    ensures exists j :: 0 <= j < |ls| && HeadIn(ls, d, j)
  {
    var j :| 0 <= j < |ls| && x in ls[j];
    var q :| 0 <= q < |ls[j]| && ls[j][q] == x;
    assert HeadIn(ls, d, j);
  }

  /** Lists that are stuck have none of these names left. */
  lemma GroundedNotStuck(ls: seq<seq<Name>>, d: set<Name>, rank: Name -> int, x: Name)
    requires Grounded(ls, d, rank) && Stuck(ls) && x in d
    ensures !Occurs(ls, x)
  {
    if Occurs(ls, x) {
      HeadOver(ls, d, rank, x);
      var h := LeastHead(ls, d, rank, |ls|);
      TailAbove(ls, d, rank, ls[h][0]);
    }
  }

  /** Positions of what `Strip` keeps. */
  lemma {:induction false} StripFrom(l: seq<Name>, v: Name, p: nat, q: nat) returns (a: nat, b: nat)
    requires p < q < |Strip(l, v)|
    ensures a < b < |l| && l[a] == Strip(l, v)[p] && l[b] == Strip(l, v)[q]
  {
    var front := l[..|l| - 1];
    var t := Strip(front, v);
    if q < |t| {
      a, b := StripFrom(front, v, p, q);
    } else {
      StripShorter(front, v);
      assert t[p] in front;
      a :| 0 <= a < |front| && front[a] == t[p];
      b := |l| - 1;
    }
  }

  lemma StripGrounded(ls: seq<seq<Name>>, d: set<Name>, rank: Name -> int, v: Name)
    requires Grounded(ls, d, rank)
    ensures Grounded(StripAll(ls, v), d, rank)
  {
    hide Strip;
    var rs := StripAll(ls, v);
    forall j, p, q | 0 <= j < |rs| && 0 <= p < q < |rs[j]| && rs[j][q] in d ensures rs[j][p] in d && rank(rs[j][p]) < rank(rs[j][q]) {
      var a, b := StripFrom(ls[j], v, p, q);
    }
  }

  lemma {:induction false} RestGrounded(ls: seq<seq<Name>>, d: set<Name>, rank: Name -> int)
    requires Grounded(ls, d, rank)
    ensures Grounded(Rest(ls), d, rank)
    decreases Total(ls)
  {
    hide Grounded, Total, StripAll, Merge, Rest, Emitted;
    MergeStep(ls);
    var g := FirstGood(ls, 0);
    if g.Some? {
      StripGrounded(ls, d, rank, ls[g.value][0]);
      RestGrounded(StripAll(ls, ls[g.value][0]), d, rank);
    }
  }

  /** Position in the output. */
  function Place(s: seq<Name>, x: Name): nat { if s == [] || s[0] == x then 0 else 1 + Place(s[1..], x) }

  lemma {:induction false} PlaceOf(s: seq<Name>, p: nat)
    requires NoDup(s) && p < |s|
    ensures Place(s, s[p]) == p
  {
    if p > 0 {
      assert NoDup(s[1..]) by { assert forall k | 0 <= k < |s| - 1 :: s[1..][k] == s[k + 1]; }
      PlaceOf(s[1..], p - 1);
    }
  }

  ghost function Names(s: seq<Name>): set<Name> { set x | x in s }

  ghost function Places(s: seq<Name>): Name -> int { x => Place(s, x) }

  lemma BeforeInOut(ls: seq<seq<Name>>, j: nat, x: Name, y: Name)
    requires j < |ls| && Before(ls[j], x, y) && y in Emitted(ls)
    ensures x in Emitted(ls) && Place(Emitted(ls), x) < Place(Emitted(ls), y)
  {
    hide Merge, Emitted, Rest, Total;
    MergeEmits(ls);
    MergeKeepsOrder(ls, j, x, y);
    var out := Emitted(ls);
    var a, b :| 0 <= a < b < |out| && out[a] == x && out[b] == y;
    PlaceOf(out, a);
    PlaceOf(out, b);
  }

  /** What was emitted is an order that agrees with the lists. */
  lemma EmittedGrounded(ls: seq<seq<Name>>)
    ensures Grounded(ls, Names(Emitted(ls)), Places(Emitted(ls)))
  {
    hide Merge, Emitted, Rest, Total, Place;
    forall j, p, q | 0 <= j < |ls| && 0 <= p < q < |ls[j]| && ls[j][q] in Names(Emitted(ls))
      ensures ls[j][p] in Names(Emitted(ls)) && Places(Emitted(ls))(ls[j][p]) < Places(Emitted(ls))(ls[j][q])
    {
      BeforeInOut(ls, j, ls[j][p], ls[j][q]);
    }
  }

  /** Stuck or not, a merge emits exactly the names that can be put in line after everything that comes before
      them in any list. */
  lemma EmitsExactly(ls: seq<seq<Name>>, x: Name)
    ensures x in Emitted(ls) <==> Occurs(ls, x) && Orderly(ls, x)
  {
    hide Merge, Emitted, Rest, Total, Occurs, Stuck, Grounded;
    MergeEmits(ls);
    MergeStops(ls);
    if x in Emitted(ls) {
      EmittedGrounded(ls);
      assert x in Names(Emitted(ls));
    } else if Orderly(ls, x) {
      var d: set<Name>, rank: Name -> int :| x in d && Grounded(ls, d, rank);
      RestGrounded(ls, d, rank);
      GroundedNotStuck(Rest(ls), d, rank, x);
    }
  }

  /** `rank` puts every list in increasing order. */
  ghost predicate Ranked(rank: Name -> int, ls: seq<seq<Name>>) {
    forall j, p, q | 0 <= j < |ls| && 0 <= p < q < |ls[j]| :: rank(ls[j][p]) < rank(ls[j][q])
  }

  lemma NothingOccurs(ls: seq<seq<Name>>)
    ensures Done(ls) <==> forall y :: !Occurs(ls, y)
  {
    forall i | 0 <= i < |ls| && ls[i] != [] ensures exists y :: Occurs(ls, y) { HeadOccurs(ls, i); }
  }

  lemma RankedGrounded(rank: Name -> int, ls: seq<seq<Name>>, x: Name)
    requires Ranked(rank, ls) && Occurs(ls, x)
    ensures Orderly(ls, x)
  {
    var d := set i, p | 0 <= i < |ls| && 0 <= p < |ls[i]| :: ls[i][p];
    assert Grounded(ls, d, rank);
    assert x in d;
  }

  /** The merge consumes every list exactly when some linear order has them all in order. */
  lemma MergeCompletes(ls: seq<seq<Name>>)
    ensures Done(Rest(ls)) <==> exists rank: Name -> int :: Ranked(rank, ls)
  {
    hide Merge, Emitted, Rest, Total, Occurs, Done, Orderly;
    MergeEmits(ls);
    NothingOccurs(Rest(ls));
    if rank: Name -> int :| Ranked(rank, ls) {
      forall y | Occurs(ls, y) ensures y in Emitted(ls) { RankedGrounded(rank, ls, y); EmitsExactly(ls, y); }
    }
    if Done(Rest(ls)) {
      EmittedGrounded(ls);
      forall j, q | 0 <= j < |ls| && 0 <= q < |ls[j]| ensures ls[j][q] in Names(Emitted(ls)) { OccursAt(ls, j, q); }
      assert Ranked(Places(Emitted(ls)), ls);
    }
  }

  lemma OccursAt(ls: seq<seq<Name>>, j: nat, q: nat)
    requires j < |ls| && q < |ls[j]|
    ensures Occurs(ls, ls[j][q])
  {
  }

  // ---------------------------------------------------------------- method resolution order

  /** A parent's list is its own order, or just its name when no such class is known. */
  datatype Parent = Known(mro: seq<Name>) | Unknown(name: Name)

  function ListOf(p: Parent): seq<Name> { if p.Known? then p.mro else [p.name] }

  function Lists(ps: seq<Parent>, names: seq<Name>): (ls: seq<seq<Name>>)
    ensures |ls| == |ps| + 1 && ls[|ps|] == names && forall i | 0 <= i < |ps| :: ls[i] == ListOf(ps[i])
  {
    seq(|ps|, i requires 0 <= i < |ps| => ListOf(ps[i])) + [names]
  }

  /** The order of a class: itself, then whatever the merge emitted. */
  function Mro(self: Name, ps: seq<Parent>, names: seq<Name>): seq<Name> { [self] + Emitted(Lists(ps, names)) }

  /** `l` is a subsequence of `s`. */
  ghost predicate Within(l: seq<Name>, s: seq<Name>) {
    (forall x | x in l :: x in s) && forall p, q | 0 <= p < q < |l| :: Before(s, l[p], l[q])
  }

  /** The class comes first. A name comes twice exactly when the class stands in the lists and can be put in
      line after all that comes before it there. When the parents' orders and the parent list agree they are all
      kept, and standing in the lists is enough. */
  lemma MroExtendsParents(self: Name, ps: seq<Parent>, names: seq<Name>)
    ensures var m := Mro(self, ps, names); var ls := Lists(ps, names);
            && m[0] == self
            && (!NoDup(m) <==> Occurs(ls, self) && Orderly(ls, self))
            && ((exists rank: Name -> int :: Ranked(rank, ls)) ==>
                  && (forall i | 0 <= i < |ps| :: Within(ListOf(ps[i]), m))
                  && Within(names, m)
                  && (!NoDup(m) <==> Occurs(ls, self)))
  {
    hide Ranked, Emitted, Within, Before, Merge, Rest, Occurs, Orderly, Total, NoDup;
    var ls := Lists(ps, names);
    MergeEmits(ls);
    MergeCompletes(ls);
    EmitsExactly(ls, self);
    var m := Mro(self, ps, names);
    NoDupCons(self, Emitted(ls));
    if rank: Name -> int :| Ranked(rank, ls) {
      if Occurs(ls, self) { RankedGrounded(rank, ls, self); }
      forall i | 0 <= i < |ls| ensures Within(ls[i], m) { MergedWithin(self, ls, i); }
      assert ls[|ps|] == names;
      forall i | 0 <= i < |ps| ensures Within(ListOf(ps[i]), m) { assert ls[i] == ListOf(ps[i]); }
    }
  }

  lemma NoDupCons(x: Name, s: seq<Name>)
    requires NoDup(s)
    ensures NoDup([x] + s) <==> x !in s
  {
    var m := [x] + s;
    if x in s { var k :| 0 <= k < |s| && s[k] == x; assert m[k + 1] == m[0]; }
  }

  lemma MergedWithin(self: Name, ls: seq<seq<Name>>, i: nat)
    requires i < |ls| && Done(Rest(ls))
    ensures Within(ls[i], [self] + Emitted(ls))
  {
    MergeEmits(ls);
    var out := Emitted(ls);
    var m := [self] + out;
    forall x | x in ls[i] ensures x in m && x in out { assert Occurs(ls, x); }
    forall p, q | 0 <= p < q < |ls[i]| ensures Before(m, ls[i][p], ls[i][q]) {
      MergeKeepsOrder(ls, i, ls[i][p], ls[i][q]);
      var a, b :| 0 <= a < b < |out| && out[a] == ls[i][p] && out[b] == ls[i][q];
      assert m[a + 1] == ls[i][p] && m[b + 1] == ls[i][q];
    }
  }

  lemma {:induction false} FirstGoodIs(ls: seq<seq<Name>>, j: nat, i: nat)
    requires j <= i < |ls| && Good(ls, i) && forall k | j <= k < i :: !Good(ls, k)
    ensures FirstGood(ls, j) == Some(i)
    decreases i - j
  {
    hide Good;
    if j < i { FirstGoodIs(ls, j + 1, i); }
  }

  lemma MergePick(ls: seq<seq<Name>>, i: nat, x: Name, rs: seq<seq<Name>>)
    requires i < |ls| && Good(ls, i) && ls[i][0] == x && rs == StripAll(ls, x)
    requires forall k | 0 <= k < i :: !Good(ls, k)
    ensures Emitted(ls) == [x] + Emitted(rs) && Rest(ls) == Rest(rs)
  {
    hide *;
    FirstGoodIs(ls, 0, i);
    MergeStep(ls);
  }

  lemma StripFirst(x: Name, y: Name)
    requires x != y
    ensures Strip([x, y], x) == [y] && Strip([x], x) == [] && Strip([], x) == []
  {
    var a, b := [x], [x, y];
    assert a[..|a| - 1] == [] && b[..|b| - 1] == a;
    assert Strip([], x) == [];
    assert Strip(a, x) == Strip(a[..|a| - 1], x) + [];
    assert Strip(b, x) == Strip(b[..|b| - 1], x) + [y];
  }

  lemma CycleFirst(x: Name, y: Name)
    requires x != y
    ensures Emitted([[x, y], [x]]) == [x] + Emitted([[y], []])
  {
    var ls := [[x, y], [x]];
    StripFirst(x, y);
    assert !InTail(ls[0], x) && !InTail(ls[1], x);
    assert StripAll(ls, x) == [[y], []];
    hide Strip, Emitted, StripAll;
    MergePick(ls, 0, x, [[y], []]);
  }

  lemma CycleSecond(x: Name, y: Name)
    requires x != y
    ensures Emitted([[y], []]) == [y]
  {
    var ls := [[y], []];
    StripFirst(y, x);
    assert !InTail(ls[0], y) && !InTail(ls[1], y);
    assert StripAll(ls, y) == [[], []];
    MergeStep([[], []]);
    assert !Good([[], []], 0) && !Good([[], []], 1);
    hide Strip, Emitted, StripAll;
    MergePick(ls, 0, y, [[], []]);
  }

  /** Two classes that name each other as parents: the second order lists its own class twice. */
  lemma CycleRepeats()
    ensures Mro("B", [Known(["A", "B"])], ["A"]) == ["B", "A", "B"]
  {
    assert Lists([Known(["A", "B"])], ["A"]) == [["A", "B"], ["A"]];
    assert "A" != "B";
    CycleFirst("A", "B");
    CycleSecond("A", "B");
    hide Emitted;
  }

  lemma StripSnoc(l: seq<Name>, c: Name, x: Name)
    ensures Strip(l + [c], x) == Strip(l, x) + if c == x then [] else [c]
  {
    assert (l + [c])[..|l|] == l;
  }

  lemma StripOf2(a: Name, b: Name, x: Name)
    requires b != x
    ensures Strip([a, b], x) == if a == x then [b] else [a, b]
  {
    assert Strip([], x) == [] && [] + [a] == [a] && [a] + [b] == [a, b];
    hide Strip;
    StripSnoc([], a, x);
    StripSnoc([a], b, x);
  }

  lemma StripOf3(a: Name, b: Name, c: Name, x: Name)
    requires b != x && c != x
    ensures Strip([a, b, c], x) == if a == x then [b, c] else [a, b, c]
  {
    StripOf2(a, b, x);
    assert [a, b] + [c] == [a, b, c] && [b] + [c] == [b, c];
    hide Strip;
    StripSnoc([a, b], c, x);
  }

  /** Two parents that order A and B oppositely, and what the merge makes of them. */
  const Opposed: seq<seq<Name>> := [["X", "A", "B"], ["Y", "B", "A"], ["X", "Y"]]

  const OpposedNext: seq<seq<Name>> := [["A", "B"], ["Y", "B", "A"], ["Y"]]

  const OpposedLast: seq<seq<Name>> := [["A", "B"], ["B", "A"], []]

  lemma StripThree(a: seq<Name>, b: seq<Name>, c: seq<Name>, x: Name)
    ensures StripAll([a, b, c], x) == [Strip(a, x), Strip(b, x), Strip(c, x)]
  {
    hide Strip;
  }

  lemma StripOwn(x: Name)
    ensures Strip([x], x) == []
  {
    assert [x][..0] == [];
  }

  lemma OpposedStripped()
    ensures StripAll(Opposed, "X") == OpposedNext && StripAll(OpposedNext, "Y") == OpposedLast
  {
    hide Strip, StripAll;
    StripOf3("X", "A", "B", "X");
    StripOf3("Y", "B", "A", "X");
    StripOf2("X", "Y", "X");
    StripThree(["X", "A", "B"], ["Y", "B", "A"], ["X", "Y"], "X");
    StripOf2("A", "B", "Y");
    StripOf3("Y", "B", "A", "Y");
    StripOwn("Y");
    StripThree(["A", "B"], ["Y", "B", "A"], ["Y"], "Y");
  }

  lemma OpposedHeads()
    ensures |Opposed| == |OpposedNext| == 3 && Opposed[0][0] == "X" && OpposedNext[1][0] == "Y"
    ensures Good(Opposed, 0) && !Good(OpposedNext, 0) && Good(OpposedNext, 1)
  {
    assert InTail(OpposedNext[1], OpposedNext[1][2]);
  }

  lemma PickSecond(ls: seq<seq<Name>>, x: Name, rs: seq<seq<Name>>)
    requires |ls| > 1 && !Good(ls, 0) && Good(ls, 1) && ls[1][0] == x && rs == StripAll(ls, x)
    ensures Emitted(ls) == [x] + Emitted(rs) && Rest(ls) == Rest(rs)
  {
    hide *;
    MergePick(ls, 1, x, rs);
  }

  lemma OpposedFirst()
    ensures Emitted(Opposed) == ["X"] + Emitted(OpposedNext) && Rest(Opposed) == Rest(OpposedNext)
  {
    hide *;
    OpposedHeads();
    OpposedStripped();
    MergePick(Opposed, 0, "X", OpposedNext);
  }

  lemma OpposedSecond()
    ensures Emitted(OpposedNext) == ["Y"] + Emitted(OpposedLast) && Rest(OpposedNext) == Rest(OpposedLast)
  {
    hide *;
    OpposedHeads();
    OpposedStripped();
    PickSecond(OpposedNext, "Y", OpposedLast);
  }

  lemma OpposedEnd()
    ensures Emitted(OpposedLast) == [] && Rest(OpposedLast) == OpposedLast && !Done(OpposedLast)
  {
    assert InTail(OpposedLast[0], OpposedLast[0][1]) && InTail(OpposedLast[1], OpposedLast[1][1]);
    MergeStep(OpposedLast);
    hide Emitted, Rest;
  }

  lemma OpposedLists()
    ensures Lists([Known(["X", "A", "B"]), Known(["Y", "B", "A"])], ["X", "Y"]) == Opposed
  {
  }

  /** Two parents that order A and B oppositely: the merge gets stuck, and the order lists neither A nor B. */
  lemma OpposedParentsStick()
    ensures var ps, names := [Known(["X", "A", "B"]), Known(["Y", "B", "A"])], ["X", "Y"];
            Mro("Z", ps, names) == ["Z", "X", "Y"] && !Done(Rest(Lists(ps, names)))
  {
    hide Emitted, Rest, Lists, Done;
    OpposedLists();
    OpposedFirst();
    OpposedSecond();
    OpposedEnd();
    assert ["X"] + (["Y"] + []) == ["X", "Y"] && ["Z"] + ["X", "Y"] == ["Z", "X", "Y"];
  }
}
