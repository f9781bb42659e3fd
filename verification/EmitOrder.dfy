/** The order in which a graph's boxes are emitted, and the line numbers made from it. */
module EmitOrder {
  import opened Common

  /** A box and its outgoing edges; 0 is the null pointer. */
  datatype Box = Box(gamma: nat, omega: nat, operands: seq<nat>)

  /** `all` lists the boxes; an edge may lead to a box that is not listed. */
  datatype Graph = Graph(all: seq<nat>, box: map<nat, Box>) {
    ghost predicate Ok() { forall i | 0 <= i < |all| && all[i] != 0 :: all[i] in box }
  }

  /** The first place where `nd` is listed. */
  function IndexFrom(all: seq<nat>, nd: nat, i: nat): (r: Option<nat>)
    requires i <= |all|
    ensures r.Some? ==> i <= r.value < |all| && all[r.value] == nd && forall k | i <= k < r.value :: all[k] != nd
    ensures r.None? ==> forall k | i <= k < |all| :: all[k] != nd
    decreases |all| - i
  {
    if i == |all| then None else if all[i] == nd then Some(i) else IndexFrom(all, nd, i + 1)
  }

  function IndexOf(g: Graph, nd: nat): (r: Option<nat>)
    ensures r.Some? ==> r.value < |g.all| && g.all[r.value] == nd && forall k | 0 <= k < r.value :: g.all[k] != nd
    ensures r.None? ==> nd !in g.all
  {
    IndexFrom(g.all, nd, 0)
  }

  // ---------------------------------------------------------------- the traversal

  /** Places, none twice. */
  ghost predicate Listing(g: Graph, order: seq<nat>) {
    && (forall i | 0 <= i < |order| :: order[i] < |g.all| && g.all[order[i]] != 0)
    && (forall i, j | 0 <= i < j < |order| :: order[i] != order[j])
  }

  function Below(n: nat): (r: set<nat>)
    ensures |r| == n && forall x: nat :: x in r <==> x < n
  {
    if n == 0 then {} else Below(n - 1) + {n - 1}
  }

  lemma FewerThan(s: seq<nat>, n: nat)
    requires (forall i | 0 <= i < |s| :: s[i] < n) && forall i, j | 0 <= i < j < |s| :: s[i] != s[j]
    ensures |s| <= n
  {
    MembersCount(s);
    assert Below(n) == Members(s) + (Below(n) - Members(s)) by { assert forall x | x in s :: x in Below(n); }
  }

  /** Another place still fits. */
  lemma Room(g: Graph, order: seq<nat>, ix: nat)
    requires Listing(g, order) && ix < |g.all| && ix !in order && g.all[ix] != 0
    ensures Listing(g, order + [ix]) && |order| < |g.all|
  {
    FewerThan(order + [ix], |g.all|);
  }

  ghost predicate Fits(g: Graph, order: seq<nat>, r: seq<nat>) { Listing(g, r) && |r| <= |g.all| && order <= r }

  function Visit(g: Graph, nd: nat, order: seq<nat>): (r: seq<nat>)
    requires g.Ok() && Listing(g, order) && |order| <= |g.all|
    ensures Fits(g, order, r)
    decreases |g.all| - |order|, 0, 0
  {
    if nd == 0 then order
    else
      var ix := IndexOf(g, nd);
      if ix.None? || ix.value in order then order
      else
        Room(g, order, ix.value);
        var b := g.box[nd];
        VisitAll(g, b.operands, Visit(g, b.omega, Visit(g, b.gamma, order + [ix.value])))
  }

  function VisitAll(g: Graph, ops: seq<nat>, order: seq<nat>): (r: seq<nat>)
    requires g.Ok() && Listing(g, order) && |order| <= |g.all|
    ensures Fits(g, order, r)
    decreases |g.all| - |order|, 1, |ops|
  {
    if ops == [] then order else VisitAll(g, ops[1..], Visit(g, ops[0], order))
  }

  /** The places of the boxes reached from `entry`, in the order they are emitted. */
  function Order(g: Graph, entry: nat): (r: seq<nat>)
    requires g.Ok()
    ensures Fits(g, [], r)
  {
    Visit(g, entry, [])
  }

  // ---------------------------------------------------------------- reachable is listed

  /** Is there an edge from place `i` to place `j`? An edge leads to where its target is first listed. */
  ghost predicate Edge(g: Graph, i: nat, j: nat) {
    && i < |g.all| && g.all[i] != 0 && g.all[i] in g.box
    && exists nd: nat :: nd != 0 && IndexOf(g, nd) == Some(j) && Target(g.box[g.all[i]], nd)
  }

  predicate Target(b: Box, nd: nat) { nd == b.gamma || nd == b.omega || nd in b.operands }

  ghost predicate Path(g: Graph, p: seq<nat>) { forall k | 0 <= k < |p| - 1 :: Edge(g, p[k], p[k + 1]) }

  ghost predicate ReachedBy(g: Graph, entry: nat, p: seq<nat>, j: nat) {
    |p| > 0 && entry != 0 && IndexOf(g, entry) == Some(p[0]) && p[|p| - 1] == j && Path(g, p)
  }

  ghost predicate Reachable(g: Graph, entry: nat, j: nat) { exists p: seq<nat> :: ReachedBy(g, entry, p, j) }

  /** Is `nd` null, unlisted, or listed in `r` already? */
  ghost predicate Covered(g: Graph, nd: nat, r: seq<nat>) { nd != 0 && IndexOf(g, nd).Some? ==> IndexOf(g, nd).value in r }

  /** Every edge from place `i` leads into `r`. */
  ghost predicate Closed(g: Graph, i: nat, r: seq<nat>) {
    i < |g.all| && g.all[i] != 0 && g.all[i] in g.box ==> forall nd: nat | Target(g.box[g.all[i]], nd) :: Covered(g, nd, r)
  }

  lemma ClosedGrows(g: Graph, i: nat, r: seq<nat>, s: seq<nat>)
    requires Closed(g, i, r) && r <= s
    ensures Closed(g, i, s)
  {
    forall nd: nat | i < |g.all| && g.all[i] != 0 && g.all[i] in g.box && Target(g.box[g.all[i]], nd) ensures Covered(g, nd, s) { assert Covered(g, nd, r); }
  }

  ghost predicate NewClosed(g: Graph, order: seq<nat>, r: seq<nat>) { forall i | i in r && i !in order :: Closed(g, i, r) }

  lemma NewClosedJoins(g: Graph, a: seq<nat>, b: seq<nat>, c: seq<nat>)
    requires NewClosed(g, a, b) && NewClosed(g, b, c) && a <= b <= c
    ensures NewClosed(g, a, c)
  {
    forall i | i in c && i !in a ensures Closed(g, i, c) { if i in b { ClosedGrows(g, i, b, c); } }
    hide Closed;
  }

  lemma NewClosedNone(g: Graph, r: seq<nat>)
    ensures NewClosed(g, r, r)
  {
    hide Closed;
  }

  lemma CoveredGrows(g: Graph, nd: nat, r: seq<nat>, s: seq<nat>)
    requires Covered(g, nd, r) && r <= s
    ensures Covered(g, nd, s)
  {
  }

  lemma {:induction false} VisitCloses(g: Graph, nd: nat, order: seq<nat>)
    requires g.Ok() && Listing(g, order) && |order| <= |g.all|
    ensures Covered(g, nd, Visit(g, nd, order)) && NewClosed(g, order, Visit(g, nd, order))
    decreases |g.all| - |order|, 0, 0
  {
    hide Closed, NewClosed, Listing, IndexOf;
    var ix := IndexOf(g, nd);
    if nd != 0 && ix.Some? && ix.value !in order {
      Room(g, order, ix.value);
      var b := g.box[nd];
      var o1 := order + [ix.value];
      var o2 := Visit(g, b.gamma, o1);
      var o3 := Visit(g, b.omega, o2);
      var r := VisitAll(g, b.operands, o3);
      VisitCloses(g, b.gamma, o1);
      VisitCloses(g, b.omega, o2);
      VisitAllCloses(g, b.operands, o3);
      NewClosedJoins(g, o1, o2, o3);
      NewClosedJoins(g, o1, o3, r);
      CoveredGrows(g, b.gamma, o2, r);
      CoveredGrows(g, b.omega, o3, r);
      RootCloses(g, ix.value, order, r);
      assert Covered(g, nd, o1) by { assert o1[|order|] == ix.value; }
      CoveredGrows(g, nd, o1, r);
    } else {
      NewClosedNone(g, order);
    }
  }

  lemma RootCloses(g: Graph, ix: nat, order: seq<nat>, r: seq<nat>)
    requires ix < |g.all| && g.all[ix] in g.box && NewClosed(g, order + [ix], r) && order + [ix] <= r
    requires var b := g.box[g.all[ix]]; Covered(g, b.gamma, r) && Covered(g, b.omega, r) && forall k | 0 <= k < |b.operands| :: Covered(g, b.operands[k], r)
    ensures NewClosed(g, order, r)
  {
    assert Closed(g, ix, r) by { hide Covered; }
    hide Closed, Covered;
  }

  lemma {:induction false} VisitAllCloses(g: Graph, ops: seq<nat>, order: seq<nat>)
    requires g.Ok() && Listing(g, order) && |order| <= |g.all|
    ensures NewClosed(g, order, VisitAll(g, ops, order))
    ensures forall k | 0 <= k < |ops| :: Covered(g, ops[k], VisitAll(g, ops, order))
    decreases |g.all| - |order|, 1, |ops|
  {
    hide Closed, NewClosed, Listing, Covered;
    if ops == [] {
      NewClosedNone(g, order);
    } else {
      var o1 := Visit(g, ops[0], order);
      var r := VisitAll(g, ops[1..], o1);
      VisitCloses(g, ops[0], order);
      VisitAllCloses(g, ops[1..], o1);
      NewClosedJoins(g, order, o1, r);
      CoveredGrows(g, ops[0], o1, r);
      forall k | 0 <= k < |ops| ensures Covered(g, ops[k], r) { if k > 0 { assert ops[k] == ops[1..][k - 1]; } }
    }
  }

  // ---------------------------------------------------------------- listed is reachable

  lemma PathPush(g: Graph, entry: nat, i: nat, j: nat)
    requires Reachable(g, entry, i) && Edge(g, i, j)
    ensures Reachable(g, entry, j)
  {
    var p: seq<nat> :| ReachedBy(g, entry, p, i);
    var q := p + [j];
    hide Edge;
    assert Path(g, q);
    assert ReachedBy(g, entry, q, j);
  }

  /** Every place of `r` past `order` is reachable. */
  ghost predicate NewReached(g: Graph, entry: nat, order: seq<nat>, r: seq<nat>) { forall i | i in r && i !in order :: Reachable(g, entry, i) }

  /** May `nd` be visited without leaving what `entry` reaches? */
  ghost predicate Within(g: Graph, entry: nat, nd: nat) { nd != 0 && IndexOf(g, nd).Some? ==> Reachable(g, entry, IndexOf(g, nd).value) }

  lemma {:induction false} VisitReaches(g: Graph, entry: nat, nd: nat, order: seq<nat>)
    requires g.Ok() && Listing(g, order) && |order| <= |g.all| && Within(g, entry, nd)
    ensures NewReached(g, entry, order, Visit(g, nd, order))
    decreases |g.all| - |order|, 0, 0
  {
    hide Reachable, Listing, IndexOf, Edge;
    var ix := IndexOf(g, nd);
    if nd != 0 && ix.Some? && ix.value !in order {
      Room(g, order, ix.value);
      var b := g.box[nd];
      var o1 := order + [ix.value];
      var o2 := Visit(g, b.gamma, o1);
      var o3 := Visit(g, b.omega, o2);
      forall t: nat | Target(b, t) ensures Within(g, entry, t) { TargetWithin(g, entry, ix.value, t); }
      VisitReaches(g, entry, b.gamma, o1);
      VisitReaches(g, entry, b.omega, o2);
      VisitAllReaches(g, entry, b.operands, o3);
    }
  }

  lemma TargetWithin(g: Graph, entry: nat, i: nat, t: nat)
    requires Reachable(g, entry, i) && i < |g.all| && g.all[i] != 0 && g.all[i] in g.box && Target(g.box[g.all[i]], t)
    ensures Within(g, entry, t)
  {
    if t != 0 && IndexOf(g, t).Some? {
      assert Edge(g, i, IndexOf(g, t).value);
      hide Edge, Reachable;
      PathPush(g, entry, i, IndexOf(g, t).value);
    }
  }

  lemma {:induction false} VisitAllReaches(g: Graph, entry: nat, ops: seq<nat>, order: seq<nat>)
    requires g.Ok() && Listing(g, order) && |order| <= |g.all| && forall k | 0 <= k < |ops| :: Within(g, entry, ops[k])
    ensures NewReached(g, entry, order, VisitAll(g, ops, order))
    decreases |g.all| - |order|, 1, |ops|
  {
    hide Reachable, Listing, Within;
    if ops != [] {
      var o1 := Visit(g, ops[0], order);
      VisitReaches(g, entry, ops[0], order);
      VisitAllReaches(g, entry, ops[1..], o1);
    }
  }

  lemma {:induction false} PathCovered(g: Graph, r: seq<nat>, p: seq<nat>, k: nat)
    requires k < |p| && Path(g, p) && p[0] in r && forall i | i in r :: Closed(g, i, r)
    ensures p[k] in r
  {
    if k > 0 {
      PathCovered(g, r, p, k - 1);
      assert Edge(g, p[k - 1], p[k]);
      assert Closed(g, p[k - 1], r);
      var nd: nat :| nd != 0 && IndexOf(g, nd) == Some(p[k]) && Target(g.box[g.all[p[k - 1]]], nd);
      assert Covered(g, nd, r);
    }
  }

  /** On every graph, cyclic or not, the traversal ends and lists exactly the places reachable from the entry
      along edges between listed boxes, each once, the entry's first. */
  lemma OrderExact(g: Graph, entry: nat, j: nat)
    requires g.Ok()
    ensures j in Order(g, entry) <==> Reachable(g, entry, j)
    ensures Listing(g, Order(g, entry))
    ensures Order(g, entry) != [] ==> IndexOf(g, entry) == Some(Order(g, entry)[0])
  {
    var r := Order(g, entry);
    VisitCloses(g, entry, []);
    if entry != 0 && IndexOf(g, entry).Some? {
      var e := IndexOf(g, entry).value;
      assert ReachedBy(g, entry, [e], e);
      VisitReaches(g, entry, entry, []);
      OrderStarts(g, entry);
    }
    hide Closed, Edge, Listing, IndexOf;
    if p: seq<nat> :| ReachedBy(g, entry, p, j) {
      PathCovered(g, r, p, |p| - 1);
    }
  }

  lemma OrderStarts(g: Graph, entry: nat)
    requires g.Ok() && entry != 0 && IndexOf(g, entry).Some?
    ensures Order(g, entry) != [] && Order(g, entry)[0] == IndexOf(g, entry).value
  {
    var ix := IndexOf(g, entry).value;
    Room(g, [], ix);
    var b := g.box[entry];
    var o2 := Visit(g, b.gamma, [] + [ix]);
    var o3 := Visit(g, b.omega, o2);
    assert [] + [ix] <= o2 <= o3 <= VisitAll(g, b.operands, o3);
  }

  // ---------------------------------------------------------------- line numbers

  /** Non-null places before `i` that are not in `order`. */
  function Others(all: seq<nat>, order: seq<nat>, i: nat): (n: nat)
    requires i <= |all|
  {
    if i == 0 then 0 else Others(all, order, i - 1) + if all[i - 1] != 0 && i - 1 !in order then 1 else 0
  }

  /** Where `x` stands in `s`. */
  function Place(s: seq<nat>, x: nat): (p: nat)
    requires x in s
    ensures p < |s| && s[p] == x
    decreases |s|
  {
    if s[|s| - 1] == x then |s| - 1 else assert s == s[..|s| - 1] + [s[|s| - 1]]; Place(s[..|s| - 1], x)
  }

  /** The line of place `i`: reached places in emit order, then the others in table order; a null place has none. */
  function Line(g: Graph, order: seq<nat>, i: nat): Option<nat>
    requires i < |g.all|
  {
    if i in order then Some(Place(order, i))
    else if g.all[i] != 0 then Some(|order| + Others(g.all, order, i))
    else None
  }

  function Lines(g: Graph, order: seq<nat>): nat { |order| + Others(g.all, order, |g.all|) }

  lemma {:induction false} OthersGrow(all: seq<nat>, order: seq<nat>, i: nat, j: nat)
    requires i < j <= |all|
    ensures Others(all, order, i) + (if all[i] != 0 && i !in order then 1 else 0) <= Others(all, order, j)
    decreases j
  {
    if i + 1 < j { OthersGrow(all, order, i, j - 1); }
  }

  /** The place whose rank among the others is `m`. */
  lemma {:induction false} OtherAt(all: seq<nat>, order: seq<nat>, n: nat, m: nat) returns (i: nat)
    requires n <= |all| && m < Others(all, order, n)
    ensures i < n && all[i] != 0 && i !in order && Others(all, order, i) == m
  {
    if m < Others(all, order, n - 1) { i := OtherAt(all, order, n - 1, m); } else { i := n - 1; }
  }

  lemma LineBelow(g: Graph, order: seq<nat>, i: nat)
    requires Listing(g, order) && i < |g.all|
    ensures Line(g, order, i).Some? <==> g.all[i] != 0
    ensures g.all[i] != 0 ==> Line(g, order, i).value < Lines(g, order) && (i in order <==> Line(g, order, i).value < |order|)
  {
    if i in order { var k :| 0 <= k < |order| && order[k] == i; }
    OthersGrow(g.all, order, i, |g.all|);
  }

  lemma LineInjective(g: Graph, order: seq<nat>, i: nat, j: nat)
    requires Listing(g, order) && i < j < |g.all| && g.all[i] != 0 && g.all[j] != 0
    ensures Line(g, order, i) != Line(g, order, j)
  {
    OthersGrow(g.all, order, i, j);
    LineBelow(g, order, i);
    LineBelow(g, order, j);
    hide Listing, Others, Lines;
  }

  lemma LineOnto(g: Graph, order: seq<nat>, m: nat) returns (i: nat)
    requires Listing(g, order) && m < Lines(g, order)
    ensures i < |g.all| && Line(g, order, i) == Some(m)
  {
    if m < |order| {
      PlaceAt(g, order, m);
      i := order[m];
    } else {
      i := OtherAt(g.all, order, |g.all|, m - |order|);
    }
  }

  ghost predicate Numbered(g: Graph, order: seq<nat>, m: nat) { exists i: nat :: i < |g.all| && Line(g, order, i) == Some(m) }

  lemma NumberedBy(g: Graph, order: seq<nat>, m: nat, i: nat)
    requires i < |g.all| && Line(g, order, i) == Some(m)
    ensures Numbered(g, order, m)
  {
  }

  lemma LineInOrder(g: Graph, order: seq<nat>, i: nat, j: nat)
    requires Listing(g, order) && i < j < |g.all| && g.all[i] != 0 && g.all[j] != 0 && i !in order && j !in order
    ensures Line(g, order, i).value < Line(g, order, j).value
  {
    OthersGrow(g.all, order, i, j);
  }

  /** Numbering is one to one from the listed non-null places onto the lines: the reached places in emit order, then
      the others in table order. */
  lemma LinesExact(g: Graph, order: seq<nat>)
    requires Listing(g, order)
    ensures forall i: nat | i < |g.all| :: Line(g, order, i).Some? <==> g.all[i] != 0
    ensures forall i: nat | i < |g.all| && g.all[i] != 0 :: Line(g, order, i).value < Lines(g, order) && (i in order <==> Line(g, order, i).value < |order|)
    ensures forall i: nat, j: nat | i < |g.all| && j < |g.all| && g.all[i] != 0 && Line(g, order, i) == Line(g, order, j) :: i == j
    ensures forall m: nat | m < Lines(g, order) :: Numbered(g, order, m)
    ensures forall m: nat | m < |order| :: order[m] < |g.all| && Line(g, order, order[m]) == Some(m)
    ensures forall i: nat, j: nat | i < j < |g.all| && g.all[i] != 0 && g.all[j] != 0 && i !in order && j !in order ::
              Line(g, order, i).Some? && Line(g, order, j).Some? && Line(g, order, i).value < Line(g, order, j).value
  {
    hide *;
    forall i: nat | i < |g.all|
      ensures Line(g, order, i).Some? <==> g.all[i] != 0
      ensures g.all[i] != 0 ==> Line(g, order, i).value < Lines(g, order) && (i in order <==> Line(g, order, i).value < |order|)
    {
      LineBelow(g, order, i);
    }
    forall i: nat, j: nat | i < |g.all| && j < |g.all| && g.all[i] != 0 && Line(g, order, i) == Line(g, order, j) ensures i == j {
      LineBelow(g, order, i);
      LineBelow(g, order, j);
      if i < j { LineInjective(g, order, i, j); }
      if j < i { LineInjective(g, order, j, i); }
    }
    forall m: nat | m < Lines(g, order) ensures Numbered(g, order, m) { var i := LineOnto(g, order, m); NumberedBy(g, order, m, i); }
    forall m: nat | m < |order| ensures order[m] < |g.all| && Line(g, order, order[m]) == Some(m) { PlaceAt(g, order, m); }
    forall i: nat, j: nat | i < j < |g.all| && g.all[i] != 0 && g.all[j] != 0 && i !in order && j !in order
      ensures Line(g, order, i).Some? && Line(g, order, j).Some? && Line(g, order, i).value < Line(g, order, j).value
    {
      LineBelow(g, order, i);
      LineBelow(g, order, j);
      LineInOrder(g, order, i, j);
    }
  }

  lemma PlaceAt(g: Graph, order: seq<nat>, m: nat)
    requires Listing(g, order) && m < |order|
    ensures order[m] < |g.all| && Line(g, order, order[m]) == Some(m)
  {
    var p := Place(order, order[m]);
    assert order[p] == order[m];
  }

  ghost predicate Once(all: seq<nat>) { forall i, j | 0 <= i < j < |all| && all[i] != 0 :: all[i] != all[j] }

  /** The line of a box, by its first place. */
  function BoxLine(g: Graph, order: seq<nat>, nd: nat): Option<nat> {
    var ix := IndexOf(g, nd);
    if ix.None? then None else Line(g, order, ix.value)
  }

  ghost predicate HasBox(g: Graph, order: seq<nat>, m: nat) { exists nd: nat :: nd in g.all && nd != 0 && BoxLine(g, order, nd) == Some(m) }

  lemma BoxOf(g: Graph, order: seq<nat>, m: nat)
    requires Listing(g, order) && m < Lines(g, order) && Once(g.all)
    ensures HasBox(g, order, m)
  {
    var i := LineOnto(g, order, m);
    LineBelow(g, order, i);
    assert IndexOf(g, g.all[i]) == Some(i);
    assert BoxLine(g, order, g.all[i]) == Some(m);
  }

  /** The line of a second listing is no box's. */
  lemma NoBoxOf(g: Graph, order: seq<nat>, i: nat, j: nat)
    requires Listing(g, order) && i < j < |g.all| && g.all[i] != 0 && g.all[i] == g.all[j]
    ensures Line(g, order, j).Some? && Line(g, order, j).value < Lines(g, order) && !HasBox(g, order, Line(g, order, j).value)
  {
    LineBelow(g, order, j);
    var m := Line(g, order, j).value;
    forall nd: nat | nd in g.all && nd != 0 ensures BoxLine(g, order, nd) != Some(m) { FirstIsOther(g, order, i, j, nd); }
  }

  lemma FirstIsOther(g: Graph, order: seq<nat>, i: nat, j: nat, nd: nat)
    requires Listing(g, order) && i < j < |g.all| && g.all[i] != 0 && g.all[i] == g.all[j] && nd in g.all && nd != 0
    ensures BoxLine(g, order, nd) != Line(g, order, j)
  {
    var ix := IndexOf(g, nd).value;
    assert ix != j;
    hide Line, Listing;
    if ix < j { LineInjective(g, order, ix, j); } else { LineInjective(g, order, j, ix); }
  }

  /** Every line is the line of some box exactly when no box is listed twice. */
  lemma BoxLinesExact(g: Graph, order: seq<nat>)
    requires Listing(g, order)
    ensures (forall m: nat | m < Lines(g, order) :: HasBox(g, order, m)) <==> Once(g.all)
  {
    if Once(g.all) {
      hide *;
      forall m: nat | m < Lines(g, order) ensures HasBox(g, order, m) { BoxOf(g, order, m); }
    } else {
      var i, j :| 0 <= i < j < |g.all| && g.all[i] != 0 && g.all[i] == g.all[j];
      hide *;
      NoBoxOf(g, order, i, j);
    }
  }

  // ---------------------------------------------------------------- the code

  /** The traversal over a table of marks and an array of places. */
  class Emitter {
    const g: Graph
    const vis: array<bool>
    const order: array<nat>
    var norder: nat

    constructor (g: Graph)
      ensures this.g == g && Marked() && norder == 0 && fresh(vis) && fresh(order)
    {
      this.g := g;
      var n := if |g.all| > 0 then |g.all| else 1;
      vis := new bool[n](_ => false);
      order := new nat[n](_ => 0);
      norder := 0;
    }

    ghost predicate Marked()
      reads this, vis, order
    {
      && |g.all| <= vis.Length == order.Length && norder <= |g.all|
      && Listing(g, order[..norder])
      && (forall i | 0 <= i < |g.all| :: vis[i] <==> i in order[..norder])
    }

    method FindIndex(nd: nat) returns (ix: Option<nat>)
      ensures ix == IndexOf(g, nd)
    {
      var i := 0;
      while i < |g.all|
        invariant i <= |g.all| && IndexOf(g, nd) == IndexFrom(g.all, nd, i)
      {
        if g.all[i] == nd { return Some(i); }
        i := i + 1;
      }
      return None;
    }

    method VisitBox(nd: nat)
      requires g.Ok() && Marked()
      modifies this`norder, vis, order
      ensures Marked() && order[..norder] == Visit(g, nd, old(order[..norder]))
      decreases |g.all| - norder, 0, 0
    {
      if nd == 0 { return; }
      var ix := FindIndex(nd);
      if ix.None? || vis[ix.value] { return; }
      ghost var was := order[..norder];
      Room(g, was, ix.value);
      vis[ix.value] := true;
      order[norder] := ix.value;
      norder := norder + 1;
      assert order[..norder] == was + [ix.value];
      hide Listing;
      VisitBox(g.box[nd].gamma);
      VisitBox(g.box[nd].omega);
      VisitOperands(g.box[nd].operands);
    }

    method VisitOperands(ops: seq<nat>)
      requires g.Ok() && Marked()
      modifies this`norder, vis, order
      ensures Marked() && order[..norder] == VisitAll(g, ops, old(order[..norder]))
      decreases |g.all| - norder, 1, |ops|
    {
      hide Listing, Visit;
      ghost var was := order[..norder];
      var j := 0;
      assert ops[0..] == ops;
      while j < |ops|
        invariant j <= |ops| && Marked() && |g.all| - norder <= |g.all| - |was|
        invariant VisitAll(g, ops[j..], order[..norder]) == VisitAll(g, ops, was)
      {
        assert ops[j..][1..] == ops[j + 1..];
        if ops[j] != 0 { VisitBox(ops[j]); } else { VisitNull(g, order[..norder]); }
        j := j + 1;
      }
    }

    /** Number the places reached; `None` is -1. */
    method NumberReached(seqmap: array<Option<nat>>)
      requires Marked() && seqmap.Length == |g.all| && forall i | 0 <= i < |g.all| :: seqmap[i] == None
      modifies seqmap
      ensures var o := order[..norder]; forall i | 0 <= i < |g.all| :: seqmap[i] == if i in o then Some(Place(o, i)) else None
    {
      ghost var o := order[..norder];
      PlacesIn(g, o);
      hide Listing;
      for sq := 0 to norder
        invariant forall i: nat | i < |g.all| :: seqmap[i] == if i in o[..sq] then Some(Place(o[..sq], i)) else None
      {
        assert o[..sq + 1] == o[..sq] + [o[sq]] && o[..sq + 1][..sq] == o[..sq];
        assert order[sq] == o[sq];
        seqmap[order[sq]] := Some(sq);
      }
      assert o[..norder] == o;
    }

    /** Number the places that were not reached. */
    method NumberOthers(seqmap: array<Option<nat>>)
      requires Marked() && seqmap.Length == |g.all|
      requires var o := order[..norder]; forall i | 0 <= i < |g.all| :: seqmap[i] == if i in o then Some(Place(o, i)) else None
      modifies seqmap
      ensures forall i | 0 <= i < |g.all| :: seqmap[i] == Line(g, order[..norder], i)
    {
      ghost var o := order[..norder];
      hide Listing;
      var next := norder;
      for i := 0 to |g.all|
        invariant next == norder + Others(g.all, o, i)
        invariant forall k: nat | k < i :: seqmap[k] == Line(g, o, k)
        invariant forall k: nat | i <= k < |g.all| :: seqmap[k] == if k in o then Some(Place(o, k)) else None
      {
        if !vis[i] && g.all[i] != 0 && seqmap[i].None? {
          seqmap[i] := Some(next);
          next := next + 1;
        }
      }
    }

    method Number(entry: nat) returns (seqmap: array<Option<nat>>)
      requires g.Ok() && Marked() && norder == 0
      modifies this`norder, vis, order
      ensures Marked() && order[..norder] == Order(g, entry)
      ensures seqmap.Length == |g.all| && forall i | 0 <= i < |g.all| :: seqmap[i] == Line(g, Order(g, entry), i)
    {
      hide Listing, Visit, Line, Place;
      assert order[..norder] == [];
      VisitBox(entry);
      seqmap := new Option<nat>[|g.all|](_ => None);
      NumberReached(seqmap);
      NumberOthers(seqmap);
    }
  }

  lemma VisitNull(g: Graph, order: seq<nat>)
    requires g.Ok() && Listing(g, order) && |order| <= |g.all|
    ensures Visit(g, 0, order) == order
  {
  }

  lemma PlacesIn(g: Graph, order: seq<nat>)
    requires Listing(g, order)
    ensures forall i | 0 <= i < |order| :: order[i] < |g.all|
  {
  }
}
