/** The emit order from edges and positions alone: after each box come the boxes behind its first edge, then those
    behind the next one that are not yet listed, and so on; and no other order is like that. */
module EmitPreorder {
  import opened Common
  import opened EmitOrder

  /** The edges of a box in the order they are followed. */
  function Edges(b: Box): seq<nat> { [b.gamma, b.omega] + b.operands }

  /** Pointer `nd` leads to place `q`. */
  predicate Leads(g: Graph, nd: nat, q: nat) { nd != 0 && IndexOf(g, nd) == Some(q) }

  ghost predicate Detour(g: Graph, banned: seq<nat>, p: seq<nat>, i: nat, j: nat) {
    |p| > 0 && p[0] == i && p[|p| - 1] == j && Path(g, p) && forall k | 0 <= k < |p| :: p[k] !in banned
  }

  /** Place `j` is reachable from place `i` without a step on `banned`. */
  ghost predicate Escapes(g: Graph, banned: seq<nat>, i: nat, j: nat) { exists p: seq<nat> :: Detour(g, banned, p, i, j) }

  /** ... from where one of the first `n` pointers leads. */
  ghost predicate FromOne(g: Graph, ops: seq<nat>, n: nat, banned: seq<nat>, j: nat) {
    exists m: nat, q: nat :: m < n && m < |ops| && Leads(g, ops[m], q) && Escapes(g, banned, q, j)
  }

  /** The place pointer `k` leads to, when it is not among `base`, stands behind `base` in `r`, and only what the
      pointers before lead to stands between. */
  ghost predicate InTurn(g: Graph, ops: seq<nat>, k: nat, base: seq<nat>, r: seq<nat>, q: nat)
    requires k < |ops|
  {
    exists t: nat :: |base| <= t < |r| && r[t] == q && forall u: nat | |base| <= u < t :: FromOne(g, ops, k, base, r[u])
  }

  ghost predicate ChildOk(g: Graph, ops: seq<nat>, k: nat, base: seq<nat>, r: seq<nat>)
    requires k < |ops|
  {
    forall q: nat | Leads(g, ops[k], q) && q !in base :: InTurn(g, ops, k, base, r, q)
  }

  /** The box at position `p` of the order. */
  function BoxAt(g: Graph, r: seq<nat>, p: nat): Box
    requires g.Ok() && Listing(g, r) && p < |r|
  {
    g.box[g.all[r[p]]]
  }

  ghost predicate EdgeOk(g: Graph, r: seq<nat>, p: nat, k: nat)
    requires g.Ok() && Listing(g, r) && p < |r|
  {
    k < |Edges(BoxAt(g, r, p))| ==> ChildOk(g, Edges(BoxAt(g, r, p)), k, r[..p + 1], r)
  }

  /** Each box is followed by what its edges lead to, in their order. */
  ghost predicate Preorder(g: Graph, r: seq<nat>)
    requires g.Ok() && Listing(g, r)
  {
    forall p: nat, k: nat | p < |r| :: EdgeOk(g, r, p, k)
  }

  // ---------------------------------------------------------------- the traversal lists in turn

  lemma VisitIsAll(g: Graph, nd: nat, order: seq<nat>, x: nat)
    requires g.Ok() && Listing(g, order) && |order| <= |g.all| && Leads(g, nd, x) && x !in order
    ensures Listing(g, order + [x]) && |order| < |g.all| && nd in g.box
    ensures Visit(g, nd, order) == VisitAll(g, Edges(g.box[nd]), order + [x])
  {
    Room(g, order, x);
    var b, o1 := g.box[nd], order + [x];
    var o2 := Visit(g, b.gamma, o1);
    hide Listing, IndexOf;
    assert Edges(b)[1..] == [b.omega] + b.operands && ([b.omega] + b.operands)[1..] == b.operands;
    assert VisitAll(g, Edges(b), o1) == VisitAll(g, [b.omega] + b.operands, o2);
  }

  lemma EscapeStep(g: Graph, banned: seq<nat>, x: nat, nd: nat, m: nat, q: nat, j: nat)
    requires g.Ok() && Leads(g, nd, x) && nd in g.box && m < |Edges(g.box[nd])| && Leads(g, Edges(g.box[nd])[m], q)
    requires x !in banned && Escapes(g, banned + [x], q, j)
    ensures Escapes(g, banned, x, j)
  {
    var p :| Detour(g, banned + [x], p, q, j);
    assert Target(g.box[g.all[x]], Edges(g.box[nd])[m]);
    assert Edge(g, x, q);
    hide Edge;
    assert Path(g, [x] + p);
    assert Detour(g, banned, [x] + p, x, j);
  }

  lemma EscapeSelf(g: Graph, banned: seq<nat>, x: nat)
    requires x !in banned
    ensures Escapes(g, banned, x, x)
  {
    assert Detour(g, banned, [x], x, x);
  }

  lemma EscapeWider(g: Graph, a: seq<nat>, b: seq<nat>, i: nat, j: nat)
    requires a <= b && Escapes(g, b, i, j)
    ensures Escapes(g, a, i, j)
  {
    var p :| Detour(g, b, p, i, j);
    hide Path;
    assert Detour(g, a, p, i, j);
  }

  lemma FromOneWider(g: Graph, ops: seq<nat>, n: nat, a: seq<nat>, b: seq<nat>, j: nat)
    requires ops != [] && a <= b && FromOne(g, ops[1..], n, b, j)
    ensures FromOne(g, ops, n + 1, a, j)
  {
    var m: nat, q: nat :| m < n && m < |ops[1..]| && Leads(g, ops[1..][m], q) && Escapes(g, b, q, j);
    hide Escapes, Leads;
    EscapeWider(g, a, b, q, j);
    assert ops[m + 1] == ops[1..][m];
  }

  /** What a visit adds is behind its box, past nothing listed before. */
  lemma {:induction false} VisitEscapes(g: Graph, nd: nat, order: seq<nat>, x: nat, j: nat)
    requires g.Ok() && Listing(g, order) && |order| <= |g.all| && Leads(g, nd, x) && x !in order
    requires j in Visit(g, nd, order) && j !in order
    ensures Escapes(g, order, x, j)
    decreases |g.all| - |order|, 0, 0
  {
    VisitIsAll(g, nd, order, x);
    var o1, ops := order + [x], Edges(g.box[nd]);
    hide Escapes, Listing, Leads, Visit, VisitAll, Edges;
    if j == x {
      EscapeSelf(g, order, x);
    } else {
      AllEscape(g, ops, o1, j);
      var m: nat, q: nat :| m < |ops| && Leads(g, ops[m], q) && Escapes(g, o1, q, j);
      EscapeStep(g, order, x, nd, m, q, j);
    }
  }

  lemma {:induction false} AllEscape(g: Graph, ops: seq<nat>, order: seq<nat>, j: nat)
    requires g.Ok() && Listing(g, order) && |order| <= |g.all| && j in VisitAll(g, ops, order) && j !in order
    ensures FromOne(g, ops, |ops|, order, j)
    decreases |g.all| - |order|, 1, |ops|
  {
    hide Escapes, Listing;
    var o1 := Visit(g, ops[0], order);
    if j in o1 {
      FreshVisit(g, ops[0], order, j);
      var q := IndexOf(g, ops[0]).value;
      VisitEscapes(g, ops[0], order, q, j);
    } else {
      AllEscape(g, ops[1..], o1, j);
      hide FromOne;
      FromOneWider(g, ops, |ops| - 1, order, o1, j);
    }
  }

  /** A visit that adds anything is of a box not listed yet. */
  lemma FreshVisit(g: Graph, nd: nat, order: seq<nat>, j: nat)
    requires g.Ok() && Listing(g, order) && |order| <= |g.all| && j in Visit(g, nd, order) && j !in order
    ensures IndexOf(g, nd).Some? && Leads(g, nd, IndexOf(g, nd).value) && IndexOf(g, nd).value !in order
  {
    hide Listing;
  }

  lemma VisitStarts(g: Graph, nd: nat, order: seq<nat>, x: nat)
    requires g.Ok() && Listing(g, order) && |order| <= |g.all| && Leads(g, nd, x) && x !in order
    ensures |order| < |Visit(g, nd, order)| && Visit(g, nd, order)[|order|] == x
  {
    VisitIsAll(g, nd, order, x);
    hide Listing;
    assert order + [x] <= VisitAll(g, Edges(g.box[nd]), order + [x]);
  }

  /** Places of a listing past a prefix are not in it. */
  lemma PastPrefix(g: Graph, base: seq<nat>, r: seq<nat>, u: nat)
    requires Listing(g, r) && base <= r && |base| <= u < |r|
    ensures r[u] !in base
  {
    assert forall i | 0 <= i < |base| :: base[i] == r[i] && r[i] != r[u];
  }

  lemma {:induction false} AllInTurn(g: Graph, ops: seq<nat>, order: seq<nat>, k: nat, q: nat)
    requires g.Ok() && Listing(g, order) && |order| <= |g.all| && k < |ops| && Leads(g, ops[k], q) && q !in order
    ensures InTurn(g, ops, k, order, VisitAll(g, ops, order), q)
    decreases k
  {
    hide Listing, Leads, FromOne;
    var o1 := Visit(g, ops[0], order);
    var r := VisitAll(g, ops[1..], o1);
    assert order <= o1 <= r && r == VisitAll(g, ops, order);
    if k == 0 {
      VisitStarts(g, ops[0], order, q);
      assert r[|order|] == q;
    } else {
      forall u: nat | |order| <= u < |o1| ensures FromOne(g, ops, k, order, r[u]) { FirstBehind(g, ops, order, k, u); }
      if q in o1 {
        var t :| 0 <= t < |o1| && o1[t] == q;
        assert r[t] == q;
        assert t >= |order|;
      } else {
        assert ops[1..][k - 1] == ops[k];
        AllInTurn(g, ops[1..], o1, k - 1, q);
        var t: nat :| |o1| <= t < |r| && r[t] == q && forall u: nat | |o1| <= u < t :: FromOne(g, ops[1..], k - 1, o1, r[u]);
        forall u: nat | |order| <= u < t ensures FromOne(g, ops, k, order, r[u]) {
          if u >= |o1| { FromOneWider(g, ops, k - 1, order, o1, r[u]); }
        }
      }
    }
  }

  /** What the first pointer's visit adds is behind that pointer. */
  lemma FirstBehind(g: Graph, ops: seq<nat>, order: seq<nat>, k: nat, u: nat)
    requires g.Ok() && Listing(g, order) && |order| <= |g.all| && 0 < k < |ops| && |order| <= u < |Visit(g, ops[0], order)|
    ensures FromOne(g, ops, k, order, Visit(g, ops[0], order)[u])
  {
    var o1 := Visit(g, ops[0], order);
    hide Escapes, Listing;
    PastPrefix(g, order, o1, u);
    FreshVisit(g, ops[0], order, o1[u]);
    VisitEscapes(g, ops[0], order, IndexOf(g, ops[0]).value, o1[u]);
  }

  lemma InTurnGrows(g: Graph, ops: seq<nat>, k: nat, base: seq<nat>, r: seq<nat>, s: seq<nat>, q: nat)
    requires k < |ops| && r <= s && InTurn(g, ops, k, base, r, q)
    ensures InTurn(g, ops, k, base, s, q)
  {
    hide FromOne;
    var t: nat :| |base| <= t < |r| && r[t] == q && forall u: nat | |base| <= u < t :: FromOne(g, ops, k, base, r[u]);
    assert s[t] == q && forall u: nat | |base| <= u < t :: s[u] == r[u];
  }

  lemma EdgeOkGrows(g: Graph, r: seq<nat>, s: seq<nat>, p: nat, k: nat)
    requires g.Ok() && Listing(g, r) && Listing(g, s) && r <= s && p < |r| && EdgeOk(g, r, p, k)
    ensures EdgeOk(g, s, p, k)
  {
    assert s[p] == r[p] && s[..p + 1] == r[..p + 1];
    var ops := Edges(BoxAt(g, r, p));
    hide InTurn, Leads, Listing, Edges;
    if k < |ops| {
      forall q: nat | Leads(g, ops[k], q) && q !in r[..p + 1] ensures InTurn(g, ops, k, r[..p + 1], s, q) { InTurnGrows(g, ops, k, r[..p + 1], r, s, q); }
    }
  }

  /** Every place a visit adds is in turn. */
  lemma {:induction false} VisitInTurn(g: Graph, nd: nat, order: seq<nat>, p: nat, k: nat)
    requires g.Ok() && Listing(g, order) && |order| <= |g.all| && |order| <= p < |Visit(g, nd, order)|
    ensures EdgeOk(g, Visit(g, nd, order), p, k)
    decreases |g.all| - |order|, 0, 0
  {
    var r := Visit(g, nd, order);
    PastPrefix(g, order, r, p);
    FreshVisit(g, nd, order, r[p]);
    var x := IndexOf(g, nd).value;
    VisitIsAll(g, nd, order, x);
    VisitStarts(g, nd, order, x);
    var o1, ops := order + [x], Edges(g.box[nd]);
    hide Visit, VisitAll, Listing, Edges;
    if p > |order| {
      AllChildrenInTurn(g, ops, o1, p, k);
    } else {
      assert r[..p + 1] == o1;
      assert BoxAt(g, r, p) == g.box[nd] by { assert Leads(g, nd, x); }
      if k < |ops| {
        forall q: nat | Leads(g, ops[k], q) && q !in o1 ensures InTurn(g, ops, k, o1, r, q) { AllInTurn(g, ops, o1, k, q); }
      }
    }
  }

  lemma {:induction false} AllChildrenInTurn(g: Graph, ops: seq<nat>, order: seq<nat>, p: nat, k: nat)
    requires g.Ok() && Listing(g, order) && |order| <= |g.all| && |order| <= p < |VisitAll(g, ops, order)|
    ensures EdgeOk(g, VisitAll(g, ops, order), p, k)
    decreases |g.all| - |order|, 1, |ops|
  {
    hide Listing, Edges, Visit;
    if ops != [] {
      var o1 := Visit(g, ops[0], order);
      if p < |o1| {
        VisitInTurn(g, ops[0], order, p, k);
        EdgeOkGrows(g, o1, VisitAll(g, ops, order), p, k);
      } else {
        AllChildrenInTurn(g, ops[1..], o1, p, k);
      }
    }
  }

  /** The emit order lists what each edge of a box leads to in turn: behind the box come, for each edge in order,
      the boxes behind that edge that are not yet listed. In particular a place the first edge leads to, not listed
      so far, is the very next. */
  lemma OrderInTurn(g: Graph, entry: nat)
    requires g.Ok()
    ensures Preorder(g, Order(g, entry))
    ensures forall p: nat, q: nat | p < |Order(g, entry)| && Leads(g, BoxAt(g, Order(g, entry), p).gamma, q) && q !in Order(g, entry)[..p + 1] ::
              p + 1 < |Order(g, entry)| && Order(g, entry)[p + 1] == q
  {
    var r := Order(g, entry);
    hide EdgeOk, Listing, Visit;
    forall p: nat, k: nat | p < |r| ensures EdgeOk(g, r, p, k) { VisitInTurn(g, entry, [], p, k); }
    forall p: nat, q: nat | p < |r| && Leads(g, BoxAt(g, r, p).gamma, q) && q !in r[..p + 1] ensures p + 1 < |r| && r[p + 1] == q { GammaNext(g, r, p, q); }
  }

  lemma GammaNext(g: Graph, r: seq<nat>, p: nat, q: nat)
    requires g.Ok() && Listing(g, r) && p < |r| && EdgeOk(g, r, p, 0) && Leads(g, BoxAt(g, r, p).gamma, q) && q !in r[..p + 1]
    ensures p + 1 < |r| && r[p + 1] == q
  {
    var ops := Edges(BoxAt(g, r, p));
    assert ops[0] == BoxAt(g, r, p).gamma;
    hide Listing, Leads, Edges, BoxAt;
    assert InTurn(g, ops, 0, r[..p + 1], r, q);
    var t: nat :| p + 1 <= t < |r| && r[t] == q && forall u: nat | p + 1 <= u < t :: FromOne(g, ops, 0, r[..p + 1], r[u]);
    assert t > p + 1 ==> !FromOne(g, ops, 0, r[..p + 1], r[p + 1]);
  }

  // ---------------------------------------------------------------- no other order does

  /** Edge `k` of the box at position `p` leads out of the first `n` places. */
  ghost predicate LeadsOut(g: Graph, r: seq<nat>, n: nat, p: nat, k: nat, q: nat)
    requires g.Ok() && Listing(g, r) && n <= |r|
  {
    p < n && k < |Edges(BoxAt(g, r, p))| && Leads(g, Edges(BoxAt(g, r, p))[k], q) && q !in r[..n]
  }

  /** A listing of what is reachable, the entry first, in which edges are followed in turn. */
  ghost predicate Listed(g: Graph, entry: nat, r: seq<nat>)
    requires g.Ok()
  {
    && Listing(g, r) && (forall j :: j in r <==> Reachable(g, entry, j))
    && (r != [] ==> IndexOf(g, entry) == Some(r[0]))
    && Preorder(g, r)
  }

  lemma {:induction false} PathLeaves(g: Graph, s: seq<nat>, p: seq<nat>, k: nat)
    requires k < |p| && Path(g, p) && p[0] in s && p[k] !in s
    ensures exists a :: 0 <= a < k && p[a] in s && p[a + 1] !in s
  {
    if p[k - 1] !in s { PathLeaves(g, s, p, k - 1); }
  }

  /** An edge out of the first `n` places, in terms of positions. */
  lemma EdgeOut(g: Graph, r: seq<nat>, n: nat, i: nat, j: nat) returns (p: nat, k: nat)
    requires g.Ok() && Listing(g, r) && n <= |r| && i in r[..n] && j !in r[..n] && Edge(g, i, j)
    ensures LeadsOut(g, r, n, p, k, j) && r[p] == i
  {
    p :| 0 <= p < n && r[..n][p] == i;
    var nd: nat :| nd != 0 && IndexOf(g, nd) == Some(j) && Target(g.box[g.all[i]], nd);
    hide Listing, IndexOf;
    var b := BoxAt(g, r, p);
    if nd == b.gamma { k := 0; } else if nd == b.omega { k := 1; } else {
      var m :| 0 <= m < |b.operands| && b.operands[m] == nd;
      k := m + 2;
    }
    assert Edges(b)[k] == nd;
  }

  /** Does edge `k` of the box at `p` lead out, and no edge before it, nor any of a later box? */
  ghost predicate NextEdge(g: Graph, r: seq<nat>, n: nat, p: nat, k: nat, q: nat)
    requires g.Ok() && Listing(g, r) && n <= |r|
  {
    && LeadsOut(g, r, n, p, k, q)
    && (forall m: nat, v: nat | m < k :: !LeadsOut(g, r, n, p, m, v))
    && (forall c: nat, m: nat, v: nat | p < c :: !LeadsOut(g, r, n, c, m, v))
  }

  /** The next place is the one that edge leads to. */
  lemma NextIs(g: Graph, entry: nat, r: seq<nat>, n: nat, p: nat, k: nat, q: nat)
    requires g.Ok() && Listed(g, entry, r) && n < |r| && NextEdge(g, r, n, p, k, q)
    ensures r[n] == q
  {
    var ops, base := Edges(BoxAt(g, r, p)), r[..p + 1];
    assert r[..n][..p + 1] == base;
    assert EdgeOk(g, r, p, k);
    hide Listing, Leads, Edges, Reachable;
    assert InTurn(g, ops, k, base, r, q);
    var t: nat :| p + 1 <= t < |r| && r[t] == q && forall u: nat | p + 1 <= u < t :: FromOne(g, ops, k, base, r[u]);
    assert forall u: nat | u < n :: r[u] == r[..n][u];
    if t > n { NotFromOne(g, r, n, p, k, q); }
  }

  lemma NotFromOne(g: Graph, r: seq<nat>, n: nat, p: nat, k: nat, q: nat)
    requires g.Ok() && Listing(g, r) && n < |r| && NextEdge(g, r, n, p, k, q)
    ensures !FromOne(g, Edges(BoxAt(g, r, p)), k, r[..p + 1], r[n])
  {
    var ops, base := Edges(BoxAt(g, r, p)), r[..p + 1];
    PastPrefix(g, r[..n], r, n);
    forall m: nat, v: nat | m < k && m < |ops| && Leads(g, ops[m], v) ensures !Escapes(g, base, v, r[n]) {
      assert !LeadsOut(g, r, n, p, m, v);
      hide Listing, Leads, Edges;
      forall w: seq<nat> ensures !Detour(g, base, w, v, r[n]) { DetourStays(g, r, n, p, k, q, w, v); }
    }
  }

  lemma InPrefix(r: seq<nat>, p: nat, c: nat)
    requires p < |r|
    ensures c <= p ==> r[c] in r[..p + 1]
  {
    assert c <= p ==> r[..p + 1][c] == r[c];
  }

  /** A detour from inside the first `n` places stays inside. */
  lemma DetourStays(g: Graph, r: seq<nat>, n: nat, p: nat, k: nat, q: nat, w: seq<nat>, v: nat)
    requires g.Ok() && Listing(g, r) && n < |r| && NextEdge(g, r, n, p, k, q) && v in r[..n] && r[n] !in r[..n]
    ensures !Detour(g, r[..p + 1], w, v, r[n])
  {
    assert p < n;
    hide Listing, Leads, Edges, LeadsOut, Edge;
    if Detour(g, r[..p + 1], w, v, r[n]) {
      PathLeaves(g, r[..n], w, |w| - 1);
      var a :| 0 <= a < |w| - 1 && w[a] in r[..n] && w[a + 1] !in r[..n];
      assert Edge(g, w[a], w[a + 1]);
      var c, m := EdgeOut(g, r, n, w[a], w[a + 1]);
      InPrefix(r, p, c);
    }
  }

  /** Among the first `c` boxes, the last with an edge out, and its first such edge. */
  lemma {:induction false} LastOut(g: Graph, r: seq<nat>, n: nat, c: nat) returns (p: nat, k: nat, q: nat)
    requires g.Ok() && Listing(g, r) && c <= n <= |r|
    requires exists p: nat, k: nat, q: nat :: p < c && LeadsOut(g, r, n, p, k, q)
    requires forall p: nat, k: nat, q: nat | p >= c :: !LeadsOut(g, r, n, p, k, q)
    ensures NextEdge(g, r, n, p, k, q)
  {
    hide LeadsOut, Listing;
    var b: nat := c - 1;
    if k0: nat, q0: nat :| LeadsOut(g, r, n, b, k0, q0) {
      p := b;
      k, q := FirstOut(g, r, n, p, 0, k0, q0);
    } else {
      p, k, q := LastOut(g, r, n, b);
    }
  }

  lemma {:induction false} FirstOut(g: Graph, r: seq<nat>, n: nat, p: nat, j: nat, k0: nat, q0: nat) returns (k: nat, q: nat)
    requires g.Ok() && Listing(g, r) && n <= |r| && j <= k0 && LeadsOut(g, r, n, p, k0, q0)
    requires forall m: nat, v: nat | m < j :: !LeadsOut(g, r, n, p, m, v)
    ensures LeadsOut(g, r, n, p, k, q) && forall m: nat, v: nat | m < k :: !LeadsOut(g, r, n, p, m, v)
    decreases k0 - j
  {
    hide LeadsOut, Listing;
    if v: nat :| LeadsOut(g, r, n, p, j, v) { k, q := j, v; } else { k, q := FirstOut(g, r, n, p, j + 1, k0, q0); }
  }

  /** Some edge leads out as long as places are missing. */
  lemma SomeOut(g: Graph, entry: nat, r: seq<nat>, n: nat) returns (p: nat, k: nat, q: nat)
    requires g.Ok() && Listed(g, entry, r) && 0 < n < |r|
    ensures NextEdge(g, r, n, p, k, q)
  {
    PastPrefix(g, r[..n], r, n);
    assert Reachable(g, entry, r[n]);
    var w: seq<nat> :| ReachedBy(g, entry, w, r[n]);
    assert r[..n][0] == r[0];
    hide Listing, Edge, EdgeOk, IndexOf, LeadsOut;
    PathLeaves(g, r[..n], w, |w| - 1);
    var a :| 0 <= a < |w| - 1 && w[a] in r[..n] && w[a + 1] !in r[..n];
    var c, m := EdgeOut(g, r, n, w[a], w[a + 1]);
    assert c < n by { OutBelow(g, r, n, c, m, w[a + 1]); }
    forall p: nat, k: nat, q: nat | p >= n ensures !LeadsOut(g, r, n, p, k, q) { NoneOut(g, r, n, p, k, q); }
    p, k, q := LastOut(g, r, n, n);
  }

  lemma OutBelow(g: Graph, r: seq<nat>, n: nat, p: nat, k: nat, q: nat)
    requires g.Ok() && Listing(g, r) && n <= |r| && LeadsOut(g, r, n, p, k, q)
    ensures p < n
  {
  }

  lemma NoneOut(g: Graph, r: seq<nat>, n: nat, p: nat, k: nat, q: nat)
    requires g.Ok() && Listing(g, r) && n <= |r| && p >= n
    ensures !LeadsOut(g, r, n, p, k, q)
  {
  }

  lemma NextEdgeSame(g: Graph, r: seq<nat>, o: seq<nat>, n: nat, p: nat, k: nat, q: nat)
    requires g.Ok() && Listing(g, r) && Listing(g, o) && n <= |r| && n <= |o| && r[..n] == o[..n] && NextEdge(g, r, n, p, k, q)
    ensures NextEdge(g, o, n, p, k, q)
  {
    forall c: nat, m: nat, v: nat ensures LeadsOut(g, r, n, c, m, v) <==> LeadsOut(g, o, n, c, m, v) { if c < n { assert r[..n][c] == o[..n][c]; } }
    hide LeadsOut;
  }

  lemma {:induction false} SameFirst(g: Graph, entry: nat, r: seq<nat>, o: seq<nat>, n: nat)
    requires g.Ok() && Listed(g, entry, r) && Listed(g, entry, o) && n <= |r| && n <= |o|
    ensures r[..n] == o[..n]
  {
    if n > 1 {
      SameFirst(g, entry, r, o, n - 1);
      var p, k, q := SomeOut(g, entry, r, n - 1);
      NextEdgeSame(g, r, o, n - 1, p, k, q);
      NextIs(g, entry, r, n - 1, p, k, q);
      NextIs(g, entry, o, n - 1, p, k, q);
      hide Listed, NextEdge;
      assert r[..n] == r[..n - 1] + [q] && o[..n] == o[..n - 1] + [q];
    } else if n == 1 {
      assert r[..1] == [r[0]] && o[..1] == [o[0]];
    }
  }

  lemma NoMore(g: Graph, entry: nat, r: seq<nat>, o: seq<nat>)
    requires g.Ok() && Listed(g, entry, r) && Listed(g, entry, o) && r <= o
    ensures |r| == |o|
  {
    if |r| < |o| { NotAll(g, r, o); }
  }

  lemma NotAll(g: Graph, r: seq<nat>, o: seq<nat>)
    requires Listing(g, o) && r <= o && |r| < |o|
    ensures exists j :: j in o && j !in r
  {
    PastPrefix(g, r, o, |r|);
    assert o[|r|] in o;
  }

  /** The emit order is the only listing of the reachable places, the entry first, that follows edges in turn. */
  lemma OrderUnique(g: Graph, entry: nat, r: seq<nat>)
    requires g.Ok()
    ensures Listed(g, entry, r) <==> r == Order(g, entry)
  {
    var o := Order(g, entry);
    OrderInTurn(g, entry);
    forall j ensures j in o <==> Reachable(g, entry, j) { OrderExact(g, entry, j); }
    OrderExact(g, entry, 0);
    assert Listed(g, entry, o);
    if Listed(g, entry, r) {
      var n := if |r| < |o| then |r| else |o|;
      hide Listed;
      SameFirst(g, entry, r, o, n);
      assert r[..|r|] == r && o[..|o|] == o;
      if |r| <= |o| { assert r <= o; NoMore(g, entry, r, o); } else { assert o <= r; NoMore(g, entry, o, r); }
    }
  }
}
