/** The index from nodes to their place in one array, and the scopes that set it aside for another array. */
module NodeIndex {
  import opened Common
  import opened FirstPlaces
  import opened Probing
  import NodeIds

  /** A node's address; `None` is the null pointer. */
  type Node = Option<nat>

  /** What a scope sets aside. `at` is the array's address, 0 null; the contents are what it held when it was indexed. */
  datatype Frame = Frame(own: bool, at: nat, n: nat, slots: array<Slot<nat, nat>>, ghost built: seq<Node>)

  /** The place of a node by the plain scan; none for a null node. */
  function PlaceOf(nodes: seq<Node>, e: Node): Option<nat> { if e.None? then None else Scan(nodes, e.value, 0) }

  class Index {
    var at: nat
    var n: nat
    var slots: array<Slot<nat, nat>>
    /** What the table holds, which a reset leaves as it is. */
    ghost var built: seq<Node>

    constructor ()
      ensures Valid() && at == 0 && built == [] && slots.Length == 0 && fresh(slots)
    {
      at, n := 0, 0;
      slots := new Slot<nat, nat>[0];
      built := [];
    }

    /** There is a table once an array was indexed, and it holds the first places of the last one. */
    ghost predicate Valid()
      reads this, slots
    {
      && (at != 0 ==> slots.Length > 0 && n == |built|)
      && (at == 0 ==> n == 0)
      && (slots.Length > 0 ==> slots.Length > |built| && Ok(slots[..], NodeIds.Home, Firsts(built, |built|)))
    }

    /** The source would take this array for the one indexed, because it is at its address and as long. */
    predicate Taken(nodes: seq<Node>, where: nat)
      reads this
    {
      where == at && |nodes| == n
    }

    /** What a caller owes: an array not changed since it was indexed, nothing behind a null address, and that
        address not before any array was indexed, when there is no table to look in. */
    ghost predicate Sound(nodes: seq<Node>, where: nat)
      reads this
    {
      && (where == 0 ==> nodes == [] && (at == 0 ==> slots.Length > 0))
      && (where != 0 && Taken(nodes, where) ==> nodes == built)
    }

    /** Empty the table, in a larger one when this is too small. */
    method Clear(want: nat)
      requires want > 0
      modifies this`slots, slots
      ensures slots.Length >= want && (slots == old(slots) || fresh(slots)) && forall i | 0 <= i < slots.Length :: slots[i].Empty?
    {
      if want > slots.Length { slots := new Slot<nat, nat>[want](_ => Empty); return; }
      for i := 0 to slots.Length
        invariant slots == old(slots) && i <= slots.Length
        invariant forall j | 0 <= j < i :: slots[j].Empty?
      {
        slots[i] := Empty;
      }
    }

    method Build(nodes: seq<Node>, where: nat)
      requires where == 0 ==> nodes == []
      modifies this, slots
      ensures Valid() && at == where && n == |nodes| && built == nodes && slots.Length > 0 && (slots == old(slots) || fresh(slots))
    {
      hide Ok;
      var want := 16;
      while want < |nodes| * 2 + 2
        invariant want > 0
        decreases |nodes| * 2 + 2 - want
      {
        want := want * 2;
      }
      Clear(want);
      Blank(slots[..], NodeIds.Home);
      for i := 0 to |nodes|
        invariant slots == old(slots) || fresh(slots)
        invariant slots.Length >= want && Ok(slots[..], NodeIds.Home, Firsts(nodes, i))
      {
        Enter(slots, NodeIds.Home, nodes, i);
      }
      at, n, built := where, |nodes|, nodes;
    }

    /** The index says what the plain scan says of the array, or, for a null array after a reset, of the array
        that was indexed before. */
    method Find(nodes: seq<Node>, where: nat, e: Node) returns (r: Option<nat>)
      requires Valid() && Sound(nodes, where)
      ensures r == PlaceOf(if where == at == 0 then built else nodes, e)
    {
      hide Ok;
      if e.None? { return None; }
      var x := e.value;
      if where != at || |nodes| != n {
        var k := 0;
        while k < |nodes|
          invariant k <= |nodes| && Scan(nodes, x, 0) == Scan(nodes, x, k)
        {
          if nodes[k] == e { return Some(k); }
          k := k + 1;
        }
        return None;
      }
      LookupScans(built, x);
      FirstsExact(built, |built|, x);
      var h := Probe(slots, NodeIds.Home, x, Firsts(built, |built|));
      return if slots[h].Held? then Some(slots[h].val) else None;
    }

    /** Index another array, in tables of its own, unless it is taken for the one indexed. */
    method Open(nodes: seq<Node>, where: nat) returns (f: Frame)
      requires Valid() && Sound(nodes, where)
      modifies this
      ensures Valid() && at == where && n == |nodes| && slots.Length > 0
      ensures f == Frame(!old(Taken(nodes, where)), old(at), old(n), old(slots), old(built))
      ensures if f.own then fresh(slots) && built == nodes else slots == old(slots) && built == old(built)
    {
      f := Frame(!Taken(nodes, where), at, n, slots, built);
      if !f.own { return; }
      slots := new Slot<nat, nat>[0];
      Build(nodes, where);
    }

    /** The outer index again, just as it was set aside. */
    method Close(f: Frame)
      modifies this
      ensures if f.own then at == f.at && n == f.n && slots == f.slots && built == f.built
              else at == old(at) && n == old(n) && slots == old(slots) && built == old(built)
    {
      if !f.own { return; }
      at, n, slots, built := f.at, f.n, f.slots, f.built;
    }

    /** No array is indexed, but the table stays. */
    method Reset()
      requires Valid()
      modifies this`at, this`n
      ensures Valid() && at == 0 && n == 0
    {
      at, n := 0, 0;
    }
  }

  /** A null array holds nothing. After a reset the index says so of a node exactly when the array indexed before
      did not hold it. */
  lemma StaleExact(built: seq<Node>, e: Node)
    requires e.Some?
    ensures PlaceOf([], e) == None
    ensures PlaceOf(built, e) == PlaceOf([], e) <==> e !in built
  {
    if e in built { var j :| 0 <= j < |built| && built[j] == e; }
  }

  /** One array, a reset, and a look-up in a null array: the node is found at its old place. */
  method StaleFound() returns (r: Option<nat>)
    ensures r == Some(0) && PlaceOf([], Some(16)) == None
  {
    var x := new Index();
    x.Build([Some(16)], 1);
    x.Reset();
    r := x.Find([], 0, Some(16));
  }

  /** An array of nodes and its address. */
  datatype Nodes = Nodes(where: nat, nodes: seq<Node>)

  /** One address and length, one content. */
  ghost predicate Agree(a: Nodes, b: Nodes) { a.where == b.where && |a.nodes| == |b.nodes| ==> a.nodes == b.nodes }

  /** Inside a scope every other array that agrees with its own may be looked up. */
  lemma InnerSound(x: Index, here: Nodes, scopes: seq<Nodes>)
    requires x.at == here.where && x.n == |here.nodes| && x.slots.Length > 0 && (here.where != 0 ==> x.built == here.nodes)
    requires forall i | 0 <= i < |scopes| :: Agree(scopes[i], here) && (scopes[i].where == 0 ==> scopes[i].nodes == [])
    ensures forall i | 0 <= i < |scopes| :: x.Sound(scopes[i].nodes, scopes[i].where)
  {
  }

  /** Scopes opened one inside the other, to any depth, and closed in turn: each look-up on the way in and on
      the way out scans its own array, and at the end the outer index is just as it was, table contents and all. A
      null array may be among them unless the index was reset and its table still holds nodes. */
  method Nest(x: Index, scopes: seq<Nodes>, e: Node) returns (down: seq<Option<nat>>, up: seq<Option<nat>>)
    requires x.Valid() && (forall i | 0 <= i < |scopes| :: x.Sound(scopes[i].nodes, scopes[i].where))
    requires forall i | 0 <= i < |scopes| && scopes[i].where == x.at == 0 :: x.built == []
    requires forall i, j | 0 <= i < |scopes| && 0 <= j < |scopes| :: Agree(scopes[i], scopes[j])
    modifies x
    ensures x.Valid() && x.at == old(x.at) && x.n == old(x.n) && x.slots == old(x.slots) && x.slots[..] == old(x.slots[..]) && x.built == old(x.built)
    ensures |down| == |up| == |scopes|
    ensures forall i | 0 <= i < |scopes| :: down[i] == up[i] == PlaceOf(scopes[i].nodes, e)
    decreases |scopes|
  {
    hide Ok, Firsts, Scan, PlaceOf, Agree;
    if scopes == [] { return [], []; }
    var here := scopes[0];
    var f := x.Open(here.nodes, here.where);
    var first := x.Find(here.nodes, here.where, e);
    assert forall i | 0 <= i < |scopes[1..]| :: scopes[1..][i] == scopes[i + 1];
    assert forall i | 0 <= i < |scopes| :: Agree(scopes[i], here);
    InnerSound(x, here, scopes[1..]);
    var d, u := Nest(x, scopes[1..], e);
    var last := x.Find(here.nodes, here.where, e);
    x.Close(f);
    down, up := [first] + d, [last] + u;
  }
}
