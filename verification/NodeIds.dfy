/** Dense numbers for nodes, in the order they are first asked for. A node is its address, 0 null. */
module NodeIds {
  import opened Common
  import opened Probing

  function Home(nd: nat): nat { nd / 16 }

  /** The number of a node is its place in the order, from 1. */
  function Ids(seen: seq<nat>): map<nat, nat> {
    if seen == [] then map[] else Ids(seen[..|seen| - 1])[seen[|seen| - 1] := |seen|]
  }

  lemma {:induction false} IdsExact(seen: seq<nat>)
    requires NoDup(seen)
    ensures |Ids(seen)| == |seen|
    ensures forall i: nat | i < |seen| :: seen[i] in Ids(seen) && Ids(seen)[seen[i]] == i + 1
    ensures forall nd | nd in Ids(seen) :: nd in seen
  {
    if seen != [] {
      var front := seen[..|seen| - 1];
      IdsExact(front);
      assert seen == front + [seen[|seen| - 1]];
      assert seen[|seen| - 1] !in front;
    }
  }

  /** What a number stays: one to one between the nodes seen and 1 to their count. */
  lemma IdsBijective(seen: seq<nat>, a: nat, b: nat)
    requires NoDup(seen) && a in seen && b in seen
    ensures a in Ids(seen) && b in Ids(seen) && 1 <= Ids(seen)[a] <= |seen| && seen[Ids(seen)[a] - 1] == a && (Ids(seen)[a] == Ids(seen)[b] <==> a == b)
  {
    IdsExact(seen);
    var i :| 0 <= i < |seen| && seen[i] == a;
    var j :| 0 <= j < |seen| && seen[j] == b;
  }

  class Numbering {
    const dense: bool
    var slots: array<Slot<nat, nat>>
    var count: nat
    ghost var seen: seq<nat>

    constructor (dense: bool)
      ensures Valid() && seen == [] && this.dense == dense && fresh(slots)
    {
      this.dense := dense;
      slots := new Slot<nat, nat>[0];
      count, seen := 0, [];
    }

    ghost predicate Valid()
      reads this, slots
    {
      && NoDup(seen) && count == |seen| && 2 * count <= slots.Length
      && (if slots.Length == 0 then seen == [] else Ok(slots[..], Home, Ids(seen)))
    }

    /** Twice the slots, or the first eight. */
    method Grow()
      requires Valid()
      modifies this`slots
      ensures Valid() && fresh(slots) && slots.Length > 0 && 2 * count + 2 <= slots.Length
    {
      hide Ok, NoDup;
      IdsExact(seen);
      var cap := if slots.Length > 0 then slots.Length * 2 else 8;
      if slots.Length > 0 {
        slots := Rehash(slots, cap, Home, Ids(seen));
      } else {
        slots := new Slot<nat, nat>[cap](_ => Empty);
        Blank(slots[..], Home);
        assert Ids(seen) == map[];
      }
    }

    /** A node seen before keeps its number, through every growth of the table; a new one gets the next. */
    method NodeId(nd: nat) returns (id: nat)
      requires Valid()
      modifies this, slots
      ensures Valid() && (slots == old(slots) || fresh(slots))
      ensures nd == 0 ==> id == 0 && seen == old(seen)
      ensures nd != 0 && !dense ==> id == nd % 100000 && seen == old(seen)
      ensures nd != 0 && dense ==> nd in Ids(seen) && id == Ids(seen)[nd] && seen == if nd in old(seen) then old(seen) else old(seen) + [nd]
    {
      hide Ok, NoDup, Ids;
      if nd == 0 { return 0; }
      if !dense { return nd % 100000; }
      if (count + 1) * 2 > slots.Length { Grow(); }
      IdsExact(seen);
      ghost var was := slots[..];
      var h := Probe(slots, Home, nd, Ids(seen));
      if slots[h].Held? { return slots[h].val; }
      PutKeeps<nat, nat>(was, Home, Ids(seen), nd, count + 1, h);
      SeenMore(seen, nd);
      count := count + 1;
      slots[h] := Held(nd, count);
      assert slots[..] == was[h := Held(nd, count)];
      seen := seen + [nd];
      return count;
    }
  }

  lemma SeenMore(seen: seq<nat>, nd: nat)
    requires NoDup(seen) && nd !in Ids(seen)
    ensures nd !in seen && NoDup(seen + [nd]) && Ids(seen + [nd]) == Ids(seen)[nd := |seen| + 1]
  {
    IdsExact(seen);
    assert (seen + [nd])[..|seen|] == seen;
    hide Ids;
  }
}
