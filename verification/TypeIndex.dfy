/** The index from class names to registered types: a later registration of a name takes it over. */
module TypeIndex {
  import opened Common
  import opened Probing

  /** For each name, its last registration. */
  function Last(names: seq<string>): map<string, nat> {
    if names == [] then map[] else Last(names[..|names| - 1])[names[|names| - 1] := |names| - 1]
  }

  lemma {:induction false} LastExact(names: seq<string>, n: string)
    ensures n in Last(names) <==> n in names
    ensures n in Last(names) ==> Last(names)[n] < |names| && names[Last(names)[n]] == n && forall j | Last(names)[n] < j < |names| :: names[j] != n
  {
    if names != [] {
      var front := names[..|names| - 1];
      LastExact(front, n);
      assert names == front + [names[|names| - 1]];
    }
  }

  lemma {:induction false} LastSmall(names: seq<string>)
    ensures |Last(names)| <= |names|
  {
    if names != [] { LastSmall(names[..|names| - 1]); }
  }

  class Index {
    const hash: string -> nat
    /** The registered types' names, oldest first. */
    var names: seq<string>
    var slots: array<Slot<string, nat>>
    var len: nat

    constructor (hash: string -> nat)
      ensures Valid() && names == [] && fresh(slots)
    {
      this.hash := hash;
      names := [];
      slots := new Slot<string, nat>[0];
      len := 0;
    }

    /** At least half the slots stay empty. */
    ghost predicate Valid()
      reads this, slots
    {
      && len == |Last(names)| && 2 * len <= slots.Length
      && (if slots.Length == 0 then names == [] else Ok(slots[..], hash, Last(names)))
    }

    /** Put type `k` in the table: over the type of the same name, or in a new slot. */
    method Insert(k: nat)
      requires slots.Length > 0 && k + 1 == |names| && Ok(slots[..], hash, Last(names[..k])) && |Last(names[..k])| < slots.Length && len == |Last(names[..k])|
      modifies this`len, slots
      ensures Ok(slots[..], hash, Last(names)) && len == |Last(names)|
    {
      hide Ok;
      ghost var m, was := Last(names[..k]), slots[..];
      var i := Probe(slots, hash, names[k], m);
      PutKeeps(was, hash, m, names[k], k, i);
      if slots[i].Empty? { len := len + 1; }
      slots[i] := Held(names[k], k);
      assert slots[..] == was[i := Held(names[k], k)];
    }

    method Register(name: string)
      requires Valid()
      modifies this, slots
      ensures Valid() && names == old(names) + [name] && (slots == old(slots) || fresh(slots))
    {
      hide Ok;
      ghost var m := Last(names);
      assert (names + [name])[..|names|] == names;
      if (len + 1) * 2 > slots.Length {
        var cap := if slots.Length > 0 then slots.Length * 2 else 256;
        if slots.Length > 0 {
          slots := Rehash(slots, cap, hash, m);
        } else {
          slots := new Slot<string, nat>[cap](_ => Empty);
          Blank(slots[..], hash);
          assert m == map[];
        }
      }
      names := names + [name];
      Insert(|names| - 1);
    }

    /** The last type registered under the name, or none. */
    method Get(name: string) returns (r: Option<nat>)
      requires Valid()
      ensures r == if name in Last(names) then Some(Last(names)[name]) else None
      ensures r.None? ==> name !in names
      ensures r.Some? ==> r.value < |names| && names[r.value] == name && forall j | r.value < j < |names| :: names[j] != name
    {
      hide Ok;
      LastExact(names, name);
      if slots.Length == 0 { return None; }
      var i := Probe(slots, hash, name, Last(names));
      return if slots[i].Held? then Some(slots[i].val) else None;
    }
  }
}
