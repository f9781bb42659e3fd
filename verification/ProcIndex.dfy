/** Finding a procedure by name through a cached index that may be older than the table. */
module ProcIndex {
  import opened Common
  import opened FirstPlaces
  import opened Probing

  /** An entry's name, when it has one. */
  type Entry = Option<string>

  function Nameless(t: seq<Entry>, n: nat): nat
    requires n <= |t|
  {
    if n == 0 then 0 else Nameless(t, n - 1) + if t[n - 1].None? then 1 else 0
  }

  lemma {:induction false} NoneNameless(t: seq<Entry>, n: nat)
    requires n <= |t|
    ensures Nameless(t, n) == 0 <==> forall j | 0 <= j < n :: t[j].Some?
  {
    if n > 0 { NoneNameless(t, n - 1); }
  }

  /** Entries were added behind, or named where they had no name. */
  ghost predicate Grown(old_: seq<Entry>, new_: seq<Entry>) {
    |old_| <= |new_| && forall i | 0 <= i < |old_| && old_[i].Some? :: new_[i] == old_[i]
  }

  lemma GrownSame(t: seq<Entry>)
    ensures Grown(t, t)
  {
  }

  /** What the search finds: what the table it was indexed by says, else what the table says now. */
  function Answer(indexed: seq<Entry>, table: seq<Entry>, name: string): Option<nat> {
    var hit := Scan(indexed, name, 0);
    if hit.Some? then hit else Scan(table, name, 0)
  }

  /** However old the index, the answer bears the name, and there is one exactly when some entry does. It is the
      plain scan's answer exactly when no entry named since stands before it with the same name. */
  lemma AnswerExact(indexed: seq<Entry>, table: seq<Entry>, name: string)
    requires Grown(indexed, table)
    ensures var r := Answer(indexed, table, name);
            && (r.Some? <==> Some(name) in table)
            && (r.Some? ==> r.value < |table| && table[r.value] == Some(name))
            && (r == Scan(table, name, 0) <==>
                  Scan(indexed, name, 0).None? || forall j | 0 <= j < Scan(indexed, name, 0).value && indexed[j].None? :: table[j] != Some(name))
  {
    var hit, now := Scan(indexed, name, 0), Scan(table, name, 0);
    if hit.Some? {
      assert table[hit.value] == Some(name);
      if now.value < hit.value { assert indexed[now.value].None?; }
    }
  }

  /** With no name twice in the table the answer is always the plain scan's. */
  lemma UniqueNames(indexed: seq<Entry>, table: seq<Entry>, name: string)
    requires Grown(indexed, table)
    requires forall i, j | 0 <= i < j < |table| && table[i].Some? :: table[i] != table[j]
    ensures Answer(indexed, table, name) == Scan(table, name, 0)
  {
    var hit, now := Scan(indexed, name, 0), Scan(table, name, 0);
    if hit.Some? { assert table[hit.value] == Some(name); }
  }

  /** An entry named after the index was built, before another of the same name: the scan finds it, the index does not. */
  lemma LateNameMissed()
    ensures Grown([None, Some("p")], [Some("p"), Some("p")])
    ensures Answer([None, Some("p")], [Some("p"), Some("p")], "p") == Some(1) && Scan([Some("p"), Some("p")], "p", 0) == Some(0)
  {
    var a: seq<Entry> := [None, Some("p")];
    assert Scan(a, "p", 1) == Some(1);
    assert Scan(a, "p", 0) == Some(1);
  }

  class Procs {
    const hash: string -> nat
    /** The table and its address; the index, the address and length it was built for, and the nameless entries then. */
    var table: seq<Entry>
    var at: nat
    var slots: array?<Slot<string, nat>>
    var builtAt: nat
    var builtN: nat
    var nul: nat
    ghost var indexed: seq<Entry>

    constructor (hash: string -> nat)
      ensures Valid() && table == [] && slots == null
    {
      this.hash := hash;
      table, at, slots := [], 0, null;
      builtAt, builtN, nul, indexed := 0, 0, 0, [];
    }

    ghost predicate Built(src: seq<Entry>)
      reads this, slots
    {
      slots != null && slots.Length > builtN && Ok(slots[..], hash, Firsts(src, |src|)) && builtN == |src| && nul == Nameless(src, |src|)
    }

    /** The index, when there is one, was right for what it was built from, and the table only grew since. */
    ghost predicate Valid()
      reads this, slots
    {
      slots != null ==> Built(indexed) && Grown(indexed, table)
    }

    /** A new entry; the table may move. */
    method Append(e: Entry, where: nat)
      requires Valid()
      modifies this`table, this`at
      ensures Valid() && table == old(table) + [e] && indexed == old(indexed)
    {
      table := table + [e];
      at := where;
    }

    /** An entry gets its name. */
    method Name(i: nat, name: string)
      requires Valid() && i < |table| && table[i].None?
      modifies this`table
      ensures Valid() && table == old(table)[i := Some(name)] && indexed == old(indexed)
    {
      table := table[i := Some(name)];
    }

    method BuildIndex()
      modifies this
      ensures Valid() && slots != null && fresh(slots) && indexed == table && builtAt == at && table == old(table) && at == old(at)
    {
      hide Ok, Scan, Grown;
      var cap := 16;
      while cap < 2 * |table| + 2
        invariant cap > 0
        decreases 2 * |table| + 2 - cap
      {
        cap := cap * 2;
      }
      var s := new Slot<string, nat>[cap](_ => Empty);
      Blank(s[..], hash);
      var t, none := table, 0;
      for i := 0 to |t|
        invariant unchanged(this) && fresh(s) && s.Length == cap && none == Nameless(t, i) && Ok(s[..], hash, Firsts(t, i))
      {
        if t[i].None? { none := none + 1; }
        Enter(s, hash, t, i);
      }
      slots := s;
      builtN, builtAt, nul, indexed := |table|, at, none, table;
      GrownSame(table);
    }

    /** One look-up in the index as it is. */
    method LookUp(name: string) returns (i: Option<nat>)
      requires Valid() && slots != null
      ensures i == Scan(indexed, name, 0)
    {
      hide Ok;
      FirstsExact(indexed, |indexed|, name);
      LookupScans(indexed, name);
      var h := Probe(slots, hash, name, Firsts(indexed, |indexed|));
      i := if slots[h].Held? then Some(slots[h].val) else None;
    }

    /** Two passes through the index, the second on a fresh one, then a plain scan. The answer is that of the index
        first used, be it old or fresh. */
    method Find(name: string) returns (r: Option<nat>)
      requires Valid()
      modifies this
      ensures Valid() && table == old(table)
      ensures var stale := old(slots != null && builtN == |table| && builtAt == at);
              r == Answer(if stale then old(indexed) else table, table, name)
    {
      if |table| <= 0 { return None; }
      hide Built;
      ghost var first := if slots != null && builtN == |table| && builtAt == at then indexed else table;
      var pass := 0;
      while pass < 2
        invariant 0 <= pass <= 2 && Valid() && table == old(table) && at == old(at) && |table| > 0
        invariant pass == 0 ==> indexed == old(indexed) && slots == old(slots) && builtN == old(builtN) && builtAt == old(builtAt)
        invariant pass > 0 ==> Scan(first, name, 0) == None
      {
        if pass > 0 || slots == null || builtN != |table| || builtAt != at { BuildIndex(); }
        var i := LookUp(name);
        NamelessIs(this);
        if i.Some? {
          if table[i.value] == Some(name) { return i; }
        } else if nul == 0 {
          return None;
        }
        pass := pass + 1;
      }
      var k := 0;
      while k < |table|
        invariant k <= |table| && Scan(table, name, 0) == Scan(table, name, k)
      {
        if table[k] == Some(name) { return Some(k); }
        k := k + 1;
      }
      return None;
    }
  }

  /** When every entry had a name, the index is as good as the table it was built for. */
  lemma NamelessIs(p: Procs)
    requires p.Valid() && p.slots != null
    ensures p.builtN == |p.indexed| && (p.nul == 0 ==> forall j | 0 <= j < |p.indexed| :: p.indexed[j].Some?)
    ensures forall i | 0 <= i < |p.indexed| && p.indexed[i].Some? :: p.table[i] == p.indexed[i]
  {
    NoneNameless(p.indexed, |p.indexed|);
    hide Ok;
  }
}
