/** The first place of each key in a sequence some of whose places have none: what two of the indexes hold. */
module FirstPlaces {
  import opened Common
  import opened Probing

  /** The first place of each key among the first `n`. */
  function Firsts<K(==)>(t: seq<Option<K>>, n: nat): map<K, nat>
    requires n <= |t|
  {
    if n == 0 then map[]
    else
      var m := Firsts(t, n - 1);
      if t[n - 1].None? || t[n - 1].value in m then m else m[t[n - 1].value := n - 1]
  }

  /** The plain scan from place `k` on. */
  function Scan<K(==)>(t: seq<Option<K>>, key: K, k: nat): (r: Option<nat>)
    requires k <= |t|
    ensures r.Some? ==> k <= r.value < |t| && t[r.value] == Some(key) && forall j | k <= j < r.value :: t[j] != Some(key)
    ensures r.None? ==> forall j | k <= j < |t| :: t[j] != Some(key)
    decreases |t| - k
  {
    if k == |t| then None else if t[k] == Some(key) then Some(k) else Scan(t, key, k + 1)
  }

  lemma {:induction false} FirstsExact<K>(t: seq<Option<K>>, n: nat, key: K)
    requires n <= |t|
    ensures key in Firsts(t, n) ==> Firsts(t, n)[key] < n && t[Firsts(t, n)[key]] == Some(key) && forall j | 0 <= j < Firsts(t, n)[key] :: t[j] != Some(key)
    ensures key !in Firsts(t, n) ==> forall j | 0 <= j < n :: t[j] != Some(key)
    ensures |Firsts(t, n)| <= n
  {
    if n > 0 { FirstsExact(t, n - 1, key); }
  }

  /** Looking a key up is scanning for it. */
  lemma LookupScans<K>(t: seq<Option<K>>, key: K)
    ensures Scan(t, key, 0) == var m := Firsts(t, |t|); if key in m then Some(m[key]) else None
  {
    FirstsExact(t, |t|, key);
  }

  lemma {:induction false} FirstsFew<K>(t: seq<Option<K>>, n: nat)
    requires n <= |t|
    ensures |Firsts(t, n)| <= n
  {
    if n > 0 { FirstsFew(t, n - 1); }
  }

  lemma FirstSkip<K>(t: seq<Option<K>>, n: nat)
    requires n < |t| && t[n].None?
    ensures Firsts(t, n + 1) == Firsts(t, n)
  {
  }

  /** A table of first places takes in the next one where a probe for its key stops. */
  lemma FirstPut<K(!new)>(s: seq<Slot<K, nat>>, hash: K -> nat, t: seq<Option<K>>, n: nat, h: nat)
    requires n < |t| && t[n].Some? && Ok(s, hash, Firsts(t, n)) && Stops(s, hash(t[n].value), t[n].value, h)
    ensures h < |s| && Ok(if s[h].Empty? then s[h := Held(t[n].value, n)] else s, hash, Firsts(t, n + 1))
  {
    var k, m := t[n].value, Firsts(t, n);
    assert Firsts(t, n + 1) == if k in m then m else m[k := n];
    hide Ok, Firsts;
    StopTells(s, hash, m, k, h);
    if s[h].Empty? { PutKeeps<K, nat>(s, hash, m, k, n, h); }
  }

  /** Enter place `i` for its key, unless the key has an earlier one. */
  method Enter<K(==, !new)>(slots: array<Slot<K, nat>>, hash: K -> nat, t: seq<Option<K>>, i: nat)
    requires i < |t| < slots.Length && Ok(slots[..], hash, Firsts(t, i))
    modifies slots
    ensures Ok(slots[..], hash, Firsts(t, i + 1))
  {
    if t[i].None? { FirstSkip(t, i); return; }
    hide Ok, Stops, Firsts;
    FirstsFew(t, i);
    ghost var was := slots[..];
    var h := Probe(slots, hash, t[i].value, Firsts(t, i));
    FirstPut(was, hash, t, i, h);
    if slots[h].Empty? {
      slots[h] := Held(t[i].value, i);
      assert slots[..] == was[h := Held(t[i].value, i)];
    }
  }
}
