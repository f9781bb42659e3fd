/** Linear probing, the way every index of the compiler does it: start at the key's home, step until the key or
    an empty slot. */
module Probing {
  import opened Arith

  datatype Slot<+K, +V> = Empty | Held(key: K, val: V)

  /** The slot `d` steps from `home`. */
  function Place(cap: nat, home: nat, d: nat): (i: nat)
    requires cap > 0
    ensures i < cap
  {
    (home + d) % cap
  }

  lemma PlaceNext(cap: nat, home: nat, d: nat)
    requires cap > 0
    ensures (Place(cap, home, d) + 1) % cap == Place(cap, home, d + 1)
  {
    NextMod(home + d, cap);
  }

  /** Every slot is some steps from home. */
  lemma PlaceOnto(cap: nat, home: nat, i: nat) returns (d: nat)
    requires i < cap
    ensures d < cap && Place(cap, home, d) == i
  {
    var r := home % cap;
    d := if i >= r then i - r else i + cap - r;
    Div(home + d, cap, if i >= r then home / cap else home / cap + 1, i);
  }

  /** The first `d` slots hold other keys. */
  ghost predicate Passed<K(!new), V>(s: seq<Slot<K, V>>, home: nat, d: nat, k: K)
    requires |s| > 0
  {
    forall e: nat | e < d :: s[Place(|s|, home, e)].Held? && s[Place(|s|, home, e)].key != k
  }

  /** Slot `i` is where a probe for `k` stops. */
  ghost predicate Stops<K(!new), V>(s: seq<Slot<K, V>>, home: nat, k: K, i: nat)
    requires |s| > 0
  {
    i < |s| && (s[i].Held? ==> s[i].key == k) && exists d: nat :: d < |s| && i == Place(|s|, home, d) && Passed(s, home, d, k)
  }

  /** Every key sits where a probe for it stops. */
  ghost predicate Probed<K(!new), V>(s: seq<Slot<K, V>>, hash: K -> nat)
    requires |s| > 0
  {
    forall i: nat | i < |s| && s[i].Held? :: Stops(s, hash(s[i].key), s[i].key, i)
  }

  /** The slots hold exactly what the map says. */
  ghost predicate Holds<K(!new), V(!new)>(s: seq<Slot<K, V>>, m: map<K, V>) {
    && (forall i: nat | i < |s| && s[i].Held? :: s[i].key in m && m[s[i].key] == s[i].val)
    && (forall k | k in m :: Has(s, k))
  }

  ghost predicate Has<K, V>(s: seq<Slot<K, V>>, k: K) { exists i: nat :: i < |s| && s[i].Held? && s[i].key == k }

  ghost predicate Ok<K(!new), V(!new)>(s: seq<Slot<K, V>>, hash: K -> nat, m: map<K, V>) {
    |s| > 0 && Probed(s, hash) && Holds(s, m)
  }

  // ---------------------------------------------------------------- a probe has one answer

  lemma StopsOnce<K(!new), V>(s: seq<Slot<K, V>>, home: nat, k: K, i: nat, j: nat)
    requires |s| > 0 && Stops(s, home, k, i) && Stops(s, home, k, j)
    ensures i == j
  {
    var d: nat :| d < |s| && i == Place(|s|, home, d) && Passed(s, home, d, k);
    var e: nat :| e < |s| && j == Place(|s|, home, e) && Passed(s, home, e, k);
    PassedNot(s, home, d, e, k);
    PassedNot(s, home, e, d, k);
  }

  lemma PassedNot<K(!new), V>(s: seq<Slot<K, V>>, home: nat, d: nat, e: nat, k: K)
    requires |s| > 0 && Passed(s, home, e, k) && d < |s| && (s[Place(|s|, home, d)].Held? ==> s[Place(|s|, home, d)].key == k)
    ensures d >= e
  {
  }

  /** No key sits in two slots. */
  lemma KeyOnce<K(!new), V>(s: seq<Slot<K, V>>, hash: K -> nat, i: nat, j: nat)
    requires |s| > 0 && Probed(s, hash) && i < |s| && j < |s| && s[i].Held? && s[j].Held?
    ensures s[i].key == s[j].key ==> i == j
  {
    if s[i].key == s[j].key { StopsOnce(s, hash(s[i].key), s[i].key, i, j); }
  }

  /** Where a probe stops tells whether the key is there, and what it maps to. */
  lemma StopTells<K(!new), V(!new)>(s: seq<Slot<K, V>>, hash: K -> nat, m: map<K, V>, k: K, i: nat)
    requires Ok(s, hash, m) && Stops(s, hash(k), k, i)
    ensures s[i].Held? <==> k in m
    ensures s[i].Held? ==> m[k] == s[i].val
  {
    if k in m {
      var j: nat :| j < |s| && s[j].Held? && s[j].key == k;
      StopsOnce(s, hash(k), k, i, j);
    }
  }

  // ---------------------------------------------------------------- putting

  lemma PassedStays<K(!new), V>(s: seq<Slot<K, V>>, i: nat, t: Slot<K, V>, home: nat, d: nat, k: K)
    requires |s| > 0 && i < |s| && t.Held? && (s[i].Held? ==> s[i].key == t.key) && Passed(s, home, d, k)
    ensures Passed(s[i := t], home, d, k)
  {
    forall e: nat | e < d ensures s[i := t][Place(|s|, home, e)].Held? && s[i := t][Place(|s|, home, e)].key != k {
      assert s[Place(|s|, home, e)].Held?;
    }
  }

  lemma StopsStays<K(!new), V>(s: seq<Slot<K, V>>, i: nat, t: Slot<K, V>, home: nat, k: K, j: nat)
    requires |s| > 0 && i < |s| && t.Held? && (s[i].Held? ==> s[i].key == t.key) && Stops(s, home, k, j) && (j == i ==> t.key == k)
    ensures Stops(s[i := t], home, k, j)
  {
    var d: nat :| d < |s| && j == Place(|s|, home, d) && Passed(s, home, d, k);
    PassedStays(s, i, t, home, d, k);
  }

  /** Writing where the probe stopped adds the key or replaces what it maps to. */
  lemma PutKeeps<K(!new), V(!new)>(s: seq<Slot<K, V>>, hash: K -> nat, m: map<K, V>, k: K, v: V, i: nat)
    requires Ok(s, hash, m) && Stops(s, hash(k), k, i)
    ensures Ok(s[i := Held(k, v)], hash, m[k := v])
  {
    var t := s[i := Held(k, v)];
    assert Probed(t, hash) by {
      forall j: nat | j < |t| && t[j].Held? ensures Stops(t, hash(t[j].key), t[j].key, j) { StopsStays(s, i, Held(k, v), hash(t[j].key), t[j].key, j); }
    }
    assert Holds(t, m[k := v]) by { PutHolds(s, hash, m, k, v, i); }
  }

  lemma PutHolds<K(!new), V(!new)>(s: seq<Slot<K, V>>, hash: K -> nat, m: map<K, V>, k: K, v: V, i: nat)
    requires Ok(s, hash, m) && Stops(s, hash(k), k, i)
    ensures Holds(s[i := Held(k, v)], m[k := v])
  {
    var t := s[i := Held(k, v)];
    StopTells(s, hash, m, k, i);
    forall j: nat | j < |t| && t[j].Held? ensures t[j].key in m[k := v] && m[k := v][t[j].key] == t[j].val {
      if j != i && t[j].key == k { StopsOnce(s, hash(k), k, i, j); }
    }
    forall x | x in m[k := v] ensures Has(t, x) {
      if x == k {
        assert t[i].key == k;
      } else {
        assert Has(s, x);
        var j: nat :| j < |s| && s[j].Held? && s[j].key == x;
        assert j != i ==> t[j].key == x;
      }
    }
  }

  // ---------------------------------------------------------------- room

  /** The keys of the first `n` slots. */
  function KeysIn<K, V>(s: seq<Slot<K, V>>, n: nat): set<K>
    requires n <= |s|
  {
    if n == 0 then {} else KeysIn(s, n - 1) + if s[n - 1].Held? then {s[n - 1].key} else {}
  }

  lemma {:induction false} KeysInAre<K(!new), V>(s: seq<Slot<K, V>>, n: nat, k: K)
    requires n <= |s|
    ensures k in KeysIn(s, n) <==> exists i: nat :: i < n && s[i].Held? && s[i].key == k
  {
    if n > 0 { KeysInAre(s, n - 1, k); }
  }

  lemma KeyNew<K(!new), V>(s: seq<Slot<K, V>>, hash: K -> nat, n: nat)
    requires n < |s| && Probed(s, hash) && s[n].Held?
    ensures s[n].key !in KeysIn(s, n)
  {
    hide Probed;
    forall i: nat | i < n && s[i].Held? ensures s[i].key != s[n].key { KeyOnce(s, hash, i, n); }
    KeysInAre(s, n, s[n].key);
  }

  lemma {:induction false} FullCounts<K(!new), V>(s: seq<Slot<K, V>>, hash: K -> nat, n: nat)
    requires n <= |s| && |s| > 0 && Probed(s, hash) && forall i: nat | i < n :: s[i].Held?
    ensures |KeysIn(s, n)| == n
  {
    hide Probed;
    if n > 0 {
      FullCounts(s, hash, n - 1);
      KeyNew(s, hash, n - 1);
    }
  }

  lemma FullNeeds<K(!new), V(!new)>(s: seq<Slot<K, V>>, hash: K -> nat, m: map<K, V>)
    requires Ok(s, hash, m)
    ensures (forall j: nat | j < |s| :: s[j].Held?) ==> |s| <= |m|
  {
    if forall j: nat | j < |s| :: s[j].Held? {
      FullCounts(s, hash, |s|);
      forall k | k in KeysIn(s, |s|) ensures k in m { KeysInAre(s, |s|, k); }
      assert KeysIn(s, |s|) <= m.Keys;
      assert m.Keys == KeysIn(s, |s|) + (m.Keys - KeysIn(s, |s|));
      assert |m.Keys| == |m|;
    }
  }

  /** Fewer keys than slots leave a slot empty. */
  lemma EmptySlot<K(!new), V(!new)>(s: seq<Slot<K, V>>, hash: K -> nat, m: map<K, V>) returns (i: nat)
    requires Ok(s, hash, m) && |m| < |s|
    ensures i < |s| && s[i].Empty?
  {
    FullNeeds(s, hash, m);
    i :| i < |s| && s[i].Empty?;
  }

  lemma Blank<K(!new), V(!new)>(s: seq<Slot<K, V>>, hash: K -> nat)
    requires |s| > 0 && forall i: nat | i < |s| :: s[i].Empty?
    ensures Ok(s, hash, map[])
  {
  }

  // ---------------------------------------------------------------- the probe loop

  /** Step from the key's home to the key or an empty slot; there is one, so the loop ends. */
  method Probe<K(==, !new), V(!new)>(s: array<Slot<K, V>>, hash: K -> nat, k: K, ghost m: map<K, V>) returns (i: nat)
    requires Ok(s[..], hash, m) && |m| < s.Length
    ensures Stops(s[..], hash(k), k, i) && i < s.Length
    ensures (s[i].Held? <==> k in m) && (s[i].Held? ==> s[i].key == k && s[i].val == m[k])
  {
    hide Ok, Passed, Place;
    ghost var free := EmptySlot(s[..], hash, m);
    ghost var far := PlaceOnto(s.Length, hash(k), free);
    ghost var d := 0;
    StartHere(s[..], hash, m, k);
    i := hash(k) % s.Length;
    while s[i].Held? && s[i].key != k
      invariant d <= far && i == Place(s.Length, hash(k), d) && i < s.Length && Passed(s[..], hash(k), d, k)
      decreases far - d
    {
      PlaceNext(s.Length, hash(k), d);
      PassedOne(s[..], hash(k), d, k);
      assert d != far;
      i := (i + 1) % s.Length;
      d := d + 1;
    }
    assert Stops(s[..], hash(k), k, i);
    StopTells(s[..], hash, m, k, i);
  }

  lemma StartHere<K(!new), V(!new)>(s: seq<Slot<K, V>>, hash: K -> nat, m: map<K, V>, k: K)
    requires Ok(s, hash, m)
    ensures |s| > 0 && hash(k) % |s| == Place(|s|, hash(k), 0) && Passed(s, hash(k), 0, k)
  {
  }

  lemma PassedOne<K(!new), V>(s: seq<Slot<K, V>>, home: nat, d: nat, k: K)
    requires |s| > 0 && Passed(s, home, d, k) && s[Place(|s|, home, d)].Held? && s[Place(|s|, home, d)].key != k
    ensures Passed(s, home, d + 1, k)
  {
  }

  // ---------------------------------------------------------------- moving to a larger table

  /** What the first `n` slots hold. */
  function MapIn<K, V>(s: seq<Slot<K, V>>, n: nat): map<K, V>
    requires n <= |s|
  {
    if n == 0 then map[] else if s[n - 1].Held? then MapIn(s, n - 1)[s[n - 1].key := s[n - 1].val] else MapIn(s, n - 1)
  }

  lemma HeldIs<K(!new), V(!new)>(s: seq<Slot<K, V>>, hash: K -> nat, m: map<K, V>, i: nat)
    requires i < |s| && Ok(s, hash, m)
    ensures s[i].Held? ==> s[i].key in m && m[s[i].key] == s[i].val
  {
  }

  ghost predicate Submap<K(!new), V(!new)>(a: map<K, V>, m: map<K, V>) { forall k | k in a :: k in m && a[k] == m[k] }

  lemma SubmapSize<K(!new), V(!new)>(a: map<K, V>, m: map<K, V>)
    requires Submap(a, m)
    ensures |a| <= |m|
  {
    assert a.Keys <= m.Keys;
    assert m.Keys == a.Keys + (m.Keys - a.Keys);
    assert |a| == |a.Keys| && |m| == |m.Keys|;
  }

  lemma {:induction false} MapInPart<K(!new), V(!new)>(s: seq<Slot<K, V>>, hash: K -> nat, m: map<K, V>, n: nat)
    requires n <= |s| && Ok(s, hash, m)
    ensures Submap(MapIn(s, n), m) && |MapIn(s, n)| <= |m|
    ensures forall i: nat | i < n && s[i].Held? :: s[i].key in MapIn(s, n)
  {
    hide Ok;
    if n > 0 {
      MapInPart(s, hash, m, n - 1);
      HeldIs(s, hash, m, n - 1);
    }
    SubmapSize(MapIn(s, n), m);
  }

  lemma MapInWhole<K(!new), V(!new)>(s: seq<Slot<K, V>>, hash: K -> nat, m: map<K, V>)
    requires Ok(s, hash, m)
    ensures MapIn(s, |s|) == m
  {
    MapInPart(s, hash, m, |s|);
    forall k | k in m ensures k in MapIn(s, |s|) { assert Has(s, k); }
  }

  /** Put every entry where a probe in the larger table leads. */
  method Rehash<K(==, !new), V(!new)>(old_: array<Slot<K, V>>, cap: nat, hash: K -> nat, ghost m: map<K, V>) returns (s: array<Slot<K, V>>)
    requires Ok(old_[..], hash, m) && |m| < cap
    ensures fresh(s) && s.Length == cap && Ok(s[..], hash, m)
  {
    hide Ok, Stops;
    s := new Slot<K, V>[cap](_ => Empty);
    ghost var t := old_[..];
    Blank(s[..], hash);
    for i := 0 to old_.Length
      invariant fresh(s) && s.Length == cap && old_[..] == t
      invariant Ok(s[..], hash, MapIn(t, i))
    {
      MapInPart(t, hash, m, i);
      assert old_[i] == t[i];
      if old_[i].Held? {
        var j := Probe(s, hash, old_[i].key, MapIn(t, i));
        PutKeeps(s[..], hash, MapIn(t, i), old_[i].key, old_[i].val, j);
        ghost var was := s[..];
        s[j] := old_[i];
        assert s[..] == was[j := Held(t[i].key, t[i].val)];
      }
    }
    MapInWhole(t, hash, m);
  }
}
