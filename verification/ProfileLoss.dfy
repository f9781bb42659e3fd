/** Past half the table the bound of NoDrop is the best there is: while a thread loses the race for slot after
    slot, each lost race costs it two turns and the other threads one function. */
module ProfileLoss {
  import opened Arith
  import opened Common
  import opened ProfileTable

  /** From the home of `f` on, the slots hold `own` and then nothing. */
  ghost predicate Filled(tb: Table, f: nat, own: seq<nat>, fn: seq<nat>) {
    && tb.size == |fn| > 0 && |own| <= tb.size
    && forall d: nat | d < tb.size :: fn[tb.Slot(f, d)] == if d < |own| then own[d] else 0
  }

  /** What the run below keeps an eye on: slots from the home of `f`, two threads, functions seen, calls dropped. */
  datatype View = View(f: nat, own: seq<nat>, first: Thread, second: Thread, seen: set<nat>, dropped: multiset<nat>) {
    function Of(k: nat): Thread { if k == 0 then first else second }

    function Set(k: nat, t: Thread): View { if k == 0 then this.(first := t) else this.(second := t) }
  }

  ghost predicate Shows(tb: Table, v: View, s: State) {
    && Shape(tb, s) && Filled(tb, v.f, v.own, s.fn)
    && s.threads == [v.first, v.second] && Distinct(s.calls) == v.seen && s.dropped == v.dropped
  }

  /** Some interleaving of two threads, from an empty table, shows `v`. */
  ghost predicate Reached(tb: Table, v: View) {
    && tb.Ok() && Inv(tb, Start(tb.size, 2))
    && exists ms: seq<Move> :: Shows(tb, v, After(tb, Start(tb.size, 2), ms))
  }

  // ---------------------------------------------------------------- one more move

  lemma {:induction false} AfterMore(tb: Table, s: State, ms: seq<Move>, m: Move)
    requires Inv(tb, s)
    ensures Inv(tb, After(tb, s, ms)) && Shape(tb, After(tb, s, ms)) && After(tb, s, ms + [m]) == Do(tb, After(tb, s, ms), m)
    decreases |ms|
  {
    hide Inv, Shape, Do;
    ShapeHolds(tb, s);
    if ms == [] {
      DoKeeps(tb, s, m);
      assert [m][1..] == [] && (ms + [m]) == [m];
    } else {
      DoKeeps(tb, s, ms[0]);
      AfterMore(tb, Do(tb, s, ms[0]), ms[1..], m);
      assert (ms + [m])[1..] == ms[1..] + [m];
    }
  }

  /** A move that turns what is shown from `v` to `w`. */
  ghost predicate Turns(tb: Table, v: View, m: Move, w: View) {
    forall s | Shows(tb, v, s) :: Shows(tb, w, Do(tb, s, m))
  }

  lemma Onward(tb: Table, v: View, m: Move, w: View)
    requires Reached(tb, v) && Turns(tb, v, m, w)
    ensures Reached(tb, w)
  {
    var z := Start(tb.size, 2);
    var ms :| Shows(tb, v, After(tb, z, ms));
    hide Shows, Inv, Start, Do;
    AfterMore(tb, z, ms, m);
    assert Shows(tb, w, After(tb, z, ms + [m]));
  }

  lemma Enters(tb: Table, v: View, k: nat, g: nat)
    requires tb.Ok() && k < 2 && v.Of(k) == Idle && g != 0 && tb.hash(g) == tb.hash(v.f)
    ensures Turns(tb, v, Enter(k, g), v.Set(k, Probe(g, tb.Slot(v.f, 0), 0)).(seen := v.seen + {g}))
  {
    Div(tb.hash(v.f), tb.size, 0, tb.hash(v.f));
  }

  lemma LoadsNull(tb: Table, v: View, k: nat, g: nat, n: nat)
    requires tb.Ok() && k < 2 && |v.own| < tb.size && n < tb.size && v.Of(k) == Probe(g, tb.Slot(v.f, |v.own|), n) && g != 0
    ensures Turns(tb, v, Advance(k), v.Set(k, Swap(g, tb.Slot(v.f, |v.own|), n)))
  {
  }

  lemma LoadsOther(tb: Table, v: View, k: nat, g: nat, d: nat, n: nat)
    requires tb.Ok() && k < 2 && d < |v.own| <= tb.size && n < tb.size && v.Of(k) == Probe(g, tb.Slot(v.f, d), n)
    requires v.own[d] != 0 && v.own[d] != g
    ensures Turns(tb, v, Advance(k), v.Set(k, Probe(g, tb.Slot(v.f, d + 1), n + 1)))
  {
    SlotNext(tb, v.f, d);
  }

  lemma Wins(tb: Table, v: View, k: nat, g: nat, n: nat)
    requires tb.Ok() && k < 2 && |v.own| < tb.size && v.Of(k) == Swap(g, tb.Slot(v.f, |v.own|), n)
    ensures Turns(tb, v, Advance(k), v.Set(k, Count(g, tb.Slot(v.f, |v.own|))).(own := v.own + [g]))
  {
    forall s | Shows(tb, v, s) ensures Filled(tb, v.f, v.own + [g], Do(tb, s, Advance(k)).fn) {
      forall d: nat | d < tb.size && d != |v.own| ensures tb.Slot(v.f, d) != tb.Slot(v.f, |v.own|) {
        if tb.Slot(v.f, d) == tb.Slot(v.f, |v.own|) { SlotInjective(tb, v.f, d, |v.own|); }
      }
    }
  }

  lemma Loses(tb: Table, v: View, k: nat, g: nat, d: nat, n: nat)
    requires tb.Ok() && k < 2 && d < |v.own| <= tb.size && v.Of(k) == Swap(g, tb.Slot(v.f, d), n) && v.own[d] != 0
    ensures Turns(tb, v, Advance(k), v.Set(k, Probe(g, tb.Slot(v.f, d), n + 1)))
  {
  }

  lemma Leaves(tb: Table, v: View, k: nat, g: nat, i: nat)
    requires tb.Ok() && k < 2 && v.Of(k) == Count(g, i)
    ensures Turns(tb, v, Advance(k), v.Set(k, Idle))
  {
  }

  lemma GivesUp(tb: Table, v: View, k: nat, g: nat, i: nat, n: nat)
    requires tb.Ok() && k < 2 && v.Of(k) == Probe(g, i, n) && n >= tb.size
    ensures Turns(tb, v, Advance(k), v.Set(k, Idle).(dropped := v.dropped + multiset{g}))
  {
  }

  // ---------------------------------------------------------------- one lost race

  /** Thread 1 walks over the slots taken so far. */
  lemma {:induction false} Walks(tb: Table, v: View, g: nat, d: nat)
    requires d <= |v.own| < tb.size && g != 0 && forall o | o in v.own :: o != 0 && o != g
    requires Reached(tb, v.(second := Probe(g, tb.Slot(v.f, 0), 0)))
    ensures Reached(tb, v.(second := Probe(g, tb.Slot(v.f, d), d)))
  {
    assert tb.Ok();
    hide Reached, Turns, Table.Slot;
    if d > 0 {
      assert v.own[d - 1] in v.own;
      Walks(tb, v, g, d - 1);
      var w := v.(second := Probe(g, tb.Slot(v.f, d - 1), d - 1));
      LoadsOther(tb, w, 1, g, d - 1, d - 1);
      Onward(tb, w, Advance(1), v.(second := Probe(g, tb.Slot(v.f, d), d)));
    }
  }

  /** Thread 0 saw the first empty slot; thread 1 enters `g`, takes that slot and leaves. */
  lemma Overtakes(tb: Table, v: View, n: nat, g: nat)
    requires |v.own| < tb.size && v.first == Swap(v.f, tb.Slot(v.f, |v.own|), n) && v.second == Idle
    requires g != 0 && tb.hash(g) == tb.hash(v.f) && forall o | o in v.own :: o != 0 && o != g
    requires Reached(tb, v)
    ensures Reached(tb, v.(own := v.own + [g], seen := v.seen + {g}))
  {
    assert tb.Ok();
    hide Reached, Turns;
    var i := tb.Slot(v.f, |v.own|);
    var w := v.(seen := v.seen + {g});
    var w0 := w.(second := Probe(g, tb.Slot(v.f, 0), 0));
    var w1 := w.(second := Probe(g, i, |v.own|));
    var w2 := w.(second := Swap(g, i, |v.own|));
    var w3 := w.(second := Count(g, i), own := v.own + [g]);
    Enters(tb, v, 1, g);
    Onward(tb, v, Enter(1, g), w0);
    Walks(tb, w, g, |v.own|);
    LoadsNull(tb, w1, 1, g, |v.own|);
    Onward(tb, w1, Advance(1), w2);
    Wins(tb, w2, 1, g, |v.own|);
    Onward(tb, w2, Advance(1), w3);
    Leaves(tb, w3, 1, g, i);
    Onward(tb, w3, Advance(1), v.(own := v.own + [g], seen := v.seen + {g}));
  }

  /** Thread 0 looks at the first empty slot and loses it to a call of `g`. */
  lemma LosesRace(tb: Table, v: View, n: nat, g: nat)
    requires |v.own| < tb.size && v.first == Probe(v.f, tb.Slot(v.f, |v.own|), n) && v.second == Idle && n < tb.size && v.f != 0
    requires g != 0 && tb.hash(g) == tb.hash(v.f) && forall o | o in v.own :: o != 0 && o != g
    requires Reached(tb, v)
    ensures Reached(tb, v.(own := v.own + [g], seen := v.seen + {g}, first := Probe(v.f, tb.Slot(v.f, |v.own|), n + 1)))
  {
    assert tb.Ok();
    hide Reached, Turns;
    var i := tb.Slot(v.f, |v.own|);
    var w := v.(first := Swap(v.f, i, n));
    LoadsNull(tb, v, 0, v.f, n);
    Onward(tb, v, Advance(0), w);
    Overtakes(tb, w, n, g);
    var u := w.(own := v.own + [g], seen := v.seen + {g});
    Loses(tb, u, 0, v.f, |v.own|, n);
    Onward(tb, u, Advance(0), v.(own := v.own + [g], seen := v.seen + {g}, first := Probe(v.f, i, n + 1)));
  }

  // ---------------------------------------------------------------- every race lost

  /** Functions that share a home: the first is the one that will be dropped. */
  ghost predicate Rivals(tb: Table, fs: seq<nat>) {
    && fs != []
    && (forall a | 0 <= a < |fs| :: fs[a] != 0 && tb.hash(fs[a]) == tb.hash(fs[0]))
    && NoDup(fs)
  }

  /** Thread 0 has lost `j` slots, to `fs[1]` up to `fs[j]`. */
  ghost function Behind(tb: Table, fs: seq<nat>, j: nat): View
    requires tb.size > 0 && j < |fs|
  {
    View(fs[0], fs[1..j + 1], Probe(fs[0], tb.Slot(fs[0], j), 2 * j), Idle, Members(fs[..j + 1]), multiset{})
  }

  lemma MembersNext(fs: seq<nat>, j: nat)
    requires j + 1 < |fs|
    ensures Members(fs[..j + 2]) == Members(fs[..j + 1]) + {fs[j + 1]}
    ensures fs[1..j + 2] == fs[1..j + 1] + [fs[j + 1]]
  {
    assert fs[..j + 2] == fs[..j + 1] + [fs[j + 1]];
  }

  lemma BehindFirst(tb: Table, fs: seq<nat>)
    requires tb.Ok() && Rivals(tb, fs)
    ensures Reached(tb, Behind(tb, fs, 0))
  {
    var z := Start(tb.size, 2);
    StartInv(tb, 2);
    var v := View(fs[0], [], Idle, Idle, {}, multiset{});
    assert Shows(tb, v, After(tb, z, []));
    Enters(tb, v, 0, fs[0]);
    assert fs[1..1] == [] && fs[..1] == [fs[0]];
    Onward(tb, v, Enter(0, fs[0]), Behind(tb, fs, 0));
  }

  lemma BehindNext(tb: Table, fs: seq<nat>, j: nat)
    requires tb.Ok() && Rivals(tb, fs) && j + 1 < |fs| && 2 * (j + 1) <= tb.size && Reached(tb, Behind(tb, fs, j))
    ensures Reached(tb, Behind(tb, fs, j + 1))
  {
    hide Reached, Turns, Members, Table.Slot;
    var v, g := Behind(tb, fs, j), fs[j + 1];
    LosesRace(tb, v, 2 * j, g);
    MembersNext(fs, j);
    var w := v.(own := fs[1..j + 2], seen := Members(fs[..j + 2]), first := Probe(fs[0], tb.Slot(fs[0], j), 2 * j + 1));
    LoadsOther(tb, w, 0, fs[0], j, 2 * j + 1);
    Onward(tb, w, Advance(0), Behind(tb, fs, j + 1));
  }

  lemma {:induction false} BehindAll(tb: Table, fs: seq<nat>, j: nat)
    requires tb.Ok() && Rivals(tb, fs) && j < |fs| && 2 * j <= tb.size
    ensures Reached(tb, Behind(tb, fs, j))
  {
    hide Reached;
    if j == 0 { BehindFirst(tb, fs); } else { BehindAll(tb, fs, j - 1); BehindNext(tb, fs, j - 1); }
  }

  /** At rest, one call was dropped; the slots from its home on hold `own` and the others nothing. */
  ghost function Lost(fs: seq<nat>, own: seq<nat>): View
    requires fs != []
  {
    View(fs[0], own, Idle, Idle, Members(fs), multiset{fs[0]})
  }

  /** In a table of even size the turns are used up at an empty slot; in one of odd size there is one more
      race to lose, to another call of the same function. */
  lemma LosesAll(tb: Table, fs: seq<nat>)
    requires tb.Ok() && Rivals(tb, fs) && |fs| == tb.size / 2 + 1
    ensures Reached(tb, Lost(fs, fs[1..] + if tb.size % 2 == 0 then [] else [fs[0]]))
  {
    hide Reached, Turns;
    var m := tb.size / 2;
    BehindAll(tb, fs, m);
    assert fs[1..m + 1] == fs[1..] && fs[..m + 1] == fs;
    var v := Behind(tb, fs, m);
    var i := tb.Slot(fs[0], m);
    assert multiset{} + multiset{fs[0]} == multiset{fs[0]};
    if tb.size % 2 == 0 {
      GivesUp(tb, v, 0, fs[0], i, 2 * m);
      assert fs[1..] + [] == fs[1..];
      Onward(tb, v, Advance(0), Lost(fs, fs[1..]));
    } else {
      LosesRace(tb, v, 2 * m, fs[0]);
      assert fs[0] in v.seen && v.seen + {fs[0]} == v.seen;
      var w := v.(own := fs[1..] + [fs[0]], first := Probe(fs[0], i, 2 * m + 1));
      GivesUp(tb, w, 0, fs[0], i, 2 * m + 1);
      Onward(tb, w, Advance(0), Lost(fs, fs[1..] + [fs[0]]));
    }
  }

  // ---------------------------------------------------------------- a call lost while there is room

  /** No thread is left in the hook, only `fs` were called, and a call of the first is lost. */
  ghost predicate LostOne(s: State, fs: seq<nat>) {
    fs != [] && Quiet(s) && s.dropped == multiset{fs[0]} && Distinct(s.calls) == Members(fs)
  }

  /** Whatever the hash: when one more function than half the slots share a home, two threads can lose a call
      while, in any table of two slots or more, a slot is free. */
  lemma DropWithRoom(tb: Table, fs: seq<nat>)
    requires tb.Ok() && Rivals(tb, fs) && |fs| == tb.size / 2 + 1
    ensures Inv(tb, Start(tb.size, 2))
    ensures exists ms: seq<Move> ::
              LostOne(After(tb, Start(tb.size, 2), ms), fs) && (tb.size > 1 ==> 0 in After(tb, Start(tb.size, 2), ms).fn)
  {
    LosesAll(tb, fs);
    var z := Start(tb.size, 2);
    var v := Lost(fs, fs[1..] + if tb.size % 2 == 0 then [] else [fs[0]]);
    var ms :| Shows(tb, v, After(tb, z, ms));
    var s := After(tb, z, ms);
    hide Inv, After;
    assert tb.size > 1 ==> s.fn[tb.Slot(fs[0], tb.size - 1)] == 0;
    assert LostOne(s, fs);
  }

  // ---------------------------------------------------------------- every hash has rivals

  /** The functions from 1 to `n` whose home is slot `h`. */
  function Homes(tb: Table, h: nat, n: nat): (r: seq<nat>)
    ensures forall k | 0 <= k < |r| :: 0 < r[k] <= n && tb.hash(r[k]) == h
  {
    if n == 0 then [] else Homes(tb, h, n - 1) + if tb.hash(n) == h then [n] else []
  }

  lemma {:induction false} HomesNoDup(tb: Table, h: nat, n: nat)
    ensures NoDup(Homes(tb, h, n))
  {
    if n > 0 { HomesNoDup(tb, h, n - 1); }
  }

  /** How many of them have one of the first `hs` slots as their home. */
  function Load(tb: Table, n: nat, hs: nat): nat {
    if hs == 0 then 0 else Load(tb, n, hs - 1) + |Homes(tb, hs - 1, n)|
  }

  lemma {:induction false} LoadNext(tb: Table, n: nat, hs: nat)
    requires n > 0
    ensures Load(tb, n, hs) == Load(tb, n - 1, hs) + if tb.hash(n) < hs then 1 else 0
  {
    if hs > 0 { LoadNext(tb, n, hs - 1); }
  }

  lemma {:induction false} LoadAll(tb: Table, n: nat)
    requires tb.Ok()
    ensures Load(tb, n, tb.size) == n
  {
    if n > 0 { LoadAll(tb, n - 1); LoadNext(tb, n, tb.size); } else { LoadNone(tb, tb.size); }
  }

  lemma {:induction false} LoadNone(tb: Table, hs: nat)
    ensures Load(tb, 0, hs) == 0
  {
    if hs > 0 { LoadNone(tb, hs - 1); }
  }

  /** Some slot is the home of `k` functions, if the first `hs` slots share out more than `k - 1` each. */
  lemma {:induction false} Crowded(tb: Table, n: nat, hs: nat, k: nat) returns (h: nat)
    requires k > 0 && Load(tb, n, hs) > hs * (k - 1)
    ensures h < hs && |Homes(tb, h, n)| >= k
  {
    assert hs > 0 ==> hs * (k - 1) == (hs - 1) * (k - 1) + (k - 1);
    if |Homes(tb, hs - 1, n)| >= k { h := hs - 1; } else { h := Crowded(tb, n, hs - 1, k); }
  }

  /** Whatever the hash, `k` functions share a home among any `size * (k - 1) + 1`. */
  lemma RivalsExist(tb: Table, k: nat) returns (fs: seq<nat>)
    requires tb.Ok() && k > 0
    ensures Rivals(tb, fs) && |fs| == k && forall f | f in fs :: f <= tb.size * (k - 1) + 1
  {
    var n := tb.size * (k - 1) + 1;
    LoadAll(tb, n);
    hide Load, Homes;
    var h := Crowded(tb, n, tb.size, k);
    HomesNoDup(tb, h, n);
    fs := Homes(tb, h, n)[..k];
    PrefixNoDup(Homes(tb, h, n), k);
  }

  lemma PrefixNoDup(s: seq<nat>, k: nat)
    requires NoDup(s) && k <= |s|
    ensures NoDup(s[..k])
  {
  }

  // ---------------------------------------------------------------- the bound is exact

  /** However many threads call at most `functions` functions in whatever interleaving, the table drops no call. */
  ghost predicate Safe(tb: Table, functions: nat) {
    forall threads: nat, ms: seq<Move> | Inv(tb, Start(tb.size, threads)) ::
      var s := After(tb, Start(tb.size, threads), ms);
      |Distinct(s.calls)| <= functions ==> s.dropped == multiset{}
  }

  lemma LostCounts(s: State, fs: seq<nat>)
    requires LostOne(s, fs) && NoDup(fs)
    ensures s.dropped != multiset{} && |Distinct(s.calls)| == |fs|
  {
    MembersCount(fs);
    assert fs[0] in s.dropped;
  }

  lemma UnsafePastHalf(tb: Table, functions: nat)
    requires tb.Ok() && tb.size < 2 * functions
    ensures !Safe(tb, functions)
  {
    var fs := RivalsExist(tb, tb.size / 2 + 1);
    DropWithRoom(tb, fs);
    hide Inv, After, Start, LostOne, Distinct;
    var ms :| LostOne(After(tb, Start(tb.size, 2), ms), fs);
    LostCounts(After(tb, Start(tb.size, 2), ms), fs);
  }

  /** Whatever its hash, a table is safe for that many functions exactly when they are at most half as many as
      its slots. */
  lemma DropExact(tb: Table, functions: nat)
    requires tb.Ok()
    ensures Safe(tb, functions) <==> 2 * functions <= tb.size
  {
    if 2 * functions <= tb.size {
      forall threads: nat, ms: seq<Move> | Inv(tb, Start(tb.size, threads))
        ensures |Distinct(After(tb, Start(tb.size, threads), ms).calls)| <= functions ==> After(tb, Start(tb.size, threads), ms).dropped == multiset{}
      {
        if |Distinct(After(tb, Start(tb.size, threads), ms).calls)| <= functions { NoDrop(tb, Start(tb.size, threads), ms); }
      }
    } else {
      UnsafePastHalf(tb, functions);
    }
  }
}
