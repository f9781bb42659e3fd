/** The profiler's lock-free counter table: threads interleave their atomic loads, compare-and-swaps and
    fetch-and-adds in any order. Addresses are numbers, 0 is null. */
module ProfileTable {
  import opened Arith

  const WORD: nat := 0x1_0000_0000_0000_0000

  /** A thread inside the hook: about to load slot `i`, about to swap null for `fn` there, or about to add. */
  datatype Thread = Idle | Probe(fn: nat, i: nat, n: nat) | Swap(fn: nat, i: nat, n: nat) | Count(fn: nat, i: nat)

  /** `calls`, `counted` and `dropped` record history: the functions entered, and how each call ended. */
  datatype State = State(
    fn: seq<nat>, ct: seq<nat>, threads: seq<Thread>,
    calls: multiset<nat>, counted: multiset<nat>, dropped: multiset<nat>)

  /** The scheduler picks a thread: it enters a function, or takes its next atomic step. */
  datatype Move = Enter(t: nat, f: nat) | Advance(t: nat)

  /** The table's size and hash. */
  datatype Table = Table(size: nat, hash: nat -> nat) {
    ghost predicate Ok() { size > 0 && forall f :: hash(f) < size }

    /** The slot `d` places after the home of `f`. */
    function Slot(f: nat, d: nat): (i: nat)
      requires size > 0
      ensures i < size
    {
      (hash(f) + d) % size
    }
  }

  function AfterLoad(tb: Table, s: State, t: Thread): Thread
    requires tb.size == |s.fn| > 0 && t.Probe? && t.i < |s.fn|
  {
    if t.n >= tb.size then Idle
    else if s.fn[t.i] == t.fn then Count(t.fn, t.i)
    else if s.fn[t.i] == 0 then Swap(t.fn, t.i, t.n)
    else Probe(t.fn, (t.i + 1) % tb.size, t.n + 1)
  }

  /** One atomic step of thread `k`. */
  function StepOf(tb: Table, s: State, k: nat): State
    requires k < |s.threads| && tb.size == |s.fn| == |s.ct| > 0
    requires s.threads[k] != Idle ==> s.threads[k].i < |s.fn|
  {
    var t := s.threads[k];
    match t
    case Idle => s
    case Probe(f, i, n) =>
      var u := AfterLoad(tb, s, t);
      s.(threads := s.threads[k := u], dropped := if u == Idle then s.dropped + multiset{f} else s.dropped)
    case Swap(f, i, n) =>
      if s.fn[i] == 0 then s.(fn := s.fn[i := f], threads := s.threads[k := Count(f, i)])
      else s.(threads := s.threads[k := Probe(f, i, n + 1)])
    case Count(f, i) =>
      s.(ct := s.ct[i := (s.ct[i] + 1) % WORD], threads := s.threads[k := Idle], counted := s.counted + multiset{f})
  }

  /** Moves that cannot happen change nothing. */
  function Do(tb: Table, s: State, m: Move): State
    requires Shape(tb, s)
  {
    match m
    case Enter(t, f) =>
      if t < |s.threads| && s.threads[t] == Idle && f != 0
      then s.(threads := s.threads[t := Probe(f, tb.hash(f), 0)], calls := s.calls + multiset{f})
      else s
    case Advance(t) => if t < |s.threads| then StepOf(tb, s, t) else s
  }

  predicate Shape(tb: Table, s: State) {
    && tb.size == |s.fn| == |s.ct| > 0
    && forall k | 0 <= k < |s.threads| :: s.threads[k] != Idle ==> s.threads[k].i < tb.size
  }

  // ---------------------------------------------------------------- the invariant

  /** The first `d` slots from the home of `f` are taken by other functions. */
  ghost predicate Passed(tb: Table, fn: seq<nat>, f: nat, d: nat)
    requires tb.size == |fn| > 0
  {
    forall e: nat | e < d :: fn[tb.Slot(f, e)] != 0 && fn[tb.Slot(f, e)] != f
  }

  /** `i` is the slot `d` places from home and everything before it is passed. */
  ghost predicate At(tb: Table, fn: seq<nat>, f: nat, i: nat, d: nat)
    requires tb.size == |fn| > 0
  {
    d < tb.size && i == tb.Slot(f, d) && Passed(tb, fn, f, d)
  }

  /** How far a thread got and how many turns it spent: two a slot at most. */
  ghost predicate ThreadOk(tb: Table, fn: seq<nat>, t: Thread)
    requires tb.size == |fn| > 0
  {
    match t
    case Idle => true
    case Probe(f, i, n) =>
      f != 0 && i < tb.size && exists d: nat ::
        i == tb.Slot(f, d) && d <= n && Passed(tb, fn, f, d) && (n <= 2 * d || (n == 2 * d + 1 && fn[i] != 0))
    case Swap(f, i, n) =>
      f != 0 && i < tb.size && n < tb.size && exists d: nat :: i == tb.Slot(f, d) && d <= n && Passed(tb, fn, f, d) && n <= 2 * d
    case Count(f, i) => f != 0 && i < tb.size && fn[i] == f
  }

  ghost predicate SlotOk(tb: Table, fn: seq<nat>, i: nat)
    requires tb.size == |fn| > 0 && i < |fn|
  {
    fn[i] != 0 ==> exists d: nat :: At(tb, fn, fn[i], i, d)
  }

  function Own(t: Thread): multiset<nat> { if t == Idle then multiset{} else multiset{t.fn} }

  /** The functions whose calls are still inside the hook. */
  function InFlight(ts: seq<Thread>): multiset<nat> {
    if ts == [] then multiset{} else InFlight(ts[..|ts| - 1]) + Own(ts[|ts| - 1])
  }

  ghost predicate Counters(fn: seq<nat>, ct: seq<nat>, counted: multiset<nat>) {
    |ct| == |fn| && forall i | 0 <= i < |fn| :: ct[i] == if fn[i] == 0 then 0 else counted[fn[i]] % WORD
  }

  /** Only called functions have slots, and every counted one does. */
  ghost predicate Known(fn: seq<nat>, calls: multiset<nat>, counted: multiset<nat>) {
    && (forall i | 0 <= i < |fn| :: fn[i] != 0 ==> fn[i] in calls)
    && (forall f | f in counted :: f in fn)
    && 0 !in calls
  }

  /** Each call is counted, dropped or in flight; a counter holds what its function was counted. */
  ghost predicate Balanced(s: State) {
    && s.calls == s.counted + s.dropped + InFlight(s.threads)
    && Counters(s.fn, s.ct, s.counted)
    && Known(s.fn, s.calls, s.counted)
  }

  ghost predicate Inv(tb: Table, s: State) {
    && tb.Ok() && Shape(tb, s)
    && (forall k | 0 <= k < |s.threads| :: ThreadOk(tb, s.fn, s.threads[k]))
    && (forall i | 0 <= i < |s.fn| :: SlotOk(tb, s.fn, i))
    && Balanced(s)
  }

  // ---------------------------------------------------------------- a function has one slot

  lemma PassedNot(tb: Table, fn: seq<nat>, f: nat, d: nat, e: nat)
    requires tb.size == |fn| > 0 && Passed(tb, fn, f, e)
    ensures d < e ==> fn[tb.Slot(f, d)] != f
  {
  }

  lemma OneSlot(tb: Table, fn: seq<nat>, i: nat, j: nat)
    requires tb.size == |fn| > 0 && i < |fn| && j < |fn| && SlotOk(tb, fn, i) && SlotOk(tb, fn, j)
    ensures fn[i] != 0 && fn[i] == fn[j] ==> i == j
  {
    if fn[i] != 0 && fn[i] == fn[j] {
      var d: nat :| At(tb, fn, fn[i], i, d);
      var e: nat :| At(tb, fn, fn[i], j, e);
      PassedNot(tb, fn, fn[i], d, e);
      PassedNot(tb, fn, fn[i], e, d);
    }
  }

  /** Slots only ever change from null. */
  ghost predicate Extends(fn: seq<nat>, fn': seq<nat>) {
    |fn| == |fn'| && forall i | 0 <= i < |fn| :: fn[i] != 0 ==> fn'[i] == fn[i]
  }

  lemma PassedStays(tb: Table, fn: seq<nat>, fn': seq<nat>, f: nat, d: nat)
    requires tb.size == |fn| > 0 && Extends(fn, fn') && Passed(tb, fn, f, d)
    ensures Passed(tb, fn', f, d)
  {
    forall e: nat | e < d ensures fn'[tb.Slot(f, e)] != 0 && fn'[tb.Slot(f, e)] != f { assert fn[tb.Slot(f, e)] != 0; }
  }

  lemma ThreadStays(tb: Table, fn: seq<nat>, fn': seq<nat>, t: Thread)
    requires tb.size == |fn| > 0 && Extends(fn, fn') && ThreadOk(tb, fn, t)
    ensures ThreadOk(tb, fn', t)
  {
    match t
    case Idle =>
    case Probe(f, i, n) =>
      var d: nat :| i == tb.Slot(f, d) && d <= n && Passed(tb, fn, f, d) && (n <= 2 * d || (n == 2 * d + 1 && fn[i] != 0));
      PassedStays(tb, fn, fn', f, d);
    case Swap(f, i, n) =>
      var d: nat :| i == tb.Slot(f, d) && d <= n && Passed(tb, fn, f, d) && n <= 2 * d;
      PassedStays(tb, fn, fn', f, d);
    case Count(f, i) =>
  }

  lemma SlotStays(tb: Table, fn: seq<nat>, fn': seq<nat>, i: nat)
    requires tb.size == |fn| > 0 && Extends(fn, fn') && i < |fn| && SlotOk(tb, fn, i) && fn'[i] == fn[i]
    ensures SlotOk(tb, fn', i)
  {
    if fn[i] != 0 {
      var d: nat :| At(tb, fn, fn[i], i, d);
      PassedStays(tb, fn, fn', fn[i], d);
      assert At(tb, fn', fn[i], i, d);
    }
  }

  lemma SlotNext(tb: Table, f: nat, d: nat)
    requires tb.size > 0
    ensures (tb.Slot(f, d) + 1) % tb.size == tb.Slot(f, d + 1)
  {
    NextMod(tb.hash(f) + d, tb.size);
  }

  // ---------------------------------------------------------------- every step keeps the invariant

  lemma Shuffle(a: multiset<nat>, b: multiset<nat>, c: multiset<nat>, x: multiset<nat>, y: multiset<nat>)
    ensures a + x == b + y ==> (a + c) + x == (b + c) + y
    ensures (a + x) + y == (a + y) + x
  {
    if a + x == b + y {
      assert (a + c) + x == (a + x) + c;
      assert (b + c) + y == (b + y) + c;
    }
  }

  lemma InFlightParts(ts: seq<Thread>)
    requires ts != []
    ensures InFlight(ts) == InFlight(ts[..|ts| - 1]) + Own(ts[|ts| - 1])
  {
  }

  lemma {:induction false} InFlightUpdate(ts: seq<Thread>, k: nat, t: Thread)
    requires k < |ts|
    ensures InFlight(ts[k := t]) + Own(ts[k]) == InFlight(ts) + Own(t)
  {
    hide *;
    var n := |ts| - 1;
    var rest, us := ts[..n], ts[k := t];
    InFlightParts(ts);
    InFlightParts(us);
    if k == n {
      assert us[..n] == rest;
      Shuffle(InFlight(rest), InFlight(rest), multiset{}, Own(t), Own(ts[k]));
    } else {
      InFlightUpdate(rest, k, t);
      assert us[..n] == rest[k := t];
      Shuffle(InFlight(rest[k := t]), InFlight(rest), Own(ts[n]), Own(ts[k]), Own(t));
    }
  }

  lemma {:induction false} InFlightIdle(ts: seq<Thread>)
    requires forall k | 0 <= k < |ts| :: ts[k] == Idle
    ensures InFlight(ts) == multiset{}
  {
    if ts != [] { InFlightIdle(ts[..|ts| - 1]); }
  }

  lemma {:induction false} InFlightHas(ts: seq<Thread>, k: nat)
    requires k < |ts| && ts[k] != Idle
    ensures ts[k].fn in InFlight(ts)
  {
    if k < |ts| - 1 { InFlightHas(ts[..|ts| - 1], k); }
  }

  lemma LoadOk(tb: Table, s: State, t: Thread)
    requires tb.Ok() && tb.size == |s.fn| > 0 && t.Probe? && ThreadOk(tb, s.fn, t)
    ensures ThreadOk(tb, s.fn, AfterLoad(tb, s, t))
  {
    var f, i, n := t.fn, t.i, t.n;
    var d: nat :| i == tb.Slot(f, d) && d <= n && Passed(tb, s.fn, f, d) && (n <= 2 * d || (n == 2 * d + 1 && s.fn[i] != 0));
    if n < tb.size && s.fn[i] != f && s.fn[i] != 0 {
      SlotNext(tb, f, d);
      assert Passed(tb, s.fn, f, d + 1);
    }
  }

  lemma SwapOk(tb: Table, s: State, t: Thread)
    requires tb.Ok() && tb.size == |s.fn| > 0 && t.Swap? && ThreadOk(tb, s.fn, t)
    ensures s.fn[t.i] != 0 ==> ThreadOk(tb, s.fn, Probe(t.fn, t.i, t.n + 1))
    ensures s.fn[t.i] == 0 ==> ThreadOk(tb, s.fn[t.i := t.fn], Count(t.fn, t.i)) && SlotOk(tb, s.fn[t.i := t.fn], t.i) && Extends(s.fn, s.fn[t.i := t.fn])
  {
    var d: nat :| t.i == tb.Slot(t.fn, d) && d <= t.n && Passed(tb, s.fn, t.fn, d) && t.n <= 2 * d;
    if s.fn[t.i] == 0 {
      PassedStays(tb, s.fn, s.fn[t.i := t.fn], t.fn, d);
      assert At(tb, s.fn[t.i := t.fn], t.fn, t.i, d);
    }
  }

  /** What a step of thread `k` does to the table and the threads, short of the accounts. */
  lemma StepShape(tb: Table, s: State, k: nat)
    requires Inv(tb, s) && k < |s.threads|
    ensures var u := StepOf(tb, s, k);
            && Extends(s.fn, u.fn) && |u.threads| == |s.threads| && u.threads == s.threads[k := u.threads[k]] && ThreadOk(tb, u.fn, u.threads[k])
            && |u.ct| == |s.ct|
            && forall i | 0 <= i < |u.fn| :: u.fn[i] == s.fn[i] || SlotOk(tb, u.fn, i)
  {
    var t := s.threads[k];
    assert ThreadOk(tb, s.fn, t);
    hide ThreadOk, SlotOk, Balanced;
    match t
    case Idle => assert s.threads[k := Idle] == s.threads;
    case Probe(_, _, _) => LoadOk(tb, s, t);
    case Swap(_, _, _) => SwapOk(tb, s, t);
    case Count(_, _) => IdleOk(tb, s.fn);
  }

  lemma IdleOk(tb: Table, fn: seq<nat>)
    requires tb.size == |fn| > 0
    ensures ThreadOk(tb, fn, Idle)
  {
  }

  lemma ShapeOf(tb: Table, s: State)
    requires tb.size == |s.fn| == |s.ct| > 0 && forall k | 0 <= k < |s.threads| :: ThreadOk(tb, s.fn, s.threads[k])
    ensures Shape(tb, s)
  {
    forall k | 0 <= k < |s.threads| && s.threads[k] != Idle ensures s.threads[k].i < tb.size { assert ThreadOk(tb, s.fn, s.threads[k]); }
  }

  /** A call in flight ends one way or the other, or stays in flight. */
  lemma Ends(calls: multiset<nat>, counted: multiset<nat>, dropped: multiset<nat>, flight: multiset<nat>, left: multiset<nat>, f: nat)
    requires calls == counted + dropped + flight && left + multiset{f} == flight
    ensures calls == (counted + multiset{f}) + dropped + left
    ensures calls == counted + (dropped + multiset{f}) + left
    ensures f in calls
  {
  }

  lemma Begins(calls: multiset<nat>, counted: multiset<nat>, dropped: multiset<nat>, flight: multiset<nat>, more: multiset<nat>, f: nat)
    requires calls == counted + dropped + flight && more == flight + multiset{f}
    ensures calls + multiset{f} == counted + dropped + more
  {
  }

  lemma CountOne(tb: Table, fn: seq<nat>, ct: seq<nat>, calls: multiset<nat>, counted: multiset<nat>, i: nat)
    requires Counters(fn, ct, counted) && Known(fn, calls, counted) && i < |fn| && fn[i] != 0 && tb.size == |fn|
    requires forall j | 0 <= j < |fn| :: SlotOk(tb, fn, j)
    ensures Counters(fn, ct[i := (ct[i] + 1) % WORD], counted + multiset{fn[i]}) && Known(fn, calls, counted + multiset{fn[i]})
  {
    NextMod(counted[fn[i]], WORD);
    forall j | 0 <= j < |fn| ensures ct[i := (ct[i] + 1) % WORD][j] == if fn[j] == 0 then 0 else (counted + multiset{fn[i]})[fn[j]] % WORD {
      OneSlot(tb, fn, i, j);
    }
  }

  lemma InvParts(tb: Table, s: State, k: nat)
    requires Inv(tb, s) && k < |s.threads|
    ensures tb.Ok() && tb.size == |s.fn| == |s.ct| > 0 && Balanced(s) && ThreadOk(tb, s.fn, s.threads[k])
    ensures forall j | 0 <= j < |s.fn| :: SlotOk(tb, s.fn, j)
    ensures s.threads[k] != Idle ==> s.threads[k].i < |s.fn| && s.threads[k].fn != 0
  {
    assert ThreadOk(tb, s.fn, s.threads[k]);
  }

  lemma BalancedParts(s: State)
    ensures Balanced(s) <==> s.calls == s.counted + s.dropped + InFlight(s.threads) && Counters(s.fn, s.ct, s.counted) && Known(s.fn, s.calls, s.counted)
  {
  }

  lemma CountIs(tb: Table, s: State, k: nat)
    requires k < |s.threads| && tb.size == |s.fn| == |s.ct| > 0 && s.threads[k].Count? && s.threads[k].i < |s.fn| && ThreadOk(tb, s.fn, s.threads[k])
    ensures var f, i := s.threads[k].fn, s.threads[k].i;
            && s.fn[i] == f != 0
            && StepOf(tb, s, k) == s.(ct := s.ct[i := (s.ct[i] + 1) % WORD], threads := s.threads[k := Idle], counted := s.counted + multiset{f})
            && Own(Idle) == multiset{} && Own(s.threads[k]) == multiset{f}
  {
  }

  lemma NoneLess(a: multiset<nat>, b: multiset<nat>, o: multiset<nat>, e: multiset<nat>)
    requires a + o == b + e && e == multiset{}
    ensures a + o == b
  {
    assert b + multiset{} == b;
  }

  lemma CountBalanced(tb: Table, s: State, k: nat)
    requires Inv(tb, s) && k < |s.threads| && s.threads[k].Count?
    ensures Balanced(StepOf(tb, s, k))
  {
    hide *;
    InvParts(tb, s, k);
    CountIs(tb, s, k);
    var u := StepOf(tb, s, k);
    var f, i := s.threads[k].fn, s.threads[k].i;
    InFlightUpdate(s.threads, k, Idle);
    NoneLess(InFlight(u.threads), InFlight(s.threads), Own(s.threads[k]), Own(Idle));
    BalancedParts(s);
    CountOne(tb, s.fn, s.ct, s.calls, s.counted, i);
    Ends(s.calls, s.counted, s.dropped, InFlight(s.threads), InFlight(u.threads), f);
    BalancedParts(u);
  }

  lemma SwapBalanced(tb: Table, s: State, k: nat)
    requires Inv(tb, s) && k < |s.threads| && s.threads[k].Swap?
    ensures Balanced(StepOf(tb, s, k))
  {
    InvParts(tb, s, k);
    var t := s.threads[k];
    var u := StepOf(tb, s, k);
    InFlightUpdate(s.threads, k, u.threads[k]);
    InFlightHas(s.threads, k);
    assert Own(u.threads[k]) == Own(t) == multiset{t.fn};
    assert u == s.(fn := u.fn, threads := s.threads[k := u.threads[k]]);
    assert u.fn == if s.fn[t.i] == 0 then s.fn[t.i := t.fn] else s.fn;
    if s.fn[t.i] == 0 { NewIsUncounted(tb, s, k); }
    hide *;
    BalancedParts(s);
    SameFlight(InFlight(s.threads), InFlight(u.threads), t.fn);
    if s.fn[t.i] == 0 { SwapKnown(s.fn, s.ct, s.calls, s.counted, t.i, t.fn); }
    BalancedParts(u);
  }

  lemma SameFlight(a: multiset<nat>, b: multiset<nat>, f: nat)
    requires a + multiset{f} == b + multiset{f}
    ensures a == b
  {
    assert a == a + multiset{f} - multiset{f};
    assert b == b + multiset{f} - multiset{f};
  }

  lemma SwapKnown(fn: seq<nat>, ct: seq<nat>, calls: multiset<nat>, counted: multiset<nat>, i: nat, f: nat)
    requires i < |fn| && fn[i] == 0 && f in calls && f != 0 && counted[f] == 0 && Counters(fn, ct, counted) && Known(fn, calls, counted)
    requires forall g | g in counted :: g in calls
    ensures Counters(fn[i := f], ct, counted) && Known(fn[i := f], calls, counted)
  {
    forall g | g in counted ensures g in fn[i := f] {
      var j :| 0 <= j < |fn| && fn[j] == g;
      assert fn[i := f][j] == g;
    }
  }

  /** A function about to take a slot has none, so none of its calls was counted yet. */
  lemma NewIsUncounted(tb: Table, s: State, k: nat)
    requires Inv(tb, s) && k < |s.threads| && s.threads[k].Swap? && s.threads[k].i < |s.fn| && s.fn[s.threads[k].i] == 0
    ensures s.counted[s.threads[k].fn] == 0
  {
    InvParts(tb, s, k);
    var t := s.threads[k];
    SwapOk(tb, s, t);
    var fn' := s.fn[t.i := t.fn];
    forall j | 0 <= j < |s.fn| ensures s.fn[j] != t.fn {
      if s.fn[j] != 0 { SlotStays(tb, s.fn, fn', j); OneSlot(tb, fn', j, t.i); }
    }
    BalancedParts(s);
    hide Inv, Balanced, Counters, ThreadOk, SlotOk, Extends;
  }

  lemma LoadBalanced(tb: Table, s: State, k: nat)
    requires Inv(tb, s) && k < |s.threads| && s.threads[k].Probe?
    ensures Balanced(StepOf(tb, s, k))
  {
    InvParts(tb, s, k);
    var t, u := s.threads[k], StepOf(tb, s, k);
    var v := AfterLoad(tb, s, t);
    InFlightUpdate(s.threads, k, v);
    assert Own(t) == multiset{t.fn} && Own(v) == if v == Idle then multiset{} else multiset{t.fn};
    assert u == s.(threads := s.threads[k := v], dropped := if v == Idle then s.dropped + multiset{t.fn} else s.dropped);
    hide *;
    BalancedParts(s);
    if v == Idle {
      Ends(s.calls, s.counted, s.dropped, InFlight(s.threads), InFlight(u.threads), t.fn);
    } else {
      SameFlight(InFlight(s.threads), InFlight(u.threads), t.fn);
    }
    BalancedParts(u);
  }

  lemma StepKeeps(tb: Table, s: State, k: nat)
    requires Inv(tb, s) && k < |s.threads|
    ensures Inv(tb, StepOf(tb, s, k)) && Extends(s.fn, StepOf(tb, s, k).fn)
  {
    var u := StepOf(tb, s, k);
    StepShape(tb, s, k);
    match s.threads[k] {
      case Idle =>
      case Probe(_, _, _) => LoadBalanced(tb, s, k);
      case Swap(_, _, _) => SwapBalanced(tb, s, k);
      case Count(_, _) => CountBalanced(tb, s, k);
    }
    forall j | 0 <= j < |u.threads| ensures ThreadOk(tb, u.fn, u.threads[j]) {
      if j != k { ThreadStays(tb, s.fn, u.fn, s.threads[j]); }
    }
    forall i | 0 <= i < |u.fn| ensures SlotOk(tb, u.fn, i) {
      if u.fn[i] == s.fn[i] { SlotStays(tb, s.fn, u.fn, i); }
    }
    hide ThreadOk, SlotOk, Balanced, StepOf;
    ShapeOf(tb, u);
  }

  lemma EnterKnown(fn: seq<nat>, calls: multiset<nat>, counted: multiset<nat>, f: nat)
    requires Known(fn, calls, counted) && f != 0
    ensures Known(fn, calls + multiset{f}, counted)
  {
  }

  lemma EnterBalanced(s: State, k: nat, t: Thread)
    requires Balanced(s) && k < |s.threads| && s.threads[k] == Idle && t.Probe? && t.fn != 0
    ensures Balanced(s.(threads := s.threads[k := t], calls := s.calls + multiset{t.fn}))
  {
    assert Own(Idle) == multiset{} && Own(t) == multiset{t.fn};
    hide *;
    InFlightUpdate(s.threads, k, t);
    BalancedParts(s);
    var u := s.(threads := s.threads[k := t], calls := s.calls + multiset{t.fn});
    EnterKnown(u.fn, s.calls, u.counted, t.fn);
    NoneLess(InFlight(s.threads), InFlight(u.threads), Own(t), Own(Idle));
    Begins(s.calls, s.counted, s.dropped, InFlight(s.threads), InFlight(u.threads), t.fn);
    BalancedParts(u);
  }

  lemma InvThread(tb: Table, s: State, u: State, k: nat)
    requires Inv(tb, s) && k < |s.threads| && u.fn == s.fn && |u.ct| == |s.ct| && |u.threads| == |s.threads| && u.threads == s.threads[k := u.threads[k]]
    requires tb.size == |u.fn| > 0 && ThreadOk(tb, u.fn, u.threads[k]) && Balanced(u)
    ensures Inv(tb, u)
  {
    hide ThreadOk, SlotOk, Balanced;
    ShapeOf(tb, u);
  }

  lemma HomeOk(tb: Table, fn: seq<nat>, f: nat)
    requires tb.Ok() && tb.size == |fn| && f != 0
    ensures ThreadOk(tb, fn, Probe(f, tb.hash(f), 0))
  {
    Div(tb.hash(f), tb.size, 0, tb.hash(f));
    assert tb.hash(f) == tb.Slot(f, 0) && Passed(tb, fn, f, 0);
  }

  lemma EnterKeeps(tb: Table, s: State, t: nat, f: nat)
    requires Inv(tb, s)
    ensures Inv(tb, Do(tb, s, Enter(t, f))) && Extends(s.fn, Do(tb, s, Enter(t, f)).fn)
  {
    var u := Do(tb, s, Enter(t, f));
    if t < |s.threads| && s.threads[t] == Idle && f != 0 {
      var p := Probe(f, tb.hash(f), 0);
      assert u == s.(threads := s.threads[t := p], calls := s.calls + multiset{f});
      InvParts(tb, s, t);
      hide Inv, Balanced, ThreadOk;
      EnterBalanced(s, t, p);
      HomeOk(tb, s.fn, f);
      InvThread(tb, s, u, t);
    }
  }

  lemma DoKeeps(tb: Table, s: State, m: Move)
    requires Inv(tb, s)
    ensures Inv(tb, Do(tb, s, m)) && Extends(s.fn, Do(tb, s, m).fn)
  {
    match m
    case Enter(t, f) => EnterKeeps(tb, s, t, f);
    case Advance(t) => if t < |s.threads| { StepKeeps(tb, s, t); }
  }

  // ---------------------------------------------------------------- runs

  function Start(size: nat, threads: nat): State {
    State(seq(size, _ => 0), seq(size, _ => 0), seq(threads, _ => Idle), multiset{}, multiset{}, multiset{})
  }

  /** Any interleaving is a list of moves. */
  ghost function After(tb: Table, s: State, ms: seq<Move>): State
    requires Inv(tb, s)
    decreases |ms|
  {
    if ms == [] then s else DoKeeps(tb, s, ms[0]); After(tb, Do(tb, s, ms[0]), ms[1..])
  }

  lemma StartInv(tb: Table, threads: nat)
    requires tb.Ok()
    ensures Inv(tb, Start(tb.size, threads))
  {
    var s := Start(tb.size, threads);
    InFlightIdle(s.threads);
    assert forall k | 0 <= k < |s.threads| :: ThreadOk(tb, s.fn, s.threads[k]);
  }

  lemma ShapeHolds(tb: Table, s: State)
    requires Inv(tb, s)
    ensures Shape(tb, s)
  {
  }

  /** In every run the invariant holds, and a slot once set never changes. */
  lemma {:induction false} RunKeeps(tb: Table, s: State, ms: seq<Move>)
    requires Inv(tb, s)
    ensures Inv(tb, After(tb, s, ms)) && Extends(s.fn, After(tb, s, ms).fn)
    decreases |ms|
  {
    hide Inv, Do;
    if ms != [] {
      ShapeHolds(tb, s);
      DoKeeps(tb, s, ms[0]);
      RunKeeps(tb, Do(tb, s, ms[0]), ms[1..]);
    }
  }

  /** Under every interleaving a function has at most one slot. */
  lemma SlotsUnique(tb: Table, threads: nat, ms: seq<Move>, i: nat, j: nat)
    requires tb.Ok() && i < tb.size && j < tb.size
    ensures Inv(tb, Start(tb.size, threads))
    ensures var fn := After(tb, Start(tb.size, threads), ms).fn; |fn| == tb.size && (fn[i] != 0 && fn[i] == fn[j] ==> i == j)
  {
    StartInv(tb, threads);
    RunKeeps(tb, Start(tb.size, threads), ms);
    var fn := After(tb, Start(tb.size, threads), ms).fn;
    hide After, Start, Balanced, ThreadOk;
    assert SlotOk(tb, fn, i) && SlotOk(tb, fn, j);
    OneSlot(tb, fn, i, j);
  }

  // ---------------------------------------------------------------- no call is lost while the table is half empty

  function Distinct(calls: multiset<nat>): set<nat> { set f | f in calls }

  lemma SlotInjective(tb: Table, f: nat, a: nat, b: nat)
    requires a < tb.size && b < tb.size && tb.Slot(f, a) == tb.Slot(f, b)
    ensures a == b
  {
    ModApart(tb.hash(f) + a, tb.hash(f) + b, tb.size);
  }

  /** The functions in the first `d` slots from home. */
  ghost function Path(tb: Table, fn: seq<nat>, f: nat, d: nat): set<nat>
    requires tb.size == |fn| > 0
  {
    if d == 0 then {} else Path(tb, fn, f, d - 1) + {fn[tb.Slot(f, d - 1)]}
  }

  lemma {:induction false} PathMember(tb: Table, fn: seq<nat>, f: nat, d: nat, g: nat)
    requires tb.size == |fn| > 0 && g in Path(tb, fn, f, d)
    ensures exists e: nat :: e < d && fn[tb.Slot(f, e)] == g
  {
    if g in Path(tb, fn, f, d - 1) { PathMember(tb, fn, f, d - 1, g); } else { assert fn[tb.Slot(f, d - 1)] == g; }
  }

  /** A passed slot's function is in none of the slots before it. */
  lemma PathNew(tb: Table, fn: seq<nat>, f: nat, d: nat)
    requires tb.size == |fn| > 0 && d < tb.size && fn[tb.Slot(f, d)] != 0
    requires forall i | 0 <= i < |fn| :: SlotOk(tb, fn, i)
    ensures fn[tb.Slot(f, d)] !in Path(tb, fn, f, d)
  {
    hide SlotOk, Path;
    var g := fn[tb.Slot(f, d)];
    forall e: nat | e < d ensures fn[tb.Slot(f, e)] != g {
      OneSlot(tb, fn, tb.Slot(f, e), tb.Slot(f, d));
      if tb.Slot(f, e) == tb.Slot(f, d) { SlotInjective(tb, f, e, d); }
    }
    if g in Path(tb, fn, f, d) { PathMember(tb, fn, f, d, g); }
  }

  /** Passed slots hold as many other functions, each called. */
  lemma {:induction false} PathCount(tb: Table, s: State, f: nat, d: nat)
    requires tb.size == |s.fn| > 0 && d <= tb.size && Passed(tb, s.fn, f, d) && Known(s.fn, s.calls, s.counted)
    requires forall i | 0 <= i < |s.fn| :: SlotOk(tb, s.fn, i)
    ensures |Path(tb, s.fn, f, d)| == d && f !in Path(tb, s.fn, f, d) && Path(tb, s.fn, f, d) <= Distinct(s.calls)
  {
    hide SlotOk;
    if d > 0 {
      PathCount(tb, s, f, d - 1);
      PathNew(tb, s.fn, f, d - 1);
      var g := s.fn[tb.Slot(f, d - 1)];
      assert g != 0 && g != f && g in s.calls;
    }
  }

  /** A thread passed fewer slots than there are functions. */
  lemma PassedFew(tb: Table, s: State, f: nat, d: nat)
    requires tb.size == |s.fn| > 0 && Passed(tb, s.fn, f, d) && Known(s.fn, s.calls, s.counted) && f in s.calls
    requires forall i | 0 <= i < |s.fn| :: SlotOk(tb, s.fn, i)
    requires |Distinct(s.calls)| <= tb.size
    ensures d < |Distinct(s.calls)|
  {
    var e := if d <= tb.size then d else tb.size;
    PathCount(tb, s, f, e);
    var p := Path(tb, s.fn, f, e);
    SubsetSize(p + {f}, Distinct(s.calls));
    assert |p + {f}| == e + 1;
  }

  lemma SubsetSize(a: set<nat>, b: set<nat>)
    requires a <= b
    ensures |a| <= |b|
  {
    assert b == a + (b - a);
  }

  lemma LoadNoDrop(tb: Table, s: State, k: nat)
    requires Inv(tb, s) && k < |s.threads| && s.threads[k].Probe? && 2 * |Distinct(s.calls)| <= tb.size
    ensures s.threads[k].n < tb.size
  {
    InvParts(tb, s, k);
    InFlightHas(s.threads, k);
    BalancedParts(s);
    var f, i, n := s.threads[k].fn, s.threads[k].i, s.threads[k].n;
    var d: nat :| i == tb.Slot(f, d) && d <= n && Passed(tb, s.fn, f, d) && (n <= 2 * d || (n == 2 * d + 1 && s.fn[i] != 0));
    hide *;
    PassedFew(tb, s, f, d);
  }

  lemma StepDrops(tb: Table, s: State, k: nat)
    requires Shape(tb, s) && k < |s.threads| && (s.threads[k].Probe? ==> s.threads[k].n < tb.size)
    ensures StepOf(tb, s, k).dropped == s.dropped
  {
  }

  lemma NoDropStep(tb: Table, s: State, m: Move)
    requires Inv(tb, s) && 2 * |Distinct(s.calls)| <= tb.size
    ensures Do(tb, s, m).dropped == s.dropped
  {
    ShapeHolds(tb, s);
    if m.Advance? && m.t < |s.threads| {
      if s.threads[m.t].Probe? { LoadNoDrop(tb, s, m.t); }
      StepDrops(tb, s, m.t);
    }
    hide Inv, Shape, StepOf, Distinct;
  }

  lemma {:induction false} CallsGrow(tb: Table, s: State, ms: seq<Move>)
    requires Inv(tb, s)
    ensures s.calls <= After(tb, s, ms).calls
    decreases |ms|
  {
    hide Inv;
    if ms != [] {
      ShapeHolds(tb, s);
      DoKeeps(tb, s, ms[0]);
      CallsGrow(tb, Do(tb, s, ms[0]), ms[1..]);
      assert s.calls <= Do(tb, s, ms[0]).calls by { CallsGrowOnce(tb, s, ms[0]); }
    }
  }

  lemma CallsGrowOnce(tb: Table, s: State, m: Move)
    requires Inv(tb, s)
    ensures s.calls <= Do(tb, s, m).calls
  {
  }

  lemma FewerDistinct(a: multiset<nat>, b: multiset<nat>)
    requires a <= b
    ensures |Distinct(a)| <= |Distinct(b)|
  {
    SubsetSize(Distinct(a), Distinct(b));
  }

  /** While at most half as many functions occur as there are slots, no call is dropped: a lost race costs
      one turn, and a slot is lost at most once. */
  lemma {:induction false} NoDrop(tb: Table, s: State, ms: seq<Move>)
    requires Inv(tb, s) && 2 * |Distinct(After(tb, s, ms).calls)| <= tb.size
    ensures After(tb, s, ms).dropped == s.dropped
    decreases |ms|
  {
    hide Inv, Do;
    if ms != [] {
      ShapeHolds(tb, s);
      DoKeeps(tb, s, ms[0]);
      CallsGrow(tb, s, ms);
      FewerDistinct(s.calls, After(tb, s, ms).calls);
      NoDropStep(tb, s, ms[0]);
      NoDrop(tb, Do(tb, s, ms[0]), ms[1..]);
    }
  }

  ghost predicate Quiet(s: State) { forall k | 0 <= k < |s.threads| :: s.threads[k] == Idle }

  /** At rest, with nothing dropped, slot `i` is where `f` is counted, once for each of its calls. */
  ghost predicate Tallied(s: State, f: nat, i: nat) {
    && i < |s.fn| == |s.ct| && s.fn[i] == f && s.ct[i] == s.calls[f] % WORD
    && forall j | 0 <= j < |s.fn| && j != i :: s.fn[j] != f
  }

  lemma QuietTallies(tb: Table, s: State, f: nat)
    requires Inv(tb, s) && Quiet(s) && s.dropped == multiset{} && f in s.calls
    ensures exists i: nat :: Tallied(s, f, i)
  {
    InFlightIdle(s.threads);
    assert s.calls == s.counted;
    var i :| 0 <= i < |s.fn| && s.fn[i] == f;
    forall j | 0 <= j < |s.fn| && j != i ensures s.fn[j] != f {
      assert SlotOk(tb, s.fn, i) && SlotOk(tb, s.fn, j);
      OneSlot(tb, s.fn, i, j);
    }
    hide SlotOk, ThreadOk;
    assert Tallied(s, f, i);
  }

  /** Once every thread has left the hook, every called function is counted exactly, in one slot, provided
      at most half as many functions occurred as there are slots. */
  lemma EveryCallCounted(tb: Table, threads: nat, ms: seq<Move>)
    requires tb.Ok()
    ensures Inv(tb, Start(tb.size, threads))
    ensures var s := After(tb, Start(tb.size, threads), ms);
            2 * |Distinct(s.calls)| <= tb.size && Quiet(s) ==>
              && s.dropped == multiset{}
              && (forall f | f in s.calls :: exists i: nat :: Tallied(s, f, i))
              && (forall i | 0 <= i < |s.fn| :: s.fn[i] != 0 ==> s.fn[i] in s.calls)
  {
    StartInv(tb, threads);
    var z := Start(tb.size, threads);
    RunKeeps(tb, z, ms);
    var s := After(tb, z, ms);
    assert z.dropped == multiset{};
    if 2 * |Distinct(s.calls)| <= tb.size && Quiet(s) {
      NoDrop(tb, z, ms);
      forall f | f in s.calls ensures exists i: nat :: Tallied(s, f, i) { QuietTallies(tb, s, f); }
      hide After, Start, SlotOk, ThreadOk, Quiet, Tallied, Distinct;
    }
  }

  // ---------------------------------------------------------------- the hook is wait-free

  /** Steps a thread may still take before it leaves the hook. */
  function Left(size: nat, t: Thread): int {
    match t
    case Idle => 0
    case Count(_, _) => 1
    case Probe(_, _, n) => if n >= size then 1 else 2 * (size - n) + 2
    case Swap(_, _, n) => 2 * (size - n) + 1
  }

  lemma StepLeft(tb: Table, s: State, k: nat)
    requires Shape(tb, s) && k < |s.threads| && (s.threads[k].Swap? ==> s.threads[k].n < tb.size)
    ensures |StepOf(tb, s, k).threads| == |s.threads| && 0 <= Left(tb.size, s.threads[k]) <= 2 * tb.size + 2
    ensures s.threads[k] != Idle ==> Left(tb.size, StepOf(tb, s, k).threads[k]) < Left(tb.size, s.threads[k])
    ensures forall j | 0 <= j < |s.threads| && j != k :: StepOf(tb, s, k).threads[j] == s.threads[j]
  {
  }

  lemma SwapEarly(tb: Table, s: State, k: nat)
    requires Inv(tb, s) && k < |s.threads|
    ensures s.threads[k].Swap? ==> s.threads[k].n < tb.size
  {
    assert ThreadOk(tb, s.fn, s.threads[k]);
  }

  lemma DoLeaves(tb: Table, s: State, m: Move, k: nat)
    requires Shape(tb, s) && k < |s.threads|
    ensures m == Advance(k) ==> Do(tb, s, m) == StepOf(tb, s, k)
    ensures m.Advance? && m.t < |s.threads| ==> Do(tb, s, m) == StepOf(tb, s, m.t)
    ensures m.Advance? && m.t >= |s.threads| ==> Do(tb, s, m) == s
    ensures m.Enter? ==> |Do(tb, s, m).threads| == |s.threads| && (s.threads[k] != Idle ==> Do(tb, s, m).threads[k] == s.threads[k])
  {
    hide StepOf;
  }

  /** Each step of a thread brings it nearer to leaving, and no other thread can set it back. */
  lemma WaitFree(tb: Table, s: State, m: Move, k: nat)
    requires Inv(tb, s) && k < |s.threads|
    ensures |Do(tb, s, m).threads| == |s.threads| && 0 <= Left(tb.size, s.threads[k]) <= 2 * tb.size + 2
    ensures m == Advance(k) && s.threads[k] != Idle ==> Left(tb.size, Do(tb, s, m).threads[k]) < Left(tb.size, s.threads[k])
    ensures m != Advance(k) && s.threads[k] != Idle ==> Do(tb, s, m).threads[k] == s.threads[k]
  {
    hide *;
    ShapeHolds(tb, s);
    SwapEarly(tb, s, k);
    StepLeft(tb, s, k);
    DoLeaves(tb, s, m, k);
    if m.Advance? && m.t < |s.threads| { SwapEarly(tb, s, m.t); StepLeft(tb, s, m.t); }
  }
}
