/** Marks, releases and whole runs of the arena. */
module ArenaRuns {
  import opened Common
  import opened ArenaModel
  import opened ArenaProofs

  // ---------------------------------------------------------------- the journal before a mark

  /** What was journaled before `m`. */
  function Before(j: seq<nat>, m: nat): seq<nat> {
    if j == [] || j[0] == m then [] else [j[0]] + Before(j[1..], m)
  }

  /** `j` without the members of `gone`. */
  function Minus(j: seq<nat>, gone: set<nat>): seq<nat> {
    if j == [] then [] else (if j[0] in gone then [] else [j[0]]) + Minus(j[1..], gone)
  }

  lemma {:induction false} BeforeExact(j: seq<nat>, m: nat)
    requires NoDup(j) && m in j
    ensures |Before(j, m)| < |j| && j[|Before(j, m)|] == m && Before(j, m) == j[..|Before(j, m)|]
  {
    if j[0] != m {
      assert NoDup(j[1..]) by { assert forall k | 0 <= k < |j[1..]| :: j[1..][k] == j[k + 1]; }
      BeforeExact(j[1..], m);
      assert j == [j[0]] + j[1..];
    }
  }

  lemma {:induction false} BeforePush(j: seq<nat>, x: nat, m: nat)
    requires m in j
    ensures Before(j + [x], m) == Before(j, m)
  {
    assert (j + [x])[1..] == j[1..] + [x];
    if j[0] != m { BeforePush(j[1..], x, m); }
  }

  /** Removing `a` from the journal removes it from what lies before `m`. */
  lemma {:induction false} BeforeWithout(j: seq<nat>, a: nat, m: nat)
    requires m in j && m != a
    ensures m in Without(j, a) && Before(Without(j, a), m) == Without(Before(j, m), a)
  {
    WithoutExact(j, a);
    WithoutFront(j, a);
    if j[0] == m {
      assert Without(j, a)[0] == m;
    } else {
      var b, w := Before(j[1..], m), Without(j[1..], a);
      BeforeWithout(j[1..], a, m);
      WithoutFront([j[0]] + b, a);
      assert ([j[0]] + b)[1..] == b && ([j[0]] + w)[1..] == w;
      if j[0] == a { assert Without(j, a) == w && Without([j[0]] + b, a) == Without(b, a); }
    }
  }

  lemma {:induction false} WithoutFront(j: seq<nat>, a: nat)
    requires j != []
    ensures Without(j, a) == (if j[0] == a then [] else [j[0]]) + Without(j[1..], a)
  {
    if |j| > 1 {
      var front := j[..|j| - 1];
      WithoutFront(front, a);
      assert front[1..] == j[1..][..|j| - 2];
    }
  }

  lemma {:induction false} WithoutIsMinus(j: seq<nat>, a: nat)
    ensures Without(j, a) == Minus(j, {a})
  {
    if j != [] { WithoutFront(j, a); WithoutIsMinus(j[1..], a); }
  }

  lemma {:induction false} MinusNone(j: seq<nat>, gone: set<nat>)
    requires forall x | x in j :: x !in gone
    ensures Minus(j, gone) == j
  {
    if j != [] { MinusNone(j[1..], gone); }
  }

  lemma {:induction false} MinusMinus(j: seq<nat>, g: set<nat>, h: set<nat>)
    ensures Minus(Minus(j, g), h) == Minus(j, g + h)
  {
    if j != [] {
      MinusMinus(j[1..], g, h);
      var r := Minus(j[1..], g);
      if j[0] in g { assert Minus(j, g) == r; } else { assert Minus(j, g) == [j[0]] + r && ([j[0]] + r)[1..] == r; }
    }
  }

  lemma LastWithout(j: seq<nat>)
    requires NoDup(j) && j != []
    ensures Without(j, j[|j| - 1]) == j[..|j| - 1]
  {
    WithoutAbsent(j[..|j| - 1], j[|j| - 1]);
  }

  // ---------------------------------------------------------------- release

  /** Releasing a mark frees exactly the blocks journaled after it and the mark itself. */
  ghost predicate RolledBack(s: Arena, t: Arena, m: nat) {
    && Inv(t)
    && t.journal == Before(s.journal, m)
    && (forall a | a in Before(s.journal, m) :: a in s.blk && a in t.blk && t.blk[a] == s.blk[a])
    && (forall a | a in t.blk && t.blk[a].live :: a in Before(s.journal, m))
  }

  lemma UnwindStep(s: Arena, m: nat)
    requires Inv(s) && |s.bins| == BINS && m in s.journal
    ensures var a := s.journal[|s.journal| - 1];
            && a in s.blk && s.blk[a].live && Inv(Drop(s, a)) && Freed(s, Drop(s, a), a) && |Drop(s, a).bins| == BINS
            && Drop(s, a).journal == s.journal[..|s.journal| - 1]
            && Unwind(s, m) == if a == m then Drop(s, a) else Unwind(Drop(s, a), m)
  {
    var a := s.journal[|s.journal| - 1];
    assert a in s.journal && NoDup(s.journal) && a in s.blk && s.blk[a].live by { hide ClassOf; assert a in s.journal; }
    LastWithout(s.journal);
    hide Inv, Freed, Drop, Without;
    DropKeeps(s, a);
    FreedJournal(s, Drop(s, a), a);
  }

  lemma FreedJournal(s: Arena, t: Arena, a: nat)
    requires Freed(s, t, a) && Inv(t)
    ensures t.journal == Without(s.journal, a) && |t.bins| == BINS
  {
    hide Layout, Sum, Without;
  }

  lemma {:induction false} UnwindRollsBack(s: Arena, m: nat)
    requires Inv(s) && |s.bins| == BINS && m in s.journal
    ensures RolledBack(s, Unwind(s, m), m)
    decreases |s.journal|
  {
    hide *;
    var n := |s.journal|;
    var a := s.journal[n - 1];
    UnwindStep(s, m);
    JournalNoDup(s);
    var t := Drop(s, a);
    assert s.journal == t.journal + [a];
    if a == m {
      BeforeLast(t.journal, m);
      RolledOne(s, t, m);
    } else {
      UnwindRollsBack(t, m);
      BeforePush(t.journal, a, m);
      RolledMore(s, t, Unwind(t, m), a, m);
    }
  }

  lemma {:induction false} BeforeLast(j: seq<nat>, m: nat)
    requires NoDup(j + [m])
    ensures Before(j + [m], m) == j
  {
    if j != [] {
      assert (j + [m])[|j|] == m && (j + [m])[0] == j[0];
      assert (j + [m])[1..] == j[1..] + [m];
      assert NoDup(j[1..] + [m]) by { assert forall k | 0 <= k < |j| :: (j[1..] + [m])[k] == (j + [m])[k + 1]; }
      BeforeLast(j[1..], m);
    }
  }

  lemma JournalNoDup(s: Arena)
    requires Inv(s)
    ensures NoDup(s.journal) && forall a | a in s.journal :: a in s.blk && s.blk[a].live
  {
  }

  lemma RolledOne(s: Arena, t: Arena, m: nat)
    requires Inv(s) && Inv(t) && Freed(s, t, m) && t.journal == Before(s.journal, m)
    ensures RolledBack(s, t, m)
  {
    hide Layout, Sum, Before, ClassOf, Without;
  }

  lemma RolledMore(s: Arena, t: Arena, u: Arena, a: nat, m: nat)
    requires Freed(s, t, a) && RolledBack(t, u, m) && Before(s.journal, m) == Before(t.journal, m) && Inv(t) && Inv(s)
    ensures RolledBack(s, u, m)
  {
    hide Layout, Sum, ClassOf;
    WithoutExact(s.journal, a);
    forall x | x in Before(s.journal, m) ensures x != a { InBefore(t.journal, m, x); }
    hide Before, Without;
  }

  lemma {:induction false} InBefore(j: seq<nat>, m: nat, x: nat)
    ensures x in Before(j, m) ==> x in j && x != m
  {
    if j != [] && j[0] != m { InBefore(j[1..], m, x); }
  }

  /** A live mark is rolled back to; any other address is ignored. */
  lemma ReleaseExact(s: Arena, m: nat)
    requires Inv(s) && |s.bins| == BINS
    ensures m in s.journal ==> RolledBack(s, Release(s, m), m)
    ensures m !in s.journal ==> Release(s, m) == s
  {
    if m in s.journal { UnwindRollsBack(s, m); }
  }

  // ---------------------------------------------------------------- runs

  /** A client's call, with the memory the system offers in case the call needs some. */
  datatype Req =
    | ToAlloc(n: nat, at: Option<nat>)
    | ToGrow(a: nat, n: nat, at: Option<nat>)
    | ToDrop(a: nat)
    | ToRelease(m: nat)

  ghost predicate Legal(page: nat, s: Arena, r: Req)
    requires page > 0 && |s.bins| == BINS
  {
    match r
    case ToAlloc(n, at) => Fresh(s, at, Wanted(page, s, n))
    case ToGrow(a, n, at) => a in s.blk && s.blk[a].live && Fresh(s, at, Wanted(page, s, n))
    case ToDrop(a) => a in s.blk
    case ToRelease(_) => true
  }

  ghost function Do(page: nat, s: Arena, r: Req): Arena
    requires page > 0 && |s.bins| == BINS && Legal(page, s, r)
  {
    match r
    case ToAlloc(n, at) => Alloc(page, s, n, at).0
    case ToGrow(a, n, at) => Grow(page, s, a, n, at).0
    case ToDrop(a) => Drop(s, a)
    case ToRelease(m) => Release(s, m)
  }

  /** The live blocks a call frees. */
  ghost function Frees(s: Arena, r: Req): set<nat> {
    match r
    case ToDrop(a) => if a in s.journal then {a} else {}
    case ToRelease(m) => if m in s.journal then set x | x in s.journal && x !in Before(s.journal, m) else {}
    case _ => {}
  }

  /** How a call changes the journal: blocks leave it, or one joins at the end. */
  ghost predicate JournalStep(s: Arena, r: Req, t: Arena) {
    && Inv(t) && |t.bins| == BINS
    && (t.journal == Minus(s.journal, Frees(s, r))
        || (Frees(s, r) == {} && |t.journal| == |s.journal| + 1 && t.journal[..|s.journal|] == s.journal))
  }

  lemma DropStep(s: Arena, a: nat)
    requires Inv(s) && |s.bins| == BINS && a in s.blk
    ensures JournalStep(s, ToDrop(a), Drop(s, a))
  {
    assert a in s.journal <==> s.blk[a].live by { hide ClassOf; }
    if s.blk[a].live {
      DropKeeps(s, a);
      FreedJournal(s, Drop(s, a), a);
      WithoutIsMinus(s.journal, a);
      hide *;
      FreesDrop(s, a);
      JournalMinus(s, ToDrop(a), Drop(s, a));
    } else {
      MinusNone(s.journal, {});
    }
  }

  lemma FreesDrop(s: Arena, a: nat)
    requires a in s.journal
    ensures Frees(s, ToDrop(a)) == {a}
  {
  }

  lemma JournalMinus(s: Arena, r: Req, t: Arena)
    requires Inv(t) && |t.bins| == BINS && t.journal == Minus(s.journal, Frees(s, r))
    ensures JournalStep(s, r, t)
  {
  }

  lemma {:induction false} MinusTail(j: seq<nat>, k: nat, gone: set<nat>)
    requires NoDup(j) && k <= |j| && gone == (set x | x in j[k..])
    ensures Minus(j, gone) == j[..k]
  {
    if k > 0 {
      assert j[0] !in j[k..] by { assert forall i | 0 <= i < |j[k..]| :: j[k..][i] == j[k + i]; }
      var rest := j[1..];
      assert NoDup(rest) by { assert forall i | 0 <= i < |rest| :: rest[i] == j[i + 1]; }
      assert rest[k - 1..] == j[k..] && j[..k] == [j[0]] + rest[..k - 1];
      MinusTail(rest, k - 1, gone);
    } else {
      assert j[0..] == j;
      MinusAll(j, gone);
    }
  }

  lemma {:induction false} MinusAll(j: seq<nat>, gone: set<nat>)
    requires forall x | x in j :: x in gone
    ensures Minus(j, gone) == []
  {
    if j != [] { MinusAll(j[1..], gone); }
  }

  lemma ReleaseStep(s: Arena, m: nat)
    requires Inv(s) && |s.bins| == BINS
    ensures JournalStep(s, ToRelease(m), Release(s, m))
  {
    ReleaseExact(s, m);
    JournalNoDup(s);
    if m in s.journal {
      BeforeExact(s.journal, m);
      var k := |Before(s.journal, m)|;
      FreesTail(s, m, k);
      MinusTail(s.journal, k, Frees(s, ToRelease(m)));
      RolledParts(s, Release(s, m), m);
      hide *;
      JournalMinus(s, ToRelease(m), Release(s, m));
    } else {
      MinusNone(s.journal, {});
      hide Inv, Before, Release;
    }
  }

  lemma RolledParts(s: Arena, t: Arena, m: nat)
    requires RolledBack(s, t, m)
    ensures Inv(t) && |t.bins| == BINS && t.journal == Before(s.journal, m)
  {
    hide Layout, Sum, Before;
  }

  lemma FreesTail(s: Arena, m: nat, k: nat)
    requires NoDup(s.journal) && m in s.journal && k <= |s.journal| && Before(s.journal, m) == s.journal[..k]
    ensures Frees(s, ToRelease(m)) == set x | x in s.journal[k..]
  {
    var j := s.journal;
    hide Before;
    forall x ensures (x in j && x !in j[..k]) <==> x in j[k..] {
      if x in j[k..] {
        var i :| 0 <= i < |j[k..]| && j[k..][i] == x;
        assert j[k + i] == x;
      }
      assert j == j[..k] + j[k..];
    }
  }

  lemma AllocStep(page: nat, s: Arena, n: nat, at: Option<nat>)
    requires page > 0 && Inv(s) && |s.bins| == BINS && Fresh(s, at, Wanted(page, s, n))
    ensures JournalStep(s, ToAlloc(n, at), Alloc(page, s, n, at).0)
  {
    hide *;
    AllocKeeps(page, s, n, at);
    OutcomeStep(s, n, at, Alloc(page, s, n, at), ToAlloc(n, at)) by { FreesNothing(s, ToAlloc(n, at)); }
  }

  lemma FreesNothing(s: Arena, r: Req)
    requires r.ToAlloc? || r.ToGrow?
    ensures Frees(s, r) == {}
  {
  }

  lemma OutcomeStep(s: Arena, n: nat, at: Option<nat>, o: (Arena, Option<nat>), r: Req)
    requires Inv(s) && Outcome(s, n, at, o) && Frees(s, r) == {}
    ensures JournalStep(s, r, o.0)
  {
    hide Layout, Sum, Frees, ClassOf;
    MinusNone(s.journal, {});
  }

  lemma GrownStep(s: Arena, t: Arena, a: nat, q: nat, n: nat, r: Req)
    requires Inv(t) && Grown(s, t, a, q, n) && Frees(s, r) == {}
    ensures JournalStep(s, r, t)
  {
    hide Layout, Sum, ClassOf, Room, Frees;
    MinusNone(s.journal, {});
    hide Minus;
  }

  lemma SameStep(s: Arena, r: Req)
    requires Inv(s) && Frees(s, r) == {}
    ensures JournalStep(s, r, s)
  {
    hide Layout, Sum, ClassOf, Frees;
    MinusNone(s.journal, {});
  }

  lemma GrowStep(page: nat, s: Arena, a: nat, n: nat, at: Option<nat>)
    requires page > 0 && Inv(s) && |s.bins| == BINS && a in s.blk && s.blk[a].live && Fresh(s, at, Wanted(page, s, n))
    ensures JournalStep(s, ToGrow(a, n, at), Grow(page, s, a, n, at).0)
  {
    hide *;
    GrowKeeps(page, s, a, n, at);
    FreesNothing(s, ToGrow(a, n, at));
    var (t, q) := Grow(page, s, a, n, at);
    if q.Some? { GrownStep(s, t, a, q.value, n, ToGrow(a, n, at)); } else { SameStep(s, ToGrow(a, n, at)); }
  }

  lemma StepJournal(page: nat, s: Arena, r: Req)
    requires page > 0 && Inv(s) && |s.bins| == BINS && Legal(page, s, r)
    ensures JournalStep(s, r, Do(page, s, r))
  {
    hide Inv, Alloc, Grow, Drop, Release, JournalStep, Fresh, Wanted;
    match r
    case ToAlloc(n, at) => AllocStep(page, s, n, at);
    case ToGrow(a, n, at) => GrowStep(page, s, a, n, at);
    case ToDrop(a) => DropStep(s, a);
    case ToRelease(m) => ReleaseStep(s, m);
  }

  ghost predicate LegalRun(page: nat, s: Arena, rs: seq<Req>)
    requires page > 0
    decreases |rs|
  {
    rs == [] || (|s.bins| == BINS && Legal(page, s, rs[0]) && LegalRun(page, Do(page, s, rs[0]), rs[1..]))
  }

  ghost function After(page: nat, s: Arena, rs: seq<Req>): Arena
    requires page > 0 && LegalRun(page, s, rs)
    decreases |rs|
  {
    if rs == [] then s else After(page, Do(page, s, rs[0]), rs[1..])
  }

  /** The blocks freed somewhere along a run. */
  ghost function FreedAlong(page: nat, s: Arena, rs: seq<Req>): set<nat>
    requires page > 0 && LegalRun(page, s, rs)
    decreases |rs|
  {
    if rs == [] then {} else Frees(s, rs[0]) + FreedAlong(page, Do(page, s, rs[0]), rs[1..])
  }

  /** In every run: live blocks apart and mapped, lists exact, account equal to the live sizes. */
  lemma {:induction false} RunKeeps(page: nat, s: Arena, rs: seq<Req>)
    requires page > 0 && Inv(s) && LegalRun(page, s, rs)
    ensures Inv(After(page, s, rs))
    decreases |rs|
  {
    if rs != [] {
      StepJournal(page, s, rs[0]);
      hide Inv, Do, Legal;
      RunKeeps(page, Do(page, s, rs[0]), rs[1..]);
    }
  }

  lemma {:induction false} BeforeMinus(j: seq<nat>, gone: set<nat>, m: nat)
    requires m in j && m !in gone
    ensures m in Minus(j, gone) && Before(Minus(j, gone), m) == Minus(Before(j, m), gone)
  {
    if j[0] == m {
      assert Minus(j, gone)[0] == m;
    } else {
      BeforeMinus(j[1..], gone, m);
      var b, r := Before(j[1..], m), Minus(j[1..], gone);
      assert ([j[0]] + b)[1..] == b && ([j[0]] + r)[1..] == r;
      if j[0] in gone { assert Minus(j, gone) == r && Minus([j[0]] + b, gone) == Minus(b, gone); }
    }
  }

  lemma StepBefore(s: Arena, r: Req, t: Arena, m: nat)
    requires JournalStep(s, r, t) && m in s.journal && m !in Frees(s, r)
    ensures m in t.journal && Before(t.journal, m) == Minus(Before(s.journal, m), Frees(s, r))
  {
    hide Inv, Frees;
    if t.journal == Minus(s.journal, Frees(s, r)) {
      BeforeMinus(s.journal, Frees(s, r), m);
    } else {
      var x := t.journal[|s.journal|];
      assert t.journal == s.journal + [x];
      BeforePush(s.journal, x, m);
      MinusNone(Before(s.journal, m), {});
    }
  }

  lemma {:induction false} RunBefore(page: nat, s: Arena, rs: seq<Req>, m: nat)
    requires page > 0 && Inv(s) && |s.bins| == BINS && LegalRun(page, s, rs) && m in s.journal && m !in FreedAlong(page, s, rs)
    ensures var t := After(page, s, rs);
            && Inv(t) && |t.bins| == BINS && m in t.journal
            && Before(t.journal, m) == Minus(Before(s.journal, m), FreedAlong(page, s, rs))
    decreases |rs|
  {
    if rs == [] {
      MinusNone(Before(s.journal, m), {});
    } else {
      var u := Do(page, s, rs[0]);
      StepJournal(page, s, rs[0]);
      StepBefore(s, rs[0], u, m);
      hide Inv, Do, Legal, Frees, Before, Minus;
      RunBefore(page, u, rs[1..], m);
      MinusMinus(Before(s.journal, m), Frees(s, rs[0]), FreedAlong(page, u, rs[1..]));
    }
  }

  /** Take a mark, run any calls that do not free it, release it: what stays live is exactly what was
      live before the mark and was not freed since, in the same order. So nested marks unwind like a
      stack, whatever drops and grows come between. */
  lemma MarkRollsBack(page: nat, s: Arena, at: Option<nat>, rs: seq<Req>)
    requires page > 0 && Inv(s) && |s.bins| == BINS && Fresh(s, at, Wanted(page, s, 1))
    requires Alloc(page, s, 1, at).1.Some? && LegalRun(page, Alloc(page, s, 1, at).0, rs)
    requires Alloc(page, s, 1, at).1.value !in FreedAlong(page, Alloc(page, s, 1, at).0, rs)
    ensures var (t, m) := Alloc(page, s, 1, at); var u := After(page, t, rs);
            && |u.bins| == BINS && RolledBack(u, Release(u, m.value), m.value)
            && Release(u, m.value).journal == Minus(s.journal, FreedAlong(page, t, rs))
  {
    var (t, m) := Alloc(page, s, 1, at);
    AllocKeeps(page, s, 1, at);
    ServedLast(s, t, m.value);
    JournalNoDup(t);
    BeforeLast(s.journal, m.value);
    hide *;
    RunBefore(page, t, rs, m.value);
    var u := After(page, t, rs);
    ReleaseExact(u, m.value);
    RolledParts(u, Release(u, m.value), m.value);
  }

  lemma ServedLast(s: Arena, t: Arena, m: nat)
    requires Served(s, t, m, 1) && Inv(t)
    ensures t.journal == s.journal + [m] && m in t.journal && |t.bins| == BINS
  {
    hide Layout, Sum;
  }

  function Empty(): Arena { Arena(map[], [], seq(BINS, _ => []), 0, 0, 0, map[], 0, 0) }

  lemma EmptyInv()
    ensures Inv(Empty())
  {
  }
}
