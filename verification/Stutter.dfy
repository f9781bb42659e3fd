/** Runs of deterministic systems compared up to stuttering. */
module Stutter {
  datatype System<!C, !S> = System(next: C -> C, obs: C -> S, stop: C -> bool)

  function Run<C, S>(sys: System<C, S>, c: C, n: nat): C {
    if n == 0 then c else sys.next(Run(sys, c, n - 1))
  }

  /** What the first `n` steps show, immediate repetitions left out. */
  function Trace<C, S(==)>(sys: System<C, S>, c: C, n: nat): (t: seq<S>)
    ensures t != [] && t[|t| - 1] == sys.obs(Run(sys, c, n))
  {
    if n == 0 then [sys.obs(c)]
    else
      var t := Trace(sys, c, n - 1);
      var s := sys.obs(Run(sys, c, n));
      if t[|t| - 1] == s then t else t + [s]
  }

  /** `m` steps from `d` show what `n` steps from `c` show, stopping included. */
  ghost predicate Met<C, S>(a: System<C, S>, c: C, n: nat, b: System<C, S>, d: C, m: nat) {
    Trace(a, c, n) == Trace(b, d, m) && (a.stop(Run(a, c, n)) ==> b.stop(Run(b, d, m)))
  }

  ghost predicate Shown<C, S>(a: System<C, S>, c: C, n: nat, b: System<C, S>, d: C) {
    exists m: nat :: Met(a, c, n, b, d, m)
  }

  /** Everything the run from `c` shows is shown by the run from `d`. */
  ghost predicate Shows<C, S>(a: System<C, S>, c: C, b: System<C, S>, d: C) {
    forall n: nat :: Shown(a, c, n, b, d)
  }

  lemma ShowsTransitive<C, S>(a: System<C, S>, c: C, b: System<C, S>, d: C, x: System<C, S>, e: C)
    requires Shows(a, c, b, d) && Shows(b, d, x, e)
    ensures Shows(a, c, x, e)
  {
    forall n: nat ensures Shown(a, c, n, x, e) {
      assert Shown(a, c, n, b, d);
      var i: nat :| Met(a, c, n, b, d, i);
      assert Shown(b, d, i, x, e);
      var m: nat :| Met(b, d, i, x, e, m);
      assert Met(a, c, n, x, e, m);
    }
  }

  /** How `b` follows `a`: a step of `a` outside `skip` is one step of `b`; a step inside it is
      none, changes nothing that shows, and lowers `rank` as long as the run stays inside. */
  ghost predicate StepOk<C, S>(a: System<C, S>, b: System<C, S>, img: C -> C, inv: C -> bool, skip: C -> bool, rank: C -> nat, c: C) {
    var e := a.next(c);
    && inv(e)
    && a.obs(c) == b.obs(img(c))
    && (a.stop(c) ==> b.stop(img(c)))
    && (!skip(c) ==> b.next(img(c)) == img(e) && (b.stop(img(c)) ==> a.stop(c)))
    && (skip(c) ==> img(e) == img(c) && (skip(e) ==> rank(e) < rank(c)))
  }

  ghost predicate Follows<C(!new), S>(a: System<C, S>, b: System<C, S>, img: C -> C, inv: C -> bool, skip: C -> bool, rank: C -> nat) {
    forall c {:trigger StepOk(a, b, img, inv, skip, rank, c)} | inv(c) :: StepOk(a, b, img, inv, skip, rank, c)
  }

  lemma {:induction false} Forward<C(!new), S>(a: System<C, S>, b: System<C, S>, img: C -> C, inv: C -> bool, skip: C -> bool, rank: C -> nat, c: C, n: nat)
    returns (i: nat)
    requires Follows(a, b, img, inv, skip, rank) && inv(c)
    ensures inv(Run(a, c, n)) && Run(b, img(c), i) == img(Run(a, c, n))
    ensures Trace(a, c, n) == Trace(b, img(c), i)
  {
    if n == 0 {
      i := 0;
      assert StepOk(a, b, img, inv, skip, rank, c);
    } else {
      var j := Forward(a, b, img, inv, skip, rank, c, n - 1);
      var d := Run(a, c, n - 1);
      assert StepOk(a, b, img, inv, skip, rank, d);
      assert StepOk(a, b, img, inv, skip, rank, a.next(d));
      i := if skip(d) then j else j + 1;
    }
  }

  /** From step `n` on to the first step outside `skip`; nothing shows on the way. */
  lemma {:induction false} Settle<C(!new), S>(a: System<C, S>, b: System<C, S>, img: C -> C, inv: C -> bool, skip: C -> bool, rank: C -> nat, c: C, n: nat)
    returns (i: nat)
    requires Follows(a, b, img, inv, skip, rank) && inv(Run(a, c, n))
    ensures inv(Run(a, c, i)) && !skip(Run(a, c, i))
    ensures img(Run(a, c, i)) == img(Run(a, c, n)) && Trace(a, c, i) == Trace(a, c, n)
    decreases if skip(Run(a, c, n)) then 1 + rank(Run(a, c, n)) else 0
  {
    i := n;
    var d := Run(a, c, n);
    if skip(d) {
      assert StepOk(a, b, img, inv, skip, rank, d);
      assert Run(a, c, n + 1) == a.next(d);
      assert StepOk(a, b, img, inv, skip, rank, a.next(d));
      i := Settle(a, b, img, inv, skip, rank, c, n + 1);
    }
  }

  lemma {:induction false} Backward<C(!new), S>(a: System<C, S>, b: System<C, S>, img: C -> C, inv: C -> bool, skip: C -> bool, rank: C -> nat, c: C, i: nat)
    returns (n: nat)
    requires Follows(a, b, img, inv, skip, rank) && inv(c)
    ensures inv(Run(a, c, n)) && !skip(Run(a, c, n)) && Run(b, img(c), i) == img(Run(a, c, n))
    ensures Trace(a, c, n) == Trace(b, img(c), i)
  {
    if i == 0 {
      assert StepOk(a, b, img, inv, skip, rank, c);
      n := Settle(a, b, img, inv, skip, rank, c, 0);
    } else {
      var j := Backward(a, b, img, inv, skip, rank, c, i - 1);
      var d := Run(a, c, j);
      assert StepOk(a, b, img, inv, skip, rank, d);
      assert Run(a, c, j + 1) == a.next(d);
      assert StepOk(a, b, img, inv, skip, rank, a.next(d));
      assert Trace(a, c, j + 1) == Trace(b, img(c), i);
      n := Settle(a, b, img, inv, skip, rank, c, j + 1);
    }
  }

  /** A system that follows another step by step shows the same, in both directions. */
  lemma FollowsShows<C(!new), S>(a: System<C, S>, b: System<C, S>, img: C -> C, inv: C -> bool, skip: C -> bool, rank: C -> nat, c: C)
    requires Follows(a, b, img, inv, skip, rank) && inv(c)
    ensures Shows(a, c, b, img(c)) && Shows(b, img(c), a, c)
  {
    forall n: nat ensures Shown(a, c, n, b, img(c)) {
      var i := Forward(a, b, img, inv, skip, rank, c, n);
      assert StepOk(a, b, img, inv, skip, rank, Run(a, c, n));
      assert Met(a, c, n, b, img(c), i);
    }
    forall i: nat ensures Shown(b, img(c), i, a, c) {
      var n := Backward(a, b, img, inv, skip, rank, c, i);
      assert StepOk(a, b, img, inv, skip, rank, Run(a, c, n));
      assert Met(b, img(c), i, a, c, n);
    }
  }

  lemma ShowsItself<C, S>(a: System<C, S>, c: C)
    ensures Shows(a, c, a, c)
  {
    forall n: nat ensures Shown(a, c, n, a, c) { assert Met(a, c, n, a, c, n); }
  }
}
