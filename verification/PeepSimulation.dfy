/** When a map from the lines of one program to the lines of another carries every execution. */
module PeepSimulation {
  import opened Common
  import opened PeepSyntax
  import opened PeepMachine
  import opened Stutter

  /** `phi[p]` is where the second program stands when the first stands at line `p`; the lines in
      `del` have no counterpart, and `rank` bounds how many of them run in a row. */
  datatype Corr = Corr(phi: seq<nat>, del: set<nat>, rank: seq<nat>)

  ghost predicate IdsOnce(P: seq<Line>) { forall p, q | 0 <= p < q < |P| :: P[p].id != P[q].id }

  ghost predicate Jumps(P: seq<Line>, p: nat, k: nat, t: string) {
    p < |P| && k < |P[p].ins| && ((P[p].ins[k].Jmp? || P[p].ins[k].Jcc?) && P[p].ins[k].target == t)
  }

  ghost predicate Live(isa: Isa, P: seq<Line>, del: set<nat>, t: string) {
    t in isa.taken || exists p, k :: Jumps(P, p, k, t) && p !in del
  }

  ghost predicate LabelOk(P: seq<Line>, Q: seq<Line>, phi: seq<nat>, t: string)
    requires |phi| == |P| + 1
  {
    match (Def(P, t), Def(Q, t))
    case (None, None) => true
    case (Some(d), Some(e)) => Seek(Q, e) == Seek(Q, phi[Seek(P, d)])
    case _ => false
  }

  ghost predicate KeptOk(P: seq<Line>, Q: seq<Line>, phi: seq<nat>, p: nat)
    requires |phi| == |P| + 1 && p < |P|
  {
    && phi[p] < |Q|
    && Q[phi[p]].ins == P[p].ins
    && Q[phi[p]].id == P[p].id
    && (Falls(P[p].ins) ==> Seek(Q, phi[p] + 1) == Seek(Q, phi[Seek(P, p + 1)]))
  }

  /** Where a deleted line leads: a jump to its label, a `mov` to the next line. */
  ghost function Onward(P: seq<Line>, p: nat): nat
    requires p < |P| && P[p].ins != []
  {
    match P[p].ins[0]
    case Jmp(t) => (match Def(P, t) case Some(d) => Seek(P, d) case None => |P|)
    case _ => Seek(P, p + 1)
  }

  ghost predicate DeletedOk(P: seq<Line>, Q: seq<Line>, m: Corr, p: nat)
    requires |m.phi| == |P| + 1 && |m.rank| == |P|
  {
    && p < |P| && |P[p].ins| == 1
    && (P[p].ins[0].Mov? || (P[p].ins[0].Jmp? && Def(P, P[p].ins[0].target).Some?))
    && var n := Onward(P, p);
       && n <= |P|
       && Seek(Q, m.phi[p]) == Seek(Q, m.phi[n])
       && (n < |P| && n in m.del ==> m.rank[n] < m.rank[p])
  }

  ghost predicate HasCall(ins: seq<Instr>) { exists k :: 0 <= k < |ins| && ins[k].Call? }

  ghost predicate Kept(P: seq<Line>, m: Corr, p: nat) { p < |P| && P[p].ins != [] && p !in m.del }

  ghost predicate Origin(P: seq<Line>, m: Corr, q: nat)
    requires |m.phi| == |P| + 1
  {
    exists p: nat :: Kept(P, m, p) && m.phi[p] == q
  }

  ghost predicate Simulates(isa: Isa, P: seq<Line>, Q: seq<Line>, m: Corr) {
    && |m.phi| == |P| + 1 && |m.rank| == |P|
    && Seek(Q, m.phi[|P|]) == |Q|
    && IdsOnce(P) && IdsOnce(Q)
    && (forall p | Kept(P, m, p) :: KeptOk(P, Q, m.phi, p))
    && (forall p | p in m.del :: DeletedOk(P, Q, m, p))
    && (forall t | Live(isa, P, m.del, t) :: LabelOk(P, Q, m.phi, t))
    && (forall q | 0 <= q < |Q| && HasCall(Q[q].ins) :: Origin(P, m, q))
  }

  /** A deleted `mov` changes nothing when it is reached. */
  ghost predicate Quiet(isa: Isa, P: seq<Line>, m: Corr, c: Config)
    requires Valid(P, c)
  {
    c.At? && c.p in m.del && P[c.p].ins[c.k].Mov? ==> Exec(isa, P[c.p].ins[c.k], c.st) == c.st
  }

  ghost predicate Deleting(m: Corr, c: Config) { c.At? && c.p in m.del }

  /** The configuration of the second program that stands for `c`. */
  ghost function Image(P: seq<Line>, Q: seq<Line>, m: Corr, c: Config): Config
    requires |m.phi| == |P| + 1
  {
    match c
    case Done(st) => Done(st)
    case At(p, k, st) => if p >= |P| then c else if p in m.del then Enter(Q, m.phi[p], st) else At(m.phi[p], k, st)
  }

  lemma ImageOfEnter(isa: Isa, P: seq<Line>, Q: seq<Line>, m: Corr, p: nat, st: State)
    requires Simulates(isa, P, Q, m) && p <= |P|
    ensures Image(P, Q, m, Enter(P, p, st)) == Enter(Q, m.phi[Seek(P, p)], st)
  {
    var q := Seek(P, p);
    if q < |P| && q !in m.del {
      assert KeptOk(P, Q, m.phi, q) by { assert Kept(P, m, q); }
    }
  }

  lemma ImageOfLabel(isa: Isa, P: seq<Line>, Q: seq<Line>, m: Corr, t: string, st: State)
    requires Simulates(isa, P, Q, m) && Live(isa, P, m.del, t)
    ensures Image(P, Q, m, Label(P, t, st)) == Label(Q, t, st)
  {
    assert LabelOk(P, Q, m.phi, t);
    if Def(P, t).Some? { ImageOfEnter(isa, P, Q, m, Def(P, t).value, st); }
  }

  lemma ImageOfAfter(isa: Isa, P: seq<Line>, Q: seq<Line>, m: Corr, p: nat, k: nat, st: State)
    requires Simulates(isa, P, Q, m) && Kept(P, m, p) && k < |P[p].ins| && CanFall(P[p].ins[k])
    ensures KeptOk(P, Q, m.phi, p)
    ensures Image(P, Q, m, After(P, p, k, st)) == After(Q, m.phi[p], k, st)
  {
    if k + 1 == |P[p].ins| { ImageOfEnter(isa, P, Q, m, p + 1, st); }
  }

  lemma SiteIs(P: seq<Line>, p: nat, id: nat)
    requires IdsOnce(P) && p < |P| && P[p].id == id
    ensures SiteFrom(P, id, 0) == Some(p)
  {
  }

  lemma ImageOfReturn(isa: Isa, P: seq<Line>, Q: seq<Line>, m: Corr, id: nat, k: nat, st: State)
    requires Simulates(isa, P, Q, m)
    ensures Image(P, Q, m, Return(P, id, k, st)) == Return(Q, id, k, st)
  {
    var s, r := SiteFrom(P, id, 0), SiteFrom(Q, id, 0);
    if s.Some? && Kept(P, m, s.value) {
      assert KeptOk(P, Q, m.phi, s.value);
      SiteIs(Q, m.phi[s.value], id);
      if k < |P[s.value].ins| && P[s.value].ins[k].Call? { ImageOfAfter(isa, P, Q, m, s.value, k, st); }
    } else {
      if s.Some? && s.value in m.del { assert DeletedOk(P, Q, m, s.value); }
      assert r.Some? ==> !HasCall(Q[r.value].ins) by {
        forall p: nat | Kept(P, m, p) ensures P[p].id != id { SiteIs(P, p, P[p].id); }
      }
    }
  }

  lemma ImageOfFollow(isa: Isa, P: seq<Line>, Q: seq<Line>, m: Corr, x: Instr, p: nat, k: nat, st: State)
    requires Simulates(isa, P, Q, m) && Kept(P, m, p) && k < |P[p].ins| && P[p].ins[k] == x
    ensures KeptOk(P, Q, m.phi, p)
    ensures Valid(P, Follow(isa, P, x, p, k, st))
    ensures Image(P, Q, m, Follow(isa, P, x, p, k, st)) == Follow(isa, Q, x, m.phi[p], k, st)
  {
    assert KeptOk(P, Q, m.phi, p);
    var (s, d) := isa.transfer(x, P[p].id, k, st);
    match d
    case Next => if x.Call? { ImageOfAfter(isa, P, Q, m, p, k, s); }
    case Goto(t) => if t in isa.taken { ImageOfLabel(isa, P, Q, m, t, s); }
    case Back(id, j) => ImageOfReturn(isa, P, Q, m, id, j, s);
    case Halt =>
  }

  /** A deleted line is matched by no step. */
  lemma DeletedMatched(isa: Isa, P: seq<Line>, Q: seq<Line>, m: Corr, c: Config)
    requires Simulates(isa, P, Q, m) && Valid(P, c) && Quiet(isa, P, m, c) && Deleting(m, c)
    ensures Valid(Q, Image(P, Q, m, c))
    ensures Image(P, Q, m, Step(isa, P, c)) == Image(P, Q, m, c)
    ensures Step(isa, P, c).st == c.st
    ensures Deleting(m, Step(isa, P, c)) ==> m.rank[Step(isa, P, c).p] < m.rank[c.p]
  {
    var p, st := c.p, c.st;
    var x := P[p].ins[c.k];
    assert DeletedOk(P, Q, m, p);
    var q := if x.Jmp? then Def(P, x.target).value else p + 1;
    hide Seek, DefFrom, SiteFrom, Exec;
    assert Step(isa, P, c) == Enter(P, q, st);
    ImageOfEnter(isa, P, Q, m, q, st);
  }

  lemma KeptMatched(isa: Isa, P: seq<Line>, Q: seq<Line>, m: Corr, c: Config)
    requires Simulates(isa, P, Q, m) && Valid(P, c) && c.At? && !Deleting(m, c)
    ensures Valid(Q, Image(P, Q, m, c)) && Image(P, Q, m, c).At?
    ensures Step(isa, Q, Image(P, Q, m, c)) == Image(P, Q, m, Step(isa, P, c))
  {
    var p, k, st := c.p, c.k, c.st;
    var x := P[p].ins[k];
    assert Kept(P, m, p) && KeptOk(P, Q, m.phi, p);
    hide Seek, DefFrom, SiteFrom, Exec, Enter, After, Label, Return, Follow;
    if x.Jmp? || x.Jcc? {
      assert Jumps(P, p, k, x.target);
      assert Live(isa, P, m.del, x.target);
      assert LabelOk(P, Q, m.phi, x.target);
      ImageOfLabel(isa, P, Q, m, x.target, st);
    }
    if CanFall(x) {
      ImageOfAfter(isa, P, Q, m, p, k, Exec(isa, x, st));
      ImageOfAfter(isa, P, Q, m, p, k, st);
    }
    if IsControl(x) { ImageOfFollow(isa, P, Q, m, x, p, k, st); }
    hide Simulates, Kept, KeptOk, Live;
  }

  /** The local conditions are enough: kept under an invariant that holds at every label whose
      address is taken, they make both programs behave alike. */
  lemma SimulationSame(isa: Isa, P: seq<Line>, Q: seq<Line>, m: Corr, inv: Config -> bool)
    requires Simulates(isa, P, Q, m)
    requires forall c :: inv(c) ==> Valid(P, c) && Quiet(isa, P, m, c) && inv(Step(isa, P, c))
    requires forall t, st | t in isa.taken :: inv(Label(P, t, st))
    ensures SameBehaviour(isa, P, Q)
  {
    var a, b := Sys(isa, P), Sys(isa, Q);
    var img := (c: Config) => Image(P, Q, m, c);
    var skip := (c: Config) => Deleting(m, c);
    var rank := (c: Config) => if c.At? && c.p < |m.rank| then m.rank[c.p] else 0;
    forall c | inv(c) ensures StepOk(a, b, img, inv, skip, rank, c) {
      if Deleting(m, c) { DeletedMatched(isa, P, Q, m, c); } else if c.At? { KeptMatched(isa, P, Q, m, c); }
    }
    forall t, st | t in isa.taken ensures SameFrom(isa, P, Q, t, st) {
      ImageOfLabel(isa, P, Q, m, t, st);
      FollowsShows(a, b, img, inv, skip, rank, Label(P, t, st));
    }
  }
}
