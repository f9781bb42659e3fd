/** What got-cse rests on: the tool's report of the register an instruction writes. */
module PeepReports {
  import opened Common
  import opened PeepSyntax
  import opened PeepMachine
  import opened PeepDeletion
  import opened PeepRelocate
  import opened PeepWitness
  import opened Stutter

  function GotLoad(r: string, s: string): Instr { Mov(Reg(r), Got(s)) }

  /** Register `r` is loaded from one slot of the table before and after `x`. */
  function Twice(r: string, s: string, x: Instr): (P: seq<Line>)
    ensures |P| == 4
  {
    [Line(0, None, [Directive(".globl")], false, ["main"]),
     Line(1, Some("main"), [GotLoad(r, s)], false, []),
     Line(2, None, [x], false, []),
     Line(3, None, [GotLoad(r, s)], false, [])]
  }

  /** An instruction that ends no block and is reported not to write `r`. */
  predicate PassedOver(x: Instr, r: string) {
    !x.Mov? && !IsControl(x) && !x.Leave? && !x.Directive? && !WritesReg(x, Reg(r))
  }

  const Once4 := [0, 0, 0, 1]

  lemma TwiceScan(r: string, s: string, x: Instr)
    requires PassedOver(x, r)
    ensures GotScan(Twice(r, s, x), Reg(r), Got(s), 2, [0, 0, 0, 0]) == Once4
  {
    var P, d := Twice(r, s, x), [0, 0, 0, 0];
    assert d[3 := 1] == Once4;
    assert GotScan(P, Reg(r), Got(s), 4, Once4) == Once4;
    assert GotScan(P, Reg(r), Got(s), 3, d) == Once4;
  }

  lemma TwiceLocal(r: string, s: string, x: Instr, on: Rules)
    requires PassedOver(x, r) && on.gotCse
    ensures LocalFrom(Twice(r, s, x), on, 0, [0, 0, 0, 0]) == Once4
  {
    var P, d := Twice(r, s, x), [0, 0, 0, 0];
    TwiceScan(r, s, x);
    hide GotScan;
    assert LocalAt(P, on, 0, d) == d && LocalAt(P, on, 1, d) == Once4 && LocalAt(P, on, 2, Once4) == Once4 && LocalAt(P, on, 3, Once4) == Once4;
    hide LocalAt;
    assert LocalFrom(P, on, 4, Once4) == Once4;
    assert LocalFrom(P, on, 2, Once4) == LocalFrom(P, on, 3, Once4) == LocalFrom(P, on, 4, Once4);
    assert LocalFrom(P, on, 0, d) == LocalFrom(P, on, 1, d) == LocalFrom(P, on, 2, Once4);
  }

  lemma TwiceDeleted(r: string, s: string, x: Instr, on: Rules)
    requires PassedOver(x, r) && on.gotCse
    ensures Deleted(Twice(r, s, x), on) == Once4
  {
    var P := Twice(r, s, x);
    TwiceLocal(r, s, x, on);
    assert seq(|P|, _ => 0) == [0, 0, 0, 0];
    hide LocalFrom;
    NoJumps(P, on, 0, Once4);
  }

  lemma {:induction false} NoJumps(P: seq<Line>, on: Rules, i: nat, dead: seq<int>)
    requires |dead| == |P| && forall p | 0 <= p < |P| && P[p].ins != [] :: !P[p].ins[0].Jmp?
    ensures DeadJmpFrom(P, on, i, dead) == dead
    decreases |P| - i
  {
    if i < |P| { NoJumps(P, on, i + 1, dead); }
  }

  lemma {:induction false} NoMoves(P: seq<Line>, i: nat, w: Work)
    requires Fits(P, w) && forall p | 0 <= p < |P| && P[p].ins != [] :: !P[p].ins[0].Jmp?
    ensures InlineFrom(P, i, w) == w
    decreases |P| - i
  {
    if i < |P| { NoMoves(P, i + 1, w); }
  }

  /** The second load goes, whatever `x` does. */
  lemma TwiceWritten(r: string, s: string, x: Instr, on: Rules)
    requires PassedOver(x, r) && on.gotCse
    ensures Peep(Twice(r, s, x), on) == Twice(r, s, x)[..3]
  {
    var P := Twice(r, s, x);
    TwiceDeleted(r, s, x, on);
    var w := Start(Once4);
    NoMoves(P, 0, w);
    hide Deleted, InlineFrom;
    assert Out(P, w, 2, 4) == Chunk(P, w, 2) + (Chunk(P, w, 3) + Out(P, w, 4, 4)) == [P[2]];
    assert Out(P, w, 0, 4) == Chunk(P, w, 0) + (Chunk(P, w, 1) + Out(P, w, 2, 4)) == P[..3];
  }

  lemma TwicePart(r: string, s: string, x: Instr, i: nat, p: nat, k: nat)
    requires PassedOver(x, r) && LoadsGot(Twice(r, s, x), i) && p < 4 && k < |Twice(r, s, x)[p].ins|
    requires !WritesReg(Twice(r, s, x)[p].ins[k], Twice(r, s, x)[i].ins[0].dst)
    ensures Twice(r, s, x)[p].ins[k] == x && Twice(r, s, x)[i].ins[0] == GotLoad(r, s)
  {
    assert i == 1 || i == 3;
  }

  lemma TwiceHonest(isa: Isa, r: string, s: string, x: Instr)
    requires PassedOver(x, r) && Leaves(isa, x, r, isa.got(s))
    ensures Honest(isa, Twice(r, s, x))
  {
    var P := Twice(r, s, x);
    hide Twice, Leaves, WritesReg, PassedOver;
    forall i: nat, p: nat, k: nat | LoadsGot(P, i) && p < |P| && k < |P[p].ins| && !WritesReg(P[p].ins[k], P[i].ins[0].dst)
      ensures Leaves(isa, P[p].ins[k], P[i].ins[0].dst.name, isa.got(P[i].ins[0].src.sym))
    {
      TwicePart(r, s, x, i, p, k);
    }
  }

  lemma TwiceWellFormed(r: string, s: string, x: Instr)
    requires PassedOver(x, r)
    ensures WellFormed(Twice(r, s, x))
  {
  }

  lemma TwiceSteps(isa: Isa, r: string, s: string, x: Instr, st: State)
    requires PassedOver(x, r) && Get(st, r) == isa.got(s)
    ensures var P := Twice(r, s, x);
            && Label(P, "main", st) == At(1, 0, st) && Step(isa, P, At(1, 0, st)) == At(2, 0, st)
            && Step(isa, P, At(2, 0, st)) == At(3, 0, isa.effect(x, st))
            && Step(isa, P, At(3, 0, isa.effect(x, st))) == Done(Set(isa.effect(x, st), r, isa.got(s)))
  {
    var P := Twice(r, s, x);
    DefIs(P, "main", 1);
    assert Seek(P, 1) == 1 && Seek(P, 2) == 2 && Seek(P, 3) == 3 && Seek(P, 4) == 4;
  }

  lemma OnceSteps(isa: Isa, r: string, s: string, x: Instr, st: State)
    requires PassedOver(x, r) && Get(st, r) == isa.got(s)
    ensures var Q := Twice(r, s, x)[..3];
            && Label(Q, "main", st) == At(1, 0, st) && Step(isa, Q, At(1, 0, st)) == At(2, 0, st)
            && Step(isa, Q, At(2, 0, st)) == Done(isa.effect(x, st))
  {
    var Q := Twice(r, s, x)[..3];
    DefIs(Q, "main", 1);
    assert Seek(Q, 1) == 1 && Seek(Q, 2) == 2 && Seek(Q, 3) == 3;
  }

  lemma {:induction false} OnceRun(isa: Isa, r: string, s: string, x: Instr, st: State, m: nat)
    requires PassedOver(x, r) && Get(st, r) == isa.got(s)
    ensures var Q := Twice(r, s, x)[..3]; var c := Run(Sys(isa, Q), Label(Q, "main", st), m);
            c == At(1, 0, st) || c == At(2, 0, st) || c == Done(isa.effect(x, st))
  {
    hide *;
    var Q := Twice(r, s, x)[..3];
    OnceSteps(isa, r, s, x, st);
    RunNext(isa, Q, Label(Q, "main", st), m);
    if m > 0 {
      OnceRun(isa, r, s, x, st, m - 1);
      RunNext(isa, Q, Run(Sys(isa, Q), Label(Q, "main", st), m - 1), 0);
    }
  }

  lemma TwiceRun(isa: Isa, r: string, s: string, x: Instr, st: State)
    requires PassedOver(x, r) && Get(st, r) == isa.got(s)
    ensures var P := Twice(r, s, x); Run(Sys(isa, P), Label(P, "main", st), 3) == Done(Set(isa.effect(x, st), r, isa.got(s)))
  {
    hide *;
    var P := Twice(r, s, x);
    var c := Label(P, "main", st);
    TwiceSteps(isa, r, s, x, st);
    RunNext(isa, P, c, 0);
    RunNext(isa, P, c, 1);
    RunNext(isa, P, c, 2);
    RunNext(isa, P, c, 3);
  }

  lemma SetGets(st: State, r: string, v: int)
    ensures Get(Set(st, r, v), r) == v
  {
  }

  lemma SysIs(isa: Isa, P: seq<Line>, c: Config)
    ensures Sys(isa, P).obs(c) == c.st && Sys(isa, P).stop(c) == c.Done?
  {
  }

  /** When `x` takes the value out of the register, the second load puts it back and its deletion shows. */
  lemma TwiceDiffers(isa: Isa, r: string, s: string, x: Instr, st: State)
    requires PassedOver(x, r) && Get(st, r) == isa.got(s) && Get(isa.effect(x, st), r) != isa.got(s)
    ensures !SameFrom(isa, Twice(r, s, x), Twice(r, s, x)[..3], "main", st)
  {
    var P, Q := Twice(r, s, x), Twice(r, s, x)[..3];
    var a, b, c, d := Sys(isa, P), Sys(isa, Q), Label(P, "main", st), Label(Q, "main", st);
    TwiceRun(isa, r, s, x, st);
    SetGets(isa.effect(x, st), r, isa.got(s));
    hide Label, Run, Trace, Set, Get, Twice, Step, Sys, Met;
    SysIs(isa, P, Run(a, c, 3));
    forall m: nat ensures !Met(a, c, 3, b, d, m) {
      OnceRun(isa, r, s, x, st, m);
      SysIs(isa, Q, Run(b, d, m));
      MetEnds(a, c, 3, b, d, m);
    }
    assert !Shown(a, c, 3, b, d);
  }

  /** Runs that meet end alike. */
  lemma MetEnds(a: System<Config, State>, c: Config, n: nat, b: System<Config, State>, d: Config, m: nat)
    ensures Met(a, c, n, b, d, m) ==> a.obs(Run(a, c, n)) == b.obs(Run(b, d, m)) && (a.stop(Run(a, c, n)) ==> b.stop(Run(b, d, m)))
  {
    var t, u := Trace(a, c, n), Trace(b, d, m);
    assert t[|t| - 1] == a.obs(Run(a, c, n)) && u[|u| - 1] == b.obs(Run(b, d, m));
  }

  /** Between two loads of a register from one slot the tool passes over every instruction that it reports not to
      write the register. Without the second load the program behaves as before exactly when the report is right
      about that value. */
  lemma GotCseExact(isa: Isa, r: string, s: string, x: Instr, on: Rules)
    requires "main" in isa.taken && PassedOver(x, r) && on.gotCse
    ensures SameBehaviour(isa, Twice(r, s, x), Peep(Twice(r, s, x), on)) <==> Leaves(isa, x, r, isa.got(s))
  {
    var P := Twice(r, s, x);
    TwiceWellFormed(r, s, x);
    TwiceDeleted(r, s, x, on);
    TwiceWritten(r, s, x, on);
    var off := on.(inlineOnce := false);
    TwiceDeleted(r, s, x, off);
    TwiceWritten(r, s, x, off);
    if Leaves(isa, x, r, isa.got(s)) {
      TwiceHonest(isa, r, s, x);
      DeletionsPreserveMeaning(isa, P, off);
      assert Peep(P, off) == Output(P, Start(Deleted(P, off)));
    } else {
      var st :| Get(st, r) == isa.got(s) && Get(isa.effect(x, st), r) != isa.got(s);
      hide Peep, Twice, SameFrom;
      TwiceDiffers(isa, r, s, x, st);
    }
  }

  /** What the processor does for three instructions: `cqo` fills rdx with the sign of rax, `xchg` of two registers
      swaps them, and `inc rax` adds one, whatever comment follows. */
  function Effect(x: Instr, st: State): State {
    match x
    case Other(op, _) =>
      if op == "cqo" then Set(st, "rdx", if Get(st, "rax") < 0 then -1 else 0)
      else if op == "inc rax" then Set(st, "rax", Get(st, "rax") + 1)
      else st
    case Bin(op, Reg(a), Reg(b)) => if op == "xchg" then Set(Set(st, a, Get(st, b)), b, Get(st, a)) else st
    case _ => st
  }

  const Processor := Isa((_, _) => 0, _ => 7, Effect, (_, _) => false, (_, _, _, st) => (st, Halt), {"main"})

  const Cqo := Other("cqo", None)

  const Xchg := Bin("xchg", Reg("rcx"), Reg("rdx"))

  /** With a comment that has a comma. */
  const IncCommented := Other("inc rax", Some(Reg("rax  # a")))

  lemma Seven(r: string, st: State, x: Instr)
    requires st == State(map[r := 7], map[], 0)
    requires (x == Cqo && r == "rdx") || (x == Xchg && r == "rdx") || (x == IncCommented && r == "rax")
    ensures PassedOver(x, r) && Get(st, r) == Processor.got("s") && Get(Processor.effect(x, st), r) != Processor.got("s")
  {
    assert "rcx" != "rdx" && "rax" != "rdx";
  }

  /** Wrong reports: each of the three is passed over, and the program that comes out behaves differently. */
  lemma WrongReports(r: string, x: Instr, on: Rules)
    requires (x == Cqo && r == "rdx") || (x == Xchg && r == "rdx") || (x == IncCommented && r == "rax")
    requires on.gotCse
    ensures !SameBehaviour(Processor, Twice(r, "s", x), Peep(Twice(r, "s", x), on))
  {
    var st := State(map[r := 7], map[], 0);
    Seven(r, st, x);
    assert "main" in Processor.taken;
    hide SameBehaviour, Twice, Peep, PassedOver, Effect;
    GotCseExact(Processor, r, "s", x, on);
  }
}
