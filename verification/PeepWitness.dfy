/** Programs that the inlining pass, run as it stands, changes. */
module PeepWitness {
  import opened Common
  import opened PeepSyntax
  import opened PeepMachine
  import opened PeepDeletion
  import opened PeepRelocate
  import opened PeepInline
  import opened Stutter

  const PlainIsa := Isa((_, _) => 0, _ => 0, (_, st) => st, (_, _) => false, (_, _, _, st) => (st, Halt), {"main"})

  const RAX := Mov(Reg("rax"), Imm(1))
  const RBX := Mov(Reg("rbx"), Imm(2))

  /** Block A ends in a jump to block B; both are named once. */
  const Chain: seq<Line> := [
    Line(0, None, [Directive(".globl")], false, ["main"]),
    Line(1, None, [Ret], false, []),
    Line(2, Some("A"), [RAX], false, []),
    Line(3, None, [Jmp("B")], false, ["B"]),
    Line(4, Some("main"), [], false, []),
    Line(5, None, [Jmp("A")], false, ["A"]),
    Line(6, Some("B"), [RBX], false, []),
    Line(7, None, [Jmp("X")], false, ["X"])]

  const AllRules := Rules(true, true, true, true, true)

  const Zero8 := [0, 0, 0, 0, 0, 0, 0, 0]

  lemma ChainUndeleted()
    ensures Deleted(Chain, AllRules) == Zero8
  {
    assert seq(|Chain|, _ => 0) == Zero8;
    LocalNothing(0);
    JumpNothing(0);
  }

  lemma LocalNothing(i: nat)
    ensures LocalFrom(Chain, AllRules, i, Zero8) == Zero8
    decreases 8 - i
  {
    if i < 8 { LocalNothing(i + 1); }
  }

  lemma JumpNothing(i: nat)
    ensures DeadJmpFrom(Chain, AllRules, i, Zero8) == Zero8
    decreases 8 - i
  {
    if i < 8 {
      assert NextLabel(Chain, Zero8, 4) == Some("main");
      assert NextLabel(Chain, Zero8, 6) == Some("B");
      assert NextLabel(Chain, Zero8, 8) == None;
      JumpNothing(i + 1);
    }
  }

  const W0 := Work(Zero8, [None, None, None, None, None, None, None, None], [false, false, false, false, false, false, false, false])
  const W1 := Work([0, 0, 0, 0, 0, 0, 2, 2], [None, None, None, Some([Chain[6], Chain[7]]), None, None, None, None],
                   [false, false, false, true, false, false, false, false])
  const W2 := Work([0, 0, 2, 2, 0, 0, 2, 2], [None, None, None, Some([Chain[6], Chain[7]]), None, Some([Chain[2]]), None, None],
                   [false, false, false, true, false, true, false, false])

  /** No line but `only` names `t`. */
  lemma {:induction false} RefsFrom(P: seq<Line>, w: Work, t: string, only: nat, j: nat)
    requires Fits(P, w) && j <= |P| && only < |P| && !w.blank[only] && P[only].words == [t]
    requires forall x | 0 <= x < |P| && x != only :: t !in P[x].words
    ensures Refs(P, w.blank, t, j) == (if j <= only then 1 else 0)
    decreases |P| - j
  {
    if j < |P| {
      RefsFrom(P, w, t, only, j + 1);
      NotCounted(P[j].words, t);
      assert Count([t], t) == 1 + Count([t][1..], t);
    }
  }

  lemma {:induction false} NotCounted(words: seq<string>, t: string)
    ensures t !in words ==> Count(words, t) == 0
  {
    if words != [] { NotCounted(words[1..], t); }
  }

  lemma {:induction false} Defines(P: seq<Line>, w: Work, t: string, d: nat, j: nat)
    requires Fits(P, w) && j <= d < |P| && w.dead[d] == 0 && P[d].tag == Some(t)
    requires forall x | 0 <= x < d :: P[x].tag != Some(t)
    ensures FindDef(P, w.dead, t, j) == Some(d)
    decreases d - j
  {
    if j < d { Defines(P, w, t, d, j + 1); }
  }

  lemma FirstMove()
    ensures Target(Chain, W0, 3) == Some((6, 7)) && InlineAt(Chain, W0, 3) == W1
  {
    RefsFrom(Chain, W0, "B", 3, 0);
    Defines(Chain, W0, "B", 6, 0);
    assert PrevEnds(Chain, W0.dead, 6);
    assert BlockEnd(Chain, W0.dead, 6, 7, 1) == Some(7);
    assert BlockEnd(Chain, W0.dead, 6, 6, 0) == Some(7);
    assert Copied(Chain, W0, 6, 8) == [Chain[6]] + Copied(Chain, W0, 7, 8);
    assert Copied(Chain, W0, 7, 8) == [Chain[7]] + Copied(Chain, W0, 8, 8);
    assert Gone(W0.dead, 6, 7) == W1.dead;
    assert Copied(Chain, W0, 6, 8) == [Chain[6], Chain[7]];
    assert Target(Chain, W0, 3) == Some((6, 7));
    assert W0.splice[3 := Some([Chain[6], Chain[7]])] == W1.splice && W0.blank[3 := true] == W1.blank;
  }

  lemma SecondMove()
    ensures Target(Chain, W1, 5) == Some((2, 3)) && InlineAt(Chain, W1, 5) == W2
  {
    RefsFrom(Chain, W1, "A", 5, 0);
    Defines(Chain, W1, "A", 2, 0);
    assert PrevEnds(Chain, W1.dead, 2);
    assert BlockEnd(Chain, W1.dead, 2, 3, 1) == Some(3);
    assert BlockEnd(Chain, W1.dead, 2, 2, 0) == Some(3);
    assert Copied(Chain, W1, 2, 4) == [Chain[2]] + Copied(Chain, W1, 3, 4);
    assert Copied(Chain, W1, 3, 4) == [] + Copied(Chain, W1, 4, 4);
    assert Gone(W1.dead, 2, 3) == W2.dead;
    assert Copied(Chain, W1, 2, 4) == [Chain[2]];
    assert Target(Chain, W1, 5) == Some((2, 3));
    assert W1.splice[5 := Some([Chain[2]])] == W2.splice && W1.blank[5 := true] == W2.blank;
  }

  /** The text written: block B, moved into block A's jump, is not copied along with block A. */
  const ChainOut: seq<Line> := [Chain[0], Chain[1], Chain[4], Chain[2]]

  lemma PassOnChain()
    ensures InlineFrom(Chain, 0, W0) == W2
  {
    FirstMove();
    SecondMove();
    assert InlineFrom(Chain, 6, W2) == InlineFrom(Chain, 8, W2) == W2;
    assert InlineFrom(Chain, 4, W1) == InlineFrom(Chain, 5, W1) == InlineFrom(Chain, 6, W2);
    assert InlineFrom(Chain, 3, W0) == InlineFrom(Chain, 4, W1);
    assert InlineFrom(Chain, 0, W0) == InlineFrom(Chain, 1, W0) == InlineFrom(Chain, 2, W0) == InlineFrom(Chain, 3, W0);
  }

  lemma {:induction false} ChainWritten()
    ensures Peep(Chain, AllRules) == ChainOut
  {
    ChainUndeleted();
    assert Start(Zero8) == W0;
    PassOnChain();
    assert Out(Chain, W2, 6, 8) == Chunk(Chain, W2, 6) + (Chunk(Chain, W2, 7) + Out(Chain, W2, 8, 8)) == [];
    assert Out(Chain, W2, 4, 8) == Chunk(Chain, W2, 4) + (Chunk(Chain, W2, 5) + Out(Chain, W2, 6, 8)) == [Chain[4], Chain[2]];
    assert Out(Chain, W2, 2, 8) == Chunk(Chain, W2, 2) + (Chunk(Chain, W2, 3) + Out(Chain, W2, 4, 8)) == [Chain[4], Chain[2]];
    assert Out(Chain, W2, 0, 8) == Chunk(Chain, W2, 0) + (Chunk(Chain, W2, 1) + Out(Chain, W2, 2, 8)) == ChainOut;
  }

  const St0 := State(map[], map[], 0)

  lemma {:induction false} ShortRun(m: nat)
    ensures "rbx" !in Run(Sys(PlainIsa, ChainOut), Label(ChainOut, "main", St0), m).st.regs
    ensures var c := Run(Sys(PlainIsa, ChainOut), Label(ChainOut, "main", St0), m); c == At(3, 0, St0) || c.Done?
  {
    hide *;
    var c := Label(ChainOut, "main", St0);
    ShortSteps();
    RunNext(PlainIsa, ChainOut, c, m);
    if m > 0 {
      ShortRun(m - 1);
      RunNext(PlainIsa, ChainOut, Run(Sys(PlainIsa, ChainOut), c, m - 1), 0);
    }
  }

  lemma ShortSteps()
    ensures Label(ChainOut, "main", St0) == At(3, 0, St0)
    ensures Step(PlainIsa, ChainOut, At(3, 0, St0)) == Done(Exec(PlainIsa, RAX, St0))
    ensures "rbx" !in St0.regs && "rbx" !in Exec(PlainIsa, RAX, St0).regs
  {
    DefIs(ChainOut, "main", 2);
    assert ChainOut[3].ins == [RAX] && ChainOut[2].ins == [] && Seek(ChainOut, 3) == 3 && Seek(ChainOut, 4) == 4;
  }

  lemma LongFirst()
    ensures Label(Chain, "main", St0) == At(5, 0, St0) && Step(PlainIsa, Chain, At(5, 0, St0)) == At(2, 0, St0)
  {
    DefIs(Chain, "main", 4);
    DefIs(Chain, "A", 2);
    assert Chain[4].ins == [] && Seek(Chain, 5) == 5 && Seek(Chain, 2) == 2;
  }

  lemma LongSecond(s: State)
    ensures Step(PlainIsa, Chain, At(2, 0, St0)) == At(3, 0, Exec(PlainIsa, RAX, St0))
    ensures Step(PlainIsa, Chain, At(3, 0, s)) == At(6, 0, s)
    ensures Step(PlainIsa, Chain, At(6, 0, s)) == At(7, 0, Exec(PlainIsa, RBX, s)) && "rbx" in Exec(PlainIsa, RBX, Exec(PlainIsa, RAX, St0)).regs
  {
    DefIs(Chain, "B", 6);
    assert Seek(Chain, 3) == 3 && Seek(Chain, 6) == 6 && Seek(Chain, 7) == 7;
  }

  lemma LongRun()
    ensures "rbx" in Run(Sys(PlainIsa, Chain), Label(Chain, "main", St0), 4).st.regs
  {
    hide *;
    var c := Label(Chain, "main", St0);
    LongFirst();
    LongSecond(Exec(PlainIsa, RAX, St0));
    RunNext(PlainIsa, Chain, c, 0);
    RunNext(PlainIsa, Chain, c, 1);
    RunNext(PlainIsa, Chain, c, 2);
    RunNext(PlainIsa, Chain, c, 3);
    RunNext(PlainIsa, Chain, c, 4);
  }

  lemma ChainDiffers()
    ensures !SameFrom(PlainIsa, Chain, ChainOut, "main", St0)
  {
    var a, b := Sys(PlainIsa, Chain), Sys(PlainIsa, ChainOut);
    var c, d := Label(Chain, "main", St0), Label(ChainOut, "main", St0);
    LongRun();
    hide Label, Run, Trace;
    forall m: nat ensures !Met(a, c, 4, b, d, m) {
      ShortRun(m);
      var s, t := Trace(a, c, 4), Trace(b, d, m);
      assert s[|s| - 1] == a.obs(Run(a, c, 4)) && t[|t| - 1] == b.obs(Run(b, d, m));
    }
    assert !Shown(a, c, 4, b, d);
  }

  lemma ChainWellFormed()
    ensures WellFormed(Chain) && Mentions(Chain) && Exposed(PlainIsa, Chain) && Honest(PlainIsa, Chain)
  {
    assert "main" in Chain[0].words;
  }

  /** Run with its default rules on `Chain`, the tool writes a program that behaves differently. */
  lemma {:induction false} ChainMisbehaves()
    ensures WellFormed(Chain) && Mentions(Chain) && Exposed(PlainIsa, Chain) && Honest(PlainIsa, Chain)
    ensures !SameBehaviour(PlainIsa, Chain, Peep(Chain, AllRules))
  {
    ChainWellFormed();
    ChainWritten();
    ChainDiffers();
    hide SameFrom, WellFormed, Mentions, Exposed, Honest, Peep;
  }

  // ---------------------------------------------------------------- a label above the block

  const HeldIsa := PlainIsa.(taken := {"X"})

  /** Control falls from the bare label X into block A, which the jump on line 6 fetches. */
  const Above: seq<Line> := [
    Line(0, None, [Directive(".quad")], false, ["X"]),
    Line(1, None, [Ret], false, []),
    Line(2, Some("X"), [], false, []),
    Line(3, Some("A"), [RAX], false, []),
    Line(4, None, [Jmp("Y")], false, ["Y"]),
    Line(5, None, [RBX], false, []),
    Line(6, None, [Jmp("A")], false, ["A"])]

  const Zero7 := [0, 0, 0, 0, 0, 0, 0]

  const V0 := Work(Zero7, [None, None, None, None, None, None, None], [false, false, false, false, false, false, false])
  const V1 := Work([0, 0, 0, 2, 2, 0, 0], [None, None, None, None, None, None, Some([Above[3], Above[4]])],
                   [false, false, false, false, false, false, true])

  const AboveOut: seq<Line> := [Above[0], Above[1], Above[2], Above[5], Above[3], Above[4]]

  lemma AboveUndeleted()
    ensures Deleted(Above, AllRules) == Zero7
  {
    assert seq(|Above|, _ => 0) == Zero7;
    AboveLocal(0);
    AboveJumps(0);
  }

  lemma AboveLocal(i: nat)
    ensures LocalFrom(Above, AllRules, i, Zero7) == Zero7
    decreases 7 - i
  {
    if i < 7 { AboveLocal(i + 1); }
  }

  lemma AboveJumps(i: nat)
    ensures DeadJmpFrom(Above, AllRules, i, Zero7) == Zero7
    decreases 7 - i
  {
    if i < 7 {
      assert NextLabel(Above, Zero7, 5) == None && NextLabel(Above, Zero7, 7) == None;
      AboveJumps(i + 1);
    }
  }

  lemma AboveMove()
    ensures Target(Above, V0, 6) == Some((3, 4)) && InlineAt(Above, V0, 6) == V1
  {
    RefsFrom(Above, V0, "A", 6, 0);
    Defines(Above, V0, "A", 3, 0);
    assert PrevEnds(Above, V0.dead, 2) && PrevEnds(Above, V0.dead, 3);
    assert BlockEnd(Above, V0.dead, 3, 4, 1) == Some(4);
    assert BlockEnd(Above, V0.dead, 3, 3, 0) == Some(4);
    assert Copied(Above, V0, 3, 5) == [Above[3]] + Copied(Above, V0, 4, 5);
    assert Copied(Above, V0, 4, 5) == [Above[4]] + Copied(Above, V0, 5, 5);
    assert Gone(V0.dead, 3, 4) == V1.dead;
    assert Copied(Above, V0, 3, 5) == [Above[3], Above[4]];
    assert Target(Above, V0, 6) == Some((3, 4));
    assert V0.splice[6 := Some([Above[3], Above[4]])] == V1.splice && V0.blank[6 := true] == V1.blank;
  }

  lemma JumpToNowhere(w: Work)
    requires Fits(Above, w) && w == V0
    ensures Target(Above, w, 4) == None
  {
    NoDef(w, 0);
  }

  lemma NoDef(w: Work, j: nat)
    requires Fits(Above, w)
    ensures FindDef(Above, w.dead, "Y", j) == None
    decreases 7 - j
  {
    if j < 7 { NoDef(w, j + 1); }
  }

  lemma AbovePass()
    ensures InlineFrom(Above, 0, V0) == V1
  {
    AboveMove();
    JumpToNowhere(V0);
    assert InlineFrom(Above, 6, V0) == InlineFrom(Above, 7, V1) == V1;
    assert InlineFrom(Above, 4, V0) == InlineFrom(Above, 5, V0) == InlineFrom(Above, 6, V0);
    assert InlineFrom(Above, 0, V0) == InlineFrom(Above, 1, V0) == InlineFrom(Above, 2, V0) == InlineFrom(Above, 3, V0) == InlineFrom(Above, 4, V0);
  }

  lemma AboveTail()
    ensures Out(Above, V1, 3, 7) == [Above[5], Above[3], Above[4]]
  {
    assert Out(Above, V1, 5, 7) == Chunk(Above, V1, 5) + (Chunk(Above, V1, 6) + Out(Above, V1, 7, 7)) == [Above[5], Above[3], Above[4]];
    assert Out(Above, V1, 3, 7) == Chunk(Above, V1, 3) + (Chunk(Above, V1, 4) + Out(Above, V1, 5, 7)) == [Above[5], Above[3], Above[4]];
  }

  lemma AboveWritten()
    ensures Peep(Above, AllRules) == AboveOut
  {
    AboveUndeleted();
    assert Start(Zero7) == V0;
    AbovePass();
    AboveTail();
    hide Deleted, InlineFrom;
    assert Out(Above, V1, 0, 7) == Chunk(Above, V1, 0) + (Chunk(Above, V1, 1) + (Chunk(Above, V1, 2) + Out(Above, V1, 3, 7))) == AboveOut;
  }

  lemma AboveSteps()
    ensures Label(Above, "X", St0) == At(3, 0, St0)
    ensures Step(HeldIsa, Above, At(3, 0, St0)) == At(4, 0, Exec(HeldIsa, RAX, St0))
    ensures Step(HeldIsa, Above, At(4, 0, Exec(HeldIsa, RAX, St0))) == Done(Exec(HeldIsa, RAX, St0))
    ensures "rbx" !in St0.regs && "rbx" !in Exec(HeldIsa, RAX, St0).regs
  {
    DefIs(Above, "X", 2);
    assert Seek(Above, 3) == 3 && Seek(Above, 2) == 3 && Seek(Above, 4) == 4;
    assert Def(Above, "Y") == None;
  }

  lemma RunNext(isa: Isa, P: seq<Line>, c: Config, m: nat)
    ensures Run(Sys(isa, P), c, m) == (if m == 0 then c else Step(isa, P, Run(Sys(isa, P), c, m - 1)))
    ensures c.Done? ==> Step(isa, P, c) == c
  {
  }

  /** Before, the run from X never sets rbx. */
  lemma {:induction false} AboveRun(m: nat)
    ensures var c := Run(Sys(HeldIsa, Above), Label(Above, "X", St0), m);
            && "rbx" !in c.st.regs
            && (c == At(3, 0, St0) || c == At(4, 0, Exec(HeldIsa, RAX, St0)) || c.Done?)
  {
    hide *;
    var c := Label(Above, "X", St0);
    AboveSteps();
    RunNext(HeldIsa, Above, c, m);
    if m > 0 {
      AboveRun(m - 1);
      RunNext(HeldIsa, Above, Run(Sys(HeldIsa, Above), c, m - 1), 0);
    }
  }

  /** After, it does at once. */
  lemma AboveOutRun()
    ensures "rbx" in Run(Sys(HeldIsa, AboveOut), Label(AboveOut, "X", St0), 1).st.regs
  {
    DefIs(AboveOut, "X", 2);
    assert Seek(AboveOut, 3) == 3 && Seek(AboveOut, 2) == 3;
    var a, c := Sys(HeldIsa, AboveOut), Label(AboveOut, "X", St0);
    assert c == At(3, 0, St0);
    assert Run(a, c, 1) == a.next(Run(a, c, 0)) == a.next(c);
  }

  lemma AboveDiffers()
    ensures !SameFrom(HeldIsa, Above, AboveOut, "X", St0)
  {
    var a, b := Sys(HeldIsa, AboveOut), Sys(HeldIsa, Above);
    var c, d := Label(AboveOut, "X", St0), Label(Above, "X", St0);
    AboveOutRun();
    hide Label, Run, Trace;
    forall m: nat ensures !Met(a, c, 1, b, d, m) {
      AboveRun(m);
      var s, t := Trace(a, c, 1), Trace(b, d, m);
      assert s[|s| - 1] == a.obs(Run(a, c, 1)) && t[|t| - 1] == b.obs(Run(b, d, m));
    }
    assert !Shown(a, c, 1, b, d);
  }

  lemma AboveWellFormed()
    ensures WellFormed(Above) && Mentions(Above) && Exposed(HeldIsa, Above) && Honest(HeldIsa, Above)
  {
    assert "X" in Above[0].words;
  }

  /** Every line of `Above` but the jump is written, and still the program behaves differently. */
  lemma {:induction false} AboveMisbehaves()
    ensures WellFormed(Above) && Mentions(Above) && Exposed(HeldIsa, Above) && Honest(HeldIsa, Above)
    ensures !SameBehaviour(HeldIsa, Above, Peep(Above, AllRules))
  {
    AboveWellFormed();
    AboveWritten();
    AboveDiffers();
    assert "X" in HeldIsa.taken;
    hide SameFrom, WellFormed, Mentions, Exposed, Honest, Peep;
  }
}
