/** The four deleting rules preserve every execution. */
module PeepDeletion {
  import opened Common
  import opened PeepSyntax
  import opened PeepMachine
  import opened PeepSimulation
  import opened PeepErase

  /** A GOT slot is a memory operand, so only a register can receive it. */
  ghost predicate Encodable(P: seq<Line>) {
    forall p, k | 0 <= p < |P| && 0 <= k < |P[p].ins| && P[p].ins[k].Mov? && P[p].ins[k].src.Got? :: P[p].ins[k].dst.Reg?
  }

  ghost predicate WellFormed(P: seq<Line>) { Shape(P) && LabelsOnce(P) && Encodable(P) }

  /** May stand between a GOT load of `d` and its repetition. */
  ghost predicate Harmless(P: seq<Line>, dead: seq<int>, d: Operand, k: nat)
    requires |dead| == |P| && k < |P|
  {
    && P[k].tag.None?
    && (P[k].ins == [] || dead[k] != 0 || (|P[k].ins| == 1 && !IsControl(P[k].ins[0]) && !WritesReg(P[k].ins[0], d)))
  }

  /** Line `j` repeats or undoes the `mov` on line `i`, and control reaches `j` only from `i`. */
  ghost predicate Link(P: seq<Line>, dead: seq<int>, i: nat, j: nat)
    requires |dead| == |P|
  {
    && i < j < |P| && |P[i].ins| == 1 && P[i].ins[0].Mov?
    && P[j].tag.None?
    && var d, s := P[i].ins[0].dst, P[i].ins[0].src;
       && (P[j].ins == [Mov(d, s)] || P[j].ins == [Mov(s, d)])
       && (if d.Reg? && s.Got? then forall k | i < k < j :: Harmless(P, dead, d, k)
           else d.Mem? && forall k | i < k < j :: P[k].tag.None? && P[k].ins == [])
  }

  ghost predicate Reason(P: seq<Line>, dead: seq<int>, j: nat)
    requires |dead| == |P| && j < |P|
  {
    || (P[j].ins != [] && P[j].ins[0].Mov? && P[j].ins[0].dst == P[j].ins[0].src)
    || exists i: nat :: Link(P, dead, i, j)
  }

  /** Every deleted line is one `mov` that has a reason to be deleted. */
  ghost predicate Explained(P: seq<Line>, dead: seq<int>) {
    && |dead| == |P|
    && forall j | 0 <= j < |P| && dead[j] != 0 :: dead[j] == 1 && |P[j].ins| == 1 && P[j].ins[0].Mov? && Reason(P, dead, j)
  }

  /** The scan invariant: no line deleted ahead of the scan carries a label. */
  ghost predicate BareAhead(P: seq<Line>, dead: seq<int>, i: nat)
    requires |dead| == |P|
  {
    forall j | i <= j < |P| && dead[j] != 0 :: P[j].tag.None?
  }

  lemma MarkKeepsReasons(P: seq<Line>, dead: seq<int>, j: nat)
    requires Shape(P) && Explained(P, dead) && j < |P| && P[j].ins != [] && !P[j].fused && P[j].ins[0].Mov?
    requires Reason(P, dead[j := 1], j)
    ensures Explained(P, dead[j := 1])
  {
    var d := dead[j := 1];
    forall x | 0 <= x < |P| && d[x] != 0 ensures Reason(P, d, x) {
      if x != j && exists i: nat :: Link(P, dead, i, x) {
        var i: nat :| Link(P, dead, i, x);
        forall k | i < k < x && Harmless(P, dead, P[i].ins[0].dst, k) ensures Harmless(P, d, P[i].ins[0].dst, k) {}
        assert Link(P, d, i, x);
      }
    }
  }

  ghost predicate HarmlessTo(P: seq<Line>, dead: seq<int>, d: Operand, i: nat, j: nat)
    requires |dead| == |P|
  {
    forall k | i < k < j && k < |P| :: Harmless(P, dead, d, k)
  }

  lemma RepeatedLoad(P: seq<Line>, i: nat, j: nat, dead: seq<int>)
    requires WellFormed(P) && Explained(P, dead) && BareAhead(P, dead, i + 1)
    requires i < j < |P| && |P[i].ins| == 1 && P[i].ins[0].Mov? && P[i].ins[0].src.Got?
    requires HarmlessTo(P, dead, P[i].ins[0].dst, i, j)
    requires P[j].ins != [] && !Barrier(P[j]) && P[j].ins[0] == P[i].ins[0]
    ensures Explained(P, dead[j := 1]) && BareAhead(P, dead[j := 1], i + 1)
    ensures HarmlessTo(P, dead[j := 1], P[i].ins[0].dst, i, j + 1)
  {
    var d := dead[j := 1];
    forall k | i < k < j ensures Harmless(P, d, P[i].ins[0].dst, k) { assert Harmless(P, dead, P[i].ins[0].dst, k); }
    assert Link(P, d, i, j);
    MarkKeepsReasons(P, dead, j);
  }

  lemma {:induction false} GotScanExplained(P: seq<Line>, i: nat, j: nat, dead: seq<int>)
    requires WellFormed(P) && Explained(P, dead) && BareAhead(P, dead, i + 1)
    requires i < j && i < |P| && |P[i].ins| == 1 && P[i].ins[0].Mov? && P[i].ins[0].src.Got?
    requires HarmlessTo(P, dead, P[i].ins[0].dst, i, j)
    ensures Explained(P, GotScan(P, P[i].ins[0].dst, P[i].ins[0].src, j, dead))
    ensures BareAhead(P, GotScan(P, P[i].ins[0].dst, P[i].ins[0].src, j, dead), i + 1)
    decreases |P| - j
  {
    var a, b := P[i].ins[0].dst, P[i].ins[0].src;
    hide *;
    GotScanStep(P, a, b, j, dead);
    if j < |P| {
      if ScanLoad(P, a, b, j, dead) {
        ScanLoadIs(P, a, b, j, dead);
        RepeatedLoad(P, i, j, dead);
        GotScanExplained(P, i, j + 1, dead[j := 1]);
      } else if ScanOver(P, a, j, dead) {
        HarmlessMore(P, dead, a, i, j);
        GotScanExplained(P, i, j + 1, dead);
      }
    }
  }

  /** The scan deletes line `j`. */
  ghost predicate ScanLoad(P: seq<Line>, a: Operand, b: Operand, j: nat, dead: seq<int>)
    requires |dead| == |P| && j < |P|
  {
    dead[j] == 0 && P[j].ins != [] && !Barrier(P[j]) && P[j].ins[0] == Mov(a, b)
  }

  lemma ScanLoadIs(P: seq<Line>, a: Operand, b: Operand, j: nat, dead: seq<int>)
    requires |dead| == |P| && j < |P| && ScanLoad(P, a, b, j, dead)
    ensures P[j].ins != [] && !Barrier(P[j]) && P[j].ins[0] == Mov(a, b)
  {
  }

  /** The scan passes over line `j`. */
  ghost predicate ScanOver(P: seq<Line>, a: Operand, j: nat, dead: seq<int>)
    requires |dead| == |P| && j < |P|
  {
    dead[j] != 0 || (P[j].ins == [] && P[j].tag.None?) || (P[j].ins != [] && !Barrier(P[j]) && !WritesReg(P[j].ins[0], a))
  }

  lemma GotScanStep(P: seq<Line>, a: Operand, b: Operand, j: nat, dead: seq<int>)
    requires |dead| == |P|
    ensures |GotScan(P, a, b, j, dead)| == |P| && GotScan(P, a, b, j, dead) == if j >= |P| then dead
                                         else if ScanLoad(P, a, b, j, dead) then GotScan(P, a, b, j + 1, dead[j := 1])
                                         else if ScanOver(P, a, j, dead) then GotScan(P, a, b, j + 1, dead)
                                         else dead
  {
  }

  /** What the scan passes over is harmless. */
  lemma HarmlessMore(P: seq<Line>, dead: seq<int>, a: Operand, i: nat, j: nat)
    requires |dead| == |P| && WellFormed(P) && BareAhead(P, dead, i + 1) && i < j < |P| && HarmlessTo(P, dead, a, i, j) && ScanOver(P, a, j, dead)
    ensures HarmlessTo(P, dead, a, i, j + 1)
  {
    assert Harmless(P, dead, a, j);
    hide Harmless, ScanOver;
  }

  lemma LocalAtExplained(P: seq<Line>, on: Rules, i: nat, dead: seq<int>)
    requires WellFormed(P) && Explained(P, dead) && i < |P| && BareAhead(P, dead, i)
    ensures Explained(P, LocalAt(P, on, i, dead)) && BareAhead(P, LocalAt(P, on, i, dead), i + 1)
  {
    if !(dead[i] != 0 || P[i].ins == [] || P[i].fused || !P[i].ins[0].Mov?) {
      var x := P[i].ins[0];
      if on.selfMov && x.dst == x.src {
        MarkKeepsReasons(P, dead, i);
      } else {
        var d := dead;
        if on.storeReload && x.dst.Mem? && ReloadOf(P, i).Some? {
          var j := ReloadOf(P, i).value;
          d := dead[j := 1];
          assert Link(P, d, i, j);
          MarkKeepsReasons(P, dead, j);
        }
        if on.gotCse && x.src.Got? { GotScanExplained(P, i, i + 1, d); }
      }
    }
  }

  lemma {:induction false} LocalExplained(P: seq<Line>, on: Rules, i: nat, dead: seq<int>)
    requires WellFormed(P) && Explained(P, dead) && BareAhead(P, dead, i)
    ensures Explained(P, LocalFrom(P, on, i, dead))
    decreases |P| - i
  {
    if i < |P| {
      LocalAtExplained(P, on, i, dead);
      LocalExplained(P, on, i + 1, LocalAt(P, on, i, dead));
    }
  }

  // ---------------------------------------------------------------- the machine sees no difference

  /** Wherever control stands between a linked pair, the first `mov`'s effect still holds. */
  ghost predicate LinkHolds(isa: Isa, P: seq<Line>, i: nat, st: State)
    requires i < |P| && |P[i].ins| == 1 && P[i].ins[0].Mov?
  {
    Value(isa, st, P[i].ins[0].dst) == Value(isa, st, P[i].ins[0].src)
  }

  ghost predicate LinksHold(isa: Isa, P: seq<Line>, dead: seq<int>, c: Config) {
    && |dead| == |P| && Valid(P, c)
    && (c.At? ==> forall i: nat, j: nat | Link(P, dead, i, j) && i < c.p <= j :: LinkHolds(isa, P, i, c.st))
  }

  lemma NoopMov(isa: Isa, x: Instr, st: State)
    requires x.Mov? && Value(isa, st, x.dst) == Value(isa, st, x.src)
    ensures Exec(isa, x, st) == st
  {
  }

  lemma DeadIsNoop(isa: Isa, P: seq<Line>, dead: seq<int>, c: Config)
    requires Explained(P, dead) && LinksHold(isa, P, dead, c) && c.At? && dead[c.p] != 0
    ensures c.k == 0 && Exec(isa, P[c.p].ins[0], c.st) == c.st
  {
    var x := P[c.p].ins[0];
    assert Reason(P, dead, c.p);
    if x.dst != x.src {
      var i: nat :| Link(P, dead, i, c.p);
      assert LinkHolds(isa, P, i, c.st);
    }
    NoopMov(isa, x, c.st);
  }

  lemma InsideIsPlain(P: seq<Line>, dead: seq<int>, i: nat, j: nat, p: nat)
    requires |dead| == |P| && Link(P, dead, i, j) && i < p <= j
    ensures P[p].tag.None?
    ensures Explained(P, dead) ==> P[p].ins == [] || (|P[p].ins| == 1 && !IsControl(P[p].ins[0]))
  {
    if p < j && P[i].ins[0].dst.Reg? { assert Harmless(P, dead, P[i].ins[0].dst, p); }
  }

  /** Control cannot drop into a linked pair other than by falling from line to line. */
  lemma EnteredFromInside(P: seq<Line>, dead: seq<int>, i: nat, j: nat, q: nat, st: State)
    requires |dead| == |P| && Link(P, dead, i, j) && q <= |P|
    requires Enter(P, q, st).At? && i < Enter(P, q, st).p <= j
    ensures i < q <= j && P[q].tag.None?
  {
    InsideIsPlain(P, dead, i, j, q);
  }

  lemma NotByLabel(P: seq<Line>, dead: seq<int>, i: nat, j: nat, t: string, st: State)
    requires |dead| == |P| && Link(P, dead, i, j) && Label(P, t, st).At?
    ensures !(i < Label(P, t, st).p <= j)
  {
    if i < Label(P, t, st).p <= j { EnteredFromInside(P, dead, i, j, Def(P, t).value, st); }
  }

  lemma NotPastControl(P: seq<Line>, dead: seq<int>, i: nat, j: nat, p: nat, k: nat, st: State)
    requires Explained(P, dead) && Link(P, dead, i, j) && Shape(P)
    requires p < |P| && k < |P[p].ins| && IsControl(P[p].ins[k]) && After(P, p, k, st).At?
    ensures !(i < After(P, p, k, st).p <= j)
  {
    if i < After(P, p, k, st).p <= j {
      if k + 1 < |P[p].ins| { InsideIsPlain(P, dead, i, j, p); } else { EnteredFromInside(P, dead, i, j, p + 1, st); }
      if i < p { InsideIsPlain(P, dead, i, j, p); }
    }
  }

  lemma ControlLandsOutside(isa: Isa, P: seq<Line>, dead: seq<int>, i: nat, j: nat, c: Config)
    requires Explained(P, dead) && Link(P, dead, i, j) && Shape(P)
    requires Valid(P, c) && c.At? && IsControl(P[c.p].ins[c.k]) && Step(isa, P, c).At?
    ensures !(i < Step(isa, P, c).p <= j)
  {
    var p, k, st := c.p, c.k, c.st;
    var x := P[p].ins[k];
    if x.Jmp? && Def(P, x.target).Some? {
      NotByLabel(P, dead, i, j, x.target, st);
    } else if x.Jcc? {
      if isa.cond(x.cond, st) { NotByLabel(P, dead, i, j, x.target, st); } else { NotPastControl(P, dead, i, j, p, k, st); }
    } else {
      var (s, d) := isa.transfer(x, P[p].id, k, st);
      match d
      case Next => if x.Call? { NotPastControl(P, dead, i, j, p, k, s); }
      case Goto(t) => NotByLabel(P, dead, i, j, t, s);
      case Back(id, n) => NotPastControl(P, dead, i, j, SiteFrom(P, id, 0).value, n, s);
      case Halt =>
    }
  }

  lemma MovEstablishes(isa: Isa, P: seq<Line>, dead: seq<int>, i: nat, j: nat, st: State)
    requires |dead| == |P| && Link(P, dead, i, j)
    ensures LinkHolds(isa, P, i, Exec(isa, P[i].ins[0], st))
  {
  }

  lemma HarmlessKeeps(isa: Isa, P: seq<Line>, i: nat, p: nat, k: nat, st: State)
    requires Honest(isa, P) && LoadsGot(P, i) && p < |P| && k < |P[p].ins|
    requires !IsControl(P[p].ins[k]) && !WritesReg(P[p].ins[k], P[i].ins[0].dst) && LinkHolds(isa, P, i, st)
    ensures LinkHolds(isa, P, i, Exec(isa, P[p].ins[k], st))
  {
    assert Leaves(isa, P[p].ins[k], P[i].ins[0].dst.name, isa.got(P[i].ins[0].src.sym));
  }

  lemma StepKeepsLink(isa: Isa, P: seq<Line>, dead: seq<int>, c: Config, i: nat, j: nat)
    requires Honest(isa, P) && Shape(P) && Explained(P, dead) && LinksHold(isa, P, dead, c) && Link(P, dead, i, j)
    requires c.At? && Step(isa, P, c).At? && i < Step(isa, P, c).p <= j
    ensures LinkHolds(isa, P, i, Step(isa, P, c).st)
  {
    var p, k, st := c.p, c.k, c.st;
    var x := P[p].ins[k];
    if IsControl(x) {
      ControlLandsOutside(isa, P, dead, i, j, c);
    } else {
      if k + 1 < |P[p].ins| { InsideIsPlain(P, dead, i, j, p); }
      EnteredFromInside(P, dead, i, j, p + 1, Exec(isa, x, st));
      if p == i {
        MovEstablishes(isa, P, dead, i, j, st);
      } else {
        assert LinkHolds(isa, P, i, st);
        assert Harmless(P, dead, P[i].ins[0].dst, p);
        if dead[p] != 0 { DeadIsNoop(isa, P, dead, c); } else { HarmlessKeeps(isa, P, i, p, k, st); }
      }
    }
  }

  lemma StepKeepsLinks(isa: Isa, P: seq<Line>, dead: seq<int>, c: Config)
    requires Honest(isa, P) && Shape(P) && Explained(P, dead) && LinksHold(isa, P, dead, c)
    ensures LinksHold(isa, P, dead, Step(isa, P, c))
  {
    var d := Step(isa, P, c);
    if c.At? && d.At? {
      forall i: nat, j: nat | Link(P, dead, i, j) && i < d.p <= j ensures LinkHolds(isa, P, i, d.st) {
        StepKeepsLink(isa, P, dead, c, i, j);
      }
    }
  }

  // ---------------------------------------------------------------- dead-jmp

  lemma {:induction false} NextLabelFound(P: seq<Line>, dead: seq<int>, j: nat)
    requires |dead| == |P| && LabelsOnce(P) && NextLabel(P, dead, j).Some?
    ensures Def(P, NextLabel(P, dead, j).value).Some?
    ensures SilentGap(P, dead, j, Def(P, NextLabel(P, dead, j).value).value)
    decreases |P| - j
  {
    if dead[j] == 0 && P[j].tag.Some? {
      assert Def(P, P[j].tag.value) == Some(j);
    } else {
      NextLabelFound(P, dead, j + 1);
    }
  }

  /** Marks only grow, every new one on a jump over a silent gap. */
  lemma {:induction false} DeadJmpsErasable(P: seq<Line>, on: Rules, i: nat, dead: seq<int>)
    requires |dead| == |P| && Shape(P) && LabelsOnce(P)
    requires forall p | 0 <= p < |P| && dead[p] != 0 :: dead[p] == 1 && Erasable(P, dead, p)
    ensures var d := DeadJmpFrom(P, on, i, dead);
            && (forall p | 0 <= p < |P| && d[p] != 0 :: d[p] == 1 && Erasable(P, d, p))
            && (forall p | 0 <= p < |P| && d[p] != dead[p] :: |P[p].ins| == 1 && P[p].ins[0].Jmp?)
    decreases |P| - i
  {
    if i < |P| {
      DeadJmpErasable(P, on, i, dead);
      var d1, d := DeadJmpAt(P, on, i, dead), DeadJmpFrom(P, on, i, dead);
      assert d == DeadJmpFrom(P, on, i + 1, d1);
      hide *;
      DeadJmpsErasable(P, on, i + 1, d1);
      forall p | 0 <= p < |P| && d[p] != dead[p] ensures |P[p].ins| == 1 && P[p].ins[0].Jmp? { assert d[p] != d1[p] || d1[p] != dead[p]; }
    } else {
      hide Erasable, Shape, LabelsOnce;
      assert DeadJmpFrom(P, on, i, dead) == dead;
    }
  }

  lemma MoreErasable(P: seq<Line>, dead: seq<int>, d: seq<int>, p: nat)
    requires |d| == |dead| == |P| && p < |P| && Erasable(P, dead, p) && forall x | 0 <= x < |P| && dead[x] != 0 :: d[x] != 0
    ensures Erasable(P, d, p)
  {
    hide DefFrom;
  }

  /** One jump over a silent gap. */
  lemma DeadJmpErasable(P: seq<Line>, on: Rules, i: nat, dead: seq<int>)
    requires |dead| == |P| && Shape(P) && LabelsOnce(P) && i < |P|
    requires forall p | 0 <= p < |P| && dead[p] != 0 :: dead[p] == 1 && Erasable(P, dead, p)
    ensures var d := DeadJmpAt(P, on, i, dead);
            && (forall p | 0 <= p < |P| && d[p] != 0 :: d[p] == 1 && Erasable(P, d, p))
            && (forall p | 0 <= p < |P| && d[p] != dead[p] :: |P[p].ins| == 1 && P[p].ins[0].Jmp?)
  {
    var d := DeadJmpAt(P, on, i, dead);
    if d != dead {
      NextLabelFound(P, dead, i + 1);
      JumpErasable(P, dead, d, i);
      hide Erasable, Shape, LabelsOnce, NextLabel;
      forall p | 0 <= p < |P| && d[p] != 0 ensures Erasable(P, d, p) {
        if p != i { MoreErasable(P, dead, d, p); }
      }
    }
  }

  lemma JumpErasable(P: seq<Line>, dead: seq<int>, d: seq<int>, i: nat)
    requires |d| == |dead| == |P| && Shape(P) && i < |P| && P[i].ins != [] && !P[i].fused && P[i].ins[0].Jmp? && d == dead[i := 1]
    requires Def(P, P[i].ins[0].target).Some? && SilentGap(P, dead, i + 1, Def(P, P[i].ins[0].target).value)
    ensures Erasable(P, d, i) && |P[i].ins| == 1
  {
    hide DefFrom;
  }

  /** The marks of the local rules, with a reason for each, inside the final marks. */
  lemma {:induction false} MarksExplained(isa: Isa, P: seq<Line>, on: Rules) returns (dead: seq<int>)
    requires WellFormed(P)
    ensures Explained(P, dead) && EraseOk(isa, P, Deleted(P, on))
    ensures forall p | 0 <= p < |P| && Deleted(P, on)[p] != 0 && P[p].ins != [] && P[p].ins[0].Mov? :: dead[p] != 0
    ensures forall p | 0 <= p < |P| :: Deleted(P, on)[p] in {0, 1}
  {
    dead := LocalMarked(P, on);
    var d := Deleted(P, on);
    hide *;
    DeadJmpsErasable(P, on, 0, dead);
    assert forall p | 0 <= p < |P| && d[p] != 0 && P[p].ins != [] && P[p].ins[0].Mov? :: dead[p] != 0;
    ErasableOk(isa, P, d);
  }

  /** The marks of the local rules are explained, and the final ones are made from them. */
  lemma LocalMarked(P: seq<Line>, on: Rules) returns (dead: seq<int>)
    requires WellFormed(P)
    ensures Explained(P, dead) && |dead| == |P| && Shape(P) && LabelsOnce(P)
    ensures forall p | 0 <= p < |P| && dead[p] != 0 :: dead[p] == 1 && Erasable(P, dead, p)
    ensures |Deleted(P, on)| == |P| && Deleted(P, on) == DeadJmpFrom(P, on, 0, dead)
  {
    var none := seq(|P|, _ => 0);
    dead := LocalFrom(P, on, 0, none);
    hide LocalFrom, DeadJmpFrom, Reason;
    LocalExplained(P, on, 0, none);
  }

  lemma ErasableOk(isa: Isa, P: seq<Line>, d: seq<int>)
    requires |d| == |P| && Shape(P) && LabelsOnce(P)
    requires forall p | 0 <= p < |P| && d[p] != 0 :: d[p] == 1 && Erasable(P, d, p)
    ensures EraseOk(isa, P, d)
    ensures forall p | 0 <= p < |P| :: d[p] in {0, 1}
  {
    hide Erasable, Live;
  }

  /** For every program and every choice of rules, writing the program out without the lines the
      rules delete leaves every execution unchanged up to stuttering and every label in place. */
  lemma {:induction false} DeletionsPreserveMeaning(isa: Isa, P: seq<Line>, on: Rules)
    requires Honest(isa, P) && WellFormed(P)
    ensures SameBehaviour(isa, P, Output(P, Start(Deleted(P, on))))
    ensures forall t :: Def(P, t).Some? <==> Def(Output(P, Start(Deleted(P, on))), t).Some?
  {
    var dead := MarksExplained(isa, P, on);
    var d := Deleted(P, on);
    var Q, m := Output(P, Start(d)), EraseCorr(P, d);
    forall t ensures Def(P, t).Some? <==> Def(Q, t).Some? {
      LabelSurvives(P, d, t);
      assert Def(P, t).Some? ==> d[Def(P, t).value] in {0, 1};
    }
    EraseSimulates(isa, P, d);
    hide Deleted, Output, Step, Exec, Honest, SameBehaviour, Explained, EraseOk, Simulates, Label;
    var inv := (c: Config) => LinksHold(isa, P, dead, c);
    forall c | inv(c) ensures Valid(P, c) && Quiet(isa, P, m, c) && inv(Step(isa, P, c)) {
      StepKeepsLinks(isa, P, dead, c);
      if c.At? && c.p in m.del && P[c.p].ins[c.k].Mov? { DeletedMovQuiet(isa, P, dead, d, c); }
    }
    forall t, st | t in isa.taken ensures inv(Label(P, t, st)) { LinksHoldAtLabel(isa, P, dead, t, st); }
    SimulationSame(isa, P, Q, m, inv);
  }

  lemma DeletedMovQuiet(isa: Isa, P: seq<Line>, dead: seq<int>, d: seq<int>, c: Config)
    requires Shape(P) && Explained(P, dead) && LinksHold(isa, P, dead, c) && |d| == |P|
    requires forall p | 0 <= p < |P| && d[p] != 0 && P[p].ins != [] && P[p].ins[0].Mov? :: dead[p] != 0
    requires forall p | 0 <= p < |P| && d[p] != 0 :: |P[p].ins| <= 1
    requires c.At? && c.p in Erased(P, d) && P[c.p].ins[c.k].Mov?
    ensures Exec(isa, P[c.p].ins[c.k], c.st) == c.st
  {
    DeadIsNoop(isa, P, dead, c);
  }

  lemma LinksHoldAtLabel(isa: Isa, P: seq<Line>, dead: seq<int>, t: string, st: State)
    requires Explained(P, dead)
    ensures LinksHold(isa, P, dead, Label(P, t, st))
  {
    if Label(P, t, st).At? {
      forall i: nat, j: nat | Link(P, dead, i, j) ensures !(i < Label(P, t, st).p <= j) { NotByLabel(P, dead, i, j, t, st); }
    }
  }
}
