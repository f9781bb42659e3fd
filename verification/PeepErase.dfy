/** Writing a program out without its deleted lines preserves its meaning. */
module PeepErase {
  import opened Common
  import opened PeepSyntax
  import opened PeepMachine
  import opened PeepSimulation

  /** From `p` to `d` nothing survives that would execute. */
  ghost predicate SilentGap(P: seq<Line>, dead: seq<int>, p: nat, d: nat)
    requires |dead| == |P|
  {
    p <= d <= |P| && forall x | p <= x < d :: dead[x] != 0 || P[x].ins == []
  }

  /** A deleted line held nothing, or a `mov`, or a jump over nothing. */
  ghost predicate Erasable(P: seq<Line>, dead: seq<int>, p: nat)
    requires |dead| == |P| && p < |P|
  {
    || P[p].ins == []
    || (|P[p].ins| == 1 && P[p].ins[0].Mov?)
    || (|P[p].ins| == 1 && P[p].ins[0].Jmp? && match Def(P, P[p].ins[0].target)
                                              case None => false
                                              case Some(d) => p < d && SilentGap(P, dead, p + 1, d))
  }

  ghost function Erased(P: seq<Line>, dead: seq<int>): set<nat>
    requires |dead| == |P|
  {
    set p: nat | p < |P| && dead[p] != 0 && P[p].ins != []
  }

  ghost predicate EraseOk(isa: Isa, P: seq<Line>, dead: seq<int>) {
    && |dead| == |P| && IdsOnce(P) && LabelsOnce(P)
    && (forall p | 0 <= p < |P| && dead[p] != 0 :: Erasable(P, dead, p))
    && (forall p | 0 <= p < |P| && P[p].tag.Some? && dead[p] != 0 && dead[p] != 1 :: !Live(isa, P, Erased(P, dead), P[p].tag.value))
  }

  function Offset(P: seq<Line>, w: Work, p: nat): nat
    requires Fits(P, w) && p <= |P|
  {
    |Out(P, w, 0, p)|
  }

  ghost function EraseCorr(P: seq<Line>, dead: seq<int>): Corr
    requires |dead| == |P|
  {
    Corr(seq(|P| + 1, p requires 0 <= p <= |P| => Offset(P, Start(dead), p)), Erased(P, dead), seq(|P|, p requires 0 <= p < |P| => |P| - p))
  }

  lemma {:induction false} OutSplit(P: seq<Line>, w: Work, a: nat, b: nat, c: nat)
    requires Fits(P, w) && a <= b <= c <= |P|
    ensures Out(P, w, a, c) == Out(P, w, a, b) + Out(P, w, b, c)
    decreases b - a
  {
    if a < b { OutSplit(P, w, a + 1, b, c); }
  }

  lemma OutSnoc(P: seq<Line>, w: Work, a: nat, b: nat)
    requires Fits(P, w) && a < b <= |P|
    ensures Out(P, w, a, b) == Out(P, w, a, b - 1) + Chunk(P, w, b - 1)
  {
    OutSplit(P, w, a, b - 1, b);
    assert Out(P, w, b - 1, b) == Chunk(P, w, b - 1) + Out(P, w, b, b);
  }

  /** Line `p`'s output sits at its offset. */
  lemma OutAt(P: seq<Line>, w: Work, p: nat)
    requires Fits(P, w) && p < |P|
    ensures Offset(P, w, p + 1) == Offset(P, w, p) + |Chunk(P, w, p)| <= |Output(P, w)|
    ensures Output(P, w)[Offset(P, w, p)..Offset(P, w, p + 1)] == Chunk(P, w, p)
  {
    OutSplit(P, w, 0, p, |P|);
    OutSplit(P, w, 0, p, p + 1);
    assert Out(P, w, p, p + 1) == Chunk(P, w, p) + Out(P, w, p + 1, p + 1);
  }

  lemma {:induction false} OffsetMonotone(P: seq<Line>, w: Work, a: nat, b: nat)
    requires Fits(P, w) && a <= b <= |P|
    ensures Offset(P, w, a) <= Offset(P, w, b) <= |Output(P, w)|
  {
    OutSplit(P, w, 0, a, b);
    OutSplit(P, w, 0, b, |P|);
  }

  /** The input line that output line `q` comes from. */
  lemma {:induction false} Origins(P: seq<Line>, dead: seq<int>, q: nat, hi: nat) returns (p: nat)
    requires |dead| == |P| && hi <= |P| && q < Offset(P, Start(dead), hi)
    ensures p < hi && Chunk(P, Start(dead), p) != [] && Offset(P, Start(dead), p) == q
    ensures q < |Output(P, Start(dead))| && Output(P, Start(dead))[q] == Chunk(P, Start(dead), p)[0]
  {
    var w := Start(dead);
    OutAt(P, w, hi - 1);
    if q < Offset(P, w, hi - 1) {
      p := Origins(P, dead, q, hi - 1);
    } else {
      p := hi - 1;
      assert Output(P, w)[q] == Output(P, w)[Offset(P, w, p)..Offset(P, w, p + 1)][0];
    }
  }

  lemma {:induction false} SeekSkip(P: seq<Line>, a: nat, b: nat)
    requires a <= b <= |P| && forall x | a <= x < b :: P[x].ins == []
    ensures Seek(P, a) == Seek(P, b)
    decreases b - a
  {
    if a < b { SeekSkip(P, a + 1, b); }
  }

  lemma {:induction false} GapSilent(P: seq<Line>, dead: seq<int>, a: nat, b: nat)
    requires |dead| == |P| && SilentGap(P, dead, a, b)
    ensures Offset(P, Start(dead), a) <= Offset(P, Start(dead), b) <= |Output(P, Start(dead))|
    ensures Seek(Output(P, Start(dead)), Offset(P, Start(dead), a)) == Seek(Output(P, Start(dead)), Offset(P, Start(dead), b))
    decreases b - a
  {
    var w := Start(dead);
    OffsetMonotone(P, w, a, b);
    if a < b {
      GapSilent(P, dead, a + 1, b);
      OutAt(P, w, a);
      forall x | Offset(P, w, a) <= x < Offset(P, w, a + 1) ensures Output(P, w)[x].ins == [] {
        assert Output(P, w)[x] == Output(P, w)[Offset(P, w, a)..Offset(P, w, a + 1)][x - Offset(P, w, a)];
      }
      SeekSkip(Output(P, w), Offset(P, w, a), Offset(P, w, a + 1));
    }
  }

  lemma OutputIdsOnce(P: seq<Line>, dead: seq<int>)
    requires |dead| == |P| && IdsOnce(P)
    ensures IdsOnce(Output(P, Start(dead)))
  {
    var Q := Output(P, Start(dead));
    forall x, y | 0 <= x < y < |Q| ensures Q[x].id != Q[y].id {
      var p := Origins(P, dead, x, |P|);
      var r := Origins(P, dead, y, |P|);
    }
  }

  lemma SurvivorAt(P: seq<Line>, dead: seq<int>, p: nat)
    requires |dead| == |P| && p < |P| && Chunk(P, Start(dead), p) != []
    ensures Offset(P, Start(dead), p + 1) == Offset(P, Start(dead), p) + 1
    ensures Offset(P, Start(dead), p) < |Output(P, Start(dead))|
    ensures Output(P, Start(dead))[Offset(P, Start(dead), p)] == Chunk(P, Start(dead), p)[0]
  {
    var w := Start(dead);
    OutAt(P, w, p);
    assert Output(P, w)[Offset(P, w, p)] == Output(P, w)[Offset(P, w, p)..Offset(P, w, p + 1)][0];
  }

  /** A surviving label is defined once in the output, at the offset of its line. */
  lemma {:induction false} LabelSurvives(P: seq<Line>, dead: seq<int>, t: string)
    requires |dead| == |P| && LabelsOnce(P)
    ensures match Def(P, t)
            case None => Def(Output(P, Start(dead)), t) == None
            case Some(d) => dead[d] == 0 || dead[d] == 1 ==> Def(Output(P, Start(dead)), t) == Some(Offset(P, Start(dead), d))
  {
    var w := Start(dead);
    var Q := Output(P, w);
    if Def(Q, t).Some? {
      var p := Origins(P, dead, Def(Q, t).value, |P|);
      assert P[p].tag == Some(t);
      assert Def(P, t) == Some(p);
    } else if Def(P, t).Some? {
      var d := Def(P, t).value;
      if dead[d] == 0 || dead[d] == 1 { SurvivorAt(P, dead, d); }
    }
  }

  lemma EraseKept(P: seq<Line>, dead: seq<int>, p: nat)
    requires |dead| == |P| && p < |P| && dead[p] == 0 && P[p].ins != []
    ensures KeptOk(P, Output(P, Start(dead)), EraseCorr(P, dead).phi, p)
  {
    SurvivorAt(P, dead, p);
    GapSilent(P, dead, p + 1, Seek(P, p + 1));
  }

  lemma EraseDeleted(isa: Isa, P: seq<Line>, dead: seq<int>, p: nat)
    requires EraseOk(isa, P, dead) && p in Erased(P, dead)
    ensures DeletedOk(P, Output(P, Start(dead)), EraseCorr(P, dead), p)
  {
    assert Erasable(P, dead, p);
    var n := Onward(P, p);
    var d := if P[p].ins[0].Jmp? then Def(P, P[p].ins[0].target).value else p + 1;
    assert n == Seek(P, d);
    GapSilent(P, dead, p, n);
  }

  lemma EraseLabel(isa: Isa, P: seq<Line>, dead: seq<int>, t: string)
    requires EraseOk(isa, P, dead) && Live(isa, P, Erased(P, dead), t)
    ensures LabelOk(P, Output(P, Start(dead)), EraseCorr(P, dead).phi, t)
  {
    LabelSurvives(P, dead, t);
    if Def(P, t).Some? { GapSilent(P, dead, Def(P, t).value, Seek(P, Def(P, t).value)); }
  }

  lemma {:induction false} EraseSimulates(isa: Isa, P: seq<Line>, dead: seq<int>)
    requires EraseOk(isa, P, dead)
    ensures Simulates(isa, P, Output(P, Start(dead)), EraseCorr(P, dead))
  {
    var w := Start(dead);
    var Q, m := Output(P, w), EraseCorr(P, dead);
    OutputIdsOnce(P, dead);
    forall p | Kept(P, m, p) ensures KeptOk(P, Q, m.phi, p) { EraseKept(P, dead, p); }
    forall p | p in m.del ensures DeletedOk(P, Q, m, p) { EraseDeleted(isa, P, dead, p); }
    forall t | Live(isa, P, m.del, t) ensures LabelOk(P, Q, m.phi, t) { EraseLabel(isa, P, dead, t); }
    forall q | 0 <= q < |Q| && HasCall(Q[q].ins) ensures Origin(P, m, q) {
      var p := Origins(P, dead, q, |P|);
      assert Kept(P, m, p) && m.phi[p] == q;
    }
    assert Seek(Q, |Q|) == |Q|;
  }
}
