/** The whole tool: when its output means what its input meant, and when it does not. */
module PeepTool {
  import opened Common
  import opened PeepSyntax
  import opened PeepMachine
  import opened PeepErase
  import opened PeepDeletion
  import opened PeepRelocate
  import opened PeepInline
  import opened PeepLeads

  lemma {:induction false} FreshLines(P: seq<Line>, dead: seq<int>, a: nat, f: Line)
    requires |dead| == |P| && a <= |P| && f in Out(P, Start(dead), a, |P|) && f.ins != []
    ensures RawLine(P, Start(dead), f)
    decreases |P| - a
  {
    if f !in Chunk(P, Start(dead), a) { FreshLines(P, dead, a + 1, f); } else { assert P[a] == f; }
  }

  lemma StartOk(P: seq<Line>, dead: seq<int>)
    requires |dead| == |P| && Accountable(P)
    ensures WorkOk(P, Start(dead), 0)
  {
    OutputAccountable(P, dead);
    forall f | f in Output(P, Start(dead)) && f.ins != [] ensures RawLine(P, Start(dead), f) { FreshLines(P, dead, 0, f); }
  }

  /** For every program and choice of rules: if each block the tool moves is clean, every execution
      entered at a label whose address is held is the same before and after, up to stuttering. */
  lemma {:induction false} ToolPreservesMeaning(isa: Isa, P: seq<Line>, on: Rules)
    requires Honest(isa, P) && WellFormed(P) && Mentions(P) && Exposed(isa, P)
    requires on.inlineOnce ==> CleanFrom(P, 0, Start(Deleted(P, on)))
    ensures SameBehaviour(isa, P, Peep(P, on))
  {
    var w := Start(Deleted(P, on));
    DeletionsPreserveMeaning(isa, P, on);
    if on.inlineOnce {
      StartOk(P, Deleted(P, on));
      PassPreservesMeaning(isa, P, 0, w);
      SameTransitive(isa, P, Output(P, w), Peep(P, on));
    }
  }

  // ---------------------------------------------------------------- exactly when a step loses nothing

  /** Every instruction line but the jump, and every label but the block's, is still written. */
  ghost predicate Conserves(F: seq<Line>, G: seq<Line>, J: Line, t: string) {
    && (forall f | f in F && f.ins != [] && f != J :: f in G)
    && (forall f | f in F && f.tag.Some? && f.tag != Some(t) :: exists g :: g in G && g.tag == f.tag)
  }

  /** A line the block holds reaches the output only through the copy. */
  lemma LostUnlessCopied(P: seq<Line>, w: Work, i: nat, d: nat, e: nat, j: nat, f: Line)
    requires WorkOk(P, w, i) && Chosen(P, w, i, d, e) && Target(P, w, i) == Some((d, e))
    requires d <= j <= e && f in Chunk(P, w, j) && !(w.dead[j] == 0 && !w.blank[j])
    ensures f in Output(P, w) && f !in Output(P, InlineAt(P, w, i))
  {
    hide Out, Target, Copied, Refs, PrevEnds;
    var v := InlineAt(P, w, i);
    ChunkInOut(P, w, 0, |P|, j, f);
    if f in Output(P, v) {
      var x := InOut(P, v, 0, |P|, f);
      if x == i {
        InCopied(P, w, d, e + 1, f);
        x :| d <= x < e + 1 && w.dead[x] == 0 && !w.blank[x] && P[x] == f;
      }
      WrittenTwice(P, w, x, j, f);
    }
  }

  /** A label that only an unwritten line carried is gone. */
  lemma LabelLost(P: seq<Line>, w: Work, i: nat, d: nat, e: nat, f: Line)
    requires Shape(P) && WorkOk(P, w, i) && Chosen(P, w, i, d, e) && Target(P, w, i) == Some((d, e))
    requires f in Output(P, w) && f !in Output(P, InlineAt(P, w, i)) && f.tag.Some? && f.id != P[d].id && !w.blank[d]
    ensures !Conserves(Output(P, w), Output(P, InlineAt(P, w, i)), P[i], P[i].ins[0].target)
  {
    var F, G := Output(P, w), Output(P, InlineAt(P, w, i));
    ChunkInOut(P, w, 0, |P|, d, P[d]);
    if f.tag == P[d].tag { SameTagSameLine(F, f, P[d]); }
    forall g | g in G ensures g.tag != f.tag {
      StillWritten(P, w, i, d, e, g);
      if g.tag == f.tag { SameTagSameLine(F, f, g); }
    }
  }

  lemma NoSpliceInBlock(P: seq<Line>, w: Work, i: nat, d: nat, e: nat, j: nat)
    requires WorkOk(P, w, i) && Chosen(P, w, i, d, e) && Target(P, w, i) == Some((d, e))
    requires Conserves(Output(P, w), Output(P, InlineAt(P, w, i)), P[i], P[i].ins[0].target)
    requires d <= j <= e && w.dead[j] == 0
    ensures !w.blank[j]
  {
    if w.blank[j] {
      var s := w.splice[j].value;
      LostUnlessCopied(P, w, i, d, e, j, s[|s| - 1]);
      if s[|s| - 1] == P[i] { WrittenTwice(P, w, i, j, P[i]); }
    }
  }

  lemma NoLabelInBlock(P: seq<Line>, w: Work, i: nat, d: nat, e: nat, j: nat)
    requires Shape(P) && WorkOk(P, w, i) && Chosen(P, w, i, d, e) && Target(P, w, i) == Some((d, e))
    requires Conserves(Output(P, w), Output(P, InlineAt(P, w, i)), P[i], P[i].ins[0].target)
    requires d <= j <= e && w.dead[j] == 1
    ensures P[j].tag.None?
  {
    if P[j].tag.Some? {
      NoSpliceInBlock(P, w, i, d, e, d);
      LostUnlessCopied(P, w, i, d, e, j, LabelOnly(P[j]));
      LabelLost(P, w, i, d, e, LabelOnly(P[j]));
    }
  }

  lemma JumpUntagged(P: seq<Line>, w: Work, i: nat, d: nat, e: nat)
    requires Shape(P) && WorkOk(P, w, i) && Chosen(P, w, i, d, e) && Target(P, w, i) == Some((d, e))
    requires Conserves(Output(P, w), Output(P, InlineAt(P, w, i)), P[i], P[i].ins[0].target)
    ensures P[i].tag.None?
  {
    if P[i].tag.Some? {
      NoSpliceInBlock(P, w, i, d, e, d);
      JumpGone(P, w, i, d, e);
      ChunkInOut(P, w, 0, |P|, i, P[i]);
      LabelLost(P, w, i, d, e, P[i]);
    }
  }

  /** Away from the block and the jump, lines are written as before. */
  lemma CleanConserves(P: seq<Line>, w: Work, i: nat, d: nat, e: nat)
    requires Shape(P) && WorkOk(P, w, i) && Chosen(P, w, i, d, e) && Target(P, w, i) == Some((d, e)) && !(d <= i <= e)
    requires P[i].tag.None? && Plain(P, w, d, e + 1)
    ensures Conserves(Output(P, w), Output(P, InlineAt(P, w, i)), P[i], P[i].ins[0].target)
  {
    hide Out, Target, Copied, Refs, PrevEnds;
    var v := InlineAt(P, w, i);
    var F, G, t := Output(P, w), Output(P, v), P[i].ins[0].target;
    forall f | f in F && ((f.ins != [] && f != P[i]) || (f.tag.Some? && f.tag != Some(t))) ensures f in G {
      var x := InOut(P, w, 0, |P|, f);
      if d <= x <= e {
        assert f == P[x] && w.dead[x] == 0;
        IntoCopy(P, w, d, e + 1, x);
        ChunkInOut(P, v, 0, |P|, i, f);
      } else {
        assert x != i;
        ChunkInOut(P, v, 0, |P|, x, f);
      }
    }
  }

  lemma {:induction false} IntoCopy(P: seq<Line>, w: Work, a: nat, b: nat, x: nat)
    requires Fits(P, w) && a <= x < b <= |P| && w.dead[x] == 0 && !w.blank[x] && P[x].ins != []
    ensures P[x] in Copied(P, w, a, b)
    decreases b - a
  {
    if a < x { IntoCopy(P, w, a + 1, b, x); }
  }

  /** A jump that closes its own block has nothing to run before it there. */
  ghost predicate LoopIdle(P: seq<Line>, dead: seq<int>, i: nat, d: nat, e: nat)
    requires |dead| == |P|
  {
    d <= i <= e ==> SilentGap(P, dead, d, i)
  }

  /** What runs before such a jump goes with the block. */
  lemma LoopLoses(P: seq<Line>, w: Work, i: nat, d: nat, e: nat, x: nat)
    requires WorkOk(P, w, i) && Chosen(P, w, i, d, e) && Target(P, w, i) == Some((d, e)) && d <= x < i == e
    requires w.dead[x] == 0 && !w.blank[x] && P[x].ins != []
    ensures !Conserves(Output(P, w), Output(P, InlineAt(P, w, i)), P[i], P[i].ins[0].target)
  {
    hide Out, Target, Copied, Refs, PrevEnds;
    var v, f := InlineAt(P, w, i), P[x];
    ChunkInOut(P, w, 0, |P|, x, f);
    if f == P[i] { WrittenTwice(P, w, i, x, f); }
    if f in Output(P, v) {
      var y := InOut(P, v, 0, |P|, f);
      WrittenTwice(P, w, x, y, f);
    }
  }

  /** A jump that closes its own idle block loses nothing but itself and the block's label. */
  lemma LoopConserves(P: seq<Line>, w: Work, i: nat, d: nat)
    requires Shape(P) && WorkOk(P, w, i) && Chosen(P, w, i, d, i) && Target(P, w, i) == Some((d, i))
    requires P[i].tag.None? && Plain(P, w, d, i + 1) && SilentGap(P, w.dead, d, i)
    ensures Conserves(Output(P, w), Output(P, InlineAt(P, w, i)), P[i], P[i].ins[0].target)
  {
    hide Out, Target, Copied, Refs, PrevEnds;
    var v := InlineAt(P, w, i);
    var F, G, t := Output(P, w), Output(P, v), P[i].ins[0].target;
    forall f | f in F && ((f.ins != [] && f != P[i]) || (f.tag.Some? && f.tag != Some(t))) ensures f in G {
      var x := InOut(P, w, 0, |P|, f);
      assert !(d <= x <= i);
      ChunkInOut(P, v, 0, |P|, x, f);
    }
  }

  lemma ConservesNeeds(P: seq<Line>, w: Work, i: nat, d: nat, e: nat)
    requires Shape(P) && WorkOk(P, w, i) && Chosen(P, w, i, d, e) && Target(P, w, i) == Some((d, e))
    requires Conserves(Output(P, w), Output(P, InlineAt(P, w, i)), P[i], P[i].ins[0].target)
    ensures P[i].tag.None? && Plain(P, w, d, e + 1) && LoopIdle(P, w.dead, i, d, e)
  {
    JumpUntagged(P, w, i, d, e);
    forall j | d <= j <= e ensures (w.dead[j] == 0 ==> !w.blank[j]) && (w.dead[j] == 1 ==> P[j].tag.None?) {
      if w.dead[j] == 0 { NoSpliceInBlock(P, w, i, d, e, j); }
      if w.dead[j] == 1 { NoLabelInBlock(P, w, i, d, e, j); }
    }
    if d <= i <= e {
      forall x | d <= x < i ensures w.dead[x] != 0 || P[x].ins == [] {
        if w.dead[x] == 0 && P[x].ins != [] { LoopLoses(P, w, i, d, e, x); }
      }
    }
  }

  /** A step loses no instruction and no label but the block's own exactly when the jump's line has no label,
      nothing in the block was spliced into or survives as a bare label, and nothing in a block that the jump
      closes itself runs before it. */
  lemma {:induction false} StepConservesExactly(P: seq<Line>, w: Work, i: nat, d: nat, e: nat)
    requires Shape(P) && WorkOk(P, w, i) && i < |P| && Target(P, w, i) == Some((d, e))
    ensures Conserves(Output(P, w), Output(P, InlineAt(P, w, i)), P[i], P[i].ins[0].target)
            <==> P[i].tag.None? && Plain(P, w, d, e + 1) && LoopIdle(P, w.dead, i, d, e)
  {
    TargetIsChosen(P, w, i);
    hide Conserves, Output, InlineAt, Target, Plain;
    if Conserves(Output(P, w), Output(P, InlineAt(P, w, i)), P[i], P[i].ins[0].target) { ConservesNeeds(P, w, i, d, e); }
    if P[i].tag.None? && Plain(P, w, d, e + 1) && LoopIdle(P, w.dead, i, d, e) {
      if d <= i <= e { LoopConserves(P, w, i, d); } else { CleanConserves(P, w, i, d, e); }
    }
  }

  /** A step loses neither text nor the way any label but the block's own leads exactly when it is clean and, if
      the jump closes its own block, nothing there runs before it. What does is out of reach and is dropped. */
  lemma {:induction false} StepKeepsExactly(P: seq<Line>, w: Work, i: nat, d: nat, e: nat)
    requires Shape(P) && WorkOk(P, w, i) && i < |P| && Target(P, w, i) == Some((d, e))
    ensures var F, G, c := Output(P, w), Output(P, InlineAt(P, w, i)), Copied(P, w, d, e + 1);
            Conserves(F, G, P[i], P[i].ins[0].target) && c != [] && KeepsLeads(F, G, P[i].ins[0].target, P[i].id, c[0].id)
            <==> Clean(P, w, i, d, e) && LoopIdle(P, w.dead, i, d, e)
  {
    StepConservesExactly(P, w, i, d, e);
    hide Shape, WorkOk, Target, Plain, LabelsStay, Conserves, KeepsLeads, Output, Copied, LoopIdle;
    if P[i].tag.None? && Plain(P, w, d, e + 1) { StepLeadsExactly(P, w, i, d, e); }
  }
}
