/** Moving a block that is named once to the jump that names it. */
module PeepInline {
  import opened Common
  import opened PeepSyntax
  import opened PeepMachine
  import opened PeepSimulation
  import opened PeepErase
  import opened PeepRelocate
  import opened Stutter

  /** A line that is one jump and nothing else. */
  predicate Lone(l: Line) { !l.fused && |l.ins| == 1 && l.ins[0].Jmp? }

  /** The raw text of a line spells out the labels its jumps name. */
  ghost predicate Mentions(P: seq<Line>) {
    forall p, k | 0 <= p < |P| && 0 <= k < |P[p].ins| && (P[p].ins[k].Jmp? || P[p].ins[k].Jcc?) :: P[p].ins[k].target in P[p].words
  }

  /** An address can be held only of a label that some line names otherwise than by a lone jump. */
  ghost predicate Exposed(isa: Isa, P: seq<Line>) {
    forall t | t in isa.taken :: exists x :: 0 <= x < |P| && t in P[x].words && !Lone(P[x])
  }

  ghost predicate ClosesFlow(l: Line) { l.ins != [] && l.ins[|l.ins| - 1].Jmp? }

  ghost predicate Capped(S: seq<Line>) { S != [] && ClosesFlow(S[|S| - 1]) }

  ghost predicate RawLine(P: seq<Line>, w: Work, f: Line)
    requires Fits(P, w)
  {
    exists x :: 0 <= x < |P| && !w.blank[x] && P[x] == f
  }

  /** What holds of the working arrays when the scan stands at line `i`. */
  ghost predicate WorkOk(P: seq<Line>, w: Work, i: nat) {
    && Fits(P, w)
    && Accountable(Output(P, w))
    && (forall x | 0 <= x < |P| :: w.blank[x] == w.splice[x].Some?)
    && (forall x | 0 <= x < |P| && w.blank[x] :: x < i && Lone(P[x]) && Capped(w.splice[x].value))
    && (forall f | f in Output(P, w) && f.ins != [] :: RawLine(P, w, f))
  }

  /** Between the jump or return that closes the flow and line `d`, no label is written. */
  ghost predicate NoLabelAbove(P: seq<Line>, dead: seq<int>, d: nat)
    requires |dead| == |P| && d <= |P|
  {
    d == 0 || (if dead[d - 1] != 0 || P[d - 1].ins == []
               then (dead[d - 1] in {0, 1} ==> P[d - 1].tag.None?) && NoLabelAbove(P, dead, d - 1)
               else true)
  }

  /** Nothing in the block is written other than as its own raw line. */
  ghost predicate Plain(P: seq<Line>, w: Work, lo: nat, hi: nat)
    requires Fits(P, w) && hi <= |P|
  {
    forall j | lo <= j < hi :: (w.dead[j] == 0 ==> !w.blank[j]) && (w.dead[j] == 1 ==> P[j].tag.None?)
  }

  /** No label above the block leads elsewhere once the block is gone: there is none, or the block goes
      down over lines that hold nothing. */
  ghost predicate LabelsStay(P: seq<Line>, dead: seq<int>, i: nat, d: nat, e: nat)
    requires |dead| == |P| && i < |P| && d <= e < |P|
  {
    NoLabelAbove(P, dead, d) || (e < i && SilentGap(P, dead, e + 1, i))
  }

  /** When the step keeps its promise: the jump's own line has no label to lose, the block holds no
      text the copy misses, and every label above the block still leads into it. */
  ghost predicate Clean(P: seq<Line>, w: Work, i: nat, d: nat, e: nat)
    requires Fits(P, w) && i < |P| && d <= e < |P|
  {
    P[i].tag.None? && Plain(P, w, d, e + 1) && LabelsStay(P, w.dead, i, d, e)
  }

  // ---------------------------------------------------------------- what the guards establish

  lemma CountIn(words: seq<string>, t: string)
    requires t in words
    ensures Count(words, t) >= 1
  {
    if words[0] != t { CountIn(words[1..], t); }
  }

  lemma {:induction false} RefsOf(P: seq<Line>, blank: seq<bool>, t: string, j: nat, x: nat)
    requires |blank| == |P| && j <= x < |P| && !blank[x]
    ensures Refs(P, blank, t, j) >= Count(P[x].words, t)
    decreases x - j
  {
    if j < x { RefsOf(P, blank, t, j + 1, x); }
  }

  lemma {:induction false} RefsOfTwo(P: seq<Line>, blank: seq<bool>, t: string, j: nat, x: nat, y: nat)
    requires |blank| == |P| && j <= x < y < |P| && !blank[x] && !blank[y]
    ensures Refs(P, blank, t, j) >= Count(P[x].words, t) + Count(P[y].words, t)
    decreases x - j
  {
    if j < x { RefsOfTwo(P, blank, t, j + 1, x, y); } else { RefsOf(P, blank, t, j + 1, y); }
  }

  lemma NamedOnce(P: seq<Line>, w: Work, t: string, i: nat, x: nat)
    requires Fits(P, w) && Refs(P, w.blank, t, 0) == 1
    requires i < |P| && !w.blank[i] && t in P[i].words && x < |P| && !w.blank[x] && t in P[x].words
    ensures x == i
  {
    CountIn(P[i].words, t);
    CountIn(P[x].words, t);
    if x < i { RefsOfTwo(P, w.blank, t, 0, x, i); }
    if i < x { RefsOfTwo(P, w.blank, t, 0, i, x); }
  }

  lemma {:induction false} BlockShape(P: seq<Line>, dead: seq<int>, d: nat, j: nat, len: nat)
    requires |dead| == |P| && Shape(P) && d <= j && BlockEnd(P, dead, d, j, len).Some?
    ensures var e := BlockEnd(P, dead, d, j, len).value;
            && ClosesFlow(P[e])
            && (forall x | j <= x <= e && dead[x] == 0 :: !HasCall(P[x].ins) && (x > d ==> P[x].tag.None?))
            && (forall x | j <= x < e && dead[x] == 0 :: !Lone(P[x]))
    decreases |P| - j
  {
    var e := BlockEnd(P, dead, d, j, len).value;
    if dead[j] != 0 {
      BlockShape(P, dead, d, j + 1, len);
    } else if P[j].ins == [] {
      BlockShape(P, dead, d, j + 1, len);
    } else if P[j].fused {
      assert forall k | 0 <= k < |P[j].ins| :: !Refused(P[j].ins[k]);
    } else if !P[j].ins[0].Jmp? {
      BlockShape(P, dead, d, j + 1, len + 1);
    }
  }

  ghost predicate Chosen(P: seq<Line>, w: Work, i: nat, d: nat, e: nat)
    requires Fits(P, w)
  {
    && i < |P| && d <= e < |P| && d != i
    && w.dead[i] == 0 && w.dead[d] == 0 && w.dead[e] == 0
    && Lone(P[i]) && P[d].tag == Some(P[i].ins[0].target)
    && Refs(P, w.blank, P[i].ins[0].target, 0) == 1
    && PrevEnds(P, w.dead, d)
    && ClosesFlow(P[e])
    && (forall x | d <= x <= e && w.dead[x] == 0 :: !HasCall(P[x].ins) && (x > d ==> P[x].tag.None?))
    && (d <= i <= e ==> i == e)
  }

  lemma TargetIsChosen(P: seq<Line>, w: Work, i: nat)
    requires Fits(P, w) && Shape(P) && i < |P| && Target(P, w, i).Some?
    ensures Chosen(P, w, i, Target(P, w, i).value.0, Target(P, w, i).value.1)
  {
    var d := FindDef(P, w.dead, P[i].ins[0].target, 0).value;
    BlockShape(P, w.dead, d, d, 0);
  }

  /** The only output line that jumps to the block's label is the jump at `i`. */
  lemma OnlyJump(P: seq<Line>, w: Work, i: nat, d: nat, e: nat, f: Line, k: nat)
    requires WorkOk(P, w, i) && Chosen(P, w, i, d, e) && Mentions(P)
    requires f in Output(P, w) && k < |f.ins| && (f.ins[k].Jmp? || f.ins[k].Jcc?) && f.ins[k].target == P[i].ins[0].target
    ensures f == P[i]
  {
    assert RawLine(P, w, f);
    var x :| 0 <= x < |P| && !w.blank[x] && P[x] == f;
    NamedOnce(P, w, P[i].ins[0].target, i, x);
  }

  lemma NotTaken(isa: Isa, P: seq<Line>, w: Work, i: nat, d: nat, e: nat)
    requires WorkOk(P, w, i) && Chosen(P, w, i, d, e) && Mentions(P) && Exposed(isa, P)
    ensures P[i].ins[0].target !in isa.taken
  {
    var t := P[i].ins[0].target;
    if t in isa.taken {
      var x :| 0 <= x < |P| && t in P[x].words && !Lone(P[x]);
      NamedOnce(P, w, t, i, x);
    }
  }

  // ---------------------------------------------------------------- stretches of the output

  lemma SealedByLast(S: seq<Line>)
    requires S != [] && S[|S| - 1].ins != [] && !Falls(S[|S| - 1].ins)
    ensures Sealed(S) && Stays(S)
  {
  }

  lemma StaysThenBlank(S: seq<Line>, T: seq<Line>)
    requires Stays(S) && Blank(T)
    ensures Stays(S + T)
    ensures Sealed(S) && (forall x | 0 <= x < |T| :: T[x].tag.None?) ==> Sealed(S + T)
  {
    var F := S + T;
    assert F == [] + S + T && Seek(S, |S|) == |S|;
    forall q | 0 <= q <= |S| && Seek(S, q) < |S| ensures Seek(F, q) == Seek(S, q) { SeekWithin([], S, T, q); }
    assert forall p | 0 <= p < |T| :: F[|S| + p] == T[p];
    assert forall p | 0 <= p < |S| :: F[p] == S[p];
  }

  /** What is written for the line that ends the flow closes what is written before it. */
  lemma SealedByLine(P: seq<Line>, w: Work, i: nat, S: seq<Line>, j: nat)
    requires WorkOk(P, w, i) && j < |P| && w.dead[j] == 0 && P[j].ins != [] && !Falls(P[j].ins)
    ensures Stays(S + Chunk(P, w, j)) && Sealed(S + Chunk(P, w, j))
  {
    var c := Chunk(P, w, j);
    assert c != [] && c[|c| - 1].ins != [] && !Falls(c[|c| - 1].ins);
    hide Chunk, Sealed, Stays, Output;
    assert (S + c)[|S + c| - 1] == c[|c| - 1];
    SealedByLast(S + c);
  }

  lemma BlankLine(P: seq<Line>, w: Work, i: nat, j: nat)
    requires WorkOk(P, w, i) && j < |P| && (w.dead[j] != 0 || P[j].ins == [])
    ensures Blank(Chunk(P, w, j))
    ensures (w.dead[j] in {0, 1} ==> P[j].tag.None?) ==> forall x | 0 <= x < |Chunk(P, w, j)| :: Chunk(P, w, j)[x].tag.None?
  {
  }

  /** What stands above the block never runs into it, and without labels there is no other way in. */
  lemma {:induction false} SealedAbove(P: seq<Line>, w: Work, i: nat, a: nat, d: nat)
    requires WorkOk(P, w, i) && a <= d <= |P| && PrevEnds(P, w.dead, d)
    ensures Stays(Out(P, w, a, d)) && (NoLabelAbove(P, w.dead, d) ==> Sealed(Out(P, w, a, d)))
    decreases d
  {
    if a < d {
      OutSnoc(P, w, a, d);
      hide Sealed, Stays, Out, Output, Chunk, Blank, WorkOk;
      if w.dead[d - 1] != 0 || P[d - 1].ins == [] {
        SealedAbove(P, w, i, a, d - 1);
        BlankLine(P, w, i, d - 1);
        StaysThenBlank(Out(P, w, a, d - 1), Chunk(P, w, d - 1));
      } else {
        SealedByLine(P, w, i, Out(P, w, a, d - 1), d - 1);
      }
    }
  }

  lemma {:induction false} SilentOut(P: seq<Line>, w: Work, a: nat, b: nat)
    requires Fits(P, w) && SilentGap(P, w.dead, a, b) && forall x | 0 <= x < |P| && P[x].ins == [] :: w.splice[x].None?
    ensures Blank(Out(P, w, a, b))
    decreases b - a
  {
    if a < b { SilentOut(P, w, a + 1, b); }
  }

  /** The lines of `S` that hold an instruction. */
  function Solid(S: seq<Line>): seq<Line> {
    if S == [] then [] else (if S[0].ins == [] then [] else [S[0]]) + Solid(S[1..])
  }

  /** What one line adds to the block and to its copy. */
  lemma PlainLine(P: seq<Line>, w: Work, lo: nat, hi: nat)
    requires Fits(P, w) && lo < hi <= |P| && Plain(P, w, lo, lo + 1) && w.blank[lo] == w.splice[lo].Some?
    ensures Out(P, w, lo, hi) == if w.dead[lo] == 0 then [P[lo]] + Out(P, w, lo + 1, hi) else Out(P, w, lo + 1, hi)
    ensures Copied(P, w, lo, hi) == if w.dead[lo] == 0 && P[lo].ins != [] then [P[lo]] + Copied(P, w, lo + 1, hi) else Copied(P, w, lo + 1, hi)
  {
    assert [] + Out(P, w, lo + 1, hi) == Out(P, w, lo + 1, hi);
    assert [] + Copied(P, w, lo + 1, hi) == Copied(P, w, lo + 1, hi);
  }

  lemma SolidCons(l: Line, S: seq<Line>)
    ensures Solid([l] + S) == if l.ins == [] then Solid(S) else [l] + Solid(S)
  {
    assert ([l] + S)[1..] == S && [] + Solid(S) == Solid(S);
  }

  lemma PlainNone(P: seq<Line>, w: Work, lo: nat)
    requires Fits(P, w) && lo <= |P|
    ensures Out(P, w, lo, lo) == [] && Copied(P, w, lo, lo) == [] && Solid([]) == []
  {
  }

  lemma PlainParts(P: seq<Line>, w: Work, lo: nat, hi: nat)
    requires Fits(P, w) && lo < hi <= |P| && Plain(P, w, lo, hi)
    ensures Plain(P, w, lo, lo + 1) && Plain(P, w, lo + 1, hi) && |w.dead| == |w.splice| == |w.blank| == |P|
  {
  }

  lemma SolidStep(l: Line, kept: bool, o: seq<Line>, c: seq<Line>, o1: seq<Line>, c1: seq<Line>)
    requires c == Solid(o) && o1 == (if kept then [l] + o else o) && c1 == if kept && l.ins != [] then [l] + c else c
    requires Solid([l] + o) == if l.ins == [] then Solid(o) else [l] + Solid(o)
    ensures c1 == Solid(o1)
  {
    hide *;
  }

  lemma {:induction false} CopiedIsSolid(P: seq<Line>, w: Work, lo: nat, hi: nat)
    requires Fits(P, w) && lo <= hi <= |P| && Plain(P, w, lo, hi)
    requires forall x | 0 <= x < |P| :: w.blank[x] == w.splice[x].Some?
    ensures Copied(P, w, lo, hi) == Solid(Out(P, w, lo, hi))
    decreases hi - lo
  {
    hide *;
    if lo == hi {
      PlainNone(P, w, lo);
    } else {
      PlainParts(P, w, lo, hi);
      CopiedIsSolid(P, w, lo + 1, hi);
      PlainLine(P, w, lo, hi);
      SolidCons(P[lo], Out(P, w, lo + 1, hi));
      SolidStep(P[lo], w.dead[lo] == 0, Out(P, w, lo + 1, hi), Copied(P, w, lo + 1, hi), Out(P, w, lo, hi), Copied(P, w, lo, hi));
    }
  }

  /** A plain block is written line by line. */
  lemma {:induction false} PlainOut(P: seq<Line>, w: Work, lo: nat, hi: nat)
    requires Fits(P, w) && lo <= hi <= |P| && Plain(P, w, lo, hi)
    requires forall x | 0 <= x < |P| :: w.blank[x] == w.splice[x].Some?
    ensures forall f | f in Out(P, w, lo, hi) :: exists j :: lo <= j < hi && w.dead[j] == 0 && P[j] == f
    decreases hi - lo
  {
    hide *;
    if lo == hi {
      PlainNone(P, w, lo);
    } else {
      PlainParts(P, w, lo, hi);
      PlainOut(P, w, lo + 1, hi);
      PlainLine(P, w, lo, hi);
      forall f | f in Out(P, w, lo, hi) ensures exists j :: lo <= j < hi && w.dead[j] == 0 && P[j] == f {
        if f !in Out(P, w, lo + 1, hi) { assert P[lo] == f; }
      }
    }
  }

  lemma {:induction false} OutAgrees(P: seq<Line>, w: Work, v: Work, lo: nat, hi: nat)
    requires Fits(P, w) && Fits(P, v) && lo <= hi <= |P|
    requires forall x | lo <= x < hi :: Chunk(P, w, x) == Chunk(P, v, x)
    ensures Out(P, w, lo, hi) == Out(P, v, lo, hi)
    decreases hi - lo
  {
    if lo < hi { OutAgrees(P, w, v, lo + 1, hi); }
  }

  lemma {:induction false} OutOfGone(P: seq<Line>, w: Work, lo: nat, hi: nat)
    requires Fits(P, w) && lo <= hi <= |P| && forall x | lo <= x < hi :: w.dead[x] == 2
    ensures Out(P, w, lo, hi) == []
    decreases hi - lo
  {
    if lo < hi { OutOfGone(P, w, lo + 1, hi); }
  }

  // ---------------------------------------------------------------- a jump to the next line

  ghost function Marks(B: seq<Line>): (m: seq<int>)
    ensures |m| == |B|
  {
    seq(|B|, x requires 0 <= x < |B| => if B[x].ins == [] then 2 else 0)
  }

  lemma {:induction false} OutputSolid(B: seq<Line>)
    ensures Output(B, Start(Marks(B))) == Solid(B)
  {
    if B != [] {
      OutputSolid(B[1..]);
      assert B == [B[0]] + B[1..] && Marks(B) == Marks([B[0]]) + Marks(B[1..]);
      OutputOfBoth([B[0]], B[1..], Marks([B[0]]), Marks(B[1..]));
      OneLine(B[0], Marks([B[0]])[0]);
    }
  }

  lemma OneLine(l: Line, m: int)
    ensures Output([l], Start([m])) == (if m == 0 then [l] else if m == 1 && l.tag.Some? then [LabelOnly(l)] else [])
  {
    assert Out([l], Start([m]), 0, 1) == Chunk([l], Start([m]), 0) + Out([l], Start([m]), 1, 1);
  }

  /** Writing out two stretches, each with a known result. */
  lemma Joined(S: seq<Line>, d: seq<int>, O: seq<Line>, T: seq<Line>, e: seq<int>, U: seq<Line>)
    requires |d| == |S| && |e| == |T| && Output(S, Start(d)) == O && Output(T, Start(e)) == U
    ensures Output(S + T, Start(d + e)) == O + U
  {
    OutputOfBoth(S, T, d, e);
  }

  lemma CollapsedOutput(L: seq<Line>, J: Line, B: seq<Line>, R: seq<Line>)
    ensures Output(L + [J] + B + R, Start(Zeros(|L|) + [2] + Marks(B) + Zeros(|R|))) == L + Solid(B) + R
  {
    OutputOfKept(L, Zeros(|L|), 0);
    OneLine(J, 2);
    Joined(L, Zeros(|L|), L, [J], [2], []);
    CollapsedTail(L + [J], Zeros(|L|) + [2], L + [], B, R);
    assert L + [] == L;
  }

  lemma CollapsedTail(S: seq<Line>, d: seq<int>, O: seq<Line>, B: seq<Line>, R: seq<Line>)
    requires |d| == |S| && Output(S, Start(d)) == O
    ensures Output(S + B + R, Start(d + Marks(B) + Zeros(|R|))) == O + Solid(B) + R
  {
    OutputSolid(B);
    Joined(S, d, O, B, Marks(B), Solid(B));
    OutputOfKept(R, Zeros(|R|), 0);
    Joined(S + B, d + Marks(B), O + Solid(B), R, Zeros(|R|), R);
  }

  /** The marks that delete `J` and the block's lines without an instruction. */
  ghost function CollapseMarks(L: seq<Line>, B: seq<Line>, R: seq<Line>): seq<int> {
    Zeros(|L|) + [2] + Marks(B) + Zeros(|R|)
  }

  lemma CollapseMarked(L: seq<Line>, J: Line, B: seq<Line>, R: seq<Line>, p: nat)
    requires p < |L + [J] + B + R|
    ensures |CollapseMarks(L, B, R)| == |L + [J] + B + R|
    ensures p == |L| ==> (L + [J] + B + R)[p] == J && CollapseMarks(L, B, R)[p] == 2
    ensures |L| < p <= |L| + |B| ==> (L + [J] + B + R)[p] == B[p - |L| - 1]
    ensures CollapseMarks(L, B, R)[p] != 0 && p != |L| ==> |L| < p <= |L| + |B| && B[p - |L| - 1].ins == []
  {
  }

  /** Nothing else in the program jumps to `t`. */
  ghost predicate SoleJump(G: seq<Line>, J: Line, t: string) {
    forall f, k | f in G && 0 <= k < |f.ins| && (f.ins[k].Jmp? || f.ins[k].Jcc?) && f.ins[k].target == t :: f == J
  }

  lemma CollapseOk(isa: Isa, L: seq<Line>, J: Line, B: seq<Line>, R: seq<Line>)
    requires Accountable(L + [J] + B + R)
    requires Lone(J) && J.tag.None? && B != [] && B[0].tag == Some(J.ins[0].target)
    requires forall x | 0 < x < |B| :: B[x].tag.None?
    requires J.ins[0].target !in isa.taken && SoleJump(L + [J] + B + R, J, J.ins[0].target)
    ensures EraseOk(isa, L + [J] + B + R, CollapseMarks(L, B, R))
  {
    var G, dead, t := L + [J] + B + R, CollapseMarks(L, B, R), J.ins[0].target;
    CollapseMarked(L, J, B, R, |L|);
    CollapseMarked(L, J, B, R, |L| + 1);
    DefIs(G, t, |L| + 1);
    assert SilentGap(G, dead, |L| + 1, |L| + 1);
    assert !Live(isa, G, Erased(G, dead), t) by {
      forall p: nat, k: nat | Jumps(G, p, k, t) ensures p == |L| { assert G[p] in G && G[p].id == G[|L|].id; }
    }
    forall p | 0 <= p < |G| && dead[p] != 0 ensures Erasable(G, dead, p) { CollapseMarked(L, J, B, R, p); }
    forall p | 0 <= p < |G| && dead[p] != 0 && G[p].tag.Some? ensures G[p].tag.value == t { CollapseMarked(L, J, B, R, p); }
  }

  /** A lone jump right before its block, and the block's label if nothing else names it, may go. */
  lemma CollapseJump(isa: Isa, L: seq<Line>, J: Line, B: seq<Line>, R: seq<Line>)
    requires Accountable(L + [J] + B + R)
    requires Lone(J) && J.tag.None? && B != [] && B[0].tag == Some(J.ins[0].target)
    requires forall x | 0 < x < |B| :: B[x].tag.None?
    requires J.ins[0].target !in isa.taken && SoleJump(L + [J] + B + R, J, J.ins[0].target)
    ensures SameBehaviour(isa, L + [J] + B + R, L + Solid(B) + R)
    ensures Accountable(L + Solid(B) + R)
  {
    var G, dead := L + [J] + B + R, CollapseMarks(L, B, R);
    CollapseOk(isa, L, J, B, R);
    EraseSimulates(isa, G, dead);
    CollapsedOutput(L, J, B, R);
    forall p: nat | p in Erased(G, dead) && p < |G| && G[p].ins != [] ensures !G[p].ins[0].Mov? { CollapseMarked(L, J, B, R, p); }
    SimulatesUnconditionally(isa, G, L + Solid(B) + R, EraseCorr(G, dead));
    OutputAccountable(G, dead);
  }

  // ---------------------------------------------------------------- moving whole stretches

  /** A jump, its block, and what the tool demands of them. */
  ghost predicate Movable(isa: Isa, F: seq<Line>, J: Line, B: seq<Line>) {
    && Accountable(F)
    && Lone(J) && J.tag.None? && J.ins[0].target !in isa.taken && SoleJump(F, J, J.ins[0].target)
    && B != [] && B[0].tag == Some(J.ins[0].target) && Sealed(B)
    && (forall x | 0 < x < |B| :: B[x].tag.None?)
    && (forall x | 0 <= x < |B| :: !HasCall(B[x].ins))
  }

  /** The block stands below the jump. */
  lemma MoveUp(isa: Isa, A: seq<Line>, J: Line, V: seq<Line>, B: seq<Line>, R: seq<Line>)
    requires Movable(isa, A + [J] + V + B + R, J, B) && Sealed(V)
    ensures SameBehaviour(isa, A + [J] + V + B + R, A + Solid(B) + V + R)
    ensures Accountable(A + Solid(B) + V + R)
  {
    SealedByLast(A + [J]);
    SwapSame(isa, A + [J], V, B, R);
    SwapAccountable(A + [J], V, B, R);
    assert A + [J] + B + V + R == A + [J] + B + (V + R);
    assert A + Solid(B) + (V + R) == A + Solid(B) + V + R;
    assert SoleJump(A + [J] + B + (V + R), J, J.ins[0].target);
    CollapseJump(isa, A, J, B, V + R);
    SameTransitive(isa, A + [J] + V + B + R, A + [J] + B + (V + R), A + Solid(B) + V + R);
  }

  /** The block stands above the jump. */
  lemma MoveDown(isa: Isa, A: seq<Line>, B: seq<Line>, V: seq<Line>, J: Line, R: seq<Line>)
    requires Movable(isa, A + B + V + [J] + R, J, B) && Sealed(A)
    ensures SameBehaviour(isa, A + B + V + [J] + R, A + V + Solid(B) + R)
    ensures Accountable(A + V + Solid(B) + R)
  {
    SealedByLast(V + [J]);
    assert A + B + V + [J] + R == A + B + (V + [J]) + R;
    SwapSame(isa, A, B, V + [J], R);
    SwapAccountable(A, B, V + [J], R);
    assert A + (V + [J]) + B + R == (A + V) + [J] + B + R;
    assert SoleJump((A + V) + [J] + B + R, J, J.ins[0].target);
    CollapseJump(isa, A + V, J, B, R);
    SameTransitive(isa, A + B + V + [J] + R, (A + V) + [J] + B + R, A + V + Solid(B) + R);
  }

  lemma SolidAccountable(L: seq<Line>, B: seq<Line>, R: seq<Line>)
    requires Accountable(L + B + R)
    ensures Output(L + B + R, Start(Zeros(|L|) + Marks(B) + Zeros(|R|))) == L + Solid(B) + R
    ensures Accountable(L + Solid(B) + R)
  {
    OutputOfKept(L, Zeros(|L|), 0);
    CollapsedTail(L, Zeros(|L|), L, B, R);
    OutputAccountable(L + B + R, Zeros(|L|) + Marks(B) + Zeros(|R|));
  }

  lemma SettleMarked(L: seq<Line>, B: seq<Line>, R: seq<Line>, p: nat)
    requires p < |L + B + R|
    ensures var d := Zeros(|L|) + Marks(B) + Zeros(|R|);
            |d| == |L + B + R| && (d[p] != 0 ==> d[p] == 2 && |L| <= p < |L| + |B| && (L + B + R)[p] == B[p - |L|] && B[p - |L|].ins == [])
  {
  }

  /** The lines of a block that hold nothing may go, its label with them if nothing names it. */
  lemma SettleBlock(isa: Isa, L: seq<Line>, B: seq<Line>, R: seq<Line>, t: string)
    requires Accountable(L + B + R) && t !in isa.taken && forall p, k :: !Jumps(L + B + R, p, k, t)
    requires forall x | 0 <= x < |B| :: B[x].tag.Some? ==> B[x].tag == Some(t)
    ensures SameBehaviour(isa, L + B + R, L + Solid(B) + R) && Accountable(L + Solid(B) + R)
  {
    var G, dead := L + B + R, Zeros(|L|) + Marks(B) + Zeros(|R|);
    forall p: nat | p < |G| ensures dead[p] != 0 ==> G[p].ins == [] && (G[p].tag.Some? ==> G[p].tag == Some(t)) { SettleMarked(L, B, R, p); }
    hide Marks, Jumps;
    assert EraseOk(isa, G, dead);
    EraseSimulates(isa, G, dead);
    SolidAccountable(L, B, R);
    SimulatesUnconditionally(isa, G, L + Solid(B) + R, EraseCorr(G, dead));
  }

  /** The block stands above the jump and only blank lines between them: labels above do no harm. */
  lemma {:induction false} MoveOver(isa: Isa, A: seq<Line>, B: seq<Line>, V: seq<Line>, J: Line, R: seq<Line>)
    requires Movable(isa, A + B + V + [J] + R, J, B) && Stays(A) && Blank(V)
    ensures SameBehaviour(isa, A + B + V + [J] + R, A + V + Solid(B) + R)
    ensures Accountable(A + V + Solid(B) + R)
  {
    var F, G, t := A + B + V + [J] + R, A + V + B + R, J.ins[0].target;
    LowerSame(isa, A, B, V, J, R);
    LowerAccountable(A, B, V, J, R);
    LowerLines(A, B, V, J, R);
    forall p: nat | p < |G| ensures G[p] in F && G[p] != J {
      RaiseLines(A, B, V, J, R, p);
      assert F[Raised(|A|, |B|, |V|, p)].id != F[|A| + |B| + |V|].id;
    }
    SettleBlock(isa, A + V, B, R, t);
    SameTransitive(isa, F, G, A + V + Solid(B) + R);
  }

  /** The jump closes its own block: nothing reaches the block, and all of it goes. */
  lemma DropLoop(isa: Isa, A: seq<Line>, B: seq<Line>, J: Line, R: seq<Line>)
    requires Movable(isa, A + B + R, J, B) && Sealed(A) && B[|B| - 1] == J
    ensures SameBehaviour(isa, A + B + R, A + R) && Accountable(A + R)
  {
    var t := J.ins[0].target;
    forall p: nat, k: nat ensures !Jumps(A + R, p, k, t) {
      if p < |A + R| {
        var q := if p < |A| then p else p + |B|;
        assert (A + B + R)[q] == (A + R)[p] && (A + B + R)[|A| + |B| - 1] == J;
        assert (A + B + R)[q] in A + B + R;
      }
    }
    UnreachedSame(isa, A, B, R);
  }

  // ---------------------------------------------------------------- one step of the tool

  lemma SplitIn3(P: seq<Line>, w: Work, a: nat, b: nat)
    requires Fits(P, w) && a <= b <= |P|
    ensures Output(P, w) == Out(P, w, 0, a) + Out(P, w, a, b) + Out(P, w, b, |P|)
  {
    OutSplit(P, w, 0, a, |P|);
    OutSplit(P, w, a, b, |P|);
  }

  lemma SplitIn5(P: seq<Line>, w: Work, i: nat, a: nat, b: nat)
    requires Fits(P, w) && i < a <= b <= |P|
    ensures Output(P, w) == Out(P, w, 0, i) + Chunk(P, w, i) + Out(P, w, i + 1, a) + Out(P, w, a, b) + Out(P, w, b, |P|)
  {
    SplitIn3(P, w, a, b);
    OutSplit(P, w, 0, i, a);
  }

  lemma SplitAround(P: seq<Line>, w: Work, a: nat, b: nat, i: nat)
    requires Fits(P, w) && a <= b <= i < |P|
    ensures Output(P, w) == Out(P, w, 0, a) + Out(P, w, a, b) + Out(P, w, b, i) + Chunk(P, w, i) + Out(P, w, i + 1, |P|)
  {
    SplitIn3(P, w, a, b);
    OutSplit(P, w, b, i, |P|);
  }

  lemma BlockEnds(P: seq<Line>, w: Work, d: nat, e: nat)
    requires Fits(P, w) && d <= e < |P| && Chunk(P, w, d) == [P[d]] && Chunk(P, w, e) == [P[e]]
    ensures var B := Out(P, w, d, e + 1);
            B == [P[d]] + Out(P, w, d + 1, e + 1) && B[|B| - 1] == P[e]
  {
    OutSplit(P, w, d, e, e + 1);
    assert Out(P, w, e, e + 1) == Chunk(P, w, e) + Out(P, w, e + 1, e + 1) == [P[e]];
  }

  lemma BlockOwn(P: seq<Line>, w: Work, i: nat, d: nat, e: nat)
    requires WorkOk(P, w, i) && Chosen(P, w, i, d, e) && Plain(P, w, d, e + 1)
    ensures Chunk(P, w, d) == [P[d]] && Chunk(P, w, e) == [P[e]] && !HasCall(P[d].ins) && Plain(P, w, d + 1, e + 1)
    ensures Fits(P, w) && forall x | 0 <= x < |P| :: w.blank[x] == w.splice[x].Some?
  {
  }

  lemma BlockRest(P: seq<Line>, w: Work, i: nat, d: nat, e: nat, f: Line)
    requires WorkOk(P, w, i) && Chosen(P, w, i, d, e) && Plain(P, w, d, e + 1) && f in Out(P, w, d + 1, e + 1)
    ensures f.tag.None? && !HasCall(f.ins)
  {
    BlockOwn(P, w, i, d, e);
    PlainOut(P, w, d + 1, e + 1);
    hide Out, HasCall, Plain, PrevEnds, Refs;
  }

  lemma BlockStretch(P: seq<Line>, w: Work, i: nat, d: nat, e: nat)
    requires WorkOk(P, w, i) && Chosen(P, w, i, d, e) && Plain(P, w, d, e + 1)
    ensures var B := Out(P, w, d, e + 1);
            && B != [] && B[0] == P[d] && B[|B| - 1] == P[e]
            && (forall x | 0 < x < |B| :: B[x].tag.None?)
            && (forall x | 0 <= x < |B| :: !HasCall(B[x].ins))
  {
    BlockOwn(P, w, i, d, e);
    assert d <= e < |P|;
    hide *;
    var B, T := Out(P, w, d, e + 1), Out(P, w, d + 1, e + 1);
    BlockEnds(P, w, d, e);
    forall f | f in T ensures f.tag.None? && !HasCall(f.ins) { BlockRest(P, w, i, d, e, f); }
    forall x | 0 < x < |B| ensures B[x] in T { assert B[x] == T[x - 1]; }
  }

  lemma BlockMovable(isa: Isa, P: seq<Line>, w: Work, i: nat, d: nat, e: nat)
    requires WorkOk(P, w, i) && Chosen(P, w, i, d, e) && Clean(P, w, i, d, e) && Mentions(P) && Exposed(isa, P)
    ensures Movable(isa, Output(P, w), P[i], Out(P, w, d, e + 1))
    ensures Out(P, w, d, e + 1)[|Out(P, w, d, e + 1)| - 1] == P[e]
  {
    BlockStretch(P, w, i, d, e);
    SealedByLast(Out(P, w, d, e + 1));
    NotTaken(isa, P, w, i, d, e);
    var F, t := Output(P, w), P[i].ins[0].target;
    forall f, k | f in F && 0 <= k < |f.ins| && (f.ins[k].Jmp? || f.ins[k].Jcc?) && f.ins[k].target == t ensures f == P[i] {
      OnlyJump(P, w, i, d, e, f, k);
    }
  }

  /** The output as the stretches around the jump and its block, before and after the step. */
  ghost predicate Spread(F: seq<Line>, A: seq<Line>, B: seq<Line>, C: seq<Line>, D: seq<Line>, E: seq<Line>) { F == A + B + C + D + E }

  /** How the arrays `v` after the step write out, against the arrays `w` before it. */
  ghost predicate Stepped(P: seq<Line>, w: Work, v: Work, i: nat, d: nat, e: nat) {
    && Fits(P, w) && Fits(P, v) && i < |P| && d <= e < |P|
    && Chunk(P, w, i) == [P[i]]
    && (i < d || e < i ==> Chunk(P, v, i) == Copied(P, w, d, e + 1))
    && (forall x | d <= x <= e :: v.dead[x] == 2)
    && (forall x | 0 <= x < |P| && x != i && !(d <= x <= e) :: Chunk(P, v, x) == Chunk(P, w, x))
  }

  lemma InlineSteps(P: seq<Line>, w: Work, i: nat, d: nat, e: nat)
    requires Fits(P, w) && i < |P| && w.dead[i] == 0 && !w.blank[i] && w.splice[i].None? && Target(P, w, i) == Some((d, e))
    ensures Stepped(P, w, InlineAt(P, w, i), i, d, e)
  {
    hide Out, Copied, Target;
  }

  lemma SpreadBelow(P: seq<Line>, w: Work, v: Work, i: nat, d: nat, e: nat)
    requires Stepped(P, w, v, i, d, e) && i < d
    ensures Spread(Output(P, w), Out(P, w, 0, i), [P[i]], Out(P, w, i + 1, d), Out(P, w, d, e + 1), Out(P, w, e + 1, |P|))
    ensures Spread(Output(P, v), Out(P, w, 0, i), Copied(P, w, d, e + 1), Out(P, w, i + 1, d), [], Out(P, w, e + 1, |P|))
  {
    hide Out, Chunk, Copied;
    SplitIn5(P, w, i, d, e + 1);
    SplitIn5(P, v, i, d, e + 1);
    OutOfGone(P, v, d, e + 1);
    OutAgrees(P, v, w, 0, i);
    OutAgrees(P, v, w, i + 1, d);
    OutAgrees(P, v, w, e + 1, |P|);
  }

  lemma SpreadAbove(P: seq<Line>, w: Work, v: Work, i: nat, d: nat, e: nat)
    requires Stepped(P, w, v, i, d, e) && e < i
    ensures Spread(Output(P, w), Out(P, w, 0, d), Out(P, w, d, e + 1), Out(P, w, e + 1, i), [P[i]], Out(P, w, i + 1, |P|))
    ensures Spread(Output(P, v), Out(P, w, 0, d), [], Out(P, w, e + 1, i), Copied(P, w, d, e + 1), Out(P, w, i + 1, |P|))
  {
    hide Out, Chunk, Copied;
    SplitAround(P, w, d, e + 1, i);
    SplitAround(P, v, d, e + 1, i);
    OutOfGone(P, v, d, e + 1);
    OutAgrees(P, v, w, 0, d);
    OutAgrees(P, v, w, e + 1, i);
    OutAgrees(P, v, w, i + 1, |P|);
  }

  lemma SpreadLoop(P: seq<Line>, w: Work, v: Work, d: nat, i: nat)
    requires Stepped(P, w, v, i, d, i)
    ensures Spread(Output(P, w), Out(P, w, 0, d), Out(P, w, d, i + 1), Out(P, w, i + 1, |P|), [], [])
    ensures Spread(Output(P, v), Out(P, w, 0, d), [], Out(P, w, i + 1, |P|), [], [])
  {
    hide Out, Chunk, Copied;
    SplitIn3(P, w, d, i + 1);
    SplitIn3(P, v, d, i + 1);
    OutOfGone(P, v, d, i + 1);
    OutAgrees(P, v, w, 0, d);
    OutAgrees(P, v, w, i + 1, |P|);
  }

  ghost predicate Improves(isa: Isa, F: seq<Line>, G: seq<Line>) { SameBehaviour(isa, F, G) && Accountable(G) }

  lemma SpreadMoveUp(isa: Isa, F: seq<Line>, G: seq<Line>, A: seq<Line>, J: Line, V: seq<Line>, B: seq<Line>, R: seq<Line>)
    requires Spread(F, A, [J], V, B, R) && Spread(G, A, Solid(B), V, [], R) && Movable(isa, F, J, B) && Sealed(V)
    ensures Improves(isa, F, G)
  {
    MoveUp(isa, A, J, V, B, R);
    assert A + Solid(B) + V + [] + R == A + Solid(B) + V + R;
  }

  lemma SpreadMoveDown(isa: Isa, F: seq<Line>, G: seq<Line>, A: seq<Line>, B: seq<Line>, V: seq<Line>, J: Line, R: seq<Line>)
    requires Spread(F, A, B, V, [J], R) && Spread(G, A, [], V, Solid(B), R) && Movable(isa, F, J, B) && Sealed(A)
    ensures Improves(isa, F, G)
  {
    MoveDown(isa, A, B, V, J, R);
    assert A + [] + V + Solid(B) + R == A + V + Solid(B) + R;
  }

  lemma SpreadMoveOver(isa: Isa, F: seq<Line>, G: seq<Line>, A: seq<Line>, B: seq<Line>, V: seq<Line>, J: Line, R: seq<Line>)
    requires Spread(F, A, B, V, [J], R) && Spread(G, A, [], V, Solid(B), R) && Movable(isa, F, J, B) && Stays(A) && Blank(V)
    ensures Improves(isa, F, G)
  {
    MoveOver(isa, A, B, V, J, R);
    assert A + [] + V + Solid(B) + R == A + V + Solid(B) + R;
  }

  lemma SpreadDrop(isa: Isa, F: seq<Line>, G: seq<Line>, A: seq<Line>, B: seq<Line>, J: Line, R: seq<Line>)
    requires Spread(F, A, B, R, [], []) && Spread(G, A, [], R, [], []) && Movable(isa, F, J, B) && Sealed(A) && B[|B| - 1] == J
    ensures Improves(isa, F, G)
  {
    assert F == A + B + R && G == A + R;
    DropLoop(isa, A, B, J, R);
  }

  ghost predicate Ready(isa: Isa, P: seq<Line>, w: Work, i: nat, d: nat, e: nat) {
    && WorkOk(P, w, i) && Chosen(P, w, i, d, e) && Clean(P, w, i, d, e) && Mentions(P) && Exposed(isa, P)
    && Target(P, w, i) == Some((d, e))
  }

  /** How control stays out of the block: no way in from above, or only blank lines down to the jump. */
  ghost predicate Closed(P: seq<Line>, w: Work, i: nat, d: nat, e: nat)
    requires Fits(P, w) && i < |P| && d <= e < |P|
  {
    || (Sealed(Out(P, w, 0, d)) && (i < d ==> Sealed(Out(P, w, i + 1, d))))
    || (e < i && Stays(Out(P, w, 0, d)) && Blank(Out(P, w, e + 1, i)))
  }

  lemma ReadyFacts(isa: Isa, P: seq<Line>, w: Work, i: nat, d: nat, e: nat)
    requires Ready(isa, P, w, i, d, e)
    ensures Fits(P, w) && i < |P| && d <= e < |P| && w.dead[i] == 0 && !w.blank[i] && w.splice[i].None?
    ensures Target(P, w, i) == Some((d, e)) && d != i && (d <= i <= e ==> i == e)
    ensures Movable(isa, Output(P, w), P[i], Out(P, w, d, e + 1))
    ensures Out(P, w, d, e + 1) != [] && Out(P, w, d, e + 1)[|Out(P, w, d, e + 1)| - 1] == P[e]
    ensures Copied(P, w, d, e + 1) == Solid(Out(P, w, d, e + 1))
    ensures Closed(P, w, i, d, e)
  {
    hide Out, Chunk, Output, Copied, Solid, Sealed, Stays, Target, PrevEnds, Refs, Mentions, Exposed;
    BlockMovable(isa, P, w, i, d, e);
    CopiedIsSolid(P, w, d, e + 1);
    SealedAbove(P, w, i, 0, d);
    if i < d { SealedAbove(P, w, i, i + 1, d); }
    if e < i && SilentGap(P, w.dead, e + 1, i) { SilentOut(P, w, e + 1, i); }
  }

  /** One step keeps its promise when it is clean. */
  lemma {:induction false} InlineStepImproves(isa: Isa, P: seq<Line>, w: Work, i: nat, d: nat, e: nat)
    requires Ready(isa, P, w, i, d, e)
    ensures Improves(isa, Output(P, w), Output(P, InlineAt(P, w, i)))
  {
    ReadyFacts(isa, P, w, i, d, e);
    Relocated(isa, P, w, InlineAt(P, w, i), i, d, e);
  }

  lemma Relocated(isa: Isa, P: seq<Line>, w: Work, v: Work, i: nat, d: nat, e: nat)
    requires Fits(P, w) && i < |P| && d <= e < |P| && w.dead[i] == 0 && !w.blank[i] && w.splice[i].None?
    requires Target(P, w, i) == Some((d, e)) && v == InlineAt(P, w, i) && (d <= i <= e ==> i == e)
    requires Movable(isa, Output(P, w), P[i], Out(P, w, d, e + 1))
    requires Out(P, w, d, e + 1)[|Out(P, w, d, e + 1)| - 1] == P[e]
    requires Copied(P, w, d, e + 1) == Solid(Out(P, w, d, e + 1))
    requires Closed(P, w, i, d, e)
    ensures Improves(isa, Output(P, w), Output(P, v))
  {
    hide Out, Chunk, Copied, Sealed, Stays, Blank, Movable, Spread, Improves, Output, InlineAt, Target, Stepped, Solid;
    var B := Out(P, w, d, e + 1);
    InlineSteps(P, w, i, d, e);
    if i < d {
      SpreadBelow(P, w, v, i, d, e);
      SpreadMoveUp(isa, Output(P, w), Output(P, v), Out(P, w, 0, i), P[i], Out(P, w, i + 1, d), B, Out(P, w, e + 1, |P|));
    } else if e < i {
      SpreadAbove(P, w, v, i, d, e);
      if Sealed(Out(P, w, 0, d)) {
        SpreadMoveDown(isa, Output(P, w), Output(P, v), Out(P, w, 0, d), B, Out(P, w, e + 1, i), P[i], Out(P, w, i + 1, |P|));
      } else {
        SpreadMoveOver(isa, Output(P, w), Output(P, v), Out(P, w, 0, d), B, Out(P, w, e + 1, i), P[i], Out(P, w, i + 1, |P|));
      }
    } else {
      SpreadLoop(P, w, v, d, i);
      SpreadDrop(isa, Output(P, w), Output(P, v), Out(P, w, 0, d), B, P[i], Out(P, w, i + 1, |P|));
    }
  }

  /** The step leaves the arrays as the next step expects them. */
  lemma {:induction false} StepKeepsWorkOk(isa: Isa, P: seq<Line>, w: Work, i: nat, d: nat, e: nat)
    requires Ready(isa, P, w, i, d, e)
    ensures WorkOk(P, InlineAt(P, w, i), i + 1)
  {
    hide Out, Chunk, Output, Copied, Solid, RawLine, Mentions, Exposed, Refs, PrevEnds, Accountable, Capped, SameBehaviour;
    var v := InlineAt(P, w, i);
    InlineStepImproves(isa, P, w, i, d, e);
    BlockStretch(P, w, i, d, e);
    CopiedIsSolid(P, w, d, e + 1);
    SolidCapped(Out(P, w, d, e + 1));
    forall f | f in Output(P, v) && f.ins != [] ensures RawLine(P, v, f) { StillRaw(isa, P, w, i, d, e, f); }
  }

  lemma {:induction false} SolidCapped(B: seq<Line>)
    requires B != [] && ClosesFlow(B[|B| - 1])
    ensures Capped(Solid(B))
  {
    if |B| > 1 { SolidCapped(B[1..]); }
  }

  lemma {:induction false} InOut(P: seq<Line>, w: Work, a: nat, b: nat, f: Line) returns (x: nat)
    requires Fits(P, w) && a <= b <= |P| && f in Out(P, w, a, b)
    ensures a <= x < b && f in Chunk(P, w, x)
    decreases b - a
  {
    if f in Chunk(P, w, a) { x := a; } else { x := InOut(P, w, a + 1, b, f); }
  }

  lemma {:induction false} ChunkInOut(P: seq<Line>, w: Work, a: nat, b: nat, x: nat, f: Line)
    requires Fits(P, w) && a <= x < b <= |P| && f in Chunk(P, w, x)
    ensures f in Out(P, w, a, b)
    decreases b - a
  {
    if a < x { ChunkInOut(P, w, a + 1, b, x, f); }
  }

  lemma {:induction false} InCopied(P: seq<Line>, w: Work, a: nat, b: nat, f: Line)
    requires Fits(P, w) && a <= b <= |P| && f in Copied(P, w, a, b)
    requires forall x | 0 <= x < |P| :: w.blank[x] == w.splice[x].Some?
    ensures exists y :: a <= y < b && w.dead[y] == 0 && !w.blank[y] && P[y] == f
    decreases b - a
  {
    if w.dead[a] != 0 || w.blank[a] || P[a] != f { InCopied(P, w, a + 1, b, f); }
  }

  /** Every line written after the step was written before it. */
  lemma StillWritten(P: seq<Line>, w: Work, i: nat, d: nat, e: nat, f: Line)
    requires i < |P| && d <= e < |P| && WorkOk(P, w, i) && Target(P, w, i) == Some((d, e))
    requires f in Output(P, InlineAt(P, w, i))
    ensures f in Output(P, w)
  {
    var v := InlineAt(P, w, i);
    var x := InOut(P, v, 0, |P|, f);
    if x == i {
      InCopied(P, w, d, e + 1, f);
      var y :| d <= y < e + 1 && w.dead[y] == 0 && !w.blank[y] && P[y] == f;
      ChunkInOut(P, w, 0, |P|, y, f);
    } else {
      ChunkInOut(P, w, 0, |P|, x, f);
    }
  }

  /** The jump at `i` is gone from the output. */
  lemma JumpGone(P: seq<Line>, w: Work, i: nat, d: nat, e: nat)
    requires WorkOk(P, w, i) && Chosen(P, w, i, d, e) && Target(P, w, i) == Some((d, e))
    ensures P[i] !in Output(P, InlineAt(P, w, i))
  {
    hide Out, Target, Copied, Refs, PrevEnds;
    var v := InlineAt(P, w, i);
    if P[i] in Output(P, v) {
      var x := InOut(P, v, 0, |P|, P[i]);
      if x == i {
        InCopied(P, w, d, e + 1, P[i]);
        x :| d <= x < e + 1 && w.dead[x] == 0 && !w.blank[x] && P[x] == P[i];
      }
      assert P[i] in Chunk(P, w, x);
      WrittenTwice(P, w, i, x, P[i]);
    }
  }

  /** A line is written at one place only. */
  lemma WrittenTwice(P: seq<Line>, w: Work, x: nat, y: nat, f: Line)
    requires Fits(P, w) && IdsOnce(Output(P, w)) && x < |P| && y < |P| && f in Chunk(P, w, x) && f in Chunk(P, w, y)
    ensures x == y
  {
    OutAt(P, w, x);
    OutAt(P, w, y);
    var j :| 0 <= j < |Chunk(P, w, x)| && Chunk(P, w, x)[j] == f;
    var k :| 0 <= k < |Chunk(P, w, y)| && Chunk(P, w, y)[k] == f;
    assert Output(P, w)[Offset(P, w, x) + j] == f && Output(P, w)[Offset(P, w, y) + k] == f;
    if x < y { OffsetMonotone(P, w, x + 1, y); }
    if y < x { OffsetMonotone(P, w, y + 1, x); }
  }

  lemma StillRaw(isa: Isa, P: seq<Line>, w: Work, i: nat, d: nat, e: nat, f: Line)
    requires Ready(isa, P, w, i, d, e) && f in Output(P, InlineAt(P, w, i)) && f.ins != []
    ensures RawLine(P, InlineAt(P, w, i), f)
  {
    StillWritten(P, w, i, d, e, f);
    JumpGone(P, w, i, d, e);
    assert RawLine(P, w, f);
    var x :| 0 <= x < |P| && !w.blank[x] && P[x] == f;
    assert x != i;
  }

  // ---------------------------------------------------------------- the whole pass

  /** Every step of the pass is clean. */
  ghost predicate CleanFrom(P: seq<Line>, i: nat, w: Work)
    requires Fits(P, w)
    decreases |P| - i
  {
    i >= |P| || ((match Target(P, w, i) case None => true case Some((d, e)) => Clean(P, w, i, d, e)) && CleanFrom(P, i + 1, InlineAt(P, w, i)))
  }

  lemma SameReflexive(isa: Isa, P: seq<Line>)
    ensures SameBehaviour(isa, P, P)
  {
    forall t, st | t in isa.taken ensures SameFrom(isa, P, P, t, st) { ShowsItself(Sys(isa, P), Label(P, t, st)); }
  }

  lemma NoStep(P: seq<Line>, w: Work, i: nat)
    requires i < |P| && WorkOk(P, w, i) && Target(P, w, i).None?
    ensures InlineAt(P, w, i) == w && WorkOk(P, w, i + 1)
  {
  }

  lemma {:induction false} PassPreservesMeaning(isa: Isa, P: seq<Line>, i: nat, w: Work)
    requires Shape(P) && Mentions(P) && Exposed(isa, P) && WorkOk(P, w, i) && CleanFrom(P, i, w)
    ensures SameBehaviour(isa, Output(P, w), Output(P, InlineFrom(P, i, w)))
    decreases |P| - i
  {
    hide Target, InlineAt, Clean, Chosen, SameBehaviour, Improves, Mentions, Exposed, Shape, Output;
    if i >= |P| {
      SameReflexive(isa, Output(P, w));
    } else if Target(P, w, i).None? {
      NoStep(P, w, i);
      PassPreservesMeaning(isa, P, i + 1, w);
    } else {
      var (d, e) := Target(P, w, i).value;
      TargetIsChosen(P, w, i);
      InlineStepImproves(isa, P, w, i, d, e);
      StepKeepsWorkOk(isa, P, w, i, d, e);
      PassPreservesMeaning(isa, P, i + 1, InlineAt(P, w, i));
      SameTransitive(isa, Output(P, w), Output(P, InlineAt(P, w, i)), Output(P, InlineFrom(P, i, w)));
    }
  }
}
