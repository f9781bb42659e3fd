/** Where labels lead before and after a step of the inlining pass. */
module PeepLeads {
  import opened Common
  import opened PeepSyntax
  import opened PeepMachine
  import opened PeepSimulation
  import opened PeepErase
  import opened PeepRelocate
  import opened PeepInline

  /** The number of the line on which control finds its first instruction when it comes to label `t`. */
  ghost function Lead(F: seq<Line>, t: string): Option<nat> {
    match Def(F, t) case None => None case Some(d) => var q := Seek(F, d); if q < |F| then Some(F[q].id) else None
  }

  function Renamed(o: Option<nat>, from: nat, onto: nat): Option<nat> { if o == Some(from) then Some(onto) else o }

  /** Label `t` is still there and leads where it led, `onto` standing where `from` stood. */
  ghost predicate Carried(F: seq<Line>, G: seq<Line>, t: string, from: nat, onto: nat) {
    Def(G, t).Some? && Lead(G, t) == Renamed(Lead(F, t), from, onto)
  }

  ghost predicate AllCarried(S: seq<Line>, F: seq<Line>, G: seq<Line>, from: nat, onto: nat) {
    forall f | f in S && f.tag.Some? :: Carried(F, G, f.tag.value, from, onto)
  }

  /** Every label but `own` leads where it led. */
  ghost predicate KeepsLeads(F: seq<Line>, G: seq<Line>, own: string, from: nat, onto: nat) {
    forall f | f in F && f.tag.Some? && f.tag != Some(own) :: Carried(F, G, f.tag.value, from, onto)
  }

  // ---------------------------------------------------------------- first lines of stretches

  function First(S: seq<Line>): Option<nat> {
    if S == [] then None else if S[0].ins != [] then Some(S[0].id) else First(S[1..])
  }

  function Else(a: Option<nat>, b: Option<nat>): Option<nat> { if a.Some? then a else b }

  lemma {:induction false} FirstOfBoth(X: seq<Line>, Y: seq<Line>)
    ensures First(X + Y) == Else(First(X), First(Y))
  {
    if X == [] { assert X + Y == Y; }
    else {
      FirstOfBoth(X[1..], Y);
      assert (X + Y)[1..] == X[1..] + Y;
    }
  }

  lemma {:induction false} FirstIsSought(F: seq<Line>, p: nat)
    requires p <= |F|
    ensures First(F[p..]) == (if Seek(F, p) < |F| then Some(F[Seek(F, p)].id) else None)
    decreases |F| - p
  {
    if p < |F| { FirstIsSought(F, p + 1); }
  }

  lemma {:induction false} FirstIn(S: seq<Line>)
    ensures First(S).None? <==> Blank(S)
    ensures First(S).Some? ==> exists f :: f in S && f.ins != [] && First(S) == Some(f.id)
  {
    if S != [] {
      FirstIn(S[1..]);
      assert S == [S[0]] + S[1..];
      assert S[0] in S;
    }
  }

  ghost predicate Apart(X: seq<Line>, Y: seq<Line>) { forall x, y | x in X && y in Y :: x.id != y.id }

  lemma FirstApart(X: seq<Line>, Y: seq<Line>, p: nat)
    requires Apart(X, Y) && p <= |X|
    ensures First(X[p..]).Some? ==> First(X[p..]) != First(Y)
  {
    FirstIn(X[p..]);
    FirstIn(Y);
  }

  lemma {:induction false} FirstOfSolid(B: seq<Line>)
    ensures First(Solid(B)) == First(B)
  {
    if B != [] {
      FirstOfSolid(B[1..]);
      if B[0].ins == [] { assert [] + Solid(B[1..]) == Solid(B[1..]); }
    }
  }

  lemma LeadAt(F: seq<Line>, d: nat)
    requires LabelsOnce(F) && d < |F| && F[d].tag.Some?
    ensures Def(F, F[d].tag.value).Some? && Lead(F, F[d].tag.value) == First(F[d..])
  {
    DefIs(F, F[d].tag.value, d);
    FirstIsSought(F, d);
    hide Seek, DefFrom, First;
  }

  lemma SuffixOf(A: seq<Line>, S: seq<Line>, C: seq<Line>, p: nat)
    requires p < |S|
    ensures (A + S + C)[|A| + p] == S[p] && (A + S + C)[|A| + p..] == S[p..] + C
  {
  }

  /** A label of a stretch leads into the stretch, or past it. */
  lemma LeadOf(F: seq<Line>, A: seq<Line>, S: seq<Line>, C: seq<Line>, p: nat)
    requires F == A + S + C && LabelsOnce(F) && p < |S| && S[p].tag.Some?
    ensures Def(F, S[p].tag.value).Some? && Lead(F, S[p].tag.value) == Else(First(S[p..]), First(C))
  {
    hide *;
    SuffixOf(A, S, C, p);
    LeadAt(F, |A| + p);
    FirstOfBoth(S[p..], C);
  }

  /** A label below which the stretch holds nothing. */
  ghost predicate Trailing(S: seq<Line>) { exists p :: 0 <= p < |S| && S[p].tag.Some? && First(S[p..]).None? }

  // ---------------------------------------------------------------- the stretches around a moved block

  /** Labels of a stretch that stays in one piece keep their leads exactly when none hangs at its end or
      what follows keeps its own. */
  lemma StretchCarried(F: seq<Line>, G: seq<Line>, A: seq<Line>, S: seq<Line>, C: seq<Line>, B: seq<Line>, D: seq<Line>, from: nat, onto: nat)
    requires F == A + S + C && G == B + S + D && LabelsOnce(F) && LabelsOnce(G)
    requires forall x | x in S :: x.id != from
    ensures AllCarried(S, F, G, from, onto) <==> !Trailing(S) || First(D) == Renamed(First(C), from, onto)
  {
    forall p | 0 <= p < |S| && S[p].tag.Some?
      ensures Carried(F, G, S[p].tag.value, from, onto) <==> First(S[p..]).Some? || First(D) == Renamed(First(C), from, onto)
    {
      LeadOf(F, A, S, C, p);
      LeadOf(G, B, S, D, p);
      FirstIn(S[p..]);
    }
    hide Carried, LabelsOnce, Renamed, First;
    if Trailing(S) {
      var p :| 0 <= p < |S| && S[p].tag.Some? && First(S[p..]).None?;
      assert S[p] in S;
    }
  }

  /** A block whose one label is `own` and whose first instruction is on line `head`. */
  ghost predicate Block(B: seq<Line>, own: string, head: nat) {
    && First(B) == Some(head)
    && (forall f | f in B :: f.tag.Some? ==> f.tag == Some(own))
    && (exists f :: f in B && f.tag == Some(own))
  }

  /** A program around a block and a jump, in any order, no number in it given twice. */
  ghost predicate Around(F: seq<Line>, A: seq<Line>, V: seq<Line>, R: seq<Line>, B: seq<Line>, J: Line) {
    && (forall f :: f in F <==> f in A || f in V || f in R || f in B || f == J)
    && Apart(A, B) && Apart(V, B) && Apart(R, B) && Apart(A, [J]) && Apart(V, [J]) && Apart(R, [J])
  }

  lemma LeadsSplit(F: seq<Line>, G: seq<Line>, A: seq<Line>, V: seq<Line>, R: seq<Line>, B: seq<Line>, J: Line, own: string, head: nat)
    requires Around(F, A, V, R, B, J) && Block(B, own, head) && LabelsOnce(F) && (J.tag.None? || J in B)
    ensures KeepsLeads(F, G, own, J.id, head) <==>
              AllCarried(A, F, G, J.id, head) && AllCarried(V, F, G, J.id, head) && AllCarried(R, F, G, J.id, head)
  {
    hide Carried, First;
    var o :| o in B && o.tag == Some(own);
    forall f | (f in A || f in V || f in R) && f.tag == o.tag ensures f == o { SameTagSameLine(F, f, o); }
  }

  lemma Heads(A: seq<Line>, V: seq<Line>, R: seq<Line>, B: seq<Line>, J: Line, own: string, head: nat, F: seq<Line>)
    requires Around(F, A, V, R, B, J) && Block(B, own, head)
    ensures forall x | x in A || x in V || x in R :: x.id != J.id
    ensures First(V) != Some(head) && First(R) != Some(head)
    ensures First(Solid(B)) == Some(head)
  {
    assert J in [J];
    assert V[0..] == V && R[0..] == R;
    FirstApart(V, B, 0);
    FirstApart(R, B, 0);
    FirstOfSolid(B);
  }

  lemma ApartParts(X: seq<Line>, Y: seq<Line>)
    requires IdsOnce(X + Y)
    ensures Apart(X, Y) && Apart(Y, X) && IdsOnce(X)
  {
    var F := X + Y;
    assert forall k | 0 <= k < |X| :: F[k] == X[k];
    assert forall k | 0 <= k < |Y| :: F[|X| + k] == Y[k];
  }

  /** Stretches of a program share no number. */
  lemma AllApart(a: seq<Line>, b: seq<Line>, c: seq<Line>, d: seq<Line>, e: seq<Line>)
    requires IdsOnce(a + b + c + d + e)
    ensures Apart(a, b) && Apart(a, c) && Apart(a, d) && Apart(b, c) && Apart(b, d) && Apart(c, d)
    ensures Apart(b, a) && Apart(c, a) && Apart(d, a) && Apart(c, b) && Apart(d, b) && Apart(d, c)
    ensures Apart(e, a) && Apart(e, b) && Apart(e, c) && Apart(e, d)
    ensures forall f :: f in a + b + c + d + e <==> f in a || f in b || f in c || f in d || f in e
  {
    ApartParts(a + b + c + d, e);
    ApartParts(a + b + c, d);
    ApartParts(a + b, c);
    ApartParts(a, b);
    hide IdsOnce;
  }

  lemma AroundBelow(F: seq<Line>, A: seq<Line>, J: Line, V: seq<Line>, B: seq<Line>, R: seq<Line>)
    requires F == A + [J] + V + B + R && IdsOnce(F)
    ensures Around(F, A, V, R, B, J)
  {
    AllApart(A, [J], V, B, R);
    hide IdsOnce, Apart;
  }

  lemma AroundAbove(F: seq<Line>, A: seq<Line>, B: seq<Line>, V: seq<Line>, J: Line, R: seq<Line>)
    requires F == A + B + V + [J] + R && IdsOnce(F)
    ensures Around(F, A, V, R, B, J)
  {
    AllApart(A, B, V, [J], R);
    hide IdsOnce, Apart;
  }

  lemma BelowRegrouped(A: seq<Line>, J: Line, V: seq<Line>, B: seq<Line>, R: seq<Line>, S: seq<Line>)
    ensures A + [J] + B + V + R == A + [J] + (B + V + R) && A + (B + V + R) == A + B + (V + R)
    ensures A + S + (V + R) == A + S + V + [] + R
  {
  }

  lemma BelowAccountable(F: seq<Line>, G: seq<Line>, A: seq<Line>, J: Line, V: seq<Line>, B: seq<Line>, R: seq<Line>)
    requires Spread(F, A, [J], V, B, R) && Spread(G, A, Solid(B), V, [], R) && Accountable(F)
    ensures LabelsOnce(G) && Around(F, A, V, R, B, J)
  {
    assert F == A + [J] + V + B + R && G == A + Solid(B) + V + [] + R;
    hide *;
    AccountableIs(F);
    AroundBelow(F, A, J, V, B, R);
    SwapAccountable(A + [J], V, B, R);
    BelowRegrouped(A, J, V, B, R, Solid(B));
    CutAccountable(A, [J], B + V + R);
    SolidAccountable(A, B, V + R);
    AccountableIs(G);
  }

  lemma AccountableIs(S: seq<Line>)
    ensures Accountable(S) <==> IdsOnce(S) && LabelsOnce(S)
  {
  }

  lemma AboveRegrouped(A: seq<Line>, V: seq<Line>, R: seq<Line>, S: seq<Line>)
    ensures (A + V) + S + R == A + [] + V + S + R
  {
  }

  lemma AboveAccountable(F: seq<Line>, G: seq<Line>, A: seq<Line>, B: seq<Line>, V: seq<Line>, J: Line, R: seq<Line>)
    requires Spread(F, A, B, V, [J], R) && Spread(G, A, [], V, Solid(B), R) && Accountable(F)
    ensures LabelsOnce(G) && Around(F, A, V, R, B, J)
  {
    assert F == A + B + V + [J] + R && G == A + [] + V + Solid(B) + R;
    hide *;
    AccountableIs(F);
    AroundAbove(F, A, B, V, J, R);
    LowerAccountable(A, B, V, J, R);
    SolidAccountable(A + V, B, R);
    AboveRegrouped(A, V, R, Solid(B));
    AccountableIs(G);
  }

  lemma LoopAccountable(F: seq<Line>, G: seq<Line>, A: seq<Line>, B: seq<Line>, J: Line, R: seq<Line>)
    requires Spread(F, A, B, R, [], []) && Spread(G, A, [], R, [], []) && Accountable(F) && J in B
    ensures LabelsOnce(G) && Around(F, A, [], R, B, J)
  {
    AllApart(A, B, R, [], []);
    hide Accountable;
    assert F == A + B + R && G == A + R;
    CutAccountable(A, B, R);
    AccountableIs(G);
  }

  lemma BelowGroups(A: seq<Line>, J: Line, V: seq<Line>, B: seq<Line>, R: seq<Line>, S: seq<Line>)
    ensures var F, G := A + [J] + V + B + R, A + S + V + [] + R;
            && F == [] + A + ([J] + (V + B + R)) && G == [] + A + (S + (V + R))
            && F == (A + [J]) + V + (B + R) && G == (A + S) + V + R
            && F == (A + [J] + V + B) + R + [] && G == (A + S + V) + R + []
            && First([J]) == (if J.ins != [] then Some(J.id) else None) && First([]) == None
  {
  }

  /** The block below the jump. */
  lemma {:induction false} LeadsBelow(F: seq<Line>, G: seq<Line>, A: seq<Line>, J: Line, V: seq<Line>, B: seq<Line>, R: seq<Line>, own: string, head: nat)
    requires Spread(F, A, [J], V, B, R) && Spread(G, A, Solid(B), V, [], R) && Accountable(F)
    requires Block(B, own, head) && J.tag.None? && J.ins != []
    ensures KeepsLeads(F, G, own, J.id, head) <==> !Trailing(V)
  {
    BelowAccountable(F, G, A, J, V, B, R);
    AccountableIs(F);
    var S := Solid(B);
    BelowGroups(A, J, V, B, R, S);
    LeadsSplit(F, G, A, V, R, B, J, own, head);
    Heads(A, V, R, B, J, own, head, F);
    assert First(B) == Some(head);
    hide Spread, Around, Accountable, Block, LabelsOnce, AllCarried, Trailing, Solid, First, KeepsLeads;
    FirstOfBoth([J], V + B + R);
    FirstOfBoth(S, V + R);
    FirstOfBoth(B, R);
    StretchCarried(F, G, [], A, [J] + (V + B + R), [], S + (V + R), J.id, head);
    StretchCarried(F, G, A + [J], V, B + R, A + S, R, J.id, head);
    StretchCarried(F, G, A + [J] + V + B, R, [], A + S + V, [], J.id, head);
  }

  lemma AboveGroups(A: seq<Line>, B: seq<Line>, V: seq<Line>, J: Line, R: seq<Line>, S: seq<Line>)
    ensures var F, G := A + B + V + [J] + R, A + [] + V + S + R;
            && F == [] + A + (B + (V + [J] + R)) && G == [] + A + (V + (S + R))
            && F == (A + B) + V + ([J] + R) && G == A + V + (S + R)
            && F == (A + B + V + [J]) + R + [] && G == (A + V + S) + R + []
            && First([J]) == (if J.ins != [] then Some(J.id) else None) && First([]) == None
  {
  }

  /** The block above the jump. */
  lemma {:induction false} LeadsAbove(F: seq<Line>, G: seq<Line>, A: seq<Line>, B: seq<Line>, V: seq<Line>, J: Line, R: seq<Line>, own: string, head: nat)
    requires Spread(F, A, B, V, [J], R) && Spread(G, A, [], V, Solid(B), R) && Accountable(F)
    requires Block(B, own, head) && J.tag.None? && J.ins != []
    ensures KeepsLeads(F, G, own, J.id, head) <==> !Trailing(A) || First(V).None?
  {
    AboveAccountable(F, G, A, B, V, J, R);
    AccountableIs(F);
    var S := Solid(B);
    AboveGroups(A, B, V, J, R, S);
    LeadsSplit(F, G, A, V, R, B, J, own, head);
    Heads(A, V, R, B, J, own, head, F);
    assert First(B) == Some(head);
    hide Spread, Around, Accountable, Block, LabelsOnce, AllCarried, Trailing, Solid, First, KeepsLeads;
    FirstOfBoth([J], R);
    FirstOfBoth(S, R);
    FirstOfBoth(V, S + R);
    FirstOfBoth(B, V + [J] + R);
    StretchCarried(F, G, [], A, B + (V + [J] + R), [], V + (S + R), J.id, head);
    StretchCarried(F, G, A + B, V, [J] + R, A, S + R, J.id, head);
    StretchCarried(F, G, A + B + V + [J], R, [], A + V + S, [], J.id, head);
  }

  lemma LoopGroups(A: seq<Line>, B: seq<Line>, R: seq<Line>)
    ensures var F, G := A + B + R + [] + [], A + [] + R + [] + [];
            && F == [] + A + (B + R) && G == [] + A + R
            && F == (A + B) + R + [] && G == A + R + []
            && First([]) == None
  {
  }

  /** The jump closes its own block. */
  lemma {:induction false} LeadsLoop(F: seq<Line>, G: seq<Line>, A: seq<Line>, B: seq<Line>, J: Line, R: seq<Line>, own: string, head: nat)
    requires Spread(F, A, B, R, [], []) && Spread(G, A, [], R, [], []) && Accountable(F)
    requires Block(B, own, head) && J in B
    ensures KeepsLeads(F, G, own, J.id, head) <==> !Trailing(A)
  {
    LoopAccountable(F, G, A, B, J, R);
    AccountableIs(F);
    LoopGroups(A, B, R);
    LeadsSplit(F, G, A, [], R, B, J, own, head);
    Heads(A, [], R, B, J, own, head, F);
    assert First(B) == Some(head) && AllCarried([], F, G, J.id, head);
    hide Spread, Around, Accountable, Block, LabelsOnce, AllCarried, Trailing, Solid, First, KeepsLeads;
    FirstOfBoth(B, R);
    StretchCarried(F, G, [], A, B + R, [], R, J.id, head);
    StretchCarried(F, G, A + B, R, [], A, [], J.id, head);
  }

  // ---------------------------------------------------------------- what hangs above the block

  lemma {:induction false} FirstSome(S: seq<Line>, k: nat)
    requires k < |S| && S[k].ins != []
    ensures First(S).Some?
  {
    if k > 0 { FirstSome(S[1..], k - 1); }
  }

  lemma NotTrailing(S: seq<Line>)
    requires S != [] && S[|S| - 1].ins != []
    ensures !Trailing(S)
  {
    forall p | 0 <= p < |S| ensures First(S[p..]).Some? { FirstSome(S[p..], |S| - 1 - p); }
  }

  /** One more blank line, or none, at the end. */
  lemma TrailingMore(S: seq<Line>, c: seq<Line>)
    requires |c| <= 1 && Blank(c)
    ensures Trailing(S + c) <==> Trailing(S) || (c != [] && c[0].tag.Some?)
  {
    forall p | 0 <= p <= |S| ensures First((S + c)[p..]) == First(S[p..]) {
      FirstOfBoth(S[p..], c);
      FirstIn(c);
      assert (S + c)[p..] == S[p..] + c;
    }
    hide First;
    if Trailing(S) {
      var p :| 0 <= p < |S| && S[p].tag.Some? && First(S[p..]).None?;
      assert (S + c)[p] == S[p];
    }
    if c != [] && c[0].tag.Some? { assert (S + c)[|S|] == c[0] && First(S[|S|..]) == None by { FirstIn(S[|S|..]); } }
    if Trailing(S + c) {
      var p :| 0 <= p < |S + c| && (S + c)[p].tag.Some? && First((S + c)[p..]).None?;
      assert p < |S| ==> (S + c)[p] == S[p];
    }
  }

  lemma LastLine(P: seq<Line>, w: Work, i: nat, j: nat, S: seq<Line>)
    requires WorkOk(P, w, i) && j < |P| && w.dead[j] == 0 && P[j].ins != []
    ensures !Trailing(S + Chunk(P, w, j))
  {
    var c := Chunk(P, w, j);
    assert c != [] && c[|c| - 1].ins != [];
    assert (S + c)[|S + c| - 1] == c[|c| - 1];
    hide Chunk, Trailing, Output;
    NotTrailing(S + c);
  }

  lemma BlankTag(P: seq<Line>, w: Work, i: nat, j: nat)
    requires WorkOk(P, w, i) && j < |P| && (w.dead[j] != 0 || P[j].ins == [])
    ensures var c := Chunk(P, w, j); Blank(c) && |c| <= 1 && (c != [] && c[0].tag.Some? <==> w.dead[j] in {0, 1} && P[j].tag.Some?)
  {
  }

  lemma NothingTrails(P: seq<Line>, w: Work, i: nat, a: nat)
    requires WorkOk(P, w, i) && a <= |P| && (a == 0 || (w.dead[a - 1] == 0 && P[a - 1].ins != []))
    ensures NoLabelAbove(P, w.dead, a) && !Trailing(Out(P, w, a, a))
  {
  }

  /** A label above hangs exactly when the lines from the end of the flow down to the block write one. */
  lemma {:induction false} AboveExact(P: seq<Line>, w: Work, i: nat, a: nat, d: nat)
    requires WorkOk(P, w, i) && a <= d <= |P| && (a == 0 || (w.dead[a - 1] == 0 && P[a - 1].ins != []))
    ensures NoLabelAbove(P, w.dead, d) <==> !Trailing(Out(P, w, a, d))
    decreases d
  {
    hide Out, Chunk, Trailing, WorkOk, Output, Blank;
    if a == d {
      NothingTrails(P, w, i, a);
    } else {
      WorkFits(P, w, i);
      OutSnoc(P, w, a, d);
      if w.dead[d - 1] != 0 || P[d - 1].ins == [] {
        AboveExact(P, w, i, a, d - 1);
        BlankTag(P, w, i, d - 1);
        TrailingMore(Out(P, w, a, d - 1), Chunk(P, w, d - 1));
      } else {
        LastLine(P, w, i, d - 1, Out(P, w, a, d - 1));
      }
    }
  }

  lemma WorkFits(P: seq<Line>, w: Work, i: nat)
    requires WorkOk(P, w, i)
    ensures Fits(P, w)
  {
  }

  lemma SilentExact(P: seq<Line>, w: Work, i: nat, a: nat, b: nat)
    requires WorkOk(P, w, i) && a <= b <= |P|
    ensures SilentGap(P, w.dead, a, b) <==> First(Out(P, w, a, b)).None?
  {
    if SilentGap(P, w.dead, a, b) { SilentOut(P, w, a, b); }
    hide First, Out, WorkOk;
    FirstIn(Out(P, w, a, b));
    forall x | a <= x < b && w.dead[x] == 0 && P[x].ins != [] ensures First(Out(P, w, a, b)).Some? { Heard(P, w, i, a, b, x); }
  }

  lemma Heard(P: seq<Line>, w: Work, i: nat, a: nat, b: nat, x: nat)
    requires WorkOk(P, w, i) && a <= x < b <= |P| && w.dead[x] == 0 && P[x].ins != []
    ensures First(Out(P, w, a, b)).Some?
  {
    var c := Chunk(P, w, x);
    assert c != [] && c[|c| - 1].ins != [];
    hide First, Out, WorkOk, Chunk;
    ChunkInOut(P, w, a, b, x, c[|c| - 1]);
    FirstIn(Out(P, w, a, b));
  }

  // ---------------------------------------------------------------- exactly when a step keeps where labels lead

  lemma BlockHead(P: seq<Line>, w: Work, i: nat, d: nat, e: nat)
    requires WorkOk(P, w, i) && Chosen(P, w, i, d, e) && Plain(P, w, d, e + 1)
    ensures var B, c := Out(P, w, d, e + 1), Copied(P, w, d, e + 1);
            c == Solid(B) && c != [] && P[e] in B && Block(B, P[i].ins[0].target, c[0].id)
  {
    hide Out, Copied, Refs, PrevEnds;
    var B := Out(P, w, d, e + 1);
    BlockStretch(P, w, i, d, e);
    CopiedIsSolid(P, w, d, e + 1);
    SolidCapped(B);
    FirstOfSolid(B);
    SolidHead(B);
    assert B[0] in B;
  }

  lemma {:induction false} SolidHead(B: seq<Line>)
    ensures Solid(B) != [] ==> Solid(B)[0].ins != []
  {
    if B != [] { SolidHead(B[1..]); }
  }

  /** A step keeps where every label but the block's own leads, the jump's line standing for the first line
      of its copy, exactly when no bare label hangs above the block, or the block moves down over lines
      that hold nothing. */
  lemma {:induction false} StepLeadsExactly(P: seq<Line>, w: Work, i: nat, d: nat, e: nat)
    requires Shape(P) && WorkOk(P, w, i) && i < |P| && Target(P, w, i) == Some((d, e)) && P[i].tag.None? && Plain(P, w, d, e + 1)
    ensures Copied(P, w, d, e + 1) != []
    ensures KeepsLeads(Output(P, w), Output(P, InlineAt(P, w, i)), P[i].ins[0].target, P[i].id, Copied(P, w, d, e + 1)[0].id)
            <==> LabelsStay(P, w.dead, i, d, e)
  {
    TargetIsChosen(P, w, i);
    InlineSteps(P, w, i, d, e);
    BlockHead(P, w, i, d, e);
    assert w.dead[i] == 0 && (d <= i <= e ==> i == e);
    hide WorkOk, Stepped, Chosen, Target, Plain, Shape, KeepsLeads, Copied, Block, Output, InlineAt, NoLabelAbove, Out;
    LeadsOfStep(P, w, InlineAt(P, w, i), i, d, e, P[i].ins[0].target, Copied(P, w, d, e + 1)[0].id);
  }

  lemma StepFacts(P: seq<Line>, w: Work, v: Work, i: nat, d: nat, e: nat)
    requires WorkOk(P, w, i) && Stepped(P, w, v, i, d, e)
    ensures Fits(P, w) && Fits(P, v) && |w.dead| == |P| && i < |P| && d <= e < |P| && Accountable(Output(P, w))
  {
    hide Out, Accountable, Output, Copied;
  }

  lemma LabelsStayIs(P: seq<Line>, dead: seq<int>, i: nat, d: nat, e: nat)
    requires |dead| == |P| && i < |P| && d <= e < |P|
    ensures LabelsStay(P, dead, i, d, e) <==> NoLabelAbove(P, dead, d) || (e < i && SilentGap(P, dead, e + 1, i))
  {
  }

  lemma {:induction false} LeadsOfStep(P: seq<Line>, w: Work, v: Work, i: nat, d: nat, e: nat, own: string, head: nat)
    requires WorkOk(P, w, i) && Stepped(P, w, v, i, d, e) && Copied(P, w, d, e + 1) == Solid(Out(P, w, d, e + 1))
    requires P[i].tag.None? && P[i].ins != [] && w.dead[i] == 0 && Block(Out(P, w, d, e + 1), own, head)
    requires P[e] in Out(P, w, d, e + 1) && (d <= i <= e ==> i == e)
    ensures KeepsLeads(Output(P, w), Output(P, v), own, P[i].id, head) <==> LabelsStay(P, w.dead, i, d, e)
  {
    hide *;
    StepFacts(P, w, v, i, d, e);
    LabelsStayIs(P, w.dead, i, d, e);
    if i < d {
      LeadsOfBelow(P, w, v, i, d, e, own, head);
    } else if e < i {
      LeadsOfAbove(P, w, v, i, d, e, own, head);
    } else {
      LeadsOfLoop(P, w, v, d, i, own, head);
    }
  }

  lemma {:induction false} LeadsOfBelow(P: seq<Line>, w: Work, v: Work, i: nat, d: nat, e: nat, own: string, head: nat)
    requires WorkOk(P, w, i) && Stepped(P, w, v, i, d, e) && Copied(P, w, d, e + 1) == Solid(Out(P, w, d, e + 1))
    requires P[i].tag.None? && P[i].ins != [] && w.dead[i] == 0 && Block(Out(P, w, d, e + 1), own, head) && i < d
    ensures KeepsLeads(Output(P, w), Output(P, v), own, P[i].id, head) <==> NoLabelAbove(P, w.dead, d)
  {
    hide *;
    StepFacts(P, w, v, i, d, e);
    AboveExact(P, w, i, i + 1, d);
    SpreadBelow(P, w, v, i, d, e);
    var A, V, B, R := Out(P, w, 0, i), Out(P, w, i + 1, d), Out(P, w, d, e + 1), Out(P, w, e + 1, |P|);
    LeadsBelow(Output(P, w), Output(P, v), A, P[i], V, B, R, own, head);
  }

  lemma {:induction false} LeadsOfAbove(P: seq<Line>, w: Work, v: Work, i: nat, d: nat, e: nat, own: string, head: nat)
    requires WorkOk(P, w, i) && Stepped(P, w, v, i, d, e) && Copied(P, w, d, e + 1) == Solid(Out(P, w, d, e + 1))
    requires P[i].tag.None? && P[i].ins != [] && Block(Out(P, w, d, e + 1), own, head) && e < i
    ensures KeepsLeads(Output(P, w), Output(P, v), own, P[i].id, head) <==> NoLabelAbove(P, w.dead, d) || SilentGap(P, w.dead, e + 1, i)
  {
    hide *;
    StepFacts(P, w, v, i, d, e);
    AboveExact(P, w, i, 0, d);
    SilentExact(P, w, i, e + 1, i);
    SpreadAbove(P, w, v, i, d, e);
    var A, B, V, R := Out(P, w, 0, d), Out(P, w, d, e + 1), Out(P, w, e + 1, i), Out(P, w, i + 1, |P|);
    LeadsAbove(Output(P, w), Output(P, v), A, B, V, P[i], R, own, head);
  }

  lemma {:induction false} LeadsOfLoop(P: seq<Line>, w: Work, v: Work, d: nat, i: nat, own: string, head: nat)
    requires WorkOk(P, w, i) && Stepped(P, w, v, i, d, i) && P[i] in Out(P, w, d, i + 1)
    requires Block(Out(P, w, d, i + 1), own, head)
    ensures KeepsLeads(Output(P, w), Output(P, v), own, P[i].id, head) <==> NoLabelAbove(P, w.dead, d)
  {
    hide *;
    StepFacts(P, w, v, i, d, i);
    AboveExact(P, w, i, 0, d);
    SpreadLoop(P, w, v, d, i);
    var A, B, R := Out(P, w, 0, d), Out(P, w, d, i + 1), Out(P, w, i + 1, |P|);
    LeadsLoop(Output(P, w), Output(P, v), A, B, P[i], R, own, head);
  }
}
