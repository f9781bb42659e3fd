/** Rearrangements of a program that no execution notices. */
module PeepRelocate {
  import opened Common
  import opened PeepSyntax
  import opened PeepMachine
  import opened PeepSimulation
  import opened PeepErase

  /** No control flow crosses the end of these lines. */
  ghost predicate Sealed(S: seq<Line>) {
    forall p | 0 <= p < |S| ::
      && (S[p].tag.Some? ==> Seek(S, p) < |S|)
      && (Falls(S[p].ins) ==> Seek(S, p + 1) < |S|)
  }

  /** No instruction of these lines is followed by what stands after them. */
  ghost predicate Stays(S: seq<Line>) { forall p | 0 <= p < |S| :: Falls(S[p].ins) ==> Seek(S, p + 1) < |S| }

  ghost predicate Blank(S: seq<Line>) { forall p | 0 <= p < |S| :: S[p].ins == [] }

  ghost predicate Accountable(S: seq<Line>) { IdsOnce(S) && LabelsOnce(S) }

  /** Seeking inside a stretch of the program, when it succeeds there. */
  lemma {:induction false} SeekWithin(A: seq<Line>, S: seq<Line>, C: seq<Line>, p: nat)
    requires p <= |S| && (Seek(S, p) < |S| || C == [])
    ensures Seek(A + S + C, |A| + p) == |A| + Seek(S, p)
    decreases |S| - p
  {
    var F := A + S + C;
    if p < |S| {
      assert F[|A| + p] == S[p];
      if S[p].ins == [] { SeekWithin(A, S, C, p + 1); }
    }
  }

  // ---------------------------------------------------------------- exchanging neighbours

  ghost function Swapped(a: nat, x: nat, y: nat, c: nat): Corr {
    Corr(seq(a + x + y + c + 1, p requires 0 <= p => if p < a then p else if p < a + x then p + y else if p < a + x + y then p - x else p),
         {}, seq(a + x + y + c, _ => 0))
  }

  lemma SwapAccountable(A: seq<Line>, X: seq<Line>, Y: seq<Line>, C: seq<Line>)
    requires Accountable(A + X + Y + C)
    ensures Accountable(A + Y + X + C)
  {
    var F, G := A + X + Y + C, A + Y + X + C;
    var phi := Swapped(|A|, |Y|, |X|, |C|).phi;
    assert forall p | 0 <= p < |G| :: phi[p] < |F| && F[phi[p]] == G[p];
    forall p, q | 0 <= p < q < |G| ensures G[p].id != G[q].id && (G[p].tag.Some? ==> G[p].tag != G[q].tag) {
      assert F[phi[p]] == G[p] && F[phi[q]] == G[q];
      assert phi[p] < phi[q] || phi[q] < phi[p];
    }
  }

  /** The same stretch in two programs: seeking inside it moves with it. */
  lemma SeekMoves(F: seq<Line>, G: seq<Line>, A: seq<Line>, S: seq<Line>, C: seq<Line>, B: seq<Line>, D: seq<Line>, p: nat)
    requires F == A + S + C && G == B + S + D && p <= |S|
    requires Seek(S, p) < |S| || (C == [] && D == [])
    ensures Seek(F, |A| + p) == |A| + Seek(S, p) && Seek(G, |B| + p) == |B| + Seek(S, p)
  {
    SeekWithin(A, S, C, p);
    SeekWithin(B, S, D, p);
  }

  /** Where control goes from line `p`: to itself when jumped to, to the next line when it falls. */
  ghost predicate Leads(F: seq<Line>, p: nat, q: nat) {
    p < |F| && ((q == p && F[p].tag.Some?) || (q == p + 1 && Falls(F[p].ins)))
  }

  /** Line `p` of `A + X + Y + C` as a line of its own segment. */
  lemma SealedAt(A: seq<Line>, X: seq<Line>, Y: seq<Line>, C: seq<Line>, p: nat, q: nat)
    requires Sealed(A) && Sealed(X) && Sealed(Y) && Leads(A + X + Y + C, p, q)
    ensures q < |A| ==> Seek(A, q) < |A|
    ensures |A| <= q < |A| + |X| ==> Seek(X, q - |A|) < |X|
    ensures |A| + |X| <= q < |A| + |X| + |Y| ==> Seek(Y, q - |A| - |X|) < |Y|
    ensures q == p + 1 ==> Swapped(|A|, |X|, |Y|, |C|).phi[q] == Swapped(|A|, |X|, |Y|, |C|).phi[p] + 1
  {
    var F := A + X + Y + C;
    assert Seek(A, |A|) == |A| && Seek(X, |X|) == |X| && Seek(Y, |Y|) == |Y|;
    if p < |A| { assert F[p] == A[p]; }
    else if p < |A| + |X| { assert F[p] == X[p - |A|]; }
    else if p < |A| + |X| + |Y| { assert F[p] == Y[p - |A| - |X|]; }
  }

  lemma SwapSeekA(A: seq<Line>, X: seq<Line>, Y: seq<Line>, C: seq<Line>, p: nat)
    requires p < |A| && Seek(A, p) < |A|
    ensures Seek(A + X + Y + C, p) == Seek(A + Y + X + C, p) == Seek(A, p)
  {
    hide Seek;
    var F, G := A + X + Y + C, A + Y + X + C;
    assert F == [] + A + (X + Y + C) && G == [] + A + (Y + X + C);
    SeekMoves(F, G, [], A, X + Y + C, [], Y + X + C, p);
  }

  lemma SwapSeekX(A: seq<Line>, X: seq<Line>, Y: seq<Line>, C: seq<Line>, p: nat)
    requires |A| <= p < |A| + |X| && Seek(X, p - |A|) < |X|
    ensures Seek(A + X + Y + C, p) == |A| + Seek(X, p - |A|)
    ensures Seek(A + Y + X + C, p + |Y|) == |A| + |Y| + Seek(X, p - |A|)
  {
    hide Seek;
    var F, G := A + X + Y + C, A + Y + X + C;
    assert F == A + X + (Y + C) && G == (A + Y) + X + C;
    SeekMoves(F, G, A, X, Y + C, A + Y, C, p - |A|);
  }

  lemma SwapSeekY(A: seq<Line>, X: seq<Line>, Y: seq<Line>, C: seq<Line>, p: nat)
    requires |A| + |X| <= p < |A| + |X| + |Y| && Seek(Y, p - |A| - |X|) < |Y|
    ensures Seek(A + X + Y + C, p) == |A| + |X| + Seek(Y, p - |A| - |X|)
    ensures Seek(A + Y + X + C, p - |X|) == |A| + Seek(Y, p - |A| - |X|)
  {
    hide Seek;
    var F, G := A + X + Y + C, A + Y + X + C;
    assert F == (A + X) + Y + C && G == A + Y + (X + C);
    SeekMoves(F, G, A + X, Y, C, A, X + C, p - |A| - |X|);
  }

  lemma SwapSeekC(A: seq<Line>, X: seq<Line>, Y: seq<Line>, C: seq<Line>, p: nat)
    requires |A| + |X| + |Y| <= p <= |A + X + Y + C|
    ensures Seek(A + X + Y + C, p) == Seek(A + Y + X + C, p) == |A| + |X| + |Y| + Seek(C, p - |A| - |X| - |Y|)
  {
    hide Seek;
    var F, G := A + X + Y + C, A + Y + X + C;
    assert F == (A + X + Y) + C + [] && G == (A + Y + X) + C + [];
    SeekMoves(F, G, A + X + Y, C, [], A + Y + X, [], p - |A| - |X| - |Y|);
  }

  lemma SwapSeek(A: seq<Line>, X: seq<Line>, Y: seq<Line>, C: seq<Line>, p: nat, q: nat)
    requires Sealed(A) && Sealed(X) && Sealed(Y) && Leads(A + X + Y + C, p, q)
    ensures var phi := Swapped(|A|, |X|, |Y|, |C|).phi;
            && Seek(A + Y + X + C, phi[q]) == phi[Seek(A + X + Y + C, q)]
            && (q == p + 1 ==> phi[q] == phi[p] + 1)
  {
    hide Seek;
    SealedAt(A, X, Y, C, p, q);
    if q < |A| { SwapSeekA(A, X, Y, C, q); }
    else if q < |A| + |X| { SwapSeekX(A, X, Y, C, q); }
    else if q < |A| + |X| + |Y| { SwapSeekY(A, X, Y, C, q); }
    else { SwapSeekC(A, X, Y, C, q); }
  }

  lemma SwapLines(A: seq<Line>, X: seq<Line>, Y: seq<Line>, C: seq<Line>)
    ensures var F, G, phi := A + X + Y + C, A + Y + X + C, Swapped(|A|, |X|, |Y|, |C|).phi;
            && |F| == |G| && |phi| == |F| + 1 && phi[|F|] == |G|
            && (forall p | 0 <= p < |F| :: phi[p] < |G| && G[phi[p]] == F[p])
  {
  }

  lemma SwapKept(A: seq<Line>, X: seq<Line>, Y: seq<Line>, C: seq<Line>, p: nat)
    requires Sealed(A) && Sealed(X) && Sealed(Y) && p < |A + X + Y + C|
    ensures |Swapped(|A|, |X|, |Y|, |C|).phi| == |A + X + Y + C| + 1
    ensures KeptOk(A + X + Y + C, A + Y + X + C, Swapped(|A|, |X|, |Y|, |C|).phi, p)
  {
    hide Seek;
    SwapLines(A, X, Y, C);
    if Falls((A + X + Y + C)[p].ins) { SwapFall(A, X, Y, C, p); }
  }

  lemma SwapFall(A: seq<Line>, X: seq<Line>, Y: seq<Line>, C: seq<Line>, p: nat)
    requires Sealed(A) && Sealed(X) && Sealed(Y) && p < |A + X + Y + C| && Falls((A + X + Y + C)[p].ins)
    ensures var F, G, phi := A + X + Y + C, A + Y + X + C, Swapped(|A|, |X|, |Y|, |C|).phi;
            Seek(G, phi[p] + 1) == Seek(G, phi[Seek(F, p + 1)])
  {
    hide Seek;
    SwapSeek(A, X, Y, C, p, p + 1);
    SeekTwice(A + Y + X + C, Swapped(|A|, |X|, |Y|, |C|).phi[p] + 1);
  }

  lemma SwapOrigin(A: seq<Line>, X: seq<Line>, Y: seq<Line>, C: seq<Line>, q: nat)
    requires q < |A + Y + X + C| && (A + Y + X + C)[q].ins != []
    ensures |Swapped(|A|, |X|, |Y|, |C|).phi| == |A + X + Y + C| + 1
    ensures Origin(A + X + Y + C, Swapped(|A|, |X|, |Y|, |C|), q)
  {
    var m := Swapped(|A|, |X|, |Y|, |C|);
    SwapLines(A, X, Y, C);
    var p := Swapped(|A|, |Y|, |X|, |C|).phi[q];
    assert m.phi[p] == q;
    assert Kept(A + X + Y + C, m, p);
  }

  /** Two neighbouring stretches that no control flow leaves at the end may change places. */
  lemma SwapSimulates(isa: Isa, A: seq<Line>, X: seq<Line>, Y: seq<Line>, C: seq<Line>)
    requires Sealed(A) && Sealed(X) && Sealed(Y) && Accountable(A + X + Y + C)
    ensures Simulates(isa, A + X + Y + C, A + Y + X + C, Swapped(|A|, |X|, |Y|, |C|))
  {
    var F, G, m := A + X + Y + C, A + Y + X + C, Swapped(|A|, |X|, |Y|, |C|);
    SwapAccountable(A, X, Y, C);
    SwapLines(A, X, Y, C);
    assert Seek(G, |G|) == |G|;
    forall p: nat | Kept(F, m, p) ensures KeptOk(F, G, m.phi, p) { SwapKept(A, X, Y, C, p); }
    forall t | Live(isa, F, m.del, t) ensures LabelOk(F, G, m.phi, t) { SwapLabel(A, X, Y, C, t); }
    forall q | 0 <= q < |G| && HasCall(G[q].ins) ensures Origin(F, m, q) { SwapOrigin(A, X, Y, C, q); }
  }

  lemma SeekTwice(P: seq<Line>, p: nat)
    requires p <= |P|
    ensures Seek(P, Seek(P, p)) == Seek(P, p)
  {
  }

  lemma DefIs(P: seq<Line>, t: string, d: nat)
    requires LabelsOnce(P) && d < |P| && P[d].tag == Some(t)
    ensures Def(P, t) == Some(d)
  {
  }

  lemma SameTagSameLine(F: seq<Line>, f: Line, g: Line)
    requires LabelsOnce(F) && f in F && g in F && f.tag.Some? && f.tag == g.tag
    ensures f == g
  {
    var x :| 0 <= x < |F| && F[x] == f;
    var y :| 0 <= y < |F| && F[y] == g;
  }

  /** Seeking from line `p` and from where it went ends at the same line. */
  ghost predicate SeeksAlong(F: seq<Line>, G: seq<Line>, phi: seq<nat>, p: nat)
    requires |phi| == |F| + 1 && p <= |F|
  {
    Seek(G, phi[p]) == Seek(G, phi[Seek(F, p)])
  }

  lemma LabelBy(F: seq<Line>, G: seq<Line>, phi: seq<nat>, t: string)
    requires |phi| == |F| + 1 && LabelsOnce(G) && forall q | q in G :: q in F
    requires Def(F, t).Some? ==> var d := Def(F, t).value; phi[d] < |G| && G[phi[d]] == F[d] && SeeksAlong(F, G, phi, d)
    ensures LabelOk(F, G, phi, t)
  {
    hide Seek, DefFrom;
    if Def(F, t).Some? { DefIs(G, t, phi[Def(F, t).value]); }
    assert Def(G, t).Some? ==> G[Def(G, t).value] in G;
  }

  lemma SwapLabel(A: seq<Line>, X: seq<Line>, Y: seq<Line>, C: seq<Line>, t: string)
    requires Sealed(A) && Sealed(X) && Sealed(Y) && Accountable(A + X + Y + C)
    ensures LabelOk(A + X + Y + C, A + Y + X + C, Swapped(|A|, |X|, |Y|, |C|).phi, t)
  {
    SwapAccountable(A, X, Y, C);
    var F, G, phi := A + X + Y + C, A + Y + X + C, Swapped(|A|, |X|, |Y|, |C|).phi;
    SwapLines(A, X, Y, C);
    hide Seek, DefFrom, Sealed, Swapped;
    assert forall q | q in G :: q in F;
    if Def(F, t).Some? {
      var d := Def(F, t).value;
      SwapSeek(A, X, Y, C, d, d);
      SeekTwice(G, phi[d]);
    }
    LabelBy(F, G, phi, t);
  }

  lemma SimulatesUnconditionally(isa: Isa, P: seq<Line>, Q: seq<Line>, m: Corr)
    requires Simulates(isa, P, Q, m)
    requires forall p: nat | p in m.del && p < |P| && P[p].ins != [] :: !P[p].ins[0].Mov?
    ensures SameBehaviour(isa, P, Q)
  {
    var inv := (c: Config) => Valid(P, c);
    forall c | inv(c) ensures Quiet(isa, P, m, c) {
      if c.At? && c.p in m.del { assert DeletedOk(P, Q, m, c.p); }
    }
    SimulationSame(isa, P, Q, m, inv);
  }

  lemma SwapSame(isa: Isa, A: seq<Line>, X: seq<Line>, Y: seq<Line>, C: seq<Line>)
    requires Sealed(A) && Sealed(X) && Sealed(Y) && Accountable(A + X + Y + C)
    ensures SameBehaviour(isa, A + X + Y + C, A + Y + X + C)
  {
    SwapSimulates(isa, A, X, Y, C);
    SimulatesUnconditionally(isa, A + X + Y + C, A + Y + X + C, Swapped(|A|, |X|, |Y|, |C|));
  }

  // ---------------------------------------------------------------- a block moved over blank lines to its jump

  /** From `A + B + V + [J] + R` to `A + V + B + R`. */
  ghost function Lowered(a: nat, b: nat, v: nat, r: nat): Corr {
    Corr(seq(a + b + v + 1 + r + 1, p requires 0 <= p => if p < a then p else if p < a + b then p + v else if p < a + b + v then p - b
                                                         else if p == a + b + v then a + v else p - 1),
         {a + b + v}, seq(a + b + v + 1 + r, _ => 0))
  }

  lemma LowerLines(A: seq<Line>, B: seq<Line>, V: seq<Line>, J: Line, R: seq<Line>)
    ensures var F, G, phi := A + B + V + [J] + R, A + V + B + R, Lowered(|A|, |B|, |V|, |R|).phi;
            && |phi| == |F| + 1 && phi[|F|] == |G| && F[|A| + |B| + |V|] == J
            && (forall p | 0 <= p < |F| && p != |A| + |B| + |V| :: phi[p] < |G| && G[phi[p]] == F[p])
  {
  }

  /** The line of `A + B + V + [J] + R` that line `q` of `A + V + B + R` was. */
  ghost function Raised(a: nat, b: nat, v: nat, q: nat): nat {
    if q < a then q else if q < a + v then q + b else if q < a + v + b then q - v else q + 1
  }

  lemma RaiseLines(A: seq<Line>, B: seq<Line>, V: seq<Line>, J: Line, R: seq<Line>, q: nat)
    requires q < |A + V + B + R|
    ensures var F, G, p := A + B + V + [J] + R, A + V + B + R, Raised(|A|, |B|, |V|, q);
            p < |F| && F[p] == G[q] && p != |A| + |B| + |V| && Lowered(|A|, |B|, |V|, |R|).phi[p] == q
  {
  }

  lemma LowerAccountable(A: seq<Line>, B: seq<Line>, V: seq<Line>, J: Line, R: seq<Line>)
    requires Accountable(A + B + V + [J] + R)
    ensures Accountable(A + V + B + R)
  {
    var F, G := A + B + V + [J] + R, A + V + B + R;
    forall p, q | 0 <= p < q < |G| ensures G[p].id != G[q].id && (G[p].tag.Some? ==> G[p].tag != G[q].tag) {
      RaiseLines(A, B, V, J, R, p);
      RaiseLines(A, B, V, J, R, q);
      var x, y := Raised(|A|, |B|, |V|, p), Raised(|A|, |B|, |V|, q);
      assert x < y || y < x;
    }
  }

  lemma LowerSeekAbove(A: seq<Line>, B: seq<Line>, V: seq<Line>, J: Line, R: seq<Line>, p: nat)
    requires p < |A| && Seek(A, p) < |A|
    ensures SeeksAlong(A + B + V + [J] + R, A + V + B + R, Lowered(|A|, |B|, |V|, |R|).phi, p)
  {
    hide Seek;
    var F, G := A + B + V + [J] + R, A + V + B + R;
    assert F == [] + A + (B + V + [J] + R) && G == [] + A + (V + B + R);
    SeekMoves(F, G, [], A, B + V + [J] + R, [], V + B + R, p);
    SeekTwice(G, p);
  }

  lemma LowerSeekBlock(A: seq<Line>, B: seq<Line>, V: seq<Line>, J: Line, R: seq<Line>, p: nat)
    requires p < |B| && Seek(B, p) < |B|
    ensures Seek(A + B + V + [J] + R, |A| + p) == |A| + Seek(B, p)
    ensures Seek(A + V + B + R, |A| + |V| + p) == |A| + |V| + Seek(B, p)
    ensures SeeksAlong(A + B + V + [J] + R, A + V + B + R, Lowered(|A|, |B|, |V|, |R|).phi, |A| + p)
  {
    hide Seek;
    var F, G := A + B + V + [J] + R, A + V + B + R;
    assert F == A + B + (V + [J] + R) && G == (A + V) + B + R;
    SeekMoves(F, G, A, B, V + [J] + R, A + V, R, p);
    SeekTwice(G, |A| + |V| + p);
  }

  lemma LowerSeekBelow(A: seq<Line>, B: seq<Line>, V: seq<Line>, J: Line, R: seq<Line>, p: nat)
    requires p <= |R|
    ensures SeeksAlong(A + B + V + [J] + R, A + V + B + R, Lowered(|A|, |B|, |V|, |R|).phi, |A| + |B| + |V| + 1 + p)
  {
    hide Seek;
    var F, G := A + B + V + [J] + R, A + V + B + R;
    assert F == (A + B + V + [J]) + R + [] && G == (A + V + B) + R + [];
    SeekMoves(F, G, A + B + V + [J], R, [], A + V + B, [], p);
    SeekTwice(G, |A| + |V| + |B| + p);
  }

  /** From a bare label, over blank lines, into the stretch behind them. */
  lemma SeekInto(A: seq<Line>, V: seq<Line>, B: seq<Line>, C: seq<Line>, p: nat)
    requires p < |A| && Seek(A, p) == |A| && Blank(V) && Seek(B, 0) < |B|
    ensures Seek(A + V + B + C, p) == |A| + |V| + Seek(B, 0)
  {
    var F := A + V + B + C;
    assert forall x | p <= x < |A| :: A[x].ins == [] && F[x] == A[x];
    assert forall x | |A| <= x < |A| + |V| :: F[x] == V[x - |A|];
    SeekSkip(F, p, |A| + |V|);
    hide Seek;
    SeekWithin(A + V, B, C, 0);
  }

  lemma NothingBetween(A: seq<Line>, B: seq<Line>, V: seq<Line>, J: Line, R: seq<Line>)
    ensures Blank([]) && A + B + V + [J] + R == A + [] + B + (V + [J] + R)
  {
  }

  lemma LowerSeeksInto(A: seq<Line>, B: seq<Line>, V: seq<Line>, J: Line, R: seq<Line>, p: nat)
    requires p < |A| && Seek(A, p) == |A| && Blank(V) && Seek(B, 0) < |B|
    ensures Seek(A + B + V + [J] + R, p) == |A| + Seek(B, 0) && Seek(A + V + B + R, p) == |A| + |V| + Seek(B, 0)
  {
    hide *;
    NothingBetween(A, B, V, J, R);
    SeekInto(A, [], B, V + [J] + R, p);
    SeekInto(A, V, B, R, p);
  }

  /** From a bare label above, into the block. */
  lemma LowerSeekInto(A: seq<Line>, B: seq<Line>, V: seq<Line>, J: Line, R: seq<Line>, p: nat)
    requires p < |A| && Seek(A, p) == |A| && Blank(V) && Seek(B, 0) < |B|
    ensures SeeksAlong(A + B + V + [J] + R, A + V + B + R, Lowered(|A|, |B|, |V|, |R|).phi, p)
  {
    hide Seek;
    LowerSeeksInto(A, B, V, J, R, p);
    SeekTwice(A + V + B + R, p);
  }

  /** From a blank line between, to the jump, or to the block where the jump was. */
  lemma LowerSeekBetween(A: seq<Line>, B: seq<Line>, V: seq<Line>, J: Line, R: seq<Line>, p: nat)
    requires |A| + |B| <= p <= |A| + |B| + |V| && Blank(V) && J.ins != []
    ensures SeeksAlong(A + B + V + [J] + R, A + V + B + R, Lowered(|A|, |B|, |V|, |R|).phi, p)
  {
    var F, G := A + B + V + [J] + R, A + V + B + R;
    assert F[|A| + |B| + |V|] == J;
    assert forall x | p <= x < |A| + |B| + |V| :: F[x] == V[x - |A| - |B|];
    assert forall x | p - |B| <= x < |A| + |V| :: G[x] == V[x - |A|];
    SeekSkip(F, p, |A| + |B| + |V|);
    SeekSkip(G, p - |B|, |A| + |V|);
  }

  lemma LowerSeek(A: seq<Line>, B: seq<Line>, V: seq<Line>, J: Line, R: seq<Line>, p: nat)
    requires p <= |A + B + V + [J] + R| && Blank(V) && J.ins != [] && Seek(B, 0) < |B|
    requires |A| <= p < |A| + |B| ==> Seek(B, p - |A|) < |B|
    ensures |Lowered(|A|, |B|, |V|, |R|).phi| == |A + B + V + [J] + R| + 1
    ensures SeeksAlong(A + B + V + [J] + R, A + V + B + R, Lowered(|A|, |B|, |V|, |R|).phi, p)
  {
    LowerLines(A, B, V, J, R);
    hide *;
    if p < |A| {
      if Seek(A, p) < |A| { LowerSeekAbove(A, B, V, J, R, p); } else { LowerSeekInto(A, B, V, J, R, p); }
    }
    else if p < |A| + |B| { LowerSeekBlock(A, B, V, J, R, p - |A|); }
    else if p <= |A| + |B| + |V| { LowerSeekBetween(A, B, V, J, R, p); }
    else { LowerSeekBelow(A, B, V, J, R, p - |A| - |B| - |V| - 1); }
  }

  /** A lone jump below its block, only blank lines between, and control comes in by label alone. */
  ghost predicate Lowerable(A: seq<Line>, B: seq<Line>, V: seq<Line>, J: Line, R: seq<Line>) {
    && Accountable(A + B + V + [J] + R) && Stays(A) && Sealed(B) && Blank(V)
    && |J.ins| == 1 && J.ins[0].Jmp? && J.tag.None? && B != [] && B[0].tag == Some(J.ins[0].target)
  }

  /** Where a line of the program falls to. */
  lemma LowerFalls(A: seq<Line>, B: seq<Line>, V: seq<Line>, J: Line, R: seq<Line>, p: nat)
    requires Lowerable(A, B, V, J, R) && p < |A + B + V + [J] + R| && p != |A| + |B| + |V| && Falls((A + B + V + [J] + R)[p].ins)
    ensures var phi := Lowered(|A|, |B|, |V|, |R|).phi; |phi| == |A + B + V + [J] + R| + 1 && phi[p + 1] == phi[p] + 1
    ensures |A| <= p + 1 < |A| + |B| ==> Seek(B, p + 1 - |A|) < |B|
  {
    var F := A + B + V + [J] + R;
    hide Seek;
    assert Seek(A, |A|) == |A| && Seek(B, |B|) == |B|;
    assert forall x | 0 <= x < |V| :: F[|A| + |B| + x] == V[x];
    if p < |A| { assert F[p] == A[p]; }
    else if p < |A| + |B| { assert F[p] == B[p - |A|]; }
  }

  lemma KeptBy(F: seq<Line>, G: seq<Line>, phi: seq<nat>, p: nat)
    requires |phi| == |F| + 1 && p < |F| && phi[p] < |G| && G[phi[p]] == F[p]
    requires Falls(F[p].ins) ==> phi[p + 1] == phi[p] + 1 && SeeksAlong(F, G, phi, p + 1)
    ensures KeptOk(F, G, phi, p)
  {
    hide Seek;
  }

  lemma LowerableParts(A: seq<Line>, B: seq<Line>, V: seq<Line>, J: Line, R: seq<Line>)
    requires Lowerable(A, B, V, J, R)
    ensures Blank(V) && J.ins != [] && Seek(B, 0) < |B|
  {
    hide Seek;
  }

  lemma LowerKept(A: seq<Line>, B: seq<Line>, V: seq<Line>, J: Line, R: seq<Line>, p: nat)
    requires Lowerable(A, B, V, J, R) && p < |A + B + V + [J] + R| && p != |A| + |B| + |V|
    ensures |Lowered(|A|, |B|, |V|, |R|).phi| == |A + B + V + [J] + R| + 1
    ensures KeptOk(A + B + V + [J] + R, A + V + B + R, Lowered(|A|, |B|, |V|, |R|).phi, p)
  {
    hide *;
    LowerLines(A, B, V, J, R);
    LowerableParts(A, B, V, J, R);
    if Falls((A + B + V + [J] + R)[p].ins) {
      LowerFalls(A, B, V, J, R, p);
      LowerSeek(A, B, V, J, R, p + 1);
    }
    KeptBy(A + B + V + [J] + R, A + V + B + R, Lowered(|A|, |B|, |V|, |R|).phi, p);
  }

  lemma LowerJump(A: seq<Line>, B: seq<Line>, V: seq<Line>, J: Line, R: seq<Line>)
    requires Lowerable(A, B, V, J, R)
    ensures |Lowered(|A|, |B|, |V|, |R|).phi| == |A + B + V + [J] + R| + 1
    ensures DeletedOk(A + B + V + [J] + R, A + V + B + R, Lowered(|A|, |B|, |V|, |R|), |A| + |B| + |V|)
  {
    hide Seek, DefFrom;
    LowerLines(A, B, V, J, R);
    var F := A + B + V + [J] + R;
    assert F[|A|] == B[0];
    DefIs(F, J.ins[0].target, |A|);
    LowerSeekBlock(A, B, V, J, R, 0);
  }

  lemma LowerLabel(A: seq<Line>, B: seq<Line>, V: seq<Line>, J: Line, R: seq<Line>, t: string)
    requires Lowerable(A, B, V, J, R)
    ensures |Lowered(|A|, |B|, |V|, |R|).phi| == |A + B + V + [J] + R| + 1
    ensures LabelOk(A + B + V + [J] + R, A + V + B + R, Lowered(|A|, |B|, |V|, |R|).phi, t)
  {
    hide Seek, DefFrom;
    var F, G, phi := A + B + V + [J] + R, A + V + B + R, Lowered(|A|, |B|, |V|, |R|).phi;
    LowerLines(A, B, V, J, R);
    LowerAccountable(A, B, V, J, R);
    hide Lowered;
    if Def(F, t).Some? {
      var d := Def(F, t).value;
      assert d != |A| + |B| + |V|;
      if |A| <= d < |A| + |B| { assert F[d] == B[d - |A|]; }
      LowerSeek(A, B, V, J, R, d);
    }
    assert forall q | q in G :: q in F;
    LabelBy(F, G, phi, t);
  }

  lemma LowerOrigin(A: seq<Line>, B: seq<Line>, V: seq<Line>, J: Line, R: seq<Line>, q: nat)
    requires q < |A + V + B + R| && (A + V + B + R)[q].ins != []
    ensures |Lowered(|A|, |B|, |V|, |R|).phi| == |A + B + V + [J] + R| + 1
    ensures Origin(A + B + V + [J] + R, Lowered(|A|, |B|, |V|, |R|), q)
  {
    RaiseLines(A, B, V, J, R, q);
    assert Kept(A + B + V + [J] + R, Lowered(|A|, |B|, |V|, |R|), Raised(|A|, |B|, |V|, q));
  }

  lemma LowerSimulates(isa: Isa, A: seq<Line>, B: seq<Line>, V: seq<Line>, J: Line, R: seq<Line>)
    requires Lowerable(A, B, V, J, R)
    ensures Simulates(isa, A + B + V + [J] + R, A + V + B + R, Lowered(|A|, |B|, |V|, |R|))
  {
    var F, G, m := A + B + V + [J] + R, A + V + B + R, Lowered(|A|, |B|, |V|, |R|);
    LowerAccountable(A, B, V, J, R);
    LowerLines(A, B, V, J, R);
    LowerJump(A, B, V, J, R);
    assert Seek(G, |G|) == |G|;
    assert m.del == {|A| + |B| + |V|};
    hide LabelsOnce, Lowered, Lowerable, KeptOk, DeletedOk, LabelOk, Seek;
    forall p: nat | Kept(F, m, p) ensures KeptOk(F, G, m.phi, p) { LowerKept(A, B, V, J, R, p); }
    forall t | Live(isa, F, m.del, t) ensures LabelOk(F, G, m.phi, t) { LowerLabel(A, B, V, J, R, t); }
    forall q: nat | q < |G| && HasCall(G[q].ins) ensures Origin(F, m, q) { LowerOrigin(A, B, V, J, R, q); }
  }

  /** The block may take the jump's place, whatever labels stand above it. */
  lemma LowerSame(isa: Isa, A: seq<Line>, B: seq<Line>, V: seq<Line>, J: Line, R: seq<Line>)
    requires Lowerable(A, B, V, J, R)
    ensures SameBehaviour(isa, A + B + V + [J] + R, A + V + B + R)
  {
    var F, m := A + B + V + [J] + R, Lowered(|A|, |B|, |V|, |R|);
    LowerSimulates(isa, A, B, V, J, R);
    LowerLines(A, B, V, J, R);
    hide Simulates, Lowerable;
    SimulatesUnconditionally(isa, F, A + V + B + R, m);
  }

  // ---------------------------------------------------------------- a stretch that is never entered

  ghost function Widened(a: nat, b: nat, c: nat): Corr {
    Corr(seq(a + c + 1, p requires 0 <= p => if p < a then p else p + b), {}, seq(a + c, _ => 0))
  }

  lemma WidenLines(A: seq<Line>, B: seq<Line>, C: seq<Line>)
    ensures var F, G, phi := A + C, A + B + C, Widened(|A|, |B|, |C|).phi;
            && |phi| == |F| + 1 && phi[|F|] == |G|
            && (forall p | 0 <= p < |F| :: phi[p] < |G| && G[phi[p]] == F[p])
            && (forall q | |A| <= q < |A| + |B| :: G[q] == B[q - |A|])
  {
  }

  lemma WidenKept(A: seq<Line>, B: seq<Line>, C: seq<Line>, p: nat)
    requires Sealed(A) && p < |A + C|
    ensures |Widened(|A|, |B|, |C|).phi| == |A + C| + 1
    ensures KeptOk(A + C, A + B + C, Widened(|A|, |B|, |C|).phi, p)
  {
    hide Seek;
    WidenLines(A, B, C);
    if Falls((A + C)[p].ins) {
      assert Seek(A, |A|) == |A|;
      if p < |A| { assert (A + C)[p] == A[p]; }
      WidenSeek(A, B, C, p + 1);
      SeekTwice(A + B + C, Widened(|A|, |B|, |C|).phi[p] + 1);
    }
  }

  lemma WidenLabel(A: seq<Line>, B: seq<Line>, C: seq<Line>, t: string)
    requires Sealed(A) && Accountable(A + B + C) && forall p | 0 <= p < |B| :: B[p].tag != Some(t)
    ensures |Widened(|A|, |B|, |C|).phi| == |A + C| + 1
    ensures LabelOk(A + C, A + B + C, Widened(|A|, |B|, |C|).phi, t)
  {
    hide Seek, DefFrom;
    var F, G, phi := A + C, A + B + C, Widened(|A|, |B|, |C|).phi;
    WidenLines(A, B, C);
    if Def(F, t).Some? {
      var d := Def(F, t).value;
      if d < |A| { assert F[d] == A[d]; }
      DefIs(G, t, phi[d]);
      WidenSeek(A, B, C, d);
      SeekTwice(G, phi[d]);
    } else {
      forall q | 0 <= q < |G| ensures G[q].tag != Some(t) {
        if q < |A| { assert G[q] == F[q]; } else if q >= |A| + |B| { assert G[q] == F[q - |B|]; }
      }
    }
  }

  /** A stretch nothing falls into, whose labels nobody can reach, may go. */
  lemma UnreachedSimulates(isa: Isa, A: seq<Line>, B: seq<Line>, C: seq<Line>)
    requires Sealed(A) && Accountable(A + B + C)
    requires forall p | 0 <= p < |B| :: !HasCall(B[p].ins) && (B[p].tag.Some? ==> !Live(isa, A + C, {}, B[p].tag.value))
    ensures Simulates(isa, A + C, A + B + C, Widened(|A|, |B|, |C|))
  {
    var F, G, m := A + C, A + B + C, Widened(|A|, |B|, |C|);
    WidenLines(A, B, C);
    forall p, q | 0 <= p < q < |F| ensures F[p].id != F[q].id { assert F[p] == G[m.phi[p]] && F[q] == G[m.phi[q]]; }
    assert Seek(G, |G|) == |G|;
    forall p: nat | Kept(F, m, p) ensures KeptOk(F, G, m.phi, p) { WidenKept(A, B, C, p); }
    forall t | Live(isa, F, m.del, t) ensures LabelOk(F, G, m.phi, t) { WidenLabel(A, B, C, t); }
    forall q | 0 <= q < |G| && HasCall(G[q].ins) ensures Origin(F, m, q) {
      var p := if q < |A| then q else q - |B|;
      assert m.phi[p] == q && Kept(F, m, p);
    }
  }

  lemma UnreachedSame(isa: Isa, A: seq<Line>, B: seq<Line>, C: seq<Line>)
    requires Sealed(A) && Accountable(A + B + C)
    requires forall p | 0 <= p < |B| :: !HasCall(B[p].ins) && (B[p].tag.Some? ==> !Live(isa, A + C, {}, B[p].tag.value))
    ensures SameBehaviour(isa, A + B + C, A + C) && Accountable(A + C)
  {
    UnreachedSimulates(isa, A, B, C);
    SimulatesUnconditionally(isa, A + C, A + B + C, Widened(|A|, |B|, |C|));
    forall t, st | t in isa.taken ensures SameFrom(isa, A + B + C, A + C, t, st) { assert SameFrom(isa, A + C, A + B + C, t, st); }
    CutAccountable(A, B, C);
  }

  lemma CutAccountable(A: seq<Line>, B: seq<Line>, C: seq<Line>)
    requires Accountable(A + B + C)
    ensures Accountable(A + C)
  {
    var F, G, phi := A + C, A + B + C, Widened(|A|, |B|, |C|).phi;
    WidenLines(A, B, C);
    forall p, q | 0 <= p < q < |F| ensures F[p].id != F[q].id && (F[p].tag.Some? ==> F[p].tag != F[q].tag) {
      assert F[p] == G[phi[p]] && F[q] == G[phi[q]];
    }
  }

  lemma WidenSeek(A: seq<Line>, B: seq<Line>, C: seq<Line>, p: nat)
    requires p <= |A + C| && (p < |A| ==> Seek(A, p) < |A|)
    ensures Seek(A + B + C, Widened(|A|, |B|, |C|).phi[p]) == Widened(|A|, |B|, |C|).phi[Seek(A + C, p)]
  {
    hide Seek;
    if p < |A| {
      SeekWithin([], A, C, p);
      SeekWithin([], A, B + C, p);
      assert A + C == [] + A + C && A + B + C == [] + A + (B + C);
    } else {
      SeekWithin(A, C, [], p - |A|);
      SeekWithin(A + B, C, [], p - |A|);
      assert A + C == A + C + [] && A + B + C == (A + B) + C + [];
    }
  }

  // ---------------------------------------------------------------- writing out two stretches

  lemma OutCons(S: seq<Line>, w: Work, a: nat, b: nat)
    requires Fits(S, w) && a < b <= |S|
    ensures Out(S, w, a, b) == Chunk(S, w, a) + Out(S, w, a + 1, b)
  {
  }

  lemma OutNone(S: seq<Line>, w: Work, a: nat)
    requires Fits(S, w) && a <= |S|
    ensures Out(S, w, a, a) == []
  {
  }

  lemma ChunkOfBoth(S: seq<Line>, T: seq<Line>, d: seq<int>, e: seq<int>)
    requires |d| == |S| && |e| == |T|
    ensures Fits(S, Start(d)) && Fits(T, Start(e)) && Fits(S + T, Start(d + e))
    ensures forall a: nat | a < |S| :: Chunk(S + T, Start(d + e), a) == Chunk(S, Start(d), a)
    ensures forall a: nat | a < |T| :: Chunk(S + T, Start(d + e), |S| + a) == Chunk(T, Start(e), a)
  {
  }

  lemma {:induction false} OutPrefix(S: seq<Line>, T: seq<Line>, d: seq<int>, e: seq<int>, a: nat, b: nat)
    requires |d| == |S| && |e| == |T| && a <= b <= |S|
    ensures Out(S + T, Start(d + e), a, b) == Out(S, Start(d), a, b)
    decreases b - a
  {
    hide *;
    ChunkOfBoth(S, T, d, e);
    if a == b {
      OutNone(S, Start(d), a);
      OutNone(S + T, Start(d + e), a);
    } else {
      OutPrefix(S, T, d, e, a + 1, b);
      OutCons(S, Start(d), a, b);
      OutCons(S + T, Start(d + e), a, b);
    }
  }

  lemma {:induction false} OutSuffix(S: seq<Line>, T: seq<Line>, d: seq<int>, e: seq<int>, a: nat, b: nat)
    requires |d| == |S| && |e| == |T| && a <= b <= |T|
    ensures Out(S + T, Start(d + e), |S| + a, |S| + b) == Out(T, Start(e), a, b)
    decreases b - a
  {
    hide *;
    ChunkOfBoth(S, T, d, e);
    if a == b {
      OutNone(T, Start(e), a);
      OutNone(S + T, Start(d + e), |S| + a);
    } else {
      OutSuffix(S, T, d, e, a + 1, b);
      OutCons(T, Start(e), a, b);
      OutCons(S + T, Start(d + e), |S| + a, |S| + b);
    }
  }

  lemma OutputOfBoth(S: seq<Line>, T: seq<Line>, d: seq<int>, e: seq<int>)
    requires |d| == |S| && |e| == |T|
    ensures Output(S + T, Start(d + e)) == Output(S, Start(d)) + Output(T, Start(e))
  {
    OutSplit(S + T, Start(d + e), 0, |S|, |S| + |T|);
    OutPrefix(S, T, d, e, 0, |S|);
    OutSuffix(S, T, d, e, 0, |T|);
  }

  lemma {:induction false} OutputOfKept(S: seq<Line>, d: seq<int>, a: nat)
    requires |d| == |S| && a <= |S| && forall x | 0 <= x < |d| :: d[x] == 0
    ensures Out(S, Start(d), a, |S|) == S[a..]
    decreases |S| - a
  {
    if a < |S| { OutputOfKept(S, d, a + 1); }
  }

  lemma OutputAccountable(P: seq<Line>, dead: seq<int>)
    requires |dead| == |P| && Accountable(P)
    ensures Accountable(Output(P, Start(dead)))
  {
    var Q := Output(P, Start(dead));
    OutputIdsOnce(P, dead);
    forall x, y | 0 <= x < y < |Q| && Q[x].tag.Some? ensures Q[x].tag != Q[y].tag {
      var p := Origins(P, dead, x, |P|);
      var r := Origins(P, dead, y, |P|);
    }
  }
}
