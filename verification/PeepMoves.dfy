/** Exactly when a block is moved to the jump that names it, said of the lines alone. */
module PeepMoves {
  import opened Common
  import opened PeepSyntax
  import opened PeepRules

  /** Line `d` is the first surviving one that defines `t`. */
  predicate FirstDefines(P: seq<Line>, dead: seq<int>, t: string, d: nat)
    requires |dead| == |P|
  {
    d < |P| && dead[d] == 0 && P[d].tag == Some(t) && forall k | 0 <= k < d :: dead[k] != 0 || P[k].tag != Some(t)
  }

  /** Where `t` is named in the text that still stands: the line, and the word on it. */
  function Mentions(P: seq<Line>, blank: seq<bool>, t: string, a: nat): set<(nat, nat)>
    requires |blank| == |P|
  {
    set x: nat, k: nat | a <= x < |P| && k < |P[x].words| && !blank[x] && P[x].words[k] == t :: (x, k)
  }

  /** The last instruction that survives before line `d` does not run on into it. */
  ghost predicate FlowEnds(P: seq<Line>, dead: seq<int>, d: nat)
    requires |dead| == |P| && d <= |P|
  {
    exists p :: 0 <= p < d && dead[p] == 0 && P[p].ins != [] && !Falls(P[p].ins) && forall x | p < x < d :: dead[x] != 0 || P[x].ins == []
  }

  /** A line that closes a block: one jump, or fused parts of which the last is a jump and none is refused. */
  predicate Closes(l: Line) {
    l.ins != [] && if l.fused then (forall k | 0 <= k < |l.ins| :: !Refused(l.ins[k])) && l.ins[|l.ins| - 1].Jmp? else l.ins[0].Jmp?
  }

  /** A line inside a block. */
  predicate Inside(l: Line) { l.ins == [] || (!l.fused && !Refused(l.ins[0]) && !l.ins[0].Jmp?) }

  /** The lines that survive and hold an instruction. */
  function Held(P: seq<Line>, dead: seq<int>, a: nat, b: nat): set<nat>
    requires |dead| == |P|
  {
    set x: nat | a <= x < b && x < |P| && dead[x] == 0 && P[x].ins != []
  }

  /** Lines `d` to `e` are a block: labelled at most at the top, closed at the bottom, at most twelve between. */
  ghost predicate IsBlock(P: seq<Line>, dead: seq<int>, d: nat, e: nat)
    requires |dead| == |P|
  {
    && d <= e < |P| && dead[e] == 0 && Closes(P[e])
    && (forall x | d < x <= e :: dead[x] != 0 || P[x].tag.None?)
    && (forall x | d <= x < e :: dead[x] != 0 || Inside(P[x]))
    && |Held(P, dead, d, e)| <= 12
  }

  lemma {:induction false} FindDefExact(P: seq<Line>, dead: seq<int>, t: string, j: nat, d: nat)
    requires |dead| == |P| && forall k | 0 <= k < j && k < |P| :: dead[k] != 0 || P[k].tag != Some(t)
    ensures FindDef(P, dead, t, j) == Some(d) <==> FirstDefines(P, dead, t, d)
    decreases |P| - j
  {
    if j < |P| && !(dead[j] == 0 && P[j].tag == Some(t)) { FindDefExact(P, dead, t, j + 1, d); }
  }

  lemma {:induction false} PrevEndsExact(P: seq<Line>, dead: seq<int>, d: nat)
    requires |dead| == |P| && d <= |P|
    ensures PrevEnds(P, dead, d) <==> FlowEnds(P, dead, d)
  {
    if d > 0 { PrevEndsExact(P, dead, d - 1); }
    hide Falls;
    if d > 0 && !(dead[d - 1] != 0 || P[d - 1].ins == []) {
      if FlowEnds(P, dead, d) {
        var p :| 0 <= p < d && dead[p] == 0 && P[p].ins != [] && !Falls(P[p].ins) && forall x | p < x < d :: dead[x] != 0 || P[x].ins == [];
        assert p == d - 1;
      }
    }
  }

  function Words(words: seq<string>, t: string, x: nat, m: nat): set<(nat, nat)> {
    set k: nat | m <= k < |words| && words[k] == t :: (x, k)
  }

  lemma {:induction false} CountExact(words: seq<string>, t: string, x: nat, m: nat)
    requires m <= |words|
    ensures Count(words[m..], t) == |Words(words, t, x, m)|
    decreases |words| - m
  {
    if m < |words| {
      CountExact(words, t, x, m + 1);
      assert words[m..][1..] == words[m + 1..];
      assert Words(words, t, x, m) == Words(words, t, x, m + 1) + if words[m] == t then {(x, m)} else {};
    } else {
      assert Words(words, t, x, m) == {};
    }
  }

  lemma {:induction false} RefsExact(P: seq<Line>, blank: seq<bool>, t: string, a: nat)
    requires |blank| == |P| && a <= |P|
    ensures Refs(P, blank, t, a) == |Mentions(P, blank, t, a)|
    decreases |P| - a
  {
    if a < |P| {
      RefsExact(P, blank, t, a + 1);
      CountExact(P[a].words, t, a, 0);
      assert P[a].words[0..] == P[a].words;
      var here, rest := if blank[a] then {} else Words(P[a].words, t, a, 0), Mentions(P, blank, t, a + 1);
      assert Mentions(P, blank, t, a) == here + rest;
      assert here * rest == {};
    } else {
      assert Mentions(P, blank, t, a) == {};
    }
  }

  lemma HeldNext(P: seq<Line>, dead: seq<int>, a: nat, b: nat)
    requires |dead| == |P| && a < b <= |P|
    ensures |Held(P, dead, a, b)| == |Held(P, dead, a + 1, b)| + if dead[a] == 0 && P[a].ins != [] then 1 else 0
  {
    assert Held(P, dead, a, b) == Held(P, dead, a + 1, b) + if dead[a] == 0 && P[a].ins != [] then {a} else {};
  }

  /** What `BlockEnd` looks for from line `j` on, `len` lines of the block being behind it. */
  ghost predicate EndsAt(P: seq<Line>, dead: seq<int>, d: nat, j: nat, len: nat, e: nat)
    requires |dead| == |P|
  {
    && j <= e < |P| && dead[e] == 0 && Closes(P[e])
    && (forall x | j <= x <= e && x > d :: dead[x] != 0 || P[x].tag.None?)
    && (forall x | j <= x < e :: dead[x] != 0 || Inside(P[x]))
    && len + |Held(P, dead, j, e)| <= 12
  }

  lemma NoneHeld(P: seq<Line>, dead: seq<int>, a: nat)
    requires |dead| == |P|
    ensures Held(P, dead, a, a) == {}
  {
  }

  lemma {:induction false} BlockEndExact(P: seq<Line>, dead: seq<int>, d: nat, j: nat, len: nat, e: nat)
    requires |dead| == |P| && d <= j && len <= 12
    ensures BlockEnd(P, dead, d, j, len) == Some(e) <==> EndsAt(P, dead, d, j, len, e)
    decreases |P| - j
  {
    if j < |P| {
      NoneHeld(P, dead, j);
      if j < e < |P| { HeldNext(P, dead, j, e); }
      hide Held;
      if dead[j] != 0 || (P[j].ins == [] && !(j > d && P[j].tag.Some?)) {
        BlockEndExact(P, dead, d, j + 1, len, e);
      } else if !(j > d && P[j].tag.Some?) && Inside(P[j]) && len < 12 {
        BlockEndExact(P, dead, d, j + 1, len + 1, e);
      }
    }
  }

  /** The block from `d` to `e` goes to the jump on line `i`: the jump stands alone and is direct, its label is first
      defined on another line and named once in all, nothing runs into it, and it heads a block. */
  ghost predicate Movable(P: seq<Line>, w: Work, i: nat, d: nat, e: nat)
    requires Fits(P, w)
  {
    && i < |P| && w.dead[i] == 0 && Jumps(P[i])
    && var t := P[i].ins[0].target;
       && t != "" && t[0] != '*' && t[0] != '%' && d != i
       && FirstDefines(P, w.dead, t, d) && |Mentions(P, w.blank, t, 0)| == 1
       && FlowEnds(P, w.dead, d) && IsBlock(P, w.dead, d, e)
  }

  lemma TargetExactly(P: seq<Line>, w: Work, i: nat, d: nat, e: nat)
    requires Fits(P, w) && i < |P|
    ensures Target(P, w, i) == Some((d, e)) <==> Movable(P, w, i, d, e)
  {
    if w.dead[i] == 0 && Jumps(P[i]) {
      var t := P[i].ins[0].target;
      FindDefExact(P, w.dead, t, 0, d);
      RefsExact(P, w.blank, t, 0);
      if d < |P| {
        PrevEndsExact(P, w.dead, d);
        BlockEndExact(P, w.dead, d, d, 0, e);
      }
      hide FindDef, Refs, PrevEnds, BlockEnd, FirstDefines, Mentions, FlowEnds, Held;
      BlockIs(P, w.dead, d, e);
      TargetIs(P, w, i, d, e);
    }
  }

  lemma BlockIs(P: seq<Line>, dead: seq<int>, d: nat, e: nat)
    requires |dead| == |P|
    ensures IsBlock(P, dead, d, e) <==> EndsAt(P, dead, d, d, 0, e)
  {
    hide Held, Closes, Inside;
  }

  lemma TargetIs(P: seq<Line>, w: Work, i: nat, d: nat, e: nat)
    requires Fits(P, w) && i < |P| && w.dead[i] == 0 && Jumps(P[i])
    ensures var t := P[i].ins[0].target;
            Target(P, w, i) == Some((d, e)) <==>
              && t != "" && t[0] != '*' && t[0] != '%' && d != i && FindDef(P, w.dead, t, 0) == Some(d)
              && Refs(P, w.blank, t, 0) == 1 && PrevEnds(P, w.dead, d) && BlockEnd(P, w.dead, d, d, 0) == Some(e)
  {
    hide FindDef, Refs, PrevEnds, BlockEnd;
  }

  lemma {:induction false} SpliceStays(P: seq<Line>, i: nat, w: Work, k: nat)
    requires Fits(P, w) && k < i && k < |P|
    ensures InlineFrom(P, i, w).splice[k] == w.splice[k]
    decreases |P| - i
  {
    hide Target;
    if i < |P| { SpliceStays(P, i + 1, InlineAt(P, w, i), k); }
  }

  /** Every line has its turn: it gets a block exactly when one is movable to it then. */
  lemma {:induction false} TriedInTurn(P: seq<Line>, i: nat, w: Work, k: nat) returns (v: Work)
    requires Fits(P, w) && i <= k < |P| && w.splice[k].None?
    ensures Fits(P, v) && InlineFrom(P, i, w) == InlineFrom(P, k, v)
    ensures InlineFrom(P, i, w).splice[k].Some? <==> exists d: nat, e: nat :: Movable(P, v, k, d, e)
    decreases k - i
  {
    hide Target, Movable;
    if i < k {
      v := TriedInTurn(P, i + 1, InlineAt(P, w, i), k);
    } else {
      v := w;
      SpliceStays(P, k + 1, InlineAt(P, w, k), k);
      if Target(P, w, k).Some? {
        var (d, e) := Target(P, w, k).value;
        TargetExactly(P, w, k, d, e);
      } else {
        forall d: nat, e: nat ensures !Movable(P, w, k, d, e) { TargetExactly(P, w, k, d, e); }
      }
    }
  }
}
