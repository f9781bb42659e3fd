/** Exactly which lines the four deleting rules mark, said of the lines alone. */
module PeepRules {
  import opened Common
  import opened PeepSyntax

  /** An unfused line that holds a `mov`. */
  predicate Moves(l: Line) { l.ins != [] && !l.fused && l.ins[0].Mov? }

  predicate Bare(l: Line) { l.ins == [] && l.tag.None? }

  predicate SelfMov(l: Line) { Moves(l) && l.ins[0].dst == l.ins[0].src }

  /** Line `i` stores to memory, and the next line with a label or an instruction is the unlabelled load back. */
  ghost predicate Reload(P: seq<Line>, i: nat, j: nat) {
    && i < j < |P| && Moves(P[i]) && P[i].ins[0].dst.Mem?
    && (forall k | i < k < j :: Bare(P[k]))
    && Moves(P[j]) && P[j].tag.None? && P[j].ins[0] == Mov(P[i].ins[0].src, P[i].ins[0].dst)
  }

  /** The block goes on past the line, and what the load `x` loads is still there, for all that is reported. */
  predicate Passes(l: Line, x: Instr)
    requires x.Mov?
  {
    Bare(l) || (l.ins != [] && !Barrier(l) && (l.ins[0] == x || !WritesReg(l.ins[0], x.dst)))
  }

  predicate Repeats(l: Line, x: Instr) { l.ins != [] && !Barrier(l) && l.ins[0] == x }

  /** Line `j` repeats the load on line `i` within its block, no write to the register being reported between. */
  ghost predicate Repeat(P: seq<Line>, i: nat, j: nat) {
    && i < j < |P| && Moves(P[i]) && P[i].ins[0].src.Got?
    && Repeats(P[j], P[i].ins[0]) && forall k | i < k < j :: Passes(P[k], P[i].ins[0])
  }

  predicate Jumps(l: Line) { l.ins != [] && !l.fused && l.ins[0].Jmp? }

  /** Is the line marked, and not for a jump over nothing? */
  predicate MovGone(l: Line, mark: int) { mark != 0 && l.ins != [] && l.ins[0].Mov? }

  /** Line `i` jumps to the label of line `k`, with nothing between but blank lines and deleted `mov`s. */
  ghost predicate JumpOver(P: seq<Line>, dead: seq<int>, i: nat, k: nat)
    requires |dead| == |P|
  {
    && i < k < |P| && Jumps(P[i]) && P[k].tag == Some(P[i].ins[0].target) && !MovGone(P[k], dead[k])
    && forall x | i < x < k :: Bare(P[x]) || MovGone(P[x], dead[x])
  }

  // ---------------------------------------------------------------- one rule at a time

  lemma SkipBlankExact(P: seq<Line>, j: nat)
    ensures SkipBlank(P, j) < |P| ==> !Bare(P[SkipBlank(P, j)])
    decreases |P| - j
  {
    if j < |P| && P[j].ins == [] && P[j].tag.None? { SkipBlankExact(P, j + 1); }
  }

  lemma ReloadExact(P: seq<Line>, i: nat, j: nat)
    requires i < |P| && Moves(P[i]) && P[i].ins[0].dst.Mem?
    ensures ReloadOf(P, i) == Some(j) <==> Reload(P, i, j)
  {
    var k := SkipBlank(P, i + 1);
    SkipBlankExact(P, i + 1);
    hide SkipBlank;
    assert forall x | i < x < k && x < |P| :: Bare(P[x]);
    if Reload(P, i, j) { assert !(k < j); assert !Bare(P[j]); }
  }

  /** The forward scan, if lines deleted ahead stop no scan for `x`. */
  lemma {:induction false} GotScanExact(P: seq<Line>, x: Instr, p: nat, dead: seq<int>, j: nat)
    requires |dead| == |P| && j < |P| && x.Mov? && forall k | p <= k < |P| && dead[k] != 0 :: Passes(P[k], x)
    ensures GotScan(P, x.dst, x.src, p, dead)[j] != 0 <==> dead[j] != 0 || (p <= j && Repeats(P[j], x) && forall k | p <= k < j :: Passes(P[k], x))
    decreases |P| - p
  {
    if p < |P| {
      var more := if dead[p] == 0 && Repeats(P[p], x) then dead[p := 1] else dead;
      ScanStep(P, x, p, dead);
      if Passes(P[p], x) {
        GotScanExact(P, x, p + 1, more, j);
        hide GotScan, Barrier, WritesReg;
      } else {
        hide GotScan, Barrier, WritesReg;
      }
    }
  }

  lemma ScanStep(P: seq<Line>, x: Instr, p: nat, dead: seq<int>)
    requires |dead| == |P| && p < |P| && x.Mov? && (dead[p] != 0 ==> Passes(P[p], x))
    ensures GotScan(P, x.dst, x.src, p, dead) == if !Passes(P[p], x) then dead
                                                 else GotScan(P, x.dst, x.src, p + 1, if dead[p] == 0 && Repeats(P[p], x) then dead[p := 1] else dead)
  {
  }

  // ---------------------------------------------------------------- the first loop

  ghost predicate ReloadCause(P: seq<Line>, dead: seq<int>, n: nat, j: nat)
    requires |dead| == |P|
  {
    exists i: nat :: i < n && i < |P| && dead[i] == 0 && Reload(P, i, j)
  }

  ghost predicate RepeatCause(P: seq<Line>, on: Rules, n: nat, j: nat) {
    exists i: nat :: i < n && i < |P| && !(on.selfMov && SelfMov(P[i])) && Repeat(P, i, j)
  }

  /** The first `n` lines are reason to mark line `j`. */
  ghost predicate Cause(P: seq<Line>, on: Rules, dead: seq<int>, n: nat, j: nat)
    requires |dead| == |P| && j < |P|
  {
    || (on.selfMov && j < n && SelfMov(P[j]))
    || (on.storeReload && ReloadCause(P, dead, n, j))
    || (on.gotCse && RepeatCause(P, on, n, j))
  }

  ghost predicate MarkedBy(P: seq<Line>, on: Rules, n: nat, dead: seq<int>) {
    |dead| == |P| && forall j: nat | j < |P| :: dead[j] != 0 <==> Cause(P, on, dead, n, j)
  }

  /** Line `n` alone is. */
  ghost predicate NewCause(P: seq<Line>, on: Rules, dead: seq<int>, n: nat, j: nat)
    requires |dead| == |P| && n < |P|
  {
    || (on.selfMov && j == n && SelfMov(P[n]))
    || (on.storeReload && dead[n] == 0 && Reload(P, n, j))
    || (on.gotCse && !(on.selfMov && SelfMov(P[n])) && Repeat(P, n, j))
  }

  lemma CauseNext(P: seq<Line>, on: Rules, dead: seq<int>, d: seq<int>, n: nat, j: nat)
    requires |dead| == |d| == |P| && n < |P| && j < |P| && forall x | 0 <= x < n :: d[x] == dead[x]
    ensures Cause(P, on, d, n + 1, j) <==> Cause(P, on, dead, n, j) || NewCause(P, on, d, n, j)
  {
    hide Reload, Repeat, SelfMov;
    if ReloadCause(P, d, n + 1, j) { var i: nat :| i < n + 1 && i < |P| && d[i] == 0 && Reload(P, i, j); assert i < n || i == n; }
    if ReloadCause(P, dead, n, j) { var i: nat :| i < n && i < |P| && dead[i] == 0 && Reload(P, i, j); assert d[i] == 0; }
    if RepeatCause(P, on, n + 1, j) { var i: nat :| i < n + 1 && i < |P| && !(on.selfMov && SelfMov(P[i])) && Repeat(P, i, j); assert i < n || i == n; }
  }

  lemma RepeatTrans(P: seq<Line>, i: nat, n: nat, j: nat)
    requires Repeat(P, i, n) && Repeat(P, n, j)
    ensures Repeat(P, i, j)
  {
    hide Barrier, WritesReg;
    forall k | i < k < j ensures Passes(P[k], P[i].ins[0]) { assert k < n || k == n || n < k; }
  }

  /** Lines marked ahead stop no scan. */
  lemma AheadPasses(P: seq<Line>, on: Rules, dead: seq<int>, n: nat, k: nat)
    requires MarkedBy(P, on, n, dead) && n < k < |P| && dead[k] != 0 && Moves(P[n])
    ensures Passes(P[k], P[n].ins[0])
  {
    assert Cause(P, on, dead, n, k);
    assert forall i: nat | i < n :: !Reload(P, i, k) by { forall i: nat | i < n ensures !Reload(P, i, k) { assert !Bare(P[n]); } }
    var i: nat :| i < n && i < |P| && !(on.selfMov && SelfMov(P[i])) && Repeat(P, i, k);
    assert Passes(P[n], P[i].ins[0]);
  }

  /** Lines that hold no unfused `mov`, or are marked, are no new reason. */
  lemma NoNewCause(P: seq<Line>, on: Rules, dead: seq<int>, n: nat, j: nat)
    requires MarkedBy(P, on, n, dead) && n < |P| && j < |P| && (dead[n] != 0 || !Moves(P[n])) && NewCause(P, on, dead, n, j)
    ensures dead[j] != 0
  {
    if !(on.selfMov && j == n && SelfMov(P[n])) {
      assert Repeat(P, n, j);
      assert Cause(P, on, dead, n, n);
      assert !(on.storeReload && ReloadCause(P, dead, n, n));
      var i: nat :| i < n && i < |P| && !(on.selfMov && SelfMov(P[i])) && Repeat(P, i, n);
      RepeatTrans(P, i, n, j);
      assert Cause(P, on, dead, n, j);
    }
  }

  /** What one line marks. */
  lemma LocalStep(P: seq<Line>, on: Rules, dead: seq<int>, n: nat, j: nat)
    requires MarkedBy(P, on, n, dead) && n < |P| && j < |P|
    ensures var d := LocalAt(P, on, n, dead);
            && (d[j] != 0 <==> dead[j] != 0 || NewCause(P, on, d, n, j))
            && (forall x | 0 <= x < n :: d[x] == dead[x])
  {
    var d := LocalAt(P, on, n, dead);
    if dead[n] != 0 || !Moves(P[n]) {
      assert d == dead;
      if NewCause(P, on, dead, n, j) { NoNewCause(P, on, dead, n, j); }
    } else if on.selfMov && SelfMov(P[n]) {
      assert d == dead[n := 1];
    } else {
      MovStep(P, on, dead, n, j);
    }
  }

  lemma MovStep(P: seq<Line>, on: Rules, dead: seq<int>, n: nat, j: nat)
    requires MarkedBy(P, on, n, dead) && n < |P| && j < |P| && dead[n] == 0 && Moves(P[n]) && !(on.selfMov && SelfMov(P[n]))
    ensures var d := LocalAt(P, on, n, dead);
            && (d[j] != 0 <==> dead[j] != 0 || NewCause(P, on, d, n, j))
            && (forall x | 0 <= x <= n :: d[x] == dead[x])
  {
    var x := P[n].ins[0];
    var d1 := if on.storeReload && x.dst.Mem? && ReloadOf(P, n).Some? then dead[ReloadOf(P, n).value := 1] else dead;
    assert LocalAt(P, on, n, dead) == if on.gotCse && x.src.Got? then GotScan(P, x.dst, x.src, n + 1, d1) else d1;
    ReloadMarks(P, on, dead, n, d1);
    if on.gotCse && x.src.Got? {
      forall k | n + 1 <= k < |P| && d1[k] != 0 ensures Passes(P[k], x) { if dead[k] != 0 { AheadPasses(P, on, dead, n, k); } else { ReloadPasses(P, n, k); } }
      hide ReloadOf, LocalAt, Passes, Repeats, Reload;
      forall y: nat | y < |P| ensures GotScan(P, x.dst, x.src, n + 1, d1)[y] != 0 <==> d1[y] != 0 || Repeat(P, n, y) { GotScanExact(P, x, n + 1, d1, y); }
      GotScanKeeps(P, x.dst, x.src, n + 1, d1);
    }
    hide ReloadOf, LocalAt, Passes, Repeats;
  }

  lemma ReloadMarks(P: seq<Line>, on: Rules, dead: seq<int>, n: nat, d1: seq<int>)
    requires |dead| == |P| && n < |P| && Moves(P[n])
    requires d1 == if on.storeReload && P[n].ins[0].dst.Mem? && ReloadOf(P, n).Some? then dead[ReloadOf(P, n).value := 1] else dead
    ensures forall y: nat | y < |P| :: d1[y] != 0 <==> dead[y] != 0 || (on.storeReload && Reload(P, n, y))
    ensures forall y | 0 <= y <= n :: d1[y] == dead[y]
  {
    if P[n].ins[0].dst.Mem? {
      forall y: nat | y < |P| ensures ReloadOf(P, n) == Some(y) <==> Reload(P, n, y) { ReloadExact(P, n, y); }
      hide ReloadOf;
    }
  }

  lemma ReloadPasses(P: seq<Line>, n: nat, k: nat)
    requires Reload(P, n, k) && P[n].ins[0].src.Got?
    ensures Passes(P[k], P[n].ins[0])
  {
  }

  lemma {:induction false} GotScanKeeps(P: seq<Line>, a: Operand, b: Operand, p: nat, dead: seq<int>)
    requires |dead| == |P|
    ensures forall x | 0 <= x < p && x < |P| :: GotScan(P, a, b, p, dead)[x] == dead[x]
    decreases |P| - p
  {
    if p < |P| {
      GotScanKeeps(P, a, b, p + 1, dead);
      GotScanKeeps(P, a, b, p + 1, dead[p := 1]);
    }
  }

  lemma StepMarkedBy(P: seq<Line>, on: Rules, dead: seq<int>, n: nat)
    requires MarkedBy(P, on, n, dead) && n < |P|
    ensures MarkedBy(P, on, n + 1, LocalAt(P, on, n, dead))
  {
    var d := LocalAt(P, on, n, dead);
    hide LocalAt, Cause, NewCause;
    forall j: nat | j < |P| ensures d[j] != 0 <==> Cause(P, on, d, n + 1, j) {
      LocalStep(P, on, dead, n, j);
      CauseNext(P, on, dead, d, n, j);
    }
  }

  lemma {:induction false} LoopMarkedBy(P: seq<Line>, on: Rules, n: nat, dead: seq<int>)
    requires MarkedBy(P, on, n, dead) && n <= |P|
    ensures MarkedBy(P, on, |P|, LocalFrom(P, on, n, dead))
    decreases |P| - n
  {
    if n < |P| {
      StepMarkedBy(P, on, dead, n);
      hide LocalAt, MarkedBy;
      LoopMarkedBy(P, on, n + 1, LocalAt(P, on, n, dead));
    }
  }

  // ---------------------------------------------------------------- jumps over nothing

  /** The marks of the first loop are on `mov`s. */
  lemma CauseMoves(P: seq<Line>, on: Rules, dead: seq<int>, n: nat, j: nat)
    requires |dead| == |P| && j < |P| && Cause(P, on, dead, n, j)
    ensures P[j].ins != [] && P[j].ins[0].Mov?
  {
    hide Barrier, WritesReg;
  }

  lemma {:induction false} NextLabelExact(P: seq<Line>, dead: seq<int>, j: nat, t: string)
    requires |dead| == |P|
    ensures NextLabel(P, dead, j) == Some(t) <==>
              exists k: nat :: j <= k < |P| && dead[k] == 0 && P[k].tag == Some(t) && forall x | j <= x < k :: dead[x] != 0 || Bare(P[x])
    decreases |P| - j
  {
    if j < |P| { NextLabelExact(P, dead, j + 1, t); }
  }

  lemma {:induction false} NextLabelSame(P: seq<Line>, dead: seq<int>, d: seq<int>, j: nat)
    requires |dead| == |d| == |P| && forall x | j <= x < |P| :: d[x] == dead[x]
    ensures NextLabel(P, dead, j) == NextLabel(P, d, j)
    decreases |P| - j
  {
    if j < |P| { NextLabelSame(P, dead, d, j + 1); }
  }

  ghost predicate OverNothing(P: seq<Line>, dead: seq<int>, j: nat)
    requires |dead| == |P| && j < |P|
  {
    Jumps(P[j]) && NextLabel(P, dead, j + 1) == Some(P[j].ins[0].target)
  }

  /** Jumps are judged by the marks of the first loop alone, for those the second loop makes lie behind. */
  lemma {:induction false} DeadJmpsExact(P: seq<Line>, on: Rules, n: nat, dead: seq<int>, j: nat)
    requires |dead| == |P| && j < |P| && forall x | n <= x < |P| && dead[x] != 0 :: !Jumps(P[x])
    ensures DeadJmpFrom(P, on, n, dead)[j] != 0 <==> dead[j] != 0 || (on.deadJmp && n <= j && OverNothing(P, dead, j))
    decreases |P| - n
  {
    if n < |P| {
      var d := DeadJmpAt(P, on, n, dead);
      if n < j { NextLabelSame(P, dead, d, j + 1); }
      hide NextLabel;
      DeadJmpsExact(P, on, n + 1, d, j);
    }
  }

  // ---------------------------------------------------------------- all four

  /** Why a line is marked, in terms of the lines and of which are marked. */
  ghost predicate Ruled(P: seq<Line>, on: Rules, dead: seq<int>, j: nat)
    requires |dead| == |P| && j < |P|
  {
    || (on.selfMov && SelfMov(P[j]))
    || (on.storeReload && exists i: nat :: i < |P| && dead[i] == 0 && Reload(P, i, j))
    || (on.gotCse && exists i: nat :: i < |P| && !(on.selfMov && SelfMov(P[i])) && Repeat(P, i, j))
    || (on.deadJmp && exists k: nat :: JumpOver(P, dead, j, k))
  }

  lemma LocalMarks(P: seq<Line>, on: Rules) returns (l: seq<int>)
    ensures |l| == |P| && MarkedBy(P, on, |P|, l) && Deleted(P, on) == DeadJmpFrom(P, on, 0, l)
    ensures forall x: nat | x < |P| && l[x] != 0 :: P[x].ins != [] && P[x].ins[0].Mov?
  {
    var none := seq(|P|, _ => 0);
    l := LocalFrom(P, on, 0, none);
    assert MarkedBy(P, on, 0, none);
    LoopMarkedBy(P, on, 0, none);
    forall x: nat | x < |P| && l[x] != 0 ensures P[x].ins != [] && P[x].ins[0].Mov? { CauseMoves(P, on, l, |P|, x); }
    hide LocalFrom, Cause;
  }

  lemma JumpsOver(P: seq<Line>, l: seq<int>, d: seq<int>, j: nat)
    requires |l| == |d| == |P| && j < |P| && forall x: nat | x < |P| :: l[x] != 0 <==> MovGone(P[x], d[x])
    ensures OverNothing(P, l, j) <==> exists k: nat :: JumpOver(P, d, j, k)
  {
    if Jumps(P[j]) {
      var t := P[j].ins[0].target;
      NextLabelExact(P, l, j + 1, t);
      hide NextLabel, MovGone;
      if OverNothing(P, l, j) {
        var k: nat :| j + 1 <= k < |P| && l[k] == 0 && P[k].tag == Some(t) && forall x | j + 1 <= x < k :: l[x] != 0 || Bare(P[x]);
        assert JumpOver(P, d, j, k);
      }
      if k: nat :| JumpOver(P, d, j, k) {
        assert l[k] == 0 && forall x | j + 1 <= x < k :: l[x] != 0 || Bare(P[x]);
      }
    }
  }

  /** A line is marked exactly when a rule that is on says so: an unfused `mov` of an operand to itself; the load
      back right after a store that stays; a repeated load from the offset table; a jump over nothing. */
  lemma DeletedExactly(P: seq<Line>, on: Rules, j: nat)
    requires j < |P|
    ensures Deleted(P, on)[j] != 0 <==> Ruled(P, on, Deleted(P, on), j)
  {
    var l := LocalMarks(P, on);
    var d := Deleted(P, on);
    hide Deleted, MarkedBy;
    forall x: nat | x < |P| ensures d[x] != 0 <==> l[x] != 0 || (on.deadJmp && OverNothing(P, l, x)) { DeadJmpsExact(P, on, 0, l, x); }
    forall x: nat | x < |P| ensures l[x] != 0 <==> MovGone(P[x], d[x]) { hide NextLabel; }
    JumpsOver(P, l, d, j);
    MarkedAt(P, on, l, j);
    hide Reload, Repeat, JumpOver, OverNothing, SelfMov;
    assert on.storeReload ==> ((exists i: nat :: i < |P| && d[i] == 0 && Reload(P, i, j)) <==> ReloadCause(P, l, |P|, j)) by {
      forall i: nat | i < |P| && Reload(P, i, j) ensures d[i] == 0 <==> l[i] == 0 { ReloadMoves(P, i, j); }
    }
  }

  lemma ReloadMoves(P: seq<Line>, i: nat, j: nat)
    requires Reload(P, i, j)
    ensures i < |P| && Moves(P[i])
  {
  }

  lemma MarkedAt(P: seq<Line>, on: Rules, l: seq<int>, j: nat)
    requires |l| == |P| && MarkedBy(P, on, |P|, l) && j < |P|
    ensures l[j] != 0 <==> Cause(P, on, l, |P|, j)
  {
  }

  /** Of two jumps over nothing in a row only the second goes: the first is judged while the second still stands. */
  lemma FirstJumpStays(on: Rules)
    requires on.deadJmp
    ensures var P := [Line(0, None, [Jmp("L")], false, ["L"]), Line(1, None, [Jmp("L")], false, ["L"]), Line(2, Some("L"), [Nop], false, [])];
            Deleted(P, on)[0] == 0 && Deleted(P, on)[1] != 0
  {
    var P := [Line(0, None, [Jmp("L")], false, ["L"]), Line(1, None, [Jmp("L")], false, ["L"]), Line(2, Some("L"), [Nop], false, [])];
    DeletedExactly(P, on, 0);
    DeletedExactly(P, on, 1);
    var d := Deleted(P, on);
    hide Deleted;
    forall k: nat ensures !JumpOver(P, d, 0, k) { assert k > 1 ==> !Bare(P[1]) && !MovGone(P[1], d[1]); }
    assert JumpOver(P, d, 1, 2);
  }
}
