/** Lines of emitted assembly, and the peephole rules as functions of the line table.
    An operand is what the rules compare as text, so two operands are equal exactly when
    their texts are. */
module PeepSyntax {
  import opened Common

  datatype Operand = Reg(name: string) | Imm(value: int) | Mem(expr: string) | Got(sym: string)

  datatype Instr =
    | Mov(dst: Operand, src: Operand)
    | Bin(op: string, a: Operand, b: Operand)  // any other two-operand instruction
    | Pop(into: Operand)
    | Nop
    | Other(op: string, told: Option<Operand>) // one operand or none, neither pop nor nop
    | Jmp(target: string)                      // direct when some line defines the target
    | Jcc(cond: string, target: string)
    | Call(target: string)
    | Ret
    | Leave
    | Directive(text: string)

  /** One input line. `tag` is the label it defines; `ins` holds the instructions of the line: none, one, or the parts of a
      fused line. `words` are the identifiers in the raw text, the line's own label definition
      left out. `id` is the line's number in the input. */
  datatype Line = Line(id: nat, tag: Option<string>, ins: seq<Instr>, fused: bool, words: seq<string>)

  predicate IsControl(x: Instr) { x.Jmp? || x.Jcc? || x.Call? || x.Ret? }

  predicate CanFall(x: Instr) { !x.Jmp? && !x.Ret? }

  /** Can control run off the end of these instructions? */
  predicate Falls(ins: seq<Instr>) { |ins| > 0 && CanFall(ins[|ins| - 1]) }

  predicate Barrier(l: Line) {
    || l.tag.Some?
    || l.fused
    || (l.ins != [] && (IsControl(l.ins[0]) || l.ins[0].Leave? || l.ins[0].Directive?))
  }

  /** What the tool reports: the first operand is written, and anything it cannot split into two operands
      writes every register, `nop` and `cqo` excepted. It splits the line with its comment, so that a comma there
      makes two operands of one; `told` is then what it takes for the first. */
  predicate WritesReg(x: Instr, r: Operand) {
    match x
    case Mov(d, _) => d == r
    case Bin(_, a, _) => a == r
    case Nop => false
    case Other(op, told) => if told.Some? then told.value == r else op != "cqo"
    case _ => true
  }

  ghost predicate Shape(P: seq<Line>) {
    && (forall p | 0 <= p < |P| :: !P[p].fused ==> |P[p].ins| <= 1)
    && (forall p, q | 0 <= p < q < |P| :: P[p].id != P[q].id)
  }

  /** What an assembler insists on: no label is defined twice. */
  ghost predicate LabelsOnce(P: seq<Line>) {
    forall p, q | 0 <= p < q < |P| && P[p].tag.Some? :: P[p].tag != P[q].tag
  }

  datatype Rules = Rules(selfMov: bool, storeReload: bool, gotCse: bool, deadJmp: bool, inlineOnce: bool)

  // ---------------------------------------------------------------- self-mov, store-reload, got-cse

  function SkipBlank(P: seq<Line>, j: nat): (k: nat)
    ensures j <= k && (j <= |P| ==> k <= |P|)
    ensures forall x | j <= x < k :: x < |P| && P[x].ins == [] && P[x].tag.None?
    decreases |P| - j
  {
    if j < |P| && P[j].ins == [] && P[j].tag.None? then SkipBlank(P, j + 1) else j
  }

  function GotScan(P: seq<Line>, a: Operand, b: Operand, j: nat, dead: seq<int>): (d: seq<int>)
    requires |dead| == |P|
    ensures |d| == |P|
    decreases |P| - j
  {
    if j >= |P| then dead
    else if dead[j] != 0 then GotScan(P, a, b, j + 1, dead)
    else if P[j].ins == [] then if P[j].tag.Some? then dead else GotScan(P, a, b, j + 1, dead)
    else if Barrier(P[j]) then dead
    else if P[j].ins[0] == Mov(a, b) then GotScan(P, a, b, j + 1, dead[j := 1])
    else if WritesReg(P[j].ins[0], a) then dead
    else GotScan(P, a, b, j + 1, dead)
  }

  /** The line the store-reload rule deletes for a store at `i`, if there is one. */
  function ReloadOf(P: seq<Line>, i: nat): Option<nat>
    requires i < |P| && P[i].ins != [] && P[i].ins[0].Mov?
  {
    var j := SkipBlank(P, i + 1);
    if j < |P| && !P[j].fused && P[j].tag.None? && P[j].ins != [] && P[j].ins[0] == Mov(P[i].ins[0].src, P[i].ins[0].dst)
    then Some(j) else None
  }

  function LocalAt(P: seq<Line>, on: Rules, i: nat, dead: seq<int>): (d: seq<int>)
    requires |dead| == |P| && i < |P|
    ensures |d| == |P|
  {
    if dead[i] != 0 || P[i].ins == [] || P[i].fused || !P[i].ins[0].Mov? then dead
    else
      var x := P[i].ins[0];
      if on.selfMov && x.dst == x.src then dead[i := 1]
      else
        var d1 := if on.storeReload && x.dst.Mem? && ReloadOf(P, i).Some? then dead[ReloadOf(P, i).value := 1] else dead;
        if on.gotCse && x.src.Got? then GotScan(P, x.dst, x.src, i + 1, d1) else d1
  }

  function LocalFrom(P: seq<Line>, on: Rules, i: nat, dead: seq<int>): (d: seq<int>)
    requires |dead| == |P|
    ensures |d| == |P|
    decreases |P| - i
  {
    if i >= |P| then dead else LocalFrom(P, on, i + 1, LocalAt(P, on, i, dead))
  }

  // ---------------------------------------------------------------- dead-jmp

  /** The label of the first surviving line from `j` on, when it has one. */
  function NextLabel(P: seq<Line>, dead: seq<int>, j: nat): Option<string>
    requires |dead| == |P|
    decreases |P| - j
  {
    if j >= |P| then None
    else if dead[j] != 0 then NextLabel(P, dead, j + 1)
    else if P[j].tag.Some? then P[j].tag
    else if P[j].ins != [] then None
    else NextLabel(P, dead, j + 1)
  }

  function DeadJmpAt(P: seq<Line>, on: Rules, i: nat, dead: seq<int>): (d: seq<int>)
    requires |dead| == |P| && i < |P|
    ensures |d| == |P|
  {
    if on.deadJmp && dead[i] == 0 && P[i].ins != [] && !P[i].fused && P[i].ins[0].Jmp?
       && NextLabel(P, dead, i + 1) == Some(P[i].ins[0].target)
    then dead[i := 1] else dead
  }

  function DeadJmpFrom(P: seq<Line>, on: Rules, i: nat, dead: seq<int>): (d: seq<int>)
    requires |dead| == |P|
    ensures |d| == |P|
    decreases |P| - i
  {
    if i >= |P| then dead else DeadJmpFrom(P, on, i + 1, DeadJmpAt(P, on, i, dead))
  }

  /** The marks left by the four deleting rules. */
  function Deleted(P: seq<Line>, on: Rules): (d: seq<int>)
    ensures |d| == |P|
  {
    DeadJmpFrom(P, on, 0, LocalFrom(P, on, 0, seq(|P|, _ => 0)))
  }

  // ---------------------------------------------------------------- inline-single-use

  /** The tool's working arrays: deletion state, replacement text, raw text blanked. */
  datatype Work = Work(dead: seq<int>, splice: seq<Option<seq<Line>>>, blank: seq<bool>)

  ghost predicate Fits(P: seq<Line>, w: Work) { |w.dead| == |w.splice| == |w.blank| == |P| }

  function FindDef(P: seq<Line>, dead: seq<int>, t: string, j: nat): (d: Option<nat>)
    requires |dead| == |P|
    ensures d.Some? ==> j <= d.value < |P| && dead[d.value] == 0 && P[d.value].tag == Some(t)
    decreases |P| - j
  {
    if j >= |P| then None
    else if dead[j] == 0 && P[j].tag == Some(t) then Some(j)
    else FindDef(P, dead, t, j + 1)
  }

  function Count(words: seq<string>, t: string): nat {
    if words == [] then 0 else (if words[0] == t then 1 else 0) + Count(words[1..], t)
  }

  /** Occurrences of `t` in the raw text of lines `j` and later. */
  function Refs(P: seq<Line>, blank: seq<bool>, t: string, j: nat): nat
    requires |blank| == |P|
    decreases |P| - j
  {
    if j >= |P| then 0 else (if blank[j] then 0 else Count(P[j].words, t)) + Refs(P, blank, t, j + 1)
  }

  /** Does the nearest surviving instruction line before `j` end the flow? */
  function PrevEnds(P: seq<Line>, dead: seq<int>, j: nat): bool
    requires |dead| == |P| && j <= |P|
  {
    if j == 0 then false
    else if dead[j - 1] != 0 || P[j - 1].ins == [] then PrevEnds(P, dead, j - 1)
    else !Falls(P[j - 1].ins)
  }

  predicate Refused(x: Instr) { x.Directive? || x.Call? || x.Ret? || x.Jcc? }

  /** The line holding the block's closing jump, if the block may be moved. */
  function BlockEnd(P: seq<Line>, dead: seq<int>, def: nat, j: nat, len: nat): (e: Option<nat>)
    requires |dead| == |P|
    ensures e.Some? ==> j <= e.value < |P| && dead[e.value] == 0
    decreases |P| - j
  {
    if j >= |P| then None
    else if dead[j] != 0 then BlockEnd(P, dead, def, j + 1, len)
    else if j > def && P[j].tag.Some? then None
    else if P[j].ins == [] then BlockEnd(P, dead, def, j + 1, len)
    else if P[j].fused then
      if (exists k | 0 <= k < |P[j].ins| :: Refused(P[j].ins[k])) || !P[j].ins[|P[j].ins| - 1].Jmp? then None else Some(j)
    else if Refused(P[j].ins[0]) then None
    else if P[j].ins[0].Jmp? then Some(j)
    else if len + 1 > 12 then None
    else BlockEnd(P, dead, def, j + 1, len + 1)
  }

  function Raw(P: seq<Line>, w: Work, j: nat): seq<Line>
    requires Fits(P, w) && j < |P|
  {
    if w.blank[j] then [] else [P[j]]
  }

  /** The text copied to the jump site: raw lines that still hold an instruction. */
  function Copied(P: seq<Line>, w: Work, lo: nat, hi: nat): seq<Line>
    requires Fits(P, w) && lo <= hi <= |P|
    decreases hi - lo
  {
    if lo == hi then []
    else (if w.dead[lo] != 0 || P[lo].ins == [] then [] else Raw(P, w, lo)) + Copied(P, w, lo + 1, hi)
  }

  function Gone(dead: seq<int>, def: nat, e: nat): (d: seq<int>)
    requires def <= e < |dead|
    ensures |d| == |dead|
  {
    seq(|dead|, k requires 0 <= k < |dead| => if def <= k <= e then 2 else dead[k])
  }

  /** The block (definition line, closing line) that the rule moves to the jump on line `i`. */
  function Target(P: seq<Line>, w: Work, i: nat): (r: Option<(nat, nat)>)
    requires Fits(P, w) && i < |P|
    ensures r.Some? ==> r.value.0 <= r.value.1 < |P|
  {
    if w.dead[i] != 0 || P[i].ins == [] || P[i].fused || !P[i].ins[0].Jmp? then None
    else
      var t := P[i].ins[0].target;
      var def := FindDef(P, w.dead, t, 0);
      if t == "" || t[0] == '*' || t[0] == '%' || def.None? || def.value == i then None
      else if Refs(P, w.blank, t, 0) != 1 || !PrevEnds(P, w.dead, def.value) then None
      else
        var e := BlockEnd(P, w.dead, def.value, def.value, 0);
        if e.None? then None else Some((def.value, e.value))
  }

  function InlineAt(P: seq<Line>, w: Work, i: nat): (r: Work)
    requires Fits(P, w) && i < |P|
    ensures Fits(P, r)
  {
    match Target(P, w, i)
    case None => w
    case Some((d, e)) => Work(Gone(w.dead, d, e), w.splice[i := Some(Copied(P, w, d, e + 1))], w.blank[i := true])
  }

  function InlineFrom(P: seq<Line>, i: nat, w: Work): (r: Work)
    requires Fits(P, w)
    ensures Fits(P, r)
    decreases |P| - i
  {
    if i >= |P| then w else InlineFrom(P, i + 1, InlineAt(P, w, i))
  }

  function Start(dead: seq<int>): (w: Work)
  {
    Work(dead, seq(|dead|, _ => None), seq(|dead|, _ => false))
  }

  // ---------------------------------------------------------------- output

  /** A deleted instruction's label survives alone. */
  function LabelOnly(l: Line): Line { Line(l.id, l.tag, [], false, []) }

  function Chunk(P: seq<Line>, w: Work, p: nat): seq<Line>
    requires Fits(P, w) && p < |P|
  {
    if w.dead[p] == 0 then (if w.splice[p].Some? then w.splice[p].value else Raw(P, w, p))
    else if w.dead[p] == 1 && P[p].tag.Some? then [LabelOnly(P[p])]
    else []
  }

  /** The output text of lines `lo` up to, not including, `hi`. */
  function Out(P: seq<Line>, w: Work, lo: nat, hi: nat): seq<Line>
    requires Fits(P, w) && lo <= hi <= |P|
    decreases hi - lo
  {
    if lo == hi then [] else Chunk(P, w, lo) + Out(P, w, lo + 1, hi)
  }

  function Output(P: seq<Line>, w: Work): seq<Line>
    requires Fits(P, w)
  {
    Out(P, w, 0, |P|)
  }

  /** The whole tool. */
  function Peep(P: seq<Line>, on: Rules): seq<Line> {
    var w := Start(Deleted(P, on));
    Output(P, if on.inlineOnce then InlineFrom(P, 0, w) else w)
  }
}
