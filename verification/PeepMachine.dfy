/** A small-step machine for a line program. Registers are full width, the global offset table
    is constant, and everything an instruction does beyond `mov` and jumping is left to `Isa`. */
module PeepMachine {
  import opened Common
  import opened PeepSyntax
  import opened Stutter

  /** `rest` stands for flags, the stack discipline and the outside world. */
  datatype State = State(regs: map<string, int>, mem: map<int, int>, rest: int)

  function Get(st: State, r: string): int { if r in st.regs then st.regs[r] else 0 }

  function Set(st: State, r: string, v: int): State {
    if Get(st, r) == v then st else st.(regs := st.regs[r := v])
  }

  function Load(st: State, a: int): int { if a in st.mem then st.mem[a] else 0 }

  function Store(st: State, a: int, v: int): State {
    if Load(st, a) == v then st else st.(mem := st.mem[a := v])
  }

  /** Where control goes next. `Back` returns behind part `k` of the line numbered `id`. */
  datatype Dest = Next | Goto(name: string) | Back(id: nat, k: nat) | Halt

  /** `taken` are the labels whose address the program or its environment holds. */
  datatype Isa = Isa(
    address: (string, map<string, int>) -> int,
    got: string -> int,
    effect: (Instr, State) -> State,
    cond: (string, State) -> bool,
    transfer: (Instr, nat, nat, State) -> (State, Dest),
    taken: set<string>)

  /** `x` leaves the value `v` in register `r`. */
  ghost predicate Leaves(isa: Isa, x: Instr, r: string, v: int) {
    forall st | Get(st, r) == v :: Get(isa.effect(x, st), r) == v
  }

  /** Line `i` loads register `r` from the global offset table. */
  predicate LoadsGot(P: seq<Line>, i: nat) {
    i < |P| && |P[i].ins| == 1 && P[i].ins[0].Mov? && P[i].ins[0].dst.Reg? && P[i].ins[0].src.Got?
  }

  /** What the tool reports of the program's instructions is right where it matters: none that is reported not to
      write a register takes a value out of it that some line loads from the global offset table. */
  ghost predicate Honest(isa: Isa, P: seq<Line>) {
    forall i: nat, p, k | LoadsGot(P, i) && 0 <= p < |P| && 0 <= k < |P[p].ins| && !WritesReg(P[p].ins[k], P[i].ins[0].dst) ::
      Leaves(isa, P[p].ins[k], P[i].ins[0].dst.name, isa.got(P[i].ins[0].src.sym))
  }

  function Value(isa: Isa, st: State, o: Operand): int {
    match o
    case Reg(r) => Get(st, r)
    case Imm(n) => n
    case Mem(e) => Load(st, isa.address(e, st.regs))
    case Got(s) => isa.got(s)
  }

  /** Effect of an instruction that only falls through. */
  function Exec(isa: Isa, x: Instr, st: State): State {
    match x
    case Mov(Reg(r), src) => Set(st, r, Value(isa, st, src))
    case Mov(Mem(e), src) => Store(st, isa.address(e, st.regs), Value(isa, st, src))
    case Mov(_, _) => st
    case _ => isa.effect(x, st)
  }

  /** The next part to run: part `k` of line `p`, or `Done` past the last line. */
  datatype Config = At(p: nat, k: nat, st: State) | Done(st: State)

  /** The first line from `p` on that holds an instruction. */
  function Seek(P: seq<Line>, p: nat): (q: nat)
    ensures p <= |P| ==> p <= q <= |P|
    ensures q < |P| ==> p <= q && P[q].ins != []
    ensures forall x | p <= x < q && x < |P| :: P[x].ins == []
    decreases |P| - p
  {
    if p >= |P| then |P| else if P[p].ins != [] then p else Seek(P, p + 1)
  }

  function Enter(P: seq<Line>, p: nat, st: State): Config {
    var q := Seek(P, p);
    if q < |P| then At(q, 0, st) else Done(st)
  }

  function After(P: seq<Line>, p: nat, k: nat, st: State): Config
    requires p < |P|
  {
    if k + 1 < |P[p].ins| then At(p, k + 1, st) else Enter(P, p + 1, st)
  }

  function DefFrom(P: seq<Line>, t: string, p: nat): (d: Option<nat>)
    ensures d.Some? ==> p <= d.value < |P| && P[d.value].tag == Some(t)
    ensures d.Some? ==> forall x | p <= x < d.value :: P[x].tag != Some(t)
    ensures d.None? ==> forall x | p <= x < |P| :: P[x].tag != Some(t)
    decreases |P| - p
  {
    if p >= |P| then None else if P[p].tag == Some(t) then Some(p) else DefFrom(P, t, p + 1)
  }

  function Def(P: seq<Line>, t: string): Option<nat> { DefFrom(P, t, 0) }

  function SiteFrom(P: seq<Line>, id: nat, p: nat): (s: Option<nat>)
    ensures s.Some? ==> p <= s.value < |P| && P[s.value].id == id
    ensures s.Some? ==> forall x | p <= x < s.value :: P[x].id != id
    ensures s.None? ==> forall x | p <= x < |P| :: P[x].id != id
    decreases |P| - p
  {
    if p >= |P| then None else if P[p].id == id then Some(p) else SiteFrom(P, id, p + 1)
  }

  function Label(P: seq<Line>, t: string, st: State): Config {
    match Def(P, t) case None => Done(st) case Some(d) => Enter(P, d, st)
  }

  /** Control arrives behind a call, and nowhere else, when it comes back. */
  function Return(P: seq<Line>, id: nat, k: nat, st: State): Config {
    match SiteFrom(P, id, 0)
    case None => Done(st)
    case Some(p) => if k < |P[p].ins| && P[p].ins[k].Call? then After(P, p, k, st) else Done(st)
  }

  /** A transfer the machine decides: it reaches only labels whose address is taken, and falls
      through only from a call. */
  function Follow(isa: Isa, P: seq<Line>, x: Instr, p: nat, k: nat, st: State): Config
    requires p < |P|
  {
    var (s, d) := isa.transfer(x, P[p].id, k, st);
    match d
    case Next => if x.Call? then After(P, p, k, s) else Done(s)
    case Goto(t) => if t in isa.taken then Label(P, t, s) else Done(s)
    case Back(id, j) => Return(P, id, j, s)
    case Halt => Done(s)
  }

  predicate Valid(P: seq<Line>, c: Config) { c.At? ==> c.p < |P| && c.k < |P[c.p].ins| }

  function Step(isa: Isa, P: seq<Line>, c: Config): (d: Config)
    ensures Valid(P, c) ==> Valid(P, d)
  {
    if c.Done? || !Valid(P, c) then c
    else
      var At(p, k, st) := c;
      var x := P[p].ins[k];
      if x.Jmp? && Def(P, x.target).Some? then Label(P, x.target, st)
      else if x.Jcc? then if isa.cond(x.cond, st) then Label(P, x.target, st) else After(P, p, k, st)
      else if IsControl(x) then Follow(isa, P, x, p, k, st)
      else After(P, p, k, Exec(isa, x, st))
  }

  function Sys(isa: Isa, P: seq<Line>): System<Config, State> {
    System((c: Config) => Step(isa, P, c), (c: Config) => c.st, (c: Config) => c.Done?)
  }

  /** The two programs behave alike, up to stuttering, when entered at label `t` in state `st`. */
  ghost predicate SameFrom(isa: Isa, P: seq<Line>, Q: seq<Line>, t: string, st: State) {
    && Shows(Sys(isa, P), Label(P, t, st), Sys(isa, Q), Label(Q, t, st))
    && Shows(Sys(isa, Q), Label(Q, t, st), Sys(isa, P), Label(P, t, st))
  }

  /** ... at every label whose address is taken, from every state. */
  ghost predicate SameBehaviour(isa: Isa, P: seq<Line>, Q: seq<Line>) {
    forall t, st | t in isa.taken :: SameFrom(isa, P, Q, t, st)
  }

  lemma SameTransitive(isa: Isa, P: seq<Line>, Q: seq<Line>, R: seq<Line>)
    requires SameBehaviour(isa, P, Q) && SameBehaviour(isa, Q, R)
    ensures SameBehaviour(isa, P, R)
  {
    forall t, st | t in isa.taken ensures SameFrom(isa, P, R, t, st) {
      assert SameFrom(isa, P, Q, t, st) && SameFrom(isa, Q, R, t, st);
      ShowsTransitive(Sys(isa, P), Label(P, t, st), Sys(isa, Q), Label(Q, t, st), Sys(isa, R), Label(R, t, st));
      ShowsTransitive(Sys(isa, R), Label(R, t, st), Sys(isa, Q), Label(Q, t, st), Sys(isa, P), Label(P, t, st));
    }
  }
}
