/** The tool's loops over its global arrays, tied to the rules as functions. */
module PeepPass {
  import opened Common
  import opened PeepSyntax

  class Pass {
    const lines: seq<Line>
    const dead: array<int>
    const splice: array<Option<seq<Line>>>
    const blank: array<bool>

    ghost predicate Valid()
      reads this, dead, splice, blank
    {
      dead.Length == splice.Length == blank.Length == |lines| && dead as object != blank && splice as object != dead && splice as object != blank
    }

    ghost function View(): (w: Work)
      requires Valid()
      reads this, dead, splice, blank
      ensures Fits(lines, w)
    {
      Work(dead[..], splice[..], blank[..])
    }

    constructor (P: seq<Line>)
      ensures Valid() && lines == P && fresh(dead) && fresh(splice) && fresh(blank)
      ensures View() == Start(seq(|P|, _ => 0))
    {
      lines := P;
      dead := new int[|P|](_ => 0);
      splice := new Option<seq<Line>>[|P|](_ => None);
      blank := new bool[|P|](_ => false);
    }

    // -------------------------------------------------------------- deleting rules

    method ReloadAt(i: nat) returns (j: nat)
      requires Valid() && i < |lines| && lines[i].ins != [] && lines[i].ins[0].Mov?
      ensures ReloadOf(lines, i) == if j < |lines| then Some(j) else None
    {
      j := i + 1;
      while j < |lines| && lines[j].ins == [] && lines[j].tag.None?
        invariant i + 1 <= j <= |lines|
        invariant SkipBlank(lines, j) == SkipBlank(lines, i + 1)
      {
        j := j + 1;
      }
      if j < |lines| {
        var x := lines[i].ins[0];
        if lines[j].fused || lines[j].tag.Some? || lines[j].ins == [] || lines[j].ins[0] != Mov(x.src, x.dst) { j := |lines|; }
      }
    }

    method ScanForLoad(a: Operand, b: Operand, i: nat)
      requires Valid() && i < |lines|
      modifies dead
      ensures Valid() && dead[..] == GotScan(lines, a, b, i + 1, old(dead[..]))
    {
      var j := i + 1;
      while j < |lines|
        invariant i + 1 <= j <= |lines|
        invariant GotScan(lines, a, b, j, dead[..]) == GotScan(lines, a, b, i + 1, old(dead[..]))
      {
        if dead[j] == 0 {
          if lines[j].ins == [] {
            if lines[j].tag.Some? { break; }
          } else {
            if Barrier(lines[j]) { break; }
            if lines[j].ins[0] == Mov(a, b) {
              ghost var was := dead[..];
              dead[j] := 1;
              assert dead[..] == was[j := 1];
            } else if WritesReg(lines[j].ins[0], a) {
              break;
            }
          }
        }
        j := j + 1;
      }
    }

    method LocalRules(on: Rules)
      requires Valid()
      modifies dead
      ensures Valid() && dead[..] == LocalFrom(lines, on, 0, old(dead[..]))
    {
      for i := 0 to |lines|
        invariant LocalFrom(lines, on, i, dead[..]) == LocalFrom(lines, on, 0, old(dead[..]))
      {
        ghost var was := dead[..];
        if dead[i] == 0 && lines[i].ins != [] && !lines[i].fused && lines[i].ins[0].Mov? {
          var x := lines[i].ins[0];
          if on.selfMov && x.dst == x.src {
            dead[i] := 1;
            assert dead[..] == was[i := 1];
          } else {
            if on.storeReload && x.dst.Mem? {
              var j := ReloadAt(i);
              if j < |lines| {
                dead[j] := 1;
                assert dead[..] == was[j := 1];
              }
            }
            if on.gotCse && x.src.Got? { ScanForLoad(x.dst, x.src, i); }
          }
        }
        assert dead[..] == LocalAt(lines, on, i, was);
      }
    }

    method LabelAfter(i: nat) returns (t: Option<string>)
      requires Valid() && i < |lines|
      ensures t == NextLabel(lines, dead[..], i + 1)
    {
      var j := i + 1;
      while j < |lines|
        invariant i + 1 <= j <= |lines|
        invariant NextLabel(lines, dead[..], j) == NextLabel(lines, dead[..], i + 1)
      {
        if dead[j] == 0 {
          if lines[j].tag.Some? { return lines[j].tag; }
          if lines[j].ins != [] { return None; }
        }
        j := j + 1;
      }
      return None;
    }

    method DeadJumps(on: Rules)
      requires Valid()
      modifies dead
      ensures Valid() && dead[..] == DeadJmpFrom(lines, on, 0, old(dead[..]))
    {
      for i := 0 to |lines|
        invariant DeadJmpFrom(lines, on, i, dead[..]) == DeadJmpFrom(lines, on, 0, old(dead[..]))
      {
        ghost var was := dead[..];
        if on.deadJmp && dead[i] == 0 && lines[i].ins != [] && !lines[i].fused && lines[i].ins[0].Jmp? {
          var t := LabelAfter(i);
          if t == Some(lines[i].ins[0].target) {
            dead[i] := 1;
            assert dead[..] == was[i := 1];
          }
        }
        assert dead[..] == DeadJmpAt(lines, on, i, was);
      }
    }

    // -------------------------------------------------------------- inline-single-use

    method Definition(t: string) returns (d: Option<nat>)
      requires Valid()
      ensures d == FindDef(lines, dead[..], t, 0)
    {
      for j := 0 to |lines|
        invariant FindDef(lines, dead[..], t, j) == FindDef(lines, dead[..], t, 0)
      {
        if dead[j] == 0 && lines[j].tag == Some(t) { return Some(j); }
      }
      return None;
    }

    method References(t: string) returns (n: nat)
      requires Valid()
      ensures n == Refs(lines, blank[..], t, 0)
    {
      n := 0;
      for j := 0 to |lines|
        invariant n + Refs(lines, blank[..], t, j) == Refs(lines, blank[..], t, 0)
      {
        if !blank[j] {
          ghost var before := n;
          var words := lines[j].words;
          for k := 0 to |words|
            invariant n + Count(words[k..], t) == before + Count(words, t)
          {
            assert words[k..][1..] == words[k + 1..];
            if words[k] == t { n := n + 1; }
          }
        }
      }
    }

    method FlowEndsAbove(def: nat) returns (ends: bool)
      requires Valid() && def <= |lines|
      ensures ends == PrevEnds(lines, dead[..], def)
    {
      var j: nat := def;
      while j > 0
        invariant j <= def
        invariant PrevEnds(lines, dead[..], j) == PrevEnds(lines, dead[..], def)
      {
        j := j - 1;
        if dead[j] == 0 && lines[j].ins != [] { return !Falls(lines[j].ins); }
      }
      return false;
    }

    method FusedEnds(ins: seq<Instr>) returns (ok: bool)
      requires ins != []
      ensures ok == !((exists k | 0 <= k < |ins| :: Refused(ins[k])) || !ins[|ins| - 1].Jmp?)
    {
      for k := 0 to |ins|
        invariant forall x | 0 <= x < k :: !Refused(ins[x])
      {
        if Refused(ins[k]) { return false; }
      }
      return ins[|ins| - 1].Jmp?;
    }

    method EndOfBlock(def: nat) returns (e: Option<nat>)
      requires Valid() && def <= |lines|
      ensures e == BlockEnd(lines, dead[..], def, def, 0)
    {
      var j, len := def, 0;
      while j < |lines|
        invariant def <= j <= |lines|
        invariant BlockEnd(lines, dead[..], def, j, len) == BlockEnd(lines, dead[..], def, def, 0)
      {
        if dead[j] == 0 {
          if j > def && lines[j].tag.Some? { return None; }
          if lines[j].ins != [] {
            var x := lines[j].ins[0];
            if lines[j].fused {
              var ok := FusedEnds(lines[j].ins);
              return if ok then Some(j) else None;
            }
            if Refused(x) { return None; }
            if x.Jmp? { return Some(j); }
            len := len + 1;
            if len > 12 { return None; }
          }
        }
        j := j + 1;
      }
      return None;
    }

    method CopyBlock(def: nat, e: nat) returns (text: seq<Line>)
      requires Valid() && def <= e < |lines|
      ensures text == Copied(lines, View(), def, e + 1)
    {
      text := [];
      for j := def to e + 1
        invariant text + Copied(lines, View(), j, e + 1) == Copied(lines, View(), def, e + 1)
      {
        if dead[j] == 0 && lines[j].ins != [] && !blank[j] { text := text + [lines[j]]; }
      }
    }

    method RemoveBlock(def: nat, e: nat)
      requires Valid() && def <= e < |lines|
      modifies dead
      ensures Valid() && dead[..] == Gone(old(dead[..]), def, e)
    {
      for j := def to e + 1
        invariant forall k | 0 <= k < |lines| :: dead[k] == if def <= k < j then 2 else old(dead[k])
      {
        dead[j] := 2;
      }
    }

    method Move(i: nat)
      requires Valid() && i < |lines|
      modifies dead, splice, blank
      ensures Valid() && View() == InlineAt(lines, old(View()), i)
    {
      if dead[i] != 0 || lines[i].ins == [] || lines[i].fused || !lines[i].ins[0].Jmp? { return; }
      var t := lines[i].ins[0].target;
      if t == "" || t[0] == '*' || t[0] == '%' { return; }
      var def := Definition(t);
      if def.None? || def.value == i { return; }
      var refs := References(t);
      if refs != 1 { return; }
      var ends := FlowEndsAbove(def.value);
      if !ends { return; }
      var e := EndOfBlock(def.value);
      if e.None? { return; }
      var text := CopyBlock(def.value, e.value);
      ghost var w := View();
      blank[i] := true;
      splice[i] := Some(text);
      RemoveBlock(def.value, e.value);
      assert blank[..] == w.blank[i := true] && splice[..] == w.splice[i := Some(text)];
    }

    method InlineSingleUse()
      requires Valid()
      modifies dead, splice, blank
      ensures Valid() && View() == InlineFrom(lines, 0, old(View()))
    {
      for i := 0 to |lines|
        invariant Valid()
        invariant InlineFrom(lines, i, View()) == InlineFrom(lines, 0, old(View()))
      {
        Move(i);
      }
    }

    method TextOf(i: nat) returns (c: seq<Line>)
      requires Valid() && i < |lines|
      ensures c == Chunk(lines, View(), i)
    {
      c := [];
      if dead[i] == 0 {
        if splice[i].Some? { c := splice[i].value; } else if !blank[i] { c := [lines[i]]; }
      } else if dead[i] == 1 && lines[i].tag.Some? {
        c := [LabelOnly(lines[i])];
      }
    }

    method Write() returns (text: seq<Line>)
      requires Valid()
      ensures text == Output(lines, View())
    {
      text := [];
      for i := 0 to |lines|
        invariant text + Out(lines, View(), i, |lines|) == Output(lines, View())
      {
        hide Chunk;
        var c := TextOf(i);
        text := text + c;
      }
    }
  }

  method Peephole(P: seq<Line>, on: Rules) returns (text: seq<Line>)
    ensures text == Peep(P, on)
  {
    var pass := new Pass(P);
    pass.LocalRules(on);
    pass.DeadJumps(on);
    assert pass.View() == Start(Deleted(P, on));
    if on.inlineOnce { pass.InlineSingleUse(); }
    text := pass.Write();
  }
}
