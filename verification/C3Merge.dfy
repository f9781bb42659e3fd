/** The merge as the driver runs it: each list a stretch of one array, compacted in place. */
module C3Merge {
  import opened Common
  import opened C3Model

  /** The list of `len` names from `start` on. */
  ghost function ListAt(cell: seq<Name>, start: nat, len: nat): seq<Name>
    requires start + len <= |cell|
  {
    cell[start..start + len]
  }

  /** Stretches lie in the array one after another. `at[j]..at[j + 1]` belongs to list `j`. */
  ghost predicate Laid(n: nat, at: seq<nat>, lens: seq<nat>) {
    && |at| == |lens| + 1
    && (forall j {:trigger lens[j]} | 0 <= j < |lens| :: at[j] + lens[j] <= at[j + 1] && at[j] + lens[j] <= n)
    && (forall j, k | 0 <= j <= k <= |lens| :: at[j] <= at[k])
  }

  ghost function ListsAt(cell: seq<Name>, at: seq<nat>, lens: seq<nat>): (ls: seq<seq<Name>>)
    requires Laid(|cell|, at, lens)
    ensures |ls| == |lens| && forall j | 0 <= j < |lens| :: at[j] + lens[j] <= |cell| && ls[j] == ListAt(cell, at[j], lens[j])
  {
    seq(|lens|, j requires 0 <= j < |lens| => ListAt(cell, at[j], lens[j]))
  }

  method FindInTail(cell: array<Name>, start: nat, len: nat, name: Name) returns (found: bool)
    requires start + len <= cell.Length
    ensures found == InTail(ListAt(cell[..], start, len), name)
  {
    ghost var l := ListAt(cell[..], start, len);
    var k := 1;
    while k < len
      invariant 1 <= k && forall i | 1 <= i < k && i < len :: l[i] != name
    {
      assert l[k] == cell[start + k];
      if cell[start + k] == name { return true; }
      k := k + 1;
    }
    return false;
  }

  lemma {:induction false} StripPush(l: seq<Name>, k: nat, x: Name)
    requires k < |l|
    ensures Strip(l[..k + 1], x) == Strip(l[..k], x) + if l[k] == x then [] else [l[k]]
    ensures |Strip(l[..k], x)| <= k
  {
    assert l[..k + 1][..k] == l[..k];
    StripShorter(l[..k], x);
  }

  /** Close the gaps that `name` leaves in one list. */
  method Compact(cell: array<Name>, start: nat, len: nat, name: Name) returns (w: nat)
    requires start + len <= cell.Length
    modifies cell
    ensures w <= len && cell[start..start + w] == Strip(old(ListAt(cell[..], start, len)), name)
    ensures forall i | 0 <= i < cell.Length && !(start <= i < start + len) :: cell[i] == old(cell[i])
  {
    w := 0;
    var k := 0;
    ghost var pre := cell[..];
    ghost var l := ListAt(pre, start, len);
    ghost var kept: seq<Name> := [];
    assert l == pre[start..start + len];
    assert Strip(l[..0], name) == [];
    hide Strip, ListAt;
    while k < len
      invariant w == |kept| <= k <= len && kept == Strip(l[..k], name)
      invariant forall i {:trigger kept[i]} | 0 <= i < w :: cell[start + i] == kept[i]
      invariant forall i {:trigger cell[i]} | 0 <= i < cell.Length && !(start <= i < start + k) :: cell[i] == pre[i]
    {
      StripPush(l, k, name);
      assert l[k] == pre[start + k] == cell[start + k];
      if cell[start + k] != name {
        cell[start + w] := cell[start + k];
        kept := kept + [l[k]];
        w := w + 1;
      }
      k := k + 1;
    }
    assert l[..len] == l;
    assert cell[start..start + w] == kept;
  }

  /** `ls` with `name` taken off the first `j` lists. */
  ghost function Partly(ls: seq<seq<Name>>, j: nat, name: Name): (r: seq<seq<Name>>)
    ensures |r| == |ls| && forall i | 0 <= i < |ls| :: r[i] == if i < j then Strip(ls[i], name) else ls[i]
  {
    seq(|ls|, i requires 0 <= i < |ls| => if i < j then Strip(ls[i], name) else ls[i])
  }

  lemma ShorterLaid(n: nat, at: seq<nat>, lens: seq<nat>, j: nat, w: nat)
    requires Laid(n, at, lens) && j < |lens| && w <= lens[j]
    ensures Laid(n, at, lens[j := w]) && at[j] + lens[j] <= n
  {
  }

  lemma Unmoved(pre: seq<Name>, post: seq<Name>, at: seq<nat>, lens: seq<nat>, j: nat, i: nat)
    requires |pre| == |post| && Laid(|pre|, at, lens) && i < |lens| && j < |lens| && i != j
    requires forall k | 0 <= k < |pre| && !(at[j] <= k < at[j] + lens[j]) :: post[k] == pre[k]
    ensures at[i] + lens[i] <= |pre| && ListAt(post, at[i], lens[i]) == ListAt(pre, at[i], lens[i])
  {
    assert i < j ==> at[i] + lens[i] <= at[i + 1] <= at[j];
    assert j < i ==> at[j] + lens[j] <= at[j + 1] <= at[i];
    assert at[i] + lens[i] <= at[i + 1] <= at[|lens|];
    forall k | 0 <= k < lens[i] ensures ListAt(post, at[i], lens[i])[k] == ListAt(pre, at[i], lens[i])[k] {
      assert post[at[i] + k] == pre[at[i] + k];
    }
  }

  /** One more list compacted. */
  lemma PartlyNext(pre: seq<Name>, post: seq<Name>, at: seq<nat>, lens: seq<nat>, ls: seq<seq<Name>>, j: nat, name: Name, w: nat)
    requires |pre| == |post| && Laid(|pre|, at, lens) && j < |lens| == |ls| && w <= lens[j]
    requires ListsAt(pre, at, lens) == Partly(ls, j, name)
    requires forall k | 0 <= k < |pre| && !(at[j] <= k < at[j] + lens[j]) :: post[k] == pre[k]
    requires at[j] + w <= |post| && ListAt(post, at[j], w) == Strip(ls[j], name)
    ensures Laid(|post|, at, lens[j := w]) && ListsAt(post, at, lens[j := w]) == Partly(ls, j + 1, name)
  {
    ShorterLaid(|pre|, at, lens, j, w);
    var a, b := ListsAt(post, at, lens[j := w]), Partly(ls, j + 1, name);
    hide Laid, Strip;
    forall i | 0 <= i < |ls| ensures a[i] == b[i] {
      if i != j {
        Unmoved(pre, post, at, lens, j, i);
        assert ListsAt(pre, at, lens)[i] == Partly(ls, j, name)[i];
      }
    }
  }

  /** Take `name` off every list. */
  method CompactAll(cell: array<Name>, at: seq<nat>, lens: array<nat>, name: Name)
    requires Laid(cell.Length, at, lens[..])
    modifies cell, lens
    ensures Laid(cell.Length, at, lens[..])
    ensures ListsAt(cell[..], at, lens[..]) == StripAll(old(ListsAt(cell[..], at, lens[..])), name)
  {
    hide Laid, ListsAt, Strip, StripAll, Partly, ListAt;
    ghost var ls := ListsAt(cell[..], at, lens[..]);
    assert ls == Partly(ls, 0, name);
    var j := 0;
    while j < lens.Length
      invariant j <= lens.Length && Laid(cell.Length, at, lens[..])
      invariant ListsAt(cell[..], at, lens[..]) == Partly(ls, j, name)
    {
      ghost var pre, preLens := cell[..], lens[..];
      LaidParts(cell.Length, at, lens[..], j);
      assert ListsAt(pre, at, preLens)[j] == Partly(ls, j, name)[j] == ls[j];
      var w := Compact(cell, at[j], lens[j], name);
      SameList(cell[..], at[j], w);
      lens[j] := w;
      PartlyNext(pre, cell[..], at, preLens, ls, j, name, w);
      assert lens[..] == preLens[j := w];
      j := j + 1;
    }
    assert Partly(ls, lens.Length, name) == StripAll(ls, name);
  }

  lemma LaidParts(n: nat, at: seq<nat>, lens: seq<nat>, j: nat)
    requires Laid(n, at, lens) && j < |lens|
    ensures |at| == |lens| + 1 && at[j] + lens[j] <= n
  {
  }

  lemma SameList(cell: seq<Name>, start: nat, len: nat)
    requires start + len <= |cell|
    ensures ListAt(cell, start, len) == cell[start..start + len]
  {
  }

  /** Does `name` stand in the tail of some list? */
  method Rejects(cell: array<Name>, at: seq<nat>, lens: array<nat>, name: Name) returns (rejected: bool)
    requires Laid(cell.Length, at, lens[..])
    ensures rejected == InSomeTail(ListsAt(cell[..], at, lens[..]), name)
  {
    hide Laid, ListAt, InTail;
    ghost var ls := ListsAt(cell[..], at, lens[..]);
    var j := 0;
    while j < lens.Length
      invariant j <= lens.Length
      invariant forall k | 0 <= k < j :: !InTail(ls[k], name)
    {
      LaidParts(cell.Length, at, lens[..], j);
      assert ls[j] == ListAt(cell[..], at[j], lens[j]);
      var found := FindInTail(cell, at[j], lens[j], name);
      if found { return true; }
      j := j + 1;
    }
    return false;
  }

  /** The first list whose head may be emitted. */
  method Choose(cell: array<Name>, at: seq<nat>, lens: array<nat>) returns (pick: Option<nat>)
    requires Laid(cell.Length, at, lens[..])
    ensures pick == FirstGood(ListsAt(cell[..], at, lens[..]), 0)
  {
    hide Laid, InSomeTail;
    ghost var ls := ListsAt(cell[..], at, lens[..]);
    var i := 0;
    while i < lens.Length
      invariant i <= lens.Length && FirstGood(ls, 0) == FirstGood(ls, i)
    {
      LaidParts(cell.Length, at, lens[..], i);
      assert ls[i] == ListAt(cell[..], at[i], lens[i]);
      if lens[i] != 0 {
        var rejected := Rejects(cell, at, lens, cell[at[i]]);
        if !rejected { return Some(i); }
      }
      i := i + 1;
    }
    return None;
  }

  lemma HeadAt(cell: seq<Name>, at: seq<nat>, lens: seq<nat>, i: nat)
    requires Laid(|cell|, at, lens) && i < |lens| && Good(ListsAt(cell, at, lens), i)
    ensures |at| == |lens| + 1 && at[i] < |cell| && ListsAt(cell, at, lens)[i] != [] && cell[at[i]] == ListsAt(cell, at, lens)[i][0]
  {
    assert ListsAt(cell, at, lens)[i] == ListAt(cell, at[i], lens[i]);
  }

  /** Merge the lists into `out`, which has room for all of them, leaving in place what could not be emitted. */
  method Merge(cell: array<Name>, at: seq<nat>, lens: array<nat>, out: array<Name>) returns (n: nat)
    requires Laid(cell.Length, at, lens[..]) && out != cell
    requires Total(ListsAt(cell[..], at, lens[..])) <= out.Length
    modifies cell, lens, out
    ensures Laid(cell.Length, at, lens[..]) && n <= out.Length
    ensures out[..n] == Emitted(old(ListsAt(cell[..], at, lens[..])))
    ensures ListsAt(cell[..], at, lens[..]) == Rest(old(ListsAt(cell[..], at, lens[..])))
  {
    hide Emitted, Rest, Total, FirstGood, StripAll, C3Model.Merge, Strip, Laid, ListsAt, ListAt, Good, InSomeTail;
    n := 0;
    ghost var ls := ListsAt(cell[..], at, lens[..]);
    ghost var left := ls;
    while true
      invariant Laid(cell.Length, at, lens[..]) && left == ListsAt(cell[..], at, lens[..])
      invariant n + Total(left) <= out.Length
      invariant Emitted(ls) == out[..n] + Emitted(left) && Rest(ls) == Rest(left)
      decreases Total(left)
    {
      MergeStep(left);
      var pick := Choose(cell, at, lens);
      if pick.None? { break; }
      HeadAt(cell[..], at, lens[..], pick.value);
      var name := cell[at[pick.value]];
      assert name == left[pick.value][0];
      ghost var so := out[..n];
      out[n] := name;
      n := n + 1;
      assert out[..n] == so + [name];
      assert so + Emitted(left) == out[..n] + Emitted(StripAll(left, name));
      CompactAll(cell, at, lens, name);
      left := StripAll(left, name);
    }
  }
}
