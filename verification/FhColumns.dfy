/** What the counted positions mean, for all three ways of counting, without their step functions. */
module FhColumns {
  import opened Arith
  import opened Common
  import opened FhPosition

  /** Where byte `b` stands in `s`. */
  function Places(s: seq<Byte>, b: Byte): set<nat> { set i: nat | i < |s| && s[i] == b }

  /** The bytes that start a character. */
  function Starts(s: seq<Byte>): set<nat> { set i: nat | i < |s| && !Continuation(s[i]) }

  lemma PlacesNext(s: seq<Byte>, b: Byte)
    requires s != []
    ensures |Places(s, b)| == |Places(s[..|s| - 1], b)| + if s[|s| - 1] == b then 1 else 0
  {
    var n: nat := |s| - 1;
    assert Places(s, b) == Places(s[..n], b) + if s[n] == b then {n} else {};
  }

  lemma StartsNext(s: seq<Byte>)
    requires s != []
    ensures |Starts(s)| == |Starts(s[..|s| - 1])| + if Continuation(s[|s| - 1]) then 0 else 1
  {
    hide Continuation;
    var n: nat := |s| - 1;
    assert Starts(s) == Starts(s[..n]) + if Continuation(s[n]) then {} else {n};
  }

  /** Characters and lines: a plain count takes every byte for a character, the others only those that start one. */
  lemma {:induction false} CountsExact(way: Way, p: Pos, s: seq<Byte>)
    ensures Fold(way, p, s).lines == p.lines + |Places(s, 10)|
    ensures Fold(way, p, s).chars == p.chars + if way == Plain then |s| else |Starts(s)|
  {
    if s == [] {
      assert Places(s, 10) == {} && Starts(s) == {};
    } else {
      CountsExact(way, p, s[..|s| - 1]);
      PlacesNext(s, 10);
      StartsNext(s);
      hide Places, Starts;
    }
  }

  lemma {:induction false} ColumnOnly(way: Way, p: Pos, q: Pos, s: seq<Byte>)
    requires p.column == q.column
    ensures Fold(way, p, s).column == Fold(way, q, s).column
  {
    if s != [] { ColumnOnly(way, p, q, s[..|s| - 1]); }
  }

  lemma FoldMore(way: Way, p: Pos, s: seq<Byte>, b: Byte)
    ensures Fold(way, p, s + [b]) == Step(way, Fold(way, p, s), b)
  {
    assert (s + [b])[..|s|] == s;
  }

  /** A newline starts the column anew, whichever way is counted; so does a return on a screen. */
  lemma StartsAnew(way: Way, p: Pos, s: seq<Byte>, b: Byte, t: seq<Byte>)
    requires b == 10 || (b == 13 && way == Screen)
    ensures Fold(way, p, s + [b] + t).column == Fold(way, ORIGIN, t).column
  {
    FoldComposes(way, p, s + [b], t);
    FoldMore(way, p, s, b);
    ColumnOnly(way, Fold(way, p, s + [b]), ORIGIN, t);
  }

  /** `c` is the least multiple of 8 above `x`. */
  predicate NextStop(x: nat, c: nat) { c % 8 == 0 && x < c && forall d: nat | d % 8 == 0 && x < d :: c <= d }

  lemma StopIs(x: nat)
    ensures NextStop(x, x / 8 * 8 + 8)
  {
    var q := x / 8;
    Div(q * 8 + 8, 8, q + 1, 0);
    forall d: nat | d % 8 == 0 && x < d ensures q * 8 + 8 <= d { assert d == d / 8 * 8 && d / 8 > q; }
  }

  /** A byte that is a character of its own and moves no cursor. */
  predicate Ordinary(b: Byte) { !Continuation(b) && b != 8 && b != 9 && b != 10 && b != 13 }

  /** On a screen an ordinary character takes one column, a backspace gives it back and stays at column 0, a tab leads
      to the next stop, and a byte inside a character changes nothing. */
  lemma ScreenColumns(p: Pos, s: seq<Byte>, b: Byte)
    ensures Ordinary(b) ==> Fold(Screen, p, s + [b]).column == Fold(Screen, p, s).column + 1
    ensures Ordinary(b) ==> Fold(Screen, p, s + [b, 8]).column == Fold(Screen, p, s).column
    ensures Fold(Screen, p, s).column == 0 ==> Fold(Screen, p, s + [8]).column == 0
    ensures NextStop(Fold(Screen, p, s).column, Fold(Screen, p, s + [9]).column)
    ensures Continuation(b) ==> Fold(Screen, p, s + [b]) == Fold(Screen, p, s)
  {
    hide *;
    var q := Fold(Screen, p, s);
    FoldMore(Screen, p, s, b);
    FoldMore(Screen, p, s + [b], 8);
    FoldMore(Screen, p, s, 8);
    FoldMore(Screen, p, s, 9);
    StopIs(q.column);
    CharStep(q, b);
    MoveStep(q);
    assert s + [b] + [8] == s + [b, 8];
  }

  lemma CharStep(q: Pos, b: Byte)
    ensures Ordinary(b) ==> Step(Screen, q, b).column == q.column + 1 && Step(Screen, Step(Screen, q, b), 8).column == q.column
    ensures Continuation(b) ==> Step(Screen, q, b) == q
  {
  }

  lemma MoveStep(q: Pos)
    ensures q.column == 0 ==> Step(Screen, q, 8).column == 0
    ensures Step(Screen, q, 9).column == q.column / 8 * 8 + 8
  {
  }

  /** Off a screen the column is the number of bytes, or of characters, since the last newline. */
  lemma {:induction false} LineColumns(way: Way, p: Pos, s: seq<Byte>)
    requires way != Screen && 10 !in s
    ensures Fold(way, p, s).column == p.column + if way == Plain then |s| else |Starts(s)|
  {
    if s == [] {
      assert Starts(s) == {};
    } else {
      LineColumns(way, p, s[..|s| - 1]);
      StartsNext(s);
      hide Starts;
    }
  }
}
