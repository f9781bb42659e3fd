/** What several models share. */
module Common {
  datatype Option<+T> = None | Some(value: T)

  type Byte = x: nat | x < 256

  /** Does the byte continue a character of UTF-8? */
  predicate Continuation(b: Byte) { b / 0x40 == 2 }

  function Zeros(n: nat): (r: seq<Byte>)
    ensures |r| == n && forall i | 0 <= i < n :: r[i] == 0
  {
    seq(n, _ => 0)
  }

  /** The parts one after another. */
  function Joint(parts: seq<seq<Byte>>): seq<Byte> {
    if parts == [] then [] else Joint(parts[..|parts| - 1]) + parts[|parts| - 1]
  }

  ghost predicate NoDup<T>(s: seq<T>) { forall i, j | 0 <= i < j < |s| :: s[i] != s[j] }

  function Members(s: seq<nat>): (r: set<nat>)
    ensures forall x :: x in r <==> x in s
  {
    if s == [] then {} else assert s == s[..|s| - 1] + [s[|s| - 1]]; Members(s[..|s| - 1]) + {s[|s| - 1]}
  }

  lemma {:induction false} MembersCount(s: seq<nat>)
    requires NoDup(s)
    ensures |Members(s)| == |s|
  {
    if s != [] { MembersCount(s[..|s| - 1]); assert s[|s| - 1] !in s[..|s| - 1]; }
  }
}
