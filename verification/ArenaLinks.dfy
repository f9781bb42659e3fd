/** The arena's lists as they lie in memory: one `next` word that is the journal link of a live block and
    the bin link of a free one, and one `older` word. */
module ArenaLinks {
  import opened Common
  import opened ArenaModel
  import opened ArenaProofs

  datatype Magic = BinMagic | BigMagic | NoMagic

  datatype Head = Head(magic: Magic, size: nat, next: nat, older: nat)

  /** 0 is the null pointer. */
  function At(s: seq<nat>, i: int): nat { if 0 <= i < |s| then s[i] else 0 }

  function Last(s: seq<nat>): nat { At(s, |s| - 1) }

  function MagicOf(i: Info): Magic { if !i.live then NoMagic else if i.big then BigMagic else BinMagic }

  /** The headers say which blocks there are, how big and whether live. */
  ghost predicate Tagged(h: map<nat, Head>, blk: map<nat, Info>) {
    && (forall a :: a in h <==> a in blk)
    && (forall a | a in blk :: h[a].size == blk[a].size && h[a].magic == MagicOf(blk[a]))
  }

  /** `j` is doubly linked, oldest first. */
  ghost predicate Linked(h: map<nat, Head>, j: seq<nat>) {
    forall i | 0 <= i < |j| :: j[i] in h && h[j[i]].older == At(j, i - 1) && h[j[i]].next == At(j, i + 1)
  }

  /** `b` is singly linked. */
  ghost predicate Chained(h: map<nat, Head>, b: seq<nat>) {
    forall i | 0 <= i < |b| :: b[i] in h && h[b[i]].next == At(b, i + 1)
  }

  ghost predicate Represents(s: Arena, h: map<nat, Head>, bin: seq<nat>, jhead: nat) {
    && Tagged(h, s.blk)
    && Linked(h, s.journal) && jhead == Last(s.journal)
    && |bin| == |s.bins| == BINS
    && (forall c | 0 <= c < BINS :: Chained(h, s.bins[c]) && bin[c] == At(s.bins[c], 0))
  }

  // ---------------------------------------------------------------- the journal in memory

  /** Make `a` the newest entry after `jhead`. */
  function Pushed(h: map<nat, Head>, jhead: nat, a: nat): map<nat, Head>
    requires a in h
  {
    var g := h[a := h[a].(older := jhead, next := 0)];
    if jhead != 0 && jhead in g then g[jhead := g[jhead].(next := a)] else g
  }

  /** Take `a` out of the journal. */
  function Unlinked(h: map<nat, Head>, a: nat): map<nat, Head>
    requires a in h
  {
    var e := h[a];
    var g := if e.older != 0 && e.older in h then h[e.older := h[e.older].(next := e.next)] else h;
    var k := if e.next != 0 && e.next in g then g[e.next := g[e.next].(older := e.older)] else g;
    k[a := Head(e.magic, e.size, 0, 0)]
  }

  lemma {:induction false} WithoutAt(j: seq<nat>, i: nat)
    requires NoDup(j) && i < |j|
    ensures Without(j, j[i]) == j[..i] + j[i + 1..]
  {
    var rest, last := j[..|j| - 1], j[|j| - 1];
    assert NoDup(rest);
    if i == |j| - 1 {
      WithoutAbsent(rest, last);
    } else {
      WithoutAt(rest, i);
      assert j[i + 1..] == rest[i + 1..] + [last];
    }
  }

  /** What `Unlinked` leaves in one header. */
  function EntryWithout(h: map<nat, Head>, a: nat, x: nat): Head
    requires a in h && x in h
  {
    if x == a then Head(h[a].magic, h[a].size, 0, 0)
    else Head(h[x].magic, h[x].size,
              if x == h[a].older && x != 0 then h[a].next else h[x].next,
              if x == h[a].next && x != 0 then h[a].older else h[x].older)
  }

  lemma UnlinkedIs(h: map<nat, Head>, a: nat)
    requires a in h
    ensures forall x :: x in Unlinked(h, a) <==> x in h
    ensures forall x | x in h :: Unlinked(h, a)[x] == EntryWithout(h, a, x)
  {
  }

  lemma UnlinkKeeps(h: map<nat, Head>, j: seq<nat>, i: nat)
    requires Linked(h, j) && i < |j|
    ensures j[i] in h
    ensures forall x :: x in Unlinked(h, j[i]) <==> x in h
    ensures forall x | x in h && x !in j :: Unlinked(h, j[i])[x] == h[x]
    ensures forall x | x in h :: Unlinked(h, j[i])[x].size == h[x].size && Unlinked(h, j[i])[x].magic == h[x].magic
  {
    UnlinkedIs(h, j[i]);
    hide Unlinked;
    assert i > 0 ==> j[i - 1] in j;
    assert i + 1 < |j| ==> j[i + 1] in j;
  }

  lemma AtInjective(j: seq<nat>, p: nat, q: int)
    requires NoDup(j) && 0 !in j && p < |j|
    ensures At(j, q) == j[p] <==> q == p
    ensures j[p] != 0
  {
    assert j[p] in j;
  }

  lemma LinkedAt(h: map<nat, Head>, j: seq<nat>, i: nat)
    requires Linked(h, j) && i < |j|
    ensures j[i] in h && h[j[i]].older == At(j, i - 1) && h[j[i]].next == At(j, i + 1)
  {
  }

  lemma EntryIs(h: map<nat, Head>, a: nat, x: nat, before: bool, after: bool)
    requires a in h && x in h && x != a && x != 0 && (h[a].older == x <==> before) && (h[a].next == x <==> after)
    ensures EntryWithout(h, a, x).older == if after then h[a].older else h[x].older
    ensures EntryWithout(h, a, x).next == if before then h[a].next else h[x].next
  {
  }

  /** Entry `p` of the journal after entry `i` left it. */
  lemma UnlinkEntry(h: map<nat, Head>, j: seq<nat>, i: nat, p: nat)
    requires Linked(h, j) && NoDup(j) && 0 !in j && i < |j| && p < |j| && p != i
    ensures j[i] in h && j[p] in h && j[p] != j[i]
    ensures EntryWithout(h, j[i], j[p]).older == if p == i + 1 then At(j, i - 1) else At(j, p - 1)
    ensures EntryWithout(h, j[i], j[p]).next == if p + 1 == i then At(j, i + 1) else At(j, p + 1)
  {
    assert At(j, i) == j[i];
    hide *;
    LinkedAt(h, j, p);
    LinkedAt(h, j, i);
    AtInjective(j, p, i - 1);
    AtInjective(j, p, i + 1);
    AtInjective(j, p, i);
    EntryIs(h, j[i], j[p], p + 1 == i, p == i + 1);
  }

  ghost predicate EntryOk(h: map<nat, Head>, j: seq<nat>, i: nat)
    requires i < |j|
  {
    j[i] in h && h[j[i]].older == At(j, i - 1) && h[j[i]].next == At(j, i + 1)
  }

  lemma EntriesLink(h: map<nat, Head>, j: seq<nat>)
    requires forall i: nat | i < |j| :: EntryOk(h, j, i)
    ensures Linked(h, j)
  {
    forall i | 0 <= i < |j| ensures j[i] in h && h[j[i]].older == At(j, i - 1) && h[j[i]].next == At(j, i + 1) { assert EntryOk(h, j, i); }
  }

  /** What `Pushed` leaves in one header. */
  function EntryPushed(h: map<nat, Head>, jhead: nat, a: nat, x: nat): Head
    requires a in h && x in h
  {
    if x == a then Head(h[a].magic, h[a].size, 0, jhead)
    else if x == jhead && x != 0 then Head(h[x].magic, h[x].size, a, h[x].older)
    else h[x]
  }

  lemma PushedIs(h: map<nat, Head>, jhead: nat, a: nat)
    requires a in h && a != jhead
    ensures forall x :: x in Pushed(h, jhead, a) <==> x in h
    ensures forall x | x in h :: Pushed(h, jhead, a)[x] == EntryPushed(h, jhead, a, x)
  {
  }

  lemma AtEnd(j: seq<nat>, a: nat, k: int)
    ensures At(j + [a], k) == if k == |j| then a else At(j, k)
  {
  }

  lemma PushAt(h: map<nat, Head>, g: map<nat, Head>, j: seq<nat>, a: nat, k: nat)
    requires Linked(h, j) && NoDup(j) && a !in j && 0 !in j && a in h && k <= |j|
    requires forall x | x in h :: x in g && g[x] == EntryPushed(h, Last(j), a, x)
    ensures EntryOk(g, j + [a], k)
  {
    AtEnd(j, a, k - 1);
    AtEnd(j, a, k + 1);
    if k < |j| {
      assert j[k] in j;
      LinkedAt(h, j, k);
      AtInjective(j, k, |j| - 1);
      hide Linked, NoDup;
    }
  }

  lemma PushLinks(h: map<nat, Head>, j: seq<nat>, a: nat)
    requires Linked(h, j) && NoDup(j) && a !in j && 0 !in j && a in h && a > 0
    ensures Linked(Pushed(h, Last(j), a), j + [a]) && Last(j + [a]) == a
    ensures forall x :: x in Pushed(h, Last(j), a) <==> x in h
    ensures forall x | x in h && x != a && x !in j :: Pushed(h, Last(j), a)[x] == h[x]
    ensures forall x | x in h :: Pushed(h, Last(j), a)[x].size == h[x].size && Pushed(h, Last(j), a)[x].magic == h[x].magic
  {
    assert j != [] ==> Last(j) in j;
    assert j == [] ==> Last(j) == 0;
    assert Last(j + [a]) == a;
    PushedIs(h, Last(j), a);
    var g := Pushed(h, Last(j), a);
    assert forall x | x in h :: EntryPushed(h, Last(j), a, x).size == h[x].size && EntryPushed(h, Last(j), a, x).magic == h[x].magic;
    assert forall x | x in h && x != a && x !in j :: EntryPushed(h, Last(j), a, x) == h[x];
    hide *;
    forall k: nat | k < |j + [a]| ensures EntryOk(g, j + [a], k) { PushAt(h, g, j, a, k); }
    EntriesLink(g, j + [a]);
  }

  lemma AtSplice(j: seq<nat>, i: nat, k: int)
    requires i < |j| && -1 <= k <= |j|
    ensures At(j[..i] + j[i + 1..], k) == At(j, if k < i then k else k + 1)
  {
  }

  lemma UnlinkAt(h: map<nat, Head>, g: map<nat, Head>, j: seq<nat>, i: nat, k: nat)
    requires Linked(h, j) && NoDup(j) && 0 !in j && i < |j| && k + 1 < |j|
    requires j[i] in h && forall x | x in h :: x in g && g[x] == EntryWithout(h, j[i], x)
    ensures EntryOk(g, j[..i] + j[i + 1..], k)
  {
    hide Linked, NoDup, EntryWithout, At;
    var p := if k < i then k else k + 1;
    UnlinkEntry(h, j, i, p);
    AtSplice(j, i, k - 1);
    AtSplice(j, i, k + 1);
  }

  lemma UnlinkLast(h: map<nat, Head>, j: seq<nat>, i: nat)
    requires Linked(h, j) && 0 !in j && i < |j|
    ensures j[i] in h && Last(j[..i] + j[i + 1..]) == if h[j[i]].next == 0 then h[j[i]].older else Last(j)
  {
    assert i + 1 < |j| ==> j[i + 1] in j;
    assert j[i] in h && h[j[i]].older == At(j, i - 1) && h[j[i]].next == At(j, i + 1);
    hide Linked;
    AtSplice(j, i, |j| - 2);
  }

  lemma UnlinkLinks(h: map<nat, Head>, j: seq<nat>, i: nat)
    requires Linked(h, j) && NoDup(j) && 0 !in j && i < |j|
    ensures j[i] in h && Linked(Unlinked(h, j[i]), Without(j, j[i]))
    ensures Last(Without(j, j[i])) == if h[j[i]].next == 0 then h[j[i]].older else Last(j)
  {
    var w := j[..i] + j[i + 1..];
    UnlinkLast(h, j, i);
    hide *;
    WithoutAt(j, i);
    UnlinkedIs(h, j[i]);
    forall k: nat | k < |w| ensures EntryOk(Unlinked(h, j[i]), w, k) { UnlinkAt(h, Unlinked(h, j[i]), j, i, k); }
    EntriesLink(Unlinked(h, j[i]), w);
  }

  lemma ChainStays(h: map<nat, Head>, g: map<nat, Head>, b: seq<nat>)
    requires Chained(h, b) && forall x | x in b :: x in g && x in h && g[x].next == h[x].next
    ensures Chained(g, b)
  {
  }

  /** The newest entry's neighbours point back at it, whichever way one walks. */
  lemma LinksInverse(s: Arena, h: map<nat, Head>, bin: seq<nat>, jhead: nat, a: nat)
    requires Inv(s) && Represents(s, h, bin, jhead) && a in s.journal
    ensures a in h && (h[a].older != 0 ==> h[a].older in h && h[h[a].older].next == a && h[a].older in s.journal)
    ensures h[a].next != 0 ==> h[a].next in h && h[h[a].next].older == a && h[a].next in s.journal
    ensures (h[a].next == 0 <==> a == jhead)
  {
    hide Layout, Sum, ClassOf;
    JournalPositive(s);
    hide Inv;
    var i :| 0 <= i < |s.journal| && s.journal[i] == a;
    assert i > 0 ==> s.journal[i - 1] in s.journal;
    assert i + 1 < |s.journal| ==> s.journal[i + 1] in s.journal;
  }

  lemma JournalPositive(s: Arena)
    requires Inv(s)
    ensures 0 !in s.journal && NoDup(s.journal) && 0 !in s.blk
    ensures forall a | a in s.journal :: a in s.blk && s.blk[a].live
  {
    forall a | a in s.blk ensures a != 0 { assert BlockOk(s, a, s.blk[a]); }
    hide ClassOf, Cap, Sum, InRegion, PairsApart, RegionsApart;
  }

  // ---------------------------------------------------------------- what each operation leaves in memory

  ghost predicate Chains(h: map<nat, Head>, bins: seq<seq<nat>>, bin: seq<nat>) {
    && |bin| == |bins| == BINS
    && (forall c | 0 <= c < BINS :: Chained(h, bins[c]) && bin[c] == At(bins[c], 0))
  }

  lemma RepParts(s: Arena, h: map<nat, Head>, bin: seq<nat>, jhead: nat)
    ensures Represents(s, h, bin, jhead) <==> Tagged(h, s.blk) && Linked(h, s.journal) && jhead == Last(s.journal) && Chains(h, s.bins, bin)
  {
  }

  /** Headers outside the bins may change without touching a bin. */
  lemma ChainsStay(h: map<nat, Head>, g: map<nat, Head>, bins: seq<seq<nat>>, bin: seq<nat>)
    requires Chains(h, bins, bin)
    requires forall c, x | 0 <= c < BINS && x in bins[c] :: x in h && x in g && g[x].next == h[x].next
    ensures Chains(g, bins, bin)
  {
    forall c | 0 <= c < BINS ensures Chained(g, bins[c]) { ChainStays(h, g, bins[c]); }
  }

  /** Free blocks are not journaled and no bin holds a block twice or shares one. */
  lemma BinsApart(s: Arena, c: nat, x: nat)
    requires Lists(s) && c < BINS && x in s.bins[c]
    ensures x in s.blk && x !in s.journal && NoDup(s.bins[c]) && forall d | 0 <= d < BINS && d != c :: x !in s.bins[d]
  {
    hide ClassOf, NoDup;
  }

  lemma TaggedPush(h: map<nat, Head>, g: map<nat, Head>, blk: map<nat, Info>, a: nat, i: Info)
    requires Tagged(h, blk) && i.live && forall x :: x in g <==> x in h || x == a
    requires g[a].size == i.size && g[a].magic == (if i.big then BigMagic else BinMagic)
    requires forall x | x in h && x != a :: g[x].size == h[x].size && g[x].magic == h[x].magic
    ensures Tagged(g, blk[a := i])
  {
  }

  /** A block that was in no list joins the journal. */
  lemma RepNew(s: Arena, t: Arena, h: map<nat, Head>, bin: seq<nat>, jhead: nat, a: nat, i: Info, raw: Head)
    requires Inv(s) && Represents(s, h, bin, jhead) && a !in s.blk && a > 0 && i.live && raw.size == i.size && raw.magic == MagicOf(i)
    requires t.blk == s.blk[a := i] && t.journal == s.journal + [a] && t.bins == s.bins
    ensures Represents(t, Pushed(h[a := raw], jhead, a), bin, a)
  {
    hide *;
    InvParts(s, 0);
    RepParts(s, h, bin, jhead);
    JournalPositive(s);
    var f := h[a := raw];
    LinkedElsewhere(h, s.journal, a, raw);
    PushLinks(f, s.journal, a);
    var g := Pushed(f, jhead, a);
    MagicOfLive(i);
    TaggedPush(h, g, s.blk, a, i) by { TaggedKeys(h, s.blk); }
    forall c, x | 0 <= c < BINS && x in s.bins[c] ensures x in h && x in g && g[x].next == h[x].next { BinsApart(s, c, x); TaggedKeys(h, s.blk); }
    ChainsStay(h, g, s.bins, bin);
    RepParts(t, g, bin, a);
  }

  lemma MagicOfLive(i: Info)
    ensures MagicOf(i) == if !i.live then NoMagic else if i.big then BigMagic else BinMagic
  {
  }

  lemma TaggedKeys(h: map<nat, Head>, blk: map<nat, Info>)
    requires Tagged(h, blk)
    ensures forall x :: x in h <==> x in blk
  {
  }

  lemma LinkedElsewhere(h: map<nat, Head>, j: seq<nat>, a: nat, raw: Head)
    requires Linked(h, j) && a !in j
    ensures Linked(h[a := raw], j)
  {
    assert forall i | 0 <= i < |j| :: j[i] in j;
  }

  /** The first block of bin `c` joins the journal. */
  lemma RepRecycled(s: Arena, t: Arena, h: map<nat, Head>, bin: seq<nat>, jhead: nat, c: nat, raw: Head)
    requires Inv(s) && Represents(s, h, bin, jhead) && |s.bins| == BINS && c < BINS && s.bins[c] != []
    requires raw.size == Cap(c) && raw.magic == BinMagic
    requires var a := s.bins[c][0];
             t.blk == s.blk[a := Info(Cap(c), false, true)] && t.journal == s.journal + [a] && t.bins == s.bins[c := s.bins[c][1..]]
    ensures var a := s.bins[c][0];
            a in h && |bin| == BINS && bin[c] == a && Represents(t, Pushed(h[a := raw], jhead, a), bin[c := h[a].next], a)
  {
    hide *;
    InvParts(s, 0);
    RepParts(s, h, bin, jhead);
    JournalPositive(s);
    var a := s.bins[c][0];
    BinHead(s, c);
    BinsApart(s, c, a);
    TaggedKeys(h, s.blk);
    var f := h[a := raw];
    LinkedElsewhere(h, s.journal, a, raw);
    PushLinks(f, s.journal, a);
    var g := Pushed(f, jhead, a);
    TaggedPush(h, g, s.blk, a, Info(Cap(c), false, true));
    forall d, x | 0 <= d < BINS && x in s.bins[d] ensures x in h && x in g && (x != a ==> g[x].next == h[x].next) { BinsApart(s, d, x); }
    ChainsPop(h, g, s.bins, bin, c) by { forall d | 0 <= d < BINS && d != c ensures a !in s.bins[d] {} }
    RepParts(t, g, bin[c := h[a].next], a);
  }

  lemma ChainsPop(h: map<nat, Head>, g: map<nat, Head>, bins: seq<seq<nat>>, bin: seq<nat>, c: nat)
    requires Chains(h, bins, bin) && c < BINS && |bins| == BINS && bins[c] != [] && NoDup(bins[c])
    requires forall d | 0 <= d < BINS && d != c :: bins[c][0] !in bins[d]
    requires forall d, x | 0 <= d < BINS && x in bins[d] :: x in h && x in g && (x != bins[c][0] ==> g[x].next == h[x].next)
    ensures bins[c][0] in h && |bin| == BINS && bin[c] == bins[c][0] && Chains(g, bins[c := bins[c][1..]], bin[c := h[bins[c][0]].next])
  {
    var b, rest := bins[c], bins[c][1..];
    assert b[0] in bins[c];
    assert Chained(h, b);
    assert b[0] in h && h[b[0]].next == At(b, 1);
    forall d | 0 <= d < BINS && d != c ensures Chained(g, bins[d]) { ChainStays(h, g, bins[d]); }
    forall i | 0 <= i < |rest| ensures rest[i] in g && g[rest[i]].next == At(rest, i + 1) {
      assert rest[i] == b[i + 1] && b[i + 1] in bins[c];
    }
  }

  /** A block leaves the journal for the bin of its class. */
  lemma RepBinned(s: Arena, t: Arena, h: map<nat, Head>, bin: seq<nat>, jhead: nat, a: nat, c: nat)
    requires Inv(s) && Represents(s, h, bin, jhead) && |s.bins| == BINS && a in s.journal && a in s.blk && c < BINS
    requires t.blk == s.blk[a := s.blk[a].(live := false)] && t.journal == Without(s.journal, a) && t.bins == s.bins[c := [a] + s.bins[c]]
    ensures a in h && |bin| == BINS && a in Unlinked(h, a)
    ensures var u := Unlinked(h, a);
            Represents(t, u[a := u[a].(magic := NoMagic, next := bin[c])], bin[c := a], if h[a].next == 0 then h[a].older else jhead)
  {
    hide *;
    InvParts(s, 0);
    RepParts(s, h, bin, jhead);
    JournalPositive(s);
    TaggedKeys(h, s.blk);
    var i :| 0 <= i < |s.journal| && s.journal[i] == a;
    UnlinkKeeps(h, s.journal, i);
    UnlinkLinks(h, s.journal, i);
    WithoutExact(s.journal, a);
    var u := Unlinked(h, a);
    BinsLength(h, s.bins, bin);
    var g := u[a := u[a].(magic := NoMagic, next := bin[c])];
    LinkedElsewhere(u, t.journal, a, g[a]);
    TaggedDead(h, g, s.blk, a);
    forall d, x | 0 <= d < BINS && x in s.bins[d] ensures x in h && x in g && g[x].next == h[x].next { BinsApart(s, d, x); }
    ChainsStay(h, g, s.bins, bin);
    ChainsAdd(g, s.bins, bin, c, a);
    RepParts(t, g, bin[c := a], if h[a].next == 0 then h[a].older else jhead);
  }

  lemma BinsLength(h: map<nat, Head>, bins: seq<seq<nat>>, bin: seq<nat>)
    requires Chains(h, bins, bin)
    ensures |bin| == |bins| == BINS
  {
  }

  lemma ChainsAdd(g: map<nat, Head>, bins: seq<seq<nat>>, bin: seq<nat>, c: nat, a: nat)
    requires Chains(g, bins, bin) && c < BINS && |bin| == |bins| == BINS && a in g && g[a].next == bin[c]
    ensures Chains(g, bins[c := [a] + bins[c]], bin[c := a])
  {
    var b := [a] + bins[c];
    assert Chained(g, bins[c]) && bin[c] == At(bins[c], 0);
    forall i | 0 <= i < |b| ensures b[i] in g && g[b[i]].next == At(b, i + 1) {
      if i > 0 { assert b[i] == bins[c][i - 1] && At(b, i + 1) == At(bins[c], i); } else { assert At(b, 1) == At(bins[c], 0); }
    }
  }

  lemma TaggedDead(h: map<nat, Head>, g: map<nat, Head>, blk: map<nat, Info>, a: nat)
    requires Tagged(h, blk) && a in blk && forall x :: x in g <==> x in h
    requires a in h && g[a].size == h[a].size && g[a].magic == NoMagic
    requires forall x | x in h && x != a :: g[x].size == h[x].size && g[x].magic == h[x].magic
    ensures Tagged(g, blk[a := blk[a].(live := false)])
  {
  }

  /** A block leaves the journal and its memory goes back to the system. */
  lemma RepUnmapped(s: Arena, t: Arena, h: map<nat, Head>, bin: seq<nat>, jhead: nat, a: nat)
    requires Inv(s) && Represents(s, h, bin, jhead) && a in s.journal
    requires t.blk == Cut(s.blk, a) && t.journal == Without(s.journal, a) && t.bins == s.bins
    ensures a in h && Represents(t, Cut(Unlinked(h, a), a), bin, if h[a].next == 0 then h[a].older else jhead)
  {
    hide *;
    InvParts(s, 0);
    RepParts(s, h, bin, jhead);
    JournalPositive(s);
    TaggedKeys(h, s.blk);
    var i :| 0 <= i < |s.journal| && s.journal[i] == a;
    UnlinkKeeps(h, s.journal, i);
    UnlinkLinks(h, s.journal, i);
    WithoutExact(s.journal, a);
    var u := Unlinked(h, a);
    var g := Cut(u, a);
    LinkedCut(u, t.journal, a);
    TaggedCut(h, g, s.blk, a);
    forall d, x | 0 <= d < BINS && x in s.bins[d] ensures x in h && x in g && g[x].next == h[x].next { BinsApart(s, d, x); }
    ChainsStay(h, g, s.bins, bin);
    RepParts(t, g, bin, if h[a].next == 0 then h[a].older else jhead);
  }

  lemma LinkedCut(h: map<nat, Head>, j: seq<nat>, a: nat)
    requires Linked(h, j) && a !in j
    ensures Linked(Cut(h, a), j)
  {
    assert forall i | 0 <= i < |j| :: j[i] in j;
  }

  lemma TaggedCut(h: map<nat, Head>, g: map<nat, Head>, blk: map<nat, Info>, a: nat)
    requires Tagged(h, blk) && forall x :: x in g <==> x in h && x != a
    requires forall x | x in g :: g[x].size == h[x].size && g[x].magic == h[x].magic
    ensures Tagged(g, Cut(blk, a))
  {
  }

  /** A live block changes its size. */
  lemma RepResized(s: Arena, t: Arena, h: map<nat, Head>, bin: seq<nat>, jhead: nat, a: nat, cap: nat)
    requires Represents(s, h, bin, jhead) && a in s.blk
    requires t.blk == s.blk[a := s.blk[a].(size := cap)] && t.journal == s.journal && t.bins == s.bins
    ensures a in h && Represents(t, h[a := h[a].(size := cap)], bin, jhead)
  {
  }
}
