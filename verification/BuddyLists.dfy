/** How the linked lists and the state table stand for sets of blocks. */
module BuddyLists {
  import opened PowersOfTwo
  import opened BuddySpec
  import opened BuddyNodes

  // ---- From lists and table to sets of blocks ----

  ghost function Blocks(xs: seq<nat>, l: nat): set<Blk> {
    set i: nat | i < |xs| :: Blk(xs[i], l)
  }

  lemma InBlocks(xs: seq<nat>, l: nat, b: Blk)
    ensures b in Blocks(xs, l) <==> b.lvl == l && b.start in xs
  {
    if b.lvl == l && b.start in xs {
      var i: nat :| i < |xs| && xs[i] == b.start;
      assert b == Blk(xs[i], l);
    }
  }

  /** The blocks on the first n lists. */
  ghost function FreeUpTo(lists: seq<seq<nat>>, n: nat): set<Blk>
    requires n <= |lists|
  {
    if n == 0 then {} else FreeUpTo(lists, n - 1) + Blocks(lists[n - 1], n - 1)
  }

  ghost function FreeSet(lists: seq<seq<nat>>): set<Blk> {
    FreeUpTo(lists, |lists|)
  }

  lemma {:induction false} InFreeUpTo(lists: seq<seq<nat>>, n: nat, b: Blk)
    requires n <= |lists|
    ensures b in FreeUpTo(lists, n) <==> b.lvl < n && b.start in lists[b.lvl]
  {
    if n > 0 {
      InFreeUpTo(lists, n - 1, b);
      InBlocks(lists[n - 1], n - 1, b);
    }
  }

  ghost function UsedSet(table: seq<int>): set<Blk> {
    set p: nat | p < |table| && table[p] >= 0 :: Blk(p, table[p])
  }

  ghost predicate Starts(bs: set<Blk>, x: nat) {
    exists b :: b in bs && b.start == x
  }

  /** Head l sits at index pages + l and threads exactly lists[l]; len counts it. */
  ghost predicate LevelOk(pages: nat, nodes: seq<Node>, lens: seq<nat>, lists: seq<seq<nat>>, l: nat, back: bool)
    requires l < |lists| == |lens|
  {
    && lens[l] == |lists[l]|
    && Chain(nodes, pages + l, l, lists[l], back)
    && (forall i | 0 <= i < |lists[l]| :: lists[l][i] < pages)
  }

  /** The first n lists are in order. */
  ghost predicate ListsOk(pages: nat, nodes: seq<Node>, lens: seq<nat>, lists: seq<seq<nat>>, n: nat, back: bool)
    requires n <= |lists| == |lens|
  {
    n == 0 || (ListsOk(pages, nodes, lens, lists, n - 1, back) && LevelOk(pages, nodes, lens, lists, n - 1, back))
  }

  lemma {:induction false} ListsOkAt(pages: nat, nodes: seq<Node>, lens: seq<nat>, lists: seq<seq<nat>>, n: nat, l: nat,
                                     back: bool)
    requires l < n <= |lists| == |lens| && ListsOk(pages, nodes, lens, lists, n, back)
    ensures LevelOk(pages, nodes, lens, lists, l, back)
    decreases n
  {
    if l < n - 1 { ListsOkAt(pages, nodes, lens, lists, n - 1, l, back); }
  }

  lemma {:induction false} ListsOkFrom(pages: nat, nodes: seq<Node>, lens: seq<nat>, lists: seq<seq<nat>>, n: nat,
                                       back: bool)
    requires n <= |lists| == |lens|
    requires forall l: nat | l < n :: LevelOk(pages, nodes, lens, lists, l, back)
    ensures ListsOk(pages, nodes, lens, lists, n, back)
    decreases n
  {
    if n > 0 { ListsOkFrom(pages, nodes, lens, lists, n - 1, back); }
  }

  /** Node p may change without disturbing any list but list l. */
  ghost predicate Loose(pages: nat, nodes: seq<Node>, free: set<Blk>, l: nat, p: nat)
    requires p < |nodes|
  {
    p == pages + l || (p < pages && (nodes[p].level == l || !Starts(free, p)))
  }

  /** A change to nodes and one list leaves another list in order. */
  lemma OtherLevel(pages: nat, nodes: seq<Node>, lens: seq<nat>, lists: seq<seq<nat>>, l: nat,
                   nodes': seq<Node>, m: nat, back: bool)
    requires m < |lists| == |lens| && m != l && LevelOk(pages, nodes, lens, lists, m, back)
    requires |nodes| == |nodes'| == pages + |lists|
    requires forall p: nat | p < |nodes| && nodes'[p] != nodes[p] :: Loose(pages, nodes, FreeSet(lists), l, p)
    ensures Chain(nodes', pages + m, m, lists[m], back)
  {
    forall i | 0 <= i < |lists[m]| ensures nodes'[lists[m][i]] == nodes[lists[m][i]] {
      assert LinkOk(nodes, pages + m, m, lists[m], i, back);
      InFreeUpTo(lists, |lists|, Blk(lists[m][i], m));
      assert Blk(lists[m][i], m) in FreeSet(lists);
    }
    ChainFrame(nodes, nodes', pages + m, m, lists[m], back);
  }

  /** A change to nodes and one list that leaves the other lists' nodes alone. */
  lemma ListsOkUpdate(pages: nat, nodes: seq<Node>, lens: seq<nat>, lists: seq<seq<nat>>, l: nat,
                      nodes': seq<Node>, len: nat, xs: seq<nat>, back: bool)
    requires l < |lists| == |lens| && ListsOk(pages, nodes, lens, lists, |lists|, back)
    requires |nodes| == |nodes'| == pages + |lists| && LevelOk(pages, nodes', lens[l := len], lists[l := xs], l, back)
    requires forall p: nat | p < |nodes| && nodes'[p] != nodes[p] :: Loose(pages, nodes, FreeSet(lists), l, p)
    ensures ListsOk(pages, nodes', lens[l := len], lists[l := xs], |lists|, back)
  {
    var lens', lists' := lens[l := len], lists[l := xs];
    forall m: nat | m < |lists| ensures LevelOk(pages, nodes', lens', lists', m, back) {
      if m != l {
        ListsOkAt(pages, nodes, lens, lists, |lists|, m, back);
        OtherLevel(pages, nodes, lens, lists, l, nodes', m, back);
      }
    }
    ListsOkFrom(pages, nodes', lens', lists', |lists|, back);
  }

  lemma FreeSetAdd(lists: seq<seq<nat>>, l: nat, x: nat)
    requires l < |lists|
    ensures FreeSet(lists[l := [x] + lists[l]]) == FreeSet(lists) + {Blk(x, l)}
  {
    var ys := lists[l := [x] + lists[l]];
    forall b ensures b in FreeSet(ys) <==> b in FreeSet(lists) + {Blk(x, l)} {
      InFreeUpTo(lists, |lists|, b);
      InFreeUpTo(ys, |ys|, b);
    }
  }

  lemma FreeSetRemove(lists: seq<seq<nat>>, l: nat, k: nat)
    requires l < |lists| && k < |lists[l]|
    requires forall i, j | 0 <= i < j < |lists[l]| :: lists[l][i] != lists[l][j]
    ensures FreeSet(lists[l := lists[l][..k] + lists[l][k + 1..]]) == FreeSet(lists) - {Blk(lists[l][k], l)}
  {
    var xs := lists[l];
    var ys := lists[l := xs[..k] + xs[k + 1..]];
    assert xs == xs[..k] + [xs[k]] + xs[k + 1..];
    forall b ensures b in FreeSet(ys) <==> b in FreeSet(lists) - {Blk(xs[k], l)} {
      InFreeUpTo(lists, |lists|, b);
      InFreeUpTo(ys, |ys|, b);
    }
  }

  lemma InsertListed(pages: nat, nodes: seq<Node>, lens: seq<nat>, lists: seq<seq<nat>>, l: nat, x: nat, back: bool)
    requires l < |lists| == |lens| && |nodes| == pages + |lists| && ListsOk(pages, nodes, lens, lists, |lists|, back)
    requires x < pages && !Starts(FreeSet(lists), x)
    ensures nodes[pages + l].next < pages
    ensures ListsOk(pages, Insert(nodes, pages + l, x, back), lens[l := lens[l] + 1],
                    lists[l := [x] + lists[l]], |lists|, back)
    ensures FreeSet(lists[l := [x] + lists[l]]) == FreeSet(lists) + {Blk(x, l)}
  {
    var h, xs := pages + l, lists[l];
    ListsOkAt(pages, nodes, lens, lists, |lists|, l, back);
    assert |xs| > 0 ==> LinkOk(nodes, h, l, xs, 0, back);
    InFreeUpTo(lists, |lists|, Blk(x, l));
    ChainInsert(nodes, h, l, xs, x, back);
    FreeSetAdd(lists, l, x);
    ListsOkUpdate(pages, nodes, lens, lists, l, Insert(nodes, h, x, back), |xs| + 1, [x] + xs, back);
  }

  /** The nodes that remove_block changes. */
  lemma UnlinkIsLoose(pages: nat, nodes: seq<Node>, l: nat, xs: seq<nat>, free: set<Blk>, k: nat, back: bool, p: nat)
    requires Chain(nodes, pages + l, l, xs, back) && k < |xs| && (back || k == 0) && p < |nodes|
    requires forall i | 0 <= i < |xs| :: xs[i] < pages
    ensures 0 <= nodes[xs[k]].prev < |nodes| && nodes[xs[k]].next < |nodes|
    ensures Unlink(nodes, xs[k])[p] != nodes[p] ==> Loose(pages, nodes, free, l, p)
  {
    assert LinkOk(nodes, pages + l, l, xs, k, back);
    assert k > 0 ==> LinkOk(nodes, pages + l, l, xs, k - 1, back);
    assert k + 1 < |xs| ==> LinkOk(nodes, pages + l, l, xs, k + 1, back);
  }

  /** remove_block; with the lists as written only a first block can be taken out. */
  lemma UnlinkListed(pages: nat, nodes: seq<Node>, lens: seq<nat>, lists: seq<seq<nat>>, l: nat, k: nat, back: bool)
    requires l < |lists| == |lens| && |nodes| == pages + |lists| && ListsOk(pages, nodes, lens, lists, |lists|, back)
    requires k < |lists[l]| && (back || k == 0)
    ensures var x := lists[l][k];
            && x < pages && nodes[x].list == l && lens[l] > 0
            && 0 <= nodes[x].prev < |nodes| && nodes[x].next < |nodes|
            && ListsOk(pages, Unlink(nodes, x), lens[l := lens[l] - 1],
                       lists[l := lists[l][..k] + lists[l][k + 1..]], |lists|, back)
  {
    var h, xs := pages + l, lists[l];
    ListsOkAt(pages, nodes, lens, lists, |lists|, l, back);
    assert LinkOk(nodes, h, l, xs, k, back);
    forall p: nat | p < |nodes| && Unlink(nodes, xs[k])[p] != nodes[p]
      ensures Loose(pages, nodes, FreeSet(lists), l, p)
    {
      UnlinkIsLoose(pages, nodes, l, xs, FreeSet(lists), k, back, p);
    }
    if back {
      ChainUnlink(nodes, h, l, xs, k);
    } else {
      ChainUnlinkAsWritten(nodes, h, l, xs, k);
      assert xs[..0] + xs[1..] == xs[1..];
    }
    ListsOkUpdate(pages, nodes, lens, lists, l, Unlink(nodes, xs[k]), |xs| - 1, xs[..k] + xs[k + 1..], back);
  }

  /** The upper halves still to be cut off start at working pages that start no free block. */
  ghost predicate PiecesFresh(pages: nat, free: set<Blk>, x: nat, lo: nat, hi: nat) {
    forall i: nat | lo <= i < hi :: PieceFresh(pages, free, x, i)
  }

  ghost predicate PieceFresh(pages: nat, free: set<Blk>, x: nat, i: nat) {
    x + Pow2(i) < pages && !Starts(free, x + Pow2(i))
  }

  lemma {:induction false} RemainderGrows(x: nat, hi: nat, lo: nat)
    requires 0 < lo <= hi
    ensures Remainder(x, hi, lo - 1) == Remainder(x, hi, lo) + {Blk(x + Pow2(lo - 1), lo - 1)}
    ensures forall b | b in Remainder(x, hi, lo) :: b.start > x + Pow2(lo - 1)
    decreases hi
  {
    if lo < hi {
      RemainderGrows(x, hi - 1, lo);
      Pow2Grows(lo - 1, hi - 1);
    }
  }

  /** What is listed when block x has been cut from level top down to level lvl. */
  function CutDown(free: set<Blk>, x: nat, top: nat, lvl: nat): set<Blk> {
    free - {Blk(x, top)} + Remainder(x, top, lvl)
  }

  /** One round of the splitting loop. */
  lemma CutOnce(pages: nat, free: set<Blk>, x: nat, top: nat, lvl: nat, final: nat)
    requires final <= lvl < top && PiecesFresh(pages, free, x, final, top)
    ensures x + Pow2(lvl) < pages && !Starts(CutDown(free, x, top, lvl + 1), x + Pow2(lvl))
    ensures CutDown(free, x, top, lvl + 1) + {Blk(x + Pow2(lvl), lvl)} == CutDown(free, x, top, lvl)
  {
    assert PieceFresh(pages, free, x, lvl);
    RemainderGrows(x, top, lvl + 1);
  }

  lemma PiecesAreFresh(s: State, b: Blk, final: nat)
    requires Inv(s) && b in s.free && final <= b.lvl
    ensures PiecesFresh(s.pages, s.free, b.start, final, b.lvl)
  {
    forall i: nat | final <= i < b.lvl ensures PieceFresh(s.pages, s.free, b.start, i) {
      var p := b.start + Pow2(i);
      Pow2Grows(i, b.lvl);
      FreeWithin(s, b);
      assert In(p, b) && b in s.free + s.used;
      forall c | c in s.free ensures c.start != p {
        assert In(c.start, c) && c in s.free + s.used;
      }
    }
  }

  /** No allocated block starts where a free block does. */
  lemma TableEmptyAtFree(s: State, table: seq<int>, b: Blk)
    requires Sound(s) && s.used == UsedSet(table) && b in s.free
    ensures b.start < |table| ==> table[b.start] < 0
  {
    if b.start < |table| && table[b.start] >= 0 {
      var u := Blk(b.start, table[b.start]);
      assert u in UsedSet(table);
      assert In(b.start, b) && In(b.start, u) && b in s.free + s.used;
    }
  }

  /** ... nor a free block where an allocated one does. */
  lemma UsedStartIsFresh(s: State, b: Blk)
    requires Sound(s) && b in s.used
    ensures b.start < s.pages && !Starts(s.free, b.start)
  {
    assert b in s.free + s.used && In(b.start, b);
    forall c | c in s.free ensures c.start != b.start {
      assert c in s.free + s.used && In(c.start, c);
    }
  }

  lemma UsedSetWrite(table: seq<int>, p: nat, v: int)
    requires p < |table|
    ensures table[p] < 0 && v >= 0 ==> UsedSet(table[p := v]) == UsedSet(table) + {Blk(p, v)}
    ensures table[p] >= 0 && v < 0 ==> UsedSet(table[p := v]) == UsedSet(table) - {Blk(p, table[p])}
  {
    var t := table[p := v];
    forall b ensures b in UsedSet(table) <==> b.start < |table| && table[b.start] == b.lvl {}
    forall b ensures b in UsedSet(t) <==> b.start < |t| && t[b.start] == b.lvl {}
  }

  /** n pages make a level-l block. */
  predicate IsLevel(n: nat, l: nat) {
    n == Pow2(l)
  }

  /** Some free block is large enough for n pages, and n is a power of two within the levels. */
  ghost predicate Serviceable(s: State, n: nat) {
    exists l: nat, b :: l < s.levels && IsLevel(n, l) && b in s.free && l <= b.lvl
  }

  /** n is a power of two within the levels, and some aligned run of n pages is free. */
  ghost predicate RunAvailable(s: State, n: nat) {
    exists l: nat, r: Blk :: l < s.levels && IsLevel(n, l) && r.lvl == l && Fits(s.pages, r) && Within(r, FreePages(s))
  }

  lemma ServiceableIffRun(s: State, n: nat)
    requires Inv(s) && NoPairs(s)
    ensures Serviceable(s, n) <==> RunAvailable(s, n)
  {
    if l: nat, b :| l < s.levels && IsLevel(n, l) && b in s.free && l <= b.lvl {
      RunIffBlock(s, l);
    }
    if l: nat, r: Blk :| l < s.levels && IsLevel(n, l) && r.lvl == l && Fits(s.pages, r) && Within(r, FreePages(s)) {
      RunIffBlock(s, l);
    }
  }
}
