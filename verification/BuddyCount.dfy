/** Counting pages: what lib_buddy_stat adds up, and that nothing is lost. */
module BuddyCount {
  import opened PowersOfTwo
  import opened BuddySpec
  import opened BuddyNodes
  import opened BuddyLists

  ghost function PagesIn(pages: nat, bs: set<Blk>): set<nat> {
    set p: nat | p < pages && Covered(p, bs)
  }

  lemma {:induction false} IntervalSize(a: nat, n: nat, ps: set<nat>)
    requires forall p: nat :: p in ps <==> a <= p < a + n
    ensures |ps| == n
    decreases n
  {
    if n == 0 {
      assert ps == {};
    } else {
      IntervalSize(a, n - 1, ps - {a + n - 1});
    }
  }

  lemma AddBlock(pages: nat, bs: set<Blk>, b: Blk)
    requires Disjoint(bs + {b}) && b !in bs && Fits(pages, b)
    ensures |PagesIn(pages, bs + {b})| == |PagesIn(pages, bs)| + Pow2(b.lvl)
  {
    IntervalSize(b.start, Pow2(b.lvl), PagesOf(b));
    forall p: nat | p < pages ensures Covered(p, bs + {b}) <==> Covered(p, bs) || In(p, b) {
      if Covered(p, bs) {
        var x :| x in bs && In(p, x);
        assert x in bs + {b};
      }
      assert b in bs + {b};
    }
    forall p: nat | Covered(p, bs) ensures !In(p, b) {
      var x :| x in bs && In(p, x);
      assert x in bs + {b} && b in bs + {b};
    }
    assert PagesIn(pages, bs + {b}) == PagesIn(pages, bs) + PagesOf(b);
    assert PagesIn(pages, bs) !! PagesOf(b);
  }

  /** The loop of lib_buddy_stat: list lengths weighted by block size. */
  function SumLens(lens: seq<nat>, n: nat): nat
    requires n <= |lens|
  {
    if n == 0 then 0 else SumLens(lens, n - 1) + lens[n - 1] * Pow2(n - 1)
  }

  /** The sizes of the allocated blocks recorded in the first n table entries. */
  function SumUsed(table: seq<int>, n: nat): nat
    requires n <= |table|
  {
    if n == 0 then 0
    else SumUsed(table, n - 1) + if table[n - 1] >= 0 then Pow2(table[n - 1]) else 0
  }

  lemma SubDisjoint(bs: set<Blk>, cs: set<Blk>)
    requires Disjoint(cs) && bs <= cs
    ensures Disjoint(bs)
  {}

  lemma {:induction false} CountList(pages: nat, lists: seq<seq<nat>>, l: nat, k: nat)
    requires l < |lists| && k <= |lists[l]|
    requires Disjoint(FreeSet(lists)) && forall b | b in FreeSet(lists) :: Fits(pages, b)
    requires forall i, j | 0 <= i < j < |lists[l]| :: lists[l][i] != lists[l][j]
    ensures |PagesIn(pages, FreeUpTo(lists, l) + Blocks(lists[l][..k], l))|
            == |PagesIn(pages, FreeUpTo(lists, l))| + k * Pow2(l)
    decreases k
  {
    var xs := lists[l];
    if k == 0 {
      assert FreeUpTo(lists, l) + Blocks(xs[..0], l) == FreeUpTo(lists, l);
    } else {
      CountList(pages, lists, l, k - 1);
      var bs, b := FreeUpTo(lists, l) + Blocks(xs[..k - 1], l), Blk(xs[k - 1], l);
      forall c ensures c in FreeUpTo(lists, l) + Blocks(xs[..k], l) <==> c in bs + {b} {
        InBlocks(xs[..k], l, c);
        InBlocks(xs[..k - 1], l, c);
        assert xs[..k] == xs[..k - 1] + [xs[k - 1]];
      }
      assert FreeUpTo(lists, l) + Blocks(xs[..k], l) == bs + {b};
      forall c | c in bs + {b} ensures c in FreeSet(lists) {
        InBlocks(xs[..k - 1], l, c);
        InFreeUpTo(lists, l, c);
        InFreeUpTo(lists, |lists|, c);
      }
      InBlocks(xs[..k - 1], l, b);
      InFreeUpTo(lists, l, b);
      SubDisjoint(bs + {b}, FreeSet(lists));
      AddBlock(pages, bs, b);
      assert k * Pow2(l) == (k - 1) * Pow2(l) + Pow2(l);
    }
  }

  lemma {:induction false} CountFree(pages: nat, nodes: seq<Node>, lens: seq<nat>, lists: seq<seq<nat>>, n: nat,
                                     back: bool)
    requires n <= |lists| == |lens| && ListsOk(pages, nodes, lens, lists, |lists|, back)
    requires Disjoint(FreeSet(lists)) && forall b | b in FreeSet(lists) :: Fits(pages, b)
    ensures SumLens(lens, n) == |PagesIn(pages, FreeUpTo(lists, n))|
  {
    if n == 0 {
      assert PagesIn(pages, FreeUpTo(lists, 0)) == {};
    } else {
      CountFree(pages, nodes, lens, lists, n - 1, back);
      ListsOkAt(pages, nodes, lens, lists, |lists|, n - 1, back);
      var xs := lists[n - 1];
      CountList(pages, lists, n - 1, |xs|);
      assert xs[..|xs|] == xs;
    }
  }

  lemma {:induction false} CountUsed(pages: nat, table: seq<int>, n: nat)
    requires n <= |table| && Disjoint(UsedSet(table)) && forall b | b in UsedSet(table) :: Fits(pages, b)
    ensures SumUsed(table, n) == |PagesIn(pages, UsedSet(table[..n]))|
  {
    if n == 0 {
      assert PagesIn(pages, UsedSet(table[..0])) == {};
    } else {
      CountUsed(pages, table, n - 1);
      var bs := UsedSet(table[..n - 1]);
      if table[n - 1] >= 0 {
        var b := Blk(n - 1, table[n - 1]);
        assert UsedSet(table[..n]) == bs + {b};
        SubDisjoint(bs + {b}, UsedSet(table));
        AddBlock(pages, bs, b);
      } else {
        assert UsedSet(table[..n]) == bs;
      }
    }
  }

  /** Free pages, as the statistics add them up, plus the pages allocated make all pages. */
  lemma Conservation(s: State, nodes: seq<Node>, lens: seq<nat>, lists: seq<seq<nat>>, table: seq<int>, back: bool)
    requires Inv(s) && s.free == FreeSet(lists) && s.used == UsedSet(table)
    requires |lists| == |lens| && ListsOk(s.pages, nodes, lens, lists, |lists|, back)
    ensures SumLens(lens, |lens|) == |FreePages(s)|
    ensures SumLens(lens, |lens|) + SumUsed(table, |table|) == s.pages
  {
    SubDisjoint(s.free, s.free + s.used);
    SubDisjoint(s.used, s.free + s.used);
    CountFree(s.pages, nodes, lens, lists, |lists|, back);
    CountUsed(s.pages, table, |table|);
    assert table[..|table|] == table;
    PagesAreComplement(s);
    var all := FreePages(s) + PagesIn(s.pages, s.used);
    IntervalSize(0, s.pages, all);
    assert FreePages(s) !! PagesIn(s.pages, s.used);
  }
}
