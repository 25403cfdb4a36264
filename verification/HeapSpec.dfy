/** The free list of the user-level allocator as a sequence of blocks in address order.
    Addresses and sizes count header units; block 0 is the allocator's own empty base block. */
module HeapSpec {

  datatype Blk = Blk(addr: nat, size: nat)

  function End(b: Blk): nat {
    b.addr + b.size
  }

  /** Blocks in address order leave a gap: the next one starts past the end of this one. */
  ghost predicate Gap(bs: seq<Blk>, i: nat)
    requires i + 1 < |bs|
  {
    End(bs[i]) < bs[i + 1].addr && bs[i + 1].size > 0
  }

  ghost predicate Gaps(bs: seq<Blk>) {
    forall i: nat {:trigger Gap(bs, i)} | i + 1 < |bs| :: Gap(bs, i)
  }

  /** Address-ordered from the base block on, with no two blocks adjacent. */
  ghost predicate Ordered(bs: seq<Blk>) {
    |bs| > 0 && bs[0].size == 0 && Gaps(bs)
  }

  lemma {:induction false} InOrder(bs: seq<Blk>, i: nat, j: nat)
    requires Ordered(bs) && i < j < |bs|
    ensures End(bs[i]) < bs[j].addr && bs[j].size > 0
    decreases j - i
  {
    assert Gap(bs, j - 1);
    if i < j - 1 {
      InOrder(bs, i, j - 1);
    }
  }

  lemma GapsSlice(bs: seq<Blk>, lo: nat, hi: nat)
    requires Gaps(bs) && lo <= hi <= |bs|
    ensures Gaps(bs[lo..hi])
  {
    forall i: nat | i + 1 < hi - lo ensures Gap(bs[lo..hi], i) {
      assert Gap(bs, lo + i);
    }
  }

  lemma GapsConcat(a: seq<Blk>, b: seq<Blk>)
    requires Gaps(a) && Gaps(b)
    requires a != [] && b != [] ==> End(a[|a| - 1]) < b[0].addr && b[0].size > 0
    ensures Gaps(a + b)
  {
    forall i: nat | i + 1 < |a + b| ensures Gap(a + b, i) {
      if i + 1 < |a| {
        assert Gap(a, i);
      } else if i >= |a| {
        assert Gap(b, i - |a|);
      }
    }
  }

  // ---- The units that blocks cover ----

  predicate Has(b: Blk, u: nat) {
    b.addr <= u < End(b)
  }

  ghost predicate Free(bs: seq<Blk>, u: nat) {
    exists i {:trigger Has(bs[i], u)} | 0 <= i < |bs| :: Has(bs[i], u)
  }

  ghost predicate SameUnits(a: seq<Blk>, b: seq<Blk>) {
    forall u: nat :: Free(a, u) == Free(b, u)
  }

  /** The last block ends where the units end, and starts where their last run starts. */
  lemma LastBlock(a: seq<Blk>, b: seq<Blk>)
    requires Ordered(a) && Ordered(b) && SameUnits(a, b) && |a| > 1 && |b| > 1
    ensures End(a[|a| - 1]) <= End(b[|b| - 1])
    ensures End(a[|a| - 1]) == End(b[|b| - 1]) ==> b[|b| - 1].addr <= a[|a| - 1].addr
  {
    var n, m := |a| - 1, |b| - 1;
    assert Gap(a, n - 1) && Gap(b, m - 1);
    var top := End(a[n]) - 1;
    assert Has(a[n], top) && Free(a, top) && Free(b, top);
    var i :| 0 <= i < |b| && Has(b[i], top);
    if i < m {
      InOrder(b, i, m);
    }
    if End(a[n]) == End(b[m]) && a[n].addr < b[m].addr {
      var u := b[m].addr - 1;
      assert Has(a[n], u) && Free(a, u) && Free(b, u);
      var j :| 0 <= j < |b| && Has(b[j], u);
      if j < m {
        InOrder(b, j, m);
      }
    }
  }

  lemma DropLast(bs: seq<Blk>, u: nat)
    requires Ordered(bs) && |bs| > 1
    ensures Ordered(bs[..|bs| - 1])
    ensures Free(bs[..|bs| - 1], u) <==> Free(bs, u) && !Has(bs[|bs| - 1], u)
  {
    var n := |bs| - 1;
    var cs := bs[..n];
    GapsSlice(bs, 0, n);
    assert cs == bs[0..n];
    if Free(bs, u) && !Has(bs[n], u) {
      var i :| 0 <= i < |bs| && Has(bs[i], u);
      assert Has(cs[i], u);
    }
    if Free(cs, u) {
      var i :| 0 <= i < n && Has(cs[i], u);
      assert Has(bs[i], u);
      InOrder(bs, i, n);
    }
  }

  /** The free list is determined by the free units: it is their maximal runs in order. */
  lemma {:induction false} OrderedUnique(a: seq<Blk>, b: seq<Blk>)
    requires Ordered(a) && Ordered(b) && a[0] == b[0] && SameUnits(a, b)
    ensures a == b
  {
    var n, m := |a| - 1, |b| - 1;
    if n > 0 {
      assert Gap(a, n - 1) && Has(a[n], a[n].addr) && Free(a, a[n].addr) && Free(b, a[n].addr);
    }
    if m > 0 {
      assert Gap(b, m - 1) && Has(b[m], b[m].addr) && Free(b, b[m].addr) && Free(a, b[m].addr);
    }
    if n > 0 && m > 0 {
      LastBlock(a, b);
      LastBlock(b, a);
      assert a[n] == b[m];
      forall u: nat ensures Free(a[..n], u) == Free(b[..m], u) {
        DropLast(a, u);
        DropLast(b, u);
      }
      DropLast(a, 0);
      DropLast(b, 0);
      OrderedUnique(a[..n], b[..m]);
      assert a == a[..n] + [a[n]] && b == b[..m] + [b[m]];
    }
  }

  // ---- What free does to the list ----

  /** Block b belongs right after block k. */
  ghost predicate Fits(bs: seq<Blk>, k: nat, b: Blk) {
    && k < |bs| && b.size > 0 && bs[k].addr < b.addr && End(bs[k]) <= b.addr
    && (k + 1 < |bs| ==> End(b) <= bs[k + 1].addr)
  }

  /** Where the new or grown block goes, and where the untouched blocks begin again. */
  function Spot(bs: seq<Blk>, k: nat, b: Blk): nat
    requires k < |bs|
  {
    if End(bs[k]) == b.addr then k else k + 1
  }

  function Skip(bs: seq<Blk>, k: nat, b: Blk): nat
    requires k < |bs|
  {
    if k + 1 < |bs| && End(b) == bs[k + 1].addr then k + 2 else k + 1
  }

  function WithRight(bs: seq<Blk>, k: nat, b: Blk): Blk
    requires k < |bs|
  {
    if k + 1 < |bs| && End(b) == bs[k + 1].addr then Blk(b.addr, b.size + bs[k + 1].size) else b
  }

  function WithBoth(bs: seq<Blk>, k: nat, b: Blk): Blk
    requires k < |bs|
  {
    var mid := WithRight(bs, k, b);
    if End(bs[k]) == b.addr then Blk(bs[k].addr, bs[k].size + mid.size) else mid
  }

  /** The list with b put in after block k and joined to its neighbours. */
  function Join(bs: seq<Blk>, k: nat, b: Blk): seq<Blk>
    requires k < |bs|
  {
    bs[..Spot(bs, k, b)] + [WithBoth(bs, k, b)] + bs[Skip(bs, k, b)..]
  }

  lemma JoinAt(bs: seq<Blk>, k: nat, b: Blk, p: nat)
    requires k < |bs|
    ensures |Join(bs, k, b)| == Spot(bs, k, b) + 1 + |bs| - Skip(bs, k, b)
    ensures p < |Join(bs, k, b)| ==>
              Join(bs, k, b)[p] == if p < Spot(bs, k, b) then bs[p]
                                   else if p == Spot(bs, k, b) then WithBoth(bs, k, b)
                                   else bs[p - Spot(bs, k, b) - 1 + Skip(bs, k, b)]
  {}

  /** Exactly the units of b become free. */
  lemma JoinUnits(bs: seq<Blk>, k: nat, b: Blk, u: nat)
    requires k < |bs|
    ensures Free(Join(bs, k, b), u) <==> Free(bs, u) || Has(b, u)
  {
    var js, at, skip := Join(bs, k, b), Spot(bs, k, b), Skip(bs, k, b);
    JoinAt(bs, k, b, at);
    if Has(b, u) {
      assert Has(js[at], u);
    }
    if Free(bs, u) {
      var i :| 0 <= i < |bs| && Has(bs[i], u);
      var p := if i < at then i else if i < skip then at else i - skip + at + 1;
      JoinAt(bs, k, b, p);
      assert Has(js[p], u);
    }
    if Free(js, u) {
      var p :| 0 <= p < |js| && Has(js[p], u);
      JoinAt(bs, k, b, p);
      var i := if p < at then p else if p == at then (if Has(bs[k], u) then k else k + 1) else p - at - 1 + skip;
      assert Has(b, u) || Has(bs[i], u);
    }
  }

  lemma JoinOrdered(bs: seq<Blk>, k: nat, b: Blk)
    requires Ordered(bs) && Fits(bs, k, b)
    ensures Ordered(Join(bs, k, b)) && Join(bs, k, b)[0] == bs[0]
  {
    var at, skip, mid := Spot(bs, k, b), Skip(bs, k, b), WithBoth(bs, k, b);
    GapsSlice(bs, 0, at);
    GapsSlice(bs, skip, |bs|);
    assert bs[0..at] == bs[..at] && bs[skip..|bs|] == bs[skip..];
    if k > 0 {
      assert Gap(bs, k - 1);
    }
    if k + 1 < |bs| {
      assert Gap(bs, k);
    }
    if k + 2 < |bs| {
      assert Gap(bs, k + 1);
    }
    GapsConcat(bs[..at], [mid]);
    GapsConcat(bs[..at] + [mid], bs[skip..]);
  }

  // ---- What malloc does to the list ----

  /** Block j gives n units from its end, or goes away when it has just n. */
  function Carve(bs: seq<Blk>, j: nat, n: nat): seq<Blk>
    requires j < |bs| && n <= bs[j].size
  {
    if bs[j].size == n then bs[..j] + bs[j + 1..] else bs[j := Blk(bs[j].addr, bs[j].size - n)]
  }

  function Carved(bs: seq<Blk>, j: nat, n: nat): Blk
    requires j < |bs| && n <= bs[j].size
  {
    Blk(End(bs[j]) - n, n)
  }

  lemma CarveOrdered(bs: seq<Blk>, j: nat, n: nat)
    requires Ordered(bs) && 0 < j < |bs| && 0 < n <= bs[j].size
    ensures Ordered(Carve(bs, j, n)) && Carve(bs, j, n)[0] == bs[0]
  {
    var cs := Carve(bs, j, n);
    forall i: nat | i + 1 < |cs| ensures Gap(cs, i) {
      assert Gap(bs, i);
      if i + 2 < |bs| {
        assert Gap(bs, i + 1);
      }
    }
  }

  /** Exactly the units of the carved block stop being free. */
  lemma CarveUnits(bs: seq<Blk>, j: nat, n: nat, u: nat)
    requires Ordered(bs) && 0 < j < |bs| && 0 < n <= bs[j].size
    ensures Has(Carved(bs, j, n), u) ==> Free(bs, u)
    ensures Free(Carve(bs, j, n), u) <==> Free(bs, u) && !Has(Carved(bs, j, n), u)
  {
    var cs, c := Carve(bs, j, n), Carved(bs, j, n);
    assert Has(c, u) ==> Has(bs[j], u);
    if Free(bs, u) && !Has(c, u) {
      var i :| 0 <= i < |bs| && Has(bs[i], u);
      var p := if bs[j].size == n && i > j then i - 1 else i;
      assert Has(cs[p], u);
    }
    if Free(cs, u) {
      var p :| 0 <= p < |cs| && Has(cs[p], u);
      var i := if bs[j].size == n && p >= j then p + 1 else p;
      assert Has(bs[i], u);
      if i < j {
        InOrder(bs, i, j);
      } else if i > j {
        InOrder(bs, j, i);
      }
    }
  }

  /** Freeing what was just carved gives back the very same list. */
  lemma CarveThenJoin(bs: seq<Blk>, j: nat, n: nat, k: nat)
    requires Ordered(bs) && 0 < j < |bs| && 0 < n <= bs[j].size
    requires Fits(Carve(bs, j, n), k, Carved(bs, j, n))
    ensures Join(Carve(bs, j, n), k, Carved(bs, j, n)) == bs
  {
    var cs, c := Carve(bs, j, n), Carved(bs, j, n);
    CarveOrdered(bs, j, n);
    JoinOrdered(cs, k, c);
    forall u: nat ensures Free(Join(cs, k, c), u) == Free(bs, u) {
      CarveUnits(bs, j, n, u);
      JoinUnits(cs, k, c, u);
    }
    OrderedUnique(Join(cs, k, c), bs);
  }
}
