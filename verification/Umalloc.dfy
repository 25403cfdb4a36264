/** The user-level allocator: free, morecore and malloc over a circular list of headers. */
module Umalloc {
  import opened HeapSpec

  function Succ(i: nat, n: nat): nat {
    if i + 1 < n then i + 1 else 0
  }

  /** The block d steps after block i on the circle of n blocks. */
  function Ahead(i: nat, d: nat, n: nat): (r: nat)
    requires i < n && d <= n
    ensures r < n
  {
    if i + d < n then i + d else i + d - n
  }

  type Field = map<nat, nat>

  ghost predicate LinkAt(ptr: Field, size: Field, bs: seq<Blk>, i: nat)
    requires i < |bs|
  {
    && bs[i].addr in ptr && ptr[bs[i].addr] == bs[Succ(i, |bs|)].addr
    && bs[i].addr in size && size[bs[i].addr] == bs[i].size
  }

  /** The header fields link the blocks into a circle. */
  ghost predicate Linked(ptr: Field, size: Field, bs: seq<Blk>) {
    forall i: nat {:trigger LinkAt(ptr, size, bs, i)} | i < |bs| :: LinkAt(ptr, size, bs, i)
  }

  lemma Distinct(bs: seq<Blk>, i: nat, j: nat)
    requires Ordered(bs) && i < |bs| && j < |bs| && bs[i].addr == bs[j].addr
    ensures i == j
  {
    if i < j {
      InOrder(bs, i, j);
    } else if j < i {
      InOrder(bs, j, i);
    }
  }

  /** A block none of whose units is free fits at the place that free's search stops. */
  lemma StopFits(bs: seq<Blk>, k: nat, b: Blk)
    requires Ordered(bs) && k < |bs| && b.size > 0 && bs[k].addr < b.addr && (k + 1 < |bs| ==> b.addr < bs[k + 1].addr)
    requires forall u: nat | Has(b, u) :: !Free(bs, u)
    ensures Fits(bs, k, b)
  {
    assert Has(b, b.addr) && !Has(bs[k], b.addr);
    if k + 1 < |bs| {
      assert Gap(bs, k) && Has(bs[k + 1], bs[k + 1].addr) && Free(bs, bs[k + 1].addr);
      assert !Has(b, bs[k + 1].addr);
    }
  }

  ghost predicate StopAt(bs: seq<Blk>, k: nat, a: nat) {
    k < |bs| && bs[k].addr < a && (k + 1 < |bs| ==> a < bs[k + 1].addr)
  }

  /** Every address above the base block, and not that of a block, has its place. */
  lemma {:induction false} FindStop(bs: seq<Blk>, a: nat, n: nat) returns (k: nat)
    requires Ordered(bs) && bs[0].addr < a && 0 < n <= |bs| && (n < |bs| ==> a < bs[n].addr)
    requires forall i | 0 <= i < |bs| :: bs[i].addr != a
    ensures StopAt(bs, k, a)
    decreases n
  {
    if bs[n - 1].addr < a {
      k := n - 1;
    } else {
      k := FindStop(bs, a, n - 1);
    }
  }

  /** The two tests of free's search, taken together, hold at that place and nowhere else. */
  lemma StopsThere(bs: seq<Blk>, k: nat, a: nat, i: nat)
    requires Ordered(bs) && StopAt(bs, k, a) && bs[0].addr < a && i < |bs|
    ensures var p, q := bs[i].addr, bs[Succ(i, |bs|)].addr;
            (a > p && a < q) || (p >= q && (a > p || a < q)) <==> i == k
  {
    if i < k {
      InOrder(bs, i, k);
      assert Gap(bs, i);
      if i + 1 < k {
        InOrder(bs, i + 1, k);
      }
    } else if k < i {
      InOrder(bs, k, i);
      if k + 1 < i {
        InOrder(bs, k + 1, i);
      }
      if i + 1 < |bs| {
        assert Gap(bs, i);
      }
    } else if i > 0 {
      InOrder(bs, 0, i);
    }
  }

  lemma NotABlock(bs: seq<Blk>, b: Blk)
    requires Ordered(bs) && bs[0].addr < b.addr && b.size > 0
    requires forall u: nat | Has(b, u) :: !Free(bs, u)
    ensures forall i | 0 <= i < |bs| :: bs[i].addr != b.addr
  {
    assert Has(b, b.addr);
    forall i | 0 <= i < |bs| ensures bs[i].addr != b.addr {
      if i > 0 {
        InOrder(bs, 0, i);
        assert !Has(bs[i], b.addr);
      }
    }
  }

  /** The pointer after the joined block. */
  function After(bs: seq<Blk>, k: nat, b: Blk): nat
    requires k < |bs|
  {
    var s := Skip(bs, k, b);
    if s < |bs| then bs[s].addr else bs[0].addr
  }

  ghost predicate Rewired(ptr: Field, size: Field, bs: seq<Blk>, k: nat, b: Blk, ptr': Field, size': Field)
    requires k < |bs|
  {
    var mid, left := WithRight(bs, k, b), End(bs[k]) == b.addr;
    && ptr' == ptr[b.addr := After(bs, k, b)][bs[k].addr := if left then After(bs, k, b) else b.addr]
    && size' == size[b.addr := mid.size][bs[k].addr := if left then bs[k].size + mid.size else bs[k].size]
  }

  lemma LinkElsewhere(ptr: Field, size: Field, bs: seq<Blk>, k: nat, b: Blk, ptr': Field, size': Field, i: nat)
    requires Ordered(bs) && Linked(ptr, size, bs) && Fits(bs, k, b) && Rewired(ptr, size, bs, k, b, ptr', size')
    requires i < |bs| && i != k
    ensures LinkAt(ptr', size', bs, i)
  {
    assert LinkAt(ptr, size, bs, i);
    NotAmong(bs, k, b, i);
    if bs[i].addr == bs[k].addr {
      Distinct(bs, i, k);
    }
  }

  lemma LinkJoin(ptr: Field, size: Field, bs: seq<Blk>, k: nat, b: Blk, ptr': Field, size': Field)
    requires Ordered(bs) && Linked(ptr, size, bs) && Fits(bs, k, b) && Rewired(ptr, size, bs, k, b, ptr', size')
    ensures Linked(ptr', size', Join(bs, k, b))
  {
    var js := Join(bs, k, b);
    forall p: nat | p < |js| ensures LinkAt(ptr', size', js, p) {
      LinkJoinAt(ptr, size, bs, k, b, ptr', size', js, p, Succ(p, |js|));
    }
  }

  lemma LinkJoinAt(ptr: Field, size: Field, bs: seq<Blk>, k: nat, b: Blk, ptr': Field, size': Field, js: seq<Blk>,
                   p: nat, q: nat)
    requires Ordered(bs) && Linked(ptr, size, bs) && Fits(bs, k, b) && Rewired(ptr, size, bs, k, b, ptr', size')
    requires js == Join(bs, k, b) && p < |js| && q == Succ(p, |js|)
    ensures LinkAt(ptr', size', js, p)
  {
    var at, skip := Spot(bs, k, b), Skip(bs, k, b);
    var i := if p < at then p else if p == at then k else p - at - 1 + skip;
    JoinAt(bs, k, b, p);
    JoinAt(bs, k, b, q);
    if i != k {
      LinkElsewhere(ptr, size, bs, k, b, ptr', size', i);
    }
  }

  lemma NotAmong(bs: seq<Blk>, k: nat, b: Blk, i: nat)
    requires Ordered(bs) && Fits(bs, k, b) && i < |bs|
    ensures bs[i].addr != b.addr
  {
    if i < k {
      InOrder(bs, i, k);
    } else if i > k + 1 {
      InOrder(bs, k + 1, i);
    }
  }

  lemma LinkCarve(ptr: Field, size: Field, bs: seq<Blk>, j: nat, n: nat, ptr': Field, size': Field)
    requires Ordered(bs) && Linked(ptr, size, bs) && 0 < j < |bs| && 0 < n <= bs[j].size
    requires if bs[j].size == n then ptr' == ptr[bs[j - 1].addr := bs[Succ(j, |bs|)].addr] && size' == size
             else ptr' == ptr && size' == size[bs[j].addr := bs[j].size - n][Carved(bs, j, n).addr := n]
    ensures Linked(ptr', size', Carve(bs, j, n))
  {
    var cs, c := Carve(bs, j, n), Carved(bs, j, n);
    forall p: nat | p < |cs| ensures LinkAt(ptr', size', cs, p) {
      var i := if bs[j].size == n && p >= j then p + 1 else p;
      assert LinkAt(ptr, size, bs, i);
      if bs[j].size == n {
        if bs[i].addr == bs[j - 1].addr {
          Distinct(bs, i, j - 1);
        }
      } else {
        if bs[i].addr == bs[j].addr {
          Distinct(bs, i, j);
        }
        if i < j {
          InOrder(bs, i, j);
        } else if i > j {
          InOrder(bs, j, i);
        }
      }
    }
  }

  // ---- Units in use ----

  ghost predicate UsedUnit(used: Field, u: nat) {
    exists a {:trigger Has(Blk(a, used[a]), u)} | a in used :: Has(Blk(a, used[a]), u)
  }

  /** A block in use: its header has its size, and it lies above the base block. */
  ghost predicate UsedAt(base: nat, size: Field, used: Field, a: nat)
    requires a in used
  {
    base < a && used[a] > 0 && a in size && size[a] == used[a]
  }

  ghost predicate UsedApart(used: Field, a: nat, c: nat)
    requires a in used && c in used
  {
    a < c ==> a + used[a] <= c
  }

  /** A unit of core is free or in use, and not both; no other unit is either. */
  ghost predicate Kept(bs: seq<Blk>, used: Field, core: set<nat>, u: nat) {
    && (u in core <==> Free(bs, u) || UsedUnit(used, u))
    && !(Free(bs, u) && UsedUnit(used, u))
  }

  ghost predicate Books(base: nat, size: Field, bs: seq<Blk>, used: Field, core: set<nat>) {
    && (forall a {:trigger UsedAt(base, size, used, a)} | a in used :: UsedAt(base, size, used, a))
    && (forall a, c {:trigger UsedApart(used, a, c)} | a in used && c in used :: UsedApart(used, a, c))
    && (forall u: nat {:trigger Kept(bs, used, core, u)} :: Kept(bs, used, core, u))
  }

  lemma UsedDrop(used: Field, bp: nat, u: nat)
    requires bp in used
    requires (forall a, c {:trigger UsedApart(used, a, c)} | a in used && c in used :: UsedApart(used, a, c))
    ensures UsedUnit(used - {bp}, u) <==> UsedUnit(used, u) && !Has(Blk(bp, used[bp]), u)
  {
    var used' := used - {bp};
    if UsedUnit(used, u) && !Has(Blk(bp, used[bp]), u) {
      var a :| a in used && Has(Blk(a, used[a]), u);
      assert Has(Blk(a, used'[a]), u);
    }
    if UsedUnit(used', u) {
      var a :| a in used' && Has(Blk(a, used'[a]), u);
      assert Has(Blk(a, used[a]), u) && UsedApart(used, a, bp) && UsedApart(used, bp, a);
    }
  }

  lemma UsedAdd(used: Field, a: nat, n: nat, u: nat)
    requires a !in used
    ensures UsedUnit(used[a := n], u) <==> UsedUnit(used, u) || Has(Blk(a, n), u)
  {
    var used' := used[a := n];
    if UsedUnit(used, u) {
      var c :| c in used && Has(Blk(c, used[c]), u);
      assert Has(Blk(c, used'[c]), u);
    }
    if Has(Blk(a, n), u) {
      assert Has(Blk(a, used'[a]), u);
    }
    if UsedUnit(used', u) {
      var c :| c in used' && Has(Blk(c, used'[c]), u);
      assert c != a ==> Has(Blk(c, used[c]), u);
    }
  }

  /** The header of a block in use is not that of a free block. */
  lemma UsedNotFree(base: nat, size: Field, bs: seq<Blk>, used: Field, core: set<nat>, a: nat, k: nat)
    requires Books(base, size, bs, used, core) && Ordered(bs) && bs[0].addr == base && a in used && k < |bs|
    ensures a != bs[k].addr
  {
    assert UsedAt(base, size, used, a) && Kept(bs, used, core, a) && Has(Blk(a, used[a]), a);
    if k > 0 {
      InOrder(bs, 0, k);
      assert Has(bs[k], bs[k].addr);
    }
  }

  /** The list changes but not the units that are free or in use together. */
  lemma FreeBooks(base: nat, size: Field, bs: seq<Blk>, used: Field, core: set<nat>, bp: nat, k: nat, size': Field)
    requires Books(base, size, bs, used, core) && Ordered(bs) && bs[0].addr == base && bp in used && k < |bs|
    requires forall a | a in size && a != bp && a != bs[k].addr :: a in size' && size'[a] == size[a]
    ensures Books(base, size', Join(bs, k, Blk(bp, used[bp])), used - {bp}, core)
  {
    var b, used' := Blk(bp, used[bp]), used - {bp};
    var js := Join(bs, k, b);
    forall a | a in used' ensures UsedAt(base, size', used', a) {
      assert UsedAt(base, size, used, a);
      UsedNotFree(base, size, bs, used, core, a, k);
    }
    forall a, c | a in used' && c in used' ensures UsedApart(used', a, c) {
      assert UsedApart(used, a, c);
    }
    forall u: nat ensures Kept(js, used', core, u) {
      assert Kept(bs, used, core, u) && (Has(b, u) ==> UsedUnit(used, u));
      JoinUnits(bs, k, b, u);
      UsedDrop(used, bp, u);
    }
  }

  lemma CoreBooks(base: nat, size: Field, bs: seq<Blk>, used: Field, core: set<nat>, b: Blk, k: nat, size': Field,
                  core': set<nat>)
    requires Books(base, size, bs, used, core) && Ordered(bs) && bs[0].addr == base && k < |bs|
    requires forall u: nat :: u in core' <==> u in core || Has(b, u)
    requires forall u: nat | Has(b, u) :: u !in core
    requires forall a | a in size && a != b.addr && a != bs[k].addr :: a in size' && size'[a] == size[a]
    requires b.size > 0
    ensures Books(base, size', Join(bs, k, b), used, core')
  {
    var js := Join(bs, k, b);
    forall a | a in used ensures UsedAt(base, size', used, a) {
      assert UsedAt(base, size, used, a);
      UsedNotFree(base, size, bs, used, core, a, k);
      assert Has(b, b.addr) && Kept(bs, used, core, a) && Has(Blk(a, used[a]), a);
    }
    forall a, c | a in used && c in used ensures UsedApart(used, a, c) {}
    forall u: nat ensures Kept(js, used, core', u) {
      assert Kept(bs, used, core, u);
      JoinUnits(bs, k, b, u);
    }
  }

  lemma MallocBooks(base: nat, size: Field, bs: seq<Blk>, used: Field, core: set<nat>, j: nat, n: nat, size': Field)
    requires Books(base, size, bs, used, core) && Ordered(bs) && bs[0].addr == base && 0 < j < |bs|
    requires 0 < n <= bs[j].size
    requires var c := Carved(bs, j, n).addr;
             && c in size' && size'[c] == n
             && forall a | a in size && a != c && a != bs[j].addr :: a in size' && size'[a] == size[a]
    ensures var c := Carved(bs, j, n).addr;
            c !in used && Books(base, size', Carve(bs, j, n), used[c := n], core)
  {
    var b := Carved(bs, j, n);
    InOrder(bs, 0, j);
    if b.addr in used {
      assert UsedAt(base, size, used, b.addr);
      CarvedApartFrom(base, size, bs, used, core, j, n, b.addr);
    }
    var used' := used[b.addr := n];
    forall a | a in used' ensures UsedAt(base, size', used', a) {
      if a != b.addr {
        assert UsedAt(base, size, used, a);
        UsedNotFree(base, size, bs, used, core, a, j);
      }
    }
    forall a, c | a in used' && c in used' ensures UsedApart(used', a, c) {
      CarvedApartFrom(base, size, bs, used, core, j, n, if a == b.addr then c else a);
      if a != b.addr && c != b.addr {
        assert UsedApart(used, a, c);
      }
    }
    forall u: nat ensures Kept(Carve(bs, j, n), used', core, u) {
      assert Kept(bs, used, core, u);
      CarveUnits(bs, j, n, u);
      UsedAdd(used, b.addr, n, u);
    }
  }

  /** The carved block overlaps no block in use. */
  lemma CarvedApartFrom(base: nat, size: Field, bs: seq<Blk>, used: Field, core: set<nat>, j: nat, n: nat, a: nat)
    requires Books(base, size, bs, used, core) && Ordered(bs) && 0 < j < |bs| && 0 < n <= bs[j].size
    ensures a in used ==> a + used[a] <= Carved(bs, j, n).addr || End(Carved(bs, j, n)) <= a
  {
    if a in used {
      var b := Carved(bs, j, n);
      var u := if a < b.addr then b.addr else a;
      assert UsedAt(base, size, used, a) && Kept(bs, used, core, u);
      CarveUnits(bs, j, n, u);
      assert Has(b, u) && Has(Blk(a, used[a]), u) ==> false;
    }
  }

  ghost predicate Enlarged(core: set<nat>, core': set<nat>, b: Blk) {
    forall u: nat :: u in core' <==> u in core || Has(b, u)
  }

  /** Once everything is freed, in whatever order, contiguous core is one block again. */
  lemma AllFreeIsOneBlock(base: nat, size: Field, bs: seq<Blk>, core: set<nat>, whole: Blk)
    requires Books(base, size, bs, map[], core) && Ordered(bs) && bs[0] == Blk(base, 0)
    requires base < whole.addr && whole.size > 0 && Enlarged({}, core, whole)
    ensures bs == [Blk(base, 0), whole]
  {
    var one := [Blk(base, 0), whole];
    assert Gap(one, 0);
    forall u: nat ensures Free(bs, u) == Free(one, u) {
      assert Kept(bs, map[], core, u);
      assert Has(one[1], u) ==> Free(one, u);
    }
    OrderedUnique(bs, one);
  }

  /** The units of a block: a header, and just enough units of 16 bytes for nbytes. */
  function NUnits(nbytes: nat): (n: nat)
    ensures n > 0 && nbytes <= (n - 1) * 16 < nbytes + 16
  {
    (nbytes + 15) / 16 + 1
  }

  /** morecore asks for at least 4096 units. */
  function Request(nu: nat): (n: nat)
    ensures n >= 4096 && n >= nu && (n == 4096 || n == nu)
  {
    if nu < 4096 then 4096 else nu
  }

  /** The number of bytes that morecore wants fits the int that sbrk takes. */
  predicate SbrkFits(nu: nat) {
    Request(nu) * 16 < 0x8000_0000
  }

  lemma UsedApartFromFree(base: nat, size: Field, bs: seq<Blk>, used: Field, core: set<nat>, bp: nat)
    requires Books(base, size, bs, used, core) && bp in used
    ensures UsedAt(base, size, used, bp)
    ensures forall u: nat | Has(Blk(bp, used[bp]), u) :: !Free(bs, u)
  {
    forall u: nat | Has(Blk(bp, used[bp]), u) ensures !Free(bs, u) {
      assert Kept(bs, used, core, u);
    }
  }

  /** A header written in new core belongs to no block, free or in use. */
  lemma CoreApart(base: nat, size: Field, bs: seq<Blk>, used: Field, core: set<nat>, ptr: Field, b: Blk, size': Field)
    requires Books(base, size, bs, used, core) && Ordered(bs) && bs[0].addr == base < b.addr && b.size > 0
    requires Linked(ptr, size, bs) && size' == size[b.addr := b.size]
    requires forall u: nat | Has(b, u) :: u !in core
    ensures forall u: nat | Has(b, u) :: !Free(bs, u)
    ensures Linked(ptr, size', bs)
  {
    forall u: nat | Has(b, u) ensures !Free(bs, u) {
      assert Kept(bs, used, core, u);
    }
    NotABlock(bs, b);
    forall i: nat | i < |bs| ensures LinkAt(ptr, size', bs, i) {
      assert LinkAt(ptr, size, bs, i);
    }
  }

  ghost predicate TooSmall(bs: seq<Blk>, f: nat, e: nat, n: nat)
    requires f < |bs| && e <= |bs|
  {
    bs[Ahead(f, e, |bs|)].size < n
  }

  /** The blocks 1 to d steps after block f are too small. */
  ghost predicate Passed(bs: seq<Blk>, f: nat, d: nat, n: nat)
    requires f < |bs| && d <= |bs|
  {
    forall e: nat {:trigger TooSmall(bs, f, e, n)} | 1 <= e <= d :: TooSmall(bs, f, e, n)
  }

  ghost predicate HasRoom(bs: seq<Blk>, n: nat) {
    exists i | 0 <= i < |bs| :: bs[i].size >= n
  }

  /** Block j is the first one after block f that has n units. */
  ghost predicate FirstFit(bs: seq<Blk>, f: nat, j: nat, n: nat) {
    f < |bs| && exists d: nat | d < |bs| :: j == Ahead(f, d + 1, |bs|) && bs[j].size >= n && Passed(bs, f, d, n)
  }

  /** Having passed every block, there is no room. */
  lemma FullCircle(bs: seq<Blk>, f: nat, n: nat)
    requires f < |bs| && Passed(bs, f, |bs|, n)
    ensures !HasRoom(bs, n)
  {
    forall i | 0 <= i < |bs| ensures bs[i].size < n {
      var e := if i > f then i - f else i + |bs| - f;
      assert TooSmall(bs, f, e, n);
    }
  }

  lemma PassOne(bs: seq<Blk>, f: nat, d: nat, n: nat)
    requires f < |bs| && d < |bs| && Passed(bs, f, d, n) && bs[Ahead(f, d + 1, |bs|)].size < n
    ensures Passed(bs, f, d + 1, n)
  {
    assert TooSmall(bs, f, d + 1, n);
  }

  class Heap {
    const base: nat
    var ptr: Field
    var size: Field
    var freep: nat
    ghost var blocks: seq<Blk>
    ghost var at: nat
    ghost var used: Field
    ghost var core: set<nat>

    /** The list is in order, and the units obtained so far are those of the free blocks and
        those of the blocks in use. */
    ghost predicate Valid()
      reads this
    {
      && base > 0 && Ordered(blocks) && blocks[0] == Blk(base, 0)
      && Books(base, size, blocks, used, core)
      && (if freep == 0 then blocks == [Blk(base, 0)] && used == map[] else ListOk())
    }

    ghost predicate ListOk()
      reads this
    {
      && at < |blocks| && freep == blocks[at].addr && blocks[0] == Blk(base, 0)
      && Ordered(blocks) && Linked(ptr, size, blocks)
    }

    /** free's search for the place of the block with header bp. */
    method Search(bp: nat, ghost b: Blk) returns (p: nat, ghost k: nat)
      requires ListOk() && b.addr == bp && b.size > 0 && base < bp
      requires forall u: nat | Has(b, u) :: !Free(blocks, u)
      ensures Fits(blocks, k, b) && p == blocks[k].addr
    {
      NotABlock(blocks, b);
      k := FindStop(blocks, bp, |blocks|);
      p := freep;
      ghost var i: nat, n := at, |blocks|;
      while true
        invariant i < n && p == blocks[i].addr
        decreases if i <= k then k - i else k + n - i
      {
        assert LinkAt(ptr, size, blocks, i);
        StopsThere(blocks, k, bp, i);
        if bp > p && bp < ptr[p] {
          break;
        }
        if p >= ptr[p] && (bp > p || bp < ptr[p]) {
          break;
        }
        p := ptr[p];
        i := Succ(i, n);
      }
      StopFits(blocks, k, b);
    }

    /** free's pointer changes, once the place p of the block is found. */
    method Rewire(bp: nat, p: nat, ghost b: Blk, ghost k: nat)
      requires ListOk() && bp in size && b == Blk(bp, size[bp]) && Fits(blocks, k, b) && p == blocks[k].addr
      modifies this`ptr, this`size
      ensures Rewired(old(ptr), old(size), blocks, k, b, ptr, size)
    {
      ghost var next := Succ(k, |blocks|);
      assert LinkAt(ptr, size, blocks, k) && LinkAt(ptr, size, blocks, next);
      NotAmong(blocks, k, b, k);
      NotAmong(blocks, k, b, next);
      if k > 0 {
        InOrder(blocks, 0, k);
      }
      if bp + size[bp] == ptr[p] {
        size := size[bp := size[bp] + size[ptr[p]]];
        ptr := ptr[bp := ptr[ptr[p]]];
      } else {
        ptr := ptr[bp := ptr[p]];
      }
      assert size[bp] == WithRight(blocks, k, b).size && ptr[bp] == After(blocks, k, b);
      if p + size[p] == bp {
        size := size[p := size[p] + size[bp]];
        ptr := ptr[p := ptr[bp]];
      } else {
        ptr := ptr[p := bp];
      }
    }

    /** free, for a block with header bp whose units are in no free block. */
    method Insert(bp: nat, ghost b: Blk) returns (ghost k: nat)
      requires ListOk() && bp in size && b == Blk(bp, size[bp]) && b.size > 0 && base < bp
      requires forall u: nat | Has(b, u) :: !Free(blocks, u)
      modifies this`ptr, this`size, this`freep, this`blocks, this`at
      ensures ListOk() && freep >= base && Fits(old(blocks), k, b) && blocks == Join(old(blocks), k, b)
      ensures at == k && freep == old(blocks)[k].addr
      ensures forall a | a in old(size) && a != bp && a != old(blocks)[k].addr :: a in size && size[a] == old(size)[a]
    {
      var p;
      p, k := Search(bp, b);
      Rewire(bp, p, b, k);
      freep := p;
      LinkJoin(old(ptr), old(size), blocks, k, b, ptr, size);
      JoinOrdered(blocks, k, b);
      JoinAt(blocks, k, b, k);
      if k > 0 {
        InOrder(blocks, 0, k);
      }
      at := k;
      blocks := Join(blocks, k, b);
    }

    constructor (base: nat)
      requires base > 0
      ensures Valid() && this.base == base && used == map[] && core == {}
    {
      this.base := base;
      ptr, size, freep := map[], map[], 0;
      blocks, at, used, core := [Blk(base, 0)], 0, map[], {};
      new;
      assert !Has(blocks[0], 0);
    }

    /** free of a block that malloc returned and that was not freed since. */
    method FreeMem(ap: nat) returns (ghost k: nat)
      requires Valid() && ap > 0 && ap - 1 in used
      modifies this
      ensures Valid() && core == old(core) && used == old(used) - {ap - 1}
      ensures Fits(old(blocks), k, Blk(ap - 1, old(used)[ap - 1]))
      ensures blocks == Join(old(blocks), k, Blk(ap - 1, old(used)[ap - 1]))
      ensures at == k && freep == old(blocks)[k].addr
    {
      var bp := ap - 1;
      ghost var b := Blk(bp, used[bp]);
      UsedApartFromFree(base, size, blocks, used, core, bp);
      k := Insert(bp, b);
      FreeBooks(base, old(size), old(blocks), used, core, bp, k, size);
      used := used - {bp};
    }

    /** What sbrk promises for the request: new units above the base. */
    ghost predicate Granted(grant: nat, nu: nat)
      reads this
    {
      base < grant && forall u: nat | grant <= u < grant + Request(nu) :: u !in core
    }

    /** morecore, with `grant` what sbrk returns: the first of the new units, or 0 for -1.  It
        is short when sbrk was asked for another number of bytes and yet did not fail; then
        the memory that morecore goes on to use is not there. */
    method Morecore(nu: nat, grant: nat) returns (p: nat, short: bool)
      requires Valid() && freep != 0 && 0 < nu
      requires grant != 0 && SbrkFits(nu) ==> Granted(grant, nu)
      modifies this
      ensures short <==> grant != 0 && !SbrkFits(nu)
      ensures Valid() && used == old(used) && (p == 0 <==> grant == 0 || short)
      ensures p == 0 ==> blocks == old(blocks) && core == old(core) && freep == old(freep) && at == old(at)
      ensures p != 0 ==> p == freep && Enlarged(old(core), core, Blk(grant, Request(nu)))
      ensures p != 0 ==> exists g: nat | g < |blocks| :: blocks[g].size >= nu
      ensures p != 0 ==> forall u: nat :: Free(blocks, u) <==> Free(old(blocks), u) || Has(Blk(grant, Request(nu)), u)
    {
      short := grant != 0 && !SbrkFits(nu);
      if grant == 0 || short {
        return 0, short;
      }
      var n := Request(nu);
      ghost var b := Blk(grant, n);
      size := size[grant := n];
      CoreApart(base, old(size), blocks, used, core, ptr, b, size);
      ghost var k := Insert(grant, b);
      ghost var more := set u: nat | u < grant + n && Has(b, u);
      CoreBooks(base, old(size), old(blocks), used, core, b, k, size, core + more);
      core := core + more;
      JoinAt(old(blocks), k, b, Spot(old(blocks), k, b));
      forall u: nat ensures Free(blocks, u) <==> Free(old(blocks), u) || Has(b, u) {
        JoinUnits(old(blocks), k, b, u);
      }
      return freep, false;
    }

    /** The part of malloc that takes n units from block p, whose predecessor is prevp. */
    method Take(prevp: nat, p: nat, n: nat, ghost j: nat) returns (r: nat)
      requires Valid() && freep != 0 && 0 < j < |blocks| && p == blocks[j].addr && prevp == blocks[j - 1].addr
      requires 0 < n <= blocks[j].size
      modifies this
      ensures Valid() && freep != 0 && core == old(core)
      ensures blocks == Carve(old(blocks), j, n) && r == Carved(old(blocks), j, n).addr
      ensures r !in old(used) && used == old(used)[r := n]
      ensures at == j - 1 && freep == prevp
    {
      assert LinkAt(ptr, size, blocks, j);
      r := p;
      if size[p] == n {
        ptr := ptr[prevp := ptr[p]];
      } else {
        size := size[p := size[p] - n];
        r := p + size[p];
        size := size[r := n];
      }
      freep := prevp;
      LinkCarve(old(ptr), old(size), blocks, j, n, ptr, size);
      MallocBooks(base, old(size), blocks, used, core, j, n, size);
      CarveOrdered(blocks, j, n);
      if j > 1 {
        InOrder(blocks, 0, j - 1);
      }
      used := used[r := n];
      at := j - 1;
      blocks := Carve(blocks, j, n);
    }

    /** malloc's first call sets up the base block. */
    method SetUp()
      requires Valid()
      modifies this`ptr, this`size, this`freep, this`at
      ensures Valid() && freep != 0 && (old(freep) != 0 ==> at == old(at))
    {
      if freep == 0 {
        ptr := ptr[base := base];
        freep := base;
        size := size[base := 0];
        at := 0;
        assert LinkAt(ptr, size, blocks, 0);
        assert Books(base, size, blocks, used, core) by {
          forall u: nat ensures Kept(blocks, used, core, u) {}
        }
      }
    }

    /** malloc's search: once around the circle, from the block after freep to freep itself. */
    method Scan(n: nat) returns (found: bool, prevp: nat, p: nat, ghost j: nat)
      requires Valid() && freep != 0 && n > 0
      ensures found <==> HasRoom(blocks, n)
      ensures found ==> && 0 < j < |blocks| && p == blocks[j].addr && prevp == blocks[j - 1].addr
                        && FirstFit(blocks, at, j, n)
      ensures !found ==> p == freep
    {
      prevp := freep;
      assert LinkAt(ptr, size, blocks, at);
      p := ptr[prevp];
      ghost var d: nat := 0;
      while true
        invariant d < |blocks| && Passed(blocks, at, d, n)
        invariant prevp == blocks[Ahead(at, d, |blocks|)].addr && p == blocks[Ahead(at, d + 1, |blocks|)].addr
        decreases |blocks| - d
      {
        j := Ahead(at, d + 1, |blocks|);
        assert LinkAt(ptr, size, blocks, j);
        if size[p] >= n {
          return true, prevp, p, j;
        }
        PassOne(blocks, at, d, n);
        if p == freep {
          Distinct(blocks, j, at);
          FullCircle(blocks, at, n);
          return false, prevp, p, j;
        }
        prevp, p := p, ptr[p];
        d := d + 1;
      }
    }

    /** malloc, with `grant` what sbrk returns should morecore call it.  When a round of the
        search ends at freep, the search goes on from the freep that morecore leaves. */
    method Malloc(nbytes: nat, grant: nat) returns (ap: nat, short: bool, ghost j: nat, ghost from: seq<Blk>)
      requires Valid() && nbytes < 0x1_0000_0000
      requires grant != 0 && SbrkFits(NUnits(nbytes)) ==> Granted(grant, NUnits(nbytes))
      modifies this
      ensures short <==> !HasRoom(old(blocks), NUnits(nbytes)) && grant != 0 && !SbrkFits(NUnits(nbytes))
      ensures Valid() && (ap == 0 <==> short || (!HasRoom(old(blocks), NUnits(nbytes)) && grant == 0))
      ensures ap == 0 ==> blocks == old(blocks) && used == old(used) && core == old(core)
      ensures ap != 0 ==> ap - 1 !in old(used) && used == old(used)[ap - 1 := NUnits(nbytes)]
      ensures ap != 0 ==> ap * 16 + nbytes <= (ap - 1 + used[ap - 1]) * 16 < ap * 16 + nbytes + 16
      ensures ap != 0 ==> 0 < j < |from| && NUnits(nbytes) <= from[j].size && blocks == Carve(from, j, NUnits(nbytes))
                          && ap - 1 == Carved(from, j, NUnits(nbytes)).addr
      ensures ap != 0 ==> at == j - 1 && freep == from[j - 1].addr
      ensures HasRoom(old(blocks), NUnits(nbytes)) ==> core == old(core) && from == old(blocks)
      ensures HasRoom(old(blocks), NUnits(nbytes)) && old(freep) != 0 ==> FirstFit(from, old(at), j, NUnits(nbytes))
      ensures ap != 0 && !HasRoom(old(blocks), NUnits(nbytes)) ==>
                Enlarged(old(core), core, Blk(grant, Request(NUnits(nbytes))))
    {
      var n := NUnits(nbytes);
      SetUp();
      var found, prevp, p;
      short := false;
      found, prevp, p, j := Scan(n);
      if !found {
        p, short := Morecore(n, grant);
        if p == 0 {
          return 0, short, 0, [];
        }
        found, prevp, p, j := Scan(n);
      }
      from := blocks;
      var r := Take(prevp, p, n, j);
      return r + 1, short, j, from;
    }
  }

  /** The requests for which malloc may come to use memory that sbrk did not give. */
  lemma SbrkFitsIff(nbytes: nat)
    ensures SbrkFits(NUnits(nbytes)) <==> nbytes <= 0x7fff_ffe0
  {}
}
