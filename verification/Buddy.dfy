/** The buddy allocator itself: list heads, list nodes and the state table, updated in place. */
module Buddy {
  import opened PowersOfTwo
  import opened BuddySpec
  import opened BuddyNodes
  import opened BuddyLists
  import opened BuddyCount
  import opened PageTable

  const BUDDY_NOTHING := -1

  /** Result of lib_buddy_free.  BadAddress is its panic; Overrun is the case in which
      add_free_block would go on to use lists[levels], one past the end of the array. */
  datatype FreeResult = Freed | BadAddress | Overrun

  /** Bit l of n. */
  function Digit(n: nat, l: nat): (d: nat)
    ensures d < 2
    decreases l
  {
    if l == 0 then n % 2 else Digit(n / 2, l - 1)
  }

  lemma {:induction false} LayoutStep(pages: nat, l: nat)
    ensures Base(pages, l) == Base(pages, l + 1) + if Digit(pages, l) == 1 then Pow2(l) else 0
    decreases l
  {
    if l > 0 { LayoutStep(pages / 2, l - 1); }
  }

  lemma LayoutBelow(pages: nat, levels: nat, l: nat)
    requires l < levels
    ensures !Starts(Layout(pages, levels, l), Base(pages, l))
  {
    LayoutLaid(pages, levels, l);
    forall b | b in Layout(pages, levels, l) ensures b.start != Base(pages, l) {
      assert Fits(Base(pages, l), b);
    }
  }

  lemma {:induction false} TopBlocksBelow(upto: nat, l: nat)
    ensures forall b | b in TopBlocks(upto, l) :: b.start < upto
    ensures !Starts(TopBlocks(upto, l), upto)
    decreases upto
  {
    if upto >= Pow2(l) { TopBlocksBelow(upto - Pow2(l), l); }
  }

  /** The first non-empty list at level l or above; past the last list if there is none. */
  function PickLevel(ls: seq<seq<nat>>, l: nat): (k: nat)
    ensures l <= k && (k < |ls| ==> ls[k] != [])
    decreases |ls| - l
  {
    if l < |ls| && ls[l] == [] then PickLevel(ls, l + 1) else l
  }

  /** The lists once the first block x of list hi has been cut down to level lo. */
  function CutLists(ls: seq<seq<nat>>, x: nat, hi: nat, lo: nat): (r: seq<seq<nat>>)
    requires lo <= hi < |ls| && ls[hi] != []
    ensures |r| == |ls|
    decreases hi - lo
  {
    if lo == hi then ls[hi := ls[hi][1..]]
    else var r := CutLists(ls, x, hi, lo + 1); r[lo := [x + Pow2(lo)] + r[lo]]
  }

  lemma FirstAt(xs: seq<nat>, k: nat)
    requires k < |xs| && xs[k] == xs[0] && forall i, j | 0 <= i < j < |xs| :: xs[i] != xs[j]
    ensures k == 0 && xs[..k] + xs[k + 1..] == xs[1..]
  {}

  /** An allocation takes the first block of the first list that has one. */
  ghost predicate Picks(ls: seq<seq<nat>>, op: Op) {
    op.Alloc? && op.b.lvl == PickLevel(ls, op.l) < |ls| && op.b.start == ls[op.b.lvl][0]
  }

  /** n >> l. */
  function Shift(n: nat, l: nat): nat
    decreases l
  {
    if l == 0 then n else Shift(n / 2, l - 1)
  }

  /** Where the top-level loop stands after i rounds. */
  function AfterTop(i: nat, l: nat): nat {
    if i == 0 then 0 else AfterTop(i - 1, l) + Pow2(l)
  }

  /** The top-level list after i rounds: the last block comes first. */
  function TopList(i: nat, l: nat): seq<nat> {
    if i == 0 then [] else [AfterTop(i - 1, l)] + TopList(i - 1, l)
  }

  lemma {:induction false} AfterTopDoubles(i: nat, l: nat)
    requires l > 0
    ensures AfterTop(i, l) == 2 * AfterTop(i, l - 1)
  {
    if i > 0 { AfterTopDoubles(i - 1, l); }
  }

  lemma {:induction false} AfterTopEnds(pages: nat, l: nat)
    ensures AfterTop(Shift(pages, l), l) == Base(pages, l)
    decreases l
  {
    if l == 0 {
      AfterTopZero(pages);
    } else {
      AfterTopDoubles(Shift(pages, l), l);
      AfterTopEnds(pages / 2, l - 1);
    }
  }

  lemma {:induction false} AfterTopZero(i: nat)
    ensures AfterTop(i, 0) == i
  {
    if i > 0 { AfterTopZero(i - 1); }
  }

  lemma {:induction false} AfterTopGrows(i: nat, j: nat, l: nat)
    requires i < j
    ensures AfterTop(i, l) + Pow2(l) <= AfterTop(j, l)
  {
    if i + 1 < j { AfterTopGrows(i, j - 1, l); }
  }

  /** One round of the top-level loop. */
  lemma TopRound(pages: nat, i: nat, count: nat, l: nat)
    requires i < count && AfterTop(count, l) <= pages
    ensures AfterTop(i, l) < pages && AfterTop(i + 1, l) == AfterTop(i, l) + Pow2(l)
    ensures !Starts(TopBlocks(AfterTop(i, l), l), AfterTop(i, l))
    ensures TopBlocks(AfterTop(i + 1, l), l) == TopBlocks(AfterTop(i, l), l) + {Blk(AfterTop(i, l), l)}
    ensures TopList(i + 1, l) == [AfterTop(i, l)] + TopList(i, l)
  {
    AfterTopGrows(i, count, l);
    TopBlocksBelow(AfterTop(i, l), l);
  }

  /** One round of the loop over the lower levels. */
  lemma LowerRound(pages: nat, levels: nat, l: nat)
    requires l + 1 < levels
    ensures var curr := Base(pages, l + 1);
            && !Starts(Layout(pages, levels, l + 1), curr) && curr <= pages
            && (Digit(pages, l) == 1 <==> pages - curr >= Pow2(l))
            && (Digit(pages, l) == 1 ==> curr + Pow2(l) == Base(pages, l) && curr < pages)
            && (Digit(pages, l) == 0 ==> curr == Base(pages, l))
            && Layout(pages, levels, l)
               == Layout(pages, levels, l + 1) + if Digit(pages, l) == 1 then {Blk(curr, l)} else {}
  {
    LayoutBelow(pages, levels, l + 1);
    LayoutStep(pages, l);
    BaseBounds(pages, l);
    BaseBounds(pages, l + 1);
  }

  /** 1 << log of a 32-bit int, widened to 64 bits; the target uses the low five bits of the
      count. */
  function IntShift(log: nat): nat {
    if log >= 32 then IntShift(log - 32) else if log == 31 then 0xffff_ffff_8000_0000 else Pow2(log)
  }

  lemma LevelIsUnique(n: nat, l: nat)
    requires IsLevel(n, l)
    ensures forall m: nat :: IsLevel(n, m) <==> m == l
  {
    forall m: nat | m != l ensures !IsLevel(n, m) {
      if m < l { Pow2Grows(m, l); } else { Pow2Grows(l, m); }
    }
  }

  /** buddy_log2: the level of a power of two below 2^31; no level of the allocator for any
      other number. */
  method Log2(n: nat) returns (r: int)
    ensures r >= -1
    ensures r < 31 ==> forall l: nat | l < 31 :: IsLevel(n, l) <==> l == r
    ensures r >= 31 ==> forall l: nat | l < 31 :: !IsLevel(n, l)
  {
    var log := 0;
    while log < 64
      invariant 0 <= log <= 64
      invariant forall l: nat | l < log && l < 31 :: !IsLevel(n, l)
    {
      if n == IntShift(log) {
        if log < 31 {
          LevelIsUnique(n, log);
        }
        return log;
      }
      log := log + 1;
    }
    return -1;
  }

  // ---- Page numbers ----

  /** A 64-bit value stored into an int. */
  function Int32(x: int): (r: int)
    ensures -0x8000_0000 <= r < 0x8000_0000
  {
    (x + 0x8000_0000) % 0x1_0000_0000 - 0x8000_0000
  }

  /** get_page_number, for the distance of the address from the first working page. */
  function PageNumber(distance: int, pages: nat): int {
    var d := Int32(distance);
    var u := if d < 0 then d + 0x1_0000_0000_0000_0000 else d;
    if u % PGSIZE != 0 then -1
    else
      var res := Int32(u / PGSIZE);
      if 0 <= res < pages then res else -1
  }

  /** The page number found is that of the address modulo 2^32. */
  lemma PageNumberIff(distance: int, pages: nat, p: nat)
    ensures PageNumber(distance, pages) == p <==> p < pages && Int32(distance) == p * PGSIZE
  {
    var d := Int32(distance);
    if d >= 0 && d % PGSIZE == 0 {
      assert d == d / PGSIZE * PGSIZE;
    }
  }

  /** The number of pages in 2^31 bytes. */
  const PAGE_LIMIT := 0x8_0000

  /** A page is found from its address exactly when it lies in the first 2^31 bytes. */
  lemma PageFoundIff(pages: nat, p: nat)
    requires p < pages
    ensures PageNumber(p * PGSIZE, pages) == p <==> p < PAGE_LIMIT
  {
    PageNumberIff(p * PGSIZE, pages, p);
  }

  /** Every page is found from its address exactly when the pages span at most 2^31 bytes. */
  lemma PageNumberInverts(pages: nat)
    ensures (forall p: nat | p < pages :: PageNumber(p * PGSIZE, pages) == p) <==> pages <= PAGE_LIMIT
  {
    forall p: nat | p < pages ensures PageNumber(p * PGSIZE, pages) == p <==> p < PAGE_LIMIT {
      PageFoundIff(pages, p);
    }
    if pages > PAGE_LIMIT {
      PageFoundIff(pages, PAGE_LIMIT);
    }
  }

  class BuddyAllocator {
    const levels: nat
    const pages: nat
    /** The pages before the working pages, which hold list heads and table. */
    const serv: nat
    /** Whether plain char is signed on the target. */
    const charSigned: bool
    const nodes: array<Node>
    const len: array<nat>
    const stateTable: array<int>
    ghost var lists: seq<seq<nat>>

    ghost predicate Shape()
      reads this, nodes, len, stateTable
    {
      && 0 < levels <= 31
      && stateTable.Length == pages && |lists| == levels
      && nodes.Length == pages + levels && len.Length == levels
      && (forall p: nat | p < pages :: BUDDY_NOTHING <= stateTable[p] < levels)
      && ListsOk(pages, nodes[..], len[..], lists, levels, charSigned)
    }

    ghost function Free(): set<Blk>
      reads this
    {
      FreeSet(lists)
    }

    ghost function Abs(): State
      reads this, stateTable
    {
      State(pages, levels, FreeSet(lists), UsedSet(stateTable[..]))
    }

    /** The layout invariant; and, if the table can say -1, the canonical form. */
    ghost predicate Valid()
      reads this, nodes, len, stateTable
    {
      Shape() && Inv(Abs()) && (charSigned ==> NoPairs(Abs()))
    }

    /** What reading a table entry yields. */
    function ReadState(p: nat): int
      requires p < stateTable.Length
      reads this, stateTable
    {
      if stateTable[p] < 0 && !charSigned then stateTable[p] + 256 else stateTable[p]
    }

    /** block_exists. */
    predicate BlockExists(pn: int, lvl: int)
      ensures BlockExists(pn, lvl) <==> 0 <= lvl < levels && pn >= 0 && Fits(pages, Blk(pn, lvl))
    {
      && 0 <= lvl < levels
      && 0 <= pn
      && (BaseClearsLowBits(pn, lvl); LowBits(pn, lvl) == 0)
      && pn + Pow2(lvl) <= pages
    }

    /** What the nodes of the free blocks hold. */
    lemma FreeNode(b: Blk) returns (k: nat)
      requires Shape() && b in Free()
      ensures b.lvl < levels && b.start < pages
      ensures nodes[b.start].level == nodes[b.start].list == b.lvl
      ensures k < |lists[b.lvl]| && lists[b.lvl][k] == b.start
      ensures forall i, j | 0 <= i < j < |lists[b.lvl]| :: lists[b.lvl][i] != lists[b.lvl][j]
    {
      InFreeUpTo(lists, |lists|, b);
      k :| k < |lists[b.lvl]| && lists[b.lvl][k] == b.start;
      ListsOkAt(pages, nodes[..], len[..], lists, levels, b.lvl, charSigned);
      assert LinkOk(nodes[..], pages + b.lvl, b.lvl, lists[b.lvl], k, charSigned);
    }

    /** insert_block behind head h.  With an unsigned char table it is as written; with a signed
        one, where merging removes blocks from the middle of a list, the missing assignment
        to the old first node's prev is put in. */
    method InsertBlock(h: nat, x: nat)
      requires h < nodes.Length && x < nodes.Length && x != h && nodes[h].next < nodes.Length
      modifies nodes
      ensures nodes[..] == Insert(old(nodes[..]), h, x, charSigned)
    {
      var first := nodes[h].next;
      nodes[x] := Node(first, h, nodes[h].list, nodes[h].level);
      nodes[h] := nodes[h].(next := x);
      if charSigned && first >= 0 {
        nodes[first] := nodes[first].(prev := x); // missing in the source
      }
    }

    /** list_add. */
    method ListAdd(l: nat, x: nat)
      requires Shape() && l < levels && x < pages && !Starts(Free(), x)
      modifies nodes, len, this`lists
      ensures Shape() && Free() == old(Free()) + {Blk(x, l)} && lists == old(lists[l := [x] + lists[l]])
      ensures len[..] == old(len[..])[l := old(len[l]) + 1]
    {
      InsertListed(pages, nodes[..], len[..], lists, l, x, charSigned);
      InsertBlock(pages + l, x);
      len[l] := len[l] + 1;
      lists := lists[l := [x] + lists[l]];
      assert len[..] == old(len[..])[l := old(len[l]) + 1];
    }

    /** Block x is the first of its list. */
    ghost predicate IsFirst(x: nat)
      reads this, nodes
    {
      x < nodes.Length && 0 <= nodes[x].level < |lists| && |lists[nodes[x].level]| > 0 && lists[nodes[x].level][0] == x
    }

    /** The pointer writes of remove_block. */
    method UnlinkBlock(x: nat)
      requires x < nodes.Length && Linked(nodes[..], x)
      modifies nodes
      ensures nodes[..] == Unlink(old(nodes[..]), x)
    {
      var prev, next := nodes[x].prev, nodes[x].next;
      nodes[prev] := nodes[prev].(next := next);
      if next >= 0 {
        nodes[next] := nodes[next].(prev := prev);
      }
    }

    /** remove_block of block number k of list l. */
    method RemoveAt(x: nat, ghost l: nat, ghost k: nat)
      requires Shape() && l < levels && k < |lists[l]| && x == lists[l][k] < pages
      requires nodes[x].level == nodes[x].list == l && (charSigned || k == 0)
      requires forall i, j | 0 <= i < j < |lists[l]| :: lists[l][i] != lists[l][j]
      modifies nodes, len, this`lists
      ensures Shape() && Free() == old(Free()) - {Blk(x, l)}
      ensures lists == old(lists[l := lists[l][..k] + lists[l][k + 1..]])
    {
      UnlinkListed(pages, nodes[..], len[..], lists, l, k, charSigned);
      FreeSetRemove(lists, l, k);
      var list := nodes[x].list;
      UnlinkBlock(x);
      len[list] := len[list] - 1;
      lists := lists[l := lists[l][..k] + lists[l][k + 1..]];
      assert len[..] == old(len[..])[l := old(len[l]) - 1];
    }

    /** remove_block. */
    method RemoveBlock(x: nat)
      requires Shape() && x < pages && nodes[x].level >= 0 && Blk(x, nodes[x].level) in Free()
      requires charSigned || IsFirst(x)
      modifies nodes, len, this`lists
      ensures Shape() && Free() == old(Free()) - {Blk(x, old(nodes[x].level))}
      ensures old(IsFirst(x)) ==> lists == old(lists[nodes[x].level := lists[nodes[x].level][1..]])
    {
      ghost var l := nodes[x].level;
      ghost var k := FreeNode(Blk(x, l));
      if IsFirst(x) { FirstAt(lists[l], k); }
      RemoveAt(x, l, k);
    }

    // ---- Allocation ----

    /** find_free_block: the first block of the first non-empty list at level lvl or above. */
    method FindFreeBlock(lvl: nat) returns (x: int)
      requires Shape()
      ensures x == NULL ==> forall b | b in Free() :: b.lvl < lvl
      ensures x != NULL ==> && 0 <= x < pages && lvl <= nodes[x].level < levels
                            && Blk(x, nodes[x].level) in Free()
                            && IsFirst(x) && forall b | b in Free() && lvl <= b.lvl :: nodes[x].level <= b.lvl
      ensures if x == NULL then PickLevel(lists, lvl) >= levels else PickLevel(lists, lvl) == nodes[x].level
    {
      forall b: Blk ensures b in Free() <==> b.lvl < levels && b.start in lists[b.lvl] {
        InFreeUpTo(lists, levels, b);
      }
      var l := lvl;
      while l < levels
        invariant lvl <= l
        invariant forall b | b in Free() && lvl <= b.lvl :: l <= b.lvl
        invariant PickLevel(lists, l) == PickLevel(lists, lvl)
      {
        ListsOkAt(pages, nodes[..], len[..], lists, levels, l, charSigned);
        if len[l] > 0 {
          assert LinkOk(nodes[..], pages + l, l, lists[l], 0, charSigned);
          assert Blk(lists[l][0], l) in Free();
          return nodes[pages + l].next;
        }
        l := l + 1;
      }
      return NULL;
    }

    /** buddy_devide: cuts free block x down to level final and lists what comes loose. */
    method Devide(x: nat, final: nat)
      requires Shape() && x < pages && final <= nodes[x].level < levels
      requires IsFirst(x) && Blk(x, nodes[x].level) in Free()
      requires PiecesFresh(pages, Free(), x, final, nodes[x].level)
      modifies nodes, len, this`lists
      ensures Shape() && Free() == CutDown(old(Free()), x, old(nodes[x].level), final)
      ensures lists == CutLists(old(lists), x, old(nodes[x].level), final)
    {
      var top := nodes[x].level;
      ghost var free, ls := Free(), lists;
      RemoveBlock(x);
      CutUpper(x, top, final, free, ls);
    }

    /** The loop of buddy_devide, once the block has left its list. */
    method CutUpper(x: nat, top: nat, final: nat, ghost free: set<Blk>, ghost ls: seq<seq<nat>>)
      requires Shape() && final <= top < levels && Free() == free - {Blk(x, top)}
      requires |ls| == levels && ls[top] != [] && lists == CutLists(ls, x, top, top)
      requires PiecesFresh(pages, free, x, final, top)
      modifies nodes, len, this`lists
      ensures Shape() && Free() == CutDown(free, x, top, final) && lists == CutLists(ls, x, top, final)
    {
      var lvl := top;
      while lvl > final
        invariant final <= lvl <= top && Shape()
        invariant Free() == CutDown(free, x, top, lvl) && lists == CutLists(ls, x, top, lvl)
      {
        lvl := lvl - 1;
        CutOnce(pages, free, x, top, lvl, final);
        ListAdd(lvl, x + Pow2(lvl));
      }
    }

    /** Steps 3 and 4 of lib_buddy_alloc: split the block and record it in the table. */
    method TakeBlock(x: nat, lvl: nat)
      requires Valid() && x < pages && lvl <= nodes[x].level && Blk(x, nodes[x].level) in Free() && IsFirst(x)
      modifies nodes, len, stateTable, this`lists
      ensures Valid() && Abs() == Take(old(Abs()), Blk(x, old(nodes[x].level)), lvl)
      ensures lists == CutLists(old(lists), x, old(nodes[x].level), lvl)
    {
      ghost var s, b := Abs(), Blk(x, nodes[x].level);
      PiecesAreFresh(s, b, lvl);
      TableEmptyAtFree(s, stateTable[..], b);
      TakeKeepsInv(s, b, lvl);
      Devide(x, lvl);
      UsedSetWrite(stateTable[..], x, lvl);
      stateTable[x] := lvl;
      assert stateTable[..] == old(stateTable[..])[x := lvl];
    }

    /** The block picked for n pages lies past the first 2^31 bytes. */
    ghost predicate Beyond(n: nat)
      reads this
    {
      exists op :: Picks(lists, op) && IsLevel(n, op.l) && op.b.start >= PAGE_LIMIT
    }

    lemma BeyondIff(n: nat, op: Op)
      requires Picks(lists, op) && IsLevel(n, op.l)
      ensures Beyond(n) <==> op.b.start >= PAGE_LIMIT
    {
      LevelIsUnique(n, op.l);
    }

    /** n is a power of two within the levels, some free block is large enough, and the one
        picked lies in the first 2^31 bytes. */
    ghost predicate Gives(n: nat)
      reads this, stateTable
    {
      Serviceable(Abs(), n) && !Beyond(n)
    }

    /** lib_buddy_alloc: the first block of the smallest sufficient level that has one is split.
        `missed` if get_page_number does not lead from its address back to the block; nothing
        is then given. */
    method Alloc(n: nat) returns (r: int, missed: bool, ghost op: Op)
      requires Valid()
      modifies nodes, len, stateTable, this`lists
      ensures Valid()
      ensures r == NULL ==> Abs() == old(Abs()) && lists == old(lists)
      ensures (missed <==> old(Beyond(n))) && (missed ==> pages > PAGE_LIMIT && Serviceable(old(Abs()), n))
      ensures r == NULL <==> !old(Gives(n))
      ensures charSigned ==> (r == NULL <==> missed || !RunAvailable(old(Abs()), n))
      ensures r != NULL ==> && Picks(old(lists), op) && IsLevel(n, op.l) && op.l < levels && r == op.b.start
                            && Enabled(old(Abs()), op, charSigned)
                            && Abs() == Apply(old(Abs()), op, charSigned)
                            && lists == CutLists(old(lists), op.b.start, op.b.lvl, op.l)
    {
      op, missed := Op.Free(Blk(0, 0)), false;
      if charSigned { ServiceableIffRun(Abs(), n); }
      var lvl := Log2(n);
      if lvl == -1 || lvl >= levels {
        return NULL, false, op;
      }
      LevelIsUnique(n, lvl);
      var x := FindFreeBlock(lvl);
      if x == NULL {
        return NULL, false, op;
      }
      op := Op.Alloc(lvl, Blk(x, nodes[x].level));
      assert IsLevel(n, lvl) && Serviceable(Abs(), n);
      BeyondIff(n, op);
      PageFoundIff(pages, x);
      if PageNumber(x * PGSIZE, pages) != x {
        return NULL, true, op;
      }
      TakeBlock(x, lvl);
      r := x;
    }

    // ---- Release ----

    /** The tests of one merge round decide exactly whether the neighbour is a free block;
        the level read from its first page means something when it is read. */
    lemma NeighbourTests(s: State, b: Blk, n: nat)
      requires Shape() && Sound(s) && s.free == Free() && s.pages == pages && s.levels == levels
      requires b in s.used && UsedSet(stateTable[..]) == s.used - {b} && b.lvl < levels
      requires n == Neighbour(b).start && Fits(pages, Neighbour(b))
      ensures n < pages
      ensures stateTable[n] >= 0 ==> Neighbour(b) !in Free()
      ensures stateTable[n] < 0 ==> nodes[n].level <= b.lvl
      ensures stateTable[n] < 0 ==> (Neighbour(b) in Free() <==> nodes[n].level == b.lvl)
    {
      var nb := Neighbour(b);
      var x := NeighbourStartsBlock(pages, s.free + s.used, b);
      NeighbourFacts(b);
      assert In(n, x) && In(n, nb) && x.start != b.start;
      assert forall c | c in s.free :: c in s.free + s.used;
      if stateTable[n] >= 0 {
        var u := Blk(n, stateTable[n]);
        assert u in UsedSet(stateTable[..]) && In(n, u);
      } else {
        assert x !in UsedSet(stateTable[..]);
        var k := FreeNode(x);
      }
    }

    /** add_free_block, for a block already cleared from the table.  False when the loop
        has run past the last list. */
    method AddFreeBlock(start: nat, level: nat, ghost s: State) returns (ok: bool)
      requires Shape() && Sound(s) && s.free == Free() && s.pages == pages && s.levels == levels
      requires level < levels && Blk(start, level) in s.used
      requires UsedSet(stateTable[..]) == s.used - {Blk(start, level)}
      modifies nodes, len, this`lists
      ensures ok <==> !(charSigned && Overruns(s, Blk(start, level)))
      ensures ok ==> Shape() && Free() == Put(s, Blk(start, level), charSigned).free
    {
      ghost var b := Blk(start, level);
      var pn, lvl := start, level;
      ghost var m := if charSigned then Merge(pages, levels, s.free, b) else Merged(s.free, b);
      ghost var t := s;
      assert b in s.free + s.used;
      assert s.used - {b} + {b} == s.used;
      while lvl < levels
        invariant level <= lvl <= levels && Shape()
        invariant Sound(t) && Blk(pn, lvl) in t.used && t.used - {Blk(pn, lvl)} == s.used - {b}
        invariant t.free == Free() && t.pages == pages && t.levels == levels
        invariant charSigned ==> Merge(pages, levels, t.free, Blk(pn, lvl)) == m
        invariant !charSigned ==> Merged(t.free, Blk(pn, lvl)) == m
        decreases levels - lvl
      {
        ghost var cur := Blk(pn, lvl);
        assert BlockExists(pn, lvl) by { assert cur in t.free + t.used; }
        NeighbourFacts(cur) by { assert cur in t.free + t.used; }
        var npn := FlipBit(pn, lvl);
        if !BlockExists(npn, lvl) {
          break;
        }
        NeighbourTests(t, cur, npn);
        if ReadState(npn) != BUDDY_NOTHING {
          break;
        }
        assert nodes[npn].level <= lvl;
        if nodes[npn].level < lvl {
          break;
        }
        AbsorbOne(t, cur);
        t := Absorb(t, cur);
        RemoveBlock(npn);
        if npn < pn {
          pn := npn;
        }
        lvl := lvl + 1;
        assert Blk(pn, lvl) == Parent(cur);
      }
      if lvl == levels {
        return false;
      }
      UsedStartIsFresh(t, Blk(pn, lvl));
      ListAdd(lvl, pn);
      ok := true;
    }

    /** lib_buddy_free, given the page number that get_page_number computed (-1 for an
        address that is not a working page). */
    method Release(pn: int) returns (r: FreeResult)
      requires Valid()
      modifies nodes, len, stateTable, this`lists
      ensures r == BadAddress <==> !(0 <= pn < pages && old(stateTable[pn]) >= 0)
      ensures r == BadAddress ==> Valid() && Abs() == old(Abs())
      ensures r == Overrun <==> && 0 <= pn < pages && old(stateTable[pn]) >= 0 && charSigned
                                && TopBuddiesFree(old(Abs()), Blk(pn, old(stateTable[pn])))
      ensures r == Freed ==> && Valid() && Blk(pn, old(stateTable[pn])) in old(Abs()).used
                             && Abs() == Put(old(Abs()), Blk(pn, old(stateTable[pn])), charSigned)
    {
      if !(0 <= pn < pages) {
        return BadAddress;
      }
      var lvl := ReadState(pn);
      if lvl < 0 || lvl >= levels {
        return BadAddress;
      }
      ghost var s, b := Abs(), Blk(pn, lvl);
      assert b in s.used;
      if charSigned { MergeOverrunsIff(s, b); }
      UsedSetWrite(stateTable[..], pn, BUDDY_NOTHING);
      stateTable[pn] := BUDDY_NOTHING;
      assert stateTable[..] == old(stateTable[..])[pn := BUDDY_NOTHING];
      var ok := AddFreeBlock(pn, lvl, s);
      if !ok {
        return Overrun;
      }
      PutKeepsInv(s, b, charSigned);
      if charSigned { PutCanonicalIff(s, b, charSigned); }
      return Freed;
    }

    /** lib_buddy_free, given the distance of the address from the first working page: as
        buddy_free of the page there, if the address is that of a page. */
    method ReleaseAt(distance: int, ghost p: nat) returns (r: FreeResult)
      requires Valid()
      modifies nodes, len, stateTable, this`lists
      ensures Int32(distance) < 0 || Int32(distance) % PGSIZE != 0 ==> r == BadAddress
      ensures r == BadAddress ==> Valid() && Abs() == old(Abs())
      ensures Int32(distance) == p * PGSIZE ==>
                && (r == BadAddress <==> !(p < pages && old(stateTable[..])[p] >= 0))
                && (r == Overrun <==> && p < pages && old(stateTable[..])[p] >= 0 && charSigned
                                      && TopBuddiesFree(old(Abs()), Blk(p, old(stateTable[..])[p])))
                && (r == Freed ==> && p < pages && old(stateTable[..])[p] >= 0 && Valid()
                                   && Abs() == Put(old(Abs()), Blk(p, old(stateTable[..])[p]), charSigned))
    {
      var pn := PageNumber(distance, pages);
      PageNumberIff(distance, pages, p);
      if pn >= 0 {
        PageNumberIff(distance, pages, pn);
      }
      r := Release(pn);
    }

    /** lib_buddy_stat: all pages, the list lengths, and the number of free pages they add up
        to. */
    method Stat() returns (total: nat, free: nat, bySize: seq<nat>)
      requires Valid()
      ensures free == |FreePages(Abs())| && bySize == len[..]
      ensures free + SumUsed(stateTable[..], pages) + serv == total == pages + serv
    {
      total, free, bySize := pages + serv, 0, [];
      for lvl := 0 to levels
        invariant bySize == len[..lvl] && free == SumLens(len[..], lvl)
      {
        var count := len[lvl];
        free := free + count * Pow2(lvl);
        bySize := bySize + [count];
      }
      Conservation(Abs(), nodes[..], len[..], lists, stateTable[..], charSigned);
    }

    // ---- Initialisation ----

    /** init_state_table and init_lists: the working pages, cut from the bottom up into as
        many top-level blocks as fit and then one block per binary digit. */
    constructor (levels: nat, pages: nat, serv: nat, charSigned: bool)
      requires 0 < levels <= 31
      ensures this.levels == levels && this.pages == pages && this.serv == serv && this.charSigned == charSigned
      ensures fresh(nodes) && fresh(len) && fresh(stateTable)
      ensures Valid() && Abs() == Fresh(pages, levels)
      ensures len[levels - 1] == Shift(pages, levels - 1)
      ensures lists[levels - 1] == TopList(Shift(pages, levels - 1), levels - 1)
      ensures forall l: nat | l < levels - 1 :: len[l] == Digit(pages, l)
    {
      this.levels, this.pages, this.serv, this.charSigned := levels, pages, serv, charSigned;
      nodes := new Node[pages + levels](_ => Node(NULL, NULL, NULL, 0));
      len := new nat[levels](_ => 0);
      stateTable := new int[pages](_ => BUDDY_NOTHING);
      lists := seq(levels, _ => []);
      new;
      InitHeads();
      FillLists();
      FreshInv(pages, levels);
      assert UsedSet(stateTable[..]) == {};
    }

    /** list_init for every level. */
    method InitHeads()
      requires 0 < levels <= 31 && stateTable.Length == pages
      requires nodes.Length == pages + levels && len.Length == levels && lists == seq(levels, _ => [])
      requires forall p: nat | p < pages :: stateTable[p] == BUDDY_NOTHING
      modifies nodes, len
      ensures Shape() && Free() == {} && forall l: nat | l < levels :: len[l] == 0
    {
      for l := 0 to levels
        invariant forall m: nat | m < l :: nodes[pages + m] == Node(NULL, NULL, m, m) && len[m] == 0
      {
        nodes[pages + l] := Node(NULL, NULL, l, l);
        len[l] := 0;
      }
      forall m: nat | m < levels ensures LevelOk(pages, nodes[..], len[..], lists, m, charSigned) {
        assert nodes[..][pages + m] == nodes[pages + m];
      }
      ListsOkFrom(pages, nodes[..], len[..], lists, levels, charSigned);
      forall b ensures b !in Free() { InFreeUpTo(lists, levels, b); }
    }

    /** The top level. */
    method FillTop() returns (curr: nat)
      requires Shape() && Free() == {} && len[levels - 1] == 0
      modifies nodes, len, this`lists
      ensures Shape() && Free() == Layout(pages, levels, levels - 1) && curr == Base(pages, levels - 1)
      ensures len[..] == old(len[..])[levels - 1 := Shift(pages, levels - 1)]
      ensures lists[levels - 1] == TopList(Shift(pages, levels - 1), levels - 1)
    {
      ListsOkAt(pages, nodes[..], len[..], lists, levels, levels - 1, charSigned);
      AfterTopEnds(pages, levels - 1);
      BaseBounds(pages, levels - 1);
      curr := AddTops(Shift(pages, levels - 1));
    }

    /** The lists after i rounds of the loop over the top level, where `lens` were their lengths. */
    ghost predicate Topped(i: nat, lens: seq<nat>)
      reads this, nodes, len, stateTable
    {
      && Shape() && |lens| == levels && len[..] == lens[levels - 1 := i]
      && Free() == TopBlocks(AfterTop(i, levels - 1), levels - 1) && lists[levels - 1] == TopList(i, levels - 1)
    }

    /** The loop over the top level. */
    method AddTops(count: nat) returns (curr: nat)
      requires Topped(0, len[..]) && AfterTop(count, levels - 1) <= pages
      modifies nodes, len, this`lists
      ensures Topped(count, old(len[..])) && curr == AfterTop(count, levels - 1)
    {
      curr := 0;
      for i := 0 to count
        invariant Topped(i, old(len[..])) && curr == AfterTop(i, levels - 1)
      {
        curr := AddTop(curr, i, count, old(len[..]));
      }
    }

    /** One round of that loop. */
    method AddTop(curr: nat, ghost i: nat, ghost count: nat, ghost lens: seq<nat>) returns (next: nat)
      requires Topped(i, lens) && curr == AfterTop(i, levels - 1)
      requires i < count && AfterTop(count, levels - 1) <= pages
      modifies nodes, len, this`lists
      ensures Topped(i + 1, lens) && next == AfterTop(i + 1, levels - 1)
    {
      TopRound(pages, i, count, levels - 1);
      PutTop(curr, i, lens);
      next := curr + Pow2(levels - 1);
    }

    /** list_add at the top level. */
    method PutTop(x: nat, ghost i: nat, ghost lens: seq<nat>)
      requires Shape() && x < pages && !Starts(Free(), x) && |lens| == levels && len[..] == lens[levels - 1 := i]
      modifies nodes, len, this`lists
      ensures Shape() && Free() == old(Free()) + {Blk(x, levels - 1)} && len[..] == lens[levels - 1 := i + 1]
      ensures lists[levels - 1] == [x] + old(lists[levels - 1])
    {
      assert len[levels - 1] == len[..][levels - 1];
      ListAdd(levels - 1, x);
    }

    method FillLists()
      requires Shape() && Free() == {} && forall l: nat | l < levels :: len[l] == 0
      modifies nodes, len, this`lists
      ensures Shape() && Free() == Layout(pages, levels, 0)
      ensures len[levels - 1] == Shift(pages, levels - 1)
      ensures lists[levels - 1] == TopList(Shift(pages, levels - 1), levels - 1)
      ensures forall l: nat | l < levels - 1 :: len[l] == Digit(pages, l)
    {
      var curr := FillTop();
      var lvl := levels - 1;
      ghost var top, list := len[lvl], lists[lvl];
      while lvl > 0
        invariant 0 <= lvl < levels && Shape() && curr == Base(pages, lvl)
        invariant Free() == Layout(pages, levels, lvl)
        invariant len[levels - 1] == top && lists[levels - 1] == list && forall l: nat | l < lvl :: len[l] == 0
        invariant forall l: nat | lvl <= l < levels - 1 :: len[l] == Digit(pages, l)
      {
        lvl := lvl - 1;
        curr := FillLevel(lvl, curr);
      }
    }

    /** One round of that loop: a block of this level if there is room for one. */
    method FillLevel(lvl: nat, curr: nat) returns (next: nat)
      requires Shape() && lvl + 1 < levels && curr == Base(pages, lvl + 1)
      requires Free() == Layout(pages, levels, lvl + 1) && len[lvl] == 0
      modifies nodes, len, this`lists
      ensures Shape() && Free() == Layout(pages, levels, lvl) && next == Base(pages, lvl)
      ensures len[..] == old(len[..])[lvl := Digit(pages, lvl)] && lists[levels - 1] == old(lists[levels - 1])
    {
      LowerRound(pages, levels, lvl);
      next := curr;
      if pages - curr >= Pow2(lvl) {
        ListAdd(lvl, curr);
        next := curr + Pow2(lvl);
      }
    }
  }

  // ---- Freeing past the last list ----

  lemma {:induction false} PairBase(k: nat, l: nat)
    requires k % 2 == 1
    ensures Base(AfterTop(k, l), l + 1) == AfterTop(k - 1, l)
    decreases l
  {
    if l == 0 {
      AfterTopZero(k);
      AfterTopZero(k - 1);
    } else {
      AfterTopDoubles(k, l);
      AfterTopDoubles(k - 1, l);
      PairBase(k, l - 1);
    }
  }

  /** There are two top-level blocks exactly when there are 2^levels pages. */
  lemma TwoTopBlocksIff(pages: nat, levels: nat)
    requires levels > 0
    ensures Shift(pages, levels - 1) >= 2 <==> pages >= Pow2(levels)
  {
    var l, n := levels - 1, Shift(pages, levels - 1);
    AfterTopEnds(pages, l);
    BaseBounds(pages, l);
    assert AfterTop(1, l) == AfterTop(0, l) + Pow2(l) && AfterTop(2, l) == AfterTop(1, l) + Pow2(l);
    if n > 2 { AfterTopGrows(2, n, l); }
  }

  /** Freeing the upper block of a pair, while the lower one is free, merges past the top. */
  lemma UpperOfPair(s: State, k: nat)
    requires s.levels > 0 && k % 2 == 1 && AfterTop(k + 1, s.levels - 1) <= s.pages
    requires forall q: nat | In(q, Blk(AfterTop(k - 1, s.levels - 1), s.levels - 1)) :: q in FreePages(s)
    ensures TopBuddiesFree(s, Blk(AfterTop(k, s.levels - 1), s.levels - 1))
  {
    var l := s.levels - 1;
    PairBase(k, l);
    BaseNest(AfterTop(k, l), l + 1, l + 1);
    assert AfterTop(k, l) == AfterTop(k - 1, l) + Pow2(l) && AfterTop(k + 1, l) == AfterTop(k, l) + Pow2(l);
  }

  /** The first i top-level blocks are free, and listed with the last one first. */
  ghost predicate TopFree(mem: BuddyAllocator, i: nat)
    reads mem, mem.nodes, mem.len, mem.stateTable
  {
    && mem.Valid() && mem.lists[mem.levels - 1] == TopList(i, mem.levels - 1)
    && AfterTop(i, mem.levels - 1) <= mem.pages
    && forall q: nat | q < AfterTop(i, mem.levels - 1) :: q in FreePages(mem.Abs())
  }

  method FreshTop(levels: nat, pages: nat) returns (mem: BuddyAllocator)
    requires 0 < levels <= 31
    ensures fresh(mem) && fresh(mem.nodes) && fresh(mem.len) && fresh(mem.stateTable)
    ensures mem.levels == levels && mem.pages == pages && mem.charSigned && TopFree(mem, Shift(pages, levels - 1))
  {
    mem := new BuddyAllocator(levels, pages, 0, true);
    AfterTopEnds(pages, levels - 1);
    BaseBounds(pages, levels - 1);
    PagesAreComplement(mem.Abs());
  }

  /** Which block a request for the top level gets. */
  lemma TopPicked(mem: BuddyAllocator, i: nat)
    requires TopFree(mem, i)
    ensures var l := mem.levels - 1;
            && (mem.Beyond(Pow2(l)) <==> i > 0 && AfterTop(i - 1, l) >= PAGE_LIMIT)
            && (Serviceable(mem.Abs(), Pow2(l)) <==> i > 0)
            && (forall op | Picks(mem.lists, op) && IsLevel(Pow2(l), op.l) ::
                  i > 0 && op == Op.Alloc(l, Blk(AfterTop(i - 1, l), l)))
  {
    var l := mem.levels - 1;
    LevelIsUnique(Pow2(l), l);
    forall b: Blk ensures b in mem.Free() <==> b.lvl < mem.levels && b.start in mem.lists[b.lvl] {
      InFreeUpTo(mem.lists, mem.levels, b);
    }
    if i > 0 {
      var b := Blk(AfterTop(i - 1, l), l);
      assert mem.lists[l][0] == b.start && PickLevel(mem.lists, l) == l && b in mem.Free();
      assert IsLevel(Pow2(l), l);
      mem.BeyondIff(Pow2(l), Op.Alloc(l, b));
    }
  }

  lemma TopCut(ls: seq<seq<nat>>, i: nat, l: nat)
    requires l < |ls| && i > 0 && ls[l] == TopList(i, l)
    ensures ls[l] != [] && CutLists(ls, AfterTop(i - 1, l), l, l)[l] == TopList(i - 1, l)
  {
    assert ls[l][1..] == TopList(i - 1, l);
  }

  lemma TopTaken(s: State, i: nat, b: Blk)
    requires Inv(s) && i > 0 && s.levels > 0 && b == Blk(AfterTop(i - 1, s.levels - 1), s.levels - 1) && b in s.free
    requires forall q: nat | q < AfterTop(i, s.levels - 1) :: q in FreePages(s)
    ensures forall q: nat | q < AfterTop(i - 1, s.levels - 1) :: q in FreePages(Take(s, b, b.lvl))
  {
    TakePages(s, b, b.lvl);
  }

  /** lib_buddy_alloc of a top-level block takes the last of them. */
  method AllocTop(mem: BuddyAllocator, ghost i: nat) returns (x: int, missed: bool)
    requires TopFree(mem, i)
    modifies mem`lists, mem.nodes, mem.len, mem.stateTable
    ensures missed <==> i > 0 && AfterTop(i - 1, mem.levels - 1) >= PAGE_LIMIT
    ensures i == 0 ==> x == NULL && mem.Valid()
    ensures i > 0 && !missed ==> && x == AfterTop(i - 1, mem.levels - 1) && TopFree(mem, i - 1)
                                 && Blk(x, mem.levels - 1) in mem.Abs().used
  {
    ghost var s, op := mem.Abs(), Op.Free(Blk(0, 0));
    TopPicked(mem, i);
    if i > 0 { TopCut(mem.lists, i, mem.levels - 1); }
    x, missed, op := mem.Alloc(Pow2(mem.levels - 1));
    if x != NULL {
      TopTaken(s, i, op.b);
    }
  }

  /** lib_buddy_free of what AllocTop returned, for the upper block of a pair. */
  method FreeTop(mem: BuddyAllocator, ghost k: int, x: int) returns (r: FreeResult)
    requires mem.Valid() && mem.charSigned && if k < 0 then x == NULL else
               TopFree(mem, k) && k % 2 == 1 && AfterTop(k + 1, mem.levels - 1) <= mem.pages
               && x == AfterTop(k, mem.levels - 1) && Blk(x, mem.levels - 1) in mem.Abs().used
    modifies mem`lists, mem.nodes, mem.len, mem.stateTable
    ensures r == if k < 0 then BadAddress else Overrun
  {
    if k >= 0 {
      UpperOfPair(mem.Abs(), k);
      assert mem.stateTable[x] == mem.levels - 1;
    }
    r := mem.Release(x);
  }

  /** With an even number of top-level blocks free, the next one is asked for and freed. */
  method FreeNext(mem: BuddyAllocator, ghost i: nat) returns (x: int, missed: bool, r: FreeResult)
    requires TopFree(mem, i) && mem.charSigned && i % 2 == 0
    modifies mem`lists, mem.nodes, mem.len, mem.stateTable
    ensures missed <==> i > 0 && AfterTop(i - 1, mem.levels - 1) >= PAGE_LIMIT
    ensures !missed ==> (r == Overrun <==> i > 0)
    ensures r == Overrun ==> i > 0 && x == AfterTop(i - 1, mem.levels - 1)
  {
    r := BadAddress;
    x, missed := AllocTop(mem, i);
    if !missed {
      r := FreeTop(mem, i - 1, x);
    }
  }

  /** With an odd number, one more is asked for first. */
  method FreeAfterOne(mem: BuddyAllocator, ghost i: nat) returns (x: int, missed: bool, r: FreeResult)
    requires TopFree(mem, i) && mem.charSigned && i % 2 == 1
    modifies mem`lists, mem.nodes, mem.len, mem.stateTable
    ensures missed <==> AfterTop(i - 1, mem.levels - 1) >= PAGE_LIMIT
    ensures !missed ==> (r == Overrun <==> i > 1)
    ensures r == Overrun ==> i > 1 && x == AfterTop(i - 2, mem.levels - 1)
  {
    if i > 1 { AfterTopGrows(i - 2, i - 1, mem.levels - 1); }
    r := BadAddress;
    x, missed := AllocTop(mem, i);
    if !missed {
      x, missed, r := FreeNext(mem, i - 1);
    }
  }

  method FreeLast(mem: BuddyAllocator, n: nat) returns (x: int, missed: bool, r: FreeResult)
    requires TopFree(mem, n) && mem.charSigned
    modifies mem`lists, mem.nodes, mem.len, mem.stateTable
    ensures missed <==> n > 0 && AfterTop(n - 1, mem.levels - 1) >= PAGE_LIMIT
    ensures !missed ==> (r == Overrun <==> n >= 2)
    ensures r == Overrun ==> n >= 2 && x == AfterTop(if n % 2 == 0 then n - 1 else n - 2, mem.levels - 1)
  {
    if n % 2 == 0 {
      x, missed, r := FreeNext(mem, n);
    } else {
      x, missed, r := FreeAfterOne(mem, n);
    }
  }

  /** Top-level blocks of a fresh allocator are asked for, one if their number is even and two
      if it is odd, and the last one is freed.  With signed char that runs past the last list
      exactly when there are 2^levels pages or more. */
  method FreeLastPair(levels: nat, pages: nat) returns (x: int, missed: bool, r: FreeResult)
    requires 0 < levels <= 31
    ensures var l, n := levels - 1, Shift(pages, levels - 1);
            && (missed <==> n > 0 && AfterTop(n - 1, l) >= PAGE_LIMIT)
            && (!missed ==> (r == Overrun <==> pages >= Pow2(levels)))
            && (r == Overrun ==> n >= 2 && x == AfterTop(if n % 2 == 0 then n - 1 else n - 2, l))
  {
    var mem := FreshTop(levels, pages);
    TwoTopBlocksIff(pages, levels);
    x, missed, r := FreeLast(mem, Shift(pages, levels - 1));
  }

  // sizeof(buddy_free_block_t) and sizeof(buddy_list_t) on a 64-bit target
  const NODE_SIZE := 32
  const LIST_SIZE := 40

  /** get_serv_pages. */
  function ServPages(levels: nat, pgsize: nat, total: nat): nat
    requires pgsize > 0
  {
    (levels * LIST_SIZE + total) / pgsize + 1
  }

  /** The list heads and the state table end before the first working page, and with one page
      less they would not. */
  lemma MetadataFits(levels: nat, pgsize: nat, total: nat)
    requires pgsize > 0
    ensures var bytes, serv := levels * LIST_SIZE + total, ServPages(levels, pgsize, total);
            serv > 0 && (serv - 1) * pgsize <= bytes < serv * pgsize
  {
    var n := levels * LIST_SIZE + total;
    assert n == (n / pgsize) * pgsize + n % pgsize;
    assert (n / pgsize + 1) * pgsize == (n / pgsize) * pgsize + pgsize;
  }

  /** lib_buddy_init: null when a node does not fit a page or the metadata leaves no room. */
  method Init(levels: nat, pgsize: nat, total: nat, charSigned: bool) returns (mem: BuddyAllocator?)
    requires 0 < levels <= 31
    ensures mem == null <==> pgsize < NODE_SIZE || ServPages(levels, pgsize, total) > total
    ensures mem != null ==>
              && fresh(mem) && mem.Valid() && mem.charSigned == charSigned && mem.pages + mem.serv == total
              && mem.Abs() == Fresh(total - ServPages(levels, pgsize, total), levels)
              && levels * LIST_SIZE + mem.pages <= ServPages(levels, pgsize, total) * pgsize
  {
    if NODE_SIZE > pgsize {
      return null;
    }
    var serv := ServPages(levels, pgsize, total);
    if serv > total {
      return null;
    }
    MetadataFits(levels, pgsize, total);
    mem := new BuddyAllocator(levels, total - serv, serv, charSigned);
  }
}
