/** The slab allocator: pages taken from the buddy allocator, cut into equal cells, and
    kept on lists indexed by the number of cells in use. */
module Slab {
  import opened PowersOfTwo
  import opened BuddySpec
  import opened BuddyNodes
  import opened BuddyLists
  import Buddy

  // sizeof(slab_page_t) and sizeof(slab_list_t) on a 64-bit target
  const HEADER := 32
  const SLAB_LIST := 40

  // ---- Bitmaps ----

  function Ones(s: seq<int>): (n: nat)
    ensures n <= |s|
  {
    if s == [] then 0 else Ones(s[..|s| - 1]) + if s[|s| - 1] == 1 then 1 else 0
  }

  predicate Bits(s: seq<int>) {
    forall i | 0 <= i < |s| :: s[i] == 0 || s[i] == 1
  }

  lemma {:induction false} OnesFlip(s: seq<int>, i: nat, v: int)
    requires i < |s| && Bits(s) && v == 1 - s[i]
    ensures Ones(s[i := v]) == if v == 1 then Ones(s) + 1 else Ones(s) - 1
  {
    var n := |s| - 1;
    if i == n {
      assert s[i := v][..n] == s[..n];
    } else {
      assert s[i := v][..n] == s[..n][i := v];
      OnesFlip(s[..n], i, v);
    }
  }

  /** A bitmap that starts with n ones has at least n ones; so a scan that has met only
      ones has not passed the number of used cells. */
  lemma {:induction false} OnesPrefix(s: seq<int>, n: nat)
    requires n <= |s| && forall i | 0 <= i < n :: s[i] == 1
    ensures n <= Ones(s)
  {
    if n == |s| {
      if n > 0 { OnesPrefix(s[..n - 1], n - 1); }
    } else {
      OnesPrefix(s[..|s| - 1], n);
    }
  }

  lemma {:induction false} OnesZero(s: seq<int>)
    requires forall i | 0 <= i < |s| :: s[i] == 0
    ensures Ones(s) == 0
  {
    if |s| > 0 { OnesZero(s[..|s| - 1]); }
  }

  lemma {:induction false} OnesPositive(s: seq<int>, i: nat)
    requires i < |s| && s[i] == 1
    ensures Ones(s) >= 1
  {
    if i < |s| - 1 { OnesPositive(s[..|s| - 1], i); }
  }

  /** One used cell, and it is cell i: no other byte is set. */
  lemma LastCell(s: seq<int>, i: nat)
    requires i < |s| && Bits(s) && s[i] == 1
    ensures Ones(s) == 1 <==> forall j | 0 <= j < |s| && j != i :: s[j] == 0
  {
    OnesFlip(s, i, 0);
    var t := s[i := 0];
    if forall j | 0 <= j < |s| && j != i :: s[j] == 0 {
      OnesZero(t);
    } else {
      var j :| 0 <= j < |s| && j != i && s[j] != 0;
      OnesPositive(t, j);
    }
  }

  // ---- Geometry of a page ----

  /** cells as lib_slab_init computes it. */
  function CellCount(pgsize: nat, ssize: nat): nat
    requires pgsize >= HEADER
  {
    (pgsize - HEADER) / (1 + ssize)
  }

  /** They fit behind the header, each with its byte of the bitmap, and one more would not. */
  lemma MostCells(pgsize: nat, ssize: nat)
    requires pgsize >= HEADER
    ensures var cells := CellCount(pgsize, ssize);
            HEADER + cells * (1 + ssize) <= pgsize < HEADER + (cells + 1) * (1 + ssize)
  {
    var n, m := pgsize - HEADER, 1 + ssize;
    assert n == n / m * m + n % m;
    assert (n / m + 1) * m == n / m * m + m;
  }

  function CellAddr(pgsize: nat, ssize: nat, p: nat, i: nat): nat {
    p * pgsize + HEADER + i * ssize
  }

  function BitmapAddr(pgsize: nat, ssize: nat, cells: nat, p: nat, i: nat): nat {
    p * pgsize + HEADER + cells * ssize + i
  }

  /** Cells lie between the header and the bitmap, and the bitmap ends inside the page. */
  lemma PageGeometry(pgsize: nat, ssize: nat, p: nat, i: nat)
    requires pgsize >= HEADER && i < CellCount(pgsize, ssize)
    ensures var cells := CellCount(pgsize, ssize);
            && p * pgsize + HEADER <= CellAddr(pgsize, ssize, p, i)
            && CellAddr(pgsize, ssize, p, i) + ssize <= BitmapAddr(pgsize, ssize, cells, p, 0)
            && BitmapAddr(pgsize, ssize, cells, p, i) < (p + 1) * pgsize
  {
    var cells := CellCount(pgsize, ssize);
    assert cells * (1 + ssize) <= pgsize - HEADER;
    assert cells * (1 + ssize) == cells + cells * ssize;
    Mono(i + 1, cells, ssize);
    assert (i + 1) * ssize == i * ssize + ssize;
    assert (p + 1) * pgsize == p * pgsize + pgsize;
  }

  /** Different cells never overlap, even on different pages. */
  lemma CellsDisjoint(pgsize: nat, ssize: nat, p: nat, i: nat, q: nat, j: nat)
    requires pgsize >= HEADER && i < CellCount(pgsize, ssize) && j < CellCount(pgsize, ssize)
    requires (p, i) != (q, j)
    ensures || CellAddr(pgsize, ssize, p, i) + ssize <= CellAddr(pgsize, ssize, q, j)
            || CellAddr(pgsize, ssize, q, j) + ssize <= CellAddr(pgsize, ssize, p, i)
  {
    PageGeometry(pgsize, ssize, p, i);
    PageGeometry(pgsize, ssize, q, j);
    if p == q {
      if i < j { Mono(i + 1, j, ssize); assert (i + 1) * ssize == i * ssize + ssize; }
      else { Mono(j + 1, i, ssize); assert (j + 1) * ssize == j * ssize + ssize; }
    } else if p < q {
      Mono(p + 1, q, pgsize);
    } else {
      Mono(q + 1, p, pgsize);
    }
  }

  /** pgbegin and the division in page_clean_cell recover page and cell from the address. */
  lemma AddrDecodes(pgsize: nat, ssize: nat, p: nat, i: nat)
    requires pgsize >= HEADER && ssize > 0 && i < CellCount(pgsize, ssize)
    ensures var a := CellAddr(pgsize, ssize, p, i);
            a / pgsize == p && (a - p * pgsize - HEADER) / ssize == i
  {
    PageGeometry(pgsize, ssize, p, i);
    assert (p + 1) * pgsize == p * pgsize + pgsize;
    ModIs(CellAddr(pgsize, ssize, p, i), pgsize, p, HEADER + i * ssize);
    ModIs(i * ssize, ssize, i, 0);
  }

  // ---- Lists and bitmaps together ----

  /** Where the pages must be listed: each exactly once, under its number of set bytes. */
  ghost function OnLists(bm: map<nat, seq<int>>): set<Blk> {
    set p | p in bm :: Blk(p, Ones(bm[p]))
  }

  ghost predicate PagesOk(cells: nat, bm: map<nat, seq<int>>) {
    forall p | p in bm :: |bm[p]| == cells && Bits(bm[p]) && Ones(bm[p]) < cells
  }

  /** The cells in use. */
  ghost function Live(bm: map<nat, seq<int>>): set<(nat, nat)> {
    set p, i: nat | p in bm && i < |bm[p]| && bm[p][i] == 1 :: (p, i)
  }

  lemma OnListsMove(bm: map<nat, seq<int>>, p: nat, bits: seq<int>)
    requires p in bm
    ensures OnLists(bm[p := bits]) == OnLists(bm) - {Blk(p, Ones(bm[p]))} + {Blk(p, Ones(bits))}
  {
    forall b ensures b in OnLists(bm) <==> b.start in bm && Ones(bm[b.start]) == b.lvl {}
    var bm' := bm[p := bits];
    forall b ensures b in OnLists(bm') <==> b.start in bm' && Ones(bm'[b.start]) == b.lvl {}
  }

  lemma OnListsAdd(bm: map<nat, seq<int>>, p: nat, bits: seq<int>)
    requires p !in bm
    ensures OnLists(bm[p := bits]) == OnLists(bm) + {Blk(p, Ones(bits))}
    ensures !Starts(OnLists(bm), p)
  {
    forall b ensures b in OnLists(bm) <==> b.start in bm && Ones(bm[b.start]) == b.lvl {}
    var bm' := bm[p := bits];
    forall b ensures b in OnLists(bm') <==> b.start in bm' && Ones(bm'[b.start]) == b.lvl {}
  }

  lemma OnListsDrop(bm: map<nat, seq<int>>, p: nat)
    requires p in bm
    ensures OnLists(bm - {p}) == OnLists(bm) - {Blk(p, Ones(bm[p]))}
    ensures !Starts(OnLists(bm) - {Blk(p, Ones(bm[p]))}, p)
  {
    forall b ensures b in OnLists(bm) <==> b.start in bm && Ones(bm[b.start]) == b.lvl {}
    var bm' := bm - {p};
    forall b ensures b in OnLists(bm') <==> b.start in bm' && Ones(bm'[b.start]) == b.lvl {}
  }

  lemma LiveFlip(bm: map<nat, seq<int>>, p: nat, i: nat, v: int)
    requires p in bm && i < |bm[p]| && Bits(bm[p]) && v == 1 - bm[p][i]
    ensures Live(bm[p := bm[p][i := v]]) == if v == 1 then Live(bm) + {(p, i)} else Live(bm) - {(p, i)}
  {}

  lemma UnlinkKeepsLevel(nodes: seq<Node>, x: nat)
    requires Linked(nodes, x)
    ensures Unlink(nodes, x)[x].level == nodes[x].level
  {}

  // ---- On top of the buddy allocator ----

  ghost function SlabBlocks(bm: map<nat, seq<int>>): set<Blk> {
    set p | p in bm :: Blk(p, 0)
  }

  /** Every page of the slab is an allocated single page of the buddy allocator. */
  ghost predicate Owned(bm: map<nat, seq<int>>, s: State) {
    SlabBlocks(bm) <= s.used
  }

  /** The allocated blocks that are not pages of the slab: those of the other clients, and
      the block with the list heads. */
  ghost function OthersOf(bm: map<nat, seq<int>>, s: State): set<Blk> {
    s.used - SlabBlocks(bm)
  }

  lemma FreeStartsElsewhere(s: State, b: Blk, u: Blk)
    requires Inv(s) && b in s.free && u in s.used
    ensures b.start != u.start
  {
    assert b in s.free + s.used && u in s.free + s.used;
    assert In(b.start, b) && In(u.start, u);
  }

  /** A page that the buddy allocator hands out is not one the slab has. */
  lemma FreshPage(bm: map<nat, seq<int>>, s: State, b: Blk)
    requires Inv(s) && Owned(bm, s) && b in s.free
    ensures b.start !in bm
  {
    forall p | p in bm ensures p != b.start {
      assert Blk(p, 0) in SlabBlocks(bm);
      FreeStartsElsewhere(s, b, Blk(p, 0));
    }
  }

  /** An allocation by another client. */
  lemma TakeOwned(bm: map<nat, seq<int>>, s: State, b: Blk, l: nat)
    requires Inv(s) && Owned(bm, s) && b in s.free
    ensures Owned(bm, Take(s, b, l)) && OthersOf(bm, Take(s, b, l)) == OthersOf(bm, s) + {Blk(b.start, l)}
  {
    FreshPage(bm, s, b);
    assert forall x | x in SlabBlocks(bm) :: x.start in bm;
  }

  /** An allocation by the slab. */
  lemma TakePageOwned(bm: map<nat, seq<int>>, s: State, b: Blk, bits: seq<int>)
    requires Inv(s) && Owned(bm, s) && b in s.free
    ensures Owned(bm[b.start := bits], Take(s, b, 0))
    ensures OthersOf(bm[b.start := bits], Take(s, b, 0)) == OthersOf(bm, s)
  {
    forall u | u in s.used ensures u.start != b.start {
      FreeStartsElsewhere(s, b, u);
    }
    assert SlabBlocks(bm[b.start := bits]) == SlabBlocks(bm) + {Blk(b.start, 0)};
  }

  /** A release by another client. */
  lemma PutOwned(bm: map<nat, seq<int>>, s: State, b: Blk, signed: bool)
    requires Owned(bm, s) && b.start !in bm
    ensures Owned(bm, Put(s, b, signed)) && OthersOf(bm, Put(s, b, signed)) == OthersOf(bm, s) - {b}
  {
    assert forall x | x in SlabBlocks(bm) :: x.start in bm;
  }

  /** A release by the slab. */
  lemma PutPageOwned(bm: map<nat, seq<int>>, s: State, p: nat, signed: bool)
    requires Owned(bm, s) && p in bm
    ensures Owned(bm - {p}, Put(s, Blk(p, 0), signed))
    ensures OthersOf(bm - {p}, Put(s, Blk(p, 0), signed)) == OthersOf(bm, s)
  {
    assert SlabBlocks(bm - {p}) == SlabBlocks(bm) - {Blk(p, 0)};
  }

  lemma SamePagesOwned(bm: map<nat, seq<int>>, bm': map<nat, seq<int>>)
    requires bm.Keys == bm'.Keys
    ensures SlabBlocks(bm) == SlabBlocks(bm')
  {
    assert forall p :: p in bm <==> p in bm.Keys;
    assert forall p :: p in bm' <==> p in bm'.Keys;
  }

  // ---- The allocator ----

  class SlabAllocator {
    /** Where buddy_alloc and buddy_free lead. */
    const buddy: Buddy.BuddyAllocator
    const pages: nat
    const pgsize: nat
    const ssize: nat
    const cells: nat
    /** Page headers, by page number, and after them the list heads. */
    const nodes: array<Node>
    const len: array<nat>
    var bitmaps: map<nat, seq<int>>
    ghost var lists: seq<seq<nat>>

    ghost predicate ListShape()
      reads this, nodes, len
    {
      && |lists| == cells == len.Length && nodes.Length == pages + cells
      && ListsOk(pages, nodes[..], len[..], lists, cells, true)
    }

    ghost function On(): set<Blk>
      reads this
    {
      FreeSet(lists)
    }

    /** Each page is on the list of its number of used cells, and on no other. */
    ghost predicate Book()
      reads this, nodes, len
    {
      cells >= 2 && ListShape() && On() == OnLists(bitmaps) && PagesOk(cells, bitmaps)
    }

    /** No page, except perhaps one, is kept without a cell in use. */
    ghost predicate Kept(but: int)
      reads this, nodes, len
    {
      && pgsize >= HEADER && ssize > 0 && cells == CellCount(pgsize, ssize)
      && Book() && forall p | p in bitmaps && p != but :: Ones(bitmaps[p]) > 0
    }

    /** Slab and buddy allocator together: both in order, and the slab's pages allocated. */
    ghost predicate Valid()
      reads this, nodes, len, buddy, buddy.nodes, buddy.len, buddy.stateTable
    {
      Joined(NULL)
    }

    ghost predicate Joined(but: int)
      reads this, nodes, len, buddy, buddy.nodes, buddy.len, buddy.stateTable
    {
      && Kept(but) && buddy.Valid() && pages == buddy.pages && nodes != buddy.nodes && len != buddy.len
      && Owned(bitmaps, buddy.Abs())
    }

    ghost function Others(): set<Blk>
      reads this, buddy, buddy.stateTable
    {
      OthersOf(bitmaps, buddy.Abs())
    }

    ghost predicate AllFull()
      reads this
    {
      forall p | p in bitmaps :: Ones(bitmaps[p]) == cells - 1
    }

    /** The list heads of lib_slab_init, for a page size that holds two cells or more. */
    constructor (buddy: Buddy.BuddyAllocator, pgsize: nat, ssize: nat)
      requires ssize > 0 && pgsize >= HEADER && CellCount(pgsize, ssize) >= 2 && buddy.Valid()
      ensures this.buddy == buddy && this.pgsize == pgsize && this.ssize == ssize
      ensures Valid() && bitmaps == map[] && fresh(nodes) && fresh(len)
    {
      this.buddy, this.pages, this.pgsize, this.ssize := buddy, buddy.pages, pgsize, ssize;
      var cells, pages := CellCount(pgsize, ssize), buddy.pages;
      this.cells := cells;
      nodes := new Node[pages + cells](i => if i < pages then Node(NULL, NULL, NULL, 0)
                                            else Node(NULL, NULL, i - pages, i - pages));
      len := new nat[cells](_ => 0);
      lists := seq(cells, _ => []);
      bitmaps := map[];
      new;
      forall m: nat | m < cells ensures LevelOk(pages, nodes[..], len[..], lists, m, true) {
        assert nodes[..][pages + m] == Node(NULL, NULL, m, m);
      }
      ListsOkFrom(pages, nodes[..], len[..], lists, cells, true);
      forall b ensures b !in On() { InFreeUpTo(lists, cells, b); }
    }

    lemma OnNode(b: Blk) returns (k: nat)
      requires ListShape() && b in On()
      ensures b.lvl < cells && b.start < pages && nodes[b.start].level == nodes[b.start].list == b.lvl
      ensures k < |lists[b.lvl]| && lists[b.lvl][k] == b.start
      ensures forall i, j | 0 <= i < j < |lists[b.lvl]| :: lists[b.lvl][i] != lists[b.lvl][j]
    {
      InFreeUpTo(lists, |lists|, b);
      k :| k < |lists[b.lvl]| && lists[b.lvl][k] == b.start;
      ListsOkAt(pages, nodes[..], len[..], lists, cells, b.lvl, true);
      assert LinkOk(nodes[..], pages + b.lvl, b.lvl, lists[b.lvl], k, true);
    }

    /** list_insert behind head h, with the old first page's prev set as in the buddy lists. */
    method ListInsert(h: nat, x: nat)
      requires h < nodes.Length && x < nodes.Length && x != h && nodes[h].next < nodes.Length
      modifies nodes
      ensures nodes[..] == Insert(old(nodes[..]), h, x, true)
    {
      var first := nodes[h].next;
      nodes[x] := Node(first, h, nodes[h].list, nodes[h].level);
      nodes[h] := nodes[h].(next := x);
      if first >= 0 {
        nodes[first] := nodes[first].(prev := x); // missing in the source
      }
    }

    /** list_add. */
    method ListAdd(l: nat, x: nat)
      requires ListShape() && l < cells && x < pages && !Starts(On(), x)
      modifies nodes, len, this`lists
      ensures ListShape() && On() == old(On()) + {Blk(x, l)}
    {
      InsertListed(pages, nodes[..], len[..], lists, l, x, true);
      ListInsert(pages + l, x);
      len[l] := len[l] + 1;
      lists := lists[l := [x] + lists[l]];
      assert len[..] == old(len[..])[l := old(len[l]) + 1];
    }

    /** The pointer writes of list_remove. */
    method UnlinkPage(x: nat)
      requires x < nodes.Length && Linked(nodes[..], x)
      modifies nodes
      ensures nodes[..] == Unlink(old(nodes[..]), x)
    {
      var prev, next := nodes[x].prev, nodes[x].next;
      nodes[prev] := nodes[prev].(next := next);
      if next >= 0 {
        nodes[next] := nodes[next].(prev := prev);
      }
    }

    /** list_remove. */
    method ListRemove(x: nat, ghost l: nat)
      requires ListShape() && Blk(x, l) in On() && x < pages
      modifies nodes, len, this`lists
      ensures ListShape() && On() == old(On()) - {Blk(x, l)}
      ensures nodes[x].level == l
    {
      ghost var k := OnNode(Blk(x, l));
      UnlinkListed(pages, nodes[..], len[..], lists, l, k, true);
      FreeSetRemove(lists, l, k);
      UnlinkKeepsLevel(nodes[..], x);
      var list := nodes[x].list;
      UnlinkPage(x);
      len[list] := len[list] - 1;
      lists := lists[l := lists[l][..k] + lists[l][k + 1..]];
      assert len[..] == old(len[..])[l := old(len[l]) - 1];
    }

    /** The scan of page_alloc_cell; its assertion i < used_cells holds at every set byte. */
    method FirstFree(bits: seq<int>, used: nat) returns (i: nat)
      requires Bits(bits) && Ones(bits) == used < |bits|
      ensures i < |bits| && bits[i] == 0 && forall j | 0 <= j < i :: bits[j] == 1
    {
      i := 0;
      OnesPrefix(bits, 0);
      while bits[i] == 1
        invariant i <= used && forall j | 0 <= j < i :: bits[j] == 1
        decreases used - i
      {
        OnesPrefix(bits, i + 1);
        assert i < used;
        i := i + 1;
      }
    }

    /** page_alloc_cell: list_remove and list_add move the page to the next list. */
    method MovePage(p: nat, ghost l: nat)
      requires ListShape() && Blk(p, l) in On() && l + 1 < cells && !Starts(On() - {Blk(p, l)}, p) && p < pages
      modifies nodes, len, this`lists
      ensures ListShape() && On() == old(On()) - {Blk(p, l)} + {Blk(p, l + 1)}
    {
      ListRemove(p, l);
      ListAdd(nodes[p].level + 1, p);
    }

    /** page_alloc_cell. */
    method PageAllocCell(p: nat) returns (addr: nat, ghost i: nat)
      requires Book() && p in bitmaps && Ones(bitmaps[p]) + 1 < cells
      modifies nodes, len, this`bitmaps, this`lists
      ensures Book() && addr == CellAddr(pgsize, ssize, p, i)
      ensures i < cells && old(bitmaps)[p][i] == 0
      ensures bitmaps == old(bitmaps)[p := old(bitmaps)[p][i := 1]]
    {
      ghost var used, bm := Ones(bitmaps[p]), bitmaps;
      var bits := bitmaps[p];
      assert Blk(p, used) in OnLists(bm);
      ghost var k := OnNode(Blk(p, used));
      var c := FirstFree(bits, nodes[p].level);
      i := c;
      FilledBook(cells, bm, p, c);
      MovePage(p, used);
      bitmaps := bitmaps[p := bits[c := 1]];
      addr := CellAddr(pgsize, ssize, p, c);
    }

    /** new_page, once the buddy allocator has supplied page p. */
    method NewPage(p: nat)
      requires Book() && p !in bitmaps && p < pages
      modifies nodes, len, this`bitmaps, this`lists
      ensures Book() && bitmaps == old(bitmaps)[p := seq(cells, _ => 0)] && Ones(bitmaps[p]) == 0
    {
      var bits := seq(cells, _ => 0);
      OnesZero(bits);
      OnListsAdd(bitmaps, p, bits);
      bitmaps := bitmaps[p := bits];
      ListAdd(0, p);
    }

    lemma PagesListed()
      requires Book()
      ensures forall q | q in bitmaps :: q in lists[Ones(bitmaps[q])]
    {
      forall q | q in bitmaps ensures q in lists[Ones(bitmaps[q])] {
        assert Blk(q, Ones(bitmaps[q])) in OnLists(bitmaps);
        InFreeUpTo(lists, cells, Blk(q, Ones(bitmaps[q])));
      }
    }

    /** The search of lib_slab_alloc: the fullest page that still has room for one more. */
    method FindPage() returns (p: int)
      requires Book()
      ensures p == NULL ==> forall q | q in bitmaps :: Ones(bitmaps[q]) == cells - 1
      ensures p != NULL ==> && p in bitmaps && Ones(bitmaps[p]) <= cells - 2
                            && forall q | q in bitmaps && Ones(bitmaps[q]) <= cells - 2 ::
                                 Ones(bitmaps[q]) <= Ones(bitmaps[p])
    {
      PagesListed();
      var k := cells - 2;
      while k >= 0
        invariant -1 <= k <= cells - 2
        invariant forall q | q in bitmaps && Ones(bitmaps[q]) <= cells - 2 :: Ones(bitmaps[q]) <= k
      {
        ListsOkAt(pages, nodes[..], len[..], lists, cells, k, true);
        if len[k] > 0 {
          InFreeUpTo(lists, cells, Blk(lists[k][0], k));
          assert Blk(lists[k][0], k) in OnLists(bitmaps);
          return nodes[pages + k].next;
        }
        k := k - 1;
      }
      return NULL;
    }

    /** buddy_alloc(1). */
    method AskPage(ghost bits: seq<int>) returns (page: int)
      requires Valid()
      modifies buddy`lists, buddy.nodes, buddy.len, buddy.stateTable
      ensures Kept(NULL) && buddy.Valid()
      ensures page == NULL <==> !old(buddy.Gives(1))
      ensures page == NULL ==> buddy.Abs() == old(buddy.Abs())
      ensures page != NULL ==> && 0 <= page < pages && page !in bitmaps && Owned(bitmaps[page := bits], buddy.Abs())
                               && OthersOf(bitmaps[page := bits], buddy.Abs()) == old(Others())
    {
      ghost var s, op := buddy.Abs(), Op.Free(Blk(0, 0));
      var missed;
      page, missed, op := buddy.Alloc(1);
      assert Kept(NULL) == old(Kept(NULL));
      if page != NULL {
        OneIsLevelZero(op.l);
        FreshPage(bitmaps, s, op.b);
        FreeWithin(s, op.b);
        TakePageOwned(bitmaps, s, op.b, bits);
      }
    }

    /** new_page. */
    method TakePage() returns (page: int)
      requires Valid()
      modifies this`bitmaps, this`lists, nodes, len
      modifies buddy`lists, buddy.nodes, buddy.len, buddy.stateTable
      ensures Joined(page) && Others() == old(Others()) && Live(bitmaps) == Live(old(bitmaps))
      ensures page == NULL <==> !old(buddy.Gives(1))
      ensures page == NULL ==> bitmaps == old(bitmaps) && buddy.Abs() == old(buddy.Abs())
      ensures page != NULL ==> && page in bitmaps && page !in old(bitmaps) && Ones(bitmaps[page]) == 0
                               && bitmaps.Keys == old(bitmaps).Keys + {page}
    {
      page := AskPage(seq(cells, _ => 0));
      if page != NULL {
        LiveEmptyPage(bitmaps, page, cells);
        KeepPage(page);
      }
    }

    /** The page is the slab's, and empty. */
    method KeepPage(p: nat)
      requires Kept(NULL) && buddy.Valid() && pages == buddy.pages && nodes != buddy.nodes && len != buddy.len
      requires p < pages && p !in bitmaps && Owned(bitmaps[p := seq(cells, _ => 0)], buddy.Abs())
      modifies this`bitmaps, this`lists, nodes, len
      ensures Joined(p) && bitmaps == old(bitmaps)[p := seq(cells, _ => 0)] && Ones(bitmaps[p]) == 0
      ensures buddy.Abs() == old(buddy.Abs())
    {
      NewPage(p);
      assert buddy.Valid() == old(buddy.Valid());
    }

    /** page_alloc_cell, seen from outside. */
    method AllocOn(p: nat) returns (addr: nat, ghost i: nat)
      requires Joined(p) && p in bitmaps && Ones(bitmaps[p]) + 1 < cells
      modifies nodes, len, this`bitmaps, this`lists
      ensures Valid() && Others() == old(Others()) && bitmaps.Keys == old(bitmaps).Keys
      ensures buddy.Abs() == old(buddy.Abs())
      ensures addr == CellAddr(pgsize, ssize, p, i) && i < cells && (p, i) !in Live(old(bitmaps))
      ensures Live(bitmaps) == Live(old(bitmaps)) + {(p, i)}
    {
      ghost var bm := bitmaps;
      addr, i := PageAllocCell(p);
      OnesFlip(bm[p], i, 1);
      LiveFlip(bm, p, i, 1);
      SamePagesOwned(bm, bitmaps);
      assert buddy.Valid() == old(buddy.Valid());
    }

    /** lib_slab_alloc: a cell that was not in use, on the fullest page with room or else on
        a page from buddy_alloc; null where the source panics, because that has none. */
    method Alloc() returns (addr: int, ghost p: nat, ghost i: nat)
      requires Valid()
      modifies this`bitmaps, this`lists, nodes, len
      modifies buddy`lists, buddy.nodes, buddy.len, buddy.stateTable
      ensures Valid() && Others() == old(Others())
      ensures addr == NULL <==> old(AllFull()) && !old(buddy.Gives(1))
      ensures addr == NULL ==> bitmaps == old(bitmaps) && buddy.Abs() == old(buddy.Abs())
      ensures addr != NULL ==> && addr == CellAddr(pgsize, ssize, p, i) && i < cells
                               && (p, i) !in Live(old(bitmaps)) && Live(bitmaps) == Live(old(bitmaps)) + {(p, i)}
      ensures addr != NULL && old(AllFull()) ==> p !in old(bitmaps) && bitmaps.Keys == old(bitmaps).Keys + {p}
      ensures !old(AllFull()) ==>
                && p in old(bitmaps) && bitmaps.Keys == old(bitmaps).Keys && buddy.Abs() == old(buddy.Abs())
                && forall q | q in old(bitmaps) && Ones(old(bitmaps)[q]) <= cells - 2 ::
                     Ones(old(bitmaps)[q]) <= Ones(old(bitmaps)[p])
    {
      p, i := 0, 0;
      var page := FindPage();
      if page == NULL {
        page := TakePage();
        if page == NULL {
          return NULL, p, i;
        }
      }
      p := page;
      addr, i := AllocOn(page);
    }

    /** lib_slab_free after the address arithmetic. */
    method FreeCell(p: nat, i: nat) returns (back: int)
      requires Book() && p in bitmaps && i < cells && bitmaps[p][i] == 1
      modifies this`bitmaps, this`lists, nodes, len
      ensures Book() && bitmaps == Cleared(old(bitmaps), p, i)
      ensures back == if Ones(old(bitmaps)[p]) == 1 then p else NULL
    {
      ghost var used, bm := Ones(bitmaps[p]), bitmaps;
      var bits := bitmaps[p];
      assert Blk(p, used) in OnLists(bm);
      ghost var k := OnNode(Blk(p, used));
      ClearedBook(cells, bm, p, i);
      ListRemove(p, used);
      if nodes[p].level == 1 {
        back := p;
        bitmaps := bitmaps - {p};
      } else {
        back := NULL;
        ListAdd(nodes[p].level - 1, p);
        bitmaps := bitmaps[p := bits[i := 0]];
      }
      assert On() == OnLists(Cleared(bm, p, i));
    }

    /** lib_slab_free up to buddy_free; the page to give back, if any. */
    method DropCell(addr: nat, ghost p: nat, ghost i: nat) returns (back: int)
      requires Kept(NULL) && (p, i) in Live(bitmaps) && addr == CellAddr(pgsize, ssize, p, i)
      modifies this`bitmaps, this`lists, nodes, len
      ensures Kept(NULL) && Live(bitmaps) == Live(old(bitmaps)) - {(p, i)}
      ensures back == if LastOn(old(bitmaps), p, i) then p else NULL
      ensures bitmaps.Keys == if LastOn(old(bitmaps), p, i) then (old(bitmaps) - {p}).Keys else old(bitmaps).Keys
    {
      AddrDecodes(pgsize, ssize, p, i);
      ClearedLive(bitmaps, p, i);
      var page := addr / pgsize;
      var c := (addr - page * pgsize - HEADER) / ssize;
      back := FreeCell(page, c);
    }

    /** lib_slab_free of a cell in use: the cell is no longer in use, and its page is given
        to buddy_free exactly when that was the last cell in use on it. */
    method Free(addr: nat, ghost p: nat, ghost i: nat) returns (r: Buddy.FreeResult)
      requires Valid() && (p, i) in Live(bitmaps) && addr == CellAddr(pgsize, ssize, p, i)
      modifies this`bitmaps, this`lists, nodes, len
      modifies buddy`lists, buddy.nodes, buddy.len, buddy.stateTable
      ensures r != Buddy.BadAddress && Live(bitmaps) == Live(old(bitmaps)) - {(p, i)}
      ensures r == Buddy.Overrun <==>
                && LastOn(old(bitmaps), p, i) && buddy.charSigned && TopBuddiesFree(old(buddy.Abs()), Blk(p, 0))
      ensures r == Buddy.Freed ==>
                && Valid() && Others() == old(Others())
                && bitmaps.Keys == (if LastOn(old(bitmaps), p, i) then (old(bitmaps) - {p}).Keys else old(bitmaps).Keys)
                && buddy.Abs() == if LastOn(old(bitmaps), p, i) then Put(old(buddy.Abs()), Blk(p, 0), buddy.charSigned)
                                  else old(buddy.Abs())
    {
      ghost var bm := bitmaps;
      var back := DropCell(addr, p, i);
      assert buddy.Valid() == old(buddy.Valid());
      if back == NULL {
        SamePagesOwned(bm, bitmaps);
        return Buddy.Freed;
      }
      r := GiveBack(back, bm);
    }

    /** buddy_free of a page that has left the lists. */
    method GiveBack(p: nat, ghost bm: map<nat, seq<int>>) returns (r: Buddy.FreeResult)
      requires Kept(NULL) && buddy.Valid() && pages == buddy.pages && nodes != buddy.nodes && len != buddy.len
      requires p in bm && Owned(bm, buddy.Abs()) && bitmaps.Keys == (bm - {p}).Keys
      modifies buddy`lists, buddy.nodes, buddy.len, buddy.stateTable
      ensures r != Buddy.BadAddress
      ensures r == Buddy.Overrun <==> buddy.charSigned && TopBuddiesFree(old(buddy.Abs()), Blk(p, 0))
      ensures r == Buddy.Freed ==> && Valid() && Others() == OthersOf(bm, old(buddy.Abs()))
                                   && buddy.Abs() == Put(old(buddy.Abs()), Blk(p, 0), buddy.charSigned)
    {
      ghost var table := buddy.stateTable[..];
      assert Blk(p, 0) in SlabBlocks(bm) && Blk(p, 0) in UsedSet(table);
      PutPageOwned(bm, buddy.Abs(), p, buddy.charSigned);
      SamePagesOwned(bm - {p}, bitmaps);
      r := buddy.Release(p);
      assert Kept(NULL) == old(Kept(NULL));
    }
  }

  ghost predicate LastOn(bm: map<nat, seq<int>>, p: nat, i: nat) {
    forall j: nat | (p, j) in Live(bm) :: j == i
  }

  /** The bitmaps after cell i of page p is freed; a page with no cell left is dropped. */
  function Cleared(bm: map<nat, seq<int>>, p: nat, i: nat): map<nat, seq<int>>
    requires p in bm && i < |bm[p]|
  {
    if Ones(bm[p]) == 1 then bm - {p} else bm[p := bm[p][i := 0]]
  }

  /** The lists and bitmaps after cell i of page p is taken. */
  lemma FilledBook(cells: nat, bm: map<nat, seq<int>>, p: nat, i: nat)
    requires PagesOk(cells, bm) && p in bm && i < cells && bm[p][i] == 0 && Ones(bm[p]) + 1 < cells
    ensures var used, rest := Ones(bm[p]), OnLists(bm) - {Blk(p, Ones(bm[p]))};
            && !Starts(rest, p) && OnLists(bm[p := bm[p][i := 1]]) == rest + {Blk(p, used + 1)}
    ensures PagesOk(cells, bm[p := bm[p][i := 1]])
  {
    OnesFlip(bm[p], i, 1);
    OnListsDrop(bm, p);
    OnListsMove(bm, p, bm[p][i := 1]);
  }

  lemma ClearedBook(cells: nat, bm: map<nat, seq<int>>, p: nat, i: nat)
    requires PagesOk(cells, bm) && p in bm && i < cells && bm[p][i] == 1
    ensures var used, rest := Ones(bm[p]), OnLists(bm) - {Blk(p, Ones(bm[p]))};
            && used > 0 && !Starts(rest, p)
            && OnLists(Cleared(bm, p, i)) == if used == 1 then rest else rest + {Blk(p, used - 1)}
    ensures PagesOk(cells, Cleared(bm, p, i))
  {
    OnesFlip(bm[p], i, 0);
    OnesPositive(bm[p], i);
    OnListsDrop(bm, p);
    OnListsMove(bm, p, bm[p][i := 0]);
  }

  lemma ClearedLive(bm: map<nat, seq<int>>, p: nat, i: nat)
    requires p in bm && i < |bm[p]| && Bits(bm[p]) && bm[p][i] == 1
    ensures Live(Cleared(bm, p, i)) == Live(bm) - {(p, i)}
    ensures Ones(bm[p]) == 1 <==> forall j: nat | (p, j) in Live(bm) :: j == i
    ensures p in Cleared(bm, p, i) ==> Ones(Cleared(bm, p, i)[p]) > 0
  {
    LastCell(bm[p], i);
    OnesFlip(bm[p], i, 0);
    OnesPositive(bm[p], i);
    forall j: nat | j < |bm[p]| && bm[p][j] == 1 ensures (p, j) in Live(bm) {}
    if Ones(bm[p]) > 1 { LiveFlip(bm, p, i, 0); }
  }

  lemma LiveEmptyPage(bm: map<nat, seq<int>>, p: nat, cells: nat)
    requires p !in bm
    ensures Live(bm[p := seq(cells, _ => 0)]) == Live(bm)
  {}

  /** lib_slab_free clears the bitmap byte after the page has gone back to the buddy
      allocator; that byte lies past the list node the buddy allocator has written there. */
  lemma LateClearMissesNode(pgsize: nat, ssize: nat, p: nat, i: nat)
    requires pgsize >= HEADER && i < CellCount(pgsize, ssize)
    ensures var a := BitmapAddr(pgsize, ssize, CellCount(pgsize, ssize), p, i);
            p * pgsize + Buddy.NODE_SIZE <= a < (p + 1) * pgsize
  {
    PageGeometry(pgsize, ssize, p, i);
  }

  // ---- Initialisation ----

  /** serv_pages: the smallest power of two of pages that holds n bytes. */
  method ServPages(pgsize: nat, n: nat) returns (res: nat, ghost l: nat)
    requires pgsize > 0
    ensures IsLevel(res, l) && res * pgsize >= n && (l > 0 ==> Pow2(l - 1) * pgsize < n)
  {
    res, l := 1, 0;
    while res * pgsize < n
      invariant IsLevel(res, l) && (l > 0 ==> Pow2(l - 1) * pgsize < n)
      decreases n - res
    {
      Mono(1, pgsize, res);
      res, l := res * 2, l + 1;
    }
  }

  /** lib_slab_init, for a page size that holds two cells or more: the list heads go into a
      block of the buddy allocator; null where the source panics, because that has none. */
  method Init(buddy: Buddy.BuddyAllocator, pgsize: nat, ssize: nat)
    returns (slab: SlabAllocator?, serv: nat, ghost l: nat, ghost b: Blk)
    requires ssize > 0 && pgsize >= HEADER && CellCount(pgsize, ssize) >= 2 && buddy.Valid()
    modifies buddy`lists, buddy.nodes, buddy.len, buddy.stateTable
    ensures IsLevel(serv, l) && serv * pgsize >= SLAB_LIST * CellCount(pgsize, ssize)
    ensures l > 0 ==> Pow2(l - 1) * pgsize < SLAB_LIST * CellCount(pgsize, ssize)
    ensures slab == null <==> !old(buddy.Gives(serv))
    ensures slab == null ==> buddy.Valid() && buddy.Abs() == old(buddy.Abs())
    ensures slab != null ==>
              && fresh(slab) && slab.Valid() && slab.buddy == buddy && slab.pgsize == pgsize && slab.ssize == ssize
              && slab.bitmaps == map[] && b in old(buddy.Abs()).free && buddy.Abs() == Take(old(buddy.Abs()), b, l)
              && slab.Others() == old(buddy.Abs()).used + {Blk(b.start, l)}
  {
    slab, b := null, Blk(0, 0);
    serv, l := ServPages(pgsize, SLAB_LIST * CellCount(pgsize, ssize));
    var r, missed, op := buddy.Alloc(serv);
    if r != NULL {
      Buddy.LevelIsUnique(serv, l);
      b := op.b;
      slab := OverBuddy(buddy, pgsize, ssize);
    }
  }

  method OverBuddy(buddy: Buddy.BuddyAllocator, pgsize: nat, ssize: nat) returns (slab: SlabAllocator)
    requires ssize > 0 && pgsize >= HEADER && CellCount(pgsize, ssize) >= 2 && buddy.Valid()
    ensures fresh(slab) && slab.Valid() && slab.buddy == buddy && slab.pgsize == pgsize && slab.ssize == ssize
    ensures slab.bitmaps == map[] && slab.Others() == buddy.Abs().used
  {
    slab := new SlabAllocator(buddy, pgsize, ssize);
    assert SlabBlocks(map[]) == {};
  }

  // ---- The other clients ----

  lemma OneIsLevelZero(l: nat)
    ensures IsLevel(1, l) <==> l == 0
  {
    if l > 0 { Pow2Grows(0, l); }
  }

  /** Another client's buddy_alloc. */
  method OtherAlloc(slab: SlabAllocator, n: nat) returns (r: int, ghost op: Op)
    requires slab.Valid()
    modifies slab.buddy`lists, slab.buddy.nodes, slab.buddy.len, slab.buddy.stateTable
    ensures slab.Valid()
    ensures r == NULL <==> !old(slab.buddy.Gives(n))
    ensures r == NULL ==> slab.Others() == old(slab.Others())
    ensures r != NULL ==> op.Alloc? && r == op.b.start && slab.Others() == old(slab.Others()) + {Blk(op.b.start, op.l)}
  {
    ghost var s := slab.buddy.Abs();
    var missed;
    r, missed, op := slab.buddy.Alloc(n);
    if r != NULL {
      TakeOwned(slab.bitmaps, s, op.b, op.l);
    }
    assert slab.Kept(NULL) == old(slab.Kept(NULL));
  }

  /** Another client's buddy_free, which gives back no page of the slab. */
  method OtherFree(slab: SlabAllocator, pn: int) returns (r: Buddy.FreeResult)
    requires slab.Valid() && !(pn >= 0 && pn in slab.bitmaps)
    modifies slab.buddy`lists, slab.buddy.nodes, slab.buddy.len, slab.buddy.stateTable
    ensures r != Buddy.Overrun ==> slab.Valid()
    ensures r == Buddy.BadAddress ==> slab.Others() == old(slab.Others())
    ensures r == Buddy.Freed ==>
              exists b :: b in old(slab.Others()) && b.start == pn && slab.Others() == old(slab.Others()) - {b}
  {
    ghost var s, table := slab.buddy.Abs(), slab.buddy.stateTable[..];
    r := slab.buddy.Release(pn);
    if r == Buddy.Freed {
      ghost var b := Blk(pn, table[pn]);
      PutOwned(slab.bitmaps, s, b, slab.buddy.charSigned);
      assert b in OthersOf(slab.bitmaps, s);
      assert slab.Kept(NULL) == old(slab.Kept(NULL));
    }
  }

  lemma PagesInUse(bm: map<nat, seq<int>>)
    requires forall p | p in bm :: Ones(bm[p]) > 0
    ensures bm != map[] ==> Live(bm) != {}
  {
    if bm != map[] {
      var p :| p in bm;
      OnesMet(bm[p]);
      var i: nat :| i < |bm[p]| && bm[p][i] == 1;
      assert (p, i) in Live(bm);
    }
  }

  /** No leak: when no cell is in use the slab holds no page, the pages outside the other
      clients' blocks are all free, and (char signed) they are the maximal aligned blocks:
      the state of the buddy allocator depends on the other clients alone. */
  lemma NoLeak(slab: SlabAllocator)
    requires slab.Valid() && Live(slab.bitmaps) == {}
    ensures var s, rest := slab.buddy.Abs(), (set p: nat | p < slab.pages && !Covered(p, slab.Others()));
            && slab.bitmaps == map[] && s.used == slab.Others() && FreePages(s) == rest
            && (slab.buddy.charSigned ==> s.free == Canon(s.pages, s.levels, rest))
  {
    PagesInUse(slab.bitmaps);
    assert SlabBlocks(map[]) == {};
    var s := slab.buddy.Abs();
    PagesAreComplement(s);
    if slab.buddy.charSigned { CanonicalIffNoPairs(s); }
  }

  lemma {:induction false} OnesMet(s: seq<int>)
    requires Ones(s) > 0
    ensures exists i: nat :: i < |s| && s[i] == 1
  {
    var n := |s| - 1;
    if s[n] != 1 {
      OnesMet(s[..n]);
      var i: nat :| i < n && s[..n][i] == 1;
      assert s[i] == 1;
    }
  }
}
