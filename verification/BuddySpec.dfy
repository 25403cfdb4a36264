/** The buddy allocator over sets of blocks: what one split, one merge and whole
    runs of alloc and free do to the free and the allocated blocks. */
module BuddySpec {
  import opened PowersOfTwo

  /** A block: its first page and its level; it has Pow2(lvl) pages. */
  datatype Blk = Blk(start: nat, lvl: nat)

  predicate In(p: nat, b: Blk) {
    b.start <= p < b.start + Pow2(b.lvl)
  }

  /** Aligned, and inside the working pages. */
  predicate Fits(pages: nat, b: Blk) {
    Base(b.start, b.lvl) == b.start && b.start + Pow2(b.lvl) <= pages
  }

  function Neighbour(b: Blk): Blk {
    Blk(FlipBit(b.start, b.lvl), b.lvl)
  }

  function Parent(b: Blk): Blk {
    Blk(Base(b.start, b.lvl + 1), b.lvl + 1)
  }

  ghost predicate Disjoint(bs: set<Blk>) {
    forall a, b, p: nat | a in bs && b in bs && In(p, a) && In(p, b) :: a == b
  }

  ghost predicate Covered(p: nat, bs: set<Blk>) {
    exists b :: b in bs && In(p, b)
  }

  /** Every page lies in exactly one block, and every block is aligned and in range. */
  ghost predicate Laid(pages: nat, bs: set<Blk>) {
    && (forall b | b in bs :: Fits(pages, b))
    && Disjoint(bs)
    && (forall p: nat | p < pages :: Covered(p, bs))
  }

  // ---- Geometry of aligned blocks ----

  lemma InIsBase(b: Blk, p: nat)
    requires Base(b.start, b.lvl) == b.start
    ensures In(p, b) <==> Base(p, b.lvl) == b.start
  {
    BaseBounds(p, b.lvl);
    if In(p, b) { BaseUnique(b.start, b.lvl, p); }
  }

  /** Two aligned blocks that share a page are nested. */
  lemma Nested(a: Blk, b: Blk, p: nat)
    requires Base(a.start, a.lvl) == a.start && Base(b.start, b.lvl) == b.start
    requires a.lvl <= b.lvl && In(p, a) && In(p, b)
    ensures forall q: nat | In(q, a) :: In(q, b)
    ensures a.lvl == b.lvl ==> a == b
  {
    InIsBase(a, p);
    InIsBase(b, p);
    forall q: nat | In(q, a) ensures In(q, b) {
      InIsBase(a, q);
      BaseNest(q, a.lvl, b.lvl);
      BaseNest(p, a.lvl, b.lvl);
      InIsBase(b, q);
    }
  }

  lemma TwoHalves(s: nat, l: nat)
    requires Base(s, l) == s
    ensures var n, u := FlipBit(s, l), Base(s, l + 1);
            && Base(n, l) == n && Base(u, l + 1) == u && FlipBit(n, l) == s && Base(n, l + 1) == u
            && ((n == u && s == u + Pow2(l)) || (s == u && n == u + Pow2(l)))
  {
    var u := Base(s, l + 1);
    FlipBitIsOtherHalf(s, l);
    BaseNest(s, l + 1, l + 1);
    BaseUpper(u, l);
    FlipBitIsOtherHalf(FlipBit(s, l), l);
  }

  /** A block and its neighbour are the two halves of their common parent. */
  lemma NeighbourFacts(b: Blk)
    requires Base(b.start, b.lvl) == b.start
    ensures var n, u := Neighbour(b), Parent(b);
            && Base(n.start, n.lvl) == n.start && Base(u.start, u.lvl) == u.start
            && Neighbour(n) == b && Parent(n) == u && n != b
            && u.start == (if n.start < b.start then n.start else b.start)
            && u.start + Pow2(b.lvl) == (if n.start < b.start then b.start else n.start)
    ensures forall q: nat :: In(q, Parent(b)) <==> In(q, b) || In(q, Neighbour(b))
    ensures forall q: nat :: !(In(q, b) && In(q, Neighbour(b)))
  {
    TwoHalves(b.start, b.lvl);
    assert Pow2(b.lvl + 1) == Pow2(b.lvl) + Pow2(b.lvl);
  }

  function Lower(b: Blk): Blk
    requires b.lvl > 0
  {
    Blk(b.start, b.lvl - 1)
  }

  function Upper(b: Blk): Blk
    requires b.lvl > 0
  {
    Blk(b.start + Pow2(b.lvl - 1), b.lvl - 1)
  }

  lemma Halves(b: Blk)
    requires b.lvl > 0 && Base(b.start, b.lvl) == b.start
    ensures var lo, hi := Lower(b), Upper(b);
            && Base(lo.start, lo.lvl) == lo.start && Base(hi.start, hi.lvl) == hi.start
            && Neighbour(lo) == hi && Neighbour(hi) == lo && lo != hi
            && In(lo.start, lo) && In(hi.start, hi) && In(lo.start, b) && In(hi.start, b)
    ensures forall p: nat :: In(p, b) <==> In(p, Lower(b)) || In(p, Upper(b))
    ensures forall p: nat :: !(In(p, Lower(b)) && In(p, Upper(b)))
  {
    BaseUpper(b.start, b.lvl - 1);
    FlipBitIsOtherHalf(b.start, b.lvl - 1);
    FlipBitIsOtherHalf(Upper(b).start, b.lvl - 1);
  }

  lemma {:induction false} AlignedBelow(s: nat, a: nat, b: nat)
    requires a <= b && Base(s, b) == s
    ensures Base(s, a) == s
    decreases b
  {
    if a < b {
      BaseUpper(s, b - 1);
      AlignedBelow(s, a, b - 1);
    }
  }

  /** The claim the merge loop rests on: the first page of the neighbour of a block of
      the layout is itself the first page of some block, whose level is no higher. */
  lemma NeighbourStartsBlock(pages: nat, bs: set<Blk>, b: Blk) returns (x: Blk)
    requires Laid(pages, bs) && b in bs && Fits(pages, Neighbour(b))
    ensures x in bs && x.start == Neighbour(b).start && x.lvl <= b.lvl
  {
    var n := Neighbour(b);
    NeighbourFacts(b);
    assert In(n.start, n) && In(b.start, b);
    assert Covered(n.start, bs);
    x :| x in bs && In(n.start, x);
    if x.lvl > b.lvl {
      Nested(Parent(b), x, n.start);
      assert false;
    }
    InIsBase(x, n.start);
    AlignedBelow(n.start, x.lvl, n.lvl);
  }

  // ---- One split and one merge ----

  /** Replacing a group of blocks by another group over the same pages keeps the layout. */
  lemma Regroup(pages: nat, rest: set<Blk>, was: set<Blk>, now: set<Blk>)
    requires Laid(pages, rest + was) && rest !! was
    requires forall b | b in now :: Fits(pages, b)
    requires Disjoint(now)
    requires forall p: nat :: Covered(p, now) <==> Covered(p, was)
    ensures Laid(pages, rest + now)
  {
    var bs := rest + now;
    forall a, p: nat | a in rest && In(p, a) ensures !Covered(p, now) {
      assert !Covered(p, was);
    }
    forall a, b, p: nat | a in bs && b in bs && In(p, a) && In(p, b) ensures a == b {
      if a in now { assert Covered(p, now); }
      if b in now { assert Covered(p, now); }
    }
    forall p: nat | p < pages ensures Covered(p, bs) {
      assert Covered(p, rest + was);
      var c :| c in rest + was && In(p, c);
      if c in was {
        assert Covered(p, was);
        var d :| d in now && In(p, d);
        assert d in bs;
      } else {
        assert c in bs;
      }
    }
  }

  lemma HalveLaid(pages: nat, rest: set<Blk>, b: Blk)
    requires b.lvl > 0 && b !in rest && Laid(pages, rest + {b})
    ensures Lower(b) !in rest && Upper(b) !in rest && Laid(pages, rest + {Lower(b), Upper(b)})
  {
    var lo, hi := Lower(b), Upper(b);
    assert b in rest + {b};
    Halves(b);
    forall p: nat ensures Covered(p, {lo, hi}) <==> Covered(p, {b}) {
      assert In(p, lo) ==> Covered(p, {lo, hi});
      assert In(p, hi) ==> Covered(p, {lo, hi});
      assert In(p, b) ==> Covered(p, {b});
    }
    Regroup(pages, rest, {b}, {lo, hi});
  }

  lemma JoinLaid(pages: nat, rest: set<Blk>, b: Blk)
    requires Base(b.start, b.lvl) == b.start
    requires b !in rest && Neighbour(b) !in rest && Laid(pages, rest + {b, Neighbour(b)})
    ensures Parent(b) !in rest && Laid(pages, rest + {Parent(b)})
  {
    var n, u := Neighbour(b), Parent(b);
    NeighbourFacts(b);
    assert In(b.start, b) && In(b.start, u);
    assert b in rest + {b, n} && n in rest + {b, n};
    forall p: nat ensures Covered(p, {u}) <==> Covered(p, {b, n}) {
      assert In(p, b) ==> Covered(p, {b, n});
      assert In(p, n) ==> Covered(p, {b, n});
      assert In(p, u) ==> Covered(p, {u});
    }
    assert u !in rest + {b, n};
    Regroup(pages, rest, {b, n}, {u});
  }

  // ---- Allocator states ----

  datatype State = State(pages: nat, levels: nat, free: set<Blk>, used: set<Blk>)

  /** The layout alone; a block being merged may sit in `used` at any level. */
  ghost predicate Sound(s: State) {
    && s.levels > 0
    && Laid(s.pages, s.free + s.used)
    && s.free !! s.used
    && (forall b | b in s.free :: b.lvl < s.levels)
  }

  ghost predicate Inv(s: State) {
    Sound(s) && forall b | b in s.used :: b.lvl < s.levels
  }

  ghost function FreePages(s: State): set<nat> {
    set p: nat | p < s.pages && Covered(p, s.free)
  }

  ghost predicate Within(b: Blk, ps: set<nat>) {
    forall p: nat | In(p, b) :: p in ps
  }

  /** No two free blocks could be merged. */
  ghost predicate NoPairs(s: State) {
    forall b | b in s.free && b.lvl + 1 < s.levels :: Neighbour(b) !in s.free
  }

  /** The maximal aligned blocks, of a level below `levels`, inside a set of pages. */
  ghost function Canon(pages: nat, levels: nat, ps: set<nat>): set<Blk> {
    set s: nat, l: nat | s < pages && l < levels && Maximal(pages, levels, ps, Blk(s, l)) :: Blk(s, l)
  }

  ghost predicate Maximal(pages: nat, levels: nat, ps: set<nat>, b: Blk) {
    && b.lvl < levels && Fits(pages, b) && Within(b, ps)
    && (b.lvl + 1 == levels || !Fits(pages, Parent(b)) || !Within(Parent(b), ps))
  }

  ghost predicate Canonical(s: State) {
    s.free == Canon(s.pages, s.levels, FreePages(s))
  }

  /** With no mergeable pair left, every aligned free run lies inside one free block. */
  lemma {:induction false} FreeRunInBlock(s: State, b: Blk) returns (c: Blk)
    requires Sound(s) && NoPairs(s)
    requires Fits(s.pages, b) && b.lvl < s.levels && Within(b, FreePages(s))
    ensures c in s.free && c.lvl >= b.lvl && forall q: nat | In(q, b) :: In(q, c)
    decreases b.lvl
  {
    assert In(b.start, b);
    if b.lvl == 0 {
      assert b.start in FreePages(s);
      c :| c in s.free && In(b.start, c);
    } else {
      var lo, hi := Lower(b), Upper(b);
      Halves(b);
      c := FreeRunInBlock(s, lo);
      var d := FreeRunInBlock(s, hi);
      assert c in s.free + s.used && d in s.free + s.used;
      if c.lvl >= b.lvl {
        Nested(b, c, lo.start);
      } else {
        Nested(lo, c, lo.start);
        if d.lvl >= b.lvl {
          c := d;
          Nested(b, d, hi.start);
        } else {
          Nested(hi, d, hi.start);
        }
      }
    }
  }

  /** The free blocks are the maximal aligned blocks of the free pages exactly when no
      two of them could be merged. */
  lemma CanonicalIffNoPairs(s: State)
    requires Sound(s)
    ensures Canonical(s) <==> NoPairs(s)
  {
    var ps := FreePages(s);
    if NoPairs(s) {
      forall b | b in s.free ensures b in Canon(s.pages, s.levels, ps) { FreeIsMaximal(s, b); }
      forall b | b in Canon(s.pages, s.levels, ps) ensures b in s.free { MaximalIsFree(s, b); }
    }
    if Canonical(s) {
      forall b | b in s.free && b.lvl + 1 < s.levels ensures Neighbour(b) !in s.free {
        MaximalHasNoPair(s, b);
      }
    }
  }

  lemma FreeWithin(s: State, b: Blk)
    requires Sound(s) && b in s.free
    ensures Fits(s.pages, b) && Within(b, FreePages(s)) && b.start < s.pages
  {
    assert b in s.free + s.used;
  }

  lemma FreeIsMaximal(s: State, b: Blk)
    requires Sound(s) && NoPairs(s) && b in s.free
    ensures b in Canon(s.pages, s.levels, FreePages(s))
  {
    FreeWithin(s, b);
    var u := Parent(b);
    NeighbourFacts(b);
    assert In(b.start, b) && b in s.free + s.used;
    if b.lvl + 1 < s.levels && Fits(s.pages, u) && Within(u, FreePages(s)) {
      var c := FreeRunInBlock(s, u);
      assert false;
    }
    assert Maximal(s.pages, s.levels, FreePages(s), b);
  }

  lemma MaximalIsFree(s: State, b: Blk)
    requires Sound(s) && NoPairs(s) && Maximal(s.pages, s.levels, FreePages(s), b)
    ensures b in s.free
  {
    var c := FreeRunInBlock(s, b);
    FreeWithin(s, c);
    assert In(b.start, b) && In(b.start, c);
    if c.lvl == b.lvl {
      Nested(b, c, b.start);
    } else {
      NeighbourFacts(b);
      Nested(Parent(b), c, b.start);
      assert In(Parent(b).start + Pow2(b.lvl + 1) - 1, Parent(b));
    }
  }

  lemma MaximalHasNoPair(s: State, b: Blk)
    requires Sound(s) && b in s.free && Maximal(s.pages, s.levels, FreePages(s), b) && b.lvl + 1 < s.levels
    ensures Neighbour(b) !in s.free
  {
    if Neighbour(b) in s.free {
      NeighbourFacts(b);
      FreeWithin(s, b);
      FreeWithin(s, Neighbour(b));
    }
  }

  // ---- Allocation: split a free block ----

  /** The upper halves that come loose when a level-hi block is cut down to level lo. */
  function Remainder(start: nat, hi: nat, lo: nat): set<Blk>
    decreases hi
  {
    if hi <= lo then {} else {Blk(start + Pow2(hi - 1), hi - 1)} + Remainder(start, hi - 1, lo)
  }

  function Take(s: State, b: Blk, l: nat): State {
    s.(free := s.free - {b} + Remainder(b.start, b.lvl, l), used := s.used + {Blk(b.start, l)})
  }

  lemma {:induction false} RemainderFacts(start: nat, hi: nat, lo: nat)
    requires Base(start, hi) == start
    ensures forall b | b in Remainder(start, hi, lo) ::
              lo <= b.lvl < hi && In(start, Neighbour(b)) && Neighbour(Neighbour(b)) == b
    decreases hi
  {
    if hi > lo {
      Halves(Blk(start, hi));
      RemainderFacts(start, hi - 1, lo);
    }
  }

  lemma {:induction false} SplitLaid(pages: nat, rest: set<Blk>, start: nat, hi: nat, lo: nat)
    requires lo <= hi && Blk(start, hi) !in rest && Laid(pages, rest + {Blk(start, hi)})
    ensures Blk(start, lo) !in rest + Remainder(start, hi, lo)
    ensures Remainder(start, hi, lo) !! rest
    ensures Laid(pages, rest + Remainder(start, hi, lo) + {Blk(start, lo)})
    decreases hi
  {
    if hi == lo {
      assert rest + Remainder(start, hi, lo) + {Blk(start, lo)} == rest + {Blk(start, hi)};
    } else {
      var b := Blk(start, hi);
      var more := rest + {Upper(b)};
      HalveLaid(pages, rest, b);
      assert Lower(b) != Upper(b);
      assert rest + {Lower(b), Upper(b)} == more + {Lower(b)};
      SplitLaid(pages, more, start, hi - 1, lo);
      assert more + Remainder(start, hi - 1, lo) == rest + Remainder(start, hi, lo);
    }
  }

  /** Splitting a free block keeps the layout, and never leaves a mergeable pair. */
  lemma TakeKeepsInv(s: State, b: Blk, l: nat)
    requires Inv(s) && b in s.free && l <= b.lvl
    ensures Inv(Take(s, b, l))
    ensures NoPairs(s) ==> NoPairs(Take(s, b, l))
  {
    var r := Take(s, b, l);
    var rest := s.free + s.used - {b};
    var rem := Remainder(b.start, b.lvl, l);
    assert s.free + s.used == rest + {b};
    SplitLaid(s.pages, rest, b.start, b.lvl, l);
    RemainderFacts(b.start, b.lvl, l);
    assert r.free + r.used == rest + rem + {Blk(b.start, l)};
    assert In(b.start, b) && In(b.start, Blk(b.start, l));
    if NoPairs(s) {
      forall x | x in r.free && x.lvl + 1 < s.levels ensures Neighbour(x) !in r.free {
        if x in rem {
          assert Blk(b.start, l) in r.free + r.used && Blk(b.start, l) !in r.free;
        } else if Neighbour(x) in rem {
          NeighbourFacts(x);
        }
      }
    }
  }

  /** The page numbers that change hands are exactly those of the block given out. */
  lemma TakePages(s: State, b: Blk, l: nat)
    requires Inv(s) && b in s.free && l <= b.lvl
    ensures FreePages(Take(s, b, l)) == FreePages(s) - (set p: nat | p < s.pages && In(p, Blk(b.start, l)))
    ensures Within(Blk(b.start, l), FreePages(s)) && Fits(s.pages, Blk(b.start, l))
  {
    TakeKeepsInv(s, b, l);
    PagesAreComplement(s);
    PagesAreComplement(Take(s, b, l));
    var u := Blk(b.start, l);
    assert u in Take(s, b, l).used && u in Take(s, b, l).free + Take(s, b, l).used;
    FreeWithin(s, b);
    Nested(u, b, b.start);
    forall p: nat | p < s.pages
      ensures Covered(p, Take(s, b, l).used) <==> Covered(p, s.used) || In(p, u) {
      if Covered(p, s.used) {
        var x :| x in s.used && In(p, x);
        assert x in Take(s, b, l).used;
      }
    }
  }

  lemma PagesAreComplement(s: State)
    requires Sound(s)
    ensures FreePages(s) == set p: nat | p < s.pages && !Covered(p, s.used)
  {
    forall p: nat | p < s.pages ensures Covered(p, s.free) <==> !Covered(p, s.used) {
      assert Covered(p, s.free + s.used);
      var b :| b in s.free + s.used && In(p, b);
    }
  }

  // ---- Release: merge with free neighbours ----

  datatype Merged = Merged(free: set<Blk>, top: Blk)

  /** The merge loop: while the neighbour exists and is free, absorb it. */
  function Merge(pages: nat, levels: nat, free: set<Blk>, b: Blk): Merged
    decreases levels - b.lvl
  {
    if b.lvl < levels && Fits(pages, Neighbour(b)) && Neighbour(b) in free
    then Merge(pages, levels, free - {Neighbour(b)}, Parent(b))
    else Merged(free, b)
  }

  /** The state while a block is being merged: the grown block stands in for b. */
  function Growing(s: State, b: Blk, m: Merged): State {
    s.(free := m.free, used := s.used - {b} + {m.top})
  }

  /** One round of the loop. */
  function Absorb(s: State, b: Blk): State {
    Growing(s, b, Merged(s.free - {Neighbour(b)}, Parent(b)))
  }

  lemma AbsorbOne(s: State, b: Blk)
    requires Sound(s) && b in s.used && Neighbour(b) in s.free
    ensures Sound(Absorb(s, b))
    ensures Parent(b) !in s.used && Absorb(s, b).used - {Parent(b)} == s.used - {b}
  {
    var n, t := Neighbour(b), Absorb(s, b);
    var rest := s.free + s.used - {b, n};
    assert b in s.free + s.used && rest + {b, n} == s.free + s.used;
    NeighbourFacts(b);
    JoinLaid(s.pages, rest, b);
    assert In(b.start, b) && In(b.start, Parent(b));
    assert rest + {Parent(b)} == t.free + t.used;
  }

  /** What the merge loop leaves: a sound layout in which the grown block has absorbed
      only free pages and has no free neighbour of its own size. */
  lemma {:induction false} MergeSound(s: State, b: Blk)
    requires Sound(s) && b in s.used && b.lvl <= s.levels
    ensures var m := Merge(s.pages, s.levels, s.free, b);
            && Sound(Growing(s, b, m)) && b.lvl <= m.top.lvl <= s.levels
            && m.top !in s.used - {b} && m.free <= s.free
            && (m.top.lvl < s.levels ==> Neighbour(m.top) !in m.free)
            && (forall q: nat | In(q, b) :: In(q, m.top))
    decreases s.levels - b.lvl
  {
    assert b in s.free + s.used;
    NeighbourFacts(b);
    if b.lvl < s.levels && Fits(s.pages, Neighbour(b)) && Neighbour(b) in s.free {
      AbsorbOne(s, b);
      var t := Absorb(s, b);
      MergeSound(t, Parent(b));
    } else {
      assert Growing(s, b, Merged(s.free, b)) == s;
      assert forall x | x in s.free :: x in s.free + s.used;
    }
  }

  /** All of the 2^levels pages around b but b itself are in range and free. */
  ghost predicate TopBuddiesFree(s: State, b: Blk) {
    var a := Blk(Base(b.start, s.levels), s.levels);
    Fits(s.pages, a) && forall q: nat | In(q, a) && !In(q, b) :: q in FreePages(s)
  }

  /** One round of merging: the free pages lose the neighbour's. */
  lemma AbsorbPages(s: State, b: Blk)
    requires Sound(s) && b in s.used && Neighbour(b) in s.free
    ensures forall q: nat :: q in FreePages(s) <==> q in FreePages(Absorb(s, b)) || In(q, Neighbour(b))
    ensures forall q: nat | In(q, Parent(b)) :: q !in FreePages(Absorb(s, b))
  {
    var n, t := Neighbour(b), Absorb(s, b);
    FreeWithin(s, n);
    forall q: nat ensures q in FreePages(s) <==> q in FreePages(t) || In(q, n) {
      if q in FreePages(s) && !In(q, n) {
        var x :| x in s.free && In(q, x);
        assert x in t.free;
      }
    }
    AbsorbOne(s, b);
    PagesAreComplement(t);
    assert Parent(b) in t.used;
  }

  /** The loop runs past the last list exactly when everything around b is free. */
  lemma {:induction false} MergeOverrunsIff(s: State, b: Blk)
    requires Sound(s) && NoPairs(s) && b in s.used && b.lvl <= s.levels
    ensures Merge(s.pages, s.levels, s.free, b).top.lvl == s.levels <==> TopBuddiesFree(s, b)
    decreases s.levels - b.lvl
  {
    var n := Neighbour(b);
    var a := Blk(Base(b.start, s.levels), s.levels);
    assert b in s.free + s.used;
    NeighbourFacts(b);
    BaseNest(b.start, s.levels, s.levels);
    assert In(b.start, b) && In(n.start, n);
    if b.lvl == s.levels {
    } else if Fits(s.pages, n) && n in s.free {
      AbsorbOne(s, b);
      var t := Absorb(s, b);
      MergeOverrunsIff(t, Parent(b));
      BaseNest(b.start, b.lvl + 1, s.levels);
      AbsorbPages(s, b);
    } else {
      NeighbourNotAllFree(s, b);
      BaseBounds(b.start, s.levels);
      Nested(Parent(b), a, b.start);
      assert In(n.start + Pow2(n.lvl) - 1, n);
    }
  }

  /** A neighbour that is not a free block is not free throughout. */
  lemma NeighbourNotAllFree(s: State, b: Blk)
    requires Sound(s) && NoPairs(s) && b in s.used && b.lvl < s.levels && Neighbour(b) !in s.free
    ensures !(Fits(s.pages, Neighbour(b)) && Within(Neighbour(b), FreePages(s)))
  {
    var n := Neighbour(b);
    assert b in s.free + s.used;
    NeighbourFacts(b);
    if Fits(s.pages, n) && Within(n, FreePages(s)) {
      var c := FreeRunInBlock(s, n);
      assert c in s.free + s.used && In(b.start, b) && In(n.start, n);
      if c.lvl == n.lvl {
        Nested(n, c, n.start);
      } else {
        Nested(Parent(b), c, n.start);
      }
      assert false;
    }
  }

  ghost predicate Overruns(s: State, b: Blk) {
    Merge(s.pages, s.levels, s.free, b).top.lvl == s.levels
  }

  /** What freeing b does.  `signed` says whether plain char is signed: an unsigned table
      entry never compares equal to -1, and then the loop stops before its first merge. */
  function Put(s: State, b: Blk, signed: bool): State {
    var m := if signed then Merge(s.pages, s.levels, s.free, b) else Merged(s.free, b);
    s.(free := m.free + {m.top}, used := s.used - {b})
  }

  function PagesOf(b: Blk): set<nat> {
    set p: nat | p < b.start + Pow2(b.lvl) && In(p, b)
  }

  lemma PutKeepsInv(s: State, b: Blk, signed: bool)
    requires Inv(s) && b in s.used && (signed ==> !Overruns(s, b))
    ensures Inv(Put(s, b, signed))
    ensures FreePages(Put(s, b, signed)) == FreePages(s) + PagesOf(b)
  {
    var m := if signed then Merge(s.pages, s.levels, s.free, b) else Merged(s.free, b);
    var g, r := Growing(s, b, m), Put(s, b, signed);
    assert b in s.free + s.used && In(b.start, b);
    if signed {
      MergeSound(s, b);
    } else {
      assert g == s;
    }
    assert g.free + g.used == r.free + r.used;
    PagesAreComplement(s);
    PagesAreComplement(r);
    forall p: nat | p < s.pages ensures Covered(p, r.used) <==> Covered(p, s.used) && !In(p, b) {
      if Covered(p, s.used) && !In(p, b) {
        var x :| x in s.used && In(p, x);
        assert x in r.used;
      }
      if Covered(p, r.used) {
        var x :| x in r.used && In(p, x);
        assert x in s.used && x in s.free + s.used;
      }
    }
  }

  /** Freeing keeps the canonical form exactly when it merges (char signed), or when
      there was nothing to merge with. */
  lemma PutCanonicalIff(s: State, b: Blk, signed: bool)
    requires Inv(s) && NoPairs(s) && b in s.used && (signed ==> !Overruns(s, b))
    ensures NoPairs(Put(s, b, signed))
            <==> signed || b.lvl + 1 == s.levels || Neighbour(b) !in s.free
  {
    assert b in s.free + s.used;
    NeighbourFacts(b);
    if signed {
      MergeSound(s, b);
      var m := Merge(s.pages, s.levels, s.free, b);
      var g := Growing(s, b, m);
      assert m.top in g.free + g.used;
      forall x | x in m.free ensures Neighbour(x) != m.top {
        assert x in g.free + g.used;
        NeighbourFacts(x);
      }
      NeighbourFacts(m.top);
    } else {
      forall x | x in s.free && Neighbour(x) == b ensures x == Neighbour(b) {
        assert x in s.free + s.used;
        NeighbourFacts(x);
      }
      if b.lvl + 1 < s.levels && Neighbour(b) in s.free {
        assert b in Put(s, b, false).free && Neighbour(b) in Put(s, b, false).free;
      }
    }
  }

  /** The free blocks are a function of the allocated ones. */
  lemma CanonicalUnique(s: State, t: State)
    requires Inv(s) && Inv(t) && NoPairs(s) && NoPairs(t)
    requires s.pages == t.pages && s.levels == t.levels && s.used == t.used
    ensures s == t
  {
    CanonicalIffNoPairs(s);
    CanonicalIffNoPairs(t);
    PagesAreComplement(s);
    PagesAreComplement(t);
  }

  /** alloc then free of the same block gives the state back. */
  lemma TakeThenPut(s: State, b: Blk, l: nat)
    requires Inv(s) && NoPairs(s) && b in s.free && l <= b.lvl
    ensures var t, u := Take(s, b, l), Blk(b.start, l);
            !TopBuddiesFree(t, u) ==> !Overruns(t, u) && Put(t, u, true) == s
  {
    var t, u := Take(s, b, l), Blk(b.start, l);
    TakeKeepsInv(s, b, l);
    MergeOverrunsIff(t, u);
    if !TopBuddiesFree(t, u) {
      PutKeepsInv(t, u, true);
      PutCanonicalIff(t, u, true);
      assert u !in s.used by {
        assert In(b.start, u) && In(b.start, b);
        assert b in s.free + s.used && b !in s.used;
      }
      assert Put(t, u, true).used == s.used;
      CanonicalUnique(s, Put(t, u, true));
    }
  }

  // ---- Completeness of allocation ----

  /** Some free block has level l or more exactly when some aligned run of 2^l pages is free. */
  lemma RunIffBlock(s: State, l: nat)
    requires Inv(s) && NoPairs(s) && l < s.levels
    ensures (exists b :: b in s.free && b.lvl >= l)
            <==> (exists r: Blk :: r.lvl == l && Fits(s.pages, r) && Within(r, FreePages(s)))
  {
    if b :| b in s.free && b.lvl >= l {
      FreeWithin(s, b);
      var r := Blk(b.start, l);
      AlignedBelow(b.start, l, b.lvl);
      assert In(b.start, r) && In(b.start, b);
      Nested(r, b, b.start);
      assert In(r.start + Pow2(l) - 1, r);
      assert r.lvl == l && Fits(s.pages, r) && Within(r, FreePages(s));
    }
    if r: Blk :| r.lvl == l && Fits(s.pages, r) && Within(r, FreePages(s)) {
      var c := FreeRunInBlock(s, r);
    }
  }

  // ---- The initial layout ----

  function TopBlocks(upto: nat, l: nat): set<Blk>
    decreases upto
  {
    if upto < Pow2(l) then {} else TopBlocks(upto - Pow2(l), l) + {Blk(upto - Pow2(l), l)}
  }

  /** The blocks of level l and above that initialisation hands out. */
  function Layout(pages: nat, levels: nat, l: nat): set<Blk>
    requires l < levels
    decreases levels - l
  {
    if l + 1 == levels then TopBlocks(Base(pages, l), l)
    else Layout(pages, levels, l + 1)
         + (if Base(pages, l) == Base(pages, l + 1) then {} else {Blk(Base(pages, l + 1), l)})
  }

  lemma ExtendLaid(n: nat, bs: set<Blk>, l: nat)
    requires Laid(n, bs) && Base(n, l) == n
    ensures Blk(n, l) !in bs && Laid(n + Pow2(l), bs + {Blk(n, l)})
  {
    var b, cs := Blk(n, l), bs + {Blk(n, l)};
    forall p: nat | p < n + Pow2(l) ensures Covered(p, cs) {
      if p < n {
        assert Covered(p, bs);
        var x :| x in bs && In(p, x);
        assert x in cs;
      } else {
        assert b in cs && In(p, b);
      }
    }
  }

  lemma {:induction false} TopBlocksLaid(upto: nat, l: nat)
    requires Base(upto, l) == upto
    ensures Laid(upto, TopBlocks(upto, l))
    ensures forall b | b in TopBlocks(upto, l) :: b.lvl == l
    decreases upto
  {
    BaseBelow(upto, l);
    if upto >= Pow2(l) {
      TopBlocksLaid(upto - Pow2(l), l);
      ExtendLaid(upto - Pow2(l), TopBlocks(upto - Pow2(l), l), l);
    }
  }

  lemma {:induction false} LayoutLaid(pages: nat, levels: nat, l: nat)
    requires l < levels
    ensures Laid(Base(pages, l), Layout(pages, levels, l))
    ensures forall b | b in Layout(pages, levels, l) :: l <= b.lvl < levels
    ensures forall b, c | b in Layout(pages, levels, l) && c in Layout(pages, levels, l)
                          && b.lvl == c.lvl && b.lvl + 1 < levels :: b == c
    decreases levels - l
  {
    BaseNest(pages, l, l);
    if l + 1 == levels {
      TopBlocksLaid(Base(pages, l), l);
    } else {
      LayoutLaid(pages, levels, l + 1);
      BaseStep(pages, l);
      var n := Base(pages, l + 1);
      BaseNest(pages, l + 1, l + 1);
      BaseUpper(n, l);
      if Base(pages, l) != n {
        ExtendLaid(n, Layout(pages, levels, l + 1), l);
      } else {
        assert Layout(pages, levels, l) == Layout(pages, levels, l + 1);
      }
    }
  }

  function Fresh(pages: nat, levels: nat): State
    requires levels > 0
  {
    State(pages, levels, Layout(pages, levels, 0), {})
  }

  lemma FreshInv(pages: nat, levels: nat)
    requires levels > 0
    ensures Inv(Fresh(pages, levels)) && NoPairs(Fresh(pages, levels))
  {
    var s := Fresh(pages, levels);
    LayoutLaid(pages, levels, 0);
    assert s.free + s.used == s.free;
    forall b | b in s.free && b.lvl + 1 < levels ensures Neighbour(b) !in s.free {
      NeighbourFacts(b);
    }
  }

  // ---- Runs ----

  /** One successful operation.  An allocation takes a block of the smallest level that
      suffices; which one of that level depends on the order of the list. */
  datatype Op = Alloc(l: nat, b: Blk) | Free(b: Blk)

  ghost predicate Enabled(s: State, op: Op, signed: bool) {
    match op
    case Alloc(l, b) =>
      && b in s.free && l <= b.lvl
      && forall c | c in s.free && l <= c.lvl :: b.lvl <= c.lvl
    case Free(b) => b in s.used && (signed ==> !TopBuddiesFree(s, b))
  }

  function Apply(s: State, op: Op, signed: bool): State {
    match op
    case Alloc(l, b) => Take(s, b, l)
    case Free(b) => Put(s, b, signed)
  }

  ghost predicate IsRun(states: seq<State>, ops: seq<Op>, signed: bool) {
    && |states| == |ops| + 1
    && forall i | 0 <= i < |ops| ::
         Enabled(states[i], ops[i], signed) && states[i + 1] == Apply(states[i], ops[i], signed)
  }

  /** In every state of every run, each page lies in exactly one aligned free or allocated
      block, and (char signed) the free blocks are the maximal aligned free runs. */
  lemma {:induction false} RunKeepsLayout(states: seq<State>, ops: seq<Op>, signed: bool, i: nat)
    requires IsRun(states, ops, signed) && i < |states|
    requires states[0].levels > 0 && states[0] == Fresh(states[0].pages, states[0].levels)
    ensures Inv(states[i]) && states[i].pages == states[0].pages && states[i].levels == states[0].levels
    ensures signed ==> NoPairs(states[i]) && Canonical(states[i])
  {
    if i == 0 {
      FreshInv(states[0].pages, states[0].levels);
    } else {
      RunKeepsLayout(states, ops, signed, i - 1);
      var s := states[i - 1];
      assert Enabled(s, ops[i - 1], signed) && states[i] == Apply(s, ops[i - 1], signed);
      match ops[i - 1]
      case Alloc(l, b) => TakeKeepsInv(s, b, l);
      case Free(b) =>
        if signed { MergeOverrunsIff(s, b); }
        PutKeepsInv(s, b, signed);
        if signed { PutCanonicalIff(s, b, signed); }
    }
    if signed { CanonicalIffNoPairs(states[i]); }
  }

  /** Once everything has been freed, in whatever order, the initial layout is back. */
  lemma RunBackToFresh(states: seq<State>, ops: seq<Op>)
    requires IsRun(states, ops, true)
    requires states[0].levels > 0 && states[0] == Fresh(states[0].pages, states[0].levels)
    ensures forall i | 0 <= i < |states| && states[i].used == {} :: states[i] == states[0]
  {
    forall i | 0 <= i < |states| && states[i].used == {} ensures states[i] == states[0] {
      RunKeepsLayout(states, ops, true, i);
      FreshInv(states[0].pages, states[0].levels);
      CanonicalUnique(states[i], states[0]);
    }
  }

  // ---- What goes wrong as built ----

  /** With an unsigned char table, allocating one page of two and freeing it leaves two
      single pages: both pages are free, yet no block of two can be given out again. */
  lemma UnsignedTableFragments()
    ensures var s := State(2, 2, {Blk(0, 1)}, {});
            var t := Put(Take(s, Blk(0, 1), 0), Blk(0, 0), false);
            && s.free == Fresh(2, 2).free && t.used == {} && t.free == {Blk(0, 0), Blk(1, 0)}
            && !Canonical(t)
  {
    var s := State(2, 2, {Blk(0, 1)}, {});
    var u := Take(s, Blk(0, 1), 0);
    var t := Put(u, Blk(0, 0), false);
    assert Base(2, 1) == 2 && Base(2, 0) == 2 && Pow2(1) == 2 && Pow2(0) == 1;
    assert TopBlocks(0, 1) == {};
    assert TopBlocks(2, 1) == {Blk(0, 1)};
    assert Fresh(2, 2).free == {Blk(0, 1)};
    assert Remainder(0, 1, 0) == {Blk(1, 0)};
    assert u.free == {Blk(1, 0)} && u.used == {Blk(0, 0)};
    assert t.free == {Blk(0, 0), Blk(1, 0)};
    FreshInv(2, 2);
    assert s.used == Fresh(2, 2).used;
    TakeKeepsInv(s, Blk(0, 1), 0);
    PutKeepsInv(u, Blk(0, 0), false);
    PutCanonicalIff(u, Blk(0, 0), false);
    CanonicalIffNoPairs(t);
  }

  /** With 2^levels pages or more, a fresh allocator starts with a top-level block. */
  lemma FirstTopBlock(pages: nat, levels: nat)
    requires levels > 0 && pages >= Pow2(levels)
    ensures Blk(0, levels - 1) in Fresh(pages, levels).free
  {
    var s, b := Fresh(pages, levels), Blk(0, levels - 1);
    FreshInv(pages, levels);
    PagesAreComplement(s);
    BaseBounds(0, levels - 1);
    Pow2Grows(levels - 1, levels);
    var c := FreeRunInBlock(s, b);
    FreeWithin(s, c);
    assert In(0, b) && In(0, c);
    Nested(b, c, 0);
  }

  /** A run of a fresh allocator that ends where freeing b would use a list past the last. */
  ghost predicate ReachesOverrun(pages: nat, levels: nat, states: seq<State>, ops: seq<Op>, b: Blk)
    requires levels > 0
  {
    && IsRun(states, ops, true) && states[0] == Fresh(pages, levels)
    && b in states[|ops|].used && TopBuddiesFree(states[|ops|], b)
  }

  /** With signed char, some run reaches such a free exactly when there are 2^levels pages or
      more. */
  lemma OverrunIff(pages: nat, levels: nat)
    requires levels > 0
    ensures pages >= Pow2(levels) <==> exists states, ops, b :: ReachesOverrun(pages, levels, states, ops, b)
  {
    if pages >= Pow2(levels) {
      var s, b := Fresh(pages, levels), Blk(0, levels - 1);
      var t := Take(s, b, levels - 1);
      FirstTopBlock(pages, levels);
      FreshInv(pages, levels);
      PagesAreComplement(s);
      TakePages(s, b, levels - 1);
      BaseBounds(0, levels);
      assert b in t.used && TopBuddiesFree(t, b);
      assert ReachesOverrun(pages, levels, [s, t], [Alloc(levels - 1, b)], b);
    }
    forall states, ops, b | ReachesOverrun(pages, levels, states, ops, b) ensures pages >= Pow2(levels) {
      RunKeepsLayout(states, ops, true, |ops|);
    }
  }

  // ---- Without merging ----

  lemma {:induction false} RemainderSize(start: nat, hi: nat, lo: nat)
    requires lo <= hi && Base(start, hi) == start
    ensures |Remainder(start, hi, lo)| == hi - lo
    decreases hi
  {
    if lo < hi {
      AlignedBelow(start, hi - 1, hi);
      RemainderSize(start, hi - 1, lo);
      RemainderFacts(start, hi - 1, lo);
    }
  }

  ghost function AllBlocks(s: State): set<Blk> {
    s.free + s.used
  }

  lemma ThreeParts(rest: set<Blk>, rem: set<Blk>, u: Blk)
    requires rem !! rest && u !in rest + rem
    ensures |rest + rem + {u}| == |rest| + |rem| + 1
  {}

  lemma SplitCount(pages: nat, rest: set<Blk>, b: Blk, l: nat)
    requires l <= b.lvl && b !in rest && Laid(pages, rest + {b}) && Base(b.start, b.lvl) == b.start
    ensures |rest + Remainder(b.start, b.lvl, l) + {Blk(b.start, l)}| == |rest| + (b.lvl - l) + 1
  {
    SplitLaid(pages, rest, b.start, b.lvl, l);
    RemainderSize(b.start, b.lvl, l);
    ThreeParts(rest, Remainder(b.start, b.lvl, l), Blk(b.start, l));
  }

  lemma TakeBlocks(s: State, b: Blk, l: nat)
    requires b in s.free && b !in s.used
    ensures AllBlocks(s) == AllBlocks(s) - {b} + {b}
    ensures AllBlocks(Take(s, b, l)) == AllBlocks(s) - {b} + Remainder(b.start, b.lvl, l) + {Blk(b.start, l)}
  {}

  /** A split adds one block per level. */
  lemma TakeCount(s: State, b: Blk, l: nat)
    requires Inv(s) && b in s.free && l <= b.lvl
    ensures |AllBlocks(Take(s, b, l))| == |AllBlocks(s)| + (b.lvl - l)
    ensures l == b.lvl ==> AllBlocks(Take(s, b, l)) == AllBlocks(s)
  {
    assert b in s.free + s.used && Fits(s.pages, b);
    TakeBlocks(s, b, l);
    SplitCount(s.pages, AllBlocks(s) - {b}, b, l);
  }

  /** How many halves the allocations among the first i operations have cut off. */
  function Splits(ops: seq<Op>, i: nat): nat
    requires i <= |ops|
  {
    if i == 0 then 0
    else
      var op := ops[i - 1];
      Splits(ops, i - 1) + if op.Alloc? && op.l < op.b.lvl then op.b.lvl - op.l else 0
  }

  lemma UnmergedStep(s: State, op: Op)
    requires Inv(s) && Enabled(s, op, false)
    ensures var t := Apply(s, op, false);
            && |AllBlocks(t)| == |AllBlocks(s)| + (if op.Alloc? then op.b.lvl - op.l else 0)
            && (|AllBlocks(t)| == |AllBlocks(s)| ==> AllBlocks(t) == AllBlocks(s))
            && t.pages == s.pages && t.levels == s.levels
  {
    match op
    case Alloc(l, b) => TakeCount(s, b, l);
    case Free(b) => assert AllBlocks(Apply(s, op, false)) == AllBlocks(s);
  }

  lemma {:induction false} UnmergedRun(states: seq<State>, ops: seq<Op>, i: nat)
    requires IsRun(states, ops, false) && i < |states| && forall j | 0 <= j < i :: Inv(states[j])
    ensures |AllBlocks(states[i])| == |AllBlocks(states[0])| + Splits(ops, i)
    ensures Splits(ops, i) == 0 ==> AllBlocks(states[i]) == AllBlocks(states[0])
    ensures states[i].pages == states[0].pages && states[i].levels == states[0].levels
  {
    if i > 0 {
      UnmergedRun(states, ops, i - 1);
      UnmergedStep(states[i - 1], ops[i - 1]);
    }
  }

  /** With an unsigned char table, once everything has been freed the initial layout is back
      exactly when no allocation on the way split a block. */
  lemma UnsignedBackToFreshIff(states: seq<State>, ops: seq<Op>, i: nat)
    requires IsRun(states, ops, false) && i < |states| && states[i].used == {}
    requires states[0].levels > 0 && states[0] == Fresh(states[0].pages, states[0].levels)
    ensures states[i] == states[0] <==> Splits(ops, i) == 0
  {
    forall j | 0 <= j < i ensures Inv(states[j]) {
      RunKeepsLayout(states, ops, false, j);
    }
    UnmergedRun(states, ops, i);
    assert AllBlocks(states[i]) == states[i].free && AllBlocks(states[0]) == states[0].free;
  }
}
