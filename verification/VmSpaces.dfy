/** Process isolation: every process has the pages below its size to itself, through any
    sequence of creating, growing, shrinking, copying, writing and destroying address spaces. */
module VmSpaces {
  import opened PageTable
  import opened VmSpec
  import opened VmTables
  import opened VmFree
  import Vm

  /** The size of every address space, by its root. */
  type Sizes = map<nat, nat>

  /** Page v of space r: below the size a data page with some access, above it nothing. */
  ghost predicate PageAt(s: Snap, sizes: Sizes, r: nat, v: nat)
    requires r in sizes
  {
    var e := Trans(s.mem, r, v);
    if v < RoundUp(sizes[r]) then e != 0 && !NoAccess(e) && PTE2PA(e) in s.data else e == 0
  }

  /** Two different pages, of one space or of two, are not the same physical page. */
  ghost predicate NotShared(mem: Mem, r: nat, v: nat, q: nat, w: nat) {
    (r, v) != (q, w) && Trans(mem, r, v) != 0 && Trans(mem, q, w) != 0 ==>
      PTE2PA(Trans(mem, r, v)) != PTE2PA(Trans(mem, q, w))
  }

  ghost predicate SpaceOk(s: Snap, sizes: Sizes, r: nat)
    requires r in sizes
  {
    IsRoot(s.roles, r) && sizes[r] <= MAXPAGES * PGSIZE
  }

  ghost predicate Isolated(s: Snap, sizes: Sizes) {
    && (forall r: nat {:trigger SpaceOk(s, sizes, r)} | r in sizes :: SpaceOk(s, sizes, r))
    && (forall r: nat, v: nat {:trigger PageAt(s, sizes, r, v)} | r in sizes :: PageAt(s, sizes, r, v))
    && (forall r: nat, v: nat, q: nat, w: nat {:trigger NotShared(s.mem, r, v, q, w)} | r in sizes && q in sizes ::
          NotShared(s.mem, r, v, q, w))
  }

  // ---- What isolation gives ----

  lemma SpaceOwned(s: Snap, sizes: Sizes, r: nat, lo: nat, hi: nat)
    requires Isolated(s, sizes) && r in sizes
    ensures Owned(s.mem, s.data, r, lo, hi)
  {
    forall w | lo <= w < hi ensures OwnedAt(s.mem, s.data, r, w) {
      assert PageAt(s, sizes, r, w);
    }
    forall v, w | lo <= v < hi && lo <= w < hi ensures Apart(s.mem, r, v, w) {
      assert NotShared(s.mem, r, v, r, w);
    }
  }

  lemma SpaceRemovable(s: Snap, sizes: Sizes, r: nat, lo: nat, hi: nat)
    requires Isolated(s, sizes) && r in sizes && hi <= RoundUp(sizes[r])
    ensures Removable(s.mem, r, lo, hi)
  {
    forall w | lo <= w < hi ensures RemovableAt(s.mem, r, w) {
      assert PageAt(s, sizes, r, w);
      if Flags(Trans(s.mem, r, w)) == PTE_V {
        FlagsKind(Trans(s.mem, r, w));
      }
    }
  }

  lemma SpaceVacant(s: Snap, sizes: Sizes, r: nat, lo: nat, hi: nat)
    requires Isolated(s, sizes) && r in sizes && RoundUp(sizes[r]) <= lo
    ensures Vacant(s.mem, r, lo, hi)
  {
    forall w | lo <= w < hi ensures VacantAt(s.mem, r, w) {
      assert PageAt(s, sizes, r, w);
    }
  }

  lemma SpaceLeaves(s: Snap, sizes: Sizes, r: nat)
    requires Isolated(s, sizes) && r in sizes
    ensures LeavesOk(s.mem, r)
  {
    forall v: nat ensures LeafAt(s.mem, r, v) {
      assert PageAt(s, sizes, r, v);
    }
  }

  lemma SpaceUser(s: Snap, sizes: Sizes, r: nat)
    requires Isolated(s, sizes) && r in sizes && PagesOk(s.mem, s.data, s.free)
    ensures UserOk(s.mem, s.data, r)
  {
    forall v: nat ensures UserAt(s.mem, s.data, r, v) {
      assert PageAt(s, sizes, r, v);
      assert UserPage(s.mem, r, v) in s.data ==> DataOk(s.mem, s.data, UserPage(s.mem, r, v));
    }
    forall v: nat, w: nat ensures UserApart(s.mem, r, v, w) {
      assert NotShared(s.mem, r, v, r, w);
    }
  }

  // ---- Another space is left alone ----

  ghost predicate SamePage(a: Snap, b: Snap, q: nat, v: nat) {
    var e := Trans(a.mem, q, v);
    Trans(b.mem, q, v) == e && (e != 0 ==> var p := PTE2PA(e); p in a.data && p in b.data && b.data[p] == a.data[p])
  }

  /** Every translation and every byte of space q is the same. */
  ghost predicate SameSpace(a: Snap, b: Snap, q: nat) {
    forall v: nat {:trigger SamePage(a, b, q, v)} :: SamePage(a, b, q, v)
  }

  /** What changes only one space keeps the others isolated, if that one is in order. */
  lemma OneSpace(a: Snap, b: Snap, sizes: Sizes, root: nat, sz: nat)
    requires Isolated(a, sizes) && RootsKept(a, b) && IsRoot(b.roles, root) && sz <= MAXPAGES * PGSIZE
    requires forall q: nat | q in sizes && q != root :: SameSpace(a, b, q)
    requires forall v: nat {:trigger PageAt(b, sizes[root := sz], root, v)} :: PageAt(b, sizes[root := sz], root, v)
    requires forall v: nat, q: nat, w: nat {:trigger NotShared(b.mem, root, v, q, w)} | q in sizes || q == root ::
               NotShared(b.mem, root, v, q, w)
    ensures Isolated(b, sizes[root := sz])
  {
    var sizes' := sizes[root := sz];
    forall r: nat | r in sizes' ensures SpaceOk(b, sizes', r) {
      assert r != root ==> SpaceOk(a, sizes, r);
    }
    forall r: nat, v: nat | r in sizes' ensures PageAt(b, sizes', r, v) {
      if r != root {
        assert SameSpace(a, b, r) && SamePage(a, b, r, v) && PageAt(a, sizes, r, v);
      }
    }
    forall r: nat, v: nat, q: nat, w: nat | r in sizes' && q in sizes' ensures NotShared(b.mem, r, v, q, w) {
      if r != root && q != root {
        assert SamePage(a, b, r, v) && SamePage(a, b, q, w) && NotShared(a.mem, r, v, q, w);
      } else if r != root {
        assert NotShared(b.mem, root, w, r, v);
      } else {
        assert NotShared(b.mem, root, v, q, w);
      }
    }
  }

  // ---- Growing and copying ----

  ghost predicate AccessAt(flags: seq<nat>, i: nat)
    requires i < |flags|
  {
    !NoAccess(flags[i])
  }

  lemma AccessOf(pa: nat, flags: nat)
    requires flags < 1024
    ensures NoAccess(MakePte(pa, flags)) <==> NoAccess(flags)
  {
    var n, q, r := pa / PGSIZE, flags / 16, flags % 16;
    LowBits(flags, q, r);
    LowBits(n * 1024 + flags, n * 64 + q, r);
  }

  lemma BuiltOthers(a: Snap, b: Snap, sizes: Sizes, root: nat, lo: nat, pas: seq<nat>, contents: seq<seq<nat>>,
                    flags: seq<nat>, q: nat)
    requires Isolated(a, sizes) && Built(a, b, root, lo, pas, contents, flags) && q in sizes && q != root
    ensures SameSpace(a, b, q)
  {
    forall v: nat ensures SamePage(a, b, q, v) {
      assert SpaceOk(a, sizes, q) && PageAt(a, sizes, q, v);
      assert EditedAt(a.mem, b.mem, root, lo, PtesOf(pas, flags), q, v);
    }
  }

  /** A page of the space that was built on is an old one, or one of the fresh ones. */
  lemma BuiltPage(a: Snap, b: Snap, sizes: Sizes, root: nat, pas: seq<nat>, contents: seq<seq<nat>>, flags: seq<nat>,
                  v: nat)
    requires Isolated(a, sizes) && root in sizes && PagesOk(b.mem, b.data, b.free)
    requires Built(a, b, root, RoundUp(sizes[root]), pas, contents, flags)
    ensures var n, e := RoundUp(sizes[root]), Trans(b.mem, root, v);
            && (v < n ==> e == Trans(a.mem, root, v) != 0 && PTE2PA(e) in a.data && PTE2PA(e) in b.data && !NoAccess(e))
            && (n <= v < n + |pas| ==> e == MakePte(pas[v - n], flags[v - n]) && e != 0 && PTE2PA(e) == pas[v - n]
                                       && pas[v - n] in b.data && pas[v - n] !in a.data && flags[v - n] < 1024)
            && (v >= n + |pas| ==> e == 0)
  {
    var n := RoundUp(sizes[root]);
    assert SpaceOk(a, sizes, root) && PageAt(a, sizes, root, v);
    assert EditedAt(a.mem, b.mem, root, n, PtesOf(pas, flags), root, v);
    if n <= v < n + |pas| {
      BuiltAt(a, b, root, n, pas, contents, flags, v - n, v);
      assert pas[v - n] in Elems(pas) && LeafFlags(flags, v - n);
    }
  }

  lemma BuiltNotShared(a: Snap, b: Snap, sizes: Sizes, root: nat, pas: seq<nat>, contents: seq<seq<nat>>,
                       flags: seq<nat>,
                       v: nat, q: nat, w: nat)
    requires Isolated(a, sizes) && root in sizes && q in sizes && PagesOk(b.mem, b.data, b.free)
    requires Built(a, b, root, RoundUp(sizes[root]), pas, contents, flags)
    ensures NotShared(b.mem, root, v, q, w)
  {
    var n := RoundUp(sizes[root]);
    BuiltPage(a, b, sizes, root, pas, contents, flags, v);
    assert NotShared(a.mem, root, v, q, w);
    if q == root {
      BuiltPage(a, b, sizes, root, pas, contents, flags, w);
      assert n <= v < n + |pas| && n <= w < n + |pas| ==> Different(pas, v - n, w - n);
    } else {
      BuiltOthers(a, b, sizes, root, n, pas, contents, flags, q);
      assert SamePage(a, b, q, w) && PageAt(a, sizes, q, w);
    }
  }

  /** uvmalloc and uvmcopy: the space has grown by pages that no space had. */
  lemma BuiltIsolated(a: Snap, b: Snap, sizes: Sizes, root: nat, pas: seq<nat>, contents: seq<seq<nat>>,
                      flags: seq<nat>, sz: nat)
    requires Isolated(a, sizes) && root in sizes && PagesOk(b.mem, b.data, b.free)
    requires Built(a, b, root, RoundUp(sizes[root]), pas, contents, flags)
    requires forall i: nat {:trigger AccessAt(flags, i)} | i < |flags| :: AccessAt(flags, i)
    requires sz <= MAXPAGES * PGSIZE && RoundUp(sz) == RoundUp(sizes[root]) + |pas|
    ensures Isolated(b, sizes[root := sz])
    ensures forall q: nat | q in sizes && q != root :: SameSpace(a, b, q)
  {
    var n, sizes' := RoundUp(sizes[root]), sizes[root := sz];
    assert SpaceOk(a, sizes, root);
    forall q: nat | q in sizes && q != root ensures SameSpace(a, b, q) {
      BuiltOthers(a, b, sizes, root, n, pas, contents, flags, q);
    }
    forall v: nat ensures PageAt(b, sizes', root, v) {
      BuiltPage(a, b, sizes, root, pas, contents, flags, v);
      if n <= v < n + |pas| {
        assert AccessAt(flags, v - n);
        AccessOf(pas[v - n], flags[v - n]);
      }
    }
    forall v: nat, q: nat, w: nat | q in sizes || q == root ensures NotShared(b.mem, root, v, q, w) {
      BuiltNotShared(a, b, sizes, root, pas, contents, flags, v, q, w);
    }
    OneSpace(a, b, sizes, root, sz);
  }

  /** A step that only adds table pages. */
  lemma IntactIsolated(a: Snap, b: Snap, sizes: Sizes, root: nat, lo: nat)
    requires Isolated(a, sizes) && Intact(a, b, root, lo)
    ensures Isolated(b, sizes) && forall q: nat | q in sizes :: SameSpace(a, b, q)
  {
    forall q: nat, v: nat | q in sizes ensures SamePage(a, b, q, v) {
      assert SpaceOk(a, sizes, q) && PageAt(a, sizes, q, v) && EditedAt(a.mem, b.mem, root, lo, [], q, v);
    }
    forall r: nat | r in sizes ensures SpaceOk(b, sizes, r) {
      assert SpaceOk(a, sizes, r);
    }
    forall r: nat, v: nat | r in sizes ensures PageAt(b, sizes, r, v) {
      assert SamePage(a, b, r, v) && PageAt(a, sizes, r, v);
    }
    forall r: nat, v: nat, q: nat, w: nat | r in sizes && q in sizes ensures NotShared(b.mem, r, v, q, w) {
      assert SamePage(a, b, r, v) && SamePage(a, b, q, w) && NotShared(a.mem, r, v, q, w);
    }
  }

  // ---- Shrinking ----

  /** The pages freed are in no other place. */
  lemma {:induction false} FreedElsewhere(a: Snap, sizes: Sizes, root: nat, lo: nat, hi: nat, q: nat, v: nat)
    requires Isolated(a, sizes) && root in sizes && q in sizes && Trans(a.mem, q, v) != 0 && (q != root || v < lo)
    requires hi <= RoundUp(sizes[root])
    ensures PTE2PA(Trans(a.mem, q, v)) in a.data
    ensures PTE2PA(Trans(a.mem, q, v)) !in Pages(a.mem, root, lo, hi)
    decreases hi
  {
    assert PageAt(a, sizes, q, v);
    if lo < hi {
      FreedElsewhere(a, sizes, root, lo, hi - 1, q, v);
      assert PageAt(a, sizes, root, hi - 1) && NotShared(a.mem, q, v, root, hi - 1);
    }
  }

  lemma UnmappedOthers(a: Snap, b: Snap, sizes: Sizes, root: nat, lo: nat, n: nat, q: nat)
    requires Isolated(a, sizes) && root in sizes && q in sizes && q != root
    requires Unmapped(a, b, root, lo, n, true) && lo + n == RoundUp(sizes[root])
    ensures SameSpace(a, b, q)
  {
    assert SpaceOk(a, sizes, q);
    forall v: nat ensures SamePage(a, b, q, v) {
      assert EditedAt(a.mem, b.mem, root, lo, Blank(n), q, v);
      if Trans(a.mem, q, v) != 0 {
        FreedElsewhere(a, sizes, root, lo, lo + n, q, v);
      }
    }
  }

  lemma UnmappedPage(a: Snap, b: Snap, sizes: Sizes, root: nat, lo: nat, n: nat, v: nat)
    requires Isolated(a, sizes) && root in sizes && Unmapped(a, b, root, lo, n, true) && lo + n == RoundUp(sizes[root])
    ensures v < lo ==> SamePage(a, b, root, v)
    ensures v >= lo ==> Trans(b.mem, root, v) == 0
  {
    assert SpaceOk(a, sizes, root) && PageAt(a, sizes, root, v);
    assert EditedAt(a.mem, b.mem, root, lo, Blank(n), root, v);
    if v < lo {
      FreedElsewhere(a, sizes, root, lo, lo + n, root, v);
    }
  }

  /** uvmdealloc. */
  lemma UnmappedIsolated(a: Snap, b: Snap, sizes: Sizes, root: nat, lo: nat, n: nat, sz: nat)
    requires Isolated(a, sizes) && root in sizes && Unmapped(a, b, root, lo, n, true) && lo + n == RoundUp(sizes[root])
    requires sz <= MAXPAGES * PGSIZE && RoundUp(sz) == lo
    ensures Isolated(b, sizes[root := sz])
    ensures forall q: nat | q in sizes && q != root :: SameSpace(a, b, q)
    ensures forall v: nat | v < lo :: SamePage(a, b, root, v)
  {
    var sizes' := sizes[root := sz];
    assert SpaceOk(a, sizes, root);
    forall q: nat | q in sizes && q != root ensures SameSpace(a, b, q) {
      UnmappedOthers(a, b, sizes, root, lo, n, q);
    }
    forall v: nat ensures v < lo ==> SamePage(a, b, root, v)
      ensures PageAt(b, sizes', root, v)
    {
      UnmappedPage(a, b, sizes, root, lo, n, v);
      assert PageAt(a, sizes, root, v);
    }
    forall v: nat, q: nat, w: nat | q in sizes || q == root ensures NotShared(b.mem, root, v, q, w) {
      UnmappedPage(a, b, sizes, root, lo, n, v);
      if q == root {
        UnmappedPage(a, b, sizes, root, lo, n, w);
      } else {
        assert SameSpace(a, b, q) && SamePage(a, b, q, w);
      }
      assert NotShared(a.mem, root, v, q, w);
    }
    OneSpace(a, b, sizes, root, sz);
  }

  // ---- Creating, destroying and writing ----

  /** uvmcreate. */
  lemma CreatedIsolated(a: Snap, b: Snap, sizes: Sizes, root: nat)
    requires Isolated(a, sizes) && root !in sizes && Grown(a, b) && IsRoot(b.roles, root)
    requires forall v: nat {:trigger VacantAt(b.mem, root, v)} :: VacantAt(b.mem, root, v)
    ensures Isolated(b, sizes[root := 0]) && forall q: nat | q in sizes :: SameSpace(a, b, q)
  {
    var sizes' := sizes[root := 0];
    GrownEdits(a, b, 0, 0);
    IntactIsolated(a, b, sizes, 0, 0);
    forall v: nat ensures PageAt(b, sizes', root, v) {
      assert VacantAt(b.mem, root, v);
    }
    forall v: nat, q: nat, w: nat | q in sizes || q == root ensures NotShared(b.mem, root, v, q, w) {
      assert VacantAt(b.mem, root, v);
    }
    OneSpace(a, b, sizes, root, 0);
  }

  lemma DestroyedOthers(a: Snap, b: Snap, sizes: Sizes, root: nat, q: nat)
    requires Isolated(a, sizes) && root in sizes && root in a.roles && q in sizes && q != root
    requires Destroyed(a, b, root, RoundUp(sizes[root]))
    ensures SameSpace(a, b, q)
  {
    assert SpaceOk(a, sizes, q);
    forall v: nat ensures SamePage(a, b, q, v) {
      assert SameTrans(a.mem, b.mem, q, v);
      if Trans(a.mem, q, v) != 0 {
        FreedElsewhere(a, sizes, root, 0, RoundUp(sizes[root]), q, v);
      }
    }
  }

  /** uvmfree. */
  lemma DestroyedIsolated(a: Snap, b: Snap, sizes: Sizes, root: nat)
    requires Isolated(a, sizes) && root in sizes && root in a.roles && Destroyed(a, b, root, RoundUp(sizes[root]))
    ensures Isolated(b, sizes - {root}) && forall q: nat | q in sizes && q != root :: SameSpace(a, b, q)
  {
    var sizes' := sizes - {root};
    forall q: nat | q in sizes' ensures SameSpace(a, b, q) && SpaceOk(b, sizes', q) {
      DestroyedOthers(a, b, sizes, root, q);
      assert SpaceOk(a, sizes, q) && SpaceOk(a, sizes, root);
    }
    forall r: nat, v: nat | r in sizes' ensures PageAt(b, sizes', r, v) {
      assert SameSpace(a, b, r) && SamePage(a, b, r, v) && PageAt(a, sizes, r, v);
    }
    forall r: nat, v: nat, q: nat, w: nat | r in sizes' && q in sizes' ensures NotShared(b.mem, r, v, q, w) {
      assert SameSpace(a, b, r) && SameSpace(a, b, q) && SamePage(a, b, r, v) && SamePage(a, b, q, w);
      assert NotShared(a.mem, r, v, q, w);
    }
  }

  /** copyout into one space changes no byte of another. */
  lemma WrittenIsolated(a: Snap, b: Snap, sizes: Sizes, root: nat, va: nat, bytes: seq<nat>)
    requires Isolated(a, sizes) && root in sizes && b == a.(data := b.data)
    requires Written(a.mem, a.data, b.data, root, va, bytes) && PagesOk(a.mem, a.data, a.free)
    ensures Isolated(b, sizes) && forall q: nat | q in sizes && q != root :: SameSpace(a, b, q)
  {
    forall r: nat, v: nat | r in sizes ensures PageAt(b, sizes, r, v) {
      assert PageAt(a, sizes, r, v);
    }
    forall r: nat | r in sizes ensures SpaceOk(b, sizes, r) {
      assert SpaceOk(a, sizes, r);
    }
    forall r: nat, v: nat, q: nat, w: nat | r in sizes && q in sizes ensures NotShared(b.mem, r, v, q, w) {
      assert NotShared(a.mem, r, v, q, w);
    }
    forall q: nat | q in sizes && q != root ensures SameSpace(a, b, q) {
      forall v: nat ensures SamePage(a, b, q, v) {
        WrittenElsewhere(a, b, sizes, root, va, bytes, q, v);
      }
    }
  }

  lemma WrittenElsewhere(a: Snap, b: Snap, sizes: Sizes, root: nat, va: nat, bytes: seq<nat>, q: nat, v: nat)
    requires Isolated(a, sizes) && root in sizes && q in sizes && q != root && b == a.(data := b.data)
    requires Written(a.mem, a.data, b.data, root, va, bytes) && PagesOk(a.mem, a.data, a.free)
    ensures SamePage(a, b, q, v)
  {
    var e := Trans(a.mem, q, v);
    assert PageAt(a, sizes, q, v);
    if e != 0 {
      var p := PTE2PA(e);
      assert PageKept(a.mem, a.data, b.data, root, p) && DataOk(a.mem, a.data, p);
      forall w: nat ensures UserPage(a.mem, root, w) != p {
        assert NotShared(a.mem, q, v, root, w) && PageAt(a, sizes, root, w);
      }
    }
  }

  // ---- Nothing is lost ----

  ghost predicate MapsTo(mem: Mem, r: nat, v: nat, p: nat) {
    Trans(mem, r, v) != 0 && PTE2PA(Trans(mem, r, v)) == p
  }

  /** Physical page p is in some space. */
  ghost predicate HasPage(mem: Mem, sizes: Sizes, p: nat) {
    exists r: nat, v: nat {:trigger MapsTo(mem, r, v, p)} :: r in sizes && MapsTo(mem, r, v, p)
  }

  ghost predicate HasTable(roles: Roles, sizes: Sizes, p: nat)
    requires p in roles
  {
    roles[p].root in sizes
  }

  /** Every data page is in some space, and every table is that of some space. */
  ghost predicate NoStray(s: Snap, sizes: Sizes) {
    && (forall p {:trigger HasPage(s.mem, sizes, p)} | p in s.data :: HasPage(s.mem, sizes, p))
    && (forall p {:trigger HasTable(s.roles, sizes, p)} | p in s.roles :: HasTable(s.roles, sizes, p))
  }

  /** The pages of the machine. */
  ghost function All(s: Snap): set<nat> {
    s.free + s.data.Keys + s.mem.Keys
  }

  lemma RolesGrowTables(a: Snap, b: Snap, sizes: Sizes, sizes': Sizes, root: nat)
    requires NoStray(a, sizes) && RolesGrow(a.roles, b.roles, root) && sizes.Keys + {root} == sizes'.Keys
    ensures forall p | p in b.roles :: HasTable(b.roles, sizes', p)
  {
    forall p | p in b.roles ensures HasTable(b.roles, sizes', p) {
      assert p in a.roles ==> HasTable(a.roles, sizes, p);
    }
  }

  /** uvmalloc and uvmcopy. */
  lemma BuiltNoStray(a: Snap, b: Snap, sizes: Sizes, root: nat, pas: seq<nat>, contents: seq<seq<nat>>,
                     flags: seq<nat>, sz: nat)
    requires Isolated(a, sizes) && NoStray(a, sizes) && root in sizes && PagesOk(b.mem, b.data, b.free)
    requires Built(a, b, root, RoundUp(sizes[root]), pas, contents, flags) && RolesGrow(a.roles, b.roles, root)
    ensures NoStray(b, sizes[root := sz]) && All(b) == All(a)
  {
    var sizes' := sizes[root := sz];
    RolesGrowTables(a, b, sizes, sizes', root);
    forall p | p in b.data ensures HasPage(b.mem, sizes', p) {
      BuiltHasPage(a, b, sizes, root, pas, contents, flags, p);
      var r: nat, v: nat :| r in sizes && MapsTo(b.mem, r, v, p);
      assert r in sizes';
    }
    forall p | p in Elems(pas) ensures p in b.data {
      var i: nat :| i < |pas| && pas[i] == p;
      assert HoldsAt(b.data, pas, contents, i);
    }
  }

  lemma BuiltHasPage(a: Snap, b: Snap, sizes: Sizes, root: nat, pas: seq<nat>, contents: seq<seq<nat>>,
                     flags: seq<nat>, p: nat)
    requires Isolated(a, sizes) && NoStray(a, sizes) && root in sizes && PagesOk(b.mem, b.data, b.free)
    requires Built(a, b, root, RoundUp(sizes[root]), pas, contents, flags) && p in b.data
    ensures HasPage(b.mem, sizes, p)
  {
    var n := RoundUp(sizes[root]);
    if p in Elems(pas) {
      var i: nat :| i < |pas| && pas[i] == p;
      BuiltPage(a, b, sizes, root, pas, contents, flags, n + i);
      assert MapsTo(b.mem, root, n + i, p);
    } else {
      assert HasPage(a.mem, sizes, p);
      var r: nat, v: nat :| r in sizes && MapsTo(a.mem, r, v, p);
      assert PageAt(a, sizes, r, v);
      if r == root {
        BuiltPage(a, b, sizes, root, pas, contents, flags, v);
      } else {
        BuiltOthers(a, b, sizes, root, n, pas, contents, flags, r);
        assert SamePage(a, b, r, v);
      }
      assert MapsTo(b.mem, r, v, p);
    }
  }

  /** Steps that take no data page: uvmcreate, and uvmalloc or uvmcopy that failed. */
  lemma IntactNoStray(a: Snap, b: Snap, sizes: Sizes, sizes': Sizes, root: nat, lo: nat)
    requires Isolated(a, sizes) && NoStray(a, sizes) && Intact(a, b, root, lo) && RolesGrow(a.roles, b.roles, root)
    requires sizes.Keys + {root} == sizes'.Keys
    ensures NoStray(b, sizes') && All(b) == All(a)
  {
    RolesGrowTables(a, b, sizes, sizes', root);
    forall p | p in b.data ensures HasPage(b.mem, sizes', p) {
      assert HasPage(a.mem, sizes, p);
      var r: nat, v: nat :| r in sizes && MapsTo(a.mem, r, v, p);
      assert SpaceOk(a, sizes, r) && EditedAt(a.mem, b.mem, root, lo, [], r, v);
      assert r in sizes.Keys && MapsTo(b.mem, r, v, p);
    }
  }

  lemma {:induction false} PagesHave(a: Snap, sizes: Sizes, root: nat, lo: nat, hi: nat)
    requires Isolated(a, sizes) && root in sizes && hi <= RoundUp(sizes[root])
    ensures Pages(a.mem, root, lo, hi) <= a.data.Keys
    ensures forall v: nat | lo <= v < hi :: PTE2PA(Trans(a.mem, root, v)) in Pages(a.mem, root, lo, hi)
    decreases hi
  {
    if lo < hi {
      PagesHave(a, sizes, root, lo, hi - 1);
      assert PageAt(a, sizes, root, hi - 1);
    }
  }

  /** uvmdealloc. */
  lemma UnmappedNoStray(a: Snap, b: Snap, sizes: Sizes, root: nat, lo: nat, n: nat, sz: nat)
    requires Isolated(a, sizes) && NoStray(a, sizes) && root in sizes
    requires Unmapped(a, b, root, lo, n, true) && lo + n == RoundUp(sizes[root])
    ensures NoStray(b, sizes[root := sz]) && All(b) == All(a)
  {
    var sizes' := sizes[root := sz];
    PagesHave(a, sizes, root, lo, lo + n);
    RolesGrowTables(a, b, sizes, sizes', root);
    forall p | p in b.data ensures HasPage(b.mem, sizes', p) {
      assert HasPage(a.mem, sizes, p);
      var r: nat, v: nat :| r in sizes && MapsTo(a.mem, r, v, p);
      assert SpaceOk(a, sizes, r) && PageAt(a, sizes, r, v) && EditedAt(a.mem, b.mem, root, lo, Blank(n), r, v);
      assert r in sizes' && MapsTo(b.mem, r, v, p);
    }
  }

  /** uvmfree. */
  lemma DestroyedNoStray(a: Snap, b: Snap, sizes: Sizes, root: nat)
    requires Isolated(a, sizes) && NoStray(a, sizes) && root in sizes && IsRoot(a.roles, root)
    requires a.mem.Keys == a.roles.Keys && Destroyed(a, b, root, RoundUp(sizes[root]))
    ensures NoStray(b, sizes - {root}) && All(b) == All(a)
  {
    var sizes', n := sizes - {root}, RoundUp(sizes[root]);
    PagesHave(a, sizes, root, 0, n);
    forall p | p in b.roles ensures HasTable(b.roles, sizes', p) {
      assert p in a.roles && HasTable(a.roles, sizes, p);
    }
    forall p | p in b.data ensures HasPage(b.mem, sizes', p) {
      assert HasPage(a.mem, sizes, p);
      var r: nat, v: nat :| r in sizes && MapsTo(a.mem, r, v, p);
      assert SpaceOk(a, sizes, r) && PageAt(a, sizes, r, v) && SameTrans(a.mem, b.mem, r, v);
      assert r in sizes' && MapsTo(b.mem, r, v, p);
    }
  }

  /** The same pages are free, the same are data with the same bytes, the same are tables. */
  ghost predicate SamePages(a: Snap, b: Snap) {
    b.free == a.free && b.data == a.data && b.roles == a.roles
  }

  ghost predicate PageTally(a: Snap, b: Snap, p: nat) {
    && (p in a.mem ==> p in b.mem) && (p in b.mem && p !in a.mem ==> p in a.free)
    && (p in b.free <==> p in a.free && (p in b.mem ==> p in a.mem))
    && (p in b.data <==> p in a.data) && (p in a.data ==> b.data[p] == a.data[p])
  }

  /** Page by page: from a to b free pages have become tables, and that is all. */
  ghost predicate Tallied(a: Snap, b: Snap) {
    forall p: nat {:trigger PageTally(a, b, p)} :: PageTally(a, b, p)
  }

  lemma TallyOf(a: Snap, b: Snap)
    requires Accounted(a, b)
    ensures Tallied(a, b)
  {}

  lemma TallyThen(a: Snap, b: Snap, c: Snap)
    requires Tallied(a, b) && Tallied(b, c)
    ensures Tallied(a, c)
  {
    forall p: nat ensures PageTally(a, c, p) {
      assert PageTally(a, b, p) && PageTally(b, c, p);
    }
  }

  lemma TallyIs(a: Snap, b: Snap)
    requires Tallied(a, b)
    ensures Accounted(a, b)
  {
    forall p: nat
      ensures (p in a.mem ==> p in b.mem) && (p in b.mem && p !in a.mem ==> p in a.free)
      ensures p in b.free <==> p in a.free && (p in b.mem ==> p in a.mem)
      ensures (p in b.data <==> p in a.data) && (p in a.data ==> b.data[p] == a.data[p])
    {
      assert PageTally(a, b, p);
    }
  }

  /** Making a space and destroying it again gives all pages back. */
  lemma UndoneFree(a: Snap, b: Snap, c: Snap, sizes: Sizes, root: nat)
    requires NoStray(a, sizes) && root !in sizes && IsRoot(b.roles, root)
    requires Tallied(a, b) && RolesGrow(a.roles, b.roles, root) && Destroyed(b, c, root, 0)
    requires a.mem.Keys == a.roles.Keys && b.mem.Keys == b.roles.Keys
    ensures SamePages(a, c)
  {
    TallyIs(a, b);
    forall p | p in b.roles ensures p in Sub(b.roles, root) <==> p !in a.roles {
      assert p in a.roles ==> HasTable(a.roles, sizes, p);
    }
  }

  // ---- The address spaces of the processes ----

  /** Every space but one is the same. */
  ghost predicate OthersSame(a: Snap, b: Snap, sizes: Sizes, root: nat) {
    forall q: nat {:trigger SameSpace(a, b, q)} | q in sizes && q != root :: SameSpace(a, b, q)
  }

  ghost predicate ZeroAt(s: Snap, r: nat, v: nat) {
    PageBytes(s.mem, s.data, r, v) == ZeroPage()
  }

  ghost predicate CopyAt(a: Snap, b: Snap, src: nat, dst: nat, v: nat) {
    && PageBytes(b.mem, b.data, dst, v) == PageBytes(a.mem, a.data, src, v)
    && Flags(Trans(b.mem, dst, v)) == Flags(Trans(a.mem, src, v))
  }

  lemma GrowFlags(xperm: nat, n: nat)
    requires xperm in {0, PTE_W, PTE_X, PTE_W + PTE_X}
    ensures var flag := PTE_V + PTE_R + PTE_U + xperm; forall i: nat | i < n :: AccessAt(Repeat(n, flag), i)
  {}

  /** uvmalloc's success, for one space among many. */
  lemma GrownSpace(a: Snap, b: Snap, sizes: Sizes, root: nat, pas: seq<nat>, flag: nat, sz: nat)
    requires Isolated(a, sizes) && root in sizes && PagesOk(b.mem, b.data, b.free)
    requires Extended(a, b, root, RoundUp(sizes[root]), pas, flag)
    requires forall i: nat {:trigger AccessAt(Repeat(|pas|, flag), i)} | i < |pas| :: AccessAt(Repeat(|pas|, flag), i)
    requires sz <= MAXPAGES * PGSIZE && RoundUp(sz) == RoundUp(sizes[root]) + |pas|
    requires NoStray(a, sizes) && RolesGrow(a.roles, b.roles, root)
    ensures Isolated(b, sizes[root := sz]) && OthersSame(a, b, sizes, root)
    ensures NoStray(b, sizes[root := sz]) && All(b) == All(a)
    ensures forall v: nat | v < RoundUp(sizes[root]) :: SamePage(a, b, root, v)
    ensures forall v: nat | RoundUp(sizes[root]) <= v < RoundUp(sz) :: ZeroAt(b, root, v)
  {
    var n, contents, flags := RoundUp(sizes[root]), Repeat(|pas|, ZeroPage()), Repeat(|pas|, flag);
    BuiltIsolated(a, b, sizes, root, pas, contents, flags, sz);
    BuiltNoStray(a, b, sizes, root, pas, contents, flags, sz);
    forall v: nat | v < n ensures SamePage(a, b, root, v) {
      BuiltPage(a, b, sizes, root, pas, contents, flags, v);
      assert PTE2PA(Trans(a.mem, root, v)) !in Elems(pas);
    }
    forall v: nat | n <= v < RoundUp(sz) ensures ZeroAt(b, root, v) {
      BuiltPage(a, b, sizes, root, pas, contents, flags, v);
      assert HoldsAt(b.data, pas, contents, v - n);
    }
  }

  /** What the caller of uvmalloc sees. */
  lemma GrewSpace(a: Snap, b: Snap, sizes: Sizes, root: nat, pas: seq<nat>, xperm: nat, newsz: nat, sz: nat)
    requires Isolated(a, sizes) && root in sizes && PagesOk(b.mem, b.data, b.free) && newsz <= MAXPAGES * PGSIZE
    requires xperm in {0, PTE_W, PTE_X, PTE_W + PTE_X} && |pas| == Span(sizes[root], newsz)
    requires Extended(a, b, root, RoundUp(sizes[root]), pas, PTE_V + PTE_R + PTE_U + xperm)
    requires sz == (if newsz < sizes[root] then sizes[root] else newsz)
    requires NoStray(a, sizes) && RolesGrow(a.roles, b.roles, root)
    ensures Isolated(b, sizes[root := sz]) && OthersSame(a, b, sizes, root)
    ensures NoStray(b, sizes[root := sz]) && All(b) == All(a)
    ensures forall v: nat | v < RoundUp(sizes[root]) :: SamePage(a, b, root, v)
    ensures forall v: nat | RoundUp(sizes[root]) <= v < RoundUp(sz) :: ZeroAt(b, root, v)
  {
    assert SpaceOk(a, sizes, root);
    GrowFlags(xperm, |pas|);
    if newsz >= sizes[root] {
      SpanEnds(sizes[root], newsz);
    }
    GrownSpace(a, b, sizes, root, pas, PTE_V + PTE_R + PTE_U + xperm, sz);
  }

  /** uvmdealloc, for one space among many. */
  lemma ShrunkSpace(a: Snap, b: Snap, sizes: Sizes, root: nat, newsz: nat, sz: nat)
    requires Isolated(a, sizes) && root in sizes && sz == (if newsz < sizes[root] then newsz else sizes[root])
    requires Unmapped(a, b, root, RoundUp(newsz), Span(newsz, sizes[root]), true) && NoStray(a, sizes)
    ensures Isolated(b, sizes[root := sz]) && OthersSame(a, b, sizes, root)
    ensures NoStray(b, sizes[root := sz]) && All(b) == All(a)
    ensures forall v: nat | v < RoundUp(sz) :: SamePage(a, b, root, v)
  {
    assert SpaceOk(a, sizes, root);
    if newsz < sizes[root] {
      SpanEnds(newsz, sizes[root]);
      UnmappedIsolated(a, b, sizes, root, RoundUp(newsz), Span(newsz, sizes[root]), sz);
      UnmappedNoStray(a, b, sizes, root, RoundUp(newsz), Span(newsz, sizes[root]), sz);
    } else {
      assert Blank(0) == [] && sizes[root := sz] == sizes;
      IntactIsolated(a, b, sizes, root, RoundUp(newsz));
      IntactNoStray(a, b, sizes, sizes, root, RoundUp(newsz));
      assert SameSpace(a, b, root);
    }
  }

  lemma CopyFlags(a: Snap, sizes: Sizes, src: nat, n: nat)
    requires Isolated(a, sizes) && src in sizes && n == RoundUp(sizes[src])
    ensures forall i: nat | i < n :: AccessAt(FlagsOf(a.mem, src, n), i)
  {
    var flags := FlagsOf(a.mem, src, n);
    forall i: nat | i < n ensures AccessAt(flags, i) {
      var e := Trans(a.mem, src, i);
      assert PageAt(a, sizes, src, i);
      assert e == e / 1024 * 1024 + flags[i];
      AccessOf(e / 1024 * PGSIZE, flags[i]);
    }
  }

  /** uvmcopy's success into an empty space. */
  lemma CopiedSpace(a: Snap, b: Snap, sizes: Sizes, src: nat, dst: nat, pas: seq<nat>)
    requires Isolated(a, sizes) && src in sizes && dst in sizes && src != dst && sizes[dst] == 0
    requires PagesOk(b.mem, b.data, b.free) && Copied(a, b, src, dst, pas, RoundUp(sizes[src]))
    requires NoStray(a, sizes) && RolesGrow(a.roles, b.roles, dst)
    ensures Isolated(b, sizes[dst := sizes[src]]) && OthersSame(a, b, sizes, dst)
    ensures NoStray(b, sizes[dst := sizes[src]]) && All(b) == All(a)
    ensures forall v: nat | v < RoundUp(sizes[src]) :: CopyAt(a, b, src, dst, v)
  {
    var n := RoundUp(sizes[src]);
    var contents, flags := BytesOf(a.mem, a.data, src, n), FlagsOf(a.mem, src, n);
    assert SpaceOk(a, sizes, src) && SpaceOk(a, sizes, dst);
    CopyFlags(a, sizes, src, n);
    BuiltIsolated(a, b, sizes, dst, pas, contents, flags, sizes[src]);
    BuiltNoStray(a, b, sizes, dst, pas, contents, flags, sizes[src]);
    forall v: nat | v < n ensures CopyAt(a, b, src, dst, v) {
      BuiltAt(a, b, dst, 0, pas, contents, flags, v, v);
      assert HoldsAt(b.data, pas, contents, v);
    }
  }

  lemma SameAfter(a: Snap, b: Snap, c: Snap, sizes: Sizes)
    requires forall q: nat | q in sizes :: SameSpace(a, b, q)
    requires forall q: nat | q in sizes :: SameSpace(b, c, q)
    ensures forall q: nat | q in sizes :: SameSpace(a, c, q)
  {
    forall q: nat, v: nat | q in sizes ensures SamePage(a, c, q, v) {
      assert SameSpace(a, b, q) && SameSpace(b, c, q) && SamePage(a, b, q, v) && SamePage(b, c, q, v);
    }
  }

  lemma CopyAfterSame(a: Snap, b: Snap, c: Snap, sizes: Sizes, src: nat, dst: nat)
    requires Isolated(a, sizes) && src in sizes && SameSpace(a, b, src)
    requires forall v: nat | v < RoundUp(sizes[src]) :: CopyAt(b, c, src, dst, v)
    ensures forall v: nat | v < RoundUp(sizes[src]) :: CopyAt(a, c, src, dst, v)
  {
    forall v: nat | v < RoundUp(sizes[src]) ensures CopyAt(a, c, src, dst, v) {
      assert SamePage(a, b, src, v) && PageAt(a, sizes, src, v) && CopyAt(b, c, src, dst, v);
    }
  }

  lemma NewSpaceCost(s: Snap, root: nat, n: nat)
    requires Forest(s.mem, s.roles) && forall i: nat :: Child(s.mem, root, i) == 0
    ensures Cost(s.mem, root, 0, n) == n + TablesOf(n)
  {
    ZeroNotTable(s.mem, s.roles);
    MissingFromEmpty(s.mem, root, n);
  }

  class AddressSpaces {
    const m: Vm.Machine
    /** The pages there are for user memory and its tables. */
    ghost const all: set<nat>
    /** p->sz of every process, by its page table. */
    var sizes: Sizes

    ghost predicate Valid()
      reads this, m
    {
      m.Valid() && Isolated(m.Now(), sizes) && NoStray(m.Now(), sizes) && All(m.Now()) == all
    }

    constructor (free: set<nat>)
      requires forall p | p in free :: p != 0 && p % PGSIZE == 0
      ensures Valid() && sizes == map[] && all == m.free == free && fresh(m)
    {
      m := new Vm.Machine(free);
      sizes, all := map[], free;
    }

    /** Nothing leaks, whatever the calls were: the pages in no space are free, and when there
        is no space every page is. */
    lemma NoLeak()
      requires Valid()
      ensures forall p | p in all :: p in m.free <==> !HasPage(m.mem, sizes, p) && p !in m.roles
      ensures forall p | p in m.roles :: m.roles[p].root in sizes
      ensures sizes == map[] ==> m.free == all
    {
      var s := m.Now();
      forall p | p in all ensures p in m.free <==> !HasPage(m.mem, sizes, p) && p !in m.roles {
        assert p in m.free ==> FreeOk(m.mem, m.data, p);
        assert p in m.data ==> HasPage(s.mem, sizes, p);
        if HasPage(s.mem, sizes, p) {
          var r: nat, v: nat :| r in sizes && MapsTo(s.mem, r, v, p);
          assert PageAt(s, sizes, r, v);
        }
      }
      forall p | p in m.roles ensures m.roles[p].root in sizes {
        assert HasTable(s.roles, sizes, p);
      }
    }

    /** uvmcreate: an empty address space, or 0 when memory is out. */
    method Create() returns (root: nat)
      requires Valid()
      modifies this`sizes, m
      ensures Valid() && forall q: nat | q in old(sizes) :: SameSpace(old(m.Now()), m.Now(), q)
      ensures root == 0 ==> sizes == old(sizes) && m.Now() == old(m.Now()) && m.free == {}
      ensures root != 0 ==> root in old(m.free) && m.free == old(m.free) - {root}
      ensures root != 0 ==> forall i: nat :: Child(m.mem, root, i) == 0
      ensures root != 0 ==> root !in old(sizes) && sizes == old(sizes)[root := 0]
      ensures root != 0 ==> Tallied(old(m.Now()), m.Now()) && RolesGrow(old(m.roles), m.roles, root)
    {
      ghost var a := m.Now();
      root := m.UvmCreate();
      if root == 0 {
        GrownRefl(a);
        GrownEdits(a, a, 0, 0);
        IntactIsolated(a, a, sizes, 0, 0);
      } else {
        assert root in sizes ==> SpaceOk(a, sizes, root);
        CreatedIsolated(a, m.Now(), sizes, root);
        GrownEdits(a, m.Now(), root, 0);
        IntactNoStray(a, m.Now(), sizes, sizes[root := 0], root, 0);
        TallyOf(a, m.Now());
        sizes := sizes[root := 0];
      }
    }

    /** growproc with n > 0: it fails exactly when the free pages are fewer than the pages to add
        and the tables missing for them. */
    method Grow(root: nat, newsz: nat, xperm: nat) returns (ok: bool)
      requires Valid() && root in sizes && newsz <= MAXPAGES * PGSIZE && xperm in {0, PTE_W, PTE_X, PTE_W + PTE_X}
      modifies this`sizes, m
      ensures Valid() && OthersSame(old(m.Now()), m.Now(), old(sizes), root)
      ensures ok <==> |old(m.free)| >= Cost(old(m.mem), root, RoundUp(old(sizes)[root]), Span(old(sizes)[root], newsz))
      ensures !ok ==> sizes == old(sizes) && SameSpace(old(m.Now()), m.Now(), root)
      ensures ok ==> sizes == old(sizes)[root := if newsz < old(sizes)[root] then old(sizes)[root] else newsz]
      ensures ok ==> forall v: nat | v < RoundUp(old(sizes)[root]) :: SamePage(old(m.Now()), m.Now(), root, v)
      ensures ok ==> forall v: nat | RoundUp(old(sizes)[root]) <= v < RoundUp(sizes[root]) :: ZeroAt(m.Now(), root, v)
    {
      ghost var a, lo, pas := m.Now(), RoundUp(sizes[root]), [];
      assert SpaceOk(a, sizes, root);
      SpaceVacant(a, sizes, root, lo, RoundUp(newsz));
      var r, sz;
      r, sz, pas := m.UvmAlloc(root, sizes[root], newsz, xperm);
      ok := r == Vm.Mapped;
      GrowRoles(a.roles, m.roles, root, lo, lo + Span(sizes[root], newsz));
      if ok {
        GrewSpace(a, m.Now(), sizes, root, pas, xperm, newsz, sz);
        sizes := sizes[root := sz];
      } else {
        IntactIsolated(a, m.Now(), sizes, root, lo);
        IntactNoStray(a, m.Now(), sizes, sizes, root, lo);
      }
    }

    /** growproc with n < 0: never a panic. */
    method Shrink(root: nat, newsz: nat)
      requires Valid() && root in sizes
      modifies this`sizes, m
      ensures Valid() && OthersSame(old(m.Now()), m.Now(), old(sizes), root)
      ensures sizes == old(sizes)[root := if newsz < old(sizes)[root] then newsz else old(sizes)[root]]
      ensures forall v: nat | v < RoundUp(sizes[root]) :: SamePage(old(m.Now()), m.Now(), root, v)
    {
      ghost var a := m.Now();
      assert SpaceOk(a, sizes, root);
      SpaceOwned(a, sizes, root, RoundUp(newsz), RoundUp(sizes[root]));
      SpaceRemovable(a, sizes, root, RoundUp(newsz), RoundUp(sizes[root]));
      var sz, ok := m.UvmDealloc(root, sizes[root], newsz);
      ShrunkSpace(a, m.Now(), sizes, root, newsz, sz);
      sizes := sizes[root := sz];
    }

    /** uvmfree: never a panic; the space is gone, and exactly its pages and tables are free. */
    method Destroy(root: nat)
      requires Valid() && root in sizes
      modifies this`sizes, m
      ensures Valid() && OthersSame(old(m.Now()), m.Now(), old(sizes), root) && sizes == old(sizes) - {root}
      ensures root in old(m.roles) && Destroyed(old(m.Now()), m.Now(), root, RoundUp(old(sizes)[root]))
    {
      ghost var a := m.Now();
      assert SpaceOk(a, sizes, root);
      SpaceOwned(a, sizes, root, 0, RoundUp(sizes[root]));
      SpaceRemovable(a, sizes, root, 0, RoundUp(sizes[root]));
      SpaceVacant(a, sizes, root, RoundUp(sizes[root]), ALLPAGES);
      SpaceLeaves(a, sizes, root);
      var ok := UvmFree(m, root, sizes[root]);
      DestroyedIsolated(a, m.Now(), sizes, root);
      DestroyedNoStray(a, m.Now(), sizes, root);
      sizes := sizes - {root};
    }

    /** fork's part: a new address space with the bytes and flags of another; or 0 and nothing
        changed or lost, exactly when the free pages are fewer than a root, the pages of the
        parent, a table for each 512 of them and one for each 512 * 512. */
    method Fork(src: nat) returns (dst: nat)
      requires Valid() && src in sizes
      modifies this`sizes, m
      ensures Valid() && forall q: nat | q in old(sizes) :: SameSpace(old(m.Now()), m.Now(), q)
      ensures dst == 0 <==> |old(m.free)| < 1 + RoundUp(old(sizes)[src]) + TablesOf(RoundUp(old(sizes)[src]))
      ensures dst == 0 ==> sizes == old(sizes) && SamePages(old(m.Now()), m.Now())
      ensures dst != 0 ==> dst !in old(sizes) && sizes == old(sizes)[dst := old(sizes)[src]]
      ensures dst != 0 ==> forall v: nat | v < RoundUp(old(sizes)[src]) :: CopyAt(old(m.Now()), m.Now(), src, dst, v)
    {
      ghost var a, was := m.Now(), sizes;
      dst := Create();
      if dst == 0 {
        return;
      }
      NewSpaceCost(m.Now(), dst, RoundUp(sizes[src]));
      assert |a.free| == |m.free| + 1;
      var ok := ForkInto(src, dst, a, was);
      if !ok {
        dst := 0;
      }
    }

    /** The rest of fork's part, once the new page table is there. */
    method ForkInto(src: nat, dst: nat, ghost a: Snap, ghost was: Sizes) returns (ok: bool)
      requires Valid() && src in was && dst !in was && sizes == was[dst := 0]
      requires Isolated(a, was) && NoStray(a, was) && a.mem.Keys == a.roles.Keys
      requires Tallied(a, m.Now()) && RolesGrow(a.roles, m.roles, dst)
      requires forall q: nat | q in was :: SameSpace(a, m.Now(), q)
      modifies this`sizes, m
      ensures Valid() && forall q: nat | q in was :: SameSpace(a, m.Now(), q)
      ensures ok <==> |old(m.free)| >= Cost(old(m.mem), dst, 0, RoundUp(was[src]))
      ensures !ok ==> sizes == was && SamePages(a, m.Now())
      ensures ok ==> sizes == was[dst := was[src]]
      ensures ok ==> forall v: nat | v < RoundUp(was[src]) :: CopyAt(a, m.Now(), src, dst, v)
    {
      ghost var b := m.Now();
      ok := CopyInto(src, dst);
      SameAfter(a, b, m.Now(), was);
      if ok {
        CopyAfterSame(a, b, m.Now(), was, src, dst);
        assert sizes == was[dst := was[src]];
      } else {
        Discard(dst, a, b, was);
      }
    }

    /** fork's error path: freeproc of what has been made since state a. */
    method Discard(dst: nat, ghost a: Snap, ghost mid: Snap, ghost was: Sizes)
      requires Valid() && dst !in was && sizes == was[dst := 0]
      requires NoStray(a, was) && a.mem.Keys == a.roles.Keys
      requires Tallied(a, mid) && RolesGrow(a.roles, mid.roles, dst)
      requires Tallied(mid, m.Now()) && RolesGrow(mid.roles, m.roles, dst)
      requires forall q: nat | q in was :: SameSpace(a, m.Now(), q)
      modifies this`sizes, m
      ensures Valid() && sizes == was && SamePages(a, m.Now())
      ensures forall q: nat | q in was :: SameSpace(a, m.Now(), q)
    {
      ghost var b := m.Now();
      assert SpaceOk(b, sizes, dst);
      Destroy(dst);
      SameAfter(a, b, m.Now(), was);
      TallyThen(a, mid, b);
      UndoneFree(a, b, m.Now(), was, dst);
      assert sizes == was;
    }

    /** uvmcopy into an empty space. */
    method CopyInto(src: nat, dst: nat) returns (ok: bool)
      requires Valid() && src in sizes && dst in sizes && src != dst && sizes[dst] == 0
      modifies this`sizes, m
      ensures Valid() && OthersSame(old(m.Now()), m.Now(), old(sizes), dst)
      ensures ok <==> |old(m.free)| >= Cost(old(m.mem), dst, 0, RoundUp(old(sizes)[src]))
      ensures sizes == if ok then old(sizes)[dst := old(sizes)[src]] else old(sizes)
      ensures !ok ==> Tallied(old(m.Now()), m.Now()) && RolesGrow(old(m.roles), m.roles, dst)
      ensures ok ==> forall v: nat | v < RoundUp(old(sizes)[src]) :: CopyAt(old(m.Now()), m.Now(), src, dst, v)
    {
      ghost var a, n, pas := m.Now(), RoundUp(sizes[src]), [];
      assert SpaceOk(a, sizes, src) && SpaceOk(a, sizes, dst);
      SpaceOwned(a, sizes, src, 0, n);
      SpaceRemovable(a, sizes, src, 0, n);
      SpaceVacant(a, sizes, dst, 0, n);
      var r;
      r, pas := m.UvmCopy(src, dst, sizes[src]);
      ok := r == Vm.Mapped;
      GrowRoles(a.roles, m.roles, dst, 0, n);
      if ok {
        CopiedSpace(a, m.Now(), sizes, src, dst, pas);
        sizes := sizes[dst := sizes[src]];
      } else {
        IntactIsolated(a, m.Now(), sizes, dst, 0);
        IntactNoStray(a, m.Now(), sizes, sizes, dst, 0);
        TallyOf(a, m.Now());
      }
    }

    /** copyout: no byte of another space changes. */
    method Store(root: nat, va: nat, bytes: seq<nat>) returns (ok: bool, ghost n: nat)
      requires Valid() && root in sizes
      modifies m
      ensures Valid() && OthersSame(old(m.Now()), m.Now(), sizes, root)
      ensures n <= |bytes| && Written(m.mem, old(m.data), m.data, root, va, bytes[..n]) && (ok <==> n == |bytes|)
    {
      ghost var a := m.Now();
      assert SpaceOk(a, sizes, root);
      SpaceUser(a, sizes, root);
      ok, n := m.CopyOut(root, va, bytes);
      WrittenIsolated(a, m.Now(), sizes, root, va, bytes[..n]);
      assert forall p | p in m.data :: HasPage(a.mem, sizes, p);
      assert forall p | p in m.roles :: HasTable(a.roles, sizes, p);
    }
  }
}
