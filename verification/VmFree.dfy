/** freewalk and uvmfree: every page of an address space goes back to the free pages. */
module VmFree {
  import opened PageTable
  import opened VmSpec
  import Vm

  /** Role r is that of the table with role top, or of a table below it. */
  predicate Under(r: Role, top: Role) {
    && r.root == top.root
    && (top.level == 2 || (top.level == 1 && r.level <= 1 && r.i2 == top.i2) || r == top)
  }

  /** The entry of a table under which role r is found. */
  function Branch(r: Role, top: Role): nat {
    if top.level == 2 then r.i2 else r.i1
  }

  ghost function Sub(roles: Roles, t: nat): set<nat>
    requires t in roles
  {
    set p | p in roles && Under(roles[p], roles[t])
  }

  /** The tables below t in its first n entries. */
  ghost function Below(roles: Roles, t: nat, n: nat): set<nat>
    requires t in roles
  {
    set p | p in roles && p != t && Under(roles[p], roles[t]) && Branch(roles[p], roles[t]) < n
  }

  /** A table below t is reached through the entry of its branch. */
  lemma ReachedBy(mem: Mem, roles: Roles, t: nat, p: nat)
    requires Forest(mem, roles) && t in roles && p in Sub(roles, t) && p != t
    ensures roles[t].level > 0 && t in mem && |mem[t]| == ENTRIES
    ensures var i := Branch(roles[p], roles[t]);
            i < ENTRIES && Child(mem, t, i) != 0 && Child(mem, t, i) in roles && p in Sub(roles, Child(mem, t, i))
  {
    assert RoleOk(mem, roles, t) && RoleOk(mem, roles, p);
    ZeroNotTable(mem, roles);
    if roles[p] == roles[t] {
      RoleUnique(mem, roles, p, t);
    }
    var i := Branch(roles[p], roles[t]);
    ChildFacts(mem, roles, t, i);
  }

  /** The tables below entry i are those of the child there. */
  lemma ChildSub(mem: Mem, roles: Roles, t: nat, i: nat)
    requires Forest(mem, roles) && t in roles && roles[t].level > 0 && i < ENTRIES
    ensures var c := Child(mem, t, i);
            if c == 0 then Below(roles, t, i + 1) == Below(roles, t, i)
            else c in roles && t !in Sub(roles, c) && Below(roles, t, i + 1) == Below(roles, t, i) + Sub(roles, c)
                 && Below(roles, t, i) !! Sub(roles, c)
  {
    var c := Child(mem, t, i);
    ChildFacts(mem, roles, t, i);
    forall p | p in Below(roles, t, i + 1) && p !in Below(roles, t, i)
      ensures c != 0 && c in roles && p in Sub(roles, c)
    {
      ReachedBy(mem, roles, t, p);
    }
    if c != 0 {
      assert RoleOk(mem, roles, t) && RoleOk(mem, roles, c);
      forall p | p in Sub(roles, c) ensures p in Below(roles, t, i + 1) && p !in Below(roles, t, i) {
        assert RoleOk(mem, roles, p);
      }
    }
  }

  lemma AllBelow(mem: Mem, roles: Roles, t: nat)
    requires Forest(mem, roles) && t in roles
    ensures Below(roles, t, ENTRIES) + {t} == Sub(roles, t)
  {
    forall p | p in Sub(roles, t) && p != t ensures p in Below(roles, t, ENTRIES) {
      ReachedBy(mem, roles, t, p);
    }
  }

  // ---- Leaves ----

  /** pte & (PTE_R|PTE_W|PTE_X) == 0. */
  predicate NoAccess(pte: nat) {
    pte / 2 % 8 == 0
  }

  ghost predicate Empty(mem: Mem, p: nat, n: nat) {
    p in mem && n <= |mem[p]| && forall j | 0 <= j < n :: !IsValid(mem[p][j])
  }

  /** No level-0 table at or below t has a valid entry. */
  ghost predicate NoLeaf(mem: Mem, roles: Roles, t: nat)
    requires t in roles
  {
    forall p {:trigger Empty(mem, p, ENTRIES)} | p in Sub(roles, t) && roles[p].level == 0 :: Empty(mem, p, ENTRIES)
  }

  ghost predicate NoLeafBelow(mem: Mem, roles: Roles, t: nat, n: nat)
    requires t in roles
  {
    forall p {:trigger Empty(mem, p, ENTRIES)} | p in Below(roles, t, n) && roles[p].level == 0 ::
      Empty(mem, p, ENTRIES)
  }

  ghost predicate LeafAt(mem: Mem, root: nat, v: nat) {
    Trans(mem, root, v) != 0 ==> !NoAccess(Trans(mem, root, v))
  }

  /** A valid level-0 entry grants some access: without any it would be a pointer. */
  ghost predicate LeavesOk(mem: Mem, root: nat) {
    forall v: nat {:trigger LeafAt(mem, root, v)} :: LeafAt(mem, root, v)
  }

  /** The virtual page whose entry is number j of the level-0 table with role r. */
  function PageNo(r: Role, j: nat): nat {
    r.i2 * 262144 + r.i1 * 512 + j
  }

  lemma PageNoIndices(r: Role, j: nat)
    requires r.i2 < ENTRIES && r.i1 < ENTRIES && j < ENTRIES
    ensures var v := PageNo(r, j); I2(v) == r.i2 && I1(v) == r.i1 && I0(v) == j
  {
    var v, high, low := PageNo(r, j), r.i2 * 512 + r.i1, r.i1 * 512 + j;
    assert v == 512 * high + j && v / 512 == high && v % 512 == j;
    assert high / 512 == r.i2 && high % 512 == r.i1;
    assert v == 262144 * r.i2 + low && low < 262144 && v / 262144 == r.i2;
  }

  /** Every entry of a level-0 table is the leaf entry of some page. */
  lemma TableLeaf(mem: Mem, roles: Roles, t: nat, j: nat)
    requires Forest(mem, roles) && t in roles && roles[t].level == 0 && j < ENTRIES
    ensures t in mem && |mem[t]| == ENTRIES && IsRoot(roles, roles[t].root)
    ensures Leaf(mem, roles[t].root, PageNo(roles[t], j)) == mem[t][j]
  {
    var r := roles[t];
    assert RoleOk(mem, roles, t);
    ZeroNotTable(mem, roles);
    ChildFacts(mem, roles, r.root, r.i2);
    ChildFacts(mem, roles, Child(mem, r.root, r.i2), r.i1);
    PageNoIndices(r, j);
  }

  ghost predicate SameTable(a: Mem, b: Mem, p: nat) {
    p in a && p in b && a[p] == b[p]
  }

  /** The tables at and below t are as they were in mem. */
  ghost predicate Untouched(now: Mem, mem: Mem, roles: Roles, t: nat)
    requires t in roles
  {
    forall p {:trigger SameTable(now, mem, p)} | p in Sub(roles, t) :: SameTable(now, mem, p)
  }

  /** The part of freewalk's table that is still to be looked at. */
  ghost predicate Rest(now: Mem, mem: Mem, t: nat, i: nat) {
    && t in now && t in mem && |now[t]| == |mem[t]| == ENTRIES
    && forall j | i <= j < ENTRIES :: now[t][j] == mem[t][j]
  }

  /** After i entries: the tables below them are gone and free, and no other table but t changed. */
  ghost predicate Cleared(was: Mem, wasFree: set<nat>, now: Mem, nowFree: set<nat>, gone: set<nat>, t: nat) {
    && now.Keys == was.Keys - gone && nowFree == wasFree + gone
    && forall p {:trigger SameTable(was, now, p)} | p in now && p != t :: SameTable(was, now, p)
  }

  /** The interior entry that freewalk takes for a pointer is one, and a leaf it takes for a leaf. */
  lemma EntryKind(mem: Mem, roles: Roles, t: nat, i: nat)
    requires Forest(mem, roles) && t in roles && LeavesOk(mem, roles[t].root) && i < ENTRIES
    ensures t in mem && |mem[t]| == ENTRIES
    ensures IsValid(mem[t][i]) ==> (NoAccess(mem[t][i]) <==> roles[t].level > 0)
    ensures IsValid(mem[t][i]) && roles[t].level > 0 ==> PTE2PA(mem[t][i]) == Child(mem, t, i) != 0
  {
    assert RoleOk(mem, roles, t);
    assert EntryOk(mem, roles, t, i);
    if roles[t].level == 0 {
      TableLeaf(mem, roles, t, i);
      assert LeafAt(mem, roles[t].root, PageNo(roles[t], i));
    }
    if IsValid(mem[t][i]) && roles[t].level > 0 {
      assert RoleOk(mem, roles, PTE2PA(mem[t][i]));
      FlagsKind(mem[t][i]);
    }
  }

  /** The access bits are in the low four bits. */
  lemma LowBits(pte: nat, q: nat, r: nat)
    requires pte == 16 * q + r && r < 16
    ensures NoAccess(pte) <==> r < 2
  {
    assert pte / 2 == 8 * q + r / 2;
  }

  lemma FlagsKind(pte: nat)
    requires Flags(pte) == PTE_V
    ensures NoAccess(pte)
  {
    var q := pte / 1024;
    assert pte == 1024 * q + 1;
    LowBits(pte, 64 * q, 1);
  }

  lemma ChildUntouched(was: Mem, wasFree: set<nat>, now: Mem, nowFree: set<nat>, mem: Mem, roles: Roles, t: nat,
                       i: nat, c: nat)
    requires Forest(mem, roles) && t in roles && roles[t].level > 0 && i < ENTRIES && c == Child(mem, t, i) != 0
    requires Untouched(was, mem, roles, t) && Cleared(was, wasFree, now, nowFree, Below(roles, t, i), t)
    ensures c in roles && roles[c].level < roles[t].level && roles[c].root == roles[t].root
    ensures Untouched(now, mem, roles, c)
  {
    ChildSub(mem, roles, t, i);
    ChildFacts(mem, roles, t, i);
    forall p | p in Sub(roles, c) ensures SameTable(now, mem, p) {
      assert p in Sub(roles, t) by {
        AllBelow(mem, roles, t);
        assert RoleOk(mem, roles, t) && RoleOk(mem, roles, c);
      }
      assert SameTable(was, mem, p);
      assert SameTable(was, now, p);
    }
  }

  /** freewalk of table t, whose subtree is as in (mem, roles).  False is a panic: a leaf is
      still mapped. */
  method FreeWalk(m: Vm.Machine, t: nat, ghost mem: Mem, ghost roles: Roles) returns (ok: bool)
    requires Forest(mem, roles) && t in roles && LeavesOk(mem, roles[t].root) && Untouched(m.mem, mem, roles, t)
    modifies m`mem, m`free
    ensures ok <==> NoLeaf(mem, roles, t)
    ensures ok ==> Gone(old(m.mem), old(m.free), m.mem, m.free, Sub(roles, t))
    decreases roles[t].level
  {
    var i := 0;
    assert RoleOk(mem, roles, t) && SameTable(m.mem, mem, t);
    while i < ENTRIES
      invariant 0 <= i <= ENTRIES && Rest(m.mem, mem, t, i)
      invariant Cleared(old(m.mem), old(m.free), m.mem, m.free, Below(roles, t, i), t)
      invariant NoLeafBelow(mem, roles, t, i)
      invariant roles[t].level == 0 ==> Empty(mem, t, i)
    {
      EntryKind(mem, roles, t, i);
      var pte := m.mem[t][i];
      ghost var was, wasFree := m.mem, m.free;
      if IsValid(pte) && NoAccess(pte) {
        var child := PTE2PA(pte);
        ChildUntouched(old(m.mem), old(m.free), m.mem, m.free, mem, roles, t, i, child);
        ok := FreeWalk(m, child, mem, roles);
        if !ok {
          LeafBelowChild(mem, roles, t, i, child);
          return;
        }
        assert t in m.mem by {
          ChildSub(mem, roles, t, i);
        }
        var entries: seq<nat> := m.mem[t][i := 0];
        m.mem := m.mem[t := entries];
        ClearMore(old(m.mem), old(m.free), was, wasFree, m.mem, m.free, mem, roles, t, i, child);
      } else if IsValid(pte) {
        assert !Empty(mem, t, ENTRIES);
        return false;
      } else {
        NoChildThere(mem, roles, t, i);
      }
      i := i + 1;
    }
    AllBelow(mem, roles, t);
    assert NoLeaf(mem, roles, t) by {
      NoLeafAll(mem, roles, t);
    }
    AllGone(old(m.mem), old(m.free), m.mem, m.free, Below(roles, t, i), t, Sub(roles, t));
    m.free := m.free + {t};
    m.mem := m.mem - {t};
    return true;
  }

  /** Exactly these table pages were taken away, and are free. */
  ghost predicate Gone(was: Mem, wasFree: set<nat>, now: Mem, nowFree: set<nat>, pages: set<nat>) {
    now == was - pages && nowFree == wasFree + pages
  }

  lemma NoLeafAll(mem: Mem, roles: Roles, t: nat)
    requires t in roles && NoLeafBelow(mem, roles, t, ENTRIES) && Below(roles, t, ENTRIES) + {t} == Sub(roles, t)
    requires roles[t].level == 0 ==> Empty(mem, t, ENTRIES)
    ensures NoLeaf(mem, roles, t)
  {}

  lemma LeafBelowChild(mem: Mem, roles: Roles, t: nat, i: nat, c: nat)
    requires Forest(mem, roles) && t in roles && roles[t].level > 0 && i < ENTRIES && c == Child(mem, t, i) != 0
    requires c in roles && !NoLeaf(mem, roles, c)
    ensures !NoLeaf(mem, roles, t)
  {
    ChildSub(mem, roles, t, i);
    AllBelow(mem, roles, t);
    var p :| p in Sub(roles, c) && roles[p].level == 0 && !Empty(mem, p, ENTRIES);
    assert p in Below(roles, t, i + 1);
  }

  lemma NoChildThere(mem: Mem, roles: Roles, t: nat, i: nat)
    requires Forest(mem, roles) && t in roles && i < ENTRIES && t in mem && i < |mem[t]| && !IsValid(mem[t][i])
    ensures Below(roles, t, i + 1) == Below(roles, t, i)
  {
    if roles[t].level > 0 {
      ChildSub(mem, roles, t, i);
    } else {
      NothingBelow(mem, roles, t, i);
      NothingBelow(mem, roles, t, i + 1);
    }
  }

  lemma NothingBelow(mem: Mem, roles: Roles, t: nat, n: nat)
    requires Forest(mem, roles) && t in roles && roles[t].level == 0
    ensures Below(roles, t, n) == {}
  {
    if Below(roles, t, n) != {} {
      var p :| p in Below(roles, t, n);
      ReachedBy(mem, roles, t, p);
    }
  }

  lemma AllGone(was: Mem, wasFree: set<nat>, now: Mem, nowFree: set<nat>, gone: set<nat>, t: nat, pages: set<nat>)
    requires Cleared(was, wasFree, now, nowFree, gone, t) && gone + {t} == pages
    ensures Gone(was, wasFree, now - {t}, nowFree + {t}, pages)
  {
    forall p | p in now - {t} ensures p in was && was[p] == now[p] {
      assert SameTable(was, now, p);
    }
  }

  lemma ClearMore(was: Mem, wasFree: set<nat>, mid: Mem, midFree: set<nat>, now: Mem, nowFree: set<nat>,
                  mem: Mem, roles: Roles, t: nat, i: nat, c: nat)
    requires Forest(mem, roles) && t in roles && roles[t].level > 0 && i < ENTRIES && c == Child(mem, t, i) != 0
    requires c in roles
    requires Cleared(was, wasFree, mid, midFree, Below(roles, t, i), t) && t in mid && i < |mid[t]|
    requires NoLeafBelow(mem, roles, t, i) && NoLeaf(mem, roles, c)
    requires var entries: seq<nat> := mid[t][i := 0];
             now == (mid - Sub(roles, c))[t := entries] && nowFree == midFree + Sub(roles, c)
    ensures Cleared(was, wasFree, now, nowFree, Below(roles, t, i + 1), t) && NoLeafBelow(mem, roles, t, i + 1)
  {
    ChildSub(mem, roles, t, i);
    forall p | p in now && p != t ensures SameTable(was, now, p) {
      assert SameTable(was, mid, p);
    }
  }

  // ---- uvmfree ----

  /** The pages that three levels can describe; walk uses the lower half of them. */
  const ALLPAGES := 2 * MAXPAGES

  lemma NoLeafIffVacant(mem: Mem, roles: Roles, root: nat)
    requires Forest(mem, roles) && IsRoot(roles, root)
    ensures NoLeaf(mem, roles, root) <==> Vacant(mem, root, 0, ALLPAGES)
  {
    if NoLeaf(mem, roles, root) {
      forall v: nat | v < ALLPAGES ensures VacantAt(mem, root, v) {
        var t := Table0(mem, root, v);
        TableRole(mem, roles, root, v);
        ZeroNotTable(mem, roles);
        assert t != 0 ==> Empty(mem, t, ENTRIES);
      }
    }
    if Vacant(mem, root, 0, ALLPAGES) {
      forall t | t in Sub(roles, root) && roles[t].level == 0 ensures Empty(mem, t, ENTRIES) {
        EmptyIfVacant(mem, roles, root, t);
      }
    }
  }

  lemma EmptyIfVacant(mem: Mem, roles: Roles, root: nat, t: nat)
    requires Forest(mem, roles) && IsRoot(roles, root) && Vacant(mem, root, 0, ALLPAGES)
    requires t in Sub(roles, root) && roles[t].level == 0
    ensures Empty(mem, t, ENTRIES)
  {
    assert RoleOk(mem, roles, t);
    forall j | 0 <= j < ENTRIES ensures !IsValid(mem[t][j]) {
      TableLeaf(mem, roles, t, j);
      var v := PageNo(roles[t], j);
      ReachedBy(mem, roles, root, t);
      ChildFacts(mem, roles, root, roles[t].i2);
      ZeroNotTable(mem, roles);
      assert VacantAt(mem, root, v);
    }
  }

  /** Taking away all tables of one root leaves every other page table as it was. */
  lemma DropKeepsForest(mem: Mem, roles: Roles, root: nat)
    requires Forest(mem, roles) && IsRoot(roles, root)
    ensures Forest(mem - Sub(roles, root), roles - Sub(roles, root))
  {
    var gone := Sub(roles, root);
    var mem', roles' := mem - gone, roles - gone;
    forall q | q in roles' ensures RoleOk(mem', roles', q) {
      assert RoleOk(mem, roles, q);
      var r := roles[q];
      ZeroNotTable(mem, roles);
      ChildFacts(mem, roles, r.root, r.i2);
      assert RoleOk(mem, roles, r.root);
    }
    forall q: nat, j: nat | q in mem' && j < |mem'[q]| ensures EntryOk(mem', roles', q, j) {
      assert EntryOk(mem, roles, q, j);
      assert RoleOk(mem, roles, q);
    }
  }

  lemma DropKeepsLeaf(mem: Mem, roles: Roles, root: nat, r: nat, v: nat)
    requires Forest(mem, roles) && IsRoot(roles, root) && IsRoot(roles, r) && r != root
    ensures Leaf(mem - Sub(roles, root), r, v) == Leaf(mem, r, v)
  {
    var t1 := Child(mem, r, I2(v));
    ZeroNotTable(mem, roles);
    ChildFacts(mem, roles, r, I2(v));
    TableRole(mem, roles, r, v);
  }

  /** From a to b a page table went away with all its tables and its first n pages: every page
      of it is free, and no other page table changed. */
  ghost predicate Destroyed(a: Snap, b: Snap, root: nat, n: nat)
    requires root in a.roles
  {
    var tables, pages := Sub(a.roles, root), Pages(a.mem, root, 0, n);
    && b.mem.Keys == a.mem.Keys - tables && b.roles == a.roles - tables
    && b.data == a.data - pages && b.free == a.free + pages + tables
    && forall r: nat, v: nat {:trigger SameTrans(a.mem, b.mem, r, v)} | IsRoot(a.roles, r) && r != root ::
          SameTrans(a.mem, b.mem, r, v)
  }

  ghost predicate SameTrans(a: Mem, b: Mem, r: nat, v: nat) {
    Trans(b, r, v) == Trans(a, r, v)
  }

  lemma DestroyedBy(a: Snap, b: Snap, c: Snap, root: nat, n: nat)
    requires Forest(b.mem, b.roles) && IsRoot(a.roles, root) && Unmapped(a, b, root, 0, n, true)
    requires Gone(b.mem, b.free, c.mem, c.free, Sub(b.roles, root)) && c.roles == b.roles - Sub(b.roles, root)
    requires c.data == b.data
    ensures Destroyed(a, c, root, n)
  {
    forall r: nat, v: nat | IsRoot(a.roles, r) && r != root ensures SameTrans(a.mem, c.mem, r, v) {
      assert EditedAt(a.mem, b.mem, root, 0, Blank(n), r, v);
      DropKeepsLeaf(b.mem, b.roles, root, r, v);
    }
  }

  lemma UnmapKeepsLeaves(a: Snap, b: Snap, root: nat, n: nat)
    requires IsRoot(a.roles, root) && LeavesOk(a.mem, root) && Unmapped(a, b, root, 0, n, true)
    ensures LeavesOk(b.mem, root)
  {
    forall v: nat ensures LeafAt(b.mem, root, v) {
      assert EditedAt(a.mem, b.mem, root, 0, Blank(n), root, v) && LeafAt(a.mem, root, v);
    }
  }

  lemma VacantAfter(a: Snap, b: Snap, root: nat, n: nat)
    requires IsRoot(a.roles, root) && Unmapped(a, b, root, 0, n, true)
    ensures Vacant(b.mem, root, 0, ALLPAGES) <==> Vacant(a.mem, root, n, ALLPAGES)
  {
    forall v: nat ensures v < n ==> VacantAt(b.mem, root, v)
      ensures v >= n ==> VacantAt(b.mem, root, v) == VacantAt(a.mem, root, v)
    {
      assert EditedAt(a.mem, b.mem, root, 0, Blank(n), root, v);
    }
  }

  lemma DropKeepsPages(mem: Mem, data: Data, free: set<nat>, roles: Roles, gone: set<nat>)
    requires Forest(mem, roles) && PagesOk(mem, data, free) && gone <= mem.Keys
    ensures PagesOk(mem - gone, data, free + gone)
  {
    forall p | p in free + gone ensures FreeOk(mem - gone, data, p) {
      if p in free {
        assert FreeOk(mem, data, p);
      } else {
        assert RoleOk(mem, roles, p) && (p in data ==> DataOk(mem, data, p));
      }
    }
    forall p | p in data ensures DataOk(mem - gone, data, p) {
      assert DataOk(mem, data, p);
    }
  }

  /** uvmfree.  False is a panic: a page below sz is not mapped, or one above it is. */
  method UvmFree(m: Vm.Machine, root: nat, sz: nat) returns (ok: bool)
    requires m.Valid() && IsRoot(m.roles, root) && sz <= MAXPAGES * PGSIZE
    requires Owned(m.mem, m.data, root, 0, RoundUp(sz)) && LeavesOk(m.mem, root)
    modifies m
    ensures ok == (Removable(old(m.mem), root, 0, RoundUp(sz)) && Vacant(old(m.mem), root, RoundUp(sz), ALLPAGES))
    ensures ok ==> m.Valid() && Destroyed(old(m.Now()), m.Now(), root, RoundUp(sz))
  {
    var n := RoundUp(sz);
    UnmapNone(m.Now(), root, 0, true);
    if sz > 0 {
      ok := m.Unmap(root, 0, n, true, n);
      if !ok {
        return;
      }
    }
    ghost var s := m.Now();
    UnmapKeepsLeaves(old(m.Now()), s, root, n);
    VacantAfter(old(m.Now()), s, root, n);
    NoLeafIffVacant(m.mem, m.roles, root);
    assert Untouched(m.mem, m.mem, m.roles, root) by {
      forall p | p in Sub(m.roles, root) ensures SameTable(m.mem, m.mem, p) {}
    }
    ok := FreeWalk(m, root, m.mem, m.roles);
    if ok {
      DropKeepsForest(s.mem, s.roles, root);
      DropKeepsPages(s.mem, s.data, s.free, s.roles, Sub(s.roles, root));
      m.roles := m.roles - Sub(m.roles, root);
      DestroyedBy(old(m.Now()), s, m.Now(), root, n);
    }
  }
}
