/** Three-level page tables as flat maps from virtual pages to leaf entries. */
module PageTable {

  const PGSIZE := 4096
  const ENTRIES := 512
  /** MAXVA / PGSIZE. */
  const MAXPAGES := 0x400_0000

  // ---- Entries ----

  const PTE_V := 1
  const PTE_U := 16

  predicate IsValid(pte: nat) {
    pte % 2 == 1
  }

  function Flags(pte: nat): nat {
    pte % 1024
  }

  function PTE2PA(pte: nat): nat {
    pte / 1024 * PGSIZE
  }

  /** PA2PTE(pa) | flags, for a page-aligned pa. */
  function MakePte(pa: nat, flags: nat): nat {
    pa / PGSIZE * 1024 + flags
  }

  lemma PteRoundTrip(pa: nat, flags: nat)
    requires pa % PGSIZE == 0 && flags < 1024
    ensures PTE2PA(MakePte(pa, flags)) == pa && Flags(MakePte(pa, flags)) == flags
    ensures IsValid(MakePte(pa, flags)) <==> flags % 2 == 1
  {}

  // ---- Indices of virtual page v: PX(2, va), PX(1, va) and PX(0, va) ----

  function I2(v: nat): nat { v / 262144 }
  function I1(v: nat): nat { v / 512 % 512 }
  function I0(v: nat): nat { v % 512 }

  lemma IndexInjective(v: nat, w: nat)
    requires I2(v) == I2(w) && I1(v) == I1(w) && I0(v) == I0(w)
    ensures v == w
  {
    assert v / 262144 == v / 512 / 512 && w / 262144 == w / 512 / 512;
  }

  // ---- Table pages ----

  /** Where a table page sits: its root, its level, and the indices that lead to it. */
  datatype Role = Role(root: nat, level: nat, i2: nat, i1: nat)

  type Mem = map<nat, seq<nat>>
  type Roles = map<nat, Role>

  function RootRole(root: nat): Role {
    Role(root, 2, 0, 0)
  }

  function ChildRole(r: Role, idx: nat): Role {
    if r.level == 2 then Role(r.root, 1, idx, 0) else Role(r.root, 0, r.i2, idx)
  }

  /** The table an entry points to, or 0. */
  function Child(mem: Mem, pa: nat, idx: nat): nat {
    if pa in mem && idx < |mem[pa]| && IsValid(mem[pa][idx]) then PTE2PA(mem[pa][idx]) else 0
  }

  /** The page with role r, found by following the tree. */
  function Find(mem: Mem, r: Role): nat {
    if r.level == 2 then r.root
    else if r.level == 1 then Child(mem, r.root, r.i2)
    else Child(mem, Child(mem, r.root, r.i2), r.i1)
  }

  ghost predicate RoleOk(mem: Mem, roles: Roles, pa: nat)
    requires pa in roles
  {
    var r := roles[pa];
    && pa != 0 && pa % PGSIZE == 0 && pa in mem && |mem[pa]| == ENTRIES
    && r.level <= 2 && r.root in roles && roles[r.root] == RootRole(r.root)
    && (r.level == 2 ==> r == RootRole(r.root))
    && (r.level == 1 ==> r.i1 == 0)
    && Find(mem, r) == pa
  }

  ghost predicate EntryOk(mem: Mem, roles: Roles, pa: nat, idx: nat)
    requires pa in roles && pa in mem && idx < |mem[pa]|
  {
    roles[pa].level > 0 && IsValid(mem[pa][idx]) ==>
      var c := PTE2PA(mem[pa][idx]);
      c in roles && roles[c] == ChildRole(roles[pa], idx) && Flags(mem[pa][idx]) == PTE_V
  }

  /** A forest: every table page has one role and every pointer leads to its table page. */
  ghost predicate Forest(mem: Mem, roles: Roles) {
    && mem.Keys == roles.Keys
    && (forall pa {:trigger RoleOk(mem, roles, pa)} | pa in roles :: RoleOk(mem, roles, pa))
    && (forall pa: nat, idx: nat {:trigger EntryOk(mem, roles, pa, idx)} | pa in mem && idx < |mem[pa]| ::
          EntryOk(mem, roles, pa, idx))
  }

  ghost predicate IsRoot(roles: Roles, root: nat) {
    root in roles && roles[root] == RootRole(root)
  }

  /** The level-0 table for page v, or 0. */
  function Table0(mem: Mem, root: nat, v: nat): nat {
    Child(mem, Child(mem, root, I2(v)), I1(v))
  }

  /** The leaf entry for page v; 0 when a table on the way is missing. */
  function Leaf(mem: Mem, root: nat, v: nat): nat {
    var t := Table0(mem, root, v);
    if t in mem && I0(v) < |mem[t]| then mem[t][I0(v)] else 0
  }

  /** The page whose role is r, if any, is unique. */
  lemma RoleUnique(mem: Mem, roles: Roles, a: nat, b: nat)
    requires Forest(mem, roles) && a in roles && b in roles && roles[a] == roles[b]
    ensures a == b
  {
    assert RoleOk(mem, roles, a) && RoleOk(mem, roles, b);
  }

  lemma ChildFacts(mem: Mem, roles: Roles, pa: nat, idx: nat)
    requires Forest(mem, roles) && pa in roles && roles[pa].level > 0
    ensures var c := Child(mem, pa, idx);
            c != 0 ==> idx < ENTRIES && c in roles && roles[c] == ChildRole(roles[pa], idx)
  {
    assert RoleOk(mem, roles, pa);
    if idx < ENTRIES { assert EntryOk(mem, roles, pa, idx); }
  }

  /** Zero is never a table page, so a null child is not one either. */
  lemma ZeroNotTable(mem: Mem, roles: Roles)
    requires Forest(mem, roles)
    ensures 0 !in mem
  {
    assert forall pa | pa in roles :: RoleOk(mem, roles, pa);
  }

  // ---- walk adds an empty table ----

  function Zeros(): seq<nat> {
    seq(ENTRIES, _ => 0)
  }

  ghost function AddTable(mem: Mem, pa: nat, idx: nat, page: nat): Mem
    requires pa in mem && idx < |mem[pa]|
  {
    mem[page := Zeros()][pa := mem[pa][idx := MakePte(page, PTE_V)]]
  }

  ghost predicate CanAdd(mem: Mem, roles: Roles, pa: nat, idx: nat, page: nat) {
    && Forest(mem, roles) && pa in roles && roles[pa].level > 0 && idx < ENTRIES
    && |mem[pa]| == ENTRIES && !IsValid(mem[pa][idx])
    && page !in mem && page != 0 && page % PGSIZE == 0
  }

  lemma AddChild(mem: Mem, roles: Roles, pa: nat, idx: nat, page: nat, q: nat, j: nat)
    requires CanAdd(mem, roles, pa, idx, page)
    ensures q != page ==> Child(AddTable(mem, pa, idx, page), q, j)
                          == if q == pa && j == idx then page else Child(mem, q, j)
    ensures Child(AddTable(mem, pa, idx, page), page, j) == 0
  {
    PteRoundTrip(page, PTE_V);
  }

  lemma AddKeepsForest(mem: Mem, roles: Roles, pa: nat, idx: nat, page: nat)
    requires CanAdd(mem, roles, pa, idx, page)
    ensures Forest(AddTable(mem, pa, idx, page), roles[page := ChildRole(roles[pa], idx)])
  {
    var mem', roles' := AddTable(mem, pa, idx, page), roles[page := ChildRole(roles[pa], idx)];
    PteRoundTrip(page, PTE_V);
    ZeroNotTable(mem, roles);
    assert RoleOk(mem, roles, pa);
    forall q | q in roles' ensures RoleOk(mem', roles', q) {
      if q != page { AddRole(mem, roles, pa, idx, page, q); }
      else { AddNewRole(mem, roles, pa, idx, page); }
    }
    forall q: nat, j: nat | q in mem' && j < |mem'[q]| ensures EntryOk(mem', roles', q, j) {
      if q != page && (q, j) != (pa, idx) { assert EntryOk(mem, roles, q, j); }
    }
  }

  lemma AddRole(mem: Mem, roles: Roles, pa: nat, idx: nat, page: nat, q: nat)
    requires CanAdd(mem, roles, pa, idx, page) && q in roles
    ensures RoleOk(AddTable(mem, pa, idx, page), roles[page := ChildRole(roles[pa], idx)], q)
  {
    var r := roles[q];
    ZeroNotTable(mem, roles);
    assert RoleOk(mem, roles, q);
    AddChild(mem, roles, pa, idx, page, r.root, r.i2);
    AddChild(mem, roles, pa, idx, page, Child(mem, r.root, r.i2), r.i1);
    ChildFacts(mem, roles, r.root, r.i2);
    assert Child(mem, pa, idx) == 0;
  }

  lemma AddNewRole(mem: Mem, roles: Roles, pa: nat, idx: nat, page: nat)
    requires CanAdd(mem, roles, pa, idx, page)
    ensures RoleOk(AddTable(mem, pa, idx, page), roles[page := ChildRole(roles[pa], idx)], page)
  {
    var r := roles[pa];
    ZeroNotTable(mem, roles);
    assert RoleOk(mem, roles, pa);
    AddChild(mem, roles, pa, idx, page, r.root, idx);
    AddChild(mem, roles, pa, idx, page, r.root, r.i2);
    AddChild(mem, roles, pa, idx, page, pa, idx);
  }

  /** walk with alloc set changes no translation, of this page table or of another. */
  lemma AddKeepsLeaf(mem: Mem, roles: Roles, pa: nat, idx: nat, page: nat, root: nat, v: nat)
    requires CanAdd(mem, roles, pa, idx, page) && IsRoot(roles, root)
    ensures Leaf(AddTable(mem, pa, idx, page), root, v) == Leaf(mem, root, v)
  {
    ZeroNotTable(mem, roles);
    assert RoleOk(mem, roles, root) && RoleOk(mem, roles, pa);
    var t1 := Child(mem, root, I2(v));
    ChildFacts(mem, roles, root, I2(v));
    AddChild(mem, roles, pa, idx, page, root, I2(v));
    AddChild(mem, roles, pa, idx, page, t1, I1(v));
    AddChild(mem, roles, pa, idx, page, page, I1(v));
    if t1 != 0 {
      ChildFacts(mem, roles, t1, I1(v));
    }
    assert Child(mem, pa, idx) == 0;
  }

  // ---- uvmcreate adds an empty root ----

  /** A page outside every table is no one's child, so writing it changes no other's entries. */
  lemma OtherPage(mem: Mem, roles: Roles, page: nat, entries: seq<nat>, q: nat, j: nat)
    requires Forest(mem, roles) && page !in mem && q != page
    ensures Child(mem[page := entries], q, j) == Child(mem, q, j)
  {}

  lemma NotChild(mem: Mem, roles: Roles, page: nat, q: nat, j: nat)
    requires Forest(mem, roles) && page !in mem && page != 0 && q in roles && roles[q].level > 0
    ensures Child(mem, q, j) != page
  {
    ChildFacts(mem, roles, q, j);
  }

  lemma RootKeepsForest(mem: Mem, roles: Roles, root: nat)
    requires Forest(mem, roles) && root !in mem && root != 0 && root % PGSIZE == 0
    ensures Forest(mem[root := Zeros()], roles[root := RootRole(root)])
  {
    var mem', roles' := mem[root := Zeros()], roles[root := RootRole(root)];
    forall q | q in roles' ensures RoleOk(mem', roles', q) {
      if q != root {
        assert RoleOk(mem, roles, q);
        var r := roles[q];
        OtherPage(mem, roles, root, Zeros(), r.root, r.i2);
        NotChild(mem, roles, root, r.root, r.i2);
        OtherPage(mem, roles, root, Zeros(), Child(mem, r.root, r.i2), r.i1);
      }
    }
    forall q: nat, j: nat | q in mem' && j < |mem'[q]| ensures EntryOk(mem', roles', q, j) {
      if q != root {
        assert EntryOk(mem, roles, q, j);
      }
    }
  }

  lemma RootKeepsLeaf(mem: Mem, roles: Roles, page: nat, root: nat, v: nat)
    requires Forest(mem, roles) && page !in mem && page != 0 && IsRoot(roles, root)
    ensures Leaf(mem[page := Zeros()], root, v) == Leaf(mem, root, v)
  {
    var t1 := Child(mem, root, I2(v));
    OtherPage(mem, roles, page, Zeros(), root, I2(v));
    NotChild(mem, roles, page, root, I2(v));
    OtherPage(mem, roles, page, Zeros(), t1, I1(v));
    ChildFacts(mem, roles, root, I2(v));
    ZeroNotTable(mem, roles);
    if t1 != 0 {
      NotChild(mem, roles, page, t1, I1(v));
    }
  }

  // ---- Writing a leaf entry ----

  ghost function SetEntry(mem: Mem, pa: nat, idx: nat, pte: nat): Mem
    requires pa in mem && idx < |mem[pa]|
  {
    var entries: seq<nat> := mem[pa][idx := pte];
    mem[pa := entries]
  }

  lemma SetChild(mem: Mem, roles: Roles, t: nat, idx: nat, pte: nat, q: nat, j: nat)
    requires Forest(mem, roles) && t in roles && roles[t].level == 0 && idx < |mem[t]|
    requires q != t
    ensures Child(SetEntry(mem, t, idx, pte), q, j) == Child(mem, q, j)
  {}

  lemma SetKeepsForest(mem: Mem, roles: Roles, t: nat, idx: nat, pte: nat)
    requires Forest(mem, roles) && t in roles && roles[t].level == 0 && idx < |mem[t]|
    ensures Forest(SetEntry(mem, t, idx, pte), roles)
  {
    var mem' := SetEntry(mem, t, idx, pte);
    forall q | q in roles ensures RoleOk(mem', roles, q) {
      assert RoleOk(mem, roles, q);
      var r := roles[q];
      ZeroNotTable(mem, roles);
      ChildFacts(mem, roles, r.root, r.i2);
      SetChild(mem, roles, t, idx, pte, r.root, r.i2);
      if r.level == 0 { SetChild(mem, roles, t, idx, pte, Child(mem, r.root, r.i2), r.i1); }
    }
    forall q: nat, j: nat | q in mem' && j < |mem'[q]| ensures EntryOk(mem', roles, q, j) {
      if q != t { assert EntryOk(mem, roles, q, j); }
    }
  }

  /** Writing the entry for page w in its level-0 table changes that translation only. */
  lemma SetChangesOneLeaf(mem: Mem, roles: Roles, root: nat, w: nat, pte: nat, other: nat, v: nat)
    requires Forest(mem, roles) && IsRoot(roles, root) && IsRoot(roles, other) && Table0(mem, root, w) != 0
    ensures Table0(mem, root, w) in roles && roles[Table0(mem, root, w)] == Role(root, 0, I2(w), I1(w))
    ensures |mem[Table0(mem, root, w)]| == ENTRIES
    ensures Leaf(SetEntry(mem, Table0(mem, root, w), I0(w), pte), other, v)
            == if (other, v) == (root, w) then pte else Leaf(mem, other, v)
  {
    var t := Table0(mem, root, w);
    TableRole(mem, roles, root, w);
    TableRole(mem, roles, other, v);
    assert RoleOk(mem, roles, t);
    var t1 := Child(mem, other, I2(v));
    ChildFacts(mem, roles, other, I2(v));
    SetChild(mem, roles, t, I0(w), pte, other, I2(v));
    if t1 == t { RoleClash(mem, roles, other, v, t); }
    SetChild(mem, roles, t, I0(w), pte, t1, I1(v));
    var u := Table0(mem, other, v);
    assert Table0(SetEntry(mem, t, I0(w), pte), other, v) == u;
    if u == t && I0(v) == I0(w) { IndexInjective(v, w); }
    ZeroNotTable(mem, roles);
  }

  lemma RoleClash(mem: Mem, roles: Roles, root: nat, v: nat, t: nat)
    requires Forest(mem, roles) && IsRoot(roles, root) && t in roles && roles[t].level == 0
    ensures Child(mem, root, I2(v)) != t
  {
    ChildFacts(mem, roles, root, I2(v));
    ZeroNotTable(mem, roles);
  }

  lemma TableRole(mem: Mem, roles: Roles, root: nat, v: nat)
    requires Forest(mem, roles) && IsRoot(roles, root)
    ensures var t := Table0(mem, root, v); t != 0 ==> t in roles && roles[t] == Role(root, 0, I2(v), I1(v))
  {
    ChildFacts(mem, roles, root, I2(v));
    var t1 := Child(mem, root, I2(v));
    ZeroNotTable(mem, roles);
    if t1 != 0 { ChildFacts(mem, roles, t1, I1(v)); }
  }
}
