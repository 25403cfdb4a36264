/** What the operations on user page tables do to the memory of the machine as a whole. */
module VmSpec {
  import opened PageTable

  const PTE_R := 2
  const PTE_W := 4
  const PTE_X := 8

  /** The bytes of the physical pages that hold user memory. */
  type Data = map<nat, seq<nat>>

  /** The table pages and their roles, the data pages, and the free pages. */
  datatype Snap = Snap(mem: Mem, roles: Roles, free: set<nat>, data: Data)

  // ---- Sizes and entries ----

  /** perm | PTE_V. */
  function WithV(perm: nat): nat {
    if perm % 2 == 1 then perm else perm + 1
  }

  lemma ValidPte(pa: nat, flags: nat)
    requires flags % 2 == 1
    ensures IsValid(MakePte(pa, flags))
  {}

  lemma FlagsValid(pte: nat)
    requires IsValid(pte)
    ensures Flags(pte) < 1024 && Flags(pte) % 2 == 1
  {}

  /** PGROUNDUP(sz) / PGSIZE. */
  function RoundUp(sz: nat): nat {
    (sz + PGSIZE - 1) / PGSIZE
  }

  lemma RoundExact(v: nat)
    ensures RoundUp(v * PGSIZE) == v
  {}

  /** The pages that growing from one size to another adds. */
  function Span(from: nat, to: nat): nat {
    if from < to && RoundUp(from) < RoundUp(to) then RoundUp(to) - RoundUp(from) else 0
  }

  lemma SpanEnds(from: nat, to: nat)
    requires from <= to
    ensures RoundUp(from) + Span(from, to) == RoundUp(to)
  {}

  lemma RoundReached(sz: nat, v: nat)
    ensures v * PGSIZE < sz <==> v < RoundUp(sz)
  {}

  function Repeat<T>(n: nat, x: T): seq<T> {
    seq(n, _ => x)
  }

  lemma RepeatNext<T>(n: nat, m: nat, x: T)
    requires m == n + 1
    ensures Repeat(n, x) + [x] == Repeat(m, x)
  {}

  function Blank(n: nat): seq<nat> {
    Repeat<nat>(n, 0)
  }

  function ZeroPage(): seq<nat> {
    Blank(PGSIZE)
  }

  // ---- The flat map that a page table stands for ----

  /** An entry as the hardware sees it: 0 unless it is valid. */
  function Clean(pte: nat): nat {
    if IsValid(pte) then pte else 0
  }

  /** The valid leaf entry of page v, or 0. */
  function Trans(mem: Mem, root: nat, v: nat): nat {
    Clean(Leaf(mem, root, v))
  }

  ghost predicate SameLeaf(a: Mem, b: Mem, root: nat, v: nat) {
    Leaf(b, root, v) == Leaf(a, root, v)
  }

  /** The free pages that are gone became table pages. */
  ghost predicate Accounted(a: Snap, b: Snap) {
    && a.mem.Keys <= b.mem.Keys && b.mem.Keys - a.mem.Keys <= a.free
    && b.free == a.free - (b.mem.Keys - a.mem.Keys) && b.data == a.data
  }

  lemma AccountThen(a: Snap, b: Snap, c: Snap)
    requires Accounted(a, b) && Accounted(b, c)
    ensures Accounted(a, c)
  {
    assert c.mem.Keys - a.mem.Keys == (c.mem.Keys - b.mem.Keys) + (b.mem.Keys - a.mem.Keys);
  }

  /** Every table keeps its role, and the new ones are tables of this root. */
  ghost predicate RolesGrow(a: Roles, b: Roles, root: nat) {
    && (forall p {:trigger p in b} {:trigger p in a} | p in a :: p in b && b[p] == a[p])
    && (forall p {:trigger b[p]} | p in b && p !in a :: b[p].root == root)
  }

  ghost predicate RootsKept(a: Snap, b: Snap) {
    forall r | IsRoot(a.roles, r) :: IsRoot(b.roles, r)
  }

  /** From a to b only table pages were added, out of the free pages. */
  ghost predicate Grown(a: Snap, b: Snap) {
    && Accounted(a, b) && RootsKept(a, b)
    && (forall r, v: nat | IsRoot(a.roles, r) :: SameLeaf(a.mem, b.mem, r, v))
  }

  lemma GrownTrans(a: Snap, b: Snap, c: Snap)
    requires Grown(a, b) && Grown(b, c)
    ensures Grown(a, c)
  {
    AccountThen(a, b, c);
    forall r, v: nat | IsRoot(a.roles, r) ensures SameLeaf(a.mem, c.mem, r, v) {
      assert SameLeaf(a.mem, b.mem, r, v) && SameLeaf(b.mem, c.mem, r, v);
    }
  }

  lemma GrownRefl(a: Snap)
    ensures Grown(a, a)
  {}

  ghost function Added(s: Snap, table: nat, idx: nat, page: nat): Snap
    requires table in s.mem && table in s.roles && idx < |s.mem[table]|
  {
    s.(mem := AddTable(s.mem, table, idx, page), roles := s.roles[page := ChildRole(s.roles[table], idx)])
  }

  /** A table page added where there was none changes no translation. */
  lemma AddIsGrown(s: Snap, table: nat, idx: nat, page: nat)
    requires CanAdd(s.mem, s.roles, table, idx, page) && page !in s.free
    ensures Grown(s.(free := s.free + {page}), Added(s, table, idx, page))
    ensures Child(Added(s, table, idx, page).mem, table, idx) == page
  {
    var b := Added(s, table, idx, page);
    assert b.mem.Keys - s.mem.Keys == {page};
    forall r, v: nat | IsRoot(s.roles, r) ensures SameLeaf(s.mem, b.mem, r, v) {
      AddKeepsLeaf(s.mem, s.roles, table, idx, page, r, v);
    }
    AddChild(s.mem, s.roles, table, idx, page, table, idx);
  }

  /** A new root page, all zeros, changes no translation and has none of its own. */
  lemma NewRoot(s: Snap, root: nat)
    requires Forest(s.mem, s.roles) && root in s.free && FreeOk(s.mem, s.data, root)
    ensures var b := Snap(s.mem[root := Zeros()], s.roles[root := RootRole(root)], s.free - {root}, s.data);
            && Forest(b.mem, b.roles) && Grown(s, b) && IsRoot(b.roles, root)
            && forall v: nat :: VacantAt(b.mem, root, v)
  {
    var b := Snap(s.mem[root := Zeros()], s.roles[root := RootRole(root)], s.free - {root}, s.data);
    RootKeepsForest(s.mem, s.roles, root);
    assert b.mem.Keys - s.mem.Keys == {root};
    forall r, v: nat | IsRoot(s.roles, r) ensures SameLeaf(s.mem, b.mem, r, v) {
      RootKeepsLeaf(s.mem, s.roles, root, r, v);
    }
    ZeroNotTable(b.mem, b.roles);
    forall v: nat ensures VacantAt(b.mem, root, v) {
      assert Child(b.mem, root, I2(v)) == 0;
    }
  }

  // ---- Changes to a range of translations ----

  ghost predicate EditedAt(a: Mem, b: Mem, root: nat, lo: nat, ptes: seq<nat>, r: nat, w: nat) {
    Trans(b, r, w) == if r == root && lo <= w < lo + |ptes| then ptes[w - lo] else Trans(a, r, w)
  }

  /** From a to b, pages lo, lo+1, ... of one page table get the entries ptes, and no other
      translation of any page table changes. */
  ghost predicate Edited(a: Snap, b: Snap, root: nat, lo: nat, ptes: seq<nat>) {
    && RootsKept(a, b)
    && (forall r: nat, w: nat | IsRoot(a.roles, r) :: EditedAt(a.mem, b.mem, root, lo, ptes, r, w))
  }

  lemma GrownEdits(a: Snap, b: Snap, root: nat, lo: nat)
    requires Grown(a, b)
    ensures Edited(a, b, root, lo, [])
  {
    forall r: nat, w: nat | IsRoot(a.roles, r) ensures EditedAt(a.mem, b.mem, root, lo, [], r, w) {
      assert SameLeaf(a.mem, b.mem, r, w);
    }
  }

  lemma EditNone(a: Snap, root: nat, lo: nat)
    ensures Edited(a, a, root, lo, [])
  {
    GrownRefl(a);
    GrownEdits(a, a, root, lo);
  }

  lemma EditThen(a: Snap, b: Snap, c: Snap, root: nat, lo: nat, ptes: seq<nat>, more: seq<nat>, mid: nat)
    requires Edited(a, b, root, lo, ptes) && Edited(b, c, root, mid, more) && mid == lo + |ptes|
    ensures Edited(a, c, root, lo, ptes + more)
  {
    forall r: nat, w: nat | IsRoot(a.roles, r) ensures EditedAt(a.mem, c.mem, root, lo, ptes + more, r, w) {
      assert EditedAt(a.mem, b.mem, root, lo, ptes, r, w) && EditedAt(b.mem, c.mem, root, mid, more, r, w);
    }
  }

  lemma EditSame(a: Snap, b: Snap, c: Snap, root: nat, v: nat, pte: nat)
    requires Edited(a, b, root, v, []) && Edited(b, c, root, v, [pte])
    ensures Edited(a, c, root, v, [pte])
  {
    forall r: nat, w: nat | IsRoot(a.roles, r) ensures EditedAt(a.mem, c.mem, root, v, [pte], r, w) {
      assert EditedAt(a.mem, b.mem, root, v, [], r, w) && EditedAt(b.mem, c.mem, root, v, [pte], r, w);
    }
  }

  lemma LeafEntry(mem: Mem, roles: Roles, root: nat, v: nat)
    requires Forest(mem, roles) && IsRoot(roles, root) && Table0(mem, root, v) != 0
    ensures Table0(mem, root, v) in mem && |mem[Table0(mem, root, v)]| == ENTRIES
    ensures mem[Table0(mem, root, v)][I0(v)] == Leaf(mem, root, v)
  {
    TableRole(mem, roles, root, v);
    assert RoleOk(mem, roles, Table0(mem, root, v));
  }

  /** Writing one leaf entry changes that translation and no other. */
  lemma SetEdits(s: Snap, root: nat, v: nat, pte: nat)
    requires Forest(s.mem, s.roles) && IsRoot(s.roles, root) && Table0(s.mem, root, v) != 0 && Clean(pte) == pte
    ensures var t := Table0(s.mem, root, v);
            && t in s.roles && s.roles[t].level == 0 && t in s.mem && I0(v) < |s.mem[t]| == ENTRIES
            && Edited(s, s.(mem := SetEntry(s.mem, t, I0(v), pte)), root, v, [pte])
  {
    SetChangesOneLeaf(s.mem, s.roles, root, v, pte, root, v);
    var mem' := SetEntry(s.mem, Table0(s.mem, root, v), I0(v), pte);
    forall r: nat, w: nat | IsRoot(s.roles, r) ensures EditedAt(s.mem, mem', root, v, [pte], r, w) {
      SetChangesOneLeaf(s.mem, s.roles, root, v, pte, r, w);
    }
  }

  /** The entries mappages writes. */
  function Ptes(pa: nat, n: nat, flags: nat): seq<nat> {
    seq(n, i requires 0 <= i < n => MakePte(pa + i * PGSIZE, flags))
  }

  lemma PtesNext(pa: nat, n: nat, m: nat, flags: nat, pte: nat)
    requires m == n + 1 && pte == MakePte(pa + n * PGSIZE, flags)
    ensures Ptes(pa, n, flags) + [pte] == Ptes(pa, m, flags)
  {}

  // ---- Free pages and data pages ----

  /** A free page is page-aligned and is neither a table page nor a data page. */
  ghost predicate FreeOk(mem: Mem, data: Data, p: nat) {
    p != 0 && p % PGSIZE == 0 && p !in mem && p !in data
  }

  ghost predicate DataOk(mem: Mem, data: Data, p: nat)
    requires p in data
  {
    p != 0 && p % PGSIZE == 0 && p !in mem && |data[p]| == PGSIZE
  }

  ghost predicate PagesOk(mem: Mem, data: Data, free: set<nat>) {
    && (forall p {:trigger FreeOk(mem, data, p)} | p in free :: FreeOk(mem, data, p))
    && (forall p {:trigger DataOk(mem, data, p)} | p in data :: DataOk(mem, data, p))
  }

  /** Pages that leave a set, or a new table outside both sets, disturb nothing. */
  lemma PagesShrink(mem: Mem, data: Data, free: set<nat>, mem': Mem, free': set<nat>, page: nat)
    requires PagesOk(mem, data, free) && (page in mem || (page !in free' && page !in data))
    requires mem'.Keys <= mem.Keys + {page} && free' <= free
    ensures PagesOk(mem', data, free')
  {
    forall p | p in free' ensures FreeOk(mem', data, p) {
      assert FreeOk(mem, data, p);
    }
    forall p | p in data ensures DataOk(mem', data, p) {
      assert DataOk(mem, data, p);
    }
  }

  /** A page taken from the free set becomes a data page. */
  lemma PagesTake(mem: Mem, data: Data, free: set<nat>, pa: nat, bytes: seq<nat>)
    requires PagesOk(mem, data, free) && pa in free && |bytes| == PGSIZE
    ensures FreeOk(mem, data, pa) && PagesOk(mem, data[pa := bytes], free - {pa})
  {
    assert FreeOk(mem, data, pa);
    forall p | p in free - {pa} ensures FreeOk(mem, data[pa := bytes], p) {
      assert FreeOk(mem, data, p);
    }
    var data' := data[pa := bytes];
    forall p | p in data' ensures DataOk(mem, data', p) {
      assert p != pa ==> DataOk(mem, data, p);
    }
  }

  /** A data page becomes free. */
  lemma PagesGive(mem: Mem, data: Data, free: set<nat>, pa: nat)
    requires PagesOk(mem, data, free) && pa in data
    ensures pa !in free && PagesOk(mem, data - {pa}, free + {pa})
  {
    assert DataOk(mem, data, pa) && (pa in free ==> FreeOk(mem, data, pa));
    forall p | p in free + {pa} ensures FreeOk(mem, data - {pa}, p) {
      assert p != pa ==> FreeOk(mem, data, p);
    }
    forall p | p in data - {pa} ensures DataOk(mem, data - {pa}, p) {
      assert DataOk(mem, data, p);
    }
  }

  lemma PagesPoke(mem: Mem, data: Data, free: set<nat>, pa: nat, bytes: seq<nat>)
    requires PagesOk(mem, data, free) && pa in data && |bytes| == PGSIZE
    ensures PagesOk(mem, data[pa := bytes], free)
  {
    var data' := data[pa := bytes];
    forall p | p in free ensures FreeOk(mem, data', p) {
      assert FreeOk(mem, data, p);
    }
    forall p | p in data' ensures DataOk(mem, data', p) {
      assert DataOk(mem, data, p);
    }
  }

  // ---- Ranges of mapped pages ----

  ghost predicate RemovableAt(mem: Mem, root: nat, w: nat) {
    Trans(mem, root, w) != 0 && Flags(Trans(mem, root, w)) != PTE_V
  }

  /** Every page from lo up to hi has a leaf entry. */
  ghost predicate Removable(mem: Mem, root: nat, lo: nat, hi: nat) {
    forall w {:trigger RemovableAt(mem, root, w)} | lo <= w < hi :: RemovableAt(mem, root, w)
  }

  lemma RemovableNext(mem: Mem, root: nat, lo: nat, at: nat, next: nat)
    requires Removable(mem, root, lo, at) && RemovableAt(mem, root, at) && next == at + 1
    ensures Removable(mem, root, lo, next)
  {}

  lemma RemovableUpTo(mem: Mem, root: nat, at: nat, hi: nat)
    requires at <= hi && !Removable(mem, root, 0, at)
    ensures !Removable(mem, root, 0, hi)
  {}

  ghost predicate OwnedAt(mem: Mem, data: Data, root: nat, w: nat) {
    Trans(mem, root, w) != 0 ==> PTE2PA(Trans(mem, root, w)) in data
  }

  ghost predicate Apart(mem: Mem, root: nat, v: nat, w: nat) {
    v != w && Trans(mem, root, v) != 0 && Trans(mem, root, w) != 0 ==>
      PTE2PA(Trans(mem, root, v)) != PTE2PA(Trans(mem, root, w))
  }

  /** The mapped pages from lo up to hi are data pages, and no two are the same. */
  ghost predicate Owned(mem: Mem, data: Data, root: nat, lo: nat, hi: nat) {
    && (forall w {:trigger OwnedAt(mem, data, root, w)} | lo <= w < hi :: OwnedAt(mem, data, root, w))
    && (forall v, w {:trigger Apart(mem, root, v, w)} | lo <= v < hi && lo <= w < hi :: Apart(mem, root, v, w))
  }

  /** The physical pages that pages lo up to hi map to. */
  ghost function Pages(mem: Mem, root: nat, lo: nat, hi: nat): set<nat>
    decreases hi
  {
    if lo < hi then Pages(mem, root, lo, hi - 1) + {PTE2PA(Trans(mem, root, hi - 1))} else {}
  }

  lemma PagesNext(mem: Mem, root: nat, lo: nat, hi: nat, next: nat)
    requires lo <= hi && next == hi + 1
    ensures Pages(mem, root, lo, next) == Pages(mem, root, lo, hi) + {PTE2PA(Trans(mem, root, hi))}
  {}

  lemma {:induction false} NotAmong(mem: Mem, data: Data, root: nat, lo: nat, k: nat, at: nat, hi: nat)
    requires lo <= k <= at < hi && Owned(mem, data, root, lo, hi) && Removable(mem, root, lo, at)
    requires Trans(mem, root, at) != 0
    ensures PTE2PA(Trans(mem, root, at)) !in Pages(mem, root, lo, k)
    decreases k
  {
    if lo < k {
      NotAmong(mem, data, root, lo, k - 1, at, hi);
      assert Apart(mem, root, k - 1, at) && RemovableAt(mem, root, k - 1);
    }
  }

  // ---- uvmunmap ----

  ghost function Freed(doFree: bool, pages: set<nat>): set<nat> {
    if doFree then pages else {}
  }

  /** Exactly these data pages have become free. */
  ghost predicate Released(a: Snap, b: Snap, pages: set<nat>) {
    b.free == a.free + pages && b.data == a.data - pages
  }

  lemma ReleaseThen(a: Snap, b: Snap, c: Snap, doFree: bool, gone: set<nat>, pa: nat)
    requires Released(a, b, Freed(doFree, gone)) && Released(b, c, Freed(doFree, {pa}))
    ensures Released(a, c, Freed(doFree, gone + {pa}))
  {}

  /** From a to b the n pages from lo on lost their entries and, with doFree, were freed. */
  ghost predicate Unmapped(a: Snap, b: Snap, root: nat, lo: nat, n: nat, doFree: bool) {
    && b.roles == a.roles && b.mem.Keys == a.mem.Keys
    && Edited(a, b, root, lo, Blank(n))
    && Released(a, b, Freed(doFree, Pages(a.mem, root, lo, lo + n)))
  }

  lemma UnmapNone(a: Snap, root: nat, lo: nat, doFree: bool)
    ensures Unmapped(a, a, root, lo, 0, doFree)
  {
    EditNone(a, root, lo);
    assert Blank(0) == [];
  }

  lemma UnmapReady(a: Snap, b: Snap, root: nat, lo: nat, n: nat, doFree: bool, at: nat, hi: nat)
    requires Unmapped(a, b, root, lo, n, doFree) && at == lo + n < hi && IsRoot(a.roles, root)
    requires Removable(a.mem, root, lo, at) && (doFree ==> Owned(a.mem, a.data, root, lo, hi))
    ensures Trans(b.mem, root, at) == Trans(a.mem, root, at) && (doFree ==> OwnedAt(b.mem, b.data, root, at))
    ensures RemovableAt(b.mem, root, at) == RemovableAt(a.mem, root, at)
  {
    assert EditedAt(a.mem, b.mem, root, lo, Blank(n), root, at);
    if doFree && Trans(a.mem, root, at) != 0 {
      assert OwnedAt(a.mem, a.data, root, at);
      NotAmong(a.mem, a.data, root, lo, at, at, hi);
    }
  }

  lemma UnmapMore(a: Snap, b: Snap, c: Snap, root: nat, lo: nat, n: nat, doFree: bool, at: nat)
    requires Unmapped(a, b, root, lo, n, doFree) && at == lo + n
    requires c.roles == b.roles && c.mem.Keys == b.mem.Keys && Edited(b, c, root, at, [0])
    requires Trans(b.mem, root, at) == Trans(a.mem, root, at)
    requires Released(b, c, Freed(doFree, {PTE2PA(Trans(b.mem, root, at))}))
    ensures Unmapped(a, c, root, lo, n + 1, doFree)
  {
    var m, hi := n + 1, lo + (n + 1);
    var gone, pa := Pages(a.mem, root, lo, at), PTE2PA(Trans(b.mem, root, at));
    assert Edited(a, c, root, lo, Blank(m)) by {
      EditThen(a, b, c, root, lo, Blank(n), [0], at);
      RepeatNext<nat>(n, m, 0);
    }
    ReleaseThen(a, b, c, doFree, gone, pa);
    PagesNext(a.mem, root, lo, at, hi);
  }

  // ---- Pages taken for a user address space ----

  ghost predicate HoldsAt(data: Data, pas: seq<nat>, contents: seq<seq<nat>>, i: nat)
    requires i < |pas| && i < |contents|
  {
    pas[i] in data && data[pas[i]] == contents[i]
  }

  ghost predicate Different(pas: seq<nat>, i: nat, j: nat)
    requires i < |pas| && j < |pas|
  {
    i != j ==> pas[i] != pas[j]
  }

  ghost function Elems(pas: seq<nat>): set<nat> {
    set p | p in pas
  }

  lemma ElemsNext(pas: seq<nat>, j: nat, k: nat)
    requires k == j + 1 <= |pas|
    ensures Elems(pas[..k]) == Elems(pas[..j]) + {pas[j]}
  {
    assert pas[..k] == pas[..j] + [pas[j]];
  }

  /** From a to b, the pages pas became data pages with these contents, some more free pages
      became table pages, and no page was lost. */
  ghost predicate Took(a: Snap, b: Snap, pas: seq<nat>, contents: seq<seq<nat>>) {
    && |pas| == |contents|
    && a.mem.Keys <= b.mem.Keys && b.mem.Keys - a.mem.Keys <= a.free && Elems(pas) <= a.free && Elems(pas) !! b.mem.Keys
    && b.free == a.free - (b.mem.Keys - a.mem.Keys) - Elems(pas)
    && Elems(pas) !! a.data.Keys && a.data == b.data - Elems(pas)
    && (forall i: nat {:trigger HoldsAt(b.data, pas, contents, i)} | i < |pas| :: HoldsAt(b.data, pas, contents, i))
    && (forall i: nat, j: nat {:trigger Different(pas, i, j)} | i < |pas| && j < |pas| :: Different(pas, i, j))
  }

  lemma TookOne(a: Snap, b: Snap, pa: nat, bytes: seq<nat>)
    requires pa in a.free && pa !in a.mem && pa !in a.data
    requires Accounted(a.(free := a.free - {pa}, data := a.data[pa := bytes]), b)
    ensures Took(a, b, [pa], [bytes])
    ensures Took(a, b.(free := b.free + {pa}, data := b.data - {pa}), [], [])
  {
    assert Elems([pa]) == {pa};
    assert a.data == b.data - {pa};
    assert HoldsAt(b.data, [pa], [bytes], 0);
  }

  lemma TookMore(a: Snap, b: Snap, c: Snap, pas: seq<nat>, contents: seq<seq<nat>>, more: seq<nat>,
                 bytes: seq<seq<nat>>)
    requires Took(a, b, pas, contents) && Took(b, c, more, bytes)
    ensures Took(a, c, pas + more, contents + bytes)
  {
    var pas', contents' := pas + more, contents + bytes;
    assert c.mem.Keys - a.mem.Keys == (c.mem.Keys - b.mem.Keys) + (b.mem.Keys - a.mem.Keys);
    assert Elems(pas') == Elems(pas) + Elems(more);
    forall i: nat | i < |pas'| ensures HoldsAt(c.data, pas', contents', i) {
      if i < |pas| {
        assert HoldsAt(b.data, pas, contents, i);
      } else {
        assert HoldsAt(c.data, more, bytes, i - |pas|);
      }
    }
    forall i: nat, j: nat | i < |pas'| && j < |pas'| ensures Different(pas', i, j) {
      if i < |pas| && j < |pas| {
        assert Different(pas, i, j);
      } else if i >= |pas| && j >= |pas| {
        assert Different(more, i - |pas|, j - |pas|);
      } else {
        assert pas'[i] in Elems(if i < |pas| then pas else more) && pas'[j] in Elems(if j < |pas| then pas else more);
      }
    }
  }

  ghost predicate VacantAt(mem: Mem, root: nat, w: nat) {
    Trans(mem, root, w) == 0
  }

  /** Nothing is mapped from lo up to hi. */
  ghost predicate Vacant(mem: Mem, root: nat, lo: nat, hi: nat) {
    forall w {:trigger VacantAt(mem, root, w)} | lo <= w < hi :: VacantAt(mem, root, w)
  }

  lemma VacantNext(mem: Mem, root: nat, lo: nat, at: nat, next: nat)
    requires Vacant(mem, root, lo, at) && Trans(mem, root, at) == 0 && next == at + 1
    ensures Vacant(mem, root, lo, next)
  {}

  function PtesOf(pas: seq<nat>, flags: seq<nat>): seq<nat>
    requires |pas| == |flags|
  {
    seq(|pas|, i requires 0 <= i < |pas| => MakePte(pas[i], flags[i]))
  }

  ghost predicate LeafFlags(flags: seq<nat>, i: nat)
    requires i < |flags|
  {
    flags[i] < 1024 && flags[i] % 2 == 1
  }

  /** From a to b, fresh pages pas with these contents and flags were mapped from page lo on,
      where nothing was mapped before, and no other translation changed. */
  ghost predicate Built(a: Snap, b: Snap, root: nat, lo: nat, pas: seq<nat>, contents: seq<seq<nat>>, flags: seq<nat>) {
    && |flags| == |pas| && Vacant(a.mem, root, lo, lo + |pas|)
    && (forall i: nat {:trigger LeafFlags(flags, i)} | i < |flags| :: LeafFlags(flags, i))
    && Edited(a, b, root, lo, PtesOf(pas, flags))
    && Took(a, b, pas, contents)
  }

  /** From a to b only table pages were added: every translation and every data page is the same. */
  ghost predicate Intact(a: Snap, b: Snap, root: nat, lo: nat) {
    Edited(a, b, root, lo, []) && Accounted(a, b)
  }

  lemma BuiltNone(a: Snap, root: nat, lo: nat)
    ensures Built(a, a, root, lo, [], [], [])
  {
    EditNone(a, root, lo);
    assert PtesOf([], []) == [];
  }

  lemma BuiltMore(a: Snap, b: Snap, c: Snap, root: nat, lo: nat, pas: seq<nat>, contents: seq<seq<nat>>,
                  flags: seq<nat>,
                  at: nat, pa: nat, bytes: seq<nat>, flag: nat)
    requires Built(a, b, root, lo, pas, contents, flags) && at == lo + |pas| && IsRoot(a.roles, root)
    requires Edited(b, c, root, at, [MakePte(pa, flag)]) && Took(b, c, [pa], [bytes])
    requires Trans(b.mem, root, at) == 0 && flag < 1024 && flag % 2 == 1
    ensures Built(a, c, root, lo, pas + [pa], contents + [bytes], flags + [flag])
  {
    var pas', flags' := pas + [pa], flags + [flag];
    assert EditedAt(a.mem, b.mem, root, lo, PtesOf(pas, flags), root, at);
    VacantNext(a.mem, root, lo, at, lo + |pas'|);
    assert forall i: nat | i < |flags'| :: LeafFlags(flags', i) by {
      forall i: nat | i < |flags'| ensures LeafFlags(flags', i) {
        assert i < |flags| ==> LeafFlags(flags, i);
      }
    }
    EditThen(a, b, c, root, lo, PtesOf(pas, flags), [MakePte(pa, flag)], at);
    assert PtesOf(pas', flags') == PtesOf(pas, flags) + [MakePte(pa, flag)];
    TookMore(a, b, c, pas, contents, [pa], [bytes]);
  }

  lemma BuiltSame(a: Snap, b: Snap, c: Snap, root: nat, lo: nat, pas: seq<nat>, contents: seq<seq<nat>>,
                  flags: seq<nat>, at: nat)
    requires Built(a, b, root, lo, pas, contents, flags) && at == lo + |pas|
    requires Edited(b, c, root, at, []) && Took(b, c, [], [])
    ensures Built(a, c, root, lo, pas, contents, flags)
  {
    EditThen(a, b, c, root, lo, PtesOf(pas, flags), [], at);
    assert PtesOf(pas, flags) + [] == PtesOf(pas, flags);
    TookMore(a, b, c, pas, contents, [], []);
    assert pas + [] == pas && contents + [] == contents;
  }

  lemma BuiltAt(a: Snap, b: Snap, root: nat, lo: nat, pas: seq<nat>, contents: seq<seq<nat>>, flags: seq<nat>,
                i: nat, w: nat)
    requires Built(a, b, root, lo, pas, contents, flags) && IsRoot(a.roles, root) && PagesOk(b.mem, b.data, b.free)
    requires i < |pas| && w == lo + i
    ensures Trans(b.mem, root, w) != 0 && PTE2PA(Trans(b.mem, root, w)) == pas[i]
    ensures Flags(Trans(b.mem, root, w)) == flags[i]
    ensures pas[i] in b.data
  {
    assert EditedAt(a.mem, b.mem, root, lo, PtesOf(pas, flags), root, w);
    assert LeafFlags(flags, i) && HoldsAt(b.data, pas, contents, i) && DataOk(b.mem, b.data, pas[i]);
    PteRoundTrip(pas[i], flags[i]);
  }

  lemma BuiltOwned(a: Snap, b: Snap, root: nat, lo: nat, pas: seq<nat>, contents: seq<seq<nat>>, flags: seq<nat>,
                   at: nat)
    requires Built(a, b, root, lo, pas, contents, flags) && IsRoot(a.roles, root) && PagesOk(b.mem, b.data, b.free)
    requires at == lo + |pas|
    ensures Owned(b.mem, b.data, root, lo, at)
  {
    forall w | lo <= w < at ensures OwnedAt(b.mem, b.data, root, w) {
      BuiltAt(a, b, root, lo, pas, contents, flags, w - lo, w);
    }
    forall v, w | lo <= v < at && lo <= w < at ensures Apart(b.mem, root, v, w) {
      BuiltAt(a, b, root, lo, pas, contents, flags, v - lo, v);
      BuiltAt(a, b, root, lo, pas, contents, flags, w - lo, w);
      assert Different(pas, v - lo, w - lo);
    }
  }

  lemma BuiltRemovable(a: Snap, b: Snap, root: nat, lo: nat, pas: seq<nat>, contents: seq<seq<nat>>, flags: seq<nat>,
                       at: nat)
    requires Built(a, b, root, lo, pas, contents, flags) && IsRoot(a.roles, root) && PagesOk(b.mem, b.data, b.free)
    requires at == lo + |pas| && forall i | 0 <= i < |flags| :: flags[i] != PTE_V
    ensures Removable(b.mem, root, lo, at)
  {
    forall w | lo <= w < at ensures RemovableAt(b.mem, root, w) {
      BuiltAt(a, b, root, lo, pas, contents, flags, w - lo, w);
    }
  }

  lemma {:induction false} BuiltPages(a: Snap, b: Snap, root: nat, lo: nat, pas: seq<nat>, contents: seq<seq<nat>>,
                                      flags: seq<nat>,
                                      k: nat, at: nat)
    requires Built(a, b, root, lo, pas, contents, flags) && IsRoot(a.roles, root) && PagesOk(b.mem, b.data, b.free)
    requires k <= |pas| && at == lo + k
    ensures Pages(b.mem, root, lo, at) == Elems(pas[..k])
    decreases k
  {
    if k > 0 {
      var j, prev := k - 1, at - 1;
      BuiltPages(a, b, root, lo, pas, contents, flags, j, prev);
      BuiltAt(a, b, root, lo, pas, contents, flags, j, prev);
      PagesNext(b.mem, root, lo, prev, at);
      ElemsNext(pas, j, k);
    }
  }

  lemma UndoEdit(a: Snap, b: Snap, c: Snap, root: nat, lo: nat, ptes: seq<nat>)
    requires Edited(a, b, root, lo, ptes) && Edited(b, c, root, lo, Blank(|ptes|))
    requires Vacant(a.mem, root, lo, lo + |ptes|)
    ensures Edited(a, c, root, lo, [])
  {
    forall r: nat, w: nat | IsRoot(a.roles, r) ensures EditedAt(a.mem, c.mem, root, lo, [], r, w) {
      assert EditedAt(a.mem, b.mem, root, lo, ptes, r, w) && EditedAt(b.mem, c.mem, root, lo, Blank(|ptes|), r, w);
      assert lo <= w < lo + |ptes| ==> VacantAt(a.mem, root, w);
    }
  }

  /** Unmapping and freeing what was built leaves every translation and data page as it was. */
  lemma BuiltUndo(a: Snap, b: Snap, c: Snap, root: nat, lo: nat, pas: seq<nat>, contents: seq<seq<nat>>,
                  flags: seq<nat>)
    requires Built(a, b, root, lo, pas, contents, flags) && IsRoot(a.roles, root) && PagesOk(b.mem, b.data, b.free)
    requires Unmapped(b, c, root, lo, |pas|, true)
    ensures Intact(a, c, root, lo)
  {
    BuiltPages(a, b, root, lo, pas, contents, flags, |pas|, lo + |pas|);
    assert pas[..|pas|] == pas;
    UndoEdit(a, b, c, root, lo, PtesOf(pas, flags));
  }

  // ---- uvmalloc ----

  /** From a to b, fresh zeroed pages pas were mapped from page lo on, all with the same flags. */
  ghost predicate Extended(a: Snap, b: Snap, root: nat, lo: nat, pas: seq<nat>, flag: nat) {
    Built(a, b, root, lo, pas, Repeat(|pas|, ZeroPage()), Repeat(|pas|, flag))
  }

  lemma ExtendedNone(a: Snap, root: nat, lo: nat, flag: nat)
    ensures Extended(a, a, root, lo, [], flag)
  {
    BuiltNone(a, root, lo);
    assert Repeat(0, ZeroPage()) == [] && Repeat(0, flag) == [];
  }

  lemma ExtendedReady(a: Snap, b: Snap, root: nat, lo: nat, pas: seq<nat>, flag: nat, at: nat)
    requires Extended(a, b, root, lo, pas, flag) && IsRoot(a.roles, root) && at == lo + |pas|
    ensures IsRoot(b.roles, root) && Trans(b.mem, root, at) == Trans(a.mem, root, at)
  {
    assert EditedAt(a.mem, b.mem, root, lo, PtesOf(pas, Repeat(|pas|, flag)), root, at);
  }

  lemma ExtendedSame(a: Snap, b: Snap, c: Snap, root: nat, lo: nat, pas: seq<nat>, flag: nat, at: nat)
    requires Extended(a, b, root, lo, pas, flag) && at == lo + |pas|
    requires Edited(b, c, root, at, []) && Took(b, c, [], [])
    ensures Extended(a, c, root, lo, pas, flag)
  {
    BuiltSame(a, b, c, root, lo, pas, Repeat(|pas|, ZeroPage()), Repeat(|pas|, flag), at);
  }

  lemma ExtendedMore(a: Snap, b: Snap, c: Snap, root: nat, lo: nat, pas: seq<nat>, flag: nat, at: nat, pa: nat)
    requires Extended(a, b, root, lo, pas, flag) && IsRoot(a.roles, root) && at == lo + |pas|
    requires Edited(b, c, root, at, [MakePte(pa, flag)]) && Took(b, c, [pa], [ZeroPage()])
    requires Trans(b.mem, root, at) == 0 && flag < 1024 && flag % 2 == 1
    ensures Extended(a, c, root, lo, pas + [pa], flag)
  {
    var n, m := |pas|, |pas + [pa]|;
    BuiltMore(a, b, c, root, lo, pas, Repeat(n, ZeroPage()), Repeat(n, flag), at, pa, ZeroPage(), flag);
    RepeatNext(n, m, ZeroPage());
    RepeatNext(n, m, flag);
  }

  // ---- copyin and copyout ----

  /** The physical page of user page v, or 0: walkaddr's answer. */
  function UserPage(mem: Mem, root: nat, v: nat): nat {
    var e := Trans(mem, root, v);
    if v < MAXPAGES && e != 0 && e / PTE_U % 2 == 1 then PTE2PA(e) else 0
  }

  ghost predicate UserAt(mem: Mem, data: Data, root: nat, v: nat) {
    var p := UserPage(mem, root, v);
    p != 0 ==> p in data && |data[p]| == PGSIZE
  }

  ghost predicate UserApart(mem: Mem, root: nat, v: nat, w: nat) {
    v != w && UserPage(mem, root, v) != 0 ==> UserPage(mem, root, v) != UserPage(mem, root, w)
  }

  /** Every user page has a data page of its own. */
  ghost predicate UserOk(mem: Mem, data: Data, root: nat) {
    && (forall v: nat {:trigger UserAt(mem, data, root, v)} :: UserAt(mem, data, root, v))
    && (forall v: nat, w: nat {:trigger UserApart(mem, root, v, w)} :: UserApart(mem, root, v, w))
  }

  predicate MappedAt(mem: Mem, root: nat, va: nat) {
    UserPage(mem, root, va / PGSIZE) != 0
  }

  /** User memory as a flat map from addresses to bytes. */
  function ByteAt(mem: Mem, data: Data, root: nat, va: nat): nat {
    var p := UserPage(mem, root, va / PGSIZE);
    if p in data && va % PGSIZE < |data[p]| then data[p][va % PGSIZE] else 0
  }

  /** The page with a piece of it written over. */
  function Poked(page: seq<nat>, off: nat, piece: seq<nat>): seq<nat>
    requires off + |piece| <= |page|
  {
    page[..off] + piece + page[off + |piece|..]
  }

  ghost predicate WrittenAt(mem: Mem, a: Data, b: Data, root: nat, va: nat, bytes: seq<nat>, x: nat) {
    ByteAt(mem, b, root, x) == if va <= x < va + |bytes| then bytes[x - va] else ByteAt(mem, a, root, x)
  }

  ghost predicate Maps(mem: Mem, root: nat, p: nat) {
    exists v: nat :: UserPage(mem, root, v) == p
  }

  ghost predicate PageKept(mem: Mem, a: Data, b: Data, root: nat, p: nat) {
    Maps(mem, root, p) || (p in a && p in b && b[p] == a[p])
  }

  /** From a to b, the bytes at va, va+1, ... of one user memory are these, and no other byte
      of it changed; nor did any page but those it maps. */
  ghost predicate Written(mem: Mem, a: Data, b: Data, root: nat, va: nat, bytes: seq<nat>) {
    && b.Keys == a.Keys
    && (forall p {:trigger PageKept(mem, a, b, root, p)} | p in a :: PageKept(mem, a, b, root, p))
    && (forall x: nat {:trigger WrittenAt(mem, a, b, root, va, bytes, x)} :: WrittenAt(mem, a, b, root, va, bytes, x))
  }

  /** copyout changes no page that the page table maps without PTE_U, as for the guard page below
      the user stack. */
  lemma NotTheUsers(mem: Mem, a: Data, b: Data, root: nat, va: nat, bytes: seq<nat>, p: nat)
    requires Written(mem, a, b, root, va, bytes) && p in a && p != 0
    requires forall v: nat | Trans(mem, root, v) != 0 && PTE2PA(Trans(mem, root, v)) == p ::
               Trans(mem, root, v) / 16 % 2 == 0
    ensures p in b && b[p] == a[p]
  {
    assert PageKept(mem, a, b, root, p);
  }

  lemma WrittenThen(mem: Mem, a: Data, b: Data, c: Data, root: nat, va: nat, bytes: seq<nat>, mid: nat, more: seq<nat>)
    requires Written(mem, a, b, root, va, bytes) && mid == va + |bytes| && Written(mem, b, c, root, mid, more)
    ensures Written(mem, a, c, root, va, bytes + more)
  {
    forall x: nat ensures WrittenAt(mem, a, c, root, va, bytes + more, x) {
      assert WrittenAt(mem, a, b, root, va, bytes, x) && WrittenAt(mem, b, c, root, mid, more, x);
    }
    forall p | p in a ensures PageKept(mem, a, c, root, p) {
      assert PageKept(mem, a, b, root, p) && PageKept(mem, b, c, root, p);
    }
  }

  lemma WrittenNone(mem: Mem, a: Data, root: nat, va: nat)
    ensures Written(mem, a, a, root, va, [])
  {
    forall x: nat ensures WrittenAt(mem, a, a, root, va, [], x) {}
    forall p | p in a ensures PageKept(mem, a, a, root, p) {}
  }

  /** The n addresses from va on are those of user pages. */
  ghost predicate MappedTo(mem: Mem, root: nat, va: nat, n: nat) {
    forall x: nat {:trigger MappedAt(mem, root, x)} | va <= x < va + n :: MappedAt(mem, root, x)
  }

  lemma MappedMore(mem: Mem, root: nat, va: nat, n: nat, v: nat, off: nat, k: nat)
    requires MappedTo(mem, root, va, n) && va + n == v * PGSIZE + off && off + k <= PGSIZE
    requires UserPage(mem, root, v) != 0
    ensures MappedTo(mem, root, va, n + k)
  {
    forall x: nat | va <= x < va + (n + k) ensures MappedAt(mem, root, x) {
      if x >= va + n {
        assert x / PGSIZE == v;
      }
    }
  }

  /** The bytes of user memory from va on. */
  function BytesAt(mem: Mem, data: Data, root: nat, va: nat, n: nat): seq<nat> {
    seq<nat>(n, i requires 0 <= i < n => ByteAt(mem, data, root, va + i))
  }

  lemma BytesMore(mem: Mem, data: Data, root: nat, va: nat, n: nat, v: nat, off: nat, k: nat)
    requires va + n == v * PGSIZE + off && off + k <= PGSIZE && UserPage(mem, root, v) != 0
    requires UserAt(mem, data, root, v)
    ensures UserPage(mem, root, v) in data && off + k <= |data[UserPage(mem, root, v)]|
    ensures BytesAt(mem, data, root, va, n) + data[UserPage(mem, root, v)][off..off + k]
            == BytesAt(mem, data, root, va, n + k)
  {
    var page, more := data[UserPage(mem, root, v)], BytesAt(mem, data, root, va, n + k);
    forall i | n <= i < n + k ensures more[i] == page[off..off + k][i - n] {
      var x, o := va + i, off + (i - n);
      assert x / PGSIZE == v && x % PGSIZE == o;
      assert more[i] == ByteAt(mem, data, root, x) == page[o];
    }
  }

  /** What copyout put in, copyin takes out again. */
  lemma ReadsBack(mem: Mem, a: Data, b: Data, root: nat, va: nat, bytes: seq<nat>)
    requires Written(mem, a, b, root, va, bytes)
    ensures BytesAt(mem, b, root, va, |bytes|) == bytes
  {
    forall i | 0 <= i < |bytes| ensures ByteAt(mem, b, root, va + i) == bytes[i] {
      assert WrittenAt(mem, a, b, root, va, bytes, va + i);
    }
  }

  /** Writing a piece of one page writes that piece of user memory. */
  lemma PokeWrites(mem: Mem, data: Data, root: nat, v: nat, off: nat, va: nat, piece: seq<nat>)
    requires UserOk(mem, data, root) && UserPage(mem, root, v) != 0 && off + |piece| <= PGSIZE && va == v * PGSIZE + off
    ensures var p := UserPage(mem, root, v);
            && p in data && |data[p]| == PGSIZE
            && Written(mem, data, data[p := Poked(data[p], off, piece)], root, va, piece)
            && UserOk(mem, data[p := Poked(data[p], off, piece)], root)
  {
    var p := UserPage(mem, root, v);
    assert UserAt(mem, data, root, v);
    var data' := data[p := Poked(data[p], off, piece)];
    forall x: nat ensures WrittenAt(mem, data, data', root, va, piece, x) {
      assert UserApart(mem, root, v, x / PGSIZE);
      assert x == x / PGSIZE * PGSIZE + x % PGSIZE;
    }
    forall q | q in data ensures PageKept(mem, data, data', root, q) {
      assert q == p ==> Maps(mem, root, q);
    }
    forall w: nat ensures UserAt(mem, data', root, w) {
      assert UserAt(mem, data, root, w);
    }
    forall w: nat, u: nat ensures UserApart(mem, root, w, u) {
      assert UserOk(mem, data, root);
    }
  }

  // ---- uvmcopy ----

  ghost function PageBytes(mem: Mem, data: Data, root: nat, w: nat): seq<nat> {
    var p := PTE2PA(Trans(mem, root, w));
    if p in data then data[p] else []
  }

  /** The contents of the first n pages of an address space. */
  ghost function BytesOf(mem: Mem, data: Data, root: nat, n: nat): seq<seq<nat>> {
    seq(n, w requires 0 <= w < n => PageBytes(mem, data, root, w))
  }

  /** The flags of the first n pages of an address space. */
  ghost function FlagsOf(mem: Mem, root: nat, n: nat): seq<nat> {
    seq(n, w requires 0 <= w < n => Flags(Trans(mem, root, w)))
  }

  ghost predicate PresentAt(mem: Mem, root: nat, w: nat) {
    Trans(mem, root, w) != 0
  }

  /** From a to b, the first n pages of src, all mapped, were copied to fresh pages of dst with
      the same bytes and flags; no other translation changed, those of src included. */
  ghost predicate Copied(a: Snap, b: Snap, src: nat, dst: nat, pas: seq<nat>, n: nat) {
    && |pas| == n
    && (forall w {:trigger PresentAt(a.mem, src, w)} | 0 <= w < n :: PresentAt(a.mem, src, w))
    && Built(a, b, dst, 0, pas, BytesOf(a.mem, a.data, src, n), FlagsOf(a.mem, src, n))
  }

  lemma CopiedNone(a: Snap, src: nat, dst: nat)
    ensures Copied(a, a, src, dst, [], 0)
  {
    BuiltNone(a, dst, 0);
    assert BytesOf(a.mem, a.data, src, 0) == [] && FlagsOf(a.mem, src, 0) == [];
  }

  lemma CopiedReady(a: Snap, b: Snap, src: nat, dst: nat, pas: seq<nat>, n: nat)
    requires Copied(a, b, src, dst, pas, n) && IsRoot(a.roles, src) && IsRoot(a.roles, dst) && src != dst
    requires PagesOk(b.mem, b.data, b.free) && OwnedAt(a.mem, a.data, src, n)
    ensures IsRoot(b.roles, src) && IsRoot(b.roles, dst)
    ensures Trans(b.mem, src, n) == Trans(a.mem, src, n) && Trans(b.mem, dst, n) == Trans(a.mem, dst, n)
    ensures Trans(b.mem, src, n) != 0 ==>
              var p := PTE2PA(Trans(b.mem, src, n));
              p in b.data && b.data[p] == PageBytes(a.mem, a.data, src, n) && |b.data[p]| == PGSIZE
  {
    var ptes := PtesOf(pas, FlagsOf(a.mem, src, n));
    assert EditedAt(a.mem, b.mem, dst, 0, ptes, src, n) && EditedAt(a.mem, b.mem, dst, 0, ptes, dst, n);
    var p := PTE2PA(Trans(a.mem, src, n));
    assert p in b.data ==> DataOk(b.mem, b.data, p);
  }

  lemma CopiedSame(a: Snap, b: Snap, c: Snap, src: nat, dst: nat, pas: seq<nat>, n: nat)
    requires Copied(a, b, src, dst, pas, n) && Edited(b, c, dst, n, []) && Took(b, c, [], [])
    ensures Copied(a, c, src, dst, pas, n)
  {
    BuiltSame(a, b, c, dst, 0, pas, BytesOf(a.mem, a.data, src, n), FlagsOf(a.mem, src, n), n);
  }

  lemma CopiedMore(a: Snap, b: Snap, c: Snap, src: nat, dst: nat, pas: seq<nat>, n: nat, pa: nat, bytes: seq<nat>,
                   flag: nat)
    requires Copied(a, b, src, dst, pas, n) && IsRoot(a.roles, dst)
    requires Edited(b, c, dst, n, [MakePte(pa, flag)]) && Took(b, c, [pa], [bytes])
    requires bytes == PageBytes(a.mem, a.data, src, n) && flag == Flags(Trans(a.mem, src, n))
    requires Trans(a.mem, src, n) != 0 && Trans(b.mem, dst, n) == 0
    ensures Copied(a, c, src, dst, pas + [pa], n + 1)
  {
    FlagsValid(Trans(a.mem, src, n));
    BuiltMore(a, b, c, dst, 0, pas, BytesOf(a.mem, a.data, src, n), FlagsOf(a.mem, src, n), n, pa, bytes, flag);
    var m := n + 1;
    assert BytesOf(a.mem, a.data, src, m) == BytesOf(a.mem, a.data, src, n) + [bytes];
    assert FlagsOf(a.mem, src, m) == FlagsOf(a.mem, src, n) + [flag];
    assert PresentAt(a.mem, src, n);
  }
}
