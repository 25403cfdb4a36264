/** walk, mappages, uvmunmap, uvmalloc, uvmdealloc and uvmcopy over the pages of the machine. */
module Vm {
  import opened PageTable
  import opened VmSpec
  import opened VmTables

  function PX(level: nat, v: nat): nat {
    if level == 2 then I2(v) else if level == 1 then I1(v) else I0(v)
  }

  /** The table that walk has reached when `level` levels are left. */
  function AtLevel(mem: Mem, root: nat, v: nat, level: nat): nat {
    if level >= 2 then root else if level == 1 then Child(mem, root, I2(v)) else Table0(mem, root, v)
  }

  lemma IndexBounds(level: nat, v: nat)
    requires v < MAXPAGES
    ensures PX(level, v) < ENTRIES
  {}

  /** A table missing on the way means no level-0 table. */
  lemma NoTable(mem: Mem, roles: Roles, root: nat, v: nat, level: nat)
    requires Forest(mem, roles) && level < 2
    ensures AtLevel(mem, root, v, level) == 0 ==> Table0(mem, root, v) == 0
  {
    ZeroNotTable(mem, roles);
  }

  /** Page v holds one of the size bytes from va on. */
  predicate Touches(va: nat, size: nat, v: nat) {
    v * PGSIZE < va + size && va < (v + 1) * PGSIZE
  }

  datatype MapResult = Mapped | NoMemory | Remap

  /** What a step that may fail has done, if it did not. */
  function IfMapped<T>(r: MapResult, x: T): seq<T> {
    if r == Mapped then [x] else []
  }

  class Machine {
    var mem: Mem
    var data: Data
    var free: set<nat>
    ghost var roles: Roles

    ghost function Now(): Snap
      reads this
    {
      Snap(mem, roles, free, data)
    }

    ghost predicate Valid()
      reads this
    {
      Forest(mem, roles) && PagesOk(mem, data, free)
    }

    constructor (free: set<nat>)
      requires forall p | p in free :: p != 0 && p % PGSIZE == 0
      ensures Valid() && Now() == Snap(map[], map[], free, map[])
    {
      this.free, mem, data, roles := free, map[], map[], map[];
    }

    /** kalloc: some free page, or 0 when there is none. */
    method Kalloc() returns (pa: nat)
      requires Valid()
      modifies this`free
      ensures Valid()
      ensures pa == 0 ==> free == old(free) == {}
      ensures pa != 0 ==> pa in old(free) && free == old(free) - {pa} && FreeOk(mem, data, pa)
    {
      if free == {} {
        return 0;
      }
      pa :| pa in free;
      assert FreeOk(mem, data, pa);
      PagesShrink(mem, data, free, mem, free - {pa}, pa);
      free := free - {pa};
    }

    /** kfree of a data page. */
    method Kfree(pa: nat)
      requires Valid() && pa in data
      modifies this`free, this`data
      ensures Valid() && free == old(free) + {pa} && data == old(data) - {pa} && pa !in old(free)
    {
      PagesGive(mem, data, free, pa);
      free := free + {pa};
      data := data - {pa};
    }

    /** uvmcreate: an empty page table, or 0. */
    method UvmCreate() returns (root: nat)
      requires Valid()
      modifies this`mem, this`free, this`roles
      ensures Valid()
      ensures root == 0 ==> Now() == old(Now()) && free == {}
      ensures root != 0 ==> IsRoot(roles, root) && !IsRoot(old(roles), root) && Grown(old(Now()), Now())
      ensures root != 0 ==> RolesGrow(old(roles), roles, root) && root in old(free) && free == old(free) - {root}
      ensures root != 0 ==> forall i: nat :: Child(mem, root, i) == 0
      ensures root != 0 ==> forall v: nat :: VacantAt(mem, root, v)
    {
      root := Kalloc();
      if root == 0 {
        return;
      }
      NewRoot(old(Now()), root);
      mem := mem[root := Zeros()];
      roles := roles[root := RootRole(root)];
      PagesShrink(old(mem), data, free, mem, free, root);
    }

    /** One level of walk: the table that entry idx points to, added if asked for.  Entry j of
        table q is not disturbed. */
    method Descend(table: nat, idx: nat, alloc: bool, ghost q: nat, ghost j: nat) returns (next: nat)
      requires Valid() && table in roles && roles[table].level > 0 && idx < ENTRIES
      modifies this`mem, this`free, this`roles
      ensures Valid() && Grown(old(Now()), Now())
      ensures forall p | p in roles && p !in old(roles) :: roles[p] == ChildRole(old(roles)[table], idx)
      ensures forall p | p in old(roles) :: p in roles && roles[p] == old(roles)[p]
      ensures Child(old(mem), q, j) != 0 ==> Child(mem, q, j) == Child(old(mem), q, j)
      ensures next != 0 ==> next == Child(mem, table, idx) && next in roles
                            && roles[next] == ChildRole(old(roles)[table], idx)
      ensures next == 0 ==> Child(mem, table, idx) == 0 && (alloc ==> free == {})
      ensures !alloc ==> Now() == old(Now()) && next == Child(mem, table, idx)
    {
      assert RoleOk(mem, roles, table);
      GrownRefl(Now());
      if IsValid(mem[table][idx]) {
        assert EntryOk(mem, roles, table, idx) && RoleOk(mem, roles, PTE2PA(mem[table][idx]));
        return PTE2PA(mem[table][idx]);
      }
      if !alloc {
        return 0;
      }
      next := Kalloc();
      if next == 0 {
        return;
      }
      AddTablePage(table, idx, next, q, j);
    }

    /** memset of the new table page and the write of the pointer to it. */
    method AddTablePage(table: nat, idx: nat, page: nat, ghost q: nat, ghost j: nat)
      requires Forest(mem, roles) && CanAdd(mem, roles, table, idx, page) && page !in free
      requires PagesOk(mem, data, free) && page !in data
      modifies this`mem, this`roles
      ensures Valid() && Now() == Added(old(Now()), table, idx, page)
      ensures Grown(old(Now()).(free := free + {page}), Now())
      ensures Child(mem, table, idx) == page
      ensures Child(old(mem), q, j) != 0 ==> Child(mem, q, j) == Child(old(mem), q, j)
    {
      AddChild(mem, roles, table, idx, page, q, j);
      AddKeepsForest(mem, roles, table, idx, page);
      AddIsGrown(Now(), table, idx, page);
      mem := mem[page := Zeros()];
      var entries: seq<nat> := mem[table][idx := MakePte(page, PTE_V)];
      mem := mem[table := entries];
      roles := roles[page := ChildRole(roles[table], idx)];
      assert mem == AddTable(old(mem), table, idx, page);
      PagesShrink(old(mem), data, free, mem, free, page);
    }

    /** walk: the level-0 table that holds the entry for page v, or 0.  With alloc it may
        add table pages, which changes no translation, and fails only out of memory. */
    method Walk(root: nat, v: nat, alloc: bool) returns (t: nat)
      requires Valid() && IsRoot(roles, root) && v < MAXPAGES
      modifies this`mem, this`free, this`roles
      ensures Valid() && Grown(old(Now()), Now()) && TablesGrow(old(roles), roles, root, v, v + 1)
      ensures t == Table0(mem, root, v)
      ensures t == 0 && alloc ==> free == {}
      ensures !alloc ==> Now() == old(Now())
    {
      var level := 2;
      t := root;
      GrownRefl(Now());
      GrowNone(roles, root, v, v + 1);
      while level > 0
        invariant 0 <= level <= 2 && Valid() && Grown(old(Now()), Now())
        invariant t in roles && roles[t].level == level && t == AtLevel(mem, root, v, level)
        invariant roles[t] == WayRole(root, v, level) && TablesGrow(old(roles), roles, root, v, v + 1)
        invariant !alloc ==> Now() == old(Now())
      {
        ghost var m := Now();
        assert RoleOk(mem, roles, t);
        IndexBounds(level, v);
        t := Descend(t, PX(level, v), alloc, root, I2(v));
        GrownTrans(old(Now()), m, Now());
        level := level - 1;
        GrowOne(m.roles, roles, root, v, level);
        GrowTwice(old(roles), m.roles, roles, root, v, v + 1);
        if t == 0 {
          NoTable(mem, roles, root, v, level);
          return;
        }
      }
      assert RoleOk(mem, roles, t);
    }

    /** Writes the leaf entry of page v, in the table that walk has found. */
    method SetLeaf(root: nat, v: nat, t: nat, pte: nat)
      requires Valid() && IsRoot(roles, root) && t == Table0(mem, root, v) != 0 && Clean(pte) == pte
      modifies this`mem
      ensures Valid() && mem.Keys == old(mem).Keys && Edited(old(Now()), Now(), root, v, [pte])
    {
      SetEdits(Now(), root, v, pte);
      SetKeepsForest(mem, roles, t, I0(v), pte);
      var entries: seq<nat> := mem[t][I0(v) := pte];
      mem := mem[t := entries];
      PagesShrink(old(mem), data, free, mem, free, t);
    }

    /** walk, and a read of the entry it leads to: the translation as it was. */
    method Entry(root: nat, v: nat, alloc: bool) returns (t: nat, pte: nat)
      requires Valid() && IsRoot(roles, root) && v < MAXPAGES
      modifies this`mem, this`free, this`roles
      ensures Valid() && Intact(old(Now()), Now(), root, v) && TablesGrow(old(roles), roles, root, v, v + 1)
      ensures t == Table0(mem, root, v) && (t != 0 ==> Clean(pte) == Trans(old(mem), root, v))
      ensures t == 0 && alloc ==> free == {}
      ensures !alloc ==> Now() == old(Now())
      ensures t == 0 && !alloc ==> Trans(mem, root, v) == 0
    {
      t := Walk(root, v, alloc);
      GrownEdits(old(Now()), Now(), root, v);
      pte := 0;
      if t != 0 {
        LeafEntry(mem, roles, root, v);
        assert EditedAt(old(mem), mem, root, v, [], root, v);
        pte := mem[t][I0(v)];
      } else {
        ZeroNotTable(mem, roles);
      }
    }

    /** walkaddr: the physical address of user page v, or 0. */
    method WalkAddr(root: nat, v: nat) returns (pa: nat)
      requires Valid() && IsRoot(roles, root)
      modifies this`mem, this`free, this`roles
      ensures Valid() && Now() == old(Now())
      ensures pa == UserPage(mem, root, v)
    {
      if v >= MAXPAGES {
        return 0;
      }
      var t, pte := Entry(root, v, false);
      if t == 0 || !IsValid(pte) || pte / PTE_U % 2 == 0 {
        return 0;
      }
      return PTE2PA(pte);
    }

    /** One round of mappages. */
    method MapOne(root: nat, v: nat, pte: nat) returns (r: MapResult)
      requires Valid() && IsRoot(roles, root) && v < MAXPAGES && IsValid(pte)
      modifies this`mem, this`free, this`roles
      ensures Valid() && Accounted(old(Now()), Now()) && TablesGrow(old(roles), roles, root, v, v + 1)
      ensures Edited(old(Now()), Now(), root, v, IfMapped(r, pte))
      ensures r == NoMemory ==> free == {} && Table0(mem, root, v) == 0
      ensures r == Remap ==> Trans(old(mem), root, v) != 0
      ensures r == Mapped ==> Trans(old(mem), root, v) == 0
    {
      var t, was := Entry(root, v, true);
      if t == 0 {
        return NoMemory;
      }
      if IsValid(was) {
        return Remap;
      }
      ghost var m := Now();
      SetLeaf(root, v, t, pte);
      EditSame(old(Now()), m, Now(), root, v, pte);
      return Mapped;
    }

    /** mappages, for n pages from page lo on.  It stops at page `at`, having mapped `done`
        pages, early only if out of memory or at a page already mapped (a panic). */
    method MapPages(root: nat, lo: nat, n: nat, pa: nat, perm: nat) returns (r: MapResult, done: nat, at: nat)
      requires Valid() && IsRoot(roles, root) && lo + n <= MAXPAGES && perm < 1024
      modifies this`mem, this`free, this`roles
      ensures Valid() && Accounted(old(Now()), Now()) && TablesGrow(old(roles), roles, root, lo, lo + n)
      ensures done <= n && at == lo + done
      ensures Edited(old(Now()), Now(), root, lo, Ptes(pa, done, WithV(perm)))
      ensures r == Mapped <==> done == n
      ensures r == NoMemory ==> free == {}
      ensures r == Remap ==> Trans(old(mem), root, at) != 0
    {
      done, at, r := 0, lo, Mapped;
      ghost var ptes: seq<nat> := [];
      EditNone(Now(), root, lo);
      while done < n
        invariant done <= n && at == lo + done && r == Mapped
        invariant Valid() && Accounted(old(Now()), Now()) && TablesGrow(old(roles), roles, root, lo, at)
        invariant ptes == Ptes(pa, done, WithV(perm))
        invariant Edited(old(Now()), Now(), root, lo, ptes)
      {
        ghost var m := Now();
        var pte := MakePte(pa + done * PGSIZE, WithV(perm));
        ValidPte(pa + done * PGSIZE, WithV(perm));
        assert EditedAt(old(mem), mem, root, lo, ptes, root, at);
        r := MapOne(root, at, pte);
        ghost var more := IfMapped(r, pte);
        EditThen(old(Now()), m, Now(), root, lo, ptes, more, at);
        AccountThen(old(Now()), m, Now());
        GrowMore(old(roles), m.roles, roles, root, lo, at, at + 1);
        if r != Mapped {
          GrowWider(old(roles), roles, root, lo, at + 1, lo + n);
          assert ptes + more == ptes;
          return;
        }
        PtesNext(pa, done, done + 1, WithV(perm), pte);
        ptes := ptes + more;
        done, at := done + 1, at + 1;
      }
    }

    /** mappages of size bytes from address va, which need not be whole pages: every page
        that holds one of the bytes, and no other.  For no bytes it panics. */
    method MapRange(root: nat, va: nat, size: nat, pa: nat, perm: nat)
      returns (panics: bool, r: MapResult, lo: nat, n: nat, done: nat)
      requires Valid() && IsRoot(roles, root) && va + size <= MAXPAGES * PGSIZE && perm < 1024
      modifies this`mem, this`free, this`roles
      ensures Valid() && Accounted(old(Now()), Now()) && (!panics ==> TablesGrow(old(roles), roles, root, lo, lo + n))
      ensures panics <==> size == 0
      ensures panics ==> Now() == old(Now())
      ensures !panics ==> forall v: nat :: Touches(va, size, v) <==> lo <= v < lo + n
      ensures !panics ==> done <= n && Edited(old(Now()), Now(), root, lo, Ptes(pa, done, WithV(perm)))
      ensures !panics ==> (r == Mapped <==> done == n) && (r == NoMemory ==> free == {})
      ensures !panics && r == Remap ==> Trans(old(mem), root, lo + done) != 0
    {
      panics, r, lo, n, done := size == 0, Mapped, va / PGSIZE, 0, 0;
      if !panics {
        var last := (va + size - 1) / PGSIZE;
        n := last - lo + 1;
        var at;
        r, done, at := MapPages(root, lo, n, pa, perm);
      }
    }

    /** One round of uvmunmap. */
    method UnmapOne(root: nat, v: nat, doFree: bool) returns (ok: bool)
      requires Valid() && IsRoot(roles, root) && v < MAXPAGES
      requires doFree ==> OwnedAt(mem, data, root, v)
      modifies this
      ensures Valid() && mem.Keys == old(mem).Keys && roles == old(roles)
      ensures ok <==> RemovableAt(old(mem), root, v)
      ensures ok ==> Edited(old(Now()), Now(), root, v, [0])
      ensures ok ==> Released(old(Now()), Now(), Freed(doFree, {PTE2PA(Trans(old(mem), root, v))}))
    {
      var t, pte := Entry(root, v, false);
      if t == 0 || !IsValid(pte) || Flags(pte) == PTE_V {
        return false;
      }
      if doFree {
        Kfree(PTE2PA(pte));
      }
      SetLeaf(root, v, t, 0);
      return true;
    }

    /** uvmunmap.  False is a panic: some page in the range has no leaf entry. */
    method Unmap(root: nat, lo: nat, n: nat, doFree: bool, ghost hi: nat) returns (ok: bool)
      requires Valid() && IsRoot(roles, root) && hi == lo + n <= MAXPAGES
      requires doFree ==> Owned(mem, data, root, lo, hi)
      modifies this
      ensures Valid()
      ensures ok == Removable(old(mem), root, lo, hi)
      ensures ok ==> Unmapped(old(Now()), Now(), root, lo, n, doFree)
    {
      var at, done := lo, 0;
      UnmapNone(Now(), root, lo, doFree);
      ok := true;
      while done < n
        invariant done <= n && at == lo + done && Valid()
        invariant Unmapped(old(Now()), Now(), root, lo, done, doFree)
        invariant Removable(old(mem), root, lo, at)
      {
        ghost var m := Now();
        UnmapReady(old(Now()), m, root, lo, done, doFree, at, hi);
        ok := UnmapOne(root, at, doFree);
        assert ok <==> RemovableAt(old(mem), root, at);
        if !ok {
          return;
        }
        UnmapMore(old(Now()), m, Now(), root, lo, done, doFree, at);
        RemovableNext(old(mem), root, lo, at, at + 1);
        done, at := done + 1, at + 1;
      }
    }

    /** The step that uvmalloc and uvmcopy share: take a page, fill it, map it at page v, and
        give it back if there is no memory for a table. */
    method AddPage(root: nat, v: nat, bytes: seq<nat>, flags: nat) returns (r: MapResult, pa: nat)
      requires Valid() && IsRoot(roles, root) && v < MAXPAGES && |bytes| == PGSIZE && flags < 1024 && flags % 2 == 1
      modifies this
      ensures Valid() && TablesGrow(old(roles), roles, root, v, v + 1)
      ensures r == NoMemory ==> Out(mem, free, root, v)
      ensures Edited(old(Now()), Now(), root, v, IfMapped(r, MakePte(pa, flags)))
      ensures Took(old(Now()), Now(), IfMapped(r, pa), IfMapped(r, bytes))
      ensures r == Remap ==> Trans(old(mem), root, v) != 0
      ensures r == Mapped ==> Trans(old(mem), root, v) == 0
    {
      pa := Kalloc();
      if pa == 0 {
        EditNone(Now(), root, v);
        GrowNone(roles, root, v, v + 1);
        return NoMemory, 0;
      }
      r := PlacePage(root, v, pa, bytes, flags, old(Now()));
    }

    /** The same, once page pa has been taken in state a. */
    method PlacePage(root: nat, v: nat, pa: nat, bytes: seq<nat>, flags: nat, ghost a: Snap) returns (r: MapResult)
      requires Valid() && IsRoot(roles, root) && v < MAXPAGES && |bytes| == PGSIZE && flags < 1024 && flags % 2 == 1
      requires a == Snap(mem, roles, a.free, data) && PagesOk(mem, data, a.free)
      requires pa in a.free && free == a.free - {pa}
      modifies this
      ensures Valid() && TablesGrow(a.roles, roles, root, v, v + 1)
      ensures r == NoMemory ==> Out(mem, free, root, v)
      ensures Edited(a, Now(), root, v, IfMapped(r, MakePte(pa, flags)))
      ensures Took(a, Now(), IfMapped(r, pa), IfMapped(r, bytes))
      ensures r == Remap ==> Trans(a.mem, root, v) != 0
      ensures r == Mapped ==> Trans(a.mem, root, v) == 0
    {
      PagesTake(mem, data, a.free, pa, bytes);
      data := data[pa := bytes];
      var pte := MakePte(pa, flags);
      ValidPte(pa, flags);
      r := MapOne(root, v, pte);
      TookOne(a, Now(), pa, bytes);
      if r != Mapped {
        Kfree(pa);
      }
    }

    /** uvmdealloc.  False is a panic: some page to be removed is not mapped. */
    method UvmDealloc(root: nat, oldsz: nat, newsz: nat) returns (sz: nat, ok: bool)
      requires Valid() && IsRoot(roles, root) && oldsz <= MAXPAGES * PGSIZE
      requires Owned(mem, data, root, RoundUp(newsz), RoundUp(oldsz))
      modifies this
      ensures Valid()
      ensures sz == if newsz < oldsz then newsz else oldsz
      ensures ok == (newsz < oldsz ==> Removable(old(mem), root, RoundUp(newsz), RoundUp(oldsz)))
      ensures ok ==> Unmapped(old(Now()), Now(), root, RoundUp(newsz), Span(newsz, oldsz), true)
    {
      UnmapNone(Now(), root, RoundUp(newsz), true);
      if newsz >= oldsz {
        return oldsz, true;
      }
      ok := true;
      var lo, hi := RoundUp(newsz), RoundUp(oldsz);
      if lo < hi {
        ok := Unmap(root, lo, hi - lo, true, hi);
      }
      return newsz, ok;
    }

    /** uvmalloc, with xperm the write and execute bits.  It fails when the free pages are fewer
        than the pages to add and the tables missing for them, and only then.  Remap is a panic. */
    method UvmAlloc(root: nat, oldsz: nat, newsz: nat, xperm: nat) returns (r: MapResult, sz: nat, ghost pas: seq<nat>)
      requires Valid() && IsRoot(roles, root) && newsz <= MAXPAGES * PGSIZE && xperm in {0, PTE_W, PTE_X, PTE_W + PTE_X}
      modifies this
      ensures Valid() && TablesGrow(old(roles), roles, root, RoundUp(oldsz), RoundUp(oldsz) + Span(oldsz, newsz))
      ensures r == Mapped ==> |old(free)| >= Cost(old(mem), root, RoundUp(oldsz), Span(oldsz, newsz))
      ensures r == NoMemory ==> |old(free)| < Cost(old(mem), root, RoundUp(oldsz), Span(oldsz, newsz))
      ensures r == Mapped ==> sz == (if newsz < oldsz then oldsz else newsz) && |pas| == Span(oldsz, newsz)
      ensures r == Mapped ==> Extended(old(Now()), Now(), root, RoundUp(oldsz), pas, PTE_V + PTE_R + PTE_U + xperm)
      ensures r == NoMemory ==> sz == 0 && Intact(old(Now()), Now(), root, RoundUp(oldsz))
      ensures r == Remap ==> !Vacant(old(mem), root, RoundUp(oldsz), RoundUp(newsz))
    {
      var lo, flag := RoundUp(oldsz), PTE_V + PTE_R + PTE_U + xperm;
      if newsz < oldsz {
        ExtendedNone(Now(), root, lo, flag);
        GrowNone(roles, root, lo, lo);
        NoCost(mem, root, lo);
        return Mapped, oldsz, [];
      }
      SpanEnds(oldsz, newsz);
      r, pas := AllocUpTo(root, lo, newsz, flag, Span(oldsz, newsz));
      sz := if r == Mapped then newsz else 0;
    }

    /** The rest of uvmalloc, when the size does not get smaller: n pages are added from lo on. */
    method AllocUpTo(root: nat, lo: nat, newsz: nat, flag: nat, ghost n: nat)
      returns (r: MapResult, ghost pas: seq<nat>)
      requires Valid() && IsRoot(roles, root) && newsz <= MAXPAGES * PGSIZE && lo + n == RoundUp(newsz)
      requires flag < 1024 && flag % 2 == 1 && flag != PTE_V
      modifies this
      ensures Valid() && TablesGrow(old(roles), roles, root, lo, lo + n)
      ensures r == Mapped ==> |old(free)| >= Cost(old(mem), root, lo, n)
      ensures r == NoMemory ==> |old(free)| < Cost(old(mem), root, lo, n)
      ensures r == Mapped ==> |pas| == n && Extended(old(Now()), Now(), root, lo, pas, flag)
      ensures r == NoMemory ==> Intact(old(Now()), Now(), root, lo)
      ensures r == Remap ==> !Vacant(old(mem), root, lo, lo + n)
    {
      ghost var mid;
      r, pas, mid := AllocPages(root, lo, newsz, flag, n);
      if r == NoMemory {
        ExtendedOut(old(Now()), mid, root, lo, n, pas, flag);
      } else if r == Mapped {
        ExtendedEnough(old(Now()), Now(), root, lo, pas, flag);
      }
    }

    /** The loop of uvmalloc, which adds n pages from lo on.  If memory is out, `mid` is the state
        in which that was. */
    method AllocPages(root: nat, lo: nat, newsz: nat, flag: nat, ghost n: nat)
      returns (r: MapResult, ghost pas: seq<nat>, ghost mid: Snap)
      requires Valid() && IsRoot(roles, root) && newsz <= MAXPAGES * PGSIZE && lo + n == RoundUp(newsz)
      requires flag < 1024 && flag % 2 == 1 && flag != PTE_V
      modifies this
      ensures Valid() && TablesGrow(old(roles), roles, root, lo, lo + n)
      ensures r == Mapped ==> |pas| == n && Extended(old(Now()), Now(), root, lo, pas, flag)
      ensures r == NoMemory ==> Intact(old(Now()), Now(), root, lo)
      ensures r == NoMemory ==> |pas| < n && Extended(old(Now()), mid, root, lo, pas, flag)
      ensures r == NoMemory ==> Stuck(old(Now()), mid, root, lo, lo + |pas|)
      ensures r == Remap ==> !Vacant(old(mem), root, lo, lo + n)
    {
      ExtendedNone(Now(), root, lo, flag);
      GrowNone(roles, root, lo, lo);
      pas, mid := [], Now();
      var at := lo;
      while at * PGSIZE < newsz
        invariant lo <= at && at == lo + |pas| && |pas| <= n && Valid()
        invariant Extended(old(Now()), Now(), root, lo, pas, flag) && TablesGrow(old(roles), roles, root, lo, at)
        decreases lo + n - at
      {
        ghost var next;
        r, next := AllocOne(root, lo, at, flag, old(Now()), pas);
        if r == NoMemory {
          GrowWider(old(roles), roles, root, lo, at + 1, lo + n);
          mid := Now();
          AllocUndo(root, lo, at, old(Now()), pas, flag);
          return NoMemory, pas, mid;
        }
        if r == Remap {
          GrowWider(old(roles), roles, root, lo, at + 1, lo + n);
          assert !VacantAt(old(mem), root, at);
          return Remap, pas, mid;
        }
        pas, at := next, at + 1;
      }
      RoundReached(newsz, at);
      GrowWider(old(roles), roles, root, lo, at, lo + n);
      return Mapped, pas, mid;
    }

    /** One round of uvmalloc, from a state m in which it began. */
    method AllocOne(root: nat, lo: nat, at: nat, flag: nat, ghost m: Snap, ghost pas: seq<nat>)
      returns (r: MapResult, ghost next: seq<nat>)
      requires Valid() && IsRoot(m.roles, root) && at == lo + |pas| < MAXPAGES && flag < 1024 && flag % 2 == 1
      requires Extended(m, Now(), root, lo, pas, flag) && TablesGrow(m.roles, roles, root, lo, at)
      modifies this
      ensures Valid() && TablesGrow(m.roles, roles, root, lo, at + 1)
      ensures r == Mapped ==> |next| == |pas| + 1 && Extended(m, Now(), root, lo, next, flag)
      ensures r == NoMemory ==> Extended(m, Now(), root, lo, pas, flag) && Stuck(m, Now(), root, lo, at)
      ensures r == Remap ==> Trans(m.mem, root, at) != 0
    {
      ghost var b := Now();
      next := pas;
      ExtendedReady(m, b, root, lo, pas, flag, at);
      var pa;
      r, pa := AddPage(root, at, ZeroPage(), flag);
      GrowMore(m.roles, b.roles, roles, root, lo, at, at + 1);
      if r == NoMemory {
        ExtendedSame(m, b, Now(), root, lo, pas, flag, at);
      } else if r == Mapped {
        ExtendedMore(m, b, Now(), root, lo, pas, flag, at, pa);
        next := pas + [pa];
      }
    }

    /** The error path of uvmalloc: uvmdealloc of the pages mapped so far. */
    method AllocUndo(root: nat, lo: nat, at: nat, ghost m: Snap, ghost pas: seq<nat>, ghost flag: nat)
      requires Valid() && IsRoot(m.roles, root) && at == lo + |pas| && at <= MAXPAGES && flag != PTE_V
      requires Extended(m, Now(), root, lo, pas, flag)
      modifies this
      ensures Valid() && Intact(m, Now(), root, lo) && roles == old(roles)
    {
      ghost var contents, flags := Repeat(|pas|, ZeroPage()), Repeat(|pas|, flag);
      BuiltOwned(m, Now(), root, lo, pas, contents, flags, at);
      BuiltRemovable(m, Now(), root, lo, pas, contents, flags, at);
      RoundExact(lo);
      RoundExact(at);
      var sz, ok := UvmDealloc(root, at * PGSIZE, lo * PGSIZE);
      BuiltUndo(m, old(Now()), Now(), root, lo, pas, contents, flags);
    }

    /** The part of uvmcopy that finds the page to copy. */
    method ReadPage(root: nat, v: nat) returns (found: bool, bytes: seq<nat>, flags: nat)
      requires Valid() && IsRoot(roles, root) && v < MAXPAGES && OwnedAt(mem, data, root, v)
      modifies this`mem, this`free, this`roles
      ensures Valid() && Now() == old(Now())
      ensures found <==> Trans(mem, root, v) != 0
      ensures found ==> bytes == PageBytes(mem, data, root, v) && |bytes| == PGSIZE
      ensures found ==> flags == Flags(Trans(mem, root, v)) && flags < 1024 && flags % 2 == 1
    {
      var t, pte := Entry(root, v, false);
      if t == 0 || !IsValid(pte) {
        return false, [], 0;
      }
      FlagsValid(pte);
      assert DataOk(mem, data, PTE2PA(pte));
      return true, data[PTE2PA(pte)], Flags(pte);
    }

    /** uvmcopy of the first sz bytes of address space src into dst.  It fails when the free pages
        are fewer than the pages to copy and the tables missing for them, and only then.  Remap
        is a panic. */
    method UvmCopy(src: nat, dst: nat, sz: nat) returns (r: MapResult, ghost pas: seq<nat>)
      requires Valid() && IsRoot(roles, src) && IsRoot(roles, dst) && src != dst && sz <= MAXPAGES * PGSIZE
      requires Owned(mem, data, src, 0, RoundUp(sz))
      modifies this
      ensures Valid() && (r != Remap ==> TablesGrow(old(roles), roles, dst, 0, RoundUp(sz)))
      ensures r == Mapped ==> |old(free)| >= Cost(old(mem), dst, 0, RoundUp(sz))
      ensures r == NoMemory ==> |old(free)| < Cost(old(mem), dst, 0, RoundUp(sz))
      ensures r == Mapped ==> Copied(old(Now()), Now(), src, dst, pas, RoundUp(sz))
      ensures r == NoMemory ==> Intact(old(Now()), Now(), dst, 0)
      ensures r == Remap ==> !Vacant(old(mem), dst, 0, RoundUp(sz)) || !Removable(old(mem), src, 0, RoundUp(sz))
    {
      ghost var mid;
      r, pas, mid := CopyPages(src, dst, sz);
      if r == NoMemory {
        CopiedOut(old(Now()), mid, src, dst, pas, |pas|, RoundUp(sz));
      } else if r == Mapped {
        CopiedEnough(old(Now()), Now(), src, dst, pas, RoundUp(sz));
      }
    }

    /** The loop of uvmcopy.  If memory is out, `mid` is the state in which that was. */
    method CopyPages(src: nat, dst: nat, sz: nat) returns (r: MapResult, ghost pas: seq<nat>, ghost mid: Snap)
      requires Valid() && IsRoot(roles, src) && IsRoot(roles, dst) && src != dst && sz <= MAXPAGES * PGSIZE
      requires Owned(mem, data, src, 0, RoundUp(sz))
      modifies this
      ensures Valid() && (r != Remap ==> TablesGrow(old(roles), roles, dst, 0, RoundUp(sz)))
      ensures r == Mapped ==> Copied(old(Now()), Now(), src, dst, pas, RoundUp(sz))
      ensures r == NoMemory ==> Intact(old(Now()), Now(), dst, 0)
      ensures r == NoMemory ==> |pas| < RoundUp(sz) && Copied(old(Now()), mid, src, dst, pas, |pas|)
      ensures r == NoMemory ==> Stuck(old(Now()), mid, dst, 0, |pas|)
      ensures r == Remap ==> !Vacant(old(mem), dst, 0, RoundUp(sz)) || !Removable(old(mem), src, 0, RoundUp(sz))
    {
      var at := 0;
      pas, mid := [], Now();
      CopiedNone(Now(), src, dst);
      GrowNone(roles, dst, 0, 0);
      while at * PGSIZE < sz
        invariant at <= RoundUp(sz) && Valid()
        invariant Copied(old(Now()), Now(), src, dst, pas, at) && TablesGrow(old(roles), roles, dst, 0, at)
      {
        assert OwnedAt(old(mem), old(data), src, at);
        ghost var next;
        r, next := CopyOne(src, dst, at, old(Now()), pas, at + 1);
        if r == NoMemory {
          GrowWider(old(roles), roles, dst, 0, at + 1, RoundUp(sz));
          mid := Now();
          var ok := CopyUndo(src, dst, at, old(Now()), pas);
          if !ok {
            RemovableUpTo(old(mem), src, at, RoundUp(sz));
          }
          return if ok then NoMemory else Remap, pas, mid;
        }
        if r == Remap {
          assert !VacantAt(old(mem), dst, at) || !RemovableAt(old(mem), src, at);
          return Remap, pas, mid;
        }
        pas, at := next, at + 1;
      }
      RoundReached(sz, at);
      return Mapped, pas, mid;
    }

    /** One round of uvmcopy, from a state m in which it began. */
    method CopyOne(src: nat, dst: nat, at: nat, ghost m: Snap, ghost pas: seq<nat>, ghost up: nat)
      returns (r: MapResult, ghost next: seq<nat>)
      requires Valid() && IsRoot(m.roles, src) && IsRoot(m.roles, dst) && src != dst && at < MAXPAGES && up == at + 1
      requires Copied(m, Now(), src, dst, pas, at) && TablesGrow(m.roles, roles, dst, 0, at)
      requires OwnedAt(m.mem, m.data, src, at)
      modifies this
      ensures Valid() && TablesGrow(m.roles, roles, dst, 0, at + 1)
      ensures r == Mapped ==> Copied(m, Now(), src, dst, next, up)
      ensures r == NoMemory ==> Copied(m, Now(), src, dst, pas, at) && Stuck(m, Now(), dst, 0, at)
      ensures r == Remap ==> Trans(m.mem, src, at) == 0 || Trans(m.mem, dst, at) != 0
    {
      next := pas;
      CopiedReady(m, Now(), src, dst, pas, at);
      GrowWider(m.roles, roles, dst, 0, at, at + 1);
      var found, bytes, flag := ReadPage(src, at);
      if !found {
        return Remap, pas;
      }
      var pa;
      ghost var b := Now();
      r, pa := AddPage(dst, at, bytes, flag);
      GrowMore(m.roles, b.roles, roles, dst, 0, at, at + 1);
      if r == NoMemory {
        CopiedSame(m, b, Now(), src, dst, pas, at);
      } else if r == Mapped {
        CopiedMore(m, b, Now(), src, dst, pas, at, pa, bytes, flag);
        next := pas + [pa];
      }
    }

    /** The error path of uvmcopy: uvmunmap of the pages mapped so far. */
    method CopyUndo(src: nat, dst: nat, at: nat, ghost m: Snap, ghost pas: seq<nat>) returns (ok: bool)
      requires Valid() && IsRoot(m.roles, dst) && at <= MAXPAGES
      requires Copied(m, Now(), src, dst, pas, at)
      modifies this
      ensures Valid()
      ensures ok ==> Intact(m, Now(), dst, 0) && roles == old(roles)
      ensures Removable(m.mem, src, 0, at) ==> ok
    {
      ghost var contents, flags := BytesOf(m.mem, m.data, src, at), FlagsOf(m.mem, src, at);
      BuiltOwned(m, Now(), dst, 0, pas, contents, flags, at);
      if Removable(m.mem, src, 0, at) {
        forall i | 0 <= i < |flags| ensures flags[i] != PTE_V {
          assert RemovableAt(m.mem, src, i);
        }
        BuiltRemovable(m, Now(), dst, 0, pas, contents, flags, at);
      }
      ok := Unmap(dst, 0, at, true, at);
      if ok {
        BuiltUndo(m, old(Now()), Now(), dst, 0, pas, contents, flags);
      }
    }

    /** copyout: n bytes get to their place, all of them unless a page is not the user's. */
    method CopyOut(root: nat, dstva: nat, src: seq<nat>) returns (ok: bool, ghost n: nat)
      requires Valid() && IsRoot(roles, root) && UserOk(mem, data, root)
      modifies this
      ensures Valid() && mem == old(mem) && free == old(free) && roles == old(roles) && UserOk(mem, data, root)
      ensures n <= |src| && Written(mem, old(data), data, root, dstva, src[..n])
      ensures MappedTo(mem, root, dstva, n) && (ok <==> n == |src|)
      ensures !ok ==> !MappedAt(mem, root, dstva + n)
    {
      var done, va := 0, dstva;
      WrittenNone(mem, data, root, dstva);
      assert src[..0] == [];
      while done < |src|
        invariant done <= |src| && va == dstva + done && Valid()
        invariant mem == old(mem) && free == old(free) && roles == old(roles) && UserOk(mem, data, root)
        invariant Written(mem, old(data), data, root, dstva, src[..done])
        invariant MappedTo(mem, root, dstva, done)
      {
        var v, off := va / PGSIZE, va % PGSIZE;
        var pa := WalkAddr(root, v);
        if pa == 0 {
          return false, done;
        }
        var k := if PGSIZE - off > |src| - done then |src| - done else PGSIZE - off;
        var piece := src[done..done + k];
        ghost var d := data;
        PokeWrites(mem, data, root, v, off, va, piece);
        MappedMore(mem, root, dstva, done, v, off, k);
        var page := Poked(data[pa], off, piece);
        PagesPoke(mem, data, free, pa, page);
        data := data[pa := page];
        WrittenThen(mem, old(data), d, data, root, dstva, src[..done], va, piece);
        assert src[..done] + piece == src[..done + k];
        done, va := done + k, va + k;
      }
      return true, done;
    }

    /** copyin: the bytes at srcva, or failure if some page is not the user's. */
    method CopyIn(root: nat, srcva: nat, len: nat) returns (ok: bool, bytes: seq<nat>)
      requires Valid() && IsRoot(roles, root) && UserOk(mem, data, root)
      modifies this`mem, this`free, this`roles
      ensures Valid() && Now() == old(Now())
      ensures ok <==> MappedTo(mem, root, srcva, len)
      ensures ok ==> bytes == BytesAt(mem, data, root, srcva, len)
    {
      var done, va := 0, srcva;
      bytes := [];
      while done < len
        invariant done <= len && va == srcva + done && Valid() && Now() == old(Now())
        invariant MappedTo(mem, root, srcva, done) && bytes == BytesAt(mem, data, root, srcva, done)
      {
        var v, off := va / PGSIZE, va % PGSIZE;
        var pa := WalkAddr(root, v);
        if pa == 0 {
          assert !MappedAt(mem, root, va);
          return false, bytes;
        }
        var k := if PGSIZE - off > len - done then len - done else PGSIZE - off;
        assert UserAt(mem, data, root, v);
        BytesMore(mem, data, root, srcva, done, v, off, k);
        MappedMore(mem, root, srcva, done, v, off, k);
        bytes := bytes + data[pa][off..off + k];
        done, va := done + k, va + k;
      }
      return true, bytes;
    }
  }
}
