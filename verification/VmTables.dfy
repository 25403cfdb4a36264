/** How many table pages a range of virtual pages takes. */
module VmTables {
  import opened PageTable
  import opened VmSpec
  import opened SetSizes

  /** The role of the table that walk passes at a level on its way to page v. */
  function WayRole(root: nat, v: nat, level: nat): Role {
    if level >= 2 then RootRole(root)
    else if level == 1 then Role(root, 1, I2(v), 0)
    else Role(root, 0, I2(v), I1(v))
  }

  /** r is that of a table below the root, on the way to one of the pages from lo up to hi. */
  predicate Leads(r: Role, root: nat, lo: nat, hi: nat) {
    && lo < hi && r.root == root
    && if r.level == 1 then r.i1 == 0 && lo / 262144 <= r.i2 <= (hi - 1) / 262144
       else r.level == 0 && r.i1 < 512 && lo / 512 <= 512 * r.i2 + r.i1 <= (hi - 1) / 512
  }

  lemma WayLeads(root: nat, v: nat, level: nat)
    requires level < 2
    ensures Leads(WayRole(root, v, level), root, v, v + 1)
  {
    assert v / 262144 == v / 512 / 512;
  }

  /** Every such role is on the way to some page of the range. */
  lemma LeadsTo(r: Role, root: nat, lo: nat, hi: nat) returns (v: nat)
    requires Leads(r, root, lo, hi)
    ensures lo <= v < hi && WayRole(root, v, r.level) == r
  {
    var k, size := if r.level == 1 then r.i2 else 512 * r.i2 + r.i1, if r.level == 1 then 262144 else 512;
    v := if lo < k * size then k * size else lo;
    if r.level == 1 {
      assert v / 262144 == k;
    } else {
      assert v / 512 == k && v / 262144 == v / 512 / 512;
    }
  }

  /** A table keeps its role, and a new one leads to pages of the range. */
  ghost predicate TableGrows(a: Roles, b: Roles, root: nat, lo: nat, hi: nat, p: nat) {
    if p in a then p in b && b[p] == a[p] else p in b ==> Leads(b[p], root, lo, hi)
  }

  ghost predicate TablesGrow(a: Roles, b: Roles, root: nat, lo: nat, hi: nat) {
    forall p: nat {:trigger TableGrows(a, b, root, lo, hi, p)} :: TableGrows(a, b, root, lo, hi, p)
  }

  lemma GrowNone(a: Roles, root: nat, lo: nat, hi: nat)
    ensures TablesGrow(a, a, root, lo, hi)
  {}

  /** One table more on the way to page v. */
  lemma GrowOne(a: Roles, b: Roles, root: nat, v: nat, level: nat)
    requires forall p | p in a :: p in b && b[p] == a[p]
    requires level < 2 && forall p | p in b && p !in a :: b[p] == WayRole(root, v, level)
    ensures TablesGrow(a, b, root, v, v + 1)
  {
    WayLeads(root, v, level);
  }

  lemma GrowRoles(a: Roles, b: Roles, root: nat, lo: nat, hi: nat)
    requires TablesGrow(a, b, root, lo, hi)
    ensures RolesGrow(a, b, root)
  {
    forall p | p in a ensures p in b && b[p] == a[p] {
      assert TableGrows(a, b, root, lo, hi, p);
    }
    forall p | p in b && p !in a ensures b[p].root == root {
      assert TableGrows(a, b, root, lo, hi, p);
    }
  }

  lemma GrowMore(a: Roles, b: Roles, c: Roles, root: nat, lo: nat, mid: nat, hi: nat)
    requires TablesGrow(a, b, root, lo, mid) && TablesGrow(b, c, root, mid, hi) && lo <= mid <= hi
    ensures TablesGrow(a, c, root, lo, hi)
  {
    forall p: nat ensures TableGrows(a, c, root, lo, hi, p) {
      assert TableGrows(a, b, root, lo, mid, p) && TableGrows(b, c, root, mid, hi, p);
    }
  }

  lemma GrowTwice(a: Roles, b: Roles, c: Roles, root: nat, lo: nat, hi: nat)
    requires TablesGrow(a, b, root, lo, hi) && TablesGrow(b, c, root, lo, hi)
    ensures TablesGrow(a, c, root, lo, hi)
  {
    forall p: nat ensures TableGrows(a, c, root, lo, hi, p) {
      assert TableGrows(a, b, root, lo, hi, p) && TableGrows(b, c, root, lo, hi, p);
    }
  }

  lemma GrowWider(a: Roles, b: Roles, root: nat, lo: nat, mid: nat, hi: nat)
    requires TablesGrow(a, b, root, lo, mid) && mid <= hi
    ensures TablesGrow(a, b, root, lo, hi)
  {
    forall p: nat ensures TableGrows(a, b, root, lo, hi, p) {
      assert TableGrows(a, b, root, lo, mid, p);
    }
  }

  /** The tables that the range takes: one for each 512 pages and one for each 512 * 512. */
  ghost function Ways(root: nat, lo: nat, hi: nat): set<Role> {
    if lo >= hi then {}
    else (set k: nat | lo / 262144 <= k <= (hi - 1) / 262144 :: Role(root, 1, k, 0))
         + (set k: nat | lo / 512 <= k <= (hi - 1) / 512 :: Role(root, 0, k / 512, k % 512))
  }

  /** Those that are not there yet. */
  ghost function Missing(mem: Mem, root: nat, lo: nat, hi: nat): set<Role> {
    set r | r in Ways(root, lo, hi) && Find(mem, r) == 0
  }

  /** Their number. */
  ghost function Tables(mem: Mem, root: nat, lo: nat, hi: nat): nat {
    |Missing(mem, root, lo, hi)|
  }

  lemma MissingIff(mem: Mem, root: nat, lo: nat, hi: nat, r: Role)
    ensures r in Missing(mem, root, lo, hi) <==> Leads(r, root, lo, hi) && Find(mem, r) == 0
  {
    if Leads(r, root, lo, hi) && r.level == 0 {
      var k := 512 * r.i2 + r.i1;
      assert k / 512 == r.i2 && k % 512 == r.i1;
    }
  }

  ghost function NewRoles(a: Roles, b: Roles): set<Role> {
    set p | p in b && p !in a :: b[p]
  }

  lemma {:induction false} RolesCount(mem: Mem, roles: Roles, tables: set<nat>, rs: set<Role>)
    requires Forest(mem, roles) && tables <= roles.Keys && rs == set p | p in tables :: roles[p]
    ensures |rs| == |tables|
    decreases tables
  {
    if tables != {} {
      var p :| p in tables;
      var rest := tables - {p};
      var others := set q | q in rest :: roles[q];
      forall q | q in rest ensures roles[q] != roles[p] {
        if roles[q] == roles[p] { RoleUnique(mem, roles, q, p); }
      }
      assert rs == others + {roles[p]};
      RolesCount(mem, roles, rest, others);
    }
  }

  /** A role that is not taken is not found, and one that is found is taken. */
  lemma FindIff(mem: Mem, roles: Roles, root: nat, v: nat, level: nat)
    requires Forest(mem, roles) && IsRoot(roles, root) && level < 2
    ensures var r := WayRole(root, v, level);
            Find(mem, r) != 0 <==> exists p :: p in roles && roles[p] == r
  {
    var r := WayRole(root, v, level);
    TableRole(mem, roles, root, v);
    ChildFacts(mem, roles, root, I2(v));
    ZeroNotTable(mem, roles);
    if p :| p in roles && roles[p] == r {
      assert RoleOk(mem, roles, p);
    }
    assert Find(mem, r) != 0 ==> Find(mem, r) in roles && roles[Find(mem, r)] == r;
  }

  /** New tables are among those that were missing. */
  lemma NewWereMissing(a: Mem, ra: Roles, b: Mem, rb: Roles, root: nat, lo: nat, hi: nat)
    requires Forest(a, ra) && Forest(b, rb) && IsRoot(ra, root) && TablesGrow(ra, rb, root, lo, hi)
    ensures NewRoles(ra, rb) <= Missing(a, root, lo, hi) && |NewRoles(ra, rb)| == |b.Keys - a.Keys|
  {
    GrowRoles(ra, rb, root, lo, hi);
    forall p | p in rb && p !in ra ensures rb[p] in Missing(a, root, lo, hi) {
      assert TableGrows(ra, rb, root, lo, hi, p);
      var v := LeadsTo(rb[p], root, lo, hi);
      FindIff(a, ra, root, v, rb[p].level);
      if q :| q in ra && ra[q] == rb[p] { RoleUnique(b, rb, q, p); }
      MissingIff(a, root, lo, hi, rb[p]);
    }
    var tables := b.Keys - a.Keys;
    assert NewRoles(ra, rb) == set p | p in tables :: rb[p];
    RolesCount(b, rb, tables, NewRoles(ra, rb));
  }

  lemma TablesBound(a: Mem, ra: Roles, b: Mem, rb: Roles, root: nat, lo: nat, hi: nat)
    requires Forest(a, ra) && Forest(b, rb) && IsRoot(ra, root) && TablesGrow(ra, rb, root, lo, hi)
    ensures |b.Keys - a.Keys| <= Tables(a, root, lo, hi)
  {
    NewWereMissing(a, ra, b, rb, root, lo, hi);
    SubsetSize(NewRoles(ra, rb), Missing(a, root, lo, hi));
  }

  /** One of them is still missing. */
  lemma StillMissing(a: Mem, ra: Roles, b: Mem, rb: Roles, root: nat, lo: nat, hi: nat, v: nat)
    requires Forest(a, ra) && Forest(b, rb) && IsRoot(ra, root) && TablesGrow(ra, rb, root, lo, hi)
    requires lo <= v < hi && Table0(b, root, v) == 0
    ensures |b.Keys - a.Keys| < Tables(a, root, lo, hi)
  {
    var r := WayRole(root, v, 0);
    GrowRoles(ra, rb, root, lo, hi);
    NewWereMissing(a, ra, b, rb, root, lo, hi);
    FindIff(a, ra, root, v, 0);
    FindIff(b, rb, root, v, 0);
    WayLeads(root, v, 0);
    MissingIff(a, root, lo, hi, r);
    assert r in Missing(a, root, lo, hi) && r !in NewRoles(ra, rb);
    SubsetSize(NewRoles(ra, rb), Missing(a, root, lo, hi));
  }

  ghost predicate There(mem: Mem, root: nat, v: nat) {
    Trans(mem, root, v) != 0
  }

  ghost predicate AllThere(mem: Mem, root: nat, lo: nat, hi: nat) {
    forall v: nat {:trigger There(mem, root, v)} | lo <= v < hi :: There(mem, root, v)
  }

  /** A table that was missing, and that a page now mapped needs, is new. */
  lemma MissingIsNew(a: Mem, ra: Roles, b: Mem, rb: Roles, root: nat, v: nat, level: nat)
    requires Forest(a, ra) && Forest(b, rb) && IsRoot(ra, root) && RolesGrow(ra, rb, root) && level < 2
    requires Find(a, WayRole(root, v, level)) == 0 && There(b, root, v)
    ensures WayRole(root, v, level) in NewRoles(ra, rb)
  {
    ZeroNotTable(b, rb);
    FindIff(a, ra, root, v, level);
    FindIff(b, rb, root, v, level);
  }

  /** All pages of the range are mapped, so none of them is missing. */
  lemma NoneMissing(a: Mem, ra: Roles, b: Mem, rb: Roles, root: nat, lo: nat, hi: nat)
    requires Forest(a, ra) && Forest(b, rb) && IsRoot(ra, root) && TablesGrow(ra, rb, root, lo, hi)
    requires AllThere(b, root, lo, hi)
    ensures |b.Keys - a.Keys| == Tables(a, root, lo, hi)
  {
    NewWereMissing(a, ra, b, rb, root, lo, hi);
    GrowRoles(ra, rb, root, lo, hi);
    forall r | r in Missing(a, root, lo, hi) ensures r in NewRoles(ra, rb) {
      MissingIff(a, root, lo, hi, r);
      var v := LeadsTo(r, root, lo, hi);
      assert There(b, root, v);
      MissingIsNew(a, ra, b, rb, root, v, r.level);
    }
    assert NewRoles(ra, rb) == Missing(a, root, lo, hi);
  }

  // ---- Pages and tables together ----

  /** What mapping n new pages from lo on takes from the free pages. */
  ghost function Cost(mem: Mem, root: nat, lo: nat, n: nat): nat {
    n + Tables(mem, root, lo, lo + n)
  }

  lemma NoCost(mem: Mem, root: nat, lo: nat)
    ensures Cost(mem, root, lo, 0) == 0
  {
    assert Missing(mem, root, lo, lo) == {};
  }

  lemma {:induction false} ElemsSize(pas: seq<nat>, n: nat)
    requires n <= |pas|
    requires forall i: nat, j: nat {:trigger Different(pas, i, j)} | i < |pas| && j < |pas| :: Different(pas, i, j)
    ensures |Elems(pas[..n])| == n
  {
    if n > 0 {
      ElemsSize(pas, n - 1);
      assert pas[..n] == pas[..n - 1] + [pas[n - 1]];
      forall i | 0 <= i < n - 1 ensures pas[i] != pas[n - 1] {
        assert Different(pas, i, n - 1);
      }
      assert Elems(pas[..n]) == Elems(pas[..n - 1]) + {pas[n - 1]};
    }
  }

  lemma TookSize(a: Snap, b: Snap, pas: seq<nat>, contents: seq<seq<nat>>)
    requires Took(a, b, pas, contents)
    ensures |a.free| == |b.free| + |b.mem.Keys - a.mem.Keys| + |pas|
  {
    ElemsSize(pas, |pas|);
    assert pas[..|pas|] == pas;
    ThreeParts(a.free, b.free, b.mem.Keys - a.mem.Keys, Elems(pas));
  }

  lemma ThreeParts(all: set<nat>, x: set<nat>, y: set<nat>, z: set<nat>)
    requires y <= all && z <= all && y !! z && x == all - y - z
    ensures |all| == |x| + |y| + |z|
  {
    assert all == x + y + z;
    assert x !! y && (x + y) !! z;
  }

  /** Memory is out: no page is left, or one page and no table for it. */
  ghost predicate Out(mem: Mem, free: set<nat>, root: nat, v: nat) {
    free == {} || (Table0(mem, root, v) == 0 && forall p, q | p in free && q in free :: p == q)
  }

  /** From a to b the pages from lo up to `at` have been mapped, and page `at` cannot be. */
  ghost predicate Stuck(a: Snap, b: Snap, root: nat, lo: nat, at: nat) {
    Forest(b.mem, b.roles) && TablesGrow(a.roles, b.roles, root, lo, at + 1) && Out(b.mem, b.free, root, at)
  }

  /** Page v could not be mapped: a page or a table is wanting. */
  lemma OutOfOne(a: Mem, ra: Roles, b: Mem, rb: Roles, free: set<nat>, root: nat, lo: nat, hi: nat, v: nat)
    requires Forest(a, ra) && Forest(b, rb) && IsRoot(ra, root) && TablesGrow(ra, rb, root, lo, v + 1)
    requires lo <= v < hi && Out(b, free, root, v)
    ensures |free| + |b.Keys - a.Keys| <= Tables(a, root, lo, hi)
  {
    GrowWider(ra, rb, root, lo, v + 1, hi);
    if free == {} {
      TablesBound(a, ra, b, rb, root, lo, hi);
    } else {
      var p :| p in free;
      assert free == {p};
      StillMissing(a, ra, b, rb, root, lo, hi, v);
    }
  }

  /** It ran out with fewer than n pages mapped: there were fewer pages than that takes. */
  lemma RanOut(a: Snap, b: Snap, root: nat, lo: nat, n: nat, pas: seq<nat>, contents: seq<seq<nat>>)
    requires Forest(a.mem, a.roles) && IsRoot(a.roles, root)
    requires Took(a, b, pas, contents) && |pas| < n && Stuck(a, b, root, lo, lo + |pas|)
    ensures |a.free| < Cost(a.mem, root, lo, n)
  {
    TookSize(a, b, pas, contents);
    OutOfOne(a.mem, a.roles, b.mem, b.roles, b.free, root, lo, lo + n, lo + |pas|);
  }

  lemma BuiltThere(a: Snap, b: Snap, root: nat, lo: nat, pas: seq<nat>, contents: seq<seq<nat>>, flags: seq<nat>)
    requires IsRoot(a.roles, root) && Built(a, b, root, lo, pas, contents, flags)
    ensures AllThere(b.mem, root, lo, lo + |pas|)
  {
    forall v: nat | lo <= v < lo + |pas| ensures There(b.mem, root, v) {
      assert LeafFlags(flags, v - lo);
      assert EditedAt(a.mem, b.mem, root, lo, PtesOf(pas, flags), root, v);
    }
  }

  /** All n pages are mapped: there were as many as that takes. */
  lemma HadEnough(a: Snap, b: Snap, root: nat, lo: nat, pas: seq<nat>, contents: seq<seq<nat>>, flags: seq<nat>)
    requires Forest(a.mem, a.roles) && Forest(b.mem, b.roles) && IsRoot(a.roles, root)
    requires Built(a, b, root, lo, pas, contents, flags) && TablesGrow(a.roles, b.roles, root, lo, lo + |pas|)
    ensures |a.free| >= Cost(a.mem, root, lo, |pas|)
  {
    TookSize(a, b, pas, contents);
    BuiltThere(a, b, root, lo, pas, contents, flags);
    NoneMissing(a.mem, a.roles, b.mem, b.roles, root, lo, lo + |pas|);
  }

  /** uvmalloc that has mapped all its pages, and uvmalloc that cannot map the next. */
  lemma ExtendedEnough(a: Snap, b: Snap, root: nat, lo: nat, pas: seq<nat>, flag: nat)
    requires Forest(a.mem, a.roles) && Forest(b.mem, b.roles) && IsRoot(a.roles, root)
    requires Extended(a, b, root, lo, pas, flag) && TablesGrow(a.roles, b.roles, root, lo, lo + |pas|)
    ensures |a.free| >= Cost(a.mem, root, lo, |pas|)
  {
    HadEnough(a, b, root, lo, pas, Repeat(|pas|, ZeroPage()), Repeat(|pas|, flag));
  }

  lemma ExtendedOut(a: Snap, b: Snap, root: nat, lo: nat, n: nat, pas: seq<nat>, flag: nat)
    requires Forest(a.mem, a.roles) && IsRoot(a.roles, root)
    requires Extended(a, b, root, lo, pas, flag) && |pas| < n && Stuck(a, b, root, lo, lo + |pas|)
    ensures |a.free| < Cost(a.mem, root, lo, n)
  {
    RanOut(a, b, root, lo, n, pas, Repeat(|pas|, ZeroPage()));
  }

  /** The same of uvmcopy. */
  lemma CopiedEnough(a: Snap, b: Snap, src: nat, dst: nat, pas: seq<nat>, n: nat)
    requires Forest(a.mem, a.roles) && Forest(b.mem, b.roles) && IsRoot(a.roles, dst)
    requires Copied(a, b, src, dst, pas, n) && TablesGrow(a.roles, b.roles, dst, 0, n)
    ensures |a.free| >= Cost(a.mem, dst, 0, n)
  {
    HadEnough(a, b, dst, 0, pas, BytesOf(a.mem, a.data, src, n), FlagsOf(a.mem, src, n));
  }

  lemma CopiedOut(a: Snap, b: Snap, src: nat, dst: nat, pas: seq<nat>, at: nat, n: nat)
    requires Forest(a.mem, a.roles) && IsRoot(a.roles, dst)
    requires Copied(a, b, src, dst, pas, at) && at < n && Stuck(a, b, dst, 0, at)
    ensures |a.free| < Cost(a.mem, dst, 0, n)
  {
    RanOut(a, b, dst, 0, n, pas, BytesOf(a.mem, a.data, src, at));
  }

  // ---- A page table with nothing in it ----

  /** The tables that the first n pages take. */
  function TablesOf(n: nat): nat {
    (n + 511) / 512 + (n + 262143) / 262144
  }

  ghost function Level1(root: nat, n: nat): set<Role> {
    set k: nat | k < n :: Role(root, 1, k, 0)
  }

  ghost function Level0(root: nat, n: nat): set<Role> {
    set k: nat | k < n :: Role(root, 0, k / 512, k % 512)
  }

  lemma {:induction false} Level1Size(root: nat, n: nat)
    ensures |Level1(root, n)| == n
  {
    if n > 0 {
      Level1Size(root, n - 1);
      assert Level1(root, n) == Level1(root, n - 1) + {Role(root, 1, n - 1, 0)};
    }
  }

  lemma {:induction false} Level0Size(root: nat, n: nat)
    ensures |Level0(root, n)| == n
  {
    if n > 0 {
      var r := Role(root, 0, (n - 1) / 512, (n - 1) % 512);
      Level0Size(root, n - 1);
      assert Level0(root, n) == Level0(root, n - 1) + {r};
      assert forall k: nat | k < n - 1 :: k / 512 != r.i2 || k % 512 != r.i1;
    }
  }

  lemma Level0Iff(root: nat, n: nat, r: Role)
    ensures r in Level0(root, n) <==> r.root == root && r.level == 0 && r.i1 < 512 && 512 * r.i2 + r.i1 < n
  {
    if r.root == root && r.level == 0 && r.i1 < 512 && 512 * r.i2 + r.i1 < n {
      var k := 512 * r.i2 + r.i1;
      assert k / 512 == r.i2 && k % 512 == r.i1;
    }
  }

  lemma MissingFromEmpty(mem: Mem, root: nat, n: nat)
    requires 0 !in mem && forall k: nat :: Child(mem, root, k) == 0
    ensures Tables(mem, root, 0, n) == TablesOf(n)
  {
    var ones, zeros := Level1(root, (n + 262143) / 262144), Level0(root, (n + 511) / 512);
    Level1Size(root, (n + 262143) / 262144);
    Level0Size(root, (n + 511) / 512);
    forall r ensures r in Missing(mem, root, 0, n) <==> r in ones + zeros {
      MissingIff(mem, root, 0, n, r);
      Level0Iff(root, (n + 511) / 512, r);
    }
    assert Missing(mem, root, 0, n) == ones + zeros;
    assert ones !! zeros;
  }
}
