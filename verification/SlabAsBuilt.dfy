/** The page lists of the slab allocator as the source links them: list_insert leaves the old
    first page's prev alone, and every page's prev stays the head of its list. */
module SlabAsBuilt {
  import opened BuddyNodes

  /** Page headers by page number and, after them, the list heads; and for every list the pages
      that can be reached from its head. */
  datatype Lists = Lists(pages: nat, nodes: seq<Node>, len: seq<int>, contents: seq<seq<int>>)

  /** list_add of page x to list l, and list_remove of the k-th page that list l reaches. */
  datatype PageOp = Put(l: nat, x: nat) | Drop(l: nat, k: nat)

  /** One list, seen alone. */
  function View(s: Lists, l: nat): ListState
    requires l < |s.len| == |s.contents|
  {
    ListState(s.nodes, s.len[l], s.contents[l])
  }

  function OnList(op: PageOp): ListOp {
    match op
    case Put(_, x) => Add(x)
    case Drop(_, k) => Remove(k)
  }

  /** A page to add is on no list, and a page to remove has not been lost. */
  ghost predicate Enabled(s: Lists, op: PageOp) {
    && op.l < |s.len| == |s.contents|
    && match op
       case Put(_, x) => x < s.pages && forall m | 0 <= m < |s.contents| :: x !in s.contents[m]
       case Drop(l, k) => k < |s.contents[l]|
  }

  function Next(s: Lists, op: PageOp): Lists
    requires op.l < |s.len| == |s.contents|
  {
    var t := Perform(View(s, op.l), s.pages + op.l, OnList(op));
    s.(nodes := t.nodes, len := s.len[op.l := t.len], contents := s.contents[op.l := t.contents])
  }

  /** list_init for every list. */
  ghost predicate Init(s: Lists) {
    && |s.contents| == |s.len| && |s.nodes| == s.pages + |s.len|
    && forall l: nat {:trigger s.len[l]} | l < |s.len| ::
         s.len[l] == 0 && s.contents[l] == [] && s.nodes[s.pages + l] == Node(NULL, NULL, l, l)
  }

  ghost predicate ListOk(s: Lists, l: nat)
    requires l < |s.contents|
  {
    Chain(s.nodes, s.pages + l, l, s.contents[l], false) && forall x | x in s.contents[l] :: x < s.pages
  }

  ghost predicate Apart(s: Lists, l: nat, m: nat)
    requires l < |s.contents| && m < |s.contents|
  {
    l != m ==> forall x | x in s.contents[l] :: x !in s.contents[m]
  }

  ghost predicate Inv(s: Lists) {
    && |s.contents| == |s.len| && |s.nodes| == s.pages + |s.len|
    && (forall l: nat {:trigger ListOk(s, l)} | l < |s.len| :: ListOk(s, l))
    && (forall l: nat, m: nat {:trigger Apart(s, l, m)} | l < |s.len| && m < |s.len| :: Apart(s, l, m))
  }

  /** The nodes that an operation writes: the head and the pages of its list, and the page added. */
  lemma NodeKept(s: Lists, op: PageOp, y: nat)
    requires op.l < |s.len| == |s.contents| && |s.nodes| == s.pages + |s.len| && ListOk(s, op.l) && Enabled(s, op)
    requires y < |s.nodes| && y != s.pages + op.l && y !in s.contents[op.l] && op != Put(op.l, y)
    ensures |Next(s, op).nodes| == |s.nodes| && Next(s, op).nodes[y] == s.nodes[y]
  {
    var xs := s.contents[op.l];
    if op.Drop? {
      assert LinkOk(s.nodes, s.pages + op.l, op.l, xs, op.k, false);
      assert op.k + 1 < |xs| ==> xs[op.k + 1] in xs;
    }
  }

  /** An operation on one list is, for another, a write elsewhere. */
  lemma OtherList(s: Lists, op: PageOp, m: nat)
    requires |s.contents| == |s.len| && |s.nodes| == s.pages + |s.len| && Enabled(s, op) && m < |s.len| && m != op.l
    requires ListOk(s, op.l) && ListOk(s, m) && Apart(s, op.l, m)
    ensures Possible(View(s, m), s.pages + m, Elsewhere(Next(s, op).nodes))
  {
    NodeKept(s, op, s.pages + m);
    var xs := s.contents[m];
    forall i | 0 <= i < |xs| ensures 0 <= xs[i] < |s.nodes| && Next(s, op).nodes[xs[i]] == s.nodes[xs[i]] {
      assert xs[i] in xs;
      NodeKept(s, op, xs[i]);
    }
  }

  /** What an operation leaves on its list was there before, or is the page added. */
  lemma OnItsList(s: Lists, op: PageOp)
    requires op.l < |s.len| == |s.contents|
    ensures var t := Next(s, op); |t.contents| == |t.len| == |s.len| && t.pages == s.pages
    ensures forall y | y in Next(s, op).contents[op.l] :: y in s.contents[op.l] || (op.Put? && y == op.x)
  {}

  lemma OwnListOk(s: Lists, op: PageOp)
    requires |s.contents| == |s.len| && |s.nodes| == s.pages + |s.len| && Enabled(s, op) && ListOk(s, op.l)
    ensures |Next(s, op).contents| == |s.contents| && ListOk(Next(s, op), op.l)
  {
    OnItsList(s, op);
    PerformKeepsInv(View(s, op.l), s.pages + op.l, op.l, OnList(op));
  }

  lemma OtherListOk(s: Lists, op: PageOp, m: nat)
    requires |s.contents| == |s.len| && |s.nodes| == s.pages + |s.len| && Enabled(s, op) && m < |s.len| && m != op.l
    requires ListOk(s, op.l) && ListOk(s, m) && Apart(s, op.l, m)
    ensures |Next(s, op).contents| == |s.contents| && ListOk(Next(s, op), m)
  {
    OtherList(s, op, m);
    PerformKeepsInv(View(s, m), s.pages + m, m, Elsewhere(Next(s, op).nodes));
  }

  lemma StillApart(s: Lists, op: PageOp, i: nat, j: nat)
    requires |s.contents| == |s.len| && Enabled(s, op) && i < |s.len| && j < |s.len| && Apart(s, i, j)
    ensures |Next(s, op).contents| == |s.contents| && Apart(Next(s, op), i, j)
  {
    OnItsList(s, op);
  }

  lemma StepKeepsInv(s: Lists, op: PageOp)
    requires Inv(s) && Enabled(s, op)
    ensures Inv(Next(s, op)) && |Next(s, op).len| == |s.len| && Next(s, op).pages == s.pages
  {
    var t := Next(s, op);
    assert ListOk(s, op.l);
    OwnListOk(s, op);
    forall m: nat | m < |t.len| && m != op.l ensures ListOk(t, m) {
      assert ListOk(s, m) && Apart(s, op.l, m);
      OtherListOk(s, op, m);
    }
    forall i: nat, j: nat | i < |t.len| && j < |t.len| ensures Apart(t, i, j) {
      assert Apart(s, i, j);
      StillApart(s, op, i, j);
    }
    NodesCounted(s, op);
  }

  lemma NodesCounted(s: Lists, op: PageOp)
    requires op.l < |s.len| == |s.contents|
    ensures |Next(s, op).nodes| == |s.nodes|
  {}

  ghost predicate Step(ss: seq<Lists>, ops: seq<PageOp>, i: nat)
    requires i < |ops| < |ss|
  {
    Enabled(ss[i], ops[i]) && ss[i + 1] == Next(ss[i], ops[i])
  }

  ghost predicate IsRun(ss: seq<Lists>, ops: seq<PageOp>) {
    && |ss| == |ops| + 1 && Init(ss[0])
    && forall i: nat {:trigger Step(ss, ops, i)} | i < |ops| :: Step(ss, ops, i)
  }

  lemma {:induction false} RunKeepsInv(ss: seq<Lists>, ops: seq<PageOp>, n: nat)
    requires IsRun(ss, ops) && n < |ss|
    ensures Inv(ss[n]) && |ss[n].len| == |ss[0].len| && ss[n].pages == ss[0].pages
  {
    if n == 0 {
      forall l: nat | l < |ss[0].len| ensures ListOk(ss[0], l) {
        assert ss[0].len[l] == 0;
      }
      forall l: nat, m: nat | l < |ss[0].len| && m < |ss[0].len| ensures Apart(ss[0], l, m) {
        assert ss[0].len[l] == 0;
      }
    } else {
      RunKeepsInv(ss, ops, n - 1);
      assert Step(ss, ops, n - 1);
      StepKeepsInv(ss[n - 1], ops[n - 1]);
    }
  }

  /** What operation i of a run is to list l. */
  function Seen(ss: seq<Lists>, ops: seq<PageOp>, l: nat, i: nat): ListOp
    requires i < |ops| < |ss|
  {
    if ops[i].l == l then OnList(ops[i]) else Elsewhere(ss[i + 1].nodes)
  }

  /** To list l, a step of the slab is a step of one list. */
  lemma SeenStep(s: Lists, op: PageOp, l: nat)
    requires Inv(s) && Enabled(s, op) && l < |s.len|
    ensures var t, seen := Next(s, op), if op.l == l then OnList(op) else Elsewhere(Next(s, op).nodes);
            && l < |t.len| == |t.contents| && Possible(View(s, l), s.pages + l, seen)
            && View(t, l) == Perform(View(s, l), s.pages + l, seen)
  {
    assert ListOk(s, l) && ListOk(s, op.l) && Apart(s, op.l, l);
    if op.l != l {
      OtherList(s, op, l);
    } else {
      assert op.Put? ==> op.x !in s.contents[l];
    }
  }

  ghost predicate NotFirst(op: PageOp, l: nat) {
    op.Drop? && op.l == l && op.k > 0
  }

  /** The run of one list. */
  lemma SeenRun(ss: seq<Lists>, ops: seq<PageOp>, l: nat) returns (views: seq<ListState>, seen: seq<ListOp>)
    requires IsRun(ss, ops) && l < |ss[0].len|
    ensures |views| == |ss| && |seen| == |ops| && ListRun(views, ss[0].pages + l, l, seen)
    ensures forall i: nat | i < |ss| :: l < |ss[i].len| == |ss[i].contents| && views[i] == View(ss[i], l)
    ensures forall i: nat | i < |ops| :: seen[i] == Seen(ss, ops, l, i)
  {
    forall i: nat | i < |ss| ensures Inv(ss[i]) && |ss[i].len| == |ss[0].len| && ss[i].pages == ss[0].pages {
      RunKeepsInv(ss, ops, i);
    }
    var h := ss[0].pages + l;
    views := seq(|ss|, i requires 0 <= i < |ss| => View(ss[i], l));
    seen := seq(|ops|, i requires 0 <= i < |ops| => Seen(ss, ops, l, i));
    forall i: nat | i < |ops| ensures ListStep(views, h, seen, i) {
      assert Step(ss, ops, i);
      SeenStep(ss[i], ops[i], l);
    }
    assert ss[0].len[l] == 0;
  }

  /** lib_slab_alloc takes the first page of a list whose len is positive.  After any run it
      meets a list with no first page exactly when nothing can be reached on that list and
      some earlier list_remove on it was not of its first page. */
  lemma NullPageIff(ss: seq<Lists>, ops: seq<PageOp>, n: nat, l: nat)
    requires IsRun(ss, ops) && n < |ss| && l < |ss[0].len|
    ensures l < |ss[n].len| == |ss[n].contents| && ss[n].pages + l < |ss[n].nodes|
    ensures ss[n].len[l] > 0 && ss[n].nodes[ss[n].pages + l].next == NULL <==>
              ss[n].contents[l] == [] && exists i: nat :: i < n && NotFirst(ops[i], l)
  {
    RunKeepsInv(ss, ops, n);
    var views, seen := SeenRun(ss, ops, l);
    NullFirstIff(views, ss[0].pages + l, l, seen, n);
    assert forall i: nat | i < n :: NotFirst(ops[i], l) <==> !AtFront(seen[i]);
  }
}
