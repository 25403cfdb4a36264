/** The free-list nodes, which live in the first bytes of the free blocks, and the two
    list operations.  Nodes are named by an index; NULL stands for the null pointer. */
module BuddyNodes {

  datatype Node = Node(next: int, prev: int, list: int, level: int)

  const NULL := -1

  /** list_add.  The source leaves the old first node's prev alone (linkBack == false);
      with linkBack it is pointed at the new node, as a doubly linked list needs. */
  function Insert(nodes: seq<Node>, h: nat, x: nat, linkBack: bool): (r: seq<Node>)
    requires h < |nodes| && x < |nodes| && x != h && nodes[h].next < |nodes|
    ensures |r| == |nodes|
  {
    var first := nodes[h].next;
    var linked := nodes[x := Node(first, h, nodes[h].list, nodes[h].level)][h := nodes[h].(next := x)];
    if linkBack && first >= 0 then linked[first := linked[first].(prev := x)] else linked
  }

  /** The pointers of node x lead to nodes. */
  predicate Linked(nodes: seq<Node>, x: int) {
    0 <= x < |nodes| && 0 <= nodes[x].prev < |nodes| && nodes[x].next < |nodes|
  }

  /** remove_block. */
  function Unlink(nodes: seq<Node>, x: nat): (r: seq<Node>)
    requires Linked(nodes, x)
    ensures |r| == |nodes|
  {
    var prev, next := nodes[x].prev, nodes[x].next;
    var cut := nodes[prev := nodes[prev].(next := next)];
    if next >= 0 then cut[next := cut[next].(prev := prev)] else cut
  }

  function At(xs: seq<int>, i: nat): int {
    if i < |xs| then xs[i] else NULL
  }

  /** Node i of the list: where its next and its prev point.  With `back`, prev undoes
      next; without, every prev is the head. */
  ghost predicate LinkOk(nodes: seq<Node>, h: nat, l: int, xs: seq<int>, i: nat, back: bool)
    requires i < |xs|
  {
    && 0 <= xs[i] < |nodes|
    && nodes[xs[i]] == Node(At(xs, i + 1), if back && i > 0 then xs[i - 1] else h, l, l)
  }

  /** Following next from head h visits exactly xs. */
  ghost predicate Chain(nodes: seq<Node>, h: nat, l: int, xs: seq<int>, back: bool) {
    && h < |nodes| && nodes[h] == Node(At(xs, 0), NULL, l, l)
    && (forall i | 0 <= i < |xs| :: 0 <= xs[i] < |nodes| && xs[i] != h)
    && (forall i, j | 0 <= i < j < |xs| :: xs[i] != xs[j])
    && (forall i | 0 <= i < |xs| :: LinkOk(nodes, h, l, xs, i, back))
  }

  lemma ChainInsert(nodes: seq<Node>, h: nat, l: int, xs: seq<int>, x: nat, back: bool)
    requires Chain(nodes, h, l, xs, back) && x < |nodes| && x != h && x !in xs
    ensures Chain(Insert(nodes, h, x, back), h, l, [x] + xs, back)
  {
    var ys, r := [x] + xs, Insert(nodes, h, x, back);
    forall i | 0 <= i < |ys| ensures LinkOk(r, h, l, ys, i, back) {
      if i > 0 { assert LinkOk(nodes, h, l, xs, i - 1, back); }
    }
  }

  /** In a proper doubly linked list, removal takes out the one block. */
  lemma ChainUnlink(nodes: seq<Node>, h: nat, l: int, xs: seq<int>, k: nat)
    requires Chain(nodes, h, l, xs, true) && k < |xs|
    ensures assert LinkOk(nodes, h, l, xs, k, true);
            Chain(Unlink(nodes, xs[k]), h, l, xs[..k] + xs[k + 1..], true)
  {
    assert LinkOk(nodes, h, l, xs, k, true);
    var ys, r := xs[..k] + xs[k + 1..], Unlink(nodes, xs[k]);
    forall i | 0 <= i < |ys| ensures LinkOk(r, h, l, ys, i, true) {
      UnlinkedAt(nodes, h, l, xs, k, i);
    }
  }

  lemma UnlinkedAt(nodes: seq<Node>, h: nat, l: int, xs: seq<int>, k: nat, i: nat)
    requires Chain(nodes, h, l, xs, true) && k < |xs| && i < |xs| - 1 && Linked(nodes, xs[k])
    ensures LinkOk(Unlink(nodes, xs[k]), h, l, xs[..k] + xs[k + 1..], i, true)
  {
    assert LinkOk(nodes, h, l, xs, k, true);
    assert LinkOk(nodes, h, l, xs, if i < k then i else i + 1, true);
  }

  /** As the source links its lists, removing block k drops the k blocks before it as well. */
  lemma ChainUnlinkAsWritten(nodes: seq<Node>, h: nat, l: int, xs: seq<int>, k: nat)
    requires Chain(nodes, h, l, xs, false) && k < |xs|
    ensures assert LinkOk(nodes, h, l, xs, k, false);
            Chain(Unlink(nodes, xs[k]), h, l, xs[k + 1..], false)
  {
    assert LinkOk(nodes, h, l, xs, k, false);
    var ys, r := xs[k + 1..], Unlink(nodes, xs[k]);
    forall i | 0 <= i < |ys| ensures LinkOk(r, h, l, ys, i, false) {
      assert LinkOk(nodes, h, l, xs, i + k + 1, false);
    }
  }

  /** A chain does not care about nodes outside it. */
  lemma ChainFrame(nodes: seq<Node>, other: seq<Node>, h: nat, l: int, xs: seq<int>, back: bool)
    requires Chain(nodes, h, l, xs, back) && |other| == |nodes|
    requires other[h] == nodes[h] && forall i | 0 <= i < |xs| :: other[xs[i]] == nodes[xs[i]]
    ensures Chain(other, h, l, xs, back)
  {
    forall i | 0 <= i < |xs| ensures LinkOk(other, h, l, xs, i, back) {
      assert LinkOk(nodes, h, l, xs, i, back);
    }
  }

  // ---- Whole runs of the list as written ----

  /** Elsewhere is an operation on another list, or any other write. */
  datatype ListOp = Add(x: nat) | Remove(k: nat) | Elsewhere(nodes: seq<Node>)

  datatype ListState = ListState(nodes: seq<Node>, len: int, contents: seq<int>)

  ghost predicate ListInv(s: ListState, h: nat, l: int) {
    Chain(s.nodes, h, l, s.contents, false)
  }

  /** A block to add is not on the list; a block to remove is; other writes leave the head and
      the blocks of the list alone. */
  ghost predicate Possible(s: ListState, h: nat, op: ListOp) {
    match op
    case Add(x) => x < |s.nodes| && x != h && x !in s.contents
    case Remove(k) => k < |s.contents|
    case Elsewhere(nodes) =>
      && |nodes| == |s.nodes| && h < |nodes| && nodes[h] == s.nodes[h]
      && forall i | 0 <= i < |s.contents| ::
           0 <= s.contents[i] < |nodes| && nodes[s.contents[i]] == s.nodes[s.contents[i]]
  }

  /** The operations as written, on memory and on len; contents says what should still be
      reachable. */
  function Perform(s: ListState, h: nat, op: ListOp): ListState {
    match op
    case Add(x) =>
      if h < |s.nodes| && x < |s.nodes| && x != h && s.nodes[h].next < |s.nodes| then
        ListState(Insert(s.nodes, h, x, false), s.len + 1, [x] + s.contents)
      else s
    case Remove(k) =>
      if k < |s.contents| && Linked(s.nodes, s.contents[k]) then
        ListState(Unlink(s.nodes, s.contents[k]), s.len - 1, s.contents[k + 1..])
      else s
    case Elsewhere(nodes) => s.(nodes := nodes)
  }

  lemma PerformKeepsInv(s: ListState, h: nat, l: int, op: ListOp)
    requires ListInv(s, h, l) && Possible(s, h, op)
    ensures ListInv(Perform(s, h, op), h, l)
    ensures var t := Perform(s, h, op);
            match op
            case Add(_) => t.len == s.len + 1 && |t.contents| == |s.contents| + 1
            case Remove(k) => t.len == s.len - 1 && |t.contents| == |s.contents| - k - 1
            case Elsewhere(_) => t.len == s.len && t.contents == s.contents
  {
    match op
    case Add(x) => ChainInsert(s.nodes, h, l, s.contents, x, false);
    case Remove(k) =>
      assert LinkOk(s.nodes, h, l, s.contents, k, false);
      ChainUnlinkAsWritten(s.nodes, h, l, s.contents, k);
    case Elsewhere(nodes) => ChainFrame(s.nodes, nodes, h, l, s.contents, false);
  }

  /** A run of the list from empty. */
  ghost predicate ListRun(ss: seq<ListState>, h: nat, l: int, ops: seq<ListOp>) {
    && |ss| == |ops| + 1 && ss[0].contents == [] && ss[0].len == 0
    && h < |ss[0].nodes| && ss[0].nodes[h] == Node(NULL, NULL, l, l)
    && forall i: nat {:trigger ListStep(ss, h, ops, i)} | i < |ops| :: ListStep(ss, h, ops, i)
  }

  ghost predicate ListStep(ss: seq<ListState>, h: nat, ops: seq<ListOp>, i: nat)
    requires i < |ops| < |ss|
  {
    Possible(ss[i], h, ops[i]) && ss[i + 1] == Perform(ss[i], h, ops[i])
  }

  predicate AtFront(op: ListOp) {
    op.Remove? ==> op.k == 0
  }

  /** Over any run, the reachable blocks are always contents, and len counts them exactly
      as long as every removal was of the first block. */
  lemma {:induction false} LenCountsIffFrontRemovals(ss: seq<ListState>, h: nat, l: int, ops: seq<ListOp>, n: nat)
    requires ListRun(ss, h, l, ops) && n <= |ops|
    ensures ListInv(ss[n], h, l) && ss[n].len >= |ss[n].contents|
    ensures ss[n].len == |ss[n].contents| <==> forall i: nat | i < n :: AtFront(ops[i])
  {
    if n > 0 {
      LenCountsIffFrontRemovals(ss, h, l, ops, n - 1);
      assert ListStep(ss, h, ops, n - 1);
      PerformKeepsInv(ss[n - 1], h, l, ops[n - 1]);
      assert AtFront(ops[n - 1]) || !AtFront(ops[n - 1]);
    }
  }

  /** The search for a non-empty list trusts len, and then takes head.next.  It meets a list
      with len > 0 and no first block exactly when nothing is reachable and some earlier
      removal was not of the first block. */
  lemma NullFirstIff(ss: seq<ListState>, h: nat, l: int, ops: seq<ListOp>, n: nat)
    requires ListRun(ss, h, l, ops) && n <= |ops|
    ensures h < |ss[n].nodes|
    ensures ss[n].len > 0 && ss[n].nodes[h].next == NULL <==>
              ss[n].contents == [] && exists i: nat :: i < n && !AtFront(ops[i])
  {
    LenCountsIffFrontRemovals(ss, h, l, ops, n);
  }

  /** Two blocks on a list and the older one removed, as when a cell is freed on the older of
      two slab pages: nothing can be reached any more, the newer block is lost, and len is
      still one. */
  lemma OlderRemovalLosesNewer(nodes: seq<Node>, h: nat, l: int, x: nat, y: nat) returns (ss: seq<ListState>)
    requires h < |nodes| && nodes[h] == Node(NULL, NULL, l, l)
    requires x < |nodes| && y < |nodes| && x != y && x != h && y != h
    ensures |ss| == 4 && ss[0].nodes == nodes && ListRun(ss, h, l, [Add(x), Add(y), Remove(1)])
    ensures ss[2].contents == [y, x] && ss[3].contents == [] && ss[3].len == 1 && Chain(ss[3].nodes, h, l, [], false)
  {
    var ops := [Add(x), Add(y), Remove(1)];
    var s0 := ListState(nodes, 0, []);
    var s1 := Perform(s0, h, ops[0]);
    var s2 := Perform(s1, h, ops[1]);
    var s3 := Perform(s2, h, ops[2]);
    ss := [s0, s1, s2, s3];
    assert ListStep(ss, h, ops, 0) && ListStep(ss, h, ops, 1) && ListStep(ss, h, ops, 2);
    LenCountsIffFrontRemovals(ss, h, l, ops, 3);
  }
}
