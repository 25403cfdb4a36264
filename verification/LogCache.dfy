/** The buffer cache, the operations and the log as one machine: every reader gets what an
    operation last gave, and a crash at any moment leaves the last committed block map. */
module LogCache {
  import opened LogDisk
  import C = BufferCache
  import O = LogOps
  import V = LogView

  const ROOTDEV := 1

  function K(b: nat): C.Key {
    C.Key(ROOTDEV, b)
  }

  /** n: the blocks of the disk.  phase: how far commit has got.  owes: the blocks changed by
      an operation that has not logged them yet.  given and committed: what operations last
      gave to each block, and that at the last commit record. */
  datatype Joint = Joint(area: Area, n: nat, cache: C.Cache, ops: O.State, phase: V.Phase, owes: map<nat, nat>,
                         given: seq<Block>, committed: seq<Block>)

  datatype Act =
    | Use(step: C.Step)                    // bget, acquiresleep, bread or brelse, by anyone
    | Begin(id: nat)                       // begin_op goes on
    | End(id: nat)                         // end_op, up to commit
    | Give(id: nat, i: nat, data: Block)   // an operation changes the block in buffer i
    | Log(id: nat, i: nat)                 // log_write
    | CopyToLog(to: nat, from: nat)        // write_log: memmove
    | FlushLog(to: nat)                    // write_log: bwrite
    | EditHead(h: nat)                     // write_head: the header buffer
    | FlushHead(h: nat)                    // write_head: bwrite
    | CopyHome(lbuf: nat, dbuf: nat)       // install_trans: memmove
    | FlushHome(dbuf: nat)                 // install_trans: bwrite
    | UnpinHome(dbuf: nat)                 // install_trans: bunpin
    | ClearHeader                          // log.lh.n = 0
    | Finish                               // log.committing = 0
    | Crash(stops: seq<nat>)               // a crash, recoveries cut short, and a complete one

  // ---- The log's view of the state ----

  function Blocks(m: map<C.Key, Block>, n: nat): seq<Block> {
    seq(n, b requires 0 <= b < n => if K(b) in m then m[K(b)] else [])
  }

  function ViewOf(s: Joint): V.View {
    V.View(s.area, Blocks(s.cache.w.disk, s.n), Blocks(s.cache.w.last, s.n), s.given, s.committed,
           s.ops.lh, s.phase, s.owes)
  }

  lemma BlocksWrite(m: map<C.Key, Block>, n: nat, b: nat, data: Block)
    requires b < n
    ensures Blocks(m[K(b) := data], n) == Blocks(m, n)[b := data]
  {}

  // ---- What the code may do ----

  /** Buffer i is what bread returned for block b, and is still locked. */
  predicate Held(s: Joint, i: nat, b: nat) {
    && i < |s.cache.bufs| == |s.cache.w.holders|
    && var x := s.cache.bufs[i]; x.locked && x.valid && x.key == K(b) && b < s.n
  }

  function BlockIn(s: Joint, i: nat): nat
    requires i < |s.cache.bufs|
  {
    s.cache.bufs[i].key.blockno
  }

  /** The guards are the tests of the code, and of its callers: an operation changes blocks
      between begin_op and end_op, logs what it changed before it releases the buffer or
      ends, and logs at most MAXOPBLOCKS new blocks; commit keeps the buffer it has changed
      until it has written it. */
  ghost predicate Can(s: Joint, a: Act) {
    match a
    case Use(step) =>
      && |s.cache.w.holders| == |s.cache.bufs| && step.i < |s.cache.bufs|
      && if step.Release? then
           var x := s.cache.bufs[step.i];
           && x.locked && x.refcnt > 0 && s.cache.w.holders[step.i] > 0
           && x.key.blockno !in s.owes && !V.Pending(ViewOf(s), x.key.blockno)
         else
           (step.Hit? || step.Recycle? || step.Acquire? || step.Fill?) && C.Enabled(s.cache.bufs, s.cache.w, step)
    case Begin(id) => O.Enabled(s.ops, O.Begin(id), s.area.size)
    case End(id) => O.Enabled(s.ops, O.End(id), s.area.size) && forall b | b in s.owes :: s.owes[b] != id
    case Give(id, i, data) =>
      id in s.ops.budget && i < |s.cache.bufs| && Held(s, i, BlockIn(s, i)) && Home(s.area, BlockIn(s, i))
    case Log(id, i) =>
      && i < |s.cache.bufs| && Held(s, i, BlockIn(s, i)) && Home(s.area, BlockIn(s, i))
      && O.Enabled(s.ops, O.Write(id, BlockIn(s, i)), s.area.size)
    case CopyToLog(to, from) =>
      && s.phase.Logging? && !s.phase.copied && s.phase.k < |s.ops.lh| && s.ops.lh[s.phase.k] >= 0
      && Held(s, to, V.SlotOf(ViewOf(s), s.phase.k)) && Held(s, from, s.ops.lh[s.phase.k])
    case FlushLog(to) => s.phase.Logging? && s.phase.copied && Held(s, to, V.SlotOf(ViewOf(s), s.phase.k))
    case EditHead(h) =>
      Held(s, h, s.area.start) && (s.phase == V.Logging(|s.ops.lh|, false) || s.phase == V.Erasing(false))
    case FlushHead(h) => Held(s, h, s.area.start) && (s.phase == V.Recording || s.phase == V.Erasing(true))
    case CopyHome(l, d) =>
      && s.phase.Installing? && s.phase.stage == V.Fresh && s.phase.k < |s.ops.lh| && s.ops.lh[s.phase.k] >= 0
      && Held(s, l, V.SlotOf(ViewOf(s), s.phase.k)) && Held(s, d, s.ops.lh[s.phase.k])
    case FlushHome(d) => s.phase.Installing? && s.phase.stage == V.Copied && HeldHome(s, d)
    case UnpinHome(d) => s.phase.Installing? && s.phase.stage == V.Written && HeldHome(s, d)
    case ClearHeader => s.phase == V.Installing(|s.ops.lh|, V.Fresh)
    case Finish => s.phase == V.Done
    case Crash(stops) => true
  }

  predicate HeldHome(s: Joint, d: nat)
    requires s.phase.Installing?
  {
    s.phase.k < |s.ops.lh| && s.ops.lh[s.phase.k] >= 0 && Held(s, d, s.ops.lh[s.phase.k])
  }

  // ---- What it does ----

  /** The step that an act makes in the cache, if any. */
  function InCache(s: Joint, a: Act): seq<C.Step> {
    match a
    case Use(step) => [step]
    case Give(id, i, data) => [C.Modify(i, data)]
    case Log(id, i) => if i < |s.cache.bufs| && BlockIn(s, i) in s.ops.lh then [] else [C.Pin(i)]
    case CopyToLog(to, from) => if from < |s.cache.bufs| then [C.Modify(to, s.cache.bufs[from].data)] else []
    case FlushLog(to) => [C.WriteThrough(to)]
    case EditHead(h) => if h < |s.cache.bufs| then [C.Modify(h, V.Head(s.cache.bufs[h].data, s.ops.lh))] else []
    case FlushHead(h) => [C.WriteThrough(h)]
    case CopyHome(l, d) => if l < |s.cache.bufs| then [C.Modify(d, s.cache.bufs[l].data)] else []
    case FlushHome(d) => [C.WriteThrough(d)]
    case UnpinHome(d) => [C.Unpin(d)]
    case _ => []
  }

  ghost function CacheAfter(s: Joint, a: Act): C.Cache {
    var steps := InCache(s, a);
    if steps != [] && |s.cache.w.holders| == |s.cache.bufs| && steps[0].i < |s.cache.bufs| then
      C.Next(s.cache, steps[0])
    else s.cache
  }

  ghost function DiskMap(d: seq<Block>): (m: map<C.Key, Block>)
    ensures forall k | k in m :: k.dev == ROOTDEV && k.blockno < |d|
    ensures forall b: nat {:trigger K(b)} | b < |d| :: K(b) in m && m[K(b)] == d[b]
  {
    if d == [] then map[] else DiskMap(d[..|d| - 1])[K(|d| - 1) := d[|d| - 1]]
  }

  /** The cache after a reboot: every buffer empty. */
  ghost function EmptyCache(size: nat, d: seq<Block>): C.Cache {
    var m := DiskMap(d);
    C.Cache(seq(size, _ => C.Buf(false, C.Key(0, 0), 0, false, [])), C.World(m, m, {}, seq(size, _ => 0)))
  }

  ghost function OpsAfter(s: Joint, a: Act): O.State
    requires Can(s, a)
  {
    match a
    case Begin(id) => O.Next(s.ops, O.Begin(id))
    case End(id) => O.Next(s.ops, O.End(id))
    case Log(id, i) => O.Next(s.ops, O.Write(id, BlockIn(s, i)))
    case ClearHeader => O.Next(s.ops, O.Clear)
    case Finish => O.Next(s.ops, O.Finish)
    case Crash(stops) => O.START
    case _ => s.ops
  }

  ghost function PhaseAfter(s: Joint, a: Act): V.Phase
    requires Can(s, a)
  {
    match a
    case End(id) =>
      if s.ops.budget - {id} != map[] then s.phase else if s.ops.lh == [] then V.Done else V.Logging(0, false)
    case CopyToLog(to, from) => V.Logging(s.phase.k, true)
    case FlushLog(to) => V.Logging(s.phase.k + 1, false)
    case EditHead(h) => if s.phase.Logging? then V.Recording else V.Erasing(true)
    case FlushHead(h) => if s.phase.Recording? then V.Installing(0, V.Fresh) else V.Done
    case CopyHome(l, d) => V.Installing(s.phase.k, V.Copied)
    case FlushHome(d) => V.Installing(s.phase.k, V.Written)
    case UnpinHome(d) => V.Installing(s.phase.k + 1, V.Fresh)
    case ClearHeader => V.Erasing(false)
    case Finish => V.Idle
    case Crash(stops) => V.Idle
    case _ => s.phase
  }

  ghost function OwesAfter(s: Joint, a: Act): map<nat, nat>
    requires Can(s, a)
  {
    match a
    case Give(id, i, data) =>
      var b := BlockIn(s, i);
      if b in s.ops.lh || data == ViewOf(s).disk[b] then s.owes - {b} else s.owes[b := id]
    case Log(id, i) => s.owes - {BlockIn(s, i)}
    case Crash(stops) => map[]
    case _ => s.owes
  }

  ghost function DiskAfterCrash(s: Joint, stops: seq<nat>): seq<Block> {
    var d := ViewOf(s).disk;
    if Formatted(s.area, d) then Recovered(s.area, d, stops) else d
  }

  ghost function Next(s: Joint, a: Act): Joint
    requires Can(s, a)
  {
    Joint(s.area, s.n,
          if a.Crash? then EmptyCache(|s.cache.bufs|, DiskAfterCrash(s, a.stops)) else CacheAfter(s, a),
          OpsAfter(s, a), PhaseAfter(s, a), OwesAfter(s, a),
          if a.Crash? then s.committed
          else if a.Give? && BlockIn(s, a.i) < |s.given| then s.given[BlockIn(s, a.i) := a.data] else s.given,
          if a.FlushHead? && s.phase.Recording? then s.given else s.committed)
  }

  // ---- The invariant ----

  /** Block b is pinned exactly while it is logged and not yet installed. */
  ghost predicate PinOk(s: Joint, b: nat) {
    K(b) in s.cache.w.pinned <==> Unpinned(s.phase) <= Slot(s.ops.lh, b) < |s.ops.lh|
  }

  function Unpinned(p: V.Phase): nat {
    if p.Installing? then p.k else 0
  }

  /** The cache is about the n blocks of one disk. */
  ghost predicate DomainOk(s: Joint) {
    && (forall b: nat | b < s.n :: K(b) in s.cache.w.disk)
    && (forall k | k in s.cache.w.disk :: k.dev == ROOTDEV && k.blockno < s.n)
  }

  ghost predicate Inv(s: Joint) {
    && C.Inv(s.cache.bufs, s.cache.w) && DomainOk(s)
    && O.Inv(s.ops, s.area.size)
    && V.Inv(ViewOf(s))
    && (s.phase == V.Idle <==> !s.ops.committing)
    && (forall b: nat {:trigger PinOk(s, b)} | b < s.n :: PinOk(s, b))
    && OwnersActive(s)
  }

  /** Buffer i holds what was last put into a buffer of block b. */
  ghost predicate HoldsLast(s: Joint, i: nat, b: int) {
    i < |s.cache.bufs| && 0 <= b < s.n && s.cache.bufs[i].data == ViewOf(s).last[b]
  }

  /** So does every buffer in hand. */
  lemma HeldData(s: Joint, i: nat, b: nat)
    requires Inv(s) && Held(s, i, b)
    ensures HoldsLast(s, i, b) && K(b) in s.cache.w.disk && K(b) in s.cache.w.last
  {
    assert C.BufOk(s.cache.bufs[i], s.cache.w, s.cache.w.holders[i]);
  }

  // ---- The cache allows every act ----

  /** brelse: a buffer that no operation owes to the log and commit does not still hold is
      clean, or pinned. */
  lemma ReleaseAllowed(s: Joint, i: nat)
    requires Inv(s) && Can(s, Use(C.Release(i)))
    ensures C.Enabled(s.cache.bufs, s.cache.w, C.Release(i))
  {
    var x := s.cache.bufs[i];
    assert C.BufOk(x, s.cache.w, s.cache.w.holders[i]);
    if x.valid && x.key in s.cache.w.disk {
      var b := x.key.blockno;
      assert x.key == K(b) && V.BlockOk(ViewOf(s), b) && PinOk(s, b);
    }
  }

  /** bpin: a block that is not in the log is not pinned. */
  lemma PinAllowed(s: Joint, id: nat, i: nat)
    requires Inv(s) && Can(s, Log(id, i)) && BlockIn(s, i) !in s.ops.lh
    ensures C.Enabled(s.cache.bufs, s.cache.w, C.Pin(i))
  {
    assert PinOk(s, BlockIn(s, i));
  }

  /** bunpin: the block is pinned, and the disk has its contents. */
  lemma UnpinAllowed(s: Joint, d: nat)
    requires Inv(s) && Can(s, UnpinHome(d))
    ensures C.Enabled(s.cache.bufs, s.cache.w, C.Unpin(d))
  {
    var b := s.ops.lh[s.phase.k];
    HeldData(s, d, b);
    SlotIs(s.area, s.n, s.ops.lh, s.phase.k);
    assert V.BlockOk(ViewOf(s), b) && PinOk(s, b);
    assert C.BufOk(s.cache.bufs[d], s.cache.w, s.cache.w.holders[d]);
  }

  lemma CacheAllows(s: Joint, a: Act)
    requires Inv(s) && Can(s, a) && InCache(s, a) != []
    ensures InCache(s, a)[0].i < |s.cache.bufs| == |s.cache.w.holders|
    ensures C.Enabled(s.cache.bufs, s.cache.w, InCache(s, a)[0])
  {
    match a
    case Use(step) =>
      if step.Release? {
        ReleaseAllowed(s, step.i);
      }
    case Log(id, i) => PinAllowed(s, id, i);
    case UnpinHome(d) => UnpinAllowed(s, d);
    case _ =>
  }

  lemma KeysKept(bufs: seq<C.Buf>, w: C.World, step: C.Step)
    requires C.Inv(bufs, w) && C.Enabled(bufs, w, step)
    ensures C.NextWorld(bufs[step.i], w, step).disk.Keys == w.disk.Keys
  {
    assert C.BufOk(bufs[step.i], w, w.holders[step.i]);
  }

  lemma CacheKept(s: Joint, a: Act)
    requires Inv(s) && Can(s, a)
    ensures C.Inv(CacheAfter(s, a).bufs, CacheAfter(s, a).w)
    ensures CacheAfter(s, a).w.disk.Keys == s.cache.w.disk.Keys
  {
    if InCache(s, a) != [] {
      CacheAllows(s, a);
      C.StepKeepsInv(s.cache.bufs, s.cache.w, InCache(s, a)[0]);
      KeysKept(s.cache.bufs, s.cache.w, InCache(s, a)[0]);
    }
  }

  // ---- The log sees its own transitions ----

  /** What an act changes in the world of the cache. */
  ghost predicate WorldIs(s: Joint, a: Act, disk: map<C.Key, Block>, last: map<C.Key, Block>, pinned: set<C.Key>) {
    var w := CacheAfter(s, a).w;
    w.disk == disk && w.last == last && w.pinned == pinned
  }

  lemma QuietWorld(s: Joint, a: Act)
    requires InCache(s, a) == [] || (Can(s, a) && a.Use?)
    ensures WorldIs(s, a, s.cache.w.disk, s.cache.w.last, s.cache.w.pinned)
  {}

  lemma ModifyWorld(s: Joint, a: Act, i: nat, b: nat, data: Block)
    requires InCache(s, a) == [C.Modify(i, data)] && Held(s, i, b)
    ensures WorldIs(s, a, s.cache.w.disk, s.cache.w.last[K(b) := data], s.cache.w.pinned)
  {}

  lemma WriteWorld(s: Joint, a: Act, i: nat, b: nat)
    requires InCache(s, a) == [C.WriteThrough(i)] && Held(s, i, b)
    ensures WorldIs(s, a, s.cache.w.disk[K(b) := s.cache.bufs[i].data], s.cache.w.last, s.cache.w.pinned)
  {}

  /** Operations change blocks and log them outside commit only. */
  lemma OpsAreOutside(s: Joint, id: nat)
    requires Inv(s) && id in s.ops.budget
    ensures s.phase == V.Idle
  {}

  lemma GiveSeen(s: Joint, id: nat, i: nat, data: Block)
    requires V.Inv(ViewOf(s)) && s.phase == V.Idle && Can(s, Give(id, i, data))
    ensures V.Inv(ViewOf(Next(s, Give(id, i, data))))
  {
    var b := BlockIn(s, i);
    ModifyWorld(s, Give(id, i, data), i, b, data);
    BlocksWrite(s.cache.w.last, s.n, b, data);
    assert ViewOf(Next(s, Give(id, i, data))) == V.Give(ViewOf(s), id, b, data);
    V.GiveKeepsInv(ViewOf(s), id, b, data);
  }

  lemma LogSeen(s: Joint, id: nat, i: nat)
    requires V.Inv(ViewOf(s)) && s.phase == V.Idle && Can(s, Log(id, i))
    ensures V.Inv(ViewOf(Next(s, Log(id, i))))
  {
    assert ViewOf(Next(s, Log(id, i))) == V.Log(ViewOf(s), BlockIn(s, i));
    V.LogKeepsInv(ViewOf(s), BlockIn(s, i));
  }

  lemma CopyToLogSeen(s: Joint, to: nat, from: nat)
    requires V.Inv(ViewOf(s)) && Can(s, CopyToLog(to, from)) && HoldsLast(s, from, s.ops.lh[s.phase.k])
    ensures V.Inv(ViewOf(Next(s, CopyToLog(to, from))))
  {
    var slot := V.SlotOf(ViewOf(s), s.phase.k);
    ModifyWorld(s, CopyToLog(to, from), to, slot, s.cache.bufs[from].data);
    BlocksWrite(s.cache.w.last, s.n, slot, s.cache.bufs[from].data);
    assert ViewOf(Next(s, CopyToLog(to, from))) == V.CopyToLog(ViewOf(s));
    V.CopyToLogKeepsInv(ViewOf(s));
  }

  lemma FlushLogSeen(s: Joint, to: nat)
    requires V.Inv(ViewOf(s)) && Can(s, FlushLog(to)) && HoldsLast(s, to, V.SlotOf(ViewOf(s), s.phase.k))
    ensures V.Inv(ViewOf(Next(s, FlushLog(to))))
  {
    var slot := V.SlotOf(ViewOf(s), s.phase.k);
    WriteWorld(s, FlushLog(to), to, slot);
    BlocksWrite(s.cache.w.disk, s.n, slot, s.cache.bufs[to].data);
    assert ViewOf(Next(s, FlushLog(to))) == V.FlushLog(ViewOf(s));
    V.FlushLogKeepsInv(ViewOf(s));
  }

  lemma EditHeadSeen(s: Joint, h: nat)
    requires V.Inv(ViewOf(s)) && Can(s, EditHead(h)) && HoldsLast(s, h, s.area.start)
    ensures V.Inv(ViewOf(Next(s, EditHead(h))))
  {
    var data := V.Head(s.cache.bufs[h].data, s.ops.lh);
    ModifyWorld(s, EditHead(h), h, s.area.start, data);
    BlocksWrite(s.cache.w.last, s.n, s.area.start, data);
    assert ViewOf(Next(s, EditHead(h))) == V.EditHead(ViewOf(s));
    V.EditHeadKeepsInv(ViewOf(s));
  }

  lemma FlushHeadSeen(s: Joint, h: nat)
    requires V.Inv(ViewOf(s)) && Can(s, FlushHead(h)) && HoldsLast(s, h, s.area.start)
    ensures V.Inv(ViewOf(Next(s, FlushHead(h))))
  {
    WriteWorld(s, FlushHead(h), h, s.area.start);
    BlocksWrite(s.cache.w.disk, s.n, s.area.start, s.cache.bufs[h].data);
    assert ViewOf(Next(s, FlushHead(h))) == V.FlushHead(ViewOf(s));
    V.FlushHeadKeepsInv(ViewOf(s));
  }

  lemma CopyHomeSeen(s: Joint, l: nat, d: nat)
    requires V.Inv(ViewOf(s)) && Can(s, CopyHome(l, d)) && HoldsLast(s, l, V.SlotOf(ViewOf(s), s.phase.k))
    ensures V.Inv(ViewOf(Next(s, CopyHome(l, d))))
  {
    var b := s.ops.lh[s.phase.k];
    ModifyWorld(s, CopyHome(l, d), d, b, s.cache.bufs[l].data);
    BlocksWrite(s.cache.w.last, s.n, b, s.cache.bufs[l].data);
    assert ViewOf(Next(s, CopyHome(l, d))) == V.CopyHome(ViewOf(s));
    V.CopyHomeKeepsInv(ViewOf(s));
  }

  lemma FlushHomeSeen(s: Joint, d: nat)
    requires V.Inv(ViewOf(s)) && Can(s, FlushHome(d)) && HoldsLast(s, d, s.ops.lh[s.phase.k])
    ensures V.Inv(ViewOf(Next(s, FlushHome(d))))
  {
    var b := s.ops.lh[s.phase.k];
    WriteWorld(s, FlushHome(d), d, b);
    BlocksWrite(s.cache.w.disk, s.n, b, s.cache.bufs[d].data);
    assert ViewOf(Next(s, FlushHome(d))) == V.FlushHome(ViewOf(s));
    V.FlushHomeKeepsInv(ViewOf(s));
  }

  ghost predicate OwnersActive(s: Joint) {
    forall b | b in s.owes :: s.owes[b] in s.ops.budget
  }

  /** While a changed block is not logged, some other operation is still under way. */
  lemma SomeoneOwes(s: Joint, id: nat)
    requires OwnersActive(s) && Can(s, End(id))
    ensures s.owes != map[] ==> s.ops.budget - {id} != map[]
  {
    if s.owes != map[] {
      var b :| b in s.owes;
      assert s.owes[b] in s.ops.budget - {id};
    }
  }

  lemma EndSeen(s: Joint, id: nat)
    requires V.Inv(ViewOf(s)) && s.phase == V.Idle && OwnersActive(s) && Can(s, End(id))
    ensures V.Inv(ViewOf(Next(s, End(id))))
  {
    SomeoneOwes(s, id);
    if s.ops.budget - {id} == map[] {
      assert ViewOf(Next(s, End(id))) == V.Commit(ViewOf(s));
      V.CommitKeepsInv(ViewOf(s));
    } else {
      assert ViewOf(Next(s, End(id))) == ViewOf(s);
    }
  }

  lemma EmptyBlocks(d: seq<Block>)
    ensures Blocks(DiskMap(d), |d|) == d
  {}

  lemma CrashSeen(s: Joint, stops: seq<nat>)
    requires V.Inv(ViewOf(s))
    ensures ViewOf(Next(s, Crash(stops))) == V.Crash(ViewOf(s), stops)
    ensures V.Inv(ViewOf(Next(s, Crash(stops))))
  {
    var d := ViewOf(s).disk;
    RecoveredHead(s.area, d, stops);
    EmptyBlocks(Recovered(s.area, d, stops));
    V.CrashKeepsInv(ViewOf(s), stops);
  }

  lemma UseSeen(s: Joint, a: Act)
    requires Can(s, a) && (a.Use? || a.Begin?)
    ensures ViewOf(Next(s, a)) == ViewOf(s)
  {
    QuietWorld(s, a);
  }

  lemma UnpinSeen(s: Joint, d: nat)
    requires V.Inv(ViewOf(s)) && Can(s, UnpinHome(d))
    ensures V.Inv(ViewOf(Next(s, UnpinHome(d))))
  {
    assert ViewOf(Next(s, UnpinHome(d))) == V.Unpin(ViewOf(s));
    V.UnpinKeepsInv(ViewOf(s));
  }

  lemma ClearSeen(s: Joint)
    requires V.Inv(ViewOf(s)) && Can(s, ClearHeader)
    ensures V.Inv(ViewOf(Next(s, ClearHeader)))
  {
    assert ViewOf(Next(s, ClearHeader)) == V.Clear(ViewOf(s));
    V.ClearKeepsInv(ViewOf(s));
  }

  lemma FinishSeen(s: Joint)
    requires V.Inv(ViewOf(s)) && Can(s, Finish)
    ensures V.Inv(ViewOf(Next(s, Finish)))
  {
    assert ViewOf(Next(s, Finish)) == V.Finish(ViewOf(s));
    V.FinishKeepsInv(ViewOf(s));
  }

  lemma OperationsSeen(s: Joint, a: Act)
    requires Inv(s) && Can(s, a) && (a.End? || a.Give? || a.Log?)
    ensures V.Inv(ViewOf(Next(s, a)))
  {
    OpsAreOutside(s, a.id);
    match a
    case End(id) => EndSeen(s, id);
    case Give(id, i, data) => GiveSeen(s, id, i, data);
    case Log(id, i) => LogSeen(s, id, i);
  }

  lemma RecordSeen(s: Joint, a: Act)
    requires Inv(s) && Can(s, a) && (a.CopyToLog? || a.FlushLog? || a.EditHead? || a.FlushHead?)
    ensures V.Inv(ViewOf(Next(s, a)))
  {
    match a
    case CopyToLog(to, from) =>
      HeldData(s, from, s.ops.lh[s.phase.k]);
      CopyToLogSeen(s, to, from);
    case FlushLog(to) =>
      HeldData(s, to, V.SlotOf(ViewOf(s), s.phase.k));
      FlushLogSeen(s, to);
    case EditHead(h) =>
      HeldData(s, h, s.area.start);
      EditHeadSeen(s, h);
    case FlushHead(h) =>
      HeldData(s, h, s.area.start);
      FlushHeadSeen(s, h);
  }

  lemma InstallSeen(s: Joint, a: Act)
    requires Inv(s) && Can(s, a) && (a.CopyHome? || a.FlushHome? || a.UnpinHome? || a.ClearHeader? || a.Finish?)
    ensures V.Inv(ViewOf(Next(s, a)))
  {
    match a
    case CopyHome(l, d) =>
      HeldData(s, l, V.SlotOf(ViewOf(s), s.phase.k));
      CopyHomeSeen(s, l, d);
    case FlushHome(d) =>
      HeldData(s, d, s.ops.lh[s.phase.k]);
      FlushHomeSeen(s, d);
    case UnpinHome(d) => UnpinSeen(s, d);
    case ClearHeader => ClearSeen(s);
    case Finish => FinishSeen(s);
  }

  lemma ViewKept(s: Joint, a: Act)
    requires Inv(s) && Can(s, a) && !a.Crash?
    ensures V.Inv(ViewOf(Next(s, a)))
  {
    if a.Use? || a.Begin? {
      UseSeen(s, a);
    } else if a.End? || a.Give? || a.Log? {
      OperationsSeen(s, a);
    } else if a.CopyToLog? || a.FlushLog? || a.EditHead? || a.FlushHead? {
      RecordSeen(s, a);
    } else {
      InstallSeen(s, a);
    }
  }

  // ---- Every act keeps the invariant ----

  lemma OpsKept(s: Joint, a: Act)
    requires O.Inv(s.ops, s.area.size) && (s.phase == V.Idle <==> !s.ops.committing) && Can(s, a)
    requires s.phase == V.Done ==> s.ops.lh == []
    ensures O.Inv(OpsAfter(s, a), s.area.size) && (PhaseAfter(s, a) == V.Idle <==> !OpsAfter(s, a).committing)
  {
    match a
    case Begin(id) => O.StepKeepsInv(s.ops, O.Begin(id), s.area.size);
    case End(id) => O.StepKeepsInv(s.ops, O.End(id), s.area.size);
    case Log(id, i) => O.StepKeepsInv(s.ops, O.Write(id, BlockIn(s, i)), s.area.size);
    case ClearHeader => O.StepKeepsInv(s.ops, O.Clear, s.area.size);
    case Finish => O.StepKeepsInv(s.ops, O.Finish, s.area.size);
    case _ =>
  }

  lemma PinsAfterLog(s: Joint, id: nat, i: nat, b: nat)
    requires Can(s, Log(id, i)) && PinOk(s, b) && s.phase == V.Idle
    ensures PinOk(Next(s, Log(id, i)), b)
  {
    V.SlotAppend(s.ops.lh, BlockIn(s, i), b);
  }

  lemma PinsAfterUnpin(s: Joint, d: nat, b: nat)
    requires Can(s, UnpinHome(d)) && PinOk(s, b) && LoggedOk(s.area, s.n, s.ops.lh)
    ensures PinOk(Next(s, UnpinHome(d)), b)
  {
    SlotIs(s.area, s.n, s.ops.lh, s.phase.k);
  }

  /** Other acts change neither the pins nor the logged blocks still to be installed. */
  lemma SamePins(s: Joint, a: Act)
    requires Can(s, a) && !a.Log? && !a.UnpinHome?
    ensures CacheAfter(s, a).w.pinned == s.cache.w.pinned
  {}

  lemma SameLogged(s: Joint, a: Act)
    requires Can(s, a) && (a.End? ==> s.phase == V.Idle) && !a.Log? && !a.UnpinHome? && !a.Crash?
    ensures if a.ClearHeader? then OpsAfter(s, a).lh == []
            else OpsAfter(s, a).lh == s.ops.lh && Unpinned(PhaseAfter(s, a)) == Unpinned(s.phase)
  {}

  lemma PinsKept(s: Joint, a: Act, b: nat)
    requires Inv(s) && Can(s, a) && !a.Crash? && b < s.n
    ensures PinOk(Next(s, a), b)
  {
    assert PinOk(s, b);
    if a.Log? {
      PinsAfterLog(s, a.id, a.i, b);
    } else if a.UnpinHome? {
      PinsAfterUnpin(s, a.dbuf, b);
    } else {
      SamePins(s, a);
      SameLogged(s, a);
    }
  }

  lemma OwesKept(s: Joint, a: Act, b: nat)
    requires Can(s, a) && b in OwesAfter(s, a) && OwnersActive(s)
    ensures OwesAfter(s, a)[b] in OpsAfter(s, a).budget
  {}

  lemma EmptyCacheOk(size: nat, d: seq<Block>)
    ensures C.Inv(EmptyCache(size, d).bufs, EmptyCache(size, d).w)
  {
    forall i | 0 <= i < size ensures C.BufOk(EmptyCache(size, d).bufs[i], EmptyCache(size, d).w, 0) {}
  }

  /** After a reboot only the log's view of the disk matters. */
  lemma RebootInv(s: Joint, size: nat, d: seq<Block>)
    requires s.cache == EmptyCache(size, d) && |d| == s.n && s.ops == O.START && s.phase == V.Idle && s.owes == map[]
    requires V.Inv(ViewOf(s))
    ensures Inv(s)
  {
    EmptyCacheOk(size, d);
  }

  lemma CrashKept(s: Joint, stops: seq<nat>)
    requires V.Inv(ViewOf(s))
    ensures Inv(Next(s, Crash(stops)))
  {
    var d := ViewOf(s).disk;
    CrashSeen(s, stops);
    RecoveredHead(s.area, d, stops);
    RebootInv(Next(s, Crash(stops)), |s.cache.bufs|, Recovered(s.area, d, stops));
  }

  /** Every act keeps the invariant. */
  lemma StepKeepsInv(s: Joint, a: Act)
    requires Inv(s) && Can(s, a)
    ensures Inv(Next(s, a))
  {
    if a.Crash? {
      CrashKept(s, a.stops);
    } else {
      var t := Next(s, a);
      CacheKept(s, a);
      OpsKept(s, a);
      ViewKept(s, a);
      forall b: nat | b < t.n ensures PinOk(t, b) {
        PinsKept(s, a, b);
      }
      forall b | b in t.owes ensures t.owes[b] in t.ops.budget {
        OwesKept(s, a, b);
      }
    }
  }

  // ---- Whole runs ----

  /** A booted system on a formatted disk with an empty log. */
  ghost predicate Booted(s: Joint) {
    && Formatted(s.area, s.given) && ReadHead(s.given[s.area.start]) == []
    && s == Joint(s.area, |s.given|, EmptyCache(|s.cache.bufs|, s.given), O.START, V.Idle, map[], s.given, s.given)
  }

  ghost predicate IsRun(ss: seq<Joint>, acts: seq<Act>) {
    && |ss| == |acts| + 1 && Booted(ss[0])
    && forall i: nat {:trigger Follows(ss, acts, i)} | i < |acts| :: Follows(ss, acts, i)
  }

  ghost predicate Follows(ss: seq<Joint>, acts: seq<Act>, i: nat)
    requires i < |acts| < |ss|
  {
    Can(ss[i], acts[i]) && ss[i + 1] == Next(ss[i], acts[i])
  }

  /** The commit record is written by act i. */
  ghost predicate Records(ss: seq<Joint>, acts: seq<Act>, i: nat)
    requires i < |acts| < |ss|
  {
    acts[i].FlushHead? && ss[i].phase == V.Recording
  }

  /** What operations last gave to block b in the first n acts; a crash takes back what no
      commit record stands for. */
  ghost function Given(ss: seq<Joint>, acts: seq<Act>, b: nat, n: nat): Block
    requires IsRun(ss, acts) && n <= |acts| && b < |ss[0].given|
  {
    if n == 0 then ss[0].given[b]
    else if acts[n - 1].Crash? then AtRecord(ss, acts, b, n - 1)
    else if acts[n - 1].Give? && acts[n - 1].i < |ss[n - 1].cache.bufs| && BlockIn(ss[n - 1], acts[n - 1].i) == b then
      acts[n - 1].data
    else Given(ss, acts, b, n - 1)
  }

  /** What block b held for the operations when the last of the commit records in the first n
      acts was written. */
  ghost function AtRecord(ss: seq<Joint>, acts: seq<Act>, b: nat, n: nat): Block
    requires IsRun(ss, acts) && n <= |acts| && b < |ss[0].given|
  {
    if n == 0 then ss[0].given[b]
    else if Records(ss, acts, n - 1) then Given(ss, acts, b, n - 1)
    else AtRecord(ss, acts, b, n - 1)
  }

  lemma BootedInv(s: Joint)
    requires Booted(s)
    ensures Inv(s)
  {
    EmptyBlocks(s.given);
    forall b: nat | b < s.n ensures V.BlockOk(ViewOf(s), b) {}
    RebootInv(s, |s.cache.bufs|, s.given);
  }

  lemma RunStep(ss: seq<Joint>, acts: seq<Act>, n: nat)
    requires n < |acts| < |ss| && Follows(ss, acts, n) && Inv(ss[n])
    ensures Inv(ss[n + 1]) && ss[n + 1].area == ss[n].area && ss[n + 1].n == ss[n].n
  {
    StepKeepsInv(ss[n], acts[n]);
  }

  lemma {:induction false} InvFrom(ss: seq<Joint>, acts: seq<Act>, n: nat)
    requires |ss| == |acts| + 1 && n <= |acts| && Inv(ss[0])
    requires forall i: nat {:trigger Follows(ss, acts, i)} | i < |acts| :: Follows(ss, acts, i)
    ensures Inv(ss[n]) && ss[n].area == ss[0].area && ss[n].n == ss[0].n
  {
    if n > 0 {
      InvFrom(ss, acts, n - 1);
      RunStep(ss, acts, n - 1);
    }
  }

  lemma RunKeepsInv(ss: seq<Joint>, acts: seq<Act>, n: nat)
    requires IsRun(ss, acts) && n <= |acts|
    ensures Inv(ss[n]) && ss[n].area == ss[0].area && ss[n].n == ss[0].n == |ss[0].given|
  {
    BootedInv(ss[0]);
    InvFrom(ss, acts, n);
  }

  /** What a step does to the two block maps. */
  lemma MapsStep(s: Joint, a: Act, b: nat)
    requires Can(s, a) && b < s.n == |s.given| == |s.committed|
    ensures |Next(s, a).given| == |Next(s, a).committed| == s.n
    ensures Next(s, a).given[b] ==
            if a.Crash? then s.committed[b] else if a.Give? && BlockIn(s, a.i) == b then a.data else s.given[b]
    ensures Next(s, a).committed[b] == if a.FlushHead? && s.phase == V.Recording then s.given[b] else s.committed[b]
  {}

  lemma {:induction false} RunMaps(ss: seq<Joint>, acts: seq<Act>, n: nat, b: nat)
    requires IsRun(ss, acts) && n <= |acts| && b < |ss[0].given|
    ensures ss[n].n == |ss[n].given| == |ss[n].committed| == |ss[0].given|
    ensures ss[n].given[b] == Given(ss, acts, b, n) && ss[n].committed[b] == AtRecord(ss, acts, b, n)
  {
    if n > 0 {
      RunMaps(ss, acts, n - 1, b);
      assert Follows(ss, acts, n - 1);
      MapsStep(ss[n - 1], acts[n - 1], b);
    }
  }

  /** A buffer in hand for a home block holds what operations last gave to it. */
  lemma HeldIsGiven(s: Joint, i: nat, b: nat)
    requires Inv(s) && Held(s, i, b) && Home(s.area, b)
    ensures b < |s.given| && s.cache.bufs[i].data == s.given[b]
    ensures forall j | 0 <= j < |s.cache.bufs| && j != i :: s.cache.bufs[j].key != K(b)
  {
    HeldData(s, i, b);
    assert V.BlockOk(ViewOf(s), b);
  }

  lemma FilledIsHeld(s: Joint, i: nat, b: nat)
    requires Inv(s) && Can(s, Use(C.Fill(i))) && s.cache.bufs[i].key == K(b)
    ensures Held(Next(s, Use(C.Fill(i))), i, b)
  {}

  /** Cache and log refine a plain block map: whatever the interleaving of readers,
      operations, commits and crashes, bread of a block outside the log returns what an
      operation last gave to it, in the only buffer for that block. */
  lemma BreadReturnsGiven(ss: seq<Joint>, acts: seq<Act>, n: nat, i: nat, b: nat)
    requires IsRun(ss, acts) && n < |acts| && acts[n] == Use(C.Fill(i))
    requires i < |ss[n].cache.bufs| && ss[n].cache.bufs[i].key == K(b) && Home(ss[0].area, b)
    ensures b < |ss[0].given|
    ensures var bufs := ss[n + 1].cache.bufs;
            && i < |bufs| && bufs[i].valid && bufs[i].key == K(b) && bufs[i].data == Given(ss, acts, b, n + 1)
            && forall j | 0 <= j < |bufs| && j != i :: bufs[j].key != K(b)
  {
    RunKeepsInv(ss, acts, n);
    RunKeepsInv(ss, acts, n + 1);
    assert Follows(ss, acts, n);
    FilledIsHeld(ss[n], i, b);
    HeldIsGiven(ss[n + 1], i, b);
    RunMaps(ss, acts, n + 1, b);
  }

  /** In every reachable state, across any number of transactions and crashes, the disk
      stands for the block map at the last commit record, and any crash there, however many
      recoveries are cut short, leaves that map. */
  lemma DiskIsLastRecord(ss: seq<Joint>, acts: seq<Act>, n: nat, b: nat, stops: seq<nat>)
    requires IsRun(ss, acts) && n <= |acts| && b < |ss[0].given| && Home(ss[0].area, b)
    ensures var d := ViewOf(ss[n]).disk;
            && Formatted(ss[0].area, d) && b < |d|
            && Logical(ss[0].area, d, b) == AtRecord(ss, acts, b, n)
            && |Recovered(ss[0].area, d, stops)| == |d|
            && Recovered(ss[0].area, d, stops)[b] == AtRecord(ss, acts, b, n)
  {
    RunKeepsInv(ss, acts, n);
    RunMaps(ss, acts, n, b);
    var v := ViewOf(ss[n]);
    V.LogicalIsCommitted(v, b);
    RecoveredHead(v.area, v.disk, stops);
    RecoveredAt(v.area, v.disk, stops, b);
  }

  /** A commit record stands for whole operations: none is under way when it is written. */
  lemma RecordBetweenOperations(ss: seq<Joint>, acts: seq<Act>, n: nat)
    requires IsRun(ss, acts) && n < |acts| && Records(ss, acts, n)
    ensures ss[n].ops.budget == map[] && ss[n].owes == map[]
  {
    RunKeepsInv(ss, acts, n);
  }

  /** When commit returns, everything given by the operations that ended is on record. */
  lemma CommitIsDurable(ss: seq<Joint>, acts: seq<Act>, n: nat, b: nat)
    requires IsRun(ss, acts) && n < |acts| && acts[n] == Finish && b < |ss[0].given| && Home(ss[0].area, b)
    ensures AtRecord(ss, acts, b, n) == Given(ss, acts, b, n)
  {
    RunKeepsInv(ss, acts, n);
    RunMaps(ss, acts, n, b);
    assert Follows(ss, acts, n);
    assert V.BlockOk(ViewOf(ss[n]), b);
  }

  /** The pinned blocks are the logged ones that are not yet installed. */
  lemma PinnedAreLogged(ss: seq<Joint>, acts: seq<Act>, n: nat, b: nat)
    requires IsRun(ss, acts) && n <= |acts| && b < |ss[0].given|
    ensures K(b) in ss[n].cache.w.pinned <==> b in ss[n].ops.lh && Slot(ss[n].ops.lh, b) >= Unpinned(ss[n].phase)
  {
    RunKeepsInv(ss, acts, n);
    assert PinOk(ss[n], b);
  }

  /** install_trans copies onto every home block the bytes its buffer already has. */
  lemma CopyHomeChangesNothing(ss: seq<Joint>, acts: seq<Act>, n: nat)
    requires IsRun(ss, acts) && n < |acts| && acts[n].CopyHome?
    ensures ss[n + 1].cache == ss[n].cache
  {
    RunKeepsInv(ss, acts, n);
    assert Follows(ss, acts, n);
    var s, l, d := ss[n], acts[n].lbuf, acts[n].dbuf;
    CopyHomeSame(s, l, d);
  }

  lemma CopyHomeSame(s: Joint, l: nat, d: nat)
    requires Inv(s) && Can(s, CopyHome(l, d))
    ensures Next(s, CopyHome(l, d)).cache == s.cache
  {
    var slot, b := V.SlotOf(ViewOf(s), s.phase.k), s.ops.lh[s.phase.k];
    HeldData(s, l, slot);
    HeldData(s, d, b);
    V.CopyHomeChangesNothing(ViewOf(s));
    assert s.cache.bufs[l].data == s.cache.bufs[d].data;
  }

  /** bunpin comes only once the disk has the block's last contents, and brelse never gives
      up contents that are neither on disk nor pinned. */
  lemma UnpinAndReleaseAreSafe(ss: seq<Joint>, acts: seq<Act>, n: nat)
    requires IsRun(ss, acts) && n < |acts| && InCache(ss[n], acts[n]) != []
    ensures InCache(ss[n], acts[n])[0].i < |ss[n].cache.bufs| == |ss[n].cache.w.holders|
    ensures C.Enabled(ss[n].cache.bufs, ss[n].cache.w, InCache(ss[n], acts[n])[0])
  {
    RunKeepsInv(ss, acts, n);
    assert Follows(ss, acts, n);
    CacheAllows(ss[n], acts[n]);
  }
}
