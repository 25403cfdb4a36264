/** The log over a cached disk, block by block: what is on disk, what the cache holds, what
    operations gave and what the last commit record stands for, through any number of
    transactions and crashes. */
module LogView {
  import opened LogDisk

  datatype Stage = Fresh | Copied | Written

  /** How far commit has got. */
  datatype Phase =
    | Idle                               // no commit
    | Logging(k: nat, copied: bool)      // write_log, at block k of the log
    | Recording                          // write_head has filled the header buffer
    | Installing(k: nat, stage: Stage)   // install_trans, at block k of the log
    | Erasing(edited: bool)              // the second write_head
    | Done                               // commit has returned

  /** disk: the blocks on disk.  last: the contents last put into a buffer of each block.
      given: what an operation last gave to each block.  committed: that, at the last commit
      record.  owes: the blocks changed by an operation that has not logged them yet. */
  datatype View = View(area: Area, disk: seq<Block>, last: seq<Block>, given: seq<Block>, committed: seq<Block>,
                       lh: seq<int>, phase: Phase, owes: map<nat, nat>)

  function SlotOf(v: View, i: nat): nat {
    v.area.start + 1 + i
  }

  /** write_head's change to the header buffer. */
  function Head(b: Block, lh: seq<int>): Block {
    if |b| > LOGSIZE && |lh| <= LOGSIZE then PutHead(b, lh) else b
  }

  /** The block that commit has changed in its buffer and not written yet. */
  predicate Pending(v: View, b: nat) {
    match v.phase
    case Logging(k, copied) => copied && b == SlotOf(v, k)
    case Recording => b == v.area.start
    case Erasing(edited) => edited && b == v.area.start
    case _ => false
  }

  /** The logged blocks before this one are in place. */
  function InPlace(p: Phase): nat {
    match p
    case Installing(k, stage) => if stage == Written then k + 1 else k
    case _ => 0
  }

  predicate AfterRecord(p: Phase) {
    p.Installing? || p.Erasing?
  }

  // ---- The invariant ----

  ghost predicate BlockOk(v: View, b: nat)
    requires b < |v.disk| == |v.last| == |v.given| == |v.committed|
  {
    && (Home(v.area, b) ==> v.last[b] == v.given[b])
    && (!Home(v.area, b) && !Pending(v, b) ==> v.last[b] == v.disk[b])
    && (Home(v.area, b) ==> v.committed[b] == if AfterRecord(v.phase) then v.given[b] else v.disk[b])
    && (Home(v.area, b) && v.disk[b] != v.given[b] ==>
          InPlace(v.phase) <= Slot(v.lh, b) < |v.lh| || (v.phase == Idle && b in v.owes))
  }

  /** The log copy of the i-th block of a list is what operations last gave to that block. */
  ghost predicate CopyOk(v: View, list: seq<int>, i: nat)
    requires i < |list| && 0 <= list[i] < |v.given| && SlotOf(v, i) < |v.disk|
  {
    v.disk[SlotOf(v, i)] == v.given[list[i]]
  }

  ghost predicate CopiesOk(v: View, list: seq<int>, n: nat) {
    && n <= |list| <= Capacity(v.area.size) && v.area.size > 0 && v.area.start + v.area.size <= |v.disk| == |v.given|
    && (forall i: nat {:trigger LoggedAt(v.area, |v.disk|, list, i)} | i < |list| ::
          LoggedAt(v.area, |v.disk|, list, i))
    && (forall i: nat {:trigger CopyOk(v, list, i)} | i < n ::
          (assert LoggedAt(v.area, |v.disk|, list, i); CopyOk(v, list, i)))
  }

  ghost predicate PhaseOk(v: View)
    requires Formatted(v.area, v.disk) && LoggedOk(v.area, |v.disk|, v.lh) && |v.disk| == |v.last| == |v.given|
  {
    var head := v.disk[v.area.start];
    match v.phase
    case Idle => ReadHead(head) == []
    case Logging(k, copied) =>
      && ReadHead(head) == [] && k <= |v.lh| && CopiesOk(v, v.lh, k)
      && (copied ==>
            && k < |v.lh|
            && (assert LoggedAt(v.area, |v.disk|, v.lh, k); v.last[SlotOf(v, k)] == v.given[v.lh[k]]))
    case Recording => ReadHead(head) == [] && CopiesOk(v, v.lh, |v.lh|) && v.last[v.area.start] == PutHead(head, v.lh)
    case Installing(k, stage) =>
      ReadHead(head) == v.lh && CopiesOk(v, v.lh, |v.lh|) && k <= |v.lh| && (stage != Fresh ==> k < |v.lh|)
    case Erasing(edited) =>
      && v.lh == [] && CopiesOk(v, ReadHead(head), |ReadHead(head)|)
      && (edited ==> v.last[v.area.start] == PutHead(head, []))
    case Done => ReadHead(head) == [] && v.lh == []
  }

  ghost predicate Shaped(v: View) {
    && |v.disk| == |v.last| == |v.given| == |v.committed|
    && Formatted(v.area, v.disk) && LoggedOk(v.area, |v.disk|, v.lh)
  }

  ghost predicate Inv(v: View) {
    && Shaped(v) && PhaseOk(v)
    && forall b: nat {:trigger BlockOk(v, b)} | b < |v.disk| :: BlockOk(v, b)
  }

  /** In every state the disk stands for the block map at the last commit record. */
  lemma LogicalIsCommitted(v: View, b: nat)
    requires Inv(v) && b < |v.disk| && Home(v.area, b)
    ensures Logical(v.area, v.disk, b) == v.committed[b]
  {
    var head := ReadHead(v.disk[v.area.start]);
    assert BlockOk(v, b);
    var i := Slot(head, b);
    if i < |head| {
      assert LoggedAt(v.area, |v.disk|, head, i) && CopyOk(v, head, i);
    }
  }

  // ---- Operations ----

  predicate CanGive(v: View, b: nat) {
    v.phase == Idle && b < |v.disk| == |v.last| == |v.given| && Home(v.area, b)
  }

  /** Operation id puts new contents into a home block. */
  function Give(v: View, id: nat, b: nat, data: Block): View
    requires CanGive(v, b)
  {
    v.(last := v.last[b := data], given := v.given[b := data],
       owes := if b in v.lh || data == v.disk[b] then v.owes - {b} else v.owes[b := id])
  }

  lemma GiveKeepsInv(v: View, id: nat, b: nat, data: Block)
    requires Inv(v) && CanGive(v, b)
    ensures Inv(Give(v, id, b, data))
  {
    var w := Give(v, id, b, data);
    forall c: nat | c < |w.disk| ensures BlockOk(w, c) {
      assert BlockOk(v, c);
    }
  }

  predicate CanLog(v: View, b: nat) {
    v.phase == Idle && b < |v.disk| && Home(v.area, b) && (b in v.lh || |v.lh| < Capacity(v.area.size))
  }

  /** log_write. */
  function Log(v: View, b: nat): View
    requires CanLog(v, b)
  {
    v.(lh := if b in v.lh then v.lh else v.lh + [b], owes := v.owes - {b})
  }

  lemma {:induction false} SlotAppend(lh: seq<int>, x: int, b: int)
    ensures Slot(lh + [x], b) == if b in lh then Slot(lh, b) else if b == x then |lh| else |lh| + 1
  {
    if lh != [] {
      SlotAppend(lh[1..], x, b);
      assert (lh + [x])[1..] == lh[1..] + [x];
    }
  }

  lemma LoggedMore(area: Area, n: nat, lh: seq<int>, b: nat)
    requires LoggedOk(area, n, lh) && b !in lh && |lh| < Capacity(area.size) && b < n && Home(area, b)
    ensures LoggedOk(area, n, lh + [b])
  {
    var more := lh + [b];
    forall i: nat | i < |more| ensures LoggedAt(area, n, more, i) {
      assert i < |lh| ==> LoggedAt(area, n, lh, i);
    }
    forall i: nat, j: nat | i < |more| && j < |more| ensures Unlike(more, i, j) {
      if i < |lh| && j < |lh| {
        assert Unlike(lh, i, j);
      } else {
        assert (i < |lh| ==> lh[i] in lh) && (j < |lh| ==> lh[j] in lh);
      }
    }
  }

  lemma LogKeepsInv(v: View, b: nat)
    requires Inv(v) && CanLog(v, b)
    ensures Inv(Log(v, b))
  {
    var w := Log(v, b);
    if b !in v.lh {
      LoggedMore(v.area, |v.disk|, v.lh, b);
    }
    forall c: nat | c < |w.disk| ensures BlockOk(w, c) {
      assert BlockOk(v, c);
      SlotAppend(v.lh, b, c);
    }
  }

  // ---- Commit ----

  /** The last end_op: every block an operation changed is logged. */
  predicate CanCommit(v: View) {
    v.phase == Idle && v.owes == map[]
  }

  function Commit(v: View): View {
    v.(phase := if v.lh == [] then Done else Logging(0, false))
  }

  lemma CommitKeepsInv(v: View)
    requires Inv(v) && CanCommit(v)
    ensures Inv(Commit(v))
  {
    var w := Commit(v);
    forall c: nat | c < |w.disk| ensures BlockOk(w, c) {
      assert BlockOk(v, c);
    }
    forall i: nat | i < |v.lh| ensures LoggedAt(v.area, |w.disk|, v.lh, i) {}
  }

  /** Every copy that is right stays right while disk slots and given contents stay. */
  lemma CopiesStay(v: View, w: View, list: seq<int>, n: nat)
    requires CopiesOk(v, list, n) && w.area == v.area && w.given == v.given && |w.disk| == |v.disk|
    requires forall i: nat | i < n :: w.disk[SlotOf(v, i)] == v.disk[SlotOf(v, i)]
    ensures CopiesOk(w, list, n)
  {
    forall i: nat | i < |list| ensures LoggedAt(w.area, |w.disk|, list, i) {
      assert LoggedAt(v.area, |v.disk|, list, i);
    }
    forall i: nat | i < n ensures LoggedAt(w.area, |w.disk|, list, i) && CopyOk(w, list, i) {
      assert LoggedAt(v.area, |v.disk|, list, i) && CopyOk(v, list, i);
    }
  }

  lemma CopiesMore(v: View, list: seq<int>, n: nat)
    requires CopiesOk(v, list, n) && n < |list| && LoggedAt(v.area, |v.disk|, list, n) && CopyOk(v, list, n)
    ensures CopiesOk(v, list, n + 1)
  {
    forall i: nat | i < n + 1 ensures LoggedAt(v.area, |v.disk|, list, i) && CopyOk(v, list, i) {
      assert i < n ==> LoggedAt(v.area, |v.disk|, list, i) && CopyOk(v, list, i);
    }
  }

  predicate CanCopyToLog(v: View) {
    && v.phase.Logging? && !v.phase.copied && v.phase.k < |v.lh|
    && SlotOf(v, v.phase.k) < |v.last| && 0 <= v.lh[v.phase.k] < |v.last|
  }

  /** write_log's memmove from the cached block to the log block. */
  function CopyToLog(v: View): View
    requires CanCopyToLog(v)
  {
    var k := v.phase.k;
    v.(last := v.last[SlotOf(v, k) := v.last[v.lh[k]]], phase := Logging(k, true))
  }

  lemma CopyToLogKeepsInv(v: View)
    requires Inv(v) && CanCopyToLog(v)
    ensures Inv(CopyToLog(v))
  {
    var w, k := CopyToLog(v), v.phase.k;
    assert LoggedAt(v.area, |v.disk|, v.lh, k) && BlockOk(v, v.lh[k]);
    CopiesStay(v, w, v.lh, k);
    forall c: nat | c < |w.disk| ensures BlockOk(w, c) {
      assert BlockOk(v, c);
    }
  }

  predicate CanFlushLog(v: View) {
    v.phase.Logging? && v.phase.copied && SlotOf(v, v.phase.k) < |v.disk| && |v.last| == |v.disk|
  }

  /** bwrite of the log block. */
  function FlushLog(v: View): View
    requires CanFlushLog(v)
  {
    var slot := SlotOf(v, v.phase.k);
    v.(disk := v.disk[slot := v.last[slot]], phase := Logging(v.phase.k + 1, false))
  }

  lemma FlushLogKeepsInv(v: View)
    requires Inv(v) && CanFlushLog(v)
    ensures Inv(FlushLog(v))
  {
    var w, k := FlushLog(v), v.phase.k;
    assert LoggedAt(v.area, |v.disk|, v.lh, k);
    CopiesStay(v, w, v.lh, k);
    CopiesMore(w, v.lh, k);
    forall c: nat | c < |w.disk| ensures BlockOk(w, c) {
      assert BlockOk(v, c);
    }
  }

  predicate CanEditHead(v: View) {
    v.area.start < |v.last| && (v.phase == Logging(|v.lh|, false) || v.phase == Erasing(false))
  }

  /** write_head fills the header buffer. */
  function EditHead(v: View): View
    requires CanEditHead(v)
  {
    var start := v.area.start;
    v.(last := v.last[start := Head(v.last[start], v.lh)],
       phase := if v.phase.Logging? then Recording else Erasing(true))
  }

  lemma EditHeadKeepsInv(v: View)
    requires Inv(v) && CanEditHead(v)
    ensures Inv(EditHead(v))
  {
    var w := EditHead(v);
    assert BlockOk(v, v.area.start);
    var list := if v.phase.Logging? then v.lh else ReadHead(v.disk[v.area.start]);
    CopiesStay(v, w, list, |list|);
    forall c: nat | c < |w.disk| ensures BlockOk(w, c) {
      assert BlockOk(v, c);
    }
  }

  predicate CanFlushHead(v: View) {
    v.area.start < |v.disk| == |v.last| && (v.phase == Recording || v.phase == Erasing(true))
  }

  /** bwrite of the header: the commit record, or the erasure of the log. */
  function FlushHead(v: View): View
    requires CanFlushHead(v)
  {
    var start := v.area.start;
    var w := v.(disk := v.disk[start := v.last[start]]);
    if v.phase == Recording then w.(phase := Installing(0, Fresh), committed := v.given) else w.(phase := Done)
  }

  lemma FlushHeadKeepsInv(v: View)
    requires Inv(v) && CanFlushHead(v)
    ensures Inv(FlushHead(v))
  {
    var w := FlushHead(v);
    HeadRoundTrip(v.disk[v.area.start], v.lh);
    if v.phase == Recording {
      CopiesStay(v, w, v.lh, |v.lh|);
    }
    forall c: nat | c < |w.disk| ensures BlockOk(w, c) {
      assert BlockOk(v, c);
    }
  }

  predicate CanCopyHome(v: View) {
    && v.phase.Installing? && v.phase.stage == Fresh && v.phase.k < |v.lh|
    && SlotOf(v, v.phase.k) < |v.last| && 0 <= v.lh[v.phase.k] < |v.last|
  }

  /** install_trans's memmove from the log block to the home block. */
  function CopyHome(v: View): View
    requires CanCopyHome(v)
  {
    var k := v.phase.k;
    v.(last := v.last[v.lh[k] := v.last[SlotOf(v, k)]], phase := Installing(k, Copied))
  }

  /** The copy home changes no byte. */
  lemma CopyHomeChangesNothing(v: View)
    requires Inv(v) && CanCopyHome(v)
    ensures CopyHome(v).last == v.last
  {
    var k := v.phase.k;
    assert LoggedAt(v.area, |v.disk|, v.lh, k) && CopyOk(v, v.lh, k);
    assert BlockOk(v, SlotOf(v, k)) && BlockOk(v, v.lh[k]);
  }

  lemma CopyHomeKeepsInv(v: View)
    requires Inv(v) && CanCopyHome(v)
    ensures Inv(CopyHome(v))
  {
    var w := CopyHome(v);
    CopyHomeChangesNothing(v);
    CopiesStay(v, w, v.lh, |v.lh|);
    forall c: nat | c < |w.disk| ensures BlockOk(w, c) {
      assert BlockOk(v, c);
    }
  }

  predicate CanFlushHome(v: View) {
    && v.phase.Installing? && v.phase.stage == Copied && v.phase.k < |v.lh|
    && 0 <= v.lh[v.phase.k] < |v.disk| == |v.last|
  }

  /** bwrite of the home block. */
  function FlushHome(v: View): View
    requires CanFlushHome(v)
  {
    var k := v.phase.k;
    v.(disk := v.disk[v.lh[k] := v.last[v.lh[k]]], phase := Installing(k, Written))
  }

  lemma FlushHomeKeepsInv(v: View)
    requires Inv(v) && CanFlushHome(v)
    ensures Inv(FlushHome(v))
  {
    var w, k := FlushHome(v), v.phase.k;
    SlotIs(v.area, |v.disk|, v.lh, k);
    assert BlockOk(v, v.lh[k]);
    CopiesStay(v, w, v.lh, |v.lh|);
    forall c: nat | c < |w.disk| ensures BlockOk(w, c) {
      assert BlockOk(v, c);
      if Slot(v.lh, c) == k {
        assert c == v.lh[k];
      }
    }
  }

  predicate CanUnpin(v: View) {
    v.phase.Installing? && v.phase.stage == Written && v.phase.k < |v.lh|
  }

  function Unpin(v: View): View
    requires CanUnpin(v)
  {
    v.(phase := Installing(v.phase.k + 1, Fresh))
  }

  lemma UnpinKeepsInv(v: View)
    requires Inv(v) && CanUnpin(v)
    ensures Inv(Unpin(v))
  {
    var w := Unpin(v);
    CopiesStay(v, w, v.lh, |v.lh|);
    forall c: nat | c < |w.disk| ensures BlockOk(w, c) {
      assert BlockOk(v, c);
    }
  }

  predicate CanClear(v: View) {
    v.phase == Installing(|v.lh|, Fresh)
  }

  /** log.lh.n = 0. */
  function Clear(v: View): View {
    v.(lh := [], phase := Erasing(false))
  }

  lemma ClearKeepsInv(v: View)
    requires Inv(v) && CanClear(v)
    ensures Inv(Clear(v))
  {
    var w := Clear(v);
    CopiesStay(v, w, v.lh, |v.lh|);
    forall c: nat | c < |w.disk| ensures BlockOk(w, c) {
      assert BlockOk(v, c);
    }
  }

  function Finish(v: View): View {
    v.(phase := Idle)
  }

  lemma FinishKeepsInv(v: View)
    requires Inv(v) && v.phase == Done
    ensures Inv(Finish(v))
  {
    var w := Finish(v);
    forall c: nat | c < |w.disk| ensures BlockOk(w, c) {
      assert BlockOk(v, c);
    }
  }

  // ---- Crashes ----

  /** A crash at any moment, recoveries that crash in turn, and one that completes.  What is
      left is the block map at the last commit record. */
  ghost function Crash(v: View, stops: seq<nat>): View
    requires Formatted(v.area, v.disk)
  {
    var d := Recovered(v.area, v.disk, stops);
    View(v.area, d, d, v.committed, v.committed, [], Idle, map[])
  }

  lemma CrashKeepsInv(v: View, stops: seq<nat>)
    requires Inv(v)
    ensures Inv(Crash(v, stops))
  {
    var w := Crash(v, stops);
    RecoveredHead(v.area, v.disk, stops);
    forall c: nat | c < |w.disk| ensures BlockOk(w, c) {
      if Home(v.area, c) {
        RecoveredAt(v.area, v.disk, stops, c);
        LogicalIsCommitted(v, c);
      }
    }
  }
}
