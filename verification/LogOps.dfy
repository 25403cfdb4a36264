/** begin_op, log_write, end_op and commit as steps under log.lock: the reservation of log
    space, over every interleaving of file-system operations. */
module LogOps {
  import LogDisk

  const MAXOPBLOCKS := 10

  /** The shared log state.  `budget` has one entry per outstanding operation: how many
      more new blocks that operation may still log. */
  datatype State = State(lh: seq<int>, committing: bool, budget: map<nat, nat>)

  /** The bound the caller must respect is built into Write: an operation logs at most
      MAXOPBLOCKS blocks that are not in the log yet. */
  datatype Step = Begin(id: nat) | Write(id: nat, b: int) | End(id: nat) | Clear | Finish

  function Outstanding(s: State): nat {
    |s.budget|
  }

  /** begin_op goes on only if the log has room for one more full operation. */
  predicate Admits(s: State) {
    !s.committing && |s.lh| + (Outstanding(s) + 1) * MAXOPBLOCKS <= LogDisk.LOGSIZE
  }

  /** The first panic of log_write, in a log area of the given size. */
  predicate TooBig(s: State, size: nat) {
    |s.lh| >= LogDisk.LOGSIZE || |s.lh| >= size - 1
  }

  /** The steps that the code takes; a log_write that panics is not one of them. */
  predicate Enabled(s: State, step: Step, size: nat) {
    match step
    case Begin(id) => id !in s.budget && Admits(s)
    case Write(id, b) => id in s.budget && (b in s.lh || s.budget[id] > 0) && !TooBig(s, size)
    case End(id) => id in s.budget
    case Clear => s.committing
    case Finish => s.committing && s.lh == []
  }

  function Next(s: State, step: Step): State
    requires step.Write? ==> step.id in s.budget && (step.b in s.lh || s.budget[step.id] > 0)
  {
    match step
    case Begin(id) => s.(budget := s.budget[id := MAXOPBLOCKS])
    case Write(id, b) =>
      if b in s.lh then s
      else s.(lh := s.lh + [b], budget := s.budget[id := s.budget[id] - 1])
    case End(id) => s.(budget := s.budget - {id}, committing := s.budget - {id} == map[])
    case Clear => s.(lh := [])
    case Finish => s.(committing := false)
  }

  ghost function Total(m: map<nat, nat>): nat
    decreases |m|
  {
    if m == map[] then 0 else
      var k :| k in m;
      assert (m - {k}).Keys == m.Keys - {k};
      m[k] + Total(m - {k})
  }

  lemma {:induction false} TotalRemove(m: map<nat, nat>, k: nat)
    requires k in m
    ensures |m - {k}| == |m| - 1 && Total(m) == m[k] + Total(m - {k})
    decreases |m|
  {
    assert (m - {k}).Keys == m.Keys - {k};
    var j :| j in m && Total(m) == m[j] + Total(m - {j});
    assert (m - {j}).Keys == m.Keys - {j};
    if j != k {
      TotalRemove(m - {j}, k);
      TotalRemove(m - {k}, j);
      assert m - {j} - {k} == m - {k} - {j};
    }
  }

  lemma TotalSet(m: map<nat, nat>, k: nat, v: nat)
    ensures Total(m[k := v]) == v + Total(m - {k})
    ensures |m[k := v]| == if k in m then |m| else |m| + 1
  {
    var n := m[k := v];
    TotalRemove(n, k);
    assert n - {k} == m - {k};
    if k in m {
      assert n.Keys == m.Keys;
    } else {
      assert m - {k} == m;
    }
  }

  ghost predicate Modest(m: map<nat, nat>, id: nat)
    requires id in m
  {
    m[id] <= MAXOPBLOCKS
  }

  ghost predicate AllModest(m: map<nat, nat>) {
    forall id {:trigger Modest(m, id)} | id in m :: Modest(m, id)
  }

  lemma {:induction false} TotalBound(m: map<nat, nat>)
    requires AllModest(m)
    ensures Total(m) <= |m| * MAXOPBLOCKS
    decreases |m|
  {
    if m != map[] {
      var k :| k in m;
      TotalRemove(m, k);
      var rest := m - {k};
      forall id | id in rest ensures Modest(rest, id) {
        assert Modest(m, id);
      }
      TotalBound(rest);
      assert Modest(m, k);
    }
  }

  ghost predicate Distinct(xs: seq<int>) {
    forall i: nat, j: nat {:trigger LogDisk.Unlike(xs, i, j)} | i < |xs| && j < |xs| :: LogDisk.Unlike(xs, i, j)
  }

  /** Blocks logged plus blocks still promised fit the log; those logged fit the log area. */
  ghost predicate Inv(s: State, size: nat) {
    && |s.lh| + Total(s.budget) <= LogDisk.LOGSIZE && |s.lh| <= LogDisk.Capacity(size)
    && AllModest(s.budget)
    && Distinct(s.lh)
    && (s.committing ==> s.budget == map[])
    && (s.lh != [] && s.budget == map[] ==> s.committing)
  }

  lemma ModestSet(m: map<nat, nat>, id: nat, v: nat)
    requires AllModest(m) && v <= MAXOPBLOCKS
    ensures AllModest(m[id := v]) && AllModest(m - {id})
  {
    var a, b := m[id := v], m - {id};
    forall k | k in a ensures Modest(a, k) {
      assert k != id ==> Modest(m, k);
    }
    forall k | k in b ensures Modest(b, k) {
      assert Modest(m, k);
    }
  }

  lemma DistinctAdd(xs: seq<int>, x: int)
    requires Distinct(xs) && x !in xs
    ensures Distinct(xs + [x])
  {
    var ys := xs + [x];
    forall i: nat, j: nat | i < |ys| && j < |ys| ensures LogDisk.Unlike(ys, i, j) {
      if i < |xs| && j < |xs| {
        assert LogDisk.Unlike(xs, i, j);
      } else {
        assert (i < |xs| ==> xs[i] in xs) && (j < |xs| ==> xs[j] in xs);
      }
    }
  }

  lemma BeginKeepsInv(s: State, id: nat, size: nat)
    requires Inv(s, size) && Enabled(s, Begin(id), size)
    ensures Inv(Next(s, Begin(id)), size)
  {
    TotalSet(s.budget, id, MAXOPBLOCKS);
    TotalBound(s.budget);
    ModestSet(s.budget, id, MAXOPBLOCKS);
    assert s.budget - {id} == s.budget;
  }

  /** One block of an operation's budget is spent. */
  lemma Spend(m: map<nat, nat>, id: nat, v: nat)
    requires AllModest(m) && id in m && v + 1 == m[id]
    ensures Total(m[id := v]) + 1 == Total(m) && AllModest(m[id := v]) && |m[id := v]| == |m| > 0
  {
    assert Modest(m, id);
    TotalSet(m, id, v);
    TotalRemove(m, id);
    ModestSet(m, id, v);
  }

  lemma WriteKeepsInv(s: State, id: nat, b: int, size: nat)
    requires Inv(s, size) && Enabled(s, Write(id, b), size)
    ensures Inv(Next(s, Write(id, b)), size)
  {
    if b !in s.lh {
      Spend(s.budget, id, s.budget[id] - 1);
      DistinctAdd(s.lh, b);
    }
  }

  lemma EndKeepsInv(s: State, id: nat, size: nat)
    requires Inv(s, size) && Enabled(s, End(id), size)
    ensures Inv(Next(s, End(id)), size)
  {
    TotalRemove(s.budget, id);
    ModestSet(s.budget, id, 0);
  }

  lemma StepKeepsInv(s: State, step: Step, size: nat)
    requires Inv(s, size) && Enabled(s, step, size)
    ensures Inv(Next(s, step), size)
  {
    match step
    case Begin(id) => BeginKeepsInv(s, id, size);
    case Write(id, b) => WriteKeepsInv(s, id, b, size);
    case End(id) => EndKeepsInv(s, id, size);
    case Clear =>
    case Finish =>
  }

  const START := State([], false, map[])

  ghost predicate IsRun(ss: seq<State>, steps: seq<Step>, size: nat) {
    && |ss| == |steps| + 1 && ss[0] == START
    && forall i: nat {:trigger Follows(ss, steps, size, i)} | i < |steps| :: Follows(ss, steps, size, i)
  }

  ghost predicate Follows(ss: seq<State>, steps: seq<Step>, size: nat, i: nat)
    requires i < |steps| < |ss|
  {
    Enabled(ss[i], steps[i], size) && ss[i + 1] == Next(ss[i], steps[i])
  }

  /** In every state of every interleaving: the reservation holds, logged block numbers are
      distinct, and a commit overlaps no outstanding operation. */
  lemma {:induction false} RunKeepsReservation(ss: seq<State>, steps: seq<Step>, size: nat, i: nat)
    requires IsRun(ss, steps, size) && i < |ss|
    ensures Inv(ss[i], size)
  {
    if i > 0 {
      RunKeepsReservation(ss, steps, size, i - 1);
      assert Follows(ss, steps, size, i - 1);
      StepKeepsInv(ss[i - 1], steps[i - 1], size);
    }
  }

  // ---- When begin_op goes on ----

  /** begin_op does not wait for nothing: with an empty log it goes on exactly while fewer than
      three operations are under way, and in every reachable state in which no operation and no
      commit is under way, it goes on. */
  lemma IdleAdmits(ss: seq<State>, steps: seq<Step>, size: nat, i: nat)
    requires IsRun(ss, steps, size) && i < |ss| && !ss[i].committing
    ensures ss[i].lh == [] ==> (Admits(ss[i]) <==> Outstanding(ss[i]) < 3)
    ensures ss[i].budget == map[] ==> Admits(ss[i])
  {
    RunKeepsReservation(ss, steps, size, i);
  }

  // ---- When log_write panics ----

  ghost predicate Reachable(s: State, size: nat) {
    exists ss, steps :: IsRun(ss, steps, size) && ss[|steps|] == s
  }

  lemma ReachableInv(s: State, size: nat)
    requires Reachable(s, size)
    ensures Inv(s, size)
  {
    var ss, steps :| IsRun(ss, steps, size) && ss[|steps|] == s;
    RunKeepsReservation(ss, steps, size, |steps|);
  }

  /** In no reachable state does an operation within its budget, logging a new block, meet
      the panic. */
  ghost predicate NeverTooBig(size: nat) {
    forall s, id, b | Reachable(s, size) && id in s.budget && s.budget[id] > 0 && b !in s.lh :: !TooBig(s, size)
  }

  /** Some operation, in some reachable state, is refused a block that is logged already. */
  ghost predicate RefusesAbsorption(size: nat) {
    exists s, id, b :: Reachable(s, size) && id in s.budget && b in s.lh && TooBig(s, size)
  }

  /** Three operations have begun and n blocks have been logged, ten by each in turn. */
  function Busy(n: nat): State
    requires n <= LogDisk.LOGSIZE
  {
    State(seq(n, i => i), false,
          map[0 := if n <= 10 then 10 - n else 0,
              1 := if n <= 10 then 10 else if n <= 20 then 20 - n else 0,
              2 := if n <= 20 then 10 else 30 - n])
  }

  lemma RunMore(ss: seq<State>, steps: seq<Step>, size: nat, step: Step)
    requires IsRun(ss, steps, size) && Enabled(ss[|steps|], step, size)
    ensures IsRun(ss + [Next(ss[|steps|], step)], steps + [step], size)
  {
    var ss', steps' := ss + [Next(ss[|steps|], step)], steps + [step];
    forall i: nat | i < |steps'| ensures Follows(ss', steps', size, i) {
      if i < |steps| {
        assert Follows(ss, steps, size, i);
        assert ss'[i] == ss[i] && ss'[i + 1] == ss[i + 1] && steps'[i] == steps[i];
      }
    }
  }

  lemma ReachStep(s: State, step: Step, size: nat)
    requires Reachable(s, size) && Enabled(s, step, size)
    ensures Reachable(Next(s, step), size)
  {
    var ss, steps :| IsRun(ss, steps, size) && ss[|steps|] == s;
    RunMore(ss, steps, size, step);
    var steps' := steps + [step];
    assert (ss + [Next(s, step)])[|steps'|] == Next(s, step);
  }

  lemma ThreeBegun(size: nat)
    ensures Reachable(Busy(0), size)
  {
    var none: seq<Step> := [];
    assert IsRun([START], none, size) && [START][|none|] == START;
    ReachStep(START, Begin(0), size);
    var s1 := Next(START, Begin(0));
    assert s1.budget == map[0 := 10];
    ReachStep(s1, Begin(1), size);
    var s2 := Next(s1, Begin(1));
    assert s2.budget == map[0 := 10, 1 := 10];
    ReachStep(s2, Begin(2), size);
    assert Next(s2, Begin(2)) == Busy(0);
  }

  lemma BusyStep(n: nat, size: nat)
    requires n < LogDisk.LOGSIZE && n < size - 1
    ensures var step := Write(n / 10, n); Enabled(Busy(n), step, size) && Next(Busy(n), step) == Busy(n + 1)
  {
    var s, t := Busy(n), Busy(n + 1);
    assert s.lh + [n] == t.lh;
    assert s.budget[n / 10 := s.budget[n / 10] - 1] == t.budget;
  }

  lemma {:induction false} BusyReachable(n: nat, size: nat)
    requires n <= LogDisk.Capacity(size)
    ensures Reachable(Busy(n), size)
  {
    if n == 0 {
      ThreeBegun(size);
    } else {
      BusyReachable(n - 1, size);
      BusyStep(n - 1, size);
      ReachStep(Busy(n - 1), Write((n - 1) / 10, n - 1), size);
    }
  }

  /** The fullness test comes before the search, so a full log refuses even a block that it
      holds already.  This can happen in every log area that can hold a block at all. */
  lemma AbsorptionRefusedIff(size: nat)
    ensures RefusesAbsorption(size) <==> size > 1
  {
    if size > 1 {
      var n := LogDisk.Capacity(size);
      var s := Busy(n);
      BusyReachable(n, size);
      assert s.lh[0] == 0 && 0 in s.budget && 0 in s.lh && TooBig(s, size);
    } else if RefusesAbsorption(size) {
      var s, id, b :| Reachable(s, size) && id in s.budget && b in s.lh && TooBig(s, size);
      ReachableInv(s, size);
    }
  }

  /** A log area of LOGSIZE data blocks and a header is exactly what it takes: the image
      that mkfs makes, with nlog == LOGSIZE, can panic on a block that was reserved. */
  lemma NeverTooBigIff(size: nat)
    ensures NeverTooBig(size) <==> size > LogDisk.LOGSIZE
  {
    if size > LogDisk.LOGSIZE {
      forall s, id, b | Reachable(s, size) && id in s.budget && s.budget[id] > 0 && b !in s.lh
        ensures !TooBig(s, size)
      {
        ReachableInv(s, size);
        TotalRemove(s.budget, id);
      }
    } else {
      var n := LogDisk.Capacity(size);
      var s, id := Busy(n), n / 10;
      BusyReachable(n, size);
      assert id in s.budget && s.budget[id] > 0 && n !in s.lh && TooBig(s, size);
    }
  }

  // ---- The code of the steps ----

  datatype WriteResult = PanicTooBig | PanicOutside | Absorbed | Added

  /** struct log.  The ghost budget says what each outstanding operation may still add. */
  class OpLog {
    const size: nat
    const block: array<int>
    var n: nat
    var outstanding: int
    var committing: bool
    ghost var budget: map<nat, nat>

    ghost function Abs(): State
      requires n <= block.Length
      reads this, block
    {
      State(block[..n], committing, budget)
    }

    ghost predicate Valid()
      reads this, block
    {
      block.Length == LogDisk.LOGSIZE && n <= LogDisk.LOGSIZE && outstanding == |budget| && Inv(Abs(), size)
    }

    constructor (size: nat)
      ensures Valid() && Abs() == START && this.size == size
    {
      this.size := size;
      block := new int[LogDisk.LOGSIZE];
      n, outstanding, committing, budget := 0, 0, false, map[];
    }

    /** One round of begin_op's loop: either the operation is let in or it must sleep. */
    method BeginOp(ghost id: nat) returns (admitted: bool)
      requires Valid() && id !in budget
      modifies this`outstanding, this`budget
      ensures Valid() && admitted == Admits(old(Abs()))
      ensures Abs() == if admitted then Next(old(Abs()), Begin(id)) else old(Abs())
    {
      if committing {
        return false;
      } else if n + (outstanding + 1) * MAXOPBLOCKS > LogDisk.LOGSIZE {
        return false;
      }
      StepKeepsInv(Abs(), Begin(id), size);
      TotalSet(budget, id, MAXOPBLOCKS);
      outstanding := outstanding + 1;
      budget := budget[id := MAXOPBLOCKS];
      return true;
    }

    /** end_op up to the commit: commits exactly when no operation is left; its panic
        cannot happen. */
    method EndOp(ghost id: nat) returns (doCommit: bool)
      requires Valid() && id in budget
      modifies this`outstanding, this`budget, this`committing
      ensures Valid() && Abs() == Next(old(Abs()), End(id))
      ensures doCommit == Abs().committing
    {
      StepKeepsInv(Abs(), End(id), size);
      TotalRemove(budget, id);
      outstanding := outstanding - 1;
      budget := budget - {id};
      assert !committing;
      doCommit := false;
      if outstanding == 0 {
        doCommit := true;
        committing := true;
      }
    }

    /** log_write: absorbs a block already logged, appends a new one, or panics. */
    method LogWrite(ghost id: nat, b: int) returns (r: WriteResult)
      requires Valid() && (budget != map[] ==> id in budget && (b in Abs().lh || budget[id] > 0))
      modifies this`n, this`budget, block
      ensures Valid()
      ensures r == PanicTooBig <==> TooBig(old(Abs()), size)
      ensures r == PanicOutside <==> !TooBig(old(Abs()), size) && old(budget) == map[]
      ensures r == Absorbed ==> b in old(Abs()).lh
      ensures r == Added ==> b !in old(Abs()).lh
      ensures r == PanicTooBig || r == PanicOutside ==> Abs() == old(Abs())
      ensures r == Absorbed || r == Added ==> Abs() == Next(old(Abs()), Write(id, b))
    {
      if n >= LogDisk.LOGSIZE || n >= size - 1 {
        return PanicTooBig;
      }
      if outstanding < 1 {
        return PanicOutside;
      }
      ghost var next := Next(Abs(), Write(id, b));
      WriteKeepsInv(Abs(), id, b, size);
      if b !in Abs().lh {
        Spend(budget, id, budget[id] - 1);
      }
      var i := 0;
      while i < n
        invariant 0 <= i <= n && b !in block[..i]
      {
        if block[i] == b {
          break;
        }
        i := i + 1;
      }
      block[i] := b;
      if i == n {
        n := n + 1;
        budget := budget[id := budget[id] - 1];
        assert Abs() == next;
        return Added;
      }
      assert Abs() == next;
      return Absorbed;
    }
  }
}
