/** fork, exit, wait and reparent as steps between lock operations, over every interleaving. */
module Families {

  /** ALIVE stands for SLEEPING, RUNNABLE and RUNNING. */
  datatype Life = UNUSED | USED | ALIVE | ZOMBIE

  /** How far a process is in fork, exit or wait. */
  datatype PC =
    | Outside
    | Forking(child: nat)             // allocproc has given a child
    | Linked(child: nat)              // the child's parent is set
    | Exiting(next: nat)              // in reparent, holding wait_lock
    | Handing(next: nat)              // has given a child to init, about to wake init
    | Telling                         // has woken its parent
    | Dying                           // ZOMBIE, still holding wait_lock
    | Scanning(next: nat, kids: bool) // in wait's scan, holding wait_lock
    | Asleep                          // in wait's sleep
    | Woken                           // about to take wait_lock again

  /** parent is the index of the parent plus one, and 0 when there is none. */
  datatype Proc = Proc(state: Life, pid: nat, parent: nat, pc: PC)

  /** holder is the holder of wait_lock, plus one.  exits says which entry each exited process
      had; reaps lists the processes that wait has freed. */
  datatype State = State(procs: seq<Proc>, holder: nat, nextpid: nat, exits: map<nat, nat>, reaps: seq<nat>)

  datatype Step =
    | ForkAlloc(p: nat, child: nat)
    | ForkFail(p: nat)
    | ForkLink(p: nat)
    | ForkRun(p: nat)
    | ExitBegin(p: nat)
    | Reparent(p: nat)
    | WakeInit(p: nat)
    | WakeParent(p: nat)
    | Die(p: nat)
    | ExitEnd(p: nat)
    | WaitBegin(p: nat)
    | Scan(p: nat, fault: bool)
    | WaitSleep(p: nat)
    | WaitReturn(p: nat, killed: bool)
    | Kill(p: nat)

  const INIT := 0

  predicate Can(s: State, p: nat) {
    p < |s.procs| && s.procs[p].state == ALIVE
  }

  predicate Enabled(s: State, e: Step) {
    && e.p < |s.procs| && (s.procs[e.p].state == ALIVE || e.ExitEnd?)
    && var q := s.procs[e.p];
       match e
       case ForkAlloc(p, child) => q.pc == Outside && child < |s.procs| && s.procs[child].state == UNUSED
       case ForkFail(p) => q.pc.Forking? && q.pc.child < |s.procs|
       case ForkLink(p) => q.pc.Forking? && q.pc.child < |s.procs| && s.holder == 0
       case ForkRun(p) => q.pc.Linked? && q.pc.child < |s.procs|
       case ExitBegin(p) => q.pc == Outside && p != INIT && s.holder == 0
       case Reparent(p) => q.pc.Exiting? && q.pc.next < |s.procs|
       case WakeInit(p) => q.pc.Handing?
       case WakeParent(p) => q.pc == Exiting(|s.procs|)
       case Die(p) => q.pc == Telling
       case ExitEnd(p) => q.pc == Dying
       case WaitBegin(p) => (q.pc == Outside || q.pc == Woken) && s.holder == 0
       case Scan(p, fault) => q.pc.Scanning? && q.pc.next < |s.procs|
       case WaitSleep(p) => q.pc == Scanning(|s.procs|, true)
       case WaitReturn(p, killed) => q.pc.Scanning? && q.pc.next == |s.procs| && (!q.pc.kids || killed)
       case Kill(p) => true
  }

  const FREE := Proc(UNUSED, 0, 0, Outside)

  /** wakeup(w), where wait sleeps on its own process: what happens to entry i. */
  function Wake(q: Proc, i: nat, w: int): Proc {
    if i == w && q.pc == Asleep then q.(pc := Woken) else q
  }

  /** What a step does to entry i of the process table. */
  function EntryAfter(s: State, e: Step, i: nat): Proc
    requires Enabled(s, e) && i < |s.procs|
  {
    var p, q, x := e.p, s.procs[e.p], s.procs[i];
    match e
    case ForkAlloc(_, child) =>
      if i == p then x.(pc := Forking(child)) else if i == child then Proc(USED, s.nextpid, 0, Outside) else x
    case ForkFail(_) => if i == p then x.(pc := Outside) else if i == q.pc.child then FREE else x
    case ForkLink(_) =>
      if i == p then x.(pc := Linked(q.pc.child)) else if i == q.pc.child then x.(parent := p + 1) else x
    case ForkRun(_) => if i == p then x.(pc := Outside) else if i == q.pc.child then x.(state := ALIVE) else x
    case ExitBegin(_) => if i == p then x.(pc := Exiting(0)) else x
    case Reparent(_) =>
      if s.procs[q.pc.next].parent != p + 1 then (if i == p then x.(pc := Exiting(q.pc.next + 1)) else x)
      else if i == p then x.(pc := Handing(q.pc.next), parent := if q.pc.next == p then INIT + 1 else x.parent)
      else if i == q.pc.next then x.(parent := INIT + 1)
      else x
    case WakeInit(_) => if i == p then x.(pc := Exiting(q.pc.next + 1)) else Wake(x, i, INIT)
    case WakeParent(_) => if i == p then x.(pc := Telling) else Wake(x, i, q.parent - 1)
    case Die(_) => if i == p then x.(state := ZOMBIE, pc := Dying) else x
    case ExitEnd(_) => if i == p then x.(pc := Outside) else x
    case WaitBegin(_) => if i == p then x.(pc := Scanning(0, false)) else x
    case Scan(_, fault) =>
      var o := s.procs[q.pc.next];
      if i == p then
        if o.parent != p + 1 then x.(pc := Scanning(q.pc.next + 1, q.pc.kids))
        else if o.state != ZOMBIE then x.(pc := Scanning(q.pc.next + 1, true))
        else x.(pc := Outside)
      else if i == q.pc.next && Reaps(s, e) then FREE
      else x
    case WaitSleep(_) => if i == p then x.(pc := Asleep) else x
    case WaitReturn(_, _) => if i == p then x.(pc := Outside) else x
    case Kill(_) => Wake(x, i, p)
  }

  /** wait's scan frees the entry it is at. */
  predicate Reaps(s: State, e: Step) {
    && e.Scan? && !e.fault && e.p < |s.procs| && s.procs[e.p].pc.Scanning? && s.procs[e.p].pc.next < |s.procs|
    && var o := s.procs[s.procs[e.p].pc.next]; o.parent == e.p + 1 && o.state == ZOMBIE
  }

  function HolderAfter(s: State, e: Step): nat
    requires Enabled(s, e)
  {
    match e
    case ExitBegin(p) => p + 1
    case WaitBegin(p) => p + 1
    case ExitEnd(_) => 0
    case WaitSleep(_) => 0
    case WaitReturn(_, _) => 0
    case Scan(p, fault) =>
      var o := s.procs[s.procs[p].pc.next];
      if o.parent == p + 1 && o.state == ZOMBIE then 0 else s.holder
    case _ => s.holder
  }

  function Next(s: State, e: Step): State
    requires Enabled(s, e)
  {
    State(seq(|s.procs|, i requires 0 <= i < |s.procs| => EntryAfter(s, e, i)),
          HolderAfter(s, e),
          if e.ForkAlloc? then s.nextpid + 1 else s.nextpid,
          if e.Die? then s.exits[s.procs[e.p].pid := e.p] else s.exits,
          if Reaps(s, e) then s.reaps + [s.procs[s.procs[e.p].pc.next].pid] else s.reaps)
  }

  /** The process table and wait_lock after a step. */
  ghost predicate After(s: State, e: Step, t: State)
    requires Enabled(s, e)
  {
    && |t.procs| == |s.procs| && t.holder == HolderAfter(s, e)
    && forall i: nat {:trigger t.procs[i]} | i < |s.procs| :: t.procs[i] == EntryAfter(s, e, i)
  }

  // ---- The invariant ----

  /** A parent is a process that has neither exited nor been freed, and only an entry that is
      not in use, or not yet linked, has none. */
  ghost predicate ParentOk(s: State, p: nat)
    requires p < |s.procs|
  {
    var q := s.procs[p];
    && (q.parent != 0 ==> Can(s, q.parent - 1))
    && (q.state == UNUSED ==> q.parent == 0)
    && ((q.state == ALIVE && p != INIT) || q.state == ZOMBIE ==> q.parent != 0)
    && (p == INIT ==> q.state == ALIVE)
  }

  /** Entry p is no child of e. */
  ghost predicate NoChild(s: State, p: nat, e: nat)
    requires p < |s.procs|
  {
    s.procs[p].parent != e + 1
  }

  ghost predicate Childless(s: State, e: nat, n: nat) {
    n <= |s.procs| && forall p: nat {:trigger NoChild(s, p, e)} | p < n :: NoChild(s, p, e)
  }

  predicate HasLock(pc: PC) {
    pc.Exiting? || pc.Handing? || pc.Telling? || pc.Dying? || pc.Scanning?
  }

  /** The entries that reparent has dealt with. */
  function Handed(s: State, pc: PC): nat {
    match pc
    case Exiting(n) => n
    case Handing(n) => n + 1
    case Telling => |s.procs|
    case Dying => |s.procs|
    case _ => 0
  }

  ghost predicate ChildrenOk(s: State, p: nat)
    requires p < |s.procs|
  {
    Childless(s, p, Handed(s, s.procs[p].pc))
  }

  ghost predicate HolderOk(s: State, p: nat)
    requires p < |s.procs|
  {
    s.holder == p + 1 <==> HasLock(s.procs[p].pc)
  }

  ghost predicate PcOk(s: State, p: nat)
    requires p < |s.procs|
  {
    var q := s.procs[p];
    && (q.pc != Outside && q.pc != Dying ==> q.state == ALIVE)
    && match q.pc
       case Forking(c) => c < |s.procs| && c != p && s.procs[c].state == USED && s.procs[c].parent == 0
       case Linked(c) => c < |s.procs| && c != p && s.procs[c].state == USED && s.procs[c].parent == p + 1
       case Exiting(n) => p != INIT && n <= |s.procs|
       case Handing(n) => p != INIT && n < |s.procs|
       case Telling => p != INIT && 0 < q.parent <= |s.procs| && s.procs[q.parent - 1].pc != Asleep
       case Dying => q.state == ZOMBIE
       case Scanning(n, kids) => n <= |s.procs|
       case _ => true
  }

  /** Two processes do not fork into the same entry. */
  ghost predicate ForksApart(s: State, p: nat, o: nat)
    requires p < |s.procs| && o < |s.procs|
  {
    p != o && (s.procs[p].pc.Forking? || s.procs[p].pc.Linked?) && (s.procs[o].pc.Forking? || s.procs[o].pc.Linked?) ==>
      s.procs[p].pc.child != s.procs[o].pc.child
  }

  /** init is being given a child and is about to be woken. */
  predicate BeingHanded(s: State) {
    0 < s.holder <= |s.procs| && s.procs[s.holder - 1].pc.Handing?
  }

  /** A process asleep in wait has no ZOMBIE child, but for init while it is being given one;
      a process scanning has passed none. */
  ghost predicate Noticed(s: State, w: nat, o: nat)
    requires w < |s.procs| && o < |s.procs|
  {
    s.procs[o].parent == w + 1 && s.procs[o].state == ZOMBIE ==>
      && (s.procs[w].pc == Asleep ==> w == INIT && BeingHanded(s))
      && (s.procs[w].pc.Scanning? ==> s.procs[w].pc.next <= o)
  }

  ghost predicate Inv(s: State) {
    && 0 < |s.procs| && s.holder <= |s.procs|
    && (forall p: nat {:trigger ParentOk(s, p)} | p < |s.procs| :: ParentOk(s, p))
    && (forall p: nat {:trigger PcOk(s, p)} | p < |s.procs| :: PcOk(s, p))
    && (forall p: nat {:trigger HolderOk(s, p)} | p < |s.procs| :: HolderOk(s, p))
    && (forall p: nat {:trigger ChildrenOk(s, p)} | p < |s.procs| :: ChildrenOk(s, p))
    && (forall p: nat, o: nat {:trigger ForksApart(s, p, o)} | p < |s.procs| && o < |s.procs| :: ForksApart(s, p, o))
    && (forall w: nat, o: nat {:trigger Noticed(s, w, o)} | w < |s.procs| && o < |s.procs| :: Noticed(s, w, o))
  }

  predicate InFork(e: Step) {
    e.ForkAlloc? || e.ForkFail? || e.ForkLink? || e.ForkRun?
  }

  predicate InExit(e: Step) {
    e.ExitBegin? || e.Reparent? || e.WakeInit? || e.WakeParent? || e.Die? || e.ExitEnd?
  }

  lemma NextIsAfter(s: State, e: Step)
    requires Enabled(s, e)
    ensures After(s, e, Next(s, e))
  {}

  // ---- The holder of wait_lock ----

  lemma KeepsHolder(s: State, e: Step, t: State, p: nat)
    requires Enabled(s, e) && After(s, e, t) && p < |s.procs| && HolderOk(s, p) && HolderOk(s, e.p)
    requires PcOk(s, e.p) && PcOk(s, p)
    ensures HolderOk(t, p)
  {}

  // ---- Parents ----

  lemma ForkKeepsParents(s: State, e: Step, t: State, p: nat)
    requires Inv(s) && Enabled(s, e) && After(s, e, t) && InFork(e) && p < |s.procs|
    ensures ParentOk(t, p)
  {
    assert ParentOk(s, p) && ParentOk(s, e.p) && PcOk(s, e.p);
  }

  lemma ExitKeepsParents(s: State, e: Step, t: State, p: nat)
    requires Inv(s) && Enabled(s, e) && After(s, e, t) && InExit(e) && p < |s.procs|
    ensures ParentOk(t, p)
  {
    assert ParentOk(s, p) && ParentOk(s, e.p) && PcOk(s, e.p) && ParentOk(s, INIT);
    assert e.Die? ==> ChildrenOk(s, e.p) && NoChild(s, p, e.p);
  }

  lemma WaitKeepsParents(s: State, e: Step, t: State, p: nat)
    requires Inv(s) && Enabled(s, e) && After(s, e, t) && !InFork(e) && !InExit(e) && p < |s.procs|
    ensures ParentOk(t, p)
  {
    assert ParentOk(s, p) && ParentOk(s, e.p) && PcOk(s, e.p);
  }

  // ---- Children of a process that exits ----

  /** No step makes entry p a child of x while x is exiting. */
  lemma StaysChildless(s: State, e: Step, t: State, x: nat, p: nat)
    requires Enabled(s, e) && After(s, e, t) && x < |s.procs| && HasLock(s.procs[x].pc) && x != INIT
    requires p < |s.procs| && NoChild(s, p, x) && HolderOk(s, x) && PcOk(s, e.p)
    ensures NoChild(t, p, x)
  {}

  /** Only reparent itself moves on. */
  lemma HandedStep(s: State, e: Step, t: State, x: nat)
    requires Enabled(s, e) && After(s, e, t) && x < |s.procs| && PcOk(s, x) && PcOk(s, e.p) && ParentOk(s, x)
    ensures var n, m := Handed(s, s.procs[x].pc), Handed(t, t.procs[x].pc);
            && m <= |t.procs| && (m > 0 ==> HasLock(s.procs[x].pc) && x != INIT)
            && (m <= n || (m == n + 1 && NoChild(t, n, x)))
  {}

  lemma KeepsChildren(s: State, e: Step, t: State, x: nat)
    requires Inv(s) && Enabled(s, e) && After(s, e, t) && x < |s.procs|
    ensures ChildrenOk(t, x)
  {
    var n, m := Handed(s, s.procs[x].pc), Handed(t, t.procs[x].pc);
    assert ChildrenOk(s, x) && HolderOk(s, x) && PcOk(s, x) && PcOk(s, e.p) && ParentOk(s, x);
    HandedStep(s, e, t, x);
    forall p: nat | p < m ensures p < |t.procs| && NoChild(t, p, x) {
      if p < n {
        assert NoChild(s, p, x);
        StaysChildless(s, e, t, x, p);
      }
    }
  }

  // ---- Program counters ----

  lemma ForkKeepsPcs(s: State, e: Step, t: State, p: nat)
    requires Enabled(s, e) && After(s, e, t) && InFork(e) && p < |s.procs|
    requires PcOk(s, p) && PcOk(s, e.p) && ParentOk(s, p) && ForksApart(s, p, e.p) && HolderOk(s, p)
    ensures PcOk(t, p)
  {}

  lemma ReparentKeepsPcs(s: State, e: Step, t: State, p: nat)
    requires Enabled(s, e) && After(s, e, t) && e.Reparent? && p < |s.procs|
    requires PcOk(s, p) && PcOk(s, e.p) && HolderOk(s, p) && HolderOk(s, e.p)
    ensures PcOk(t, p)
  {}

  lemma ExitKeepsPcs(s: State, e: Step, t: State, p: nat)
    requires Enabled(s, e) && After(s, e, t) && InExit(e) && !e.Reparent? && p < |s.procs|
    requires PcOk(s, p) && PcOk(s, e.p) && ParentOk(s, p) && ParentOk(s, e.p) && HolderOk(s, p) && HolderOk(s, e.p)
    ensures PcOk(t, p)
  {}

  lemma WaitKeepsPcs(s: State, e: Step, t: State, p: nat)
    requires Enabled(s, e) && After(s, e, t) && !InFork(e) && !InExit(e) && p < |s.procs|
    requires PcOk(s, p) && PcOk(s, e.p) && ParentOk(s, p) && HolderOk(s, p) && HolderOk(s, e.p)
    ensures PcOk(t, p)
  {}

  // ---- Forks ----

  lemma ForkKeepsForks(s: State, e: Step, t: State, p: nat, o: nat)
    requires Enabled(s, e) && After(s, e, t) && InFork(e) && p < |s.procs| && o < |s.procs|
    requires ForksApart(s, p, o) && PcOk(s, p) && PcOk(s, o)
    ensures ForksApart(t, p, o)
  {}

  lemma OthersKeepForks(s: State, e: Step, t: State, p: nat, o: nat)
    requires p < |s.procs| && o < |s.procs| && ForksApart(s, p, o)
    requires Enabled(s, e) && After(s, e, t) && !InFork(e)
    ensures ForksApart(t, p, o)
  {}

  // ---- Sleepers ----

  lemma ForkKeepsNoticed(s: State, e: Step, t: State, w: nat, o: nat)
    requires Enabled(s, e) && After(s, e, t) && InFork(e) && w < |s.procs| && o < |s.procs|
    requires Noticed(s, w, o) && PcOk(s, e.p) && (0 < s.holder <= |s.procs| ==> PcOk(s, s.holder - 1))
    ensures Noticed(t, w, o)
  {}

  lemma ExitKeepsNoticed(s: State, e: Step, t: State, w: nat, o: nat)
    requires Enabled(s, e) && After(s, e, t) && InExit(e) && w < |s.procs| && o < |s.procs|
    requires Noticed(s, w, o) && PcOk(s, e.p) && PcOk(s, w) && HolderOk(s, e.p) && HolderOk(s, w)
    ensures Noticed(t, w, o)
  {}

  lemma WaitKeepsNoticed(s: State, e: Step, t: State, w: nat, o: nat)
    requires Enabled(s, e) && After(s, e, t) && !InFork(e) && !InExit(e) && w < |s.procs| && o < |s.procs|
    requires Noticed(s, w, o) && PcOk(s, e.p) && PcOk(s, w) && HolderOk(s, e.p) && HolderOk(s, w)
    requires 0 < s.holder <= |s.procs| ==> PcOk(s, s.holder - 1)
    ensures Noticed(t, w, o)
  {}

  // ---- Together ----

  lemma EntryKept(s: State, e: Step, t: State, p: nat)
    requires Inv(s) && Enabled(s, e) && After(s, e, t) && p < |s.procs|
    ensures ParentOk(t, p) && PcOk(t, p)
  {
    assert PcOk(s, p) && PcOk(s, e.p) && ParentOk(s, p) && ParentOk(s, e.p) && ForksApart(s, p, e.p);
    assert HolderOk(s, p) && HolderOk(s, e.p);
    if InFork(e) {
      ForkKeepsParents(s, e, t, p);
      ForkKeepsPcs(s, e, t, p);
    } else if InExit(e) {
      ExitKeepsParents(s, e, t, p);
      if e.Reparent? {
        ReparentKeepsPcs(s, e, t, p);
      } else {
        ExitKeepsPcs(s, e, t, p);
      }
    } else {
      WaitKeepsParents(s, e, t, p);
      WaitKeepsPcs(s, e, t, p);
    }
  }

  lemma PairKept(s: State, e: Step, t: State, p: nat, o: nat)
    requires Inv(s) && Enabled(s, e) && After(s, e, t) && p < |s.procs| && o < |s.procs|
    ensures ForksApart(t, p, o) && Noticed(t, p, o)
  {
    assert ForksApart(s, p, o) && Noticed(s, p, o) && PcOk(s, p) && PcOk(s, o) && PcOk(s, e.p);
    assert HolderOk(s, p) && HolderOk(s, e.p) && (s.holder > 0 ==> PcOk(s, s.holder - 1));
    if InFork(e) {
      ForkKeepsForks(s, e, t, p, o);
      ForkKeepsNoticed(s, e, t, p, o);
    } else {
      OthersKeepForks(s, e, t, p, o);
      if InExit(e) {
        ExitKeepsNoticed(s, e, t, p, o);
      } else {
        WaitKeepsNoticed(s, e, t, p, o);
      }
    }
  }

  lemma StepKeepsInv(s: State, e: Step)
    requires Inv(s) && Enabled(s, e)
    ensures Inv(Next(s, e))
  {
    var t := Next(s, e);
    NextIsAfter(s, e);
    forall p: nat | p < |t.procs| ensures ParentOk(t, p) && PcOk(t, p) && HolderOk(t, p) && ChildrenOk(t, p) {
      EntryKept(s, e, t, p);
      assert HolderOk(s, p) && HolderOk(s, e.p) && PcOk(s, p) && PcOk(s, e.p);
      KeepsHolder(s, e, t, p);
      KeepsChildren(s, e, t, p);
    }
    forall p: nat, o: nat | p < |t.procs| && o < |t.procs| ensures ForksApart(t, p, o) && Noticed(t, p, o) {
      PairKept(s, e, t, p, o);
    }
  }

  // ---- Each exited process is reaped once ----

  ghost predicate PidOk(s: State, p: nat)
    requires p < |s.procs|
  {
    var q := s.procs[p];
    && (q.state != UNUSED ==> q.pid < s.nextpid)
    && (q.state == USED || q.state == ALIVE ==> q.pid !in s.exits)
    && (q.state == ZOMBIE ==> q.pid in s.exits && s.exits[q.pid] == p && q.pid !in s.reaps)
  }

  ghost predicate PidsApart(s: State, p: nat, o: nat)
    requires p < |s.procs| && o < |s.procs|
  {
    p != o && s.procs[p].state != UNUSED && s.procs[o].state != UNUSED ==> s.procs[p].pid != s.procs[o].pid
  }

  /** An exited process that was not reaped is still there as a ZOMBIE. */
  ghost predicate ExitOk(s: State, pid: nat)
    requires pid in s.exits
  {
    && pid < s.nextpid && s.exits[pid] < |s.procs|
    && (pid !in s.reaps ==> s.procs[s.exits[pid]].state == ZOMBIE && s.procs[s.exits[pid]].pid == pid)
  }

  ghost predicate AtMostOnce(pids: seq<nat>) {
    forall i, j | 0 <= i < j < |pids| :: pids[i] != pids[j]
  }

  ghost predicate AllExited(pids: seq<nat>, exits: map<nat, nat>) {
    forall pid | pid in pids :: pid in exits
  }

  ghost predicate History(s: State) {
    && (forall p: nat {:trigger PidOk(s, p)} | p < |s.procs| :: PidOk(s, p))
    && (forall p: nat, o: nat {:trigger PidsApart(s, p, o)} | p < |s.procs| && o < |s.procs| :: PidsApart(s, p, o))
    && (forall pid {:trigger ExitOk(s, pid)} | pid in s.exits :: ExitOk(s, pid))
    && AtMostOnce(s.reaps) && AllExited(s.reaps, s.exits)
  }

  lemma FreshPid(s: State)
    requires History(s)
    ensures s.nextpid !in s.exits
  {
    assert s.nextpid !in s.exits || ExitOk(s, s.nextpid);
  }

  lemma StepKeepsPids(s: State, e: Step, p: nat)
    requires Enabled(s, e) && p < |s.procs| && PidOk(s, p) && PidOk(s, e.p) && PidsApart(s, p, e.p) && PcOk(s, e.p)
    requires AllExited(s.reaps, s.exits) && s.nextpid !in s.exits && (e.Scan? ==> PidsApart(s, p, s.procs[e.p].pc.next))
    ensures PidOk(Next(s, e), p)
  {
    assert Next(s, e).procs[p] == EntryAfter(s, e, p);
  }

  lemma ForkKeepsPidsApart(s: State, e: Step, t: State, p: nat, o: nat)
    requires Enabled(s, e) && After(s, e, t) && InFork(e) && p < |s.procs| && o < |s.procs|
    requires PidsApart(s, p, o) && PidOk(s, p) && PidOk(s, o) && PcOk(s, e.p)
    ensures PidsApart(t, p, o)
  {}

  lemma OthersKeepPidsApart(s: State, e: Step, t: State, p: nat, o: nat)
    requires Enabled(s, e) && After(s, e, t) && !InFork(e) && p < |s.procs| && o < |s.procs|
    requires PidsApart(s, p, o)
    ensures PidsApart(t, p, o)
  {}

  lemma StepKeepsExits(s: State, e: Step, pid: nat)
    requires Inv(s) && History(s) && Enabled(s, e) && pid in Next(s, e).exits
    ensures ExitOk(Next(s, e), pid)
  {
    assert PidOk(s, e.p) && PcOk(s, e.p);
    if pid in s.exits {
      assert ExitOk(s, pid) && PidOk(s, s.exits[pid]);
    }
  }

  lemma StepKeepsReaps(s: State, e: Step)
    requires Inv(s) && History(s) && Enabled(s, e)
    ensures var r := Next(s, e).reaps;
            AtMostOnce(r) && AllExited(r, Next(s, e).exits)
  {
    if e.Scan? {
      assert PidOk(s, s.procs[e.p].pc.next);
    }
  }

  lemma StepKeepsHistory(s: State, e: Step)
    requires Inv(s) && History(s) && Enabled(s, e)
    ensures History(Next(s, e))
  {
    var s' := Next(s, e);
    NextIsAfter(s, e);
    forall p: nat | p < |s'.procs| ensures PidOk(s', p) {
      assert PidOk(s, p) && PidOk(s, e.p) && PidsApart(s, p, e.p) && PcOk(s, e.p);
      assert e.Scan? ==> PidsApart(s, p, s.procs[e.p].pc.next);
      FreshPid(s);
      StepKeepsPids(s, e, p);
    }
    forall p: nat, o: nat | p < |s'.procs| && o < |s'.procs| ensures PidsApart(s', p, o) {
      assert PidsApart(s, p, o) && PidOk(s, p) && PidOk(s, o) && PcOk(s, e.p);
      if InFork(e) {
        ForkKeepsPidsApart(s, e, s', p, o);
      } else {
        OthersKeepPidsApart(s, e, s', p, o);
      }
    }
    forall pid | pid in s'.exits ensures ExitOk(s', pid) {
      StepKeepsExits(s, e, pid);
    }
    StepKeepsReaps(s, e);
  }

  // ---- Runs ----

  /** userinit: only the init process, with pid 1. */
  ghost predicate Initial(s: State) {
    && 0 < |s.procs| && s.procs[INIT] == Proc(ALIVE, 1, 0, Outside)
    && (forall p | 0 < p < |s.procs| :: s.procs[p] == FREE)
    && s.holder == 0 && s.nextpid == 2 && s.exits == map[] && s.reaps == []
  }

  ghost predicate IsRun(states: seq<State>, steps: seq<Step>) {
    && |states| == |steps| + 1 && Initial(states[0])
    && forall i | 0 <= i < |steps| :: Enabled(states[i], steps[i]) && states[i + 1] == Next(states[i], steps[i])
  }

  lemma {:induction false} RunKeepsInv(states: seq<State>, steps: seq<Step>, i: nat)
    requires IsRun(states, steps) && i < |states|
    ensures Inv(states[i]) && History(states[i])
  {
    if i > 0 {
      RunKeepsInv(states, steps, i - 1);
      StepKeepsInv(states[i - 1], steps[i - 1]);
      StepKeepsHistory(states[i - 1], steps[i - 1]);
    }
  }

  /** No process ever has a ZOMBIE or UNUSED parent, and every exited process that has not
      been reaped is a ZOMBIE whose parent is alive to reap it. */
  lemma StaysReapable(states: seq<State>, steps: seq<Step>, i: nat, pid: nat)
    requires IsRun(states, steps) && i < |states|
    ensures forall p | 0 <= p < |states[i].procs| && states[i].procs[p].parent != 0 ::
              Can(states[i], states[i].procs[p].parent - 1)
    ensures pid in states[i].exits && pid !in states[i].reaps ==>
              var s, p := states[i], states[i].exits[pid];
              && p < |s.procs| && s.procs[p].state == ZOMBIE && s.procs[p].pid == pid
              && s.procs[p].parent != 0 && Can(s, s.procs[p].parent - 1)
  {
    RunKeepsInv(states, steps, i);
    var s := states[i];
    forall p | 0 <= p < |s.procs| && s.procs[p].parent != 0 ensures Can(s, s.procs[p].parent - 1) {
      assert ParentOk(s, p);
    }
    if pid in s.exits {
      assert ExitOk(s, pid) && ParentOk(s, s.exits[pid]);
    }
  }

  /** A process is reaped at most once, only after it exited, and by its parent of the moment. */
  lemma ReapedOnceByParent(states: seq<State>, steps: seq<Step>, i: nat)
    requires IsRun(states, steps) && i < |steps|
    ensures AtMostOnce(states[i + 1].reaps) && AllExited(states[i + 1].reaps, states[i + 1].exits)
    ensures states[i + 1].reaps != states[i].reaps ==>
              exists o: nat | o < |states[i].procs| ::
                && states[i].procs[o].state == ZOMBIE && states[i].procs[o].parent == steps[i].p + 1
                && states[i + 1].reaps == states[i].reaps + [states[i].procs[o].pid]
  {
    RunKeepsInv(states, steps, i + 1);
    if states[i + 1].reaps != states[i].reaps {
      var o := states[i].procs[steps[i].p].pc.next;
      assert states[i].procs[o].state == ZOMBIE;
    }
  }

  /** No wakeup of a parent is lost: whenever wait_lock is free, a process that is asleep in
      wait has no ZOMBIE child. */
  lemma NoSleeperHasZombie(states: seq<State>, steps: seq<Step>, i: nat, w: nat, o: nat)
    requires IsRun(states, steps) && i < |states| && w < |states[i].procs| && o < |states[i].procs|
    requires states[i].holder == 0 && states[i].procs[w].pc == Asleep && states[i].procs[o].parent == w + 1
    ensures states[i].procs[o].state != ZOMBIE
  {
    RunKeepsInv(states, steps, i);
    assert Noticed(states[i], w, o);
  }

  // ---- What wait answers ----

  /** wait has seen a child exactly if there is one among the entries it has passed. */
  ghost predicate KidsOk(s: State, w: nat)
    requires w < |s.procs|
  {
    var pc := s.procs[w].pc;
    pc.Scanning? ==> pc.next <= |s.procs| && (pc.kids <==> !Childless(s, w, pc.next))
  }

  /** While a process scans, no step of another changes who is whose child. */
  lemma ParentsFixed(s: State, e: Step, t: State, w: nat, o: nat)
    requires Enabled(s, e) && After(s, e, t) && w < |s.procs| && o < |s.procs| && e.p != w
    requires s.procs[w].pc.Scanning? && HolderOk(s, w) && HolderOk(s, e.p) && PcOk(s, w) && PcOk(s, e.p)
    requires ParentOk(s, o)
    ensures t.procs[o].parent == s.procs[o].parent && t.procs[w].pc == s.procs[w].pc
  {}

  lemma ScanSees(s: State, e: Step, t: State, w: nat)
    requires Enabled(s, e) && After(s, e, t) && e.p == w && KidsOk(s, w) && t.procs[w].pc.Scanning?
    ensures KidsOk(t, w)
  {
    if e.Kill? {
      assert forall o: nat | o < |s.procs| :: NoChild(t, o, w) == NoChild(s, o, w);
      assert Childless(t, w, s.procs[w].pc.next) <==> Childless(s, w, s.procs[w].pc.next);
    } else if e.Scan? {
      var n := s.procs[w].pc.next;
      var m := t.procs[w].pc.next;
      assert forall o: nat | o < |s.procs| :: NoChild(t, o, w) == NoChild(s, o, w);
      assert m == n + 1 && (Childless(t, w, m) <==> Childless(s, w, n) && NoChild(s, n, w));
    }
  }

  lemma StepKeepsKids(s: State, e: Step, w: nat)
    requires Inv(s) && Enabled(s, e) && w < |s.procs| && KidsOk(s, w)
    ensures w < |Next(s, e).procs| && KidsOk(Next(s, e), w)
  {
    var t := Next(s, e);
    NextIsAfter(s, e);
    assert HolderOk(s, w) && HolderOk(s, e.p) && PcOk(s, w) && PcOk(s, e.p);
    if e.p == w {
      if t.procs[w].pc.Scanning? {
        ScanSees(s, e, t, w);
      }
    } else if s.procs[w].pc.Scanning? {
      forall o: nat | o < |s.procs| ensures NoChild(t, o, w) == NoChild(s, o, w) && t.procs[w].pc == s.procs[w].pc {
        assert ParentOk(s, o);
        ParentsFixed(s, e, t, w, o);
      }
      var n := s.procs[w].pc.next;
      assert Childless(t, w, n) <==> Childless(s, w, n);
    }
  }

  lemma {:induction false} RunKeepsKids(states: seq<State>, steps: seq<Step>, i: nat, w: nat)
    requires IsRun(states, steps) && i < |states| && w < |states[i].procs|
    ensures KidsOk(states[i], w)
  {
    if i > 0 {
      RunKeepsInv(states, steps, i - 1);
      assert states[i] == Next(states[i - 1], steps[i - 1]);
      RunKeepsKids(states, steps, i - 1, w);
      StepKeepsKids(states[i - 1], steps[i - 1], w);
    }
  }

  /** kill ends a sleep in wait, and changes nothing else. */
  lemma KillEndsSleep(states: seq<State>, steps: seq<Step>, i: nat, p: nat, o: nat)
    requires IsRun(states, steps) && i < |steps| && steps[i] == Kill(p) && o < |states[i].procs|
    ensures o < |states[i + 1].procs|
    ensures states[i + 1].procs[o] ==
              if o == p && states[i].procs[p].pc == Asleep then states[i].procs[p].(pc := Woken) else states[i].procs[o]
  {
    assert states[i + 1] == Next(states[i], steps[i]);
  }

  /** Over every run, wait returns without a child to reap only when it has no children or was
      killed, and sleeps only when it has children and none of them is a ZOMBIE. */
  lemma WaitAnswers(states: seq<State>, steps: seq<Step>, i: nat, p: nat)
    requires IsRun(states, steps) && i < |steps| && p < |states[i].procs|
    ensures steps[i] == WaitReturn(p, false) ==> Childless(states[i], p, |states[i].procs|)
    ensures steps[i] == WaitSleep(p) ==>
              && (exists o: nat :: o < |states[i].procs| && states[i].procs[o].parent == p + 1)
              && (forall o: nat | o < |states[i].procs| && states[i].procs[o].parent == p + 1 ::
                    states[i].procs[o].state != ZOMBIE)
  {
    var s := states[i];
    assert Enabled(s, steps[i]);
    RunKeepsInv(states, steps, i);
    RunKeepsKids(states, steps, i, p);
    if steps[i] == WaitSleep(p) {
      assert !Childless(s, p, |s.procs|);
      var o: nat :| o < |s.procs| && !NoChild(s, o, p);
      forall o: nat | o < |s.procs| && s.procs[o].parent == p + 1 ensures s.procs[o].state != ZOMBIE {
        assert Noticed(s, p, o);
      }
    }
  }
}
