/** scheduler, sched, yield, sleep, wakeup and kill as steps between lock operations, over
    every interleaving of the CPUs. */
module Scheduling {

  datatype PState = UNUSED | USED | SLEEPING | RUNNABLE | RUNNING | ZOMBIE

  /** Why a process gives up its CPU.  Sleep names the channel and the condition lock, Exit the
      lock it comes with, wait_lock. */
  datatype Why = Start | Yield | Sleep(chan: nat, lk: nat) | Exit(lk: nat)

  /** How far a process's kernel thread has got. */
  datatype PC =
    | None               // no kernel thread
    | Live               // running, own lock not held
    | Locked(why: Why)   // has acquired its own lock
    | Unlocked(why: Why) // sleep: has released the condition lock
    | Marked(why: Why)   // exit: is a ZOMBIE, and has still to release its lock
    | Leaving(why: Why)  // has changed its state, and is about to swtch
    | Parked(why: Why)   // switched out
    | Back(why: Why)     // switched in again, own lock held
    | Wanting(lk: nat)   // sleep: is about to acquire the condition lock again

  /** Who holds p->lock. */
  datatype Holder = Nobody | Scheduler(cpu: nat) | Itself

  datatype Proc = Proc(state: PState, chan: nat, lock: Holder, pc: PC, cpu: nat)

  /** Where a CPU's scheduler loop is. */
  datatype SPC = Idle | Chose(p: nat) | Switched(p: nat) | Returned(p: nat) | Done(p: nat)

  /** c->proc is `current` - 1, or null when `current` is 0. */
  datatype Cpu = Cpu(spc: SPC, current: nat)

  /** A kernel thread, or some other holder of condition locks such as an interrupt handler. */
  datatype Agent = Thread(p: nat) | Other(k: nat)

  /** A wakeup(chan) issued under lk that has dealt with the processes before `next`. */
  datatype Wake = Wake(chan: nat, lk: nat, next: nat)

  datatype State = State(procs: seq<Proc>, cpus: seq<Cpu>, locks: map<nat, Agent>, wakes: map<Agent, Wake>)

  datatype Step =
    // scheduler() on CPU c
    | Choose(c: nat, p: nat)
    | Run(c: nat)
    | Skip(c: nat)
    | Clear(c: nat)
    | Release(c: nat)
    // the kernel thread of process p
    | Acquire(p: nat, why: Why)
    | ReleaseLk(p: nat)
    | SetState(p: nat)
    | Swtch(p: nat)
    | Resume(p: nat)
    | AcquireLk(p: nat)
    // a condition lock
    | Lock(a: Agent, lk: nat)
    | Unlock(a: Agent, lk: nat)
    // wakeup(chan) by a holder of lk
    | WakeBegin(a: Agent, chan: nat, lk: nat)
    | WakeVisit(a: Agent)
    | WakeEnd(a: Agent)
    // critical sections on the lock of a process, by others
    | Alloc(p: nat)
    | MakeRunnable(p: nat)
    | Free(p: nat)
    | Kill(p: nat)

  predicate Active(pc: PC) {
    pc.Live? || pc.Locked? || pc.Unlocked? || pc.Marked? || pc.Leaving? || pc.Back? || pc.Wanting?
  }

  predicate HoldsOwn(pc: PC) {
    pc.Locked? || pc.Unlocked? || pc.Marked? || pc.Leaving? || pc.Back?
  }

  /** The state a process sets before it calls sched. */
  function Target(why: Why): PState {
    match why
    case Start => RUNNABLE
    case Yield => RUNNABLE
    case Sleep(_, _) => SLEEPING
    case Exit(_) => ZOMBIE
  }

  /** The locks that a caller of yield, sleep or exit comes with, and leaves before sched. */
  function Given(why: Why): set<nat> {
    match why
    case Sleep(_, lk) => {lk}
    case Exit(lk) => {lk}
    case _ => {}
  }

  predicate IsLive(s: State, a: Agent) {
    a.Thread? ==> a.p < |s.procs| && s.procs[a.p].pc == Live
  }

  predicate IsProc(s: State, p: nat) {
    p < |s.procs|
  }

  predicate Running(s: State, p: nat, pc: PC) {
    IsProc(s, p) && s.procs[p].pc == pc && Thread(p) !in s.wakes && s.procs[p].cpu < |s.cpus|
  }

  predicate Unheld(s: State, p: nat) {
    IsProc(s, p) && s.procs[p].lock == Nobody
  }

  predicate At(s: State, c: nat, spc: SPC) {
    c < |s.cpus| && s.cpus[c].spc == spc
  }

  predicate Enabled(s: State, e: Step) {
    match e
    case Choose(c, p) => At(s, c, Idle) && Unheld(s, p)
    case Run(c) =>
      && c < |s.cpus| && s.cpus[c].spc.Chose? && IsProc(s, s.cpus[c].spc.p)
      && s.procs[s.cpus[c].spc.p].state == RUNNABLE && s.procs[s.cpus[c].spc.p].pc.Parked?
    case Skip(c) =>
      && c < |s.cpus| && s.cpus[c].spc.Chose? && IsProc(s, s.cpus[c].spc.p)
      && s.procs[s.cpus[c].spc.p].state != RUNNABLE
    case Clear(c) => c < |s.cpus| && s.cpus[c].spc.Returned?
    case Release(c) => c < |s.cpus| && s.cpus[c].spc.Done? && IsProc(s, s.cpus[c].spc.p)
    case Acquire(p, why) =>
      Running(s, p, Live) && Unheld(s, p) && why != Start
      && forall lk | lk in Given(why) :: lk in s.locks && s.locks[lk] == Thread(p)
    case ReleaseLk(p) =>
      IsProc(s, p) && var pc := s.procs[p].pc; (pc.Locked? && pc.why.Sleep?) || (pc.Marked? && pc.why.Exit?)
    case SetState(p) =>
      IsProc(s, p) && if s.procs[p].pc.Unlocked? then true else s.procs[p].pc.Locked? && !s.procs[p].pc.why.Sleep?
    case Swtch(p) => IsProc(s, p) && s.procs[p].pc.Leaving? && s.procs[p].cpu < |s.cpus|
    case Resume(p) => IsProc(s, p) && s.procs[p].pc.Back?
    case AcquireLk(p) => IsProc(s, p) && s.procs[p].pc.Wanting? && s.procs[p].pc.lk !in s.locks
    case Lock(a, lk) => IsLive(s, a) && a !in s.wakes && lk !in s.locks
    case Unlock(a, lk) => IsLive(s, a) && a !in s.wakes && lk in s.locks && s.locks[lk] == a
    case WakeBegin(a, chan, lk) => IsLive(s, a) && a !in s.wakes && lk in s.locks && s.locks[lk] == a
    case WakeVisit(a) =>
      && a in s.wakes && s.wakes[a].next < |s.procs|
      && (a == Thread(s.wakes[a].next) || Unheld(s, s.wakes[a].next))
    case WakeEnd(a) => a in s.wakes && s.wakes[a].next == |s.procs|
    case Alloc(p) => Unheld(s, p) && s.procs[p].state == UNUSED
    case MakeRunnable(p) => Unheld(s, p) && s.procs[p].state == USED
    case Free(p) => Unheld(s, p) && (s.procs[p].state == ZOMBIE || s.procs[p].state == USED)
    case Kill(p) => Unheld(s, p)
  }

  function SetProc(s: State, p: nat, q: Proc): State
    requires p < |s.procs|
  {
    s.(procs := s.procs[p := q])
  }

  function SetCpu(s: State, c: nat, spc: SPC, current: nat): State
    requires c < |s.cpus|
  {
    s.(cpus := s.cpus[c := Cpu(spc, current)])
  }

  function Woken(q: Proc, chan: nat): Proc {
    if q.state == SLEEPING && q.chan == chan then q.(state := RUNNABLE) else q
  }

  function Next(s: State, e: Step): State
    requires Enabled(s, e)
  {
    match e
    case Choose(c, p) => SetCpu(SetProc(s, p, s.procs[p].(lock := Scheduler(c))), c, Chose(p), s.cpus[c].current)
    case Run(c) =>
      var p := s.cpus[c].spc.p;
      var q := s.procs[p].(state := RUNNING, lock := Itself, pc := Back(s.procs[p].pc.why), cpu := c);
      SetCpu(SetProc(s, p, q), c, Switched(p), p + 1)
    case Skip(c) =>
      var p := s.cpus[c].spc.p;
      SetCpu(SetProc(s, p, s.procs[p].(lock := Nobody)), c, Idle, s.cpus[c].current)
    case Clear(c) => SetCpu(s, c, Done(s.cpus[c].spc.p), 0)
    case Release(c) =>
      var p := s.cpus[c].spc.p;
      SetCpu(SetProc(s, p, s.procs[p].(lock := Nobody)), c, Idle, s.cpus[c].current)
    case Acquire(p, why) => SetProc(s, p, s.procs[p].(lock := Itself, pc := Locked(why)))
    case ReleaseLk(p) =>
      var why := s.procs[p].pc.why;
      var pc := if s.procs[p].pc.Marked? then Leaving(why) else Unlocked(why);
      SetProc(s, p, s.procs[p].(pc := pc)).(locks := s.locks - {why.lk})
    case SetState(p) =>
      var why := s.procs[p].pc.why;
      var chan := if why.Sleep? then why.chan else s.procs[p].chan;
      var pc := if why.Exit? then Marked(why) else Leaving(why);
      SetProc(s, p, s.procs[p].(state := Target(why), chan := chan, pc := pc))
    case Swtch(p) =>
      var q := s.procs[p];
      var r := q.(lock := Scheduler(q.cpu), pc := Parked(q.pc.why));
      SetCpu(SetProc(s, p, r), q.cpu, Returned(p), s.cpus[q.cpu].current)
    case Resume(p) =>
      var q := s.procs[p];
      SetProc(s, p, q.(lock := Nobody, chan := if q.pc.why.Sleep? then 0 else q.chan,
                       pc := if q.pc.why.Sleep? then Wanting(q.pc.why.lk) else Live))
    case AcquireLk(p) => SetProc(s, p, s.procs[p].(pc := Live)).(locks := s.locks[s.procs[p].pc.lk := Thread(p)])
    case Lock(a, lk) => s.(locks := s.locks[lk := a])
    case Unlock(a, lk) => s.(locks := s.locks - {lk})
    case WakeBegin(a, chan, lk) => s.(wakes := s.wakes[a := Wake(chan, lk, 0)])
    case WakeVisit(a) =>
      var w := s.wakes[a];
      var s' := if a == Thread(w.next) then s else SetProc(s, w.next, Woken(s.procs[w.next], w.chan));
      s'.(wakes := s.wakes[a := w.(next := w.next + 1)])
    case WakeEnd(a) => s.(wakes := s.wakes - {a})
    case Alloc(p) => SetProc(s, p, s.procs[p].(state := USED))
    case MakeRunnable(p) => SetProc(s, p, s.procs[p].(state := RUNNABLE, pc := Parked(Start)))
    case Free(p) => SetProc(s, p, s.procs[p].(state := UNUSED, chan := 0, pc := None))
    case Kill(p) => SetProc(s, p, if s.procs[p].state == SLEEPING then s.procs[p].(state := RUNNABLE) else s.procs[p])
  }

  // ---- The invariant ----

  /** The state that a process may be in, given how far its thread has got. */
  ghost predicate StateFits(q: Proc) {
    match q.pc
    case None => q.state == UNUSED || q.state == USED
    case Marked(why) => why.Exit? && q.state == ZOMBIE
    case Leaving(why) => q.state == Target(why)
    case Parked(why) => q.state == Target(why) || (why.Sleep? && q.state == RUNNABLE)
    case _ => q.state == RUNNING
  }

  ghost predicate ChanFits(q: Proc) {
    match q.pc
    case Unlocked(why) => why.Sleep?
    case Leaving(why) => why.Sleep? ==> q.chan == why.chan
    case Parked(why) => why.Sleep? ==> q.chan == why.chan
    case _ => true
  }

  ghost predicate ProcOk(s: State, p: nat)
    requires p < |s.procs|
  {
    var q := s.procs[p];
    && StateFits(q) && ChanFits(q)
    && (Active(q.pc) ==> At(s, q.cpu, Switched(p)))
    && (q.lock == Itself <==> HoldsOwn(q.pc))
    && (q.lock.Scheduler? ==>
          At(s, q.lock.cpu, Chose(p)) || At(s, q.lock.cpu, Returned(p)) || At(s, q.lock.cpu, Done(p)))
    && (q.pc.Locked? && q.pc.why.Sleep? ==> q.pc.why.lk in s.locks && s.locks[q.pc.why.lk] == Thread(p))
    && ((q.pc.Locked? || q.pc.Marked?) && q.pc.why.Exit? ==>
          q.pc.why.lk in s.locks && s.locks[q.pc.why.lk] == Thread(p))
  }

  ghost predicate CpuOk(s: State, c: nat)
    requires c < |s.cpus|
  {
    match s.cpus[c].spc
    case Idle => s.cpus[c].current == 0
    case Chose(p) => IsProc(s, p) && s.procs[p].lock == Scheduler(c) && s.cpus[c].current == 0
    case Switched(p) => IsProc(s, p) && Active(s.procs[p].pc) && s.procs[p].cpu == c && s.cpus[c].current == p + 1
    case Returned(p) =>
      IsProc(s, p) && s.procs[p].lock == Scheduler(c) && s.procs[p].pc.Parked? && s.cpus[c].current == p + 1
    case Done(p) => IsProc(s, p) && s.procs[p].lock == Scheduler(c) && s.cpus[c].current == 0
  }

  /** Process q has begun to sleep on chan, giving up lk, and has not been woken. */
  ghost predicate Asleep(q: Proc, chan: nat, lk: nat) {
    || q.pc == Unlocked(Sleep(chan, lk)) || q.pc == Leaving(Sleep(chan, lk))
    || (q.pc == Parked(Sleep(chan, lk)) && q.state == SLEEPING)
  }

  ghost predicate NotAsleep(s: State, p: nat, chan: nat, lk: nat)
    requires p < |s.procs|
  {
    !Asleep(s.procs[p], chan, lk)
  }

  ghost predicate WakeOk(s: State, a: Agent)
    requires a in s.wakes
  {
    var w := s.wakes[a];
    && w.lk in s.locks && s.locks[w.lk] == a && IsLive(s, a) && w.next <= |s.procs|
    && forall p: nat {:trigger NotAsleep(s, p, w.chan, w.lk)} | p < w.next :: NotAsleep(s, p, w.chan, w.lk)
  }

  ghost predicate Inv(s: State) {
    && (forall p: nat {:trigger ProcOk(s, p)} | p < |s.procs| :: ProcOk(s, p))
    && (forall c: nat {:trigger CpuOk(s, c)} | c < |s.cpus| :: CpuOk(s, c))
    && (forall a {:trigger WakeOk(s, a)} | a in s.wakes :: WakeOk(s, a))
  }

  predicate BySchedulerLoop(e: Step) {
    e.Choose? || e.Run? || e.Skip? || e.Clear? || e.Release?
  }

  predicate ByItself(e: Step) {
    e.Acquire? || e.ReleaseLk? || e.SetState? || e.Swtch? || e.Resume? || e.AcquireLk?
  }

  lemma SchedulerKeepsProcs(s: State, e: Step, p: nat)
    requires Inv(s) && Enabled(s, e) && BySchedulerLoop(e) && p < |s.procs|
    ensures ProcOk(Next(s, e), p)
  {
    assert ProcOk(s, p) && CpuOk(s, e.c);
  }

  lemma GoingKeepsProcs(s: State, e: Step, p: nat)
    requires Enabled(s, e) && (e.Acquire? || e.ReleaseLk? || e.SetState?) && p < |s.procs| && ProcOk(s, p)
    requires ProcOk(s, e.p)
    ensures ProcOk(Next(s, e), p)
  {}

  lemma SwtchKeepsProcs(s: State, e: Step, p: nat)
    requires Enabled(s, e) && e.Swtch? && p < |s.procs| && ProcOk(s, p) && ProcOk(s, e.p)
    ensures ProcOk(Next(s, e), p)
  {}

  lemma ComingKeepsProcs(s: State, e: Step, p: nat)
    requires Enabled(s, e) && (e.Resume? || e.AcquireLk?) && p < |s.procs| && ProcOk(s, p) && ProcOk(s, e.p)
    ensures ProcOk(Next(s, e), p)
  {}

  lemma ThreadKeepsProcs(s: State, e: Step, p: nat)
    requires Inv(s) && Enabled(s, e) && ByItself(e) && p < |s.procs|
    ensures ProcOk(Next(s, e), p)
  {
    assert ProcOk(s, p) && ProcOk(s, e.p);
    if e.Acquire? || e.ReleaseLk? || e.SetState? {
      GoingKeepsProcs(s, e, p);
    } else if e.Swtch? {
      SwtchKeepsProcs(s, e, p);
    } else {
      ComingKeepsProcs(s, e, p);
    }
  }

  lemma OthersKeepProcs(s: State, e: Step, p: nat)
    requires Inv(s) && Enabled(s, e) && !ByItself(e) && !BySchedulerLoop(e) && p < |s.procs|
    ensures ProcOk(Next(s, e), p)
  {
    assert ProcOk(s, p);
  }

  lemma SchedulerKeepsCpus(s: State, e: Step, c: nat)
    requires Inv(s) && Enabled(s, e) && BySchedulerLoop(e) && c < |s.cpus|
    ensures CpuOk(Next(s, e), c)
  {
    assert CpuOk(s, c) && CpuOk(s, e.c);
    var p := if e.Choose? then e.p else s.cpus[e.c].spc.p;
    assert ProcOk(s, p);
  }

  lemma ThreadKeepsCpus(s: State, e: Step, c: nat)
    requires Inv(s) && Enabled(s, e) && ByItself(e) && c < |s.cpus|
    ensures CpuOk(Next(s, e), c)
  {
    assert CpuOk(s, c) && ProcOk(s, e.p);
  }

  lemma OthersKeepCpus(s: State, e: Step, c: nat)
    requires Inv(s) && Enabled(s, e) && !ByItself(e) && !BySchedulerLoop(e) && c < |s.cpus|
    ensures CpuOk(Next(s, e), c)
  {
    assert CpuOk(s, c);
    if e.Alloc? || e.MakeRunnable? || e.Free? || e.Kill? {
      assert ProcOk(s, e.p);
    }
  }

  lemma ThreadStaysAwake(s: State, e: Step, a: Agent, p: nat)
    requires Enabled(s, e) && a in s.wakes && p < |s.procs| && ProcOk(s, p)
    requires s.wakes[a].lk in s.locks && s.locks[s.wakes[a].lk] == a && IsLive(s, a)
    requires NotAsleep(s, p, s.wakes[a].chan, s.wakes[a].lk)
    requires ByItself(e)
    ensures p < |Next(s, e).procs| && NotAsleep(Next(s, e), p, s.wakes[a].chan, s.wakes[a].lk)
  {}

  lemma OthersStayAwake(s: State, e: Step, a: Agent, p: nat)
    requires Enabled(s, e) && a in s.wakes && p < |s.procs| && ProcOk(s, p)
    requires s.wakes[a].lk in s.locks && s.locks[s.wakes[a].lk] == a && IsLive(s, a)
    requires NotAsleep(s, p, s.wakes[a].chan, s.wakes[a].lk)
    requires !ByItself(e)
    ensures p < |Next(s, e).procs| && NotAsleep(Next(s, e), p, s.wakes[a].chan, s.wakes[a].lk)
  {}

  /** A step leaves a process that a wakeup has dealt with awake, as long as the wakeup's
      issuer holds the condition lock. */
  lemma StaysAwake(s: State, e: Step, a: Agent, p: nat)
    requires Enabled(s, e) && a in s.wakes && p < |s.procs| && ProcOk(s, p)
    requires s.wakes[a].lk in s.locks && s.locks[s.wakes[a].lk] == a && IsLive(s, a)
    requires NotAsleep(s, p, s.wakes[a].chan, s.wakes[a].lk)
    ensures p < |Next(s, e).procs| && NotAsleep(Next(s, e), p, s.wakes[a].chan, s.wakes[a].lk)
  {
    if ByItself(e) {
      ThreadStaysAwake(s, e, a, p);
    } else {
      OthersStayAwake(s, e, a, p);
    }
  }

  /** The process that a wakeup visits is awake afterwards. */
  lemma VisitWakes(s: State, a: Agent)
    requires Inv(s) && Enabled(s, WakeVisit(a))
    ensures var w := s.wakes[a];
            w.next < |s.procs| && NotAsleep(Next(s, WakeVisit(a)), w.next, w.chan, w.lk)
  {
    assert WakeOk(s, a) && ProcOk(s, s.wakes[a].next);
  }

  lemma StepKeepsWakes(s: State, e: Step, a: Agent)
    requires Inv(s) && Enabled(s, e) && a in Next(s, e).wakes
    ensures WakeOk(Next(s, e), a)
  {
    var s' := Next(s, e);
    if a in s.wakes {
      assert WakeOk(s, a);
      assert a.Thread? ==> ProcOk(s, a.p);
      assert e.ReleaseLk? ==> ProcOk(s, e.p);
    }
    var w := s'.wakes[a];
    forall p: nat | p < w.next ensures p < |s'.procs| && NotAsleep(s', p, w.chan, w.lk) {
      if e == WakeVisit(a) && p == s.wakes[a].next {
        VisitWakes(s, a);
      } else {
        assert NotAsleep(s, p, w.chan, w.lk) && ProcOk(s, p);
        StaysAwake(s, e, a, p);
      }
    }
  }

  lemma StepKeepsInv(s: State, e: Step)
    requires Inv(s) && Enabled(s, e)
    ensures Inv(Next(s, e))
  {
    var s' := Next(s, e);
    SameShape(s, e);
    forall p: nat | p < |s'.procs| ensures ProcOk(s', p) {
      if BySchedulerLoop(e) {
        SchedulerKeepsProcs(s, e, p);
      } else if ByItself(e) {
        ThreadKeepsProcs(s, e, p);
      } else {
        OthersKeepProcs(s, e, p);
      }
    }
    forall c: nat | c < |s'.cpus| ensures CpuOk(s', c) {
      if BySchedulerLoop(e) {
        SchedulerKeepsCpus(s, e, c);
      } else if ByItself(e) {
        ThreadKeepsCpus(s, e, c);
      } else {
        OthersKeepCpus(s, e, c);
      }
    }
    forall a | a in s'.wakes ensures WakeOk(s', a) {
      StepKeepsWakes(s, e, a);
    }
  }

  lemma SameShape(s: State, e: Step)
    requires Enabled(s, e)
    ensures |Next(s, e).procs| == |s.procs| && |Next(s, e).cpus| == |s.cpus|
  {}

  // ---- Runs ----

  /** procinit and userinit: every entry is UNUSED but the first process, which is RUNNABLE. */
  ghost predicate Initial(s: State) {
    && (forall p | 0 <= p < |s.procs| ::
          s.procs[p] == if p == 0 then Proc(RUNNABLE, 0, Nobody, Parked(Start), 0)
                        else Proc(UNUSED, 0, Nobody, None, 0))
    && (forall c | 0 <= c < |s.cpus| :: s.cpus[c] == Cpu(Idle, 0))
    && s.locks == map[] && s.wakes == map[]
  }

  ghost predicate IsRun(states: seq<State>, steps: seq<Step>) {
    && |states| == |steps| + 1 && Initial(states[0])
    && forall i | 0 <= i < |steps| :: Enabled(states[i], steps[i]) && states[i + 1] == Next(states[i], steps[i])
  }

  lemma {:induction false} RunKeepsInv(states: seq<State>, steps: seq<Step>, i: nat)
    requires IsRun(states, steps) && i < |states|
    ensures Inv(states[i])
  {
    if i > 0 {
      RunKeepsInv(states, steps, i - 1);
      StepKeepsInv(states[i - 1], steps[i - 1]);
    }
  }

  predicate RunsOn(s: State, p: nat, c: nat) {
    c < |s.cpus| && s.cpus[c].current == p + 1
  }

  /** A process is current on at most one CPU, and while its lock is free it is RUNNING exactly
      when some CPU runs it. */
  lemma OneCpu(states: seq<State>, steps: seq<Step>, i: nat, p: nat)
    requires IsRun(states, steps) && i < |states| && p < |states[i].procs|
    ensures forall c: nat, d: nat :: RunsOn(states[i], p, c) && RunsOn(states[i], p, d) ==> c == d
    ensures states[i].procs[p].lock == Nobody ==>
              (states[i].procs[p].state == RUNNING <==> exists c: nat :: RunsOn(states[i], p, c))
  {
    RunKeepsInv(states, steps, i);
    var s := states[i];
    assert ProcOk(s, p);
    forall c: nat, d: nat | RunsOn(s, p, c) && RunsOn(s, p, d) ensures c == d {
      assert CpuOk(s, c) && CpuOk(s, d);
    }
    var q := s.procs[p];
    if q.lock == Nobody && q.state == RUNNING {
      assert CpuOk(s, q.cpu) && RunsOn(s, p, q.cpu);
    }
    forall c: nat | RunsOn(s, p, c) ensures q.lock == Nobody ==> q.state == RUNNING {
      assert CpuOk(s, c);
    }
  }

  /** When a wakeup issued under lk is over, no process that gave up lk to sleep on its channel
      is left asleep. */
  lemma NoLostWakeup(states: seq<State>, steps: seq<Step>, i: nat, p: nat)
    requires IsRun(states, steps) && i < |steps| && steps[i].WakeEnd? && p < |states[i].procs|
    ensures var w := states[i].wakes[steps[i].a];
            p < |states[i + 1].procs| && NotAsleep(states[i + 1], p, w.chan, w.lk)
  {
    RunKeepsInv(states, steps, i);
    var s := states[i];
    assert WakeOk(s, steps[i].a);
    assert NotAsleep(s, p, s.wakes[steps[i].a].chan, s.wakes[steps[i].a].lk);
  }

  /** What the state of a process says about its thread: one that is SLEEPING went to sleep on
      the channel it is on, one that yielded is RUNNABLE, and a ZOMBIE came from exit. */
  lemma StatesAreTrue(states: seq<State>, steps: seq<Step>, i: nat, p: nat)
    requires IsRun(states, steps) && i < |states| && p < |states[i].procs|
    ensures var q := states[i].procs[p];
            && (q.state == SLEEPING ==> && (q.pc.Leaving? || q.pc.Parked?) && q.pc.why.Sleep?
                                        && q.chan == q.pc.why.chan)
            && (q.state == ZOMBIE ==> (q.pc.Marked? || q.pc.Leaving? || q.pc.Parked?) && q.pc.why.Exit?)
            && (q.pc.Parked? && q.pc.why == Yield ==> q.state == RUNNABLE)
            && (q.pc == Live <==> q.state == RUNNING && q.lock != Itself && !q.pc.Wanting?)
  {
    RunKeepsInv(states, steps, i);
    assert ProcOk(states[i], p);
  }

  lemma WokenBy(s: State, e: Step, p: nat)
    requires Enabled(s, e) && p < |s.procs| && s.procs[p].state == SLEEPING && ProcOk(s, p)
    ensures p < |Next(s, e).procs|
    ensures Next(s, e).procs[p].state != SLEEPING ==>
              e == Kill(p) || (e.WakeVisit? && s.wakes[e.a].chan == s.procs[p].chan)
  {}

  /** A process that is asleep stays so but for a kill and a wakeup on its own channel. */
  lemma WokenOnlyBy(states: seq<State>, steps: seq<Step>, i: nat, p: nat)
    requires IsRun(states, steps) && i < |steps| && p < |states[i].procs| && states[i].procs[p].state == SLEEPING
    ensures p < |states[i + 1].procs|
    ensures states[i + 1].procs[p].state != SLEEPING ==>
              || steps[i] == Kill(p)
              || (steps[i].WakeVisit? && states[i].wakes[steps[i].a].chan == states[i].procs[p].chan)
  {
    RunKeepsInv(states, steps, i);
    assert ProcOk(states[i], p);
    WokenBy(states[i], steps[i], p);
  }

  /** kill leaves no process asleep that it is meant for, and no other process changes. */
  lemma KillWakes(states: seq<State>, steps: seq<Step>, i: nat, p: nat, o: nat)
    requires IsRun(states, steps) && i < |steps| && steps[i] == Kill(p) && o < |states[i].procs|
    ensures p < |states[i + 1].procs| == |states[i].procs| && states[i + 1].procs[p].state != SLEEPING
    ensures o != p ==> states[i + 1].procs[o] == states[i].procs[o]
  {}

  /** A thread on its way back from sleep with lk. */
  ghost predicate Rising(s: State, p: nat, lk: nat)
    requires p < |s.procs|
  {
    var pc := s.procs[p].pc;
    ((pc.Parked? || pc.Back?) && pc.why.Sleep? && pc.why.lk == lk) || pc == Wanting(lk)
  }

  lemma RisingStep(s: State, e: Step, p: nat, lk: nat)
    requires Enabled(s, e) && p < |s.procs| && ProcOk(s, p) && Rising(s, p, lk)
    ensures p < |Next(s, e).procs|
    ensures Rising(Next(s, e), p, lk)
            || (Next(s, e).procs[p].pc == Live && lk in Next(s, e).locks && Next(s, e).locks[lk] == Thread(p))
  {}

  /** sleep returns with the lock that it gave up: from the moment it switched away, a thread is
      on its way back until it holds that lock again. */
  lemma SleepReturnsLocked(states: seq<State>, steps: seq<Step>, i: nat, p: nat, lk: nat)
    requires IsRun(states, steps) && i < |steps| && p < |states[i].procs| && Rising(states[i], p, lk)
    ensures p < |states[i + 1].procs|
    ensures Rising(states[i + 1], p, lk)
            || (states[i + 1].procs[p].pc == Live && lk in states[i + 1].locks && states[i + 1].locks[lk] == Thread(p))
  {
    RunKeepsInv(states, steps, i);
    assert ProcOk(states[i], p);
    RisingStep(states[i], steps[i], p, lk);
  }

  /** sched finds the process's lock held and its state no longer RUNNING; the scheduler finds
      a context to switch to in every RUNNABLE process whose lock it holds; and a parent that
      finds a ZOMBIE, and holds its lock, finds it off its CPU for good. */
  lemma SwitchesAreSafe(states: seq<State>, steps: seq<Step>, i: nat, p: nat)
    requires IsRun(states, steps) && i < |states| && p < |states[i].procs|
    ensures states[i].procs[p].pc.Leaving? ==> states[i].procs[p].lock == Itself && states[i].procs[p].state != RUNNING
    ensures states[i].procs[p].lock.Scheduler? && states[i].procs[p].state == RUNNABLE ==> states[i].procs[p].pc.Parked?
    ensures states[i].procs[p].lock == Nobody && states[i].procs[p].state == ZOMBIE ==>
              states[i].procs[p].pc.Parked? && states[i].procs[p].pc.why.Exit?
  {
    RunKeepsInv(states, steps, i);
    assert ProcOk(states[i], p);
  }

  // ---- sched's count of locks ----

  /** The condition locks that the thread of process p holds. */
  function Held(s: State, p: nat): set<nat> {
    set lk | lk in s.locks && s.locks[lk] == Thread(p)
  }

  /** mycpu()->noff in sched: the thread's own lock, and the others it holds. */
  function Noff(s: State, p: nat): nat
    requires p < |s.procs|
  {
    (if s.procs[p].lock == Itself then 1 else 0) + |Held(s, p)|
  }

  /** The thread is between acquiring its own lock and switching away. */
  predicate Going(s: State, p: nat) {
    p < |s.procs| && var pc := s.procs[p].pc; pc.Locked? || pc.Unlocked? || pc.Marked? || pc.Leaving?
  }

  /** What the thread still holds of the locks it came with. */
  ghost predicate HeldSince(s: State, p: nat, why: Why, held: set<nat>) {
    && Going(s, p) && s.procs[p].pc.why == why
    && Held(s, p) == if s.procs[p].pc.Locked? || s.procs[p].pc.Marked? then held else held - Given(why)
  }

  /** No step but its own release changes what a thread holds on the way to sched. */
  lemma HeldKept(s: State, e: Step, p: nat)
    requires Enabled(s, e) && Going(s, p) && e != ReleaseLk(p) && (e.ReleaseLk? ==> ProcOk(s, e.p))
    ensures Held(Next(s, e), p) == Held(s, p)
  {}

  lemma HeldReleased(s: State, p: nat, why: Why, held: set<nat>)
    requires Enabled(s, ReleaseLk(p)) && HeldSince(s, p, why, held)
    ensures HeldSince(Next(s, ReleaseLk(p)), p, why, held)
  {}

  lemma HeldStep(s: State, e: Step, p: nat, why: Why, held: set<nat>)
    requires Enabled(s, e) && HeldSince(s, p, why, held) && Going(Next(s, e), p)
    requires ProcOk(s, p) && (e.ReleaseLk? ==> ProcOk(s, e.p))
    ensures HeldSince(Next(s, e), p, why, held)
  {
    if e == ReleaseLk(p) {
      HeldReleased(s, p, why, held);
    } else {
      HeldKept(s, e, p);
    }
  }

  lemma HeldStart(s: State, p: nat, why: Why)
    requires Enabled(s, Acquire(p, why))
    ensures HeldSince(Next(s, Acquire(p, why)), p, why, Held(s, p))
  {}

  ghost predicate StepAt(states: seq<State>, steps: seq<Step>, k: nat)
    requires k < |steps| < |states|
  {
    Inv(states[k]) && Enabled(states[k], steps[k]) && states[k + 1] == Next(states[k], steps[k])
  }

  lemma HeldNext(states: seq<State>, steps: seq<Step>, k: nat, p: nat, why: Why, held: set<nat>)
    requires k < |steps| < |states| && StepAt(states, steps, k) && Going(states[k + 1], p)
    requires HeldSince(states[k], p, why, held)
    ensures HeldSince(states[k + 1], p, why, held)
  {
    assert ProcOk(states[k], p) && (steps[k].ReleaseLk? ==> ProcOk(states[k], steps[k].p));
    HeldStep(states[k], steps[k], p, why, held);
  }

  lemma {:induction false} HeldRun(states: seq<State>, steps: seq<Step>, i: nat, n: nat, p: nat, why: Why)
    requires i < n < |states| == |steps| + 1 && steps[i] == Acquire(p, why)
    requires forall k: nat {:trigger StepAt(states, steps, k)} | i <= k < n :: StepAt(states, steps, k)
    requires forall k {:trigger Going(states[k], p)} | i < k <= n :: Going(states[k], p)
    ensures HeldSince(states[n], p, why, Held(states[i], p))
  {
    assert StepAt(states, steps, n - 1);
    if n == i + 1 {
      HeldStart(states[i], p, why);
    } else {
      HeldRun(states, steps, i, n - 1, p, why);
      HeldNext(states, steps, n - 1, p, why, Held(states[i], p));
    }
  }

  /** sched's test of noff passes exactly when its caller, on acquiring p->lock, held nothing
      but the condition lock of sleep or the wait_lock of exit. */
  lemma SchedHoldsOneLockIff(states: seq<State>, steps: seq<Step>, i: nat, n: nat, p: nat, why: Why)
    requires IsRun(states, steps) && i < n < |states| && steps[i] == Acquire(p, why)
    requires forall k {:trigger Going(states[k], p)} | i < k <= n :: Going(states[k], p)
    requires Going(states[n], p) && states[n].procs[p].pc.Leaving?
    ensures Noff(states[n], p) == 1 <==> Held(states[i], p) <= Given(why)
  {
    forall k: nat | i <= k < n ensures StepAt(states, steps, k) {
      RunKeepsInv(states, steps, k);
    }
    HeldRun(states, steps, i, n, p, why);
    RunKeepsInv(states, steps, n);
    assert ProcOk(states[n], p);
  }
}
