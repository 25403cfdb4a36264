/** Pipes: a ring of PIPESIZE bytes addressed by two wrapping 32-bit counters. */
module Pipe {

  const PIPESIZE := 512
  /** One more than the largest unsigned 32-bit number. */
  const WRAP := 0x1_0000_0000

  datatype Ring = Ring(data: seq<nat>, nread: nat, nwrite: nat, readopen: bool, writeopen: bool)

  function Inc(c: nat): nat {
    (c + 1) % WRAP
  }

  predicate Empty(r: Ring) {
    r.nread == r.nwrite
  }

  predicate Full(r: Ring) {
    r.nwrite == (r.nread + PIPESIZE) % WRAP
  }

  ghost predicate Slot(data: seq<nat>, put: seq<nat>, k: nat)
    requires |data| == PIPESIZE && k < |put|
  {
    data[k % PIPESIZE] == put[k]
  }

  /** The ring after the bytes `put` went in and the first `taken` of them came out. */
  ghost predicate RingOk(r: Ring, put: seq<nat>, taken: nat) {
    && |r.data| == PIPESIZE
    && r.nread == taken % WRAP && r.nwrite == |put| % WRAP
    && taken <= |put| <= taken + PIPESIZE
    && (forall k: nat {:trigger Slot(r.data, put, k)} | taken <= k < |put| :: Slot(r.data, put, k))
  }

  lemma WrapKeepsSlot(x: nat)
    ensures x % WRAP % PIPESIZE == x % PIPESIZE
  {
    assert x == PIPESIZE * (8388608 * (x / WRAP)) + x % WRAP;
  }

  lemma IncIs(x: nat)
    ensures Inc(x % WRAP) == (x + 1) % WRAP
  {}

  /** Wrapping does not confuse empty, full and anything in between. */
  lemma TestsAreExact(r: Ring, put: seq<nat>, taken: nat)
    requires RingOk(r, put, taken)
    ensures Empty(r) <==> taken == |put|
    ensures Full(r) <==> |put| == taken + PIPESIZE
  {
    var d := |put| - taken;
    assert |put| % WRAP == (taken % WRAP + d) % WRAP;
  }

  // pi->data[pi->nwrite++ % PIPESIZE] = ch
  function Put(r: Ring, ch: nat): Ring
    requires |r.data| == PIPESIZE
  {
    r.(data := r.data[r.nwrite % PIPESIZE := ch], nwrite := Inc(r.nwrite))
  }

  // pi->data[pi->nread % PIPESIZE]
  function Next(r: Ring): nat
    requires |r.data| == PIPESIZE
  {
    r.data[r.nread % PIPESIZE]
  }

  lemma PutKeepsRing(r: Ring, put: seq<nat>, taken: nat, ch: nat)
    requires RingOk(r, put, taken) && !Full(r)
    ensures RingOk(Put(r, ch), put + [ch], taken)
  {
    TestsAreExact(r, put, taken);
    WrapKeepsSlot(|put|);
    IncIs(|put|);
    var data, put' := Put(r, ch).data, put + [ch];
    forall k: nat | taken <= k < |put'| ensures Slot(data, put', k) {
      if k < |put| {
        assert Slot(r.data, put, k);
        NoClash(k, |put|);
      }
    }
  }

  lemma NoClash(k: nat, n: nat)
    requires k < n < k + PIPESIZE
    ensures k % PIPESIZE != n % PIPESIZE
  {}

  lemma TakeKeepsRing(r: Ring, put: seq<nat>, taken: nat)
    requires RingOk(r, put, taken) && !Empty(r)
    ensures Next(r) == put[taken] && RingOk(r.(nread := Inc(r.nread)), put, taken + 1)
  {
    TestsAreExact(r, put, taken);
    WrapKeepsSlot(taken);
    IncIs(taken);
    assert Slot(r.data, put, taken);
    forall k: nat | taken + 1 <= k < |put| ensures Slot(r.data, put, k) {}
  }

  // ---- Every interleaving ----

  /** What a process is doing with the pipe: the bytes it writes and how many are in, or how
      many it wants and what it has got. */
  datatype Call = Writing(src: seq<nat>, i: nat) | Reading(n: nat, got: seq<nat>)

  /** A byte that went into or came out of the pipe, and the process that moved it.  A byte
      is not delivered when copyout fails after it was taken. */
  datatype Event = Event(proc: nat, ch: nat, delivered: bool)

  datatype System = System(ring: Ring, calls: map<nat, Call>, ins: seq<Event>, outs: seq<Event>)

  datatype Step =
    | StartWrite(p: nat, src: seq<nat>)
    | StartRead(p: nat, n: nat)
    | WriteByte(p: nat)
    | ReadByte(p: nat, copied: bool)
    | Return(p: nat)
    | Close(writable: bool)

  /** One pass through the loop of pipewrite or piperead.  A process that finds the pipe full
      or empty sleeps, and takes no step until that changes; a call may return at any point,
      since it does so when it is done, killed, or the other end is closed. */
  predicate Enabled(s: System, a: Step) {
    match a
    case StartWrite(p, src) => p !in s.calls
    case StartRead(p, n) => p !in s.calls
    case WriteByte(p) =>
      p in s.calls && s.calls[p].Writing? && s.calls[p].i < |s.calls[p].src| && s.ring.readopen && !Full(s.ring)
    case ReadByte(p, copied) =>
      p in s.calls && s.calls[p].Reading? && |s.calls[p].got| < s.calls[p].n && !Empty(s.ring)
    case Return(p) => p in s.calls
    case Close(writable) => true
  }

  function Do(s: System, a: Step): System
    requires Enabled(s, a) && |s.ring.data| == PIPESIZE
  {
    match a
    case StartWrite(p, src) => s.(calls := s.calls[p := Writing(src, 0)])
    case StartRead(p, n) => s.(calls := s.calls[p := Reading(n, [])])
    case WriteByte(p) =>
      var c := s.calls[p];
      System(Put(s.ring, c.src[c.i]), s.calls[p := Writing(c.src, c.i + 1)],
             s.ins + [Event(p, c.src[c.i], true)], s.outs)
    case ReadByte(p, copied) =>
      var c, ch := s.calls[p], Next(s.ring);
      System(s.ring.(nread := Inc(s.ring.nread)),
             if copied then s.calls[p := Reading(c.n, c.got + [ch])] else s.calls - {p},
             s.ins, s.outs + [Event(p, ch, copied)])
    case Return(p) => s.(calls := s.calls - {p})
    case Close(writable) =>
      if writable then s.(ring := s.ring.(writeopen := false)) else s.(ring := s.ring.(readopen := false))
  }

  function Bytes(events: seq<Event>): seq<nat> {
    seq(|events|, i requires 0 <= i < |events| => events[i].ch)
  }

  /** The bytes that one process moved, in order. */
  function By(events: seq<Event>, p: nat): (r: seq<nat>) {
    if events == [] then []
    else
      var e := events[|events| - 1];
      By(events[..|events| - 1], p) + (if e.proc == p && e.delivered then [e.ch] else [])
  }

  ghost predicate EndsWith(s: seq<nat>, t: seq<nat>) {
    |t| <= |s| && s[|s| - |t|..] == t
  }

  ghost predicate CallOk(s: System, p: nat)
    requires p in s.calls
  {
    match s.calls[p]
    case Writing(src, i) => i <= |src| && EndsWith(By(s.ins, p), src[..i])
    case Reading(n, got) => |got| <= n && EndsWith(By(s.outs, p), got)
  }

  /** First in, first out: what came out is a prefix of what went in, at most PIPESIZE bytes
      are inside, and every call in progress has moved its own bytes in order. */
  ghost predicate Fifo(s: System) {
    && |s.outs| <= |s.ins| <= |s.outs| + PIPESIZE
    && Bytes(s.outs) == Bytes(s.ins)[..|s.outs|]
    && (forall p {:trigger CallOk(s, p)} | p in s.calls :: CallOk(s, p))
  }

  ghost predicate Inv(s: System) {
    RingOk(s.ring, Bytes(s.ins), |s.outs|) && Fifo(s)
  }

  lemma BytesMore(events: seq<Event>, e: Event)
    ensures Bytes(events + [e]) == Bytes(events) + [e.ch]
  {}

  lemma ByMore(events: seq<Event>, e: Event, p: nat)
    ensures By(events + [e], p) == By(events, p) + (if e.proc == p && e.delivered then [e.ch] else [])
  {
    assert (events + [e])[..|events|] == events;
  }

  lemma EndsMore(s: seq<nat>, t: seq<nat>, ch: nat)
    requires EndsWith(s, t)
    ensures EndsWith(s + [ch], t + [ch])
  {
    var k := |s| - |t|;
    assert (s + [ch])[k..] == s[k..] + [ch];
  }

  lemma StepKeepsInv(s: System, a: Step)
    requires Inv(s) && Enabled(s, a)
    ensures Inv(Do(s, a))
  {
    var s' := Do(s, a);
    match a {
      case WriteByte(p) => WriteKeepsInv(s, p);
      case ReadByte(p, copied) => ReadKeepsInv(s, p, copied);
      case _ =>
        forall q | q in s'.calls ensures CallOk(s', q) {
          if q in s.calls && s'.calls[q] == s.calls[q] {
            assert CallOk(s, q);
          }
        }
        assert RingOk(s'.ring, Bytes(s'.ins), |s'.outs|) by {
          forall k: nat | |s.outs| <= k < |Bytes(s.ins)| ensures Slot(s'.ring.data, Bytes(s.ins), k) {
            assert Slot(s.ring.data, Bytes(s.ins), k);
          }
        }
    }
  }

  lemma WriteKeepsInv(s: System, p: nat)
    requires Inv(s) && Enabled(s, WriteByte(p))
    ensures Inv(Do(s, WriteByte(p)))
  {
    var s', c := Do(s, WriteByte(p)), s.calls[p];
    var e := Event(p, c.src[c.i], true);
    TestsAreExact(s.ring, Bytes(s.ins), |s.outs|);
    PutKeepsRing(s.ring, Bytes(s.ins), |s.outs|, e.ch);
    BytesMore(s.ins, e);
    forall q | q in s'.calls ensures CallOk(s', q) {
      assert CallOk(s, q);
      ByMore(s.ins, e, q);
      if q == p {
        EndsMore(By(s.ins, p), c.src[..c.i], e.ch);
        assert c.src[..c.i + 1] == c.src[..c.i] + [e.ch];
      }
    }
  }

  lemma ReadKeepsInv(s: System, p: nat, copied: bool)
    requires Inv(s) && Enabled(s, ReadByte(p, copied))
    ensures Inv(Do(s, ReadByte(p, copied)))
  {
    var s', c := Do(s, ReadByte(p, copied)), s.calls[p];
    var e, ins, n := Event(p, Next(s.ring), copied), Bytes(s.ins), |s.outs|;
    TestsAreExact(s.ring, ins, n);
    TakeKeepsRing(s.ring, ins, n);
    BytesMore(s.outs, e);
    assert ins[..n + 1] == ins[..n] + [ins[n]];
    forall q | q in s'.calls ensures CallOk(s', q) {
      assert CallOk(s, q);
      ByMore(s.outs, e, q);
      if q == p {
        EndsMore(By(s.outs, p), c.got, e.ch);
      }
    }
  }

  function Start(data: seq<nat>): System {
    System(Ring(data, 0, 0, true, true), map[], [], [])
  }

  ghost predicate IsRun(states: seq<System>, steps: seq<Step>) {
    && |states| == |steps| + 1
    && |states[0].ring.data| == PIPESIZE && states[0] == Start(states[0].ring.data)
    && forall i | 0 <= i < |steps| ::
         Enabled(states[i], steps[i]) && |states[i].ring.data| == PIPESIZE && states[i + 1] == Do(states[i], steps[i])
  }

  lemma {:induction false} RunIsFifo(states: seq<System>, steps: seq<Step>, i: nat)
    requires IsRun(states, steps) && i < |states|
    ensures Inv(states[i])
  {
    if i > 0 {
      RunIsFifo(states, steps, i - 1);
      StepKeepsInv(states[i - 1], steps[i - 1]);
    }
  }

  // ---- The code ----

  /** How a stretch of code run under pi->lock ends: it sleeps, returns a count, or returns -1. */
  datatype Outcome = Asleep | Returned | Failed

  class PipeBuffer {
    const data: array<nat>
    var nread: nat
    var nwrite: nat
    var readopen: bool
    var writeopen: bool
    ghost var put: seq<nat>
    ghost var taken: nat

    function View(): Ring
      reads this, data
    {
      Ring(data[..], nread, nwrite, readopen, writeopen)
    }

    ghost predicate Valid()
      reads this, data
    {
      RingOk(View(), put, taken)
    }

    constructor ()
      ensures Valid() && fresh(data) && put == [] && taken == 0 && readopen && writeopen
    {
      data := new nat[PIPESIZE];
      nread, nwrite, readopen, writeopen := 0, 0, true, true;
      put, taken := [], 0;
    }

    method PutByte(ch: nat)
      requires Valid() && !Full(View())
      modifies this`nwrite, this`put, data
      ensures Valid() && put == old(put) + [ch]
    {
      PutKeepsRing(View(), put, taken, ch);
      ghost var view := Put(View(), ch);
      data[nwrite % PIPESIZE] := ch;
      nwrite := Inc(nwrite);
      put := put + [ch];
      assert View() == view;
    }

    method TakeByte() returns (ch: nat)
      requires Valid() && !Empty(View())
      modifies this`nread, this`taken
      ensures Valid() && old(taken) < |put| && taken == old(taken) + 1 && ch == put[old(taken)]
    {
      TestsAreExact(View(), put, taken);
      TakeKeepsRing(View(), put, taken);
      ghost var view := View().(nread := Inc(nread));
      ch := data[nread % PIPESIZE];
      nread := Inc(nread);
      taken := taken + 1;
      assert View() == view;
    }

    /** pipewrite from byte i on, until it returns or sleeps.  killed(k) and fault(k) are what
        killed and copyin report when k bytes have been written. */
    method Write(src: seq<nat>, i: nat, killed: nat -> bool, fault: nat -> bool) returns (k: nat, r: Outcome)
      requires Valid() && i <= |src|
      modifies this`nwrite, this`put, data
      ensures Valid() && i <= k <= |src|
      ensures put == old(put) + src[i..k]
      ensures k > i ==> readopen
      ensures forall j | i <= j < k :: !killed(j)
      ensures forall j | i <= j < k :: !fault(j)
      ensures r == Asleep <==> k < |src| && readopen && !killed(k) && |put| == taken + PIPESIZE
      ensures r == Failed <==> k < |src| && (!readopen || killed(k))
      ensures r == Returned ==> k == |src| || fault(k)
    {
      k := i;
      while k < |src|
        invariant i <= k <= |src| && Valid()
        invariant put == old(put) + src[i..k]
        invariant k > i ==> readopen
        invariant forall j | i <= j < k :: !killed(j)
        invariant forall j | i <= j < k :: !fault(j)
      {
        TestsAreExact(View(), put, taken);
        if !readopen || killed(k) {
          return k, Failed;
        }
        if nwrite == (nread + PIPESIZE) % WRAP {
          return k, Asleep;
        }
        if fault(k) {
          return k, Returned;
        }
        PutByte(src[k]);
        k := k + 1;
      }
      return k, Returned;
    }

    /** piperead, until it returns or sleeps.  It gets the bytes inside in order, as many as there
        are up to n, or up to the first whose copyout fails; that one is taken but is not part
        of what the reader gets. */
    method Read(n: int, killed: bool, fault: nat -> bool) returns (got: seq<nat>, r: Outcome)
      requires Valid()
      modifies this`nread, this`taken
      ensures Valid() && (got == [] || |got| <= n) && old(taken) + |got| <= taken <= |put|
      ensures got == put[old(taken)..old(taken) + |got|]
      ensures taken == old(taken) + |got| + if r == Returned && |got| < n && old(taken) + |got| < |put| then 1 else 0
      ensures r == Asleep <==> old(taken) == |put| && writeopen && !killed
      ensures r == Failed <==> old(taken) == |put| && writeopen && killed
      ensures r == Returned && |got| < n ==> old(taken) + |got| == |put| || fault(|got|)
      ensures forall j | 0 <= j < |got| :: !fault(j)
    {
      got := [];
      TestsAreExact(View(), put, taken);
      if nread == nwrite && writeopen {
        return [], if killed then Failed else Asleep;
      }
      while |got| < n
        invariant (got == [] || |got| <= n) && Valid()
        invariant taken == old(taken) + |got| <= |put|
        invariant got == put[old(taken)..taken]
        invariant forall j | 0 <= j < |got| :: !fault(j)
        decreases n - |got|
      {
        TestsAreExact(View(), put, taken);
        if nread == nwrite {
          break;
        }
        var ch := TakeByte();
        if fault(|got|) {
          return got, Returned;
        }
        got := got + [ch];
      }
      return got, Returned;
    }

    /** pipeclose; the result says whether the pipe was freed, which is when both ends are closed. */
    method Close(writable: bool) returns (freed: bool)
      requires Valid()
      modifies this`readopen, this`writeopen
      ensures Valid()
      ensures readopen == (old(readopen) && writable) && writeopen == (old(writeopen) && !writable)
      ensures freed <==> !readopen && !writeopen
    {
      ghost var v := View();
      if writable {
        writeopen := false;
      } else {
        readopen := false;
      }
      SameRing(v, View(), put, taken);
      return !readopen && !writeopen;
    }
  }

  lemma SameRing(a: Ring, b: Ring, put: seq<nat>, taken: nat)
    requires RingOk(a, put, taken) && b.data == a.data && b.nread == a.nread && b.nwrite == a.nwrite
    ensures RingOk(b, put, taken)
  {
    forall k: nat | taken <= k < |put| ensures Slot(b.data, put, k) {
      assert Slot(a.data, put, k);
    }
  }
}
