/** The buffer cache: one buffer per block, reference counts and pins, and why a reader
    always gets the contents last given to the block. */
module BufferCache {
  import opened BufferRing

  type Block = seq<int>

  datatype Key = Key(dev: nat, blockno: nat)

  datatype Buf = Buf(valid: bool, key: Key, refcnt: nat, locked: bool, data: Block)

  /** What the cache is measured against: the disk, the contents last given to each block,
      the blocks pinned by the log, and how many references are held on each buffer. */
  datatype World = World(disk: map<Key, Block>, last: map<Key, Block>, pinned: set<Key>, holders: seq<nat>)

  predicate Real(k: Key) {
    k.dev >= 1
  }

  /** Never two buffers for one block of a real device. */
  ghost predicate Unique(bufs: seq<Buf>) {
    forall i, j | 0 <= i < j < |bufs| && Real(bufs[i].key) :: bufs[i].key != bufs[j].key
  }

  ghost predicate BufOk(b: Buf, w: World, holders: nat) {
    && (Real(b.key) ==> b.key in w.disk)
    && (b.valid ==> Real(b.key) && b.key in w.last && b.data == w.last[b.key])
    && (b.locked ==> holders > 0)
    && b.refcnt == holders + (if b.key in w.pinned then 1 else 0)
  }

  /** Some buffer holds block k and cannot be recycled. */
  ghost predicate Kept(bufs: seq<Buf>, w: World, k: Key) {
    exists i :: 0 <= i < |bufs| && bufs[i].key == k && bufs[i].valid && (bufs[i].locked || k in w.pinned)
  }

  ghost predicate Inv(bufs: seq<Buf>, w: World) {
    && |w.holders| == |bufs| && w.last.Keys == w.disk.Keys
    && (forall k | k in w.disk :: Real(k))
    && Unique(bufs)
    && (forall i | 0 <= i < |bufs| :: BufOk(bufs[i], w, w.holders[i]))
    && (forall k | k in w.disk && w.disk[k] != w.last[k] :: Kept(bufs, w, k))
    && (forall k | k in w.pinned :: k in w.disk && Kept(bufs, w, k))
  }

  // ---- The steps, each atomic under bcache.lock or the buffer's sleep lock ----

  datatype Step =
    | Hit(i: nat, key: Key)      // bget finds the block cached
    | Recycle(i: nat, key: Key)  // bget takes over an unreferenced buffer
    | Acquire(i: nat)            // acquiresleep
    | Fill(i: nat)               // bread reads the block if the buffer is not valid
    | Modify(i: nat, data: Block)
    | WriteThrough(i: nat)       // bwrite
    | Pin(i: nat)                // log_write of a block that is not in the log yet
    | Unpin(i: nat)              // install_trans has written the block home
    | Release(i: nat)            // brelse

  /** A caller releases a buffer only if it is unchanged, written through, or logged. */
  ghost predicate Enabled(bufs: seq<Buf>, w: World, step: Step)
    requires |w.holders| == |bufs|
  {
    && step.i < |bufs|
    && var b := bufs[step.i];
       match step
       case Hit(i, key) => Real(key) && b.key == key
       case Recycle(i, key) => Real(key) && key in w.disk && b.refcnt == 0 && forall c | c in bufs :: c.key != key
       case Acquire(i) => w.holders[i] > 0 && !b.locked
       case Fill(i) => b.locked && b.key in w.disk
       case Modify(i, data) => b.locked && b.valid
       case WriteThrough(i) => b.locked && b.valid
       case Pin(i) => b.locked && b.valid && b.key !in w.pinned
       case Unpin(i) => b.locked && b.key in w.pinned && b.key in w.disk && w.disk[b.key] == b.data && b.refcnt > 0
       case Release(i) => && b.locked && b.refcnt > 0 && w.holders[i] > 0
                          && (b.valid && b.key in w.disk ==> w.disk[b.key] == b.data || b.key in w.pinned)
  }

  ghost function NextBuf(b: Buf, w: World, step: Step): Buf {
    match step
    case Hit(i, key) => b.(refcnt := b.refcnt + 1)
    case Recycle(i, key) => Buf(false, key, 1, b.locked, b.data)
    case Acquire(i) => b.(locked := true)
    case Fill(i) => if b.valid || b.key !in w.disk then b else b.(valid := true, data := w.disk[b.key])
    case Modify(i, data) => b.(data := data)
    case WriteThrough(i) => b
    case Pin(i) => b.(refcnt := b.refcnt + 1)
    case Unpin(i) => if b.refcnt > 0 then b.(refcnt := b.refcnt - 1) else b
    case Release(i) => if b.refcnt > 0 then b.(locked := false, refcnt := b.refcnt - 1) else b
  }

  ghost function NextWorld(b: Buf, w: World, step: Step): World
    requires step.i < |w.holders|
  {
    match step
    case Hit(i, key) => w.(holders := w.holders[i := w.holders[i] + 1])
    case Recycle(i, key) => w.(holders := w.holders[i := 1])
    case Modify(i, data) => w.(last := w.last[b.key := data])
    case WriteThrough(i) => w.(disk := w.disk[b.key := b.data])
    case Pin(i) => w.(pinned := w.pinned + {b.key})
    case Unpin(i) => w.(pinned := w.pinned - {b.key})
    case Release(i) => if w.holders[i] > 0 then w.(holders := w.holders[i := w.holders[i] - 1]) else w
    case _ => w
  }

  lemma KeptElsewhere(bufs: seq<Buf>, w: World, i: nat, b: Buf, w': World, k: Key)
    requires i < |bufs| && Kept(bufs, w, k) && bufs[i].key != k && (k in w.pinned ==> k in w'.pinned)
    ensures Kept(bufs[i := b], w', k)
  {
    var j :| 0 <= j < |bufs| && bufs[j].key == k && bufs[j].valid && (bufs[j].locked || k in w.pinned);
    assert bufs[i := b][j] == bufs[j];
  }

  /** A change to one buffer that keeps its block: enough to look at that buffer. */
  lemma OneBuffer(bufs: seq<Buf>, w: World, i: nat, b: Buf, w': World)
    requires Inv(bufs, w) && i < |bufs| && b.key == bufs[i].key
    requires |w'.holders| == |bufs| && w'.last.Keys == w'.disk.Keys == w.disk.Keys
    requires forall j | 0 <= j < |bufs| && j != i :: w'.holders[j] == w.holders[j]
    requires forall k | k in w.disk && k != b.key :: w'.disk[k] == w.disk[k] && w'.last[k] == w.last[k]
    requires forall k | k != b.key :: k in w'.pinned <==> k in w.pinned
    requires BufOk(b, w', w'.holders[i])
    requires b.key in w'.disk && w'.disk[b.key] != w'.last[b.key] ==> b.valid && (b.locked || b.key in w'.pinned)
    requires b.key in w'.pinned ==> b.key in w.disk && b.valid
    ensures Inv(bufs[i := b], w')
  {
    var bufs' := bufs[i := b];
    forall j | 0 <= j < |bufs| ensures BufOk(bufs'[j], w', w'.holders[j]) {
      if j != i {
        assert BufOk(bufs[j], w, w.holders[j]);
        assert Real(bufs[j].key) ==> bufs[j].key != b.key;
      }
    }
    assert bufs'[i] == b;
    forall k | k in w'.disk && w'.disk[k] != w'.last[k] ensures Kept(bufs', w', k) {
      if k != b.key { KeptElsewhere(bufs, w, i, b, w', k); }
    }
    forall k | k in w'.pinned ensures k in w'.disk && Kept(bufs', w', k) {
      if k != b.key { KeptElsewhere(bufs, w, i, b, w', k); }
    }
  }

  /** A block with unwritten changes has exactly one buffer, and it is locked or pinned. */
  lemma DirtyIsKept(bufs: seq<Buf>, w: World, i: nat)
    requires Inv(bufs, w) && i < |bufs| && Real(bufs[i].key)
    ensures bufs[i].key in w.disk
    ensures w.disk[bufs[i].key] != w.last[bufs[i].key] ==>
              bufs[i].valid && (bufs[i].locked || bufs[i].key in w.pinned)
    ensures bufs[i].key in w.pinned ==> bufs[i].valid
  {
    var k := bufs[i].key;
    assert BufOk(bufs[i], w, w.holders[i]);
    if w.disk[k] != w.last[k] || k in w.pinned {
      var j :| 0 <= j < |bufs| && bufs[j].key == k && bufs[j].valid && (bufs[j].locked || k in w.pinned);
      assert i == j;
    }
  }

  lemma RecycleKeepsInv(bufs: seq<Buf>, w: World, i: nat, key: Key)
    requires Inv(bufs, w) && Enabled(bufs, w, Recycle(i, key))
    ensures var step := Recycle(i, key); Inv(bufs[i := NextBuf(bufs[i], w, step)], NextWorld(bufs[i], w, step))
  {
    var step := Recycle(i, key);
    var b, w' := NextBuf(bufs[i], w, step), NextWorld(bufs[i], w, step);
    var bufs' := bufs[i := b];
    assert BufOk(bufs[i], w, w.holders[i]);
    assert forall j | 0 <= j < |bufs| :: bufs[j] in bufs;
    if Real(bufs[i].key) { DirtyIsKept(bufs, w, i); }
    assert key !in w.pinned && w.disk[key] == w.last[key];
    forall j | 0 <= j < |bufs| ensures BufOk(bufs'[j], w', w'.holders[j]) {
      if j != i { assert BufOk(bufs[j], w, w.holders[j]); }
    }
    forall k | k in w.disk && w.disk[k] != w.last[k] ensures Kept(bufs', w', k) {
      KeptElsewhere(bufs, w, i, b, w', k);
    }
    forall k | k in w.pinned ensures k in w.disk && Kept(bufs', w', k) {
      KeptElsewhere(bufs, w, i, b, w', k);
    }
  }

  /** Every step keeps the invariant. */
  lemma StepKeepsInv(bufs: seq<Buf>, w: World, step: Step)
    requires Inv(bufs, w) && Enabled(bufs, w, step)
    ensures Inv(bufs[step.i := NextBuf(bufs[step.i], w, step)], NextWorld(bufs[step.i], w, step))
  {
    var i := step.i;
    assert BufOk(bufs[i], w, w.holders[i]);
    if step.Recycle? {
      RecycleKeepsInv(bufs, w, i, step.key);
    } else {
      if Real(bufs[i].key) { DirtyIsKept(bufs, w, i); }
      OneBuffer(bufs, w, i, NextBuf(bufs[i], w, step), NextWorld(bufs[i], w, step));
    }
  }

  // ---- Whole runs ----

  datatype Cache = Cache(bufs: seq<Buf>, w: World)

  ghost function Next(s: Cache, step: Step): Cache
    requires |s.w.holders| == |s.bufs| && step.i < |s.bufs|
  {
    Cache(s.bufs[step.i := NextBuf(s.bufs[step.i], s.w, step)], NextWorld(s.bufs[step.i], s.w, step))
  }

  ghost predicate IsRun(ss: seq<Cache>, steps: seq<Step>) {
    && |ss| == |steps| + 1 && Inv(ss[0].bufs, ss[0].w)
    && forall i | 0 <= i < |steps| ::
         && |ss[i].w.holders| == |ss[i].bufs| && Enabled(ss[i].bufs, ss[i].w, steps[i])
         && ss[i + 1] == Next(ss[i], steps[i])
  }

  /** What Modify last gave to block k in the first n steps, or what it held at the start. */
  ghost function LastGiven(ss: seq<Cache>, steps: seq<Step>, k: Key, n: nat): Block
    requires IsRun(ss, steps) && n <= |steps| && k in ss[0].w.last
  {
    if n == 0 then ss[0].w.last[k]
    else if steps[n - 1].Modify? && ss[n - 1].bufs[steps[n - 1].i].key == k then steps[n - 1].data
    else LastGiven(ss, steps, k, n - 1)
  }

  lemma {:induction false} RunKeepsInv(ss: seq<Cache>, steps: seq<Step>, n: nat)
    requires IsRun(ss, steps) && n <= |steps|
    ensures Inv(ss[n].bufs, ss[n].w)
    ensures ss[n].w.last.Keys == ss[0].w.last.Keys
    ensures forall k | k in ss[0].w.last :: ss[n].w.last[k] == LastGiven(ss, steps, k, n)
  {
    if n > 0 {
      RunKeepsInv(ss, steps, n - 1);
      var s, step := ss[n - 1], steps[n - 1];
      assert Enabled(s.bufs, s.w, step) && ss[n] == Next(s, step);
      StepKeepsInv(s.bufs, s.w, step);
      assert BufOk(s.bufs[step.i], s.w, s.w.holders[step.i]);
    }
  }

  /** The cache alone: in any interleaving of its steps, a buffer that bread has filled holds
      what was last put into a buffer of its block, and no other buffer is for that block. */
  lemma BreadReturnsLast(ss: seq<Cache>, steps: seq<Step>, n: nat)
    requires IsRun(ss, steps) && n < |steps| && steps[n].Fill?
    ensures var bufs, i := ss[n + 1].bufs, steps[n].i;
            && bufs[i].valid && bufs[i].key in ss[0].w.last
            && bufs[i].data == LastGiven(ss, steps, bufs[i].key, n + 1)
            && forall j | 0 <= j < |bufs| && j != i :: bufs[j].key != bufs[i].key
  {
    RunKeepsInv(ss, steps, n);
    RunKeepsInv(ss, steps, n + 1);
    var s, t, i := ss[n], ss[n + 1], steps[n].i;
    assert Enabled(s.bufs, s.w, steps[n]) && t == Next(s, steps[n]);
    assert BufOk(t.bufs[i], t.w, t.w.holders[i]) && BufOk(s.bufs[i], s.w, s.w.holders[i]);
    var k := t.bufs[i].key;
    assert t.w.last[k] == LastGiven(ss, steps, k, n + 1);
  }

  /** A buffer that is recycled is unreferenced, and the disk has its contents. */
  lemma ReferencedNotRecycled(ss: seq<Cache>, steps: seq<Step>, n: nat)
    requires IsRun(ss, steps) && n < |steps| && steps[n].Recycle?
    ensures var s, i := ss[n], steps[n].i;
            && s.w.holders[i] == 0 && s.bufs[i].key !in s.w.pinned && !s.bufs[i].locked
            && (s.bufs[i].valid ==> s.bufs[i].key in s.w.disk && s.w.disk[s.bufs[i].key] == s.bufs[i].data)
  {
    RunKeepsInv(ss, steps, n);
    var s, i := ss[n], steps[n].i;
    assert Enabled(s.bufs, s.w, steps[n]);
    assert BufOk(s.bufs[i], s.w, s.w.holders[i]);
    if Real(s.bufs[i].key) { DirtyIsKept(s.bufs, s.w, i); }
  }

  // ---- The code of the steps ----

  const NONE := -1

  class BCache {
    const n: nat
    const bufs: array<Buf>
    const links: array<Link>
    var disk: map<Key, Block>
    ghost var ring: seq<nat>
    ghost var last: map<Key, Block>
    ghost var pinned: set<Key>
    ghost var holders: seq<nat>

    ghost function W(): World
      reads this
    {
      World(disk, last, pinned, holders)
    }

    ghost predicate Valid()
      reads this, bufs, links
    {
      && bufs.Length == n && links.Length == n + 1
      && RingOk(n, links[..], ring) && Inv(bufs[..], W())
    }

    /** binit: the buffers are put behind the head one after the other. */
    constructor (n: nat, disk: map<Key, Block>)
      requires forall k | k in disk :: Real(k)
      ensures Valid() && fresh(bufs) && fresh(links) && this.disk == disk == last && this.n == n
    {
      this.n, this.disk, last, pinned := n, disk, disk, {};
      holders := seq(n, _ => 0);
      bufs := new Buf[n](_ => Buf(false, Key(0, 0), 0, false, []));
      links := new Link[n + 1](_ => Link(n, n));
      ring := [];
      new;
      assert LinkOk(n, links[..], [], -1);
      for b := 0 to n
        invariant PartRing(n, links[..], ring)
        invariant forall c: nat | c < b :: c in ring
        invariant forall c: nat | b <= c < n :: c !in ring
        invariant this.disk == disk && last == disk && pinned == {} && holders == seq(n, _ => 0)
        invariant bufs[..] == seq(n, _ => Buf(false, Key(0, 0), 0, false, []))
      {
        PushFrontOk(n, links[..], ring, b);
        PushHere(b);
        ring := [b] + ring;
      }
    }

    /** Puts buffer b behind the head. */
    method PushHere(b: nat)
      requires links.Length == n + 1 && b < n && links[n].next <= n
      modifies links
      ensures links[..] == PushFront(n, old(links[..]), b)
    {
      links[b] := Link(links[n].next, n);
      var first := links[n].next;
      links[first] := links[first].(prev := b);
      links[n] := links[n].(next := b);
    }

    /** bget under bcache.lock: the buffer that already holds the block, or else the least
        recently used unreferenced buffer, or the panic "no buffers". */
    method Bget(key: Key) returns (r: int)
      requires Valid() && Real(key) && key in disk
      modifies bufs, this`holders
      ensures Valid()
      ensures r == NONE <==> forall b | b in old(bufs[..]) :: b.key != key && b.refcnt > 0
      ensures r == NONE ==> bufs[..] == old(bufs[..]) && W() == old(W())
      ensures r != NONE ==>
                && 0 <= r < n
                && var step := if old(bufs[r]).key == key then Hit(r, key) else Recycle(r, key);
                   && Enabled(old(bufs[..]), old(W()), step)
                   && Stepped(r, step)
      ensures r != NONE && old(bufs[r]).key != key ==>
                exists k | 0 <= k < |ring| ::
                  ring[k] == r && forall j | k < j < |ring| :: old(bufs[..])[ring[j]].refcnt > 0
    {
      r := FindCached(key);
      if r != NONE {
        TakeCached(r, key);
      } else {
        r := FindUnused();
        if r != NONE {
          TakeUnused(r, key);
        }
      }
    }

    /** The state after a step on buffer i. */
    twostate predicate Stepped(i: nat, step: Step)
      requires step.i == i < n && bufs.Length == n && i < |old(holders)|
      reads this, bufs
    {
      && bufs[..] == old(bufs[..])[i := NextBuf(old(bufs[i]), old(W()), step)]
      && W() == NextWorld(old(bufs[i]), old(W()), step)
    }

    /** bget, once it has found the block cached. */
    method TakeCached(i: nat, key: Key)
      requires Valid() && i < n && Enabled(bufs[..], W(), Hit(i, key))
      modifies bufs, this`holders
      ensures Valid() && Stepped(i, Hit(i, key))
    {
      StepKeepsInv(bufs[..], W(), Hit(i, key));
      bufs[i] := bufs[i].(refcnt := bufs[i].refcnt + 1);
      holders := holders[i := holders[i] + 1];
      assert Stepped(i, Hit(i, key));
    }

    /** bget, once it has found an unreferenced buffer. */
    method TakeUnused(i: nat, key: Key)
      requires Valid() && i < n && Enabled(bufs[..], W(), Recycle(i, key))
      modifies bufs, this`holders
      ensures Valid() && Stepped(i, Recycle(i, key))
    {
      StepKeepsInv(bufs[..], W(), Recycle(i, key));
      bufs[i] := Buf(false, key, 1, bufs[i].locked, bufs[i].data);
      holders := holders[i := 1];
      assert Stepped(i, Recycle(i, key));
    }

    /** The first loop of bget. */
    method FindCached(key: Key) returns (r: int)
      requires Valid()
      ensures r == NONE ==> forall b | b in bufs[..] :: b.key != key
      ensures r != NONE ==> 0 <= r < n && bufs[r].key == key
    {
      assert LinkOk(n, links[..], ring, -1);
      var b := links[n].next;
      ghost var k := 0;
      while b != n
        invariant 0 <= k <= |ring| && b == Node(n, ring, k)
        invariant forall j | 0 <= j < k :: bufs[ring[j]].key != key
        decreases |ring| - k
      {
        if bufs[b].key == key {
          return b;
        }
        assert LinkOk(n, links[..], ring, k);
        b := links[b].next;
        k := k + 1;
      }
      forall c: nat | c < n ensures bufs[c].key != key {
        assert c in ring;
      }
      return NONE;
    }

    /** The second loop of bget, from the least recently used end. */
    method FindUnused() returns (r: int)
      requires Valid()
      ensures r == NONE ==> forall b | b in bufs[..] :: b.refcnt > 0
      ensures r != NONE ==>
                && 0 <= r < n && bufs[r].refcnt == 0
                && exists k | 0 <= k < |ring| :: ring[k] == r && forall j | k < j < |ring| :: bufs[ring[j]].refcnt > 0
    {
      assert LinkOk(n, links[..], ring, -1);
      var b := links[n].prev;
      ghost var k := |ring| - 1;
      while b != n
        invariant -1 <= k < |ring| && b == Node(n, ring, k)
        invariant forall j | k < j < |ring| :: bufs[ring[j]].refcnt > 0
        decreases k + 1
      {
        if bufs[b].refcnt == 0 {
          return b;
        }
        assert LinkOk(n, links[..], ring, k);
        b := links[b].prev;
        k := k - 1;
      }
      forall c: nat | c < n ensures bufs[c].refcnt > 0 {
        assert c in ring;
      }
      return NONE;
    }

    /** The rest of bread, once the buffer is locked: what comes back is what was last given
        to the block. */
    method Bread(i: nat)
      requires Valid() && i < n && bufs[i].locked && bufs[i].key in disk
      modifies bufs
      ensures Valid() && bufs[..] == old(bufs[..])[i := NextBuf(old(bufs[i]), old(W()), Fill(i))]
      ensures bufs[i].valid && bufs[i].data == last[bufs[i].key]
    {
      StepKeepsInv(bufs[..], W(), Fill(i));
      if !bufs[i].valid {
        bufs[i] := bufs[i].(valid := true, data := disk[bufs[i].key]);
      }
      assert bufs[..] == old(bufs[..])[i := NextBuf(old(bufs[i]), old(W()), Fill(i))];
      assert BufOk(bufs[i], W(), holders[i]);
    }

    /** bwrite. */
    method Bwrite(i: nat)
      requires Valid() && i < n && bufs[i].locked && bufs[i].valid
      modifies this`disk
      ensures Valid() && disk == old(disk)[bufs[i].key := bufs[i].data]
    {
      StepKeepsInv(bufs[..], W(), WriteThrough(i));
      assert bufs[..][i := bufs[i]] == bufs[..];
      disk := disk[bufs[i].key := bufs[i].data];
    }

    /** brelse: drops the reference; an unreferenced buffer becomes the most recently used. */
    method Brelse(i: nat)
      requires Valid() && i < n && Enabled(bufs[..], W(), Release(i))
      modifies bufs, links, this`holders, this`ring
      ensures Valid() && bufs[..] == old(bufs[..])[i := NextBuf(old(bufs[i]), old(W()), Release(i))]
      ensures W() == NextWorld(old(bufs[i]), old(W()), Release(i))
      ensures bufs[i].refcnt == 0 ==>
                exists k: nat | k < |old(ring)| :: old(ring)[k] == i && ring == MovedToFront(old(ring), k)
      ensures bufs[i].refcnt > 0 ==> ring == old(ring)
    {
      StepKeepsInv(bufs[..], W(), Release(i));
      holders := holders[i := holders[i] - 1];
      bufs[i] := bufs[i].(locked := false, refcnt := bufs[i].refcnt - 1);
      assert bufs[..] == old(bufs[..])[i := NextBuf(old(bufs[i]), old(W()), Release(i))];
      if bufs[i].refcnt == 0 {
        assert i in ring;
        ghost var k: nat :| k < |ring| && ring[k] == i;
        MoveToFrontOk(n, links[..], ring, k);
        Unhook(i);
        PushHere(i);
        ring := MovedToFront(ring, k);
      }
    }

    /** Takes buffer b out of the ring. */
    method Unhook(b: nat)
      requires links.Length == n + 1 && b <= n && links[b].next <= n && links[b].prev <= n
      modifies links
      ensures links[..] == Remove(old(links[..]), b)
    {
      var next := links[b].next;
      links[next] := links[next].(prev := links[b].prev);
      var prev := links[b].prev;
      links[prev] := links[prev].(next := links[b].next);
    }

    /** bpin, as log_write calls it for a block that is new to the log. */
    method Bpin(i: nat)
      requires Valid() && i < n && Enabled(bufs[..], W(), Pin(i))
      modifies bufs, this`pinned
      ensures Valid() && bufs[..] == old(bufs[..])[i := NextBuf(old(bufs[i]), old(W()), Pin(i))]
      ensures pinned == old(pinned) + {bufs[i].key}
    {
      StepKeepsInv(bufs[..], W(), Pin(i));
      pinned := pinned + {bufs[i].key};
      bufs[i] := bufs[i].(refcnt := bufs[i].refcnt + 1);
      assert bufs[..] == old(bufs[..])[i := NextBuf(old(bufs[i]), old(W()), Pin(i))];
    }

    /** bunpin, as install_trans calls it after writing the block home. */
    method Bunpin(i: nat)
      requires Valid() && i < n && Enabled(bufs[..], W(), Unpin(i))
      modifies bufs, this`pinned
      ensures Valid() && bufs[..] == old(bufs[..])[i := NextBuf(old(bufs[i]), old(W()), Unpin(i))]
      ensures pinned == old(pinned) - {bufs[i].key}
    {
      StepKeepsInv(bufs[..], W(), Unpin(i));
      pinned := pinned - {bufs[i].key};
      bufs[i] := bufs[i].(refcnt := bufs[i].refcnt - 1);
      assert bufs[..] == old(bufs[..])[i := NextBuf(old(bufs[i]), old(W()), Unpin(i))];
    }
  }
}
