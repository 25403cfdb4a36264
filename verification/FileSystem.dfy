/** balloc, bfree, bmap, itrunc, readi and writei over a block store. */
module FileSystem {
  import opened FsLayout
  import opened FsSpec

  const BPB := 8 * BSIZE

  function Min(a: nat, b: nat): nat {
    if a < b then a else b
  }

  function Max(a: nat, b: nat): nat {
    if a < b then b else a
  }

  /** c with d laid over it from off on; the file grows if d sticks out. */
  function Overwrite(c: seq<nat>, off: nat, d: seq<nat>): seq<nat>
    requires off <= |c|
  {
    c[..off] + d + (if off + |d| < |c| then c[off + |d|..] else [])
  }

  /** What writei has written, readi reads back; the rest of the file is as it was. */
  lemma OverwriteReads(c: seq<nat>, off: nat, d: seq<nat>)
    requires off <= |c|
    ensures var e := Overwrite(c, off, d);
            && |e| == (if off + |d| > |c| then off + |d| else |c|) && e[off..off + |d|] == d && e[..off] == c[..off]
            && forall k | off + |d| <= k < |c| :: e[k] == c[k]
  {
    var e := Overwrite(c, off, d);
    assert e[..off] == c[..off] && e[off..off + |d|] == d;
  }

  /** The last block boundary at or below p. */
  function Boundary(p: nat): nat {
    p / BSIZE * BSIZE
  }

  /** The count that writei reports for n bytes of which the copies get `avail`: it counts
      whole rounds, and a round ends at a block boundary. */
  function Reported(off: nat, n: nat, avail: nat): nat {
    if n <= avail then n else if Boundary(off + avail) <= off then 0 else Boundary(off + avail) - off
  }

  /** The copies get all of src, or what the last one got of it past the last boundary is past
      the end of the file or what the file holds there. */
  ghost predicate TailKept(c: seq<nat>, off: nat, src: seq<nat>, avail: nat) {
    avail < |src| ==>
      forall k | off <= k < |c| && Boundary(off + avail) <= k < off + avail :: src[k - off] == c[k]
  }

  /** The count that writei reports tells the whole change exactly when the tail is kept. */
  lemma ReportedIsWholeIff(c: seq<nat>, off: nat, src: seq<nat>, avail: nat)
    requires off <= |c|
    ensures var r, e := Reported(off, |src|, avail), Overwrite(c, off, src[..Min(avail, |src|)]);
            && r <= |src| && |e| >= Max(|c|, off + r)
            && (e[..Max(|c|, off + r)] == Overwrite(c, off, src[..r]) <==> TailKept(c, off, src, avail))
  {
    var r, done := Reported(off, |src|, avail), Min(avail, |src|);
    var d, e := Overwrite(c, off, src[..done]), Overwrite(c, off, src[..r]);
    var size := Max(|c|, off + r);
    forall k | 0 <= k < size
      ensures d[..size][k] == e[k] <==> (off + r <= k < off + done && k < |c| ==> src[k - off] == c[k]) {
      OverwriteAt(c, off, src[..done], k);
      OverwriteAt(c, off, src[..r], k);
    }
  }

  /** The same of a file e that shows as much of the change as its size allows. */
  lemma ShownIsWholeIff(c: seq<nat>, e: seq<nat>, off: nat, src: seq<nat>, avail: nat, r: nat)
    requires off <= |c| && r == Reported(off, |src|, avail) && |e| == Max(|c|, off + r)
    requires e <= Overwrite(c, off, src[..Min(avail, |src|)])
    ensures r <= |src| && (e == Overwrite(c, off, src[..r]) <==> TailKept(c, off, src, avail))
  {
    ReportedIsWholeIff(c, off, src, avail);
    assert e == Overwrite(c, off, src[..Min(avail, |src|)])[..|e|];
  }

  /** 2048 bytes over the start of a file of 4096, of which the copies get 1500: writei reports
      1024, and byte 1024 is new as well. */
  lemma ShortWriteChangesMore()
    ensures var c, src := seq(4096, _ => 0), seq(2048, _ => 1);
            && Reported(0, 2048, 1500) == 1024 && !TailKept(c, 0, src, 1500)
            && Overwrite(c, 0, src[..1500])[1024] == 1 && Overwrite(c, 0, src[..1024])[1024] == 0
  {
    var c, src := seq(4096, _ => 0), seq(2048, _ => 1);
    assert src[1024 - 0] != c[1024];
  }

  /** Where a round of writei can begin, and where the last one can end. */
  ghost predicate BetweenRounds(off: nat, n: nat, avail: nat, tot: nat) {
    && tot <= n && tot <= avail && tot <= Reported(off, n, avail)
    && (tot == 0 || tot == n || (off + tot) % BSIZE == 0)
  }

  /** The blocks of the file that m bytes from off on lie in are those from off / BSIZE up to this. */
  function BlockEnd(off: nat, m: nat): nat {
    if m == 0 then off / BSIZE else (off + m - 1) / BSIZE + 1
  }

  /** bmap is called for the blocks up to this, if it never fails: those of the bytes reported,
      and the one of the copy that fails. */
  function Reach(off: nat, n: nat, avail: nat): nat {
    if n <= avail then BlockEnd(off, n) else (off + Reported(off, n, avail)) / BSIZE + 1
  }

  /** A round of m bytes, or one in which their copy fails. */
  lemma RoundEnds(off: nat, n: nat, avail: nat, tot: nat, m: nat)
    requires BetweenRounds(off, n, avail, tot) && tot < n && m == Min(n - tot, BSIZE - (off + tot) % BSIZE)
    ensures tot + m <= avail ==> BetweenRounds(off, n, avail, tot + m)
    ensures tot + m > avail ==> Reported(off, n, avail) == tot
  {
    var p := off + tot;
    if tot + m > avail {
      SameBlock(p, m, avail - tot);
    } else {
      assert m == BSIZE - p % BSIZE ==> (p + m) % BSIZE == 0;
      assert n > avail ==> Boundary(p + m) <= Boundary(off + avail);
    }
  }

  lemma OverwriteAt(c: seq<nat>, off: nat, d: seq<nat>, k: nat)
    requires off <= |c| && (k < |c| || k < off + |d|)
    ensures |Overwrite(c, off, d)| == Max(|c|, off + |d|)
    ensures Overwrite(c, off, d)[k] == if off <= k < off + |d| then d[k - off] else c[k]
  {}

  lemma SliceMore(c: seq<nat>, a: nat, b: nat, d: nat)
    requires a <= b <= d <= |c|
    ensures c[a..b] + c[b..d] == c[a..d]
  {}

  /** Offsets within one block. */
  lemma SameBlock(off: nat, m: nat, k: nat)
    requires k < m && off % BSIZE + m <= BSIZE
    ensures (off + k) / BSIZE == off / BSIZE && (off + k) % BSIZE == off % BSIZE + k
  {}

  /** What one round of readi copies is the next piece of the file. */
  lemma ReadChunk(fs: Fs, owner: Owner, i: nat, off: nat, m: nat)
    requires FsInv(fs, owner) && i < |fs.inodes| && 0 < m && off + m <= fs.inodes[i].size
    requires off % BSIZE + m <= BSIZE
    ensures off / BSIZE < MAXFILE && 0 < Addr(fs, i, off / BSIZE) < fs.total
    ensures fs.blocks[Addr(fs, i, off / BSIZE)][off % BSIZE..off % BSIZE + m] == Content(fs, i)[off..off + m]
  {
    assert InodeOk(fs, fs.inodes[i]);
    assert Mapped(fs, i, off / BSIZE);
    SlotRange(fs, owner, i, off / BSIZE);
    var a := Addr(fs, i, off / BSIZE);
    var x, y := fs.blocks[a][off % BSIZE..off % BSIZE + m], Content(fs, i)[off..off + m];
    forall k | 0 <= k < m ensures x[k] == y[k] {
      SameBlock(off, m, k);
    }
  }

  // ---- The state in the middle of writei ----

  /** Byte p of file i: new if the first tot bytes of src cover it, else as it was. */
  ghost predicate ByteDone(was: Fs, fs: Fs, i: nat, off: nat, src: seq<nat>, tot: nat, p: nat)
    requires Shape(was) && Shape(fs) && i < |was.inodes| == |fs.inodes| && p < MAXFILE * BSIZE && tot <= |src|
  {
    && Addr(fs, i, p / BSIZE) != 0
    && Byte(fs, i, p) == if off <= p < off + tot then src[p - off] else Byte(was, i, p)
  }

  ghost predicate Written(was: Fs, fs: Fs, i: nat, off: nat, src: seq<nat>, tot: nat) {
    && Shape(was) && Shape(fs) && i < |was.inodes| == |fs.inodes| && tot <= |src| && off + |src| <= MAXFILE * BSIZE
    && (forall j | 0 <= j < |fs.inodes| :: fs.inodes[j].size == was.inodes[j].size)
    && off <= was.inodes[i].size <= MAXFILE * BSIZE
    && (forall j: nat | j < |fs.inodes| && j != i :: Content(fs, j) == Content(was, j))
    && (forall p: nat | p < was.inodes[i].size || p < off + tot :: ByteDone(was, fs, i, off, src, tot, p))
  }

  lemma WrittenStart(fs: Fs, owner: Owner, i: nat, off: nat, src: seq<nat>)
    requires FsInv(fs, owner) && i < |fs.inodes| && off <= fs.inodes[i].size && off + |src| <= MAXFILE * BSIZE
    ensures Written(fs, fs, i, off, src, 0)
  {
    assert InodeOk(fs, fs.inodes[i]);
    forall p: nat | p < fs.inodes[i].size ensures ByteDone(fs, fs, i, off, src, 0, p) {
      assert Mapped(fs, i, p / BSIZE);
    }
  }

  lemma WrittenExtends(was: Fs, fs: Fs, owner: Owner, fs': Fs, i: nat, off: nat, src: seq<nat>, tot: nat)
    requires Written(was, fs, i, off, src, tot) && FsInv(fs, owner) && Extends(fs, fs')
    ensures Written(was, fs', i, off, src, tot)
  {
    forall j: nat | j < |fs.inodes| && j != i ensures Content(fs', j) == Content(was, j) {
      ExtendsContent(fs, fs', owner, j);
    }
    forall p: nat | p < was.inodes[i].size || p < off + tot ensures ByteDone(was, fs', i, off, src, tot, p) {
      assert ByteDone(was, fs, i, off, src, tot, p);
      ExtendsByte(fs, fs', owner, i, p);
    }
  }

  /** One round of writei: m bytes of src go into the block at position off + tot. */
  lemma WrittenChunk(was: Fs, fs: Fs, owner: Owner, i: nat, off: nat, src: seq<nat>, tot: nat, m: nat, data: Block)
    requires Written(was, fs, i, off, src, tot) && FsInv(fs, owner)
    requires 0 < m && tot + m <= |src| && (off + tot) % BSIZE + m <= BSIZE && IsBlock(data)
    requires 0 < Addr(fs, i, (off + tot) / BSIZE) < fs.total
    requires var o, b := (off + tot) % BSIZE, fs.blocks[Addr(fs, i, (off + tot) / BSIZE)];
             data == b[..o] + src[tot..tot + m] + b[o + m..]
    ensures Written(was, Poke(fs, Addr(fs, i, (off + tot) / BSIZE), data), i, off, src, tot + m)
  {
    var pos := off + tot;
    var bn := pos / BSIZE;
    var fs' := Poke(fs, Addr(fs, i, bn), data);
    PokeAddr(fs, owner, i, bn, data, i, bn);
    forall j: nat | j < |fs.inodes| && j != i ensures Content(fs', j) == Content(was, j) {
      assert InodeOk(fs, fs.inodes[j]);
      forall p | 0 <= p < fs.inodes[j].size ensures Byte(fs', j, p) == Byte(fs, j, p) {
        assert Mapped(fs, j, p / BSIZE);
        PokeByte(fs, owner, i, bn, data, j, p);
      }
      assert Content(fs', j) == Content(fs, j);
    }
    var done := tot + m;
    forall p: nat | p < was.inodes[i].size || p < off + done
      ensures ByteDone(was, fs', i, off, src, done, p) {
      ChunkByte(was, fs, owner, i, off, src, tot, m, data, p);
    }
  }

  lemma ChunkByte(was: Fs, fs: Fs, owner: Owner, i: nat, off: nat, src: seq<nat>, tot: nat, m: nat, data: Block, p: nat)
    requires Written(was, fs, i, off, src, tot) && FsInv(fs, owner)
    requires 0 < m && tot + m <= |src| && (off + tot) % BSIZE + m <= BSIZE && IsBlock(data)
    requires 0 < Addr(fs, i, (off + tot) / BSIZE) < fs.total
    requires var o, b := (off + tot) % BSIZE, fs.blocks[Addr(fs, i, (off + tot) / BSIZE)];
             data == b[..o] + src[tot..tot + m] + b[o + m..]
    requires p < was.inodes[i].size || p < off + tot + m
    ensures Shape(Poke(fs, Addr(fs, i, (off + tot) / BSIZE), data))
    ensures ByteDone(was, Poke(fs, Addr(fs, i, (off + tot) / BSIZE), data), i, off, src, tot + m, p)
  {
    var pos := off + tot;
    var bn, o := pos / BSIZE, pos % BSIZE;
    PokeAddr(fs, owner, i, bn, data, i, p / BSIZE);
    if pos <= p < pos + m {
      SameBlock(pos, m, p - pos);
      PokeByte(fs, owner, i, bn, data, i, p);
      assert data[o + (p - pos)] == src[tot..tot + m][p - pos];
    } else {
      assert ByteDone(was, fs, i, off, src, tot, p);
      PokeByte(fs, owner, i, bn, data, i, p);
      if p / BSIZE == bn {
        assert p % BSIZE < o || p % BSIZE >= o + m;
        assert data[p % BSIZE] == fs.blocks[Addr(fs, i, bn)][p % BSIZE];
      }
    }
  }

  /** When writei has set the size, the file is the old one with the bytes laid over it. */
  lemma WrittenEnd(was: Fs, fs: Fs, owner: Owner, i: nat, off: nat, src: seq<nat>, tot: nat, size: nat)
    requires Written(was, fs, i, off, src, tot) && FsInv(fs, owner)
    requires was.inodes[i].size <= size && (size == was.inodes[i].size || size <= off + tot)
    ensures FsInv(WithSize(fs, i, size), owner) && size <= |Overwrite(Content(was, i), off, src[..tot])|
    ensures Content(WithSize(fs, i, size), i) == Overwrite(Content(was, i), off, src[..tot])[..size]
    ensures forall j: nat | j < |fs.inodes| && j != i :: Content(WithSize(fs, i, size), j) == Content(was, j)
  {
    forall bn: nat | bn < MAXFILE && bn * BSIZE < size ensures Addr(fs, i, bn) != 0 {
      assert ByteDone(was, fs, i, off, src, tot, bn * BSIZE);
    }
    WithSizeKeepsInv(fs, owner, i, size);
    var r := WithSize(fs, i, size);
    var c, d := Content(r, i), Overwrite(Content(was, i), off, src[..tot])[..size];
    forall p | 0 <= p < size ensures c[p] == d[p] {
      assert ByteDone(was, fs, i, off, src, tot, p);
      assert Byte(r, i, p) == Byte(fs, i, p);
      OverwriteAt(Content(was, i), off, src[..tot], p);
    }
    forall j: nat | j < |fs.inodes| && j != i ensures Content(r, j) == Content(was, j) {
      assert InodeOk(fs, fs.inodes[j]);
      assert Content(r, j) == Content(fs, j);
    }
  }

  /** Where a round starts and ends, in blocks. */
  lemma RoundStart(off: nat, n: nat, avail: nat, tot: nat)
    requires BetweenRounds(off, n, avail, tot) && tot < n && off + n <= MAXFILE * BSIZE
    ensures BlockEnd(off, tot) == (off + tot) / BSIZE && off / BSIZE <= (off + tot) / BSIZE
    ensures (off + tot) / BSIZE + 1 <= Reach(off, n, avail) <= MAXFILE
  {
    var p := off + tot;
    assert tot > 0 ==> (p - 1) / BSIZE + 1 == p / BSIZE;
    assert (off + n - 1) / BSIZE >= p / BSIZE;
  }

  lemma RoundBlocks(off: nat, tot: nat, m: nat)
    requires 0 < m && (off + tot) % BSIZE + m <= BSIZE
    ensures BlockEnd(off, tot + m) == (off + tot) / BSIZE + 1
  {
    SameBlock(off + tot, m, m - 1);
  }

  /** How writei fares with the blocks that fs has left: `tot` bytes are reported, and `done` are
      in the blocks. */
  ghost predicate Counted(fs: Fs, owner: Owner, i: nat, off: nat, n: nat, avail: nat, tot: nat, done: nat)
    requires Shape(fs) && i < |fs.inodes|
  {
    if Fits(fs, owner, i, off / BSIZE, Reach(off, n, avail)) then
      tot == Reported(off, n, avail) && done == Min(avail, n)
    else
      && tot == done && BetweenRounds(off, n, avail, tot)
      && Fits(fs, owner, i, off / BSIZE, BlockEnd(off, tot))
      && !Fits(fs, owner, i, off / BSIZE, (off + tot) / BSIZE + 1)
  }

  /** The blocks of what has been written are there. */
  lemma BlocksThere(was: Fs, now: Fs, i: nat, off: nat, src: seq<nat>, tot: nat)
    requires Written(was, now, i, off, src, tot)
    ensures BlockEnd(off, tot) <= MAXFILE
    ensures forall bn: nat | off / BSIZE <= bn < BlockEnd(off, tot) :: Addr(now, i, bn) != 0
  {
    forall bn: nat | off / BSIZE <= bn < BlockEnd(off, tot) ensures Addr(now, i, bn) != 0 {
      assert bn * BSIZE < off + tot;
      assert ByteDone(was, now, i, off, src, tot, bn * BSIZE);
    }
  }

  /** writei stops because bmap gives no block. */
  lemma StoppedAtBmap(was: Fs, own: Owner, now: Fs, own': Owner, i: nat, off: nat, src: seq<nat>, avail: nat, tot: nat)
    requires FsInv(was, own) && FsInv(now, own') && now.first == was.first && now.total == was.total
    requires Written(was, now, i, off, src, tot) && BetweenRounds(off, |src|, avail, tot) && tot < |src|
    requires Gains(own, own', i, off / BSIZE, (off + tot) / BSIZE + 1) && Addr(now, i, (off + tot) / BSIZE) == 0
    requires forall a: nat | was.first <= a < was.total :: a in own'
    ensures Counted(was, own, i, off, |src|, avail, tot, tot)
  {
    var lo, bn := off / BSIZE, (off + tot) / BSIZE;
    RoundStart(off, |src|, avail, tot);
    BlocksThere(was, now, i, off, src, tot);
    WentRound(was, own, now, own', i, lo, bn, bn + 1);
    GaveOut(was, own, now, own', i, lo, bn + 1, bn);
    if Fits(was, own, i, lo, Reach(off, |src|, avail)) {
      FitsLess(was, own, i, lo, bn + 1, Reach(off, |src|, avail));
    }
  }

  /** It stops because a copy fails. */
  lemma StoppedAtCopy(was: Fs, own: Owner, now: Fs, own': Owner, i: nat, off: nat, src: seq<nat>, avail: nat, tot: nat,
                      done: nat)
    requires FsInv(was, own) && FsInv(now, own') && now.first == was.first && now.total == was.total
    requires Written(was, now, i, off, src, done) && tot <= done && BetweenRounds(off, |src|, avail, tot)
    requires done == avail < |src| && tot == Reported(off, |src|, avail) < |src|
    requires Gains(own, own', i, off / BSIZE, (off + tot) / BSIZE + 1) && Addr(now, i, (off + tot) / BSIZE) != 0
    ensures Counted(was, own, i, off, |src|, avail, tot, done)
  {
    var lo, bn := off / BSIZE, (off + tot) / BSIZE;
    RoundStart(off, |src|, avail, tot);
    BlocksThere(was, now, i, off, src, done);
    assert bn <= BlockEnd(off, done);
    WentRound(was, own, now, own', i, lo, bn + 1, bn + 1);
  }

  /** It has written everything. */
  lemma WroteAll(was: Fs, own: Owner, now: Fs, own': Owner, i: nat, off: nat, src: seq<nat>, avail: nat)
    requires FsInv(was, own) && FsInv(now, own') && now.first == was.first && now.total == was.total
    requires Written(was, now, i, off, src, |src|) && |src| <= avail
    requires Gains(own, own', i, off / BSIZE, BlockEnd(off, |src|))
    ensures Counted(was, own, i, off, |src|, avail, |src|, |src|)
  {
    BlocksThere(was, now, i, off, src, |src|);
    WentRound(was, own, now, own', i, off / BSIZE, BlockEnd(off, |src|), BlockEnd(off, |src|));
  }

  /** What a round of m bytes leaves, and how it ends. */
  ghost predicate RoundDone(now: Fs, owner: Owner, i: nat, off: nat, n: nat, avail: nat, tot: nat, m: nat, fails: bool)
    requires Shape(now) && i < |now.inodes| && off + tot < MAXFILE * BSIZE
  {
    var addr := Addr(now, i, (off + tot) / BSIZE);
    if fails then tot + m == avail < n && tot == Reported(off, n, avail) && addr != 0
    else if m > 0 then BetweenRounds(off, n, avail, tot + m) && (off + tot) % BSIZE + m <= BSIZE
    else addr == 0 && forall a: nat | now.first <= a < now.total :: a in owner
  }

  lemma RoundGains(own: Owner, mid: Owner, own': Owner, i: nat, off: nat, n: nat, avail: nat, tot: nat)
    requires BetweenRounds(off, n, avail, tot) && tot < n && off + n <= MAXFILE * BSIZE
    requires Gains(own, mid, i, off / BSIZE, BlockEnd(off, tot))
    requires Gains(mid, own', i, (off + tot) / BSIZE, (off + tot) / BSIZE + 1)
    ensures Gains(own, own', i, off / BSIZE, (off + tot) / BSIZE + 1)
    ensures Gains(own, own', i, off / BSIZE, Reach(off, n, avail))
  {
    var lo, bn := off / BSIZE, (off + tot) / BSIZE;
    RoundStart(off, n, avail, tot);
    GainsThen(own, mid, own', i, lo, bn, bn + 1);
    GainsMore(own, own', i, lo, bn + 1, Reach(off, n, avail));
  }

  lemma AfterRound(was: Fs, own: Owner, now: Fs, own': Owner, i: nat, off: nat, src: seq<nat>, avail: nat, tot: nat,
                   m: nat, fails: bool)
    requires FsInv(was, own) && FsInv(now, own') && now.first == was.first && now.total == was.total
    requires tot < |src| && tot + m <= |src| && Written(was, now, i, off, src, tot + m)
    requires BetweenRounds(off, |src|, avail, tot) && RoundDone(now, own', i, off, |src|, avail, tot, m, fails)
    requires Gains(own, own', i, off / BSIZE, (off + tot) / BSIZE + 1)
    ensures fails || m == 0 ==> Counted(was, own, i, off, |src|, avail, tot, tot + m)
    ensures !fails && m > 0 ==> BlockEnd(off, tot + m) == (off + tot) / BSIZE + 1
  {
    if fails {
      StoppedAtCopy(was, own, now, own', i, off, src, avail, tot, tot + m);
    } else if m == 0 {
      StoppedAtBmap(was, own, now, own', i, off, src, avail, tot);
    } else {
      RoundBlocks(off, tot, m);
    }
  }

  // ---- The free map in the middle of itrunc ----

  /** Block c is marked as before unless it sits in one of the first k slots of inode i. */
  ghost predicate FreedAt(fs: Fs, owner: Owner, i: nat, bits: seq<nat>, k: nat, c: nat)
    requires c / 8 < |bits| == |fs.bits|
  {
    Marked(bits, c) <==> Marked(fs.bits, c) && !(c in owner && owner[c].0 == i && owner[c].1 < k)
  }

  ghost predicate FreedTo(fs: Fs, owner: Owner, i: nat, bits: seq<nat>, k: nat) {
    && FsInv(fs, owner) && i < |fs.inodes| && k <= IND + 1 && |bits| == |fs.bits|
    && forall c: nat | c < fs.total :: FreedAt(fs, owner, i, bits, k, c)
  }

  /** Freeing slot k never meets the panic. */
  lemma FreeNext(fs: Fs, owner: Owner, i: nat, bits: seq<nat>, k: nat)
    requires FreedTo(fs, owner, i, bits, k) && k <= IND
    ensures Addr(fs, i, k) == 0 ==> FreedTo(fs, owner, i, bits, k + 1)
    ensures Addr(fs, i, k) != 0 ==>
              && Addr(fs, i, k) < fs.total && Marked(bits, Addr(fs, i, k))
              && FreedTo(fs, owner, i, PutMark(bits, Addr(fs, i, k), false), k + 1)
  {
    var a := Addr(fs, i, k);
    assert SlotOk(fs, owner, i, k);
    SlotRange(fs, owner, i, k);
    if a != 0 {
      assert FreedAt(fs, owner, i, bits, k, a) && MarkOk(fs, owner, a);
    }
    var bits' := if a == 0 then bits else PutMark(bits, a, false);
    var k' := k + 1;
    forall c: nat | c < fs.total ensures FreedAt(fs, owner, i, bits', k', c) {
      assert FreedAt(fs, owner, i, bits, k, c);
      if a != 0 { MarkRoundTrip(bits, a, false, c); }
      if c in owner { assert OwnedOk(fs, owner, c); }
    }
  }

  /** Without an indirect block there is nothing left to free. */
  lemma FreeRest(fs: Fs, owner: Owner, i: nat, bits: seq<nat>)
    requires FreedTo(fs, owner, i, bits, NDIRECT) && fs.inodes[i].addrs[NDIRECT] == 0
    ensures FreedTo(fs, owner, i, bits, IND + 1)
  {
    var k := IND + 1;
    forall c: nat | c < fs.total ensures FreedAt(fs, owner, i, bits, k, c) {
      assert FreedAt(fs, owner, i, bits, NDIRECT, c);
      if c in owner { assert OwnedOk(fs, owner, c); }
    }
  }

  class FileSys {
    const first: nat
    const total: nat
    var blocks: seq<Block>
    var bits: seq<nat>
    var inodes: seq<Inode>
    ghost var owner: Owner

    ghost function Abs(): Fs
      reads this
    {
      Fs(first, total, blocks, bits, inodes)
    }

    ghost predicate Valid()
      reads this
    {
      FsInv(Abs(), owner)
    }

    /** Every data block is in use. */
    ghost predicate Full()
      reads this
    {
      forall a: nat | first <= a < total :: a in owner
    }

    /** A disk whose metadata blocks are marked and whose inodes own nothing. */
    constructor (first: nat, total: nat, bits: seq<nat>, inodes: nat)
      requires 0 < first <= total < WORD && total <= 8 * |bits|
      requires forall a: nat | a < total :: Marked(bits, a) <==> a < first
      ensures Valid() && owner == map[]
    {
      this.first, this.total, this.bits, owner := first, total, bits, map[];
      blocks := seq(total, _ => Zeros());
      this.inodes := seq(inodes, _ => EMPTY);
      new;
      forall j: nat, t: nat | j < inodes && t <= IND ensures SlotOk(Abs(), owner, j, t) {
        assert Addr(Abs(), j, t) == 0;
      }
      forall a: nat | a < total ensures MarkOk(Abs(), owner, a) {}
    }

    /** balloc: the first block the free map does not mark, marked and zeroed; 0 if there is none. */
    method Balloc() returns (r: nat)
      requires Valid()
      modifies this`blocks, this`bits
      ensures r == 0 ==> Abs() == old(Abs()) && Full()
      ensures r != 0 ==> && FreeBlock(old(Abs()), owner, r) && (forall a: nat | first <= a < r :: a in owner)
                         && blocks == old(blocks)[r := Zeros()] && bits == PutMark(old(bits), r, true)
    {
      var b := 0;
      while b < total
        invariant 0 <= b && forall c: nat | c < b && c < total :: Marked(bits, c)
      {
        var bi := 0;
        while bi < BPB && b + bi < total
          invariant 0 <= bi <= BPB && forall c: nat | c < b + bi && c < total :: Marked(bits, c)
        {
          if !Marked(bits, b + bi) {
            assert MarkOk(Abs(), owner, b + bi);
            forall a: nat | first <= a < b + bi ensures a in owner {
              assert MarkOk(Abs(), owner, a);
            }
            bits := PutMark(bits, b + bi, true);
            blocks := blocks[b + bi := Zeros()];
            return b + bi;
          }
          bi := bi + 1;
        }
        b := b + BPB;
      }
      forall a: nat | first <= a < total ensures a in owner {
        assert MarkOk(Abs(), owner, a);
      }
      return 0;
    }

    /** bmap: the block in slot bn, allocated if the slot is empty, and with it the indirect block
        if the slot is in there.  No other block is taken, nothing that was there moves or
        changes, and it gives 0 only when every data block is in use. */
    method Bmap(i: nat, bn: nat) returns (addr: nat)
      requires Valid() && i < |inodes| && bn < MAXFILE
      modifies this
      ensures Valid() && Extends(old(Abs()), Abs())
      ensures addr == 0 ==> Full()
      ensures addr != 0 ==> addr == Addr(Abs(), i, bn) < total
      ensures addr == 0 ==> Addr(Abs(), i, bn) == 0
      ensures Addr(old(Abs()), i, bn) != 0 ==> addr != 0 && Abs() == old(Abs()) && owner == old(owner)
      ensures Gains(old(owner), owner, i, bn, bn + 1)
    {
      SlotRange(Abs(), owner, i, bn);
      if bn < NDIRECT {
        addr := inodes[i].addrs[bn];
        if addr == 0 {
          addr := NewSlot(i, bn, bn);
        } else {
          Unchanged(Abs());
        }
        return;
      }
      addr := BmapIndirect(i, bn);
    }

    /** The second half of bmap, for the blocks listed in the indirect block. */
    method BmapIndirect(i: nat, bn: nat) returns (addr: nat)
      requires Valid() && i < |inodes| && NDIRECT <= bn < MAXFILE
      modifies this
      ensures Valid() && Extends(old(Abs()), Abs())
      ensures addr == 0 ==> Full() && Addr(Abs(), i, bn) == 0
      ensures addr != 0 ==> addr == Addr(Abs(), i, bn) < total
      ensures Addr(old(Abs()), i, bn) != 0 ==> addr != 0 && Abs() == old(Abs()) && owner == old(owner)
      ensures Gains(old(owner), owner, i, bn, bn + 1)
    {
      SlotRange(Abs(), owner, i, bn);
      if inodes[i].addrs[NDIRECT] == 0 {
        var ind := NewSlot(i, IND, bn);
        if ind == 0 {
          return 0;
        }
      } else {
        Unchanged(Abs());
      }
      ghost var mid, own := Abs(), owner;
      addr := GetWord(blocks[inodes[i].addrs[NDIRECT]], bn - NDIRECT);
      if addr == 0 {
        addr := NewSlot(i, bn, bn);
        ExtendsTrans(old(Abs()), mid, Abs());
        GainsTwo(old(owner), own, owner, i, bn, bn + 1);
      } else {
        SlotRange(Abs(), owner, i, bn);
      }
    }

    /** Allocates a block for the empty slot s, if there is one to allocate. */
    method NewSlot(i: nat, s: nat, ghost bn: nat) returns (addr: nat)
      requires Valid() && i < |inodes| && s <= IND && Addr(Abs(), i, s) == 0
      requires NDIRECT <= s < IND ==> inodes[i].addrs[NDIRECT] != 0
      requires SlotIn(s, bn, bn + 1)
      modifies this
      ensures Valid() && Extends(old(Abs()), Abs())
      ensures addr == 0 ==> Abs() == old(Abs()) && Full()
      ensures addr != 0 ==> addr == Addr(Abs(), i, s) < total
      ensures Gains(old(owner), owner, i, bn, bn + 1)
      ensures addr != 0 ==> Abs() == WithSlot(old(Abs()), i, s, addr) && owner == old(owner)[addr := (i, s)]
    {
      ghost var fs := Abs();
      addr := Balloc();
      if addr == 0 {
        Unchanged(fs);
        return;
      }
      AssignKeepsInv(fs, owner, i, s, addr);
      var ip := inodes[i];
      if s < NDIRECT {
        inodes := inodes[i := ip.(addrs := ip.addrs[s := addr])];
      } else if s == IND {
        inodes := inodes[i := ip.(addrs := ip.addrs[NDIRECT := addr])];
      } else {
        var ind := ip.addrs[NDIRECT];
        blocks := blocks[ind := PutWord(blocks[ind], s - NDIRECT, addr)];
      }
      GainsOne(owner, addr, i, s, bn, bn + 1);
      owner := owner[addr := (i, s)];
      assert Abs() == WithSlot(fs, i, s, addr);
    }

    lemma Unchanged(fs: Fs)
      requires FsInv(fs, owner)
      ensures Extends(fs, fs)
    {}

    /** One round of readi.  bmap finds every block, so the round never stops short. */
    method ReadRound(i: nat, pos: nat, left: nat) returns (chunk: seq<nat>)
      requires Valid() && i < |inodes| && 0 < left && pos + left <= inodes[i].size
      modifies this
      ensures Abs() == old(Abs()) && owner == old(owner)
      ensures 0 < |chunk| <= left && chunk == Content(Abs(), i)[pos..pos + |chunk|]
    {
      var m := Min(left, BSIZE - pos % BSIZE);
      ReadChunk(Abs(), owner, i, pos, m);
      var addr := Bmap(i, pos / BSIZE);
      assert addr != 0;
      chunk := blocks[addr][pos % BSIZE..pos % BSIZE + m];
    }

    /** readi: a slice of the file.  The caller's memory takes `room` bytes; a copy that runs
        past them fails, and readi with it. */
    method Readi(i: nat, off: nat, n: nat, room: nat) returns (r: int, data: seq<nat>)
      requires Valid() && i < |inodes| && off < WORD && n < WORD
      modifies this
      ensures Valid() && Abs() == old(Abs()) && owner == old(owner)
      ensures off > inodes[i].size || off + n >= WORD ==> r == 0 && data == []
      ensures off <= inodes[i].size && off + n < WORD ==>
                var want := Min(n, inodes[i].size - off);
                && (r == -1 <==> room < want)
                && (r != -1 ==> r == want && data == Content(Abs(), i)[off..off + want])
    {
      r, data := 0, [];
      if off > inodes[i].size || off + n >= WORD {
        return;
      }
      var want := if off + n > inodes[i].size then inodes[i].size - off else n;
      r, data := CopyFrom(i, off, want, room);
    }

    /** The loop of readi. */
    method CopyFrom(i: nat, off: nat, want: nat, room: nat) returns (r: int, data: seq<nat>)
      requires Valid() && i < |inodes| && off + want <= inodes[i].size
      modifies this
      ensures Valid() && Abs() == old(Abs()) && owner == old(owner)
      ensures r == if room < want then -1 else want
      ensures r != -1 ==> data == Content(Abs(), i)[off..off + want]
    {
      data := [];
      ghost var fs, c := Abs(), Content(Abs(), i);
      var tot := 0;
      while tot < want
        invariant 0 <= tot <= want && tot <= room && Abs() == fs && owner == old(owner)
        invariant data == c[off..off + tot]
        decreases want - tot
      {
        var chunk := ReadRound(i, off + tot, want - tot);
        if tot + |chunk| > room {
          return -1, data;
        }
        SliceMore(c, off, off + tot, off + tot + |chunk|);
        data := data + chunk;
        tot := tot + |chunk|;
      }
      r := tot;
    }

    /** writei: overwrites and extends the file.  The caller's memory gives the first `avail`
        bytes of src; a copy that runs past them fails.  What a failing copy has put into the
        block stays there: `done` bytes of src are in the blocks, of which the file shows those
        within its size.  If the free blocks fill the empty slots that the copies reach, the count
        is Reported, and it tells the whole change exactly when the tail is kept.  If not, it
        ends at the first slot they do not fill. */
    method Writei(i: nat, off: nat, src: seq<nat>, avail: nat) returns (r: int, ghost done: nat)
      requires Valid() && i < |inodes| && off < WORD && |src| < WORD
      requires forall k | 0 <= k < |src| :: src[k] < 256
      modifies this
      ensures Valid() && |inodes| == |old(inodes)|
      ensures r == -1 <==> off > old(inodes)[i].size || off + |src| >= WORD || off + |src| > MAXFILE * BSIZE
      ensures r == -1 ==> Abs() == old(Abs()) && owner == old(owner)
      ensures r != -1 ==> && 0 <= r <= done <= |src| && |Content(Abs(), i)| == Max(old(inodes)[i].size, off + r)
                          && Content(Abs(), i) <= Overwrite(Content(old(Abs()), i), off, src[..done])
      ensures forall j: nat | j < |inodes| && j != i :: Content(Abs(), j) == Content(old(Abs()), j)
      ensures r != -1 ==> Counted(old(Abs()), old(owner), i, off, |src|, avail, r, done)
      ensures r != -1 && Fits(old(Abs()), old(owner), i, off / BSIZE, Reach(off, |src|, avail)) ==>
                (Content(Abs(), i) == Overwrite(Content(old(Abs()), i), off, src[..r])
                 <==> TailKept(Content(old(Abs()), i), off, src, avail))
      ensures r != -1 ==> Gains(old(owner), owner, i, off / BSIZE, Reach(off, |src|, avail))
    {
      done := 0;
      var n := |src|;
      if off > inodes[i].size || off + n >= WORD {
        return -1, done;
      }
      if off + n > MAXFILE * BSIZE {
        return -1, done;
      }
      ghost var was := Abs();
      WrittenStart(was, owner, i, off, src);
      r, done := WriteRounds(was, i, off, src, avail);
      SetSize(was, i, off, src, r, done);
      if r == Reported(off, n, avail) && done == Min(avail, n) {
        ShownIsWholeIff(Content(was, i), Content(Abs(), i), off, src, avail, r);
      }
    }

    /** The loop of writei. */
    method WriteRounds(ghost was: Fs, i: nat, off: nat, src: seq<nat>, avail: nat) returns (tot: nat, ghost done: nat)
      requires Valid() && was == Abs() && Written(was, Abs(), i, off, src, 0)
      requires forall k | 0 <= k < |src| :: src[k] < 256
      modifies this
      ensures Valid() && tot <= done <= |src| && Written(was, Abs(), i, off, src, done)
      ensures Counted(was, old(owner), i, off, |src|, avail, tot, done)
      ensures Gains(old(owner), owner, i, off / BSIZE, Reach(off, |src|, avail))
    {
      tot, done := 0, 0;
      while tot < |src|
        invariant BetweenRounds(off, |src|, avail, tot) && done == tot
        invariant Valid() && Written(was, Abs(), i, off, src, tot)
        invariant Gains(old(owner), owner, i, off / BSIZE, BlockEnd(off, tot))
        decreases |src| - tot
      {
        var m, stops := WriteStep(was, old(owner), i, off, src, avail, tot);
        done := tot + m;
        if stops {
          return;
        }
        tot := tot + m;
      }
      WroteAll(was, old(owner), Abs(), owner, i, off, src, avail);
    }

    /** One round of that loop, counting blocks from the state in which it began. */
    method WriteStep(ghost was: Fs, ghost own: Owner, i: nat, off: nat, src: seq<nat>, avail: nat, tot: nat)
      returns (m: nat, stops: bool)
      requires Valid() && Written(was, Abs(), i, off, src, tot) && tot < |src|
      requires BetweenRounds(off, |src|, avail, tot) && Gains(own, owner, i, off / BSIZE, BlockEnd(off, tot))
      requires FsInv(was, own) && was.first == first && was.total == total
      requires forall k | 0 <= k < |src| :: src[k] < 256
      modifies this
      ensures Valid() && tot + m <= |src| && Written(was, Abs(), i, off, src, tot + m)
      ensures !stops ==> && m > 0 && BetweenRounds(off, |src|, avail, tot + m)
                         && Gains(own, owner, i, off / BSIZE, BlockEnd(off, tot + m))
      ensures stops ==> && Counted(was, own, i, off, |src|, avail, tot, tot + m)
                        && Gains(own, owner, i, off / BSIZE, Reach(off, |src|, avail))
    {
      ghost var mid := owner;
      var fails;
      m, fails := WriteRound(was, i, off, src, avail, tot);
      stops := m == 0 || fails;
      RoundGains(own, mid, owner, i, off, |src|, avail, tot);
      AfterRound(was, own, Abs(), owner, i, off, src, avail, tot, m, fails);
    }

    /** The end of writei: the file grows to the last byte reported. */
    method SetSize(ghost was: Fs, i: nat, off: nat, ghost src: seq<nat>, tot: nat, ghost done: nat)
      requires Valid() && Written(was, Abs(), i, off, src, done) && tot <= done
      modifies this`inodes
      ensures Valid() && |inodes| == |was.inodes|
      ensures |Content(Abs(), i)| == Max(was.inodes[i].size, off + tot)
      ensures Content(Abs(), i) <= Overwrite(Content(was, i), off, src[..done])
      ensures forall j: nat | j < |inodes| && j != i :: Content(Abs(), j) == Content(was, j)
    {
      ghost var size := Max(was.inodes[i].size, off + tot);
      WrittenEnd(was, Abs(), owner, i, off, src, done, size);
      if off + tot > inodes[i].size {
        inodes := inodes[i := inodes[i].(size := off + tot)];
      }
      assert Abs() == WithSize(old(Abs()), i, size);
    }

    /** One round of writei: the bytes put into the block, and whether the copy failed; 0
        bytes without failing only when no data block is left. */
    method WriteRound(ghost was: Fs, i: nat, off: nat, src: seq<nat>, avail: nat, tot: nat)
      returns (m: nat, fails: bool)
      requires Valid() && Written(was, Abs(), i, off, src, tot) && tot < |src|
      requires BetweenRounds(off, |src|, avail, tot)
      requires forall k | 0 <= k < |src| :: src[k] < 256
      modifies this
      ensures Valid() && tot + m <= |src| && Written(was, Abs(), i, off, src, tot + m)
      ensures RoundDone(Abs(), owner, i, off, |src|, avail, tot, m, fails)
      ensures Gains(old(owner), owner, i, (off + tot) / BSIZE, (off + tot) / BSIZE + 1)
    {
      ghost var before, own := Abs(), owner;
      var pos := off + tot;
      var addr := Bmap(i, pos / BSIZE);
      WrittenExtends(was, before, own, Abs(), i, off, src, tot);
      if addr == 0 {
        return 0, false;
      }
      m, fails := CopyRound(was, i, off, src, avail, tot, addr);
    }

    /** The rest of a round, once the block is there. */
    method CopyRound(ghost was: Fs, i: nat, off: nat, src: seq<nat>, avail: nat, tot: nat, addr: nat)
      returns (m: nat, fails: bool)
      requires Valid() && Written(was, Abs(), i, off, src, tot) && tot < |src|
      requires BetweenRounds(off, |src|, avail, tot) && 0 < addr == Addr(Abs(), i, (off + tot) / BSIZE) < total
      requires forall k | 0 <= k < |src| :: src[k] < 256
      modifies this`blocks
      ensures Valid() && tot + m <= |src| && Written(was, Abs(), i, off, src, tot + m)
      ensures RoundDone(Abs(), owner, i, off, |src|, avail, tot, m, fails)
    {
      m := Min(|src| - tot, BSIZE - (off + tot) % BSIZE);
      RoundEnds(off, |src|, avail, tot, m);
      fails := tot + m > avail;
      if fails {
        m := avail - tot;
      }
      if m > 0 {
        WriteChunk(was, i, off, src, tot, m, addr);
      }
    }

    /** The copy of one round of writei. */
    method WriteChunk(ghost was: Fs, i: nat, off: nat, src: seq<nat>, tot: nat, m: nat, addr: nat)
      requires Valid() && Written(was, Abs(), i, off, src, tot)
      requires forall k | 0 <= k < |src| :: src[k] < 256
      requires 0 < m && tot + m <= |src| && (off + tot) % BSIZE + m <= BSIZE
      requires 0 < addr == Addr(Abs(), i, (off + tot) / BSIZE) < total
      modifies this`blocks
      ensures Valid() && Written(was, Abs(), i, off, src, tot + m) && Addr(Abs(), i, (off + tot) / BSIZE) == addr
    {
      var o, b := (off + tot) % BSIZE, blocks[addr];
      assert IsBlock(b);
      var data := b[..o] + src[tot..tot + m] + b[o + m..];
      assert IsBlock(data);
      PokeKeepsInv(Abs(), owner, i, (off + tot) / BSIZE, data);
      PokeAddr(Abs(), owner, i, (off + tot) / BSIZE, data, i, (off + tot) / BSIZE);
      WrittenChunk(was, Abs(), owner, i, off, src, tot, m, data);
      blocks := blocks[addr := data];
      assert Abs() == Poke(old(Abs()), addr, data);
    }

    /** bfree; false is the panic "freeing free block". */
    method Bfree(b: nat) returns (ok: bool)
      requires b / 8 < |bits|
      modifies this`bits
      ensures ok == Marked(old(bits), b)
      ensures bits == if ok then PutMark(old(bits), b, false) else old(bits)
    {
      if !Marked(bits, b) {
        return false;
      }
      bits := PutMark(bits, b, false);
      return true;
    }

    /** itrunc: frees exactly the blocks the inode owns and empties it. */
    method Itrunc(i: nat)
      requires Valid() && i < |inodes|
      modifies this
      ensures Valid() && owner == Disowned(old(owner), i)
      ensures blocks == old(blocks) && inodes == old(inodes)[i := EMPTY]
      ensures forall j: nat | j < |inodes| && j != i :: Content(Abs(), j) == Content(old(Abs()), j)
    {
      ghost var fs := Abs();
      assert InodeOk(fs, inodes[i]);
      for k := 0 to NDIRECT
        invariant FreedTo(fs, owner, i, bits, k) && owner == old(owner) && blocks == old(blocks)
        invariant |inodes| == |fs.inodes| && |inodes[i].addrs| == NDIRECT + 1
        invariant forall s | 0 <= s < k :: inodes[i].addrs[s] == 0
        invariant forall s | k <= s <= NDIRECT :: inodes[i].addrs[s] == fs.inodes[i].addrs[s]
        invariant inodes == fs.inodes[i := inodes[i]]
      {
        FreeNext(fs, owner, i, bits, k);
        if inodes[i].addrs[k] != 0 {
          var ok := Bfree(inodes[i].addrs[k]);
          assert ok;
          inodes := inodes[i := inodes[i].(addrs := inodes[i].addrs[k := 0])];
        }
      }
      if inodes[i].addrs[NDIRECT] != 0 {
        FreeIndirect(fs, i, inodes[i].addrs[NDIRECT]);
        inodes := inodes[i := inodes[i].(addrs := inodes[i].addrs[NDIRECT := 0])];
      } else {
        FreeRest(fs, owner, i, bits);
      }
      inodes := inodes[i := inodes[i].(size := 0)];
      assert inodes[i] == EMPTY;
      assert inodes == fs.inodes[i := EMPTY];
      forall a: nat | a < total ensures Marked(bits, a) <==> Marked(fs.bits, a) && !(a in owner && owner[a].0 == i) {
        assert FreedAt(fs, owner, i, bits, IND + 1, a);
        if a in owner { assert OwnedOk(fs, owner, a); }
      }
      TruncKeepsInv(fs, owner, i, bits);
      owner := Disowned(owner, i);
    }

    /** The second half of itrunc: the blocks listed in the indirect block, then that block. */
    method FreeIndirect(ghost fs: Fs, i: nat, ind: nat)
      requires FreedTo(fs, owner, i, bits, NDIRECT) && blocks == fs.blocks
      requires ind == fs.inodes[i].addrs[NDIRECT] != 0
      modifies this`bits
      ensures FreedTo(fs, owner, i, bits, IND + 1)
    {
      assert InodeOk(fs, fs.inodes[i]);
      for j := 0 to NINDIRECT
        invariant FreedTo(fs, owner, i, bits, NDIRECT + j)
      {
        FreeNext(fs, owner, i, bits, NDIRECT + j);
        var a := GetWord(blocks[ind], j);
        if a != 0 {
          var ok := Bfree(a);
          assert ok;
        }
      }
      FreeNext(fs, owner, i, bits, IND);
      var ok := Bfree(ind);
      assert ok;
    }
  }
}
