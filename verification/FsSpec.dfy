/** Inodes, the blocks they own, and the bytes of a file. */
module FsSpec {
  import opened FsLayout
  import opened SetSizes

  datatype Inode = Inode(addrs: seq<nat>, size: nat)

  /** `first` is the first data block and `total` the number of blocks (sb.size). */
  datatype Fs = Fs(first: nat, total: nat, blocks: seq<Block>, bits: seq<nat>, inodes: seq<Inode>)

  /** Which inode owns a block, and in which slot.  Slots 0..267 are the blocks of the file;
      slot IND is the indirect block itself. */
  type Owner = map<nat, (nat, nat)>
  const IND := MAXFILE

  predicate InodeOk(fs: Fs, ip: Inode) {
    |ip.addrs| == NDIRECT + 1 && ip.addrs[NDIRECT] < fs.total && ip.size <= MAXFILE * BSIZE
  }

  ghost predicate Shape(fs: Fs) {
    && 0 < fs.first <= fs.total < WORD && |fs.blocks| == fs.total && fs.total <= 8 * |fs.bits|
    && (forall a | 0 <= a < |fs.blocks| :: IsBlock(fs.blocks[a]))
    && (forall i | 0 <= i < |fs.inodes| :: InodeOk(fs, fs.inodes[i]))
  }

  /** The block number in slot s of inode i, or 0. */
  ghost function Addr(fs: Fs, i: nat, s: nat): nat
    requires Shape(fs) && i < |fs.inodes| && s <= IND
  {
    var addrs := fs.inodes[i].addrs;
    if s < NDIRECT then addrs[s]
    else if s == IND then addrs[NDIRECT]
    else if addrs[NDIRECT] == 0 then 0
    else GetWord(fs.blocks[addrs[NDIRECT]], s - NDIRECT)
  }

  ghost predicate SlotOk(fs: Fs, owner: Owner, i: nat, s: nat)
    requires Shape(fs) && i < |fs.inodes| && s <= IND
  {
    var a := Addr(fs, i, s);
    a == 0 || (a in owner && owner[a] == (i, s))
  }

  ghost predicate OwnedOk(fs: Fs, owner: Owner, a: nat)
    requires Shape(fs) && a in owner
  {
    var (i, s) := owner[a];
    fs.first <= a < fs.total && i < |fs.inodes| && s <= IND && Addr(fs, i, s) == a
  }

  ghost predicate MarkOk(fs: Fs, owner: Owner, a: nat)
    requires Shape(fs) && a < fs.total
  {
    Marked(fs.bits, a) <==> a < fs.first || a in owner
  }

  /** Every block below the end of the file is there. */
  ghost predicate Mapped(fs: Fs, i: nat, bn: nat)
    requires Shape(fs) && i < |fs.inodes| && bn < MAXFILE
  {
    bn * BSIZE < fs.inodes[i].size ==> Addr(fs, i, bn) != 0
  }

  /** No block is in two slots, of one inode or of two; the free map marks exactly the
      blocks owned and the metadata; files have no holes. */
  ghost predicate FsInv(fs: Fs, owner: Owner) {
    && Shape(fs)
    && (forall i: nat, s: nat | i < |fs.inodes| && s <= IND :: SlotOk(fs, owner, i, s))
    && (forall a | a in owner :: OwnedOk(fs, owner, a))
    && (forall a: nat | a < fs.total :: MarkOk(fs, owner, a))
    && (forall i: nat, bn: nat | i < |fs.inodes| && bn < MAXFILE :: Mapped(fs, i, bn))
  }

  /** Slots with the same block are the same slot. */
  lemma NoSharing(fs: Fs, owner: Owner, i: nat, s: nat, j: nat, t: nat)
    requires FsInv(fs, owner) && i < |fs.inodes| && j < |fs.inodes| && s <= IND && t <= IND
    requires Addr(fs, i, s) == Addr(fs, j, t) != 0
    ensures (i, s) == (j, t)
  {
    assert SlotOk(fs, owner, i, s) && SlotOk(fs, owner, j, t);
  }

  /** A block in a slot is a data block of the disk. */
  lemma SlotRange(fs: Fs, owner: Owner, i: nat, s: nat)
    requires FsInv(fs, owner) && i < |fs.inodes| && s <= IND
    ensures Addr(fs, i, s) != 0 ==> Addr(fs, i, s) in owner && fs.first <= Addr(fs, i, s) < fs.total
  {
    assert SlotOk(fs, owner, i, s);
    if Addr(fs, i, s) != 0 { assert OwnedOk(fs, owner, Addr(fs, i, s)); }
  }

  // ---- Putting a new block into an empty slot ----

  ghost predicate FreeBlock(fs: Fs, owner: Owner, a: nat) {
    fs.first <= a < fs.total && a !in owner
  }

  /** The state after balloc has zeroed and marked block a and slot s of inode i is set to it. */
  ghost function WithSlot(fs: Fs, i: nat, s: nat, a: nat): Fs
    requires Shape(fs) && i < |fs.inodes| && s <= IND && a < fs.total
  {
    var blocks := fs.blocks[a := Zeros()];
    var ip := fs.inodes[i];
    var bits := PutMark(fs.bits, a, true);
    if s < NDIRECT then fs.(blocks := blocks, bits := bits, inodes := fs.inodes[i := ip.(addrs := ip.addrs[s := a])])
    else if s == IND then
      fs.(blocks := blocks, bits := bits, inodes := fs.inodes[i := ip.(addrs := ip.addrs[NDIRECT := a])])
    else
      var ind := ip.addrs[NDIRECT];
      fs.(blocks := blocks[ind := PutWord(blocks[ind], s - NDIRECT, a)], bits := bits)
  }

  ghost predicate CanAssign(fs: Fs, owner: Owner, i: nat, s: nat, a: nat) {
    && FsInv(fs, owner) && i < |fs.inodes| && s <= IND && Addr(fs, i, s) == 0 && FreeBlock(fs, owner, a)
    && (NDIRECT <= s < IND ==> fs.inodes[i].addrs[NDIRECT] != 0)
  }

  lemma AssignShape(fs: Fs, owner: Owner, i: nat, s: nat, a: nat)
    requires CanAssign(fs, owner, i, s, a)
    ensures Shape(WithSlot(fs, i, s, a))
  {
    var r := WithSlot(fs, i, s, a);
    if NDIRECT <= s < IND {
      var ind := fs.inodes[i].addrs[NDIRECT];
      WordRoundTrip(fs.blocks[a := Zeros()][ind], s - NDIRECT, a, 0);
    }
    forall j | 0 <= j < |r.inodes| ensures InodeOk(r, r.inodes[j]) {
      assert InodeOk(fs, fs.inodes[j]);
    }
  }

  lemma AssignAddr(fs: Fs, owner: Owner, i: nat, s: nat, a: nat, j: nat, t: nat)
    requires CanAssign(fs, owner, i, s, a) && j < |fs.inodes| && t <= IND
    ensures Shape(WithSlot(fs, i, s, a))
    ensures Addr(WithSlot(fs, i, s, a), j, t) == if (j, t) == (i, s) then a else Addr(fs, j, t)
  {
    AssignShape(fs, owner, i, s, a);
    var r := WithSlot(fs, i, s, a);
    SlotRange(fs, owner, j, IND);
    SlotRange(fs, owner, i, IND);
    if NDIRECT <= t < IND {
      if s == IND && j == i {
        ZeroWords(t - NDIRECT);
      } else if NDIRECT <= s < IND && fs.inodes[j].addrs[NDIRECT] != 0 {
        if j != i && fs.inodes[j].addrs[NDIRECT] == fs.inodes[i].addrs[NDIRECT] {
          NoSharing(fs, owner, i, IND, j, IND);
        }
        WordRoundTrip(fs.blocks[fs.inodes[i].addrs[NDIRECT]], s - NDIRECT, a, t - NDIRECT);
      }
    }
  }

  // ---- The bytes of a file ----

  ghost function Byte(fs: Fs, i: nat, off: nat): nat
    requires Shape(fs) && i < |fs.inodes| && off < MAXFILE * BSIZE
  {
    var a := Addr(fs, i, off / BSIZE);
    if a < fs.total then fs.blocks[a][off % BSIZE] else 0
  }

  ghost function Content(fs: Fs, i: nat): seq<nat>
    requires Shape(fs) && i < |fs.inodes|
  {
    seq(fs.inodes[i].size, off requires 0 <= off < fs.inodes[i].size => Byte(fs, i, off))
  }

  /** What was in slot t of inode j is still there, data included. */
  ghost predicate KeepsSlot(fs: Fs, fs': Fs, j: nat, t: nat)
    requires Shape(fs) && Shape(fs') && j < |fs.inodes| == |fs'.inodes| && t <= IND && fs'.total == fs.total
  {
    var a := Addr(fs, j, t);
    a != 0 ==> Addr(fs', j, t) == a && (t < MAXFILE && a < fs.total ==> fs'.blocks[a] == fs.blocks[a])
  }

  /** fs' has the blocks and sizes of fs and perhaps more blocks. */
  ghost predicate Extends(fs: Fs, fs': Fs) {
    && Shape(fs) && Shape(fs') && |fs.inodes| == |fs'.inodes| && fs'.total == fs.total && fs'.first == fs.first
    && (forall j | 0 <= j < |fs.inodes| :: fs'.inodes[j].size == fs.inodes[j].size)
    && (forall j: nat, t: nat | j < |fs.inodes| && t <= IND :: KeepsSlot(fs, fs', j, t))
  }

  lemma ExtendsTrans(fs: Fs, fs': Fs, fs'': Fs)
    requires Extends(fs, fs') && Extends(fs', fs'')
    ensures Extends(fs, fs'')
  {
    forall j: nat, t: nat | j < |fs.inodes| && t <= IND ensures KeepsSlot(fs, fs'', j, t) {
      assert KeepsSlot(fs, fs', j, t) && KeepsSlot(fs', fs'', j, t);
    }
  }

  lemma ExtendsByte(fs: Fs, fs': Fs, owner: Owner, j: nat, off: nat)
    requires Extends(fs, fs') && FsInv(fs, owner) && j < |fs.inodes| && off < MAXFILE * BSIZE
    requires Addr(fs, j, off / BSIZE) != 0
    ensures Addr(fs', j, off / BSIZE) != 0 && Byte(fs', j, off) == Byte(fs, j, off)
  {
    assert KeepsSlot(fs, fs', j, off / BSIZE);
    SlotRange(fs, owner, j, off / BSIZE);
  }

  lemma ExtendsContent(fs: Fs, fs': Fs, owner: Owner, j: nat)
    requires Extends(fs, fs') && FsInv(fs, owner) && j < |fs.inodes|
    ensures Content(fs', j) == Content(fs, j)
  {
    assert InodeOk(fs, fs.inodes[j]);
    forall off | 0 <= off < fs.inodes[j].size ensures Byte(fs', j, off) == Byte(fs, j, off) {
      assert Mapped(fs, j, off / BSIZE);
      ExtendsByte(fs, fs', owner, j, off);
    }
  }

  /** Filling an empty slot keeps the invariant and disturbs nothing. */
  lemma AssignKeepsInv(fs: Fs, owner: Owner, i: nat, s: nat, a: nat)
    requires CanAssign(fs, owner, i, s, a)
    ensures FsInv(WithSlot(fs, i, s, a), owner[a := (i, s)])
    ensures Extends(fs, WithSlot(fs, i, s, a)) && Addr(WithSlot(fs, i, s, a), i, s) == a
  {
    AssignShape(fs, owner, i, s, a);
    AssignAddr(fs, owner, i, s, a, i, s);
    var r, owner' := WithSlot(fs, i, s, a), owner[a := (i, s)];
    forall j: nat, t: nat | j < |r.inodes| && t <= IND
      ensures SlotOk(r, owner', j, t) && KeepsSlot(fs, r, j, t) {
      AssignAddr(fs, owner, i, s, a, j, t);
      assert SlotOk(fs, owner, j, t);
      SlotRange(fs, owner, j, t);
      SlotRange(fs, owner, i, IND);
      if NDIRECT <= s < IND && Addr(fs, j, t) == Addr(fs, i, IND) { NoSharing(fs, owner, j, t, i, IND); }
    }
    forall c | c in owner' ensures OwnedOk(r, owner', c) {
      if c != a { assert OwnedOk(fs, owner, c); }
      AssignAddr(fs, owner, i, s, a, owner'[c].0, owner'[c].1);
    }
    forall c: nat | c < r.total ensures MarkOk(r, owner', c) {
      MarkRoundTrip(fs.bits, a, true, c);
      assert MarkOk(fs, owner, c);
    }
    forall j: nat, bn: nat | j < |r.inodes| && bn < MAXFILE ensures Mapped(r, j, bn) {
      AssignAddr(fs, owner, i, s, a, j, bn);
      assert Mapped(fs, j, bn);
    }
  }

  // ---- How many blocks a file takes ----

  /** The slots that the file blocks from lo up to hi occupy: their own, and the indirect block
      if one of them is listed there. */
  predicate SlotIn(s: nat, lo: nat, hi: nat) {
    lo <= s < hi || (s == IND && lo < hi && hi > NDIRECT)
  }

  /** The slots among them that are still empty. */
  ghost function Needed(fs: Fs, i: nat, lo: nat, hi: nat): set<nat>
    requires Shape(fs) && i < |fs.inodes|
  {
    set s: nat | s <= IND && SlotIn(s, lo, hi) && Addr(fs, i, s) == 0
  }

  /** The data blocks in no slot. */
  ghost function FreeData(fs: Fs, owner: Owner): set<nat> {
    set a: nat | a < fs.total && FreeBlock(fs, owner, a)
  }

  /** There are blocks for all those slots. */
  ghost predicate Fits(fs: Fs, owner: Owner, i: nat, lo: nat, hi: nat)
    requires Shape(fs) && i < |fs.inodes|
  {
    |Needed(fs, i, lo, hi)| <= |FreeData(fs, owner)|
  }

  /** No block has changed hands, and the new ones are in those slots. */
  ghost predicate Gains(owner: Owner, owner': Owner, i: nat, lo: nat, hi: nat) {
    && (forall a {:trigger a in owner'} {:trigger a in owner} | a in owner :: a in owner' && owner'[a] == owner[a])
    && (forall a {:trigger owner'[a]} | a in owner' && a !in owner ::
          owner'[a].0 == i && SlotIn(owner'[a].1, lo, hi))
  }

  lemma GainsThen(a: Owner, b: Owner, c: Owner, i: nat, lo: nat, mid: nat, hi: nat)
    requires Gains(a, b, i, lo, mid) && Gains(b, c, i, mid, hi) && lo <= mid < hi
    ensures Gains(a, c, i, lo, hi)
  {}

  lemma GainsMore(a: Owner, b: Owner, i: nat, lo: nat, hi: nat, top: nat)
    requires Gains(a, b, i, lo, hi) && hi <= top
    ensures Gains(a, b, i, lo, top)
  {}

  lemma GainsOne(owner: Owner, a: nat, i: nat, s: nat, lo: nat, hi: nat)
    requires a !in owner && SlotIn(s, lo, hi)
    ensures Gains(owner, owner[a := (i, s)], i, lo, hi)
  {}

  lemma GainsTwo(a: Owner, b: Owner, c: Owner, i: nat, lo: nat, hi: nat)
    requires Gains(a, b, i, lo, hi) && Gains(b, c, i, lo, hi)
    ensures Gains(a, c, i, lo, hi)
  {}

  /** The slots that have been filled. */
  ghost function NewSlots(owner: Owner, owner': Owner): set<nat> {
    set a | a in owner' && a !in owner :: owner'[a].1
  }

  lemma {:induction false} SlotCount(fs: Fs, owner: Owner, i: nat, blocks: set<nat>, slots: set<nat>)
    requires FsInv(fs, owner) && i < |fs.inodes| && blocks <= owner.Keys
    requires forall a | a in blocks :: owner[a].0 == i
    requires slots == set a | a in blocks :: owner[a].1
    ensures |slots| == |blocks|
    decreases blocks
  {
    if blocks != {} {
      var a :| a in blocks;
      var rest := blocks - {a};
      var others := set b | b in rest :: owner[b].1;
      assert OwnedOk(fs, owner, a);
      forall b | b in rest ensures owner[b].1 != owner[a].1 {
        assert OwnedOk(fs, owner, b);
      }
      assert slots == others + {owner[a].1};
      SlotCount(fs, owner, i, rest, others);
    }
  }

  lemma NewSlotsCount(fs: Fs, owner: Owner, owner': Owner, i: nat)
    requires FsInv(fs, owner') && i < |fs.inodes|
    requires forall a | a in owner' && a !in owner :: owner'[a].0 == i
    ensures |NewSlots(owner, owner')| == |owner'.Keys - owner.Keys|
  {
    var blocks := owner'.Keys - owner.Keys;
    assert NewSlots(owner, owner') == set a | a in blocks :: owner'[a].1;
    SlotCount(fs, owner', i, blocks, NewSlots(owner, owner'));
  }

  /** A slot that has been filled was an empty one of the range. */
  lemma FilledWasEmpty(fs: Fs, owner: Owner, fs': Fs, owner': Owner, i: nat, lo: nat, hi: nat, a: nat)
    requires FsInv(fs, owner) && FsInv(fs', owner') && i < |fs.inodes| == |fs'.inodes|
    requires Gains(owner, owner', i, lo, hi) && a in owner' && a !in owner
    ensures owner'[a].1 in Needed(fs, i, lo, hi) && Addr(fs', i, owner'[a].1) == a != 0
  {
    assert OwnedOk(fs', owner', a) && SlotOk(fs, owner, i, owner'[a].1);
  }

  lemma FilledWereNeeded(fs: Fs, owner: Owner, fs': Fs, owner': Owner, i: nat, lo: nat, hi: nat)
    requires FsInv(fs, owner) && FsInv(fs', owner') && i < |fs.inodes| == |fs'.inodes|
    requires Gains(owner, owner', i, lo, hi)
    ensures NewSlots(owner, owner') <= Needed(fs, i, lo, hi)
    ensures |NewSlots(owner, owner')| == |owner'.Keys - owner.Keys|
    ensures forall s | s in NewSlots(owner, owner') :: s <= IND && Addr(fs', i, s) != 0
  {
    forall a | a in owner' && a !in owner
      ensures owner'[a].1 in Needed(fs, i, lo, hi) && Addr(fs', i, owner'[a].1) == a != 0 {
      FilledWasEmpty(fs, owner, fs', owner', i, lo, hi, a);
    }
    NewSlotsCount(fs', owner, owner', i);
  }

  /** A slot that is empty has always been. */
  lemma EmptyWasEmpty(fs: Fs, owner: Owner, fs': Fs, owner': Owner, i: nat, s: nat)
    requires FsInv(fs, owner) && FsInv(fs', owner') && i < |fs.inodes| == |fs'.inodes| && s <= IND
    requires Addr(fs', i, s) == 0 && forall a | a in owner :: a in owner' && owner'[a] == owner[a]
    ensures Addr(fs, i, s) == 0
  {
    var a := Addr(fs, i, s);
    assert SlotOk(fs, owner, i, s) && (a in owner' ==> OwnedOk(fs', owner', a));
  }

  /** All data blocks are in use and a slot is still empty: there were not enough. */
  lemma GaveOut(fs: Fs, owner: Owner, fs': Fs, owner': Owner, i: nat, lo: nat, hi: nat, s: nat)
    requires FsInv(fs, owner) && FsInv(fs', owner') && i < |fs.inodes| == |fs'.inodes|
    requires Gains(owner, owner', i, lo, hi) && SlotIn(s, lo, hi) && s <= IND && Addr(fs', i, s) == 0
    requires forall a: nat | fs.first <= a < fs.total :: a in owner'
    ensures !Fits(fs, owner, i, lo, hi)
  {
    FilledWereNeeded(fs, owner, fs', owner', i, lo, hi);
    EmptyWasEmpty(fs, owner, fs', owner', i, s);
    Fewer(FreeData(fs, owner), owner'.Keys - owner.Keys, NewSlots(owner, owner'), Needed(fs, i, lo, hi), s);
  }

  lemma Fewer(free: set<nat>, blocks: set<nat>, filled: set<nat>, needed: set<nat>, s: nat)
    requires free <= blocks && |blocks| == |filled| && filled <= needed && s in needed && s !in filled
    ensures |free| < |needed|
  {
    SubsetSize(free, blocks);
    SubsetSize(filled, needed);
  }

  /** A longer range needs no fewer blocks. */
  lemma FitsLess(fs: Fs, owner: Owner, i: nat, lo: nat, hi: nat, top: nat)
    requires Shape(fs) && i < |fs.inodes| && hi <= top && Fits(fs, owner, i, lo, top)
    ensures Fits(fs, owner, i, lo, hi)
  {
    SubsetSize(Needed(fs, i, lo, hi), Needed(fs, i, lo, top));
  }

  /** A slot that was empty and is not has a new block. */
  lemma FilledIsNew(fs: Fs, owner: Owner, fs': Fs, owner': Owner, i: nat, s: nat)
    requires FsInv(fs, owner) && FsInv(fs', owner') && i < |fs.inodes| == |fs'.inodes| && s <= IND
    requires Addr(fs, i, s) == 0 != Addr(fs', i, s)
    requires forall a | a in owner :: a in owner' && owner'[a] == owner[a]
    ensures s in NewSlots(owner, owner')
  {
    var a := Addr(fs', i, s);
    assert SlotOk(fs', owner', i, s) && owner'[a] == (i, s);
    assert a in owner ==> OwnedOk(fs, owner, a);
  }

  /** All slots of the range are filled: there were enough. */
  lemma WentRound(fs: Fs, owner: Owner, fs': Fs, owner': Owner, i: nat, lo: nat, hi: nat, top: nat)
    requires FsInv(fs, owner) && FsInv(fs', owner') && i < |fs.inodes| == |fs'.inodes| && hi <= top <= MAXFILE
    requires fs'.first == fs.first && fs'.total == fs.total && Gains(owner, owner', i, lo, top)
    requires forall bn: nat | lo <= bn < hi :: Addr(fs', i, bn) != 0
    ensures Fits(fs, owner, i, lo, hi)
  {
    forall s | s in Needed(fs, i, lo, hi) ensures s in NewSlots(owner, owner') {
      assert s == IND ==> Addr(fs', i, hi - 1) != 0;
      FilledIsNew(fs, owner, fs', owner', i, s);
    }
    SubsetSize(Needed(fs, i, lo, hi), NewSlots(owner, owner'));
    NewSlotsCount(fs', owner, owner', i);
    NewWereFree(fs, owner, fs', owner');
  }

  lemma NewWereFree(fs: Fs, owner: Owner, fs': Fs, owner': Owner)
    requires FsInv(fs', owner') && fs'.first == fs.first && fs'.total == fs.total
    ensures |owner'.Keys - owner.Keys| <= |FreeData(fs, owner)|
  {
    forall a | a in owner'.Keys - owner.Keys ensures a in FreeData(fs, owner) {
      assert OwnedOk(fs', owner', a);
    }
    SubsetSize(owner'.Keys - owner.Keys, FreeData(fs, owner));
  }

  // ---- Changing the data in a block ----

  ghost function Poke(fs: Fs, a: nat, data: Block): Fs
    requires a < |fs.blocks|
  {
    fs.(blocks := fs.blocks[a := data])
  }

  lemma PokeAddr(fs: Fs, owner: Owner, i: nat, bn: nat, data: Block, j: nat, t: nat)
    requires FsInv(fs, owner) && i < |fs.inodes| && bn < MAXFILE && Addr(fs, i, bn) != 0 && IsBlock(data)
    requires j < |fs.inodes| && t <= IND
    ensures Addr(fs, i, bn) < fs.total
    ensures Shape(Poke(fs, Addr(fs, i, bn), data))
    ensures Addr(Poke(fs, Addr(fs, i, bn), data), j, t) == Addr(fs, j, t)
  {
    SlotRange(fs, owner, i, bn);
    var r := Poke(fs, Addr(fs, i, bn), data);
    forall k | 0 <= k < |r.inodes| ensures InodeOk(r, r.inodes[k]) {
      assert InodeOk(fs, fs.inodes[k]);
    }
    if Addr(fs, j, IND) == Addr(fs, i, bn) { NoSharing(fs, owner, j, IND, i, bn); }
  }

  /** Writing to a data block changes the bytes of that block of that file and nothing else. */
  lemma PokeKeepsInv(fs: Fs, owner: Owner, i: nat, bn: nat, data: Block)
    requires FsInv(fs, owner) && i < |fs.inodes| && bn < MAXFILE && Addr(fs, i, bn) != 0 && IsBlock(data)
    ensures Addr(fs, i, bn) < fs.total && FsInv(Poke(fs, Addr(fs, i, bn), data), owner)
  {
    PokeAddr(fs, owner, i, bn, data, i, 0);
    var r := Poke(fs, Addr(fs, i, bn), data);
    forall j: nat, t: nat | j < |r.inodes| && t <= IND ensures SlotOk(r, owner, j, t) {
      PokeAddr(fs, owner, i, bn, data, j, t);
      assert SlotOk(fs, owner, j, t);
    }
    forall c | c in owner ensures OwnedOk(r, owner, c) {
      assert OwnedOk(fs, owner, c);
      PokeAddr(fs, owner, i, bn, data, owner[c].0, owner[c].1);
    }
    forall c: nat | c < r.total ensures MarkOk(r, owner, c) { assert MarkOk(fs, owner, c); }
    forall j: nat, b: nat | j < |r.inodes| && b < MAXFILE ensures Mapped(r, j, b) {
      PokeAddr(fs, owner, i, bn, data, j, b);
      assert Mapped(fs, j, b);
    }
  }

  lemma PokeByte(fs: Fs, owner: Owner, i: nat, bn: nat, data: Block, j: nat, off: nat)
    requires FsInv(fs, owner) && i < |fs.inodes| && bn < MAXFILE && Addr(fs, i, bn) != 0 && IsBlock(data)
    requires j < |fs.inodes| && off < MAXFILE * BSIZE && Addr(fs, j, off / BSIZE) != 0
    ensures Addr(fs, i, bn) < fs.total && Shape(Poke(fs, Addr(fs, i, bn), data))
    ensures Byte(Poke(fs, Addr(fs, i, bn), data), j, off)
            == if (j, off / BSIZE) == (i, bn) then data[off % BSIZE] else Byte(fs, j, off)
  {
    PokeAddr(fs, owner, i, bn, data, j, off / BSIZE);
    SlotRange(fs, owner, j, off / BSIZE);
    if Addr(fs, j, off / BSIZE) == Addr(fs, i, bn) { NoSharing(fs, owner, j, off / BSIZE, i, bn); }
  }

  // ---- Growing a file ----

  ghost function WithSize(fs: Fs, i: nat, size: nat): Fs
    requires i < |fs.inodes|
  {
    fs.(inodes := fs.inodes[i := fs.inodes[i].(size := size)])
  }

  lemma WithSizeKeepsInv(fs: Fs, owner: Owner, i: nat, size: nat)
    requires FsInv(fs, owner) && i < |fs.inodes| && size <= MAXFILE * BSIZE
    requires forall bn: nat | bn < MAXFILE && bn * BSIZE < size :: Addr(fs, i, bn) != 0
    ensures FsInv(WithSize(fs, i, size), owner)
    ensures forall j: nat, off: nat | j < |fs.inodes| && off < MAXFILE * BSIZE ::
              Byte(WithSize(fs, i, size), j, off) == Byte(fs, j, off)
  {
    var r := WithSize(fs, i, size);
    forall j | 0 <= j < |r.inodes| ensures InodeOk(r, r.inodes[j]) {
      assert InodeOk(fs, fs.inodes[j]);
    }
    forall j: nat, t: nat | j < |r.inodes| && t <= IND ensures SlotOk(r, owner, j, t) {
      assert SlotOk(fs, owner, j, t) && Addr(r, j, t) == Addr(fs, j, t);
    }
    forall c | c in owner ensures OwnedOk(r, owner, c) {
      assert OwnedOk(fs, owner, c) && Addr(r, owner[c].0, owner[c].1) == Addr(fs, owner[c].0, owner[c].1);
    }
    forall c: nat | c < r.total ensures MarkOk(r, owner, c) { assert MarkOk(fs, owner, c); }
    forall j: nat, b: nat | j < |r.inodes| && b < MAXFILE ensures Mapped(r, j, b) {
      assert Mapped(fs, j, b) && Addr(r, j, b) == Addr(fs, j, b);
    }
  }

  // ---- Truncation ----

  const EMPTY := Inode(seq(NDIRECT + 1, _ => 0), 0)

  /** The owner map and the state once inode i owns nothing. */
  function Disowned(owner: Owner, i: nat): Owner {
    map a | a in owner && owner[a].0 != i :: owner[a]
  }

  /** Freeing exactly the blocks of inode i and emptying it. */
  lemma TruncKeepsInv(fs: Fs, owner: Owner, i: nat, bits: seq<nat>)
    requires FsInv(fs, owner) && i < |fs.inodes| && |bits| == |fs.bits|
    requires forall a: nat | a < fs.total ::
               Marked(bits, a) <==> Marked(fs.bits, a) && !(a in owner && owner[a].0 == i)
    ensures FsInv(fs.(bits := bits, inodes := fs.inodes[i := EMPTY]), Disowned(owner, i))
    ensures var r := fs.(bits := bits, inodes := fs.inodes[i := EMPTY]);
            forall j: nat | j < |fs.inodes| && j != i ::
              Shape(r) && Content(r, j) == Content(fs, j)
  {
    var r, owner' := fs.(bits := bits, inodes := fs.inodes[i := EMPTY]), Disowned(owner, i);
    forall j | 0 <= j < |r.inodes| ensures InodeOk(r, r.inodes[j]) {
      assert InodeOk(fs, fs.inodes[j]);
    }
    forall j: nat, t: nat | j < |r.inodes| && t <= IND ensures SlotOk(r, owner', j, t) {
      assert SlotOk(fs, owner, j, t);
      if j == i { assert Addr(r, j, t) == 0; } else { assert Addr(r, j, t) == Addr(fs, j, t); }
    }
    forall c | c in owner' ensures OwnedOk(r, owner', c) { assert OwnedOk(fs, owner, c); }
    forall c: nat | c < r.total ensures MarkOk(r, owner', c) {
      assert MarkOk(fs, owner, c);
      if c in owner { assert OwnedOk(fs, owner, c); }
    }
    forall j: nat, b: nat | j < |r.inodes| && b < MAXFILE ensures Mapped(r, j, b) {
      assert Mapped(fs, j, b);
    }
    forall j: nat | j < |fs.inodes| && j != i ensures Content(r, j) == Content(fs, j) {
      assert InodeOk(fs, fs.inodes[j]);
      forall off | 0 <= off < fs.inodes[j].size ensures Byte(r, j, off) == Byte(fs, j, off) {
        assert Addr(r, j, off / BSIZE) == Addr(fs, j, off / BSIZE);
      }
    }
  }
}
