/** The redo log as a sequence of atomic disk writes: what a crash between any two of them,
    during commit or during recovery, can leave behind. */
module LogDisk {

  const LOGSIZE := 30

  /** A disk block as 32-bit words, and a disk write. */
  type Block = seq<int>
  datatype Write = Write(bn: nat, data: Block)

  function Apply(d: seq<Block>, ws: seq<Write>): (r: seq<Block>)
    ensures |r| == |d|
    decreases |ws|
  {
    if ws == [] then d
    else
      var e, w := Apply(d, ws[..|ws| - 1]), ws[|ws| - 1];
      if w.bn < |d| then e[w.bn := w.data] else e
  }

  lemma {:induction false} ApplyAppend(d: seq<Block>, us: seq<Write>, ws: seq<Write>)
    ensures Apply(d, us + ws) == Apply(Apply(d, us), ws)
    decreases |ws|
  {
    if ws == [] {
      assert us + ws == us;
    } else {
      var n := |ws| - 1;
      assert (us + ws)[..|us + ws| - 1] == us + ws[..n];
      ApplyAppend(d, us, ws[..n]);
    }
  }

  lemma ApplyNext(d: seq<Block>, ws: seq<Write>, k: nat)
    requires k < |ws| && ws[k].bn < |d|
    ensures Apply(d, ws[..k + 1]) == Apply(d, ws[..k])[ws[k].bn := ws[k].data]
    ensures ws[..k + 1] == ws[..k] + [ws[k]]
  {
    assert ws[..k + 1][..k] == ws[..k];
  }

  // ---- The header block ----

  function ReadHead(b: Block): seq<int>
    requires |b| > LOGSIZE && 0 <= b[0] <= LOGSIZE
  {
    b[1..1 + b[0]]
  }

  /** write_head overwrites n and the first n entries and leaves the rest of the block. */
  function PutHead(b: Block, lh: seq<int>): Block
    requires |b| > LOGSIZE && |lh| <= LOGSIZE
  {
    [|lh|] + lh + b[1 + |lh|..]
  }

  lemma HeadRoundTrip(b: Block, lh: seq<int>)
    requires |b| > LOGSIZE && |lh| <= LOGSIZE
    ensures var h := PutHead(b, lh);
            |h| == |b| && 0 <= h[0] <= LOGSIZE && ReadHead(h) == lh
  {
  }

  /** The log's place on the disk: log.start and log.size, header block included. */
  datatype Area = Area(start: nat, size: nat)

  /** The blocks that a log area of a given size has room for, the header aside. */
  function Capacity(size: nat): nat {
    if size == 0 then 0 else if size <= LOGSIZE then size - 1 else LOGSIZE
  }

  /** The block lies outside the log area. */
  predicate Home(area: Area, b: int) {
    b < area.start || area.start + area.size <= b
  }

  ghost predicate LoggedAt(area: Area, n: nat, lh: seq<int>, i: nat)
    requires i < |lh|
  {
    0 <= lh[i] < n && Home(area, lh[i])
  }

  ghost predicate Unlike(lh: seq<int>, i: nat, j: nat)
    requires i < |lh| && j < |lh|
  {
    i != j ==> lh[i] != lh[j]
  }

  /** A list of logged blocks: few enough, on a disk of n blocks, outside the log, all different. */
  ghost predicate LoggedOk(area: Area, n: nat, lh: seq<int>) {
    && |lh| <= Capacity(area.size)
    && (forall i: nat {:trigger LoggedAt(area, n, lh, i)} | i < |lh| :: LoggedAt(area, n, lh, i))
    && (forall i: nat, j: nat {:trigger Unlike(lh, i, j)} | i < |lh| && j < |lh| :: Unlike(lh, i, j))
  }

  /** The on-disk log is well formed. */
  ghost predicate Formatted(area: Area, d: seq<Block>) {
    && area.size > 0 && area.start + area.size <= |d|
    && |d[area.start]| > LOGSIZE && 0 <= d[area.start][0] <= LOGSIZE
    && LoggedOk(area, |d|, ReadHead(d[area.start]))
  }

  /** The position of b in lh, or |lh|. */
  function Slot(lh: seq<int>, b: int): (i: nat)
    ensures i <= |lh| && (i < |lh| ==> lh[i] == b) && (i == |lh| ==> b !in lh)
  {
    if lh == [] then 0 else if lh[0] == b then 0 else 1 + Slot(lh[1..], b)
  }

  lemma SlotIs(area: Area, n: nat, lh: seq<int>, i: nat)
    requires LoggedOk(area, n, lh) && i < |lh|
    ensures Slot(lh, lh[i]) == i && 0 <= lh[i] < n && Home(area, lh[i])
  {
    assert LoggedAt(area, n, lh, i) && Unlike(lh, i, Slot(lh, lh[i]));
  }

  /** What block b is to hold once the log has been replayed. */
  ghost function Logical(area: Area, d: seq<Block>, b: nat): Block
    requires Formatted(area, d) && b < |d|
  {
    var lh := ReadHead(d[area.start]);
    var i := Slot(lh, b);
    if i < |lh| then d[area.start + 1 + i] else d[b]
  }

  // ---- The writes of commit and of recovery, in order ----

  /** The cache holds the new contents of every logged block. */
  predicate Cached(lh: seq<int>, cache: map<int, Block>) {
    forall i | 0 <= i < |lh| :: lh[i] in cache
  }

  function LogWrites(area: Area, lh: seq<int>, cache: map<int, Block>): seq<Write>
    requires Cached(lh, cache)
  {
    seq(|lh|, i requires 0 <= i < |lh| => Write(area.start + 1 + i, cache[lh[i]]))
  }

  ghost function InstallWrites(area: Area, d: seq<Block>, lh: seq<int>): seq<Write>
    requires LoggedOk(area, |d|, lh) && area.start + area.size <= |d|
  {
    seq(|lh|, i requires 0 <= i < |lh| => assert LoggedAt(area, |d|, lh, i); Write(lh[i], d[area.start + 1 + i]))
  }

  ghost function RecoverWrites(area: Area, d: seq<Block>): seq<Write>
    requires Formatted(area, d)
  {
    InstallWrites(area, d, ReadHead(d[area.start])) + [Write(area.start, PutHead(d[area.start], []))]
  }

  /** The writes up to and including the commit record. */
  ghost function RecordWrites(area: Area, d: seq<Block>, lh: seq<int>, cache: map<int, Block>): seq<Write>
    requires Formatted(area, d) && LoggedOk(area, |d|, lh) && Cached(lh, cache)
  {
    LogWrites(area, lh, cache) + [Write(area.start, PutHead(d[area.start], lh))]
  }

  /** The disk when the commit record has just been written. */
  ghost function Committed(area: Area, d: seq<Block>, lh: seq<int>, cache: map<int, Block>): seq<Block>
    requires Formatted(area, d) && LoggedOk(area, |d|, lh) && Cached(lh, cache)
  {
    Apply(d, RecordWrites(area, d, lh, cache))
  }

  /** Block b after the first k log writes. */
  lemma {:induction false} AfterLogWrites(area: Area, d: seq<Block>, lh: seq<int>, cache: map<int, Block>, k: nat,
                                          b: nat)
    requires area.start + area.size <= |d| && |lh| <= Capacity(area.size) && Cached(lh, cache) && k <= |lh| && b < |d|
    ensures Apply(d, LogWrites(area, lh, cache)[..k])[b]
            == if area.start < b <= area.start + k then cache[lh[b - area.start - 1]] else d[b]
    decreases k
  {
    if k > 0 {
      AfterLogWrites(area, d, lh, cache, k - 1, b);
      ApplyNext(d, LogWrites(area, lh, cache), k - 1);
    }
  }

  /** Block b after the first k home copies. */
  lemma {:induction false} AfterCopies(area: Area, d: seq<Block>, lh: seq<int>, k: nat, b: nat)
    requires LoggedOk(area, |d|, lh) && area.start + area.size <= |d| && k <= |lh| && b < |d|
    ensures Apply(d, InstallWrites(area, d, lh)[..k])[b]
            == if Slot(lh, b) < k then d[area.start + 1 + Slot(lh, b)] else d[b]
    decreases k
  {
    if k > 0 {
      AfterCopies(area, d, lh, k - 1, b);
      var ws := InstallWrites(area, d, lh);
      SlotIs(area, |d|, lh, k - 1);
      ApplyNext(d, ws, k - 1);
    }
  }

  /** The header block is outside the home blocks and survives the log writes. */
  lemma CommittedAt(area: Area, d: seq<Block>, lh: seq<int>, cache: map<int, Block>, b: nat)
    requires Formatted(area, d) && LoggedOk(area, |d|, lh) && Cached(lh, cache) && b < |d|
    ensures Committed(area, d, lh, cache)[b]
            == if b == area.start then PutHead(d[b], lh)
               else if area.start < b <= area.start + |lh| then cache[lh[b - area.start - 1]] else d[b]
  {
    var ws, record := LogWrites(area, lh, cache), RecordWrites(area, d, lh, cache);
    assert ws[..|lh|] == ws && record[..|ws|] == ws && record[..|ws| + 1] == record;
    AfterLogWrites(area, d, lh, cache, |lh|, b);
    ApplyNext(d, record, |ws|);
  }

  lemma CommittedHead(area: Area, d: seq<Block>, lh: seq<int>, cache: map<int, Block>)
    requires Formatted(area, d) && LoggedOk(area, |d|, lh) && Cached(lh, cache)
    ensures var c := Committed(area, d, lh, cache); Formatted(area, c) && ReadHead(c[area.start]) == lh
  {
    CommittedAt(area, d, lh, cache, area.start);
    HeadRoundTrip(d[area.start], lh);
  }

  /** The commit record turns the logical contents over in one write. */
  lemma AtRecord(area: Area, d: seq<Block>, lh: seq<int>, cache: map<int, Block>, b: nat)
    requires Formatted(area, d) && LoggedOk(area, |d|, lh) && Cached(lh, cache) && b < |d| && Home(area, b)
    ensures var c := Committed(area, d, lh, cache);
            Formatted(area, c) && Logical(area, c, b) == if b in lh then cache[b] else d[b]
  {
    CommittedHead(area, d, lh, cache);
    CommittedAt(area, d, lh, cache, b);
    var slot := area.start + 1 + Slot(lh, b);
    if Slot(lh, b) < |lh| {
      CommittedAt(area, d, lh, cache, slot);
    }
  }

  // ---- Recovery, stopped anywhere, keeps the logical contents ----

  /** Blocks already copied home hold what the log says; the log itself is untouched. */
  lemma InstallPrefix(area: Area, d: seq<Block>, k: nat, b: nat)
    requires Formatted(area, d) && k <= |ReadHead(d[area.start])| && b < |d|
    ensures var lh := ReadHead(d[area.start]);
            var e := Apply(d, InstallWrites(area, d, lh)[..k]);
            e[b] == if Home(area, b) && Slot(lh, b) < k then Logical(area, d, b) else d[b]
  {
    var lh := ReadHead(d[area.start]);
    AfterCopies(area, d, lh, k, b);
    if Slot(lh, b) < |lh| {
      SlotIs(area, |d|, lh, Slot(lh, b));
    }
  }

  ghost function Installed(area: Area, d: seq<Block>, k: nat): seq<Block>
    requires Formatted(area, d) && k <= |ReadHead(d[area.start])|
  {
    Apply(d, InstallWrites(area, d, ReadHead(d[area.start]))[..k])
  }

  lemma InstallKeepsFormat(area: Area, d: seq<Block>, k: nat)
    requires Formatted(area, d) && k <= |ReadHead(d[area.start])|
    ensures Formatted(area, Installed(area, d, k)) && Installed(area, d, k)[area.start] == d[area.start]
  {
    InstallPrefix(area, d, k, area.start);
  }

  lemma InstallKeepsLogical(area: Area, d: seq<Block>, k: nat, b: nat)
    requires Formatted(area, d) && k <= |ReadHead(d[area.start])| && b < |d| && Home(area, b)
    ensures var e := Installed(area, d, k); Formatted(area, e) && Logical(area, e, b) == Logical(area, d, b)
  {
    var lh, e := ReadHead(d[area.start]), Installed(area, d, k);
    InstallKeepsFormat(area, d, k);
    InstallPrefix(area, d, k, b);
    var slot := area.start + 1 + Slot(lh, b);
    if Slot(lh, b) < |lh| {
      InstallPrefix(area, d, k, slot);
      assert e[slot] == d[slot];
    }
  }

  /** Erasing the log after the last copy leaves the logical contents in place. */
  lemma ErasedAt(area: Area, d: seq<Block>, b: nat)
    requires Formatted(area, d) && b < |d|
    ensures var e := Apply(d, RecoverWrites(area, d));
            e[b] == if b == area.start then PutHead(d[b], []) else if Home(area, b) then Logical(area, d, b) else d[b]
  {
    var lh := ReadHead(d[area.start]);
    var ws, all := InstallWrites(area, d, lh), RecoverWrites(area, d);
    assert ws[..|lh|] == ws && all[..|ws|] == ws && all[..|ws| + 1] == all;
    InstallPrefix(area, d, |lh|, b);
    ApplyNext(d, all, |ws|);
  }

  lemma ErasedHead(area: Area, d: seq<Block>)
    requires Formatted(area, d)
    ensures var e := Apply(d, RecoverWrites(area, d)); Formatted(area, e) && ReadHead(e[area.start]) == []
  {
    ErasedAt(area, d, area.start);
    HeadRoundTrip(d[area.start], []);
  }

  lemma RecoverWritesPrefix(area: Area, d: seq<Block>, k: nat)
    requires Formatted(area, d) && k <= |ReadHead(d[area.start])|
    ensures RecoverWrites(area, d)[..k] == InstallWrites(area, d, ReadHead(d[area.start]))[..k]
    ensures RecoverWrites(area, d)[..|RecoverWrites(area, d)|] == RecoverWrites(area, d)
  {}

  lemma RecoverPrefixAt(area: Area, d: seq<Block>, k: nat, b: nat)
    requires Formatted(area, d) && k <= |RecoverWrites(area, d)| && b < |d| && Home(area, b)
    ensures var e := Apply(d, RecoverWrites(area, d)[..k]);
            && Formatted(area, e) && Logical(area, e, b) == Logical(area, d, b)
            && (k == |RecoverWrites(area, d)| ==> e[b] == Logical(area, d, b))
  {
    if k <= |ReadHead(d[area.start])| {
      RecoverWritesPrefix(area, d, k);
      InstallKeepsLogical(area, d, k, b);
    } else {
      RecoverWritesPrefix(area, d, 0);
      ErasedHead(area, d);
      ErasedAt(area, d, b);
    }
  }

  lemma RecoverPrefixFormat(area: Area, d: seq<Block>, k: nat)
    requires Formatted(area, d) && k <= |RecoverWrites(area, d)|
    ensures var e := Apply(d, RecoverWrites(area, d)[..k]);
            Formatted(area, e) && (k == |RecoverWrites(area, d)| ==> ReadHead(e[area.start]) == [])
  {
    if k <= |ReadHead(d[area.start])| {
      RecoverWritesPrefix(area, d, k);
      InstallKeepsFormat(area, d, k);
    } else {
      RecoverWritesPrefix(area, d, 0);
      ErasedHead(area, d);
    }
  }

  lemma RecoverPrefix(area: Area, d: seq<Block>, k: nat)
    requires Formatted(area, d) && k <= |RecoverWrites(area, d)|
    ensures var e := Apply(d, RecoverWrites(area, d)[..k]);
            && Formatted(area, e)
            && (forall b: nat | b < |d| && Home(area, b) :: Logical(area, e, b) == Logical(area, d, b))
            && (k == |RecoverWrites(area, d)| ==>
                  && ReadHead(e[area.start]) == []
                  && forall b: nat | b < |d| && Home(area, b) :: e[b] == Logical(area, d, b))
  {
    RecoverPrefixFormat(area, d, k);
    forall b: nat | b < |d| && Home(area, b)
      ensures Logical(area, Apply(d, RecoverWrites(area, d)[..k]), b) == Logical(area, d, b)
      ensures k == |RecoverWrites(area, d)| ==> Apply(d, RecoverWrites(area, d)[..k])[b] == Logical(area, d, b)
    {
      RecoverPrefixAt(area, d, k, b);
    }
  }

  /** A machine that crashes while recovering, any number of times, at any write. */
  ghost function CrashedRecoveries(area: Area, d: seq<Block>, stops: seq<nat>): (e: seq<Block>)
    requires Formatted(area, d)
    ensures |e| == |d| && Formatted(area, e)
    decreases |stops|
  {
    if stops == [] then d
    else
      var ws := RecoverWrites(area, d);
      var k := if stops[0] <= |ws| then stops[0] else |ws|;
      RecoverPrefixFormat(area, d, k);
      CrashedRecoveries(area, Apply(d, ws[..k]), stops[1..])
  }

  lemma {:induction false} CrashedRecoveriesKeepLogical(area: Area, d: seq<Block>, stops: seq<nat>, b: nat)
    requires Formatted(area, d) && b < |d| && Home(area, b)
    ensures Logical(area, CrashedRecoveries(area, d, stops), b) == Logical(area, d, b)
    decreases |stops|
  {
    if stops != [] {
      var ws := RecoverWrites(area, d);
      var k := if stops[0] <= |ws| then stops[0] else |ws|;
      RecoverPrefixAt(area, d, k, b);
      CrashedRecoveriesKeepLogical(area, Apply(d, ws[..k]), stops[1..], b);
    }
  }

  /** The disk after a crash: recoveries that crash in turn, and one that completes. */
  ghost function Recovered(area: Area, d: seq<Block>, stops: seq<nat>): seq<Block>
    requires Formatted(area, d)
  {
    var e := CrashedRecoveries(area, d, stops);
    Apply(e, RecoverWrites(area, e))
  }

  /** However often recovery crashes, in the end the log is empty and every home block holds
      the logical contents. */
  lemma RecoveredAt(area: Area, d: seq<Block>, stops: seq<nat>, b: nat)
    requires Formatted(area, d) && b < |d| && Home(area, b)
    ensures Recovered(area, d, stops)[b] == Logical(area, d, b)
  {
    var e := CrashedRecoveries(area, d, stops);
    CrashedRecoveriesKeepLogical(area, d, stops, b);
    ErasedAt(area, e, b);
  }

  lemma RecoveredHead(area: Area, d: seq<Block>, stops: seq<nat>)
    requires Formatted(area, d)
    ensures var r := Recovered(area, d, stops); |r| == |d| && Formatted(area, r) && ReadHead(r[area.start]) == []
  {
    ErasedHead(area, CrashedRecoveries(area, d, stops));
  }

  // ---- Commit, stopped anywhere ----

  /** Everything commit writes: the log blocks, the commit record, and then exactly what a
      recovery from that point would write. */
  ghost function CommitWrites(area: Area, d: seq<Block>, lh: seq<int>, cache: map<int, Block>): seq<Write>
    requires Formatted(area, d) && LoggedOk(area, |d|, lh) && Cached(lh, cache)
  {
    CommittedHead(area, d, lh, cache);
    RecordWrites(area, d, lh, cache) + RecoverWrites(area, Committed(area, d, lh, cache))
  }

  /** Commit is the record and then the replay of it. */
  lemma CommitInTwo(area: Area, d: seq<Block>, lh: seq<int>, cache: map<int, Block>)
    requires Formatted(area, d) && LoggedOk(area, |d|, lh) && Cached(lh, cache)
    ensures var c := Committed(area, d, lh, cache);
            && Formatted(area, c) && ReadHead(c[area.start]) == lh
            && CommitWrites(area, d, lh, cache) == RecordWrites(area, d, lh, cache) + RecoverWrites(area, c)
            && Apply(d, CommitWrites(area, d, lh, cache)) == Apply(c, RecoverWrites(area, c))
  {
    CommittedHead(area, d, lh, cache);
    ApplyAppend(d, RecordWrites(area, d, lh, cache), RecoverWrites(area, Committed(area, d, lh, cache)));
  }

  lemma BeforeRecord(area: Area, d: seq<Block>, lh: seq<int>, cache: map<int, Block>, k: nat, b: nat)
    requires Formatted(area, d) && ReadHead(d[area.start]) == [] && b < |d| && Home(area, b)
    requires LoggedOk(area, |d|, lh) && Cached(lh, cache) && k <= |lh|
    ensures var e := Apply(d, LogWrites(area, lh, cache)[..k]); Formatted(area, e) && Logical(area, e, b) == d[b]
  {
    AfterLogWrites(area, d, lh, cache, k, area.start);
    AfterLogWrites(area, d, lh, cache, k, b);
  }

  /** Commit's first k writes: part of the log copies, or the record and part of the replay. */
  lemma CommitWritesPrefix(area: Area, d: seq<Block>, lh: seq<int>, cache: map<int, Block>, k: nat)
    requires Formatted(area, d) && LoggedOk(area, |d|, lh) && Cached(lh, cache)
    requires k <= |CommitWrites(area, d, lh, cache)|
    ensures k <= |lh| ==> CommitWrites(area, d, lh, cache)[..k] == LogWrites(area, lh, cache)[..k]
    ensures k > |lh| ==> (CommittedHead(area, d, lh, cache);
                          CommitWrites(area, d, lh, cache)[..k]
                          == RecordWrites(area, d, lh, cache)
                             + RecoverWrites(area, Committed(area, d, lh, cache))[..k - |lh| - 1])
  {}

  /** The disk when commit has stopped after k writes. */
  ghost function Stopped(area: Area, d: seq<Block>, lh: seq<int>, cache: map<int, Block>, k: nat): seq<Block>
    requires Formatted(area, d) && LoggedOk(area, |d|, lh) && Cached(lh, cache)
    requires k <= |CommitWrites(area, d, lh, cache)|
  {
    Apply(d, CommitWrites(area, d, lh, cache)[..k])
  }

  /** What the disk stands for after k writes of commit: the new contents once the header
      write is among them, the old ones before. */
  lemma CommitPrefix(area: Area, d: seq<Block>, lh: seq<int>, cache: map<int, Block>, k: nat, b: nat)
    requires Formatted(area, d) && ReadHead(d[area.start]) == [] && b < |d| && Home(area, b)
    requires LoggedOk(area, |d|, lh) && Cached(lh, cache) && k <= |CommitWrites(area, d, lh, cache)|
    ensures var e := Stopped(area, d, lh, cache, k);
            && Formatted(area, e)
            && Logical(area, e, b) == if k > |lh| && b in lh then cache[b] else d[b]
  {
    CommitWritesPrefix(area, d, lh, cache, k);
    if k <= |lh| {
      BeforeRecord(area, d, lh, cache, k, b);
    } else {
      AtRecord(area, d, lh, cache, b);
      var c, m := Committed(area, d, lh, cache), k - |lh| - 1;
      ApplyAppend(d, RecordWrites(area, d, lh, cache), RecoverWrites(area, c)[..m]);
      RecoverPrefixAt(area, c, m, b);
    }
  }

  lemma CommitPrefixFormat(area: Area, d: seq<Block>, lh: seq<int>, cache: map<int, Block>, k: nat)
    requires Formatted(area, d) && ReadHead(d[area.start]) == []
    requires LoggedOk(area, |d|, lh) && Cached(lh, cache) && k <= |CommitWrites(area, d, lh, cache)|
    ensures Formatted(area, Stopped(area, d, lh, cache, k))
  {
    CommitWritesPrefix(area, d, lh, cache, k);
    if k <= |lh| {
      AfterLogWrites(area, d, lh, cache, k, area.start);
    } else {
      CommittedHead(area, d, lh, cache);
      var c, m := Committed(area, d, lh, cache), k - |lh| - 1;
      ApplyAppend(d, RecordWrites(area, d, lh, cache), RecoverWrites(area, c)[..m]);
      RecoverPrefixFormat(area, c, m);
    }
  }

  /** Crash atomicity: stop commit after any k writes, crash in recovery as often as you
      like, and let one recovery finish.  The home blocks are then all old or all new, and
      new exactly when the commit record had reached the disk. */
  lemma CrashAtomicity(area: Area, d: seq<Block>, lh: seq<int>, cache: map<int, Block>, k: nat, stops: seq<nat>)
    requires Formatted(area, d) && ReadHead(d[area.start]) == []
    requires LoggedOk(area, |d|, lh) && Cached(lh, cache) && k <= |CommitWrites(area, d, lh, cache)|
    ensures var e := Stopped(area, d, lh, cache, k);
            && Formatted(area, e)
            && var r := Recovered(area, e, stops);
               && |r| == |d| && Formatted(area, r) && ReadHead(r[area.start]) == []
               && forall b: nat | b < |d| && Home(area, b) ::
                    r[b] == if k > |lh| && b in lh then cache[b] else d[b]
  {
    CommitPrefixFormat(area, d, lh, cache, k);
    var crashed := Stopped(area, d, lh, cache, k);
    RecoveredHead(area, crashed, stops);
    forall b: nat | b < |d| && Home(area, b)
      ensures Recovered(area, crashed, stops)[b] == if k > |lh| && b in lh then cache[b] else d[b]
    {
      CommitPrefix(area, d, lh, cache, k, b);
      RecoveredAt(area, crashed, stops, b);
    }
  }

  // ---- The code that issues the writes ----

  lemma LogNotLogged(area: Area, n: nat, lh: seq<int>, b: nat)
    requires LoggedOk(area, n, lh) && !Home(area, b)
    ensures Slot(lh, b) == |lh|
  {
    if Slot(lh, b) < |lh| {
      SlotIs(area, n, lh, Slot(lh, b));
    }
  }

  lemma LogWriteAt(area: Area, lh: seq<int>, cache: map<int, Block>, tail: nat)
    requires Cached(lh, cache) && tail < |lh|
    ensures lh[tail] in cache && |LogWrites(area, lh, cache)| == |lh|
    ensures LogWrites(area, lh, cache)[tail] == Write(area.start + tail + 1, cache[lh[tail]])
  {}

  lemma TraceNext(trace: seq<Write>, ws: seq<Write>, tail: nat)
    requires tail < |ws|
    ensures trace + ws[..tail] + [ws[tail]] == trace + ws[..tail + 1]
  {}

  /** Recovery is the installation and then the erasure of the header. */
  lemma RecoverInTwo(area: Area, d: seq<Block>)
    requires Formatted(area, d)
    ensures var ws := InstallWrites(area, d, ReadHead(d[area.start]));
            var e := Apply(d, ws);
            && |e| == |d| && |e[area.start]| > LOGSIZE
            && RecoverWrites(area, d) == ws + [Write(area.start, PutHead(e[area.start], []))]
            && Apply(d, RecoverWrites(area, d)) == e[area.start := PutHead(e[area.start], [])]
  {
    var lh := ReadHead(d[area.start]);
    var ws, all := InstallWrites(area, d, lh), RecoverWrites(area, d);
    InstallKeepsFormat(area, d, |lh|);
    assert ws[..|lh|] == ws;
    assert all[..|ws|] == ws && all[..|ws| + 1] == all;
    ApplyNext(d, all, |ws|);
  }

  /** The log over a disk.  `trace` records the disk writes in the order they are issued;
      a crash cuts it at any point. */
  class DiskLog {
    const area: Area
    var blocks: seq<Block>
    var lh: seq<int>
    var cache: map<int, Block>
    ghost var trace: seq<Write>

    constructor (area: Area, blocks: seq<Block>)
      ensures this.area == area && this.blocks == blocks && lh == [] && cache == map[] && trace == []
    {
      this.area, this.blocks, lh, cache, trace := area, blocks, [], map[], [];
    }

    /** bwrite: one atomic block write. */
    method WriteBlock(bn: nat, data: Block)
      requires bn < |blocks|
      modifies this`blocks, this`trace
      ensures blocks == old(blocks)[bn := data] && trace == old(trace) + [Write(bn, data)]
    {
      blocks := blocks[bn := data];
      trace := trace + [Write(bn, data)];
    }

    /** write_log. */
    method WriteLog()
      requires |lh| <= Capacity(area.size) && area.start + area.size <= |blocks| && Cached(lh, cache)
      modifies this`blocks, this`trace
      ensures trace == old(trace) + LogWrites(area, lh, cache)
      ensures blocks == Apply(old(blocks), LogWrites(area, lh, cache))
    {
      ghost var ws := LogWrites(area, lh, cache);
      var n := |lh|;
      for tail := 0 to n
        invariant blocks == Apply(old(blocks), ws[..tail]) && trace == old(trace) + ws[..tail]
      {
        LogWriteAt(area, lh, cache, tail);
        ApplyNext(old(blocks), ws, tail);
        TraceNext(old(trace), ws, tail);
        WriteBlock(area.start + tail + 1, cache[lh[tail]]);
      }
      assert ws[..n] == ws;
    }

    /** write_head: copies n and the block numbers into the header block and writes it. */
    method WriteHead()
      requires area.start < |blocks| && |blocks[area.start]| > LOGSIZE && |lh| <= LOGSIZE
      modifies this`blocks, this`trace
      ensures trace == old(trace) + [Write(area.start, PutHead(old(blocks)[area.start], lh))]
      ensures blocks == old(blocks)[area.start := PutHead(old(blocks)[area.start], lh)]
    {
      var hb := blocks[area.start][0 := |lh|];
      for i := 0 to |lh|
        invariant hb == [|lh|] + lh[..i] + blocks[area.start][1 + i..]
      {
        hb := hb[1 + i := lh[i]];
      }
      assert lh[..|lh|] == lh;
      WriteBlock(area.start, hb);
    }

    /** install_trans: copies the log blocks home. */
    method InstallTrans()
      requires LoggedOk(area, |blocks|, lh) && area.start + area.size <= |blocks|
      modifies this`blocks, this`trace
      ensures trace == old(trace) + InstallWrites(area, old(blocks), lh)
      ensures blocks == Apply(old(blocks), InstallWrites(area, old(blocks), lh))
    {
      ghost var ws := InstallWrites(area, blocks, lh);
      for tail := 0 to |lh|
        invariant blocks == Apply(old(blocks), ws[..tail]) && trace == old(trace) + ws[..tail]
      {
        var from := area.start + tail + 1;
        SlotIs(area, |blocks|, lh, tail);
        ApplyNext(old(blocks), ws, tail);
        AfterCopies(area, old(blocks), lh, tail, from);
        LogNotLogged(area, |blocks|, lh, from);
        WriteBlock(lh[tail], blocks[from]);
      }
      assert ws[..|lh|] == ws;
    }

    /** The first half of commit: log blocks, then the commit record. */
    method WriteRecord()
      requires Formatted(area, blocks) && LoggedOk(area, |blocks|, lh) && Cached(lh, cache)
      modifies this`blocks, this`trace
      ensures blocks == Committed(area, old(blocks), lh, cache)
      ensures trace == old(trace) + RecordWrites(area, old(blocks), lh, cache)
    {
      ghost var d, ws := blocks, LogWrites(area, lh, cache);
      WriteLog();
      AfterLogWrites(area, d, lh, cache, |lh|, area.start);
      assert ws[..|lh|] == ws;
      WriteHead();
      ghost var record := RecordWrites(area, d, lh, cache);
      assert record[..|ws|] == ws && record[..|ws| + 1] == record;
      ApplyNext(d, record, |ws|);
    }

    /** The second half of commit and of recovery: install, then erase the log. */
    method Replay()
      requires Formatted(area, blocks) && lh == ReadHead(blocks[area.start])
      modifies this`blocks, this`trace, this`lh
      ensures lh == []
      ensures trace == old(trace) + RecoverWrites(area, old(blocks))
      ensures blocks == Apply(old(blocks), RecoverWrites(area, old(blocks)))
    {
      RecoverInTwo(area, blocks);
      InstallTrans();
      lh := [];
      WriteHead();
    }

    /** commit. */
    method Commit()
      requires Formatted(area, blocks) && LoggedOk(area, |blocks|, lh) && Cached(lh, cache)
      modifies this`blocks, this`trace, this`lh
      ensures lh == []
      ensures old(lh) == [] ==> trace == old(trace) && blocks == old(blocks)
      ensures old(lh) != [] ==>
                && trace == old(trace) + CommitWrites(area, old(blocks), old(lh), cache)
                && blocks == Apply(old(blocks), CommitWrites(area, old(blocks), old(lh), cache))
    {
      if |lh| > 0 {
        ghost var d, l := blocks, lh;
        CommitInTwo(area, d, l, cache);
        WriteRecord();
        ghost var mid := trace;
        Replay();
        assert trace == old(trace) + CommitWrites(area, d, l, cache) by {
          assert mid + RecoverWrites(area, Committed(area, d, l, cache))
              == old(trace) + CommitWrites(area, d, l, cache);
        }
      }
    }

    /** read_head. */
    method LoadHead()
      requires area.start < |blocks| && |blocks[area.start]| > LOGSIZE && 0 <= blocks[area.start][0] <= LOGSIZE
      modifies this`lh
      ensures lh == ReadHead(blocks[area.start])
    {
      var n := blocks[area.start][0];
      lh := [];
      for i := 0 to n
        invariant lh == blocks[area.start][1..1 + i]
      {
        lh := lh + [blocks[area.start][1 + i]];
      }
    }

    /** recover_from_log. */
    method Recover()
      requires Formatted(area, blocks)
      modifies this`blocks, this`trace, this`lh
      ensures lh == []
      ensures trace == old(trace) + RecoverWrites(area, old(blocks))
      ensures blocks == Apply(old(blocks), RecoverWrites(area, old(blocks)))
    {
      LoadHead();
      Replay();
    }
  }
}
