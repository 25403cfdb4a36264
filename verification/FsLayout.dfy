/** Disk blocks of the file system: bytes, the 32-bit words of an indirect block, and the
    bits of the free map. */
module FsLayout {

  const BSIZE := 1024
  const NDIRECT := 12
  const NINDIRECT := 256
  const MAXFILE := 268
  const WORD := 0x1_0000_0000

  type Block = seq<nat>

  predicate IsBlock(b: Block) {
    |b| == BSIZE && forall i | 0 <= i < |b| :: b[i] < 256
  }

  function Zeros(): (b: Block)
    ensures IsBlock(b)
  {
    seq(BSIZE, _ => 0)
  }

  // ---- Little-endian words ----

  function GetWord(b: Block, j: nat): nat
    requires |b| == BSIZE && j < NINDIRECT
  {
    b[4 * j] + 256 * b[4 * j + 1] + 65536 * b[4 * j + 2] + 16777216 * b[4 * j + 3]
  }

  function PutWord(b: Block, j: nat, v: nat): (r: Block)
    requires |b| == BSIZE && j < NINDIRECT && v < WORD
    ensures |r| == BSIZE
  {
    b[4 * j := v % 256][4 * j + 1 := v / 256 % 256][4 * j + 2 := v / 65536 % 256][4 * j + 3 := v / 16777216]
  }

  lemma WordRoundTrip(b: Block, j: nat, v: nat, k: nat)
    requires IsBlock(b) && j < NINDIRECT && k < NINDIRECT && v < WORD
    ensures IsBlock(PutWord(b, j, v))
    ensures GetWord(PutWord(b, j, v), k) == if k == j then v else GetWord(b, k)
  {
    var r := PutWord(b, j, v);
    Digits(v);
    if k != j {
      assert r[4 * k] == b[4 * k] && r[4 * k + 1] == b[4 * k + 1];
      assert r[4 * k + 2] == b[4 * k + 2] && r[4 * k + 3] == b[4 * k + 3];
    }
  }

  lemma Digits(v: nat)
    requires v < WORD
    ensures v == v % 256 + 256 * (v / 256 % 256) + 65536 * (v / 65536 % 256) + 16777216 * (v / 16777216)
    ensures v / 16777216 < 256
  {
    assert v / 65536 == v / 256 / 256;
    assert v / 16777216 == v / 65536 / 256;
  }

  lemma ZeroWords(j: nat)
    requires j < NINDIRECT
    ensures GetWord(Zeros(), j) == 0
  {}

  // ---- The free map ----

  /** (x & (1 << k)) != 0. */
  predicate Bit(x: nat, k: nat)
    decreases k
  {
    if k == 0 then x % 2 == 1 else Bit(x / 2, k - 1)
  }

  /** x | (1 << k), or x & ~(1 << k). */
  function PutBit(x: nat, k: nat, on: bool): nat
    decreases k
  {
    if k == 0 then x / 2 * 2 + (if on then 1 else 0) else 2 * PutBit(x / 2, k - 1, on) + x % 2
  }

  lemma {:induction false} BitRoundTrip(x: nat, k: nat, on: bool, j: nat)
    ensures Bit(PutBit(x, k, on), j) == if j == k then on else Bit(x, j)
    decreases k
  {
    if k > 0 && j > 0 { BitRoundTrip(x / 2, k - 1, on, j - 1); }
  }

  /** Bit b of the map: bit b % 8 of byte b / 8. */
  predicate Marked(bits: seq<nat>, b: nat)
    requires b / 8 < |bits|
  {
    Bit(bits[b / 8], b % 8)
  }

  function PutMark(bits: seq<nat>, b: nat, on: bool): seq<nat>
    requires b / 8 < |bits|
  {
    bits[b / 8 := PutBit(bits[b / 8], b % 8, on)]
  }

  lemma MarkRoundTrip(bits: seq<nat>, b: nat, on: bool, c: nat)
    requires b / 8 < |bits| && c / 8 < |bits|
    ensures Marked(PutMark(bits, b, on), c) == if c == b then on else Marked(bits, c)
  {
    BitRoundTrip(bits[b / 8], b % 8, on, c % 8);
  }
}
