/** The doubly linked ring of buffers, most recently used first.  Buffers are 0..n-1 and
    the list head is n. */
module BufferRing {

  datatype Link = Link(next: nat, prev: nat)

  /** Entry i of the ring read as a circle that starts at the head. */
  function Node(n: nat, ring: seq<nat>, i: int): nat
    requires -1 <= i <= |ring|
  {
    if i == -1 || i == |ring| then n else ring[i]
  }

  ghost predicate LinkOk(n: nat, links: seq<Link>, ring: seq<nat>, i: int)
    requires -1 <= i < |ring|
  {
    && Node(n, ring, i) < |links|
    && links[Node(n, ring, i)].next == Node(n, ring, i + 1)
    && links[Node(n, ring, i)].prev == (if i == -1 then Node(n, ring, |ring| - 1) else Node(n, ring, i - 1))
  }

  /** The four assignments of brelse, or of binit, that put b behind the head. */
  function PushFront(n: nat, links: seq<Link>, b: nat): (r: seq<Link>)
    requires b < n < |links| && links[n].next < |links|
    ensures |r| == |links|
  {
    var l1 := links[b := Link(links[n].next, n)];
    var l2 := l1[l1[n].next := l1[l1[n].next].(prev := b)];
    l2[n := l2[n].(next := b)]
  }

  /** The two assignments of brelse that take b out. */
  function Remove(links: seq<Link>, b: nat): (r: seq<Link>)
    requires b < |links| && links[b].next < |links| && links[b].prev < |links|
    ensures |r| == |links|
  {
    var l1 := links[links[b].next := links[links[b].next].(prev := links[b].prev)];
    l1[l1[b].prev := l1[l1[b].prev].(next := l1[b].next)]
  }

  function MovedToFront(ring: seq<nat>, k: nat): seq<nat>
    requires k < |ring|
  {
    [ring[k]] + Without(ring, k)
  }

  /** A ring of some of the buffers, as binit builds it and as it stands in mid-brelse. */
  ghost predicate PartRing(n: nat, links: seq<Link>, ring: seq<nat>) {
    && |links| == n + 1
    && (forall i | 0 <= i < |ring| :: ring[i] < n)
    && (forall i, j | 0 <= i < j < |ring| :: ring[i] != ring[j])
    && (forall i | -1 <= i < |ring| :: LinkOk(n, links, ring, i))
  }

  /** The ring of all n buffers. */
  ghost predicate RingOk(n: nat, links: seq<Link>, ring: seq<nat>) {
    PartRing(n, links, ring) && forall b: nat | b < n :: b in ring
  }

  function Without(ring: seq<nat>, k: nat): seq<nat>
    requires k < |ring|
  {
    ring[..k] + ring[k + 1..]
  }

  lemma RemoveSteps(n: nat, links: seq<Link>, ring: seq<nat>, k: nat)
    requires PartRing(n, links, ring) && k < |ring|
    ensures links[ring[k]] == Link(Node(n, ring, k + 1), Node(n, ring, k - 1))
    ensures Node(n, ring, k + 1) < |links| && Node(n, ring, k - 1) < |links|
    ensures var a, c := Node(n, ring, k - 1), Node(n, ring, k + 1);
            var r := Remove(links, ring[k]);
            && r[a].next == c && r[c].prev == a
            && (forall x: nat | x < |links| && x != a :: r[x].next == links[x].next)
            && (forall x: nat | x < |links| && x != c :: r[x].prev == links[x].prev)
  {
    assert LinkOk(n, links, ring, k);
    assert LinkOk(n, links, ring, k - 1);
    assert LinkOk(n, links, ring, if k + 1 < |ring| then k + 1 else -1);
  }

  lemma RemoveOk(n: nat, links: seq<Link>, ring: seq<nat>, k: nat)
    requires PartRing(n, links, ring) && k < |ring|
    ensures links[ring[k]].next < |links| && links[ring[k]].prev < |links|
    ensures PartRing(n, Remove(links, ring[k]), Without(ring, k))
  {
    RemoveSteps(n, links, ring, k);
    var r, rest := Remove(links, ring[k]), Without(ring, k);
    forall i | -1 <= i < |rest| ensures LinkOk(n, r, rest, i) {
      var j := if i < k then i else i + 1;
      assert LinkOk(n, links, ring, j);
      assert Node(n, ring, j) == Node(n, rest, i);
    }
  }

  lemma PushFrontOk(n: nat, links: seq<Link>, ring: seq<nat>, b: nat)
    requires PartRing(n, links, ring) && b < n && b !in ring
    ensures links[n].next < |links|
    ensures PartRing(n, PushFront(n, links, b), [b] + ring)
  {
    assert LinkOk(n, links, ring, -1);
    assert 0 < |ring| ==> LinkOk(n, links, ring, 0);
    var r, more := PushFront(n, links, b), [b] + ring;
    forall i | -1 <= i < |more| ensures LinkOk(n, r, more, i) {
      if i > 0 { assert LinkOk(n, links, ring, i - 1); }
    }
  }

  lemma MoveToFrontOk(n: nat, links: seq<Link>, ring: seq<nat>, k: nat)
    requires RingOk(n, links, ring) && k < |ring|
    ensures links[ring[k]].next < |links| && links[ring[k]].prev < |links|
    ensures Remove(links, ring[k])[n].next < |links|
    ensures RingOk(n, PushFront(n, Remove(links, ring[k]), ring[k]), MovedToFront(ring, k))
  {
    RemoveOk(n, links, ring, k);
    PushFrontOk(n, Remove(links, ring[k]), Without(ring, k), ring[k]);
    forall b: nat | b < n ensures b in MovedToFront(ring, k) {
      assert b in ring;
      assert ring == ring[..k] + [ring[k]] + ring[k + 1..];
    }
  }
}
