/** The doubly linked MRU ring of bio.c, kept inside an array of buffer headers. */
module BufferRing {
  import opened Params

  const HEAD: nat := NBUF   // bcache.head

  type Data = seq<int>

  /** A struct buf.  holder is the pid holding the buffer's sleep lock, 0 when it is free. */
  datatype Buf = Buf(
    dev: nat, blockno: nat, valid: bool, dirty: bool, refcnt: int, holder: nat, data: Data, prev: nat, next: nat)

  predicate Carries(s: seq<Buf>, a: nat, dev: nat, blockno: nat)
    requires a < |s|
  {
    s[a].dev == dev && s[a].blockno == blockno
  }

  /** Position k on the circle: the head sits before the first and after the last buffer. */
  function Node(ring: seq<nat>, k: int): nat {
    if 0 <= k < |ring| then ring[k] else HEAD
  }

  ghost predicate LinkAt(s: seq<Buf>, ring: seq<nat>, k: int)
    requires |s| == NBUF + 1
  {
    var a, b := Node(ring, k - 1), Node(ring, k);
    a <= HEAD && b <= HEAD && s[a].next == b && s[b].prev == a
  }

  /** The links describe ring, a list of distinct buffers. */
  ghost predicate Links(s: seq<Buf>, ring: seq<nat>)
    requires |s| == NBUF + 1
  {
    && (forall i :: 0 <= i < |ring| ==> ring[i] < NBUF)
    && (forall i, j :: 0 <= i < j < |ring| ==> ring[i] != ring[j])
    && (forall k :: 0 <= k <= |ring| ==> LinkAt(s, ring, k))
  }

  function Unlink(s: seq<Buf>, b: nat): (r: seq<Buf>)
    requires |s| == NBUF + 1 && b < NBUF && s[b].next <= HEAD && s[b].prev <= HEAD
    ensures |r| == |s|
  {
    var n, p := s[b].next, s[b].prev;
    var s1 := s[n := s[n].(prev := p)];
    s1[p := s1[p].(next := n)]
  }

  function PushFront(s: seq<Buf>, b: nat): (r: seq<Buf>)
    requires |s| == NBUF + 1 && b < NBUF && s[HEAD].next <= HEAD
    ensures |r| == |s|
  {
    var first := s[HEAD].next;
    var s1 := s[b := s[b].(next := first, prev := HEAD)];
    var s2 := s1[first := s1[first].(prev := b)];
    s2[HEAD := s2[HEAD].(next := b)]
  }

  /** Relinking changes nothing but links. */
  ghost predicate SameBuffers(s: seq<Buf>, r: seq<Buf>) {
    |s| == |r| && forall i :: 0 <= i < |s| ==> r[i].(prev := s[i].prev, next := s[i].next) == s[i]
  }

  function Without(ring: seq<nat>, i: nat): seq<nat>
    requires i < |ring|
  {
    ring[..i] + ring[i + 1..]
  }

  lemma UnlinkLinks(s: seq<Buf>, ring: seq<nat>, i: nat)
    requires |s| == NBUF + 1 && Links(s, ring) && i < |ring|
    ensures s[ring[i]].next == Node(ring, i + 1) && s[ring[i]].prev == Node(ring, i - 1)
    ensures Links(Unlink(s, ring[i]), Without(ring, i)) && SameBuffers(s, Unlink(s, ring[i]))
    ensures Unlink(s, ring[i])[HEAD].next <= HEAD
  {
    assert LinkAt(s, ring, i) && LinkAt(s, ring, i + 1) && LinkAt(s, ring, 0);
    var r, t := Unlink(s, ring[i]), Without(ring, i);
    forall k | 0 <= k <= |t| ensures LinkAt(r, t, k) {
      assert Node(t, k) == if k < i then Node(ring, k) else Node(ring, k + 1);
      assert Node(t, k - 1) == if k <= i then Node(ring, k - 1) else Node(ring, k);
      assert k < i ==> LinkAt(s, ring, k);
      assert k > i ==> LinkAt(s, ring, k + 1);
    }
    assert LinkAt(r, t, 0);
  }

  lemma PushFrontLinks(s: seq<Buf>, ring: seq<nat>, b: nat)
    requires |s| == NBUF + 1 && Links(s, ring) && b < NBUF && b !in ring
    ensures s[HEAD].next == Node(ring, 0)
    ensures Links(PushFront(s, b), [b] + ring) && SameBuffers(s, PushFront(s, b))
  {
    assert LinkAt(s, ring, 0);
    var r, t := PushFront(s, b), [b] + ring;
    forall k | 0 <= k <= |t| ensures LinkAt(r, t, k) {
      assert Node(t, k) == if k == 0 then b else Node(ring, k - 1);
      assert Node(t, k - 1) == if k == 0 then HEAD else if k == 1 then b else Node(ring, k - 2);
      assert k > 0 ==> LinkAt(s, ring, k - 1);
    }
  }

  /** ring is a permutation of all NBUF buffers, linked both ways through the head. */
  ghost predicate FullRing(s: seq<Buf>, ring: seq<nat>) {
    |s| == NBUF + 1 && Links(s, ring) && |ring| == NBUF && forall b :: 0 <= b < NBUF ==> b in ring
  }

  lemma RingStep(s: seq<Buf>, ring: seq<nat>, k: nat)
    requires FullRing(s, ring) && k <= NBUF
    ensures |s| == NBUF + 1 && |ring| == NBUF && LinkAt(s, ring, k)
    ensures k < NBUF ==> ring[k] < NBUF
  { }

  /** Updating other fields of a buffer leaves the ring alone. */
  lemma RingKept(s: seq<Buf>, ring: seq<nat>, b: nat, x: Buf)
    requires FullRing(s, ring) && b < NBUF && x.prev == s[b].prev && x.next == s[b].next
    ensures FullRing(s[b := x], ring)
  {
    var r := s[b := x];
    forall k | 0 <= k <= |ring| ensures LinkAt(r, ring, k) { assert LinkAt(s, ring, k); }
  }

  /** Where a buffer sits on the ring. */
  lemma Position(s: seq<Buf>, ring: seq<nat>, b: nat) returns (i: nat)
    requires FullRing(s, ring) && b < NBUF
    ensures i < |ring| == NBUF && ring[i] == b
  {
    assert b in ring;
    i :| 0 <= i < |ring| && ring[i] == b;
  }

  /** Unlinking a buffer and pushing it to the front keeps a full ring. */
  lemma MoveToFront(s: seq<Buf>, ring: seq<nat>, i: nat)
    requires FullRing(s, ring) && i < |ring|
    ensures s[ring[i]].next <= HEAD && s[ring[i]].prev <= HEAD && Unlink(s, ring[i])[HEAD].next <= HEAD
    ensures var r := PushFront(Unlink(s, ring[i]), ring[i]);
            FullRing(r, [ring[i]] + Without(ring, i)) && SameBuffers(s, r)
  {
    var b, t := ring[i], Without(ring, i);
    UnlinkLinks(s, ring, i);
    assert b !in t;
    PushFrontLinks(Unlink(s, b), t, b);
    forall c | 0 <= c < NBUF ensures c in [b] + t {
      assert c in ring;
      var k :| 0 <= k < |ring| && ring[k] == c;
      if k != i { assert t[if k < i then k else k - 1] == c; }
    }
  }
}
