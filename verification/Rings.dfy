/** The memory behind the queues: containers linked into circular lists, one ring for
    each key of each tree of each queue, and what the pointer updates do to the rings. */
module Rings {
  import opened Addresses
  import opened Sequences
  import opened ArrivalList

  /** The two trees of a queue. */
  datatype Side = Admission | Processing

  /** Where a packet is filed: a queue, one of its trees, a key; or nowhere any more. */
  datatype Home = Nowhere | Home(queue: nat, side: Side, key: nat)

  /** What a container says about its packet besides the key it is filed under. */
  datatype Item = Item(skb: Skb, otherKey: nat)

  /** A container. Its home is not stored in memory; it names the ring it is linked into. */
  datatype Container = Container(item: Item, next: Ptr, prev: Ptr, ghost home: Home)

  type Memory = map<Ptr, Container>

  /** A ring from its head on, with what its containers carry. */
  datatype Chain = Chain(nodes: seq<Ptr>, items: seq<Item>)

  /** Following `next` from `s[0]` visits `s` in turn and comes back, `prev` goes the
      other way round, and the containers carry `items`. */
  ghost predicate Ring(m: Memory, h: Home, s: seq<Ptr>, items: seq<Item>) {
    && |s| == |items| > 0
    && Distinct(s)
    && (forall i :: 0 <= i < |s| ==> s[i] in m && m[s[i]].home == h && m[s[i]].item == items[i])
    && (forall i :: 0 <= i < |s| - 1 ==> m[s[i]].next == s[i + 1])
    && (forall i :: 1 <= i < |s| ==> m[s[i]].prev == s[i - 1])
    && m[s[|s| - 1]].next == s[0]
    && m[s[0]].prev == s[|s| - 1]
  }

  ghost predicate RingAt(m: Memory, rings: map<Home, Chain>, h: Home) {
    h in rings && Ring(m, h, rings[h].nodes, rings[h].items)
  }

  ghost predicate WellFormed(m: Memory, rings: map<Home, Chain>) {
    forall h {:trigger RingAt(m, rings, h)} :: h in rings ==> RingAt(m, rings, h)
  }

  /** Only containers of the ring of `h` differ. */
  ghost predicate SameElsewhere(m: Memory, m': Memory, h: Home) {
    forall c :: c in m && m[c].home != h ==> c in m' && m'[c] == m[c]
  }

  // ----- pointer updates -----

  function WithNext(m: Memory, c: Ptr, x: Ptr): Memory
    requires c in m
  {
    m[c := m[c].(next := x)]
  }

  function WithPrev(m: Memory, c: Ptr, x: Ptr): Memory
    requires c in m
  {
    m[c := m[c].(prev := x)]
  }

  /** `c` put between the container before `head` and `head`. */
  ghost function LinkedBefore(m: Memory, h: Home, head: Ptr, c: Ptr, it: Item): Memory
    requires head in m && m[head].prev in m
  {
    var tail := m[head].prev;
    WithNext(WithPrev(WithNext(m[c := Container(it, c, tail, h)], tail, c), head, c), c, head)
  }

  /** The neighbours of `c` joined to each other. */
  ghost function Bypassed(m: Memory, c: Ptr): Memory
    requires c in m && m[c].next in m && m[c].prev in m
  {
    WithNext(WithPrev(m, m[c].next, m[c].prev), m[c].prev, m[c].next)
  }

  /** `c` is in no ring any more; memory itself does not change. */
  function Detached(m: Memory, c: Ptr): Memory
    requires c in m
  {
    m[c := m[c].(home := Nowhere)]
  }

  /** Where the neighbours of a container are. */
  lemma RingNeighbours(m: Memory, h: Home, s: seq<Ptr>, items: seq<Item>, r: nat)
    requires Ring(m, h, s, items) && r < |s|
    ensures m[s[r]].next == s[if r == |s| - 1 then 0 else r + 1]
    ensures m[s[r]].prev == s[if r == 0 then |s| - 1 else r - 1]
    ensures m[s[r]].next == s[r] <==> |s| == 1
  {
    var q := if r == |s| - 1 then 0 else r + 1;
    assert m[s[r]].next == s[q];
  }

  lemma RingAlone(m: Memory, h: Home, c: Ptr, it: Item)
    requires c !in m
    ensures Ring(m[c := Container(it, c, c, h)], h, [c], [it])
    ensures SameElsewhere(m, m[c := Container(it, c, c, h)], h)
  {
  }

  /** Linking in before the head appends to the ring. */
  lemma RingAppend(m: Memory, h: Home, s: seq<Ptr>, items: seq<Item>, c: Ptr, it: Item)
    requires Ring(m, h, s, items) && c !in m
    ensures Ring(LinkedBefore(m, h, s[0], c, it), h, s + [c], items + [it])
    ensures SameElsewhere(m, LinkedBefore(m, h, s[0], c, it), h)
  {
    var m' := LinkedBefore(m, h, s[0], c, it);
    assert m[s[0]].prev == s[|s| - 1];
    assert forall i :: 0 <= i < |s| ==> s[i] in m' && m'[s[i]].home == h && m'[s[i]].item == items[i];
    assert forall i :: 0 <= i < |s| - 1 ==> m'[s[i]].next == m[s[i]].next;
    assert forall i :: 1 <= i < |s| ==> m'[s[i]].prev == m[s[i]].prev;
  }

  lemma LinkedBeforeSize(m: Memory, h: Home, head: Ptr, c: Ptr, it: Item)
    requires head in m && m[head].prev in m && c !in m
    ensures |LinkedBefore(m, h, head, c, it)| == |m| + 1
  {
    var m' := LinkedBefore(m, h, head, c, it);
    assert m'.Keys == m.Keys + {c};
    assert |m'.Keys| == |m.Keys| + 1;
  }

  /** Bypassing a container leaves the others in place and joins its two neighbours. */
  lemma BypassedLinks(m: Memory, h: Home, s: seq<Ptr>, items: seq<Item>, r: nat)
    requires Ring(m, h, s, items) && |s| > 1 && r < |s|
    ensures m[s[r]].next in m && m[s[r]].prev in m
    ensures var m' := Bypassed(m, s[r]);
            && (forall i :: 0 <= i < |s| && i != r ==>
                  s[i] in m' && m'[s[i]].home == h && m'[s[i]].item == items[i])
            && (forall i :: 0 <= i < |s| - 1 && i != r && i + 1 != r ==> m'[s[i]].next == s[i + 1])
            && (forall i :: 1 <= i < |s| && i != r && i - 1 != r ==> m'[s[i]].prev == s[i - 1])
            && (r != |s| - 1 && r != 0 ==> m'[s[|s| - 1]].next == s[0] && m'[s[0]].prev == s[|s| - 1])
            && var p, q := if r == 0 then |s| - 1 else r - 1, if r == |s| - 1 then 0 else r + 1;
               m'[s[p]].next == s[q] && m'[s[q]].prev == s[p]
    ensures SameElsewhere(m, Bypassed(m, s[r]), h)
  {
    RingNeighbours(m, h, s, items, r);
  }

  /** Bypassing a container removes it from the ring. */
  lemma RingBypass(m: Memory, h: Home, s: seq<Ptr>, items: seq<Item>, r: nat)
    requires Ring(m, h, s, items) && |s| > 1 && r < |s|
    ensures m[s[r]].next in m && m[s[r]].prev in m
    ensures Ring(Bypassed(m, s[r]), h, RemoveAt(s, r), RemoveAt(items, r))
    ensures SameElsewhere(m, Bypassed(m, s[r]), h)
  {
    BypassedLinks(m, h, s, items, r);
    DistinctRemoveAt(s, r);
  }

  // ----- all rings -----

  lemma RingFrame(m: Memory, m': Memory, h: Home, j: Home, s: seq<Ptr>, items: seq<Item>)
    requires SameElsewhere(m, m', h) && j != h && Ring(m, j, s, items)
    ensures Ring(m', j, s, items)
  {
    assert forall i :: 0 <= i < |s| ==> s[i] in m' && m'[s[i]] == m[s[i]];
  }

  /** A change to one ring keeps all others. */
  lemma WellFormedUpdate(m: Memory, m': Memory, rings: map<Home, Chain>, h: Home, s: seq<Ptr>, items: seq<Item>)
    requires WellFormed(m, rings) && SameElsewhere(m, m', h) && Ring(m', h, s, items)
    ensures WellFormed(m', rings[h := Chain(s, items)])
  {
    forall j | j in rings && j != h ensures Ring(m', j, rings[j].nodes, rings[j].items) {
      assert RingAt(m, rings, j);
      RingFrame(m, m', h, j, rings[j].nodes, rings[j].items);
    }
  }

  /** So does the end of one ring. */
  lemma WellFormedDrop(m: Memory, m': Memory, rings: map<Home, Chain>, h: Home)
    requires WellFormed(m, rings) && SameElsewhere(m, m', h)
    ensures WellFormed(m', rings - {h})
  {
    forall j | j in rings && j != h ensures Ring(m', j, rings[j].nodes, rings[j].items) {
      assert RingAt(m, rings, j);
      RingFrame(m, m', h, j, rings[j].nodes, rings[j].items);
    }
  }

  lemma RingDetach(m: Memory, h: Home, s: seq<Ptr>, items: seq<Item>, c: Ptr)
    requires Ring(m, h, s, items) && c in m && c !in s
    ensures Ring(Detached(m, c), h, s, items)
  {
    var m' := Detached(m, c);
    assert forall i :: 0 <= i < |s| ==> s[i] in m' && m'[s[i]] == m[s[i]];
  }

  lemma RemovedIsGone(s: seq<Ptr>, r: nat)
    requires r < |s| && Distinct(s)
    ensures s[r] !in RemoveAt(s, r)
  {
  }

  /** Bypassing the container at place `r` and letting go of it keeps all rings. */
  lemma WellFormedCut(m: Memory, rings: map<Home, Chain>, h: Home, r: nat)
    requires WellFormed(m, rings) && h in rings && 1 < |rings[h].nodes| && r < |rings[h].nodes|
    ensures var Chain(s, items) := rings[h];
            && |items| == |s|
            && s[r] in m && m[s[r]].next in m && m[s[r]].prev in m
            && WellFormed(Detached(Bypassed(m, s[r]), s[r]), rings[h := Chain(RemoveAt(s, r), RemoveAt(items, r))])
  {
    var Chain(s, items) := rings[h];
    assert RingAt(m, rings, h);
    RingBypass(m, h, s, items, r);
    RemovedIsGone(s, r);
    RingDetach(Bypassed(m, s[r]), h, RemoveAt(s, r), RemoveAt(items, r), s[r]);
    WellFormedUpdate(m, Detached(Bypassed(m, s[r]), s[r]), rings, h, RemoveAt(s, r), RemoveAt(items, r));
  }

  /** The only container of a ring takes the ring with it. */
  lemma WellFormedCutLast(m: Memory, rings: map<Home, Chain>, h: Home)
    requires WellFormed(m, rings) && h in rings && |rings[h].nodes| == 1
    ensures rings[h].nodes[0] in m && WellFormed(Detached(m, rings[h].nodes[0]), rings - {h})
  {
    assert RingAt(m, rings, h);
    WellFormedDrop(m, Detached(m, rings[h].nodes[0]), rings, h);
  }

  /** A container that is in no ring can be given back. */
  lemma WellFormedFree(m: Memory, rings: map<Home, Chain>, c: Ptr)
    requires WellFormed(m, rings) && c in m && m[c].home !in rings
    ensures WellFormed(m - {c}, rings)
  {
    forall j | j in rings ensures Ring(m - {c}, j, rings[j].nodes, rings[j].items) {
      assert RingAt(m, rings, j);
      var s := rings[j].nodes;
      assert forall i :: 0 <= i < |s| ==> s[i] in m - {c} && (m - {c})[s[i]] == m[s[i]];
    }
  }
}
