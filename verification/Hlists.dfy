/** Hash buckets of singly linked nodes whose back links point at the slot that points to
    them: the `first` of a bucket or the `next` of another node. */
module Hlists {
  import opened Options
  import opened Addresses
  import opened Sequences

  /** A place that holds a pointer to a node. */
  datatype Slot = First(bucket: nat) | NextOf(node: Ptr)

  /** A node. Its home is not stored in memory; it names the bucket the node is in. */
  datatype Node = Node(next: Option<Ptr>, pprev: Slot, ghost home: nat)

  type Nodes = map<Ptr, Node>
  type Heads = seq<Option<Ptr>>

  function PtrAt(s: seq<Ptr>, i: nat): Option<Ptr> {
    if i < |s| then Some(s[i]) else None
  }

  /** The slot that holds the pointer to the node at place `i`. */
  function SlotAt(h: nat, s: seq<Ptr>, i: nat): Slot
    requires i <= |s|
  {
    if i == 0 then First(h) else NextOf(s[i - 1])
  }

  /** Following `next` from the head of bucket `h` visits `s` and ends, and the back link of
      every node names the slot it was reached through. */
  ghost predicate Chain(heads: Heads, nodes: Nodes, h: nat, s: seq<Ptr>) {
    && h < |heads| && heads[h] == PtrAt(s, 0)
    && Distinct(s)
    && (forall i :: 0 <= i < |s| ==> s[i] in nodes && nodes[s[i]].home == h && nodes[s[i]].next == PtrAt(s, i + 1))
    && (forall i :: 0 <= i < |s| ==> nodes[s[i]].pprev == SlotAt(h, s, i))
  }

  ghost predicate ChainAt(heads: Heads, nodes: Nodes, chains: seq<seq<Ptr>>, h: nat) {
    h < |chains| && Chain(heads, nodes, h, chains[h])
  }

  ghost predicate Linked(heads: Heads, nodes: Nodes, chains: seq<seq<Ptr>>) {
    && |chains| == |heads|
    && forall h: nat {:trigger ChainAt(heads, nodes, chains, h)} :: h < |chains| ==> ChainAt(heads, nodes, chains, h)
  }

  /** Only nodes of bucket `h`, and the head of that bucket, differ. */
  ghost predicate SameElsewhere(heads: Heads, heads': Heads, nodes: Nodes, nodes': Nodes, h: nat) {
    && |heads'| == |heads|
    && (forall j :: 0 <= j < |heads| && j != h ==> heads'[j] == heads[j])
    && (forall c :: c in nodes && nodes[c].home != h ==> c in nodes' && nodes'[c] == nodes[c])
  }

  lemma ChainFrame(heads: Heads, heads': Heads, nodes: Nodes, nodes': Nodes, h: nat, j: nat, s: seq<Ptr>)
    requires SameElsewhere(heads, heads', nodes, nodes', h) && j != h && Chain(heads, nodes, j, s)
    ensures Chain(heads', nodes', j, s)
  {
    assert forall i :: 0 <= i < |s| ==> s[i] in nodes' && nodes'[s[i]] == nodes[s[i]];
  }

  lemma LinkedUpdate(heads: Heads, heads': Heads, nodes: Nodes, nodes': Nodes, chains: seq<seq<Ptr>>, h: nat,
                     s: seq<Ptr>)
    requires Linked(heads, nodes, chains) && h < |chains|
    requires SameElsewhere(heads, heads', nodes, nodes', h) && Chain(heads', nodes', h, s)
    ensures Linked(heads', nodes', chains[h := s])
  {
    var chains' := chains[h := s];
    forall j: nat | j < |chains'| ensures ChainAt(heads', nodes', chains', j) {
      if j != h {
        assert ChainAt(heads, nodes, chains, j);
        ChainFrame(heads, heads', nodes, nodes', h, j, chains[j]);
      }
    }
  }

  // ----- adding at the head -----

  function AddedNodes(heads: Heads, nodes: Nodes, n: Ptr, h: nat): Nodes
    requires h < |heads| && (heads[h].Some? ==> heads[h].value in nodes)
  {
    var first := heads[h];
    var m := nodes[n := Node(first, First(h), h)];
    if first.Some? then m[first.value := m[first.value].(pprev := NextOf(n))] else m
  }

  lemma AddedLink(heads: Heads, nodes: Nodes, h: nat, s: seq<Ptr>, n: Ptr, i: nat)
    requires Chain(heads, nodes, h, s) && n !in nodes && i < |s|
    ensures var nodes' := AddedNodes(heads, nodes, n, h);
            && s[i] in nodes' && nodes'[s[i]].home == h && nodes'[s[i]].next == PtrAt(s, i + 1)
            && nodes'[s[i]].pprev == if i == 0 then NextOf(n) else SlotAt(h, s, i)
  {
    assert s[i] != n && nodes[s[i]].next == PtrAt(s, i + 1);
    if i > 0 {
      assert s[0] != s[i];
    }
  }

  lemma AddedFrame(heads: Heads, nodes: Nodes, h: nat, s: seq<Ptr>, n: Ptr)
    requires Chain(heads, nodes, h, s) && n !in nodes
    ensures AddedNodes(heads, nodes, n, h)[n] == Node(PtrAt(s, 0), First(h), h)
    ensures SameElsewhere(heads, heads[h := Some(n)], nodes, AddedNodes(heads, nodes, n, h), h)
  {
    if s != [] {
      assert s[0] in nodes && nodes[s[0]].home == h;
    }
  }

  lemma ChainAdd(heads: Heads, nodes: Nodes, h: nat, s: seq<Ptr>, n: Ptr)
    requires Chain(heads, nodes, h, s) && n !in nodes
    ensures Chain(heads[h := Some(n)], AddedNodes(heads, nodes, n, h), h, [n] + s)
    ensures SameElsewhere(heads, heads[h := Some(n)], nodes, AddedNodes(heads, nodes, n, h), h)
  {
    var nodes', t := AddedNodes(heads, nodes, n, h), [n] + s;
    AddedFrame(heads, nodes, h, s, n);
    assert Distinct(t);
    forall i | 0 <= i < |t|
      ensures t[i] in nodes' && nodes'[t[i]].home == h && nodes'[t[i]].next == PtrAt(t, i + 1)
      ensures nodes'[t[i]].pprev == SlotAt(h, t, i)
    {
      if i > 0 {
        AddedLink(heads, nodes, h, s, n, i - 1);
        assert t[i] == s[i - 1] && PtrAt(t, i + 1) == PtrAt(s, i);
        assert SlotAt(h, t, i) == if i == 1 then NextOf(n) else SlotAt(h, s, i - 1);
      }
    }
  }

  // ----- deleting -----

  /** What `*pprev = next` does to the heads and to the nodes. */
  function StoredHeads(heads: Heads, slot: Slot, p: Option<Ptr>): Heads {
    if slot.First? && slot.bucket < |heads| then heads[slot.bucket := p] else heads
  }

  function StoredNodes(nodes: Nodes, slot: Slot, p: Option<Ptr>): Nodes {
    if slot.NextOf? && slot.node in nodes then nodes[slot.node := nodes[slot.node].(next := p)] else nodes
  }

  function DeletedNodes(nodes: Nodes, n: Ptr): Nodes
    requires n in nodes
  {
    var next, pprev := nodes[n].next, nodes[n].pprev;
    var m := StoredNodes(nodes, pprev, next);
    if next.Some? && next.value in m then m[next.value := m[next.value].(pprev := pprev)] else m
  }

  /** What deleting `n` does to another node: its slots change if they lead to `n`. */
  lemma DeletedAt(nodes: Nodes, n: Ptr, c: Ptr)
    requires n in nodes && c in nodes && c != n && nodes[n].pprev != NextOf(n) && nodes[n].next != Some(n)
    ensures var nodes' := DeletedNodes(nodes, n) - {n};
            && c in nodes' && nodes'[c].home == nodes[c].home
            && nodes'[c].next == (if nodes[n].pprev == NextOf(c) then nodes[n].next else nodes[c].next)
            && nodes'[c].pprev == (if nodes[n].next == Some(c) then nodes[n].pprev else nodes[c].pprev)
  {
  }

  /** Storing through the back link skips the node; the others stay as they are. */
  lemma DeletedLink(heads: Heads, nodes: Nodes, h: nat, s: seq<Ptr>, r: nat, i: nat)
    requires Chain(heads, nodes, h, s) && r < |s| && i < |s| && i != r
    ensures var nodes' := DeletedNodes(nodes, s[r]) - {s[r]};
            && s[i] in nodes' && nodes'[s[i]].home == h
            && nodes'[s[i]].next == (if i + 1 == r then PtrAt(s, r + 1) else PtrAt(s, i + 1))
            && nodes'[s[i]].pprev == (if i == r + 1 then SlotAt(h, s, r) else SlotAt(h, s, i))
  {
    assert nodes[s[r]].next == PtrAt(s, r + 1) && nodes[s[r]].pprev == SlotAt(h, s, r);
    assert PtrAt(s, r + 1) == Some(s[i]) <==> i == r + 1;
    assert SlotAt(h, s, r) == NextOf(s[i]) <==> i + 1 == r;
    DeletedAt(nodes, s[r], s[i]);
  }

  lemma DeletedFrame(heads: Heads, nodes: Nodes, h: nat, s: seq<Ptr>, r: nat)
    requires Chain(heads, nodes, h, s) && r < |s|
    ensures var n := s[r];
            var heads', nodes' := StoredHeads(heads, nodes[n].pprev, nodes[n].next), DeletedNodes(nodes, n) - {n};
            && heads'[h] == PtrAt(RemoveAt(s, r), 0)
            && SameElsewhere(heads, heads', nodes, nodes', h)
  {
    assert nodes[s[r]].next == PtrAt(s, r + 1);
    assert nodes[s[r]].pprev == SlotAt(h, s, r);
  }

  /** Slots and successors in a chain that has lost its node at place `r`. */
  lemma RemovedPlaces(h: nat, s: seq<Ptr>, r: nat, i: nat)
    requires r < |s| && i < |s| - 1
    ensures var t := RemoveAt(s, r);
            && t[i] == s[if i < r then i else i + 1]
            && PtrAt(t, i + 1) == (if i + 1 < r then PtrAt(s, i + 1) else PtrAt(s, i + 2))
            && SlotAt(h, t, i) == (if i <= r then SlotAt(h, s, i) else SlotAt(h, s, i + 1))
  {
  }

  lemma ChainDelete(heads: Heads, nodes: Nodes, h: nat, s: seq<Ptr>, r: nat)
    requires Chain(heads, nodes, h, s) && r < |s|
    ensures var n := s[r];
            var heads', nodes' := StoredHeads(heads, nodes[n].pprev, nodes[n].next), DeletedNodes(nodes, n) - {n};
            && Chain(heads', nodes', h, RemoveAt(s, r))
            && SameElsewhere(heads, heads', nodes, nodes', h)
  {
    var t, nodes' := RemoveAt(s, r), DeletedNodes(nodes, s[r]) - {s[r]};
    DeletedFrame(heads, nodes, h, s, r);
    DistinctRemoveAt(s, r);
    forall i | 0 <= i < |t|
      ensures t[i] in nodes' && nodes'[t[i]].home == h && nodes'[t[i]].next == PtrAt(t, i + 1)
      ensures nodes'[t[i]].pprev == SlotAt(h, t, i)
    {
      RemovedPlaces(h, s, r, i);
      DeletedLink(heads, nodes, h, s, r, if i < r then i else i + 1);
    }
  }

  // ----- every node is somewhere -----

  ghost predicate HousedAt(nodes: Nodes, chains: seq<seq<Ptr>>, c: Ptr) {
    c in nodes && nodes[c].home < |chains| && c in chains[nodes[c].home]
  }

  ghost predicate Housed(nodes: Nodes, chains: seq<seq<Ptr>>) {
    forall c {:trigger HousedAt(nodes, chains, c)} :: c in nodes ==> HousedAt(nodes, chains, c)
  }

  lemma HousedAdd(heads: Heads, nodes: Nodes, chains: seq<seq<Ptr>>, n: Ptr, h: nat)
    requires Housed(nodes, chains) && Linked(heads, nodes, chains) && h < |chains| && n !in nodes
    ensures heads[h].Some? ==> heads[h].value in nodes
    ensures Housed(AddedNodes(heads, nodes, n, h), chains[h := [n] + chains[h]])
    ensures AddedNodes(heads, nodes, n, h).Keys == nodes.Keys + {n}
  {
    assert ChainAt(heads, nodes, chains, h);
    var nodes', chains' := AddedNodes(heads, nodes, n, h), chains[h := [n] + chains[h]];
    forall c | c in nodes' ensures HousedAt(nodes', chains', c) {
      if c != n { assert HousedAt(nodes, chains, c); }
    }
  }

  lemma HousedDeleteAt(nodes: Nodes, chains: seq<seq<Ptr>>, h: nat, r: nat, c: Ptr)
    requires HousedAt(nodes, chains, c) && h < |chains| && r < |chains[h]| && c != chains[h][r]
    requires chains[h][r] in nodes && c in DeletedNodes(nodes, chains[h][r])
    ensures HousedAt(DeletedNodes(nodes, chains[h][r]) - {chains[h][r]}, chains[h := RemoveAt(chains[h], r)], c)
  {
    if c in chains[h] { StaysAfterRemove(chains[h], r, c); }
  }

  lemma HousedDelete(heads: Heads, nodes: Nodes, chains: seq<seq<Ptr>>, h: nat, r: nat)
    requires Housed(nodes, chains) && Linked(heads, nodes, chains) && h < |chains| && r < |chains[h]|
    ensures chains[h][r] in nodes
    ensures Housed(DeletedNodes(nodes, chains[h][r]) - {chains[h][r]}, chains[h := RemoveAt(chains[h], r)])
    ensures (DeletedNodes(nodes, chains[h][r]) - {chains[h][r]}).Keys == nodes.Keys - {chains[h][r]}
  {
    assert ChainAt(heads, nodes, chains, h);
    var n := chains[h][r];
    var nodes', chains' := DeletedNodes(nodes, n) - {n}, chains[h := RemoveAt(chains[h], r)];
    forall c | c in nodes' ensures HousedAt(nodes', chains', c) {
      assert HousedAt(nodes, chains, c);
      HousedDeleteAt(nodes, chains, h, r, c);
    }
  }

  // ----- the list itself -----

  class Hlist {
    var heads: Heads
    var nodes: Nodes
    ghost var chains: seq<seq<Ptr>>

    ghost predicate Valid()
      reads this
    {
      Linked(heads, nodes, chains) && Housed(nodes, chains)
    }

    constructor (buckets: nat)
      ensures Valid() && |chains| == buckets && nodes == map[]
      ensures forall h :: 0 <= h < buckets ==> chains[h] == []
    {
      heads := seq(buckets, _ => None);
      nodes := map[];
      chains := seq(buckets, _ => []);
    }

    method AddHead(n: Ptr, h: nat)
      requires Valid() && h < |chains| && n !in nodes
      modifies this
      ensures Valid() && chains == old(chains)[h := [n] + old(chains)[h]]
      ensures nodes.Keys == old(nodes).Keys + {n}
    {
      assert ChainAt(heads, nodes, chains, h);
      ChainAdd(heads, nodes, h, chains[h], n);
      HousedAdd(heads, nodes, chains, n, h);
      LinkedUpdate(heads, heads[h := Some(n)], nodes, AddedNodes(heads, nodes, n, h), chains, h, [n] + chains[h]);
      var first := heads[h];
      nodes := nodes[n := Node(first, First(h), h)];
      if first.Some? {
        nodes := nodes[first.value := nodes[first.value].(pprev := NextOf(n))];
      }
      heads := heads[h := Some(n)];
      chains := chains[h := [n] + chains[h]];
    }

    /** Only the node is given; its back link leads to the pointer to be changed. */
    method Del(n: Ptr) returns (ghost h: nat, ghost r: nat)
      requires Valid() && n in nodes
      modifies this
      ensures h < |old(chains)| && r < |old(chains)[h]| && old(chains)[h][r] == n
      ensures Valid() && chains == old(chains)[h := RemoveAt(old(chains)[h], r)]
      ensures nodes.Keys == old(nodes).Keys - {n}
    {
      assert HousedAt(nodes, chains, n);
      h := nodes[n].home;
      r :| 0 <= r < |chains[h]| && chains[h][r] == n;
      assert ChainAt(heads, nodes, chains, h);
      ChainDelete(heads, nodes, h, chains[h], r);
      HousedDelete(heads, nodes, chains, h, r);
      LinkedUpdate(heads, StoredHeads(heads, nodes[n].pprev, nodes[n].next), nodes, DeletedNodes(nodes, n) - {n},
                   chains, h, RemoveAt(chains[h], r));
      BackLinkLive(heads, nodes, h, chains[h], r);
      var next, pprev := nodes[n].next, nodes[n].pprev;
      match pprev {
        case First(b) => heads := heads[b := next];
        case NextOf(p) => nodes := nodes[p := nodes[p].(next := next)];
      }
      if next.Some? {
        nodes := nodes[next.value := nodes[next.value].(pprev := pprev)];
      }
      nodes := nodes - {n};
      chains := chains[h := RemoveAt(chains[h], r)];
    }
  }

  /** The slot behind a back link, and the node behind a forward link, are there. */
  lemma BackLinkLive(heads: Heads, nodes: Nodes, h: nat, s: seq<Ptr>, r: nat)
    requires Chain(heads, nodes, h, s) && r < |s|
    ensures match nodes[s[r]].pprev case First(b) => b < |heads| case NextOf(p) => p in nodes
    ensures nodes[s[r]].next.Some? ==> nodes[s[r]].next.value in nodes
  {
    assert nodes[s[r]].pprev == SlotAt(h, s, r) && nodes[s[r]].next == PtrAt(s, r + 1);
  }
}
