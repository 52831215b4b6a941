/** The qdisc: its queues, the memory their trees and rings live in, and the operations
    the kernel calls. */
module OpenQueue {
  import opened Options
  import opened Addresses
  import opened Sequences
  import opened ArrivalList
  import opened QueueLaws
  import opened QueuePolicies
  import opened QueueRuns
  import opened Rings
  import opened Trees

  /** The largest key of a tree, as `btree_last` returns it. */
  method Last(tree: map<nat, Ptr>) returns (key: Option<nat>)
    ensures key.None? <==> tree == map[]
    ensures key.Some? ==> key.value in tree && forall k :: k in tree ==> k <= key.value
  {
    key := None;
    var rest := tree.Keys;
    while rest != {}
      invariant rest <= tree.Keys
      invariant key.None? ==> rest == tree.Keys
      invariant key.Some? ==> key.value in tree && forall k :: k in tree ==> k in rest || k <= key.value
      decreases |rest|
    {
      var k :| k in rest;
      if key.None? || key.value < k { key := Some(k); }
      rest := rest - {k};
    }
  }

  const EINVAL := -22

  function ViewOf(q: Queue): QueueView {
    QueueView(q.name, q.maxLen, q.len, q.dropped, q.total)
  }

  /** A queue as the arrival list knows it. */
  ghost function StateOf(qs: seq<Queue>, stored: seq<seq<Entry>>, freed: seq<seq<Skb>>, q: nat): QueueState
    requires q < |qs| == |stored| == |freed|
  {
    QueueState(qs[q].maxLen, qs[q].len, qs[q].dropped, qs[q].total, stored[q], freed[q])
  }

  ghost function PastOf(qs: seq<Queue>, events: seq<seq<Event>>, q: nat): History
    requires q < |qs| == |events|
  {
    Run(Start(qs[q].maxLen), events[q])
  }

  /** A queue is what its events make of an empty queue, and the policy has decided them. */
  ghost predicate TracedAt(policy: Policy, qs: seq<Queue>, stored: seq<seq<Entry>>, freed: seq<seq<Skb>>,
                           events: seq<seq<Event>>, q: nat)
    requires q < |qs| == |stored| == |freed| == |events|
  {
    && PastOf(qs, events, q).q == StateOf(qs, stored, freed, q)
    && DecidedBy(policy, qs[q].name, Start(qs[q].maxLen), events[q])
  }

  ghost predicate AllTraced(policy: Policy, qs: seq<Queue>, stored: seq<seq<Entry>>, freed: seq<seq<Skb>>,
                            events: seq<seq<Event>>)
  {
    && |qs| == |stored| == |freed| == |events|
    && forall q: nat {:trigger TracedAt(policy, qs, stored, freed, events, q)} ::
         q < |qs| ==> TracedAt(policy, qs, stored, freed, events, q)
  }

  /** One event that has happened to one queue keeps all traces. */
  lemma TraceStep(policy: Policy, qs: seq<Queue>, stored: seq<seq<Entry>>, freed: seq<seq<Skb>>,
                  events: seq<seq<Event>>, qs': seq<Queue>, stored': seq<seq<Entry>>, freed': seq<seq<Skb>>, q: nat,
                  ev: Event)
    requires AllTraced(policy, qs, stored, freed, events) && q < |qs| == |qs'| == |stored'| == |freed'|
    requires qs' == qs[q := qs'[q]] && stored' == stored[q := stored'[q]] && freed' == freed[q := freed'[q]]
    requires qs'[q].name == qs[q].name
    requires ev.Offered? ==> ev == OfferTo(policy, qs[q].name, StateOf(qs, stored, freed, q), ev.entry.skb)
    requires StateOf(qs', stored', freed', q) ==
             match ev
             case Dequeued => Dequeue(StateOf(qs, stored, freed, q))
             case Offered(v, e) => Offer(StateOf(qs, stored, freed, q), v, e)
    ensures var events' := events[q := events[q] + [ev]];
            && AllTraced(policy, qs', stored', freed', events')
            && PastOf(qs', events', q) == Step(PastOf(qs, events, q), ev)
  {
    assert TracedAt(policy, qs, stored, freed, events, q);
    OneMore(policy, qs[q].name, Start(qs[q].maxLen), events[q], ev);
    var events' := events[q := events[q] + [ev]];
    assert qs'[q].maxLen == StateOf(qs', stored', freed', q).maxLen == qs[q].maxLen;
    forall j: nat | j < |qs| ensures TracedAt(policy, qs', stored', freed', events', j) {
      assert TracedAt(policy, qs, stored, freed, events, j);
    }
  }

  // ----- many dequeues -----

  /** What the dequeues of a queue in this state will give is sorted by descending processing key, and stably. */
  ghost predicate IsStableSort(st: QueueState) {
    && Descending(Drained(st)) && SameCuts(Drained(st), st.stored)
    && forall t :: Descending(t) && SameCuts(t, st.stored) ==> t == Drained(st)
  }

  /** What a queue has given, and what it would give now, is what it would have given before. */
  ghost predicate DrainedAt(was: seq<QueueState>, out: seq<seq<Skb>>, qs: seq<Queue>, stored: seq<seq<Entry>>,
                            freed: seq<seq<Skb>>, q: nat)
    requires q < |was| == |out| == |qs| == |stored| == |freed|
  {
    && out[q] + Skbs(Drained(StateOf(qs, stored, freed, q))) == Skbs(Drained(was[q]))
    && (out[q] == [] ==> StateOf(qs, stored, freed, q) == was[q])
  }

  ghost predicate AllDrained(was: seq<QueueState>, out: seq<seq<Skb>>, qs: seq<Queue>, stored: seq<seq<Entry>>,
                             freed: seq<seq<Skb>>)
  {
    && |was| == |out| == |qs| == |stored| == |freed|
    && forall q: nat {:trigger DrainedAt(was, out, qs, stored, freed, q)} ::
         q < |qs| ==> DrainedAt(was, out, qs, stored, freed, q)
  }

  lemma StartDraining(was: seq<QueueState>, out: seq<seq<Skb>>, qs: seq<Queue>, stored: seq<seq<Entry>>,
                      freed: seq<seq<Skb>>)
    requires |was| == |out| == |qs| == |stored| == |freed|
    requires forall q :: 0 <= q < |qs| ==> was[q] == StateOf(qs, stored, freed, q) && out[q] == []
    ensures AllDrained(was, out, qs, stored, freed)
  {
    forall q: nat | q < |qs| ensures DrainedAt(was, out, qs, stored, freed, q) {
      assert out[q] == [] && was[q] == StateOf(qs, stored, freed, q);
      assert [] + Skbs(Drained(was[q])) == Skbs(Drained(was[q]));
    }
  }

  lemma SkbsFirst(e: Entry, rest: seq<Entry>)
    ensures Skbs([e] + rest) == [e.skb] + Skbs(rest)
  {
  }

  lemma DrainedStep(out: seq<Skb>, st: QueueState)
    ensures st.stored == [] ==> Dequeue(st) == st
    ensures st.stored != [] ==>
              out + Skbs(Drained(st)) == out + [Next(st).value.skb] + Skbs(Drained(Dequeue(st)))
  {
    if st.stored != [] {
      var e, rest := Next(st).value, Drained(Dequeue(st));
      SkbsFirst(e, rest);
      Assoc(out, [e.skb], Skbs(rest));
    }
  }

  /** One dequeue of one queue, which gives what `more` holds. */
  lemma DrainedMore(was: seq<QueueState>, out: seq<seq<Skb>>, qs: seq<Queue>, stored: seq<seq<Entry>>,
                    freed: seq<seq<Skb>>, qs': seq<Queue>, stored': seq<seq<Entry>>, freed': seq<seq<Skb>>, q: nat,
                    more: seq<Skb>)
    requires AllDrained(was, out, qs, stored, freed) && q < |qs| == |qs'| == |stored'| == |freed'|
    requires qs' == qs[q := qs'[q]] && stored' == stored[q := stored'[q]] && freed' == freed[q := freed'[q]]
    requires StateOf(qs', stored', freed', q) == Dequeue(StateOf(qs, stored, freed, q))
    requires var next := Next(StateOf(qs, stored, freed, q)); more == if next.Some? then [next.value.skb] else []
    ensures AllDrained(was, out[q := out[q] + more], qs', stored', freed')
  {
    var out' := out[q := out[q] + more];
    forall j: nat | j < |qs| ensures DrainedAt(was, out', qs', stored', freed', j) {
      assert DrainedAt(was, out, qs, stored, freed, j);
      if j == q {
        DrainedStep(out[q], StateOf(qs, stored, freed, q));
        assert out[q] + [] == out[q];
      }
    }
  }

  lemma DrainedAfter(was: seq<QueueState>, out: seq<seq<Skb>>, qs: seq<Queue>, stored: seq<seq<Entry>>,
                     freed: seq<seq<Skb>>, q: nat)
    requires AllDrained(was, out, qs, stored, freed) && q < |qs|
    ensures DrainedAt(was, out, qs, stored, freed, q) && IsStableSort(was[q])
    ensures stored[q] == [] ==> out[q] == Skbs(Drained(was[q]))
  {
    assert DrainedAt(was, out, qs, stored, freed, q);
    DrainIsStableSort(Start(0).(q := was[q]));
    assert out[q] + [] == out[q];
  }

  lemma SameSize<K, V>(m: map<K, V>, m': map<K, V>)
    requires m.Keys == m'.Keys
    ensures |m| == |m'|
  {
    assert |m| == |m.Keys| && |m'| == |m'.Keys|;
  }

  lemma FreshAfterDrop(st: QueueState, skb: Skb)
    requires FreshSkb(st.stored, skb)
    ensures FreshSkb(DropTail(st).stored, skb)
  {
  }

  lemma ChangedTwice<T>(a: seq<T>, b: seq<T>, c: seq<T>, q: nat)
    requires q < |a| == |b| == |c| && b == a[q := b[q]] && c == b[q := c[q]]
    ensures c == a[q := c[q]]
  {
  }

  class OqPriv {
    const policy: Policy
    var queues: seq<Queue>
    var containers: Memory             // live containers
    var lists: map<Ptr, ContList>      // live list heads
    ghost var rings: map<Home, Chain>
    ghost var filed: Filed
    ghost var freed: seq<seq<Skb>>     // per queue, what was given to kfree_skb
    ghost var events: seq<seq<Event>>  // per queue, all that has happened to it

    // ----- one tree, one ring -----

    /** The first packet of its key gets a ring of its own. */
    method PutFirst(q: nat, side: Side, key: nat, it: Item) returns (ghost c: Ptr, ghost l: Ptr)
      requires q < |queues|
      modifies this`queues, this`containers, this`lists, this`rings
      ensures c !in old(containers) && l !in old(lists)
      ensures queues == old(queues)[q := WithTree(old(queues)[q], side, TreeOf(old(queues)[q], side)[key := l])]
      ensures containers == old(containers)[c := Container(it, c, c, Home(q, side, key))]
      ensures lists == old(lists)[l := ContList(c, Home(q, side, key))]
      ensures rings == old(rings)[Home(q, side, key) := Chain([c], [it])]
    {
      var container := FreshPtr(containers.Keys);
      containers := containers[container := Container(it, container, container, Home(q, side, key))];
      var list := FreshPtr(lists.Keys);
      lists := lists[list := ContList(container, Home(q, side, key))];
      queues := queues[q := WithTree(queues[q], side, TreeOf(queues[q], side)[key := list])];
      c, l := container, list;
      rings := rings[Home(q, side, key) := Chain([c], [it])];
    }

    /** Another packet of a known key goes behind the tail, which is before the head. */
    method PutMore(q: nat, side: Side, key: nat, it: Item) returns (ghost c: Ptr)
      requires q < |queues| && HeadedAt(queues, lists, rings, Home(q, side, key))
      requires rings[Home(q, side, key)].nodes[0] in containers
      requires containers[rings[Home(q, side, key)].nodes[0]].prev in containers
      modifies this`containers, this`rings
      ensures c !in old(containers)
      ensures var h := Home(q, side, key);
              && containers == LinkedBefore(old(containers), h, old(rings)[h].nodes[0], c, it)
              && rings == old(rings)[h := Chain(old(rings)[h].nodes + [c], old(rings)[h].items + [it])]
      ensures |containers| == |old(containers)| + 1
    {
      ghost var h := Home(q, side, key);
      var head := lists[TreeOf(queues[q], side)[key]].head;
      var tail := containers[head].prev;
      var container := FreshPtr(containers.Keys);
      containers := containers[container := Container(it, container, tail, h)];
      containers := WithNext(containers, tail, container);
      containers := WithPrev(containers, head, container);
      containers := WithNext(containers, container, head);
      c := container;
      LinkedBeforeSize(old(containers), h, head, c, it);
      rings := rings[h := Chain(rings[h].nodes + [c], rings[h].items + [it])];
    }

    /** Takes the head of a ring out; an emptied ring goes with its list head and its key. */
    method TakeHead(q: nat, side: Side, key: nat) returns (c: Ptr)
      requires CutReady(queues, containers, lists, rings, Home(q, side, key), 0)
      modifies this`queues, this`containers, this`lists, this`rings
      ensures Taken(old(queues), queues, old(containers), containers, old(lists), lists, old(rings), rings,
                    Home(q, side, key), 0)
      ensures c == old(rings)[Home(q, side, key)].nodes[0]
    {
      ghost var h := Home(q, side, key);
      var tree := TreeOf(queues[q], side);
      var list := tree[key];
      c := lists[list].head;
      if containers[c].next == c {
        queues := queues[q := WithTree(queues[q], side, tree - {key})];
        lists := lists - {list};
        rings := rings - {h};
      } else {
        var nextHead, tail := containers[c].next, containers[c].prev;
        containers := WithPrev(containers, nextHead, tail);
        containers := WithNext(containers, tail, nextHead);
        lists := lists[list := lists[list].(head := nextHead)];
        rings := rings[h := Chain(RemoveAt(rings[h].nodes, 0), RemoveAt(rings[h].items, 0))];
      }
      containers := Detached(containers, c);
    }

    /** Takes `c` out of its ring, wherever it is. */
    method TakeNode(q: nat, side: Side, key: nat, c: Ptr, ghost r: nat)
      requires CutReady(queues, containers, lists, rings, Home(q, side, key), r)
      requires c == rings[Home(q, side, key)].nodes[r]
      modifies this`queues, this`containers, this`lists, this`rings
      ensures Taken(old(queues), queues, old(containers), containers, old(lists), lists, old(rings), rings,
                    Home(q, side, key), r)
    {
      ghost var h := Home(q, side, key);
      var tree := TreeOf(queues[q], side);
      var list := tree[key];
      if containers[c].next == c {
        queues := queues[q := WithTree(queues[q], side, tree - {key})];
        lists := lists - {list};
        rings := rings - {h};
      } else {
        var next, prev := containers[c].next, containers[c].prev;
        containers := WithPrev(containers, next, prev);
        containers := WithNext(containers, prev, next);
        if c == lists[list].head {
          lists := lists[list := lists[list].(head := next)];
        }
        rings := rings[h := Chain(RemoveAt(rings[h].nodes, r), RemoveAt(rings[h].items, r))];
        assert lists == old(lists)[list := old(lists)[list].(head := RemoveAt(old(rings)[h].nodes, r)[0])];
      }
      containers := Detached(containers, c);
    }

    /** Walks a ring once from its head, looking for the container of `skb`. */
    method Find(q: nat, side: Side, key: nat, skb: Skb) returns (c: Option<Ptr>, ghost r: nat)
      requires HeadedAt(queues, lists, rings, Home(q, side, key)) && RingAt(containers, rings, Home(q, side, key))
      ensures var Chain(s, items) := rings[Home(q, side, key)];
              && (c.None? <==> forall i :: 0 <= i < |items| ==> items[i].skb != skb)
              && (c.Some? ==> r < |s| == |items| && s[r] == c.value && items[r].skb == skb)
    {
      ghost var s := rings[Home(q, side, key)].nodes;
      var head := lists[TreeOf(queues[q], side)[key]].head;
      var container := head;
      c, r := None, 0;
      while true
        invariant r < |s| && container == s[r] && c.None?
        invariant forall i :: 0 <= i < r ==> rings[Home(q, side, key)].items[i].skb != skb
        decreases |s| - r
      {
        if containers[container].item.skb == skb {
          c := Some(container);
          break;
        }
        container := containers[container].next;
        assert container == s[if r + 1 == |s| then 0 else r + 1];
        if container == head {
          break;
        }
        r := r + 1;
      }
    }

    // ----- one tree and the packets filed in it -----

    ghost predicate Filing()
      reads this
    {
      TreesOk(queues, containers, lists, rings, filed) && |lists| == Entries(queues)
    }

    /** Files `e` in one tree of queue `q`. */
    method Insert(q: nat, side: Side, e: Entry)
      requires Filing() && q < |queues|
      modifies this`queues, this`containers, this`lists, this`rings, this`filed
      ensures Filing() && OnlyTrees(old(queues), queues, q)
      ensures |old(filed).admn| == |old(filed).proc| == |old(queues)|
      ensures filed == WithFiled(old(filed), q, side, FiledAt(old(filed), q, side) + [e])
      ensures |containers| == |old(containers)| + 1
    {
      if KeyOf(side)(e) !in TreeOf(queues[q], side) {
        InsertNewKey(q, side, e);
      } else {
        InsertKnownKey(q, side, e);
        OnlyTreesSame(queues, q);
      }
    }

    method InsertNewKey(q: nat, side: Side, e: Entry)
      requires Filing() && q < |queues| && KeyOf(side)(e) !in TreeOf(queues[q], side)
      modifies this`queues, this`containers, this`lists, this`rings, this`filed
      ensures Filing() && OnlyTrees(old(queues), queues, q)
      ensures |old(filed).admn| == |old(filed).proc| == |old(queues)|
      ensures filed == WithFiled(old(filed), q, side, FiledAt(old(filed), q, side) + [e])
      ensures |containers| == |old(containers)| + 1
    {
      var key := KeyOf(side)(e);
      ghost var c, l := PutFirst(q, side, key, ItemOf(side, e));
      InsertFirst(old(queues), old(containers), old(lists), old(rings), filed, q, side, e, c, l);
      OnlyTreesPut(old(queues), q, side, TreeOf(old(queues)[q], side)[key := l]);
      BalancedPut(old(queues), old(lists), q, side, key, l, ContList(c, Home(q, side, key)));
      filed := WithFiled(filed, q, side, FiledAt(filed, q, side) + [e]);
    }

    method InsertKnownKey(q: nat, side: Side, e: Entry)
      requires Filing() && q < |queues| && KeyOf(side)(e) in TreeOf(queues[q], side)
      modifies this`containers, this`rings, this`filed
      ensures Filing()
      ensures |old(filed).admn| == |old(filed).proc| == |old(queues)|
      ensures filed == WithFiled(old(filed), q, side, FiledAt(old(filed), q, side) + [e])
      ensures |containers| == |old(containers)| + 1
    {
      var key, it := KeyOf(side)(e), ItemOf(side, e);
      ghost var h := Home(q, side, key);
      HeadReady(queues, containers, lists, rings, filed, q, side, key);
      ghost var qs, m, ls, r, f := queues, containers, lists, rings, filed;
      assert TreesOk(qs, m, ls, r, f);
      ghost var c := PutMore(q, side, key, it);
      filed := WithFiled(filed, q, side, FiledAt(filed, q, side) + [e]);
      InsertMore(qs, m, containers, ls, r, rings, f, filed, h, e, c);
    }

    /** Takes out the earliest packet with the largest key of one tree, if there is one. */
    method RemoveFirst(q: nat, side: Side) returns (c: Option<Ptr>)
      requires Filing() && q < |queues|
      modifies this`queues, this`containers, this`lists, this`rings, this`filed
      ensures Filing() && OnlyTrees(old(queues), queues, q)
      ensures |old(filed).admn| == |old(filed).proc| == |old(queues)| && containers.Keys == old(containers).Keys
      ensures c.None? ==> FiledAt(old(filed), q, side) == [] && filed == old(filed)
      ensures c.Some? ==>
                var s := FiledAt(old(filed), q, side);
                && s != []
                && var i := EarliestMax(KeyOf(side), s);
                   && filed == WithFiled(old(filed), q, side, RemoveAt(s, i))
                   && c.value in containers
                   && containers[c.value].home == Nowhere && containers[c.value].item == ItemOf(side, s[i])
    {
      var key := Last(TreeOf(queues[q], side));
      EmptyTree(queues, containers, lists, rings, filed, q, side);
      if key.None? {
        return None;
      }
      LargestKey(queues, containers, lists, rings, filed, q, side, key.value);
      ghost var s := FiledAt(filed, q, side);
      ghost var i, h := EarliestMax(KeyOf(side), s), Home(q, side, key.value);
      PlaceOf(queues, containers, lists, rings, filed, q, side, i);
      CutReadyAt(queues, containers, lists, rings, filed, h, 0);
      var head := TakeHead(q, side, key.value);
      TakenOk(old(queues), queues, old(containers), containers, old(lists), lists, old(rings), rings, filed, h, i, 0);
      OnlyTreesTaken(old(queues), queues, old(containers), containers, old(lists), lists, old(rings), rings, h, 0);
      BalancedTaken(old(queues), queues, old(containers), containers, old(lists), lists, old(rings), rings, h, 0);
      filed := WithFiled(filed, q, side, RemoveAt(s, i));
      c := Some(head);
    }

    /** Finds a packet by its other key and its address in the other tree, and takes it out.
        Neither the lookup nor the search can fail. */
    method RemoveTwin(q: nat, side: Side, key: nat, skb: Skb, ghost i: nat) returns (c: Ptr)
      requires Filing() && q < |queues| == |filed.admn| == |filed.proc|
      requires i < |FiledAt(filed, q, side)| && DistinctSkbs(FiledAt(filed, q, side))
      requires KeyOf(side)(FiledAt(filed, q, side)[i]) == key && FiledAt(filed, q, side)[i].skb == skb
      modifies this`queues, this`containers, this`lists, this`rings, this`filed
      ensures Filing() && OnlyTrees(old(queues), queues, q) && containers.Keys == old(containers).Keys
      ensures filed == WithFiled(old(filed), q, side, RemoveAt(FiledAt(old(filed), q, side), i))
      ensures c in containers && containers[c].home == Nowhere
      ensures forall x :: x in old(containers) && old(containers)[x].home == Nowhere ==>
                x in containers && containers[x].home == Nowhere && x != c
    {
      ghost var s, h := FiledAt(filed, q, side), Home(q, side, key);
      PlaceOf(queues, containers, lists, rings, filed, q, side, i);
      KeyIffRing(queues, containers, lists, rings, filed, q, side, key);
      RingFacts(queues, containers, lists, rings, filed, h);
      if key !in TreeOf(queues[q], side) {
        assert false;
      }
      var found: Option<Ptr>;
      ghost var r: nat;
      found, r := Find(q, side, key, skb);
      if found.None? {
        assert false;
      }
      c := found.value;
      TwinPlace(side, s, i, r);
      CutReadyAt(queues, containers, lists, rings, filed, h, r);
      TakeNode(q, side, key, c, r);
      TakenOk(old(queues), queues, old(containers), containers, old(lists), lists, old(rings), rings, filed, h, i, r);
      OnlyTreesTaken(old(queues), queues, old(containers), containers, old(lists), lists, old(rings), rings, h, r);
      BalancedTaken(old(queues), queues, old(containers), containers, old(lists), lists, old(rings), rings, h, r);
      forall x | x in old(containers) && old(containers)[x].home == Nowhere
        ensures x in containers && containers[x].home == Nowhere && x != c
      {
        TakenFrame(old(queues), queues, old(containers), containers, old(lists), lists, old(rings), rings, h, r, x);
      }
      filed := WithFiled(filed, q, side, RemoveAt(s, i));
    }

    /** Gives a container back that is in no ring any more. */
    method Free(c: Ptr)
      requires Filing() && c in containers && containers[c].home == Nowhere
      modifies this`containers
      ensures Filing() && containers == old(containers) - {c}
    {
      FreeContainer(queues, containers, lists, rings, filed, c);
      containers := containers - {c};
    }

    // ----- the queues -----

    /** Between operations: the trees agree with each other, and memory holds two
        containers for each stored packet and one list head for each key, no more. */
    ghost predicate Consistent()
      reads this
    {
      && Filing()
      && filed.admn == filed.proc
      && |filed.admn| == |freed| == |queues|
      && |containers| == 2 * Total(filed.admn)
      && AllDistinct(filed.admn)
    }

    /** Queue `q` as the arrival list knows it. */
    ghost function State(q: nat): QueueState
      requires q < |queues| == |filed.admn| == |freed|
      reads this
    {
      StateOf(queues, filed.admn, freed, q)
    }

    /** Nothing but queue `q` has changed. */
    twostate predicate OnlyQueue(q: nat)
      reads this
    {
      && q < |queues| == old(|queues|)
      && |filed.admn| == |freed| == |queues| == old(|filed.admn|) == old(|freed|)
      && queues == old(queues)[q := queues[q]]
      && filed.admn == old(filed).admn[q := filed.admn[q]]
      && freed == old(freed)[q := freed[q]]
    }

    /** Files `e` in both trees, admission first. */
    method File(q: nat, e: Entry)
      requires Filing() && q < |queues|
      modifies this`queues, this`containers, this`lists, this`rings, this`filed
      ensures Filing() && OnlyTrees(old(queues), queues, q)
      ensures |old(filed).admn| == |old(filed).proc| == |old(queues)|
      ensures filed.admn == old(filed).admn[q := old(filed).admn[q] + [e]]
      ensures filed.proc == old(filed).proc[q := old(filed).proc[q] + [e]]
      ensures |containers| == |old(containers)| + 2
    {
      Insert(q, Admission, e);
      ghost var between := queues;
      Insert(q, Processing, e);
      OnlyTreesTwice(old(queues), between, queues, q);
    }

    /** Takes the earliest packet with the largest key of one tree out of both trees, and
        gives its two containers back. */
    method Unfile(q: nat, side: Side) returns (skb: Option<Skb>)
      requires Filing() && q < |queues| && filed.admn == filed.proc && |filed.admn| == |queues|
      requires DistinctSkbs(filed.admn[q])
      modifies this`queues, this`containers, this`lists, this`rings, this`filed
      ensures Filing() && OnlyTrees(old(queues), queues, q) && filed.admn == filed.proc
      ensures skb.None? ==> old(filed).admn[q] == [] && filed == old(filed) && containers.Keys == old(containers).Keys
      ensures skb.Some? ==>
                var s := old(filed).admn[q];
                && s != []
                && var i := EarliestMax(KeyOf(side), s);
                   && skb.value == s[i].skb
                   && filed.admn == old(filed).admn[q := RemoveAt(s, i)]
                   && |containers| == |old(containers)| - 2
    {
      var c := RemoveFirst(q, side);
      if c.None? {
        return None;
      }
      ghost var between := queues;
      var found := UnfileTwin(q, side, c.value, old(filed), EarliestMax(KeyOf(side), old(filed).admn[q]));
      OnlyTreesTwice(old(queues), between, queues, q);
      skb := Some(found);
    }

    /** The second half: `c` is out of its tree, and its twin follows. `whole` is what was filed before. */
    method UnfileTwin(q: nat, side: Side, c: Ptr, ghost whole: Filed, ghost i: nat) returns (skb: Skb)
      requires Filing() && whole.admn == whole.proc && q < |queues| == |whole.admn| && i < |whole.admn[q]|
      requires DistinctSkbs(whole.admn[q]) && filed == WithFiled(whole, q, side, RemoveAt(whole.admn[q], i))
      requires c in containers && containers[c].home == Nowhere
      requires containers[c].item == ItemOf(side, whole.admn[q][i])
      modifies this`queues, this`containers, this`lists, this`rings, this`filed
      ensures Filing() && OnlyTrees(old(queues), queues, q) && skb == whole.admn[q][i].skb
      ensures filed.admn == filed.proc == whole.admn[q := RemoveAt(whole.admn[q], i)]
      ensures |containers| == |old(containers)| - 2
    {
      var item := containers[c].item;
      var twin := RemoveTwin(q, OtherSide(side), item.otherKey, item.skb, i);
      UnfiledTwice(whole, old(filed), filed, q, side, i);
      FreeBoth(c, twin);
      skb := item.skb;
    }

    method FreeBoth(c: Ptr, twin: Ptr)
      requires Filing() && c in containers && twin in containers && c != twin
      requires containers[c].home == Nowhere && containers[twin].home == Nowhere
      modifies this`containers
      ensures Filing() && |containers| == |old(containers)| - 2
    {
      Free(c);
      Free(twin);
    }

    /** Takes the earliest packet with the largest key of one tree out of queue `q`, if there is one. */
    method TakeOut(q: nat, side: Side) returns (skb: Option<Skb>)
      requires Consistent() && q < |queues|
      modifies this`queues, this`containers, this`lists, this`rings, this`filed
      ensures Consistent() && OnlyTrees(old(queues), queues, q)
      ensures skb.None? ==> old(filed).admn[q] == [] && filed == old(filed)
      ensures skb.Some? ==>
                var s := old(filed).admn[q];
                && s != []
                && var i := EarliestMax(KeyOf(side), s);
                   skb.value == s[i].skb && filed.admn == old(filed).admn[q := RemoveAt(s, i)]
    {
      assert DistinctSkbs(filed.admn[q]);
      skb := Unfile(q, side);
      if skb.Some? {
        OneFewer(old(filed).admn, filed.admn, q, EarliestMax(KeyOf(side), old(filed).admn[q]));
      } else {
        SameSize(old(containers), containers);
      }
    }

    method SetCounters(q: nat, len: int, dropped: int, total: int)
      requires Filing() && q < |queues|
      modifies this`queues
      ensures Filing() && queues == old(queues)[q := old(queues)[q].(len := len, dropped := dropped, total := total)]
    {
      queues := queues[q := queues[q].(len := len, dropped := dropped, total := total)];
      CountersOnly(old(queues), queues, containers, lists, rings, filed);
    }

    /** Takes a packet out of queue `q` and counts that, if there is one. */
    method TakeAndCount(q: nat, side: Side, fewer: int, lost: int) returns (skb: Option<Skb>)
      requires Consistent() && q < |queues|
      modifies this`queues, this`containers, this`lists, this`rings, this`filed
      ensures Consistent() && OnlyQueue(q) && queues[q].name == old(queues[q].name)
      ensures skb.None? ==> old(filed).admn[q] == [] && State(q) == old(State(q))
      ensures skb.Some? ==>
                var was := old(State(q));
                && was.stored != []
                && var i := EarliestMax(KeyOf(side), was.stored);
                   && skb.value == was.stored[i].skb
                   && State(q) == was.(stored := RemoveAt(was.stored, i), len := was.len - fewer,
                                       dropped := was.dropped + lost)
    {
      skb := TakeOut(q, side);
      if skb.Some? {
        OnlyCounters(old(queues), queues, q, queues[q].len - fewer, queues[q].dropped + lost, queues[q].total);
        SetCounters(q, queues[q].len - fewer, queues[q].dropped + lost, queues[q].total);
      }
    }

    /** Stores a packet under the keys the policy gives it. */
    method DoEnqueue(q: nat, skb: Skb) returns (ghost stored: Entry)
      requires Consistent() && q < |queues| && FreshSkb(filed.admn[q], skb)
      modifies this`queues, this`containers, this`lists, this`rings, this`filed, this`freed
      ensures Consistent() && OnlyQueue(q) && queues[q].name == old(queues[q].name)
      ensures State(q) == Enqueue(old(State(q)), Keyed(policy, old(ViewOf(queues[q])), skb))
      ensures filed.admn[q] == old(filed.admn[q]) + [stored] && stored.skb == skb
      ensures var was := old(queues[q]);
              var view := QueueView(was.name, was.maxLen, was.len, was.dropped, was.total);
              stored.admn == policy.admn(view, skb) && stored.proc == policy.proc(view, skb)
    {
      var view := ViewOf(queues[q]);
      var e := Entry(skb, policy.admn(view, skb), policy.proc(view, skb));
      assert DistinctSkbs(filed.admn[q]);
      File(q, e);
      OneMoreStored(old(filed).admn, filed.admn, q, e);
      OnlyCounters(old(queues), queues, q, queues[q].len + 1, queues[q].dropped, queues[q].total + 1);
      SetCounters(q, queues[q].len + 1, queues[q].dropped, queues[q].total + 1);
      stored := e;
    }

    /** Drops the earliest packet with the largest admission key; leaves `len` as it is. */
    method DoDropTail(q: nat) returns (status: int, ghost i: nat)
      requires Consistent() && q < |queues|
      modifies this`queues, this`containers, this`lists, this`rings, this`filed, this`freed
      ensures Consistent() && OnlyQueue(q) && queues[q].name == old(queues[q].name)
      ensures State(q) == DropTail(old(State(q)))
      ensures status == if old(filed).admn[q] == [] then EINVAL else 0
      ensures status == 0 ==>
                && FirstOfLargestAdmn(old(filed.admn[q]), i)
                && freed[q] == old(freed[q]) + [old(filed.admn[q])[i].skb]
                && filed.admn[q] == RemoveAt(old(filed.admn[q]), i)
    {
      var skb := TakeAndCount(q, Admission, 0, 1);
      if skb.None? {
        return EINVAL, 0;
      }
      i := EarliestMax(AdmnKey, old(filed.admn[q]));
      TailIsLargest(old(filed.admn[q]));
      freed := freed[q := freed[q] + [skb.value]];
      status := 0;
    }

    function Views(): seq<QueueView>
      reads this
    {
      seq(|queues|, i requires 0 <= i < |queues| reads this => ViewOf(queues[i]))
    }

    /** Offers a packet to the queue the policy selects. If the queue is congested, the
        action decides; an action other than the two known ones loses the packet. */
    method OqEnqueue(skb: Skb) returns (status: int)
      requires Valid() && policy.qSelect(Views(), skb) < |queues|
      requires FreshSkb(filed.admn[policy.qSelect(Views(), skb)], skb)
      modifies this
      ensures Valid() && status == 0
      ensures var q := old(policy.qSelect(Views(), skb)); OnlyQueue(q)
      ensures var q := old(policy.qSelect(Views(), skb));
              var ev := OfferTo(policy, old(queues[q].name), old(State(q)), skb);
              Happened(q, ev) && State(q) == Offer(old(State(q)), ev.verdict, ev.entry)
      ensures var q := old(policy.qSelect(Views(), skb));
              && |events[q]| == |old(events[q])| + 1
              && events[q][|old(events[q])|].Offered? && events[q][|old(events[q])|].entry.skb == skb
    {
      var q := policy.qSelect(Views(), skb);
      ghost var ev := OfferTo(policy, queues[q].name, State(q), skb);
      Admit(q, skb);
      TraceStep(policy, old(queues), old(filed).admn, old(freed), events, queues, filed.admn, freed, q, ev);
      events := events[q := events[q] + [ev]];
      status := 0;
    }

    /** What becomes of a packet offered to queue `q`. */
    method Admit(q: nat, skb: Skb)
      requires Consistent() && q < |queues| && FreshSkb(filed.admn[q], skb)
      modifies this`queues, this`containers, this`lists, this`rings, this`filed, this`freed
      ensures Consistent() && OnlyQueue(q) && queues[q].name == old(queues[q].name)
      ensures var ev := OfferTo(policy, old(queues[q].name), old(State(q)), skb);
              State(q) == Offer(old(State(q)), ev.verdict, ev.entry)
    {
      if !policy.congested(ViewOf(queues[q])) {
        var _ := DoEnqueue(q, skb);
      } else {
        var action := policy.action(ViewOf(queues[q]), skb);
        if action == CON_ACT_DROP_TAIL {
          DropAndEnqueue(q, skb);
        } else if action == CON_ACT_DROP_PKT {
          freed := freed[q := freed[q] + [skb]];
          SetCounters(q, queues[q].len, queues[q].dropped + 1, queues[q].total);
        }
      }
    }

    method DropAndEnqueue(q: nat, skb: Skb)
      requires Consistent() && q < |queues| && FreshSkb(filed.admn[q], skb)
      modifies this`queues, this`containers, this`lists, this`rings, this`filed, this`freed
      ensures Consistent() && OnlyQueue(q) && queues[q].name == old(queues[q].name)
      ensures State(q) == Enqueue(DropTail(old(State(q))),
                                  Keyed(policy, ViewIn(old(queues[q].name), DropTail(old(State(q)))), skb))
    {
      FreshAfterDrop(State(q), skb);
      var _, _ := DoDropTail(q);
      ghost var qs, stored, fs := queues, filed.admn, freed;
      var _ := DoEnqueue(q, skb);
      ChangedTwice(old(queues), qs, queues, q);
      ChangedTwice(old(filed.admn), stored, filed.admn, q);
      ChangedTwice(old(freed), fs, freed, q);
    }

    /** Hands out the earliest packet with the largest processing key of the queue the policy schedules. */
    method OqDequeue() returns (skb: Option<Skb>, ghost i: nat)
      requires Valid() && policy.sched(Views()) < |queues|
      modifies this
      ensures Valid()
      ensures var q := old(policy.sched(Views()));
              && OnlyQueue(q) && Happened(q, Dequeued) && State(q) == Dequeue(old(State(q)))
              && skb == match old(Next(State(q))) case None => None case Some(e) => Some(e.skb)
      ensures var q := old(policy.sched(Views()));
              var s := old(filed.admn[q]);
              && (skb.None? <==> s == [])
              && (skb.Some? ==>
                    FirstOfLargestProc(s, i) && skb.value == s[i].skb && filed.admn[q] == RemoveAt(s, i))
    {
      var q := policy.sched(Views());
      i := 0;
      if filed.admn[q] != [] {
        i := EarliestMax(ProcKey, filed.admn[q]);
        NextIsLargest(filed.admn[q]);
      }
      skb := Release(q);
      TraceStep(policy, old(queues), old(filed).admn, old(freed), events, queues, filed.admn, freed, q, Dequeued);
      events := events[q := events[q] + [Dequeued]];
    }

    /** Takes the next packet out of queue `q`. */
    method Release(q: nat) returns (skb: Option<Skb>)
      requires Consistent() && q < |queues|
      modifies this`queues, this`containers, this`lists, this`rings, this`filed
      ensures Consistent() && OnlyQueue(q) && queues[q].name == old(queues[q].name)
      ensures State(q) == Dequeue(old(State(q)))
      ensures skb == match old(Next(State(q))) case None => None case Some(e) => Some(e.skb)
    {
      skb := TakeAndCount(q, Processing, 1, 0);
    }

    // ----- whole runs -----

    /** The history of queue `q` since the port was set up. */
    ghost function Past(q: nat): History
      requires q < |queues| == |events|
      reads this
    {
      PastOf(queues, events, q)
    }

    ghost predicate Traced()
      reads this
    {
      AllTraced(policy, queues, filed.admn, freed, events)
    }

    /** What holds whenever no operation is under way: each queue is in the state that a run of the arrival list
        leads to. */
    ghost predicate Valid()
      reads this
    {
      Consistent() && Traced()
    }

    /** One event has happened to queue `q`, and none to the others. */
    twostate predicate Happened(q: nat, ev: Event)
      reads this
    {
      && q < |events| == |queues| && q < old(|events|) == old(|queues|)
      && events == old(events)[q := old(events[q]) + [ev]]
      && Past(q) == Step(old(Past(q)), ev)
    }

    /** A port as the generated initialisation leaves it: all queues empty, nothing allocated. */
    constructor (policy: Policy, names: seq<string>, maxLens: seq<int>)
      requires |names| == |maxLens|
      ensures this.policy == policy && Valid() && |queues| == |names|
      ensures forall q :: 0 <= q < |queues| ==>
                queues[q].name == names[q] && State(q) == QueueState(maxLens[q], 0, 0, 0, [], []) && events[q] == []
    {
      var n := |names|;
      this.policy := policy;
      queues := seq(n, i requires 0 <= i < n => Queue(map[], map[], maxLens[i], 0, 0, 0, names[i]));
      containers, lists, rings := map[], map[], map[];
      filed := Filed(seq(n, _ => []), seq(n, _ => []));
      freed, events := seq(n, _ => []), seq(n, _ => []);
      new;
      EmptyPort(queues, containers, lists, rings, filed);
      assert forall q: nat :: q < n ==> TracedAt(policy, queues, filed.admn, freed, events, q);
    }

    /** What the policy functions see of a queue, in terms of what has become of its packets. */
    lemma Seen(q: nat)
      requires Valid() && q < |queues|
      ensures |Views()| == |queues|
      ensures var h := Past(q);
              Views()[q] == QueueView(queues[q].name, queues[q].maxLen, |filed.admn[q]| + |h.tailDropped|,
                                      |h.tailDropped| + |h.refused|, |h.accepted|)
    {
      assert TracedAt(policy, queues, filed.admn, freed, events, q);
      RunAccounted(queues[q].maxLen, events[q]);
    }

    /** Every offer a queue has ever had was decided by the policy, and its packet has the keys the policy gave it. */
    lemma Decided(q: nat, i: nat)
      requires Valid() && q < |queues| && i < |events[q]| && events[q][i].Offered?
      ensures DecidedAfter(policy, queues[q].name, queues[q].maxLen, Run(Start(queues[q].maxLen), events[q][..i]),
                           events[q][i].verdict, events[q][i].entry)
    {
      assert TracedAt(policy, queues, filed.admn, freed, events, q);
      PolicyDecided(policy, queues[q].name, queues[q].maxLen, events[q], i);
    }

    /** The counters of a queue against its packets, whatever has happened to the port. */
    lemma Conserved(q: nat)
      requires Valid() && q < |queues|
      ensures var h := Past(q);
              && |h.offered| == |filed.admn[q]| + |h.delivered| + queues[q].dropped + |h.leaked|
              && queues[q].total - |h.delivered| == queues[q].len
              && (queues[q].len == |filed.admn[q]| <==> h.tailDropped == [])
              && (|h.offered| == |filed.admn[q]| + |h.delivered| + queues[q].dropped <==> h.leaked == [])
    {
      assert TracedAt(policy, queues, filed.admn, freed, events, q);
      Conservation(queues[q].maxLen, events[q]);
    }

    /** Each packet offered under an address of its own is stored, delivered, freed or lost, and only one of these. */
    lemma OneFate(q: nat, e: Entry)
      requires Valid() && q < |queues| && DistinctSkbs(Past(q).offered) && e in Past(q).offered
      ensures 1 == multiset(filed.admn[q])[e] + multiset(Past(q).delivered)[e] + multiset(freed[q])[e.skb]
                   + multiset(Past(q).leaked)[e]
    {
      assert TracedAt(policy, queues, filed.admn, freed, events, q);
      FreedOnce(queues[q].maxLen, events[q], e);
    }

    /** A policy that is congested from `len >= k` on never has more than `k` packets stored. */
    lemma AtMost(q: nat, k: int)
      requires Valid() && q < |queues| && k >= 1 && Threshold(policy, k)
      ensures |filed.admn[q]| <= k
    {
      assert TracedAt(policy, queues, filed.admn, freed, events, q);
      ThresholdRun(policy, k, queues[q].name, Start(queues[q].maxLen), events[q]);
      Capacity(queues[q].maxLen, k, events[q]);
    }

    /** Two packets a queue has delivered under equal processing keys had been offered in that order. */
    lemma Fifo(q: nat, i: nat, j: nat) returns (a: nat, b: nat)
      requires Valid() && q < |queues| && i < j < |Past(q).delivered|
      requires Past(q).delivered[i].proc == Past(q).delivered[j].proc
      ensures var h := Past(q);
              a < b < |h.offered| && h.offered[a] == h.delivered[i] && h.offered[b] == h.delivered[j]
    {
      a, b := FifoWithinKey(queues[q].maxLen, events[q], i, j);
    }

    /** One dequeue; `was` is what the queues were before the first. */
    method DrainOne(ghost was: seq<QueueState>, before: seq<seq<Skb>>) returns (out: seq<seq<Skb>>)
      requires Valid() && policy.sched(Views()) < |queues| && AllDrained(was, before, queues, filed.admn, freed)
      modifies this
      ensures Valid() && |queues| == old(|queues|) && AllDrained(was, out, queues, filed.admn, freed)
    {
      var q := policy.sched(Views());
      var skb, _ := OqDequeue();
      var more := if skb.Some? then [skb.value] else [];
      DrainedMore(was, before, old(queues), old(filed).admn, old(freed), queues, filed.admn, freed, q, more);
      out := before[q := before[q] + more];
    }

    method DrainMany(n: nat, ghost was: seq<QueueState>, before: seq<seq<Skb>>) returns (out: seq<seq<Skb>>)
      requires Valid() && (forall views | |views| == |queues| :: policy.sched(views) < |queues|)
      requires AllDrained(was, before, queues, filed.admn, freed)
      modifies this
      ensures Valid() && |queues| == old(|queues|) && AllDrained(was, out, queues, filed.admn, freed)
    {
      out := before;
      for i := 0 to n
        invariant Valid() && |queues| == old(|queues|) && AllDrained(was, out, queues, filed.admn, freed)
      {
        out := DrainOne(was, out);
      }
    }

    /**
     * Any number of dequeues, with any scheduler. What a queue has given is the beginning of the stable sort of its
     * packets by descending processing key, and all of it once the queue is empty, as its trees then are. A queue that
     * has given nothing is as it was.
     */
    method Drain(n: nat) returns (out: seq<seq<Skb>>)
      requires Valid() && forall views | |views| == |queues| :: policy.sched(views) < |queues|
      modifies this
      ensures Valid() && |out| == |queues| == old(|queues|)
      ensures forall q :: 0 <= q < |queues| ==>
                out[q] + Skbs(Drained(State(q))) == Skbs(Drained(old(State(q)))) && IsStableSort(old(State(q)))
      ensures forall q :: 0 <= q < |queues| && filed.admn[q] == [] ==>
                && out[q] == Skbs(Drained(old(State(q))))
                && queues[q].admnQ == map[] && queues[q].procQ == map[]
      ensures forall q :: 0 <= q < |queues| && out[q] == [] ==> State(q) == old(State(q))
    {
      out := seq(|queues|, _ => []);
      ghost var was := AllStates();
      StartDraining(was, out, queues, filed.admn, freed);
      out := DrainMany(n, was, out);
      Accounting();
      forall q: nat | q < |queues|
        ensures out[q] + Skbs(Drained(State(q))) == Skbs(Drained(was[q])) && IsStableSort(was[q])
        ensures filed.admn[q] == [] ==> out[q] == Skbs(Drained(was[q]))
        ensures out[q] == [] ==> State(q) == was[q]
      {
        DrainedAfter(was, out, queues, filed.admn, freed, q);
      }
    }

    ghost function AllStates(): seq<QueueState>
      requires |queues| == |filed.admn| == |freed|
      reads this
    {
      seq(|queues|, q requires 0 <= q < |queues| && |queues| == |filed.admn| == |freed| reads this => State(q))
    }

    /** In every state the operations lead to, memory holds exactly two containers for each
        stored packet and one list head for each key in use; an empty queue has empty trees. */
    lemma Accounting()
      requires Valid()
      ensures |containers| == 2 * Total(filed.admn)
      ensures |lists| == DistinctKeys(filed)
      ensures forall q :: 0 <= q < |queues| && filed.admn[q] == [] ==>
                queues[q].admnQ == map[] && queues[q].procQ == map[]
    {
      forall q | 0 <= q < |queues|
        ensures queues[q].admnQ.Keys == KeysUsed(Admission, filed.admn[q])
        ensures queues[q].procQ.Keys == KeysUsed(Processing, filed.proc[q])
      {
        TreeKeys(queues, containers, lists, rings, filed, q, Admission);
        TreeKeys(queues, containers, lists, rings, filed, q, Processing);
      }
      EntriesAreKeys(queues, filed);
      forall q | 0 <= q < |queues| && filed.admn[q] == []
        ensures queues[q].admnQ == map[] && queues[q].procQ == map[]
      {
        EmptyTree(queues, containers, lists, rings, filed, q, Admission);
        EmptyTree(queues, containers, lists, rings, filed, q, Processing);
      }
    }
  }
}
