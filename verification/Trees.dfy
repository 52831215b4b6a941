/** The trees of all queues: which list heads they lead to, and that each tree files
    exactly the packets of its queue. */
module Trees {
  import opened Addresses
  import opened Sequences
  import opened ArrivalList
  import opened Rings

  /** A list head. Its home is not stored in memory; it names the tree entry that leads to it. */
  datatype ContList = ContList(head: Ptr, ghost home: Home)

  /** One queue, as the kernel keeps it; both trees map keys to list heads. */
  datatype Queue = Queue(
    admnQ: map<nat, Ptr>, procQ: map<nat, Ptr>,
    maxLen: int, len: int, dropped: int, total: int, name: string)

  function TreeOf(q: Queue, side: Side): map<nat, Ptr> {
    if side.Admission? then q.admnQ else q.procQ
  }

  function WithTree(q: Queue, side: Side, t: map<nat, Ptr>): (r: Queue)
    ensures TreeOf(r, side) == t
    ensures forall other :: other != side ==> TreeOf(r, other) == TreeOf(q, other)
  {
    if side.Admission? then q.(admnQ := t) else q.(procQ := t)
  }

  function OtherSide(side: Side): Side {
    if side.Admission? then Processing else Admission
  }

  function KeyOf(side: Side): Entry -> nat {
    if side.Admission? then AdmnKey else ProcKey
  }

  function ItemOf(side: Side, e: Entry): Item {
    if side.Admission? then Item(e.skb, e.proc) else Item(e.skb, e.admn)
  }

  function ItemsOf(side: Side, s: seq<Entry>): (r: seq<Item>)
    ensures |r| == |s| && forall i :: 0 <= i < |s| ==> r[i] == ItemOf(side, s[i])
  {
    seq(|s|, i requires 0 <= i < |s| => ItemOf(side, s[i]))
  }

  /** What a tree should hold under `key` when its queue stores `s`. */
  function Cut(side: Side, key: nat, s: seq<Entry>): seq<Item> {
    ItemsOf(side, OfKey(KeyOf(side), key, s))
  }

  /** The stored packets of each queue, for each of its trees; both agree between operations. */
  datatype Filed = Filed(admn: seq<seq<Entry>>, proc: seq<seq<Entry>>)

  function FiledAt(fd: Filed, q: nat, side: Side): seq<Entry>
    requires q < |fd.admn| && q < |fd.proc|
  {
    if side.Admission? then fd.admn[q] else fd.proc[q]
  }

  function WithFiled(fd: Filed, q: nat, side: Side, s: seq<Entry>): Filed
    requires q < |fd.admn| && q < |fd.proc|
  {
    if side.Admission? then fd.(admn := fd.admn[q := s]) else fd.(proc := fd.proc[q := s])
  }

  function ItemsAt(rings: map<Home, Chain>, h: Home): seq<Item> {
    if h in rings then rings[h].items else []
  }

  /** Every ring is reached from its tree through a list head of its own. */
  ghost predicate Headed(qs: seq<Queue>, lists: map<Ptr, ContList>, rings: map<Home, Chain>) {
    && (forall h {:trigger HeadedAt(qs, lists, rings, h)} :: h in rings ==> HeadedAt(qs, lists, rings, h))
    && (forall q: nat, side, key: nat {:trigger LeadsToRing(qs, rings, q, side, key)} ::
          q < |qs| && key in TreeOf(qs[q], side) ==> LeadsToRing(qs, rings, q, side, key))
  }

  ghost predicate LeadsToRing(qs: seq<Queue>, rings: map<Home, Chain>, q: nat, side: Side, key: nat) {
    Home(q, side, key) in rings
  }

  ghost predicate HeadedAt(qs: seq<Queue>, lists: map<Ptr, ContList>, rings: map<Home, Chain>, h: Home) {
    && h in rings && rings[h].nodes != []
    && h.Home? && h.queue < |qs| && h.key in TreeOf(qs[h.queue], h.side)
    && TreeOf(qs[h.queue], h.side)[h.key] in lists
    && lists[TreeOf(qs[h.queue], h.side)[h.key]] == ContList(rings[h].nodes[0], h)
  }

  ghost predicate FiledOk(qs: seq<Queue>, rings: map<Home, Chain>, fd: Filed) {
    && |fd.admn| == |fd.proc| == |qs|
    && forall q: nat, side, key: nat {:trigger FiledUnder(rings, fd, q, side, key)} :: q < |qs| ==>
         FiledUnder(rings, fd, q, side, key)
  }

  /** The tree holds under `key` what it should. */
  ghost predicate FiledUnder(rings: map<Home, Chain>, fd: Filed, q: nat, side: Side, key: nat)
    requires q < |fd.admn| && q < |fd.proc|
  {
    ItemsAt(rings, Home(q, side, key)) == Cut(side, key, FiledAt(fd, q, side))
  }

  // ----- filing -----

  lemma {:induction false} CutAppend(side: Side, key: nat, s: seq<Entry>, e: Entry)
    ensures Cut(side, key, s + [e]) == Cut(side, key, s) + if KeyOf(side)(e) == key then [ItemOf(side, e)] else []
  {
    OfKeyAppend(KeyOf(side), key, s, e);
  }

  lemma {:induction false} CutRemove(side: Side, key: nat, s: seq<Entry>, i: nat)
    requires i < |s|
    ensures KeyOf(side)(s[i]) != key ==> Cut(side, key, RemoveAt(s, i)) == Cut(side, key, s)
    ensures KeyOf(side)(s[i]) == key ==>
              && Rank(KeyOf(side), s, i) < |Cut(side, key, s)|
              && Cut(side, key, s)[Rank(KeyOf(side), s, i)] == ItemOf(side, s[i])
              && Cut(side, key, RemoveAt(s, i)) == RemoveAt(Cut(side, key, s), Rank(KeyOf(side), s, i))
  {
    if KeyOf(side)(s[i]) == key {
      OfKeyRemoveOwn(KeyOf(side), s, i);
    } else {
      OfKeyRemoveOther(KeyOf(side), key, s, i);
    }
  }

  lemma FiledInsert(qs: seq<Queue>, qs': seq<Queue>, rings: map<Home, Chain>, fd: Filed,
                    q: nat, side: Side, e: Entry, s: seq<Ptr>)
    requires FiledOk(qs, rings, fd) && q < |qs| == |qs'|
    ensures var h := Home(q, side, KeyOf(side)(e));
            FiledOk(qs', rings[h := Chain(s, ItemsAt(rings, h) + [ItemOf(side, e)])],
                    WithFiled(fd, q, side, FiledAt(fd, q, side) + [e]))
  {
    var h := Home(q, side, KeyOf(side)(e));
    var rings' := rings[h := Chain(s, ItemsAt(rings, h) + [ItemOf(side, e)])];
    var fd' := WithFiled(fd, q, side, FiledAt(fd, q, side) + [e]);
    forall q': nat, side', key: nat | q' < |qs'|
      ensures FiledUnder(rings', fd', q', side', key)
    {
      assert FiledUnder(rings, fd, q', side', key);
      if q' == q && side' == side { CutAppend(side, key, FiledAt(fd, q, side), e); }
    }
  }

  /** Taking the packet at position `i` out of one tree's list takes it out of its ring, at its rank. */
  lemma FiledRemove(qs: seq<Queue>, qs': seq<Queue>, rings: map<Home, Chain>, rings': map<Home, Chain>, fd: Filed,
                    q: nat, side: Side, i: nat)
    requires FiledOk(qs, rings, fd) && q < |qs| == |qs'| && i < |FiledAt(fd, q, side)|
    requires var key := KeyOf(side)(FiledAt(fd, q, side)[i]);
             var h, r := Home(q, side, key), Rank(KeyOf(side), FiledAt(fd, q, side), i);
             && (forall j :: j != h ==> ItemsAt(rings', j) == ItemsAt(rings, j))
             && (r < |ItemsAt(rings, h)| ==> ItemsAt(rings', h) == RemoveAt(ItemsAt(rings, h), r))
    ensures FiledOk(qs', rings', WithFiled(fd, q, side, RemoveAt(FiledAt(fd, q, side), i)))
  {
    var s := FiledAt(fd, q, side);
    var fd' := WithFiled(fd, q, side, RemoveAt(s, i));
    forall q': nat, side', key: nat | q' < |qs'|
      ensures FiledUnder(rings', fd', q', side', key)
    {
      assert FiledUnder(rings, fd, q', side', key);
      if q' == q && side' == side { CutRemove(side, key, s, i); }
    }
  }

  /** The same for a packet alone in its ring, and for one with company. */
  lemma FiledRemoveLast(qs: seq<Queue>, qs': seq<Queue>, rings: map<Home, Chain>, fd: Filed, q: nat, side: Side, i: nat)
    requires FiledOk(qs, rings, fd) && q < |qs| == |qs'| && i < |FiledAt(fd, q, side)|
    requires |ItemsAt(rings, Home(q, side, KeyOf(side)(FiledAt(fd, q, side)[i])))| == 1
    ensures FiledOk(qs', rings - {Home(q, side, KeyOf(side)(FiledAt(fd, q, side)[i]))},
                    WithFiled(fd, q, side, RemoveAt(FiledAt(fd, q, side), i)))
  {
    var h := Home(q, side, KeyOf(side)(FiledAt(fd, q, side)[i]));
    var r := Rank(KeyOf(side), FiledAt(fd, q, side), i);
    assert r < 1 ==> RemoveAt(ItemsAt(rings, h), r) == [];
    FiledRemove(qs, qs', rings, rings - {h}, fd, q, side, i);
  }

  lemma FiledRemoveOne(qs: seq<Queue>, rings: map<Home, Chain>, fd: Filed, q: nat, side: Side, i: nat, s: seq<Ptr>)
    requires FiledOk(qs, rings, fd) && q < |qs| && i < |FiledAt(fd, q, side)|
    requires Rank(KeyOf(side), FiledAt(fd, q, side), i)
             < |ItemsAt(rings, Home(q, side, KeyOf(side)(FiledAt(fd, q, side)[i])))|
    ensures var h := Home(q, side, KeyOf(side)(FiledAt(fd, q, side)[i]));
            var ch := Chain(s, RemoveAt(ItemsAt(rings, h), Rank(KeyOf(side), FiledAt(fd, q, side), i)));
            FiledOk(qs, rings[h := ch], WithFiled(fd, q, side, RemoveAt(FiledAt(fd, q, side), i)))
  {
    var h := Home(q, side, KeyOf(side)(FiledAt(fd, q, side)[i]));
    var ch := Chain(s, RemoveAt(ItemsAt(rings, h), Rank(KeyOf(side), FiledAt(fd, q, side), i)));
    FiledRemove(qs, qs, rings, rings[h := ch], fd, q, side, i);
  }

  // ----- list heads -----

  lemma HeadedNew(qs: seq<Queue>, lists: map<Ptr, ContList>, rings: map<Home, Chain>, h: Home, l: Ptr, ch: Chain)
    requires Headed(qs, lists, rings) && h.Home? && h.queue < |qs| && h !in rings && l !in lists && ch.nodes != []
    ensures var t := TreeOf(qs[h.queue], h.side)[h.key := l];
            Headed(qs[h.queue := WithTree(qs[h.queue], h.side, t)], lists[l := ContList(ch.nodes[0], h)],
                   rings[h := ch])
  {
    var t := TreeOf(qs[h.queue], h.side)[h.key := l];
    var qs', lists', rings' :=
      qs[h.queue := WithTree(qs[h.queue], h.side, t)], lists[l := ContList(ch.nodes[0], h)], rings[h := ch];
    forall j | j in rings' ensures HeadedAt(qs', lists', rings', j) {
      if j != h { assert HeadedAt(qs, lists, rings, j); }
    }
    forall q: nat, side, key: nat | q < |qs'| && key in TreeOf(qs'[q], side)
      ensures LeadsToRing(qs', rings', q, side, key)
    {
      if Home(q, side, key) != h { assert LeadsToRing(qs, rings, q, side, key); }
    }
  }

  /** A ring may change, and its head with it, if its list head follows. */
  lemma HeadedUpdate(qs: seq<Queue>, lists: map<Ptr, ContList>, rings: map<Home, Chain>, h: Home, ch: Chain)
    requires Headed(qs, lists, rings) && h in rings && ch.nodes != []
    ensures HeadedAt(qs, lists, rings, h)
    ensures var l := TreeOf(qs[h.queue], h.side)[h.key];
            Headed(qs, lists[l := lists[l].(head := ch.nodes[0])], rings[h := ch])
  {
    assert HeadedAt(qs, lists, rings, h);
    var l := TreeOf(qs[h.queue], h.side)[h.key];
    var lists', rings' := lists[l := lists[l].(head := ch.nodes[0])], rings[h := ch];
    forall j | j in rings' ensures HeadedAt(qs, lists', rings', j) {
      assert HeadedAt(qs, lists, rings, j);
    }
    forall q: nat, side, key: nat | q < |qs| && key in TreeOf(qs[q], side)
      ensures LeadsToRing(qs, rings', q, side, key)
    {
      assert LeadsToRing(qs, rings, q, side, key);
    }
  }

  lemma HeadedDrop(qs: seq<Queue>, lists: map<Ptr, ContList>, rings: map<Home, Chain>, h: Home)
    requires Headed(qs, lists, rings) && h in rings
    ensures HeadedAt(qs, lists, rings, h)
    ensures var l, t := TreeOf(qs[h.queue], h.side)[h.key], TreeOf(qs[h.queue], h.side) - {h.key};
            Headed(qs[h.queue := WithTree(qs[h.queue], h.side, t)], lists - {l}, rings - {h})
  {
    assert HeadedAt(qs, lists, rings, h);
    var l, t := TreeOf(qs[h.queue], h.side)[h.key], TreeOf(qs[h.queue], h.side) - {h.key};
    var qs', lists', rings' := qs[h.queue := WithTree(qs[h.queue], h.side, t)], lists - {l}, rings - {h};
    forall j | j in rings' ensures HeadedAt(qs', lists', rings', j) {
      assert HeadedAt(qs, lists, rings, j);
    }
    forall q: nat, side, key: nat | q < |qs'| && key in TreeOf(qs'[q], side)
      ensures LeadsToRing(qs', rings', q, side, key)
    {
      assert LeadsToRing(qs, rings, q, side, key);
    }
  }

  // ----- all three together -----

  ghost predicate TreesOk(qs: seq<Queue>, m: Memory, lists: map<Ptr, ContList>, rings: map<Home, Chain>, fd: Filed) {
    && WellFormed(m, rings)
    && Headed(qs, lists, rings)
    && FiledOk(qs, rings, fd)
  }

  /** A key is in its tree exactly if it has a ring, and exactly if a filed packet has it. */
  lemma KeyIffRing(qs: seq<Queue>, m: Memory, lists: map<Ptr, ContList>, rings: map<Home, Chain>, fd: Filed,
                   q: nat, side: Side, key: nat)
    requires TreesOk(qs, m, lists, rings, fd) && q < |qs|
    ensures |fd.admn| == |fd.proc| == |qs|
    ensures key in TreeOf(qs[q], side) <==> Home(q, side, key) in rings
    ensures key in TreeOf(qs[q], side) <==> OfKey(KeyOf(side), key, FiledAt(fd, q, side)) != []
  {
    var h := Home(q, side, key);
    assert FiledUnder(rings, fd, q, side, key);
    if key in TreeOf(qs[q], side) { assert LeadsToRing(qs, rings, q, side, key); }
    if h in rings {
      assert HeadedAt(qs, lists, rings, h);
      assert RingAt(m, rings, h);
    }
  }

  /** What a lookup of a filed key finds: a live list head, a live head and its live neighbours. */
  lemma RingFacts(qs: seq<Queue>, m: Memory, lists: map<Ptr, ContList>, rings: map<Home, Chain>, fd: Filed, h: Home)
    requires TreesOk(qs, m, lists, rings, fd) && h in rings
    ensures HeadedAt(qs, lists, rings, h) && RingAt(m, rings, h)
    ensures var head := rings[h].nodes[0];
            && m[head].next in m && m[head].prev in m
            && (m[head].next == head <==> |rings[h].nodes| == 1)
    ensures |fd.admn| == |fd.proc| == |qs|
    ensures rings[h].items == Cut(h.side, h.key, FiledAt(fd, h.queue, h.side))
  {
    assert HeadedAt(qs, lists, rings, h) && RingAt(m, rings, h);
    RingNeighbours(m, h, rings[h].nodes, rings[h].items, 0);
    assert FiledUnder(rings, fd, h.queue, h.side, h.key);
  }

  lemma InsertFirst(qs: seq<Queue>, m: Memory, lists: map<Ptr, ContList>, rings: map<Home, Chain>, fd: Filed,
                    q: nat, side: Side, e: Entry, c: Ptr, l: Ptr)
    requires TreesOk(qs, m, lists, rings, fd) && q < |qs|
    requires KeyOf(side)(e) !in TreeOf(qs[q], side) && c !in m && l !in lists
    ensures |fd.admn| == |fd.proc| == |qs|
    ensures var key, it := KeyOf(side)(e), ItemOf(side, e);
            var h := Home(q, side, key);
            && h !in rings
            && TreesOk(qs[q := WithTree(qs[q], side, TreeOf(qs[q], side)[key := l])],
                       m[c := Container(it, c, c, h)], lists[l := ContList(c, h)], rings[h := Chain([c], [it])],
                       WithFiled(fd, q, side, FiledAt(fd, q, side) + [e]))
  {
    var key, it := KeyOf(side)(e), ItemOf(side, e);
    var h := Home(q, side, key);
    KeyIffRing(qs, m, lists, rings, fd, q, side, key);
    RingAlone(m, h, c, it);
    WellFormedUpdate(m, m[c := Container(it, c, c, h)], rings, h, [c], [it]);
    HeadedNew(qs, lists, rings, h, l, Chain([c], [it]));
    FiledInsert(qs, qs[q := WithTree(qs[q], side, TreeOf(qs[q], side)[key := l])], rings, fd, q, side, e, [c]);
    assert ItemsAt(rings, h) + [it] == [it];
  }

  lemma AppendRings(qs: seq<Queue>, m: Memory, lists: map<Ptr, ContList>, rings: map<Home, Chain>,
                    h: Home, c: Ptr, it: Item)
    requires WellFormed(m, rings) && Headed(qs, lists, rings) && h in rings && c !in m
    ensures HeadedAt(qs, lists, rings, h)
    ensures rings[h].nodes[0] in m && m[rings[h].nodes[0]].prev in m
    ensures WellFormed(LinkedBefore(m, h, rings[h].nodes[0], c, it),
                       rings[h := Chain(rings[h].nodes + [c], rings[h].items + [it])])
    ensures Headed(qs, lists, rings[h := Chain(rings[h].nodes + [c], rings[h].items + [it])])
  {
    assert HeadedAt(qs, lists, rings, h) && RingAt(m, rings, h);
    var Chain(s, items) := rings[h];
    RingAppend(m, h, s, items, c, it);
    WellFormedUpdate(m, LinkedBefore(m, h, s[0], c, it), rings, h, s + [c], items + [it]);
    HeadedUpdate(qs, lists, rings, h, Chain(s + [c], items + [it]));
    var l := TreeOf(qs[h.queue], h.side)[h.key];
    assert lists[l := lists[l].(head := s[0])] == lists;
  }

  lemma InsertMore(qs: seq<Queue>, m: Memory, m': Memory, lists: map<Ptr, ContList>,
                   rings: map<Home, Chain>, rings': map<Home, Chain>, fd: Filed, fd': Filed,
                   h: Home, e: Entry, c: Ptr)
    requires TreesOk(qs, m, lists, rings, fd) && h in rings && c !in m
    requires h.Home? && h.queue < |qs| == |fd.admn| == |fd.proc| && h.key == KeyOf(h.side)(e)
    requires HeadedAt(qs, lists, rings, h) && rings[h].nodes[0] in m && m[rings[h].nodes[0]].prev in m
    requires m' == LinkedBefore(m, h, rings[h].nodes[0], c, ItemOf(h.side, e))
    requires rings' == rings[h := Chain(rings[h].nodes + [c], rings[h].items + [ItemOf(h.side, e)])]
    requires fd' == WithFiled(fd, h.queue, h.side, FiledAt(fd, h.queue, h.side) + [e])
    ensures TreesOk(qs, m', lists, rings', fd')
  {
    AppendRings(qs, m, lists, rings, h, c, ItemOf(h.side, e));
    FiledInsert(qs, qs, rings, fd, h.queue, h.side, e, rings[h].nodes + [c]);
  }

  // ----- taking out -----

  /** The ring of a filed packet, and that packet's place in it. */
  lemma PlaceOf(qs: seq<Queue>, m: Memory, lists: map<Ptr, ContList>, rings: map<Home, Chain>, fd: Filed,
                q: nat, side: Side, i: nat)
    requires TreesOk(qs, m, lists, rings, fd) && q < |qs|
    requires |fd.admn| == |fd.proc| == |qs| && i < |FiledAt(fd, q, side)|
    ensures var s := FiledAt(fd, q, side);
            var h, r := Home(q, side, KeyOf(side)(s[i])), Rank(KeyOf(side), s, i);
            && h in rings && r < |rings[h].nodes| == |rings[h].items|
            && rings[h].items[r] == ItemOf(side, s[i])
  {
    var s := FiledAt(fd, q, side);
    var key := KeyOf(side)(s[i]);
    CutRemove(side, key, s, i);
    KeyIffRing(qs, m, lists, rings, fd, q, side, key);
    RingFacts(qs, m, lists, rings, fd, Home(q, side, key));
  }

  lemma RemoveLast(qs: seq<Queue>, m: Memory, lists: map<Ptr, ContList>, rings: map<Home, Chain>, fd: Filed,
                   q: nat, side: Side, i: nat)
    requires TreesOk(qs, m, lists, rings, fd) && q < |qs|
    requires |fd.admn| == |fd.proc| == |qs| && i < |FiledAt(fd, q, side)|
    requires var h := Home(q, side, KeyOf(side)(FiledAt(fd, q, side)[i])); h in rings && |rings[h].nodes| == 1
    ensures var key := KeyOf(side)(FiledAt(fd, q, side)[i]);
            var h, t := Home(q, side, key), TreeOf(qs[q], side);
            && HeadedAt(qs, lists, rings, h) && rings[h].nodes[0] in m
            && TreesOk(qs[q := WithTree(qs[q], side, t - {key})], Detached(m, rings[h].nodes[0]), lists - {t[key]},
                       rings - {h}, WithFiled(fd, q, side, RemoveAt(FiledAt(fd, q, side), i)))
  {
    var key := KeyOf(side)(FiledAt(fd, q, side)[i]);
    var h, t := Home(q, side, key), TreeOf(qs[q], side);
    PlaceOf(qs, m, lists, rings, fd, q, side, i);
    WellFormedCutLast(m, rings, h);
    HeadedDrop(qs, lists, rings, h);
    FiledRemoveLast(qs, qs[q := WithTree(qs[q], side, t - {key})], rings, fd, q, side, i);
  }

  lemma RemoveOneRings(qs: seq<Queue>, m: Memory, lists: map<Ptr, ContList>, rings: map<Home, Chain>, h: Home, r: nat)
    requires WellFormed(m, rings) && Headed(qs, lists, rings) && h in rings
    requires r < |rings[h].nodes| && 1 < |rings[h].nodes|
    ensures HeadedAt(qs, lists, rings, h) && |rings[h].items| == |rings[h].nodes|
    ensures var Chain(s, items) := rings[h];
            var l, ch := TreeOf(qs[h.queue], h.side)[h.key], Chain(RemoveAt(s, r), RemoveAt(items, r));
            && s[r] in m && m[s[r]].next in m && m[s[r]].prev in m
            && WellFormed(Detached(Bypassed(m, s[r]), s[r]), rings[h := ch])
            && Headed(qs, lists[l := lists[l].(head := RemoveAt(s, r)[0])], rings[h := ch])
  {
    WellFormedCut(m, rings, h, r);
    HeadedUpdate(qs, lists, rings, h, Chain(RemoveAt(rings[h].nodes, r), RemoveAt(rings[h].items, r)));
  }

  lemma RemoveOne(qs: seq<Queue>, m: Memory, lists: map<Ptr, ContList>, rings: map<Home, Chain>, fd: Filed,
                  h: Home, i: nat, r: nat)
    requires TreesOk(qs, m, lists, rings, fd) && h in rings && |rings[h].nodes| > 1
    requires h.Home? && h.queue < |qs| == |fd.admn| == |fd.proc| && i < |FiledAt(fd, h.queue, h.side)|
    requires h.key == KeyOf(h.side)(FiledAt(fd, h.queue, h.side)[i])
    requires r == Rank(KeyOf(h.side), FiledAt(fd, h.queue, h.side), i)
    ensures HeadedAt(qs, lists, rings, h) && r < |rings[h].nodes| == |rings[h].items|
    ensures var Chain(s, items) := rings[h];
            var l := TreeOf(qs[h.queue], h.side)[h.key];
            && s[r] in m && m[s[r]].next in m && m[s[r]].prev in m
            && TreesOk(qs, Detached(Bypassed(m, s[r]), s[r]), lists[l := lists[l].(head := RemoveAt(s, r)[0])],
                       rings[h := Chain(RemoveAt(s, r), RemoveAt(items, r))],
                       WithFiled(fd, h.queue, h.side, RemoveAt(FiledAt(fd, h.queue, h.side), i)))
  {
    PlaceOf(qs, m, lists, rings, fd, h.queue, h.side, i);
    FiledRemoveOne(qs, rings, fd, h.queue, h.side, i, RemoveAt(rings[h].nodes, r));
    RemoveOneRings(qs, m, lists, rings, h, r);
  }

  /** The container at place `r` of a ring is live, so are its neighbours and its list head. */
  ghost predicate CutReady(qs: seq<Queue>, m: Memory, lists: map<Ptr, ContList>, rings: map<Home, Chain>, h: Home,
                           r: nat) {
    && HeadedAt(qs, lists, rings, h)
    && r < |rings[h].nodes| == |rings[h].items|
    && var s := rings[h].nodes;
       && s[r] in m && m[s[r]].next in m && m[s[r]].prev in m
       && m[s[r]].item == rings[h].items[r]
       && (m[s[r]].next == s[r] <==> |s| == 1)
       && (s[r] == s[0] <==> r == 0)
       && (r == 0 && |s| > 1 ==> m[s[0]].next == s[1])
  }

  lemma CutReadyAt(qs: seq<Queue>, m: Memory, lists: map<Ptr, ContList>, rings: map<Home, Chain>, fd: Filed,
                   h: Home, r: nat)
    requires TreesOk(qs, m, lists, rings, fd) && h in rings && r < |rings[h].nodes|
    ensures CutReady(qs, m, lists, rings, h, r)
  {
    assert HeadedAt(qs, lists, rings, h) && RingAt(m, rings, h);
    RingNeighbours(m, h, rings[h].nodes, rings[h].items, r);
  }

  /** The container at place `r` of the ring of `h` taken out: its neighbours joined, or,
      if it was the last one, its list head freed and its key removed from the tree. */
  ghost predicate Taken(qs: seq<Queue>, qs': seq<Queue>, m: Memory, m': Memory,
                        lists: map<Ptr, ContList>, lists': map<Ptr, ContList>,
                        rings: map<Home, Chain>, rings': map<Home, Chain>, h: Home, r: nat)
    requires CutReady(qs, m, lists, rings, h, r)
  {
    var Chain(s, items) := rings[h];
    var l := TreeOf(qs[h.queue], h.side)[h.key];
    if |s| == 1 then
      && qs' == qs[h.queue := WithTree(qs[h.queue], h.side, TreeOf(qs[h.queue], h.side) - {h.key})]
      && m' == Detached(m, s[r])
      && lists' == lists - {l}
      && rings' == rings - {h}
    else
      && qs' == qs
      && m' == Detached(Bypassed(m, s[r]), s[r])
      && lists' == lists[l := lists[l].(head := RemoveAt(s, r)[0])]
      && rings' == rings[h := Chain(RemoveAt(s, r), RemoveAt(items, r))]
  }

  lemma TakenOk(qs: seq<Queue>, qs': seq<Queue>, m: Memory, m': Memory,
                lists: map<Ptr, ContList>, lists': map<Ptr, ContList>,
                rings: map<Home, Chain>, rings': map<Home, Chain>, fd: Filed, h: Home, i: nat, r: nat)
    requires TreesOk(qs, m, lists, rings, fd) && CutReady(qs, m, lists, rings, h, r)
    requires Taken(qs, qs', m, m', lists, lists', rings, rings', h, r)
    requires |fd.admn| == |fd.proc| == |qs| && i < |FiledAt(fd, h.queue, h.side)|
    requires h.key == KeyOf(h.side)(FiledAt(fd, h.queue, h.side)[i])
    requires r == Rank(KeyOf(h.side), FiledAt(fd, h.queue, h.side), i)
    ensures TreesOk(qs', m', lists', rings', WithFiled(fd, h.queue, h.side, RemoveAt(FiledAt(fd, h.queue, h.side), i)))
  {
    if |rings[h].nodes| == 1 {
      RemoveLast(qs, m, lists, rings, fd, h.queue, h.side, i);
    } else {
      RemoveOne(qs, m, lists, rings, fd, h, i, r);
    }
  }

  /** Containers that were in no ring before are not touched. */
  lemma TakenFrame(qs: seq<Queue>, qs': seq<Queue>, m: Memory, m': Memory,
                   lists: map<Ptr, ContList>, lists': map<Ptr, ContList>,
                   rings: map<Home, Chain>, rings': map<Home, Chain>, h: Home, r: nat, x: Ptr)
    requires WellFormed(m, rings) && CutReady(qs, m, lists, rings, h, r)
    requires Taken(qs, qs', m, m', lists, lists', rings, rings', h, r)
    requires x in m && m[x].home == Nowhere
    ensures x in m' && m'[x] == m[x] && x != rings[h].nodes[r]
  {
    assert RingAt(m, rings, h);
    RingNeighbours(m, h, rings[h].nodes, rings[h].items, r);
  }

  /** What a lookup of a known key finds: a live list head, a live head, a live tail. */
  lemma HeadReady(qs: seq<Queue>, m: Memory, lists: map<Ptr, ContList>, rings: map<Home, Chain>, fd: Filed,
                  q: nat, side: Side, key: nat)
    requires TreesOk(qs, m, lists, rings, fd) && q < |qs| && key in TreeOf(qs[q], side)
    ensures HeadedAt(qs, lists, rings, Home(q, side, key))
    ensures var head := rings[Home(q, side, key)].nodes[0]; head in m && m[head].prev in m
    ensures |fd.admn| == |fd.proc| == |qs|
  {
    KeyIffRing(qs, m, lists, rings, fd, q, side, key);
    assert HeadedAt(qs, lists, rings, Home(q, side, key));
    CutReadyAt(qs, m, lists, rings, fd, Home(q, side, key), 0);
  }

  /** The largest key of a tree is the largest key of a filed packet. */
  lemma LargestKey(qs: seq<Queue>, m: Memory, lists: map<Ptr, ContList>, rings: map<Home, Chain>, fd: Filed,
                   q: nat, side: Side, key: nat)
    requires TreesOk(qs, m, lists, rings, fd) && q < |qs|
    requires key in TreeOf(qs[q], side) && forall k :: k in TreeOf(qs[q], side) ==> k <= key
    ensures |fd.admn| == |fd.proc| == |qs|
    ensures var s := FiledAt(fd, q, side);
            && s != []
            && key == KeyOf(side)(s[EarliestMax(KeyOf(side), s)])
            && Rank(KeyOf(side), s, EarliestMax(KeyOf(side), s)) == 0
  {
    KeyIffRing(qs, m, lists, rings, fd, q, side, key);
    var s := FiledAt(fd, q, side);
    var j := OfKeyOrigin(KeyOf(side), key, s, 0);
    var i := EarliestMax(KeyOf(side), s);
    PlaceOf(qs, m, lists, rings, fd, q, side, i);
    KeyIffRing(qs, m, lists, rings, fd, q, side, KeyOf(side)(s[i]));
    EarliestMaxHeads(KeyOf(side), s);
  }

  lemma EmptyTree(qs: seq<Queue>, m: Memory, lists: map<Ptr, ContList>, rings: map<Home, Chain>, fd: Filed,
                  q: nat, side: Side)
    requires TreesOk(qs, m, lists, rings, fd) && q < |qs| && |fd.admn| == |fd.proc| == |qs|
    ensures TreeOf(qs[q], side) == map[] <==> FiledAt(fd, q, side) == []
  {
    var s := FiledAt(fd, q, side);
    if s != [] {
      PlaceOf(qs, m, lists, rings, fd, q, side, 0);
      KeyIffRing(qs, m, lists, rings, fd, q, side, KeyOf(side)(s[0]));
    } else if TreeOf(qs[q], side) != map[] {
      var key :| key in TreeOf(qs[q], side);
      KeyIffRing(qs, m, lists, rings, fd, q, side, key);
    }
  }

  lemma FreeContainer(qs: seq<Queue>, m: Memory, lists: map<Ptr, ContList>, rings: map<Home, Chain>, fd: Filed, c: Ptr)
    requires TreesOk(qs, m, lists, rings, fd) && c in m && m[c].home == Nowhere
    ensures TreesOk(qs, m - {c}, lists, rings, fd)
  {
    assert !HeadedAt(qs, lists, rings, Nowhere);
    WellFormedFree(m, rings, c);
  }

  /** Packets are told apart by their address, so a search by address finds the twin. */
  lemma {:induction false} TwinPlace(side: Side, s: seq<Entry>, i: nat, r: nat)
    requires i < |s| && DistinctSkbs(s)
    requires r < |Cut(side, KeyOf(side)(s[i]), s)| && Cut(side, KeyOf(side)(s[i]), s)[r].skb == s[i].skb
    ensures r == Rank(KeyOf(side), s, i)
  {
    var j := OfKeyOrigin(KeyOf(side), KeyOf(side)(s[i]), s, r);
    assert s[j].skb == s[i].skb;
  }

  // ----- accounting -----

  /** Nothing but the trees of queue `q` differs. */
  predicate OnlyTrees(qs: seq<Queue>, qs': seq<Queue>, q: nat) {
    && q < |qs| == |qs'|
    && qs' == qs[q := qs[q].(admnQ := qs'[q].admnQ, procQ := qs'[q].procQ)]
  }

  /** New counters on top of new trees: still only queue `q` differs, and its name and limit stay. */
  lemma OnlyCounters(qs: seq<Queue>, qs': seq<Queue>, q: nat, len: int, dropped: int, total: int)
    requires OnlyTrees(qs, qs', q)
    ensures var qs'' := qs'[q := qs'[q].(len := len, dropped := dropped, total := total)];
            && qs'' == qs[q := qs''[q]] && qs''[q].name == qs[q].name && qs''[q].maxLen == qs[q].maxLen
            && qs''[q].len == len && qs''[q].dropped == dropped && qs''[q].total == total
            && qs'[q].len == qs[q].len && qs'[q].dropped == qs[q].dropped && qs'[q].total == qs[q].total
  {
  }

  lemma OnlyTreesPut(qs: seq<Queue>, q: nat, side: Side, t: map<nat, Ptr>)
    requires q < |qs|
    ensures OnlyTrees(qs, qs[q := WithTree(qs[q], side, t)], q)
  {
  }

  lemma OnlyTreesTwice(qs: seq<Queue>, qs1: seq<Queue>, qs2: seq<Queue>, q: nat)
    requires OnlyTrees(qs, qs1, q) && OnlyTrees(qs1, qs2, q)
    ensures OnlyTrees(qs, qs2, q)
  {
  }

  lemma OnlyTreesSame(qs: seq<Queue>, q: nat)
    requires q < |qs|
    ensures OnlyTrees(qs, qs, q)
  {
    assert qs == qs[q := qs[q]];
  }

  lemma OnlyTreesTaken(qs: seq<Queue>, qs': seq<Queue>, m: Memory, m': Memory,
                       lists: map<Ptr, ContList>, lists': map<Ptr, ContList>,
                       rings: map<Home, Chain>, rings': map<Home, Chain>, h: Home, r: nat)
    requires CutReady(qs, m, lists, rings, h, r)
    requires Taken(qs, qs', m, m', lists, lists', rings, rings', h, r)
    ensures OnlyTrees(qs, qs', h.queue)
  {
    OnlyTreesPut(qs, h.queue, h.side, TreeOf(qs[h.queue], h.side) - {h.key});
    OnlyTreesSame(qs, h.queue);
  }

  /** How many keys the trees of all queues have. */
  function Entries(qs: seq<Queue>): nat {
    if qs == [] then 0
    else Entries(qs[..|qs| - 1]) + |qs[|qs| - 1].admnQ| + |qs[|qs| - 1].procQ|
  }

  /** How many packets are filed on one side, over all queues. */
  function Total(fs: seq<seq<Entry>>): nat {
    if fs == [] then 0 else Total(fs[..|fs| - 1]) + |fs[|fs| - 1]|
  }

  lemma {:induction false} EntriesUpdate(qs: seq<Queue>, q: nat, x: Queue)
    requires q < |qs|
    ensures Entries(qs[q := x]) == Entries(qs) - |qs[q].admnQ| - |qs[q].procQ| + |x.admnQ| + |x.procQ|
  {
    if q == |qs| - 1 {
      assert qs[q := x][..q] == qs[..q];
    } else {
      EntriesUpdate(qs[..|qs| - 1], q, x);
      assert qs[q := x][..|qs| - 1] == qs[..|qs| - 1][q := x];
    }
  }

  lemma {:induction false} TotalUpdate(fs: seq<seq<Entry>>, q: nat, x: seq<Entry>)
    requires q < |fs|
    ensures Total(fs[q := x]) == Total(fs) - |fs[q]| + |x|
  {
    if q == |fs| - 1 {
      assert fs[q := x][..q] == fs[..q];
    } else {
      TotalUpdate(fs[..|fs| - 1], q, x);
      assert fs[q := x][..|fs| - 1] == fs[..|fs| - 1][q := x];
    }
  }

  /** One more key, one more list head. */
  lemma BalancedPut(qs: seq<Queue>, lists: map<Ptr, ContList>, q: nat, side: Side, key: nat, l: Ptr, cl: ContList)
    requires |lists| == Entries(qs) && q < |qs| && l !in lists && key !in TreeOf(qs[q], side)
    ensures |lists[l := cl]| == Entries(qs[q := WithTree(qs[q], side, TreeOf(qs[q], side)[key := l])])
  {
    var t := TreeOf(qs[q], side);
    EntriesUpdate(qs, q, WithTree(qs[q], side, t[key := l]));
    assert |t[key := l]| == |t| + 1;
    assert |lists[l := cl]| == |lists| + 1;
  }

  lemma BalancedTaken(qs: seq<Queue>, qs': seq<Queue>, m: Memory, m': Memory,
                      lists: map<Ptr, ContList>, lists': map<Ptr, ContList>,
                      rings: map<Home, Chain>, rings': map<Home, Chain>, h: Home, r: nat)
    requires |lists| == Entries(qs) && CutReady(qs, m, lists, rings, h, r)
    requires Taken(qs, qs', m, m', lists, lists', rings, rings', h, r)
    ensures |lists'| == Entries(qs') && m'.Keys == m.Keys
  {
    var t, l := TreeOf(qs[h.queue], h.side), TreeOf(qs[h.queue], h.side)[h.key];
    if |rings[h].nodes| == 1 {
      EntriesUpdate(qs, h.queue, WithTree(qs[h.queue], h.side, t - {h.key}));
      assert (t - {h.key}).Keys == t.Keys - {h.key};
      assert lists'.Keys == lists.Keys - {l};
      assert |lists'.Keys| == |lists.Keys| - 1;
      assert |t - {h.key}| == |(t - {h.key}).Keys| == |t.Keys| - 1;
    } else {
      assert lists'.Keys == lists.Keys;
      assert |lists'.Keys| == |lists.Keys|;
    }
  }

  /** The counters of a queue may change without the trees. */
  lemma CountersOnly(qs: seq<Queue>, qs': seq<Queue>, m: Memory, lists: map<Ptr, ContList>, rings: map<Home, Chain>,
                     fd: Filed)
    requires TreesOk(qs, m, lists, rings, fd) && |qs'| == |qs|
    requires forall q :: 0 <= q < |qs| ==> qs'[q].admnQ == qs[q].admnQ && qs'[q].procQ == qs[q].procQ
    ensures TreesOk(qs', m, lists, rings, fd) && Entries(qs') == Entries(qs)
  {
    forall h | h in rings ensures HeadedAt(qs', lists, rings, h) { assert HeadedAt(qs, lists, rings, h); }
    forall q: nat, side, key: nat | q < |qs'| && key in TreeOf(qs'[q], side)
      ensures LeadsToRing(qs', rings, q, side, key)
    {
      assert LeadsToRing(qs, rings, q, side, key);
    }
    forall q: nat, side, key: nat | q < |qs'| ensures FiledUnder(rings, fd, q, side, key) {
    }
    EntriesSame(qs, qs');
  }

  lemma {:induction false} EntriesSame(qs: seq<Queue>, qs': seq<Queue>)
    requires |qs'| == |qs|
    requires forall q :: 0 <= q < |qs| ==> qs'[q].admnQ == qs[q].admnQ && qs'[q].procQ == qs[q].procQ
    ensures Entries(qs') == Entries(qs)
  {
    if qs != [] { EntriesSame(qs[..|qs| - 1], qs'[..|qs| - 1]); }
  }

  ghost predicate AllDistinct(fs: seq<seq<Entry>>) {
    forall q {:trigger DistinctSkbs(fs[q])} :: 0 <= q < |fs| ==> DistinctSkbs(fs[q])
  }

  /** One packet less in one list. */
  lemma OneFewer(fs: seq<seq<Entry>>, fs': seq<seq<Entry>>, q: nat, i: nat)
    requires AllDistinct(fs) && q < |fs| && i < |fs[q]| && fs' == fs[q := RemoveAt(fs[q], i)]
    ensures AllDistinct(fs') && Total(fs') == Total(fs) - 1
  {
    assert DistinctSkbs(fs[q]);
    DistinctAfterRemove(fs[q], i);
    AllDistinctUpdate(fs, q, fs'[q]);
    TotalUpdate(fs, q, fs'[q]);
  }

  /** One packet more. */
  lemma OneMoreStored(fs: seq<seq<Entry>>, fs': seq<seq<Entry>>, q: nat, e: Entry)
    requires AllDistinct(fs) && q < |fs| && FreshSkb(fs[q], e.skb) && fs' == fs[q := fs[q] + [e]]
    ensures AllDistinct(fs') && Total(fs') == Total(fs) + 1
  {
    assert DistinctSkbs(fs[q]);
    AllDistinctUpdate(fs, q, fs'[q]);
    TotalUpdate(fs, q, fs'[q]);
  }

  /** A packet out of both lists of a queue, one after the other. */
  lemma UnfiledTwice(fd: Filed, fd1: Filed, fd2: Filed, q: nat, side: Side, i: nat)
    requires fd.admn == fd.proc && q < |fd.admn| && i < |fd.admn[q]|
    requires fd1 == WithFiled(fd, q, side, RemoveAt(fd.admn[q], i))
    requires fd2 == WithFiled(fd1, q, OtherSide(side), RemoveAt(FiledAt(fd1, q, OtherSide(side)), i))
    ensures fd2.admn == fd2.proc == fd.admn[q := RemoveAt(fd.admn[q], i)]
  {
  }

  lemma AllDistinctUpdate(fs: seq<seq<Entry>>, q: nat, s: seq<Entry>)
    requires AllDistinct(fs) && q < |fs| && DistinctSkbs(s)
    ensures AllDistinct(fs[q := s])
  {
    var fs' := fs[q := s];
    forall j | 0 <= j < |fs'| ensures DistinctSkbs(fs'[j]) {
      if j != q { assert DistinctSkbs(fs[j]); }
    }
  }

  // ----- counting list heads -----

  ghost function KeysUsed(side: Side, s: seq<Entry>): set<nat> {
    set i | 0 <= i < |s| :: KeyOf(side)(s[i])
  }

  /** The number of different keys on either side, over all queues. */
  ghost function DistinctKeys(fd: Filed): nat
    requires |fd.admn| == |fd.proc|
    decreases |fd.admn|
  {
    var n := |fd.admn|;
    if n == 0 then 0
    else DistinctKeys(Filed(fd.admn[..n - 1], fd.proc[..n - 1]))
         + |KeysUsed(Admission, fd.admn[n - 1])| + |KeysUsed(Processing, fd.proc[n - 1])|
  }

  lemma TreeKeys(qs: seq<Queue>, m: Memory, lists: map<Ptr, ContList>, rings: map<Home, Chain>, fd: Filed, q: nat,
                 side: Side)
    requires TreesOk(qs, m, lists, rings, fd) && q < |qs| == |fd.admn| == |fd.proc|
    ensures TreeOf(qs[q], side).Keys == KeysUsed(side, FiledAt(fd, q, side))
  {
    var s := FiledAt(fd, q, side);
    forall key: nat ensures key in TreeOf(qs[q], side) <==> key in KeysUsed(side, s) {
      KeyIffRing(qs, m, lists, rings, fd, q, side, key);
      if key in TreeOf(qs[q], side) {
        var i := OfKeyOrigin(KeyOf(side), key, s, 0);
      } else if key in KeysUsed(side, s) {
        var i :| 0 <= i < |s| && KeyOf(side)(s[i]) == key;
        OfKeyRemoveOwn(KeyOf(side), s, i);
      }
    }
  }

  lemma {:induction false} EntriesAreKeys(qs: seq<Queue>, fd: Filed)
    requires |qs| == |fd.admn| == |fd.proc|
    requires forall q :: 0 <= q < |qs| ==> qs[q].admnQ.Keys == KeysUsed(Admission, fd.admn[q])
    requires forall q :: 0 <= q < |qs| ==> qs[q].procQ.Keys == KeysUsed(Processing, fd.proc[q])
    ensures Entries(qs) == DistinctKeys(fd)
    decreases |qs|
  {
    var n := |qs|;
    if n > 0 {
      EntriesAreKeys(qs[..n - 1], Filed(fd.admn[..n - 1], fd.proc[..n - 1]));
      assert |qs[n - 1].admnQ| == |qs[n - 1].admnQ.Keys| && |qs[n - 1].procQ| == |qs[n - 1].procQ.Keys|;
    }
  }

  lemma {:induction false} EmptyPort(qs: seq<Queue>, m: Memory, lists: map<Ptr, ContList>, rings: map<Home, Chain>,
                                     fd: Filed)
    requires m == map[] && lists == map[] && rings == map[]
    requires |fd.admn| == |fd.proc| == |qs|
    requires forall q :: 0 <= q < |qs| ==>
               qs[q].admnQ == map[] && qs[q].procQ == map[] && fd.admn[q] == [] && fd.proc[q] == []
    ensures TreesOk(qs, m, lists, rings, fd) && Entries(qs) == 0 && Total(fd.admn) == 0 && AllDistinct(fd.admn)
    decreases |qs|
  {
    if qs != [] {
      EmptyPort(qs[..|qs| - 1], m, lists, rings, Filed(fd.admn[..|qs| - 1], fd.proc[..|qs| - 1]));
    }
  }
}
