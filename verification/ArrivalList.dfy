/** What one OpenQueue queue does, said without trees or rings: the stored packets
    are a list in order of arrival, and each operation picks its packet from it. */
module ArrivalList {
  import opened Options
  import opened Sequences

  /** A packet is known to the queue by its address only. */
  type Skb = nat

  const CON_ACT_DROP_TAIL := 2
  const CON_ACT_DROP_PKT := 3

  /** A stored packet with its keys in the admission and in the processing order. */
  datatype Entry = Entry(skb: Skb, admn: nat, proc: nat)

  function AdmnKey(e: Entry): nat { e.admn }

  function ProcKey(e: Entry): nat { e.proc }

  /** The counters of a queue, its stored packets, and the packets it has given
      to `kfree_skb`. */
  datatype QueueState = QueueState(
    maxLen: int, len: int, dropped: int, total: int, stored: seq<Entry>, freed: seq<Skb>)

  /** What the congestion functions of the policy say about an offered packet. */
  datatype Verdict = Clear | Congested(action: int)

  /** The earliest position that carries the largest key. */
  function EarliestMax(key: Entry -> nat, s: seq<Entry>): (i: nat)
    requires s != []
    ensures i < |s|
    ensures forall j :: 0 <= j < |s| ==> key(s[j]) <= key(s[i])
    ensures forall j :: 0 <= j < i ==> key(s[j]) < key(s[i])
  {
    if |s| == 1 then 0
    else
      var i := EarliestMax(key, s[..|s| - 1]);
      if key(s[|s| - 1]) > key(s[i]) then |s| - 1 else i
  }

  predicate FreshSkb(stored: seq<Entry>, skb: Skb) {
    forall i :: 0 <= i < |stored| ==> stored[i].skb != skb
  }

  predicate DistinctSkbs(stored: seq<Entry>) {
    forall i, j :: 0 <= i < j < |stored| ==> stored[i].skb != stored[j].skb
  }

  function Enqueue(q: QueueState, e: Entry): QueueState {
    q.(stored := q.stored + [e], len := q.len + 1, total := q.total + 1)
  }

  /** Drops the earliest packet with the largest admission key; `len` stays. */
  function DropTail(q: QueueState): QueueState {
    if q.stored == [] then q
    else
      var i := EarliestMax(AdmnKey, q.stored);
      q.(stored := RemoveAt(q.stored, i), dropped := q.dropped + 1, freed := q.freed + [q.stored[i].skb])
  }

  function Offer(q: QueueState, v: Verdict, e: Entry): QueueState {
    match v
    case Clear => Enqueue(q, e)
    case Congested(action) =>
      if action == CON_ACT_DROP_TAIL then Enqueue(DropTail(q), e)
      else if action == CON_ACT_DROP_PKT then q.(dropped := q.dropped + 1, freed := q.freed + [e.skb])
      else q
  }

  /** The packet the next dequeue hands out, if any. */
  function Next(q: QueueState): Option<Entry> {
    if q.stored == [] then None else Some(q.stored[EarliestMax(ProcKey, q.stored)])
  }

  function Dequeue(q: QueueState): QueueState {
    if q.stored == [] then q
    else q.(stored := RemoveAt(q.stored, EarliestMax(ProcKey, q.stored)), len := q.len - 1)
  }

  /** The earliest packet with the largest key heads the cut of that key. */
  lemma {:induction false} EarliestMaxHeads(key: Entry -> nat, s: seq<Entry>)
    requires s != []
    ensures var i := EarliestMax(key, s);
            && Rank(key, s, i) == 0
            && OfKey(key, key(s[i]), s) != []
            && OfKey(key, key(s[i]), s)[0] == s[i]
            && OfKey(key, key(s[i]), RemoveAt(s, i)) == OfKey(key, key(s[i]), s)[1..]
  {
    var i := EarliestMax(key, s);
    OfKeyNone(key, key(s[i]), s[..i]);
    OfKeyRemoveOwn(key, s, i);
  }

  lemma DistinctAfterRemove(s: seq<Entry>, i: nat)
    requires i < |s| && DistinctSkbs(s)
    ensures DistinctSkbs(RemoveAt(s, i))
    ensures FreshSkb(RemoveAt(s, i), s[i].skb)
  {
  }
}
