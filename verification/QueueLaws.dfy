/** What a queue does with each packet, said of the packets, their keys and the policy, at every moment of every run. */
module QueueLaws {
  import opened Sequences
  import opened ArrivalList
  import opened QueueRuns
  import opened QueuePolicies

  // ----- which fate a verdict means -----

  predicate Stores(v: Verdict) { v == Clear || v == Congested(2) }

  predicate Frees(v: Verdict) { v == Congested(3) }

  predicate Loses(v: Verdict) { !Stores(v) && !Frees(v) }

  /** The packets offered under the verdicts of one kind, in order. */
  function OfferedUnder(kind: Verdict -> bool, evs: seq<Event>): seq<Entry> {
    if evs == [] then []
    else
      var ev := evs[|evs| - 1];
      OfferedUnder(kind, evs[..|evs| - 1]) + if ev.Offered? && kind(ev.verdict) then [ev.entry] else []
  }

  /** A packet is stored if the queue is clear or answers with action 2, freed on action 3, and lost on any other. */
  lemma {:induction false} FateByVerdict(maxLen: int, evs: seq<Event>)
    ensures var h := Run(Start(maxLen), evs);
            && h.accepted == OfferedUnder(Stores, evs)
            && h.refused == OfferedUnder(Frees, evs)
            && h.leaked == OfferedUnder(Loses, evs)
            && h.q.maxLen == maxLen
  {
    if evs != [] {
      FateByVerdict(maxLen, evs[..|evs| - 1]);
    }
  }

  /** The stored packets stay in the order in which they were accepted. */
  lemma {:induction false} StoredInOrder(maxLen: int, evs: seq<Event>)
    ensures Subsequence(Run(Start(maxLen), evs).q.stored, Run(Start(maxLen), evs).accepted)
  {
    if evs != [] {
      var h, ev := Run(Start(maxLen), evs[..|evs| - 1]), evs[|evs| - 1];
      StoredInOrder(maxLen, evs[..|evs| - 1]);
      if ev.Dequeued? {
        if h.q.stored != [] { SubsequenceRemoveAt(h.q.stored, h.accepted, EarliestMax(ProcKey, h.q.stored)); }
      } else if ev.verdict == Congested(2) && h.q.stored != [] {
        var i := EarliestMax(AdmnKey, h.q.stored);
        SubsequenceRemoveAt(h.q.stored, h.accepted, i);
        SubsequenceAppendBoth(RemoveAt(h.q.stored, i), h.accepted, ev.entry);
      } else {
        SubsequenceAppendBoth(h.q.stored, h.accepted, ev.entry);
      }
    }
  }

  // ----- which packet leaves -----

  /** No stored packet has a larger admission key than the one at `i`, and none before it has as large a one. */
  predicate FirstOfLargestAdmn(s: seq<Entry>, i: nat) {
    && i < |s|
    && (forall j :: 0 <= j < |s| ==> s[j].admn <= s[i].admn)
    && (forall j :: 0 <= j < i ==> s[j].admn < s[i].admn)
  }

  predicate FirstOfLargestProc(s: seq<Entry>, i: nat) {
    && i < |s|
    && (forall j :: 0 <= j < |s| ==> s[j].proc <= s[i].proc)
    && (forall j :: 0 <= j < i ==> s[j].proc < s[i].proc)
  }

  lemma TailIsLargest(s: seq<Entry>)
    requires s != []
    ensures FirstOfLargestAdmn(s, EarliestMax(AdmnKey, s))
  {
    var i := EarliestMax(AdmnKey, s);
    forall j | 0 <= j < |s| ensures s[j].admn <= s[i].admn && (j < i ==> s[j].admn < s[i].admn) {
      assert AdmnKey(s[j]) <= AdmnKey(s[i]);
    }
  }

  lemma NextIsLargest(s: seq<Entry>)
    requires s != []
    ensures FirstOfLargestProc(s, EarliestMax(ProcKey, s))
  {
    var i := EarliestMax(ProcKey, s);
    forall j | 0 <= j < |s| ensures s[j].proc <= s[i].proc && (j < i ==> s[j].proc < s[i].proc) {
      assert ProcKey(s[j]) <= ProcKey(s[i]);
    }
  }

  lemma OneStep(h: History, evs: seq<Event>, i: nat)
    requires i < |evs|
    ensures Run(h, evs[..i + 1]) == Step(Run(h, evs[..i]), evs[i])
  {
    assert evs[..i + 1][..i] == evs[..i];
  }

  lemma GrowsIff<T>(s: seq<T>, more: seq<T>)
    ensures s + more != s <==> more != []
  {
    assert |s + more| == |s| + |more|;
    assert s + [] == s;
  }

  /** One event makes these lists longer by one packet at most. */
  lemma Longer(maxLen: int, front: seq<Event>, ev: Event)
    ensures var h, h' := Run(Start(maxLen), front), Run(Start(maxLen), front + [ev]);
            && h.tailDropped <= h'.tailDropped && |h'.tailDropped| <= |h.tailDropped| + 1
            && h.delivered <= h'.delivered && |h'.delivered| <= |h.delivered| + 1
  {
    assert (front + [ev])[..|front|] == front;
  }

  /** The `m`-th tail drop of a run: the moment of it, and the packet. */
  ghost predicate TailDropAt(maxLen: int, evs: seq<Event>, m: nat, i: nat, k: nat) {
    && i < |evs| && evs[i].Offered? && evs[i].verdict == Congested(2)
    && var h, h' := Run(Start(maxLen), evs[..i]), Run(Start(maxLen), evs[..i + 1]);
       && |h.tailDropped| == m
       && FirstOfLargestAdmn(h.q.stored, k)
       && h'.tailDropped == h.tailDropped + [h.q.stored[k]]
       && h'.q.stored == RemoveAt(h.q.stored, k) + [evs[i].entry]
  }

  lemma TailDropLater(maxLen: int, front: seq<Event>, ev: Event, m: nat, i: nat, k: nat)
    requires TailDropAt(maxLen, front, m, i, k)
    ensures TailDropAt(maxLen, front + [ev], m, i, k) && (front + [ev])[..i] == front[..i]
  {
    assert (front + [ev])[..i] == front[..i] && (front + [ev])[..i + 1] == front[..i + 1];
  }

  /** Each dropped tail had the largest admission key of the packets stored then, and was the earliest such. */
  lemma {:induction false} TailDrop(maxLen: int, evs: seq<Event>, m: nat) returns (i: nat, k: nat)
    requires m < |Run(Start(maxLen), evs).tailDropped|
    ensures TailDropAt(maxLen, evs, m, i, k)
    ensures Run(Start(maxLen), evs).tailDropped[m] == Run(Start(maxLen), evs[..i]).q.stored[k]
  {
    var n := |evs| - 1;
    var front := evs[..n];
    assert evs == front + [evs[n]];
    Longer(maxLen, front, evs[n]);
    if m < |Run(Start(maxLen), front).tailDropped| {
      i, k := TailDrop(maxLen, front, m);
      TailDropLater(maxLen, front, evs[n], m, i, k);
    } else {
      i := n;
      k := LastTailDrop(maxLen, front, evs[n]);
    }
  }

  lemma TailStep(h: History, ev: Event) returns (k: nat)
    requires Step(h, ev).tailDropped != h.tailDropped
    ensures ev.Offered? && ev.verdict == Congested(2) && FirstOfLargestAdmn(h.q.stored, k)
    ensures Step(h, ev).tailDropped == h.tailDropped + [h.q.stored[k]]
    ensures Step(h, ev).q.stored == RemoveAt(h.q.stored, k) + [ev.entry]
  {
    GrowsIff(h.tailDropped, Tail(h.q));
    k := EarliestMax(AdmnKey, h.q.stored);
    TailIsLargest(h.q.stored);
  }

  lemma LastTailDrop(maxLen: int, front: seq<Event>, ev: Event) returns (k: nat)
    requires Run(Start(maxLen), front + [ev]).tailDropped != Run(Start(maxLen), front).tailDropped
    ensures TailDropAt(maxLen, front + [ev], |Run(Start(maxLen), front).tailDropped|, |front|, k)
  {
    var evs := front + [ev];
    assert evs[..|front|] == front && evs[..|front| + 1] == evs;
    k := TailStep(Run(Start(maxLen), front), ev);
  }

  /** The `m`-th delivery of a run: the moment of it, and the packet. */
  ghost predicate DeliveryAt(maxLen: int, evs: seq<Event>, m: nat, i: nat, k: nat) {
    && i < |evs| && evs[i].Dequeued?
    && var h, h' := Run(Start(maxLen), evs[..i]), Run(Start(maxLen), evs[..i + 1]);
       && |h.delivered| == m
       && FirstOfLargestProc(h.q.stored, k)
       && h'.delivered == h.delivered + [h.q.stored[k]]
       && h'.q.stored == RemoveAt(h.q.stored, k)
  }

  lemma DeliveryLater(maxLen: int, front: seq<Event>, ev: Event, m: nat, i: nat, k: nat)
    requires DeliveryAt(maxLen, front, m, i, k)
    ensures DeliveryAt(maxLen, front + [ev], m, i, k) && (front + [ev])[..i] == front[..i]
  {
    assert (front + [ev])[..i] == front[..i] && (front + [ev])[..i + 1] == front[..i + 1];
  }

  /** Each delivered packet had the largest processing key of the packets stored then, and was the earliest such. */
  lemma {:induction false} Delivery(maxLen: int, evs: seq<Event>, m: nat) returns (i: nat, k: nat)
    requires m < |Run(Start(maxLen), evs).delivered|
    ensures DeliveryAt(maxLen, evs, m, i, k)
    ensures Run(Start(maxLen), evs).delivered[m] == Run(Start(maxLen), evs[..i]).q.stored[k]
  {
    var n := |evs| - 1;
    var front := evs[..n];
    assert evs == front + [evs[n]];
    Longer(maxLen, front, evs[n]);
    if m < |Run(Start(maxLen), front).delivered| {
      i, k := Delivery(maxLen, front, m);
      DeliveryLater(maxLen, front, evs[n], m, i, k);
    } else {
      i := n;
      k := LastDelivery(maxLen, front, evs[n]);
    }
  }

  lemma DeliveryStep(h: History, ev: Event) returns (k: nat)
    requires Step(h, ev).delivered != h.delivered
    ensures ev.Dequeued? && FirstOfLargestProc(h.q.stored, k)
    ensures Step(h, ev).delivered == h.delivered + [h.q.stored[k]]
    ensures Step(h, ev).q.stored == RemoveAt(h.q.stored, k)
  {
    if h.q.stored == [] {
      GrowsIff(h.delivered, []);
    }
    k := EarliestMax(ProcKey, h.q.stored);
    NextIsLargest(h.q.stored);
  }

  lemma LastDelivery(maxLen: int, front: seq<Event>, ev: Event) returns (k: nat)
    requires Run(Start(maxLen), front + [ev]).delivered != Run(Start(maxLen), front).delivered
    ensures DeliveryAt(maxLen, front + [ev], |Run(Start(maxLen), front).delivered|, |front|, k)
  {
    var evs := front + [ev];
    assert evs[..|front|] == front && evs[..|front| + 1] == evs;
    k := DeliveryStep(Run(Start(maxLen), front), ev);
  }

  /** A stored packet leaves exactly when there is one and the queue is dequeued or answers an offer with action 2; of
      the two, only the answer drops it. */
  lemma LeavesIff(maxLen: int, evs: seq<Event>, i: nat)
    requires i < |evs|
    ensures var h, h' := Run(Start(maxLen), evs[..i]), Run(Start(maxLen), evs[..i + 1]);
            && (h'.delivered != h.delivered <==> h.q.stored != [] && evs[i].Dequeued?)
            && (h'.tailDropped != h.tailDropped <==>
                h.q.stored != [] && evs[i].Offered? && evs[i].verdict == Congested(2))
  {
    var h := Run(Start(maxLen), evs[..i]);
    OneStep(Start(maxLen), evs, i);
    GrowsIff(h.tailDropped, Tail(h.q));
    GrowsIff(h.delivered, if h.q.stored == [] then [] else [Next(h.q).value]);
  }

  // ----- what the policy has decided -----

  /** The policy decides on the counters that the packets of the run so far amount to, with one more drop when it comes
      to the keys, if the answer was to drop the tail and there was one. */
  predicate DecidedAfter(policy: Policy, name: string, maxLen: int, h: History, v: Verdict, e: Entry) {
    var lost := |h.tailDropped| + |h.refused|;
    var asked := QueueView(name, maxLen, |h.q.stored| + |h.tailDropped|, lost, |h.accepted|);
    var keyed := if v == Congested(2) && h.q.stored != [] then asked.(dropped := lost + 1) else asked;
    && v == (if policy.congested(asked) then Congested(policy.action(asked, e.skb)) else Clear)
    && e.admn == policy.admn(keyed, e.skb)
    && e.proc == policy.proc(keyed, e.skb)
  }

  lemma OfferDecided(policy: Policy, name: string, maxLen: int, h: History, v: Verdict, e: Entry)
    requires Offered(v, e) == OfferTo(policy, name, h.q, e.skb)
    requires h.q.maxLen == maxLen && h.q.len == |h.q.stored| + |h.tailDropped|
    requires h.q.dropped == |h.tailDropped| + |h.refused| && h.q.total == |h.accepted|
    ensures DecidedAfter(policy, name, maxLen, h, v, e)
  {
    var lost := |h.tailDropped| + |h.refused|;
    var asked := QueueView(name, maxLen, |h.q.stored| + |h.tailDropped|, lost, |h.accepted|);
    assert ViewIn(name, h.q) == asked;
    assert v == Judged(policy, asked, e.skb);
    assert v == (if policy.congested(asked) then Congested(policy.action(asked, e.skb)) else Clear);
    var keyed := if v == Congested(2) && h.q.stored != [] then asked.(dropped := lost + 1) else asked;
    assert ViewIn(name, AfterDrop(v, h.q)) == keyed;
    assert e == Keyed(policy, keyed, e.skb);
  }

  lemma {:induction false} PolicyDecided(policy: Policy, name: string, maxLen: int, evs: seq<Event>, i: nat)
    requires DecidedBy(policy, name, Start(maxLen), evs) && i < |evs| && evs[i].Offered?
    ensures DecidedAfter(policy, name, maxLen, Run(Start(maxLen), evs[..i]), evs[i].verdict, evs[i].entry)
  {
    var n := |evs| - 1;
    if i < n {
      PolicyDecided(policy, name, maxLen, evs[..n], i);
      assert evs[..n][..i] == evs[..i];
    } else {
      LastDecided(policy, name, maxLen, evs[..n], evs[n].verdict, evs[n].entry);
    }
  }

  lemma LastDecided(policy: Policy, name: string, maxLen: int, evs: seq<Event>, v: Verdict, e: Entry)
    requires Offered(v, e) == OfferTo(policy, name, Run(Start(maxLen), evs).q, e.skb)
    ensures DecidedAfter(policy, name, maxLen, Run(Start(maxLen), evs), v, e)
  {
    RunAccounted(maxLen, evs);
    FateByVerdict(maxLen, evs);
    OfferDecided(policy, name, maxLen, Run(Start(maxLen), evs), v, e);
  }
}
