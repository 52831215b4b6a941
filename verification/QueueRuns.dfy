/** Whole runs of one queue: any mix of offered packets and dequeues, with any verdicts
    of the policy. The history beside the queue says what became of each packet. */
module QueueRuns {
  import opened Options
  import opened Sequences
  import opened ArrivalList

  datatype Event = Offered(verdict: Verdict, entry: Entry) | Dequeued

  datatype History = History(
    q: QueueState,
    offered: seq<Entry>,      // every packet that came in
    accepted: seq<Entry>,     // those that were stored
    delivered: seq<Entry>,    // those handed out again
    tailDropped: seq<Entry>,  // those dropped after having been stored
    refused: seq<Entry>,      // those freed on arrival
    leaked: seq<Entry>)       // those neither stored nor freed

  function Start(maxLen: int): History {
    History(QueueState(maxLen, 0, 0, 0, [], []), [], [], [], [], [], [])
  }

  function Tail(q: QueueState): seq<Entry> {
    if q.stored == [] then [] else [q.stored[EarliestMax(AdmnKey, q.stored)]]
  }

  function Step(h: History, ev: Event): History {
    match ev
    case Dequeued =>
      var n := Next(h.q);
      h.(q := Dequeue(h.q), delivered := h.delivered + if n.Some? then [n.value] else [])
    case Offered(v, e) =>
      var h' := h.(q := Offer(h.q, v, e), offered := h.offered + [e]);
      if v.Clear? then h'.(accepted := h.accepted + [e])
      else if v.action == CON_ACT_DROP_TAIL then
        h'.(accepted := h.accepted + [e], tailDropped := h.tailDropped + Tail(h.q))
      else if v.action == CON_ACT_DROP_PKT then h'.(refused := h.refused + [e])
      else h'.(leaked := h.leaked + [e])
  }

  function Run(h: History, evs: seq<Event>): History {
    if evs == [] then h else Step(Run(h, evs[..|evs| - 1]), evs[|evs| - 1])
  }

  // ----- conservation -----

  /** Every packet is in exactly one place, and the counters count what they name;
      `len` counts the stored packets together with all tail drops so far. */
  ghost predicate Accounted(h: History) {
    && multiset(h.offered) == multiset(h.accepted) + multiset(h.refused) + multiset(h.leaked)
    && multiset(h.accepted) == multiset(h.q.stored) + multiset(h.delivered) + multiset(h.tailDropped)
    && h.q.total == |h.accepted|
    && h.q.dropped == |h.tailDropped| + |h.refused| == |h.q.freed|
    && h.q.len == |h.q.stored| + |h.tailDropped|
  }

  lemma EnqueueAccounted(h: History, e: Entry)
    requires Accounted(h)
    ensures Accounted(h.(q := Enqueue(h.q, e), offered := h.offered + [e], accepted := h.accepted + [e]))
  {
  }

  lemma DropTailAccounted(h: History)
    requires Accounted(h)
    ensures Accounted(h.(q := DropTail(h.q), tailDropped := h.tailDropped + Tail(h.q)))
  {
    if h.q.stored != [] { RemoveAtMultiset(h.q.stored, EarliestMax(AdmnKey, h.q.stored)); }
  }

  lemma DequeueAccounted(h: History)
    requires Accounted(h)
    ensures Accounted(Step(h, Dequeued))
  {
    if h.q.stored != [] { RemoveAtMultiset(h.q.stored, EarliestMax(ProcKey, h.q.stored)); }
  }

  lemma OfferAccounted(h: History, v: Verdict, e: Entry)
    requires Accounted(h)
    ensures Accounted(Step(h, Offered(v, e)))
  {
    if v.Clear? {
      EnqueueAccounted(h, e);
    } else if v.action == CON_ACT_DROP_TAIL {
      DropTailAccounted(h);
      EnqueueAccounted(h.(q := DropTail(h.q), tailDropped := h.tailDropped + Tail(h.q)), e);
    } else if v.action == CON_ACT_DROP_PKT {
      RefuseAccounted(h, e);
    }
  }

  lemma RefuseAccounted(h: History, e: Entry)
    requires Accounted(h)
    ensures Accounted(Step(h, Offered(Congested(CON_ACT_DROP_PKT), e)))
  {
  }

  lemma StepAccounted(h: History, ev: Event)
    requires Accounted(h)
    ensures Accounted(Step(h, ev))
  {
    match ev
    case Dequeued => DequeueAccounted(h);
    case Offered(v, e) => OfferAccounted(h, v, e);
  }

  function Skbs(es: seq<Entry>): seq<Skb> {
    seq(|es|, i requires 0 <= i < |es| => es[i].skb)
  }

  /** What was given to `kfree_skb` are the dropped tails and the refused packets, each as often as it was one. */
  ghost predicate Disposed(h: History) {
    multiset(h.q.freed) == multiset(Skbs(h.tailDropped)) + multiset(Skbs(h.refused))
  }

  lemma SkbsMore(es: seq<Entry>, e: Entry)
    ensures Skbs(es + [e]) == Skbs(es) + [e.skb]
  {
  }

  lemma StepDisposed(h: History, ev: Event)
    requires Disposed(h)
    ensures Disposed(Step(h, ev))
  {
    if ev.Offered? && ev.verdict.Congested? {
      if ev.verdict.action == CON_ACT_DROP_TAIL {
        if h.q.stored == [] {
          assert h.tailDropped + Tail(h.q) == h.tailDropped;
        } else {
          SkbsMore(h.tailDropped, Tail(h.q)[0]);
        }
      } else if ev.verdict.action == CON_ACT_DROP_PKT {
        SkbsMore(h.refused, ev.entry);
      }
    }
  }

  lemma {:induction false} RunAccounted(maxLen: int, evs: seq<Event>)
    ensures Accounted(Run(Start(maxLen), evs)) && Disposed(Run(Start(maxLen), evs))
  {
    if evs != [] {
      RunAccounted(maxLen, evs[..|evs| - 1]);
      StepAccounted(Run(Start(maxLen), evs[..|evs| - 1]), evs[|evs| - 1]);
      StepDisposed(Run(Start(maxLen), evs[..|evs| - 1]), evs[|evs| - 1]);
    }
  }

  lemma SumOfSizes(a: seq<Entry>, b: seq<Entry>, c: seq<Entry>, d: seq<Entry>)
    requires multiset(a) == multiset(b) + multiset(c) + multiset(d)
    ensures |a| == |b| + |c| + |d|
  {
    assert |multiset(a)| == |multiset(b) + multiset(c)| + |multiset(d)|;
  }

  /** In every reachable state the counters are off by exactly the tail drops and
      the leaked packets, and so are right exactly when there were none. */
  lemma Conservation(maxLen: int, evs: seq<Event>)
    ensures var h := Run(Start(maxLen), evs);
            && |h.offered| == |h.q.stored| + |h.delivered| + h.q.dropped + |h.leaked|
            && h.q.total - |h.delivered| == h.q.len
            && (h.q.len == |h.q.stored| <==> h.tailDropped == [])
            && (|h.offered| == |h.q.stored| + |h.delivered| + h.q.dropped <==> h.leaked == [])
  {
    var h := Run(Start(maxLen), evs);
    RunAccounted(maxLen, evs);
    SumOfSizes(h.offered, h.accepted, h.refused, h.leaked);
    SumOfSizes(h.accepted, h.q.stored, h.delivered, h.tailDropped);
  }

  /** If no packet is offered twice, each offered packet has exactly one fate. */
  lemma ExactlyOneFate(maxLen: int, evs: seq<Event>, e: Entry)
    requires Distinct(Run(Start(maxLen), evs).offered)
    requires e in Run(Start(maxLen), evs).offered
    ensures var h := Run(Start(maxLen), evs);
            1 == multiset(h.q.stored)[e] + multiset(h.delivered)[e] + multiset(h.tailDropped)[e]
                 + multiset(h.refused)[e] + multiset(h.leaked)[e]
  {
    var h := Run(Start(maxLen), evs);
    RunAccounted(maxLen, evs);
    DistinctMultiplicity(h.offered, e);
  }

  lemma {:induction false} DistinctMultiplicity(s: seq<Entry>, e: Entry)
    requires Distinct(s)
    ensures multiset(s)[e] == if e in s then 1 else 0
  {
    if s != [] {
      DistinctMultiplicity(s[..|s| - 1], e);
      assert s == s[..|s| - 1] + [s[|s| - 1]];
    }
  }

  // ----- order -----

  /** Among the packets of processing key `p`, what has been delivered followed by what is
      still stored runs in arrival order, with nothing missing unless a tail was dropped. */
  ghost predicate InOrder(h: History, p: nat) {
    var out := OfKey(ProcKey, p, h.delivered) + OfKey(ProcKey, p, h.q.stored);
    && Subsequence(out, OfKey(ProcKey, p, h.accepted))
    && (h.tailDropped == [] ==> out == OfKey(ProcKey, p, h.accepted))
  }

  lemma {:induction false} EnqueueInOrder(h: History, e: Entry, p: nat)
    requires InOrder(h, p)
    ensures InOrder(h.(q := Enqueue(h.q, e), accepted := h.accepted + [e]), p)
  {
    var d, s, a := OfKey(ProcKey, p, h.delivered), OfKey(ProcKey, p, h.q.stored), OfKey(ProcKey, p, h.accepted);
    OfKeyAppend(ProcKey, p, h.q.stored, e);
    OfKeyAppend(ProcKey, p, h.accepted, e);
    if ProcKey(e) == p {
      SubsequenceAppendBoth(d + s, a, e);
      assert d + (s + [e]) == d + s + [e];
    } else {
      assert s + [] == s && a + [] == a;
    }
  }

  /** Leaving one element of the second part out keeps the whole a subsequence. */
  lemma SubsequenceRemoveSecond(d: seq<Entry>, s: seq<Entry>, all: seq<Entry>, r: nat)
    requires Subsequence(d + s, all) && r < |s|
    ensures Subsequence(d + RemoveAt(s, r), all)
  {
    SubsequenceRemoveAt(d + s, all, |d| + r);
    assert RemoveAt(d + s, |d| + r) == d + RemoveAt(s, r);
  }

  lemma {:induction false} DropTailInOrder(h: History, p: nat)
    requires InOrder(h, p)
    ensures InOrder(h.(q := DropTail(h.q), tailDropped := h.tailDropped + Tail(h.q)), p)
  {
    if h.q.stored != [] {
      var i := EarliestMax(AdmnKey, h.q.stored);
      if ProcKey(h.q.stored[i]) == p {
        OfKeyRemoveOwn(ProcKey, h.q.stored, i);
        SubsequenceRemoveSecond(OfKey(ProcKey, p, h.delivered), OfKey(ProcKey, p, h.q.stored),
                                OfKey(ProcKey, p, h.accepted), Rank(ProcKey, h.q.stored, i));
      } else {
        OfKeyRemoveOther(ProcKey, p, h.q.stored, i);
      }
    }
  }

  /** The packets of one key, before and after one of them moves from the front of the stored to the delivered ones. */
  lemma Moved(d: seq<Entry>, s: seq<Entry>, e: Entry)
    requires s != [] && s[0] == e
    ensures (d + [e]) + s[1..] == d + s
  {
  }

  lemma DequeuedCut(h: History, p: nat)
    requires h.q.stored != []
    ensures var h' := Step(h, Dequeued);
            OfKey(ProcKey, p, h'.delivered) + OfKey(ProcKey, p, h'.q.stored) ==
            OfKey(ProcKey, p, h.delivered) + OfKey(ProcKey, p, h.q.stored)
  {
    var i := EarliestMax(ProcKey, h.q.stored);
    var e := h.q.stored[i];
    OfKeyAppend(ProcKey, p, h.delivered, e);
    if ProcKey(e) == p {
      EarliestMaxHeads(ProcKey, h.q.stored);
      Moved(OfKey(ProcKey, p, h.delivered), OfKey(ProcKey, p, h.q.stored), e);
    } else {
      OfKeyRemoveOther(ProcKey, p, h.q.stored, i);
      assert OfKey(ProcKey, p, h.delivered) + [] == OfKey(ProcKey, p, h.delivered);
    }
  }

  lemma {:induction false} DequeueInOrder(h: History, p: nat)
    requires InOrder(h, p)
    ensures InOrder(Step(h, Dequeued), p)
  {
    if h.q.stored != [] {
      DequeuedCut(h, p);
    } else {
      assert h.delivered + [] == h.delivered;
    }
  }

  lemma StepInOrder(h: History, ev: Event, p: nat)
    requires InOrder(h, p)
    ensures InOrder(Step(h, ev), p)
  {
    match ev
    case Dequeued => DequeueInOrder(h, p);
    case Offered(v, e) =>
      if v.Clear? {
        EnqueueInOrder(h, e, p);
      } else if v.action == CON_ACT_DROP_TAIL {
        DropTailInOrder(h, p);
        EnqueueInOrder(h.(q := DropTail(h.q), tailDropped := h.tailDropped + Tail(h.q)), e, p);
      }
  }

  lemma {:induction false} RunInOrder(maxLen: int, evs: seq<Event>, p: nat)
    ensures InOrder(Run(Start(maxLen), evs), p)
  {
    if evs != [] {
      RunInOrder(maxLen, evs[..|evs| - 1], p);
      StepInOrder(Run(Start(maxLen), evs[..|evs| - 1]), evs[|evs| - 1], p);
    }
  }

  lemma {:induction false} AcceptedInOrder(maxLen: int, evs: seq<Event>)
    ensures Subsequence(Run(Start(maxLen), evs).accepted, Run(Start(maxLen), evs).offered)
  {
    if evs != [] {
      AcceptedInOrder(maxLen, evs[..|evs| - 1]);
      var h, ev := Run(Start(maxLen), evs[..|evs| - 1]), evs[|evs| - 1];
      if ev.Offered? {
        SubsequenceAppendBoth(h.accepted, h.offered, ev.entry);
        SubsequenceAppendRight(h.accepted, h.offered, ev.entry);
      }
    }
  }

  /** Two delivered packets with equal processing keys were offered in that order. */
  lemma FifoWithinKey(maxLen: int, evs: seq<Event>, i: nat, j: nat) returns (a: nat, b: nat)
    requires i < j < |Run(Start(maxLen), evs).delivered|
    requires Run(Start(maxLen), evs).delivered[i].proc == Run(Start(maxLen), evs).delivered[j].proc
    ensures var h := Run(Start(maxLen), evs);
            a < b < |h.offered| && h.offered[a] == h.delivered[i] && h.offered[b] == h.delivered[j]
  {
    var h := Run(Start(maxLen), evs);
    var p := ProcKey(h.delivered[i]);
    RunInOrder(maxLen, evs, p);
    AcceptedInOrder(maxLen, evs);
    RankMonotone(ProcKey, h.delivered, i, j);
    OfKeyRemoveOwn(ProcKey, h.delivered, i);
    OfKeyRemoveOwn(ProcKey, h.delivered, j);
    var ri, rj := Rank(ProcKey, h.delivered, i), Rank(ProcKey, h.delivered, j);
    var out := OfKey(ProcKey, p, h.delivered) + OfKey(ProcKey, p, h.q.stored);
    var at := SubsequencePositions(out, OfKey(ProcKey, p, h.accepted));
    assert out[ri] == h.delivered[i] && out[rj] == h.delivered[j];
    var ai := OfKeyOrigin(ProcKey, p, h.accepted, at[ri]);
    var aj := OfKeyOrigin(ProcKey, p, h.accepted, at[rj]);
    if aj < ai { RankMonotone(ProcKey, h.accepted, aj, ai); }
    var where := SubsequencePositions(h.accepted, h.offered);
    a, b := where[ai], where[aj];
  }

  // ----- how much is stored -----

  /** The run never finds the queue clear of congestion once `len` has reached `k`. */
  predicate CongestedFrom(k: int, h: History, evs: seq<Event>) {
    if evs == [] then true
    else
      var ev := evs[|evs| - 1];
      && CongestedFrom(k, h, evs[..|evs| - 1])
      && (ev.Offered? && ev.verdict.Clear? ==> Run(h, evs[..|evs| - 1]).q.len < k)
  }

  /** Whatever the congestion action: a policy congested from `len >= k` on stores at most `k`. */
  lemma {:induction false} Capacity(maxLen: int, k: int, evs: seq<Event>)
    requires k >= 1 && CongestedFrom(k, Start(maxLen), evs)
    ensures |Run(Start(maxLen), evs).q.stored| <= k
  {
    if evs != [] {
      Capacity(maxLen, k, evs[..|evs| - 1]);
      RunAccounted(maxLen, evs[..|evs| - 1]);
    }
  }

  /** Congested exactly at `len == k`, with `action` as the answer. The example routines use 256 and drop the tail. */
  predicate CongestedAt(k: int, action: int, h: History, evs: seq<Event>) {
    if evs == [] then true
    else
      var ev := evs[|evs| - 1];
      && CongestedAt(k, action, h, evs[..|evs| - 1])
      && (ev.Offered? ==> ev.verdict == if Run(h, evs[..|evs| - 1]).q.len == k then Congested(action) else Clear)
  }

  /** These packets were offered, and all of them are stored, but for one that was dropped when `len` was `k`. */
  predicate AlmostAllStored(k: nat, es: seq<Entry>, h: History) {
    h.offered == es && h.q.len == |es| && |h.q.stored| == if |es| <= k || k == 0 then |es| else |es| - 1
  }

  /** With the tail drop that test bounds nothing: `len` is left up, and so jumps past `k`. */
  lemma {:induction false} EqualityTestUnbounded(maxLen: int, k: nat, es: seq<Entry>) returns (evs: seq<Event>)
    ensures CongestedAt(k, CON_ACT_DROP_TAIL, Start(maxLen), evs)
    ensures AlmostAllStored(k, es, Run(Start(maxLen), evs))
    decreases |es|
  {
    if es == [] {
      evs := [];
    } else {
      var n := |es| - 1;
      var front := EqualityTestUnbounded(maxLen, k, es[..n]);
      evs := front + [Offered(if n == k then Congested(CON_ACT_DROP_TAIL) else Clear, es[n])];
      assert evs[..|evs| - 1] == front;
      assert es[..n] + [es[n]] == es;
    }
  }

  /** With any other action `len` never passes `k`. */
  lemma {:induction false} EqualityTestBounds(maxLen: int, k: nat, action: int, evs: seq<Event>)
    requires action != CON_ACT_DROP_TAIL && CongestedAt(k, action, Start(maxLen), evs)
    ensures |Run(Start(maxLen), evs).q.stored| <= Run(Start(maxLen), evs).q.len <= k
  {
    if evs != [] {
      EqualityTestBounds(maxLen, k, action, evs[..|evs| - 1]);
    }
  }

  /** So a queue that is congested exactly at `len == k` stores at most `k` packets in every run if and only if the
      answer is not to drop the tail. */
  lemma EqualityTestBoundsIff(maxLen: int, k: nat, action: int)
    ensures (forall evs | CongestedAt(k, action, Start(maxLen), evs) :: |Run(Start(maxLen), evs).q.stored| <= k) <==>
            action != CON_ACT_DROP_TAIL
  {
    if action == CON_ACT_DROP_TAIL {
      var evs := EqualityTestUnbounded(maxLen, k, seq(k + 2, _ => Entry(0, 0, 0)));
      assert |Run(Start(maxLen), evs).q.stored| > k;
    } else {
      forall evs | CongestedAt(k, action, Start(maxLen), evs) ensures |Run(Start(maxLen), evs).q.stored| <= k {
        EqualityTestBounds(maxLen, k, action, evs);
      }
    }
  }

  lemma {:induction false} RunConcat(h: History, evs: seq<Event>, more: seq<Event>)
    ensures Run(h, evs + more) == Run(Run(h, evs), more)
    decreases |more|
  {
    if more == [] {
      assert evs + more == evs;
    } else {
      assert (evs + more)[..|evs + more| - 1] == evs + more[..|more| - 1];
      RunConcat(h, evs, more[..|more| - 1]);
    }
  }

  lemma {:induction false} TailDropsGrow(h: History, evs: seq<Event>)
    ensures |h.tailDropped| <= |Run(h, evs).tailDropped|
  {
    if evs != [] { TailDropsGrow(h, evs[..|evs| - 1]); }
  }

  /** Tail drops are never given back: after `k` of them `len` stays at `k` or more for
      good, and a policy congested from `k` on that drops the packet stores nothing again. */
  lemma {:induction false} CongestedForGood(maxLen: int, k: int, evs: seq<Event>, more: seq<Event>)
    requires |Run(Start(maxLen), evs).tailDropped| >= k
    requires CongestedFrom(k, Run(Start(maxLen), evs), more)
    requires forall ev :: ev in more && ev.Offered? && ev.verdict.Congested? ==>
               ev.verdict.action == CON_ACT_DROP_PKT
    ensures Run(Start(maxLen), evs + more).q.len >= k
    ensures Run(Start(maxLen), evs + more).accepted == Run(Start(maxLen), evs).accepted
    decreases |more|
  {
    var h := Run(Start(maxLen), evs);
    RunConcat(Start(maxLen), evs, more);
    RunAccounted(maxLen, evs + more);
    TailDropsGrow(h, more);
    if more != [] {
      var front := more[..|more| - 1];
      CongestedForGood(maxLen, k, evs, front);
      RunConcat(Start(maxLen), evs, front);
      assert more[|more| - 1] in more;
    }
  }

  /** Congested from `len >= k` on, and then the packet is dropped. */
  predicate RefusesFrom(k: int, h: History, evs: seq<Event>) {
    if evs == [] then true
    else
      var ev := evs[|evs| - 1];
      && RefusesFrom(k, h, evs[..|evs| - 1])
      && (ev.Offered? ==>
            ev.verdict == if Run(h, evs[..|evs| - 1]).q.len >= k then Congested(CON_ACT_DROP_PKT) else Clear)
  }

  lemma {:induction false} RefusesIsCongested(k: int, h: History, evs: seq<Event>)
    requires RefusesFrom(k, h, evs)
    ensures CongestedFrom(k, h, evs)
    ensures forall ev :: ev in evs && ev.Offered? && ev.verdict.Congested? ==> ev.verdict.action == CON_ACT_DROP_PKT
  {
    if evs != [] {
      var front, last := evs[..|evs| - 1], evs[|evs| - 1];
      RefusesIsCongested(k, h, front);
      assert forall ev :: ev in evs ==> ev in front || ev == last;
    }
  }

  /** Emptied, a queue has as much `len` as it has lost tails, and takes a packet if that is below `k`. */
  lemma Reopened(maxLen: int, k: int, evs: seq<Event>) returns (more: seq<Event>)
    requires |Run(Start(maxLen), evs).tailDropped| < k
    ensures RefusesFrom(k, Run(Start(maxLen), evs), more)
    ensures Run(Run(Start(maxLen), evs), more).accepted != Run(Start(maxLen), evs).accepted
  {
    var h := Run(Start(maxLen), evs);
    var n := |h.q.stored|;
    var e := Entry(0, 0, 0);
    more := Dequeues(n) + [Offered(Clear, e)];
    assert more[..n] == Dequeues(n);
    DrainRun(h, n);
    OnlyDequeues(k, h, n);
    RunConcat(Start(maxLen), evs, Dequeues(n));
    RunAccounted(maxLen, evs + Dequeues(n));
    assert |Run(h, more).accepted| == |h.accepted| + 1;
  }

  lemma {:induction false} OnlyDequeues(k: int, h: History, n: nat)
    ensures RefusesFrom(k, h, Dequeues(n))
    ensures Run(h, Dequeues(n)).tailDropped == h.tailDropped && Run(h, Dequeues(n)).accepted == h.accepted
  {
    if n > 0 {
      assert Dequeues(n)[..n - 1] == Dequeues(n - 1);
      OnlyDequeues(k, h, n - 1);
    }
  }

  /** A queue whose policy refuses from `len >= k` on can accept a packet again, some time, if and only if it has lost
      fewer than `k` tails. */
  lemma ReopensIff(maxLen: int, k: int, evs: seq<Event>)
    ensures (exists more :: RefusesFrom(k, Run(Start(maxLen), evs), more) &&
                            Run(Run(Start(maxLen), evs), more).accepted != Run(Start(maxLen), evs).accepted) <==>
            |Run(Start(maxLen), evs).tailDropped| < k
  {
    var h := Run(Start(maxLen), evs);
    if |h.tailDropped| < k {
      var more := Reopened(maxLen, k, evs);
    } else {
      forall more | RefusesFrom(k, h, more) ensures Run(h, more).accepted == h.accepted {
        RefusesIsCongested(k, h, more);
        CongestedForGood(maxLen, k, evs, more);
        RunConcat(Start(maxLen), evs, more);
      }
    }
  }

  // ----- draining -----

  /** What repeated dequeues hand out. */
  function Drained(q: QueueState): seq<Entry>
    decreases |q.stored|
  {
    if q.stored == [] then [] else [Next(q).value] + Drained(Dequeue(q))
  }

  predicate Descending(s: seq<Entry>) {
    forall i, j :: 0 <= i < j < |s| ==> s[i].proc >= s[j].proc
  }

  /** The packets of one key: those of the next packet, and those of what is left. */
  lemma NextCut(q: QueueState, p: nat)
    requires q.stored != []
    ensures OfKey(ProcKey, p, q.stored) == OfKey(ProcKey, p, [Next(q).value]) + OfKey(ProcKey, p, Dequeue(q).stored)
  {
    var i := EarliestMax(ProcKey, q.stored);
    var cut := OfKey(ProcKey, p, q.stored);
    OfKeySingle(ProcKey, p, q.stored[i]);
    if ProcKey(q.stored[i]) == p {
      EarliestMaxHeads(ProcKey, q.stored);
      assert cut == [cut[0]] + cut[1..];
    } else {
      OfKeyRemoveOther(ProcKey, p, q.stored, i);
    }
  }

  lemma {:induction false} DrainedKeepsKeys(q: QueueState, p: nat)
    ensures OfKey(ProcKey, p, Drained(q)) == OfKey(ProcKey, p, q.stored)
    decreases |q.stored|
  {
    if q.stored != [] {
      DrainedKeepsKeys(Dequeue(q), p);
      OfKeyConcat(ProcKey, p, [Next(q).value], Drained(Dequeue(q)));
      NextCut(q, p);
    }
  }

  lemma {:induction false} DrainedDescends(q: QueueState)
    ensures Descending(Drained(q))
    ensures forall k :: 0 <= k < |Drained(q)| ==> Drained(q)[k] in q.stored
    decreases |q.stored|
  {
    if q.stored != [] {
      DrainedDescends(Dequeue(q));
      var i := EarliestMax(ProcKey, q.stored);
      var rest := Drained(Dequeue(q));
      forall k | 0 <= k < |rest|
        ensures rest[k] in q.stored && rest[k].proc <= q.stored[i].proc
      {
        assert rest[k] in RemoveAt(q.stored, i);
        var j :| 0 <= j < |q.stored| && q.stored[j] == rest[k];
        assert ProcKey(q.stored[j]) <= ProcKey(q.stored[i]);
      }
    }
  }

  ghost predicate SameCuts(s: seq<Entry>, t: seq<Entry>) {
    forall p: nat :: OfKey(ProcKey, p, s) == OfKey(ProcKey, p, t)
  }

  lemma {:induction false} SameCutsNonempty(s: seq<Entry>, t: seq<Entry>)
    requires s != [] && SameCuts(s, t)
    ensures OfKey(ProcKey, ProcKey(s[|s| - 1]), t) != [] && t != []
  {
    OfKeyRemoveOwn(ProcKey, s, |s| - 1);
    assert OfKey(ProcKey, ProcKey(s[|s| - 1]), t) == OfKey(ProcKey, ProcKey(s[|s| - 1]), s);
  }

  lemma {:induction false} CutFront(s: seq<Entry>, t: seq<Entry>, x: Entry, y: Entry, p: nat)
    requires OfKey(ProcKey, p, s + [x]) == OfKey(ProcKey, p, t + [y]) && ProcKey(x) == ProcKey(y)
    ensures OfKey(ProcKey, p, s) == OfKey(ProcKey, p, t)
    ensures p == ProcKey(x) ==> x == y
  {
    OfKeyAppend(ProcKey, p, s, x);
    OfKeyAppend(ProcKey, p, t, y);
    AppendInjective(OfKey(ProcKey, p, s), OfKey(ProcKey, p, t), x, y);
  }

  lemma {:induction false} SameCutsFront(s: seq<Entry>, t: seq<Entry>, x: Entry, y: Entry)
    requires SameCuts(s + [x], t + [y]) && ProcKey(x) == ProcKey(y)
    ensures x == y && SameCuts(s, t)
  {
    CutFront(s, t, x, y, ProcKey(x));
    forall p: nat ensures OfKey(ProcKey, p, s) == OfKey(ProcKey, p, t) {
      CutFront(s, t, x, y, p);
    }
  }

  lemma AppendInjective(a: seq<Entry>, b: seq<Entry>, x: Entry, y: Entry)
    ensures a + [x] == b + [y] ==> a == b && x == y
  {
    if a + [x] == b + [y] {
      assert (a + [x])[..|a|] == (b + [y])[..|b|];
      assert (a + [x])[|a|] == (b + [y])[|b|];
    }
  }

  /** A descending sequence is fixed by its cuts, so there is only one stable sort. */
  lemma {:induction false} StableSortUnique(s: seq<Entry>, t: seq<Entry>)
    requires Descending(s) && Descending(t) && SameCuts(s, t)
    ensures s == t
    decreases |s|
  {
    if s == [] {
      if t != [] { SameCutsNonempty(t, s); }
    } else {
      SameCutsNonempty(s, t);
      SameCutsNonempty(t, s);
      var x, y := s[|s| - 1], t[|t| - 1];
      LastIsLeast(s, ProcKey(y));
      LastIsLeast(t, ProcKey(x));
      assert s == s[..|s| - 1] + [x] && t == t[..|t| - 1] + [y];
      SameCutsFront(s[..|s| - 1], t[..|t| - 1], x, y);
      StableSortUnique(s[..|s| - 1], t[..|t| - 1]);
    }
  }

  lemma LastIsLeast(s: seq<Entry>, p: nat)
    requires Descending(s) && s != [] && OfKey(ProcKey, p, s) != []
    ensures s[|s| - 1].proc <= p
  {
    var i := OfKeyOrigin(ProcKey, p, s, 0);
  }

  function Dequeues(n: nat): (evs: seq<Event>)
    ensures |evs| == n
  {
    if n == 0 then [] else Dequeues(n - 1) + [Dequeued]
  }

  lemma {:induction false} DrainStep(h: History)
    requires h.q.stored != []
    ensures var h' := Step(h, Dequeued);
            |h'.q.stored| == |h.q.stored| - 1 && h'.delivered + Drained(h'.q) == h.delivered + Drained(h.q)
  {
    var e, rest := Next(h.q).value, Drained(Dequeue(h.q));
    assert h.delivered + [e] + rest == h.delivered + ([e] + rest);
  }

  lemma {:induction false} DrainRun(h: History, n: nat)
    requires n <= |h.q.stored|
    ensures var h' := Run(h, Dequeues(n));
            && |h'.q.stored| == |h.q.stored| - n
            && h'.delivered + Drained(h'.q) == h.delivered + Drained(h.q)
  {
    if n > 0 {
      DrainRun(h, n - 1);
      assert Dequeues(n)[..n - 1] == Dequeues(n - 1);
      DrainStep(Run(h, Dequeues(n - 1)));
    }
  }

  /** Draining a queue delivers exactly its packets, as the stable sort of the arrival
      list by descending processing key, and leaves it empty. */
  lemma DrainIsStableSort(h: History)
    ensures var h' := Run(h, Dequeues(|h.q.stored|));
            && h'.q.stored == []
            && h'.delivered == h.delivered + Drained(h.q)
            && Descending(Drained(h.q))
            && SameCuts(Drained(h.q), h.q.stored)
    ensures forall t :: Descending(t) && SameCuts(t, h.q.stored) ==> t == Drained(h.q)
  {
    DrainRun(h, |h.q.stored|);
    DrainedDescends(h.q);
    forall p: nat ensures OfKey(ProcKey, p, Drained(h.q)) == OfKey(ProcKey, p, h.q.stored) {
      DrainedKeepsKeys(h.q, p);
    }
    forall t | Descending(t) && SameCuts(t, h.q.stored) ensures t == Drained(h.q) {
      assert SameCuts(t, Drained(h.q));
      StableSortUnique(t, Drained(h.q));
    }
  }

  // ----- several queues -----

  datatype PortEvent = PortEvent(queue: nat, event: Event)

  function PortStep(hs: seq<History>, ev: PortEvent): seq<History> {
    if ev.queue < |hs| then hs[ev.queue := Step(hs[ev.queue], ev.event)] else hs
  }

  function PortRun(hs: seq<History>, evs: seq<PortEvent>): seq<History> {
    if evs == [] then hs else PortStep(PortRun(hs, evs[..|evs| - 1]), evs[|evs| - 1])
  }

  function EventsOf(evs: seq<PortEvent>, q: nat): seq<Event> {
    if evs == [] then []
    else EventsOf(evs[..|evs| - 1], q) + if evs[|evs| - 1].queue == q then [evs[|evs| - 1].event] else []
  }

  /** Queues do not disturb each other: each lives through its own events only, so every
      statement about runs of one queue holds of each queue of a port. */
  lemma {:induction false} QueuesIndependent(hs: seq<History>, evs: seq<PortEvent>, q: nat)
    requires q < |hs|
    ensures |PortRun(hs, evs)| == |hs| && PortRun(hs, evs)[q] == Run(hs[q], EventsOf(evs, q))
  {
    if evs != [] {
      var front, own := evs[..|evs| - 1], EventsOf(evs, q);
      QueuesIndependent(hs, front, q);
      if evs[|evs| - 1].queue == q {
        assert own[..|own| - 1] == EventsOf(front, q);
      } else {
        assert own == EventsOf(front, q);
      }
    }
  }

  // ----- what is freed -----

  /** Packets are told apart by their addresses, so an address is among theirs as often as its packet is among them. */
  lemma {:induction false} SkbCount(s: seq<Entry>, e: Entry)
    requires forall x <- s :: x.skb == e.skb ==> x == e
    ensures multiset(Skbs(s))[e.skb] == multiset(s)[e]
  {
    if s != [] {
      var front, x := s[..|s| - 1], s[|s| - 1];
      assert s == front + [x];
      SkbCount(front, e);
      SkbsMore(front, x);
    }
  }

  lemma DropsWereOffered(h: History, x: Entry)
    requires Accounted(h) && (x in h.tailDropped || x in h.refused)
    ensures x in h.offered
  {
    assert x in multiset(h.tailDropped) || x in multiset(h.refused);
    assert x in multiset(h.offered);
  }

  lemma DropCounts(h: History, e: Entry)
    requires Accounted(h) && Disposed(h) && DistinctSkbs(h.offered) && e in h.offered
    ensures multiset(h.q.freed)[e.skb] == multiset(h.tailDropped)[e] + multiset(h.refused)[e]
  {
    forall x | x in h.tailDropped || x in h.refused ensures x.skb == e.skb ==> x == e {
      DropsWereOffered(h, x);
    }
    SkbCount(h.tailDropped, e);
    SkbCount(h.refused, e);
  }

  /** If no address is offered twice, a packet is freed at most once, and only if it is neither stored nor delivered. */
  lemma FreedOnce(maxLen: int, evs: seq<Event>, e: Entry)
    requires DistinctSkbs(Run(Start(maxLen), evs).offered)
    requires e in Run(Start(maxLen), evs).offered
    ensures var h := Run(Start(maxLen), evs);
            1 == multiset(h.q.stored)[e] + multiset(h.delivered)[e] + multiset(h.q.freed)[e.skb] + multiset(h.leaked)[e]
  {
    RunAccounted(maxLen, evs);
    DropCounts(Run(Start(maxLen), evs), e);
    ExactlyOneFate(maxLen, evs, e);
  }
}
