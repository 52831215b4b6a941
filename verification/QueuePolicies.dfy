/** The policy functions of a port, and the runs of a queue that they lead to. */
module QueuePolicies {
  import opened ArrivalList
  import opened QueueRuns

  /** What a policy function can see of a queue. */
  datatype QueueView = QueueView(name: string, maxLen: int, len: int, dropped: int, total: int)

  /** The policy functions the port was set up with. Each is some function of the counters and of the packet's
      address, so a packet that is offered again while the counters are the same is treated the same. */
  datatype Policy = Policy(
    qSelect: (seq<QueueView>, Skb) -> nat,
    sched: seq<QueueView> -> nat,
    congested: QueueView -> bool,
    action: (QueueView, Skb) -> int,
    admn: (QueueView, Skb) -> nat,
    proc: (QueueView, Skb) -> nat)

  function ViewIn(name: string, st: QueueState): QueueView {
    QueueView(name, st.maxLen, st.len, st.dropped, st.total)
  }

  /** What the policy decides about a packet offered to a queue. */
  function Judged(policy: Policy, v: QueueView, skb: Skb): Verdict {
    if policy.congested(v) then Congested(policy.action(v, skb)) else Clear
  }

  /** The packet with the keys the policy gives it. */
  function Keyed(policy: Policy, v: QueueView, skb: Skb): Entry {
    Entry(skb, policy.admn(v, skb), policy.proc(v, skb))
  }

  /** The offer of a packet to a queue: the verdict, and the keys the packet gets, after the tail drop if there is
      one. */
  function OfferTo(policy: Policy, name: string, st: QueueState, skb: Skb): Event {
    var v := Judged(policy, ViewIn(name, st), skb);
    Offered(v, Keyed(policy, ViewIn(name, AfterDrop(v, st)), skb))
  }

  /** The queue as it is when the keys of an offered packet are computed. */
  function AfterDrop(v: Verdict, st: QueueState): QueueState {
    if v == Congested(CON_ACT_DROP_TAIL) then DropTail(st) else st
  }

  /** Every offer of the run was decided by the policy. */
  predicate DecidedBy(policy: Policy, name: string, h: History, evs: seq<Event>) {
    if evs == [] then true
    else
      var front, ev := evs[..|evs| - 1], evs[|evs| - 1];
      && DecidedBy(policy, name, h, front)
      && (ev.Offered? ==> ev == OfferTo(policy, name, Run(h, front).q, ev.entry.skb))
  }

  lemma OneMore(policy: Policy, name: string, h: History, evs: seq<Event>, ev: Event)
    requires DecidedBy(policy, name, h, evs)
    requires ev.Offered? ==> ev == OfferTo(policy, name, Run(h, evs).q, ev.entry.skb)
    ensures Run(h, evs + [ev]) == Step(Run(h, evs), ev) && DecidedBy(policy, name, h, evs + [ev])
  {
    assert (evs + [ev])[..|evs|] == evs;
  }

  /** Congested from `len >= k` on. */
  ghost predicate Threshold(policy: Policy, k: int) {
    forall v :: policy.congested(v) <==> v.len >= k
  }

  lemma {:induction false} ThresholdRun(policy: Policy, k: int, name: string, h: History, evs: seq<Event>)
    requires Threshold(policy, k) && DecidedBy(policy, name, h, evs)
    ensures CongestedFrom(k, h, evs)
  {
    if evs != [] {
      ThresholdRun(policy, k, name, h, evs[..|evs| - 1]);
    }
  }
}
