/** `ip route flush`: the delete requests are gathered in one buffer and sent in batches. */
module RouteFlush {
  import opened Bytes
  import opened Netlink

  const NEWROUTE := 24
  const DELROUTE := 25
  const REQUEST := 1

  /** The length of a message with a route header and nothing else. */
  const ROUTE := 28

  /** `flushe` */
  const SIZE := 3584

  const SEQUENCE := 0x1_0000_0000

  function Successor(s: nat): nat {
    (s + 1) % SEQUENCE
  }

  /** The number of the `k`-th request after `s`. */
  function Numbered(s: nat, k: nat): (r: nat)
    ensures r < SEQUENCE
  {
    (s + k) % SEQUENCE
  }

  lemma NumberedNext(s: nat, k: nat)
    ensures Successor(Numbered(s, k)) == Numbered(s, k + 1)
  {
  }

  /** The delete request made from a reported route. */
  function Request(n: Message, s: nat): Message
    requires |n| >= HEADER && s < SEQUENCE
  {
    n[..4] + (Put16(DELROUTE) + Put16(REQUEST) + Put32(s)) + n[12..]
  }

  /** It has the length and the payload of the report, and its own type, flags and sequence number. */
  lemma RequestFields(n: Message, s: nat)
    requires IsMessage(n) && s < SEQUENCE
    ensures IsMessage(Request(n, s)) && |Request(n, s)| == |n| && Request(n, s)[12..] == n[12..]
    ensures TypeOf(Request(n, s)) == DELROUTE && U16(Request(n, s)[6..8]) == REQUEST && U32(Request(n, s)[8..12]) == s
  {
    var r := Request(n, s);
    assert r[0..4] == n[0..4];
    assert r[4..6] == Put16(DELROUTE);
    assert r[6..8] == Put16(REQUEST);
    assert r[8..12] == Put32(s);
  }

  /** A message of the dump, with the verdict of the route filter on it. */
  datatype Report = Report(message: Message, selected: bool)

  predicate Malformed(n: Message)
    requires |n| >= HEADER
  {
    TypeOf(n) == NEWROUTE && |n| < ROUTE
  }

  predicate Chosen(r: Report)
    requires |r.message| >= HEADER
  {
    TypeOf(r.message) == NEWROUTE && |r.message| >= ROUTE && r.selected
  }

  /** A request for it does not fit the empty buffer. */
  predicate TooLong(r: Report)
    requires |r.message| >= HEADER
  {
    Chosen(r) && |r.message| > SIZE
  }

  predicate Dump(reports: seq<Report>) {
    forall r <- reports :: IsMessage(r.message)
  }

  /** The requests for a whole dump: one for each chosen report, in order, numbered from `s` on. */
  function Requests(reports: seq<Report>, s: nat): seq<Message>
    requires Dump(reports)
  {
    if reports == [] then
      []
    else
      var before := Requests(reports[..|reports| - 1], s);
      var last := reports[|reports| - 1];
      if Chosen(last) then before + [Request(last.message, Numbered(s, |before| + 1))] else before
  }

  lemma RequestsStep(reports: seq<Report>, i: nat, s: nat)
    requires Dump(reports) && i < |reports|
    ensures Requests(reports[..i + 1], s) ==
            var before := Requests(reports[..i], s);
            if Chosen(reports[i]) then before + [Request(reports[i].message, Numbered(s, |before| + 1))] else before
  {
    assert reports[..i + 1][..i] == reports[..i];
  }

  lemma {:induction false} RequestsGrow(reports: seq<Report>, i: nat, s: nat)
    requires Dump(reports) && i <= |reports|
    ensures Requests(reports[..i], s) <= Requests(reports, s)
  {
    if i == |reports| {
      assert reports[..i] == reports;
    } else {
      var shorter := reports[..|reports| - 1];
      RequestsGrow(shorter, i, s);
      assert shorter[..i] == reports[..i];
    }
  }

  /** The report is one of a route that is to go: type 24, long enough for a route header, and selected. */
  predicate ToGo(r: Report)
    requires IsMessage(r.message)
  {
    TypeOf(r.message) == 24 && |r.message| >= 28 && r.selected
  }

  /** The request deletes the route of the report: the same length and payload, with type 25, flag 1 and a number. */
  predicate Removes(d: Message, n: Message, number: nat) {
    && |d| == |n| >= 16 && d[..4] == n[..4] && d[12..] == n[12..]
    && TypeOf(d) == 25 && U16(d[6..8]) == 1 && U32(d[8..12]) == number
  }

  lemma RequestRemoves(n: Message, s: nat)
    requires IsMessage(n) && s < SEQUENCE
    ensures Removes(Request(n, s), n, s)
  {
    RequestFields(n, s);
  }

  predicate Serves(r: Report, d: Message, number: nat) {
    IsMessage(r.message) && ToGo(r) && Removes(d, r.message, number)
  }

  /** The requests are for the reports at these places, in order, and are numbered one after the other. */
  predicate ServeAll(reports: seq<Report>, requests: seq<Message>, s: nat, at: seq<nat>) {
    && |at| == |requests|
    && (forall k {:trigger at[k]} | 0 <= k < |at| ::
          at[k] < |reports| && Serves(reports[at[k]], requests[k], (s + k + 1) % 0x1_0000_0000))
    && (forall j, k | 0 <= j < k < |at| :: at[j] < at[k])
  }

  lemma ServeMore(reports: seq<Report>, requests: seq<Message>, s: nat, at: seq<nat>, r: Report, d: Message)
    requires ServeAll(reports, requests, s, at)
    ensures ServeAll(reports + [r], requests, s, at)
    ensures Serves(r, d, (s + |at| + 1) % 0x1_0000_0000) ==>
              ServeAll(reports + [r], requests + [d], s, at + [|reports|])
  {
    var at' := at + [|reports|];
    assert forall k | 0 <= k < |at| :: at'[k] == at[k];
  }

  /** The requests of a dump are for the routes that are to go, and for all of them. */
  lemma {:induction false} RequestsExactly(reports: seq<Report>, s: nat) returns (at: seq<nat>)
    requires Dump(reports)
    ensures ServeAll(reports, Requests(reports, s), s, at)
    ensures forall i: nat | i < |reports| && IsMessage(reports[i].message) && ToGo(reports[i]) :: i in at
  {
    at := [];
    if reports != [] {
      var n := |reports| - 1;
      var front, last := reports[..n], reports[n];
      assert reports == front + [last] && last in reports;
      at := RequestsExactly(front, s);
      var number := Numbered(s, |at| + 1);
      ServeMore(front, Requests(front, s), s, at, last, Request(last.message, number));
      RequestRemoves(last.message, number);
      if Chosen(last) {
        at := at + [n];
      }
    }
  }

  /** The messages the kernel has read from the batches. */
  function Delivered(batches: seq<seq<Byte>>): seq<Message> {
    if batches == [] then [] else Delivered(batches[..|batches| - 1]) + Parse(batches[|batches| - 1])
  }

  /** A batch fits the buffer and splits no message. */
  predicate Batch(b: seq<Byte>) {
    |b| <= SIZE && Whole(b)
  }

  predicate Batches(s: seq<seq<Byte>>) {
    forall b <- s :: Batch(b)
  }

  lemma DeliveredMore(batches: seq<seq<Byte>>, b: seq<Byte>)
    ensures Delivered(batches + [b]) == Delivered(batches) + Parse(b)
  {
    assert (batches + [b])[..|batches|] == batches;
  }

  lemma Planned<T>(d: seq<T>, d0: seq<T>, made: seq<T>, all: seq<T>)
    requires d <= d0 + made && made <= all
    ensures d <= d0 + all
  {
    assert d0 + made <= d0 + all;
  }

  lemma OneMore<T>(log: seq<T>, d0: seq<T>, made: seq<T>, x: T)
    requires log == d0 + made
    ensures log + [x] == d0 + (made + [x])
  {
  }

  /** The log, the number of requests and the last number after one more report. */
  lemma Proceeded(reports: seq<Report>, i: nat, d0: seq<Message>, s0: nat, log: seq<Message>, log': seq<Message>,
                  s: nat)
    requires Dump(reports) && i < |reports| && log == d0 + Requests(reports[..i], s0)
    requires if Chosen(reports[i]) then
               && s == Numbered(s0, |Requests(reports[..i], s0)| + 1)
               && log' == log + [Request(reports[i].message, s)]
             else log' == log
    ensures log' == d0 + Requests(reports[..i + 1], s0)
    ensures |Requests(reports[..i + 1], s0)| == |Requests(reports[..i], s0)| + if Chosen(reports[i]) then 1 else 0
  {
    RequestsStep(reports, i, s0);
    if Chosen(reports[i]) {
      OneMore(log, d0, Requests(reports[..i], s0), Request(reports[i].message, s));
    }
  }

  /** A buffer whose bytes from `off` on are replaced. */
  function Splice(b: seq<Byte>, off: nat, m: seq<Byte>): (r: seq<Byte>)
    requires off + |m| <= |b|
    ensures |r| == |b|
  {
    b[..off] + m + b[off + |m|..]
  }

  /** A copied report, patched in place, is the request. */
  lemma Patched(b: seq<Byte>, off: nat, n: Message, s: nat)
    requires |n| >= HEADER && off + |n| <= |b| && s < SEQUENCE
    ensures Splice(Splice(b, off, n), off + 4, Put16(DELROUTE) + Put16(REQUEST) + Put32(s)) ==
            Splice(b, off, Request(n, s))
  {
  }

  lemma SpliceSeen(b: seq<Byte>, off: nat, m: seq<Byte>, used: nat)
    requires used <= off && off + |m| <= |b|
    ensures Splice(b, off, m)[..off + |m|] == b[..used] + (b[used..off] + m)
  {
  }

  /** The buffer after an append holds one message more. */
  lemma Appended(b: seq<Byte>, used: nat, n: Message, s: nat, after: seq<Byte>)
    requires IsMessage(n) && s < SEQUENCE && Align(used) + |n| <= |b| && Whole(b[..used])
    requires after == Splice(b, Align(used), Request(n, s))[..Align(used) + |n|]
    ensures Whole(after) && Parse(after) == Parse(b[..used]) + [Request(n, s)]
  {
    RequestFields(n, s);
    SpliceSeen(b, Align(used), Request(n, s), used);
    ParseAppend(b[..used], b[used..Align(used)], Request(n, s));
  }

  /** What a call comes to: all is well, a send or a message is bad, or it writes past the end of the buffer. */
  datatype Result = Ok | Failed | Overrun

  datatype Outcome = Nothing | Flushed | Aborted(result: Result)

  class Flusher {
    const buffer: array<Byte>
    /** `flushp` */
    var used: nat
    var flushed: nat
    /** `rth.seq` */
    var seqno: nat
    /** The batches the kernel has taken from the socket. */
    var sent: seq<seq<Byte>>

    ghost predicate Valid()
      reads this, buffer
    {
      buffer.Length == SIZE && used <= SIZE && seqno < SEQUENCE && Whole(buffer[..used]) && Batches(sent)
    }

    /** Every request made so far: those delivered and those waiting in the buffer. */
    ghost function Log(): seq<Message>
      reads this, buffer
      requires Valid()
    {
      Delivered(sent) + Parse(buffer[..used])
    }

    constructor (s: nat)
      requires s < SEQUENCE
      ensures Valid() && fresh(buffer) && used == 0 && seqno == s && sent == [] && Log() == []
    {
      buffer := new Byte[SIZE];
      used, flushed, seqno, sent := 0, 0, s, [];
    }

    /** The socket and what comes back from it: an error may be reported although the batch has been taken. */
    method Send() returns (ok: bool)
      requires Valid()
      modifies `sent
      ensures Valid()
      ensures sent == old(sent) + [buffer[..used]] || (!ok && sent == old(sent))
    {
      var taken := *;
      ok := *;
      if ok || taken {
        sent := sent + [buffer[..used]];
      }
    }

    method Update() returns (r: int)
      requires Valid()
      modifies `sent, `used
      ensures Valid() && r in {0, -1}
      ensures r == 0 ==> used == 0 && Log() == old(Log()) == Delivered(sent)
      ensures r == -1 ==> used == old(used) && Delivered(sent) in {Delivered(old(sent)), old(Log())}
    {
      DeliveredMore(sent, buffer[..used]);
      var ok := Send();
      if !ok {
        return -1;
      }
      used := 0;
      assert buffer[..used] == [];
      r := 0;
    }

    method Copy(off: nat, m: seq<Byte>)
      requires off + |m| <= buffer.Length
      modifies buffer
      ensures buffer[..] == Splice(old(buffer[..]), off, m)
    {
      for i := 0 to |m|
        invariant forall k :: 0 <= k < buffer.Length && !(off <= k < off + i) ==> buffer[k] == old(buffer[k])
        invariant forall k :: 0 <= k < i ==> buffer[off + k] == m[k]
      {
        buffer[off + i] := m[i];
      }
    }

    /** Copies the report and patches its header. */
    method Write(off: nat, n: Message, s: nat)
      requires IsMessage(n) && off + |n| <= buffer.Length && s < SEQUENCE
      modifies buffer
      ensures |Request(n, s)| == |n| && buffer[..] == Splice(old(buffer[..]), off, Request(n, s))
      ensures buffer[..off + |n|] == Splice(old(buffer[..]), off, Request(n, s))[..off + |n|]
    {
      Copy(off, n);
      Copy(off + 4, Put16(DELROUTE) + Put16(REQUEST) + Put32(s));
      Patched(old(buffer[..]), off, n, s);
      assert buffer[..off + |n|] == buffer[..][..off + |n|];
    }

    /** Puts the request at the next aligned offset. */
    method Append(n: Message)
      requires Valid() && IsMessage(n) && Align(used) + |n| <= SIZE
      modifies `used, `flushed, `seqno, buffer
      ensures Valid() && used == Align(old(used)) + |n| && seqno == Successor(old(seqno)) && flushed == old(flushed) + 1
      ensures Log() == old(Log()) + [Request(n, seqno)]
    {
      seqno := Successor(seqno);
      Write(Align(used), n, seqno);
      ghost var before := old(buffer[..]);
      assert before[..used] == old(buffer[..used]);
      used := Align(used) + |n|;
      Appended(before, old(used), n, seqno, buffer[..used]);
      flushed := flushed + 1;
    }

    /** What `print_route` does with one message of the dump while flushing. */
    method PrintRoute(n: Message, selected: bool) returns (o: Result)
      requires Valid() && IsMessage(n)
      modifies this, buffer
      ensures Valid()
      ensures TypeOf(n) == 24 && |n| < 28 ==> o.Failed?
      ensures o.Overrun? ==> Chosen(Report(n, selected)) && |n| > SIZE
      ensures o.Ok? && Chosen(Report(n, selected)) ==>
                && |n| <= SIZE && Log() == old(Log()) + [Request(n, seqno)]
                && seqno == Successor(old(seqno)) && flushed == old(flushed) + 1 && used > 0
      ensures o.Ok? && !Chosen(Report(n, selected)) ==>
                && Log() == old(Log()) && sent == old(sent)
                && seqno == old(seqno) && flushed == old(flushed) && used == old(used)
      ensures Delivered(old(sent)) <= Delivered(sent) && (!o.Ok? ==> Delivered(sent) <= old(Log()))
    {
      if TypeOf(n) != NEWROUTE {
        return Ok;
      }
      if |n| < ROUTE {
        return Failed;
      }
      if !selected {
        return Ok;
      }
      if Align(used) + |n| > SIZE {
        var status := Update();
        if status != 0 {
          return Failed;
        }
      }
      if Align(used) + |n| > SIZE {
        return Overrun;
      }
      Append(n);
      o := Ok;
    }

    /** The first `i` reports of a round have been dealt with. */
    ghost predicate Progress(reports: seq<Report>, i: nat, d0: seq<Message>, s0: nat)
      reads this, buffer
      requires Dump(reports) && i <= |reports|
    {
      && Valid()
      && Log() == d0 + Requests(reports[..i], s0)
      && flushed == |Requests(reports[..i], s0)|
      && seqno == Numbered(s0, flushed)
      && (used == 0 <==> flushed == 0)
      && forall k :: 0 <= k < i ==> !Malformed(reports[k].message) && !TooLong(reports[k])
    }

    method Step(reports: seq<Report>, i: nat, ghost d0: seq<Message>, ghost s0: nat) returns (o: Result)
      requires Dump(reports) && i < |reports| && Progress(reports, i, d0, s0)
      modifies this, buffer
      ensures Valid()
      ensures o.Ok? ==>
                && Progress(reports, i + 1, d0, s0)
                && flushed >= old(flushed) && (flushed == 0 ==> sent == old(sent))
      ensures !o.Ok? ==> Delivered(sent) <= d0 + Requests(reports[..i], s0)
      ensures o.Overrun? ==> TooLong(reports[i])
      ensures Delivered(old(sent)) <= Delivered(sent)
    {
      ghost var log := Log();
      NumberedNext(s0, flushed);
      o := PrintRoute(reports[i].message, reports[i].selected);
      if o.Ok? {
        Proceeded(reports, i, d0, s0, log, Log(), seqno);
      }
    }

    /**
     * One round. Unless a send fails or the dump is malformed or has too long a message, the kernel has got exactly one
     * request for each chosen route, in order and with consecutive numbers, and nothing is left in the buffer;
     * otherwise it has got a prefix of these.
     */
    method Round(reports: seq<Report>) returns (o: Outcome)
      requires Valid() && used == 0 && Dump(reports)
      modifies this, buffer
      ensures Valid()
      ensures !o.Aborted? ==>
                && Delivered(sent) == Delivered(old(sent)) + Requests(reports, old(seqno))
                && used == 0 && flushed == |Requests(reports, old(seqno))|
                && seqno == Numbered(old(seqno), flushed)
                && forall k :: 0 <= k < |reports| ==> !Malformed(reports[k].message) && !TooLong(reports[k])
      ensures o.Nothing? ==> Requests(reports, old(seqno)) == [] && sent == old(sent)
      ensures o.Aborted? ==>
                Delivered(old(sent)) <= Delivered(sent) <= Delivered(old(sent)) + Requests(reports, old(seqno))
      ensures o == Aborted(Overrun) ==> exists k :: 0 <= k < |reports| && TooLong(reports[k])
    {
      flushed := 0;
      ghost var d0, s0 := Delivered(sent), seqno;
      for i := 0 to |reports|
        invariant Progress(reports, i, d0, s0)
        invariant flushed == 0 ==> sent == old(sent)
        invariant d0 <= Delivered(sent)
      {
        var result := Step(reports, i, d0, s0);
        if !result.Ok? {
          RequestsGrow(reports, i, s0);
          Planned(Delivered(sent), d0, Requests(reports[..i], s0), Requests(reports, s0));
          return Aborted(result);
        }
      }
      assert reports[..|reports|] == reports;
      if flushed == 0 {
        return Nothing;
      }
      var status := Update();
      o := if status < 0 then Aborted(Failed) else Flushed;
    }
  }
}
