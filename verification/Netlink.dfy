/** Netlink messages in a byte buffer. */
module Netlink {
  import opened Bytes

  const HEADER := 16

  type Message = seq<Byte>

  /** `NLMSG_ALIGN` */
  function Align(n: nat): (r: nat)
    ensures n <= r < n + 4 && r % 4 == 0
  {
    (n + 3) / 4 * 4
  }

  function U16(b: seq<Byte>): nat
    requires |b| == 2
  {
    b[0] as int + 256 * b[1] as int
  }

  function U32(b: seq<Byte>): nat
    requires |b| == 4
  {
    b[0] as int + 256 * (b[1] as int + 256 * (b[2] as int + 256 * b[3] as int))
  }

  function Put16(v: nat): (b: seq<Byte>)
    requires v < 0x1_0000
    ensures |b| == 2 && U16(b) == v
  {
    [v % 256, v / 256]
  }

  function Put32(v: nat): (b: seq<Byte>)
    requires v < 0x1_0000_0000
    ensures |b| == 4 && U32(b) == v
  {
    [v % 256, v / 256 % 256, v / 256 / 256 % 256, v / 256 / 256 / 256]
  }

  /** `nlmsg_len` */
  function LengthOf(m: seq<Byte>): nat
    requires |m| >= HEADER
  {
    U32(m[0..4])
  }

  /** `nlmsg_type` */
  function TypeOf(m: seq<Byte>): nat
    requires |m| >= HEADER
  {
    U16(m[4..6])
  }

  predicate IsMessage(m: seq<Byte>) {
    |m| >= HEADER && LengthOf(m) == |m|
  }

  /** `NLMSG_OK` */
  predicate Ok(b: seq<Byte>) {
    |b| >= HEADER && HEADER <= LengthOf(b) <= |b|
  }

  /** The rest of a buffer after its first message, as `NLMSG_NEXT` steps. */
  function Next(b: seq<Byte>): (r: seq<Byte>)
    requires Ok(b)
    ensures |r| < |b|
  {
    if Align(LengthOf(b)) < |b| then b[Align(LengthOf(b))..] else []
  }

  /** The messages a receiver reads from a buffer. */
  function Parse(b: seq<Byte>): seq<Message>
    decreases |b|
  {
    if Ok(b) then [b[..LengthOf(b)]] + Parse(Next(b)) else []
  }

  /** A buffer that holds messages only, each at an aligned offset, and ends with the last one. */
  predicate Whole(b: seq<Byte>)
    decreases |b|
  {
    b == [] || (Ok(b) && (LengthOf(b) == |b| || (Align(LengthOf(b)) < |b| && Whole(Next(b)))))
  }

  lemma AlignStep(n: nat, m: nat)
    requires n % 4 == 0
    ensures Align(n + m) == n + Align(m)
  {
  }

  lemma OneMessage(m: Message)
    requires IsMessage(m)
    ensures Whole(m) && Parse(m) == [m]
  {
    assert Next(m) == [];
    assert m[..LengthOf(m)] == m;
  }

  lemma SameLength(b: seq<Byte>, tail: seq<Byte>)
    requires |b| >= HEADER
    ensures LengthOf(b + tail) == LengthOf(b)
  {
    assert (b + tail)[0..4] == b[0..4];
  }

  lemma FirstOf(b: seq<Byte>, tail: seq<Byte>)
    requires Ok(b)
    ensures Ok(b + tail) && LengthOf(b + tail) == LengthOf(b)
    ensures (b + tail)[..LengthOf(b)] == b[..LengthOf(b)]
  {
    SameLength(b, tail);
  }

  /** What follows the first message of a longer buffer. */
  lemma NextOf(b: seq<Byte>, tail: seq<Byte>)
    requires Ok(b) && Align(LengthOf(b)) < |b|
    ensures Ok(b + tail) && Next(b + tail) == Next(b) + tail
  {
    FirstOf(b, tail);
    assert (b + tail)[Align(LengthOf(b))..] == b[Align(LengthOf(b))..] + tail;
  }

  lemma NextOfLast(b: seq<Byte>, pad: seq<Byte>, m: Message)
    requires Ok(b) && LengthOf(b) == |b| && |pad| == Align(|b|) - |b| && m != []
    ensures Ok(b + (pad + m)) && Next(b + (pad + m)) == m && Next(b) == []
  {
    FirstOf(b, pad + m);
    assert (b + (pad + m))[Align(|b|)..] == m;
  }

  /** A message put at the next aligned offset is read after all the others, which are read as before. */
  lemma {:induction false} ParseAppend(b: seq<Byte>, pad: seq<Byte>, m: Message)
    requires Whole(b) && |pad| == Align(|b|) - |b| && IsMessage(m)
    ensures Whole(b + (pad + m)) && Parse(b + (pad + m)) == Parse(b) + [m]
    decreases |b|
  {
    OneMessage(m);
    if b == [] {
      assert b + (pad + m) == m;
    } else {
      FirstOf(b, pad + m);
      if LengthOf(b) == |b| {
        NextOfLast(b, pad, m);
      } else {
        NextOf(b, pad + m);
        AlignStep(Align(LengthOf(b)), |Next(b)|);
        ParseAppend(Next(b), pad, m);
      }
    }
  }
}
