/** MPLS label stack entries as they lie in memory (section 2.1 of RFC 3032), and the text
    form of a stack: labels in decimal with slashes between them. */
module MplsLabels {
  import opened Bytes

  const MAX_LABELS := 8
  const LABEL_LIMIT := 0x10_0000
  const PRINT_SIZE := 64

  /** The four bytes of an entry in network order:
      20 bits of label, 3 of traffic class, the bottom-of-stack bit, 8 of time to live. */
  datatype Entry = Entry(b0: Byte, b1: Byte, b2: Byte, b3: Byte)

  /** `ntohl` */
  function HostOrder(e: Entry): nat {
    ((e.b0 * 256 + e.b1) * 256 + e.b2) * 256 + e.b3
  }

  /** `htonl`, of the low 32 bits */
  function NetworkOrder(x: nat): Entry {
    Entry(x / 256 / 256 / 256 % 256, x / 256 / 256 % 256, x / 256 % 256, x % 256)
  }

  /** The top 20 bits. */
  function Label(e: Entry): (l: nat)
    ensures l < LABEL_LIMIT
  {
    HostOrder(e) / 4096
  }

  /** Bit 8. */
  predicate IsBottom(e: Entry) {
    HostOrder(e) / 256 % 2 == 1
  }

  /** Bit 8 switched on, in the byte that holds it. */
  function WithBottom(e: Entry): Entry {
    e.(b2 := if e.b2 % 2 == 0 then e.b2 + 1 else e.b2)
  }

  /** The entry written for a label, before and at the bottom of the stack. */
  function EntryOf(l: nat, bottom: bool): Entry {
    if bottom then WithBottom(NetworkOrder(l * 4096)) else NetworkOrder(l * 4096)
  }

  lemma OrderRoundTrip(x: nat)
    requires x < 0x1_0000_0000
    ensures HostOrder(NetworkOrder(x)) == x
  {
    var a := x / 256;
    var b := a / 256;
    var c := b / 256;
    assert x == a * 256 + x % 256 && a == b * 256 + a % 256 && b == c * 256 + b % 256;
    assert c < 256;
  }

  lemma MiddleByte(l: nat)
    requires l < LABEL_LIMIT
    ensures NetworkOrder(l * 4096).b2 % 2 == 0
  {
    assert l * 4096 / 256 == l * 16;
    assert l * 16 % 256 == l % 16 * 16;
  }

  lemma TopBits(l: nat, r: nat)
    requires r < 4096
    ensures (l * 4096 + r) / 4096 == l
  {
  }

  lemma MiddleBits(m: nat)
    ensures m * 256 / 256 == m
  {
  }

  lemma LowBit(m: nat, b: nat)
    requires b <= 1
    ensures (m * 2 + b) % 2 == b
  {
  }

  lemma EntryValue(l: nat, bottom: bool)
    requires l < LABEL_LIMIT
    ensures HostOrder(EntryOf(l, bottom)) == l * 4096 + (if bottom then 1 else 0) * 256
  {
    OrderRoundTrip(l * 4096);
    MiddleByte(l);
  }

  /** The bytes of an entry: the label from the top bit on, then the bottom bit alone in the low half of the third. */
  lemma EntryBytes(l: nat, bottom: bool)
    requires l < LABEL_LIMIT
    ensures EntryOf(l, bottom) == Entry(l / 4096, l / 16 % 256, l % 16 * 16 + (if bottom then 1 else 0), 0)
  {
    var x := l * 4096;
    assert x / 256 == l * 16 && x % 256 == 0;
    assert l * 16 / 256 == l / 16 && l * 16 % 256 == l % 16 * 16;
    assert l / 16 / 256 == l / 4096;
  }

  lemma EntryFields(l: nat, bottom: bool)
    requires l < LABEL_LIMIT
    ensures Label(EntryOf(l, bottom)) == l && IsBottom(EntryOf(l, bottom)) == bottom
  {
    var b := if bottom then 1 else 0;
    EntryValue(l, bottom);
    TopBits(l, b * 256);
    assert l * 4096 + b * 256 == (l * 16 + b) * 256;
    MiddleBits(l * 16 + b);
    LowBit(l * 8, b);
  }

  /** An entry as a printer sees it. */
  datatype Cell = Cell(value: nat, bottom: bool)

  function CellOf(e: Entry): Cell {
    Cell(Label(e), IsBottom(e))
  }

  function Cells(stack: seq<Entry>): (cells: seq<Cell>)
    ensures |cells| == |stack| && forall i :: 0 <= i < |stack| ==> cells[i] == CellOf(stack[i])
  {
    seq(|stack|, i requires 0 <= i < |stack| => CellOf(stack[i]))
  }

  /** Entries above the bottom. */
  function Upper(labels: seq<nat>): (stack: seq<Entry>)
    ensures |stack| == |labels|
  {
    if labels == [] then [] else Upper(labels[..|labels| - 1]) + [EntryOf(labels[|labels| - 1], false)]
  }

  /** The stack of some labels: the bottom bit on the last entry only, traffic class and
      time to live zero. */
  function Encode(labels: seq<nat>): (stack: seq<Entry>)
    ensures |stack| == |labels|
  {
    if labels == [] then [] else Upper(labels[..|labels| - 1]) + [EntryOf(labels[|labels| - 1], true)]
  }

  function Labels(stack: seq<Entry>): (labels: seq<nat>)
    ensures |labels| == |stack| && forall i :: 0 <= i < |stack| ==> labels[i] == Label(stack[i]) < LABEL_LIMIT
  {
    seq(|stack|, i requires 0 <= i < |stack| => Label(stack[i]))
  }

  /** A stack as the encoding defines it: one to eight labels, and nothing but labels and
      the bottom bit. */
  predicate Canonical(stack: seq<Entry>) {
    1 <= |stack| <= MAX_LABELS && stack == Encode(Labels(stack))
  }

  lemma {:induction false} UpperAt(labels: seq<nat>, i: nat)
    requires i < |labels|
    ensures Upper(labels)[i] == EntryOf(labels[i], false)
  {
    if i < |labels| - 1 { UpperAt(labels[..|labels| - 1], i); }
  }

  lemma {:induction false} EncodeAt(labels: seq<nat>, i: nat)
    requires i < |labels|
    ensures Encode(labels)[i] == EntryOf(labels[i], i == |labels| - 1)
  {
    if i < |labels| - 1 { UpperAt(labels[..|labels| - 1], i); }
  }

  lemma EncodeCells(labels: seq<nat>)
    requires forall i :: 0 <= i < |labels| ==> labels[i] < LABEL_LIMIT
    ensures forall i :: 0 <= i < |labels| ==> Cells(Encode(labels))[i] == Cell(labels[i], i == |labels| - 1)
    ensures Labels(Encode(labels)) == labels
  {
    var cells, stack := Cells(Encode(labels)), Encode(labels);
    forall i | 0 <= i < |labels|
      ensures cells[i] == Cell(labels[i], i == |labels| - 1) && Labels(stack)[i] == labels[i]
    {
      EncodeAt(labels, i);
      EntryFields(labels[i], i == |labels| - 1);
    }
  }
}
