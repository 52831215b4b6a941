/** Comparing the first bits of two addresses word by word. */
module AddressBits {

  const WORD := 32

  /** A 32-bit value, most significant bit first. */
  type Word = w: seq<bool> | |w| == WORD witness seq(WORD, _ => false)

  function Ones(): Word {
    seq(WORD, _ => true)
  }

  function Xor(x: Word, y: Word): Word {
    seq(WORD, i requires 0 <= i < WORD => x[i] != y[i])
  }

  function And(x: Word, y: Word): Word {
    seq(WORD, i requires 0 <= i < WORD => x[i] && y[i])
  }

  function ShiftLeft(x: Word, k: nat): Word {
    seq(WORD, i requires 0 <= i < WORD => i + k < WORD && x[i + k])
  }

  predicate NonZero(x: Word) {
    exists i | 0 <= i < WORD :: x[i]
  }

  datatype Host = LittleEndian | BigEndian

  /** Where a bit of network order is found in the host's order, and the other way round. */
  function Place(host: Host, i: nat): (j: nat)
    requires i < WORD
    ensures j < WORD
  {
    if host.BigEndian? then i
    else if i < 8 then i + 24
    else if i < 16 then i + 8
    else if i < 24 then i - 8
    else i - 24
  }

  lemma PlaceTwice(host: Host, i: nat)
    requires i < WORD
    ensures Place(host, Place(host, i)) == i
  {
  }

  /** `htonl`, and equally the load of a word that lies in memory in network order. */
  function NetworkOrder(host: Host, x: Word): Word {
    seq(WORD, i requires 0 <= i < WORD => x[Place(host, i)])
  }

  /** Memory seen as bits: bytes in address order, each most significant bit first. */
  function Load(host: Host, memory: seq<bool>, k: nat): Word
    requires k * WORD + WORD <= |memory|
  {
    NetworkOrder(host, memory[k * WORD..k * WORD + WORD])
  }

  /** What is left of the difference of two words under the mask of their first `rest` bits. */
  function Difference(host: Host, w1: Word, w2: Word, rest: nat): Word
    requires rest <= WORD
  {
    And(Xor(w1, w2), NetworkOrder(host, ShiftLeft(Ones(), WORD - rest)))
  }

  lemma WordFits(n: nat, bits: nat)
    requires n % WORD == 0 && bits <= n && bits % WORD != 0
    ensures bits / WORD * WORD + WORD <= n
  {
  }

  function LastDifference(host: Host, a: seq<bool>, b: seq<bool>, bits: nat): Word
    requires bits <= |a| == |b| && |a| % WORD == 0 && bits % WORD != 0
  {
    WordFits(|a|, bits);
    Difference(host, Load(host, a, bits / WORD), Load(host, b, bits / WORD), bits % WORD)
  }

  /** The result of `inet_addr_match`, of which `xfrm_addr_match` is a copy. */
  function Match(host: Host, a: seq<bool>, b: seq<bool>, bits: nat): int
    requires bits <= |a| == |b| && |a| % WORD == 0
  {
    if a[..bits / WORD * WORD] != b[..bits / WORD * WORD] then
      -1
    else if bits % WORD != 0 && NonZero(LastDifference(host, a, b, bits)) then
      1
    else
      0
  }

  lemma DifferenceAt(host: Host, x: Word, y: Word, rest: nat, i: nat)
    requires rest <= WORD && i < WORD
    ensures Difference(host, NetworkOrder(host, x), NetworkOrder(host, y), rest)[i] <==>
            Place(host, i) < rest && x[Place(host, i)] != y[Place(host, i)]
  {
  }

  /** The masked comparison of two loaded words is the comparison of their leading bits in memory. */
  lemma MaskedWords(host: Host, x: Word, y: Word, rest: nat, d: Word)
    requires rest <= WORD && d == Difference(host, NetworkOrder(host, x), NetworkOrder(host, y), rest)
    ensures NonZero(d) <==> x[..rest] != y[..rest]
  {
    if NonZero(d) {
      var i :| 0 <= i < WORD && d[i];
      DifferenceAt(host, x, y, rest, i);
      assert x[..rest][Place(host, i)] != y[..rest][Place(host, i)];
    }
    if x[..rest] != y[..rest] {
      var j :| 0 <= j < rest && x[j] != y[j];
      PlaceTwice(host, j);
      DifferenceAt(host, x, y, rest, Place(host, j));
    }
  }

  lemma SplitEqual(a: seq<bool>, b: seq<bool>, low: nat, high: nat)
    requires low <= high <= |a| == |b|
    ensures a[..high] == b[..high] <==> a[..low] == b[..low] && a[low..high] == b[low..high]
  {
    assert a[..high] == a[..low] + a[low..high] && b[..high] == b[..low] + b[low..high];
  }

  lemma LastBits(host: Host, a: seq<bool>, b: seq<bool>, bits: nat)
    requires bits <= |a| == |b| && |a| % WORD == 0 && bits % WORD != 0
    ensures NonZero(LastDifference(host, a, b, bits)) <==> a[bits / WORD * WORD..bits] != b[bits / WORD * WORD..bits]
  {
    WordFits(|a|, bits);
    var low := bits / WORD * WORD;
    var x, y := a[low..low + WORD], b[low..low + WORD];
    MaskedWords(host, x, y, bits % WORD, LastDifference(host, a, b, bits));
    assert x[..bits % WORD] == a[low..bits] && y[..bits % WORD] == b[low..bits];
  }

  /** Two addresses match exactly if their first `bits` bits agree; a miss tells where the bits differ. */
  lemma MatchComparesBits(host: Host, a: seq<bool>, b: seq<bool>, bits: nat)
    requires bits <= |a| == |b| && |a| % WORD == 0
    ensures Match(host, a, b, bits) == 0 <==> a[..bits] == b[..bits]
    ensures Match(host, a, b, bits) == -1 <==> a[..bits / WORD * WORD] != b[..bits / WORD * WORD]
    ensures Match(host, a, b, bits) == 1 <==>
            a[..bits] != b[..bits] && a[..bits / WORD * WORD] == b[..bits / WORD * WORD]
  {
    SplitEqual(a, b, bits / WORD * WORD, bits);
    if bits % WORD != 0 {
      LastBits(host, a, b, bits);
    }
  }
}
