/** Reading a label stack from text, and that it undoes printing. */
module MplsParse {
  import opened Options
  import opened Decimals
  import opened MplsLabels
  import opened MplsText

  // ----- strtoul with base 0 -----

  const ULONG_MAX := 0xFFFF_FFFF_FFFF_FFFF

  predicate IsSpace(c: char) {
    c == ' ' || '\t' <= c <= '\r'
  }

  function SkipSpace(s: string): (r: string)
    ensures |r| <= |s|
  {
    if s != [] && IsSpace(s[0]) then SkipSpace(s[1..]) else s
  }

  /** The value of a digit in bases up to 36; 36 if it is none. */
  function DigitIn(c: char): (v: nat)
    ensures v <= 36
  {
    if '0' <= c <= '9' then c as nat - '0' as nat
    else if 'a' <= c <= 'z' then c as nat - 'a' as nat + 10
    else if 'A' <= c <= 'Z' then c as nat - 'A' as nat + 10
    else 36
  }

  /** How many digits of a base a text starts with. */
  function RunLength(s: string, base: nat): (n: nat)
    ensures n <= |s|
  {
    if s == [] || DigitIn(s[0]) >= base then 0 else 1 + RunLength(s[1..], base)
  }

  function RunValue(s: string, base: nat): nat {
    if s == [] then 0 else RunValue(s[..|s| - 1], base) * base + DigitIn(s[|s| - 1])
  }

  /** What was read, and where reading stopped; nothing if there was no digit. */
  datatype Number = NoDigits | Number(value: nat, rest: string)

  /** Digits with their prefix: hexadecimal after 0x, octal after 0, else decimal. */
  function ReadDigits(s: string): (r: Number)
    ensures r.Number? ==> |r.rest| < |s|
  {
    if |s| > 2 && s[0] == '0' && (s[1] == 'x' || s[1] == 'X') && DigitIn(s[2]) < 16 then
      var n := RunLength(s[2..], 16);
      Number(RunValue(s[2..][..n], 16), s[2..][n..])
    else
      var base := if s != [] && s[0] == '0' then 8 else 10;
      var n := RunLength(s, base);
      if n == 0 then NoDigits else Number(RunValue(s[..n], base), s[n..])
  }

  /** Too large a number is clipped, a negative one wraps around. */
  function Strtoul(s: string): (r: Number)
    ensures r.Number? ==> |r.rest| < |s| && r.value <= ULONG_MAX
  {
    var t := SkipSpace(s);
    var negative := t != [] && t[0] == '-';
    var u := if t != [] && (t[0] == '-' || t[0] == '+') then t[1..] else t;
    match ReadDigits(u)
    case NoDigits => NoDigits
    case Number(v, rest) =>
      if v > ULONG_MAX then Number(ULONG_MAX, rest)
      else if negative && v != 0 then Number(ULONG_MAX + 1 - v, rest)
      else Number(v, rest)
  }

  // ----- stacks -----

  function Prefixed(front: seq<nat>, r: Option<seq<nat>>): Option<seq<nat>> {
    match r case None => None case Some(more) => Some(front + more)
  }

  /** The labels a text names, when `k` labels have been read before it. */
  function Parse(name: string, k: nat): (r: Option<seq<nat>>)
    ensures r.Some? ==> 1 <= |r.value| && k + |r.value| <= MAX_LABELS
    decreases MAX_LABELS - k, |name|
  {
    if k >= MAX_LABELS then None
    else match Strtoul(name)
      case NoDigits => None
      case Number(v, rest) =>
        if v >= LABEL_LIMIT then None
        else if rest == [] then Some([v])
        else if rest[0] != '/' then None
        else Prefixed([v], Parse(rest[1..], k + 1))
  }

  lemma PrefixedNone(r: Option<seq<nat>>)
    ensures Prefixed([], r) == r
  {
    if r.Some? { assert [] + r.value == r.value; }
  }

  lemma PrefixedTwice(front: seq<nat>, v: nat, r: Option<seq<nat>>)
    ensures Prefixed(front, Prefixed([v], r)) == Prefixed(front + [v], r)
  {
    if r.Some? { assert front + ([v] + r.value) == front + [v] + r.value; }
  }

  lemma ParseLast(name: string, k: nat, v: nat)
    requires k < MAX_LABELS && Strtoul(name) == Number(v, []) && v < LABEL_LIMIT
    ensures Parse(name, k) == Some([v])
  {
  }

  lemma ParseMore(name: string, k: nat, v: nat, more: string)
    requires k < MAX_LABELS && Strtoul(name) == Number(v, "/" + more) && v < LABEL_LIMIT
    ensures Parse(name, k) == Prefixed([v], Parse(more, k + 1))
  {
    assert ("/" + more)[1..] == more;
  }

  lemma {:induction false} ParseInRange(name: string, k: nat)
    requires Parse(name, k).Some?
    ensures forall i :: 0 <= i < |Parse(name, k).value| ==> Parse(name, k).value[i] < LABEL_LIMIT
    decreases MAX_LABELS - k
  {
    var rest := Strtoul(name).rest;
    if rest != [] { ParseInRange(rest[1..], k + 1); }
  }

  /** The stack that is left in memory for a text. */
  function ParsedStack(name: string): (r: Option<seq<Entry>>)
    ensures r.Some? ==> 1 <= |r.value| <= MAX_LABELS
  {
    match Parse(name, 0) case None => None case Some(labels) => Some(Encode(labels))
  }

  /** Fills in the entries as they are read; after a failure some have been overwritten. */
  method ParseInto(name: string, addr: array<Entry>) returns (ok: bool)
    requires addr.Length >= MAX_LABELS
    modifies addr
    ensures ok <==> ParsedStack(name).Some?
    ensures ok ==> addr[..|ParsedStack(name).value|] == ParsedStack(name).value
  {
    var at, count := name, 0;
    ghost var labels: seq<nat> := [];
    ok := false;
    PrefixedNone(Parse(name, 0));
    while count < MAX_LABELS
      invariant count == |labels| <= MAX_LABELS
      invariant Parse(name, 0) == Prefixed(labels, Parse(at, count))
      invariant addr[..count] == Upper(labels)
    {
      var number := Strtoul(at);
      if number.Number? && number.value >= LABEL_LIMIT {
        return false;
      }
      if number.NoDigits? {
        return false;
      }
      addr[count] := NetworkOrder(number.value * 4096);
      if number.rest == [] {
        addr[count] := WithBottom(addr[count]);
        assert (labels + [number.value])[..count] == labels;
        assert addr[..count + 1] == Encode(labels + [number.value]);
        return true;
      }
      if number.rest[0] != '/' {
        return false;
      }
      at := number.rest[1..];
      PrefixedTwice(labels, number.value, Parse(at, count + 1));
      assert (labels + [number.value])[..count] == labels;
      labels := labels + [number.value];
      assert addr[..count + 1] == Upper(labels);
      count := count + 1;
    }
  }

  // ----- round trip -----

  lemma {:induction false} RunIsDecimal(s: string)
    ensures RunLength(s, 10) == DigitCount(s)
  {
    if s != [] { RunIsDecimal(s[1..]); }
  }

  lemma {:induction false} RunValueIsDecimal(s: string)
    requires AllDigits(s)
    ensures RunValue(s, 10) == Value(s)
  {
    if s != [] { RunValueIsDecimal(s[..|s| - 1]); }
  }

  /** A text after which a number is over. */
  predicate Ends(s: string) { s == [] || s[0] == '/' }

  lemma ZeroRead(rest: string)
    requires Ends(rest)
    ensures ReadDigits("0" + rest) == Number(0, rest)
  {
    var s := "0" + rest;
    assert s[1..] == rest;
    assert RunLength(rest, 8) == 0;
    assert s[..1] == "0" && "0"[..0] == [];
  }

  lemma {:induction false} DigitsRead(n: nat, rest: string)
    requires Ends(rest)
    ensures ReadDigits(Digits(n) + rest) == Number(n, rest)
    ensures IsDigit((Digits(n) + rest)[0])
  {
    DigitsValue(n);
    var s := Digits(n) + rest;
    if n == 0 {
      ZeroRead(rest);
    } else {
      DigitCountIs(Digits(n), rest);
      RunIsDecimal(s);
      assert s[..|Digits(n)|] == Digits(n) && s[|Digits(n)|..] == rest;
      RunValueIsDecimal(Digits(n));
    }
  }

  lemma LabelRead(n: nat, rest: string)
    requires n < LABEL_LIMIT && Ends(rest)
    ensures Strtoul(Digits(n) + rest) == Number(n, rest)
  {
    DigitsRead(n, rest);
  }

  /** Cells of a stack in canonical form. */
  predicate Proper(cells: seq<Cell>) {
    && 1 <= |cells| <= MAX_LABELS
    && forall i :: 0 <= i < |cells| ==> cells[i].value < LABEL_LIMIT && (cells[i].bottom <==> i == |cells| - 1)
  }

  function Values(cells: seq<Cell>, k: nat): seq<nat>
    requires k <= |cells|
    decreases |cells| - k
  {
    if k == |cells| then [] else [cells[k].value] + Values(cells, k + 1)
  }

  lemma LastPrinted(v: nat, k: nat)
    requires k < MAX_LABELS && v < LABEL_LIMIT
    ensures Parse(Digits(v), k) == Some([v])
  {
    assert Digits(v) + [] == Digits(v);
    LabelRead(v, []);
    ParseLast(Digits(v), k, v);
  }

  lemma MorePrinted(v: nat, more: string, k: nat)
    requires k < MAX_LABELS && v < LABEL_LIMIT
    ensures Parse(Digits(v) + ("/" + more), k) == Prefixed([v], Parse(more, k + 1))
  {
    LabelRead(v, "/" + more);
    ParseMore(Digits(v) + ("/" + more), k, v, more);
  }

  /** Parsing what was printed from place `k` on gives the rest of the labels. */
  lemma {:induction false} PrintedRead(cells: seq<Cell>, k: nat)
    requires Proper(cells) && k < |cells|
    ensures HasBottom(cells, k) && Parse(TextFrom(cells, k), k) == Some(Values(cells, k))
    decreases |cells| - k
  {
    var v := cells[k].value;
    assert cells[|cells| - 1].bottom;
    if k == |cells| - 1 {
      assert TextFrom(cells, k) == Digits(v) + [] == Digits(v);
      LastPrinted(v, k);
      assert Values(cells, k) == [v] + [] == [v];
    } else {
      PrintedRead(cells, k + 1);
      MorePrinted(v, TextFrom(cells, k + 1), k);
    }
  }

  lemma {:induction false} ValuesAre(cells: seq<Cell>, labels: seq<nat>, k: nat)
    requires |cells| == |labels| && k <= |cells| && forall i :: 0 <= i < |cells| ==> cells[i].value == labels[i]
    ensures Values(cells, k) == labels[k..]
    decreases |cells| - k
  {
    if k < |cells| { ValuesAre(cells, labels, k + 1); }
  }

  /** Parsing undoes printing. */
  lemma RoundTrip(stack: seq<Entry>)
    requires Canonical(stack)
    ensures Readable(Cells(stack), 0) && ParsedStack(TextFrom(Cells(stack), 0)) == Some(stack)
  {
    EncodeCells(Labels(stack));
    PrintedRead(Cells(stack), 0);
    ValuesAre(Cells(stack), Labels(stack), 0);
  }

  /** Whatever is accepted is a stack in canonical form, and printing it gives a normal form
      of the text: it parses to the same stack. */
  lemma NormalForm(name: string)
    requires ParsedStack(name).Some?
    ensures var stack := ParsedStack(name).value;
            && Canonical(stack)
            && Readable(Cells(stack), 0) && ParsedStack(TextFrom(Cells(stack), 0)) == Some(stack)
  {
    ParseInRange(name, 0);
    EncodeCells(Parse(name, 0).value);
    RoundTrip(ParsedStack(name).value);
  }
}
