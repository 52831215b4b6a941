/** The ways a label can be written: in decimal, in octal after a zero, and in hexadecimal after `0x`. */
module MplsNumerals {
  import opened Decimals
  import opened Options
  import opened MplsParse

  datatype Notation = Decimal | Octal | Hexadecimal(x: char)

  function BaseOf(t: Notation): nat {
    match t case Decimal => 10 case Octal => 8 case Hexadecimal(_) => 16
  }

  function DigitChar(d: nat): (c: char)
    requires d < 16
    ensures DigitIn(c) == d
  {
    "0123456789abcdef"[d]
  }

  function InBase(n: nat, base: nat): string
    requires 2 <= base <= 16
  {
    if n < base then [DigitChar(n)] else InBase(n / base, base) + [DigitChar(n % base)]
  }

  function Numeral(n: nat, t: Notation): string {
    match t
    case Decimal => InBase(n, 10)
    case Octal => "0" + InBase(n, 8)
    case Hexadecimal(x) => ['0', x] + InBase(n, 16)
  }

  predicate DigitsOf(s: string, base: nat) {
    forall i :: 0 <= i < |s| ==> DigitIn(s[i]) < base
  }

  lemma LastDigit(s: string, c: char, base: nat)
    ensures RunValue(s + [c], base) == RunValue(s, base) * base + DigitIn(c)
  {
    assert (s + [c])[..|s|] == s;
  }

  lemma OneDigitMore(s: string, d: nat, base: nat)
    requires s != [] && DigitsOf(s, base) && d < base <= 16
    ensures var t := s + [DigitChar(d)];
            DigitsOf(t, base) && RunValue(t, base) == RunValue(s, base) * base + d && t[0] == s[0]
  {
    LastDigit(s, DigitChar(d), base);
  }

  lemma Quotient(n: nat, base: nat)
    requires 2 <= base <= n
    ensures 0 < n / base < n && n / base * base + n % base == n
  {
  }

  lemma {:induction false} InBaseRead(n: nat, base: nat)
    requires 2 <= base <= 16
    ensures InBase(n, base) != [] && DigitsOf(InBase(n, base), base) && RunValue(InBase(n, base), base) == n
    ensures InBase(n, base)[0] != '0' || n == 0
  {
    if n < base {
      LastDigit("", DigitChar(n), base);
      assert "" + [DigitChar(n)] == [DigitChar(n)];
    } else {
      Quotient(n, base);
      InBaseRead(n / base, base);
      OneDigitMore(InBase(n / base, base), n % base, base);
    }
  }

  /** What can follow a label: the end of the text, or a slash. */
  predicate Stops(rest: string) {
    rest == [] || rest[0] == '/'
  }

  lemma {:induction false} RunStops(s: string, rest: string, base: nat)
    requires DigitsOf(s, base) && Stops(rest) && base <= 16
    ensures RunLength(s + rest, base) == |s|
  {
    if s == [] {
      assert s + rest == rest;
    } else {
      assert (s + rest)[0] == s[0] && (s + rest)[1..] == s[1..] + rest;
      RunStops(s[1..], rest, base);
    }
  }

  lemma RunRead(s: string, rest: string, base: nat)
    requires DigitsOf(s, base) && Stops(rest) && base <= 16
    ensures var n := RunLength(s + rest, base); (s + rest)[..n] == s && (s + rest)[n..] == rest
  {
    RunStops(s, rest, base);
  }

  lemma DecimalRead(n: nat, rest: string)
    requires Stops(rest)
    ensures ReadDigits(InBase(n, 10) + rest) == Number(n, rest)
  {
    var s := InBase(n, 10);
    InBaseRead(n, 10);
    if n == 0 {
      assert s == "0" && DigitsOf(s, 8);
      RunRead(s, rest, 8);
      assert RunValue("0", 8) == RunValue("", 8) * 8;
    } else {
      RunRead(s, rest, 10);
    }
  }

  lemma {:induction false} LeadingZero(s: string, base: nat)
    ensures RunValue("0" + s, base) == RunValue(s, base)
  {
    var t := "0" + s;
    if s == [] {
      assert t[..0] == [];
    } else {
      assert t[..|t| - 1] == "0" + s[..|s| - 1];
      LeadingZero(s[..|s| - 1], base);
    }
  }

  lemma OctalRead(n: nat, rest: string)
    requires Stops(rest)
    ensures ReadDigits("0" + InBase(n, 8) + rest) == Number(n, rest)
  {
    var s := "0" + InBase(n, 8);
    InBaseRead(n, 8);
    LeadingZero(InBase(n, 8), 8);
    assert DigitsOf(s, 8);
    RunRead(s, rest, 8);
    assert DigitIn((s + rest)[1]) < 8;
  }

  lemma HexadecimalDigits(s: string, x: char, rest: string)
    requires Stops(rest) && (x == 'x' || x == 'X') && s != [] && DigitsOf(s, 16)
    ensures ReadDigits(['0', x] + s + rest) == Number(RunValue(s, 16), rest)
  {
    var t := ['0', x] + s + rest;
    RunRead(s, rest, 16);
    assert t[2..] == s + rest && t[2] == s[0];
  }

  lemma HexadecimalRead(n: nat, x: char, rest: string)
    requires Stops(rest) && (x == 'x' || x == 'X')
    ensures ReadDigits(['0', x] + InBase(n, 16) + rest) == Number(n, rest)
  {
    InBaseRead(n, 16);
    HexadecimalDigits(InBase(n, 16), x, rest);
  }

  predicate Known(t: Notation) {
    t.Hexadecimal? ==> t.x == 'x' || t.x == 'X'
  }

  lemma NumeralRead(n: nat, t: Notation, rest: string)
    requires Known(t) && Stops(rest)
    ensures ReadDigits(Numeral(n, t) + rest) == Number(n, rest)
  {
    match t
    case Decimal => DecimalRead(n, rest);
    case Octal => OctalRead(n, rest);
    case Hexadecimal(x) => HexadecimalRead(n, x, rest);
  }

  // ----- signs and white space -----

  /** The characters that `isspace` knows. */
  predicate AllSpaces(s: string) {
    forall c <- s :: c in {' ', '\t', '\n', 11 as char, 12 as char, '\r'}
  }

  lemma {:induction false} SpaceSkipped(blanks: string, s: string)
    requires AllSpaces(blanks) && s != [] && !IsSpace(s[0])
    ensures SkipSpace(blanks + s) == s
  {
    if blanks == [] {
      assert blanks + s == s;
    } else {
      assert blanks[0] in blanks && forall c <- blanks[1..] :: c in blanks;
      assert (blanks + s)[0] == blanks[0] && (blanks + s)[1..] == blanks[1..] + s;
      SpaceSkipped(blanks[1..], s);
    }
  }

  lemma NumeralStart(n: nat, t: Notation)
    ensures Numeral(n, t) != [] && DigitIn(Numeral(n, t)[0]) < 10
  {
    InBaseRead(n, BaseOf(t));
  }

  /** What `strtoul` makes of a number that its digits say: one that does not fit is clipped to the largest, and a minus
      sign makes it wrap around at 2^64. */
  function Converted(g: Sign, n: nat): nat {
    if n > 0xFFFF_FFFF_FFFF_FFFF then 0xFFFF_FFFF_FFFF_FFFF
    else if g.Minus? && n > 0 then 0x1_0000_0000_0000_0000 - n
    else n
  }

  lemma SignRead(g: Sign, digits: string, n: nat, rest: string)
    requires digits != [] && DigitIn(digits[0]) < 10 && ReadDigits(digits) == Number(n, rest)
    ensures var s := SignText(g) + digits;
            s != [] && !IsSpace(s[0]) && Strtoul(s) == Number(Converted(g, n), rest)
  {
    var s := SignText(g) + digits;
    match g
    case Bare =>
      assert s == digits;
    case Plus =>
      assert s[0] == '+' && s[1..] == digits;
    case Minus =>
      assert s[0] == '-' && s[1..] == digits;
  }

  lemma SpaceRead(blanks: string, s: string)
    requires AllSpaces(blanks) && s != [] && !IsSpace(s[0])
    ensures Strtoul(blanks + s) == Strtoul(s)
  {
    SpaceSkipped(blanks, s);
    assert SkipSpace(s) == s;
  }

  /** A number of any size is read in every notation. */
  lemma StrtoulRead(blanks: string, g: Sign, n: nat, t: Notation, rest: string)
    requires AllSpaces(blanks) && Known(t) && Stops(rest)
    ensures Strtoul(blanks + (SignText(g) + (Numeral(n, t) + rest))) == Number(Converted(g, n), rest)
  {
    NumeralRead(n, t, rest);
    NumeralStart(n, t);
    SignRead(g, Numeral(n, t) + rest, n, rest);
    SpaceRead(blanks, SignText(g) + (Numeral(n, t) + rest));
  }

  // ----- stacks -----

  /** A label as it may be written. */
  datatype Written = Written(blanks: string, plus: bool, n: nat, t: Notation)

  function LabelText(w: Written): string {
    w.blanks + (SignText(if w.plus then Plus else Bare) + Numeral(w.n, w.t))
  }

  predicate Proper(w: Written) {
    AllSpaces(w.blanks) && Known(w.t) && w.n < 0x10_0000
  }

  /** Whatever follows, the text is read as the number. */
  ghost predicate ReadsAs(text: string, n: nat) {
    n < 0x10_0000 && forall rest | Stops(rest) :: Strtoul(text + rest) == Number(n, rest)
  }

  lemma Regrouped(a: string, b: string, c: string, d: string)
    ensures a + (b + c) + d == a + (b + (c + d))
  {
  }

  lemma LabelReads(w: Written)
    requires Proper(w)
    ensures ReadsAs(LabelText(w), w.n)
  {
    forall rest | Stops(rest) ensures Strtoul(LabelText(w) + rest) == Number(w.n, rest) {
      var g := if w.plus then Plus else Bare;
      StrtoulRead(w.blanks, g, w.n, w.t, rest);
      Regrouped(w.blanks, SignText(g), Numeral(w.n, w.t), rest);
    }
  }

  /** Texts with slashes between them. */
  function Slashed(texts: seq<string>): string
    requires texts != []
  {
    if |texts| == 1 then texts[0] else texts[0] + ("/" + Slashed(texts[1..]))
  }

  lemma FirstParsed(text: string, more: string, k: nat, n: nat, ns: seq<nat>)
    requires k < 8 && ReadsAs(text, n) && Parse(more, k + 1) == Some(ns)
    ensures Parse(text + ("/" + more), k) == Some([n] + ns)
  {
    assert Stops("/" + more);
    ParseMore(text + ("/" + more), k, n, more);
  }

  lemma OnlyParsed(text: string, k: nat, n: nat)
    requires k < 8 && ReadsAs(text, n)
    ensures Parse(text, k) == Some([n])
  {
    assert Stops("") && text + "" == text;
    ParseLast(text, k, n);
  }

  lemma {:induction false} SlashedRead(texts: seq<string>, ns: seq<nat>, k: nat)
    requires texts != [] && |ns| == |texts| && k + |texts| <= 8
    requires forall i :: 0 <= i < |texts| ==> ReadsAs(texts[i], ns[i])
    ensures Parse(Slashed(texts), k) == Some(ns)
    decreases |texts|
  {
    if |texts| == 1 {
      OnlyParsed(texts[0], k, ns[0]);
      assert ns == [ns[0]];
    } else {
      SlashedRead(texts[1..], ns[1..], k + 1);
      FirstParsed(texts[0], Slashed(texts[1..]), k, ns[0], ns[1..]);
      assert ns == [ns[0]] + ns[1..];
    }
  }

  /** A stack of up to eight labels is read whatever notation each of them has. */
  lemma WrittenRead(ws: seq<Written>)
    requires 1 <= |ws| <= 8 && forall i :: 0 <= i < |ws| ==> Proper(ws[i])
    ensures Parse(Slashed(seq(|ws|, i requires 0 <= i < |ws| => LabelText(ws[i]))), 0) ==
            Some(seq(|ws|, i requires 0 <= i < |ws| => ws[i].n))
  {
    var texts := seq(|ws|, i requires 0 <= i < |ws| => LabelText(ws[i]));
    var ns := seq(|ws|, i requires 0 <= i < |ws| => ws[i].n);
    forall i | 0 <= i < |ws| ensures ReadsAs(texts[i], ns[i]) {
      LabelReads(ws[i]);
    }
    SlashedRead(texts, ns, 0);
  }
}
