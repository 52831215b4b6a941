/** `InlineStatement.validate`: from an inline expression of a policy file to a C expression. */
module InlineStatements {
  import opened CExpressions
  import opened Decimals
  import opened JavaStrings
  import opened Options

  /** A `double`. */
  datatype Double = Finite(value: real) | Infinite(negative: bool) | NaN

  /** `Double.parseDouble`, where `None` is a `NumberFormatException`. */
  type ParseDouble = string -> Option<Double>

  /** It reads the integers that fit an `int` exactly. */
  ghost predicate ReadsIntegers(parse: ParseDouble) {
    forall n | IsInt(n) :: parse(Signed(n)) == Some(Finite(n as real))
  }

  function Clamp(n: int): (r: int)
    ensures IsInt(r)
  {
    if n < -0x8000_0000 then -0x8000_0000 else if n > 0x7FFF_FFFF then 0x7FFF_FFFF else n
  }

  /** The cast from `double` to `int`: towards zero, up to the ends of the range. */
  function ToInt(d: Double): (r: int)
    ensures IsInt(r)
  {
    match d
    case NaN => 0
    case Infinite(negative) => if negative then -0x8000_0000 else 0x7FFF_FFFF
    case Finite(x) => Clamp(if x < 0.0 then -((-x).Floor) else x.Floor)
  }

  /** What a call of the translator can come to: C text, `null`, or an exception. */
  datatype Outcome = Accepted(text: string) | Rejected | Threw

  function ValidateField(s: string, fields: seq<string>, prefix: string): Option<string> {
    var tokens := Split(s, '.');
    if |tokens| != 2 || Trim(tokens[1]) !in fields then None else Some(prefix + Trim(tokens[1]))
  }

  function ValidateTerm(parse: ParseDouble, s: string): Option<string> {
    if StartsWith(s, "Queue") then ValidateField(s, QUEUE_FIELDS, QUEUE)
    else if StartsWith(s, "Packet") then ValidateField(s, HEADER_FIELDS, HEADER)
    else
      var d := parse(Trim(s));
      if d.None? then None else Some(Signed(ToInt(d.value)))
  }

  function ValidateTokens(parse: ParseDouble, tokens: seq<string>): (r: Outcome)
    ensures !r.Threw?
  {
    if |tokens| == 1 then
      var t := ValidateTerm(parse, Trim(tokens[0]));
      if t.None? then Rejected else Accepted(t.value)
    else if |tokens| == 3 then
      var l := ValidateTerm(parse, Trim(tokens[0]));
      if l.None? then Rejected else
      var r := ValidateTerm(parse, Trim(tokens[2]));
      if r.None? || RelationOf(Trim(tokens[1])).None? then Rejected else
      Accepted("(" + (l.value + (" " + (Trim(tokens[1]) + (" " + (r.value + ")"))))))
    else
      Rejected
  }

  function Validate(parse: ParseDouble, s: string): Outcome {
    if !StartsWith(s, "inline") then Rejected else
    var begin, end := IndexOf(s, '{'), IndexOf(s, '}');
    if begin == -1 || end == -1 then Rejected
    else if end < begin + 1 then Threw
    else ValidateTokens(parse, Split(s[begin + 1..end], ' '))
  }

  // The text of an expression in a policy file.

  function TermSource(t: Term): string {
    match t
    case QueueField(x) => "Queue" + ['.'] + x
    case HeaderField(x) => "Packet" + ['.'] + x
    case Number(n) => Signed(n)
  }

  function Body(e: Expr): string {
    match e
    case Plain(t) => TermSource(t)
    case Compare(l, op, r) => TermSource(l) + [' '] + (RelationText(op) + [' '] + TermSource(r))
  }

  function Source(e: Expr): string {
    "inline" + ['{'] + (Body(e) + ['}'] + [])
  }

  /** A text of visible characters, none of them a brace. */
  predicate Solid(s: string) {
    forall c <- s :: c > ' ' && c != '{' && c != '}'
  }

  lemma SolidDigits(n: nat)
    ensures Solid(Digits(n)) && Digits(n) != [] && IsDigit(Digits(n)[0])
  {
    DigitsValue(n);
  }

  lemma SolidTerm(t: Term)
    requires KnownTerm(t)
    ensures Solid(TermSource(t)) && TermSource(t) != []
  {
    match t
    case QueueField(x) => SolidField("Queue", x);
    case HeaderField(x) => SolidField("Packet", x);
    case Number(n) => SolidDigits(if n < 0 then -n else n);
  }

  lemma SolidField(base: string, x: string)
    requires Solid(base) && (x in QUEUE_FIELDS || x in HEADER_FIELDS)
    ensures Solid(base + ['.'] + x) && base + ['.'] + x != []
  {
    FieldsAreWords(x);
    assert Solid(x) && Solid(['.']);
    SolidBoth(base, ['.']);
    SolidBoth(base + ['.'], x);
  }

  lemma SolidBoth(a: string, b: string)
    requires Solid(a) && Solid(b)
    ensures Solid(a + b)
  {
  }

  lemma SolidTrim(s: string)
    requires Solid(s)
    ensures Trim(s) == s && ' ' !in s && '{' !in s && '}' !in s
  {
    if s != [] {
      assert s[0] in s && s[|s| - 1] in s;
    }
    TrimSame(s);
  }

  lemma TermShape(t: Term)
    requires KnownTerm(t)
    ensures var s := TermSource(t); s != [] && Trim(s) == s && ' ' !in s && '{' !in s && '}' !in s
  {
    SolidTerm(t);
    SolidTrim(TermSource(t));
  }

  lemma RelationShape(op: Relation)
    ensures var s := RelationText(op); s != [] && Trim(s) == s && ' ' !in s && '{' !in s && '}' !in s
  {
  }

  lemma NoBrace(e: Expr, c: char)
    requires Known(e) && c in {'{', '}'}
    ensures c !in Body(e)
  {
    match e
    case Plain(t) =>
      TermShape(t);
    case Compare(l, op, r) =>
      TermShape(l);
      RelationShape(op);
      TermShape(r);
      Absent(c, RelationText(op), [' ']);
      Absent(c, RelationText(op) + [' '], TermSource(r));
      Absent(c, TermSource(l), [' ']);
      Absent(c, TermSource(l) + [' '], RelationText(op) + [' '] + TermSource(r));
  }

  lemma FieldAccepted(base: string, x: string, fields: seq<string>, prefix: string)
    requires '.' !in base && (x in QUEUE_FIELDS || x in HEADER_FIELDS) && x in fields
    ensures ValidateField(base + ['.'] + x, fields, prefix) == Some(prefix + x)
  {
    FieldsAreWords(x);
    SplitTwo(base, '.', x);
    TrimSame(x);
  }

  lemma NumberAccepted(parse: ParseDouble, n: int)
    requires ReadsIntegers(parse) && IsInt(n)
    ensures ValidateTerm(parse, Signed(n)) == Some(Signed(n))
  {
    SolidTerm(Number(n));
    SolidTrim(Signed(n));
    SolidDigits(if n < 0 then -n else n);
    assert Signed(n)[0] == '-' || IsDigit(Signed(n)[0]);
    assert ToInt(Finite(n as real)) == n;
  }

  lemma TermAccepted(parse: ParseDouble, t: Term)
    requires ReadsIntegers(parse) && KnownTerm(t)
    ensures ValidateTerm(parse, TermSource(t)) == Some(TermText(t))
  {
    match t
    case QueueField(x) =>
      FieldAccepted("Queue", x, QUEUE_FIELDS, QUEUE);
    case HeaderField(x) =>
      FieldAccepted("Packet", x, HEADER_FIELDS, HEADER);
      assert TermSource(t)[0] == 'P';
    case Number(n) =>
      NumberAccepted(parse, n);
  }

  function Tokens(e: Expr): seq<string> {
    match e
    case Plain(t) => [TermSource(t)]
    case Compare(l, op, r) => [TermSource(l), RelationText(op), TermSource(r)]
  }

  lemma BodyTokens(e: Expr)
    requires Known(e)
    ensures Split(Body(e), ' ') == Tokens(e)
  {
    match e
    case Plain(t) =>
      TermShape(t);
    case Compare(l, op, r) =>
      TermShape(l);
      RelationShape(op);
      TermShape(r);
      SplitThree(TermSource(l), ' ', RelationText(op), TermSource(r));
  }

  lemma TokensAccepted(parse: ParseDouble, e: Expr)
    requires ReadsIntegers(parse) && Known(e)
    ensures ValidateTokens(parse, Tokens(e)) == Accepted(Text(e))
  {
    match e
    case Plain(t) =>
      TermShape(t);
      TermAccepted(parse, t);
    case Compare(l, op, r) =>
      TermShape(l);
      RelationShape(op);
      TermShape(r);
      TermAccepted(parse, l);
      TermAccepted(parse, r);
      RelationNamed(op);
  }

  lemma RelationNamed(op: Relation)
    ensures RelationOf(RelationText(op)) == Some(op)
  {
  }

  lemma InlineWord(head: string)
    requires head == "inline"
    ensures '{' !in head && '}' !in head
  {
  }

  /** A text whose braces enclose `body` is judged by the words of `body`. */
  lemma ByItsWords(parse: ParseDouble, head: string, body: string, s: string)
    requires head == "inline" && s == head + ['{'] + (body + ['}'] + []) && '{' !in body && '}' !in body
    ensures Validate(parse, s) == ValidateTokens(parse, Split(body, ' '))
  {
    InlineWord(head);
    Enclosed('{', '}', head, body);
  }

  lemma Printed(parse: ParseDouble, e: Expr)
    requires ReadsIntegers(parse) && Known(e)
    ensures Validate(parse, Source(e)) == Accepted(Text(e))
  {
    NoBrace(e, '{');
    NoBrace(e, '}');
    ByItsWords(parse, "inline", Body(e), Source(e));
    BodyTokens(e);
    TokensAccepted(parse, e);
  }

  /** Every expression of the language, written in a policy file, is translated to C that has the same value
      everywhere. */
  lemma Translates(parse: ParseDouble, e: Expr, env: Environment)
    requires ReadsIntegers(parse) && Known(e)
    ensures Validate(parse, Source(e)) == Accepted(Text(e))
    ensures Read(Text(e)).Some? && Evaluate(Read(Text(e)).value, env) == Evaluate(e, env)
  {
    Printed(parse, e);
    TextRead(e);
  }

  lemma TermSound(parse: ParseDouble, s: string) returns (t: Term)
    requires ValidateTerm(parse, s).Some?
    ensures KnownTerm(t) && ValidateTerm(parse, s).value == TermText(t)
  {
    if StartsWith(s, "Queue") {
      t := QueueField(Trim(Split(s, '.')[1]));
    } else if StartsWith(s, "Packet") {
      t := HeaderField(Trim(Split(s, '.')[1]));
    } else {
      t := Number(ToInt(parse(Trim(s)).value));
    }
  }

  /** The cast cuts a number off towards zero; one that is out of range becomes the nearest end of it. */
  lemma CutOff(x: real)
    ensures var n := ToInt(Finite(x)) as real;
            && (0.0 <= x < 2147483648.0 ==> n <= x < n + 1.0)
            && (-2147483649.0 < x <= 0.0 ==> n - 1.0 < x <= n)
            && (x >= 2147483648.0 ==> n == 2147483647.0)
            && (x <= -2147483649.0 ==> n == -2147483648.0)
  {
  }

  /** Every number that can be parsed becomes the integer it is cut off to, whatever its notation. */
  lemma NumberTranslated(parse: ParseDouble, s: string, d: Double)
    requires !StartsWith(s, "Queue") && !StartsWith(s, "Packet") && parse(Trim(s)) == Some(d)
    ensures ValidateTerm(parse, s).Some? && Read(ValidateTerm(parse, s).value) == Some(Plain(Number(ToInt(d))))
  {
    TextRead(Plain(Number(ToInt(d))));
  }

  lemma RelationFound(s: string)
    requires RelationOf(s).Some?
    ensures RelationText(RelationOf(s).value) == s
  {
  }

  /** Whatever text is given, nothing but an expression of the language ever comes out. */
  lemma Sound(parse: ParseDouble, s: string) returns (e: Expr)
    requires Validate(parse, s).Accepted?
    ensures Known(e) && Validate(parse, s).text == Text(e) && Read(Text(e)) == Some(e)
  {
    var tokens := Split(s[IndexOf(s, '{') + 1..IndexOf(s, '}')], ' ');
    if |tokens| == 1 {
      var t := TermSound(parse, Trim(tokens[0]));
      e := Plain(t);
    } else {
      var l := TermSound(parse, Trim(tokens[0]));
      var r := TermSound(parse, Trim(tokens[2]));
      RelationFound(Trim(tokens[1]));
      e := Compare(l, RelationOf(Trim(tokens[1])).value, r);
    }
    TextRead(e);
  }
}
