/** The C expressions that inline statements become, with their meaning. */
module CExpressions {
  import opened Decimals
  import opened Options
  import opened Sequences

  const QUEUE_FIELDS: seq<string> := ["max_len", "len", "dropped", "total"]
  const HEADER_FIELDS: seq<string> := ["tos", "tot_len", "id", "ttl", "protocol", "saddr", "daddr"]

  const QUEUE := "queue->"
  const CAST := "(struct iphdr *)"
  const HEADER := "(" + (CAST + "skb_header_pointer(skb, 0, 0, NULL)" + ")->")

  /** A field of the queue, a field of the packet's IP header, or a number. */
  datatype Term = QueueField(name: string) | HeaderField(name: string) | Number(n: int)

  datatype Relation = Eq | Ne | Lt | Le | Gt | Ge

  datatype Expr = Plain(t: Term) | Compare(l: Term, op: Relation, r: Term)

  predicate IsInt(n: int) {
    -0x8000_0000 <= n < 0x8000_0000
  }

  predicate KnownTerm(t: Term) {
    match t
    case QueueField(x) => x in QUEUE_FIELDS
    case HeaderField(x) => x in HEADER_FIELDS
    case Number(n) => IsInt(n)
  }

  predicate Known(e: Expr) {
    match e
    case Plain(t) => KnownTerm(t)
    case Compare(l, _, r) => KnownTerm(l) && KnownTerm(r)
  }

  datatype Environment = Environment(queue: string -> int, header: string -> int)

  function TermValue(t: Term, env: Environment): int {
    match t
    case QueueField(x) => env.queue(x)
    case HeaderField(x) => env.header(x)
    case Number(n) => n
  }

  predicate Holds(a: int, op: Relation, b: int) {
    match op
    case Eq => a == b
    case Ne => a != b
    case Lt => a < b
    case Le => a <= b
    case Gt => a > b
    case Ge => a >= b
  }

  function Evaluate(e: Expr, env: Environment): int {
    match e
    case Plain(t) => TermValue(t, env)
    case Compare(l, op, r) => if Holds(TermValue(l, env), op, TermValue(r, env)) then 1 else 0
  }

  function RelationText(op: Relation): string {
    match op
    case Eq => "=="
    case Ne => "!="
    case Lt => "<"
    case Le => "<="
    case Gt => ">"
    case Ge => ">="
  }

  function RelationOf(s: string): Option<Relation> {
    if s == "==" then Some(Eq)
    else if s == "!=" then Some(Ne)
    else if s == "<" then Some(Lt)
    else if s == "<=" then Some(Le)
    else if s == ">" then Some(Gt)
    else if s == ">=" then Some(Ge)
    else None
  }

  function TermText(t: Term): string {
    match t
    case QueueField(x) => QUEUE + x
    case HeaderField(x) => HEADER + x
    case Number(n) => Signed(n)
  }

  function Text(e: Expr): string {
    match e
    case Plain(t) => TermText(t)
    case Compare(l, op, r) => "(" + (TermText(l) + (" " + (RelationText(op) + (" " + (TermText(r) + ")")))))
  }

  lemma HeaderSpelled()
    ensures HEADER == "((struct iphdr *)" + "skb_header_pointer(skb, 0, 0, NULL))->"
  {
    var call, end := "skb_header_pointer(skb, 0, 0, NULL)", ")->";
    Assoc(CAST, call, end);
    Assoc("(", CAST, call + end);
  }

  /** The fields of the queue and of the IP header, spelled out. */
  lemma TermTexts(x: string)
    ensures TermText(QueueField(x)) == "queue->" + x
    ensures TermText(HeaderField(x)) == "((struct iphdr *)" + "skb_header_pointer(skb, 0, 0, NULL))->" + x
  {
    HeaderSpelled();
  }

  lemma RelationTexts()
    ensures RelationText(Eq) == "==" && RelationText(Ne) == "!="
    ensures RelationText(Lt) == "<" && RelationText(Le) == "<=" && RelationText(Gt) == ">" && RelationText(Ge) == ">="
  {
  }

  lemma FieldNames(x: string)
    ensures KnownTerm(QueueField(x)) <==> x in {"max_len", "len", "dropped", "total"}
    ensures KnownTerm(HeaderField(x)) <==> x in {"tos", "tot_len", "id", "ttl", "protocol", "saddr", "daddr"}
  {
  }

  // A reader of this much C.

  predicate IsWordChar(c: char) {
    'a' <= c <= 'z' || c == '_'
  }

  /** How many characters of a name `s` starts with. */
  function WordCount(s: string): (n: nat)
    ensures n <= |s|
  {
    if s == [] || !IsWordChar(s[0]) then 0 else 1 + WordCount(s[1..])
  }

  datatype Found<T> = Found(value: T, rest: string)

  function ReadNumber(s: string): Option<Found<nat>> {
    var k := DigitCount(s);
    if k == 0 then None else Some(Found(Value(s[..k]), s[k..]))
  }

  function ReadSigned(s: string): Option<Found<Term>> {
    var negative := s != [] && s[0] == '-';
    var found := ReadNumber(if negative then s[1..] else s);
    if found.None? then None
    else Some(Found(Number(if negative then 0 - found.value.value else found.value.value), found.value.rest))
  }

  function ReadTerm(s: string): Option<Found<Term>> {
    if QUEUE <= s then
      var rest := s[|QUEUE|..];
      Some(Found(QueueField(rest[..WordCount(rest)]), rest[WordCount(rest)..]))
    else if HEADER <= s then
      var rest := s[|HEADER|..];
      Some(Found(HeaderField(rest[..WordCount(rest)]), rest[WordCount(rest)..]))
    else
      ReadSigned(s)
  }

  function ReadRelation(s: string): Option<Found<Relation>> {
    var k := if |s| > 1 && s[1] == '=' then 2 else 1;
    if |s| < k || RelationOf(s[..k]).None? then None else Some(Found(RelationOf(s[..k]).value, s[k..]))
  }

  /** The expression a whole text is, if it is one. */
  function Read(s: string): Option<Expr> {
    if "(" <= s && !(HEADER <= s) then
      var l := ReadTerm(s[1..]);
      if l.None? || !(" " <= l.value.rest) then None else
      var op := ReadRelation(l.value.rest[1..]);
      if op.None? || !(" " <= op.value.rest) then None else
      var r := ReadTerm(op.value.rest[1..]);
      if r.None? || r.value.rest != ")" then None else
      Some(Compare(l.value.value, op.value.value, r.value.value))
    else
      var t := ReadTerm(s);
      if t.None? || t.value.rest != [] then None else Some(Plain(t.value.value))
  }

  /** No term goes on with these characters. */
  predicate Stops(rest: string) {
    rest == [] || (!IsWordChar(rest[0]) && !IsDigit(rest[0]))
  }

  predicate IsWord(s: string) {
    forall c <- s :: IsWordChar(c)
  }

  lemma {:induction false} WordCountIs(s: string, rest: string)
    requires IsWord(s) && Stops(rest)
    ensures WordCount(s + rest) == |s|
  {
    if s != [] {
      assert (s + rest)[1..] == s[1..] + rest;
      WordCountIs(s[1..], rest);
    } else {
      assert s + rest == rest;
    }
  }

  lemma FieldsAreWords(x: string)
    requires x in QUEUE_FIELDS || x in HEADER_FIELDS
    ensures IsWord(x) && x != []
  {
  }

  lemma NumberRead(n: nat, rest: string)
    requires Stops(rest)
    ensures ReadNumber(Digits(n) + rest) == Some(Found(n, rest))
  {
    DigitsValue(n);
    DigitCountIs(Digits(n), rest);
    assert (Digits(n) + rest)[..|Digits(n)|] == Digits(n) && (Digits(n) + rest)[|Digits(n)|..] == rest;
  }

  lemma PrefixShape()
    ensures |QUEUE| > 0 && QUEUE[0] == 'q'
    ensures |HEADER| > 2 && HEADER[0] == HEADER[1] == '(' && HEADER[2] == 's'
  {
    assert CAST[0] == '(' && CAST[1] == 's';
  }

  lemma FieldRead(prefix: string, x: string, rest: string)
    requires IsWord(x) && Stops(rest)
    ensures prefix <= prefix + x + rest
    ensures var s := (prefix + x + rest)[|prefix|..];
            s[..WordCount(s)] == x && s[WordCount(s)..] == rest
  {
    assert (prefix + x + rest)[|prefix|..] == x + rest;
    WordCountIs(x, rest);
  }

  lemma QueueFieldRead(x: string, rest: string)
    requires IsWord(x) && Stops(rest)
    ensures ReadTerm(QUEUE + x + rest) == Some(Found(QueueField(x), rest))
  {
    FieldRead(QUEUE, x, rest);
  }

  lemma HeaderFieldRead(x: string, rest: string)
    requires IsWord(x) && Stops(rest)
    ensures ReadTerm(HEADER + x + rest) == Some(Found(HeaderField(x), rest))
  {
    FieldRead(HEADER, x, rest);
    PrefixShape();
    assert (HEADER + x + rest)[0] == HEADER[0];
  }

  lemma FirstOf(a: string, b: string)
    requires a != []
    ensures (a + b)[0] == a[0]
  {
  }

  /** A text that starts like a number is read as one. */
  lemma NumberStart(s: string)
    requires s != [] && (IsDigit(s[0]) || s[0] == '-')
    ensures ReadTerm(s) == ReadSigned(s) && !("(" <= s)
  {
    PrefixShape();
  }

  lemma WithSign(d: string, n: nat, rest: string)
    requires ReadNumber(d) == Some(Found(n, rest))
    ensures ReadSigned("-" + d) == Some(Found(Number(0 - n), rest))
  {
    assert ("-" + d)[1..] == d;
  }

  lemma WithoutSign(d: string, n: nat, rest: string)
    requires d != [] && IsDigit(d[0]) && ReadNumber(d) == Some(Found(n, rest))
    ensures ReadSigned(d) == Some(Found(Number(n), rest))
  {
  }

  lemma SignedStart(n: int)
    ensures Signed(n) != [] && (IsDigit(Signed(n)[0]) || Signed(n)[0] == '-')
  {
    DigitsValue(if n < 0 then -n else n);
  }

  lemma SignedRead(n: int, rest: string)
    requires Stops(rest)
    ensures ReadSigned(Signed(n) + rest) == Some(Found(Number(n), rest))
  {
    var k := if n < 0 then -n else n;
    NumberRead(k, rest);
    if n < 0 {
      WithSign(Digits(k) + rest, k, rest);
      Assoc("-", Digits(k), rest);
    } else {
      SignedStart(n);
      FirstOf(Digits(k), rest);
      WithoutSign(Digits(k) + rest, k, rest);
    }
  }

  lemma TermRead(t: Term, rest: string)
    requires KnownTerm(t) && Stops(rest)
    ensures ReadTerm(TermText(t) + rest) == Some(Found(t, rest))
  {
    match t
    case QueueField(x) =>
      FieldsAreWords(x);
      QueueFieldRead(x, rest);
    case HeaderField(x) =>
      FieldsAreWords(x);
      HeaderFieldRead(x, rest);
    case Number(n) =>
      SignedRead(n, rest);
      SignedStart(n);
      FirstOf(Signed(n), rest);
      NumberStart(Signed(n) + rest);
  }

  lemma RelationRead(op: Relation, rest: string)
    ensures ReadRelation(RelationText(op) + (" " + rest)) == Some(Found(op, " " + rest))
  {
    var s := RelationText(op) + (" " + rest);
    assert s[|RelationText(op)|..] == " " + rest;
    assert s[..|RelationText(op)|] == RelationText(op);
  }

  lemma TermStart(t: Term)
    ensures var s := TermText(t); s != [] && (s[0] == '(' ==> |s| > 1 && s[1] == '(')
  {
    PrefixShape();
    if t.Number? {
      DigitsValue(if t.n < 0 then -t.n else t.n);
    } else {
      FirstOf(QUEUE, t.name);
      FirstOf(HEADER, t.name);
    }
  }

  lemma NotAHeader(l: Term, rest: string)
    ensures !(HEADER <= "(" + (TermText(l) + rest))
  {
    PrefixShape();
    TermStart(l);
    var s := "(" + (TermText(l) + rest);
    assert s[1] == TermText(l)[0];
    if s[1] == '(' {
      assert s[2] == TermText(l)[1];
    }
  }

  lemma PlainRead(t: Term)
    requires KnownTerm(t)
    ensures Read(TermText(t)) == Some(Plain(t))
  {
    TermRead(t, []);
    assert TermText(t) + [] == TermText(t);
    TermStart(t);
    if t.HeaderField? {
      assert HEADER <= TermText(t);
    } else {
      NoParenthesis(t);
    }
  }

  lemma NoParenthesis(t: Term)
    requires !t.HeaderField?
    ensures !("(" <= TermText(t))
  {
    PrefixShape();
    match t
    case QueueField(x) =>
      FirstOf(QUEUE, x);
    case Number(n) =>
      SignedStart(n);
      NumberStart(Signed(n));
  }

  /** The text of an expression denotes that expression and no other. */
  lemma TextRead(e: Expr)
    requires Known(e)
    ensures Read(Text(e)) == Some(e)
  {
    match e
    case Plain(t) =>
      PlainRead(t);
    case Compare(l, op, r) =>
      var tail3 := TermText(r) + ")";
      var tail2 := RelationText(op) + (" " + tail3);
      TermRead(l, " " + tail2);
      RelationRead(op, tail3);
      TermRead(r, ")");
      NotAHeader(l, " " + tail2);
      Dropped(TermText(l) + (" " + tail2), '(');
      Dropped(tail2, ' ');
      Dropped(tail3, ' ');
  }

  lemma Dropped(s: string, c: char)
    ensures [c] <= [c] + s && ([c] + s)[1..] == s
  {
  }
}
