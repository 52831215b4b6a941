/** What the checks of the policy compiler refuse: each passes exactly what is listed here. */
module PolicyRefusals {
  import opened CExpressions
  import opened Decimals
  import opened InlineStatements
  import opened JavaStrings
  import opened Options
  import opened Policies
  import opened PolicyFiles
  import opened PolicyText
  import opened PolicyTyping
  import opened Routines

  // Attributes and header names.

  /** An attribute is one of a queue, or of the port, if and only if it is one of the six, and then it is that slot. */
  lemma AttributeIff(attr: string, slot: RoutineType)
    ensures QueueSlot(attr) == Some(slot) <==> OfQueue(slot) && attr == AttributeName(slot)
    ensures PortSlot(attr) == Some(slot) <==> !OfQueue(slot) && attr == AttributeName(slot)
  {
  }

  /** Of the names with one dot, those with an `h` behind it are names of headers. */
  lemma HeaderNameIff(base: string, suffix: string)
    requires '.' !in base && '.' !in suffix && suffix != []
    ensures IsHeaderName(base + ['.'] + suffix) <==> suffix == "h"
  {
    SplitTwo(base, '.', suffix);
  }

  // Sizes.

  lemma SignRemoved(g: Sign, digits: string)
    requires digits != [] && IsDigit(digits[0])
    ensures var s := SignText(g) + digits; s != [] && Unsigned(s) == digits && (s[0] == '-' <==> g.Minus?)
  {
    var s := SignText(g) + digits;
    match g
    case Bare => assert s == digits;
    case Plus => assert s[0] == '+' && s[1..] == digits;
    case Minus => assert s[0] == '-' && s[1..] == digits;
  }

  /** A number with any sign and any zeros in front is read if and only if it fits an `int`. */
  lemma ParseIntIff(g: Sign, digits: string)
    requires digits != [] && AllDigits(digits)
    ensures var n := if g.Minus? then 0 - Value(digits) else Value(digits);
            ParseInt(SignText(g) + digits) == if IsInt(n) then Some(n) else None
  {
    SignRemoved(g, digits);
  }

  /** Nothing else is read. */
  lemma ParseIntOnly(s: string)
    requires ParseInt(s).Some?
    ensures exists g: Sign :: SignText(g) <= s && |s| > |SignText(g)| && AllDigits(s[|SignText(g)|..])
  {
    if s[0] == '-' {
      assert SignText(Minus) <= s;
    } else if s[0] == '+' {
      assert SignText(Plus) <= s;
    } else {
      assert SignText(Bare) <= s && s[0..] == s;
    }
  }

  // Expressions.

  lemma FieldIff(base: string, x: string, fields: seq<string>, prefix: string)
    requires '.' !in base && '.' !in x && Visible(x)
    ensures ValidateField(base + ['.'] + x, fields, prefix) == if x in fields then Some(prefix + x) else None
  {
    SplitTwo(base, '.', x);
    TrimAround(x);
  }

  /** A field of the queue, or of the packet, is accepted if and only if it is one of those listed. */
  lemma FieldsIff(parse: ParseDouble, x: string)
    requires '.' !in x && Visible(x)
    ensures ValidateTerm(parse, "Queue" + ['.'] + x) ==
            if KnownTerm(QueueField(x)) then Some(TermText(QueueField(x))) else None
    ensures ValidateTerm(parse, "Packet" + ['.'] + x) ==
            if KnownTerm(HeaderField(x)) then Some(TermText(HeaderField(x))) else None
  {
    FieldIff("Queue", x, QUEUE_FIELDS, QUEUE);
    FieldIff("Packet", x, HEADER_FIELDS, HEADER);
    assert ("Packet" + ['.'] + x)[0] == 'P';
  }

  /** Anything else is accepted if and only if it is a number. */
  lemma NumbersIff(parse: ParseDouble, s: string)
    requires !StartsWith(s, "Queue") && !StartsWith(s, "Packet")
    ensures ValidateTerm(parse, s).Some? <==> parse(Trim(s)).Some?
  {
  }

  /** A word of an inline expression. */
  predicate IsWord(s: string) {
    s != [] && forall c <- s :: c > ' ' && c != '{' && c != '}'
  }

  lemma WordShape(s: string)
    requires IsWord(s)
    ensures Visible(s) && Trim(s) == s && ' ' !in s && '{' !in s && '}' !in s
  {
    assert s[0] in s && s[|s| - 1] in s;
    TrimAround(s);
  }

  /** A comparison is accepted if and only if its two sides are and the sign between them is one of the six. */
  lemma ComparisonIff(parse: ParseDouble, a: string, o: string, b: string)
    requires IsWord(a) && IsWord(o) && IsWord(b)
    ensures var s := "inline" + ['{'] + ((a + [' '] + (o + [' '] + b)) + ['}'] + []);
            InlineStatements.Validate(parse, s).Accepted? <==>
            && ValidateTerm(parse, a).Some? && ValidateTerm(parse, b).Some?
            && o in {"==", "!=", "<", "<=", ">", ">="}
  {
    var body := a + [' '] + (o + [' '] + b);
    WordShape(a);
    WordShape(o);
    WordShape(b);
    BodyLacks(a, o, b, '{');
    BodyLacks(a, o, b, '}');
    SplitThree(a, ' ', o, b);
    ByItsWords(parse, "inline", body, "inline" + ['{'] + (body + ['}'] + []));
    RelationIff(o);
  }

  lemma BodyLacks(a: string, o: string, b: string, c: char)
    requires c != ' ' && c !in a && c !in o && c !in b
    ensures c !in a + [' '] + (o + [' '] + b)
  {
    Absent(c, o, [' ']);
    Absent(c, o + [' '], b);
    Absent(c, a, [' ']);
    Absent(c, a + [' '], o + [' '] + b);
  }

  lemma RelationIff(o: string)
    ensures RelationOf(o).Some? <==> o in {"==", "!=", "<", "<=", ">", ">="}
  {
  }

  /** A single word is accepted if and only if it is a term. */
  lemma SingleIff(parse: ParseDouble, a: string)
    requires IsWord(a)
    ensures InlineStatements.Validate(parse, "inline" + ['{'] + (a + ['}'] + [])).Accepted? <==>
            ValidateTerm(parse, a).Some?
  {
    WordShape(a);
    ByItsWords(parse, "inline", a, "inline" + ['{'] + (a + ['}'] + []));
  }

  // Calls.

  /** The values, if all texts are numbers. */
  function Parsed(parse: ParseDouble, texts: seq<string>): Option<seq<Double>> {
    if forall i :: 0 <= i < |texts| ==> parse(texts[i]).Some?
    then Some(seq(|texts|, i requires 0 <= i < |texts| && parse(texts[i]).Some? => parse(texts[i]).value))
    else None
  }

  lemma {:induction false} ValuesMissing(parse: ParseDouble, pieces: seq<string>, texts: seq<string>, k: nat)
    requires AreParts(pieces, texts) && k < |texts| && parse(texts[k]).None?
    ensures Values(parse, pieces).None?
  {
    assert Trim(pieces[0]) == texts[0];
    if k > 0 {
      ValuesMissing(parse, pieces[1..], texts[1..], k - 1);
    }
  }

  lemma ListRefused(parse: ParseDouble, routines: map<string, RoutineType>, rhs: string, slot: RoutineType,
                    inside: string)
    requires !StartsWith(rhs, "inline")
    requires '(' in rhs && ')' in rhs && IndexOf(rhs, '(') < IndexOf(rhs, ')')
    requires rhs[IndexOf(rhs, '(') + 1..IndexOf(rhs, ')')] == inside
    requires Split(Trim(inside), ',') != [] && Values(parse, Split(Trim(inside), ',')).None?
    ensures Bind(parse, routines, rhs, slot) == NotBound
  {
  }

  lemma ValuesRefused(parse: ParseDouble, texts: seq<string>, k: nat)
    requires AreArguments(texts) && k < |texts| && parse(texts[k]).None?
    ensures var tokens := Split(Trim(Join(texts)), ','); tokens != [] && Values(parse, tokens).None?
  {
    JoinVisible(texts);
    TrimAround(Join(texts));
    ArgumentsSeparable(texts);
    JoinSplit(texts);
    ValuesMissing(parse, Split(Join(texts), ','), texts, k);
  }

  lemma RoutineRefused(parse: ParseDouble, routines: map<string, RoutineType>, rhs: string, slot: RoutineType)
    requires !StartsWith(rhs, "inline")
    requires RoutineName(rhs) !in routines || routines[RoutineName(rhs)] != slot
    ensures Bind(parse, routines, rhs, slot) == NotBound
  {
  }

  lemma CallIsNoInline(name: string, texts: seq<string>)
    requires texts != [] && !StartsWith(name, "inline")
    ensures !StartsWith(CallSource(name, texts), "inline")
  {
    NotPrefix(name, ['('] + (Join(texts) + [')'] + []), "inline");
    GroupRight(name, '(', Join(texts) + [')'] + []);
  }

  lemma NumbersRefused(parse: ParseDouble, routines: map<string, RoutineType>, name: string, slot: RoutineType,
                       texts: seq<string>, k: nat)
    requires IsName(name) && !StartsWith(name, "inline") && AreArguments(texts)
    requires k < |texts| && parse(texts[k]).None?
    ensures Bind(parse, routines, CallSource(name, texts), slot) == NotBound
  {
    CallParts(name, texts);
    CallIsNoInline(name, texts);
    ValuesRefused(parse, texts, k);
    ListRefused(parse, routines, CallSource(name, texts), slot, Join(texts));
  }

  /** A call with a list of texts is bound, with their values, if and only if its routine has the type of the slot and
      all the texts are numbers; otherwise it is refused. */
  lemma CallBoundIff(parse: ParseDouble, routines: map<string, RoutineType>, name: string, slot: RoutineType,
                     texts: seq<string>)
    requires IsName(name) && !StartsWith(name, "inline")
    requires texts != [] && forall i :: 0 <= i < |texts| ==> IsNumeral(texts[i])
    ensures Bind(parse, routines, CallSource(name, texts), slot) ==
            if name in routines && routines[name] == slot && Parsed(parse, texts).Some?
            then Bound(Call(slot, name, Parsed(parse, texts))) else NotBound
  {
    if name !in routines || routines[name] != slot {
      CallParts(name, texts);
      CallIsNoInline(name, texts);
      RoutineRefused(parse, routines, CallSource(name, texts), slot);
    } else if Parsed(parse, texts).Some? {
      CallBound(parse, routines, name, slot, texts, Parsed(parse, texts).value);
    } else {
      var k :| 0 <= k < |texts| && parse(texts[k]).None?;
      NumbersRefused(parse, routines, name, slot, texts, k);
    }
  }

  // Signatures.

  /** The words of the return type, and the structures of the parameters. */
  function Signature(t: RoutineType): (seq<string>, seq<string>) {
    match t
    case CongestionCondition => (["bool"], ["oq_queue*"])
    case CongestionAction => (["int"], ["oq_queue*", "sk_buff*"])
    case AdmissionPriority => (["unsigned", "long"], ["sk_buff*"])
    case ProcessingPriority => (["unsigned", "long"], ["sk_buff*"])
    case QueueSelector => (["int"], ["Qdisc*", "sk_buff*"])
    case SchedulingPriority => (["int"], ["Qdisc*"])
  }

  predicate IsStruct(param: string, struct_: string) {
    |Words(param)| == 3 && Trim(Words(param)[0]) == "struct" && Trim(Words(param)[1]) == struct_
  }

  /** A header line that passes for a type has the return type of it and one word more, which is the name, then the
      structures of it as parameters, then an `int`, and then the three dots. */
  lemma SignatureNeeded(t: RoutineType, line: string)
    requires Routines.Validate(t, line).Some?
    ensures var (returns_, structs) := Signature(t);
            var words, params := Words(Split(line, '(')[0]), HeaderParams(line);
            && |words| == |returns_| + 1 && words[|returns_|] == Routines.Validate(t, line).value
            && (forall i :: 0 <= i < |returns_| ==> Trim(words[i]) == returns_[i])
            && |params| == |structs| + 2
            && (forall i :: 0 <= i < |structs| ==> IsStruct(params[i], structs[i]))
            && |Words(params[|structs|])| == 2 && Trim(Words(params[|structs|])[0]) == "int"
            && Trim(params[|structs| + 1]) == "..."
  {
    FirstWords(t, line);
    forall i | 0 <= i < |Structs(t)| ensures IsStruct(HeaderParams(line)[i], Structs(t)[i]) {
      assert StructOk(HeaderParams(line)[i], Structs(t)[i]);
    }
    assert CountOk(HeaderParams(line)[|Structs(t)|]);
  }
}
