/** The routines a policy may call: the signatures their headers must have and the calls made to them. */
module Routines {
  import opened Decimals
  import opened InlineStatements
  import opened JavaStrings
  import opened Options

  /** What a routine is for. A line without an annotation has no such type. */
  datatype RoutineType =
    | CongestionCondition
    | CongestionAction
    | AdmissionPriority
    | ProcessingPriority
    | QueueSelector
    | SchedulingPriority

  /** The words of the return type. */
  function ReturnWords(t: RoutineType): seq<string> {
    match t
    case CongestionCondition => ["bool"]
    case CongestionAction => ["int"]
    case AdmissionPriority => ["unsigned", "long"]
    case ProcessingPriority => ["unsigned", "long"]
    case QueueSelector => ["int"]
    case SchedulingPriority => ["int"]
  }

  /** The structures its leading parameters point to. */
  function Structs(t: RoutineType): seq<string> {
    match t
    case CongestionCondition => ["oq_queue*"]
    case CongestionAction => ["oq_queue*", "sk_buff*"]
    case AdmissionPriority => ["sk_buff*"]
    case ProcessingPriority => ["sk_buff*"]
    case QueueSelector => ["Qdisc*", "sk_buff*"]
    case SchedulingPriority => ["Qdisc*"]
  }

  // The checks on a header line, which the compiler repeats for each type.

  function Words(s: string): seq<string> {
    Split(Trim(s), ' ')
  }

  predicate ReturnOk(t: RoutineType, words: seq<string>) {
    && |words| == |ReturnWords(t)| + 1
    && forall i :: 0 <= i < |ReturnWords(t)| ==> Trim(words[i]) == ReturnWords(t)[i]
  }

  predicate StructOk(param: string, struct_: string) {
    |Words(param)| == 3 && Trim(Words(param)[0]) == "struct" && Trim(Words(param)[1]) == struct_
  }

  predicate CountOk(param: string) {
    |Words(param)| == 2 && Trim(Words(param)[0]) == "int"
  }

  predicate ParamsOk(t: RoutineType, params: seq<string>) {
    var n := |Structs(t)|;
    && |params| == n + 2
    && (forall i :: 0 <= i < n ==> StructOk(params[i], Structs(t)[i]))
    && CountOk(params[n])
    && Trim(params[n + 1]) == "..."
  }

  /** The parameters a header line names. */
  function HeaderParams(line: string): seq<string> {
    var parts := Split(line, '(');
    if |parts| != 2 then [] else
    var tail := Split(parts[1], ')');
    if |tail| != 2 then [] else Split(tail[0], ',')
  }

  /** The name of the routine that a header line declares, if it has the signature of its type. */
  function Validate(t: RoutineType, line: string): Option<string> {
    var parts := Split(line, '(');
    if |parts| != 2 || !ReturnOk(t, Words(parts[0])) then None
    else if |Split(parts[1], ')')| != 2 || !ParamsOk(t, HeaderParams(line)) then None
    else Some(Words(parts[0])[|ReturnWords(t)|])
  }

  /** The name of a declared routine has no opening parenthesis. */
  lemma NameLacksParenthesis(t: RoutineType, line: string)
    requires Validate(t, line).Some?
    ensures '(' !in Validate(t, line).value
  {
    var head := Split(line, '(')[0];
    var i := |ReturnWords(t)|;
    if '(' in Words(head)[i] {
      SplitWithin(Trim(head), ' ', i, '(');
      TrimChars(head, '(');
      SplitWithin(line, '(', 0, '(');
    }
  }

  /** The first words of a valid header: of its return type and of its first parameter. */
  lemma FirstWords(t: RoutineType, line: string)
    requires Validate(t, line).Some?
    ensures |Split(line, '(')| == 2 && ReturnOk(t, Words(Split(line, '(')[0])) && ParamsOk(t, HeaderParams(line))
    ensures Trim(Words(Split(line, '(')[0])[0]) == ReturnWords(t)[0]
    ensures Trim(Words(HeaderParams(line)[0])[1]) == Structs(t)[0]
  {
    assert StructOk(HeaderParams(line)[0], Structs(t)[0]);
  }

  lemma SignaturesDiffer(t: RoutineType, u: RoutineType)
    requires ReturnWords(t)[0] == ReturnWords(u)[0] && Structs(t)[0] == Structs(u)[0] && |Structs(t)| == |Structs(u)|
    ensures t == u || {t, u} == {AdmissionPriority, ProcessingPriority}
  {
  }

  /** No header line passes for two types, except that admission and processing routines look the same. */
  lemma Exclusive(t: RoutineType, u: RoutineType, line: string)
    requires Validate(t, line).Some? && Validate(u, line).Some?
    ensures t == u || {t, u} == {AdmissionPriority, ProcessingPriority}
    ensures Validate(t, line) == Validate(u, line)
  {
    FirstWords(t, line);
    FirstWords(u, line);
    SignaturesDiffer(t, u);
  }

  // Calls.

  /** The arguments that every call of this type starts with. */
  function Leading(t: RoutineType): seq<string> {
    match t
    case CongestionCondition => ["queue"]
    case CongestionAction => ["queue", "skb"]
    case AdmissionPriority => ["skb"]
    case ProcessingPriority => ["skb"]
    case QueueSelector => ["sch", "skb"]
    case SchedulingPriority => ["sch"]
  }

  /** The parameters of the generated function that holds the call, with what they point to. */
  function Scope(t: RoutineType): seq<(string, string)> {
    match t
    case CongestionCondition => [("oq_queue*", "queue")]
    case CongestionAction => [("oq_queue*", "queue"), ("sk_buff*", "skb")]
    case AdmissionPriority => [("oq_queue*", "queue"), ("sk_buff*", "skb")]
    case ProcessingPriority => [("oq_queue*", "queue"), ("sk_buff*", "skb")]
    case QueueSelector => [("Qdisc*", "sch"), ("sk_buff*", "skb")]
    case SchedulingPriority => [("Qdisc*", "sch")]
  }

  /** What a leading argument points to, where the call stands. */
  lemma LeadingInScope(t: RoutineType, i: nat)
    requires i < |Leading(t)|
    ensures |Structs(t)| == |Leading(t)| && (Structs(t)[i], Leading(t)[i]) in Scope(t)
  {
  }

  lemma ValidParams(t: RoutineType, line: string)
    requires Validate(t, line).Some?
    ensures ParamsOk(t, HeaderParams(line))
  {
  }

  /** Each leading argument is in scope where the call stands, and is what the header asks for in its place. */
  lemma LeadingFits(t: RoutineType, line: string, i: nat)
    requires Validate(t, line).Some? && i < |Leading(t)|
    ensures |HeaderParams(line)| == |Leading(t)| + 2 && |Words(HeaderParams(line)[i])| == 3
    ensures (Trim(Words(HeaderParams(line)[i])[1]), Leading(t)[i]) in Scope(t)
  {
    LeadingInScope(t, i);
    ValidParams(t, line);
    assert StructOk(HeaderParams(line)[i], Structs(t)[i]);
  }

  /** `Double.toString` */
  type ShowDouble = Double -> string

  function Shown(show: ShowDouble, params: seq<Double>): seq<string> {
    seq(|params|, i requires 0 <= i < |params| => show(params[i]))
  }

  /** All arguments: the leading ones, the number of the others, and the others. */
  function Arguments(t: RoutineType, show: ShowDouble, params: seq<Double>): seq<string> {
    Leading(t) + [Digits(|params|)] + Shown(show, params)
  }

  function Join(parts: seq<string>): string
    requires parts != []
  {
    if |parts| == 1 then parts[0] else Join(parts[..|parts| - 1]) + (", " + parts[|parts| - 1])
  }

  function CallText(t: RoutineType, name: string, show: ShowDouble, params: seq<Double>): string {
    name + ['('] + (Join(Arguments(t, show, params)) + [')'] + [])
  }

  lemma JoinMore(parts: seq<string>, x: string)
    requires parts != []
    ensures Join(parts + [x]) == Join(parts) + (", " + x)
  {
    assert (parts + [x])[..|parts|] == parts;
  }

  lemma ShownMore(show: ShowDouble, params: seq<Double>, i: nat)
    requires i < |params|
    ensures Shown(show, params[..i + 1]) == Shown(show, params[..i]) + [show(params[i])]
  {
  }

  lemma LeadingText(t: RoutineType, first: string, second: string)
    requires Leading(t) == [first, second]
    ensures Join(Leading(t)) == first + (", " + second)
  {
    assert [first] + [second] == [first, second];
    JoinMore([first], second);
  }

  /** `getStatement` of a routine call. */
  method GetStatement(t: RoutineType, name: string, show: ShowDouble, params: Option<seq<Double>>) returns (s: string)
    ensures s == CallText(t, name, show, if params.None? then [] else params.value)
  {
    s := Opening(t);
    if params.Some? && params.value != [] {
      s := Trailing(t, show, params.value, s);
    } else {
      s := s + (", " + "0");
      JoinMore(Leading(t), "0");
      assert Leading(t) + ["0"] + [] == Leading(t) + ["0"];
    }
    s := name + ['('] + (s + [')'] + []);
  }

  method Opening(t: RoutineType) returns (s: string)
    ensures s == Join(Leading(t))
  {
    match t {
      case CongestionCondition =>
        s := "queue";
      case CongestionAction =>
        s := "queue" + (", " + "skb");
        LeadingText(t, "queue", "skb");
      case AdmissionPriority =>
        s := "skb";
      case ProcessingPriority =>
        s := "skb";
      case QueueSelector =>
        s := "sch" + (", " + "skb");
        LeadingText(t, "sch", "skb");
      case SchedulingPriority =>
        s := "sch";
    }
  }

  method Trailing(t: RoutineType, show: ShowDouble, v: seq<Double>, opening: string) returns (s: string)
    requires opening == Join(Leading(t))
    ensures s == Join(Arguments(t, show, v))
  {
    s := opening + (", " + Digits(|v|));
    ghost var first := Leading(t) + [Digits(|v|)];
    JoinMore(Leading(t), Digits(|v|));
    assert first + Shown(show, v[..0]) == first;
    for i := 0 to |v|
      invariant s == Join(first + Shown(show, v[..i]))
    {
      OneArgument(first, show, v, i);
      s := s + (", " + show(v[i]));
    }
    assert v[..|v|] == v;
  }

  lemma OneArgument(first: seq<string>, show: ShowDouble, v: seq<Double>, i: nat)
    requires first != [] && i < |v|
    ensures Join(first + Shown(show, v[..i + 1])) == Join(first + Shown(show, v[..i])) + (", " + show(v[i]))
  {
    ShownMore(show, v, i);
    JoinMore(first + Shown(show, v[..i]), show(v[i]));
    assert first + Shown(show, v[..i + 1]) == first + Shown(show, v[..i]) + [show(v[i])];
  }

  // Reading a call back.

  /** The pieces between the commas, without the white space around them. */
  function TrimmedPieces(s: string): seq<string> {
    var pieces := Pieces(s, ',');
    seq(|pieces|, i requires 0 <= i < |pieces| => Trim(pieces[i]))
  }

  /** The arguments of a call: what is between its first parenthesis and its last character. */
  function ArgumentsOf(text: string): seq<string>
    requires 0 <= IndexOf(text, '(') < |text| - 1
  {
    TrimmedPieces(text[IndexOf(text, '(') + 1..|text| - 1])
  }

  /** A text that can stand as one argument. */
  predicate IsArgument(x: string) {
    x != [] && forall c <- x :: c > ' ' && c != ',' && c != '(' && c != ')'
  }

  /** A text that stays whole when a joined list is split at its commas. */
  predicate IsPart(x: string) {
    x != [] && x[0] > ' ' && x[|x| - 1] > ' ' && ',' !in x
  }

  lemma ArgumentIsPart(x: string)
    requires IsArgument(x)
    ensures IsPart(x)
  {
    assert x[0] in x && x[|x| - 1] in x;
  }

  predicate Separable(parts: seq<string>) {
    forall i :: 0 <= i < |parts| ==> IsPart(parts[i])
  }

  lemma ArgumentsSeparable(parts: seq<string>)
    requires AreArguments(parts)
    ensures Separable(parts)
  {
    forall i | 0 <= i < |parts| ensures IsPart(parts[i]) {
      ArgumentIsPart(parts[i]);
    }
  }

  predicate AreArguments(parts: seq<string>) {
    forall i :: 0 <= i < |parts| ==> IsArgument(parts[i])
  }

  /** Pieces that are, but for white space, the given parts. */
  predicate AreParts(pieces: seq<string>, parts: seq<string>) {
    |pieces| == |parts| && forall i :: 0 <= i < |pieces| ==> Trim(pieces[i]) == parts[i]
  }

  lemma {:induction false} JoinPieces(parts: seq<string>)
    requires parts != [] && Separable(parts)
    ensures AreParts(Pieces(Join(parts), ','), parts)
  {
    var k := |parts| - 1;
    if k == 0 {
      LastPart(parts);
    } else {
      JoinPieces(parts[..k]);
      FrontAndLast(parts);
      NextPart(parts[..k], parts[k]);
    }
  }

  lemma FrontAndLast(parts: seq<string>)
    requires parts != []
    ensures parts[..|parts| - 1] + [parts[|parts| - 1]] == parts
  {
  }

  lemma LastPart(parts: seq<string>)
    requires |parts| == 1 && IsPart(parts[0])
    ensures AreParts(Pieces(Join(parts), ','), parts)
  {
    PartTrim(parts[0]);
    assert Pieces(parts[0], ',') == [parts[0]];
  }

  lemma NextPart(parts: seq<string>, x: string)
    requires parts != [] && IsPart(x) && AreParts(Pieces(Join(parts), ','), parts)
    ensures AreParts(Pieces(Join(parts + [x]), ','), parts + [x])
  {
    PartTrim(x);
    JoinMore(parts, x);
    JoinedPieces(Join(parts), x);
    PartsMore(Pieces(Join(parts), ','), parts, " " + x, x);
  }

  lemma PartsMore(pieces: seq<string>, parts: seq<string>, y: string, x: string)
    requires AreParts(pieces, parts) && Trim(y) == x
    ensures AreParts(pieces + [y], parts + [x])
  {
  }

  lemma JoinedPieces(before: string, x: string)
    requires ',' !in x
    ensures Pieces(before + (", " + x), ',') == Pieces(before, ',') + [" " + x]
  {
    assert before + (", " + x) == before + [','] + (" " + x);
    PiecesAppend(before, ',', " " + x);
  }

  lemma PartTrim(x: string)
    requires IsPart(x)
    ensures Trim(x) == x && Trim(" " + x) == x
  {
    TrimSame(x);
    assert (" " + x)[1..] == x;
  }

  /** A character of none of the parts is not in the joined text either. */
  lemma {:induction false} JoinAvoids(parts: seq<string>, c: char)
    requires parts != [] && c != ',' && c != ' ' && forall i :: 0 <= i < |parts| ==> c !in parts[i]
    ensures c !in Join(parts)
  {
    var k := |parts| - 1;
    if k > 0 {
      JoinAvoids(parts[..k], c);
      Absent(c, ", ", parts[k]);
      Absent(c, Join(parts[..k]), ", " + parts[k]);
    }
  }

  /**
   * Read back, an emitted call has the name of the routine, the leading arguments of its type, then the number of the
   * trailing arguments, and then these.
   */
  lemma CallRead(t: RoutineType, name: string, show: ShowDouble, params: seq<Double>)
    requires '(' !in name
    requires forall d :: IsArgument(show(d))
    ensures var text := CallText(t, name, show, params);
            var n := |Leading(t)|;
            && 0 <= IndexOf(text, '(') < |text| - 1 && text[|text| - 1] == ')'
            && text[..IndexOf(text, '(')] == name
            && |ArgumentsOf(text)| == n + 1 + |params|
            && ArgumentsOf(text)[..n] == Leading(t)
            && AllDigits(ArgumentsOf(text)[n]) && Value(ArgumentsOf(text)[n]) == |params|
            && ArgumentsOf(text)[n + 1..] == Shown(show, params)
  {
    var args := Arguments(t, show, params);
    ArgumentsAreArguments(t, show, params);
    JoinedRead(name, args, CallText(t, name, show, params));
    ArgumentParts(t, show, params, args);
  }

  lemma JoinedRead(name: string, args: seq<string>, text: string)
    requires '(' !in name && args != [] && AreArguments(args)
    requires text == name + ['('] + (Join(args) + [')'] + [])
    ensures 0 <= IndexOf(text, '(') < |text| - 1 && text[|text| - 1] == ')'
    ensures text[..IndexOf(text, '(')] == name && ArgumentsOf(text) == args
  {
    CallShape(name, Join(args), text);
    InsideRead(text, Join(args), args);
  }

  lemma CallShape(name: string, inside: string, text: string)
    requires '(' !in name && text == name + ['('] + (inside + [')'] + [])
    ensures IndexOf(text, '(') == |name| < |text| - 1 && text[|text| - 1] == ')'
    ensures text[..|name|] == name && text[|name| + 1..|text| - 1] == inside
  {
    IndexOfFirst(name, '(', inside + [')'] + []);
    Slices(name, '(', inside, ')', text);
  }

  lemma Slices(a: string, c: char, b: string, d: char, text: string)
    requires text == a + [c] + (b + [d] + [])
    ensures |text| == |a| + |b| + 2 && text[..|a|] == a && text[|a| + 1..|text| - 1] == b && text[|text| - 1] == d
  {
  }

  lemma InsideRead(text: string, inside: string, args: seq<string>)
    requires args != [] && AreArguments(args) && inside == Join(args)
    requires 0 <= IndexOf(text, '(') < |text| - 1 && text[IndexOf(text, '(') + 1..|text| - 1] == inside
    ensures ArgumentsOf(text) == args
  {
    PartsFound(args);
  }

  lemma PartsFound(args: seq<string>)
    requires args != [] && AreArguments(args)
    ensures TrimmedPieces(Join(args)) == args
  {
    ArgumentsSeparable(args);
    JoinPieces(args);
  }

  lemma ArgumentParts(t: RoutineType, show: ShowDouble, params: seq<Double>, args: seq<string>)
    requires args == Arguments(t, show, params)
    ensures var n := |Leading(t)|;
            && |args| == n + 1 + |params| && args[..n] == Leading(t)
            && AllDigits(args[n]) && Value(args[n]) == |params| && args[n + 1..] == Shown(show, params)
  {
    DigitsValue(|params|);
  }

  lemma DigitsAreArgument(n: nat)
    ensures IsArgument(Digits(n))
  {
    DigitsValue(n);
  }

  lemma LeadingAreArguments(t: RoutineType)
    ensures AreArguments(Leading(t))
  {
  }

  lemma ArgumentsAreArguments(t: RoutineType, show: ShowDouble, params: seq<Double>)
    requires forall d :: IsArgument(show(d))
    ensures AreArguments(Arguments(t, show, params))
  {
    DigitsAreArgument(|params|);
    LeadingAreArguments(t);
  }
}
