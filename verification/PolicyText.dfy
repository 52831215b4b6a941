/** Policy files as text: how the commands of a policy are written, and that they are read back as they were meant. */
module PolicyText {
  import opened CExpressions
  import opened Decimals
  import opened InlineStatements
  import opened JavaStrings
  import opened Options
  import opened Policies
  import opened Routines

  predicate IsNameChar(c: char) {
    'a' <= c <= 'z' || 'A' <= c <= 'Z' || '0' <= c <= '9' || c == '_'
  }

  predicate IsName(s: string) {
    s != [] && forall c <- s :: IsNameChar(c)
  }

  /** A text that begins and ends with visible characters. */
  predicate Visible(s: string) {
    s != [] && s[0] > ' ' && s[|s| - 1] > ' '
  }

  /** A name that a declaration can give to a queue or a port. */
  predicate IsDeclarable(s: string) {
    Visible(s) && ' ' !in s && '=' !in s
  }

  /** One that can also stand in the list of a port. */
  predicate IsListable(s: string) {
    IsDeclarable(s) && ',' !in s && '(' !in s && ')' !in s
  }

  lemma NameVisible(n: string)
    requires IsName(n)
    ensures Visible(n)
  {
    assert n[0] in n && n[|n| - 1] in n;
  }

  lemma NameLacks(n: string, c: char)
    requires IsName(n) && !IsNameChar(c)
    ensures c !in n
  {
  }

  lemma TrimAround(s: string)
    requires Visible(s)
    ensures Trim(s) == s && Trim(s + [' ']) == s && Trim([' '] + s) == s
  {
    TrimSame(s);
    assert TrimFront(s + [' ']) == s + [' '];
    assert (s + [' '])[..|s|] == s;
    assert ([' '] + s)[1..] == s;
  }

  // Declarations.

  function DeclarationText(kind: string, name: string, inside: string): string {
    (kind + [' '] + name) + [' '] + ['='] + ([' '] + (kind + ['('] + (inside + [')'] + ";")))
  }

  lemma KindLacks(kind: string, c: char)
    requires kind in {"Queue", "Port"} && !IsNameChar(c)
    ensures c !in kind && Visible(kind)
  {
  }

  lemma LeftSide(kind: string, name: string)
    requires kind in {"Queue", "Port"} && IsDeclarable(name)
    ensures var lhs := kind + [' '] + name;
            Trim(lhs + [' ']) == lhs && '=' !in lhs + [' '] && Split(lhs, ' ') == [kind, name] && Trim(name) == name
  {
    KindLacks(kind, ' ');
    KindLacks(kind, '=');
    TrimAround(name);
    TrimAround(kind + [' '] + name);
    SplitTwo(kind, ' ', name);
    Absent('=', kind, [' ']);
    Absent('=', kind + [' '], name);
    Absent('=', kind + [' '] + name, [' ']);
  }

  lemma RightSide(kind: string, inside: string)
    requires kind in {"Queue", "Port"} && '=' !in inside && '(' !in inside && ')' !in inside
    ensures var rhs := kind + ['('] + (inside + [')'] + ";");
            && Trim([' '] + rhs) == rhs && '=' !in [' '] + rhs
            && Split(rhs, '(') == [kind, inside + [')'] + ";"] && Split(inside + [')'] + ";", ')') == [inside, ";"]
            && Trim(kind) == kind
  {
    KindLacks(kind, '(');
    KindLacks(kind, '=');
    var tail := inside + [')'] + ";";
    Absent('(', inside, [')']);
    Absent('(', inside + [')'], ";");
    Absent('=', inside, [')']);
    Absent('=', inside + [')'], ";");
    SplitTwo(kind, '(', tail);
    SplitTwo(inside, ')', ";");
    TrimAround(kind);
    TrimAround(kind + ['('] + tail);
    Absent('=', kind, ['(']);
    Absent('=', kind + ['('], tail);
    Absent('=', [' '], kind + ['('] + tail);
  }

  lemma DeclarationRead(kind: string, name: string, inside: string)
    requires kind in {"Queue", "Port"} && IsDeclarable(name) && '=' !in inside && '(' !in inside && ')' !in inside
    ensures Declaration(DeclarationText(kind, name, inside), kind) == Some((name, inside))
  {
    LeftSide(kind, name);
    RightSide(kind, inside);
    SplitTwo(kind + [' '] + name + [' '], '=', [' '] + (kind + ['('] + (inside + [')'] + ";")));
  }

  lemma SignedShape(k: int)
    ensures var s := Signed(k); Visible(s) && '=' !in s && '(' !in s && ')' !in s
  {
    DigitsValue(if k < 0 then -k else k);
  }

  lemma ParsedNatural(d: string)
    requires d != [] && AllDigits(d) && Value(d) < 0x8000_0000
    ensures ParseInt(d) == Some(Value(d))
  {
    assert IsDigit(d[0]);
  }

  lemma WithoutMinus(d: string)
    ensures Unsigned("-" + d) == d && ("-" + d)[0] == '-'
  {
  }

  lemma ParsedNegative(d: string)
    requires d != [] && AllDigits(d) && Value(d) <= 0x8000_0000
    ensures ParseInt("-" + d) == Some(0 - Value(d))
  {
    WithoutMinus(d);
  }

  lemma ParsedInt(k: int)
    requires IsInt(k)
    ensures ParseInt(Signed(k)) == Some(k)
  {
    DigitsValue(if k < 0 then -k else k);
    if k < 0 {
      ParsedNegative(Digits(-k));
    } else {
      ParsedNatural(Digits(k));
    }
  }

  /** A queue declaration is read as it was written. */
  lemma QueueRead(name: string, size: int)
    requires IsDeclarable(name) && IsInt(size)
    ensures QueueDeclaration(DeclarationText("Queue", name, Signed(size))) ==
            Some(Queue(name, size, None, None, None, None))
  {
    SignedShape(size);
    DeclarationRead("Queue", name, Signed(size));
    TrimAround(Signed(size));
    ParsedInt(size);
  }

  lemma ListIsSeparable(names: seq<string>)
    requires forall n <- names :: IsListable(n)
    ensures Separable(names)
    ensures forall i :: 0 <= i < |names| ==> '=' !in names[i] && '(' !in names[i] && ')' !in names[i]
  {
    forall i | 0 <= i < |names| ensures IsPart(names[i]) && '=' !in names[i] && '(' !in names[i] && ')' !in names[i] {
      assert IsListable(names[i]);
    }
  }

  /** The pieces of a joined list are all kept by `split`, since none at the end is empty. */
  lemma JoinSplit(parts: seq<string>)
    requires parts != [] && Separable(parts)
    ensures AreParts(Split(Join(parts), ','), parts)
  {
    JoinPieces(parts);
    var p := Pieces(Join(parts), ',');
    var last := p[|p| - 1];
    assert Trim(last) == parts[|parts| - 1] != [];
    assert Trim([]) == [];
    assert DropEmpty(p) == p;
  }

  lemma PartsTrimmed(pieces: seq<string>, parts: seq<string>)
    requires AreParts(pieces, parts)
    ensures Trimmed(pieces) == parts
  {
  }

  /** A port declaration over declared queues is read as it was written. */
  lemma PortRead(queues: map<string, Queue>, name: string, names: seq<string>)
    requires IsDeclarable(name) && names != [] && forall n <- names :: IsListable(n) && n in queues
    ensures PortDeclaration(queues, DeclarationText("Port", name, Join(names))) == Some(Port(name, names, None, None))
  {
    ListIsSeparable(names);
    JoinAvoids(names, '=');
    JoinAvoids(names, '(');
    JoinAvoids(names, ')');
    DeclarationRead("Port", name, Join(names));
    JoinSplit(names);
    PartsTrimmed(Split(Join(names), ','), names);
  }

  lemma {:induction false} TrimVisible(s: string)
    ensures Trim(s) == [] || Visible(Trim(s))
  {
    TrimFrontStart(s);
    TrimBackEnd(TrimFront(s));
    TrimBackPart(TrimFront(s));
  }

  lemma {:induction false} TrimFrontStart(s: string)
    ensures TrimFront(s) == [] || TrimFront(s)[0] > ' '
  {
    if s != [] && s[0] <= ' ' {
      TrimFrontStart(s[1..]);
    }
  }

  lemma {:induction false} TrimBackEnd(s: string)
    ensures TrimBack(s) == [] || TrimBack(s)[|TrimBack(s)| - 1] > ' '
  {
    if s != [] && s[|s| - 1] <= ' ' {
      TrimBackEnd(s[..|s| - 1]);
    }
  }

  /** Whatever line declares a queue or a port, the name it gives is a declarable one. */
  lemma DeclaredName(line: string, kind: string)
    requires Declaration(line, kind).Some?
    ensures IsDeclarable(Declaration(line, kind).value.0)
  {
    var side := Split(line, '=')[0];
    var word := Split(Trim(side), ' ')[1];
    TrimVisible(word);
    if ' ' in Trim(word) {
      TrimChars(word, ' ');
      SplitWithin(Trim(side), ' ', 1, ' ');
    }
    if '=' in Trim(word) {
      TrimChars(word, '=');
      SplitWithin(Trim(side), ' ', 1, '=');
      TrimChars(side, '=');
      SplitWithin(line, '=', 0, '=');
    }
  }

  /** A queue can be declared under exactly the declarable names. */
  lemma DeclarableIff(name: string)
    ensures (exists line :: QueueDeclaration(line).Some? && QueueDeclaration(line).value.name == name) <==>
            IsDeclarable(name)
  {
    if IsDeclarable(name) {
      QueueRead(name, 1);
      assert QueueDeclaration(DeclarationText("Queue", name, Signed(1))).Some?;
    }
    if line :| QueueDeclaration(line).Some? && QueueDeclaration(line).value.name == name {
      DeclaredName(line, "Queue");
    }
  }

  // Assignments.

  function AssignmentText(object_: string, attr: string, rhs: string): string {
    (object_ + ['.'] + attr) + (" = " + (rhs + ";"))
  }

  /** Nowhere in the text does the assignment sign stand between blanks. */
  predicate NoSign(s: string) {
    forall i :: 0 <= i < |s| - 2 ==> !(s[i] == ' ' && s[i + 1] == '=' && s[i + 2] == ' ')
  }

  lemma SignAt(s: string)
    ensures " = " <= s <==> |s| >= 3 && s[0] == ' ' && s[1] == '=' && s[2] == ' '
  {
    if |s| >= 3 && s[0] == ' ' && s[1] == '=' && s[2] == ' ' {
      assert s[..3] == " = ";
    }
  }

  lemma {:induction false} NoSignFound(s: string)
    requires NoSign(s)
    ensures Find(s, " = ") == -1
  {
    SignAt(s);
    if s != [] {
      assert forall i :: 0 <= i < |s[1..]| ==> s[1..][i] == s[i + 1];
      NoSignFound(s[1..]);
    }
  }

  lemma {:induction false} FirstSign(lhs: string, rest: string)
    requires ' ' !in lhs
    ensures Find(lhs + (" = " + rest), " = ") == |lhs|
  {
    var s := lhs + (" = " + rest);
    SignAt(s);
    if lhs != [] {
      assert s[0] == lhs[0] != ' ';
      assert s[1..] == lhs[1..] + (" = " + rest);
      FirstSign(lhs[1..], rest);
    } else {
      assert s == " = " + rest;
    }
  }

  lemma HalvesAt(lhs: string, sign: string, rest: string)
    requires sign != [] && Find(lhs + (sign + rest), sign) == |lhs|
    ensures Halves(lhs + (sign + rest), sign) == (true, lhs, rest)
  {
    var s := lhs + (sign + rest);
    assert s[..|lhs|] == lhs && s[|lhs| + |sign|..] == rest;
  }

  lemma BothKept(a: string, b: string)
    requires b != []
    ensures DropEmpty([a] + [b]) == [a, b]
  {
    assert [a] + [b] == [a, b];
  }

  lemma TwoSides(s: string, sign: string, lhs: string, rest: string)
    requires sign != [] && rest != [] && Halves(s, sign) == (true, lhs, rest) && !Halves(rest, sign).0
    ensures SplitAt(s, sign) == [lhs, rest]
  {
    assert PiecesAt(rest, sign) == [rest];
    BothKept(lhs, rest);
  }

  lemma SidesRead(lhs: string, rest: string)
    requires ' ' !in lhs && NoSign(rest) && rest != []
    ensures SplitAt(lhs + (" = " + rest), " = ") == [lhs, rest]
  {
    FirstSign(lhs, rest);
    HalvesAt(lhs, " = ", rest);
    NoSignFound(rest);
    TwoSides(lhs + (" = " + rest), " = ", lhs, rest);
  }

  lemma SemicolonGone(rhs: string)
    requires Visible(rhs) && ';' !in rhs
    ensures Trim(Replace(Trim(rhs + ";"), ';', ' ')) == rhs
  {
    TrimAround(rhs + ";");
    assert Replace(rhs + ";", ';', ' ') == rhs + [' '];
    TrimAround(rhs);
  }

  /** A right-hand side that an assignment can carry. */
  predicate Carried(rhs: string) {
    Visible(rhs) && ';' !in rhs && NoSign(rhs)
  }

  lemma AssignmentRead(object_: string, attr: string, rhs: string)
    requires IsDeclarable(object_) && '.' !in object_ && IsName(attr) && Carried(rhs)
    ensures Assignment(AssignmentText(object_, attr, rhs)) == Some((object_, attr, rhs))
  {
    var lhs := object_ + ['.'] + attr;
    NameVisible(attr);
    NameLacks(attr, ' ');
    NameLacks(attr, '.');
    Absent(' ', object_, ['.']);
    Absent(' ', object_ + ['.'], attr);
    SidesRead(lhs, rhs + ";");
    TrimAround(lhs);
    SplitTwo(object_, '.', attr);
    SemicolonGone(rhs);
  }

  lemma NoEquals(s: string)
    requires '=' !in s
    ensures NoSign(s)
  {
  }

  lemma BlankPlaces(a: string, o: string, b: string, i: nat)
    requires ' ' !in a && ' ' !in o && ' ' !in b
    requires i < |a| + |o| + |b| + 2 && i != |a| && i != |a| + |o| + 1
    ensures (a + ([' '] + (o + ([' '] + b))))[i] != ' '
  {
    var s := a + ([' '] + (o + ([' '] + b)));
    if i < |a| {
      assert s[i] == a[i];
    } else if i <= |a| + |o| {
      assert s[i] == o[i - |a| - 1];
    } else {
      assert s[i] == b[i - |a| - |o| - 2];
    }
  }

  /** The blanks around a comparison do not make an assignment sign. */
  lemma NoSignAround(a: string, op: Relation, b: string)
    requires ' ' !in a && ' ' !in b && b != [] && b[0] != '='
    ensures NoSign(a + ([' '] + (RelationText(op) + ([' '] + b))))
  {
    var o := RelationText(op);
    var s := a + ([' '] + (o + ([' '] + b)));
    RelationShape(op);
    forall i | 0 <= i < |s| - 2 ensures !(s[i] == ' ' && s[i + 1] == '=' && s[i + 2] == ' ') {
      if i == |a| {
        assert s[i + 1] == o[0];
        assert |o| == 2 ==> s[i + 2] == o[1];
      } else if i == |a| + |o| + 1 {
        assert s[i + 1] == b[0];
      } else {
        BlankPlaces(a, o, b, i);
      }
    }
  }

  lemma FieldLacks(base: string, x: string, c: char)
    requires c !in base && c != '.' && !IsWordChar(c) && (x in QUEUE_FIELDS || x in HEADER_FIELDS)
    ensures c !in base + ['.'] + x
  {
    FieldsAreWords(x);
    Absent(c, base, ['.']);
    Absent(c, base + ['.'], x);
  }

  lemma TermLacks(t: Term, c: char)
    requires KnownTerm(t) && c in {';', '='}
    ensures c !in TermSource(t)
  {
    match t
    case QueueField(x) =>
      FieldLacks("Queue", x, c);
    case HeaderField(x) =>
      FieldLacks("Packet", x, c);
    case Number(n) =>
      SignedLacks(n, c);
  }

  lemma SignedLacks(n: int, c: char)
    requires c in {';', '='}
    ensures c !in Signed(n)
  {
    DigitsValue(if n < 0 then -n else n);
  }

  lemma SourceSemicolon(e: Expr)
    requires Known(e)
    ensures ';' !in Source(e)
  {
    match e
    case Plain(t) =>
      TermLacks(t, ';');
      Absent(';', Body(e), ['}']);
    case Compare(l, op, r) =>
      TermLacks(l, ';');
      TermLacks(r, ';');
      Absent(';', RelationText(op) + [' '], TermSource(r));
      Absent(';', TermSource(l) + [' '], RelationText(op) + [' '] + TermSource(r));
      Absent(';', Body(e), ['}']);
  }

  lemma SourceNoSign(e: Expr)
    requires Known(e)
    ensures NoSign(Source(e))
  {
    match e
    case Plain(t) =>
      TermLacks(t, '=');
      Absent('=', TermSource(t), ['}']);
      Absent('=', "inline" + ['{'], TermSource(t) + ['}'] + []);
      NoEquals(Source(e));
    case Compare(l, op, r) =>
      TermShape(l);
      TermShape(r);
      TermLacks(r, '=');
      var a := "inline" + ['{'] + TermSource(l);
      var b := TermSource(r) + ['}'];
      Absent(' ', "inline" + ['{'], TermSource(l));
      Absent(' ', TermSource(r), ['}']);
      assert b[0] == TermSource(r)[0] && TermSource(r)[0] in TermSource(r);
      NoSignAround(a, op, b);
      SourceShape(TermSource(l), RelationText(op), TermSource(r));
  }

  lemma SourceShape(l: string, o: string, r: string)
    ensures "inline" + ['{'] + ((l + [' '] + (o + [' '] + r)) + ['}'] + []) ==
            ("inline" + ['{'] + l) + ([' '] + (o + ([' '] + (r + ['}']))))
  {
  }

  lemma InlineCarried(e: Expr)
    requires Known(e)
    ensures Carried(Source(e))
  {
    SourceSemicolon(e);
    SourceNoSign(e);
    assert Source(e)[|Source(e)| - 1] == '}' && Source(e)[0] == 'i';
  }

  lemma InlineBound(parse: ParseDouble, routines: map<string, RoutineType>, e: Expr, slot: RoutineType)
    requires ReadsIntegers(parse) && Known(e)
    ensures Bind(parse, routines, Source(e), slot) == Bound(Inline(slot, Text(e)))
  {
    Printed(parse, e);
    assert "inline" <= Source(e);
  }

  /** A call without parentheses. */
  lemma NameBound(parse: ParseDouble, routines: map<string, RoutineType>, name: string, slot: RoutineType)
    requires IsName(name) && !StartsWith(name, "inline") && name in routines && routines[name] == slot
    ensures Carried(name) && Bind(parse, routines, name, slot) == Bound(Call(slot, name, None))
  {
    NameVisible(name);
    NameLacks(name, '(');
    NameLacks(name, ';');
    NameLacks(name, '=');
    NoEquals(name);
  }

  function CallSource(name: string, texts: seq<string>): string
    requires texts != []
  {
    name + ['('] + (Join(texts) + [')'] + [])
  }

  predicate IsNumeral(x: string) {
    IsArgument(x) && '=' !in x && ';' !in x
  }

  lemma CallLacks(name: string, texts: seq<string>, c: char)
    requires IsName(name) && texts != [] && c in {'=', ';'} && forall i :: 0 <= i < |texts| ==> IsNumeral(texts[i])
    ensures c !in CallSource(name, texts)
  {
    NameLacks(name, c);
    JoinAvoids(texts, c);
    Absent(c, Join(texts), [')']);
    Absent(c, name, ['(']);
    Absent(c, name + ['('], Join(texts) + [')'] + []);
  }

  lemma CallCarried(name: string, texts: seq<string>)
    requires IsName(name) && texts != [] && forall i :: 0 <= i < |texts| ==> IsNumeral(texts[i])
    ensures Carried(CallSource(name, texts))
  {
    CallLacks(name, texts, '=');
    CallLacks(name, texts, ';');
    NoEquals(CallSource(name, texts));
    NameVisible(name);
    var s := CallSource(name, texts);
    assert s[|s| - 1] == ')' && s[0] == name[0];
  }

  lemma {:induction false} JoinVisible(parts: seq<string>)
    requires parts != [] && AreArguments(parts)
    ensures Visible(Join(parts))
  {
    var k := |parts| - 1;
    assert parts[k][0] in parts[k] && parts[k][|parts[k]| - 1] in parts[k];
    if k > 0 {
      JoinVisible(parts[..k]);
    }
  }

  lemma {:induction false} ValuesRead(parse: ParseDouble, pieces: seq<string>, texts: seq<string>, values: seq<Double>)
    requires AreParts(pieces, texts) && |texts| == |values|
    requires forall i :: 0 <= i < |texts| ==> parse(texts[i]) == Some(values[i])
    ensures Values(parse, pieces) == Some(values)
  {
    if pieces != [] {
      assert Trim(pieces[0]) == texts[0];
      ValuesRead(parse, pieces[1..], texts[1..], values[1..]);
      assert [values[0]] + values[1..] == values;
    }
  }

  lemma CallBound(parse: ParseDouble, routines: map<string, RoutineType>, name: string, slot: RoutineType,
                  texts: seq<string>, values: seq<Double>)
    requires IsName(name) && !StartsWith(name, "inline") && name in routines && routines[name] == slot
    requires texts != [] && |texts| == |values| && forall i :: 0 <= i < |texts| ==> IsNumeral(texts[i])
    requires forall i :: 0 <= i < |texts| ==> parse(texts[i]) == Some(values[i])
    ensures Bind(parse, routines, CallSource(name, texts), slot) == Bound(Call(slot, name, Some(values)))
  {
    var rhs := CallSource(name, texts);
    CallParts(name, texts);
    CallValues(parse, texts, values);
    NotPrefix(name, ['('] + (Join(texts) + [')'] + []), "inline");
    GroupRight(name, '(', Join(texts) + [')'] + []);
    ListBound(parse, routines, rhs, slot, name, Join(texts), values);
  }

  lemma ListBound(parse: ParseDouble, routines: map<string, RoutineType>, rhs: string, slot: RoutineType, name: string,
                  inside: string, values: seq<Double>)
    requires !StartsWith(rhs, "inline") && RoutineName(rhs) == name && name in routines && routines[name] == slot
    requires '(' in rhs && ')' in rhs && IndexOf(rhs, '(') < IndexOf(rhs, ')')
    requires rhs[IndexOf(rhs, '(') + 1..IndexOf(rhs, ')')] == inside
    requires Split(Trim(inside), ',') != [] && Values(parse, Split(Trim(inside), ',')) == Some(values)
    ensures Bind(parse, routines, rhs, slot) == Bound(Call(slot, name, Some(values)))
  {
  }

  lemma CallValues(parse: ParseDouble, texts: seq<string>, values: seq<Double>)
    requires texts != [] && |texts| == |values| && AreArguments(texts)
    requires forall i :: 0 <= i < |texts| ==> parse(texts[i]) == Some(values[i])
    ensures var tokens := Split(Trim(Join(texts)), ','); tokens != [] && Values(parse, tokens) == Some(values)
  {
    JoinVisible(texts);
    TrimAround(Join(texts));
    ArgumentsSeparable(texts);
    JoinSplit(texts);
    ValuesRead(parse, Split(Join(texts), ','), texts, values);
  }

  lemma GroupRight(a: string, c: char, b: string)
    ensures a + [c] + b == a + ([c] + b)
  {
  }

  lemma CallParts(name: string, texts: seq<string>)
    requires IsName(name) && texts != [] && AreArguments(texts)
    ensures var rhs := CallSource(name, texts);
            && 0 <= IndexOf(rhs, '(') < IndexOf(rhs, ')') && '(' in rhs && ')' in rhs
            && RoutineName(rhs) == name && rhs[IndexOf(rhs, '(') + 1..IndexOf(rhs, ')')] == Join(texts)
  {
    NameLacks(name, '(');
    NameLacks(name, ')');
    JoinAvoids(texts, '(');
    JoinAvoids(texts, ')');
    Enclosed('(', ')', name, Join(texts));
  }

  /** What does not begin with a word does not do so with something else behind it either. */
  lemma NotPrefix(name: string, rest: string, word: string)
    requires !StartsWith(name, word) && rest != [] && rest[0] !in word
    ensures !StartsWith(name + rest, word)
  {
    if |name| < |word| {
      assert (name + rest)[|name|] == rest[0];
      assert word[|name|] in word;
    } else {
      assert (name + rest)[..|word|] == name[..|word|];
    }
  }
}
