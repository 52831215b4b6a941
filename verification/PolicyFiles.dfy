/** Whole policy files: a list of commands, written as text, is read as what the commands do. */
module PolicyFiles {
  import opened CExpressions
  import opened Decimals
  import opened HeaderText
  import opened InlineStatements
  import opened JavaStrings
  import opened Layouts
  import opened Options
  import opened Policies
  import opened PolicyText
  import opened PolicyTyping
  import opened Routines

  /** What a slot can be bound to: an expression, or a call with or without a list of values. */
  datatype Source =
    | Expression(e: Expr)
    | Name(routine: string)
    | With(routine: string, texts: seq<string>, values: seq<Double>)

  datatype Command =
    | ImportHeader(file: string, routines: seq<Routine>)
    | MakeQueue(name: string, size: int)
    | MakePort(name: string, queues: seq<string>)
    | SetSlot(target: string, slot: RoutineType, source: Source)

  function SourceText(s: Source): string
    requires s.With? ==> s.texts != []
  {
    match s
    case Expression(e) => InlineStatements.Source(e)
    case Name(routine) => routine
    case With(routine, texts, _) => CallSource(routine, texts)
  }

  function AttributeName(slot: RoutineType): string {
    match slot
    case CongestionCondition => "congestion"
    case CongestionAction => "congAction"
    case AdmissionPriority => "admPrio"
    case ProcessingPriority => "procPrio"
    case QueueSelector => "queueSelect"
    case SchedulingPriority => "schedPrio"
  }

  /** Lists of values and of queues are not empty. */
  predicate Printable(c: Command) {
    (c.SetSlot? && c.source.With? ==> c.source.texts != []) && (c.MakePort? ==> c.queues != [])
  }

  function CommandText(c: Command): string
    requires Printable(c)
  {
    match c
    case ImportHeader(file, _) => "import" + [' '] + ['"'] + (file + ['"'] + [])
    case MakeQueue(name, size) => DeclarationText("Queue", name, Signed(size))
    case MakePort(name, queues) => DeclarationText("Port", name, Join(queues))
    case SetSlot(target, slot, source) => AssignmentText(target, AttributeName(slot), SourceText(source))
  }

  lemma AttributeNames()
    ensures AttributeName(CongestionCondition) == "congestion" && AttributeName(CongestionAction) == "congAction"
    ensures AttributeName(AdmissionPriority) == "admPrio" && AttributeName(ProcessingPriority) == "procPrio"
    ensures AttributeName(QueueSelector) == "queueSelect" && AttributeName(SchedulingPriority) == "schedPrio"
  {
  }

  /** The commands, spelled out. */
  lemma DeclarationTexts(name: string, size: int, queues: seq<string>)
    requires queues != []
    ensures CommandText(MakeQueue(name, size)) == "Queue " + name + " = Queue(" + Signed(size) + ");"
    ensures CommandText(MakePort(name, queues)) == "Port " + name + " = Port(" + Join(queues) + ");"
  {
    DeclarationSpelled("Queue", "Queue ", " = Queue(", name, Signed(size));
    DeclarationSpelled("Port", "Port ", " = Port(", name, Join(queues));
  }

  lemma ImportText(file: string)
    ensures CommandText(ImportHeader(file, [])) == "import \"" + file + "\""
  {
    assert "import" + [' '] + ['"'] == "import \"";
  }

  lemma SlotText(target: string, slot: RoutineType, source: Source)
    requires source.With? ==> source.texts != []
    ensures CommandText(SetSlot(target, slot, source)) ==
            target + "." + AttributeName(slot) + " = " + SourceText(source) + ";"
  {
    Joined(target, AttributeName(slot), SourceText(source));
  }

  lemma Joined(a: string, b: string, c: string)
    ensures AssignmentText(a, b, c) == a + "." + b + " = " + c + ";"
  {
  }

  lemma DeclarationSpelled(kind: string, start: string, middle: string, name: string, inside: string)
    requires start == kind + [' '] && middle == [' '] + ['='] + [' '] + kind + ['(']
    ensures DeclarationText(kind, name, inside) == start + name + middle + inside + ");"
  {
  }

  lemma Bracketed(a: string, o: string, b: string, c: string)
    ensures a + o + (b + c + []) == a + o + b + c
  {
  }

  /** What a slot is set to, spelled out. */
  lemma SourceTexts(e: Expr, routine: string, texts: seq<string>, values: seq<Double>)
    requires texts != []
    ensures SourceText(Expression(e)) == "inline" + "{" + Body(e) + "}"
    ensures SourceText(Name(routine)) == routine
    ensures SourceText(With(routine, texts, values)) == routine + "(" + Join(texts) + ")"
  {
    Bracketed("inline", "{", Body(e), "}");
    Bracketed(routine, "(", Join(texts), ")");
  }

  lemma FieldTexts(x: string)
    ensures TermSource(QueueField(x)) == "Queue" + "." + x && TermSource(HeaderField(x)) == "Packet" + "." + x
  {
  }

  // What the commands do.

  function StatementOf(slot: RoutineType, s: Source): Statement {
    match s
    case Expression(e) => Inline(slot, Text(e))
    case Name(routine) => Call(slot, routine, None)
    case With(routine, _, values) => Call(slot, routine, Some(values))
  }

  function Effect(p: Policy, c: Command): Policy {
    match c
    case ImportHeader(_, routines) => p.(routines := Added(p.routines, routines))
    case MakeQueue(name, size) => p.(queues := p.queues[name := Queue(name, size, None, None, None, None)])
    case MakePort(name, queues) => p.(port := Some(Port(name, queues, None, None)))
    case SetSlot(target, slot, source) =>
      var s := StatementOf(slot, source);
      if target in p.queues then p.(queues := p.queues[target := SetQueue(p.queues[target], s)])
      else if p.port.Some? then p.(port := Some(SetPort(p.port.value, s)))
      else p
  }

  function Effects(p: Policy, commands: seq<Command>): Policy
    decreases |commands|
  {
    if commands == [] then p else Effects(Effect(p, commands[0]), commands[1..])
  }

  // When they can be given.

  ghost predicate LegalSource(parse: ParseDouble, routines: map<string, RoutineType>, slot: RoutineType, s: Source) {
    match s
    case Expression(e) => Known(e)
    case Name(routine) => LegalRoutine(routines, slot, routine)
    case With(routine, texts, values) =>
      && LegalRoutine(routines, slot, routine) && texts != [] && |texts| == |values|
      && forall i :: 0 <= i < |texts| ==> IsNumeral(texts[i]) && parse(texts[i]) == Some(values[i])
  }

  predicate LegalRoutine(routines: map<string, RoutineType>, slot: RoutineType, name: string) {
    IsName(name) && !StartsWith(name, "inline") && name in routines && routines[name] == slot
  }

  /** A name whose assignments are not taken for something else. */
  predicate Assignable(name: string) {
    && '.' !in name && !StartsWith(name, "//")
    && !StartsWith(name, "import") && !StartsWith(name, "Queue") && !StartsWith(name, "Port")
  }

  ghost predicate Legal(parse: ParseDouble, files: Files, p: Policy, c: Command) {
    match c
    case ImportHeader(file, routines) =>
      && Visible(file) && '"' !in file && IsHeaderName(file)
      && file in files && Declares(None, files[file], routines) && Addable(p.routines, routines)
    case MakeQueue(name, size) => IsDeclarable(name) && IsInt(size)
    case MakePort(name, queues) =>
      IsDeclarable(name) && queues != [] && forall n <- queues :: IsListable(n) && n in p.queues
    case SetSlot(target, slot, source) =>
      && IsDeclarable(target) && Assignable(target) && LegalSource(parse, p.routines, slot, source)
      && HasSlot(p, target, slot)
  }

  /** The slot is one of the queue, or else of the port, that goes by the name. */
  predicate HasSlot(p: Policy, target: string, slot: RoutineType) {
    if OfQueue(slot) then target in p.queues
    else target !in p.queues && p.port.Some? && p.port.value.name == target
  }

  /** Each command can be given after the ones before it. */
  ghost predicate AllLegal(parse: ParseDouble, files: Files, p: Policy, commands: seq<Command>)
    decreases |commands|
  {
    commands == [] ||
    (Legal(parse, files, p, commands[0]) && AllLegal(parse, files, Effect(p, commands[0]), commands[1..]))
  }

  // Each line is read as its command.

  lemma SourceBound(parse: ParseDouble, routines: map<string, RoutineType>, slot: RoutineType, s: Source)
    requires ReadsIntegers(parse) && LegalSource(parse, routines, slot, s)
    ensures Carried(SourceText(s)) && Bind(parse, routines, SourceText(s), slot) == Bound(StatementOf(slot, s))
  {
    match s
    case Expression(e) =>
      InlineCarried(e);
      InlineBound(parse, routines, e, slot);
    case Name(routine) =>
      NameBound(parse, routines, routine, slot);
    case With(routine, texts, values) =>
      CallCarried(routine, texts);
      CallBound(parse, routines, routine, slot, texts, values);
  }

  lemma AttributeFound(slot: RoutineType)
    ensures IsName(AttributeName(slot))
    ensures if OfQueue(slot) then QueueSlot(AttributeName(slot)) == Some(slot)
            else PortSlot(AttributeName(slot)) == Some(slot)
  {
  }

  lemma AssignRead(parse: ParseDouble, files: Files, p: Policy, c: Command)
    requires ReadsIntegers(parse) && Legal(parse, files, p, c) && c.SetSlot?
    ensures Assign(parse, p, CommandText(c)) == Step(Go, Effect(p, c))
  {
    SourceBound(parse, p.routines, c.slot, c.source);
    AttributeFound(c.slot);
    AssignmentRead(c.target, AttributeName(c.slot), SourceText(c.source));
  }

  lemma ImportRead(files: Files, p: Policy, file: string, routines: seq<Routine>)
    requires Visible(file) && '"' !in file && IsHeaderName(file)
    requires file in files && Declares(None, files[file], routines) && Addable(p.routines, routines)
    ensures ImportInto(files, p, CommandText(ImportHeader(file, routines))) ==
            Step(Go, p.(routines := Added(p.routines, routines)))
  {
    ImportTokens(file);
    FileImported(files, p.routines, file, routines);
  }

  lemma ImportTokens(file: string)
    requires Visible(file) && '"' !in file
    ensures var tokens := Split(CommandText(ImportHeader(file, [])), '"');
            |tokens| == 2 && Trim(tokens[0]) == "import" && Trim(tokens[1]) == file
  {
    Quoted("import" + [' '], file);
    TrimAround("import");
    TrimAround(file);
  }

  lemma FileImported(files: Files, table: map<string, RoutineType>, file: string, routines: seq<Routine>)
    requires IsHeaderName(file) && file in files && Declares(None, files[file], routines) && Addable(table, routines)
    ensures var i := ImportFile(files, table, file); i.ok && i.routines == Added(table, routines)
  {
    HeaderRead(table, None, files[file], routines);
  }

  lemma DropLastEmpty(a: string, b: string)
    requires b != []
    ensures DropEmpty([a] + ([b] + [[]])) == [a, b]
  {
    var p := [a] + ([b] + [[]]);
    assert p[..2] == [a, b];
    assert DropEmpty(p) == DropEmpty(p[..2]);
  }

  lemma Quoted(a: string, b: string)
    requires '"' !in a && '"' !in b && b != []
    ensures Split(a + ['"'] + (b + ['"'] + []), '"') == [a, b]
  {
    PiecesCons(a, '"', b + ['"'] + []);
    PiecesCons(b, '"', []);
    assert Pieces([], '"') == [[]];
    DropLastEmpty(a, b);
    assert (a + ['"'] + (b + ['"'] + []))[|a|] == '"';
  }

  lemma Whole(s: string)
    requires Visible(s)
    ensures Trim(s) == s
  {
    TrimAround(s);
  }

  lemma ImportShape(file: string)
    requires Visible(file)
    ensures var s := CommandText(ImportHeader(file, [])); Visible(s) && StartsWith(s, "import") && !StartsWith(s, "//")
  {
    var s := "import" + [' '] + ['"'] + (file + ['"'] + []);
    assert s[0] == 'i' && s[|s| - 1] == '"';
    assert s[..6] == "import";
  }

  lemma DeclarationShape(kind: string, name: string, inside: string)
    requires kind in {"Queue", "Port"}
    ensures var s := DeclarationText(kind, name, inside);
            && Visible(s) && s[|s| - 1] == ';' && StartsWith(s, kind)
            && !StartsWith(s, "//") && !StartsWith(s, "import") && (kind == "Port" ==> !StartsWith(s, "Queue"))
  {
    var s := DeclarationText(kind, name, inside);
    assert s[0] == kind[0];
    assert s[..|kind|] == kind;
  }

  lemma AssignmentShape(target: string, attr: string, rhs: string)
    requires IsDeclarable(target) && Assignable(target)
    ensures var s := AssignmentText(target, attr, rhs);
            && Visible(s) && s[|s| - 1] == ';'
            && !StartsWith(s, "//") && !StartsWith(s, "import") && !StartsWith(s, "Queue") && !StartsWith(s, "Port")
  {
    var s := AssignmentText(target, attr, rhs);
    var rest := ['.'] + (attr + (" = " + (rhs + ";")));
    assert s == target + rest;
    assert s[0] == target[0] && s[|s| - 1] == ';';
    NotPrefix(target, rest, "//");
    NotPrefix(target, rest, "import");
    NotPrefix(target, rest, "Queue");
    NotPrefix(target, rest, "Port");
  }

  lemma ImportLineRead(parse: ParseDouble, files: Files, p: Policy, c: Command)
    requires Legal(parse, files, p, c) && c.ImportHeader?
    ensures ReadLine(parse, files, p, CommandText(c)) == Step(Go, Effect(p, c))
  {
    ImportShape(c.file);
    Whole(CommandText(c));
    ImportRead(files, p, c.file, c.routines);
  }

  lemma QueueLineRead(parse: ParseDouble, files: Files, p: Policy, c: Command)
    requires Legal(parse, files, p, c) && c.MakeQueue?
    ensures ReadLine(parse, files, p, CommandText(c)) == Step(Go, Effect(p, c))
  {
    DeclarationShape("Queue", c.name, Signed(c.size));
    Whole(CommandText(c));
    QueueRead(c.name, c.size);
  }

  lemma PortLineRead(parse: ParseDouble, files: Files, p: Policy, c: Command)
    requires Legal(parse, files, p, c) && c.MakePort?
    ensures ReadLine(parse, files, p, CommandText(c)) == Step(Go, Effect(p, c))
  {
    DeclarationShape("Port", c.name, Join(c.queues));
    Whole(CommandText(c));
    PortRead(p.queues, c.name, c.queues);
  }

  lemma SlotLineRead(parse: ParseDouble, files: Files, p: Policy, c: Command)
    requires ReadsIntegers(parse) && Legal(parse, files, p, c) && c.SetSlot?
    ensures ReadLine(parse, files, p, CommandText(c)) == Step(Go, Effect(p, c))
  {
    AssignmentShape(c.target, AttributeName(c.slot), SourceText(c.source));
    Whole(CommandText(c));
    AssignRead(parse, files, p, c);
  }

  lemma LineRead(parse: ParseDouble, files: Files, p: Policy, c: Command)
    requires ReadsIntegers(parse) && Legal(parse, files, p, c)
    ensures ReadLine(parse, files, p, CommandText(c)) == Step(Go, Effect(p, c))
  {
    match c
    case ImportHeader(_, _) => ImportLineRead(parse, files, p, c);
    case MakeQueue(_, _) => QueueLineRead(parse, files, p, c);
    case MakePort(_, _) => PortLineRead(parse, files, p, c);
    case SetSlot(_, _, _) => SlotLineRead(parse, files, p, c);
  }

  // Files.

  /** The lines of a list of commands. */
  function FileText(commands: seq<Command>): seq<string>
    requires forall c <- commands :: Printable(c)
  {
    if commands == [] then [] else
      assert forall c <- commands[1..] :: c in commands;
      [CommandText(commands[0])] + FileText(commands[1..])
  }

  lemma {:induction false} LegalPrintable(parse: ParseDouble, files: Files, p: Policy, commands: seq<Command>)
    requires AllLegal(parse, files, p, commands)
    ensures forall c <- commands :: Printable(c)
    decreases |commands|
  {
    if commands != [] {
      LegalPrintable(parse, files, Effect(p, commands[0]), commands[1..]);
      assert forall c <- commands :: c == commands[0] || c in commands[1..];
    }
  }

  lemma CommandVisible(parse: ParseDouble, files: Files, p: Policy, c: Command)
    requires Legal(parse, files, p, c)
    ensures Visible(CommandText(c))
  {
    match c
    case ImportHeader(file, _) => ImportShape(file);
    case MakeQueue(name, size) => DeclarationShape("Queue", name, Signed(size));
    case MakePort(name, queues) => DeclarationShape("Port", name, Join(queues));
    case SetSlot(target, slot, source) => AssignmentShape(target, AttributeName(slot), SourceText(source));
  }

  /** The commands one to a line, with nothing around them. */
  lemma {:induction false} PlainRead(parse: ParseDouble, files: Files, p: Policy, commands: seq<Command>)
    requires ReadsIntegers(parse) && AllLegal(parse, files, p, commands)
    ensures forall c <- commands :: Printable(c)
    ensures forall t <- FileText(commands) :: Visible(t)
    ensures ReadLines(parse, files, Step(Go, p), FileText(commands)) == Step(Go, Effects(p, commands))
    decreases |commands|
  {
    LegalPrintable(parse, files, p, commands);
    if commands != [] {
      LineRead(parse, files, p, commands[0]);
      CommandVisible(parse, files, p, commands[0]);
      PlainRead(parse, files, Effect(p, commands[0]), commands[1..]);
      FirstLine(parse, files, p, CommandText(commands[0]), FileText(commands[1..]));
    }
  }

  lemma FirstLine(parse: ParseDouble, files: Files, p: Policy, line: string, rest: seq<string>)
    ensures ReadLines(parse, files, Step(Go, p), [line] + rest) ==
            ReadLines(parse, files, ReadLine(parse, files, p, line), rest)
  {
    assert ([line] + rest)[1..] == rest;
  }

  /** A policy file is accepted and makes exactly the policy that its commands describe, whatever blank lines, comments
      and white space there are between them and around them. */
  lemma FileRead(parse: ParseDouble, files: Files, p: Policy, commands: seq<Command>, lines: seq<string>)
    requires ReadsIntegers(parse) && AllLegal(parse, files, p, commands)
    requires forall c <- commands :: Printable(c)
    requires Laid(lines, FileText(commands))
    ensures ReadLines(parse, files, Step(Go, p), lines) == Step(Go, Effects(p, commands))
  {
    PlainRead(parse, files, p, commands);
    LaidRead(parse, files, Step(Go, p), lines, FileText(commands));
  }
}
