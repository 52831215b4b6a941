/** What the lines of a policy file mean: routines, queues and a port, with statements bound to their slots. */
module Policies {
  import opened Decimals
  import opened InlineStatements
  import opened JavaStrings
  import opened Options
  import opened Routines

  /** A statement remembers the type of the slot it was made for. */
  datatype Statement =
    | Inline(slot: RoutineType, text: string)
    | Call(slot: RoutineType, name: string, params: Option<seq<Double>>)

  datatype Queue = Queue(name: string, size: int, congestion: Option<Statement>, congAction: Option<Statement>,
                         admPrio: Option<Statement>, procPrio: Option<Statement>)

  datatype Port = Port(name: string, queues: seq<string>, queueSelect: Option<Statement>, schedPrio: Option<Statement>)

  datatype Policy = Policy(routines: map<string, RoutineType>, queues: map<string, Queue>, port: Option<Port>)

  const EMPTY := Policy(map[], map[], None)

  /** The header files that can be imported, as lines. */
  type Files = map<string, seq<string>>

  datatype Verdict = Go | Refuse | Throw

  // Header files.

  function TagName(t: RoutineType): string {
    match t
    case CongestionCondition => "oq_cong_func"
    case CongestionAction => "oq_cong_act_func"
    case AdmissionPriority => "oq_admn_func"
    case ProcessingPriority => "oq_proc_func"
    case QueueSelector => "oq_qsel_func"
    case SchedulingPriority => "oq_schd_func"
  }

  function Tag(t: RoutineType): string {
    ['@'] + TagName(t)
  }

  function Annotation(line: string): Option<RoutineType> {
    if Contains(line, Tag(QueueSelector)) then Some(QueueSelector)
    else if Contains(line, Tag(CongestionCondition)) then Some(CongestionCondition)
    else if Contains(line, Tag(CongestionAction)) then Some(CongestionAction)
    else if Contains(line, Tag(AdmissionPriority)) then Some(AdmissionPriority)
    else if Contains(line, Tag(ProcessingPriority)) then Some(ProcessingPriority)
    else if Contains(line, Tag(SchedulingPriority)) then Some(SchedulingPriority)
    else None
  }

  /** The routines known so far and the type announced for the next one. */
  datatype Import = Import(ok: bool, routines: map<string, RoutineType>, next: Option<RoutineType>)

  function ImportLine(s: Import, raw: string): Import {
    var line := Trim(raw);
    if StartsWith(line, "//") then s.(next := Annotation(line))
    else if line == [] || s.next.None? then s
    else
      var name := Routines.Validate(s.next.value, line);
      if name.None? || name.value in s.routines then s.(ok := false)
      else s.(routines := s.routines[name.value := s.next.value], next := None)
  }

  /** A whole header file; the first bad line ends it. */
  function ImportLines(s: Import, lines: seq<string>): Import
    decreases |lines|
  {
    if !s.ok || lines == [] then s else ImportLines(ImportLine(s, lines[0]), lines[1..])
  }

  predicate IsHeaderName(name: string) {
    var tokens := Split(name, '.');
    |tokens| == 2 && tokens[1] == "h"
  }

  function ImportFile(files: Files, routines: map<string, RoutineType>, name: string): Import {
    if !IsHeaderName(name) || name !in files then Import(false, routines, None)
    else ImportLines(Import(true, routines, None), files[name])
  }

  // Declarations.

  /** A number without the sign in front of it. */
  function Unsigned(s: string): string {
    if s != [] && (s[0] == '-' || s[0] == '+') then s[1..] else s
  }

  /** `Integer.parseInt` */
  function ParseInt(s: string): Option<int> {
    var digits := Unsigned(s);
    if digits == [] || !AllDigits(digits) then None else
      var n := if s[0] == '-' then 0 - Value(digits) else Value(digits);
      if -0x8000_0000 <= n < 0x8000_0000 then Some(n) else None
  }

  /** The name and the text between the parentheses of `KIND name = KIND(...);`. */
  function Declaration(line: string, kind: string): Option<(string, string)> {
    var sides := Split(line, '=');
    if |sides| != 2 then None else
    var lhs := Split(Trim(sides[0]), ' ');
    if |lhs| != 2 || lhs[0] != kind || Trim(lhs[1]) == [] then None else
    var rhs := Split(Trim(sides[1]), '(');
    if |rhs| != 2 || Trim(rhs[0]) != kind then None else
    var inside := Split(rhs[1], ')');
    if |inside| != 2 then None else Some((Trim(lhs[1]), inside[0]))
  }

  function QueueDeclaration(line: string): Option<Queue> {
    var d := Declaration(line, "Queue");
    if d.None? then None else
    var size := ParseInt(Trim(d.value.1));
    if size.None? then None else Some(Queue(d.value.0, size.value, None, None, None, None))
  }

  function Trimmed(tokens: seq<string>): seq<string> {
    seq(|tokens|, i requires 0 <= i < |tokens| => Trim(tokens[i]))
  }

  function PortDeclaration(queues: map<string, Queue>, line: string): Option<Port> {
    var d := Declaration(line, "Port");
    if d.None? then None else
    var names := Trimmed(Split(d.value.1, ','));
    if names == [] || exists n <- names :: n !in queues then None else Some(Port(d.value.0, names, None, None))
  }

  // Assignments.

  function Values(parse: ParseDouble, tokens: seq<string>): Option<seq<Double>> {
    if tokens == [] then Some([]) else
    var first := parse(Trim(tokens[0]));
    if first.None? then None else
    var rest := Values(parse, tokens[1..]);
    if rest.None? then None else Some([first.value] + rest.value)
  }

  datatype Binding = Bound(statement: Statement) | NotBound | BindingThrew

  function RoutineName(rhs: string): string {
    if '(' in rhs then rhs[..IndexOf(rhs, '(')] else rhs
  }

  /** The statement that the right-hand side of an assignment makes for a slot. */
  function Bind(parse: ParseDouble, routines: map<string, RoutineType>, rhs: string, slot: RoutineType): Binding {
    if StartsWith(rhs, "inline") then
      match InlineStatements.Validate(parse, rhs)
      case Accepted(text) => Bound(Inline(slot, text))
      case Rejected => NotBound
      case Threw => BindingThrew
    else
      var name := RoutineName(rhs);
      if name !in routines || routines[name] != slot then NotBound
      else if !('(' in rhs && ')' in rhs) then Bound(Call(slot, name, None))
      else if IndexOf(rhs, ')') < IndexOf(rhs, '(') + 1 then BindingThrew
      else
        var tokens := Split(Trim(rhs[IndexOf(rhs, '(') + 1..IndexOf(rhs, ')')]), ',');
        if tokens == [] then Bound(Call(slot, name, None)) else
        var values := Values(parse, tokens);
        if values.None? then NotBound else Bound(Call(slot, name, values))
  }

  function QueueSlot(attr: string): Option<RoutineType> {
    if attr == "congestion" then Some(CongestionCondition)
    else if attr == "congAction" then Some(CongestionAction)
    else if attr == "admPrio" then Some(AdmissionPriority)
    else if attr == "procPrio" then Some(ProcessingPriority)
    else None
  }

  function PortSlot(attr: string): Option<RoutineType> {
    if attr == "queueSelect" then Some(QueueSelector)
    else if attr == "schedPrio" then Some(SchedulingPriority)
    else None
  }

  function SetQueue(q: Queue, s: Statement): Queue {
    match s.slot
    case CongestionCondition => q.(congestion := Some(s))
    case CongestionAction => q.(congAction := Some(s))
    case AdmissionPriority => q.(admPrio := Some(s))
    case ProcessingPriority => q.(procPrio := Some(s))
    case _ => q
  }

  function SetPort(p: Port, s: Statement): Port {
    match s.slot
    case QueueSelector => p.(queueSelect := Some(s))
    case SchedulingPriority => p.(schedPrio := Some(s))
    case _ => p
  }

  /** A verdict on the lines read so far and the policy they made. */
  datatype Step = Step(verdict: Verdict, policy: Policy)

  function Fail(b: Binding): Verdict {
    if b.BindingThrew? then Throw else Refuse
  }

  /** The object, the attribute and the right-hand side of an assignment. */
  function Assignment(line: string): Option<(string, string, string)> {
    var sides := SplitAt(line, " = ");
    if |sides| != 2 then None else
    var target := Split(Trim(sides[0]), '.');
    if |target| != 2 then None else
    Some((target[0], target[1], Trim(Replace(Trim(sides[1]), ';', ' '))))
  }

  function Assign(parse: ParseDouble, p: Policy, line: string): Step {
    var a := Assignment(line);
    if a.None? then Step(Refuse, p) else
    var (object_, attr, rhs) := a.value;
    if object_ in p.queues then
      if QueueSlot(attr).None? then Step(Refuse, p) else
      var b := Bind(parse, p.routines, rhs, QueueSlot(attr).value);
      if !b.Bound? then Step(Fail(b), p)
      else Step(Go, p.(queues := p.queues[object_ := SetQueue(p.queues[object_], b.statement)]))
    else if p.port.Some? && p.port.value.name == object_ then
      if PortSlot(attr).None? then Step(Refuse, p) else
      var b := Bind(parse, p.routines, rhs, PortSlot(attr).value);
      if !b.Bound? then Step(Fail(b), p)
      else Step(Go, p.(port := Some(SetPort(p.port.value, b.statement))))
    else
      Step(Refuse, p)
  }

  // Files.

  function ImportInto(files: Files, p: Policy, line: string): (r: Step)
    ensures !r.verdict.Throw?
  {
    var tokens := Split(line, '"');
    if |tokens| != 2 || Trim(tokens[0]) != "import" then Step(Refuse, p) else
    var i := ImportFile(files, p.routines, Trim(tokens[1]));
    Step(if i.ok then Go else Refuse, p.(routines := i.routines))
  }

  function DeclareQueue(p: Policy, line: string): (r: Step)
    ensures !r.verdict.Throw?
  {
    var q := QueueDeclaration(line);
    if q.None? then Step(Refuse, p) else Step(Go, p.(queues := p.queues[q.value.name := q.value]))
  }

  function DeclarePort(p: Policy, line: string): (r: Step)
    ensures !r.verdict.Throw?
  {
    var port := PortDeclaration(p.queues, line);
    Step(if port.None? then Refuse else Go, p.(port := port))
  }

  function ReadLine(parse: ParseDouble, files: Files, p: Policy, raw: string): Step {
    var line := Trim(raw);
    if StartsWith(line, "//") || line == [] then Step(Go, p)
    else if StartsWith(line, "import") then ImportInto(files, p, line)
    else if line[|line| - 1] != ';' then Step(Refuse, p)
    else if StartsWith(line, "Queue") then DeclareQueue(p, line)
    else if StartsWith(line, "Port") then DeclarePort(p, line)
    else Assign(parse, p, line)
  }

  /** A whole policy file; the first line that is not accepted ends it. */
  function ReadLines(parse: ParseDouble, files: Files, s: Step, lines: seq<string>): Step
    decreases |lines|
  {
    if !s.verdict.Go? || lines == [] then s
    else ReadLines(parse, files, ReadLine(parse, files, s.policy, lines[0]), lines[1..])
  }

  predicate QueueDefined(q: Queue) {
    q.admPrio.Some? && q.congestion.Some? && q.congAction.Some? && q.procPrio.Some?
  }

  predicate PortDefined(p: Port) {
    p.queueSelect.Some? && p.schedPrio.Some? && p.queues != []
  }

  predicate WellDefined(p: Policy) {
    p.port.Some? && PortDefined(p.port.value) && forall n <- p.queues :: QueueDefined(p.queues[n])
  }
}
