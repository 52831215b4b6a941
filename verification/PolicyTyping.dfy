/** What holds of every policy that can be read from a file. */
module PolicyTyping {
  import opened CExpressions
  import opened Decimals
  import opened InlineStatements
  import opened JavaStrings
  import opened Options
  import opened Policies
  import opened Routines

  /** A header file has a line that declares the routine with the signature of its type. */
  ghost predicate Declared(files: Files, name: string, t: RoutineType) {
    exists f, i | f in files && 0 <= i < |files[f]| :: Routines.Validate(t, Trim(files[f][i])) == Some(name)
  }

  ghost predicate AllDeclared(files: Files, routines: map<string, RoutineType>) {
    forall n {:trigger Declared(files, n, routines[n])} | n in routines :: Declared(files, n, routines[n])
  }

  ghost predicate IsTranslation(text: string) {
    exists e :: Known(e) && text == Text(e)
  }

  /** A statement fits a slot if it is a translated expression or calls a routine of the slot's type. */
  ghost predicate Fits(routines: map<string, RoutineType>, s: Statement, slot: RoutineType) {
    && s.slot == slot
    && match s
       case Inline(_, text) => IsTranslation(text)
       case Call(_, name, _) => name in routines && routines[name] == slot
  }

  ghost predicate SlotOk(routines: map<string, RoutineType>, s: Option<Statement>, slot: RoutineType) {
    s.Some? ==> Fits(routines, s.value, slot)
  }

  ghost predicate QueueOk(routines: map<string, RoutineType>, n: string, q: Queue) {
    && q.name == n && n != []
    && SlotOk(routines, q.congestion, CongestionCondition)
    && SlotOk(routines, q.congAction, CongestionAction)
    && SlotOk(routines, q.admPrio, AdmissionPriority)
    && SlotOk(routines, q.procPrio, ProcessingPriority)
  }

  ghost predicate AllQueuesOk(routines: map<string, RoutineType>, queues: map<string, Queue>) {
    forall n {:trigger QueueOk(routines, n, queues[n])} | n in queues :: QueueOk(routines, n, queues[n])
  }

  ghost predicate PortOk(routines: map<string, RoutineType>, queues: map<string, Queue>, p: Port) {
    && (forall n <- p.queues :: n in queues)
    && SlotOk(routines, p.queueSelect, QueueSelector)
    && SlotOk(routines, p.schedPrio, SchedulingPriority)
  }

  ghost predicate Typed(files: Files, p: Policy) {
    && AllDeclared(files, p.routines)
    && AllQueuesOk(p.routines, p.queues)
    && (p.port.Some? ==> PortOk(p.routines, p.queues, p.port.value))
  }

  // Imports only add routines.

  predicate Kept(a: map<string, RoutineType>, b: map<string, RoutineType>) {
    forall n <- a :: n in b && b[n] == a[n]
  }

  lemma ImportLineAdds(s: Import, raw: string) returns (name: string, t: RoutineType)
    ensures var r := ImportLine(s, raw).routines;
            || r == s.routines
            || (name !in s.routines && Routines.Validate(t, Trim(raw)) == Some(name) && r == s.routines[name := t])
  {
    name, t := "", CongestionCondition;
    if ImportLine(s, raw).routines != s.routines {
      t := s.next.value;
      name := Routines.Validate(t, Trim(raw)).value;
    }
  }

  lemma OneDeclared(files: Files, f: string, i: nat, name: string, t: RoutineType)
    requires f in files && i < |files[f]| && Routines.Validate(t, Trim(files[f][i])) == Some(name)
    ensures Declared(files, name, t)
  {
  }

  lemma ImportLineKeeps(files: Files, s: Import, f: string, i: nat)
    requires AllDeclared(files, s.routines) && f in files && i < |files[f]|
    ensures var r := ImportLine(s, files[f][i]); AllDeclared(files, r.routines) && Kept(s.routines, r.routines)
  {
    var name, t := ImportLineAdds(s, files[f][i]);
    var r := ImportLine(s, files[f][i]).routines;
    if r != s.routines {
      OneDeclared(files, f, i, name, t);
      OneMoreDeclared(files, s.routines, name, t);
    }
  }

  lemma KeptWithMore(routines: map<string, RoutineType>, name: string, t: RoutineType)
    requires name !in routines
    ensures Kept(routines, routines[name := t])
  {
  }

  lemma OneMoreDeclared(files: Files, routines: map<string, RoutineType>, name: string, t: RoutineType)
    requires AllDeclared(files, routines) && name !in routines && Declared(files, name, t)
    ensures AllDeclared(files, routines[name := t]) && Kept(routines, routines[name := t])
  {
    KeptWithMore(routines, name, t);
    var more := routines[name := t];
    forall n | n in more ensures Declared(files, n, more[n]) {
      if n != name {
        assert Declared(files, n, routines[n]);
        assert more[n] == routines[n];
      }
    }
  }

  lemma {:induction false} ImportLinesKeep(files: Files, s: Import, f: string, i: nat)
    requires AllDeclared(files, s.routines) && f in files && i <= |files[f]|
    ensures var r := ImportLines(s, files[f][i..]); AllDeclared(files, r.routines) && Kept(s.routines, r.routines)
    decreases |files[f]| - i
  {
    if s.ok && i < |files[f]| {
      ImportLineKeeps(files, s, f, i);
      assert files[f][i..][1..] == files[f][i + 1..];
      ImportLinesKeep(files, ImportLine(s, files[f][i]), f, i + 1);
    }
  }

  lemma SlotKept(a: map<string, RoutineType>, b: map<string, RoutineType>, s: Option<Statement>, slot: RoutineType)
    requires Kept(a, b) && SlotOk(a, s, slot)
    ensures SlotOk(b, s, slot)
  {
  }

  lemma QueueKept(a: map<string, RoutineType>, b: map<string, RoutineType>, n: string, q: Queue)
    requires Kept(a, b) && QueueOk(a, n, q)
    ensures QueueOk(b, n, q)
  {
    SlotKept(a, b, q.congestion, CongestionCondition);
    SlotKept(a, b, q.congAction, CongestionAction);
    SlotKept(a, b, q.admPrio, AdmissionPriority);
    SlotKept(a, b, q.procPrio, ProcessingPriority);
  }

  lemma PortKept(a: map<string, RoutineType>, b: map<string, RoutineType>, queues: map<string, Queue>, p: Port)
    requires Kept(a, b) && PortOk(a, queues, p)
    ensures PortOk(b, queues, p)
  {
    SlotKept(a, b, p.queueSelect, QueueSelector);
    SlotKept(a, b, p.schedPrio, SchedulingPriority);
  }

  lemma ImportTyped(files: Files, p: Policy, line: string)
    requires Typed(files, p)
    ensures Typed(files, ImportInto(files, p, line).policy)
  {
    var q := ImportInto(files, p, line).policy;
    if q != p {
      var name := Trim(Split(line, '"')[1]);
      assert files[name][0..] == files[name];
      ImportLinesKeep(files, Import(true, p.routines, None), name, 0);
      forall n | n in q.queues ensures QueueOk(q.routines, n, q.queues[n]) {
        assert QueueOk(p.routines, n, p.queues[n]);
        QueueKept(p.routines, q.routines, n, q.queues[n]);
      }
      if q.port.Some? {
        PortKept(p.routines, q.routines, q.queues, q.port.value);
      }
    }
  }

  // Declarations and assignments.

  lemma BindFits(parse: ParseDouble, routines: map<string, RoutineType>, rhs: string, slot: RoutineType)
    requires Bind(parse, routines, rhs, slot).Bound?
    ensures Fits(routines, Bind(parse, routines, rhs, slot).statement, slot)
  {
    if StartsWith(rhs, "inline") {
      var e := Sound(parse, rhs);
      assert IsTranslation(Text(e));
    }
  }

  lemma QueueSetTyped(files: Files, p: Policy, n: string, s: Statement)
    requires Typed(files, p) && n in p.queues && Fits(p.routines, s, s.slot)
    ensures Typed(files, p.(queues := p.queues[n := SetQueue(p.queues[n], s)]))
  {
    var queues := p.queues[n := SetQueue(p.queues[n], s)];
    forall m | m in queues ensures QueueOk(p.routines, m, queues[m]) {
      assert QueueOk(p.routines, m, p.queues[m]);
    }
  }

  lemma PortSetTyped(files: Files, p: Policy, s: Statement)
    requires Typed(files, p) && p.port.Some? && Fits(p.routines, s, s.slot)
    ensures Typed(files, p.(port := Some(SetPort(p.port.value, s))))
  {
  }

  lemma AssignTyped(files: Files, parse: ParseDouble, p: Policy, line: string)
    requires Typed(files, p)
    ensures Typed(files, Assign(parse, p, line).policy)
  {
    if Assign(parse, p, line).policy != p {
      var (object_, attr, rhs) := Assignment(line).value;
      var slot := if object_ in p.queues then QueueSlot(attr).value else PortSlot(attr).value;
      var s := Bind(parse, p.routines, rhs, slot).statement;
      BindFits(parse, p.routines, rhs, slot);
      if object_ in p.queues {
        QueueSetTyped(files, p, object_, s);
      } else {
        PortSetTyped(files, p, s);
      }
    }
  }

  lemma QueueTyped(files: Files, p: Policy, line: string)
    requires Typed(files, p)
    ensures Typed(files, DeclareQueue(p, line).policy)
  {
    var queues := DeclareQueue(p, line).policy.queues;
    forall n | n in queues ensures QueueOk(p.routines, n, queues[n]) {
      if n in p.queues {
        assert QueueOk(p.routines, n, p.queues[n]);
      }
    }
  }

  lemma PortTyped(files: Files, p: Policy, line: string)
    requires Typed(files, p)
    ensures Typed(files, DeclarePort(p, line).policy)
  {
  }

  lemma LineTyped(files: Files, parse: ParseDouble, p: Policy, raw: string)
    requires Typed(files, p)
    ensures Typed(files, ReadLine(parse, files, p, raw).policy)
  {
    var line := Trim(raw);
    ImportTyped(files, p, line);
    QueueTyped(files, p, line);
    PortTyped(files, p, line);
    AssignTyped(files, parse, p, line);
  }

  /** Whatever the lines are, and whether they are accepted or not, the policy read from them is typed. */
  lemma {:induction false} LinesTyped(files: Files, parse: ParseDouble, s: Step, lines: seq<string>)
    requires Typed(files, s.policy)
    ensures Typed(files, ReadLines(parse, files, s, lines).policy)
    decreases |lines|
  {
    if s.verdict.Go? && lines != [] {
      LineTyped(files, parse, s.policy, lines[0]);
      LinesTyped(files, parse, ReadLine(parse, files, s.policy, lines[0]), lines[1..]);
    }
  }

  /** The statement that code generation takes for a slot of a queue. */
  function QueueStatement(q: Queue, slot: RoutineType): Option<Statement> {
    match slot
    case CongestionCondition => q.congestion
    case CongestionAction => q.congAction
    case AdmissionPriority => q.admPrio
    case ProcessingPriority => q.procPrio
    case _ => None
  }

  function PortStatement(p: Port, slot: RoutineType): Option<Statement> {
    match slot
    case QueueSelector => p.queueSelect
    case SchedulingPriority => p.schedPrio
    case _ => None
  }

  predicate OfQueue(slot: RoutineType) {
    !slot.QueueSelector? && !slot.SchedulingPriority?
  }

  /**
   * A statement ready to be emitted for a slot: there is one, and it is a translated expression or a call to a routine
   * that a header declares with the signature of the slot, whose leading parameters the call fills from what is in
   * scope.
   */
  ghost predicate Ready(files: Files, s: Option<Statement>, slot: RoutineType) {
    && s.Some?
    && match s.value
       case Inline(_, text) => IsTranslation(text)
       case Call(t, name, _) => t == slot && Declared(files, name, slot)
  }

  ghost predicate AllReady(files: Files, p: Policy, slot: RoutineType)
    requires p.port.Some?
  {
    if OfQueue(slot) then forall n <- p.queues :: Ready(files, QueueStatement(p.queues[n], slot), slot)
    else Ready(files, PortStatement(p.port.value, slot), slot)
  }

  lemma TypedIsReady(files: Files, p: Policy, slot: RoutineType)
    requires Typed(files, p) && WellDefined(p)
    ensures AllReady(files, p, slot)
  {
    if OfQueue(slot) {
      forall n | n in p.queues ensures Ready(files, QueueStatement(p.queues[n], slot), slot) {
        assert QueueOk(p.routines, n, p.queues[n]) && QueueDefined(p.queues[n]);
        FitsIsReady(files, p, QueueStatement(p.queues[n], slot), slot);
      }
    } else {
      FitsIsReady(files, p, PortStatement(p.port.value, slot), slot);
    }
  }

  /** Every policy that is accepted and well-defined has a fitting statement in each slot that is emitted. */
  lemma AcceptedIsReady(files: Files, parse: ParseDouble, lines: seq<string>, slot: RoutineType)
    requires var s := ReadLines(parse, files, Step(Go, EMPTY), lines); s.verdict.Go? && WellDefined(s.policy)
    ensures AllReady(files, ReadLines(parse, files, Step(Go, EMPTY), lines).policy, slot)
  {
    LinesTyped(files, parse, Step(Go, EMPTY), lines);
    TypedIsReady(files, ReadLines(parse, files, Step(Go, EMPTY), lines).policy, slot);
  }

  lemma FitsIsReady(files: Files, p: Policy, s: Option<Statement>, slot: RoutineType)
    requires AllDeclared(files, p.routines) && s.Some? && SlotOk(p.routines, s, slot)
    ensures Ready(files, s, slot)
  {
    if s.value.Call? {
      assert Declared(files, s.value.name, p.routines[s.value.name]);
    }
  }

  function ParamsOf(s: Statement): seq<Double>
    requires s.Call?
  {
    if s.params.None? then [] else s.params.value
  }

  /**
   * A call that is emitted for a slot, read back from its text, against the header line that declares the routine: the
   * leading arguments are in scope there and of the types the header asks for, in its order, and the next one is the
   * number of those that follow.
   */
  lemma EmittedCallFits(files: Files, s: Statement, slot: RoutineType, show: ShowDouble) returns (line: string)
    requires s.Call? && Ready(files, Some(s), slot)
    requires forall d :: IsArgument(show(d))
    ensures Routines.Validate(slot, line) == Some(s.name)
    ensures var text := CallText(s.slot, s.name, show, ParamsOf(s));
            var n := |Leading(slot)|;
            && 0 <= IndexOf(text, '(') < |text| - 1 && text[..IndexOf(text, '(')] == s.name
            && |HeaderParams(line)| == n + 2 && |ArgumentsOf(text)| == n + 1 + |ParamsOf(s)|
            && (forall i :: 0 <= i < n ==>
                  && |Words(HeaderParams(line)[i])| > 1
                  && (Trim(Words(HeaderParams(line)[i])[1]), ArgumentsOf(text)[i]) in Scope(slot))
            && AllDigits(ArgumentsOf(text)[n]) && Value(ArgumentsOf(text)[n]) == |ParamsOf(s)|
  {
    var f, i :| f in files && 0 <= i < |files[f]| && Routines.Validate(slot, Trim(files[f][i])) == Some(s.name);
    line := Trim(files[f][i]);
    NameLacksParenthesis(slot, line);
    CallRead(slot, s.name, show, ParamsOf(s));
    LeadingRead(slot, line, ArgumentsOf(CallText(slot, s.name, show, ParamsOf(s))));
  }

  lemma LeadingRead(slot: RoutineType, line: string, args: seq<string>)
    requires Routines.Validate(slot, line).Some? && |args| >= |Leading(slot)| &&
             args[..|Leading(slot)|] == Leading(slot)
    ensures |HeaderParams(line)| == |Leading(slot)| + 2
    ensures forall i :: 0 <= i < |Leading(slot)| ==>
              |Words(HeaderParams(line)[i])| > 1 && (Trim(Words(HeaderParams(line)[i])[1]), args[i]) in Scope(slot)
  {
    forall i | 0 <= i < |Leading(slot)|
      ensures |Words(HeaderParams(line)[i])| > 1 && (Trim(Words(HeaderParams(line)[i])[1]), args[i]) in Scope(slot)
    {
      LeadingFits(slot, line, i);
      assert args[i] == args[..|Leading(slot)|][i];
    }
  }
}
