/** What one line of a policy file can change, whatever is in it. */
module PolicyChanges {
  import opened HeaderText
  import opened InlineStatements
  import opened JavaStrings
  import opened Layouts
  import opened Options
  import opened Policies
  import opened PolicyFiles
  import opened PolicyMeaning
  import opened PolicyText
  import opened PolicyTyping
  import opened Routines

  predicate OnlyMore(before: map<string, RoutineType>, after: map<string, RoutineType>) {
    forall n <- before :: n in after && after[n] == before[n]
  }

  lemma {:induction false} ImportsOnlyMore(s: Import, lines: seq<string>)
    ensures OnlyMore(s.routines, ImportLines(s, lines).routines)
    decreases |lines|
  {
    if s.ok && lines != [] {
      ImportsOnlyMore(ImportLine(s, lines[0]), lines[1..]);
    }
  }

  /** Nothing but the routines has changed, and they have only become more. */
  predicate RoutinesImported(p: Policy, p': Policy) {
    p' == p.(routines := p'.routines) && OnlyMore(p.routines, p'.routines)
  }

  // Which headers are accepted.

  /** The lines declare the routines: a line is taken for a declaration if the last line above it that is not blank is a
      comment with an annotation, and then it has the signature of the announced type. At first `next` is. */
  predicate Names(next: Option<RoutineType>, lines: seq<string>, routines: seq<Routine>)
    decreases |lines|
  {
    if lines == [] then routines == []
    else if Blank(lines[0]) then Names(next, lines[1..], routines)
    else if IsComment(lines[0]) then Names(Annotation(lines[0]), lines[1..], routines)
    else if next.None? then Names(None, lines[1..], routines)
    else
      && routines != [] && routines[0].t == next.value
      && Routines.Validate(next.value, Trim(lines[0])) == Some(routines[0].name)
      && Names(None, lines[1..], routines[1..])
  }

  /** None of them is in the table, and no two have the same name. */
  predicate AllNew(table: map<string, RoutineType>, routines: seq<Routine>)
    decreases |routines|
  {
    routines == [] ||
    (routines[0].name !in table && AllNew(table[routines[0].name := routines[0].t], routines[1..]))
  }

  lemma {:induction false} NamedImported(table: map<string, RoutineType>, next: Option<RoutineType>,
                                         lines: seq<string>, routines: seq<Routine>)
    requires Names(next, lines, routines) && AllNew(table, routines)
    ensures var i := ImportLines(Import(true, table, next), lines); i.ok && i.routines == Added(table, routines)
    decreases |lines|
  {
    var s := Import(true, table, next);
    if lines != [] {
      LineImported(s, lines[0]);
      BlankTrim(lines[0]);
      CommentTrim(lines[0]);
      if Blank(lines[0]) || IsComment(lines[0]) || next.None? {
        NamedImported(table, ImportLine(s, lines[0]).next, lines[1..], routines);
      } else {
        NamedImported(table[routines[0].name := routines[0].t], None, lines[1..], routines[1..]);
      }
    }
  }

  lemma {:induction false} ImportedNames(table: map<string, RoutineType>, next: Option<RoutineType>,
                                         lines: seq<string>) returns (routines: seq<Routine>)
    requires ImportLines(Import(true, table, next), lines).ok
    ensures Names(next, lines, routines) && AllNew(table, routines)
    decreases |lines|
  {
    var s := Import(true, table, next);
    if lines == [] {
      routines := [];
    } else {
      LineImported(s, lines[0]);
      BlankTrim(lines[0]);
      CommentTrim(lines[0]);
      if Blank(lines[0]) || IsComment(lines[0]) || next.None? {
        routines := ImportedNames(table, ImportLine(s, lines[0]).next, lines[1..]);
      } else {
        var r := Routine(next.value, Routines.Validate(next.value, Trim(lines[0])).value);
        var rest := ImportedNames(table[r.name := r.t], None, lines[1..]);
        routines := [r] + rest;
        assert routines[1..] == rest;
      }
    }
  }

  /** The routines are those the header declares, and they can be added to the table. */
  predicate Adds(table: map<string, RoutineType>, lines: seq<string>, routines: seq<Routine>) {
    Names(None, lines, routines) && AllNew(table, routines)
  }

  /** A header is accepted if and only if each line that an annotation announces declares a new routine of that type;
      then it adds exactly these. */
  lemma HeaderAcceptedIff(table: map<string, RoutineType>, lines: seq<string>)
    ensures ImportLines(Import(true, table, None), lines).ok <==> exists routines :: Adds(table, lines, routines)
    ensures forall routines | Adds(table, lines, routines) ::
              ImportLines(Import(true, table, None), lines).routines == Added(table, routines)
  {
    if ImportLines(Import(true, table, None), lines).ok {
      var routines := ImportedNames(table, None, lines);
      assert Adds(table, lines, routines);
    }
    forall routines | Adds(table, lines, routines)
      ensures ImportLines(Import(true, table, None), lines).ok
      ensures ImportLines(Import(true, table, None), lines).routines == Added(table, routines)
    {
      NamedImported(table, None, lines, routines);
    }
  }

  /** The routines of a header that is there have been added, and nothing else has changed. */
  ghost predicate HeaderAdded(files: Files, p: Policy, p': Policy, file: string) {
    && IsHeaderName(file) && file in files
    && exists routines ::
         Adds(p.routines, files[file], routines) && p' == p.(routines := Added(p.routines, routines))
  }

  lemma HeaderImported(files: Files, p: Policy, text: string) returns (file: string)
    requires ImportInto(files, p, text).verdict.Go?
    ensures HeaderAdded(files, p, ImportInto(files, p, text).policy, file)
  {
    file := Trim(Split(text, '"')[1]);
    var routines := ImportedNames(p.routines, None, files[file]);
    NamedImported(p.routines, None, files[file], routines);
    assert Adds(p.routines, files[file], routines);
  }

  // What an accepted line changes.

  /** A queue without statements has been declared, and nothing else has changed. */
  predicate QueueDeclared(p: Policy, p': Policy, name: string) {
    && name in p'.queues && IsDeclarable(name)
    && p' == p.(queues := p.queues[name := Queue(name, p'.queues[name].size, None, None, None, None)])
  }

  /** A port over declared queues, without statements, has been declared, and nothing else has changed. */
  predicate PortDeclared(p: Policy, p': Policy) {
    && p'.port.Some? && p' == p.(port := p'.port)
    && p'.port.value.queues != [] && (forall n <- p'.port.value.queues :: n in p.queues)
    && p'.port.value.queueSelect.None? && p'.port.value.schedPrio.None?
  }

  /** One slot of a declared queue, or of the port, has been set, and nothing else has changed. */
  ghost predicate SlotSet(p: Policy, p': Policy, target: string, slot: RoutineType, s: Statement) {
    && HasSlot(p, target, slot) && s.slot == slot
    && p'.routines == p.routines && p'.queues.Keys == p.queues.Keys
    && (forall n <- p.queues :: p'.queues[n].name == p.queues[n].name && p'.queues[n].size == p.queues[n].size)
    && (p'.port.Some? <==> p.port.Some?)
    && (p.port.Some? ==> p'.port.value.name == p.port.value.name && p'.port.value.queues == p.port.value.queues)
    && forall n: string, t: RoutineType :: Held(p', n, t) ==
         if t == slot && (OfQueue(slot) ==> n == target) then Some(s) else Held(p, n, t)
  }

  lemma QueueSet(p: Policy, target: string, s: Statement)
    requires target in p.queues && OfQueue(s.slot)
    ensures SlotSet(p, p.(queues := p.queues[target := SetQueue(p.queues[target], s)]), target, s.slot, s)
  {
  }

  lemma PortSet(p: Policy, s: Statement)
    requires p.port.Some? && p.port.value.name !in p.queues && !OfQueue(s.slot)
    ensures SlotSet(p, p.(port := Some(SetPort(p.port.value, s))), p.port.value.name, s.slot, s)
  {
  }

  lemma BoundForSlot(parse: ParseDouble, routines: map<string, RoutineType>, rhs: string, slot: RoutineType)
    requires Bind(parse, routines, rhs, slot).Bound?
    ensures Bind(parse, routines, rhs, slot).statement.slot == slot
  {
  }

  lemma QueueBinding(parse: ParseDouble, p: Policy, line: string) returns (s: Statement)
    requires Assign(parse, p, line).verdict.Go? && Assignment(line).value.0 in p.queues
    ensures var target := Assignment(line).value.0;
            && OfQueue(s.slot)
            && Assign(parse, p, line).policy == p.(queues := p.queues[target := SetQueue(p.queues[target], s)])
  {
    var (_, attr, rhs) := Assignment(line).value;
    var slot := QueueSlot(attr).value;
    BoundForSlot(parse, p.routines, rhs, slot);
    s := Bind(parse, p.routines, rhs, slot).statement;
  }

  lemma QueueAssigned(parse: ParseDouble, p: Policy, line: string) returns (s: Statement)
    requires Assign(parse, p, line).verdict.Go? && Assignment(line).value.0 in p.queues
    ensures SlotSet(p, Assign(parse, p, line).policy, Assignment(line).value.0, s.slot, s)
  {
    s := QueueBinding(parse, p, line);
    QueueSet(p, Assignment(line).value.0, s);
  }

  lemma PortAssigned(parse: ParseDouble, p: Policy, line: string) returns (s: Statement)
    requires Assign(parse, p, line).verdict.Go? && Assignment(line).value.0 !in p.queues
    ensures SlotSet(p, Assign(parse, p, line).policy, Assignment(line).value.0, s.slot, s)
  {
    var (_, attr, rhs) := Assignment(line).value;
    var slot := PortSlot(attr).value;
    BoundForSlot(parse, p.routines, rhs, slot);
    s := Bind(parse, p.routines, rhs, slot).statement;
    PortSet(p, s);
  }

  lemma Assignments(parse: ParseDouble, p: Policy, line: string) returns (target: string, s: Statement)
    requires Assign(parse, p, line).verdict.Go?
    ensures SlotSet(p, Assign(parse, p, line).policy, target, s.slot, s)
  {
    target := Assignment(line).value.0;
    if target in p.queues {
      s := QueueAssigned(parse, p, line);
    } else {
      s := PortAssigned(parse, p, line);
    }
  }

  /** The last visible character of a line is a semicolon. */
  predicate Terminated(line: string) {
    exists i | 0 <= i < |line| :: line[i] == ';' && Blank(line[i + 1..])
  }

  lemma {:induction false} BackOf(s: string)
    ensures TrimBack(s) <= s && Blank(s[|TrimBack(s)|..])
  {
    if s != [] && s[|s| - 1] <= ' ' {
      var t := s[..|s| - 1];
      BackOf(t);
      assert s[|TrimBack(t)|..] == t[|TrimBack(t)|..] + [s[|s| - 1]];
    }
  }

  lemma {:induction false} FrontOf(s: string)
    ensures |TrimFront(s)| <= |s| && TrimFront(s) == s[|s| - |TrimFront(s)|..]
  {
    if s != [] && s[0] <= ' ' {
      FrontOf(s[1..]);
      var n := |TrimFront(s)|;
      assert s[1..][|s| - 1 - n..] == s[|s| - n..];
    }
  }

  lemma TerminatedTrim(line: string)
    requires Trim(line) != [] && Trim(line)[|Trim(line)| - 1] == ';'
    ensures Terminated(line)
  {
    FrontOf(line);
    BackOf(TrimFront(line));
    var a, n := |line| - |TrimFront(line)|, |Trim(line)|;
    var i := a + n - 1;
    assert TrimFront(line)[n - 1] == ';' && line[i] == ';';
    assert line[i + 1..] == TrimFront(line)[n..];
  }

  /** What an accepted line has changed: nothing if it is blank or a comment, the routines if it imports a header, and
      otherwise one queue, the port or one slot, if it ends with a semicolon. */
  ghost predicate Changed(files: Files, p: Policy, p': Policy, line: string) {
    if Blank(line) || IsComment(line) then p' == p
    else
      || (exists file :: HeaderAdded(files, p, p', file))
      || (Terminated(line) && (
            || (exists n :: QueueDeclared(p, p', n))
            || PortDeclared(p, p')
            || exists n, s: Statement :: SlotSet(p, p', n, s.slot, s)))
  }

  lemma AcceptedLine(parse: ParseDouble, files: Files, p: Policy, line: string)
    requires ReadLine(parse, files, p, line).verdict.Go?
    ensures Changed(files, p, ReadLine(parse, files, p, line).policy, line)
    ensures !Blank(line) && !IsComment(line) && !StartsWith(Trim(line), "import") ==> Terminated(line)
  {
    var text, p' := Trim(line), ReadLine(parse, files, p, line).policy;
    BlankTrim(line);
    CommentTrim(line);
    if !Blank(line) && !IsComment(line) {
      if StartsWith(text, "import") {
        var file := HeaderImported(files, p, text);
      } else {
        TerminatedTrim(line);
        if StartsWith(text, "Queue") {
          DeclaredName(text, "Queue");
          assert QueueDeclared(p, p', QueueDeclaration(text).value.name);
        } else if StartsWith(text, "Port") {
          assert PortDeclared(p, p');
        } else {
          var n, s := Assignments(parse, p, text);
        }
      }
    }
  }

  lemma ImportChanges(files: Files, p: Policy, text: string)
    ensures RoutinesImported(p, ImportInto(files, p, text).policy)
  {
    var tokens := Split(text, '"');
    if |tokens| == 2 && Trim(tokens[0]) == "import" {
      var name := Trim(tokens[1]);
      if IsHeaderName(name) && name in files {
        ImportsOnlyMore(Import(true, p.routines, None), files[name]);
      }
    }
  }

  lemma AssignRefused(parse: ParseDouble, p: Policy, line: string)
    requires !Assign(parse, p, line).verdict.Go?
    ensures Assign(parse, p, line).policy == p
  {
  }

  /** A line that is not accepted leaves the queues and their statements as they are; it may have read a part of a
      header, and a bad declaration of a port takes the port away. */
  lemma RefusedLine(parse: ParseDouble, files: Files, p: Policy, line: string)
    requires !ReadLine(parse, files, p, line).verdict.Go?
    ensures var p' := ReadLine(parse, files, p, line).policy; RoutinesImported(p, p') || p' == p.(port := None)
  {
    var text := Trim(line);
    if StartsWith(text, "import") {
      ImportChanges(files, p, text);
    } else if text[|text| - 1] == ';' && !StartsWith(text, "Queue") && !StartsWith(text, "Port") {
      AssignRefused(parse, p, text);
    }
  }
}
