/** The policy compiler's parser: it reads a policy file line by line into its tables. */
module OqGen {
  import opened InlineStatements
  import opened JavaStrings
  import opened Options
  import opened Policies
  import opened Routines

  function Prepend(v: seq<Double>, rest: Option<seq<Double>>): Option<seq<Double>> {
    if rest.None? then None else Some(v + rest.value)
  }

  lemma PrependNothing(v: seq<Double>, rest: Option<seq<Double>>)
    ensures Prepend([], rest) == rest && Prepend(v, Some([])) == Some(v)
  {
    assert v + [] == v;
    if rest.Some? {
      assert [] + rest.value == rest.value;
    }
  }

  lemma PrependMore(v: seq<Double>, x: Double, rest: Option<seq<Double>>)
    ensures Prepend(v, Prepend([x], rest)) == Prepend(v + [x], rest)
  {
    if rest.Some? {
      assert v + ([x] + rest.value) == (v + [x]) + rest.value;
    }
  }

  class Compiler {
    var routines: map<string, RoutineType>
    var queues: map<string, Queue>
    var port: Option<Port>

    function State(): Policy
      reads this
    {
      Policy(routines, queues, port)
    }

    constructor ()
      ensures State() == EMPTY
    {
      routines, queues, port := map[], map[], None;
    }

    method ParsePolicyFile(parse: ParseDouble, files: Files, lines: seq<string>) returns (v: Verdict)
      modifies this
      ensures Step(v, State()) == ReadLines(parse, files, Step(Go, old(State())), lines)
    {
      for i := 0 to |lines|
        invariant ReadLines(parse, files, Step(Go, State()), lines[i..]) ==
                  ReadLines(parse, files, Step(Go, old(State())), lines)
      {
        assert lines[i..][1..] == lines[i + 1..];
        v := ProcessLine(parse, files, lines[i]);
        if !v.Go? {
          return;
        }
      }
      v := Go;
    }

    method ProcessLine(parse: ParseDouble, files: Files, raw: string) returns (v: Verdict)
      modifies this
      ensures Step(v, State()) == ReadLine(parse, files, old(State()), raw)
    {
      var line := Trim(raw);
      v := Go;
      if StartsWith(line, "//") || line == [] {
      } else if StartsWith(line, "import") {
        var tokens := Split(line, '"');
        if |tokens| != 2 || Trim(tokens[0]) != "import" {
          return Refuse;
        }
        var ok := ProcessImport(files, Trim(tokens[1]));
        if !ok {
          return Refuse;
        }
      } else if line[|line| - 1] != ';' {
        v := Refuse;
      } else if StartsWith(line, "Queue") {
        var queue := QueueDeclaration(line);
        if queue.None? {
          return Refuse;
        }
        queues := queues[queue.value.name := queue.value];
      } else if StartsWith(line, "Port") {
        port := ValidatePortDeclaration(line);
        if port.None? {
          return Refuse;
        }
      } else {
        v := ProcessAssignment(parse, line);
      }
    }

    method ProcessImport(files: Files, name: string) returns (ok: bool)
      modifies `routines
      ensures var i := ImportFile(files, old(routines), name); ok == i.ok && routines == i.routines
    {
      if !IsHeaderName(name) || name !in files {
        return false;
      }
      var lines := files[name];
      var next: Option<RoutineType> := None;
      for i := 0 to |lines|
        invariant ImportLines(Import(true, routines, next), lines[i..]) == ImportFile(files, old(routines), name)
      {
        assert lines[i..][1..] == lines[i + 1..];
        var line := Trim(lines[i]);
        if StartsWith(line, "//") {
          next := Annotation(line);
        }
        if StartsWith(line, "//") || line == [] {
          continue;
        }
        if next.Some? {
          var routine := Routines.Validate(next.value, line);
          if routine.None? {
            return false;
          }
          if routine.value in routines {
            return false;
          }
          routines := routines[routine.value := next.value];
          next := None;
        }
      }
      ok := true;
    }

    method ValidatePortDeclaration(line: string) returns (p: Option<Port>)
      ensures p == PortDeclaration(queues, line)
    {
      var d := Declaration(line, "Port");
      if d.None? {
        return None;
      }
      var tokens := Split(d.value.1, ',');
      if tokens == [] {
        return None;
      }
      var names := PortQueues(tokens);
      p := if names.None? then None else Some(Port(d.value.0, names.value, None, None));
    }

    method PortQueues(tokens: seq<string>) returns (r: Option<seq<string>>)
      ensures r == if exists n <- Trimmed(tokens) :: n !in queues then None else Some(Trimmed(tokens))
    {
      var names: seq<string> := [];
      for i := 0 to |tokens|
        invariant names == Trimmed(tokens[..i])
        invariant forall k :: 0 <= k < i ==> names[k] in queues
      {
        var name := Trim(tokens[i]);
        if name !in queues {
          assert Trimmed(tokens)[i] == name;
          return None;
        }
        names := names + [name];
      }
      assert tokens[..|tokens|] == tokens;
      r := Some(names);
    }

    method ProcessAssignment(parse: ParseDouble, line: string) returns (v: Verdict)
      modifies `queues, `port
      ensures Step(v, State()) == Assign(parse, old(State()), line)
    {
      var a := Assignment(line);
      if a.None? {
        return Refuse;
      }
      var (object_, attr, rhs) := a.value;
      var slot := if object_ in queues then QueueSlot(attr) else PortSlot(attr);
      if slot.None? || (object_ !in queues && (port.None? || port.value.name != object_)) {
        return Refuse;
      }
      var b := ValidateFunctionAssignment(parse, rhs, slot.value);
      if !b.Bound? {
        return Fail(b);
      }
      if object_ in queues {
        queues := queues[object_ := SetQueue(queues[object_], b.statement)];
      } else {
        port := Some(SetPort(port.value, b.statement));
      }
      v := Go;
    }

    method ValidateFunctionAssignment(parse: ParseDouble, rhs: string, slot: RoutineType) returns (b: Binding)
      ensures b == Bind(parse, routines, rhs, slot)
    {
      if StartsWith(rhs, "inline") {
        var outcome := InlineStatements.Validate(parse, rhs);
        match outcome {
          case Accepted(text) => return Bound(Inline(slot, text));
          case Rejected => return NotBound;
          case Threw => return BindingThrew;
        }
      }
      var name := RoutineName(rhs);
      if name !in routines || routines[name] != slot {
        return NotBound;
      }
      if !('(' in rhs && ')' in rhs) {
        return Bound(Call(slot, name, None));
      }
      if IndexOf(rhs, ')') < IndexOf(rhs, '(') + 1 {
        return BindingThrew;
      }
      var tokens := Split(Trim(rhs[IndexOf(rhs, '(') + 1..IndexOf(rhs, ')')]), ',');
      if tokens == [] {
        return Bound(Call(slot, name, None));
      }
      var values := ParseValues(parse, tokens);
      b := if values.None? then NotBound else Bound(Call(slot, name, values));
    }

    static method ParseValues(parse: ParseDouble, tokens: seq<string>) returns (r: Option<seq<Double>>)
      ensures r == Values(parse, tokens)
    {
      var values: seq<Double> := [];
      assert tokens[0..] == tokens;
      PrependNothing([], Values(parse, tokens));
      for i := 0 to |tokens|
        invariant Values(parse, tokens) == Prepend(values, Values(parse, tokens[i..]))
      {
        assert tokens[i..][1..] == tokens[i + 1..];
        var value := parse(Trim(tokens[i]));
        if value.None? {
          return None;
        }
        PrependMore(values, value.value, Values(parse, tokens[i + 1..]));
        values := values + [value.value];
      }
      PrependNothing(values, None);
      r := Some(values);
    }

    method IsWellDefined() returns (ok: bool)
      ensures ok == WellDefined(State())
      ensures ok <==>
              && port.Some? && port.value.queueSelect.Some? && port.value.schedPrio.Some? && port.value.queues != []
              && forall n <- queues :: && queues[n].congestion.Some? && queues[n].congAction.Some?
                                       && queues[n].admPrio.Some? && queues[n].procPrio.Some?
    {
      if port.None? || !PortDefined(port.value) {
        return false;
      }
      var left := queues.Keys;
      while left != {}
        invariant left <= queues.Keys
        invariant forall n <- queues :: n !in left ==> QueueDefined(queues[n])
        decreases |left|
      {
        var n :| n in left;
        if !QueueDefined(queues[n]) {
          return false;
        }
        left := left - {n};
      }
      ok := true;
    }
  }
}
