/** From the commands of a policy file to what the generated code evaluates. */
module PolicyMeaning {
  import opened Generated
  import opened InlineStatements
  import opened Layouts
  import opened Options
  import opened Policies
  import opened PolicyFiles
  import opened PolicyText
  import opened PolicyTyping
  import opened Routines

  // The last command that speaks of a slot decides.

  /** The statement of a queue, or of the port, for a slot. */
  function Held(p: Policy, target: string, slot: RoutineType): Option<Statement> {
    if !OfQueue(slot) then
      if p.port.Some? then PortStatement(p.port.value, slot) else None
    else if target in p.queues then QueueStatement(p.queues[target], slot)
    else None
  }

  /** The command declares the queue or port that has the slot. */
  predicate Makes(c: Command, target: string, slot: RoutineType) {
    if OfQueue(slot) then c.MakeQueue? && c.name == target else c.MakePort?
  }

  predicate Sets(c: Command, target: string, slot: RoutineType) {
    c.SetSlot? && c.slot == slot && (OfQueue(slot) ==> c.target == target)
  }

  /** The command at `k` is the last to set the slot, and its queue or port is not declared anew after it. */
  predicate LastSet(commands: seq<Command>, k: nat, target: string, slot: RoutineType) {
    && k < |commands| && Sets(commands[k], target, slot)
    && forall j | k < j < |commands| :: !Sets(commands[j], target, slot) && !Makes(commands[j], target, slot)
  }

  lemma OneKept(p: Policy, c: Command, target: string, slot: RoutineType)
    requires !Sets(c, target, slot) && !Makes(c, target, slot)
    ensures Held(Effect(p, c), target, slot) == Held(p, target, slot)
  {
  }

  lemma {:induction false} Kept(p: Policy, commands: seq<Command>, target: string, slot: RoutineType)
    requires forall j | 0 <= j < |commands| :: !Sets(commands[j], target, slot) && !Makes(commands[j], target, slot)
    ensures Held(Effects(p, commands), target, slot) == Held(p, target, slot)
    decreases |commands|
  {
    if commands != [] {
      OneKept(p, commands[0], target, slot);
      Kept(Effect(p, commands[0]), commands[1..], target, slot);
    }
  }

  lemma OneSet(p: Policy, c: Command, target: string, slot: RoutineType)
    requires Sets(c, target, slot) && HasSlot(p, c.target, slot)
    ensures Held(Effect(p, c), target, slot) == Some(StatementOf(slot, c.source))
  {
  }

  lemma {:induction false} LastSetHolds(parse: ParseDouble, files: Files, p: Policy, commands: seq<Command>, k: nat,
                                        target: string, slot: RoutineType)
    requires AllLegal(parse, files, p, commands) && LastSet(commands, k, target, slot)
    ensures Held(Effects(p, commands), target, slot) == Some(StatementOf(slot, commands[k].source))
    decreases |commands|
  {
    var p', rest := Effect(p, commands[0]), commands[1..];
    if k == 0 {
      OneSet(p, commands[0], target, slot);
      Kept(p', rest, target, slot);
    } else {
      LastSetHolds(parse, files, p', rest, k - 1, target, slot);
    }
  }

  /** What was not there at first was set by a command, and by the last one. */
  lemma {:induction false} SetBy(p: Policy, commands: seq<Command>, target: string, slot: RoutineType) returns (k: nat)
    requires Held(p, target, slot).None? && Held(Effects(p, commands), target, slot).Some?
    ensures LastSet(commands, k, target, slot)
    decreases |commands|
  {
    var p', rest := Effect(p, commands[0]), commands[1..];
    if Held(p', target, slot).None? {
      var j := SetBy(p', rest, target, slot);
      k := j + 1;
    } else {
      if !Sets(commands[0], target, slot) && !Makes(commands[0], target, slot) {
        OneKept(p, commands[0], target, slot);
      }
      var touched, j := LastTouch(rest, target, slot);
      if !touched {
        k := 0;
      } else {
        k := j + 1;
        if Makes(rest[j], target, slot) {
          MadeIsNone(p', rest, j, target, slot);
        }
      }
    }
  }

  lemma {:induction false} LastTouch(commands: seq<Command>, target: string, slot: RoutineType)
    returns (touched: bool, k: nat)
    ensures touched ==> k < |commands| && (Sets(commands[k], target, slot) || Makes(commands[k], target, slot))
    ensures forall j | (if touched then k + 1 else 0) <= j < |commands| ::
              !Sets(commands[j], target, slot) && !Makes(commands[j], target, slot)
  {
    touched, k := false, 0;
    if commands != [] {
      var n := |commands| - 1;
      if Sets(commands[n], target, slot) || Makes(commands[n], target, slot) {
        touched, k := true, n;
      } else {
        touched, k := LastTouch(commands[..n], target, slot);
      }
    }
  }

  lemma {:induction false} MadeIsNone(p: Policy, commands: seq<Command>, k: nat, target: string, slot: RoutineType)
    requires k < |commands| && Makes(commands[k], target, slot)
    requires forall j | k < j < |commands| :: !Sets(commands[j], target, slot) && !Makes(commands[j], target, slot)
    ensures Held(Effects(p, commands), target, slot).None?
    decreases |commands|
  {
    var p', rest := Effect(p, commands[0]), commands[1..];
    if k == 0 {
      Kept(p', rest, target, slot);
    } else {
      MadeIsNone(p', rest, k - 1, target, slot);
    }
  }

  /** A slot holds what the last command that sets it says, and nothing if there is none. */
  lemma HeldIff(parse: ParseDouble, files: Files, commands: seq<Command>, target: string, slot: RoutineType)
    requires AllLegal(parse, files, EMPTY, commands)
    ensures Held(Effects(EMPTY, commands), target, slot).Some? <==>
            exists k: nat :: LastSet(commands, k, target, slot)
    ensures forall k: nat | LastSet(commands, k, target, slot) ::
              Held(Effects(EMPTY, commands), target, slot) == Some(StatementOf(slot, commands[k].source))
  {
    if Held(Effects(EMPTY, commands), target, slot).Some? {
      var k := SetBy(EMPTY, commands, target, slot);
    }
    forall k: nat | LastSet(commands, k, target, slot)
      ensures Held(Effects(EMPTY, commands), target, slot) == Some(StatementOf(slot, commands[k].source))
    {
      LastSetHolds(parse, files, EMPTY, commands, k, target, slot);
    }
  }

  /** A queue is declared with the size that the last declaration of its name gives. */
  predicate LastMade(commands: seq<Command>, k: nat, name: string) {
    && k < |commands| && commands[k].MakeQueue? && commands[k].name == name
    && forall j | k < j < |commands| :: !(commands[j].MakeQueue? && commands[j].name == name)
  }

  lemma {:induction false} SizeKept(p: Policy, commands: seq<Command>, name: string)
    requires name in p.queues
    requires forall j | 0 <= j < |commands| :: !(commands[j].MakeQueue? && commands[j].name == name)
    ensures name in Effects(p, commands).queues && Effects(p, commands).queues[name].size == p.queues[name].size
    decreases |commands|
  {
    if commands != [] {
      SizeKept(Effect(p, commands[0]), commands[1..], name);
    }
  }

  lemma {:induction false} SizeOf(p: Policy, commands: seq<Command>, k: nat, name: string)
    requires LastMade(commands, k, name)
    ensures name in Effects(p, commands).queues && Effects(p, commands).queues[name].size == commands[k].size
    decreases |commands|
  {
    var p', rest := Effect(p, commands[0]), commands[1..];
    if k == 0 {
      SizeKept(p', rest, name);
    } else {
      SizeOf(p', rest, k - 1, name);
    }
  }

  // What the emitted texts mean.

  /** The text means what the slot was set to. */
  ghost predicate Means(show: ShowDouble, text: string, slot: RoutineType, source: Source) {
    match source
    case Expression(e) => IsExpression(text, e)
    case Name(routine) => IsCall(text, slot, routine, show, [])
    case With(routine, _, values) => IsCall(text, slot, routine, show, values)
  }

  lemma TextMeans(parse: ParseDouble, routines: map<string, RoutineType>, show: ShowDouble, slot: RoutineType,
                  source: Source)
    requires LegalSource(parse, routines, slot, source) && forall d :: IsArgument(show(d))
    ensures Means(show, StatementText(show, StatementOf(slot, source)), slot, source)
  {
    match source
    case Expression(e) => ExpressionSpelled(e);
    case Name(routine) => RoutineSpelled(show, slot, routine, []);
    case With(routine, _, values) => RoutineSpelled(show, slot, routine, values);
  }

  lemma RoutineSpelled(show: ShowDouble, slot: RoutineType, name: string, params: seq<Double>)
    requires IsName(name) && forall d :: IsArgument(show(d))
    ensures IsCall(CallText(slot, name, show, params), slot, name, show, params)
  {
    NameLacks(name, '(');
    CallSpelled(show, slot, name, params);
  }

  lemma {:induction false} LegalAt(parse: ParseDouble, files: Files, p: Policy, commands: seq<Command>, k: nat)
    returns (before: Policy)
    requires AllLegal(parse, files, p, commands) && k < |commands|
    ensures Legal(parse, files, before, commands[k])
    decreases |commands|
  {
    if k == 0 {
      before := p;
    } else {
      before := LegalAt(parse, files, Effect(p, commands[0]), commands[1..], k - 1);
    }
  }

  /** The policy that the lines of a file make. */
  function PolicyOf(parse: ParseDouble, files: Files, lines: seq<string>): Policy {
    ReadLines(parse, files, Step(Go, EMPTY), lines).policy
  }

  /**
   * The whole way of a policy file, from its commands to the code: on the slot of every queue, a generated dispatch
   * function evaluates what the last command that sets it says, if queues whose literals agree in their first 32
   * characters have the same statement there.
   */
  lemma DispatchMeans(lit: Literals, files: Files, parse: ParseDouble, show: ShowDouble, commands: seq<Command>,
                      lines: seq<string>, order: seq<string>, other: seq<string>, before: seq<Slot>,
                      slot: RoutineType, i: nat) returns (k: nat)
    requires ReadsIntegers(parse) && AllLegal(parse, files, EMPTY, commands)
    requires (forall c <- commands :: Printable(c)) && Laid(lines, FileText(commands))
    requires forall d :: IsArgument(show(d))
    requires WellDefined(PolicyOf(parse, files, lines)) && OfQueue(slot)
    requires IsOrder(PolicyOf(parse, files, lines), order) && IsOrder(PolicyOf(parse, files, lines), other)
    requires |order| <= MAX_QUEUE == |before| && i < |order|
    requires SharersAgree(lit, PolicyOf(parse, files, lines), show, slot)
    ensures LastSet(commands, k, order[i], slot)
    ensures var p := PolicyOf(parse, files, lines);
            var text := Dispatch(lit, Cases(p, other, show, slot), Filled(lit, before, Setups(p, order))[i].name);
            text.Some? && Means(show, text.value.value, slot, commands[k].source)
  {
    FileRead(parse, files, EMPTY, commands, lines);
    var p := PolicyOf(parse, files, lines);
    LinesTyped(files, parse, Step(Go, EMPTY), lines);
    TypedIsKeyed(files, p);
    DispatchIsRight(lit, p, order, other, before, show, slot);
    assert QueueDefined(p.queues[order[i]]);
    k := SetBy(EMPTY, commands, order[i], slot);
    LastSetHolds(parse, files, EMPTY, commands, k, order[i], slot);
    var then_ := LegalAt(parse, files, EMPTY, commands, k);
    TextMeans(parse, then_.routines, show, slot, commands[k].source);
  }

  /** The same for the two functions of the port, which evaluate one statement each. */
  lemma PortMeans(files: Files, parse: ParseDouble, show: ShowDouble, commands: seq<Command>, lines: seq<string>,
                  slot: RoutineType) returns (k: nat)
    requires ReadsIntegers(parse) && AllLegal(parse, files, EMPTY, commands)
    requires (forall c <- commands :: Printable(c)) && Laid(lines, FileText(commands))
    requires forall d :: IsArgument(show(d))
    requires WellDefined(PolicyOf(parse, files, lines)) && !OfQueue(slot)
    ensures LastSet(commands, k, "", slot)
    ensures var s := PortStatement(PolicyOf(parse, files, lines).port.value, slot);
            s.Some? && Means(show, StatementText(show, s.value), slot, commands[k].source)
  {
    FileRead(parse, files, EMPTY, commands, lines);
    k := SetBy(EMPTY, commands, "", slot);
    LastSetHolds(parse, files, EMPTY, commands, k, "", slot);
    var then_ := LegalAt(parse, files, EMPTY, commands, k);
    TextMeans(parse, then_.routines, show, slot, commands[k].source);
  }
}
