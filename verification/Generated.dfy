/** The policy module that is generated: dispatch on the queue's name, and the filling of the port's queue slots. */
module Generated {
  import opened CExpressions
  import opened CStrings
  import opened Decimals
  import opened InlineStatements
  import opened JavaStrings
  import opened Options
  import opened Policies
  import opened PolicyText
  import opened PolicyTyping
  import opened Routines
  import Trees

  const NAME_LEN := 32
  const MAX_QUEUE := 16

  /** One conditional assignment: if the queue's name is this one, the result is the value of this expression. */
  datatype Case = Case(name: string, value: string)

  /** One call of `init_queue` on the next slot. */
  datatype Setup = Setup(name: string, size: int)

  /** `getStatement` */
  function StatementText(show: ShowDouble, s: Statement): string {
    match s
    case Inline(_, text) => text
    case Call(t, name, _) => CallText(t, name, show, ParamsOf(s))
  }

  // What the texts mean.

  /** Read back, the text is a call of the routine: the leading arguments, the number of the values, and the values. */
  predicate IsCall(text: string, slot: RoutineType, name: string, show: ShowDouble, params: seq<Double>) {
    var n := |Leading(slot)|;
    && 0 <= IndexOf(text, '(') < |text| - 1 && text[|text| - 1] == ')'
    && text[..IndexOf(text, '(')] == name
    && |ArgumentsOf(text)| == n + 1 + |params|
    && ArgumentsOf(text)[..n] == Leading(slot)
    && AllDigits(ArgumentsOf(text)[n]) && Value(ArgumentsOf(text)[n]) == |params|
    && ArgumentsOf(text)[n + 1..] == Shown(show, params)
  }

  /** Read back, the text is an expression that has the same value everywhere. */
  ghost predicate IsExpression(text: string, e: Expr) {
    Read(text).Some? && forall env :: Evaluate(Read(text).value, env) == Evaluate(e, env)
  }

  lemma ExpressionSpelled(e: Expr)
    requires Known(e)
    ensures IsExpression(Text(e), e)
  {
    TextRead(e);
  }

  lemma CallSpelled(show: ShowDouble, slot: RoutineType, name: string, params: seq<Double>)
    requires '(' !in name && forall d :: IsArgument(show(d))
    ensures IsCall(CallText(slot, name, show, params), slot, name, show, params)
  {
    CallRead(slot, name, show, params);
  }

  /** The text is the statement: its expression, or the call of its routine with its values. */
  ghost predicate Spells(show: ShowDouble, text: string, s: Statement) {
    match s
    case Inline(_, c) => exists e :: Known(e) && c == Text(e) && IsExpression(text, e)
    case Call(t, name, params) => IsCall(text, t, name, show, if params.None? then [] else params.value)
  }

  lemma StatementSpelled(files: Files, show: ShowDouble, s: Statement, slot: RoutineType)
    requires Ready(files, Some(s), slot) && forall d :: IsArgument(show(d))
    ensures Spells(show, StatementText(show, s), s)
  {
    match s
    case Inline(_, text) =>
      var e :| Known(e) && text == Text(e);
      ExpressionSpelled(e);
    case Call(t, name, params) =>
      DeclaredLacksParenthesis(files, name, t);
      CallSpelled(show, t, name, ParamsOf(s));
  }

  lemma DeclaredLacksParenthesis(files: Files, name: string, t: RoutineType)
    requires Declared(files, name, t)
    ensures '(' !in name
  {
    var f, i :| f in files && 0 <= i < |files[f]| && Routines.Validate(t, Trim(files[f][i])) == Some(name);
    NameLacksParenthesis(t, Trim(files[f][i]));
  }

  /** An order in which the hash map may give its values. */
  predicate IsOrder(p: Policy, order: seq<string>) {
    && (forall i :: 0 <= i < |order| ==> order[i] in p.queues)
    && (forall n <- p.queues :: n in order)
    && (forall i, j :: 0 <= i < j < |order| ==> order[i] != order[j])
  }

  function CaseFor(show: ShowDouble, q: Queue, slot: RoutineType): Case
    requires OfQueue(slot) && QueueDefined(q)
  {
    Case(q.name, StatementText(show, QueueStatement(q, slot).value))
  }

  /** What `generateCongFn`, `generateCongActFn`, `generateAdmnFn` and `generateProcFn` emit, according to the slot. */
  function Cases(p: Policy, order: seq<string>, show: ShowDouble, slot: RoutineType): seq<Case>
    requires IsOrder(p, order) && WellDefined(p) && OfQueue(slot)
  {
    seq(|order|, i requires 0 <= i < |order| => CaseFor(show, p.queues[order[i]], slot))
  }

  function Setups(p: Policy, order: seq<string>): seq<Setup>
    requires IsOrder(p, order)
  {
    seq(|order|, i requires 0 <= i < |order| => Setup(p.queues[order[i]].name, p.queues[order[i]].size))
  }

  method GenerateDispatch(p: Policy, order: seq<string>, show: ShowDouble, slot: RoutineType) returns (code: seq<Case>)
    requires IsOrder(p, order) && WellDefined(p) && OfQueue(slot)
    ensures code == Cases(p, order, show, slot)
  {
    code := [];
    for i := 0 to |order|
      invariant |code| == i && forall k :: 0 <= k < i ==> code[k] == CaseFor(show, p.queues[order[k]], slot)
    {
      var queue := p.queues[order[i]];
      var text := TextOf(show, QueueStatement(queue, slot).value);
      code := code + [Case(queue.name, text)];
    }
  }

  /** `getStatement` of a statement of either kind. */
  method TextOf(show: ShowDouble, s: Statement) returns (text: string)
    ensures text == StatementText(show, s)
  {
    match s
    case Inline(_, c) => text := c;
    case Call(t, name, params) => text := GetStatement(t, name, show, params);
  }

  method GenerateInitPort(p: Policy, order: seq<string>) returns (code: seq<Setup>)
    requires IsOrder(p, order)
    ensures code == Setups(p, order)
  {
    code := [];
    for i := 0 to |order|
      invariant |code| == i
      invariant forall k :: 0 <= k < i ==> code[k] == Setup(p.queues[order[k]].name, p.queues[order[k]].size)
    {
      code := code + [Setup(p.queues[order[i]].name, p.queues[order[i]].size)];
    }
  }

  // Running the generated code.

  /** The C string that a C compiler makes of a name between quotes. It may be another one than the name: escapes are
      replaced, bytes stand for characters, and it ends at the first NUL. */
  type Literals = string -> string

  /** Letters, digits and underscores are taken as they are. */
  ghost predicate SpellsIdentifiers(lit: Literals) {
    forall n | IsName(n) :: lit(n) == n
  }

  /** The result of the assignments, of which the last one that applies stays; `None` if none does. */
  function Dispatch(lit: Literals, code: seq<Case>, name: string): Option<Case> {
    if code == [] then None
    else if SamePrefix(name, lit(code[|code| - 1].name), NAME_LEN) then Some(code[|code| - 1])
    else Dispatch(lit, code[..|code| - 1], name)
  }

  /** A queue slot of the port, as the queueing discipline knows it. */
  type Slot = Trees.Queue

  /** What `strncpy` leaves of a name in a slot. */
  function NameOf(lit: Literals, name: string): string {
    Prefix(lit(name), NAME_LEN)
  }

  function InitQueue(lit: Literals, s: Setup): Slot {
    Trees.Queue(map[], map[], s.size, 0, 0, 0, NameOf(lit, s.name))
  }

  function Filled(lit: Literals, slots: seq<Slot>, code: seq<Setup>): seq<Slot>
    requires |code| <= |slots|
  {
    seq(|code|, i requires 0 <= i < |code| => InitQueue(lit, code[i])) + slots[|code|..]
  }

  lemma FilledMore(lit: Literals, slots: seq<Slot>, code: seq<Setup>, i: nat)
    requires i < |code| <= |slots|
    ensures Filled(lit, slots, code[..i + 1]) == Filled(lit, slots, code[..i])[i := InitQueue(lit, code[i])]
  {
  }

  /** What `init_port` comes to: it fills all slots, finds no memory for the trees of one, or writes past the last
      one. */
  datatype Outcome = Done | NoMemory | Overrun

  /** `init_port`; `fails` says which slots get no memory for their trees, and the first of them ends it. */
  method InitPort(lit: Literals, slots: seq<Slot>, code: seq<Setup>, fails: nat -> bool)
    returns (o: Outcome, r: seq<Slot>)
    requires |slots| == MAX_QUEUE
    ensures |r| == MAX_QUEUE
    ensures o.Done? <==> |code| <= MAX_QUEUE && forall i: nat | i < |code| :: !fails(i)
    ensures o.Overrun? <==> |code| > MAX_QUEUE && forall i: nat | i < MAX_QUEUE :: !fails(i)
    ensures o.Done? ==> r == Filled(lit, slots, code)
    ensures o.NoMemory? ==>
              exists i: nat | i < |code| && i < MAX_QUEUE :: fails(i) && r == Filled(lit, slots, code[..i])
  {
    r := slots;
    assert Filled(lit, slots, code[..0]) == slots;
    for i := 0 to |code|
      invariant i <= MAX_QUEUE && r == Filled(lit, slots, code[..i])
      invariant forall k: nat | k < i :: !fails(k)
    {
      if i == MAX_QUEUE {
        return Overrun, r;
      }
      if fails(i) {
        return NoMemory, r;
      }
      FilledMore(lit, slots, code[..i + 1], i);
      assert code[..i + 1][..i] == code[..i] && code[..i + 1][..i + 1] == code[..i + 1];
      r := r[i := InitQueue(lit, code[i])];
    }
    assert code[..|code|] == code;
    o := Done;
  }

  // Each slot gets its own queue's statement.

  predicate Keyed(p: Policy) {
    forall n <- p.queues :: p.queues[n].name == n
  }

  /** No two queues have the same name in their slots. */
  predicate DistinctNames(lit: Literals, p: Policy) {
    forall a, b | a in p.queues && b in p.queues && a != b :: NameOf(lit, a) != NameOf(lit, b)
  }

  function TextFor(p: Policy, show: ShowDouble, slot: RoutineType, n: string): string
    requires WellDefined(p) && OfQueue(slot) && n in p.queues
  {
    StatementText(show, QueueStatement(p.queues[n], slot).value)
  }

  /** Queues that have the same name in their slots have the same statement. */
  predicate SharersAgree(lit: Literals, p: Policy, show: ShowDouble, slot: RoutineType)
    requires WellDefined(p) && OfQueue(slot)
  {
    forall a, b | a in p.queues && b in p.queues && NameOf(lit, a) == NameOf(lit, b) ::
      TextFor(p, show, slot, a) == TextFor(p, show, slot, b)
  }

  /** A dispatch finds a case with the name of the slot if there is one, and of several it finds the last. */
  lemma {:induction false} DispatchFinds(lit: Literals, code: seq<Case>, name: string, k: nat) returns (j: nat)
    requires k < |code| && SamePrefix(name, lit(code[k].name), NAME_LEN)
    ensures j < |code| && Dispatch(lit, code, name) == Some(code[j]) && SamePrefix(name, lit(code[j].name), NAME_LEN)
    ensures forall i | j < i < |code| :: !SamePrefix(name, lit(code[i].name), NAME_LEN)
  {
    j := |code| - 1;
    if !SamePrefix(name, lit(code[j].name), NAME_LEN) {
      j := DispatchFinds(lit, code[..|code| - 1], name, k);
    }
  }

  lemma SameName(lit: Literals, a: string, b: string)
    ensures SamePrefix(NameOf(lit, a), lit(b), NAME_LEN) <==> NameOf(lit, a) == NameOf(lit, b)
  {
    SamePrefixIff(NameOf(lit, a), lit(b), NAME_LEN);
  }

  /** The slot of a queue finds the case of a queue that has the same name in its slot. */
  lemma FoundCase(lit: Literals, p: Policy, order: seq<string>, show: ShowDouble, slot: RoutineType, n: string)
    returns (m: string)
    requires IsOrder(p, order) && WellDefined(p) && OfQueue(slot) && Keyed(p) && n in p.queues
    ensures m in p.queues && NameOf(lit, m) == NameOf(lit, n)
    ensures Dispatch(lit, Cases(p, order, show, slot), NameOf(lit, n)) == Some(Case(m, TextFor(p, show, slot, m)))
  {
    var code := Cases(p, order, show, slot);
    var k :| 0 <= k < |order| && order[k] == n;
    assert code[k].name == n;
    SameName(lit, n, n);
    var j := DispatchFinds(lit, code, NameOf(lit, n), k);
    m := order[j];
    assert code[j].name == m;
    SameName(lit, n, m);
  }

  /** Every filled slot dispatches to the text of the statement of the queue it was filled from. */
  predicate DispatchesRight(lit: Literals, p: Policy, slots: seq<Slot>, order: seq<string>, code: seq<Case>,
                            show: ShowDouble, slot: RoutineType)
    requires IsOrder(p, order) && WellDefined(p) && OfQueue(slot) && |order| <= |slots|
  {
    forall i :: 0 <= i < |order| ==>
      && Dispatch(lit, code, slots[i].name).Some?
      && Dispatch(lit, code, slots[i].name).value.value == TextFor(p, show, slot, order[i])
  }

  lemma SlotNames(lit: Literals, p: Policy, order: seq<string>, before: seq<Slot>, i: nat)
    requires IsOrder(p, order) && Keyed(p) && i < |order| <= |before|
    ensures Filled(lit, before, Setups(p, order))[i].name == NameOf(lit, order[i])
  {
  }

  /**
   * For any two orders of the hash map, after a successful initialisation a generated dispatch function evaluates, on
   * every slot, the statement bound to the queue declared for it, exactly if queues whose literals agree in their first
   * 32 characters have the same statement there. So it does if no two literals agree in them.
   */
  lemma DispatchIsRight(lit: Literals, p: Policy, order: seq<string>, other: seq<string>, before: seq<Slot>,
                        show: ShowDouble, slot: RoutineType)
    requires IsOrder(p, order) && IsOrder(p, other) && WellDefined(p) && Keyed(p) && OfQueue(slot)
    requires |order| <= MAX_QUEUE == |before|
    ensures var slots := Filled(lit, before, Setups(p, order));
            DispatchesRight(lit, p, slots, order, Cases(p, other, show, slot), show, slot) <==>
            SharersAgree(lit, p, show, slot)
    ensures DistinctNames(lit, p) ==> SharersAgree(lit, p, show, slot)
  {
    var slots, code := Filled(lit, before, Setups(p, order)), Cases(p, other, show, slot);
    forall i | 0 <= i < |order| ensures slots[i].name == NameOf(lit, order[i]) {
      SlotNames(lit, p, order, before, i);
    }
    if SharersAgree(lit, p, show, slot) {
      forall i | 0 <= i < |order|
        ensures Dispatch(lit, code, slots[i].name).Some?
        ensures Dispatch(lit, code, slots[i].name).value.value == TextFor(p, show, slot, order[i])
      {
        var m := FoundCase(lit, p, other, show, slot, order[i]);
      }
    }
    if DispatchesRight(lit, p, slots, order, code, show, slot) {
      forall a, b | a in p.queues && b in p.queues && NameOf(lit, a) == NameOf(lit, b)
        ensures TextFor(p, show, slot, a) == TextFor(p, show, slot, b)
      {
        var i :| 0 <= i < |order| && order[i] == a;
        var j :| 0 <= j < |order| && order[j] == b;
      }
    }
  }

  /** Names that are identifiers, and of which no two agree in their first 32 characters, make all dispatch right. */
  lemma IdentifiersDispatchRight(lit: Literals, p: Policy, order: seq<string>, other: seq<string>, before: seq<Slot>,
                                 show: ShowDouble, slot: RoutineType)
    requires IsOrder(p, order) && IsOrder(p, other) && WellDefined(p) && Keyed(p) && OfQueue(slot)
    requires |order| <= MAX_QUEUE == |before| && SpellsIdentifiers(lit) && forall n <- p.queues :: IsName(n)
    requires forall a, b | a in p.queues && b in p.queues && a != b :: Prefix(a, NAME_LEN) != Prefix(b, NAME_LEN)
    ensures var slots := Filled(lit, before, Setups(p, order));
            DispatchesRight(lit, p, slots, order, Cases(p, other, show, slot), show, slot)
  {
    DispatchIsRight(lit, p, order, other, before, show, slot);
    forall a, b | a in p.queues && b in p.queues && a != b ensures NameOf(lit, a) != NameOf(lit, b) {
      assert lit(a) == a && lit(b) == b;
    }
  }

  /** What becomes of one declared queue: its slot, and its statement for one of the dispatch functions. */
  ghost predicate QueueCompiled(lit: Literals, files: Files, q: Queue, s: Slot, slot: RoutineType) {
    && s == Trees.Queue(map[], map[], q.size, 0, 0, 0, NameOf(lit, q.name))
    && Ready(files, QueueStatement(q, slot), slot)
  }

  /** On the slot of a queue, the dispatch function evaluates the statement that is bound to that queue. */
  ghost predicate SlotSpells(lit: Literals, p: Policy, s: Slot, code: seq<Case>, show: ShowDouble, n: string,
                             slot: RoutineType)
  {
    && n in p.queues && QueueStatement(p.queues[n], slot).Some?
    && Dispatch(lit, code, s.name).Some?
    && Spells(show, Dispatch(lit, code, s.name).value.value, QueueStatement(p.queues[n], slot).value)
  }

  ghost predicate SlotsSpell(lit: Literals, p: Policy, slots: seq<Slot>, order: seq<string>, code: seq<Case>,
                             show: ShowDouble, slot: RoutineType)
  {
    |order| <= |slots| && forall i: nat | i < |order| :: SlotSpells(lit, p, slots[i], code, show, order[i], slot)
  }

  lemma TypedCompiled(lit: Literals, files: Files, p: Policy, order: seq<string>, before: seq<Slot>,
                      slot: RoutineType)
    requires Typed(files, p) && WellDefined(p) && IsOrder(p, order) && |order| <= MAX_QUEUE == |before| && OfQueue(slot)
    ensures forall i :: 0 <= i < |order| ==>
              p.queues[order[i]].name == order[i] &&
              QueueCompiled(lit, files, p.queues[order[i]], Filled(lit, before, Setups(p, order))[i], slot)
  {
    TypedIsKeyed(files, p);
    TypedIsReady(files, p, slot);
  }

  /**
   * The whole compiler, on every policy file that it accepts and finds well-defined, with at most 16 queues: each slot
   * is filled with an empty queue of the declared size, its statement is ready for each of the four dispatch
   * functions, and dispatch is right exactly if queues whose literals agree in their first 32 characters have the same
   * statement.
   */
  lemma CompiledPolicy(lit: Literals, files: Files, parse: ParseDouble, lines: seq<string>, p: Policy,
                       order: seq<string>, other: seq<string>, before: seq<Slot>, show: ShowDouble, slot: RoutineType)
    requires ReadLines(parse, files, Step(Go, EMPTY), lines) == Step(Go, p) && WellDefined(p)
    requires IsOrder(p, order) && IsOrder(p, other) && |order| <= MAX_QUEUE == |before| && OfQueue(slot)
    ensures |order| == |p.queues|
    ensures forall i :: 0 <= i < |order| ==>
              p.queues[order[i]].name == order[i] &&
              QueueCompiled(lit, files, p.queues[order[i]], Filled(lit, before, Setups(p, order))[i], slot)
    ensures var slots := Filled(lit, before, Setups(p, order));
            DispatchesRight(lit, p, slots, order, Cases(p, other, show, slot), show, slot) <==>
            SharersAgree(lit, p, show, slot)
    ensures DistinctNames(lit, p) ==> SharersAgree(lit, p, show, slot)
    ensures SharersAgree(lit, p, show, slot) && (forall d :: IsArgument(show(d))) ==>
              SlotsSpell(lit, p, Filled(lit, before, Setups(p, order)), order, Cases(p, other, show, slot), show, slot)
  {
    LinesTyped(files, parse, Step(Go, EMPTY), lines);
    OrderCount(p, order);
    TypedCompiled(lit, files, p, order, before, slot);
    TypedIsKeyed(files, p);
    DispatchIsRight(lit, p, order, other, before, show, slot);
    if SharersAgree(lit, p, show, slot) && forall d :: IsArgument(show(d)) {
      RightSpells(lit, files, p, Filled(lit, before, Setups(p, order)), order, Cases(p, other, show, slot), show, slot);
    }
  }

  lemma RightSpells(lit: Literals, files: Files, p: Policy, slots: seq<Slot>, order: seq<string>, code: seq<Case>,
                    show: ShowDouble, slot: RoutineType)
    requires IsOrder(p, order) && WellDefined(p) && OfQueue(slot) && |order| <= |slots|
    requires DispatchesRight(lit, p, slots, order, code, show, slot) && forall d :: IsArgument(show(d))
    requires forall i :: 0 <= i < |order| ==> Ready(files, QueueStatement(p.queues[order[i]], slot), slot)
    ensures SlotsSpell(lit, p, slots, order, code, show, slot)
  {
    forall i: nat | i < |order| ensures SlotSpells(lit, p, slots[i], code, show, order[i], slot) {
      StatementSpelled(files, show, QueueStatement(p.queues[order[i]], slot).value, slot);
    }
  }

  lemma TypedIsKeyed(files: Files, p: Policy)
    requires Typed(files, p)
    ensures Keyed(p)
  {
    forall n | n in p.queues ensures p.queues[n].name == n {
      assert QueueOk(p.routines, n, p.queues[n]);
    }
  }

  lemma {:induction false} DistinctCount(s: seq<string>)
    requires forall i, j :: 0 <= i < j < |s| ==> s[i] != s[j]
    ensures |set x | x in s| == |s|
  {
    if s != [] {
      var k := |s| - 1;
      DistinctCount(s[..k]);
      assert (set x | x in s) == (set x | x in s[..k]) + {s[k]};
    }
  }

  lemma OrderCount(p: Policy, order: seq<string>)
    requires IsOrder(p, order)
    ensures |order| == |p.queues|
  {
    DistinctCount(order);
    assert (set x | x in order) == p.queues.Keys;
  }
}
