/** What single lines of a policy file come to: assignments under every name that can be declared, and exceptions. */
module PolicyLines {
  import opened HeaderText
  import opened InlineStatements
  import opened JavaStrings
  import opened Options
  import opened Policies
  import opened PolicyFiles
  import opened PolicyText
  import opened Routines

  // Names that cannot be assigned to.

  predicate EndsLike(s: string, t: string) {
    s != [] && t != [] && s[|s| - 1] == t[|t| - 1]
  }

  lemma EndOfRest(front: string, c: char, rest: string, s: string)
    requires s == front + [c] + rest && s != [] && s[|s| - 1] != c
    ensures EndsLike(rest, s)
  {
  }

  lemma LastOf(first: string, p: seq<string>)
    requires p != []
    ensures ([first] + p)[|[first] + p| - 1] == p[|p| - 1]
  {
  }

  lemma {:induction false} LastPiece(s: string, c: char)
    requires s != [] && s[|s| - 1] != c
    ensures EndsLike(Pieces(s, c)[|Pieces(s, c)| - 1], s)
    decreases |s|
  {
    if c in s {
      var front, rest := FirstPiece(s, c);
      EndOfRest(front, c, rest, s);
      LastPiece(rest, c);
      PiecesCons(front, c, rest);
      LastOf(front, Pieces(rest, c));
    }
  }

  lemma NothingDropped(s: string, c: char)
    requires Pieces(s, c)[|Pieces(s, c)| - 1] != []
    ensures Split(s, c) == Pieces(s, c)
  {
  }

  /** The last part of a split text ends like the text. */
  lemma SplitLast(s: string, c: char)
    requires s != [] && s[|s| - 1] != c
    ensures Split(s, c) != [] && EndsLike(Split(s, c)[|Split(s, c)| - 1], s)
  {
    LastPiece(s, c);
    NothingDropped(s, c);
  }

  lemma TrimLast(s: string)
    requires s != [] && s[|s| - 1] > ' '
    ensures Trim(s) != [] && Trim(s)[|Trim(s)| - 1] == s[|s| - 1]
  {
    TrimFrontLast(s);
  }

  lemma {:induction false} TrimFrontLast(s: string)
    requires s != [] && s[|s| - 1] > ' '
    ensures TrimFront(s) != [] && TrimFront(s)[|TrimFront(s)| - 1] == s[|s| - 1]
  {
    if s[0] <= ' ' {
      TrimFrontLast(s[1..]);
    }
  }

  /** No line that ends with a semicolon imports anything: the file it names would end so too. */
  lemma ImportRefused(files: Files, p: Policy, line: string)
    requires line != [] && line[|line| - 1] == ';'
    ensures ImportInto(files, p, line) == Step(Refuse, p)
  {
    var tokens := Split(line, '"');
    SplitLast(line, '"');
    if |tokens| == 2 {
      TrimLast(tokens[1]);
      SplitLast(Trim(tokens[1]), '.');
    }
  }

  /** An assignment is never a declaration: its left side has no blank. */
  lemma NotADeclaration(lhs: string, rest: string, kind: string)
    requires IsDeclarable(lhs)
    ensures Declaration(lhs + (" = " + rest), kind).None?
  {
    var line := lhs + (" = " + rest);
    assert line == (lhs + [' ']) + ['='] + ([' '] + rest);
    Absent('=', lhs, [' ']);
    PiecesCons(lhs + [' '], '=', [' '] + rest);
    assert line[|lhs| + 1] == '=';
    DropEmptyKeeps(Pieces(line, '='));
    TrimAround(lhs);
    if |Split(line, '=')| == 2 {
      assert Split(line, '=')[0] == lhs + [' '];
    }
  }

  lemma LeftShape(target: string, attr: string)
    requires IsDeclarable(target) && IsName(attr)
    ensures IsDeclarable(target + ['.'] + attr)
  {
    NameVisible(attr);
    Absent(' ', target, ['.']);
    Absent(' ', target + ['.'], attr);
    Absent('=', target, ['.']);
    Absent('=', target + ['.'], attr);
  }

  /** A name with a dot in it makes three parts or more. */
  lemma Dotted(target: string, attr: string)
    requires '.' in target && IsName(attr)
    ensures |Split(target + ['.'] + attr, '.')| > 2
  {
    var front, rest := FirstPiece(target, '.');
    PiecesCons(front, '.', rest);
    PiecesAppend(target, '.', attr);
    assert (target + ['.'] + attr)[|target|] == '.';
  }

  lemma DottedRefused(parse: ParseDouble, p: Policy, target: string, attr: string, rhs: string)
    requires IsDeclarable(target) && '.' in target && IsName(attr) && Carried(rhs)
    ensures Assign(parse, p, AssignmentText(target, attr, rhs)) == Step(Refuse, p)
  {
    var lhs := target + ['.'] + attr;
    LeftShape(target, attr);
    NoSignMore(rhs);
    SidesRead(lhs, rhs + ";");
    TrimAround(lhs);
    Dotted(target, attr);
  }

  lemma NoSignMore(rhs: string)
    requires NoSign(rhs)
    ensures NoSign(rhs + ";")
  {
  }

  /** What an assignment line begins with, its name begins with. */
  lemma Begins(target: string, attr: string, rhs: string, word: string)
    requires '.' !in word
    ensures StartsWith(AssignmentText(target, attr, rhs), word) <==> StartsWith(target, word)
  {
    var rest := ['.'] + (attr + (" = " + (rhs + ";")));
    assert AssignmentText(target, attr, rhs) == target + rest;
    if StartsWith(target, word) {
      assert (target + rest)[..|word|] == target[..|word|];
    } else {
      NotPrefix(target, rest, word);
    }
  }

  lemma LineEnds(target: string, attr: string, rhs: string)
    requires IsDeclarable(target)
    ensures var s := AssignmentText(target, attr, rhs); Trim(s) == s && s != [] && s[|s| - 1] == ';'
  {
    var s := AssignmentText(target, attr, rhs);
    assert s[0] == target[0] && s[|s| - 1] == ';';
    Whole(s);
  }

  lemma Ignored(parse: ParseDouble, files: Files, p: Policy, target: string, attr: string, rhs: string)
    requires IsDeclarable(target) && StartsWith(target, "//")
    ensures ReadLine(parse, files, p, AssignmentText(target, attr, rhs)) == Step(Go, p)
  {
    LineEnds(target, attr, rhs);
    Begins(target, attr, rhs, "//");
  }

  /** The lines that would be imports or declarations. */
  lemma Shadowed(parse: ParseDouble, files: Files, p: Policy, target: string, attr: string, rhs: string)
    requires IsDeclarable(target) && IsName(attr) && !StartsWith(target, "//")
    requires StartsWith(target, "import") || StartsWith(target, "Queue") || StartsWith(target, "Port")
    ensures ReadLine(parse, files, p, AssignmentText(target, attr, rhs)).verdict.Refuse?
  {
    var line := AssignmentText(target, attr, rhs);
    LineEnds(target, attr, rhs);
    LeftShape(target, attr);
    Begins(target, attr, rhs, "//");
    Begins(target, attr, rhs, "import");
    Begins(target, attr, rhs, "Queue");
    Begins(target, attr, rhs, "Port");
    ImportRefused(files, p, line);
    NotADeclaration(target + ['.'] + attr, rhs + ";", "Queue");
    NotADeclaration(target + ['.'] + attr, rhs + ";", "Port");
  }

  lemma NotShadowed(parse: ParseDouble, files: Files, p: Policy, target: string, attr: string, rhs: string)
    requires IsDeclarable(target) && IsName(attr) && Carried(rhs) && '.' in target && !StartsWith(target, "//")
    requires !StartsWith(target, "import") && !StartsWith(target, "Queue") && !StartsWith(target, "Port")
    ensures ReadLine(parse, files, p, AssignmentText(target, attr, rhs)).verdict.Refuse?
  {
    LineEnds(target, attr, rhs);
    Begins(target, attr, rhs, "//");
    Begins(target, attr, rhs, "import");
    Begins(target, attr, rhs, "Queue");
    Begins(target, attr, rhs, "Port");
    DottedRefused(parse, p, target, attr, rhs);
  }

  /**
   * What becomes of an assignment to an attribute that is there, under any name that can be declared: it is passed over
   * if the name begins like a comment, it is refused if the name has a dot or begins like an import or a declaration,
   * and exactly otherwise it binds the statement.
   */
  lemma AssignableIff(parse: ParseDouble, files: Files, p: Policy, target: string, slot: RoutineType, source: Source)
    requires ReadsIntegers(parse) && IsDeclarable(target) && HasSlot(p, target, slot)
    requires LegalSource(parse, p.routines, slot, source)
    ensures var c := SetSlot(target, slot, source);
            var r := ReadLine(parse, files, p, CommandText(c));
            && (Assignable(target) ==> r == Step(Go, Effect(p, c)))
            && (StartsWith(target, "//") ==> r == Step(Go, p))
            && (!Assignable(target) && !StartsWith(target, "//") ==> r.verdict.Refuse?)
            && (Effect(p, c) != p ==> (r == Step(Go, Effect(p, c)) <==> Assignable(target)))
  {
    var attr, rhs := AttributeName(slot), SourceText(source);
    AttributeFound(slot);
    SourceBound(parse, p.routines, slot, source);
    if Assignable(target) {
      SlotLineRead(parse, files, p, SetSlot(target, slot, source));
    } else if StartsWith(target, "//") {
      Ignored(parse, files, p, target, attr, rhs);
    } else if StartsWith(target, "import") || StartsWith(target, "Queue") || StartsWith(target, "Port") {
      Shadowed(parse, files, p, target, attr, rhs);
    } else {
      NotShadowed(parse, files, p, target, attr, rhs);
    }
  }

  // Lines the compiler dies of.

  /** An inline expression whose first closing brace comes before its first opening one. */
  predicate IsBackward(rhs: string) {
    StartsWith(rhs, "inline") && '{' in rhs && '}' in rhs && IndexOf(rhs, '}') < IndexOf(rhs, '{')
  }

  /** A call of a routine that has a closing parenthesis in its name, which a header can give it. */
  predicate ClosesFirst(routines: map<string, RoutineType>, rhs: string, slot: RoutineType) {
    && !StartsWith(rhs, "inline") && '(' in rhs && ')' in RoutineName(rhs)
    && RoutineName(rhs) in routines && routines[RoutineName(rhs)] == slot
  }

  /** The slot that an assignment is about, if there is one. */
  function SlotOf(p: Policy, target: string, attr: string): Option<RoutineType> {
    if target in p.queues then QueueSlot(attr)
    else if p.port.Some? && p.port.value.name == target then PortSlot(attr)
    else None
  }

  /** The slot and the right-hand side of a line that assigns to an attribute which a declared queue, or else the port,
      has. */
  function Assigned(p: Policy, line: string): Option<(RoutineType, string)> {
    if line == [] || line[|line| - 1] != ';' then None
    else if StartsWith(line, "//") || StartsWith(line, "import") then None
    else if StartsWith(line, "Queue") || StartsWith(line, "Port") then None
    else if Assignment(line).None? then None
    else
      var (target, attr, rhs) := Assignment(line).value;
      var slot := SlotOf(p, target, attr);
      if slot.None? then None else Some((slot.value, rhs))
  }

  lemma InlineThrows(parse: ParseDouble, rhs: string)
    ensures InlineStatements.Validate(parse, rhs).Threw? <==> IsBackward(rhs)
  {
  }

  /** A name ends before the first opening parenthesis, so a closing one is in it exactly if it comes before that. */
  lemma InName(rhs: string)
    requires '(' in rhs && ')' in rhs
    ensures ')' in RoutineName(rhs) <==> IndexOf(rhs, ')') < IndexOf(rhs, '(')
  {
    var i, j := IndexOf(rhs, '('), IndexOf(rhs, ')');
    if j < i {
      assert RoutineName(rhs)[j] == ')';
    } else {
      assert rhs[..i] <= rhs[..j];
    }
  }

  lemma CallThrows(parse: ParseDouble, routines: map<string, RoutineType>, rhs: string, slot: RoutineType)
    requires !StartsWith(rhs, "inline")
    ensures Bind(parse, routines, rhs, slot).BindingThrew? <==> ClosesFirst(routines, rhs, slot)
  {
    if '(' in rhs && ')' in rhs {
      InName(rhs);
    } else if '(' in rhs {
      assert ')' !in RoutineName(rhs);
    }
  }

  lemma BindThrows(parse: ParseDouble, routines: map<string, RoutineType>, rhs: string, slot: RoutineType)
    ensures Bind(parse, routines, rhs, slot).BindingThrew? <==> IsBackward(rhs) || ClosesFirst(routines, rhs, slot)
  {
    if StartsWith(rhs, "inline") {
      InlineThrows(parse, rhs);
    } else {
      CallThrows(parse, routines, rhs, slot);
    }
  }

  lemma AssignThrows(parse: ParseDouble, p: Policy, line: string)
    ensures Assign(parse, p, line).verdict.Throw? <==>
            && Assignment(line).Some?
            && var (target, attr, rhs) := Assignment(line).value;
               && SlotOf(p, target, attr).Some?
               && (IsBackward(rhs) || ClosesFirst(p.routines, rhs, SlotOf(p, target, attr).value))
  {
    var a := Assignment(line);
    if a.Some? && SlotOf(p, a.value.0, a.value.1).Some? {
      BindThrows(parse, p.routines, a.value.2, SlotOf(p, a.value.0, a.value.1).value);
    }
  }

  /** An exception ends the compiler on exactly those lines that assign, to an attribute that is there, a backward
      inline expression or a call of a routine for it that has a closing parenthesis in its name. */
  lemma CrashesIff(parse: ParseDouble, files: Files, p: Policy, raw: string)
    ensures ReadLine(parse, files, p, raw).verdict.Throw? <==>
            && Assigned(p, Trim(raw)).Some?
            && var (slot, rhs) := Assigned(p, Trim(raw)).value;
               IsBackward(rhs) || ClosesFirst(p.routines, rhs, slot)
  {
    AssignThrows(parse, p, Trim(raw));
  }

  lemma CallOf(name: string, rest: string)
    requires '(' !in name
    ensures var rhs := name + (['('] + rest); '(' in rhs && RoutineName(rhs) == name
  {
    var rhs := name + (['('] + rest);
    GroupRight(name, '(', rest);
    IndexOfFirst(name, '(', rest);
    assert rhs[|name|] == '(' && rhs[..|name|] == name;
  }

  lemma OneDeclared(name: string, slot: RoutineType, routines: seq<Routine>)
    requires IsRoutineName(name) && routines == [Routine(slot, name)]
    ensures ImportLines(Import(true, map[], None), HeaderLines(routines)).routines == map[name := slot]
  {
    PlainHeader(routines);
    HeaderRead(map[], None, HeaderLines(routines), routines);
    assert routines[1..] == [];
  }

  /** A header can declare such a routine, and a call of it is such a line. */
  lemma ClosesFirstDeclared(name: string, slot: RoutineType, routines: seq<Routine>, rest: string)
    requires IsRoutineName(name) && ')' in name && !StartsWith(name, "inline") && routines == [Routine(slot, name)]
    ensures ClosesFirst(ImportLines(Import(true, map[], None), HeaderLines(routines)).routines,
                        name + (['('] + rest), slot)
  {
    OneDeclared(name, slot, routines);
    CallOf(name, rest);
    NotPrefix(name, ['('] + rest, "inline");
  }
}
