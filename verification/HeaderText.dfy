/** Header files as text: annotated declarations of routines are read back with their types. */
module HeaderText {
  import opened JavaStrings
  import opened Layouts
  import opened Options
  import opened Policies
  import opened PolicyText
  import opened Routines

  // One declaration.

  /** The return type and the name. */
  function HeadText(t: RoutineType, name: string): string {
    var words := ReturnWords(t);
    if |words| == 1 then words[0] + [' '] + name else words[0] + [' '] + (words[1] + [' '] + name)
  }

  function StructText(struct_: string, name: string): string {
    "struct" + [' '] + (struct_ + [' '] + name)
  }

  /** The parameters, under the names the calls use. */
  function ParamTexts(t: RoutineType): seq<string> {
    seq(|Structs(t)|, i requires 0 <= i < |Structs(t)| => StructText(Structs(t)[i], Leading(t)[i]))
    + ["int" + [' '] + "argc", "..."]
  }

  function DeclarationLine(t: RoutineType, name: string): string {
    HeadText(t, name) + ['('] + (Join(ParamTexts(t)) + [')'] + ";")
  }

  /** A text without the characters that separate the parts of a declaration. */
  predicate IsWordText(s: string) {
    s != [] && forall c <- s :: c > ' ' && c != '(' && c != ')' && c != ','
  }

  lemma WordText(s: string)
    requires IsWordText(s)
    ensures Visible(s) && Trim(s) == s && ' ' !in s && '(' !in s && ')' !in s && ',' !in s
  {
    assert s[0] in s && s[|s| - 1] in s;
    TrimSame(s);
  }

  lemma TableWords(t: RoutineType)
    ensures forall i :: 0 <= i < |ReturnWords(t)| ==> IsWordText(ReturnWords(t)[i])
    ensures forall i :: 0 <= i < |Structs(t)| ==> IsWordText(Structs(t)[i]) && IsWordText(Leading(t)[i])
  {
  }

  /** A name that a declaration can give to a routine. It may have any visible characters but an opening parenthesis. */
  predicate IsRoutineName(name: string) {
    Visible(name) && ' ' !in name && '(' !in name
  }

  /** Words with blanks between them. */
  lemma TwoTokens(a: string, b: string)
    requires Visible(a) && ' ' !in a && Visible(b) && ' ' !in b
    ensures var s := a + [' '] + b; Visible(s) && Trim(s) == s && Split(s, ' ') == [a, b]
  {
    SplitTwo(a, ' ', b);
    TrimAround(a + [' '] + b);
  }

  lemma ThreeTokens(a: string, b: string, d: string)
    requires Visible(a) && ' ' !in a && ' ' !in b && Visible(d) && ' ' !in d
    ensures var s := a + [' '] + (b + [' '] + d); Visible(s) && Trim(s) == s && Split(s, ' ') == [a, b, d]
  {
    SplitThree(a, ' ', b, d);
    TrimAround(a + [' '] + (b + [' '] + d));
  }

  lemma TwoWords(a: string, b: string)
    requires IsWordText(a) && IsWordText(b)
    ensures var s := a + [' '] + b;
            && Visible(s) && Trim(s) == s && Split(s, ' ') == [a, b]
            && '(' !in s && ')' !in s && ',' !in s
  {
    WordText(a);
    WordText(b);
    TwoTokens(a, b);
    Absent('(', a + [' '], b);
    Absent(')', a + [' '], b);
    Absent(',', a + [' '], b);
  }

  lemma ThreeWords(a: string, b: string, d: string)
    requires IsWordText(a) && IsWordText(b) && IsWordText(d)
    ensures var s := a + [' '] + (b + [' '] + d);
            && Visible(s) && Trim(s) == s && Split(s, ' ') == [a, b, d]
            && '(' !in s && ')' !in s && ',' !in s
  {
    WordText(a);
    WordText(b);
    WordText(d);
    ThreeTokens(a, b, d);
    TwoWords(b, d);
    Absent('(', a + [' '], b + [' '] + d);
    Absent(')', a + [' '], b + [' '] + d);
    Absent(',', a + [' '], b + [' '] + d);
  }

  lemma HeadRead(t: RoutineType, name: string)
    requires IsRoutineName(name)
    ensures var s := HeadText(t, name);
            Visible(s) && '(' !in s && ReturnOk(t, Words(s)) && Words(s)[|ReturnWords(t)|] == name
  {
    TableWords(t);
    var words := ReturnWords(t);
    WordText(words[0]);
    if |words| == 1 {
      TwoTokens(words[0], name);
      Absent('(', words[0] + [' '], name);
    } else {
      WordText(words[1]);
      ThreeTokens(words[0], words[1], name);
      Absent('(', words[1] + [' '], name);
      Absent('(', words[0] + [' '], words[1] + [' '] + name);
    }
  }

  lemma StructRead(struct_: string, name: string, param: string)
    requires IsWordText(struct_) && IsWordText(name) && Trim(param) == StructText(struct_, name)
    ensures StructOk(param, struct_)
  {
    ThreeWords("struct", struct_, name);
    WordText("struct");
    WordText(struct_);
  }

  lemma CountRead(param: string)
    requires Trim(param) == "int" + [' '] + "argc"
    ensures CountOk(param)
  {
    TwoWords("int", "argc");
    WordText("int");
  }

  /** A text that stays whole in the list of parameters. */
  predicate IsParam(x: string) {
    IsPart(x) && '(' !in x && ')' !in x
  }

  lemma ParamShape(t: RoutineType, i: nat)
    requires i < |ParamTexts(t)|
    ensures IsParam(ParamTexts(t)[i])
  {
    if i < |Structs(t)| {
      TableWords(t);
      ThreeWords("struct", Structs(t)[i], Leading(t)[i]);
    } else if i == |Structs(t)| {
      TwoWords("int", "argc");
    } else {
      assert ParamTexts(t)[i] == "...";
    }
  }

  lemma ParamsSeparable(t: RoutineType)
    ensures Separable(ParamTexts(t))
    ensures forall i :: 0 <= i < |ParamTexts(t)| ==> '(' !in ParamTexts(t)[i] && ')' !in ParamTexts(t)[i]
  {
    forall i | 0 <= i < |ParamTexts(t)| ensures IsParam(ParamTexts(t)[i]) {
      ParamShape(t, i);
    }
  }

  lemma ParamsRead(t: RoutineType, params: seq<string>)
    requires AreParts(params, ParamTexts(t))
    ensures ParamsOk(t, params)
  {
    TableWords(t);
    var n := |Structs(t)|;
    forall i | 0 <= i < n ensures StructOk(params[i], Structs(t)[i]) {
      StructRead(Structs(t)[i], Leading(t)[i], params[i]);
    }
    CountRead(params[n]);
    assert Trim(params[n + 1]) == "...";
  }

  lemma LineParts(head: string, inside: string)
    requires '(' !in head && '(' !in inside && ')' !in inside
    ensures var line := head + ['('] + (inside + [')'] + ";");
            && Split(line, '(') == [head, inside + [')'] + ";"] && Split(inside + [')'] + ";", ')') == [inside, ";"]
            && HeaderParams(line) == Split(inside, ',')
  {
    var tail := inside + [')'] + ";";
    Absent('(', inside, [')']);
    Absent('(', inside + [')'], ";");
    SplitTwo(head, '(', tail);
    SplitTwo(inside, ')', ";");
  }

  /** A declaration with the signature of its type is accepted, under its name. */
  lemma DeclarationAccepted(t: RoutineType, name: string)
    requires IsRoutineName(name)
    ensures Routines.Validate(t, DeclarationLine(t, name)) == Some(name)
  {
    var inside := Join(ParamTexts(t));
    HeadRead(t, name);
    InsideRead(t, inside);
    LineParts(HeadText(t, name), inside);
  }

  lemma InsideRead(t: RoutineType, inside: string)
    requires inside == Join(ParamTexts(t))
    ensures '(' !in inside && ')' !in inside && ParamsOk(t, Split(inside, ','))
  {
    ParamsSeparable(t);
    JoinAvoids(ParamTexts(t), '(');
    JoinAvoids(ParamTexts(t), ')');
    JoinSplit(ParamTexts(t));
    ParamsRead(t, Split(inside, ','));
  }

  // Annotations.

  function AnnotationLine(t: RoutineType): string {
    "// " + Tag(t)
  }

  /** In a text whose only `@` is where `tag` starts, a text that begins with `@` is found only there. */
  lemma {:induction false} FoundOnlyThere(a: string, tag: string, p: string)
    requires p != [] && p[0] == '@' && '@' !in a && tag != [] && '@' !in tag[1..]
    ensures Find(a + tag, p) >= 0 <==> p <= tag
    decreases |a|
  {
    if a == [] {
      assert a + tag == tag;
      NotFound(tag[1..], p);
      FindStep(tag, p);
    } else {
      assert (a + tag)[0] == a[0];
      assert (a + tag)[1..] == a[1..] + tag;
      FoundOnlyThere(a[1..], tag, p);
      FindStep(a + tag, p);
    }
  }

  lemma FindStep(s: string, p: string)
    requires s != [] && p != []
    ensures Find(s, p) >= 0 <==> p <= s || Find(s[1..], p) >= 0
    ensures p <= s ==> s[0] == p[0]
  {
  }

  lemma {:induction false} NotFound(s: string, p: string)
    requires p != [] && p[0] !in s
    ensures Find(s, p) < 0
  {
    if s != [] {
      NotFound(s[1..], p);
    }
  }

  lemma TagShape(t: RoutineType)
    ensures Tag(t) != [] && Tag(t)[0] == '@' && '@' !in Tag(t)[1..] && Tag(t)[|Tag(t)| - 1] == 'c'
  {
    assert Tag(t)[1..] == TagName(t);
  }

  lemma TagsDiffer(t: RoutineType, u: RoutineType)
    ensures Tag(t) <= Tag(u) <==> t == u
  {
    assert Tag(CongestionCondition)[9] == 'f' && Tag(CongestionAction)[9] == 'a';
    assert Tag(t)[4] == Tag(u)[4] && Tag(t)[5] == Tag(u)[5] ==>
        t == u || {t, u} == {CongestionCondition, CongestionAction};
  }

  lemma TagFound(t: RoutineType, u: RoutineType)
    ensures Contains(AnnotationLine(t), Tag(u)) <==> t == u
  {
    TagsDiffer(u, t);
    TagShape(t);
    TagShape(u);
    FoundOnlyThere("// ", Tag(t), Tag(u));
  }

  lemma AnnotationRead(t: RoutineType)
    ensures Annotation(AnnotationLine(t)) == Some(t)
  {
    TagFound(t, QueueSelector);
    TagFound(t, CongestionCondition);
    TagFound(t, CongestionAction);
    TagFound(t, AdmissionPriority);
    TagFound(t, ProcessingPriority);
    TagFound(t, SchedulingPriority);
  }

  /** A comment that holds the tag of one type only announces that type; one without a tag announces nothing. */
  lemma AnnotationIff(line: string)
    ensures Annotation(line).None? <==> forall t :: !Contains(line, Tag(t))
    ensures forall t | (forall u :: Contains(line, Tag(u)) <==> u == t) :: Annotation(line) == Some(t)
    ensures Annotation(line).Some? ==> Contains(line, Tag(Annotation(line).value))
  {
    if forall t :: !Contains(line, Tag(t)) {
      assert !Contains(line, Tag(QueueSelector)) && !Contains(line, Tag(CongestionCondition));
      assert !Contains(line, Tag(CongestionAction)) && !Contains(line, Tag(AdmissionPriority));
      assert !Contains(line, Tag(ProcessingPriority)) && !Contains(line, Tag(SchedulingPriority));
    }
    forall t | forall u :: Contains(line, Tag(u)) <==> u == t ensures Annotation(line) == Some(t) {
      assert Contains(line, Tag(t));
    }
  }

  /** The tags and the signatures, spelled out. */
  lemma TagTexts()
    ensures Tag(CongestionCondition) == "@oq_cong_func" && Tag(CongestionAction) == "@oq_cong_act_func"
    ensures Tag(AdmissionPriority) == "@oq_admn_func" && Tag(ProcessingPriority) == "@oq_proc_func"
    ensures Tag(QueueSelector) == "@oq_qsel_func" && Tag(SchedulingPriority) == "@oq_schd_func"
  {
  }

  function Before(t: RoutineType): string {
    match t
    case CongestionCondition => "bool "
    case CongestionAction => "int "
    case AdmissionPriority => "unsigned long "
    case ProcessingPriority => "unsigned long "
    case QueueSelector => "int "
    case SchedulingPriority => "int "
  }

  function Inside(t: RoutineType): string {
    match t
    case CongestionCondition => "struct oq_queue* queue" + ", int argc, ..."
    case CongestionAction => "struct oq_queue* queue" + ", " + "struct sk_buff* skb" + ", int argc, ..."
    case AdmissionPriority => "struct sk_buff* skb" + ", int argc, ..."
    case ProcessingPriority => "struct sk_buff* skb" + ", int argc, ..."
    case QueueSelector => "struct Qdisc* sch" + ", " + "struct sk_buff* skb" + ", int argc, ..."
    case SchedulingPriority => "struct Qdisc* sch" + ", int argc, ..."
  }

  lemma HeadSpelled(t: RoutineType, name: string)
    ensures HeadText(t, name) == Before(t) + name
  {
    assert "unsigned" + [' '] + ("long" + [' '] + name) == "unsigned long " + name;
    assert "bool" + [' '] + name == "bool " + name;
    assert "int" + [' '] + name == "int " + name;
  }

  lemma OneStruct(a: string)
    ensures Join([a, "int argc", "..."]) == a + ", int argc, ..."
  {
    assert [a, "int argc", "..."] == [a] + ["int argc"] + ["..."];
    JoinMore([a], "int argc");
    JoinMore([a] + ["int argc"], "...");
  }

  lemma TwoStructs(a: string, b: string)
    ensures Join([a, b, "int argc", "..."]) == a + ", " + b + ", int argc, ..."
  {
    assert [a, b, "int argc", "..."] == [a] + [b] + ["int argc"] + ["..."];
    JoinMore([a], b);
    JoinMore([a] + [b], "int argc");
    JoinMore([a] + [b] + ["int argc"], "...");
  }

  lemma StructsSpelled()
    ensures StructText("oq_queue*", "queue") == "struct oq_queue* queue"
    ensures StructText("sk_buff*", "skb") == "struct sk_buff* skb"
    ensures StructText("Qdisc*", "sch") == "struct Qdisc* sch"
    ensures "int" + [' '] + "argc" == "int argc"
  {
  }

  lemma ParamsListed(t: RoutineType)
    ensures ParamTexts(t) ==
            match t
            case CongestionCondition => ["struct oq_queue* queue", "int argc", "..."]
            case CongestionAction => ["struct oq_queue* queue", "struct sk_buff* skb", "int argc", "..."]
            case AdmissionPriority => ["struct sk_buff* skb", "int argc", "..."]
            case ProcessingPriority => ["struct sk_buff* skb", "int argc", "..."]
            case QueueSelector => ["struct Qdisc* sch", "struct sk_buff* skb", "int argc", "..."]
            case SchedulingPriority => ["struct Qdisc* sch", "int argc", "..."]
  {
    StructsSpelled();
  }

  lemma ParamsSpelled(t: RoutineType)
    ensures Inside(t) == Join(ParamTexts(t))
  {
    ParamsListed(t);
    match t
    case CongestionCondition => OneStruct("struct oq_queue* queue");
    case CongestionAction => TwoStructs("struct oq_queue* queue", "struct sk_buff* skb");
    case AdmissionPriority => OneStruct("struct sk_buff* skb");
    case ProcessingPriority => OneStruct("struct sk_buff* skb");
    case QueueSelector => TwoStructs("struct Qdisc* sch", "struct sk_buff* skb");
    case SchedulingPriority => OneStruct("struct Qdisc* sch");
  }

  /** For each type, the declaration that is accepted, under any name. */
  lemma SignatureAccepted(t: RoutineType, name: string)
    requires IsRoutineName(name)
    ensures Routines.Validate(t, Before(t) + name + ['('] + (Inside(t) + [')'] + ";")) == Some(name)
  {
    HeadSpelled(t, name);
    ParamsSpelled(t);
    DeclarationAccepted(t, name);
  }

  // Files.

  datatype Routine = Routine(t: RoutineType, name: string)

  function HeaderLines(routines: seq<Routine>): seq<string> {
    if routines == [] then []
    else [AnnotationLine(routines[0].t), DeclarationLine(routines[0].t, routines[0].name)] + HeaderLines(routines[1..])
  }

  function Added(table: map<string, RoutineType>, routines: seq<Routine>): map<string, RoutineType>
    decreases |routines|
  {
    if routines == [] then table else Added(table[routines[0].name := routines[0].t], routines[1..])
  }

  /** The names are new and differ from each other. */
  predicate Addable(table: map<string, RoutineType>, routines: seq<Routine>) {
    && (forall r <- routines :: IsRoutineName(r.name) && r.name !in table)
    && (forall i, j :: 0 <= i < j < |routines| ==> routines[i].name != routines[j].name)
  }

  lemma DeclarationStart(t: RoutineType, name: string)
    requires IsRoutineName(name)
    ensures var s := DeclarationLine(t, name); Visible(s) && !("//" <= s)
  {
    HeadRead(t, name);
    var s := DeclarationLine(t, name);
    assert s[|s| - 1] == ';';
    assert s[0] == HeadText(t, name)[0] == ReturnWords(t)[0][0];
  }

  lemma DeclarationStep(s: Import, t: RoutineType, name: string)
    requires IsRoutineName(name) && s.next == Some(t) && name !in s.routines
    ensures ImportLine(s, DeclarationLine(t, name)) == s.(routines := s.routines[name := t], next := None)
  {
    DeclarationAccepted(t, name);
    DeclarationStart(t, name);
    TrimAround(DeclarationLine(t, name));
  }

  /** The lines declare the routines: each declaration is a line of its own, and the last line above it that is not
      blank is a comment that announces its type. Other lines stand where nothing is announced. At first `next` is. */
  predicate Declares(next: Option<RoutineType>, lines: seq<string>, routines: seq<Routine>)
    decreases |lines|
  {
    if lines == [] then routines == []
    else if Blank(lines[0]) then Declares(next, lines[1..], routines)
    else if IsComment(lines[0]) then Declares(Annotation(lines[0]), lines[1..], routines)
    else if next.None? then Declares(None, lines[1..], routines)
    else
      && routines != [] && routines[0].t == next.value
      && Padded(lines[0], DeclarationLine(routines[0].t, routines[0].name))
      && Declares(None, lines[1..], routines[1..])
  }

  lemma PaddedImported(s: Import, line: string, text: string)
    requires Padded(line, text) && Visible(text)
    ensures ImportLine(s, line) == ImportLine(s, text)
  {
    PaddedTrim(line, text);
    TrimAround(text);
  }

  /** A whole header file adds exactly the routines it declares. */
  lemma {:induction false} HeaderRead(table: map<string, RoutineType>, next: Option<RoutineType>, lines: seq<string>,
                                      routines: seq<Routine>)
    requires Addable(table, routines) && Declares(next, lines, routines)
    ensures var i := ImportLines(Import(true, table, next), lines); i.ok && i.routines == Added(table, routines)
    decreases |lines|
  {
    var s := Import(true, table, next);
    if lines != [] {
      LineImported(s, lines[0]);
      if Blank(lines[0]) || IsComment(lines[0]) || next.None? {
        HeaderRead(table, ImportLine(s, lines[0]).next, lines[1..], routines);
      } else {
        DeclarationImported(s, lines[0], routines);
        HeaderRead(table[routines[0].name := routines[0].t], None, lines[1..], routines[1..]);
      }
    }
  }

  lemma DeclarationImported(s: Import, line: string, routines: seq<Routine>)
    requires Addable(s.routines, routines) && routines != [] && s.next == Some(routines[0].t)
    requires Padded(line, DeclarationLine(routines[0].t, routines[0].name))
    ensures ImportLine(s, line) == s.(routines := s.routines[routines[0].name := routines[0].t], next := None)
    ensures Addable(s.routines[routines[0].name := routines[0].t], routines[1..])
  {
    var r := routines[0];
    assert r in routines;
    DeclarationStart(r.t, r.name);
    PaddedImported(s, line, DeclarationLine(r.t, r.name));
    DeclarationStep(s, r.t, r.name);
  }

  /** A header with nothing but the annotations and the declarations. */
  lemma {:induction false} PlainHeader(routines: seq<Routine>)
    requires forall r <- routines :: IsRoutineName(r.name)
    ensures Declares(None, HeaderLines(routines), routines)
  {
    if routines != [] {
      var r, rest := routines[0], HeaderLines(routines[1..]);
      assert r in routines && forall x <- routines[1..] :: x in routines;
      PlainHeader(routines[1..]);
      PairDeclares(r, rest, routines[1..]);
      assert [r] + routines[1..] == routines;
    }
  }

  lemma PairDeclares(r: Routine, rest: seq<string>, routines: seq<Routine>)
    requires IsRoutineName(r.name) && Declares(None, rest, routines)
    ensures Declares(None, [AnnotationLine(r.t), DeclarationLine(r.t, r.name)] + rest, [r] + routines)
  {
    var a, d := AnnotationLine(r.t), DeclarationLine(r.t, r.name);
    PlainPair(r);
    DeclarationFirst(r, d, rest, routines);
    CommentFirst(a, r.t, [d] + rest, [r] + routines);
    assert [a, d] + rest == [a] + ([d] + rest);
  }

  lemma CommentFirst(a: string, t: RoutineType, rest: seq<string>, routines: seq<Routine>)
    requires IsComment(a) && !Blank(a) && Annotation(a) == Some(t) && Declares(Some(t), rest, routines)
    ensures Declares(None, [a] + rest, routines)
  {
    assert ([a] + rest)[1..] == rest;
  }

  lemma DeclarationFirst(r: Routine, d: string, rest: seq<string>, routines: seq<Routine>)
    requires !IsComment(d) && !Blank(d) && Padded(d, DeclarationLine(r.t, r.name)) && Declares(None, rest, routines)
    ensures Declares(Some(r.t), [d] + rest, [r] + routines)
  {
    assert ([d] + rest)[1..] == rest && ([r] + routines)[1..] == routines;
  }

  lemma PlainPair(r: Routine)
    requires IsRoutineName(r.name)
    ensures var line := AnnotationLine(r.t); IsComment(line) && !Blank(line) && Annotation(line) == Some(r.t)
    ensures var line := DeclarationLine(r.t, r.name); !IsComment(line) && !Blank(line) && Padded(line, line)
  {
    var a, line := AnnotationLine(r.t), DeclarationLine(r.t, r.name);
    AnnotationRead(r.t);
    assert Blank(a[..0]) && "//" <= a[0..];
    LineImported(Import(true, map[], None), a);
    DeclarationStart(r.t, r.name);
    TrimAround(line);
    CommentTrim(line);
    BlankTrim(line);
    assert Blank(line[..0]) && line[0..0 + |line|] == line && Blank(line[0 + |line|..]);
  }
}
