/** The layout of pretty mode: where lines break, and how far they are indented. */
module JsonLayout {
  import opened Decimals
  import opened JsonParser
  import opened JsonRoundTrip
  import opened JsonText
  import opened Sequences

  function BlankCount(s: string): (n: nat)
    ensures n <= |s|
  {
    if s == [] || s[0] != ' ' then 0 else 1 + BlankCount(s[1..])
  }

  predicate Closes(c: char) {
    c == '}' || c == ']'
  }

  /** A line starts with four blanks for each open bracket. One that closes a bracket starts with those of the bracket
      it closes, which for the outermost are four as well. */
  predicate StartsRight(line: string, open: nat) {
    var n := BlankCount(line);
    n == 4 * if n < |line| && Closes(line[n]) && open > 1 then open - 1 else open
  }

  /** Outside strings, every line starts right, and every member of an object starts a line. The brackets of `open` are
      open at first. */
  predicate LaidOut(s: string, open: string, inString: bool) {
    if s == [] then true
    else if inString then
      if s[0] == '\\' && |s| > 1 then LaidOut(s[2..], open, true) else LaidOut(s[1..], open, s[0] != '"')
    else if s[0] == '{' then
      (|s| > 1 && s[1] in {'\n', '}'}) && LaidOut(s[1..], open + "{", false)
    else if s[0] == '[' then
      LaidOut(s[1..], open + "[", false)
    else if Closes(s[0]) then
      open != [] && LaidOut(s[1..], open[..|open| - 1], false)
    else if s[0] == ',' then
      (open != [] && open[|open| - 1] == '{' ==> |s| > 1 && s[1] == '\n') && LaidOut(s[1..], open, false)
    else if s[0] == '\n' then
      StartsRight(s[1..], |open|) && LaidOut(s[1..], open, false)
    else
      LaidOut(s[1..], open, s[0] == '"')
  }

  // ----- pieces -----

  predicate Ordinary(c: char) {
    c !in {'"', '{', '[', '}', ']', ',', '\n'}
  }

  predicate AllOrdinary(s: string) {
    forall i :: 0 <= i < |s| ==> Ordinary(s[i])
  }

  lemma {:induction false} LaidOrdinary(s: string, rest: string, open: string)
    requires AllOrdinary(s)
    ensures LaidOut(s + rest, open, false) == LaidOut(rest, open, false)
  {
    if s == [] {
      assert s + rest == rest;
    } else {
      assert (s + rest)[0] == s[0] && (s + rest)[1..] == s[1..] + rest;
      LaidOrdinary(s[1..], rest, open);
    }
  }

  lemma LaidChar(c: char, tail: string, open: string)
    ensures LaidOut(Escape(c) + tail, open, true) == LaidOut(tail, open, true)
  {
    var e := Escape(c);
    if |e| == 2 {
      assert (e + tail)[2..] == tail;
    } else {
      assert (e + tail)[1..] == tail;
    }
  }

  lemma {:induction false} LaidChars(s: string, rest: string, open: string)
    ensures LaidOut(Escaped(s) + ("\"" + rest), open, true) == LaidOut(rest, open, false)
  {
    var q := "\"" + rest;
    if s == [] {
      assert Escaped(s) + q == q && q[1..] == rest;
    } else {
      LaidChars(s[1..], rest, open);
      LaidChar(s[0], Escaped(s[1..]) + q, open);
      Assoc(Escape(s[0]), Escaped(s[1..]), q);
    }
  }

  lemma LaidQuoted(s: string, rest: string, open: string)
    ensures LaidOut(Quoted(s) + rest, open, false) == LaidOut(rest, open, false)
  {
    LaidChars(s, rest, open);
    QuotedJoin(s, rest);
    var inside := Escaped(s) + ("\"" + rest);
    assert ("\"" + inside)[1..] == inside;
  }

  lemma {:induction false} IndentCount(n: nat, rest: string)
    requires rest != [] && rest[0] != ' '
    ensures |Indent(n)| == 4 * n && BlankCount(Indent(n) + rest) == 4 * n
    ensures forall i :: 0 <= i < 4 * n ==> Indent(n)[i] == ' '
  {
    if n == 0 {
      assert Indent(n) + rest == rest;
    } else {
      IndentCount(n - 1, rest);
      BlanksMore(Indent(n), rest);
    }
  }

  lemma {:induction false} BlanksMore(s: string, rest: string)
    requires (forall i :: 0 <= i < |s| ==> s[i] == ' ') && rest != [] && rest[0] != ' '
    ensures BlankCount(s + rest) == |s|
  {
    if s == [] {
      assert s + rest == rest;
    } else {
      assert (s + rest)[0] == s[0] && (s + rest)[1..] == s[1..] + rest;
      BlanksMore(s[1..], rest);
    }
  }

  /** A line break that is followed by as many blanks as are right for what comes then. */
  lemma LaidEol(depth: nat, rest: string, open: string)
    requires rest != [] && rest[0] != ' '
    requires depth + 1 == if Closes(rest[0]) && |open| > 1 then |open| - 1 else |open|
    ensures LaidOut(Eol(true, depth) + rest, open, false) == LaidOut(rest, open, false)
  {
    var line := Indent(depth + 1) + rest;
    LineStartsRight(depth, rest, |open|);
    LaidOrdinary(Indent(depth + 1), rest, open);
    Assoc("\n", Indent(depth + 1), rest);
    assert ("\n" + line)[1..] == line;
  }

  lemma LineStartsRight(depth: nat, rest: string, open: nat)
    requires rest != [] && rest[0] != ' '
    requires depth + 1 == if Closes(rest[0]) && open > 1 then open - 1 else open
    ensures StartsRight(Indent(depth + 1) + rest, open)
    ensures AllOrdinary(Indent(depth + 1))
  {
    IndentCount(depth + 1, rest);
    assert (Indent(depth + 1) + rest)[4 * (depth + 1)] == rest[0];
  }

  // ----- trees -----

  lemma SignedOrdinary(n: int)
    ensures AllOrdinary(Signed(n))
  {
    var digits := Digits(if n < 0 then -n else n);
    DigitsValue(if n < 0 then -n else n);
    assert AllOrdinary(digits);
  }

  lemma ScalarOrdinary(v: Json, depth: nat)
    requires v.Bool? || v.Num?
    ensures AllOrdinary(Text(v, depth, true))
  {
    match v
    case Num(n) => SignedOrdinary(n);
    case _ =>
  }

  lemma LaidClose(c: char, depth: nat, rest: string, open: string)
    requires Closes(c) && |open| == depth + 2
    ensures LaidOut(Eol(true, depth) + ([c] + rest), open, false) == LaidOut(rest, open[..|open| - 1], false)
  {
    LaidEol(depth, [c] + rest, open);
    assert ([c] + rest)[1..] == rest;
  }

  /** A bracket, what is in it, and the line that closes it. */
  lemma LaidBrackets(o: char, c: char, body: string, depth: nat, rest: string, open: string)
    requires (o == '{' || o == '[') && Closes(c) && |open| == depth + 1
    requires o == '{' ==> body != [] && body[0] == '\n'
    requires var tail := Eol(true, depth) + ([c] + rest);
             LaidOut(body + tail, open + [o], false) == LaidOut(tail, open + [o], false)
    ensures LaidOut([o] + (body + (Eol(true, depth) + [c])) + rest, open, false) == LaidOut(rest, open, false)
  {
    var e := Eol(true, depth);
    Assoc([o], body + (e + [c]), rest);
    Assoc(body, e + [c], rest);
    Assoc(e, [c], rest);
    var inside := body + (e + ([c] + rest));
    assert ([o] + inside)[1..] == inside;
    LaidClose(c, depth, rest, open + [o]);
    assert (open + [o])[..|open|] == open;
  }

  lemma LaidEmpty(o: char, c: char, rest: string, open: string)
    requires (o == '{' && c == '}') || (o == '[' && c == ']')
    ensures LaidOut([o, c] + rest, open, false) == LaidOut(rest, open, false)
  {
    var s := [o, c] + rest;
    assert s[1..] == [c] + rest && ([c] + rest)[1..] == rest;
    assert (open + [o])[..|open|] == open;
  }

  lemma FieldsStart(fs: Fields, depth: nat)
    requires fs.Field?
    ensures var s := FieldsText(fs, depth, true, true); s != [] && s[0] == '\n'
  {
  }

  lemma {:induction false} LaidText(v: Json, depth: nat, rest: string, open: string)
    requires |open| == depth + 1
    ensures LaidOut(Text(v, depth, true) + rest, open, false) == LaidOut(rest, open, false)
    decreases v, 1
  {
    match v
    case Str(s) => LaidQuoted(s, rest, open);
    case Bool(_) =>
      ScalarOrdinary(v, depth);
      LaidOrdinary(Text(v, depth, true), rest, open);
    case Num(_) =>
      ScalarOrdinary(v, depth);
      LaidOrdinary(Text(v, depth, true), rest, open);
    case Obj(fs) =>
      if fs.NoField? {
        LaidEmpty('{', '}', rest, open);
      } else {
        FieldsStart(fs, depth + 1);
        LaidFields(fs, depth + 1, true, Eol(true, depth) + ("}" + rest), open + "{");
        LaidBrackets('{', '}', FieldsText(fs, depth + 1, true, true), depth, rest, open);
      }
    case Arr(vs) =>
      if vs.NoItem? {
        LaidEmpty('[', ']', rest, open);
      } else {
        LaidItems(vs, depth + 1, true, Eol(true, depth) + ("]" + rest), open + "[");
        LaidBrackets('[', ']', ItemsText(vs, depth + 1, true, true), depth, rest, open);
      }
  }

  lemma LaidMember(name: string, text: string, open: string)
    ensures LaidOut(Quoted(name) + (":" + (" " + text)), open, false) == LaidOut(text, open, false)
  {
    LaidQuoted(name, ":" + (" " + text), open);
    LaidOrdinary(":", " " + text, open);
    LaidOrdinary(" ", text, open);
  }

  lemma LaidComma(first: bool, depth: nat, members: string, open: string)
    requires |open| == depth + 1 && members != [] && members[0] == '"'
    ensures LaidOut(Comma(first) + (Eol(true, depth) + members), open, false) == LaidOut(members, open, false)
  {
    var e := Eol(true, depth) + members;
    LaidEol(depth, members, open);
    if first {
      assert Comma(first) + e == e;
    } else {
      assert (Comma(first) + e)[1..] == e;
    }
  }

  lemma {:induction false} LaidFields(fs: Fields, depth: nat, first: bool, tail: string, open: string)
    requires |open| == depth + 1
    ensures LaidOut(FieldsText(fs, depth, true, first) + tail, open, false) == LaidOut(tail, open, false)
    decreases fs, 0
  {
    if fs.NoField? {
      assert FieldsText(fs, depth, true, first) + tail == tail;
    } else {
      var after := FieldsText(fs.more, depth, true, false) + tail;
      FieldsSplit(fs, depth, true, first, tail);
      LaidComma(first, depth, MembersText(fs, depth, true, tail), open);
      LaidMember(fs.name, Text(fs.value, depth, true) + after, open);
      LaidText(fs.value, depth, after, open);
      LaidFields(fs.more, depth, false, tail, open);
    }
  }

  lemma LaidItemComma(first: bool, text: string, open: string)
    requires open != [] && open[|open| - 1] == '['
    ensures LaidOut(Comma(first) + text, open, false) == LaidOut(text, open, false)
  {
    if first {
      assert Comma(first) + text == text;
    } else {
      assert (Comma(first) + text)[1..] == text;
    }
  }

  lemma {:induction false} LaidItems(vs: Items, depth: nat, first: bool, tail: string, open: string)
    requires |open| == depth + 1 && open[depth] == '['
    ensures LaidOut(ItemsText(vs, depth, true, first) + tail, open, false) == LaidOut(tail, open, false)
    decreases vs, 0
  {
    if vs.NoItem? {
      assert ItemsText(vs, depth, true, first) + tail == tail;
    } else {
      var after := ItemsText(vs.more, depth, true, false) + tail;
      ItemsSplit(vs, depth, true, first, tail);
      LaidItemComma(first, Text(vs.value, depth, true) + after, open);
      LaidText(vs.value, depth, after, open);
      LaidItems(vs.more, depth, false, tail, open);
    }
  }

  lemma LaidEnd()
    ensures LaidOut(Eol(true, 0) + "}\n", "{", false)
  {
    LaidEol(0, "}\n", "{");
    assert "}\n"[1..] == "\n" && "\n"[1..] == "" && "{"[..0] == "";
  }

  /** A document in pretty mode is laid out so. */
  lemma PrettyLaidOut(fs: Fields)
    ensures LaidOut(Document(fs, true), "", false)
  {
    var tail := Eol(true, 0) + "}\n";
    var body := FieldsText(fs, 0, true, true) + tail;
    LaidEnd();
    LaidFields(fs, 0, true, tail, "{");
    if fs.NoField? {
      assert body == tail;
    } else {
      FieldsStart(fs, 0);
    }
    assert body[0] == '\n' && ("{" + body)[1..] == body && "" + "{" == "{";
  }
}
