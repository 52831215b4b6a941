/** Reading back what was written: for every tree, in both modes, exactly what a reader gets. */
module JsonRoundTrip {
  import opened Sequences
  import opened Options
  import opened Decimals
  import opened JsonParser
  import opened JsonText

  predicate AllWs(w: string) {
    forall i :: 0 <= i < |w| ==> IsWs(w[i])
  }

  lemma {:induction false} SkipBefore(w: string, s: string)
    requires AllWs(w)
    ensures SkipWs(w + s) == SkipWs(s)
  {
    if w == [] {
      assert w + s == s;
    } else {
      assert (w + s)[1..] == w[1..] + s;
      SkipBefore(w[1..], s);
    }
  }

  lemma {:induction false} SkipTwice(s: string)
    ensures SkipWs(SkipWs(s)) == SkipWs(s)
  {
  }

  lemma {:induction false} IndentIsWs(n: nat)
    ensures AllWs(Indent(n))
  {
    if n > 0 { IndentIsWs(n - 1); }
  }

  lemma EolIsWs(pretty: bool, depth: nat)
    ensures AllWs(Eol(pretty, depth))
  {
    IndentIsWs(depth + 1);
  }

  /** A text that does not go on with a digit, which would lengthen a number before it. */
  predicate Ends(s: string) {
    s == [] || !IsDigit(s[0])
  }

  lemma TextHead(v: Json, depth: nat, pretty: bool)
    ensures Text(v, depth, pretty) != []
    ensures var c := Text(v, depth, pretty)[0]; !IsWs(c) && c != ']' && c != '}' && c != ','
  {
    if v.Num? { DigitsValue(if v.number < 0 then -v.number else v.number); }
  }

  lemma NatRead(n: nat, rest: string)
    requires Ends(rest)
    ensures ReadNat(Digits(n) + rest) == Got(n, rest)
    ensures IsDigit((Digits(n) + rest)[0])
  {
    DigitsValue(n);
    DigitCountIs(Digits(n), rest);
    assert (Digits(n) + rest)[..|Digits(n)|] == Digits(n);
    assert (Digits(n) + rest)[|Digits(n)|..] == rest;
  }

  lemma NumberIsValue(s: string)
    requires s != [] && (IsDigit(s[0]) || s[0] == '-')
    ensures ReadValue(s) == ReadNumber(s)
  {
  }

  lemma NegativeRead(s: string)
    requires s != [] && IsDigit(s[0])
    ensures ReadNumber("-" + s) == (match ReadNat(s) case Fail => Fail case Got(n, rest) => Got(Num(0 - n), rest))
    ensures ReadNumber(s) == (match ReadNat(s) case Fail => Fail case Got(n, rest) => Got(Num(n), rest))
  {
    assert ("-" + s)[1..] == s;
  }

  lemma {:induction false} NumberRead(n: int, rest: string)
    requires Ends(rest)
    ensures ReadValue(Signed(n) + rest) == Got(Num(n), rest)
  {
    var m: nat := if n < 0 then -n else n;
    var s := Digits(m) + rest;
    NatRead(m, rest);
    NegativeRead(s);
    if n < 0 {
      assert Signed(n) + rest == "-" + s;
      NumberIsValue("-" + s);
    } else {
      NumberIsValue(s);
    }
  }

  lemma QuotedJoin(s: string, rest: string)
    ensures Quoted(s) + rest == "\"" + (Escaped(s) + ("\"" + rest))
  {
    Assoc("\"" + Escaped(s), "\"", rest);
    Assoc("\"", Escaped(s), "\"" + rest);
  }

  lemma StringRead(x: string, rest: string)
    ensures ReadValue(Quoted(x) + rest)
            == (match DecodedString(x) case None => Fail case Some(t) => Got(Str(t), rest))
  {
    var chars := Escaped(x) + ("\"" + rest);
    CharsRead(x, rest);
    QuotedJoin(x, rest);
    assert ("\"" + chars)[1..] == chars;
  }

  lemma BoolRead(b: bool, rest: string)
    ensures ReadValue((if b then "true" else "false") + rest) == Got(Bool(b), rest)
  {
    var word := if b then "true" else "false";
    assert (word + rest)[..|word|] == word && (word + rest)[|word|..] == rest;
  }

  // ----- objects and arrays -----

  /** Reading does not mind white space in front. */
  lemma AfterWs(w: string, s: string)
    requires AllWs(w)
    ensures ReadValue(w + s) == ReadValue(s)
    ensures ReadMembers(w + s) == ReadMembers(s)
  {
    SkipBefore(w, s);
  }

  /** A member whose name has been read as `name`, if at all, and whose value starts at `s`. */
  function MemberFrom(name: Option<string>, s: string): Read<Fields> {
    if name.None? || ReadValue(s).Fail? || ReadMoreMembers(ReadValue(s).rest).Fail? then Fail
    else Got(Field(name.value, ReadValue(s).value, ReadMoreMembers(ReadValue(s).rest).value),
             ReadMoreMembers(ReadValue(s).rest).rest)
  }

  /** A name and a colon: then a value and what follows it. */
  lemma MemberStep(name: string, s: string)
    ensures ReadMembers(Quoted(name) + (":" + s)) == MemberFrom(DecodedString(name), s)
  {
    var u := ":" + s;
    var chars := Escaped(name) + ("\"" + u);
    CharsRead(name, u);
    QuotedJoin(name, u);
    assert ("\"" + chars)[1..] == chars;
    assert u[1..] == s;
  }

  lemma MoreMembersStep(s: string)
    ensures ReadMoreMembers("," + s) == ReadMembers(s)
    ensures ReadMoreElements("," + s) == ReadElements(s)
  {
    assert ("," + s)[1..] == s;
  }

  lemma ObjectStep(s: string)
    requires !Starts(SkipWs(s), '}')
    ensures ReadValue("{" + s) == (match ReadMembers(s) case Fail => Fail case Got(fs, rest) => Got(Obj(fs), rest))
  {
    assert ("{" + s)[1..] == s;
    SkipTwice(s);
  }

  lemma ArrayStep(s: string)
    requires s != [] && !IsWs(s[0]) && s[0] != ']'
    ensures ReadValue("[" + s) == (match ReadElements(s) case Fail => Fail case Got(vs, rest) => Got(Arr(vs), rest))
  {
    assert ("[" + s)[1..] == s;
  }

  /** The members of an object from the first name on, and what comes after them. */
  function MembersText(fs: Fields, depth: nat, pretty: bool, tail: string): string
    requires fs.Field?
  {
    Quoted(fs.name) + (":" + ((if pretty then " " else "")
    + (Text(fs.value, depth, pretty) + (FieldsText(fs.more, depth, pretty, false) + tail))))
  }

  lemma FieldsSplit(fs: Fields, depth: nat, pretty: bool, first: bool, tail: string)
    requires fs.Field?
    ensures FieldsText(fs, depth, pretty, first) + tail
            == Comma(first) + (Eol(pretty, depth) + MembersText(fs, depth, pretty, tail))
  {
    var t, m := Text(fs.value, depth, pretty), FieldsText(fs.more, depth, pretty, false);
    var w := if pretty then " " else "";
    Assoc(Comma(first), Eol(pretty, depth) + (Quoted(fs.name) + (":" + (w + (t + m)))), tail);
    Assoc(Eol(pretty, depth), Quoted(fs.name) + (":" + (w + (t + m))), tail);
    Assoc(Quoted(fs.name), ":" + (w + (t + m)), tail);
    Assoc(":", w + (t + m), tail);
    Assoc(w, t + m, tail);
    Assoc(t, m, tail);
  }

  lemma ItemsSplit(vs: Items, depth: nat, pretty: bool, first: bool, tail: string)
    requires vs.Item?
    ensures ItemsText(vs, depth, pretty, first) + tail
            == Comma(first) + (Text(vs.value, depth, pretty) + (ItemsText(vs.more, depth, pretty, false) + tail))
  {
    var t, m := Text(vs.value, depth, pretty), ItemsText(vs.more, depth, pretty, false);
    Assoc(Comma(first), t + m, tail);
    Assoc(t, m, tail);
  }

  lemma ArraySplit(vs: Items, depth: nat, pretty: bool, rest: string)
    requires vs.Item?
    ensures Text(Arr(vs), depth, pretty) + rest
            == "[" + (Text(vs.value, depth + 1, pretty)
                      + (ItemsText(vs.more, depth + 1, pretty, false) + (Eol(pretty, depth) + ("]" + rest))))
  {
    var f, e := ItemsText(vs, depth + 1, pretty, true), Eol(pretty, depth);
    Assoc("[", f + (e + "]"), rest);
    Assoc(f, e + "]", rest);
    Assoc(e, "]", rest);
    ItemsSplit(vs, depth + 1, pretty, true, e + ("]" + rest));
  }

  /** White space and a closing bracket: nothing a number could run into. */
  lemma Closing(pretty: bool, depth: nat, close: char, rest: string)
    requires close == '}' || close == ']'
    ensures var tail := Eol(pretty, depth) + ([close] + rest); SkipWs(tail) == [close] + rest && Ends(tail)
  {
    EolIsWs(pretty, depth);
    SkipBefore(Eol(pretty, depth), [close] + rest);
  }

  lemma MoreMembersEnd(fs: Fields, depth: nat, pretty: bool, tail: string)
    requires Ends(tail)
    ensures Ends(FieldsText(fs, depth, pretty, false) + tail)
  {
    if fs.NoField? { assert FieldsText(fs, depth, pretty, false) + tail == tail; }
  }

  lemma MoreElementsEnd(vs: Items, depth: nat, pretty: bool, tail: string)
    requires Ends(tail)
    ensures Ends(ItemsText(vs, depth, pretty, false) + tail)
  {
    if vs.NoItem? { assert ItemsText(vs, depth, pretty, false) + tail == tail; }
  }

  lemma EmptyRead(rest: string)
    ensures ReadValue("{}" + rest) == Got(Obj(NoField), rest)
    ensures ReadValue("[]" + rest) == Got(Arr(NoItem), rest)
  {
    assert ("{}" + rest)[1..] == "}" + rest && ("}" + rest)[1..] == rest;
    assert ("[]" + rest)[1..] == "]" + rest && ("]" + rest)[1..] == rest;
  }

  /** Reading the text of any value, in either mode, gives exactly its decoded form, and
      fails exactly if there is none. */
  lemma {:induction false} ValueRead(v: Json, depth: nat, pretty: bool, rest: string)
    requires Ends(rest)
    ensures ReadValue(Text(v, depth, pretty) + rest) == AsRead(Decoded(v), rest)
    decreases v, 2
  {
    match v
    case Str(s) => StringRead(s, rest);
    case Bool(b) => BoolRead(b, rest);
    case Num(n) => NumberRead(n, rest);
    case Obj(fs) => if fs.NoField? { EmptyRead(rest); } else { ObjectRead(fs, depth, pretty, rest); }
    case Arr(vs) => if vs.NoItem? { EmptyRead(rest); } else { ArrayRead(vs, depth, pretty, rest); }
  }

  lemma {:induction false} BracedRead(fs: Fields, depth: nat, pretty: bool, tail: string, rest: string)
    requires fs.Field? && SkipWs(tail) == "}" + rest && Ends(tail)
    ensures ReadValue("{" + (FieldsText(fs, depth, pretty, true) + tail)) == AsRead(Decoded(Obj(fs)), rest)
    decreases fs, 3
  {
    var members := MembersText(fs, depth, pretty, tail);
    FieldsSplit(fs, depth, pretty, true, tail);
    assert Comma(true) + (Eol(pretty, depth) + members) == Eol(pretty, depth) + members;
    EolIsWs(pretty, depth);
    SkipBefore(Eol(pretty, depth), members);
    ObjectStep(Eol(pretty, depth) + members);
    AfterWs(Eol(pretty, depth), members);
    MembersRead(fs, depth, pretty, tail, rest);
  }

  lemma {:induction false} ObjectRead(fs: Fields, depth: nat, pretty: bool, rest: string)
    requires fs.Field?
    ensures ReadValue(Text(Obj(fs), depth, pretty) + rest) == AsRead(Decoded(Obj(fs)), rest)
    decreases fs, 4
  {
    var f, e := FieldsText(fs, depth + 1, pretty, true), Eol(pretty, depth);
    Assoc("{", f + (e + "}"), rest);
    Assoc(f, e + "}", rest);
    Assoc(e, "}", rest);
    Closing(pretty, depth, '}', rest);
    BracedRead(fs, depth + 1, pretty, e + ("}" + rest), rest);
  }

  lemma {:induction false} ArrayRead(vs: Items, depth: nat, pretty: bool, rest: string)
    requires vs.Item?
    ensures ReadValue(Text(Arr(vs), depth, pretty) + rest) == AsRead(Decoded(Arr(vs)), rest)
    decreases vs, 3
  {
    var tail := Eol(pretty, depth) + ("]" + rest);
    ArraySplit(vs, depth, pretty, rest);
    TextHead(vs.value, depth + 1, pretty);
    ArrayStep(Text(vs.value, depth + 1, pretty) + (ItemsText(vs.more, depth + 1, pretty, false) + tail));
    Closing(pretty, depth, ']', rest);
    ElementsRead(vs, depth + 1, pretty, tail, rest);
  }

  lemma {:induction false} MembersRead(fs: Fields, depth: nat, pretty: bool, tail: string, rest: string)
    requires fs.Field? && SkipWs(tail) == "}" + rest && Ends(tail)
    ensures ReadMembers(MembersText(fs, depth, pretty, tail)) == AsRead(DecodedFields(fs), rest)
    decreases fs, 0
  {
    var w := if pretty then " " else "";
    var after := FieldsText(fs.more, depth, pretty, false) + tail;
    MemberStep(fs.name, w + (Text(fs.value, depth, pretty) + after));
    AfterWs(w, Text(fs.value, depth, pretty) + after);
    MoreMembersEnd(fs.more, depth, pretty, tail);
    ValueRead(fs.value, depth, pretty, after);
    MoreMembersRead(fs.more, depth, pretty, tail, rest);
  }

  lemma {:induction false} MoreMembersRead(fs: Fields, depth: nat, pretty: bool, tail: string, rest: string)
    requires SkipWs(tail) == "}" + rest && Ends(tail)
    ensures ReadMoreMembers(FieldsText(fs, depth, pretty, false) + tail) == AsRead(DecodedFields(fs), rest)
    decreases fs, 1
  {
    if fs.NoField? {
      assert FieldsText(fs, depth, pretty, false) + tail == tail;
    } else {
      var members := MembersText(fs, depth, pretty, tail);
      FieldsSplit(fs, depth, pretty, false, tail);
      EolIsWs(pretty, depth);
      MoreMembersStep(Eol(pretty, depth) + members);
      AfterWs(Eol(pretty, depth), members);
      MembersRead(fs, depth, pretty, tail, rest);
    }
  }

  lemma {:induction false} ElementsRead(vs: Items, depth: nat, pretty: bool, tail: string, rest: string)
    requires vs.Item? && SkipWs(tail) == "]" + rest && Ends(tail)
    ensures ReadElements(Text(vs.value, depth, pretty) + (ItemsText(vs.more, depth, pretty, false) + tail))
            == AsRead(DecodedItems(vs), rest)
    decreases vs, 0
  {
    var after := ItemsText(vs.more, depth, pretty, false) + tail;
    MoreElementsEnd(vs.more, depth, pretty, tail);
    ValueRead(vs.value, depth, pretty, after);
    MoreElementsRead(vs.more, depth, pretty, tail, rest);
  }

  lemma {:induction false} MoreElementsRead(vs: Items, depth: nat, pretty: bool, tail: string, rest: string)
    requires SkipWs(tail) == "]" + rest && Ends(tail)
    ensures ReadMoreElements(ItemsText(vs, depth, pretty, false) + tail) == AsRead(DecodedItems(vs), rest)
    decreases vs, 1
  {
    if vs.NoItem? {
      assert ItemsText(vs, depth, pretty, false) + tail == tail;
    } else {
      ItemsSplit(vs, depth, pretty, false, tail);
      MoreMembersStep(Text(vs.value, depth, pretty) + (ItemsText(vs.more, depth, pretty, false) + tail));
      ElementsRead(vs, depth, pretty, tail, rest);
    }
  }

  // ----- documents -----

  /** A reader of a whole document gets the decoded members, or nothing if there are none. */
  lemma {:induction false} DocumentRead(fs: Fields, pretty: bool)
    ensures ReadText(Document(fs, pretty))
            == (match DecodedFields(fs) case None => Fail case Some(gs) => Got(Obj(gs), []))
  {
    if fs.NoField? {
      EmptyDocument(pretty);
    } else {
      DocumentMembers(fs, pretty);
    }
    assert SkipWs("\n") == [];
  }

  lemma EmptyDocument(pretty: bool)
    ensures ReadValue(Document(NoField, pretty)) == Got(Obj(NoField), "\n")
  {
    var tail := Eol(pretty, 0) + "}\n";
    assert "}" + "\n" == "}\n";
    Closing(pretty, 0, '}', "\n");
    assert Document(NoField, pretty) == "{" + tail;
    assert ("{" + tail)[1..] == tail;
  }

  lemma {:induction false} DocumentMembers(fs: Fields, pretty: bool)
    requires fs.Field?
    ensures ReadValue(Document(fs, pretty)) == AsRead(Decoded(Obj(fs)), "\n")
  {
    assert "}" + "\n" == "}\n";
    Closing(pretty, 0, '}', "\n");
    BracedRead(fs, 0, pretty, Eol(pretty, 0) + "}\n", "\n");
  }

  /** Strings the writer encodes rightly: no backslash, no apostrophe, and no control
      character but the five that have an escape. */
  predicate CleanString(s: string) {
    forall i :: 0 <= i < |s| ==> s[i] != '\\' && s[i] != '\'' && (s[i] < ' ' ==> HasEscape(s[i]))
  }

  predicate Clean(v: Json) {
    match v
    case Str(s) => CleanString(s)
    case Bool(_) => true
    case Num(_) => true
    case Obj(fs) => CleanFields(fs)
    case Arr(vs) => CleanItems(vs)
  }

  predicate CleanFields(fs: Fields) {
    fs.NoField? || (CleanString(fs.name) && Clean(fs.value) && CleanFields(fs.more))
  }

  predicate CleanItems(vs: Items) {
    vs.NoItem? || (Clean(vs.value) && CleanItems(vs.more))
  }

  lemma {:induction false} StringDecodes(s: string)
    ensures DecodedString(s) == Some(s) <==> CleanString(s)
  {
    if s != [] {
      StringDecodes(s[1..]);
      assert CleanString(s) <==> CleanString([s[0]]) && CleanString(s[1..]) by {
        assert s == [s[0]] + s[1..];
      }
      assert [s[0]] + s[1..] == s;
      if DecodedString(s).Some? {
        assert DecodedString(s).value[1..] == DecodedString(s[1..]).value;
      }
    }
  }

  lemma {:induction false} ValueDecodes(v: Json)
    ensures Decoded(v) == Some(v) <==> Clean(v)
  {
    match v
    case Str(s) => StringDecodes(s);
    case Bool(_) =>
    case Num(_) =>
    case Obj(fs) => FieldsDecode(fs);
    case Arr(vs) => ItemsDecode(vs);
  }

  lemma {:induction false} FieldsDecode(fs: Fields)
    ensures DecodedFields(fs) == Some(fs) <==> CleanFields(fs)
  {
    if fs.Field? {
      StringDecodes(fs.name);
      ValueDecodes(fs.value);
      FieldsDecode(fs.more);
    }
  }

  lemma {:induction false} ItemsDecode(vs: Items)
    ensures DecodedItems(vs) == Some(vs) <==> CleanItems(vs)
  {
    if vs.Item? {
      ValueDecodes(vs.value);
      ItemsDecode(vs.more);
    }
  }

  /** The document reads back as the tree it was written from exactly if all its strings are clean. */
  lemma RoundTrip(fs: Fields, pretty: bool)
    ensures ReadText(Document(fs, pretty)) == Got(Obj(fs), []) <==> CleanFields(fs)
  {
    DocumentRead(fs, pretty);
    FieldsDecode(fs);
  }

  // ----- pretty mode -----

  /** A text without the white space between its tokens. */
  function Squeezed(s: string, inString: bool): string {
    if s == [] then []
    else if inString then
      if s[0] == '\\' && |s| > 1 then s[..2] + Squeezed(s[2..], true)
      else [s[0]] + Squeezed(s[1..], s[0] != '"')
    else if IsWs(s[0]) then Squeezed(s[1..], false)
    else [s[0]] + Squeezed(s[1..], s[0] == '"')
  }

  lemma {:induction false} SqueezedWs(w: string, rest: string)
    requires AllWs(w)
    ensures Squeezed(w + rest, false) == Squeezed(rest, false)
  {
    if w == [] {
      assert w + rest == rest;
    } else {
      assert (w + rest)[1..] == w[1..] + rest;
      SqueezedWs(w[1..], rest);
    }
  }

  /** Neither white space nor a quote. */
  predicate Plain(s: string) {
    forall i :: 0 <= i < |s| ==> !IsWs(s[i]) && s[i] != '"'
  }

  lemma {:induction false} SqueezedPlain(s: string, rest: string)
    requires Plain(s)
    ensures Squeezed(s + rest, false) == s + Squeezed(rest, false)
  {
    if s == [] {
      assert s + rest == rest;
    } else {
      assert (s + rest)[1..] == s[1..] + rest;
      SqueezedPlain(s[1..], rest);
      assert s == [s[0]] + s[1..];
      Assoc([s[0]], s[1..], Squeezed(rest, false));
    }
  }

  lemma SqueezedChar(c: char, tail: string)
    ensures Squeezed(Escape(c) + tail, true) == Escape(c) + Squeezed(tail, true)
  {
    var e := Escape(c);
    if |e| == 2 {
      assert (e + tail)[..2] == e && (e + tail)[2..] == tail;
    } else {
      assert (e + tail)[1..] == tail;
    }
  }

  lemma {:induction false} SqueezedChars(s: string, rest: string)
    ensures Squeezed(Escaped(s) + ("\"" + rest), true) == Escaped(s) + ("\"" + Squeezed(rest, false))
  {
    var q := "\"" + rest;
    if s == [] {
      assert Escaped(s) + q == q && q[1..] == rest;
    } else {
      SqueezedChars(s[1..], rest);
      SqueezedChar(s[0], Escaped(s[1..]) + q);
      Assoc(Escape(s[0]), Escaped(s[1..]), q);
      Assoc(Escape(s[0]), Escaped(s[1..]), "\"" + Squeezed(rest, false));
    }
  }

  lemma SqueezedOpen(x: string)
    ensures Squeezed("\"" + x, false) == "\"" + Squeezed(x, true)
  {
    assert ("\"" + x)[1..] == x;
  }

  lemma SqueezedQuoted(s: string, rest: string)
    ensures Squeezed(Quoted(s) + rest, false) == Quoted(s) + Squeezed(rest, false)
  {
    SqueezedChars(s, rest);
    QuotedJoin(s, rest);
    QuotedJoin(s, Squeezed(rest, false));
    SqueezedOpen(Escaped(s) + ("\"" + rest));
  }

  /** Pretty mode changes nothing but the white space between tokens. */
  lemma {:induction false} SqueezedText(v: Json, depth: nat, pretty: bool, rest: string)
    ensures Squeezed(Text(v, depth, pretty) + rest, false) == Text(v, depth, false) + Squeezed(rest, false)
    decreases v, 1
  {
    match v
    case Str(s) => SqueezedQuoted(s, rest);
    case Bool(b) => SqueezedPlain(if b then "true" else "false", rest);
    case Num(n) =>
      DigitsValue(if n < 0 then -n else n);
      SqueezedPlain(Signed(n), rest);
    case Obj(fs) =>
      if fs.NoField? {
        SqueezedPlain("{}", rest);
      } else {
        SqueezedBraces('{', '}', FieldsText(fs, depth + 1, pretty, true), pretty, depth, rest);
        SqueezedFields(fs, depth + 1, pretty, true, Eol(pretty, depth) + ("}" + rest));
        SqueezedBracesCompact('{', '}', FieldsText(fs, depth + 1, false, true), rest);
      }
    case Arr(vs) =>
      if vs.NoItem? {
        SqueezedPlain("[]", rest);
      } else {
        SqueezedBraces('[', ']', ItemsText(vs, depth + 1, pretty, true), pretty, depth, rest);
        SqueezedItems(vs, depth + 1, pretty, true, Eol(pretty, depth) + ("]" + rest));
        SqueezedBracesCompact('[', ']', ItemsText(vs, depth + 1, false, true), rest);
      }
  }

  lemma SqueezedBraces(open: char, close: char, body: string, pretty: bool, depth: nat, rest: string)
    requires open in {'{', '['} && close in {'}', ']'}
    ensures var tail := Eol(pretty, depth) + ([close] + rest);
            && [open] + (body + (Eol(pretty, depth) + [close])) + rest == [open] + (body + tail)
            && Squeezed([open] + (body + tail), false) == [open] + Squeezed(body + tail, false)
            && Squeezed(tail, false) == [close] + Squeezed(rest, false)
  {
    var e := Eol(pretty, depth);
    Assoc([open], body + (e + [close]), rest);
    Assoc(body, e + [close], rest);
    Assoc(e, [close], rest);
    SqueezedPlain([open], body + (e + ([close] + rest)));
    EolIsWs(pretty, depth);
    SqueezedWs(e, [close] + rest);
    SqueezedPlain([close], rest);
  }

  lemma SqueezedBracesCompact(open: char, close: char, body: string, rest: string)
    ensures [open] + (body + ([] + [close])) + Squeezed(rest, false) ==
            [open] + (body + ([close] + Squeezed(rest, false)))
  {
  }

  lemma {:induction false} SqueezedFields(fs: Fields, depth: nat, pretty: bool, first: bool, tail: string)
    ensures Squeezed(FieldsText(fs, depth, pretty, first) + tail, false)
            == FieldsText(fs, depth, false, first) + Squeezed(tail, false)
    decreases fs, 0
  {
    if fs.NoField? {
      assert FieldsText(fs, depth, pretty, first) + tail == tail;
    } else {
      var w := if pretty then " " else "";
      var after := FieldsText(fs.more, depth, pretty, false) + tail;
      var text := Text(fs.value, depth, pretty) + after;
      FieldsSplit(fs, depth, pretty, first, tail);
      FieldsSplit(fs, depth, false, first, Squeezed(tail, false));
      SqueezedPlain(Comma(first), Eol(pretty, depth) + MembersText(fs, depth, pretty, tail));
      EolIsWs(pretty, depth);
      SqueezedWs(Eol(pretty, depth), MembersText(fs, depth, pretty, tail));
      SqueezedQuoted(fs.name, ":" + (w + text));
      SqueezedPlain(":", w + text);
      SqueezedWs(w, text);
      SqueezedText(fs.value, depth, pretty, after);
      SqueezedFields(fs.more, depth, pretty, false, tail);
      assert "" + (Text(fs.value, depth, false) + Squeezed(after, false)) ==
          Text(fs.value, depth, false) + Squeezed(after, false);
      assert Eol(false, depth) + MembersText(fs, depth, false, Squeezed(tail, false)) ==
          MembersText(fs, depth, false, Squeezed(tail, false));
    }
  }

  lemma {:induction false} SqueezedItems(vs: Items, depth: nat, pretty: bool, first: bool, tail: string)
    ensures Squeezed(ItemsText(vs, depth, pretty, first) + tail, false)
            == ItemsText(vs, depth, false, first) + Squeezed(tail, false)
    decreases vs, 0
  {
    if vs.NoItem? {
      assert ItemsText(vs, depth, pretty, first) + tail == tail;
    } else {
      var after := ItemsText(vs.more, depth, pretty, false) + tail;
      ItemsSplit(vs, depth, pretty, first, tail);
      ItemsSplit(vs, depth, false, first, Squeezed(tail, false));
      SqueezedPlain(Comma(first), Text(vs.value, depth, pretty) + after);
      SqueezedText(vs.value, depth, pretty, after);
      SqueezedItems(vs.more, depth, pretty, false, tail);
    }
  }

  lemma SqueezedDocument(fs: Fields, pretty: bool)
    ensures Squeezed(Document(fs, pretty), false) == "{" + (FieldsText(fs, 0, false, true) + "}")
  {
    var tail := Eol(pretty, 0) + "}\n";
    SqueezedPlain("{", FieldsText(fs, 0, pretty, true) + tail);
    SqueezedFields(fs, 0, pretty, true, tail);
    SqueezedTail(pretty);
  }

  lemma SqueezedTail(pretty: bool)
    ensures Squeezed(Eol(pretty, 0) + "}\n", false) == "}"
  {
    EolIsWs(pretty, 0);
    SqueezedWs(Eol(pretty, 0), "}\n");
    assert Squeezed("}\n", false) == "}";
  }

  /** Both modes have the same tokens. */
  lemma PrettyIsWhiteSpace(fs: Fields)
    ensures Squeezed(Document(fs, true), false) == Squeezed(Document(fs, false), false)
    ensures Document(fs, false) == Squeezed(Document(fs, true), false) + "\n"
  {
    SqueezedDocument(fs, true);
    SqueezedDocument(fs, false);
    assert [] + "}\n" == "}" + "\n";
    Assoc("{", FieldsText(fs, 0, false, true) + "}", "\n");
    Assoc(FieldsText(fs, 0, false, true), "}", "\n");
  }
}
