/** The text the streaming writer produces for a tree, and what a reader makes of it. */
module JsonText {
  import opened Options
  import opened Decimals
  import opened JsonParser

  // ----- what is written -----

  /** A character inside a string. The backslash comes out as an escaped newline, and the
      apostrophe with a backslash that JSON does not allow. */
  function Escape(c: char): string {
    if c == '\t' then "\\t"
    else if c == '\n' then "\\n"
    else if c == '\r' then "\\r"
    else if c == 12 as char then "\\f"
    else if c == 8 as char then "\\b"
    else if c == '\\' then "\\n"
    else if c == '"' then "\\\""
    else if c == '\'' then "\\'"
    else [c]
  }

  function Escaped(s: string): string {
    if s == [] then [] else Escape(s[0]) + Escaped(s[1..])
  }

  function Quoted(s: string): string {
    "\"" + Escaped(s) + "\""
  }

  function Indent(n: nat): string {
    if n == 0 then [] else Indent(n - 1) + "    "
  }

  /** A new line and its indentation, in pretty mode only. */
  function Eol(pretty: bool, depth: nat): string {
    if pretty then "\n" + Indent(depth + 1) else []
  }

  function Comma(first: bool): string {
    if first then [] else ","
  }

  function Text(v: Json, depth: nat, pretty: bool): string {
    match v
    case Str(s) => Quoted(s)
    case Bool(b) => if b then "true" else "false"
    case Num(n) => Signed(n)
    case Obj(fs) =>
      if fs.NoField? then "{}" else "{" + (FieldsText(fs, depth + 1, pretty, true) + (Eol(pretty, depth) + "}"))
    case Arr(vs) =>
      if vs.NoItem? then "[]" else "[" + (ItemsText(vs, depth + 1, pretty, true) + (Eol(pretty, depth) + "]"))
  }

  function FieldsText(fs: Fields, depth: nat, pretty: bool, first: bool): string {
    if fs.NoField? then []
    else
      Comma(first) + (Eol(pretty, depth) + (Quoted(fs.name) + (":" + ((if pretty then " " else "")
      + (Text(fs.value, depth, pretty) + FieldsText(fs.more, depth, pretty, false))))))
  }

  function ItemsText(vs: Items, depth: nat, pretty: bool, first: bool): string {
    if vs.NoItem? then []
    else Comma(first) + (Text(vs.value, depth, pretty) + ItemsText(vs.more, depth, pretty, false))
  }

  /** A whole document: the writer opens and closes the outermost object itself. */
  function Document(fs: Fields, pretty: bool): string {
    "{" + (FieldsText(fs, 0, pretty, true) + (Eol(pretty, 0) + "}\n"))
  }

  // ----- what a reader finds there -----

  /** The control characters that have an escape. */
  predicate HasEscape(c: char) {
    c == '\t' || c == '\n' || c == '\r' || c == 12 as char || c == 8 as char
  }

  function DecodedChar(c: char): Option<char> {
    if c == '\\' then Some('\n')
    else if c == '\'' || (c < ' ' && !HasEscape(c)) then None
    else Some(c)
  }

  function DecodedString(s: string): Option<string> {
    if s == [] then Some([])
    else match DecodedChar(s[0])
      case None => None
      case Some(c) => (match DecodedString(s[1..]) case None => None case Some(t) => Some([c] + t))
  }

  /** The value a reader gets for `v`, if it gets any. */
  function Decoded(v: Json): Option<Json> {
    match v
    case Str(s) => (match DecodedString(s) case None => None case Some(t) => Some(Str(t)))
    case Bool(_) => Some(v)
    case Num(_) => Some(v)
    case Obj(fs) => (match DecodedFields(fs) case None => None case Some(gs) => Some(Obj(gs)))
    case Arr(vs) => (match DecodedItems(vs) case None => None case Some(ws) => Some(Arr(ws)))
  }

  function DecodedFields(fs: Fields): Option<Fields> {
    match fs
    case NoField => Some(NoField)
    case Field(name, v, more) =>
      if DecodedString(name).None? || Decoded(v).None? || DecodedFields(more).None? then None
      else Some(Field(DecodedString(name).value, Decoded(v).value, DecodedFields(more).value))
  }

  function DecodedItems(vs: Items): Option<Items> {
    match vs
    case NoItem => Some(NoItem)
    case Item(v, more) =>
      if Decoded(v).None? || DecodedItems(more).None? then None
      else Some(Item(Decoded(v).value, DecodedItems(more).value))
  }

  function AsRead<T>(o: Option<T>, rest: string): Read<T> {
    match o case None => Fail case Some(x) => Got(x, rest)
  }

  // ----- strings -----

  /** What reading on from one written character gives. */
  function Prefixed(o: Option<char>, r: Read<string>): Read<string> {
    if o.None? || r.Fail? then Fail else Got([o.value] + r.value, r.rest)
  }

  lemma EscapeRead(e: char, tail: string)
    requires e in {'"', 'n', 't', 'r', 'f', 'b', '\''}
    ensures ReadChars(['\\', e] + tail)
            == (match ReadEscape([e] + tail) case Fail => Fail case Got(c, rest) => Prefixed(Some(c), ReadChars(rest)))
    ensures ReadEscape([e] + tail) == match e
      case '"' => Got('"', tail)
      case 'n' => Got('\n', tail)
      case 't' => Got('\t', tail)
      case 'r' => Got('\r', tail)
      case 'f' => Got(12 as char, tail)
      case 'b' => Got(8 as char, tail)
      case _ => Fail
  {
    assert (['\\', e] + tail)[1..] == [e] + tail;
    assert ([e] + tail)[1..] == tail;
  }

  lemma CharRead(c: char, tail: string)
    ensures ReadChars(Escape(c) + tail) == Prefixed(DecodedChar(c), ReadChars(tail))
  {
    if |Escape(c)| == 1 {
      assert ([c] + tail)[1..] == tail;
    } else {
      var e := Escape(c)[1];
      assert Escape(c) == ['\\', e];
      EscapeRead(e, tail);
    }
  }

  lemma {:induction false} CharsRead(s: string, rest: string)
    ensures ReadChars(Escaped(s) + ("\"" + rest)) == AsRead(DecodedString(s), rest)
  {
    var q := "\"" + rest;
    if s == [] {
      assert Escaped(s) + q == q && q[1..] == rest;
    } else {
      CharsRead(s[1..], rest);
      assert Escaped(s) + q == Escape(s[0]) + (Escaped(s[1..]) + q);
      CharRead(s[0], Escaped(s[1..]) + q);
    }
  }
}
