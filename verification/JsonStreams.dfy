/** The streaming writer: every call appends to the output and remembers only a nesting
    depth and a pending separator. Well-nested calls write the text of a tree. */
module JsonStreams {
  import opened Sequences
  import opened Options
  import opened Decimals
  import JsonLayout
  import opened JsonParser
  import opened JsonText
  import opened JsonRoundTrip

  type Int64 = n: int | -0x8000_0000_0000_0000 <= n < 0x8000_0000_0000_0000
  type Uint64 = n: int | 0 <= n < 0x1_0000_0000_0000_0000

  const NUL := '\0'

  /** The state of a writer; `sep` is a comma or nothing. */
  datatype Writer = Writer(out: string, depth: nat, pretty: bool, sep: char)

  datatype Call =
    | StartObject | EndObject | StartArray | EndArray
    | Name(name: string)
    | String(text: string) | Boolean(value: bool) | Int(i: Int64) | Uint(u: Uint64)

  function Sep(w: Writer): string {
    if w.sep != NUL then [w.sep] else []
  }

  function Put(w: Writer, text: string, sep: char): Writer {
    w.(out := w.out + text, sep := sep)
  }

  function Begin(w: Writer, c: char): Writer {
    Put(w, Sep(w) + [c], NUL).(depth := w.depth + 1)
  }

  /** Closing more than was opened trips an assertion. */
  function End(w: Writer, c: char): Option<Writer> {
    if w.depth == 0 then None
    else Some(Put(w, (if w.sep != NUL then Eol(w.pretty, w.depth - 1) else []) + [c], ',').(depth := w.depth - 1))
  }

  function Apply(w: Writer, c: Call): Option<Writer> {
    match c
    case StartObject => Some(Begin(w, '{'))
    case StartArray => Some(Begin(w, '['))
    case EndObject => End(w, '}')
    case EndArray => End(w, ']')
    case Name(n) =>
      Some(Put(w, Sep(w) + (Eol(w.pretty, w.depth) + (Quoted(n) + (":" + if w.pretty then " " else ""))), NUL))
    case String(s) => Some(Put(w, Sep(w) + Quoted(s), ','))
    case Boolean(b) => Some(Put(w, Sep(w) + (if b then "true" else "false"), ','))
    case Int(n) => Some(Put(w, Sep(w) + Signed(n), ','))
    case Uint(n) => Some(Put(w, Sep(w) + Digits(n), ','))
  }

  function Exec(w: Writer, calls: seq<Call>): Option<Writer>
    decreases |calls|
  {
    if calls == [] then Some(w)
    else match Apply(w, calls[0])
      case None => None
      case Some(w') => Exec(w', calls[1..])
  }

  // ----- trees as calls -----

  /** Every number has a 64-bit representation, signed or not. */
  predicate InRange(v: Json) {
    match v
    case Num(n) => -0x8000_0000_0000_0000 <= n < 0x1_0000_0000_0000_0000
    case Obj(fs) => FieldsInRange(fs)
    case Arr(vs) => ItemsInRange(vs)
    case _ => true
  }

  predicate FieldsInRange(fs: Fields) {
    fs.Field? ==> InRange(fs.value) && FieldsInRange(fs.more)
  }

  predicate ItemsInRange(vs: Items) {
    vs.Item? ==> InRange(vs.value) && ItemsInRange(vs.more)
  }

  function CallsOf(v: Json): seq<Call>
    requires InRange(v)
  {
    match v
    case Str(s) => [String(s)]
    case Bool(b) => [Boolean(b)]
    case Num(n) => if n < 0x8000_0000_0000_0000 then [Int(n)] else [Uint(n)]
    case Obj(fs) => [StartObject] + (CallsOfFields(fs) + [EndObject])
    case Arr(vs) => [StartArray] + (CallsOfItems(vs) + [EndArray])
  }

  function CallsOfFields(fs: Fields): seq<Call>
    requires FieldsInRange(fs)
  {
    if fs.NoField? then [] else [Name(fs.name)] + (CallsOf(fs.value) + CallsOfFields(fs.more))
  }

  function CallsOfItems(vs: Items): seq<Call>
    requires ItemsInRange(vs)
  {
    if vs.NoItem? then [] else CallsOf(vs.value) + CallsOfItems(vs.more)
  }

  lemma {:induction false} ExecConcat(w: Writer, a: seq<Call>, b: seq<Call>)
    ensures Exec(w, a + b) == (match Exec(w, a) case None => None case Some(w') => Exec(w', b))
    decreases |a|
  {
    if a == [] {
      assert a + b == b;
    } else {
      assert (a + b)[1..] == a[1..] + b;
      if Apply(w, a[0]).Some? { ExecConcat(Apply(w, a[0]).value, a[1..], b); }
    }
  }

  lemma ExecOne(w: Writer, c: Call, more: seq<Call>)
    ensures Exec(w, [c] + more) == (match Apply(w, c) case None => None case Some(w') => Exec(w', more))
  {
    assert ([c] + more)[1..] == more;
  }

  lemma ExecSingle(w: Writer, c: Call)
    ensures Exec(w, [c]) == Apply(w, c)
  {
    assert [c][1..] == [];
  }

  /** The calls for a value write its text, and leave a comma pending. */
  lemma {:induction false} ValueWritten(v: Json, w: Writer)
    requires InRange(v) && w.sep in {NUL, ','}
    ensures Exec(w, CallsOf(v)) == Some(Put(w, Sep(w) + Text(v, w.depth, w.pretty), ','))
    decreases v, 1
  {
    match v
    case Str(_) => LeafWritten(v, w);
    case Bool(_) => LeafWritten(v, w);
    case Num(_) => LeafWritten(v, w);
    case Obj(fs) => ObjectWritten(fs, w);
    case Arr(vs) => ArrayWritten(vs, w);
  }

  /** A call that writes `text` as a value. */
  lemma CallWritten(w: Writer, c: Call, text: string)
    requires Apply(w, c) == Some(Put(w, Sep(w) + text, ','))
    ensures Exec(w, [c]) == Some(Put(w, Sep(w) + text, ','))
  {
    ExecSingle(w, c);
  }

  lemma {:induction false} LeafWritten(v: Json, w: Writer)
    requires InRange(v) && (v.Str? || v.Bool? || v.Num?)
    ensures Exec(w, CallsOf(v)) == Some(Put(w, Sep(w) + Text(v, w.depth, w.pretty), ','))
  {
    match v
    case Str(s) => CallWritten(w, String(s), Quoted(s));
    case Bool(b) => CallWritten(w, Boolean(b), if b then "true" else "false");
    case Num(n) => NumberWritten(w, n);
  }

  lemma NumberWritten(w: Writer, n: int)
    requires InRange(Num(n))
    ensures Exec(w, CallsOf(Num(n))) == Some(Put(w, Sep(w) + Signed(n), ','))
  {
    if n < 0x8000_0000_0000_0000 {
      CallWritten(w, Int(n), Signed(n));
    } else {
      CallWritten(w, Uint(n), Digits(n));
    }
  }

  lemma {:induction false} ObjectWritten(fs: Fields, w: Writer)
    requires FieldsInRange(fs) && w.sep in {NUL, ','}
    ensures Exec(w, CallsOf(Obj(fs))) == Some(Put(w, Sep(w) + Text(Obj(fs), w.depth, w.pretty), ','))
    decreases fs, 3
  {
    if fs.NoField? {
      EmptyWritten(w, StartObject, EndObject, '{', '}');
      assert CallsOf(Obj(fs)) == [StartObject, EndObject];
    } else {
      FieldsWritten(fs, Begin(w, '{'));
      NestWritten(w, StartObject, EndObject, '{', '}', CallsOfFields(fs), FieldsText(fs, w.depth + 1, w.pretty, true));
    }
  }

  lemma {:induction false} ArrayWritten(vs: Items, w: Writer)
    requires ItemsInRange(vs) && w.sep in {NUL, ','}
    ensures Exec(w, CallsOf(Arr(vs))) == Some(Put(w, Sep(w) + Text(Arr(vs), w.depth, w.pretty), ','))
    decreases vs, 3
  {
    if vs.NoItem? {
      EmptyWritten(w, StartArray, EndArray, '[', ']');
      assert CallsOf(Arr(vs)) == [StartArray, EndArray];
    } else {
      ItemsWritten(vs, Begin(w, '['));
      NestWritten(w, StartArray, EndArray, '[', ']', CallsOfItems(vs), ItemsText(vs, w.depth + 1, w.pretty, true));
    }
  }

  /** Two calls that open and close a nesting. */
  predicate Nest(open: Call, close: Call, o: char, c: char) {
    (open == StartObject && close == EndObject && o == '{' && c == '}')
    || (open == StartArray && close == EndArray && o == '[' && c == ']')
  }

  lemma EmptyWritten(w: Writer, open: Call, close: Call, o: char, c: char)
    requires Nest(open, close, o, c)
    ensures Exec(w, [open, close]) == Some(Put(w, Sep(w) + [o, c], ','))
  {
    assert [open, close] == [open] + [close];
    ExecOne(w, open, [close]);
    ExecSingle(Begin(w, o), close);
    assert w.out + (Sep(w) + [o]) + ([] + [c]) == w.out + (Sep(w) + [o, c]);
  }

  lemma {:induction false} NestWritten(w: Writer, open: Call, close: Call, o: char, c: char, calls: seq<Call>,
                                       body: string)
    requires Nest(open, close, o, c)
    requires Exec(Begin(w, o), calls) == Some(Put(Begin(w, o), body, ','))
    ensures Exec(w, [open] + (calls + [close]))
            == Some(Put(w, Sep(w) + ([o] + (body + (Eol(w.pretty, w.depth) + [c]))), ','))
  {
    var b := Begin(w, o);
    var inner := Put(b, body, ',');
    ExecOne(w, open, calls + [close]);
    ExecConcat(b, calls, [close]);
    ExecSingle(inner, close);
    NestClosed(w, inner, o, c, body);
  }

  lemma NestClosed(w: Writer, inner: Writer, o: char, c: char, body: string)
    requires inner == Put(Begin(w, o), body, ',')
    ensures End(inner, c) == Some(Put(w, Sep(w) + ([o] + (body + (Eol(w.pretty, w.depth) + [c]))), ','))
  {
    NestJoin(w.out, Sep(w), [o], body, Eol(w.pretty, w.depth) + [c]);
  }

  lemma NestJoin(out: string, sep: string, o: string, body: string, e: string)
    ensures out + (sep + o) + body + e == out + (sep + (o + (body + e)))
  {
    Assoc(out, sep + o, body);
    Assoc(out, (sep + o) + body, e);
    Assoc(sep + o, body, e);
    Assoc(sep, o, body + e);
  }

  lemma {:induction false} FieldsWritten(fs: Fields, w: Writer)
    requires FieldsInRange(fs) && w.sep in {NUL, ','}
    ensures Exec(w, CallsOfFields(fs))
            == Some(Put(w, FieldsText(fs, w.depth, w.pretty, w.sep == NUL), if fs.NoField? then w.sep else ','))
    decreases fs, 0
  {
    if fs.NoField? {
      assert w.out + [] == w.out;
    } else {
      var space := if w.pretty then " " else "";
      var head := Sep(w) + (Eol(w.pretty, w.depth) + (Quoted(fs.name) + (":" + space)));
      var named := Put(w, head, NUL);
      ExecOne(w, Name(fs.name), CallsOf(fs.value) + CallsOfFields(fs.more));
      ValueWritten(fs.value, named);
      var text := Text(fs.value, w.depth, w.pretty);
      var valued := Put(named, Sep(named) + text, ',');
      ExecConcat(named, CallsOf(fs.value), CallsOfFields(fs.more));
      FieldsWritten(fs.more, valued);
      FieldTextJoin(Sep(w), Eol(w.pretty, w.depth), Quoted(fs.name), space, text,
                    FieldsText(fs.more, w.depth, w.pretty, false), w.out);
    }
  }

  lemma FieldTextJoin(sep: string, eol: string, name: string, space: string, text: string, more: string, out: string)
    ensures out + (sep + (eol + (name + (":" + space)))) + ([] + text) + more
            == out + (sep + (eol + (name + (":" + (space + (text + more))))))
  {
    var a := sep + (eol + (name + (":" + space)));
    Assoc(out, a, [] + text);
    Assoc(out, a + ([] + text), more);
    assert [] + text == text;
    Assoc(a, text, more);
    Assoc(sep, eol + (name + (":" + space)), text + more);
    Assoc(eol, name + (":" + space), text + more);
    Assoc(name, ":" + space, text + more);
    Assoc(":", space, text + more);
  }

  lemma {:induction false} ItemsWritten(vs: Items, w: Writer)
    requires ItemsInRange(vs) && w.sep in {NUL, ','}
    ensures Exec(w, CallsOfItems(vs))
            == Some(Put(w, ItemsText(vs, w.depth, w.pretty, w.sep == NUL), if vs.NoItem? then w.sep else ','))
    decreases vs, 0
  {
    if vs.NoItem? {
      assert w.out + [] == w.out;
    } else {
      var text, more := Text(vs.value, w.depth, w.pretty), ItemsText(vs.more, w.depth, w.pretty, false);
      var valued := Put(w, Sep(w) + text, ',');
      ValueWritten(vs.value, w);
      ExecConcat(w, CallsOf(vs.value), CallsOfItems(vs.more));
      ItemsWritten(vs.more, valued);
      Assoc(w.out, Sep(w) + text, more);
      Assoc(Sep(w), text, more);
    }
  }

  // ----- whole documents -----

  function New(pretty: bool): Writer {
    Writer("{", 0, pretty, NUL)
  }

  /** What is in the file once the writer has been destroyed. */
  function Closed(w: Writer): string {
    w.out + (Eol(w.pretty, w.depth) + "}\n")
  }

  /** Every tree written by well-nested calls on a new writer trips no assertion and leaves
      a text that reads back as the same tree, if and only if all its strings are clean;
      the two modes differ in white space between tokens only. */
  lemma WriterRoundTrip(fs: Fields, pretty: bool)
    requires FieldsInRange(fs)
    ensures Exec(New(pretty), CallsOfFields(fs)).Some?
    ensures var w := Exec(New(pretty), CallsOfFields(fs)).value;
            && w.depth == 0
            && Closed(w) == Document(fs, pretty)
            && (ReadText(Closed(w)) == Got(Obj(fs), []) <==> CleanFields(fs))
            && Squeezed(Closed(w), false) == Squeezed(Document(fs, false), false)
  {
    FieldsWritten(fs, New(pretty));
    RoundTrip(fs, pretty);
    PrettyIsWhiteSpace(fs);
    Assoc("{", FieldsText(fs, 0, pretty, true), Eol(pretty, 0) + "}\n");
  }

  // ----- the writer itself -----

  lemma NameJoin(out: string, sep: string, eol: string, name: string, space: string)
    ensures out + sep + eol + name + ":" + space == out + (sep + (eol + (name + (":" + space))))
  {
    Assoc(out + sep + eol + name, ":", space);
    Assoc(out + sep + eol, name, ":" + space);
    Assoc(out + sep, eol, name + (":" + space));
    Assoc(out, sep, eol + (name + (":" + space)));
  }

  /** C strings have no NUL inside. */
  predicate NulFree(c: Call) {
    match c
    case Name(name) => NUL !in name
    case String(text) => NUL !in text
    case _ => true
  }

  class JsonWriter {
    var out: string
    var depth: nat
    var pretty: bool
    var sep: char

    function View(): Writer
      reads this
    {
      Writer(out, depth, pretty, sep)
    }

    constructor ()
      ensures View() == New(false)
    {
      out, depth, pretty, sep := "{", 0, false, NUL;
    }

    method SetPretty(on: bool)
      modifies this`pretty
      ensures View() == old(View()).(pretty := on)
    {
      pretty := on;
    }

    method Indentation()
      modifies this`out
      ensures out == old(out) + Indent(depth + 1)
    {
      var i := 0;
      while i <= depth
        invariant i <= depth + 1
        invariant out == old(out) + Indent(i)
      {
        out := out + "    ";
        i := i + 1;
      }
    }

    method EndOfLine()
      modifies this`out
      ensures out == old(out) + Eol(pretty, depth)
    {
      if !pretty {
        return;
      }
      out := out + "\n";
      Indentation();
    }

    method Separate()
      modifies this`out, this`sep
      ensures out == old(out) + old(Sep(View())) && sep == ','
    {
      if sep != NUL {
        out := out + [sep];
      }
      sep := ',';
    }

    method PutString(str: string)
      requires NUL !in str
      modifies this`out
      ensures out == old(out) + Quoted(str)
    {
      out := out + "\"";
      var i := 0;
      while i < |str|
        invariant i <= |str|
        invariant out + Escaped(str[i..]) == old(out) + "\"" + Escaped(str)
      {
        assert str[i..][1..] == str[i + 1..];
        Assoc(out, Escape(str[i]), Escaped(str[i + 1..]));
        out := out + Escape(str[i]);
        i := i + 1;
      }
      assert out + [] == out;
      out := out + "\"";
      assert old(out) + "\"" + Escaped(str) + "\"" == old(out) + Quoted(str);
    }

    method BeginNest(c: char)
      modifies this
      ensures View() == Begin(old(View()), c)
    {
      Separate();
      out := out + [c];
      depth := depth + 1;
      sep := NUL;
    }

    method EndNest(c: char)
      requires depth > 0
      modifies this
      ensures Some(View()) == End(old(View()), c)
    {
      depth := depth - 1;
      ghost var eol := if sep != NUL then Eol(pretty, depth) else [];
      if sep != NUL {
        EndOfLine();
      }
      assert out == old(out) + eol;
      Assoc(old(out), eol, [c]);
      out := out + [c];
      sep := ',';
    }

    method StartObject()
      modifies this
      ensures Some(View()) == Apply(old(View()), Call.StartObject)
    {
      BeginNest('{');
    }

    method EndObject()
      requires depth > 0
      modifies this
      ensures Some(View()) == Apply(old(View()), Call.EndObject)
    {
      EndNest('}');
    }

    method StartArray()
      modifies this
      ensures Some(View()) == Apply(old(View()), Call.StartArray)
    {
      BeginNest('[');
    }

    method EndArray()
      requires depth > 0
      modifies this
      ensures Some(View()) == Apply(old(View()), Call.EndArray)
    {
      EndNest(']');
    }

    method Name(name: string)
      requires NUL !in name
      modifies this
      ensures Some(View()) == Apply(old(View()), Call.Name(name))
    {
      Separate();
      EndOfLine();
      sep := NUL;
      PutString(name);
      out := out + ":";
      if pretty {
        out := out + " ";
      } else {
        assert out == out + "";
      }
      NameJoin(old(out), old(Sep(View())), Eol(pretty, depth), Quoted(name), if pretty then " " else "");
    }

    method String(value: string)
      requires NUL !in value
      modifies this
      ensures Some(View()) == Apply(old(View()), Call.String(value))
    {
      Separate();
      Assoc(old(out), old(Sep(View())), Quoted(value));
      PutString(value);
    }

    method Boolean(value: bool)
      modifies this
      ensures Some(View()) == Apply(old(View()), Call.Boolean(value))
    {
      Separate();
      Assoc(old(out), old(Sep(View())), if value then "true" else "false");
      out := out + if value then "true" else "false";
    }

    method Int(num: Int64)
      modifies this
      ensures Some(View()) == Apply(old(View()), Call.Int(num))
    {
      Separate();
      Assoc(old(out), old(Sep(View())), Signed(num));
      out := out + Signed(num);
    }

    method Uint(num: Uint64)
      modifies this
      ensures Some(View()) == Apply(old(View()), Call.Uint(num))
    {
      Separate();
      Assoc(old(out), old(Sep(View())), Digits(num));
      out := out + Digits(num);
    }

    /** Leaves the finished text behind. */
    method Destroy() returns (text: string)
      requires depth == 0
      modifies this
      ensures text == Closed(old(View()))
    {
      EndOfLine();
      out := out + "}\n";
      text := out;
    }

    /** One call. `ok` says that it did not trip the assertion on the depth. */
    method Perform(c: Call) returns (ok: bool)
      requires NulFree(c)
      modifies this
      ensures if ok then Some(View()) == Apply(old(View()), c) else Apply(old(View()), c).None?
    {
      ok := true;
      match c {
        case StartObject => StartObject();
        case StartArray => StartArray();
        case EndObject => if depth == 0 { ok := false; } else { EndObject(); }
        case EndArray => if depth == 0 { ok := false; } else { EndArray(); }
        case Name(name) => Name(name);
        case String(text) => String(text);
        case Boolean(value) => Boolean(value);
        case Int(i) => Int(i);
        case Uint(u) => Uint(u);
      }
    }

    /** Any calls, one after the other, up to one that trips the assertion. */
    method Play(calls: seq<Call>) returns (ok: bool)
      requires forall c <- calls :: NulFree(c)
      modifies this
      ensures if ok then Some(View()) == Exec(old(View()), calls) else Exec(old(View()), calls).None?
    {
      for i := 0 to |calls|
        invariant Exec(View(), calls[i..]) == Exec(old(View()), calls)
      {
        assert calls[i..][1..] == calls[i + 1..] && calls[i] in calls;
        ok := Perform(calls[i]);
        if !ok {
          return;
        }
      }
      ok := true;
    }
  }

  /** Writes a tree with a new writer: the text reads back as the tree exactly if all its strings are clean. */
  method WriteTree(fs: Fields, pretty: bool) returns (text: string)
    requires FieldsInRange(fs) && forall c <- CallsOfFields(fs) :: NulFree(c)
    ensures text == Document(fs, pretty)
    ensures ReadText(text) == Got(Obj(fs), []) <==> CleanFields(fs)
    ensures pretty ==> JsonLayout.LaidOut(text, "", false)
  {
    JsonLayout.PrettyLaidOut(fs);
    var w := new JsonWriter();
    w.SetPretty(pretty);
    WriterRoundTrip(fs, pretty);
    var ok := w.Play(CallsOfFields(fs));
    text := w.Destroy();
  }
}
