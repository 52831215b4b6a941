/** JSON values, and a reader of JSON text after RFC 8259: objects (section 4), arrays
    (section 5), integers (section 6), strings (section 7). */
module JsonParser {
  import opened Decimals

  datatype Json =
    | Obj(fields: Fields)
    | Arr(items: Items)
    | Str(text: string)
    | Bool(value: bool)
    | Num(number: int)

  /** Members in order; names need not differ. */
  datatype Fields = NoField | Field(name: string, value: Json, more: Fields)

  datatype Items = NoItem | Item(value: Json, more: Items)

  /** What has been read off the front of a text, and what is left of it. */
  datatype Read<+T> = Fail | Got(value: T, rest: string)

  predicate IsWs(c: char) { c == ' ' || c == '\t' || c == '\n' || c == '\r' }

  function SkipWs(s: string): (r: string)
    ensures |r| <= |s|
    ensures r != [] ==> !IsWs(r[0])
  {
    if s != [] && IsWs(s[0]) then SkipWs(s[1..]) else s
  }

  predicate Starts(s: string, c: char) { s != [] && s[0] == c }

  /** One escape sequence, after its backslash. */
  function ReadEscape(s: string): (r: Read<char>)
    ensures r.Got? ==> |r.rest| < |s|
  {
    if s == [] then Fail
    else match s[0]
      case '"' => Got('"', s[1..])
      case '\\' => Got('\\', s[1..])
      case '/' => Got('/', s[1..])
      case 'b' => Got(8 as char, s[1..])
      case 'f' => Got(12 as char, s[1..])
      case 'n' => Got('\n', s[1..])
      case 'r' => Got('\r', s[1..])
      case 't' => Got('\t', s[1..])
      case 'u' => ReadHex4(s[1..])
      case _ => Fail
  }

  function HexValue(c: char): (v: int)
    ensures -1 <= v < 16
  {
    if '0' <= c <= '9' then c as int - '0' as int
    else if 'a' <= c <= 'f' then c as int - 'a' as int + 10
    else if 'A' <= c <= 'F' then c as int - 'A' as int + 10
    else -1
  }

  /** Four hexadecimal digits that name a character by themselves. */
  function ReadHex4(s: string): (r: Read<char>)
    ensures r.Got? ==> |r.rest| < |s|
  {
    if |s| < 4 || HexValue(s[0]) < 0 || HexValue(s[1]) < 0 || HexValue(s[2]) < 0 || HexValue(s[3]) < 0 then Fail
    else
      var code := ((HexValue(s[0]) * 16 + HexValue(s[1])) * 16 + HexValue(s[2])) * 16 + HexValue(s[3]);
      if 0xD800 <= code < 0xE000 then Fail else Got(code as char, s[4..])
  }

  /** The rest of a string, after its opening quote. */
  function ReadChars(s: string): (r: Read<string>)
    ensures r.Got? ==> |r.rest| < |s|
  {
    if s == [] then Fail
    else if s[0] == '"' then Got([], s[1..])
    else if s[0] == '\\' then
      match ReadEscape(s[1..])
      case Fail => Fail
      case Got(c, rest) =>
        (match ReadChars(rest)
         case Fail => Fail
         case Got(t, rest') => Got([c] + t, rest'))
    else if s[0] < ' ' then Fail
    else
      match ReadChars(s[1..])
      case Fail => Fail
      case Got(t, rest) => Got([s[0]] + t, rest)
  }

  /** An integer: no leading zeros, no fraction, no exponent. */
  function ReadNat(s: string): (r: Read<int>)
    ensures r.Got? ==> |r.rest| < |s|
  {
    var n := DigitCount(s);
    if n == 0 || (s[0] == '0' && n > 1) then Fail else Got(Value(s[..n]), s[n..])
  }

  function ReadNumber(s: string): (r: Read<Json>)
    ensures r.Got? ==> |r.rest| < |s|
  {
    if Starts(s, '-') then
      match ReadNat(s[1..]) case Fail => Fail case Got(n, rest) => Got(Num(0 - n), rest)
    else
      match ReadNat(s) case Fail => Fail case Got(n, rest) => Got(Num(n), rest)
  }

  function ReadLiteral(s: string, word: string, v: Json): (r: Read<Json>)
    requires word != []
    ensures r.Got? ==> |r.rest| < |s|
  {
    if word <= s then Got(v, s[|word|..]) else Fail
  }

  /** A value, with white space before it. */
  function ReadValue(s: string): (r: Read<Json>)
    ensures r.Got? ==> |r.rest| < |s|
    decreases |s|, 1
  {
    var t := SkipWs(s);
    if t == [] then Fail
    else if t[0] == '{' then
      var u := SkipWs(t[1..]);
      if Starts(u, '}') then Got(Obj(NoField), u[1..])
      else match ReadMembers(u) case Fail => Fail case Got(fs, rest) => Got(Obj(fs), rest)
    else if t[0] == '[' then
      var u := SkipWs(t[1..]);
      if Starts(u, ']') then Got(Arr(NoItem), u[1..])
      else match ReadElements(u) case Fail => Fail case Got(vs, rest) => Got(Arr(vs), rest)
    else if t[0] == '"' then
      match ReadChars(t[1..]) case Fail => Fail case Got(x, rest) => Got(Str(x), rest)
    else if t[0] == 't' then ReadLiteral(t, "true", Bool(true))
    else if t[0] == 'f' then ReadLiteral(t, "false", Bool(false))
    else ReadNumber(t)
  }

  /** One member or more, through the closing brace. */
  function ReadMembers(s: string): (r: Read<Fields>)
    ensures r.Got? ==> |r.rest| < |s|
    decreases |s|, 0
  {
    var t := SkipWs(s);
    if !Starts(t, '"') then Fail
    else match ReadChars(t[1..])
      case Fail => Fail
      case Got(name, u) =>
        var w := SkipWs(u);
        if !Starts(w, ':') then Fail
        else match ReadValue(w[1..])
          case Fail => Fail
          case Got(v, x) =>
            match ReadMoreMembers(x)
            case Fail => Fail
            case Got(more, rest) => Got(Field(name, v, more), rest)
  }

  /** What may follow a member: the closing brace, or a comma and more members. */
  function ReadMoreMembers(s: string): (r: Read<Fields>)
    ensures r.Got? ==> |r.rest| < |s|
    decreases |s|, 0
  {
    var t := SkipWs(s);
    if Starts(t, '}') then Got(NoField, t[1..])
    else if Starts(t, ',') then ReadMembers(t[1..])
    else Fail
  }

  /** One element or more, through the closing bracket. */
  function ReadElements(s: string): (r: Read<Items>)
    ensures r.Got? ==> |r.rest| < |s|
    decreases |s|, 2
  {
    match ReadValue(s)
    case Fail => Fail
    case Got(v, x) =>
      match ReadMoreElements(x)
      case Fail => Fail
      case Got(more, rest) => Got(Item(v, more), rest)
  }

  /** What may follow an element: the closing bracket, or a comma and more elements. */
  function ReadMoreElements(s: string): (r: Read<Items>)
    ensures r.Got? ==> |r.rest| < |s|
    decreases |s|, 0
  {
    var t := SkipWs(s);
    if Starts(t, ']') then Got(NoItem, t[1..])
    else if Starts(t, ',') then ReadElements(t[1..])
    else Fail
  }

  /** A whole text: one value and nothing but white space after it. */
  function ReadText(s: string): (r: Read<Json>) {
    match ReadValue(s)
    case Fail => Fail
    case Got(v, rest) => if SkipWs(rest) == [] then Got(v, []) else Fail
  }
}
