/** The text form of a label stack: labels in decimal with slashes between them, printed
    into a buffer of fixed size. */
module MplsText {
  import opened Decimals
  import opened MplsLabels

  /** There is a bottom at place `k` or later, within the first eight. */
  predicate HasBottom(cells: seq<Cell>, k: nat) {
    exists i :: k <= i < |cells| && i < MAX_LABELS && cells[i].bottom
  }

  /** What a printer that stops at the bottom or after eight entries may read. */
  predicate Readable(cells: seq<Cell>, k: nat) {
    MAX_LABELS <= |cells| || HasBottom(cells, k)
  }

  lemma ReadOn(cells: seq<Cell>, k: nat)
    requires Readable(cells, k) && k < MAX_LABELS
    ensures k < |cells|
    ensures !cells[k].bottom ==> Readable(cells, k + 1) && (HasBottom(cells, k + 1) <==> HasBottom(cells, k))
  {
  }

  /** The labels from place `k` on; a stack without a bottom among its first eight entries
      comes out with a slash at the end. */
  function TextFrom(cells: seq<Cell>, k: nat): string
    requires Readable(cells, k)
    decreases MAX_LABELS - k, |cells|
  {
    if k >= MAX_LABELS then []
    else
      ReadOn(cells, k);
      Digits(cells[k].value) + if cells[k].bottom then [] else "/" + TextFrom(cells, k + 1)
  }

  lemma {:induction false} LabelDigits(l: nat)
    requires l < LABEL_LIMIT
    ensures 1 <= |Digits(l)| <= 7
  {
    assert Power10(7) == 10_000_000;
    DigitsLength(l, 7, Power10(7));
    DigitsValue(l);
  }

  predicate InRange(cells: seq<Cell>) {
    forall i :: 0 <= i < |cells| ==> cells[i].value < LABEL_LIMIT
  }

  /** What the text takes up: a NUL follows it if the printer got to the bottom. */
  function RoomFor(cells: seq<Cell>, k: nat): nat
    requires Readable(cells, k)
  {
    |TextFrom(cells, k)| + if HasBottom(cells, k) then 1 else 0
  }

  /** Room for eight characters a label is always enough. */
  lemma {:induction false} RoomBound(cells: seq<Cell>, k: nat)
    requires InRange(cells) && Readable(cells, k) && k <= MAX_LABELS
    ensures RoomFor(cells, k) <= 8 * (MAX_LABELS - k)
    decreases MAX_LABELS - k
  {
    if k < MAX_LABELS {
      ReadOn(cells, k);
      LabelDigits(cells[k].value);
      if !cells[k].bottom { RoomBound(cells, k + 1); }
    }
  }

  /** So sixty-four bytes are, whatever the stack. */
  lemma PrintSizeSuffices(stack: seq<Entry>)
    requires Readable(Cells(stack), 0)
    ensures RoomFor(Cells(stack), 0) <= PRINT_SIZE
  {
    RoomBound(Cells(stack), 0);
  }

  function Deepest(): seq<Entry> {
    Encode(seq(8, _ => 1048575))
  }

  lemma {:induction false} DeepestRoom(cells: seq<Cell>, k: nat)
    requires |cells| == MAX_LABELS && forall i :: 0 <= i < MAX_LABELS ==> cells[i] == Cell(1048575, i == 7)
    requires k < MAX_LABELS
    ensures RoomFor(cells, k) == 8 * (MAX_LABELS - k)
    decreases MAX_LABELS - k
  {
    assert cells[7].bottom;
    assert |Digits(1048575)| == 7;
    if k < 7 { DeepestRoom(cells, k + 1); }
  }

  /** And all of them are needed by eight labels of seven digits. */
  lemma PrintSizeTight()
    ensures Canonical(Deepest()) && Readable(Cells(Deepest()), 0) && RoomFor(Cells(Deepest()), 0) == PRINT_SIZE
  {
    EncodeCells(seq(8, _ => 1048575));
    DeepestRoom(Cells(Deepest()), 0);
  }

  /** The labels above the bottom, each with its slash. */
  function TextAbove(cells: seq<Cell>, k: nat): string
    requires Readable(cells, k)
    decreases MAX_LABELS - k, |cells|
  {
    if k >= MAX_LABELS then []
    else
      ReadOn(cells, k);
      if cells[k].bottom then [] else Digits(cells[k].value) + ("/" + TextAbove(cells, k + 1))
  }

  /** Writes as much of `s` as fits and a NUL after it; returns how much there was. */
  method Snprintf(buf: array<char>, dest: nat, destlen: nat, s: string) returns (len: nat)
    requires dest + destlen == buf.Length
    modifies buf
    ensures len == |s|
    ensures buf[..dest] == old(buf[..dest])
    ensures |s| < destlen ==> buf[dest..dest + |s|] == s && buf[dest + |s|] == '\0'
    ensures |s| >= destlen > 0 ==> buf[dest..] == s[..destlen - 1] + ['\0']
  {
    len := |s|;
    if destlen > 0 {
      var n := if len < destlen then len else destlen - 1;
      for i := 0 to n
        invariant buf[dest..dest + i] == s[..i]
        invariant buf[..dest] == old(buf[..dest])
      {
        buf[dest + i] := s[i];
      }
      buf[dest + n] := '\0';
    }
  }

  /** What a call comes to: the buffer, `NULL` for want of a bottom entry, or a write past the end of the buffer. */
  datatype Outcome = Printed | TooDeep | Overrun

  /** What printing one label does to the buffer, from place `at` on. */
  ghost predicate Wrote(before: seq<char>, content: seq<char>, at: nat, text: string, bottom: bool, dest: nat,
                        over: bool)
  {
    && at <= |before| == |content|
    && var room := |content| - at;
       && (over <==> !bottom && |text| > room)
       && (!over ==> dest <= |content|)
       && (|text| < room ==>
             && content[..dest] == before[..at] + (text + if bottom then [] else "/")
             && (bottom ==> dest < |content| && content[dest] == '\0'))
       && (|text| >= room > 0 ==> content == before[..at] + (text[..room - 1] + ['\0']))
       && (room == 0 ==> content == before[..at])
       && (|text| == room && !bottom ==> dest == |content|)
  }

  /** One label, and the slash behind it unless it is the bottom one. `over` says that the remaining length has wrapped
      around, so that the slash goes past the end. */
  method PrintLabel(buf: array<char>, dest: nat, destlen: nat, text: string, bottom: bool)
    returns (dest': nat, destlen': nat, over: bool)
    requires dest + destlen == buf.Length
    modifies buf
    ensures Wrote(old(buf[..]), buf[..], dest, text, bottom, dest', over)
    ensures dest' + destlen' == buf.Length
  {
    ghost var before := buf[..];
    assert before[..dest] == buf[..dest];
    var len := Snprintf(buf, dest, destlen, text);
    dest', destlen', over := dest, destlen, false;
    assert buf[..] == buf[..dest] + buf[dest..];
    if bottom {
      if |text| < destlen {
        dest', destlen' := dest + len, destlen - len;
        assert buf[..dest'] == buf[..dest] + buf[dest..dest'] == before[..dest] + (text + []);
      }
      return;
    }
    if len > destlen {
      over := true;
      return;
    }
    dest', destlen' := dest + len, destlen - len;
    if destlen' != 0 {
      assert buf[..dest'] == buf[..dest] + buf[dest..dest'];
      buf[dest'] := '/';
      dest' := dest' + 1;
      destlen' := destlen' - 1;
    }
  }

  /** What is in the buffer when the labels whose text is `done` have been printed: all of it, or, if it lacks one byte
      for the last slash, as much as fits with a NUL behind it. */
  ghost predicate Holds(content: seq<char>, done: string, dest: nat) {
    && dest <= |content|
    && (|| (dest == |done| && content[..dest] == done)
        || (dest == |content| > 0 && |content| + 1 == |done| && content == done[..|content| - 1] + ['\0']))
  }

  /** What is in the buffer at the end, if it is too short for the whole text: the first part of the text and a NUL, or,
      if the buffer ends behind the last slash, no NUL. */
  ghost predicate Truncated(content: seq<char>, above: string, text: string) {
    if |content| == |above| then content == above
    else 0 < |content| <= |text| && content == text[..|content| - 1] + ['\0']
  }

  lemma LastLabel(before: seq<char>, content: seq<char>, done: string, dest: nat, text: string)
    requires Holds(before, done, dest) && |before| == |content| && |content| - dest <= |text|
    requires |content| > dest ==> content == before[..dest] + (text[..|content| - dest - 1] + ['\0'])
    requires |content| == dest ==> content == before[..dest]
    ensures Truncated(content, done, done + text)
  {
    if |content| > dest {
      assert (done + text)[..|content| - 1] == done + text[..|content| - dest - 1];
      assert done + (text[..|content| - dest - 1] + ['\0']) == done + text[..|content| - dest - 1] + ['\0'];
    } else if |content| + 1 == |done| {
      assert (done + text)[..|content| - 1] == done[..|content| - 1];
    }
  }

  /** A label above the bottom that fills the rest of the buffer, and its slash that then is left out. */
  lemma ExactLabel(before: seq<char>, content: seq<char>, done: string, dest: nat, text: string)
    requires Holds(before, done, dest) && |before| == |content| && |content| - dest == |text| > 0
    requires content == before[..dest] + (text[..|text| - 1] + ['\0'])
    ensures Holds(content, done + (text + "/"), |content|)
  {
    var more := done + (text + "/");
    assert more[..|content| - 1] == done + text[..|text| - 1];
    assert done + (text[..|text| - 1] + ['\0']) == done + text[..|text| - 1] + ['\0'];
  }

  lemma BottomPrinted(before: seq<char>, content: seq<char>, done: string, at: nat, text: string, dest: nat)
    requires Holds(before, done, at) && |before| == |content|
    requires |text| < |content| - at ==>
               dest < |content| && content[..dest] == before[..at] + (text + []) && content[dest] == '\0'
    requires |text| >= |content| - at > 0 ==> content == before[..at] + (text[..|content| - at - 1] + ['\0'])
    requires |content| == at ==> content == before[..at]
    ensures |done| + |text| < |content| ==>
              content[..|done| + |text|] == done + text && content[|done| + |text|] == '\0'
    ensures |done| + |text| >= |content| ==> Truncated(content, done, done + text)
  {
    assert text + [] == text;
    if |text| >= |content| - at {
      LastLabel(before, content, done, at, text);
    }
  }

  lemma LabelPrinted(before: seq<char>, content: seq<char>, done: string, at: nat, text: string, dest: nat)
    requires Holds(before, done, at) && |before| == |content| && 0 < |text| <= |content| - at
    requires |text| < |content| - at ==> dest <= |content| && content[..dest] == before[..at] + (text + "/")
    requires |text| == |content| - at ==>
               dest == |content| && content == before[..at] + (text[..|content| - at - 1] + ['\0'])
    ensures Holds(content, done + (text + "/"), dest)
  {
    if |text| == |content| - at {
      ExactLabel(before, content, done, at, text);
    }
  }

  lemma PrintJoin(done: string, text: string, rest: string)
    ensures done + (text + ("/" + rest)) == done + (text + "/") + rest
  {
  }

  /** The printer has done the labels before place `count`, none of them the bottom. */
  ghost predicate Reached(cells: seq<Cell>, content: seq<char>, count: nat, done: string, dest: nat) {
    && Readable(cells, 0) && Readable(cells, count)
    && (HasBottom(cells, count) <==> HasBottom(cells, 0))
    && done + TextAbove(cells, count) == TextAbove(cells, 0)
    && done + TextFrom(cells, count) == TextFrom(cells, 0)
    && Holds(content, done, dest)
  }

  /**
   * What a print leaves in a buffer of any size. It writes past the end exactly if the buffer is more than one byte
   * short of the text above the bottom; otherwise it fails exactly if the bottom is not among the first eight entries,
   * and leaves the whole text if there is room for it, or its first part.
   */
  ghost predicate PrintedAs(cells: seq<Cell>, content: seq<char>, o: Outcome)
    requires Readable(cells, 0)
  {
    var above, text := TextAbove(cells, 0), TextFrom(cells, 0);
    && (o.Overrun? <==> |content| + 1 < |above|)
    && (!o.Overrun? ==> (o.Printed? <==> HasBottom(cells, 0)))
    && (RoomFor(cells, 0) <= |content| ==>
          !o.Overrun? && content[..|text|] == text && (o.Printed? ==> content[|text|] == '\0'))
    && (o.Printed? && RoomFor(cells, 0) > |content| ==> Truncated(content, above, text))
  }

  lemma AtBottom(cells: seq<Cell>, before: seq<char>, content: seq<char>, count: nat, done: string, at: nat, dest: nat)
    requires Reached(cells, before, count, done, at) && count < MAX_LABELS && count < |cells| && cells[count].bottom
    requires Wrote(before, content, at, Digits(cells[count].value), true, dest, false)
    ensures PrintedAs(cells, content, Printed)
  {
    BottomPrinted(before, content, done, at, Digits(cells[count].value), dest);
    assert TextAbove(cells, count) == [] && done + [] == done;
    assert Digits(cells[count].value) + [] == Digits(cells[count].value);
    assert HasBottom(cells, count);
  }

  lemma OverTheEnd(cells: seq<Cell>, before: seq<char>, content: seq<char>, count: nat, done: string, at: nat,
                   dest: nat)
    requires Reached(cells, before, count, done, at) && count < MAX_LABELS && count < |cells| && !cells[count].bottom
    requires Wrote(before, content, at, Digits(cells[count].value), false, dest, true)
    ensures PrintedAs(cells, content, Overrun)
  {
    ReadOn(cells, count);
    AboveIsPart(cells, 0);
  }

  lemma {:induction false} AboveIsPart(cells: seq<Cell>, k: nat)
    requires Readable(cells, k)
    ensures |TextAbove(cells, k)| <= |TextFrom(cells, k)|
    decreases MAX_LABELS - k
  {
    if k < MAX_LABELS {
      ReadOn(cells, k);
      if !cells[k].bottom {
        AboveIsPart(cells, k + 1);
      }
    }
  }

  lemma AfterLabel(cells: seq<Cell>, before: seq<char>, content: seq<char>, count: nat, done: string, at: nat,
                   dest: nat)
    requires Reached(cells, before, count, done, at) && count < MAX_LABELS && count < |cells| && !cells[count].bottom
    requires Digits(cells[count].value) != []
    requires Wrote(before, content, at, Digits(cells[count].value), false, dest, false)
    ensures Reached(cells, content, count + 1, done + (Digits(cells[count].value) + "/"), dest)
  {
    ReadOn(cells, count);
    LabelPrinted(before, content, done, at, Digits(cells[count].value), dest);
    PrintJoin(done, Digits(cells[count].value), TextAbove(cells, count + 1));
    PrintJoin(done, Digits(cells[count].value), TextFrom(cells, count + 1));
  }

  lemma WithoutBottom(cells: seq<Cell>, content: seq<char>, done: string, dest: nat)
    requires Reached(cells, content, MAX_LABELS, done, dest)
    ensures PrintedAs(cells, content, TooDeep)
  {
    assert done + [] == done;
  }

  method Print(stack: seq<Entry>, buf: array<char>) returns (o: Outcome)
    requires Readable(Cells(stack), 0)
    modifies buf
    ensures PrintedAs(Cells(stack), buf[..], o)
  {
    ghost var cells := Cells(stack);
    ghost var done: string := [];
    var destlen: nat, dest: nat := buf.Length, 0;
    var count := 0;
    while count < MAX_LABELS
      invariant count <= MAX_LABELS && dest + destlen == buf.Length && Reached(cells, buf[..], count, done, dest)
    {
      ReadOn(cells, count);
      var text, bottom := Digits(Label(stack[count])), IsBottom(stack[count]);
      LabelDigits(Label(stack[count]));
      ghost var before, at := buf[..], dest;
      var over;
      dest, destlen, over := PrintLabel(buf, dest, destlen, text, bottom);
      if bottom {
        AtBottom(cells, before, buf[..], count, done, at, dest);
        return Printed;
      }
      if over {
        OverTheEnd(cells, before, buf[..], count, done, at, dest);
        return Overrun;
      }
      AfterLabel(cells, before, buf[..], count, done, at, dest);
      done := done + (text + "/");
      count := count + 1;
    }
    WithoutBottom(cells, buf[..], done, dest);
    o := TooDeep;
  }
}
