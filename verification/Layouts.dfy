/** The layout of policy and header files: blank lines, comments and the white space around a line do not matter, but
    for what a comment in a header announces. */
module Layouts {
  import opened InlineStatements
  import opened JavaStrings
  import opened Options
  import opened Policies
  import opened PolicyText
  import opened Routines

  predicate Blank(s: string) {
    forall c <- s :: c <= ' '
  }

  /** Two slashes come first. */
  predicate IsComment(line: string) {
    exists i | 0 <= i <= |line| :: Blank(line[..i]) && "//" <= line[i..]
  }

  /** The line is the text with white space around it. */
  predicate Padded(line: string, text: string) {
    exists i | 0 <= i <= |line| - |text| ::
      Blank(line[..i]) && line[i..i + |text|] == text && Blank(line[i + |text|..])
  }

  // Trimming.

  lemma {:induction false} FrontTrimmed(s: string, i: nat)
    requires i <= |s| && Blank(s[..i]) && (i == |s| || s[i] > ' ')
    ensures TrimFront(s) == s[i..]
  {
    if i > 0 {
      assert s[0] == s[..i][0] && s[..i][0] in s[..i];
      assert s[1..][..i - 1] == s[..i][1..];
      assert forall c <- s[..i][1..] :: c in s[..i];
      FrontTrimmed(s[1..], i - 1);
      assert s[1..][i - 1..] == s[i..];
    }
  }

  lemma {:induction false} BackTrimmed(s: string, i: nat)
    requires i <= |s| && Blank(s[i..]) && (i == 0 || s[i - 1] > ' ')
    ensures TrimBack(s) == s[..i]
  {
    if i < |s| {
      var t := s[..|s| - 1];
      assert s[|s| - 1] == s[i..][|s| - 1 - i] && s[i..][|s| - 1 - i] in s[i..];
      forall c | c in t[i..] ensures c <= ' ' {
        assert c in s[i..];
      }
      BackTrimmed(t, i);
      assert t[..i] == s[..i];
    } else {
      assert s[..i] == s;
    }
  }

  lemma PaddedTrim(line: string, text: string)
    requires Padded(line, text) && Visible(text)
    ensures Trim(line) == text
  {
    var i :| 0 <= i <= |line| - |text| &&
      Blank(line[..i]) && line[i..i + |text|] == text && Blank(line[i + |text|..]);
    assert line[i] == text[0] && line[i + |text| - 1] == text[|text| - 1];
    FrontTrimmed(line, i);
    assert line[i..][|text|..] == line[i + |text|..];
    BackTrimmed(line[i..], |text|);
    assert line[i..][..|text|] == text;
  }

  lemma BlankTrim(line: string)
    ensures Blank(line) <==> Trim(line) == []
  {
    if Blank(line) {
      assert line[..|line|] == line;
      FrontTrimmed(line, |line|);
    } else {
      var i := FirstVisible(line);
      FrontTrimmed(line, i);
      var s := line[i..];
      assert s[0] > ' ';
      KeepsFront(s);
    }
  }

  lemma {:induction false} FirstVisible(s: string) returns (i: nat)
    requires !Blank(s)
    ensures i < |s| && Blank(s[..i]) && s[i] > ' '
  {
    if s[0] > ' ' {
      i := 0;
    } else {
      if Blank(s[1..]) {
        assert forall c <- s :: c == s[0] || c in s[1..];
      }
      var j := FirstVisible(s[1..]);
      i := j + 1;
      assert forall c <- s[..i] :: c == s[0] || c in s[1..][..j];
    }
  }

  lemma {:induction false} KeepsFront(s: string)
    requires s != [] && s[0] > ' '
    ensures TrimBack(s) != [] && TrimBack(s)[0] == s[0] && TrimBack(s) <= s
    ensures |s| > 1 && s[1] > ' ' ==> |TrimBack(s)| > 1
  {
    if s[|s| - 1] <= ' ' {
      KeepsFront(s[..|s| - 1]);
    }
  }

  lemma CommentTrim(line: string)
    ensures IsComment(line) <==> StartsWith(Trim(line), "//")
  {
    if IsComment(line) {
      var i :| 0 <= i <= |line| && Blank(line[..i]) && "//" <= line[i..];
      assert line[i] == line[i..][0] == '/' && line[i..][1] == '/';
      FrontTrimmed(line, i);
      KeepsFront(line[i..]);
    }
    if StartsWith(Trim(line), "//") {
      BlankTrim(line);
      var i := FirstVisible(line);
      FrontTrimmed(line, i);
      KeepsFront(line[i..]);
      assert "//" <= line[i..];
    }
  }

  // Policy files.

  lemma IdleRead(parse: ParseDouble, files: Files, p: Policy, w: string)
    requires Blank(w) || IsComment(w)
    ensures ReadLine(parse, files, p, w) == Step(Go, p)
  {
    BlankTrim(w);
    CommentTrim(w);
  }

  lemma {:induction false} ReadOn(parse: ParseDouble, files: Files, s: Step, a: seq<string>, b: seq<string>)
    ensures ReadLines(parse, files, s, a + b) == ReadLines(parse, files, ReadLines(parse, files, s, a), b)
    decreases |a|
  {
    if a == [] {
      assert a + b == b;
    } else if s.verdict.Go? {
      assert (a + b)[1..] == a[1..] + b;
      ReadOn(parse, files, ReadLine(parse, files, s.policy, a[0]), a[1..], b);
    }
  }

  /** A blank line or a comment can be put in anywhere, and makes no difference. */
  lemma IdleLine(parse: ParseDouble, files: Files, s: Step, lines: seq<string>, i: nat, w: string)
    requires i <= |lines| && (Blank(w) || IsComment(w))
    ensures ReadLines(parse, files, s, lines[..i] + [w] + lines[i..]) == ReadLines(parse, files, s, lines)
  {
    var t := ReadLines(parse, files, s, lines[..i]);
    ReadOn(parse, files, s, lines[..i] + [w], lines[i..]);
    ReadOn(parse, files, s, lines[..i], [w]);
    ReadOn(parse, files, s, lines[..i], lines[i..]);
    assert lines[..i] + lines[i..] == lines;
    IdleRead(parse, files, t.policy, w);
  }

  /** The first line that is not accepted ends the file with its own verdict. */
  lemma FirstBadLine(parse: ParseDouble, files: Files, p: Policy, a: seq<string>, bad: string, b: seq<string>)
    requires ReadLines(parse, files, Step(Go, p), a).verdict.Go?
    requires !ReadLine(parse, files, ReadLines(parse, files, Step(Go, p), a).policy, bad).verdict.Go?
    ensures ReadLines(parse, files, Step(Go, p), a + [bad] + b) ==
            ReadLine(parse, files, ReadLines(parse, files, Step(Go, p), a).policy, bad)
  {
    ReadOn(parse, files, Step(Go, p), a + [bad], b);
    ReadOn(parse, files, Step(Go, p), a, [bad]);
  }

  /** The lines are the texts, each with white space around it, and blank lines and comments between them. */
  predicate Laid(lines: seq<string>, texts: seq<string>) {
    if lines == [] then texts == []
    else
      || ((Blank(lines[0]) || IsComment(lines[0])) && Laid(lines[1..], texts))
      || (texts != [] && Padded(lines[0], texts[0]) && Laid(lines[1..], texts[1..]))
  }

  lemma PaddedRead(parse: ParseDouble, files: Files, p: Policy, line: string, text: string)
    requires Padded(line, text) && Visible(text)
    ensures ReadLine(parse, files, p, line) == ReadLine(parse, files, p, text)
  {
    PaddedTrim(line, text);
    TrimAround(text);
  }

  lemma {:induction false} LaidRead(parse: ParseDouble, files: Files, s: Step, lines: seq<string>, texts: seq<string>)
    requires Laid(lines, texts) && forall t <- texts :: Visible(t)
    ensures ReadLines(parse, files, s, lines) == ReadLines(parse, files, s, texts)
    decreases |lines|
  {
    if lines != [] && s.verdict.Go? {
      if (Blank(lines[0]) || IsComment(lines[0])) && Laid(lines[1..], texts) {
        IdleRead(parse, files, s.policy, lines[0]);
        LaidRead(parse, files, s, lines[1..], texts);
      } else {
        PaddedRead(parse, files, s.policy, lines[0], texts[0]);
        LaidRead(parse, files, ReadLine(parse, files, s.policy, lines[0]), lines[1..], texts[1..]);
      }
    }
  }

  // Headers.

  lemma {:induction false} FoundBehind(s: string, p: string, b: char)
    requires p != [] && p[|p| - 1] > ' ' && b <= ' '
    ensures Contains(s + [b], p) <==> Contains(s, p)
  {
    if s == [] {
      assert ([] + [b])[1..] == [];
    } else {
      assert (s + [b])[1..] == s[1..] + [b];
      FoundBehind(s[1..], p, b);
      assert p <= s + [b] <==> p <= s;
    }
  }

  lemma {:induction false} FoundInFront(s: string, p: string)
    requires p != [] && p[0] > ' '
    ensures Contains(TrimFront(s), p) <==> Contains(s, p)
  {
    if s != [] && s[0] <= ' ' {
      FoundInFront(s[1..], p);
    }
  }

  lemma {:induction false} FoundInBack(s: string, p: string)
    requires p != [] && p[|p| - 1] > ' '
    ensures Contains(TrimBack(s), p) <==> Contains(s, p)
  {
    if s != [] && s[|s| - 1] <= ' ' {
      var t := s[..|s| - 1];
      FoundInBack(t, p);
      FoundBehind(t, p, s[|s| - 1]);
      assert s == t + [s[|s| - 1]];
    }
  }

  lemma TagTrimmed(line: string, t: RoutineType)
    ensures Contains(Trim(line), Tag(t)) <==> Contains(line, Tag(t))
  {
    FoundInFront(line, Tag(t));
    FoundInBack(TrimFront(line), Tag(t));
  }

  lemma AnnotationTrimmed(line: string)
    ensures Annotation(Trim(line)) == Annotation(line)
  {
    TagTrimmed(line, QueueSelector);
    TagTrimmed(line, CongestionCondition);
    TagTrimmed(line, CongestionAction);
    TagTrimmed(line, AdmissionPriority);
    TagTrimmed(line, ProcessingPriority);
    TagTrimmed(line, SchedulingPriority);
  }

  /** What the last line that is not blank announces for the next one, if it is a comment. */
  function Pending(lines: seq<string>): Option<RoutineType> {
    if lines == [] then None
    else
      var last := lines[|lines| - 1];
      if Blank(last) then Pending(lines[..|lines| - 1])
      else if IsComment(last) then Annotation(last)
      else None
  }

  lemma LineImported(s: Import, line: string)
    ensures Blank(line) ==> ImportLine(s, line) == s
    ensures IsComment(line) ==> ImportLine(s, line) == s.(next := Annotation(line))
    ensures !IsComment(line) && s.next.None? ==> ImportLine(s, line) == s
    ensures !Blank(line) && !IsComment(line) && ImportLine(s, line).ok ==> ImportLine(s, line).next.None?
    ensures IsComment(line) ==> !Blank(line)
    ensures s.ok && !ImportLine(s, line).ok ==> !Blank(line) && !IsComment(line) && s.next.Some?
  {
    BlankTrim(line);
    CommentTrim(line);
    AnnotationTrimmed(line);
  }

  lemma {:induction false} ImportOn(s: Import, a: seq<string>, b: seq<string>)
    ensures ImportLines(s, a + b) == ImportLines(ImportLines(s, a), b)
    decreases |a|
  {
    if a == [] {
      assert a + b == b;
    } else if s.ok {
      assert (a + b)[1..] == a[1..] + b;
      ImportOn(ImportLine(s, a[0]), a[1..], b);
    }
  }

  /** A line is taken for a declaration if and only if the last line above it that is not blank is a comment with an
      annotation; its type is the announced one. */
  lemma {:induction false} PendingAfter(table: map<string, RoutineType>, lines: seq<string>)
    requires ImportLines(Import(true, table, None), lines).ok
    ensures ImportLines(Import(true, table, None), lines).next == Pending(lines)
    decreases |lines|
  {
    if lines != [] {
      var front, last := lines[..|lines| - 1], lines[|lines| - 1];
      assert lines == front + [last];
      LastImported(Import(true, table, None), front, last);
      PendingAfter(table, front);
      PendingLast(Import(true, table, None), front, last);
    }
  }

  lemma PendingLast(s: Import, front: seq<string>, last: string)
    requires ImportLines(s, front + [last]).ok && ImportLines(s, front).next == Pending(front)
    ensures ImportLines(s, front + [last]).next == Pending(front + [last])
  {
    LastImported(s, front, last);
    PendingStep(ImportLines(s, front), front, last);
  }

  lemma PendingStep(s: Import, front: seq<string>, last: string)
    requires s.next == Pending(front) && ImportLine(s, last).ok
    ensures ImportLine(s, last).next == Pending(front + [last])
  {
    LineImported(s, last);
    assert (front + [last])[..|front|] == front;
  }

  lemma LastImported(s: Import, front: seq<string>, last: string)
    requires ImportLines(s, front + [last]).ok
    ensures ImportLines(s, front).ok
    ensures ImportLines(s, front + [last]) == ImportLine(ImportLines(s, front), last)
  {
    ImportOn(s, front, [last]);
  }

  /** A blank line can be put in anywhere in a header. Where no declaration is announced, so can any line that does not
      announce one. */
  lemma IdleHeaderLine(table: map<string, RoutineType>, lines: seq<string>, i: nat, w: string)
    requires i <= |lines|
    requires Blank(w) || (Pending(lines[..i]).None? && (IsComment(w) ==> Annotation(w).None?))
    ensures var s := Import(true, table, None); ImportLines(s, lines[..i] + [w] + lines[i..]) == ImportLines(s, lines)
  {
    var s := Import(true, table, None);
    var t := ImportLines(s, lines[..i]);
    ImportOn(s, lines[..i] + [w], lines[i..]);
    ImportOn(s, lines[..i], [w]);
    ImportOn(s, lines[..i], lines[i..]);
    assert lines[..i] + lines[i..] == lines;
    if t.ok {
      PendingAfter(table, lines[..i]);
      LineImported(t, w);
      assert ImportLines(t, [w]) == t;
    }
  }
}
