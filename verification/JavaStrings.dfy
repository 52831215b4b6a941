/** The operations of `java.lang.String` that the policy compiler uses. */
module JavaStrings {

  predicate StartsWith(s: string, p: string) {
    p <= s
  }

  /** The first place of a text, or -1. */
  function Find(s: string, p: string): (i: int)
    ensures -1 <= i <= |s|
    ensures i >= 0 ==> i + |p| <= |s| && p <= s[i..]
  {
    if p <= s then 0
    else if s == [] then -1
    else
      var i := Find(s[1..], p);
      if i < 0 then -1 else
        assert s[1..][i..] == s[i + 1..];
        i + 1
  }

  predicate Contains(s: string, p: string) {
    Find(s, p) >= 0
  }

  /** The first place of a character, or -1. */
  function IndexOf(s: string, c: char): (i: int)
    ensures -1 <= i < |s|
    ensures i == -1 <==> c !in s
    ensures i >= 0 ==> s[i] == c && c !in s[..i]
  {
    if s == [] then -1
    else if s[0] == c then 0
    else
      var i := IndexOf(s[1..], c);
      if i < 0 then -1 else
        assert s[..i + 1] == [s[0]] + s[1..][..i];
        i + 1
  }

  function TrimFront(s: string): string {
    if s != [] && s[0] <= ' ' then TrimFront(s[1..]) else s
  }

  function TrimBack(s: string): string {
    if s != [] && s[|s| - 1] <= ' ' then TrimBack(s[..|s| - 1]) else s
  }

  function Trim(s: string): string {
    TrimBack(TrimFront(s))
  }

  function Replace(s: string, c: char, d: char): string {
    seq(|s|, i requires 0 <= i < |s| => if s[i] == c then d else s[i])
  }

  /** All pieces between the separators. */
  function Pieces(s: string, c: char): (p: seq<string>)
    ensures p != []
  {
    var i := IndexOf(s, c);
    if i < 0 then [s] else [s[..i]] + Pieces(s[i + 1..], c)
  }

  function DropEmpty(p: seq<string>): seq<string> {
    if p != [] && p[|p| - 1] == [] then DropEmpty(p[..|p| - 1]) else p
  }

  /** `split`: a text without the separator is one piece, and otherwise empty pieces at the end are dropped. */
  function Split(s: string, c: char): seq<string> {
    if c !in s then [s] else DropEmpty(Pieces(s, c))
  }

  /** What is before and behind the first place of a text. */
  function Halves(s: string, p: string): (h: (bool, string, string))
    requires p != []
    ensures h.0 ==> |h.2| < |s|
  {
    var i := Find(s, p);
    if i < 0 then (false, s, "") else (true, s[..i], s[i + |p|..])
  }

  /** The same as `Pieces` and `Split` for a separator of several characters. */
  function PiecesAt(s: string, p: string): seq<string>
    requires p != []
  {
    var h := Halves(s, p);
    if h.0 then [h.1] + PiecesAt(h.2, p) else [s]
  }

  function SplitAt(s: string, p: string): seq<string>
    requires p != []
  {
    if Halves(s, p).0 then DropEmpty(PiecesAt(s, p)) else [s]
  }

  lemma Absent(c: char, a: string, b: string)
    requires c !in a && c !in b
    ensures c !in a + b
  {
  }

  lemma IndexOfFirst(a: string, c: char, b: string)
    requires c !in a
    ensures IndexOf(a + [c] + b, c) == |a|
  {
    var s := a + [c] + b;
    assert s[|a|] == c;
    assert s[..|a|] == a;
    assert c in s[..|a| + 1];
    assert forall k :: 0 <= k < |a| ==> s[k] == a[k];
  }

  /** A text between brackets is found again. */
  lemma Enclosed(open: char, close: char, head: string, body: string)
    requires open != close && open !in head && close !in head && open !in body && close !in body
    ensures var s := head + [open] + (body + [close] + []);
            && head <= s && IndexOf(s, open) == |head| && IndexOf(s, close) == |head| + 1 + |body|
            && s[..|head|] == head && s[|head| + 1..|head| + 1 + |body|] == body
  {
    var s := head + [open] + (body + [close] + []);
    IndexOfFirst(head, open, body + [close] + []);
    var front := head + [open] + body;
    Absent(close, head, [open]);
    Absent(close, head + [open], body);
    assert s == front + [close] + [];
    IndexOfFirst(front, close, []);
  }

  lemma PiecesCons(a: string, c: char, b: string)
    requires c !in a
    ensures Pieces(a + [c] + b, c) == [a] + Pieces(b, c)
  {
    IndexOfFirst(a, c, b);
    assert (a + [c] + b)[..|a|] == a && (a + [c] + b)[|a| + 1..] == b;
  }

  lemma {:induction false} PiecesAppend(s: string, c: char, b: string)
    requires c !in b
    ensures Pieces(s + [c] + b, c) == Pieces(s, c) + [b]
    decreases |s|
  {
    if c !in s {
      PiecesCons(s, c, b);
    } else {
      var front, rest := FirstPiece(s, c);
      PiecesAppend(rest, c, b);
      Regroup(front, c, rest, b);
      PiecesCons(front, c, rest + [c] + b);
      PiecesCons(front, c, rest);
      AppendLast(front, Pieces(rest, c), b);
    }
  }

  lemma FirstPiece(s: string, c: char) returns (front: string, rest: string)
    requires c in s
    ensures s == front + [c] + rest && c !in front && |rest| < |s|
  {
    var i := IndexOf(s, c);
    front, rest := s[..i], s[i + 1..];
  }

  lemma Regroup(a: string, c: char, b: string, d: string)
    ensures (a + [c] + b) + [c] + d == a + [c] + (b + [c] + d)
  {
  }

  lemma AppendLast(first: string, middle: seq<string>, last: string)
    ensures [first] + (middle + [last]) == ([first] + middle) + [last]
  {
  }

  lemma SplitTwo(a: string, c: char, b: string)
    requires c !in a && c !in b && b != []
    ensures Split(a + [c] + b, c) == [a, b]
  {
    PiecesCons(a, c, b);
    assert (a + [c] + b)[|a|] == c;
    assert Pieces(b, c) == [b];
    assert [a] + [b] == [a, b];
  }

  lemma SplitThree(a: string, c: char, b: string, d: string)
    requires c !in a && c !in b && c !in d && d != []
    ensures Split(a + [c] + (b + [c] + d), c) == [a, b, d]
  {
    PiecesCons(a, c, b + [c] + d);
    PiecesCons(b, c, d);
    assert (a + [c] + (b + [c] + d))[|a|] == c;
    assert Pieces(d, c) == [d];
    assert [a] + ([b] + [d]) == [a, b, d];
  }

  /** A text without white space at its ends stays as it is. */
  lemma TrimSame(s: string)
    requires s == [] || (s[0] > ' ' && s[|s| - 1] > ' ')
    ensures Trim(s) == s
  {
  }

  lemma {:induction false} TrimFrontPart(s: string)
    ensures |TrimFront(s)| <= |s| && TrimFront(s) == s[|s| - |TrimFront(s)|..]
  {
    if s != [] && s[0] <= ' ' {
      TrimFrontPart(s[1..]);
      assert s[1..][|s| - 1 - |TrimFront(s[1..])|..] == s[|s| - |TrimFront(s)|..];
    }
  }

  lemma {:induction false} TrimBackPart(s: string)
    ensures |TrimBack(s)| <= |s| && TrimBack(s) == s[..|TrimBack(s)|]
  {
    if s != [] && s[|s| - 1] <= ' ' {
      TrimBackPart(s[..|s| - 1]);
    }
  }

  /** Trimming only removes characters. */
  lemma TrimChars(s: string, c: char)
    requires c in Trim(s)
    ensures c in s
  {
    TrimFrontPart(s);
    TrimBackPart(TrimFront(s));
  }

  lemma {:induction false} DropEmptyKeeps(p: seq<string>)
    ensures DropEmpty(p) <= p
  {
    if p != [] && p[|p| - 1] == [] {
      DropEmptyKeeps(p[..|p| - 1]);
    }
  }

  /** A piece has characters of the text only, and never the separator. */
  lemma {:induction false} PieceWithin(s: string, c: char, i: nat, d: char)
    requires i < |Pieces(s, c)| && d in Pieces(s, c)[i]
    ensures d in s && d != c
    decreases |s|
  {
    if c in s {
      var front, rest := FirstPiece(s, c);
      PiecesCons(front, c, rest);
      if i > 0 {
        PieceWithin(rest, c, i - 1, d);
      }
    }
  }

  lemma SplitWithin(s: string, c: char, i: nat, d: char)
    requires i < |Split(s, c)| && d in Split(s, c)[i]
    ensures d in s && d != c
  {
    if c in s {
      DropEmptyKeeps(Pieces(s, c));
      PieceWithin(s, c, i, d);
    }
  }
}
