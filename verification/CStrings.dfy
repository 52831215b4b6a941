/** C strings without their terminating NUL. */
module CStrings {

  /** `strncmp(a, b, n) == 0`, one character at a time. */
  predicate SamePrefix<T(==)>(a: seq<T>, b: seq<T>, n: nat) {
    if n == 0 then true
    else if a == [] || b == [] then a == [] && b == []
    else a[0] == b[0] && SamePrefix(a[1..], b[1..], n - 1)
  }

  /** What `strncpy` leaves in a zeroed buffer of more than `n` characters. */
  function Prefix<T>(s: seq<T>, n: nat): seq<T> {
    if |s| <= n then s else s[..n]
  }

  lemma PrefixStep<T>(a: seq<T>, n: nat)
    requires n > 0 && a != []
    ensures Prefix(a, n) != [] && Prefix(a, n)[0] == a[0] && Prefix(a, n)[1..] == Prefix(a[1..], n - 1)
  {
  }

  lemma FirstAndRest<T>(s: seq<T>, t: seq<T>)
    requires s != [] && t != []
    ensures s == t <==> s[0] == t[0] && s[1..] == t[1..]
  {
    assert s == [s[0]] + s[1..] && t == [t[0]] + t[1..];
  }

  lemma {:induction false} SamePrefixIff<T>(a: seq<T>, b: seq<T>, n: nat)
    ensures SamePrefix(a, b, n) <==> Prefix(a, n) == Prefix(b, n)
    decreases n
  {
    if n > 0 && a != [] && b != [] {
      SamePrefixIff(a[1..], b[1..], n - 1);
      PrefixStep(a, n);
      PrefixStep(b, n);
      FirstAndRest(Prefix(a, n), Prefix(b, n));
    }
  }

  /** A string shorter than the limit is compared to its end. */
  lemma ShortNameCompare<T>(a: seq<T>, b: seq<T>, n: nat)
    requires |a| < n
    ensures SamePrefix(a, b, n) <==> a == b
  {
    SamePrefixIff(a, b, n);
  }
}
