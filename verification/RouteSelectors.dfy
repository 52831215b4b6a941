/** The destination and source selectors of `ip route list` and `ip route flush`. */
module RouteSelectors {
  import opened AddressBits
  import opened Options

  /** The size of the `data` field of a prefix, in bits. */
  const DATA := 256

  const UNSPEC := 0

  /** `bitlen` is negative for "no length given". */
  datatype Prefix = Prefix(family: nat, data: seq<bool>, bitlen: int)

  const NO_PREFIX := Prefix(UNSPEC, seq(DATA, _ => false), -1)

  /** One end of a route as the kernel reports it: the prefix length and, if present, the address attribute. */
  datatype End = End(len: nat, address: Option<seq<bool>>)

  datatype Route = Route(family: nat, dst: End, src: End)

  /** What a command line asks of one end of the routes: `root`, `match`, or both with `exact`. */
  datatype Selector = Selector(root: Prefix, matching: Prefix)

  datatype Filter = Filter(dst: Selector, src: Selector)

  datatype Choice = Root(p: Prefix) | Matching(p: Prefix) | Exact(p: Prefix)

  const NO_SELECTOR := Selector(NO_PREFIX, NO_PREFIX)

  /** The effect of one `to` or `from` option. */
  function Choose(s: Selector, o: Choice): Selector {
    match o
    case Root(p) => s.(root := p)
    case Matching(p) => s.(matching := p)
    case Exact(p) => Selector(p, p)
  }

  predicate PrefixOk(p: Prefix, host: nat) {
    |p.data| == DATA && p.bitlen <= host
  }

  predicate EndOk(e: End, host: nat) {
    && e.len <= host
    && (e.address.Some? ==> 8 * ((e.len + 7) / 8) <= |e.address.value|)
  }

  /** The zeroed buffer after the used bytes of the attribute have been copied in. */
  function Buffer(e: End): (b: seq<bool>)
    requires EndOk(e, DATA)
    ensures |b| == DATA
    ensures e.address.Some? ==> b[..e.len] == e.address.value[..e.len]
    ensures e.address.None? ==> b == seq(DATA, _ => false)
  {
    if e.address.None? then
      seq(DATA, _ => false)
    else
      var used := 8 * ((e.len + 7) / 8);
      e.address.value[..used] + seq(DATA - used, _ => false)
  }

  /** The tests of the family and of the lengths, before any address is looked at. */
  predicate LengthsPass(s: Selector, family: nat, e: End) {
    && (s.root.family != UNSPEC ==> family == s.root.family && s.root.bitlen <= e.len)
    && (s.matching.family != UNSPEC ==>
          family == s.matching.family && (s.matching.bitlen >= 0 ==> e.len <= s.matching.bitlen))
  }

  /** The comparisons of the addresses. */
  predicate AddressesPass(order: Host, s: Selector, e: End)
    requires EndOk(e, DATA) && PrefixOk(s.root, DATA) && PrefixOk(s.matching, DATA)
    requires s.root.family != UNSPEC ==> s.root.bitlen >= 0
  {
    && (s.root.family != UNSPEC ==> Match(order, Buffer(e), s.root.data, s.root.bitlen) == 0)
    && (s.matching.family != UNSPEC && s.matching.bitlen >= 0 ==> Match(order, Buffer(e), s.matching.data, e.len) == 0)
  }

  predicate SelectorOk(s: Selector, host: nat) {
    && PrefixOk(s.root, host) && PrefixOk(s.matching, host)
    && (s.root.family != UNSPEC ==> s.root.bitlen >= 0)
  }

  /** The selector tests of `filter_nlmsg`, in its order: all lengths first, then all addresses. */
  predicate Selected(order: Host, f: Filter, r: Route)
    requires SelectorOk(f.dst, DATA) && SelectorOk(f.src, DATA) && EndOk(r.dst, DATA) && EndOk(r.src, DATA)
  {
    && LengthsPass(f.dst, r.family, r.dst)
    && LengthsPass(f.src, r.family, r.src)
    && AddressesPass(order, f.dst, r.dst)
    && AddressesPass(order, f.src, r.src)
  }

  /** The addresses of `host` bits that a prefix covers. */
  ghost function Covers(bits: seq<bool>, len: nat, host: nat): iset<seq<bool>>
    requires len <= |bits| && len <= host
  {
    iset x: seq<bool> | |x| == host && x[..len] == bits[..len]
  }

  /** One set of addresses lies inside another exactly if its prefix is the longer one and begins like the other. */
  lemma Inside(a: seq<bool>, la: nat, b: seq<bool>, lb: nat, host: nat)
    requires la <= host <= |a| && lb <= host <= |b|
    ensures Covers(a, la, host) <= Covers(b, lb, host) <==> lb <= la && a[..lb] == b[..lb]
  {
    if lb <= la && a[..lb] == b[..lb] {
      forall x | x in Covers(a, la, host) ensures x in Covers(b, lb, host) {
        assert x[..lb] == x[..la][..lb] == a[..la][..lb];
      }
    } else {
      Outside(a, la, b, lb, host);
    }
  }

  lemma Outside(a: seq<bool>, la: nat, b: seq<bool>, lb: nat, host: nat)
    requires la <= host <= |a| && lb <= host <= |b|
    requires !(lb <= la && a[..lb] == b[..lb])
    ensures exists x :: x in Covers(a, la, host) && x !in Covers(b, lb, host)
  {
    var x := a[..host];
    if la < lb {
      x := x[la := !b[la]];
      assert x[..lb][la] != b[..lb][la];
    } else {
      assert x[..lb] == a[..lb];
    }
    assert x[..la] == a[..la];
    assert x in Covers(a, la, host);
  }

  /**
   * What the two prefixes of a selector mean: the route lies within the `root` prefix, and the `match` prefix lies
   * within the route. A prefix without a family, which `default` is when no family was chosen, asks nothing.
   */
  ghost predicate Meant(s: Selector, family: nat, e: End, host: nat)
    requires host <= DATA && EndOk(e, host) && SelectorOk(s, host)
  {
    && (s.root.family != UNSPEC ==>
          s.root.family == family && Covers(Buffer(e), e.len, host) <= Covers(s.root.data, s.root.bitlen, host))
    && (s.matching.family != UNSPEC ==>
          && s.matching.family == family
          && (s.matching.bitlen >= 0 ==>
                Covers(s.matching.data, s.matching.bitlen, host) <= Covers(Buffer(e), e.len, host)))
  }

  lemma EndSelected(order: Host, s: Selector, family: nat, e: End, host: nat)
    requires host <= DATA && EndOk(e, host) && SelectorOk(s, host)
    ensures LengthsPass(s, family, e) && AddressesPass(order, s, e) <==> Meant(s, family, e, host)
  {
    if s.root.family != UNSPEC {
      MatchComparesBits(order, Buffer(e), s.root.data, s.root.bitlen);
      Inside(Buffer(e), e.len, s.root.data, s.root.bitlen, host);
    }
    if s.matching.family != UNSPEC && s.matching.bitlen >= 0 {
      MatchComparesBits(order, Buffer(e), s.matching.data, e.len);
      Inside(s.matching.data, s.matching.bitlen, Buffer(e), e.len, host);
    }
  }

  /** The filter selects exactly the routes whose two ends are what the command line means. */
  lemma SelectsMeant(order: Host, f: Filter, r: Route, host: nat)
    requires host <= DATA && EndOk(r.dst, host) && EndOk(r.src, host) && SelectorOk(f.dst, host) &&
             SelectorOk(f.src, host)
    ensures Selected(order, f, r) <==> Meant(f.dst, r.family, r.dst, host) && Meant(f.src, r.family, r.src, host)
  {
    EndSelected(order, f.dst, r.family, r.dst, host);
    EndSelected(order, f.src, r.family, r.src, host);
  }

  /** What a single `to` option asks for: `root` the routes inside the prefix, `match` the routes around it, and `exact`
      the routes that cover the very same addresses. */
  ghost predicate Asked(o: Choice, e: End, host: nat)
    requires host <= DATA && EndOk(e, host) && PrefixOk(o.p, host) && o.p.bitlen >= 0
  {
    var route, asked := Covers(Buffer(e), e.len, host), Covers(o.p.data, o.p.bitlen, host);
    match o
    case Root(_) => route <= asked
    case Matching(_) => asked <= route
    case Exact(_) => route == asked
  }

  predicate RouteOk(r: Route, host: nat) {
    EndOk(r.dst, host) && EndOk(r.src, host)
  }

  /** With a prefix of a family, the option selects exactly the routes of the family that it asks for. */
  lemma OneOption(order: Host, o: Choice, r: Route, host: nat)
    requires host <= DATA && RouteOk(r, host)
    requires PrefixOk(o.p, host) && o.p.bitlen >= 0 && o.p.family != UNSPEC
    ensures Selected(order, Filter(Choose(NO_SELECTOR, o), NO_SELECTOR), r) <==>
            r.family == o.p.family && Asked(o, r.dst, host)
  {
    SelectsMeant(order, Filter(Choose(NO_SELECTOR, o), NO_SELECTOR), r, host);
  }

  /** A prefix of length 0 asks by `root` for every route, and by `match` and `exact` for those of length 0. */
  lemma DefaultAsks(o: Choice, e: End, host: nat)
    requires host <= DATA && EndOk(e, host) && PrefixOk(o.p, host) && o.p.bitlen == 0
    ensures Asked(o, e, host) <==> o.Root? || e.len == 0
  {
    Inside(Buffer(e), e.len, o.p.data, 0, host);
    Inside(o.p.data, 0, Buffer(e), e.len, host);
  }

  /** `default` without a family selects every route: rightly by `root`, and by the others only those of length 0. */
  lemma NoFamilyOnRoute(order: Host, o: Choice, r: Route, host: nat)
    requires host <= DATA && RouteOk(r, host)
    requires PrefixOk(o.p, host) && o.p.bitlen == 0 && o.p.family == UNSPEC
    ensures Selected(order, Filter(Choose(NO_SELECTOR, o), NO_SELECTOR), r)
    ensures Asked(o, r.dst, host) <==> o.Root? || r.dst.len == 0
  {
    DefaultAsks(o, r.dst, host);
  }

  /** So an option with `default` and without a family selects what it asks for, of all routes, only if it is `root`. */
  lemma NoFamilyRightIffRoot(order: Host, o: Choice, host: nat)
    requires 1 <= host <= DATA && PrefixOk(o.p, host) && o.p.bitlen == 0 && o.p.family == UNSPEC
    ensures (forall r | RouteOk(r, host) ::
               Selected(order, Filter(Choose(NO_SELECTOR, o), NO_SELECTOR), r) <==> Asked(o, r.dst, host)) <==> o.Root?
  {
    forall r | RouteOk(r, host)
      ensures Selected(order, Filter(Choose(NO_SELECTOR, o), NO_SELECTOR), r)
      ensures Asked(o, r.dst, host) <==> o.Root? || r.dst.len == 0
    {
      NoFamilyOnRoute(order, o, r, host);
    }
    var half := Route(0, End(1, None), End(0, None));
    assert RouteOk(half, host) && half.dst.len == 1;
  }
}
