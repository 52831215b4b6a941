/** What the link cache knows after any run of link events: the links it holds, most
    recently filed first, each in the name bucket it was last filed under. */
module LinkRuns {
  import opened Options
  import opened Bytes
  import opened Sequences

  const BUCKETS := 1024
  const NAME_SIZE := 16

  /** An interface name, without its NUL. */
  type Name = seq<Byte>

  datatype Link = Link(index: nat, name: Name, kind: nat, flags: nat, bucket: nat)

  /** The two kinds of message the cache acts upon. */
  datatype Event =
    | NewLink(index: nat, name: Name, kind: nat, flags: nat)
    | DelLink(index: nat)

  // ----- the name hash -----

  const WORD := 0x1_0000_0000

  /** A `char` as it is added to the hash, on a host on which it has a sign. */
  function SignedByte(b: Byte): int {
    if b < 128 then b else b - 256
  }

  /** The hash, wrapping around at every step. */
  function Hash(s: Name): (h: nat)
    ensures h < WORD
  {
    if s == [] then 5381
    else ((Hash(s[..|s| - 1]) * 32 % WORD + Hash(s[..|s| - 1])) % WORD + SignedByte(s[|s| - 1])) % WORD
  }

  /** The same polynomial in 33 over the integers. */
  function Polynomial(s: Name): int {
    if s == [] then 5381 else 33 * Polynomial(s[..|s| - 1]) + SignedByte(s[|s| - 1])
  }

  lemma WrapStep(p: int, h: nat, c: int)
    requires h == p % WORD
    ensures ((h * 32 % WORD + h) % WORD + c) % WORD == (33 * p + c) % WORD
  {
    var q := p / WORD;
    assert p == q * WORD + h;
    assert 33 * p + c == (33 * q) * WORD + (33 * h + c);
    ModAdd(33 * q, 33 * h + c);
    var a := h * 32 / WORD;
    assert h * 32 % WORD + h + c == 33 * h + c - a * WORD;
    var b := (h * 32 % WORD + h) / WORD;
    assert (h * 32 % WORD + h) % WORD + c == 33 * h + c - (a + b) * WORD;
    ModAdd(-(a + b), 33 * h + c);
  }

  lemma ModAdd(k: int, x: int)
    ensures (k * WORD + x) % WORD == x % WORD
  {
  }

  /** Wrapping at every step or once at the end makes no difference. */
  lemma {:induction false} HashIsPolynomial(s: Name)
    ensures Hash(s) == Polynomial(s) % WORD
  {
    if s != [] {
      HashIsPolynomial(s[..|s| - 1]);
      WrapStep(Polynomial(s[..|s| - 1]), Hash(s[..|s| - 1]), SignedByte(s[|s| - 1]));
    }
  }

  function Power33(n: nat): nat {
    if n == 0 then 1 else 33 * Power33(n - 1)
  }

  /** Each byte with its weight, the first one with the largest. */
  function Weighted(s: Name): int {
    if s == [] then 0 else SignedByte(s[0]) * Power33(|s| - 1) + Weighted(s[1..])
  }

  lemma {:induction false} WeightedMore(s: Name, c: Byte)
    ensures Weighted(s + [c]) == 33 * Weighted(s) + SignedByte(c)
  {
    if s == [] {
      assert (s + [c])[1..] == [];
    } else {
      assert (s + [c])[1..] == s[1..] + [c];
      WeightedMore(s[1..], c);
      assert SignedByte(s[0]) * (33 * Power33(|s| - 1)) == 33 * (SignedByte(s[0]) * Power33(|s| - 1));
    }
  }

  lemma {:induction false} PolynomialClosed(s: Name)
    ensures Polynomial(s) == 5381 * Power33(|s|) + Weighted(s)
  {
    if s != [] {
      var front, c := s[..|s| - 1], s[|s| - 1];
      PolynomialClosed(front);
      WeightedMore(front, c);
      assert s == front + [c];
    }
  }

  /** The hash in closed form. */
  lemma HashClosed(s: Name)
    ensures Hash(s) == (5381 * Power33(|s|) + Weighted(s)) % 0x1_0000_0000
  {
    HashIsPolynomial(s);
    PolynomialClosed(s);
  }

  function Bucket(s: Name): (b: nat)
    ensures b < BUCKETS
  {
    Hash(s) % BUCKETS
  }

  // ----- lookups -----

  /** The position of the link with an index, if there is one. */
  function Find(links: seq<Link>, index: nat): (r: Option<nat>)
    ensures r.Some? ==> r.value < |links| && links[r.value].index == index
    ensures r.None? ==> forall i :: 0 <= i < |links| ==> links[i].index != index
  {
    if links == [] then None
    else if links[0].index == index then Some(0)
    else match Find(links[1..], index) case None => None case Some(i) => Some(i + 1)
  }

  function ByIndex(links: seq<Link>, index: nat): Option<Link> {
    match Find(links, index) case None => None case Some(i) => Some(links[i])
  }

  /** The first link of the bucket of `name` that carries that name. */
  function ByName(links: seq<Link>, name: Name): Option<Link> {
    if links == [] then None
    else if links[0].bucket == Bucket(name) && links[0].name == name then Some(links[0])
    else ByName(links[1..], name)
  }

  predicate DistinctIndices(links: seq<Link>) {
    forall i, j :: 0 <= i < j < |links| ==> links[i].index != links[j].index
  }

  // ----- events -----

  /** A link that comes in under another name is filed anew, but keeps the name it had. */
  function Remember(links: seq<Link>, ev: Event): seq<Link> {
    match ev
    case DelLink(index) =>
      (match Find(links, index) case None => links case Some(i) => RemoveAt(links, i))
    case NewLink(index, name, kind, flags) =>
      match Find(links, index)
      case None => [Link(index, name, kind, flags, Bucket(name))] + links
      case Some(i) =>
        if links[i].name != name then [links[i].(bucket := Bucket(name), flags := flags)] + RemoveAt(links, i)
        else links[i := links[i].(flags := flags)]
  }

  function Run(evs: seq<Event>): seq<Link> {
    if evs == [] then [] else Remember(Run(evs[..|evs| - 1]), evs[|evs| - 1])
  }

  lemma RunMore(evs: seq<Event>, ev: Event)
    ensures Run(evs + [ev]) == Remember(Run(evs), ev)
  {
    assert (evs + [ev])[..|evs|] == evs;
  }

  lemma RememberDistinct(links: seq<Link>, ev: Event)
    requires DistinctIndices(links)
    ensures DistinctIndices(Remember(links, ev))
  {
  }

  lemma {:induction false} RunDistinct(evs: seq<Event>)
    ensures DistinctIndices(Run(evs))
  {
    if evs != [] {
      RunDistinct(evs[..|evs| - 1]);
      RememberDistinct(Run(evs[..|evs| - 1]), evs[|evs| - 1]);
    }
  }

  // ----- lookup by index -----

  datatype Info = Info(name: Name, kind: nat, flags: nat)

  /** A plain map of the live indices: name and type from the event that made them live,
      flags from the latest. */
  function Live(evs: seq<Event>): map<nat, Info> {
    if evs == [] then map[]
    else
      var m := Live(evs[..|evs| - 1]);
      match evs[|evs| - 1]
      case DelLink(index) => m - {index}
      case NewLink(index, name, kind, flags) =>
        if index in m then m[index := m[index].(flags := flags)] else m[index := Info(name, kind, flags)]
  }

  function InfoOf(l: Option<Link>): Option<Info> {
    match l case None => None case Some(x) => Some(Info(x.name, x.kind, x.flags))
  }

  function Lookup(m: map<nat, Info>, index: nat): Option<Info> {
    if index in m then Some(m[index]) else None
  }

  lemma {:induction false} FindUnique(links: seq<Link>, i: nat)
    requires DistinctIndices(links) && i < |links|
    ensures Find(links, links[i].index) == Some(i)
  {
  }

  lemma {:induction false} ByIndexAfter(links: seq<Link>, ev: Event, index: nat)
    requires DistinctIndices(links)
    ensures var l := ByIndex(links, index);
            InfoOf(ByIndex(Remember(links, ev), index))
            == if ev.index != index then InfoOf(l)
               else match ev
                 case DelLink(_) => None
                 case NewLink(_, name, kind, flags) =>
                   if l.None? then Some(Info(name, kind, flags)) else Some(Info(l.value.name, l.value.kind, flags))
  {
    var after := Remember(links, ev);
    RememberDistinct(links, ev);
    var r, r' := Find(links, index), Find(after, index);
    if ev.index != index {
      if r.Some? {
        var i := r.value;
        var j := PlaceAfter(links, ev, i);
        FindUnique(after, j);
      } else if r'.Some? {
        var i := PlaceBefore(links, ev, r'.value);
      }
    } else if ev.NewLink? {
      var j := match r case None => 0 case Some(i) => if links[i].name != ev.name then 0 else i;
      assert after[j].index == index;
      FindUnique(after, j);
    }
  }

  /** Where the other elements are when one is removed. */
  lemma RemovedPlace(links: seq<Link>, r: nat, i: nat)
    requires r < |links| && i < |links| && i != r
    ensures var j := if i > r then i - 1 else i; j < |RemoveAt(links, r)| && RemoveAt(links, r)[j] == links[i]
  {
  }

  lemma PrependedPlace(l: Link, links: seq<Link>, i: nat)
    requires i < |links|
    ensures ([l] + links)[i + 1] == links[i]
  {
  }

  /** Links the event does not speak of stay as they are. */
  lemma PlaceAfter(links: seq<Link>, ev: Event, i: nat) returns (j: nat)
    requires i < |links| && links[i].index != ev.index
    ensures j < |Remember(links, ev)| && Remember(links, ev)[j] == links[i]
  {
    var r := Find(links, ev.index);
    if r.None? {
      j := if ev.DelLink? then i else i + 1;
      if ev.NewLink? {
        PrependedPlace(Remember(links, ev)[0], links, i);
      }
    } else {
      RemovedPlace(links, r.value, i);
      var base := if i > r.value then i - 1 else i;
      if ev.DelLink? {
        j := base;
      } else if links[r.value].name != ev.name {
        j := base + 1;
        PrependedPlace(Remember(links, ev)[0], RemoveAt(links, r.value), base);
      } else {
        j := i;
      }
    }
  }

  /** A deleted link is nowhere. */
  lemma Gone(links: seq<Link>, index: nat, j: nat)
    requires DistinctIndices(links) && j < |Remember(links, DelLink(index))|
    ensures Remember(links, DelLink(index))[j].index != index
  {
  }

  lemma PlaceBefore(links: seq<Link>, ev: Event, j: nat) returns (i: nat)
    requires j < |Remember(links, ev)| && Remember(links, ev)[j].index != ev.index
    ensures i < |links| && links[i] == Remember(links, ev)[j]
  {
    var r := Find(links, ev.index);
    match ev
    case DelLink(_) => i := if r.Some? && j >= r.value then j + 1 else j;
    case NewLink(_, name, _, _) =>
      if r.None? { i := j - 1; }
      else if links[r.value].name != name { i := if j - 1 >= r.value then j else j - 1; }
      else { i := j; }
  }

  /** Over any run, lookup by index is the plain map. */
  lemma {:induction false} ByIndexIsMap(evs: seq<Event>, index: nat)
    ensures InfoOf(ByIndex(Run(evs), index)) == Lookup(Live(evs), index)
  {
    if evs != [] {
      ByIndexIsMap(evs[..|evs| - 1], index);
      RunDistinct(evs[..|evs| - 1]);
      ByIndexAfter(Run(evs[..|evs| - 1]), evs[|evs| - 1], index);
    }
  }

  // ----- lookup by name -----

  lemma {:induction false} ByNameMeaning(links: seq<Link>, name: Name) returns (at: nat)
    ensures match ByName(links, name)
      case None => forall i :: 0 <= i < |links| ==> !(links[i].bucket == Bucket(name) && links[i].name == name)
      case Some(l) =>
        && at < |links| && l == links[at] && l.bucket == Bucket(name) && l.name == name
        && forall i :: 0 <= i < at ==> !(links[i].bucket == Bucket(name) && links[i].name == name)
  {
    at := 0;
    if links != [] && !(links[0].bucket == Bucket(name) && links[0].name == name) {
      var k := ByNameMeaning(links[1..], name);
      at := k + 1;
      if ByName(links, name).None? {
        forall i | 0 <= i < |links| ensures !(links[i].bucket == Bucket(name) && links[i].name == name) {
          if i > 0 { assert links[i] == links[1..][i - 1]; }
        }
      } else {
        forall i | 0 <= i < at ensures !(links[i].bucket == Bucket(name) && links[i].name == name) {
          if i > 0 { assert links[i] == links[1..][i - 1]; }
        }
      }
    }
  }

  /** No event announces a live index under another name. */
  predicate NoRename(evs: seq<Event>) {
    if evs == [] then true
    else
      var front, ev := evs[..|evs| - 1], evs[|evs| - 1];
      NoRename(front) && (ev.NewLink? && ev.index in Live(front) ==> Live(front)[ev.index].name == ev.name)
  }

  /** The live links in order of insertion, newest first, without any buckets. */
  datatype Seen = Seen(index: nat, name: Name)

  function Inserted(evs: seq<Event>): seq<Seen> {
    if evs == [] then []
    else
      var front, ev := evs[..|evs| - 1], evs[|evs| - 1];
      match ev
      case NewLink(index, name, _, _) =>
        if index in Live(front) then Inserted(front) else [Seen(index, name)] + Inserted(front)
      case DelLink(index) => Without(Inserted(front), index)
  }

  function Without(seens: seq<Seen>, index: nat): seq<Seen> {
    if seens == [] then []
    else if seens[0].index == index then seens[1..]
    else [seens[0]] + Without(seens[1..], index)
  }

  /** The newest live link of that name. */
  function Newest(seens: seq<Seen>, name: Name): Option<nat> {
    if seens == [] then None
    else if seens[0].name == name then Some(seens[0].index)
    else Newest(seens[1..], name)
  }

  function Seens(links: seq<Link>): (r: seq<Seen>)
    ensures |r| == |links| && forall i :: 0 <= i < |links| ==> r[i] == Seen(links[i].index, links[i].name)
  {
    seq(|links|, i requires 0 <= i < |links| => Seen(links[i].index, links[i].name))
  }

  predicate WellFiled(links: seq<Link>) {
    forall i :: 0 <= i < |links| ==> links[i].bucket == Bucket(links[i].name)
  }

  lemma SeensRemove(links: seq<Link>, i: nat)
    requires i < |links|
    ensures Seens(RemoveAt(links, i)) == RemoveAt(Seens(links), i)
  {
  }

  lemma {:induction false} WithoutAt(seens: seq<Seen>, index: nat, i: nat)
    requires i < |seens| && seens[i].index == index && forall j :: 0 <= j < i ==> seens[j].index != index
    ensures Without(seens, index) == RemoveAt(seens, i)
  {
    if i > 0 {
      WithoutAt(seens[1..], index, i - 1);
      assert RemoveAt(seens, i) == [seens[0]] + RemoveAt(seens[1..], i - 1);
    }
  }

  lemma {:induction false} WithoutNone(seens: seq<Seen>, index: nat)
    requires forall j :: 0 <= j < |seens| ==> seens[j].index != index
    ensures Without(seens, index) == seens
  {
    if seens != [] { WithoutNone(seens[1..], index); }
  }

  lemma {:induction false} WithoutFound(links: seq<Link>, index: nat)
    requires DistinctIndices(links)
    ensures Without(Seens(links), index)
            == match Find(links, index) case None => Seens(links) case Some(i) => Seens(RemoveAt(links, i))
  {
    var r := Find(links, index);
    if r.None? {
      WithoutNone(Seens(links), index);
    } else {
      WithoutAt(Seens(links), index, r.value);
      SeensRemove(links, r.value);
    }
  }

  lemma DeletionStep(links: seq<Link>, index: nat)
    requires DistinctIndices(links) && WellFiled(links)
    ensures WellFiled(Remember(links, DelLink(index)))
    ensures Seens(Remember(links, DelLink(index))) == Without(Seens(links), index)
  {
    WithoutFound(links, index);
  }

  lemma InsertionStep(links: seq<Link>, index: nat, name: Name, kind: nat, flags: nat)
    requires WellFiled(links) && Find(links, index).None?
    ensures WellFiled(Remember(links, NewLink(index, name, kind, flags)))
    ensures Seens(Remember(links, NewLink(index, name, kind, flags))) == [Seen(index, name)] + Seens(links)
  {
    var l := Link(index, name, kind, flags, Bucket(name));
    assert Seens([l] + links) == [Seen(index, name)] + Seens(links);
  }

  lemma ChangeStep(links: seq<Link>, index: nat, name: Name, kind: nat, flags: nat)
    requires WellFiled(links) && Find(links, index).Some? && links[Find(links, index).value].name == name
    ensures WellFiled(Remember(links, NewLink(index, name, kind, flags)))
    ensures Seens(Remember(links, NewLink(index, name, kind, flags))) == Seens(links)
  {
    var i := Find(links, index).value;
    assert Seens(links[i := links[i].(flags := flags)]) == Seens(links);
  }

  lemma {:induction false} InsertionOrder(evs: seq<Event>)
    requires NoRename(evs)
    ensures Seens(Run(evs)) == Inserted(evs) && WellFiled(Run(evs))
  {
    if evs != [] {
      var front, ev := evs[..|evs| - 1], evs[|evs| - 1];
      InsertionOrder(front);
      RunDistinct(front);
      ByIndexIsMap(front, ev.index);
      match ev
      case DelLink(index) => DeletionStep(Run(front), index);
      case NewLink(index, name, kind, flags) =>
        if index in Live(front) {
          ChangeStep(Run(front), index, name, kind, flags);
        } else {
          InsertionStep(Run(front), index, name, kind, flags);
        }
    }
  }

  lemma {:induction false} NewestWellFiled(links: seq<Link>, name: Name)
    requires WellFiled(links)
    ensures Newest(Seens(links), name) == match ByName(links, name) case None => None case Some(l) => Some(l.index)
  {
    if links != [] {
      NewestWellFiled(links[1..], name);
      assert Seens(links)[1..] == Seens(links[1..]);
    }
  }

  /** Without renames, lookup by name finds the most recently inserted live link of that
      name, and nothing if there is none. */
  lemma ByNameIsNewest(evs: seq<Event>, name: Name)
    requires NoRename(evs)
    ensures Newest(Inserted(evs), name) == match ByName(Run(evs), name) case None => None case Some(l) => Some(l.index)
  {
    InsertionOrder(evs);
    NewestWellFiled(Run(evs), name);
  }

  // ----- renames -----

  /** The name each live index was last announced under. */
  function Latest(evs: seq<Event>): map<nat, Name> {
    if evs == [] then map[]
    else match evs[|evs| - 1]
      case DelLink(index) => Latest(evs[..|evs| - 1]) - {index}
      case NewLink(index, name, _, _) => Latest(evs[..|evs| - 1])[index := name]
  }

  /** Lookup by name answers with the link now called that, or with nothing if none is. */
  ghost predicate Answers(links: seq<Link>, latest: map<nat, Name>) {
    forall name: Name ::
      match ByName(links, name)
      case None => name !in latest.Values
      case Some(l) => l.index in latest && latest[l.index] == name
  }

  /** The name each live link is filed under: the last announced one that was not its own at that time, and its own
      if there was none. */
  function FiledUnder(evs: seq<Event>): map<nat, Name> {
    if evs == [] then map[]
    else
      var front, ev := evs[..|evs| - 1], evs[|evs| - 1];
      match ev
      case DelLink(index) => FiledUnder(front) - {index}
      case NewLink(index, name, _, _) =>
        if index in Live(front) && Live(front)[index].name == name then FiledUnder(front)
        else FiledUnder(front)[index := name]
  }

  /** Every live link is called by the name it was created under, and is filed in the bucket of that name. */
  predicate Settled(evs: seq<Event>) {
    forall i <- Live(evs) ::
      && i in Latest(evs) && Latest(evs)[i] == Live(evs)[i].name
      && i in FiledUnder(evs) && Bucket(FiledUnder(evs)[i]) == Bucket(Live(evs)[i].name)
  }

  predicate DistinctNames(latest: map<nat, Name>) {
    forall i, j :: i in latest && j in latest && i != j ==> latest[i] != latest[j]
  }

  lemma {:induction false} LatestIsLive(evs: seq<Event>)
    ensures Latest(evs).Keys == Live(evs).Keys
  {
    if evs != [] { LatestIsLive(evs[..|evs| - 1]); }
  }

  lemma LiveIsLinked(evs: seq<Event>, index: nat)
    ensures index in Latest(evs) <==> Find(Run(evs), index).Some?
  {
    LatestIsLive(evs);
    ByIndexIsMap(evs, index);
  }

  /** A link is the one of its index in the plain map, filed under what the events say. */
  ghost predicate Placed(evs: seq<Event>, l: Link) {
    && l.index in Live(evs) && Live(evs)[l.index].name == l.name
    && l.index in FiledUnder(evs) && l.bucket == Bucket(FiledUnder(evs)[l.index])
  }

  lemma {:induction false} LinkPlaced(evs: seq<Event>, j: nat)
    requires j < |Run(evs)|
    ensures Placed(evs, Run(evs)[j])
    decreases |evs|
  {
    var front, ev := evs[..|evs| - 1], evs[|evs| - 1];
    var links, l := Run(front), Run(evs)[j];
    RunDistinct(front);
    if l.index != ev.index {
      var i := PlaceBefore(links, ev, j);
      LinkPlaced(front, i);
    } else {
      forall i | 0 <= i < |links| ensures Placed(front, links[i]) {
        LinkPlaced(front, i);
      }
      OwnPlace(front, ev, j);
      assert front + [ev] == evs;
    }
  }

  /** The link the last event speaks of. */
  lemma OwnPlace(front: seq<Event>, ev: Event, j: nat)
    requires j < |Remember(Run(front), ev)| && Remember(Run(front), ev)[j].index == ev.index
    requires forall i :: 0 <= i < |Run(front)| ==> Placed(front, Run(front)[i])
    ensures Placed(front + [ev], Remember(Run(front), ev)[j])
  {
    var links := Run(front);
    assert (front + [ev])[..|front|] == front;
    RunDistinct(front);
    ByIndexIsMap(front, ev.index);
    RememberDistinct(links, ev);
    match ev
    case DelLink(index) =>
      Gone(links, index, j);
    case NewLink(index, name, kind, flags) =>
      var r := Find(links, index);
      var k := if r.None? || links[r.value].name != name then 0 else r.value;
      assert Remember(links, ev)[k].index == index;
      assert j == k;
  }

  /** Lookup by name is right for every name, the live links being called differently, if and only if each of them is
      called as it was at first and is filed in the bucket of that name. */
  lemma ByNameRightIffSettled(evs: seq<Event>)
    requires DistinctNames(Latest(evs))
    ensures Answers(Run(evs), Latest(evs)) <==> Settled(evs)
  {
    if Settled(evs) {
      forall name: Name
        ensures match ByName(Run(evs), name)
          case None => name !in Latest(evs).Values
          case Some(l) => l.index in Latest(evs) && Latest(evs)[l.index] == name
      {
        SettledAnswer(evs, name);
      }
    }
    if Answers(Run(evs), Latest(evs)) {
      forall i | i in Live(evs)
        ensures && i in Latest(evs) && Latest(evs)[i] == Live(evs)[i].name
                && i in FiledUnder(evs) && Bucket(FiledUnder(evs)[i]) == Bucket(Live(evs)[i].name)
      {
        LatestIsLive(evs);
        RightAnswer(evs, i);
      }
    }
  }

  lemma SettledAnswer(evs: seq<Event>, name: Name)
    requires Settled(evs)
    ensures match ByName(Run(evs), name)
      case None => name !in Latest(evs).Values
      case Some(l) => l.index in Latest(evs) && Latest(evs)[l.index] == name
  {
    var links, latest := Run(evs), Latest(evs);
    var at := ByNameMeaning(links, name);
    if ByName(links, name).Some? {
      LinkPlaced(evs, at);
    } else if name in latest.Values {
      var index :| index in latest && latest[index] == name;
      LiveIsLinked(evs, index);
      LinkPlaced(evs, Find(links, index).value);
    }
  }

  lemma RightAnswer(evs: seq<Event>, index: nat)
    requires DistinctNames(Latest(evs)) && Answers(Run(evs), Latest(evs)) && index in Latest(evs)
    ensures && index in Live(evs) && Latest(evs)[index] == Live(evs)[index].name
            && index in FiledUnder(evs) && Bucket(FiledUnder(evs)[index]) == Bucket(Live(evs)[index].name)
  {
    var links, latest := Run(evs), Latest(evs);
    LatestIsLive(evs);
    var name := latest[index];
    assert name in latest.Values;
    var at := ByNameMeaning(links, name);
    assert ByName(links, name).Some?;
    assert links[at].index == index;
    LinkPlaced(evs, at);
  }

  /** Renaming a link and renaming it back does not settle it, unless the two names share a bucket. */
  lemma RenamedBack(index: nat, a: Name, b: Name, kind: nat, flags: nat)
    requires a != b
    ensures var evs := [NewLink(index, a, kind, flags), NewLink(index, b, kind, flags), NewLink(index, a, kind, flags)];
            Latest(evs) == map[index := a] && (Settled(evs) <==> Bucket(a) == Bucket(b))
  {
    var e1, e2 := NewLink(index, a, kind, flags), NewLink(index, b, kind, flags);
    assert [e1, e2, e1][..2] == [e1, e2] && [e1, e2][..1] == [e1] && [e1][..0] == [];
    assert Live([e1]) == map[index := Info(a, kind, flags)];
    assert Live([e1, e2]) == map[index := Info(a, kind, flags)];
    assert Live([e1, e2, e1]) == map[index := Info(a, kind, flags)];
    assert FiledUnder([e1]) == map[index := a];
    assert FiledUnder([e1, e2]) == map[index := b];
    assert FiledUnder([e1, e2, e1]) == map[index := b];
    assert Latest([e1]) == map[index := a];
    assert Latest([e1, e2]) == map[index := b];
  }

  /** A link renamed from `a` to `b` is not found as `b`, and found as `a` only by a clash of hashes. */
  lemma RenameIsForgotten(index: nat, a: Name, b: Name, kind: nat, flags: nat)
    requires a != b
    ensures var links := Run([NewLink(index, a, kind, flags), NewLink(index, b, kind, flags)]);
            && ByName(links, b) == None
            && (ByName(links, a).Some? <==> Bucket(a) == Bucket(b))
  {
    var e1, e2 := NewLink(index, a, kind, flags), NewLink(index, b, kind, flags);
    assert [e1, e2][..1] == [e1] && [e1][..0] == [];
    assert Run([e1]) == [Link(index, a, kind, flags, Bucket(a))];
    var l := Link(index, a, kind, flags, Bucket(b));
    assert Run([e1, e2]) == [l];
    assert [l][1..] == [];
  }
}
