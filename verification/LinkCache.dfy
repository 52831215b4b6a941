/** The link cache: one entry for each live interface, found by index and by name. */
module LinkCache {
  import opened Options
  import opened Addresses
  import opened Sequences
  import opened CStrings
  import opened LinkRuns
  import opened Hlists
  import opened LinkTables

  const RTM_NEWLINK := 16
  const RTM_DELLINK := 17

  /** The length below which a message is refused: a header and a pointer. The source takes the size of its pointer to
      the interface message here, and not that of the message. */
  const MIN_LENGTH := 24

  /** The fields of a netlink message the cache looks at. */
  datatype Message = Message(kind: nat, len: nat, index: nat, ifname: Name, ifiType: nat, ifiFlags: nat)

  /** The event a message means, if any. */
  function EventOf(m: Message): Option<Event> {
    if m.len < MIN_LENGTH then None
    else if m.kind == RTM_NEWLINK then Some(NewLink(m.index, m.ifname, m.ifiType, m.ifiFlags))
    else if m.kind == RTM_DELLINK then Some(DelLink(m.index))
    else None
  }

  /** The events that a sequence of messages means. */
  function Events(ms: seq<Message>): seq<Event> {
    if ms == [] then []
    else
      var front, last := Events(ms[..|ms| - 1]), EventOf(ms[|ms| - 1]);
      if last.None? then front else front + [last.value]
  }

  /** What the links become when a message comes in. */
  function After(links: seq<Link>, m: Message): seq<Link> {
    match EventOf(m) case None => links case Some(ev) => Remember(links, ev)
  }

  /** What a call comes to: it returns, or writes past the end of a name. */
  datatype Outcome = Returned(status: int) | Overrun

  /** The message announces a link that is not known yet under a name that does not fit. */
  predicate TooLong(links: seq<Link>, m: Message) {
    m.kind == RTM_NEWLINK && m.len >= MIN_LENGTH && Find(links, m.index).None? && |m.ifname| >= NAME_SIZE
  }

  method NameHash(str: Name) returns (hash: nat)
    ensures hash == Polynomial(str) % WORD
  {
    hash := 5381;
    var i := 0;
    while i < |str|
      invariant i <= |str| && hash == Polynomial(str[..i]) % WORD
    {
      assert str[..i + 1][..i] == str[..i];
      WrapStep(Polynomial(str[..i]), hash, SignedByte(str[i]));
      hash := ((hash * 32 % WORD + hash) % WORD + SignedByte(str[i])) % WORD;
      i := i + 1;
    }
    assert str[..|str|] == str;
  }

  lemma EventsMore(ms: seq<Message>, i: nat)
    requires i < |ms|
    ensures Run(Events(ms[..i + 1])) == After(Run(Events(ms[..i])), ms[i])
  {
    assert ms[..i + 1][..i] == ms[..i];
    if EventOf(ms[i]).Some? {
      RunMore(Events(ms[..i]), EventOf(ms[i]).value);
    }
  }

  // ----- what the messages say of an index -----

  predicate Announces(m: Message, index: nat) { m.kind == 16 && m.len >= 24 && m.index == index }

  predicate Deletes(m: Message, index: nat) { m.kind == 17 && m.len >= 24 && m.index == index }

  /** The message at `i` is followed by one that deletes the index. */
  predicate Undone(ms: seq<Message>, index: nat, i: nat) {
    exists j :: i < j < |ms| && Deletes(ms[j], index)
  }

  /** The message at `a` is the first to announce the index since it was last deleted. */
  predicate FirstSince(ms: seq<Message>, index: nat, a: nat) {
    && a < |ms| && Announces(ms[a], index) && !Undone(ms, index, a)
    && forall i: nat | i < a && Announces(ms[i], index) :: Undone(ms[..a], index, i)
  }

  /** The message at `b` is the last that speaks of the index, and announces it. */
  predicate LatestOf(ms: seq<Message>, index: nat, b: nat) {
    && b < |ms| && Announces(ms[b], index)
    && forall j | b < j < |ms| :: !Announces(ms[j], index) && !Deletes(ms[j], index)
  }

  /** An index is known unless every message that announced it is followed by one that deletes it. Name and type are
      those of the first message to announce it since, and the flags those of the latest. */
  ghost predicate Known(ms: seq<Message>, index: nat, info: Option<Info>) {
    match info
    case None => forall i: nat | i < |ms| && Announces(ms[i], index) :: Undone(ms, index, i)
    case Some(Info(name, kind, flags)) =>
      exists a: nat, b: nat | FirstSince(ms, index, a) && LatestOf(ms, index, b) ::
        name == ms[a].ifname && kind == ms[a].ifiType && flags == ms[b].ifiFlags
  }

  lemma UndoneMore(ms: seq<Message>, m: Message, index: nat, i: nat)
    requires i < |ms|
    ensures Undone(ms + [m], index, i) <==> Undone(ms, index, i) || Deletes(m, index)
  {
    var more := ms + [m];
    assert more[|ms|] == m;
    if Undone(ms, index, i) {
      var j :| i < j < |ms| && Deletes(ms[j], index);
      assert Deletes(more[j], index);
    }
    if Undone(more, index, i) && !Deletes(m, index) {
      var j :| i < j < |more| && Deletes(more[j], index);
      assert Deletes(ms[j], index);
    }
  }

  lemma FirstSinceMore(ms: seq<Message>, m: Message, index: nat, a: nat)
    requires FirstSince(ms, index, a) && !Deletes(m, index)
    ensures FirstSince(ms + [m], index, a)
  {
    UndoneMore(ms, m, index, a);
    assert (ms + [m])[..a] == ms[..a];
  }

  /** One more message that does not delete the index. */
  lemma KnownMore(ms: seq<Message>, m: Message, index: nat, info: Info)
    requires Known(ms, index, Some(info)) && !Deletes(m, index)
    ensures Known(ms + [m], index, Some(if Announces(m, index) then info.(flags := m.ifiFlags) else info))
  {
    var more := ms + [m];
    var a: nat, b: nat :| FirstSince(ms, index, a) && LatestOf(ms, index, b) &&
      info.name == ms[a].ifname && info.kind == ms[a].ifiType && info.flags == ms[b].ifiFlags;
    FirstSinceMore(ms, m, index, a);
    assert LatestOf(more, index, if Announces(m, index) then |ms| else b);
  }

  lemma KnownFirst(ms: seq<Message>, m: Message, index: nat)
    requires Known(ms, index, None) && Announces(m, index)
    ensures Known(ms + [m], index, Some(Info(m.ifname, m.ifiType, m.ifiFlags)))
  {
    var more := ms + [m];
    assert more[..|ms|] == ms;
    assert FirstSince(more, index, |ms|) && LatestOf(more, index, |ms|);
  }

  lemma Unknown(ms: seq<Message>, m: Message, index: nat)
    requires Deletes(m, index) || (Known(ms, index, None) && !Announces(m, index))
    ensures Known(ms + [m], index, None)
  {
    var more := ms + [m];
    forall i: nat | i < |more| && Announces(more[i], index) ensures Undone(more, index, i) {
      UndoneMore(ms, m, index, i);
    }
  }

  /** After any messages, an index is known as they say. */
  lemma {:induction false} KnownAfter(ms: seq<Message>, index: nat)
    ensures Known(ms, index, Lookup(Live(Events(ms)), index))
  {
    if ms != [] {
      var front, m := ms[..|ms| - 1], ms[|ms| - 1];
      assert ms == front + [m];
      KnownAfter(front, index);
      LiveMore(front, m, index);
      var known := Lookup(Live(Events(front)), index);
      if Deletes(m, index) || (known.None? && !Announces(m, index)) {
        Unknown(front, m, index);
      } else if known.None? {
        KnownFirst(front, m, index);
      } else {
        KnownMore(front, m, index, known.value);
      }
    }
  }

  /** The message at `i` announces an index that is not known then, under a name of 16 bytes or more. */
  ghost predicate OverrunAt(ms: seq<Message>, i: nat)
    requires i < |ms|
  {
    Announces(ms[i], ms[i].index) && |ms[i].ifname| >= 16 && Known(ms[..i], ms[i].index, None)
  }

  lemma NotBoth(ms: seq<Message>, index: nat, info: Info)
    requires Known(ms, index, Some(info))
    ensures !Known(ms, index, None)
  {
  }

  lemma OverrunIff(ms: seq<Message>, i: nat)
    requires i < |ms|
    ensures TooLong(Run(Events(ms[..i])), ms[i]) <==> OverrunAt(ms, i)
  {
    var index := ms[i].index;
    ByIndexIsMap(Events(ms[..i]), index);
    KnownAfter(ms[..i], index);
    var info := Lookup(Live(Events(ms[..i])), index);
    if info.Some? {
      NotBoth(ms[..i], index, info.value);
    }
  }

  /** None of the first `n` messages writes past the end of a name. */
  ghost predicate NoOverrun(ms: seq<Message>, n: nat)
    requires n <= |ms|
  {
    forall i: nat | i < n :: !OverrunAt(ms, i)
  }

  /** The links are what the messages say of every index. */
  ghost predicate AllKnown(ms: seq<Message>, links: seq<Link>) {
    forall index :: Known(ms, index, InfoOf(ByIndex(links, index)))
  }

  lemma RunKnown(ms: seq<Message>)
    ensures AllKnown(ms, Run(Events(ms)))
  {
    forall index: nat ensures Known(ms, index, InfoOf(ByIndex(Run(Events(ms)), index))) {
      ByIndexIsMap(Events(ms), index);
      KnownAfter(ms, index);
    }
  }

  lemma LiveMore(ms: seq<Message>, m: Message, index: nat)
    ensures var known := Lookup(Live(Events(ms)), index);
            Lookup(Live(Events(ms + [m])), index) ==
            if Deletes(m, index) then None
            else if !Announces(m, index) then known
            else if known.None? then Some(Info(m.ifname, m.ifiType, m.ifiFlags))
            else Some(known.value.(flags := m.ifiFlags))
  {
    assert (ms + [m])[..|ms|] == ms;
    if EventOf(m).Some? {
      assert (Events(ms) + [EventOf(m).value])[..|Events(ms)|] == Events(ms);
    }
  }

  class Cache {
    var entries: Entries
    const idx: Hlist
    const names: Hlist
    ghost var files: seq<File>

    ghost predicate Valid()
      reads this, idx, names
    {
      && idx != names
      && idx.Valid() && names.Valid()
      && idx.nodes.Keys == entries.Keys == names.nodes.Keys
      && CacheOk(entries, files, idx.chains, names.chains)
    }

    constructor ()
      ensures Valid() && Links() == [] && fresh(idx) && fresh(names)
    {
      entries, files := map[], [];
      idx := new Hlist(BUCKETS);
      names := new Hlist(BUCKETS);
      new;
      EmptyCache(idx.chains, names.chains);
    }

    /** What the cache holds, latest filed first. */
    ghost function Links(): seq<Link>
      reads this, idx, names
      requires Valid()
    {
      LinksOf(entries, files)
    }

    method GetByIndex(index: nat) returns (im: Option<Ptr>, ghost at: nat)
      requires Valid()
      ensures im.None? ==> Find(Links(), index).None?
      ensures im.Some? ==> Find(Links(), index) == Some(at) && at < |files| && files[at].ptr == im.value
    {
      at := 0;
      var h := index % BUCKETS;
      ghost var s := idx.chains[h];
      assert ChainAt(idx.heads, idx.nodes, idx.chains, h);
      var n := idx.heads[h];
      ghost var i := 0;
      while n.Some?
        invariant i <= |s| && n == PtrAt(s, i)
        invariant forall j :: 0 <= j < i ==> s[j] in entries && entries[s[j]].index != index
        decreases |s| - i
      {
        assert n.value == s[i] && s[i] in idx.nodes.Keys;
        if entries[n.value].index == index {
          assert HasFile(files, n.value);
          at :| 0 <= at < |files| && files[at].ptr == n.value;
          FindUnique(Links(), at);
          return Some(n.value), at;
        }
        n := idx.nodes[n.value].next;
        i := i + 1;
      }
      im := None;
      NotIndexed(entries, files, idx.chains, names.chains, index);
    }

    method GetByName(name: Name) returns (im: Option<Ptr>)
      requires Valid()
      ensures im.None? ==> ByName(Links(), name).None?
      ensures im.Some? ==> im.value in entries
                           && exists b :: ByName(Links(), name) == Some(LinkOf(entries[im.value], b))
    {
      var hash := NameHash(name);
      HashIsPolynomial(name);
      var h := hash % BUCKETS;
      ghost var s := names.chains[h];
      assert ChainAt(names.heads, names.nodes, names.chains, h);
      var n := names.heads[h];
      ghost var i := 0;
      while n.Some?
        invariant i <= |s| && n == PtrAt(s, i)
        invariant forall j :: 0 <= j < i ==> s[j] in entries && entries[s[j]].name != name
        decreases |s| - i
      {
        assert n.value == s[i] && s[i] in names.nodes.Keys;
        assert |entries[n.value].name| < NAME_SIZE;
        ShortNameCompare(entries[n.value].name, name, NAME_SIZE);
        if SamePrefix(entries[n.value].name, name, NAME_SIZE) {
          ghost var at := FirstInBucket(entries, files, idx.chains, names.chains, name, i);
          return Some(n.value);
        }
        n := names.nodes[n.value].next;
        i := i + 1;
      }
      im := None;
      NotNamed(entries, files, idx.chains, names.chains, name);
    }

    /** Takes in one message: nothing for other kinds, an error for short ones. */
    method RememberIndex(m: Message) returns (o: Outcome)
      requires Valid()
      modifies this, idx, names
      ensures Valid()
      ensures o.Overrun? <==> TooLong(old(Links()), m)
      ensures o.Returned? ==>
                && Links() == After(old(Links()), m)
                && o.status == if m.kind in {RTM_NEWLINK, RTM_DELLINK} && m.len < MIN_LENGTH then -1 else 0
    {
      o := Returned(0);
      if m.kind != RTM_NEWLINK && m.kind != RTM_DELLINK {
        return;
      }
      if m.len < MIN_LENGTH {
        return Returned(-1);
      }
      var im: Option<Ptr>;
      ghost var at: nat;
      im, at := GetByIndex(m.index);
      if m.kind == RTM_DELLINK {
        if im.Some? {
          Forget(im.value, at);
        }
        return;
      }
      if im.Some? {
        if entries[im.value].name != m.ifname {
          Refile(im.value, at, m.ifname, m.ifiType, m.ifiFlags);
        } else {
          Reflagged(entries, files, idx.chains, names.chains, at, m.ifiType, m.ifiFlags);
          entries := entries[im.value := entries[im.value].(flags := m.ifiFlags)];
        }
        return;
      }
      if |m.ifname| >= NAME_SIZE {
        return Overrun;
      }
      Create(m.index, m.ifname, m.ifiType, m.ifiFlags);
    }

    /** Takes in any messages, from an empty cache on: it then holds what the run of their events makes of it. */
    method RememberAll(ms: seq<Message>) returns (ok: bool)
      requires Valid() && Links() == []
      modifies this, idx, names
      ensures Valid()
      ensures ok ==> Links() == Run(Events(ms))
      ensures ok ==> AllKnown(ms, Links())
      ensures ok <==> NoOverrun(ms, |ms|)
    {
      for i := 0 to |ms|
        invariant Valid() && Links() == Run(Events(ms[..i]))
        invariant NoOverrun(ms, i)
      {
        EventsMore(ms, i);
        OverrunIff(ms, i);
        var o := RememberIndex(ms[i]);
        if o.Overrun? {
          return false;
        }
      }
      assert ms[..|ms|] == ms;
      RunKnown(ms);
      ok := true;
    }

    /** Takes an entry out of both tables and frees it. */
    method Forget(im: Ptr, ghost at: nat)
      requires Valid() && at < |files| && files[at].ptr == im
      modifies this, idx, names
      ensures Valid() && Links() == Remember(old(Links()), DelLink(old(entries[im].index)))
    {
      ghost var h, r := names.Del(im);
      NamePlace(files, old(names.chains), at, h, r);
      ghost var h', r' := idx.Del(im);
      Deleted(entries, files, old(idx.chains), old(names.chains), at, h', r');
      entries := entries - {im};
      files := RemoveAt(files, at);
    }

    /** Moves an entry to the bucket of its new name, and sets its flags; its name stays. */
    method Refile(im: Ptr, ghost at: nat, ifname: Name, kind: nat, flags: nat)
      requires Valid() && at < |files| && files[at].ptr == im && entries[im].name != ifname
      modifies this, names
      ensures Valid() && Links() == Remember(old(Links()), NewLink(old(entries[im].index), ifname, kind, flags))
    {
      ghost var h, r := names.Del(im);
      NamePlace(files, old(names.chains), at, h, r);
      var hash := NameHash(ifname);
      HashIsPolynomial(ifname);
      names.AddHead(im, hash % BUCKETS);
      Renamed(entries, files, idx.chains, old(names.chains), at, ifname, kind, flags);
      entries := entries[im := entries[im].(flags := flags)];
      files := [File(im, Bucket(ifname))] + RemoveAt(files, at);
    }

    method Create(index: nat, ifname: Name, kind: nat, flags: nat)
      requires Valid() && Find(Links(), index).None? && |ifname| < NAME_SIZE
      modifies this, idx, names
      ensures Valid() && Links() == Remember(old(Links()), NewLink(index, ifname, kind, flags))
    {
      var im := FreshPtr(entries.Keys);
      var e := LlCache(flags, index, kind, ifname);
      idx.AddHead(im, index % BUCKETS);
      var hash := NameHash(ifname);
      HashIsPolynomial(ifname);
      names.AddHead(im, hash % BUCKETS);
      Created(entries, files, old(idx.chains), old(names.chains), im, e);
      entries := entries[im := e];
      files := [File(im, Bucket(ifname))] + files;
    }
  }
}
