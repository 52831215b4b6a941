/** The link cache as values: its entries, the order in which they were last filed by name,
    and the buckets of its two tables. */
module LinkTables {
  import opened Options
  import opened Addresses
  import opened Sequences
  import opened LinkRuns

  datatype LlCache = LlCache(flags: nat, index: nat, kind: nat, name: Name)

  type Entries = map<Ptr, LlCache>

  /** An entry in the name bucket it was last filed under. */
  datatype File = File(ptr: Ptr, bucket: nat)

  function BucketOf(f: File): nat { f.bucket }

  function Ptrs(fs: seq<File>): (r: seq<Ptr>)
    ensures |r| == |fs| && forall i :: 0 <= i < |fs| ==> r[i] == fs[i].ptr
  {
    seq(|fs|, i requires 0 <= i < |fs| => fs[i].ptr)
  }

  function LinkOf(e: LlCache, bucket: nat): Link {
    Link(e.index, e.name, e.kind, e.flags, bucket)
  }

  ghost predicate HasFile(files: seq<File>, p: Ptr) {
    exists i :: 0 <= i < |files| && files[i].ptr == p
  }

  /** Every entry is filed exactly once. */
  ghost predicate FilesOk(entries: Entries, files: seq<File>) {
    && (forall i :: 0 <= i < |files| ==> files[i].ptr in entries && files[i].bucket < BUCKETS)
    && (forall i, j :: 0 <= i < j < |files| ==> files[i].ptr != files[j].ptr)
    && (forall p {:trigger HasFile(files, p)} :: p in entries ==> HasFile(files, p))
  }

  ghost function LinksOf(entries: Entries, files: seq<File>): (r: seq<Link>)
    requires forall i :: 0 <= i < |files| ==> files[i].ptr in entries
    ensures |r| == |files|
    ensures forall i :: 0 <= i < |files| ==> r[i] == LinkOf(entries[files[i].ptr], files[i].bucket)
  {
    seq(|files|, i requires 0 <= i < |files| => LinkOf(entries[files[i].ptr], files[i].bucket))
  }

  ghost predicate InIndexBucket(entries: Entries, chains: seq<seq<Ptr>>, p: Ptr) {
    p in entries && entries[p].index % BUCKETS < |chains| && p in chains[entries[p].index % BUCKETS]
  }

  ghost predicate IndexOk(entries: Entries, chains: seq<seq<Ptr>>) {
    && |chains| == BUCKETS
    && forall p {:trigger InIndexBucket(entries, chains, p)} :: p in entries ==> InIndexBucket(entries, chains, p)
  }

  /** A name bucket holds its entries, latest filed first. */
  ghost predicate NameBucket(files: seq<File>, chains: seq<seq<Ptr>>, h: nat) {
    h < |chains| && chains[h] == Ptrs(OfKey(BucketOf, h, files))
  }

  ghost predicate NamesOk(files: seq<File>, chains: seq<seq<Ptr>>) {
    && |chains| == BUCKETS
    && forall h: nat {:trigger NameBucket(files, chains, h)} :: h < BUCKETS ==> NameBucket(files, chains, h)
  }

  ghost predicate ShortNames(entries: Entries) {
    forall p {:trigger entries[p].name} :: p in entries ==> |entries[p].name| < NAME_SIZE
  }

  ghost predicate CacheOk(entries: Entries, files: seq<File>, idx: seq<seq<Ptr>>, names: seq<seq<Ptr>>) {
    && FilesOk(entries, files)
    && DistinctIndices(LinksOf(entries, files))
    && IndexOk(entries, idx)
    && NamesOk(files, names)
    && ShortNames(entries)
  }

  // ----- name buckets -----

  lemma {:induction false} NamesPrepend(files: seq<File>, chains: seq<seq<Ptr>>, f: File)
    requires NamesOk(files, chains) && f.bucket < BUCKETS
    ensures NamesOk([f] + files, chains[f.bucket := [f.ptr] + chains[f.bucket]])
  {
    var files', chains' := [f] + files, chains[f.bucket := [f.ptr] + chains[f.bucket]];
    forall h: nat | h < BUCKETS ensures NameBucket(files', chains', h) {
      assert NameBucket(files, chains, h);
      OfKeyConcat(BucketOf, h, [f], files);
      OfKeySingle(BucketOf, h, f);
    }
  }

  /** Where in its name bucket the entry filed at position `i` is. */
  lemma {:induction false} NamePlace(files: seq<File>, chains: seq<seq<Ptr>>, i: nat, h: nat, r: nat)
    requires NamesOk(files, chains) && i < |files| && h < BUCKETS && r < |chains[h]| && chains[h][r] == files[i].ptr
    requires forall j, k :: 0 <= j < k < |files| ==> files[j].ptr != files[k].ptr
    ensures h == files[i].bucket && r == Rank(BucketOf, files, i)
  {
    assert NameBucket(files, chains, h);
    var j := OfKeyOrigin(BucketOf, h, files, r);
  }

  lemma {:induction false} NamesRemove(files: seq<File>, chains: seq<seq<Ptr>>, i: nat)
    requires NamesOk(files, chains) && i < |files| && files[i].bucket < BUCKETS
    ensures Rank(BucketOf, files, i) < |chains[files[i].bucket]|
    ensures NamesOk(RemoveAt(files, i),
                    chains[files[i].bucket := RemoveAt(chains[files[i].bucket], Rank(BucketOf, files, i))])
  {
    var b, r := files[i].bucket, Rank(BucketOf, files, i);
    OfKeyRemoveOwn(BucketOf, files, i);
    assert NameBucket(files, chains, b);
    var files', chains' := RemoveAt(files, i), chains[b := RemoveAt(chains[b], r)];
    forall h: nat | h < BUCKETS ensures NameBucket(files', chains', h) {
      assert NameBucket(files, chains, h);
      if h == b {
        assert Ptrs(RemoveAt(OfKey(BucketOf, b, files), r)) == RemoveAt(chains[b], r);
      } else {
        OfKeyRemoveOther(BucketOf, h, files, i);
      }
    }
  }

  // ----- filing -----

  lemma FilesPrepend(entries: Entries, files: seq<File>, p: Ptr, e: LlCache, b: nat)
    requires FilesOk(entries, files) && p !in entries && b < BUCKETS
    ensures FilesOk(entries[p := e], [File(p, b)] + files)
  {
    var entries', files' := entries[p := e], [File(p, b)] + files;
    forall q | q in entries' ensures HasFile(files', q) {
      if q == p {
        assert files'[0].ptr == q;
      } else {
        assert HasFile(files, q);
        var i :| 0 <= i < |files| && files[i].ptr == q;
        assert files'[i + 1].ptr == q;
      }
    }
  }

  lemma FilesWithout(entries: Entries, files: seq<File>, i: nat)
    requires FilesOk(entries, files) && i < |files|
    ensures FilesOk(entries - {files[i].ptr}, RemoveAt(files, i))
  {
    var p, files' := files[i].ptr, RemoveAt(files, i);
    forall q | q in entries && q != p ensures HasFile(files', q) {
      assert HasFile(files, q);
      var j :| 0 <= j < |files| && files[j].ptr == q;
      assert files'[if j < i then j else j - 1].ptr == q;
    }
  }

  lemma IndexAdd(entries: Entries, idx: seq<seq<Ptr>>, p: Ptr, e: LlCache)
    requires IndexOk(entries, idx) && p !in entries
    ensures IndexOk(entries[p := e], idx[e.index % BUCKETS := [p] + idx[e.index % BUCKETS]])
  {
    var entries', idx' := entries[p := e], idx[e.index % BUCKETS := [p] + idx[e.index % BUCKETS]];
    forall q | q in entries' ensures InIndexBucket(entries', idx', q) {
      if q != p { assert InIndexBucket(entries, idx, q); }
    }
  }

  lemma IndexRemove(entries: Entries, idx: seq<seq<Ptr>>, h: nat, r: nat)
    requires IndexOk(entries, idx) && h < BUCKETS && r < |idx[h]|
    ensures IndexOk(entries - {idx[h][r]}, idx[h := RemoveAt(idx[h], r)])
  {
    var p, s := idx[h][r], idx[h];
    var entries', idx' := entries - {p}, idx[h := RemoveAt(s, r)];
    forall q | q in entries' ensures InIndexBucket(entries', idx', q) {
      assert InIndexBucket(entries, idx, q);
      if entries[q].index % BUCKETS == h {
        StaysAfterRemove(s, r, q);
      }
    }
  }

  lemma IndexKept(entries: Entries, idx: seq<seq<Ptr>>, p: Ptr, e: LlCache)
    requires IndexOk(entries, idx) && p in entries && e.index == entries[p].index
    ensures IndexOk(entries[p := e], idx)
  {
    var entries' := entries[p := e];
    forall q | q in entries' ensures InIndexBucket(entries', idx, q) {
      assert InIndexBucket(entries, idx, q);
    }
  }

  lemma NamesKept(entries: Entries, p: Ptr, e: LlCache)
    requires ShortNames(entries) && |e.name| < NAME_SIZE
    ensures ShortNames(entries[p := e])
  {
    var entries' := entries[p := e];
    forall q | q in entries' ensures |entries'[q].name| < NAME_SIZE {
      if q != p { assert |entries[q].name| < NAME_SIZE; }
    }
  }

  // ----- events -----

  lemma Created(entries: Entries, files: seq<File>, idx: seq<seq<Ptr>>, names: seq<seq<Ptr>>, p: Ptr, e: LlCache)
    requires CacheOk(entries, files, idx, names) && p !in entries && |e.name| < NAME_SIZE
    requires Find(LinksOf(entries, files), e.index).None?
    ensures var h, b := e.index % BUCKETS, Bucket(e.name);
            CacheOk(entries[p := e], [File(p, b)] + files, idx[h := [p] + idx[h]], names[b := [p] + names[b]])
    ensures LinksOf(entries[p := e], [File(p, Bucket(e.name))] + files)
            == Remember(LinksOf(entries, files), NewLink(e.index, e.name, e.kind, e.flags))
  {
    var b, links := Bucket(e.name), LinksOf(entries, files);
    FilesPrepend(entries, files, p, e, b);
    assert LinksOf(entries[p := e], [File(p, b)] + files) == [LinkOf(e, b)] + links;
    RememberDistinct(links, NewLink(e.index, e.name, e.kind, e.flags));
    IndexAdd(entries, idx, p, e);
    NamesPrepend(files, names, File(p, b));
    NamesKept(entries, p, e);
  }

  lemma Deleted(entries: Entries, files: seq<File>, idx: seq<seq<Ptr>>, names: seq<seq<Ptr>>, i: nat, h: nat, r: nat)
    requires CacheOk(entries, files, idx, names) && i < |files|
    requires h < BUCKETS && r < |idx[h]| && idx[h][r] == files[i].ptr
    ensures var b, k := files[i].bucket, Rank(BucketOf, files, i);
            && k < |names[b]|
            && CacheOk(entries - {files[i].ptr}, RemoveAt(files, i), idx[h := RemoveAt(idx[h], r)],
                       names[b := RemoveAt(names[b], k)])
    ensures LinksOf(entries - {files[i].ptr}, RemoveAt(files, i))
            == Remember(LinksOf(entries, files), DelLink(entries[files[i].ptr].index))
  {
    var p, links := files[i].ptr, LinksOf(entries, files);
    FilesWithout(entries, files, i);
    FindUnique(links, i);
    assert LinksOf(entries - {p}, RemoveAt(files, i)) == RemoveAt(links, i);
    RememberDistinct(links, DelLink(entries[p].index));
    IndexRemove(entries, idx, h, r);
    NamesRemove(files, names, i);
    forall q | q in entries - {p} ensures |(entries - {p})[q].name| < NAME_SIZE {
      assert |entries[q].name| < NAME_SIZE;
    }
  }

  lemma Renamed(entries: Entries, files: seq<File>, idx: seq<seq<Ptr>>, names: seq<seq<Ptr>>, i: nat, name: Name,
                kind: nat, flags: nat)
    requires CacheOk(entries, files, idx, names) && i < |files| && entries[files[i].ptr].name != name
    ensures var p, b, k := files[i].ptr, files[i].bucket, Rank(BucketOf, files, i);
            && k < |names[b]|
            && var names1, c := names[b := RemoveAt(names[b], k)], Bucket(name);
               CacheOk(entries[p := entries[p].(flags := flags)], [File(p, c)] + RemoveAt(files, i), idx,
                       names1[c := [p] + names1[c]])
    ensures var p := files[i].ptr;
            LinksOf(entries[p := entries[p].(flags := flags)], [File(p, Bucket(name))] + RemoveAt(files, i))
            == Remember(LinksOf(entries, files), NewLink(entries[p].index, name, kind, flags))
  {
    var p, links := files[i].ptr, LinksOf(entries, files);
    var e, ev := entries[p].(flags := flags), NewLink(entries[p].index, name, kind, flags);
    FilesWithout(entries, files, i);
    FilesPrepend(entries - {p}, RemoveAt(files, i), p, e, Bucket(name));
    assert (entries - {p})[p := e] == entries[p := e];
    FindUnique(links, i);
    assert LinksOf(entries[p := e], [File(p, Bucket(name))] + RemoveAt(files, i))
           == [links[i].(bucket := Bucket(name), flags := flags)] + RemoveAt(links, i);
    RememberDistinct(links, ev);
    IndexKept(entries, idx, p, e);
    NamesRemove(files, names, i);
    NamesPrepend(RemoveAt(files, i),
                 names[files[i].bucket := RemoveAt(names[files[i].bucket], Rank(BucketOf, files, i))],
                 File(p, Bucket(name)));
    assert |entries[p].name| < NAME_SIZE;
    NamesKept(entries, p, e);
  }

  lemma Reflagged(entries: Entries, files: seq<File>, idx: seq<seq<Ptr>>, names: seq<seq<Ptr>>, i: nat, kind: nat,
                  flags: nat)
    requires CacheOk(entries, files, idx, names) && i < |files|
    ensures var p := files[i].ptr;
            && CacheOk(entries[p := entries[p].(flags := flags)], files, idx, names)
            && LinksOf(entries[p := entries[p].(flags := flags)], files)
               == Remember(LinksOf(entries, files), NewLink(entries[p].index, entries[p].name, kind, flags))
  {
    var p, links := files[i].ptr, LinksOf(entries, files);
    var e, ev := entries[p].(flags := flags), NewLink(entries[p].index, entries[p].name, kind, flags);
    FindUnique(links, i);
    assert LinksOf(entries[p := e], files) == links[i := links[i].(flags := flags)];
    RememberDistinct(links, ev);
    IndexKept(entries, idx, p, e);
    assert |entries[p].name| < NAME_SIZE;
    NamesKept(entries, p, e);
    forall q | q in entries[p := e] ensures HasFile(files, q) { }
  }

  // ----- lookups -----

  /** A bucket searched to its end without a hit means there is no such index. */
  lemma NotIndexed(entries: Entries, files: seq<File>, idx: seq<seq<Ptr>>, names: seq<seq<Ptr>>, index: nat)
    requires CacheOk(entries, files, idx, names)
    requires var s := idx[index % BUCKETS]; forall j :: 0 <= j < |s| ==> s[j] in entries && entries[s[j]].index != index
    ensures Find(LinksOf(entries, files), index).None?
  {
    forall i | 0 <= i < |files| ensures LinksOf(entries, files)[i].index != index {
      assert InIndexBucket(entries, idx, files[i].ptr);
    }
  }

  /** The first entry of the right name in its bucket is what lookup by name finds. */
  lemma {:induction false} FirstInBucket(entries: Entries, files: seq<File>, idx: seq<seq<Ptr>>, names: seq<seq<Ptr>>,
                                         name: Name, r: nat) returns (i: nat)
    requires CacheOk(entries, files, idx, names)
    requires var s := names[Bucket(name)];
             && r < |s| && s[r] in entries && entries[s[r]].name == name
             && forall j :: 0 <= j < r ==> s[j] in entries && entries[s[j]].name != name
    ensures i < |files| && files[i].ptr == names[Bucket(name)][r]
    ensures ByName(LinksOf(entries, files), name) == Some(LinksOf(entries, files)[i])
  {
    var h, links := Bucket(name), LinksOf(entries, files);
    assert NameBucket(files, names, h);
    i := OfKeyOrigin(BucketOf, h, files, r);
    var at := ByNameMeaning(links, name);
    if at < i {
      RankMonotone(BucketOf, files, at, i);
      OfKeyRemoveOwn(BucketOf, files, at);
    }
  }

  lemma {:induction false} NotNamed(entries: Entries, files: seq<File>, idx: seq<seq<Ptr>>, names: seq<seq<Ptr>>,
                                    name: Name)
    requires CacheOk(entries, files, idx, names)
    requires var s := names[Bucket(name)]; forall j :: 0 <= j < |s| ==> s[j] in entries && entries[s[j]].name != name
    ensures ByName(LinksOf(entries, files), name).None?
  {
    var h := Bucket(name);
    assert NameBucket(files, names, h);
    var at := ByNameMeaning(LinksOf(entries, files), name);
    if ByName(LinksOf(entries, files), name).Some? {
      OfKeyRemoveOwn(BucketOf, files, at);
    }
  }

  lemma EmptyCache(idx: seq<seq<Ptr>>, names: seq<seq<Ptr>>)
    requires |idx| == |names| == BUCKETS && forall h :: 0 <= h < BUCKETS ==> names[h] == []
    ensures CacheOk(map[], [], idx, names)
  {
    forall h: nat | h < BUCKETS ensures NameBucket([], names, h) {
      assert Ptrs(OfKey(BucketOf, h, [])) == [];
    }
  }
}
