/** The stored-hash duplicate report: keeper ranking, grouping, batched flushing, rebuilding (`dedup_service.py`). */
module DedupBuild {
  import opened Lists
  import opened PosixPaths
  import opened Ordering
  import opened Grouping
  import opened LikePaths
  import Like

  datatype Entry = Entry(
    id: int, host: int, volume: int, path: string, size: nat, mtime: real, ctime: real,
    fullHash: Option<string>, fsType: string, present: bool, isDir: bool)

  datatype DedupScope = DedupScope(
    volumeIds: set<int>,
    pathPrefix: Option<string>,
    pathPrefixVolume: Option<int>,
    preferredVolumes: set<int>,
    preferredPrefixes: seq<string>)

  datatype Reason = OldestCopy | OldestPreferred | OldestPreferredShortest | ShortestPath
  datatype KeeperChoice = KeeperChoice(entry: int, reason: Reason)

  datatype DupMember = DupMember(entry: int, host: int, volume: int, path: string, isMountAlias: bool)
  datatype DupGroup = DupGroup(
    fullHash: Option<string>, size: nat, reclaimable: nat, scope: DedupScope, job: Option<string>,
    keeper: KeeperChoice, members: seq<DupMember>)

  /** Which filesystem types are network mounts, and how the database compares path characters. */
  datatype Site = Site(network: string -> bool, same: Compare)

  // ---------------------------------------------------------------- which rows are grouped

  predicate Subtree(same: Compare, prefix: string, path: string)
  {
    path == prefix || Like.Matches(same, Like.EscapeLike(RStrip(prefix)) + "/%", path)
  }

  predicate InScope(same: Compare, scope: DedupScope, e: Entry)
  {
    && e.fullHash.Some? && e.present && !e.isDir
    && (scope.volumeIds == {} || e.volume in scope.volumeIds)
    && (scope.pathPrefix.Some? && scope.pathPrefixVolume.Some? ==>
          e.volume == scope.pathPrefixVolume.value && Subtree(same, scope.pathPrefix.value, e.path))
  }

  function ScopeOf(same: Compare, scope: DedupScope): Entry -> bool { (e: Entry) => InScope(same, scope, e) }

  function Loaded(same: Compare, scope: DedupScope, entries: seq<Entry>): seq<Entry>
  {
    Class(entries, ScopeOf(same, scope), true)
  }

  /** For real directories and any comparison of characters, the prefix filter keeps the directory itself and what lies
      beneath a directory that compares equal to it; with exact comparison that is the subtree. */
  lemma {:induction false} PrefixIsSubtree(same: Compare, ds: seq<string>, ps: seq<string>)
    requires PathLike(same) && ValidNames(ds) && ValidNames(ps) && ps != []
    ensures Subtree(same, Render(ds), Render(ps))
       <==> ps == ds || (|ds| < |ps| && Alike(same, Render(ds), Render(ps[..|ds|])))
    ensures Subtree(Like.Equal, Render(ds), Render(ps)) <==> ds <= ps
  {
    BelowPattern(same, ds, ps);
    if |ds| < |ps| { AlikeBelow(same, ds, ps[..|ds|]); }
    if Render(ps) == Render(ds) { RenderInjective(ps, ds); }
    Like.SubtreePattern(RStrip(Render(ds)), Render(ps));
    StartsBelow(ds, ps);
    assert ds <= ps <==> ds < ps || ds == ps;
  }

  /** Which rows a build groups: hashed, present files, on one of the scope's volumes if it names any, and under its
      prefix on the prefix's volume if it has both; each as often as it is listed. */
  lemma {:induction false} LoadedRows(same: Compare, scope: DedupScope, entries: seq<Entry>, e: Entry)
    ensures multiset(Loaded(same, scope, entries))[e]
            == if e.fullHash != None && e.present && !e.isDir
                  && (scope.volumeIds != {} ==> e.volume in scope.volumeIds)
                  && (scope.pathPrefix != None && scope.pathPrefixVolume != None ==>
                        scope.pathPrefixVolume == Some(e.volume) && Subtree(same, scope.pathPrefix.value, e.path))
               then multiset(entries)[e] else 0
  {
    ClassCount(entries, ScopeOf(same, scope), true, e);
  }

  // ---------------------------------------------------------------- the keeper rule

  function Oldest(e: Entry): real { if e.ctime < e.mtime then e.ctime else e.mtime }

  function Earliest(members: seq<Entry>): real
    requires members != []
  {
    var t := Oldest(members[|members| - 1]);
    if |members| == 1 then t
    else var u := Earliest(members[..|members| - 1]); if t < u then t else u
  }

  predicate Preferred(scope: DedupScope, e: Entry)
  {
    e.volume in scope.preferredVolumes
    || exists i :: 0 <= i < |scope.preferredPrefixes| && StartsWith(e.path, scope.preferredPrefixes[i])
  }

  function NativeOf(site: Site): Entry -> bool { (e: Entry) => !site.network(e.fsType) }
  function OldestOf(): Entry -> real { (e: Entry) => Oldest(e) }
  function PreferredOf(scope: DedupScope): Entry -> bool { (e: Entry) => Preferred(scope, e) }
  function LengthRank(): Entry -> seq<int> { (e: Entry) => [CountSlash(e.path), |e.path|] + Codes(e.path) }

  function Candidates(site: Site, members: seq<Entry>): (r: seq<Entry>)
    ensures members != [] ==> r != []
  {
    var native := Class(members, NativeOf(site), true);
    if native != [] then native else members
  }

  function OldestCopies(site: Site, members: seq<Entry>): seq<Entry>
    requires members != []
  {
    var candidates := Candidates(site, members);
    Class(candidates, OldestOf(), Earliest(candidates))
  }

  function Pool(site: Site, members: seq<Entry>, scope: DedupScope): seq<Entry>
    requires members != []
  {
    var oldest := OldestCopies(site, members);
    var preferred := Class(oldest, PreferredOf(scope), true);
    if preferred != [] then preferred else oldest
  }

  ghost predicate IsEarliest(members: seq<Entry>, t: real)
  {
    && (forall e :: e in members ==> t <= Oldest(e))
    && exists e :: e in members && Oldest(e) == t
  }

  lemma {:induction false} EarliestOfMore(members: seq<Entry>, t: real, last: Entry)
    requires IsEarliest(members, t)
    ensures IsEarliest(members + [last], if Oldest(last) < t then Oldest(last) else t)
  {
    var more := members + [last];
    assert more[|members|] == last && last in more;
    var e :| e in members && Oldest(e) == t;
    assert e in more;
  }

  lemma {:induction false} EarliestIsLeast(members: seq<Entry>)
    requires members != []
    ensures IsEarliest(members, Earliest(members))
  {
    var init, last := members[..|members| - 1], members[|members| - 1];
    assert members == init + [last];
    if |members| == 1 {
      assert last in members;
    } else {
      EarliestIsLeast(init);
      EarliestOfMore(init, Earliest(init), last);
    }
  }

  lemma {:induction false} PoolMembers(site: Site, members: seq<Entry>, scope: DedupScope)
    requires members != []
    ensures forall e :: e in OldestCopies(site, members) <==>
              e in Candidates(site, members) && Oldest(e) == Earliest(Candidates(site, members))
    ensures OldestCopies(site, members) != [] && Pool(site, members, scope) != []
    ensures forall e :: e in Pool(site, members, scope) <==>
              && e in OldestCopies(site, members)
              && (Preferred(scope, e) || forall d :: d in OldestCopies(site, members) ==> !Preferred(scope, d))
  {
    var candidates := Candidates(site, members);
    EarliestIsLeast(candidates);
    ClassMembers(candidates, OldestOf(), Earliest(candidates));
    var oldest := OldestCopies(site, members);
    ClassMembers(oldest, PreferredOf(scope), true);
    var preferred := Class(oldest, PreferredOf(scope), true);
    if preferred != [] { assert preferred[0] in preferred; }
    assert forall d :: d in oldest && Preferred(scope, d) ==> d in preferred;
  }

  method Filter<T>(s: seq<T>, keep: T -> bool) returns (r: seq<T>)
    ensures r == Class(s, keep, true)
  {
    r := [];
    for i := 0 to |s|
      invariant r == Class(s[..i], keep, true)
    {
      assert s[..i + 1][..i] == s[..i];
      if keep(s[i]) { r := r + [s[i]]; }
    }
    assert s[..|s|] == s;
  }

  lemma {:induction false} SameFilter(s: seq<Entry>, t: real)
    ensures Class(s, (e: Entry) => Oldest(e) == t, true) == Class(s, OldestOf(), t)
  {
    if s != [] { SameFilter(s[..|s| - 1], t); }
  }

  /** The keeper: the first of the pool in (slashes, length, path); the reason names what decided. */
  function Keeper(site: Site, members: seq<Entry>, scope: DedupScope): Entry
    requires members != []
  {
    PoolMembers(site, members, scope);
    FirstMin(Pool(site, members, scope), LengthRank())
  }

  function Choice(site: Site, members: seq<Entry>, scope: DedupScope): KeeperChoice
    requires members != []
  {
    var oldest, pool := OldestCopies(site, members), Pool(site, members, scope);
    var anyPreferred := exists e :: e in oldest && Preferred(scope, e);
    KeeperChoice(Keeper(site, members, scope).id,
      if |oldest| == 1 then OldestCopy
      else if !anyPreferred then ShortestPath
      else if |pool| == 1 then OldestPreferred
      else OldestPreferredShortest)
  }

  method EarliestOf(members: seq<Entry>) returns (t: real)
    requires members != []
    ensures t == Earliest(members)
  {
    t := Oldest(members[0]);
    assert members[..1] == [members[0]];
    for i := 1 to |members|
      invariant t == Earliest(members[..i])
    {
      assert members[..i + 1][..i] == members[..i];
      if Oldest(members[i]) < t { t := Oldest(members[i]); }
    }
    assert members[..|members|] == members;
  }

  lemma {:induction false} AnyPreferred(members: seq<Entry>, scope: DedupScope)
    ensures Class(members, PreferredOf(scope), true) != [] <==> exists e :: e in members && Preferred(scope, e)
  {
    ClassMembers(members, PreferredOf(scope), true);
    var preferred := Class(members, PreferredOf(scope), true);
    if preferred != [] { assert preferred[0] in preferred; }
    if e :| e in members && Preferred(scope, e) { assert e in preferred; }
  }

  /** The default keeper rule, branch for branch. */
  method RankKeeper(site: Site, members: seq<Entry>, scope: DedupScope) returns (choice: KeeperChoice)
    requires members != []
    ensures choice == Choice(site, members, scope)
  {
    PoolMembers(site, members, scope);
    var native := Filter(members, NativeOf(site));
    var candidates := if native != [] then native else members;
    var oldestTs := EarliestOf(candidates);
    var oldest := Filter(candidates, (e: Entry) => Oldest(e) == oldestTs);
    SameFilter(candidates, oldestTs);
    if |oldest| == 1 {
      OneOldest(site, members, scope);
      return KeeperChoice(oldest[0].id, OldestCopy);
    }
    var preferred := Filter(oldest, PreferredOf(scope));
    AnyPreferred(oldest, scope);
    var pool := if preferred != [] then preferred else oldest;
    var chosen := FirstMin(pool, LengthRank());
    var reason :=
      if |pool| > 1 then if preferred != [] then OldestPreferredShortest else ShortestPath
      else if preferred != [] then OldestPreferred
      else OldestCopy;
    return KeeperChoice(chosen.id, reason);
  }

  lemma {:induction false} OneOldest(site: Site, members: seq<Entry>, scope: DedupScope)
    requires members != [] && |OldestCopies(site, members)| == 1
    ensures Keeper(site, members, scope) == OldestCopies(site, members)[0]
  {
    PoolMembers(site, members, scope);
    var oldest, pool := OldestCopies(site, members), Pool(site, members, scope);
    FirstMinIsLeast(pool, LengthRank());
    assert oldest == [oldest[0]];
  }

  /** No time of `e` is before the earlier of `k`'s two. */
  predicate NoOlder(k: Entry, e: Entry)
  {
    (k.ctime <= e.ctime && k.ctime <= e.mtime) || (k.mtime <= e.ctime && k.mtime <= e.mtime)
  }

  /** On a preferred volume, or under a preferred prefix. */
  ghost predicate Favoured(scope: DedupScope, e: Entry)
  {
    e.volume in scope.preferredVolumes
    || exists p :: p in scope.preferredPrefixes && |p| <= |e.path| && e.path[..|p|] == p
  }

  /** Fewer slashes, or as many and shorter, or as many and as long and first by code points. */
  ghost predicate PathFirst(s: string, t: string)
  {
    multiset(s)['/'] < multiset(t)['/']
    || (multiset(s)['/'] == multiset(t)['/'] && (|s| < |t| || (|s| == |t| && Alphabetical(s, t))))
  }

  /** `e` does not rank before `k`. */
  ghost predicate NoBetter(scope: DedupScope, e: Entry, k: Entry)
  {
    && NoOlder(k, e)
    && (NoOlder(e, k) && Favoured(scope, e) ==> Favoured(scope, k))
    && (NoOlder(e, k) && (Favoured(scope, e) <==> Favoured(scope, k)) ==> !PathFirst(e.path, k.path))
  }

  /** The suggested keeper is a native copy when there is one, is as old as any eligible copy, is preferred when an
      equally old copy is, and among those has the fewest slashes, then the shortest path, then the first path. */
  lemma {:induction false} KeeperIsBest(site: Site, members: seq<Entry>, scope: DedupScope)
    requires members != []
    ensures var k := Keeper(site, members, scope);
            && k in members
            && (site.network(k.fsType) ==> forall e :: e in members ==> site.network(e.fsType))
            && forall e :: e in members && (site.network(e.fsType) ==> site.network(k.fsType)) ==> NoBetter(scope, e, k)
  {
    PoolMembers(site, members, scope);
    ClassMembers(members, NativeOf(site), true);
    var native, pool, k := Class(members, NativeOf(site), true), Pool(site, members, scope), Keeper(site, members, scope);
    FirstMinIsLeast(pool, LengthRank());
    if native != [] { assert native[0] in native; }
    assert forall e :: e in members && !site.network(e.fsType) ==> e in native;
    forall e | e in members && (site.network(e.fsType) ==> site.network(k.fsType)) ensures NoBetter(scope, e, k) {
      assert e in Candidates(site, members);
      KeptOver(site, members, scope, e);
    }
  }

  lemma {:induction false} KeptOver(site: Site, members: seq<Entry>, scope: DedupScope, e: Entry)
    requires members != [] && e in Candidates(site, members)
    ensures NoBetter(scope, e, Keeper(site, members, scope))
  {
    var k := Keeper(site, members, scope);
    PoolMembers(site, members, scope);
    FirstMinIsLeast(Pool(site, members, scope), LengthRank());
    EarliestIsLeast(Candidates(site, members));
    FavouredIsPreferred(scope, e);
    FavouredIsPreferred(scope, k);
    PathFirstIsRank(e, k);
    assert NoOlder(e, k) <==> e in OldestCopies(site, members);
  }

  lemma {:induction false} FavouredIsPreferred(scope: DedupScope, e: Entry)
    ensures Favoured(scope, e) <==> Preferred(scope, e)
  {
    if i :| 0 <= i < |scope.preferredPrefixes| && StartsWith(e.path, scope.preferredPrefixes[i]) {
      assert scope.preferredPrefixes[i] in scope.preferredPrefixes;
    }
  }

  lemma {:induction false} PathFirstIsRank(d: Entry, e: Entry)
    ensures PathFirst(d.path, e.path) <==> LexLess(LengthRank()(d), LengthRank()(e))
  {
    var a, b := LengthRank()(d), LengthRank()(e);
    CountSlashIsCount(d.path);
    CountSlashIsCount(e.path);
    assert a[1..][1..] == Codes(d.path) && b[1..][1..] == Codes(e.path);
    if |d.path| == |e.path| { CodesAlphabetical(d.path, e.path); }
  }

  ghost predicate SameMembers(members: seq<Entry>, others: seq<Entry>)
  {
    forall e :: e in members <==> e in others
  }

  lemma {:induction false} SameCandidates(site: Site, members: seq<Entry>, shuffled: seq<Entry>)
    requires members != [] && shuffled != [] && SameMembers(members, shuffled)
    ensures SameMembers(Candidates(site, members), Candidates(site, shuffled))
    ensures Earliest(Candidates(site, members)) == Earliest(Candidates(site, shuffled))
  {
    var these, those := Class(members, NativeOf(site), true), Class(shuffled, NativeOf(site), true);
    ClassMembers(members, NativeOf(site), true);
    ClassMembers(shuffled, NativeOf(site), true);
    assert these != [] ==> these[0] in those;
    assert those != [] ==> those[0] in these;
    EarliestIsLeast(Candidates(site, members));
    EarliestIsLeast(Candidates(site, shuffled));
  }

  /** The pool is the same whatever the order. */
  lemma {:induction false} SamePool(site: Site, members: seq<Entry>, shuffled: seq<Entry>, scope: DedupScope)
    requires members != [] && shuffled != [] && SameMembers(members, shuffled)
    ensures SameMembers(Pool(site, members, scope), Pool(site, shuffled, scope))
  {
    SameCandidates(site, members, shuffled);
    PoolMembers(site, members, scope);
    PoolMembers(site, shuffled, scope);
  }

  /** Only one element of the pool has the least (slashes, length, path). */
  ghost predicate SingleBest(site: Site, members: seq<Entry>, scope: DedupScope)
    requires members != []
  {
    var pool := Pool(site, members, scope);
    forall d, e :: Least(pool, LengthRank(), d) && Least(pool, LengthRank(), e) ==> d == e
  }

  ghost predicate AnyOrder(site: Site, members: seq<Entry>, scope: DedupScope)
    requires members != []
  {
    forall shuffled :: shuffled != [] && multiset(shuffled) == multiset(members) ==>
      Keeper(site, shuffled, scope) == Keeper(site, members, scope)
  }

  lemma {:induction false} SingleBestKept(site: Site, members: seq<Entry>, shuffled: seq<Entry>, scope: DedupScope)
    requires members != [] && shuffled != [] && SameMembers(members, shuffled) && SingleBest(site, members, scope)
    ensures Keeper(site, shuffled, scope) == Keeper(site, members, scope)
  {
    var k := Keeper(site, shuffled, scope);
    PoolMembers(site, members, scope);
    PoolMembers(site, shuffled, scope);
    FirstMinIsLeast(Pool(site, members, scope), LengthRank());
    FirstMinIsLeast(Pool(site, shuffled, scope), LengthRank());
    SameLeast(site, members, shuffled, scope, k);
  }

  lemma {:induction false} SameLeast(site: Site, members: seq<Entry>, shuffled: seq<Entry>, scope: DedupScope, e: Entry)
    requires members != [] && shuffled != [] && SameMembers(members, shuffled)
    ensures Least(Pool(site, members, scope), LengthRank(), e) <==> Least(Pool(site, shuffled, scope), LengthRank(), e)
  {
    SamePool(site, members, shuffled, scope);
    LeastOfSame(Pool(site, members, scope), Pool(site, shuffled, scope), LengthRank(), e);
  }

  /** A best element of the pool is kept if it comes first. */
  lemma {:induction false} FirstBestKept(site: Site, members: seq<Entry>, scope: DedupScope)
    requires members != [] && Least(Pool(site, members, scope), LengthRank(), members[0])
    ensures Keeper(site, members, scope) == members[0]
  {
    var e := members[0];
    PoolMembers(site, members, scope);
    ClassMembers(members, NativeOf(site), true);
    if Class(members, NativeOf(site), true) != [] {
      assert Candidates(site, members)[0] in Candidates(site, members);
      ClassHead(members, NativeOf(site), true);
    }
    var candidates := Candidates(site, members);
    assert candidates[0] == e;
    ClassHead(candidates, OldestOf(), Earliest(candidates));
    var oldest := OldestCopies(site, members);
    ClassMembers(oldest, PreferredOf(scope), true);
    if Class(oldest, PreferredOf(scope), true) != [] {
      ClassHead(oldest, PreferredOf(scope), true);
    }
    FirstMinHead(Pool(site, members, scope), LengthRank());
  }

  /** Any member can come first. */
  lemma {:induction false} Forward(members: seq<Entry>, e: Entry) returns (shuffled: seq<Entry>)
    requires e in members
    ensures shuffled != [] && shuffled[0] == e && multiset(shuffled) == multiset(members)
    ensures SameMembers(members, shuffled)
  {
    var i :| 0 <= i < |members| && members[i] == e;
    shuffled := [e] + members[..i] + members[i + 1..];
    assert members == members[..i] + [e] + members[i + 1..];
    assert multiset(shuffled) == multiset(members);
    SamePermuted(members, shuffled);
  }

  lemma {:induction false} SamePermuted(members: seq<Entry>, shuffled: seq<Entry>)
    requires multiset(shuffled) == multiset(members)
    ensures SameMembers(members, shuffled)
  {
    forall x ensures x in members <==> x in shuffled {
      assert x in members <==> x in multiset(members);
      assert x in shuffled <==> x in multiset(shuffled);
    }
  }

  lemma {:induction false} BroughtForward(site: Site, members: seq<Entry>, scope: DedupScope, e: Entry)
      returns (shuffled: seq<Entry>)
    requires members != [] && Least(Pool(site, members, scope), LengthRank(), e)
    ensures shuffled != [] && multiset(shuffled) == multiset(members) && Keeper(site, shuffled, scope) == e
  {
    BestHaveOnePath(site, members, scope, e, e);
    shuffled := Forward(members, e);
    SameLeast(site, members, shuffled, scope, e);
    FirstBestKept(site, shuffled, scope);
  }

  /** The keeper does not depend on the order in which the members come if and only if the pool has a single best
      element. With distinct paths it always has. */
  lemma {:induction false} KeeperOfAnyOrder(site: Site, members: seq<Entry>, scope: DedupScope)
    requires members != []
    ensures AnyOrder(site, members, scope) <==> SingleBest(site, members, scope)
    ensures (forall d, e :: d in members && e in members && d.path == e.path ==> d == e) ==> SingleBest(site, members, scope)
  {
    var pool := Pool(site, members, scope);
    if SingleBest(site, members, scope) {
      forall shuffled | shuffled != [] && multiset(shuffled) == multiset(members)
        ensures Keeper(site, shuffled, scope) == Keeper(site, members, scope)
      {
        SamePermuted(members, shuffled);
        SingleBestKept(site, members, shuffled, scope);
      }
    } else {
      var d, e :| Least(pool, LengthRank(), d) && Least(pool, LengthRank(), e) && d != e;
      var s := BroughtForward(site, members, scope, d);
      var t := BroughtForward(site, members, scope, e);
    }
    if forall d, e :: d in members && e in members && d.path == e.path ==> d == e {
      forall d, e | Least(pool, LengthRank(), d) && Least(pool, LengthRank(), e) ensures d == e {
        BestHaveOnePath(site, members, scope, d, e);
      }
    }
  }

  lemma {:induction false} BestHaveOnePath(site: Site, members: seq<Entry>, scope: DedupScope, d: Entry, e: Entry)
    requires members != []
    requires Least(Pool(site, members, scope), LengthRank(), d) && Least(Pool(site, members, scope), LengthRank(), e)
    ensures d in members && e in members && d.path == e.path
  {
    PoolMembers(site, members, scope);
    ClassMembers(members, NativeOf(site), true);
    Trichotomy(LengthRank()(d), LengthRank()(e));
    assert LengthRank()(d)[2..] == Codes(d.path) && LengthRank()(e)[2..] == Codes(e.path);
    CodesInjective(d.path, e.path);
  }

  lemma {:induction false} PairClass<K>(d: Entry, e: Entry, key: Entry -> K, k: K)
    requires key(d) == key(e)
    ensures Class([d, e], key, k) == if key(d) == k then [d, e] else []
  {
    assert [d, e][..1] == [d] && [d][..0] == [];
    assert Class([d], key, k) == Class([d][..0], key, k) + if key(d) == k then [d] else [];
  }

  lemma {:induction false} TiedOldest(site: Site, d: Entry, e: Entry)
    requires Oldest(d) == Oldest(e) && site.network(d.fsType) == site.network(e.fsType)
    ensures OldestCopies(site, [d, e]) == [d, e]
  {
    PairClass(d, e, NativeOf(site), true);
    assert Candidates(site, [d, e]) == [d, e];
    assert [d, e][..1] == [d] && Earliest([d]) == Oldest(d);
    assert Earliest([d, e]) == Oldest(d);
    PairClass(d, e, OldestOf(), Oldest(d));
  }

  lemma {:induction false} TiedPool(site: Site, d: Entry, e: Entry, scope: DedupScope)
    requires Oldest(d) == Oldest(e) && Preferred(scope, d) == Preferred(scope, e)
    requires site.network(d.fsType) == site.network(e.fsType)
    ensures Pool(site, [d, e], scope) == [d, e]
  {
    TiedOldest(site, d, e);
    PairClass(d, e, PreferredOf(scope), true);
  }

  /** Copies on one path of two hosts, equally old and equally preferred: the one that loads first is kept. */
  lemma {:induction false} TiedByOrder(site: Site, d: Entry, e: Entry, scope: DedupScope)
    requires d.path == e.path && Oldest(d) == Oldest(e) && Preferred(scope, d) == Preferred(scope, e)
    requires site.network(d.fsType) == site.network(e.fsType)
    ensures Keeper(site, [d, e], scope) == d
  {
    TiedPool(site, d, e, scope);
    FirstOfPair(d, e, LengthRank());
  }

  /** A member that is native if any is, and no older than any such member. */
  ghost predicate Eldest(site: Site, members: seq<Entry>, e: Entry)
  {
    && e in members && (site.network(e.fsType) ==> forall d :: d in members ==> site.network(d.fsType))
    && forall d :: d in members && (site.network(d.fsType) ==> site.network(e.fsType)) ==> NoOlder(e, d)
  }

  lemma {:induction false} CandidatesAre(site: Site, members: seq<Entry>, e: Entry)
    ensures e in Candidates(site, members)
       <==> e in members && (site.network(e.fsType) ==> forall d :: d in members ==> site.network(d.fsType))
  {
    ClassMembers(members, NativeOf(site), true);
    var native := Class(members, NativeOf(site), true);
    if native != [] { assert native[0] in native; }
  }

  lemma {:induction false} EldestAreOldest(site: Site, members: seq<Entry>, scope: DedupScope, e: Entry)
    requires members != []
    ensures Eldest(site, members, e) <==> e in OldestCopies(site, members)
  {
    PoolMembers(site, members, scope);
    var candidates := Candidates(site, members);
    EarliestIsLeast(candidates);
    CandidatesAre(site, members, e);
    if e in candidates {
      forall d
        ensures d in candidates <==> d in members && (site.network(d.fsType) ==> site.network(e.fsType))
      {
        CandidatesAre(site, members, d);
      }
      assert Eldest(site, members, e) <==> forall d :: d in candidates ==> Oldest(e) <= Oldest(d);
    }
  }

  /** What the reason says, for members that are all different: age alone decided if there is one eldest copy; else a
      preference if there is a preferred one among them, alone or with the path; else the path. */
  lemma {:induction false} ReasonMeans(site: Site, members: seq<Entry>, scope: DedupScope)
    requires members != [] && AllDifferent(members)
    ensures var choice, k := Choice(site, members, scope), Keeper(site, members, scope);
            var alone := forall e :: Eldest(site, members, e) ==> e == k;
            var favoured := exists e :: Eldest(site, members, e) && Favoured(scope, e);
            var aloneFavoured := forall e :: Eldest(site, members, e) && Favoured(scope, e) ==> e == k;
            && choice.entry == k.id && Eldest(site, members, k)
            && (choice.reason == OldestCopy <==> alone)
            && (choice.reason == ShortestPath <==> !alone && !favoured)
            && (choice.reason == OldestPreferred <==> !alone && favoured && aloneFavoured)
            && (choice.reason == OldestPreferredShortest <==> !alone && favoured && !aloneFavoured)
  {
    var oldest, pool, k := OldestCopies(site, members), Pool(site, members, scope), Keeper(site, members, scope);
    PoolMembers(site, members, scope);
    FirstMinIsLeast(pool, LengthRank());
    forall e ensures Eldest(site, members, e) <==> e in oldest { EldestAreOldest(site, members, scope, e); }
    forall e ensures Favoured(scope, e) <==> Preferred(scope, e) { FavouredIsPreferred(scope, e); }
    PoolDistinct(site, members, scope);
    AloneIff(oldest, k);
    AloneIff(pool, k);
  }

  ghost predicate AllDifferent(s: seq<Entry>)
  {
    forall i, j :: 0 <= i < j < |s| ==> s[i] != s[j]
  }

  lemma {:induction false} AloneIff(s: seq<Entry>, k: Entry)
    requires k in s && AllDifferent(s)
    ensures |s| == 1 <==> forall e :: e in s ==> e == k
  {
    if |s| > 1 { assert s[0] in s && s[1] in s; }
  }

  lemma {:induction false} ClassDistinct<K>(s: seq<Entry>, key: Entry -> K, k: K)
    requires AllDifferent(s)
    ensures AllDifferent(Class(s, key, k))
  {
    if s != [] {
      var init, last := s[..|s| - 1], s[|s| - 1];
      ClassDistinct(init, key, k);
      ClassMembers(init, key, k);
      var c := Class(init, key, k);
      forall i | 0 <= i < |c| ensures c[i] != last {
        assert c[i] in c && c[i] in init;
        var j :| 0 <= j < |init| && init[j] == c[i];
        assert s[j] == init[j];
      }
    }
  }

  lemma {:induction false} PoolDistinct(site: Site, members: seq<Entry>, scope: DedupScope)
    requires members != [] && AllDifferent(members)
    ensures AllDifferent(OldestCopies(site, members)) && AllDifferent(Pool(site, members, scope))
  {
    ClassDistinct(members, NativeOf(site), true);
    var candidates := Candidates(site, members);
    ClassDistinct(candidates, OldestOf(), Earliest(candidates));
    ClassDistinct(OldestCopies(site, members), PreferredOf(scope), true);
  }

  // ---------------------------------------------------------------- the groups

  /** A keeper rule; it is only ever given two or more members. */
  type KeeperRule = (seq<Entry>, DedupScope) -> KeeperChoice

  function DefaultRule(site: Site): KeeperRule
  {
    (members, scope) => if members == [] then KeeperChoice(0, OldestCopy) else Choice(site, members, scope)
  }

  const FLUSH_BATCH: nat := 1000

  function ContentOf(): Entry -> (nat, Option<string>) { (e: Entry) => (e.size, e.fullHash) }

  function MembersOf(site: Site, members: seq<Entry>): (ms: seq<DupMember>)
    ensures |ms| == |members|
  {
    seq(|members|, i requires 0 <= i < |members| =>
      var m := members[i]; DupMember(m.id, m.host, m.volume, m.path, site.network(m.fsType)))
  }

  /** How many copies could go: the native ones but one. */
  function Spare(site: Site, copies: seq<Entry>): nat
  {
    var native := |Class(copies, NativeOf(site), true)|;
    if native > 0 then native - 1 else 0
  }

  ghost function GroupOf(site: Site, keeper: KeeperRule, scope: DedupScope, job: Option<string>,
                         copies: seq<Entry>): DupGroup
    requires copies != []
  {
    DupGroup(copies[0].fullHash, copies[0].size, copies[0].size * Spare(site, copies), scope, job,
             keeper(copies, scope), MembersOf(site, copies))
  }

  /** The groups in the order in which their first members load. */
  ghost function GroupsOf(site: Site, keeper: KeeperRule, scope: DedupScope, job: Option<string>,
                          classes: seq<seq<Entry>>): (r: seq<DupGroup>)
    requires forall i :: 0 <= i < |classes| ==> |classes[i]| >= 2
    ensures |r| == |classes| && forall i :: 0 <= i < |r| ==> r[i] == GroupOf(site, keeper, scope, job, classes[i])
  {
    seq(|classes|, i requires 0 <= i < |classes| => GroupOf(site, keeper, scope, job, classes[i]))
  }

  ghost function Built(site: Site, keeper: KeeperRule, scope: DedupScope, job: Option<string>,
                       entries: seq<Entry>): seq<DupGroup>
  {
    GroupsOf(site, keeper, scope, job, Repeats(Loaded(site.same, scope, entries), ContentOf()))
  }

  /** The groups of other scopes, in their order. */
  function OtherScope(scope: DedupScope): DupGroup -> bool { (g: DupGroup) => g.scope != scope }

  function Others(table: seq<DupGroup>, scope: DedupScope): seq<DupGroup>
  {
    Class(table, OtherScope(scope), true)
  }

  ghost function Rebuilt(table: seq<DupGroup>, site: Site, keeper: KeeperRule, scope: DedupScope, job: Option<string>,
                         entries: seq<Entry>): seq<DupGroup>
  {
    Others(table, scope) + Built(site, keeper, scope, job, entries)
  }

  class DedupService {
    var table: seq<DupGroup>

    constructor ()
      ensures table == []
    {
      table := [];
    }

    method ClearScope(scope: DedupScope)
      modifies this
      ensures table == Others(old(table), scope)
    {
      table := Filter(table, OtherScope(scope));
    }

    method BuildIter(site: Site, keeper: KeeperRule, entries: seq<Entry>, scope: DedupScope, job: Option<string>,
                     replace: bool)
      returns (yielded: seq<DupGroup>)
      modifies this
      ensures yielded == Built(site, keeper, scope, job, entries)
      ensures table == (if replace then Others(old(table), scope) else old(table)) + yielded
    {
      if replace { ClearScope(scope); }
      var rows := Filter(entries, ScopeOf(site.same, scope));
      var classes := Repeating(rows, ContentOf());
      yielded := FlushAll(site, keeper, scope, job, classes);
    }

    /** Groups are written and then handed on in batches of `FLUSH_BATCH`; the last batch may be short. */
    method FlushAll(site: Site, keeper: KeeperRule, scope: DedupScope, job: Option<string>, classes: seq<seq<Entry>>)
      returns (yielded: seq<DupGroup>)
      requires forall i :: 0 <= i < |classes| ==> |classes[i]| >= 2
      modifies this
      ensures yielded == GroupsOf(site, keeper, scope, job, classes)
      ensures table == old(table) + yielded
    {
      ghost var all := GroupsOf(site, keeper, scope, job, classes);
      yielded := [];
      var pending: seq<DupGroup> := [];
      for i := 0 to |classes|
        invariant yielded + pending == all[..i]
        invariant table == old(table) + yielded
        invariant |pending| < FLUSH_BATCH
      {
        var group := MakeGroup(site, keeper, scope, job, classes[i]);
        Appended(yielded, pending, group, all, i);
        pending := pending + [group];
        if |pending| >= FLUSH_BATCH {
          yielded := Flush(yielded, pending, old(table));
          pending := [];
        }
      }
      if pending != [] {
        yielded := Flush(yielded, pending, old(table));
      }
    }

    method Flush(yielded: seq<DupGroup>, pending: seq<DupGroup>,
                 ghost base: seq<DupGroup>) returns (more: seq<DupGroup>)
      requires table == base + yielded
      modifies this
      ensures more == yielded + pending && table == base + more
    {
      table := table + pending;
      more := yielded + pending;
    }

    /** The same builder, but only the number of groups comes back. */
    method Rebuild(site: Site, keeper: KeeperRule, entries: seq<Entry>, scope: DedupScope, job: Option<string>,
                   replace: bool)
      returns (count: nat)
      modifies this
      ensures count == |Built(site, keeper, scope, job, entries)|
      ensures table == (if replace then Others(old(table), scope) else old(table)) + Built(site, keeper, scope, job, entries)
    {
      var yielded := BuildIter(site, keeper, entries, scope, job, replace);
      count := 0;
      for i := 0 to |yielded|
        invariant count == i
      {
        count := count + 1;
      }
    }
  }

  method MakeGroup(site: Site, keeper: KeeperRule, scope: DedupScope, job: Option<string>,
                   copies: seq<Entry>) returns (g: DupGroup)
    requires copies != []
    ensures g == GroupOf(site, keeper, scope, job, copies)
  {
    var native := Filter(copies, NativeOf(site));
    var reclaimable := copies[0].size * (if |native| > 0 then |native| - 1 else 0);
    var choice := keeper(copies, scope);
    g := DupGroup(copies[0].fullHash, copies[0].size, reclaimable, scope, job, choice, MembersOf(site, copies));
  }

  lemma {:induction false} Appended(yielded: seq<DupGroup>, pending: seq<DupGroup>, group: DupGroup,
                                  all: seq<DupGroup>, i: nat)
    requires i < |all| && yielded + pending == all[..i] && group == all[i]
    ensures yielded + (pending + [group]) == all[..i + 1]
  {
  }

  // ---------------------------------------------------------------- what a build means

  /** Every stored file of the scope that shares size and hash with another is in exactly one group, with all its
      duplicates, as often as it is listed; no other row is in any. */
  lemma {:induction false} GroupsPartition(site: Site, scope: DedupScope, entries: seq<Entry>, e: Entry)
    ensures var rows := Loaded(site.same, scope, entries);
            && AreDuplicates(rows, ContentOf(), Repeats(rows, ContentOf()))
            && (e in rows <==> e in entries && InScope(site.same, scope, e))
            && multiset(Flatten(Repeats(rows, ContentOf())))[e]
               == if |Class(rows, ContentOf(), ContentOf()(e))| >= 2 then multiset(rows)[e] else 0
  {
    var rows := Loaded(site.same, scope, entries);
    ClassMembers(entries, ScopeOf(site.same, scope), true);
    RepeatsAreDuplicates(rows, ContentOf());
    DuplicatesCount(rows, ContentOf(), Repeats(rows, ContentOf()), e);
  }

  function Bytes(rows: seq<Entry>): nat
  {
    if rows == [] then 0 else Bytes(rows[..|rows| - 1]) + rows[|rows| - 1].size
  }

  lemma {:induction false} BytesOfEqual(rows: seq<Entry>, size: nat)
    requires forall e :: e in rows ==> e.size == size
    ensures Bytes(rows) == size * |rows|
  {
    if rows != [] {
      BytesOfEqual(rows[..|rows| - 1], size);
      assert rows[|rows| - 1] in rows;
    }
  }

  /** Every member has the group's size and full hash. Nothing is reclaimable without a native copy; otherwise it is
      the bytes of the native copies but one, so views of another host's bytes never add to it. */
  ghost predicate ReclaimsNativeCopies(site: Site, copies: seq<Entry>, g: DupGroup)
  {
    var native := Class(copies, NativeOf(site), true);
    && (native == [] ==> g.reclaimable == 0)
    && (native != [] ==> g.reclaimable + g.size == Bytes(native))
    && |g.members| == |copies|
    && forall m :: 0 <= m < |g.members| ==>
         && g.members[m].isMountAlias == site.network(copies[m].fsType)
         && g.members[m].entry == copies[m].id && g.members[m].path == copies[m].path
         && g.members[m].host == copies[m].host && g.members[m].volume == copies[m].volume
         && copies[m].size == g.size && copies[m].fullHash == g.fullHash
  }

  lemma {:induction false} GroupReclaims(site: Site, keeper: KeeperRule, scope: DedupScope, job: Option<string>,
                                         copies: seq<Entry>)
    requires copies != [] && forall e :: e in copies ==> e.size == copies[0].size && e.fullHash == copies[0].fullHash
    ensures ReclaimsNativeCopies(site, copies, GroupOf(site, keeper, scope, job, copies))
  {
    var native, size := Class(copies, NativeOf(site), true), copies[0].size;
    ClassMembers(copies, NativeOf(site), true);
    BytesOfEqual(native, size);
    if native != [] { AllButOne(size, |native|); }
  }

  lemma {:induction false} AllButOne(size: nat, n: nat)
    requires n > 0
    ensures size * (n - 1) + size == size * n
  {
  }

  lemma {:induction false} ReclaimableIsNative(site: Site, keeper: KeeperRule, scope: DedupScope,
                                               job: Option<string>, entries: seq<Entry>)
    ensures var classes, groups :=
        Repeats(Loaded(site.same, scope, entries), ContentOf()), Built(site, keeper, scope, job, entries);
            |groups| == |classes|
            && forall i :: 0 <= i < |groups| ==>
                 ReclaimsNativeCopies(site, classes[i], groups[i])
                 && groups[i].scope == scope && groups[i].job == job && groups[i].keeper == keeper(classes[i], scope)
  {
    var rows := Loaded(site.same, scope, entries);
    var classes := Repeats(rows, ContentOf());
    RepeatsAreDuplicates(rows, ContentOf());
    forall i | 0 <= i < |classes|
      ensures ReclaimsNativeCopies(site, classes[i], GroupOf(site, keeper, scope, job, classes[i]))
    {
      ClassMembers(rows, ContentOf(), ContentOf()(classes[i][0]));
      GroupReclaims(site, keeper, scope, job, classes[i]);
    }
  }

  /** With the default rule every group suggests the best ranked of its own members. */
  lemma {:induction false} GroupsSuggestBest(site: Site, scope: DedupScope, job: Option<string>, entries: seq<Entry>,
                                             i: nat)
    requires i < |Repeats(Loaded(site.same, scope, entries), ContentOf())|
    ensures var copies := Repeats(Loaded(site.same, scope, entries), ContentOf())[i];
            var k := Keeper(site, copies, scope);
            && Built(site, DefaultRule(site), scope, job, entries)[i].keeper.entry == k.id
            && k in copies
            && (site.network(k.fsType) ==> forall e :: e in copies ==> site.network(e.fsType))
  {
    KeeperIsBest(site, Repeats(Loaded(site.same, scope, entries), ContentOf())[i], scope);
  }

  lemma {:induction false} OthersOfOwn(groups: seq<DupGroup>, scope: DedupScope)
    requires forall g :: g in groups ==> g.scope == scope
    ensures Others(groups, scope) == []
  {
    if groups != [] {
      assert groups[|groups| - 1] in groups;
      OthersOfOwn(groups[..|groups| - 1], scope);
    }
  }

  lemma {:induction false} OthersAppend(a: seq<DupGroup>, b: seq<DupGroup>, scope: DedupScope)
    ensures Others(a + b, scope) == Others(a, scope) + Others(b, scope)
  {
    if b == [] {
      assert a + b == a;
    } else {
      assert (a + b)[..|a + b| - 1] == a + b[..|b| - 1];
      OthersAppend(a, b[..|b| - 1], scope);
    }
  }

  lemma {:induction false} OthersTwice(table: seq<DupGroup>, scope: DedupScope)
    ensures Others(Others(table, scope), scope) == Others(table, scope)
  {
    if table != [] {
      var init, last := table[..|table| - 1], table[|table| - 1];
      OthersTwice(init, scope);
      if last.scope != scope {
        assert (Others(init, scope) + [last])[..|Others(init, scope)|] == Others(init, scope);
      } else {
        assert Others(init, scope) + [] == Others(init, scope);
      }
    }
  }

  /** Rebuilding an unchanged catalogue again changes nothing, and no rebuild touches another scope's groups. */
  lemma {:induction false} RebuildIdempotent(table: seq<DupGroup>, site: Site, keeper: KeeperRule, scope: DedupScope,
                                             job: Option<string>,
                                           entries: seq<Entry>)
    ensures var once := Rebuilt(table, site, keeper, scope, job, entries);
            && Rebuilt(once, site, keeper, scope, job, entries) == once
            && Others(once, scope) == Others(table, scope)
  {
    var groups := Built(site, keeper, scope, job, entries);
    OthersTwice(table, scope);
    OthersAppend(Others(table, scope), groups, scope);
    OthersOfOwn(groups, scope);
  }
}
