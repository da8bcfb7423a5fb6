/** What the walk's expected output means: it is what the descend rules reach, each path once, and
    pruning during descent is filtering afterwards, with one exception at the file-system root. */
module WalkMeaning {
  import opened PosixPaths
  import opened FileTree
  import Walk

  /** File names as a file system gives them: valid, and distinct within a directory. */
  ghost predicate WellNamed(ls: seq<Dirent>)
    decreases ls
  {
    (forall i :: 0 <= i < |ls| ==> ValidName(ls[i].name) && WellNamed(ls[i].listing))
    && (forall i, j :: 0 <= i < j < |ls| ==> ls[i].name != ls[j].name)
  }

  // ---------------------------------------------------------------- reachability

  /** `route` picks a position in each listing on the way down; every directory on the way is
      reported and may be entered, and the last position is the reported entry `e`. */
  ghost predicate Leads(r: Rules, path: string, ls: seq<Dirent>, route: seq<nat>, e: FsEntry)
    decreases route
  {
    route != [] && route[0] < |ls| && Reported(r, path, ls[route[0]]) &&
    var de := ls[route[0]];
    if |route| == 1 then e == EntryOf(path, de)
    else Descended(r, de) && Leads(r, Join(path, de.name), de.listing, route[1..], e)
  }

  /** A route below the first entry, and a route through the later ones. */
  lemma {:induction false} LeadsDown(r: Rules, path: string, ls: seq<Dirent>, below: seq<nat>, e: FsEntry)
    requires ls != [] && Reported(r, path, ls[0]) && Descended(r, ls[0])
    requires Leads(r, Join(path, ls[0].name), ls[0].listing, below, e)
    ensures Leads(r, path, ls, [0] + below, e)
  {
    assert ([0] + below)[1..] == below;
  }

  lemma {:induction false} LeadsOn(r: Rules, path: string, ls: seq<Dirent>, later: seq<nat>, e: FsEntry)
    requires ls != [] && Leads(r, path, ls[1..], later, e)
    ensures Leads(r, path, ls, [later[0] + 1] + later[1..], e)
  {
    var route := [later[0] + 1] + later[1..];
    assert route[1..] == later[1..] && ls[route[0]] == ls[1..][later[0]];
  }

  lemma {:induction false} RouteOf(r: Rules, path: string, ls: seq<Dirent>, e: FsEntry) returns (route: seq<nat>)
    requires Beneath(r, path, ls, e) > 0
    ensures Leads(r, path, ls, route, e)
    decreases ls
  {
    if BeneathEntry(r, path, ls[0], e) > 0 {
      if e == EntryOf(path, ls[0]) {
        route := [0];
      } else {
        var below := RouteOf(r, Join(path, ls[0].name), ls[0].listing, e);
        LeadsDown(r, path, ls, below, e);
        route := [0] + below;
      }
    } else {
      var later := RouteOf(r, path, ls[1..], e);
      LeadsOn(r, path, ls, later, e);
      route := [later[0] + 1] + later[1..];
    }
  }

  lemma {:induction false} RouteCounts(r: Rules, path: string, ls: seq<Dirent>, route: seq<nat>, e: FsEntry)
    requires Leads(r, path, ls, route, e)
    ensures Beneath(r, path, ls, e) > 0
    decreases ls
  {
    if route[0] == 0 {
      if |route| > 1 {
        RouteCounts(r, Join(path, ls[0].name), ls[0].listing, route[1..], e);
      }
    } else {
      var later := [route[0] - 1] + route[1..];
      assert later[1..] == route[1..] && ls[1..][later[0]] == ls[route[0]];
      RouteCounts(r, path, ls[1..], later, e);
    }
  }

  ghost predicate Reachable(r: Rules, path: string, ls: seq<Dirent>, e: FsEntry)
  {
    exists route: seq<nat> :: Leads(r, path, ls, route, e)
  }

  /** The walk reports exactly what the descend rules reach. */
  lemma {:induction false} ReportsReachable(r: Rules, path: string, ls: seq<Dirent>, e: FsEntry)
    ensures Beneath(r, path, ls, e) > 0 <==> Reachable(r, path, ls, e)
  {
    if Beneath(r, path, ls, e) > 0 {
      var route := RouteOf(r, path, ls, e);
      assert Leads(r, path, ls, route, e);
    } else if Reachable(r, path, ls, e) {
      var route: seq<nat> :| Leads(r, path, ls, route, e);
      RouteCounts(r, path, ls, route, e);
    }
  }

  // ---------------------------------------------------------------- each path once

  lemma {:induction false} WellNamedParts(ls: seq<Dirent>)
    requires WellNamed(ls) && ls != []
    ensures ValidName(ls[0].name) && WellNamed(ls[0].listing) && WellNamed(ls[1..])
    ensures forall i :: 0 <= i < |ls[1..]| ==> ls[1..][i].name != ls[0].name
  {
  }

  lemma {:induction false} Apart(a: seq<string>, b: seq<string>)
    requires ValidNames(a) && ValidNames(b) && a != b
    ensures Render(a) != Render(b)
  {
    if Render(a) == Render(b) { RenderInjective(a, b); }
  }

  /** Where a reported entry lies: `ns` leads to it from the directory with components `cs`. */
  ghost predicate LiesAt(cs: seq<string>, ns: seq<string>, e: FsEntry)
  {
    ValidNames(ns) && e.path == Render(cs + ns)
  }

  lemma {:induction false} LiesBelow(cs: seq<string>, name: string, below: seq<string>, e: FsEntry)
    requires ValidName(name) && LiesAt(cs + [name], below, e)
    ensures LiesAt(cs, [name] + below, e)
  {
    assert cs + ([name] + below) == cs + [name] + below;
  }

  /** It lies below the listed entry at position `i`. */
  lemma {:induction false} Locate(r: Rules, cs: seq<string>, ls: seq<Dirent>, e: FsEntry)
      returns (i: nat, ns: seq<string>)
    requires ValidNames(cs) && WellNamed(ls) && Beneath(r, Render(cs), ls, e) > 0
    ensures i < |ls| && ns != [] && ns[0] == ls[i].name && LiesAt(cs, ns, e)
    decreases ls, 0
  {
    WellNamedParts(ls);
    if BeneathEntry(r, Render(cs), ls[0], e) > 0 {
      var below := LocateEntry(r, cs, ls[0], e);
      LiesBelow(cs, ls[0].name, below, e);
      i, ns := 0, [ls[0].name] + below;
    } else {
      var j, later := Locate(r, cs, ls[1..], e);
      i, ns := j + 1, later;
    }
  }

  lemma {:induction false} LocateEntry(r: Rules, cs: seq<string>, de: Dirent, e: FsEntry) returns (below: seq<string>)
    requires ValidNames(cs) && ValidName(de.name) && WellNamed(de.listing)
    requires BeneathEntry(r, Render(cs), de, e) > 0
    ensures LiesAt(cs + [de.name], below, e)
    ensures below == [] ==> e == EntryOf(Render(cs), de)
    decreases de, 1
  {
    JoinRender(cs, de.name);
    if e == EntryOf(Render(cs), de) {
      below := [];
      assert cs + [de.name] + [] == cs + [de.name];
    } else {
      var _, ns := Locate(r, cs + [de.name], de.listing, e);
      below := ns;
    }
  }

  /** No path is reported twice, and no two reported entries share a path. */
  lemma {:induction false} PathsOnce(r: Rules, cs: seq<string>, ls: seq<Dirent>, e: FsEntry, f: FsEntry)
    requires ValidNames(cs) && WellNamed(ls) && e.path == f.path
    requires Beneath(r, Render(cs), ls, e) > 0 && Beneath(r, Render(cs), ls, f) > 0
    ensures e == f && Beneath(r, Render(cs), ls, e) == 1
    decreases ls, 0
  {
    var p := Render(cs);
    if BeneathEntry(r, p, ls[0], e) > 0 {
      OtherSide(r, cs, ls, e, f);
      if Beneath(r, p, ls[1..], e) > 0 { OtherSide(r, cs, ls, e, e); }
      PathsOnceEntry(r, cs, ls[0], e, f);
    } else {
      if BeneathEntry(r, p, ls[0], f) > 0 { OtherSide(r, cs, ls, f, e); }
      PathsOnce(r, cs, ls[1..], e, f);
    }
  }

  lemma {:induction false} DifferentNames(cs: seq<string>, ms: seq<string>, ns: seq<string>, e: FsEntry, f: FsEntry)
    requires ValidNames(cs) && LiesAt(cs, ms, e) && LiesAt(cs, ns, f)
    requires ms != [] && ns != [] && ms[0] != ns[0]
    ensures e.path != f.path
  {
    assert (cs + ms)[|cs|] == ms[0] && (cs + ns)[|cs|] == ns[0];
    Apart(cs + ms, cs + ns);
  }

  /** Two siblings never yield the same path. */
  lemma {:induction false} OtherSide(r: Rules, cs: seq<string>, ls: seq<Dirent>, e: FsEntry, f: FsEntry)
    requires ValidNames(cs) && ls != [] && WellNamed(ls) && e.path == f.path
    requires BeneathEntry(r, Render(cs), ls[0], e) > 0
    ensures Beneath(r, Render(cs), ls[1..], f) == 0
  {
    WellNamedParts(ls);
    if Beneath(r, Render(cs), ls[1..], f) > 0 {
      var below := LocateEntry(r, cs, ls[0], e);
      LiesBelow(cs, ls[0].name, below, e);
      var i, ns := Locate(r, cs, ls[1..], f);
      DifferentNames(cs, [ls[0].name] + below, ns, e, f);
    }
  }

  lemma {:induction false} PathsOnceEntry(r: Rules, cs: seq<string>, de: Dirent, e: FsEntry, f: FsEntry)
    requires ValidNames(cs) && ValidName(de.name) && WellNamed(de.listing) && e.path == f.path
    requires BeneathEntry(r, Render(cs), de, e) > 0 && BeneathEntry(r, Render(cs), de, f) > 0
    ensures e == f && BeneathEntry(r, Render(cs), de, e) == 1
    decreases de, 1
  {
    var be := LocateEntry(r, cs, de, e);
    var bf := LocateEntry(r, cs, de, f);
    var cs' := cs + [de.name];
    JoinRender(cs, de.name);
    RenderInjective(cs' + be, cs' + bf);
    assert be == (cs' + be)[|cs'|..] == (cs' + bf)[|cs'|..] == bf;
    if be == [] {
      if Descended(r, de) && Beneath(r, Render(cs'), de.listing, e) > 0 {
        var _, ns := Locate(r, cs', de.listing, e);
        assert |cs' + ns| > |cs'|;
        Apart(cs' + ns, cs');
      }
    } else {
      if e == EntryOf(Render(cs), de) || f == EntryOf(Render(cs), de) {
        assert |cs' + be| > |cs'|;
        Apart(cs' + be, cs');
      }
      PathsOnce(r, cs', de.listing, e, f);
    }
  }

  /** Every interleaving, end to end: the finished walk has yielded the root and everything the
      descend rules reach below it, each path once. */
  lemma {:induction false} FinishedWalk(r: Rules, cap: nat, cs: seq<string>, root: FsEntry, listing: seq<Dirent>,
                                        workers: nat,
                     acts: seq<Walk.Action>, t: Walk.State, e: FsEntry)
    requires ValidNames(cs) && root.path == Render(cs) && WellNamed(listing)
    requires Walk.Run(r, cap, Walk.Init(root, listing, workers), acts, t) && t.finished
    ensures Walk.Times(t.yielded, e) ==
            if e == root || Reachable(r, root.path, listing, e) then 1 else 0
    ensures e != root && Walk.Times(t.yielded, e) == 1 ==> e.path != root.path
  {
    Walk.WalkIsExact(r, cap, root, listing, workers, acts, t);
    ReportsReachable(r, root.path, listing, e);
    if Beneath(r, root.path, listing, e) > 0 {
      PathsOnce(r, cs, listing, e, e);
      var _, ns := Locate(r, cs, listing, e);
      assert |cs + ns| > |cs|;
      Apart(cs + ns, cs);
    }
  }

  // ---------------------------------------------------------------- pruning and filtering

  /** Exclusion is closed downwards, except that excluding `/` does not cover what is below it. */
  lemma {:induction false} ExcludedBelow(cs: seq<string>, ns: seq<string>, excluded: set<string>)
    requires cs != [] && ValidNames(cs) && ValidNames(ns) && IsExcluded(Render(cs), excluded)
    ensures IsExcluded(Render(cs + ns), excluded)
  {
    NormPathCanonical(cs);
    NormPathCanonical(cs + ns);
    var p := Render(cs);
    var ex :| ex in excluded && (p == ex || StartsWith(p, ex + "/"));
    if ns == [] {
      assert cs + ns == cs;
    } else {
      BelowRender(cs);
      RenderUnder(cs, ns);
      assert StartsWith(Render(cs + ns), p + "/");
      assert StartsWith(Render(cs + ns), ex + "/");
    }
  }

  function Unpruned(r: Rules): Rules
  {
    r.(excluded := {})
  }

  /** The unpruned walk passes over unreadable entries only, and descends as the pruned one does. */
  lemma {:induction false} UnprunedReports(r: Rules, path: string, de: Dirent)
    ensures Reported(Unpruned(r), path, de) <==> de.typeOk && de.statOk
    ensures Descended(Unpruned(r), de) <==> Descended(r, de)
  {
  }

  /** Below any directory, pruning while descending is filtering the unpruned walk. */
  lemma {:induction false} PruneBelow(r: Rules, cs: seq<string>, ls: seq<Dirent>, e: FsEntry)
    requires ValidNames(cs) && WellNamed(ls)
    ensures Beneath(r, Render(cs), ls, e)
            == if IsExcluded(e.path, r.excluded) then 0 else Beneath(Unpruned(r), Render(cs), ls, e)
    decreases ls, 0
  {
    if ls != [] {
      PruneEntry(r, cs, ls[0], e);
      PruneBelow(r, cs, ls[1..], e);
    }
  }

  lemma {:induction false} PruneEntry(r: Rules, cs: seq<string>, de: Dirent, e: FsEntry)
    requires ValidNames(cs) && ValidName(de.name) && WellNamed(de.listing)
    ensures BeneathEntry(r, Render(cs), de, e)
            == if IsExcluded(e.path, r.excluded) then 0 else BeneathEntry(Unpruned(r), Render(cs), de, e)
    decreases de, 1
  {
    JoinRender(cs, de.name);
    if IsExcluded(Join(Render(cs), de.name), r.excluded) {
      if BeneathEntry(Unpruned(r), Render(cs), de, e) > 0 {
        var below := LocateEntry(Unpruned(r), cs, de, e);
        ExcludedBelow(cs + [de.name], below, r.excluded);
      }
    } else {
      PruneBelow(r, cs + [de.name], de.listing, e);
    }
  }

  /** The whole walk: an excluded root is not reported at all. */
  ghost function WalkOutput(r: Rules, root: FsEntry, listing: seq<Dirent>, e: FsEntry): nat
  {
    if IsExcluded(root.path, r.excluded) then 0 else Walk.Expected(r, root, listing, e)
  }

  ghost function FilteredOutput(r: Rules, root: FsEntry, listing: seq<Dirent>, e: FsEntry): nat
  {
    if IsExcluded(e.path, r.excluded) then 0 else Walk.Expected(Unpruned(r), root, listing, e)
  }

  lemma {:induction false} NothingReported(r: Rules, path: string, ls: seq<Dirent>, e: FsEntry)
    requires forall i :: 0 <= i < |ls| ==> !Reported(r, path, ls[i])
    ensures Beneath(r, path, ls, e) == 0
  {
    if ls != [] { NothingReported(r, path, ls[1..], e); }
  }

  lemma {:induction false} NormPathNonEmpty(p: string)
    ensures NormPath(p) != ""
  {
  }

  /** Pruning equals filtering, except exactly when the scan root is `/`, `/` itself is excluded and
      some entry of the root directory is not: the walk then reports nothing, yet the exclusion of
      `/` does not cover the paths below it. */
  lemma {:induction false} PruneIsFilter(r: Rules, exclude: seq<string>, cs: seq<string>, root: FsEntry,
                                         listing: seq<Dirent>)
    requires ValidNames(cs) && WellNamed(listing) && root.path == Render(cs)
    requires r.excluded == NormaliseExcludes(exclude)
    ensures (forall e :: WalkOutput(r, root, listing, e) == FilteredOutput(r, root, listing, e))
            <==> !(cs == [] && "/" in r.excluded && exists i :: 0 <= i < |listing| && Reported(r, "/", listing[i]))
  {
    NormPathCanonical(cs);
    forall e
      ensures FilteredOutput(r, root, listing, e) ==
              (if e == root && !IsExcluded(root.path, r.excluded) then 1 else 0) + Beneath(r, root.path, listing, e)
    {
      PruneBelow(r, cs, listing, e);
    }
    if !IsExcluded(root.path, r.excluded) {
      assert cs == [] ==> Render(cs) == "/";
    } else if cs != [] {
      forall e
        ensures Beneath(r, root.path, listing, e) == 0
      {
        if Beneath(r, root.path, listing, e) > 0 {
          PruneBelow(r, cs, listing, e);
          var _, ns := Locate(r, cs, listing, e);
          ExcludedBelow(cs, ns, r.excluded);
        }
      }
    } else {
      RootExcluded(exclude);
      assert Render(cs) == "/";
      if i :| 0 <= i < |listing| && Reported(r, "/", listing[i]) {
        var e := EntryOf("/", listing[i]);
        RouteCounts(r, "/", listing, [i], e);
        assert WalkOutput(r, root, listing, e) != FilteredOutput(r, root, listing, e);
      } else {
        forall e
          ensures Beneath(r, root.path, listing, e) == 0
        {
          NothingReported(r, "/", listing, e);
        }
      }
    }
  }

  lemma {:induction false} RootExcluded(exclude: seq<string>)
    ensures IsExcluded("/", NormaliseExcludes(exclude)) <==> "/" in NormaliseExcludes(exclude)
  {
    NormPathCanonical([]);
    assert Render([]) == "/";
    forall ex | ex in NormaliseExcludes(exclude)
      ensures ex != ""
    {
      var x :| x in exclude && x != "" && ex == NormPath(x);
      NormPathNonEmpty(x);
    }
  }

  /** The exceptional case: with `/` excluded, the walk of `/` reports nothing, while filtering the unpruned walk keeps a
      file in the root directory. */
  lemma {:induction false} ExcludedRootHidesFile(name: string, size: nat) returns (r: Rules, root: FsEntry,
                                                 listing: seq<Dirent>, e: FsEntry)
    requires ValidName(name)
    ensures r.excluded == NormaliseExcludes(["/"]) && root.path == "/" && WellNamed(listing)
    ensures listing == [Dirent(name, Regular, true, true, size, 0, false, [])] && e == EntryOf("/", listing[0])
    ensures WalkOutput(r, root, listing, e) == 0 && FilteredOutput(r, root, listing, e) == 1
  {
    var de := Dirent(name, Regular, true, true, size, 0, false, []);
    r, root, listing := Rules(0, true, NormaliseExcludes(["/"])), FsEntry("/", "/", Directory, 0, 0), [de];
    e := EntryOf("/", de);
    SlashAloneIsExcluded(name);
    JoinRender([], name);
    assert Render([]) == "/" && [] + [name] == [name];
    assert !IsExcluded(e.path, {});
    assert listing[1..] == [];
    assert Beneath(Unpruned(r), "/", listing, e) == BeneathEntry(Unpruned(r), "/", de, e) + Beneath(Unpruned(r), "/", [], e);
  }

  lemma {:induction false} SlashAloneIsExcluded(name: string)
    requires ValidName(name)
    ensures IsExcluded("/", NormaliseExcludes(["/"])) && !IsExcluded(Render([name]), NormaliseExcludes(["/"]))
    ensures Render([name]) != "/"
  {
    NormPathCanonical([]);
    NormPathCanonical([name]);
    assert Render([]) == "/" && "/" in ["/"] && NormPath("/") == "/";
    assert "/" in NormaliseExcludes(["/"]);
    RootExcluded(["/"]);
    assert Render([name])[1] == name[0] != '/';
    forall ex | ex in NormaliseExcludes(["/"]) ensures ex == "/" {
      var x :| x in ["/"] && x != "" && ex == NormPath(x);
    }
  }
}
