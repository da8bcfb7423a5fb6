/** What a walk yields, said about the tree alone: the entries at the end of a way down on which everything passed is a
    plain directory of the right device, and nothing is unreadable or under an excluded path. */
module WalkRules {
  import opened PosixPaths
  import opened FileTree
  import opened WalkMeaning
  import Walk

  /** The path of an entry, seen from the root. */
  function Names(nodes: seq<Dirent>): (names: seq<string>)
    ensures |names| == |nodes| && forall i :: 0 <= i < |nodes| ==> names[i] == nodes[i].name
  {
    seq(|nodes|, i requires 0 <= i < |nodes| => nodes[i].name)
  }

  /** `nodes` goes down from the listing `ls` of the directory with components `cs`: each is readable and not excluded,
      and each but the last is a real directory, no control directory, and with `one_filesystem` on the root's
      device. */
  ghost predicate Way(r: Rules, cs: seq<string>, ls: seq<Dirent>, nodes: seq<Dirent>)
    decreases |nodes|
  {
    nodes != [] && nodes[0] in ls &&
    var de := nodes[0];
    && de.typeOk && de.statOk && !IsExcluded(Render(cs + [de.name]), r.excluded)
    && (|nodes| > 1 ==>
          && de.kind == Directory && !de.control && (r.oneFilesystem ==> de.dev == r.rootDev)
          && Way(r, cs + [de.name], de.listing, nodes[1..]))
  }

  /** The entry is the last node of the way. */
  ghost predicate EndsWith(cs: seq<string>, nodes: seq<Dirent>, e: FsEntry)
    requires nodes != []
  {
    var last := nodes[|nodes| - 1];
    && e.path == Render(cs + Names(nodes)) && e.name == last.name && e.kind == last.kind
    && e.size == last.size && e.dev == last.dev
  }

  lemma {:induction false} NamesCons(cs: seq<string>, de: Dirent, rest: seq<Dirent>)
    ensures cs + Names([de] + rest) == cs + [de.name] + Names(rest)
  {
    assert Names([de] + rest) == [de.name] + Names(rest);
  }

  lemma {:induction false} EndsWithHead(cs: seq<string>, de: Dirent, e: FsEntry)
    requires ValidNames(cs)
    ensures EndsWith(cs, [de], e) <==> e == EntryOf(Render(cs), de)
  {
    assert Names([de]) == [de.name];
    JoinRender(cs, de.name);
  }

  lemma {:induction false} EndsWithTail(cs: seq<string>, nodes: seq<Dirent>, e: FsEntry)
    requires |nodes| > 1
    ensures EndsWith(cs, nodes, e) <==> EndsWith(cs + [nodes[0].name], nodes[1..], e)
  {
    assert nodes == [nodes[0]] + nodes[1..];
    NamesCons(cs, nodes[0], nodes[1..]);
  }

  lemma {:induction false} WayOf(r: Rules, cs: seq<string>, ls: seq<Dirent>, route: seq<nat>, e: FsEntry)
      returns (nodes: seq<Dirent>)
    requires ValidNames(cs) && WellNamed(ls) && Leads(r, Render(cs), ls, route, e)
    ensures Way(r, cs, ls, nodes) && EndsWith(cs, nodes, e)
    decreases route
  {
    var de := ls[route[0]];
    JoinRender(cs, de.name);
    if |route| == 1 {
      nodes := [de];
      EndsWithHead(cs, de, e);
    } else {
      var rest := WayOf(r, cs + [de.name], de.listing, route[1..], e);
      nodes := [de] + rest;
      assert nodes[1..] == rest;
      EndsWithTail(cs, nodes, e);
    }
  }

  lemma {:induction false} RouteAlong(r: Rules, cs: seq<string>, ls: seq<Dirent>, nodes: seq<Dirent>, e: FsEntry)
      returns (route: seq<nat>)
    requires ValidNames(cs) && WellNamed(ls) && Way(r, cs, ls, nodes) && EndsWith(cs, nodes, e)
    ensures Leads(r, Render(cs), ls, route, e)
    decreases nodes
  {
    var de := nodes[0];
    var i :| 0 <= i < |ls| && ls[i] == de;
    JoinRender(cs, de.name);
    if |nodes| == 1 {
      assert nodes == [de];
      EndsWithHead(cs, de, e);
      route := [i];
    } else {
      EndsWithTail(cs, nodes, e);
      var below := RouteAlong(r, cs + [de.name], de.listing, nodes[1..], e);
      route := [i] + below;
      assert route[1..] == below;
    }
  }

  /** Every interleaving: a finished walk has yielded the root, and an entry other than the root if and only if a way
      leads to it that passes real directories only, no control directory, and with `one_filesystem` none of another
      device, and on which nothing is excluded or unreadable; each with the name, kind, size and device it has there. */
  lemma {:induction false} FinishedWalkYields(r: Rules, cap: nat, cs: seq<string>, root: FsEntry, listing: seq<Dirent>,
                                              workers: nat, acts: seq<Walk.Action>, t: Walk.State, e: FsEntry)
    requires ValidNames(cs) && root.path == Render(cs) && WellNamed(listing)
    requires Walk.Run(r, cap, Walk.Init(root, listing, workers), acts, t) && t.finished
    ensures Walk.Times(t.yielded, e)
         == if e == root || exists nodes :: Way(r, cs, listing, nodes) && EndsWith(cs, nodes, e) then 1 else 0
  {
    FinishedWalk(r, cap, cs, root, listing, workers, acts, t, e);
    if Reachable(r, root.path, listing, e) {
      var route: seq<nat> :| Leads(r, root.path, listing, route, e);
      var nodes := WayOf(r, cs, listing, route, e);
    }
    if nodes :| Way(r, cs, listing, nodes) && EndsWith(cs, nodes, e) {
      var route := RouteAlong(r, cs, listing, nodes, e);
    }
  }

  // ---------------------------------------------------------------- exclusion

  /** A text that a path continues with a slash is the path's first names. */
  lemma {:induction false} LeadingNames(ps: seq<string>, t: string)
    requires ValidNames(ps) && t != "" && StartsWith(Render(ps), t + "/")
    ensures exists k :: 0 < k < |ps| && t == Render(ps[..k])
  {
    var tail, rest := t[1..], Render(ps)[|t| + 1..];
    assert Render(ps) == t + "/" + rest;
    assert t[0] == Render(ps)[0] == '/' && t == [t[0]] + tail == "" + "/" + tail;
    SplitAppend(t, rest);
    SplitAppend("", tail);
    RenderSplit(ps);
    NamesSplit(ps, Split(tail), Split(rest));
    JoinOfSplit(tail);
    assert t == Render(ps[..|Split(tail)|]);
  }

  lemma {:induction false} NamesSplit(ps: seq<string>, a: seq<string>, b: seq<string>)
    requires a != [] && b != [] && [""] + (if ps == [] then [""] else ps) == [""] + a + b
    ensures |a| < |ps| && ps[..|a|] == a
  {
    assert [""] + a + b == [""] + (a + b);
    SameAfterHead("", if ps == [] then [""] else ps, a + b);
  }

  lemma {:induction false} JoinOfSplit(s: string)
    ensures JoinSlash(Split(s)) == s
  {
    if s != "" {
      JoinOfSplit(s[1..]);
      var rest := Split(s[1..]);
      if s[0] == '/' {
        assert Split(s)[1..] == rest;
      } else {
        assert Split(s)[1..] == rest[1..];
        if |rest| > 1 {
          assert JoinSlash(rest) == rest[0] + "/" + JoinSlash(rest[1..]);
          assert JoinSlash(Split(s)) == [s[0]] + rest[0] + "/" + JoinSlash(rest[1..]);
        }
      }
    }
  }

  /** `text` normalises to the directory with components `es`, and the path is that directory or lies below it, except
      that `/` stands for itself alone. */
  ghost predicate CoveredBy(ps: seq<string>, text: string, es: seq<string>)
  {
    text != "" && ValidNames(es) && NormPath(text) == Render(es) && (es == ps || (es != [] && es <= ps))
  }

  ghost predicate Covered(ps: seq<string>, exclude: seq<string>)
  {
    exists i, es :: 0 <= i < |exclude| && CoveredBy(ps, exclude[i], es)
  }

  lemma {:induction false} UnderText(ps: seq<string>, text: string) returns (es: seq<string>)
    requires ValidNames(ps) && text != ""
    requires Render(ps) == NormPath(text) || StartsWith(Render(ps), NormPath(text) + "/")
    ensures CoveredBy(ps, text, es)
  {
    NormPathNonEmpty(text);
    if Render(ps) == NormPath(text) {
      es := ps;
    } else {
      LeadingNames(ps, NormPath(text));
      var k :| 0 < k < |ps| && NormPath(text) == Render(ps[..k]);
      es := ps[..k];
    }
  }

  lemma {:induction false} ExcludedIsCovered(ps: seq<string>, exclude: seq<string>)
    requires ValidNames(ps) && IsExcluded(Render(ps), NormaliseExcludes(exclude))
    ensures Covered(ps, exclude)
  {
    NormPathCanonical(ps);
    var ex :| ex in NormaliseExcludes(exclude) && (Render(ps) == ex || StartsWith(Render(ps), ex + "/"));
    var x :| x in exclude && x != "" && ex == NormPath(x);
    var i :| 0 <= i < |exclude| && exclude[i] == x;
    var es := UnderText(ps, exclude[i]);
  }

  lemma {:induction false} CoveredIsExcluded(ps: seq<string>, exclude: seq<string>, x: string, es: seq<string>)
    requires ValidNames(ps) && x in exclude && CoveredBy(ps, x, es)
    ensures IsExcluded(Render(ps), NormaliseExcludes(exclude))
  {
    NormPathCanonical(ps);
    assert Render(es) in NormaliseExcludes(exclude);
    if es != ps {
      StartsBelow(es, ps);
      BelowRender(es);
    }
  }

  /** Exclusion goes by whole names: a path is excluded if and only if some exclude text normalises to it or to a
      directory above it. */
  lemma {:induction false} ExcludedIff(ps: seq<string>, exclude: seq<string>)
    requires ValidNames(ps)
    ensures IsExcluded(Render(ps), NormaliseExcludes(exclude)) <==> Covered(ps, exclude)
  {
    if IsExcluded(Render(ps), NormaliseExcludes(exclude)) { ExcludedIsCovered(ps, exclude); }
    if i, es :| 0 <= i < |exclude| && CoveredBy(ps, exclude[i], es) { CoveredIsExcluded(ps, exclude, exclude[i], es); }
  }
}
