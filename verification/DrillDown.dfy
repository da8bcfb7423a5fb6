/** Drill-down: which rows the depth + LIKE + present filter selects, and conservation of the
    rolled-up totals from a directory to its children. */
module DrillDown {
  import opened Lists
  import opened PosixPaths
  import opened Catalogue
  import opened Rollup
  import opened LikePaths
  import Like
  import RollupService

  /** The WHERE clause of `list_children`; `same` is the database's comparison of path characters. */
  predicate Selected(same: Compare, volume: int, mount: string, path: string, r: FsRow)
  {
    && r.key.volume == volume
    && r.info.depth == DepthWithin(mount, path) + 1
    && Like.Matches(same, Like.EscapeLike(RStrip(path)) + "/%", r.info.path)
    && r.present
  }

  /** An immediate child of the directory with components `ds`. */
  predicate IsChild(volume: int, ds: seq<string>, r: FsRow)
  {
    Live(volume, r) && ds < Comps(r.info.path) && |Comps(r.info.path)| == |ds| + 1
  }

  /** A live row at the children's level whose parent directory is another one, yet compares equal. */
  ghost predicate Lookalike(same: Compare, volume: int, ds: seq<string>, r: FsRow)
  {
    var ps := Comps(r.info.path);
    && Live(volume, r) && |ps| == |ds| + 1
    && ps[..|ds|] != ds && Alike(same, Render(ds), Render(ps[..|ds|]))
  }

  /** A row as vetting writes it: canonical, in the mount, its depth column counting the components below the mount. */
  ghost predicate Placed(ms: seq<string>, r: FsRow)
  {
    Canonical(r.info.path) && ms <= Comps(r.info.path) && r.info.depth == |Comps(r.info.path)| - |ms|
  }

  /** The depth column counts the components below the mount. */
  ghost predicate DepthsRight(volume: int, ms: seq<string>, rows: seq<FsRow>)
  {
    forall i :: 0 <= i < |rows| && Live(volume, rows[i]) ==> rows[i].info.depth == |Comps(rows[i].info.path)| - |ms|
  }

  /** For every directory at or below the mount, `/` included, and any comparison of characters, the filter selects the
      immediate children and the lookalikes: no deeper row, no row of a sibling whose name merely begins alike, and no
      effect of `%` or `_` in real names. */
  lemma {:induction false} FilterSelectsChildren(same: Compare, volume: int, ms: seq<string>, ds: seq<string>, r: FsRow)
    requires PathLike(same) && ValidNames(ms) && ValidNames(ds) && ms <= ds && Placed(ms, r)
    ensures Selected(same, volume, Render(ms), Render(ds), r)
       <==> IsChild(volume, ds, r) || Lookalike(same, volume, ds, r)
  {
    var ps := Comps(r.info.path);
    assert ds == ms + ds[|ms|..];
    DepthIsLevels(ms, ds[|ms|..]);
    if ps != [] {
      BelowPattern(same, ds, ps);
      if |ps| == |ds| + 1 {
        AlikeBelow(same, ds, ps[..|ds|]);
        AlikeItself(same, Render(ds));
        assert ds < ps <==> ps[..|ds|] == ds;
      }
    }
  }

  lemma {:induction false} AlikeItself(same: Compare, s: string)
    requires PathLike(same)
    ensures Alike(same, s, s)
  {
  }

  /** The filter selects exactly the children if and only if the table has no lookalike; with exact comparison it never
      has one. */
  lemma {:induction false} FilterExactIff(same: Compare, volume: int, ms: seq<string>, ds: seq<string>, rows: seq<FsRow>)
    requires PathLike(same) && ValidNames(ms) && ValidNames(ds) && ms <= ds
    requires forall i :: 0 <= i < |rows| ==> Placed(ms, rows[i])
    ensures (forall i :: 0 <= i < |rows| ==>
               (Selected(same, volume, Render(ms), Render(ds), rows[i]) <==> IsChild(volume, ds, rows[i])))
       <==> forall i :: 0 <= i < |rows| ==> !Lookalike(same, volume, ds, rows[i])
    ensures same == Like.Equal ==> forall i :: 0 <= i < |rows| ==> !Lookalike(same, volume, ds, rows[i])
  {
    forall i | 0 <= i < |rows|
      ensures Selected(same, volume, Render(ms), Render(ds), rows[i])
         <==> IsChild(volume, ds, rows[i]) || Lookalike(same, volume, ds, rows[i])
    {
      FilterSelectsChildren(same, volume, ms, ds, rows[i]);
    }
    if same == Like.Equal {
      forall i | 0 <= i < |rows| ensures !Lookalike(same, volume, ds, rows[i]) { NoExactLookalike(volume, ms, ds, rows[i]); }
    }
  }

  lemma {:induction false} NoExactLookalike(volume: int, ms: seq<string>, ds: seq<string>, r: FsRow)
    requires ValidNames(ds) && Placed(ms, r)
    ensures !Lookalike(Like.Equal, volume, ds, r)
  {
    ExactIsPathLike();
    var ps := Comps(r.info.path);
    if |ps| == |ds| + 1 && Render(ps[..|ds|]) == Render(ds) { RenderInjective(ps[..|ds|], ds); }
  }

  /** A row in a directory that is another one, yet compares equal, is listed among the children. */
  lemma {:induction false} LookalikeListed(same: Compare, volume: int, ms: seq<string>, ds: seq<string>, qs: seq<string>,
                                           name: string, r: FsRow)
    requires PathLike(same) && ValidNames(ds) && ValidNames(qs) && ValidName(name) && ms <= ds && ms <= qs
    requires |qs| == |ds| && qs != ds && Alike(same, Render(ds), Render(qs))
    requires Live(volume, r) && r.info.path == Render(qs + [name]) && r.info.depth == |qs| + 1 - |ms|
    ensures Placed(ms, r) && Selected(same, volume, Render(ms), Render(ds), r) && !IsChild(volume, ds, r)
  {
    var ps := qs + [name];
    CanonicalRender(ps);
    assert ps[..|ds|] == qs;
    FilterSelectsChildren(same, volume, ms, ds, r);
  }

  /** Where LIKE ignores case, listing `/foo` lists the file `/Foo/x` too. */
  lemma {:induction false} CaseFoldLists(volume: int, r: FsRow)
    requires Live(volume, r) && r.info.path == "/Foo/x" && r.info.depth == 2
    ensures Placed([], r) && Selected(NoCase, volume, "/", "/foo", r) && !IsChild(volume, ["foo"], r)
  {
    NoCaseIsPathLike();
    assert Render([]) == "/" && Render(["foo"]) == "/foo" && Render(["Foo"]) == "/Foo";
    assert JoinSlash(["Foo", "x"]) == "Foo" + "/" + JoinSlash(["x"]) by { assert ["Foo", "x"][1..] == ["x"]; }
    assert Render(["Foo"] + ["x"]) == "/Foo/x" by { assert ["Foo"] + ["x"] == ["Foo", "x"]; }
    assert Alike(NoCase, "/foo", "/Foo") by {
      assert NoCase('f', 'F') && NoCase('o', 'o') && NoCase('/', '/');
      assert Like.OccursAt(NoCase, "/foo", "/Foo", 0);
    }
    LookalikeListed(NoCase, volume, [], ["foo"], ["Foo"], "x", r);
  }

  // ---------------------------------------------------------------- the listing

  /** A listed child: its row, and its subtree figures. */
  datatype TreeChild = TreeChild(row: FsRow, subtreeLogical: int, subtreeOnDisk: int, fileCount: int)

  /** The order of names that the database uses, whatever its collation. */
  ghost predicate Order(leq: (string, string) -> bool)
  {
    && (forall a, b :: leq(a, b) || leq(b, a))
    && (forall a, b, c :: leq(a, b) && leq(b, c) ==> leq(a, c))
  }

  ghost predicate ByName(leq: (string, string) -> bool, rows: seq<FsRow>)
  {
    forall i, j :: 0 <= i < j < |rows| ==> leq(rows[i].info.name, rows[j].info.name)
  }

  /** The rollup row that the outer join finds, if any; `(volume, path)` is unique in that table. */
  function Joined(rollups: seq<RollupService.RollupRow>, r: FsRow): Option<RollupService.RollupRow>
  {
    if rollups == [] then None
    else if rollups[0].volume == r.key.volume && rollups[0].path == r.info.path then Some(rollups[0])
    else Joined(rollups[1..], r)
  }

  function ChildOf(rollups: seq<RollupService.RollupRow>, r: FsRow): TreeChild
  {
    match Joined(rollups, r)
    case Some(u) => TreeChild(r, u.acc.logical, u.acc.onDisk, u.acc.files)
    case None => TreeChild(r, r.size, r.info.sizeOnDisk, if r.info.isDir then 0 else 1)
  }

  /** The query's rows: the selected ones, each as often as it is stored, by name. */
  method SelectRows(same: Compare, leq: (string, string) -> bool, volume: int, mount: string, path: string,
                    rows: seq<FsRow>)
    returns (found: seq<FsRow>)
    requires Order(leq)
    ensures ByName(leq, found)
    ensures forall r :: multiset(found)[r] == if Selected(same, volume, mount, path, r) then multiset(rows)[r] else 0
  {
    found := [];
    for i := 0 to |rows|
      invariant ByName(leq, found)
      invariant forall r :: multiset(found)[r] == if Selected(same, volume, mount, path, r) then multiset(rows[..i])[r] else 0
    {
      assert rows[..i + 1] == rows[..i] + [rows[i]];
      if Selected(same, volume, mount, path, rows[i]) {
        found := InsertByName(leq, found, rows[i]);
      }
    }
    assert rows[..|rows|] == rows;
  }

  method InsertByName(leq: (string, string) -> bool, rows: seq<FsRow>, r: FsRow) returns (more: seq<FsRow>)
    requires Order(leq) && ByName(leq, rows)
    ensures ByName(leq, more) && multiset(more) == multiset(rows) + multiset{r}
  {
    var n := 0;
    while n < |rows| && leq(rows[n].info.name, r.info.name)
      invariant n <= |rows| && forall i :: 0 <= i < n ==> leq(rows[i].info.name, r.info.name)
    {
      n := n + 1;
    }
    more := rows[..n] + [r] + rows[n..];
    assert n < |rows| ==> leq(r.info.name, rows[n].info.name);
    InsertedByName(leq, rows, r, n);
    assert multiset(rows) == multiset(rows[..n]) + multiset(rows[n..]) by { assert rows == rows[..n] + rows[n..]; }
  }

  lemma {:induction false} InsertedByName(leq: (string, string) -> bool, rows: seq<FsRow>, r: FsRow, n: nat)
    requires Order(leq) && ByName(leq, rows) && n <= |rows|
    requires forall i :: 0 <= i < n ==> leq(rows[i].info.name, r.info.name)
    requires n < |rows| ==> leq(r.info.name, rows[n].info.name)
    ensures ByName(leq, rows[..n] + [r] + rows[n..])
  {
    var more := rows[..n] + [r] + rows[n..];
    forall i, j | 0 <= i < j < |more| ensures leq(more[i].info.name, more[j].info.name) {
      if i == n {
        assert more[j] == rows[j - 1];
        if j - 1 > n { assert leq(rows[n].info.name, rows[j - 1].info.name); }
      } else {
        assert more[i] == rows[if i < n then i else i - 1];
        assert j != n ==> more[j] == rows[if j < n then j else j - 1];
      }
    }
  }

  function RowsOf(children: seq<TreeChild>): (rows: seq<FsRow>)
    ensures |rows| == |children| && forall i :: 0 <= i < |rows| ==> rows[i] == children[i].row
  {
    seq(|children|, i requires 0 <= i < |children| => children[i].row)
  }

  /** The children as `list_children` lists them: by name, each with the figures of its rollup row or its own. */
  method ListChildren(same: Compare, leq: (string, string) -> bool, volume: int, mount: string, path: string,
                      rows: seq<FsRow>, rollups: seq<RollupService.RollupRow>)
    returns (children: seq<TreeChild>)
    requires Order(leq)
    ensures forall i :: 0 <= i < |children| ==> children[i] == ChildOf(rollups, children[i].row)
    ensures ByName(leq, RowsOf(children))
    ensures forall r :: multiset(RowsOf(children))[r]
                        == if Selected(same, volume, mount, path, r) then multiset(rows)[r] else 0
  {
    var found := SelectRows(same, leq, volume, mount, path, rows);
    children := [];
    for i := 0 to |found|
      invariant |children| == i
      invariant forall j :: 0 <= j < i ==> children[j] == ChildOf(rollups, found[j]) && children[j].row == found[j]
    {
      var entry := found[i];
      match Joined(rollups, entry) {
        case Some(rollup) =>
          children := children + [TreeChild(entry, rollup.acc.logical, rollup.acc.onDisk, rollup.acc.files)];
        case None =>
          children := children + [TreeChild(entry, entry.size, entry.info.sizeOnDisk, if entry.info.isDir then 0 else 1)];
      }
    }
    assert RowsOf(children) == found;
  }

  // ---------------------------------------------------------------- sums over children

  function Last(rows: seq<FsRow>): FsRow
    requires rows != []
  {
    rows[|rows| - 1]
  }

  function Init(rows: seq<FsRow>): seq<FsRow>
    requires rows != []
  {
    rows[..|rows| - 1]
  }

  /** Own size plus rolled-up total, over the selected rows. */
  function ChildTotals(
    same: Compare, m: Measure, volume: int, mount: string, rows: seq<FsRow>, all: seq<FsRow>, path: string): int
  {
    if rows == [] then 0
    else ChildTotals(same, m, volume, mount, Init(rows), all, path)
         + var c := Last(rows);
           if Selected(same, volume, mount, path, c) then Own(m, c) + Total(m, volume, mount, all, c.info.path) else 0
  }

  /** The same over the selected lookalikes alone. */
  ghost function StraySum(same: Compare, m: Measure, volume: int, mount: string, rows: seq<FsRow>, all: seq<FsRow>,
                          ds: seq<string>): int
  {
    if rows == [] then 0
    else StraySum(same, m, volume, mount, Init(rows), all, ds)
         + var c := Last(rows);
           if Lookalike(same, volume, ds, c) then Own(m, c) + Total(m, volume, mount, all, c.info.path) else 0
  }

  function OwnSum(m: Measure, volume: int, rows: seq<FsRow>, ds: seq<string>): int
  {
    if rows == [] then 0
    else OwnSum(m, volume, Init(rows), ds) + if IsChild(volume, ds, Last(rows)) then Own(m, Last(rows)) else 0
  }

  /** `w` for every child row that the entry at `path` lies strictly beneath. */
  function Cover(volume: int, rows: seq<FsRow>, ds: seq<string>, path: string, w: int): int
  {
    if rows == [] then 0
    else Cover(volume, Init(rows), ds, path, w)
         + if IsChild(volume, ds, Last(rows)) && StrictlyBelow(path, Last(rows).info.path) then w else 0
  }

  function CoverSum(m: Measure, volume: int, rows: seq<FsRow>, ds: seq<string>, all: seq<FsRow>): int
  {
    if all == [] then 0
    else CoverSum(m, volume, rows, ds, Init(all))
         + if Live(volume, Last(all)) then Cover(volume, rows, ds, Last(all).info.path, Own(m, Last(all))) else 0
  }

  /** Exchanging the two summations: one more child row adds what lies beneath it. */
  lemma {:induction false} CoverSumSnoc(m: Measure, volume: int, rows: seq<FsRow>, ds: seq<string>, all: seq<FsRow>)
    requires rows != []
    ensures CoverSum(m, volume, rows, ds, all)
            == CoverSum(m, volume, Init(rows), ds, all)
               + if IsChild(volume, ds, Last(rows)) then BeneathSum(m, volume, all, Last(rows).info.path) else 0
  {
    if all != [] { CoverSumSnoc(m, volume, rows, ds, Init(all)); }
  }

  lemma {:induction false} CoverSumNone(m: Measure, volume: int, ds: seq<string>, all: seq<FsRow>)
    ensures CoverSum(m, volume, [], ds, all) == 0
  {
    if all != [] {
      CoverSumNone(m, volume, ds, Init(all));
      assert Cover(volume, [], ds, Last(all).info.path, Own(m, Last(all))) == 0;
    }
  }

  lemma {:induction false} VettedInit(volume: int, ms: seq<string>, rows: seq<FsRow>)
    requires Vetted(volume, ms, rows) && DepthsRight(volume, ms, rows) && rows != []
    ensures Vetted(volume, ms, Init(rows)) && DepthsRight(volume, ms, Init(rows))
  {
  }

  lemma {:induction false} ChildTotalsSplit(same: Compare, m: Measure, volume: int, ms: seq<string>, rows: seq<FsRow>,
                                            all: seq<FsRow>, ds: seq<string>)
    requires Vetted(volume, ms, rows) && DepthsRight(volume, ms, rows) && Vetted(volume, ms, all)
    requires PathLike(same) && ValidNames(ds) && ms <= ds
    ensures ChildTotals(same, m, volume, Render(ms), rows, all, Render(ds))
            == OwnSum(m, volume, rows, ds) + CoverSum(m, volume, rows, ds, all)
               + StraySum(same, m, volume, Render(ms), rows, all, ds)
  {
    if rows == [] {
      CoverSumNone(m, volume, ds, all);
    } else {
      VettedInit(volume, ms, rows);
      ChildTotalsSplit(same, m, volume, ms, Init(rows), all, ds);
      CoverSumSnoc(m, volume, rows, ds, all);
      var c := Last(rows);
      if Live(volume, c) {
        assert rows[|rows| - 1] == c;
        FilterSelectsChildren(same, volume, ms, ds, c);
        if IsChild(volume, ds, c) { TotalIsBeneathSum(m, volume, ms, all, Comps(c.info.path)); }
      }
    }
  }

  // ---------------------------------------------------------------- each entry under one child

  lemma {:induction false} CoverNone(volume: int, rows: seq<FsRow>, ds: seq<string>, path: string, w: int)
    requires forall i :: 0 <= i < |rows| ==> !(IsChild(volume, ds, rows[i]) && StrictlyBelow(path, rows[i].info.path))
    ensures Cover(volume, rows, ds, path, w) == 0
  {
    if rows != [] {
      assert forall i :: 0 <= i < |Init(rows)| ==> Init(rows)[i] == rows[i];
      CoverNone(volume, Init(rows), ds, path, w);
    }
  }

  /** How many child rows of `ds` the path lies strictly beneath. */
  function Covers(volume: int, rows: seq<FsRow>, ds: seq<string>, path: string): nat
  {
    if rows == [] then 0
    else Covers(volume, Init(rows), ds, path)
         + if IsChild(volume, ds, Last(rows)) && StrictlyBelow(path, Last(rows).info.path) then 1 else 0
  }

  lemma {:induction false} OneMoreTime(n: nat, w: int)
    ensures (n + 1) * w == n * w + w
  {
  }

  lemma {:induction false} CoverIsTimes(volume: int, rows: seq<FsRow>, ds: seq<string>, path: string, w: int)
    ensures Cover(volume, rows, ds, path, w) == Covers(volume, rows, ds, path) * w
  {
    if rows != [] {
      CoverIsTimes(volume, Init(rows), ds, path, w);
      OneMoreTime(Covers(volume, Init(rows), ds, path), w);
    }
  }

  ghost predicate Above(volume: int, rows: seq<FsRow>, ds: seq<string>, path: string, i: int)
  {
    0 <= i < |rows| && IsChild(volume, ds, rows[i]) && StrictlyBelow(path, rows[i].info.path)
  }

  lemma {:induction false} CoversCount(volume: int, rows: seq<FsRow>, ds: seq<string>, path: string)
    ensures Covers(volume, rows, ds, path) >= 1 <==> exists i :: Above(volume, rows, ds, path, i)
    ensures Covers(volume, rows, ds, path) >= 2
            <==> exists i, j :: i < j && Above(volume, rows, ds, path, i) && Above(volume, rows, ds, path, j)
  {
    if rows != [] {
      var init, n := Init(rows), |rows| - 1;
      CoversCount(volume, init, ds, path);
      assert forall i :: i != n ==> (Above(volume, init, ds, path, i) <==> Above(volume, rows, ds, path, i));
      assert Above(volume, rows, ds, path, n) <==> IsChild(volume, ds, rows[n]) && StrictlyBelow(path, rows[n].info.path);
    }
  }

  /** A live entry beneath `ds`, and deeper than its children. */
  predicate Deeper(volume: int, ds: seq<string>, e: FsRow)
  {
    Live(volume, e) && ds < Comps(e.info.path) && |Comps(e.info.path)| > |ds| + 1
  }

  /** What a deeper entry adds for each child row above it but the first; one that has none is missing from the
      children's totals. */
  function Extra(m: Measure, volume: int, rows: seq<FsRow>, ds: seq<string>, e: FsRow): int
  {
    if Deeper(volume, ds, e) then (Covers(volume, rows, ds, e.info.path) - 1) * Own(m, e) else 0
  }

  function Surplus(m: Measure, volume: int, rows: seq<FsRow>, ds: seq<string>, all: seq<FsRow>): int
  {
    if all == [] then 0
    else Surplus(m, volume, rows, ds, Init(all)) + Extra(m, volume, rows, ds, Last(all))
  }

  /** Every live entry deeper than the mount's children has a live row for its parent directory. */
  ghost predicate ParentClosed(volume: int, ms: seq<string>, rows: seq<FsRow>)
  {
    forall i :: 0 <= i < |rows| && Live(volume, rows[i]) && |Comps(rows[i].info.path)| > |ms| + 1 ==>
      exists j :: ParentAt(volume, rows, i, j)
  }

  predicate ParentAt(volume: int, rows: seq<FsRow>, i: nat, j: nat)
  {
    i < |rows| && j < |rows| && Live(volume, rows[j]) && rows[i].info.path != "/" && Comps(rows[i].info.path) != [] &&
    var ps := Comps(rows[i].info.path);
    Comps(rows[j].info.path) == ps[..|ps| - 1]
  }

  /** No two live rows of the volume share a path. */
  ghost predicate OnePerPath(volume: int, rows: seq<FsRow>)
  {
    forall i, j :: 0 <= i < j < |rows| && Live(volume, rows[i]) && Live(volume, rows[j]) ==>
      rows[i].info.path != rows[j].info.path
  }

  /** Going up parent by parent reaches a live row at every level below the mount. */
  lemma {:induction false} AncestorRow(volume: int, ms: seq<string>, rows: seq<FsRow>, i: nat,
                                       level: nat) returns (j: nat)
    requires Vetted(volume, ms, rows) && ParentClosed(volume, ms, rows)
    requires i < |rows| && Live(volume, rows[i]) && |ms| < level <= |Comps(rows[i].info.path)|
    ensures j < |rows| && Live(volume, rows[j]) && Comps(rows[j].info.path) == Comps(rows[i].info.path)[..level]
    decreases |Comps(rows[i].info.path)|
  {
    var ps := Comps(rows[i].info.path);
    if level == |ps| {
      j := i;
      assert ps[..level] == ps;
    } else {
      var p :| ParentAt(volume, rows, i, p);
      j := AncestorRow(volume, ms, rows, p, level);
      assert ps[..|ps| - 1][..level] == ps[..level];
    }
  }

  /** An entry is beneath a child row exactly when that row is its ancestor at the child level. */
  lemma {:induction false} BelowChild(volume: int, ds: seq<string>, e: FsRow, c: FsRow)
    requires Canonical(e.info.path) && Canonical(c.info.path) && IsChild(volume, ds, c)
    ensures StrictlyBelow(e.info.path, c.info.path) <==> Comps(c.info.path) < Comps(e.info.path)
    ensures StrictlyBelow(e.info.path, c.info.path) ==>
              ds < Comps(e.info.path) && |Comps(e.info.path)| > |ds| + 1
              && Comps(c.info.path) == Comps(e.info.path)[..|ds| + 1]
  {
    StrictlyBelowIsPrefix(Comps(c.info.path), Comps(e.info.path));
  }

  /** Per entry: beneath `ds` it is counted once as a child itself, or once for every child row above it. */
  lemma {:induction false} CountedPerCover(m: Measure, volume: int, ms: seq<string>, rows: seq<FsRow>, ds: seq<string>,
                                           e: FsRow)
    requires Vetted(volume, ms, rows) && ValidNames(ds) && Live(volume, e) && Canonical(e.info.path)
    ensures (if IsChild(volume, ds, e) then Own(m, e) else 0) + Cover(volume, rows, ds, e.info.path, Own(m, e))
            == (if StrictlyBelow(e.info.path, Render(ds)) then Own(m, e) else 0) + Extra(m, volume, rows, ds, e)
  {
    var ps, w := Comps(e.info.path), Own(m, e);
    StrictlyBelowIsPrefix(ds, ps);
    if Deeper(volume, ds, e) {
      CoverIsTimes(volume, rows, ds, e.info.path, w);
      assert (Covers(volume, rows, ds, e.info.path) - 1) * w == Covers(volume, rows, ds, e.info.path) * w - w;
    } else {
      forall k | 0 <= k < |rows|
        ensures !(IsChild(volume, ds, rows[k]) && StrictlyBelow(e.info.path, rows[k].info.path))
      {
        if IsChild(volume, ds, rows[k]) { BelowChild(volume, ds, e, rows[k]); }
      }
      CoverNone(volume, rows, ds, e.info.path, w);
    }
  }

  lemma {:induction false} SumsAgree(m: Measure, volume: int, ms: seq<string>, rows: seq<FsRow>, ds: seq<string>,
                                     all: seq<FsRow>)
    requires Vetted(volume, ms, rows) && Vetted(volume, ms, all) && ValidNames(ds)
    ensures BeneathSum(m, volume, all, Render(ds)) + Surplus(m, volume, rows, ds, all)
            == OwnSum(m, volume, all, ds) + CoverSum(m, volume, rows, ds, all)
  {
    if all != [] {
      var e := Last(all);
      assert forall i :: 0 <= i < |Init(all)| ==> Init(all)[i] == all[i];
      SumsAgree(m, volume, ms, rows, ds, Init(all));
      if Live(volume, e) {
        assert e == all[|all| - 1];
        CountedPerCover(m, volume, ms, rows, ds, e);
      }
    }
  }

  /** Conservation, for any vetted catalogue: own size plus total, summed over the selected children of a directory, the
      mount `/` included, is the directory's total, plus what lookalikes add, plus what entries beneath several child
      rows on one path add and entries beneath none take away; in bytes and in counts. */
  lemma {:induction false} TotalsConserved(same: Compare, m: Measure, volume: int, ms: seq<string>, rows: seq<FsRow>,
                                           ds: seq<string>)
    requires Vetted(volume, ms, rows) && DepthsRight(volume, ms, rows)
    requires PathLike(same) && ValidNames(ds) && ms <= ds
    ensures ChildTotals(same, m, volume, Render(ms), rows, rows, Render(ds))
         == Total(m, volume, Render(ms), rows, Render(ds))
            + StraySum(same, m, volume, Render(ms), rows, rows, ds) + Surplus(m, volume, rows, ds, rows)
  {
    TotalIsBeneathSum(m, volume, ms, rows, ds);
    ChildTotalsSplit(same, m, volume, ms, rows, rows, ds);
    SumsAgree(m, volume, ms, rows, ds, rows);
  }

  lemma {:induction false} NoStrays(same: Compare, m: Measure, volume: int, mount: string, rows: seq<FsRow>,
                                    all: seq<FsRow>, ds: seq<string>)
    requires forall i :: 0 <= i < |rows| ==> !Lookalike(same, volume, ds, rows[i])
    ensures StraySum(same, m, volume, mount, rows, all, ds) == 0
  {
    if rows != [] {
      assert forall i :: 0 <= i < |Init(rows)| ==> Init(rows)[i] == rows[i];
      NoStrays(same, m, volume, mount, Init(rows), all, ds);
      assert !Lookalike(same, volume, ds, rows[|rows| - 1]);
    }
  }

  lemma {:induction false} TimesCount(ds: seq<string>, d: string, w: nat)
    ensures Times(ds, d, w) >= 0
  {
    if ds != [] { TimesCount(ds[1..], d, w); }
  }

  lemma {:induction false} TotalCount(m: Measure, volume: int, mount: string, rows: seq<FsRow>, d: string)
    requires m.FileCount? || m.DirCount?
    ensures Total(m, volume, mount, rows, d) >= 0
  {
    if rows != [] {
      var r := rows[|rows| - 1];
      TotalCount(m, volume, mount, rows[..|rows| - 1], d);
      TimesCount(AncestorDirs(r.info.path, mount), d, Own(m, r));
    }
  }

  /** A lookalike is a file or a directory, so it adds to one of the counts. */
  lemma {:induction false} StraysCount(same: Compare, volume: int, mount: string, rows: seq<FsRow>, all: seq<FsRow>,
                                       ds: seq<string>)
    ensures var files := StraySum(same, FileCount, volume, mount, rows, all, ds);
            var dirs := StraySum(same, DirCount, volume, mount, rows, all, ds);
            files >= 0 && dirs >= 0
            && (files + dirs == 0 <==> forall i :: 0 <= i < |rows| ==> !Lookalike(same, volume, ds, rows[i]))
  {
    if rows != [] {
      var c := Last(rows);
      StraysCount(same, volume, mount, Init(rows), all, ds);
      TotalCount(FileCount, volume, mount, all, c.info.path);
      TotalCount(DirCount, volume, mount, all, c.info.path);
      assert forall i :: 0 <= i < |Init(rows)| ==> Init(rows)[i] == rows[i];
      assert Lookalike(same, volume, ds, c) ==> Lookalike(same, volume, ds, rows[|rows| - 1]);
    }
  }

  /** Own size plus total, summed over the selected children, is the directory's total. */
  ghost predicate Conserved(same: Compare, m: Measure, volume: int, ms: seq<string>, rows: seq<FsRow>, ds: seq<string>)
  {
    ChildTotals(same, m, volume, Render(ms), rows, rows, Render(ds)) == Total(m, volume, Render(ms), rows, Render(ds))
  }

  /** Rows `i` and `j` are live children of `ds` on one path, and row `e` is a live entry beneath them. */
  ghost predicate DoubledOver(volume: int, rows: seq<FsRow>, ds: seq<string>, i: int, j: int, e: int)
  {
    && 0 <= i < j < |rows| && IsChild(volume, ds, rows[i]) && IsChild(volume, ds, rows[j])
    && rows[i].info.path == rows[j].info.path
    && 0 <= e < |rows| && Live(volume, rows[e]) && StrictlyBelow(rows[e].info.path, rows[i].info.path)
  }

  /** Some directory among the children of `ds` has two live rows, and something live beneath it. */
  ghost predicate Doubled(volume: int, rows: seq<FsRow>, ds: seq<string>)
  {
    exists i, j, e :: DoubledOver(volume, rows, ds, i, j, e)
  }

  ghost predicate CoveredOnce(volume: int, rows: seq<FsRow>, ds: seq<string>, all: seq<FsRow>)
  {
    forall i :: 0 <= i < |all| && Deeper(volume, ds, all[i]) ==> Covers(volume, rows, ds, all[i].info.path) == 1
  }

  /** With a row for every parent directory, each deeper entry has a child row above it. */
  lemma {:induction false} Covered(volume: int, ms: seq<string>, rows: seq<FsRow>, ds: seq<string>, i: nat)
    requires Vetted(volume, ms, rows) && ParentClosed(volume, ms, rows) && ms <= ds
    requires i < |rows| && Deeper(volume, ds, rows[i])
    ensures Covers(volume, rows, ds, rows[i].info.path) >= 1
  {
    var e, ps := rows[i], Comps(rows[i].info.path);
    var j := AncestorRow(volume, ms, rows, i, |ds| + 1);
    assert ps[..|ds| + 1][..|ds|] == ps[..|ds|] == ds;
    BelowChild(volume, ds, e, rows[j]);
    assert Above(volume, rows, ds, e.info.path, j);
    CoversCount(volume, rows, ds, e.info.path);
  }

  /** Two child rows above one entry are on one path. */
  lemma {:induction false} SamePath(volume: int, ms: seq<string>, rows: seq<FsRow>, ds: seq<string>, e: FsRow, i: int, j: int)
    requires Vetted(volume, ms, rows) && Canonical(e.info.path)
    requires Above(volume, rows, ds, e.info.path, i) && Above(volume, rows, ds, e.info.path, j)
    ensures rows[i].info.path == rows[j].info.path && ds < Comps(e.info.path) && |Comps(e.info.path)| > |ds| + 1
  {
    BelowChild(volume, ds, e, rows[i]);
    BelowChild(volume, ds, e, rows[j]);
  }

  /** So it has exactly one, unless some directory is doubled. */
  lemma {:induction false} CoveredOnceIff(volume: int, ms: seq<string>, rows: seq<FsRow>, ds: seq<string>)
    requires Vetted(volume, ms, rows) && ParentClosed(volume, ms, rows) && ms <= ds
    ensures CoveredOnce(volume, rows, ds, rows) <==> !Doubled(volume, rows, ds)
  {
    if i, j, e :| DoubledOver(volume, rows, ds, i, j, e) { CoveredTwice(volume, ms, rows, ds, i, j, e); }
    if e :| 0 <= e < |rows| && Deeper(volume, ds, rows[e]) && Covers(volume, rows, ds, rows[e].info.path) != 1 {
      NotCoveredOnce(volume, ms, rows, ds, e);
    }
  }

  lemma {:induction false} CoveredTwice(volume: int, ms: seq<string>, rows: seq<FsRow>, ds: seq<string>, i: int, j: int,
                                        e: int)
    requires Vetted(volume, ms, rows) && DoubledOver(volume, rows, ds, i, j, e)
    ensures Deeper(volume, ds, rows[e]) && Covers(volume, rows, ds, rows[e].info.path) >= 2
  {
    var path := rows[e].info.path;
    assert Above(volume, rows, ds, path, i) && Above(volume, rows, ds, path, j);
    SamePath(volume, ms, rows, ds, rows[e], i, j);
    CoversCount(volume, rows, ds, path);
  }

  lemma {:induction false} NotCoveredOnce(volume: int, ms: seq<string>, rows: seq<FsRow>, ds: seq<string>, e: int)
    requires Vetted(volume, ms, rows) && ParentClosed(volume, ms, rows) && ms <= ds
    requires 0 <= e < |rows| && Deeper(volume, ds, rows[e]) && Covers(volume, rows, ds, rows[e].info.path) != 1
    ensures Doubled(volume, rows, ds)
  {
    var path := rows[e].info.path;
    Covered(volume, ms, rows, ds, e);
    CoversCount(volume, rows, ds, path);
    var i, j :| i < j && Above(volume, rows, ds, path, i) && Above(volume, rows, ds, path, j);
    SamePath(volume, ms, rows, ds, rows[e], i, j);
    assert DoubledOver(volume, rows, ds, i, j, e);
  }

  lemma {:induction false} NoSurplus(m: Measure, volume: int, rows: seq<FsRow>, ds: seq<string>, all: seq<FsRow>)
    requires CoveredOnce(volume, rows, ds, all)
    ensures Surplus(m, volume, rows, ds, all) == 0
  {
    if all != [] {
      assert forall i :: 0 <= i < |Init(all)| ==> Init(all)[i] == all[i];
      NoSurplus(m, volume, rows, ds, Init(all));
      assert Last(all) == all[|all| - 1];
    }
  }

  /** A deeper entry is a file or a directory, so a second child row above it shows in one of the counts. */
  lemma {:induction false} ExtraCounts(volume: int, rows: seq<FsRow>, ds: seq<string>, e: FsRow)
    requires Deeper(volume, ds, e) ==> Covers(volume, rows, ds, e.info.path) >= 1
    ensures Extra(FileCount, volume, rows, ds, e) >= 0 && Extra(DirCount, volume, rows, ds, e) >= 0
    ensures Extra(FileCount, volume, rows, ds, e) + Extra(DirCount, volume, rows, ds, e)
            == if Deeper(volume, ds, e) then Covers(volume, rows, ds, e.info.path) - 1 else 0
  {
  }

  lemma {:induction false} CoveredOnceSnoc(volume: int, rows: seq<FsRow>, ds: seq<string>, all: seq<FsRow>)
    requires all != []
    ensures CoveredOnce(volume, rows, ds, all)
            <==> CoveredOnce(volume, rows, ds, Init(all))
                 && (Deeper(volume, ds, Last(all)) ==> Covers(volume, rows, ds, Last(all).info.path) == 1)
  {
    assert all == Init(all) + [Last(all)];
  }

  /** Every deeper entry has a child row above it. */
  ghost predicate NoneUncovered(volume: int, rows: seq<FsRow>, ds: seq<string>, all: seq<FsRow>)
  {
    forall i :: 0 <= i < |all| && Deeper(volume, ds, all[i]) ==> Covers(volume, rows, ds, all[i].info.path) >= 1
  }

  lemma {:induction false} SurplusCounts(volume: int, rows: seq<FsRow>, ds: seq<string>, all: seq<FsRow>)
    requires NoneUncovered(volume, rows, ds, all)
    ensures var files := Surplus(FileCount, volume, rows, ds, all); var dirs := Surplus(DirCount, volume, rows, ds, all);
            files >= 0 && dirs >= 0 && (files + dirs == 0 <==> CoveredOnce(volume, rows, ds, all))
  {
    if all != [] {
      assert NoneUncovered(volume, rows, ds, Init(all)) by { assert all == Init(all) + [Last(all)]; }
      SurplusCounts(volume, rows, ds, Init(all));
      assert Deeper(volume, ds, all[|all| - 1]) ==> Covers(volume, rows, ds, all[|all| - 1].info.path) >= 1;
      ExtraCounts(volume, rows, ds, Last(all));
      CoveredOnceSnoc(volume, rows, ds, all);
    }
  }

  lemma {:induction false} CountsConserved(same: Compare, volume: int, ms: seq<string>, rows: seq<FsRow>, ds: seq<string>)
    requires Vetted(volume, ms, rows) && DepthsRight(volume, ms, rows) && ParentClosed(volume, ms, rows)
    requires PathLike(same) && ValidNames(ds) && ms <= ds
    requires Conserved(same, FileCount, volume, ms, rows, ds) && Conserved(same, DirCount, volume, ms, rows, ds)
    ensures forall i :: 0 <= i < |rows| ==> !Lookalike(same, volume, ds, rows[i])
    ensures CoveredOnce(volume, rows, ds, rows)
  {
    TotalsConserved(same, FileCount, volume, ms, rows, ds);
    TotalsConserved(same, DirCount, volume, ms, rows, ds);
    StraysCount(same, volume, Render(ms), rows, rows, ds);
    forall i | 0 <= i < |rows| && Deeper(volume, ds, rows[i]) ensures Covers(volume, rows, ds, rows[i].info.path) >= 1 {
      Covered(volume, ms, rows, ds, i);
    }
    SurplusCounts(volume, rows, ds, rows);
  }

  /** In a catalogue with a row for every parent directory, every total is conserved exactly if and only if no live row
      at the children's level lies in a directory that is another one, yet compares equal, and no directory among the
      children has two live rows and something beneath it. Exact comparison rules out the first; one live row per path
      rules out the second. */
  lemma {:induction false} ConservedIff(same: Compare, volume: int, ms: seq<string>, rows: seq<FsRow>, ds: seq<string>)
    requires Vetted(volume, ms, rows) && DepthsRight(volume, ms, rows) && ParentClosed(volume, ms, rows)
    requires PathLike(same) && ValidNames(ds) && ms <= ds
    ensures (forall m :: Conserved(same, m, volume, ms, rows, ds))
       <==> (forall i :: 0 <= i < |rows| ==> !Lookalike(same, volume, ds, rows[i])) && !Doubled(volume, rows, ds)
    ensures same == Like.Equal ==> forall i :: 0 <= i < |rows| ==> !Lookalike(same, volume, ds, rows[i])
    ensures OnePerPath(volume, rows) ==> !Doubled(volume, rows, ds)
  {
    CoveredOnceIff(volume, ms, rows, ds);
    if same == Like.Equal { ExactHasNone(volume, ms, rows, ds); }
    if forall m :: Conserved(same, m, volume, ms, rows, ds) {
      assert Conserved(same, FileCount, volume, ms, rows, ds) && Conserved(same, DirCount, volume, ms, rows, ds);
      CountsConserved(same, volume, ms, rows, ds);
    } else if (forall i :: 0 <= i < |rows| ==> !Lookalike(same, volume, ds, rows[i])) && !Doubled(volume, rows, ds) {
      forall m ensures Conserved(same, m, volume, ms, rows, ds) {
        TotalsConserved(same, m, volume, ms, rows, ds);
        NoStrays(same, m, volume, Render(ms), rows, rows, ds);
        NoSurplus(m, volume, rows, ds, rows);
      }
    }
  }

  lemma {:induction false} ExactHasNone(volume: int, ms: seq<string>, rows: seq<FsRow>, ds: seq<string>)
    requires Vetted(volume, ms, rows) && DepthsRight(volume, ms, rows) && ValidNames(ds)
    ensures forall i :: 0 <= i < |rows| ==> !Lookalike(Like.Equal, volume, ds, rows[i])
  {
    forall i | 0 <= i < |rows| ensures !Lookalike(Like.Equal, volume, ds, rows[i]) {
      if Live(volume, rows[i]) { NoExactLookalike(volume, ms, ds, rows[i]); }
    }
  }

  // ---------------------------------------------------------------- what the tree shows

  /** The subtree figure shown for a child: its rollup row when it has one, else its own figure. */
  ghost function Shown(m: Measure, volume: int, mount: string, rows: seq<FsRow>, c: FsRow): int
  {
    if IsKey(volume, mount, rows, c.info.path) then Total(m, volume, mount, rows, c.info.path) else Own(m, c)
  }

  ghost function ShownSum(
    same: Compare, m: Measure, volume: int, mount: string, rows: seq<FsRow>, all: seq<FsRow>, path: string): int
  {
    if rows == [] then 0
    else ShownSum(same, m, volume, mount, Init(rows), all, path)
         + if Selected(same, volume, mount, path, Last(rows)) then Shown(m, volume, mount, all, Last(rows)) else 0
  }

  /** The own figures of selected children that have a rollup row: the shown figure omits them. */
  ghost function Omitted(
    same: Compare, m: Measure, volume: int, mount: string, rows: seq<FsRow>, all: seq<FsRow>, path: string): int
  {
    if rows == [] then 0
    else Omitted(same, m, volume, mount, Init(rows), all, path)
         + if Selected(same, volume, mount, path, Last(rows)) && IsKey(volume, mount, all, Last(rows).info.path)
           then Own(m, Last(rows)) else 0
  }

  lemma {:induction false} NoKeyNoTotal(m: Measure, volume: int, mount: string, rows: seq<FsRow>, d: string)
    requires !IsKey(volume, mount, rows, d)
    ensures Total(m, volume, mount, rows, d) == 0
  {
    if rows != [] {
      assert forall i :: 0 <= i < |Init(rows)| ==> Init(rows)[i] == rows[i];
      NoKeyNoTotal(m, volume, mount, Init(rows), d);
      var r := rows[|rows| - 1];
      if Live(volume, r) { AbsentTimes(AncestorDirs(r.info.path, mount), d, Own(m, r)); }
    }
  }

  lemma {:induction false} AbsentTimes(ds: seq<string>, d: string, w: int)
    requires d !in ds
    ensures Times(ds, d, w) == 0
  {
    if ds != [] { AbsentTimes(ds[1..], d, w); }
  }

  lemma {:induction false} ShownSplit(same: Compare, m: Measure, volume: int, mount: string, rows: seq<FsRow>, all: seq<FsRow>,
                                      path: string)
    ensures ChildTotals(same, m, volume, mount, rows, all, path)
            == ShownSum(same, m, volume, mount, rows, all, path) + Omitted(same, m, volume, mount, rows, all, path)
  {
    if rows != [] {
      ShownSplit(same, m, volume, mount, Init(rows), all, path);
      var p := Last(rows).info.path;
      if !IsKey(volume, mount, all, p) { NoKeyNoTotal(m, volume, mount, all, p); }
    }
  }

  /** The rollup table gives each child the figure `Shown`, whatever rows of other volumes it holds, as long as this
      volume's are its rollup. */
  lemma {:induction false} ListedFigures(volume: int, mount: string, rows: seq<FsRow>,
                                         rollups: seq<RollupService.RollupRow>, now: int, r: FsRow)
    requires RollupService.IsRollup(volume, mount, rows, RollupService.RowsOf(volume, rollups), now)
    requires r.key.volume == volume
    ensures var c := ChildOf(rollups, r);
            && c.subtreeLogical == Shown(Logical, volume, mount, rows, r)
            && c.subtreeOnDisk == Shown(OnDisk, volume, mount, rows, r)
            && c.fileCount == Shown(FileCount, volume, mount, rows, r)
  {
    var made := RollupService.RowsOf(volume, rollups);
    JoinedOfVolume(rollups, r);
    JoinedIsFirst(made, r);
    if Joined(made, r).Some? {
      var i :| 0 <= i < |made| && made[i] == Joined(made, r).value;
      assert So(Logical, made[i].acc) == made[i].acc.logical && So(OnDisk, made[i].acc) == made[i].acc.onDisk;
      assert So(FileCount, made[i].acc) == made[i].acc.files;
    } else {
      assert forall i :: 0 <= i < |made| ==> made[i].volume == volume;
    }
  }

  /** The join looks at the row's own volume only. */
  lemma {:induction false} JoinedOfVolume(rollups: seq<RollupService.RollupRow>, r: FsRow)
    ensures Joined(rollups, r) == Joined(RollupService.RowsOf(r.key.volume, rollups), r)
  {
    if rollups != [] {
      JoinedOfVolume(rollups[1..], r);
      var rest := RollupService.RowsOf(r.key.volume, rollups[1..]);
      if rollups[0].volume == r.key.volume { assert ([rollups[0]] + rest)[1..] == rest; } else { assert [] + rest == rest; }
    }
  }

  lemma {:induction false} JoinedIsFirst(rollups: seq<RollupService.RollupRow>, r: FsRow)
    ensures match Joined(rollups, r)
            case Some(u) => u in rollups && u.volume == r.key.volume && u.path == r.info.path
            case None => forall i :: 0 <= i < |rollups| && rollups[i].volume == r.key.volume ==> rollups[i].path != r.info.path
  {
    if rollups != [] {
      JoinedIsFirst(rollups[1..], r);
      assert rollups == [rollups[0]] + rollups[1..];
    }
  }

  /** The figures shown for the children, plus the own figures of those that have something beneath them, are the
      parent's total plus what lookalikes and doubled rows add: a non-empty directory's own size is in its parent's
      total but not in the figure shown for it. */
  lemma {:induction false} ShownFiguresFallShort(same: Compare, m: Measure, volume: int, ms: seq<string>,
                                                 rows: seq<FsRow>, ds: seq<string>)
    requires Vetted(volume, ms, rows) && DepthsRight(volume, ms, rows)
    requires PathLike(same) && ValidNames(ds) && ms <= ds
    ensures var mount, path := Render(ms), Render(ds);
            ShownSum(same, m, volume, mount, rows, rows, path) + Omitted(same, m, volume, mount, rows, rows, path)
            == Total(m, volume, mount, rows, path) + StraySum(same, m, volume, mount, rows, rows, ds)
               + Surplus(m, volume, rows, ds, rows)
  {
    TotalsConserved(same, m, volume, ms, rows, ds);
    ShownSplit(same, m, volume, Render(ms), rows, rows, Render(ds));
  }
}
