/** Subtree rollups: the ancestor directories of an entry, computed on path strings, and the full
    recompute that adds every live entry to each of them. */
module Rollup {
  import opened PosixPaths
  import opened Catalogue

  // ---------------------------------------------------------------- ancestors on strings

  /** `path[n:]`. */
  function From(path: string, n: nat): string
  {
    if n <= |path| then path[n..] else ""
  }

  /** `cur/part` for every part but the last, each one level deeper. */
  function Chain(cur: string, parts: seq<string>): seq<string>
    decreases parts
  {
    if |parts| <= 1 then [] else [cur + "/" + parts[0]] + Chain(cur + "/" + parts[0], parts[1..])
  }

  function AncestorDirs(path: string, mount: string): seq<string>
  {
    if path == mount then []
    else if !StartsWith(path, Below(mount)) then [mount]
    else [mount] + Chain(RStrip(mount), Split(Strip(From(path, |mount|))))
  }

  function DepthWithin(mount: string, path: string): nat
  {
    var rel := Strip(From(path, |mount|));
    if rel == "" then 0 else CountSlash(rel) + 1
  }

  lemma {:induction false} ChainStep(cur: string, parts: seq<string>)
    requires |parts| > 1
    ensures Chain(cur, parts) == [cur + "/" + parts[0]] + Chain(cur + "/" + parts[0], parts[1..])
  {
  }

  /** `_ancestor_dirs`. */
  method ComputeAncestors(path: string, mount: string) returns (out: seq<string>)
    ensures out == AncestorDirs(path, mount)
  {
    if path == mount {
      return [];
    }
    if !StartsWith(path, Below(mount)) {
      return [mount];
    }
    var parts := Split(Strip(From(path, |mount|)));
    out := [mount];
    var cur := RStrip(mount);
    for i := 0 to |parts| - 1
      invariant out + Chain(cur, parts[i..]) == AncestorDirs(path, mount)
    {
      ChainStep(cur, parts[i..]);
      assert parts[i..][1..] == parts[i + 1..];
      cur := cur + "/" + parts[i];
      assert out + ([cur] + Chain(cur, parts[i + 1..])) == out + [cur] + Chain(cur, parts[i + 1..]);
      out := out + [cur];
    }
    assert Chain(cur, parts[|parts| - 1..]) == [];
  }

  lemma {:induction false} DownOne(cs: seq<string>, name: string)
    requires ValidNames(cs) && ValidName(name)
    ensures RStrip(Render(cs)) + "/" + name == Render(cs + [name])
    ensures RStrip(Render(cs + [name])) == Render(cs + [name])
  {
    BelowRender(cs);
    RenderUnder(cs, [name]);
    assert JoinSlash([name]) == name;
    BelowRender(cs + [name]);
  }

  lemma {:induction false} ChainOfRender(cs: seq<string>, rs: seq<string>, k: nat)
    requires ValidNames(cs) && ValidNames(rs) && k + 1 < |rs|
    ensures |Chain(RStrip(Render(cs)), rs)| == |rs| - 1
    ensures Chain(RStrip(Render(cs)), rs)[k] == Render(cs + rs[..k + 1])
    decreases |rs|
  {
    var down, tail := cs + [rs[0]], rs[1..];
    DownOne(cs, rs[0]);
    ChainStep(RStrip(Render(cs)), rs);
    assert Chain(RStrip(Render(cs)), rs) == [Render(down)] + Chain(RStrip(Render(down)), tail);
    if |tail| > 1 { ChainOfRender(down, tail, if k == 0 then 0 else k - 1); }
    if k == 0 {
      assert cs + rs[..1] == down;
    } else {
      assert down + tail[..k] == cs + rs[..k + 1];
    }
  }

  /** On canonical paths the string algorithm walks the component list: one ancestor per level from
      the mount down to the parent, none for the mount itself. */
  lemma {:induction false} AncestorsAreLevels(ms: seq<string>, rs: seq<string>)
    requires ValidNames(ms) && ValidNames(rs)
    ensures var out := AncestorDirs(Render(ms + rs), Render(ms));
            |out| == |rs| && forall k :: 0 <= k < |rs| ==> out[k] == Render(ms + rs[..k])
  {
    var path, mount := Render(ms + rs), Render(ms);
    var out := AncestorDirs(path, mount);
    if rs == [] {
      assert ms + rs == ms;
    } else {
      ListBelowMount(ms, rs);
      assert ms + rs[..0] == ms;
      if |rs| > 1 {
        ChainOfRender(ms, rs, 0);
        forall k | 1 <= k < |rs| ensures out[k] == Render(ms + rs[..k]) {
          ChainOfRender(ms, rs, k - 1);
        }
      }
    }
  }

  lemma {:induction false} ListBelowMount(ms: seq<string>, rs: seq<string>)
    requires ValidNames(ms) && ValidNames(rs) && rs != []
    ensures AncestorDirs(Render(ms + rs), Render(ms)) == [Render(ms)] + Chain(RStrip(Render(ms)), rs)
  {
    assert ms < ms + rs;
    StartsBelow(ms, ms + rs);
    RelativePart(ms, rs);
    SplitJoinSlash(rs);
    if Render(ms + rs) == Render(ms) { RenderInjective(ms + rs, ms); }
  }

  /** The two independent depth computations agree with each other and with the ancestor count. */
  lemma {:induction false} DepthIsLevels(ms: seq<string>, rs: seq<string>)
    requires ValidNames(ms) && ValidNames(rs)
    ensures DepthWithin(Render(ms), Render(ms + rs)) == |rs| == |AncestorDirs(Render(ms + rs), Render(ms))|
  {
    RelativePart(ms, rs);
    AncestorsAreLevels(ms, rs);
    if rs != [] {
      JoinSlashEnds(rs);
      CountSlashJoin(rs);
    }
  }

  predicate StrictlyBelow(path: string, d: string)
  {
    path != d && StartsWith(path, Below(d))
  }

  lemma {:induction false} StrictlyBelowIsPrefix(ds: seq<string>, ps: seq<string>)
    requires ValidNames(ds) && ValidNames(ps)
    ensures StrictlyBelow(Render(ps), Render(ds)) <==> ds < ps
  {
    StartsBelow(ds, ps);
    if Render(ps) == Render(ds) { RenderInjective(ps, ds); }
    if ps == [] && ds != [] {
      BelowRender(ds);
      JoinSlashEnds(ds);
    }
  }

  // ---------------------------------------------------------------- totals

  datatype Measure = Logical | OnDisk | FileCount | DirCount

  datatype Acc = Acc(logical: int, onDisk: int, files: int, dirs: int)

  function So(m: Measure, a: Acc): int
  {
    match m case Logical => a.logical case OnDisk => a.onDisk case FileCount => a.files case DirCount => a.dirs
  }

  /** What one entry adds to each of its ancestors. */
  function Own(m: Measure, r: FsRow): int
  {
    match m
    case Logical => r.size
    case OnDisk => r.info.sizeOnDisk
    case FileCount => if r.info.isDir then 0 else 1
    case DirCount => if r.info.isDir then 1 else 0
  }

  predicate Live(volume: int, r: FsRow)
  {
    r.key.volume == volume && r.present
  }

  /** `w` for every time `d` occurs in `ds`. */
  function Times(ds: seq<string>, d: string, w: int): int
  {
    if ds == [] then 0 else (if ds[0] == d then w else 0) + Times(ds[1..], d, w)
  }

  function Contribution(m: Measure, volume: int, mount: string, r: FsRow, d: string): int
  {
    if Live(volume, r) then Times(AncestorDirs(r.info.path, mount), d, Own(m, r)) else 0
  }

  /** What the rollup of `d` must hold, as the code's ancestor lists define it. */
  function Total(m: Measure, volume: int, mount: string, rows: seq<FsRow>, d: string): int
  {
    if rows == [] then 0
    else Total(m, volume, mount, rows[..|rows| - 1], d) + Contribution(m, volume, mount, rows[|rows| - 1], d)
  }

  ghost predicate IsKey(volume: int, mount: string, rows: seq<FsRow>, d: string)
  {
    exists i :: 0 <= i < |rows| && Live(volume, rows[i]) && d in AncestorDirs(rows[i].info.path, mount)
  }

  lemma {:induction false} TimesDistinct(ds: seq<string>, d: string, w: int)
    requires forall i, j :: 0 <= i < j < |ds| ==> ds[i] != ds[j]
    ensures Times(ds, d, w) == if d in ds then w else 0
  {
    if ds != [] {
      TimesDistinct(ds[1..], d, w);
      assert forall i :: 0 < i < |ds| ==> ds[i] == ds[1..][i - 1];
      assert forall i :: 0 <= i < |ds[1..]| ==> ds[1..][i] == ds[i + 1];
    }
  }

  lemma {:induction false} AncestorsDistinct(ms: seq<string>, rs: seq<string>)
    requires ValidNames(ms) && ValidNames(rs)
    ensures var out := AncestorDirs(Render(ms + rs), Render(ms));
            forall i, j :: 0 <= i < j < |out| ==> out[i] != out[j]
  {
    AncestorsAreLevels(ms, rs);
    forall i, j | 0 <= i < j < |rs| ensures Render(ms + rs[..i]) != Render(ms + rs[..j]) {
      assert |ms + rs[..i]| != |ms + rs[..j]|;
      if Render(ms + rs[..i]) == Render(ms + rs[..j]) { RenderInjective(ms + rs[..i], ms + rs[..j]); }
    }
  }

  lemma {:induction false} AncestorIffPrefix(ms: seq<string>, rs: seq<string>, ds: seq<string>)
    requires ValidNames(ms) && ValidNames(rs) && ValidNames(ds) && ms <= ds
    ensures Render(ds) in AncestorDirs(Render(ms + rs), Render(ms)) <==> ds < ms + rs
  {
    var out := AncestorDirs(Render(ms + rs), Render(ms));
    AncestorsAreLevels(ms, rs);
    if ds < ms + rs {
      assert ds == ms + rs[..|ds| - |ms|];
      assert out[|ds| - |ms|] == Render(ds);
    }
    if Render(ds) in out {
      var k := LevelOf(ms, rs, Render(ds));
      RenderInjective(ms + rs[..k], ds);
    }
  }

  /** A canonical entry under the mount counts once in each of its strict ancestors from the mount
      down, and nowhere else. */
  lemma {:induction false} CanonicalContribution(m: Measure, volume: int, ms: seq<string>, r: FsRow, ds: seq<string>)
    requires ValidNames(ms) && ValidNames(ds) && ms <= ds
    requires Canonical(r.info.path) && ms <= Comps(r.info.path)
    ensures Contribution(m, volume, Render(ms), r, Render(ds))
            == if Live(volume, r) && StrictlyBelow(r.info.path, Render(ds)) then Own(m, r) else 0
    ensures Render(ds) in AncestorDirs(r.info.path, Render(ms)) <==> StrictlyBelow(r.info.path, Render(ds))
  {
    var ps := Comps(r.info.path);
    var rs := ps[|ms|..];
    assert ps == ms + rs;
    AncestorsDistinct(ms, rs);
    AncestorIffPrefix(ms, rs, ds);
    StrictlyBelowIsPrefix(ds, ps);
    TimesDistinct(AncestorDirs(r.info.path, Render(ms)), Render(ds), Own(m, r));
  }

  /** The sum over the live entries strictly beneath `d`. */
  function BeneathSum(m: Measure, volume: int, rows: seq<FsRow>, d: string): int
  {
    if rows == [] then 0
    else BeneathSum(m, volume, rows[..|rows| - 1], d)
         + var r := rows[|rows| - 1]; if Live(volume, r) && StrictlyBelow(r.info.path, d) then Own(m, r) else 0
  }

  /** Every live entry of the volume has a canonical path at or below the mount, as vetting ensures. */
  ghost predicate Vetted(volume: int, ms: seq<string>, rows: seq<FsRow>)
  {
    ValidNames(ms) && forall i :: 0 <= i < |rows| && Live(volume, rows[i]) ==>
      Canonical(rows[i].info.path) && ms <= Comps(rows[i].info.path)
  }

  lemma {:induction false} TotalIsBeneathSum(m: Measure, volume: int, ms: seq<string>, rows: seq<FsRow>,
                                             ds: seq<string>)
    requires Vetted(volume, ms, rows) && ValidNames(ds) && ms <= ds
    ensures Total(m, volume, Render(ms), rows, Render(ds)) == BeneathSum(m, volume, rows, Render(ds))
  {
    if rows != [] {
      var init, r := rows[..|rows| - 1], rows[|rows| - 1];
      assert Vetted(volume, ms, init) by {
        forall i | 0 <= i < |init| && Live(volume, init[i])
          ensures Canonical(init[i].info.path) && ms <= Comps(init[i].info.path)
        {
          assert init[i] == rows[i];
        }
      }
      TotalIsBeneathSum(m, volume, ms, init, ds);
      if Live(volume, r) { CanonicalContribution(m, volume, ms, r, ds); }
    }
  }

  /** The keys are exactly the strict ancestors, from the mount down, of live entries. */
  lemma {:induction false} KeysAreAncestors(volume: int, ms: seq<string>, rows: seq<FsRow>, d: string)
    requires Vetted(volume, ms, rows)
    ensures IsKey(volume, Render(ms), rows, d) <==>
            exists ds, i :: 0 <= i < |rows| && Live(volume, rows[i]) && d == Render(ds)
                            && ms <= ds < Comps(rows[i].info.path)
  {
    if IsKey(volume, Render(ms), rows, d) {
      var i :| 0 <= i < |rows| && Live(volume, rows[i]) && d in AncestorDirs(rows[i].info.path, Render(ms));
      var ds := KeyOfEntry(ms, Comps(rows[i].info.path), d);
    }
    if ds, i :| 0 <= i < |rows| && Live(volume, rows[i]) && d == Render(ds) && ms <= ds < Comps(rows[i].info.path) {
      EntryOfKey(ms, Comps(rows[i].info.path), ds);
    }
  }

  lemma {:induction false} KeyOfEntry(ms: seq<string>, ps: seq<string>, d: string) returns (ds: seq<string>)
    requires ValidNames(ms) && ValidNames(ps) && ms <= ps && d in AncestorDirs(Render(ps), Render(ms))
    ensures d == Render(ds) && ms <= ds < ps
  {
    var rs := ps[|ms|..];
    assert ps == ms + rs;
    var k := LevelOf(ms, rs, d);
    ds := ms + rs[..k];
    assert ps[..|ds|] == ds;
  }

  lemma {:induction false} LevelOf(ms: seq<string>, rs: seq<string>, d: string) returns (k: nat)
    requires ValidNames(ms) && ValidNames(rs) && d in AncestorDirs(Render(ms + rs), Render(ms))
    ensures k < |rs| && d == Render(ms + rs[..k])
  {
    AncestorsAreLevels(ms, rs);
    var out := AncestorDirs(Render(ms + rs), Render(ms));
    k :| 0 <= k < |out| && d == out[k];
  }

  lemma {:induction false} EntryOfKey(ms: seq<string>, ps: seq<string>, ds: seq<string>)
    requires ValidNames(ms) && ValidNames(ps) && ms <= ds < ps
    ensures Render(ds) in AncestorDirs(Render(ps), Render(ms))
  {
    assert forall j :: 0 <= j < |ds| ==> ds[j] == ps[j];
    assert ps == ms + ps[|ms|..];
    AncestorIffPrefix(ms, ps[|ms|..], ds);
  }

  // ---------------------------------------------------------------- order does not matter

  lemma {:induction false} TotalAppend(m: Measure, volume: int, mount: string, a: seq<FsRow>, b: seq<FsRow>, d: string)
    ensures Total(m, volume, mount, a + b, d) == Total(m, volume, mount, a, d) + Total(m, volume, mount, b, d)
  {
    if b == [] {
      assert a + b == a;
    } else {
      assert (a + b)[..|a + b| - 1] == a + b[..|b| - 1];
      TotalAppend(m, volume, mount, a, b[..|b| - 1], d);
    }
  }

  /** In whatever order the entries stream, the keys and the totals are the same. */
  lemma {:induction false} StreamOrderIrrelevant(m: Measure, volume: int, mount: string, a: seq<FsRow>, b: seq<FsRow>,
                                                 d: string)
    requires multiset(a) == multiset(b)
    ensures IsKey(volume, mount, a, d) <==> IsKey(volume, mount, b, d)
    ensures Total(m, volume, mount, a, d) == Total(m, volume, mount, b, d)
  {
    if IsKey(volume, mount, a, d) { SameKeys(volume, mount, a, b, d); }
    if IsKey(volume, mount, b, d) { SameKeys(volume, mount, b, a, d); }
    SameTotals(m, volume, mount, a, b, d);
  }

  lemma {:induction false} SameKeys(volume: int, mount: string, a: seq<FsRow>, b: seq<FsRow>, d: string)
    requires multiset(a) == multiset(b) && IsKey(volume, mount, a, d)
    ensures IsKey(volume, mount, b, d)
  {
    var i :| 0 <= i < |a| && Live(volume, a[i]) && d in AncestorDirs(a[i].info.path, mount);
    assert a[i] in multiset(a);
    var j :| 0 <= j < |b| && b[j] == a[i];
  }

  lemma {:induction false} SameTotals(m: Measure, volume: int, mount: string, a: seq<FsRow>, b: seq<FsRow>, d: string)
    requires multiset(a) == multiset(b)
    ensures Total(m, volume, mount, a, d) == Total(m, volume, mount, b, d)
    decreases |a|
  {
    if a == [] {
      assert |b| == |multiset(b)| == |multiset(a)|;
    } else {
      var i := PickLast(a, b);
      SameTotals(m, volume, mount, a[..|a| - 1], Without(b, i), d);
      TotalWithout(m, volume, mount, b, i, d);
    }
  }

  lemma {:induction false} PickLast(a: seq<FsRow>, b: seq<FsRow>) returns (i: nat)
    requires multiset(a) == multiset(b) && a != []
    ensures i < |b| && b[i] == a[|a| - 1] && multiset(a[..|a| - 1]) == multiset(Without(b, i))
  {
    var init, r := a[..|a| - 1], a[|a| - 1];
    assert a == init + [r];
    assert r in multiset(a);
    i :| 0 <= i < |b| && b[i] == r;
    assert multiset(init) == multiset(a) - multiset{r};
  }

  /** `b` without its element `i`. */
  function Without(b: seq<FsRow>, i: nat): (rest: seq<FsRow>)
    requires i < |b|
    ensures multiset(rest) == multiset(b) - multiset{b[i]}
  {
    assert b == b[..i] + [b[i]] + b[i + 1..];
    b[..i] + b[i + 1..]
  }

  lemma {:induction false} TotalWithout(m: Measure, volume: int, mount: string, b: seq<FsRow>, i: nat, d: string)
    requires i < |b|
    ensures Total(m, volume, mount, b, d)
            == Total(m, volume, mount, Without(b, i), d) + Contribution(m, volume, mount, b[i], d)
  {
    assert b == b[..i] + ([b[i]] + b[i + 1..]);
    TotalAppend(m, volume, mount, b[..i], [b[i]] + b[i + 1..], d);
    TotalAppend(m, volume, mount, [b[i]], b[i + 1..], d);
    TotalAppend(m, volume, mount, b[..i], b[i + 1..], d);
    assert [b[i]][..0] == [];
  }
}
