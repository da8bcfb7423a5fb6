/** How two live rows come to share a path, and what drill-down then shows: a directory is renamed, a new one takes its
    path, and the upsert does not see the rename. */
module MissedRename {
  import opened Lists
  import opened PosixPaths
  import opened Catalogue
  import opened Rollup
  import opened LikePaths
  import opened DrillDown
  import Like

  /** The batch of the next scan: the old directory under its new name, the new directory, and a file in it. */
  ghost predicate Rescan(b: Batch, was: FsRow, moved: Entry, dir: Entry, file: Entry, d: string, x: string)
  {
    && b.mode.Metadata? && ValidName(d) && ValidName(x)
    && was.present && was.info.path == dir.info.path == Render([d]) && file.info.path == Render([d, x])
    && was.info.depth == dir.info.depth == 1 && file.info.depth == 2
    && KeyOf(b, moved) == was.key && moved.size == was.size && moved.mtime == was.mtime
    && KeyOf(b, dir) != was.key && KeyOf(b, file) != was.key && KeyOf(b, file) != KeyOf(b, dir)
  }

  /** The table afterwards: the renamed directory keeps its old path. */
  lemma {:induction false} RescanLeaves(b: Batch, was: FsRow, moved: Entry, dir: Entry, file: Entry, d: string, x: string)
    requires Rescan(b, was, moved, dir, file, d, x)
    ensures UpsertAll(b, [was], [moved, dir, file]) == [was, Fresh(b, dir), Fresh(b, file)]
  {
    var o, n, f := was, Fresh(b, dir), Fresh(b, file);
    assert [moved, dir, file][1..] == [dir, file] && [dir, file][1..] == [file] && [file][1..] == [];
    assert UpsertOne(b, [o], moved) == [o];
    assert [o][1..] == [] && [o, n][1..] == [n] && [n][1..] == [];
    assert UpsertOne(b, [o], dir) == [o] + UpsertOne(b, [], dir) == [o, n];
    assert UpsertOne(b, [o, n], file) == [o] + UpsertOne(b, [n], file) == [o, n, f];
    assert UpsertAll(b, [o], [moved, dir, file]) == UpsertAll(b, [o], [dir, file]) == UpsertAll(b, [o, n], [file])
        == UpsertAll(b, [o, n, f], []);
  }

  lemma {:induction false} RescanPlaced(b: Batch, was: FsRow, moved: Entry, dir: Entry, file: Entry, d: string, x: string,
                                        rows: seq<FsRow>)
    requires Rescan(b, was, moved, dir, file, d, x) && rows == [was, Fresh(b, dir), Fresh(b, file)]
    ensures Comps(rows[0].info.path) == Comps(rows[1].info.path) == [d] && Comps(rows[2].info.path) == [d, x]
    ensures Vetted(b.volume, [], rows) && DepthsRight(b.volume, [], rows) && ParentClosed(b.volume, [], rows)
  {
    CanonicalRender([d]);
    CanonicalRender([d, x]);
    ParentPresent(b.volume, rows, d, x);
  }

  lemma {:induction false} ParentPresent(volume: int, rows: seq<FsRow>, d: string, x: string)
    requires |rows| == 3 && Live(volume, rows[1])
    requires Comps(rows[0].info.path) == Comps(rows[1].info.path) == [d] && Comps(rows[2].info.path) == [d, x]
    ensures ParentClosed(volume, [], rows)
  {
    assert [d, x][..1] == [d] && Comps("/") == [];
    assert ParentAt(volume, rows, 2, 1);
  }

  /** The file lies beneath both rows of the directory. */
  lemma {:induction false} FileCoveredTwice(b: Batch, was: FsRow, moved: Entry, dir: Entry, file: Entry, d: string,
                                            x: string, rows: seq<FsRow>)
    requires Rescan(b, was, moved, dir, file, d, x) && rows == [was, Fresh(b, dir), Fresh(b, file)]
    ensures DoubledOver(b.volume, rows, [], 0, 1, 2)
    ensures forall m :: Surplus(m, b.volume, rows, [], rows) == Own(m, rows[2])
  {
    var v, o, n, f := b.volume, rows[0], rows[1], rows[2];
    RescanPlaced(b, was, moved, dir, file, d, x, rows);
    assert [d] < [d, x];
    StrictlyBelowIsPrefix([d], [d, x]);
    assert Init(rows) == [o, n] && Init([o, n]) == [o] && Init([o]) == [];
    assert IsChild(v, [], o) && IsChild(v, [], n) && !IsChild(v, [], f);
    assert Covers(v, rows, [], f.info.path) == Covers(v, [o, n], [], f.info.path)
        == Covers(v, [o], [], f.info.path) + 1 == Covers(v, [], [], f.info.path) + 2;
    forall m ensures Surplus(m, v, rows, [], rows) == Own(m, f) {
      assert Extra(m, v, rows, [], o) == 0 && Extra(m, v, rows, [], n) == 0 && Extra(m, v, rows, [], f) == Own(m, f);
      assert Surplus(m, v, rows, [], rows) == Surplus(m, v, rows, [], [o, n]) + Extra(m, v, rows, [], f);
      assert Surplus(m, v, rows, [], [o, n]) == Surplus(m, v, rows, [], [o]) + Extra(m, v, rows, [], n);
      assert Surplus(m, v, rows, [], [o]) == Surplus(m, v, rows, [], []) + Extra(m, v, rows, [], o);
    }
  }

  /** One batch leads from a single row to a table where conservation fails even with exact comparison: the file is
      counted beneath both rows, so the children's totals exceed the root's by what the file holds. */
  lemma {:induction false} MissedRenameDoubles(b: Batch, was: FsRow, moved: Entry, dir: Entry, file: Entry, d: string,
                                               x: string)
    requires Rescan(b, was, moved, dir, file, d, x)
    ensures var rows := UpsertAll(b, [was], [moved, dir, file]);
            && Vetted(b.volume, [], rows) && DepthsRight(b.volume, [], rows) && ParentClosed(b.volume, [], rows)
            && Doubled(b.volume, rows, [])
            && (forall m :: ChildTotals(Like.Equal, m, b.volume, "/", rows, rows, "/")
                            == Total(m, b.volume, "/", rows, "/") + Own(m, Fresh(b, file)))
            && !(forall m :: Conserved(Like.Equal, m, b.volume, [], rows, []))
  {
    var v, rows := b.volume, UpsertAll(b, [was], [moved, dir, file]);
    RescanLeaves(b, was, moved, dir, file, d, x);
    RescanPlaced(b, was, moved, dir, file, d, x, rows);
    FileCoveredTwice(b, was, moved, dir, file, d, x, rows);
    ExactIsPathLike();
    assert Render([]) == "/";
    ExactHasNone(v, [], rows, []);
    forall m
      ensures ChildTotals(Like.Equal, m, v, "/", rows, rows, "/") == Total(m, v, "/", rows, "/") + Own(m, Fresh(b, file))
    {
      TotalsConserved(Like.Equal, m, v, [], rows, []);
      NoStrays(Like.Equal, m, v, "/", rows, rows, []);
    }
    ConservedIff(Like.Equal, v, [], rows, []);
  }
}
