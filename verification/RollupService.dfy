/** The full recompute: stream the entries, accumulate per directory, replace the volume's rows. */
module RollupService {
  import opened Lists
  import opened PosixPaths
  import opened Catalogue
  import opened Rollup

  datatype RollupRow = RollupRow(volume: int, path: string, depth: nat, acc: Acc, computedAt: int)

  datatype HistoryPoint = HistoryPoint(volume: int, path: string, ts: int, logical: int, onDisk: int, files: int)

  /** The accumulator of a directory, zero when it has none yet. */
  function At(tally: map<string, Acc>, d: string): Acc
  {
    if d in tally then tally[d] else Acc(0, 0, 0, 0)
  }

  function Plus(a: Acc, r: FsRow): Acc
  {
    Acc(a.logical + r.size, a.onDisk + r.info.sizeOnDisk,
        a.files + if r.info.isDir then 0 else 1, a.dirs + if r.info.isDir then 1 else 0)
  }

  /** Keys in first-touch order, as a dictionary keeps them. */
  ghost predicate Listed(tally: map<string, Acc>, order: seq<string>)
  {
    && (forall d :: d in tally <==> d in order)
    && (forall i, j :: 0 <= i < j < |order| ==> order[i] != order[j])
  }

  lemma {:induction false} TimesAppend(ds: seq<string>, x: string, d: string, w: int)
    ensures Times(ds + [x], d, w) == Times(ds, d, w) + if x == d then w else 0
  {
    if ds == [] {
      assert ds + [x] == [x] && [x][1..] == [];
    } else {
      assert (ds + [x])[1..] == ds[1..] + [x];
      TimesAppend(ds[1..], x, d, w);
    }
  }

  /** `tally` is `tally0` with the entry counted once for every directory in `ds`. */
  ghost predicate Added(tally0: map<string, Acc>, tally: map<string, Acc>, ds: seq<string>, r: FsRow)
  {
    && (forall d :: d in tally <==> d in tally0 || d in ds)
    && (forall m, d :: So(m, At(tally, d)) == So(m, At(tally0, d)) + Times(ds, d, Own(m, r)))
  }

  lemma {:induction false} AddedStep(tally0: map<string, Acc>, tally: map<string, Acc>, ds: seq<string>, a: string,
                                     r: FsRow)
    requires Added(tally0, tally, ds, r)
    ensures Added(tally0, tally[a := Plus(At(tally, a), r)], ds + [a], r)
  {
    forall m, d
      ensures Times(ds + [a], d, Own(m, r)) == Times(ds, d, Own(m, r)) + if a == d then Own(m, r) else 0
    {
      TimesAppend(ds, a, d, Own(m, r));
    }
  }

  lemma {:induction false} AddedNone(tally: map<string, Acc>, none: seq<string>, r: FsRow)
    requires none == []
    ensures Added(tally, tally, none, r)
  {
    assert forall m, d :: Times(none, d, Own(m, r)) == 0;
  }

  /** The inner loop: one entry is added to each of its ancestors. */
  method AddEntry(tally0: map<string, Acc>, order0: seq<string>, ancestors: seq<string>, r: FsRow)
    returns (tally: map<string, Acc>, order: seq<string>)
    requires Listed(tally0, order0)
    ensures Listed(tally, order) && Added(tally0, tally, ancestors, r)
  {
    tally, order := tally0, order0;
    AddedNone(tally0, ancestors[..0], r);
    for i := 0 to |ancestors|
      invariant Listed(tally, order) && Added(tally0, tally, ancestors[..i], r)
    {
      var a := ancestors[i];
      AddedStep(tally0, tally, ancestors[..i], a, r);
      assert ancestors[..i + 1] == ancestors[..i] + [a];
      if a !in tally { order := order + [a]; }
      tally := tally[a := Plus(At(tally, a), r)];
    }
    assert ancestors[..|ancestors|] == ancestors;
  }

  /** The streaming loop. */
  method Accumulate(volume: int, mount: string, entries: seq<FsRow>) returns (tally: map<string, Acc>,
                    order: seq<string>)
    ensures Listed(tally, order)
    ensures forall d :: d in tally <==> IsKey(volume, mount, entries, d)
    ensures forall m, d :: So(m, At(tally, d)) == Total(m, volume, mount, entries, d)
  {
    tally, order := map[], [];
    for i := 0 to |entries|
      invariant Listed(tally, order)
      invariant forall d :: d in tally <==> IsKey(volume, mount, entries[..i], d)
      invariant forall m, d :: So(m, At(tally, d)) == Total(m, volume, mount, entries[..i], d)
    {
      var r := entries[i];
      ghost var before := tally;
      if Live(volume, r) {
        var ancestors := ComputeAncestors(r.info.path, mount);
        tally, order := AddEntry(tally, order, ancestors, r);
      }
      Streamed(volume, mount, entries, i, before, tally);
    }
    assert entries[..|entries|] == entries;
  }

  /** One more entry keeps the accumulator true. */
  lemma {:induction false} Streamed(volume: int, mount: string, entries: seq<FsRow>, i: nat,
                                    before: map<string, Acc>, tally: map<string, Acc>)
    requires i < |entries|
    requires forall d :: d in before <==> IsKey(volume, mount, entries[..i], d)
    requires forall m, d :: So(m, At(before, d)) == Total(m, volume, mount, entries[..i], d)
    requires if Live(volume, entries[i])
             then Added(before, tally, AncestorDirs(entries[i].info.path, mount), entries[i])
             else tally == before
    ensures forall d :: d in tally <==> IsKey(volume, mount, entries[..i + 1], d)
    ensures forall m, d :: So(m, At(tally, d)) == Total(m, volume, mount, entries[..i + 1], d)
  {
    KeyStep(volume, mount, entries, i);
    TotalStep(volume, mount, entries, i);
    var r := entries[i];
    forall m, d ensures So(m, At(tally, d)) == So(m, At(before, d)) + Contribution(m, volume, mount, r, d) {
      if Live(volume, r) {
        assert So(m, At(tally, d)) == So(m, At(before, d)) + Times(AncestorDirs(r.info.path, mount), d, Own(m, r));
      }
    }
  }

  lemma {:induction false} KeyStep(volume: int, mount: string, entries: seq<FsRow>, i: nat)
    requires i < |entries|
    ensures forall d :: IsKey(volume, mount, entries[..i + 1], d) <==>
              IsKey(volume, mount, entries[..i], d)
              || Reaches(volume, mount, entries[i], d)
  {
    forall d
      ensures IsKey(volume, mount, entries[..i + 1], d) <==>
              IsKey(volume, mount, entries[..i], d) || Reaches(volume, mount, entries[i], d)
    {
      KeySnoc(volume, mount, entries[..i], entries[i], d);
      assert entries[..i + 1] == entries[..i] + [entries[i]];
    }
  }

  predicate Reaches(volume: int, mount: string, r: FsRow, d: string)
  {
    Live(volume, r) && d in AncestorDirs(r.info.path, mount)
  }

  lemma {:induction false} KeySnoc(volume: int, mount: string, a: seq<FsRow>, r: FsRow, d: string)
    ensures IsKey(volume, mount, a + [r], d) <==> IsKey(volume, mount, a, d) || Reaches(volume, mount, r, d)
  {
    var b := a + [r];
    if IsKey(volume, mount, a, d) {
      var j :| 0 <= j < |a| && Live(volume, a[j]) && d in AncestorDirs(a[j].info.path, mount);
      assert b[j] == a[j];
    }
    if Reaches(volume, mount, r, d) {
      assert b[|a|] == r;
    }
  }

  lemma {:induction false} TotalStep(volume: int, mount: string, entries: seq<FsRow>, i: nat)
    requires i < |entries|
    ensures forall m, d :: Total(m, volume, mount, entries[..i + 1], d)
                           == Total(m, volume, mount, entries[..i], d) + Contribution(m, volume, mount, entries[i], d)
  {
    assert entries[..i + 1][..i] == entries[..i];
  }

  // ---------------------------------------------------------------- batching

  /** All batches but the last are full, and none is empty. */
  ghost predicate WellSized<T>(batches: seq<seq<T>>, size: nat)
  {
    && (forall i :: 0 <= i < |batches| ==> 1 <= |batches[i]| <= size)
    && (forall i :: 0 <= i < |batches| - 1 ==> |batches[i]| == size)
  }

  ghost predicate AllFull<T>(batches: seq<seq<T>>, size: nat)
  {
    forall k :: 0 <= k < |batches| ==> |batches[k]| == size
  }

  lemma {:induction false} LastBatch<T>(batches: seq<seq<T>>, batch: seq<T>, size: nat)
    requires size >= 1 && AllFull(batches, size) && 1 <= |batch| <= size
    ensures WellSized(batches, size) && WellSized(batches + [batch], size)
    ensures |batch| == size ==> AllFull(batches + [batch], size)
  {
  }

  /** `_batched`: full batches and one non-empty remainder; nothing lost, repeated or reordered. */
  method Batched<T>(rows: seq<T>, size: nat) returns (batches: seq<seq<T>>)
    requires size >= 1
    ensures Flatten(batches) == rows && WellSized(batches, size)
  {
    batches := [];
    var batch := [];
    ghost var flat: seq<T> := [];
    for i := 0 to |rows|
      invariant flat == Flatten(batches) && flat + batch == rows[..i] && |batch| < size
      invariant AllFull(batches, size)
    {
      OneMore(flat, batch, rows, i);
      batch := batch + [rows[i]];
      if |batch| >= size {
        FlattenSnoc(batches, batch);
        LastBatch(batches, batch, size);
        flat := flat + batch;
        batches, batch := batches + [batch], [];
      }
    }
    assert rows[..|rows|] == rows;
    if batch != [] {
      FlattenSnoc(batches, batch);
      LastBatch(batches, batch, size);
      batches := batches + [batch];
    }
  }

  lemma {:induction false} OneMore<T>(flat: seq<T>, batch: seq<T>, rows: seq<T>, i: nat)
    requires i < |rows| && flat + batch == rows[..i]
    ensures flat + (batch + [rows[i]]) == rows[..i + 1]
  {
  }

  // ---------------------------------------------------------------- the service

  /** The rollup rows of other volumes. */
  function Others(volume: int, rows: seq<RollupRow>): seq<RollupRow>
  {
    if rows == [] then []
    else (if rows[0].volume == volume then [] else [rows[0]]) + Others(volume, rows[1..])
  }

  /** The rollup rows of one volume. */
  function RowsOf(volume: int, rows: seq<RollupRow>): seq<RollupRow>
  {
    if rows == [] then []
    else (if rows[0].volume == volume then [rows[0]] else []) + RowsOf(volume, rows[1..])
  }

  /** `made` is a correct rollup of the volume: one row per key, with its totals and depth. */
  ghost predicate IsRollup(volume: int, mount: string, entries: seq<FsRow>, made: seq<RollupRow>, now: int)
  {
    && (forall i, j :: 0 <= i < j < |made| ==> made[i].path != made[j].path)
    && (forall d :: IsKey(volume, mount, entries, d) <==> exists i :: 0 <= i < |made| && made[i].path == d)
    && (forall i :: 0 <= i < |made| ==>
          made[i].volume == volume && made[i].computedAt == now && made[i].depth == DepthWithin(mount, made[i].path))
    && (forall i, m :: 0 <= i < |made| ==> So(m, made[i].acc) == Total(m, volume, mount, entries, made[i].path))
  }

  /** `f` over the rows that are kept. */
  function SumIf(rows: seq<FsRow>, keep: FsRow -> bool, f: FsRow -> int): int
  {
    if rows == [] then 0
    else SumIf(rows[..|rows| - 1], keep, f) + if keep(rows[|rows| - 1]) then f(rows[|rows| - 1]) else 0
  }

  /** A present row of the volume strictly beneath the directory. */
  function PresentBeneath(volume: int, d: string): FsRow -> bool
  {
    (r: FsRow) => r.key.volume == volume && r.present && StrictlyBelow(r.info.path, d)
  }

  /** The figures of a directory are the logical bytes, the bytes on disk, the number of files and the number of
      directories of the present rows strictly beneath it. */
  lemma {:induction false} BeneathFigures(volume: int, rows: seq<FsRow>, d: string)
    ensures var keep := PresentBeneath(volume, d);
            && BeneathSum(Logical, volume, rows, d) == SumIf(rows, keep, (r: FsRow) => r.size)
            && BeneathSum(OnDisk, volume, rows, d) == SumIf(rows, keep, (r: FsRow) => r.info.sizeOnDisk)
            && BeneathSum(FileCount, volume, rows, d) == SumIf(rows, keep, (r: FsRow) => if r.info.isDir then 0 else 1)
            && BeneathSum(DirCount, volume, rows, d) == SumIf(rows, keep, (r: FsRow) => if r.info.isDir then 1 else 0)
  {
    if rows != [] { BeneathFigures(volume, rows[..|rows| - 1], d); }
  }

  /** So are those of every row of a correct rollup, field by field. */
  lemma {:induction false} RollupFigures(volume: int, ms: seq<string>, entries: seq<FsRow>, made: seq<RollupRow>, now: int,
                                         ds: seq<string>, i: nat)
    requires IsRollup(volume, Render(ms), entries, made, now) && Vetted(volume, ms, entries)
    requires ValidNames(ds) && ms <= ds && i < |made| && made[i].path == Render(ds)
    ensures var acc, keep := made[i].acc, PresentBeneath(volume, Render(ds));
            && acc.logical == SumIf(entries, keep, (r: FsRow) => r.size)
            && acc.onDisk == SumIf(entries, keep, (r: FsRow) => r.info.sizeOnDisk)
            && acc.files == SumIf(entries, keep, (r: FsRow) => if r.info.isDir then 0 else 1)
            && acc.dirs == SumIf(entries, keep, (r: FsRow) => if r.info.isDir then 1 else 0)
            && made[i].depth == |ds| - |ms|
  {
    BeneathFigures(volume, entries, Render(ds));
    TotalIsBeneathSum(Logical, volume, ms, entries, ds);
    TotalIsBeneathSum(OnDisk, volume, ms, entries, ds);
    TotalIsBeneathSum(FileCount, volume, ms, entries, ds);
    TotalIsBeneathSum(DirCount, volume, ms, entries, ds);
    assert So(Logical, made[i].acc) == Total(Logical, volume, Render(ms), entries, made[i].path);
    assert So(OnDisk, made[i].acc) == Total(OnDisk, volume, Render(ms), entries, made[i].path);
    assert So(FileCount, made[i].acc) == Total(FileCount, volume, Render(ms), entries, made[i].path);
    assert So(DirCount, made[i].acc) == Total(DirCount, volume, Render(ms), entries, made[i].path);
    assert ds == ms + ds[|ms|..];
    DepthIsLevels(ms, ds[|ms|..]);
  }

  function RowOf(volume: int, mount: string, path: string, acc: Acc, now: int): RollupRow
  {
    RollupRow(volume, path, DepthWithin(mount, path), acc, now)
  }

  /** `_rollup_rows`: one row per accumulated directory. */
  method RollupRows(volume: int, mount: string, tally: map<string, Acc>, order: seq<string>, now: int)
    returns (rows: seq<RollupRow>)
    ensures |rows| == |order|
    ensures forall i :: 0 <= i < |order| ==> rows[i] == RowOf(volume, mount, order[i], At(tally, order[i]), now)
  {
    rows := [];
    for i := 0 to |order|
      invariant |rows| == i
      invariant forall k :: 0 <= k < i ==> rows[k] == RowOf(volume, mount, order[k], At(tally, order[k]), now)
    {
      rows := rows + [RowOf(volume, mount, order[i], At(tally, order[i]), now)];
    }
  }

  lemma {:induction false} RowsAreRollup(volume: int, mount: string, entries: seq<FsRow>, tally: map<string, Acc>,
                                         order: seq<string>, rows: seq<RollupRow>, now: int)
    requires Listed(tally, order) && |rows| == |order|
    requires forall d :: d in tally <==> IsKey(volume, mount, entries, d)
    requires forall m, d :: So(m, At(tally, d)) == Total(m, volume, mount, entries, d)
    requires forall i :: 0 <= i < |order| ==> rows[i] == RowOf(volume, mount, order[i], At(tally, order[i]), now)
    ensures IsRollup(volume, mount, entries, rows, now)
  {
  }

  /** A correct rollup of the volume, and the root's totals. */
  method ComputeRollup(volume: int, mount: string, entries: seq<FsRow>, now: int) returns (rows: seq<RollupRow>,
                       root: Acc)
    ensures IsRollup(volume, mount, entries, rows, now)
    ensures forall m :: So(m, root) == Total(m, volume, mount, entries, mount)
  {
    var tally, order := Accumulate(volume, mount, entries);
    rows := RollupRows(volume, mount, tally, order, now);
    RowsAreRollup(volume, mount, entries, tally, order, rows, now);
    root := At(tally, mount);
  }

  const ROLLUP_INSERT_CHUNK: nat := 5000

  class RollupTable {
    var rollups: seq<RollupRow>
    var history: seq<HistoryPoint>

    constructor ()
      ensures rollups == [] && history == []
    {
      rollups, history := [], [];
    }

    /** Insert in bounded batches; what arrives is the row list, in order. */
    method InsertBatched(rows: seq<RollupRow>) returns (count: nat)
      modifies this`rollups
      ensures rollups == old(rollups) + rows && count == |rows|
    {
      var batches := Batched(rows, ROLLUP_INSERT_CHUNK);
      count := 0;
      assert old(rollups) + Flatten([]) == old(rollups);
      for i := 0 to |batches|
        invariant rollups == old(rollups) + Flatten(batches[..i]) && count == |Flatten(batches[..i])|
      {
        assert batches[..i + 1] == batches[..i] + [batches[i]];
        FlattenSnoc(batches[..i], batches[i]);
        rollups := rollups + batches[i];
        count := count + |batches[i]|;
      }
      assert batches[..|batches|] == batches;
    }

    /** `recompute_full`: the volume's rows are replaced by a correct rollup of its live entries, in
        whatever order those arrive; no other volume's row is touched; one history point is added.
        An unknown volume (no mount) is refused and changes nothing. */
    method RecomputeFull(volume: int, mount: Option<string>, entries: seq<FsRow>,
                         now: int) returns (inserted: Option<nat>)
      modifies this
      ensures mount.None? ==> inserted == None && rollups == old(rollups) && history == old(history)
      ensures mount.Some? ==>
                var kept := Others(volume, old(rollups));
                && kept <= rollups && inserted == Some(|rollups| - |kept|)
                && IsRollup(volume, mount.value, entries, rollups[|kept|..], now)
                && history == old(history) + [HistoryPoint(volume, mount.value, now,
                     Total(Logical, volume, mount.value, entries, mount.value),
                     Total(OnDisk, volume, mount.value, entries, mount.value),
                     Total(FileCount, volume, mount.value, entries, mount.value))]
    {
      if mount.None? {
        return None;
      }
      var rows, root := ComputeRollup(volume, mount.value, entries, now);
      ghost var kept := Others(volume, rollups);
      rollups := Others(volume, rollups);
      var count := InsertBatched(rows);
      assert rollups[|kept|..] == rows;
      assert root.logical == So(Logical, root) && root.onDisk == So(OnDisk, root) && root.files == So(FileCount, root);
      history := history + [HistoryPoint(volume, mount.value, now, root.logical, root.onDisk, root.files)];
      return Some(count);
    }
  }
}
