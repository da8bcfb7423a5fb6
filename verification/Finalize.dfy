/** Finalize (`finalize.py`): which volumes are stale, recomputing their rollups, closing their snapshots, and what
    that guarantees over whole runs of scans and finalizes. */
module Finalize {
  import opened Lists
  import opened PosixPaths
  import opened Catalogue
  import opened Rollup
  import opened RollupService

  datatype Volume = Volume(id: int, host: int, mount: string)

  datatype Scan = Scan(volume: int, started: int, finished: Option<int>, totalSize: int, fileCount: int)

  /** The entry table is partitioned by volume. */
  datatype Tables = Tables(entries: map<int, seq<FsRow>>, snapshots: seq<Scan>, rollups: seq<RollupRow>)

  function EntriesOf(entries: map<int, seq<FsRow>>, volume: int): seq<FsRow>
  {
    if volume in entries then entries[volume] else []
  }

  lemma {:induction false} RowsAppend(volume: int, a: seq<RollupRow>, b: seq<RollupRow>)
    ensures RowsOf(volume, a + b) == RowsOf(volume, a) + RowsOf(volume, b)
  {
    if a == [] {
      assert a + b == b;
    } else {
      var head := if a[0].volume == volume then [a[0]] else [];
      RowsAppend(volume, a[1..], b);
      assert (a + b)[0] == a[0] && (a + b)[1..] == a[1..] + b;
      assert RowsOf(volume, a) == head + RowsOf(volume, a[1..]);
      assert head + (RowsOf(volume, a[1..]) + RowsOf(volume, b)) == head + RowsOf(volume, a[1..]) + RowsOf(volume, b);
    }
  }

  lemma {:induction false} RowsOfOthers(volume: int, w: int, rows: seq<RollupRow>)
    ensures RowsOf(volume, Others(w, rows)) == if volume == w then [] else RowsOf(volume, rows)
  {
    if rows != [] {
      RowsOfOthers(volume, w, rows[1..]);
      if rows[0].volume != w {
        assert Others(w, rows) == [rows[0]] + Others(w, rows[1..]);
        assert Others(w, rows)[1..] == Others(w, rows[1..]);
      } else {
        assert Others(w, rows) == Others(w, rows[1..]);
      }
    }
  }

  lemma {:induction false} RowsOfOne(volume: int, w: int, rows: seq<RollupRow>)
    requires forall i :: 0 <= i < |rows| ==> rows[i].volume == w
    ensures RowsOf(volume, rows) == if volume == w then rows else []
  {
    if rows != [] {
      RowsOfOne(volume, w, rows[1..]);
      assert rows == [rows[0]] + rows[1..];
    }
  }

  // ---------------------------------------------------------------- staleness

  /** Some snapshot started at or after every rollup row of the volume was computed; with no rollup row any snapshot
      will do. */
  ghost predicate Stale(s: Tables, v: Volume)
  {
    exists i :: 0 <= i < |s.snapshots| && NoEarlier(s.snapshots[i], v.id, s.rollups)
  }

  ghost predicate NoEarlier(snap: Scan, volume: int, rollups: seq<RollupRow>)
  {
    snap.volume == volume && forall r :: r in rollups && r.volume == volume ==> r.computedAt <= snap.started
  }

  /** The volume's rollup rows are what a fresh recompute would write, but for the time of writing. */
  ghost predicate Right(s: Tables, v: Volume)
  {
    exists t :: IsRollup(v.id, v.mount, EntriesOf(s.entries, v.id), RowsOf(v.id, s.rollups), t)
  }

  ghost predicate HasSnapshot(s: Tables, volume: int)
  {
    exists i :: 0 <= i < |s.snapshots| && s.snapshots[i].volume == volume
  }

  /** The staleness query: the latest start against the latest computation. */
  method IsStale(snapshots: seq<Scan>, rollups: seq<RollupRow>, v: Volume, ghost entries: map<int, seq<FsRow>>)
    returns (stale: bool)
    ensures stale <==> Stale(Tables(entries, snapshots, rollups), v)
  {
    var lastStarted: Option<int> := None;
    ghost var at := 0;
    for i := 0 to |snapshots|
      invariant lastStarted.None? ==> forall j :: 0 <= j < i ==> snapshots[j].volume != v.id
      invariant lastStarted.Some? ==>
                  && 0 <= at < i && snapshots[at].volume == v.id && snapshots[at].started == lastStarted.value
                  && forall j :: 0 <= j < i && snapshots[j].volume == v.id ==> snapshots[j].started <= lastStarted.value
    {
      if snapshots[i].volume == v.id && (lastStarted.None? || snapshots[i].started > lastStarted.value) {
        lastStarted, at := Some(snapshots[i].started), i;
      }
    }
    var lastComputed: Option<int> := None;
    ghost var latest := 0;
    for i := 0 to |rollups|
      invariant lastComputed.None? ==> forall j :: 0 <= j < i ==> rollups[j].volume != v.id
      invariant lastComputed.Some? ==>
                  && 0 <= latest < i && rollups[latest].volume == v.id
                  && rollups[latest].computedAt == lastComputed.value
                  && forall j :: 0 <= j < i && rollups[j].volume == v.id ==> rollups[j].computedAt <= lastComputed.value
    {
      if rollups[i].volume == v.id && (lastComputed.None? || rollups[i].computedAt > lastComputed.value) {
        lastComputed, latest := Some(rollups[i].computedAt), i;
      }
    }
    stale := lastStarted.Some? && (lastComputed.None? || lastStarted.value >= lastComputed.value);
    if stale {
      assert NoEarlier(snapshots[at], v.id, rollups);
    } else if lastStarted.Some? {
      assert rollups[latest] in rollups;
    }
  }

  // ---------------------------------------------------------------- what a finalize does

  ghost predicate HasRoot(s: Tables, v: Volume)
  {
    IsKey(v.id, v.mount, EntriesOf(s.entries, v.id), v.mount)
  }

  /** An open snapshot closed with the totals at the volume's mount. */
  ghost function Closed(s: Tables, v: Volume, snap: Scan, now: int): Scan
  {
    var es := EntriesOf(s.entries, v.id);
    snap.(totalSize := Total(OnDisk, v.id, v.mount, es, v.mount),
          fileCount := Total(FileCount, v.id, v.mount, es, v.mount), finished := Some(now))
  }

  /** `t` is `s` after recomputing the volumes in `done` and closing their open snapshots. */
  ghost predicate Finishing(volumes: seq<Volume>, s: Tables, t: Tables, now: int, done: set<Volume>)
  {
    && t.entries == s.entries && |t.snapshots| == |s.snapshots|
    && (forall v :: v in volumes ==> RowsAfter(s, t, v, now, v in done))
    && (forall v, i :: v in volumes && 0 <= i < |s.snapshots| && s.snapshots[i].volume == v.id ==>
          t.snapshots[i] == SnapshotAfter(s, v, s.snapshots[i], now, v in done))
    && (forall i :: 0 <= i < |s.snapshots| && !Listed(volumes, s.snapshots[i].volume) ==>
          t.snapshots[i] == s.snapshots[i])
    && (forall i :: 0 <= i < |s.snapshots| ==> SameScan(s.snapshots[i], t.snapshots[i]))
  }

  ghost predicate Listed(volumes: seq<Volume>, id: int)
  {
    exists v :: v in volumes && v.id == id
  }

  ghost predicate RowsAfter(s: Tables, t: Tables, v: Volume, now: int, recomputed: bool)
  {
    if recomputed then IsRollup(v.id, v.mount, EntriesOf(s.entries, v.id), RowsOf(v.id, t.rollups), now)
    else RowsOf(v.id, t.rollups) == RowsOf(v.id, s.rollups)
  }

  ghost function SnapshotAfter(s: Tables, v: Volume, snap: Scan, now: int, recomputed: bool): Scan
  {
    if recomputed && snap.finished.None? && HasRoot(s, v) then Closed(s, v, snap, now) else snap
  }

  ghost predicate SameScan(a: Scan, b: Scan)
  {
    a.volume == b.volume && a.started == b.started && (a.finished.Some? ==> a == b)
  }

  ghost function StaleOf(volumes: seq<Volume>, s: Tables, host: int): set<Volume>
  {
    set v | v in volumes && v.host == host && Stale(s, v)
  }

  ghost function Elements(vs: seq<Volume>): set<Volume>
  {
    set v | v in vs
  }

  ghost predicate Finalized(volumes: seq<Volume>, s: Tables, t: Tables, host: int, now: int)
  {
    Finishing(volumes, s, t, now, StaleOf(volumes, s, host))
  }

  ghost predicate DistinctVolumes(volumes: seq<Volume>)
  {
    forall i, j :: 0 <= i < j < |volumes| ==> volumes[i].id != volumes[j].id
  }

  class FinalizeService {
    const table: RollupTable
    const volumes: seq<Volume>
    var entries: map<int, seq<FsRow>>
    var snapshots: seq<Scan>

    ghost function Contents(): Tables
      reads this, table
    {
      Tables(entries, snapshots, table.rollups)
    }

    constructor (volumes: seq<Volume>, table: RollupTable)
      ensures this.volumes == volumes && this.table == table && snapshots == [] && entries == map[]
    {
      this.volumes, this.table, entries, snapshots := volumes, table, map[], [];
    }

    method StaleVolumes(host: int) returns (stale: seq<Volume>)
      requires DistinctVolumes(volumes)
      ensures Elements(stale) == StaleOf(volumes, Contents(), host)
      ensures forall i, j :: 0 <= i < j < |stale| ==> stale[i].id != stale[j].id
    {
      stale := [];
      for i := 0 to |volumes|
        invariant forall v :: v in stale <==> v in volumes[..i] && v.host == host && Stale(Contents(), v)
        invariant forall j, k :: 0 <= j < k < |stale| ==> stale[j].id != stale[k].id
      {
        var v := volumes[i];
        assert volumes[..i + 1] == volumes[..i] + [v];
        if v.host == host {
          var test := IsStale(snapshots, table.rollups, v, entries);
          if test { stale := stale + [v]; }
        }
      }
      assert volumes[..|volumes|] == volumes;
    }

    /** `_finalize_snapshot_stats`: without a root row nothing is closed. */
    method CloseSnapshots(v: Volume, now: int)
      requires IsRollup(v.id, v.mount, EntriesOf(entries, v.id), RowsOf(v.id, table.rollups), now)
      modifies this`snapshots
      ensures |snapshots| == |old(snapshots)|
      ensures forall i :: 0 <= i < |snapshots| ==>
                snapshots[i] == if old(snapshots)[i].volume == v.id
                                then SnapshotAfter(old(Contents()), v, old(snapshots)[i], now, true)
                                else old(snapshots)[i]
    {
      var rows := RowsOf(v.id, table.rollups);
      var root: Option<RollupRow> := None;
      for i := 0 to |rows|
        invariant root.None? ==> forall j :: 0 <= j < i ==> rows[j].path != v.mount
        invariant root.Some? ==> exists j :: 0 <= j < i && rows[j] == root.value && rows[j].path == v.mount
      {
        if rows[i].path == v.mount && root.None? { root := Some(rows[i]); }
      }
      if root.None? { return; }
      ghost var s := Contents();
      assert So(OnDisk, root.value.acc) == root.value.acc.onDisk && So(FileCount, root.value.acc) == root.value.acc.files;
      for i := 0 to |snapshots|
        invariant |snapshots| == |s.snapshots|
        invariant forall j :: 0 <= j < |snapshots| ==>
                    snapshots[j] == if j < i && s.snapshots[j].volume == v.id
                                    then SnapshotAfter(s, v, s.snapshots[j], now, true) else s.snapshots[j]
      {
        var snap := snapshots[i];
        if snap.volume == v.id && snap.finished.None? {
          snapshots := snapshots[i := snap.(totalSize := root.value.acc.onDisk, fileCount := root.value.acc.files,
                                           finished := Some(now))];
        }
      }
    }

    /** `finalize_host`: exactly the host's stale volumes are recomputed. */
    method FinalizeHost(host: int, now: int) returns (recomputed: seq<Volume>)
      requires DistinctVolumes(volumes)
      modifies this`snapshots, table
      ensures Elements(recomputed) == StaleOf(volumes, old(Contents()), host)
      ensures Finalized(volumes, old(Contents()), Contents(), host, now)
    {
      ghost var s := Contents();
      recomputed := StaleVolumes(host);
      for k := 0 to |recomputed|
        invariant Finishing(volumes, s, Contents(), now, Elements(recomputed[..k]))
        modifies this`snapshots, table
      {
        var v := recomputed[k];
        assert v in Elements(recomputed) && v !in Elements(recomputed[..k]);
        ghost var before := Contents();
        var _ := table.RecomputeFull(v.id, Some(v.mount), EntriesOf(entries, v.id), now);
        RecomputedRows(v, before.rollups, table.rollups, EntriesOf(entries, v.id), now);
        ghost var mid := Contents();
        CloseSnapshots(v, now);
        assert forall snap :: SnapshotAfter(mid, v, snap, now, true) == SnapshotAfter(before, v, snap, now, true);
        assert Elements(recomputed[..k + 1]) == Elements(recomputed[..k]) + {v};
        AfterStep(volumes, s, before, Contents(), now, Elements(recomputed[..k]), v);
      }
      assert recomputed[..|recomputed|] == recomputed;
    }
  }

  lemma {:induction false} ReplacedRows(volume: int, before: seq<RollupRow>, made: seq<RollupRow>, w: int)
    requires forall i :: 0 <= i < |made| ==> made[i].volume == volume
    ensures RowsOf(w, Others(volume, before) + made) == if w == volume then made else RowsOf(w, before)
  {
    RowsAppend(w, Others(volume, before), made);
    RowsOfOthers(w, volume, before);
    RowsOfOne(w, volume, made);
    assert [] + made == made && RowsOf(w, before) + [] == RowsOf(w, before);
  }

  lemma {:induction false} RecomputedRows(v: Volume, before: seq<RollupRow>, after: seq<RollupRow>, es: seq<FsRow>,
                                          now: int)
    requires Others(v.id, before) <= after
    requires IsRollup(v.id, v.mount, es, after[|Others(v.id, before)|..], now)
    ensures IsRollup(v.id, v.mount, es, RowsOf(v.id, after), now)
    ensures forall w :: w != v.id ==> RowsOf(w, after) == RowsOf(w, before)
  {
    var kept := Others(v.id, before);
    var made := after[|kept|..];
    assert after == kept + made;
    forall w ensures RowsOf(w, after) == if w == v.id then made else RowsOf(w, before) {
      ReplacedRows(v.id, before, made, w);
    }
  }

  /** What one more recomputed volume changes. */
  ghost predicate OneMoreDone(s: Tables, b: Tables, t: Tables, now: int, v: Volume)
  {
    && t.entries == b.entries && |t.snapshots| == |b.snapshots|
    && IsRollup(v.id, v.mount, EntriesOf(s.entries, v.id), RowsOf(v.id, t.rollups), now)
    && (forall w :: w != v.id ==> RowsOf(w, t.rollups) == RowsOf(w, b.rollups))
    && (forall i :: 0 <= i < |b.snapshots| ==>
          t.snapshots[i] == if b.snapshots[i].volume == v.id then SnapshotAfter(b, v, b.snapshots[i], now, true)
                            else b.snapshots[i])
  }

  lemma {:induction false} SameVolume(volumes: seq<Volume>, v: Volume, w: Volume)
    requires DistinctVolumes(volumes) && v in volumes && w in volumes && v.id == w.id
    ensures v == w
  {
  }

  lemma {:induction false} AfterStep(volumes: seq<Volume>, s: Tables, b: Tables, t: Tables, now: int,
                                     done: set<Volume>, v: Volume)
    requires DistinctVolumes(volumes) && v in volumes && v !in done && Finishing(volumes, s, b, now, done)
    requires OneMoreDone(s, b, t, now, v)
    ensures Finishing(volumes, s, t, now, done + {v})
  {
    forall w | w in volumes ensures RowsAfter(s, t, w, now, w in done + {v}) {
      assert RowsAfter(s, b, w, now, w in done);
      if w.id == v.id { SameVolume(volumes, v, w); }
    }
    forall w, i | w in volumes && 0 <= i < |s.snapshots| && s.snapshots[i].volume == w.id
      ensures t.snapshots[i] == SnapshotAfter(s, w, s.snapshots[i], now, w in done + {v})
    {
      assert b.snapshots[i] == SnapshotAfter(s, w, s.snapshots[i], now, w in done);
      if w.id == v.id { SameVolume(volumes, v, w); }
    }
    forall i | 0 <= i < |s.snapshots| ensures SameScan(s.snapshots[i], t.snapshots[i]) {
      assert SameScan(s.snapshots[i], b.snapshots[i]);
    }
  }

  // ---------------------------------------------------------------- one finalize

  lemma {:induction false} RowsMembers(volume: int, rows: seq<RollupRow>)
    ensures forall r :: r in RowsOf(volume, rows) <==> r in rows && r.volume == volume
  {
    if rows != [] {
      RowsMembers(volume, rows[1..]);
      assert rows == [rows[0]] + rows[1..];
    }
  }

  /** Staleness depends on the volume's rollup rows and on when its snapshots started, and on nothing else. */
  lemma {:induction false} SameStaleness(s: Tables, t: Tables, v: Volume)
    requires |s.snapshots| == |t.snapshots|
    requires forall i :: 0 <= i < |s.snapshots| ==> SameScan(s.snapshots[i], t.snapshots[i])
    requires RowsOf(v.id, s.rollups) == RowsOf(v.id, t.rollups)
    ensures Stale(s, v) <==> Stale(t, v)
  {
    RowsMembers(v.id, s.rollups);
    RowsMembers(v.id, t.rollups);
    forall i | 0 <= i < |s.snapshots|
      ensures NoEarlier(s.snapshots[i], v.id, s.rollups) <==> NoEarlier(t.snapshots[i], v.id, t.rollups)
    {
      assert SameScan(s.snapshots[i], t.snapshots[i]);
    }
  }

  /** A finalize leaves a volume of the host right exactly when it was stale or already right; closed snapshots and
      other hosts' volumes are as they were. */
  lemma {:induction false} FinalizeRightIff(volumes: seq<Volume>, s: Tables, t: Tables, host: int, now: int, v: Volume)
    requires v in volumes && Finalized(volumes, s, t, host, now)
    ensures v.host == host ==> (Right(t, v) <==> Stale(s, v) || Right(s, v))
    ensures v.host != host ==> (Right(t, v) <==> Right(s, v)) && RowsOf(v.id, t.rollups) == RowsOf(v.id, s.rollups)
    ensures forall i :: 0 <= i < |s.snapshots| && s.snapshots[i].finished.Some? ==> t.snapshots[i] == s.snapshots[i]
  {
  }

  /** A live entry lies beneath the volume's mount. */
  ghost predicate AnyBeneath(s: Tables, v: Volume)
  {
    var es := EntriesOf(s.entries, v.id);
    exists j :: 0 <= j < |es| && Live(v.id, es[j]) && StrictlyBelow(es[j].info.path, v.mount)
  }

  lemma {:induction false} RootIffBeneath(s: Tables, v: Volume, ms: seq<string>)
    requires v.mount == Render(ms) && Vetted(v.id, ms, EntriesOf(s.entries, v.id))
    ensures HasRoot(s, v) <==> AnyBeneath(s, v)
  {
    var es := EntriesOf(s.entries, v.id);
    forall j | 0 <= j < |es| && Live(v.id, es[j])
      ensures v.mount in AncestorDirs(es[j].info.path, v.mount) <==> StrictlyBelow(es[j].info.path, v.mount)
    {
      CanonicalContribution(OnDisk, v.id, ms, es[j], ms);
    }
  }

  /** What a finalize writes into snapshots: every open one of a stale volume that has something beneath its mount is
      finished, with the bytes on disk and the number of files beneath it; every other one is as it was. */
  lemma {:induction false} FinalizedSnapshots(volumes: seq<Volume>, s: Tables, t: Tables, host: int, now: int, v: Volume,
                                              ms: seq<string>, i: nat)
    requires v in volumes && Finalized(volumes, s, t, host, now)
    requires v.mount == Render(ms) && Vetted(v.id, ms, EntriesOf(s.entries, v.id))
    requires i < |s.snapshots| && s.snapshots[i].volume == v.id
    ensures |t.snapshots| == |s.snapshots|
    ensures var snap, es := s.snapshots[i], EntriesOf(s.entries, v.id);
            t.snapshots[i]
            == if v.host == host && Stale(s, v) && snap.finished == None && AnyBeneath(s, v)
               then Scan(v.id, snap.started, Some(now), BeneathSum(OnDisk, v.id, es, v.mount),
                         BeneathSum(FileCount, v.id, es, v.mount))
               else snap
  {
    var es := EntriesOf(s.entries, v.id);
    RootIffBeneath(s, v, ms);
    TotalIsBeneathSum(OnDisk, v.id, ms, es, ms);
    TotalIsBeneathSum(FileCount, v.id, ms, es, ms);
    assert t.snapshots[i] == SnapshotAfter(s, v, s.snapshots[i], now, v in StaleOf(volumes, s, host));
  }

  lemma {:induction false} MountIsAncestor(path: string, mount: string)
    ensures path != mount <==> mount in AncestorDirs(path, mount)
    ensures AncestorDirs(path, mount) == [] <==> path == mount
  {
  }

  /** A rollup is empty, and so has no root, exactly when no live entry lies anywhere but at the mount itself. */
  lemma {:induction false} EmptyRollupIff(v: Volume, es: seq<FsRow>, rows: seq<RollupRow>, now: int)
    requires IsRollup(v.id, v.mount, es, rows, now)
    ensures rows == [] <==> forall i :: 0 <= i < |es| && Live(v.id, es[i]) ==> es[i].info.path == v.mount
    ensures rows == [] <==> !IsKey(v.id, v.mount, es, v.mount)
  {
    forall i | 0 <= i < |es| { MountIsAncestor(es[i].info.path, v.mount); }
    if IsKey(v.id, v.mount, es, v.mount) {
      var i :| 0 <= i < |rows| && rows[i].path == v.mount;
    }
    if rows != [] {
      assert rows[0].path == rows[0].path;
      assert IsKey(v.id, v.mount, es, rows[0].path);
      var i :| 0 <= i < |es| && Live(v.id, es[i]) && rows[0].path in AncestorDirs(es[i].info.path, v.mount);
      assert es[i].info.path != v.mount;
    }
  }

  ghost predicate StartedBefore(s: Tables, now: int)
  {
    forall i :: 0 <= i < |s.snapshots| ==> s.snapshots[i].started < now
  }

  /** After a finalize that follows every scan's start, the volumes of the host that a repeat would take up again are
      exactly those with a snapshot and an empty rollup. */
  lemma {:induction false} RepeatSelects(volumes: seq<Volume>, s: Tables, t: Tables, host: int, now: int, v: Volume)
    requires v in volumes && v.host == host && Finalized(volumes, s, t, host, now) && StartedBefore(s, now)
    ensures Stale(t, v) <==> HasSnapshot(t, v.id) && RowsOf(v.id, t.rollups) == []
  {
    var done := StaleOf(volumes, s, host);
    assert RowsAfter(s, t, v, now, v in done);
    RowsMembers(v.id, t.rollups);
    var rows := RowsOf(v.id, t.rollups);
    forall i | 0 <= i < |s.snapshots| ensures SameScan(s.snapshots[i], t.snapshots[i]) {}
    if v !in done { SameStaleness(s, t, v); }
    if rows == [] {
      forall i | 0 <= i < |t.snapshots| && t.snapshots[i].volume == v.id ensures NoEarlier(t.snapshots[i], v.id, t.rollups) {}
    } else {
      assert rows[0] in rows;
    }
  }

  /** Such a volume exists: the scan of an empty one. Whenever a finalize runs, the volume is stale, is taken up, and
      comes out as it went in, its snapshot still open and it still stale. */
  lemma {:induction false} EmptyTakenAgain(v: Volume, started: int, now: int) returns (s: Tables)
    ensures s == Tables(map[v.id := []], [Scan(v.id, started, None, 0, 0)], [])
    ensures Stale(s, v) && StaleOf([v], s, v.host) == {v} && Finalized([v], s, s, v.host, now)
  {
    s := Tables(map[v.id := []], [Scan(v.id, started, None, 0, 0)], []);
    assert NoEarlier(s.snapshots[0], v.id, s.rollups);
    assert EntriesOf(s.entries, v.id) == [];
    assert IsRollup(v.id, v.mount, [], [], now);
  }

  /** So an immediate repeat rewrites nothing: no rollup row and no snapshot of any volume changes. */
  lemma {:induction false} RepeatChangesNothing(volumes: seq<Volume>, s: Tables, t: Tables, u: Tables, host: int,
                                              now: int, later: int, v: Volume)
    requires v in volumes && Finalized(volumes, s, t, host, now) && StartedBefore(s, now)
    requires Finalized(volumes, t, u, host, later)
    ensures RowsOf(v.id, u.rollups) == RowsOf(v.id, t.rollups)
    ensures forall i :: 0 <= i < |t.snapshots| && t.snapshots[i].volume == v.id ==> u.snapshots[i] == t.snapshots[i]
  {
    var done, again := StaleOf(volumes, s, host), StaleOf(volumes, t, host);
    assert RowsAfter(s, t, v, now, v in done) && RowsAfter(t, u, v, later, v in again);
    if v in again {
      RepeatSelects(volumes, s, t, host, now, v);
      forall i | 0 <= i < |s.snapshots| ensures SameScan(s.snapshots[i], t.snapshots[i]) {}
      EmptyWasStale(s, t, v);
      EmptyRollupIff(v, EntriesOf(s.entries, v.id), RowsOf(v.id, t.rollups), now);
      EmptyRollupIff(v, EntriesOf(t.entries, v.id), RowsOf(v.id, u.rollups), later);
    }
    forall i | 0 <= i < |t.snapshots| && t.snapshots[i].volume == v.id ensures u.snapshots[i] == t.snapshots[i] {
      assert u.snapshots[i] == SnapshotAfter(t, v, t.snapshots[i], later, v in again);
    }
  }

  /** A volume with a snapshot and no rollup row is stale. */
  lemma {:induction false} EmptyWasStale(s: Tables, t: Tables, v: Volume)
    requires |s.snapshots| == |t.snapshots| && HasSnapshot(t, v.id)
    requires forall i :: 0 <= i < |s.snapshots| ==> SameScan(s.snapshots[i], t.snapshots[i])
    ensures RowsOf(v.id, s.rollups) == [] ==> Stale(s, v)
  {
    RowsMembers(v.id, s.rollups);
    var i :| 0 <= i < |t.snapshots| && t.snapshots[i].volume == v.id;
    assert SameScan(s.snapshots[i], t.snapshots[i]);
    assert RowsOf(v.id, s.rollups) == [] ==> NoEarlier(s.snapshots[i], v.id, s.rollups);
  }

  // ---------------------------------------------------------------- whole runs

  /** One ingest transaction leaves new entries and either opens a snapshot or names an existing one. */
  datatype Action =
    | Ingested(volume: int, entries: seq<FsRow>, opens: bool, started: int, snapshot: nat)
    | FinalizeCall(host: int, now: int)

  ghost predicate Step(volumes: seq<Volume>, s: Tables, a: Action, t: Tables)
  {
    match a
    case Ingested(volume, entries, opens, started, snapshot) =>
      && t.entries == s.entries[volume := entries] && t.rollups == s.rollups
      && (if opens then t.snapshots == s.snapshots + [Scan(volume, started, None, 0, 0)]
          else snapshot < |s.snapshots| && s.snapshots[snapshot].volume == volume && t.snapshots == s.snapshots)
    case FinalizeCall(host, now) => Finalized(volumes, s, t, host, now)
  }

  /** The snapshot that a batch goes into started no earlier than the volume's latest rollup. */
  ghost predicate OnTime(s: Tables, a: Action)
  {
    match a
    case Ingested(volume, _, opens, started, snapshot) =>
      if opens then NoEarlier(Scan(volume, started, None, 0, 0), volume, s.rollups)
      else snapshot < |s.snapshots| && NoEarlier(s.snapshots[snapshot], volume, s.rollups)
    case FinalizeCall(_, _) => true
  }

  ghost predicate IsRun(volumes: seq<Volume>, trace: seq<Tables>, acts: seq<Action>)
  {
    && |trace| == |acts| + 1 && trace[0].snapshots == [] && trace[0].rollups == []
    && forall i :: 0 <= i < |acts| ==> Step(volumes, trace[i], acts[i], trace[i + 1])
  }

  ghost predicate Good(s: Tables, v: Volume)
  {
    HasSnapshot(s, v.id) ==> Stale(s, v) || Right(s, v)
  }

  lemma {:induction false} IngestKeepsGood(volumes: seq<Volume>, s: Tables, a: Action, t: Tables, v: Volume)
    requires a.Ingested? && Step(volumes, s, a, t) && OnTime(s, a) && Good(s, v)
    ensures Good(t, v)
  {
    if v.id == a.volume {
      var at := if a.opens then |s.snapshots| else a.snapshot;
      assert NoEarlier(t.snapshots[at], v.id, t.rollups);
    } else {
      if i :| 0 <= i < |t.snapshots| && t.snapshots[i].volume == v.id { assert s.snapshots[i].volume == v.id; }
      if i :| 0 <= i < |s.snapshots| && NoEarlier(s.snapshots[i], v.id, s.rollups) {
        assert NoEarlier(t.snapshots[i], v.id, t.rollups);
      }
      assert EntriesOf(t.entries, v.id) == EntriesOf(s.entries, v.id);
      if k :| IsRollup(v.id, v.mount, EntriesOf(s.entries, v.id), RowsOf(v.id, s.rollups), k) {
        assert IsRollup(v.id, v.mount, EntriesOf(t.entries, v.id), RowsOf(v.id, t.rollups), k);
      }
    }
  }

  lemma {:induction false} FinalizeKeepsGood(volumes: seq<Volume>, s: Tables, t: Tables, host: int, now: int, v: Volume)
    requires v in volumes && Finalized(volumes, s, t, host, now) && Good(s, v)
    ensures Good(t, v)
  {
    FinalizeRightIff(volumes, s, t, host, now, v);
    forall i | 0 <= i < |s.snapshots| ensures SameScan(s.snapshots[i], t.snapshots[i]) {}
    if i :| 0 <= i < |t.snapshots| && t.snapshots[i].volume == v.id { assert s.snapshots[i].volume == v.id; }
    if v.host != host { SameStaleness(s, t, v); }
  }

  lemma {:induction false} RunIsGood(volumes: seq<Volume>, trace: seq<Tables>, acts: seq<Action>, n: nat, v: Volume)
    requires IsRun(volumes, trace, acts) && n < |trace| && v in volumes
    requires forall i :: 0 <= i < n ==> OnTime(trace[i], acts[i])
    ensures Good(trace[n], v)
  {
    if n > 0 {
      RunIsGood(volumes, trace, acts, n - 1, v);
      var s, a, t := trace[n - 1], acts[n - 1], trace[n];
      match a
      case Ingested(_, _, _, _, _) => IngestKeepsGood(volumes, s, a, t, v);
      case FinalizeCall(host, now) => FinalizeKeepsGood(volumes, s, t, host, now, v);
    }
  }

  /** Over any run in which no batch goes into a snapshot older than its volume's rollup, every finalize leaves each
      of the host's volumes that has a snapshot with exactly the rollup of its present entries. */
  lemma {:induction false} RollupsRightAfterFinalize(volumes: seq<Volume>, trace: seq<Tables>, acts: seq<Action>,
                                                     n: nat,
                                                   v: Volume)
    requires IsRun(volumes, trace, acts) && n < |acts| && v in volumes
    requires acts[n].FinalizeCall? && acts[n].host == v.host && HasSnapshot(trace[n], v.id)
    requires forall i :: 0 <= i < n ==> OnTime(trace[i], acts[i])
    ensures Right(trace[n + 1], v)
  {
    RunIsGood(volumes, trace, acts, n, v);
    FinalizeRightIff(volumes, trace[n], trace[n + 1], v.host, acts[n].now, v);
  }

  /** The condition is needed: a batch that goes into a snapshot the last finalize has passed, and after which the old
      rollup is wrong, stays invisible to the next finalize. */
  lemma {:induction false} LateBatchSkipped(volumes: seq<Volume>, s: Tables, a: Action, t: Tables, u: Tables,
                                            now: int, v: Volume)
    requires v in volumes && a.Ingested? && a.volume == v.id && !a.opens
    requires Step(volumes, s, a, t) && Finalized(volumes, t, u, v.host, now)
    requires !Stale(s, v) && !Right(t, v)
    ensures !OnTime(s, a) && !Right(u, v) && RowsOf(v.id, u.rollups) == RowsOf(v.id, s.rollups)
  {
  }

  // ---------------------------------------------------------------- a run that skips a batch

  /** One live file directly below the mount. */
  function FileRow(v: Volume, ms: seq<string>, name: string, size: int): FsRow
  {
    FsRow(Key(v.host, v.id, 0, 1), Info(Render(ms + [name]), name, 1, false, false, 0, 0.0, 0, 0, "", None),
          size, 0.0, None, true, None, 0)
  }

  function FileRollup(v: Volume, size: int, now: int): RollupRow
  {
    RollupRow(v.id, v.mount, 0, Acc(size, 0, 1, 0), now)
  }

  lemma {:induction false} FileAncestors(ms: seq<string>, name: string)
    requires ValidNames(ms) && ValidName(name)
    ensures AncestorDirs(Render(ms + [name]), Render(ms)) == [Render(ms)] && DepthWithin(Render(ms), Render(ms)) == 0
  {
    AncestorsAreLevels(ms, [name]);
    DepthIsLevels(ms, []);
    assert ms + [name][..0] == ms && ms + [] == ms;
  }

  lemma {:induction false} FileKeys(v: Volume, ms: seq<string>, name: string, size: int, es: seq<FsRow>, d: string)
    requires ValidNames(ms) && ValidName(name) && v.mount == Render(ms) && es == [FileRow(v, ms, name, size)]
    ensures IsKey(v.id, v.mount, es, d) <==> d == v.mount
  {
    FileAncestors(ms, name);
    assert Live(v.id, es[0]) && v.mount in AncestorDirs(es[0].info.path, v.mount);
  }

  lemma {:induction false} FileTotal(v: Volume, ms: seq<string>, name: string, size: int, es: seq<FsRow>, m: Measure)
    requires ValidNames(ms) && ValidName(name) && v.mount == Render(ms) && es == [FileRow(v, ms, name, size)]
    ensures Total(m, v.id, v.mount, es, v.mount) == Own(m, es[0])
  {
    FileAncestors(ms, name);
    var ds := AncestorDirs(es[0].info.path, v.mount);
    assert ds == [v.mount] && ds[1..] == [] && es[..0] == [];
    assert Times(ds, v.mount, Own(m, es[0])) == Own(m, es[0]) + Times([], v.mount, Own(m, es[0]));
    assert Total(m, v.id, v.mount, es, v.mount)
        == Total(m, v.id, v.mount, es[..0], v.mount) + Contribution(m, v.id, v.mount, es[0], v.mount);
  }

  /** The rollup of a volume that holds one file. */
  lemma {:induction false} FileIsRolledUp(v: Volume, ms: seq<string>, name: string, size: int, now: int, es: seq<FsRow>,
                                          rows: seq<RollupRow>)
    requires ValidNames(ms) && ValidName(name) && v.mount == Render(ms)
    requires es == [FileRow(v, ms, name, size)] && rows == [FileRollup(v, size, now)]
    ensures IsRollup(v.id, v.mount, es, rows, now)
  {
    FileAncestors(ms, name);
    assert rows[0].path == v.mount;
    forall d ensures IsKey(v.id, v.mount, es, d) <==> exists i :: 0 <= i < |rows| && rows[i].path == d {
      FileKeys(v, ms, name, size, es, d);
    }
    forall m ensures So(m, rows[0].acc) == Total(m, v.id, v.mount, es, rows[0].path) {
      FileTotal(v, ms, name, size, es, m);
    }
  }

  /** The tables after the scan, after the finalize, and after the late batch. */
  function Scanned(v: Volume, ms: seq<string>, name: string, size: int): Tables
  {
    Tables(map[v.id := [FileRow(v, ms, name, size)]], [Scan(v.id, 0, None, 0, 0)], [])
  }

  function RolledUp(v: Volume, ms: seq<string>, name: string, size: int, stored: int): Tables
  {
    Tables(map[v.id := [FileRow(v, ms, name, stored)]], [Scan(v.id, 0, Some(10), 0, 1)], [FileRollup(v, size, 10)])
  }

  /** Four steps: a scan reports a file, finalize rolls it up, a late batch pushes the file's new size into the same
      snapshot, and the next finalize leaves the rollup at the old size. Only the late batch is not on time. */
  lemma {:induction false} LateBatchRun(v: Volume, ms: seq<string>, name: string, size: int, newSize: int)
      returns (trace: seq<Tables>, acts: seq<Action>)
    requires ValidNames(ms) && ValidName(name) && v.mount == Render(ms) && newSize != size
    ensures IsRun([v], trace, acts) && |acts| == 4
    ensures OnTime(trace[0], acts[0]) && !OnTime(trace[2], acts[2]) && acts[3].FinalizeCall? && acts[3].host == v.host
    ensures Right(trace[2], v) && !Stale(trace[3], v) && !Right(trace[4], v)
  {
    var t0, t1 := Tables(map[], [], []), Scanned(v, ms, name, size);
    var t2, t3 := RolledUp(v, ms, name, size, size), RolledUp(v, ms, name, size, newSize);
    trace := [t0, t1, t2, t3, t3];
    acts := [Ingested(v.id, [FileRow(v, ms, name, size)], true, 0, 0), FinalizeCall(v.host, 10),
             Ingested(v.id, [FileRow(v, ms, name, newSize)], false, 0, 0), FinalizeCall(v.host, 20)];
    FirstFinalize(v, ms, name, size, t1, t2);
    NotTaken(v, t3, FileRollup(v, size, 10), 20);
    OldRollupWrong(v, ms, name, size, newSize, t3);
    LateSteps(v, ms, name, size, newSize, t0, acts[0], acts[2]);
    assert Step([v], t1, acts[1], t2) && Step([v], t3, acts[3], t3);
  }

  lemma {:induction false} LateSteps(v: Volume, ms: seq<string>, name: string, size: int, newSize: int, t0: Tables,
                                     first: Action, late: Action)
    requires t0 == Tables(map[], [], [])
    requires first == Ingested(v.id, [FileRow(v, ms, name, size)], true, 0, 0)
    requires late == Ingested(v.id, [FileRow(v, ms, name, newSize)], false, 0, 0)
    ensures Step([v], t0, first, Scanned(v, ms, name, size)) && OnTime(t0, first)
    ensures Step([v], RolledUp(v, ms, name, size, size), late, RolledUp(v, ms, name, size, newSize))
    ensures !OnTime(RolledUp(v, ms, name, size, size), late)
  {
    var t2, t3 := RolledUp(v, ms, name, size, size), RolledUp(v, ms, name, size, newSize);
    assert t3.entries == t2.entries[v.id := [FileRow(v, ms, name, newSize)]];
    assert FileRollup(v, size, 10) in t2.rollups;
  }

  lemma {:induction false} FirstFinalize(v: Volume, ms: seq<string>, name: string, size: int, s: Tables, t: Tables)
    requires ValidNames(ms) && ValidName(name) && v.mount == Render(ms)
    requires s == Tables(map[v.id := [FileRow(v, ms, name, size)]], [Scan(v.id, 0, None, 0, 0)], [])
    requires t == Tables(s.entries, [Scan(v.id, 0, Some(10), 0, 1)], [FileRollup(v, size, 10)])
    ensures Finalized([v], s, t, v.host, 10) && Right(t, v)
  {
    var es := EntriesOf(s.entries, v.id);
    assert es == [FileRow(v, ms, name, size)];
    FileIsRolledUp(v, ms, name, size, 10, es, t.rollups);
    RowsOfOne(v.id, v.id, t.rollups);
    assert NoEarlier(s.snapshots[0], v.id, s.rollups);
    assert v in StaleOf([v], s, v.host);
    FileTotal(v, ms, name, size, es, OnDisk);
    FileTotal(v, ms, name, size, es, FileCount);
    FileKeys(v, ms, name, size, es, v.mount);
    assert SnapshotAfter(s, v, s.snapshots[0], 10, true) == t.snapshots[0];
    assert IsRollup(v.id, v.mount, EntriesOf(t.entries, v.id), RowsOf(v.id, t.rollups), 10);
  }

  lemma {:induction false} NotTaken(v: Volume, s: Tables, made: RollupRow, now: int)
    requires s.rollups == [made] && made.volume == v.id && made.computedAt == 10
    requires |s.snapshots| == 1 && s.snapshots[0].started == 0
    ensures !Stale(s, v) && Finalized([v], s, s, v.host, now)
  {
    assert made in s.rollups;
    assert !Stale(s, v);
    assert StaleOf([v], s, v.host) == {};
  }

  lemma {:induction false} OldRollupWrong(v: Volume, ms: seq<string>, name: string, size: int, newSize: int, s: Tables)
    requires ValidNames(ms) && ValidName(name) && v.mount == Render(ms) && newSize != size
    requires EntriesOf(s.entries, v.id) == [FileRow(v, ms, name, newSize)] && s.rollups == [FileRollup(v, size, 10)]
    ensures !Right(s, v)
  {
    FileTotal(v, ms, name, newSize, EntriesOf(s.entries, v.id), Logical);
    RowsOfOne(v.id, v.id, s.rollups);
    forall t ensures !IsRollup(v.id, v.mount, EntriesOf(s.entries, v.id), RowsOf(v.id, s.rollups), t) {
      assert So(Logical, s.rollups[0].acc) == size;
    }
  }
}
