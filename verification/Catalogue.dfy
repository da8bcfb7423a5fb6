/** The file catalogue: guarded upsert by identity, presence markers, removals, and the churn rows
    that describe them. A table is a sequence of rows in insertion order. */
module Catalogue {
  import opened Lists

  datatype Key = Key(host: int, volume: int, dev: int, inode: int)

  /** The descriptive columns that every overwrite replaces together. */
  datatype Info = Info(path: string, name: string, depth: int, isDir: bool, isSymlink: bool, sizeOnDisk: int,
                       ctime: real, uid: int, gid: int, flags: string, providerHash: Option<string>)

  datatype FsRow = FsRow(key: Key, info: Info, size: int, mtime: real, hash: Option<string>,
                         present: bool, removedAt: Option<int>, snapshot: int)

  /** A vetted entry of a batch. */
  datatype Entry = Entry(dev: int, inode: int, info: Info, size: int, mtime: real, hash: Option<string>)

  datatype Removal = Precise(dev: int, inode: int) | Legacy(inode: int)

  datatype Mode = Metadata | FullBit

  datatype Batch = Batch(host: int, volume: int, snapshot: int, mode: Mode, entries: seq<Entry>,
                         removed: seq<Removal>, logging: bool)

  datatype ChangeType = Create | Modify | Delete

  /** A churn row. The program stores volume and path; the key is kept here to say whose it is. */
  datatype Change = Change(key: Key, path: string, kind: ChangeType, delta: int)

  function KeyOf(b: Batch, e: Entry): Key
  {
    Key(b.host, b.volume, e.dev, e.inode)
  }

  function Lookup(rows: seq<FsRow>, k: Key): Option<FsRow>
  {
    if rows == [] then None else if rows[0].key == k then Some(rows[0]) else Lookup(rows[1..], k)
  }

  /** The identity constraint on (host, volume, dev, inode). */
  ghost predicate Unique(rows: seq<FsRow>)
  {
    forall i, j :: 0 <= i < j < |rows| ==> rows[i].key != rows[j].key
  }

  // ---------------------------------------------------------------- upsert

  /** The SQL guard of a metadata upsert. */
  predicate Guard(stored: FsRow, e: Entry)
  {
    e.mtime != stored.mtime || e.size != stored.size || !stored.present
  }

  function Fresh(b: Batch, e: Entry): FsRow
  {
    FsRow(KeyOf(b, e), e.info, e.size, e.mtime, if b.mode.FullBit? then e.hash else None, true, None, b.snapshot)
  }

  /** Overwriting takes every descriptive column; only a full-bit batch writes the hash and only a
      metadata batch the presence markers. */
  function Overwritten(b: Batch, stored: FsRow, e: Entry): FsRow
  {
    var r := stored.(info := e.info, size := e.size, mtime := e.mtime, snapshot := b.snapshot);
    if b.mode.FullBit? then r.(hash := e.hash) else r.(present := true, removedAt := None)
  }

  function OnConflict(b: Batch, stored: FsRow, e: Entry): FsRow
  {
    if b.mode.FullBit? || Guard(stored, e) then Overwritten(b, stored, e) else stored
  }

  function UpsertOne(b: Batch, rows: seq<FsRow>, e: Entry): seq<FsRow>
  {
    if rows == [] then [Fresh(b, e)]
    else if rows[0].key == KeyOf(b, e) then [OnConflict(b, rows[0], e)] + rows[1..]
    else [rows[0]] + UpsertOne(b, rows[1..], e)
  }

  function UpsertAll(b: Batch, rows: seq<FsRow>, es: seq<Entry>): seq<FsRow>
    decreases es
  {
    if es == [] then rows else UpsertAll(b, UpsertOne(b, rows, es[0]), es[1..])
  }

  ghost predicate DistinctKeys(es: seq<Entry>)
  {
    forall i, j :: 0 <= i < j < |es| ==> (es[i].dev, es[i].inode) != (es[j].dev, es[j].inode)
  }

  // ---------------------------------------------------------------- classification

  datatype PriorState = PriorState(present: bool, mtime: real, size: int)

  function PriorOf(r: Option<FsRow>): Option<PriorState>
  {
    match r case None => None case Some(row) => Some(PriorState(row.present, row.mtime, row.size))
  }

  /** `_classify`: the churn feed's own view of whether an entry is new, changed or unchanged. */
  function Classify(before: Option<PriorState>, newSize: int, newMtime: real): Option<ChangeType>
  {
    match before
    case None => Some(Create)
    case Some(p) =>
      if !p.present then Some(Create)
      else if p.size != newSize || p.mtime != newMtime then Some(Modify)
      else None
  }

  function ChurnOne(b: Batch, before: Option<PriorState>, e: Entry): seq<Change>
  {
    match Classify(before, e.size, e.mtime)
    case None => []
    case Some(kind) =>
      [Change(KeyOf(b, e), e.info.path, kind, e.size - if before.Some? then before.value.size else 0)]
  }

  /** Every entry is classified against the table as it was before the batch. */
  function Churn(b: Batch, rows: seq<FsRow>, es: seq<Entry>): seq<Change>
  {
    if es == [] then []
    else ChurnOne(b, PriorOf(Lookup(rows, KeyOf(b, es[0]))), es[0]) + Churn(b, rows, es[1..])
  }

  // ---------------------------------------------------------------- removal

  predicate Matches(b: Batch, k: Key)
  {
    k.host == b.host && k.volume == b.volume && (Precise(k.dev, k.inode) in b.removed || Legacy(k.inode) in b.removed)
  }

  function RemoveRow(b: Batch, now: int, r: FsRow): FsRow
  {
    if Matches(b, r.key) && r.present then r.(present := false, removedAt := Some(now)) else r
  }

  function MarkRemoved(b: Batch, now: int, rows: seq<FsRow>): seq<FsRow>
  {
    if rows == [] then [] else [RemoveRow(b, now, rows[0])] + MarkRemoved(b, now, rows[1..])
  }

  function RemovedCount(b: Batch, rows: seq<FsRow>): nat
  {
    if rows == [] then 0 else (if Matches(b, rows[0].key) && rows[0].present then 1 else 0) + RemovedCount(b, rows[1..])
  }

  /** `_removal_churn`: read back by the stamp just written. */
  function RemovalChurn(b: Batch, now: int, rows: seq<FsRow>): seq<Change>
  {
    if rows == [] then []
    else (if Matches(b, rows[0].key) && rows[0].removedAt == Some(now)
          then [Change(rows[0].key, rows[0].info.path, Delete, -rows[0].size)] else [])
         + RemovalChurn(b, now, rows[1..])
  }

  // ---------------------------------------------------------------- one batch

  datatype State = State(rows: seq<FsRow>, log: seq<Change>)

  /** The table after a batch, the churn rows it appends, and the number of rows it removed. */
  function RowsAfter(b: Batch, now: int, rows: seq<FsRow>): seq<FsRow>
  {
    if b.mode.FullBit? then UpsertAll(b, rows, b.entries) else MarkRemoved(b, now, UpsertAll(b, rows, b.entries))
  }

  function Logged(b: Batch, now: int, rows: seq<FsRow>): seq<Change>
  {
    if b.mode.FullBit? || !b.logging then []
    else Churn(b, rows, b.entries) + RemovalChurn(b, now, RowsAfter(b, now, rows))
  }

  function Removed(b: Batch, rows: seq<FsRow>): nat
  {
    if b.mode.FullBit? then 0 else RemovedCount(b, UpsertAll(b, rows, b.entries))
  }

  function After(b: Batch, now: int, s: State): State
  {
    State(RowsAfter(b, now, s.rows), s.log + Logged(b, now, s.rows))
  }

  // ---------------------------------------------------------------- lookup through an upsert

  lemma {:induction false} LookupKey(rows: seq<FsRow>, k: Key)
    ensures Lookup(rows, k).Some? ==> Lookup(rows, k).value in rows && Lookup(rows, k).value.key == k
    ensures Lookup(rows, k).None? <==> forall i :: 0 <= i < |rows| ==> rows[i].key != k
  {
    if rows != [] {
      LookupKey(rows[1..], k);
      assert forall i :: 0 < i < |rows| ==> rows[i] == rows[1..][i - 1];
    }
  }

  lemma {:induction false} LookupAt(rows: seq<FsRow>, i: nat)
    requires Unique(rows) && i < |rows|
    ensures Lookup(rows, rows[i].key) == Some(rows[i])
  {
    if i > 0 {
      assert rows[0].key != rows[i].key;
      LookupAt(rows[1..], i - 1);
    }
  }

  /** An upsert changes the row of its own key and no other. */
  lemma {:induction false} LookupUpsertOne(b: Batch, rows: seq<FsRow>, e: Entry, k: Key)
    ensures Lookup(UpsertOne(b, rows, e), k) ==
            if k != KeyOf(b, e) then Lookup(rows, k)
            else match Lookup(rows, k) case None => Some(Fresh(b, e)) case Some(stored) => Some(OnConflict(b, stored, e))
  {
    if rows != [] && rows[0].key != KeyOf(b, e) {
      LookupUpsertOne(b, rows[1..], e, k);
    }
  }

  lemma {:induction false} UpsertSnoc(b: Batch, rows: seq<FsRow>, es: seq<Entry>, e: Entry)
    ensures UpsertAll(b, rows, es + [e]) == UpsertOne(b, UpsertAll(b, rows, es), e)
    decreases es
  {
    if es == [] {
      assert es + [e] == [e] && [e][1..] == [];
    } else {
      assert (es + [e])[1..] == es[1..] + [e];
      UpsertSnoc(b, UpsertOne(b, rows, es[0]), es[1..], e);
    }
  }

  /** One entry's effect on the row of its key. */
  function Upserted(b: Batch, r: Option<FsRow>, e: Entry): Option<FsRow>
  {
    match r case None => Some(Fresh(b, e)) case Some(stored) => Some(OnConflict(b, stored, e))
  }

  /** A key's row on its own: the entries of that key, one after the other. */
  function Evolved(b: Batch, r: Option<FsRow>, es: seq<Entry>, k: Key): Option<FsRow>
  {
    if es == [] then r
    else
      var before := Evolved(b, r, es[..|es| - 1], k);
      if KeyOf(b, es[|es| - 1]) == k then Upserted(b, before, es[|es| - 1]) else before
  }

  /** Whatever keys a batch repeats, a key's row after the upsert depends on its own row and its own entries only, in
      their order. */
  lemma {:induction false} LookupUpsertAll(b: Batch, rows: seq<FsRow>, es: seq<Entry>, k: Key)
    ensures Lookup(UpsertAll(b, rows, es), k) == Evolved(b, Lookup(rows, k), es, k)
    decreases |es|
  {
    if es != [] {
      var init, e := es[..|es| - 1], es[|es| - 1];
      assert es == init + [e];
      LookupUpsertAll(b, rows, init, k);
      UpsertSnoc(b, rows, init, e);
      LookupUpsertOne(b, UpsertAll(b, rows, init), e, k);
    }
  }

  /** Entries of other keys at the end of a batch do nothing to a key. */
  lemma {:induction false} EvolvedOthers(b: Batch, r: Option<FsRow>, es: seq<Entry>, n: nat, k: Key)
    requires n <= |es| && forall j :: n <= j < |es| ==> KeyOf(b, es[j]) != k
    ensures Evolved(b, r, es, k) == Evolved(b, r, es[..n], k)
    decreases |es|
  {
    if n < |es| {
      var init := es[..|es| - 1];
      assert init[..n] == es[..n];
      EvolvedOthers(b, r, init, n, k);
    } else {
      assert es[..n] == es;
    }
  }

  /** With keys that do not repeat, every entry meets the row that its key had before the batch. */
  lemma {:induction false} LookupDistinct(b: Batch, rows: seq<FsRow>, es: seq<Entry>, i: nat)
    requires DistinctKeys(es) && i < |es|
    ensures Lookup(UpsertAll(b, rows, es[..i]), KeyOf(b, es[i])) == Lookup(rows, KeyOf(b, es[i]))
    ensures Lookup(UpsertAll(b, rows, es), KeyOf(b, es[i])) == Upserted(b, Lookup(rows, KeyOf(b, es[i])), es[i])
  {
    var k, r := KeyOf(b, es[i]), Lookup(rows, KeyOf(b, es[i]));
    LookupUpsertAll(b, rows, es, k);
    LookupUpsertAll(b, rows, es[..i], k);
    assert forall j :: 0 <= j < |es| && j != i ==> (es[j].dev, es[j].inode) != (es[i].dev, es[i].inode);
    EvolvedOthers(b, r, es, i + 1, k);
    assert es[..i + 1][..i] == es[..i] && es[..i][..0] == [];
    EvolvedOthers(b, r, es[..i], 0, k);
  }

  /** The last of `es` with key `k`. */
  function LastOf(b: Batch, es: seq<Entry>, k: Key): Option<Entry>
  {
    if es == [] then None
    else if KeyOf(b, es[|es| - 1]) == k then Some(es[|es| - 1])
    else LastOf(b, es[..|es| - 1], k)
  }

  /** After the entries of a metadata batch, a key is present with the size and time of its last entry, or is
      untouched. */
  lemma {:induction false} RowAfterEntries(b: Batch, rows: seq<FsRow>, es: seq<Entry>, k: Key)
    requires b.mode.Metadata?
    ensures var r := Lookup(UpsertAll(b, rows, es), k);
            match LastOf(b, es, k)
            case None => r == Lookup(rows, k)
            case Some(e) =>
              r.Some? && r.value.key == k && r.value.size == e.size && r.value.mtime == e.mtime && r.value.present
    decreases |es|
  {
    if es != [] {
      var init, e := es[..|es| - 1], es[|es| - 1];
      assert es == init + [e];
      var mid := UpsertAll(b, rows, init);
      RowAfterEntries(b, rows, init, k);
      UpsertSnoc(b, rows, init, e);
      LookupUpsertOne(b, mid, e, k);
      LookupKey(mid, k);
    }
  }

  /** What a metadata batch stores for a key, by the last entry of it: a new present row; over a row that is absent from
      disk or differs in size or time, the entry with the row's hash; or else the row as it is. */
  lemma {:induction false} MetadataStores(b: Batch, rows: seq<FsRow>, i: nat)
    requires b.mode.Metadata? && i < |b.entries|
    requires forall j :: i < j < |b.entries| ==> KeyOf(b, b.entries[j]) != KeyOf(b, b.entries[i])
    ensures var e := b.entries[i]; var k := Key(b.host, b.volume, e.dev, e.inode);
            Lookup(UpsertAll(b, rows, b.entries), k)
            == match Lookup(UpsertAll(b, rows, b.entries[..i]), k)
               case None => Some(FsRow(k, e.info, e.size, e.mtime, None, true, None, b.snapshot))
               case Some(row) =>
                 if row.present && row.size == e.size && row.mtime == e.mtime then Some(row)
                 else Some(FsRow(row.key, e.info, e.size, e.mtime, row.hash, true, None, b.snapshot))
  {
    StoredByLast(b, rows, i);
  }

  /** What a full-content batch stores: the entry with its hash, over whatever was there; presence stays as it was. */
  lemma {:induction false} FullBitStores(b: Batch, rows: seq<FsRow>, i: nat)
    requires b.mode.FullBit? && i < |b.entries|
    requires forall j :: i < j < |b.entries| ==> KeyOf(b, b.entries[j]) != KeyOf(b, b.entries[i])
    ensures var e := b.entries[i]; var k := Key(b.host, b.volume, e.dev, e.inode);
            Lookup(UpsertAll(b, rows, b.entries), k)
            == match Lookup(UpsertAll(b, rows, b.entries[..i]), k)
               case None => Some(FsRow(k, e.info, e.size, e.mtime, e.hash, true, None, b.snapshot))
               case Some(row) => Some(FsRow(row.key, e.info, e.size, e.mtime, e.hash, row.present, row.removedAt, b.snapshot))
  {
    StoredByLast(b, rows, i);
  }

  lemma {:induction false} StoredByLast(b: Batch, rows: seq<FsRow>, i: nat)
    requires i < |b.entries|
    requires forall j :: i < j < |b.entries| ==> KeyOf(b, b.entries[j]) != KeyOf(b, b.entries[i])
    ensures var k := KeyOf(b, b.entries[i]);
            Lookup(UpsertAll(b, rows, b.entries), k)
            == Upserted(b, Lookup(UpsertAll(b, rows, b.entries[..i]), k), b.entries[i])
  {
    var es, k := b.entries, KeyOf(b, b.entries[i]);
    LookupUpsertAll(b, rows, es, k);
    LookupUpsertAll(b, rows, es[..i], k);
    EvolvedOthers(b, Lookup(rows, k), es, i + 1, k);
    assert es[..i + 1][..i] == es[..i];
  }

  lemma {:induction false} MarkRemovedAt(b: Batch, now: int, rows: seq<FsRow>)
    ensures |MarkRemoved(b, now, rows)| == |rows|
    ensures forall i :: 0 <= i < |rows| ==> MarkRemoved(b, now, rows)[i] == RemoveRow(b, now, rows[i])
  {
    if rows != [] { MarkRemovedAt(b, now, rows[1..]); }
  }

  /** A removal of the batch names this identity: device and inode, or the inode alone. */
  ghost predicate Named(b: Batch, k: Key)
  {
    k.host == b.host && k.volume == b.volume &&
    exists j :: 0 <= j < |b.removed| &&
      match b.removed[j] case Precise(dev, inode) => dev == k.dev && inode == k.inode case Legacy(inode) => inode == k.inode
  }

  lemma {:induction false} NamedIsMatched(b: Batch, k: Key)
    ensures Named(b, k) <==> Matches(b, k)
  {
    if Matches(b, k) {
      if Precise(k.dev, k.inode) in b.removed {
        var j :| 0 <= j < |b.removed| && b.removed[j] == Precise(k.dev, k.inode);
      } else {
        var j :| 0 <= j < |b.removed| && b.removed[j] == Legacy(k.inode);
      }
    }
  }

  /** Removal: the present rows that are named are marked with the time, and nothing else about any row changes. */
  lemma {:induction false} RemovedRows(b: Batch, now: int, rows: seq<FsRow>)
    ensures |MarkRemoved(b, now, rows)| == |rows|
    ensures forall i :: 0 <= i < |rows| ==>
              MarkRemoved(b, now, rows)[i] == if Named(b, rows[i].key) && rows[i].present
                                              then rows[i].(present := false, removedAt := Some(now)) else rows[i]
  {
    MarkRemovedAt(b, now, rows);
    forall i | 0 <= i < |rows| ensures Named(b, rows[i].key) <==> Matches(b, rows[i].key) {
      NamedIsMatched(b, rows[i].key);
    }
  }

  /** The delete rows: one for each named row that carries the stamp, minus the size it keeps. */
  lemma {:induction false} RemovalReports(b: Batch, now: int, rows: seq<FsRow>, c: Change)
    ensures c in RemovalChurn(b, now, rows)
       <==> exists i :: 0 <= i < |rows| && Named(b, rows[i].key) && rows[i].removedAt == Some(now)
                        && c == Change(rows[i].key, rows[i].info.path, Delete, -rows[i].size)
  {
    if rows != [] {
      RemovalReports(b, now, rows[1..], c);
      NamedIsMatched(b, rows[0].key);
      assert forall i :: 0 < i < |rows| ==> rows[i] == rows[1..][i - 1];
      assert forall i :: 0 <= i < |rows[1..]| ==> rows[1..][i] == rows[i + 1];
    }
  }

  // ---------------------------------------------------------------- nothing dropped, nobody else touched

  /** `later` has every row of `rows` where it was, untouched if it belongs to another volume; what
      is added belongs to the batch's volume. */
  ghost predicate Extends(b: Batch, rows: seq<FsRow>, later: seq<FsRow>)
  {
    && |rows| <= |later|
    && (forall i :: 0 <= i < |rows| ==> later[i].key == rows[i].key)
    && (forall i :: 0 <= i < |rows| && (rows[i].key.host, rows[i].key.volume) != (b.host, b.volume) ==> later[i] == rows[i])
    && (forall i :: |rows| <= i < |later| ==> (later[i].key.host, later[i].key.volume) == (b.host, b.volume))
  }

  lemma {:induction false} UpsertOneExtends(b: Batch, rows: seq<FsRow>, e: Entry)
    ensures Extends(b, rows, UpsertOne(b, rows, e))
    ensures Unique(rows) ==> Unique(UpsertOne(b, rows, e))
    ensures forall i :: |rows| <= i < |UpsertOne(b, rows, e)| ==> UpsertOne(b, rows, e)[i].key == KeyOf(b, e)
  {
    if rows != [] && rows[0].key != KeyOf(b, e) {
      UpsertOneExtends(b, rows[1..], e);
      var later := UpsertOne(b, rows, e);
      assert forall i :: 0 < i < |later| ==> later[i] == UpsertOne(b, rows[1..], e)[i - 1];
      assert forall i :: 0 < i < |rows| ==> rows[i] == rows[1..][i - 1];
    }
  }

  lemma {:induction false} UpsertAllExtends(b: Batch, rows: seq<FsRow>, es: seq<Entry>)
    ensures Extends(b, rows, UpsertAll(b, rows, es))
    ensures Unique(rows) ==> Unique(UpsertAll(b, rows, es))
    decreases es
  {
    if es != [] {
      UpsertOneExtends(b, rows, es[0]);
      UpsertAllExtends(b, UpsertOne(b, rows, es[0]), es[1..]);
    }
  }

  lemma {:induction false} RemovalExtends(b: Batch, now: int, rows: seq<FsRow>, mid: seq<FsRow>)
    requires Extends(b, rows, mid)
    ensures Extends(b, rows, MarkRemoved(b, now, mid))
    ensures Unique(mid) ==> Unique(MarkRemoved(b, now, mid))
  {
    MarkRemovedAt(b, now, mid);
    assert forall i :: 0 <= i < |mid| ==> RemoveRow(b, now, mid[i]).key == mid[i].key;
  }

  /** A batch of either mode drops no row, moves none, keeps identities unique, and leaves every
      other host and volume exactly as it was. */
  lemma {:induction false} BatchTouchesOnlyItsVolume(b: Batch, now: int, rows: seq<FsRow>)
    ensures Extends(b, rows, RowsAfter(b, now, rows))
    ensures Unique(rows) ==> Unique(RowsAfter(b, now, rows))
  {
    UpsertAllExtends(b, rows, b.entries);
    RemovalExtends(b, now, rows, UpsertAll(b, rows, b.entries));
  }

  /** A full-content batch neither logs nor removes: the feed and every row's presence stay as they were. With the feed
      off a metadata batch logs nothing either. */
  lemma {:induction false} SilentBatch(b: Batch, now: int, s: State)
    requires b.mode.FullBit? || !b.logging
    ensures After(b, now, s).log == s.log
    ensures b.mode.FullBit? ==>
              Removed(b, s.rows) == 0 && forall i :: 0 <= i < |s.rows| ==>
                i < |After(b, now, s).rows| && After(b, now, s).rows[i].present == s.rows[i].present
                && After(b, now, s).rows[i].removedAt == s.rows[i].removedAt
  {
    if b.mode.FullBit? { PresenceKept(b, s.rows, b.entries); }
  }

  lemma {:induction false} PresenceKept(b: Batch, rows: seq<FsRow>, es: seq<Entry>)
    requires b.mode.FullBit?
    ensures |rows| <= |UpsertAll(b, rows, es)|
    ensures forall i :: 0 <= i < |rows| ==>
              UpsertAll(b, rows, es)[i].present == rows[i].present
              && UpsertAll(b, rows, es)[i].removedAt == rows[i].removedAt
    decreases es
  {
    if es != [] {
      PresenceKeptOne(b, rows, es[0]);
      PresenceKept(b, UpsertOne(b, rows, es[0]), es[1..]);
    }
  }

  lemma {:induction false} PresenceKeptOne(b: Batch, rows: seq<FsRow>, e: Entry)
    requires b.mode.FullBit?
    ensures |rows| <= |UpsertOne(b, rows, e)|
    ensures forall i :: 0 <= i < |rows| ==>
              UpsertOne(b, rows, e)[i].present == rows[i].present && UpsertOne(b, rows, e)[i].removedAt == rows[i].removedAt
  {
    if rows != [] && rows[0].key != KeyOf(b, e) {
      PresenceKeptOne(b, rows[1..], e);
      assert forall i :: 0 < i < |rows| ==> rows[i] == rows[1..][i - 1];
    }
  }

  // ---------------------------------------------------------------- the guard and the classifier agree

  lemma {:induction false} ChurnKeys(b: Batch, rows: seq<FsRow>, es: seq<Entry>, k: Key)
    ensures (exists c :: c in Churn(b, rows, es) && c.key == k) <==>
            (exists i :: 0 <= i < |es| && KeyOf(b, es[i]) == k
                         && Classify(PriorOf(Lookup(rows, k)), es[i].size, es[i].mtime).Some?)
  {
    if es != [] {
      ChurnKeys(b, rows, es[1..], k);
      var head := ChurnOne(b, PriorOf(Lookup(rows, KeyOf(b, es[0]))), es[0]);
      var tail := Churn(b, rows, es[1..]);
      assert forall c :: c in head + tail <==> c in head || c in tail;
      assert forall i :: 0 < i < |es| ==> es[i] == es[1..][i - 1];
      assert forall i :: 0 <= i < |es[1..]| ==> es[1..][i] == es[i + 1];
      if head != [] && KeyOf(b, es[0]) == k { assert head[0] in head && head[0].key == k; }
    }
  }

  /** The classifier emits a create or modify for `e`. */
  ghost predicate Classified(b: Batch, rows: seq<FsRow>, e: Entry)
  {
    Classify(PriorOf(Lookup(rows, KeyOf(b, e))), e.size, e.mtime).Some?
  }

  /** What the feed says about an entry: a file that has no row, or whose row is marked as removed, is created; one whose
      row is present and differs in size or time is modified; with the difference in size to the row. */
  ghost predicate Reports(b: Batch, rows: seq<FsRow>, e: Entry, c: Change)
  {
    && c.key == Key(b.host, b.volume, e.dev, e.inode) && c.path == e.info.path
    && match Lookup(rows, c.key)
       case None => c.kind == Create && c.delta == e.size
       case Some(row) =>
         && c.delta == e.size - row.size
         && (if row.present then c.kind == Modify && (e.size != row.size || e.mtime != row.mtime) else c.kind == Create)
  }

  /** The create and modify rows of any batch, one for every entry that has something to report. */
  lemma {:induction false} ChurnReports(b: Batch, rows: seq<FsRow>, es: seq<Entry>, c: Change)
    ensures c in Churn(b, rows, es) <==> exists i :: 0 <= i < |es| && Reports(b, rows, es[i], c)
  {
    if es != [] {
      ChurnReports(b, rows, es[1..], c);
      var head := ChurnOne(b, PriorOf(Lookup(rows, KeyOf(b, es[0]))), es[0]);
      assert c in head <==> Reports(b, rows, es[0], c);
      assert c in head + Churn(b, rows, es[1..]) <==> c in head || c in Churn(b, rows, es[1..]);
      assert forall i :: 0 < i < |es| ==> es[i] == es[1..][i - 1];
      assert forall i :: 0 <= i < |es[1..]| ==> es[1..][i] == es[i + 1];
    }
  }

  ghost predicate LogsKind(b: Batch, rows: seq<FsRow>, k: Key, kind: ChangeType)
  {
    exists c :: c in Churn(b, rows, b.entries) && c.key == k && c.kind == kind
  }

  /** A key is logged as created exactly when it is reported and has no present row, and as modified exactly when its
      row is present and some entry differs from it in size or time. */
  lemma {:induction false} ChurnKinds(b: Batch, rows: seq<FsRow>, k: Key)
    ensures LogsKind(b, rows, k, Create)
            <==> (exists i :: 0 <= i < |b.entries| && KeyOf(b, b.entries[i]) == k)
                 && (Lookup(rows, k).Some? ==> !Lookup(rows, k).value.present)
    ensures LogsKind(b, rows, k, Modify)
            <==> Lookup(rows, k).Some? && Lookup(rows, k).value.present
                 && exists i :: 0 <= i < |b.entries| && KeyOf(b, b.entries[i]) == k
                                && (b.entries[i].size != Lookup(rows, k).value.size
                                    || b.entries[i].mtime != Lookup(rows, k).value.mtime)
    ensures !LogsKind(b, rows, k, Delete)
  {
    forall c | c in Churn(b, rows, b.entries)
      ensures exists i :: 0 <= i < |b.entries| && Reports(b, rows, b.entries[i], c)
    {
      ChurnReports(b, rows, b.entries, c);
    }
    forall i | 0 <= i < |b.entries| && KeyOf(b, b.entries[i]) == k
      ensures Lookup(rows, k).None? || !Lookup(rows, k).value.present ==> LogsKind(b, rows, k, Create)
      ensures Lookup(rows, k).Some? && Lookup(rows, k).value.present
              && (b.entries[i].size != Lookup(rows, k).value.size || b.entries[i].mtime != Lookup(rows, k).value.mtime)
              ==> LogsKind(b, rows, k, Modify)
    {
      var e, row := b.entries[i], Lookup(rows, k);
      var c := Change(k, e.info.path, if row.Some? && row.value.present then Modify else Create,
                      e.size - if row.Some? then row.value.size else 0);
      ChurnReports(b, rows, b.entries, c);
      assert c in Churn(b, rows, b.entries) <==> exists j :: 0 <= j < |b.entries| && Reports(b, rows, b.entries[j], c);
    }
  }

  /** When the upsert comes to entry `i`, its key has no row or the guard fires. */
  ghost predicate Writes(b: Batch, rows: seq<FsRow>, es: seq<Entry>, i: nat)
    requires i < |es|
  {
    var r := Lookup(UpsertAll(b, rows, es[..i]), KeyOf(b, es[i]));
    r.None? || Guard(r.value, es[i])
  }

  ghost predicate SomeClassified(b: Batch, rows: seq<FsRow>, es: seq<Entry>, k: Key, n: nat)
    requires n <= |es|
  {
    exists i: nat :: i < n && KeyOf(b, es[i]) == k && Classified(b, rows, es[i])
  }

  ghost predicate SomeWritten(b: Batch, rows: seq<FsRow>, es: seq<Entry>, k: Key, n: nat)
    requires n <= |es|
  {
    exists i: nat :: i < n && KeyOf(b, es[i]) == k && Writes(b, rows, es, i)
  }

  /** Up to the first entry that either of them takes up, guard and classifier see the same row. */
  lemma {:induction false} WrittenIffClassified(b: Batch, rows: seq<FsRow>, es: seq<Entry>, k: Key, n: nat)
    requires b.mode.Metadata? && n <= |es|
    ensures SomeWritten(b, rows, es, k, n) <==> SomeClassified(b, rows, es, k, n)
    ensures !SomeClassified(b, rows, es, k, n) ==> Lookup(UpsertAll(b, rows, es[..n]), k) == Lookup(rows, k)
  {
    if n > 0 {
      var e, mid := es[n - 1], UpsertAll(b, rows, es[..n - 1]);
      WrittenIffClassified(b, rows, es, k, n - 1);
      assert es[..n] == es[..n - 1] + [e];
      UpsertSnoc(b, rows, es[..n - 1], e);
      LookupUpsertOne(b, mid, e, k);
      if SomeClassified(b, rows, es, k, n - 1) {
        var i: nat :| i < n - 1 && KeyOf(b, es[i]) == k && Classified(b, rows, es[i]);
        var j: nat :| j < n - 1 && KeyOf(b, es[j]) == k && Writes(b, rows, es, j);
      } else if KeyOf(b, e) == k {
        assert Writes(b, rows, es, n - 1) <==> Classified(b, rows, e);
      }
    } else {
      assert es[..n] == [];
    }
  }

  /** Any metadata batch, keys repeated or not: the classifier emits a create or modify for `k` exactly when the upsert
      writes its row, although the one compares with the row before the batch and the other with the row it finds. With
      keys that do not repeat, that is when the row changes. */
  lemma {:induction false} ChurnIffRowChanges(b: Batch, rows: seq<FsRow>, k: Key)
    requires b.mode.Metadata?
    ensures SomeWritten(b, rows, b.entries, k, |b.entries|)
            <==> exists c :: c in Churn(b, rows, b.entries) && c.key == k
    ensures Lookup(UpsertAll(b, rows, b.entries), k) != Lookup(rows, k)
            ==> exists c :: c in Churn(b, rows, b.entries) && c.key == k
    ensures DistinctKeys(b.entries) ==>
              (Lookup(UpsertAll(b, rows, b.entries), k) != Lookup(rows, k)
               <==> exists c :: c in Churn(b, rows, b.entries) && c.key == k)
  {
    var es := b.entries;
    ChurnKeys(b, rows, es, k);
    WrittenIffClassified(b, rows, es, k, |es|);
    assert es[..|es|] == es;
    if DistinctKeys(es) && SomeClassified(b, rows, es, k, |es|) {
      var i: nat :| i < |es| && KeyOf(b, es[i]) == k && Classified(b, rows, es[i]);
      LookupDistinct(b, rows, es, i);
    }
  }

  /** A rename that keeps size and modification time is invisible: after a metadata batch the stored path is the one
      that the key's last entry reports exactly when that entry created the row, the guard fired for it, or the path
      was that already. With keys that do not repeat, the row it meets is the one from before the batch. */
  lemma {:induction false} RenameSeenIffGuardFires(b: Batch, rows: seq<FsRow>, i: nat)
    requires b.mode.Metadata? && i < |b.entries|
    requires forall j :: i < j < |b.entries| ==> KeyOf(b, b.entries[j]) != KeyOf(b, b.entries[i])
    ensures var e := b.entries[i];
            var met := Lookup(UpsertAll(b, rows, b.entries[..i]), KeyOf(b, e));
            var row := Lookup(UpsertAll(b, rows, b.entries), KeyOf(b, e));
            && row.Some?
            && (row.value.info.path == e.info.path
                <==> met.None? || Guard(met.value, e) || met.value.info.path == e.info.path)
            && (DistinctKeys(b.entries) ==> met == Lookup(rows, KeyOf(b, e)))
  {
    var es, k := b.entries, KeyOf(b, b.entries[i]);
    LookupUpsertAll(b, rows, es, k);
    LookupUpsertAll(b, rows, es[..i], k);
    EvolvedOthers(b, Lookup(rows, k), es, i + 1, k);
    assert es[..i + 1][..i] == es[..i];
    if DistinctKeys(es) { LookupDistinct(b, rows, es, i); }
  }

  /** A rename that is missed: the file is reported under its new name, its row keeps the old one, and nothing is
      logged. */
  lemma {:induction false} RenameMissed(b: Batch, stored: FsRow, path: string)
      returns (e: Entry)
    requires b.mode.Metadata? && stored.present && (stored.key.host, stored.key.volume) == (b.host, b.volume)
    requires stored.info.path != path
    ensures KeyOf(b, e) == stored.key && e.info.path == path
    ensures UpsertAll(b, [stored], [e]) == [stored] && Churn(b, [stored], [e]) == []
  {
    e := Entry(stored.key.dev, stored.key.inode, stored.info.(path := path), stored.size, stored.mtime, None);
    assert [e][1..] == [] && [stored][1..] == [];
    assert UpsertOne(b, [stored], e) == [stored];
  }
}
