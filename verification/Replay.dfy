/** Replaying a batch, and what a legacy inode-only removal removes. */
module Replay {
  import opened Lists
  import opened Catalogue
  import Ledger

  // ---------------------------------------------------------------- a replayed upsert

  /** No row of the same key comes before. */
  ghost predicate First(rows: seq<FsRow>, i: nat)
    requires i < |rows|
  {
    forall j :: 0 <= j < i ==> rows[j].key != rows[i].key
  }

  /** The same rows under the same keys, except perhaps those that a lookup finds. */
  ghost predicate Aligned(rows: seq<FsRow>, later: seq<FsRow>)
  {
    && |rows| == |later|
    && (forall i :: 0 <= i < |rows| ==> later[i].key == rows[i].key)
    && (forall i :: 0 <= i < |rows| && later[i] != rows[i] ==> First(rows, i))
  }

  lemma {:induction false} LookupFirst(rows: seq<FsRow>, i: nat)
    requires i < |rows| && First(rows, i)
    ensures Lookup(rows, rows[i].key) == Some(rows[i])
  {
    if i > 0 {
      assert forall j :: 0 <= j < i - 1 ==> rows[1..][j] == rows[j + 1];
      LookupFirst(rows[1..], i - 1);
    }
  }

  lemma {:induction false} UpsertOneAligned(b: Batch, rows: seq<FsRow>, e: Entry)
    requires Lookup(rows, KeyOf(b, e)).Some?
    ensures Aligned(rows, UpsertOne(b, rows, e))
    ensures forall i :: 0 <= i < |rows| && UpsertOne(b, rows, e)[i] != rows[i] ==> rows[i].key == KeyOf(b, e)
  {
    if rows[0].key != KeyOf(b, e) {
      UpsertOneAligned(b, rows[1..], e);
      var later := UpsertOne(b, rows, e);
      forall i | 0 <= i < |rows| && later[i] != rows[i] ensures First(rows, i) && rows[i].key == KeyOf(b, e) {
        assert later[i] == UpsertOne(b, rows[1..], e)[i - 1] && rows[i] == rows[1..][i - 1];
        assert First(rows[1..], i - 1);
        forall j | 0 <= j < i ensures rows[j].key != rows[i].key { assert j > 0 ==> rows[j] == rows[1..][j - 1]; }
      }
    }
  }

  lemma {:induction false} AlignedTrans(a: seq<FsRow>, b: seq<FsRow>, c: seq<FsRow>)
    requires Aligned(a, b) && Aligned(b, c)
    ensures Aligned(a, c)
  {
    forall i | 0 <= i < |a| && c[i] != a[i] ensures First(a, i) {
      assert b[i] != c[i] ==> First(b, i);
    }
  }

  lemma {:induction false} UpsertAllAligned(b: Batch, rows: seq<FsRow>, es: seq<Entry>)
    requires forall i :: 0 <= i < |es| ==> Lookup(rows, KeyOf(b, es[i])).Some?
    ensures Aligned(rows, UpsertAll(b, rows, es))
    decreases es
  {
    if es != [] {
      var next := UpsertOne(b, rows, es[0]);
      UpsertOneAligned(b, rows, es[0]);
      forall i | 0 <= i < |es[1..]| ensures Lookup(next, KeyOf(b, es[1..][i])).Some? {
        assert es[1..][i] == es[i + 1];
        LookupUpsertOne(b, rows, es[0], KeyOf(b, es[i + 1]));
      }
      UpsertAllAligned(b, next, es[1..]);
      AlignedTrans(rows, next, UpsertAll(b, rows, es));
    }
  }

  lemma {:induction false} SameLookups(rows: seq<FsRow>, later: seq<FsRow>)
    requires Aligned(rows, later) && forall k :: Lookup(later, k) == Lookup(rows, k)
    ensures later == rows
  {
    forall i | 0 <= i < |rows| ensures later[i] == rows[i] {
      if later[i] != rows[i] {
        assert First(rows, i) && First(later, i);
        LookupFirst(rows, i);
        LookupFirst(later, i);
      }
    }
  }

  /** An entry says what the last entry of its key in `es` says. */
  ghost predicate AgreesWithLast(b: Batch, es: seq<Entry>, e: Entry)
  {
    match LastOf(b, es, KeyOf(b, e))
    case None => false
    case Some(last) => e.size == last.size && e.mtime == last.mtime
  }

  ghost predicate KeyAgrees(b: Batch, es: seq<Entry>, k: Key)
  {
    forall i :: 0 <= i < |es| && KeyOf(b, es[i]) == k ==> AgreesWithLast(b, es, es[i])
  }

  ghost predicate Holds(r: Option<FsRow>, k: Key, hash: Option<string>)
  {
    r.Some? && r.value.key == k && r.value.hash == hash
  }

  ghost predicate Says(r: Option<FsRow>, e: Entry)
  {
    r.Some? && r.value.size == e.size && r.value.mtime == e.mtime && r.value.present
  }

  lemma {:induction false} LastAmong(b: Batch, es: seq<Entry>, k: Key)
    ensures LastOf(b, es, k).None? <==> forall i :: 0 <= i < |es| ==> KeyOf(b, es[i]) != k
    ensures LastOf(b, es, k).Some? ==> KeyOf(b, LastOf(b, es, k).value) == k
  {
    if es != [] { LastAmong(b, es[..|es| - 1], k); }
  }

  /** Two rows of one key that go through the same entries end up equal, unless all the entries say the same. */
  lemma {:induction false} Converge(b: Batch, r: Option<FsRow>, s: Option<FsRow>, es: seq<Entry>, k: Key,
                                    hash: Option<string>)
    requires b.mode.Metadata? && Holds(s, k, hash) && (r.Some? ==> Holds(r, k, hash)) && (r.None? ==> hash == None)
    ensures var x, y := Evolved(b, r, es, k), Evolved(b, s, es, k);
            && Holds(y, k, hash) && (x.Some? ==> Holds(x, k, hash))
            && match LastOf(b, es, k)
               case None => x == r && y == s
               case Some(e) => Says(x, e) && Says(y, e) && (x == y || KeyAgrees(b, es, k))
    decreases |es|
  {
    if es != [] {
      var init, e := es[..|es| - 1], es[|es| - 1];
      Converge(b, r, s, init, k, hash);
      LastAmong(b, init, k);
      assert forall i :: 0 <= i < |init| ==> es[i] == init[i];
      if KeyOf(b, e) == k && LastOf(b, init, k).Some? {
        var d := LastOf(b, init, k).value;
        if e.size == d.size && e.mtime == d.mtime && KeyAgrees(b, init, k) {
          assert forall i :: 0 <= i < |init| && KeyOf(b, es[i]) == k ==> AgreesWithLast(b, init, init[i]);
        }
      } else if LastOf(b, init, k).Some? && KeyAgrees(b, init, k) {
        assert forall i :: 0 <= i < |init| && KeyOf(b, es[i]) == k ==> AgreesWithLast(b, init, init[i]);
      }
    }
  }

  /** Entries that say what the row says leave it. */
  lemma {:induction false} Unmoved(b: Batch, s: Option<FsRow>, es: seq<Entry>, k: Key)
    requires b.mode.Metadata? && s.Some?
    requires forall i :: 0 <= i < |es| && KeyOf(b, es[i]) == k ==> Says(s, es[i])
    ensures Evolved(b, s, es, k) == s
    decreases |es|
  {
    if es != [] {
      var init, e := es[..|es| - 1], es[|es| - 1];
      assert forall i :: 0 <= i < |init| ==> es[i] == init[i];
      Unmoved(b, s, init, k);
    }
  }

  /** A key that goes through its entries a second time ends where it was. */
  lemma {:induction false} EvolvedTwice(b: Batch, r: Option<FsRow>, es: seq<Entry>, k: Key)
    requires b.mode.Metadata? && (r.Some? ==> r.value.key == k) && LastOf(b, es, k).Some?
    ensures Evolved(b, Evolved(b, r, es, k), es, k) == Evolved(b, r, es, k)
  {
    var once := Evolved(b, r, es, k);
    var hash := if r.Some? then r.value.hash else None;
    HashKept(b, r, es, k, hash);
    Converge(b, r, once, es, k, hash);
    if KeyAgrees(b, es, k) {
      forall i | 0 <= i < |es| && KeyOf(b, es[i]) == k ensures Says(once, es[i]) {
        assert AgreesWithLast(b, es, es[i]);
      }
      Unmoved(b, once, es, k);
    }
  }

  /** A metadata batch never writes a hash. */
  lemma {:induction false} HashKept(b: Batch, r: Option<FsRow>, es: seq<Entry>, k: Key, hash: Option<string>)
    requires b.mode.Metadata? && (r.Some? ==> Holds(r, k, hash)) && (r.None? ==> hash == None)
    ensures Evolved(b, r, es, k).Some? ==> Holds(Evolved(b, r, es, k), k, hash)
    ensures Evolved(b, r, es, k).None? ==> hash == None && LastOf(b, es, k).None?
    decreases |es|
  {
    if es != [] { HashKept(b, r, es[..|es| - 1], k, hash); }
  }

  lemma {:induction false} LookupMarked(b: Batch, now: int, rows: seq<FsRow>, k: Key)
    ensures Lookup(MarkRemoved(b, now, rows), k) ==
            match Lookup(rows, k) case None => None case Some(r) => Some(RemoveRow(b, now, r))
  {
    if rows != [] {
      LookupMarked(b, now, rows[1..], k);
      assert MarkRemoved(b, now, rows)[1..] == MarkRemoved(b, now, rows[1..]);
    }
  }

  /** A removal is spent once applied. */
  lemma {:induction false} MarkedOnce(b: Batch, t1: int, t2: int, rows: seq<FsRow>)
    ensures var once := MarkRemoved(b, t1, rows);
            MarkRemoved(b, t2, once) == once && RemovedCount(b, once) == 0
  {
    if rows != [] {
      MarkedOnce(b, t1, t2, rows[1..]);
      assert MarkRemoved(b, t1, rows)[1..] == MarkRemoved(b, t1, rows[1..]);
    }
  }

  /** Some row that the removals match carries the time stamp `now`. */
  ghost predicate Stamped(b: Batch, now: int, rows: seq<FsRow>)
  {
    exists i :: 0 <= i < |rows| && Matches(b, rows[i].key) && rows[i].removedAt == Some(now)
  }

  lemma {:induction false} RemovalChurnEmptyIff(b: Batch, now: int, rows: seq<FsRow>)
    ensures RemovalChurn(b, now, rows) == [] <==> !Stamped(b, now, rows)
  {
    if rows != [] {
      RemovalChurnEmptyIff(b, now, rows[1..]);
      assert forall i :: 0 < i < |rows| ==> rows[i] == rows[1..][i - 1];
      assert forall i :: 0 <= i < |rows[1..]| ==> rows[1..][i] == rows[i + 1];
    }
  }

  lemma {:induction false} SomethingRemoved(b: Batch, rows: seq<FsRow>, i: nat)
    requires i < |rows| && Matches(b, rows[i].key) && rows[i].present
    ensures RemovedCount(b, rows) > 0
  {
    if i > 0 { SomethingRemoved(b, rows[1..], i - 1); }
  }

  // ---------------------------------------------------------------- a replayed batch

  /** Some removal of the batch names one of its own entries. */
  ghost predicate RemovesOwn(b: Batch)
  {
    exists i :: 0 <= i < |b.entries| && Matches(b, KeyOf(b, b.entries[i]))
  }

  /** What a key's row is after a batch that does not remove it. */
  lemma {:induction false} LookupAfter(b: Batch, now: int, rows: seq<FsRow>, k: Key)
    requires b.mode.Metadata? && !Matches(b, k)
    ensures Lookup(RowsAfter(b, now, rows), k) == Evolved(b, Lookup(rows, k), b.entries, k)
  {
    var mid := UpsertAll(b, rows, b.entries);
    LookupMarked(b, now, mid, k);
    LookupKey(mid, k);
    LookupUpsertAll(b, rows, b.entries, k);
  }

  /** A metadata batch that removes none of its own entries upserts nothing when it is replayed, even if it repeats
      keys. */
  lemma {:induction false} ReplayUpsertsNothing(b: Batch, now: int, rows: seq<FsRow>)
    requires b.mode.Metadata? && !RemovesOwn(b)
    ensures var once := RowsAfter(b, now, rows); UpsertAll(b, once, b.entries) == once
  {
    var once, es := RowsAfter(b, now, rows), b.entries;
    var again := UpsertAll(b, once, es);
    forall i | 0 <= i < |es| ensures Lookup(once, KeyOf(b, es[i])).Some? {
      LookupAfter(b, now, rows, KeyOf(b, es[i]));
      LastAmong(b, es, KeyOf(b, es[i]));
      LookupUpsertAll(b, rows, es, KeyOf(b, es[i]));
      RowAfterEntries(b, rows, es, KeyOf(b, es[i]));
    }
    UpsertAllAligned(b, once, es);
    forall k ensures Lookup(again, k) == Lookup(once, k) {
      LookupUpsertAll(b, once, es, k);
      LastAmong(b, es, k);
      if LastOf(b, es, k).Some? {
        LookupKey(rows, k);
        LookupAfter(b, now, rows, k);
        EvolvedTwice(b, Lookup(rows, k), es, k);
      } else {
        EvolvedOthers(b, Lookup(once, k), es, 0, k);
        assert es[..0] == [];
      }
    }
    SameLookups(once, again);
  }

  /** After a batch that removes none of its own entries, the classifier passes over exactly the entries that agree with
      the last one of their key. */
  lemma {:induction false} ReplayClassifies(b: Batch, now: int, rows: seq<FsRow>, i: nat)
    requires b.mode.Metadata? && !RemovesOwn(b) && i < |b.entries|
    ensures Classified(b, RowsAfter(b, now, rows), b.entries[i]) <==> !AgreesWithLast(b, b.entries, b.entries[i])
  {
    var k := KeyOf(b, b.entries[i]);
    LookupAfter(b, now, rows, k);
    LookupUpsertAll(b, rows, b.entries, k);
    RowAfterEntries(b, rows, b.entries, k);
    LastAmong(b, b.entries, k);
  }

  lemma {:induction false} ChurnEmptyIff(b: Batch, rows: seq<FsRow>, es: seq<Entry>)
    ensures Churn(b, rows, es) == [] <==> forall i :: 0 <= i < |es| ==> !Classified(b, rows, es[i])
  {
    if es != [] {
      ChurnEmptyIff(b, rows, es[1..]);
      assert forall i :: 0 < i < |es| ==> es[i] == es[1..][i - 1];
      assert forall i :: 0 <= i < |es[1..]| ==> es[1..][i] == es[i + 1];
    }
  }

  /** The replay changes no row, logs nothing and removes nothing. */
  ghost predicate ReplayIsNoop(b: Batch, t1: int, t2: int, rows: seq<FsRow>)
  {
    var once := RowsAfter(b, t1, rows);
    RowsAfter(b, t2, once) == once && Logged(b, t2, once) == [] && Removed(b, once) == 0
  }

  /** Replaying any metadata batch is a no-op exactly when no removal of the batch names one of its own entries and, if
      the feed is on, entries that repeat a key agree with its last one in size and time and no removed row carries the
      replay's time stamp already. With keys that do not repeat and a fresh stamp, the first condition is enough. */
  lemma {:induction false} ReplayIsNoopIff(b: Batch, t1: int, t2: int, rows: seq<FsRow>)
    requires b.mode.Metadata?
    ensures ReplayIsNoop(b, t1, t2, rows)
            <==> && !RemovesOwn(b)
                 && (b.logging ==>
                       && (forall i :: 0 <= i < |b.entries| ==> AgreesWithLast(b, b.entries, b.entries[i]))
                       && !Stamped(b, t2, RowsAfter(b, t1, rows)))
    ensures DistinctKeys(b.entries) && Ledger.Unstamped(RowsAfter(b, t1, rows), t2) ==>
              (ReplayIsNoop(b, t1, t2, rows) <==> !RemovesOwn(b))
  {
    if RemovesOwn(b) {
      ReplayRemovesAgain(b, t1, rows);
    } else {
      ReplayUnlessLogged(b, t1, t2, rows);
    }
    if DistinctKeys(b.entries) {
      forall i | 0 <= i < |b.entries| ensures AgreesWithLast(b, b.entries, b.entries[i]) { DistinctAgree(b, b.entries, i); }
    }
  }

  lemma {:induction false} ReplayRemovesAgain(b: Batch, now: int, rows: seq<FsRow>)
    requires b.mode.Metadata? && RemovesOwn(b)
    ensures Removed(b, RowsAfter(b, now, rows)) > 0
  {
    var once := RowsAfter(b, now, rows);
    var i :| 0 <= i < |b.entries| && Matches(b, KeyOf(b, b.entries[i]));
    var k := KeyOf(b, b.entries[i]);
    var again := UpsertAll(b, once, b.entries);
    RowAfterEntries(b, once, b.entries, k);
    LastAmong(b, b.entries, k);
    LookupKey(again, k);
    var j :| 0 <= j < |again| && again[j] == Lookup(again, k).value;
    SomethingRemoved(b, again, j);
  }

  lemma {:induction false} ReplayUnlessLogged(b: Batch, t1: int, t2: int, rows: seq<FsRow>)
    requires b.mode.Metadata? && !RemovesOwn(b)
    ensures ReplayIsNoop(b, t1, t2, rows)
            <==> (b.logging ==>
                    && (forall i :: 0 <= i < |b.entries| ==> AgreesWithLast(b, b.entries, b.entries[i]))
                    && !Stamped(b, t2, RowsAfter(b, t1, rows)))
  {
    var once := RowsAfter(b, t1, rows);
    ReplayUpsertsNothing(b, t1, rows);
    MarkedOnce(b, t1, t2, UpsertAll(b, rows, b.entries));
    RemovalChurnEmptyIff(b, t2, once);
    ChurnEmptyIff(b, once, b.entries);
    forall i | 0 <= i < |b.entries|
      ensures Classified(b, once, b.entries[i]) <==> !AgreesWithLast(b, b.entries, b.entries[i])
    {
      ReplayClassifies(b, t1, rows, i);
    }
  }

  lemma {:induction false} DistinctAgree(b: Batch, es: seq<Entry>, i: nat)
    requires DistinctKeys(es) && i < |es|
    ensures AgreesWithLast(b, es, es[i])
  {
    if i < |es| - 1 {
      assert (es[i].dev, es[i].inode) != (es[|es| - 1].dev, es[|es| - 1].inode);
      DistinctAgree(b, es[..|es| - 1], i);
    }
  }

  /** A batch whose replay is logged: two entries of one key that differ in size. */
  lemma {:induction false} ReplayLogsAgain(b: Batch, e: Entry, f: Entry, t1: int, t2: int, rows: seq<FsRow>)
    requires b.mode.Metadata? && b.logging && b.entries == [e, f] && b.removed == []
    requires KeyOf(b, e) == KeyOf(b, f) && e.size != f.size
    ensures var once := RowsAfter(b, t1, rows); RowsAfter(b, t2, once) == once && Logged(b, t2, once) != []
  {
    var once := RowsAfter(b, t1, rows);
    assert !RemovesOwn(b);
    ReplayUpsertsNothing(b, t1, rows);
    MarkedOnce(b, t1, t2, UpsertAll(b, rows, b.entries));
    ReplayClassifies(b, t1, rows, 0);
    assert !AgreesWithLast(b, b.entries, b.entries[0]);
    ChurnEmptyIff(b, once, b.entries);
  }

  // ---------------------------------------------------------------- precise and legacy removals

  /** `removed` wins over the legacy list when both are sent. */
  function RemovalKeys(precise: seq<(int, int)>, inodes: seq<int>): seq<Removal>
  {
    if precise != [] then seq(|precise|, i requires 0 <= i < |precise| => Precise(precise[i].0, precise[i].1))
    else seq(|inodes|, i requires 0 <= i < |inodes| => Legacy(inodes[i]))
  }

  predicate Affected(b: Batch, inode: int, r: FsRow)
  {
    r.present && r.key.host == b.host && r.key.volume == b.volume && r.key.inode == inode
  }

  /** A legacy removal of an inode does what the precise one would, exactly when no other device of
      the volume has a present row with that inode. */
  lemma {:induction false} LegacyEqualsPreciseIff(b: Batch, dev: int, inode: int, now: int, rows: seq<FsRow>)
    ensures MarkRemoved(b.(removed := [Legacy(inode)]), now, rows)
            == MarkRemoved(b.(removed := [Precise(dev, inode)]), now, rows)
            <==> forall i :: 0 <= i < |rows| && Affected(b, inode, rows[i]) ==> rows[i].key.dev == dev
  {
    var legacy, precise := b.(removed := [Legacy(inode)]), b.(removed := [Precise(dev, inode)]);
    MarkRemovedAt(legacy, now, rows);
    MarkRemovedAt(precise, now, rows);
    forall i | 0 <= i < |rows|
      ensures RemoveRow(legacy, now, rows[i]) == RemoveRow(precise, now, rows[i]) <==>
              (Affected(b, inode, rows[i]) ==> rows[i].key.dev == dev)
    {
      assert Legacy(rows[i].key.inode) in legacy.removed <==> rows[i].key.inode == inode;
      assert Precise(rows[i].key.dev, rows[i].key.inode) in precise.removed
             <==> rows[i].key.dev == dev && rows[i].key.inode == inode;
    }
    if MarkRemoved(legacy, now, rows) == MarkRemoved(precise, now, rows) {
      forall i | 0 <= i < |rows| ensures RemoveRow(legacy, now, rows[i]) == RemoveRow(precise, now, rows[i]) {
        assert MarkRemoved(legacy, now, rows)[i] == MarkRemoved(precise, now, rows)[i];
      }
    }
  }
}
