/** What the churn feed adds up to over whole runs. */
module Ledger {
  import opened Lists
  import opened Catalogue

  /** What a sum ranges over: the rows of one key, or all rows. */
  datatype Scope = Everything | Only(key: Key)

  predicate In(sc: Scope, k: Key)
  {
    sc.Only? ==> sc.key == k
  }

  /** Logical bytes stored in the table, and those of present rows alone. */
  function Stored(rows: seq<FsRow>, sc: Scope): int
  {
    if rows == [] then 0 else (if In(sc, rows[0].key) then rows[0].size else 0) + Stored(rows[1..], sc)
  }

  function Present(rows: seq<FsRow>, sc: Scope): int
  {
    if rows == [] then 0
    else (if In(sc, rows[0].key) && rows[0].present then rows[0].size else 0) + Present(rows[1..], sc)
  }

  /** The deltas of the create and modify rows, and of the delete rows. */
  function Grown(log: seq<Change>, sc: Scope): int
  {
    if log == [] then 0
    else (if In(sc, log[0].key) && !log[0].kind.Delete? then log[0].delta else 0) + Grown(log[1..], sc)
  }

  function Freed(log: seq<Change>, sc: Scope): int
  {
    if log == [] then 0
    else (if In(sc, log[0].key) && log[0].kind.Delete? then log[0].delta else 0) + Freed(log[1..], sc)
  }

  function Deletes(log: seq<Change>): nat
  {
    if log == [] then 0 else (if log[0].kind.Delete? then 1 else 0) + Deletes(log[1..])
  }

  function SizeIn(r: Option<FsRow>): int
  {
    match r case None => 0 case Some(row) => row.size
  }

  /** The first correction term: the size a removed row still carried when the first entry of its key resurrected it.
      The create row records only the difference to that size. */
  function Resurrected(b: Batch, rows: seq<FsRow>, es: seq<Entry>, sc: Scope): int
  {
    if es == [] then 0
    else
      var init, k := es[..|es| - 1], KeyOf(b, es[|es| - 1]);
      var prior := Lookup(rows, k);
      Resurrected(b, rows, init, sc)
      + if In(sc, k) && LastOf(b, init, k).None? && prior.Some? && !prior.value.present then prior.value.size else 0
  }

  /** The second: entries that a later entry of the same key supersedes. Each is classified against the same prior row,
      so each adds its size less the prior size although its row is overwritten. */
  function Superseded(b: Batch, rows: seq<FsRow>, es: seq<Entry>, sc: Scope): int
  {
    if es == [] then 0
    else
      var init, k := es[..|es| - 1], KeyOf(b, es[|es| - 1]);
      Superseded(b, rows, init, sc)
      + match LastOf(b, init, k)
        case None => 0
        case Some(e) => if In(sc, k) then e.size - SizeIn(Lookup(rows, k)) else 0
  }

  // ---------------------------------------------------------------- sums and single steps

  lemma {:induction false} LogAppend(a: seq<Change>, c: seq<Change>, sc: Scope)
    ensures Grown(a + c, sc) == Grown(a, sc) + Grown(c, sc)
    ensures Freed(a + c, sc) == Freed(a, sc) + Freed(c, sc)
    ensures Deletes(a + c) == Deletes(a) + Deletes(c)
  {
    if a == [] {
      assert a + c == c;
    } else {
      assert (a + c)[1..] == a[1..] + c;
      LogAppend(a[1..], c, sc);
    }
  }

  function Weight(r: Option<FsRow>, sc: Scope): int
  {
    match r case None => 0 case Some(row) => if In(sc, row.key) then row.size else 0
  }

  function LiveWeight(r: Option<FsRow>, sc: Scope): int
  {
    match r case None => 0 case Some(row) => if In(sc, row.key) && row.present then row.size else 0
  }

  /** Upserting one entry changes the sums by its own row. */
  lemma {:induction false} UpsertOneSums(b: Batch, rows: seq<FsRow>, e: Entry, sc: Scope)
    ensures var k := KeyOf(b, e); var later := UpsertOne(b, rows, e);
            && Stored(later, sc) == Stored(rows, sc) - Weight(Lookup(rows, k), sc) + Weight(Lookup(later, k), sc)
            && Present(later, sc) == Present(rows, sc) - LiveWeight(Lookup(rows, k), sc) + LiveWeight(Lookup(later, k), sc)
  {
    if rows == [] {
      assert UpsertOne(b, rows, e)[1..] == [];
    } else if rows[0].key != KeyOf(b, e) {
      UpsertOneSums(b, rows[1..], e, sc);
      assert UpsertOne(b, rows, e)[1..] == UpsertOne(b, rows[1..], e);
    } else {
      assert UpsertOne(b, rows, e)[1..] == rows[1..];
    }
  }

  lemma {:induction false} ChurnSnoc(b: Batch, rows: seq<FsRow>, es: seq<Entry>, e: Entry)
    ensures Churn(b, rows, es + [e]) == Churn(b, rows, es) + ChurnOne(b, PriorOf(Lookup(rows, KeyOf(b, e))), e)
  {
    if es == [] {
      assert es + [e] == [e] && [e][1..] == [];
    } else {
      assert (es + [e])[0] == es[0] && (es + [e])[1..] == es[1..] + [e];
      ChurnSnoc(b, rows, es[1..], e);
    }
  }

  /** The delta of one entry is its size less the prior size, logged or not. */
  lemma {:induction false} DeltaOfEntry(b: Batch, prior: Option<FsRow>, e: Entry, sc: Scope)
    ensures Grown(ChurnOne(b, PriorOf(prior), e), sc) == if In(sc, KeyOf(b, e)) then e.size - SizeIn(prior) else 0
  {
    var churn := ChurnOne(b, PriorOf(prior), e);
    if churn != [] { assert churn[1..] == []; }
  }

  /** The entries of any metadata batch, keys repeated or not: the create and modify deltas are the growth of the stored
      size plus what superseded entries add; the growth of the present size is the growth of the stored size plus what
      resurrections add. */
  lemma {:induction false} EntriesBalance(b: Batch, rows: seq<FsRow>, es: seq<Entry>, sc: Scope)
    requires b.mode.Metadata?
    ensures var later := UpsertAll(b, rows, es);
            && Grown(Churn(b, rows, es), sc) == Stored(later, sc) - Stored(rows, sc) + Superseded(b, rows, es, sc)
            && Present(later, sc) - Present(rows, sc) == Stored(later, sc) - Stored(rows, sc) + Resurrected(b, rows, es, sc)
    decreases |es|
  {
    if es != [] {
      var init, e := es[..|es| - 1], es[|es| - 1];
      assert es == init + [e];
      EntriesBalance(b, rows, init, sc);
      ChurnSnoc(b, rows, init, e);
      UpsertSnoc(b, rows, init, e);
      LogAppend(Churn(b, rows, init), ChurnOne(b, PriorOf(Lookup(rows, KeyOf(b, e))), e), sc);
      DeltaOfEntry(b, Lookup(rows, KeyOf(b, e)), e, sc);
      LastEntryMoves(b, rows, init, e, sc);
    }
  }

  /** What the last entry changes in the two sums. */
  lemma {:induction false} LastEntryMoves(b: Batch, rows: seq<FsRow>, init: seq<Entry>, e: Entry, sc: Scope)
    requires b.mode.Metadata?
    ensures var mid := UpsertAll(b, rows, init);
            var later := UpsertOne(b, mid, e);
            var k := KeyOf(b, e);
            var before := match LastOf(b, init, k) case None => SizeIn(Lookup(rows, k)) case Some(d) => d.size;
            var hidden := LastOf(b, init, k).None? && Lookup(rows, k).Some? && !Lookup(rows, k).value.present;
            && Stored(later, sc) - Stored(mid, sc) == (if In(sc, k) then e.size - before else 0)
            && Present(later, sc) - Present(mid, sc)
               == Stored(later, sc) - Stored(mid, sc) + if In(sc, k) && hidden then before else 0
  {
    var mid, k := UpsertAll(b, rows, init), KeyOf(b, e);
    RowAfterEntries(b, rows, init, k);
    UpsertOneSums(b, mid, e, sc);
    LookupUpsertOne(b, mid, e, k);
    LookupKey(mid, k);
  }

  lemma {:induction false} ChurnHasNoDeletes(b: Batch, rows: seq<FsRow>, es: seq<Entry>)
    ensures Deletes(Churn(b, rows, es)) == 0 && forall sc :: Freed(Churn(b, rows, es), sc) == 0
  {
    if es != [] {
      ChurnHasNoDeletes(b, rows, es[1..]);
      var head := ChurnOne(b, PriorOf(Lookup(rows, KeyOf(b, es[0]))), es[0]);
      if head != [] { assert head[1..] == []; }
      forall sc ensures Freed(head + Churn(b, rows, es[1..]), sc) == 0 && Deletes(head + Churn(b, rows, es[1..])) == 0 {
        LogAppend(head, Churn(b, rows, es[1..]), sc);
      }
      assert Freed(head + Churn(b, rows, es[1..]), Everything) == 0;
    }
  }

  /** No row of the table carries the stamp `now` yet. */
  ghost predicate Unstamped(rows: seq<FsRow>, now: int)
  {
    forall i :: 0 <= i < |rows| ==> rows[i].removedAt != Some(now)
  }

  /** Removal: exactly the flipped rows are logged, each minus the size it keeps. */
  lemma {:induction false} RemovalBalances(b: Batch, now: int, rows: seq<FsRow>, sc: Scope)
    requires Unstamped(rows, now)
    ensures var later := MarkRemoved(b, now, rows); var churn := RemovalChurn(b, now, later);
            && Present(later, sc) == Present(rows, sc) + Freed(churn, sc)
            && Stored(later, sc) == Stored(rows, sc)
            && Grown(churn, sc) == 0 && |churn| == Deletes(churn) == RemovedCount(b, rows)
  {
    if rows != [] {
      RemovalBalances(b, now, rows[1..], sc);
      var later := MarkRemoved(b, now, rows);
      assert later[1..] == MarkRemoved(b, now, rows[1..]);
      var head := if Matches(b, later[0].key) && later[0].removedAt == Some(now)
                  then [Change(later[0].key, later[0].info.path, Delete, -later[0].size)] else [];
      if head != [] { assert head[1..] == []; }
      LogAppend(head, RemovalChurn(b, now, later[1..]), sc);
    }
  }

  lemma {:induction false} UpsertUnstamped(b: Batch, now: int, rows: seq<FsRow>, es: seq<Entry>)
    requires Unstamped(rows, now)
    ensures Unstamped(UpsertAll(b, rows, es), now)
    decreases es
  {
    if es != [] {
      UpsertOneUnstamped(b, now, rows, es[0]);
      UpsertUnstamped(b, now, UpsertOne(b, rows, es[0]), es[1..]);
    }
  }

  lemma {:induction false} UpsertOneUnstamped(b: Batch, now: int, rows: seq<FsRow>, e: Entry)
    requires Unstamped(rows, now)
    ensures Unstamped(UpsertOne(b, rows, e), now)
  {
    if rows != [] && rows[0].key != KeyOf(b, e) {
      UpsertOneUnstamped(b, now, rows[1..], e);
    }
  }

  /** Any metadata batch with the feed on: for one key or for all, the create and modify deltas exceed the growth of the
      stored size by exactly what superseded entries add. */
  lemma {:induction false} BatchLaw(b: Batch, now: int, rows: seq<FsRow>, sc: Scope)
    requires b.mode.Metadata? && b.logging
    ensures Grown(Logged(b, now, rows), sc)
         == Stored(RowsAfter(b, now, rows), sc) - Stored(rows, sc) + Superseded(b, rows, b.entries, sc)
    ensures Grown(Logged(b, now, rows), sc) == Stored(RowsAfter(b, now, rows), sc) - Stored(rows, sc)
       <==> Superseded(b, rows, b.entries, sc) == 0
  {
    var mid := UpsertAll(b, rows, b.entries);
    EntriesBalance(b, rows, b.entries, sc);
    RemovalGrowsNothing(b, now, mid, sc);
    LogAppend(Churn(b, rows, b.entries), RemovalChurn(b, now, MarkRemoved(b, now, mid)), sc);
  }

  lemma {:induction false} RemovalGrowsNothing(b: Batch, now: int, rows: seq<FsRow>, sc: Scope)
    ensures Stored(MarkRemoved(b, now, rows), sc) == Stored(rows, sc)
    ensures Grown(RemovalChurn(b, now, MarkRemoved(b, now, rows)), sc) == 0
  {
    if rows != [] {
      RemovalGrowsNothing(b, now, rows[1..], sc);
      var later := MarkRemoved(b, now, rows);
      assert later[1..] == MarkRemoved(b, now, rows[1..]);
      var head := if Matches(b, later[0].key) && later[0].removedAt == Some(now)
                  then [Change(later[0].key, later[0].info.path, Delete, -later[0].size)] else [];
      if head != [] { assert head[1..] == []; }
      LogAppend(head, RemovalChurn(b, now, later[1..]), sc);
    }
  }

  /** One metadata batch with the feed on and a fresh clock reading, keys repeated or not. */
  lemma {:induction false} BatchBalances(b: Batch, now: int, rows: seq<FsRow>, sc: Scope)
    requires b.mode.Metadata? && b.logging && Unstamped(rows, now)
    ensures var later := RowsAfter(b, now, rows); var churn := Logged(b, now, rows);
            var extra := Superseded(b, rows, b.entries, sc);
            && Grown(churn, sc) == Stored(later, sc) - Stored(rows, sc) + extra
            && Grown(churn, sc) + Freed(churn, sc) + Resurrected(b, rows, b.entries, sc)
               == Present(later, sc) - Present(rows, sc) + extra
            && Deletes(churn) == Removed(b, rows)
  {
    var mid := UpsertAll(b, rows, b.entries);
    EntriesBalance(b, rows, b.entries, sc);
    ChurnHasNoDeletes(b, rows, b.entries);
    UpsertUnstamped(b, now, rows, b.entries);
    RemovalBalances(b, now, mid, sc);
    LogAppend(Churn(b, rows, b.entries), RemovalChurn(b, now, MarkRemoved(b, now, mid)), sc);
  }

  // ---------------------------------------------------------------- the law for one key

  /** The sizes that the entries of key `k` report, in order. */
  function SizesOf(b: Batch, es: seq<Entry>, k: Key): seq<int>
  {
    if es == [] then []
    else SizesOf(b, es[..|es| - 1], k) + if KeyOf(b, es[|es| - 1]) == k then [es[|es| - 1].size] else []
  }

  /** Each size less `p`, added up. */
  function Excess(sizes: seq<int>, p: int): int
  {
    if sizes == [] then 0 else Excess(sizes[..|sizes| - 1], p) + sizes[|sizes| - 1] - p
  }

  lemma {:induction false} LastIsLastSize(b: Batch, es: seq<Entry>, k: Key)
    ensures LastOf(b, es, k).None? <==> SizesOf(b, es, k) == []
    ensures LastOf(b, es, k).Some? ==> LastOf(b, es, k).value.size == SizesOf(b, es, k)[|SizesOf(b, es, k)| - 1]
  {
    if es != [] { LastIsLastSize(b, es[..|es| - 1], k); }
  }

  /** With entries of sizes e1 to en and a prior row of size p (0 without one), a key's superseded entries add e1 - p to
      e(n-1) - p. */
  lemma {:induction false} SupersededOfKey(b: Batch, rows: seq<FsRow>, es: seq<Entry>, k: Key)
    ensures var sizes := SizesOf(b, es, k);
            Superseded(b, rows, es, Only(k))
            == if sizes == [] then 0 else Excess(sizes[..|sizes| - 1], SizeIn(Lookup(rows, k)))
    decreases |es|
  {
    if es != [] {
      var init, e := es[..|es| - 1], es[|es| - 1];
      var sizes := SizesOf(b, init, k);
      SupersededOfKey(b, rows, init, k);
      LastIsLastSize(b, init, k);
      if KeyOf(b, e) == k {
        assert (sizes + [e.size])[..|sizes|] == sizes;
      } else {
        assert sizes + [] == sizes;
      }
    }
  }

  /** A key's books balance over a batch exactly when its superseded sizes average out at the prior size. */
  lemma {:induction false} KeyBalancesIff(b: Batch, now: int, rows: seq<FsRow>, k: Key)
    requires b.mode.Metadata? && b.logging
    ensures var sizes := SizesOf(b, b.entries, k);
            Grown(Logged(b, now, rows), Only(k)) == Stored(RowsAfter(b, now, rows), Only(k)) - Stored(rows, Only(k))
            <==> sizes == [] || Excess(sizes[..|sizes| - 1], SizeIn(Lookup(rows, k))) == 0
  {
    BatchLaw(b, now, rows, Only(k));
    SupersededOfKey(b, rows, b.entries, k);
  }

  lemma {:induction false} DistinctSupersedeNothing(b: Batch, rows: seq<FsRow>, es: seq<Entry>, sc: Scope)
    requires DistinctKeys(es)
    ensures Superseded(b, rows, es, sc) == 0
    decreases |es|
  {
    if es != [] {
      var init, e := es[..|es| - 1], es[|es| - 1];
      DistinctSupersedeNothing(b, rows, init, sc);
      assert forall i :: 0 <= i < |init| ==> (init[i].dev, init[i].inode) != (e.dev, e.inode);
      NotAmong(b, init, KeyOf(b, e));
    }
  }

  lemma {:induction false} NotAmong(b: Batch, es: seq<Entry>, k: Key)
    requires forall i :: 0 <= i < |es| ==> KeyOf(b, es[i]) != k
    ensures LastOf(b, es, k).None?
  {
    if es != [] { NotAmong(b, es[..|es| - 1], k); }
  }

  // ---------------------------------------------------------------- whole runs

  /** A run: batches with the clock reading each was applied at. */
  type History = seq<(Batch, int)>

  function Play(h: History, s: State): State
    decreases h
  {
    if h == [] then s else Play(h[1..], After(h[0].0, h[0].1, s))
  }

  /** Metadata batches with the feed on, under a strictly rising clock that starts after `t`. */
  ghost predicate Orderly(h: History, t: int)
    decreases h
  {
    h != [] ==>
      && h[0].0.mode.Metadata? && h[0].0.logging && t < h[0].1 && Orderly(h[1..], h[0].1)
  }

  /** What resurrections over the run hide from the feed. */
  function Hidden(h: History, s: State, sc: Scope): int
    decreases h
  {
    if h == [] then 0
    else Resurrected(h[0].0, s.rows, h[0].0.entries, sc) + Hidden(h[1..], After(h[0].0, h[0].1, s), sc)
  }

  /** What superseded entries over the run add to the feed. */
  function Repeated(h: History, s: State, sc: Scope): int
    decreases h
  {
    if h == [] then 0
    else Superseded(h[0].0, s.rows, h[0].0.entries, sc) + Repeated(h[1..], After(h[0].0, h[0].1, s), sc)
  }

  ghost predicate StampsBy(rows: seq<FsRow>, t: int)
  {
    forall i :: 0 <= i < |rows| && rows[i].removedAt.Some? ==> rows[i].removedAt.value <= t
  }

  lemma {:induction false} StampsStep(b: Batch, now: int, rows: seq<FsRow>, t: int)
    requires StampsBy(rows, t) && t < now
    ensures Unstamped(rows, now) && StampsBy(RowsAfter(b, now, rows), now)
  {
    var mid := UpsertAll(b, rows, b.entries);
    forall x: int | x > t ensures Unstamped(mid, x) {
      UpsertUnstamped(b, x, rows, b.entries);
    }
    assert StampsBy(mid, t) by {
      forall i | 0 <= i < |mid| && mid[i].removedAt.Some? ensures mid[i].removedAt.value <= t {
        var x := mid[i].removedAt.value;
        assert x > t ==> Unstamped(mid, x);
      }
    }
    MarkRemovedAt(b, now, mid);
  }

  /** Over any orderly run, for one key or for the whole table: the create and modify deltas add up
      to the growth of the stored size plus what repeated keys add; all deltas, plus what resurrections
      hide, add up to the growth of the present size plus the same. */
  lemma {:induction false} RunBalances(h: History, s: State, t: int, sc: Scope)
    requires Orderly(h, t) && StampsBy(s.rows, t)
    ensures var u := Play(h, s); var extra := Repeated(h, s, sc);
            && Grown(u.log, sc) - Grown(s.log, sc) == Stored(u.rows, sc) - Stored(s.rows, sc) + extra
            && Grown(u.log, sc) + Freed(u.log, sc) - Grown(s.log, sc) - Freed(s.log, sc) + Hidden(h, s, sc)
               == Present(u.rows, sc) - Present(s.rows, sc) + extra
    decreases h
  {
    if h != [] {
      var (b, now) := h[0];
      var next := After(b, now, s);
      StampsStep(b, now, s.rows, t);
      BatchBalances(b, now, s.rows, sc);
      LogAppend(s.log, Logged(b, now, s.rows), sc);
      RunBalances(h[1..], next, now, sc);
    }
  }

  /** The ledger of a catalogue from its birth. A key's create and modify deltas sum to its stored size if and only if
      its repeated entries add nothing; all deltas sum to the logical bytes of the present rows, less what
      resurrections hide, plus what repeated entries add, and so to exactly those bytes if and only if the two
      corrections cancel. */
  lemma {:induction false} LedgerFromBirth(h: History, t: int)
    requires Orderly(h, t)
    ensures var s := State([], []); var u := Play(h, s);
            && (forall k :: Grown(u.log, Only(k)) == Stored(u.rows, Only(k)) <==> Repeated(h, s, Only(k)) == 0)
            && Grown(u.log, Everything) + Freed(u.log, Everything)
               == Present(u.rows, Everything) - Hidden(h, s, Everything) + Repeated(h, s, Everything)
  {
    var s := State([], []);
    forall k
      ensures Grown(Play(h, s).log, Only(k)) == Stored(Play(h, s).rows, Only(k)) <==> Repeated(h, s, Only(k)) == 0
    {
      RunBalances(h, s, t, Only(k));
    }
    RunBalances(h, s, t, Everything);
  }

  /** With unique identities the stored size of a key is the size of its row. */
  lemma {:induction false} StoredIsRowSize(rows: seq<FsRow>, k: Key)
    requires Unique(rows)
    ensures Stored(rows, Only(k)) == match Lookup(rows, k) case None => 0 case Some(row) => row.size
  {
    if rows != [] {
      StoredIsRowSize(rows[1..], k);
      if rows[0].key == k {
        LookupKey(rows[1..], k);
        assert forall i :: 0 <= i < |rows[1..]| ==> rows[1..][i] == rows[i + 1] && rows[0].key != rows[i + 1].key;
      }
    }
  }

  // ---------------------------------------------------------------- when the corrections vanish

  /** No entry of the run finds a removed row, and no batch repeats a key. */
  ghost predicate Plain(h: History, s: State)
    decreases h
  {
    h != [] ==>
      && DistinctKeys(h[0].0.entries)
      && (forall i :: 0 <= i < |h[0].0.entries| ==>
            var prior := Lookup(s.rows, KeyOf(h[0].0, h[0].0.entries[i]));
            prior.Some? ==> prior.value.present)
      && Plain(h[1..], After(h[0].0, h[0].1, s))
  }

  lemma {:induction false} NothingHiddenByEntries(b: Batch, rows: seq<FsRow>, es: seq<Entry>, sc: Scope)
    requires forall i :: 0 <= i < |es| ==>
               var prior := Lookup(rows, KeyOf(b, es[i])); prior.Some? ==> prior.value.present
    ensures Resurrected(b, rows, es, sc) == 0
    decreases |es|
  {
    if es != [] {
      var prior := Lookup(rows, KeyOf(b, es[|es| - 1]));
      assert prior.Some? ==> prior.value.present;
      NothingHiddenByEntries(b, rows, es[..|es| - 1], sc);
    }
  }

  /** A run that never resurrects a key and never repeats one in a batch keeps the books exactly: every key's create and
      modify deltas sum to its stored size, and all deltas to the present bytes. */
  lemma {:induction false} LedgerWithoutResurrection(h: History, t: int)
    requires Orderly(h, t) && Plain(h, State([], []))
    ensures var u := Play(h, State([], []));
            && (forall k :: Grown(u.log, Only(k)) == Stored(u.rows, Only(k)))
            && Grown(u.log, Everything) + Freed(u.log, Everything) == Present(u.rows, Everything)
  {
    var s := State([], []);
    NothingHidden(h, s, Everything);
    LedgerFromBirth(h, t);
    forall k ensures Grown(Play(h, s).log, Only(k)) == Stored(Play(h, s).rows, Only(k)) { NothingHidden(h, s, Only(k)); }
  }

  lemma {:induction false} NothingHidden(h: History, s: State, sc: Scope)
    requires Plain(h, s)
    ensures Hidden(h, s, sc) == 0 && Repeated(h, s, sc) == 0
    decreases h
  {
    if h != [] {
      NothingHiddenByEntries(h[0].0, s.rows, h[0].0.entries, sc);
      DistinctSupersedeNothing(h[0].0, s.rows, h[0].0.entries, sc);
      NothingHidden(h[1..], After(h[0].0, h[0].1, s), sc);
    }
  }

  /** The delete rows number exactly the removals if and only if no matching row already carried
      this very time stamp from an earlier removal: the read-back by stamp cannot tell them apart. */
  lemma {:induction false} DeletesExactIffStampFresh(b: Batch, now: int, rows: seq<FsRow>)
    ensures var churn := RemovalChurn(b, now, MarkRemoved(b, now, rows));
            && |churn| >= RemovedCount(b, rows)
            && (|churn| == RemovedCount(b, rows) <==>
                forall i :: 0 <= i < |rows| ==>
                  !(Matches(b, rows[i].key) && !rows[i].present && rows[i].removedAt == Some(now)))
  {
    if rows != [] {
      DeletesExactIffStampFresh(b, now, rows[1..]);
      var later := MarkRemoved(b, now, rows);
      assert later[1..] == MarkRemoved(b, now, rows[1..]);
      assert forall i :: 0 < i < |rows| ==> rows[i] == rows[1..][i - 1];
      assert forall i :: 0 <= i < |rows[1..]| ==> rows[1..][i] == rows[i + 1];
    }
  }

  /** A removal that is applied twice under one clock reading: the second removes nothing and logs a delete row again. */
  lemma {:induction false} SameStampLogsTwice(b: Batch, now: int, row: FsRow)
    requires Matches(b, row.key) && row.present
    ensures var once := MarkRemoved(b, now, [row]);
            RemovedCount(b, once) == 0 && |RemovalChurn(b, now, MarkRemoved(b, now, once))| == 1
  {
    var gone := RemoveRow(b, now, row);
    assert MarkRemoved(b, now, [row]) == [gone] && MarkRemoved(b, now, [gone]) == [gone];
    assert [gone][1..] == [] && RemovalChurn(b, now, []) == [];
  }

  /** The smallest case: two entries of one new key log its first size too many, whether or not the sizes are equal.
      (PostgreSQL refuses such a statement; SQLite applies the rows in turn.) */
  lemma {:induction false} DuplicateKeysMisstate(b: Batch, e: Entry, f: Entry, now: int, rows: seq<FsRow>)
    requires b.mode.Metadata? && b.logging && b.entries == [e, f]
    requires KeyOf(b, e) == KeyOf(b, f) && Lookup(rows, KeyOf(b, e)).None?
    ensures Grown(Logged(b, now, rows), Everything)
         == Stored(RowsAfter(b, now, rows), Everything) - Stored(rows, Everything) + e.size
  {
    BatchLaw(b, now, rows, Everything);
    assert [e, f][..1] == [e] && [e][..0] == [];
    assert LastOf(b, [e], KeyOf(b, e)) == Some(e);
    assert Superseded(b, rows, [e], Everything) == 0;
    assert Superseded(b, rows, [e, f], Everything) == Superseded(b, rows, [e], Everything) + e.size;
  }
}
