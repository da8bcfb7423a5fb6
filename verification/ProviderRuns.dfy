/** Duplicates by provider hash, found as runs of a sorted stream of rows (`provider_dedup.py`). */
module ProviderRuns {
  import opened Lists
  import opened Grouping
  import Ordering

  datatype Member = Member(entryId: int, hostId: int, volumeId: int, path: string)
  datatype Key = Key(algo: string, hash: string, size: int)
  datatype Row = Row(key: Key, member: Member)
  datatype ProviderDupGroup = ProviderDupGroup(key: Key, members: seq<Member>)

  function KeyOf(): Row -> Key { (r: Row) => r.key }

  /** The order of the database's `ORDER BY`: whatever its collation, unequal keys are ordered one way. */
  ghost predicate Total(less: (Key, Key) -> bool)
  {
    && (forall a, b :: less(a, b) ==> !less(b, a))
    && (forall a, b :: a != b ==> less(a, b) || less(b, a))
    && (forall a, b, c :: less(a, b) && less(b, c) ==> less(a, c))
  }

  /** The order by code points, one field after the other, is one. */
  predicate ByCodePoints(a: Key, b: Key)
  {
    var aa, ba := Ordering.Codes(a.algo), Ordering.Codes(b.algo);
    var ah, bh := Ordering.Codes(a.hash), Ordering.Codes(b.hash);
    Ordering.LexLess(aa, ba) || (aa == ba && (Ordering.LexLess(ah, bh) || (ah == bh && a.size < b.size)))
  }

  lemma {:induction false} CodePointOrderIsTotal()
    ensures Total(ByCodePoints)
  {
    forall a, b
      ensures ByCodePoints(a, b) ==> !ByCodePoints(b, a)
      ensures a != b ==> ByCodePoints(a, b) || ByCodePoints(b, a)
    {
      Ordering.Trichotomy(Ordering.Codes(a.algo), Ordering.Codes(b.algo));
      Ordering.Trichotomy(Ordering.Codes(b.algo), Ordering.Codes(a.algo));
      Ordering.Trichotomy(Ordering.Codes(a.hash), Ordering.Codes(b.hash));
      Ordering.Trichotomy(Ordering.Codes(b.hash), Ordering.Codes(a.hash));
      if Ordering.Codes(a.algo) == Ordering.Codes(b.algo) { Ordering.CodesInjective(a.algo, b.algo); }
      if Ordering.Codes(a.hash) == Ordering.Codes(b.hash) { Ordering.CodesInjective(a.hash, b.hash); }
    }
    forall a, b, c | ByCodePoints(a, b) && ByCodePoints(b, c) ensures ByCodePoints(a, c) {
      var aa, ba, ca := Ordering.Codes(a.algo), Ordering.Codes(b.algo), Ordering.Codes(c.algo);
      var ah, bh, ch := Ordering.Codes(a.hash), Ordering.Codes(b.hash), Ordering.Codes(c.hash);
      if Ordering.LexLess(aa, ba) && Ordering.LexLess(ba, ca) { Ordering.LexTransitive(aa, ba, ca); }
      if Ordering.LexLess(ah, bh) && Ordering.LexLess(bh, ch) { Ordering.LexTransitive(ah, bh, ch); }
    }
  }

  ghost predicate SortedBy(rows: seq<Row>, less: (Key, Key) -> bool)
  {
    forall i, j :: 0 <= i < j < |rows| ==> !less(rows[j].key, rows[i].key)
  }

  function MembersOf(rows: seq<Row>): (ms: seq<Member>)
    ensures |ms| == |rows| && forall i :: 0 <= i < |rows| ==> ms[i] == rows[i].member
  {
    seq(|rows|, i requires 0 <= i < |rows| => rows[i].member)
  }

  function GroupFor(rows: seq<Row>, k: Key): ProviderDupGroup
  {
    ProviderDupGroup(k, MembersOf(Class(rows, KeyOf(), k)))
  }

  /** The groups of `keys` with at least `min` members, in the order of `keys`. */
  function GroupsOf(rows: seq<Row>, keys: seq<Key>, min: int): seq<ProviderDupGroup>
  {
    if keys == [] then []
    else
      var g := GroupFor(rows, keys[|keys| - 1]);
      GroupsOf(rows, keys[..|keys| - 1], min) + if |g.members| >= min then [g] else []
  }

  /** The partition of the rows by key, in the order in which the keys first occur. */
  function Partition(rows: seq<Row>, min: int): seq<ProviderDupGroup>
  {
    GroupsOf(rows, Keys(rows, KeyOf()), min)
  }

  function MakeGroup(key: Option<Key>, members: seq<Member>, min: int): Option<ProviderDupGroup>
  {
    if key.None? || |members| < min then None else Some(ProviderDupGroup(key.value, members))
  }

  // ---------------------------------------------------------------- the run detector

  /** In sorted rows a key that differs from the last one has not occurred before. */
  lemma {:induction false} NewRunIsNewKey(rows: seq<Row>, less: (Key, Key) -> bool, i: nat)
    requires Total(less) && SortedBy(rows, less) && 0 < i < |rows| && rows[i].key != rows[i - 1].key
    ensures forall j :: 0 <= j < i ==> rows[j].key != rows[i].key
  {
    forall j | 0 <= j < i ensures rows[j].key != rows[i].key {
      assert !less(rows[i - 1].key, rows[j].key) || j == i - 1;
    }
  }

  /** Groups of other keys do not see one more row. */
  lemma {:induction false} OtherGroups(rows: seq<Row>, r: Row, keys: seq<Key>, min: int)
    requires r.key !in keys
    ensures GroupsOf(rows + [r], keys, min) == GroupsOf(rows, keys, min)
    decreases |keys|
  {
    if keys != [] {
      var init, k := keys[..|keys| - 1], keys[|keys| - 1];
      assert keys == init + [k];
      OtherGroups(rows, r, init, min);
      ClassSnoc(rows, r, KeyOf(), k);
    }
  }

  /** Where the detector stands after some rows: the last key's run is open, the earlier ones are out. */
  ghost predicate Scanned(rows: seq<Row>, min: int, curKey: Option<Key>, cur: seq<Member>, out: seq<ProviderDupGroup>)
  {
    if rows == [] then curKey == None && cur == [] && out == []
    else
      var keys := Keys(rows, KeyOf());
      && curKey == Some(rows[|rows| - 1].key)
      && keys != [] && keys[|keys| - 1] == curKey.value
      && cur == MembersOf(Class(rows, KeyOf(), curKey.value))
      && out == GroupsOf(rows, keys[..|keys| - 1], min)
  }

  lemma {:induction false} LastKeyIsNew(rows: seq<Row>)
    ensures var keys := Keys(rows, KeyOf()); keys != [] ==> keys[|keys| - 1] !in keys[..|keys| - 1]
  {
    KeysExact(rows, KeyOf());
  }

  lemma {:induction false} MembersSnoc(rows: seq<Row>, r: Row)
    ensures MembersOf(rows + [r]) == MembersOf(rows) + [r.member]
  {
  }

  lemma {:induction false} SameRun(rows: seq<Row>, r: Row, min: int, cur: seq<Member>, out: seq<ProviderDupGroup>)
    requires Scanned(rows, min, Some(r.key), cur, out)
    ensures Scanned(rows + [r], min, Some(r.key), cur + [r.member], out)
  {
    var more, keys := rows + [r], Keys(rows, KeyOf());
    assert rows != [] && keys[|keys| - 1] == r.key && r.key in keys && more[|more| - 1] == r;
    LastKeyIsNew(rows);
    assert Keys(more, KeyOf()) == keys by { KeysSnoc(rows, r, KeyOf()); }
    assert MembersOf(Class(more, KeyOf(), r.key)) == cur + [r.member] by {
      ClassSnoc(rows, r, KeyOf(), r.key);
      MembersSnoc(Class(rows, KeyOf(), r.key), r);
    }
    OtherGroups(rows, r, keys[..|keys| - 1], min);
  }

  /** What closing the open run adds to the output. */
  function Closed(curKey: Option<Key>, cur: seq<Member>, min: int, out: seq<ProviderDupGroup>): seq<ProviderDupGroup>
  {
    match MakeGroup(curKey, cur, min) case Some(g) => out + [g] case None => out
  }

  lemma {:induction false} ClosedIsPartition(rows: seq<Row>, min: int, curKey: Option<Key>, cur: seq<Member>,
                                             out: seq<ProviderDupGroup>)
    requires Scanned(rows, min, curKey, cur, out)
    ensures Closed(curKey, cur, min, out) == Partition(rows, min)
  {
  }

  lemma {:induction false} NextRun(rows: seq<Row>, r: Row, min: int, curKey: Option<Key>, cur: seq<Member>,
                                 out: seq<ProviderDupGroup>)
    requires Scanned(rows, min, curKey, cur, out)
    requires forall j :: 0 <= j < |rows| ==> rows[j].key != r.key
    ensures Scanned(rows + [r], min, Some(r.key), [r.member], Closed(curKey, cur, min, out))
  {
    var keys := Keys(rows, KeyOf());
    assert r.key !in keys by { KeysExact(rows, KeyOf()); }
    ClosedIsPartition(rows, min, curKey, cur, out);
    ClassEmpty(rows, KeyOf(), r.key);
    KeysSnoc(rows, r, KeyOf());
    ClassSnoc(rows, r, KeyOf(), r.key);
    assert (keys + [r.key])[..|keys|] == keys;
    OtherGroups(rows, r, keys, min);
  }

  /** One more row of the sorted stream. */
  lemma {:induction false} Advance(rows: seq<Row>, i: nat, less: (Key, Key) -> bool, min: int, curKey: Option<Key>,
                                   cur: seq<Member>, out: seq<ProviderDupGroup>)
    requires Total(less) && SortedBy(rows, less) && i < |rows| && Scanned(rows[..i], min, curKey, cur, out)
    ensures curKey == Some(rows[i].key) ==> Scanned(rows[..i + 1], min, curKey, cur + [rows[i].member], out)
    ensures curKey != Some(rows[i].key) ==>
              Scanned(rows[..i + 1], min, Some(rows[i].key), [rows[i].member], Closed(curKey, cur, min, out))
  {
    assert rows[..i + 1] == rows[..i] + [rows[i]];
    if curKey == Some(rows[i].key) {
      SameRun(rows[..i], rows[i], min, cur, out);
    } else {
      if i > 0 { NewRunIsNewKey(rows, less, i); }
      NextRun(rows[..i], rows[i], min, curKey, cur, out);
    }
  }

  /** The streaming generator: it keeps one run and yields it when the key changes or the rows end. */
  method IterDuplicates(rows: seq<Row>, min: int, ghost less: (Key, Key) -> bool)
    returns (yielded: seq<ProviderDupGroup>)
    requires Total(less) && SortedBy(rows, less)
    ensures yielded == Partition(rows, min)
  {
    yielded := [];
    var curKey: Option<Key> := None;
    var cur: seq<Member> := [];
    for i := 0 to |rows|
      invariant Scanned(rows[..i], min, curKey, cur, yielded)
    {
      var key := rows[i].key;
      Advance(rows, i, less, min, curKey, cur, yielded);
      if curKey != Some(key) {
        var group := MakeGroup(curKey, cur, min);
        if group.Some? { yielded := yielded + [group.value]; }
        curKey := Some(key);
        cur := [];
      }
      cur := cur + [rows[i].member];
    }
    assert rows[..|rows|] == rows;
    ClosedIsPartition(rows, min, curKey, cur, yielded);
    var last := MakeGroup(curKey, cur, min);
    if last.Some? { yielded := yielded + [last.value]; }
  }

  // ---------------------------------------------------------------- what the partition is

  lemma {:induction false} GroupsExact(rows: seq<Row>, keys: seq<Key>, min: int, g: ProviderDupGroup)
    ensures g in GroupsOf(rows, keys, min) <==> g.key in keys && g == GroupFor(rows, g.key) && |g.members| >= min
    decreases |keys|
  {
    if keys != [] {
      var init, k := keys[..|keys| - 1], keys[|keys| - 1];
      assert keys == init + [k];
      GroupsExact(rows, init, min, g);
    }
  }

  lemma {:induction false} KeysAscend(rows: seq<Row>, less: (Key, Key) -> bool)
    requires Total(less) && SortedBy(rows, less)
    ensures forall i, j :: 0 <= i < j < |Keys(rows, KeyOf())| ==> less(Keys(rows, KeyOf())[i], Keys(rows, KeyOf())[j])
    decreases |rows|
  {
    if rows != [] {
      var init, last := rows[..|rows| - 1], rows[|rows| - 1];
      KeysAscend(init, less);
      KeysExact(init, KeyOf());
      var before := Keys(init, KeyOf());
      forall i | 0 <= i < |before| && last.key !in before ensures less(before[i], last.key) {
        assert before[i] in before;
        var p :| 0 <= p < |init| && KeyOf()(init[p]) == before[i];
        assert rows[p].key == before[i] && before[i] != last.key;
      }
    }
  }

  ghost predicate Ascending(groups: seq<ProviderDupGroup>, less: (Key, Key) -> bool)
  {
    forall i, j :: 0 <= i < j < |groups| ==> less(groups[i].key, groups[j].key)
  }

  lemma {:induction false} GroupsAscend(rows: seq<Row>, keys: seq<Key>, min: int, less: (Key, Key) -> bool)
    requires forall i, j :: 0 <= i < j < |keys| ==> less(keys[i], keys[j])
    ensures Ascending(GroupsOf(rows, keys, min), less)
    decreases |keys|
  {
    if keys != [] {
      var init, k := keys[..|keys| - 1], keys[|keys| - 1];
      GroupsAscend(rows, init, min, less);
      var before := GroupsOf(rows, init, min);
      forall i | 0 <= i < |before| ensures less(before[i].key, k) {
        GroupsExact(rows, init, min, before[i]);
      }
    }
  }

  /** The yielded groups are exactly the key classes of at least `min` rows (a class has a row), once each, in key
      order; `Class` keeps the members in row order. */
  lemma {:induction false} RunsArePartition(rows: seq<Row>, min: int, less: (Key, Key) -> bool)
    requires Total(less) && SortedBy(rows, less)
    ensures forall g :: g in Partition(rows, min) <==>
              g == GroupFor(rows, g.key) && |g.members| >= min && |g.members| > 0
    ensures Ascending(Partition(rows, min), less)
  {
    var keys := Keys(rows, KeyOf());
    forall g ensures g in Partition(rows, min) <==>
                     g == GroupFor(rows, g.key) && |g.members| >= min && |g.members| > 0 {
      GroupsExact(rows, keys, min, g);
      ClassEmpty(rows, KeyOf(), g.key);
    }
    KeysAscend(rows, less);
    GroupsAscend(rows, keys, min, less);
  }

  // ---------------------------------------------------------------- the limit

  /** How many of `n` groups a limit lets through: the test comes after a group is added, so a limit of zero or
      less still lets one through. */
  function Limited(n: nat, limit: Option<int>): nat
  {
    if limit.None? || n == 0 then n
    else if limit.value <= 1 then 1
    else if limit.value < n then limit.value
    else n
  }

  /** The collecting wrapper. The limit is kept if and only if it is positive, or zero with nothing to return. */
  method FindDuplicates(rows: seq<Row>, min: int, limit: Option<int>, ghost less: (Key, Key) -> bool)
    returns (out: seq<ProviderDupGroup>)
    requires Total(less) && SortedBy(rows, less)
    ensures out == Partition(rows, min)[..Limited(|Partition(rows, min)|, limit)]
    ensures out <= Partition(rows, min)
    ensures out != Partition(rows, min) ==> limit.Some? && |out| == if limit.value <= 0 then 1 else limit.value
    ensures limit.Some? && limit.value >= 1 ==> |out| <= limit.value
    ensures limit.Some? && limit.value <= 0 ==> |out| <= 1
    ensures limit.Some? ==>
              (|out| <= limit.value <==> limit.value >= 1 || (limit.value == 0 && Partition(rows, min) == []))
  {
    var groups := IterDuplicates(rows, min, less);
    out := Taken(groups, limit);
  }

  method Taken(groups: seq<ProviderDupGroup>, limit: Option<int>) returns (out: seq<ProviderDupGroup>)
    ensures out == groups[..Limited(|groups|, limit)]
  {
    out := [];
    for i := 0 to |groups|
      invariant out == groups[..i]
      invariant limit.Some? ==> i == 0 || i < limit.value
    {
      out := out + [groups[i]];
      if limit.Some? && |out| >= limit.value { break; }
    }
  }
}
