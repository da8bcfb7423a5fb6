/** Keyset pages over the duplicate groups (`query.py`), while the table changes between requests. */
module Pages {
  import opened Lists
  import opened Grouping

  /** A group as the listing sees it: the volumes of its members and whether the caller may see any of them. */
  datatype Listed = Listed(id: int, volumes: set<int>, visible: bool)

  predicate Wanted(volume: Option<int>, g: Listed)
  {
    (volume.Some? ==> volume.value in g.volumes) && g.visible
  }

  predicate Selected(cursor: Option<int>, volume: Option<int>, g: Listed)
  {
    (cursor.Some? ==> g.id > cursor.value) && Wanted(volume, g)
  }

  /** The table in primary-key order. */
  ghost predicate ById(table: seq<Listed>)
  {
    forall i, j :: 0 <= i < j < |table| ==> table[i].id < table[j].id
  }

  function Where(cursor: Option<int>, volume: Option<int>): Listed -> bool
  {
    (g: Listed) => Selected(cursor, volume, g)
  }

  function Rows(table: seq<Listed>, cursor: Option<int>, volume: Option<int>): seq<Listed>
  {
    Class(table, Where(cursor, volume), true)
  }

  function Page(table: seq<Listed>, cursor: Option<int>, volume: Option<int>, limit: nat): seq<Listed>
  {
    var rows := Rows(table, cursor, volume);
    if |rows| > limit then rows[..limit] else rows
  }

  function NextCursor(table: seq<Listed>, cursor: Option<int>, volume: Option<int>, limit: nat): Option<int>
    requires limit >= 1
  {
    var rows := Rows(table, cursor, volume);
    if |rows| > limit then Some(rows[limit - 1].id) else None
  }

  /** One request: one row more than the page is fetched to learn whether another page follows. */
  method ListGroups(table: seq<Listed>, cursor: Option<int>, volume: Option<int>, limit: nat)
    returns (groups: seq<Listed>, next: Option<int>)
    requires limit >= 1
    ensures groups == Page(table, cursor, volume, limit) && next == NextCursor(table, cursor, volume, limit)
  {
    var rows: seq<Listed> := [];
    var i := 0;
    while i < |table| && |rows| < limit + 1
      invariant 0 <= i <= |table| && rows == Rows(table[..i], cursor, volume) && |rows| <= limit + 1
    {
      assert table[..i + 1][..i] == table[..i];
      if Selected(cursor, volume, table[i]) { rows := rows + [table[i]]; }
      i := i + 1;
    }
    RowsPrefix(table, cursor, volume, i);
    assert table[..|table|] == table;
    groups := if |rows| > limit then rows[..limit] else rows;
    next := if |rows| > limit then Some(groups[|groups| - 1].id) else None;
  }

  lemma {:induction false} RowsPrefix(table: seq<Listed>, cursor: Option<int>, volume: Option<int>, i: nat)
    requires i <= |table|
    ensures Rows(table[..i], cursor, volume) <= Rows(table, cursor, volume)
    decreases |table|
  {
    if i < |table| {
      var init := table[..|table| - 1];
      assert table[..i] == init[..i];
      RowsPrefix(init, cursor, volume, i);
    } else {
      assert table[..i] == table;
    }
  }

  lemma {:induction false} RowsAscend(table: seq<Listed>, cursor: Option<int>, volume: Option<int>)
    requires ById(table)
    ensures ById(Rows(table, cursor, volume))
  {
    if table != [] {
      var init, last := table[..|table| - 1], table[|table| - 1];
      RowsAscend(init, cursor, volume);
      ClassMembers(init, Where(cursor, volume), true);
      forall g | g in Rows(init, cursor, volume) ensures g.id < last.id {
        var i :| 0 <= i < |init| && init[i] == g;
        assert table[i] == g;
      }
      var before := Rows(init, cursor, volume);
      assert forall i :: 0 <= i < |before| ==> before[i] in before;
    }
  }

  /** `pages[k]` was listed from `tables[k]`, each request continuing from the one before, until no next page. */
  ghost predicate Walked(tables: seq<seq<Listed>>, cursors: seq<Option<int>>, pages: seq<seq<Listed>>,
                         volume: Option<int>, limit: nat)
    requires limit >= 1
  {
    && |pages| == |tables| && |cursors| == |tables| + 1 && cursors[0] == None
    && (forall k :: 0 <= k < |tables| ==>
          && ById(tables[k]) && pages[k] == Page(tables[k], cursors[k], volume, limit)
          && cursors[k + 1] == NextCursor(tables[k], cursors[k], volume, limit))
    && (forall k :: 1 <= k < |tables| ==> cursors[k].Some?)
  }

  /** The group is visible to the caller, has a member on the volume if one is asked for, and comes after the cursor. */
  predicate Shown(cursor: Option<int>, volume: Option<int>, g: Listed)
  {
    && g.visible
    && (volume == None || (volume.Some? && volume.value in g.volumes))
    && (cursor == None || (cursor.Some? && cursor.value < g.id))
  }

  /** A page holds, in id order, selected rows after its cursor; every other selected row comes after its last. */
  lemma {:induction false} PageSplits(table: seq<Listed>, cursor: Option<int>, volume: Option<int>, limit: nat)
    requires ById(table) && limit >= 1
    ensures var page, next := Page(table, cursor, volume, limit), NextCursor(table, cursor, volume, limit);
            && ById(page)
            && (forall g :: g in page ==> g in table && Shown(cursor, volume, g) && (next.Some? ==> g.id <= next.value))
            && (forall g :: g in table && Shown(cursor, volume, g) ==> g in page || (next.Some? && g.id > next.value))
            && |page| <= limit && (next.Some? ==> |page| == limit && page[limit - 1].id == next.value)
            && (next.Some? ==> exists g :: g in table && Shown(cursor, volume, g) && g.id > next.value)
            && (cursor.Some? && next.Some? ==> next.value > cursor.value)
  {
    var rows := Rows(table, cursor, volume);
    RowsAscend(table, cursor, volume);
    ClassMembers(table, Where(cursor, volume), true);
    if |rows| > limit {
      CutAt(rows, limit);
      assert rows[limit] in rows && rows[limit].id > rows[limit - 1].id;
      assert Selected(cursor, volume, rows[limit - 1]);
    }
  }

  lemma {:induction false} CutAt(rows: seq<Listed>, n: nat)
    requires ById(rows) && 1 <= n < |rows|
    ensures ById(rows[..n]) && rows[n - 1] in rows
    ensures forall g :: g in rows[..n] ==> g in rows && g.id <= rows[n - 1].id
    ensures forall g :: g in rows ==> g in rows[..n] || g.id > rows[n - 1].id
  {
  }

  lemma {:induction false} CursorsClimb(tables: seq<seq<Listed>>, cursors: seq<Option<int>>, pages: seq<seq<Listed>>,
                                      volume: Option<int>, limit: nat, j: nat, k: nat)
    requires limit >= 1 && Walked(tables, cursors, pages, volume, limit) && 1 <= j <= k < |tables|
    ensures cursors[j].value <= cursors[k].value
  {
    if j < k {
      CursorsClimb(tables, cursors, pages, volume, limit, j, k - 1);
      PageSplits(tables[k - 1], cursors[k - 1], volume, limit);
    }
  }

  /** However the table changes between the requests: ids never repeat, neither within a page nor across pages, and
      come in ascending order. */
  lemma {:induction false} NothingRepeats(tables: seq<seq<Listed>>, cursors: seq<Option<int>>, pages: seq<seq<Listed>>,
                                        volume: Option<int>, limit: nat, j: nat, k: nat)
    requires limit >= 1 && Walked(tables, cursors, pages, volume, limit) && j <= k < |tables|
    ensures j == k ==> ById(pages[j])
    ensures j < k ==> forall g, h :: g in pages[j] && h in pages[k] ==> g.id < h.id
  {
    PageSplits(tables[j], cursors[j], volume, limit);
    PageSplits(tables[k], cursors[k], volume, limit);
    if j < k { CursorsClimb(tables, cursors, pages, volume, limit, j + 1, k); }
  }

  /** A group that is listed at every request of a complete walk appears in some page. */
  lemma {:induction false} NothingSkipped(tables: seq<seq<Listed>>, cursors: seq<Option<int>>, pages: seq<seq<Listed>>,
                                        volume: Option<int>, limit: nat, g: Listed)
    requires limit >= 1 && Walked(tables, cursors, pages, volume, limit) && tables != [] && cursors[|tables|].None?
    requires Shown(None, volume, g) && forall k :: 0 <= k < |tables| ==> g in tables[k]
    ensures exists k :: 0 <= k < |pages| && g in pages[k]
  {
    FoundOrAhead(tables, cursors, pages, volume, limit, g, |tables|);
  }

  lemma {:induction false} FoundOrAhead(tables: seq<seq<Listed>>, cursors: seq<Option<int>>, pages: seq<seq<Listed>>,
                                      volume: Option<int>, limit: nat, g: Listed, n: nat)
    requires limit >= 1 && Walked(tables, cursors, pages, volume, limit) && 1 <= n <= |tables|
    requires Wanted(volume, g) && forall k :: 0 <= k < |tables| ==> g in tables[k]
    ensures (exists k :: 0 <= k < n && g in pages[k]) || (cursors[n].Some? && g.id > cursors[n].value)
  {
    PageSplits(tables[n - 1], cursors[n - 1], volume, limit);
    if n > 1 {
      FoundOrAhead(tables, cursors, pages, volume, limit, g, n - 1);
      if k :| 0 <= k < n - 1 && g in pages[k] { assert 0 <= k < n; }
    }
    if g in pages[n - 1] { assert 0 <= n - 1 < n; }
  }
}
