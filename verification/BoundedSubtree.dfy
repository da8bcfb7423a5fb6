/** The sequential, capped sizing walk of the live browser. */
module BoundedSubtree {
  import opened FileTree

  /** What is counted in a subtree: the bytes of its files, its files, or every directory entry
      met on the way, readable or not. */
  datatype Measure = Bytes | Files | Met

  predicate Entered(de: Dirent)
  {
    de.typeOk && de.kind.Directory?
  }

  predicate Counted(de: Dirent)
  {
    de.typeOk && de.kind.Regular? && de.statOk
  }

  function Own(m: Measure, de: Dirent): nat
  {
    match m
    case Bytes => if Counted(de) then de.size else 0
    case Files => if Counted(de) then 1 else 0
    case Met => 1
  }

  /** The true total of the readable, symlink-free subtree. */
  function Total(m: Measure, ls: seq<Dirent>): nat
    decreases ls, 0
  {
    if ls == [] then 0 else TotalEntry(m, ls[0]) + Total(m, ls[1..])
  }

  function TotalEntry(m: Measure, de: Dirent): nat
    decreases de, 1
  {
    Own(m, de) + if Entered(de) then Total(m, de.listing) else 0
  }

  /** What the totals count, entry by entry: every entry is met; a file whose type and size can be read counts with its
      size; a directory counts for what it holds; a symlink, or an entry whose type cannot be read, for nothing. */
  lemma {:induction false} TotalOfOne(de: Dirent)
    ensures Total(Met, [de]) == 1 + if de.typeOk && de.kind == Directory then Total(Met, de.listing) else 0
    ensures forall m :: m == Bytes || m == Files ==>
              Total(m, [de]) == if !de.typeOk || de.kind == Symlink then 0
                                else if de.kind == Directory then Total(m, de.listing)
                                else if !de.statOk then 0
                                else if m == Bytes then de.size else 1
  {
    assert [de][1..] == [];
  }

  lemma {:induction false} TotalAppend(m: Measure, a: seq<Dirent>, b: seq<Dirent>)
    ensures Total(m, a + b) == Total(m, a) + Total(m, b)
  {
    if a == [] {
      assert a + b == b;
    } else {
      assert (a + b)[1..] == a[1..] + b;
      TotalAppend(m, a[1..], b);
    }
  }

  function OnStack(m: Measure, stack: seq<seq<Dirent>>): nat
  {
    if stack == [] then 0 else OnStack(m, stack[..|stack| - 1]) + Total(m, stack[|stack| - 1])
  }

  lemma {:induction false} Push(m: Measure, stack: seq<seq<Dirent>>, ls: seq<Dirent>)
    ensures OnStack(m, stack + [ls]) == OnStack(m, stack) + Total(m, ls)
  {
  }

  lemma {:induction false} Uncons(m: Measure, ls: seq<Dirent>, i: nat)
    requires i < |ls|
    ensures Total(m, ls[i..]) == TotalEntry(m, ls[i]) + Total(m, ls[i + 1..])
  {
  }

  /** What a partial walk has counted plus what its stack still holds. */
  datatype Progress = Progress(stack: seq<seq<Dirent>>, bytes: nat, files: nat, seen: nat)

  function So(m: Measure, p: Progress): nat
  {
    match m case Bytes => p.bytes case Files => p.files case Met => p.seen
  }

  lemma {:induction false} SoAll(p: Progress)
    ensures So(Bytes, p) == p.bytes && So(Files, p) == p.files && So(Met, p) == p.seen
  {
  }

  /** The progress once an entry has been dealt with. */
  function Past(p: Progress, de: Dirent): Progress
  {
    if Entered(de) then p.(seen := p.seen + 1, stack := p.stack + [de.listing])
    else if Counted(de) then p.(seen := p.seen + 1, bytes := p.bytes + de.size, files := p.files + 1)
    else p.(seen := p.seen + 1)
  }

  lemma {:induction false} PastTotals(m: Measure, p: Progress, de: Dirent)
    ensures So(m, Past(p, de)) + OnStack(m, Past(p, de).stack) == So(m, p) + OnStack(m, p.stack) + TotalEntry(m, de)
  {
  }

  /** The inner loop: one listing is added to the running totals, its directories to the stack; it
      stops at the cap, before counting the entry that reaches it. */
  method Scan(current: seq<Dirent>, maxEntries: int, before: Progress) returns (stopped: bool, p: Progress)
    requires before.seen < maxEntries
    ensures if stopped then p.seen == maxEntries else p.seen == before.seen + |current| < maxEntries
    ensures current == [] ==> p == before
    ensures forall m :: So(m, p) + (if stopped then 0 else OnStack(m, p.stack))
                        <= So(m, before) + OnStack(m, before.stack) + Total(m, current)
    ensures !stopped ==> forall m :: So(m, p) + OnStack(m, p.stack)
                                     == So(m, before) + OnStack(m, before.stack) + Total(m, current)
  {
    p := before;
    for i := 0 to |current|
      invariant p.seen == before.seen + i < maxEntries
      invariant i == 0 ==> p == before
      invariant forall m :: So(m, p) + OnStack(m, p.stack) + Total(m, current[i..])
                            == So(m, before) + OnStack(m, before.stack) + Total(m, current)
    {
      var de := current[i];
      forall m
        ensures So(m, Past(p, de)) + OnStack(m, Past(p, de).stack) + Total(m, current[i + 1..])
             == So(m, p) + OnStack(m, p.stack) + Total(m, current[i..])
      {
        Uncons(m, current, i);
        PastTotals(m, p, de);
      }
      ghost var past := Past(p, de);
      p := p.(seen := p.seen + 1);
      if p.seen >= maxEntries {
        assert forall m :: So(m, p) <= So(m, past);
        return true, p;
      }
      if Entered(de) {
        p := p.(stack := p.stack + [de.listing]);
      } else if Counted(de) {
        p := p.(bytes := p.bytes + de.size, files := p.files + 1);
      }
      assert p == past;
    }
    return false, p;
  }

  /** `_bounded_subtree`: `late(k)` is what the clock says at the k-th deadline test. The totals
      never overstate the subtree; they are exact unless `truncated`; and when the deadline never
      strikes, `truncated` says exactly whether the subtree has at least `maxEntries` entries. */
  method Size(listing: seq<Dirent>, maxEntries: int, late: nat -> bool)
    returns (bytes: nat, files: nat, truncated: bool, seen: nat)
    ensures seen == 0 || seen <= maxEntries
    ensures bytes <= Total(Bytes, listing) && files <= Total(Files, listing)
    ensures !truncated ==> bytes == Total(Bytes, listing) && files == Total(Files, listing)
    ensures (forall k :: !late(k)) ==> (truncated <==> Total(Met, listing) >= maxEntries)
  {
    var p, ticks := Progress([listing], 0, 0, 0), 0;
    forall m ensures OnStack(m, p.stack) == Total(m, listing) {
      Push(m, [], listing);
      assert [] + [listing] == p.stack;
    }
    while p.stack != []
      invariant p.seen == 0 || p.seen < maxEntries
      invariant p.stack == [] ==> p.seen < maxEntries
      invariant forall m :: So(m, p) + OnStack(m, p.stack) == Total(m, listing)
      decreases OnStack(Met, p.stack), |p.stack|
    {
      SoAll(p);
      if p.seen >= maxEntries || late(ticks) {
        return p.bytes, p.files, true, p.seen;
      }
      ticks := ticks + 1;
      var top := p.stack[|p.stack| - 1];
      var stopped, next := Scan(top, maxEntries, p.(stack := p.stack[..|p.stack| - 1]));
      SoAll(next);
      if stopped {
        return next.bytes, next.files, true, next.seen;
      }
      p := next;
    }
    SoAll(p);
    return p.bytes, p.files, false, p.seen;
  }
}
