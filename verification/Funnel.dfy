/** Content duplicates by size, then partial hash, then full hash (`dedup.py`). */
module Funnel {
  import opened Lists
  import opened PosixPaths
  import opened Ordering
  import opened Grouping

  datatype Ident = Number(n: int) | Text(s: string)

  datatype Candidate = Candidate(id: Ident, path: string, size: nat, dev: int)

  datatype DuplicateGroup = DuplicateGroup(
    fullHash: string,
    size: nat,
    memberIds: seq<Ident>,
    reclaimableBytes: nat,
    suggestedKeeperId: Ident)

  /** The two-stage content hasher; the files do not change while it runs. */
  datatype Hasher = Hasher(partial: (string, nat) -> string, full: string -> string)

  function SizeOf(): Candidate -> nat { (c: Candidate) => c.size }
  function PartialOf(h: Hasher): Candidate -> string { (c: Candidate) => h.partial(c.path, c.size) }
  function FullOf(h: Hasher): Candidate -> string { (c: Candidate) => h.full(c.path) }

  /** What makes two files duplicates: their size and their full hash. */
  function ContentOf(h: Hasher): Candidate -> (nat, string) { Both(SizeOf(), FullOf(h)) }
  function HeadOf(h: Hasher): Candidate -> (nat, string) { Both(SizeOf(), PartialOf(h)) }

  function NotSkipped(skipEmpty: bool): Candidate -> bool { (c: Candidate) => !(skipEmpty && c.size == 0) }

  /** The candidates that are not skipped for being empty. */
  function Considered(candidates: seq<Candidate>, skipEmpty: bool): seq<Candidate>
  {
    Class(candidates, NotSkipped(skipEmpty), true)
  }

  /** Empty files are left out if asked, every other candidate is considered as often as it is listed. */
  lemma {:induction false} ConsideredExactly(candidates: seq<Candidate>, skipEmpty: bool, c: Candidate)
    ensures multiset(Considered(candidates, skipEmpty))[c]
         == if skipEmpty && c.size == 0 then 0 else multiset(candidates)[c]
  {
    ClassCount(candidates, NotSkipped(skipEmpty), true, c);
  }

  // ---------------------------------------------------------------- the keeper rule

  function PathRank(): Candidate -> seq<int>
  {
    (c: Candidate) => [CountSlash(c.path)] + Codes(c.path)
  }

  function KeepShortestPath(members: seq<Candidate>): Candidate
    requires members != []
  {
    FirstMin(members, PathRank())
  }

  /** The suggestion is a member, no member is shallower, none as shallow is first in the alphabet, and
      among distinct paths the order of the members does not matter. */
  lemma {:induction false} KeeperIsShallowest(members: seq<Candidate>, shuffled: seq<Candidate>)
    requires members != [] && forall c :: c in members <==> c in shuffled
    requires forall c, d :: c in members && d in members && c.path == d.path ==> c == d
    ensures shuffled != [] && KeepShortestPath(members) == KeepShortestPath(shuffled)
    ensures KeepShortestPath(members) in members
    ensures forall c :: c in members ==> CountSlash(KeepShortestPath(members).path) <= CountSlash(c.path)
    ensures forall c :: c in members && CountSlash(c.path) == CountSlash(KeepShortestPath(members).path) ==>
              !LexLess(Codes(c.path), Codes(KeepShortestPath(members).path))
  {
    var rank := PathRank();
    forall c, d | c in members && d in members && rank(c) == rank(d) ensures c == d {
      assert Codes(c.path) == rank(c)[1..] == rank(d)[1..] == Codes(d.path);
      CodesInjective(c.path, d.path);
    }
    FirstMinOfAnyOrder(members, shuffled, rank);
    FirstMinIsLeast(members, rank);
    var k := KeepShortestPath(members);
    forall c | c in members
      ensures CountSlash(k.path) <= CountSlash(c.path)
      ensures CountSlash(c.path) == CountSlash(k.path) ==> !LexLess(Codes(c.path), Codes(k.path))
    {
      assert !LexLess(rank(c), rank(k));
      assert rank(c)[1..] == Codes(c.path) && rank(k)[1..] == Codes(k.path);
    }
  }

  /** A keeper rule; it is only ever given two or more members. */
  type KeeperRule = seq<Candidate> -> Candidate

  // ---------------------------------------------------------------- the funnel

  /** The (size, partial hash) classes that are opened for a full hash. */
  function Opened(items: seq<Candidate>, h: Hasher): (out: seq<seq<Candidate>>)
    ensures forall i :: 0 <= i < |out| ==> |out[i]| >= 2
  {
    Refine(Repeats(items, SizeOf()), PartialOf(h))
  }

  /** The member lists of the confirmed groups, in the order they are found. */
  function Confirmed(items: seq<Candidate>, h: Hasher): (out: seq<seq<Candidate>>)
    ensures forall i :: 0 <= i < |out| ==> |out[i]| >= 2
  {
    Refine(Opened(items, h), FullOf(h))
  }

  function Ids(members: seq<Candidate>): (ids: seq<Ident>)
    ensures |ids| == |members| && forall i :: 0 <= i < |members| ==> ids[i] == members[i].id
  {
    seq(|members|, i requires 0 <= i < |members| => members[i].id)
  }

  function Report(h: Hasher, keeper: KeeperRule, members: seq<Candidate>): DuplicateGroup
    requires |members| >= 2
  {
    DuplicateGroup(h.full(members[0].path), members[0].size, Ids(members), members[0].size * (|members| - 1),
                   keeper(members).id)
  }

  function Reports(h: Hasher, keeper: KeeperRule, classes: seq<seq<Candidate>>): (r: seq<DuplicateGroup>)
    requires forall i :: 0 <= i < |classes| ==> |classes[i]| >= 2
    ensures |r| == |classes| && forall i :: 0 <= i < |r| ==> r[i] == Report(h, keeper, classes[i])
  {
    seq(|classes|, i requires 0 <= i < |classes| => Report(h, keeper, classes[i]))
  }

  lemma {:induction false} ReportAppend(h: Hasher, keeper: KeeperRule, a: seq<seq<Candidate>>, b: seq<seq<Candidate>>)
    requires forall i :: 0 <= i < |a| ==> |a[i]| >= 2
    requires forall i :: 0 <= i < |b| ==> |b[i]| >= 2
    ensures Reports(h, keeper, a + b) == Reports(h, keeper, a) + Reports(h, keeper, b)
  {
  }

  /** `fullCalls` lists the candidates whose full hash was asked for, in order. */
  method FindDuplicates(candidates: seq<Candidate>, h: Hasher, keeper: KeeperRule, skipEmpty: bool)
    returns (groups: seq<DuplicateGroup>, fullCalls: seq<Candidate>)
    ensures groups == Reports(h, keeper, Confirmed(Considered(candidates, skipEmpty), h))
    ensures fullCalls == Flatten(Opened(Considered(candidates, skipEmpty), h))
  {
    var items := [];
    for i := 0 to |candidates|
      invariant items == Considered(candidates[..i], skipEmpty)
    {
      assert candidates[..i + 1][..i] == candidates[..i];
      if skipEmpty && candidates[i].size == 0 { continue; }
      items := items + [candidates[i]];
    }
    assert candidates[..|candidates|] == candidates;

    groups, fullCalls := [], [];
    var bySize := Repeating(items, SizeOf());
    ghost var opens: seq<seq<Candidate>> := [];
    for i := 0 to |bySize|
      invariant opens == Refine(bySize[..i], PartialOf(h))
      invariant groups == Reports(h, keeper, Refine(opens, FullOf(h)))
      invariant fullCalls == Flatten(opens)
    {
      var more, calls := WithinSize(h, keeper, bySize[i]);
      ReportAppend(h, keeper, Refine(opens, FullOf(h)), Refine(Repeats(bySize[i], PartialOf(h)), FullOf(h)));
      groups, fullCalls := groups + more, fullCalls + calls;
      RefineStep(bySize, i, PartialOf(h));
      RefineAppend(opens, Repeats(bySize[i], PartialOf(h)), FullOf(h));
      FlattenAppend(opens, Repeats(bySize[i], PartialOf(h)));
      opens := opens + Repeats(bySize[i], PartialOf(h));
    }
    assert bySize[..|bySize|] == bySize;
  }

  /** The loop over the partial-hash groups of one size. */
  method WithinSize(h: Hasher, keeper: KeeperRule, sized: seq<Candidate>)
    returns (groups: seq<DuplicateGroup>, fullCalls: seq<Candidate>)
    ensures groups == Reports(h, keeper, Refine(Repeats(sized, PartialOf(h)), FullOf(h)))
    ensures fullCalls == Flatten(Repeats(sized, PartialOf(h)))
  {
    groups, fullCalls := [], [];
    var byPartial := Repeating(sized, PartialOf(h));
    for j := 0 to |byPartial|
      invariant groups == Reports(h, keeper, Refine(byPartial[..j], FullOf(h)))
      invariant fullCalls == Flatten(byPartial[..j])
    {
      var more := WithinPartial(h, keeper, byPartial[j]);
      ReportAppend(h, keeper, Refine(byPartial[..j], FullOf(h)), Repeats(byPartial[j], FullOf(h)));
      groups, fullCalls := groups + more, fullCalls + byPartial[j];
      RefineStep(byPartial, j, FullOf(h));
      FlattenStep(byPartial, j);
    }
    assert byPartial[..|byPartial|] == byPartial;
  }

  /** The loop over the full-hash groups of one partial hash. */
  method WithinPartial(h: Hasher, keeper: KeeperRule, partialMembers: seq<Candidate>)
    returns (groups: seq<DuplicateGroup>)
    ensures groups == Reports(h, keeper, Repeats(partialMembers, FullOf(h)))
  {
    var byFull := Repeating(partialMembers, FullOf(h));
    groups := [];
    for i := 0 to |byFull|
      invariant groups == Reports(h, keeper, byFull[..i])
    {
      var members := byFull[i];
      var suggested := keeper(members);
      groups := groups + [DuplicateGroup(h.full(members[0].path), members[0].size, Ids(members),
                                         members[0].size * (|members| - 1), suggested.id)];
    }
    assert byFull[..|byFull|] == byFull;
  }

  /** The order in which the funnel applies its keys. */
  function FunnelKey(h: Hasher): Candidate -> ((nat, string), string)
  {
    Both(HeadOf(h), FullOf(h))
  }

  /** Whatever the hashes do, the groups are the classes of equal size, partial hash and full hash. */
  lemma {:induction false} FunnelClasses(items: seq<Candidate>, h: Hasher)
    ensures AreDuplicates(items, HeadOf(h), Opened(items, h))
    ensures AreDuplicates(items, FunnelKey(h), Confirmed(items, h))
  {
    RepeatsAreDuplicates(items, SizeOf());
    RefineAreDuplicates(items, SizeOf(), PartialOf(h), Repeats(items, SizeOf()));
    RefineAreDuplicates(items, HeadOf(h), FullOf(h), Opened(items, h));
  }

  /** No group rests on size or partial hash alone: every member has the group's size and full hash, and there are at
      least two. */
  lemma {:induction false} ConfirmedByFullHash(items: seq<Candidate>, h: Hasher, keeper: KeeperRule)
    ensures var out := Confirmed(items, h);
            var groups := Reports(h, keeper, out);
            forall i :: 0 <= i < |groups| ==> |out[i]| >= 2 && MembersAgree(items, h, out[i], groups[i])
  {
    FunnelClasses(items, h);
    var out := Confirmed(items, h);
    forall i | 0 <= i < |out| ensures MembersAgree(items, h, out[i], Report(h, keeper, out[i])) {
      ClassMembers(items, FunnelKey(h), FunnelKey(h)(out[i][0]));
    }
  }

  ghost predicate MembersAgree(items: seq<Candidate>, h: Hasher, members: seq<Candidate>, g: DuplicateGroup)
  {
    && g.memberIds == Ids(members)
    && forall c :: c in members ==> c in items && c.size == g.size && h.full(c.path) == g.fullHash
  }

  /** A candidate is opened exactly as often as it is listed if it shares size and partial hash, never otherwise. */
  lemma {:induction false} OpenedOnlyOnCollision(items: seq<Candidate>, h: Hasher, c: Candidate)
    ensures multiset(Flatten(Opened(items, h)))[c] ==
            if |Class(items, HeadOf(h), HeadOf(h)(c))| >= 2 then multiset(items)[c] else 0
  {
    FunnelClasses(items, h);
    DuplicatesCount(items, HeadOf(h), Opened(items, h), c);
  }

  /** Equal size and equal full hash imply equal partial hash. */
  ghost predicate Coherent(items: seq<Candidate>, h: Hasher)
  {
    forall c, d :: c in items && d in items && ContentOf(h)(c) == ContentOf(h)(d) ==>
      PartialOf(h)(c) == PartialOf(h)(d)
  }

  lemma {:induction false} SameClass(items: seq<Candidate>, h: Hasher, c: Candidate)
    requires Coherent(items, h) && c in items
    ensures Class(items, FunnelKey(h), FunnelKey(h)(c)) == Class(items, ContentOf(h), ContentOf(h)(c))
  {
    SameClassBefore(items, h, c, |items|);
    assert items[..|items|] == items;
  }

  lemma {:induction false} SameClassBefore(items: seq<Candidate>, h: Hasher, c: Candidate, n: nat)
    requires Coherent(items, h) && c in items && n <= |items|
    ensures Class(items[..n], FunnelKey(h), FunnelKey(h)(c)) == Class(items[..n], ContentOf(h), ContentOf(h)(c))
  {
    if n > 0 {
      assert items[..n][..n - 1] == items[..n - 1];
      SameClassBefore(items, h, c, n - 1);
      assert items[n - 1] in items;
    }
  }

  /** The funnel finds the naive (size, full hash) classes of two or more, exactly when no such class is split by
      its partial hashes. */
  lemma {:induction false} FunnelIsNaiveIff(items: seq<Candidate>, h: Hasher)
    ensures AreDuplicates(items, ContentOf(h), Confirmed(items, h)) <==> Coherent(items, h)
  {
    if Coherent(items, h) { FunnelIsNaive(items, h); }
    if AreDuplicates(items, ContentOf(h), Confirmed(items, h)) { NaiveIsCoherent(items, h); }
  }

  /** Two files of one content whose partial hashes differ, as when the full hash collides: they make a naive
      class, and the funnel does not report it. */
  lemma {:induction false} SplitByPartial(a: Candidate, b: Candidate, h: Hasher)
    requires a.size == b.size && h.full(a.path) == h.full(b.path)
    requires h.partial(a.path, a.size) != h.partial(b.path, b.size)
    ensures Class([a, b], ContentOf(h), ContentOf(h)(a)) == [a, b] && [a, b] !in Confirmed([a, b], h)
    ensures !AreDuplicates([a, b], ContentOf(h), Confirmed([a, b], h))
  {
    var items := [a, b];
    assert items[..1] == [a] && [a][..0] == [];
    var k := ContentOf(h)(a);
    assert ContentOf(h)(b) == k;
    assert Class([a], ContentOf(h), k) == Class([a][..0], ContentOf(h), k) + [a] == [a];
    assert Class(items, ContentOf(h), k) == Class(items[..1], ContentOf(h), k) + [b];
    assert Class(items, ContentOf(h), k) == items;
    FunnelClasses(items, h);
    assert b in items;
    ClassMembers(items, FunnelKey(h), FunnelKey(h)(a));
    assert b !in Class(items, FunnelKey(h), FunnelKey(h)(a));
    forall i | 0 <= i < |Confirmed(items, h)| ensures Confirmed(items, h)[i] != items {
      assert Confirmed(items, h)[i][0] == a ==> b !in Confirmed(items, h)[i];
    }
  }

  lemma {:induction false} FunnelIsNaive(items: seq<Candidate>, h: Hasher)
    requires Coherent(items, h)
    ensures AreDuplicates(items, ContentOf(h), Confirmed(items, h))
  {
    FunnelClasses(items, h);
    var out := Confirmed(items, h);
    forall i | 0 <= i < |out| ensures out[i][0] in items && out[i] == Class(items, ContentOf(h), ContentOf(h)(out[i][0])) {
      ClassMembers(items, FunnelKey(h), FunnelKey(h)(out[i][0]));
      assert out[i][0] in out[i];
      SameClass(items, h, out[i][0]);
    }
    forall k | |Class(items, ContentOf(h), k)| >= 2 ensures Class(items, ContentOf(h), k) in out {
      var c := Class(items, ContentOf(h), k)[0];
      assert c in Class(items, ContentOf(h), k);
      ClassMembers(items, ContentOf(h), k);
      SameClass(items, h, c);
      assert |Class(items, FunnelKey(h), FunnelKey(h)(c))| >= 2;
    }
  }

  lemma {:induction false} NaiveIsCoherent(items: seq<Candidate>, h: Hasher)
    requires AreDuplicates(items, ContentOf(h), Confirmed(items, h))
    ensures Coherent(items, h)
  {
    FunnelClasses(items, h);
    var out := Confirmed(items, h);
    forall c, d | c in items && d in items && ContentOf(h)(c) == ContentOf(h)(d)
      ensures PartialOf(h)(c) == PartialOf(h)(d)
    {
      if c != d {
        var k := ContentOf(h)(c);
        var whole := Class(items, ContentOf(h), k);
        ClassMembers(items, ContentOf(h), k);
        assert c in whole && d in whole;
        TwoMembers(whole, c, d);
        var i :| 0 <= i < |out| && out[i] == whole;
        ClassMembers(items, FunnelKey(h), FunnelKey(h)(out[i][0]));
        assert FunnelKey(h)(c) == FunnelKey(h)(d);
      }
    }
  }

  lemma {:induction false} TwoMembers<T>(s: seq<T>, x: T, y: T)
    requires x in s && y in s && x != y
    ensures |s| >= 2
  {
  }

  /** What a reported group says of its members. */
  ghost predicate Describes(g: DuplicateGroup, h: Hasher, keeper: KeeperRule, members: seq<Candidate>)
  {
    && |members| >= 2 && |g.memberIds| == |members|
    && (forall j :: 0 <= j < |members| ==>
          g.memberIds[j] == members[j].id && g.size == members[j].size && g.fullHash == h.full(members[j].path))
    && g.reclaimableBytes + g.size == Bytes(members) && g.suggestedKeeperId == keeper(members).id
  }

  /** Every reported group has the size and the full hash of each of its members, lists them in order, takes the bytes of
      all but one copy for reclaimable, and suggests what the keeper rule picks. */
  lemma {:induction false} GroupsDescribe(items: seq<Candidate>, h: Hasher, keeper: KeeperRule, i: nat)
    requires i < |Confirmed(items, h)|
    ensures Describes(Reports(h, keeper, Confirmed(items, h))[i], h, keeper, Confirmed(items, h)[i])
  {
    var members := Confirmed(items, h)[i];
    FunnelClasses(items, h);
    ClassMembers(items, FunnelKey(h), FunnelKey(h)(members[0]));
    forall j | 0 <= j < |members|
      ensures members[j].size == members[0].size && h.full(members[j].path) == h.full(members[0].path)
    {
      assert members[j] in members;
    }
    BytesOfEqual(members, members[0].size);
    AllButOneCopy(members[0].size, |members|);
  }

  lemma {:induction false} AllButOneCopy(size: nat, n: nat)
    requires n > 0
    ensures size * (n - 1) + size == size * n
  {
  }

  // ---------------------------------------------------------------- bytes

  function Bytes(members: seq<Candidate>): nat
  {
    if members == [] then 0 else Bytes(members[..|members| - 1]) + members[|members| - 1].size
  }

  function Reclaimable(groups: seq<DuplicateGroup>): nat
  {
    if groups == [] then 0 else Reclaimable(groups[..|groups| - 1]) + groups[|groups| - 1].reclaimableBytes
  }

  /** One copy of each group. */
  function Kept(groups: seq<DuplicateGroup>): nat
  {
    if groups == [] then 0 else Kept(groups[..|groups| - 1]) + groups[|groups| - 1].size
  }

  lemma {:induction false} BytesAppend(a: seq<Candidate>, b: seq<Candidate>)
    ensures Bytes(a + b) == Bytes(a) + Bytes(b)
  {
    if b == [] {
      assert a + b == a;
    } else {
      assert (a + b)[..|a + b| - 1] == a + b[..|b| - 1];
      BytesAppend(a, b[..|b| - 1]);
    }
  }

  lemma {:induction false} BytesOfEqual(members: seq<Candidate>, size: nat)
    requires forall c :: c in members ==> c.size == size
    ensures Bytes(members) == size * |members|
  {
    if members != [] {
      BytesOfEqual(members[..|members| - 1], size);
      assert members[|members| - 1] in members;
    }
  }

  /** The reclaimable bytes are the bytes of all group members less one copy of each group. */
  lemma {:induction false} ReclaimableIsAllButOne(items: seq<Candidate>, h: Hasher, keeper: KeeperRule)
    ensures var groups := Reports(h, keeper, Confirmed(items, h));
            Reclaimable(groups) + Kept(groups) == Bytes(Flatten(Confirmed(items, h)))
  {
    FunnelClasses(items, h);
    var out := Confirmed(items, h);
    ReclaimablePrefix(items, h, keeper, out);
  }

  lemma {:induction false} ReclaimablePrefix(items: seq<Candidate>, h: Hasher, keeper: KeeperRule,
                                           out: seq<seq<Candidate>>)
    requires forall i :: 0 <= i < |out| ==>
               |out[i]| >= 2 && out[i] == Class(items, FunnelKey(h), FunnelKey(h)(out[i][0]))
    ensures var groups := Reports(h, keeper, out);
            Reclaimable(groups) + Kept(groups) == Bytes(Flatten(out))
    decreases |out|
  {
    if out != [] {
      var init, c := out[..|out| - 1], out[|out| - 1];
      assert forall i :: 0 <= i < |init| ==> init[i] == out[i];
      ReclaimablePrefix(items, h, keeper, init);
      OneMoreReclaims(items, h, keeper, init, c);
      assert out == init + [c];
    }
  }

  lemma {:induction false} OneMoreReclaims(items: seq<Candidate>, h: Hasher, keeper: KeeperRule,
                                         before: seq<seq<Candidate>>, c: seq<Candidate>)
    requires |c| >= 2 && c == Class(items, FunnelKey(h), FunnelKey(h)(c[0]))
    requires forall i :: 0 <= i < |before| ==> |before[i]| >= 2
    requires Reclaimable(Reports(h, keeper, before)) + Kept(Reports(h, keeper, before)) == Bytes(Flatten(before))
    ensures var groups := Reports(h, keeper, before + [c]);
            Reclaimable(groups) + Kept(groups) == Bytes(Flatten(before + [c]))
  {
    FlattenSnoc(before, c);
    BytesOfClass(items, h, keeper, c);
    BytesAppend(Flatten(before), c);
    ReportStep(h, keeper, before, c);
  }

  lemma {:induction false} ReportStep(h: Hasher, keeper: KeeperRule, classes: seq<seq<Candidate>>, c: seq<Candidate>)
    requires |c| >= 2 && forall i :: 0 <= i < |classes| ==> |classes[i]| >= 2
    ensures Reclaimable(Reports(h, keeper, classes + [c]))
         == Reclaimable(Reports(h, keeper, classes)) + Report(h, keeper, c).reclaimableBytes
    ensures Kept(Reports(h, keeper, classes + [c])) == Kept(Reports(h, keeper, classes)) + Report(h, keeper, c).size
  {
    var more := Reports(h, keeper, classes + [c]);
    assert more[..|more| - 1] == Reports(h, keeper, classes);
  }

  lemma {:induction false} BytesOfClass(items: seq<Candidate>, h: Hasher, keeper: KeeperRule, c: seq<Candidate>)
    requires |c| >= 2 && c == Class(items, FunnelKey(h), FunnelKey(h)(c[0]))
    ensures Bytes(c) == Report(h, keeper, c).reclaimableBytes + Report(h, keeper, c).size
  {
    ClassMembers(items, FunnelKey(h), FunnelKey(h)(c[0]));
    BytesOfEqual(c, c[0].size);
  }
}
