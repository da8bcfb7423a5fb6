/** Grouping by a key, as an insertion-ordered dictionary of lists does it. */
module Grouping {
  import opened Lists

  datatype Group<T, K> = Group(key: K, members: seq<T>)

  /** The items with key `k`, in order. */
  function Class<T, K(==)>(items: seq<T>, key: T -> K, k: K): seq<T>
  {
    if items == [] then []
    else
      var last := items[|items| - 1];
      Class(items[..|items| - 1], key, k) + if key(last) == k then [last] else []
  }

  lemma {:induction false} ClassHead<T, K>(items: seq<T>, key: T -> K, k: K)
    requires items != [] && key(items[0]) == k
    ensures Class(items, key, k) != [] && Class(items, key, k)[0] == items[0]
  {
    if |items| > 1 { ClassHead(items[..|items| - 1], key, k); }
  }

  /** The keys, each where it first occurs. */
  function Keys<T, K(==)>(items: seq<T>, key: T -> K): seq<K>
  {
    if items == [] then []
    else
      var before := Keys(items[..|items| - 1], key);
      var k := key(items[|items| - 1]);
      if k in before then before else before + [k]
  }

  lemma {:induction false} ClassSnoc<T, K>(items: seq<T>, x: T, key: T -> K, k: K)
    ensures Class(items + [x], key, k) == Class(items, key, k) + if key(x) == k then [x] else []
    ensures key(x) != k ==> Class(items + [x], key, k) == Class(items, key, k)
  {
    assert (items + [x])[..|items|] == items;
  }

  lemma {:induction false} KeysSnoc<T, K>(items: seq<T>, x: T, key: T -> K)
    ensures Keys(items + [x], key) == if key(x) in Keys(items, key) then Keys(items, key) else Keys(items, key) + [key(x)]
  {
    assert (items + [x])[..|items|] == items;
  }

  ghost predicate AreGroups<T, K>(items: seq<T>, key: T -> K, groups: seq<Group<T, K>>)
  {
    var keys := Keys(items, key);
    |groups| == |keys| && forall i :: 0 <= i < |keys| ==> groups[i] == Group(keys[i], Class(items, key, keys[i]))
  }

  lemma {:induction false} ClassMembers<T, K>(items: seq<T>, key: T -> K, k: K)
    ensures forall x :: x in Class(items, key, k) <==> x in items && key(x) == k
  {
    if items != [] {
      var init, last := items[..|items| - 1], items[|items| - 1];
      ClassMembers(init, key, k);
      assert items == init + [last];
      assert forall x :: x in items <==> x in init || x == last;
    }
  }

  lemma {:induction false} ClassEmpty<T, K>(items: seq<T>, key: T -> K, k: K)
    ensures Class(items, key, k) == [] <==> k !in Keys(items, key)
  {
    if items != [] { ClassEmpty(items[..|items| - 1], key, k); }
  }

  lemma {:induction false} KeysExact<T, K>(items: seq<T>, key: T -> K)
    ensures forall i, j :: 0 <= i < j < |Keys(items, key)| ==> Keys(items, key)[i] != Keys(items, key)[j]
    ensures forall k :: k in Keys(items, key) <==> exists i :: 0 <= i < |items| && key(items[i]) == k
  {
    if items != [] {
      var init, last := items[..|items| - 1], items[|items| - 1];
      KeysExact(init, key);
      forall k ensures k in Keys(items, key) <==> exists i :: 0 <= i < |items| && key(items[i]) == k {
        if i :| 0 <= i < |items| && key(items[i]) == k {
          if i < |init| { assert key(init[i]) == k; }
        }
        if k in Keys(init, key) {
          var i :| 0 <= i < |init| && key(init[i]) == k;
          assert key(items[i]) == k;
        } else if k == key(last) {
          assert key(items[|items| - 1]) == k;
        }
      }
    }
  }

  /** Both keys at once. */
  function Both<T, A, B>(f: T -> A, g: T -> B): T -> (A, B)
  {
    x => (f(x), g(x))
  }

  /** Grouping a class again is grouping by both keys at once. */
  lemma {:induction false} ClassOfClass<T, A, B>(items: seq<T>, f: T -> A, a: A, g: T -> B, b: B)
    ensures Class(Class(items, f, a), g, b) == Class(items, Both(f, g), (a, b))
  {
    if items != [] {
      var init, last := items[..|items| - 1], items[|items| - 1];
      ClassOfClass(init, f, a, g, b);
      if f(last) == a {
        var c := Class(init, f, a);
        assert (c + [last])[..|c|] == c;
      } else {
        assert Class(init, f, a) + [] == Class(init, f, a);
      }
    }
  }

  lemma {:induction false} ClassSize<T, K>(items: seq<T>, key: T -> K, k: K)
    ensures |Class(items, key, k)| <= |items|
  {
    if items != [] { ClassSize(items[..|items| - 1], key, k); }
  }

  /** The grouping loop: append to the list of the item's key, making it on first sight. */
  method GroupBy<T, K(==)>(items: seq<T>, key: T -> K) returns (groups: seq<Group<T, K>>)
    ensures AreGroups(items, key, groups)
  {
    groups := [];
    var index: map<K, nat> := map[];
    for i := 0 to |items|
      invariant AreGroups(items[..i], key, groups)
      invariant forall k :: k in index <==> k in Keys(items[..i], key)
      invariant forall k :: k in index ==> index[k] < |groups| && groups[index[k]].key == k
    {
      var x := items[i];
      var k := key(x);
      GroupStep(items[..i], key, groups, x);
      assert items[..i + 1] == items[..i] + [x];
      assert items[..i + 1][..i] == items[..i];
      if k in index {
        var g := groups[index[k]];
        groups := groups[index[k] := g.(members := g.members + [x])];
      } else {
        index := index[k := |groups|];
        groups := groups + [Group(k, [x])];
      }
    }
    assert items[..|items|] == items;
  }

  /** What one more item does to the groups. */
  lemma {:induction false} GroupStep<T, K>(items: seq<T>, key: T -> K, groups: seq<Group<T, K>>, x: T)
    requires AreGroups(items, key, groups)
    ensures key(x) !in Keys(items, key) ==> AreGroups(items + [x], key, groups + [Group(key(x), [x])])
    ensures forall p :: 0 <= p < |groups| && groups[p].key == key(x) ==>
              AreGroups(items + [x], key, groups[p := groups[p].(members := groups[p].members + [x])])
  {
    KeysSnoc(items, x, key);
    if key(x) !in Keys(items, key) { NewGroup(items, key, groups, x); }
    forall p | 0 <= p < |groups| && groups[p].key == key(x)
      ensures AreGroups(items + [x], key, groups[p := groups[p].(members := groups[p].members + [x])])
    {
      LargerGroup(items, key, groups, x, p);
    }
  }

  lemma {:induction false} NewGroup<T, K>(items: seq<T>, key: T -> K, groups: seq<Group<T, K>>, x: T)
    requires AreGroups(items, key, groups) && key(x) !in Keys(items, key)
    ensures AreGroups(items + [x], key, groups + [Group(key(x), [x])])
  {
    var keys := Keys(items, key);
    KeysSnoc(items, x, key);
    forall i | 0 <= i < |keys| ensures Class(items + [x], key, keys[i]) == Class(items, key, keys[i]) {
      ClassSnoc(items, x, key, keys[i]);
    }
    ClassSnoc(items, x, key, key(x));
    ClassEmpty(items, key, key(x));
  }

  lemma {:induction false} LargerGroup<T, K>(items: seq<T>, key: T -> K, groups: seq<Group<T, K>>, x: T, p: nat)
    requires AreGroups(items, key, groups) && p < |groups| && groups[p].key == key(x)
    ensures AreGroups(items + [x], key, groups[p := groups[p].(members := groups[p].members + [x])])
  {
    var keys := Keys(items, key);
    KeysSnoc(items, x, key);
    KeysExact(items, key);
    assert keys[p] == key(x) && key(x) in keys;
    forall i | 0 <= i < |keys|
      ensures Class(items + [x], key, keys[i]) == Class(items, key, keys[i]) + if i == p then [x] else []
    {
      ClassSnoc(items, x, key, keys[i]);
      if i != p { assert keys[i] != keys[p]; }
    }
  }

  // ---------------------------------------------------------------- duplicates

  /** `out` lists, each once, exactly the key classes with at least two members. */
  ghost predicate AreDuplicates<T(!new), K(!new)>(items: seq<T>, key: T -> K, out: seq<seq<T>>)
  {
    && (forall i :: 0 <= i < |out| ==> |out[i]| >= 2 && out[i] == Class(items, key, key(out[i][0])))
    && (forall i, j :: 0 <= i < j < |out| ==> key(out[i][0]) != key(out[j][0]))
    && (forall k :: |Class(items, key, k)| >= 2 ==> Class(items, key, k) in out)
  }

  /** The classes of `keys` that have at least two members, in the order of `keys`. */
  function RepeatsOf<T, K(==)>(items: seq<T>, key: T -> K, keys: seq<K>): (out: seq<seq<T>>)
    ensures forall i :: 0 <= i < |out| ==> |out[i]| >= 2
  {
    if keys == [] then []
    else
      var c := Class(items, key, keys[|keys| - 1]);
      RepeatsOf(items, key, keys[..|keys| - 1]) + if |c| >= 2 then [c] else []
  }

  function Repeats<T, K(==)>(items: seq<T>, key: T -> K): (out: seq<seq<T>>)
    ensures forall i :: 0 <= i < |out| ==> |out[i]| >= 2
  {
    RepeatsOf(items, key, Keys(items, key))
  }

  lemma {:induction false} OneMoreGroup<T, K>(items: seq<T>, key: T -> K, groups: seq<Group<T, K>>, i: nat)
    requires AreGroups(items, key, groups) && i < |groups|
    ensures i < |Keys(items, key)|
    ensures var keys := Keys(items, key); var c := groups[i].members;
            RepeatsOf(items, key, keys[..i + 1]) == if |c| < 2 then RepeatsOf(items, key, keys[..i])
                                                    else RepeatsOf(items, key, keys[..i]) + [c]
  {
    var keys := Keys(items, key);
    assert keys[..i + 1][..i] == keys[..i];
    assert groups[i] == Group(keys[i], Class(items, key, keys[i]));
  }

  /** The loop that groups the items and keeps the groups of two or more. */
  method Repeating<T, K(==)>(items: seq<T>, key: T -> K) returns (out: seq<seq<T>>)
    ensures out == Repeats(items, key)
  {
    var groups := GroupBy(items, key);
    ghost var keys := Keys(items, key);
    out := [];
    for i := 0 to |groups|
      invariant |groups| == |keys| && out == RepeatsOf(items, key, keys[..i])
    {
      OneMoreGroup(items, key, groups, i);
      if |groups[i].members| < 2 { continue; }
      out := out + [groups[i].members];
    }
    assert keys[..|groups|] == keys;
  }

  /** Each class split again by another key. */
  function Refine<T, K(==)>(classes: seq<seq<T>>, key: T -> K): (out: seq<seq<T>>)
    ensures forall i :: 0 <= i < |out| ==> |out[i]| >= 2
  {
    if classes == [] then []
    else Refine(classes[..|classes| - 1], key) + Repeats(classes[|classes| - 1], key)
  }

  ghost predicate RepeatsSoFar<T(!new), K(!new)>(items: seq<T>, key: T -> K, keys: seq<K>, out: seq<seq<T>>)
  {
    && (forall i :: 0 <= i < |out| ==>
          |out[i]| >= 2 && out[i] == Class(items, key, key(out[i][0])) && key(out[i][0]) in keys)
    && (forall i, j :: 0 <= i < j < |out| ==> key(out[i][0]) != key(out[j][0]))
    && (forall k :: k in keys && |Class(items, key, k)| >= 2 ==> Class(items, key, k) in out)
  }

  lemma {:induction false} RepeatsStep<T(!new), K(!new)>(items: seq<T>, key: T -> K, keys: seq<K>)
    requires forall i, j :: 0 <= i < j < |keys| ==> keys[i] != keys[j]
    ensures RepeatsSoFar(items, key, keys, RepeatsOf(items, key, keys))
    decreases |keys|
  {
    if keys != [] {
      var init, k := keys[..|keys| - 1], keys[|keys| - 1];
      RepeatsStep(items, key, init);
      ClassMembers(items, key, k);
      assert keys == init + [k];
      var out := RepeatsOf(items, key, keys);
      assert |Class(items, key, k)| >= 2 ==> out[|out| - 1] == Class(items, key, k) && key(out[|out| - 1][0]) == k;
    }
  }

  lemma {:induction false} RepeatsAreDuplicates<T(!new), K(!new)>(items: seq<T>, key: T -> K)
    ensures AreDuplicates(items, key, Repeats(items, key))
  {
    KeysExact(items, key);
    RepeatsStep(items, key, Keys(items, key));
    forall k | |Class(items, key, k)| >= 2 ensures Class(items, key, k) in Repeats(items, key) {
      ClassEmpty(items, key, k);
    }
  }

  ghost predicate RefinedSoFar<T(!new), A(!new), B(!new)>(items: seq<T>, f: T -> A, g: T -> B,
                                                        classes: seq<seq<T>>, out: seq<seq<T>>)
    requires forall i :: 0 <= i < |classes| ==> |classes[i]| >= 2
  {
    && (forall i :: 0 <= i < |out| ==>
          |out[i]| >= 2 && out[i] == Class(items, Both(f, g), Both(f, g)(out[i][0]))
          && exists j :: 0 <= j < |classes| && f(classes[j][0]) == f(out[i][0]))
    && (forall i, j :: 0 <= i < j < |out| ==> Both(f, g)(out[i][0]) != Both(f, g)(out[j][0]))
    && (forall j, b :: 0 <= j < |classes| && |Class(classes[j], g, b)| >= 2 ==> Class(classes[j], g, b) in out)
  }

  /** Different classes of `items`, each of two or more. */
  ghost predicate PartsOf<T(!new), A(!new)>(items: seq<T>, f: T -> A, classes: seq<seq<T>>)
  {
    && (forall i :: 0 <= i < |classes| ==> |classes[i]| >= 2 && classes[i] == Class(items, f, f(classes[i][0])))
    && (forall i, j :: 0 <= i < j < |classes| ==> f(classes[i][0]) != f(classes[j][0]))
  }

  lemma {:induction false} PartsInit<T(!new), A(!new)>(items: seq<T>, f: T -> A, init: seq<seq<T>>, c: seq<T>)
    requires PartsOf(items, f, init + [c])
    ensures PartsOf(items, f, init) && |c| >= 2 && c == Class(items, f, f(c[0]))
    ensures forall i :: 0 <= i < |init| ==> f(init[i][0]) != f(c[0])
  {
    var classes := init + [c];
    assert classes[|init|] == c && forall i :: 0 <= i < |init| ==> classes[i] == init[i];
  }

  lemma {:induction false} RefineSteps<T(!new), A(!new), B(!new)>(items: seq<T>, f: T -> A, g: T -> B,
                                                                classes: seq<seq<T>>)
    requires PartsOf(items, f, classes)
    ensures RefinedSoFar(items, f, g, classes, Refine(classes, g))
    decreases |classes|
  {
    if classes != [] {
      var init, c := classes[..|classes| - 1], classes[|classes| - 1];
      assert classes == init + [c];
      PartsInit(items, f, init, c);
      RefineSteps(items, f, g, init);
      RefineOne(items, f, g, init, c);
      assert Refine(classes, g) == Refine(init, g) + Repeats(c, g);
    }
  }

  lemma {:induction false} RefineOne<T(!new), A(!new), B(!new)>(items: seq<T>, f: T -> A, g: T -> B,
                                                              init: seq<seq<T>>, c: seq<T>)
    requires |c| >= 2 && c == Class(items, f, f(c[0]))
    requires forall i :: 0 <= i < |init| ==> |init[i]| >= 2 && f(init[i][0]) != f(c[0])
    requires RefinedSoFar(items, f, g, init, Refine(init, g))
    ensures RefinedSoFar(items, f, g, init + [c], Refine(init, g) + Repeats(c, g))
  {
    RepeatsAreDuplicates(c, g);
    PartOfClass(items, f, g, c, Repeats(c, g));
    RefinedBoth(items, f, g, init, c, Refine(init, g), Repeats(c, g));
  }

  lemma {:induction false} PartOfClass<T(!new), A(!new), B(!new)>(items: seq<T>, f: T -> A, g: T -> B, c: seq<T>,
                                                                parts: seq<seq<T>>)
    requires |c| >= 2 && c == Class(items, f, f(c[0]))
    requires AreDuplicates(c, g, parts)
    ensures forall i :: 0 <= i < |parts| ==>
              parts[i] == Class(items, Both(f, g), Both(f, g)(parts[i][0])) && f(parts[i][0]) == f(c[0])
  {
    ClassMembers(items, f, f(c[0]));
    forall i | 0 <= i < |parts|
      ensures parts[i] == Class(items, Both(f, g), Both(f, g)(parts[i][0])) && f(parts[i][0]) == f(c[0])
    {
      ClassMembers(c, g, g(parts[i][0]));
      assert parts[i][0] in parts[i];
      ClassOfClass(items, f, f(c[0]), g, g(parts[i][0]));
    }
  }

  lemma {:induction false} RefinedBoth<T(!new), A(!new), B(!new)>(items: seq<T>, f: T -> A, g: T -> B,
                                                                init: seq<seq<T>>, c: seq<T>,
                                                                before: seq<seq<T>>, more: seq<seq<T>>)
    requires |c| >= 2 && forall i :: 0 <= i < |init| ==> |init[i]| >= 2 && f(init[i][0]) != f(c[0])
    requires RefinedSoFar(items, f, g, init, before)
    requires AreDuplicates(c, g, more)
    requires forall i :: 0 <= i < |more| ==>
               more[i] == Class(items, Both(f, g), Both(f, g)(more[i][0])) && f(more[i][0]) == f(c[0])
    ensures RefinedSoFar(items, f, g, init + [c], before + more)
  {
    var classes, out := init + [c], before + more;
    forall i | 0 <= i < |out| ensures exists j :: 0 <= j < |classes| && f(classes[j][0]) == f(out[i][0]) {
      if i < |before| {
        var j :| 0 <= j < |init| && f(init[j][0]) == f(before[i][0]);
        assert classes[j] == init[j];
      } else {
        assert classes[|init|] == c;
      }
    }
  }

  /** Splitting the duplicates of one key by a second key leaves the duplicates of both. */
  lemma {:induction false} RefineAreDuplicates<T(!new), A(!new), B(!new)>(items: seq<T>, f: T -> A, g: T -> B,
                                                                        classes: seq<seq<T>>)
    requires AreDuplicates(items, f, classes)
    ensures AreDuplicates(items, Both(f, g), Refine(classes, g))
  {
    RefineSteps(items, f, g, classes);
    var out := Refine(classes, g);
    forall k | |Class(items, Both(f, g), k)| >= 2 ensures Class(items, Both(f, g), k) in out {
      var whole := Class(items, f, k.0);
      ClassOfClass(items, f, k.0, g, k.1);
      ClassSize(whole, g, k.1);
      assert whole in classes;
      var j :| 0 <= j < |classes| && classes[j] == whole;
      assert |Class(classes[j], g, k.1)| >= 2;
    }
  }

  // ---------------------------------------------------------------- how often an item occurs

  lemma {:induction false} RefineAppend<T, K>(a: seq<seq<T>>, b: seq<seq<T>>, key: T -> K)
    ensures Refine(a + b, key) == Refine(a, key) + Refine(b, key)
  {
    if b == [] {
      assert a + b == a;
    } else {
      var init, c := b[..|b| - 1], b[|b| - 1];
      RefineAppend(a, init, key);
      assert (a + b)[..|a + b| - 1] == a + init && (a + b)[|a + b| - 1] == c;
      Assoc(Refine(a, key), Refine(init, key), Repeats(c, key));
    }
  }

  lemma {:induction false} RefineStep<T, K>(classes: seq<seq<T>>, i: nat, key: T -> K)
    requires i < |classes|
    ensures Refine(classes[..i + 1], key) == Refine(classes[..i], key) + Repeats(classes[i], key)
  {
    assert classes[..i + 1][..i] == classes[..i];
  }

  lemma {:induction false} ClassCount<T, K>(items: seq<T>, key: T -> K, k: K, x: T)
    ensures multiset(Class(items, key, k))[x] == if key(x) == k then multiset(items)[x] else 0
  {
    if items != [] {
      var init, last := items[..|items| - 1], items[|items| - 1];
      ClassCount(init, key, k, x);
      assert items == init + [last];
    }
  }

  /** Together the duplicate classes hold an item as often as the input does, or not at all. */
  lemma {:induction false} DuplicatesCount<T(!new), K(!new)>(items: seq<T>, key: T -> K, out: seq<seq<T>>, x: T)
    requires AreDuplicates(items, key, out)
    ensures multiset(Flatten(out))[x] == if |Class(items, key, key(x))| >= 2 then multiset(items)[x] else 0
  {
    CountPrefix(items, key, out, |out|, x);
    assert out[..|out|] == out;
    if |Class(items, key, key(x))| >= 2 {
      var i :| 0 <= i < |out| && out[i] == Class(items, key, key(x));
      ClassMembers(items, key, key(x));
      assert out[i][0] in out[i];
      assert Listed(key, out, |out|, key(x));
    }
  }

  ghost predicate Listed<T, K>(key: T -> K, out: seq<seq<T>>, n: nat, k: K)
    requires n <= |out| && forall i :: 0 <= i < |out| ==> |out[i]| >= 2
  {
    exists i :: 0 <= i < n && key(out[i][0]) == k
  }

  lemma {:induction false} ListedStep<T, K>(key: T -> K, out: seq<seq<T>>, n: nat, k: K)
    requires 0 < n <= |out| && forall i :: 0 <= i < |out| ==> |out[i]| >= 2
    requires forall i, j :: 0 <= i < j < |out| ==> key(out[i][0]) != key(out[j][0])
    ensures key(out[n - 1][0]) == k ==> Listed(key, out, n, k) && !Listed(key, out, n - 1, k)
    ensures key(out[n - 1][0]) != k ==> (Listed(key, out, n, k) <==> Listed(key, out, n - 1, k))
  {
  }

  lemma {:induction false} CountPrefix<T(!new), K(!new)>(items: seq<T>, key: T -> K, out: seq<seq<T>>, n: nat, x: T)
    requires AreDuplicates(items, key, out) && n <= |out|
    ensures multiset(Flatten(out[..n]))[x] == if Listed(key, out, n, key(x)) then multiset(items)[x] else 0
  {
    if n > 0 {
      var c := out[n - 1];
      CountPrefix(items, key, out, n - 1, x);
      ListedStep(key, out, n, key(x));
      ClassCount(items, key, key(c[0]), x);
      FlattenCount(out, n, x);
    }
  }

  lemma {:induction false} FlattenCount<T>(out: seq<seq<T>>, n: nat, x: T)
    requires 0 < n <= |out|
    ensures multiset(Flatten(out[..n]))[x] == multiset(Flatten(out[..n - 1]))[x] + multiset(out[n - 1])[x]
  {
    FlattenStep(out, n - 1);
    CountJoin(Flatten(out[..n - 1]), out[n - 1], x);
  }

  lemma {:induction false} CountJoin<T>(a: seq<T>, b: seq<T>, x: T)
    ensures multiset(a + b)[x] == multiset(a)[x] + multiset(b)[x]
  {
  }
}
