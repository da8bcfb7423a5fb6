/** Choosing the least element of a list by a key that is compared item by item, as a tuple is. */
module Ordering {
  import opened PosixPaths

  predicate LexLess(a: seq<int>, b: seq<int>)
  {
    if b == [] then false
    else if a == [] then true
    else a[0] < b[0] || (a[0] == b[0] && LexLess(a[1..], b[1..]))
  }

  lemma {:induction false} Trichotomy(a: seq<int>, b: seq<int>)
    ensures LexLess(a, b) ==> !LexLess(b, a) && a != b
    ensures !LexLess(a, b) && !LexLess(b, a) ==> a == b
  {
    if a != [] && b != [] {
      Trichotomy(a[1..], b[1..]);
      assert a == [a[0]] + a[1..] && b == [b[0]] + b[1..];
    }
  }

  lemma {:induction false} LexTransitive(a: seq<int>, b: seq<int>, c: seq<int>)
    requires LexLess(a, b) && LexLess(b, c)
    ensures LexLess(a, c)
  {
    if a != [] && a[0] == b[0] == c[0] { LexTransitive(a[1..], b[1..], c[1..]); }
  }

  /** `min(s, key=rank)`: the first of the elements whose rank no other undercuts. */
  function FirstMin<T>(s: seq<T>, rank: T -> seq<int>): T
    requires s != []
  {
    var last := s[|s| - 1];
    if |s| == 1 then last
    else
      var m := FirstMin(s[..|s| - 1], rank);
      if LexLess(rank(last), rank(m)) then last else m
  }

  lemma {:induction false} Undercut(a: seq<int>, b: seq<int>, c: seq<int>)
    requires LexLess(a, b) && !LexLess(c, b)
    ensures !LexLess(c, a)
  {
    if LexLess(c, a) { LexTransitive(c, a, b); }
  }

  ghost predicate Least<T>(s: seq<T>, rank: T -> seq<int>, m: T)
  {
    m in s && forall x :: x in s ==> !LexLess(rank(x), rank(m))
  }

  lemma {:induction false} LeastOfSame<T>(s: seq<T>, t: seq<T>, rank: T -> seq<int>, m: T)
    requires forall x :: x in s <==> x in t
    ensures Least(s, rank, m) <==> Least(t, rank, m)
  {
  }

  lemma {:induction false} LeastOfMore<T>(s: seq<T>, rank: T -> seq<int>, m: T, last: T)
    requires Least(s, rank, m)
    ensures Least(s + [last], rank, if LexLess(rank(last), rank(m)) then last else m)
  {
    if LexLess(rank(last), rank(m)) {
      Trichotomy(rank(last), rank(last));
      forall x | x in s ensures !LexLess(rank(x), rank(last)) { Undercut(rank(last), rank(m), rank(x)); }
    }
  }

  lemma {:induction false} FirstMinIsLeast<T>(s: seq<T>, rank: T -> seq<int>)
    requires s != []
    ensures Least(s, rank, FirstMin(s, rank))
  {
    var init, last := s[..|s| - 1], s[|s| - 1];
    assert s == init + [last];
    if |s| == 1 {
      Trichotomy(rank(last), rank(last));
    } else {
      FirstMinIsLeast(init, rank);
      LeastOfMore(init, rank, FirstMin(init, rank), last);
    }
  }

  /** The first of equals is chosen. */
  lemma {:induction false} FirstMinHead<T>(s: seq<T>, rank: T -> seq<int>)
    requires s != [] && forall x :: x in s ==> !LexLess(rank(x), rank(s[0]))
    ensures FirstMin(s, rank) == s[0]
  {
    if |s| > 1 {
      assert s[|s| - 1] in s && forall x :: x in s[..|s| - 1] ==> x in s;
      FirstMinHead(s[..|s| - 1], rank);
    }
  }

  lemma {:induction false} FirstOfPair<T>(x: T, y: T, rank: T -> seq<int>)
    requires rank(x) == rank(y)
    ensures FirstMin([x, y], rank) == x
  {
    Trichotomy(rank(x), rank(y));
    assert [x, y][..1] == [x] && FirstMin([x], rank) == x;
  }

  /** With ranks that tell the elements apart, the choice does not depend on their order. */
  lemma {:induction false} FirstMinOfAnyOrder<T>(s: seq<T>, t: seq<T>, rank: T -> seq<int>)
    requires s != [] && forall x :: x in s <==> x in t
    requires forall x, y :: x in s && y in s && rank(x) == rank(y) ==> x == y
    ensures t != [] && FirstMin(s, rank) == FirstMin(t, rank)
  {
    assert s[0] in t;
    FirstMinIsLeast(s, rank);
    FirstMinIsLeast(t, rank);
    Trichotomy(rank(FirstMin(s, rank)), rank(FirstMin(t, rank)));
  }

  /** Of lists of one length, the one that is less where they first differ comes first. */
  lemma {:induction false} LessAtFirstDifference(a: seq<int>, b: seq<int>)
    requires |a| == |b|
    ensures LexLess(a, b) <==> exists i :: 0 <= i < |a| && a[..i] == b[..i] && a[i] < b[i]
  {
    if a != [] {
      LessAtFirstDifference(a[1..], b[1..]);
      if LexLess(a, b) {
        if a[0] < b[0] {
          assert a[..0] == b[..0];
        } else {
          var i :| 0 <= i < |a| - 1 && a[1..][..i] == b[1..][..i] && a[1..][i] < b[1..][i];
          assert a[..i + 1] == [a[0]] + a[1..][..i] == [b[0]] + b[1..][..i] == b[..i + 1];
        }
      }
      if i :| 0 <= i < |a| && a[..i] == b[..i] && a[i] < b[i] {
        if i > 0 {
          assert a[0] == a[..i][0] == b[..i][0] == b[0];
          assert a[1..][..i - 1] == a[..i][1..] == b[..i][1..] == b[1..][..i - 1];
          assert a[1..][i - 1] < b[1..][i - 1];
        }
      }
    }
  }

  /** The code points of a string. */
  function Codes(s: string): (r: seq<int>)
    ensures |r| == |s| && forall i :: 0 <= i < |s| ==> r[i] == s[i] as int
  {
    seq(|s|, i requires 0 <= i < |s| => s[i] as int)
  }

  lemma {:induction false} CodesInjective(s: string, t: string)
    requires Codes(s) == Codes(t)
    ensures s == t
  {
  }

  /** `s` comes before `t` by code points: it is less where they first differ. */
  ghost predicate Alphabetical(s: string, t: string)
  {
    exists i :: 0 <= i < |s| && i < |t| && s[..i] == t[..i] && s[i] < t[i]
  }

  lemma {:induction false} CodesAlphabetical(s: string, t: string)
    requires |s| == |t|
    ensures LexLess(Codes(s), Codes(t)) <==> Alphabetical(s, t)
  {
    LessAtFirstDifference(Codes(s), Codes(t));
    forall i | 0 <= i <= |s| ensures Codes(s)[..i] == Codes(t)[..i] <==> s[..i] == t[..i] {
      assert Codes(s)[..i] == Codes(s[..i]) && Codes(t)[..i] == Codes(t[..i]);
      if Codes(s)[..i] == Codes(t)[..i] { CodesInjective(s[..i], t[..i]); }
    }
  }
}
