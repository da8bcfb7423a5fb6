/** What a LIKE subtree pattern matches on real paths, for any comparison of characters that a database may use. */
module LikePaths {
  import opened PosixPaths
  import Like

  type Compare = (char, char) -> bool

  /** A comparison that a path column may have: a character equals itself, and the slash nothing else. Exact comparison
      and comparison up to case are such. */
  ghost predicate PathLike(same: Compare)
  {
    (forall c :: same(c, c)) && (forall a, b :: same(a, b) ==> (a == '/' <==> b == '/'))
  }

  /** Of equal length, and character by character the same. */
  ghost predicate Alike(same: Compare, a: string, b: string)
  {
    |a| == |b| && Like.OccursAt(same, a, b, 0)
  }

  lemma {:induction false} ExactIsPathLike()
    ensures PathLike(Like.Equal)
    ensures forall a, b :: Alike(Like.Equal, a, b) <==> a == b
  {
    forall a: string, b: string | Alike(Like.Equal, a, b) ensures a == b {
      assert forall k :: 0 <= k < |a| ==> Like.Equal(a[k], b[0 + k]);
    }
  }

  function Lower(c: char): char
  {
    if 'A' <= c <= 'Z' then c + 32 as char else c
  }

  /** Comparison up to the case of ASCII letters, as SQLite's LIKE has it. */
  predicate NoCase(a: char, b: char)
  {
    Lower(a) == Lower(b)
  }

  lemma {:induction false} NoCaseIsPathLike()
    ensures PathLike(NoCase)
    ensures forall a, b :: NoCase(a, b) <==>
              || a == b
              || ('A' <= a <= 'Z' && b as int == a as int + 32)
              || ('A' <= b <= 'Z' && a as int == b as int + 32)
  {
  }

  lemma {:induction false} CountAlike(same: Compare, a: string, b: string)
    requires PathLike(same) && Alike(same, a, b)
    ensures CountSlash(a) == CountSlash(b)
  {
    if a != "" {
      assert same(a[0], b[0 + 0]);
      assert forall k :: 0 <= k < |a[1..]| ==> a[1..][k] == a[k + 1] && b[1..][0 + k] == b[0 + (k + 1)];
      CountAlike(same, a[1..], b[1..]);
    }
  }

  lemma {:induction false} CountBelow(cs: seq<string>)
    requires ValidNames(cs)
    ensures CountSlash(Below(Render(cs))) == |cs| + 1
    ensures CountSlash(Render(cs)) == if cs == [] then 1 else |cs|
  {
    BelowRender(cs);
    assert CountSlash("/") == 1 by { assert "/"[1..] == ""; }
    if cs != [] {
      CountSlashJoin(cs);
      CountSlashAppend("/", JoinSlash(cs));
      CountSlashAppend(Render(cs), "/");
    }
  }

  /** A text that ends in a slash has one. */
  lemma {:induction false} CountEnding(s: string)
    requires s != "" && s[|s| - 1] == '/'
    ensures CountSlash(s) >= 1
  {
    assert s == s[..|s| - 1] + "/";
    CountSlashAppend(s[..|s| - 1], "/");
    assert "/"[1..] == "";
  }

  /** Two texts that begin alike, with as many slashes, and end in one, end at the same place. */
  lemma {:induction false} SameEnd(s: string, n: nat, m: nat)
    requires 1 <= n <= |s| && 1 <= m <= |s| && s[n - 1] == '/' && s[m - 1] == '/'
    requires CountSlash(s[..n]) == CountSlash(s[..m])
    ensures n == m
  {
    if n < m {
      assert s[..m] == s[..n] + s[n..m];
      CountSlashAppend(s[..n], s[n..m]);
      CountEnding(s[n..m]);
    } else if m < n {
      SameEnd(s, m, n);
    }
  }

  /** The pattern for what lies below `ds` matches the path `ps` exactly when `ps` is deeper and its first names, taken as
      a path, compare equal to `ds`. */
  lemma {:induction false} BelowPattern(same: Compare, ds: seq<string>, ps: seq<string>)
    requires PathLike(same) && ValidNames(ds) && ValidNames(ps) && ps != []
    ensures Like.Matches(same, Like.EscapeLike(RStrip(Render(ds))) + "/%", Render(ps))
       <==> |ds| < |ps| && Alike(same, Below(Render(ds)), Below(Render(ps[..|ds|])))
  {
    Like.SubtreePatternUpTo(same, RStrip(Render(ds)), Render(ps));
    var b := Below(Render(ds));
    CountBelow(ds);
    CountBelow(ps);
    if Like.OccursAt(same, b, Render(ps), 0) {
      var x := Render(ps)[..|b|];
      BeginsAlike(same, b, Render(ps));
      CountAlike(same, b, x);
      assert same(b[|b| - 1], x[0 + (|b| - 1)]);
      assert Render(ps) == x + Render(ps)[|b|..];
      CountSlashAppend(x, Render(ps)[|b|..]);
      DeepEnough(ds, ps, x);
    } else if |ds| < |ps| {
      FirstNames(ds, ps);
      var p := Below(Render(ps[..|ds|]));
      assert Render(ps)[..|p|] == p;
      if |b| <= |Render(ps)| { BeginsAlike(same, b, Render(ps)); }
    }
  }

  lemma {:induction false} BeginsAlike(same: Compare, b: string, s: string)
    requires |b| <= |s|
    ensures Like.OccursAt(same, b, s, 0) <==> Alike(same, b, s[..|b|])
  {
    if Like.OccursAt(same, b, s, 0) {
      forall k | 0 <= k < |b| ensures same(b[k], s[..|b|][0 + k]) { assert same(b[k], s[0 + k]); }
    }
    if Alike(same, b, s[..|b|]) {
      forall k | 0 <= k < |b| ensures same(b[k], s[0 + k]) { assert same(b[k], s[..|b|][0 + k]); }
    }
  }

  lemma {:induction false} FirstNames(ds: seq<string>, ps: seq<string>)
    requires ValidNames(ds) && ValidNames(ps) && |ds| < |ps|
    ensures StartsWith(Render(ps), Below(Render(ps[..|ds|])))
  {
    assert ps == ps[..|ds|] + ps[|ds|..];
    RenderUnder(ps[..|ds|], ps[|ds|..]);
  }

  /** A beginning of a path that ends in a slash and has one slash more than `ds` has names is its first names. */
  lemma {:induction false} DeepEnough(ds: seq<string>, ps: seq<string>, x: string)
    requires ValidNames(ds) && ValidNames(ps) && ps != []
    requires StartsWith(Render(ps), x) && x != "" && x[|x| - 1] == '/' && CountSlash(x) == |ds| + 1
    requires CountSlash(Render(ps)) >= CountSlash(x)
    ensures |ds| < |ps| && x == Below(Render(ps[..|ds|]))
  {
    CountBelow(ps);
    FirstNames(ds, ps);
    var p := Below(Render(ps[..|ds|]));
    CountBelow(ps[..|ds|]);
    assert Render(ps)[..|x|] == x && Render(ps)[..|p|] == p;
    assert p[|p| - 1] == '/';
    SameEnd(Render(ps), |x|, |p|);
  }

  /** Comparing with the trailing slash is comparing without. */
  lemma {:induction false} AlikeBelow(same: Compare, ds: seq<string>, qs: seq<string>)
    requires PathLike(same) && ValidNames(ds) && ValidNames(qs) && |ds| == |qs|
    ensures Alike(same, Below(Render(ds)), Below(Render(qs))) <==> Alike(same, Render(ds), Render(qs))
  {
    BelowRender(ds);
    BelowRender(qs);
    if ds == [] {
      assert ds == qs;
    } else {
      var a, b := Render(ds), Render(qs);
      if Alike(same, a, b) {
        forall k | 0 <= k < |a + "/"| ensures same((a + "/")[k], (b + "/")[0 + k]) {
          if k < |a| { assert same(a[k], b[0 + k]); }
        }
      }
      if Alike(same, a + "/", b + "/") {
        forall k | 0 <= k < |a| ensures same(a[k], b[0 + k]) { assert same((a + "/")[k], (b + "/")[0 + k]); }
      }
    }
  }
}
