/** LIKE patterns with an escape character, and the escaping of a literal. */
module Like {
  import opened PosixPaths

  const ESCAPE: char := '\\'

  /** `s.replace(c, by)` for a one-character `c`. */
  function Replace(s: string, c: char, to: string): string
  {
    if s == "" then "" else (if s[0] == c then to else [s[0]]) + Replace(s[1..], c, to)
  }

  /** `escape_like`: three replacements, one after the other. */
  function EscapeLike(p: string): string
  {
    Replace(Replace(Replace(p, ESCAPE, [ESCAPE, ESCAPE]), '%', [ESCAPE, '%']), '_', [ESCAPE, '_'])
  }

  /** One pass: each metacharacter gets one escape character in front. */
  function EscapeEach(p: string): string
  {
    if p == "" then "" else EscapeChar(p[0]) + EscapeEach(p[1..])
  }

  function EscapeChar(c: char): string
  {
    if c == ESCAPE || c == '%' || c == '_' then [ESCAPE, c] else [c]
  }

  /** Whether `s` is LIKE `pat` with ESCAPE; `same` is the character comparison (equality for LIKE,
      equality up to case for ILIKE). A pattern that ends in a bare escape matches nothing. */
  predicate Matches(same: (char, char) -> bool, pat: string, s: string)
    decreases |pat| + |s|
  {
    if pat == "" then s == ""
    else if pat[0] == ESCAPE then |pat| >= 2 && s != "" && same(pat[1], s[0]) && Matches(same, pat[2..], s[1..])
    else if pat[0] == '%' then Matches(same, pat[1..], s) || (s != "" && Matches(same, pat, s[1..]))
    else if pat[0] == '_' then s != "" && Matches(same, pat[1..], s[1..])
    else s != "" && same(pat[0], s[0]) && Matches(same, pat[1..], s[1..])
  }

  predicate Equal(a: char, b: char)
  {
    a == b
  }

  lemma {:induction false} ReplaceAppend(a: string, b: string, c: char, to: string)
    ensures Replace(a + b, c, to) == Replace(a, c, to) + Replace(b, c, to)
  {
    if a == "" {
      assert a + b == b;
    } else {
      assert (a + b)[1..] == a[1..] + b;
      ReplaceAppend(a[1..], b, c, to);
    }
  }

  lemma {:induction false} ReplaceOne(x: char, c: char, to: string)
    ensures Replace([x], c, to) == if x == c then to else [x]
  {
  }

  /** The three passes are one pass: no pass touches what an earlier one inserted. */
  lemma {:induction false} EscapeIsPerCharacter(p: string)
    ensures EscapeLike(p) == EscapeEach(p)
  {
    if p != "" {
      EscapeIsPerCharacter(p[1..]);
      var c, rest := p[0], p[1..];
      var h1 := if c == ESCAPE then [ESCAPE, ESCAPE] else [c];
      var r1 := Replace(rest, ESCAPE, [ESCAPE, ESCAPE]);
      ReplaceAppend(h1, r1, '%', [ESCAPE, '%']);
      var h2 := Replace(h1, '%', [ESCAPE, '%']);
      ReplaceAppend(h2, Replace(r1, '%', [ESCAPE, '%']), '_', [ESCAPE, '_']);
      assert Replace(h2, '_', [ESCAPE, '_']) == EscapeChar(c) by {
        if c == ESCAPE {
          ReplacePair('%', [ESCAPE, '%']);
          ReplacePair('_', [ESCAPE, '_']);
        } else if c == '%' {
          ReplaceOne(c, '%', [ESCAPE, '%']);
          assert h2[1..] == [c];
          ReplaceOne(c, '_', [ESCAPE, '_']);
        } else {
          ReplaceOne(c, '%', [ESCAPE, '%']);
          ReplaceOne(c, '_', [ESCAPE, '_']);
        }
      }
    }
  }

  lemma {:induction false} ReplacePair(c: char, to: string)
    requires c != ESCAPE
    ensures Replace([ESCAPE, ESCAPE], c, to) == [ESCAPE, ESCAPE]
  {
    assert [ESCAPE, ESCAPE][1..] == [ESCAPE];
    ReplaceOne(ESCAPE, c, to);
  }

  /** `q` compares equal to the characters of `s` from position `i` on. */
  ghost predicate OccursAt(same: (char, char) -> bool, q: string, s: string, i: nat)
  {
    i + |q| <= |s| && forall k :: 0 <= k < |q| ==> same(q[k], s[i + k])
  }

  lemma {:induction false} OccursStep(same: (char, char) -> bool, q: string, s: string)
    requires q != "" && s != ""
    ensures OccursAt(same, q, s, 0) <==> same(q[0], s[0]) && OccursAt(same, q[1..], s[1..], 0)
  {
  }

  lemma {:induction false} EscapedStep(same: (char, char) -> bool, p: string, rest: string, s: string)
    requires p != ""
    ensures Matches(same, EscapeEach(p) + rest, s) <==>
            s != "" && same(p[0], s[0]) && Matches(same, EscapeEach(p[1..]) + rest, s[1..])
  {
    assert EscapeEach(p) + rest == EscapeChar(p[0]) + (EscapeEach(p[1..]) + rest);
    CharStep(same, p[0], EscapeEach(p[1..]) + rest, s);
  }

  lemma {:induction false} CharStep(same: (char, char) -> bool, c: char, next: string, s: string)
    ensures Matches(same, EscapeChar(c) + next, s) <==> s != "" && same(c, s[0]) && Matches(same, next, s[1..])
  {
  }

  /** An escaped literal consumes exactly a stretch of characters that compare equal to it. */
  lemma {:induction false} LiteralPrefix(same: (char, char) -> bool, p: string, rest: string, s: string)
    ensures Matches(same, EscapeEach(p) + rest, s) <==> OccursAt(same, p, s, 0) && Matches(same, rest, s[|p|..])
  {
    if p == "" {
      assert EscapeEach(p) + rest == rest && s[0..] == s;
    } else {
      EscapedStep(same, p, rest, s);
      if s != "" {
        LiteralPrefix(same, p[1..], rest, s[1..]);
        OccursStep(same, p, s);
        if |p| <= |s| { assert s[1..][|p[1..]|..] == s[|p|..]; }
      }
    }
  }

  lemma {:induction false} PercentMatchesAll(same: (char, char) -> bool, s: string)
    ensures Matches(same, "%", s)
  {
    assert "%"[1..] == "";
    if s != "" { PercentMatchesAll(same, s[1..]); }
  }

  /** The drill-down pattern is exact for any comparison of characters: it matches what starts with characters that
      compare equal to the literal and a slash. */
  lemma {:induction false} SubtreePatternUpTo(same: (char, char) -> bool, p: string, s: string)
    ensures Matches(same, EscapeLike(p) + "/%", s) <==> OccursAt(same, p + "/", s, 0)
  {
    EscapeIsPerCharacter(p);
    LiteralPrefix(same, p, "/%", s);
    assert "/%"[1..] == "%";
    if |p| < |s| {
      PercentMatchesAll(same, s[|p|..][1..]);
      assert s[|p|..][0] == s[|p|];
      OccursSnoc(same, p, '/', s);
    }
  }

  lemma {:induction false} OccursSnoc(same: (char, char) -> bool, p: string, c: char, s: string)
    requires |p| < |s|
    ensures OccursAt(same, p + [c], s, 0) <==> OccursAt(same, p, s, 0) && same(c, s[|p|])
  {
    var q := p + [c];
    if OccursAt(same, q, s, 0) {
      forall k | 0 <= k < |p| ensures same(p[k], s[0 + k]) { assert same(q[k], s[0 + k]); }
      assert same(q[|p|], s[0 + |p|]);
    }
    if OccursAt(same, p, s, 0) && same(c, s[|p|]) {
      forall k | 0 <= k < |q| ensures same(q[k], s[0 + k]) { assert k < |p| ==> same(p[k], s[0 + k]); }
    }
  }

  /** With exact comparison it matches what starts with the literal and a slash. */
  lemma {:induction false} SubtreePattern(p: string, s: string)
    ensures Matches(Equal, EscapeLike(p) + "/%", s) <==> StartsWith(s, p + "/")
  {
    SubtreePatternUpTo(Equal, p, s);
    if OccursAt(Equal, p + "/", s, 0) { assert s[..|p + "/"|] == p + "/"; }
  }

  lemma {:induction false} PercentSkips(same: (char, char) -> bool, rest: string, s: string)
    ensures Matches(same, "%" + rest, s) <==> exists i :: 0 <= i <= |s| && Matches(same, rest, s[i..])
  {
    assert ("%" + rest)[1..] == rest;
    assert s[0..] == s;
    if s != "" {
      PercentSkips(same, rest, s[1..]);
      assert forall i :: 0 <= i <= |s[1..]| ==> s[1..][i..] == s[i + 1..];
      if i :| 0 <= i <= |s| && Matches(same, rest, s[i..]) {
        if i > 0 { assert s[1..][i - 1..] == s[i..]; }
      }
    } else {
      assert forall i :: 0 <= i <= |s| ==> s[i..] == s;
    }
  }

  /** The search pattern is exact: it matches the strings in which the literal occurs. */
  lemma {:induction false} ContainsPattern(same: (char, char) -> bool, q: string, s: string)
    ensures Matches(same, "%" + EscapeLike(q) + "%", s) <==> exists i :: OccursAt(same, q, s, i)
  {
    EscapeIsPerCharacter(q);
    assert "%" + EscapeLike(q) + "%" == "%" + (EscapeEach(q) + "%");
    PercentSkips(same, EscapeEach(q) + "%", s);
    forall i | 0 <= i <= |s|
      ensures Matches(same, EscapeEach(q) + "%", s[i..]) <==> OccursAt(same, q, s, i)
    {
      LiteralPrefix(same, q, "%", s[i..]);
      if i + |q| <= |s| {
        PercentMatchesAll(same, s[i..][|q|..]);
        assert forall k :: 0 <= k < |q| ==> s[i..][k] == s[i + k];
      }
    }
  }
}
