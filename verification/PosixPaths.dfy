/** POSIX path strings: the Python string operations the program uses on paths, and what they
    mean on canonical paths, where a path is a list of component names. */
module PosixPaths {

  /** `s.split("/")`: one part more than there are separators. */
  function Split(s: string): (parts: seq<string>)
    ensures |parts| >= 1
  {
    if s == "" then [""]
    else
      var rest := Split(s[1..]);
      if s[0] == '/' then [""] + rest else [[s[0]] + rest[0]] + rest[1..]
  }

  /** `"/".join(parts)`. */
  function JoinSlash(parts: seq<string>): string
  {
    if |parts| == 0 then ""
    else if |parts| == 1 then parts[0]
    else parts[0] + "/" + JoinSlash(parts[1..])
  }

  /** `s.rstrip("/")`. */
  function RStrip(s: string): string
  {
    if s != "" && s[|s| - 1] == '/' then RStrip(s[..|s| - 1]) else s
  }

  function LStrip(s: string): string
  {
    if s != "" && s[0] == '/' then LStrip(s[1..]) else s
  }

  /** `s.strip("/")`. */
  function Strip(s: string): string
  {
    LStrip(RStrip(s))
  }

  /** `s.count("/")`. */
  function CountSlash(s: string): nat
  {
    if s == "" then 0 else (if s[0] == '/' then 1 else 0) + CountSlash(s[1..])
  }

  /** `s.startswith(prefix)`. */
  predicate StartsWith(s: string, prefix: string)
  {
    prefix <= s
  }

  /** A file name: what one directory entry may be called. */
  predicate ValidName(n: string)
  {
    n != "" && '/' !in n && n != "." && n != ".."
  }

  predicate ValidNames(cs: seq<string>)
  {
    forall i :: 0 <= i < |cs| ==> ValidName(cs[i])
  }

  /** The canonical absolute path with components `cs`; the file-system root has none. */
  function Render(cs: seq<string>): string
  {
    "/" + JoinSlash(cs)
  }

  /** `os.path.join(dir, name)` as `os.scandir` forms an entry's path. */
  function Join(dir: string, name: string): string
  {
    if dir != "" && dir[|dir| - 1] == '/' then dir + name else dir + "/" + name
  }

  // ---------------------------------------------------------------- split and join

  lemma {:induction false} SplitPlain(n: string)
    requires '/' !in n
    ensures Split(n) == [n]
  {
    if n != "" {
      SplitPlain(n[1..]);
      assert [n[0]] + n[1..] == n;
    }
  }

  lemma {:induction false} SplitAppend(a: string, b: string)
    ensures Split(a + "/" + b) == Split(a) + Split(b)
  {
    if a == "" {
      assert (a + "/" + b)[1..] == b;
    } else {
      assert (a + "/" + b)[1..] == a[1..] + "/" + b;
      SplitAppend(a[1..], b);
    }
  }

  lemma {:induction false} SplitJoinSlash(cs: seq<string>)
    requires cs != [] && ValidNames(cs)
    ensures Split(JoinSlash(cs)) == cs
  {
    SplitPlain(cs[0]);
    if |cs| > 1 {
      SplitAppend(cs[0], JoinSlash(cs[1..]));
      SplitJoinSlash(cs[1..]);
    }
  }

  lemma {:induction false} JoinSlashAppend(a: seq<string>, b: seq<string>)
    requires a != [] && b != []
    ensures JoinSlash(a + b) == JoinSlash(a) + "/" + JoinSlash(b)
  {
    if |a| == 1 {
      assert (a + b)[1..] == b;
    } else {
      assert (a + b)[1..] == a[1..] + b;
      JoinSlashAppend(a[1..], b);
    }
  }

  /** Canonical paths are component lists: rendering loses nothing. */
  lemma {:induction false} RenderSplit(cs: seq<string>)
    requires ValidNames(cs)
    ensures Split(Render(cs)) == [""] + (if cs == [] then [""] else cs)
  {
    assert Render(cs) == "" + "/" + JoinSlash(cs);
    SplitAppend("", JoinSlash(cs));
    if cs != [] { SplitJoinSlash(cs); }
  }

  lemma {:induction false} RenderInjective(a: seq<string>, b: seq<string>)
    requires ValidNames(a) && ValidNames(b) && Render(a) == Render(b)
    ensures a == b
  {
    RenderSplit(a);
    RenderSplit(b);
    var ta, tb := if a == [] then [""] else a, if b == [] then [""] else b;
    assert ([""] + ta)[1..] == ta && ([""] + tb)[1..] == tb;
    assert a != [] ==> ValidName(a[0]);
    assert b != [] ==> ValidName(b[0]);
  }

  // ---------------------------------------------------------------- ends of a canonical path

  lemma {:induction false} JoinSlashEnds(cs: seq<string>)
    requires cs != [] && ValidNames(cs)
    ensures var s := JoinSlash(cs); s != "" && s[0] != '/' && s[|s| - 1] != '/'
  {
    assert ValidName(cs[0]);
    if |cs| > 1 { JoinSlashEnds(cs[1..]); }
  }

  lemma {:induction false} CountSlashAppend(a: string, b: string)
    ensures CountSlash(a + b) == CountSlash(a) + CountSlash(b)
  {
    if a == "" {
      assert a + b == b;
    } else {
      assert (a + b)[1..] == a[1..] + b;
      CountSlashAppend(a[1..], b);
    }
  }

  lemma {:induction false} CountSlashIsCount(s: string)
    ensures CountSlash(s) == multiset(s)['/']
  {
    if s != "" {
      CountSlashIsCount(s[1..]);
      assert s == [s[0]] + s[1..];
    }
  }

  lemma {:induction false} CountSlashPlain(n: string)
    requires '/' !in n
    ensures CountSlash(n) == 0
  {
    if n != "" { CountSlashPlain(n[1..]); }
  }

  lemma {:induction false} CountSlashJoin(cs: seq<string>)
    requires cs != [] && ValidNames(cs)
    ensures CountSlash(JoinSlash(cs)) == |cs| - 1
  {
    assert ValidName(cs[0]);
    CountSlashPlain(cs[0]);
    if |cs| > 1 {
      CountSlashJoin(cs[1..]);
      CountSlashAppend(cs[0] + "/", JoinSlash(cs[1..]));
      CountSlashAppend(cs[0], "/");
    }
  }

  /** The text a descendant's path must start with: `dir.rstrip("/") + "/"`. */
  function Below(dir: string): string
  {
    RStrip(dir) + "/"
  }

  lemma {:induction false} BelowRender(cs: seq<string>)
    requires ValidNames(cs)
    ensures RStrip(Render(cs)) == if cs == [] then "" else Render(cs)
  {
    if cs == [] {
      assert Render(cs) == "/";
      assert RStrip("/") == RStrip("");
    } else {
      JoinSlashEnds(cs);
      assert Render(cs)[|Render(cs)| - 1] == JoinSlash(cs)[|JoinSlash(cs)| - 1];
    }
  }

  lemma {:induction false} RenderUnder(ms: seq<string>, rs: seq<string>)
    requires ValidNames(ms) && rs != []
    ensures Render(ms + rs) == Below(Render(ms)) + JoinSlash(rs)
  {
    BelowRender(ms);
    if ms == [] {
      assert ms + rs == rs;
    } else {
      JoinSlashAppend(ms, rs);
    }
  }

  lemma {:induction false} SplitUnder(ms: seq<string>, t: string)
    requires ValidNames(ms)
    ensures Split(Below(Render(ms)) + t) == [""] + (ms + Split(t))
  {
    var base := RStrip(Render(ms));
    BelowRender(ms);
    RenderSplit(ms);
    SplitAppend(base, t);
    assert Below(Render(ms)) + t == base + "/" + t;
    if ms == [] {
      assert Split("") == [""] && ms + Split(t) == Split(t);
    } else {
      assert Split(base) == [""] + ms;
      assert [""] + ms + Split(t) == [""] + (ms + Split(t));
    }
  }

  lemma {:induction false} SameAfterHead(h: string, a: seq<string>, b: seq<string>)
    requires [h] + a == [h] + b
    ensures a == b
  {
    assert ([h] + a)[1..] == a && ([h] + b)[1..] == b;
  }

  /** The string prefix test is the component prefix test: no sibling such as `/a/bc` of `/a/b`. */
  lemma {:induction false} StartsBelow(ms: seq<string>, ps: seq<string>)
    requires ValidNames(ms) && ValidNames(ps)
    ensures ps != [] && StartsWith(Render(ps), Below(Render(ms))) <==> ms < ps
  {
    if ms < ps {
      assert ps == ms + ps[|ms|..];
      RenderUnder(ms, ps[|ms|..]);
    }
    if ps != [] && StartsWith(Render(ps), Below(Render(ms))) {
      var t := Render(ps)[|Below(Render(ms))|..];
      assert Render(ps) == Below(Render(ms)) + t;
      SplitUnder(ms, t);
      RenderSplit(ps);
      SameAfterHead("", ps, ms + Split(t));
    }
  }

  lemma {:induction false} StripLead(t: string)
    requires t != "" && t[0] != '/' && t[|t| - 1] != '/'
    ensures Strip(t) == t && Strip("/" + t) == t
  {
  }

  /** `Strip` of the text after the mount is the joined relative components. */
  lemma {:induction false} RelativePart(ms: seq<string>, rs: seq<string>)
    requires ValidNames(ms) && ValidNames(rs)
    ensures |Render(ms)| <= |Render(ms + rs)|
    ensures Strip(Render(ms + rs)[|Render(ms)|..]) == JoinSlash(rs)
  {
    if rs == [] {
      assert ms + rs == ms;
      assert Render(ms)[|Render(ms)|..] == "";
    } else {
      JoinSlashEnds(rs);
      BelowRender(ms);
      RenderUnder(ms, rs);
      StripLead(JoinSlash(rs));
      TailUnder(ms, JoinSlash(rs));
    }
  }

  lemma {:induction false} TailUnder(ms: seq<string>, t: string)
    requires RStrip(Render(ms)) == if ms == [] then "" else Render(ms)
    ensures (Below(Render(ms)) + t)[|Render(ms)|..] == if ms == [] then t else "/" + t
  {
  }

  lemma {:induction false} JoinRender(cs: seq<string>, name: string)
    requires ValidNames(cs)
    ensures Join(Render(cs), name) == Render(cs + [name])
  {
    BelowRender(cs);
    RenderUnder(cs, [name]);
    assert JoinSlash([name]) == name;
    if cs != [] {
      JoinSlashEnds(cs);
      assert Render(cs)[|Render(cs)| - 1] == JoinSlash(cs)[|JoinSlash(cs)| - 1];
    }
  }

  // ---------------------------------------------------------------- os.path.normpath

  /** One step of the component loop: `.` and empty parts vanish, `..` cancels its predecessor
      unless there is none to cancel. */
  function Fold(rooted: bool, acc: seq<string>, comp: string): seq<string>
  {
    if comp == "" || comp == "." then acc
    else if comp != ".." || (!rooted && acc == []) || (acc != [] && acc[|acc| - 1] == "..") then acc + [comp]
    else if acc != [] then acc[..|acc| - 1]
    else acc
  }

  function FoldAll(rooted: bool, acc: seq<string>, comps: seq<string>): seq<string>
    decreases comps
  {
    if comps == [] then acc else FoldAll(rooted, Fold(rooted, acc, comps[0]), comps[1..])
  }

  /** `os.path.normpath`; exactly two leading slashes are kept, as POSIX allows. */
  function NormPath(path: string): string
  {
    if path == "" then "."
    else
      var rooted := StartsWith(path, "/");
      var lead := if !rooted then "" else if StartsWith(path, "//") && !StartsWith(path, "///") then "//" else "/";
      var norm := lead + JoinSlash(FoldAll(rooted, [], Split(path)));
      if norm == "" then "." else norm
  }

  lemma {:induction false} FoldValid(rooted: bool, acc: seq<string>, comps: seq<string>)
    requires ValidNames(comps)
    ensures FoldAll(rooted, acc, comps) == acc + comps
    decreases comps
  {
    if comps == [] {
      assert acc + comps == acc;
    } else {
      assert ValidName(comps[0]);
      FoldValid(rooted, acc + [comps[0]], comps[1..]);
      assert acc + [comps[0]] + comps[1..] == acc + comps;
    }
  }

  lemma {:induction false} NormPathCanonical(cs: seq<string>)
    requires ValidNames(cs)
    ensures NormPath(Render(cs)) == Render(cs)
  {
    RenderSplit(cs);
    if cs == [] {
      assert FoldAll(true, [], ["", ""]) == FoldAll(true, [], [""]) == [];
    } else {
      JoinSlashEnds(cs);
      assert Render(cs)[1] == JoinSlash(cs)[0];
      assert !StartsWith(Render(cs), "//");
      assert ([""] + cs)[1..] == cs;
      assert FoldAll(true, [], [""] + cs) == FoldAll(true, [], cs);
      FoldValid(true, [], cs);
      assert [] + cs == cs;
    }
  }

  /** What folding does: empty parts and `.` vanish, a name followed by `..` cancels out, and where there is nothing to
      cancel `..` vanishes at the root and stays in a relative path. */
  lemma {:induction false} FoldLaws(rooted: bool, cs: seq<string>, name: string, rest: seq<string>)
    requires ValidNames(cs) && ValidName(name)
    ensures FoldAll(rooted, cs, [""] + rest) == FoldAll(rooted, cs, ["."] + rest) == FoldAll(rooted, cs, rest)
    ensures FoldAll(rooted, cs, [name, ".."] + rest) == FoldAll(rooted, cs, rest)
    ensures FoldAll(rooted, [], [".."] + rest) == FoldAll(rooted, if rooted then [] else [".."], rest)
    ensures FoldAll(false, [".."], [".."] + rest) == FoldAll(false, ["..", ".."], rest)
  {
    assert ([""] + rest)[1..] == rest && (["."] + rest)[1..] == rest && ([".."] + rest)[1..] == rest;
    assert ([name, ".."] + rest)[1..] == [".."] + rest;
    assert (cs + [name])[..|cs|] == cs;
    assert [] + [".."] == [".."] && [".."] + [".."] == ["..", ".."];
  }

  // ---------------------------------------------------------------- canonical strings

  /** The components of a canonical path. */
  function Comps(path: string): seq<string>
  {
    if path == "/" then [] else Split(path)[1..]
  }

  predicate Canonical(path: string)
  {
    ValidNames(Comps(path)) && path == Render(Comps(path))
  }

  lemma {:induction false} CanonicalRender(cs: seq<string>)
    requires ValidNames(cs)
    ensures Comps(Render(cs)) == cs && Canonical(Render(cs))
  {
    RenderSplit(cs);
    if cs != [] {
      JoinSlashEnds(cs);
      assert ([""] + cs)[1..] == cs;
    }
  }

  // ---------------------------------------------------------------- what normpath leaves

  lemma {:induction false} SplitHasNoSlash(s: string)
    ensures forall i :: 0 <= i < |Split(s)| ==> '/' !in Split(s)[i]
  {
    if s != "" { SplitHasNoSlash(s[1..]); }
  }

  /** Folding the parts of an absolute path leaves names only. */
  lemma {:induction false} FoldLeavesNames(acc: seq<string>, comps: seq<string>)
    requires ValidNames(acc) && forall i :: 0 <= i < |comps| ==> '/' !in comps[i]
    ensures ValidNames(FoldAll(true, acc, comps))
    decreases comps
  {
    if comps != [] { FoldLeavesNames(Fold(true, acc, comps[0]), comps[1..]); }
  }
}
