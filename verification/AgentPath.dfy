/** Paths that an agent sends, as the server vets them (`security/paths.py`, `ingest.py`): what the validator lets
    through, and when one path lies within another. */
module AgentPath {
  import opened Lists
  import opened PosixPaths
  import opened Catalogue

  /** A normalised absolute path. `normpath` keeps exactly two leading slashes, and such a path has a root of its own. */
  datatype Path = Path(double: bool, names: seq<string>)

  function Text(p: Path): string
  {
    (if p.double then "//" else "/") + JoinSlash(p.names)
  }

  /** `validate_config_path`: empty, relative and NUL-carrying paths are refused, every other one is normalised. (A
      Windows-shaped string does not begin with a slash; whichever validator it meets, it is not within a POSIX mount.) */
  function Validate(text: string): Option<Path>
  {
    if text == "" || '\0' in text || !StartsWith(text, "/") then None
    else Some(Path(StartsWith(text, "//") && !StartsWith(text, "///"), FoldAll(true, [], Split(text))))
  }

  /** `candidate == mount or mount in candidate.parents`. */
  predicate Within(mount: Path, p: Path)
  {
    p == mount || (p.double == mount.double && mount.names < p.names)
  }

  function Depth(mount: Path, p: Path): int
  {
    |p.names| - |mount.names|
  }

  /** What the validator returns is `normpath` of the text, and made of names. */
  lemma {:induction false} ValidateNormalises(text: string)
    ensures Validate(text).Some? <==> StartsWith(text, "/") && '\0' !in text
    ensures Validate(text).Some? ==> ValidNames(Validate(text).value.names) && Text(Validate(text).value) == NormPath(text)
  {
    SplitHasNoSlash(text);
    FoldLeavesNames([], Split(text));
  }

  lemma {:induction false} TextInjective(p: Path, q: Path)
    requires ValidNames(p.names) && ValidNames(q.names) && Text(p) == Text(q)
    ensures p == q
  {
    if p.names != [] { JoinSlashEnds(p.names); }
    if q.names != [] { JoinSlashEnds(q.names); }
    assert p.double ==> Text(p)[1] == '/';
    assert q.double ==> Text(q)[1] == '/';
    assert !p.double && p.names != [] ==> Text(p)[1] == JoinSlash(p.names)[0];
    assert !q.double && q.names != [] ==> Text(q)[1] == JoinSlash(q.names)[0];
    assert p.double == q.double;
    assert JoinSlash(p.names) == Text(p)[if p.double then 2 else 1..] == JoinSlash(q.names);
    assert Render(p.names) == Render(q.names);
    RenderInjective(p.names, q.names);
  }

  /** A normalised path is canonical exactly when it has a single leading slash. */
  lemma {:induction false} CanonicalIffSingle(p: Path)
    requires ValidNames(p.names)
    ensures Canonical(Text(p)) <==> !p.double
  {
    if !p.double {
      assert Text(p) == Render(p.names);
      CanonicalRender(p.names);
    } else if Canonical(Text(p)) {
      var cs := Comps(Text(p));
      TextInjective(p, Path(false, cs));
    }
  }

  /** Leading empty parts do not count. */
  lemma {:induction false} FoldSkipsEmpty(comps: seq<string>)
    ensures FoldAll(true, [], [""] + comps) == FoldAll(true, [], comps)
  {
    assert ([""] + comps)[1..] == comps;
  }

  lemma {:induction false} SplitOfNames(names: seq<string>)
    requires ValidNames(names)
    ensures FoldAll(true, [], Split("/" + JoinSlash(names))) == names
  {
    RenderSplit(names);
    var tail := if names == [] then [""] else names;
    assert Render(names) == "/" + JoinSlash(names);
    FoldSkipsEmpty(tail);
    FoldValid(true, [], names);
    assert [] + names == names;
    if names == [] {
      FoldSkipsEmpty([]);
      assert [""] + [] == tail;
    }
  }

  /** A path that is already normalised comes back as it is. */
  lemma {:induction false} ValidateKeeps(p: Path)
    requires ValidNames(p.names) && '\0' !in Text(p)
    ensures Validate(Text(p)) == Some(p)
  {
    var t := JoinSlash(p.names);
    SplitOfNames(p.names);
    if p.names != [] { JoinSlashEnds(p.names); }
    if p.double {
      assert p.names != [] ==> Text(p)[2] == t[0];
      SplitAppend("", "/" + t);
      assert "" + "/" + ("/" + t) == Text(p);
      assert Split("") + Split("/" + t) == [""] + Split("/" + t);
      FoldSkipsEmpty(Split("/" + t));
    } else {
      assert p.names != [] ==> Text(p)[1] == t[0];
    }
  }

  /** Being within the mount is having its root and its names first. */
  lemma {:induction false} WithinIff(mount: Path, p: Path)
    ensures Within(mount, p) <==> exists rest :: p == Path(mount.double, mount.names + rest)
  {
    if Within(mount, p) {
      var rest := p.names[|mount.names|..];
      assert mount.names + rest == p.names;
      assert p == Path(mount.double, mount.names + rest);
    }
  }
}
