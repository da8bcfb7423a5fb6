/** The directory tree a scan reads, and the rules that decide what a scan reports and where it
    descends. Read failures are part of the tree: an entry says whether its type and its `stat`
    can be read, and a listing holds what `scandir` delivers before it ends or fails. */
module FileTree {
  import opened Lists
  import opened PosixPaths

  datatype Kind = Regular | Directory | Symlink

  datatype Dirent = Dirent(
    name: string,
    kind: Kind,
    typeOk: bool,   // is_symlink / is_dir answer
    statOk: bool,   // stat answers
    size: nat,
    dev: int,
    control: bool,  // a control directory the backend's hook refuses to walk into
    listing: seq<Dirent>)

  datatype FsEntry = FsEntry(path: string, name: string, kind: Kind, size: nat, dev: int)

  /** A directory to visit: the path a worker is handed and what it finds there. */
  datatype Dir = Dir(path: string, listing: seq<Dirent>)

  datatype Rules = Rules(rootDev: int, oneFilesystem: bool, excluded: set<string>)

  function NormaliseExcludes(exclude: seq<string>): set<string>
  {
    set e | e in exclude && e != "" :: NormPath(e)
  }

  predicate IsExcluded(path: string, excluded: set<string>)
  {
    var p := NormPath(path);
    exists e :: e in excluded && (p == e || StartsWith(p, e + "/"))
  }

  function EntryOf(path: string, de: Dirent): FsEntry
  {
    FsEntry(Join(path, de.name), de.name, de.kind, de.size, de.dev)
  }

  predicate Reported(r: Rules, path: string, de: Dirent)
  {
    !IsExcluded(Join(path, de.name), r.excluded) && de.typeOk && de.statOk
  }

  /** Symlinks are never followed, control directories never entered, and with `oneFilesystem`
      neither is another device. (The type and stat answers are cached by the directory entry, so
      they cannot fail a second time here.) */
  predicate Descended(r: Rules, de: Dirent)
  {
    !de.control && de.kind.Directory? && (r.oneFilesystem ==> de.dev == r.rootDev)
  }

  /** What one directory entry contributes to the scan of its directory. */
  function EntryPart(r: Rules, path: string, de: Dirent): seq<FsEntry>
  {
    if Reported(r, path, de) then [EntryOf(path, de)] else []
  }

  function SubdirPart(r: Rules, path: string, de: Dirent): seq<Dir>
  {
    if Reported(r, path, de) && Descended(r, de) then [Dir(Join(path, de.name), de.listing)] else []
  }

  function Entries(r: Rules, path: string, ls: seq<Dirent>): seq<FsEntry>
  {
    if ls == [] then [] else EntryPart(r, path, ls[0]) + Entries(r, path, ls[1..])
  }

  function Subdirs(r: Rules, path: string, ls: seq<Dirent>): seq<Dir>
  {
    if ls == [] then [] else SubdirPart(r, path, ls[0]) + Subdirs(r, path, ls[1..])
  }

  /** How many times the walk must report `e` below `path`. */
  ghost function Beneath(r: Rules, path: string, ls: seq<Dirent>, e: FsEntry): nat
    decreases ls, 0
  {
    if ls == [] then 0 else BeneathEntry(r, path, ls[0], e) + Beneath(r, path, ls[1..], e)
  }

  ghost function BeneathEntry(r: Rules, path: string, de: Dirent, e: FsEntry): nat
    decreases de, 1
  {
    if !Reported(r, path, de) then 0
    else (if e == EntryOf(path, de) then 1 else 0)
         + if Descended(r, de) then Beneath(r, Join(path, de.name), de.listing, e) else 0
  }

  lemma {:induction false} EntriesAppend(r: Rules, path: string, ls: seq<Dirent>, de: Dirent)
    ensures Entries(r, path, ls + [de]) == Entries(r, path, ls) + EntryPart(r, path, de)
  {
    if ls == [] {
      assert ls + [de] == [de] && [de][1..] == [];
    } else {
      EntriesAppend(r, path, ls[1..], de);
      assert (ls + [de])[0] == ls[0] && (ls + [de])[1..] == ls[1..] + [de];
      Assoc(EntryPart(r, path, ls[0]), Entries(r, path, ls[1..]), EntryPart(r, path, de));
    }
  }

  lemma {:induction false} SubdirsAppend(r: Rules, path: string, ls: seq<Dirent>, de: Dirent)
    ensures Subdirs(r, path, ls + [de]) == Subdirs(r, path, ls) + SubdirPart(r, path, de)
  {
    if ls == [] {
      assert ls + [de] == [de] && [de][1..] == [];
    } else {
      SubdirsAppend(r, path, ls[1..], de);
      assert (ls + [de])[0] == ls[0] && (ls + [de])[1..] == ls[1..] + [de];
      Assoc(SubdirPart(r, path, ls[0]), Subdirs(r, path, ls[1..]), SubdirPart(r, path, de));
    }
  }

  lemma {:induction false} OneMoreDirent(r: Rules, path: string, ls: seq<Dirent>, i: nat)
    requires i < |ls|
    ensures Entries(r, path, ls[..i + 1]) == Entries(r, path, ls[..i]) + EntryPart(r, path, ls[i])
    ensures Subdirs(r, path, ls[..i + 1]) == Subdirs(r, path, ls[..i]) + SubdirPart(r, path, ls[i])
  {
    assert ls[..i + 1] == ls[..i] + [ls[i]];
    EntriesAppend(r, path, ls[..i], ls[i]);
    SubdirsAppend(r, path, ls[..i], ls[i]);
  }

  /** `_scan_dir`: one directory's entries and the subdirectories to visit, in listing order. */
  method ScanDir(r: Rules, d: Dir) returns (entries: seq<FsEntry>, subdirs: seq<Dir>)
    ensures entries == Entries(r, d.path, d.listing)
    ensures subdirs == Subdirs(r, d.path, d.listing)
  {
    entries, subdirs := [], [];
    for i := 0 to |d.listing|
      invariant entries == Entries(r, d.path, d.listing[..i])
      invariant subdirs == Subdirs(r, d.path, d.listing[..i])
    {
      var de := d.listing[i];
      OneMoreDirent(r, d.path, d.listing, i);
      if Reported(r, d.path, de) {
        entries := entries + [EntryOf(d.path, de)];
        if Descended(r, de) {
          subdirs := subdirs + [Dir(Join(d.path, de.name), de.listing)];
        }
      }
    }
    assert d.listing[..|d.listing|] == d.listing;
  }
}
