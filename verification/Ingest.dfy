/** The ingest service: server-side vetting of a pushed batch, and the transaction that applies it. */
module Ingest {
  import opened Lists
  import opened PosixPaths
  import opened Catalogue
  import AgentPath
  import Replay

  datatype Result<+T> = Ok(value: T) | Err(error: Refusal)

  datatype Refusal = TooManyEntries | TooManyRemovals | UnsafeMount | NonCanonicalMount | ForeignSnapshot

  /** An entry as pushed: its path is not trusted. */
  datatype Frame = Frame(path: string, entry: Entry)

  datatype Request = Request(mount: string, mode: Mode, snapshotId: Option<nat>, frames: seq<Frame>,
                             removed: seq<(int, int)>, removedInodes: seq<int>)

  datatype Counts = Counts(snapshot: nat, received: nat, rejected: nat, removed: nat, logged: nat)

  datatype Snapshot = Snapshot(host: int, volume: int)

  // ---------------------------------------------------------------- vetting

  /** One frame: rejected when its path is unsafe or outside the mount, otherwise rewritten to the
      normalised path and its depth. */
  function VetOne(mount: AgentPath.Path, f: Frame): Option<Entry>
  {
    match AgentPath.Validate(f.path)
    case None => None
    case Some(p) =>
      if AgentPath.Within(mount, p)
      then Some(f.entry.(info := f.entry.info.(path := AgentPath.Text(p), depth := AgentPath.Depth(mount, p))))
      else None
  }

  function Vetted(mount: AgentPath.Path, frames: seq<Frame>): seq<Entry>
  {
    if frames == [] then []
    else
      var head := VetOne(mount, frames[0]);
      (if head.Some? then [head.value] else []) + Vetted(mount, frames[1..])
  }

  lemma {:induction false} VettedAppend(mount: AgentPath.Path, frames: seq<Frame>, f: Frame)
    ensures Vetted(mount, frames + [f]) == Vetted(mount, frames)
            + var head := VetOne(mount, f); if head.Some? then [head.value] else []
  {
    if frames == [] {
      assert frames + [f] == [f];
    } else {
      var first, head := VetOne(mount, frames[0]), VetOne(mount, f);
      var a: seq<Entry>, c: seq<Entry> := if first.Some? then [first.value] else [], if head.Some? then [head.value] else [];
      VettedAppend(mount, frames[1..], f);
      assert (frames + [f])[0] == frames[0] && (frames + [f])[1..] == frames[1..] + [f];
      assert a + (Vetted(mount, frames[1..]) + c) == (a + Vetted(mount, frames[1..])) + c;
    }
  }

  /** `_vet_entries`. */
  method VetEntries(mount: AgentPath.Path, frames: seq<Frame>) returns (rows: seq<Entry>, rejected: nat)
    ensures rows == Vetted(mount, frames) && |rows| + rejected == |frames|
  {
    rows, rejected := [], 0;
    for i := 0 to |frames|
      invariant rows == Vetted(mount, frames[..i]) && |rows| + rejected == i
    {
      VettedAppend(mount, frames[..i], frames[i]);
      assert frames[..i + 1] == frames[..i] + [frames[i]];
      match VetOne(mount, frames[i]) {
        case None => rejected := rejected + 1;
        case Some(row) => rows := rows + [row];
      }
    }
    assert frames[..|frames|] == frames;
  }

  /** A frame is accepted exactly when its path is absolute without NUL and normalises to the mount's root and names,
      followed by more names or none; its row then has that path and counts those names. */
  lemma {:induction false} FrameAcceptedIff(mount: AgentPath.Path, f: Frame)
    ensures VetOne(mount, f).Some? <==>
            AgentPath.Validate(f.path).Some?
            && exists rest :: AgentPath.Validate(f.path).value == AgentPath.Path(mount.double, mount.names + rest)
    ensures VetOne(mount, f).Some? ==>
            && (exists rest :: VettedAs(mount, VetOne(mount, f).value, rest)
                               && AgentPath.Text(Inside(mount, rest)) == NormPath(f.path))
            && var row := VetOne(mount, f).value;
               row == f.entry.(info := f.entry.info.(path := NormPath(f.path), depth := row.info.depth))
  {
    AgentPath.ValidateNormalises(f.path);
    if AgentPath.Validate(f.path).Some? {
      var p := AgentPath.Validate(f.path).value;
      AgentPath.WithinIff(mount, p);
      if AgentPath.Within(mount, p) {
        var rest :| p == AgentPath.Path(mount.double, mount.names + rest);
        assert p.names[|mount.names|..] == rest;
        assert forall i :: 0 <= i < |rest| ==> rest[i] == p.names[|mount.names| + i];
        assert Inside(mount, rest) == p;
        assert VettedAs(mount, VetOne(mount, f).value, rest);
      }
    }
  }

  function Inside(mount: AgentPath.Path, rest: seq<string>): AgentPath.Path
  {
    AgentPath.Path(mount.double, mount.names + rest)
  }

  /** The row's path is the mount's with `rest` appended, and its depth counts `rest`. */
  ghost predicate VettedAs(mount: AgentPath.Path, e: Entry, rest: seq<string>)
  {
    ValidNames(rest) && e.info.path == AgentPath.Text(Inside(mount, rest)) && e.info.depth == |rest|
  }

  /** Whatever is pushed, an accepted row lies at or below the mount and its depth column counts its names below the
      mount; and it is canonical if and only if the mount has a single leading slash. */
  lemma {:induction false} VettedWithinMount(mount: AgentPath.Path, frames: seq<Frame>, i: nat) returns (rest: seq<string>)
    requires ValidNames(mount.names) && i < |Vetted(mount, frames)|
    ensures VettedAs(mount, Vetted(mount, frames)[i], rest)
    ensures Canonical(Vetted(mount, frames)[i].info.path) <==> !mount.double
  {
    var head := VetOne(mount, frames[0]);
    if head.Some? && i == 0 {
      FrameAcceptedIff(mount, frames[0]);
      rest :| VettedAs(mount, head.value, rest);
      AgentPath.CanonicalIffSingle(Inside(mount, rest));
    } else {
      rest := VettedWithinMount(mount, frames[1..], if head.Some? then i - 1 else i);
    }
  }

  // ---------------------------------------------------------------- the service

  /** The batch a request becomes once its identity, snapshot and entries are resolved. */
  function BatchOf(req: Request, host: int, volume: int, snapshot: nat, logging: bool): Batch
    requires AgentPath.Validate(req.mount).Some?
  {
    Batch(host, volume, snapshot, req.mode, Vetted(AgentPath.Validate(req.mount).value, req.frames),
          Replay.RemovalKeys(req.removed, req.removedInodes), logging)
  }

  predicate Touches(b: Batch, inodes: set<int>, k: Key)
  {
    k.host == b.host && k.volume == b.volume && k.inode in inodes
  }

  lemma {:induction false} ChurnStep(b: Batch, before: seq<FsRow>, churn: seq<Change>, i: nat)
    requires i < |b.entries|
    ensures churn + Churn(b, before, b.entries[i..])
         == churn + ChurnOne(b, PriorOf(Lookup(before, KeyOf(b, b.entries[i]))), b.entries[i])
            + Churn(b, before, b.entries[i + 1..])
  {
  }

  predicate WithinLimits(req: Request, maxBatch: nat)
  {
    |req.frames| <= maxBatch && |req.removed| <= maxBatch && |req.removedInodes| <= maxBatch
  }

  /** An absolute path without NUL that is its own `normpath`. */
  predicate GoodMount(mount: string)
  {
    StartsWith(mount, "/") && '\0' !in mount && NormPath(mount) == mount
  }

  /** The request opens a snapshot, or names one of this host and volume. */
  predicate OwnSnapshot(req: Request, host: int, volume: int, snapshots: seq<Snapshot>)
  {
    match req.snapshotId
    case None => true
    case Some(n) => n < |snapshots| && snapshots[n].host == host && snapshots[n].volume == volume
  }

  /** Which identities a request removes: the device and inode pairs it sends, or if it sends none the inodes. */
  lemma {:induction false} RequestRemoves(req: Request, host: int, volume: int, snapshot: nat, logging: bool, k: Key)
    requires AgentPath.Validate(req.mount).Some?
    ensures Named(BatchOf(req, host, volume, snapshot, logging), k)
       <==> k.host == host && k.volume == volume
            && if req.removed != [] then (k.dev, k.inode) in req.removed else k.inode in req.removedInodes
  {
    var b := BatchOf(req, host, volume, snapshot, logging);
    if req.removed != [] {
      if (k.dev, k.inode) in req.removed {
        var j :| 0 <= j < |req.removed| && req.removed[j] == (k.dev, k.inode);
        assert b.removed[j] == Precise(k.dev, k.inode);
      }
    } else if k.inode in req.removedInodes {
      var j :| 0 <= j < |req.removedInodes| && req.removedInodes[j] == k.inode;
      assert b.removed[j] == Legacy(k.inode);
    }
  }

  class IngestService {
    const maxBatch: nat
    var rows: seq<FsRow>
    var log: seq<Change>
    var snapshots: seq<Snapshot>

    ghost predicate Valid()
      reads this
    {
      Unique(rows)
    }

    constructor (maxBatch: nat)
      ensures Valid() && rows == [] && log == [] && snapshots == [] && this.maxBatch == maxBatch
    {
      this.maxBatch := maxBatch;
      rows, log, snapshots := [], [], [];
    }

    /** Why a request is refused, in the order the checks are made. */
    function Refused(req: Request, host: int, volume: int): Option<Refusal>
      reads this
    {
      if |req.frames| > maxBatch then Some(TooManyEntries)
      else if |req.removed| > maxBatch || |req.removedInodes| > maxBatch then Some(TooManyRemovals)
      else if AgentPath.Validate(req.mount).None? then Some(UnsafeMount)
      else if AgentPath.Text(AgentPath.Validate(req.mount).value) != req.mount then Some(NonCanonicalMount)
      else if req.snapshotId.Some? && (req.snapshotId.value >= |snapshots|
                                       || snapshots[req.snapshotId.value] != Snapshot(host, volume)) then Some(ForeignSnapshot)
      else None
    }

    /** `snapshot_prior`: the state of the batch's inodes before the upsert overwrites it. */
    method SnapshotPrior(b: Batch) returns (prior: map<(int, int), PriorState>)
      requires Valid()
      ensures forall e :: e in b.entries ==>
                PriorOf(Lookup(rows, KeyOf(b, e)))
                == if (e.dev, e.inode) in prior then Some(prior[(e.dev, e.inode)]) else None
    {
      var inodes := set e | e in b.entries :: e.inode;
      prior := map[];
      for i := 0 to |rows|
        invariant forall dev, inode :: (dev, inode) in prior ==>
                    exists j :: 0 <= j < i && rows[j].key == Key(b.host, b.volume, dev, inode)
                                && prior[(dev, inode)] == PriorState(rows[j].present, rows[j].mtime, rows[j].size)
        invariant forall j :: 0 <= j < i && Touches(b, inodes, rows[j].key) ==> (rows[j].key.dev, rows[j].key.inode) in prior
      {
        var r := rows[i];
        if Touches(b, inodes, r.key) {
          prior := prior[(r.key.dev, r.key.inode) := PriorState(r.present, r.mtime, r.size)];
        }
      }
      forall e | e in b.entries
        ensures PriorOf(Lookup(rows, KeyOf(b, e)))
                == if (e.dev, e.inode) in prior then Some(prior[(e.dev, e.inode)]) else None
      {
        LookupKey(rows, KeyOf(b, e));
        if (e.dev, e.inode) in prior {
          var j :| 0 <= j < |rows| && rows[j].key == KeyOf(b, e)
                   && prior[(e.dev, e.inode)] == PriorState(rows[j].present, rows[j].mtime, rows[j].size);
          LookupAt(rows, j);
        }
      }
    }

    /** The create/modify loop of `reconcile`. */
    method Classified(b: Batch, prior: map<(int, int), PriorState>,
                      ghost before: seq<FsRow>) returns (churn: seq<Change>)
      requires forall e :: e in b.entries ==>
                 PriorOf(Lookup(before, KeyOf(b, e)))
                 == if (e.dev, e.inode) in prior then Some(prior[(e.dev, e.inode)]) else None
      ensures churn == Churn(b, before, b.entries)
    {
      churn := [];
      for i := 0 to |b.entries|
        invariant churn + Churn(b, before, b.entries[i..]) == Churn(b, before, b.entries)
      {
        var e := b.entries[i];
        var known := if (e.dev, e.inode) in prior then Some(prior[(e.dev, e.inode)]) else None;
        assert e in b.entries;
        ChurnStep(b, before, churn, i);
        churn := churn + ChurnOne(b, known, e);
      }
    }

    /** `ingest`: refused requests change nothing; an accepted one applies exactly its batch. */
    method Ingest(req: Request, host: int, volume: int, logging: bool, now: int) returns (r: Result<Counts>)
      requires Valid()
      modifies this
      ensures Valid()
      ensures r.Err? <==> old(Refused(req, host, volume)).Some?
      ensures r.Err? ==> match r.error
                         case TooManyEntries => |req.frames| > maxBatch
                         case TooManyRemovals =>
                           |req.frames| <= maxBatch && (|req.removed| > maxBatch || |req.removedInodes| > maxBatch)
                         case UnsafeMount =>
                           WithinLimits(req, maxBatch) && (!StartsWith(req.mount, "/") || '\0' in req.mount)
                         case NonCanonicalMount =>
                           WithinLimits(req, maxBatch) && StartsWith(req.mount, "/") && '\0' !in req.mount
                           && NormPath(req.mount) != req.mount
                         case ForeignSnapshot =>
                           WithinLimits(req, maxBatch) && GoodMount(req.mount) && !OwnSnapshot(req, host, volume, old(snapshots))
      ensures r.Ok? <==> WithinLimits(req, maxBatch) && GoodMount(req.mount)
                         && OwnSnapshot(req, host, volume, old(snapshots))
      ensures r.Err? ==> r.error == old(Refused(req, host, volume)).value
                         && rows == old(rows) && log == old(log) && snapshots == old(snapshots)
      ensures r.Ok? ==>
                AgentPath.Validate(req.mount).Some?
                && var b := BatchOf(req, host, volume, r.value.snapshot, logging);
                && rows == RowsAfter(b, now, old(rows))
                && log == old(log) + Logged(b, now, old(rows))
                && r.value.received == |b.entries| && r.value.received + r.value.rejected == |req.frames|
                && r.value.removed == Removed(b, old(rows)) && r.value.logged == |Logged(b, now, old(rows))|
                && (if req.snapshotId.Some? then r.value.snapshot == req.snapshotId.value && snapshots == old(snapshots)
                    else r.value.snapshot == |old(snapshots)| && snapshots == old(snapshots) + [Snapshot(host, volume)])
    {
      var refusal := Refused(req, host, volume);
      AgentPath.ValidateNormalises(req.mount);
      if refusal.Some? {
        return Err(refusal.value);
      }
      var snapshot := |snapshots|;
      if req.snapshotId.Some? {
        snapshot := req.snapshotId.value;
      } else {
        snapshots := snapshots + [Snapshot(host, volume)];
      }
      var entries, rejected := VetEntries(AgentPath.Validate(req.mount).value, req.frames);
      var b := Batch(host, volume, snapshot, req.mode, entries,
                     Replay.RemovalKeys(req.removed, req.removedInodes), logging);
      ghost var before := rows;
      BatchTouchesOnlyItsVolume(b, now, rows);
      if b.mode.FullBit? {
        rows := UpsertAll(b, rows, b.entries);
        assert log + [] == log;
        return Ok(Counts(snapshot, |entries|, rejected, 0, 0));
      }
      var prior := SnapshotPrior(b);
      rows := UpsertAll(b, rows, b.entries);
      var churn := Classified(b, prior, before);
      var removed := RemovedCount(b, rows);
      rows := MarkRemoved(b, now, rows);
      if logging {
        churn := churn + RemovalChurn(b, now, rows);
        log := log + churn;
        return Ok(Counts(snapshot, |entries|, rejected, removed, |churn|));
      }
      assert log + [] == log;
      return Ok(Counts(snapshot, |entries|, rejected, removed, 0));
    }
  }
}
