/** The concurrent walk as a step system: N workers share an unbounded work queue and a bounded
    result queue, a closer waits for the work to be done and posts a sentinel, one consumer reads.
    Every atomic section between two awaits is one step; any enabled step may be taken. */
module Walk {
  import opened FileTree

  datatype Worker =
    | Idle
    | Scanning(dir: Dir)
    | Emitting(out: seq<FsEntry>, subdirs: seq<Dir>)

  datatype Closer = Joining | Posting | Posted

  datatype Item = Entry(entry: FsEntry) | Sentinel

  datatype State = State(
    work: seq<Dir>,
    unfinished: nat,       // the work queue's own count, which `join` waits on
    workers: seq<Worker>,
    results: seq<Item>,
    closer: Closer,
    yielded: seq<FsEntry>,
    finished: bool)

  datatype Action = Take(w: nat) | Scan(w: nat) | Put(w: nat) | Retire(w: nat) | Wake | Post | Consume

  /** The walk of a readable, unexcluded root: the root itself is yielded before any worker runs. */
  function Init(root: FsEntry, listing: seq<Dirent>, workers: nat): State
  {
    State([Dir(root.path, listing)], 1, seq(workers, i => Idle), [], Joining, [root], false)
  }

  predicate Enabled(cap: nat, s: State, a: Action)
  {
    !s.finished &&
    match a
    case Take(w) => w < |s.workers| && s.workers[w].Idle? && s.work != []
    case Scan(w) => w < |s.workers| && s.workers[w].Scanning?
    case Put(w) => w < |s.workers| && s.workers[w].Emitting? && s.workers[w].out != [] && |s.results| < cap
    case Retire(w) => w < |s.workers| && s.workers[w].Emitting? && s.workers[w].out == [] && s.unfinished > 0
    case Wake => s.closer == Joining && s.unfinished == 0
    case Post => s.closer == Posting && |s.results| < cap
    case Consume => s.results != []
  }

  function Next(r: Rules, cap: nat, s: State, a: Action): State
    requires Enabled(cap, s, a)
  {
    match a
    case Take(w) => s.(work := s.work[1..], workers := s.workers[w := Scanning(s.work[0])])
    case Scan(w) =>
      var d := s.workers[w].dir;
      s.(workers := s.workers[w := Emitting(Entries(r, d.path, d.listing), Subdirs(r, d.path, d.listing))])
    case Put(w) =>
      var wk := s.workers[w];
      s.(results := s.results + [Entry(wk.out[0])], workers := s.workers[w := wk.(out := wk.out[1..])])
    case Retire(w) =>
      var subdirs := s.workers[w].subdirs;
      s.(work := s.work + subdirs, unfinished := s.unfinished + |subdirs| - 1, workers := s.workers[w := Idle])
    case Wake => s.(closer := Posting)
    case Post => s.(closer := Posted, results := s.results + [Sentinel])
    case Consume =>
      if s.results[0].Sentinel? then s.(results := s.results[1..], finished := true)
      else s.(results := s.results[1..], yielded := s.yielded + [s.results[0].entry])
  }

  /** `t` is reached from `s` by taking `acts` in order. */
  ghost predicate Run(r: Rules, cap: nat, s: State, acts: seq<Action>, t: State)
    decreases acts
  {
    if acts == [] then s == t
    else Enabled(cap, s, acts[0]) && Run(r, cap, Next(r, cap, s, acts[0]), acts[1..], t)
  }

  // ---------------------------------------------------------------- what is still owed

  /** How many times `e` is still to come out of the given place. */
  ghost function Owed(r: Rules, ds: seq<Dir>, e: FsEntry): nat
  {
    if ds == [] then 0 else Beneath(r, ds[0].path, ds[0].listing, e) + Owed(r, ds[1..], e)
  }

  ghost function Times(es: seq<FsEntry>, e: FsEntry): nat
  {
    if es == [] then 0 else (if es[0] == e then 1 else 0) + Times(es[1..], e)
  }

  ghost function WorkerOwes(r: Rules, w: Worker, e: FsEntry): nat
  {
    match w
    case Idle => 0
    case Scanning(d) => Beneath(r, d.path, d.listing, e)
    case Emitting(out, subdirs) => Times(out, e) + Owed(r, subdirs, e)
  }

  ghost function WorkersOwe(r: Rules, ws: seq<Worker>, e: FsEntry): nat
  {
    if ws == [] then 0 else WorkerOwes(r, ws[0], e) + WorkersOwe(r, ws[1..], e)
  }

  ghost function Queued(items: seq<Item>, e: FsEntry): nat
  {
    if items == [] then 0 else (if items[0] == Entry(e) then 1 else 0) + Queued(items[1..], e)
  }

  function Busy(ws: seq<Worker>): nat
  {
    if ws == [] then 0 else (if ws[0].Idle? then 0 else 1) + Busy(ws[1..])
  }

  // ---------------------------------------------------------------- steps still to take

  /** Each directory costs a take, a scan and a retire; each entry a put and a read. */
  ghost function Steps(r: Rules, path: string, ls: seq<Dirent>): nat
    decreases ls, 0
  {
    if ls == [] then 0 else StepsEntry(r, path, ls[0]) + Steps(r, path, ls[1..])
  }

  ghost function StepsEntry(r: Rules, path: string, de: Dirent): nat
    decreases de, 1
  {
    if !Reported(r, path, de) then 0
    else 2 + if Descended(r, de) then 3 + Steps(r, PosixPaths.Join(path, de.name), de.listing) else 0
  }

  ghost function DirsCost(r: Rules, ds: seq<Dir>): nat
  {
    if ds == [] then 0 else 3 + Steps(r, ds[0].path, ds[0].listing) + DirsCost(r, ds[1..])
  }

  ghost function WorkerCost(r: Rules, w: Worker): nat
  {
    match w
    case Idle => 0
    case Scanning(d) => 2 + Steps(r, d.path, d.listing)
    case Emitting(out, subdirs) => 1 + 2 * |out| + DirsCost(r, subdirs)
  }

  ghost function WorkersCost(r: Rules, ws: seq<Worker>): nat
  {
    if ws == [] then 0 else WorkerCost(r, ws[0]) + WorkersCost(r, ws[1..])
  }

  ghost function Measure(r: Rules, s: State): nat
  {
    DirsCost(r, s.work) + WorkersCost(r, s.workers) + |s.results|
    + match s.closer case Joining => 3 case Posting => 2 case Posted => 0
  }

  // ---------------------------------------------------------------- bookkeeping lemmas

  lemma {:induction false} ScanSplits(r: Rules, path: string, ls: seq<Dirent>, e: FsEntry)
    ensures Beneath(r, path, ls, e) == Times(Entries(r, path, ls), e) + Owed(r, Subdirs(r, path, ls), e)
    ensures Steps(r, path, ls) == 2 * |Entries(r, path, ls)| + DirsCost(r, Subdirs(r, path, ls))
  {
    if ls != [] {
      ScanSplits(r, path, ls[1..], e);
      PartSplits(r, path, ls[0], e);
      OwedAppend(r, SubdirPart(r, path, ls[0]), Subdirs(r, path, ls[1..]), e);
      TimesAppend(EntryPart(r, path, ls[0]), Entries(r, path, ls[1..]), e);
    }
  }

  lemma {:induction false} PartSplits(r: Rules, path: string, de: Dirent, e: FsEntry)
    ensures BeneathEntry(r, path, de, e) == Times(EntryPart(r, path, de), e) + Owed(r, SubdirPart(r, path, de), e)
    ensures StepsEntry(r, path, de) == 2 * |EntryPart(r, path, de)| + DirsCost(r, SubdirPart(r, path, de))
  {
  }

  lemma {:induction false} TimesAppend(a: seq<FsEntry>, b: seq<FsEntry>, e: FsEntry)
    ensures Times(a + b, e) == Times(a, e) + Times(b, e)
  {
    if a == [] {
      assert a + b == b;
    } else {
      assert (a + b)[1..] == a[1..] + b;
      TimesAppend(a[1..], b, e);
    }
  }

  lemma {:induction false} OwedAppend(r: Rules, a: seq<Dir>, b: seq<Dir>, e: FsEntry)
    ensures Owed(r, a + b, e) == Owed(r, a, e) + Owed(r, b, e)
    ensures DirsCost(r, a + b) == DirsCost(r, a) + DirsCost(r, b)
  {
    if a == [] {
      assert a + b == b;
    } else {
      assert (a + b)[1..] == a[1..] + b;
      OwedAppend(r, a[1..], b, e);
    }
  }

  lemma {:induction false} QueuedAppend(items: seq<Item>, x: Item, e: FsEntry)
    ensures Queued(items + [x], e) == Queued(items, e) + if x == Entry(e) then 1 else 0
  {
    if items == [] {
      assert items + [x] == [x] && [x][1..] == [];
    } else {
      assert (items + [x])[1..] == items[1..] + [x];
      QueuedAppend(items[1..], x, e);
    }
  }

  lemma {:induction false} WorkerUpdate(r: Rules, ws: seq<Worker>, i: nat, w: Worker, e: FsEntry)
    requires i < |ws|
    ensures WorkersOwe(r, ws[i := w], e) + WorkerOwes(r, ws[i], e) == WorkersOwe(r, ws, e) + WorkerOwes(r, w, e)
    ensures WorkersCost(r, ws[i := w]) + WorkerCost(r, ws[i]) == WorkersCost(r, ws) + WorkerCost(r, w)
    ensures Busy(ws[i := w]) + (if ws[i].Idle? then 0 else 1) == Busy(ws) + if w.Idle? then 0 else 1
  {
    if i == 0 {
      assert ws[i := w][1..] == ws[1..];
    } else {
      assert ws[i := w][1..] == ws[1..][i - 1 := w];
      WorkerUpdate(r, ws[1..], i - 1, w, e);
    }
  }

  lemma {:induction false} BusyZero(ws: seq<Worker>)
    ensures Busy(ws) == 0 <==> forall i :: 0 <= i < |ws| ==> ws[i].Idle?
  {
    if ws != [] {
      BusyZero(ws[1..]);
      assert forall i :: 0 < i < |ws| ==> ws[i] == ws[1..][i - 1];
    }
  }

  lemma {:induction false} IdleOwesNothing(r: Rules, ws: seq<Worker>, e: FsEntry)
    requires Busy(ws) == 0
    ensures WorkersOwe(r, ws, e) == 0 && WorkersCost(r, ws) == 0
  {
    if ws != [] { IdleOwesNothing(r, ws[1..], e); }
  }

  // ---------------------------------------------------------------- the invariant

  /** Every report of `e` is yielded, queued, held by a worker, or still in a directory to visit. */
  ghost predicate Accounted(r: Rules, s: State, e: FsEntry, total: nat)
  {
    Times(s.yielded, e) + Queued(s.results, e) + WorkersOwe(r, s.workers, e) + Owed(r, s.work, e) == total
  }

  /** The closer has woken only when nobody is busy and nothing is queued; the sentinel is then the
      last thing in the result queue until the consumer reads it, and nothing follows it. */
  ghost predicate Ordered(cap: nat, s: State)
  {
    && s.unfinished == |s.work| + Busy(s.workers)
    && |s.results| <= cap
    && (s.closer != Joining ==> s.unfinished == 0)
    && (forall i :: 0 <= i < |s.results| && s.results[i].Sentinel? ==> i == |s.results| - 1 && s.closer == Posted)
    && (s.closer == Posted && !s.finished ==> s.results != [] && s.results[|s.results| - 1].Sentinel?)
    && (s.finished ==> s.closer == Posted && s.results == [])
  }

  lemma {:induction false} OrderedStep(r: Rules, cap: nat, s: State, a: Action)
    requires Ordered(cap, s) && Enabled(cap, s, a)
    ensures Ordered(cap, Next(r, cap, s, a))
  {
    BusyZero(s.workers);
    if a.Take? || a.Scan? || a.Put? || a.Retire? {
      var e := FsEntry("", "", Regular, 0, 0);
      WorkerUpdate(r, s.workers, a.w, Next(r, cap, s, a).workers[a.w], e);
    }
  }

  lemma {:induction false} AccountedStep(r: Rules, cap: nat, s: State, a: Action, e: FsEntry, total: nat)
    requires Accounted(r, s, e, total) && Enabled(cap, s, a)
    ensures Accounted(r, Next(r, cap, s, a), e, total)
  {
    var t := Next(r, cap, s, a);
    if a.Take? || a.Scan? || a.Put? || a.Retire? {
      WorkerUpdate(r, s.workers, a.w, t.workers[a.w], e);
    }
    match a {
      case Take(_) =>
      case Scan(w) => ScanSplits(r, s.workers[w].dir.path, s.workers[w].dir.listing, e);
      case Put(w) => QueuedAppend(s.results, t.results[|s.results|], e);
      case Retire(w) => OwedAppend(r, s.work, s.workers[w].subdirs, e);
      case Wake =>
      case Post => QueuedAppend(s.results, Sentinel, e);
      case Consume =>
        if s.results[0].Entry? { TimesAppend(s.yielded, [s.results[0].entry], e); }
    }
  }

  /** Every step brings the walk exactly one step nearer its end. */
  lemma {:induction false} StepDecreases(r: Rules, cap: nat, s: State, a: Action)
    requires Ordered(cap, s) && Enabled(cap, s, a)
    ensures Measure(r, Next(r, cap, s, a)) == Measure(r, s) - 1
  {
    var e := FsEntry("", "", Regular, 0, 0);
    if a.Take? || a.Scan? || a.Put? || a.Retire? {
      WorkerUpdate(r, s.workers, a.w, Next(r, cap, s, a).workers[a.w], e);
    }
    match a {
      case Take(_) =>
      case Scan(w) => ScanSplits(r, s.workers[w].dir.path, s.workers[w].dir.listing, e);
      case Put(_) =>
      case Retire(w) => OwedAppend(r, s.work, s.workers[w].subdirs, e);
      case Wake =>
      case Post =>
      case Consume =>
    }
  }

  /** No deadlock, even with a one-slot result queue and a single worker. */
  lemma {:induction false} SomeStepEnabled(cap: nat, s: State) returns (a: Action)
    requires Ordered(cap, s) && !s.finished && cap >= 1 && |s.workers| >= 1
    ensures Enabled(cap, s, a)
  {
    BusyZero(s.workers);
    if s.results != [] {
      return Consume;
    }
    if s.closer == Posting {
      return Post;
    }
    if s.unfinished == 0 {
      return Wake;
    }
    if Busy(s.workers) == 0 {
      assert s.workers[0].Idle?;
      return Take(0);
    }
    var w: nat :| w < |s.workers| && !s.workers[w].Idle?;
    if s.workers[w].Scanning? {
      return Scan(w);
    }
    return if s.workers[w].out != [] then Put(w) else Retire(w);
  }

  // ---------------------------------------------------------------- main results

  /** How often the walk of a root must report `e`: the root once, and what lies below it. */
  ghost function Expected(r: Rules, root: FsEntry, listing: seq<Dirent>, e: FsEntry): nat
  {
    (if e == root then 1 else 0) + Beneath(r, root.path, listing, e)
  }

  lemma {:induction false} InitInv(r: Rules, cap: nat, root: FsEntry, listing: seq<Dirent>, workers: nat, e: FsEntry)
    ensures var s := Init(root, listing, workers);
            Ordered(cap, s) && Accounted(r, s, e, Expected(r, root, listing, e))
            && Measure(r, s) == 6 + Steps(r, root.path, listing)
  {
    var s := Init(root, listing, workers);
    BusyZero(s.workers);
    IdleOwesNothing(r, s.workers, e);
    assert s.work[1..] == [] && s.yielded[1..] == [];
    assert DirsCost(r, s.work) == 3 + Steps(r, root.path, listing) + DirsCost(r, s.work[1..]);
  }

  lemma {:induction false} RunInv(r: Rules, cap: nat, s: State, acts: seq<Action>, t: State, e: FsEntry, total: nat)
    requires Ordered(cap, s) && Accounted(r, s, e, total) && Run(r, cap, s, acts, t)
    ensures Ordered(cap, t) && Accounted(r, t, e, total) && |t.workers| == |s.workers|
    ensures Measure(r, t) == Measure(r, s) - |acts|
    decreases acts
  {
    if acts != [] {
      OrderedStep(r, cap, s, acts[0]);
      AccountedStep(r, cap, s, acts[0], e, total);
      StepDecreases(r, cap, s, acts[0]);
      RunInv(r, cap, Next(r, cap, s, acts[0]), acts[1..], t, e, total);
    }
  }

  /** Safety, for every interleaving: when the consumer has read the sentinel it has yielded the
      root and every entry below it, each exactly as often as the tree holds it; the sentinel was
      the last item, no work is left and no worker is busy. */
  lemma {:induction false} WalkIsExact(r: Rules, cap: nat, root: FsEntry, listing: seq<Dirent>, workers: nat,
                                       acts: seq<Action>, t: State)
    requires Run(r, cap, Init(root, listing, workers), acts, t) && t.finished
    ensures forall e :: Times(t.yielded, e) == Expected(r, root, listing, e)
    ensures t.results == [] && t.work == [] && forall i :: 0 <= i < |t.workers| ==> t.workers[i].Idle?
  {
    forall e
      ensures Times(t.yielded, e) == Expected(r, root, listing, e)
      ensures t.results == [] && t.work == [] && Busy(t.workers) == 0
    {
      InitInv(r, cap, root, listing, workers, e);
      RunInv(r, cap, Init(root, listing, workers), acts, t, e, Expected(r, root, listing, e));
      IdleOwesNothing(r, t.workers, e);
    }
    assert Times(t.yielded, root) == Expected(r, root, listing, root);
    BusyZero(t.workers);
  }

  /** While the walk runs: the queue never exceeds its bound, nothing is yielded too often or
      invented, and no item ever stands behind the sentinel. */
  lemma {:induction false} WalkIsSafe(r: Rules, cap: nat, root: FsEntry, listing: seq<Dirent>, workers: nat,
                                      acts: seq<Action>, t: State)
    requires Run(r, cap, Init(root, listing, workers), acts, t)
    ensures |t.results| <= cap
    ensures forall e :: Times(t.yielded, e) <= Expected(r, root, listing, e)
    ensures forall i :: 0 <= i < |t.results| && t.results[i].Sentinel? ==> i == |t.results| - 1
  {
    forall e
      ensures Ordered(cap, t) && Times(t.yielded, e) <= Expected(r, root, listing, e)
    {
      InitInv(r, cap, root, listing, workers, e);
      RunInv(r, cap, Init(root, listing, workers), acts, t, e, Expected(r, root, listing, e));
    }
    assert Times(t.yielded, root) <= Expected(r, root, listing, root);
  }

  /** Progress under backpressure: no run is longer than the cost of the tree, and a run that
      cannot be extended has finished; a finished run has exactly that length. */
  lemma {:induction false} WalkTerminates(r: Rules, cap: nat, root: FsEntry, listing: seq<Dirent>, workers: nat,
                                          acts: seq<Action>, t: State)
    requires cap >= 1 && workers >= 1
    requires Run(r, cap, Init(root, listing, workers), acts, t)
    ensures |acts| <= 6 + Steps(r, root.path, listing)
    ensures t.finished <==> forall a :: !Enabled(cap, t, a)
    ensures t.finished ==> |acts| == 6 + Steps(r, root.path, listing)
  {
    InitInv(r, cap, root, listing, workers, root);
    RunInv(r, cap, Init(root, listing, workers), acts, t, root, Expected(r, root, listing, root));
    if t.finished {
      IdleOwesNothing(r, t.workers, root);
    } else {
      var a := SomeStepEnabled(cap, t);
    }
  }
}
