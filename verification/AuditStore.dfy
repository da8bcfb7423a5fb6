/** The durable audit store: any number of writers read the head, insert under the table's UNIQUE
    `prev_hash`, and on a conflict reload the head and try again, at most eight times. Each SQL
    statement is one step; steps of different writers interleave freely. */
module AuditStore {
  import opened Audit

  const MAX_APPEND_RETRIES: nat := 8

  /** A row carries its serial number and the record. `owner` is history: the writer that inserted it,
      or -1 for a row that was there before. */
  datatype Row = Row(seqNo: nat, rec: AuditRecord, owner: int)

  /** `append_durable` stamps its own time at every attempt; a splice keeps the actor's content. */
  datatype Job =
    | Append(actor: string, action: string, target: string, beforeState: string, result: string)
    | Splice(content: Content)

  /** `Holding` is a writer between reading the head and inserting; `seen` is history: how many rows
      the table had when it read. */
  datatype Phase = Reading | Holding(seen: nat, rec: AuditRecord) | Finished | Raised

  /** A writer with its whole batch, the records it has returned so far, the failed attempts at the
      current record, and (history) the table length when it first tried that record. */
  datatype Writer = Writer(jobs: seq<Job>, done: seq<AuditRecord>, phase: Phase, tries: nat, from: nat)

  /** `burned` is history: the serial numbers consumed by rejected inserts, in order. */
  datatype Store = Store(rows: seq<Row>, nextSeq: nat, burned: seq<nat>, writers: seq<Writer>)

  /** Whether a rejected insert consumes a serial number, as a PostgreSQL sequence does. */
  datatype Serial = Burning | Reusing

  datatype Action = Read(w: nat, ts: string) | Insert(w: nat)

  function Records(rows: seq<Row>): (recs: seq<AuditRecord>)
    ensures |recs| == |rows| && forall i :: 0 <= i < |rows| ==> recs[i] == rows[i].rec
  {
    if rows == [] then [] else Records(rows[..|rows| - 1]) + [rows[|rows| - 1].rec]
  }

  /** `load_head`. */
  function LoadHead(d: Scheme, rows: seq<Row>): string
  {
    HeadOf(d.genesis, Records(rows))
  }

  function ContentOf(job: Job, ts: string): Content
  {
    match job
    case Append(actor, action, target, before, result) => Content(ts, actor, action, target, before, result)
    case Splice(content) => content
  }

  /** What a job's persisted content must be: everything the caller gave, verbatim, each in its own field; only the time
      of an append is not the caller's. */
  ghost predicate Carries(content: Content, job: Job)
  {
    match job
    case Append(_, _, _, _, _) =>
      && content.actor == job.actor && content.action == job.action && content.target == job.target
      && content.beforeState == job.beforeState && content.result == job.result
    case Splice(_) => content == job.content
  }

  /** The UNIQUE constraint on `prev_hash`. */
  predicate Conflicts(rows: seq<Row>, rec: AuditRecord)
  {
    exists i :: 0 <= i < |rows| && rows[i].rec.prevHash == rec.prevHash
  }

  predicate Enabled(s: Store, a: Action)
  {
    a.w < |s.writers| &&
    var w := s.writers[a.w];
    match a
    case Read(_, _) => w.phase.Reading? && |w.done| < |w.jobs|
    case Insert(_) => w.phase.Holding?
  }

  function Next(d: Scheme, serial: Serial, s: Store, a: Action): Store
    requires Enabled(s, a)
  {
    var w := s.writers[a.w];
    match a
    case Read(i, ts) =>
      if |w.done| >= |w.jobs| then s else
      var rec := Rechain(d, ContentOf(w.jobs[|w.done|], ts), LoadHead(d, s.rows));
      var from := if w.tries == 0 then |s.rows| else w.from;
      s.(writers := s.writers[i := w.(phase := Holding(|s.rows|, rec), from := from)])
    case Insert(i) =>
      if Conflicts(s.rows, w.phase.rec) then
        var phase := if w.tries + 1 == MAX_APPEND_RETRIES then Raised else Reading;
        var lost := if serial.Burning? then [s.nextSeq] else [];
        s.(nextSeq := s.nextSeq + |lost|, burned := s.burned + lost,
           writers := s.writers[i := w.(phase := phase, tries := w.tries + 1)])
      else
        var phase := if |w.done| + 1 == |w.jobs| then Finished else Reading;
        s.(rows := s.rows + [Row(s.nextSeq, w.phase.rec, i)], nextSeq := s.nextSeq + 1,
           writers := s.writers[i := w.(phase := phase, done := w.done + [w.phase.rec], tries := 0)])
  }

  ghost predicate Run(d: Scheme, serial: Serial, s: Store, acts: seq<Action>, t: Store)
    decreases acts
  {
    if acts == [] then s == t
    else Enabled(s, acts[0]) && Run(d, serial, Next(d, serial, s, acts[0]), acts[1..], t)
  }

  /** Writers about to start on an existing log. */
  ghost predicate Starts(d: Scheme, s: Store)
  {
    && IsChain(d, d.genesis, Records(s.rows))
    && (forall i :: 0 <= i < |s.rows| ==> s.rows[i].owner == -1 && s.rows[i].seqNo == i + 1)
    && s.nextSeq == |s.rows| + 1 && s.burned == []
    && (forall w :: 0 <= w < |s.writers| ==>
          s.writers[w].done == [] && s.writers[w].tries == 0 && s.writers[w].from == 0 && s.writers[w].phase.Reading?)
  }

  // ---------------------------------------------------------------- the chain

  lemma {:induction false} RecordsAppend(rows: seq<Row>, r: Row)
    ensures Records(rows + [r]) == Records(rows) + [r.rec]
  {
  }

  lemma {:induction false} RecordsPrefix(rows: seq<Row>, n: nat)
    requires n <= |rows|
    ensures Records(rows)[..n] == Records(rows[..n])
  {
  }

  /** A head read when the table had `k` rows conflicts if the table has grown since; and only then,
      as long as hashes do not collide. */
  lemma {:induction false} ConflictIsStale(d: Scheme, rows: seq<Row>, k: nat, rec: AuditRecord)
    requires IsChain(d, d.genesis, Records(rows)) && k <= |rows|
    requires rec.prevHash == LoadHead(d, rows[..k])
    ensures k < |rows| ==> Conflicts(rows, rec)
    ensures Sound(d) ==> (Conflicts(rows, rec) <==> k < |rows|)
  {
    var recs := Records(rows);
    RecordsPrefix(rows, k);
    if k < |rows| {
      assert LinkedAt(d, d.genesis, recs, k);
      assert rows[k].rec.prevHash == rec.prevHash;
    } else if Sound(d) && Conflicts(rows, rec) {
      var i :| 0 <= i < |rows| && rows[i].rec.prevHash == rec.prevHash;
      assert LinkedAt(d, d.genesis, recs, i);
      HeadsDistinct(d, recs, i, k);
    }
  }

  /** What a writer holds between its two statements. */
  ghost predicate HoldsWell(d: Scheme, rows: seq<Row>, w: Writer)
  {
    w.phase.Holding? ==>
      && |w.done| < |w.jobs|
      && w.from <= w.phase.seen <= |rows|
      && w.phase.rec == Rechain(d, w.phase.rec.content, LoadHead(d, rows[..w.phase.seen]))
      && Carries(w.phase.rec.content, w.jobs[|w.done|])
  }

  ghost predicate Delivered(w: Writer)
  {
    && |w.done| <= |w.jobs|
    && (forall i :: 0 <= i < |w.done| ==> Carries(w.done[i].content, w.jobs[i]))
    && (w.phase.Finished? ==> |w.done| == |w.jobs|)
    && (w.phase.Raised? ==> w.tries == MAX_APPEND_RETRIES && |w.done| < |w.jobs|)
    && (!w.phase.Raised? ==> w.tries < MAX_APPEND_RETRIES)
  }

  /** The records writer `w` has put in the table, in table order. */
  ghost function Inserted(rows: seq<Row>, w: int): seq<AuditRecord>
  {
    if rows == [] then []
    else Inserted(rows[..|rows| - 1], w) + if rows[|rows| - 1].owner == w then [rows[|rows| - 1].rec] else []
  }

  ghost predicate WriterInv(d: Scheme, rows: seq<Row>, w: Writer, i: int)
  {
    HoldsWell(d, rows, w) && Delivered(w) && Inserted(rows, i) == w.done && w.from <= |rows|
  }

  ghost predicate Inv(d: Scheme, s: Store)
  {
    && IsChain(d, d.genesis, Records(s.rows))
    && (forall w :: 0 <= w < |s.writers| ==> WriterInv(d, s.rows, s.writers[w], w))
  }

  lemma {:induction false} InsertedNone(rows: seq<Row>, w: int)
    requires forall i :: 0 <= i < |rows| ==> rows[i].owner != w
    ensures Inserted(rows, w) == []
  {
    if rows != [] { InsertedNone(rows[..|rows| - 1], w); }
  }

  lemma {:induction false} InsertedAppend(rows: seq<Row>, r: Row, w: int)
    ensures Inserted(rows + [r], w) == Inserted(rows, w) + if r.owner == w then [r.rec] else []
  {
  }

  lemma {:induction false} OthersKeep(d: Scheme, rows: seq<Row>, r: Row, w: Writer, i: int)
    requires WriterInv(d, rows, w, i) && r.owner != i
    ensures WriterInv(d, rows + [r], w, i)
  {
  }

  /** A read holds the next job's content, stamped with the time of this very attempt, on the head that is last now. */
  lemma {:induction false} ReadStep(d: Scheme, serial: Serial, s: Store, a: Action)
    requires Inv(d, s) && Enabled(s, a) && a.Read?
    ensures Inv(d, Next(d, serial, s, a)) && Next(d, serial, s, a).rows == s.rows
    ensures var me := Next(d, serial, s, a).writers[a.w]; var job := s.writers[a.w].jobs[|s.writers[a.w].done|];
            && me.phase.Holding? && me.phase.rec.prevHash == LoadHead(d, s.rows)
            && Carries(me.phase.rec.content, job) && (job.Append? ==> me.phase.rec.content.ts == a.ts)
  {
  }

  /** The table stays one unbroken chain, whatever the hash: an insert that is let through was built
      on the head that is still last, adds exactly the writer's record, and a rejected one nothing. */
  lemma {:induction false} InsertStep(d: Scheme, serial: Serial, s: Store, a: Action)
    requires Inv(d, s) && Enabled(s, a) && a.Insert?
    ensures var t := Next(d, serial, s, a); var rec := s.writers[a.w].phase.rec;
            && Inv(d, t)
            && (if Conflicts(s.rows, rec) then t.rows == s.rows
                else t.rows == s.rows + [Row(s.nextSeq, rec, a.w)] && s.writers[a.w].phase.seen == |s.rows|)
  {
    var me := s.writers[a.w];
    assert WriterInv(d, s.rows, me, a.w);
    ConflictIsStale(d, s.rows, me.phase.seen, me.phase.rec);
    if Conflicts(s.rows, me.phase.rec) {
      Rejected(d, serial, s, a);
    } else {
      assert s.rows[..|s.rows|] == s.rows;
      LetThrough(d, serial, s, a);
    }
  }

  lemma {:induction false} Rejected(d: Scheme, serial: Serial, s: Store, a: Action)
    requires Inv(d, s) && Enabled(s, a) && a.Insert? && Conflicts(s.rows, s.writers[a.w].phase.rec)
    ensures Inv(d, Next(d, serial, s, a)) && Next(d, serial, s, a).rows == s.rows
  {
    var t := Next(d, serial, s, a);
    forall w | 0 <= w < |t.writers| ensures WriterInv(d, t.rows, t.writers[w], w) {
      assert WriterInv(d, s.rows, s.writers[w], w);
    }
  }

  lemma {:induction false} LetThrough(d: Scheme, serial: Serial, s: Store, a: Action)
    requires Inv(d, s) && Enabled(s, a) && a.Insert? && !Conflicts(s.rows, s.writers[a.w].phase.rec)
    requires s.writers[a.w].phase.seen == |s.rows| && s.rows[..|s.rows|] == s.rows
    ensures Inv(d, Next(d, serial, s, a))
    ensures Next(d, serial, s, a).rows == s.rows + [Row(s.nextSeq, s.writers[a.w].phase.rec, a.w)]
  {
    var t := Next(d, serial, s, a);
    var r := Row(s.nextSeq, s.writers[a.w].phase.rec, a.w);
    assert WriterInv(d, s.rows, s.writers[a.w], a.w);
    RecordsAppend(s.rows, r);
    ChainAppend(d, d.genesis, Records(s.rows), r.rec);
    forall w | 0 <= w < |t.writers| ensures WriterInv(d, t.rows, t.writers[w], w) {
      if w == a.w { InsertedAppend(s.rows, r, w); } else { OthersKeep(d, s.rows, r, s.writers[w], w); }
    }
  }

  lemma {:induction false} StartInv(d: Scheme, s: Store)
    requires Starts(d, s)
    ensures Inv(d, s)
  {
    forall w | 0 <= w < |s.writers| ensures WriterInv(d, s.rows, s.writers[w], w) {
      InsertedNone(s.rows, w);
    }
  }

  /** Rows are only ever added, and no writer's jobs change. */
  ghost predicate Extends(s: Store, t: Store)
  {
    && s.rows <= t.rows && |t.writers| == |s.writers|
    && forall w :: 0 <= w < |s.writers| ==> t.writers[w].jobs == s.writers[w].jobs
  }

  lemma {:induction false} StepExtends(d: Scheme, serial: Serial, s: Store, a: Action)
    requires Enabled(s, a)
    ensures Extends(s, Next(d, serial, s, a))
  {
  }

  lemma {:induction false} StepInv(d: Scheme, serial: Serial, s: Store, a: Action)
    requires Inv(d, s) && Enabled(s, a)
    ensures Inv(d, Next(d, serial, s, a)) && Extends(s, Next(d, serial, s, a))
  {
    StepExtends(d, serial, s, a);
    if a.Read? { ReadStep(d, serial, s, a); } else { InsertStep(d, serial, s, a); }
  }

  lemma {:induction false} ExtendsTrans(s: Store, t: Store, u: Store)
    requires Extends(s, t) && Extends(t, u)
    ensures Extends(s, u)
  {
  }

  lemma {:induction false} RunInv(d: Scheme, serial: Serial, s: Store, acts: seq<Action>, t: Store)
    requires Inv(d, s) && Run(d, serial, s, acts, t)
    ensures Inv(d, t) && Extends(s, t)
    decreases acts
  {
    if acts != [] {
      var n := Next(d, serial, s, acts[0]);
      StepInv(d, serial, s, acts[0]);
      RunInv(d, serial, n, acts[1..], t);
      ExtendsTrans(s, n, t);
    }
  }

  /** Main result, any number of writers, every interleaving: the table is always one unbroken chain
      that extends the old one; what a writer has returned is exactly what it has in the table, in
      its own order, each content as the caller gave it; a finished writer has its whole batch there
      and a writer that raised has only the part before the record it failed on. */
  lemma {:induction false} TableIsOneChain(d: Scheme, serial: Serial, s: Store, acts: seq<Action>, t: Store, w: nat)
    requires Starts(d, s) && Run(d, serial, s, acts, t) && w < |s.writers|
    ensures IsChain(d, d.genesis, Records(t.rows)) && s.rows <= t.rows && |t.writers| == |s.writers|
    ensures var me := t.writers[w]; var jobs := s.writers[w].jobs;
            && Inserted(t.rows, w) == me.done && |me.done| <= |jobs|
            && (forall i :: 0 <= i < |me.done| ==> Carries(me.done[i].content, jobs[i]))
            && (me.phase.Finished? ==> |me.done| == |jobs|)
            && (me.phase.Raised? ==> |me.done| < |jobs|)
  {
    StartInv(d, s);
    RunInv(d, serial, s, acts, t);
    assert WriterInv(d, t.rows, t.writers[w], w);
  }

  /** Some step is enabled exactly as long as some writer has neither given up nor returned its whole batch. */
  lemma {:induction false} StuckIffAllReturned(d: Scheme, s: Store)
    requires Inv(d, s)
    ensures (exists a :: Enabled(s, a))
       <==> exists w :: 0 <= w < |s.writers| && !s.writers[w].phase.Raised? && |s.writers[w].done| < |s.writers[w].jobs|
  {
    if a :| Enabled(s, a) {
      assert WriterInv(d, s.rows, s.writers[a.w], a.w);
    }
    if w :| 0 <= w < |s.writers| && !s.writers[w].phase.Raised? && |s.writers[w].done| < |s.writers[w].jobs| {
      assert WriterInv(d, s.rows, s.writers[w], w);
      assert Enabled(s, Read(w, "")) || Enabled(s, Insert(w));
    }
  }

  // ---------------------------------------------------------------- the time of a record

  /** The times that writer `w` read the head at. */
  ghost function ReadTimes(acts: seq<Action>, w: nat): set<string>
  {
    set i | 0 <= i < |acts| && acts[i].Read? && acts[i].w == w :: acts[i].ts
  }

  ghost predicate Stamped(me: Writer, times: set<string>)
  {
    && |me.done| <= |me.jobs|
    && (forall i :: 0 <= i < |me.done| && me.jobs[i].Append? ==> me.done[i].content.ts in times)
    && (me.phase.Holding? ==>
          |me.done| < |me.jobs| && (me.jobs[|me.done|].Append? ==> me.phase.rec.content.ts in times))
  }

  lemma {:induction false} StampedStep(d: Scheme, serial: Serial, s: Store, a: Action, w: nat, times: set<string>)
    requires Enabled(s, a) && w < |s.writers| && Stamped(s.writers[w], times)
    ensures Stamped(Next(d, serial, s, a).writers[w], times + ReadTimes([a], w))
  {
    if a.Read? && a.w == w { assert [a][0].ts in ReadTimes([a], w); }
  }

  lemma {:induction false} StampedRun(d: Scheme, serial: Serial, s: Store, acts: seq<Action>, t: Store, w: nat,
                                      times: set<string>)
    requires Run(d, serial, s, acts, t) && w < |s.writers| && Stamped(s.writers[w], times)
    ensures w < |t.writers| && Stamped(t.writers[w], times + ReadTimes(acts, w))
    decreases acts
  {
    if acts == [] {
      assert times + ReadTimes(acts, w) == times;
    } else {
      var a, rest := acts[0], acts[1..];
      assert acts == [a] + rest;
      ReadTimesAppend([a], rest, w);
      StampedStep(d, serial, s, a, w, times);
      StampedRun(d, serial, Next(d, serial, s, a), rest, t, w, times + ReadTimes([a], w));
      assert times + ReadTimes([a], w) + ReadTimes(rest, w) == times + ReadTimes(acts, w);
    }
  }

  lemma {:induction false} ReadTimesAppend(a: seq<Action>, b: seq<Action>, w: nat)
    ensures ReadTimes(a + b, w) == ReadTimes(a, w) + ReadTimes(b, w)
  {
    forall ts | ts in ReadTimes(b, w) ensures ts in ReadTimes(a + b, w) {
      var i :| 0 <= i < |b| && b[i].Read? && b[i].w == w && b[i].ts == ts;
      assert (a + b)[|a| + i] == b[i];
    }
    forall ts | ts in ReadTimes(a, w) ensures ts in ReadTimes(a + b, w) {
      var i :| 0 <= i < |a| && a[i].Read? && a[i].w == w && a[i].ts == ts;
      assert (a + b)[i] == a[i];
    }
  }

  /** An appended record carries a time at which its writer read the head; a spliced one keeps its own. */
  lemma {:induction false} AppendsAreStamped(d: Scheme, serial: Serial, s: Store, acts: seq<Action>, t: Store, w: nat,
                                             i: nat)
    requires Starts(d, s) && Run(d, serial, s, acts, t) && w < |t.writers| && i < |t.writers[w].done|
    ensures w < |s.writers| && i < |s.writers[w].jobs|
    ensures match s.writers[w].jobs[i]
            case Append(_, _, _, _, _) =>
              exists n :: 0 <= n < |acts| && acts[n] == Read(w, t.writers[w].done[i].content.ts)
            case Splice(content) => t.writers[w].done[i].content.ts == content.ts
  {
    StartInv(d, s);
    RunInv(d, serial, s, acts, t);
    TableIsOneChain(d, serial, s, acts, t, w);
    StampedRun(d, serial, s, acts, t, w, {});
    if s.writers[w].jobs[i].Append? {
      assert t.writers[w].jobs[i].Append? && t.writers[w].done[i].content.ts in ReadTimes(acts, w);
    }
  }

  // ---------------------------------------------------------------- who wins, who loses

  /** With a collision-free hash an insert succeeds exactly when the head it was built on is still
      last, that is, when nobody has inserted since this writer read it. */
  lemma {:induction false} InsertWinsIffHeadIsLast(d: Scheme, s: Store, a: Action)
    requires Sound(d) && Inv(d, s) && Enabled(s, a) && a.Insert?
    ensures var me := s.writers[a.w];
            && (!Conflicts(s.rows, me.phase.rec) <==> me.phase.rec.prevHash == LoadHead(d, s.rows))
            && (!Conflicts(s.rows, me.phase.rec) <==> me.phase.seen == |s.rows|)
  {
    var me := s.writers[a.w];
    assert WriterInv(d, s.rows, me, a.w);
    ConflictIsStale(d, s.rows, me.phase.seen, me.phase.rec);
    assert s.rows[..|s.rows|] == s.rows;
    if me.phase.seen < |s.rows| {
      RecordsPrefix(s.rows, me.phase.seen);
      RecordsPrefix(s.rows, |s.rows|);
      HeadsDistinct(d, Records(s.rows), me.phase.seen, |s.rows|);
    }
  }

  /** Every failed attempt of the current record was beaten by a row inserted since it began, and
      none of those rows is the writer's own. */
  ghost predicate Beaten(rows: seq<Row>, w: Writer, i: int)
  {
    && w.from <= |rows|
    && (w.tries > 0 || w.phase.Holding? ==> forall k :: w.from <= k < |rows| ==> rows[k].owner != i)
    && (if w.phase.Holding? then w.phase.seen >= w.from + w.tries else w.tries > 0 ==> |rows| >= w.from + w.tries)
  }

  lemma {:induction false} BeatenStep(d: Scheme, serial: Serial, s: Store, a: Action)
    requires Sound(d) && Inv(d, s) && Enabled(s, a)
    requires forall w :: 0 <= w < |s.writers| ==> Beaten(s.rows, s.writers[w], w)
    ensures var t := Next(d, serial, s, a);
            forall w :: 0 <= w < |t.writers| ==> Beaten(t.rows, t.writers[w], w)
  {
    if a.Insert? {
      InsertWinsIffHeadIsLast(d, s, a);
    }
    var t := Next(d, serial, s, a);
    forall w | 0 <= w < |t.writers| ensures Beaten(t.rows, t.writers[w], w) {
      assert Beaten(s.rows, s.writers[w], w) && WriterInv(d, s.rows, s.writers[w], w);
      assert WriterInv(d, s.rows, s.writers[a.w], a.w);
    }
  }

  lemma {:induction false} BeatenRun(d: Scheme, serial: Serial, s: Store, acts: seq<Action>, t: Store)
    requires Sound(d) && Inv(d, s) && Run(d, serial, s, acts, t)
    requires forall w :: 0 <= w < |s.writers| ==> Beaten(s.rows, s.writers[w], w)
    ensures forall w :: 0 <= w < |t.writers| ==> Beaten(t.rows, t.writers[w], w)
    decreases acts
  {
    if acts != [] {
      StepInv(d, serial, s, acts[0]);
      BeatenStep(d, serial, s, acts[0]);
      BeatenRun(d, serial, Next(d, serial, s, acts[0]), acts[1..], t);
    }
  }

  /** A writer that gives up has lost to at least eight rows of other writers, inserted while it was
      trying; nothing else makes it raise. */
  lemma {:induction false} RaisingMeansEightLosses(d: Scheme, serial: Serial, s: Store, acts: seq<Action>, t: Store,
                                                   w: nat)
    requires Sound(d) && Starts(d, s) && Run(d, serial, s, acts, t)
    requires w < |t.writers| && t.writers[w].phase.Raised?
    ensures var from := t.writers[w].from;
            |t.rows| >= from + 8 && forall k :: from <= k < |t.rows| ==> t.rows[k].owner != w
  {
    StartInv(d, s);
    BeatenRun(d, serial, s, acts, t);
    RunInv(d, serial, s, acts, t);
    assert Beaten(t.rows, t.writers[w], w) && WriterInv(d, t.rows, t.writers[w], w);
  }

  // ---------------------------------------------------------------- serial numbers

  /** How many of these numbers are below `n`. */
  function Below(numbers: seq<nat>, n: nat): nat
  {
    if numbers == [] then 0
    else Below(numbers[..|numbers| - 1], n) + if numbers[|numbers| - 1] < n then 1 else 0
  }

  ghost predicate IsRowNumber(rows: seq<Row>, n: nat)
  {
    exists i :: 0 <= i < |rows| && rows[i].seqNo == n
  }

  /** Serial numbers start at 1 and increase; each one given out so far either is a row's or was burned, never both; and
      a row's number is its position plus the number of burned ones below it. */
  ghost predicate Numbered(serial: Serial, s: Store)
  {
    && s.nextSeq == |s.rows| + |s.burned| + 1
    && (serial.Reusing? ==> s.burned == [])
    && (forall i, j :: 0 <= i < j < |s.rows| ==> s.rows[i].seqNo < s.rows[j].seqNo)
    && (forall n: nat :: 1 <= n < s.nextSeq <==> IsRowNumber(s.rows, n) || n in s.burned)
    && (forall n: nat :: n in s.burned ==> !IsRowNumber(s.rows, n))
    && (forall i :: 0 <= i < |s.rows| ==> s.rows[i].seqNo == i + 1 + Below(s.burned, s.rows[i].seqNo))
  }

  lemma {:induction false} BelowAll(numbers: seq<nat>, n: nat)
    requires forall m :: m in numbers ==> m < n
    ensures Below(numbers, n) == |numbers|
  {
    if numbers != [] {
      var init := numbers[..|numbers| - 1];
      assert numbers[|numbers| - 1] in numbers && forall m :: m in init ==> m in numbers;
      BelowAll(init, n);
    }
  }

  lemma {:induction false} BelowNone(numbers: seq<nat>, n: nat)
    ensures Below(numbers, n) == 0 <==> forall m :: m in numbers ==> m >= n
  {
    if numbers != [] {
      var init, last := numbers[..|numbers| - 1], numbers[|numbers| - 1];
      BelowNone(init, n);
      assert last in numbers && forall m :: m in numbers <==> m in init || m == last;
    }
  }

  lemma {:induction false} BelowMore(numbers: seq<nat>, m: nat, n: nat)
    ensures Below(numbers + [m], n) == Below(numbers, n) + if m < n then 1 else 0
  {
    assert (numbers + [m])[..|numbers|] == numbers;
  }

  lemma {:induction false} RowNumbersGrow(rows: seq<Row>, r: Row, n: nat)
    ensures IsRowNumber(rows + [r], n) <==> IsRowNumber(rows, n) || n == r.seqNo
  {
    var more := rows + [r];
    assert more[|rows|] == r;
    if i :| 0 <= i < |rows| && rows[i].seqNo == n { assert more[i].seqNo == n; }
  }

  /** A row takes the next number. */
  lemma {:induction false} NumberTaken(serial: Serial, s: Store, t: Store, r: Row)
    requires Numbered(serial, s) && r.seqNo == s.nextSeq
    requires t.rows == s.rows + [r] && t.nextSeq == s.nextSeq + 1 && t.burned == s.burned
    ensures Numbered(serial, t)
  {
    forall n: nat ensures IsRowNumber(t.rows, n) <==> IsRowNumber(s.rows, n) || n == s.nextSeq {
      RowNumbersGrow(s.rows, r, n);
    }
    forall i | 0 <= i < |s.rows| ensures s.rows[i].seqNo < s.nextSeq { assert IsRowNumber(s.rows, s.rows[i].seqNo); }
    BelowAll(s.burned, s.nextSeq);
  }

  /** A rejected insert burns it. */
  lemma {:induction false} NumberBurned(s: Store, t: Store)
    requires Numbered(Burning, s) && t.rows == s.rows
    requires t.nextSeq == s.nextSeq + 1 && t.burned == s.burned + [s.nextSeq]
    ensures Numbered(Burning, t)
  {
    forall i | 0 <= i < |s.rows| ensures Below(t.burned, s.rows[i].seqNo) == Below(s.burned, s.rows[i].seqNo) {
      assert IsRowNumber(s.rows, s.rows[i].seqNo);
      BelowMore(s.burned, s.nextSeq, s.rows[i].seqNo);
    }
    forall n: nat ensures 1 <= n < t.nextSeq <==> IsRowNumber(t.rows, n) || n in t.burned {}
  }

  lemma {:induction false} NumberedStep(d: Scheme, serial: Serial, s: Store, a: Action)
    requires Numbered(serial, s) && Enabled(s, a)
    ensures Numbered(serial, Next(d, serial, s, a))
  {
    var t := Next(d, serial, s, a);
    if a.Insert? {
      var rec := s.writers[a.w].phase.rec;
      if !Conflicts(s.rows, rec) {
        NumberTaken(serial, s, t, Row(s.nextSeq, rec, a.w));
      } else if serial.Burning? {
        NumberBurned(s, t);
      } else {
        assert t.burned == s.burned + [] == s.burned;
      }
    }
  }

  /** Over any run: the numbers given out are exactly the rows' and those burned by rejected inserts, and a row's number
      is its position if and only if none below it was burned. */
  lemma {:induction false} NumberedRun(d: Scheme, serial: Serial, s: Store, acts: seq<Action>, t: Store)
    requires Numbered(serial, s) && Run(d, serial, s, acts, t)
    ensures Numbered(serial, t)
    ensures forall i :: 0 <= i < |t.rows| ==>
              (t.rows[i].seqNo == i + 1 <==> forall n :: n in t.burned ==> n >= t.rows[i].seqNo)
    decreases acts
  {
    if acts != [] {
      NumberedStep(d, serial, s, acts[0]);
      NumberedRun(d, serial, Next(d, serial, s, acts[0]), acts[1..], t);
    } else {
      forall i | 0 <= i < |t.rows|
        ensures t.rows[i].seqNo == i + 1 <==> forall n :: n in t.burned ==> n >= t.rows[i].seqNo
      {
        BelowNone(t.burned, t.rows[i].seqNo);
      }
    }
  }

  lemma {:induction false} StartNumbered(d: Scheme, serial: Serial, s: Store)
    requires Starts(d, s)
    ensures Numbered(serial, s)
  {
    forall n: nat ensures 1 <= n < s.nextSeq <==> IsRowNumber(s.rows, n) {
      if 1 <= n < s.nextSeq { assert s.rows[n - 1].seqNo == n; }
    }
  }
}
