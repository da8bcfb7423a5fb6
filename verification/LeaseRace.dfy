/** Scan-lease requests that interleave. The coordinator takes no lock: between the statement that counts the active
    heavy leases and the one that inserts the new lease, other requests and releases may run. */
module LeaseRace {
  import opened Lists
  import opened Lease

  /** Where a request stands: before its first statement, after expiring stale leases, after clearing its host's own,
      after counting, or done. A counted request remembers the holders it saw. The rest is history: `since` is how long
      the table was when the request cleared; `gained` and `lost` are how many active heavy leases have been added and
      have gone since it counted. */
  datatype Phase =
    | Waiting
    | Swept
    | Cleared(since: nat)
    | Counted(holders: seq<int>, since: nat, gained: nat, lost: nat)
    | Answered

  datatype Asking = Asking(host: int, lastSeen: Option<nat>, now: int, phase: Phase)

  datatype State = State(leases: seq<ScanLease>, asking: seq<Asking>)

  datatype Action = Sweep(r: nat) | Clear(r: nat) | Count(r: nat) | Insert(r: nat) | Report(host: int, now: int)

  predicate Enabled(s: Settings, st: State, a: Action)
  {
    match a
    case Sweep(r) => r < |st.asking| && st.asking[r].phase.Waiting?
    case Clear(r) => r < |st.asking| && st.asking[r].phase.Swept?
    case Count(r) => r < |st.asking| && st.asking[r].phase.Cleared? && IsHeavy(s, st.asking[r].lastSeen)
    case Insert(r) =>
      r < |st.asking| && (st.asking[r].phase.Counted? || (st.asking[r].phase.Cleared? && !IsHeavy(s, st.asking[r].lastSeen)))
    case Report(_, _) => true
  }

  function Heavy(leases: seq<ScanLease>): nat
  {
    |HeavyHosts(leases)|
  }

  function NotedOne(q: Asking, gained: nat, lost: nat): Asking
  {
    if q.phase.Counted? then q.(phase := q.phase.(gained := q.phase.gained + gained, lost := q.phase.lost + lost)) else q
  }

  /** Every counted request notes what has changed since. */
  function Noted(asking: seq<Asking>, gained: nat, lost: nat): (r: seq<Asking>)
    ensures |r| == |asking| && forall i :: 0 <= i < |r| ==> r[i] == NotedOne(asking[i], gained, lost)
  {
    seq(|asking|, i requires 0 <= i < |asking| => NotedOne(asking[i], gained, lost))
  }

  /** A table that has no more active heavy leases than the one before. */
  function Fewer(st: State, leases: seq<ScanLease>): State
  {
    var lost := if Heavy(leases) <= Heavy(st.leases) then Heavy(st.leases) - Heavy(leases) else 0;
    State(leases, Noted(st.asking, 0, lost))
  }

  /** A counted request grants itself a lease when it saw fewer than the maximum. */
  predicate Granting(s: Settings, q: Asking)
  {
    q.phase.Counted? && |q.phase.holders| < s.maxHeavy
  }

  function Next(s: Settings, st: State, a: Action): State
    requires ValidSettings(s) && Enabled(s, st, a)
  {
    match a
    case Sweep(r) =>
      var q := st.asking[r];
      var t := Fewer(st, ExpiredTable(st.leases, q.now));
      t.(asking := t.asking[r := q.(phase := Swept)])
    case Clear(r) =>
      var q := st.asking[r];
      var t := Fewer(st, ReleasedTable(st.leases, q.host, q.now));
      t.(asking := t.asking[r := q.(phase := Cleared(|st.leases|))])
    case Count(r) =>
      var q := st.asking[r];
      st.(asking := st.asking[r := q.(phase := Counted(HeavyHosts(st.leases), q.phase.since, 0, 0))])
    case Insert(r) =>
      var q := st.asking[r];
      var done := st.asking[r := q.(phase := Answered)];
      if q.phase.Cleared? then State(st.leases + [Grant(s, q.host, false, q.now)], done)
      else if Granting(s, q) then State(st.leases + [Grant(s, q.host, true, q.now)], Noted(done, 1, 0))
      else State(st.leases + [Advisory(s, q.host, q.phase.holders[0])], done)
    case Report(host, now) => Fewer(st, ReleasedTable(st.leases, host, now))
  }

  /** How many requests are about to grant themselves a heavy lease on a count they have already taken. */
  function Pending(s: Settings, asking: seq<Asking>): nat
  {
    if asking == [] then 0 else Pending(s, asking[..|asking| - 1]) + if Granting(s, asking[|asking| - 1]) then 1 else 0
  }

  /** `t` is reached from `st` by `acts`, with at most `width` requests pending at any time. */
  ghost predicate Run(s: Settings, width: nat, st: State, acts: seq<Action>, t: State)
    requires ValidSettings(s)
    decreases |acts|
  {
    && Pending(s, st.asking) <= width
    && if acts == [] then st == t
       else Enabled(s, st, acts[0]) && Run(s, width, Next(s, st, acts[0]), acts[1..], t)
  }

  /** No lease yet and nobody has asked. */
  ghost predicate Starts(st: State)
  {
    st.leases == [] && forall r :: 0 <= r < |st.asking| ==> st.asking[r].phase.Waiting?
  }

  // ---------------------------------------------------------------- one request alone

  /** A request that nobody interrupts leaves the table that the one-transaction model gives. */
  lemma {:induction false} AloneIsRequest(s: Settings, st: State, r: nat)
    requires ValidSettings(s) && r < |st.asking| && st.asking[r].phase.Waiting?
    ensures var q := st.asking[r];
            var swept := Next(s, st, Sweep(r));
            var cleared := Next(s, swept, Clear(r));
            if IsHeavy(s, q.lastSeen) then
              && Enabled(s, cleared, Count(r))
              && var counted := Next(s, cleared, Count(r));
                 && Enabled(s, counted, Insert(r))
                 && Next(s, counted, Insert(r)).leases == Requested(s, st.leases, q.host, q.lastSeen, q.now).0
            else
              && Enabled(s, cleared, Insert(r))
              && Next(s, cleared, Insert(r)).leases == Requested(s, st.leases, q.host, q.lastSeen, q.now).0
  {
  }

  // ---------------------------------------------------------------- what is inserted

  /** Only heavy scans are counted for. */
  ghost predicate CountedAreHeavy(s: Settings, st: State)
  {
    forall r :: 0 <= r < |st.asking| && st.asking[r].phase.Counted? ==>
      st.asking[r].lastSeen == None || st.asking[r].lastSeen.value >= s.heavyEntries
  }

  lemma {:induction false} CountedStep(s: Settings, st: State, a: Action)
    requires ValidSettings(s) && Enabled(s, st, a) && CountedAreHeavy(s, st)
    ensures CountedAreHeavy(s, Next(s, st, a))
  {
    var t := Next(s, st, a);
    forall r | 0 <= r < |t.asking| && t.asking[r].phase.Counted?
      ensures t.asking[r].lastSeen == None || t.asking[r].lastSeen.value >= s.heavyEntries
    {
      assert t.asking[r].lastSeen == st.asking[r].lastSeen;
    }
  }

  /** What a request inserts: a light one a light lease, once it has cleared; a heavy one, only once it has counted, a
      heavy lease if it saw fewer holders than the maximum and else an advisory that names the first holder it saw. */
  lemma {:induction false} InsertAdds(s: Settings, st: State, r: nat)
    requires ValidSettings(s) && CountedAreHeavy(s, st) && Enabled(s, st, Insert(r))
    ensures var q := st.asking[r]; var t := Next(s, st, Insert(r));
            |t.leases| == |st.leases| + 1 && t.leases[..|st.leases|] == st.leases && t.asking[r].phase == Answered
            && var l := t.leases[|st.leases|];
               if q.lastSeen.Some? && q.lastSeen.value < s.heavyEntries
               then q.phase.Cleared? && l == ScanLease(q.host, false, Active, Some(q.now + s.ttl), None, None, None)
               else
                 && q.phase.Counted?
                 && l == if |q.phase.holders| < s.maxHeavy
                         then ScanLease(q.host, true, Active, Some(q.now + s.ttl), None, None, None)
                         else ScanLease(q.host, true, Deferred, None, None, Some(q.phase.holders[0]), Some(s.retryAfter))
  {
    assert st.asking[r].phase.Counted? ==> st.asking[r].lastSeen == None || st.asking[r].lastSeen.value >= s.heavyEntries;
  }

  // ---------------------------------------------------------------- what a count is worth

  /** A count differs from the truth by what has come and gone since. */
  ghost predicate CountLaw(st: State)
  {
    forall r :: 0 <= r < |st.asking| && st.asking[r].phase.Counted? ==>
      Heavy(st.leases) + st.asking[r].phase.lost == |st.asking[r].phase.holders| + st.asking[r].phase.gained
  }

  lemma {:induction false} HeavyAppend(leases: seq<ScanLease>, l: ScanLease)
    ensures Heavy(leases + [l]) == Heavy(leases) + if l.status == Active && l.isHeavy then 1 else 0
  {
    assert (leases + [l])[..|leases|] == leases;
  }

  lemma {:induction false} CountLawStep(s: Settings, st: State, a: Action)
    requires ValidSettings(s) && CountLaw(st) && Enabled(s, st, a)
    ensures CountLaw(Next(s, st, a))
  {
    match a
    case Sweep(r) => CountLawFewer(st, ExpiredTable(st.leases, st.asking[r].now)) by {
      ExpiredHolders(st.leases, st.asking[r].now);
    }
    case Clear(r) => CountLawFewer(st, ReleasedTable(st.leases, st.asking[r].host, st.asking[r].now)) by {
      ReleasedHolders(st.leases, st.asking[r].host, st.asking[r].now);
    }
    case Count(r) =>
    case Insert(r) => CountLawInsert(s, st, r);
    case Report(host, now) => CountLawFewer(st, ReleasedTable(st.leases, host, now)) by {
      ReleasedHolders(st.leases, host, now);
    }
  }

  lemma {:induction false} CountLawFewer(st: State, leases: seq<ScanLease>)
    requires CountLaw(st) && Heavy(leases) <= Heavy(st.leases)
    ensures CountLaw(Fewer(st, leases))
  {
  }

  lemma {:induction false} CountLawInsert(s: Settings, st: State, r: nat)
    requires ValidSettings(s) && CountLaw(st) && Enabled(s, st, Insert(r))
    ensures CountLaw(Next(s, st, Insert(r)))
  {
    var t := Next(s, st, Insert(r));
    HeavyAppend(st.leases, t.leases[|st.leases|]);
    var gained := if Granting(s, st.asking[r]) then 1 else 0;
    assert Heavy(t.leases) == Heavy(st.leases) + gained;
    forall i | 0 <= i < |t.asking| && t.asking[i].phase.Counted?
      ensures Heavy(t.leases) + t.asking[i].phase.lost == |t.asking[i].phase.holders| + t.asking[i].phase.gained
    {
      assert i != r && t.asking[i] == NotedOne(st.asking[i], gained, 0);
    }
  }

  /** Only a granting insert adds an active heavy lease, and it adds one. */
  lemma {:induction false} HeavyStep(s: Settings, st: State, a: Action)
    requires ValidSettings(s) && Enabled(s, st, a)
    ensures a.Insert? && Granting(s, st.asking[a.r]) ==> Heavy(Next(s, st, a).leases) == Heavy(st.leases) + 1
    ensures !(a.Insert? && Granting(s, st.asking[a.r])) ==> Heavy(Next(s, st, a).leases) <= Heavy(st.leases)
  {
    match a
    case Sweep(r) => ExpiredHolders(st.leases, st.asking[r].now);
    case Clear(r) => ReleasedHolders(st.leases, st.asking[r].host, st.asking[r].now);
    case Count(r) =>
    case Insert(r) => HeavyAppend(st.leases, Next(s, st, a).leases[|st.leases|]);
    case Report(host, now) => ReleasedHolders(st.leases, host, now);
  }

  // ---------------------------------------------------------------- exactly when the limit is kept

  /** The insert acts on a count that is out of date by too much: what it saw and what was added since, less what has
      gone, already make up the maximum. */
  predicate Outrun(s: Settings, st: State, a: Action)
    requires Enabled(s, st, a)
  {
    a.Insert? && Granting(s, st.asking[a.r]) &&
    var p := st.asking[a.r].phase;
    |p.holders| + p.gained >= s.maxHeavy + p.lost
  }

  ghost predicate LimitKept(s: Settings, st: State, acts: seq<Action>)
    requires ValidSettings(s)
    decreases |acts|
  {
    Heavy(st.leases) <= s.maxHeavy
    && (acts != [] && Enabled(s, st, acts[0]) ==> LimitKept(s, Next(s, st, acts[0]), acts[1..]))
  }

  ghost predicate NoneOutrun(s: Settings, st: State, acts: seq<Action>)
    requires ValidSettings(s)
    decreases |acts|
  {
    acts != [] && Enabled(s, st, acts[0]) ==>
      !Outrun(s, st, acts[0]) && NoneOutrun(s, Next(s, st, acts[0]), acts[1..])
  }

  /** For every interleaving: the limit holds throughout if and only if no insert is outrun, that is, no insert acts on
      a count that other inserts have overtaken by as much as it left free, allowing for leases that have gone. */
  lemma {:induction false} LimitKeptIff(s: Settings, width: nat, st: State, acts: seq<Action>, t: State)
    requires ValidSettings(s) && Starts(st) && Run(s, width, st, acts, t)
    ensures LimitKept(s, st, acts) <==> NoneOutrun(s, st, acts)
  {
    LimitKeptFrom(s, width, st, acts, t);
  }

  lemma {:induction false} LimitKeptFrom(s: Settings, width: nat, st: State, acts: seq<Action>, t: State)
    requires ValidSettings(s) && CountLaw(st) && Run(s, width, st, acts, t) && Heavy(st.leases) <= s.maxHeavy
    ensures LimitKept(s, st, acts) <==> NoneOutrun(s, st, acts)
    decreases |acts|
  {
    if acts != [] {
      CountLawStep(s, st, acts[0]);
      HeavyStep(s, st, acts[0]);
      if !Outrun(s, st, acts[0]) { LimitKeptFrom(s, width, Next(s, st, acts[0]), acts[1..], t); }
    }
  }

  // ---------------------------------------------------------------- by how much it can be exceeded

  lemma {:induction false} PendingUpdate(s: Settings, asking: seq<Asking>, r: nat, q: Asking)
    requires r < |asking|
    ensures Pending(s, asking[r := q]) + (if Granting(s, asking[r]) then 1 else 0)
         == Pending(s, asking) + if Granting(s, q) then 1 else 0
  {
    var init := asking[..|asking| - 1];
    if r < |init| {
      assert asking[r := q][..|asking| - 1] == init[r := q];
      PendingUpdate(s, init, r, q);
    } else {
      assert asking[r := q][..|asking| - 1] == init;
    }
  }

  lemma {:induction false} PendingNoted(s: Settings, asking: seq<Asking>, gained: nat, lost: nat)
    ensures Pending(s, Noted(asking, gained, lost)) == Pending(s, asking)
  {
    if asking != [] {
      var init := asking[..|asking| - 1];
      PendingNoted(s, init, gained, lost);
      assert Noted(asking, gained, lost)[..|asking| - 1] == Noted(init, gained, lost);
    }
  }

  /** Noting that leases have gone, and a request's move from one phase before counting to another, leave it alone. */
  lemma {:induction false} PendingFewer(s: Settings, st: State, leases: seq<ScanLease>, r: nat, phase: Phase)
    requires Heavy(leases) <= Heavy(st.leases)
    ensures Pending(s, Fewer(st, leases).asking) == Pending(s, st.asking)
    ensures r < |st.asking| && !st.asking[r].phase.Counted? && !phase.Counted? ==>
              Pending(s, Fewer(st, leases).asking[r := st.asking[r].(phase := phase)]) == Pending(s, st.asking)
  {
    var f := Fewer(st, leases);
    PendingNoted(s, st.asking, 0, Heavy(st.leases) - Heavy(leases));
    if r < |st.asking| && !st.asking[r].phase.Counted? && !phase.Counted? {
      assert f.asking[r] == st.asking[r];
      PendingUpdate(s, f.asking, r, st.asking[r].(phase := phase));
    }
  }

  lemma {:induction false} PendingInsert(s: Settings, st: State, r: nat)
    requires ValidSettings(s) && Enabled(s, st, Insert(r))
    ensures Pending(s, Next(s, st, Insert(r)).asking) + (if Granting(s, st.asking[r]) then 1 else 0)
         == Pending(s, st.asking)
  {
    PendingUpdate(s, st.asking, r, st.asking[r].(phase := Answered));
    PendingNoted(s, st.asking[r := st.asking[r].(phase := Answered)], 1, 0);
  }

  lemma {:induction false} PendingStep(s: Settings, st: State, a: Action)
    requires ValidSettings(s) && Enabled(s, st, a)
    ensures var t := Next(s, st, a);
            match a
            case Count(r) =>
              Pending(s, t.asking) == Pending(s, st.asking) + if Heavy(st.leases) < s.maxHeavy then 1 else 0
            case Insert(r) => Pending(s, t.asking) + (if Granting(s, st.asking[r]) then 1 else 0) == Pending(s, st.asking)
            case _ => Pending(s, t.asking) == Pending(s, st.asking)
  {
    match a
    case Sweep(r) =>
      ExpiredHolders(st.leases, st.asking[r].now);
      PendingFewer(s, st, ExpiredTable(st.leases, st.asking[r].now), r, Swept);
    case Clear(r) =>
      var q := st.asking[r];
      ReleasedHolders(st.leases, q.host, q.now);
      PendingFewer(s, st, ReleasedTable(st.leases, q.host, q.now), r, Cleared(|st.leases|));
    case Count(r) => PendingUpdate(s, st.asking, r, Next(s, st, a).asking[r]);
    case Insert(r) => PendingInsert(s, st, r);
    case Report(host, now) =>
      ReleasedHolders(st.leases, host, now);
      PendingFewer(s, st, ReleasedTable(st.leases, host, now), |st.asking|, Waiting);
  }

  /** If never more than `width` requests are between their count and their grant, there are never more than
      `maxHeavy - 1 + width` active heavy leases; with `width` 1 that is the limit. */
  lemma {:induction false} ExcessBounded(s: Settings, width: nat, st: State, acts: seq<Action>, t: State)
    requires ValidSettings(s) && width >= 1 && Starts(st) && Run(s, width, st, acts, t)
    ensures Heavy(t.leases) + Pending(s, t.asking) <= s.maxHeavy - 1 + width
  {
    NonePending(s, st.asking);
    ExcessFrom(s, width, st, acts, t);
  }

  lemma {:induction false} NonePending(s: Settings, asking: seq<Asking>)
    requires forall r :: 0 <= r < |asking| ==> !Granting(s, asking[r])
    ensures Pending(s, asking) == 0
  {
    if asking != [] { NonePending(s, asking[..|asking| - 1]); }
  }

  lemma {:induction false} ExcessFrom(s: Settings, width: nat, st: State, acts: seq<Action>, t: State)
    requires ValidSettings(s) && width >= 1 && Run(s, width, st, acts, t)
    requires Heavy(st.leases) + Pending(s, st.asking) <= s.maxHeavy - 1 + width
    ensures Heavy(t.leases) + Pending(s, t.asking) <= s.maxHeavy - 1 + width
    decreases |acts|
  {
    if acts != [] {
      HeavyStep(s, st, acts[0]);
      PendingStep(s, st, acts[0]);
      assert Pending(s, Next(s, st, acts[0]).asking) <= width;
      ExcessFrom(s, width, Next(s, st, acts[0]), acts[1..], t);
    }
  }

  // ---------------------------------------------------------------- and that it is exceeded by that much

  lemma {:induction false} RunThen(s: Settings, width: nat, st: State, xs: seq<Action>, mid: State, ys: seq<Action>,
                                   t: State)
    requires ValidSettings(s) && Run(s, width, st, xs, mid) && Run(s, width, mid, ys, t)
    ensures Run(s, width, st, xs + ys, t)
    decreases |xs|
  {
    if xs == [] {
      assert xs + ys == ys;
    } else {
      assert (xs + ys)[0] == xs[0] && (xs + ys)[1..] == xs[1..] + ys;
      RunThen(s, width, Next(s, st, xs[0]), xs[1..], mid, ys, t);
    }
  }

  lemma {:induction false} RunOne(s: Settings, width: nat, st: State, a: Action)
    requires ValidSettings(s) && Enabled(s, st, a)
    requires Pending(s, st.asking) <= width && Pending(s, Next(s, st, a).asking) <= width
    ensures Run(s, width, st, [a], Next(s, st, a))
  {
    assert [a][1..] == [];
    assert Run(s, width, Next(s, st, a), [], Next(s, st, a));
  }

  /** Heavy leases of the hosts 0 to n - 1, all granted at time 0. */
  function Leases(s: Settings, n: nat): (leases: seq<ScanLease>)
    ensures |leases| == n && forall i :: 0 <= i < n ==> leases[i] == Grant(s, i, true, 0)
  {
    seq(n, i => Grant(s, i, true, 0))
  }

  function Ask(host: int, phase: Phase): Asking
  {
    Asking(host, None, 0, phase)
  }

  /** `done` hosts hold leases; of the others, those before `upto` have counted `holders`, the whole table then, and seen
      `gained` inserts since. */
  function Crowd(s: Settings, all: nat, done: nat, upto: nat, holders: seq<int>, gained: nat): (st: State)
    ensures st.leases == Leases(s, done) && |st.asking| == all
  {
    State(Leases(s, done),
          seq(all, i => if i < done then Ask(i, Answered)
                        else if i < upto then Ask(i, Counted(holders, |holders|, gained, 0))
                        else Ask(i, Waiting)))
  }

  lemma {:induction false} LeasesHeavy(s: Settings, n: nat)
    ensures Heavy(Leases(s, n)) == n
  {
    if n > 0 {
      LeasesHeavy(s, n - 1);
      assert Leases(s, n)[..n - 1] == Leases(s, n - 1);
    }
  }

  lemma {:induction false} NothingToSettle(s: Settings, n: nat, host: nat)
    requires ValidSettings(s) && host >= n
    ensures ExpiredTable(Leases(s, n), 0) == ReleasedTable(Leases(s, n), host, 0) == Leases(s, n)
  {
  }

  lemma {:induction false} NothingToNote(asking: seq<Asking>)
    ensures Noted(asking, 0, 0) == asking
  {
  }

  /** Some run leads from `st` to `t`. */
  ghost predicate Reaches(s: Settings, width: nat, st: State, t: State)
    requires ValidSettings(s)
  {
    exists acts :: Run(s, width, st, acts, t)
  }

  lemma {:induction false} ReachOne(s: Settings, width: nat, st: State, a: Action, t: State)
    requires ValidSettings(s) && Enabled(s, st, a) && t == Next(s, st, a)
    requires Pending(s, st.asking) <= width && Pending(s, t.asking) <= width
    ensures Reaches(s, width, st, t)
  {
    RunOne(s, width, st, a);
  }

  lemma {:induction false} ReachThen(s: Settings, width: nat, st: State, mid: State, t: State)
    requires ValidSettings(s) && Reaches(s, width, st, mid) && Reaches(s, width, mid, t)
    ensures Reaches(s, width, st, t)
  {
    var xs :| Run(s, width, st, xs, mid);
    var ys :| Run(s, width, mid, ys, t);
    RunThen(s, width, st, xs, mid, ys, t);
  }

  /** The next waiting host sweeps, which changes no lease. */
  lemma {:induction false} SweepsNothing(s: Settings, all: nat, done: nat, upto: nat, holders: seq<int>)
    requires ValidSettings(s) && done <= upto < all
    ensures var st := Crowd(s, all, done, upto, holders, 0);
            Enabled(s, st, Sweep(upto))
            && Next(s, st, Sweep(upto)) == State(st.leases, st.asking[upto := Ask(upto, Swept)])
  {
    var st := Crowd(s, all, done, upto, holders, 0);
    assert st.asking[upto] == Ask(upto, Waiting);
    NothingToSettle(s, done, upto);
    NothingToNote(st.asking);
  }

  /** It clears, which changes none either. */
  lemma {:induction false} ClearsNothing(s: Settings, st: State, done: nat, upto: nat)
    requires ValidSettings(s) && done <= upto < |st.asking| && st.leases == Leases(s, done)
    requires st.asking[upto] == Ask(upto, Swept)
    ensures Enabled(s, st, Clear(upto))
            && Next(s, st, Clear(upto)) == State(st.leases, st.asking[upto := Ask(upto, Cleared(done))])
  {
    NothingToSettle(s, done, upto);
    NothingToNote(st.asking);
  }

  /** And it counts. */
  lemma {:induction false} ThenCounts(s: Settings, all: nat, done: nat, upto: nat)
    requires ValidSettings(s) && done <= upto < all
    ensures var holders := HeavyHosts(Leases(s, done));
            var st := Crowd(s, all, done, upto, holders, 0);
            var mid := State(st.leases, st.asking[upto := Ask(upto, Cleared(done))]);
            Enabled(s, mid, Count(upto)) && Next(s, mid, Count(upto)) == Crowd(s, all, done, upto + 1, holders, 0)
  {
    var holders := HeavyHosts(Leases(s, done));
    var st := Crowd(s, all, done, upto, holders, 0);
    var mid := State(st.leases, st.asking[upto := Ask(upto, Cleared(done))]);
    LeasesHeavy(s, done);
    assert mid.asking[upto] == Ask(upto, Cleared(done));
    assert Next(s, mid, Count(upto)).asking == Crowd(s, all, done, upto + 1, holders, 0).asking;
  }

  lemma {:induction false} OneMoreCounts(s: Settings, width: nat, all: nat, done: nat, upto: nat, st: State, t: State)
    requires ValidSettings(s) && done <= upto < all && done < s.maxHeavy && upto - done < width
    requires st == Crowd(s, all, done, upto, HeavyHosts(Leases(s, done)), 0)
    requires t == Crowd(s, all, done, upto + 1, HeavyHosts(Leases(s, done)), 0)
    requires Pending(s, st.asking) == upto - done
    ensures Reaches(s, width, st, t) && Pending(s, t.asking) == upto + 1 - done
  {
    var swept := State(st.leases, st.asking[upto := Ask(upto, Swept)]);
    var cleared := State(st.leases, st.asking[upto := Ask(upto, Cleared(done))]);
    SweepsNothing(s, all, done, upto, HeavyHosts(Leases(s, done)));
    PendingStep(s, st, Sweep(upto));
    ReachOne(s, width, st, Sweep(upto), swept);
    assert swept.asking[upto := Ask(upto, Cleared(done))] == cleared.asking;
    ClearsNothing(s, swept, done, upto);
    PendingStep(s, swept, Clear(upto));
    ReachOne(s, width, swept, Clear(upto), cleared);
    CountsLast(s, width, all, done, upto, cleared, t);
    ReachThen(s, width, st, swept, cleared);
    ReachThen(s, width, st, cleared, t);
  }

  lemma {:induction false} CountsLast(s: Settings, width: nat, all: nat, done: nat, upto: nat, cleared: State, t: State)
    requires ValidSettings(s) && done <= upto < all && done < s.maxHeavy && upto - done < width
    requires cleared == State(Leases(s, done), Crowd(s, all, done, upto, HeavyHosts(Leases(s, done)), 0)
                                                .asking[upto := Ask(upto, Cleared(done))])
    requires t == Crowd(s, all, done, upto + 1, HeavyHosts(Leases(s, done)), 0)
    requires Pending(s, cleared.asking) == upto - done
    ensures Reaches(s, width, cleared, t) && Pending(s, t.asking) == upto + 1 - done
  {
    ThenCounts(s, all, done, upto);
    LeasesHeavy(s, done);
    PendingStep(s, cleared, Count(upto));
    ReachOne(s, width, cleared, Count(upto), t);
  }

  /** The first counted host inserts. */
  lemma {:induction false} InsertsNext(s: Settings, all: nat, done: nat, upto: nat, holders: seq<int>, gained: nat)
    requires ValidSettings(s) && done < upto <= all && |holders| < s.maxHeavy
    ensures var st := Crowd(s, all, done, upto, holders, gained);
            Enabled(s, st, Insert(done)) && Granting(s, st.asking[done])
            && Next(s, st, Insert(done)) == Crowd(s, all, done + 1, upto, holders, gained + 1)
  {
    var st, t := Crowd(s, all, done, upto, holders, gained), Crowd(s, all, done + 1, upto, holders, gained + 1);
    assert st.asking[done] == Ask(done, Counted(holders, |holders|, gained, 0));
    assert Next(s, st, Insert(done)).leases == t.leases;
    assert Next(s, st, Insert(done)).asking == t.asking;
  }

  lemma {:induction false} OneMoreInserts(s: Settings, width: nat, all: nat, done: nat, upto: nat, holders: seq<int>,
                                          gained: nat, st: State, t: State)
    requires ValidSettings(s) && done < upto <= all && |holders| < s.maxHeavy && upto - done <= width
    requires st == Crowd(s, all, done, upto, holders, gained)
    requires t == Crowd(s, all, done + 1, upto, holders, gained + 1)
    requires Pending(s, st.asking) == upto - done
    ensures Reaches(s, width, st, t) && Pending(s, t.asking) == upto - (done + 1)
  {
    InsertsNext(s, all, done, upto, holders, gained);
    PendingStep(s, st, Insert(done));
    ReachOne(s, width, st, Insert(done), t);
  }

  lemma {:induction false} AllCount(s: Settings, width: nat, all: nat, done: nat, upto: nat, st: State, t: State)
    requires ValidSettings(s) && done < s.maxHeavy && done <= upto <= all && upto - done <= width
    requires st == Crowd(s, all, done, done, HeavyHosts(Leases(s, done)), 0) && Pending(s, st.asking) == 0
    requires t == Crowd(s, all, done, upto, HeavyHosts(Leases(s, done)), 0)
    ensures Reaches(s, width, st, t) && Pending(s, t.asking) == upto - done
    decreases upto
  {
    if upto == done {
      assert Run(s, width, st, [], t);
    } else {
      var mid := Crowd(s, all, done, upto - 1, HeavyHosts(Leases(s, done)), 0);
      AllCount(s, width, all, done, upto - 1, st, mid);
      OneMoreCounts(s, width, all, done, upto - 1, mid, t);
      ReachThen(s, width, st, mid, t);
    }
  }

  lemma {:induction false} AllInsert(s: Settings, width: nat, all: nat, done: nat, upto: nat, holders: seq<int>,
                                     gained: nat, st: State, t: State)
    requires ValidSettings(s) && done <= upto <= all && |holders| < s.maxHeavy && upto - done <= width
    requires st == Crowd(s, all, done, upto, holders, gained) && Pending(s, st.asking) == upto - done
    requires t == Crowd(s, all, upto, upto, holders, gained + upto - done)
    ensures Reaches(s, width, st, t) && Pending(s, t.asking) == 0
    decreases upto - done
  {
    if done == upto {
      assert Run(s, width, st, [], t);
    } else {
      var mid := Crowd(s, all, done + 1, upto, holders, gained + 1);
      OneMoreInserts(s, width, all, done, upto, holders, gained, st, mid);
      AllInsert(s, width, all, done + 1, upto, holders, gained + 1, mid, t);
      ReachThen(s, width, st, mid, t);
    }
  }

  /** From a crowd of `done` holders, `n` more hosts count and then all of them insert. */
  lemma {:induction false} Burst(s: Settings, width: nat, all: nat, done: nat, n: nat, st: State, t: State)
    requires ValidSettings(s) && done < s.maxHeavy && done + n <= all && n <= width
    requires st == Crowd(s, all, done, done, [], 0) && Pending(s, st.asking) == 0
    requires t == Crowd(s, all, done + n, done + n, [], 0)
    ensures Reaches(s, width, st, t) && Pending(s, t.asking) == 0
  {
    var holders := HeavyHosts(Leases(s, done));
    var mid := Crowd(s, all, done, done + n, holders, 0);
    LeasesHeavy(s, done);
    NobodyCounted(s, all, done, holders, 0);
    NobodyCounted(s, all, done + n, holders, n);
    AllCount(s, width, all, done, done + n, st, mid);
    AllInsert(s, width, all, done, done + n, holders, 0, mid, t);
    ReachThen(s, width, st, mid, t);
  }

  lemma {:induction false} NobodyCounted(s: Settings, all: nat, done: nat, holders: seq<int>, gained: nat)
    ensures Crowd(s, all, done, done, holders, gained) == Crowd(s, all, done, done, [], 0)
  {
    assert Crowd(s, all, done, done, holders, gained).asking == Crowd(s, all, done, done, [], 0).asking;
  }

  /** Hosts one after the other, up to one short of the maximum. */
  lemma {:induction false} FillUp(s: Settings, width: nat, all: nat, n: nat, st: State, t: State)
    requires ValidSettings(s) && width >= 1 && n < s.maxHeavy && n <= all
    requires st == Crowd(s, all, 0, 0, [], 0) && t == Crowd(s, all, n, n, [], 0)
    ensures Reaches(s, width, st, t) && Pending(s, t.asking) == 0
    decreases n
  {
    if n == 0 {
      NonePending(s, st.asking);
      assert Run(s, width, st, [], t);
    } else {
      var mid := Crowd(s, all, n - 1, n - 1, [], 0);
      FillUp(s, width, all, n - 1, st, mid);
      Burst(s, width, all, n - 1, 1, mid, t);
      ReachThen(s, width, st, mid, t);
    }
  }

  /** The bound is attained: whatever the limit, if `width` requests may be between count and grant there is a run that
      ends with `maxHeavy - 1 + width` active heavy leases. So the limit is safe exactly when no two such requests may
      overlap. */
  lemma {:induction false} ExcessAttained(s: Settings, width: nat) returns (st: State, acts: seq<Action>, t: State)
    requires ValidSettings(s) && width >= 1
    ensures Starts(st) && Run(s, width, st, acts, t) && Heavy(t.leases) == s.maxHeavy - 1 + width
  {
    var base := s.maxHeavy - 1;
    var all := base + width;
    st, t := Crowd(s, all, 0, 0, [], 0), Crowd(s, all, all, all, [], 0);
    var full := Crowd(s, all, base, base, [], 0);
    FillUp(s, width, all, base, st, full);
    Burst(s, width, all, base, width, full, t);
    ReachThen(s, width, st, full, t);
    LeasesHeavy(s, all);
    acts :| Run(s, width, st, acts, t);
  }

  // ---------------------------------------------------------------- one lease per host

  predicate Busy(q: Asking)
  {
    q.phase.Cleared? || q.phase.Counted?
  }

  predicate ActiveFor(l: ScanLease, host: int)
  {
    l.status == Active && l.host == host
  }

  /** A lease is inserted for a host that was given another one since this request cleared: some request of the same
      host, overlapping this one, inserted it, and it has not gone. */
  ghost predicate Overlapped(s: Settings, st: State, a: Action)
    requires Enabled(s, st, a)
  {
    a.Insert? &&
    var q := st.asking[a.r];
    && (q.phase.Cleared? || Granting(s, q))
    && exists i :: q.phase.since <= i < |st.leases| && ActiveFor(st.leases[i], q.host)
  }

  /** What clearing is worth: nothing that was in the table then is an active lease of the host. */
  ghost predicate ClearLaw(st: State)
  {
    forall r :: 0 <= r < |st.asking| && Busy(st.asking[r]) ==> ClearedFrom(st.leases, st.asking[r].host, st.asking[r].phase)
  }

  ghost predicate ClearedFrom(leases: seq<ScanLease>, host: int, phase: Phase)
    requires phase.Cleared? || phase.Counted?
  {
    phase.since <= |leases| && forall i :: 0 <= i < phase.since ==> !ActiveFor(leases[i], host)
  }

  ghost predicate HostsKept(s: Settings, st: State, acts: seq<Action>)
    requires ValidSettings(s)
    decreases |acts|
  {
    OnePerHost(st.leases) && (acts != [] && Enabled(s, st, acts[0]) ==> HostsKept(s, Next(s, st, acts[0]), acts[1..]))
  }

  ghost predicate NoneOverlapped(s: Settings, st: State, acts: seq<Action>)
    requires ValidSettings(s)
    decreases |acts|
  {
    acts != [] && Enabled(s, st, acts[0]) ==>
      !Overlapped(s, st, acts[0]) && NoneOverlapped(s, Next(s, st, acts[0]), acts[1..])
  }

  /** No step makes a lease active again, and rows stay where they are. */
  lemma {:induction false} RowsAge(s: Settings, st: State, a: Action)
    requires ValidSettings(s) && Enabled(s, st, a)
    ensures var t := Next(s, st, a);
            && |st.leases| <= |t.leases|
            && forall i, h :: 0 <= i < |st.leases| && ActiveFor(t.leases[i], h) ==> ActiveFor(st.leases[i], h)
  {
  }

  lemma {:induction false} ClearLawStep(s: Settings, st: State, a: Action)
    requires ValidSettings(s) && Enabled(s, st, a) && ClearLaw(st)
    ensures ClearLaw(Next(s, st, a))
  {
    var t := Next(s, st, a);
    RowsAge(s, st, a);
    forall r | 0 <= r < |t.asking| && Busy(t.asking[r])
      ensures ClearedFrom(t.leases, t.asking[r].host, t.asking[r].phase)
    {
      if !(a.Clear? && r == a.r) {
        assert Busy(st.asking[r]) && t.asking[r].host == st.asking[r].host;
        assert t.asking[r].phase.since == st.asking[r].phase.since;
        assert ClearedFrom(st.leases, st.asking[r].host, st.asking[r].phase);
      }
    }
  }

  lemma {:induction false} HostsStep(s: Settings, st: State, a: Action)
    requires ValidSettings(s) && Enabled(s, st, a) && OnePerHost(st.leases) && ClearLaw(st)
    ensures OnePerHost(Next(s, st, a).leases) <==> !Overlapped(s, st, a)
  {
    var t := Next(s, st, a);
    if Overlapped(s, st, a) {
      var q := st.asking[a.r];
      var i :| q.phase.since <= i < |st.leases| && ActiveFor(st.leases[i], q.host);
      assert t.leases[i] == st.leases[i] && t.leases[|st.leases|].host == st.leases[i].host;
    } else if a.Insert? {
      var q := st.asking[a.r];
      assert ClearedFrom(st.leases, q.host, q.phase);
      forall i | 0 <= i < |st.leases| && t.leases[|st.leases|].status == Active
        ensures !ActiveFor(st.leases[i], q.host) {}
    } else {
      RowsAge(s, st, a);
      forall i, j | 0 <= i < j < |t.leases| && t.leases[i].status == Active && t.leases[j].status == Active
        ensures t.leases[i].host != t.leases[j].host
      {
        assert ActiveFor(t.leases[i], t.leases[i].host) && ActiveFor(t.leases[j], t.leases[j].host);
      }
    }
  }

  /** For every interleaving: each host has at most one active lease throughout if and only if no insert is overlapped,
      that is, no lease is inserted for a host that was given another since the inserting request cleared, unless that
      one has gone. What the host held before plays no part: clearing dealt with it. */
  lemma {:induction false} HostsKeptIff(s: Settings, width: nat, st: State, acts: seq<Action>, t: State)
    requires ValidSettings(s) && Starts(st) && Run(s, width, st, acts, t)
    ensures HostsKept(s, st, acts) <==> NoneOverlapped(s, st, acts)
  {
    HostsKeptFrom(s, width, st, acts, t);
  }

  lemma {:induction false} HostsKeptFrom(s: Settings, width: nat, st: State, acts: seq<Action>, t: State)
    requires ValidSettings(s) && OnePerHost(st.leases) && ClearLaw(st) && Run(s, width, st, acts, t)
    ensures HostsKept(s, st, acts) <==> NoneOverlapped(s, st, acts)
    decreases |acts|
  {
    if acts != [] {
      HostsStep(s, st, acts[0]);
      ClearLawStep(s, st, acts[0]);
      if !Overlapped(s, st, acts[0]) { HostsKeptFrom(s, width, Next(s, st, acts[0]), acts[1..], t); }
    }
  }

  /** No host has two requests between clearing and inserting. */
  ghost predicate OneAtATime(st: State)
  {
    forall i, j :: 0 <= i < j < |st.asking| && Busy(st.asking[i]) && Busy(st.asking[j]) ==>
      st.asking[i].host != st.asking[j].host
  }

  ghost predicate HostsTakeTurns(s: Settings, st: State, acts: seq<Action>)
    requires ValidSettings(s)
    decreases |acts|
  {
    OneAtATime(st) && (acts != [] && Enabled(s, st, acts[0]) ==> HostsTakeTurns(s, Next(s, st, acts[0]), acts[1..]))
  }

  /** A host with a request under way has no active lease. */
  ghost predicate BusyHoldNothing(st: State)
  {
    forall r, i :: 0 <= r < |st.asking| && Busy(st.asking[r]) && 0 <= i < |st.leases| && st.leases[i].status == Active ==>
      st.leases[i].host != st.asking[r].host
  }

  lemma {:induction false} TurnsStep(s: Settings, st: State, a: Action)
    requires ValidSettings(s) && Enabled(s, st, a) && OneAtATime(st) && BusyHoldNothing(st)
    ensures BusyHoldNothing(Next(s, st, a)) && !Overlapped(s, st, a)
  {
    var t := Next(s, st, a);
    forall r, i | 0 <= r < |t.asking| && Busy(t.asking[r]) && 0 <= i < |t.leases| && t.leases[i].status == Active
      ensures t.leases[i].host != t.asking[r].host
    {
      if a.Clear? && r == a.r {
      } else {
        assert Busy(st.asking[r]) && t.asking[r].host == st.asking[r].host;
        if a.Insert? { assert Busy(st.asking[a.r]) && !Busy(t.asking[a.r]); }
      }
    }
  }

  /** Hosts that do not overlap with themselves keep one lease each, however requests of different hosts interleave. */
  lemma {:induction false} TurnsKeepHosts(s: Settings, st: State, acts: seq<Action>)
    requires ValidSettings(s) && HostsTakeTurns(s, st, acts) && BusyHoldNothing(st)
    ensures NoneOverlapped(s, st, acts)
    decreases |acts|
  {
    if acts != [] && Enabled(s, st, acts[0]) {
      TurnsStep(s, st, acts[0]);
      TurnsKeepHosts(s, Next(s, st, acts[0]), acts[1..]);
    }
  }

  /** Two requests of one host, as far as the phases say. */
  function Pair(host: int, now: int, leases: seq<ScanLease>, first: Phase, second: Phase): State
  {
    State(leases, [Asking(host, Some(0), now, first), Asking(host, Some(0), now, second)])
  }

  lemma {:induction false} PairPending(s: Settings, st: State)
    requires |st.asking| == 2 && !st.asking[0].phase.Counted? && !st.asking[1].phase.Counted?
    ensures Pending(s, st.asking) == 0
  {
    NonePending(s, st.asking);
  }

  lemma {:induction false} PairSweeps(s: Settings, host: int, now: int)
    requires ValidSettings(s)
    ensures Reaches(s, 0, Pair(host, now, [], Waiting, Waiting), Pair(host, now, [], Swept, Swept))
  {
    var st, mid, t := Pair(host, now, [], Waiting, Waiting), Pair(host, now, [], Swept, Waiting),
                      Pair(host, now, [], Swept, Swept);
    PairPending(s, st);
    PairPending(s, mid);
    PairPending(s, t);
    NothingToNote(st.asking);
    NothingToNote(mid.asking);
    assert ExpiredTable([], now) == [];
    ReachOne(s, 0, st, Sweep(0), mid) by { assert Next(s, st, Sweep(0)).asking == mid.asking; }
    ReachOne(s, 0, mid, Sweep(1), t) by { assert Next(s, mid, Sweep(1)).asking == t.asking; }
    ReachThen(s, 0, st, mid, t);
  }

  lemma {:induction false} PairClears(s: Settings, host: int, now: int)
    requires ValidSettings(s)
    ensures Reaches(s, 0, Pair(host, now, [], Swept, Swept), Pair(host, now, [], Cleared(0), Cleared(0)))
  {
    var st, mid, t := Pair(host, now, [], Swept, Swept), Pair(host, now, [], Cleared(0), Swept),
                      Pair(host, now, [], Cleared(0), Cleared(0));
    PairPending(s, st);
    PairPending(s, mid);
    PairPending(s, t);
    NothingToNote(st.asking);
    NothingToNote(mid.asking);
    assert ReleasedTable([], host, now) == [];
    ReachOne(s, 0, st, Clear(0), mid) by { assert Next(s, st, Clear(0)).asking == mid.asking; }
    ReachOne(s, 0, mid, Clear(1), t) by { assert Next(s, mid, Clear(1)).asking == t.asking; }
    ReachThen(s, 0, st, mid, t);
  }

  lemma {:induction false} PairInserts(s: Settings, host: int, now: int)
    requires ValidSettings(s)
    ensures var l := Grant(s, host, false, now);
            Reaches(s, 0, Pair(host, now, [], Cleared(0), Cleared(0)), Pair(host, now, [l, l], Answered, Answered))
  {
    var l := Grant(s, host, false, now);
    var st, mid, t := Pair(host, now, [], Cleared(0), Cleared(0)), Pair(host, now, [l], Answered, Cleared(0)),
                      Pair(host, now, [l, l], Answered, Answered);
    PairPending(s, st);
    PairPending(s, mid);
    PairPending(s, t);
    ReachOne(s, 0, st, Insert(0), mid) by { assert Next(s, st, Insert(0)).asking == mid.asking; }
    ReachOne(s, 0, mid, Insert(1), t) by { assert Next(s, mid, Insert(1)).asking == t.asking; }
    ReachThen(s, 0, st, mid, t);
  }

  /** Two overlapping requests of one host leave it with two active leases. */
  lemma {:induction false} OverlapDoubles(s: Settings, host: int, now: int) returns (st: State, acts: seq<Action>, t: State)
    requires ValidSettings(s)
    ensures Starts(st) && Run(s, 0, st, acts, t) && ActiveOf(t.leases, host) == 2
  {
    var l := Grant(s, host, false, now);
    st, t := Pair(host, now, [], Waiting, Waiting), Pair(host, now, [l, l], Answered, Answered);
    PairSweeps(s, host, now);
    PairClears(s, host, now);
    ReachThen(s, 0, st, Pair(host, now, [], Swept, Swept), Pair(host, now, [], Cleared(0), Cleared(0)));
    PairInserts(s, host, now);
    ReachThen(s, 0, st, Pair(host, now, [], Cleared(0), Cleared(0)), t);
    assert t.leases[..1] == [l] && [l][..0] == [];
    assert ActiveOf([l], host) == 1;
    acts :| Run(s, 0, st, acts, t);
  }
}
