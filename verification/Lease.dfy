/** The scan-lease coordinator (`scan_coordinator.py`) when each request or release is one transaction on the table;
    `LeaseRace` lets their statements interleave. */
module Lease {
  import opened Lists

  datatype Settings = Settings(maxHeavy: nat, ttl: nat, retryAfter: nat, heavyEntries: nat)

  /** The bounds the settings model enforces. */
  predicate ValidSettings(s: Settings)
  {
    s.maxHeavy >= 1 && s.ttl >= 60 && s.retryAfter >= 60 && s.heavyEntries >= 1
  }

  datatype Status = Active | Deferred | Expired | Released

  datatype ScanLease = ScanLease(
    host: int,
    isHeavy: bool,
    status: Status,
    expiresAt: Option<int>,
    releasedAt: Option<int>,
    blockingHost: Option<int>,
    retryAfter: Option<nat>)

  datatype Decision = Granted | Deferral(retryAfter: nat, blockingHost: int)

  // ---------------------------------------------------------------- the statements

  function ExpireRow(l: ScanLease, now: int): ScanLease
  {
    if l.status == Active && l.expiresAt.Some? && l.expiresAt.value <= now then l.(status := Expired) else l
  }

  function ReleaseRow(l: ScanLease, host: int, now: int): ScanLease
  {
    if l.host == host && l.status == Active then l.(status := Released, releasedAt := Some(now)) else l
  }

  function ExpiredTable(leases: seq<ScanLease>, now: int): (r: seq<ScanLease>)
    ensures |r| == |leases| && forall i :: 0 <= i < |r| ==> r[i] == ExpireRow(leases[i], now)
  {
    seq(|leases|, i requires 0 <= i < |leases| => ExpireRow(leases[i], now))
  }

  function ReleasedTable(leases: seq<ScanLease>, host: int, now: int): (r: seq<ScanLease>)
    ensures |r| == |leases| && forall i :: 0 <= i < |r| ==> r[i] == ReleaseRow(leases[i], host, now)
  {
    seq(|leases|, i requires 0 <= i < |leases| => ReleaseRow(leases[i], host, now))
  }

  /** The table once stale leases are expired and the requester's own lease is released. */
  function Settled(leases: seq<ScanLease>, host: int, now: int): (r: seq<ScanLease>)
    ensures |r| == |leases|
    ensures forall i :: 0 <= i < |r| ==> r[i] == ReleaseRow(ExpireRow(leases[i], now), host, now)
  {
    ReleasedTable(ExpiredTable(leases, now), host, now)
  }

  /** How many active leases a host has. */
  function ActiveOf(leases: seq<ScanLease>, host: int): nat
  {
    if leases == [] then 0
    else
      var last := leases[|leases| - 1];
      ActiveOf(leases[..|leases| - 1], host) + if last.host == host && last.status == Active then 1 else 0
  }

  /** A host without a recorded run is heavy. */
  predicate IsHeavy(s: Settings, lastSeen: Option<nat>)
  {
    lastSeen.Some? ==> lastSeen.value >= s.heavyEntries
  }

  /** The hosts of the active heavy leases, in table order. */
  function HeavyHosts(leases: seq<ScanLease>): seq<int>
  {
    if leases == [] then []
    else
      var last := leases[|leases| - 1];
      HeavyHosts(leases[..|leases| - 1]) + if last.status == Active && last.isHeavy then [last.host] else []
  }

  function Grant(s: Settings, host: int, heavy: bool, now: int): ScanLease
  {
    ScanLease(host, heavy, Active, Some(now + s.ttl), None, None, None)
  }

  function Advisory(s: Settings, host: int, blocking: int): ScanLease
  {
    ScanLease(host, true, Deferred, None, None, Some(blocking), Some(s.retryAfter))
  }

  /** What a request leaves behind and answers. */
  function Requested(s: Settings, leases: seq<ScanLease>, host: int, lastSeen: Option<nat>, now: int)
    : (seq<ScanLease>, Decision)
    requires ValidSettings(s)
  {
    var table := Settled(leases, host, now);
    var heavy := IsHeavy(s, lastSeen);
    var holders := HeavyHosts(table);
    if !heavy || |holders| < s.maxHeavy then (table + [Grant(s, host, heavy, now)], Granted)
    else (table + [Advisory(s, host, holders[0])], Deferral(s.retryAfter, holders[0]))
  }

  class Coordinator {
    const settings: Settings
    var leases: seq<ScanLease>

    constructor (s: Settings)
      ensures settings == s && leases == []
    {
      settings, leases := s, [];
    }

    method ExpireStale(now: int)
      modifies this`leases
      ensures leases == ExpiredTable(old(leases), now)
    {
      for i := 0 to |leases|
        invariant |leases| == |old(leases)|
        invariant forall j :: 0 <= j < |leases| ==>
                    leases[j] == if j < i then ExpireRow(old(leases)[j], now) else old(leases)[j]
      {
        if leases[i].status == Active && leases[i].expiresAt.Some? && leases[i].expiresAt.value <= now {
          leases := leases[i := leases[i].(status := Expired)];
        }
      }
    }

    /** The number of released leases is returned. */
    method ReleaseLease(host: int, now: int) returns (count: nat)
      modifies this`leases
      ensures leases == ReleasedTable(old(leases), host, now)
      ensures count == ActiveOf(old(leases), host)
    {
      count := 0;
      for i := 0 to |leases|
        invariant |leases| == |old(leases)| && count == ActiveOf(old(leases)[..i], host)
        invariant forall j :: 0 <= j < |leases| ==>
                    leases[j] == if j < i then ReleaseRow(old(leases)[j], host, now) else old(leases)[j]
      {
        assert old(leases)[..i + 1][..i] == old(leases)[..i];
        if leases[i].host == host && leases[i].status == Active {
          leases := leases[i := leases[i].(status := Released, releasedAt := Some(now))];
          count := count + 1;
        }
      }
      assert old(leases)[..|old(leases)|] == old(leases);
    }

    method RequestLease(host: int, lastSeen: Option<nat>, now: int) returns (decision: Decision)
      requires ValidSettings(settings)
      modifies this`leases
      ensures (leases, decision) == Requested(settings, old(leases), host, lastSeen, now)
    {
      ExpireStale(now);
      var _ := ReleaseLease(host, now);
      assert leases == Settled(old(leases), host, now);
      if !IsHeavy(settings, lastSeen) {
        leases := leases + [Grant(settings, host, false, now)];
        return Granted;
      }
      var activeHeavy := SelectHeavy(leases);
      if |activeHeavy| < settings.maxHeavy {
        leases := leases + [Grant(settings, host, true, now)];
        return Granted;
      }
      leases := leases + [Advisory(settings, host, activeHeavy[0])];
      return Deferral(settings.retryAfter, activeHeavy[0]);
    }
  }

  method SelectHeavy(leases: seq<ScanLease>) returns (hosts: seq<int>)
    ensures hosts == HeavyHosts(leases)
  {
    hosts := [];
    for i := 0 to |leases|
      invariant hosts == HeavyHosts(leases[..i])
    {
      assert leases[..i + 1][..i] == leases[..i];
      if leases[i].status == Active && leases[i].isHeavy { hosts := hosts + [leases[i].host]; }
    }
    assert leases[..|leases|] == leases;
  }

  // ---------------------------------------------------------------- invariants

  ghost predicate OnePerHost(leases: seq<ScanLease>)
  {
    forall i, j :: 0 <= i < j < |leases| && leases[i].status == Active && leases[j].status == Active ==>
      leases[i].host != leases[j].host
  }

  ghost predicate Inv(s: Settings, leases: seq<ScanLease>)
  {
    OnePerHost(leases) && |HeavyHosts(leases)| <= s.maxHeavy
  }

  /** The other hosts with an unexpired active heavy lease. */
  function OtherHolders(leases: seq<ScanLease>, host: int, now: int): seq<int>
  {
    if leases == [] then []
    else
      var last := leases[|leases| - 1];
      OtherHolders(leases[..|leases| - 1], host, now)
      + if last.status == Active && last.isHeavy && last.host != host
           && (last.expiresAt.Some? ==> last.expiresAt.value > now) then [last.host] else []
  }

  lemma {:induction false} SettledHolders(leases: seq<ScanLease>, host: int, now: int)
    ensures HeavyHosts(Settled(leases, host, now)) == OtherHolders(leases, host, now)
    ensures |OtherHolders(leases, host, now)| <= |HeavyHosts(leases)|
  {
    if leases != [] {
      var init := leases[..|leases| - 1];
      SettledHolders(init, host, now);
      assert Settled(leases, host, now)[..|leases| - 1] == Settled(init, host, now);
    }
  }

  lemma {:induction false} ReleasedHolders(leases: seq<ScanLease>, host: int, now: int)
    ensures |HeavyHosts(ReleasedTable(leases, host, now))| <= |HeavyHosts(leases)|
  {
    if leases != [] {
      var init := leases[..|leases| - 1];
      ReleasedHolders(init, host, now);
      assert ReleasedTable(leases, host, now)[..|leases| - 1] == ReleasedTable(init, host, now);
    }
  }

  lemma {:induction false} ExpiredHolders(leases: seq<ScanLease>, now: int)
    ensures |HeavyHosts(ExpiredTable(leases, now))| <= |HeavyHosts(leases)|
  {
    if leases != [] {
      var init := leases[..|leases| - 1];
      ExpiredHolders(init, now);
      assert ExpiredTable(leases, now)[..|leases| - 1] == ExpiredTable(init, now);
    }
  }

  lemma {:induction false} HolderRows(leases: seq<ScanLease>, host: int, now: int, h: int)
    ensures h in OtherHolders(leases, host, now) <==> h != host && Holds(leases, h, now)
  {
    if leases != [] {
      var init, last := leases[..|leases| - 1], leases[|leases| - 1];
      HolderRows(init, host, now, h);
      HoldsMore(init, last, h, now);
      assert leases == init + [last];
    }
  }

  ghost predicate Holds(leases: seq<ScanLease>, h: int, now: int)
  {
    exists i :: 0 <= i < |leases| && HoldsHeavy(leases[i], h, now)
  }

  lemma {:induction false} HoldsMore(leases: seq<ScanLease>, last: ScanLease, h: int, now: int)
    ensures Holds(leases + [last], h, now) <==> Holds(leases, h, now) || HoldsHeavy(last, h, now)
  {
    var more := leases + [last];
    if i :| 0 <= i < |leases| && HoldsHeavy(leases[i], h, now) { assert HoldsHeavy(more[i], h, now); }
    assert more[|leases|] == last;
  }

  /** An unexpired active heavy lease of host `h`. */
  predicate HoldsHeavy(l: ScanLease, h: int, now: int)
  {
    l.host == h && l.status == Active && l.isHeavy && (l.expiresAt.Some? ==> l.expiresAt.value > now)
  }

  lemma {:induction false} HoldersDistinct(leases: seq<ScanLease>, host: int, now: int)
    requires OnePerHost(leases)
    ensures var hs := OtherHolders(leases, host, now); forall i, j :: 0 <= i < j < |hs| ==> hs[i] != hs[j]
  {
    if leases != [] {
      var init, last := leases[..|leases| - 1], leases[|leases| - 1];
      HoldersDistinct(init, host, now);
      HolderRows(init, host, now, last.host);
      assert last.status == Active ==>
          forall i :: 0 <= i < |init| ==> leases[i] == init[i] && !HoldsHeavy(init[i], last.host, now);
    }
  }

  lemma {:induction false} NoneActive(leases: seq<ScanLease>, host: int)
    requires forall i :: 0 <= i < |leases| && leases[i].status == Active ==> leases[i].host != host
    ensures ActiveOf(leases, host) == 0
  {
    if leases != [] { NoneActive(leases[..|leases| - 1], host); }
  }

  lemma {:induction false} AtMostOneActive(leases: seq<ScanLease>, host: int)
    requires OnePerHost(leases)
    ensures ActiveOf(leases, host) <= 1
  {
    if leases != [] {
      var init, last := leases[..|leases| - 1], leases[|leases| - 1];
      AtMostOneActive(init, host);
      if last.host == host && last.status == Active { NoneActive(init, host); }
    }
  }

  /** After a grant the host has one active lease, which is good for exactly the TTL; after a deferral it has none, not
      even the lease it held before it asked. Other hosts' leases change only by expiring. */
  lemma {:induction false} OutcomeForRequester(s: Settings, leases: seq<ScanLease>, host: int, lastSeen: Option<nat>,
                                               now: int)
    requires ValidSettings(s)
    ensures var (after, decision) := Requested(s, leases, host, lastSeen, now);
            && |after| == |leases| + 1
            && ActiveOf(after, host) == (if decision == Granted then 1 else 0)
            && (forall p :: 0 <= p < |leases| && leases[p].host != host ==> after[p] == ExpireRow(leases[p], now))
            && (decision == Granted ==> forall t :: HoldsHeavy(after[|leases|], host, t) <==>
                                                      IsHeavy(s, lastSeen) && t < now + s.ttl)
  {
    var table := Settled(leases, host, now);
    var after := Requested(s, leases, host, lastSeen, now).0;
    NoneActive(table, host);
    assert after[..|table|] == table;
  }

  /** What a request leaves in the table, row by row: stale leases expired, the host's own released, the others as they
      were, and one row added, the lease it was granted or the advisory that defers it. */
  lemma {:induction false} TableAfterRequest(s: Settings, leases: seq<ScanLease>, host: int, lastSeen: Option<nat>,
                                             now: int)
    requires ValidSettings(s)
    ensures var (after, decision) := Requested(s, leases, host, lastSeen, now);
            && |after| == |leases| + 1
            && (forall p :: 0 <= p < |leases| ==>
                  var l := leases[p];
                  after[p] == if l.status == Active && l.expiresAt.Some? && l.expiresAt.value <= now
                              then l.(status := Expired)
                              else if l.status == Active && l.host == host
                              then l.(status := Released, releasedAt := Some(now))
                              else l)
            && match decision
               case Granted =>
                 after[|leases|] == ScanLease(host, lastSeen == None || lastSeen.value >= s.heavyEntries, Active,
                                              Some(now + s.ttl), None, None, None)
               case Deferral(retryAfter, blocking) =>
                 retryAfter == s.retryAfter
                 && after[|leases|] == ScanLease(host, true, Deferred, None, None, Some(blocking), Some(s.retryAfter))
  {
  }

  /** A request keeps: at most one active lease per host, at most `maxHeavy` active heavy leases. */
  lemma {:induction false} RequestKeepsInv(s: Settings, leases: seq<ScanLease>, host: int, lastSeen: Option<nat>,
                                           now: int)
    requires ValidSettings(s) && Inv(s, leases)
    ensures Inv(s, Requested(s, leases, host, lastSeen, now).0)
  {
    var table := Settled(leases, host, now);
    var after := Requested(s, leases, host, lastSeen, now).0;
    SettledHolders(leases, host, now);
    assert after[..|table|] == table;
    assert forall i :: 0 <= i < |table| && table[i].status == Active ==> table[i].host != host;
  }

  lemma {:induction false} ReleaseKeepsInv(s: Settings, leases: seq<ScanLease>, host: int, now: int)
    requires Inv(s, leases)
    ensures Inv(s, ReleasedTable(leases, host, now))
  {
    ReleasedHolders(leases, host, now);
  }

  // ---------------------------------------------------------------- the decision

  /** A request is granted exactly when the scan is light or fewer than `maxHeavy` other hosts hold an unexpired
      heavy lease; a deferral means that `maxHeavy` different other hosts hold one, and names one of them. */
  lemma {:induction false} GrantedIff(s: Settings, leases: seq<ScanLease>, host: int, lastSeen: Option<nat>, now: int)
    requires ValidSettings(s) && Inv(s, leases)
    ensures var holders := OtherHolders(leases, host, now);
            var decision := Requested(s, leases, host, lastSeen, now).1;
            && (decision == Granted <==> (lastSeen.Some? && lastSeen.value < s.heavyEntries) || |holders| < s.maxHeavy)
            && (decision.Deferral? ==> |holders| == s.maxHeavy && decision.blockingHost in holders)
            && (forall i, j :: 0 <= i < j < |holders| ==> holders[i] != holders[j])
            && (forall h :: h in holders ==> h != host && Holds(leases, h, now))
  {
    SettledHolders(leases, host, now);
    HoldersDistinct(leases, host, now);
    forall h | h in OtherHolders(leases, host, now)
      ensures h != host && Holds(leases, h, now)
    {
      HolderRows(leases, host, now, h);
    }
  }

  /** A host that holds an active heavy lease always gets it renewed, even at the limit. */
  lemma {:induction false} RenewalGranted(s: Settings, leases: seq<ScanLease>, p: nat, lastSeen: Option<nat>, now: int)
    requires ValidSettings(s) && Inv(s, leases)
    requires p < |leases| && leases[p].status == Active && leases[p].isHeavy
    ensures Requested(s, leases, leases[p].host, lastSeen, now).1 == Granted
  {
    GrantedIff(s, leases, leases[p].host, lastSeen, now);
    OwnNotCounted(leases, p, now);
  }

  lemma {:induction false} OwnNotCounted(leases: seq<ScanLease>, p: nat, now: int)
    requires p < |leases| && leases[p].status == Active && leases[p].isHeavy
    ensures |OtherHolders(leases, leases[p].host, now)| < |HeavyHosts(leases)|
  {
    var init := leases[..|leases| - 1];
    if p < |init| {
      OwnNotCounted(init, p, now);
    } else {
      SettledHolders(init, leases[p].host, now);
    }
  }

  // ---------------------------------------------------------------- whole runs

  datatype Event =
    | Request(host: int, lastSeen: Option<nat>, now: int)
    | Release(host: int, now: int)

  function Step(s: Settings, leases: seq<ScanLease>, e: Event): seq<ScanLease>
    requires ValidSettings(s)
  {
    match e
    case Request(host, lastSeen, now) => Requested(s, leases, host, lastSeen, now).0
    case Release(host, now) => ReleasedTable(leases, host, now)
  }

  predicate Grants(s: Settings, leases: seq<ScanLease>, e: Event)
    requires ValidSettings(s)
  {
    e.Request? && Requested(s, leases, e.host, e.lastSeen, e.now).1 == Granted
  }

  function Run(s: Settings, leases: seq<ScanLease>, es: seq<Event>): seq<ScanLease>
    requires ValidSettings(s)
    decreases |es|
  {
    if es == [] then leases else Step(s, Run(s, leases, es[..|es| - 1]), es[|es| - 1])
  }

  /** From an empty table, whatever is requested and released at whatever times: one active lease per host at most,
      and never more than `maxHeavy` active heavy leases. */
  lemma {:induction false} RunKeepsLimits(s: Settings, es: seq<Event>)
    requires ValidSettings(s)
    ensures Inv(s, Run(s, [], es))
  {
    if es != [] {
      var before := Run(s, [], es[..|es| - 1]);
      RunKeepsLimits(s, es[..|es| - 1]);
      match es[|es| - 1]
      case Request(host, lastSeen, now) => RequestKeepsInv(s, before, host, lastSeen, now);
      case Release(host, now) => ReleaseKeepsInv(s, before, host, now);
    }
  }

  ghost predicate ExpiresBy(leases: seq<ScanLease>, t: int)
  {
    forall i :: 0 <= i < |leases| && leases[i].status == Active ==>
      leases[i].expiresAt.Some? && leases[i].expiresAt.value <= t
  }

  ghost predicate AllBefore(es: seq<Event>, t: int)
  {
    forall i :: 0 <= i < |es| ==> es[i].now <= t
  }

  ghost predicate NothingGranted(s: Settings, leases: seq<ScanLease>, es: seq<Event>)
    requires ValidSettings(s)
  {
    forall i :: 0 <= i < |es| ==> !Grants(s, Run(s, leases, es[..i]), es[i])
  }

  lemma {:induction false} RunExpires(s: Settings, es: seq<Event>, t: int)
    requires ValidSettings(s) && AllBefore(es, t)
    ensures ExpiresBy(Run(s, [], es), t + s.ttl)
  {
    if es != [] { RunExpires(s, es[..|es| - 1], t); }
  }

  lemma {:induction false} UngrantedExpires(s: Settings, leases: seq<ScanLease>, es: seq<Event>, t: int)
    requires ValidSettings(s) && ExpiresBy(leases, t) && NothingGranted(s, leases, es)
    ensures ExpiresBy(Run(s, leases, es), t)
  {
    if es != [] {
      var init := es[..|es| - 1];
      forall i | 0 <= i < |init| ensures !Grants(s, Run(s, leases, init[..i]), init[i]) {
        assert init[..i] == es[..i] && init[i] == es[i];
      }
      UngrantedExpires(s, leases, init, t);
    }
  }

  /** No deferral lasts: if nothing is granted after time `t`, a request at `t` plus the TTL or later is granted,
      whether or not the holders ever report. */
  lemma {:induction false} RetryGranted(s: Settings, es: seq<Event>, later: seq<Event>, t: int,
                                      host: int, lastSeen: Option<nat>, now: int)
    requires ValidSettings(s) && AllBefore(es, t) && NothingGranted(s, Run(s, [], es), later) && now >= t + s.ttl
    ensures Requested(s, Run(s, Run(s, [], es), later), host, lastSeen, now).1 == Granted
  {
    var table := Run(s, Run(s, [], es), later);
    RunExpires(s, es, t);
    UngrantedExpires(s, Run(s, [], es), later, t + s.ttl);
    SettledHolders(table, host, now);
    NoHolders(table, host, now);
  }

  lemma {:induction false} NoHolders(leases: seq<ScanLease>, host: int, now: int)
    requires ExpiresBy(leases, now)
    ensures OtherHolders(leases, host, now) == []
  {
    if leases != [] {
      assert leases[|leases| - 1].status == Active ==> leases[|leases| - 1].expiresAt.value <= now;
      NoHolders(leases[..|leases| - 1], host, now);
    }
  }
}
