/** Signed head anchors over the durable log: what an accepted checkpoint proves, and when an honest
    one is accepted. */
module Checkpoint {
  import opened Audit
  import opened AuditStore

  /** Serial numbers start at 1. */
  type Serial1 = n: nat | n >= 1 witness 1

  datatype Anchor = Anchor(seqNo: Serial1, rowHash: string, signature: string)

  datatype Keys = Keys(sign: string -> string, verify: (string, string) -> bool)

  /** The key pair accepts what it signed for the heads in `anchored`, and nothing but messages for those heads. */
  ghost predicate Honest(keys: Keys, anchored: iset<(nat, string)>)
  {
    && (forall a :: a in anchored ==> keys.verify(Message(a.0, a.1), keys.sign(Message(a.0, a.1))))
    && (forall m, s :: keys.verify(m, s) ==> exists a :: a in anchored && m == Message(a.0, a.1))
  }

  /** The head that `write_checkpoint` signs for this log is among the anchored ones. */
  ghost predicate HeadAnchored(anchored: iset<(nat, string)>, rows: seq<Row>)
  {
    rows != [] ==> (rows[|rows| - 1].seqNo, rows[|rows| - 1].rec.rowHash) in anchored
  }

  function Digit(n: nat): char
    requires n < 10
  {
    "0123456789"[n]
  }

  /** Decimal digits, as an integer prints. */
  function Decimal(n: nat): string
  {
    if n < 10 then [Digit(n)] else Decimal(n / 10) + [Digit(n % 10)]
  }

  /** `f"{seq}:{row_hash}"`. */
  function Message(seqNo: nat, rowHash: string): string
  {
    Decimal(seqNo) + ":" + rowHash
  }

  /** `write_checkpoint`: anchor the last row; nothing to anchor in an empty log. */
  function Write(keys: Keys, rows: seq<Row>): (anchors: seq<Anchor>)
    requires rows != [] ==> rows[|rows| - 1].seqNo >= 1
  {
    if rows == [] then []
    else
      var last := rows[|rows| - 1];
      [Anchor(last.seqNo, last.rec.rowHash, keys.sign(Message(last.seqNo, last.rec.rowHash)))]
  }

  predicate Signed(keys: Keys, cp: Anchor)
  {
    keys.verify(Message(cp.seqNo, cp.rowHash), cp.signature)
  }

  ghost predicate Accepts(d: Scheme, keys: Keys, cp: Anchor, records: seq<AuditRecord>)
  {
    && Signed(keys, cp)
    && cp.seqNo <= |records|
    && records[cp.seqNo - 1].rowHash == cp.rowHash
    && IsChain(d, d.genesis, records[..cp.seqNo])
  }

  /** `verify_latest_checkpoint`: vacuously true when no checkpoint exists. */
  method VerifyLatest(d: Scheme, keys: Keys, checkpoints: seq<Anchor>, rows: seq<Row>) returns (ok: bool)
    ensures ok <==> checkpoints == [] || Accepts(d, keys, checkpoints[|checkpoints| - 1], Records(rows))
  {
    if checkpoints == [] {
      return true;
    }
    var cp := checkpoints[|checkpoints| - 1];
    if !Signed(keys, cp) {
      return false;
    }
    var records := Records(rows);
    if |records| < cp.seqNo {
      return false;
    }
    if records[cp.seqNo - 1].rowHash != cp.rowHash {
      return false;
    }
    ok := VerifyChain(d, records[..cp.seqNo], d.genesis);
  }

  // ---------------------------------------------------------------- no forged anchor

  lemma {:induction false} DecimalPlain(n: nat)
    ensures Decimal(n) != [] && ':' !in Decimal(n)
  {
    if n >= 10 { DecimalPlain(n / 10); }
  }

  /** The number that decimal digits spell. */
  function ValueOf(s: string): nat
    requires forall i :: 0 <= i < |s| ==> '0' <= s[i] <= '9'
  {
    if s == "" then 0 else 10 * ValueOf(s[..|s| - 1]) + (s[|s| - 1] as int - '0' as int)
  }

  /** The text spells the number in decimal digits, most significant first, without a leading zero. */
  lemma {:induction false} DecimalSpells(n: nat)
    ensures forall i :: 0 <= i < |Decimal(n)| ==> '0' <= Decimal(n)[i] <= '9'
    ensures ValueOf(Decimal(n)) == n && (n > 0 ==> Decimal(n)[0] != '0')
  {
    assert '0' <= Digit(n % 10) <= '9' && Digit(n % 10) as int - '0' as int == n % 10;
    if n >= 10 {
      DecimalSpells(n / 10);
      var init := Decimal(n / 10);
      assert Decimal(n) == init + [Digit(n % 10)] && (init + [Digit(n % 10)])[..|init|] == init;
    } else {
      assert [Digit(n)][..0] == "";
    }
  }

  /** The signed text: the number, a colon, the hash. */
  lemma {:induction false} MessageParts(n: nat, rowHash: string)
    ensures var k := |Decimal(n)|; var text := Message(n, rowHash);
            |text| == k + 1 + |rowHash| && text[..k] == Decimal(n) && text[k] == ':' && text[k + 1..] == rowHash
  {
  }

  lemma {:induction false} DecimalInjective(a: nat, b: nat)
    requires Decimal(a) == Decimal(b)
    ensures a == b
  {
    var x, y := Decimal(a), Decimal(b);
    assert Digit(a % 10) == x[|x| - 1] == y[|y| - 1] == Digit(b % 10);
    assert x[..|x| - 1] == y[..|y| - 1];
    if a >= 10 { DecimalPlain(a / 10); }
    if b >= 10 { DecimalPlain(b / 10); }
    if a >= 10 && b >= 10 {
      assert x[..|x| - 1] == Decimal(a / 10) && y[..|y| - 1] == Decimal(b / 10);
      DecimalInjective(a / 10, b / 10);
    }
  }

  lemma {:induction false} MessageInjective(a: nat, h: string, b: nat, k: string)
    requires Message(a, h) == Message(b, k)
    ensures a == b && h == k
  {
    var x, y := Decimal(a), Decimal(b);
    DecimalPlain(a);
    DecimalPlain(b);
    var s, t := x + ":" + h, y + ":" + k;
    assert s[|x|] == ':' && t[|y|] == ':';
    assert forall i :: 0 <= i < |x| ==> s[i] == x[i] != ':';
    assert forall i :: 0 <= i < |y| ==> t[i] == y[i] != ':';
    assert |x| == |y|;
    assert s[..|x|] == x && t[..|y|] == y;
    assert s[|x| + 1..] == h && t[|y| + 1..] == k;
    DecimalInjective(a, b);
  }

  /** Honest keys exist for any set of anchored heads, so the theorems below speak of something. */
  lemma {:induction false} HonestKeysExist(anchored: iset<(nat, string)>) returns (keys: Keys)
    ensures Honest(keys, anchored)
  {
    keys := Keys(m => m, (m: string, s: string) => exists a :: a in anchored && m == Message(a.0, a.1));
  }

  /** An accepted checkpoint names a head that was really anchored: number and hash. */
  lemma {:induction false} AcceptedWasAnchored(d: Scheme, keys: Keys, anchored: iset<(nat, string)>, cp: Anchor,
                                               records: seq<AuditRecord>)
    requires Honest(keys, anchored) && Accepts(d, keys, cp, records)
    ensures (cp.seqNo, cp.rowHash) in anchored
  {
    var a :| a in anchored && Message(cp.seqNo, cp.rowHash) == Message(a.0, a.1);
    MessageInjective(cp.seqNo, cp.rowHash, a.0, a.1);
    assert a == (cp.seqNo, cp.rowHash);
  }

  // ---------------------------------------------------------------- what acceptance proves

  /** A checkpoint honestly written for a log whose last serial number is its length is accepted
      for exactly the logs that still begin with that log: any appends keep it, any edit, drop or
      reorder at or before the anchor breaks it. */
  lemma {:induction false} AcceptedIffPrefixIntact(d: Scheme, keys: Keys, anchored: iset<(nat, string)>,
                                                   log: seq<Row>, records: seq<AuditRecord>)
    requires Sound(d) && Faithful(d) && Honest(keys, anchored) && HeadAnchored(anchored, log)
    requires log != [] && log[|log| - 1].seqNo == |log| && IsChain(d, d.genesis, Records(log))
    ensures Accepts(d, keys, Write(keys, log)[0], records)
            <==> |log| <= |records| && records[..|log|] == Records(log)
  {
    var cp := Write(keys, log)[0];
    var n := |log|;
    assert cp.rowHash == HeadOf(d.genesis, Records(log));
    if n <= |records| {
      assert records[..n][n - 1] == records[n - 1];
      if Accepts(d, keys, cp, records) {
        LogsEqual(d, records[..n], Records(log));
      }
    }
  }

  /** With serial numbers that skip, a checkpoint honestly written for the same chain is accepted
      exactly when the anchored row's number is its position: the first burned number before the
      anchor makes the intact log look truncated or rewritten. */
  lemma {:induction false} AcceptedIffGapless(d: Scheme, keys: Keys, anchored: iset<(nat, string)>,
                                              log: seq<Row>, records: seq<AuditRecord>)
    requires Sound(d) && Honest(keys, anchored) && HeadAnchored(anchored, log)
    requires log != [] && log[|log| - 1].seqNo >= |log|
    requires Records(log) <= records && IsChain(d, d.genesis, records)
    ensures Accepts(d, keys, Write(keys, log)[0], records) <==> log[|log| - 1].seqNo == |log|
  {
    var cp := Write(keys, log)[0];
    var n := |log|;
    assert cp.rowHash == Records(log)[n - 1].rowHash == records[n - 1].rowHash;
    if cp.seqNo <= |records| {
      ChainPrefix(d, d.genesis, records, cp.seqNo);
      if cp.seqNo > n {
        HeadsDistinct(d, records, n, cp.seqNo);
        assert HeadOf(d.genesis, records[..n]) == records[n - 1].rowHash;
        assert HeadOf(d.genesis, records[..cp.seqNo]) == records[cp.seqNo - 1].rowHash;
      }
    }
  }

  /** Whole runs: a checkpoint taken at any point of any run is accepted at every later point exactly when no rejected
      insert had burned a number below the anchored row's, that is, when that number is the row's position. */
  lemma {:induction false} CheckpointOverRuns(
      d: Scheme, keys: Keys, anchored: iset<(nat, string)>, serial: Serial,
      s: Store, acts: seq<Action>, t: Store, more: seq<Action>, u: Store)
    requires Sound(d) && Honest(keys, anchored) && HeadAnchored(anchored, t.rows) && Starts(d, s)
    requires Run(d, serial, s, acts, t) && Run(d, serial, t, more, u) && t.rows != []
    ensures Numbered(serial, t)
    ensures Accepts(d, keys, Write(keys, t.rows)[0], Records(u.rows)) <==> t.rows[|t.rows| - 1].seqNo == |t.rows|
    ensures Accepts(d, keys, Write(keys, t.rows)[0], Records(u.rows))
            <==> forall n :: n in t.burned ==> n >= t.rows[|t.rows| - 1].seqNo
  {
    RunsExtend(d, serial, s, acts, t, more, u);
    AcceptedLater(d, keys, anchored, serial, t, u);
  }

  lemma {:induction false} RunsExtend(d: Scheme, serial: Serial, s: Store, acts: seq<Action>, t: Store,
                                      more: seq<Action>, u: Store)
    requires Starts(d, s) && Run(d, serial, s, acts, t) && Run(d, serial, t, more, u)
    ensures Numbered(serial, t) && t.rows <= u.rows && IsChain(d, d.genesis, Records(u.rows))
    ensures forall i :: 0 <= i < |t.rows| ==>
              (t.rows[i].seqNo == i + 1 <==> forall n :: n in t.burned ==> n >= t.rows[i].seqNo)
  {
    StartInv(d, s);
    RunInv(d, serial, s, acts, t);
    RunInv(d, serial, t, more, u);
    StartNumbered(d, serial, s);
    NumberedRun(d, serial, s, acts, t);
  }

  lemma {:induction false} AcceptedLater(d: Scheme, keys: Keys, anchored: iset<(nat, string)>, serial: Serial,
                                         t: Store, u: Store)
    requires Sound(d) && Honest(keys, anchored) && HeadAnchored(anchored, t.rows)
    requires Numbered(serial, t) && t.rows != [] && t.rows <= u.rows && IsChain(d, d.genesis, Records(u.rows))
    ensures Accepts(d, keys, Write(keys, t.rows)[0], Records(u.rows)) <==> t.rows[|t.rows| - 1].seqNo == |t.rows|
  {
    LaterRecords(t.rows, u.rows);
    AcceptedIffGapless(d, keys, anchored, t.rows, Records(u.rows));
  }

  lemma {:induction false} LaterRecords(rows: seq<Row>, more: seq<Row>)
    requires rows <= more
    ensures Records(rows) <= Records(more)
  {
  }

  function TwoWriters(a: Job, b: Job): Store
  {
    Store([], 1, [], [Writer([a], [], Reading, 0, 0), Writer([b], [], Reading, 0, 0)])
  }

  function Won(d: Scheme, a: Job, ts: string): Writer
  {
    Writer([a], [Rechain(d, ContentOf(a, ts), d.genesis)], Finished, 0, 0)
  }

  /** The race, step by step: both read the empty log, the first insert wins, the second is
      rejected and burns number 2. */
  lemma {:induction false} RaceLost(d: Scheme, a: Job, b: Job, ts: string) returns (s1: Store, s2: Store, s3: Store,
                                    s4: Store)
    ensures Enabled(TwoWriters(a, b), Read(0, ts)) && s1 == Next(d, Burning, TwoWriters(a, b), Read(0, ts))
    ensures Enabled(s1, Read(1, ts)) && s2 == Next(d, Burning, s1, Read(1, ts))
    ensures Enabled(s2, Insert(0)) && s3 == Next(d, Burning, s2, Insert(0))
    ensures Enabled(s3, Insert(1)) && s4 == Next(d, Burning, s3, Insert(1))
    ensures s4 == Store([Row(1, Rechain(d, ContentOf(a, ts), d.genesis), 0)], 3, [2],
                        [Won(d, a, ts), Writer([b], [], Reading, 1, 0)])
  {
    var r0 := Rechain(d, ContentOf(a, ts), d.genesis);
    var lost := Rechain(d, ContentOf(b, ts), d.genesis);
    assert LoadHead(d, []) == d.genesis;
    s1 := Store([], 1, [], [Writer([a], [], Holding(0, r0), 0, 0), Writer([b], [], Reading, 0, 0)]);
    s2 := Store([], 1, [], [Writer([a], [], Holding(0, r0), 0, 0), Writer([b], [], Holding(0, lost), 0, 0)]);
    s3 := Store([Row(1, r0, 0)], 2, [], [Won(d, a, ts), Writer([b], [], Holding(0, lost), 0, 0)]);
    assert [] + [r0] == [r0] && s2.rows + s3.rows == s3.rows && s2.writers[0 := Won(d, a, ts)] == s3.writers;
    assert s3.rows[0].rec.prevHash == d.genesis;
    s4 := Store(s3.rows, 3, [2], [Won(d, a, ts), Writer([b], [], Reading, 1, 0)]);
  }

  /** The loser reads again and gets number 3. */
  lemma {:induction false} RaceRetried(d: Scheme, a: Job, b: Job, ts: string, s4: Store) returns (s5: Store, t: Store)
    requires Sound(d)
    requires s4 == Store([Row(1, Rechain(d, ContentOf(a, ts), d.genesis), 0)], 3, [2],
                         [Won(d, a, ts), Writer([b], [], Reading, 1, 0)])
    ensures Enabled(s4, Read(1, ts)) && s5 == Next(d, Burning, s4, Read(1, ts))
    ensures Enabled(s5, Insert(1)) && t == Next(d, Burning, s5, Insert(1))
    ensures |t.rows| == 2 && t.rows[1].seqNo == 3
  {
    var r0 := s4.rows[0].rec;
    var r1 := Rechain(d, ContentOf(b, ts), r0.rowHash);
    assert Records(s4.rows) == [r0];
    assert LoadHead(d, s4.rows) == r0.rowHash;
    s5 := Store(s4.rows, 3, [2], [Won(d, a, ts), Writer([b], [], Holding(1, r1), 1, 0)]);
    assert [] + [r1] == [r1] && s5.writers[1 := Writer([b], [r1], Finished, 0, 0)]
           == [Won(d, a, ts), Writer([b], [r1], Finished, 0, 0)];
    assert r1.prevHash != d.genesis;
    assert !Conflicts(s5.rows, r1);
    t := Store(s4.rows + [Row(3, r1, 1)], 4, [2], [Won(d, a, ts), Writer([b], [r1], Finished, 0, 0)]);
  }

  /** The run that shows it: with a number burned by the lost insert, the checkpoint of the resulting two-row log is
      rejected although nothing was tampered with, whatever the keys; and with honest keys it is not the signature
      that fails. */
  lemma {:induction false} BurnedNumberBreaksCheckpoint(d: Scheme, a: Job, b: Job, ts: string)
      returns (acts: seq<Action>, t: Store)
    requires Sound(d)
    ensures Starts(d, TwoWriters(a, b)) && Run(d, Burning, TwoWriters(a, b), acts, t)
    ensures t.rows != [] && t.rows[|t.rows| - 1].seqNo >= 1 && IsChain(d, d.genesis, Records(t.rows))
    ensures forall keys :: !Accepts(d, keys, Write(keys, t.rows)[0], Records(t.rows))
    ensures forall keys, anchored :: Honest(keys, anchored) && HeadAnchored(anchored, t.rows) ==>
              Signed(keys, Write(keys, t.rows)[0])
  {
    var s1, s2, s3, s4 := RaceLost(d, a, b, ts);
    var s5;
    s5, t := RaceRetried(d, a, b, ts, s4);
    var s0 := TwoWriters(a, b);
    acts := RaceRun(d, s0, s1, s2, s3, s4, s5, t, ts);
    StartInv(d, s0);
    RunInv(d, Burning, s0, acts, t);
    SkippedNumberRejected(d, t.rows);
  }

  /** A log of two rows whose second has the number 3. */
  lemma {:induction false} SkippedNumberRejected(d: Scheme, rows: seq<Row>)
    requires |rows| == 2 && rows[1].seqNo == 3
    ensures forall keys :: !Accepts(d, keys, Write(keys, rows)[0], Records(rows))
    ensures forall keys, anchored :: Honest(keys, anchored) && HeadAnchored(anchored, rows) ==>
              Signed(keys, Write(keys, rows)[0])
  {
  }

  lemma {:induction false} RaceRun(d: Scheme, s0: Store, s1: Store, s2: Store, s3: Store, s4: Store, s5: Store,
                                   t: Store,
                                   ts: string) returns (acts: seq<Action>)
    requires Enabled(s0, Read(0, ts)) && s1 == Next(d, Burning, s0, Read(0, ts))
    requires Enabled(s1, Read(1, ts)) && s2 == Next(d, Burning, s1, Read(1, ts))
    requires Enabled(s2, Insert(0)) && s3 == Next(d, Burning, s2, Insert(0))
    requires Enabled(s3, Insert(1)) && s4 == Next(d, Burning, s3, Insert(1))
    requires Enabled(s4, Read(1, ts)) && s5 == Next(d, Burning, s4, Read(1, ts))
    requires Enabled(s5, Insert(1)) && t == Next(d, Burning, s5, Insert(1))
    ensures Run(d, Burning, s0, acts, t)
  {
    acts := [];
    acts := RunCons(d, s5, Insert(1), t, acts, t);
    acts := RunCons(d, s4, Read(1, ts), s5, acts, t);
    acts := RunCons(d, s3, Insert(1), s4, acts, t);
    acts := RunCons(d, s2, Insert(0), s3, acts, t);
    acts := RunCons(d, s1, Read(1, ts), s2, acts, t);
    acts := RunCons(d, s0, Read(0, ts), s1, acts, t);
  }

  lemma {:induction false} RunCons(d: Scheme, s: Store, a: Action, m: Store, acts: seq<Action>, t: Store)
      returns (longer: seq<Action>)
    requires Enabled(s, a) && m == Next(d, Burning, s, a) && Run(d, Burning, m, acts, t)
    ensures Run(d, Burning, s, longer, t)
  {
    longer := [a] + acts;
    assert longer[1..] == acts;
  }
}
