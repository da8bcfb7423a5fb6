/** The hash-chained audit log: records, the chain check, and the in-memory chain object.

    The digest and the canonical JSON form are parameters. What is assumed of them is named:
    `Sound` (no collisions, no NUL in a hex digest, the genesis value is nobody's digest) and
    `Faithful` (different contents have different canonical forms). */
module Audit {

  datatype Content = Content(
    ts: string, actor: string, action: string, target: string, beforeState: string, result: string)

  datatype AuditRecord = AuditRecord(content: Content, prevHash: string, rowHash: string)

  /** `genesis` is what the first record links to: sixty-four zeros in the program. */
  datatype Scheme = Scheme(digest: string -> string, canonical: Content -> string, genesis: string)

  ghost predicate Sound(d: Scheme)
  {
    && (forall x, y :: d.digest(x) == d.digest(y) ==> x == y)
    && '\0' !in d.genesis
    && (forall x :: '\0' !in d.digest(x) && d.digest(x) != d.genesis)
  }

  ghost predicate Faithful(d: Scheme)
  {
    forall a, b :: d.canonical(a) == d.canonical(b) ==> a == b
  }

  /** The digest covers the previous hash, a NUL byte, and the canonical payload. */
  function ComputeRowHash(d: Scheme, prev: string, payload: string): string
  {
    d.digest(prev + "\0" + payload)
  }

  /** `rechain`: the content verbatim, only the linkage recomputed. */
  function Rechain(d: Scheme, content: Content, prev: string): AuditRecord
  {
    AuditRecord(content, prev, ComputeRowHash(d, prev, d.canonical(content)))
  }

  predicate Linked(d: Scheme, prev: string, rec: AuditRecord)
  {
    rec.prevHash == prev && ComputeRowHash(d, prev, d.canonical(rec.content)) == rec.rowHash
  }

  /** The head after `recs`. */
  function HeadOf(genesis: string, recs: seq<AuditRecord>): string
  {
    if recs == [] then genesis else recs[|recs| - 1].rowHash
  }

  ghost predicate LinkedAt(d: Scheme, genesis: string, recs: seq<AuditRecord>, i: nat)
  {
    i < |recs| && Linked(d, HeadOf(genesis, recs[..i]), recs[i])
  }

  /** An unbroken chain: every record is linked to the head before it. */
  ghost predicate IsChain(d: Scheme, genesis: string, recs: seq<AuditRecord>)
  {
    forall i :: 0 <= i < |recs| ==> LinkedAt(d, genesis, recs, i)
  }

  lemma {:induction false} ChainAppend(d: Scheme, genesis: string, recs: seq<AuditRecord>, rec: AuditRecord)
    ensures IsChain(d, genesis, recs + [rec])
            <==> IsChain(d, genesis, recs) && Linked(d, HeadOf(genesis, recs), rec)
  {
    var all := recs + [rec];
    assert all[..|recs|] == recs;
    forall i | 0 <= i < |recs| ensures LinkedAt(d, genesis, all, i) <==> LinkedAt(d, genesis, recs, i) {
      assert all[..i] == recs[..i];
    }
    assert LinkedAt(d, genesis, all, |recs|) <==> Linked(d, HeadOf(genesis, recs), rec);
  }

  lemma {:induction false} ChainPrefix(d: Scheme, genesis: string, recs: seq<AuditRecord>, n: nat)
    requires n <= |recs| && IsChain(d, genesis, recs)
    ensures IsChain(d, genesis, recs[..n])
  {
    forall i | 0 <= i < n ensures LinkedAt(d, genesis, recs[..n], i) {
      assert LinkedAt(d, genesis, recs, i);
      assert recs[..n][..i] == recs[..i];
    }
  }

  /** `verify_chain`. */
  method VerifyChain(d: Scheme, records: seq<AuditRecord>, genesis: string) returns (ok: bool)
    ensures ok <==> IsChain(d, genesis, records)
  {
    var prev := genesis;
    for i := 0 to |records|
      invariant prev == HeadOf(genesis, records[..i])
      invariant forall k :: 0 <= k < i ==> LinkedAt(d, genesis, records, k)
    {
      var record := records[i];
      if record.prevHash != prev || ComputeRowHash(d, prev, d.canonical(record.content)) != record.rowHash {
        assert !LinkedAt(d, genesis, records, i);
        return false;
      }
      assert LinkedAt(d, genesis, records, i);
      prev := record.rowHash;
    }
    return true;
  }

  // ---------------------------------------------------------------- the assumptions can be met

  /** Spells a string without NUL; the letter `a` marks the two spelled-out characters. */
  function Spell(s: string): string
  {
    if s == "" then ""
    else (if s[0] == '\0' then "ab" else if s[0] == 'a' then "aa" else [s[0]]) + Spell(s[1..])
  }

  lemma {:induction false} SpellHasNoNul(s: string)
    ensures '\0' !in Spell(s)
  {
    if s != "" { SpellHasNoNul(s[1..]); }
  }

  lemma {:induction false} SpellInjective(s: string, t: string)
    requires Spell(s) == Spell(t)
    ensures s == t
  {
    if s != "" && t != "" {
      var n := if s[0] == '\0' || s[0] == 'a' then 2 else 1;
      assert Spell(s)[0] == Spell(t)[0] && s[0] == t[0];
      assert Spell(s)[n..] == Spell(s[1..]) && Spell(t)[n..] == Spell(t[1..]);
      SpellInjective(s[1..], t[1..]);
      assert s == [s[0]] + s[1..] && t == [t[0]] + t[1..];
    }
  }

  function SpellAll(fields: seq<string>): string
  {
    if fields == [] then "" else Spell(fields[0]) + "\0" + SpellAll(fields[1..])
  }

  lemma {:induction false} SpellAllInjective(a: seq<string>, b: seq<string>)
    requires |a| == |b| && SpellAll(a) == SpellAll(b)
    ensures a == b
  {
    if a != [] {
      SpellHasNoNul(a[0]);
      SpellHasNoNul(b[0]);
      SeparatorSplits(Spell(a[0]), SpellAll(a[1..]), Spell(b[0]), SpellAll(b[1..]));
      SpellInjective(a[0], b[0]);
      SpellAllInjective(a[1..], b[1..]);
      assert a == [a[0]] + a[1..] && b == [b[0]] + b[1..];
    }
  }

  function Fields(c: Content): seq<string>
  {
    [c.ts, c.actor, c.action, c.target, c.beforeState, c.result]
  }

  /** A collision-free scheme exists, so the theorems that assume one speak of something. */
  lemma {:induction false} SoundSchemeExists() returns (d: Scheme)
    ensures Sound(d) && Faithful(d)
  {
    d := Scheme(x => "g" + Spell(x), c => SpellAll(Fields(c)), "");
    forall x, y | d.digest(x) == d.digest(y) ensures x == y {
      assert ("g" + Spell(x))[1..] == Spell(x) && ("g" + Spell(y))[1..] == Spell(y);
      SpellInjective(x, y);
    }
    forall x ensures '\0' !in d.digest(x) { SpellHasNoNul(x); }
    forall a, b | d.canonical(a) == d.canonical(b) ensures a == b {
      SpellAllInjective(Fields(a), Fields(b));
      assert forall i :: 0 <= i < 6 ==> Fields(a)[i] == Fields(b)[i];
    }
  }

  // ---------------------------------------------------------------- the chain object

  /** `AuditChain`: its head always extends what it has emitted, and everything emitted since
      `start` is one unbroken chain from it. */
  class AuditChain {
    const d: Scheme
    const start: string
    var head: string
    var sink: seq<AuditRecord>

    ghost predicate Valid()
      reads this
    {
      IsChain(d, start, sink) && head == HeadOf(start, sink)
    }

    constructor (d: Scheme, head: string)
      ensures Valid() && this.d == d && start == head && this.head == head && sink == []
    {
      this.d := d;
      this.start := head;
      this.head := head;
      this.sink := [];
    }

    method Append(ts: string, actor: string, action: string, target: string, beforeState: string, result: string)
      returns (record: AuditRecord)
      requires Valid()
      modifies this
      ensures Valid() && sink == old(sink) + [record] && head == record.rowHash
      ensures record.content == Content(ts, actor, action, target, beforeState, result)
      ensures record.prevHash == old(head)
    {
      record := Rechain(d, Content(ts, actor, action, target, beforeState, result), head);
      ChainAppend(d, start, sink, record);
      sink := sink + [record];
      head := record.rowHash;
    }

    method Splice(foreign: AuditRecord) returns (record: AuditRecord)
      requires Valid()
      modifies this
      ensures Valid() && sink == old(sink) + [record] && head == record.rowHash
      ensures record.content == foreign.content && record.prevHash == old(head)
    {
      record := Rechain(d, foreign.content, head);
      ChainAppend(d, start, sink, record);
      sink := sink + [record];
      head := record.rowHash;
    }
  }

  // ---------------------------------------------------------------- tamper evidence

  /** The NUL separator makes the digested text say where the previous hash ends. */
  lemma {:induction false} SeparatorSplits(a: string, p: string, b: string, q: string)
    requires '\0' !in a && '\0' !in b && a + "\0" + p == b + "\0" + q
    ensures a == b && p == q
  {
    var s, t := a + "\0" + p, b + "\0" + q;
    assert s[|a|] == '\0' && t[|b|] == '\0';
    assert forall i :: 0 <= i < |a| ==> s[i] == a[i] != '\0';
    assert forall i :: 0 <= i < |b| ==> t[i] == b[i] != '\0';
    assert |a| == |b|;
    assert s[..|a|] == a && t[..|b|] == b;
    assert s[|a| + 1..] == p && t[|b| + 1..] == q;
  }

  lemma {:induction false} RowHashInjective(d: Scheme, a: string, p: string, b: string, q: string)
    requires Sound(d) && '\0' !in a && '\0' !in b
    requires ComputeRowHash(d, a, p) == ComputeRowHash(d, b, q)
    ensures a == b && p == q
  {
    assert d.digest(a + "\0" + p) == d.digest(b + "\0" + q);
    SeparatorSplits(a, p, b, q);
  }

  lemma {:induction false} HeadHasNoNul(d: Scheme, recs: seq<AuditRecord>)
    requires Sound(d) && IsChain(d, d.genesis, recs)
    ensures '\0' !in HeadOf(d.genesis, recs)
    ensures recs != [] ==> HeadOf(d.genesis, recs) != d.genesis
  {
    if recs != [] {
      assert LinkedAt(d, d.genesis, recs, |recs| - 1);
    }
  }

  /** The head after `k` records is the digest of the head before the last of them. */
  lemma {:induction false} HeadStep(d: Scheme, recs: seq<AuditRecord>, k: nat)
    requires Sound(d) && IsChain(d, d.genesis, recs) && k < |recs|
    ensures HeadOf(d.genesis, recs[..k + 1])
            == ComputeRowHash(d, HeadOf(d.genesis, recs[..k]), d.canonical(recs[k].content))
    ensures '\0' !in HeadOf(d.genesis, recs[..k])
    ensures HeadOf(d.genesis, recs[..k + 1]) != d.genesis
  {
    ChainPrefix(d, d.genesis, recs, k);
    HeadHasNoNul(d, recs[..k]);
    assert LinkedAt(d, d.genesis, recs, k);
  }

  /** No head ever comes back: the heads along a chain are pairwise different. */
  lemma {:induction false} HeadsDistinct(d: Scheme, recs: seq<AuditRecord>, j: nat, k: nat)
    requires Sound(d) && IsChain(d, d.genesis, recs) && j < k <= |recs|
    ensures HeadOf(d.genesis, recs[..j]) != HeadOf(d.genesis, recs[..k])
    decreases j
  {
    HeadStep(d, recs, k - 1);
    if j == 0 {
      assert recs[..0] == [];
    } else {
      HeadStep(d, recs, j - 1);
      HeadsDistinct(d, recs, j - 1, k - 1);
      RowHashApart(d, HeadOf(d.genesis, recs[..j - 1]), d.canonical(recs[j - 1].content),
                   HeadOf(d.genesis, recs[..k - 1]), d.canonical(recs[k - 1].content));
    }
  }

  lemma {:induction false} RowHashApart(d: Scheme, a: string, p: string, b: string, q: string)
    requires Sound(d) && '\0' !in a && '\0' !in b && a != b
    ensures ComputeRowHash(d, a, p) != ComputeRowHash(d, b, q)
  {
    if ComputeRowHash(d, a, p) == ComputeRowHash(d, b, q) {
      RowHashInjective(d, a, p, b, q);
    }
  }

  lemma {:induction false} LastEqual(d: Scheme, prev: string, x: AuditRecord, y: AuditRecord)
    requires Faithful(d) && Linked(d, prev, x) && Linked(d, prev, y)
    requires d.canonical(x.content) == d.canonical(y.content)
    ensures x == y
  {
  }

  /** Equal heads force the last records and the heads before them. */
  lemma {:induction false} LastForced(d: Scheme, a: seq<AuditRecord>, b: seq<AuditRecord>, n: nat)
    requires Sound(d) && IsChain(d, d.genesis, a) && IsChain(d, d.genesis, b)
    requires Faithful(d) && n < |a| && n < |b|
    requires HeadOf(d.genesis, a[..n + 1]) == HeadOf(d.genesis, b[..n + 1])
    ensures HeadOf(d.genesis, a[..n]) == HeadOf(d.genesis, b[..n]) && a[n] == b[n]
  {
    HeadStep(d, a, n);
    HeadStep(d, b, n);
    var ha, hb := HeadOf(d.genesis, a[..n]), HeadOf(d.genesis, b[..n]);
    RowHashInjective(d, ha, d.canonical(a[n].content), hb, d.canonical(b[n].content));
    LastEqual(d, ha, a[n], b[n]) by {
      assert LinkedAt(d, d.genesis, a, n) && LinkedAt(d, d.genesis, b, n);
    }
  }

  /** Equal heads after `n` records: the logs agree on all of them. */
  lemma {:induction false} PrefixesEqual(d: Scheme, a: seq<AuditRecord>, b: seq<AuditRecord>, n: nat)
    requires Sound(d) && IsChain(d, d.genesis, a) && IsChain(d, d.genesis, b)
    requires Faithful(d) && n <= |a| && n <= |b|
    requires HeadOf(d.genesis, a[..n]) == HeadOf(d.genesis, b[..n])
    ensures a[..n] == b[..n]
    decreases n
  {
    if n > 0 {
      LastForced(d, a, b, n - 1);
      PrefixesEqual(d, a, b, n - 1);
      assert a[..n] == a[..n - 1] + [a[n - 1]] && b[..n] == b[..n - 1] + [b[n - 1]];
    }
  }

  /** Two accepted logs of the same length with the same last hash are the same log. */
  lemma {:induction false} LogsEqual(d: Scheme, a: seq<AuditRecord>, b: seq<AuditRecord>)
    requires Sound(d) && Faithful(d)
    requires IsChain(d, d.genesis, a) && IsChain(d, d.genesis, b)
    requires |a| == |b| && HeadOf(d.genesis, a) == HeadOf(d.genesis, b)
    ensures a == b
  {
    assert a[..|a|] == a && b[..|b|] == b;
    PrefixesEqual(d, a, b, |a|);
  }
}
