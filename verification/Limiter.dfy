/**
  The lockout tracker for failed logins: exponentially growing locks, an idle
  sweep on every call and eviction of the oldest record when full. As long as
  nothing is evicted it behaves, for each key, as an automaton that sees only
  that key's events.
 */
module Limiter {
  import opened Domain

  const SECOND: nat := 1_000_000_000
  const MAX_FAILED: nat := 5
  const BASE_LOCKOUT: nat := 30 * SECOND
  const MAX_LOCKOUT: nat := 900 * SECOND
  const ENTRY_TTL: nat := 1800 * SECOND
  const MAX_ENTRIES: nat := 4096
  const MAX_SHIFT: nat := 16

  datatype Info = Info(failures: nat, lockedUntil: nat, lastSeen: nat)

  function Pow2(n: nat): (p: nat)
    ensures p >= 1
  {
    if n == 0 then 1 else 2 * Pow2(n - 1)
  }

  function Min(a: nat, b: nat): nat {
    if a <= b then a else b
  }

  /** The documented lock: doubling from the base with every further failure, up to the maximum. */
  function Lockout(failures: nat): nat
    requires failures >= MAX_FAILED
  {
    Min(BASE_LOCKOUT * Pow2(failures - MAX_FAILED), MAX_LOCKOUT)
  }

  lemma {:induction false} Pow2Monotone(m: nat, n: nat)
    requires m <= n
    ensures Pow2(m) <= Pow2(n)
    decreases n
  {
    if m < n { Pow2Monotone(m, n - 1); }
  }

  /** Capping the shift never shows: the maximum is reached long before. */
  lemma ShiftCapInvisible(failures: nat)
    requires failures >= MAX_FAILED
    ensures Min(BASE_LOCKOUT * Pow2(Min(failures - MAX_FAILED, MAX_SHIFT)), MAX_LOCKOUT) == Lockout(failures)
    ensures BASE_LOCKOUT * Pow2(Min(failures - MAX_FAILED, MAX_SHIFT)) < 0x8000_0000_0000_0000
  {
    var shift := failures - MAX_FAILED;
    assert Pow2(4) == 16;
    assert Pow2(8) == 256;
    assert Pow2(12) == 4096;
    assert Pow2(16) == 65536;
    if shift > MAX_SHIFT {
      Pow2Monotone(MAX_SHIFT, shift);
    } else {
      Pow2Monotone(shift, MAX_SHIFT);
    }
  }

  lemma LockoutMonotone(m: nat, n: nat)
    requires MAX_FAILED <= m <= n
    ensures Lockout(m) <= Lockout(n)
  {
    Pow2Monotone(m - MAX_FAILED, n - MAX_FAILED);
  }

  // --- what a record looks like in every run ---------------------------------------------

  predicate RecordOk(i: Info, clock: nat) {
    && 1 <= i.failures && i.lastSeen <= clock
    && i.lockedUntil == if i.failures < MAX_FAILED then 0 else i.lastSeen + Lockout(i.failures)
  }

  ghost predicate TableOk(m: map<string, Info>, clock: nat) {
    |m| <= 4096 && forall k <- m :: RecordOk(m[k], clock)
  }

  /** Idle past the TTL and no longer locked. */
  predicate Disposable(i: Info, now: nat) {
    now - i.lastSeen > ENTRY_TTL && now >= i.lockedUntil
  }

  /** A lock ends within 15 minutes of the last failure, so the sweep never meets a live one. */
  lemma LocksEndBeforeTtl(i: Info, clock: nat, now: nat)
    requires RecordOk(i, clock)
    ensures i.lockedUntil <= i.lastSeen + MAX_LOCKOUT
    ensures Disposable(i, now) <==> now - i.lastSeen > ENTRY_TTL
    ensures now < i.lockedUntil ==> !Disposable(i, now)
  {
  }

  function Swept(m: map<string, Info>, now: nat): map<string, Info> {
    map k | k in m && !Disposable(m[k], now) :: m[k]
  }

  function AfterFailure(o: Option<Info>, now: nat): Info {
    var failures := (if o.Some? then o.value.failures else 0) + 1;
    Info(failures, if failures < MAX_FAILED then (if o.Some? then o.value.lockedUntil else 0) else now + Lockout(failures), now)
  }

  function Get(m: map<string, Info>, k: string): Option<Info> {
    if k in m then Some(m[k]) else None
  }

  lemma SweptSmaller(m: map<string, Info>, now: nat)
    ensures |Swept(m, now)| <= |m|
  {
    assert Swept(m, now).Keys <= m.Keys;
    SubsetSize(Swept(m, now).Keys, m.Keys);
  }

  lemma {:induction false} SubsetSize(a: set<string>, b: set<string>)
    requires a <= b
    ensures |a| <= |b|
  {
    if a != {} {
      var x :| x in a;
      SubsetSize(a - {x}, b - {x});
    }
  }

  class AttemptLimiter {
    var attempts: map<string, Info>

    constructor ()
      ensures attempts == map[]
    {
      attempts := map[];
    }

    method Sweep(now: nat)
      modifies this
      ensures attempts == Swept(old(attempts), now)
    {
      var todo := attempts.Keys;
      while todo != {}
        invariant todo <= attempts.Keys <= old(attempts).Keys
        invariant forall k <- attempts :: attempts[k] == old(attempts)[k]
        invariant forall k | k in old(attempts) && k !in todo :: k in attempts <==> !Disposable(old(attempts)[k], now)
      {
        var k :| k in todo;
        todo := todo - {k};
        if now - attempts[k].lastSeen > ENTRY_TTL && !(now < attempts[k].lockedUntil) {
          attempts := attempts - {k};
        }
      }
    }

    /** Drops a record that has gone unseen the longest. */
    method EvictOldest() returns (ghost victim: string)
      requires attempts != map[]
      modifies this
      ensures victim in old(attempts) && attempts == old(attempts) - {victim}
      ensures forall k <- old(attempts) :: old(attempts)[victim].lastSeen <= old(attempts)[k].lastSeen
    {
      var oldestKey, oldestTime, first := "", 0, true;
      var todo := attempts.Keys;
      while todo != {}
        invariant todo <= attempts.Keys
        invariant first <==> todo == attempts.Keys
        invariant !first ==> oldestKey in attempts && attempts[oldestKey].lastSeen == oldestTime
        invariant !first ==> forall k | k in attempts && k !in todo :: oldestTime <= attempts[k].lastSeen
      {
        var k :| k in todo;
        todo := todo - {k};
        if first || attempts[k].lastSeen < oldestTime {
          oldestKey, oldestTime, first := k, attempts[k].lastSeen, false;
        }
      }
      assert !first by { assert attempts.Keys != {}; }
      attempts := attempts - {oldestKey};
      victim := oldestKey;
    }

    method Allow(key: string, now: nat, ghost clock: nat) returns (ok: bool)
      requires TableOk(attempts, clock) && clock <= now
      modifies this
      ensures TableOk(attempts, now) && attempts == Swept(old(attempts), now)
      ensures ok <==> key in old(attempts) ==> now >= old(attempts)[key].lockedUntil
      ensures attempts == StepTable(old(attempts), AllowOp(key, now)) && Verdict(ok) == AnswerOf(old(attempts), AllowOp(key, now))
    {
      SweptSmaller(attempts, now);
      Sweep(now);
      if key !in attempts { return true; }
      return !(now < attempts[key].lockedUntil);
    }

    method RecordFailure(key: string, now: nat, ghost clock: nat) returns (lock: nat, ghost victim: Option<string>)
      requires TableOk(attempts, clock) && clock <= now
      modifies this
      ensures TableOk(attempts, now)
      ensures victim.None? <==> key in Swept(old(attempts), now) || |Swept(old(attempts), now)| < 4096
      ensures attempts == (Swept(old(attempts), now) - (if victim.Some? then {victim.value} else {}))
                          [key := AfterFailure(Get(Swept(old(attempts), now), key), now)]
      ensures victim.Some? ==> victim.value != key && forall k <- Swept(old(attempts), now) ::
        victim.value in Swept(old(attempts), now)
        && Swept(old(attempts), now)[victim.value].lastSeen <= Swept(old(attempts), now)[k].lastSeen
      ensures var f := attempts[key].failures; lock == if f < MAX_FAILED then 0 else Lockout(f)
      ensures Lock(lock) == AnswerOf(old(attempts), FailOp(key, now))
      ensures victim.None? ==> attempts == StepTable(old(attempts), FailOp(key, now))
    {
      SweptOk(attempts, clock, now);
      Sweep(now);
      ghost var swept := attempts;
      hide TableOk, Swept, AfterFailure, LockAfter, Lockout;
      victim := None;
      var record: Option<Info> := None;
      if key in attempts {
        record := Some(attempts[key]);
      } else if |attempts| >= MAX_ENTRIES {
        ghost var v := EvictOldest();
        victim := Some(v);
      }
      assert attempts == swept - (if victim.Some? then {victim.value} else {});
      assert record == Get(swept, key);
      var info;
      info, lock := OneMore(record, now);
      StoredOk(swept, attempts, key, now);
      attempts := attempts[key := info];
    }

    method RecordSuccess(key: string, ghost clock: nat)
      requires TableOk(attempts, clock)
      modifies this
      ensures attempts == old(attempts) - {key} && TableOk(attempts, clock)
      ensures attempts == StepTable(old(attempts), SucceedOp(key))
    {
      if key in attempts { Removal(attempts, key); } else { assert attempts - {key} == attempts; }
      attempts := attempts - {key};
    }
  }

  /** The record after one more failure, and the lock it brings. */
  method OneMore(record: Option<Info>, now: nat) returns (info: Info, lock: nat)
    ensures info == AfterFailure(record, now) && lock == LockAfter(info)
    ensures lock == if info.failures < MAX_FAILED then 0 else Lockout(info.failures)
  {
    hide Lockout;
    info := if record.Some? then record.value else Info(0, 0, 0);
    info := info.(failures := info.failures + 1, lastSeen := now);
    lock := 0;
    if info.failures >= MAX_FAILED {
      lock := LockFor(info.failures);
      info := info.(lockedUntil := now + lock);
    }
  }

  lemma SweptOk(m: map<string, Info>, clock: nat, now: nat)
    requires TableOk(m, clock) && clock <= now
    ensures TableOk(Swept(m, now), now)
  {
    SweptSmaller(m, now);
    hide Lockout, Disposable;
  }

  /** Room is made before a new key is stored, so the table stays sound. */
  lemma StoredOk(swept: map<string, Info>, rest: map<string, Info>, key: string, now: nat)
    requires TableOk(swept, now) && forall k <- rest :: k in swept && rest[k] == swept[k]
    requires key in swept || |swept| < 4096 || (exists v :: v in swept && rest == swept - {v})
    ensures TableOk(rest[key := AfterFailure(Get(swept, key), now)], now)
  {
    hide Lockout;
    Insertion(rest, key, AfterFailure(Get(swept, key), now));
    assert rest.Keys <= swept.Keys;
    SubsetSize(rest.Keys, swept.Keys);
    if key !in swept && |swept| >= 4096 {
      var v :| v in swept && rest == swept - {v};
      Removal(swept, v);
    }
    if key in swept && key !in rest { SubsetSize(rest.Keys + {key}, swept.Keys); }
    RecordAfter(Get(swept, key), now);
  }

  lemma RecordAfter(o: Option<Info>, now: nat)
    requires o.Some? ==> RecordOk(o.value, now)
    ensures RecordOk(AfterFailure(o, now), now)
  {
    hide Lockout;
  }

  method LockFor(failures: nat) returns (lock: nat)
    requires failures >= MAX_FAILED
    ensures lock == Lockout(failures)
  {
    var shift := failures - MAX_FAILED;
    if shift > MAX_SHIFT { shift := MAX_SHIFT; }
    lock := BASE_LOCKOUT * Pow2(shift);
    if lock > MAX_LOCKOUT { lock := MAX_LOCKOUT; }
    ShiftCapInvisible(failures);
  }

  lemma Removal(m: map<string, Info>, k: string)
    requires k in m
    ensures |m - {k}| == |m| - 1
  {
    assert (m - {k}).Keys == m.Keys - {k};
  }

  lemma Insertion(m: map<string, Info>, k: string, i: Info)
    ensures |m[k := i]| == if k in m then |m| else |m| + 1
  {
    assert m[k := i].Keys == m.Keys + {k};
  }

  // --- runs ----------------------------------------------------------------------------------

  datatype Op = AllowOp(key: string, now: nat) | FailOp(key: string, now: nat) | SucceedOp(key: string)

  datatype Answer = Verdict(ok: bool) | Lock(duration: nat) | Silent

  /** One call when nothing has to be evicted. */
  function StepTable(m: map<string, Info>, op: Op): map<string, Info> {
    match op
    case AllowOp(k, now) => Swept(m, now)
    case FailOp(k, now) => Swept(m, now)[k := AfterFailure(Get(Swept(m, now), k), now)]
    case SucceedOp(k) => m - {k}
  }

  function LockAfter(i: Info): nat {
    if i.failures < MAX_FAILED then 0 else Lockout(i.failures)
  }

  function AnswerOf(m: map<string, Info>, op: Op): Answer {
    match op
    case AllowOp(k, now) => Verdict(k in m ==> now >= m[k].lockedUntil)
    case FailOp(k, now) => Lock(LockAfter(AfterFailure(Get(Swept(m, now), k), now)))
    case SucceedOp(k) => Silent
  }

  /** The clock does not go back and a new key always finds room. */
  ghost predicate Fits(m: map<string, Info>, clock: nat, ops: seq<Op>)
    decreases |ops|
  {
    ops == [] ||
    (var op := ops[0];
     var now := if op.SucceedOp? then clock else op.now;
     && clock <= now
     && (op.FailOp? ==> op.key in Swept(m, now) || |Swept(m, now)| < 4096)
     && Fits(StepTable(m, op), now, ops[1..]))
  }

  function AnswersTo(m: map<string, Info>, ops: seq<Op>, key: string): seq<Answer>
    decreases |ops|
  {
    if ops == [] then []
    else (if ops[0].key == key then [AnswerOf(m, ops[0])] else []) + AnswersTo(StepTable(m, ops[0]), ops[1..], key)
  }

  // --- the automaton of a single key ------------------------------------------------------------

  function Expire(o: Option<Info>, now: nat): Option<Info> {
    if o.Some? && now - o.value.lastSeen > ENTRY_TTL then None else o
  }

  function KeyStep(o: Option<Info>, op: Op): Option<Info> {
    match op
    case AllowOp(_, now) => Expire(o, now)
    case FailOp(_, now) => Some(AfterFailure(Expire(o, now), now))
    case SucceedOp(_) => None
  }

  function KeyAnswer(o: Option<Info>, op: Op): Answer {
    match op
    case AllowOp(_, now) => Verdict(o.Some? ==> now >= o.value.lockedUntil)
    case FailOp(_, now) => Lock(LockAfter(AfterFailure(Expire(o, now), now)))
    case SucceedOp(_) => Silent
  }

  function KeyAnswers(o: Option<Info>, ops: seq<Op>, key: string): seq<Answer>
    decreases |ops|
  {
    if ops == [] then []
    else if ops[0].key == key then [KeyAnswer(o, ops[0])] + KeyAnswers(KeyStep(o, ops[0]), ops[1..], key)
    else KeyAnswers(o, ops[1..], key)
  }

  /** The table's record and the automaton's differ at most by one that has already expired. */
  ghost predicate Tracks(m: map<string, Info>, o: Option<Info>, key: string, clock: nat) {
    && (o.Some? ==> RecordOk(o.value, clock))
    && forall t: nat | t >= clock :: Expire(Get(m, key), t) == Expire(o, t)
  }

  lemma StepTableOk(m: map<string, Info>, clock: nat, op: Op)
    requires TableOk(m, clock) && Fits(m, clock, [op])
    ensures TableOk(StepTable(m, op), if op.SucceedOp? then clock else op.now)
  {
    match op
    case AllowOp(k, now) => SweptSmaller(m, now);
    case FailOp(k, now) =>
      SweptSmaller(m, now);
      Insertion(Swept(m, now), k, AfterFailure(Get(Swept(m, now), k), now));
    case SucceedOp(k) => if k in m { Removal(m, k); } else { assert m - {k} == m; }
  }

  lemma StepTracks(m: map<string, Info>, o: Option<Info>, key: string, clock: nat, op: Op)
    requires TableOk(m, clock) && Fits(m, clock, [op]) && Tracks(m, o, key, clock)
    ensures var now := if op.SucceedOp? then clock else op.now;
      Tracks(StepTable(m, op), if op.key == key then KeyStep(o, op) else o, key, now)
    ensures op.key == key ==> AnswerOf(m, op) == KeyAnswer(o, op)
  {
    var now := if op.SucceedOp? then clock else op.now;
    assert Expire(Get(m, key), now) == Expire(o, now);
    if key in m { LocksEndBeforeTtl(m[key], clock, now); }
    if o.Some? { LocksEndBeforeTtl(o.value, clock, now); }
  }

  /** Isolation: without eviction, a key's answers are those of its own automaton, whatever other keys do. */
  lemma {:induction false} KeysAreIsolated(m: map<string, Info>, clock: nat, ops: seq<Op>, key: string, o: Option<Info>)
    requires TableOk(m, clock) && Fits(m, clock, ops) && Tracks(m, o, key, clock)
    ensures AnswersTo(m, ops, key) == KeyAnswers(o, ops, key)
    decreases |ops|
  {
    if ops != [] {
      var op := ops[0];
      StepTableOk(m, clock, op);
      StepTracks(m, o, key, clock, op);
      KeysAreIsolated(StepTable(m, op), if op.SucceedOp? then clock else op.now, ops[1..], key,
                      if op.key == key then KeyStep(o, op) else o);
    }
  }

  // --- locks hold in every run -------------------------------------------------------------------

  function RunTable(m: map<string, Info>, ops: seq<Op>): map<string, Info>
    decreases |ops|
  {
    if ops == [] then m else RunTable(StepTable(m, ops[0]), ops[1..])
  }

  lemma {:induction false} FitsClock(m: map<string, Info>, clock: nat, ops: seq<Op>, i: nat)
    requires Fits(m, clock, ops) && i < |ops| && !ops[i].SucceedOp?
    ensures clock <= ops[i].now
    decreases |ops|
  {
    if i > 0 {
      var now := if ops[0].SucceedOp? then clock else ops[0].now;
      FitsClock(StepTable(m, ops[0]), now, ops[1..], i - 1);
    }
  }

  /** No call but the key's own success shortens a lock that has not ended. */
  lemma LockKept(m: map<string, Info>, clock: nat, op: Op, key: string, until: nat)
    requires TableOk(m, clock) && key in m && until <= m[key].lockedUntil
    requires op != SucceedOp(key) && (!op.SucceedOp? ==> clock <= op.now < until)
    ensures key in StepTable(m, op) && until <= StepTable(m, op)[key].lockedUntil
  {
    if !op.SucceedOp? { LocksEndBeforeTtl(m[key], clock, op.now); }
    if op.FailOp? && op.key == key { LockoutMonotone(m[key].failures, m[key].failures + 1); }
  }

  /** In every run without eviction, a locked key is refused until its lock ends unless it succeeds in between. */
  lemma {:induction false} LockedKeyRefused(m: map<string, Info>, clock: nat, ops: seq<Op>, key: string, until: nat, i: nat)
    requires TableOk(m, clock) && Fits(m, clock, ops) && key in m && until <= m[key].lockedUntil
    requires i < |ops| && ops[i].AllowOp? && ops[i].key == key && ops[i].now < until
    requires forall j | 0 <= j < i :: ops[j] != SucceedOp(key)
    ensures AnswerOf(RunTable(m, ops[..i]), ops[i]) == Verdict(false)
    decreases |ops|
  {
    if i > 0 {
      var op := ops[0];
      var now := if op.SucceedOp? then clock else op.now;
      FitsClock(StepTable(m, op), now, ops[1..], i - 1);
      LockKept(m, clock, op, key, until);
      StepTableOk(m, clock, op);
      LockedKeyRefused(StepTable(m, op), now, ops[1..], key, until, i - 1);
      assert ops[..i][1..] == ops[1..][..i - 1];
    }
  }

  // --- counting failures -------------------------------------------------------------------------

  predicate FailsAt(ops: seq<Op>, key: string, i: nat) {
    i < |ops| && ops[i].FailOp? && ops[i].key == key
  }

  /** How often the key failed. */
  function Failures(ops: seq<Op>, key: string): nat
    decreases |ops|
  {
    if ops == [] then 0 else (if FailsAt(ops, key, 0) then 1 else 0) + Failures(ops[1..], key)
  }

  /** No success of the key, and no two failures of it in a row lie more than 30 minutes apart. */
  ghost predicate Streak(ops: seq<Op>, key: string) {
    && SucceedOp(key) !in ops
    && forall i: nat, j: nat | i < j && FailsAt(ops, key, i) && FailsAt(ops, key, j)
                               && (forall k: nat | i < k < j :: !FailsAt(ops, key, k)) ::
         ops[j].now <= ops[i].now + 1_800_000_000_000
  }

  /** The record a streak continues, if any: its first failure comes in time. */
  ghost predicate Continues(m: map<string, Info>, ops: seq<Op>, key: string, n: nat) {
    if n == 0 then key !in m
    else
      && key in m && m[key].failures == n
      && forall j: nat | FailsAt(ops, key, j) && (forall k: nat | k < j :: !FailsAt(ops, key, k)) ::
           ops[j].now <= m[key].lastSeen + 1_800_000_000_000
  }

  /** 30 seconds, doubling, at most 15 minutes, from the fifth failure on; in nanoseconds. */
  function LockOfNth(n: nat): nat {
    if n < 5 then 0 else Min(30_000_000_000 * Pow2(n - 5), 900_000_000_000)
  }

  /** The first failure in a streak, by the time of which every earlier call has been made. */
  lemma FirstFailure(ops: seq<Op>, key: string, i: nat) returns (f: nat)
    requires FailsAt(ops, key, i)
    ensures f <= i && FailsAt(ops, key, f) && forall k: nat | k < f :: !FailsAt(ops, key, k)
  {
    f := 0;
    while !FailsAt(ops, key, f)
      invariant f <= i && forall k: nat | k < f :: !FailsAt(ops, key, k)
      decreases i - f
    {
      f := f + 1;
    }
  }

  /** A call that is not the key's own leaves a record that a later failure continues. */
  lemma OthersLeave(m: map<string, Info>, clock: nat, ops: seq<Op>, key: string, n: nat, i: nat)
    requires TableOk(m, clock) && Fits(m, clock, ops) && 0 < i && FailsAt(ops, key, i) && !FailsAt(ops, key, 0)
    requires SucceedOp(key) != ops[0] && Continues(m, ops, key, n)
    ensures Continues(StepTable(m, ops[0]), ops[1..], key, n)
  {
    var op, rest := ops[0], ops[1..];
    var f := FirstFailure(ops, key, i);
    assert forall k: nat | k < |rest| :: FailsAt(rest, key, k) == FailsAt(ops, key, k + 1);
    if n > 0 {
      if !op.SucceedOp? {
        FitsClock(StepTable(m, op), op.now, rest, f - 1);
        assert ops[f].now <= m[key].lastSeen + ENTRY_TTL;
      }
      forall j: nat | FailsAt(rest, key, j) && (forall k: nat | k < j :: !FailsAt(rest, key, k))
        ensures rest[j].now <= m[key].lastSeen + 1_800_000_000_000
      {
        assert forall k: nat | k < j + 1 :: !FailsAt(ops, key, k) by {
          forall k: nat | k < j + 1 ensures !FailsAt(ops, key, k) { if k > 0 { assert !FailsAt(rest, key, k - 1); } }
        }
        assert FailsAt(ops, key, j + 1);
      }
    }
  }

  /** The key's own failure counts one more. */
  lemma FailureCounts(m: map<string, Info>, clock: nat, ops: seq<Op>, key: string, n: nat)
    requires TableOk(m, clock) && FailsAt(ops, key, 0) && clock <= ops[0].now
    requires Streak(ops, key) && Continues(m, ops, key, n)
    ensures AnswerOf(m, ops[0]) == Lock(LockOfNth(n + 1))
    ensures var d := StepTable(m, ops[0]);
      Continues(d, ops[1..], key, n + 1) && d[key].lockedUntil == if n + 1 < 5 then 0 else ops[0].now + LockOfNth(n + 1)
  {
    var rest, now := ops[1..], ops[0].now;
    if n > 0 { assert now <= m[key].lastSeen + ENTRY_TTL; }
    assert Get(Swept(m, now), key) == Get(m, key);
    assert forall k: nat | k < |rest| :: FailsAt(rest, key, k) == FailsAt(ops, key, k + 1);
    forall j: nat | FailsAt(rest, key, j) && (forall k: nat | k < j :: !FailsAt(rest, key, k))
      ensures rest[j].now <= now + 1_800_000_000_000
    {
      assert forall k: nat | 0 < k < j + 1 :: !FailsAt(ops, key, k) by {
        forall k: nat | 0 < k < j + 1 ensures !FailsAt(ops, key, k) { assert !FailsAt(rest, key, k - 1); }
      }
      assert FailsAt(ops, key, j + 1);
    }
  }

  lemma StreakTail(ops: seq<Op>, key: string)
    requires Streak(ops, key) && ops != []
    ensures Streak(ops[1..], key)
  {
    var rest := ops[1..];
    assert forall k: nat | k < |rest| :: FailsAt(rest, key, k) == FailsAt(ops, key, k + 1);
    forall i: nat, j: nat | i < j && FailsAt(rest, key, i) && FailsAt(rest, key, j)
                            && (forall k: nat | i < k < j :: !FailsAt(rest, key, k))
      ensures rest[j].now <= rest[i].now + 1_800_000_000_000
    {
      assert FailsAt(ops, key, i + 1) && FailsAt(ops, key, j + 1);
      forall k: nat | i + 1 < k < j + 1 ensures !FailsAt(ops, key, k) { assert !FailsAt(rest, key, k - 1); }
    }
  }

  /** The failure at i answers as the n-th one and locks the key accordingly. */
  ghost predicate CountsAs(m: map<string, Info>, ops: seq<Op>, key: string, i: nat, n: nat)
    requires i < |ops| && !ops[i].SucceedOp?
  {
    var d := StepTable(RunTable(m, ops[..i]), ops[i]);
    && AnswerOf(RunTable(m, ops[..i]), ops[i]) == Lock(LockOfNth(n))
    && key in d && d[key].lockedUntil == if n < 5 then 0 else ops[i].now + LockOfNth(n)
  }

  lemma CountsShift(m: map<string, Info>, ops: seq<Op>, key: string, i: nat, n: nat)
    requires 0 < i < |ops| && !ops[i].SucceedOp? && CountsAs(StepTable(m, ops[0]), ops[1..], key, i - 1, n)
    ensures CountsAs(m, ops, key, i, n)
  {
    hide StepTable, AnswerOf, LockOfNth;
    assert ops[..i][1..] == ops[1..][..i - 1];
  }

  /** How many failures of the key there are up to and including the call at i. */
  function Nth(ops: seq<Op>, key: string, i: nat): nat
    requires i < |ops|
  {
    Failures(ops[..i + 1], key)
  }

  lemma NthShift(ops: seq<Op>, key: string, i: nat)
    requires i < |ops|
    ensures Nth(ops, key, i) == (if FailsAt(ops, key, 0) then 1 else 0) + (if i == 0 then 0 else Nth(ops[1..], key, i - 1))
  {
    var upTo := ops[..i + 1];
    assert FailsAt(upTo, key, 0) == FailsAt(ops, key, 0);
    assert Failures(upTo, key) == (if FailsAt(upTo, key, 0) then 1 else 0) + Failures(upTo[1..], key);
    if i == 0 {
      assert upTo[1..] == [] && Failures([], key) == 0;
    } else {
      assert upTo[1..] == ops[1..][..(i - 1) + 1];
    }
  }

  lemma FitsTail(m: map<string, Info>, clock: nat, ops: seq<Op>)
    requires Fits(m, clock, ops) && ops != []
    ensures var now := if ops[0].SucceedOp? then clock else ops[0].now;
      clock <= now && Fits(m, clock, [ops[0]]) && Fits(StepTable(m, ops[0]), now, ops[1..])
  {
    hide StepTable;
  }

  /** After one call the streak goes on, with one failure more if it was one. */
  lemma StreakGoesOn(m: map<string, Info>, clock: nat, ops: seq<Op>, key: string, n: nat, i: nat)
    requires TableOk(m, clock) && Fits(m, clock, ops) && FailsAt(ops, key, i) && i > 0
    requires Streak(ops, key) && Continues(m, ops, key, n)
    ensures var now, d := if ops[0].SucceedOp? then clock else ops[0].now, StepTable(m, ops[0]);
      && TableOk(d, now) && Fits(d, now, ops[1..]) && FailsAt(ops[1..], key, i - 1) && Streak(ops[1..], key)
      && Continues(d, ops[1..], key, if FailsAt(ops, key, 0) then n + 1 else n)
  {
    hide Streak, Continues, TableOk, Fits, StepTable, AnswerOf, LockOfNth, Pow2;
    FitsTail(m, clock, ops);
    StepTableOk(m, clock, ops[0]);
    StreakTail(ops, key);
    if FailsAt(ops, key, 0) {
      FailureCounts(m, clock, ops, key, n);
    } else {
      StreakNoSuccess(ops, key);
      OthersLeave(m, clock, ops, key, n, i);
    }
  }

  lemma {:induction false} StreakCounts(m: map<string, Info>, clock: nat, ops: seq<Op>, key: string, n: nat, i: nat)
    requires TableOk(m, clock) && Fits(m, clock, ops) && FailsAt(ops, key, i)
    requires Streak(ops, key) && Continues(m, ops, key, n)
    ensures CountsAs(m, ops, key, i, n + Nth(ops, key, i))
    decreases |ops|
  {
    hide Streak, Continues, TableOk, Fits, StepTable, CountsAs, Nth, LockOfNth, Pow2;
    var op, first := ops[0], FailsAt(ops, key, 0);
    NthShift(ops, key, i);
    if i == 0 {
      FitsTail(m, clock, ops);
      FirstCounts(m, clock, ops, key, n);
    } else {
      StreakGoesOn(m, clock, ops, key, n, i);
      StreakCounts(StepTable(m, op), if op.SucceedOp? then clock else op.now, ops[1..], key, if first then n + 1 else n, i - 1);
      CountsShift(m, ops, key, i, n + Nth(ops, key, i));
    }
  }

  lemma FirstCounts(m: map<string, Info>, clock: nat, ops: seq<Op>, key: string, n: nat)
    requires TableOk(m, clock) && FailsAt(ops, key, 0) && clock <= ops[0].now
    requires Streak(ops, key) && Continues(m, ops, key, n)
    ensures CountsAs(m, ops, key, 0, n + 1)
  {
    hide Streak, Continues, TableOk, AnswerOf, StepTable, LockOfNth, Pow2;
    FailureCounts(m, clock, ops, key, n);
    StillThere(m, ops[0]);
    assert ops[..0] == [];
  }

  lemma StillThere(m: map<string, Info>, op: Op)
    requires op.FailOp?
    ensures op.key in StepTable(m, op)
  {
  }

  lemma StreakNoSuccess(ops: seq<Op>, key: string)
    requires Streak(ops, key) && ops != []
    ensures ops[0] != SucceedOp(key)
  {
  }

  /**
    In every run without eviction, from a table without the key: the n-th failure
    of an unbroken streak answers no lock for n < 5 and then 30 s, 60 s, 120 s, up
    to 15 minutes, and locks the key for exactly as long, whatever other keys do.
   */
  lemma NthFailureLocks(m: map<string, Info>, clock: nat, ops: seq<Op>, key: string, i: nat)
    requires TableOk(m, clock) && Fits(m, clock, ops) && key !in m
    requires FailsAt(ops, key, i) && Streak(ops, key)
    ensures var n := Failures(ops[..i + 1], key);
      && AnswerOf(RunTable(m, ops[..i]), ops[i]) ==
         Lock(if n < 5 then 0 else Min(30_000_000_000 * Pow2(n - 5), 900_000_000_000))
      && (forall t: nat | t - ops[i].now <= 1_800_000_000_000 ::
            AnswerOf(RunTable(m, ops[..i + 1]), AllowOp(key, t)) ==
            Verdict(n < 5 || t >= ops[i].now + Min(30_000_000_000 * Pow2(n - 5), 900_000_000_000)))
  {
    StreakCounts(m, clock, ops, key, 0, i);
    RunTableSnoc(m, ops, i);
  }

  lemma {:induction false} RunTableSnoc(m: map<string, Info>, ops: seq<Op>, i: nat)
    requires i < |ops|
    ensures RunTable(m, ops[..i + 1]) == StepTable(RunTable(m, ops[..i]), ops[i])
    decreases |ops|
  {
    hide StepTable;
    assert ops[..i + 1][1..] == ops[1..][..i];
    if i > 0 {
      assert ops[..i][1..] == ops[1..][..i - 1];
      RunTableSnoc(StepTable(m, ops[0]), ops[1..], i - 1);
    }
  }

  /** A success or half an hour without a failure brings the key back to a table without it. */
  lemma StreakEnds(m: map<string, Info>, clock: nat, key: string, now: nat)
    requires TableOk(m, clock) && clock <= now
    ensures key !in StepTable(m, SucceedOp(key))
    ensures key in m && now - m[key].lastSeen > 1_800_000_000_000 ==>
      key !in Swept(m, now) && AnswerOf(m, FailOp(key, now)) == Lock(0) && StepTable(m, FailOp(key, now))[key].failures == 1
  {
    if key in m { LocksEndBeforeTtl(m[key], clock, now); }
  }
}
