/** What the limiter keeps over every run of calls, on any mix of keys. */
module RateLimiterRuns {
  import opened Wrappers
  import opened RateLimiter

  function Max(a: nat, b: nat): (n: nat) {
    if a < b then b else a
  }

  function Latest(ops: seq<Op>): (time: Time)
    decreases |ops|
  {
    if ops == [] then 0 else Max(Latest(ops[..|ops| - 1]), ops[|ops| - 1].now)
  }

  /** No call reads a clock more than `jitter` behind the latest reading before it. A jitter of
      zero is a clock that never runs back; waiting for the lock is what makes it positive. */
  ghost predicate Clocked(ops: seq<Op>, jitter: nat) {
    forall i :: 0 <= i < |ops| ==> Latest(ops[..i]) <= ops[i].now + jitter
  }

  // ------------------------------------------------------------------
  // The invariant of an entry
  // ------------------------------------------------------------------

  predicate EntryOk(a: Attempts, latest: Time, jitter: nat) {
    && a.count <= MAX_ATTEMPTS
    && a.windowStarted <= latest
    && match a.blockedUntil
       case None => a.count < MAX_ATTEMPTS
       case Some(until) =>
         || a.windowStarted + BLOCK_DURATION <= until + jitter
         || (until <= a.windowStarted && a.count < MAX_ATTEMPTS)
  }

  predicate OkEntry(e: Entry, latest: Time, jitter: nat) {
    e.Some? ==> EntryOk(e.value, latest, jitter)
  }

  lemma StepKeepsOk(e: Entry, op: Op, latest: Time, jitter: nat)
    requires jitter <= BLOCK_DURATION - WINDOW
    requires latest <= op.now + jitter
    requires OkEntry(e, latest, jitter)
    ensures OkEntry(Stepped(e, op), Max(latest, op.now), jitter)
  {
  }

  /** The counter never passes the limit, an entry without a block is below it, and a recorded
      block either lies a whole block past the window start or is history the window has left
      behind. Holds for every run from an empty limiter whose clock runs back by no more than
      fourteen minutes. */
  lemma {:induction false} LimiterInvariant(ops: seq<Op>, jitter: nat, i: nat, key: string)
    requires jitter <= BLOCK_DURATION - WINDOW
    requires Clocked(ops, jitter)
    requires i <= |ops|
    ensures OkEntry(At(Run(map[], ops[..i]), key), Latest(ops[..i]), jitter)
  {
    if i == 0 {
    } else {
      LimiterInvariant(ops, jitter, i - 1, key);
      assert ops[..i][..i - 1] == ops[..i - 1];
      RunStep(map[], ops, i - 1);
      var m, op := Run(map[], ops[..i - 1]), ops[i - 1];
      OneKeyView(m, op, key);
      StepKeepsOk(At(BeforeOp(m, op), key), op, Latest(ops[..i - 1]), jitter);
    }
  }

  // ------------------------------------------------------------------
  // One key's calls alone
  // ------------------------------------------------------------------

  function RunOne(e: Entry, ops: seq<Op>): (after: Entry)
    decreases |ops|
  {
    if ops == [] then e else Stepped(RunOne(e, ops[..|ops| - 1]), ops[|ops| - 1])
  }

  function AnswerOne(e: Entry, ops: seq<Op>, i: nat): (decision: Decision)
    requires i < |ops|
  {
    Decide(RunOne(e, ops[..i]), ops[i].now)
  }

  function Failures(key: string, now: Time, n: nat): (r: seq<Op>) {
    seq(n, _ => Failure(key, now))
  }

  lemma RunOneStep(e: Entry, ops: seq<Op>, op: Op)
    ensures RunOne(e, ops + [op]) == Stepped(RunOne(e, ops), op)
  {
    assert (ops + [op])[..|ops|] == ops;
  }

  lemma {:induction false} RunOneConcat(e: Entry, a: seq<Op>, b: seq<Op>)
    ensures RunOne(e, a + b) == RunOne(RunOne(e, a), b)
    decreases |b|
  {
    if b == [] {
      assert a + b == a;
    } else {
      RunOneConcat(e, a, b[..|b| - 1]);
      assert (a + b)[..|a + b| - 1] == a + b[..|b| - 1];
    }
  }

  lemma {:induction false} RepeatedFailures(a: Attempts, key: string, now: Time, n: nat)
    requires Elapsed(now, a.windowStarted) < WINDOW
    requires !IsBlocked(a, now)
    requires a.count + n < MAX_ATTEMPTS
    ensures RunOne(Some(a), Failures(key, now, n)) == Some(a.(count := a.count + n))
    decreases n
  {
    if n == 0 {
    } else {
      RepeatedFailures(a, key, now, n - 1);
      assert Failures(key, now, n)[..n - 1] == Failures(key, now, n - 1);
    }
  }

  lemma ClockedWithin(ops: seq<Op>, jitter: nat)
    requires forall i :: 0 <= i < |ops| ==> ops[i].now <= jitter || (i == |ops| - 1 && ops[i].now == BLOCK_DURATION)
    ensures Clocked(ops, jitter)
  {
    forall i | 0 <= i < |ops| ensures Latest(ops[..i]) <= ops[i].now + jitter {
      LatestBounded(ops[..i], jitter);
    }
  }

  /** The bound on the jitter is exact: one nanosecond more and eleven failures fit one count. */
  lemma JitterBoundIsExact(key: string, jitter: nat) returns (ops: seq<Op>)
    requires BLOCK_DURATION - WINDOW < jitter
    ensures Clocked(ops, jitter)
    ensures RunOne(None, ops).Some? && MAX_ATTEMPTS < RunOne(None, ops).value.count
  {
    var one := Attempts(1, jitter, None);
    var nine := one.(count := MAX_ATTEMPTS - 1);
    var first, middle := [Failure(key, jitter)], Failures(key, 0, MAX_ATTEMPTS - 2);
    var last := [Failure(key, 0), Failure(key, BLOCK_DURATION)];
    ops := first + middle + last;
    ClockedWithin(ops, jitter);
    assert RunOne(None, first) == Some(one) by {
      assert first[..0] == [];
    }
    RepeatedFailures(one, key, 0, MAX_ATTEMPTS - 2);
    RunOneConcat(None, first, middle);
    RunOneConcat(None, first + middle, last);
    BlockedThenCountedAgain(nine, key);
  }

  lemma BlockedThenCountedAgain(nine: Attempts, key: string)
    requires nine.count == MAX_ATTEMPTS - 1 && nine.blockedUntil.None?
    requires BLOCK_DURATION - WINDOW < nine.windowStarted
    ensures var e := RunOne(Some(nine), [Failure(key, 0), Failure(key, BLOCK_DURATION)]);
            e.Some? && e.value.count == MAX_ATTEMPTS + 1
  {
    var both := [Failure(key, 0), Failure(key, BLOCK_DURATION)];
    assert both[..1] == [Failure(key, 0)];
    assert RunOne(Some(nine), both[..1]) == Failed(Some(nine), 0);
  }

  lemma {:induction false} LatestBounded(ops: seq<Op>, bound: Time)
    requires forall i :: 0 <= i < |ops| ==> ops[i].now <= bound
    ensures Latest(ops) <= bound
    decreases |ops|
  {
    if ops == [] {
    } else {
      LatestBounded(ops[..|ops| - 1], bound);
    }
  }

  // ------------------------------------------------------------------
  // A block, from its start to its end
  // ------------------------------------------------------------------

  ghost predicate AllBefore(ops: seq<Op>, end: Time) {
    forall i :: 0 <= i < |ops| ==> ops[i].now < end
  }

  ghost predicate AllFrom(ops: seq<Op>, start: Time) {
    forall i :: 0 <= i < |ops| ==> start <= ops[i].now
  }

  /** Until it ends, a block's entry is untouched by every call on every key, sweeps included,
      whatever order the calls read the clock in. */
  lemma {:induction false} BlockedEntryIsUntouched(m: Entries, key: string, until: Time, ops: seq<Op>, i: nat)
    requires key in m && m[key].blockedUntil == Some(until)
    requires AllBefore(ops, until)
    requires i <= |ops|
    ensures At(Run(m, ops[..i]), key) == Some(m[key])
  {
    if i == 0 {
    } else {
      BlockedEntryIsUntouched(m, key, until, ops, i - 1);
      RunStep(m, ops, i - 1);
      OneKeyView(Run(m, ops[..i - 1]), ops[i - 1], key);
    }
  }

  /** The failure that starts a block at `start` is answered with Block by every check in
      [start, start + BLOCK_DURATION), whatever else is called meanwhile, and the seconds it
      names lie in 1..900. */
  lemma BlockHoldsForItsWholeDuration(m: Entries, key: string, start: Time, ops: seq<Op>, i: nat)
    requires !(key in m && IsBlocked(m[key], start))
    requires var after := Apply(m, Failure(key, start)); key in after && IsBlocked(after[key], start)
    requires AllFrom(ops, start) && AllBefore(ops, start + BLOCK_DURATION)
    requires i < |ops| && ops[i].key == key
    ensures var answer := AnswerAt(Apply(m, Failure(key, start)), ops, i);
            answer.Block? && 1 <= answer.retryAfterSeconds <= 900
  {
    var after := Apply(m, Failure(key, start));
    OneKeyView(m, Failure(key, start), key);
    BlockedEntryIsUntouched(after, key, start + BLOCK_DURATION, ops, i);
  }

  /** An entry whose block, if any, is over from `start` on, with nothing recorded since. */
  predicate Lapsed(e: Entry, start: Time) {
    e.Some? ==> e.value.blockedUntil.None? || e.value.blockedUntil.value <= start
  }

  ghost predicate InOrder(ops: seq<Op>) {
    forall i, j :: 0 <= i < j < |ops| ==> ops[i].now <= ops[j].now
  }

  ghost predicate NoFailureFrom(ops: seq<Op>, key: string, start: Time) {
    forall i :: 0 <= i < |ops| && ops[i].Failure? && ops[i].key == key ==> ops[i].now < start
  }

  lemma LapsedStaysLapsed(m: Entries, key: string, until: Time, op: Op)
    requires Lapsed(At(m, key), until) && until <= op.now
    requires !(op.Failure? && op.key == key)
    ensures Lapsed(At(Apply(m, op), key), until)
  {
    OneKeyView(m, op, key);
  }

  lemma {:induction false} BlockLapses(m: Entries, key: string, until: Time, ops: seq<Op>, i: nat)
    requires key in m && m[key].blockedUntil == Some(until)
    requires InOrder(ops) && NoFailureFrom(ops, key, until)
    requires i <= |ops|
    ensures Lapsed(At(Run(m, ops[..i]), key), until)
  {
    if i == 0 {
    } else if ops[i - 1].now < until {
      var early := ops[..i];
      assert early[..i] == early;
      BlockedEntryIsUntouched(m, key, until, early, i);
    } else {
      BlockLapses(m, key, until, ops, i - 1);
      RunStep(m, ops, i - 1);
      LapsedStaysLapsed(Run(m, ops[..i - 1]), key, until, ops[i - 1]);
    }
  }

  /** A caller refused at `now` and told to wait `r` seconds is let through one second after
      that, whatever else happened, unless it failed again after the block was over. */
  lemma WaitingOneSecondMoreIsEnough(m: Entries, key: string, now: Time, ops: seq<Op>, again: Time)
    requires key in m && IsBlocked(m[key], now)
    requires InOrder(ops) && NoFailureFrom(ops, key, m[key].blockedUntil.value)
    requires var r := Decide(At(m, key), now).retryAfterSeconds; now + (r + 1) * SECOND <= again
    ensures Decide(At(Run(m, ops), key), again) == Allow
  {
    BlockLapses(m, key, m[key].blockedUntil.value, ops, |ops|);
    assert ops[..|ops|] == ops;
  }

  /** Waiting just the seconds named is enough exactly when no fraction of a second was cut off:
      the remainder is whole seconds, or under one second and rounded up. */
  lemma WaitingAsToldIsEnoughExactlyWhen(e: Attempts, now: Time)
    requires IsBlocked(e, now)
    ensures var left := e.blockedUntil.value - now;
            Decide(Some(e), now + Decide(Some(e), now).retryAfterSeconds * SECOND) == Allow
            <==> left < SECOND || left % SECOND == 0
  {
    var left := e.blockedUntil.value - now;
    assert left == (left / SECOND) * SECOND + left % SECOND;
  }

  /** Told one second with a second and a half to go, a caller that waits it is refused again. */
  lemma WaitingAsToldCanBeTooShort(now: Time) returns (e: Attempts)
    ensures IsBlocked(e, now) && Decide(Some(e), now) == Block(1)
    ensures Decide(Some(e), now + SECOND).Block?
  {
    e := Attempts(MAX_ATTEMPTS, now, Some(now + 3 * SECOND / 2));
  }

  // ------------------------------------------------------------------
  // After a block: a full allowance again
  // ------------------------------------------------------------------

  function FailureCount(ops: seq<Op>, key: string): (n: nat)
    decreases |ops|
  {
    if ops == [] then 0
    else FailureCount(ops[..|ops| - 1], key)
         + if ops[|ops| - 1].Failure? && ops[|ops| - 1].key == key then 1 else 0
  }

  /** No block is active from `start` on, and at most `spent` failures count towards the next. */
  predicate Calm(e: Entry, start: Time, spent: nat) {
    e.Some? ==>
      match e.value.blockedUntil
      case None => e.value.count <= spent
      case Some(until) =>
        && until <= start
        && (e.value.windowStarted + WINDOW <= until
            || (until <= e.value.windowStarted && e.value.count <= spent))
  }

  lemma {:induction false} CalmRun(m: Entries, key: string, until: Time, ops: seq<Op>, i: nat)
    requires key in m && m[key].blockedUntil == Some(until)
    requires m[key].windowStarted + WINDOW <= until
    requires AllFrom(ops, until)
    requires i <= |ops| && FailureCount(ops[..i], key) < MAX_ATTEMPTS
    ensures Calm(At(Run(m, ops[..i]), key), until, FailureCount(ops[..i], key))
  {
    if i == 0 {
    } else {
      assert ops[..i][..i - 1] == ops[..i - 1];
      CalmRun(m, key, until, ops, i - 1);
      RunStep(m, ops, i - 1);
      OneKeyView(Run(m, ops[..i - 1]), ops[i - 1], key);
    }
  }

  /** After a block ends, a check is refused again only once the key has failed the whole limit
      over: whether a check or a failure came first, whichever entries were swept, and in
      whatever order the calls read the clock. */
  lemma FullAllowanceAfterABlock(m: Entries, key: string, latest: Time, jitter: nat, ops: seq<Op>, i: nat)
    requires jitter <= BLOCK_DURATION - WINDOW
    requires key in m && EntryOk(m[key], latest, jitter)
    requires m[key].blockedUntil.Some? && m[key].windowStarted < m[key].blockedUntil.value
    requires AllFrom(ops, m[key].blockedUntil.value)
    requires i < |ops| && ops[i].key == key && AnswerAt(m, ops, i).Block?
    ensures MAX_ATTEMPTS <= FailureCount(ops[..i], key)
  {
    if FailureCount(ops[..i], key) < MAX_ATTEMPTS {
      CalmRun(m, key, m[key].blockedUntil.value, ops, i);
    }
  }

  ghost predicate AllFailures(ops: seq<Op>) {
    forall i :: 0 <= i < |ops| ==> ops[i].Failure?
  }

  /** The limit is also enough: failures that the window of the first one holds always end in a
      block in force, or are all counted and fewer than the limit. Holds from any entry that is not
      blocked, also when the window started ahead of a clock that runs back. */
  lemma {:induction false} LimitFailuresBlock(e: Entry, ops: seq<Op>, windowStarted: Time)
    requires ops != [] && AllFailures(ops) && InOrder(ops)
    requires e.Some? ==> !IsBlocked(e.value, ops[0].now)
    requires windowStarted == Failed(e, ops[0].now).value.windowStarted
    requires windowStarted <= ops[0].now + (BLOCK_DURATION - WINDOW)
    requires ops[|ops| - 1].now < windowStarted + WINDOW
    ensures var a := RunOne(e, ops);
            && a.Some?
            && (|| (IsBlocked(a.value, ops[|ops| - 1].now) && ops[0].now + BLOCK_DURATION <= a.value.blockedUntil.value)
                || (|ops| <= a.value.count < MAX_ATTEMPTS && a.value.windowStarted == windowStarted
                    && (a.value.blockedUntil.Some? ==> a.value.blockedUntil.value <= ops[0].now)))
    decreases |ops|
  {
    var init := ops[..|ops| - 1];
    if init == [] {
      assert RunOne(e, init) == e;
    } else {
      LimitFailuresBlock(e, init, windowStarted);
    }
  }

  // ------------------------------------------------------------------
  // The sweep
  // ------------------------------------------------------------------

  /** A call on a limiter that first drops any chosen stale entries recording no block. */
  predicate Droppable(m: Entries, drop: set<string>, now: Time) {
    forall k :: k in drop && k in m ==> IsStale(m[k], now) && m[k].blockedUntil.None?
  }

  function ApplyDropping(m: Entries, op: Op, drop: set<string>): (after: Entries) {
    var kept := m - drop;
    Put(kept, op.key, Stepped(At(kept, op.key), op))
  }

  function ApplyKeeping(m: Entries, op: Op): (after: Entries) {
    Put(m, op.key, Stepped(At(m, op.key), op))
  }

  ghost function RunDropping(m: Entries, ops: seq<Op>, drops: seq<set<string>>): (after: Entries)
    requires |ops| == |drops|
    decreases |ops|
  {
    if ops == [] then m
    else ApplyDropping(RunDropping(m, ops[..|ops| - 1], drops[..|ops| - 1]), ops[|ops| - 1], drops[|ops| - 1])
  }

  ghost function RunKeeping(m: Entries, ops: seq<Op>): (after: Entries)
    decreases |ops|
  {
    if ops == [] then m else ApplyKeeping(RunKeeping(m, ops[..|ops| - 1]), ops[|ops| - 1])
  }

  /** Same entry, or one the dropping limiter lost while it was stale and blockless. */
  predicate SameOrLost(dropped: Entry, kept: Entry, now: Time) {
    || dropped == kept
    || (dropped.None? && IsStale(kept.value, now) && kept.value.blockedUntil.None?)
  }

  ghost predicate DropsOnlyBlockless(m: Entries, ops: seq<Op>, drops: seq<set<string>>)
    requires |ops| == |drops|
  {
    forall i :: 0 <= i < |ops| ==> Droppable(RunDropping(m, ops[..i], drops[..i]), drops[i], ops[i].now)
  }

  lemma SimulationStep(dropped: Entry, kept: Entry, op: Op, drop: bool, now: Time)
    requires SameOrLost(dropped, kept, op.now) && op.now <= now
    requires drop && dropped.Some? ==> IsStale(dropped.value, op.now) && dropped.value.blockedUntil.None?
    ensures var d := if drop then None else dropped;
            SameOrLost(d, kept, now) && SameOrLost(Stepped(d, op), Stepped(kept, op), now)
  {
  }

  lemma RunStepWithDrops(m: Entries, ops: seq<Op>, drops: seq<set<string>>, i: nat)
    requires |ops| == |drops| && i < |ops|
    ensures RunDropping(m, ops[..i + 1], drops[..i + 1])
            == ApplyDropping(RunDropping(m, ops[..i], drops[..i]), ops[i], drops[i])
    ensures RunKeeping(m, ops[..i + 1]) == ApplyKeeping(RunKeeping(m, ops[..i]), ops[i])
  {
    assert ops[..i + 1][..i] == ops[..i] && drops[..i + 1][..i] == drops[..i];
  }

  lemma DropView(m: Entries, op: Op, drop: set<string>, key: string)
    ensures var d := if key in drop then None else At(m, key);
            At(ApplyDropping(m, op, drop), key) == if op.key == key then Stepped(d, op) else d
  {
  }

  lemma DropStepSimulates(d: Entries, k: Entries, op: Op, drop: set<string>, key: string, now: Time)
    requires Droppable(d, drop, op.now) && SameOrLost(At(d, key), At(k, key), op.now) && op.now <= now
    ensures SameOrLost(At(ApplyDropping(d, op, drop), key), At(ApplyKeeping(k, op), key), now)
  {
    SimulationStep(At(d, key), At(k, key), op, key in drop, now);
    DropView(d, op, drop, key);
  }

  lemma {:induction false} DroppingSimulatesKeeping(
      m: Entries, ops: seq<Op>, drops: seq<set<string>>, i: nat, key: string, now: Time)
    requires |ops| == |drops| && InOrder(ops)
    requires DropsOnlyBlockless(m, ops, drops)
    requires i <= |ops| && forall j :: 0 <= j < i ==> ops[j].now <= now
    ensures SameOrLost(At(RunDropping(m, ops[..i], drops[..i]), key), At(RunKeeping(m, ops[..i]), key), now)
  {
    if i == 0 {
    } else {
      var op, drop := ops[i - 1], drops[i - 1];
      DroppingSimulatesKeeping(m, ops, drops, i - 1, key, op.now);
      RunStepWithDrops(m, ops, drops, i - 1);
      var d, k := RunDropping(m, ops[..i - 1], drops[..i - 1]), RunKeeping(m, ops[..i - 1]);
      assert Droppable(d, drop, op.now);
      DropStepSimulates(d, k, op, drop, key, now);
    }
  }

  /** Dropping stale entries that record no block, at any call and on any keys, never shows:
      every check answers as in a limiter that drops nothing. */
  lemma SweepingBlocklessEntriesIsUnobservable(
      m: Entries, ops: seq<Op>, drops: seq<set<string>>, i: nat)
    requires |ops| == |drops| && InOrder(ops)
    requires DropsOnlyBlockless(m, ops, drops)
    requires i < |ops|
    ensures Decide(At(RunDropping(m, ops[..i], drops[..i]), ops[i].key), ops[i].now)
            == Decide(At(RunKeeping(m, ops[..i]), ops[i].key), ops[i].now)
  {
    DroppingSimulatesKeeping(m, ops, drops, i, ops[i].key, ops[i].now);
  }

  /** What the limiter itself sweeps at a call. */
  function SweptKeys(m: Entries, op: Op): (keys: set<string>) {
    if op.Failure? && |m| > SWEEP_ABOVE then set k | k in m && IsStale(m[k], op.now) else {}
  }

  ghost function SweptAlong(m: Entries, ops: seq<Op>): (drops: seq<set<string>>)
    ensures |drops| == |ops|
    decreases |ops|
  {
    if ops == [] then []
    else SweptAlong(m, ops[..|ops| - 1]) + [SweptKeys(Run(m, ops[..|ops| - 1]), ops[|ops| - 1])]
  }

  lemma ApplyIsADrop(m: Entries, op: Op)
    ensures Apply(m, op) == ApplyDropping(m, op, SweptKeys(m, op))
  {
    assert BeforeOp(m, op) == m - SweptKeys(m, op);
  }

  lemma {:induction false} SweptAlongPrefix(m: Entries, ops: seq<Op>, i: nat)
    requires i <= |ops|
    ensures SweptAlong(m, ops)[..i] == SweptAlong(m, ops[..i])
    decreases |ops|
  {
    if i < |ops| {
      var init := ops[..|ops| - 1];
      SweptAlongPrefix(m, init, i);
      assert init[..i] == ops[..i];
      assert SweptAlong(m, ops)[..i] == SweptAlong(m, init)[..i];
    } else {
      assert ops[..i] == ops;
    }
  }

  lemma {:induction false} RunIsDropping(m: Entries, ops: seq<Op>)
    ensures RunDropping(m, ops, SweptAlong(m, ops)) == Run(m, ops)
    decreases |ops|
  {
    if ops != [] {
      var init, drops := ops[..|ops| - 1], SweptAlong(m, ops);
      RunIsDropping(m, init);
      assert drops[..|ops| - 1] == SweptAlong(m, init);
      ApplyIsADrop(Run(m, init), ops[|ops| - 1]);
    }
  }

  lemma SweptAt(m: Entries, ops: seq<Op>, i: nat)
    requires i < |ops|
    ensures SweptAlong(m, ops)[i] == SweptKeys(Run(m, ops[..i]), ops[i])
  {
    SweptAlongPrefix(m, ops, i + 1);
    assert ops[..i + 1][..i] == ops[..i];
    assert SweptAlong(m, ops)[i] == SweptAlong(m, ops)[..i + 1][i];
  }

  ghost predicate SweepsOnlyBlockless(m: Entries, ops: seq<Op>) {
    forall i, k :: 0 <= i < |ops| && k in SweptKeys(Run(m, ops[..i]), ops[i]) ==> Run(m, ops[..i])[k].blockedUntil.None?
  }

  /** So the limiter's own sweep never shows while no entry it takes records a block: every check
      of every run answers as if nothing were ever swept. */
  lemma OwnSweepIsUnobservable(m: Entries, ops: seq<Op>, i: nat)
    requires InOrder(ops) && SweepsOnlyBlockless(m, ops)
    requires i < |ops|
    ensures AnswerAt(m, ops, i) == Decide(At(RunKeeping(m, ops[..i]), ops[i].key), ops[i].now)
  {
    var drops := SweptAlong(m, ops);
    forall j | 0 <= j < |ops| ensures Droppable(RunDropping(m, ops[..j], drops[..j]), drops[j], ops[j].now) {
      SweptAlongPrefix(m, ops, j);
      RunIsDropping(m, ops[..j]);
      SweptAt(m, ops, j);
    }
    SweptAlongPrefix(m, ops, i);
    RunIsDropping(m, ops[..i]);
    SweepingBlocklessEntriesIsUnobservable(m, ops, drops, i);
  }

  ghost predicate SameAnswers(a: Entry, b: Entry, from: Time) {
    forall ops, i :: InOrder(ops) && AllFrom(ops, from) && 0 <= i < |ops|
                     ==> AnswerOne(a, ops, i) == AnswerOne(b, ops, i)
  }

  lemma {:induction false} LostEntrySimulates(e: Attempts, now: Time, ops: seq<Op>, i: nat)
    requires IsStale(e, now) && e.blockedUntil.None?
    requires InOrder(ops) && AllFrom(ops, now)
    requires i < |ops|
    ensures SameOrLost(RunOne(None, ops[..i]), RunOne(Some(e), ops[..i]), ops[i].now)
  {
    if i == 0 {
    } else {
      LostEntrySimulates(e, now, ops, i - 1);
      assert ops[..i][..i - 1] == ops[..i - 1];
    }
  }

  /** `n` requests that are let through and fail, at one instant. */
  function Attempted(key: string, now: Time, n: nat): (ops: seq<Op>) {
    if n == 0 then [] else Attempted(key, now, n - 1) + [Check(key, now), Failure(key, now)]
  }

  lemma {:induction false} RepeatedAttempts(a: Attempts, key: string, now: Time, n: nat)
    requires Elapsed(now, a.windowStarted) < WINDOW && a.blockedUntil.None? && a.count + n < MAX_ATTEMPTS
    ensures RunOne(Some(a), Attempted(key, now, n)) == Some(a.(count := a.count + n))
    decreases n
  {
    if n > 0 {
      RepeatedAttempts(a, key, now, n - 1);
      OneAttempt(Some(a), Attempted(key, now, n - 1), key, now);
    }
  }

  lemma TwoSteps(e: Entry, ops: seq<Op>, a: Op, b: Op)
    ensures RunOne(e, ops + [a, b]) == Stepped(Stepped(RunOne(e, ops), a), b)
  {
    var once := ops + [a];
    assert ops + [a, b] == once + [b];
    RunOneStep(e, once, b);
    RunOneStep(e, ops, a);
  }

  lemma OneAttempt(e: Entry, ops: seq<Op>, key: string, now: Time)
    ensures RunOne(e, ops + [Check(key, now), Failure(key, now)]) == Failed(Checked(RunOne(e, ops), now), now)
  {
    TwoSteps(e, ops, Check(key, now), Failure(key, now));
  }

  lemma {:induction false} AttemptedAt(key: string, now: Time, n: nat)
    ensures AllAt(Attempted(key, now, n), now)
    decreases n
  {
    if n > 0 {
      AttemptedAt(key, now, n - 1);
    }
  }

  ghost predicate AllAt(ops: seq<Op>, now: Time) {
    forall i :: 0 <= i < |ops| ==> ops[i].now == now
  }

  /** A check, a failing request 59 seconds later, and nine more two seconds after that. */
  function TenInAMinute(key: string, now: Time): (ops: seq<Op>) {
    var later, late := now + 59 * SECOND, now + 61 * SECOND;
    [Check(key, now)] + [Check(key, later), Failure(key, later)] + [Check(key, late), Failure(key, late)]
    + Attempted(key, late, MAX_ATTEMPTS - 3) + [Check(key, late), Failure(key, late)]
  }

  function TellingApart(key: string, now: Time): (ops: seq<Op>) {
    TenInAMinute(key, now) + [Check(key, now + 61 * SECOND)]
  }

  lemma TellingApartIsOrdered(key: string, now: Time)
    ensures InOrder(TellingApart(key, now)) && AllFrom(TellingApart(key, now), now)
  {
    var later, late := now + 59 * SECOND, now + 61 * SECOND;
    var head := [Check(key, now)] + [Check(key, later), Failure(key, later)];
    var tail := [Check(key, late), Failure(key, late)] + Attempted(key, late, MAX_ATTEMPTS - 3)
                + [Check(key, late), Failure(key, late)] + [Check(key, late)];
    AttemptedAt(key, late, MAX_ATTEMPTS - 3);
    assert TellingApart(key, now) == head + tail;
    OrderedBefore(head, tail, late);
  }

  lemma OrderedBefore(head: seq<Op>, tail: seq<Op>, late: Time)
    requires InOrder(head) && AllBefore(head, late) && AllAt(tail, late)
    ensures InOrder(head + tail)
  {
  }

  /** A check, and the failure recorded after it. */
  function Tried(e: Entry, now: Time): (after: Entry) {
    Failed(Checked(e, now), now)
  }

  lemma AfterTenInAMinute(e: Entry, key: string, now: Time)
    ensures var later, late := now + 59 * SECOND, now + 61 * SECOND;
            RunOne(e, TenInAMinute(key, now))
            == Tried(RunOne(Tried(Tried(Checked(e, now), later), late), Attempted(key, late, MAX_ATTEMPTS - 3)), late)
  {
    var later, late := now + 59 * SECOND, now + 61 * SECOND;
    var head, more := [Check(key, now)], Attempted(key, late, MAX_ATTEMPTS - 3);
    var two := head + [Check(key, later), Failure(key, later)] + [Check(key, late), Failure(key, late)];
    RunOneStep(e, [], Check(key, now));
    assert [] + head == head;
    OneAttempt(e, head, key, later);
    OneAttempt(e, head + [Check(key, later), Failure(key, later)], key, late);
    RunOneConcat(e, two, more);
    OneAttempt(e, two + more, key, late);
  }

  lemma KeptCountsOver(e: Attempts, now: Time, key: string)
    requires IsStale(e, now) && e.blockedUntil.Some?
    ensures RunOne(Some(e), TenInAMinute(key, now)) == Some(Attempts(MAX_ATTEMPTS - 1, now + 61 * SECOND, None))
  {
    AfterTenInAMinute(Some(e), key, now);
    RepeatedAttempts(Attempts(1, now + 61 * SECOND, None), key, now + 61 * SECOND, MAX_ATTEMPTS - 3);
  }

  lemma SweptCountsOn(now: Time, key: string)
    ensures var late := now + 61 * SECOND;
            RunOne(None, TenInAMinute(key, now)) == Some(Attempts(MAX_ATTEMPTS, now + 59 * SECOND, Some(late + BLOCK_DURATION)))
  {
    AfterTenInAMinute(None, key, now);
    RepeatedAttempts(Attempts(2, now + 59 * SECOND, None), key, now + 61 * SECOND, MAX_ATTEMPTS - 3);
  }

  /** The check anchors a window at `now` in the kept entry and none in the swept one. So a minute
      later the kept entry starts counting over, while the swept one has room for nine more. */
  lemma TellsApart(e: Attempts, now: Time, key: string)
    requires IsStale(e, now) && e.blockedUntil.Some?
    ensures var ops := TellingApart(key, now); var last := |ops| - 1;
            AnswerOne(None, ops, last).Block? && AnswerOne(Some(e), ops, last).Allow?
  {
    KeptCountsOver(e, now, key);
    SweptCountsOn(now, key);
    var ops := TellingApart(key, now);
    assert ops[..|ops| - 1] == TenInAMinute(key, now);
  }

  /** Sweeping a stale entry is unobservable exactly when it records no block. An expired block
      left on the entry makes the next check clear the count a failure has just started, which a
      swept entry does not have: failure, check, nine failures tell the two apart. */
  lemma SweepIsUnobservableExactlyWhenBlockless(e: Attempts, now: Time, key: string)
    requires IsStale(e, now)
    ensures SameAnswers(None, Some(e), now) <==> e.blockedUntil.None?
  {
    if e.blockedUntil.None? {
      forall ops, i | InOrder(ops) && AllFrom(ops, now) && 0 <= i < |ops|
        ensures AnswerOne(None, ops, i) == AnswerOne(Some(e), ops, i)
      {
        LostEntrySimulates(e, now, ops, i);
      }
    } else {
      var ops := TellingApart(key, now);
      TellingApartIsOrdered(key, now);
      TellsApart(e, now, key);
      assert AnswerOne(None, ops, |ops| - 1) != AnswerOne(Some(e), ops, |ops| - 1);
    }
  }

  // ------------------------------------------------------------------
  // Within one window: failures less successes
  // ------------------------------------------------------------------

  ghost predicate Outcomes(ops: seq<Op>, windowStarted: Time) {
    forall i :: 0 <= i < |ops| ==> !ops[i].Check? && windowStarted <= ops[i].now < windowStarted + WINDOW
  }

  function Balance(ops: seq<Op>): (n: int)
    decreases |ops|
  {
    if ops == [] then 0
    else Balance(ops[..|ops| - 1]) + match ops[|ops| - 1]
                                     case Failure(_, _) => 1
                                     case Success(_, _) => -1
                                     case Check(_, _) => 0
  }

  ghost predicate IsLargestSuffixBalance(n: int, ops: seq<Op>) {
    && (exists i :: 0 <= i <= |ops| && Balance(ops[i..]) == n)
    && (forall i :: 0 <= i <= |ops| ==> Balance(ops[i..]) <= n)
  }

  ghost predicate SomeStretchReaches(limit: int, ops: seq<Op>) {
    exists i, j :: 0 <= i <= j <= |ops| && limit <= Balance(ops[i..j])
  }

  /** A count still open in its window, or a block that outlasts the window. */
  predicate OpenOrBlocked(e: Entry, windowStarted: Time) {
    && e.Some?
    && (e.value.blockedUntil.None? ==> e.value.windowStarted == windowStarted)
    && (e.value.blockedUntil.Some? ==> windowStarted + WINDOW <= e.value.blockedUntil.value)
  }

  lemma SuffixStep(ops: seq<Op>, n: nat)
    requires ops != [] && !ops[|ops| - 1].Check?
    requires IsLargestSuffixBalance(n, ops[..|ops| - 1])
    ensures IsLargestSuffixBalance(
              if ops[|ops| - 1].Failure? then n + 1 else if n == 0 then 0 else n - 1, ops)
  {
    var init, end := ops[..|ops| - 1], |ops| - 1;
    forall i | 0 <= i <= end
      ensures Balance(ops[i..]) == Balance(init[i..]) + if ops[end].Failure? then 1 else -1
    {
      assert ops[i..][..|ops[i..]| - 1] == init[i..];
    }
    assert ops[|ops|..] == [] && Balance(init[end..]) == 0;
    assert Balance(ops[|ops|..]) == 0;
    var i :| 0 <= i <= end && Balance(init[i..]) == n;
    assert Balance(ops[i..]) == n + if ops[end].Failure? then 1 else -1;
  }

  lemma StretchOfInit(ops: seq<Op>, i: nat, j: nat)
    requires ops != [] && i <= j <= |ops| - 1
    ensures ops[i..j] == ops[..|ops| - 1][i..j]
  {
  }

  lemma StretchToTheEnd(ops: seq<Op>, i: nat)
    requires i <= |ops|
    ensures ops[i..] == ops[i..|ops|]
  {
  }

  lemma StretchStep(ops: seq<Op>, limit: int)
    requires ops != []
    ensures SomeStretchReaches(limit, ops)
            <==> SomeStretchReaches(limit, ops[..|ops| - 1]) || exists i :: 0 <= i <= |ops| && limit <= Balance(ops[i..])
  {
    var init := ops[..|ops| - 1];
    if SomeStretchReaches(limit, ops) {
      var i, j :| 0 <= i <= j <= |ops| && limit <= Balance(ops[i..j]);
      if j == |ops| {
        StretchToTheEnd(ops, i);
      } else {
        StretchOfInit(ops, i, j);
        assert limit <= Balance(init[i..j]);
      }
    }
    if SomeStretchReaches(limit, init) {
      var i, j :| 0 <= i <= j <= |init| && limit <= Balance(init[i..j]);
      StretchOfInit(ops, i, j);
      assert limit <= Balance(ops[i..j]);
    }
    if i :| 0 <= i <= |ops| && limit <= Balance(ops[i..]) {
      StretchToTheEnd(ops, i);
      assert limit <= Balance(ops[i..|ops|]);
    }
  }

  lemma LargestSuffixIsAStretch(ops: seq<Op>, n: nat)
    requires IsLargestSuffixBalance(n, ops) && !SomeStretchReaches(MAX_ATTEMPTS, ops)
    ensures n < MAX_ATTEMPTS
  {
    var i :| 0 <= i <= |ops| && Balance(ops[i..]) == n;
    assert ops[i..|ops|] == ops[i..];
  }

  /** Within one window the saturating counter is the largest failures-less-successes over any
      suffix of the outcomes, and a block has started exactly when some contiguous stretch of
      them held the limit more failures than successes. */
  lemma {:induction false} CounterIsTheLargestSuffixBalance(windowStarted: Time, ops: seq<Op>)
    requires Outcomes(ops, windowStarted)
    ensures var e := RunOne(Some(Attempts(0, windowStarted, None)), ops);
            && OpenOrBlocked(e, windowStarted)
            && (e.value.blockedUntil.Some? <==> SomeStretchReaches(MAX_ATTEMPTS, ops))
            && (e.value.blockedUntil.None? ==> IsLargestSuffixBalance(e.value.count, ops))
    decreases |ops|
  {
    var start := Some(Attempts(0, windowStarted, None));
    if ops == [] {
      assert Balance(ops[0..]) == 0;
    } else {
      var init := ops[..|ops| - 1];
      CounterIsTheLargestSuffixBalance(windowStarted, init);
      StretchStep(ops, MAX_ATTEMPTS);
      var e := RunOne(start, init);
      if e.value.blockedUntil.None? {
        SuffixStep(ops, e.value.count);
        LargestSuffixIsAStretch(init, e.value.count);
      }
    }
  }

  // ------------------------------------------------------------------
  // Any stretch of time as long as the window
  // ------------------------------------------------------------------

  /** What can happen to one key whose requests run one at a time: an allowed check, then the
      record of how that request ended, with sweeps of the entry at any point. */
  datatype Event = Ask(now: Time) | Record(now: Time) | Forgive(now: Time) | Sweep(now: Time)

  /** A change of the counter: a failure counted, or a success that worked one off. */
  datatype Change = Change(time: Time, failed: bool)

  datatype Client = Client(entry: Entry, cleared: bool, latest: Time, log: seq<Change>)

  const NEW_CLIENT := Client(None, false, 0, [])

  predicate MayHappen(c: Client, event: Event) {
    c.latest <= event.now && (event.Record? || event.Forgive? ==> c.cleared)
  }

  function Happen(c: Client, event: Event): (after: Client) {
    match event
    case Ask(now) => Client(Checked(c.entry, now), Decide(c.entry, now).Allow?, now, c.log)
    case Sweep(now) => Client(Swept(c.entry, now), c.cleared, now, c.log)
    case Record(now) =>
      Client(Failed(c.entry, now), false, now,
             if c.entry.Some? && IsBlocked(c.entry.value, now) then c.log else c.log + [Change(now, true)])
    case Forgive(now) =>
      Client(Succeeded(c.entry, now), false, now,
             if Succeeded(c.entry, now) == c.entry then c.log else c.log + [Change(now, false)])
  }

  function After(events: seq<Event>): (after: Client)
    decreases |events|
  {
    if events == [] then NEW_CLIENT else Happen(After(events[..|events| - 1]), events[|events| - 1])
  }

  predicate OneAtATime(events: seq<Event>)
    decreases |events|
  {
    events == [] ||
    (OneAtATime(events[..|events| - 1]) && MayHappen(After(events[..|events| - 1]), events[|events| - 1]))
  }

  function Weight(change: Change): (n: int) {
    if change.failed then 1 else -1
  }

  /** Failures counted less failures worked off, from `start` on and before `end`. */
  function NetIn(log: seq<Change>, start: Time, end: Time): (n: int)
    decreases |log|
  {
    if log == [] then 0
    else
      var last := log[|log| - 1];
      NetIn(log[..|log| - 1], start, end) + if start <= last.time < end then Weight(last) else 0
  }

  function NetFrom(log: seq<Change>, start: Time): (n: int)
    decreases |log|
  {
    if log == [] then 0
    else
      var last := log[|log| - 1];
      NetFrom(log[..|log| - 1], start) + if start <= last.time then Weight(last) else 0
  }

  lemma NetInStep(log: seq<Change>, change: Change, start: Time, end: Time)
    ensures NetIn(log + [change], start, end)
            == NetIn(log, start, end) + if start <= change.time < end then Weight(change) else 0
  {
    assert (log + [change])[..|log|] == log;
  }

  lemma NetFromStep(log: seq<Change>, change: Change, start: Time)
    ensures NetFrom(log + [change], start) == NetFrom(log, start) + if start <= change.time then Weight(change) else 0
  {
    assert (log + [change])[..|log|] == log;
  }

  ghost predicate AllUpTo(log: seq<Change>, latest: Time) {
    forall i :: 0 <= i < |log| ==> log[i].time <= latest
  }

  lemma {:induction false} NetInIsNetFrom(log: seq<Change>, start: Time, end: Time)
    requires forall i :: 0 <= i < |log| ==> log[i].time < end
    ensures NetIn(log, start, end) == NetFrom(log, start)
    decreases |log|
  {
    if log != [] {
      NetInIsNetFrom(log[..|log| - 1], start, end);
    }
  }

  lemma {:induction false} NothingLater(log: seq<Change>, start: Time)
    requires forall i :: 0 <= i < |log| ==> log[i].time < start
    ensures NetFrom(log, start) == 0
    decreases |log|
  {
    if log != [] {
      NothingLater(log[..|log| - 1], start);
    }
  }

  /** From any instant after `after`, the log nets at most `bound`. */
  ghost predicate NetsAtMost(log: seq<Change>, after: int, bound: int) {
    forall start: Time :: after < start ==> NetFrom(log, start) <= bound
  }

  const TWO_ALLOWANCES: nat := 2 * MAX_ATTEMPTS - 1
  const SPARE: nat := MAX_ATTEMPTS - 1

  /** How the entry accounts for the log: the open window's own changes net at most its count, and
      the window before it left less than the limit. */
  ghost predicate EntryExplains(c: Client) {
    match c.entry
    case None => NetsAtMost(c.log, c.latest - WINDOW, SPARE)
    case Some(a) =>
      && a.windowStarted <= c.latest
      && match a.blockedUntil
         case None =>
           && a.count <= SPARE
           && NetsAtMost(c.log, a.windowStarted, a.count)
           && NetsAtMost(c.log, a.windowStarted - WINDOW, a.count + SPARE)
         case Some(until) =>
           !c.cleared && forall i :: 0 <= i < |c.log| ==> c.log[i].time + BLOCK_DURATION <= until
  }

  /** ... in the interval as long as the window that begins at `start`. */
  function NetInWindow(log: seq<Change>, start: Time): (n: int) {
    NetIn(log, start, start + WINDOW)
  }

  ghost predicate WithinTwoAllowances(log: seq<Change>) {
    forall start: Time :: NetInWindow(log, start) <= TWO_ALLOWANCES
  }

  ghost predicate ClientOk(c: Client) {
    WithinTwoAllowances(c.log) && AllUpTo(c.log, c.latest) && EntryExplains(c)
  }

  /** One more change keeps the bound if what it is added to leaves room for it. */
  lemma ChangeKeepsBound(log: seq<Change>, change: Change)
    requires WithinTwoAllowances(log) && AllUpTo(log, change.time)
    requires NetsAtMost(log, change.time - WINDOW, TWO_ALLOWANCES - Weight(change))
    ensures WithinTwoAllowances(log + [change])
  {
    forall start: Time ensures NetInWindow(log + [change], start) <= TWO_ALLOWANCES {
      NetInStep(log, change, start, start + WINDOW);
      assert NetInWindow(log, start) <= TWO_ALLOWANCES;
      if start <= change.time < start + WINDOW {
        NetInIsNetFrom(log, start, start + WINDOW);
      }
    }
  }

  lemma ChangeNets(log: seq<Change>, change: Change, after: int, bound: int)
    requires NetsAtMost(log, after, bound) && AllUpTo(log, change.time)
    requires 0 <= bound + Weight(change)
    ensures NetsAtMost(log + [change], after, bound + Weight(change))
  {
    forall start: Time | after < start ensures NetFrom(log + [change], start) <= bound + Weight(change) {
      NetFromStep(log, change, start);
      if change.time < start {
        NothingLater(log, start);
      }
    }
  }

  lemma LaterNetsNothing(log: seq<Change>, after: int, bound: nat)
    requires forall i :: 0 <= i < |log| ==> log[i].time <= after
    ensures NetsAtMost(log, after, bound)
  {
    forall start: Time | after < start ensures NetFrom(log, start) <= bound {
      NothingLater(log, start);
    }
  }

  /** The window a failure at `now` counts in, and how many it has counted. */
  function OpenCount(e: Entry, now: Time): (n: nat) {
    if e.None? || Elapsed(now, e.value.windowStarted) >= WINDOW then 0 else e.value.count
  }

  function OpenStart(e: Entry, now: Time): (start: Time) {
    if e.None? || Elapsed(now, e.value.windowStarted) >= WINDOW then now else e.value.windowStarted
  }

  /** A client that was let through has room for one more failure. */
  lemma RoomForOne(c: Client, now: Time)
    requires ClientOk(c) && c.cleared && c.latest <= now
    ensures OpenCount(c.entry, now) <= SPARE && OpenStart(c.entry, now) <= now < OpenStart(c.entry, now) + WINDOW
    ensures NetsAtMost(c.log, OpenStart(c.entry, now), OpenCount(c.entry, now))
    ensures NetsAtMost(c.log, OpenStart(c.entry, now) - WINDOW, OpenCount(c.entry, now) + SPARE)
  {
    if OpenStart(c.entry, now) == now {
      LaterNetsNothing(c.log, now, OpenCount(c.entry, now));
    }
  }

  lemma RecordKeepsOk(c: Client, now: Time)
    requires ClientOk(c) && MayHappen(c, Record(now))
    ensures ClientOk(Happen(c, Record(now)))
  {
    var change, count, start := Change(now, true), OpenCount(c.entry, now), OpenStart(c.entry, now);
    RoomForOne(c, now);
    ChangeKeepsBound(c.log, change);
    ChangeNets(c.log, change, start, count);
    ChangeNets(c.log, change, start - WINDOW, count + SPARE);
    assert Happen(c, Record(now)).log == c.log + [change];
  }

  lemma ForgiveKeepsOk(c: Client, now: Time)
    requires ClientOk(c) && MayHappen(c, Forgive(now))
    ensures ClientOk(Happen(c, Forgive(now)))
  {
    if Succeeded(c.entry, now) != c.entry {
      var change, a := Change(now, false), c.entry.value;
      assert NetsAtMost(c.log, now - WINDOW, TWO_ALLOWANCES + 1);
      ChangeKeepsBound(c.log, change);
      ChangeNets(c.log, change, a.windowStarted, a.count);
      ChangeNets(c.log, change, a.windowStarted - WINDOW, a.count + SPARE);
    }
  }

  lemma OtherEventKeepsOk(c: Client, event: Event)
    requires ClientOk(c) && MayHappen(c, event) && (event.Ask? || event.Sweep?)
    ensures ClientOk(Happen(c, event))
  {
    if c.entry.Some? && c.entry.value.blockedUntil.Some? && c.entry.value.blockedUntil.value <= event.now {
      LaterNetsNothing(c.log, event.now - WINDOW, 0);
    }
  }

  lemma {:induction false} OneAtATimeOk(events: seq<Event>)
    requires OneAtATime(events)
    ensures ClientOk(After(events))
    decreases |events|
  {
    if events == [] {
    } else {
      var init, event := events[..|events| - 1], events[|events| - 1];
      OneAtATimeOk(init);
      match event
      case Record(now) => RecordKeepsOk(After(init), now);
      case Forgive(now) => ForgiveKeepsOk(After(init), now);
      case _ => OtherEventKeepsOk(After(init), event);
    }
  }

  /** Failures counted, whatever was worked off. */
  function FailuresIn(log: seq<Change>, start: Time, end: Time): (n: nat)
    decreases |log|
  {
    if log == [] then 0
    else
      var last := log[|log| - 1];
      FailuresIn(log[..|log| - 1], start, end) + if last.failed && start <= last.time < end then 1 else 0
  }

  lemma {:induction false} OnlyFailuresNet(log: seq<Change>, start: Time, end: Time)
    requires forall i :: 0 <= i < |log| ==> log[i].failed
    ensures NetIn(log, start, end) == FailuresIn(log, start, end)
    decreases |log|
  {
    if log != [] {
      OnlyFailuresNet(log[..|log| - 1], start, end);
    }
  }

  ghost predicate NeverSucceeds(events: seq<Event>) {
    forall i :: 0 <= i < |events| ==> !events[i].Forgive?
  }

  lemma {:induction false} NothingWorkedOff(events: seq<Event>)
    requires NeverSucceeds(events)
    ensures forall i :: 0 <= i < |After(events).log| ==> After(events).log[i].failed
    decreases |events|
  {
    if events != [] {
      NothingWorkedOff(events[..|events| - 1]);
    }
  }

  /** For a key whose requests run one at a time, no half-open interval as long as the window holds
      more than twice the limit less one counted failures beyond those that successes worked off in
      it: across window resets, sweeps and block expiries. For a key that never succeeds that is
      every failure counted. */
  lemma WindowHoldsUnderTwiceTheLimit(events: seq<Event>, start: Time)
    requires OneAtATime(events)
    ensures NetInWindow(After(events).log, start) <= 2 * MAX_ATTEMPTS - 1
    ensures NeverSucceeds(events) ==> FailuresIn(After(events).log, start, start + WINDOW) <= 2 * MAX_ATTEMPTS - 1
  {
    OneAtATimeOk(events);
    if NeverSucceeds(events) {
      NothingWorkedOff(events);
      OnlyFailuresNet(After(events).log, start, start + WINDOW);
    }
  }

  // ------------------------------------------------------------------
  // ... for every key of the limiter
  // ------------------------------------------------------------------

  /** What one key sees of a run of the limiter: the sweeps that take its entry, and its own calls. */
  function SeenBy(m: Entries, op: Op, key: string): (events: seq<Event>) {
    (if key in SweptKeys(m, op) then [Sweep(op.now)] else []) +
    (if op.key == key then [OwnEvent(op)] else [])
  }

  function SeenAlong(m: Entries, ops: seq<Op>, key: string): (events: seq<Event>)
    decreases |ops|
  {
    if ops == [] then []
    else SeenAlong(m, ops[..|ops| - 1], key) + SeenBy(Run(m, ops[..|ops| - 1]), ops[|ops| - 1], key)
  }

  lemma AfterOne(events: seq<Event>, event: Event)
    ensures After(events + [event]) == Happen(After(events), event)
  {
    assert (events + [event])[..|events|] == events;
  }

  /** A call of the key's own, as it sees it. */
  function OwnEvent(op: Op): (event: Event) {
    match op
    case Check(_, now) => Ask(now)
    case Failure(_, now) => Record(now)
    case Success(_, now) => Forgive(now)
  }

  lemma OwnEventSteps(c: Client, op: Op)
    ensures Happen(c, OwnEvent(op)).entry == Stepped(c.entry, op)
  {
  }

  lemma SweepIsSeen(m: Entries, op: Op, key: string)
    ensures At(BeforeOp(m, op), key) == if key in SweptKeys(m, op) then Swept(At(m, key), op.now) else At(m, key)
  {
  }

  lemma SeenStep(events: seq<Event>, m: Entries, op: Op, key: string)
    requires After(events).entry == At(m, key)
    ensures After(events + SeenBy(m, op, key)).entry == At(Apply(m, op), key)
  {
    var swept := if key in SweptKeys(m, op) then events + [Sweep(op.now)] else events;
    AfterOne(events, Sweep(op.now));
    SweepIsSeen(m, op, key);
    OneKeyView(m, op, key);
    if op.key == key {
      AfterOne(swept, OwnEvent(op));
      OwnEventSteps(After(swept), op);
      assert events + SeenBy(m, op, key) == swept + [OwnEvent(op)];
    } else {
      assert events + SeenBy(m, op, key) == swept;
    }
  }

  lemma {:induction false} SeenEntryIsTheLimiters(ops: seq<Op>, key: string)
    ensures After(SeenAlong(map[], ops, key)).entry == At(Run(map[], ops), key)
    decreases |ops|
  {
    if ops != [] {
      var init := ops[..|ops| - 1];
      SeenEntryIsTheLimiters(init, key);
      SeenStep(SeenAlong(map[], init, key), Run(map[], init), ops[|ops| - 1], key);
    }
  }

  /** So the bound holds of every key in every run of the limiter in which that key's own requests
      run one at a time, whatever the other keys do. */
  lemma EveryKeyIsHeldUnderTwiceTheLimit(ops: seq<Op>, key: string, start: Time)
    requires OneAtATime(SeenAlong(map[], ops, key))
    ensures var c := After(SeenAlong(map[], ops, key));
            c.entry == At(Run(map[], ops), key) && NetInWindow(c.log, start) <= 2 * MAX_ATTEMPTS - 1
  {
    SeenEntryIsTheLimiters(ops, key);
    WindowHoldsUnderTwiceTheLimit(SeenAlong(map[], ops, key), start);
  }

  /** The calls on one key. */
  function CallsOn(ops: seq<Op>, key: string): (calls: seq<Op>)
    decreases |ops|
  {
    if ops == [] then []
    else CallsOn(ops[..|ops| - 1], key) + if ops[|ops| - 1].key == key then [ops[|ops| - 1]] else []
  }

  lemma UnsweptStep(m: Entries, op: Op, key: string)
    requires key !in SweptKeys(m, op)
    ensures At(Apply(m, op), key) == if op.key == key then Stepped(At(m, key), op) else At(m, key)
  {
    assert At(BeforeOp(m, op), key) == At(m, key);
    OneKeyView(m, op, key);
  }

  ghost predicate NeverSwept(m: Entries, ops: seq<Op>, key: string) {
    forall i :: 0 <= i < |ops| ==> key !in SweptKeys(Run(m, ops[..i]), ops[i])
  }

  /** One key's runs are the limiter's: among any calls on other keys and sweeps of other entries, a
      key whose entry no sweep takes holds what its own calls alone leave. */
  lemma {:induction false} OneKeyRunsAlone(m: Entries, ops: seq<Op>, key: string)
    requires NeverSwept(m, ops, key)
    ensures At(Run(m, ops), key) == RunOne(At(m, key), CallsOn(ops, key))
    decreases |ops|
  {
    if ops != [] {
      var init, op := ops[..|ops| - 1], ops[|ops| - 1];
      assert NeverSwept(m, init, key) by {
        assert forall i :: 0 <= i < |init| ==> init[..i] == ops[..i];
      }
      OneKeyRunsAlone(m, init, key);
      assert ops[..|init|] == init;
      UnsweptStep(Run(m, init), op, key);
      if op.key == key {
        RunOneStep(At(m, key), CallsOn(init, key), op);
      } else {
        assert CallsOn(ops, key) == CallsOn(init, key);
      }
    }
  }

  // ------------------------------------------------------------------
  // ... and that many do fit
  // ------------------------------------------------------------------

  /** A client that requests one at a time can come to be. */
  ghost predicate Arises(c: Client) {
    exists events :: OneAtATime(events) && After(events) == c
  }

  lemma OneMoreEvent(c: Client, event: Event)
    requires Arises(c) && MayHappen(c, event)
    ensures Arises(Happen(c, event))
  {
    var events :| OneAtATime(events) && After(events) == c;
    AfterOne(events, event);
    assert (events + [event])[..|events|] == events;
    assert OneAtATime(events + [event]);
  }

  lemma OneMoreRequest(c: Client, now: Time)
    requires Arises(c) && c.latest <= now && Decide(c.entry, now).Allow?
    ensures Arises(Client(Failed(Checked(c.entry, now), now), false, now, c.log + [Change(now, true)]))
  {
    var asked := Happen(c, Ask(now));
    OneMoreEvent(c, Ask(now));
    OneMoreEvent(asked, Record(now));
    assert Happen(asked, Record(now))
        == Client(Failed(Checked(c.entry, now), now), false, now, c.log + [Change(now, true)]);
  }

  function Counted(now: Time, n: nat): (log: seq<Change>) {
    seq(n, _ => Change(now, true))
  }

  /** A client after `count` failures in the window that began at `start`, the last `n` at `now`. */
  function Open(start: Time, now: Time, count: nat, log: seq<Change>, n: nat): (c: Client) {
    Client(Some(Attempts(count, start, None)), false, now, log + Counted(now, n))
  }

  lemma OpenGrows(start: Time, now: Time, count: nat, log: seq<Change>, n: nat)
    requires Arises(Open(start, now, count, log, n))
    requires Elapsed(now, start) < WINDOW && count + 1 < MAX_ATTEMPTS
    ensures Arises(Open(start, now, count + 1, log, n + 1))
  {
    OneMoreRequest(Open(start, now, count, log, n), now);
    assert log + Counted(now, n) + [Change(now, true)] == log + Counted(now, n + 1);
  }

  lemma {:induction false} OpenGrowsTo(start: Time, now: Time, log: seq<Change>, count: nat)
    requires Arises(Open(start, now, 1, log, 1))
    requires Elapsed(now, start) < WINDOW && 1 <= count < MAX_ATTEMPTS
    ensures Arises(Open(start, now, count, log, count))
    decreases count
  {
    if count > 1 {
      OpenGrowsTo(start, now, log, count - 1);
      OpenGrows(start, now, count - 1, log, count - 1);
    }
  }

  /** Blocked by the last of a whole allowance spent at `now` in the window that began then. */
  function SpentAt(now: Time, log: seq<Change>): (c: Client) {
    Client(Some(Attempts(MAX_ATTEMPTS, now, Some(now + BLOCK_DURATION))), false, now, log + Counted(now, MAX_ATTEMPTS))
  }

  lemma FirstInAWindow(c: Client, now: Time)
    requires Arises(c) && c.latest <= now
    requires c.entry.Some? ==> c.entry.value.blockedUntil.None? && Elapsed(now, c.entry.value.windowStarted) >= WINDOW
    ensures Arises(Open(now, now, 1, c.log, 1))
  {
    OneMoreRequest(c, now);
    assert c.log + [Change(now, true)] == c.log + Counted(now, 1);
  }

  lemma AllowanceSpent(c: Client, now: Time, spare: nat)
    requires Arises(c) && c.latest <= now && spare == MAX_ATTEMPTS - 1
    requires c.entry.Some? ==> c.entry.value.blockedUntil.None? && Elapsed(now, c.entry.value.windowStarted) >= WINDOW
    ensures Arises(SpentAt(now, c.log))
  {
    FirstInAWindow(c, now);
    OpenGrowsTo(now, now, c.log, spare);
    LastOfTheAllowance(now, c.log, spare);
  }

  lemma LastOfTheAllowance(now: Time, log: seq<Change>, spare: nat)
    requires spare == MAX_ATTEMPTS - 1 && Arises(Open(now, now, spare, log, spare))
    ensures Arises(SpentAt(now, log))
  {
    OneMoreRequest(Open(now, now, spare, log, spare), now);
    assert log + Counted(now, spare) + [Change(now, true)] == log + Counted(now, spare + 1);
  }

  /** A block ends, a check anchors the next window, and nine failures come at its last instant. */
  lemma NineAtTheLastInstant(last: Time, spare: nat)
    requires last == BLOCK_DURATION + WINDOW - 1 && spare == MAX_ATTEMPTS - 1
    ensures Arises(Open(BLOCK_DURATION, last, spare, Counted(0, MAX_ATTEMPTS), spare))
  {
    assert OneAtATime([]) && After([]) == NEW_CLIENT;
    AllowanceSpent(NEW_CLIENT, 0, spare);
    var first := Counted(0, MAX_ATTEMPTS);
    assert [] + first == first;
    OneMoreEvent(SpentAt(0, []), Ask(BLOCK_DURATION));
    var anchored := Client(Some(Attempts(0, BLOCK_DURATION, None)), true, BLOCK_DURATION, first);
    assert Happen(SpentAt(0, []), Ask(BLOCK_DURATION)) == anchored;
    OneMoreRequest(anchored, last);
    assert first + [Change(last, true)] == first + Counted(last, 1);
    OpenGrowsTo(BLOCK_DURATION, last, first, spare);
  }

  lemma {:induction false} NetOfCounted(log: seq<Change>, start: Time, end: Time, now: Time, n: nat)
    ensures NetIn(log + Counted(now, n), start, end) == NetIn(log, start, end) + if start <= now < end then n else 0
    decreases n
  {
    if n == 0 {
      assert log + Counted(now, 0) == log;
    } else {
      var init := log + Counted(now, n - 1);
      NetOfCounted(log, start, end, now, n - 1);
      assert Counted(now, n) == Counted(now, n - 1) + [Change(now, true)];
      assert log + Counted(now, n) == init + [Change(now, true)];
      NetInStep(init, Change(now, true), start, end);
    }
  }

  function ThreeTimes(a: Time, m: nat, b: Time, n: nat, c: Time, k: nat): (log: seq<Change>) {
    Counted(a, m) + Counted(b, n) + Counted(c, k)
  }

  lemma NetOfThree(a: Time, m: nat, b: Time, n: nat, c: Time, k: nat, start: Time)
    requires a < start <= b < start + WINDOW && start <= c < start + WINDOW
    ensures NetInWindow(ThreeTimes(a, m, b, n, c, k), start) == n + k
  {
    var end := start + WINDOW;
    assert [] + Counted(a, m) == Counted(a, m);
    NetOfCounted([], start, end, a, m);
    NetOfCounted(Counted(a, m), start, end, b, n);
    NetOfCounted(Counted(a, m) + Counted(b, n), start, end, c, k);
  }

  lemma ThreeTimesFailed(a: Time, m: nat, b: Time, n: nat, c: Time, k: nat)
    ensures forall i :: 0 <= i < |ThreeTimes(a, m, b, n, c, k)| ==> ThreeTimes(a, m, b, n, c, k)[i].failed
  {
  }

  lemma BothAllowancesSpent(last: Time, spare: nat)
    requires last == BLOCK_DURATION + WINDOW - 1 && spare == MAX_ATTEMPTS - 1
    ensures Arises(SpentAt(last + 1, Counted(0, MAX_ATTEMPTS) + Counted(last, spare)))
  {
    NineAtTheLastInstant(last, spare);
    AllowanceSpent(Open(BLOCK_DURATION, last, spare, Counted(0, MAX_ATTEMPTS), spare), last + 1, spare);
  }

  lemma BothInOneInterval(spare: nat) returns (events: seq<Event>, start: Time)
    requires spare == MAX_ATTEMPTS - 1
    ensures OneAtATime(events)
    ensures NetInWindow(After(events).log, start) == 2 * MAX_ATTEMPTS - 1
    ensures FailuresIn(After(events).log, start, start + WINDOW) == 2 * MAX_ATTEMPTS - 1
  {
    var last := BLOCK_DURATION + WINDOW - 1;
    start := BLOCK_DURATION + 1;
    BothAllowancesSpent(last, spare);
    var end := SpentAt(last + 1, Counted(0, MAX_ATTEMPTS) + Counted(last, spare));
    assert end.log == ThreeTimes(0, spare + 1, last, spare, last + 1, spare + 1);
    NetOfThree(0, spare + 1, last, spare, last + 1, spare + 1, start);
    ThreeTimesFailed(0, spare + 1, last, spare, last + 1, spare + 1);
    OnlyFailuresNet(end.log, start, start + WINDOW);
    events :| OneAtATime(events) && After(events) == end;
  }

  /** The bound is reached, by failures alone: ten fail together, the block they start ends in a
      check, nine more fail at the last instant of the window it anchors and ten at the next. */
  lemma TwiceTheLimitLessOneIsReached() returns (events: seq<Event>, start: Time)
    ensures OneAtATime(events)
    ensures NetInWindow(After(events).log, start) == 2 * MAX_ATTEMPTS - 1
    ensures FailuresIn(After(events).log, start, start + WINDOW) == 2 * MAX_ATTEMPTS - 1
  {
    events, start := BothInOneInterval(MAX_ATTEMPTS - 1);
  }

  // ------------------------------------------------------------------
  // ... but successes make room for any number
  // ------------------------------------------------------------------

  predicate AtRest(c: Client, now: Time, failures: nat) {
    && c.latest <= now && (c.entry == None || c.entry == Some(Attempts(0, now, None)))
    && FailuresIn(c.log, now, now + WINDOW) == failures
  }

  lemma FailuresInStep(log: seq<Change>, change: Change, start: Time, end: Time)
    ensures FailuresIn(log + [change], start, end)
            == FailuresIn(log, start, end) + if change.failed && start <= change.time < end then 1 else 0
  {
    assert (log + [change])[..|log|] == log;
  }

  /** A wrong password and then the right one. */
  lemma OneMistyped(c: Client, now: Time, n: nat) returns (after: Client)
    requires Arises(c) && AtRest(c, now, n)
    ensures Arises(after) && AtRest(after, now, n + 1)
  {
    var log := c.log + [Change(now, true)];
    var failed := Client(Some(Attempts(1, now, None)), false, now, log);
    OneMoreRequest(c, now);
    assert Arises(failed);
    OneMoreEvent(failed, Ask(now));
    OneMoreEvent(Happen(failed, Ask(now)), Forgive(now));
    after := Client(Some(Attempts(0, now, None)), false, now, log + [Change(now, false)]);
    assert Happen(Happen(failed, Ask(now)), Forgive(now)) == after;
    FailuresInStep(c.log, Change(now, true), now, now + WINDOW);
    FailuresInStep(log, Change(now, false), now, now + WINDOW);
  }

  /** That is why the bound is on failures less those worked off: a key whose requests run one at a
      time and sometimes succeed can have any number of failures counted at one instant. */
  lemma {:induction false} SuccessesMakeRoom(now: Time, n: nat) returns (c: Client)
    ensures Arises(c) && AtRest(c, now, n)
    decreases n
  {
    if n == 0 {
      c := NEW_CLIENT;
      assert OneAtATime([]) && After([]) == NEW_CLIENT;
    } else {
      c := SuccessesMakeRoom(now, n - 1);
      c := OneMistyped(c, now, n - 1);
    }
  }
}
