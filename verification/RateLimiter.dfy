/** The in-memory limiter in front of the authentication endpoints.

    Times are nanoseconds on one monotonic clock. Each call takes the limiter's lock, so it is
    one atomic step here; a call may read the clock before it waits for the lock, which is why
    the invariant below is stated for a clock that may run back by a bounded `jitter`. */
module RateLimiter {
  import opened Wrappers

  type Time = nat

  const SECOND: nat := 1_000_000_000
  const MAX_ATTEMPTS: nat := 10
  const WINDOW: nat := 60 * SECOND
  const BLOCK_DURATION: nat := 15 * 60 * SECOND
  const SWEEP_ABOVE: nat := 10_000

  datatype Attempts = Attempts(count: nat, windowStarted: Time, blockedUntil: Option<Time>)

  datatype Decision = Allow | Block(retryAfterSeconds: nat)

  datatype Op =
    | Check(key: string, now: Time)
    | Failure(key: string, now: Time)
    | Success(key: string, now: Time)

  type Entry = Option<Attempts>

  // ------------------------------------------------------------------
  // One entry
  // ------------------------------------------------------------------

  /** `Instant::duration_since`, which saturates at zero. */
  function Elapsed(now: Time, since: Time): (n: nat) {
    if now < since then 0 else now - since
  }

  predicate IsBlocked(a: Attempts, now: Time) {
    a.blockedUntil.Some? && now < a.blockedUntil.value
  }

  predicate IsStale(a: Attempts, now: Time) {
    && (a.blockedUntil.None? || a.blockedUntil.value <= now)
    && Elapsed(now, a.windowStarted) >= WINDOW
  }

  /** Whole seconds left of a block, and never zero. */
  function RetryAfter(until: Time, now: Time): (n: nat)
    requires now < until
  {
    var whole := (until - now) / SECOND;
    if whole < 1 then 1 else whole
  }

  function Decide(e: Entry, now: Time): (decision: Decision) {
    if e.Some? && IsBlocked(e.value, now)
    then Block(RetryAfter(e.value.blockedUntil.value, now))
    else Allow
  }

  function Checked(e: Entry, now: Time): (after: Entry) {
    if e.Some? && e.value.blockedUntil.Some? && !IsBlocked(e.value, now)
    then Some(Attempts(0, now, None))
    else e
  }

  function Failed(e: Entry, now: Time): (after: Entry) {
    var a := if e.Some? then e.value else Attempts(0, now, None);
    if IsBlocked(a, now) then Some(a)
    else
      var w := if Elapsed(now, a.windowStarted) >= WINDOW
               then a.(count := 0, windowStarted := now) else a;
      var counted := w.(count := w.count + 1);
      Some(if counted.count >= MAX_ATTEMPTS
           then counted.(blockedUntil := Some(now + BLOCK_DURATION))
           else counted)
  }

  function Succeeded(e: Entry, now: Time): (after: Entry) {
    if e.None? || IsBlocked(e.value, now) || e.value.count == 0 then e
    else Some(e.value.(count := e.value.count - 1))
  }

  function Swept(e: Entry, now: Time): (after: Entry) {
    if e.Some? && IsStale(e.value, now) then None else e
  }

  function Stepped(e: Entry, op: Op): (after: Entry) {
    match op
    case Check(_, now) => Checked(e, now)
    case Failure(_, now) => Failed(e, now)
    case Success(_, now) => Succeeded(e, now)
  }

  // ------------------------------------------------------------------
  // The whole map
  // ------------------------------------------------------------------

  type Entries = map<string, Attempts>

  function At(m: Entries, key: string): (after: Entry) {
    if key in m then Some(m[key]) else None
  }

  function Put(m: Entries, key: string, e: Entry): (after: Entries) {
    if e.Some? then m[key := e.value] else m
  }

  function Retained(m: Entries, now: Time): (after: Entries) {
    map k | k in m && !IsStale(m[k], now) :: m[k]
  }

  /** The sweep runs only on the path that inserts, and only over a large map. */
  function BeforeOp(m: Entries, op: Op): (after: Entries) {
    if op.Failure? && |m| > SWEEP_ABOVE then Retained(m, op.now) else m
  }

  function Apply(m: Entries, op: Op): (after: Entries) {
    var kept := BeforeOp(m, op);
    Put(kept, op.key, Stepped(At(kept, op.key), op))
  }

  function Run(m: Entries, ops: seq<Op>): (after: Entries)
    decreases |ops|
  {
    if ops == [] then m else Apply(Run(m, ops[..|ops| - 1]), ops[|ops| - 1])
  }

  /** What the check at position `i` of a run answers. */
  function AnswerAt(m: Entries, ops: seq<Op>, i: nat): (decision: Decision)
    requires i < |ops|
  {
    Decide(At(Run(m, ops[..i]), ops[i].key), ops[i].now)
  }

  /** The limiter as the middleware holds it. Rust owns each entry inside the map, so an entry
      is a value here and an update in place is a reassignment of the map. */
  class RateLimiter {
    var entries: Entries

    constructor ()
      ensures entries == map[]
    {
      entries := map[];
    }

    method CheckAt(key: string, now: Time) returns (decision: Decision)
      modifies this
      ensures entries == Apply(old(entries), Check(key, now))
      ensures decision == Decide(At(old(entries), key), now)
    {
      if key !in entries {
        return Allow;
      }
      var attempts := entries[key];
      if attempts.blockedUntil.Some? {
        var until := attempts.blockedUntil.value;
        if now < until {
          return Block(if (until - now) / SECOND < 1 then 1 else (until - now) / SECOND);
        }
        entries := entries[key := attempts.(blockedUntil := None, count := 0, windowStarted := now)];
      }
      return Allow;
    }

    method RecordFailureAt(key: string, now: Time)
      modifies this
      ensures entries == Apply(old(entries), Failure(key, now))
    {
      if |entries| > SWEEP_ABOVE {
        entries := map k | k in entries && !IsStale(entries[k], now) :: entries[k];
      }
      if key !in entries {
        entries := entries[key := Attempts(0, now, None)];
      }
      var attempts := entries[key];
      if IsBlocked(attempts, now) {
        return;
      }
      if Elapsed(now, attempts.windowStarted) >= WINDOW {
        attempts := attempts.(count := 0, windowStarted := now);
      }
      attempts := attempts.(count := attempts.count + 1);
      if attempts.count >= MAX_ATTEMPTS {
        attempts := attempts.(blockedUntil := Some(now + BLOCK_DURATION));
      }
      entries := entries[key := attempts];
    }

    method RecordSuccessAt(key: string, now: Time)
      modifies this
      ensures entries == Apply(old(entries), Success(key, now))
    {
      if key !in entries {
        return;
      }
      var attempts := entries[key];
      if IsBlocked(attempts, now) {
        return;
      }
      entries := entries[key := attempts.(count := if attempts.count == 0 then 0 else attempts.count - 1)];
    }

    /** The middleware's half after the handler ran: only a 4xx counts, only a 2xx decays. */
    method RecordOutcome(key: string, status: nat, now: Time)
      modifies this
      ensures 400 <= status < 500 ==> entries == Apply(old(entries), Failure(key, now))
      ensures 200 <= status < 300 ==> entries == Apply(old(entries), Success(key, now))
      ensures !(400 <= status < 500) && !(200 <= status < 300) ==> entries == old(entries)
    {
      if 400 <= status < 500 {
        RecordFailureAt(key, now);
      } else if 200 <= status < 300 {
        RecordSuccessAt(key, now);
      }
    }
  }

  /** One key's view of any call: its entry may be swept, and is then stepped only if the call
      names it. Every per-key result below therefore covers calls on all the other keys. */
  lemma OneKeyView(m: Entries, op: Op, key: string)
    ensures var e := At(BeforeOp(m, op), key);
            && (e == At(m, key) || e == Swept(At(m, key), op.now))
            && At(Apply(m, op), key) == (if op.key == key then Stepped(e, op) else e)
  {
  }

  lemma RunStep(m: Entries, ops: seq<Op>, i: nat)
    requires i < |ops|
    ensures Run(m, ops[..i + 1]) == Apply(Run(m, ops[..i]), ops[i])
  {
    assert ops[..i + 1][..i] == ops[..i];
  }
}
