/**
 The limits of one client key: responses at once, and starts in any sixty seconds.

 Times are nanoseconds of one clock.
 */
module ClientLimit {
  import opened Basics

  const SECOND: nat := 1_000_000_000
  const WINDOW: nat := 60 * SECOND
  const IN_FLIGHT_RETRY_AFTER: nat := 5 * SECOND

  datatype Over = InFlight | PerMinute(retryAfter: nat)

  datatype KeyUse = KeyUse(inFlight: nat, started: seq<nat>)

  datatype Limits = Limits(maxInFlight: nat, maxPerMinute: nat)

  const UNUSED := KeyUse(0, [])

  /** `saturating_duration_since`. */
  function Since(now: nat, at: nat): nat
  {
    if now >= at then now - at else 0
  }

  // ---- what one call does ----

  function Trimmed(started: seq<nat>, now: nat): seq<nat>
  {
    if started != [] && Since(now, started[0]) >= WINDOW then Trimmed(started[1..], now) else started
  }

  function Started(limits: Limits, use: KeyUse, now: nat): (KeyUse, Option<Over>)
  {
    var queue := Trimmed(use.started, now);
    if |queue| >= limits.maxPerMinute then
      var oldest := if queue == [] then now else queue[0];
      (use.(started := queue), Some(PerMinute(if WINDOW >= Since(now, oldest) then WINDOW - Since(now, oldest) else 0)))
    else (use.(started := queue + [now]), None)
  }

  function Admitted(limits: Limits, use: KeyUse, now: nat): (KeyUse, Option<Over>)
  {
    if use.inFlight >= limits.maxInFlight then (use, Some(InFlight))
    else
      var (after, over) := Started(limits, use, now);
      if over.Some? then (after, over) else (after.(inFlight := after.inFlight + 1), None)
  }

  function Released(use: KeyUse): KeyUse
  {
    use.(inFlight := if use.inFlight > 0 then use.inFlight - 1 else 0)
  }

  // ---- the limiter ----

  /** What is kept of a key is what its own calls so far leave. */
  ghost predicate Kept(limits: Limits, keys: map<string, KeyUse>, done: seq<(string, Op)>)
  {
    forall key :: (if key in keys then keys[key] else UNUSED) == Run(limits, OpsOf(key, done)).use
  }

  lemma KeptOn(limits: Limits, keys: map<string, KeyUse>, done: seq<(string, Op)>, key: string, op: Op, use: KeyUse)
    requires Kept(limits, keys, done) && use == Next(limits, Run(limits, OpsOf(key, done)), op).use
    ensures Kept(limits, keys[key := use], done + [(key, op)])
    ensures key !in keys && use == UNUSED ==> Kept(limits, keys, done + [(key, op)])
  {
    hide Run, Next, OpsOf;
    CalledOnce(limits, done, key, op);
  }

  lemma UseIs(limits: Limits, keys: map<string, KeyUse>, done: seq<(string, Op)>, key: string)
    requires Kept(limits, keys, done)
    ensures Run(limits, OpsOf(key, done)).use == if key in keys then keys[key] else UNUSED
  {
    hide Run, OpsOf;
  }

  lemma UseAfter(limits: Limits, t: Trace, op: Op)
    ensures Next(limits, t, op).use ==
      match op
      case Admit(at) => Admitted(limits, t.use, at).0
      case Count(at) => Started(limits, t.use, at).0
      case Drop => Released(t.use)
  {
    hide Trimmed;
  }

  class ClientLimits {
    const limits: Limits
    var keys: map<string, KeyUse>
    ghost var done: seq<(string, Op)>  // every call so far

    ghost predicate Valid()
      reads this
    {
      Kept(limits, keys, done)
    }

    constructor (maxInFlight: nat, maxPerMinute: nat)
      ensures Valid() && limits == Limits(maxInFlight, maxPerMinute) && keys == map[] && done == []
    {
      limits := Limits(maxInFlight, maxPerMinute);
      keys := map[];
      done := [];
    }

    function Use(key: string): KeyUse
      reads this`keys
    {
      if key in keys then keys[key] else UNUSED
    }

    method Start(key: string, now: nat) returns (over: Option<Over>)
      modifies this`keys
      ensures keys == old(keys)[key := Started(limits, old(Use(key)), now).0]
      ensures over == Started(limits, old(Use(key)), now).1
    {
      var entry := Use(key);
      ghost var given := entry.started;
      while entry.started != [] && Since(now, entry.started[0]) >= WINDOW
        invariant Trimmed(entry.started, now) == Trimmed(given, now) && entry.inFlight == old(Use(key)).inFlight
        decreases |entry.started|
      {
        entry := entry.(started := entry.started[1..]);
      }
      if |entry.started| >= limits.maxPerMinute {
        var oldest := if entry.started == [] then now else entry.started[0];
        keys := keys[key := entry];
        return Some(PerMinute(if WINDOW >= Since(now, oldest) then WINDOW - Since(now, oldest) else 0));
      }
      entry := entry.(started := entry.started + [now]);
      keys := keys[key := entry];
      return None;
    }

    /** A request that runs a response. */
    method Admit(key: string, now: nat) returns (over: Option<Over>)
      requires Valid()
      modifies this`keys, this`done
      ensures Valid() && done == old(done) + [(key, Op.Admit(now))]
      ensures keys == old(keys)[key := Admitted(limits, old(Use(key)), now).0]
      ensures over == Admitted(limits, Run(limits, OpsOf(key, old(done))).use, now).1
    {
      hide Run, Started, Next, Kept, OpsOf;
      UseIs(limits, keys, done, key);
      UseAfter(limits, Run(limits, OpsOf(key, done)), Op.Admit(now));
      ghost var use := Admitted(limits, Use(key), now).0;
      KeptOn(limits, keys, done, key, Op.Admit(now), use);
      done := done + [(key, Op.Admit(now))];
      if Use(key).inFlight >= limits.maxInFlight {
        keys := keys[key := Use(key)];
        return Some(InFlight);
      }
      over := Start(key, now);
      if over.None? {
        keys := keys[key := keys[key].(inFlight := keys[key].inFlight + 1)];
      }
      assert keys == old(keys)[key := use];
    }

    /** A request that only opens something. */
    method Count(key: string, now: nat) returns (over: Option<Over>)
      requires Valid()
      modifies this`keys, this`done
      ensures Valid() && done == old(done) + [(key, Op.Count(now))]
      ensures over == Started(limits, Run(limits, OpsOf(key, old(done))).use, now).1
    {
      hide Run, Started, Next, Kept, OpsOf;
      UseIs(limits, keys, done, key);
      UseAfter(limits, Run(limits, OpsOf(key, done)), Op.Count(now));
      KeptOn(limits, keys, done, key, Op.Count(now), Started(limits, Use(key), now).0);
      done := done + [(key, Op.Count(now))];
      over := Start(key, now);
    }

    /** A permit is dropped. */
    method Drop(key: string)
      requires Valid()
      modifies this`keys, this`done
      ensures Valid() && done == old(done) + [(key, Op.Drop)]
      ensures keys == if key in old(keys) then old(keys)[key := Released(old(Use(key)))] else old(keys)
    {
      hide Run, Next, Kept, OpsOf;
      UseIs(limits, keys, done, key);
      UseAfter(limits, Run(limits, OpsOf(key, done)), Op.Drop);
      KeptOn(limits, keys, done, key, Op.Drop, Released(Use(key)));
      done := done + [(key, Op.Drop)];
      if key in keys {
        var entry := keys[key];
        keys := keys[key := entry.(inFlight := if entry.inFlight > 0 then entry.inFlight - 1 else 0)];
      }
    }
  }

  // ---- runs of one key ----

  datatype Op = Admit(at: nat) | Count(at: nat) | Drop

  /** The key's use, the starts it was granted so far, its live permits, and when its queue was last looked at. */
  datatype Trace = Trace(use: KeyUse, log: seq<nat>, live: nat, last: nat)

  function Next(limits: Limits, t: Trace, op: Op): Trace
  {
    match op
    case Admit(at) =>
      var (use, over) := Admitted(limits, t.use, at);
      if over == Some(InFlight) then t
      else if over.Some? then t.(use := use, last := at)
      else Trace(use, t.log + [at], t.live + 1, at)
    case Count(at) =>
      var (use, over) := Started(limits, t.use, at);
      if over.Some? then t.(use := use, last := at) else Trace(use, t.log + [at], t.live, at)
    case Drop => t.(use := Released(t.use), live := if t.live > 0 then t.live - 1 else 0)
  }

  /** The clock does not go back for this key, and a permit is dropped once. */
  predicate Orderly(t: Trace, op: Op)
  {
    if op.Drop? then t.live > 0 else op.at >= t.last
  }

  function Run(limits: Limits, ops: seq<Op>): Trace
  {
    if ops == [] then Trace(UNUSED, [], 0, 0) else Next(limits, Run(limits, ops[..|ops| - 1]), ops[|ops| - 1])
  }

  predicate OrderlyRun(limits: Limits, ops: seq<Op>)
  {
    forall i :: 0 <= i < |ops| ==> Orderly(Run(limits, ops[..i]), ops[i])
  }

  /** The starts of the last sixty seconds. */
  function Recent(log: seq<nat>, now: nat): seq<nat>
  {
    if log == [] then []
    else Recent(log[..|log| - 1], now) + (if log[|log| - 1] + WINDOW > now then [log[|log| - 1]] else [])
  }

  ghost predicate Ascending(s: seq<nat>, end: nat)
  {
    (forall i, j :: 0 <= i < j < |s| ==> s[i] <= s[j]) && forall i :: 0 <= i < |s| ==> s[i] <= end
  }

  lemma {:induction false} TrimmedIsRecent(s: seq<nat>, now: nat)
    requires Ascending(s, now)
    ensures Trimmed(s, now) == Recent(s, now)
  {
    if s != [] {
      if Since(now, s[0]) >= WINDOW {
        TrimmedIsRecent(s[1..], now);
        RecentWithoutOld(s, now);
      } else {
        AllRecent(s, now);
      }
    }
  }

  lemma {:induction false} RecentWithoutOld(s: seq<nat>, now: nat)
    requires s != [] && s[0] + WINDOW <= now
    ensures Recent(s, now) == Recent(s[1..], now)
  {
    if |s| > 1 {
      RecentWithoutOld(s[..|s| - 1], now);
      assert s[..|s| - 1][1..] == s[1..][..|s| - 2];
    } else {
      assert s[..0] == [] && s[1..] == [];
    }
  }

  lemma {:induction false} AllRecent(s: seq<nat>, now: nat)
    requires forall i :: 0 <= i < |s| ==> s[i] + WINDOW > now
    ensures Recent(s, now) == s
  {
    if s != [] {
      AllRecent(s[..|s| - 1], now);
      assert s == s[..|s| - 1] + [s[|s| - 1]];
    }
  }

  /** What is recent later was recent earlier. */
  lemma {:induction false} RecentOfRecent(log: seq<nat>, earlier: nat, later: nat)
    requires earlier <= later
    ensures Recent(Recent(log, earlier), later) == Recent(log, later)
  {
    if log != [] {
      var init, last := log[..|log| - 1], log[|log| - 1];
      RecentOfRecent(init, earlier, later);
      var r := Recent(init, earlier);
      if last + WINDOW > earlier {
        assert Recent(log, earlier) == r + [last];
        assert (r + [last])[..|r|] == r;
      } else {
        assert Recent(log, earlier) == r;
      }
    }
  }

  lemma {:induction false} RecentAscends(log: seq<nat>, now: nat)
    ensures forall x :: x in Recent(log, now) ==> x in log
    ensures Ascending(log, now) ==> Ascending(Recent(log, now), now)
  {
    if log != [] {
      var init, last := log[..|log| - 1], log[|log| - 1];
      RecentAscends(init, now);
      if Ascending(log, now) {
        assert Ascending(init, now);
        var r := Recent(init, now);
        forall i | 0 <= i < |r| ensures r[i] <= last {
          assert r[i] in init;
        }
      }
    }
  }

  // ---- what holds in every run ----

  ghost predicate Inv(limits: Limits, t: Trace)
  {
    && Ascending(t.log, t.last)
    && t.use.started == Recent(t.use.started, t.last) && Recent(t.log, t.last) == t.use.started
    && |t.use.started| <= limits.maxPerMinute
    && t.use.inFlight == t.live <= limits.maxInFlight
    && forall j :: 0 <= j < |t.log| ==> |Recent(t.log[..j + 1], t.log[j])| <= limits.maxPerMinute
  }

  /** A call looks at the queue: what is left is the starts of the last sixty seconds. */
  lemma QueueAt(limits: Limits, t: Trace, now: nat)
    requires Inv(limits, t) && now >= t.last
    ensures Trimmed(t.use.started, now) == Recent(t.log, now) && |Trimmed(t.use.started, now)| <= |t.use.started|
  {
    RecentOfRecent(t.log, t.last, now);
    RecentAscends(t.log, t.last);
    assert Ascending(t.use.started, now);
    TrimmedIsRecent(t.use.started, now);
    TrimmedShorter(t.use.started, now);
  }

  lemma {:induction false} TrimmedShorter(s: seq<nat>, now: nat)
    ensures |Trimmed(s, now)| <= |s|
  {
    if s != [] {
      TrimmedShorter(s[1..], now);
    }
  }

  lemma StartKeeps(limits: Limits, t: Trace, now: nat)
    requires Inv(limits, t) && now >= t.last
    ensures var (use, over) := Started(limits, t.use, now);
      Inv(limits, if over.Some? then t.(use := use, last := now) else Trace(use, t.log + [now], t.live, now))
  {
    hide Recent, Trimmed;
    var queue := Trimmed(t.use.started, now);
    QueueAt(limits, t, now);
    RecentOfRecent(t.log, now, now);
    if |queue| < limits.maxPerMinute {
      var log := t.log + [now];
      RecentGrows(t.log, now);
      RecentGrows(queue, now);
      forall j | 0 <= j < |log| ensures |Recent(log[..j + 1], log[j])| <= limits.maxPerMinute {
        if j < |t.log| {
          assert log[..j + 1] == t.log[..j + 1];
        } else {
          assert log[..j + 1] == log;
        }
      }
    }
  }

  lemma RecentGrows(log: seq<nat>, now: nat)
    ensures Recent(log + [now], now) == Recent(log, now) + [now]
  {
    assert (log + [now])[..|log|] == log;
  }

  lemma NothingRecent(limits: Limits)
    ensures Inv(limits, Trace(UNUSED, [], 0, 0))
  {
  }

  lemma StartedInFlight(limits: Limits, use: KeyUse, now: nat)
    ensures Started(limits, use, now).0.inFlight == use.inFlight && Started(limits, use, now).1 != Some(InFlight)
  {
  }

  lemma StepKeeps(limits: Limits, t: Trace, op: Op)
    requires Inv(limits, t) && Orderly(t, op)
    ensures Inv(limits, Next(limits, t, op))
  {
    hide Recent, Trimmed, Started, Ascending;
    if !op.Drop? {
      StartKeeps(limits, t, op.at);
      StartedInFlight(limits, t.use, op.at);
    }
  }

  lemma {:induction false} RunKeeps(limits: Limits, ops: seq<Op>)
    requires OrderlyRun(limits, ops)
    ensures Inv(limits, Run(limits, ops))
  {
    hide Inv, Orderly, Next;
    if ops == [] {
      NothingRecent(limits);
    } else {
      var init, op := ops[..|ops| - 1], ops[|ops| - 1];
      assert forall i :: 0 <= i < |init| ==> init[..i] == ops[..i] && init[i] == ops[i];
      RunKeeps(limits, init);
      assert ops[..|ops| - 1] == init;
      StepKeeps(limits, Run(limits, init), op);
    }
  }

  /** How many starts of a log fall into (end - 60 s, end]. */
  function InWindow(log: seq<nat>, end: nat): nat
  {
    if log == [] then 0
    else
      InWindow(log[..|log| - 1], end) + (if log[|log| - 1] <= end < log[|log| - 1] + WINDOW then 1 else 0)
  }

  lemma {:induction false} InWindowBound(log: seq<nat>, end: nat, top: nat)
    requires forall i :: 0 <= i < |log| ==> log[i] <= top
    requires top <= end
    ensures InWindow(log, end) <= |Recent(log, top)|
  {
    if log != [] {
      InWindowBound(log[..|log| - 1], end, top);
    }
  }

  /** In a log that ascends, the starts after the end of a window add nothing to it. */
  lemma {:induction false} LaterStarts(log: seq<nat>, end: nat, k: nat)
    requires k <= |log| && forall i :: k <= i < |log| ==> log[i] > end
    ensures InWindow(log, end) == InWindow(log[..k], end)
    decreases |log|
  {
    if k < |log| {
      LaterStarts(log[..|log| - 1], end, k);
      assert log[..|log| - 1][..k] == log[..k];
    } else {
      assert log[..k] == log;
    }
  }

  /** However the calls fall, no sixty seconds hold more starts of one key than the limit. */
  lemma WindowHoldsAtMost(limits: Limits, ops: seq<Op>, end: nat)
    requires OrderlyRun(limits, ops)
    ensures InWindow(Run(limits, ops).log, end) <= limits.maxPerMinute
  {
    hide Run, OrderlyRun, Recent, InWindow;
    RunKeeps(limits, ops);
    var log := Run(limits, ops).log;
    var k: nat := |log|;
    while k > 0 && log[k - 1] > end
      invariant k <= |log| && forall i :: k <= i < |log| ==> log[i] > end
    {
      k := k - 1;
    }
    LaterStarts(log, end, k);
    if k == 0 {
      NoStarts(end);
      assert log[..0] == [];
    } else {
      var j := k - 1;
      assert log[..j + 1] == log[..k];
      InWindowBound(log[..k], end, log[j]);
    }
  }

  lemma NoStarts(end: nat)
    ensures InWindow([], end) == 0
  {
  }

  /** The running responses of a key are its live permits, and never more than the limit. */
  lemma InFlightIsLivePermits(limits: Limits, ops: seq<Op>)
    requires OrderlyRun(limits, ops)
    ensures Run(limits, ops).use.inFlight == Run(limits, ops).live <= limits.maxInFlight
  {
    hide Run, Recent;
    RunKeeps(limits, ops);
  }

  /** A refusal names the least delay after which the same call is granted, if nothing is granted meanwhile. */
  lemma RetryAfterIsLeast(limits: Limits, ops: seq<Op>, now: nat, delay: nat)
    requires OrderlyRun(limits, ops) && limits.maxPerMinute >= 1 && now >= Run(limits, ops).last
    requires Started(limits, Run(limits, ops).use, now).1.Some?
    ensures var (after, over) := Started(limits, Run(limits, ops).use, now);
      over.value.PerMinute? && (Started(limits, after, now + delay).1.None? <==> delay >= over.value.retryAfter)
  {
    hide Run, Recent;
    RunKeeps(limits, ops);
    var use := Run(limits, ops).use;
    QueueAt(limits, Run(limits, ops), now);
    var queue := Trimmed(use.started, now);
    TrimmedShorter(use.started, now);
    TrimmedTwice(use.started, now);
    RecentAscends(Run(limits, ops).log, now);
    assert queue != [] && queue[0] <= now;
    assert Since(now + delay, queue[0]) == Since(now, queue[0]) + delay;
    TrimmedShorter(queue[1..], now + delay);
  }

  lemma {:induction false} TrimmedTwice(s: seq<nat>, now: nat)
    ensures var r := Trimmed(s, now); r != [] ==> Since(now, r[0]) < WINDOW
  {
    if s != [] {
      TrimmedTwice(s[1..], now);
    }
  }

  /** `retry_after_seconds`: whole seconds, at least one. */
  function RetrySeconds(over: Over): (s: nat)
    ensures s >= 1
  {
    var d := if over.InFlight? then IN_FLIGHT_RETRY_AFTER else over.retryAfter;
    var up := (d + SECOND - 1) / SECOND;
    if up >= 1 then up else 1
  }

  /** Waiting the whole seconds is enough, and a second less is not, unless one second is the least said. */
  lemma RetrySecondsSuffice(limits: Limits, ops: seq<Op>, now: nat)
    requires OrderlyRun(limits, ops) && limits.maxPerMinute >= 1 && now >= Run(limits, ops).last
    requires Started(limits, Run(limits, ops).use, now).1.Some?
    ensures var (after, over) := Started(limits, Run(limits, ops).use, now);
      && Started(limits, after, now + RetrySeconds(over.value) * SECOND).1.None?
      && (RetrySeconds(over.value) > 1 ==> Started(limits, after, now + (RetrySeconds(over.value) - 1) * SECOND).1.Some?)
  {
    hide Run, Recent, Trimmed;
    var (after, over) := Started(limits, Run(limits, ops).use, now);
    RetryAfterIsLeast(limits, ops, now, RetrySeconds(over.value) * SECOND);
    if RetrySeconds(over.value) > 1 {
      RetryAfterIsLeast(limits, ops, now, (RetrySeconds(over.value) - 1) * SECOND);
    }
  }

  // ---- many keys ----

  function NextFor(limits: Limits, all: map<string, Trace>, key: string, op: Op): map<string, Trace>
  {
    all[key := Next(limits, if key in all then all[key] else Trace(UNUSED, [], 0, 0), op)]
  }

  function RunAll(limits: Limits, ops: seq<(string, Op)>): map<string, Trace>
  {
    if ops == [] then map[]
    else NextFor(limits, RunAll(limits, ops[..|ops| - 1]), ops[|ops| - 1].0, ops[|ops| - 1].1)
  }

  function OpsOf(key: string, ops: seq<(string, Op)>): seq<Op>
  {
    if ops == [] then []
    else OpsOf(key, ops[..|ops| - 1]) + (if ops[|ops| - 1].0 == key then [ops[|ops| - 1].1] else [])
  }

  /** What happens to a key depends on its own calls alone. */
  lemma {:induction false} KeysAreIndependent(limits: Limits, ops: seq<(string, Op)>, key: string)
    ensures key in RunAll(limits, ops) <==> OpsOf(key, ops) != []
    ensures key in RunAll(limits, ops) ==> RunAll(limits, ops)[key] == Run(limits, OpsOf(key, ops))
    ensures OpsOf(key, ops) == [] ==> Run(limits, OpsOf(key, ops)) == Trace(UNUSED, [], 0, 0)
  {
    hide Next;
    if ops != [] {
      var init, last := ops[..|ops| - 1], ops[|ops| - 1];
      KeysAreIndependent(limits, init, key);
      if last.0 == key {
        var mine := OpsOf(key, init) + [last.1];
        assert OpsOf(key, ops) == mine;
        assert mine[..|mine| - 1] == OpsOf(key, init) && mine[|mine| - 1] == last.1;
        assert Run(limits, mine) == Next(limits, Run(limits, OpsOf(key, init)), last.1);
      } else {
        assert OpsOf(key, ops) == OpsOf(key, init);
      }
    }
  }

  /** One call more changes the key's own trace alone. */
  lemma CalledOnce(limits: Limits, ops: seq<(string, Op)>, key: string, op: Op)
    ensures forall k :: k != key ==> OpsOf(k, ops + [(key, op)]) == OpsOf(k, ops)
    ensures Run(limits, OpsOf(key, ops + [(key, op)])) == Next(limits, Run(limits, OpsOf(key, ops)), op)
  {
    hide Next;
    var all := ops + [(key, op)];
    assert all[..|all| - 1] == ops;
    var mine := OpsOf(key, ops) + [op];
    assert mine[..|mine| - 1] == OpsOf(key, ops);
  }

  // ---- what a call is answered ----

  /**
   In any orderly run: a response is refused for those running exactly when as many permits are live as
   may be; else it is refused for its minute, as any other start is, exactly when the last sixty seconds
   hold as many starts as they may. Otherwise it is granted, and counts from then on.
   */
  lemma AnsweredExactly(limits: Limits, ops: seq<Op>, now: nat)
    requires OrderlyRun(limits, ops) && now >= Run(limits, ops).last
    ensures var t := Run(limits, ops);
      var full, busy := t.live == limits.maxInFlight, InWindow(t.log, now) == limits.maxPerMinute;
      var answer := Admitted(limits, t.use, now).1;
      && (answer == Some(InFlight) <==> full) && (answer.None? <==> !full && !busy)
      && (Started(limits, t.use, now).1.None? <==> !busy)
      && Next(limits, t, Op.Admit(now)).log == (if full || busy then t.log else t.log + [now])
      && Next(limits, t, Op.Admit(now)).live == (if full || busy then t.live else t.live + 1)
      && Next(limits, t, Op.Count(now)).log == (if busy then t.log else t.log + [now])
  {
    hide Run, Recent, OrderlyRun, Trimmed, InWindow;
    RunKeeps(limits, ops);
    var t := Run(limits, ops);
    QueueAt(limits, t, now);
    InWindowIs(t.log, now);
    StartedInFlight(limits, t.use, now);
  }

  lemma {:induction false} InWindowIs(log: seq<nat>, now: nat)
    requires forall i :: 0 <= i < |log| ==> log[i] <= now
    ensures InWindow(log, now) == |Recent(log, now)|
  {
    if log != [] {
      InWindowIs(log[..|log| - 1], now);
    }
  }

  // ---- a clock that goes back ----

  /** However the calls' times fall, in order or not. */
  ghost predicate AlwaysWithin(limits: Limits)
  {
    forall ops, end :: InWindow(Run(limits, ops).log, end) <= limits.maxPerMinute
  }

  /**
   Without the order, the bound holds in every run exactly for a limit of at most one start. For any
   other, one call counted late breaks it, by however little it is late (`LateCallExceedsWindow`).
   */
  lemma OrderMattersExactly(limits: Limits)
    ensures AlwaysWithin(limits) <==> limits.maxPerMinute <= 1
  {
    hide Run, InWindow, LateRun;
    if limits.maxPerMinute <= 1 {
      forall ops, end ensures InWindow(Run(limits, ops).log, end) <= limits.maxPerMinute {
        FewStarts(limits, ops);
        SpacedInWindow(Run(limits, ops).log, end);
        NoStarts(end);
      }
    } else {
      LateCallExceedsWindow(limits, 1);
      assert InWindow(Run(limits, LateRun(limits.maxPerMinute, 1)).log, WINDOW - 1) > limits.maxPerMinute;
    }
  }

  function Repeated(n: nat): seq<Op>
  {
    if n == 0 then [] else Repeated(n - 1) + [Count(0)]
  }

  /** As many starts as a minute allows, one a minute later, and one whose time lies `late` before that. */
  function LateRun(n: nat, late: nat): seq<Op>
    requires late <= WINDOW
  {
    Repeated(n) + [Count(WINDOW)] + [Count(WINDOW - late)]
  }

  /**
   A call whose time was read before another's but counted after it, by any time up to a minute, can
   make one start more than the limit in sixty seconds, for every limit of two or more. It is the only
   call of the run that comes out of order.
   */
  lemma LateCallExceedsWindow(limits: Limits, late: nat)
    requires limits.maxPerMinute >= 2 && 1 <= late <= WINDOW
    ensures InWindow(Run(limits, LateRun(limits.maxPerMinute, late)).log, WINDOW - late) == limits.maxPerMinute + 1
    ensures var ops := LateRun(limits.maxPerMinute, late); OrderlyRun(limits, ops[..|ops| - 1]) && !OrderlyRun(limits, ops)
  {
    hide Run, InWindow, Next, OrderlyRun;
    var n := limits.maxPerMinute;
    var zeros, inOrder := Repeated(n), Repeated(n) + [Count(WINDOW)];
    ZerosGranted(limits, n);
    RunGrows(limits, zeros, Count(WINDOW));
    RunGrows(limits, inOrder, Count(WINDOW - late));
    ThenLate(limits, Run(limits, zeros), late);
    var log := Run(limits, zeros).log;
    WindowGrows(log, WINDOW, WINDOW - late);
    WindowGrows(log + [WINDOW], WINDOW - late, WINDOW - late);
    ZerosInWindow(log, WINDOW - late);
    OrderlyGrows(limits, zeros, Count(WINDOW));
    OrderlyGrows(limits, inOrder, Count(WINDOW - late));
    assert LateRun(n, late)[..|LateRun(n, late)| - 1] == inOrder;
  }

  lemma OrderlyGrows(limits: Limits, ops: seq<Op>, op: Op)
    requires OrderlyRun(limits, ops)
    ensures OrderlyRun(limits, ops + [op]) <==> Orderly(Run(limits, ops), op)
  {
    hide Run, Orderly;
    var all := ops + [op];
    assert all[..|ops|] == ops && all[|ops|] == op;
    forall i | 0 <= i < |ops| ensures all[..i] == ops[..i] && all[i] == ops[i] {
    }
  }

  ghost predicate AllAtZero(s: seq<nat>)
  {
    forall i :: 0 <= i < |s| ==> s[i] == 0
  }

  lemma {:induction false} ZerosGranted(limits: Limits, n: nat)
    requires n <= limits.maxPerMinute
    ensures OrderlyRun(limits, Repeated(n))
    ensures var t := Run(limits, Repeated(n));
      t.log == t.use.started && |t.log| == n && AllAtZero(t.log) && t.last == 0
  {
    hide OrderlyRun, Run, Next;
    if n == 0 {
      NothingYet(limits);
    } else {
      ZerosGranted(limits, n - 1);
      RunGrows(limits, Repeated(n - 1), Count(0));
      OrderlyGrows(limits, Repeated(n - 1), Count(0));
      ZeroGranted(limits, Run(limits, Repeated(n - 1)));
    }
  }

  lemma ZeroGranted(limits: Limits, t: Trace)
    requires t.log == t.use.started && |t.log| < limits.maxPerMinute && AllAtZero(t.log) && t.last == 0
    ensures var u := Next(limits, t, Count(0));
      u.log == u.use.started && |u.log| == |t.log| + 1 && AllAtZero(u.log) && u.last == 0
  {
    hide Trimmed;
    NoneOld(t.use.started, 0);
  }

  lemma NothingYet(limits: Limits)
    ensures OrderlyRun(limits, []) && Run(limits, []) == Trace(UNUSED, [], 0, 0)
  {
  }

  lemma NoneOld(s: seq<nat>, now: nat)
    requires s == [] || Since(now, s[0]) < WINDOW
    ensures Trimmed(s, now) == s
  {
  }

  lemma {:induction false} AllOld(s: seq<nat>, now: nat)
    requires AllAtZero(s) && now >= WINDOW
    ensures Trimmed(s, now) == []
  {
    if s != [] {
      AllOld(s[1..], now);
    }
  }

  lemma ThenLate(limits: Limits, t: Trace, late: nat)
    requires limits.maxPerMinute >= 2 && 1 <= late <= WINDOW && AllAtZero(t.use.started) && t.last == 0
    ensures var u := Next(limits, t, Count(WINDOW));
      && u.log == t.log + [WINDOW] && Orderly(t, Count(WINDOW))
      && Next(limits, u, Count(WINDOW - late)).log == t.log + [WINDOW] + [WINDOW - late] && !Orderly(u, Count(WINDOW - late))
  {
    AllOld(t.use.started, WINDOW);
    NoneOld([WINDOW], WINDOW - late);
  }

  lemma {:induction false} ZerosInWindow(s: seq<nat>, end: nat)
    requires AllAtZero(s) && end < WINDOW
    ensures InWindow(s, end) == |s|
  {
    if s != [] {
      ZerosInWindow(s[..|s| - 1], end);
    }
  }

  /** Starts a minute or more apart. */
  ghost predicate Spaced(log: seq<nat>)
  {
    forall i, j :: 0 <= i < j < |log| ==> log[i] + WINDOW <= log[j]
  }

  /** With one start a minute, the queue holds the last start until a minute has passed; with none, nothing. */
  lemma {:induction false} FewStarts(limits: Limits, ops: seq<Op>)
    requires limits.maxPerMinute <= 1
    ensures var t := Run(limits, ops);
      && Spaced(t.log) && (limits.maxPerMinute == 0 ==> t.log == [])
      && t.use.started == if t.log == [] then [] else [t.log[|t.log| - 1]]
  {
    hide Next;
    if ops != [] {
      var init, op := ops[..|ops| - 1], ops[|ops| - 1];
      FewStarts(limits, init);
      FewStartsStep(limits, Run(limits, init), op);
    }
  }

  lemma FewStartsStep(limits: Limits, t: Trace, op: Op)
    requires limits.maxPerMinute <= 1
    requires Spaced(t.log) && (limits.maxPerMinute == 0 ==> t.log == [])
    requires t.use.started == if t.log == [] then [] else [t.log[|t.log| - 1]]
    ensures var u := Next(limits, t, op);
      && Spaced(u.log) && (limits.maxPerMinute == 0 ==> u.log == [])
      && u.use.started == if u.log == [] then [] else [u.log[|u.log| - 1]]
  {
    hide Spaced;
    if !op.Drop? {
      TrimmedOne(t.use.started, op.at);
      if t.log == [] || Since(op.at, t.log[|t.log| - 1]) >= WINDOW {
        SpacedGrows(t.log, op.at);
      }
    }
  }

  lemma TrimmedOne(s: seq<nat>, now: nat)
    requires |s| <= 1
    ensures Trimmed(s, now) == if s != [] && Since(now, s[0]) < WINDOW then s else []
  {
    assert Trimmed([], now) == [];
    if |s| == 1 {
      assert s[1..] == [];
    }
  }

  lemma SpacedGrows(log: seq<nat>, now: nat)
    requires Spaced(log) && (log != [] ==> Since(now, log[|log| - 1]) >= WINDOW)
    ensures Spaced(log + [now])
  {
    var n := |log|;
    forall i, j | 0 <= i < j < n + 1 ensures (log + [now])[i] + WINDOW <= (log + [now])[j] {
      if j == n && i < n - 1 {
        assert log[i] + WINDOW <= log[n - 1];
      }
    }
  }

  lemma {:induction false} SpacedInWindow(log: seq<nat>, end: nat)
    requires Spaced(log)
    ensures InWindow(log, end) <= 1
  {
    if log != [] {
      var init, last := log[..|log| - 1], log[|log| - 1];
      SpacedInWindow(init, end);
      if last <= end {
        GoneBefore(init, end);
      }
    }
  }

  lemma {:induction false} GoneBefore(log: seq<nat>, end: nat)
    requires forall i :: 0 <= i < |log| ==> log[i] + WINDOW <= end
    ensures InWindow(log, end) == 0
  {
    if log != [] {
      GoneBefore(log[..|log| - 1], end);
    }
  }

  lemma RunGrows(limits: Limits, ops: seq<Op>, op: Op)
    ensures Run(limits, ops + [op]) == Next(limits, Run(limits, ops), op)
  {
    assert (ops + [op])[..|ops|] == ops;
  }

  lemma WindowGrows(log: seq<nat>, at: nat, end: nat)
    ensures InWindow(log + [at], end) == InWindow(log, end) + (if at <= end < at + WINDOW then 1 else 0)
  {
    assert (log + [at])[..|log|] == log;
  }
}
