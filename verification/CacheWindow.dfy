/**
 The dashboard's prompt-cache window: lifetime counters less a baseline, for the pool and for each
 account, with resets of either.
 */
module CacheWindow {
  import opened Basics

  // ---- sums ----

  ghost function Sum<T(!new)>(s: set<T>, g: T -> nat): nat
    decreases |s|
  {
    if s == {} then 0
    else
      var x :| x in s;
      g(x) + Sum(s - {x}, g)
  }

  lemma {:induction false} SumRemove<T(!new)>(s: set<T>, x: T, g: T -> nat)
    requires x in s
    ensures Sum(s, g) == g(x) + Sum(s - {x}, g)
    decreases |s|
  {
    var y :| y in s && Sum(s, g) == g(y) + Sum(s - {y}, g);
    if x != y {
      SumRemove(s - {y}, x, g);
      SumRemove(s - {x}, y, g);
      assert s - {x} - {y} == s - {y} - {x};
    }
  }

  lemma {:induction false} SumSame<T(!new)>(s: set<T>, g: T -> nat, h: T -> nat)
    requires forall x :: x in s ==> g(x) == h(x)
    ensures Sum(s, g) == Sum(s, h)
    decreases |s|
  {
    if s != {} {
      var x :| x in s;
      SumRemove(s, x, g);
      SumRemove(s, x, h);
      SumSame(s - {x}, g, h);
    }
  }

  lemma {:induction false} SumZero<T(!new)>(s: set<T>, g: T -> nat)
    requires forall x :: x in s ==> g(x) == 0
    ensures Sum(s, g) == 0
    decreases |s|
  {
    if s != {} {
      var x :| x in s;
      SumRemove(s, x, g);
      SumZero(s - {x}, g);
    }
  }

  lemma {:induction false} SumTwo<T(!new)>(s: set<T>, g: T -> nat, h: T -> nat, both: T -> nat)
    requires forall x :: x in s ==> both(x) == g(x) + h(x)
    ensures Sum(s, both) == Sum(s, g) + Sum(s, h)
    decreases |s|
  {
    if s != {} {
      var x :| x in s;
      SumRemove(s, x, g);
      SumRemove(s, x, h);
      SumRemove(s, x, both);
      SumTwo(s - {x}, g, h, both);
    }
  }

  // ---- state ----

  const FIELDS: nat := 14

  type Counts = c: seq<nat> | |c| == FIELDS witness seq(FIELDS, i => 0)

  function Zeros(): Counts
  {
    seq(FIELDS, i => 0)
  }

  function Plus(a: Counts, b: Counts): (r: Counts)
    ensures forall f :: 0 <= f < FIELDS ==> r[f] == a[f] + b[f]
  {
    seq(FIELDS, i requires 0 <= i < FIELDS => a[i] + b[i])
  }

  datatype Key = Key(account: string, model: string, subagent: bool)

  /** `account` is empty until a result is recorded: a failure noted first leaves it so. */
  datatype Stat = Stat(account: string, subagent: bool, counts: Counts, unrecognized: nat)

  function NoStat(): Stat
  {
    Stat("", false, Zeros(), 0)
  }

  /** `resetAt` is when the pool's window began; `resetAtBy` holds the accounts reset since, and when. */
  datatype State = State(cache: map<Key, Stat>, baseline: map<Key, Stat>, resetAt: int, resetAtBy: map<string, int>)

  datatype Event =
    | Record(key: Key, delta: Counts)
    | NoteFailure(key: Key)
    | ResetPool(at: int)
    | ResetAccount(account: string, at: int)
    | Forget(account: string)  // the account's identity changed: its history goes

  const NOTHING := State(map[], map[], 0, map[])

  function StatAt(m: map<Key, Stat>, key: Key): Stat
  {
    if key in m then m[key] else NoStat()
  }

  function Next(s: State, e: Event): State
  {
    match e
    case Record(key, delta) =>
      var stat := StatAt(s.cache, key);
      s.(cache := s.cache[key := Stat(key.account, key.subagent, Plus(stat.counts, delta), stat.unrecognized)])
    case NoteFailure(key) =>
      var stat := StatAt(s.cache, key);
      s.(cache := s.cache[key := stat.(unrecognized := stat.unrecognized + 1)])
    case ResetPool(at) => s.(baseline := s.cache, resetAt := at, resetAtBy := map[])
    case ResetAccount(account, at) =>
      s.(baseline := s.baseline + map k | k in s.cache && s.cache[k].account == account :: s.cache[k],
         resetAtBy := s.resetAtBy[account := at])
    case Forget(account) =>
      State(map k | k in s.cache && s.cache[k].account != account :: s.cache[k],
            map k | k in s.baseline && s.baseline[k].account != account :: s.baseline[k],
            s.resetAt, s.resetAtBy - {account})
  }

  function Run(events: seq<Event>): State
  {
    if events == [] then NOTHING else Next(Run(events[..|events| - 1]), events[|events| - 1])
  }

  // ---- the window ----

  /** `sub_sat`. */
  function Less(a: nat, b: nat): nat
  {
    if a >= b then a - b else 0
  }

  function Delta(s: State, k: Key, f: nat): nat
    requires f < FIELDS
  {
    Less(StatAt(s.cache, k).counts[f], StatAt(s.baseline, k).counts[f])
  }

  /** What one counter adds to the window of an account, or of the pool when the name is empty. */
  function Share(s: State, account: string, f: nat): Key -> nat
    requires f < FIELDS
  {
    k => if account == "" || StatAt(s.cache, k).account == account then Delta(s, k, f) else 0
  }

  function KindShare(s: State, account: string, f: nat, subagent: bool): Key -> nat
    requires f < FIELDS
  {
    k => if StatAt(s.cache, k).subagent == subagent && (account == "" || StatAt(s.cache, k).account == account)
         then Delta(s, k, f) else 0
  }

  ghost function Window(s: State, account: string, f: nat): nat
    requires f < FIELDS
  {
    Sum(s.cache.Keys, Share(s, account, f))
  }

  ghost function KindWindow(s: State, account: string, f: nat, subagent: bool): nat
    requires f < FIELDS
  {
    Sum(s.cache.Keys, KindShare(s, account, f, subagent))
  }

  /** What was recorded for an account since the last reset that concerns it. */
  function RecordedSince(events: seq<Event>, account: string, f: nat): nat
    requires f < FIELDS
  {
    if events == [] then 0
    else
      match events[|events| - 1]
      case Record(key, delta) =>
        RecordedSince(events[..|events| - 1], account, f) + (if key.account == account then delta[f] else 0)
      case NoteFailure(_) => RecordedSince(events[..|events| - 1], account, f)
      case ResetPool(_) => 0
      case ResetAccount(a, _) => if a == account then 0 else RecordedSince(events[..|events| - 1], account, f)
      case Forget(a) => if a == account then 0 else RecordedSince(events[..|events| - 1], account, f)
  }

  // ---- what holds in every run ----

  ghost predicate StatOk(key: Key, stat: Stat)
  {
    (stat.account == key.account || stat.account == "") && (stat.account == "" ==> stat.counts == Zeros())
  }

  ghost predicate Inv(s: State)
  {
    && (forall k :: k in s.cache ==> StatOk(k, s.cache[k]))
    && (forall k :: k in s.baseline ==> StatOk(k, s.baseline[k]))
    && forall k, f :: k in s.baseline && 0 <= f < FIELDS ==> s.baseline[k].counts[f] <= StatAt(s.cache, k).counts[f]
  }

  predicate Named(e: Event)
  {
    match e
    case Record(key, _) => key.account != ""
    case NoteFailure(key) => key.account != ""
    case ResetAccount(account, _) => account != ""
    case Forget(account) => account != ""
    case ResetPool(_) => true
  }

  lemma StepKeeps(s: State, e: Event)
    requires Inv(s) && Named(e)
    ensures Inv(Next(s, e))
  {
  }

  /** One more recording adds to its own counter alone. */
  lemma RecordAdds(s: State, key: Key, delta: Counts, account: string, f: nat)
    requires Inv(s) && key.account != "" && account != "" && f < FIELDS
    ensures Window(Next(s, Record(key, delta)), account, f)
         == Window(s, account, f) + (if key.account == account then delta[f] else 0)
  {
    var t := Next(s, Record(key, delta));
    var g, h := Share(s, account, f), Share(t, account, f);
    SumRemove(t.cache.Keys, key, h);
    assert t.cache.Keys - {key} == s.cache.Keys - {key};
    SumSame(s.cache.Keys - {key}, g, h);
    assert h(key) == g(key) + (if key.account == account then delta[f] else 0) by {
      assert key in s.baseline ==> s.baseline[key].counts[f] <= StatAt(s.cache, key).counts[f];
    }
    if key in s.cache {
      SumRemove(s.cache.Keys, key, g);
    } else {
      assert s.cache.Keys - {key} == s.cache.Keys;
    }
  }

  lemma FailureAddsNothing(s: State, key: Key, account: string, f: nat)
    requires Inv(s) && account != "" && f < FIELDS
    ensures Window(Next(s, NoteFailure(key)), account, f) == Window(s, account, f)
  {
    var t := Next(s, NoteFailure(key));
    var g, h := Share(s, account, f), Share(t, account, f);
    SumRemove(t.cache.Keys, key, h);
    assert t.cache.Keys - {key} == s.cache.Keys - {key};
    SumSame(s.cache.Keys - {key}, g, h);
    if key in s.cache {
      SumRemove(s.cache.Keys, key, g);
    } else {
      assert s.cache.Keys - {key} == s.cache.Keys;
    }
  }

  lemma ResetsAreZero(s: State, e: Event, account: string, f: nat)
    requires Inv(s) && account != "" && f < FIELDS && (e.ResetPool? || e.ResetAccount? || e.Forget?)
    ensures Window(Next(s, e), account, f)
         == if e.ResetPool? || e.account == account then 0 else Window(s, account, f)
  {
    if e.ResetPool? || e.account == account {
      ResetToZero(s, e, account, f);
    } else {
      ResetOfOther(s, e, account, f);
    }
  }

  lemma ResetToZero(s: State, e: Event, account: string, f: nat)
    requires Inv(s) && account != "" && f < FIELDS
    requires e.ResetPool? || ((e.ResetAccount? || e.Forget?) && e.account == account)
    ensures Window(Next(s, e), account, f) == 0
  {
    var t := Next(s, e);
    SumZero(t.cache.Keys, Share(t, account, f));
  }

  lemma ResetOfOther(s: State, e: Event, account: string, f: nat)
    requires Inv(s) && account != "" && f < FIELDS && (e.ResetAccount? || e.Forget?) && e.account != account
    ensures Window(Next(s, e), account, f) == Window(s, account, f)
  {
    var t := Next(s, e);
    var g, h := Share(s, account, f), Share(t, account, f);
    SumSame(t.cache.Keys, g, h);
    if e.Forget? {
      DropZero(s.cache.Keys, t.cache.Keys, g);
    }
  }

  lemma {:induction false} DropZero<T(!new)>(s: set<T>, part: set<T>, g: T -> nat)
    requires part <= s && forall x :: x in s && x !in part ==> g(x) == 0
    ensures Sum(s, g) == Sum(part, g)
    decreases |s - part|
  {
    if s - part != {} {
      var x :| x in s - part;
      SumRemove(s, x, g);
      DropZero(s - {x}, part, g);
    } else {
      assert s == part;
    }
  }

  lemma {:induction false} RunKeeps(events: seq<Event>)
    requires forall i :: 0 <= i < |events| ==> Named(events[i])
    ensures Inv(Run(events))
  {
    if events != [] {
      RunKeeps(events[..|events| - 1]);
      StepKeeps(Run(events[..|events| - 1]), events[|events| - 1]);
    }
  }

  /**
   Over any run of recordings, failures, resets and forgettings, an account's window is what was
   recorded for it since the last of them that concerns it.
   */
  lemma {:induction false} WindowIsRecordedSince(events: seq<Event>, account: string, f: nat)
    requires (forall i :: 0 <= i < |events| ==> Named(events[i])) && account != "" && f < FIELDS
    ensures Window(Run(events), account, f) == RecordedSince(events, account, f)
  {
    hide Next, Window, Inv;
    if events == [] {
      NoWindow(account, f);
    } else {
      var init, e := events[..|events| - 1], events[|events| - 1];
      RunKeeps(init);
      WindowIsRecordedSince(init, account, f);
      match e
      case Record(key, delta) => RecordAdds(Run(init), key, delta, account, f);
      case NoteFailure(key) => FailureAddsNothing(Run(init), key, account, f);
      case _ => ResetsAreZero(Run(init), e, account, f);
    }
  }

  lemma NoWindow(account: string, f: nat)
    requires f < FIELDS
    ensures Window(NOTHING, account, f) == 0
  {
  }

  // ---- the pool is its accounts ----

  ghost function AccountWindow(s: State, f: nat): string -> nat
    requires f < FIELDS
  {
    account => if account == "" then 0 else Window(s, account, f)
  }

  /** The counters of some keys only. */
  ghost function PartWindow(keys: set<Key>, s: State, f: nat): string -> nat
    requires f < FIELDS
  {
    account => if account == "" then 0 else Sum(keys, Share(s, account, f))
  }

  lemma {:induction false} PoolOfKeys(keys: set<Key>, s: State, accounts: set<string>, f: nat)
    requires Inv(s) && f < FIELDS && keys <= s.cache.Keys && forall k :: k in keys ==> s.cache[k].account in accounts
    ensures Sum(keys, Share(s, "", f)) == Sum(accounts, PartWindow(keys, s, f))
    decreases |keys|
  {
    hide Sum, PartWindow, Delta, StatOk;
    if keys == {} {
      NoKeys(s, accounts, f);
    } else {
      var k :| k in keys;
      PoolOfKeys(keys - {k}, s, accounts, f);
      SumRemove(keys, k, Share(s, "", f));
      OneKeyMore(keys, k, s, accounts, f);
    }
  }

  lemma NoKeys(s: State, accounts: set<string>, f: nat)
    requires f < FIELDS
    ensures Sum({}, Share(s, "", f)) == 0 && Sum(accounts, PartWindow({}, s, f)) == 0
  {
    SumZero(accounts, PartWindow({}, s, f));
  }

  ghost function OneWindow(k: Key, s: State, f: nat): string -> nat
    requires f < FIELDS
  {
    account => if account != "" && account == StatAt(s.cache, k).account then Delta(s, k, f) else 0
  }

  lemma OneKeyMore(keys: set<Key>, k: Key, s: State, accounts: set<string>, f: nat)
    requires Inv(s) && f < FIELDS && k in keys && k in s.cache && s.cache[k].account in accounts
    ensures Sum(accounts, PartWindow(keys, s, f)) == Delta(s, k, f) + Sum(accounts, PartWindow(keys - {k}, s, f))
  {
    hide Delta;
    var one, mine := OneWindow(k, s, f), s.cache[k].account;
    forall a | a in accounts ensures PartWindow(keys, s, f)(a) == one(a) + PartWindow(keys - {k}, s, f)(a) {
      SumRemove(keys, k, Share(s, a, f));
    }
    SumTwo(accounts, one, PartWindow(keys - {k}, s, f), PartWindow(keys, s, f));
    SumRemove(accounts, mine, one);
    SumZero(accounts - {mine}, one);
    if mine == "" {
      UnnamedIsZero(s, k, f);
    }
  }

  lemma UnnamedIsZero(s: State, k: Key, f: nat)
    requires Inv(s) && f < FIELDS && k in s.cache && s.cache[k].account == ""
    ensures Delta(s, k, f) == 0
  {
    assert StatOk(k, s.cache[k]);
  }

  /** The pool's window is the sum of its accounts' windows in every field. */
  lemma PoolIsSumOfAccounts(events: seq<Event>, accounts: set<string>, f: nat)
    requires (forall i :: 0 <= i < |events| ==> Named(events[i])) && f < FIELDS
    requires forall k :: k in Run(events).cache ==> Run(events).cache[k].account in accounts
    ensures Window(Run(events), "", f) == Sum(accounts, AccountWindow(Run(events), f))
  {
    hide Run;
    RunKeeps(events);
    var s := Run(events);
    PoolOfKeys(s.cache.Keys, s, accounts, f);
    SumSame(accounts, AccountWindow(s, f), PartWindow(s.cache.Keys, s, f));
  }

  /** A window is the sum of its main and its subagent requests in every field. */
  lemma MainAndSubagent(s: State, account: string, f: nat)
    requires f < FIELDS
    ensures Window(s, account, f) == KindWindow(s, account, f, false) + KindWindow(s, account, f, true)
  {
    SumTwo(s.cache.Keys, KindShare(s, account, f, false), KindShare(s, account, f, true), Share(s, account, f));
  }

  // ---- computing it ----

  /** When the window of an account, or of the pool when the name is empty, is said to have begun. */
  function ResetAt(s: State, account: string): int
  {
    if account != "" && account in s.resetAtBy then s.resetAtBy[account] else s.resetAt
  }

  /** The time of the pool's last reset. */
  function PoolResetIn(events: seq<Event>): int
  {
    if events == [] then 0
    else if events[|events| - 1].ResetPool? then events[|events| - 1].at
    else PoolResetIn(events[..|events| - 1])
  }

  /** The time of the last reset that concerns an account; a change of its identity leaves the pool's. */
  function LastResetIn(events: seq<Event>, account: string): int
  {
    if events == [] then 0
    else
      var init, e := events[..|events| - 1], events[|events| - 1];
      if e.ResetPool? || (e.ResetAccount? && e.account == account) then e.at
      else if e.Forget? && e.account == account then PoolResetIn(init)
      else LastResetIn(init, account)
  }

  /** Over any run the time shown with a window is that of the last reset that concerns it. */
  lemma {:induction false} ResetAtIsLast(events: seq<Event>, account: string)
    ensures Run(events).resetAt == PoolResetIn(events)
    ensures account != "" ==> ResetAt(Run(events), account) == LastResetIn(events, account)
    ensures ResetAt(Run(events), "") == PoolResetIn(events)
  {
    if events != [] {
      ResetAtIsLast(events[..|events| - 1], account);
    }
  }

  function UnrecognizedShare(s: State, account: string): Key -> nat
  {
    k => if account == "" || StatAt(s.cache, k).account == account
         then Less(StatAt(s.cache, k).unrecognized, StatAt(s.baseline, k).unrecognized) else 0
  }

  // ---- failures not recognized ----

  /** Failures are noted on the counter their request was just recorded on. */
  predicate NotedWhereRecorded(events: seq<Event>)
  {
    events == [] ||
    (var init, e := events[..|events| - 1], events[|events| - 1];
     NotedWhereRecorded(init) && Named(e) && (e.NoteFailure? ==> e.key in Run(init).cache))
  }

  /** The failures of an account since the last reset that concerns it. */
  function FailuresSince(events: seq<Event>, account: string): nat
  {
    if events == [] then 0
    else
      var before := FailuresSince(events[..|events| - 1], account);
      match events[|events| - 1]
      case Record(_, _) => before
      case NoteFailure(key) => if key.account == account then before + 1 else before
      case ResetPool(_) => 0
      case ResetAccount(a, _) => if a == account then 0 else before
      case Forget(a) => if a == account then 0 else before
  }

  ghost predicate Accounted(s: State)
  {
    && (forall k :: k in s.cache ==> s.cache[k].account == k.account)
    && forall k :: k in s.baseline ==>
         k in s.cache && s.baseline[k].account == k.account && s.baseline[k].unrecognized <= s.cache[k].unrecognized
  }

  lemma AccountedStep(s: State, e: Event)
    requires Accounted(s) && (e.NoteFailure? ==> e.key in s.cache)
    ensures Accounted(Next(s, e))
  {
  }

  lemma {:induction false} AccountedRun(events: seq<Event>)
    requires NotedWhereRecorded(events)
    ensures Accounted(Run(events))
  {
    hide Next, Accounted;
    if events == [] {
      NothingAccounted();
    } else {
      AccountedRun(events[..|events| - 1]);
      AccountedStep(Run(events[..|events| - 1]), events[|events| - 1]);
    }
  }

  lemma NothingAccounted()
    ensures Accounted(NOTHING)
  {
  }

  ghost function FailureWindow(s: State, account: string): nat
  {
    Sum(s.cache.Keys, UnrecognizedShare(s, account))
  }

  /** One counter changes, and its share by as much as is said. */
  lemma OneShare(s: State, t: State, account: string, key: Key, more: nat)
    requires t.cache.Keys == s.cache.Keys + {key}
    requires forall k :: k in s.cache && k != key ==> UnrecognizedShare(t, account)(k) == UnrecognizedShare(s, account)(k)
    requires UnrecognizedShare(t, account)(key) == (if key in s.cache then UnrecognizedShare(s, account)(key) else 0) + more
    ensures FailureWindow(t, account) == FailureWindow(s, account) + more
  {
    hide Sum, UnrecognizedShare;
    var g, h := UnrecognizedShare(s, account), UnrecognizedShare(t, account);
    SumRemove(t.cache.Keys, key, h);
    assert t.cache.Keys - {key} == s.cache.Keys - {key};
    SumSame(s.cache.Keys - {key}, g, h);
    if key in s.cache {
      SumRemove(s.cache.Keys, key, g);
    } else {
      assert s.cache.Keys - {key} == s.cache.Keys;
    }
  }

  lemma FailureStep(s: State, e: Event, account: string)
    requires Accounted(s) && account != "" && (e.NoteFailure? ==> e.key in s.cache) && (e.NoteFailure? || e.Record?)
    ensures FailureWindow(Next(s, e), account)
         == FailureWindow(s, account) + (if e.NoteFailure? && e.key.account == account then 1 else 0)
  {
    hide Sum;
    OneShare(s, Next(s, e), account, e.key, if e.NoteFailure? && e.key.account == account then 1 else 0);
  }

  lemma FailuresGone(s: State, e: Event, account: string)
    requires Accounted(s) && account != ""
    requires e.ResetPool? || ((e.ResetAccount? || e.Forget?) && e.account == account)
    ensures FailureWindow(Next(s, e), account) == 0
  {
    hide Sum;
    var t := Next(s, e);
    SumZero(t.cache.Keys, UnrecognizedShare(t, account));
  }

  lemma FailuresOfOthers(s: State, e: Event, account: string)
    requires Accounted(s) && account != "" && (e.ResetAccount? || e.Forget?) && e.account != account
    ensures FailureWindow(Next(s, e), account) == FailureWindow(s, account)
  {
    hide Sum;
    var t := Next(s, e);
    var g := UnrecognizedShare(s, account);
    SumSame(t.cache.Keys, g, UnrecognizedShare(t, account));
    DropZero(s.cache.Keys, t.cache.Keys, g);
  }

  /** Over any run an account's window shows every failure noted since the last reset that concerns it, once. */
  lemma {:induction false} FailuresAreCounted(events: seq<Event>, account: string)
    requires NotedWhereRecorded(events) && account != ""
    ensures FailureWindow(Run(events), account) == FailuresSince(events, account)
  {
    hide Next, FailureWindow, Accounted;
    if events == [] {
      NoFailures(account);
    } else {
      var init, e := events[..|events| - 1], events[|events| - 1];
      AccountedRun(init);
      FailuresAreCounted(init, account);
      if e.Record? || e.NoteFailure? {
        FailureStep(Run(init), e, account);
      } else if e.ResetPool? || e.account == account {
        FailuresGone(Run(init), e, account);
      } else {
        FailuresOfOthers(Run(init), e, account);
      }
    }
  }

  lemma NoFailures(account: string)
    ensures FailureWindow(NOTHING, account) == 0
  {
  }

  /**
   `prompt_cache_window_filtered`: totals, the main and subagent requests' shares of them, the
   failures not recognized, and when the window began.
   */
  method PromptCacheWindow(s: State, account: string)
    returns (totals: Counts, main: Counts, subagent: Counts, unrecognized: nat, resetAt: int)
    ensures forall f :: 0 <= f < FIELDS ==> totals[f] == Window(s, account, f)
    ensures forall f :: 0 <= f < FIELDS ==> main[f] == KindWindow(s, account, f, false)
    ensures forall f :: 0 <= f < FIELDS ==> subagent[f] == KindWindow(s, account, f, true)
    ensures forall f :: 0 <= f < FIELDS ==> totals[f] == main[f] + subagent[f]
    ensures unrecognized == Sum(s.cache.Keys, UnrecognizedShare(s, account)) && resetAt == ResetAt(s, account)
  {
    hide Sum, Share, KindShare, UnrecognizedShare, Delta;
    totals, main, subagent := Zeros(), Zeros(), Zeros();
    unrecognized := 0;
    resetAt := if account != "" && account in s.resetAtBy then s.resetAtBy[account] else s.resetAt;
    var left, all := s.cache.Keys, s.cache.Keys;
    NothingSummed(s, account);
    assert all - left == {};
    while left != {}
      invariant left <= all
      invariant forall f :: 0 <= f < FIELDS ==> totals[f] == Sum(all - left, Share(s, account, f))
      invariant forall f :: 0 <= f < FIELDS ==> main[f] == Sum(all - left, KindShare(s, account, f, false))
      invariant forall f :: 0 <= f < FIELDS ==> subagent[f] == Sum(all - left, KindShare(s, account, f, true))
      invariant unrecognized == Sum(all - left, UnrecognizedShare(s, account))
    {
      var k :| k in left;
      var stat := s.cache[k];
      OneKeySummed(s, account, all - left, k);
      assert all - (left - {k}) == all - left + {k};
      left := left - {k};
      if account == "" || stat.account == account {
        var deltas := Deltas(s, k);
        totals := Plus(totals, deltas);
        if stat.subagent {
          subagent := Plus(subagent, deltas);
        } else {
          main := Plus(main, deltas);
        }
        unrecognized := unrecognized + Less(stat.unrecognized, StatAt(s.baseline, k).unrecognized);
      }
    }
    assert all - left == all;
    forall f | 0 <= f < FIELDS ensures totals[f] == main[f] + subagent[f] {
      MainAndSubagent(s, account, f);
    }
  }

  /** One counter more in the sums. */
  lemma OneKeySummed(s: State, account: string, done: set<Key>, k: Key)
    requires k in s.cache && k !in done
    ensures var mine, subagent := account == "" || s.cache[k].account == account, s.cache[k].subagent;
      && (forall f :: 0 <= f < FIELDS ==>
            Sum(done + {k}, Share(s, account, f)) == Sum(done, Share(s, account, f)) + (if mine then Delta(s, k, f) else 0))
      && (forall f :: 0 <= f < FIELDS ==>
            Sum(done + {k}, KindShare(s, account, f, false))
            == Sum(done, KindShare(s, account, f, false)) + (if mine && !subagent then Delta(s, k, f) else 0))
      && (forall f :: 0 <= f < FIELDS ==>
            Sum(done + {k}, KindShare(s, account, f, true))
            == Sum(done, KindShare(s, account, f, true)) + (if mine && subagent then Delta(s, k, f) else 0))
      && Sum(done + {k}, UnrecognizedShare(s, account)) == Sum(done, UnrecognizedShare(s, account))
         + (if mine then Less(s.cache[k].unrecognized, StatAt(s.baseline, k).unrecognized) else 0)
  {
    hide Sum, Delta;
    assert done + {k} - {k} == done;
    forall f | 0 <= f < FIELDS
      ensures Sum(done + {k}, Share(s, account, f)) == Share(s, account, f)(k) + Sum(done, Share(s, account, f))
      ensures Sum(done + {k}, KindShare(s, account, f, false)) == KindShare(s, account, f, false)(k) + Sum(done, KindShare(s, account, f, false))
      ensures Sum(done + {k}, KindShare(s, account, f, true)) == KindShare(s, account, f, true)(k) + Sum(done, KindShare(s, account, f, true))
    {
      SumRemove(done + {k}, k, Share(s, account, f));
      SumRemove(done + {k}, k, KindShare(s, account, f, false));
      SumRemove(done + {k}, k, KindShare(s, account, f, true));
    }
    SumRemove(done + {k}, k, UnrecognizedShare(s, account));
  }

  function Deltas(s: State, k: Key): (d: Counts)
    ensures forall f :: 0 <= f < FIELDS ==> d[f] == Delta(s, k, f)
  {
    seq(FIELDS, f requires 0 <= f < FIELDS => Delta(s, k, f))
  }

  lemma NothingSummed(s: State, account: string)
    ensures forall f :: 0 <= f < FIELDS ==> Sum({}, Share(s, account, f)) == 0
    ensures Sum({}, UnrecognizedShare(s, account)) == 0
    ensures forall f :: 0 <= f < FIELDS ==> Sum({}, KindShare(s, account, f, false)) == 0 == Sum({}, KindShare(s, account, f, true))
  {
  }

  // ---- the keys as texts ----

  function KeyText(key: Key): string
  {
    key.account + ":" + key.model + ":" + if key.subagent then "subagent" else "main"
  }

  function FirstColon(s: string): (i: nat)
    ensures i <= |s|
  {
    if s == "" || s[0] == ':' then 0 else 1 + FirstColon(s[1..])
  }

  lemma {:induction false} AccountEnds(account: string, rest: string)
    requires ':' !in account
    ensures FirstColon(account + (":" + rest)) == |account|
  {
    if account != "" {
      assert account[0] in account;
      AccountEnds(account[1..], rest);
      assert (account + (":" + rest))[1..] == account[1..] + (":" + rest);
    } else {
      assert account + (":" + rest) == ":" + rest;
    }
  }

  /** No two counters share a key text, whatever the model is called: account ids hold no colon. */
  lemma KeyTextsDiffer(a: Key, b: Key)
    requires ':' !in a.account && ':' !in b.account && KeyText(a) == KeyText(b)
    ensures a == b
  {
    hide KeyText;
    var endA, endB := if a.subagent then "subagent" else "main", if b.subagent then "subagent" else "main";
    Pieces(a, endA);
    Pieces(b, endB);
    assert endA[|endA| - 1] == (if a.subagent then 't' else 'n') && endB[|endB| - 1] == (if b.subagent then 't' else 'n');
  }

  /** The account, the last character and the model of a key text. */
  lemma Pieces(k: Key, end: string)
    requires ':' !in k.account && end == if k.subagent then "subagent" else "main"
    ensures var s, n := KeyText(k), |k.account|;
      && FirstColon(s) == n && n + 1 + |end| < |s| && s[..n] == k.account && s[|s| - 1] == end[|end| - 1]
      && n + 1 <= |s| - |end| - 1 && s[n + 1..|s| - |end| - 1] == k.model
  {
    var rest := k.model + ":" + end;
    AccountEnds(k.account, rest);
    Associative(k.account + ":", k.model, ":" + end);
    TextPieces(k.account, k.model, end);
  }

  lemma TextPieces(account: string, model: string, end: string)
    requires end != ""
    ensures var s, n := account + (":" + (model + ":" + end)), |account|;
      && account + ":" + model + ":" + end == s && |s| == n + |model| + |end| + 2
      && s[..n] == account && s[|s| - 1] == end[|end| - 1] && s[n + 1..|s| - |end| - 1] == model
  {
    var rest := model + ":" + end;
    var s := account + (":" + rest);
    assert s[|account| + 1..] == rest;
    assert rest[..|model|] == model;
  }

  // ---- recording ----

  const MIN_TOKENS: nat := 1024

  datatype Usage = Usage(inputTokens: nat, cachedTokens: nat, written: Option<nat>)

  /** What one finished request says; `usage` is missing when upstream reported none. */
  datatype Outcome = Outcome(usage: Option<Usage>, parentHit: bool, parentFallback: bool, lineageFailover: bool, routingFailover: bool)

  function One(b: bool): nat
  {
    if b then 1 else 0
  }

  /** The counters of one result's usage, in the order the dashboard lists them. */
  function UsageDelta(usage: Option<Usage>): Counts
  {
    var u := if usage.Some? then usage.value else Usage(0, 0, None);
    var seen, written := usage.Some?, u.written.Some?;
    [u.inputTokens, u.cachedTokens, 1, One(seen),
     if written then u.written.value else 0, if written then u.inputTokens else 0, One(written),
     One(u.cachedTokens > 0), One(u.inputTokens >= MIN_TOKENS), One(u.inputTokens >= MIN_TOKENS && u.cachedTokens == 0),
     0, 0, 0, 0]
  }

  function FlagsDelta(o: Outcome): Counts
  {
    [0, 0, 0, 0, 0, 0, 0, 0, 0, 0, One(o.parentHit), One(o.parentFallback), One(o.lineageFailover), One(o.routingFailover)]
  }

  /** The counters of one result. */
  function DeltaOf(o: Outcome): Counts
  {
    Plus(UsageDelta(o.usage), FlagsDelta(o))
  }

  lemma PlusTwice(c: Counts, a: Counts, b: Counts)
    ensures Plus(Plus(c, a), b) == Plus(c, Plus(a, b))
  {
  }

  method AddUsage(given: Counts, reported: Option<Usage>) returns (c: Counts)
    ensures c == Plus(given, UsageDelta(reported))
  {
    hide Plus;
    c := given[2 := given[2] + 1];
    if reported.Some? {
      c := AddReported(c, reported.value);
    }
    PlusIs(given, UsageDelta(reported), c);
  }

  /** The counters of a result that reports its usage. */
  method AddReported(given: Counts, usage: Usage) returns (c: Counts)
    ensures c[0] == given[0] + usage.inputTokens && c[1] == given[1] + usage.cachedTokens && c[2] == given[2]
    ensures c[3] == given[3] + 1
    ensures c[4..7] == if usage.written.None? then given[4..7] else
      [given[4] + usage.written.value, given[5] + usage.inputTokens, given[6] + 1]
    ensures c[7] == given[7] + One(usage.cachedTokens > 0) && c[8] == given[8] + One(usage.inputTokens >= MIN_TOKENS)
    ensures c[9] == given[9] + One(usage.inputTokens >= MIN_TOKENS && usage.cachedTokens == 0)
    ensures c[10..] == given[10..]
  {
    c := given[3 := given[3] + 1];
    c := c[0 := c[0] + usage.inputTokens];
    c := c[1 := c[1] + usage.cachedTokens];
    c := c[7 := c[7] + One(usage.cachedTokens > 0)];
    c := c[8 := c[8] + One(usage.inputTokens >= MIN_TOKENS)];
    if usage.written.Some? {
      c := c[4 := c[4] + usage.written.value];
      c := c[5 := c[5] + usage.inputTokens];
      c := c[6 := c[6] + 1];
    }
    c := c[9 := c[9] + One(usage.inputTokens >= MIN_TOKENS && usage.cachedTokens == 0)];
  }

  lemma PlusIs(a: Counts, b: Counts, c: seq<nat>)
    requires |c| == FIELDS && forall f :: 0 <= f < FIELDS ==> c[f] == a[f] + b[f]
    ensures c == Plus(a, b)
  {
  }

  method AddFlags(given: Counts, o: Outcome) returns (c: Counts)
    ensures c == Plus(given, FlagsDelta(o))
  {
    c := given;
    if o.parentHit {
      c := c[10 := c[10] + 1];
    }
    if o.parentFallback {
      c := c[11 := c[11] + 1];
    }
    if o.lineageFailover {
      c := c[12 := c[12] + 1];
    }
    if o.routingFailover {
      c := c[13 := c[13] + 1];
    }
  }

  class PromptCache {
    var cache: map<Key, Stat>
    var baseline: map<Key, Stat>
    var resetAt: int
    var resetAtBy: map<string, int>

    ghost function Contents(): State
      reads this
    {
      State(cache, baseline, resetAt, resetAtBy)
    }

    /** `record_prompt_cache_result`: one counter after the other. */
    method RecordResult(key: Key, o: Outcome)
      modifies this`cache
      ensures Contents() == Next(old(Contents()), Record(key, DeltaOf(o)))
    {
      hide UsageDelta, FlagsDelta, Plus;
      var stat := StatAt(cache, key);
      var c := AddUsage(stat.counts, o.usage);
      c := AddFlags(c, o);
      PlusTwice(stat.counts, UsageDelta(o.usage), FlagsDelta(o));
      cache := cache[key := Stat(key.account, key.subagent, c, stat.unrecognized)];
    }

    /** `note_unrecognized_failure`. */
    method NoteUnrecognized(key: Key)
      modifies this`cache
      ensures Contents() == Next(old(Contents()), NoteFailure(key))
    {
      var stat := if key in cache then cache[key] else NoStat();
      cache := cache[key := stat.(unrecognized := stat.unrecognized + 1)];
    }

    method ResetWindow(now: int)
      modifies this`baseline, this`resetAt, this`resetAtBy
      ensures Contents() == Next(old(Contents()), ResetPool(now))
    {
      baseline := cache;
      resetAt := now;
      resetAtBy := map[];
    }

    method ResetWindowFor(account: string, now: int)
      modifies this`baseline, this`resetAtBy
      ensures Contents() == Next(old(Contents()), ResetAccount(account, now))
    {
      var own := map k | k in cache && cache[k].account == account :: cache[k];
      baseline := baseline + own;
      resetAtBy := resetAtBy[account := now];
    }
  }

  /**
   What one result adds to each counter. Tokens count where usage is reported, written ones where that
   is; a request counts always, and as observed, written, hit, eligible or cold where it is one; each of
   the four routings raises its own counter and no other.
   */
  lemma DeltaSays(o: Outcome)
    ensures var d, hit, big := DeltaOf(o), o.usage.Some? && o.usage.value.cachedTokens > 0,
                               o.usage.Some? && o.usage.value.inputTokens >= 1024;
      && (o.usage.Some? ==> d[0] == o.usage.value.inputTokens && d[1] == o.usage.value.cachedTokens)
      && (o.usage.None? ==> d[0] == d[1] == 0)
      && d[2] == 1 && (d[3] == 1 <==> o.usage.Some?)
      && (d[6] == 1 <==> o.usage.Some? && o.usage.value.written.Some?)
      && (d[6] == 1 ==> d[4] == o.usage.value.written.value && d[5] == o.usage.value.inputTokens)
      && (d[6] == 0 ==> d[4] == d[5] == 0)
      && (d[7] == 1 <==> hit) && (d[8] == 1 <==> big) && (d[9] == 1 <==> big && !hit)
      && (d[10] == 1 <==> o.parentHit) && (d[11] == 1 <==> o.parentFallback)
      && (d[12] == 1 <==> o.lineageFailover) && (d[13] == 1 <==> o.routingFailover)
      && forall f :: 0 <= f < FIELDS && f !in [0, 1, 4, 5] ==> d[f] <= 1
  {
  }

  ghost predicate FromResults(events: seq<Event>)
  {
    forall i :: 0 <= i < |events| ==> Named(events[i]) && (events[i].Record? ==> exists o :: events[i].delta == DeltaOf(o))
  }

  lemma DeltaInOrder(o: Outcome)
    ensures var d := DeltaOf(o); d[7] <= d[3] <= d[2] && d[9] <= d[8] <= d[3] && d[5] <= d[0]
  {
  }

  lemma {:induction false} RecordedInOrder(events: seq<Event>, account: string)
    requires FromResults(events)
    ensures RecordedSince(events, account, 7) <= RecordedSince(events, account, 3) <= RecordedSince(events, account, 2)
    ensures RecordedSince(events, account, 9) <= RecordedSince(events, account, 8) <= RecordedSince(events, account, 3)
    ensures RecordedSince(events, account, 5) <= RecordedSince(events, account, 0)
  {
    hide DeltaOf;
    if events != [] {
      var e := events[|events| - 1];
      RecordedInOrder(events[..|events| - 1], account);
      if e.Record? {
        var o :| e.delta == DeltaOf(o);
        DeltaInOrder(o);
      }
    }
  }

  /** Whatever is reset in between, a window never shows more hits than observed requests, nor more cold ones than eligible. */
  lemma WindowCountsInOrder(events: seq<Event>, account: string)
    requires FromResults(events) && account != ""
    ensures var s := Run(events);
      && Window(s, account, 7) <= Window(s, account, 3) <= Window(s, account, 2)
      && Window(s, account, 9) <= Window(s, account, 8) <= Window(s, account, 3)
      && Window(s, account, 5) <= Window(s, account, 0)
  {
    hide Run, Window, RecordedSince;
    RecordedInOrder(events, account);
    WindowIsRecordedSince(events, account, 0);
    WindowIsRecordedSince(events, account, 2);
    WindowIsRecordedSince(events, account, 3);
    WindowIsRecordedSince(events, account, 5);
    WindowIsRecordedSince(events, account, 7);
    WindowIsRecordedSince(events, account, 8);
    WindowIsRecordedSince(events, account, 9);
  }
}
