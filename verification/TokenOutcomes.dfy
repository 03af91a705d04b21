/**
 When tokens are refreshed: exactly which caller starts an exchange, and what one costs the others.
 */
module TokenOutcomes {
  import opened Basics
  import opened TokenRefresh

  /** The tokens on file can be refreshed: there is a refresh token, and upstream has not refused it for good. */
  predicate Refreshable(s: State)
  {
    s.file.refresh != "" && s.refused != Some(Refusal(s.file, REFRESH_REFUSED))
  }

  /**
   A caller with the permit goes on to spend what is on file exactly when that can be refreshed and is
   about to expire, or was rejected. It leaves otherwise, and the permit is free.
   */
  lemma DecideExactly(s: State, c: nat, due: bool)
    requires c in s.callers && s.callers[c].Holding? && !s.callers[c].kind.AfterRejection?
    ensures var u := Next(s, Decide(c, due));
      && u.file == s.file && u.tasks == s.tasks && u.settling == s.settling && u.sent == s.sent
      && (u.refused == s.refused || (u.refused == None && s.refused.value.tokens != s.file))
      && if Refreshable(s) && (s.callers[c].kind == Forced || due)
         then u.callers == s.callers[c := Ready(s.file)] && u.permit == s.permit
         else u.callers == s.callers - {c} && u.permit == Free
  {
  }

  /** A caller whose token was rejected, and is the one on file, sends that exchange, expired or not. */
  lemma RejectedTokenIsRefreshed(s: State, c: nat, due: bool, t: nat)
    requires c in s.callers && s.callers[c] == Holding(AfterRejection(s.file.access)) && Refreshable(s) && t !in s.tasks
    ensures var u := Run(s, [Compare(c), Decide(c, due), Spawn(c, t)]);
      && u.sent == s.sent + [Exchange(s.file, None)] && u.file == s.file
      && u.tasks == s.tasks[t := Exchanging(s.file, |s.sent|)] && u.permit == OfTask(t) && u.settling == s.settling + 1
      && u.callers == s.callers - {c}
  {
    hide Run, Next;
    ThreeSteps(s, Compare(c), Decide(c, due), Spawn(c, t));
    var compared := s.(callers := s.callers[c := Holding(Forced)]);
    assert Next(s, Compare(c)) == compared by {
      CompareIs(s, c);
    }
    DecideExactly(compared, c, due);
    SpawnIs(Next(compared, Decide(c, due)), c, t);
  }

  lemma CompareIs(s: State, c: nat)
    requires c in s.callers && s.callers[c].Holding? && s.callers[c].kind.AfterRejection?
    ensures Next(s, Compare(c)) ==
      if s.callers[c].kind.access == s.file.access then s.(callers := s.callers[c := Holding(Forced)])
      else s.(callers := s.callers - {c}, permit := Free)
  {
  }

  lemma SpawnIs(s: State, c: nat, t: nat)
    requires c in s.callers && s.callers[c].Ready? && t !in s.tasks
    ensures var u, spent := Next(s, Spawn(c, t)), s.callers[c].spent;
      && u.sent == s.sent + [Exchange(spent, None)] && u.file == s.file && u.callers == s.callers - {c}
      && u.tasks == s.tasks[t := Exchanging(spent, |s.sent|)] && u.permit == OfTask(t) && u.settling == s.settling + 1
      && u.used == s.used
  {
  }

  lemma ThreeSteps(s: State, a: Step, b: Step, c: Step)
    ensures Run(s, [a, b, c]) == Next(Next(Next(s, a), b), c)
  {
    hide Next;
    assert [a, b, c][1..] == [b, c] && [b, c][1..] == [c] && [c][1..] == [];
    assert Run(s, [a, b, c]) == Run(Next(s, a), [b, c]);
    assert Run(Next(s, a), [b, c]) == Run(Next(Next(s, a), b), [c]);
    OneStep(Next(Next(s, a), b), c);
  }

  lemma {:induction false} RunInParts(s: State, steps: seq<Step>, more: seq<Step>)
    ensures Run(s, steps + more) == Run(Run(s, steps), more)
    decreases |steps|
  {
    hide Next;
    if steps == [] {
      assert steps + more == more;
    } else {
      assert (steps + more)[1..] == steps[1..] + more;
      RunInParts(Next(s, steps[0]), steps[1..], more);
    }
  }

  // ---- many callers, one rejected token ----

  /** These callers wait with the same token rejected. */
  ghost predicate Rejected(s: State, callers: seq<nat>, access: string)
  {
    && Distinct(callers)
    && forall c :: c in callers ==> c in s.callers && s.callers[c] == Waiting(AfterRejection(access))
  }

  /** Each gets the permit and looks at what is on file. */
  function Looks(callers: seq<nat>): seq<Step>
  {
    if callers == [] then [] else [Acquire(callers[0]), Compare(callers[0])] + Looks(callers[1..])
  }

  lemma LookLeaves(s: State, c: nat)
    requires s.permit == Free && c in s.callers && s.callers[c].Waiting? && s.callers[c].kind.AfterRejection?
    requires s.callers[c].kind.access != s.file.access
    ensures Run(s, [Acquire(c), Compare(c)]) == s.(callers := s.callers - {c})
  {
    var held := Next(s, Acquire(c));
    assert [Acquire(c), Compare(c)] == [Acquire(c)] + [Compare(c)];
    RunInParts(s, [Acquire(c)], [Compare(c)]);
    OneStep(s, Acquire(c));
    OneStep(held, Compare(c));
    assert Next(held, Compare(c)).callers == s.callers - {c};
  }

  /** Once another token is on file they leave with it, one after the other, and nothing is sent. */
  lemma {:induction false} AllLeave(s: State, callers: seq<nat>, access: string)
    requires s.permit == Free && Rejected(s, callers, access) && s.file.access != access
    ensures Run(s, Looks(callers)) == s.(callers := s.callers - set c | c in callers)
    decreases |callers|
  {
    hide Next, Run;
    if callers == [] {
      NothingRun(s);
      assert s.callers - (set c | c in callers) == s.callers;
    } else {
      var first := callers[0];
      LookLeaves(s, first);
      RunInParts(s, [Acquire(first), Compare(first)], Looks(callers[1..]));
      var left := s.(callers := s.callers - {first});
      assert first !in callers[1..];
      AllLeave(left, callers[1..], access);
      assert s.callers - {first} - (set c | c in callers[1..]) == s.callers - set c | c in callers;
    }
  }

  lemma NothingRun(s: State)
    ensures Run(s, []) == s
  {
  }

  /** The first caller's refresh, from its permit to the tokens on file. */
  function Refreshing(c: nat, due: bool, t: nat, reply: Tokens): seq<Step>
  {
    [Acquire(c)] + ([Compare(c), Decide(c, due), Spawn(c, t)] + [Reply(t, reply), Read(t), Write(t, true)])
  }

  /**
   However many callers had the token on file rejected, in any run: the first refreshes it, and every
   other leaves with the new one. That is one exchange, neither none nor two.
   */
  lemma OneExchangeForAll(start: State, before: seq<Step>, c: nat, due: bool, t: nat, reply: Tokens, others: seq<nat>)
    requires Initial(start)
    requires var s := Run(start, before);
      && s.permit == Free && Refreshable(s) && Rejected(s, [c] + others, s.file.access)
      && reply.access != "" && Issued(s, reply)
    ensures var s, u := Run(start, before), Run(Run(start, before), Refreshing(c, due, t, reply) + Looks(others));
      && u.sent == s.sent + [Exchange(s.file, Some(reply))]
      && u.file == Tokens(reply.access, if reply.refresh != "" then reply.refresh else s.file.refresh)
      && u.callers == s.callers - {c} - (set d | d in others) && u.tasks == map[] && u.permit == Free
  {
    hide Run, Initial, Issued;
    var s := Run(start, before);
    Reachable(start, before);
    RejectedAll(s, c, others);
    var u := Refreshes(s, c, due, t, reply);
    assert s.file.access in s.used;
    IssuedIsNew(s, reply);
    RunInParts(s, Refreshing(c, due, t, reply), Looks(others));
    AllLeave(u, others, s.file.access);
  }

  lemma RejectedAll(s: State, c: nat, others: seq<nat>)
    requires Rejected(s, [c] + others, s.file.access)
    ensures c in s.callers && s.callers[c] == Waiting(AfterRejection(s.file.access)) && c !in others
    ensures Rejected(s, others, s.file.access)
  {
    var all := [c] + others;
    assert all[0] == c && c in all;
    forall d | d in others ensures d in all && d != c {
      var i :| 0 <= i < |others| && others[i] == d;
      assert all[i + 1] == d;
    }
    forall i, j | 0 <= i < j < |others| ensures others[i] != others[j] {
      assert all[i + 1] != all[j + 1];
    }
  }

  lemma IssuedIsNew(s: State, reply: Tokens)
    requires Issued(s, reply) && reply.access != ""
    ensures reply.access !in s.used
  {
    assert Get(reply, Access) == reply.access;
  }

  lemma Refreshes(s: State, c: nat, due: bool, t: nat, reply: Tokens) returns (u: State)
    requires OneHolder(s) && s.permit == Free && Refreshable(s) && Issued(s, reply)
    requires c in s.callers && s.callers[c] == Waiting(AfterRejection(s.file.access))
    ensures u == Run(s, Refreshing(c, due, t, reply))
    ensures u.sent == s.sent + [Exchange(s.file, Some(reply))] && u.file == Refreshed(s.file, reply)
    ensures u.callers == s.callers - {c} && u.tasks == map[] && u.permit == Free
  {
    hide Run, Next, Issued;
    var held := Next(s, Acquire(c));
    AcquireIs(s, c);
    RejectedTokenIsRefreshed(held, c, due, t);
    var sent := Run(held, [Compare(c), Decide(c, due), Spawn(c, t)]);
    UsedStays(held, c, due, t);
    SameIssued(s, sent, reply);
    ThreeSteps(sent, Reply(t, reply), Read(t), Write(t, true));
    u := Next(Next(Next(sent, Reply(t, reply)), Read(t)), Write(t, true));
    ReplyIsKept(sent, t, reply);
    RunInParts(s, [Acquire(c)], [Compare(c), Decide(c, due), Spawn(c, t)] + [Reply(t, reply), Read(t), Write(t, true)]);
    OneStep(s, Acquire(c));
    RunInParts(held, [Compare(c), Decide(c, due), Spawn(c, t)], [Reply(t, reply), Read(t), Write(t, true)]);
  }

  lemma OneStep(s: State, a: Step)
    ensures Run(s, [a]) == Next(s, a)
  {
    hide Next;
    assert [a][1..] == [];
  }

  lemma AcquireIs(s: State, c: nat)
    requires OneHolder(s) && s.permit == Free && c in s.callers
    ensures s.tasks == map[] && s.callers[c].Waiting?
    ensures Next(s, Acquire(c)) == s.(callers := s.callers[c := Holding(s.callers[c].kind)], permit := OfCaller(c))
  {
  }

  lemma UsedStays(s: State, c: nat, due: bool, t: nat)
    ensures Run(s, [Compare(c), Decide(c, due), Spawn(c, t)]).used == s.used
  {
    hide Run;
    ThreeSteps(s, Compare(c), Decide(c, due), Spawn(c, t));
  }

  lemma SameIssued(s: State, u: State, tokens: Tokens)
    requires u.used == s.used && Issued(s, tokens)
    ensures Issued(u, tokens)
  {
  }

  /** A reply that arrives while the tokens spent are on file, and is written, is what is on file then. */
  lemma ReplyIsKept(s: State, t: nat, reply: Tokens)
    requires t in s.tasks && s.tasks.Keys == {t} && s.tasks[t].Exchanging? && s.tasks[t].index == |s.sent| - 1
    requires s.tasks[t].spent == s.file && s.sent[|s.sent| - 1] == Exchange(s.file, None) && Issued(s, reply)
    ensures var u := Next(Next(Next(s, Reply(t, reply)), Read(t)), Write(t, true));
      && u.file == Refreshed(s.file, reply) && u.tasks == map[] && u.permit == Free && u.callers == s.callers
      && u.sent == s.sent[..|s.sent| - 1] + [Exchange(s.file, Some(reply))]
  {
    hide Issued;
    var replied := Next(s, Reply(t, reply));
    assert replied.tasks == s.tasks[t := Replied(s.file, |s.sent| - 1, reply)];
    var read := Next(replied, Read(t));
    assert read.tasks == replied.tasks[t := Writing(s.file, |s.sent| - 1, reply, false)];
    assert replied.sent == s.sent[..|s.sent| - 1] + [Exchange(s.file, Some(reply))];
    assert read.tasks - {t} == map[];
  }

  // ---- refusals, and callers that are gone ----

  /** An exchange upstream refuses ends; the tokens it spent are noted exactly where the refusal is for good. */
  lemma RefusalExactly(s: State, t: nat, permanent: bool)
    requires t in s.tasks && s.tasks[t].Exchanging?
    ensures Next(s, Refuse(t, permanent)) == s.(tasks := s.tasks - {t}, settling := s.settling - 1, permit := Free,
      refused := if permanent then Some(Refusal(s.tasks[t].spent, REFRESH_REFUSED)) else s.refused)
  {
  }

  /** In any run, once upstream refused for good the tokens on file, nobody sends them while they and the note stay. */
  lemma RefusedForGood(start: State, before: seq<Step>, t: nat, steps: seq<Step>)
    requires Initial(start)
    requires var s := Run(start, before); t in s.tasks && s.tasks[t].Exchanging? && s.tasks[t].spent == s.file
    requires forall step :: step in steps ==> !step.Login? && !step.RecordRefused? && !step.ClearRefused?
    ensures var u := Next(Run(start, before), Refuse(t, true));
      Run(u, steps).sent == Run(start, before).sent && !Refreshable(Run(u, steps))
  {
    hide Run, Initial, Inv, Next;
    var s := Run(start, before);
    Reachable(start, before);
    HoldersIn(s);
    OnlyTask(s, t);
    RefusalExactly(s, t, true);
    StepKeeps(s, Refuse(t, true));
    RefusedTokensAreNotSent(Next(s, Refuse(t, true)), steps);
  }

  lemma HoldersIn(s: State)
    requires Inv(s)
    ensures OneHolder(s)
  {
    hide OneHolder;
  }

  /** A caller that is dropped is gone, and frees the permit exactly where it had it. */
  lemma DropExactly(start: State, before: seq<Step>, c: nat)
    requires Initial(start) && c in Run(start, before).callers
    ensures var s := Run(start, before);
      Next(s, Drop(c)) == s.(callers := s.callers - {c}, permit := if s.permit == OfCaller(c) then Free else s.permit)
  {
    hide Run, Initial, TaskOk, Apart, Known;
    Reachable(start, before);
  }

  /** What is noted of refused tokens is the last thing said of them. */
  lemma NotedExactly(s: State, tokens: Tokens, reason: string)
    ensures Next(s, RecordRefused(tokens, reason)) == s.(refused := Some(Refusal(tokens, reason)))
    ensures Next(s, ClearRefused) == s.(refused := None)
  {
  }
}
