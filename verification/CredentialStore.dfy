/**
 The refresh of one account as the pool carries it out: auth.json, the permit, the running tasks, the
 settling counter and the refusal record, changed in place.
 */
module CredentialStore {
  import opened Basics
  import opened TokenRefresh

  class Credential {
    var file: Tokens
    var permit: Permit
    var callers: map<nat, Caller>
    var tasks: map<nat, Task>
    var settling: int
    var refused: Option<Refusal>
    var sent: seq<Exchange>  // the log the statements are about, like `used`
    var used: set<string>

    ghost function State(): State
      reads this
    {
      TokenRefresh.State(file, permit, callers, tasks, settling, refused, sent, used)
    }

    /** The recorded refusal of these tokens; a record of other tokens is dropped. */
    method RefusedReason(tokens: Tokens) returns (reason: Option<string>)
      modifies this`refused
      ensures refused == LookUp(old(refused), tokens)
      ensures reason == if refused.Some? then Some(refused.value.reason) else None
    {
      if refused.None? {
        return None;
      }
      if refused.value.tokens != tokens {
        refused := None;
        return None;
      }
      return Some(refused.value.reason);
    }

    method Record(tokens: Tokens, reason: string)
      modifies this`refused
      ensures State() == Next(old(State()), RecordRefused(tokens, reason))
    {
      refused := Some(Refusal(tokens, reason));
    }

    method Clear()
      modifies this`refused
      ensures State() == Next(old(State()), ClearRefused)
    {
      refused := None;
    }

    method TakePermit(c: nat) returns (got: bool)
      requires c in callers && callers[c].Waiting?
      modifies this`callers, this`permit
      ensures State() == Next(old(State()), Acquire(c)) && got == old(permit).Free?
    {
      if permit != Free {
        return false;
      }
      permit := OfCaller(c);
      callers := callers[c := Holding(callers[c].kind)];
      return true;
    }

    /** The caller's future ends or is dropped: its permit, if it has one, is free again. */
    method Gone(c: nat)
      requires c in callers
      modifies this`callers, this`permit
      ensures State() == Next(old(State()), Drop(c))
    {
      if !callers[c].Waiting? {
        permit := Free;
      }
      callers := callers - {c};
    }

    /** `refresh_codex_auth_after_rejection`, once it has the permit. */
    method CompareRejected(c: nat) returns (current: bool)
      requires c in callers && callers[c].Holding? && callers[c].kind.AfterRejection?
      modifies this`callers, this`permit
      ensures State() == Next(old(State()), Compare(c))
      ensures current <==> old(file.access != callers[c].kind.access)
    {
      if file.access != callers[c].kind.access {
        permit := Free;
        callers := callers - {c};
        return true;
      }
      callers := callers[c := Holding(Forced)];
      return false;
    }

    /** `refresh_codex_auth_holding`, up to the exchange: the tokens to spend, if any. */
    method DecideRefresh(c: nat, due: bool) returns (spent: Option<Tokens>)
      requires c in callers && callers[c].Holding? && !callers[c].kind.AfterRejection?
      modifies this`callers, this`permit, this`refused
      ensures State() == Next(old(State()), Decide(c, due))
      ensures spent.Some? <==>
        && file.refresh != "" && old(refused) != Some(Refusal(file, REFRESH_REFUSED))
        && (old(callers[c].kind).Forced? || due)
      ensures spent.Some? ==> c in callers && callers[c] == Ready(spent.value) && spent.value == file
      ensures spent.None? ==> c !in callers && permit == Free
    {
      var read := file;
      spent := None;
      if read.refresh != "" {
        var reason := RefusedReason(read);
        if reason != Some(REFRESH_REFUSED) && (callers[c].kind == Forced || due) {
          spent := Some(read);
        }
      }
      if spent.Some? {
        callers := callers[c := Ready(read)];
      } else {
        callers := callers - {c};
        permit := Free;
      }
    }

    /** The exchange starts in a task of its own, which takes the permit and the settling count. */
    method SpawnExchange(c: nat, t: nat)
      requires c in callers && callers[c].Ready? && t !in tasks
      modifies this
      ensures State() == Next(old(State()), Spawn(c, t))
    {
      var spent := callers[c].spent;
      settling := settling + 1;
      tasks := tasks[t := Exchanging(spent, |sent|)];
      sent := sent + [Exchange(spent, None)];
      callers := callers - {c};
      permit := OfTask(t);
    }

    method EndTask(t: nat)
      modifies this`tasks, this`settling, this`permit
      ensures State() == End(old(State()), t)
    {
      tasks := tasks - {t};
      settling := settling - 1;
      permit := Free;
    }

    /** The exchange failed: a refusal for good is noted for the tokens it spent. */
    method ExchangeFailed(t: nat, permanent: bool)
      requires t in tasks && tasks[t].Exchanging?
      modifies this`tasks, this`settling, this`permit, this`refused
      ensures State() == Next(old(State()), Refuse(t, permanent))
    {
      if permanent {
        refused := Some(Refusal(tasks[t].spent, REFRESH_REFUSED));
      }
      EndTask(t);
    }

    /**
     `persist`, with nothing between its read and its write: the reply's tokens replace the ones
     spent, and nothing else.
     */
    method Persist(t: nat, ok: bool) returns (kept: bool)
      requires t in tasks && tasks[t].Replied?
      modifies this
      ensures State() == if kept then Next(Next(old(State()), Read(t)), Write(t, ok)) else Next(old(State()), Read(t))
      ensures kept == (old(file) == old(tasks[t].spent))
      ensures file == if kept && ok then Refreshed(old(file), old(tasks[t].reply)) else old(file)
    {
      var task := tasks[t];
      var auth := file;
      if auth.refresh != task.spent.refresh || auth.access != task.spent.access {
        EndTask(t);
        return false;
      }
      tasks := tasks[t := Writing(task.spent, task.index, task.reply, false)];
      if task.reply.access != "" {
        auth := auth.(access := task.reply.access);
      }
      if task.reply.refresh != "" {
        auth := auth.(refresh := task.reply.refresh);
      }
      if ok {
        file := auth;
      }
      EndTask(t);
      return true;
    }
  }
}
