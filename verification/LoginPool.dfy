/**
 The sign-in operations as the pool carries them out, field by field under its lock.
 */
module LoginPool {
  import opened Basics
  import opened Login

  datatype Started = Refused | Adopted(job: string) | Begun | StorageFailed

  class Pool {
    var accounts: map<Id, Account>
    var jobs: map<string, Job>
    var tasks: map<string, Task>

    ghost function State(): State
      reads this
    {
      Login.State(accounts, jobs, tasks)
    }

    method WriteConfigFile()
      modifies this`accounts
      ensures State() == WriteAll(old(State()), true, false)
    {
      accounts := map id | id in accounts :: ConfigWritten(accounts[id]);
    }

    method WriteRuntimeFile()
      modifies this`accounts
      ensures State() == WriteAll(old(State()), false, true)
    {
      accounts := map id | id in accounts :: RuntimeWritten(accounts[id]);
    }

    /** config.json, then runtime.json: the first failure ends it. */
    method SaveBoth(fault: Fault) returns (ok: bool)
      modifies this`accounts
      ensures (State(), ok) == Save(old(State()), fault)
    {
      ghost var before := State();
      NothingWritten(before);
      if fault == FirstFails {
        return false;
      }
      WriteConfigFile();
      if fault == SecondFails {
        return false;
      }
      WriteRuntimeFile();
      BothWritten(before);
      return true;
    }

    /** runtime.json, then config.json. */
    method SaveCompletedVerification(fault: Fault) returns (ok: bool)
      modifies this`accounts
      ensures (State(), ok) == SaveCompleted(old(State()), fault)
    {
      ghost var before := State();
      NothingWritten(before);
      if fault == FirstFails {
        return false;
      }
      WriteRuntimeFile();
      if fault == SecondFails {
        return false;
      }
      WriteConfigFile();
      BothWritten(before);
      return true;
    }

    method FindActive() returns (found: Option<string>)
      ensures Seen(State(), found)
    {
      var left := jobs.Keys;
      while left != {}
        invariant left <= jobs.Keys
        invariant forall j :: j in jobs && j !in left ==> !Active(jobs[j].status)
      {
        var j :| j in left;
        if Active(jobs[j].status) {
          return Some(j);
        }
        left := left - {j};
      }
      return None;
    }

    /** `start_login_job_with_policy`. */
    method Start(id: Id, publicRepair: bool, job: string, fault: Fault) returns (r: Started, found: Option<string>)
      requires job !in jobs && (publicRepair && id in accounts ==> accounts[id].checked)
      modifies this
      ensures State() == StartStep(old(State()), id, publicRepair, found, job, fault)
      ensures Seen(old(State()), found)
      ensures r == Begun <==> job in jobs
      ensures r == Begun ==> old(id in accounts && !HasActive(State()))
      ensures forall j :: r == Adopted(j) ==> found == Some(j) && jobs[j].account == id && (publicRepair ==> jobs[j].publicRepair)
    {
      found := FindActive();
      if id !in accounts {
        return Refused, found;
      }
      var slot := accounts[id].slot;
      match found {
        case Some(j) =>
          if jobs[j].account != id || (publicRepair && !jobs[j].publicRepair) {
            return Refused, found;
          }
          if !slot.pending {
            slot := slot.(pending := true);
            slot := slot.(expected := Trim(slot.accountId));
            accounts := accounts[id := accounts[id].(slot := slot)];
            var ok := SaveBoth(fault);
            if !ok {
              return StorageFailed, found;
            }
          }
          return Adopted(j), found;
        case None =>
          var expected := if slot.pending then Trim(slot.expected) else Trim(slot.accountId);
          var reauthentication := HasPriorIdentity(accounts[id]);
          if !slot.pending {
            slot := slot.(pending := true, expected := expected);
          }
          accounts := accounts[id := accounts[id].(slot := slot)];
          var ok := SaveBoth(fault);
          if !ok {
            return StorageFailed, found;
          }
          jobs := jobs[job := Job(id, publicRepair, reauthentication, Running, false)];
          tasks := tasks[job := Task(id, expected, reauthentication, publicRepair, false, false, Preparing)];
          return Begun, found;
      }
    }

    method SetStatus(j: string, status: Status)
      requires j in jobs
      modifies this`jobs
      ensures jobs == old(jobs)[j := old(jobs[j]).(status := status)]
    {
      jobs := jobs[j := jobs[j].(status := status)];
    }

    method SetPhase(j: string, phase: Phase)
      requires j in tasks
      modifies this`tasks
      ensures tasks == old(tasks)[j := old(tasks[j]).(phase := phase)]
    {
      tasks := tasks[j := tasks[j].(phase := phase)];
    }

    /** `cancel_login_job`. */
    method CancelJob(j: string) returns (found: bool)
      modifies this`jobs
      ensures State() == CancelStep(old(State()), j) && found == (j in old(jobs))
    {
      if j !in jobs {
        return false;
      }
      var status := jobs[j].status;
      if !(status == Completed || status == Failed || status == Cancelled || status == Cancelling) {
        SetStatus(j, Cancelling);
      }
      return true;
    }

    /** `update_login_job`, with the status the prompt sets. */
    method UpdateJob(j: string)
      modifies this`jobs
      ensures State() == PromptStep(old(State()), j)
    {
      if j !in jobs {
        return;
      }
      var status := jobs[j].status;
      if CancelRequested(status) || status == Completed || status == Failed {
        return;
      }
      SetStatus(j, WaitingForUser);
    }

    /** `finish_login_job`, the last thing a task does. */
    method FinishJob(j: string)
      requires j in tasks && tasks[j].phase.Finishing? && TasksHaveJobs(State())
      modifies this`jobs, this`tasks
      ensures State() == FinishStep(old(State()), j)
    {
      var outcome := tasks[j].phase.outcome;
      tasks := tasks - {j};
      if CancelRequested(jobs[j].status) && outcome != Cancelled {
        return;
      }
      SetStatus(j, outcome);
    }

    /** `apply_completed_device_auth`: says whether history was reset. */
    method ApplyCompletedDeviceAuth(id: Id, read: string, labelled: bool, expected: string, reauthentication: bool)
      returns (reset: bool)
      requires id in accounts
      modifies this`accounts
      ensures reset == ChangedIdentity(read, expected, reauthentication)
      ensures accounts == old(accounts)[id := WithRead(old(accounts[id]), read, labelled, reset)]
    {
      reset := ChangedIdentity(read, expected, reauthentication);
      var a := accounts[id];
      if reset {
        a := a.(history := {});
      }
      var slot := a.slot;
      if reset {
        slot := slot.(accountId := Trim(read), labelled := labelled);
      } else {
        if read != "" {
          slot := slot.(accountId := Trim(read));
        }
        slot := slot.(labelled := slot.labelled || labelled);
      }
      slot := slot.(signedIn := true);
      accounts := accounts[id := a.(slot := slot, credential := read)];
    }

    /** A credential that may be accepted becomes the slot's, in memory. */
    method AcceptRead(j: string, read: string, labelled: bool)
      requires j in tasks && TasksHaveJobs(State())
      modifies this
      ensures State() == ApplyRead(old(State()), j, read, labelled)
    {
      hide ChangedIdentity, WithRead;
      var task := tasks[j];
      task := task.(activate := accounts[task.account].slot.activate);
      var reset := ApplyCompletedDeviceAuth(task.account, read, labelled, task.expected, task.reauthentication);
      jobs := jobs[j := jobs[j].(historyReset := reset)];
      tasks := tasks[j := task.(historyReset := reset, phase := Applied)];
    }

    /** The finalization of `run_login_job`, up to the end of its lock. */
    method FinalizeJob(j: string, read: Option<string>, labelled: bool, fault: Fault)
      requires j in tasks && tasks[j].phase == Exited && TasksHaveJobs(State())
      modifies this
      ensures State() == FinalizeStep(old(State()), j, read, labelled, fault)
    {
      hide ChangedIdentity, WriteAll, ApplyRead;
      var task := tasks[j];
      if CancelRequested(jobs[j].status) {
        SetPhase(j, Finishing(Cancelled));
        return;
      }
      SetStatus(j, Finalizing);
      match read {
        case None =>
          SetPhase(j, Finishing(Failed));
        case Some(found) =>
          if task.publicRepair && ChangedIdentity(found, task.expected, task.reauthentication) {
            SetPhase(j, Finishing(Failed));
          } else {
            AcceptRead(j, found, labelled);
            ReadHasTask(WithJob(old(State()), j, Finalizing), j, found, labelled, fault);
            var ok := SaveBoth(fault);
            if !ok {
              SetPhase(j, Finishing(Failed));
            }
          }
      }
    }

    /** The identity found last decides what the slot keeps; then its gate opens, in memory. */
    method OpenInMemory(j: string)
      requires j in tasks && TasksHaveJobs(State())
      modifies this
      ensures State() == OpenGate(old(State()), j)
    {
      hide ChangedIdentity;
      var task := tasks[j];
      var a := accounts[task.account];
      if ChangedIdentity(a.slot.accountId, task.expected, task.reauthentication) && !task.historyReset {
        a := a.(history := {});
        task := task.(historyReset := true);
        jobs := jobs[j := jobs[j].(historyReset := true)];
      }
      var slot := a.slot.(pending := false, expected := "");
      if task.activate {
        slot := slot.(enabled := true, inPool := true, activate := false);
      }
      accounts := accounts[task.account := a.(slot := slot)];
      tasks := tasks[j := task];
    }

    /** The release of `run_login_job`: the last look at the identity, and the gate. */
    method ReleaseGate(j: string, fault: Fault)
      requires j in tasks && tasks[j].phase == Releasing && TasksHaveJobs(State())
      modifies this
      ensures State() == ReleaseStep(old(State()), j, fault)
    {
      hide ChangedIdentity, WriteAll, OpenGate;
      var task := tasks[j];
      if task.publicRepair && ChangedIdentity(accounts[task.account].slot.accountId, task.expected, task.reauthentication) {
        SetPhase(j, Finishing(Failed));
        return;
      }
      OpenInMemory(j);
      OpenHasTask(old(State()), j, fault);
      var ok := SaveCompletedVerification(fault);
      if ok {
        SetPhase(j, Finishing(Completed));
      } else {
        var slot := accounts[task.account].slot.(pending := true, expected := task.expected);
        accounts := accounts[task.account := accounts[task.account].(slot := slot)];
        SetPhase(j, Finishing(Failed));
      }
    }
  }

  lemma ReadHasTask(s: State, j: string, read: string, labelled: bool, fault: Fault)
    requires TasksHaveJobs(s) && j in s.tasks
    ensures var t := Save(ApplyRead(s, j, read, labelled), fault).0;
      j in t.tasks && TasksHaveJobs(t) && j in ApplyRead(s, j, read, labelled).tasks
  {
    hide ChangedIdentity, WithRead;
  }

  lemma OpenHasTask(s: State, j: string, fault: Fault)
    requires TasksHaveJobs(s) && j in s.tasks
    ensures var o := OpenGate(s, j);
      && j in o.tasks && o.tasks[j].account == s.tasks[j].account && o.tasks[j].expected == s.tasks[j].expected
      && SaveCompleted(o, fault).0.accounts.Keys == s.accounts.Keys && SaveCompleted(o, fault).0.tasks == o.tasks
  {
    hide ChangedIdentity, Opened;
  }

  lemma NothingWritten(s: State)
    ensures WriteAll(s, false, false) == s
  {
  }

  lemma BothWritten(s: State)
    ensures WriteAll(WriteAll(s, true, false), false, true) == WriteAll(s, true, true)
    ensures WriteAll(WriteAll(s, false, true), true, false) == WriteAll(s, true, true)
  {
    hide Written;
    forall id | id in s.accounts
      ensures Written(Written(s.accounts[id], true, false), false, true) == Written(s.accounts[id], true, true)
      ensures Written(Written(s.accounts[id], false, true), true, false) == Written(s.accounts[id], true, true)
    {
      WrittenTwice(s.accounts[id]);
    }
  }

  lemma WrittenTwice(a: Account)
    ensures Written(Written(a, true, false), false, true) == Written(a, true, true)
    ensures Written(Written(a, false, true), true, false) == Written(a, true, true)
  {
  }
}
