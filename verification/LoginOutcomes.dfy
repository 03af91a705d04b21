/**
 What a sign-in comes to, exactly: which history it keeps, what it writes, and how it ends.
 */
module LoginOutcomes {
  import opened Basics
  import opened Login
  import opened LoginRuns

  /** The identity is another one, where there was one to reproduce. */
  predicate Other(task: Task, found: string)
  {
    task.reauthentication && !Same(found, task.expected)
  }

  lemma OtherIsChanged(task: Task, found: string)
    ensures ChangedIdentity(found, task.expected, task.reauthentication) <==> Other(task, found)
  {
    hide Trim;
  }

  /** A sign-in whose program succeeded and whose job nobody cancelled. */
  predicate AtExit(s: State, j: string)
  {
    && j in s.tasks && j in s.jobs && s.tasks[j].account in s.accounts
    && s.tasks[j].phase == Exited && !CancelRequested(s.jobs[j].status)
  }

  /**
   Finalizing in any run. A public repair that finds another identity changes no slot and fails. Every
   other sign-in names the slot after what it found, and its history goes exactly where another
   identity was to be reproduced; with both files written the task goes on, otherwise it fails.
   */
  lemma FinalizeExactly(start: State, steps: seq<Step>, j: string, read: string, labelled: bool, fault: Fault)
    requires Initial(start) && AtExit(Run(start, steps), j)
    ensures var s, t := Run(start, steps), Next(Run(start, steps), Finalize(j, Some(read), labelled, fault));
      var task := s.tasks[j];
      var other := task.reauthentication && !Same(read, task.expected);
      && t.accounts.Keys == s.accounts.Keys
      && if task.publicRepair && other then
           && t.accounts == s.accounts && t.jobs == s.jobs[j := s.jobs[j].(status := Finalizing)]
           && t.tasks == s.tasks[j := task.(phase := Finishing(Failed))]
         else
           && t.jobs == s.jobs[j := s.jobs[j].(status := Finalizing, historyReset := other)]
           && t.tasks == s.tasks[j := task.(activate := s.accounts[task.account].slot.activate, historyReset := other,
                                            phase := if fault == NoFault then Applied else Finishing(Failed))]
           && ReadInto(s.accounts[task.account], t.accounts[task.account], read, labelled, other, fault)
           && forall id :: id in s.accounts && id != task.account ==> SavedOnly(s.accounts[id], t.accounts[id], fault)
  {
    hide Trim, Run, Initial, Same, Active, Inv, ReadInto, SavedOnly, Next;
    var s := Run(start, steps);
    JobsInRun(start, steps);
    OtherIsChanged(s.tasks[j], read);
    FinalizeIs(s, j, read, labelled, fault);
  }

  /** A slot before and after: its new name, the history it keeps, and what of it is on disk. */
  predicate ReadInto(a: Account, b: Account, read: string, labelled: bool, other: bool, fault: Fault)
  {
    && b.slot.accountId == (if other || read != "" then Trim(read) else a.slot.accountId)
    && b.slot.labelled == (labelled || (!other && a.slot.labelled))
    && b.slot.signedIn && b.slot.pending == a.slot.pending && b.slot.expected == a.slot.expected
    && b.slot.enabled == a.slot.enabled && b.slot.inPool == a.slot.inPool && b.slot.activate == a.slot.activate
    && b.history == (if other then {} else a.history)
    && b.disk == (if fault == FirstFails then a.disk else b.slot)
    && b.diskHistory == (if fault == NoFault then b.history else a.diskHistory)
    && b.credential == read && b.checked == a.checked
  }

  /** What a save does to every other slot: config.json first, then runtime.json. */
  predicate SavedOnly(a: Account, b: Account, fault: Fault)
  {
    && b.slot == a.slot && b.history == a.history && b.checked == a.checked && b.credential == a.credential
    && b.disk == (if fault == FirstFails then a.disk else a.slot)
    && b.diskHistory == (if fault == NoFault then a.history else a.diskHistory)
  }

  lemma JobsInRun(start: State, steps: seq<Step>)
    requires Initial(start)
    ensures TasksHaveJobs(Run(start, steps))
  {
    hide Run, Initial, TasksHaveJobs, AccountOk, TaskOk;
    Reachable(start, steps);
  }

  /** What the result of the program makes of memory. */
  lemma AppliedIs(s: State, j: string, read: string, labelled: bool)
    requires TasksHaveJobs(s) && j in s.tasks
    ensures TasksHaveJobs(WithJob(s, j, Finalizing))
    ensures var u := AppliedState(s, j, read, labelled);
      var task := s.tasks[j];
      var other := ChangedIdentity(read, task.expected, task.reauthentication);
      && u.accounts == s.accounts[task.account := WithRead(s.accounts[task.account], read, labelled, other)]
      && u.jobs == s.jobs[j := s.jobs[j].(status := Finalizing, historyReset := other)]
      && u.tasks == s.tasks[j := task.(activate := s.accounts[task.account].slot.activate, historyReset := other, phase := Applied)]
  {
    hide Trim, ChangedIdentity, Active, WithRead;
  }

  lemma ReadWritten(a: Account, read: string, labelled: bool, other: bool, fault: Fault)
    ensures ReadInto(a, Written(WithRead(a, read, labelled, other), fault != FirstFails, fault == NoFault), read, labelled,
                     other, fault)
  {
    hide Trim;
  }

  lemma SavedWritten(a: Account, fault: Fault)
    ensures SavedOnly(a, Written(a, fault != FirstFails, fault == NoFault), fault)
  {
  }

  lemma WroteAll(s: State, config: bool, runtime: bool)
    ensures var t := WriteAll(s, config, runtime);
      && t.jobs == s.jobs && t.tasks == s.tasks && t.accounts.Keys == s.accounts.Keys
      && forall id :: id in s.accounts ==> t.accounts[id] == Written(s.accounts[id], config, runtime)
  {
    hide Written;
  }

  lemma StepsAre(s: State, j: string, read: Option<string>, labelled: bool, fault: Fault)
    requires TasksHaveJobs(s)
    ensures Next(s, Finalize(j, read, labelled, fault)) == FinalizeStep(s, j, read, labelled, fault)
    ensures Next(s, Release(j, fault)) == ReleaseStep(s, j, fault)
  {
    hide TasksHaveJobs, FinalizeStep, ReleaseStep;
  }

  lemma FinalizeIs(s: State, j: string, read: string, labelled: bool, fault: Fault)
    requires TasksHaveJobs(s) && AtExit(s, j)
    ensures var t := Next(s, Finalize(j, Some(read), labelled, fault));
      var task := s.tasks[j];
      var other := ChangedIdentity(read, task.expected, task.reauthentication);
      && t.accounts.Keys == s.accounts.Keys
      && if task.publicRepair && other then
           && t.accounts == s.accounts && t.jobs == s.jobs[j := s.jobs[j].(status := Finalizing)]
           && t.tasks == s.tasks[j := task.(phase := Finishing(Failed))]
         else
           && t.jobs == s.jobs[j := s.jobs[j].(status := Finalizing, historyReset := other)]
           && t.tasks == s.tasks[j := task.(activate := s.accounts[task.account].slot.activate, historyReset := other,
                                            phase := if fault == NoFault then Applied else Finishing(Failed))]
           && ReadInto(s.accounts[task.account], t.accounts[task.account], read, labelled, other, fault)
           && forall id :: id in s.accounts && id != task.account ==> SavedOnly(s.accounts[id], t.accounts[id], fault)
  {
    hide Trim, ChangedIdentity, Active, AppliedState, WriteAll, Written, WithRead, ReadInto, SavedOnly, TasksHaveJobs, Next;
    var task, u := s.tasks[j], AppliedState(s, j, read, labelled);
    FinalizeSplit(s, j, read, labelled, fault);
    AppliedIs(s, j, read, labelled);
    WroteAll(u, fault != FirstFails, fault == NoFault);
    SetTwice(s.tasks, j, u.tasks[j], u.tasks[j].(phase := Finishing(Failed)));
    ReadWritten(s.accounts[task.account], read, labelled,
                ChangedIdentity(read, task.expected, task.reauthentication), fault);
    forall id | id in s.accounts && id != task.account
      ensures SavedOnly(s.accounts[id], Written(u.accounts[id], fault != FirstFails, fault == NoFault), fault)
    {
      SavedWritten(s.accounts[id], fault);
    }
  }

  lemma SetTwice<K, V>(m: map<K, V>, k: K, x: V, y: V)
    ensures m[k := x][k := y] == m[k := y]
  {
  }

  function AppliedState(s: State, j: string, read: string, labelled: bool): State
    requires TasksHaveJobs(s) && j in s.tasks
  {
    ApplyRead(WithJob(s, j, Finalizing), j, read, labelled)
  }

  lemma FinalizeSplit(s: State, j: string, read: string, labelled: bool, fault: Fault)
    requires TasksHaveJobs(s) && AtExit(s, j)
    ensures var t, task := Next(s, Finalize(j, Some(read), labelled, fault)), s.tasks[j];
      if task.publicRepair && ChangedIdentity(read, task.expected, task.reauthentication) then
        && t.accounts == s.accounts && t.jobs == s.jobs[j := s.jobs[j].(status := Finalizing)]
        && t.tasks == s.tasks[j := task.(phase := Finishing(Failed))]
      else
        var saved := WriteAll(AppliedState(s, j, read, labelled), fault != FirstFails, fault == NoFault);
        && t.accounts == saved.accounts && t.jobs == saved.jobs && j in saved.tasks
        && t.tasks == if fault == NoFault then saved.tasks else saved.tasks[j := saved.tasks[j].(phase := Finishing(Failed))]
  {
    hide ChangedIdentity, Active, ApplyRead, WriteAll, Next;
    StepsAre(s, j, Some(read), labelled, fault);
    AppliedIs(s, j, read, labelled);
    WroteAll(AppliedState(s, j, read, labelled), fault != FirstFails, fault == NoFault);
  }

  /** The task has passed the last look for a cancellation. */
  predicate AtRelease(s: State, j: string)
  {
    j in s.tasks && j in s.jobs && s.tasks[j].account in s.accounts && s.tasks[j].phase == Releasing
  }

  /**
   Releasing in any run. A public repair whose slot has another identity by now changes nothing and
   fails. Every other sign-in whose writes succeed opens the gate, in memory and on disk, and its
   history goes exactly where the identity is another one and it has not gone before. A write that
   fails leaves the gate closed on disk and closes it in memory, for the identity expected.
   */
  lemma ReleaseExactly(start: State, steps: seq<Step>, j: string, fault: Fault)
    requires Initial(start) && AtRelease(Run(start, steps), j)
    ensures var s, t := Run(start, steps), Next(Run(start, steps), Release(j, fault));
      var task := s.tasks[j];
      var id := task.account;
      var other := task.reauthentication && !Same(s.accounts[id].slot.accountId, task.expected);
      && id in t.accounts && s.accounts[id].disk.pending
      && if task.publicRepair && other then
           t.accounts == s.accounts && t.jobs == s.jobs && t.tasks == s.tasks[j := task.(phase := Finishing(Failed))]
         else
           var again := other && !task.historyReset;
           && Released(s.accounts[id], t.accounts[id], task, again, fault)
           && t.jobs == s.jobs[j := s.jobs[j].(historyReset := s.jobs[j].historyReset || again)]
           && t.tasks == s.tasks[j := task.(historyReset := task.historyReset || again,
                                            phase := Finishing(if fault == NoFault then Completed else Failed))]
  {
    hide Trim, Run, Initial, Same, Active, Inv, Released, Next;
    var s := Run(start, steps);
    JobsInRun(start, steps);
    OtherIsChanged(s.tasks[j], s.accounts[s.tasks[j].account].slot.accountId);
    TaskInRun(start, steps, j);
    ReleaseIs(s, j, fault);
  }

  predicate Released(a: Account, b: Account, task: Task, cleared: bool, fault: Fault)
  {
    && b.history == (if cleared then {} else a.history)
    && b.slot.accountId == a.slot.accountId && b.slot.labelled == a.slot.labelled && b.slot.signedIn == a.slot.signedIn
    && b.slot.enabled == (a.slot.enabled || task.activate) && b.slot.inPool == (a.slot.inPool || task.activate)
    && b.slot.activate == (a.slot.activate && !task.activate)
    && (fault == NoFault ==> !b.slot.pending && b.slot.expected == "" && b.disk == b.slot)
    && (fault != NoFault ==> b.slot.pending && b.slot.expected == task.expected && b.disk == a.disk)
    && b.diskHistory == (if fault == FirstFails then a.diskHistory else b.history)
    && b.credential == a.credential && b.checked == a.checked
    && (a.disk.pending && fault == NoFault ==>
          b.openings == a.openings + [Opening(a.disk.expected, a.credential, a.slot.accountId)])
    && (fault != NoFault ==> b.openings == a.openings)
  }

  lemma ReleaseIs(s: State, j: string, fault: Fault)
    requires TasksHaveJobs(s) && AtRelease(s, j)
    ensures var t := Next(s, Release(j, fault));
      var task := s.tasks[j];
      var id := task.account;
      var other := ChangedIdentity(s.accounts[id].slot.accountId, task.expected, task.reauthentication);
      && id in t.accounts
      && if task.publicRepair && other then
           t.accounts == s.accounts && t.jobs == s.jobs && t.tasks == s.tasks[j := task.(phase := Finishing(Failed))]
         else
           var again := other && !task.historyReset;
           && Released(s.accounts[id], t.accounts[id], task, again, fault)
           && t.jobs == s.jobs[j := s.jobs[j].(historyReset := s.jobs[j].historyReset || again)]
           && t.tasks == s.tasks[j := task.(historyReset := task.historyReset || again,
                                            phase := Finishing(if fault == NoFault then Completed else Failed))]
  {
    hide Trim, ChangedIdentity, Active, OpenGate, WriteAll, Written, Opened, Released, TasksHaveJobs, Next;
    var task, o := s.tasks[j], OpenGate(s, j);
    ReleaseSplit(s, j, fault);
    OpenedIs(s, j);
    WroteAll(o, fault == NoFault, fault != FirstFails);
    var a := s.accounts[task.account];
    var other := ChangedIdentity(a.slot.accountId, task.expected, task.reauthentication);
    SetTwice(s.tasks, j, o.tasks[j], o.tasks[j].(phase := Finishing(if fault == NoFault then Completed else Failed)));
    OpenedWritten(a, o.accounts[task.account], task, other && !task.historyReset, fault);
  }

  lemma ReleaseSplit(s: State, j: string, fault: Fault)
    requires TasksHaveJobs(s) && AtRelease(s, j)
    ensures var t, task := Next(s, Release(j, fault)), s.tasks[j];
      if task.publicRepair && ChangedIdentity(s.accounts[task.account].slot.accountId, task.expected, task.reauthentication) then
        t.accounts == s.accounts && t.jobs == s.jobs && t.tasks == s.tasks[j := task.(phase := Finishing(Failed))]
      else
        var saved := WriteAll(OpenGate(s, j), fault == NoFault, fault != FirstFails);
        && t.jobs == saved.jobs && j in saved.tasks && task.account in saved.accounts && task.account in t.accounts
        && t.accounts[task.account] == (if fault == NoFault then saved.accounts[task.account]
             else saved.accounts[task.account].(slot := saved.accounts[task.account].slot.(pending := true, expected := task.expected)))
        && t.tasks == saved.tasks[j := saved.tasks[j].(phase := Finishing(if fault == NoFault then Completed else Failed))]
  {
    hide ChangedIdentity, Active, OpenGate, WriteAll, Next, Opened;
    StepsAre(s, j, None, false, fault);
    OpenedIs(s, j);
    WroteAll(OpenGate(s, j), fault == NoFault, fault != FirstFails);
  }

  lemma OpenedIs(s: State, j: string)
    requires TasksHaveJobs(s) && j in s.tasks
    ensures var o, task := OpenGate(s, j), s.tasks[j];
      var a := s.accounts[task.account];
      var again := ChangedIdentity(a.slot.accountId, task.expected, task.reauthentication) && !task.historyReset;
      && o.accounts == s.accounts[task.account :=
           a.(slot := Opened(a.slot, task.activate), history := if again then {} else a.history)]
      && o.jobs == s.jobs[j := s.jobs[j].(historyReset := s.jobs[j].historyReset || again)]
      && o.tasks == s.tasks[j := task.(historyReset := task.historyReset || again)]
  {
    hide ChangedIdentity, Opened;
    var again := ChangedIdentity(s.accounts[s.tasks[j].account].slot.accountId, s.tasks[j].expected, s.tasks[j].reauthentication)
      && !s.tasks[j].historyReset;
    if !again {
      assert s.jobs == s.jobs[j := s.jobs[j]];
    }
  }

  lemma OpenedWritten(a: Account, o: Account, task: Task, cleared: bool, fault: Fault)
    requires o == a.(slot := Opened(a.slot, task.activate), history := if cleared then {} else a.history)
    ensures var w := Written(o, fault == NoFault, fault != FirstFails);
      var b := if fault == NoFault then w else w.(slot := w.slot.(pending := true, expected := task.expected));
      Released(a, b, task, cleared, fault)
  {
  }

  // ---- starting ----

  predicate Closes(a: Account, b: Account, fault: Fault)
  {
    && b.slot == a.slot.(pending := true, expected := if a.slot.pending then a.slot.expected else Trim(a.slot.accountId))
    && b.history == a.history
    && b.disk == (if fault == FirstFails then a.disk else b.slot)
    && b.diskHistory == (if fault == NoFault then b.history else a.diskHistory)
  }

  /**
   Starting, in any run, while no job is active. The gate closes for the identity it was closed for
   before, or else for the one the slot has; the sign-in must reproduce it if the slot ever had one. A
   write that fails starts nothing and leaves the gate closed in memory.
   */
  lemma StartExactly(start: State, steps: seq<Step>, id: Id, publicRepair: bool, job: string, fault: Fault)
    requires Initial(start)
    requires var s := Run(start, steps);
      !HasActive(s) && id in s.accounts && job !in s.jobs && (publicRepair ==> s.accounts[id].checked)
    ensures var s, t := Run(start, steps), Next(Run(start, steps), Start(id, publicRepair, None, job, fault));
      var a := s.accounts[id];
      var prior := Trim(a.slot.accountId) != "" || a.slot.labelled || a.slot.signedIn || a.history != {};
      && id in t.accounts && Closes(a, t.accounts[id], fault)
      && (fault != NoFault ==> t.jobs == s.jobs && t.tasks == s.tasks)
      && (fault == NoFault ==>
            && t.jobs == s.jobs[job := Job(id, publicRepair, prior, Running, false)]
            && t.tasks == s.tasks[job := Task(id, Trim(if a.slot.pending then a.slot.expected else a.slot.accountId), prior,
                                              publicRepair, false, false, Preparing)])
  {
    hide Trim, Run, Initial, Closes, HasActive;
    JobsInRun(start, steps);
    StartIs(Run(start, steps), id, publicRepair, job, fault);
  }

  lemma StartIs(s: State, id: Id, publicRepair: bool, job: string, fault: Fault)
    requires TasksHaveJobs(s) && !HasActive(s) && id in s.accounts && job !in s.jobs && (publicRepair ==> s.accounts[id].checked)
    ensures var t := Next(s, Start(id, publicRepair, None, job, fault));
      var a := s.accounts[id];
      && id in t.accounts && Closes(a, t.accounts[id], fault)
      && (fault != NoFault ==> t.jobs == s.jobs && t.tasks == s.tasks)
      && (fault == NoFault ==>
            && t.jobs == s.jobs[job := Job(id, publicRepair, HasPriorIdentity(a), Running, false)]
            && t.tasks == s.tasks[job := Task(id, ExpectedOf(a.slot), HasPriorIdentity(a), publicRepair, false, false, Preparing)])
  {
    hide Trim, HasActive, WriteAll, HasPriorIdentity, Written, Closes, TasksHaveJobs, Closed, ExpectedOf;
    WroteAll(WithSlot(s, id, Closed(s.accounts[id].slot)), fault != FirstFails, fault == NoFault);
    ClosedWritten(s.accounts[id], fault);
  }

  lemma ClosedWritten(a: Account, fault: Fault)
    ensures Closes(a, Written(a.(slot := Closed(a.slot)), fault != FirstFails, fault == NoFault), fault)
  {
    hide Trim;
  }

  // ---- from start to end ----

  /** The other steps of a sign-in that goes well. */
  lemma Moves(s: State, j: string)
    requires TasksHaveJobs(s) && j in s.tasks && !CancelRequested(s.jobs[j].status)
    ensures var phase := s.tasks[j].phase;
      && (phase == Preparing ==> Next(s, Prepare(j, true)) == WithPhase(s, j, Cli))
      && (phase == Cli ==> Next(s, CliExit(j, true)) == WithPhase(s, j, Exited))
      && (phase == Applied ==> Next(s, Continue(j)) == WithPhase(s, j, Refreshing))
      && (phase == Refreshing ==> Next(s, RefreshEnds(j, false)) == WithPhase(s, j, Refreshed))
      && (phase == Refreshed ==> Next(s, Continue(j)) == WithPhase(s, j, Releasing))
    ensures s.tasks[j].phase == Finishing(Completed) ==>
      Next(s, Finish(j)) == State(s.accounts, s.jobs[j := s.jobs[j].(status := Completed)], s.tasks - {j})
  {
    hide TasksHaveJobs;
  }

  function SignIn(id: Id, publicRepair: bool, job: string, read: string, labelled: bool): seq<Step>
  {
    Program(id, publicRepair, job) + Ending(job, read, labelled)
  }

  function Program(id: Id, publicRepair: bool, job: string): seq<Step>
  {
    [Start(id, publicRepair, None, job, NoFault), Prepare(job, true), CliExit(job, true)]
  }

  function Ending(job: string, read: string, labelled: bool): seq<Step>
  {
    [Finalize(job, Some(read), labelled, NoFault), Continue(job), RefreshEnds(job, false), Continue(job),
     Release(job, NoFault), Finish(job)]
  }

  /** The task that is there once the program has exited. */
  lemma ProgramExits(start: State, steps: seq<Step>, id: Id, publicRepair: bool, job: string)
    requires Initial(start)
    requires var s := Run(start, steps);
      !HasActive(s) && id in s.accounts && job !in s.jobs && (publicRepair ==> s.accounts[id].checked)
    ensures var s, t := Run(start, steps), Run(start, steps + Program(id, publicRepair, job));
      var a := s.accounts[id];
      && AtExit(t, job) && id in t.accounts && Closes(a, t.accounts[id], NoFault)
      && t.tasks[job] == Task(id, ExpectedOf(a.slot), HasPriorIdentity(a), publicRepair, false, false, Exited)
      && t.tasks.Keys == s.tasks.Keys + {job}
  {
    hide Run, Initial, HasActive, Trim, HasPriorIdentity, ExpectedOf, Closes, Next, TasksHaveJobs;
    JobsInRun(start, steps);
    StartIs(Run(start, steps), id, publicRepair, job, NoFault);
    var began := OneMoreStep(start, steps, Start(id, publicRepair, None, job, NoFault));
    JobsInRun(start, began);
    Moves(Run(start, began), job);
    var prepared := OneMoreStep(start, began, Prepare(job, true));
    JobsInRun(start, prepared);
    Moves(Run(start, prepared), job);
    var exited := OneMoreStep(start, prepared, CliExit(job, true));
    assert exited == steps + Program(id, publicRepair, job);
  }

  /** The identity found is the one the slot then has, so it is looked at twice with one result. */
  lemma FoundAgain(task: Task, a: Account, b: Account, read: string, labelled: bool)
    requires ReadInto(a, b, read, labelled, task.reauthentication && !Same(read, task.expected), NoFault)
    ensures task.reauthentication && Same(read, task.expected) ==> Same(b.slot.accountId, task.expected)
  {
    hide Trim;
    TrimTwice(read);
    EmptyTrim();
  }

  lemma EmptyTrim()
    ensures Trim("") == ""
  {
  }

  predicate SignedIn(a: Account, b: Account, read: string, cleared: bool)
  {
    && !b.slot.pending && !b.disk.pending && b.disk == b.slot
    && b.slot.accountId == (if cleared || read != "" then Trim(read) else a.slot.accountId) && b.slot.signedIn
    && b.slot.enabled == (a.slot.enabled || a.slot.activate) && b.slot.inPool == (a.slot.inPool || a.slot.activate)
    && b.history == (if cleared then {} else a.history) && b.diskHistory == b.history
  }

  lemma EndingCompletes(start: State, steps: seq<Step>, job: string, read: string, labelled: bool)
    requires Initial(start) && AtExit(Run(start, steps), job)
    requires var task := Run(start, steps).tasks[job];
      task.publicRepair ==> !(task.reauthentication && !Same(read, task.expected))
    ensures var s, t := Run(start, steps), Run(start, steps + Ending(job, read, labelled));
      var task := s.tasks[job];
      && task.account in t.accounts && job in t.jobs && t.jobs[job].status == Completed && t.tasks == s.tasks - {job}
      && SignedIn(s.accounts[task.account], t.accounts[task.account], read, task.reauthentication && !Same(read, task.expected))
  {
    hide Run, Initial, Same, Next, TasksHaveJobs, Trim, SignedIn;
    var released := ThroughRelease(start, steps, job, read, labelled);
    JobsInRun(start, released);
    Moves(Run(start, released), job);
    SetThenGone(Run(start, steps).tasks, job, Run(start, released).tasks[job]);
    var finished := OneMoreStep(start, released, Finish(job));
    assert finished == steps + Ending(job, read, labelled);
  }

  lemma SetThenGone<K, V>(m: map<K, V>, k: K, x: V)
    ensures m[k := x] - {k} == m - {k}
  {
  }

  lemma ThroughRelease(start: State, steps: seq<Step>, job: string, read: string, labelled: bool) returns (released: seq<Step>)
    requires Initial(start) && AtExit(Run(start, steps), job)
    requires var task := Run(start, steps).tasks[job];
      task.publicRepair ==> !(task.reauthentication && !Same(read, task.expected))
    ensures released == steps + [Finalize(job, Some(read), labelled, NoFault), Continue(job), RefreshEnds(job, false),
                                 Continue(job), Release(job, NoFault)]
    ensures var s, t := Run(start, steps), Run(start, released);
      var task := s.tasks[job];
      && task.account in t.accounts && job in t.jobs && t.jobs[job].status == Finalizing
      && job in t.tasks && t.tasks == s.tasks[job := t.tasks[job]] && t.tasks[job].phase == Finishing(Completed)
      && SignedIn(s.accounts[task.account], t.accounts[task.account], read, task.reauthentication && !Same(read, task.expected))
  {
    hide Run, Initial, Same, Next, TasksHaveJobs, Trim, ReadInto, SavedOnly, Released, SignedIn;
    var s := Run(start, steps);
    var task := s.tasks[job];
    FinalizeExactly(start, steps, job, read, labelled, NoFault);
    var applied := OneMoreStep(start, steps, Finalize(job, Some(read), labelled, NoFault));
    var b := Run(start, applied).accounts[task.account];
    FoundAgain(task, s.accounts[task.account], b, read, labelled);
    var releasing := Refreshes(start, applied, job);
    var last := Run(start, releasing).tasks[job];
    SetTwice(s.tasks, job, Run(start, applied).tasks[job], last);
    ReleaseExactly(start, releasing, job, NoFault);
    released := OneMoreStep(start, releasing, Release(job, NoFault));
    SetTwice(s.tasks, job, last, Run(start, released).tasks[job]);
    ReadThenReleased(s.accounts[task.account], b, Run(start, released).accounts[task.account], last, read, labelled,
                     task.reauthentication && !Same(read, task.expected));
  }

  lemma ReadThenReleased(a: Account, b: Account, c: Account, task: Task, read: string, labelled: bool, other: bool)
    requires ReadInto(a, b, read, labelled, other, NoFault) && Released(b, c, task, false, NoFault)
    requires task.activate == a.slot.activate
    ensures SignedIn(a, c, read, other)
  {
    hide Trim;
  }

  /** From the applied result to the release: only the phase changes. */
  lemma Refreshes(start: State, steps: seq<Step>, job: string) returns (more: seq<Step>)
    requires Initial(start)
    requires var s := Run(start, steps);
      && job in s.tasks && s.tasks[job].phase == Applied && job in s.jobs && !CancelRequested(s.jobs[job].status)
    ensures more == steps + [Continue(job), RefreshEnds(job, false), Continue(job)]
    ensures var s, t := Run(start, steps), Run(start, more);
      t == s.(tasks := s.tasks[job := s.tasks[job].(phase := Releasing)])
  {
    hide Run, Initial, Next, TasksHaveJobs;
    JobsInRun(start, steps);
    Moves(Run(start, steps), job);
    var refreshing := OneMoreStep(start, steps, Continue(job));
    JobsInRun(start, refreshing);
    Moves(Run(start, refreshing), job);
    var refreshed := OneMoreStep(start, refreshing, RefreshEnds(job, false));
    JobsInRun(start, refreshed);
    Moves(Run(start, refreshed), job);
    more := OneMoreStep(start, refreshed, Continue(job));
    var task := Run(start, steps).tasks[job];
    SetTwice(Run(start, steps).tasks, job, task.(phase := Refreshing), task.(phase := Refreshed));
    SetTwice(Run(start, steps).tasks, job, task.(phase := Refreshed), task.(phase := Releasing));
  }

  /**
   In any run in which no job is active, a sign-in that nobody disturbs completes: the gate opens, in
   memory and on disk, the slot has the identity found, and its history is kept exactly where it had
   none before or the identity is the one expected. A public repair must find that one.
   */
  lemma SignInCompletes(start: State, steps: seq<Step>, id: Id, publicRepair: bool, job: string, read: string, labelled: bool)
    requires Initial(start)
    requires var s := Run(start, steps);
      && !HasActive(s) && id in s.accounts && job !in s.jobs
      && (publicRepair ==> s.accounts[id].checked && Same(read, ExpectedOf(s.accounts[id].slot)))
    ensures var s, t := Run(start, steps), Run(start, steps + SignIn(id, publicRepair, job, read, labelled));
      var a := s.accounts[id];
      && id in t.accounts && job in t.jobs && t.jobs[job].status == Completed && t.tasks == map[]
      && SignedIn(a, t.accounts[id], read,
           HasPriorIdentity(a) && !Same(read, if a.slot.pending then a.slot.expected else a.slot.accountId))
  {
    hide Run, Initial, HasActive, Next, HasPriorIdentity, Trim;
    ProgramExits(start, steps, id, publicRepair, job);
    var exited := steps + Program(id, publicRepair, job);
    EndingCompletes(start, exited, job, read, labelled);
    assert exited + Ending(job, read, labelled) == steps + SignIn(id, publicRepair, job, read, labelled);
    IdleRun(start, steps);
    TrimTwice(if Run(start, steps).accounts[id].slot.pending then Run(start, steps).accounts[id].slot.expected
              else Run(start, steps).accounts[id].slot.accountId);
  }

  /** With no job active no task runs. */
  lemma IdleRun(start: State, steps: seq<Step>)
    requires Initial(start)
    ensures !HasActive(Run(start, steps)) ==> Run(start, steps).tasks == map[]
  {
    hide Run, Initial, HasActive, Inv;
    Reachable(start, steps);
    NoTasks(Run(start, steps));
  }

  // ---- the other steps ----

  /** A request is recorded in a slot's history exactly while its gate is open and nobody signs in to it. */
  lemma RecordExactly(start: State, steps: seq<Step>, id: Id)
    requires Initial(start) && id in Run(start, steps).accounts
    ensures var s, t := Run(start, steps), Next(Run(start, steps), Record(id));
      var a, signingIn := s.accounts[id], exists j :: j in s.jobs && s.jobs[j].account == id && Active(s.jobs[j].status);
      && t.jobs == s.jobs && t.tasks == s.tasks
      && t.accounts == s.accounts[id := a.(history :=
           if !a.slot.pending && !signingIn then a.history + {|a.openings|} else a.history)]
  {
    hide Run, Initial, Active;
    JobsInRun(start, steps);
    var s := Run(start, steps);
    assert s.accounts == s.accounts[id := s.accounts[id]];
  }

  /** A public repair may start once the slot was seen with an identity to reproduce. */
  lemma CheckedExactly(start: State, steps: seq<Step>, id: Id)
    requires Initial(start) && id in Run(start, steps).accounts
    ensures var s, t := Run(start, steps), Next(Run(start, steps), CheckPublic(id));
      var a := s.accounts[id];
      && t.jobs == s.jobs && t.tasks == s.tasks
      && t.accounts == s.accounts[id := a.(checked :=
           a.checked || Trim(if a.slot.pending then a.slot.expected else a.slot.accountId) != "")]
  {
    hide Run, Initial, Trim;
    JobsInRun(start, steps);
    var s := Run(start, steps);
    assert s.accounts == s.accounts[id := s.accounts[id]];
  }

  /**
   A start that finds a job active begins no other. For the job's own slot, unless a public repair was
   asked for and the job is none, an open gate closes for the identity the slot has.
   */
  lemma AdoptExactly(start: State, steps: seq<Step>, id: Id, publicRepair: bool, j: string, job: string, fault: Fault)
    requires Initial(start)
    requires var s := Run(start, steps);
      && id in s.accounts && j in s.jobs && Active(s.jobs[j].status) && (publicRepair ==> s.accounts[id].checked)
    ensures var s, t := Run(start, steps), Next(Run(start, steps), Start(id, publicRepair, Some(j), job, fault));
      var a := s.accounts[id];
      && t.jobs == s.jobs && t.tasks == s.tasks && id in t.accounts
      && if s.jobs[j].account == id && (publicRepair ==> s.jobs[j].publicRepair) && !a.slot.pending
         then Closes(a, t.accounts[id], fault) else t.accounts == s.accounts
  {
    hide Run, Initial, Trim, Active, WriteAll, Written, Closes;
    JobsInRun(start, steps);
    var s := Run(start, steps);
    WroteAll(WithSlot(s, id, Closed(s.accounts[id].slot)), fault != FirstFails, fault == NoFault);
    ClosedWritten(s.accounts[id], fault);
  }

  /** A cancellation, like a prompt, changes the status of exactly a job that neither ended nor is being cancelled. */
  lemma StatusExactly(start: State, steps: seq<Step>, j: string)
    requires Initial(start) && j in Run(start, steps).jobs
    ensures var s := Run(start, steps);
      var status := s.jobs[j].status;
      var open := status == Running || status == WaitingForUser || status == Finalizing;
      && Next(s, Cancel(j)) == s.(jobs := s.jobs[j := s.jobs[j].(status := if open then Cancelling else status)])
      && Next(s, Prompt(j)) == s.(jobs := s.jobs[j := s.jobs[j].(status := if open then WaitingForUser else status)])
  {
    hide Run, Initial;
    JobsInRun(start, steps);
    var s := Run(start, steps);
    assert s.jobs == s.jobs[j := s.jobs[j].(status := s.jobs[j].status)];
  }

  /** A sign-in whose directory, program or look for a cancellation goes wrong ends; it has changed no slot. */
  lemma GoesWrongExactly(start: State, steps: seq<Step>, j: string)
    requires Initial(start) && j in Run(start, steps).tasks && j in Run(start, steps).jobs
    ensures var s := Run(start, steps);
      var phase, cancelled := s.tasks[j].phase, CancelRequested(s.jobs[j].status);
      && (phase == Preparing ==> Next(s, Prepare(j, false)) == WithPhase(s, j, Finishing(Failed)))
      && (phase == Cli ==> Next(s, CliExit(j, false)) == WithPhase(s, j, Finishing(if cancelled then Cancelled else Failed)))
      && (phase == Cli && cancelled ==> Next(s, CliExit(j, true)) == WithPhase(s, j, Finishing(Cancelled)))
      && (phase == Exited && cancelled ==> forall read, labelled, fault ::
              Next(s, Finalize(j, read, labelled, fault)) == WithPhase(s, j, Finishing(Cancelled)))
      && ((phase == Applied || phase == Refreshed) && cancelled ==> Next(s, Continue(j)) == WithPhase(s, j, Finishing(Cancelled)))
      && (phase == Refreshing ==>
            Next(s, RefreshEnds(j, true)) == WithPhase(s, j, if s.tasks[j].publicRepair then Finishing(Failed) else Refreshed))
  {
    hide Run, Initial;
    JobsInRun(start, steps);
  }

  /** What ends is gone, and its job says how, unless it is being cancelled and ended otherwise. */
  lemma FinishExactly(start: State, steps: seq<Step>, j: string)
    requires Initial(start) && j in Run(start, steps).tasks && j in Run(start, steps).jobs
    requires Run(start, steps).tasks[j].phase.Finishing?
    ensures var s := Run(start, steps);
      var outcome, status := s.tasks[j].phase.outcome, s.jobs[j].status;
      Next(s, Finish(j)) == State(s.accounts, s.jobs[j := s.jobs[j].(status :=
        if (status == Cancelling || status == Cancelled) && outcome != Cancelled then status else outcome)], s.tasks - {j})
  {
    hide Run, Initial;
    JobsInRun(start, steps);
    var s := Run(start, steps);
    assert s.jobs == s.jobs[j := s.jobs[j].(status := s.jobs[j].status)];
  }

  /** A metadata refresh names the slot, and nothing else of it; a blank name is refused. */
  lemma NamedExactly(start: State, steps: seq<Step>, id: Id, accountId: string, labelled: bool, fault: Fault)
    requires Initial(start) && id in Run(start, steps).accounts
    ensures var s, t := Run(start, steps), Next(Run(start, steps), Metadata(id, accountId, labelled, fault));
      var a := s.accounts[id];
      && t.jobs == s.jobs && t.tasks == s.tasks && id in t.accounts
      && if accountId != "" && Trim(accountId) == "" then t.accounts == s.accounts
         else SavedOnly(a.(slot := a.slot.(accountId := if accountId == "" then a.slot.accountId else accountId,
                                           labelled := labelled)), t.accounts[id], fault)
  {
    hide Run, Initial, Trim, WriteAll, Written, SavedOnly;
    JobsInRun(start, steps);
    var s := Run(start, steps);
    var slot := s.accounts[id].slot;
    var named := slot.(accountId := if accountId == "" then slot.accountId else accountId, labelled := labelled);
    WroteAll(WithSlot(s, id, named), fault != FirstFails, fault == NoFault);
    SavedWritten(s.accounts[id].(slot := named), fault);
  }

  /** After a crash the pool is what its files say: no job, no task, and nothing else is lost. */
  lemma CrashExactly(start: State, steps: seq<Step>, id: Id)
    requires Initial(start)
    ensures var s, t := Run(start, steps), Next(Run(start, steps), Crash);
      && t.jobs == map[] && t.tasks == map[] && t.accounts.Keys == s.accounts.Keys
      && (id in s.accounts ==>
            && t.accounts[id].slot == t.accounts[id].disk == s.accounts[id].disk
            && t.accounts[id].history == t.accounts[id].diskHistory == s.accounts[id].diskHistory)
  {
    hide Run, Initial;
    JobsInRun(start, steps);
  }
}
