/**
 What holds in every run of the sign-in protocol.
 */
module LoginRuns {
  import opened Basics
  import opened Login

  // ---- one slot ----

  /** An ordinary save opens no gate. */
  lemma WrittenOk(a: Account, config: bool, runtime: bool)
    requires AccountOk(a)
    ensures AccountOk(Written(a, config, runtime)) && Written(a, config, runtime).openings == a.openings
    ensures forall task :: TaskOk(task, a) ==> TaskOk(task, Written(a, config, runtime))
  {
    hide Continuous, Trim, Known, Same;
  }

  lemma ClosedOk(a: Account)
    requires AccountOk(a)
    ensures AccountOk(a.(slot := Closed(a.slot)))
    ensures Closed(a.slot).pending && Trim(Closed(a.slot).expected) == ExpectedOf(a.slot)
  {
    hide Continuous;
    TrimTwice(a.slot.accountId);
    TrimTwice(a.slot.expected);
  }

  lemma RestartedOk(a: Account)
    requires AccountOk(a)
    ensures AccountOk(Restarted(a))
  {
    hide Continuous, Trim, Known;
  }

  lemma ReadOk(task: Task, a: Account, read: string, labelled: bool)
    requires AccountOk(a) && TaskOk(task, a) && task.phase == Exited
    requires !(task.publicRepair && ChangedIdentity(read, task.expected, task.reauthentication))
    ensures
      var reset := ChangedIdentity(read, task.expected, task.reauthentication);
      && AccountOk(WithRead(a, read, labelled, reset))
      && TaskOk(task.(activate := a.slot.activate, historyReset := reset, phase := Applied),
                WithRead(a, read, labelled, reset))
  {
    hide Trim;
    TrimTwice(a.disk.expected);
  }

  /** The slot that is released: the history it keeps was signed in, and opens, as the identity expected. */
  lemma OpenedOk(task: Task, a: Account, runtime: bool)
    requires AccountOk(a) && TaskOk(task, a) && task.phase == Releasing
    requires !(task.publicRepair && ChangedIdentity(a.slot.accountId, task.expected, task.reauthentication))
    ensures
      var again := ChangedIdentity(a.slot.accountId, task.expected, task.reauthentication) && !task.historyReset;
      var open := a.(slot := Opened(a.slot, task.activate), history := if again then {} else a.history);
      && AccountOk(Written(open, true, true))
      && AccountOk(Written(open, false, runtime).(slot := open.slot.(pending := true, expected := task.expected)))
  {
    hide Trim;
    TrimTwice(a.disk.expected);
  }

  // ---- whole states ----

  /** A change to one account, after which what runs still knows it. */
  lemma Replaced(s: State, t: State, id: Id)
    requires Inv(s) && id in s.accounts && id in t.accounts && t.accounts == s.accounts[id := t.accounts[id]]
    requires AccountOk(t.accounts[id]) && t.jobs == s.jobs && t.tasks == s.tasks
    requires forall task :: TaskOk(task, s.accounts[id]) ==> TaskOk(task, t.accounts[id])
    ensures Inv(t)
  {
    hide AccountOk, TaskOk, Active;
  }

  lemma SaveKeeps(s: State, config: bool, runtime: bool)
    requires Inv(s)
    ensures Inv(WriteAll(s, config, runtime))
  {
    hide AccountOk, TaskOk, Active, Written;
    forall id | id in s.accounts
      ensures AccountOk(Written(s.accounts[id], config, runtime))
      ensures forall task :: TaskOk(task, s.accounts[id]) ==> TaskOk(task, Written(s.accounts[id], config, runtime))
    {
      WrittenOk(s.accounts[id], config, runtime);
    }
  }

  lemma SlotChanged(s: State, id: Id, slot: Slot)
    requires Inv(s) && id in s.accounts && AccountOk(s.accounts[id].(slot := slot))
    ensures Inv(WithSlot(s, id, slot))
  {
    hide AccountOk, JobsInv, Same, Trim;
    Replaced(s, WithSlot(s, id, slot), id);
  }

  lemma JobChanged(s: State, j: string, status: Status)
    requires Inv(s) && j in s.jobs && (Active(status) ==> Active(s.jobs[j].status))
    requires j in s.tasks ==> Active(status)
    ensures Inv(WithJob(s, j, status))
  {
    hide AccountOk, TaskOk, Active;
  }

  lemma OneTask(s: State, j: string)
    requires JobsInv(s) && j in s.tasks
    ensures TasksHaveJobs(s) && Active(s.jobs[j].status)
    ensures forall k :: k in s.tasks ==> k == j
  {
    hide Active;
    assert Active(s.jobs[j].status);
    forall k | k in s.tasks ensures k == j {
      assert Active(s.jobs[k].status);
    }
  }

  /** The only task there is moves on, and its account with it. */
  lemma TaskChanged(s: State, t: State, j: string)
    requires Inv(s) && j in s.tasks && TasksHaveJobs(s)
    requires var id := s.tasks[j].account;
      && id in t.accounts && t.accounts == s.accounts[id := t.accounts[id]] && AccountOk(t.accounts[id])
      && t.tasks.Keys == s.tasks.Keys && t.tasks[j].account == id && TaskOk(t.tasks[j], t.accounts[id])
    requires j in t.jobs && t.jobs == s.jobs[j := t.jobs[j]]
    requires t.jobs[j].account == s.jobs[j].account && t.jobs[j].status == s.jobs[j].status
    ensures Inv(t)
  {
    hide AccountOk, TaskOk, Active;
    OneTask(s, j);
    assert forall k :: k in t.jobs ==> t.jobs[k].status == s.jobs[k].status;
    assert forall k :: k in t.tasks ==> k in s.tasks && k == j;
  }

  lemma PhaseChanged(s: State, j: string, phase: Phase)
    requires Inv(s) && j in s.tasks && TasksHaveJobs(s)
    requires TaskOk(s.tasks[j].(phase := phase), s.accounts[s.tasks[j].account])
    ensures Inv(WithPhase(s, j, phase))
  {
    hide AccountOk, TaskOk, JobsInv;
    TaskChanged(s, WithPhase(s, j, phase), j);
  }

  lemma Finishes(s: State, j: string, outcome: Status)
    requires Inv(s) && j in s.tasks && (outcome.Completed? || outcome.Failed? || outcome.Cancelled?)
    ensures Inv(WithPhase(s, j, Finishing(outcome)))
  {
    hide AccountOk;
    PhaseChanged(s, j, Finishing(outcome));
  }

  // ---- each step keeps the invariant ----

  lemma StartKeeps(s: State, id: Id, publicRepair: bool, found: Option<string>, job: string, fault: Fault)
    requires Inv(s)
    ensures Inv(StartStep(s, id, publicRepair, found, job, fault))
  {
    hide Inv, AccountOk, Seen, WriteAll, Closed, ExpectedOf, HasPriorIdentity;
    if id !in s.accounts || (publicRepair && !s.accounts[id].checked) || !Seen(s, found) {
    } else if found.Some? {
      var slot := s.accounts[id].slot;
      if !slot.pending {
        StartCloses(s, id, fault);
        ClosedWhenOpen(slot);
      }
    } else if job !in s.jobs {
      StartCloses(s, id, fault);
      if fault == NoFault {
        TaskStarts(s, id, publicRepair, job);
      }
    }
  }

  lemma ClosedWhenOpen(slot: Slot)
    requires !slot.pending
    ensures Closed(slot) == slot.(pending := true, expected := Trim(slot.accountId))
  {
  }

  lemma StartCloses(s: State, id: Id, fault: Fault)
    requires Inv(s) && id in s.accounts
    ensures Inv(Save(WithSlot(s, id, Closed(s.accounts[id].slot)), fault).0)
  {
    hide AccountOk, TaskOk, JobsInv, WriteAll, Closed;
    ClosedOk(s.accounts[id]);
    SlotChanged(s, id, Closed(s.accounts[id].slot));
    SaveKeeps(WithSlot(s, id, Closed(s.accounts[id].slot)), fault != FirstFails, fault == NoFault);
  }

  lemma NoTasks(s: State)
    requires Inv(s)
    ensures s.tasks != map[] ==> HasActive(s)
  {
    hide AccountOk, TaskOk, Active;
    if s.tasks != map[] {
      var j :| j in s.tasks;
      OneTask(s, j);
    }
  }

  lemma TaskStarts(s: State, id: Id, publicRepair: bool, job: string)
    requires Inv(s) && id in s.accounts && Seen(s, None) && job !in s.jobs && (publicRepair ==> s.accounts[id].checked)
    ensures Inv(StartStep(s, id, publicRepair, None, job, NoFault))
  {
    hide Trim, AccountOk, WriteAll, Closed, ExpectedOf, HasPriorIdentity;
    var a := s.accounts[id];
    var t := StartStep(s, id, publicRepair, None, job, NoFault);
    NoTasks(s);
    StartCloses(s, id, NoFault);
    NewTaskOk(a, publicRepair);
    ClosedAccount(s, id);
    assert JobsInv(t) by {
      assert forall k :: k in t.jobs && k != job ==> k in s.jobs && t.jobs[k] == s.jobs[k];
    }
  }

  lemma ClosedAccount(s: State, id: Id)
    requires id in s.accounts
    ensures var t := Save(WithSlot(s, id, Closed(s.accounts[id].slot)), NoFault).0;
      && t.jobs == s.jobs && t.tasks == s.tasks && t.accounts.Keys == s.accounts.Keys
      && t.accounts[id] == Written(s.accounts[id].(slot := Closed(s.accounts[id].slot)), true, true)
  {
    hide Closed, Written;
  }

  lemma NewTaskOk(a: Account, publicRepair: bool)
    requires AccountOk(a) && (publicRepair ==> a.checked)
    ensures forall id :: TaskOk(Task(id, ExpectedOf(a.slot), HasPriorIdentity(a), publicRepair, false, false, Preparing),
                                Written(a.(slot := Closed(a.slot)), true, true))
  {
    hide Continuous;
    ClosedOk(a);
  }

  lemma FinalizeKeeps(s: State, j: string, read: Option<string>, labelled: bool, fault: Fault)
    requires Inv(s)
    ensures Inv(FinalizeStep(s, j, read, labelled, fault))
  {
    hide AccountOk, TaskOk, WriteAll, ApplyRead, ChangedIdentity, WithPhase, Active;
    if j in s.tasks && s.tasks[j].phase == Exited {
      OneTask(s, j);
      Finishes(s, j, Cancelled);
      if !CancelRequested(s.jobs[j].status) {
        StillActive();
        JobChanged(s, j, Finalizing);
        var running, task := WithJob(s, j, Finalizing), s.tasks[j];
        Finishes(running, j, Failed);
        if read.Some? && !(task.publicRepair && ChangedIdentity(read.value, task.expected, task.reauthentication)) {
          ReadKeeps(running, j, read.value, labelled);
          var applied := ApplyRead(running, j, read.value, labelled);
          SaveKeeps(applied, fault != FirstFails, fault == NoFault);
          SameJobs(applied, fault != FirstFails, fault == NoFault);
          Finishes(Save(applied, fault).0, j, Failed);
        }
      }
    }
  }

  lemma StillActive()
    ensures Active(Finalizing) && Active(Cancelling) && Active(WaitingForUser)
  {
  }

  lemma SameJobs(s: State, config: bool, runtime: bool)
    ensures WriteAll(s, config, runtime).jobs == s.jobs && WriteAll(s, config, runtime).tasks == s.tasks
  {
  }

  lemma ReadKeeps(s: State, j: string, read: string, labelled: bool)
    requires Inv(s) && j in s.tasks && s.tasks[j].phase == Exited
    requires var task := s.tasks[j]; !(task.publicRepair && ChangedIdentity(read, task.expected, task.reauthentication))
    ensures TasksHaveJobs(s) && j in ApplyRead(s, j, read, labelled).tasks
    ensures Inv(ApplyRead(s, j, read, labelled))
  {
    hide AccountOk, TaskOk, ChangedIdentity, WithRead, Active;
    OneTask(s, j);
    ReadOk(s.tasks[j], s.accounts[s.tasks[j].account], read, labelled);
    TaskChanged(s, ApplyRead(s, j, read, labelled), j);
  }

  lemma ReleaseKeeps(s: State, j: string, fault: Fault)
    requires Inv(s)
    ensures Inv(ReleaseStep(s, j, fault))
  {
    hide AccountOk, TaskOk, ChangedIdentity, Opened, Written, Active;
    if j in s.tasks && s.tasks[j].phase == Releasing {
      var task := s.tasks[j];
      var a := s.accounts[task.account];
      OneTask(s, j);
      Finishes(s, j, Failed);
      if !(task.publicRepair && ChangedIdentity(a.slot.accountId, task.expected, task.reauthentication)) {
        OpenedOk(task, a, fault != FirstFails);
        ReleaseOthers(s, j, fault);
      }
    }
  }

  lemma ReleaseOthers(s: State, j: string, fault: Fault)
    requires Inv(s) && j in s.tasks && TasksHaveJobs(s) && s.tasks[j].phase == Releasing
    requires var task := s.tasks[j];
      var a := s.accounts[task.account];
      var again := ChangedIdentity(a.slot.accountId, task.expected, task.reauthentication) && !task.historyReset;
      var open := a.(slot := Opened(a.slot, task.activate), history := if again then {} else a.history);
      && !(task.publicRepair && ChangedIdentity(a.slot.accountId, task.expected, task.reauthentication))
      && AccountOk(Written(open, true, true))
      && AccountOk(Written(open, false, fault != FirstFails).(slot := open.slot.(pending := true, expected := task.expected)))
    ensures Inv(ReleaseStep(s, j, fault))
  {
    hide AccountOk, TaskOk, ChangedIdentity, Opened, Written, Active, OpenGate, ReleaseStep, JobsInv;
    var task := s.tasks[j];
    var id := task.account;
    var t := ReleaseStep(s, j, fault);
    OpenGateIs(s, j);
    SlotKept(OpenGate(s, j).accounts[id], false, fault != FirstFails);
    ReleaseStepIs(s, j, fault);
    FinishingOk(t.tasks[j], t.accounts[id]);
    forall i | i in s.accounts && i != id ensures AccountOk(t.accounts[i]) {
      WrittenOk(s.accounts[i], fault == NoFault, fault != FirstFails);
    }
    assert AccountOk(t.accounts[id]);
    OneTask(s, j);
    JobsKept(s, t, j);
  }

  lemma JobsKept(s: State, t: State, j: string)
    requires JobsInv(s) && j in s.tasks && t.tasks.Keys == s.tasks.Keys && t.accounts.Keys == s.accounts.Keys
    requires t.tasks[j].account == s.tasks[j].account && t.jobs.Keys == s.jobs.Keys
    requires forall k :: k in s.jobs ==> t.jobs[k].account == s.jobs[k].account && t.jobs[k].status == s.jobs[k].status
    ensures JobsInv(t)
  {
    hide Active;
    OneTask(s, j);
    assert forall k :: k in t.tasks ==> k in s.tasks && k == j;
  }

  lemma ReleaseStepIs(s: State, j: string, fault: Fault)
    requires TasksHaveJobs(s) && j in s.tasks && s.tasks[j].phase == Releasing
    requires var task := s.tasks[j];
      !(task.publicRepair && ChangedIdentity(s.accounts[task.account].slot.accountId, task.expected, task.reauthentication))
    ensures
      var t, o, task := ReleaseStep(s, j, fault), OpenGate(s, j), s.tasks[j];
      var id := task.account;
      var written := Written(o.accounts[id], fault == NoFault, fault != FirstFails);
      && t.accounts.Keys == s.accounts.Keys && t.tasks.Keys == s.tasks.Keys && t.jobs == o.jobs
      && (forall i :: i in s.accounts && i != id ==> t.accounts[i] == Written(s.accounts[i], fault == NoFault, fault != FirstFails))
      && t.accounts[id] == (if fault == NoFault then written
           else written.(slot := written.slot.(pending := true, expected := task.expected)))
      && t.tasks[j].account == id && t.tasks[j].phase == Finishing(if fault == NoFault then Completed else Failed)
  {
    hide Written, ChangedIdentity, Opened, OpenGate;
    OpenGateIs(s, j);
  }

  lemma SlotKept(a: Account, config: bool, runtime: bool)
    ensures Written(a, config, runtime).slot == a.slot
  {
  }

  lemma FinishingOk(task: Task, a: Account)
    requires task.phase.Finishing? && (task.phase.outcome.Completed? || task.phase.outcome.Failed?)
    ensures TaskOk(task, a)
  {
  }

  /** What a release changes in memory. */
  lemma OpenGateIs(s: State, j: string)
    requires TasksHaveJobs(s) && j in s.tasks
    ensures
      var o, task := OpenGate(s, j), s.tasks[j];
      var a := s.accounts[task.account];
      var again := ChangedIdentity(a.slot.accountId, task.expected, task.reauthentication) && !task.historyReset;
      && o.accounts == s.accounts[task.account :=
           a.(slot := Opened(a.slot, task.activate), history := if again then {} else a.history)]
      && o.tasks.Keys == s.tasks.Keys && o.tasks[j].account == task.account && o.tasks[j].expected == task.expected
      && o.jobs.Keys == s.jobs.Keys
      && forall k :: k in s.jobs ==> o.jobs[k].account == s.jobs[k].account && o.jobs[k].status == s.jobs[k].status
  {
    hide ChangedIdentity, Opened;
  }

  lemma FinishKeeps(s: State, j: string)
    requires Inv(s)
    ensures Inv(FinishStep(s, j))
  {
    hide AccountOk, TaskOk;
    if j in s.tasks && s.tasks[j].phase.Finishing? {
      OneTask(s, j);
    }
  }

  lemma RecordKeeps(s: State, id: Id)
    requires Inv(s)
    ensures Inv(RecordStep(s, id))
  {
    hide Trim, Same, Known, Active;
    if id in s.accounts && !s.accounts[id].slot.pending && !HasActiveFor(s, id) {
      var t := RecordStep(s, id);
      forall j | j in t.tasks ensures TaskOk(t.tasks[j], t.accounts[t.tasks[j].account]) {
        OneTask(s, j);
      }
      assert forall i :: i in s.accounts && i != id ==> t.accounts[i] == s.accounts[i];
    }
  }

  lemma CrashKeeps(s: State)
    requires Inv(s)
    ensures Inv(CrashStep(s))
  {
    hide AccountOk, TaskOk, Active, Restarted;
    forall id | id in s.accounts ensures AccountOk(Restarted(s.accounts[id])) {
      RestartedOk(s.accounts[id]);
    }
  }

  lemma MetadataKeeps(s: State, id: Id, accountId: string, labelled: bool, fault: Fault)
    requires Inv(s)
    ensures Inv(MetadataStep(s, id, accountId, labelled, fault))
  {
    hide Trim, JobsInv, TaskOk, Continuous, WriteAll, WithSlot;
    if id in s.accounts && (accountId == "" || Trim(accountId) != "") {
      var slot := s.accounts[id].slot;
      var named := slot.(accountId := if accountId != "" then accountId else slot.accountId, labelled := labelled);
      SlotChanged(s, id, named);
      SaveKeeps(WithSlot(s, id, named), fault != FirstFails, fault == NoFault);
    }
  }

  lemma CheckPublicKeeps(s: State, id: Id)
    requires Inv(s)
    ensures Inv(CheckPublicStep(s, id))
  {
    hide Trim, Same, JobsInv, Continuous;
    if id in s.accounts && ExpectedOf(s.accounts[id].slot) != "" {
      Replaced(s, CheckPublicStep(s, id), id);
    }
  }

  lemma StatusKeeps(s: State, j: string)
    requires Inv(s)
    ensures Inv(PromptStep(s, j)) && Inv(CancelStep(s, j))
  {
    hide AccountOk, TaskOk, WithJob;
    if j in s.jobs && !CancelRequested(s.jobs[j].status) && !s.jobs[j].status.Completed? && !s.jobs[j].status.Failed? {
      JobChanged(s, j, WaitingForUser);
      JobChanged(s, j, Cancelling);
    }
  }

  lemma PhasesKeep(s: State, j: string, flag: bool)
    requires Inv(s)
    ensures Inv(PrepareStep(s, j, flag)) && Inv(CliExitStep(s, j, flag)) && Inv(ContinueStep(s, j)) && Inv(RefreshEndsStep(s, j, flag))
  {
    hide AccountOk, WithPhase, Active, Same, Trim;
    if j in s.tasks && !s.tasks[j].phase.Finishing? {
      OneTask(s, j);
      Finishes(s, j, Cancelled);
      Finishes(s, j, Failed);
      if s.tasks[j].phase.Preparing? {
        PhaseChanged(s, j, Cli);
      } else if s.tasks[j].phase.Cli? {
        PhaseChanged(s, j, Exited);
      } else if !s.tasks[j].phase.Exited? {
        PhaseChanged(s, j, Refreshing);
        PhaseChanged(s, j, Refreshed);
        PhaseChanged(s, j, Releasing);
      }
    }
  }

  lemma StepKeeps(s: State, step: Step)
    requires Inv(s)
    ensures Inv(Next(s, step))
  {
    hide AccountOk, TaskOk, Active, CheckPublicStep, StartStep, FinalizeStep, MetadataStep, ReleaseStep, FinishStep,
      RecordStep, CrashStep, WriteAll, PrepareStep, CliExitStep, ContinueStep, RefreshEndsStep, PromptStep, CancelStep;
    match step
    case CheckPublic(id) => CheckPublicKeeps(s, id);
    case Start(id, publicRepair, found, job, fault) => StartKeeps(s, id, publicRepair, found, job, fault);
    case Prompt(j) => StatusKeeps(s, j);
    case Cancel(j) => StatusKeeps(s, j);
    case Prepare(j, made) => PhasesKeep(s, j, made);
    case CliExit(j, succeeded) => PhasesKeep(s, j, succeeded);
    case Finalize(j, read, labelled, fault) => FinalizeKeeps(s, j, read, labelled, fault);
    case Continue(j) => PhasesKeep(s, j, true);
    case RefreshEnds(j, mismatch) => PhasesKeep(s, j, mismatch);
    case Metadata(id, accountId, labelled, fault) => MetadataKeeps(s, id, accountId, labelled, fault);
    case Release(j, fault) => ReleaseKeeps(s, j, fault);
    case Finish(j) => FinishKeeps(s, j);
    case Record(id) => RecordKeeps(s, id);
    case OtherSave(fault) => SaveKeeps(s, fault != FirstFails, fault == NoFault);
    case Crash => CrashKeeps(s);
  }

  // ---- every run ----

  /** The pool starts from what is on disk, with no job. */
  predicate Initial(s: State)
  {
    && s.jobs == map[] && s.tasks == map[]
    && forall id :: id in s.accounts ==> InitialAccount(s.accounts[id])
  }

  predicate InitialAccount(a: Account)
  {
    && a.slot == a.disk && a.history == a.diskHistory && !a.checked && a.openings == []
    && (a.slot.pending && Trim(a.slot.expected) != "" ==> Known(a.slot))
  }

  lemma InitialOk(s: State)
    requires Initial(s)
    ensures Inv(s)
  {
    hide Trim, Known;
  }

  lemma {:induction false} RunKeeps(start: State, steps: seq<Step>)
    requires Inv(start)
    ensures Inv(Run(start, steps))
  {
    hide AccountOk, TaskOk, JobsInv, Next;
    if steps != [] {
      RunKeeps(start, steps[..|steps| - 1]);
      StepKeeps(Run(start, steps[..|steps| - 1]), steps[|steps| - 1]);
    }
  }

  lemma Reachable(start: State, steps: seq<Step>)
    requires Initial(start)
    ensures Inv(Run(start, steps)) && TasksHaveJobs(Run(start, steps))
  {
    hide Run, AccountOk, TaskOk, Initial;
    InitialOk(start);
    RunKeeps(start, steps);
  }

  /**
   In every run, whatever history a slot has on disk survived only sign-ins that reproduced, both in
   the credential read and in the identity the gate opened with, the identity the slot had when its
   gate was closed.
   */
  lemma HistoryStaysWithIdentity(start: State, steps: seq<Step>, id: Id, e: nat, k: nat)
    requires Initial(start) && id in Run(start, steps).accounts
    requires var a := Run(start, steps).accounts[id]; e in a.diskHistory && e <= k < |a.openings|
    ensures var o := Run(start, steps).accounts[id].openings[k];
      Trim(o.expected) != "" && Trim(o.signedIn) == Trim(o.expected) && Trim(o.final) == Trim(o.expected)
  {
    hide Trim, Known, Run, Initial;
    Reachable(start, steps);
    assert Continuous(Run(start, steps).accounts[id].openings, Run(start, steps).accounts[id].diskHistory);
  }

  /** While a sign-in program runs, and until its result is released, the gate is closed on disk and in memory. */
  lemma GateClosedDuringSignIn(start: State, steps: seq<Step>, j: string)
    requires Initial(start)
    requires var s := Run(start, steps); j in s.tasks && !s.tasks[j].phase.Finishing?
    ensures var s := Run(start, steps);
      && s.tasks[j].account in s.accounts
      && var a := s.accounts[s.tasks[j].account];
         a.slot.pending && a.disk.pending && Trim(a.slot.expected) == Trim(a.disk.expected) == s.tasks[j].expected
  {
    hide Trim, Known, Run, Continuous, Same, Initial;
    Reachable(start, steps);
  }

  /** In every run at most one job is active in the whole pool, and at most one sign-in runs: that job's. */
  lemma OneSignIn(start: State, steps: seq<Step>)
    requires Initial(start)
    ensures var s := Run(start, steps);
      && |s.tasks| <= 1
      && (forall j :: j in s.tasks ==> j in s.jobs && Active(s.jobs[j].status))
      && forall i, j :: i in s.jobs && j in s.jobs && Active(s.jobs[i].status) && Active(s.jobs[j].status) ==> i == j
  {
    hide Run, AccountOk, TaskOk, Active, Initial;
    Reachable(start, steps);
    var s := Run(start, steps);
    if j :| j in s.tasks {
      OneTask(s, j);
      assert s.tasks.Keys == {j};
    }
    assert |s.tasks| == |s.tasks.Keys|;
  }

  /** As long as the gate is closed on disk it is closed for the same identity. */
  predicate ExpectedKept(s: State, t: State, id: Id)
    requires id in s.accounts
  {
    id in t.accounts
    && (t.accounts[id].disk.pending ==> Trim(t.accounts[id].disk.expected) == Trim(s.accounts[id].disk.expected))
  }

  /** The identity a gate was closed for stays until a release opens the gate. */
  lemma ExpectedStays(s: State, step: Step, id: Id)
    requires Inv(s) && id in s.accounts && s.accounts[id].disk.pending
    ensures ExpectedKept(s, Next(s, step), id)
  {
    hide AccountOk, TasksHaveJobs, TaskOk, Trim, StartStep, FinalizeStep, ReleaseStep, MetadataStep, WriteAll, Active,
      CheckPublicStep, PromptStep, CancelStep, PrepareStep, CliExitStep, ContinueStep, RefreshEndsStep, FinishStep, RecordStep,
      CrashStep;
    match step
    case Start(i, publicRepair, found, job, fault) => StartExpects(s, i, publicRepair, found, job, fault, id);
    case Finalize(j, read, labelled, fault) => FinalizeExpects(s, j, read, labelled, fault, id);
    case Release(j, fault) => ReleaseExpects(s, j, fault, id);
    case Metadata(i, accountId, labelled, fault) => SaveExpects(s, i, accountId, labelled, fault, id);
    case OtherSave(fault) => SaveExpects(s, id, "", false, fault, id);
    case _ => OtherExpects(s, step, id);
  }

  /** Steps that write nothing to disk. */
  lemma OtherExpects(s: State, step: Step, id: Id)
    requires TasksHaveJobs(s) && id in s.accounts
    requires !step.Start? && !step.Finalize? && !step.Release? && !step.Metadata? && !step.OtherSave?
    ensures id in Next(s, step).accounts && Next(s, step).accounts[id].disk == s.accounts[id].disk
  {
    hide ExpectedOf, Active, HasActiveFor;
  }

  /** A save leaves on disk what was there, or what is in memory now. */
  lemma SavedExpects(s: State, t: State, id: Id, config: bool, runtime: bool)
    requires id in s.accounts && id in t.accounts && s.accounts[id].disk.pending
    requires t.accounts[id].disk == s.accounts[id].disk
    requires t.accounts[id].slot.pending ==> Trim(t.accounts[id].slot.expected) == Trim(s.accounts[id].disk.expected)
    ensures ExpectedKept(s, WriteAll(t, config, runtime), id)
  {
    hide Trim;
  }

  lemma SaveExpects(s: State, i: Id, accountId: string, labelled: bool, fault: Fault, id: Id)
    requires Inv(s) && id in s.accounts && s.accounts[id].disk.pending
    ensures ExpectedKept(s, MetadataStep(s, i, accountId, labelled, fault), id)
    ensures ExpectedKept(s, Save(s, fault).0, id)
  {
    hide Trim, Known, Continuous, TaskOk, JobsInv;
    assert AccountOk(s.accounts[id]);
  }

  lemma StartExpects(s: State, i: Id, publicRepair: bool, found: Option<string>, job: string, fault: Fault, id: Id)
    requires Inv(s) && id in s.accounts && s.accounts[id].disk.pending
    ensures ExpectedKept(s, StartStep(s, i, publicRepair, found, job, fault), id)
  {
    hide Trim, Known, Continuous, Same, TaskOk, JobsInv, Seen;
    assert AccountOk(s.accounts[id]);
  }

  /** A finalization saves what it applied, or changes no slot. */
  lemma FinalizeWrites(s: State, j: string, read: Option<string>, labelled: bool, fault: Fault)
    requires TasksHaveJobs(s)
    ensures var t := FinalizeStep(s, j, read, labelled, fault);
      || t.accounts == s.accounts
      || (j in s.tasks && read.Some?
          && !(s.tasks[j].publicRepair && ChangedIdentity(read.value, s.tasks[j].expected, s.tasks[j].reauthentication))
          && t.accounts == WriteAll(ApplyRead(WithJob(s, j, Finalizing), j, read.value, labelled),
                                    fault != FirstFails, fault == NoFault).accounts)
  {
    hide ChangedIdentity, ApplyRead, WriteAll, Active;
  }

  lemma ReadLeavesGate(s: State, j: string, read: string, labelled: bool, id: Id)
    requires TasksHaveJobs(s) && j in s.tasks && id in s.accounts
    ensures id in ApplyRead(WithJob(s, j, Finalizing), j, read, labelled).accounts
    ensures var a := ApplyRead(WithJob(s, j, Finalizing), j, read, labelled).accounts[id];
      && a.disk == s.accounts[id].disk && a.slot.pending == s.accounts[id].slot.pending
      && a.slot.expected == s.accounts[id].slot.expected
  {
    hide ChangedIdentity, Trim, Active;
  }

  lemma FinalizeExpects(s: State, j: string, read: Option<string>, labelled: bool, fault: Fault, id: Id)
    requires Inv(s) && id in s.accounts && s.accounts[id].disk.pending
    ensures ExpectedKept(s, FinalizeStep(s, j, read, labelled, fault), id)
  {
    hide Trim, Known, Continuous, Same, TaskOk, FinalizeStep, ApplyRead, WriteAll, Active;
    assert AccountOk(s.accounts[id]) && TasksHaveJobs(s);
    FinalizeWrites(s, j, read, labelled, fault);
    if j in s.tasks && read.Some? {
      ReadLeavesGate(s, j, read.value, labelled, id);
      SavedExpects(s, ApplyRead(WithJob(s, j, Finalizing), j, read.value, labelled), id, fault != FirstFails, fault == NoFault);
    }
  }

  /** A release that does not come to pass writes nothing. */
  lemma NotReleased(s: State, j: string, fault: Fault)
    requires TasksHaveJobs(s)
    requires j in s.tasks && s.tasks[j].phase == Releasing ==>
               var task := s.tasks[j];
               task.publicRepair && ChangedIdentity(s.accounts[task.account].slot.accountId, task.expected, task.reauthentication)
    ensures ReleaseStep(s, j, fault).accounts == s.accounts
  {
    hide ChangedIdentity, OpenGate;
  }

  lemma ReleaseExpects(s: State, j: string, fault: Fault, id: Id)
    requires Inv(s) && id in s.accounts && s.accounts[id].disk.pending
    ensures ExpectedKept(s, ReleaseStep(s, j, fault), id)
  {
    hide Trim, Known, Continuous, Same, TaskOk, ChangedIdentity, OpenGate, ReleaseStep, Active;
    assert AccountOk(s.accounts[id]) && TasksHaveJobs(s);
    if j in s.tasks && s.tasks[j].phase == Releasing
       && !(s.tasks[j].publicRepair && ChangedIdentity(s.accounts[s.tasks[j].account].slot.accountId,
                                                       s.tasks[j].expected, s.tasks[j].reauthentication)) {
      ReleaseStepIs(s, j, fault);
      OpenGateIs(s, j);
    } else {
      NotReleased(s, j, fault);
    }
  }

  /** Finalizing a public repair, in any run, clears no history and opens no gate. */
  lemma PublicFinalizeKeepsIdentity(start: State, steps: seq<Step>, j: string, read: Option<string>, labelled: bool, fault: Fault)
    requires Initial(start)
    requires var s := Run(start, steps); j in s.tasks && s.tasks[j].publicRepair && !s.tasks[j].phase.Finishing?
    ensures var s, t := Run(start, steps), Next(Run(start, steps), Finalize(j, read, labelled, fault));
      var id := s.tasks[j].account;
      && id in s.accounts && id in t.accounts && t.accounts[id].history == s.accounts[id].history
      && t.accounts[id].slot.pending && t.accounts[id].disk.pending
  {
    hide Trim, Continuous, Active, Run, Initial, ChangedIdentity, FinalizeStep, ApplyRead, WriteAll;
    var s := Run(start, steps);
    TaskInRun(start, steps, j);
    FinalizeWrites(s, j, read, labelled, fault);
    if read.Some? && !ChangedIdentity(read.value, s.tasks[j].expected, s.tasks[j].reauthentication) {
      ReadLeavesGate(s, j, read.value, labelled, s.tasks[j].account);
      ReadKeepsHistory(s, j, read.value, labelled);
      GateStaysClosed(ApplyRead(WithJob(s, j, Finalizing), j, read.value, labelled), s.tasks[j].account,
                      fault != FirstFails, fault == NoFault);
    }
  }

  lemma TaskInRun(start: State, steps: seq<Step>, j: string)
    requires Initial(start) && j in Run(start, steps).tasks
    ensures var s := Run(start, steps);
      && TasksHaveJobs(s) && s.tasks[j].account in s.accounts
      && AccountOk(s.accounts[s.tasks[j].account]) && TaskOk(s.tasks[j], s.accounts[s.tasks[j].account])
  {
    hide AccountOk, TaskOk, Run, Initial, Active;
    Reachable(start, steps);
  }

  lemma ReadKeepsHistory(s: State, j: string, read: string, labelled: bool)
    requires TasksHaveJobs(s) && j in s.tasks
    requires !ChangedIdentity(read, s.tasks[j].expected, s.tasks[j].reauthentication)
    ensures var id := s.tasks[j].account;
      ApplyRead(WithJob(s, j, Finalizing), j, read, labelled).accounts[id].history == s.accounts[id].history
  {
    hide ChangedIdentity, Trim, Active;
  }

  lemma GateStaysClosed(s: State, id: Id, config: bool, runtime: bool)
    requires id in s.accounts && s.accounts[id].slot.pending && s.accounts[id].disk.pending
    ensures id in WriteAll(s, config, runtime).accounts
    ensures var a := WriteAll(s, config, runtime).accounts[id];
      a.slot.pending && a.disk.pending && a.history == s.accounts[id].history
  {
  }

  /**
   Releasing one clears no history either, and the gate it opens, in memory or on disk, opens for the
   identity the slot had before.
   */
  lemma PublicReleaseKeepsIdentity(start: State, steps: seq<Step>, j: string, fault: Fault)
    requires Initial(start)
    requires var s := Run(start, steps); j in s.tasks && s.tasks[j].publicRepair && !s.tasks[j].phase.Finishing?
    ensures var s, t := Run(start, steps), Next(Run(start, steps), Release(j, fault));
      var id := s.tasks[j].account;
      && id in s.accounts && id in t.accounts && t.accounts[id].history == s.accounts[id].history
      && (!t.accounts[id].slot.pending || !t.accounts[id].disk.pending ==>
            Same(t.accounts[id].slot.accountId, s.tasks[j].expected))
  {
    hide Trim, Known, Continuous, Active, Run, Initial, ReleaseStep, OpenGate, TasksHaveJobs;
    var s := Run(start, steps);
    TaskInRun(start, steps, j);
    var task := s.tasks[j];
    if task.phase == Releasing
       && !ChangedIdentity(s.accounts[task.account].slot.accountId, task.expected, task.reauthentication) {
      ReleaseStepIs(s, j, fault);
      OpenGateIs(s, j);
    } else {
      NotReleased(s, j, fault);
    }
  }

  // ---- a cancellation that comes late ----

  /** In any run, ending a job leaves it active exactly when a cancellation came too late to be seen. */
  lemma LateCancelLeavesJobActive(start: State, steps: seq<Step>, j: string)
    requires Initial(start) && j in Run(start, steps).tasks && Run(start, steps).tasks[j].phase.Finishing?
    ensures var s, t := Run(start, steps), Next(Run(start, steps), Finish(j));
      && j !in t.tasks && j in s.jobs && j in t.jobs
      && (Active(t.jobs[j].status) <==> s.jobs[j].status == Cancelling && s.tasks[j].phase.outcome != Cancelled)
  {
    hide AccountOk, Run, Initial;
    Reachable(start, steps);
    OneTask(Run(start, steps), j);
  }

  /** A job that is active with nothing left to end it. */
  predicate Stuck(s: State, j: string)
  {
    j in s.jobs && Active(s.jobs[j].status) && s.tasks == map[]
  }

  /** It stays so, no sign-in to any slot runs, and no closed gate opens, until a restart. */
  lemma {:induction false} StuckUntilRestart(s: State, j: string, steps: seq<Step>)
    requires Inv(s) && Stuck(s, j) && Crash !in steps
    ensures Stuck(Run(s, steps), j) && Run(s, steps).accounts.Keys == s.accounts.Keys
    ensures forall id :: id in s.accounts && s.accounts[id].slot.pending ==> Run(s, steps).accounts[id].slot.pending
  {
    hide Inv, Stuck, Next;
    if steps != [] {
      var init, last := steps[..|steps| - 1], steps[|steps| - 1];
      StuckUntilRestart(s, j, init);
      RunKeeps(s, init);
      StuckStep(Run(s, init), j, last);
    }
  }

  ghost predicate OpensNone(s: State, t: State)
  {
    && t.accounts.Keys == s.accounts.Keys
    && forall id :: id in s.accounts && s.accounts[id].slot.pending ==> t.accounts[id].slot.pending
  }

  lemma StuckStep(s: State, j: string, step: Step)
    requires Inv(s) && Stuck(s, j) && step != Crash
    ensures Stuck(Next(s, step), j) && OpensNone(s, Next(s, step))
  {
    hide Inv, StartStep, MetadataStep, Save, HasActiveFor, ExpectedOf;
    match step
    case Start(id, publicRepair, found, job, fault) => StuckStart(s, j, id, publicRepair, found, job, fault);
    case Metadata(id, accountId, labelled, fault) => StuckMetadata(s, j, id, accountId, labelled, fault);
    case OtherSave(fault) => SaveOpensNone(s, s, fault);
    case _ =>
  }

  lemma StuckStart(s: State, j: string, id: Id, publicRepair: bool, found: Option<string>, job: string, fault: Fault)
    requires Stuck(s, j)
    ensures Stuck(StartStep(s, id, publicRepair, found, job, fault), j)
    ensures OpensNone(s, StartStep(s, id, publicRepair, found, job, fault))
  {
    hide Save, HasPriorIdentity, ExpectedOf, Trim;
    if id in s.accounts {
      var slot := s.accounts[id].slot;
      SaveOpensNone(s, WithSlot(s, id, slot.(pending := true, expected := Trim(slot.accountId))), fault);
    }
  }

  lemma StuckMetadata(s: State, j: string, id: Id, accountId: string, labelled: bool, fault: Fault)
    requires Stuck(s, j)
    ensures Stuck(MetadataStep(s, id, accountId, labelled, fault), j)
    ensures OpensNone(s, MetadataStep(s, id, accountId, labelled, fault))
  {
    hide Save, Trim;
    if id in s.accounts {
      var slot := s.accounts[id].slot;
      var named := slot.(accountId := if accountId != "" then accountId else slot.accountId, labelled := labelled);
      SaveOpensNone(s, WithSlot(s, id, named), fault);
    }
  }

  /** A save writes what is in memory, and leaves memory as it is. */
  lemma SaveOpensNone(s: State, t: State, fault: Fault)
    requires OpensNone(s, t)
    ensures OpensNone(s, Save(t, fault).0) && Save(t, fault).0.jobs == t.jobs && Save(t, fault).0.tasks == t.tasks
  {
  }

  /** And trying the slot of that job again closes its gate, on disk too, until a restart. */
  lemma StuckStartClosesGate(s: State, j: string, publicRepair: bool, job: string, steps: seq<Step>)
    requires Inv(s) && Stuck(s, j) && Crash !in steps
    requires var id := s.jobs[j].account;
      && id in s.accounts && !s.accounts[id].slot.pending
      && (publicRepair ==> s.jobs[j].publicRepair && s.accounts[id].checked)
    ensures var id, t := s.jobs[j].account, Next(s, Start(s.jobs[j].account, publicRepair, Some(j), job, NoFault));
      && id in t.accounts && t.accounts[id].disk.pending
      && id in Run(t, steps).accounts && Run(t, steps).accounts[id].slot.pending
  {
    hide AccountOk, TaskOk, JobsInv, Trim, Run, Next;
    var step := Start(s.jobs[j].account, publicRepair, Some(j), job, NoFault);
    StuckStep(s, j, step);
    StepKeeps(s, step);
    StuckCloses(s, j, publicRepair, job);
    StuckUntilRestart(Next(s, step), j, steps);
  }

  lemma StuckCloses(s: State, j: string, publicRepair: bool, job: string)
    requires Stuck(s, j) && s.jobs[j].account in s.accounts && !s.accounts[s.jobs[j].account].slot.pending
    requires publicRepair ==> s.jobs[j].publicRepair && s.accounts[s.jobs[j].account].checked
    ensures var id, t := s.jobs[j].account, Next(s, Start(s.jobs[j].account, publicRepair, Some(j), job, NoFault));
      id in t.accounts && t.accounts[id].slot.pending && t.accounts[id].disk.pending
  {
    hide Trim;
  }

  /** A sign-in to slot "a" that its owner began, as far as `phase`. */
  predicate Signing(s: State, phase: Phase, status: Status)
  {
    && s.tasks.Keys == {"job"} && "job" in s.jobs && s.jobs["job"].status == status && s.jobs["job"].account == "a"
    && s.tasks["job"].phase == phase && s.tasks["job"].account == "a" && !s.tasks["job"].publicRepair
    && "a" in s.accounts
  }

  predicate LeftCancelling(s: State)
  {
    && s.tasks == map[] && "job" in s.jobs && s.jobs["job"].status == Cancelling
    && "a" in s.accounts && !s.accounts["a"].slot.pending && !s.accounts["a"].disk.pending
  }

  /**
   A cancellation that arrives while the gate is being released leaves the pool in that state: the
   slot is open, the job says "cancelling", and no task is left to end it.
   */
  lemma LateCancelRun(s0: State)
    requires Initial(s0) && "a" in s0.accounts
    ensures exists steps :: LeftCancelling(Run(s0, steps))
  {
    hide Trim, Run, Next, Signing, Open, Initial;
    var steps: seq<Step> := [];
    NoSteps(s0);
    Began(s0);
    steps := OneMoreStep(s0, steps, Start("a", false, None, "job", NoFault));
    Prepares(Run(s0, steps));
    steps := OneMoreStep(s0, steps, Prepare("job", true));
    Exits(Run(s0, steps));
    steps := OneMoreStep(s0, steps, CliExit("job", true));
    Finalizes(Run(s0, steps));
    steps := OneMoreStep(s0, steps, Finalize("job", Some("u"), false, NoFault));
    Refreshes(Run(s0, steps));
    steps := OneMoreStep(s0, steps, Continue("job"));
    Refreshes(Run(s0, steps));
    steps := OneMoreStep(s0, steps, RefreshEnds("job", false));
    Refreshes(Run(s0, steps));
    steps := OneMoreStep(s0, steps, Continue("job"));
    CancelsLate(Run(s0, steps));
    steps := OneMoreStep(s0, steps, Cancel("job"));
    Releases(Run(s0, steps));
    steps := OneMoreStep(s0, steps, Release("job", NoFault));
    Ends(Run(s0, steps));
    steps := OneMoreStep(s0, steps, Finish("job"));
    assert LeftCancelling(Run(s0, steps));
  }

  /** So does one that arrives before the directory for the sign-in program turns out not to be there. */
  lemma NoDirectoryRun(s0: State)
    requires Initial(s0) && "a" in s0.accounts
    ensures exists steps :: Stuck(Run(s0, steps), "job") && Run(s0, steps).jobs["job"].status == Cancelling
  {
    hide Trim, Run, Next, Signing, Stuck, Initial;
    var steps: seq<Step> := [];
    NoSteps(s0);
    Began(s0);
    steps := OneMoreStep(s0, steps, Start("a", false, None, "job", NoFault));
    CancelsEarly(Run(s0, steps));
    steps := OneMoreStep(s0, steps, Cancel("job"));
    FailsToPrepare(Run(s0, steps));
    steps := OneMoreStep(s0, steps, Prepare("job", false));
    EndsCancelling(Run(s0, steps));
    steps := OneMoreStep(s0, steps, Finish("job"));
    assert Stuck(Run(s0, steps), "job");
  }

  lemma CancelsEarly(s: State)
    requires Signing(s, Preparing, Running)
    ensures Signing(Next(s, Cancel("job")), Preparing, Cancelling)
  {
    hide Active;
  }

  lemma FailsToPrepare(s: State)
    requires Signing(s, Preparing, Cancelling)
    ensures Signing(Next(s, Prepare("job", false)), Finishing(Failed), Cancelling)
  {
    hide Active;
  }

  lemma EndsCancelling(s: State)
    requires Signing(s, Finishing(Failed), Cancelling)
    ensures Stuck(Next(s, Finish("job")), "job") && Next(s, Finish("job")).jobs["job"].status == Cancelling
  {
  }

  lemma NoSteps(s: State)
    ensures Run(s, []) == s
  {
  }

  lemma OneMoreStep(start: State, steps: seq<Step>, step: Step) returns (more: seq<Step>)
    ensures more == steps + [step] && Run(start, more) == Next(Run(start, steps), step)
  {
    hide Next;
    more := steps + [step];
    assert more[..|steps|] == steps;
  }

  lemma Began(s: State)
    requires Initial(s) && "a" in s.accounts
    ensures Signing(Next(s, Start("a", false, None, "job", NoFault)), Preparing, Running)
  {
    hide Trim;
  }

  lemma Prepares(s: State)
    requires Signing(s, Preparing, Running)
    ensures Signing(Next(s, Prepare("job", true)), Cli, Running)
  {
    hide Active;
  }

  lemma Exits(s: State)
    requires Signing(s, Cli, Running)
    ensures Signing(Next(s, CliExit("job", true)), Exited, Running)
  {
    hide Active;
  }

  lemma Finalizes(s: State)
    requires Signing(s, Exited, Running)
    ensures Signing(Next(s, Finalize("job", Some("u"), false, NoFault)), Applied, Finalizing)
  {
    hide ChangedIdentity, Written, WithRead, Active;
  }

  lemma Refreshes(s: State)
    ensures Signing(s, Applied, Finalizing) ==> Signing(Next(s, Continue("job")), Refreshing, Finalizing)
    ensures Signing(s, Refreshing, Finalizing) ==> Signing(Next(s, RefreshEnds("job", false)), Refreshed, Finalizing)
    ensures Signing(s, Refreshed, Finalizing) ==> Signing(Next(s, Continue("job")), Releasing, Finalizing)
  {
    hide Active;
  }

  lemma CancelsLate(s: State)
    requires Signing(s, Releasing, Finalizing)
    ensures Signing(Next(s, Cancel("job")), Releasing, Cancelling)
  {
    hide Active;
  }

  lemma Releases(s: State)
    requires Signing(s, Releasing, Cancelling)
    ensures Open(Next(s, Release("job", NoFault)))
  {
    hide ChangedIdentity, Active;
  }

  lemma Ends(s: State)
    requires Open(s)
    ensures LeftCancelling(Next(s, Finish("job")))
  {
    hide Active;
  }

  predicate Open(s: State)
  {
    Signing(s, Finishing(Completed), Cancelling) && !s.accounts["a"].slot.pending && !s.accounts["a"].disk.pending
  }
}
