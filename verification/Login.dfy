/**
 Sign-in jobs and the routing gate they keep on disk.

 A slot's gate is `pending`: while it is set no request is routed to the slot. config.json and
 runtime.json are two files, each replaced atomically, written one after the other. A run
 interleaves starts, the sign-in program's exits, finalization, metadata refreshes, releases,
 cancellations, failed writes and crashes. A crash between two writes is a failed second write
 followed by a crash.
 */
module Login {
  import opened Basics

  type Id = string

  // ---- identifiers ----

  /** Unicode's White_Space, which `str::trim` removes. */
  predicate IsSpace(c: char)
  {
    || '\t' <= c <= '\r' || c == ' ' || c == '\U{85}' || c == '\U{a0}' || c == '\U{1680}'
    || '\U{2000}' <= c <= '\U{200a}' || c == '\U{2028}' || c == '\U{2029}' || c == '\U{202f}' || c == '\U{205f}'
    || c == '\U{3000}'
  }

  function Trim(s: string): string
  {
    if s == "" then ""
    else if IsSpace(s[0]) then Trim(s[1..])
    else if IsSpace(s[|s| - 1]) then Trim(s[..|s| - 1])
    else s
  }

  /** What is left begins and ends with no space, and only space is gone. */
  lemma {:induction false} TrimIs(s: string) returns (a: nat, b: nat)
    ensures a <= b <= |s| && Trim(s) == s[a..b]
    ensures forall i :: 0 <= i < |s| && !(a <= i < b) ==> IsSpace(s[i])
    ensures a < b ==> !IsSpace(s[a]) && !IsSpace(s[b - 1])
  {
    hide IsSpace;
    if s == "" {
      a, b := 0, 0;
    } else if IsSpace(s[0]) {
      a, b := TrimIs(s[1..]);
      assert s[1..][a..b] == s[a + 1..b + 1];
      a, b := a + 1, b + 1;
    } else if IsSpace(s[|s| - 1]) {
      a, b := TrimIs(s[..|s| - 1]);
      assert s[..|s| - 1][a..b] == s[a..b];
    } else {
      a, b := 0, |s|;
    }
  }

  lemma {:induction false} TrimTwice(s: string)
    ensures Trim(Trim(s)) == Trim(s)
  {
    if s == "" {
    } else if IsSpace(s[0]) {
      TrimTwice(s[1..]);
    } else if IsSpace(s[|s| - 1]) {
      TrimTwice(s[..|s| - 1]);
    }
  }

  /** The upstream identity found is the one expected, and is one. */
  predicate Same(found: string, expected: string)
  {
    Trim(found) == Trim(expected) && Trim(expected) != ""
  }

  function ChangedIdentity(found: string, expected: string, reauthentication: bool): bool
  {
    reauthentication && (Trim(expected) == "" || Trim(found) == "" || Trim(found) != Trim(expected))
  }

  // ---- state ----

  datatype Slot = Slot(
    accountId: string,
    labelled: bool,  // an email or an organization
    signedIn: bool,  // a last sign-in time
    enabled: bool,
    inPool: bool,
    activate: bool,  // to be enabled by the next completed sign-in
    pending: bool,
    expected: string)

  datatype Status = Running | WaitingForUser | Finalizing | Cancelling | Completed | Failed | Cancelled

  datatype Job = Job(account: Id, publicRepair: bool, reauthentication: bool, status: Status, historyReset: bool)

  datatype Phase =
    | Preparing                 // the directory for the sign-in program is made
    | Cli                       // the sign-in program runs
    | Exited                    // it succeeded, the result is not read yet
    | Applied                   // the result is in config.json and runtime.json
    | Refreshing                // quota and subscription metadata are being read
    | Refreshed
    | Releasing                 // the last check for a cancellation is behind it
    | Finishing(outcome: Status)

  datatype Task = Task(
    account: Id,
    expected: string,
    reauthentication: bool,
    publicRepair: bool,
    activate: bool,
    historyReset: bool,
    phase: Phase)

  /** A gate opened on disk: the identity it was closed for, the one signed in, the one it opened with. */
  datatype Opening = Opening(expected: string, signedIn: string, final: string)

  /**
   One slot in memory and on disk. History is the set of its entries' epochs: an entry recorded after
   n openings of the slot's gate has epoch n. `credential` and `openings` only record what happened:
   the identity last read from auth.json, and every change of config.json that opened the gate. No
   step reads them.
   */
  datatype Account = Account(
    slot: Slot,
    history: set<nat>,
    disk: Slot,
    diskHistory: set<nat>,
    checked: bool,  // a public repair has looked at the slot and may start
    credential: string,
    openings: seq<Opening>)

  datatype State = State(accounts: map<Id, Account>, jobs: map<string, Job>, tasks: map<string, Task>)

  // ---- saving ----

  datatype Fault = NoFault | FirstFails | SecondFails

  /** What replacing config.json does for one slot: a gate closed on disk and open in memory opens. */
  function ConfigWritten(a: Account): Account
  {
    a.(disk := a.slot,
       openings := if a.disk.pending && !a.slot.pending
         then a.openings + [Opening(a.disk.expected, a.credential, a.slot.accountId)]
         else a.openings)
  }

  function RuntimeWritten(a: Account): Account
  {
    a.(diskHistory := a.history)
  }

  function Written(a: Account, config: bool, runtime: bool): Account
  {
    var b := if config then ConfigWritten(a) else a;
    if runtime then RuntimeWritten(b) else b
  }

  function WriteAll(s: State, config: bool, runtime: bool): State
  {
    s.(accounts := map id | id in s.accounts :: Written(s.accounts[id], config, runtime))
  }

  /** config.json, then runtime.json: the flag says whether both were replaced. */
  function Save(s: State, fault: Fault): (State, bool)
  {
    (WriteAll(s, fault != FirstFails, fault == NoFault), fault == NoFault)
  }

  /** runtime.json, then config.json. */
  function SaveCompleted(s: State, fault: Fault): (State, bool)
  {
    (WriteAll(s, fault == NoFault, fault != FirstFails), fault == NoFault)
  }

  // ---- jobs ----

  predicate Active(status: Status)
  {
    status.Running? || status.WaitingForUser? || status.Finalizing? || status.Cancelling?
  }

  predicate CancelRequested(status: Status)
  {
    status.Cancelling? || status.Cancelled?
  }

  predicate HasActive(s: State)
  {
    exists j :: j in s.jobs && Active(s.jobs[j].status)
  }

  predicate HasActiveFor(s: State, id: Id)
  {
    exists j :: j in s.jobs && s.jobs[j].account == id && Active(s.jobs[j].status)
  }

  predicate HasIdentity(slot: Slot)
  {
    Trim(slot.accountId) != "" || slot.labelled || slot.signedIn
  }

  predicate HasPriorIdentity(a: Account)
  {
    HasIdentity(a.slot) || a.history != {}
  }

  /** The identity a sign-in must reproduce: while the gate is closed, the one it was closed for. */
  function ExpectedOf(slot: Slot): string
  {
    Trim(if slot.pending then slot.expected else slot.accountId)
  }

  function WithJob(s: State, j: string, status: Status): State
    requires j in s.jobs
  {
    s.(jobs := s.jobs[j := s.jobs[j].(status := status)])
  }

  function WithPhase(s: State, j: string, phase: Phase): State
    requires j in s.tasks
  {
    s.(tasks := s.tasks[j := s.tasks[j].(phase := phase)])
  }

  function WithAccount(s: State, id: Id, a: Account): State
  {
    s.(accounts := s.accounts[id := a])
  }

  function WithSlot(s: State, id: Id, slot: Slot): State
    requires id in s.accounts
  {
    WithAccount(s, id, s.accounts[id].(slot := slot))
  }

  // ---- steps ----

  datatype Step =
    | CheckPublic(id: Id)
    | Start(id: Id, publicRepair: bool, found: Option<string>, job: string, fault: Fault)
    | Prompt(job: string)
    | Cancel(job: string)
    | Prepare(job: string, made: bool)
    | CliExit(job: string, succeeded: bool)
    | Finalize(job: string, read: Option<string>, labelled: bool, fault: Fault)
    | Continue(job: string)
    | RefreshEnds(job: string, mismatch: bool)
    | Metadata(id: Id, accountId: string, labelled: bool, fault: Fault)
    | Release(job: string, fault: Fault)
    | Finish(job: string)
    | Record(id: Id)
    | OtherSave(fault: Fault)
    | Crash

  /** The first lock of a public repair: the slot has an identity to reproduce. */
  function CheckPublicStep(s: State, id: Id): State
  {
    if id in s.accounts && ExpectedOf(s.accounts[id].slot) != ""
    then WithAccount(s, id, s.accounts[id].(checked := true))
    else s
  }

  /** A job is there already. It is handed out again only for its own slot; the gate stays closed. */
  function Adopt(s: State, id: Id, publicRepair: bool, j: string, fault: Fault): State
    requires id in s.accounts && j in s.jobs
  {
    var slot := s.accounts[id].slot;
    if s.jobs[j].account != id || (publicRepair && !s.jobs[j].publicRepair) || slot.pending then s
    else Save(WithSlot(s, id, slot.(pending := true, expected := Trim(slot.accountId))), fault).0
  }

  function Closed(slot: Slot): Slot
  {
    if slot.pending then slot else slot.(pending := true, expected := ExpectedOf(slot))
  }

  /** `found` is the active job seen first, if there is one; `job` names a new one. */
  predicate Seen(s: State, found: Option<string>)
  {
    match found
    case Some(j) => j in s.jobs && Active(s.jobs[j].status)
    case None => !HasActive(s)
  }

  function StartStep(s: State, id: Id, publicRepair: bool, found: Option<string>, job: string, fault: Fault): State
  {
    if id !in s.accounts || (publicRepair && !s.accounts[id].checked) || !Seen(s, found) then s
    else if found.Some? then Adopt(s, id, publicRepair, found.value, fault)
    else if job in s.jobs then s
    else
      var a := s.accounts[id];
      var expected, reauthentication := ExpectedOf(a.slot), HasPriorIdentity(a);
      var (saved, ok) := Save(WithSlot(s, id, Closed(a.slot)), fault);
      if !ok then saved
      else
        saved.(jobs := s.jobs[job := Job(id, publicRepair, reauthentication, Running, false)],
               tasks := s.tasks[job := Task(id, expected, reauthentication, publicRepair, false, false, Preparing)])
  }

  /** `update_login_job` when the program has printed its prompt. */
  function PromptStep(s: State, j: string): State
  {
    if j !in s.jobs then s
    else
      var status := s.jobs[j].status;
      if CancelRequested(status) || status.Completed? || status.Failed? then s else WithJob(s, j, WaitingForUser)
  }

  function CancelStep(s: State, j: string): State
  {
    if j !in s.jobs then s
    else
      var status := s.jobs[j].status;
      if CancelRequested(status) || status.Completed? || status.Failed? then s else WithJob(s, j, Cancelling)
  }

  /** Where the directory cannot be made the job fails, without a look for a cancellation. */
  function PrepareStep(s: State, j: string, made: bool): State
  {
    if j !in s.tasks || s.tasks[j].phase != Preparing then s
    else WithPhase(s, j, if made then Cli else Finishing(Failed))
  }

  function CliExitStep(s: State, j: string, succeeded: bool): State
    requires TasksHaveJobs(s)
  {
    if j !in s.tasks || s.tasks[j].phase != Cli then s
    else if CancelRequested(s.jobs[j].status) then WithPhase(s, j, Finishing(Cancelled))
    else WithPhase(s, j, if succeeded then Exited else Finishing(Failed))
  }

  predicate TasksHaveJobs(s: State)
  {
    forall j :: j in s.tasks ==> j in s.jobs && s.jobs[j].account == s.tasks[j].account && s.tasks[j].account in s.accounts
  }

  /** `apply_completed_device_auth`: what the program left becomes the slot's identity. */
  function WithRead(a: Account, read: string, labelled: bool, reset: bool): Account
  {
    a.(slot := a.slot.(accountId := if reset || read != "" then Trim(read) else a.slot.accountId,
                       labelled := if reset then labelled else a.slot.labelled || labelled,
                       signedIn := true),
       history := if reset then {} else a.history,
       credential := read)
  }

  /** The memory side of a successful finalization. */
  function ApplyRead(s: State, j: string, read: string, labelled: bool): State
    requires TasksHaveJobs(s) && j in s.tasks
  {
    var task := s.tasks[j];
    var a := s.accounts[task.account];
    var reset := ChangedIdentity(read, task.expected, task.reauthentication);
    State(s.accounts[task.account := WithRead(a, read, labelled, reset)],
          s.jobs[j := s.jobs[j].(historyReset := reset)],
          s.tasks[j := task.(activate := a.slot.activate, historyReset := reset, phase := Applied)])
  }

  function FinalizeStep(s: State, j: string, read: Option<string>, labelled: bool, fault: Fault): State
    requires TasksHaveJobs(s)
  {
    if j !in s.tasks || s.tasks[j].phase != Exited then s
    else if CancelRequested(s.jobs[j].status) then WithPhase(s, j, Finishing(Cancelled))
    else
      var running, task := WithJob(s, j, Finalizing), s.tasks[j];
      if read.None? || (task.publicRepair && ChangedIdentity(read.value, task.expected, task.reauthentication)) then
        WithPhase(running, j, Finishing(Failed))
      else
        var (saved, ok) := Save(ApplyRead(running, j, read.value, labelled), fault);
        if ok then saved else WithPhase(saved, j, Finishing(Failed))
  }

  /** The two looks for a cancellation after finalization. */
  function ContinueStep(s: State, j: string): State
    requires TasksHaveJobs(s)
  {
    if j !in s.tasks || (s.tasks[j].phase != Applied && s.tasks[j].phase != Refreshed) then s
    else if CancelRequested(s.jobs[j].status) then WithPhase(s, j, Finishing(Cancelled))
    else WithPhase(s, j, if s.tasks[j].phase == Applied then Refreshing else Releasing)
  }

  /** Only a public repair's refresh can find another identity than the one expected. */
  function RefreshEndsStep(s: State, j: string, mismatch: bool): State
  {
    if j !in s.tasks || s.tasks[j].phase != Refreshing then s
    else WithPhase(s, j, if mismatch && s.tasks[j].publicRepair then Finishing(Failed) else Refreshed)
  }

  /** A quota refresh, of this sign-in or any other, names the slot's workspace. */
  function MetadataStep(s: State, id: Id, accountId: string, labelled: bool, fault: Fault): State
  {
    if id !in s.accounts || (accountId != "" && Trim(accountId) == "") then s
    else
      var slot := s.accounts[id].slot;
      Save(WithSlot(s, id, slot.(accountId := if accountId != "" then accountId else slot.accountId, labelled := labelled)),
           fault).0
  }

  function Opened(slot: Slot, activate: bool): Slot
  {
    var open := slot.(pending := false, expected := "");
    if activate then open.(enabled := true, inPool := true, activate := false) else open
  }

  /** The memory side of a release. */
  function OpenGate(s: State, j: string): State
    requires TasksHaveJobs(s) && j in s.tasks
  {
    var task := s.tasks[j];
    var a := s.accounts[task.account];
    var again := ChangedIdentity(a.slot.accountId, task.expected, task.reauthentication) && !task.historyReset;
    State(s.accounts[task.account := a.(slot := Opened(a.slot, task.activate), history := if again then {} else a.history)],
          if again then s.jobs[j := s.jobs[j].(historyReset := true)] else s.jobs,
          s.tasks[j := task.(historyReset := task.historyReset || again)])
  }

  /** A failed write closes the gate again in memory. */
  function ShutAgain(s: State, j: string): State
    requires TasksHaveJobs(s) && j in s.tasks
  {
    var task := s.tasks[j];
    var slot := s.accounts[task.account].slot;
    WithPhase(WithSlot(s, task.account, slot.(pending := true, expected := task.expected)), j, Finishing(Failed))
  }

  function ReleaseStep(s: State, j: string, fault: Fault): State
    requires TasksHaveJobs(s)
  {
    if j !in s.tasks || s.tasks[j].phase != Releasing then s
    else
      var task := s.tasks[j];
      if task.publicRepair && ChangedIdentity(s.accounts[task.account].slot.accountId, task.expected, task.reauthentication) then
        WithPhase(s, j, Finishing(Failed))
      else
        var (saved, ok) := SaveCompleted(OpenGate(s, j), fault);
        if ok then WithPhase(saved, j, Finishing(Completed)) else ShutAgain(saved, j)
  }

  /** `finish_login_job`: once a cancellation was requested only "cancelled" is written. */
  function FinishStep(s: State, j: string): State
    requires TasksHaveJobs(s)
  {
    if j !in s.tasks || !s.tasks[j].phase.Finishing? then s
    else
      var outcome := s.tasks[j].phase.outcome;
      var ended := s.(tasks := s.tasks - {j});
      if CancelRequested(s.jobs[j].status) && outcome != Cancelled then ended else WithJob(ended, j, outcome)
  }

  /** A request was routed to the slot: its gate is open and nobody signs in to it. */
  function RecordStep(s: State, id: Id): State
  {
    if id !in s.accounts || s.accounts[id].slot.pending || HasActiveFor(s, id) then s
    else
      var a := s.accounts[id];
      WithAccount(s, id, a.(history := a.history + {|a.openings|}))
  }

  function Restarted(a: Account): Account
  {
    a.(slot := a.disk, history := a.diskHistory, checked := false)
  }

  function CrashStep(s: State): State
  {
    State(map id | id in s.accounts :: Restarted(s.accounts[id]), map[], map[])
  }

  /** One step. A state in which a task has lost its job goes nowhere; no run reaches one. */
  function Next(s: State, step: Step): State
  {
    if !TasksHaveJobs(s) then s else Stepped(s, step)
  }

  function Stepped(s: State, step: Step): State
    requires TasksHaveJobs(s)
  {
    match step
    case CheckPublic(id) => CheckPublicStep(s, id)
    case Start(id, publicRepair, found, job, fault) => StartStep(s, id, publicRepair, found, job, fault)
    case Prompt(j) => PromptStep(s, j)
    case Cancel(j) => CancelStep(s, j)
    case Prepare(j, made) => PrepareStep(s, j, made)
    case CliExit(j, succeeded) => CliExitStep(s, j, succeeded)
    case Finalize(j, read, labelled, fault) => FinalizeStep(s, j, read, labelled, fault)
    case Continue(j) => ContinueStep(s, j)
    case RefreshEnds(j, mismatch) => RefreshEndsStep(s, j, mismatch)
    case Metadata(id, accountId, labelled, fault) => MetadataStep(s, id, accountId, labelled, fault)
    case Release(j, fault) => ReleaseStep(s, j, fault)
    case Finish(j) => FinishStep(s, j)
    case Record(id) => RecordStep(s, id)
    case OtherSave(fault) => Save(s, fault).0
    case Crash => CrashStep(s)
  }

  /** A run from a start. */
  function Run(start: State, steps: seq<Step>): State
  {
    if steps == [] then start else Next(Run(start, steps[..|steps| - 1]), steps[|steps| - 1])
  }

  // ---- what every step keeps ----

  /** History outlives an opening only when that sign-in reproduced the identity it was for. */
  predicate Faithful(o: Opening)
  {
    Same(o.signedIn, o.expected) && Same(o.final, o.expected)
  }

  predicate Continuous(openings: seq<Opening>, history: set<nat>)
  {
    forall e, k :: e in history && e <= k < |openings| ==> Faithful(openings[k])
  }

  predicate Known(slot: Slot)
  {
    Trim(slot.accountId) != "" || slot.signedIn
  }

  predicate AccountOk(a: Account)
  {
    && Continuous(a.openings, a.history)
    && Continuous(a.openings, a.diskHistory)
    && (a.disk.pending ==> a.slot.pending && Trim(a.slot.expected) == Trim(a.disk.expected))
    && (a.slot.pending && Trim(a.slot.expected) != "" ==> Known(a.slot))
    && (a.disk.pending && Trim(a.disk.expected) != "" ==> Known(a.disk))
    && (a.checked ==> Known(a.slot))
  }

  /** What a running sign-in knows about its slot. */
  predicate TaskOk(task: Task, a: Account)
  {
    if task.phase.Finishing? then !Active(task.phase.outcome)
    else
      && a.disk.pending && Trim(a.disk.expected) == task.expected
      && (task.publicRepair ==> task.reauthentication && !task.historyReset)
      && (!task.reauthentication ==> a.history == {})
      && (task.historyReset ==> a.history == {})
      && (!task.phase.Preparing? && !task.phase.Cli? && !task.phase.Exited? && task.reauthentication && !task.historyReset ==>
            Same(a.credential, task.expected))
  }

  predicate JobsInv(s: State)
  {
    && TasksHaveJobs(s)
    && (forall j :: j in s.tasks ==> Active(s.jobs[j].status))
    && (forall i, j :: i in s.jobs && j in s.jobs && Active(s.jobs[i].status) && Active(s.jobs[j].status) ==> i == j)
  }

  predicate Inv(s: State)
  {
    && JobsInv(s)
    && (forall id :: id in s.accounts ==> AccountOk(s.accounts[id]))
    && (forall j :: j in s.tasks ==> TaskOk(s.tasks[j], s.accounts[s.tasks[j].account]))
  }
}
