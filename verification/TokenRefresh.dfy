/**
 Refreshing one account's rotating tokens.

 Callers come and go; one permit guards the refresh; the exchange runs in a task of its own that
 keeps the permit; a sign-in writes auth.json without it. Every await is a point where a caller may
 be dropped and any other step may come between.
 */
module TokenRefresh {
  import opened Basics

  datatype Tokens = Tokens(access: string, refresh: string)

  datatype Part = Access | Refresh

  function Get(tokens: Tokens, part: Part): string
  {
    if part == Access then tokens.access else tokens.refresh
  }

  datatype Kind =
    | Proactive                       // refresh only when the token is about to expire
    | AfterRejection(access: string)  // upstream rejected this access token
    | Forced                          // the rejected token is still the one on file

  datatype Caller =
    | Waiting(kind: Kind)
    | Holding(kind: Kind)      // has the permit
    | Ready(spent: Tokens)     // has the permit, has read auth.json, is about to spend it

  /** `index` is the exchange's place in the log of what was sent. */
  datatype Task =
    | Exchanging(spent: Tokens, index: nat)
    | Replied(spent: Tokens, index: nat, reply: Tokens)
    | Writing(spent: Tokens, index: nat, reply: Tokens, overtaken: bool)  // auth.json still held `spent` when read

  /** The permit is an owned value: free, or with a caller, or moved into its task. */
  datatype Permit = Free | OfCaller(c: nat) | OfTask(t: nat)

  /** A reply that leaves a token out leaves it as it was. */
  datatype Exchange = Exchange(spent: Tokens, reply: Option<Tokens>)

  datatype Refusal = Refusal(tokens: Tokens, reason: string)

  const REFRESH_REFUSED := "token refresh refused"

  /** `sent`, `used` and `overtaken` record what happened; no step reads them. */
  datatype State = State(
    file: Tokens,
    permit: Permit,
    callers: map<nat, Caller>,
    tasks: map<nat, Task>,
    settling: int,
    refused: Option<Refusal>,
    sent: seq<Exchange>,
    used: set<string>)

  datatype Step =
    | Ask(c: nat, kind: Kind)
    | Acquire(c: nat)
    | Drop(c: nat)
    | Compare(c: nat)
    | Decide(c: nat, due: bool)
    | Spawn(c: nat, t: nat)
    | Reply(t: nat, reply: Tokens)
    | Refuse(t: nat, permanent: bool)
    | Lose(t: nat, reply: Tokens)     // upstream rotated the tokens, the reply did not arrive
    | Read(t: nat)
    | Write(t: nat, ok: bool)
    | Login(tokens: Tokens)
    | RecordRefused(tokens: Tokens, reason: string)
    | ClearRefused

  // ---- one step ----

  function Leave(s: State, c: nat): State
  {
    s.(callers := s.callers - {c}, permit := Free)
  }

  function End(s: State, t: nat): State
  {
    s.(tasks := s.tasks - {t}, settling := s.settling - 1, permit := Free)
  }

  /** The record for other tokens than those on file is forgotten when it is looked up. */
  function LookUp(refused: Option<Refusal>, file: Tokens): Option<Refusal>
  {
    if refused.Some? && refused.value.tokens == file then refused else None
  }

  function DecideStep(s: State, c: nat, due: bool): State
  {
    if c !in s.callers || !s.callers[c].Holding? || s.callers[c].kind.AfterRejection? then s
    else if s.file.refresh == "" then Leave(s, c)
    else
      var looked := s.(refused := LookUp(s.refused, s.file));
      if looked.refused.Some? && looked.refused.value.reason == REFRESH_REFUSED then Leave(looked, c)
      else if s.callers[c].kind.Proactive? && !due then Leave(looked, c)
      else looked.(callers := s.callers[c := Ready(s.file)])
  }

  function SpawnStep(s: State, c: nat, t: nat): State
  {
    if c !in s.callers || !s.callers[c].Ready? || t in s.tasks then s
    else
      var spent := s.callers[c].spent;
      s.(callers := s.callers - {c}, tasks := s.tasks[t := Exchanging(spent, |s.sent|)],
         permit := OfTask(t), settling := s.settling + 1, sent := s.sent + [Exchange(spent, None)])
  }

  /** Tokens upstream issues are new. */
  predicate Issued(s: State, tokens: Tokens)
  {
    forall p :: Get(tokens, p) == "" || Get(tokens, p) !in s.used
  }

  function Noted(s: State, t: nat, reply: Tokens): State
    requires t in s.tasks && s.tasks[t].Exchanging? && s.tasks[t].index < |s.sent|
  {
    s.(sent := s.sent[s.tasks[t].index := Exchange(s.tasks[t].spent, Some(reply))],
       used := s.used + {reply.access, reply.refresh})
  }

  /** The tokens on file that `spent` was, with those of the reply. */
  function Refreshed(spent: Tokens, reply: Tokens): Tokens
  {
    Tokens(if reply.access != "" then reply.access else spent.access,
           if reply.refresh != "" then reply.refresh else spent.refresh)
  }

  function LoginStep(s: State, tokens: Tokens): State
  {
    if !Issued(s, tokens) || tokens.access == "" || tokens.refresh == "" then s
    else
      s.(file := tokens, used := s.used + {tokens.access, tokens.refresh},
         tasks := map t | t in s.tasks ::
           if s.tasks[t].Writing? then s.tasks[t].(overtaken := true) else s.tasks[t])
  }

  function Next(s: State, step: Step): State
  {
    match step
    case Ask(c, kind) => if c in s.callers || kind.Forced? then s else s.(callers := s.callers[c := Waiting(kind)])
    case Acquire(c) =>
      if c in s.callers && s.callers[c].Waiting? && s.permit.Free?
      then s.(callers := s.callers[c := Holding(s.callers[c].kind)], permit := OfCaller(c)) else s
    case Drop(c) =>
      if c !in s.callers then s
      else if s.callers[c].Waiting? then s.(callers := s.callers - {c})
      else Leave(s, c)
    case Compare(c) =>
      if c !in s.callers || !s.callers[c].Holding? || !s.callers[c].kind.AfterRejection? then s
      else if s.file.access != s.callers[c].kind.access then Leave(s, c)
      else s.(callers := s.callers[c := Holding(Forced)])
    case Decide(c, due) => DecideStep(s, c, due)
    case Spawn(c, t) => SpawnStep(s, c, t)
    case Reply(t, reply) =>
      if t in s.tasks && s.tasks[t].Exchanging? && s.tasks[t].index < |s.sent| && Issued(s, reply)
      then Noted(s, t, reply).(tasks := s.tasks[t := Replied(s.tasks[t].spent, s.tasks[t].index, reply)]) else s
    case Refuse(t, permanent) =>
      if t in s.tasks && s.tasks[t].Exchanging?
      then End(if permanent then s.(refused := Some(Refusal(s.tasks[t].spent, REFRESH_REFUSED))) else s, t) else s
    case Lose(t, reply) =>
      if t in s.tasks && s.tasks[t].Exchanging? && s.tasks[t].index < |s.sent| && Issued(s, reply)
      then End(Noted(s, t, reply), t) else s
    case Read(t) =>
      if t in s.tasks && s.tasks[t].Replied? then
        var task := s.tasks[t];
        if s.file == task.spent then s.(tasks := s.tasks[t := Writing(task.spent, task.index, task.reply, false)])
        else End(s, t)
      else s
    case Write(t, ok) =>
      if t in s.tasks && s.tasks[t].Writing?
      then End(if ok then s.(file := Refreshed(s.tasks[t].spent, s.tasks[t].reply)) else s, t) else s
    case Login(tokens) => LoginStep(s, tokens)
    case RecordRefused(tokens, reason) => s.(refused := Some(Refusal(tokens, reason)))
    case ClearRefused => s.(refused := None)
  }

  // ---- what every step keeps ----

  /** The permit tells who is past waiting: one caller, or one task, or nobody. */
  predicate OneHolder(s: State)
  {
    && (forall c :: c in s.callers && !s.callers[c].Waiting? ==> s.permit == OfCaller(c))
    && (s.permit.OfCaller? ==> s.permit.c in s.callers && !s.callers[s.permit.c].Waiting?)
    && s.tasks.Keys == (if s.permit.OfTask? then {s.permit.t} else {})
    && s.settling == |s.tasks|
  }

  /** Tokens read earlier are on file still, or a sign-in replaced them both. */
  predicate Apart(file: Tokens, spent: Tokens)
  {
    file == spent || (file.access != spent.access && file.refresh != spent.refresh)
  }

  predicate Known(s: State, tokens: Tokens)
  {
    tokens.access in s.used && tokens.refresh in s.used
  }

  predicate TaskOk(s: State, task: Task)
  {
    && task.index == |s.sent| - 1 && s.sent[task.index].spent == task.spent
    && Apart(s.file, task.spent) && task.spent.refresh != ""
    && s.sent[task.index].reply == (if task.Exchanging? then None else Some(task.reply))
    && (!task.Exchanging? ==> forall i, p :: 0 <= i < |s.sent| && Get(task.reply, p) != "" ==>
          Get(s.sent[i].spent, p) != Get(task.reply, p))
    && (!task.Exchanging? ==> Known(s, task.reply))
    && (task.Writing? ==> (task.overtaken <==> s.file != task.spent))
  }

  predicate Inv(s: State)
  {
    && OneHolder(s)
    && Known(s, s.file)
    && (forall i :: 0 <= i < |s.sent| ==> Known(s, s.sent[i].spent))
    && (forall c :: c in s.callers && s.callers[c].Ready? ==>
          Known(s, s.callers[c].spent) && Apart(s.file, s.callers[c].spent) && s.callers[c].spent.refresh != "")
    && (forall t :: t in s.tasks ==> TaskOk(s, s.tasks[t]))
  }

  /** Upstream replaced this part of the tokens of exchange i. */
  predicate Replaced(s: State, i: nat, p: Part)
    requires i < |s.sent|
  {
    s.sent[i].reply.Some? && Get(s.sent[i].reply.value, p) != ""
  }

  /** The reply of exchange i is not on file yet: its task has it. */
  predicate InHand(s: State, i: nat)
  {
    exists t :: t in s.tasks && s.tasks[t].index == i
  }

  /** A token upstream replaced is neither on file, nor about to be sent, nor ever sent later. */
  predicate Retired(s: State)
  {
    && (forall i, j, p :: 0 <= i < j < |s.sent| && Replaced(s, i, p) ==> Get(s.sent[j].spent, p) != Get(s.sent[i].spent, p))
    && (forall i, p :: 0 <= i < |s.sent| && Replaced(s, i, p) && !InHand(s, i) ==> Get(s.file, p) != Get(s.sent[i].spent, p))
    && (forall i, p, c :: 0 <= i < |s.sent| && Replaced(s, i, p) && c in s.callers && s.callers[c].Ready? ==>
          Get(s.callers[c].spent, p) != Get(s.sent[i].spent, p))
  }

  /** Steps in which replies arrive and writes succeed. */
  predicate Sound(step: Step)
  {
    !step.Lose? && !(step.Write? && !step.ok)
  }

  predicate Initial(s: State)
  {
    && s.permit == Free && s.callers == map[] && s.tasks == map[] && s.settling == 0 && s.sent == []
    && s.used == {s.file.access, s.file.refresh}
  }

  // ---- the invariant ----

  lemma OnlyTask(s: State, t: nat)
    requires OneHolder(s) && t in s.tasks
    ensures s.tasks.Keys == {t} && s.permit == OfTask(t) && forall c :: c in s.callers ==> s.callers[c].Waiting?
    ensures s.tasks - {t} == map[] && |s.tasks| == 1
  {
    assert |s.tasks| == |s.tasks.Keys|;
  }

  lemma EndKeeps(s: State, t: nat)
    requires Inv(s) && t in s.tasks
    ensures Inv(End(s, t))
  {
    OnlyTask(s, t);
  }

  lemma SpawnKeeps(s: State, c: nat, t: nat)
    requires Inv(s)
    ensures Inv(SpawnStep(s, c, t))
  {
    if c in s.callers && s.callers[c].Ready? && t !in s.tasks {
      var u := SpawnStep(s, c, t);
      assert u.tasks.Keys == {t} && |u.tasks| == |u.tasks.Keys| && |s.tasks| == |s.tasks.Keys|;
      assert TaskOk(u, u.tasks[t]);
    }
  }

  lemma NotedKeeps(s: State, t: nat, reply: Tokens)
    requires Inv(s) && t in s.tasks && s.tasks[t].Exchanging? && s.tasks[t].index < |s.sent| && Issued(s, reply)
    ensures Known(Noted(s, t, reply), s.file)
    ensures forall i :: 0 <= i < |s.sent| ==> Known(Noted(s, t, reply), Noted(s, t, reply).sent[i].spent)
    ensures forall i :: 0 <= i < |s.sent| ==> Noted(s, t, reply).sent[i].spent == s.sent[i].spent
    ensures forall i, p :: 0 <= i < |s.sent| && Get(reply, p) != "" ==> Get(s.sent[i].spent, p) != Get(reply, p)
  {
    hide Apart, OneHolder;
    assert TaskOk(s, s.tasks[t]);
    forall i, p | 0 <= i < |s.sent| && Get(reply, p) != "" ensures Get(s.sent[i].spent, p) != Get(reply, p) {
      assert Known(s, s.sent[i].spent);
    }
  }

  lemma ReplyHolders(s: State, t: nat, reply: Tokens)
    requires OneHolder(s) && t in s.tasks
    ensures OneHolder(Next(s, Reply(t, reply)))
  {
    hide Issued;
    OnlyTask(s, t);
    var u := Next(s, Reply(t, reply));
    assert u.tasks.Keys == s.tasks.Keys && |u.tasks| == |u.tasks.Keys|;
  }

  lemma ReplyTask(s: State, t: nat, reply: Tokens)
    requires Inv(s) && t in s.tasks && s.tasks[t].Exchanging? && s.tasks[t].index < |s.sent| && Issued(s, reply)
    ensures TaskOk(Next(s, Reply(t, reply)), Next(s, Reply(t, reply)).tasks[t])
  {
    hide Issued, OneHolder;
    NotedKeeps(s, t, reply);
    assert TaskOk(s, s.tasks[t]);
  }

  lemma ReplyKeeps(s: State, t: nat, reply: Tokens)
    requires Inv(s)
    ensures Inv(Next(s, Reply(t, reply)))
  {
    hide Apart, Issued, OneHolder, TaskOk;
    if t in s.tasks && s.tasks[t].Exchanging? && s.tasks[t].index < |s.sent| && Issued(s, reply) {
      OnlyTask(s, t);
      NotedKeeps(s, t, reply);
      ReplyHolders(s, t, reply);
      ReplyTask(s, t, reply);
    }
  }

  lemma LoseKeeps(s: State, t: nat, reply: Tokens)
    requires Inv(s)
    ensures Inv(Next(s, Lose(t, reply)))
  {
    hide Inv, Issued;
    if t in s.tasks && s.tasks[t].Exchanging? && s.tasks[t].index < |s.sent| && Issued(s, reply) {
      ReplyKeeps(s, t, reply);
      EndKeeps(Next(s, Reply(t, reply)), t);
      assert Next(s, Lose(t, reply)) == End(Next(s, Reply(t, reply)), t);
    }
  }

  lemma LoginKeeps(s: State, tokens: Tokens)
    requires Inv(s)
    ensures Inv(LoginStep(s, tokens))
  {
    hide OneHolder, TaskOk, Issued;
    if Issued(s, tokens) && tokens.access != "" && tokens.refresh != "" {
      var u := LoginStep(s, tokens);
      NewTokens(s, tokens);
      LoginHolders(s, tokens);
      forall t | t in u.tasks ensures TaskOk(u, u.tasks[t]) {
        LoginTask(s, tokens, t);
      }
    }
  }

  lemma NewTokens(s: State, tokens: Tokens)
    requires Issued(s, tokens) && tokens.access != "" && tokens.refresh != ""
    ensures tokens.access !in s.used && tokens.refresh !in s.used
  {
    assert Get(tokens, Access) == tokens.access && Get(tokens, Refresh) == tokens.refresh;
  }

  lemma LoginHolders(s: State, tokens: Tokens)
    requires OneHolder(s)
    ensures OneHolder(LoginStep(s, tokens))
  {
    hide Issued;
    var u := LoginStep(s, tokens);
    assert u.tasks.Keys == s.tasks.Keys && |u.tasks| == |u.tasks.Keys| && |s.tasks| == |s.tasks.Keys|;
  }

  lemma LoginTask(s: State, tokens: Tokens, t: nat)
    requires Inv(s) && t in s.tasks && Issued(s, tokens) && tokens.access != "" && tokens.refresh != ""
    ensures TaskOk(LoginStep(s, tokens), LoginStep(s, tokens).tasks[t])
  {
    hide OneHolder, Issued;
    NewTokens(s, tokens);
    assert TaskOk(s, s.tasks[t]);
  }

  /** What a caller's step may do: it touches no task and no tokens, and what it reads is on file. */
  predicate CallersMoved(s: State, u: State)
  {
    && u == s.(callers := u.callers, permit := u.permit, refused := u.refused)
    && (u.permit == s.permit || (!u.permit.OfTask? && !s.permit.OfTask?))
    && (u.permit.OfCaller? ==> u.permit.c in u.callers && !u.callers[u.permit.c].Waiting?)
    && (forall c :: c in u.callers && !u.callers[c].Waiting? ==> u.permit == OfCaller(c))
    && (forall c :: c in u.callers && u.callers[c].Ready? ==>
          (u.callers[c].spent == s.file && s.file.refresh != "") || (c in s.callers && s.callers[c] == u.callers[c]))
  }

  lemma CallerMoves(s: State, step: Step)
    requires OneHolder(s)
    requires step.Ask? || step.Acquire? || step.Drop? || step.Compare? || step.Decide? || step.RecordRefused? || step.ClearRefused?
    ensures CallersMoved(s, Next(s, step))
  {
  }

  lemma MovedKeeps(s: State, u: State)
    requires Inv(s) && CallersMoved(s, u)
    ensures Inv(u)
  {
    forall t | t in u.tasks ensures TaskOk(u, u.tasks[t]) {
      assert TaskOk(s, s.tasks[t]);
    }
  }

  lemma RefuseKeeps(s: State, t: nat, permanent: bool)
    requires Inv(s)
    ensures Inv(Next(s, Refuse(t, permanent)))
  {
    if t in s.tasks && s.tasks[t].Exchanging? {
      var u := if permanent then s.(refused := Some(Refusal(s.tasks[t].spent, REFRESH_REFUSED))) else s;
      hide TaskOk, Known, Apart;
      MovedKeeps(s, u);
      EndKeeps(u, t);
    }
  }

  lemma ReadTask(s: State, t: nat)
    requires Inv(s) && t in s.tasks && s.tasks[t].Replied? && s.file == s.tasks[t].spent
    ensures TaskOk(Next(s, Read(t)), Next(s, Read(t)).tasks[t])
  {
    hide OneHolder;
    assert TaskOk(s, s.tasks[t]);
  }

  lemma ReadKeeps(s: State, t: nat)
    requires Inv(s)
    ensures Inv(Next(s, Read(t)))
  {
    hide Apart, TaskOk;
    if t in s.tasks && s.tasks[t].Replied? {
      if s.file == s.tasks[t].spent {
        var u := Next(s, Read(t));
        OnlyTask(s, t);
        assert u.tasks.Keys == s.tasks.Keys && |u.tasks| == |u.tasks.Keys|;
        ReadTask(s, t);
      } else {
        EndKeeps(s, t);
      }
    }
  }

  lemma WriteKeeps(s: State, t: nat, ok: bool)
    requires Inv(s)
    ensures Inv(Next(s, Write(t, ok)))
  {
    hide Apart;
    if t in s.tasks && s.tasks[t].Writing? {
      OnlyTask(s, t);
      EndKeeps(s, t);
      assert TaskOk(s, s.tasks[t]);
      assert Known(s, s.sent[s.tasks[t].index].spent);
    }
  }

  lemma StepKeeps(s: State, step: Step)
    requires Inv(s)
    ensures Inv(Next(s, step))
  {
    hide OneHolder, TaskOk, Known, Apart;
    match step {
      case Spawn(c, t) => SpawnKeeps(s, c, t);
      case Reply(t, reply) => ReplyKeeps(s, t, reply);
      case Lose(t, reply) => LoseKeeps(s, t, reply);
      case Login(tokens) => LoginKeeps(s, tokens);
      case Write(t, ok) => WriteKeeps(s, t, ok);
      case Refuse(t, permanent) => RefuseKeeps(s, t, permanent);
      case Read(t) => ReadKeeps(s, t);
      case _ =>
        CallerMoves(s, step);
        MovedKeeps(s, Next(s, step));
    }
  }

  // ---- replaced tokens stay out of use ----

  lemma SpawnRetires(s: State, c: nat, t: nat)
    requires Inv(s) && Retired(s)
    ensures Retired(SpawnStep(s, c, t))
  {
    hide TaskOk, Known, Apart;
    if c in s.callers && s.callers[c].Ready? && t !in s.tasks {
      var u := SpawnStep(s, c, t);
      assert s.permit == OfCaller(c) && s.tasks == map[];
      assert forall i, p :: 0 <= i < |s.sent| && Replaced(u, i, p) ==> Replaced(s, i, p) && !InHand(s, i);
    }
  }

  lemma ReplyRetires(s: State, t: nat, reply: Tokens)
    requires Inv(s) && Retired(s)
    ensures Retired(Next(s, Reply(t, reply)))
  {
    hide Known, Apart, Issued;
    var u := Next(s, Reply(t, reply));
    if u != s {
      OnlyTask(s, t);
      assert TaskOk(s, s.tasks[t]);
      assert t in u.tasks && u.tasks[t].index == |s.sent| - 1;
      assert InHand(u, |s.sent| - 1);
      assert forall i, p :: 0 <= i < |s.sent| - 1 && Replaced(u, i, p) ==> Replaced(s, i, p);
      assert forall i :: InHand(s, i) ==> InHand(u, i);
      assert forall c :: c in s.callers ==> s.callers[c].Waiting?;
    }
  }

  /** A reply not noted yet replaces nothing. */
  lemma NothingReplaced(s: State, t: nat)
    requires Inv(s) && Retired(s) && t in s.tasks && s.tasks[t].Exchanging?
    ensures forall i, p :: 0 <= i < |s.sent| && Replaced(s, i, p) ==> Get(s.file, p) != Get(s.sent[i].spent, p)
  {
    hide Known, Apart;
    OnlyTask(s, t);
    assert TaskOk(s, s.tasks[t]);
    var index := s.tasks[t].index;
    assert forall i :: InHand(s, i) ==> i == index;
  }

  lemma RefuseRetires(s: State, t: nat, permanent: bool)
    requires Inv(s) && Retired(s)
    ensures Retired(Next(s, Refuse(t, permanent)))
  {
    hide TaskOk, OneHolder, Known, Apart, Replaced, InHand;
    if t in s.tasks && s.tasks[t].Exchanging? {
      NothingReplaced(s, t);
      SameSent(s, Next(s, Refuse(t, permanent)));
    }
  }

  lemma ReadRetires(s: State, t: nat)
    requires Inv(s) && Retired(s)
    ensures Retired(Next(s, Read(t)))
  {
    hide Known, OneHolder, Replaced;
    if t in s.tasks && s.tasks[t].Replied? {
      var task, u := s.tasks[t], Next(s, Read(t));
      OnlyTask(s, t);
      assert TaskOk(s, task);
      SameSent(s, u);
      if s.file == task.spent {
        assert t in u.tasks && u.tasks[t].index == task.index;
        assert forall i :: InHand(s, i) ==> InHand(u, i);
      } else {
        assert Get(s.file, Access) != Get(task.spent, Access) && Get(s.file, Refresh) != Get(task.spent, Refresh);
        assert forall i :: InHand(s, i) ==> i == task.index;
      }
    }
  }

  lemma WrittenIsNew(s: State, t: nat)
    requires Inv(s) && Retired(s) && t in s.tasks && s.tasks[t].Writing?
    ensures var u := Next(s, Write(t, true));
      forall i, p :: 0 <= i < |s.sent| && Replaced(s, i, p) ==> Get(u.file, p) != Get(s.sent[i].spent, p)
  {
    hide Known, Apart, OneHolder;
    var task := s.tasks[t];
    assert TaskOk(s, task);
    var u := Next(s, Write(t, true));
    forall i, p | 0 <= i < |s.sent| && Replaced(s, i, p) ensures Get(u.file, p) != Get(s.sent[i].spent, p) {
      assert Get(u.file, p) == if Get(task.reply, p) != "" then Get(task.reply, p) else Get(task.spent, p);
    }
  }

  lemma WriteRetires(s: State, t: nat)
    requires Inv(s) && Retired(s)
    ensures Retired(Next(s, Write(t, true)))
  {
    hide TaskOk, Known, Apart, Replaced, InHand, Refreshed;
    if t in s.tasks && s.tasks[t].Writing? {
      OnlyTask(s, t);
      WrittenIsNew(s, t);
      SameSent(s, Next(s, Write(t, true)));
    }
  }

  lemma LoginRetires(s: State, tokens: Tokens)
    requires Inv(s) && Retired(s)
    ensures Retired(LoginStep(s, tokens))
  {
    hide TaskOk, Apart, OneHolder;
    if Issued(s, tokens) && tokens.access != "" && tokens.refresh != "" {
      var u := LoginStep(s, tokens);
      forall i, p | 0 <= i < |s.sent| ensures Get(u.file, p) != Get(s.sent[i].spent, p) {
        assert Known(s, s.sent[i].spent);
        assert Get(tokens, p) !in s.used;
      }
    }
  }

  lemma SameSent(s: State, u: State)
    requires u.sent == s.sent
    ensures forall i, p :: 0 <= i < |s.sent| ==> Replaced(u, i, p) == Replaced(s, i, p)
  {
  }

  lemma MovedRetires(s: State, u: State)
    requires Inv(s) && Retired(s) && CallersMoved(s, u)
    ensures Retired(u)
  {
    hide TaskOk, Apart, Known, Replaced;
    assert forall i :: InHand(u, i) <==> InHand(s, i);
    assert forall i, p :: 0 <= i < |s.sent| ==> Replaced(u, i, p) == Replaced(s, i, p) by {
      SameSent(s, u);
    }
    forall c | c in u.callers && u.callers[c].Ready? ensures s.tasks == map[] {
      assert u.permit == OfCaller(c);
    }
  }

  lemma StepRetires(s: State, step: Step)
    requires Inv(s) && Retired(s) && Sound(step)
    ensures Retired(Next(s, step))
  {
    hide OneHolder, TaskOk, Known, Apart;
    match step
    case Spawn(c, t) => SpawnRetires(s, c, t);
    case Reply(t, reply) => ReplyRetires(s, t, reply);
    case Login(tokens) => LoginRetires(s, tokens);
    case Write(t, ok) => WriteRetires(s, t);
    case Refuse(t, permanent) => RefuseRetires(s, t, permanent);
    case Read(t) => ReadRetires(s, t);
    case _ =>
      CallerMoves(s, step);
      MovedRetires(s, Next(s, step));
  }

  // ---- every run ----

  lemma InitialOk(s: State)
    requires Initial(s)
    ensures Inv(s) && Retired(s)
  {
  }

  function Run(s: State, steps: seq<Step>): State
    decreases |steps|
  {
    if steps == [] then s else Run(Next(s, steps[0]), steps[1..])
  }

  lemma {:induction false} RunKeeps(s: State, steps: seq<Step>)
    requires Inv(s)
    ensures Inv(Run(s, steps))
    decreases |steps|
  {
    hide Inv, Next;
    if steps != [] {
      StepKeeps(s, steps[0]);
      RunKeeps(Next(s, steps[0]), steps[1..]);
    }
  }

  lemma Reachable(start: State, steps: seq<Step>)
    requires Initial(start)
    ensures Inv(Run(start, steps))
  {
    hide Inv, Run, Initial;
    InitialOk(start);
    RunKeeps(start, steps);
  }

  lemma {:induction false} RunRetires(s: State, steps: seq<Step>)
    requires Inv(s) && Retired(s) && forall step :: step in steps ==> Sound(step)
    ensures Retired(Run(s, steps))
    decreases |steps|
  {
    hide Inv, Retired, Next;
    if steps != [] {
      StepKeeps(s, steps[0]);
      StepRetires(s, steps[0]);
      RunRetires(Next(s, steps[0]), steps[1..]);
    }
  }

  /**
   In every run whose replies arrive and whose writes succeed, with callers dropped and sign-ins
   landing anywhere: once upstream has replaced a token, no later exchange sends it. For refresh
   tokens this means none is spent twice; for access tokens, that however many callers had the token
   rejected, one exchange answers them all.
   */
  lemma ReplacedTokensAreNotSent(start: State, steps: seq<Step>, i: nat, j: nat, part: Part)
    requires Initial(start) && forall step :: step in steps ==> Sound(step)
    requires i < j < |Run(start, steps).sent| && Replaced(Run(start, steps), i, part)
    ensures Get(Run(start, steps).sent[j].spent, part) != Get(Run(start, steps).sent[i].spent, part)
  {
    hide Inv, Run;
    InitialOk(start);
    RunRetires(start, steps);
  }

  /** In every run, faults and all: the counter counts the running tasks, and there is at most one. */
  lemma SettlingCountsTasks(start: State, steps: seq<Step>)
    requires Initial(start)
    ensures var s := Run(start, steps); s.settling == |s.tasks| <= 1 && (s.permit.Free? ==> s.settling == 0)
  {
    hide Run, TaskOk, Apart, Known, Initial;
    Reachable(start, steps);
    var s := Run(start, steps);
    assert |s.tasks| == |s.tasks.Keys|;
  }

  // ---- a sign-in during an exchange ----

  /** A sign-in that lands before the result is read stays; the exchange's tokens are discarded. */
  lemma LoginBeforeReadStays(s: State, t: nat, tokens: Tokens)
    requires Inv(s) && t in s.tasks && s.tasks[t].Replied? && Issued(s, tokens) && tokens.access != "" && tokens.refresh != ""
    ensures var landed := Next(s, Login(tokens)); landed.file == tokens
    ensures Next(Next(s, Login(tokens)), Read(t)).file == tokens && t !in Next(Next(s, Login(tokens)), Read(t)).tasks
  {
    assert TaskOk(s, s.tasks[t]);
    assert Known(s, s.sent[s.tasks[t].index].spent);
    assert Get(tokens, Access) !in s.used;
  }

  /**
   The tokens of an exchange replace exactly those it spent, unless a sign-in came between its read
   and its write: then, and only then, they replace the sign-in's.
   */
  lemma WriteReplacesSpentTokens(start: State, steps: seq<Step>, t: nat)
    requires Initial(start)
    requires t in Run(start, steps).tasks && Run(start, steps).tasks[t].Writing?
    ensures var s := Run(start, steps);
      && Next(s, Write(t, true)).file == Refreshed(s.tasks[t].spent, s.tasks[t].reply)
      && (s.file == s.tasks[t].spent <==> !s.tasks[t].overtaken)
  {
    hide Run, OneHolder, Known, Apart, Initial;
    Reachable(start, steps);
    assert TaskOk(Run(start, steps), Run(start, steps).tasks[t]);
  }

  // ---- a reply that does not arrive, a write that fails ----

  /** No exchange runs and none is about to: the next one sends what is on file. */
  predicate Quiet(s: State, spent: Tokens)
  {
    && s.file == spent && s.tasks == map[] && (forall c :: c in s.callers && s.callers[c].Ready? ==> s.callers[c].spent == spent)
  }

  lemma QuietStep(s: State, step: Step, spent: Tokens)
    requires Quiet(s, spent) && !step.Login?
    ensures |Next(s, step).sent| >= |s.sent|
    ensures |Next(s, step).sent| == |s.sent| ==> Next(s, step).sent == s.sent && Quiet(Next(s, step), spent)
  {
    hide Issued, LookUp;
  }

  lemma QuietSpawn(s: State, spent: Tokens, c: nat, t: nat)
    requires Quiet(s, spent) && |Next(s, Spawn(c, t)).sent| > |s.sent|
    ensures Next(s, Spawn(c, t)).sent == s.sent + [Exchange(spent, None)]
  {
  }

  lemma SentGrows(s: State, step: Step)
    ensures |Next(s, step).sent| >= |s.sent|
  {
    hide Issued, LookUp;
  }

  lemma {:induction false} SentOnlyGrows(s: State, steps: seq<Step>)
    ensures |Run(s, steps).sent| >= |s.sent|
    decreases |steps|
  {
    hide Next;
    if steps != [] {
      SentGrows(s, steps[0]);
      SentOnlyGrows(Next(s, steps[0]), steps[1..]);
    }
  }

  /** Unless a sign-in comes first, the next exchange sends what is on file. */
  lemma {:induction false} NextExchange(s: State, steps: seq<Step>, spent: Tokens, c: nat, t: nat)
    requires Quiet(s, spent) && forall step :: step in steps ==> !step.Login?
    requires |Run(s, steps).sent| == |s.sent|
    requires |Next(Run(s, steps), Spawn(c, t)).sent| > |Run(s, steps).sent|
    ensures Run(s, steps).sent == s.sent
    ensures Next(Run(s, steps), Spawn(c, t)).sent == s.sent + [Exchange(spent, None)]
    decreases |steps|
  {
    hide Quiet, Next;
    if steps == [] {
      QuietSpawn(s, spent, c, t);
    } else {
      QuietStep(s, steps[0], spent);
      SentOnlyGrows(Next(s, steps[0]), steps[1..]);
      NextExchange(Next(s, steps[0]), steps[1..], spent, c, t);
    }
  }

  /**
   In every run: when the reply of an exchange is lost after upstream rotated the token it spent, and no
   sign-in replaced the tokens since they were read, the next exchange that starts before a sign-in
   sends the replaced token again.
   */
  lemma LostReplyResends(start: State, before: seq<Step>, t: nat, reply: Tokens, after: seq<Step>, c: nat, u: nat)
    requires Initial(start)
    requires var s := Run(start, before);
      && t in s.tasks && s.tasks[t].Exchanging? && s.file == s.tasks[t].spent
      && Issued(s, reply) && reply.refresh != ""
    requires var lost := Next(Run(start, before), Lose(t, reply));
      && (forall step :: step in after ==> !step.Login?) && |Run(lost, after).sent| == |lost.sent|
      && |Next(Run(lost, after), Spawn(c, u)).sent| > |lost.sent|
    ensures var s, again := Run(start, before), Next(Run(Next(Run(start, before), Lose(t, reply)), after), Spawn(c, u));
      && |again.sent| == |s.sent| + 1 >= 2 && Replaced(again, |s.sent| - 1, Refresh)
      && again.sent[|s.sent|].spent == again.sent[|s.sent| - 1].spent
  {
    hide Run, Initial, Issued, Known, Apart;
    var s := Run(start, before);
    Reachable(start, before);
    OnlyTask(s, t);
    assert TaskOk(s, s.tasks[t]);
    NextExchange(Next(s, Lose(t, reply)), after, s.file, c, u);
  }

  /** So does a write that fails. */
  lemma FailedWriteResends(start: State, before: seq<Step>, t: nat, after: seq<Step>, c: nat, u: nat)
    requires Initial(start)
    requires var s := Run(start, before);
      && t in s.tasks && s.tasks[t].Writing? && !s.tasks[t].overtaken && s.tasks[t].reply.refresh != ""
    requires var failed := Next(Run(start, before), Write(t, false));
      && (forall step :: step in after ==> !step.Login?) && |Run(failed, after).sent| == |failed.sent|
      && |Next(Run(failed, after), Spawn(c, u)).sent| > |failed.sent|
    ensures var s, again := Run(start, before), Next(Run(Next(Run(start, before), Write(t, false)), after), Spawn(c, u));
      && |again.sent| == |s.sent| + 1 >= 2 && Replaced(again, |s.sent| - 1, Refresh)
      && again.sent[|s.sent|].spent == again.sent[|s.sent| - 1].spent
  {
    hide Run, Initial, Known, Apart;
    var s := Run(start, before);
    Reachable(start, before);
    OnlyTask(s, t);
    assert TaskOk(s, s.tasks[t]);
    NextExchange(Next(s, Write(t, false)), after, s.file, c, u);
  }

  // ---- what the conditions are for ----

  const OLD := Tokens("a0", "r0")
  const NEW := Tokens("a1", "r1")
  const SIGNED_IN := Tokens("a2", "r2")

  function Fresh(): State
  {
    State(OLD, Free, map[], map[], 0, None, [], {"a0", "r0"})
  }

  /** A caller that refreshes whatever is on file, as far as the exchange. */
  function Exchanged(s: State, c: nat, t: nat): State
  {
    Next(Next(Next(Next(s, Ask(c, Proactive)), Acquire(c)), Decide(c, true)), Spawn(c, t))
  }

  lemma ExchangedIs(s: State, c: nat, t: nat)
    requires s.callers == map[] && s.tasks == map[] && s.permit == Free && s.file.refresh != "" && s.refused == None
    ensures Exchanged(s, c, t) == s.(permit := OfTask(t), tasks := map[t := Exchanging(s.file, |s.sent|)], settling := s.settling + 1,
                                     sent := s.sent + [Exchange(s.file, None)])
  {
    var waiting := s.(callers := map[c := Waiting(Proactive)]);
    var holding := s.(callers := map[c := Holding(Proactive)], permit := OfCaller(c));
    var ready := s.(callers := map[c := Ready(s.file)], permit := OfCaller(c));
    assert Next(s, Ask(c, Proactive)) == waiting;
    assert Next(waiting, Acquire(c)) == holding;
    assert Next(holding, Decide(c, true)) == ready;
    assert ready.callers - {c} == map[];
  }

  lemma NewIsIssued(s: State)
    requires s.used == {"a0", "r0"}
    ensures Issued(s, NEW)
  {
    assert "a1" != "a0" && "a1" != "r0" && "r1" != "a0" && "r1" != "r0" by {
      assert "a1"[0] != "r0"[0] && "a1"[1] != "a0"[1] && "r1"[0] != "a0"[0] && "r1"[1] != "r0"[1];
    }
  }

  /** A run of the kind `LostReplyResends` is about. */
  lemma LostReplyRun()
    ensures Initial(Fresh())
    ensures var s := Exchanged(Next(Exchanged(Fresh(), 0, 0), Lose(0, NEW)), 1, 1);
      |s.sent| == 2 && Replaced(s, 0, Refresh) && s.sent[1].spent == s.sent[0].spent
  {
    hide Exchanged, Issued;
    var s := Fresh();
    ExchangedIs(s, 0, 0);
    NewIsIssued(Exchanged(s, 0, 0));
    var lost := s.(sent := [Exchange(OLD, Some(NEW))], used := {"a0", "r0", "a1", "r1"});
    assert Next(Exchanged(s, 0, 0), Lose(0, NEW)) == lost;
    ExchangedIs(lost, 1, 1);
  }

  /** The state in which the reply has been read back against auth.json. */
  lemma ReadIs()
    ensures Next(Next(Exchanged(Fresh(), 0, 0), Reply(0, NEW)), Read(0))
         == Fresh().(permit := OfTask(0), tasks := map[0 := Writing(OLD, 0, NEW, false)], settling := 1,
                     sent := [Exchange(OLD, Some(NEW))], used := {"a0", "r0", "a1", "r1"})
  {
    hide Exchanged, Issued;
    var s := Fresh();
    ExchangedIs(s, 0, 0);
    NewIsIssued(Exchanged(s, 0, 0));
    var replied := s.(permit := OfTask(0), tasks := map[0 := Replied(OLD, 0, NEW)], settling := 1,
                      sent := [Exchange(OLD, Some(NEW))], used := {"a0", "r0", "a1", "r1"});
    assert Next(Exchanged(s, 0, 0), Reply(0, NEW)) == replied;
  }

  /** And one for `FailedWriteResends`. */
  lemma FailedWriteRun()
    ensures var s := Exchanged(Next(Next(Next(Exchanged(Fresh(), 0, 0), Reply(0, NEW)), Read(0)), Write(0, false)), 1, 1);
      |s.sent| == 2 && Replaced(s, 0, Refresh) && s.sent[1].spent == s.sent[0].spent
  {
    hide Exchanged, Issued;
    var s := Fresh();
    ReadIs();
    var failed := s.(sent := [Exchange(OLD, Some(NEW))], used := {"a0", "r0", "a1", "r1"});
    assert Next(Next(Next(Exchanged(s, 0, 0), Reply(0, NEW)), Read(0)), Write(0, false)) == failed;
    ExchangedIs(failed, 1, 1);
  }

  /** A sign-in between the read and the write is lost. */
  lemma LoginAfterReadIsLost()
    ensures var s := Next(Next(Next(Exchanged(Fresh(), 0, 0), Reply(0, NEW)), Read(0)), Login(SIGNED_IN));
      s.file == SIGNED_IN && Next(s, Write(0, true)).file == NEW
  {
    hide Exchanged;
    ReadIs();
    var read := Next(Next(Exchanged(Fresh(), 0, 0), Reply(0, NEW)), Read(0));
    assert "a2"[1] != "a0"[1] && "a2"[1] != "a1"[1] && "r2"[1] != "r0"[1] && "r2"[1] != "r1"[1];
    assert "a2"[0] != "r0"[0] && "a2"[0] != "r1"[0] && "r2"[0] != "a0"[0] && "r2"[0] != "a1"[0];
    assert Issued(read, SIGNED_IN);
  }

  // ---- a refusal for good ----

  predicate Settled(s: State)
  {
    && s.refused == Some(Refusal(s.file, REFRESH_REFUSED)) && s.tasks == map[]
    && forall c :: c in s.callers ==> !s.callers[c].Ready?
  }

  /** Tokens whose refresh upstream refused for good are not sent again, by anyone, while they stay on file. */
  lemma {:induction false} RefusedTokensAreNotSent(s: State, steps: seq<Step>)
    requires Inv(s) && Settled(s)
    requires forall step :: step in steps ==> !step.Login? && !step.RecordRefused? && !step.ClearRefused?
    ensures Run(s, steps).sent == s.sent && Settled(Run(s, steps))
    decreases |steps|
  {
    hide Inv;
    if steps != [] {
      StepKeeps(s, steps[0]);
      RefusedTokensAreNotSent(Next(s, steps[0]), steps[1..]);
    }
  }
}
