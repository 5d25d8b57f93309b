/** Run statuses, and a lock on a task row, taken by a run and released in two steps. */
module TaskLock {
  import opened Text

  datatype Status =
    | Queued
    | Provisioning
    | Preparing
    | Running
    | FinalizingPrepare
    | FinalizingUploading
    | FinalizingVerifying
    | FinalizingMetadataCommit
    | Finalized
    | Completed
    | Failed
    | WorkerUnreachable
    | FinalizingRetryableFailed
    | FinalizingTimeout
    | FinalizingManualIntervention

  /** The transition table of the contracts package. */
  function ValidTransitions(from: Status): set<Status> {
    match from
    case Queued => {Provisioning, Failed}
    case Provisioning => {Preparing, Failed}
    case Preparing => {Running, Failed}
    case Running => {FinalizingPrepare, Failed, WorkerUnreachable}
    case FinalizingPrepare => {FinalizingUploading, Failed, FinalizingRetryableFailed}
    case FinalizingUploading => {FinalizingVerifying, Failed, FinalizingRetryableFailed}
    case FinalizingVerifying => {FinalizingMetadataCommit, Failed, FinalizingRetryableFailed}
    case FinalizingMetadataCommit => {Finalized, Failed, FinalizingRetryableFailed}
    case Finalized => {Completed}
    case Completed => {}
    case Failed => {Queued}
    case WorkerUnreachable => {Failed, Running}
    case FinalizingRetryableFailed => {FinalizingUploading, FinalizingTimeout}
    case FinalizingTimeout => {FinalizingManualIntervention}
    case FinalizingManualIntervention => {Failed}
  }

  predicate IsValidRunTransition(from: Status, to: Status) {
    to in ValidTransitions(from)
  }

  /** The table the run service consults. */
  function Transitions(from: Status): set<Status> {
    match from
    case Queued => {Provisioning, Failed}
    case Provisioning => {Preparing, Failed}
    case Preparing => {Running, Failed}
    case Running => {FinalizingPrepare, Failed, WorkerUnreachable}
    case WorkerUnreachable => {Running, Failed}
    case FinalizingPrepare => {FinalizingUploading, Failed}
    case FinalizingUploading => {FinalizingVerifying, FinalizingRetryableFailed, Failed}
    case FinalizingVerifying => {FinalizingMetadataCommit, FinalizingRetryableFailed, Failed}
    case FinalizingMetadataCommit => {Finalized, Failed}
    case Finalized => {Completed}
    case FinalizingRetryableFailed => {FinalizingUploading, FinalizingTimeout}
    case FinalizingTimeout => {FinalizingManualIntervention, Failed}
    case FinalizingManualIntervention => {Failed}
    case Completed => {}
    case Failed => {Queued}
  }

  predicate CanTransition(from: Status, to: Status) {
    to in Transitions(from)
  }

  /** The two tables disagree on exactly three pairs. */
  lemma TablesDiffer(from: Status, to: Status)
    ensures IsValidRunTransition(from, to) && !CanTransition(from, to) <==>
            to == FinalizingRetryableFailed && (from == FinalizingPrepare || from == FinalizingMetadataCommit)
    ensures CanTransition(from, to) && !IsValidRunTransition(from, to) <==>
            from == FinalizingTimeout && to == Failed
  {
  }

  /** The run service's table: on to the next stage, off to `Failed`, and a few ways of recovery. */
  lemma TransitionsAre(from: Status, to: Status)
    ensures CanTransition(from, to) <==>
            || (from, to) in {
                 (Queued, Provisioning), (Provisioning, Preparing), (Preparing, Running), (Running, FinalizingPrepare),
                 (FinalizingPrepare, FinalizingUploading), (FinalizingUploading, FinalizingVerifying),
                 (FinalizingVerifying, FinalizingMetadataCommit), (FinalizingMetadataCommit, Finalized),
                 (Finalized, Completed)}
            || (to == Failed && from !in {Finalized, Completed, Failed, FinalizingRetryableFailed})
            || (from, to) in {
                 (Running, WorkerUnreachable), (WorkerUnreachable, Running), (Failed, Queued),
                 (FinalizingUploading, FinalizingRetryableFailed), (FinalizingVerifying, FinalizingRetryableFailed),
                 (FinalizingRetryableFailed, FinalizingUploading), (FinalizingRetryableFailed, FinalizingTimeout),
                 (FinalizingTimeout, FinalizingManualIntervention)}
  {
  }

  /** The statuses reachable from `from`, itself included, by the run service's table in at most `n` steps. */
  ghost predicate Reaches(from: Status, to: Status, n: nat)
    decreases n
  {
    from == to || (n > 0 && exists mid :: CanTransition(from, mid) && Reaches(mid, to, n - 1))
  }

  /** `Completed` is the only status that can never be left, and every status can still reach it. */
  lemma CompletedIsTheOnlyEnd(from: Status)
    ensures (forall to :: !CanTransition(from, to)) <==> from == Completed
    ensures (forall to :: !IsValidRunTransition(from, to)) <==> from == Completed
    ensures Reaches(from, Completed, 14)
  {
    if from != Completed {
      assert CanTransition(from, Onward(from)) && IsValidRunTransition(from, Onward(from));
    }
    OnwardReaches(from, 14);
  }

  /** One step of a shortest way to `Completed`. */
  function Onward(from: Status): Status {
    match from
    case Queued => Provisioning
    case Provisioning => Preparing
    case Preparing => Running
    case Running => FinalizingPrepare
    case FinalizingPrepare => FinalizingUploading
    case FinalizingUploading => FinalizingVerifying
    case FinalizingVerifying => FinalizingMetadataCommit
    case FinalizingMetadataCommit => Finalized
    case Finalized => Completed
    case Completed => Completed
    case Failed => Queued
    case WorkerUnreachable => Running
    case FinalizingRetryableFailed => FinalizingUploading
    case FinalizingTimeout => FinalizingManualIntervention
    case FinalizingManualIntervention => Failed
  }

  function Distance(from: Status): nat {
    match from
    case Completed => 0
    case Finalized => 1
    case FinalizingMetadataCommit => 2
    case FinalizingVerifying => 3
    case FinalizingUploading => 4
    case FinalizingPrepare => 5
    case FinalizingRetryableFailed => 5
    case Running => 6
    case Preparing => 7
    case WorkerUnreachable => 7
    case Provisioning => 8
    case Queued => 9
    case Failed => 10
    case FinalizingManualIntervention => 11
    case FinalizingTimeout => 12
  }

  lemma {:induction false} OnwardReaches(from: Status, n: nat)
    requires n >= Distance(from)
    ensures Reaches(from, Completed, n)
    decreases n
  {
    if from != Completed {
      assert CanTransition(from, Onward(from));
      OnwardReaches(Onward(from), n - 1);
    }
  }

  // ---------------------------------------------------------------- rows and steps

  datatype Run = Run(task: Option<nat>, status: Status)

  datatype Task = Task(active: Option<nat>, head: Option<nat>)

  /** What a process has read and is about to write: a run's status, or a lock release. */
  datatype Pending =
    | Write(run: nat, read: Status, to: Status)
    | Release(run: nat, task: nat, read: Status)

  datatype State = State(runs: map<nat, Run>, tasks: map<nat, Task>, pending: map<nat, Pending>)

  const EMPTY := State(map[], map[], map[])

  datatype Op =
    | CreateTask(task: nat)
    | CreateRun(run: nat, of: Option<nat>)
    | CreateTaskWithRun(task: nat, run: nat)
    | Acquire(task: nat, run: nat)
    | CancelTask(task: nat)
    | BeginTransition(process: nat, run: nat, to: Status)
    | BeginTouch(process: nat, run: nat)
    | BeginRelease(process: nat, run: nat)
    | Commit(process: nat)

  /** What a release leaves of a task row. */
  function Released(t: Task, run: nat, read: Status): Task {
    if t.active != Some(run) then t
    else Task(None, if read == Completed then Some(run) else t.head)
  }

  function Finish(s: State, p: Pending): State {
    match p
    case Write(run, _, to) =>
      if run in s.runs then s.(runs := s.runs[run := s.runs[run].(status := to)]) else s
    case Release(run, task, read) =>
      if task in s.tasks then s.(tasks := s.tasks[task := Released(s.tasks[task], run, read)]) else s
  }

  function Begin(s: State, process: nat, p: Pending): State {
    s.(pending := s.pending[process := p])
  }

  /** One step; where the source throws, or finds no row, nothing changes. */
  function Step(s: State, op: Op): State {
    match op
    case CreateTask(t) =>
      if t in s.tasks then s else s.(tasks := s.tasks[t := Task(None, None)])
    case CreateRun(r, of) =>
      if r in s.runs then s else s.(runs := s.runs[r := Run(of, Queued)])
    case CreateTaskWithRun(t, r) =>
      if t in s.tasks || r in s.runs then s
      else s.(runs := s.runs[r := Run(Some(t), Queued)], tasks := s.tasks[t := Task(Some(r), Some(r))])
    case Acquire(t, r) =>
      if t in s.tasks then s.(tasks := s.tasks[t := s.tasks[t].(active := Some(r))]) else s
    case CancelTask(t) =>
      if t in s.tasks then s.(tasks := s.tasks[t := s.tasks[t].(active := None)]) else s
    case BeginTransition(process, r, to) =>
      if r in s.runs && CanTransition(s.runs[r].status, to) then Begin(s, process, Write(r, s.runs[r].status, to)) else s
    case BeginTouch(process, r) =>
      if r in s.runs then Begin(s, process, Write(r, s.runs[r].status, s.runs[r].status)) else s
    case BeginRelease(process, r) =>
      if r in s.runs && s.runs[r].task.Some? then Begin(s, process, Release(r, s.runs[r].task.value, s.runs[r].status))
      else s
    case Commit(process) =>
      if process in s.pending then Finish(s, s.pending[process]).(pending := s.pending - {process}) else s
  }

  // ---------------------------------------------------------------- the services

  class Database {
    var runs: map<nat, Run>
    var tasks: map<nat, Task>

    constructor ()
      ensures runs == map[] && tasks == map[]
    {
      runs, tasks := map[], map[];
    }

    ghost function Abs(): State
      reads this
    {
      State(runs, tasks, map[])
    }

    method FindRun(runId: nat) returns (run: Option<Run>)
      ensures run == if runId in runs then Some(runs[runId]) else None
    {
      run := if runId in runs then Some(runs[runId]) else None;
    }

    /** The transition a run service makes when no other process comes between its read and its write. */
    method Transition(runId: nat, to: Status) returns (ok: bool)
      modifies this
      ensures ok <==> runId in old(runs) && CanTransition(old(runs)[runId].status, to)
      ensures Abs() == Step(Step(old(Abs()), BeginTransition(0, runId, to)), Commit(0))
      ensures tasks == old(tasks) && runs == if ok then old(runs)[runId := Run(old(runs)[runId].task, to)] else old(runs)
    {
      var run := FindRun(runId);
      if run.None? || !CanTransition(run.value.status, to) {
        return false;
      }
      runs := runs[runId := run.value.(status := to)];
      ok := true;
    }

    /** The release when no other process comes between its read and its conditional update. */
    method ReleaseTaskLock(runId: nat)
      modifies this
      ensures Abs() == Step(Step(old(Abs()), BeginRelease(0, runId)), Commit(0))
      ensures runs == old(runs)
      ensures forall t | t in old(tasks) ::
        && t in tasks
        && var before := old(tasks)[t];
           tasks[t] == if runId in runs && runs[runId].task == Some(t) && before.active == Some(runId)
                       then Task(None, if runs[runId].status == Completed then Some(runId) else before.head)
                       else before
    {
      var run := FindRun(runId);
      if run.None? || run.value.task.None? {
        return;
      }
      var task := run.value.task.value;
      if task in tasks && tasks[task].active == Some(runId) {
        var head := if run.value.status == Completed then Some(runId) else tasks[task].head;
        tasks := tasks[task := Task(None, head)];
      }
    }
  }

  function RunOps(s: State, ops: seq<Op>): State
    decreases |ops|
  {
    if ops == [] then s else RunOps(Step(s, ops[0]), ops[1..])
  }

  /** What a step does to rows: new runs are queued, a status changes only to what some process set out to write. */
  lemma StepChanges(s: State, op: Op)
    ensures var t := Step(s, op);
            && (forall r | r in s.runs :: r in t.runs && t.runs[r].task == s.runs[r].task)
            && (forall r | r in t.runs && r !in s.runs :: t.runs[r].status == Queued)
            && (forall r | r in s.runs && t.runs[r] != s.runs[r] ::
                  && op.Commit? && op.process in s.pending && s.pending[op.process].Write?
                  && s.pending[op.process].run == r && t.runs[r].status == s.pending[op.process].to)
            && (forall k | k in s.tasks :: k in t.tasks)
            && (forall k | k in t.tasks && k !in s.tasks ::
                  if op.CreateTask? then t.tasks[k] == Task(None, None)
                  else op.CreateTaskWithRun? && t.tasks[k] == Task(Some(op.run), Some(op.run)))
    ensures forall k | k in s.tasks && Step(s, op).tasks[k].head != s.tasks[k].head ::
              && op.Commit? && op.process in s.pending && s.pending[op.process].Release?
              && var p := s.pending[op.process];
                 && p.task == k && p.read == Completed && s.tasks[k].active == Some(p.run)
                 && Step(s, op).tasks[k].head == Some(p.run)
    ensures forall process: nat, run: nat | op == BeginTouch(process, run) && run in s.runs ::
              && process in Step(s, op).pending
              && Step(s, op).pending[process] == Write(run, s.runs[run].status, s.runs[run].status)
    ensures forall task: nat | op == CancelTask(task) && task in s.tasks :: Step(s, op).tasks[task].active == None
    ensures forall process: nat, run: nat, read: Status, to: Status | op == Commit(process) && process in s.pending
              && s.pending[process] == Write(run, read, to) && run in s.runs :: Step(s, op).runs[run].status == to
    ensures forall task: nat, run: nat | op == Acquire(task, run) && task in s.tasks ::
              Step(s, op).tasks[task].active == Some(run)
    ensures forall process: nat, run: nat, to: Status | op == BeginTransition(process, run, to) && run in s.runs
              && CanTransition(s.runs[run].status, to) ::
              process in Step(s, op).pending && Step(s, op).pending[process] == Write(run, s.runs[run].status, to)
  {
    hide CanTransition;
  }

  // ---------------------------------------------------------------- the lock

  predicate Holds(s: State, t: nat, run: nat) {
    t in s.tasks && s.tasks[t].active == Some(run)
  }

  /** The steps that take the lock of task `t` from `run`; of all releases only those of `run` itself. */
  predicate Takes(s: State, op: Op, t: nat, run: nat) {
    match op
    case Acquire(task, other) => task == t && other != run
    case CancelTask(task) => task == t
    case Commit(process) =>
      process in s.pending && s.pending[process].Release? && s.pending[process].run == run && s.pending[process].task == t
    case _ => false
  }

  /** A release changes no row but that of its own run's task, and only while that run holds its lock. */
  lemma ReleaseClearsOnlyItsOwn(s: State, process: nat, t: nat)
    requires process in s.pending && s.pending[process].Release? && t in s.tasks
    ensures var after := Step(s, Commit(process));
            && t in after.tasks && after.runs == s.runs
            && (after.tasks[t] != s.tasks[t] ==>
                  && s.tasks[t].active == Some(s.pending[process].run) && after.tasks[t].active == None
                  && s.pending[process].task == t)
  {
  }

  lemma StepTakesIff(s: State, op: Op, t: nat, run: nat)
    requires Holds(s, t, run)
    ensures Holds(Step(s, op), t, run) <==> !Takes(s, op, t, run)
  {
  }

  ghost predicate AlwaysHolds(s: State, ops: seq<Op>, t: nat, run: nat)
    decreases |ops|
  {
    Holds(s, t, run) && (ops != [] ==> AlwaysHolds(Step(s, ops[0]), ops[1..], t, run))
  }

  predicate NeverTaken(s: State, ops: seq<Op>, t: nat, run: nat)
    decreases |ops|
  {
    ops != [] ==> !Takes(s, ops[0], t, run) && NeverTaken(Step(s, ops[0]), ops[1..], t, run)
  }

  /**
   * Over every interleaving a run keeps its lock throughout exactly when no step takes it: another run acquiring it,
   * a cancellation, or the run's own release. No release of a different run ever clears it.
   */
  lemma {:induction false} LockIsLostOnlyTo(s: State, ops: seq<Op>, t: nat, run: nat)
    requires Holds(s, t, run)
    ensures AlwaysHolds(s, ops, t, run) <==> NeverTaken(s, ops, t, run)
    decreases |ops|
  {
    if ops != [] {
      StepTakesIff(s, ops[0], t, run);
      if !Takes(s, ops[0], t, run) {
        LockIsLostOnlyTo(Step(s, ops[0]), ops[1..], t, run);
      }
    }
  }

  // ---------------------------------------------------------------- heads are completed runs

  predicate IsCompleted(s: State, run: nat) {
    run in s.runs && s.runs[run].status == Completed
  }

  predicate HeadOf(s: State, t: nat, run: nat) {
    t in s.tasks && s.tasks[t].head == Some(run)
  }

  ghost predicate HeadsCompleted(s: State) {
    forall t: nat, run: nat :: HeadOf(s, t, run) ==> IsCompleted(s, run)
  }

  /** Writes another status over a run that some task has for its head. */
  ghost predicate Demotes(s: State, p: Pending) {
    p.Write? && p.to != Completed && exists t: nat :: HeadOf(s, t, p.run)
  }

  /** Makes a run the head that was completed when it was read and is no longer. */
  predicate Crowns(s: State, p: Pending) {
    p.Release? && p.read == Completed && Holds(s, p.task, p.run) && !IsCompleted(s, p.run)
  }

  /** Creating a task together with its first run, demoting a head, or crowning a run that is not completed. */
  ghost predicate Breaks(s: State, op: Op) {
    match op
    case CreateTaskWithRun(t, r) => t !in s.tasks && r !in s.runs
    case Commit(process) => process in s.pending && (Demotes(s, s.pending[process]) || Crowns(s, s.pending[process]))
    case _ => false
  }

  lemma CommitKeepsIff(s: State, process: nat, p: Pending)
    requires HeadsCompleted(s) && process in s.pending && s.pending[process] == p
    ensures HeadsCompleted(Step(s, Commit(process))) <==> !(Demotes(s, p) || Crowns(s, p))
  {
    var after := Step(s, Commit(process));
    if Demotes(s, p) {
      var t: nat :| HeadOf(s, t, p.run);
      assert HeadOf(after, t, p.run);
    } else if Crowns(s, p) {
      assert HeadOf(after, p.task, p.run);
    } else {
      forall t: nat, run: nat | HeadOf(after, t, run) ensures IsCompleted(after, run) {
        assert HeadOf(s, t, run) || (p.Release? && p.read == Completed && p.run == run && Holds(s, t, run));
      }
    }
  }

  lemma OthersKeep(s: State, op: Op)
    requires HeadsCompleted(s) && !op.Commit? && !op.CreateTaskWithRun?
    ensures HeadsCompleted(Step(s, op))
  {
    forall t: nat, run: nat | HeadOf(Step(s, op), t, run) ensures IsCompleted(Step(s, op), run) {
      assert HeadOf(s, t, run);
    }
  }

  /** From heads that are completed runs, exactly these steps lead to one that is not. */
  lemma StepKeepsIff(s: State, op: Op)
    requires HeadsCompleted(s)
    ensures HeadsCompleted(Step(s, op)) <==> !Breaks(s, op)
  {
    match op
    case CreateTaskWithRun(t, r) =>
      assert Breaks(s, op) ==> HeadOf(Step(s, op), t, r);
      assert !Breaks(s, op) ==> Step(s, op) == s;
    case Commit(process) =>
      if process in s.pending {
        CommitKeepsIff(s, process, s.pending[process]);
      }
    case _ => OthersKeep(s, op);
  }

  /** At every point of the run. */
  ghost predicate AlwaysCompleted(s: State, ops: seq<Op>)
    decreases |ops|
  {
    HeadsCompleted(s) && (ops != [] ==> AlwaysCompleted(Step(s, ops[0]), ops[1..]))
  }

  ghost predicate NeverBreaks(s: State, ops: seq<Op>)
    decreases |ops|
  {
    ops != [] ==> !Breaks(s, ops[0]) && NeverBreaks(Step(s, ops[0]), ops[1..])
  }

  /** Over every interleaving: every head is a completed run throughout exactly when no step breaks it. */
  lemma {:induction false} HeadsCompletedIff(s: State, ops: seq<Op>)
    requires HeadsCompleted(s)
    ensures AlwaysCompleted(s, ops) <==> NeverBreaks(s, ops)
    decreases |ops|
  {
    if ops != [] {
      StepKeepsIff(s, ops[0]);
      if !Breaks(s, ops[0]) {
        HeadsCompletedIff(Step(s, ops[0]), ops[1..]);
      } else {
        assert !AlwaysCompleted(Step(s, ops[0]), ops[1..]);
      }
    }
  }

  // ---------------------------------------------------------------- when every write is fresh

  /** Pending writes carry a transition that was allowed, or leave the status as it was read. */
  predicate WritesAllowed(s: State) {
    forall process | process in s.pending && s.pending[process].Write? ::
      s.pending[process].read == s.pending[process].to || CanTransition(s.pending[process].read, s.pending[process].to)
  }

  /** A committing status write finds the status it was decided on. */
  predicate Fresh(s: State, op: Op) {
    op.Commit? && op.process in s.pending && s.pending[op.process].Write? && s.pending[op.process].run in s.runs ==>
      s.runs[s.pending[op.process].run].status == s.pending[op.process].read
  }

  predicate AllFresh(s: State, ops: seq<Op>)
    decreases |ops|
  {
    ops != [] ==> Fresh(s, ops[0]) && AllFresh(Step(s, ops[0]), ops[1..])
  }

  /** A process has read `run` as completed and is about to release its lock. */
  predicate Announced(s: State, process: nat, run: nat) {
    process in s.pending && s.pending[process].Release? && s.pending[process].run == run
    && s.pending[process].read == Completed
  }

  /** What has been read as completed is, and a head is completed or the run its task was created with. */
  ghost predicate FreshInv(s: State, firsts: set<(nat, nat)>) {
    && WritesAllowed(s)
    && (forall process: nat, run: nat :: Announced(s, process, run) ==> IsCompleted(s, run))
    && (forall t: nat, run: nat :: HeadOf(s, t, run) ==> IsCompleted(s, run) || (t, run) in firsts)
  }

  function Created(op: Op): set<(nat, nat)> {
    if op.CreateTaskWithRun? then {(op.task, op.run)} else {}
  }

  lemma CompletedStays(s: State, op: Op, run: nat)
    requires WritesAllowed(s) && Fresh(s, op) && IsCompleted(s, run)
    ensures IsCompleted(Step(s, op), run)
  {
    assert forall to :: !CanTransition(Completed, to);
  }

  lemma FreshKeeps(s: State, op: Op, firsts: set<(nat, nat)>)
    requires FreshInv(s, firsts) && Fresh(s, op)
    ensures FreshInv(Step(s, op), firsts + Created(op))
  {
    var after := Step(s, op);
    forall process: nat, run: nat | Announced(after, process, run) ensures IsCompleted(after, run) {
      assert Announced(s, process, run) || (op.BeginRelease? && op.run == run && IsCompleted(s, run));
      CompletedStays(s, op, run);
    }
    forall t: nat, run: nat | HeadOf(after, t, run)
      ensures IsCompleted(after, run) || (t, run) in firsts + Created(op)
    {
      HeadComesFrom(s, op, t, run);
      if IsCompleted(s, run) {
        CompletedStays(s, op, run);
      }
    }
  }

  lemma HeadComesFrom(s: State, op: Op, t: nat, run: nat)
    requires HeadOf(Step(s, op), t, run)
    ensures HeadOf(s, t, run) || (t, run) in Created(op) || (op.Commit? && Announced(s, op.process, run))
  {
  }

  /** With fresh writes a completed run stays completed. */
  lemma {:induction false} FreshRunsKeep(s: State, ops: seq<Op>, firsts: set<(nat, nat)>)
    requires FreshInv(s, firsts) && AllFresh(s, ops)
    ensures FreshInv(RunOps(s, ops), firsts + set op | op in ops && op.CreateTaskWithRun? :: (op.task, op.run))
    ensures forall run: nat :: IsCompleted(s, run) ==> IsCompleted(RunOps(s, ops), run)
    decreases |ops|
  {
    if ops != [] {
      FreshKeeps(s, ops[0], firsts);
      forall run: nat | IsCompleted(s, run) ensures IsCompleted(Step(s, ops[0]), run) {
        CompletedStays(s, ops[0], run);
      }
      FreshRunsKeep(Step(s, ops[0]), ops[1..], firsts + Created(ops[0]));
      assert ops == [ops[0]] + ops[1..];
      assert firsts + Created(ops[0]) + (set op | op in ops[1..] && op.CreateTaskWithRun? :: (op.task, op.run))
          == firsts + set op | op in ops && op.CreateTaskWithRun? :: (op.task, op.run);
    }
  }

  /**
   * When every status write finds the status it was decided on, every head is a completed run or the run its task
   * was created with.
   */
  lemma FreshRunsKeepHeads(ops: seq<Op>, t: nat, run: nat)
    requires AllFresh(EMPTY, ops) && HeadOf(RunOps(EMPTY, ops), t, run)
    ensures IsCompleted(RunOps(EMPTY, ops), run) || CreateTaskWithRun(t, run) in ops
  {
    FreshRunsKeep(EMPTY, ops, {});
  }

  // ---------------------------------------------------------------- runs of the code that do break it

  /** A task created with its first run has a queued run for its head. */
  lemma FirstRunIsQueuedHead()
    ensures var s := RunOps(EMPTY, [CreateTaskWithRun(0, 1)]);
            HeadOf(s, 0, 1) && s.runs[1].status == Queued
  {
    assert [CreateTaskWithRun(0, 1)][1..] == [];
  }

  function Working(status: Status, head: Option<nat>, active: Option<nat>, pending: map<nat, Pending>): State {
    State(map[1 := Run(Some(0), status)], map[0 := Task(active, head)], pending)
  }

  lemma {:induction false} RunSnoc(s: State, ops: seq<Op>, op: Op)
    ensures RunOps(s, ops + [op]) == Step(RunOps(s, ops), op)
    decreases |ops|
  {
    if ops == [] {
      assert ([] + [op])[1..] == [];
    } else {
      assert (ops + [op])[1..] == ops[1..] + [op];
      RunSnoc(Step(s, ops[0]), ops[1..], op);
    }
  }

  lemma BeginStep(from: Status, to: Status, process: nat, pending: map<nat, Pending>)
    requires CanTransition(from, to)
    ensures Step(Working(from, None, Some(1), pending), BeginTransition(process, 1, to))
         == Working(from, None, Some(1), pending[process := Write(1, from, to)])
  {
  }

  lemma CommitWrite(from: Status, read: Status, to: Status, head: Option<nat>, active: Option<nat>, process: nat,
                    pending: map<nat, Pending>)
    requires process !in pending
    ensures Step(Working(from, head, active, pending[process := Write(1, read, to)]), Commit(process))
         == Working(to, head, active, pending)
  {
    var p := pending[process := Write(1, read, to)];
    assert p - {process} == pending;
    assert map[1 := Run(Some(0), from)][1 := Run(Some(0), to)] == map[1 := Run(Some(0), to)];
  }

  lemma ReleaseStep(process: nat, pending: map<nat, Pending>)
    requires process !in pending
    ensures var s := Working(Completed, None, Some(1), pending);
            Step(Step(s, BeginRelease(process, 1)), Commit(process)) == Working(Completed, Some(1), None, pending)
  {
    var p := pending[process := Release(1, 0, Completed)];
    assert p - {process} == pending;
    assert map[0 := Task(Some(1), None)][0 := Task(None, Some(1))] == map[0 := Task(None, Some(1))];
  }

  predicate NoFirstRun(ops: seq<Op>) {
    forall op :: op in ops ==> !op.CreateTaskWithRun?
  }

  /** The worker takes run 1 one status further. */
  lemma Advance(ops: seq<Op>, from: Status, pending: map<nat, Pending>) returns (more: seq<Op>)
    requires RunOps(EMPTY, ops) == Working(from, None, Some(1), pending)
    requires from != Completed && 0 !in pending && NoFirstRun(ops)
    ensures RunOps(EMPTY, more) == Working(Onward(from), None, Some(1), pending) && NoFirstRun(more)
  {
    var begin := BeginTransition(0, 1, Onward(from));
    RunSnoc(EMPTY, ops, begin);
    RunSnoc(EMPTY, ops + [begin], Commit(0));
    BeginStep(from, Onward(from), 0, pending);
    CommitWrite(from, from, Onward(from), None, Some(1), 0, pending);
    more := ops + [begin] + [Commit(0)];
  }

  /** Run 1 of task 0, queued and holding the lock. */
  lemma Started() returns (ops: seq<Op>)
    ensures RunOps(EMPTY, ops) == Working(Queued, None, Some(1), map[]) && NoFirstRun(ops)
  {
    ops := [];
    var s1 := State(map[], map[0 := Task(None, None)], map[]);
    assert Step(EMPTY, CreateTask(0)) == s1;
    RunSnoc(EMPTY, ops, CreateTask(0));
    ops := ops + [CreateTask(0)];
    var s2 := Working(Queued, None, None, map[]);
    assert Step(s1, CreateRun(1, Some(0))) == s2;
    RunSnoc(EMPTY, ops, CreateRun(1, Some(0)));
    ops := ops + [CreateRun(1, Some(0))];
    assert Step(s2, Acquire(0, 1)) == Working(Queued, None, Some(1), map[]);
    RunSnoc(EMPTY, ops, Acquire(0, 1));
    ops := ops + [Acquire(0, 1)];
  }

  lemma Underway() returns (ops: seq<Op>)
    ensures RunOps(EMPTY, ops) == Working(FinalizingMetadataCommit, None, Some(1), map[]) && NoFirstRun(ops)
  {
    hide Step, RunOps, NoFirstRun;
    ops := Started();
    ops := Advance(ops, Queued, map[]);
    ops := Advance(ops, Provisioning, map[]);
    ops := Advance(ops, Preparing, map[]);
    ops := Advance(ops, Running, map[]);
    ops := Advance(ops, FinalizingPrepare, map[]);
    ops := Advance(ops, FinalizingUploading, map[]);
    ops := Advance(ops, FinalizingVerifying, map[]);
  }

  lemma Completes(ops: seq<Op>, pending: map<nat, Pending>) returns (more: seq<Op>)
    requires RunOps(EMPTY, ops) == Working(FinalizingMetadataCommit, None, Some(1), pending)
    requires 0 !in pending && NoFirstRun(ops)
    ensures RunOps(EMPTY, more) == Working(Completed, Some(1), None, pending) && NoFirstRun(more)
  {
    hide Step, RunOps;
    more := Advance(ops, FinalizingMetadataCommit, pending);
    more := Advance(more, Finalized, pending);
    RunSnoc(EMPTY, more, BeginRelease(0, 1));
    RunSnoc(EMPTY, more + [BeginRelease(0, 1)], Commit(0));
    ReleaseStep(0, pending);
    more := more + [BeginRelease(0, 1)] + [Commit(0)];
  }

  /**
   * A cancellation that read the run before it was finalized and writes after its lock was released leaves a
   * head that names a failed run.
   */
  lemma StaleCancelFailsTheHead() returns (ops: seq<Op>)
    ensures NoFirstRun(ops)
    ensures RunOps(EMPTY, ops) == Working(Failed, Some(1), None, map[])
    ensures HeadOf(RunOps(EMPTY, ops), 0, 1) && !IsCompleted(RunOps(EMPTY, ops), 1)
  {
    ops := Underway();
    var cancel := Write(1, FinalizingMetadataCommit, Failed);
    RunSnoc(EMPTY, ops, BeginTransition(9, 1, Failed));
    BeginStep(FinalizingMetadataCommit, Failed, 9, map[]);
    ops := Completes(ops + [BeginTransition(9, 1, Failed)], map[][9 := cancel]);
    RunSnoc(EMPTY, ops, Commit(9));
    CommitWrite(Completed, FinalizingMetadataCommit, Failed, Some(1), None, 9, map[]);
    ops := ops + [Commit(9)];
  }
}
