/** Several sidecar processes share the task log: transitions hold the log's lock from
    reading to appending, creates check the cap on a read and append without the lock
    (agent-teams-mcp/src/task.rs). */
module TaskProtocol {
  import opened Wrappers
  import opened TaskLog

  /** Where a process is inside a tool call. */
  datatype Pc =
    | Idle
    | Checked                                                      // create: the cap allowed it
    | Locked(id: string, to: Lifecycle)                            // transition: lock held
    | Read(id: string, to: Lifecycle, snapshot: seq<Transition>)   // transition: log read

  /** A sidecar: who it writes as, the scope it is pinned to, and where it is. */
  datatype Proc = Proc(actor: Actor, scope: Option<string>, pc: Pc)

  datatype State = State(log: seq<Transition>, procs: seq<Proc>, lock: Option<nat>)

  datatype Step =
    | CheckCap(p: nat)
    | AppendGenesis(p: nat, id: string, title: string, at: nat)
    | TakeLock(p: nat, id: string, to: Lifecycle)
    | ReadLog(p: nat)
    | Commit(p: nat, visible: bool, at: nat)
    | Crash(p: nat)

  function Goto(s: State, p: nat, pc: Pc): State
    requires p < |s.procs|
  {
    s.(procs := s.procs[p := s.procs[p].(pc := pc)])
  }

  predicate Fresh(log: seq<Transition>, id: string) {
    forall t :: t in log ==> t.taskId != id
  }

  /** The line a transition appends, if every check on the log it read passes. */
  function Admitted(proc: Proc, visible: bool, at: nat): Option<Transition>
    requires proc.pc.Read?
  {
    var log := proc.pc.snapshot;
    var id := proc.pc.id;
    var from := CurrentLifecycle(log, id);
    if LinesOf(log, id) == [] then None
    else if !visible then None
    else if !ScopeAllows(proc.scope, log, id) then None
    else if AtTransitionCap(log, id) then None
    else if !ValidTransition(from, proc.pc.to) then None
    else Some(Transition(id, Some(from), proc.pc.to, proc.actor, at, None))
  }

  /** One step of one process; a step that is not enabled changes nothing. Minted ids are
      new to the log. A crash drops the lock with the process's file handle. */
  function Do(s: State, step: Step): State {
    if step.p >= |s.procs| then s
    else
      var p := step.p;
      var pc := s.procs[p].pc;
      match step
      case CheckCap(_) =>
        if pc.Idle? && !AtTaskCap(s.log) then Goto(s, p, Checked) else s
      case AppendGenesis(_, id, title, at) =>
        if !pc.Checked? || !Fresh(s.log, id) then s
        else
          var t := Goto(s, p, Idle);
          if |title| > MAX_TASK_TITLE_BYTES then t
          else t.(log := s.log + [Transition(id, None, Created, s.procs[p].actor, at, Some(title))])
      case TakeLock(_, id, to) =>
        if pc.Idle? && s.lock == None then Goto(s, p, Locked(id, to)).(lock := Some(p)) else s
      case ReadLog(_) =>
        if pc.Locked? then Goto(s, p, Read(pc.id, pc.to, s.log)) else s
      case Commit(_, visible, at) =>
        if !pc.Read? then s
        else
          var line := Admitted(s.procs[p], visible, at);
          Goto(s, p, Idle).(log := s.log + (if line.Some? then [line.value] else []), lock := None)
      case Crash(_) =>
        Goto(s, p, Idle).(lock := if pc.Locked? || pc.Read? then None else s.lock)
  }

  function Run(s: State, steps: seq<Step>): State
    decreases |steps|
  {
    if steps == [] then s else Run(Do(s, steps[0]), steps[1..])
  }

  /** An empty log and idle processes. */
  predicate Initial(s: State) {
    s.log == [] && s.lock == None && forall p :: 0 <= p < |s.procs| ==> s.procs[p].pc == Idle
  }

  // ---- the invariant ----------------------------------------------------------------

  /** Creates between their check and their append. */
  function Pending(procs: seq<Proc>): nat {
    if procs == [] then 0 else (if procs[0].pc.Checked? then 1 else 0) + Pending(procs[1..])
  }

  ghost predicate TaskOk(lines: seq<Transition>) {
    LegalLife(lines) && |lines| <= MAX_TRANSITIONS_PER_TASK
  }

  ghost predicate TasksOk(log: seq<Transition>) {
    forall id :: TaskOk(LinesOf(log, id))
  }

  /** The lock is held by exactly the process inside a transition, and what that process
      read of its task is still all there is. */
  ghost predicate LockOk(s: State) {
    && (forall p :: 0 <= p < |s.procs| ==>
          ((s.procs[p].pc.Locked? || s.procs[p].pc.Read?) <==> s.lock == Some(p)))
    && (forall p :: 0 <= p < |s.procs| && s.procs[p].pc.Read? ==> SnapshotOk(s.log, s.procs[p].pc))
  }

  ghost predicate SnapshotOk(log: seq<Transition>, pc: Pc)
    requires pc.Read?
  {
    && pc.snapshot <= log
    && (LinesOf(pc.snapshot, pc.id) != [] ==> LinesOf(log, pc.id) == LinesOf(pc.snapshot, pc.id))
  }

  ghost predicate CapOk(s: State) {
    |s.procs| > 0 ==> |LogTaskIds(s.log)| + Pending(s.procs) <= MAX_TASKS + |s.procs| - 1
  }

  /** Every process is pinned to its own pane. */
  ghost predicate Pinned(procs: seq<Proc>) {
    forall p :: 0 <= p < |procs| ==> procs[p].actor.Pane? && procs[p].scope == Some(procs[p].actor.workspaceId)
  }

  ghost predicate SingleAuthor(log: seq<Transition>) {
    forall id :: OneAuthor(LinesOf(log, id))
  }

  ghost predicate Inv(s: State) {
    TasksOk(s.log) && LockOk(s) && CapOk(s) && (Pinned(s.procs) ==> SingleAuthor(s.log))
  }

  // ---- steps keep it ----------------------------------------------------------------

  lemma {:induction false} PendingUpdate(procs: seq<Proc>, p: nat, proc: Proc)
    requires p < |procs|
    ensures Pending(procs[p := proc]) ==
            Pending(procs) - (if procs[p].pc.Checked? then 1 else 0) + (if proc.pc.Checked? then 1 else 0)
  {
    if p > 0 {
      assert procs[p := proc][1..] == procs[1..][p - 1 := proc];
      PendingUpdate(procs[1..], p - 1, proc);
    } else {
      assert procs[p := proc][1..] == procs[1..];
    }
  }

  lemma {:induction false} PendingBounded(procs: seq<Proc>)
    ensures Pending(procs) <= |procs|
  {
    if procs != [] {
      PendingBounded(procs[1..]);
    }
  }

  lemma {:induction false} SomeNotPending(procs: seq<Proc>, p: nat)
    requires p < |procs| && !procs[p].pc.Checked?
    ensures Pending(procs) <= |procs| - 1
  {
    if p > 0 {
      SomeNotPending(procs[1..], p - 1);
    } else {
      PendingBounded(procs[1..]);
    }
  }

  lemma PinnedStays(procs: seq<Proc>, p: nat, proc: Proc)
    requires p < |procs| && proc.actor == procs[p].actor && proc.scope == procs[p].scope
    ensures Pinned(procs[p := proc]) <==> Pinned(procs)
  {
    var procs' := procs[p := proc];
    assert forall q :: 0 <= q < |procs| ==> procs'[q].actor == procs[q].actor && procs'[q].scope == procs[q].scope;
  }

  lemma InitialInv(s: State)
    requires Initial(s)
    ensures Inv(s)
  {
    if |s.procs| > 0 {
      SomeNotPending(s.procs, 0);
    }
  }

  /** Appending a line changes one task only. */
  lemma AppendKeepsOthers(log: seq<Transition>, t: Transition)
    requires TasksOk(log) && TaskOk(LinesOf(log, t.taskId) + [t])
    ensures TasksOk(log + [t])
    ensures SingleAuthor(log) && OneAuthor(LinesOf(log, t.taskId) + [t]) ==> SingleAuthor(log + [t])
    ensures forall id :: id != t.taskId ==> LinesOf(log + [t], id) == LinesOf(log, id)
  {
    hide TaskOk, OneAuthor, LinesOf;
    forall id
      ensures LinesOf(log + [t], id) == if id == t.taskId then LinesOf(log, id) + [t] else LinesOf(log, id)
    {
      AppendLine(log, t, id);
    }
  }

  /** Appending the genesis line of a new id. */
  lemma AppendGenesisLine(log: seq<Transition>, t: Transition)
    requires TasksOk(log) && Fresh(log, t.taskId) && t.from == None && t.to == Created
    ensures TasksOk(log + [t])
    ensures |LogTaskIds(log + [t])| == |LogTaskIds(log)| + 1
    ensures SingleAuthor(log) ==> SingleAuthor(log + [t])
    ensures forall id :: id != t.taskId ==> LinesOf(log + [t], id) == LinesOf(log, id)
    ensures LinesOf(log, t.taskId) == []
  {
    hide LinesOf, LogTaskIds, SingleAuthor, TasksOk;
    UnseenId(log, t.taskId);
    assert LinesOf(log, t.taskId) + [t] == [t];
    AppendLine(log, t, t.taskId);
    AppendKeepsOthers(log, t);
  }

  lemma LifeExtends(lines: seq<Transition>, t: Transition)
    requires TaskOk(lines) && lines != [] && |lines| < MAX_TRANSITIONS_PER_TASK
    requires t.from == Some(lines[|lines| - 1].to) && ValidTransition(t.from.value, t.to)
    ensures TaskOk(lines + [t])
    ensures OneAuthor(lines) && t.author == lines[0].author ==> OneAuthor(lines + [t])
  {
    hide ValidTransition;
  }

  /** Appending a transition that was admitted against the task's actual lines. */
  lemma AppendAdmittedLine(log: seq<Transition>, t: Transition)
    requires TasksOk(log) && LinesOf(log, t.taskId) != [] && !AtTransitionCap(log, t.taskId)
    requires t.from == Some(CurrentLifecycle(log, t.taskId)) && ValidTransition(t.from.value, t.to)
    ensures TasksOk(log + [t]) && LogTaskIds(log + [t]) == LogTaskIds(log)
    ensures SingleAuthor(log) && t.author == LinesOf(log, t.taskId)[0].author ==> SingleAuthor(log + [t])
  {
    hide ValidTransition, LegalLife, OneAuthor;
    FoldIsLastLine(log, t.taskId);
    AppendLine(log, t, t.taskId);
    LifeExtends(LinesOf(log, t.taskId), t);
    AppendKeepsOthers(log, t);
  }

  /** The first line of a task is its genesis line. */
  lemma {:induction false} GenesisIsFirst(log: seq<Transition>, id: string)
    requires LegalLife(LinesOf(log, id)) && LinesOf(log, id) != []
    ensures Genesis(log, id) == Some(LinesOf(log, id)[0])
  {
    var n := |log| - 1;
    var last := log[n];
    assert log == log[..n] + [last];
    var before := LinesOf(log[..n], id);
    if before == [] {
      LinesAreInLog(log[..n], id);
      assert forall t :: t in log[..n] && t.taskId == id ==> t in before;
      GenesisSkips(log[..n], [last], id);
      assert [last][1..] == [];
    } else {
      assert LinesOf(log, id)[..|before|] == before;
      assert LegalLife(before) by {
        LegalPrefix(LinesOf(log, id), |before|);
      }
      GenesisIsFirst(log[..n], id);
      GenesisIsStable(log[..n], [last], id);
    }
  }

  lemma LegalPrefix(lines: seq<Transition>, n: nat)
    requires LegalLife(lines) && n <= |lines|
    ensures LegalLife(lines[..n])
  {
    hide ValidTransition;
  }

  lemma {:induction false} GenesisSkips(log: seq<Transition>, more: seq<Transition>, id: string)
    requires Genesis(log, id) == None
    ensures Genesis(log + more, id) == Genesis(more, id)
  {
    if log == [] {
      assert log + more == more;
    } else {
      assert (log + more)[1..] == log[1..] + more;
      GenesisSkips(log[1..], more, id);
    }
  }

  lemma CreateKeepsInv(s: State, step: Step)
    requires Inv(s) && step.AppendGenesis?
    ensures Inv(Do(s, step))
  {
    hide LinesOf, LogTaskIds, TaskOk, TasksOk, SingleAuthor;
    var p := step.p;
    if p < |s.procs| && s.procs[p].pc.Checked? && Fresh(s.log, step.id) {
      PendingUpdate(s.procs, p, s.procs[p].(pc := Idle));
      PinnedStays(s.procs, p, s.procs[p].(pc := Idle));
      if |step.title| <= MAX_TASK_TITLE_BYTES {
        var t := Transition(step.id, None, Created, s.procs[p].actor, step.at, Some(step.title));
        AppendGenesisLine(s.log, t);
        forall q | 0 <= q < |s.procs| && s.procs[q].pc.Read?
          ensures SnapshotOk(s.log + [t], s.procs[q].pc)
        {
          SnapshotSurvivesCreate(s.log, t, s.procs[q].pc);
        }
      }
    }
  }

  lemma SnapshotSurvivesCreate(log: seq<Transition>, t: Transition, pc: Pc)
    requires pc.Read? && SnapshotOk(log, pc) && LinesOf(log, t.taskId) == []
    requires forall id :: id != t.taskId ==> LinesOf(log + [t], id) == LinesOf(log, id)
    ensures SnapshotOk(log + [t], pc)
  {
    hide LinesOf;
  }

  lemma QuietKeepsInv(s: State, step: Step)
    requires Inv(s)
    requires step.CheckCap? || step.TakeLock? || step.ReadLog? || step.Crash?
    ensures Inv(Do(s, step))
  {
    hide LinesOf, LogTaskIds, TaskOk, TasksOk, SingleAuthor;
    var p := step.p;
    if p < |s.procs| {
      var t := Do(s, step);
      assert t.procs == s.procs[p := t.procs[p]];
      PendingUpdate(s.procs, p, t.procs[p]);
      PinnedStays(s.procs, p, t.procs[p]);
      if step.CheckCap? && s.procs[p].pc.Idle? {
        SomeNotPending(s.procs, p);
      }
    }
  }

  lemma CommitKeepsInv(s: State, step: Step)
    requires Inv(s) && step.Commit?
    ensures Inv(Do(s, step))
  {
    hide LinesOf, LogTaskIds, TaskOk, SingleAuthor, TasksOk, ValidTransition, CurrentLifecycle, Genesis;
    var p := step.p;
    if p < |s.procs| && s.procs[p].pc.Read? {
      var pc := s.procs[p].pc;
      var line := Admitted(s.procs[p], step.visible, step.at);
      PendingUpdate(s.procs, p, s.procs[p].(pc := Idle));
      PinnedStays(s.procs, p, s.procs[p].(pc := Idle));
      if line.Some? {
        AdmittedFits(s.log, s.procs[p], line.value, step.visible, step.at);
        AppendAdmittedLine(s.log, line.value);
      } else {
        assert s.log + [] == s.log;
      }
    }
  }

  /** A line admitted against the snapshot is one the log itself admits. */
  lemma AdmittedFits(log: seq<Transition>, proc: Proc, line: Transition, visible: bool, at: nat)
    requires TasksOk(log) && proc.pc.Read? && SnapshotOk(log, proc.pc)
    requires Admitted(proc, visible, at) == Some(line)
    ensures line.taskId == proc.pc.id && LinesOf(log, line.taskId) != []
    ensures !AtTransitionCap(log, line.taskId)
    ensures line.from == Some(CurrentLifecycle(log, line.taskId)) && ValidTransition(line.from.value, line.to)
    ensures proc.actor.Pane? && proc.scope == Some(proc.actor.workspaceId)
            ==> line.author == LinesOf(log, line.taskId)[0].author
  {
    hide ValidTransition;
    var snapshot := proc.pc.snapshot;
    FoldIsLastLine(snapshot, proc.pc.id);
    FoldIsLastLine(log, proc.pc.id);
    assert TaskOk(LinesOf(log, proc.pc.id));
    hide CurrentLifecycle, LinesOf;
    GenesisIsFirst(snapshot, proc.pc.id);
  }

  lemma StepKeepsInv(s: State, step: Step)
    requires Inv(s)
    ensures Inv(Do(s, step))
  {
    hide Inv, Do;
    match step
    case AppendGenesis(_, _, _, _) => CreateKeepsInv(s, step);
    case Commit(_, _, _) => CommitKeepsInv(s, step);
    case _ => QuietKeepsInv(s, step);
  }

  lemma {:induction false} RunKeepsInv(s: State, steps: seq<Step>)
    requires Inv(s)
    ensures Inv(Run(s, steps)) && |Run(s, steps).procs| == |s.procs|
    ensures Pinned(s.procs) ==> Pinned(Run(s, steps).procs)
    decreases |steps|
  {
    hide Inv, Do;
    if steps != [] {
      StepKeepsInv(s, steps[0]);
      ProcsStay(s, steps[0]);
      RunKeepsInv(Do(s, steps[0]), steps[1..]);
    }
  }

  lemma ProcsStay(s: State, step: Step)
    ensures |Do(s, step).procs| == |s.procs|
    ensures Pinned(s.procs) ==> Pinned(Do(s, step).procs)
  {
    hide LogTaskIds, LinesOf, Admitted;
  }

  // ---- what every run guarantees ----------------------------------------------------

  /** Under every interleaving, each task's lines are one genesis line followed by a legal
      connected path, within the per-task cap; with scopes pinned, each task is written by
      its author alone. */
  lemma TasksLiveLegally(s: State, steps: seq<Step>, id: string)
    requires Initial(s)
    ensures var lines := LinesOf(Run(s, steps).log, id);
            && LegalLife(lines) && |lines| <= MAX_TRANSITIONS_PER_TASK
            && (Pinned(s.procs) ==> OneAuthor(lines))
  {
    hide LinesOf, Run, LegalLife;
    InitialInv(s);
    RunKeepsInv(s, steps);
  }

  /** Under every interleaving of `n` processes the log never holds more than
      `MAX_TASKS + n - 1` tasks: the cap is only checked before the append. */
  lemma TaskCountBounded(s: State, steps: seq<Step>)
    requires Initial(s) && |s.procs| > 0
    ensures |LogTaskIds(Run(s, steps).log)| <= MAX_TASKS + |s.procs| - 1
  {
    hide LogTaskIds, Run;
    InitialInv(s);
    RunKeepsInv(s, steps);
  }
}
