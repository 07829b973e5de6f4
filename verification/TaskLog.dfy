/** The append-only task log and its folds (core/task/src/lib.rs, agent-teams-mcp/src/task.rs). */
module TaskLog {
  import opened Wrappers

  datatype Lifecycle = Created | Assigned | Doing | Review | Done | UnknownStage

  datatype Actor = Pane(workspaceId: string) | Operator | UnknownActor

  /** One log line; `from == None` marks a genesis line. */
  datatype Transition = Transition(taskId: string, from: Option<Lifecycle>, to: Lifecycle,
                                   author: Actor, at: nat, title: Option<string>)

  const MAX_TASKS := 10000
  const MAX_TRANSITIONS_PER_TASK := 64
  const MAX_TASK_TITLE_BYTES := 4096

  predicate ValidTransition(from: Lifecycle, to: Lifecycle) {
    match (from, to)
    case (Created, Assigned) => true
    case (Created, Doing) => true
    case (Assigned, Doing) => true
    case (Doing, Review) => true
    case (Doing, Done) => true
    case (Review, Doing) => true
    case (Review, Done) => true
    case _ => false
  }

  /** The lines of one task, in log order. */
  function LinesOf(log: seq<Transition>, id: string): seq<Transition> {
    if log == [] then []
    else
      var last := log[|log| - 1];
      LinesOf(log[..|log| - 1], id) + (if last.taskId == id then [last] else [])
  }

  /** The stage after the task's last line, or `Created` without one. */
  function CurrentLifecycle(log: seq<Transition>, id: string): Lifecycle {
    if log == [] then Created
    else if log[|log| - 1].taskId == id then log[|log| - 1].to
    else CurrentLifecycle(log[..|log| - 1], id)
  }

  /** The task's first genesis line. */
  function Genesis(log: seq<Transition>, id: string): (r: Option<Transition>)
    ensures r == None <==> forall t :: t in log ==> !(t.taskId == id && t.from == None)
    ensures r.Some? ==> r.value in log && r.value.taskId == id && r.value.from == None
  {
    if log == [] then None
    else if log[0].taskId == id && log[0].from == None then Some(log[0])
    else Genesis(log[1..], id)
  }

  /** Ids with a genesis line, in order of first appearance. */
  function LogTaskIds(log: seq<Transition>): (ids: seq<string>)
    ensures forall id :: id in ids <==> exists t :: t in log && t.taskId == id && t.from == None
    ensures forall i, j :: 0 <= i < j < |ids| ==> ids[i] != ids[j]
  {
    if log == [] then []
    else
      var ids := LogTaskIds(log[..|log| - 1]);
      var last := log[|log| - 1];
      assert log == log[..|log| - 1] + [last];
      if last.from == None && last.taskId !in ids then ids + [last.taskId] else ids
  }

  /** `log_task_ids`: its loop over the genesis lines, with the set of ids seen. */
  method ListTaskIds(log: seq<Transition>) returns (out: seq<string>)
    ensures out == LogTaskIds(log)
  {
    var seen: set<string> := {};
    out := [];
    for i := 0 to |log|
      invariant out == LogTaskIds(log[..i])
      invariant forall id :: id in seen <==> id in out
    {
      assert log[..i + 1][..i] == log[..i];
      if log[i].from == None && log[i].taskId !in seen {
        seen, out := seen + {log[i].taskId}, out + [log[i].taskId];
      }
    }
    assert log[..|log|] == log;
  }

  function GenesisOwner(log: seq<Transition>, id: string): Option<string> {
    match Genesis(log, id)
    case Some(t) => if t.author.Pane? then Some(t.author.workspaceId) else None
    case None => None
  }

  predicate ScopeAllows(scope: Option<string>, log: seq<Transition>, id: string) {
    scope == None || GenesisOwner(log, id) == scope
  }

  predicate AtTaskCap(log: seq<Transition>) {
    |LogTaskIds(log)| >= MAX_TASKS
  }

  predicate AtTransitionCap(log: seq<Transition>, id: string) {
    |LinesOf(log, id)| >= MAX_TRANSITIONS_PER_TASK
  }

  lemma LinesAreInLog(log: seq<Transition>, id: string)
    ensures forall t :: t in LinesOf(log, id) <==> t in log && t.taskId == id
  {
    if log != [] {
      assert log == log[..|log| - 1] + [log[|log| - 1]];
      LinesAreInLog(log[..|log| - 1], id);
    }
  }

  /** An id the log has never seen has no lines and no genesis. */
  lemma {:induction false} UnseenId(log: seq<Transition>, id: string)
    requires forall t :: t in log ==> t.taskId != id
    ensures LinesOf(log, id) == [] && id !in LogTaskIds(log)
  {
    if log != [] {
      UnseenId(log[..|log| - 1], id);
    }
  }

  lemma FoldIsLastLine(log: seq<Transition>, id: string)
    ensures CurrentLifecycle(log, id) ==
            var lines := LinesOf(log, id); if lines == [] then Created else lines[|lines| - 1].to
  {
  }

  lemma AppendLine(log: seq<Transition>, t: Transition, id: string)
    ensures LinesOf(log + [t], id) == LinesOf(log, id) + (if t.taskId == id then [t] else [])
    ensures LogTaskIds(log + [t]) ==
            LogTaskIds(log) + (if t.from == None && t.taskId !in LogTaskIds(log) then [t.taskId] else [])
  {
    assert (log + [t])[..|log|] == log;
  }

  /** A line appended later never changes which genesis line is first. */
  lemma {:induction false} GenesisIsStable(log: seq<Transition>, more: seq<Transition>, id: string)
    requires Genesis(log, id).Some?
    ensures Genesis(log + more, id) == Genesis(log, id)
  {
    assert (log + more)[0] == log[0] && (log + more)[1..] == log[1..] + more;
    if !(log[0].taskId == id && log[0].from == None) {
      GenesisIsStable(log[1..], more, id);
    }
  }

  // ---- the life of one task ---------------------------------------------------------

  /** One genesis line, then a connected path in the legal lifecycle graph. */
  ghost predicate LegalLife(lines: seq<Transition>) {
    && (lines != [] ==> lines[0].from == None && lines[0].to == Created)
    && forall i :: 0 < i < |lines| ==>
         && lines[i].from == Some(lines[i - 1].to)
         && ValidTransition(lines[i - 1].to, lines[i].to)
  }

  ghost predicate OneAuthor(lines: seq<Transition>) {
    forall i :: 0 <= i < |lines| ==> lines[i].author == lines[0].author
  }

  /** Nothing follows `Done`, and no stage follows itself. */
  lemma DoneIsTerminal(lines: seq<Transition>, i: nat)
    requires LegalLife(lines) && i < |lines|
    ensures lines[i].to == Done ==> i == |lines| - 1
    ensures i + 1 < |lines| ==> lines[i].to != lines[i + 1].to
  {
    assert i + 1 < |lines| ==> ValidTransition(lines[i].to, lines[i + 1].to);
  }
}
