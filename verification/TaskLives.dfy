/** Which lives tasks can have: exactly those the documented lifecycle graph draws
    (core/task/src/lib.rs:285-296), within the caps. */
module TaskLives {
  import opened Wrappers
  import opened TaskLog
  import opened TaskProtocol
  import opened TaskCap

  /** The graph as documented: from each stage, the stages that may follow it. */
  predicate MayFollow(from: Lifecycle, to: Lifecycle) {
    match from
    case Created => to in {Assigned, Doing}   // assigned to a pane, or picked up directly
    case Assigned => to in {Doing}            // the pane starts work
    case Doing => to in {Review, Done}        // finished to review, or straight to done
    case Review => to in {Doing, Done}        // kicked back, or approved
    case _ => false                           // terminal
  }

  /** A genesis line with a title of 4096 bytes at most, then a connected path in that graph of at most
      64 lines in all, written by one actor. */
  ghost predicate Life(lines: seq<Transition>, id: string, author: Actor) {
    && 1 <= |lines| <= 64
    && lines[0].from == None && lines[0].to == Created
    && lines[0].title.Some? && |lines[0].title.value| <= 4096
    && (forall i :: 0 <= i < |lines| ==> lines[i].taskId == id && lines[i].author == author)
    && (forall i :: 0 < i < |lines| ==>
          && lines[i].from == Some(lines[i - 1].to) && MayFollow(lines[i - 1].to, lines[i].to)
          && lines[i].title == None)
  }

  // ---- every life is such a path --------------------------------------------------------

  /** Whatever the interleaving, the stages of a task are a path in the documented graph that starts
      with its genesis line, of at most 64 lines. */
  lemma StagesFollowTheGraph(s: State, steps: seq<Step>, id: string, i: nat)
    requires Initial(s) && i < |LinesOf(Run(s, steps).log, id)|
    ensures var lines := LinesOf(Run(s, steps).log, id);
            && |lines| <= 64
            && (i == 0 ==> lines[0].from == None && lines[0].to == Created)
            && (i > 0 ==> lines[i].from == Some(lines[i - 1].to) && MayFollow(lines[i - 1].to, lines[i].to))
  {
    TasksLiveLegally(s, steps, id);
    hide Run, LinesOf;
  }

  /** The log never holds more than 10000 tasks and one for every process but one, and no line of it
      a longer title than 4096 bytes. */
  lemma LogStaysSmall(s: State, steps: seq<Step>)
    requires Initial(s) && |s.procs| > 0
    ensures |LogTaskIds(Run(s, steps).log)| <= 10000 + |s.procs| - 1
    ensures forall t :: t in Run(s, steps).log && t.title.Some? ==> |t.title.value| <= 4096
  {
    TaskCountBounded(s, steps);
    TitlesStayShort(s, steps);
    hide Run, LogTaskIds;
  }

  ghost predicate ShortTitles(log: seq<Transition>) {
    forall t :: t in log && t.title.Some? ==> |t.title.value| <= 4096
  }

  lemma {:induction false} TitlesStayShort(s: State, steps: seq<Step>)
    requires ShortTitles(s.log)
    ensures ShortTitles(Run(s, steps).log)
    decreases |steps|
  {
    hide Do, ShortTitles;
    if steps != [] {
      StepKeepsTitles(s, steps[0]);
      TitlesStayShort(Do(s, steps[0]), steps[1..]);
    }
  }

  lemma StepKeepsTitles(s: State, step: Step)
    requires ShortTitles(s.log)
    ensures ShortTitles(Do(s, step).log)
  {
    hide LinesOf, LogTaskIds, CurrentLifecycle, ScopeAllows, Fresh;
  }

  // ---- one transition ---------------------------------------------------------------------

  /** In a log whose tasks live such lives, a transition appends its line exactly when the task exists
      and is visible, the scope names the pane that created it, less than 64 lines are there, and the
      stage may follow the last one. Otherwise nothing is appended. */
  lemma TransitionIff(s: State, p: nat, id: string, to: Lifecycle, visible: bool, at: nat)
    requires TasksOk(s.log) && p < |s.procs| && s.procs[p].pc == Idle && s.lock == None
    ensures var lines := LinesOf(s.log, id);
            var proc := s.procs[p];
            var t := Run(s, [TakeLock(p, id, to), ReadLog(p), Commit(p, visible, at)]);
            && t.procs == s.procs && t.lock == None
            && t.log == s.log +
                 if && lines != [] && visible && |lines| < 64
                    && (proc.scope.Some? ==> lines[0].author == Pane(proc.scope.value))
                    && MayFollow(lines[|lines| - 1].to, to)
                 then [Transition(id, Some(lines[|lines| - 1].to), to, proc.actor, at, None)] else []
  {
    hide LinesOf, Genesis, CurrentLifecycle, Run, TaskOk;
    ThreeSteps(s, TakeLock(p, id, to), ReadLog(p), Commit(p, visible, at));
    var locked := Do(s, TakeLock(p, id, to));
    var read := Do(locked, ReadLog(p));
    assert locked.procs == s.procs[p := s.procs[p].(pc := Locked(id, to))];
    assert read.procs == s.procs[p := s.procs[p].(pc := Read(id, to, s.log))];
    assert read.procs[p := read.procs[p].(pc := Idle)] == s.procs;
    AdmittedIff(s.log, read.procs[p], visible, at);
  }

  lemma AdmittedIff(log: seq<Transition>, proc: Proc, visible: bool, at: nat)
    requires TasksOk(log) && proc.pc.Read? && proc.pc.snapshot == log
    ensures var lines := LinesOf(log, proc.pc.id);
            Admitted(proc, visible, at) ==
              if && lines != [] && visible && |lines| < 64
                 && (proc.scope.Some? ==> lines[0].author == Pane(proc.scope.value))
                 && MayFollow(lines[|lines| - 1].to, proc.pc.to)
              then Some(Transition(proc.pc.id, Some(lines[|lines| - 1].to), proc.pc.to, proc.actor, at, None))
              else None
  {
    assert TaskOk(LinesOf(log, proc.pc.id));
    FoldIsLastLine(log, proc.pc.id);
    hide LinesOf, Genesis, CurrentLifecycle;
    if LinesOf(log, proc.pc.id) != [] {
      GenesisIsFirst(log, proc.pc.id);
    }
  }

  // ---- every such path is lived ---------------------------------------------------------

  /** A process that may advance what it creates: without a scope, or pinned to its own pane. */
  predicate MayAdvanceItsOwn(proc: Proc) {
    proc.scope.Some? ==> proc.actor == Pane(proc.scope.value)
  }

  /** The first `k` lines have been lived, and process `p` is idle. */
  ghost predicate Lived(s: State, p: nat, before: seq<Transition>, lines: seq<Transition>, k: nat, id: string) {
    && 0 < k <= |lines| && p < |s.procs| && s.procs[p].pc == Idle && s.lock == None
    && s.log == before + lines[..k]
    && LinesOf(s.log, id) == lines[..k] && Genesis(s.log, id) == Some(lines[0])
  }

  /** What creating a task appends. */
  lemma Creates(s: State, p: nat, id: string, title: string, at: nat)
    requires p < |s.procs| && s.procs[p].pc == Idle
    requires Fresh(s.log, id) && |LogTaskIds(s.log)| < 10000 && |title| <= 4096
    ensures var t := Run(s, [CheckCap(p), AppendGenesis(p, id, title, at)]);
            && t.log == s.log + [Transition(id, None, Created, s.procs[p].actor, at, Some(title))]
            && t.procs == s.procs && t.lock == s.lock
  {
    hide LogTaskIds, Fresh, Run;
    var birth := AppendGenesis(p, id, title, at);
    TwoSteps(s, CheckCap(p), birth);
    var checked := Do(s, CheckCap(p));
    assert checked.procs == s.procs[p := s.procs[p].(pc := Checked)];
    assert checked.procs[p := checked.procs[p].(pc := Idle)] == s.procs;
  }

  lemma TwoSteps(s: State, a: Step, b: Step)
    ensures Run(s, [a, b]) == Do(Do(s, a), b)
  {
    hide Do;
    assert [a, b][1..] == [b] && [b][1..] == [];
    assert Run(s, [a, b]) == Run(Do(s, a), [b]);
    assert Run(Do(s, a), [b]) == Run(Do(Do(s, a), b), []);
  }

  /** Creating the task a genesis line tells of. */
  function Birth(p: nat, id: string, line: Transition): seq<Step> {
    [CheckCap(p), AppendGenesis(p, id, if line.title.Some? then line.title.value else "", line.at)]
  }

  lemma Born(s: State, p: nat, lines: seq<Transition>, id: string)
    requires p < |s.procs| && s.procs[p].pc == Idle && s.lock == None
    requires Life(lines, id, s.procs[p].actor) && Fresh(s.log, id) && |LogTaskIds(s.log)| < 10000
    ensures var t := Run(s, Birth(p, id, lines[0]));
            Lived(t, p, s.log, lines, 1, id) && t.procs == s.procs
  {
    hide LinesOf, LogTaskIds, Genesis, Run;
    Creates(s, p, id, lines[0].title.value, lines[0].at);
    UnseenId(s.log, id);
    AppendLine(s.log, lines[0], id);
    NoGenesisYet(s.log, lines[0], id);
    assert lines[..1] == [lines[0]];
    assert [] + [lines[0]] == [lines[0]];
  }

  lemma NoGenesisYet(log: seq<Transition>, t: Transition, id: string)
    requires Fresh(log, id) && t.taskId == id && t.from == None
    ensures Genesis(log + [t], id) == Some(t)
  {
    GenesisSkips(log, [t], id);
    assert [t][0] == t;
  }

  /** One transition: lock, read, commit. */
  function Advance(p: nat, id: string, line: Transition): seq<Step> {
    [TakeLock(p, id, line.to), ReadLog(p), Commit(p, true, line.at)]
  }

  lemma AdvanceIsOwn(p: nat, id: string, line: Transition)
    ensures forall i :: 0 <= i < |Advance(p, id, line)| ==> Advance(p, id, line)[i].p == p
  {
  }

  lemma ThreeSteps(s: State, a: Step, b: Step, c: Step)
    ensures Run(s, [a, b, c]) == Do(Do(Do(s, a), b), c)
  {
    hide Do;
    assert [a, b, c][1..] == [b, c] && [b, c][1..] == [c] && [c][1..] == [];
    assert Run(s, [a, b, c]) == Run(Do(s, a), [b, c]);
    assert Run(Do(s, a), [b, c]) == Run(Do(Do(s, a), b), [c]);
    assert Run(Do(Do(s, a), b), [c]) == Run(Do(Do(Do(s, a), b), c), []);
  }

  lemma Commits(s: State, p: nat, id: string, line: Transition)
    requires p < |s.procs| && s.procs[p].pc == Idle && s.lock == None
    requires var proc := s.procs[p].(pc := Read(id, line.to, s.log)); Admitted(proc, true, line.at) == Some(line)
    ensures var t := Run(s, Advance(p, id, line));
            t.log == s.log + [line] && t.procs == s.procs && t.lock == None
  {
    hide Admitted, Run;
    ThreeSteps(s, TakeLock(p, id, line.to), ReadLog(p), Commit(p, true, line.at));
    var locked := Do(s, TakeLock(p, id, line.to));
    var read := Do(locked, ReadLog(p));
    assert locked.procs == s.procs[p := s.procs[p].(pc := Locked(id, line.to))];
    assert read.procs == s.procs[p := s.procs[p].(pc := Read(id, line.to, s.log))];
    assert read.procs[p := read.procs[p].(pc := Idle)] == s.procs;
  }

  /** The next line of the life passes every check. */
  lemma NextIsAdmitted(s: State, p: nat, before: seq<Transition>, lines: seq<Transition>, k: nat, id: string)
    requires Lived(s, p, before, lines, k, id) && k < |lines|
    requires Life(lines, id, s.procs[p].actor) && MayAdvanceItsOwn(s.procs[p])
    ensures Admitted(s.procs[p].(pc := Read(id, lines[k].to, s.log)), true, lines[k].at) == Some(lines[k])
  {
    FoldIsLastLine(s.log, id);
    hide LinesOf, Genesis, CurrentLifecycle;
    assert lines[..k][k - 1] == lines[k - 1];
    assert MayFollow(lines[k - 1].to, lines[k].to);
  }

  lemma LogGrows(log: seq<Transition>, before: seq<Transition>, lines: seq<Transition>, k: nat, id: string)
    requires 0 < k < |lines| && lines[k].taskId == id
    requires log == before + lines[..k] && LinesOf(log, id) == lines[..k] && Genesis(log, id) == Some(lines[0])
    ensures var longer := log + [lines[k]];
            && longer == before + lines[..k + 1] && LinesOf(longer, id) == lines[..k + 1]
            && Genesis(longer, id) == Some(lines[0])
  {
    hide LinesOf, Genesis, LogTaskIds;
    SliceGrows(before, lines, k);
    AppendLine(log, lines[k], id);
    GenesisIsStable(log, [lines[k]], id);
  }

  lemma SliceGrows(before: seq<Transition>, lines: seq<Transition>, k: nat)
    requires k < |lines|
    ensures lines[..k + 1] == lines[..k] + [lines[k]]
    ensures before + lines[..k + 1] == before + lines[..k] + [lines[k]]
  {
  }

  lemma NextIsLived(s: State, p: nat, before: seq<Transition>, lines: seq<Transition>, k: nat, id: string)
    requires Lived(s, p, before, lines, k, id) && k < |lines|
    requires Life(lines, id, s.procs[p].actor) && MayAdvanceItsOwn(s.procs[p])
    ensures var t := Run(s, Advance(p, id, lines[k]));
            Lived(t, p, before, lines, k + 1, id) && t.procs == s.procs
  {
    hide Run, Admitted, LinesOf, Genesis, Advance, MayAdvanceItsOwn;
    NextIsAdmitted(s, p, before, lines, k, id);
    Commits(s, p, id, lines[k]);
    LogGrows(s.log, before, lines, k, id);
  }

  lemma {:induction false} LivedOn(s: State, p: nat, before: seq<Transition>, lines: seq<Transition>, k: nat,
                                   id: string) returns (steps: seq<Step>)
    requires Lived(s, p, before, lines, k, id)
    requires Life(lines, id, s.procs[p].actor) && MayAdvanceItsOwn(s.procs[p])
    ensures forall i :: 0 <= i < |steps| ==> steps[i].p == p
    ensures Lived(Run(s, steps), p, before, lines, |lines|, id)
    decreases |lines| - k
  {
    if k == |lines| {
      steps := [];
    } else {
      NextIsLived(s, p, before, lines, k, id);
      AdvanceIsOwn(p, id, lines[k]);
      hide Lived, Life, Run, MayAdvanceItsOwn, Advance;
      var t := Run(s, Advance(p, id, lines[k]));
      var rest := LivedOn(t, p, before, lines, k + 1, id);
      RunAppend(s, Advance(p, id, lines[k]), rest);
      steps := Advance(p, id, lines[k]) + rest;
    }
  }

  /** Conversely, every such path is the life of some task: at any time, while there is room for one
      more, a process that is idle can create a task and take it along that path, and nothing else
      is appended. */
  lemma EveryLifeIsLived(s: State, p: nat, lines: seq<Transition>, id: string) returns (steps: seq<Step>)
    requires p < |s.procs| && s.procs[p].pc == Idle && s.lock == None && MayAdvanceItsOwn(s.procs[p])
    requires Life(lines, id, s.procs[p].actor) && Fresh(s.log, id) && |LogTaskIds(s.log)| < 10000
    ensures forall i :: 0 <= i < |steps| ==> steps[i].p == p
    ensures Run(s, steps).log == s.log + lines
  {
    hide Run, Lived, Fresh, LogTaskIds, Birth, MayAdvanceItsOwn;
    Born(s, p, lines, id);
    var birth := Birth(p, id, lines[0]);
    var rest := LivedOn(Run(s, birth), p, s.log, lines, 1, id);
    RunAppend(s, birth, rest);
    WholeLife(Run(Run(s, birth), rest), p, s.log, lines, id);
    BirthIsOwn(p, id, lines[0]);
    steps := birth + rest;
  }

  lemma BirthIsOwn(p: nat, id: string, line: Transition)
    ensures forall i :: 0 <= i < |Birth(p, id, line)| ==> Birth(p, id, line)[i].p == p
  {
  }

  lemma WholeLife(s: State, p: nat, before: seq<Transition>, lines: seq<Transition>, id: string)
    requires Lived(s, p, before, lines, |lines|, id)
    ensures s.log == before + lines
  {
    hide LinesOf, Genesis;
    assert lines[..|lines|] == lines;
  }
}
