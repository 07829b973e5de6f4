/** The task-count bound is exact: some interleaving of `n` processes reaches it. */
module TaskCap {
  import opened Wrappers
  import opened TaskLog
  import opened TaskProtocol

  /** The `k`-th id a run mints. */
  function Id(k: nat): (id: string)
    ensures |id| == k
  {
    seq(k, _ => 'i')
  }

  /** `k` tasks, all with ids minted so far. */
  ghost predicate Filled(log: seq<Transition>, k: nat) {
    |LogTaskIds(log)| == k && forall t :: t in log ==> |t.taskId| < k
  }

  /** The first `busy` processes are about to append, the others idle. */
  ghost predicate Ready(procs: seq<Proc>, busy: nat) {
    && busy <= |procs|
    && forall p :: 0 <= p < |procs| ==> procs[p].pc == if p < busy then Checked else Idle
  }

  lemma AppendOne(s: State, p: nat, k: nat)
    requires p < |s.procs| && s.procs[p].pc == Checked && Filled(s.log, k)
    ensures var t := Do(s, AppendGenesis(p, Id(k), "", 0));
            Filled(t.log, k + 1) && t.procs == s.procs[p := s.procs[p].(pc := Idle)]
  {
    hide LogTaskIds;
    var line := Transition(Id(k), None, Created, s.procs[p].actor, 0, Some(""));
    UnseenId(s.log, Id(k));
    AppendLine(s.log, line, Id(k));
  }

  /** One process alone fills the log up to `target` tasks. */
  lemma {:induction false} FillLog(s: State, k: nat, target: nat) returns (steps: seq<Step>)
    requires |s.procs| > 0 && Ready(s.procs, 0) && Filled(s.log, k) && k <= target <= MAX_TASKS
    ensures var t := Run(s, steps); t.procs == s.procs && Filled(t.log, target)
    decreases target - k
  {
    hide LogTaskIds, Filled, Do;
    if k == target {
      steps := [];
    } else {
      var checked := Do(s, CheckCap(0));
      var t := Do(checked, AppendGenesis(0, Id(k), "", 0));
      CheckAllowed(s, 0, k);
      AppendOne(checked, 0, k);
      assert t.procs == s.procs;
      var rest := FillLog(t, k + 1, target);
      steps := [CheckCap(0)] + ([AppendGenesis(0, Id(k), "", 0)] + rest);
      assert Run(checked, [AppendGenesis(0, Id(k), "", 0)] + rest) == Run(t, rest);
    }
  }

  lemma CheckAllowed(s: State, p: nat, k: nat)
    requires p < |s.procs| && s.procs[p].pc == Idle && Filled(s.log, k) && k < MAX_TASKS
    ensures Do(s, CheckCap(p)) == s.(procs := s.procs[p := s.procs[p].(pc := Checked)])
  {
  }

  /** Every process passes the cap check before any of them appends. */
  lemma {:induction false} CheckAll(s: State, busy: nat, k: nat) returns (steps: seq<Step>)
    requires Ready(s.procs, busy) && Filled(s.log, k) && k < MAX_TASKS
    ensures var t := Run(s, steps); t.log == s.log && |t.procs| == |s.procs| && Ready(t.procs, |t.procs|)
    decreases |s.procs| - busy
  {
    hide LogTaskIds, Filled, Do;
    if busy == |s.procs| {
      steps := [];
    } else {
      CheckAllowed(s, busy, k);
      var rest := CheckAll(Do(s, CheckCap(busy)), busy + 1, k);
      steps := [CheckCap(busy)] + rest;
    }
  }

  /** Then each of them appends. */
  lemma {:induction false} AppendAll(s: State, busy: nat, k: nat) returns (steps: seq<Step>)
    requires Ready(s.procs, busy) && Filled(s.log, k)
    ensures Filled(Run(s, steps).log, k + busy)
    decreases busy
  {
    hide LogTaskIds, Filled, Do;
    if busy == 0 {
      steps := [];
    } else {
      var step := AppendGenesis(busy - 1, Id(k), "", 0);
      AppendOne(s, busy - 1, k);
      var rest := AppendAll(Do(s, step), busy - 1, k + 1);
      steps := [step] + rest;
    }
  }

  lemma {:induction false} RunAppend(s: State, first: seq<Step>, second: seq<Step>)
    ensures Run(s, first + second) == Run(Run(s, first), second)
    decreases |first|
  {
    hide Do;
    if first == [] {
      assert first + second == second;
    } else {
      assert (first + second)[1..] == first[1..] + second;
      RunAppend(Do(s, first[0]), first[1..], second);
    }
  }

  /** From every initial state, `MAX_TASKS + n - 1` tasks are reached: the bound of
      `TaskCountBounded` cannot be lowered. */
  lemma TaskCountBoundIsReached(s: State) returns (steps: seq<Step>)
    requires Initial(s) && |s.procs| > 0
    ensures |LogTaskIds(Run(s, steps).log)| == MAX_TASKS + |s.procs| - 1
  {
    hide Run;
    var fill := FillLog(s, 0, MAX_TASKS - 1);
    var full := Run(s, fill);
    var check := CheckAll(full, 0, MAX_TASKS - 1);
    var checked := Run(full, check);
    var append := AppendAll(checked, |s.procs|, MAX_TASKS - 1);
    RunAppend(s, fill, check);
    RunAppend(s, fill + check, append);
    steps := fill + check + append;
  }
}
