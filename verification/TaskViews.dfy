/** The board's reads: the one-pass list of all tasks and the read of one task
    (agent-teams-mcp/src/task.rs). */
module TaskViews {
  import opened Wrappers
  import opened TaskLog

  datatype Column = Backlog | ColumnDoing | ColumnReview | ColumnDone | UnknownColumn

  /** An operator-store record. */
  datatype Task = Task(id: string, title: string, column: Column, order: int, createdAt: nat,
                       updatedAt: nat, workspaceId: Option<string>, paneId: Option<string>,
                       runId: Option<string>)

  datatype TaskView = TaskView(id: string, title: string, column: Column, order: int, createdAt: nat,
                               updatedAt: nat, lifecycle: Lifecycle, workspaceId: Option<string>,
                               paneId: Option<string>, runId: Option<string>)

  /** Turns a provenance identity into a bare tenant workspace id. */
  type Tenancy = Option<string> -> Option<string>

  function FromTask(t: Task, lifecycle: Lifecycle, tenant: Tenancy): TaskView {
    TaskView(t.id, t.title, t.column, t.order, t.createdAt, t.updatedAt, lifecycle,
             tenant(t.workspaceId), t.paneId, t.runId)
  }

  function FromLogParts(id: string, title: Option<string>, at: nat, lifecycle: Lifecycle,
                        workspaceId: Option<string>): TaskView {
    TaskView(id, if title.Some? then title.value else "", Backlog, 0, at, at, lifecycle,
             workspaceId, None, None)
  }

  function FindTask(store: seq<Task>, id: string): (r: Option<Task>)
    ensures r == None <==> forall t :: t in store ==> t.id != id
    ensures r.Some? ==> r.value in store && r.value.id == id
  {
    if store == [] then None
    else if store[0].id == id then Some(store[0])
    else FindTask(store[1..], id)
  }

  /** The view of one log-only task. */
  function LogView(log: seq<Transition>, g: Transition, tenant: Tenancy): TaskView {
    FromLogParts(g.taskId, g.title, g.at, CurrentLifecycle(log, g.taskId),
                 tenant(GenesisOwner(log, g.taskId)))
  }

  /** `get_view`: the store record if there is one, else the log's, else nothing. */
  function GetView(id: string, store: seq<Task>, log: seq<Transition>, tenant: Tenancy): Option<TaskView> {
    match FindTask(store, id)
    case Some(t) => Some(FromTask(t, CurrentLifecycle(log, id), tenant))
    case None =>
      match Genesis(log, id)
      case Some(g) => Some(LogView(log, g, tenant))
      case None => None
  }

  // ---- the one-pass list ------------------------------------------------------------

  /** The maps one pass over the log builds. */
  ghost predicate Folded(lifecycle: map<string, Lifecycle>, genesis: map<string, Transition>, log: seq<Transition>) {
    && (forall id :: id in lifecycle <==> LinesOf(log, id) != [])
    && (forall id :: id in lifecycle ==> lifecycle[id] == CurrentLifecycle(log, id))
    && (forall id :: id in genesis <==> Genesis(log, id).Some?)
    && (forall id :: id in genesis ==> genesis[id] == Genesis(log, id).value)
  }

  /** The last `to` wins, the first genesis line stays. */
  lemma FoldStep(lifecycle: map<string, Lifecycle>, genesis: map<string, Transition>,
                 log: seq<Transition>, t: Transition)
    requires Folded(lifecycle, genesis, log)
    ensures Folded(lifecycle[t.taskId := t.to],
                   if t.from == None && t.taskId !in genesis then genesis[t.taskId := t] else genesis,
                   log + [t])
  {
    hide CurrentLifecycle, LinesOf, Genesis;
    forall id {:trigger LinesOf(log + [t], id)} {:trigger CurrentLifecycle(log + [t], id)}
              {:trigger Genesis(log + [t], id)}
      ensures LinesOf(log + [t], id) == LinesOf(log, id) + (if t.taskId == id then [t] else [])
      ensures CurrentLifecycle(log + [t], id) == if t.taskId == id then t.to else CurrentLifecycle(log, id)
      ensures Genesis(log + [t], id) ==
              if Genesis(log, id).Some? then Genesis(log, id)
              else if t.taskId == id && t.from == None then Some(t) else None
    {
      AppendLine(log, t, id);
      LifecycleStep(log, t, id);
      GenesisStep(log, t, id);
    }
  }

  lemma LifecycleStep(log: seq<Transition>, t: Transition, id: string)
    ensures CurrentLifecycle(log + [t], id) == if t.taskId == id then t.to else CurrentLifecycle(log, id)
  {
    assert (log + [t])[..|log|] == log;
  }

  lemma {:induction false} GenesisStep(log: seq<Transition>, t: Transition, id: string)
    ensures Genesis(log + [t], id) ==
            if Genesis(log, id).Some? then Genesis(log, id)
            else if t.taskId == id && t.from == None then Some(t) else None
  {
    if log == [] {
      assert [] + [t] == [t] && [t][1..] == [];
    } else {
      assert (log + [t])[1..] == log[1..] + [t];
      GenesisStep(log[1..], t, id);
    }
  }

  function StoreRows(store: seq<Task>, log: seq<Transition>, tenant: Tenancy): (rows: seq<TaskView>)
    ensures |rows| == |store|
    ensures forall i :: 0 <= i < |store| ==> rows[i] == FromTask(store[i], CurrentLifecycle(log, store[i].id), tenant)
  {
    seq(|store|, i requires 0 <= i < |store| => FromTask(store[i], CurrentLifecycle(log, store[i].id), tenant))
  }

  /** The log-only ids among `ids`, in order. */
  function LogOnly(ids: seq<string>, store: seq<Task>): seq<string> {
    if ids == [] then []
    else
      var rest := LogOnly(ids[..|ids| - 1], store);
      var last := ids[|ids| - 1];
      if FindTask(store, last).Some? then rest else rest + [last]
  }

  function LogRows(ids: seq<string>, log: seq<Transition>, tenant: Tenancy): (rows: seq<TaskView>)
    requires forall i :: 0 <= i < |ids| ==> Genesis(log, ids[i]).Some?
    ensures |rows| == |ids|
    ensures forall i :: 0 <= i < |ids| ==> rows[i] == LogView(log, Genesis(log, ids[i]).value, tenant)
  {
    seq(|ids|, i requires 0 <= i < |ids| => LogView(log, Genesis(log, ids[i]).value, tenant))
  }

  lemma {:induction false} LogOnlyMembers(ids: seq<string>, store: seq<Task>)
    ensures forall id :: id in LogOnly(ids, store) <==> id in ids && FindTask(store, id) == None
  {
    if ids != [] {
      LogOnlyMembers(ids[..|ids| - 1], store);
      assert ids == ids[..|ids| - 1] + [ids[|ids| - 1]];
    }
  }

  lemma LogOnlyHasGenesis(log: seq<Transition>, store: seq<Task>)
    ensures forall i :: 0 <= i < |LogOnly(LogTaskIds(log), store)|
              ==> Genesis(log, LogOnly(LogTaskIds(log), store)[i]).Some?
  {
    LogOnlyMembers(LogTaskIds(log), store);
    forall i | 0 <= i < |LogOnly(LogTaskIds(log), store)|
      ensures Genesis(log, LogOnly(LogTaskIds(log), store)[i]).Some?
    {
      assert LogOnly(LogTaskIds(log), store)[i] in LogTaskIds(log);
    }
  }

  /** `list_views`, one task at a time: the store's rows, then those of log-only tasks in
      genesis order. */
  ghost function ListRows(store: seq<Task>, log: seq<Transition>, tenant: Tenancy): seq<TaskView> {
    LogOnlyHasGenesis(log, store);
    StoreRows(store, log, tenant) + LogRows(LogOnly(LogTaskIds(log), store), log, tenant)
  }

  /** The pass over the log: the last `to` of every task, and its first genesis line. */
  method FoldLog(log: seq<Transition>) returns (lifecycle: map<string, Lifecycle>, genesis: map<string, Transition>)
    ensures Folded(lifecycle, genesis, log)
  {
    hide LinesOf, CurrentLifecycle, Genesis, Folded;
    lifecycle, genesis := map[], map[];
    NothingFolded();
    for i := 0 to |log|
      invariant Folded(lifecycle, genesis, log[..i])
    {
      FoldStep(lifecycle, genesis, log[..i], log[i]);
      assert log[..i + 1] == log[..i] + [log[i]];
      lifecycle := lifecycle[log[i].taskId := log[i].to];
      if log[i].from == None && log[i].taskId !in genesis {
        genesis := genesis[log[i].taskId := log[i]];
      }
    }
    assert log[..|log|] == log;
  }

  lemma IdsHaveGenesis(log: seq<Transition>)
    ensures forall id :: id in LogTaskIds(log) ==> Genesis(log, id).Some?
  {
  }

  lemma NothingFolded()
    ensures Folded(map[], map[], [])
  {
  }

  /** The rows of the store's tasks, at the stages the folded map knows. */
  method ListStore(store: seq<Task>, ghost log: seq<Transition>, tenant: Tenancy,
                   lifecycle: map<string, Lifecycle>, ghost genesis: map<string, Transition>)
    returns (out: seq<TaskView>)
    requires Folded(lifecycle, genesis, log)
    ensures out == StoreRows(store, log, tenant)
  {
    hide LinesOf, CurrentLifecycle, Genesis;
    out := [];
    for i := 0 to |store|
      invariant |out| == i
      invariant forall k :: 0 <= k < i ==> out[k] == StoreRows(store, log, tenant)[k]
    {
      FoldIsLastLine(log, store[i].id);
      var stage := if store[i].id in lifecycle then lifecycle[store[i].id] else Created;
      out := out + [FromTask(store[i], stage, tenant)];
    }
  }

  /** `list_views`: rows from the folded maps, one pass over the store and one over the
      genesis ids. */
  method ListViews(store: seq<Task>, log: seq<Transition>, tenant: Tenancy) returns (out: seq<TaskView>)
    ensures out == ListRows(store, log, tenant)
  {
    hide LinesOf, CurrentLifecycle, Genesis, GenesisOwner, LogTaskIds, FindTask, StoreRows, LogOnly, LogRows;
    LogRowsNone(store, log, tenant);
    var lifecycle, genesis := FoldLog(log);
    out := ListStore(store, log, tenant, lifecycle, genesis);
    ghost var rows := out;
    var ids := ListTaskIds(log);
    IdsHaveGenesis(log);
    for i := 0 to |ids|
      invariant forall k :: 0 <= k < |LogOnly(ids[..i], store)| ==> Genesis(log, LogOnly(ids[..i], store)[k]).Some?
      invariant out == rows + LogRows(LogOnly(ids[..i], store), log, tenant)
    {
      LogRowsStep(ids, i, store, log, tenant);
      assert ids[i] in ids;
      FoldIsLastLine(log, ids[i]);
      var g := genesis[ids[i]];
      if FindTask(store, ids[i]) == None {
        var stage := if ids[i] in lifecycle then lifecycle[ids[i]] else Created;
        out := out + [FromLogParts(ids[i], g.title, g.at, stage, tenant(GenesisOwner(log, ids[i])))];
      }
    }
    assert ids[..|ids|] == ids;
  }

  lemma LogRowsStep(ids: seq<string>, i: nat, store: seq<Task>, log: seq<Transition>, tenant: Tenancy)
    requires i < |ids| && Genesis(log, ids[i]).Some?
    requires forall k :: 0 <= k < |LogOnly(ids[..i], store)| ==> Genesis(log, LogOnly(ids[..i], store)[k]).Some?
    ensures var next := LogOnly(ids[..i + 1], store);
            && (forall k :: 0 <= k < |next| ==> Genesis(log, next[k]).Some?)
            && LogRows(next, log, tenant) == LogRows(LogOnly(ids[..i], store), log, tenant) +
                 if FindTask(store, ids[i]).Some? then []
                 else [LogView(log, Genesis(log, ids[i]).value, tenant)]
  {
    hide Genesis, FindTask, LogView;
    assert ids[..i + 1][..i] == ids[..i];
  }

  lemma LogRowsNone(store: seq<Task>, log: seq<Transition>, tenant: Tenancy)
    ensures LogOnly([], store) == [] && LogRows([], log, tenant) == []
  {
  }

  // ---- the list against the single read ---------------------------------------------

  function Ids(rows: seq<TaskView>): seq<string> {
    seq(|rows|, i requires 0 <= i < |rows| => rows[i].id)
  }

  predicate DistinctTasks(store: seq<Task>) {
    forall i, j :: 0 <= i < j < |store| ==> store[i].id != store[j].id
  }

  predicate DistinctIds(ids: seq<string>) {
    forall i, j :: 0 <= i < j < |ids| ==> ids[i] != ids[j]
  }

  lemma {:induction false} FoundFirst(store: seq<Task>, t: Task)
    requires DistinctTasks(store) && t in store
    ensures FindTask(store, t.id) == Some(t)
  {
    if store[0] != t {
      assert t in store[1..];
      FoundFirst(store[1..], t);
    }
  }

  lemma {:induction false} LogOnlyDistinct(ids: seq<string>, store: seq<Task>)
    requires DistinctIds(ids)
    ensures DistinctIds(LogOnly(ids, store))
  {
    if ids != [] {
      LogOnlyDistinct(ids[..|ids| - 1], store);
      LogOnlyMembers(ids[..|ids| - 1], store);
    }
  }

  /** What a row of the list is: a store record's, or a log-only task's. */
  lemma RowKinds(store: seq<Task>, log: seq<Transition>, tenant: Tenancy, i: nat)
    requires i < |ListRows(store, log, tenant)|
    ensures var row := ListRows(store, log, tenant)[i];
            if i < |store| then row == FromTask(store[i], CurrentLifecycle(log, store[i].id), tenant)
            else
              && FindTask(store, row.id) == None && Genesis(log, row.id).Some?
              && row.id == LogOnly(LogTaskIds(log), store)[i - |store|]
              && row == LogView(log, Genesis(log, row.id).value, tenant)
    ensures |ListRows(store, log, tenant)| == |store| + |LogOnly(LogTaskIds(log), store)|
  {
    hide CurrentLifecycle, GenesisOwner, LogTaskIds, FindTask;
    LogOnlyHasGenesis(log, store);
    LogOnlyMembers(LogTaskIds(log), store);
    if i >= |store| {
      assert LogOnly(LogTaskIds(log), store)[i - |store|] in LogOnly(LogTaskIds(log), store);
    }
  }

  /** Every row is what reading its id returns. */
  lemma RowsAreReads(store: seq<Task>, log: seq<Transition>, tenant: Tenancy)
    requires DistinctTasks(store)
    ensures forall row :: row in ListRows(store, log, tenant) ==> GetView(row.id, store, log, tenant) == Some(row)
  {
    hide CurrentLifecycle, GenesisOwner, LogTaskIds, FindTask, Genesis, ListRows;
    var rows := ListRows(store, log, tenant);
    forall i | 0 <= i < |rows|
      ensures GetView(rows[i].id, store, log, tenant) == Some(rows[i])
    {
      RowKinds(store, log, tenant, i);
      if i < |store| {
        FoundFirst(store, store[i]);
      }
    }
  }

  /** An id is listed exactly when reading it finds something. */
  lemma ListedIffFound(store: seq<Task>, log: seq<Transition>, tenant: Tenancy, id: string)
    ensures id in Ids(ListRows(store, log, tenant)) <==> GetView(id, store, log, tenant).Some?
  {
    hide CurrentLifecycle, GenesisOwner, FindTask, Genesis, ListRows, LogTaskIds;
    var rows := ListRows(store, log, tenant);
    var only := LogOnly(LogTaskIds(log), store);
    LogOnlyMembers(LogTaskIds(log), store);
    ListLength(store, log, tenant);
    if id in Ids(rows) {
      var i :| 0 <= i < |rows| && Ids(rows)[i] == id;
      RowKinds(store, log, tenant, i);
    }
    if FindTask(store, id).Some? {
      var i :| 0 <= i < |store| && store[i] == FindTask(store, id).value;
      RowKinds(store, log, tenant, i);
      assert Ids(rows)[i] == id;
    } else if Genesis(log, id).Some? {
      assert id in only;
      var i :| 0 <= i < |only| && only[i] == id;
      RowKinds(store, log, tenant, |store| + i);
      assert Ids(rows)[|store| + i] == id;
    }
  }

  lemma ListLength(store: seq<Task>, log: seq<Transition>, tenant: Tenancy)
    ensures |ListRows(store, log, tenant)| == |store| + |LogOnly(LogTaskIds(log), store)|
  {
  }

  /** Ids repeat in the list exactly when the store repeats one. */
  lemma ListedOnce(store: seq<Task>, log: seq<Transition>, tenant: Tenancy)
    ensures DistinctIds(Ids(ListRows(store, log, tenant))) <==> DistinctTasks(store)
  {
    hide CurrentLifecycle, GenesisOwner, Genesis, ListRows, LogTaskIds;
    var rows := ListRows(store, log, tenant);
    ListLength(store, log, tenant);
    LogOnlyDistinct(LogTaskIds(log), store);
    forall i | 0 <= i < |rows|
      ensures if i < |store| then Ids(rows)[i] == store[i].id
              else Ids(rows)[i] == LogOnly(LogTaskIds(log), store)[i - |store|]
                   && FindTask(store, Ids(rows)[i]) == None
    {
      RowKinds(store, log, tenant, i);
    }
    hide FindTask;
    if DistinctIds(Ids(rows)) {
      forall i, j | 0 <= i < j < |store|
        ensures store[i].id != store[j].id
      {
        assert Ids(rows)[i] != Ids(rows)[j];
      }
    }
  }

  /** The one-pass list agrees with the single read: on any log, when the store's ids are
      distinct, every row is what reading its id returns, every id a read finds is listed,
      and no id is listed twice. */
  lemma ListRefinesReads(store: seq<Task>, log: seq<Transition>, tenant: Tenancy)
    ensures DistinctIds(Ids(ListRows(store, log, tenant))) <==> DistinctTasks(store)
    ensures DistinctTasks(store) ==>
              forall row :: row in ListRows(store, log, tenant) ==> GetView(row.id, store, log, tenant) == Some(row)
    ensures forall id :: id in Ids(ListRows(store, log, tenant)) <==> GetView(id, store, log, tenant).Some?
  {
    hide ListRows, GetView;
    ListedOnce(store, log, tenant);
    if DistinctTasks(store) {
      RowsAreReads(store, log, tenant);
    }
    forall id
      ensures id in Ids(ListRows(store, log, tenant)) <==> GetView(id, store, log, tenant).Some?
    {
      ListedIffFound(store, log, tenant, id);
    }
  }

  /** On overlap the store's record is shown, at the stage of the log's last line. */
  lemma StoreWinsOnOverlap(store: seq<Task>, log: seq<Transition>, tenant: Tenancy, t: Task)
    requires DistinctTasks(store) && t in store
    ensures var row := FromTask(t, CurrentLifecycle(log, t.id), tenant);
            && row in ListRows(store, log, tenant)
            && forall other :: other in ListRows(store, log, tenant) && other.id == t.id ==> other == row
  {
    hide CurrentLifecycle, LogTaskIds, LogOnly;
    FoundFirst(store, t);
    RowsAreReads(store, log, tenant);
    var i :| 0 <= i < |store| && store[i] == t;
    ListLength(store, log, tenant);
    RowKinds(store, log, tenant, i);
    assert ListRows(store, log, tenant)[i] in ListRows(store, log, tenant);
  }

  // ---- what a view tells --------------------------------------------------------------

  /** The stage of a task's last line. */
  function LastStage(lines: seq<Transition>): Lifecycle {
    if lines == [] then Created else lines[|lines| - 1].to
  }

  /** A task of the store is shown as it is recorded there, with the stage of its last log line. */
  lemma StoreViewTells(store: seq<Task>, log: seq<Transition>, tenant: Tenancy, t: Task)
    requires DistinctTasks(store) && t in store
    ensures var v := GetView(t.id, store, log, tenant);
            && v.Some? && v.value.id == t.id && v.value.title == t.title
            && v.value.column == t.column && v.value.order == t.order
            && v.value.createdAt == t.createdAt && v.value.updatedAt == t.updatedAt
            && v.value.workspaceId == tenant(t.workspaceId) && v.value.paneId == t.paneId && v.value.runId == t.runId
            && v.value.lifecycle == LastStage(LinesOf(log, t.id))
  {
    FoundFirst(store, t);
    FoldIsLastLine(log, t.id);
    hide CurrentLifecycle, LinesOf;
  }

  lemma {:induction false} GenesisAt(log: seq<Transition>, id: string, i: nat)
    requires i < |log| && log[i].taskId == id && log[i].from == None
    requires forall j :: 0 <= j < i ==> !(log[j].taskId == id && log[j].from == None)
    ensures Genesis(log, id) == Some(log[i])
  {
    if i > 0 {
      assert forall j :: 0 <= j < i - 1 ==> log[1..][j] == log[j + 1];
      GenesisAt(log[1..], id, i - 1);
    }
  }

  /** A task of the log alone is shown with the title and the time of its first genesis line, that time
      as both timestamps, in the backlog, under its author's workspace, with the stage of its last line. */
  lemma LogViewTells(store: seq<Task>, log: seq<Transition>, tenant: Tenancy, id: string, i: nat)
    requires forall t :: t in store ==> t.id != id
    requires i < |log| && log[i].taskId == id && log[i].from == None
    requires forall j :: 0 <= j < i ==> !(log[j].taskId == id && log[j].from == None)
    ensures var v := GetView(id, store, log, tenant);
            && v.Some? && v.value.id == id
            && v.value.title == (if log[i].title.Some? then log[i].title.value else "")
            && v.value.column == Backlog && v.value.order == 0
            && v.value.createdAt == log[i].at && v.value.updatedAt == log[i].at
            && v.value.workspaceId == tenant(if log[i].author.Pane? then Some(log[i].author.workspaceId) else None)
            && v.value.paneId == None && v.value.runId == None
            && v.value.lifecycle == LastStage(LinesOf(log, id))
  {
    GenesisAt(log, id, i);
    FoldIsLastLine(log, id);
    hide CurrentLifecycle, LinesOf, Genesis;
  }

  // ---- the order of the list ----------------------------------------------------------

  /** The first genesis line of `id` is line `p`. */
  ghost predicate FirstAt(log: seq<Transition>, id: string, p: nat) {
    && p < |log| && log[p].taskId == id && log[p].from == None
    && forall j :: 0 <= j < p ==> !(log[j].taskId == id && log[j].from == None)
  }

  lemma {:induction false} FirstLine(log: seq<Transition>, id: string) returns (p: nat)
    requires id in LogTaskIds(log)
    ensures FirstAt(log, id, p)
  {
    var n := |log| - 1;
    assert log == log[..n] + [log[n]];
    if id in LogTaskIds(log[..n]) {
      p := FirstLine(log[..n], id);
    } else {
      p := n;
      assert forall j :: 0 <= j < n ==> log[j] in log[..n];
    }
  }

  lemma {:induction false} IdsInOrder(log: seq<Transition>, i: nat, j: nat) returns (p: nat, q: nat)
    requires i < j < |LogTaskIds(log)|
    ensures p < q && FirstAt(log, LogTaskIds(log)[i], p) && FirstAt(log, LogTaskIds(log)[j], q)
  {
    var n := |log| - 1;
    var before := LogTaskIds(log[..n]);
    assert log == log[..n] + [log[n]];
    if j < |before| {
      p, q := IdsInOrder(log[..n], i, j);
    } else {
      p := FirstLine(log[..n], before[i]);
      q := n;
      assert forall k :: 0 <= k < n ==> log[k] in log[..n];
    }
  }

  lemma {:induction false} LogOnlyInOrder(ids: seq<string>, store: seq<Task>, i: nat, j: nat) returns (a: nat, b: nat)
    requires i <= j < |LogOnly(ids, store)|
    ensures a <= b < |ids| && (i < j ==> a < b)
    ensures ids[a] == LogOnly(ids, store)[i] && ids[b] == LogOnly(ids, store)[j]
  {
    var n := |ids| - 1;
    var rest := LogOnly(ids[..n], store);
    if j < |rest| {
      a, b := LogOnlyInOrder(ids[..n], store, i, j);
    } else {
      b := n;
      if i < j {
        var c: nat;
        a, c := LogOnlyInOrder(ids[..n], store, i, i);
      } else {
        a := n;
      }
    }
  }

  /** The first genesis line of `a` comes before that of `b`. */
  ghost predicate CreatedBefore(log: seq<Transition>, a: string, b: string) {
    exists p, q :: p < q && FirstAt(log, a, p) && FirstAt(log, b, q)
  }

  /** The store's tasks come first, as they are stored; then those of the log alone, in the order of
      their first genesis lines. */
  lemma ListIsInOrder(store: seq<Task>, log: seq<Transition>, tenant: Tenancy, i: nat, j: nat)
    requires i < |ListRows(store, log, tenant)|
    ensures i < |store| ==> ListRows(store, log, tenant)[i].id == store[i].id
    ensures |store| <= j < i ==>
              CreatedBefore(log, ListRows(store, log, tenant)[j].id, ListRows(store, log, tenant)[i].id)
  {
    hide CurrentLifecycle, LogTaskIds, LogOnly, FirstAt, ListRows;
    RowKinds(store, log, tenant, i);
    if |store| <= j < i {
      RowKinds(store, log, tenant, j);
      var ids := LogTaskIds(log);
      var a, b := LogOnlyInOrder(ids, store, j - |store|, i - |store|);
      var p, q := IdsInOrder(log, a, b);
      assert CreatedBefore(log, ids[a], ids[b]);
    }
  }
}
