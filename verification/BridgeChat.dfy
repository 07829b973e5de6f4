/** The docked chat's timeline (app/src/bridge-chat-core.js): events fold into turns, the
    oldest turns are trimmed, and transient turns replace themselves. */
module BridgeChat {
  import opened Wrappers

  const TURN_CAP := 200

  datatype PlanTask = PlanTask(id: string, task: string, wave: int, role: Option<string>, owns: seq<string>)
  datatype PaneState = PaneState(text: string, cls: Option<string>)

  datatype Content =
    | User(text: string)
    | Phase(phase: string, text: string)
    | Plan(tasks: seq<PlanTask>, twoWave: bool)
    | Status(panes: map<string, PaneState>)
    | Dispatched(n: nat, dead: nat, heldVerify: bool)
    | Prd(path: string, verdictHint: Option<string>)
    | Info(text: string)
    | Failure(text: string)

  /** A timeline entry; `key` is its stable id. */
  datatype Turn = Turn(content: Content, key: nat)

  datatype Chat = Chat(turns: seq<Turn>, phase: string, paneStates: map<string, PaneState>,
                       prd: Option<Content>, counter: nat)

  const INITIAL_CHAT := Chat([], "idle", map[], None, 0)

  datatype Event =
    | GoalEvent(text: string)
    | PhaseEvent(phase: string, caption: string)
    | PlanEvent(tasks: seq<PlanTask>, twoWave: bool)
    | PaneEvent(id: string, text: string, cls: Option<string>)
    | DispatchedEvent(n: nat, dead: nat, heldVerify: bool)
    | PrdEvent(path: string, verdictHint: Option<string>)
    | InfoEvent(text: string)
    | ErrorEvent(text: string)
    | Reset
    | UnknownEvent

  /** The `in` test on the table of in-flight phases: its own names, and those every object
      inherits. */
  predicate InFlight(phase: string) {
    phase in { "planning", "collecting", "constructor", "toString", "toLocaleString", "valueOf",
               "hasOwnProperty", "isPrototypeOf", "propertyIsEnumerable", "__proto__",
               "__defineGetter__", "__defineSetter__", "__lookupGetter__", "__lookupSetter__" }
  }

  function InFlightText(phase: string): string {
    if phase == "planning" then "Planning…" else if phase == "collecting" then "Collecting reports…" else ""
  }

  // ---- trimming ---------------------------------------------------------------------

  /** Index of the last plan turn, or -1. */
  function LastPlan(turns: seq<Turn>): (i: int)
    ensures -1 <= i < |turns|
    ensures i >= 0 ==> turns[i].content.Plan?
    ensures forall j :: i < j < |turns| ==> !turns[j].content.Plan?
  {
    if turns == [] then -1
    else if turns[|turns| - 1].content.Plan? then |turns| - 1
    else LastPlan(turns[..|turns| - 1])
  }

  /** Index of the last prd turn, or -1. */
  function LastPrd(turns: seq<Turn>): (i: int)
    ensures -1 <= i < |turns|
    ensures i >= 0 ==> turns[i].content.Prd?
    ensures forall j :: i < j < |turns| ==> !turns[j].content.Prd?
  {
    if turns == [] then -1
    else if turns[|turns| - 1].content.Prd? then |turns| - 1
    else LastPrd(turns[..|turns| - 1])
  }

  /** From index `i` on, leave out the first `drop` turns that are neither of the two kept. */
  function Trim(turns: seq<Turn>, i: nat, drop: nat, plan: int, prd: int): seq<Turn>
    requires i <= |turns|
    decreases |turns| - i
  {
    if i == |turns| then []
    else if drop > 0 && i != plan && i != prd then Trim(turns, i + 1, drop - 1, plan, prd)
    else [turns[i]] + Trim(turns, i + 1, drop, plan, prd)
  }

  function CapTurns(turns: seq<Turn>): seq<Turn> {
    if |turns| <= TURN_CAP then turns
    else Trim(turns, 0, |turns| - TURN_CAP, LastPlan(turns), LastPrd(turns))
  }

  lemma LastPlanIs(turns: seq<Turn>, i: nat)
    requires i < |turns| && turns[i].content.Plan? && forall j :: i < j < |turns| ==> !turns[j].content.Plan?
    ensures LastPlan(turns) == i
  {
  }

  lemma LastPrdIs(turns: seq<Turn>, i: nat)
    requires i < |turns| && turns[i].content.Prd? && forall j :: i < j < |turns| ==> !turns[j].content.Prd?
    ensures LastPrd(turns) == i
  {
  }

  /** The backward scan of `capTurns` for the two turns to keep. */
  method FindKept(turns: seq<Turn>) returns (lastPlan: int, lastPrd: int)
    ensures lastPlan == LastPlan(turns) && lastPrd == LastPrd(turns)
  {
    lastPlan, lastPrd := -1, -1;
    var i := |turns| - 1;
    while i >= 0 && (lastPlan < 0 || lastPrd < 0)
      invariant -1 <= i < |turns|
      invariant if lastPlan < 0 then lastPlan == -1 && forall j :: i < j < |turns| ==> !turns[j].content.Plan?
                else lastPlan == LastPlan(turns)
      invariant if lastPrd < 0 then lastPrd == -1 && forall j :: i < j < |turns| ==> !turns[j].content.Prd?
                else lastPrd == LastPrd(turns)
    {
      if lastPlan < 0 && turns[i].content.Plan? {
        LastPlanIs(turns, i);
        lastPlan := i;
      }
      if lastPrd < 0 && turns[i].content.Prd? {
        LastPrdIs(turns, i);
        lastPrd := i;
      }
      i := i - 1;
    }
  }

  /** `capTurns`: find what to keep, then one forward pass. */
  method CapTurnsLoop(turns: seq<Turn>) returns (out: seq<Turn>)
    ensures out == CapTurns(turns)
  {
    if |turns| <= TURN_CAP {
      return turns;
    }
    var lastPlan, lastPrd := FindKept(turns);
    hide LastPlan, LastPrd;
    var drop := |turns| - TURN_CAP;
    out := [];
    var i := 0;
    while i < |turns|
      invariant 0 <= i <= |turns| && 0 <= drop
      invariant out + Trim(turns, i, drop, lastPlan, lastPrd) == CapTurns(turns)
    {
      if drop > 0 && i != lastPlan && i != lastPrd {
        drop := drop - 1;
      } else {
        ghost var rest := Trim(turns, i + 1, drop, lastPlan, lastPrd);
        assert out + ([turns[i]] + rest) == out + [turns[i]] + rest;
        out := out + [turns[i]];
      }
      i := i + 1;
    }
  }

  // ---- the reducer ------------------------------------------------------------------

  function Push(state: Chat, content: Content): Chat {
    state.(counter := state.counter + 1, turns := CapTurns(state.turns + [Turn(content, state.counter + 1)]))
  }

  function Last(state: Chat): Turn
    requires state.turns != []
  {
    state.turns[|state.turns| - 1]
  }

  function ReplaceLast(state: Chat, content: Content): Chat
    requires state.turns != []
  {
    state.(turns := state.turns[..|state.turns| - 1] + [Turn(content, Last(state).key)])
  }

  /** Keep a task's role only when it names one. */
  function NormalTask(t: PlanTask): PlanTask {
    if t.role == Some("") then t.(role := None) else t
  }

  function ChatReduce(state: Chat, e: Event): Chat {
    match e
    case GoalEvent(text) => Push(state, User(text))
    case PhaseEvent(phase, caption) =>
      var next := state.(phase := phase);
      if !InFlight(phase) then next
      else
        var content := Phase(phase, if caption != "" then caption else InFlightText(phase));
        if state.turns != [] && Last(state).content.Phase? && Last(state).content.phase == phase
        then ReplaceLast(next, content)
        else Push(next, content)
    case PlanEvent(tasks, twoWave) =>
      Push(state, Plan(seq(|tasks|, i requires 0 <= i < |tasks| => NormalTask(tasks[i])), twoWave))
    case PaneEvent(id, text, cls) =>
      var states := state.paneStates[id := PaneState(text, if cls == Some("") then None else cls)];
      var next := state.(paneStates := states);
      if state.turns != [] && Last(state).content.Status?
      then ReplaceLast(next, Status(states))
      else Push(next, Status(states))
    case DispatchedEvent(n, dead, held) => Push(state, Dispatched(n, dead, held))
    case PrdEvent(path, hint) => Push(state.(prd := Some(Prd(path, hint))), Prd(path, hint))
    case InfoEvent(text) => Push(state, Info(text))
    case ErrorEvent(text) => Push(state, Failure(text))
    case Reset => INITIAL_CHAT
    case UnknownEvent => state
  }

  function Fold(state: Chat, events: seq<Event>): Chat {
    if events == [] then state else ChatReduce(Fold(state, events[..|events| - 1]), events[|events| - 1])
  }

  // ---- what trimming keeps ----------------------------------------------------------

  /** Keys grow strictly along the timeline and never pass the counter. */
  ghost predicate Increasing(turns: seq<Turn>, top: nat) {
    && (forall i, j :: 0 <= i < j < |turns| ==> turns[i].key < turns[j].key)
    && forall i :: 0 <= i < |turns| ==> turns[i].key <= top
  }

  /** These two turns may not stand next to each other: two status turns, or two turns of
      one in-flight phase. */
  predicate Repeats(a: Content, b: Content) {
    (a.Status? && b.Status?) || (a.Phase? && b.Phase? && a.phase == b.phase)
  }

  ghost predicate NoRepeats(turns: seq<Turn>) {
    forall i :: 0 < i < |turns| ==> !Repeats(turns[i - 1].content, turns[i].content)
  }

  /** Turns at or after index `i`. */
  ghost predicate From(out: seq<Turn>, turns: seq<Turn>, i: nat) {
    i <= |turns| && forall t :: t in out ==> t in turns[i..]
  }

  lemma {:induction false} TrimZero(turns: seq<Turn>, i: nat, plan: int, prd: int)
    requires i <= |turns|
    ensures Trim(turns, i, 0, plan, prd) == turns[i..]
    decreases |turns| - i
  {
    if i < |turns| {
      TrimZero(turns, i + 1, plan, prd);
    }
  }

  /** At most two turns are protected, so enough others can go. */
  lemma {:induction false} TrimLength(turns: seq<Turn>, i: nat, drop: nat, plan: int, prd: int)
    requires i <= |turns|
    requires drop <= |turns| - i - (if plan >= i then 1 else 0) - (if prd >= i then 1 else 0)
    requires plan < |turns| && prd < |turns|
    ensures |Trim(turns, i, drop, plan, prd)| == |turns| - i - drop
    decreases |turns| - i
  {
    if drop == 0 {
      TrimZero(turns, i, plan, prd);
    } else if i != plan && i != prd {
      TrimLength(turns, i + 1, drop - 1, plan, prd);
    } else {
      TrimLength(turns, i + 1, drop, plan, prd);
    }
  }

  lemma {:induction false} TrimSelects(turns: seq<Turn>, i: nat, drop: nat, plan: int, prd: int)
    requires i <= |turns|
    ensures From(Trim(turns, i, drop, plan, prd), turns, i)
    ensures i <= plan < |turns| ==> turns[plan] in Trim(turns, i, drop, plan, prd)
    ensures i <= prd < |turns| ==> turns[prd] in Trim(turns, i, drop, plan, prd)
    decreases |turns| - i
  {
    if i < |turns| {
      assert turns[i..] == [turns[i]] + turns[i + 1..];
      if drop > 0 && i != plan && i != prd {
        TrimSelects(turns, i + 1, drop - 1, plan, prd);
      } else {
        TrimSelects(turns, i + 1, drop, plan, prd);
      }
    }
  }

  lemma NothingIncreases(top: nat)
    ensures Increasing([], top)
  {
  }

  lemma FrontIncreasing(turns: seq<Turn>, i: nat, rest: seq<Turn>, top: nat)
    requires i < |turns| && Increasing(turns, top) && Increasing(rest, top) && From(rest, turns, i + 1)
    ensures Increasing([turns[i]] + rest, top)
  {
    forall k | 0 <= k < |rest|
      ensures turns[i].key < rest[k].key
    {
      assert rest[k] in turns[i + 1..];
      var j :| 0 <= j < |turns[i + 1..]| && turns[i + 1..][j] == rest[k];
      assert turns[i + 1 + j] == rest[k];
    }
  }

  lemma {:induction false} TrimIncreasing(turns: seq<Turn>, i: nat, drop: nat, plan: int, prd: int, top: nat)
    requires i <= |turns| && Increasing(turns, top)
    ensures Increasing(Trim(turns, i, drop, plan, prd), top)
    decreases |turns| - i
  {
    hide Increasing, From;
    if i == |turns| {
      NothingIncreases(top);
    } else {
      if drop > 0 && i != plan && i != prd {
        TrimIncreasing(turns, i + 1, drop - 1, plan, prd, top);
      } else {
        TrimIncreasing(turns, i + 1, drop, plan, prd, top);
        TrimSelects(turns, i + 1, drop, plan, prd);
        FrontIncreasing(turns, i, Trim(turns, i + 1, drop, plan, prd), top);
      }
    }
  }

  lemma KeptInFront(turn: Turn, rest: seq<Turn>)
    requires NoRepeats(rest) && (turn.content.Plan? || turn.content.Prd?)
    ensures NoRepeats([turn] + rest)
  {
    forall i | 0 < i < |rest| + 1
      ensures !Repeats(([turn] + rest)[i - 1].content, ([turn] + rest)[i].content)
    {
      assert i > 1 ==> !Repeats(rest[i - 2].content, rest[i - 1].content);
    }
  }

  /** Trimming brings no two repeating turns together: what it jumps over is preceded by
      kept plan and prd turns only. */
  lemma {:induction false} TrimNoRepeats(turns: seq<Turn>, i: nat, drop: nat, plan: int, prd: int)
    requires i <= |turns| && NoRepeats(turns)
    requires 0 <= plan < |turns| ==> turns[plan].content.Plan?
    requires 0 <= prd < |turns| ==> turns[prd].content.Prd?
    ensures NoRepeats(Trim(turns, i, drop, plan, prd))
    decreases |turns| - i
  {
    if drop == 0 {
      TrimZero(turns, i, plan, prd);
    } else if i < |turns| {
      if i != plan && i != prd {
        TrimNoRepeats(turns, i + 1, drop - 1, plan, prd);
      } else {
        TrimNoRepeats(turns, i + 1, drop, plan, prd);
        KeptInFront(turns[i], Trim(turns, i + 1, drop, plan, prd));
        hide NoRepeats, Repeats;
      }
    }
  }

  // ---- over whole conversations -----------------------------------------------------

  /** What a conversation remembers: the latest plan and prd turns pushed since the last
      reset. */
  datatype Memory = Memory(plan: Option<Turn>, prd: Option<Turn>)

  /** The turn an event pushes, were nothing trimmed. */
  function Remember(m: Memory, state: Chat, e: Event): Memory {
    match e
    case PlanEvent(tasks, twoWave) =>
      var normal := seq(|tasks|, i requires 0 <= i < |tasks| => NormalTask(tasks[i]));
      m.(plan := Some(Turn(Plan(normal, twoWave), state.counter + 1)))
    case PrdEvent(path, hint) => m.(prd := Some(Turn(Prd(path, hint), state.counter + 1)))
    case Reset => Memory(None, None)
    case _ => m
  }

  function Memories(events: seq<Event>): Memory {
    if events == [] then Memory(None, None)
    else
      var before := events[..|events| - 1];
      Remember(Memories(before), Fold(INITIAL_CHAT, before), events[|events| - 1])
  }

  /** The remembered turns are in the timeline, and are its last of their kind. */
  ghost predicate Present(m: Memory, turns: seq<Turn>) {
    && (match m.plan
        case Some(t) => t in turns && t.content.Plan? && forall u :: u in turns && u.content.Plan? ==> u.key <= t.key
        case None => forall u :: u in turns ==> !u.content.Plan?)
    && (match m.prd
        case Some(t) => t in turns && t.content.Prd? && forall u :: u in turns && u.content.Prd? ==> u.key <= t.key
        case None => forall u :: u in turns ==> !u.content.Prd?)
  }

  ghost predicate Good(state: Chat, m: Memory) {
    && |state.turns| <= 200
    && Increasing(state.turns, state.counter)
    && NoRepeats(state.turns)
    && Present(m, state.turns)
  }

  lemma CapKeeps(turns: seq<Turn>, m: Memory, top: nat)
    requires Increasing(turns, top) && NoRepeats(turns) && Present(m, turns)
    ensures var out := CapTurns(turns);
            && |out| == (if |turns| <= TURN_CAP then |turns| else TURN_CAP)
            && Increasing(out, top) && NoRepeats(out) && Present(m, out)
  {
    hide Trim, LastPlan, LastPrd, NoRepeats, Increasing, Present;
    if |turns| > TURN_CAP {
      var plan, prd := LastPlan(turns), LastPrd(turns);
      var drop := |turns| - TURN_CAP;
      TrimLength(turns, 0, drop, plan, prd);
      TrimSelects(turns, 0, drop, plan, prd);
      TrimIncreasing(turns, 0, drop, plan, prd, top);
      TrimNoRepeats(turns, 0, drop, plan, prd);
      LatestIsLast(turns, m, top);
      assert turns[0..] == turns;
      StillPresent(m, turns, CapTurns(turns));
    }
  }

  lemma StillPresent(m: Memory, turns: seq<Turn>, out: seq<Turn>)
    requires Present(m, turns) && From(out, turns, 0) && turns[0..] == turns
    requires m.plan.Some? ==> m.plan.value in out
    requires m.prd.Some? ==> m.prd.value in out
    ensures Present(m, out)
  {
  }

  /** The remembered turns are the ones trimming protects. */
  lemma LatestIsLast(turns: seq<Turn>, m: Memory, top: nat)
    requires Increasing(turns, top) && Present(m, turns)
    ensures m.plan.Some? ==> LastPlan(turns) >= 0 && turns[LastPlan(turns)] == m.plan.value
    ensures m.prd.Some? ==> LastPrd(turns) >= 0 && turns[LastPrd(turns)] == m.prd.value
  {
    if m.plan.Some? {
      var i :| 0 <= i < |turns| && turns[i] == m.plan.value;
      var last := LastPlan(turns);
      assert last >= i && turns[last] in turns;
      hide LastPlan, LastPrd;
      assert turns[last].key <= turns[i].key;
    }
    if m.prd.Some? {
      var i :| 0 <= i < |turns| && turns[i] == m.prd.value;
      var last := LastPrd(turns);
      assert last >= i && turns[last] in turns;
      hide LastPlan, LastPrd;
      assert turns[last].key <= turns[i].key;
    }
  }

  lemma SnocPresent(turns: seq<Turn>, turn: Turn, m: Memory, m': Memory)
    requires Present(m, turns) && forall u :: u in turns ==> u.key <= turn.key
    requires m'.plan == if turn.content.Plan? then Some(turn) else m.plan
    requires m'.prd == if turn.content.Prd? then Some(turn) else m.prd
    ensures Present(m', turns + [turn])
  {
    assert forall u :: u in turns + [turn] <==> u in turns || u == turn;
  }

  lemma SnocGrows(turns: seq<Turn>, turn: Turn, top: nat)
    requires Increasing(turns, top) && NoRepeats(turns) && turn.key == top + 1
    requires turns != [] ==> !Repeats(turns[|turns| - 1].content, turn.content)
    ensures Increasing(turns + [turn], top + 1) && NoRepeats(turns + [turn])
    ensures forall u :: u in turns ==> u.key <= turn.key
  {
    hide Repeats;
  }

  lemma PushKeeps(state: Chat, content: Content, m: Memory, m': Memory)
    requires Good(state, m)
    requires state.turns != [] ==> !Repeats(Last(state).content, content)
    requires m'.plan == if content.Plan? then Some(Turn(content, state.counter + 1)) else m.plan
    requires m'.prd == if content.Prd? then Some(Turn(content, state.counter + 1)) else m.prd
    ensures Good(Push(state, content), m')
  {
    hide CapTurns, Increasing, NoRepeats, Present, Repeats;
    var turn := Turn(content, state.counter + 1);
    SnocGrows(state.turns, turn, state.counter);
    SnocPresent(state.turns, turn, m, m');
    CapKeeps(state.turns + [turn], m', state.counter + 1);
  }

  /** Replacing a status or phase turn by one of its own kind disturbs nothing else. */
  lemma ReplaceKeeps(state: Chat, content: Content, m: Memory)
    requires Good(state, m) && state.turns != []
    requires (Last(state).content.Status? && content.Status?)
             || (Last(state).content.Phase? && content.Phase? && Last(state).content.phase == content.phase)
    ensures Good(ReplaceLast(state, content), m)
  {
    var n := |state.turns| - 1;
    var before, last := state.turns[..n], Last(state);
    var now := Turn(content, last.key);
    assert state.turns == before + [last];
    hide Present, Increasing, NoRepeats;
    ReplacedPresent(before, last, now, m);
    ReplacedOrder(before, last, now, state.counter);
  }

  lemma ReplacedOrder(before: seq<Turn>, last: Turn, now: Turn, top: nat)
    requires Increasing(before + [last], top) && NoRepeats(before + [last]) && now.key == last.key
    requires forall c: Content :: Repeats(c, now.content) ==> Repeats(c, last.content)
    ensures Increasing(before + [now], top) && NoRepeats(before + [now])
  {
    hide Repeats;
    var (was, out) := (before + [last], before + [now]);
    forall i | 0 < i < |out|
      ensures out[i - 1].key < out[i].key && !Repeats(out[i - 1].content, out[i].content)
    {
      assert was[i - 1] == out[i - 1] && was[i - 1].key < was[i].key;
      assert !Repeats(was[i - 1].content, was[i].content);
    }
    forall i | 0 <= i < |out|
      ensures out[i].key == was[i].key
    {
    }
  }

  lemma ReplacedPresent(before: seq<Turn>, last: Turn, now: Turn, m: Memory)
    requires Present(m, before + [last])
    requires !last.content.Plan? && !last.content.Prd? && !now.content.Plan? && !now.content.Prd?
    ensures Present(m, before + [now])
  {
    assert forall u :: u in before + [last] <==> u in before || u == last;
    assert forall u :: u in before + [now] <==> u in before || u == now;
  }

  lemma ReduceKeeps(state: Chat, e: Event, m: Memory)
    requires Good(state, m)
    ensures Good(ChatReduce(state, e), Remember(m, state, e))
  {
    hide CapTurns, Increasing, NoRepeats, Present, InFlight, InFlightText;
    match e
    case PhaseEvent(phase, caption) =>
      var next := state.(phase := phase);
      var content := Phase(phase, if caption != "" then caption else InFlightText(phase));
      if InFlight(phase) {
        if state.turns != [] && Last(state).content.Phase? && Last(state).content.phase == phase {
          ReplaceKeeps(next, content, m);
        } else {
          PushKeeps(next, content, m, m);
        }
      }
    case PaneEvent(id, text, cls) =>
      var next := state.(paneStates := state.paneStates[id := PaneState(text, if cls == Some("") then None else cls)]);
      if state.turns != [] && Last(state).content.Status? {
        ReplaceKeeps(next, Status(next.paneStates), m);
      } else {
        PushKeeps(next, Status(next.paneStates), m, m);
      }
    case GoalEvent(text) => PushKeeps(state, User(text), m, m);
    case PlanEvent(tasks, twoWave) =>
      PushKeeps(state, Remember(m, state, e).plan.value.content, m, Remember(m, state, e));
    case DispatchedEvent(n, dead, held) => PushKeeps(state, Dispatched(n, dead, held), m, m);
    case PrdEvent(path, hint) =>
      PushKeeps(state.(prd := Some(Prd(path, hint))), Prd(path, hint), m, Remember(m, state, e));
    case InfoEvent(text) => PushKeeps(state, Info(text), m, m);
    case ErrorEvent(text) => PushKeeps(state, Failure(text), m, m);
    case Reset => FreshChat();
    case UnknownEvent =>
  }

  lemma FreshChat()
    ensures Good(INITIAL_CHAT, Memory(None, None))
  {
  }

  /** After any sequence of events: at most 200 turns; keys strictly increase; no two
      adjacent turns are both status turns or both the same in-flight phase; and the latest
      plan and prd since the last reset are still there, the last of their kind. */
  lemma {:induction false} TimelineStaysGood(events: seq<Event>)
    ensures Good(Fold(INITIAL_CHAT, events), Memories(events))
  {
    hide Good, ChatReduce, Remember;
    if events == [] {
      FreshChat();
    } else {
      var before := events[..|events| - 1];
      TimelineStaysGood(before);
      ReduceKeeps(Fold(INITIAL_CHAT, before), events[|events| - 1], Memories(before));
    }
  }

  // ---- what events say --------------------------------------------------------------

  /** What an event says once and for all, if it does. */
  function Said(e: Event): Option<Content> {
    match e
    case GoalEvent(text) => Some(User(text))
    case InfoEvent(text) => Some(Info(text))
    case ErrorEvent(text) => Some(Failure(text))
    case PlanEvent(tasks, twoWave) =>
      Some(Plan(seq(|tasks|, i requires 0 <= i < |tasks| =>
                  if tasks[i].role == Some("") then tasks[i].(role := None) else tasks[i]), twoWave))
    case DispatchedEvent(n, dead, held) => Some(Dispatched(n, dead, held))
    case PrdEvent(path, hint) => Some(Prd(path, hint))
    case _ => None
  }

  /** The timeline `out` is `turns` with a turn at its end. If there are 200 already, one goes: the
      first that is not the latest plan or prd. */
  ghost predicate Appended(turns: seq<Turn>, out: seq<Turn>, turn: Turn) {
    if |turns| < 200 then out == turns + [turn]
    else exists i :: 0 <= i < 3 && out == turns[..i] + turns[i + 1..] + [turn]
                     && forall j :: 0 <= j < i ==> turns[j].content.Plan? || turns[j].content.Prd?
  }

  predicate Spared(i: nat, plan: int, prd: int) {
    i == plan || i == prd
  }

  lemma {:induction false} TrimOne(turns: seq<Turn>, k: nat, plan: int, prd: int) returns (i: nat)
    requires k <= |turns| && 1 <= |turns| - k - (if plan >= k then 1 else 0) - (if prd >= k then 1 else 0)
    requires plan < |turns| && prd < |turns|
    ensures k <= i < |turns| && !Spared(i, plan, prd) && forall j :: k <= j < i ==> Spared(j, plan, prd)
    ensures Trim(turns, k, 1, plan, prd) == turns[k..i] + turns[i + 1..]
    decreases |turns| - k
  {
    if k != plan && k != prd {
      i := k;
      TrimZero(turns, k + 1, plan, prd);
    } else {
      i := TrimOne(turns, k + 1, plan, prd);
      assert turns[k..i] == [turns[k]] + turns[k + 1..i];
      assert [turns[k]] + (turns[k + 1..i] + turns[i + 1..]) == [turns[k]] + turns[k + 1..i] + turns[i + 1..];
    }
  }

  lemma CapAppends(turns: seq<Turn>, turn: Turn)
    requires |turns| <= 200
    ensures Appended(turns, CapTurns(turns + [turn]), turn)
  {
    hide LastPlan, LastPrd, Trim;
    var all := turns + [turn];
    if |turns| == 200 {
      var plan, prd := LastPlan(all), LastPrd(all);
      var i := TrimOne(all, 0, plan, prd);
      FewProtected(i, plan, prd);
      assert all[..i] + all[i + 1..] == turns[..i] + turns[i + 1..] + [turn];
      assert all[0..i] == all[..i];
      forall j | 0 <= j < i
        ensures turns[j].content.Plan? || turns[j].content.Prd?
      {
        assert Spared(j, plan, prd) && all[j] == turns[j];
      }
    }
  }

  lemma FewProtected(i: nat, plan: int, prd: int)
    requires forall j :: 0 <= j < i ==> Spared(j, plan, prd)
    ensures i < 3
  {
    assert i > 0 ==> Spared(0, plan, prd);
    assert i > 1 ==> Spared(1, plan, prd);
    assert i > 2 ==> Spared(2, plan, prd);
  }

  /** Goals, notes, errors, plans, dispatches and prds are added to the timeline with what they say,
      word for word, under the next key. */
  lemma EventIsSaid(state: Chat, e: Event)
    requires |state.turns| <= 200 && Said(e).Some?
    ensures var next := ChatReduce(state, e);
            && Appended(state.turns, next.turns, Turn(Said(e).value, state.counter + 1))
            && next.counter == state.counter + 1
            && next.phase == state.phase && next.paneStates == state.paneStates
            && next.prd == if e.PrdEvent? then Said(e) else state.prd
  {
    hide CapTurns, Appended, InFlight, InFlightText;
    CapAppends(state.turns, Turn(Said(e).value, state.counter + 1));
    if e.PlanEvent? {
      RolesAreNamed(e.tasks);
    }
  }

  lemma RolesAreNamed(tasks: seq<PlanTask>)
    ensures seq(|tasks|, i requires 0 <= i < |tasks| => NormalTask(tasks[i]))
         == seq(|tasks|, i requires 0 <= i < |tasks| =>
                  if tasks[i].role == Some("") then tasks[i].(role := None) else tasks[i])
  {
  }

  /** The timeline `out` is `turns` with the last turn's content replaced, or with a turn added. */
  ghost predicate Shown(turns: seq<Turn>, out: seq<Turn>, content: Content, same: bool, key: nat) {
    if turns != [] && same
    then out == turns[..|turns| - 1] + [Turn(content, turns[|turns| - 1].key)]
    else Appended(turns, out, Turn(content, key))
  }

  /** Planning and collecting are shown while they last, in the words given or else in these; another
      phase is only noted. */
  lemma PhaseIsShown(state: Chat, phase: string, caption: string)
    requires |state.turns| <= 200
    ensures var next := ChatReduce(state, PhaseEvent(phase, caption));
            && next.phase == phase && next.paneStates == state.paneStates
            && (phase in ["planning", "collecting"] ==>
                  var words := if caption != "" then caption
                               else if phase == "planning" then "Planning…" else "Collecting reports…";
                  Shown(state.turns, next.turns, Phase(phase, words),
                        state.turns != [] && Last(state).content.Phase? && Last(state).content.phase == phase,
                        state.counter + 1))
            && (!InFlight(phase) ==> next == state.(phase := phase))
  {
    WordsOfPhases();
    hide InFlight, InFlightText, CapTurns, Appended;
    if InFlight(phase) {
      var words := if caption != "" then caption else InFlightText(phase);
      CapAppends(state.turns, Turn(Phase(phase, words), state.counter + 1));
    }
  }

  lemma WordsOfPhases()
    ensures InFlight("planning") && InFlightText("planning") == "Planning…"
    ensures InFlight("collecting") && InFlightText("collecting") == "Collecting reports…"
  {
  }

  /** A pane's state is shown with all the others', as they are now. */
  lemma PanesAreShown(state: Chat, id: string, text: string, cls: Option<string>)
    requires |state.turns| <= 200
    ensures var next := ChatReduce(state, PaneEvent(id, text, cls));
            && next.phase == state.phase
            && Shown(state.turns, next.turns, Status(next.paneStates),
                     state.turns != [] && Last(state).content.Status?, state.counter + 1)
  {
    var states := ChatReduce(state, PaneEvent(id, text, cls)).paneStates;
    CapAppends(state.turns, Turn(Status(states), state.counter + 1));
    hide CapTurns, Appended;
  }

  /** What a pane last said since the last reset. */
  function LatestOf(events: seq<Event>, id: string): Option<PaneState> {
    if events == [] then None
    else
      match events[|events| - 1]
      case Reset => None
      case PaneEvent(pane, text, cls) =>
        if pane == id then Some(PaneState(text, if cls == Some("") then None else cls))
        else LatestOf(events[..|events| - 1], id)
      case _ => LatestOf(events[..|events| - 1], id)
  }

  /** After any events the state of a pane is what it last said, and a status turn that is the last turn
      shows the state of every pane. */
  lemma {:induction false} StatusIsLatest(events: seq<Event>)
    ensures var s := Fold(INITIAL_CHAT, events);
            && (forall id :: if id in s.paneStates then LatestOf(events, id) == Some(s.paneStates[id])
                             else LatestOf(events, id) == None)
            && (s.turns != [] && Last(s).content.Status? ==> Last(s).content == Status(s.paneStates))
  {
    hide ChatReduce;
    if events != [] {
      var before := events[..|events| - 1];
      StatusIsLatest(before);
      TimelineStaysGood(before);
      hide Good, Fold;
      GoodIsCapped(Fold(INITIAL_CHAT, before), Memories(before));
      StatusStep(Fold(INITIAL_CHAT, before), events[|events| - 1]);
    }
  }

  lemma GoodIsCapped(state: Chat, m: Memory)
    requires Good(state, m)
    ensures |state.turns| <= 200
  {
  }

  lemma AppendedLast(turns: seq<Turn>, out: seq<Turn>, turn: Turn)
    requires |turns| <= 200 && Appended(turns, out, turn)
    ensures out != [] && out[|out| - 1] == turn
  {
  }

  lemma StatusStep(state: Chat, e: Event)
    requires |state.turns| <= 200
    requires state.turns != [] && Last(state).content.Status? ==> Last(state).content == Status(state.paneStates)
    ensures var s := ChatReduce(state, e);
            && (s.turns != [] && Last(s).content.Status? ==> Last(s).content == Status(s.paneStates))
            && s.paneStates == match e
                               case Reset => map[]
                               case PaneEvent(id, text, cls) =>
                                 state.paneStates[id := PaneState(text, if cls == Some("") then None else cls)]
                               case _ => state.paneStates
  {
    hide CapTurns, Appended, InFlight, InFlightText, Said;
    var s := ChatReduce(state, e);
    match e
    case PaneEvent(id, text, cls) =>
      PanesAreShown(state, id, text, cls);
      StatusAdded(state, s, state.counter + 1);
    case PhaseEvent(phase, caption) =>
      if InFlight(phase) {
        PhaseAdded(state, phase, if caption != "" then caption else InFlightText(phase));
      }
    case Reset =>
    case UnknownEvent =>
    case _ =>
      SaidIs(e);
      EventIsSaid(state, e);
      AppendedLast(state.turns, s.turns, Turn(Said(e).value, state.counter + 1));
  }

  lemma SaidIs(e: Event)
    requires !e.PaneEvent? && !e.PhaseEvent? && !e.Reset? && !e.UnknownEvent?
    ensures Said(e).Some? && !Said(e).value.Status?
  {
  }

  lemma StatusAdded(state: Chat, s: Chat, key: nat)
    requires |state.turns| <= 200
    requires Shown(state.turns, s.turns, Status(s.paneStates), state.turns != [] && Last(state).content.Status?, key)
    ensures s.turns != [] && Last(s).content == Status(s.paneStates)
  {
    hide Appended;
    if !(state.turns != [] && Last(state).content.Status?) {
      AppendedLast(state.turns, s.turns, Turn(Status(s.paneStates), key));
    }
  }

  lemma PhaseAdded(state: Chat, phase: string, words: string)
    requires |state.turns| <= 200
    ensures var turns := CapTurns(state.turns + [Turn(Phase(phase, words), state.counter + 1)]);
            turns != [] && turns[|turns| - 1].content.Phase?
  {
    hide CapTurns, Appended;
    var turn := Turn(Phase(phase, words), state.counter + 1);
    CapAppends(state.turns, turn);
    AppendedLast(state.turns, CapTurns(state.turns + [turn]), turn);
  }
}
