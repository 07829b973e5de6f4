/** What the pane protocol guarantees over whole runs. */
module PaneTheorems {
  import opened Utf8
  import opened Wrappers
  import opened Frames
  import opened PaneBuffers
  import opened DaemonStream
  import opened PollCore
  import opened PaneProtocol

  /** In every run without a misplaced poll, what the terminal received since its last
      reset is one contiguous stretch of the pane's stream, ending exactly where the
      frontend's cursor points: nothing duplicated, lost or reordered. */
  lemma TerminalShowsStream(cap: nat, queueCap: nat, steps: seq<Step>)
    requires cap >= 4 && HonestRun(Init(cap, queueCap), steps)
    ensures var s := Run(Init(cap, queueCap), steps);
            && (s.cursor == 0 ==> s.term == [])
            && (s.cursor > 0 ==> EndsAt(s.term, s.stream, Position(s.gens, s.cursor)))
  {
    InitKeeps(cap, queueCap);
    RunKeeps(Init(cap, queueCap), steps);
  }

  lemma {:induction false} RunKeeps(s: State, steps: seq<Step>)
    requires Core(s)
    ensures Core(Run(s, steps))
    ensures Faithful(s) && HonestRun(s, steps) ==> Faithful(Run(s, steps))
    decreases |steps|
  {
    hide Core, Faithful, Do, Honest;
    if steps != [] {
      StepKeeps(s, steps[0]);
      RunKeeps(Do(s, steps[0]), steps[1..]);
    }
  }

  /** Re-attach, apply the snapshot, poll: the terminal is reset to the daemon's whole
      retained window, up to the stream's last complete code point. */
  ghost predicate Healed(s: State, t: State) {
    var held := IncompleteSuffixLen(s.pane.bytes);
    && t.stream == s.stream
    && t.term == s.pane.bytes[..|s.pane.bytes| - held]
    && held <= |t.stream| && EndsAt(t.term, t.stream, |t.stream| - held)
    && Position(t.gens, t.cursor) == |t.stream| - held
    && Core(t) && Faithful(t)
  }

  /** Without any assumption on the polls, every run with a live pane and reader can be
      repaired by one re-attach and one poll. */
  lemma ReattachHeals(cap: nat, queueCap: nat, steps: seq<Step>)
    requires cap >= 4
    requires var s := Run(Init(cap, queueCap), steps); !s.exited && !s.readerDead
    ensures var s := Run(Init(cap, queueCap), steps);
            Healed(s, Run(Run(s, [Lose, Drop, Attach, Deliver]), [Ask, Land]))
  {
    hide Core, Faithful, Do, Run, Healed;
    InitKeeps(cap, queueCap);
    RunKeeps(Init(cap, queueCap), steps);
    HealsFrom(Run(Init(cap, queueCap), steps));
  }

  lemma HealsFrom(s: State)
    requires Core(s) && !s.exited && !s.readerDead
    ensures Healed(s, Run(Run(s, [Lose, Drop, Attach, Deliver]), [Ask, Land]))
  {
    hide Core, Faithful, Do, Run, Healed, Position;
    FreshAttach(s);
    RunKeeps(s, [Lose, Drop, Attach, Deliver]);
    var up := Run(s, [Lose, Drop, Attach, Deliver]);
    PollHeals(up);
    assert Healed(up, Run(up, [Ask, Land])) ==> Healed(s, Run(up, [Ask, Land])) by {
      HealedSame(up, s, Run(up, [Ask, Land]));
    }
  }

  lemma HealedSame(up: State, s: State, t: State)
    requires up.stream == s.stream && up.pane == s.pane
    ensures Healed(up, t) ==> Healed(s, t)
  {
    hide Core, Faithful, Position, IncompleteSuffixLen, EndsAt;
  }

  lemma OneStep(s: State, step: Step)
    ensures Run(s, [step]) == Do(s, step)
  {
    hide Do;
    assert [step][1..] == [] && Run(Do(s, step), []) == Do(s, step);
  }

  lemma FourSteps(s: State, a: Step, b: Step, c: Step, d: Step)
    ensures Run(s, [a, b, c, d]) == Do(Do(Do(Do(s, a), b), c), d)
  {
    hide Do;
    assert [a, b, c, d][1..] == [b, c, d] && [b, c, d][1..] == [c, d] && [c, d][1..] == [d];
    assert Run(s, [a, b, c, d]) == Run(Do(s, a), [b, c, d]);
    assert Run(Do(s, a), [b, c, d]) == Run(Do(Do(s, a), b), [c, d]);
    assert Run(Do(Do(s, a), b), [c, d]) == Run(Do(Do(Do(s, a), b), c), [d]);
    OneStep(Do(Do(Do(s, a), b), c), d);
  }

  /** Re-attaching to a live pane shows the daemon's whole window, nothing evicted, in a
      generation beyond the frontend's cursor. */
  lemma FreshAttach(s: State)
    requires Core(s) && !s.exited && !s.readerDead
    ensures var t := Run(s, [Lose, Drop, Attach, Deliver]);
            && t.gens != [] && t.view.window == Window(0, s.pane.bytes)
            && t.gens[|t.gens| - 1].origin == s.pane.base
            && t.stream == s.stream && t.pane == s.pane && t.reply == None && t.cursor == s.cursor
            && (t.cursor < t.view.genBase || (t.cursor == 0 && t.view.genBase == 0))
  {
    hide Encode, Decode, Position, WireOk, LinkOk, StreamView.Apply;
    FourSteps(s, Lose, Drop, Attach, Deliver);
    RoundTrip(s.pane.bytes);
    FreshWindow(s.view, s.pane);
    var first := Snapshot(s.pane.End(), Encode(s.pane.bytes));
    var up := Do(Do(Do(s, Lose), Drop), Attach);
    assert up.link.wire == [first] && up.view == s.view;
  }

  /** A snapshot of a buffer is taken over whole. */
  lemma FreshWindow(v: StreamView, pane: Window)
    requires |pane.bytes| <= v.cap + v.cap / 2
    ensures v.Apply(Snapshot(pane.End(), Encode(pane.bytes)))
         == (StreamView(v.cap, Window(0, pane.bytes), if v.attachedOnce then v.Limit() + 1 else 0,
                        Some(pane.End()), true), Applied)
  {
    hide Encode, Decode;
    RoundTrip(pane.bytes);
    assert [] + pane.bytes == pane.bytes;
  }

  lemma PollHeals(s: State)
    requires Core(s) && s.reply == None && s.gens != [] && s.view.window == Window(0, s.pane.bytes)
    requires s.gens[|s.gens| - 1].origin == s.pane.base
    requires s.cursor < s.view.genBase || (s.cursor == 0 && s.view.genBase == 0)
    ensures Healed(s, Run(s, [Ask, Land]))
  {
    hide Do, LinkOk, ViewOk, Position, IncompleteSuffixLen, Answer, EndsAt;
    assert [Ask, Land][1..] == [Land] && Run(s, [Ask, Land]) == Run(Do(s, Ask), [Land]);
    var asked := Do(s, Ask);
    OneStep(asked, Land);
    ServedAll(s);
    ServedStretch(s);
    AskKeeps(s);
    LandKeeps(asked);
    AskThenLand(s);
  }

  lemma AskThenLand(s: State)
    requires s.reply == None && (s.cursor == 0 ==> s.term == [])
    requires s.cursor == 0 || Answer(s.view, s.cursor).truncated
    ensures var t := Do(Do(s, Ask), Land);
            && t.stream == s.stream && t.gens == s.gens
            && t.term == Answer(s.view, s.cursor).data && t.cursor == Answer(s.view, s.cursor).next
    ensures Do(Do(s, Ask), Land).reply == None
  {
    hide Answer, DeliverOne, Fanout, DrainOne;
    var r := Answer(s.view, s.cursor);
    assert Do(s, Ask) == s.(reply := Some(r));
    assert [] + r.data == r.data;
  }

  lemma ServedAll(s: State)
    requires Core(s) && s.gens != [] && s.view.window.base == 0
    requires s.cursor < s.view.genBase || (s.cursor == 0 && s.view.genBase == 0)
    ensures s.cursor == 0 ==> s.term == []
    ensures !Misplaced(s)
    ensures var bytes := s.view.window.bytes;
            && s.view.Delta(s.cursor).1 == bytes
            && Answer(s.view, s.cursor).data == bytes[..|bytes| - IncompleteSuffixLen(bytes)]
    ensures s.cursor > 0 ==> Answer(s.view, s.cursor).truncated
  {
    hide LinkOk, PaneOk, IncompleteSuffixLen;
  }

  /** While the connection stays up and its subscription is not dropped, draining and
      delivering alone bring the app to the stream's end, and change nothing for the frontend. */
  lemma {:induction false} CatchesUp(s: State) returns (steps: seq<Step>)
    requires Core(s) && s.link.Up? && s.link.sub.Live? && s.link.sub.registered
    ensures forall i :: 0 <= i < |steps| ==> steps[i] == Drain || steps[i] == Deliver
    ensures |steps| == |s.link.wire| + 2 * |s.link.sub.queue|
    ensures var t := Run(s, steps);
            && Core(t) && t.stream == s.stream && AtTheEnd(t)
            && t.reply == s.reply && t.cursor == s.cursor && t.term == s.term
    decreases |s.link.wire| + 2 * |s.link.sub.queue|
  {
    hide Core, Do, LinkOk, DeliverOne;
    if s.link.wire != [] {
      DeliverProgress(s);
      var rest := CatchesUp(Do(s, Deliver));
      steps := [Deliver] + rest;
    } else if s.link.sub.queue != [] {
      DrainProgress(s);
      var rest := CatchesUp(Do(s, Drain));
      steps := [Drain] + rest;
    } else {
      Drained(s);
      steps := [];
    }
  }

  lemma DeliverProgress(s: State)
    requires Core(s) && s.link.Up? && s.link.sub.Live? && s.link.wire != []
    ensures var t := Do(s, Deliver);
            && Core(t) && t.stream == s.stream && t.link.Up? && t.link.sub == s.link.sub
            && t.reply == s.reply && t.cursor == s.cursor && t.term == s.term
            && t.link.wire == s.link.wire[1..]
            && t.link.queued == s.link.queued && t.exited == s.exited && t.readerDead == s.readerDead
  {
    hide Decode, Position, QueueOk;
    DeliverKeeps(s);
    assert !s.link.wire[0].Error?;
  }

  lemma DrainProgress(s: State)
    requires Core(s) && s.link.Up? && s.link.sub.Live? && s.link.sub.queue != []
    ensures var t := Do(s, Drain);
            && Core(t) && t.stream == s.stream && t.link.Up? && t.link.sub.Live?
            && t.reply == s.reply && t.cursor == s.cursor && t.term == s.term
            && t.link.sub == Live(s.link.sub.queue[1..], s.link.sub.registered)
            && |t.link.wire| == |s.link.wire| + 1
            && t.link.queued == s.link.queued && t.exited == s.exited && t.readerDead == s.readerDead
  {
    hide Core;
    DrainKeeps(s);
  }

  lemma Drained(s: State)
    requires Core(s) && s.link.Up? && s.link.sub.Live? && s.link.sub.registered
    requires s.link.wire == [] && s.link.sub.queue == []
    ensures AtTheEnd(s)
  {
  }

  /** The app has applied everything the pane wrote. */
  predicate AtTheEnd(s: State) {
    s.gens != [] && s.gens[|s.gens| - 1].origin + s.view.window.End() == |s.stream|
  }

  lemma Painted(s: State)
    requires s.reply == None
    ensures var t := Run(s, [Ask, Land]);
            && t == Do(Do(s, Ask), Land)
            && t.stream == s.stream && t.gens == s.gens && t.cursor == Answer(s.view, s.cursor).next
  {
    hide Answer, DeliverOne, Fanout, DrainOne;
    assert [Ask, Land][1..] == [Land] && Run(s, [Ask, Land]) == Run(Do(s, Ask), [Land]);
    OneStep(Do(s, Ask), Land);
  }

  lemma NothingEndsAnywhere(stream: seq<byte>, end: nat)
    requires end <= |stream|
    ensures EndsAt([], stream, end)
  {
  }

  /** A poll of an app that is at the stream's end shows every byte the pane wrote, up to the
      code point held back. */
  lemma PollShowsAll(s: State)
    requires Core(s) && Faithful(s) && s.reply == None && AtTheEnd(s) && !Misplaced(s)
    ensures var t := Run(s, [Ask, Land]);
            var held := IncompleteSuffixLen(s.view.Delta(s.cursor).1);
            && t.stream == s.stream && held <= |t.stream|
            && Position(t.gens, t.cursor) == |t.stream| - held
            && EndsAt(t.term, t.stream, |t.stream| - held)
            && Core(t) && Faithful(t)
  {
    hide Do, Run, LinkOk, ViewOk, PaneOk, Position, IncompleteSuffixLen, Answer, EndsAt, StreamView.Delta;
    Painted(s);
    ServedStretch(s);
    AskKeeps(s);
    LandKeeps(Do(s, Ask));
    var t := Run(s, [Ask, Land]);
    var held := IncompleteSuffixLen(s.view.Delta(s.cursor).1);
    EndsInside(Answer(s.view, s.cursor).data, s.stream, |s.stream| - held);
    NothingEndsAnywhere(t.stream, |t.stream| - held);
  }

  lemma {:induction false} QuietRunIsHonest(s: State, steps: seq<Step>)
    requires forall i :: 0 <= i < |steps| ==> steps[i] == Drain || steps[i] == Deliver
    ensures HonestRun(s, steps)
    decreases |steps|
  {
    hide Do;
    if steps != [] {
      QuietRunIsHonest(Do(s, steps[0]), steps[1..]);
    }
  }

  /** After any honest run, while the subscription lives: draining, delivering and one poll that is
      not misplaced show every byte the pane wrote, up to the code point held back. */
  lemma CaughtUpIsShown(cap: nat, queueCap: nat, steps: seq<Step>) returns (more: seq<Step>)
    requires cap >= 4 && HonestRun(Init(cap, queueCap), steps)
    requires var s := Run(Init(cap, queueCap), steps);
             s.link.Up? && s.link.sub.Live? && s.link.sub.registered && s.reply == None
    ensures forall i :: 0 <= i < |more| ==> more[i] == Drain || more[i] == Deliver
    ensures var s := Run(Init(cap, queueCap), steps);
            var t := Run(s, more);
            var u := Run(t, [Ask, Land]);
            var held := IncompleteSuffixLen(t.view.Delta(t.cursor).1);
            && u.stream == s.stream
            && (!Misplaced(t) ==> held <= |s.stream| && EndsAt(u.term, s.stream, |s.stream| - held))
  {
    hide Core, Faithful, Do, Run, AtTheEnd, Misplaced, EndsAt, IncompleteSuffixLen, StreamView.Delta;
    InitKeeps(cap, queueCap);
    RunKeeps(Init(cap, queueCap), steps);
    var s := Run(Init(cap, queueCap), steps);
    more := CatchesUp(s);
    QuietRunIsHonest(s, more);
    RunKeeps(s, more);
    var t := Run(s, more);
    Painted(t);
    if !Misplaced(t) {
      PollShowsAll(t);
    }
  }

  lemma EndsInside(data: seq<byte>, stream: seq<byte>, end: int)
    requires end >= 0 && EndsAt(data, stream, end)
    ensures end <= |stream|
  {
  }

  lemma {:induction false} RunAppend(s: State, first: seq<Step>, second: seq<Step>)
    ensures Run(s, first + second) == Run(Run(s, first), second)
    decreases |first|
  {
    hide Do;
    if first == [] {
      assert first + second == second;
    } else {
      assert (first + second)[1..] == first[1..] + second;
      RunAppend(Do(s, first[0]), first[1..], second);
    }
  }

  lemma TwoSteps(s: State, a: Step, b: Step)
    ensures Run(s, [a, b]) == Do(Do(s, a), b)
  {
    hide Do;
    assert [a, b][1..] == [b];
    OneStep(Do(s, a), b);
  }

  // A run in which a cursor of the first generation is polled after the second generation
  // has evicted: the states between its phases.
  const ALL: seq<byte> := [1, 2, 3, 4, 5, 6, 7]
  const REST: seq<byte> := [2, 3, 4, 5, 6, 7]
  const ATTACHED := State(1, [1], Window(0, [1]), false, Up([], Live([], true), true, 1, 1), false,
                          StreamView(4, Window(0, [1]), 0, Some(1), true),
                          [Generation(0, 0)], 0, [], None)
  const PAINTED := ATTACHED.(cursor := 1, term := [1])
  const REATTACHED := PAINTED.(view := PAINTED.view.(genBase := 2),
                               gens := [Generation(0, 0), Generation(2, 0)])
  const EVICTED := REATTACHED.(stream := ALL, pane := Window(3, [4, 5, 6, 7]),
                               link := Up([], Live([], true), true, 7, 7),
                               view := StreamView(4, Window(3, [4, 5, 6, 7]), 2, Some(7), true))
  const REPLAYED := EVICTED.(cursor := 6, term := [4, 5, 6, 7])
  const DUPLICATED := EVICTED.(cursor := 9, term := [4, 5, 6, 7, 5, 6, 7])

  lemma SnapshotApplied(v: StreamView, bytes: seq<byte>)
    requires |bytes| == 1 && v.cap == 4
    ensures v.Apply(Snapshot(1, Encode(bytes)))
         == (StreamView(4, Window(0, bytes), if v.attachedOnce then v.Limit() + 1 else 0, Some(1), true), Applied)
  {
    hide Encode, Decode;
    RoundTrip(bytes);
    assert [] + bytes == bytes;
    assert Window(0, []).Push(4, bytes) == Window(0, bytes);
  }

  lemma SnapshotOpens(v: StreamView, bytes: seq<byte>)
    requires |bytes| == 1 && v.cap == 4
    ensures NewGeneration(v, Snapshot(1, Encode(bytes)))
         == [Generation(if v.attachedOnce then v.Limit() + 1 else 0, 0)]
  {
    hide Encode, Decode, StreamView.Apply;
    RoundTrip(bytes);
    SnapshotApplied(v, bytes);
  }

  /** What applying the only frame on the wire does, field by field. */
  lemma DeliverFields(s: State, view: StreamView, started: seq<Generation>)
    requires s.link.Up? && s.link.wire != [] && s.link.wire[0].Snapshot? && s.link.wire[1..] == []
    requires s.view.Apply(s.link.wire[0]) == (view, Applied) && NewGeneration(s.view, s.link.wire[0]) == started
    ensures DeliverOne(s) == s.(view := view, gens := s.gens + started, link := s.link.(wire := [], synced := true))
  {
    hide StreamView.Apply, NewGeneration;
  }

  lemma DeliverIs(s: State)
    requires s.link.Up? && s.link.wire != []
    ensures Do(s, Deliver) == DeliverOne(s)
  {
    hide DeliverOne;
  }

  lemma SnapshotDelivered(s: State, bytes: seq<byte>)
    requires s.link.Up? && s.link.wire == [Snapshot(1, Encode(bytes))]
    requires |bytes| == 1 && s.view.cap == 4
    ensures var base := if s.view.attachedOnce then s.view.Limit() + 1 else 0;
            Do(s, Deliver) == s.(view := StreamView(4, Window(0, bytes), base, Some(1), true),
                                 gens := s.gens + [Generation(base, 0)],
                                 link := s.link.(wire := [], synced := true))
  {
    hide *;
    SnapshotApplied(s.view, bytes);
    SnapshotOpens(s.view, bytes);
    DeliverIs(s);
    var base := if s.view.attachedOnce then s.view.Limit() + 1 else 0;
    DeliverFields(s, StreamView(4, Window(0, bytes), base, Some(1), true), [Generation(base, 0)]);
  }

  lemma PhaseAttach()
    ensures Run(Init(4, 1), [Output([1]), Attach, Deliver, Lose]) == ATTACHED
  {
    hide Encode, Decode, Run, DeliverOne;
    FourSteps(Init(4, 1), Output([1]), Attach, Deliver, Lose);
    assert [] + [1] == [1];
    SnapshotDelivered(Do(Do(Init(4, 1), Output([1])), Attach), [1]);
    assert Init(4, 1).gens + [Generation(0, 0)] == [Generation(0, 0)];
  }

  lemma PhaseReattach()
    ensures Run(PAINTED, [Lose, Drop, Attach, Deliver]) == REATTACHED
  {
    hide Encode, Decode, Run, DeliverOne;
    FourSteps(PAINTED, Lose, Drop, Attach, Deliver);
    SnapshotDelivered(Do(Do(Do(PAINTED, Lose), Drop), Attach), [1]);
    assert PAINTED.gens + [Generation(2, 0)] == [Generation(0, 0), Generation(2, 0)];
  }

  lemma PhaseEvict()
    ensures Run(REATTACHED, [Lose, Output(REST), Drain, Deliver]) == EVICTED
  {
    hide Encode, Decode, Run, DeliverOne, DrainOne, Window.Push;
    FourSteps(REATTACHED, Lose, Output(REST), Drain, Deliver);
    var d := OutputDelta(1, 7, REST);
    EvictingPush();
    assert [1] + REST == ALL;
    assert Fanout(REATTACHED.link, 1, d) == Up([], Live([d], true), true, 1, 7) by {
      assert [] + [d] == [d];
    }
    DeltaMoves(EVICTED.(view := REATTACHED.view, link := Up([], Live([d], true), true, 1, 7)), d);
  }

  lemma EvictingPush()
    ensures Window(0, [1]).Push(4, REST) == Window(3, [4, 5, 6, 7])
  {
    assert [1] + REST == ALL && ALL[3..] == [4, 5, 6, 7];
    assert Window.CutPoint(ALL, 3, 0) == 3;
  }

  lemma DeltaMoves(s: State, d: OutputDelta)
    requires d == OutputDelta(1, 7, REST)
    requires s == EVICTED.(view := REATTACHED.view, link := Up([], Live([d], true), true, 1, 7))
    ensures Do(Do(s, Drain), Deliver) == EVICTED
  {
    hide Encode, Decode, Window.Push;
    RoundTrip(REST);
    EvictingPush();
    assert [] + [ToFrame(d)] == [ToFrame(d)] && [ToFrame(d)][1..] == [] && [d][1..] == [];
    assert s.gens + [] == s.gens;
  }

  /** A poll that holds nothing back. */
  lemma PollStep(s: State, start: nat, bytes: seq<byte>)
    requires s.reply == None && s.view.Delta(s.cursor) == (start, bytes)
    requires bytes != [] && bytes[|bytes| - 1] < 0x80
    ensures Run(s, [Ask, Land]) ==
            s.(cursor := start + |bytes|,
               term := if start != s.cursor && s.cursor > 0 then bytes else s.term + bytes)
  {
    hide Run, StreamView.Delta, DeliverOne, Fanout, DrainOne, IncompleteSuffixLen;
    TwoSteps(s, Ask, Land);
    NothingHeld(bytes);
    var r := DeltaOut(start, start + |bytes|, bytes, start != s.cursor);
    assert Answer(s.view, s.cursor) == r by {
      assert bytes[..|bytes|] == bytes;
    }
    hide Answer;
    assert Do(s, Ask) == s.(reply := Some(r));
    assert [] + bytes == bytes;
  }

  lemma NothingHeld(bytes: seq<byte>)
    requires bytes != [] && bytes[|bytes| - 1] < 0x80
    ensures IncompleteSuffixLen(bytes) == 0
  {
  }

  /** What `PollStep` needs at the three polls of the run. */
  lemma WindowsServed()
    ensures ATTACHED.view.Delta(0) == (0, [1])
    ensures EVICTED.view.Delta(1) == (2, [4, 5, 6, 7])
    ensures REPLAYED.view.Delta(6) == (6, [5, 6, 7])
  {
    assert [1][0..] == [1] && [4, 5, 6, 7][1..] == [5, 6, 7];
  }

  lemma Compose(s: State, a: seq<Step>, t: State, b: seq<Step>, u: State)
    requires Run(s, a) == t && Run(t, b) == u
    ensures Run(s, a + b) == u
  {
    hide Run;
    RunAppend(s, a, b);
  }

  lemma NoSuchStretch()
    ensures forall end :: !EndsAt([4, 5, 6, 7, 5, 6, 7], ALL, end)
  {
    assert ALL[0] == 1;
  }

  /** A run up to the state in which the second generation has evicted. */
  lemma EvictedReached() returns (steps: seq<Step>)
    ensures Run(Init(4, 1), steps) == EVICTED
  {
    hide Run, Do, StreamView.Delta, EndsAt, Init;
    var attach := [Output([1]), Attach, Deliver, Lose];
    var reattach := [Lose, Drop, Attach, Deliver];
    var evict := [Lose, Output(REST), Drain, Deliver];
    WindowsServed();
    PhaseAttach();
    PollStep(ATTACHED, 0, [1]);
    assert [] + [1] == [1];
    Compose(Init(4, 1), attach, ATTACHED, [Ask, Land], PAINTED);
    PhaseReattach();
    Compose(Init(4, 1), attach + [Ask, Land], PAINTED, reattach, REATTACHED);
    PhaseEvict();
    Compose(Init(4, 1), attach + [Ask, Land] + reattach, REATTACHED, evict, EVICTED);
    steps := attach + [Ask, Land] + reattach + evict;
  }

  /** Polling on from a replayed window: bytes the terminal already holds are appended. */
  lemma ReplayedDuplicates(s: State, steps: seq<Step>)
    requires Run(s, steps) == REPLAYED
    ensures Run(s, steps + [Ask, Land]) == DUPLICATED
  {
    hide Run, StreamView.Delta;
    WindowsServed();
    PollStep(REPLAYED, 6, [5, 6, 7]);
    assert [4, 5, 6, 7] + [5, 6, 7] == [4, 5, 6, 7, 5, 6, 7];
    Compose(s, steps, REPLAYED, [Ask, Land], DUPLICATED);
  }

  /** The run the promise needs its hypothesis for: the window is replayed as if it started
      at the generation's first byte, the cursor adopted lags by what was evicted, and the
      next poll appends bytes the terminal already holds. */
  lemma MisplacedPollDuplicates() returns (steps: seq<Step>)
    ensures var s := Run(Init(4, 1), steps);
            && s.stream == [1, 2, 3, 4, 5, 6, 7] && s.term == [4, 5, 6, 7, 5, 6, 7]
            && forall end :: !EndsAt(s.term, s.stream, end)
  {
    hide Run, Do, StreamView.Delta, EndsAt, Init;
    WindowsServed();
    steps := EvictedReached();
    PollStep(EVICTED, 2, [4, 5, 6, 7]);
    Compose(Init(4, 1), steps, EVICTED, [Ask, Land], REPLAYED);
    steps := steps + [Ask, Land];
    ReplayedDuplicates(Init(4, 1), steps);
    steps := steps + [Ask, Land];
    NoSuchStretch();
  }

  /** A frontend that reloads after the app re-attached is answered wrongly as soon as that
      generation has evicted, and only then. */
  lemma ReloadIsMisplacedIff(s: State)
    requires Core(s)
    ensures Misplaced(Do(s, Reload)) <==> |s.gens| > 1 && s.view.window.base > 0
  {
    hide LinkOk, Position;
    assert |s.gens| > 1 ==> s.gens[|s.gens| - 2].base < s.gens[|s.gens| - 1].base;
  }

  const RELOADED := EVICTED.(cursor := 0, term := [])

  /** Such a reload: the first poll paints the whole window onto the empty terminal, the cursor
      adopted lags by what was evicted, and the next poll paints some of it again. */
  lemma ReloadDuplicates() returns (steps: seq<Step>)
    ensures Run(Init(4, 1), steps) == EVICTED
    ensures var s := Run(Init(4, 1), steps + [Reload] + [Ask, Land] + [Ask, Land]);
            && s.stream == [1, 2, 3, 4, 5, 6, 7] && s.term == [4, 5, 6, 7, 5, 6, 7]
            && forall end :: !EndsAt(s.term, s.stream, end)
  {
    hide Run, Do, StreamView.Delta, EndsAt, Init;
    steps := EvictedReached();
    OneStep(EVICTED, Reload);
    ReloadIs(EVICTED);
    Compose(Init(4, 1), steps, EVICTED, [Reload], RELOADED);
    StaleDelta();
    PollStep(RELOADED, 2, [4, 5, 6, 7]);
    assert [] + [4, 5, 6, 7] == [4, 5, 6, 7];
    Compose(Init(4, 1), steps + [Reload], RELOADED, [Ask, Land], REPLAYED);
    ReplayedDuplicates(Init(4, 1), steps + [Reload] + [Ask, Land]);
    NoSuchStretch();
  }

  lemma ReloadIs(s: State)
    ensures Do(s, Reload) == s.(cursor := 0, term := [], reply := None)
  {
  }

  lemma StaleDelta()
    ensures RELOADED.view.Delta(0) == (2, [4, 5, 6, 7])
  {
  }
}
