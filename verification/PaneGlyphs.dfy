/** Code points survive the pane protocol whole: however the daemon's buffer compacts, a
    connection drops or a chunk splits a code point, the terminal only ever holds complete
    ones. */
module PaneGlyphs {
  import opened Utf8
  import opened Wrappers
  import opened Frames
  import opened PaneBuffers
  import opened DaemonStream
  import opened PollCore
  import opened PaneProtocol

  /** The stretch of `stream` of the length of `data` that ends at `end` neither starts
      nor ends inside a code point. */
  ghost predicate WholeAt(data: seq<byte>, stream: seq<byte>, end: nat) {
    |data| <= end && Boundary(stream, end) && Boundary(stream, end - |data|)
  }

  ghost predicate Whole(s: State) {
    && Boundary(s.stream, s.pane.base)
    && (s.link.Up? && !s.link.synced && s.link.wire != [] && s.link.wire[0].Snapshot? ==>
          SnapshotOrigin(s.link.wire[0]) >= 0 && Boundary(s.stream, SnapshotOrigin(s.link.wire[0])))
    && ViewWhole(s.view, s.gens, s.stream)
    && (s.cursor > 0 ==> WholeAt(s.term, s.stream, Position(s.gens, s.cursor)))
    && (s.reply.Some? && s.reply.value.next > 0 ==>
          WholeAt(s.reply.value.data, s.stream, Position(s.gens, s.reply.value.next)))
  }

  ghost predicate ViewWhole(view: StreamView, gens: seq<Generation>, stream: seq<byte>) {
    gens != [] ==>
      && Boundary(stream, gens[|gens| - 1].origin)
      && Boundary(stream, gens[|gens| - 1].origin + view.window.base)
  }

  ghost predicate GlyphsOk(s: State) {
    WellFormed(s.stream) ==> Whole(s)
  }

  /** Part of a well-formed stream from a boundary on is well-formed. */
  lemma PartOfWellFormed(s: seq<byte>, a: nat, b: nat)
    requires WellFormed(s) && a <= b <= |s| && Boundary(s, a)
    ensures WellFormed(s[a..b])
  {
    var p := s[a..b];
    assert s == s[..b] + s[b..];
    WellFormedPrefix(s[..b], s[b..]);
    if a < b {
      BoundaryInside(s, a);
    }
    forall i | 0 <= i < |p| && !IsContinuation(p[i])
      ensures OpensAt(p, i)
    {
      assert OpensAt(s[..b], a + i);
      forall j | i < j < i + Need(p[i]) && j < |p|
        ensures IsContinuation(p[j])
      {
        assert p[j] == s[..b][a + j];
      }
    }
  }

  /** A part that starts at a boundary has the boundaries of the whole. */
  lemma PartBoundary(s: seq<byte>, a: nat, b: nat, i: nat)
    requires a + i <= b <= |s| && Boundary(s, a)
    ensures Boundary(s[a..b], i) <==> Boundary(s, a + i)
  {
    var p := s[a..b];
    assert forall j :: 0 <= j < i ==> p[j] == s[a + j];
    assert forall j :: a <= j < a + i ==> s[j] == p[j - a];
  }

  lemma WholeAtGrows(data: seq<byte>, stream: seq<byte>, end: nat, chunk: seq<byte>)
    requires WholeAt(data, stream, end)
    ensures WholeAt(data, stream + chunk, end)
  {
    hide Boundary;
    BoundaryGrows(stream, chunk, end);
    BoundaryGrows(stream, chunk, end - |data|);
  }

  lemma OutputDoes(s: State, chunk: seq<byte>)
    requires !s.exited
    ensures var t := Do(s, Output(chunk));
            && t.stream == s.stream + chunk && t.pane == s.pane.Push(s.view.cap, chunk)
            && (t.link.Up? <==> s.link.Up?)
            && (t.link.Up? ==> t.link.wire == s.link.wire && t.link.synced == s.link.synced)
            && t.view == s.view && t.gens == s.gens && t.cursor == s.cursor && t.term == s.term && t.reply == s.reply
  {
  }

  lemma OutputWhole(s: State, chunk: seq<byte>)
    requires Core(s) && GlyphsOk(s)
    ensures GlyphsOk(Do(s, Output(chunk)))
  {
    hide Boundary, WellFormed, Whole, Fanout, LinkOk, ViewOk, CursorsOk, Decode, Window.Push;
    if !s.exited && WellFormed(s.stream + chunk) {
      OutputDoes(s, chunk);
      hide Do;
      WellFormedPrefix(s.stream, chunk);
      WholePane(s);
      PushStartsAtBoundary(s.pane, s.view.cap, chunk, s.stream);
      WholeGrows(s, Do(s, Output(chunk)), chunk);
    }
  }

  lemma WholePane(s: State)
    requires Whole(s)
    ensures Boundary(s.stream, s.pane.base)
  {
  }

  lemma WholeGrows(s: State, t: State, chunk: seq<byte>)
    requires Whole(s) && t.stream == s.stream + chunk && Boundary(t.stream, t.pane.base)
    requires t.link.Up? <==> s.link.Up?
    requires t.link.Up? ==> t.link.wire == s.link.wire && t.link.synced == s.link.synced
    requires t.view == s.view && t.gens == s.gens && t.cursor == s.cursor && t.term == s.term && t.reply == s.reply
    ensures Whole(t)
  {
    hide Boundary, WholeAt, Position, Decode;
    if s.link.Up? && !s.link.synced && s.link.wire != [] && s.link.wire[0].Snapshot? {
      BoundaryGrows(s.stream, chunk, SnapshotOrigin(s.link.wire[0]));
    }
    if s.gens != [] {
      BoundaryGrows(s.stream, chunk, s.gens[|s.gens| - 1].origin);
      BoundaryGrows(s.stream, chunk, s.gens[|s.gens| - 1].origin + s.view.window.base);
    }
    if s.cursor > 0 {
      WholeAtGrows(s.term, s.stream, Position(s.gens, s.cursor), chunk);
    }
    if s.reply.Some? && s.reply.value.next > 0 {
      WholeAtGrows(s.reply.value.data, s.stream, Position(s.gens, s.reply.value.next), chunk);
    }
  }

  /** Steps that only move frames about. */
  lemma TransportWhole(s: State, step: Step)
    requires Core(s) && GlyphsOk(s)
    requires step == Exit || step == Attach || step == Drain || step == Beat || step == Drop || step == Lose
             || step == Reload
    ensures GlyphsOk(Do(s, step))
  {
    hide Boundary, WellFormed, Position, ViewOk, Decode, Encode, QueueOk, WireOk;
    if step == Attach {
      RoundTrip(s.pane.bytes);
    }
  }

  lemma DeliverWhole(s: State)
    requires Core(s) && GlyphsOk(s)
    ensures GlyphsOk(Do(s, Deliver))
  {
    hide Whole, Core, WellFormed, DeliverOne;
    if s.link.Up? && s.link.wire != [] {
      DeliverKeepsStream(s);
      if WellFormed(s.stream) {
        if s.link.synced {
          DeltaWhole(s);
        } else {
          SnapshotWhole(s);
        }
      }
    }
  }

  lemma DeliverKeepsStream(s: State)
    requires s.link.Up? && s.link.wire != []
    ensures DeliverOne(s).stream == s.stream
  {
  }

  lemma SnapshotViewWhole(view: StreamView, gens: seq<Generation>, stream: seq<byte>, frame: StreamFrame)
    requires view.cap >= 4 && frame.Snapshot? && 0 <= SnapshotOrigin(frame)
    requires Carries(frame.data, stream, SnapshotOrigin(frame), frame.baseline)
    requires WellFormed(stream) && Boundary(stream, SnapshotOrigin(frame))
    ensures var v := view.Apply(frame).0;
            ViewWhole(v, gens + [Generation(v.genBase, SnapshotOrigin(frame))], stream)
  {
    hide Boundary, WellFormed, Decode, Window.Push, StreamView.Apply;
    var bytes := Decode(frame.data).value;
    var from := SnapshotOrigin(frame);
    var window := Window(0, []).Push(view.cap, bytes);
    SnapshotApplies(view, frame);
    PartOfWellFormed(stream, from, frame.baseline);
    EmptyBoundary();
    assert [] + bytes == bytes;
    PushShows(Window(0, []), view.cap, bytes, []);
    PushStartsAtBoundary(Window(0, []), view.cap, bytes, []);
    PartBoundary(stream, from, frame.baseline, window.base);
  }

  lemma EmptyBoundary()
    ensures Boundary([], 0)
  {
  }

  lemma SnapshotWhole(s: State)
    requires Core(s) && Whole(s) && WellFormed(s.stream) && s.link.Up? && !s.link.synced
    ensures Whole(DeliverOne(s))
  {
    hide Boundary, WellFormed, Position, Decode, WireOk, QueueOk, ViewOk, ViewWhole, NewGeneration, WholeAt;
    var frame := s.link.wire[0];
    SnapshotView(s.view, s.gens, s.stream, frame);
    SnapshotViewWhole(s.view, s.gens, s.stream, frame);
    var g := Generation(s.view.Apply(frame).0.genBase, SnapshotOrigin(frame));
    var t := DeliverOne(s);
    assert t.view == s.view.Apply(frame).0 && t.gens == s.gens + [g];
    hide StreamView.Apply;
    if s.gens != [] {
      PositionKept(s.gens, g, s.cursor);
      if s.reply.Some? {
        PositionKept(s.gens, g, s.reply.value.next);
      }
    }
  }

  lemma DeltaViewWhole(view: StreamView, gens: seq<Generation>, stream: seq<byte>, bytes: seq<byte>)
    requires view.cap >= 4 && ViewOk(view, gens, stream) && gens != [] && ViewWhole(view, gens, stream)
    requires var end := gens[|gens| - 1].origin + view.window.End();
             IsPart(bytes, stream, end, end + |bytes|)
    requires WellFormed(stream)
    ensures ViewWhole(view.(window := view.window.Push(view.cap, bytes)), gens, stream)
  {
    hide Boundary, WellFormed, Window.Push;
    var origin := gens[|gens| - 1].origin;
    var end := origin + view.window.End();
    var shown := stream[origin..end];
    assert shown + bytes == stream[origin..end + |bytes|];
    PartOfWellFormed(stream, origin, end + |bytes|);
    PartBoundary(stream, origin, end, view.window.base);
    PushShows(view.window, view.cap, bytes, shown);
    PushStartsAtBoundary(view.window, view.cap, bytes, shown);
    PartBoundary(stream, origin, end + |bytes|, view.window.Push(view.cap, bytes).base);
  }

  lemma DeltaWhole(s: State)
    requires Core(s) && Whole(s) && WellFormed(s.stream) && s.link.Up? && s.link.synced && s.link.wire != []
    ensures Whole(DeliverOne(s))
  {
    hide Boundary, WellFormed, Position, Decode, QueueOk, ViewWhole, WholeAt, Window.Push;
    var frame := s.link.wire[0];
    assert NewGeneration(s.view, frame) == [] && s.gens + [] == s.gens;
    if frame.Delta? {
      DeltaViewWhole(s.view, s.gens, s.stream, Decode(frame.data).value);
      ViewWholeIgnoresTotal(s.view.(window := s.view.window.Push(s.view.cap, Decode(frame.data).value)),
                            s.gens, s.stream, Some(frame.newTotal));
    }
  }

  lemma ViewWholeIgnoresTotal(view: StreamView, gens: seq<Generation>, stream: seq<byte>, total: Option<nat>)
    requires ViewWhole(view, gens, stream)
    ensures ViewWhole(view.(lastTotal := total), gens, stream)
  {
  }

  /** Where the bytes a poll serves begin: no code point is cut there. */
  lemma ServedFrom(s: State) returns (from: nat)
    requires Core(s) && Whole(s) && s.gens != []
    ensures var full := s.gens[|s.gens| - 1].origin + s.view.window.End();
            && Boundary(s.stream, from) && IsPart(s.view.Delta(s.cursor).1, s.stream, from, full)
  {
    hide Boundary, LinkOk, WholeAt, StreamView.Delta, PaneOk, IsPart, Window.Shows, Position, Decode;
    from := ServedBytes(s.view, s.gens, s.stream, s.cursor);
    if s.cursor >= s.view.genBase + s.view.window.base && s.cursor > 0 {
      PositionNow(s.gens, s.cursor);
      assert WholeAt(s.term, s.stream, from);
      WholeAtEnds(s.term, s.stream, from);
    }
  }

  lemma WholeAtEnds(data: seq<byte>, stream: seq<byte>, end: nat)
    requires WholeAt(data, stream, end)
    ensures Boundary(stream, end)
  {
  }

  /** What a poll serves begins and ends between code points. */
  lemma ServedWhole(s: State)
    requires Core(s) && Whole(s) && WellFormed(s.stream) && s.gens != [] && !Misplaced(s)
    ensures var r := Answer(s.view, s.cursor);
            r.next > 0 ==> WholeAt(r.data, s.stream, Position(s.gens, r.next))
  {
    hide *;
    var full := s.gens[|s.gens| - 1].origin + s.view.window.End();
    var from := ServedFrom(s);
    ServedStretch(s);
    HeldBack(s, from, full);
    var r := Answer(s.view, s.cursor);
    assert full - IncompleteSuffixLen(s.view.Delta(s.cursor).1) == Position(s.gens, r.next);
    WholeAtIs(r.data, s.stream, Position(s.gens, r.next));
  }

  lemma WholeAtIs(data: seq<byte>, stream: seq<byte>, end: nat)
    requires |data| <= end && Boundary(stream, end) && Boundary(stream, end - |data|)
    ensures WholeAt(data, stream, end)
  {
  }

  lemma HeldBack(s: State, from: nat, full: nat)
    requires WellFormed(s.stream) && Boundary(s.stream, from)
    requires IsPart(s.view.Delta(s.cursor).1, s.stream, from, full)
    ensures var data := Answer(s.view, s.cursor).data;
            var end := full - IncompleteSuffixLen(s.view.Delta(s.cursor).1);
            && Boundary(s.stream, end) && end - |data| == from
  {
    hide Boundary, WellFormed, IncompleteSuffixLen, StreamView.Delta;
    HoldBackEndsAtBoundary(s.stream, from, full);
  }

  lemma AskWhole(s: State)
    requires Core(s) && Faithful(s) && GlyphsOk(s) && Honest(s, Ask)
    ensures GlyphsOk(Do(s, Ask))
  {
    hide Boundary, WellFormed, Position, LinkOk, Answer, ViewOk, ViewWhole, WholeAt, CursorsOk, EndsAt;
    if WellFormed(s.stream) && s.reply.None? {
      if s.gens == [] {
        NothingServedFirst(s);
      } else {
        ServedWhole(s);
      }
    }
  }

  lemma LandWhole(s: State)
    requires Core(s) && Faithful(s) && GlyphsOk(s)
    ensures GlyphsOk(Do(s, Land))
  {
    hide Boundary, WellFormed, Position, LinkOk, ViewOk;
  }

  lemma StepWhole(s: State, step: Step)
    requires Core(s) && Faithful(s) && GlyphsOk(s) && Honest(s, step)
    ensures GlyphsOk(Do(s, step))
  {
    hide Core, Faithful, GlyphsOk, Do;
    match step
    case Output(chunk) => OutputWhole(s, chunk);
    case Deliver => DeliverWhole(s);
    case Ask => AskWhole(s);
    case Land => LandWhole(s);
    case _ => TransportWhole(s, step);
  }

  lemma {:induction false} RunWhole(s: State, steps: seq<Step>)
    requires Core(s) && Faithful(s) && GlyphsOk(s) && HonestRun(s, steps)
    ensures GlyphsOk(Run(s, steps))
    decreases |steps|
  {
    hide Core, Faithful, GlyphsOk, Do, Honest;
    if steps != [] {
      StepKeeps(s, steps[0]);
      StepWhole(s, steps[0]);
      RunWhole(Do(s, steps[0]), steps[1..]);
    }
  }

  /** If what the pane writes is well-formed, then in every run without a misplaced poll
      the terminal's contents begin and end between code points. */
  lemma TerminalHoldsWholeCodePoints(cap: nat, queueCap: nat, steps: seq<Step>)
    requires cap >= 4 && HonestRun(Init(cap, queueCap), steps)
    requires WellFormed(Run(Init(cap, queueCap), steps).stream)
    ensures var s := Run(Init(cap, queueCap), steps);
            s.cursor > 0 ==> WholeAt(s.term, s.stream, Position(s.gens, s.cursor))
  {
    hide Core, Faithful, Do, Honest;
    InitKeeps(cap, queueCap);
    RunWhole(Init(cap, queueCap), steps);
  }
}
