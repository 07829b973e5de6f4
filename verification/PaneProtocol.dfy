/** The whole path of a pane's output as a state machine: the daemon's pane buffer and its
    bounded subscriber queue (core/supervisor/src/subscribers.rs), the connection the
    daemon drains it to (core/daemon/src/server.rs), the app's stream buffer, and the
    frontend's cursor and terminal. Any run interleaves the steps freely. */
module PaneProtocol {
  import opened Utf8
  import opened Wrappers
  import opened Frames
  import opened PaneBuffers
  import opened DaemonStream
  import opened PollCore

  /** A chunk fanned out to a subscriber, bracketed by the stream totals around it. */
  datatype OutputDelta = OutputDelta(prevTotal: nat, newTotal: nat, data: seq<byte>)

  /** The daemon's side of one subscription. A queue that overflows, or a pane that exits,
      takes the sender away: `registered` turns false and what is queued still drains. */
  datatype Subscription = Gone | Live(queue: seq<OutputDelta>, registered: bool)

  /** The attach connection: frames written and not yet applied, and whether this
      connection's snapshot has been applied. `sent` counts the stream bytes written,
      `queued` those handed to the subscription. */
  datatype Link = Down | Up(wire: seq<StreamFrame>, sub: Subscription, synced: bool,
                            sent: nat, queued: nat)

  /** One attach generation: the app-absolute offset `base` shows stream position `origin`. */
  datatype Generation = Generation(base: nat, origin: nat)

  datatype State = State(
    queueCap: nat,
    stream: seq<byte>,       // every byte the pane ever wrote
    pane: Window,            // the daemon's buffer
    exited: bool,
    link: Link,
    readerDead: bool,
    view: StreamView,        // the app's buffer
    gens: seq<Generation>,   // every generation so far
    cursor: nat,             // the frontend's cursor
    term: seq<byte>,         // what the terminal got since its last reset
    reply: Option<DeltaOut>) // a poll reply on its way to the frontend

  datatype Step =
    | Output(chunk: seq<byte>)  // the pane writes
    | Exit                      // the pane's reader ends
    | Attach                    // the reader connects and attaches
    | Drain                     // the daemon moves one queue entry to the connection
    | Beat                      // the daemon probes an idle connection
    | Deliver                   // the reader applies the next frame
    | Drop                      // the connection breaks, frames in flight are lost
    | Ask                       // a poll is served
    | Land                      // its reply reaches the frontend
    | Lose                      // its reply is lost
    | Reload                    // the frontend starts over with an empty terminal

  function Init(cap: nat, queueCap: nat): State {
    State(queueCap, [], Window(0, []), false, Down, false, StreamView.Init(cap), [], 0, [], None)
  }

  function Fanout(link: Link, queueCap: nat, d: OutputDelta): Link {
    if link.Up? && link.sub.Live? && link.sub.registered then
      if |link.sub.queue| < queueCap
      then link.(sub := Live(link.sub.queue + [d], true), queued := d.newTotal)
      else link.(sub := Live(link.sub.queue, false))
    else link
  }

  function ToFrame(d: OutputDelta): StreamFrame {
    StreamFrame.Delta(d.prevTotal, d.newTotal, Encode(d.data))
  }

  function DrainOne(link: Link, exited: bool): Link {
    if !link.Up? || !link.sub.Live? then link
    else if link.sub.queue != [] then
      link.(wire := link.wire + [ToFrame(link.sub.queue[0])],
            sub := link.sub.(queue := link.sub.queue[1..]),
            sent := link.sub.queue[0].newTotal)
    else if !link.sub.registered then
      link.(wire := link.wire + [Error(if exited then PaneDiedCode else OverflowCode)], sub := Gone)
    else link
  }

  /** The generation a frame starts, if it is a snapshot that gets applied. */
  function NewGeneration(v: StreamView, frame: StreamFrame): seq<Generation> {
    if frame.Snapshot? && Decode(frame.data).Some? && frame.baseline >= |Decode(frame.data).value|
    then [Generation(v.Apply(frame).0.genBase, frame.baseline - |Decode(frame.data).value|)]
    else []
  }

  function DeliverOne(s: State): State
    requires s.link.Up? && s.link.wire != []
  {
    var frame := s.link.wire[0];
    var (view, outcome) := s.view.Apply(frame);
    s.(view := view,
       gens := s.gens + NewGeneration(s.view, frame),
       link := if outcome == Applied
               then s.link.(wire := s.link.wire[1..], synced := s.link.synced || frame.Snapshot?)
               else Down,
       readerDead := s.readerDead || outcome == PaneDied)
  }

  /** One step; a step that is not enabled changes nothing. */
  function Do(s: State, step: Step): State {
    match step
    case Output(chunk) =>
      if s.exited then s
      else
        var d := OutputDelta(s.pane.End(), s.pane.End() + |chunk|, chunk);
        s.(stream := s.stream + chunk, pane := s.pane.Push(s.view.cap, chunk),
           link := Fanout(s.link, s.queueCap, d))
    case Exit =>
      s.(exited := true,
         link := if s.link.Up? && s.link.sub.Live? then s.link.(sub := s.link.sub.(registered := false)) else s.link)
    case Attach =>
      if s.link.Up? || s.readerDead then s
      else if s.exited then s.(readerDead := true)
      else s.(link := Up([Snapshot(s.pane.End(), Encode(s.pane.bytes))], Live([], true), false,
                         s.pane.End(), s.pane.End()))
    case Drain => s.(link := DrainOne(s.link, s.exited))
    case Beat =>
      if s.link.Up? && s.link.sub.Live? then s.(link := s.link.(wire := s.link.wire + [Keepalive])) else s
    case Deliver => if s.link.Up? && s.link.wire != [] then DeliverOne(s) else s
    case Drop => s.(link := Down)
    case Ask => if s.reply.None? then s.(reply := Some(Answer(s.view, s.cursor))) else s
    case Land =>
      if s.reply.None? then s
      else
        var d := ApplyDelta(s.cursor, Wire(s.reply.value));
        s.(term := Paint(s.term, d), cursor := d.consumed, reply := None)
    case Lose => s.(reply := None)
    case Reload => s.(cursor := 0, term := [], reply := None)
  }

  function Run(s: State, steps: seq<Step>): State
    decreases |steps|
  {
    if steps == [] then s else Run(Do(s, steps[0]), steps[1..])
  }

  /** The one poll that is answered wrongly: the cursor predates the current generation
      while that generation's window has already evicted bytes, yet the reply claims the
      window starts at the generation's first byte. */
  predicate Misplaced(s: State) {
    s.cursor < s.view.genBase && s.view.window.base > 0
  }

  predicate Honest(s: State, step: Step) {
    step == Ask && s.reply.None? ==> !Misplaced(s)
  }

  ghost predicate HonestRun(s: State, steps: seq<Step>)
    decreases |steps|
  {
    steps != [] ==> Honest(s, steps[0]) && HonestRun(Do(s, steps[0]), steps[1..])
  }

  /** The stream position an app-absolute offset denotes: offsets belong to the latest
      generation that starts at or before them. */
  function Position(gens: seq<Generation>, offset: nat): nat {
    if gens == [] then 0
    else
      var last := gens[|gens| - 1];
      if offset >= last.base then last.origin + (offset - last.base)
      else Position(gens[..|gens| - 1], offset)
  }

  /** `data` is the part of `stream` that ends at position `end`. */
  ghost predicate EndsAt(data: seq<byte>, stream: seq<byte>, end: nat) {
    |data| <= end <= |stream| && data == stream[end - |data|..end]
  }

  // ---- what every step keeps -------------------------------------------------------

  ghost predicate PaneOk(s: State) {
    && s.view.cap >= 4
    && s.pane.Shows(s.stream)
    && |s.pane.bytes| <= s.view.cap + s.view.cap / 2
  }

  /** The stream from position `from` to position `to`. */
  ghost predicate IsPart(data: seq<byte>, stream: seq<byte>, from: nat, to: nat) {
    from <= to <= |stream| && data == stream[from..to]
  }

  /** The payload of a frame decodes to the stream from `from` to `to`. */
  ghost predicate Carries(data: string, stream: seq<byte>, from: nat, to: nat) {
    Decode(data).Some? && IsPart(Decode(data).value, stream, from, to)
  }

  /** Contiguous deltas of `stream` from total `from` to total `to`. */
  ghost predicate QueueOk(queue: seq<OutputDelta>, from: nat, to: nat, stream: seq<byte>) {
    if queue == [] then from == to
    else
      var d := queue[0];
      && d.prevTotal == from
      && IsPart(d.data, stream, from, d.newTotal)
      && QueueOk(queue[1..], d.newTotal, to, stream)
  }

  /** Frames that carry a reader which applied the stream up to `from` on to `to`; an
      error frame may only come last. */
  ghost predicate WireOk(wire: seq<StreamFrame>, from: nat, to: nat, stream: seq<byte>) {
    if wire == [] then from == to
    else
      match wire[0]
      case Snapshot(_, _) => false
      case Delta(prev, next, data) =>
        prev == from && Carries(data, stream, from, next) && WireOk(wire[1..], next, to, stream)
      case Error(_) => |wire| == 1
      case Keepalive => WireOk(wire[1..], from, to, stream)
  }

  /** Where the bytes of a snapshot frame begin in the stream. */
  function SnapshotOrigin(frame: StreamFrame): int
    requires frame.Snapshot?
  {
    frame.baseline - (if Decode(frame.data).Some? then |Decode(frame.data).value| else 0)
  }

  ghost predicate SnapshotFirst(wire: seq<StreamFrame>, to: nat, stream: seq<byte>) {
    && wire != [] && wire[0].Snapshot? && 0 <= SnapshotOrigin(wire[0])
    && Carries(wire[0].data, stream, SnapshotOrigin(wire[0]), wire[0].baseline)
    && WireOk(wire[1..], wire[0].baseline, to, stream)
  }

  ghost predicate SubOk(sub: Subscription, sent: nat, queued: nat, stream: seq<byte>) {
    sub.Live? ==>
      && QueueOk(sub.queue, sent, queued, stream)
      && (sub.registered ==> queued == |stream|)
  }

  ghost predicate NoError(wire: seq<StreamFrame>) {
    forall i :: 0 <= i < |wire| ==> !wire[i].Error?
  }

  ghost predicate LinkOk(link: Link, lastTotal: Option<nat>, stream: seq<byte>) {
    link.Up? ==>
      && SubOk(link.sub, link.sent, link.queued, stream)
      && (link.sub.Live? ==> NoError(link.wire))
      && (if link.synced then lastTotal.Some? && WireOk(link.wire, lastTotal.value, link.sent, stream)
          else SnapshotFirst(link.wire, link.sent, stream))
  }

  ghost predicate GensOk(gens: seq<Generation>) {
    && (gens != [] ==> gens[0].base == 0)
    && forall i :: 0 < i < |gens| ==> gens[i - 1].base < gens[i].base
  }

  /** The app's window shows the stream from the current generation's origin. */
  ghost predicate ViewOk(view: StreamView, gens: seq<Generation>, stream: seq<byte>) {
    && GensOk(gens)
    && |view.window.bytes| <= view.cap + view.cap / 2
    && (gens == [] <==> !view.attachedOnce)
    && (gens == [] ==> view == StreamView.Init(view.cap))
    && (gens != [] ==>
          var g := gens[|gens| - 1];
          var end := g.origin + view.window.End();
          && g.base == view.genBase && end <= |stream|
          && view.window.Shows(stream[g.origin..end])
          && view.lastTotal == Some(end))
  }

  /** No cursor runs ahead of the app's buffer, and an untouched one means an empty
      terminal. */
  ghost predicate CursorsOk(s: State) {
    && s.cursor <= s.view.Limit()
    && (s.cursor == 0 ==> s.term == [])
    && (s.reply.Some? ==>
          var r := s.reply.value;
          && r.next <= s.view.Limit()
          && (r.next == 0 ==> r.data == [] && (s.cursor == 0 || r.truncated)))
  }

  /** Holds in every run whatever is polled when. */
  ghost predicate Core(s: State) {
    && PaneOk(s)
    && LinkOk(s.link, s.view.lastTotal, s.stream)
    && ViewOk(s.view, s.gens, s.stream)
    && CursorsOk(s)
  }

  /** The terminal is the stretch of the stream ending where the cursor points; a reply in
      flight carries the stretch ending where its `next` points, and continues the terminal
      unless it says it does not. */
  ghost predicate Faithful(s: State) {
    && (s.cursor > 0 ==> s.gens != [] && EndsAt(s.term, s.stream, Position(s.gens, s.cursor)))
    && (s.reply.Some? && s.reply.value.next > 0 ==>
          var r := s.reply.value;
          && s.gens != []
          && EndsAt(r.data, s.stream, Position(s.gens, r.next))
          && (!r.truncated && s.cursor > 0 ==>
                Position(s.gens, s.cursor) == Position(s.gens, r.next) - |r.data|))
  }

  // ---- facts about the pieces ------------------------------------------------------

  lemma {:induction false} QueueGrows(queue: seq<OutputDelta>, from: nat, to: nat, stream: seq<byte>, chunk: seq<byte>)
    requires QueueOk(queue, from, to, stream)
    ensures QueueOk(queue, from, to, stream + chunk)
  {
    if queue != [] {
      assert (stream + chunk)[from..queue[0].newTotal] == stream[from..queue[0].newTotal];
      QueueGrows(queue[1..], queue[0].newTotal, to, stream, chunk);
    }
  }

  lemma {:induction false} QueueSnoc(queue: seq<OutputDelta>, from: nat, to: nat, stream: seq<byte>, d: OutputDelta)
    requires QueueOk(queue, from, to, stream)
    requires d.prevTotal == to && IsPart(d.data, stream, to, d.newTotal)
    ensures QueueOk(queue + [d], from, d.newTotal, stream)
  {
    if queue == [] {
      assert [d][1..] == [];
    } else {
      QueueSnoc(queue[1..], queue[0].newTotal, to, stream, d);
      assert (queue + [d])[1..] == queue[1..] + [d];
    }
  }

  lemma {:induction false} WireGrows(wire: seq<StreamFrame>, from: nat, to: nat, stream: seq<byte>, chunk: seq<byte>)
    requires WireOk(wire, from, to, stream)
    ensures WireOk(wire, from, to, stream + chunk)
  {
    hide Decode;
    if wire != [] {
      match wire[0]
      case Delta(_, next, _) =>
        assert (stream + chunk)[from..next] == stream[from..next];
        WireGrows(wire[1..], next, to, stream, chunk);
      case Keepalive => WireGrows(wire[1..], from, to, stream, chunk);
      case _ =>
    }
  }

  /** A frame that carries the stream from `mid` to `to` extends the wire. */
  lemma {:induction false} WireSnoc(wire: seq<StreamFrame>, from: nat, mid: nat, to: nat,
                                    stream: seq<byte>, frame: StreamFrame)
    requires WireOk(wire, from, mid, stream) && NoError(wire)
    requires !frame.Error? ==> WireOk([frame], mid, to, stream)
    requires !frame.Snapshot?
    ensures WireOk(wire + [frame], from, to, stream)
  {
    hide Decode;
    if wire != [] {
      assert (wire + [frame])[1..] == wire[1..] + [frame];
      assert wire[0] == (wire + [frame])[0];
      var next := if wire[0].Delta? then wire[0].newTotal else from;
      WireSnoc(wire[1..], next, mid, to, stream, frame);
    }
  }

  lemma EndsAtGrows(data: seq<byte>, stream: seq<byte>, end: nat, chunk: seq<byte>)
    requires EndsAt(data, stream, end)
    ensures EndsAt(data, stream + chunk, end)
  {
  }

  lemma EndsAtExtends(a: seq<byte>, b: seq<byte>, stream: seq<byte>, end: nat)
    requires EndsAt(b, stream, end) && EndsAt(a, stream, end - |b|)
    ensures EndsAt(a + b, stream, end)
  {
  }

  /** Offsets handed out before a generation keep denoting what they did. */
  lemma PositionKept(gens: seq<Generation>, g: Generation, offset: nat)
    requires offset < g.base
    ensures Position(gens + [g], offset) == Position(gens, offset)
  {
    assert (gens + [g])[..|gens|] == gens;
  }

  // ---- each step keeps the invariant -----------------------------------------------

  lemma InitKeeps(cap: nat, queueCap: nat)
    requires cap >= 4
    ensures Core(Init(cap, queueCap)) && Faithful(Init(cap, queueCap))
  {
  }

  lemma LinkGrows(link: Link, lastTotal: Option<nat>, stream: seq<byte>, chunk: seq<byte>, queueCap: nat)
    requires LinkOk(link, lastTotal, stream)
    ensures LinkOk(Fanout(link, queueCap, OutputDelta(|stream|, |stream| + |chunk|, chunk)),
                   lastTotal, stream + chunk)
  {
    hide Decode, QueueOk, WireOk, NoError;
    if link.Up? {
      var grown := stream + chunk;
      if link.sub.Live? {
        var d := OutputDelta(|stream|, |stream| + |chunk|, chunk);
        assert IsPart(chunk, grown, |stream|, |grown|);
        QueueGrows(link.sub.queue, link.sent, link.queued, stream, chunk);
        if link.sub.registered {
          QueueSnoc(link.sub.queue, link.sent, link.queued, grown, d);
        }
      }
      if link.synced {
        WireGrows(link.wire, lastTotal.value, link.sent, stream, chunk);
      } else {
        var first := link.wire[0];
        assert grown[SnapshotOrigin(first)..first.baseline] == stream[SnapshotOrigin(first)..first.baseline];
        WireGrows(link.wire[1..], first.baseline, link.sent, stream, chunk);
      }
    }
  }

  lemma ViewGrows(view: StreamView, gens: seq<Generation>, stream: seq<byte>, chunk: seq<byte>)
    requires ViewOk(view, gens, stream)
    ensures ViewOk(view, gens, stream + chunk)
  {
    if gens != [] {
      var g := gens[|gens| - 1];
      var end := g.origin + view.window.End();
      assert (stream + chunk)[g.origin..end] == stream[g.origin..end];
    }
  }

  lemma FaithfulGrows(s: State, t: State, chunk: seq<byte>)
    requires Faithful(s) && t.stream == s.stream + chunk
    requires t.gens == s.gens && t.cursor == s.cursor && t.term == s.term && t.reply == s.reply
    ensures Faithful(t)
  {
    hide EndsAt, Position;
    if s.cursor > 0 {
      EndsAtGrows(s.term, s.stream, Position(s.gens, s.cursor), chunk);
    }
    if s.reply.Some? && s.reply.value.next > 0 {
      EndsAtGrows(s.reply.value.data, s.stream, Position(s.gens, s.reply.value.next), chunk);
    }
  }

  lemma OutputKeeps(s: State, chunk: seq<byte>)
    requires Core(s)
    ensures Core(Do(s, Output(chunk))) && (Faithful(s) ==> Faithful(Do(s, Output(chunk))))
  {
    hide LinkOk, Fanout, ViewOk, Position, Faithful, Window.Push;
    if !s.exited {
      PushShows(s.pane, s.view.cap, chunk, s.stream);
      LinkGrows(s.link, s.view.lastTotal, s.stream, chunk, s.queueCap);
      ViewGrows(s.view, s.gens, s.stream, chunk);
      if Faithful(s) {
        FaithfulGrows(s, Do(s, Output(chunk)), chunk);
      }
    }
  }

  lemma AttachKeeps(s: State)
    requires Core(s)
    ensures Core(Do(s, Attach)) && (Faithful(s) ==> Faithful(Do(s, Attach)))
  {
    hide Decode, Encode, Position, ViewOk;
    if !s.link.Up? && !s.readerDead && !s.exited {
      RoundTrip(s.pane.bytes);
      var first := Snapshot(s.pane.End(), Encode(s.pane.bytes));
      assert SnapshotOrigin(first) == s.pane.base;
      assert SnapshotFirst([first], s.pane.End(), s.stream) by {
        assert [first][1..] == [];
      }
    }
  }

  lemma DrainKeepsLink(link: Link, exited: bool, lastTotal: Option<nat>, stream: seq<byte>)
    requires LinkOk(link, lastTotal, stream)
    ensures LinkOk(DrainOne(link, exited), lastTotal, stream)
  {
    hide Decode, Encode;
    if link.Up? && link.sub.Live? && (link.sub.queue != [] || !link.sub.registered) {
      var to := DrainOne(link, exited).sent;
      var frame := if link.sub.queue != [] then ToFrame(link.sub.queue[0])
                   else Error(if exited then PaneDiedCode else OverflowCode);
      if link.sub.queue != [] {
        RoundTrip(link.sub.queue[0].data);
        assert WireOk([frame], link.sent, to, stream) by {
          assert [frame][1..] == [];
        }
      }
      SnocOnLink(link, lastTotal, stream, frame, to);
    }
  }

  /** Appending a frame to the connection, whether or not its snapshot has been applied. */
  lemma SnocOnLink(link: Link, lastTotal: Option<nat>, stream: seq<byte>, frame: StreamFrame, to: nat)
    requires LinkOk(link, lastTotal, stream) && link.Up? && link.sub.Live? && !frame.Snapshot?
    requires !frame.Error? ==> WireOk([frame], link.sent, to, stream)
    ensures if link.synced then WireOk(link.wire + [frame], lastTotal.value, to, stream)
            else SnapshotFirst(link.wire + [frame], to, stream)
  {
    hide Decode;
    if link.synced {
      WireSnoc(link.wire, lastTotal.value, link.sent, to, stream, frame);
    } else {
      assert (link.wire + [frame])[1..] == link.wire[1..] + [frame];
      WireSnoc(link.wire[1..], link.wire[0].baseline, link.sent, to, stream, frame);
    }
  }

  lemma BeatKeeps(s: State)
    requires Core(s)
    ensures Core(Do(s, Beat)) && (Faithful(s) ==> Faithful(Do(s, Beat)))
  {
    hide Decode, Position, ViewOk;
    if s.link.Up? && s.link.sub.Live? {
      assert WireOk([Keepalive], s.link.sent, s.link.sent, s.stream) by {
        assert [Keepalive][1..] == [];
      }
      SnocOnLink(s.link, s.view.lastTotal, s.stream, Keepalive, s.link.sent);
    }
  }

  lemma ExitKeeps(s: State)
    requires Core(s)
    ensures Core(Do(s, Exit)) && (Faithful(s) ==> Faithful(Do(s, Exit)))
  {
    hide Decode, Position, ViewOk;
  }

  lemma SnapshotApplies(view: StreamView, frame: StreamFrame)
    requires frame.Snapshot? && Decode(frame.data).Some? && 0 <= SnapshotOrigin(frame)
    ensures var base := if view.attachedOnce then view.Limit() + 1 else 0;
            && view.Apply(frame) == (StreamView(view.cap, Window(0, []).Push(view.cap, Decode(frame.data).value), base,
                                                Some(frame.baseline), true), Applied)
            && NewGeneration(view, frame) == [Generation(base, SnapshotOrigin(frame))]
  {
    hide Decode, Window.Push;
  }

  lemma SnapshotView(view: StreamView, gens: seq<Generation>, stream: seq<byte>, frame: StreamFrame)
    requires view.cap >= 4 && ViewOk(view, gens, stream) && frame.Snapshot? && 0 <= SnapshotOrigin(frame)
    requires Carries(frame.data, stream, SnapshotOrigin(frame), frame.baseline)
    ensures var v := view.Apply(frame).0;
            var g := Generation(v.genBase, SnapshotOrigin(frame));
            && view.Apply(frame).1 == Applied && v.cap == view.cap
            && NewGeneration(view, frame) == [g]
            && (gens != [] ==> view.Limit() < g.base)
            && (gens == [] ==> view.Limit() == 0)
            && view.Limit() <= v.Limit()
            && ViewOk(v, gens + [g], stream) && v.lastTotal == Some(frame.baseline)
  {
    hide Decode, Window.Push, StreamView.Apply, NewGeneration;
    var bytes := Decode(frame.data).value;
    SnapshotApplies(view, frame);
    assert Window(0, []).Shows([]) && [] + bytes == bytes;
    PushShows(Window(0, []), view.cap, bytes, []);
  }

  /** Applying a snapshot opens a generation beyond every offset in use. */
  lemma DeliverSnapshotKeeps(s: State)
    requires Core(s) && s.link.Up? && !s.link.synced
    ensures Core(DeliverOne(s)) && (Faithful(s) ==> Faithful(DeliverOne(s)))
    ensures DeliverOne(s).link.Up? && DeliverOne(s).link.synced
  {
    hide Decode, WireOk, Position, ViewOk, NewGeneration, QueueOk;
    var frame := s.link.wire[0];
    SnapshotView(s.view, s.gens, s.stream, frame);
    var g := Generation(s.view.Apply(frame).0.genBase, SnapshotOrigin(frame));
    var t := DeliverOne(s);
    assert t.view == s.view.Apply(frame).0 && t.gens == s.gens + [g];
    hide StreamView.Apply;
    if s.gens != [] {
      PositionKept(s.gens, g, s.cursor);
      if s.reply.Some? {
        PositionKept(s.gens, g, s.reply.value.next);
      }
    }
  }

  /** Applying a delta extends the window by exactly the stretch it carries. */
  lemma DeltaView(view: StreamView, gens: seq<Generation>, stream: seq<byte>, frame: StreamFrame)
    requires view.cap >= 4 && ViewOk(view, gens, stream) && gens != [] && frame.Delta?
    requires view.lastTotal == Some(frame.prevTotal) && Carries(frame.data, stream, frame.prevTotal, frame.newTotal)
    ensures var v := view.Apply(frame).0;
            && view.Apply(frame).1 == Applied && v.cap == view.cap && v.lastTotal == Some(frame.newTotal)
            && NewGeneration(view, frame) == [] && view.Limit() <= v.Limit() && ViewOk(v, gens, stream)
  {
    hide Decode, Window.Push;
    var bytes := Decode(frame.data).value;
    var g := gens[|gens| - 1];
    var end := g.origin + view.window.End();
    PushShows(view.window, view.cap, bytes, stream[g.origin..end]);
    assert stream[g.origin..end] + bytes == stream[g.origin..frame.newTotal];
  }

  lemma DeliverFrameKeeps(s: State)
    requires Core(s) && s.link.Up? && s.link.synced && s.link.wire != []
    ensures Core(DeliverOne(s)) && (Faithful(s) ==> Faithful(DeliverOne(s)))
  {
    hide Decode, Position, EndsAt, QueueOk, IsPart;
    var frame := s.link.wire[0];
    assert s.gens + [] == s.gens;
    if frame.Delta? {
      assert s.gens != [];
      DeltaView(s.view, s.gens, s.stream, frame);
      hide StreamView.Apply, ViewOk, NewGeneration;
      assert Core(DeliverOne(s));
    } else {
      assert NewGeneration(s.view, frame) == [];
      hide ViewOk, NewGeneration;
    }
  }

  lemma LandKeeps(s: State)
    requires Core(s)
    ensures Core(Do(s, Land)) && (Faithful(s) ==> Faithful(Do(s, Land)))
  {
    hide Position, LinkOk, ViewOk, EndsAt;
    if s.reply.Some? {
      var r := s.reply.value;
      assert [] + r.data == r.data && s.term + [] == s.term;
      if Faithful(s) && s.cursor > 0 && !r.truncated && r.next > 0 {
        EndsAtExtends(s.term, r.data, s.stream, Position(s.gens, r.next));
      }
    }
  }

  /** An offset of the current generation denotes a position by its distance from the
      generation's base. */
  lemma PositionNow(gens: seq<Generation>, offset: nat)
    requires gens != [] && offset >= gens[|gens| - 1].base
    ensures Position(gens, offset) == gens[|gens| - 1].origin + (offset - gens[|gens| - 1].base)
  {
  }

  /** Where the bytes a poll serves start in the stream; they run to the app's last byte. */
  lemma ServedBytes(view: StreamView, gens: seq<Generation>, stream: seq<byte>, since: nat)
    returns (from: nat)
    requires ViewOk(view, gens, stream) && gens != [] && since <= view.Limit()
    ensures var origin := gens[|gens| - 1].origin;
            && from == origin + (if since < view.genBase + view.window.base then view.window.base
                                 else since - view.genBase)
            && IsPart(view.Delta(since).1, stream, from, origin + view.window.End())
            && view.Delta(since).0 ==
                 if since < view.genBase then view.genBase
                 else if since < view.genBase + view.window.base then view.genBase + view.window.base
                 else since
  {
    var origin := gens[|gens| - 1].origin;
    var full := origin + view.window.End();
    from := origin + (if since < view.genBase + view.window.base then view.window.base
                      else since - view.genBase);
    assert view.window.bytes == stream[origin..full][view.window.base..];
  }

  /** What a poll serves: the stream from some position up to the app's last byte, less the
      code point held back. The reply's `next` denotes the position after the served bytes
      exactly when the poll is not misplaced. */
  lemma ServedStretch(s: State)
    requires Core(s) && s.gens != []
    ensures var r := Answer(s.view, s.cursor);
            var g := s.gens[|s.gens| - 1];
            var end := g.origin + s.view.window.End() - IncompleteSuffixLen(s.view.Delta(s.cursor).1);
            && EndsAt(r.data, s.stream, end)
            && (end == Position(s.gens, r.next) <==> !Misplaced(s))
            && (r.truncated <==> s.cursor < s.view.genBase + s.view.window.base)
            && (r.truncated ==> end - |r.data| == g.origin + s.view.window.base)
            && (!r.truncated ==> end - |r.data| == Position(s.gens, s.cursor))
  {
    hide LinkOk, IncompleteSuffixLen, Position, StreamView.Delta, EndsAt;
    var from := ServedBytes(s.view, s.gens, s.stream, s.cursor);
    var r := Answer(s.view, s.cursor);
    PositionNow(s.gens, r.next);
    if s.cursor >= s.view.genBase {
      PositionNow(s.gens, s.cursor);
    }
    var bytes := s.view.Delta(s.cursor).1;
    var g := s.gens[|s.gens| - 1];
    assert r.data == bytes[..|bytes| - IncompleteSuffixLen(bytes)];
    PrefixEnds(bytes, s.stream, from, g.origin + s.view.window.End(), IncompleteSuffixLen(bytes));
  }

  /** A stretch of the stream less its last `held` bytes ends that much earlier. */
  lemma PrefixEnds(bytes: seq<byte>, stream: seq<byte>, from: nat, full: nat, held: nat)
    requires IsPart(bytes, stream, from, full) && held <= |bytes|
    ensures EndsAt(bytes[..|bytes| - held], stream, full - held)
  {
    var k := |bytes| - held;
    forall i | 0 <= i < k
      ensures bytes[..k][i] == stream[from..from + k][i]
    {
      assert bytes[i] == stream[from + i];
    }
    assert bytes[..k] == stream[from..from + k];
  }

  /** A poll that is not misplaced is answered with the stretch its reply denotes. */
  lemma AskKeeps(s: State)
    requires Core(s)
    ensures Core(Do(s, Ask)) && (Faithful(s) && Honest(s, Ask) ==> Faithful(Do(s, Ask)))
  {
    hide LinkOk, ViewOk, Answer, Position, IncompleteSuffixLen, EndsAt, StreamView.Delta;
    if s.reply.None? {
      CursorNeverAhead(s.view, s.cursor);
      if s.gens == [] {
        NothingServedFirst(s);
      } else {
        ServedStretch(s);
        NextZero(s);
      }
    }
  }

  lemma NothingServed(view: StreamView)
    requires view == StreamView.Init(view.cap)
    ensures Answer(view, 0) == DeltaOut(0, 0, [], false)
  {
  }

  /** Before the first snapshot a poll gets nothing. */
  lemma NothingServedFirst(s: State)
    requires Core(s) && s.gens == []
    ensures s.cursor == 0 && Answer(s.view, s.cursor) == DeltaOut(0, 0, [], false)
  {
    hide LinkOk, Answer;
    NothingServed(s.view);
  }

  lemma NextZero(s: State)
    ensures var r := Answer(s.view, s.cursor);
            r.next == 0 ==> r.data == [] && (s.cursor == 0 || r.truncated)
  {
  }

  /** Every step keeps the core; every honest one keeps the terminal faithful too. */
  lemma StepKeeps(s: State, step: Step)
    requires Core(s)
    ensures Core(Do(s, step))
    ensures Faithful(s) && Honest(s, step) ==> Faithful(Do(s, step))
  {
    hide Core, Faithful, DeliverOne, Fanout, DrainOne, Answer, Position;
    match step
    case Output(chunk) => OutputKeeps(s, chunk);
    case Exit => ExitKeeps(s);
    case Attach => AttachKeeps(s);
    case Drain => DrainKeeps(s);
    case Beat => BeatKeeps(s);
    case Deliver => DeliverKeeps(s);
    case Drop => DropKeeps(s);
    case Ask => AskKeeps(s);
    case Land => LandKeeps(s);
    case Lose => DropKeeps(s);
    case Reload => ReloadKeeps(s);
  }

  lemma ReloadKeeps(s: State)
    requires Core(s)
    ensures Core(Do(s, Reload)) && Faithful(Do(s, Reload))
  {
    hide LinkOk, ViewOk, Position;
  }

  lemma DrainKeeps(s: State)
    requires Core(s)
    ensures Core(Do(s, Drain)) && (Faithful(s) ==> Faithful(Do(s, Drain)))
  {
    hide LinkOk, Position, ViewOk, DrainOne;
    DrainKeepsLink(s.link, s.exited, s.view.lastTotal, s.stream);
  }

  lemma DeliverKeeps(s: State)
    requires Core(s)
    ensures Core(Do(s, Deliver)) && (Faithful(s) ==> Faithful(Do(s, Deliver)))
  {
    if s.link.Up? && s.link.wire != [] {
      if s.link.synced {
        DeliverFrameKeeps(s);
      } else {
        DeliverSnapshotKeeps(s);
      }
    }
  }

  lemma DropKeeps(s: State)
    requires Core(s)
    ensures Core(Do(s, Drop)) && Core(Do(s, Lose))
    ensures Faithful(s) ==> Faithful(Do(s, Drop)) && Faithful(Do(s, Lose))
  {
    hide Position, ViewOk;
  }
}
