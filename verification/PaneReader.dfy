/** When the app's reader of a pane ends for good, and when it only reconnects
    (`attach_reader_loop`, app/src-tauri/src/daemon_stream.rs). */
module PaneReader {
  import opened Utf8
  import opened Wrappers
  import opened Frames
  import opened PaneBuffers
  import opened DaemonStream
  import opened PaneProtocol
  import opened PaneTheorems

  // ---- only an exited pane ends it -----------------------------------------------------

  /** Neither the reader nor a frame on its way says that the pane died unless it has exited. */
  ghost predicate DeathIsReal(s: State) {
    && (s.readerDead ==> s.exited)
    && (s.link.Up? ==> forall i :: 0 <= i < |s.link.wire| && s.link.wire[i] == Error(PaneDiedCode) ==> s.exited)
  }

  lemma StepKeepsDeathReal(s: State, step: Step)
    requires DeathIsReal(s)
    ensures DeathIsReal(Do(s, step))
  {
    hide Encode, Decode, Window.Push, StreamView.Delta;
  }

  lemma {:induction false} RunKeepsDeathReal(s: State, steps: seq<Step>)
    requires DeathIsReal(s)
    ensures DeathIsReal(Run(s, steps))
    decreases |steps|
  {
    hide Do, DeathIsReal;
    if steps != [] {
      StepKeepsDeathReal(s, steps[0]);
      RunKeepsDeathReal(Do(s, steps[0]), steps[1..]);
    }
  }

  /** In every run the reader ends only once the pane has exited: no overflow, gap, undecodable
      frame or broken connection ends it, and it can always attach again. */
  lemma ReaderEndsOnlyWithPane(cap: nat, queueCap: nat, steps: seq<Step>)
    ensures var s := Run(Init(cap, queueCap), steps);
            && (s.readerDead ==> s.exited)
            && (!s.exited && s.link.Down? ==> Do(s, Attach).link.Up?)
  {
    hide Run;
    RunKeepsDeathReal(Init(cap, queueCap), steps);
  }

  // ---- the end of a subscription -------------------------------------------------------

  /** A subscription that has lost its sender, because the pane exited or the queue overflowed:
      draining and delivering alone end the connection. The reader ends with it if and only if the
      pane has exited; if the sender was lost with everything queued, all of it is applied first. */
  lemma {:induction false} DrainsOut(s: State) returns (steps: seq<Step>)
    requires Core(s) && s.link.Up? && s.link.sub.Live? && !s.link.sub.registered
    ensures forall i :: 0 <= i < |steps| ==> steps[i] == Drain || steps[i] == Deliver
    ensures |steps| == |s.link.wire| + 2 * |s.link.sub.queue| + 2
    ensures var t := Run(s, steps);
            && t.link.Down? && t.stream == s.stream && t.exited == s.exited
            && t.readerDead == (s.readerDead || s.exited)
            && (s.link.queued == |s.stream| ==> AtTheEnd(t))
    decreases |s.link.wire| + 2 * |s.link.sub.queue|
  {
    hide Core, Do, AtTheEnd;
    if s.link.wire != [] {
      DeliverProgress(s);
      var rest := DrainsOut(Do(s, Deliver));
      steps := [Deliver] + rest;
    } else if s.link.sub.queue != [] {
      DrainProgress(s);
      var rest := DrainsOut(Do(s, Drain));
      steps := [Drain] + rest;
    } else {
      LastFrame(s);
      steps := [Drain, Deliver];
      assert steps[1..] == [Deliver] && Run(s, steps) == Run(Do(s, Drain), [Deliver]);
      OneStep(Do(s, Drain), Deliver);
    }
  }

  /** With nothing left to send, the closing frame ends the connection. */
  lemma LastFrame(s: State)
    requires Core(s) && s.link.Up? && s.link.sub.Live? && !s.link.sub.registered
    requires s.link.wire == [] && s.link.sub.queue == []
    ensures var t := Do(Do(s, Drain), Deliver);
            && t.link.Down? && t.stream == s.stream && t.exited == s.exited
            && t.readerDead == (s.readerDead || s.exited)
            && (s.link.queued == |s.stream| ==> AtTheEnd(t))
  {
    hide Position, PaneOk;
    assert s.gens + [] == s.gens;
  }

  /** After the pane exits with the connection and its subscription up, draining and delivering
      alone end the reader, in a number of steps known beforehand; if the subscription had not
      overflowed, everything the pane wrote is applied before. */
  lemma ExitEndsReader(cap: nat, queueCap: nat, steps: seq<Step>) returns (more: seq<Step>)
    requires cap >= 4
    requires var s := Run(Init(cap, queueCap), steps); s.link.Up? && s.link.sub.Live?
    ensures var s := Run(Init(cap, queueCap), steps);
            var t := Run(Do(s, Exit), more);
            && (forall i :: 0 <= i < |more| ==> more[i] == Drain || more[i] == Deliver)
            && |more| == |s.link.wire| + 2 * |s.link.sub.queue| + 2
            && t.readerDead && t.stream == s.stream
            && (s.link.sub.registered ==> AtTheEnd(t))
  {
    hide Run, AtTheEnd;
    InitKeeps(cap, queueCap);
    RunKeeps(Init(cap, queueCap), steps);
    var s := Run(Init(cap, queueCap), steps);
    ExitKeeps(s);
    Unregistered(s);
    hide Core, Do;
    more := DrainsOut(Do(s, Exit));
  }

  lemma Unregistered(s: State)
    requires Core(s) && s.link.Up? && s.link.sub.Live?
    ensures var t := Do(s, Exit);
            && t.exited && t.stream == s.stream && t.link.Up? && t.link.wire == s.link.wire
            && t.link.sub == Live(s.link.sub.queue, false) && t.link.queued == s.link.queued
            && (s.link.sub.registered ==> s.link.queued == |s.stream|)
  {
    hide QueueOk, WireOk, Position, ViewOk, PaneOk;
  }

  /** A subscription that overflowed while the pane lives ends in a connection that is down and a
      reader that attaches again. */
  lemma OverflowReconnects(cap: nat, queueCap: nat, steps: seq<Step>) returns (more: seq<Step>)
    requires cap >= 4
    requires var s := Run(Init(cap, queueCap), steps);
             !s.exited && s.link.Up? && s.link.sub.Live? && !s.link.sub.registered
    ensures var s := Run(Init(cap, queueCap), steps);
            var t := Run(s, more);
            && (forall i :: 0 <= i < |more| ==> more[i] == Drain || more[i] == Deliver)
            && t.link.Down? && !t.readerDead && Do(t, Attach).link.Up?
  {
    hide Run, AtTheEnd;
    InitKeeps(cap, queueCap);
    RunKeeps(Init(cap, queueCap), steps);
    ReaderEndsOnlyWithPane(cap, queueCap, steps);
    more := DrainsOut(Run(Init(cap, queueCap), steps));
    hide Core;
  }

  // ---- one error frame -----------------------------------------------------------------

  /** An error frame changes nothing in the buffer and ends the connection; it ends the reader if
      and only if it says that the pane died. */
  lemma ErrorFrames(s: State, code: ErrorCode)
    requires s.link.Up? && s.link.wire != [] && s.link.wire[0] == Error(code)
    ensures var t := Do(s, Deliver);
            && t.view == s.view && t.gens == s.gens && t.link.Down?
            && t.readerDead == (s.readerDead || code == PaneDiedCode)
  {
    assert s.gens + [] == s.gens;
  }

  // ---- the bounded queue ---------------------------------------------------------------

  ghost predicate QueueFits(s: State) {
    s.link.Up? && s.link.sub.Live? ==> |s.link.sub.queue| <= s.queueCap
  }

  lemma {:induction false} QueueStaysBounded(s: State, steps: seq<Step>)
    requires QueueFits(s)
    ensures QueueFits(Run(s, steps)) && Run(s, steps).queueCap == s.queueCap
    decreases |steps|
  {
    hide Do, QueueFits;
    if steps != [] {
      StepKeepsQueue(s, steps[0]);
      QueueStaysBounded(Do(s, steps[0]), steps[1..]);
    }
  }

  lemma StepKeepsQueue(s: State, step: Step)
    requires QueueFits(s)
    ensures QueueFits(Do(s, step)) && Do(s, step).queueCap == s.queueCap
  {
    hide Encode, Decode, Window.Push, StreamView.Delta, StreamView.Apply, NewGeneration;
  }

  /** In every run a subscription queues no more chunks than its capacity. While there is room, what the
      pane writes is queued and the subscription goes on; without room the chunk is not queued and the
      sender is lost, whatever the pane writes later. */
  lemma SlowSubscriberIsDropped(cap: nat, queueCap: nat, steps: seq<Step>, chunk: seq<byte>)
    ensures var s := Run(Init(cap, queueCap), steps);
            var t := Do(s, Output(chunk));
            s.link.Up? && s.link.sub.Live? && !s.exited ==>
              && |s.link.sub.queue| <= queueCap && t.link.Up? && t.link.wire == s.link.wire
              && (s.link.sub.registered && |s.link.sub.queue| < queueCap ==>
                    var d := OutputDelta(s.pane.End(), s.pane.End() + |chunk|, chunk);
                    t.link.sub == Live(s.link.sub.queue + [d], true))
              && (s.link.sub.registered && |s.link.sub.queue| == queueCap ==>
                    t.link.sub == Live(s.link.sub.queue, false))
              && (!s.link.sub.registered ==> t.link.sub == s.link.sub)
  {
    QueueStaysBounded(Init(cap, queueCap), steps);
    hide Run, Window.Push;
  }
}
