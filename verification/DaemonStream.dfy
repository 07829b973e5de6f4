/** The app-side substrate of an attached daemon pane (app/src-tauri/src/daemon_stream.rs):
    frames are applied to a bounded buffer that is reset on every re-attach, and cursors
    are served across those generations. */
module DaemonStream {
  import opened Utf8
  import opened Wrappers
  import opened Frames
  import opened PaneBuffers

  datatype FrameStep = Applied | PaneDied | Reconnect

  /** The state of a stream buffer as a value. `genBase` is the app-absolute offset of the
      current generation's byte 0. */
  datatype StreamView = StreamView(cap: nat, window: Window, genBase: nat,
                                   lastTotal: Option<nat>, attachedOnce: bool) {

    static function Init(cap: nat): StreamView {
      StreamView(cap, Window(0, []), 0, None, false)
    }

    /** One past the last app-absolute offset of the current generation. */
    function Limit(): nat { genBase + window.End() }

    function Apply(frame: StreamFrame): (StreamView, FrameStep) {
      match frame
      case Snapshot(baseline, data) => (
        match Decode(data)
        case None => (this, Reconnect)
        case Some(bytes) =>
          (StreamView(cap, Window(0, []).Push(cap, bytes),
                      if attachedOnce then genBase + window.End() + 1 else 0,
                      Some(baseline), true), Applied))
      case Delta(prevTotal, newTotal, data) =>
        if lastTotal.Some? && prevTotal != lastTotal.value then (this, Reconnect)
        else (
          match Decode(data)
          case None => (this, Reconnect)
          case Some(bytes) =>
            (this.(window := window.Push(cap, bytes), lastTotal := Some(newTotal)), Applied))
      case Error(code) => (this, if code == PaneDiedCode then PaneDied else Reconnect)
      case Keepalive => (this, Applied)
    }

    /** The bytes from cursor `since` and the offset claimed for the first of them. */
    function Delta(since: nat): (nat, seq<byte>) {
      if since < genBase then (genBase, window.bytes)
      else
        var (start, bytes) := window.Delta(since - genBase);
        (genBase + start, bytes)
    }

    /** The view after a sequence of frames, applied or not. */
    function ApplyAll(frames: seq<StreamFrame>): StreamView
      decreases |frames|
    {
      if frames == [] then this else Apply(frames[0]).0.ApplyAll(frames[1..])
    }
  }

  class StreamBuf {
    var buf: PaneBuffer
    var genBase: nat
    var lastTotal: Option<nat>
    var attachedOnce: bool
    const cap: nat

    ghost predicate Valid()
      reads this, buf
    {
      cap >= 4 && buf.cap == cap && buf.Valid()
    }

    function View(): StreamView
      reads this, buf
    {
      StreamView(cap, buf.View(), genBase, lastTotal, attachedOnce)
    }

    constructor (retainCap: nat)
      requires retainCap >= 4
      ensures Valid() && fresh(buf) && View() == StreamView.Init(retainCap)
    {
      buf := new PaneBuffer(retainCap);
      genBase, lastTotal, attachedOnce := 0, None, false;
      cap := retainCap;
    }

    method Apply(frame: StreamFrame) returns (step: FrameStep)
      requires Valid()
      modifies this, buf
      ensures Valid() && (buf == old(buf) || fresh(buf))
      ensures (View(), step) == old(View()).Apply(frame)
    {
      hide Decode, Window.Push;
      match frame
      case Snapshot(baseline, data) =>
        var decoded := B64Decode(data);
        if decoded == None {
          return Reconnect;
        }
        if attachedOnce {
          genBase := genBase + buf.End() + 1;
        } else {
          genBase := 0;
        }
        buf := new PaneBuffer(cap);
        buf.Push(decoded.value);
        lastTotal, attachedOnce := Some(baseline), true;
        return Applied;
      case Delta(prevTotal, newTotal, data) =>
        if lastTotal.Some? && prevTotal != lastTotal.value {
          return Reconnect;
        }
        var decoded := B64Decode(data);
        if decoded == None {
          return Reconnect;
        }
        buf.Push(decoded.value);
        lastTotal := Some(newTotal);
        return Applied;
      case Error(code) =>
        return if code == PaneDiedCode then PaneDied else Reconnect;
      case Keepalive =>
        return Applied;
    }

    method Delta(since: nat) returns (start: nat, bytes: seq<byte>)
      requires Valid()
      ensures (start, bytes) == View().Delta(since)
    {
      if since < genBase {
        return genBase, buf.buf;
      }
      start, bytes := buf.Delta(since - genBase);
      start := genBase + start;
    }
  }

  /** The frames that are applied, one after the other. */
  function Accepted(v: StreamView, frames: seq<StreamFrame>): seq<StreamFrame>
    decreases |frames|
  {
    if frames == [] then []
    else
      var (w, outcome) := v.Apply(frames[0]);
      (if outcome == Applied then [frames[0]] else []) + Accepted(w, frames[1..])
  }

  /** Payloads that decode, no error frame, and every delta goes on from the total the frame before
      it left. */
  predicate Chained(last: Option<nat>, frames: seq<StreamFrame>)
    decreases |frames|
  {
    frames != [] ==>
      match frames[0]
      case Snapshot(baseline, data) => Decode(data).Some? && Chained(Some(baseline), frames[1..])
      case Delta(prevTotal, newTotal, data) =>
        && (last.Some? ==> prevTotal == last.value) && Decode(data).Some?
        && Chained(Some(newTotal), frames[1..])
      case Error(_) => false
      case Keepalive => Chained(last, frames[1..])
  }

  /** Frames that are refused change nothing: the buffer is what the applied ones alone make it, and
      those are chained. All are applied exactly when all are chained. */
  lemma {:induction false} RefusedFramesChangeNothing(v: StreamView, frames: seq<StreamFrame>)
    ensures v.ApplyAll(frames) == v.ApplyAll(Accepted(v, frames))
    ensures Chained(v.lastTotal, Accepted(v, frames))
    ensures Accepted(v, frames) == frames <==> Chained(v.lastTotal, frames)
    ensures |Accepted(v, frames)| <= |frames|
    decreases |frames|
  {
    hide Decode, Window.Push;
    if frames != [] {
      var (w, outcome) := v.Apply(frames[0]);
      RefusedFramesChangeNothing(w, frames[1..]);
      var rest := Accepted(w, frames[1..]);
      assert ([frames[0]] + rest)[1..] == rest && [] + rest == rest;
      assert [frames[0]] + frames[1..] == frames;
    }
  }

  /** Whatever frames arrive after a first snapshot, the generation base either stays or
      moves strictly above every offset the buffer could have handed out before. */
  lemma {:induction false} ReattachOutrunsCursors(v: StreamView, frames: seq<StreamFrame>)
    requires v.attachedOnce
    ensures var w := v.ApplyAll(frames);
            && w.attachedOnce && v.Limit() <= w.Limit()
            && (w.genBase == v.genBase || w.genBase > v.Limit())
    decreases |frames|
  {
    if frames != [] {
      var u := v.Apply(frames[0]).0;
      assert v.Limit() <= u.Limit() && (u.genBase == v.genBase || u.genBase > v.Limit());
      ReattachOutrunsCursors(u, frames[1..]);
    }
  }
}
