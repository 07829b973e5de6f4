/** One poll of a pane: the reply the backend assembles (`delta_payload`,
    app/src-tauri/src/lib.rs) and what the frontend does with it (app/src/poll-core.js). */
module PollCore {
  import opened Utf8
  import opened Wrappers
  import opened Frames
  import opened DaemonStream

  datatype DeltaOut = DeltaOut(base: nat, next: nat, data: seq<byte>, truncated: bool)

  function DeltaPayload(since: nat, start: nat, bytes: seq<byte>): DeltaOut {
    var cut := |bytes| - IncompleteSuffixLen(bytes);
    DeltaOut(start, start + cut, bytes[..cut], start != since)
  }

  /** The reply to a poll of `v` at cursor `since`. */
  function Answer(v: StreamView, since: nat): DeltaOut {
    var (start, bytes) := v.Delta(since);
    DeltaPayload(since, start, bytes)
  }

  /** A reply as the frontend sees it: a malformed one may lack any field. */
  datatype Reply = Reply(next: Option<nat>, data: seq<byte>, truncated: bool)

  function Wire(out: DeltaOut): Reply {
    Reply(Some(out.next), out.data, out.truncated)
  }

  datatype Decision = Decision(write: Option<seq<byte>>, reset: bool, consumed: nat)

  function ApplyDelta(consumed: nat, reply: Reply): Decision {
    var adopted := if reply.next.Some? then reply.next.value else consumed;
    if reply.truncated && consumed > 0 then
      Decision(if reply.data == [] then None else Some(reply.data), true, adopted)
    else if reply.data == [] then Decision(None, false, adopted)
    else Decision(Some(reply.data), false, adopted)
  }

  /** What the terminal holds since its last reset, once a decision is carried out. */
  function Paint(term: seq<byte>, d: Decision): seq<byte> {
    (if d.reset then [] else term) + (if d.write.Some? then d.write.value else [])
  }

  /** No reply ever names an offset past the buffer's end. */
  lemma CursorNeverAhead(v: StreamView, since: nat)
    ensures Answer(v, since).next <= v.Limit()
    ensures v.genBase <= Answer(v, since).base <= Answer(v, since).next
  {
  }

  /** A cursor handed out before a re-attach is answered as truncated after it, so a
      non-empty terminal resets. The cursor adopted then belongs to the new generation:
      while that generation lasts, the next reply resets only if the window has evicted
      past it. */
  lemma ResetOncePerReattach(v: StreamView, c0: nat, frames: seq<StreamFrame>, later: seq<StreamFrame>)
    requires v.attachedOnce && v.ApplyAll(frames).genBase != v.genBase
    requires v.ApplyAll(frames).ApplyAll(later).genBase == v.ApplyAll(frames).genBase
    requires Answer(v, c0).next > 0
    ensures var c := Answer(v, c0).next;
            var w := v.ApplyAll(frames);
            var d := ApplyDelta(c, Wire(Answer(w, c)));
            var u := w.ApplyAll(later);
            && d.reset && c < d.consumed
            && (ApplyDelta(d.consumed, Wire(Answer(u, d.consumed))).reset
                <==> d.consumed < u.genBase + u.window.base)
  {
    var c := Answer(v, c0).next;
    var w := v.ApplyAll(frames);
    var u := w.ApplyAll(later);
    CursorNeverAhead(v, c0);
    ReattachOutrunsCursors(v, frames);
    CursorNeverAhead(w, c);
    ReattachOutrunsCursors(w, later);
  }
}
