/** The bounded pane output buffer (core/supervisor/src/lib.rs): a retained tail of the
    byte stream and the absolute offset of its first byte. */
module PaneBuffers {
  import opened Utf8

  /** What a buffer shows: the absolute offset `base` of the first retained byte. */
  datatype Window = Window(base: nat, bytes: seq<byte>) {
    function End(): nat { base + |bytes| }

    /** Compaction point: from `cut`, skip at most `3 - steps` continuation bytes. */
    static function CutPoint(buf: seq<byte>, cut: nat, steps: nat): (c: nat)
      requires cut <= |buf| && steps <= 3
      ensures cut <= c <= |buf| && c <= cut + 3 - steps
      decreases 3 - steps
    {
      if steps < 3 && cut < |buf| && IsContinuation(buf[cut])
      then CutPoint(buf, cut + 1, steps + 1)
      else cut
    }

    /** Append `chunk`; past one and a half times `cap`, drop the front down to `cap`. */
    function Push(cap: nat, chunk: seq<byte>): Window {
      var all := bytes + chunk;
      if |all| > cap + cap / 2 then
        var cut := CutPoint(all, |all| - cap, 0);
        Window(base + cut, all[cut..])
      else
        Window(base, all)
    }

    /** Bytes from the absolute offset `since`, or the whole window when `since` lies
        outside it; the first component is the offset of the first byte returned. */
    function Delta(since: nat): (nat, seq<byte>) {
      if since < base || since > End() then (base, bytes) else (since, bytes[since - base..])
    }

    /** This window is the tail of the stream `s`. */
    ghost predicate Shows(s: seq<byte>) {
      End() == |s| && bytes == s[base..]
    }
  }

  /** Pushing keeps a window the exact tail of everything pushed, whatever is compacted
      away; at least `cap - 3` bytes survive and the length stays bounded. */
  lemma PushShows(w: Window, cap: nat, chunk: seq<byte>, s: seq<byte>)
    requires cap >= 4 && w.Shows(s) && |w.bytes| <= cap + cap / 2
    ensures w.Push(cap, chunk).Shows(s + chunk)
    ensures |w.Push(cap, chunk).bytes| <= cap + cap / 2
    ensures w.base < w.Push(cap, chunk).base ==> |w.Push(cap, chunk).bytes| >= cap - 3
    ensures w.base <= w.Push(cap, chunk).base
  {
    assert w.bytes + chunk == (s + chunk)[w.base..];
  }

  lemma PushIs(w: Window, cap: nat, chunk: seq<byte>)
    ensures var all := w.bytes + chunk;
            w.Push(cap, chunk) ==
              if |all| > cap + cap / 2 then
                var cut := Window.CutPoint(all, |all| - cap, 0); Window(w.base + cut, all[cut..])
              else Window(w.base, all)
  {
    hide Window.CutPoint;
  }

  /** Everything the compaction point skips is a continuation byte, and it stops as soon as
      it meets another or has skipped three. */
  lemma {:induction false} CutPointSkips(buf: seq<byte>, cut: nat, steps: nat)
    requires cut <= |buf| && steps <= 3
    ensures var c := Window.CutPoint(buf, cut, steps);
            && (forall j :: cut <= j < c ==> IsContinuation(buf[j]))
            && (c < |buf| && c < cut + 3 - steps ==> !IsContinuation(buf[c]))
    decreases 3 - steps
  {
    if steps < 3 && cut < |buf| && IsContinuation(buf[cut]) {
      CutPointSkips(buf, cut + 1, steps + 1);
    }
  }

  /** In a well-formed stream the compaction point never falls inside a code point. */
  lemma CutPointIsBoundary(t: seq<byte>, base: nat, from: nat)
    requires WellFormed(t) && base + from + 4 <= |t|
    ensures Boundary(t, base + Window.CutPoint(t[base..], from, 0))
  {
    var all := t[base..];
    var cut := Window.CutPoint(all, from, 0);
    var at := base + cut;
    CutPointSkips(all, from, 0);
    var lead := LeadBefore(t, at + 1);
    assert forall j :: from <= j <= cut ==> all[j] == t[base + j];
    assert lead >= base + from;
    assert lead == at;
    BoundaryInside(t, at);
  }

  lemma PushStartsAtBoundary(w: Window, cap: nat, chunk: seq<byte>, s: seq<byte>)
    requires cap >= 4 && w.Shows(s)
    requires WellFormed(s + chunk) && Boundary(s, w.base)
    ensures Boundary(s + chunk, w.Push(cap, chunk).base)
  {
    hide Boundary, WellFormed, Window.CutPoint;
    var all := w.bytes + chunk;
    BoundaryGrows(s, chunk, w.base);
    assert all == (s + chunk)[w.base..];
    if |all| > cap + cap / 2 {
      CutPointIsBoundary(s + chunk, w.base, |all| - cap);
    }
  }

  /** The delta contract: an offset inside the window gets exactly the stream from there
      on; any other offset gets the whole window, which starts somewhere else. */
  lemma DeltaIsStreamTail(w: Window, s: seq<byte>, since: nat)
    requires w.Shows(s)
    ensures w.base <= w.Delta(since).0 <= |s| && w.Delta(since).1 == s[w.Delta(since).0..]
    ensures w.Delta(since).0 == since <==> w.base <= since <= |s|
    ensures w.Delta(since).0 != since ==> w.Delta(since) == (w.base, w.bytes)
  {
  }

  class PaneBuffer {
    var buf: seq<byte>
    var base: nat
    const cap: nat
    ghost var history: seq<byte>

    ghost predicate Valid()
      reads this
    {
      cap >= 4 && View().Shows(history) && |buf| <= cap + cap / 2
    }

    function View(): Window
      reads this
    {
      Window(base, buf)
    }

    constructor (capacity: nat)
      ensures Valid() && history == [] && View() == Window(0, [])
      ensures cap == if capacity < 4 then 4 else capacity
    {
      buf, base := [], 0;
      cap := if capacity < 4 then 4 else capacity;
      history := [];
    }

    method Push(chunk: seq<byte>)
      requires Valid()
      modifies this
      ensures Valid() && history == old(history) + chunk
      ensures View() == old(View()).Push(cap, chunk)
    {
      hide Window.Shows, Window.CutPoint, Window.Push;
      PushShows(View(), cap, chunk, history);
      PushIs(View(), cap, chunk);
      buf := buf + chunk;
      history := history + chunk;
      if |buf| > cap + cap / 2 {
        var cut := CutFrom(buf, |buf| - cap);
        buf := buf[cut..];
        base := base + cut;
      }
    }

    /** The forward walk of a compaction: at most three continuation bytes. */
    static method CutFrom(all: seq<byte>, from: nat) returns (cut: nat)
      requires from <= |all|
      ensures cut == Window.CutPoint(all, from, 0)
    {
      cut := from;
      var steps := 0;
      while steps < 3 && cut < |all| && IsContinuation(all[cut])
        invariant 0 <= steps <= 3 && cut <= |all|
        invariant Window.CutPoint(all, cut, steps) == Window.CutPoint(all, from, 0)
      {
        cut, steps := cut + 1, steps + 1;
      }
    }

    function End(): (end: nat)
      requires Valid()
      reads this
      ensures end == |history|
    {
      base + |buf|
    }

    method Delta(since: nat) returns (start: nat, bytes: seq<byte>)
      requires Valid()
      ensures (start, bytes) == View().Delta(since)
      ensures start <= |history| && bytes == history[start..]
    {
      DeltaIsStreamTail(View(), history, since);
      if since < base || since > End() {
        return base, buf;
      }
      return since, buf[since - base..];
    }
  }
}
