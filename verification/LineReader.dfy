/** Newline framing over a socket (`read_lines`, app/src-tauri/src/daemon_stream.rs): reads
    arrive in arbitrary chunks, complete lines come out, the partial tail waits. */
module LineReader {
  import opened Utf8

  const MAX_LINE_BYTES := 64 * 1024 * 1024
  const NEWLINE: byte := 10

  /** One `read` on the socket. */
  datatype ReadResult = Data(bytes: seq<byte>) | TimedOut | Closed

  datatype ReadStep = Lines(lines: seq<seq<byte>>) | Idle | Eof

  /** Position of the first newline, or the length without one. */
  function NewlineAt(b: seq<byte>): (pos: nat)
    ensures pos <= |b|
    ensures forall i :: 0 <= i < pos ==> b[i] != NEWLINE
    ensures pos < |b| ==> b[pos] == NEWLINE
  {
    if b == [] || b[0] == NEWLINE then 0 else 1 + NewlineAt(b[1..])
  }

  predicate HasNewline(b: seq<byte>) {
    NewlineAt(b) < |b|
  }

  /** The complete lines of `b`, each with its newline. */
  function LinesOf(b: seq<byte>): seq<seq<byte>>
    decreases |b|
  {
    if HasNewline(b) then [b[..NewlineAt(b) + 1]] + LinesOf(b[NewlineAt(b) + 1..]) else []
  }

  /** What follows the last newline of `b`. */
  function TailOf(b: seq<byte>): seq<byte>
    decreases |b|
  {
    if HasNewline(b) then TailOf(b[NewlineAt(b) + 1..]) else b
  }

  class LineBuffer {
    var pending: seq<byte>

    constructor ()
      ensures pending == []
    {
      pending := [];
    }

    /** Take in one read: drain every complete line, keep the tail; a line that outgrows the
        cap breaks the connection. */
    method ReadLines(r: ReadResult) returns (step: ReadStep)
      modifies this
      ensures (pending, step) == AfterRead(old(pending), r)
    {
      match r
      case Closed => return Eof;
      case TimedOut => return Idle;
      case Data(bytes) =>
        if bytes == [] {
          return Eof;
        }
        pending := pending + bytes;
        ghost var all := pending;
        if |pending| > MAX_LINE_BYTES && !HasNewline(pending) {
          pending := [];
          return Eof;
        }
        var lines: seq<seq<byte>> := [];
        while HasNewline(pending)
          invariant lines + LinesOf(pending) == LinesOf(all) && TailOf(pending) == TailOf(all)
          decreases |pending|
        {
          var end := NewlineAt(pending) + 1;
          ghost var rest := LinesOf(pending[end..]);
          assert lines + ([pending[..end]] + rest) == lines + [pending[..end]] + rest;
          lines := lines + [pending[..end]];
          pending := pending[end..];
        }
        assert LinesOf(pending) == [] && lines + [] == lines;
        return if lines == [] then Idle else Lines(lines);
    }
  }

  /** The pending bytes and the outcome of one read. */
  function AfterRead(pending: seq<byte>, r: ReadResult): (seq<byte>, ReadStep) {
    match r
    case Closed => (pending, Eof)
    case TimedOut => (pending, Idle)
    case Data(bytes) =>
      if bytes == [] then (pending, Eof)
      else
        var all := pending + bytes;
        if |all| > MAX_LINE_BYTES && !HasNewline(all) then ([], Eof)
        else (TailOf(all), if LinesOf(all) == [] then Idle else Lines(LinesOf(all)))
  }

  // ---- framing ----------------------------------------------------------------------

  function Concat(parts: seq<seq<byte>>): seq<byte> {
    if parts == [] then [] else parts[0] + Concat(parts[1..])
  }

  /** One newline, at the end. */
  predicate IsLine(line: seq<byte>) {
    line != [] && NewlineAt(line) == |line| - 1
  }

  lemma NewlineUnique(b: seq<byte>, pos: nat)
    requires pos < |b| && b[pos] == NEWLINE && forall i :: 0 <= i < pos ==> b[i] != NEWLINE
    ensures NewlineAt(b) == pos
  {
  }

  /** The framing of bytes whose first newline is at `pos`. */
  lemma FrameStep(b: seq<byte>, pos: nat)
    requires pos < |b| && b[pos] == NEWLINE && forall i :: 0 <= i < pos ==> b[i] != NEWLINE
    ensures HasNewline(b) && NewlineAt(b) == pos
    ensures LinesOf(b) == [b[..pos + 1]] + LinesOf(b[pos + 1..]) && TailOf(b) == TailOf(b[pos + 1..])
  {
    NewlineUnique(b, pos);
  }

  lemma ConcatCons(line: seq<byte>, lines: seq<seq<byte>>, tail: seq<byte>)
    ensures Concat([line] + lines) + tail == line + (Concat(lines) + tail)
  {
    assert ([line] + lines)[1..] == lines;
  }

  lemma NoNewlineFrame(b: seq<byte>)
    requires !HasNewline(b)
    ensures LinesOf(b) == [] && TailOf(b) == b
  {
  }

  /** The first line of bytes that have one, and what follows it. */
  lemma FirstLine(b: seq<byte>) returns (line: seq<byte>, rest: seq<byte>)
    requires HasNewline(b)
    ensures b == line + rest && IsLine(line) && |rest| < |b|
    ensures LinesOf(b) == [line] + LinesOf(rest) && TailOf(b) == TailOf(rest)
  {
    var pos := NewlineAt(b);
    line, rest := b[..pos + 1], b[pos + 1..];
    FrameStep(b, pos);
    NewlineUnique(line, pos);
  }

  /** Nothing is lost: the lines and the tail are the bytes, every line ends at its only
      newline, and the tail has none. */
  lemma {:induction false} FramingConserves(b: seq<byte>)
    ensures Concat(LinesOf(b)) + TailOf(b) == b
    ensures forall line :: line in LinesOf(b) ==> IsLine(line)
    ensures !HasNewline(TailOf(b))
    decreases |b|
  {
    hide LinesOf, TailOf, HasNewline, IsLine;
    if HasNewline(b) {
      var line, rest := FirstLine(b);
      FramingConserves(rest);
      ConcatCons(line, LinesOf(rest), TailOf(rest));
    } else {
      NoNewlineFrame(b);
      assert [] + b == b;
    }
  }

  /** A line, put in front, is framed first. */
  lemma LineInFront(line: seq<byte>, rest: seq<byte>)
    requires IsLine(line)
    ensures LinesOf(line + rest) == [line] + LinesOf(rest) && TailOf(line + rest) == TailOf(rest)
  {
    var b, pos := line + rest, |line| - 1;
    assert forall i :: 0 <= i < |line| ==> b[i] == line[i];
    FrameStep(b, pos);
    assert b[..pos + 1] == line && b[pos + 1..] == rest;
  }

  /** Bytes that arrive later only extend the tail: framing in two parts is framing once. */
  lemma {:induction false} FramingComposes(a: seq<byte>, b: seq<byte>)
    ensures LinesOf(a + b) == LinesOf(a) + LinesOf(TailOf(a) + b)
    ensures TailOf(a + b) == TailOf(TailOf(a) + b)
    decreases |a|
  {
    hide LinesOf, TailOf, HasNewline, IsLine;
    if HasNewline(a) {
      var line, rest := FirstLine(a);
      assert a + b == line + (rest + b);
      LineInFront(line, rest + b);
      FramingComposes(rest, b);
      var later := LinesOf(TailOf(a) + b);
      assert [line] + (LinesOf(rest) + later) == [line] + LinesOf(rest) + later;
    } else {
      NoNewlineFrame(a);
      assert [] + LinesOf(a + b) == LinesOf(a + b);
    }
  }

  // ---- any chunking -----------------------------------------------------------------

  /** What a connection has yielded: all lines, the pending bytes, and whether it is still
      up. */
  datatype Reader = Reader(lines: seq<seq<byte>>, pending: seq<byte>, up: bool)

  function Feed(reader: Reader, r: ReadResult): Reader {
    if !reader.up then reader
    else
      var (pending, step) := AfterRead(reader.pending, r);
      match step
      case Lines(lines) => Reader(reader.lines + lines, pending, true)
      case Idle => reader.(pending := pending)
      case Eof => Reader(reader.lines, pending, false)
  }

  function FeedAll(results: seq<ReadResult>): Reader {
    if results == [] then Reader([], [], true)
    else Feed(FeedAll(results[..|results| - 1]), results[|results| - 1])
  }

  /** All bytes read. */
  function Received(results: seq<ReadResult>): seq<byte> {
    if results == [] then []
    else
      Received(results[..|results| - 1]) + (if results[|results| - 1].Data? then results[|results| - 1].bytes else [])
  }

  /** While the connection is up, what came out and what is pending depend on the bytes
      alone, not on how reads cut them up. */
  lemma {:induction false} ChunkingIsInvisible(results: seq<ReadResult>)
    requires FeedAll(results).up
    ensures FeedAll(results) == Reader(LinesOf(Received(results)), TailOf(Received(results)), true)
  {
    if results != [] {
      var before := results[..|results| - 1];
      var r := results[|results| - 1];
      ChunkingIsInvisible(before);
      FramingConserves(Received(before));
      if r.Data? {
        FramingComposes(Received(before), r.bytes);
        var reader := FeedAll(before);
        assert reader.lines + [] == reader.lines;
      } else {
        assert Received(before) + [] == Received(before);
      }
    }
  }

  /** Lines within the cap. */
  predicate Capped(b: seq<byte>) {
    && (forall line :: line in LinesOf(b) ==> |line| <= 67108865)
    && |TailOf(b)| <= 67108864
  }

  /** A connection that is not closed stays up whenever its lines are within the cap: no
      chunking of them breaks it. */
  lemma {:induction false} CappedLinesSurvive(results: seq<ReadResult>, later: seq<byte>)
    requires Capped(Received(results) + later)
    requires forall r :: r in results ==> r.TimedOut? || (r.Data? && r.bytes != [])
    ensures FeedAll(results).up
    decreases |results|
  {
    if results != [] {
      var before := results[..|results| - 1];
      var r := results[|results| - 1];
      var bytes := if r.Data? then r.bytes else [];
      assert Received(results) + later == Received(before) + (bytes + later);
      assert r in results && forall q :: q in before ==> q in results;
      CappedLinesSurvive(before, bytes + later);
      if r.Data? {
        ChunkingIsInvisible(before);
        var all := TailOf(Received(before)) + bytes;
        FramingComposes(Received(before), bytes);
        FramingComposes(Received(results), later);
        if !HasNewline(all) {
          TailWithinCap(all, later);
        }
      }
    }
  }

  /** Bytes without a newline are part of the line, or tail, they will end up in. */
  lemma TailWithinCap(all: seq<byte>, later: seq<byte>)
    requires !HasNewline(all)
    requires forall line :: line in LinesOf(all + later) ==> |line| <= 67108865
    requires |TailOf(all + later)| <= 67108864
    ensures |all| <= 67108864
  {
    var b := all + later;
    if HasNewline(b) {
      assert forall i :: 0 <= i < |all| ==> b[i] == all[i];
      assert NewlineAt(b) >= |all|;
      assert b[..NewlineAt(b) + 1] in LinesOf(b);
    }
  }
}
