/** Reading one HTTP response off a keep-alive socket (`read_response`,
    agent-teams-mcp/src/phase_b/http.rs). */
module HttpReader {
  import opened Utf8
  import opened Wrappers

  const HTTP_MAX_RESPONSE_BYTES := 256 * 1024
  const READ_BYTES := 1024
  const CRLF: seq<byte> := [13, 10]
  const HEADER_END: seq<byte> := [13, 10, 13, 10]

  datatype HttpResponse = HttpResponse(status: nat, body: seq<byte>)

  datatype HttpError = HeadersTooLong | Truncated | BadStatus | BodyTooLong

  // ---- searching --------------------------------------------------------------------

  predicate MatchAt(hay: seq<byte>, needle: seq<byte>, i: nat) {
    i + |needle| <= |hay| && hay[i..i + |needle|] == needle
  }

  function FindFrom(hay: seq<byte>, needle: seq<byte>, i: nat): (r: Option<nat>)
    ensures r.Some? ==> i <= r.value && MatchAt(hay, needle, r.value)
    ensures forall j :: i <= j && (r.Some? ==> j < r.value) ==> !MatchAt(hay, needle, j)
    decreases |hay| - i
  {
    if i + |needle| > |hay| then None
    else if MatchAt(hay, needle, i) then Some(i)
    else FindFrom(hay, needle, i + 1)
  }

  /** First index of `needle`; an empty one is never found. */
  function FindSubsequence(hay: seq<byte>, needle: seq<byte>): Option<nat> {
    if needle == [] || |hay| < |needle| then None else FindFrom(hay, needle, 0)
  }

  lemma FoundIs(hay: seq<byte>, needle: seq<byte>, i: nat)
    requires needle != [] && MatchAt(hay, needle, i) && forall j :: 0 <= j < i ==> !MatchAt(hay, needle, j)
    ensures FindSubsequence(hay, needle) == Some(i)
  {
  }

  /** A prefix that reaches past the first match finds it; a shorter one finds nothing. */
  lemma FindInPrefix(hay: seq<byte>, n: nat, needle: seq<byte>)
    requires n <= |hay| && needle != []
    ensures var r := FindSubsequence(hay, needle);
            FindSubsequence(hay[..n], needle) == if r.Some? && r.value + |needle| <= n then r else None
  {
    var r := FindSubsequence(hay, needle);
    var p := FindSubsequence(hay[..n], needle);
    forall j: nat
      ensures MatchAt(hay[..n], needle, j) <==> MatchAt(hay, needle, j) && j + |needle| <= n
    {
      assert j + |needle| <= n ==> hay[..n][j..j + |needle|] == hay[j..j + |needle|];
    }
    hide MatchAt;
    if r.Some? && r.value + |needle| <= n {
      FoundIs(hay[..n], needle, r.value);
    }
  }

  // ---- the header block -------------------------------------------------------------

  function SplitCrlf(b: seq<byte>): (lines: seq<seq<byte>>)
    ensures lines != []
    decreases |b|
  {
    match FindSubsequence(b, CRLF)
    case None => [b]
    case Some(p) => [b[..p]] + SplitCrlf(b[p + 2..])
  }

  predicate IsSpace(c: byte) {
    9 <= c <= 13 || c == 32
  }

  function SkipSpace(b: seq<byte>): seq<byte> {
    if b != [] && IsSpace(b[0]) then SkipSpace(b[1..]) else b
  }

  function Word(b: seq<byte>): (w: seq<byte>)
    ensures w <= b
  {
    if b == [] || IsSpace(b[0]) then [] else [b[0]] + Word(b[1..])
  }

  function TrimEnd(b: seq<byte>): seq<byte> {
    if b != [] && IsSpace(b[|b| - 1]) then TrimEnd(b[..|b| - 1]) else b
  }

  function Trim(b: seq<byte>): seq<byte> {
    TrimEnd(SkipSpace(b))
  }

  predicate IsDigit(c: byte) {
    48 <= c <= 57
  }

  function DigitsValue(b: seq<byte>): nat
    requires forall c :: c in b ==> IsDigit(c)
  {
    if b == [] then 0
    else
      assert IsDigit(b[|b| - 1]);
      DigitsValue(b[..|b| - 1]) * 10 + (b[|b| - 1] as int - 48)
  }

  /** An unsigned integer of at most `max`: digits, after an optional `+`. */
  function ParseUnsigned(b: seq<byte>, max: nat): Option<nat> {
    var digits := if b != [] && b[0] == 43 then b[1..] else b;
    if digits == [] then None
    else if !(forall c :: c in digits ==> IsDigit(c)) then None
    else if DigitsValue(digits) > max then None
    else Some(DigitsValue(digits))
  }

  /** The second word of the status line, as a 16-bit number. */
  function StatusOf(line: seq<byte>): Option<nat> {
    var rest := SkipSpace(SkipSpace(line)[|Word(SkipSpace(line))|..]);
    if Word(rest) == [] then None else ParseUnsigned(Word(rest), 0xFFFF)
  }

  function Lower(c: byte): byte {
    if 65 <= c <= 90 then c + 32 else c
  }

  const CONTENT_LENGTH: seq<byte> := [99, 111, 110, 116, 101, 110, 116, 45, 108, 101, 110, 103, 116, 104]

  predicate IsContentLength(name: seq<byte>) {
    |name| == |CONTENT_LENGTH| && forall i :: 0 <= i < |name| ==> Lower(name[i]) == CONTENT_LENGTH[i]
  }

  /** The last `Content-Length` among the header lines; 0 without one, or when its value is
      no 64-bit number. */
  function LengthOf(lines: seq<seq<byte>>): nat {
    if lines == [] then 0
    else
      var line := lines[|lines| - 1];
      var before := LengthOf(lines[..|lines| - 1]);
      match FindSubsequence(line, [58])
      case None => before
      case Some(colon) =>
        if IsContentLength(Trim(line[..colon])) then
          match ParseUnsigned(Trim(line[colon + 1..]), 0xFFFF_FFFF_FFFF_FFFF)
          case Some(n) => n
          case None => 0
        else before
  }

  /** The response a header block announces, given the bytes after it. */
  function Respond(header: seq<byte>, after: seq<byte>): Result<HttpResponse, HttpError> {
    var lines := SplitCrlf(header);
    match StatusOf(lines[0])
    case None => Err(BadStatus)
    case Some(status) =>
      var length := LengthOf(lines[1..]);
      if length > HTTP_MAX_RESPONSE_BYTES then Err(BodyTooLong)
      else if |after| < length then Err(Truncated)
      else Ok(HttpResponse(status, after[..length]))
  }

  /** The most a header block may take with its blank line: the loop stops once it holds more
      than the cap, so one byte over is always let through. */
  const HEADER_LIMIT := HTTP_MAX_RESPONSE_BYTES + 1

  /** The response in `data`, all of it at hand. */
  function Response(data: seq<byte>): Result<HttpResponse, HttpError> {
    match FindSubsequence(data, HEADER_END)
    case None => Err(if |data| > HTTP_MAX_RESPONSE_BYTES then HeadersTooLong else Truncated)
    case Some(pos) =>
      if pos + 4 > HEADER_LIMIT then Err(HeadersTooLong)
      else Respond(data[..pos], data[pos + 4..])
  }

  /** The header block ends so shortly past the limit that a single read may carry it over. */
  predicate Borderline(data: seq<byte>) {
    var r := FindSubsequence(data, HEADER_END);
    r.Some? && 262145 < r.value + 4 <= 263168
  }

  // ---- the socket and the loops -------------------------------------------------------

  /** How much of `left` bytes one read of up to `max` delivers when the peer would like to
      hand out `wish`: at least one byte, unless nothing is left. */
  function Taken(wish: nat, max: nat, left: nat): (n: nat)
    requires max > 0
    ensures n <= left && n <= max && (n == 0 <==> left == 0)
  {
    var most := if left < max then left else max;
    if wish < 1 && most > 0 then 1 else if wish > most then most else wish
  }

  /** A peer that has `data` still to deliver and hands out as much per read as it likes. */
  class Socket {
    var data: seq<byte>
    var count: nat
    const sizes: nat -> nat

    constructor (stream: seq<byte>, chunkSizes: nat -> nat)
      ensures data == stream && count == 0 && sizes == chunkSizes
    {
      data, count := stream, 0;
      sizes := chunkSizes;
    }

    method Read(max: nat) returns (chunk: seq<byte>)
      requires max > 0
      modifies this
      ensures old(data) == chunk + data && |chunk| == Taken(sizes(old(count)), max, |old(data)|)
      ensures count == old(count) + 1
    {
      var take := Taken(sizes(count), max, |data|);
      chunk, data, count := data[..take], data[take..], count + 1;
    }
  }

  /** Where the header loop ends when `have` bytes of `all` have arrived by the `k`-th read. */
  ghost function HeadersFrom(all: seq<byte>, have: nat, sizes: nat -> nat, k: nat): Result<nat, HttpError>
    requires have <= |all|
    decreases |all| - have
  {
    match FindSubsequence(all[..have], HEADER_END)
    case Some(pos) => Ok(pos)
    case None =>
      if have > HTTP_MAX_RESPONSE_BYTES then Err(HeadersTooLong)
      else if have == |all| then Err(Truncated)
      else HeadersFrom(all, have + Taken(sizes(k), READ_BYTES, |all| - have), sizes, k + 1)
  }

  lemma HeadersUnfold(all: seq<byte>, have: nat, sizes: nat -> nat, k: nat)
    requires have <= |all|
    ensures HeadersFrom(all, have, sizes, k) ==
      (match FindSubsequence(all[..have], HEADER_END)
       case Some(pos) => Ok(pos)
       case None =>
         if have > HTTP_MAX_RESPONSE_BYTES then Err(HeadersTooLong)
         else if have == |all| then Err(Truncated)
         else HeadersFrom(all, have + Taken(sizes(k), READ_BYTES, |all| - have), sizes, k + 1))
  {
    hide FindSubsequence, Taken;
  }

  /** What reading `all` off a socket gives when its reads are cut as `sizes` says. */
  ghost function ReadOutcome(all: seq<byte>, sizes: nat -> nat, k: nat): Result<HttpResponse, HttpError> {
    match HeadersFrom(all, 0, sizes, k)
    case Err(e) => Err(e)
    case Ok(pos) => if pos + 4 > |all| then Err(Truncated) else Respond(all[..pos], all[pos + 4..])
  }

  /** The header block does not end within the first `n` bytes. */
  ghost predicate NoEndWithin(all: seq<byte>, n: nat) {
    var r := FindSubsequence(all, HEADER_END);
    r.Some? ==> r.value + 4 > n
  }

  lemma NoneReadYet(all: seq<byte>)
    ensures NoEndWithin(all, 0) && READ_BYTES > 0
  {
  }

  /** A chunk moves from what is left to what has been read. */
  lemma Moved(all: seq<byte>, buf: seq<byte>, chunk: seq<byte>, left: seq<byte>)
    requires all == buf + (chunk + left)
    ensures all == buf + chunk + left && buf + chunk <= all && |buf + chunk| == |buf| + |chunk|
  {
  }

  /** What the buffer tells of the whole stream. */
  lemma EndWithin(all: seq<byte>, before: nat, buf: seq<byte>)
    requires buf <= all && NoEndWithin(all, before) && |buf| <= before + READ_BYTES
    ensures var p := FindSubsequence(buf, HEADER_END);
            if p.None? then NoEndWithin(all, |buf|)
            else FindSubsequence(all, HEADER_END) == p && p.value + 4 <= |buf| < p.value + 4 + READ_BYTES
    ensures buf == all[..|buf|]
  {
    assert buf == all[..|buf|];
    FindInPrefix(all, |buf|, HEADER_END);
    hide FindSubsequence;
  }

  /** Read up to the end of the header block, with whatever body bytes came along: less than one
      read of them. */
  method ReadHeaders(stream: Socket) returns (r: Result<nat, HttpError>, buf: seq<byte>)
    modifies stream
    ensures old(stream.data) == buf + stream.data
    ensures r == HeadersFrom(old(stream.data), 0, stream.sizes, old(stream.count))
    ensures r.Ok? ==> FindSubsequence(old(stream.data), HEADER_END) == Some(r.value)
    ensures r.Ok? ==> r.value + 4 <= |buf| < r.value + 4 + READ_BYTES
  {
    hide *;
    buf := [];
    ghost var all: seq<byte>, before: nat := stream.data, 0;
    NoneReadYet(all);
    while true
      invariant before <= |buf| <= before + READ_BYTES
      invariant NoEndWithin(all, before)
      invariant all == buf + stream.data
      invariant HeadersFrom(all, |buf|, stream.sizes, stream.count)
             == HeadersFrom(all, 0, stream.sizes, old(stream.count))
      decreases |stream.data|
    {
      EndWithin(all, before, buf);
      HeadersUnfold(all, |buf|, stream.sizes, stream.count);
      var found := FindSubsequence(buf, HEADER_END);
      if found.Some? {
        return Ok(found.value), buf;
      }
      if |buf| > HTTP_MAX_RESPONSE_BYTES {
        return Err(HeadersTooLong), buf;
      }
      before := |buf|;
      var chunk := stream.Read(READ_BYTES);
      if chunk == [] {
        return Err(Truncated), buf;
      }
      Moved(all, buf, chunk, stream.data);
      buf := buf + chunk;
    }
  }

  /** The loop over the header lines: the last length named is kept. */
  method ContentLength(lines: seq<seq<byte>>) returns (length: nat)
    ensures length == LengthOf(lines)
  {
    hide Trim, ParseUnsigned;
    length := 0;
    for i := 0 to |lines|
      invariant length == LengthOf(lines[..i])
    {
      assert lines[..i + 1][..i] == lines[..i];
      var colon := FindSubsequence(lines[i], [58]);
      if colon.Some? && IsContentLength(Trim(lines[i][..colon.value])) {
        var value := ParseUnsigned(Trim(lines[i][colon.value + 1..]), 0xFFFF_FFFF_FFFF_FFFF);
        length := if value.Some? then value.value else 0;
      }
    }
    assert lines[..|lines|] == lines;
  }

  /** `count` bytes are just what a response of `length` bytes takes, or what the read took that
      brought the end of its headers. */
  predicate Took(count: nat, length: nat, headers: nat) {
    count == length || length < count < headers + READ_BYTES
  }

  /** `read_response`: headers, then exactly as many body bytes as they announce. Nothing past them
      is waited for; only the read that brings the end of the headers may have brought more. */
  method ReadResponse(stream: Socket) returns (r: Result<HttpResponse, HttpError>)
    modifies stream
    ensures r == ReadOutcome(old(stream.data), stream.sizes, old(stream.count))
    ensures r.Ok? ==>
      var pos := FindSubsequence(old(stream.data), HEADER_END);
      && pos.Some? && |stream.data| <= |old(stream.data)|
      && Took(|old(stream.data)| - |stream.data|, pos.value + 4 + |r.value.body|, pos.value + 4)
  {
    hide FindSubsequence, SplitCrlf, StatusOf, LengthOf, HeadersFrom, Taken;
    ghost var all := stream.data;
    var headers, buf := ReadHeaders(stream);
    if headers.Err? {
      return Err(headers.error);
    }
    var pos := headers.value;
    assert buf[..pos] == all[..pos];
    var lines := SplitCrlf(buf[..pos]);
    var status := StatusOf(lines[0]);
    if status == None {
      return Err(BadStatus);
    }
    var length := ContentLength(lines[1..]);
    if length > HTTP_MAX_RESPONSE_BYTES {
      return Err(BodyTooLong);
    }
    var body := buf[pos + 4..];
    while |body| < length
      invariant body + stream.data == all[pos + 4..]
      invariant |body| <= length || |body| < READ_BYTES
      decreases |stream.data|
    {
      var want := if length - |body| < READ_BYTES then length - |body| else READ_BYTES;
      var chunk := stream.Read(want);
      if chunk == [] {
        return Err(Truncated);
      }
      body := body + chunk;
    }
    assert body[..length] == all[pos + 4..][..length];
    return Ok(HttpResponse(status.value, body[..length]));
  }

  // ---- how the reads are cut ------------------------------------------------------------

  lemma {:induction false} HeadersOutcome(all: seq<byte>, have: nat, sizes: nat -> nat, k: nat)
    requires have <= |all| && have <= HTTP_MAX_RESPONSE_BYTES + READ_BYTES
    requires !Borderline(all)
    ensures var r := FindSubsequence(all, HEADER_END);
            HeadersFrom(all, have, sizes, k) ==
              if r == None then Err(if |all| > HTTP_MAX_RESPONSE_BYTES then HeadersTooLong else Truncated)
              else if r.value + 4 > HEADER_LIMIT then Err(HeadersTooLong) else Ok(r.value)
    decreases |all| - have
  {
    FindInPrefix(all, have, HEADER_END);
    hide FindSubsequence;
    if FindSubsequence(all[..have], HEADER_END) == None && have <= HTTP_MAX_RESPONSE_BYTES && have < |all| {
      HeadersOutcome(all, have + Taken(sizes(k), READ_BYTES, |all| - have), sizes, k + 1);
    }
  }

  /** Away from the limit, how the reads are cut does not matter. */
  lemma ChunkingIsInvisible(all: seq<byte>, sizes: nat -> nat, k: nat)
    requires !Borderline(all)
    ensures ReadOutcome(all, sizes, k) == Response(all)
  {
    hide FindSubsequence, Respond, HeadersFrom, Borderline;
    HeadersOutcome(all, 0, sizes, k);
    FindInPrefix(all, |all|, HEADER_END);
    assert all[..|all|] == all;
  }

  lemma {:induction false} SmallReadsGiveUp(all: seq<byte>, have: nat, k: nat)
    requires Borderline(all) && have <= HEADER_LIMIT
    ensures have <= |all| && HeadersFrom(all, have, _ => 1, k) == Err(HeadersTooLong)
    decreases HEADER_LIMIT - have
  {
    FindInPrefix(all, |all|, HEADER_END);
    var r := FindSubsequence(all, HEADER_END);
    assert r.value + 4 <= |all|;
    FindInPrefix(all, have, HEADER_END);
    hide FindSubsequence;
    if have < HEADER_LIMIT {
      SmallReadsGiveUp(all, have + 1, k + 1);
    }
  }

  lemma {:induction false} FullReadsReach(all: seq<byte>, have: nat, k: nat)
    requires Borderline(all) && have <= |all|
    requires have % READ_BYTES == 0 || have == |all|
    ensures HeadersFrom(all, have, _ => READ_BYTES, k) == Ok(FindSubsequence(all, HEADER_END).value)
    decreases |all| - have
  {
    var r := FindSubsequence(all, HEADER_END);
    assert r.value + 4 <= |all|;
    FindInPrefix(all, have, HEADER_END);
    hide FindSubsequence;
    if r.value + 4 > have {
      FullReadsReach(all, have + Taken(READ_BYTES, READ_BYTES, |all| - have), k + 1);
    }
  }

  /** Within a read of the limit it does: byte by byte the reader gives up on the headers, in
      full reads it gets past them. Together with the above, the outcome is one for all ways
      of cutting the reads if and only if the header block does not end there. */
  lemma BorderlineDependsOnReads(all: seq<byte>)
    requires Borderline(all)
    ensures ReadOutcome(all, _ => 1, 0) == Err(HeadersTooLong)
    ensures ReadOutcome(all, _ => READ_BYTES, 0) != Err(HeadersTooLong)
  {
    SmallReadsGiveUp(all, 0, 0);
    FullReadsReach(all, 0, 0);
    hide FindSubsequence, HeadersFrom, SplitCrlf, StatusOf, LengthOf;
  }

  /** As many plain bytes as the cap less two, and a blank line. */
  const LONG_HEADERS := seq(262142, _ => 97) + HEADER_END

  /** There are such responses. */
  lemma LongHeadersDependOnReads()
    ensures Borderline(LONG_HEADERS)
    ensures ReadOutcome(LONG_HEADERS, _ => 1, 0) != ReadOutcome(LONG_HEADERS, _ => READ_BYTES, 0)
  {
    var n := 262142;
    forall j | 0 <= j < n
      ensures !MatchAt(LONG_HEADERS, HEADER_END, j)
    {
      assert j + 4 <= |LONG_HEADERS| && LONG_HEADERS[j..j + 4][0] == LONG_HEADERS[j];
    }
    assert LONG_HEADERS[n..n + 4] == HEADER_END;
    FoundIs(LONG_HEADERS, HEADER_END, n);
    BorderlineDependsOnReads(LONG_HEADERS);
    hide FindSubsequence, ReadOutcome;
  }

  // ---- responses as they are sent -----------------------------------------------------

  /** Header lines as a peer writes them: not empty, without a carriage return. */
  predicate PlainLines(lines: seq<seq<byte>>) {
    forall i :: 0 <= i < |lines| ==> lines[i] != [] && 13 !in lines[i]
  }

  function Join(lines: seq<seq<byte>>): seq<byte>
    requires lines != []
  {
    if |lines| == 1 then lines[0] else lines[0] + CRLF + Join(lines[1..])
  }

  /** `\r\n` cannot start inside a line without a carriage return. */
  lemma PlainThenCrlf(line: seq<byte>, rest: seq<byte>)
    requires 13 !in line
    ensures FindSubsequence(line + CRLF + rest, CRLF) == Some(|line|)
  {
    var b := line + CRLF + rest;
    forall j | 0 <= j < |line|
      ensures !MatchAt(b, CRLF, j)
    {
      assert b[j] == line[j];
      assert j + 2 <= |b| ==> b[j..j + 2][0] == b[j];
    }
    assert b[|line|..|line| + 2] == CRLF;
    FoundIs(b, CRLF, |line|);
  }

  lemma PlainHasNoCrlf(line: seq<byte>)
    requires 13 !in line
    ensures FindSubsequence(line, CRLF) == None
  {
    forall j | 0 <= j && j + 2 <= |line|
      ensures !MatchAt(line, CRLF, j)
    {
      assert line[j..j + 2][0] == line[j];
    }
  }

  lemma SplitStep(line: seq<byte>, rest: seq<byte>)
    requires 13 !in line
    ensures SplitCrlf(line + CRLF + rest) == [line] + SplitCrlf(rest)
  {
    hide FindSubsequence;
    var b := line + CRLF + rest;
    PlainThenCrlf(line, rest);
    assert b[..|line|] == line && b[|line| + 2..] == rest;
  }

  /** Splitting a joined header block gives its lines back. */
  lemma {:induction false} SplitOfJoin(lines: seq<seq<byte>>)
    requires lines != [] && PlainLines(lines)
    ensures SplitCrlf(Join(lines)) == lines
  {
    hide FindSubsequence;
    if |lines| == 1 {
      PlainHasNoCrlf(lines[0]);
    } else {
      hide SplitCrlf;
      SplitStep(lines[0], Join(lines[1..]));
      SplitOfJoin(lines[1..]);
    }
  }

  lemma HeaderEndBytes(b: seq<byte>, j: nat)
    requires MatchAt(b, HEADER_END, j)
    ensures b[j] == 13 && b[j + 1] == 10 && b[j + 2] == 13
  {
    assert b[j..j + 4][0] == b[j] && b[j..j + 4][1] == b[j + 1] && b[j..j + 4][2] == b[j + 2];
  }

  lemma MatchShifts(front: seq<byte>, rest: seq<byte>, j: nat)
    requires j >= |front| && MatchAt(front + rest, HEADER_END, j)
    ensures MatchAt(rest, HEADER_END, j - |front|)
  {
    var at := j - |front|;
    forall k | 0 <= k < 4
      ensures rest[at + k] == HEADER_END[k]
    {
      assert (front + rest)[j..j + 4][k] == (front + rest)[j + k];
    }
    assert rest[at..at + 4] == HEADER_END;
  }

  lemma JoinStarts(lines: seq<seq<byte>>)
    requires lines != [] && PlainLines(lines)
    ensures Join(lines) != [] && Join(lines)[0] != 13
  {
    assert lines[0][0] in lines[0];
  }

  /** No blank line starts inside the header block of a sent response. */
  lemma {:induction false} HeaderEnds(lines: seq<seq<byte>>, tail: seq<byte>, j: nat)
    requires lines != [] && PlainLines(lines) && j < |Join(lines)|
    ensures !MatchAt(Join(lines) + tail, HEADER_END, j)
  {
    hide MatchAt;
    var b := Join(lines) + tail;
    var line := lines[0];
    if MatchAt(b, HEADER_END, j) {
      HeaderEndBytes(b, j);
      if j >= |line| {
        var inner := Join(lines[1..]);
        JoinStarts(lines[1..]);
        assert b[|line| + 1] == 10 && b[|line| + 2] == inner[0];
        assert b == line + CRLF + (inner + tail);
        MatchShifts(line + CRLF, inner + tail, j);
        HeaderEnds(lines[1..], tail, j - |line| - 2);
      }
    }
  }

  /** A response as sent, its header block within the cap and its body as long as announced, is read
      back exactly, its status and its body, however the reads are cut; one with a longer body than
      the cap is refused. */
  lemma SentResponseIsRead(lines: seq<seq<byte>>, body: seq<byte>, sizes: nat -> nat, k: nat)
    requires lines != [] && PlainLines(lines) && StatusOf(lines[0]).Some?
    requires |Join(lines)| + 4 <= 262145
    requires LengthOf(lines[1..]) == |body|
    ensures ReadOutcome(Join(lines) + HEADER_END + body, sizes, k)
         == if |body| <= 262144 then Ok(HttpResponse(StatusOf(lines[0]).value, body)) else Err(BodyTooLong)
  {
    hide StatusOf, LengthOf;
    var b := Join(lines) + HEADER_END + body;
    var pos := |Join(lines)|;
    forall j | 0 <= j < pos
      ensures !MatchAt(b, HEADER_END, j)
    {
      assert b == Join(lines) + (HEADER_END + body);
      HeaderEnds(lines, HEADER_END + body, j);
    }
    assert b[pos..pos + 4] == HEADER_END;
    FoundIs(b, HEADER_END, pos);
    SplitOfJoin(lines);
    ChunkingIsInvisible(b, sizes, k);
    hide FindSubsequence, SplitCrlf, Join, ReadOutcome;
    assert b[..pos] == Join(lines) && b[pos + 4..] == body && body[..|body|] == body;
  }

  // ---- numbers and names in headers -----------------------------------------------------

  /** A number in decimal digits. */
  function Numeral(n: nat): (r: seq<byte>)
    ensures r != []
  {
    if n < 10 then [48 + n] else Numeral(n / 10) + [48 + n % 10]
  }

  lemma {:induction false} NumeralReads(n: nat)
    ensures forall i :: 0 <= i < |Numeral(n)| ==> IsDigit(Numeral(n)[i])
    ensures DigitsValue(Numeral(n)) == n
  {
    if n < 10 {
      assert Numeral(n)[..0] == [] && DigitsValue([]) == 0;
    } else {
      NumeralReads(n / 10);
      assert Numeral(n)[..|Numeral(n)| - 1] == Numeral(n / 10);
    }
  }

  lemma NumeralParses(n: nat, max: nat)
    ensures ParseUnsigned(Numeral(n), max) == if n <= max then Some(n) else None
  {
    NumeralReads(n);
    assert IsDigit(Numeral(n)[0]);
    hide Numeral, DigitsValue;
  }

  /** Without white space. */
  predicate Solid(w: seq<byte>) {
    forall i :: 0 <= i < |w| ==> !IsSpace(w[i])
  }

  lemma {:induction false} WordIs(w: seq<byte>, rest: seq<byte>)
    requires Solid(w) && (rest == [] || IsSpace(rest[0]))
    ensures Word(w + rest) == w
  {
    if w == [] {
      assert w + rest == rest;
    } else {
      assert (w + rest)[1..] == w[1..] + rest;
      WordIs(w[1..], rest);
    }
  }

  lemma NothingSkipped(b: seq<byte>)
    requires b != [] && !IsSpace(b[0])
    ensures SkipSpace(b) == b
  {
  }

  lemma SecondWord(first: seq<byte>, second: seq<byte>, rest: seq<byte>)
    requires first != [] && Solid(first) && second != [] && Solid(second) && (rest == [] || IsSpace(rest[0]))
    ensures var line := first + [32] + second + rest;
            Word(SkipSpace(SkipSpace(line)[|Word(SkipSpace(line))|..])) == second
  {
    var line := first + [32] + second + rest;
    var tail := second + rest;
    assert line == first + ([32] + tail) && line[0] == first[0] && tail[0] == second[0];
    assert line[|first|..] == [32] + tail && ([32] + tail)[1..] == tail;
    WordIs(first, [32] + tail);
    WordIs(second, rest);
    hide Word;
    NothingSkipped(line);
    NothingSkipped(tail);
    SkipsBlank([32], tail);
    hide SkipSpace;
  }

  /** The status is the number after the first word of the status line. */
  lemma StatusIsRead(version: seq<byte>, n: nat, rest: seq<byte>)
    requires version != [] && Solid(version) && (rest == [] || rest[0] == 32)
    ensures StatusOf(version + [32] + Numeral(n) + rest) == if n <= 65535 then Some(n) else None
  {
    NumeralReads(n);
    NumeralParses(n, 0xFFFF);
    assert Solid(Numeral(n)) by {
      forall i | 0 <= i < |Numeral(n)|
        ensures !IsSpace(Numeral(n)[i])
      {
        assert IsDigit(Numeral(n)[i]);
      }
    }
    hide Numeral, ParseUnsigned, Word, SkipSpace, Solid;
    SecondWord(version, Numeral(n), rest);
  }

  /** `name` is "content-length", in letters of either case. */
  predicate NamesLength(name: seq<byte>) {
    var s := "content-length";
    |name| == |s| && forall i :: 0 <= i < |s| ==>
      name[i] == s[i] as int || ('a' <= s[i] && name[i] == s[i] as int - 32)
  }

  lemma NamesLengthIs(name: seq<byte>)
    ensures NamesLength(name) <==> IsContentLength(name)
  {
    Spelled();
    hide CONTENT_LENGTH;
  }

  lemma Spelled()
    ensures |CONTENT_LENGTH| == |"content-length"|
    ensures forall i :: 0 <= i < |CONTENT_LENGTH| ==> CONTENT_LENGTH[i] == "content-length"[i] as int
    ensures forall i :: 0 <= i < |CONTENT_LENGTH| ==> 97 <= CONTENT_LENGTH[i] <= 122 || CONTENT_LENGTH[i] == 45
  {
  }

  predicate Blank(b: seq<byte>) {
    forall i :: 0 <= i < |b| ==> IsSpace(b[i])
  }

  lemma {:induction false} SkipsBlank(lead: seq<byte>, core: seq<byte>)
    requires Blank(lead) && core != [] && !IsSpace(core[0])
    ensures SkipSpace(lead + core) == core
  {
    if lead == [] {
      assert lead + core == core;
    } else {
      assert (lead + core)[1..] == lead[1..] + core;
      SkipsBlank(lead[1..], core);
    }
  }

  lemma {:induction false} DropsBlank(core: seq<byte>, trail: seq<byte>)
    requires Blank(trail) && core != [] && !IsSpace(core[|core| - 1])
    ensures TrimEnd(core + trail) == core
  {
    if trail == [] {
      assert core + trail == core;
    } else {
      var n := |trail| - 1;
      assert (core + trail)[..|core| + n] == core + trail[..n];
      DropsBlank(core, trail[..n]);
    }
  }

  lemma TrimsTo(lead: seq<byte>, core: seq<byte>, trail: seq<byte>)
    requires Blank(lead) && Blank(trail) && core != [] && !IsSpace(core[0]) && !IsSpace(core[|core| - 1])
    ensures Trim(lead + core + trail) == core
  {
    assert lead + core + trail == lead + (core + trail);
    SkipsBlank(lead, core + trail);
    DropsBlank(core, trail);
  }

  lemma ColonIs(name: seq<byte>, value: seq<byte>)
    requires 58 !in name
    ensures FindSubsequence(name + [58] + value, [58]) == Some(|name|)
  {
    var line := name + [58] + value;
    forall j | 0 <= j < |name|
      ensures !MatchAt(line, [58], j)
    {
      assert line[j..j + 1][0] == name[j];
    }
    assert line[|name|..|name| + 1] == [58];
    FoundIs(line, [58], |name|);
  }

  /** A header line that names the length, with white space around the number or not. */
  function LengthLine(name: seq<byte>, lead: seq<byte>, n: nat, trail: seq<byte>): seq<byte> {
    name + [58] + (lead + Numeral(n) + trail)
  }

  lemma LengthIsRead(lines: seq<seq<byte>>, name: seq<byte>, lead: seq<byte>, n: nat, trail: seq<byte>)
    requires NamesLength(name) && Blank(lead) && Blank(trail) && n < 0x1_0000_0000_0000_0000
    ensures LengthOf(lines + [LengthLine(name, lead, n, trail)]) == n
  {
    var line := LengthLine(name, lead, n, trail);
    var value := lead + Numeral(n) + trail;
    NamesLengthIs(name);
    Letters(name);
    ColonIs(name, value);
    assert line[..|name|] == name && line[|name| + 1..] == value;
    assert [] + name + [] == name;
    TrimsTo([], name, []);
    NumeralReads(n);
    assert IsDigit(Numeral(n)[0]) && IsDigit(Numeral(n)[|Numeral(n)| - 1]);
    TrimsTo(lead, Numeral(n), trail);
    NumeralParses(n, 0xFFFF_FFFF_FFFF_FFFF);
    hide Numeral, ParseUnsigned, FindSubsequence, Trim, NamesLength, IsContentLength;
    var all := lines + [line];
    assert all[|all| - 1] == line && all[..|all| - 1] == lines;
  }

  lemma Letters(name: seq<byte>)
    requires NamesLength(name)
    ensures name != [] && 58 !in name && !IsSpace(name[0]) && !IsSpace(name[|name| - 1])
  {
    NamesLengthIs(name);
    Spelled();
    hide CONTENT_LENGTH, NamesLength;
    assert Lower(name[0]) == CONTENT_LENGTH[0] && Lower(name[13]) == CONTENT_LENGTH[13];
  }

  /** A header line that names something else, or nothing. */
  predicate OtherLine(line: seq<byte>) {
    var colon := FindSubsequence(line, [58]);
    colon.Some? ==> !NamesLength(Trim(line[..colon.value]))
  }

  lemma OtherIsSkipped(lines: seq<seq<byte>>, line: seq<byte>)
    requires OtherLine(line)
    ensures LengthOf(lines + [line]) == LengthOf(lines)
  {
    var all := lines + [line];
    assert all[|all| - 1] == line && all[..|all| - 1] == lines;
    var colon := FindSubsequence(line, [58]);
    if colon.Some? {
      NamesLengthIs(Trim(line[..colon.value]));
    }
    hide FindSubsequence, Trim, NamesLength, IsContentLength, ParseUnsigned;
  }

  lemma {:induction false} OthersAreSkipped(lines: seq<seq<byte>>, others: seq<seq<byte>>)
    requires forall i :: 0 <= i < |others| ==> OtherLine(others[i])
    ensures LengthOf(lines + others) == LengthOf(lines)
  {
    hide OtherLine, LengthOf;
    if others == [] {
      assert lines + others == lines;
    } else {
      var n := |others| - 1;
      assert lines + others == lines + others[..n] + [others[n]];
      OthersAreSkipped(lines, others[..n]);
      OtherIsSkipped(lines + others[..n], others[n]);
    }
  }

  /** A response from its parts: version, number and reason; any header lines, the length among them;
      a body of that length. However the reads are cut, the number and the body are read back, or the
      body is refused as too long; a number of more than 16 bits is no status. */
  lemma WrittenResponseIsRead(version: seq<byte>, status: nat, reason: seq<byte>, before: seq<seq<byte>>,
                              name: seq<byte>, lead: seq<byte>, trail: seq<byte>, after: seq<seq<byte>>,
                              body: seq<byte>, sizes: nat -> nat, k: nat)
    requires version != [] && Solid(version) && (reason == [] || reason[0] == 32) && status <= 65535
    requires NamesLength(name) && Blank(lead) && Blank(trail) && |body| < 0x1_0000_0000_0000_0000
    requires forall i :: 0 <= i < |after| ==> OtherLine(after[i])
    requires PlainLines(Lines(version, status, reason, before, name, lead, |body|, trail, after))
    requires |Join(Lines(version, status, reason, before, name, lead, |body|, trail, after))| + 4 <= 262145
    ensures ReadOutcome(Join(Lines(version, status, reason, before, name, lead, |body|, trail, after))
                        + [13, 10, 13, 10] + body, sizes, k)
         == if |body| <= 262144 then Ok(HttpResponse(status, body)) else Err(BodyTooLong)
  {
    var lines := Lines(version, status, reason, before, name, lead, |body|, trail, after);
    StatusIsRead(version, status, reason);
    LengthIsRead(before, name, lead, |body|, trail);
    OthersAreSkipped(before + [LengthLine(name, lead, |body|, trail)], after);
    LinesAre(version, status, reason, before, name, lead, |body|, trail, after);
    hide StatusOf, LengthOf, LengthLine, Lines, Join, PlainLines, ReadOutcome, Solid, Blank, OtherLine, NamesLength;
    SentResponseIsRead(lines, body, sizes, k);
  }

  function Lines(version: seq<byte>, status: nat, reason: seq<byte>, before: seq<seq<byte>>, name: seq<byte>,
                 lead: seq<byte>, n: nat, trail: seq<byte>, after: seq<seq<byte>>): (r: seq<seq<byte>>)
    ensures r != []
  {
    [version + [32] + Numeral(status) + reason] + before + [LengthLine(name, lead, n, trail)] + after
  }

  lemma LinesAre(version: seq<byte>, status: nat, reason: seq<byte>, before: seq<seq<byte>>, name: seq<byte>,
                 lead: seq<byte>, n: nat, trail: seq<byte>, after: seq<seq<byte>>)
    ensures var lines := Lines(version, status, reason, before, name, lead, n, trail, after);
            && lines[0] == version + [32] + Numeral(status) + reason
            && lines[1..] == before + [LengthLine(name, lead, n, trail)] + after
  {
  }
}
