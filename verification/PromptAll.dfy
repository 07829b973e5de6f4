/** Broadcasting one prompt and collecting the answers (`run` and `finish`,
    agent-teams-mcp/src/prompt_all.rs). What each pane shows at each poll, how each send went and
    how many polls fit before the deadline are inputs. */
module PromptAll {
  import opened PromptExtract
  import opened Wrappers

  const STABLE_POLLS := 2

  datatype TargetPane = TargetPane(id: string, harness: string)

  datatype PaneResponse = PaneResponse(id: string, harness: string, response: string, source: string)

  datatype PaneError = PaneError(id: string, error: string, detail: Option<string>)

  /** How the `SendInput` to a pane went. */
  datatype Send = Sent | AppNotRunning | Rejected(code: string, why: string) | Incomplete(what: string)

  /** What `read_output::resolve` says of a pane. */
  datatype PaneOutput = PaneOutput(content: Option<string>, harness: Option<string>, source: string)

  /** Everything about one target that comes from outside: its baseline, the fate of its send,
      and what it shows at each poll. */
  datatype Feed = Feed(target: TargetPane, baseline: Option<string>, send: Send, shows: nat -> PaneOutput)

  // ---- one pane, as a state machine -----------------------------------------------------------

  datatype Progress =
    | Waiting(candidate: Option<string>, stable: nat)
    | Answered(response: PaneResponse)
    | Failed(error: PaneError)
  {
    predicate Done() {
      !Waiting?
    }
  }

  function SendError(id: string, send: Send): PaneError
    requires !send.Sent?
  {
    match send
    case AppNotRunning => PaneError(id, "APP_NOT_RUNNING", Some("app socket unreachable during SendInput"))
    case Rejected(code, why) =>
      PaneError(id, if code == "DEAD_PANE" then "dead" else "send_failed",
                Some(if Trim(why) == "" then code else code + ": " + why))
    case Incomplete(what) => PaneError(id, "send_failed", Some(what))
  }

  function Start(f: Feed): Progress {
    if f.send.Sent? then Waiting(None, 0) else Failed(SendError(f.target.id, f.send))
  }

  function Content(out: PaneOutput): string {
    if out.content.Some? then out.content.value else ""
  }

  /** What poll `k` extracts for this pane. */
  function Found(f: Feed, prompt: string, k: nat): Option<string> {
    Extract(f.baseline, Content(f.shows(k)), prompt, f.shows(k).source)
  }

  function AnswerOf(f: Feed, text: string, k: nat): PaneResponse {
    var out := f.shows(k);
    PaneResponse(f.target.id, if out.harness.Some? then out.harness.value else f.target.harness, text, out.source)
  }

  /** One poll of a pane. */
  function Polled(f: Feed, prompt: string, p: Progress, k: nat): Progress {
    match p
    case Answered(_) => p
    case Failed(_) => p
    case Waiting(candidate, stable) =>
      match Found(f, prompt, k)
      case None => Waiting(None, 0)
      case Some(text) =>
        var count := if candidate == Some(text) then stable + 1 else 1;
        if count >= STABLE_POLLS then Answered(AnswerOf(f, text, k)) else Waiting(Some(text), count)
  }

  /** After `n` polls. */
  function After(f: Feed, prompt: string, n: nat): Progress {
    if n == 0 then Start(f) else Polled(f, prompt, After(f, prompt, n - 1), n - 1)
  }

  /** The deadline: a candidate counts as a partial answer, nothing as a timeout. */
  function Closed(f: Feed, p: Progress, timeout: string): Progress {
    match p
    case Answered(_) => p
    case Failed(_) => p
    case Waiting(Some(text), _) => Answered(PaneResponse(f.target.id, f.target.harness, text, "partial"))
    case Waiting(None, _) => Failed(PaneError(f.target.id, "timeout", Some(timeout)))
  }

  // ---- what the state machine decides -----------------------------------------------------------

  /** Polls `k - 1` and `k` extract the same text. */
  ghost predicate Agree(f: Feed, prompt: string, k: nat) {
    k > 0 && Found(f, prompt, k).Some? && Found(f, prompt, k) == Found(f, prompt, k - 1)
  }

  /** The first two polls in a row, before poll `n`, that agree. */
  ghost function FirstAgreement(f: Feed, prompt: string, n: nat): Option<nat> {
    if n == 0 then None
    else
      var before := FirstAgreement(f, prompt, n - 1);
      if before.Some? then before else if Agree(f, prompt, n - 1) then Some(n - 1) else None
  }

  lemma {:induction false} FirstAgreementIs(f: Feed, prompt: string, n: nat)
    ensures match FirstAgreement(f, prompt, n)
            case Some(k) => k < n && Agree(f, prompt, k) && forall j :: 0 <= j < k ==> !Agree(f, prompt, j)
            case None => forall j :: 0 <= j < n ==> !Agree(f, prompt, j)
  {
    hide Agree;
    if n > 0 {
      FirstAgreementIs(f, prompt, n - 1);
    }
  }

  /** The counter and the stored candidate come to this: a pane is answered at the first two
      polls in a row that extract the same text, and until then remembers the last extraction. */
  lemma {:induction false} AnsweredAtFirstAgreement(f: Feed, prompt: string, n: nat)
    requires f.send.Sent?
    ensures match FirstAgreement(f, prompt, n)
            case Some(k) =>
              Agree(f, prompt, k) && After(f, prompt, n) == Answered(AnswerOf(f, Found(f, prompt, k).value, k))
            case None =>
              var last := if n == 0 then None else Found(f, prompt, n - 1);
              After(f, prompt, n) == Waiting(last, if last.Some? then 1 else 0)
  {
    hide Found, AnswerOf;
    if n > 0 {
      FirstAgreementIs(f, prompt, n);
      AnsweredAtFirstAgreement(f, prompt, n - 1);
    }
  }

  /** A finished pane is never changed again, by polls or by the deadline. */
  lemma {:induction false} FinishedStays(f: Feed, prompt: string, k: nat, n: nat, timeout: string)
    requires k <= n && After(f, prompt, k).Done()
    ensures After(f, prompt, n) == After(f, prompt, k) == Closed(f, After(f, prompt, n), timeout)
    decreases n
  {
    if k < n {
      FinishedStays(f, prompt, k, n - 1, timeout);
    }
  }

  /** What becomes of a pane when `n` polls fit. */
  function Outcome(f: Feed, prompt: string, n: nat, timeout: string): Progress {
    Closed(f, After(f, prompt, n), timeout)
  }

  /** An answer that is not marked partial was extracted identically by the last two polls of
      that pane; a partial one was extracted by the last poll, and no two polls in a row agreed;
      without either the pane timed out, or its send had failed. */
  lemma OutcomeExplained(f: Feed, prompt: string, n: nat, timeout: string)
    ensures match Outcome(f, prompt, n, timeout)
            case Answered(r) =>
              && f.send.Sent? && r.id == f.target.id
              && (r.source != "partial" ==>
                    exists k :: 0 < k < n && Agree(f, prompt, k) && Found(f, prompt, k) == Some(r.response)
                                && r.source == f.shows(k).source && !After(f, prompt, k).Done()
                                && After(f, prompt, k + 1) == Answered(r))
              && (FirstAgreement(f, prompt, n) == None ==>
                    n > 0 && r.source == "partial" && Found(f, prompt, n - 1) == Some(r.response))
            case Failed(e) =>
              && e.id == f.target.id && (f.send.Sent? <==> e.error == "timeout")
              && (f.send.Sent? ==> FirstAgreement(f, prompt, n) == None && (n > 0 ==> Found(f, prompt, n - 1) == None))
            case Waiting(_, _) => false
  {
    hide Found, SendError;
    if f.send.Sent? {
      FirstAgreementIs(f, prompt, n);
      AnsweredAtFirstAgreement(f, prompt, n);
      var first := FirstAgreement(f, prompt, n);
      if first.Some? {
        var k := first.value;
        FirstAgreementIs(f, prompt, k);
        FirstAgreementIs(f, prompt, k + 1);
        AnsweredAtFirstAgreement(f, prompt, k);
        AnsweredAtFirstAgreement(f, prompt, k + 1);
      }
    } else {
      FinishedStays(f, prompt, 0, n, timeout);
      SendErrorId(f.target.id, f.send);
    }
  }

  /** Every outcome, field by field. A pane that was sent the prompt is answered by the first two polls
      in a row that extract the same text, with the harness and source the second one saw; without such
      polls by what the last poll extracted, marked partial; without that it timed out. A pane that was
      not is failed for the reason its send failed. */
  lemma OutcomeIs(f: Feed, prompt: string, n: nat, timeout: string)
    ensures var id := f.target.id;
            Outcome(f, prompt, n, timeout) ==
              match f.send
              case Sent =>
                var last := if n == 0 then None else Found(f, prompt, n - 1);
                (match FirstAgreement(f, prompt, n)
                 case Some(k) =>
                   var out := f.shows(k);
                   Answered(PaneResponse(id, if out.harness.Some? then out.harness.value else f.target.harness,
                                         if Found(f, prompt, k).Some? then Found(f, prompt, k).value else "",
                                         out.source))
                 case None =>
                   if last.Some? then Answered(PaneResponse(id, f.target.harness, last.value, "partial"))
                   else Failed(PaneError(id, "timeout", Some(timeout))))
              case AppNotRunning =>
                Failed(PaneError(id, "APP_NOT_RUNNING", Some("app socket unreachable during SendInput")))
              case Rejected(code, why) =>
                Failed(PaneError(id, if code == "DEAD_PANE" then "dead" else "send_failed",
                                 Some(if Trim(why) == "" then code else code + ": " + why)))
              case Incomplete(what) => Failed(PaneError(id, "send_failed", Some(what)))
  {
    hide Found, Trim;
    if f.send.Sent? {
      FirstAgreementIs(f, prompt, n);
      AnsweredAtFirstAgreement(f, prompt, n);
    } else {
      FinishedStays(f, prompt, 0, n, timeout);
    }
  }

  lemma SendErrorId(id: string, send: Send)
    requires !send.Sent?
    ensures SendError(id, send).id == id && SendError(id, send).error != "timeout"
  {
  }

  // ---- sorting by pane id -----------------------------------------------------------------------

  /** Lexicographic order of ids. */
  predicate IdLe(a: string, b: string) {
    a == "" || (b != "" && (a[0] < b[0] || (a[0] == b[0] && IdLe(a[1..], b[1..]))))
  }

  lemma {:induction false} IdLeTotal(a: string, b: string)
    ensures IdLe(a, b) || IdLe(b, a)
  {
    if a != "" && b != "" {
      IdLeTotal(a[1..], b[1..]);
    }
  }

  lemma {:induction false} IdLeTransitive(a: string, b: string, c: string)
    requires IdLe(a, b) && IdLe(b, c)
    ensures IdLe(a, c)
  {
    if a != "" && b != "" && c != "" && a[0] == b[0] == c[0] {
      IdLeTransitive(a[1..], b[1..], c[1..]);
    }
  }

  /** Insert after every row whose id is no greater: a stable sort, so the one result
      `sort_by` can give. */
  function Insert<T>(x: T, rows: seq<T>, id: T -> string): seq<T> {
    if rows == [] then [x]
    else if IdLe(id(rows[|rows| - 1]), id(x)) then rows + [x]
    else Insert(x, rows[..|rows| - 1], id) + [rows[|rows| - 1]]
  }

  function SortById<T>(rows: seq<T>, id: T -> string): seq<T> {
    if rows == [] then [] else Insert(rows[|rows| - 1], SortById(rows[..|rows| - 1], id), id)
  }

  ghost predicate Sorted<T>(rows: seq<T>, id: T -> string) {
    forall i, j :: 0 <= i < j < |rows| ==> IdLe(id(rows[i]), id(rows[j]))
  }

  /** The rows of one id, in order. */
  ghost function Where<T>(rows: seq<T>, id: T -> string, v: string): seq<T> {
    if rows == [] then []
    else
      var last := rows[|rows| - 1];
      Where(rows[..|rows| - 1], id, v) + if id(last) == v then [last] else []
  }

  lemma WhereAppend<T>(rows: seq<T>, x: T, id: T -> string, v: string)
    ensures Where(rows + [x], id, v) == Where(rows, id, v) + if id(x) == v then [x] else []
  {
    assert (rows + [x])[..|rows|] == rows;
  }

  lemma {:induction false} InsertKeeps<T>(x: T, rows: seq<T>, id: T -> string, v: string)
    ensures Where(Insert(x, rows, id), id, v) == Where(rows + [x], id, v)
  {
    WhereAppend(rows, x, id, v);
    if rows != [] && !IdLe(id(rows[|rows| - 1]), id(x)) {
      var (rest, last) := (rows[..|rows| - 1], rows[|rows| - 1]);
      InsertKeeps(x, rest, id, v);
      WhereAppend(Insert(x, rest, id), last, id, v);
      WhereAppend(rest, x, id, v);
      IdLeTotal(id(last), id(x));
    }
  }

  /** Sorting keeps the rows of every id, in their order. */
  lemma {:induction false} SortKeeps<T>(rows: seq<T>, id: T -> string, v: string)
    ensures Where(SortById(rows, id), id, v) == Where(rows, id, v)
  {
    if rows != [] {
      var (rest, last) := (rows[..|rows| - 1], rows[|rows| - 1]);
      SortKeeps(rest, id, v);
      InsertKeeps(last, SortById(rest, id), id, v);
      WhereAppend(SortById(rest, id), last, id, v);
    }
  }

  lemma {:induction false} InsertSorted<T>(x: T, rows: seq<T>, id: T -> string)
    requires Sorted(rows, id)
    ensures Sorted(Insert(x, rows, id), id)
    ensures forall r :: r in Insert(x, rows, id) ==> r == x || r in rows
  {
    if rows != [] {
      var (rest, last) := (rows[..|rows| - 1], rows[|rows| - 1]);
      IdLeTotal(id(last), id(x));
      if IdLe(id(last), id(x)) {
        forall r | r in rows
          ensures IdLe(id(r), id(x))
        {
          if r in rest {
            IdLeTransitive(id(r), id(last), id(x));
          }
        }
      } else {
        InsertSorted(x, rest, id);
        assert forall r :: r in rest ==> IdLe(id(r), id(last));
      }
    }
  }

  lemma {:induction false} SortSorts<T>(rows: seq<T>, id: T -> string)
    ensures Sorted(SortById(rows, id), id)
  {
    if rows != [] {
      SortSorts(rows[..|rows| - 1], id);
      InsertSorted(rows[|rows| - 1], SortById(rows[..|rows| - 1], id), id);
    }
  }

  // ---- the result -------------------------------------------------------------------------------

  function ResponseId(r: PaneResponse): string {
    r.id
  }

  function ErrorId(e: PaneError): string {
    e.id
  }

  function FeedId(f: Feed): string {
    f.target.id
  }

  function Answers(ends: seq<Progress>): seq<PaneResponse> {
    if ends == [] then []
    else Answers(ends[..|ends| - 1]) + if ends[|ends| - 1].Answered? then [ends[|ends| - 1].response] else []
  }

  /** The error rows; a target without any verdict would get `no_output`. */
  function Failures(ends: seq<Progress>, feeds: seq<Feed>): seq<PaneError>
    requires |ends| == |feeds|
  {
    if ends == [] then []
    else
      var n := |ends| - 1;
      Failures(ends[..n], feeds[..n]) +
        match ends[n]
        case Answered(_) => []
        case Failed(e) => [e]
        case Waiting(_, _) => [PaneError(feeds[n].target.id, "no_output", None)]
  }

  function Outcomes(feeds: seq<Feed>, prompt: string, n: nat, timeout: string): (r: seq<Progress>)
    ensures |r| == |feeds|
  {
    seq(|feeds|, i requires 0 <= i < |feeds| => Outcome(feeds[i], prompt, n, timeout))
  }

  datatype Collected = Collected(responses: seq<PaneResponse>, errors: seq<PaneError>)

  function Sift(ends: seq<Progress>, feeds: seq<Feed>): Collected
    requires |ends| == |feeds|
  {
    Collected(SortById(Answers(ends), ResponseId), SortById(Failures(ends, feeds), ErrorId))
  }

  /** The collected answers and errors when `n` polls fit before the deadline. */
  function Result(feeds: seq<Feed>, prompt: string, n: nat, timeout: string): Collected {
    Sift(Outcomes(feeds, prompt, n, timeout), feeds)
  }

  lemma {:induction false} RowsPerId(feeds: seq<Feed>, prompt: string, n: nat, timeout: string, v: string)
    ensures var ends := Outcomes(feeds, prompt, n, timeout);
            |Where(Answers(ends), ResponseId, v)| + |Where(Failures(ends, feeds), ErrorId, v)|
            == |Where(feeds, FeedId, v)|
  {
    if feeds != [] {
      var ends := Outcomes(feeds, prompt, n, timeout);
      var (rest, last) := (feeds[..|feeds| - 1], feeds[|feeds| - 1]);
      RowsPerId(rest, prompt, n, timeout, v);
      assert ends[..|feeds| - 1] == Outcomes(rest, prompt, n, timeout) && FeedId(last) == last.target.id;
      OutcomeExplained(last, prompt, n, timeout);
      hide Outcome;
      var before := ends[..|feeds| - 1];
      match ends[|feeds| - 1] {
        case Answered(r) =>
          assert Failures(ends, feeds) == Failures(before, rest);
          WhereAppend(Answers(before), r, ResponseId, v);
        case Failed(e) =>
          assert Answers(ends) == Answers(before);
          WhereAppend(Failures(before, rest), e, ErrorId, v);
      }
    }
  }

  /** Every target ends in exactly one row of exactly one of the two lists, under its own id, and
      both lists are in order of id. */
  lemma OneRowPerTarget(feeds: seq<Feed>, prompt: string, n: nat, timeout: string, v: string)
    ensures var r := Result(feeds, prompt, n, timeout);
            && |Where(r.responses, ResponseId, v)| + |Where(r.errors, ErrorId, v)| == |Where(feeds, FeedId, v)|
            && Sorted(r.responses, ResponseId) && Sorted(r.errors, ErrorId)
  {
    var ends := Outcomes(feeds, prompt, n, timeout);
    RowsPerId(feeds, prompt, n, timeout, v);
    SortKeeps(Answers(ends), ResponseId, v);
    SortKeeps(Failures(ends, feeds), ErrorId, v);
    SortSorts(Answers(ends), ResponseId);
    SortSorts(Failures(ends, feeds), ErrorId);
  }

  // ---- the loop as it runs ------------------------------------------------------------------------

  class PaneTrack {
    const feed: Feed
    var lastCandidate: Option<string>
    var stableCount: nat
    var done: bool
    var response: Option<PaneResponse>
    var error: Option<PaneError>

    ghost predicate Valid()
      reads this
    {
      (done <==> response.Some? || error.Some?) && (response == None || error == None)
    }

    ghost function Now(): Progress
      reads this
    {
      if response.Some? then Answered(response.value)
      else if error.Some? then Failed(error.value)
      else Waiting(lastCandidate, stableCount)
    }

    constructor (feed: Feed)
      ensures this.feed == feed && Valid() && Now() == Start(feed)
    {
      this.feed, lastCandidate, stableCount, done, response, error := feed, None, 0, false, None, None;
      if !feed.send.Sent? {
        done, error := true, Some(SendError(feed.target.id, feed.send));
      }
    }

    method Poll(prompt: string, k: nat)
      requires Valid() && !done
      modifies this
      ensures Valid() && Now() == Polled(feed, prompt, old(Now()), k)
    {
      hide Extract;
      var out := feed.shows(k);
      match Extract(feed.baseline, Content(out), prompt, out.source) {
        case Some(text) =>
          if lastCandidate == Some(text) {
            stableCount := stableCount + 1;
          } else {
            lastCandidate, stableCount := Some(text), 1;
          }
          if stableCount >= STABLE_POLLS {
            var harness := if out.harness.Some? then out.harness.value else feed.target.harness;
            response := Some(PaneResponse(feed.target.id, harness, lastCandidate.value, out.source));
            lastCandidate, done := None, true;
          }
        case None =>
          stableCount, lastCandidate := 0, None;
      }
    }

    /** The deadline has passed. */
    method Close(timeout: string)
      requires Valid() && !done
      modifies this
      ensures Valid() && Now() == Closed(feed, old(Now()), timeout)
    {
      if lastCandidate.Some? {
        response := Some(PaneResponse(feed.target.id, feed.target.harness, lastCandidate.value, "partial"));
        lastCandidate := None;
      } else {
        error := Some(PaneError(feed.target.id, "timeout", Some(timeout)));
      }
      done := true;
    }
  }

  /** One sound track per target, no two the same. */
  ghost predicate Tracked(tracks: seq<PaneTrack>, feeds: seq<Feed>)
    reads tracks
  {
    && |tracks| == |feeds|
    && (forall i :: 0 <= i < |tracks| ==> tracks[i].feed == feeds[i] && tracks[i].Valid())
    && forall i, j :: 0 <= i < j < |tracks| ==> tracks[i] != tracks[j]
  }

  /** Every pane is as the state machine says after `k` polls, the first `i` a poll further. */
  ghost predicate InStep(tracks: seq<PaneTrack>, feeds: seq<Feed>, prompt: string, k: nat, i: nat)
    requires |tracks| == |feeds|
    reads tracks
  {
    forall j :: 0 <= j < |tracks| ==> tracks[j].Now() == After(feeds[j], prompt, if j < i then k + 1 else k)
  }

  predicate AllDone(tracks: seq<PaneTrack>)
    reads tracks
  {
    forall i :: 0 <= i < |tracks| ==> tracks[i].done
  }

  method PollRound(tracks: seq<PaneTrack>, feeds: seq<Feed>, prompt: string, k: nat)
    requires Tracked(tracks, feeds) && InStep(tracks, feeds, prompt, k, 0)
    modifies tracks
    ensures Tracked(tracks, feeds) && InStep(tracks, feeds, prompt, k + 1, 0)
  {
    hide Start, Polled;
    for i := 0 to |tracks|
      invariant Tracked(tracks, feeds) && InStep(tracks, feeds, prompt, k, i)
    {
      DoneIsPolled(feeds[i], prompt, k);
      if !tracks[i].done {
        tracks[i].Poll(prompt, k);
      }
    }
  }

  lemma DoneIsPolled(f: Feed, prompt: string, k: nat)
    ensures After(f, prompt, k).Done() ==> After(f, prompt, k + 1) == After(f, prompt, k)
  {
    if After(f, prompt, k).Done() {
      FinishedStays(f, prompt, k, k + 1, "");
    }
  }

  method CloseAll(tracks: seq<PaneTrack>, feeds: seq<Feed>, prompt: string, n: nat, timeout: string)
    requires Tracked(tracks, feeds) && InStep(tracks, feeds, prompt, n, 0)
    modifies tracks
    ensures Tracked(tracks, feeds)
    ensures forall j :: 0 <= j < |tracks| ==> tracks[j].Now() == Outcome(feeds[j], prompt, n, timeout)
  {
    hide After;
    for i := 0 to |tracks|
      invariant Tracked(tracks, feeds)
      invariant forall j :: 0 <= j < |tracks| ==>
                  tracks[j].Now() == if j < i then Outcome(feeds[j], prompt, n, timeout) else After(feeds[j], prompt, n)
    {
      if !tracks[i].done {
        tracks[i].Close(timeout);
      }
    }
  }

  ghost function Ends(tracks: seq<PaneTrack>): (r: seq<Progress>)
    reads tracks
    ensures |r| == |tracks|
  {
    seq(|tracks|, i requires 0 <= i < |tracks| reads tracks => tracks[i].Now())
  }

  /** `finish`: sift the tracks into answers and errors, and sort both by id. */
  method Finish(tracks: seq<PaneTrack>, ghost feeds: seq<Feed>) returns (r: Collected)
    requires Tracked(tracks, feeds)
    ensures r == Sift(Ends(tracks), feeds)
  {
    var responses: seq<PaneResponse>, errors: seq<PaneError> := [], [];
    ghost var ends := Ends(tracks);
    for i := 0 to |tracks|
      invariant responses == Answers(ends[..i]) && errors == Failures(ends[..i], feeds[..i])
    {
      var t := tracks[i];
      assert ends[..i + 1][..i] == ends[..i] && feeds[..i + 1][..i] == feeds[..i];
      if t.response.Some? {
        responses := responses + [t.response.value];
      } else if t.error.Some? {
        errors := errors + [t.error.value];
      } else {
        errors := errors + [PaneError(t.feed.target.id, "no_output", None)];
      }
    }
    assert ends[..|tracks|] == ends && feeds[..|tracks|] == feeds;
    r := Collected(SortById(responses, ResponseId), SortById(errors, ErrorId));
  }

  method StartTracks(feeds: seq<Feed>, ghost prompt: string) returns (tracks: seq<PaneTrack>)
    ensures Tracked(tracks, feeds) && InStep(tracks, feeds, prompt, 0, 0)
    ensures forall i :: 0 <= i < |tracks| ==> fresh(tracks[i])
  {
    tracks := [];
    for i := 0 to |feeds|
      invariant |tracks| == i && Tracked(tracks, feeds[..i]) && InStep(tracks, feeds[..i], prompt, 0, 0)
      invariant forall i :: 0 <= i < |tracks| ==> fresh(tracks[i])
    {
      var t := new PaneTrack(feeds[i]);
      tracks := tracks + [t];
    }
    assert feeds[..|feeds|] == feeds;
  }

  /** `run`, from the selected targets on: send to all, poll until all are done or `rounds` polls
      have passed the time, close what is left. */
  method Run(feeds: seq<Feed>, prompt: string, rounds: nat, timeout: string, nobody: string)
    returns (r: Collected)
    ensures feeds != [] ==> r == Result(feeds, prompt, rounds, timeout)
    ensures feeds == [] ==> r == Collected([], [PaneError("*", "NO_TARGETS", Some(nobody))])
  {
    hide Polled, Start;
    if feeds == [] {
      return Collected([], [PaneError("*", "NO_TARGETS", Some(nobody))]);
    }
    var tracks := StartTracks(feeds, prompt);
    var round := 0;
    while round < rounds && !AllDone(tracks)
      invariant round <= rounds && Tracked(tracks, feeds) && InStep(tracks, feeds, prompt, round, 0)
      invariant forall i :: 0 <= i < |tracks| ==> fresh(tracks[i])
    {
      PollRound(tracks, feeds, prompt, round);
      round := round + 1;
    }
    forall i | 0 <= i < |feeds|
      ensures Outcome(feeds[i], prompt, round, timeout) == Outcome(feeds[i], prompt, rounds, timeout)
    {
      if round < rounds {
        assert tracks[i].done;
        FinishedStays(feeds[i], prompt, round, rounds, timeout);
        FinishedStays(feeds[i], prompt, round, round, timeout);
      }
    }
    CloseAll(tracks, feeds, prompt, round, timeout);
    hide Outcome;
    assert Ends(tracks) == Outcomes(feeds, prompt, rounds, timeout);
    r := Finish(tracks, feeds);
  }
}
