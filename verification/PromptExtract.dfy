/** Telling a pane's answer from what it showed before (`extract_response` and
    `newest_assistant_block`, agent-teams-mcp/src/prompt_all.rs). A string is a sequence of
    characters, as `chars()` counts them. */
module PromptExtract {
  import opened Wrappers

  const MIN_NEW_CHARS := 8
  const ASSISTANT := "[assistant]"

  // ---- text ---------------------------------------------------------------------------------

  predicate IsSpace(ch: char) {
    var c := ch as int;
    9 <= c <= 13 || c == 32 || c == 0x85 || c == 0xA0 || c == 0x1680 || 0x2000 <= c <= 0x200A
    || c == 0x2028 || c == 0x2029 || c == 0x202F || c == 0x205F || c == 0x3000
  }

  function TrimStart(s: string): string {
    if s != "" && IsSpace(s[0]) then TrimStart(s[1..]) else s
  }

  function TrimEnd(s: string): string {
    if s != "" && IsSpace(s[|s| - 1]) then TrimEnd(s[..|s| - 1]) else s
  }

  function Trim(s: string): string {
    TrimEnd(TrimStart(s))
  }

  predicate At(text: string, needle: string, i: nat) {
    i + |needle| <= |text| && text[i..i + |needle|] == needle
  }

  /** The last place where `needle` starts before `n`. */
  function LastBefore(text: string, needle: string, n: nat): (r: Option<nat>)
    ensures r.Some? ==> r.value < n && At(text, needle, r.value)
    ensures forall i :: (if r.Some? then r.value < i else true) && 0 <= i < n ==> !At(text, needle, i)
  {
    if n == 0 then None else if At(text, needle, n - 1) then Some(n - 1) else LastBefore(text, needle, n - 1)
  }

  function RFind(text: string, needle: string): Option<nat> {
    LastBefore(text, needle, |text| + 1)
  }

  /** `text` up to the first `mark`. */
  function UpTo(text: string, mark: string, i: nat): (r: string)
    requires i <= |text|
    ensures i <= |r| && r <= text
    decreases |text| - i
  {
    if i == |text| || At(text, mark, i) then text[..i] else UpTo(text, mark, i + 1)
  }

  /** The block that follows the role marker at `at`. */
  function BlockAt(text: string, at: nat): Option<string>
    requires At(text, ASSISTANT, at)
  {
    var body := Trim(text[at + |ASSISTANT|..]);
    var block := Trim(UpTo(UpTo(body, "\n[user]", 0), "\n[assistant]", 0));
    if block == "" then None else Some(block)
  }

  /** The last `[assistant]` block of a transcript. */
  function NewestBlock(text: string): Option<string> {
    match RFind(text, ASSISTANT)
    case None => None
    case Some(at) => BlockAt(text, at)
  }

  /** A block, if it is long enough to count. */
  function Substantial(block: Option<string>): Option<string> {
    if block.Some? && |block.value| >= MIN_NEW_CHARS then block else None
  }

  function Whole(text: string): Option<string> {
    Substantial(Some(text))
  }

  // ---- extract_response -----------------------------------------------------------------------

  predicate Echoed(current: string, prompt: string) {
    prompt != "" && RFind(current, prompt).Some?
  }

  /** What follows the newest echo of the prompt. */
  function AfterEcho(current: string, prompt: string): string
    requires Echoed(current, prompt)
  {
    Trim(current[RFind(current, prompt).value + |prompt|..])
  }

  function FromBaseline(base: string, current: string): Option<string> {
    var block := Substantial(NewestBlock(current));
    if block.Some? && NewestBlock(base) != block then block
    else if base <= current then Whole(Trim(current[|base|..]))
    else OrElse(block, Whole(current))
  }

  function Extract(baseline: Option<string>, current: string, prompt: string, source: string): Option<string> {
    if source == "none" || Trim(current) == "" then None
    else if baseline == Some(current) then None
    else if Echoed(current, prompt) then
      var after := AfterEcho(current, prompt);
      OrElse(Substantial(NewestBlock(after)), Whole(after))
    else
      match baseline
      case Some(base) => FromBaseline(base, current)
      case None => OrElse(Substantial(NewestBlock(current)), Whole(current))
  }

  // ---- what is extracted ------------------------------------------------------------------------

  /** `piece` is a stretch of `text` from `low` on. */
  ghost predicate PieceFrom(text: string, piece: string, low: nat) {
    exists i :: i >= low && At(text, piece, i)
  }

  lemma PieceOfPiece(text: string, mid: string, piece: string, low: nat)
    requires PieceFrom(text, mid, low) && PieceFrom(mid, piece, 0)
    ensures PieceFrom(text, piece, low)
  {
    var i :| i >= low && At(text, mid, i);
    var j :| j >= 0 && At(mid, piece, j);
    forall k | 0 <= k < |piece|
      ensures text[i + j + k] == piece[k]
    {
      assert text[i..i + |mid|][j + k] == mid[j + k];
      assert mid[j..j + |piece|][k] == piece[k];
    }
    assert text[i + j..i + j + |piece|] == piece;
    assert At(text, piece, i + j);
  }

  lemma SuffixIsPiece(text: string, k: nat)
    requires k <= |text|
    ensures PieceFrom(text, text[k..], k)
  {
    assert At(text, text[k..], k);
  }

  lemma {:induction false} TrimEndIsPiece(s: string)
    ensures TrimEnd(s) <= s
  {
    if s != "" && IsSpace(s[|s| - 1]) {
      TrimEndIsPiece(s[..|s| - 1]);
    }
  }

  lemma {:induction false} TrimStartIsPiece(s: string)
    ensures PieceFrom(s, TrimStart(s), 0)
  {
    if s != "" && IsSpace(s[0]) {
      TrimStartIsPiece(s[1..]);
      SuffixIsPiece(s, 1);
      PieceOfPiece(s, s[1..], TrimStart(s), 1);
    } else {
      SuffixIsPiece(s, 0);
    }
  }

  lemma PrefixIsPiece(s: string, p: string)
    requires p <= s
    ensures PieceFrom(s, p, 0)
  {
    assert At(s, p, 0);
  }

  lemma TrimIsPiece(s: string)
    ensures PieceFrom(s, Trim(s), 0)
  {
    TrimStartIsPiece(s);
    TrimEndIsPiece(TrimStart(s));
    PrefixIsPiece(TrimStart(s), Trim(s));
    PieceOfPiece(s, TrimStart(s), Trim(s), 0);
  }

  lemma PieceIsNoLonger(text: string, piece: string, low: nat)
    requires PieceFrom(text, piece, low)
    ensures |piece| <= |text|
  {
  }

  lemma BlockIsPiece(text: string)
    requires NewestBlock(text).Some?
    ensures PieceFrom(text, NewestBlock(text).value, 0)
  {
    hide RFind, UpTo, PieceFrom, Trim;
    var at := RFind(text, ASSISTANT).value;
    RFindFinds(text, ASSISTANT);
    var tail := text[at + |ASSISTANT|..];
    var body := Trim(tail);
    var upto := UpTo(UpTo(body, "\n[user]", 0), "\n[assistant]", 0);
    SuffixIsPiece(text, at + |ASSISTANT|);
    PieceFromLower(text, tail, at + |ASSISTANT|);
    TrimIsPiece(tail);
    PrefixIsPiece(body, upto);
    TrimIsPiece(upto);
    PieceOfPiece(body, upto, Trim(upto), 0);
    PieceOfPiece(tail, body, Trim(upto), 0);
    PieceOfPiece(text, tail, Trim(upto), 0);
  }

  lemma PieceFromLower(text: string, piece: string, low: nat)
    requires PieceFrom(text, piece, low)
    ensures PieceFrom(text, piece, 0)
  {
  }

  lemma RFindFinds(text: string, needle: string)
    requires RFind(text, needle).Some?
    ensures At(text, needle, RFind(text, needle).value)
  {
  }

  /** Where the answer may start: after the newest echo of the prompt, if there is one. */
  ghost function AnswerFloor(current: string, prompt: string): nat {
    if Echoed(current, prompt) then RFind(current, prompt).value + |prompt| else 0
  }

  lemma AfterEchoIsPiece(current: string, prompt: string)
    requires Echoed(current, prompt)
    ensures PieceFrom(current, AfterEcho(current, prompt), AnswerFloor(current, prompt))
  {
    var k := RFind(current, prompt).value + |prompt|;
    RFindFinds(current, prompt);
    hide PieceFrom, RFind;
    SuffixIsPiece(current, k);
    TrimIsPiece(current[k..]);
    PieceOfPiece(current, current[k..], AfterEcho(current, prompt), k);
  }

  lemma FromBaselineIsPiece(base: string, current: string)
    requires FromBaseline(base, current).Some?
    ensures PieceFrom(current, FromBaseline(base, current).value, 0)
  {
    hide PieceFrom, NewestBlock, Trim;
    if NewestBlock(current).Some? {
      BlockIsPiece(current);
    }
    PrefixIsPiece(current, current);
    if base <= current {
      SuffixIsPiece(current, |base|);
      PieceFromLower(current, current[|base|..], |base|);
      TrimIsPiece(current[|base|..]);
      PieceOfPiece(current, current[|base|..], Trim(current[|base|..]), 0);
    }
  }

  /** An answer is always a stretch of what the pane shows, eight characters or more; past the
      newest echo of the prompt if there is one; and never claimed from an unchanged pane. */
  lemma AnswersAreShown(baseline: Option<string>, current: string, prompt: string, source: string)
    requires Extract(baseline, current, prompt, source).Some?
    ensures var r := Extract(baseline, current, prompt, source).value;
            && |r| >= 8 && PieceFrom(current, r, AnswerFloor(current, prompt))
            && source != "none" && baseline != Some(current)
  {
    hide PieceFrom, NewestBlock, Echoed, AfterEcho, FromBaseline;
    PrefixIsPiece(current, current);
    if Echoed(current, prompt) {
      var after := AfterEcho(current, prompt);
      AfterEchoIsPiece(current, prompt);
      if NewestBlock(after).Some? {
        BlockIsPiece(after);
        PieceOfPiece(current, after, NewestBlock(after).value, AnswerFloor(current, prompt));
      }
    } else if baseline.Some? {
      FromBaselineIsPiece(baseline.value, current);
      FromBaselineIsLong(baseline.value, current);
    } else if NewestBlock(current).Some? {
      BlockIsPiece(current);
    }
  }

  lemma FromBaselineIsLong(base: string, current: string)
    requires FromBaseline(base, current).Some?
    ensures |FromBaseline(base, current).value| >= MIN_NEW_CHARS
  {
    hide NewestBlock, Trim;
  }

  // ---- when there is an answer --------------------------------------------------------------------

  /** The newest block counts and is not the baseline's newest. */
  predicate OtherBlock(base: string, current: string) {
    Substantial(NewestBlock(current)).Some? && NewestBlock(base) != NewestBlock(current)
  }

  /** What the code takes for an answer: eight characters after the echo; without an echo, eight
      characters past a baseline that is still there, or another newest block; and eight
      characters of anything once the baseline is no longer there, or there was none. */
  predicate Ready(baseline: Option<string>, current: string, prompt: string, source: string) {
    && source != "none" && Trim(current) != "" && baseline != Some(current)
    && if Echoed(current, prompt) then |AfterEcho(current, prompt)| >= 8
       else if baseline.Some? && baseline.value <= current then
         |Trim(current[|baseline.value|..])| >= 8 || OtherBlock(baseline.value, current)
       else |current| >= 8
  }

  lemma BlockIsNoLonger(text: string)
    ensures Substantial(NewestBlock(text)).Some? ==> |text| >= MIN_NEW_CHARS
  {
    hide NewestBlock;
    if NewestBlock(text).Some? {
      BlockIsPiece(text);
      PieceIsNoLonger(text, NewestBlock(text).value, 0);
    }
  }

  lemma ReadyIff(baseline: Option<string>, current: string, prompt: string, source: string)
    ensures Extract(baseline, current, prompt, source).Some? <==> Ready(baseline, current, prompt, source)
  {
    hide NewestBlock, Trim, Echoed, AfterEcho;
    BlockIsNoLonger(current);
    if Echoed(current, prompt) {
      BlockIsNoLonger(AfterEcho(current, prompt));
    }
  }

  // ---- against the design's rule --------------------------------------------------------------------

  /** `block` is what follows some role marker of `text`. */
  ghost predicate IsBlock(text: string, block: string) {
    exists at :: At(text, ASSISTANT, at) && BlockAt(text, at) == Some(block)
  }

  lemma NewestIsBlock(text: string)
    requires NewestBlock(text).Some?
    ensures IsBlock(text, NewestBlock(text).value)
  {
    RFindFinds(text, ASSISTANT);
    hide RFind, BlockAt, At;
  }

  /** The newest block counts and was not in the baseline, under any marker. */
  ghost predicate NewBlock(base: string, current: string) {
    Substantial(NewestBlock(current)).Some? && !IsBlock(base, NewestBlock(current).value)
  }

  /** What was added to a baseline that is still in front counts. */
  predicate Grown(base: string, current: string) {
    base <= current && |Trim(current[|base|..])| >= 8
  }

  /** The design's rule for a pane that has changed: text of eight characters after the prompt, or
      growth of eight characters past the baseline, or a newest assistant block that was not in the
      baseline. Without a baseline everything is growth. */
  ghost predicate Designed(baseline: Option<string>, current: string, prompt: string) {
    || (Echoed(current, prompt) && |AfterEcho(current, prompt)| >= 8)
    || (match baseline
        case None => |current| >= 8
        case Some(base) => NewBlock(base, current) || Grown(base, current))
  }

  /** The pane differs from its baseline and shows something. */
  predicate Changed(baseline: Option<string>, current: string, source: string) {
    source != "none" && Trim(current) != "" && baseline != Some(current)
  }

  /** The newest block counts, and is one the baseline had further up. */
  ghost predicate EarlierBlock(base: string, current: string) {
    OtherBlock(base, current) && IsBlock(base, NewestBlock(current).value)
  }

  /** The code answers outside the design's rule exactly for a pane that does not show the prompt,
      whose newest block is not new, and that either no longer starts with its baseline and shows
      eight characters, or has hardly grown and now ends in a block the baseline had further up. */
  lemma BeyondDesignIff(baseline: Option<string>, current: string, prompt: string, source: string)
    ensures Ready(baseline, current, prompt, source) && !Designed(baseline, current, prompt)
       <==> && Changed(baseline, current, source) && !Echoed(current, prompt)
            && baseline.Some? && !NewBlock(baseline.value, current)
            && if baseline.value <= current
               then !Grown(baseline.value, current) && EarlierBlock(baseline.value, current)
               else |current| >= 8
  {
    hide NewestBlock, Trim, Echoed, AfterEcho, IsBlock;
  }

  /** And it stays silent against the rule exactly when the prompt is shown with less than eight
      characters after it, whatever else is new. */
  lemma ShortOfDesignIff(baseline: Option<string>, current: string, prompt: string, source: string)
    requires Designed(baseline, current, prompt) && Changed(baseline, current, source)
    ensures !Ready(baseline, current, prompt, source)
       <==> Echoed(current, prompt) && |AfterEcho(current, prompt)| < 8
  {
    if baseline.Some? && NewestBlock(baseline.value).Some? {
      NewestIsBlock(baseline.value);
    }
    BlockIsNoLonger(current);
    hide NewestBlock, Trim, Echoed, AfterEcho, IsBlock;
  }

  // ---- old answers ------------------------------------------------------------------------------------

  /** Prompt shown: what follows its newest echo ends in the old block, or has no block of its own
      and is the old one to the letter. The echo may itself be an old one. */
  predicate StaleEcho(was: string, current: string, prompt: string) {
    Echoed(current, prompt) &&
    var after := AfterEcho(current, prompt);
    if Substantial(NewestBlock(after)).Some? then NewestBlock(after) == Some(was) else after == was
  }

  /** Prompt not shown: the old block is the newest now. A block that was the newest already counts
      only if the baseline is gone. */
  predicate StaleNewest(was: string, base: string, current: string, prompt: string) {
    && !Echoed(current, prompt) && NewestBlock(current) == Some(was)
    && !(base <= current && NewestBlock(base) == Some(was))
  }

  /** Prompt not shown, no other newest block: what is taken for text, all that was added to the
      baseline or all that is shown, is the old block to the letter. */
  predicate StaleText(was: string, base: string, current: string, prompt: string) {
    && !Echoed(current, prompt) && !OtherBlock(base, current)
    && if base <= current then Trim(current[|base|..]) == was
       else Substantial(NewestBlock(current)).None? && current == was
  }

  /** The answer given is an assistant block the pane showed before the prompt was sent, under
      whatever marker, exactly in these three cases. */
  lemma OldBlockReturnedIff(base: string, current: string, prompt: string, source: string, was: string)
    ensures IsBlock(base, was) && Extract(Some(base), current, prompt, source) == Some(was)
       <==> && IsBlock(base, was) && Changed(Some(base), current, source) && |was| >= 8
            && (|| StaleEcho(was, current, prompt)
                || StaleNewest(was, base, current, prompt)
                || StaleText(was, base, current, prompt))
  {
    hide NewestBlock, Trim, Echoed, AfterEcho, IsBlock;
  }

  // ---- panes that are credited with an old answer ------------------------------------------------------

  predicate Blank(s: string) {
    forall i :: 0 <= i < |s| ==> IsSpace(s[i])
  }

  lemma {:induction false} TrimStartSkips(lead: string, rest: string)
    requires Blank(lead) && rest != "" && !IsSpace(rest[0])
    ensures TrimStart(lead + rest) == rest
  {
    if lead == "" {
      assert lead + rest == rest;
    } else {
      assert (lead + rest)[1..] == lead[1..] + rest;
      TrimStartSkips(lead[1..], rest);
    }
  }

  lemma {:induction false} TrimEndSkips(rest: string, trail: string)
    requires Blank(trail) && rest != "" && !IsSpace(rest[|rest| - 1])
    ensures TrimEnd(rest + trail) == rest
  {
    if trail == "" {
      assert rest + trail == rest;
    } else {
      var n := |trail| - 1;
      assert (rest + trail)[..|rest| + n] == rest + trail[..n];
      TrimEndSkips(rest, trail[..n]);
    }
  }

  /** A text that starts and ends with something visible. */
  predicate Visible(s: string) {
    s != "" && !IsSpace(s[0]) && !IsSpace(s[|s| - 1])
  }

  lemma TrimsTo(lead: string, core: string, trail: string)
    requires Blank(lead) && Blank(trail) && Visible(core)
    ensures Trim(lead + core + trail) == core
  {
    assert lead + core + trail == lead + (core + trail);
    TrimStartSkips(lead, core + trail);
    TrimEndSkips(core, trail);
  }

  lemma {:induction false} NothingUpTo(text: string, mark: string, i: nat)
    requires i <= |text| && mark != "" && mark[0] !in text
    ensures UpTo(text, mark, i) == text
    decreases |text| - i
  {
    if i == |text| {
      assert text[..i] == text;
    } else {
      NotAt(text, mark, i);
      NothingUpTo(text, mark, i + 1);
    }
  }

  lemma NotAt(text: string, needle: string, i: nat)
    requires needle != "" && (i < |text| ==> text[i] != needle[0])
    ensures !At(text, needle, i)
  {
    assert i + |needle| <= |text| ==> text[i..i + |needle|][0] == text[i];
  }

  lemma RFindIs(front: string, needle: string, rest: string)
    requires needle != "" && needle[0] !in needle[1..] && needle[0] !in rest
    ensures RFind(front + needle + rest, needle) == Some(|front|)
  {
    var text := front + needle + rest;
    assert At(text, needle, |front|) by {
      assert text[|front|..|front| + |needle|] == needle;
    }
    forall i | |front| < i <= |text|
      ensures !At(text, needle, i)
    {
      if i < |front| + |needle| {
        assert text[i] == needle[1..][i - |front| - 1];
      } else if i < |text| {
        assert text[i] == rest[i - |front| - |needle|];
      }
      NotAt(text, needle, i);
    }
    hide At;
  }

  lemma NoRFind(text: string, needle: string)
    requires needle != "" && needle[0] !in text
    ensures RFind(text, needle) == None
  {
    forall i | 0 <= i <= |text|
      ensures !At(text, needle, i)
    {
      NotAt(text, needle, i);
    }
  }

  /** The newest block of a transcript whose last role marker is an assistant's. */
  lemma BlockOfTranscript(front: string, lead: string, core: string, trail: string)
    requires Blank(lead) && Blank(trail) && Visible(core) && '[' !in lead + core + trail && '\n' !in core
    ensures NewestBlock(front + ASSISTANT + (lead + core + trail)) == Some(core)
  {
    var rest := lead + core + trail;
    var text := front + ASSISTANT + rest;
    RFindIs(front, ASSISTANT, rest);
    assert text[|front| + |ASSISTANT|..] == rest;
    TrimsTo(lead, core, trail);
    NothingUpTo(core, "\n[user]", 0);
    NothingUpTo(core, "\n[assistant]", 0);
    assert core == "" + core + "";
    TrimsTo("", core, "");
    hide RFind, Trim, UpTo;
  }

  lemma TranscriptTrims(gap: string, lead: string, core: string, trail: string)
    requires Blank(gap) && Blank(trail) && Visible(core)
    ensures Trim(gap + ASSISTANT + (lead + core) + trail) == ASSISTANT + (lead + core)
  {
    var shown := ASSISTANT + (lead + core);
    assert shown[0] == '[' && shown[|shown| - 1] == core[|core| - 1];
    assert gap + ASSISTANT + (lead + core) + trail == gap + shown + trail;
    TrimsTo(gap, shown, trail);
  }

  lemma TranscriptBlock(front: string, lead: string, core: string, trail: string)
    requires Blank(lead) && Blank(trail) && Visible(core) && '[' !in core && '\n' !in core
    ensures NewestBlock(front + ASSISTANT + (lead + core) + trail) == Some(core)
  {
    assert front + ASSISTANT + (lead + core) + trail == front + ASSISTANT + (lead + core + trail);
    BlockOfTranscript(front, lead, core, trail);
  }

  lemma OldEchoFound(prompt: string, rest: string, current: string)
    requires prompt != "" && prompt[0] !in prompt[1..] && prompt[0] !in rest && current == prompt + rest
    ensures Echoed(current, prompt) && AfterEcho(current, prompt) == Trim(rest)
  {
    RFindIs("", prompt, rest);
    assert current == "" + prompt + rest && current[|prompt|..] == rest;
    hide RFind, Trim;
  }

  /** A pane that still shows an earlier exchange with the same prompt, and since then blanks
      more: the old echo is found, and the old answer after it is given again. */
  lemma OldEchoReturnsOldAnswer(prompt: string, gap: string, lead: string, core: string, trail: string, source: string)
    requires Blank(gap) && Blank(lead) && Blank(trail) && trail != "" && source != "none"
    requires Visible(core) && |core| >= MIN_NEW_CHARS && '[' !in core && '\n' !in core
    requires prompt != "" && prompt[0] !in prompt[1..] && prompt[0] !in gap + ASSISTANT + (lead + core) + trail
    ensures var base := prompt + gap + ASSISTANT + (lead + core);
            NewestBlock(base) == Some(core) && Extract(Some(base), base + trail, prompt, source) == Some(core)
  {
    hide NewestBlock, Trim, Echoed, AfterEcho, Blank, Visible;
    var base := prompt + gap + ASSISTANT + (lead + core);
    var rest := gap + ASSISTANT + (lead + core) + trail;
    assert base + trail == prompt + rest;
    OldEchoFound(prompt, rest, base + trail);
    TranscriptTrims(gap, lead, core, trail);
    TranscriptBlock(prompt + gap, lead, core, "");
    TranscriptBlock("", lead, core, "");
    assert base + "" == base && "" + ASSISTANT + (lead + core) + "" == ASSISTANT + (lead + core);
    VisibleInside(base + trail, core, trail);
  }

  /** A pane whose front has changed and which does not show the prompt: the old answer is given. */
  lemma RewriteReturnsOldAnswer(front: string, now: string, lead: string, core: string, prompt: string, source: string)
    requires Blank(lead) && Visible(core) && |core| >= MIN_NEW_CHARS && '[' !in core && '\n' !in core
    requires source != "none" && prompt != "" && prompt[0] !in now + ASSISTANT + (lead + core)
    requires |front| == |now| && front != now
    ensures var base, current := front + ASSISTANT + (lead + core), now + ASSISTANT + (lead + core);
            NewestBlock(base) == Some(core) && Extract(Some(base), current, prompt, source) == Some(core)
  {
    hide NewestBlock, Trim, Echoed, AfterEcho, Blank, Visible;
    var base, current := front + ASSISTANT + (lead + core), now + ASSISTANT + (lead + core);
    TranscriptBlock(front, lead, core, "");
    TranscriptBlock(now, lead, core, "");
    assert base + "" == base && current + "" == current;
    NotShown(current, prompt);
    VisibleInside(current, core, "");
    assert base == front + (ASSISTANT + (lead + core)) && current == now + (ASSISTANT + (lead + core));
    NotInFront(front, now, ASSISTANT + (lead + core), base, current);
  }

  lemma NotShown(text: string, prompt: string)
    requires prompt != "" && prompt[0] !in text
    ensures !Echoed(text, prompt)
  {
    NoRFind(text, prompt);
    hide RFind;
  }

  lemma NotInFront(front: string, now: string, rest: string, base: string, current: string)
    requires |front| == |now| && front != now && base == front + rest && current == now + rest
    ensures !(base <= current)
  {
    assert base[..|front|] == front && current[..|front|] == now;
  }

  /** A text that ends in something visible and blanks is not blank. */
  lemma VisibleInside(text: string, core: string, trail: string)
    requires Visible(core) && |core| + |trail| <= |text| && text[|text| - |core| - |trail|..] == core + trail
    ensures Trim(text) != ""
  {
    var at := |text| - |core| - |trail|;
    assert text[at] == (core + trail)[0];
    TrimStartStops(text, at);
    var kept := TrimStart(text);
    TrimEndStops(kept, 0);
  }

  lemma {:induction false} TrimStartStops(s: string, at: nat)
    requires at < |s| && !IsSpace(s[at])
    ensures TrimStart(s) != "" && !IsSpace(TrimStart(s)[0])
  {
    if IsSpace(s[0]) {
      TrimStartStops(s[1..], at - 1);
    }
  }

  lemma {:induction false} TrimEndStops(s: string, at: nat)
    requires at < |s| && !IsSpace(s[at])
    ensures TrimEnd(s) != ""
  {
    if IsSpace(s[|s| - 1]) {
      TrimEndStops(s[..|s| - 1], at);
    }
  }

  lemma {:induction false} NoMarkUpTo(text: string, mark: string, i: nat)
    requires i <= |text| && forall j :: i <= j < |text| ==> !At(text, mark, j)
    ensures UpTo(text, mark, i) == text
    decreases |text| - i
  {
    if i == |text| {
      assert text[..i] == text;
    } else {
      NoMarkUpTo(text, mark, i + 1);
    }
  }

  lemma {:induction false} UpToMark(front: string, mark: string, rest: string, i: nat)
    requires i <= |front| && mark != "" && mark[0] !in front
    ensures UpTo(front + mark + rest, mark, i) == front
    decreases |front| - i
  {
    var text := front + mark + rest;
    if i == |front| {
      assert text[i..i + |mark|] == mark && text[..i] == front;
    } else {
      assert text[i] == front[i];
      NotAt(text, mark, i);
      UpToMark(front, mark, rest, i + 1);
    }
  }

  /** A user's turn ends the answer before it. */
  lemma UserEndsBlock(front: string, lead: string, core: string, trail: string, rest: string)
    requires Blank(lead) && Blank(trail) && Visible(core) && Visible(core + trail + "\n[user]" + rest)
    requires '[' !in lead + core + trail && '\n' !in core + trail && ASSISTANT[0] !in rest && '\n' !in rest
    ensures NewestBlock(front + ASSISTANT + (lead + (core + trail + "\n[user]" + rest))) == Some(core)
  {
    var mark := "\n[user]";
    var kept := core + trail;
    var body := kept + mark + rest;
    var text := front + ASSISTANT + (lead + body);
    LastMarker(front, lead + kept, rest);
    assert lead + kept + mark + rest == lead + body;
    assert text[|front| + |ASSISTANT|..] == lead + body;
    assert lead + body + "" == lead + body && "" + core + trail == kept;
    TrimsTo(lead, body, "");
    UpToMark(kept, mark, rest, 0);
    NothingUpTo(kept, "\n[assistant]", 0);
    TrimsTo("", core, trail);
    hide RFind, Trim, UpTo, Blank, Visible;
  }

  /** A user marker is no assistant marker. */
  lemma LastMarker(front: string, kept: string, rest: string)
    requires '[' !in kept && '[' !in rest
    ensures RFind(front + ASSISTANT + (kept + "\n[user]" + rest), ASSISTANT) == Some(|front|)
  {
    var mark := "\n[user]";
    var tail := kept + mark + rest;
    var text := front + ASSISTANT + tail;
    assert At(text, ASSISTANT, |front|) by {
      assert text[|front|..|front| + |ASSISTANT|] == ASSISTANT;
    }
    forall i | |front| < i <= |text|
      ensures !At(text, ASSISTANT, i)
    {
      var k := i - |front| - |ASSISTANT|;
      if i < |front| + |ASSISTANT| {
        assert text[i] == ASSISTANT[i - |front|];
        NotAt(text, ASSISTANT, i);
      } else if k == |kept| + 1 {
        assert text[i + 1] == tail[k + 1] == 'u';
        assert i + |ASSISTANT| <= |text| ==> text[i..i + |ASSISTANT|][1] == text[i + 1];
      } else if i < |text| {
        assert text[i] == tail[k];
        assert tail[k] == if k < |kept| then kept[k]
                          else if k < |kept| + |mark| then mark[k - |kept|] else rest[k - |kept| - |mark|];
        NotAt(text, ASSISTANT, i);
      }
    }
    hide At;
  }

  lemma NoUserMark(first: string, rest: string, j: nat)
    requires '\n' !in first && '\n' !in rest
    ensures !At(first + "\n[assistant]" + rest, "\n[user]", j)
  {
    var mark := "\n[assistant]";
    var body := first + mark + rest;
    if j == |first| {
      assert |body| >= j + 3 && body[j + 2] == mark[2];
      assert j + 7 <= |body| ==> body[j..j + 7][2] == body[j + 2];
    } else if j < |body| {
      assert body[j] == if j < |first| then first[j]
                        else if j < |first| + |mark| then mark[j - |first|] else rest[j - |first| - |mark|];
      NotAt(body, "\n[user]", j);
    }
  }

  /** What is read under the first of two assistant markers. */
  lemma FirstBody(lead: string, first: string, second: string)
    requires Blank(lead) && Visible(first) && Visible(second)
    requires '\n' !in first && '\n' !in lead + second
    ensures var mark := "\n[assistant]";
            var body := first + mark + (lead + second);
            && Trim(lead + body) == body && UpTo(body, "\n[user]", 0) == body
            && UpTo(body, mark, 0) == first && Trim(first) == first
  {
    var mark := "\n[assistant]";
    var body := first + mark + (lead + second);
    assert body[0] == first[0] && body[|body| - 1] == second[|second| - 1];
    assert lead + body + "" == lead + body && "" + first + "" == first;
    TrimsTo(lead, body, "");
    TrimsTo("", first, "");
    forall j | 0 <= j < |body|
      ensures !At(body, "\n[user]", j)
    {
      NoUserMark(first, lead + second, j);
    }
    NoMarkUpTo(body, "\n[user]", 0);
    UpToMark(first, mark, lead + second, 0);
  }

  /** The first of two answers is a block as well. */
  lemma FirstOfTwo(lead: string, first: string, second: string)
    requires Blank(lead) && Visible(first) && Visible(second)
    requires '\n' !in first && '\n' !in lead + second
    ensures IsBlock(ASSISTANT + (lead + first) + "\n" + ASSISTANT + (lead + second), first)
  {
    var text := ASSISTANT + (lead + first) + "\n" + ASSISTANT + (lead + second);
    var mark := "\n[assistant]";
    var body := first + mark + (lead + second);
    assert "\n" + ASSISTANT == mark;
    assert text == ASSISTANT + (lead + body);
    assert text[..|ASSISTANT|] == ASSISTANT && text[|ASSISTANT|..] == lead + body;
    assert At(text, ASSISTANT, 0);
    FirstBody(lead, first, second);
    hide Trim, UpTo, At, Blank, Visible;
    assert BlockAt(text, 0) == Some(first);
  }

  /** Both answers are shown by the one pane, and the first by the other. */
  lemma TwoAnswersThenOne(lead: string, first: string, second: string)
    requires Blank(lead) && Visible(first) && Visible(second)
    requires '[' !in first && '[' !in second && '\n' !in first && '\n' !in lead + second
    ensures var current := ASSISTANT + (lead + first);
            var base := current + "\n" + ASSISTANT + (lead + second);
            && IsBlock(base, first) && NewestBlock(base) == Some(second)
            && NewestBlock(current) == Some(first) && Trim(current) != ""
  {
    hide NewestBlock, Trim, IsBlock, Blank, Visible;
    var current := ASSISTANT + (lead + first);
    var base := current + "\n" + ASSISTANT + (lead + second);
    FirstOfTwo(lead, first, second);
    TranscriptBlock("", lead, first, "");
    assert "" + ASSISTANT + (lead + first) + "" == current;
    TranscriptBlock(current + "\n", lead, second, "");
    assert current + "\n" + ASSISTANT + (lead + second) + "" == base;
    VisibleInside(current, first, "");
  }

  /** A pane that no longer shows its newest block, nor the prompt, is credited with its earlier one. */
  lemma ShorterPaneReturnsEarlier(base: string, current: string, first: string, second: string,
                                  prompt: string, source: string)
    requires IsBlock(base, first) && NewestBlock(base) == Some(second) && first != second
    requires NewestBlock(current) == Some(first) && |first| >= MIN_NEW_CHARS
    requires |current| < |base| && Trim(current) != "" && !Echoed(current, prompt) && source != "none"
    ensures Extract(Some(base), current, prompt, source) == Some(first) && !Designed(Some(base), current, prompt)
  {
    hide NewestBlock, Trim, Echoed, AfterEcho, IsBlock;
  }

  /** A pane that has lost its newest block and does not show the prompt: the block before it is
      given, which the design's rule does not ask for. */
  lemma LostBlockReturnsEarlier(lead: string, first: string, second: string, prompt: string, source: string)
    requires Blank(lead) && Visible(first) && Visible(second) && first != second
    requires '[' !in first && '[' !in second && '\n' !in first && '\n' !in lead + second
    requires |first| >= MIN_NEW_CHARS && source != "none"
    requires prompt != "" && prompt[0] !in ASSISTANT + (lead + first)
    ensures var current := ASSISTANT + (lead + first);
            var base := current + "\n" + ASSISTANT + (lead + second);
            && IsBlock(base, first) && NewestBlock(base) == Some(second)
            && Extract(Some(base), current, prompt, source) == Some(first)
            && !Designed(Some(base), current, prompt)
  {
    hide NewestBlock, Trim, Extract, Designed, Echoed, AfterEcho, IsBlock, Blank, Visible;
    var current := ASSISTANT + (lead + first);
    var base := current + "\n" + ASSISTANT + (lead + second);
    TwoAnswersThenOne(lead, first, second);
    NotShown(current, prompt);
    assert |current| < |base|;
    ShorterPaneReturnsEarlier(base, current, first, second, prompt, source);
  }

  const OLD := "old answer"

  lemma OldIsPlain()
    ensures Visible(OLD) && |OLD| >= MIN_NEW_CHARS && '[' !in OLD && '\n' !in OLD
    ensures 'h' !in "\n" + ASSISTANT + (" " + OLD) + " " && 'h' !in "b" + ASSISTANT + (" " + OLD)
  {
  }

  /** Both panes as they could be: after the prompt "hi", one that only has a blank more than when
      "hi" was last answered, and one that has lost its first character. */
  lemma OldAnswersReturned()
    ensures var base := "hi" + "\n" + ASSISTANT + (" " + OLD);
            && NewestBlock(base) == Some(OLD)
            && Extract(Some(base), base + " ", "hi", "live_scrollback") == Some(OLD)
    ensures var base, current := "a" + ASSISTANT + (" " + OLD), "b" + ASSISTANT + (" " + OLD);
            && NewestBlock(base) == Some(OLD)
            && Extract(Some(base), current, "hi", "live_scrollback") == Some(OLD)
  {
    OldIsPlain();
    hide NewestBlock, Extract;
    OldEchoReturnsOldAnswer("hi", "\n", " ", OLD, " ", "live_scrollback");
    RewriteReturnsOldAnswer("a", "b", " ", OLD, "hi", "live_scrollback");
  }

  const LATER := "later one"

  lemma LaterIsPlain()
    ensures Visible(LATER) && '[' !in LATER && '\n' !in LATER && '\n' !in " " + LATER
    ensures 'h' !in ASSISTANT + (" " + OLD)
  {
  }

  /** And one that has lost the newer of two answers, and is credited with the older one. */
  lemma EarlierAnswerReturned()
    ensures var current := ASSISTANT + (" " + OLD);
            var base := current + "\n" + ASSISTANT + (" " + LATER);
            && IsBlock(base, OLD) && NewestBlock(base) == Some(LATER)
            && Extract(Some(base), current, "hi", "live_scrollback") == Some(OLD)
            && !Designed(Some(base), current, "hi")
  {
    OldIsPlain();
    LaterIsPlain();
    hide NewestBlock, Extract, Designed, IsBlock;
    LostBlockReturnsEarlier(" ", OLD, LATER, "hi", "live_scrollback");
  }

  // ---- the design's rule at two panes -------------------------------------------------------------------

  lemma ClearedPane(base: string, current: string, prompt: string, source: string)
    requires ASSISTANT[0] !in current && prompt != "" && prompt[0] !in current && source != "none"
    requires |current| >= MIN_NEW_CHARS && Visible(current) && !(base <= current)
    ensures Extract(Some(base), current, prompt, source) == Some(current)
    ensures !Designed(Some(base), current, prompt)
  {
    NoRFind(current, ASSISTANT);
    NotShown(current, prompt);
    VisibleInside(current, current, "");
    hide Trim, RFind, Echoed, AfterEcho, IsBlock, Visible;
  }

  const CLEARED := "compiled"

  lemma ClearedIsPlain()
    ensures ASSISTANT[0] !in CLEARED && 'h' !in CLEARED && |CLEARED| >= MIN_NEW_CHARS && Visible(CLEARED)
    ensures !("make" <= CLEARED)
  {
    assert CLEARED[0] == 'c';
  }

  /** A pane that was cleared and now shows eight characters of anything has answered, outside the
      design's rule. */
  lemma ClearedPaneAnswers()
    ensures Extract(Some("make"), CLEARED, "hi", "live_scrollback") == Some(CLEARED)
    ensures !Designed(Some("make"), CLEARED, "hi")
  {
    ClearedIsPlain();
    hide Extract, Designed, Visible;
    ClearedPane("make", CLEARED, "hi", "live_scrollback");
  }

  lemma PromptAtTheEnd(base: string, added: string, prompt: string, source: string)
    requires prompt != "" && prompt[0] !in prompt[1..]
    requires Visible(added + prompt) && |added + prompt| >= MIN_NEW_CHARS
    ensures var current := base + added + prompt;
            Designed(Some(base), current, prompt) && Extract(Some(base), current, prompt, source) == None
  {
    var grown := added + prompt;
    var current := base + added + prompt;
    assert current == base + grown && current[|base|..] == grown;
    assert "" + grown + "" == grown;
    TrimsTo("", grown, "");
    RFindIs(base + added, prompt, "");
    assert base + added + prompt + "" == current && current[|base + added| + |prompt|..] == "";
    NoRFind("", ASSISTANT);
    hide RFind, IsBlock, Visible;
  }

  const COMPILED := "compiled, "

  lemma CompiledIsPlain()
    ensures Visible(COMPILED + "hi") && |COMPILED + "hi"| >= MIN_NEW_CHARS
  {
    assert (COMPILED + "hi")[0] == 'c';
  }

  /** A pane that has grown by a line and ends in the prompt has not, although the rule is met. */
  lemma PromptAtTheEndIsSilent()
    ensures var current := "> " + COMPILED + "hi";
            && Designed(Some("> "), current, "hi")
            && Extract(Some("> "), current, "hi", "live_scrollback") == None
  {
    CompiledIsPlain();
    hide Extract, Designed, Visible;
    PromptAtTheEnd("> ", COMPILED, "hi", "live_scrollback");
  }
}
