/** One-word display labels of the memory graph (app/src/graph-core.js): `labelWords` and
    `assignShortLabels`. Text is a sequence of UTF-16 code units, as in the source; its Unicode
    lower-casing is a parameter. */
module Labels {
  import opened Wrappers

  type CodeUnit = c: int | 0 <= c < 0x1_0000
  type Text = seq<CodeUnit>

  const LABEL_MAX_CHARS := 14

  const STOPWORDS: seq<string> := [
    "the", "a", "an", "this", "that", "these", "those", "of", "in", "on", "for",
    "to", "and", "or", "is", "are", "was", "be", "so", "its", "it", "as", "with",
    "can", "if", "not", "no", "use", "make", "how", "why", "what", "when"]

  predicate Spells(w: Text, s: string) {
    |w| == |s| && forall i :: 0 <= i < |w| ==> w[i] == s[i] as int
  }

  predicate IsStopword(w: Text) {
    exists k :: 0 <= k < |STOPWORDS| && Spells(w, STOPWORDS[k])
  }

  const NOTE: Text := [110, 111, 116, 101]

  // ---- labelWords -------------------------------------------------------------------------

  predicate IsSpace(c: CodeUnit) {
    9 <= c <= 13 || c == 32 || c == 0xA0 || c == 0x1680 || 0x2000 <= c <= 0x200A
    || c == 0x2028 || c == 0x2029 || c == 0x202F || c == 0x205F || c == 0x3000 || c == 0xFEFF
  }

  /** White space, a slash, or one of the three dashes. */
  predicate IsSeparator(c: CodeUnit) {
    IsSpace(c) || c == '/' as int || c == 0x2014 || c == 0x2013 || c == '-' as int
  }

  const PUNCTUATION := "`'\".,:;!?()[]{}<>*#=+|~^$%&@\\"

  predicate IsPunctuation(c: CodeUnit) {
    exists k :: 0 <= k < |PUNCTUATION| && PUNCTUATION[k] as int == c
  }

  function Clean(t: Text): (r: Text)
    ensures |r| == |t|
  {
    seq(|t|, i requires 0 <= i < |t| => if IsPunctuation(t[i]) then 32 else t[i])
  }

  function RunLength(t: Text): (n: nat)
    ensures n <= |t| && (n < |t| ==> IsSeparator(t[n]))
    ensures forall i :: 0 <= i < n ==> !IsSeparator(t[i])
  {
    if t == [] || IsSeparator(t[0]) then 0 else 1 + RunLength(t[1..])
  }

  /** The maximal stretches without a separator, in order. */
  function Runs(t: Text): seq<Text>
    decreases |t|
  {
    if t == [] then []
    else if IsSeparator(t[0]) then Runs(t[1..])
    else [t[..RunLength(t)]] + Runs(t[RunLength(t)..])
  }

  predicate IsWord(w: Text) {
    |w| >= 2 && exists i :: 0 <= i < |w| && ('a' as int <= w[i] <= 'z' as int || '0' as int <= w[i] <= '9' as int)
  }

  function Filter(ws: seq<Text>): seq<Text> {
    if ws == [] then [] else (if IsWord(ws[0]) then [ws[0]] else []) + Filter(ws[1..])
  }

  function LabelWords(title: Text, lower: Text -> Text): seq<Text> {
    Filter(Runs(Clean(lower(title))))
  }

  /** Where a word sits in the cleaned title: with separators, or the ends, on both sides. */
  ghost predicate Stands(t: Text, w: Text, at: nat) {
    && at + |w| <= |t| && t[at..at + |w|] == w
    && (at > 0 ==> IsSeparator(t[at - 1])) && (at + |w| < |t| ==> IsSeparator(t[at + |w|]))
  }

  lemma StandsLater(t: Text, d: nat, w: Text, at: nat)
    requires d <= |t| && Stands(t[d..], w, at) && (at > 0 || d == 0 || IsSeparator(t[d - 1]))
    ensures Stands(t, w, at + d)
  {
    forall k | 0 <= k < |w|
      ensures t[at + d + k] == w[k]
    {
      assert t[d..][at..at + |w|][k] == w[k];
    }
    assert t[at + d..at + d + |w|] == w;
  }

  lemma StandsEarlier(t: Text, d: nat, w: Text, at: nat)
    requires Stands(t, w, at) && d <= at
    ensures Stands(t[d..], w, at - d)
  {
    forall k | 0 <= k < |w|
      ensures t[d..][at - d + k] == w[k]
    {
      assert t[at..at + |w|][k] == w[k];
    }
    assert t[d..][at - d..at - d + |w|] == w;
  }

  /** Not empty, and without a separator. */
  predicate Unbroken(w: Text) {
    w != [] && forall i :: 0 <= i < |w| ==> !IsSeparator(w[i])
  }

  ghost function Shifted(ats: seq<nat>, d: nat): (r: seq<nat>)
    ensures |r| == |ats| && forall k :: 0 <= k < |ats| ==> r[k] == ats[k] + d
  {
    seq(|ats|, k requires 0 <= k < |ats| => ats[k] + d)
  }

  /** Where the runs start. */
  ghost function Starts(t: Text): (r: seq<nat>)
    ensures |r| == |Runs(t)|
    decreases |t|
  {
    if t == [] then []
    else if IsSeparator(t[0]) then Shifted(Starts(t[1..]), 1)
    else [0] + Shifted(Starts(t[RunLength(t)..]), RunLength(t))
  }

  /** The words stand at these places, one after the other. */
  ghost predicate Placed(t: Text, ws: seq<Text>, ats: seq<nat>) {
    && |ats| == |ws|
    && (forall k :: 0 <= k < |ws| ==> Unbroken(ws[k]) && Stands(t, ws[k], ats[k]))
    && (forall j, k :: 0 <= j < k < |ws| ==> ats[j] + |ws[j]| < ats[k])
  }

  /** The word and its place are in the list. */
  ghost predicate Listed(ws: seq<Text>, ats: seq<nat>, w: Text, at: nat)
    requires |ats| == |ws|
  {
    exists k :: 0 <= k < |ws| && ws[k] == w && ats[k] == at
  }

  lemma StartIsVisible(t: Text, w: Text, at: nat)
    requires Stands(t, w, at) && Unbroken(w)
    ensures at < |t| && !IsSeparator(t[at])
  {
    assert t[at..at + |w|][0] == t[at];
  }

  /** The words of the rest of a text, where the rest starts after a separator, or at one. */
  lemma PlacedLater(t: Text, d: nat, ws: seq<Text>, ats: seq<nat>)
    requires 0 < d <= |t| && Placed(t[d..], ws, ats)
    requires IsSeparator(t[d - 1]) || (d < |t| ==> IsSeparator(t[d]))
    ensures Placed(t, ws, Shifted(ats, d))
    ensures IsSeparator(t[d - 1]) || forall k :: 0 <= k < |ats| ==> ats[k] > 0
  {
    forall k | 0 <= k < |ws|
      ensures Stands(t, ws[k], ats[k] + d) && (IsSeparator(t[d - 1]) || ats[k] > 0)
    {
      StartIsVisible(t[d..], ws[k], ats[k]);
      StandsLater(t, d, ws[k], ats[k]);
    }
    hide Stands, Unbroken, IsSeparator;
  }

  lemma FirstRun(t: Text)
    requires t != [] && !IsSeparator(t[0])
    ensures var n := RunLength(t);
            && n > 0 && Unbroken(t[..n]) && Stands(t, t[..n], 0)
            && !IsSeparator(t[n - 1]) && (n < |t| ==> IsSeparator(t[n]))
  {
  }

  lemma {:induction false} RunsPlaced(t: Text)
    ensures Placed(t, Runs(t), Starts(t))
    decreases |t|
  {
    hide Stands, Unbroken, IsSeparator, Shifted;
    if t != [] && IsSeparator(t[0]) {
      RunsPlaced(t[1..]);
      PlacedLater(t, 1, Runs(t[1..]), Starts(t[1..]));
    } else if t != [] {
      var n := RunLength(t);
      FirstRun(t);
      RunsPlaced(t[n..]);
      PlacedLater(t, n, Runs(t[n..]), Starts(t[n..]));
      PlacedFirst(t, t[..n], 0, Runs(t[n..]), Shifted(Starts(t[n..]), n));
    }
  }

  lemma PlacedFirst(t: Text, w: Text, at: nat, ws: seq<Text>, ats: seq<nat>)
    requires Unbroken(w) && Stands(t, w, at) && Placed(t, ws, ats)
    requires forall k :: 0 <= k < |ats| ==> at + |w| < ats[k]
    ensures Placed(t, [w] + ws, [at] + ats)
  {
    hide Stands, Unbroken;
  }

  lemma ListedLater(ws: seq<Text>, ats: seq<nat>, w: Text, at: nat, d: nat, first: Text)
    requires |ats| == |ws| && Listed(ws, ats, w, at)
    ensures Listed(ws, Shifted(ats, d), w, at + d) && Listed([first] + ws, [0] + Shifted(ats, d), w, at + d)
  {
    var k :| 0 <= k < |ws| && ws[k] == w && ats[k] == at;
    assert Shifted(ats, d)[k] == at + d;
    assert ([first] + ws)[k + 1] == w && ([0] + Shifted(ats, d))[k + 1] == at + d;
  }

  /** A run starts wherever an unbroken word stands. */
  lemma {:induction false} RunsFindAll(t: Text, w: Text, at: nat)
    requires Stands(t, w, at) && Unbroken(w)
    ensures Listed(Runs(t), Starts(t), w, at)
    decreases |t|
  {
    var n := RunLength(t);
    StartIsVisible(t, w, at);
    if IsSeparator(t[0]) {
      StandsEarlier(t, 1, w, at);
      RunsFindAll(t[1..], w, at - 1);
      ListedLater(Runs(t[1..]), Starts(t[1..]), w, at - 1, 1, []);
    } else if at == 0 {
      assert forall i :: 0 <= i < |w| ==> t[i] == w[i];
      assert |w| == n && w == t[..n];
      assert Runs(t)[0] == w && Starts(t)[0] == 0;
    } else {
      assert n < at;
      StandsEarlier(t, n, w, at);
      RunsFindAll(t[n..], w, at - n);
      ListedLater(Runs(t[n..]), Starts(t[n..]), w, at - n, n, t[..n]);
    }
  }

  /** Where the words that stay start. */
  ghost function FilteredStarts(ws: seq<Text>, ats: seq<nat>): (r: seq<nat>)
    requires |ats| == |ws|
    ensures |r| == |Filter(ws)|
  {
    if ws == [] then []
    else (if IsWord(ws[0]) then [ats[0]] else []) + FilteredStarts(ws[1..], ats[1..])
  }

  lemma {:induction false} FilterFinds(ws: seq<Text>, ats: seq<nat>, w: Text, at: nat)
    requires |ats| == |ws|
    ensures Listed(Filter(ws), FilteredStarts(ws, ats), w, at) <==> Listed(ws, ats, w, at) && IsWord(w)
  {
    hide IsWord;
    if ws != [] {
      FilterFinds(ws[1..], ats[1..], w, at);
      ListedCons(ws[0], ws[1..], ats[0], ats[1..], w, at);
      ListedCons(ws[0], Filter(ws[1..]), ats[0], FilteredStarts(ws[1..], ats[1..]), w, at);
      assert [ws[0]] + ws[1..] == ws && [ats[0]] + ats[1..] == ats;
      assert [] + Filter(ws[1..]) == Filter(ws[1..]);
      assert [] + FilteredStarts(ws[1..], ats[1..]) == FilteredStarts(ws[1..], ats[1..]);
      hide Listed;
    }
  }

  lemma ListedCons(first: Text, ws: seq<Text>, i: nat, ats: seq<nat>, w: Text, at: nat)
    requires |ats| == |ws|
    ensures Listed([first] + ws, [i] + ats, w, at) <==> (first == w && i == at) || Listed(ws, ats, w, at)
  {
    if first == w && i == at {
      assert ([first] + ws)[0] == w;
    }
    if Listed(ws, ats, w, at) {
      var k :| 0 <= k < |ws| && ws[k] == w && ats[k] == at;
      assert ([first] + ws)[k + 1] == w;
    }
  }

  lemma PlacedRest(t: Text, ws: seq<Text>, ats: seq<nat>)
    requires ws != [] && Placed(t, ws, ats)
    ensures Unbroken(ws[0]) && Stands(t, ws[0], ats[0]) && Placed(t, ws[1..], ats[1..])
    ensures forall w, at :: Listed(ws[1..], ats[1..], w, at) ==> ats[0] + |ws[0]| < at
  {
    hide Stands, Unbroken;
  }

  lemma {:induction false} FilterKeepsOrder(t: Text, ws: seq<Text>, ats: seq<nat>)
    requires Placed(t, ws, ats)
    ensures Placed(t, Filter(ws), FilteredStarts(ws, ats))
  {
    if ws != [] {
      PlacedRest(t, ws, ats);
      FilterKeepsOrder(t, ws[1..], ats[1..]);
      var ws', ats' := Filter(ws[1..]), FilteredStarts(ws[1..], ats[1..]);
      forall k | 0 <= k < |ws'|
        ensures ats[0] + |ws[0]| < ats'[k]
      {
        FilterFinds(ws[1..], ats[1..], ws'[k], ats'[k]);
        assert Listed(ws', ats', ws'[k], ats'[k]);
        hide Filter, FilteredStarts, Placed, Listed;
      }
      PlacedFirst(t, ws[0], ats[0], ws', ats');
      assert [] + ws' == ws' && [] + ats' == ats';
    }
    hide IsWord, Stands, Unbroken, Placed, Listed;
  }

  /** Where the candidates of a title stand. */
  ghost function WordStarts(t: Text): seq<nat> {
    FilteredStarts(Runs(t), Starts(t))
  }

  /** A word of two characters or more, a letter or digit among them, no separator inside, and
      nothing but separators around it. */
  ghost predicate WholeWordAt(t: Text, w: Text, at: nat) {
    IsWord(w) && Unbroken(w) && Stands(t, w, at)
  }

  /** The candidates are the whole words of the cleaned title, each once for every place where it
      stands, in the order of their places. */
  lemma CandidatesAreWholeWords(title: Text, lower: Text -> Text)
    ensures var t := Clean(lower(title));
            var words := LabelWords(title, lower);
            && Placed(t, words, WordStarts(t))
            && forall w, at :: WholeWordAt(t, w, at) <==> Listed(words, WordStarts(t), w, at)
  {
    hide Runs, Filter, Starts, FilteredStarts, Stands, Clean, IsWord;
    var t := Clean(lower(title));
    var words := LabelWords(title, lower);
    RunsPlaced(t);
    FilterKeepsOrder(t, Runs(t), Starts(t));
    forall w, at
      ensures WholeWordAt(t, w, at) <==> Listed(words, WordStarts(t), w, at)
    {
      FilterFinds(Runs(t), Starts(t), w, at);
      if Stands(t, w, at) && Unbroken(w) {
        RunsFindAll(t, w, at);
      }
    }
  }

  // ---- numeric suffixes ---------------------------------------------------------------------

  function Decimal(n: nat): (d: Text)
    ensures d != []
  {
    if n < 10 then [48 + n] else Decimal(n / 10) + [48 + n % 10]
  }

  ghost function Reading(d: Text): int {
    if d == [] then 0 else 10 * Reading(d[..|d| - 1]) + (d[|d| - 1] as int - 48)
  }

  lemma {:induction false} DecimalReads(n: nat)
    ensures Reading(Decimal(n)) == n
  {
    if n < 10 {
      assert Decimal(n)[..0] == [];
    } else {
      DecimalReads(n / 10);
      assert Decimal(n)[..|Decimal(n)| - 1] == Decimal(n / 10);
    }
  }

  /** Different numbers give different suffixed labels. */
  lemma SuffixInjective(base: Text, i: nat, j: nat)
    requires base + Decimal(i) == base + Decimal(j)
    ensures i == j
  {
    assert (base + Decimal(i))[|base|..] == Decimal(i) && (base + Decimal(j))[|base|..] == Decimal(j);
    DecimalReads(i);
    DecimalReads(j);
  }

  /** The claimed labels that are not `base` with a suffix already tried. */
  ghost function Untried(base: Text, used: set<Text>, i: nat): set<Text> {
    set w | w in used && forall j :: 2 <= j < i ==> w != base + Decimal(j)
  }

  lemma TryingShrinks(base: Text, used: set<Text>, i: nat)
    requires i >= 2 && base + Decimal(i) in used
    ensures |Untried(base, used, i + 1)| < |Untried(base, used, i)|
  {
    var w := base + Decimal(i);
    assert w in Untried(base, used, i) by {
      forall j | 2 <= j < i
        ensures w != base + Decimal(j)
      {
        if w == base + Decimal(j) {
          SuffixInjective(base, i, j);
        }
      }
    }
    assert w !in Untried(base, used, i + 1);
    Shrinks(Untried(base, used, i + 1), Untried(base, used, i), w);
  }

  lemma Shrinks<T>(small: set<T>, big: set<T>, w: T)
    requires small <= big && w in big && w !in small
    ensures |small| < |big|
  {
    assert big == small + (big - small);
    assert w in big - small;
  }

  /** The first free suffix from `i` on. */
  ghost function FreeSuffix(base: Text, used: set<Text>, i: nat): (k: nat)
    requires i >= 2
    ensures i <= k && base + Decimal(k) !in used
    ensures k - i <= |Untried(base, used, i)|
    decreases |Untried(base, used, i)|
  {
    if base + Decimal(i) !in used then i
    else
      TryingShrinks(base, used, i);
      FreeSuffix(base, used, i + 1)
  }

  // ---- assignShortLabels --------------------------------------------------------------------

  /** JavaScript's `find`, a predicate given by whether stopwords and claimed words pass. */
  function Find(words: seq<Text>, used: set<Text>, plain: bool, free: bool): (r: Option<Text>)
    ensures r.Some? ==> r.value in words && (plain ==> !IsStopword(r.value)) && (free ==> r.value !in used)
    ensures r == None ==> forall w :: w in words ==> (plain && IsStopword(w)) || (free && w in used)
  {
    if words == [] then None
    else if (plain ==> !IsStopword(words[0])) && (free ==> words[0] !in used) then Some(words[0])
    else Find(words[1..], used, plain, free)
  }

  /** The word a node's label is made from. */
  function Pick(words: seq<Text>, used: set<Text>): Text {
    var first := if words == [] then None else Some(words[0]);
    var pick := OrElse(Find(words, used, true, true),
                OrElse(Find(words, used, false, true),
                OrElse(Find(words, used, true, false), first)));
    if pick.Some? then pick.value else NOTE
  }

  function Cut(w: Text): Text {
    if |w| <= LABEL_MAX_CHARS then w else w[..LABEL_MAX_CHARS]
  }

  ghost function LabelFor(words: seq<Text>, used: set<Text>): Text {
    var base := Cut(Pick(words, used));
    if base in used then base + Decimal(FreeSuffix(base, used, 2)) else base
  }

  lemma LabelIsFree(words: seq<Text>, used: set<Text>)
    ensures LabelFor(words, used) !in used
  {
    hide Pick;
  }

  ghost function SetOf(labels: seq<Text>): set<Text> {
    set w | w in labels
  }

  /** The labels of nodes with these candidate words, in order. */
  ghost function LabelsOf(words: seq<seq<Text>>): (labels: seq<Text>)
    ensures |labels| == |words|
  {
    if words == [] then []
    else
      var before := LabelsOf(words[..|words| - 1]);
      before + [LabelFor(words[|words| - 1], SetOf(before))]
  }

  lemma {:induction false} FreeSuffixIsFirst(base: Text, used: set<Text>, i: nat)
    requires i >= 2
    ensures forall k :: i <= k < FreeSuffix(base, used, i) ==> base + Decimal(k) in used
    decreases |Untried(base, used, i)|
  {
    hide Decimal, Untried;
    if base + Decimal(i) in used {
      TryingShrinks(base, used, i);
      FreeSuffixIsFirst(base, used, i + 1);
    }
  }

  /** A label is the first 14 characters of the word picked; if they are claimed, with the least number
      from 2 on that makes it free. */
  lemma LabelIsCutAndNumbered(words: seq<Text>, used: set<Text>)
    ensures var w := Pick(words, used);
            var cut := if |w| <= 14 then w else w[..14];
            if cut !in used then LabelFor(words, used) == cut
            else exists k :: k >= 2 && LabelFor(words, used) == cut + Decimal(k) && cut + Decimal(k) !in used
                             && forall j :: 2 <= j < k ==> cut + Decimal(j) in used
  {
    var cut := Cut(Pick(words, used));
    FreeSuffixIsFirst(cut, used, 2);
    assert cut in used ==> LabelFor(words, used) == cut + Decimal(FreeSuffix(cut, used, 2));
    hide Pick, Decimal, FreeSuffix;
  }

  /** No two labels of a view are the same, whatever the titles. */
  lemma {:induction false} LabelsDiffer(words: seq<seq<Text>>, i: nat, j: nat)
    requires i < j < |words|
    ensures LabelsOf(words)[i] != LabelsOf(words)[j]
  {
    hide LabelFor;
    var n := |words| - 1;
    if j < n {
      LabelsDiffer(words[..n], i, j);
    } else {
      var before := LabelsOf(words[..n]);
      assert before[i] in SetOf(before);
      LabelIsFree(words[n], SetOf(before));
    }
  }

  /** Earlier labels do not depend on later nodes. */
  lemma {:induction false} LabelsArePrefixStable(words: seq<seq<Text>>, k: nat)
    requires k <= |words|
    ensures LabelsOf(words[..k]) == LabelsOf(words)[..k]
  {
    hide LabelFor;
    if k < |words| {
      var n := |words| - 1;
      LabelsArePrefixStable(words[..n], k);
      assert words[..n][..k] == words[..k];
    } else {
      assert words[..k] == words;
    }
  }

  /** The bare label is claimed too, and no suffixed one equals it. */
  lemma {:induction false} BareLabelIsNoSuffix(base: Text, used: set<Text>, i: nat)
    requires base in used && i >= 2
    ensures FreeSuffix(base, used, i) - i < |Untried(base, used, i)|
    decreases |Untried(base, used, i)|
  {
    assert base in Untried(base, used, i) by {
      forall j | 2 <= j < i
        ensures base != base + Decimal(j)
      {
        assert |base + Decimal(j)| > |base|;
      }
    }
    if base + Decimal(i) in used {
      TryingShrinks(base, used, i);
      BareLabelIsNoSuffix(base, used, i + 1);
    }
  }

  /** The suffix search is over after at most as many tries as there are claimed labels. */
  lemma SuffixSearchIsShort(base: Text, used: set<Text>)
    requires base in used
    ensures FreeSuffix(base, used, 2) - 1 <= |used|
  {
    BareLabelIsNoSuffix(base, used, 2);
    assert Untried(base, used, 2) == used;
  }

  /** The word the derivation promises: the first unclaimed word that is no stopword, or, if
      all unclaimed words are stopwords, the first unclaimed one. */
  ghost predicate IsFirstFree(words: seq<Text>, used: set<Text>, i: nat) {
    && i < |words| && words[i] !in used
    && (forall j :: 0 <= j < i ==> words[j] in used || (IsStopword(words[j]) && !IsStopword(words[i])))
    && (IsStopword(words[i]) ==> forall j :: 0 <= j < |words| ==> words[j] in used || IsStopword(words[j]))
  }

  /** JavaScript's `find` stops at the first hit. */
  lemma {:induction false} FindIsFirst(words: seq<Text>, used: set<Text>, plain: bool, free: bool) returns (i: nat)
    requires Find(words, used, plain, free).Some?
    ensures i < |words| && Find(words, used, plain, free) == Some(words[i])
    ensures forall j :: 0 <= j < i ==> (plain && IsStopword(words[j])) || (free && words[j] in used)
  {
    hide IsStopword;
    if (plain ==> !IsStopword(words[0])) && (free ==> words[0] !in used) {
      i := 0;
    } else {
      var k := FindIsFirst(words[1..], used, plain, free);
      i := k + 1;
      forall j | 0 <= j < i
        ensures (plain && IsStopword(words[j])) || (free && words[j] in used)
      {
        assert j > 0 ==> words[j] == words[1..][j - 1];
      }
    }
  }

  /** While a word of the title is unclaimed, the word picked is the promised one. */
  lemma PickIsFirstFree(words: seq<Text>, used: set<Text>) returns (i: nat)
    requires exists w :: w in words && w !in used
    ensures IsFirstFree(words, used, i) && Pick(words, used) == words[i]
  {
    hide IsStopword, Find;
    if Find(words, used, true, true).Some? {
      i := FindIsFirst(words, used, true, true);
    } else {
      i := FindIsFirst(words, used, false, true);
    }
  }

  /** There is one such word at most. */
  lemma FirstFreeIsUnique(words: seq<Text>, used: set<Text>, i: nat, j: nat)
    requires IsFirstFree(words, used, i) && IsFirstFree(words, used, j)
    ensures i == j
  {
    hide IsStopword;
  }

  /** A label that is a word, or the cut of one, with a number after it. */
  ghost predicate Numbered(made: Text, base: Text) {
    exists k :: k >= 2 && made == base + Decimal(k)
  }

  /** While a word of the title is unclaimed, the label is made from the promised word. It carries
      a number, although words are free, exactly when the 14-character cut of that word is
      claimed: claims are looked up before the cut. That takes a word of more than 14. */
  lemma NumberedIff(words: seq<Text>, used: set<Text>, i: nat)
    requires IsFirstFree(words, used, i)
    ensures Numbered(LabelFor(words, used), Cut(words[i])) <==> Cut(words[i]) in used
    ensures LabelFor(words, used) == Cut(words[i]) <==> Cut(words[i]) !in used
    ensures Cut(words[i]) in used ==> |words[i]| > 14
  {
    assert words[i] in words;
    var k := PickIsFirstFree(words, used);
    FirstFreeIsUnique(words, used, i, k);
    hide Pick, FreeSuffix, IsStopword, IsFirstFree;
    var base := Cut(words[i]);
    assert forall k :: |base + Decimal(k)| > |base|;
    if base in used {
      assert LabelFor(words, used) == base + Decimal(FreeSuffix(base, used, 2));
    }
  }

  /** With every word claimed, the label is made from the first word that is no stopword, else
      from the first word, else from `note`, and numbered exactly when its cut is claimed. */
  lemma AllClaimedNumberedIff(words: seq<Text>, used: set<Text>)
    requires forall w :: w in words ==> w in used
    ensures var pick := Pick(words, used);
            && (pick == if words == [] then NOTE
                        else if Find(words, {}, true, false).Some? then Find(words, {}, true, false).value
                        else words[0])
            && (Numbered(LabelFor(words, used), Cut(pick)) <==> Cut(pick) in used)
            && (words != [] && |pick| <= 14 ==> Cut(pick) in used)
  {
    FindIgnoresClaims(words, used, {});
    assert words != [] ==> words[0] in words;
    hide Find, FreeSuffix, IsStopword;
    var base := Cut(Pick(words, used));
    assert forall k :: |base + Decimal(k)| > |base|;
    if base in used {
      assert LabelFor(words, used) == base + Decimal(FreeSuffix(base, used, 2));
    }
  }

  lemma {:induction false} FindIgnoresClaims(words: seq<Text>, used: set<Text>, other: set<Text>)
    ensures Find(words, used, true, false) == Find(words, other, true, false)
  {
    hide IsStopword;
    if words != [] {
      FindIgnoresClaims(words[1..], used, other);
    }
  }

  // ---- two nodes with one title -------------------------------------------------------------

  const LONG: Text := [97, 97, 97, 97, 97, 97, 97, 97, 97, 97, 97, 97, 97, 97, 97]
  const SHORT: Text := [98, 98]

  lemma {:induction false} PlainRun(w: Text, rest: Text)
    requires (forall i :: 0 <= i < |w| ==> !IsSeparator(w[i])) && (rest == [] || IsSeparator(rest[0]))
    ensures RunLength(w + rest) == |w|
  {
    if w != [] {
      assert (w + rest)[1..] == w[1..] + rest;
      PlainRun(w[1..], rest);
    } else {
      assert w + rest == rest;
    }
  }

  /** A title of two words. */
  lemma TwoWords(a: Text, b: Text)
    requires a != [] && b != [] && forall i :: 0 <= i < |a| ==> !IsSeparator(a[i])
    requires forall i :: 0 <= i < |b| ==> !IsSeparator(b[i])
    ensures Runs(a + [32] + b) == [a, b]
  {
    var t := a + [32] + b;
    assert t == a + ([32] + b);
    PlainRun(a, [32] + b);
    assert t[0] == a[0] && t[..|a|] == a && t[|a|..] == [32] + b;
    assert ([32] + b)[1..] == b;
    PlainRun(b, []);
    assert b + [] == b && b[..|b|] == b && b[|b|..] == [];
    assert Runs(b) == [b] + Runs([]);
    assert Runs([32] + b) == Runs(b);
  }

  lemma LetterIsPlain(c: CodeUnit)
    requires c == 97 || c == 98 || c == 32
    ensures !IsPunctuation(c)
  {
  }

  lemma NoStopwords()
    ensures !IsStopword(LONG) && !IsStopword(SHORT)
  {
    assert forall k :: 0 <= k < |STOPWORDS| ==> |STOPWORDS[k]| <= 5;
    assert forall k :: 0 <= k < |STOPWORDS| ==> STOPWORDS[k] != "bb";
    forall k | 0 <= k < |STOPWORDS|
      ensures !Spells(SHORT, STOPWORDS[k])
    {
    }
  }

  lemma TitleWords()
    ensures LabelWords(LONG + [32] + SHORT, t => t) == [LONG, SHORT]
  {
    var title := LONG + [32] + SHORT;
    LetterIsPlain(97);
    LetterIsPlain(98);
    LetterIsPlain(32);
    assert Clean(title) == title;
    TwoWords(LONG, SHORT);
    assert LONG[0] == 97 && SHORT[0] == 98 && 'a' as int == 97 && 'z' as int == 122;
    assert IsWord(LONG) && IsWord(SHORT);
    hide Clean, Runs, IsWord;
    var none: seq<Text> := [];
    assert [LONG, SHORT][1..] == [SHORT] && [SHORT][1..] == none;
    assert Filter([SHORT]) == [SHORT] + Filter(none);
    assert Filter([LONG, SHORT]) == [LONG] + Filter([SHORT]);
  }

  /** Two nodes of the same title, fifteen letters and a short word: the first gets the long
      word's cut, the second the same with a number, though the short word is free. */
  lemma LongWordIsNumbered()
    ensures var words := LabelWords(LONG + [32] + SHORT, t => t);
            && LabelsOf([words, words]) == [LONG[..14], LONG[..14] + [50]]
            && SHORT in words && !IsStopword(SHORT) && SHORT !in LabelsOf([words, words])
  {
    TitleWords();
    NoStopwords();
    var words := [LONG, SHORT];
    var none: seq<seq<Text>> := [];
    assert [words, words][..1] == [words] && [words][..0] == none;
    assert IsFirstFree(words, {}, 0) && IsFirstFree(words, {LONG[..14]}, 0);
    NumberedIff(words, {}, 0);
    assert Find(words, {LONG[..14]}, true, true) == Some(LONG);
    assert LONG[..14] + Decimal(2) !in {LONG[..14]};
    assert LabelFor(words, {LONG[..14]}) == LONG[..14] + [50];
    assert SetOf([LONG[..14]]) == {LONG[..14]} && SetOf(LabelsOf(none)) == {};
    hide LabelFor, LabelWords;
    assert LabelsOf([words]) == LabelsOf(none) + [LabelFor(words, SetOf(LabelsOf(none)))];
  }

  // ---- the loop over the records ------------------------------------------------------------

  class Rec {
    const title: Option<Text>
    const id: Text
    var shown: Text

    constructor (title: Option<Text>, id: Text)
      ensures this.title == title && this.id == id
    {
      this.title, this.id, this.shown := title, id, [];
    }

    /** The candidate words: of the title, or of the id when there is none. */
    function Words(lower: Text -> Text): seq<Text> {
      LabelWords(if title.Some? then title.value else id, lower)
    }
  }

  ghost function AllWords(recs: seq<Rec>, lower: Text -> Text): (r: seq<seq<Text>>)
    ensures |r| == |recs|
  {
    seq(|recs|, i requires 0 <= i < |recs| => recs[i].Words(lower))
  }

  /** No later entry of the list is the same record. */
  ghost predicate LastOf(recs: seq<Rec>, i: nat, n: nat)
    requires i < n <= |recs|
  {
    forall j :: i < j < n ==> recs[j] != recs[i]
  }

  /** The base label, or the base with the first free number after it. */
  method Unclaimed(base: Text, used: set<Text>) returns (made: Text)
    ensures made == if base in used then base + Decimal(FreeSuffix(base, used, 2)) else base
  {
    hide Decimal, Untried;
    made := base;
    if base in used {
      var k := 2;
      while base + Decimal(k) in used
        invariant k >= 2 && FreeSuffix(base, used, k) == FreeSuffix(base, used, 2)
        decreases FreeSuffix(base, used, 2) - k
      {
        k := k + 1;
      }
      made := base + Decimal(k);
    }
  }

  /** Each record shows the label of its last entry among the first `n`. */
  ghost predicate Shown(recs: seq<Rec>, labels: seq<Text>, n: nat)
    requires n <= |recs| == |labels|
    reads recs
  {
    forall i :: 0 <= i < n && LastOf(recs, i, n) ==> recs[i].shown == labels[i]
  }

  lemma LastEntry(recs: seq<Rec>, i: nat, n: nat) returns (k: nat)
    requires i < n <= |recs|
    ensures k < n && recs[k] == recs[i] && LastOf(recs, k, n)
  {
    k := n - 1;
    while recs[k] != recs[i]
      invariant i <= k < n && forall j :: k < j < n ==> recs[j] != recs[i]
      decreases k
    {
      k := k - 1;
    }
  }

  lemma ShownDiffer(recs: seq<Rec>, words: seq<seq<Text>>, i: nat, j: nat)
    requires |recs| == |words| && Shown(recs, LabelsOf(words), |recs|)
    requires i < |recs| && j < |recs| && recs[i] != recs[j]
    ensures recs[i].shown != recs[j].shown
  {
    hide LabelsOf;
    var k := LastEntry(recs, i, |recs|);
    var l := LastEntry(recs, j, |recs|);
    LabelsDiffer(words, if k < l then k else l, if k < l then l else k);
  }

  lemma WordsAt(recs: seq<Rec>, lower: Text -> Text, n: nat)
    requires n < |recs|
    ensures AllWords(recs, lower)[n] == recs[n].Words(lower)
  {
  }

  method Show(recs: seq<Rec>, ghost labels: seq<Text>, n: nat, made: Text)
    requires n < |recs| == |labels| && Shown(recs, labels, n) && made == labels[n]
    modifies recs[n]
    ensures Shown(recs, labels, n + 1)
  {
    assert forall i :: 0 <= i < n && recs[i] != recs[n] && LastOf(recs, i, n + 1) ==> LastOf(recs, i, n);
    recs[n].shown := made;
  }

  /** `assignShortLabels`: in the end different records show different labels, whatever their
      titles, even if a record is listed twice. */
  method AssignShortLabels(recs: seq<Rec>, lower: Text -> Text)
    modifies recs
    ensures Shown(recs, LabelsOf(AllWords(recs, lower)), |recs|)
    ensures forall i, j :: 0 <= i < |recs| && 0 <= j < |recs| && recs[i] != recs[j] ==>
              recs[i].shown != recs[j].shown
  {
    ghost var words := AllWords(recs, lower);
    LabelsOfNone(words);
    assert Shown(recs, LabelsOf(words), 0);
    hide *;
    var used: set<Text> := {};
    for n := 0 to |recs|
      invariant used == SetOf(LabelsOf(words[..n]))
      invariant Shown(recs, LabelsOf(words), n)
    {
      var r := recs[n];
      assert r.Words(lower) == words[n] by {
        WordsAt(recs, lower, n);
      }
      var made := Unclaimed(Cut(Pick(r.Words(lower), used)), used);
      LabelForIs(words[n], used);
      LabelsStep(words, n);
      used := used + {made};
      Show(recs, LabelsOf(words), n, made);
    }
    forall i, j | 0 <= i < |recs| && 0 <= j < |recs| && recs[i] != recs[j]
      ensures recs[i].shown != recs[j].shown
    {
      ShownDiffer(recs, words, i, j);
    }
  }

  lemma LabelForIs(words: seq<Text>, used: set<Text>)
    ensures var base := Cut(Pick(words, used));
            LabelFor(words, used) == if base in used then base + Decimal(FreeSuffix(base, used, 2)) else base
  {
    hide Cut, Pick, FreeSuffix;
  }

  lemma LabelsOfNone(words: seq<seq<Text>>)
    ensures SetOf(LabelsOf(words[..0])) == {}
  {
  }

  lemma LabelsStep(words: seq<seq<Text>>, n: nat)
    requires n < |words|
    ensures var used := SetOf(LabelsOf(words[..n]));
            && LabelsOf(words)[n] == LabelFor(words[n], used)
            && SetOf(LabelsOf(words[..n + 1])) == used + {LabelFor(words[n], used)}
  {
    LabelsArePrefixStable(words, n + 1);
    LabelsOfOneMore(words, n);
    hide *;
    var before := LabelsOf(words[..n]);
    SetOfOneMore(before, LabelFor(words[n], SetOf(before)));
    assert LabelsOf(words)[n] == LabelsOf(words[..n + 1])[n];
  }

  lemma LabelsOfOneMore(words: seq<seq<Text>>, n: nat)
    requires n < |words|
    ensures LabelsOf(words[..n + 1]) == LabelsOf(words[..n]) + [LabelFor(words[n], SetOf(LabelsOf(words[..n])))]
  {
    hide LabelFor;
    assert words[..n + 1][..n] == words[..n];
  }

  lemma SetOfOneMore(labels: seq<Text>, w: Text)
    ensures SetOf(labels + [w]) == SetOf(labels) + {w}
  {
  }
}
