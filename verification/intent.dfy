/** The eight-way intent classifier and the signal extractor of
    server/intelligence/intent.ts. */
module Intent {
  import opened Types
  import Js
  import Utils

  const GovernanceWords: seq<string> := ["vote", "parliament", "governance", "consensus", "multi-mind"]
  const DebugWords: seq<string> := ["error", "stack", "bug", "500", "debug", "fix", "broken"]
  const StatusWords: seq<string> := ["status", "health", "live", "deployment", "render", "is it up"]
  const DecisionWords: seq<string> := ["should i", "what should", "decide", "best course", "recommend"]
  const PlanWords: seq<string> := ["plan", "roadmap", "steps", "workflow", "sequence"]
  const ExecutionWords: seq<string> := ["do this", "execute", "implement", "build", "ship"]

  /** `classifyIntent(userTextRaw)`: the keyword groups tried in a fixed
      order on the normalised, lower-cased text; the first group that
      matches decides. Text left with no match is an information request,
      and text that normalises to nothing is UNKNOWN. */
  function ClassifyIntent(userTextRaw: string): (r: IntentType)
    ensures r == UNKNOWN <==> forall i :: 0 <= i < |userTextRaw| ==> Js.IsSpace(userTextRaw[i])
  {
    var t := Utils.LowerNormalized(userTextRaw);
    UnknownIffBlank(userTextRaw);
    if Utils.IncludesAny(t, GovernanceWords) then GOVERNANCE_REQUEST
    else if Utils.IncludesAny(t, DebugWords) then DEBUG_REQUEST
    else if Utils.IncludesAny(t, StatusWords) then STATUS_REQUEST
    else if Utils.IncludesAny(t, DecisionWords) then DECISION_REQUEST
    else if Utils.IncludesAny(t, PlanWords) then PLAN_REQUEST
    else if Utils.IncludesAny(t, ExecutionWords) then EXECUTION_REQUEST
    else if |t| > 0 then INFO_REQUEST
    else UNKNOWN
  }

  /** One row of the rule table: a keyword group and the intent it yields. */
  datatype Rule = Rule(words: seq<string>, intent: IntentType)

  /** The keyword groups in priority order. */
  const Rules: seq<Rule> := [
    Rule(GovernanceWords, GOVERNANCE_REQUEST),
    Rule(DebugWords, DEBUG_REQUEST),
    Rule(StatusWords, STATUS_REQUEST),
    Rule(DecisionWords, DECISION_REQUEST),
    Rule(PlanWords, PLAN_REQUEST),
    Rule(ExecutionWords, EXECUTION_REQUEST)]

  /** The position of the first rule whose group matches `t`, or
      `|rules|` when none does. */
  function FirstRule(t: string, rules: seq<Rule>): (k: nat)
    ensures k <= |rules|
    ensures forall j :: 0 <= j < k ==> !Utils.IncludesAny(t, rules[j].words)
    ensures k < |rules| ==> Utils.IncludesAny(t, rules[k].words)
  {
    if |rules| == 0 then 0
    else if Utils.IncludesAny(t, rules[0].words) then 0
    else
      var k := 1 + FirstRule(t, rules[1..]);
      assert forall j :: 1 <= j <= |rules[1..]| ==> rules[j] == rules[1..][j - 1];
      k
  }

  /** The rule-table reading of the classifier: the intent of the first
      matching rule, INFO_REQUEST when none matches but text is left, and
      UNKNOWN for empty text. */
  function ByRules(t: string): IntentType
  {
    var k := FirstRule(t, Rules);
    if k < |Rules| then Rules[k].intent
    else if |t| > 0 then INFO_REQUEST
    else UNKNOWN
  }

  /** The cascade of `classifyIntent` is the first-match reading of the
      rule table. */
  lemma ClassifyIsFirstMatch(userTextRaw: string)
    ensures ClassifyIntent(userTextRaw) == ByRules(Utils.LowerNormalized(userTextRaw))
  {
    var t := Utils.LowerNormalized(userTextRaw);
    var k := FirstRule(t, Rules);
    assert Rules[0].words == GovernanceWords && Rules[1].words == DebugWords;
    assert Rules[2].words == StatusWords && Rules[3].words == DecisionWords;
    assert Rules[4].words == PlanWords && Rules[5].words == ExecutionWords;
    if k == 0 {
    } else if k == 1 {
      assert !Utils.IncludesAny(t, Rules[0].words);
    } else if k == 2 {
      assert !Utils.IncludesAny(t, Rules[0].words) && !Utils.IncludesAny(t, Rules[1].words);
    } else if k == 3 {
      assert !Utils.IncludesAny(t, Rules[0].words) && !Utils.IncludesAny(t, Rules[1].words);
      assert !Utils.IncludesAny(t, Rules[2].words);
    } else if k == 4 {
      assert !Utils.IncludesAny(t, Rules[0].words) && !Utils.IncludesAny(t, Rules[1].words);
      assert !Utils.IncludesAny(t, Rules[2].words) && !Utils.IncludesAny(t, Rules[3].words);
    } else {
      assert !Utils.IncludesAny(t, Rules[0].words) && !Utils.IncludesAny(t, Rules[1].words);
      assert !Utils.IncludesAny(t, Rules[2].words) && !Utils.IncludesAny(t, Rules[3].words);
      assert !Utils.IncludesAny(t, Rules[4].words);
    }
  }

  /** Every keyword of every group is non-empty. */
  predicate AllNonEmpty(words: seq<string>)
  {
    forall k :: 0 <= k < |words| ==> |words[k]| > 0
  }

  /** Nothing matches in empty text, since no keyword is empty. */
  lemma NothingInEmpty(words: seq<string>)
    requires AllNonEmpty(words)
    ensures !Utils.IncludesAny("", words)
  {
    forall k | 0 <= k < |words| ensures !Js.Includes(Js.Lower(""), Js.Lower(words[k])) {
      assert |Js.Lower(words[k])| > 0;
    }
  }

  lemma KeywordsNonEmpty()
    ensures AllNonEmpty(GovernanceWords) && AllNonEmpty(DebugWords) && AllNonEmpty(StatusWords)
    ensures AllNonEmpty(DecisionWords) && AllNonEmpty(PlanWords) && AllNonEmpty(ExecutionWords)
  {
  }

  /** The prepared text is empty exactly for blank input, and then no
      group matches. */
  lemma UnknownIffBlank(userTextRaw: string)
    ensures var t := Utils.LowerNormalized(userTextRaw);
            && (t == [] <==> forall i :: 0 <= i < |userTextRaw| ==> Js.IsSpace(userTextRaw[i]))
            && (t == [] ==> !Utils.IncludesAny(t, GovernanceWords) && !Utils.IncludesAny(t, DebugWords)
                            && !Utils.IncludesAny(t, StatusWords) && !Utils.IncludesAny(t, DecisionWords)
                            && !Utils.IncludesAny(t, PlanWords) && !Utils.IncludesAny(t, ExecutionWords))
  {
    var t := Utils.LowerNormalized(userTextRaw);
    assert |t| == |Utils.NormalizeText(userTextRaw)|;
    if t == [] {
      KeywordsNonEmpty();
      NothingInEmpty(GovernanceWords);
      NothingInEmpty(DebugWords);
      NothingInEmpty(StatusWords);
      NothingInEmpty(DecisionWords);
      NothingInEmpty(PlanWords);
      NothingInEmpty(ExecutionWords);
    }
  }

  /** A governance keyword wins over every other group. */
  lemma GovernanceFirst(userTextRaw: string)
    requires Js.Includes(Utils.LowerNormalized(userTextRaw), "vote")
    ensures ClassifyIntent(userTextRaw) == GOVERNANCE_REQUEST
  {
    var t := Utils.LowerNormalized(userTextRaw);
    assert Utils.IncludesAny(t, GovernanceWords) by {
      assert t == Js.Lower(Utils.NormalizeText(userTextRaw));
      Js.LowerIdempotent(Utils.NormalizeText(userTextRaw));
      VoteIsLowerCase();
      assert Js.Includes(Js.Lower(t), Js.Lower(GovernanceWords[0]));
    }
  }

  lemma VoteIsLowerCase()
    ensures Js.Lower(GovernanceWords[0]) == "vote"
  {
    Js.LowerOfLowerCase("vote");
  }

  /** Keywords match inside words: "prefix" is a debug request through
      "fix". */
  lemma PrefixIsDebug()
    ensures ClassifyIntent("prefix") == DEBUG_REQUEST
  {
    NormalizedPrefix();
    PrefixNotGovernance();
    PrefixMatchesDebug();
  }

  lemma PrefixMatchesDebug()
    ensures Utils.IncludesAny("prefix", DebugWords)
  {
    PrefixIsLowerCase();
    Js.LowerOfLowerCase("fix");
    assert Js.OccursAt("prefix", "fix", 3);
    assert Js.Includes(Js.Lower("prefix"), Js.Lower(DebugWords[5]));
  }

  lemma PrefixNotGovernance()
    ensures !Utils.IncludesAny("prefix", GovernanceWords)
  {
    Utils.NoTermOccurs("prefix", GovernanceWords, [0, 1, 0, 0, 0]);
  }

  lemma NormalizedPrefix()
    ensures Utils.LowerNormalized("prefix") == "prefix"
  {
    assert Utils.Normalized("prefix");
    Utils.NormalizeOfNormalized("prefix");
    PrefixIsLowerCase();
  }

  lemma PrefixIsLowerCase()
    ensures Js.Lower("prefix") == "prefix"
  {
    Js.LowerOfLowerCase("prefix");
  }

  // ---------------------------------------------------------------------
  // extractSignals

  /** The sentence terminators `.`, `?` and `!`. */
  predicate Terminator(c: char)
  {
    c == '.' || c == '?' || c == '!'
  }

  /** The index of the first terminator in `t`, or `|t|`. */
  function TerminatorIndex(t: string): (q: nat)
    ensures q <= |t|
    ensures forall j :: 0 <= j < q ==> !Terminator(t[j])
    ensures q < |t| ==> Terminator(t[q])
  {
    if |t| == 0 || Terminator(t[0]) then 0
    else 1 + TerminatorIndex(t[1..])
  }

  /** A question as `/[^.?!]*\?/` finds it: a run of non-terminators
      followed by one `?`. */
  predicate QuestionShaped(s: string)
  {
    && |s| > 0 && s[|s| - 1] == '?'
    && forall j :: 0 <= j < |s| - 1 ==> !Terminator(s[j])
  }

  /** `t.match(/[^.?!]*\?/g)`: from each scan position the run of
      non-terminators is taken greedily; it yields a match when the
      terminator ending it is a `?`, and the scan resumes after that
      terminator either way. */
  function QuestionMatches(t: string): (r: seq<string>)
    decreases |t|
    ensures forall k :: 0 <= k < |r| ==> QuestionShaped(r[k])
  {
    var q := TerminatorIndex(t);
    if q == |t| then []
    else if t[q] == '?' then [t[..q + 1]] + QuestionMatches(t[q + 1..])
    else QuestionMatches(t[q + 1..])
  }

  /** The positions of the `?` characters of `t`, in increasing order
      (`QuestionPositionsSpec`). */
  function QuestionPositions(t: string): (r: seq<nat>)
    ensures forall k :: 0 <= k < |r| ==> r[k] < |t|
    decreases |t|
  {
    if |t| == 0 then []
    else QuestionPositions(t[..|t| - 1]) + (if t[|t| - 1] == '?' then [|t| - 1] else [])
  }

  /** `QuestionPositions` lists every `?` position of the text, each once,
      in increasing order, and nothing else. */
  lemma {:induction false} QuestionPositionsSpec(t: string)
    ensures var r := QuestionPositions(t);
            && (forall k :: 0 <= k < |r| ==> r[k] < |t| && t[r[k]] == '?')
            && (forall k, l :: 0 <= k < l < |r| ==> r[k] < r[l])
            && (forall i :: 0 <= i < |t| && t[i] == '?' ==> i in r)
    decreases |t|
  {
    if |t| > 0 {
      var init := t[..|t| - 1];
      QuestionPositionsSpec(init);
      assert forall i :: 0 <= i < |init| ==> init[i] == t[i];
    }
  }

  /** Where the run of non-terminators that ends just before `e` starts:
      just after the last terminator before `e`, or at 0. */
  function RunStart(t: string, e: nat): (a: nat)
    requires e <= |t|
    ensures a <= e
    ensures a == 0 || Terminator(t[a - 1])
    ensures forall j :: a <= j < e ==> !Terminator(t[j])
    decreases e
  {
    if e == 0 || Terminator(t[e - 1]) then e else RunStart(t, e - 1)
  }

  /** Every position moved up by `d`. */
  function Shift(s: seq<nat>, d: nat): (r: seq<nat>)
    ensures |r| == |s| && forall k :: 0 <= k < |s| ==> r[k] == s[k] + d
  {
    seq(|s|, k requires 0 <= k < |s| => s[k] + d)
  }

  lemma ShiftConcat(x: seq<nat>, y: seq<nat>, d: nat)
    ensures Shift(x + y, d) == Shift(x, d) + Shift(y, d)
  {
  }

  /** The `?` positions of a concatenation: those of the first part, then
      those of the second moved up by the first part's length. */
  lemma {:induction false} QuestionPositionsConcat(a: string, b: string)
    ensures QuestionPositions(a + b) == QuestionPositions(a) + Shift(QuestionPositions(b), |a|)
    decreases |b|
  {
    if |b| == 0 {
      assert a + b == a;
    } else {
      var b' := b[..|b| - 1];
      QuestionPositionsConcat(a, b');
      assert (a + b)[..|a + b| - 1] == a + b';
      assert (a + b)[|a + b| - 1] == b[|b| - 1];
      var tail := if b[|b| - 1] == '?' then [|b| - 1] else [];
      ShiftConcat(QuestionPositions(b'), tail, |a|);
      assert Shift(tail, |a|) == if b[|b| - 1] == '?' then [|a + b| - 1] else [];
    }
  }

  /** Up to and including the first terminator, the only possible `?` is
      that terminator. */
  lemma HeadPositions(t: string, q: nat)
    requires q == TerminatorIndex(t) < |t|
    ensures QuestionPositions(t[..q + 1]) == if t[q] == '?' then [q] else []
  {
    var h := t[..q + 1];
    var p := QuestionPositions(h);
    QuestionPositionsSpec(h);
    forall k | 0 <= k < |p| ensures p[k] == q {
      assert h[p[k]] == t[p[k]];
    }
    if t[q] == '?' {
      assert h[q] == '?';
    }
  }

  /** A run that starts after a terminator closing `a` starts inside `b`. */
  lemma {:induction false} RunStartConcat(a: string, b: string, e: nat)
    requires |a| > 0 && Terminator(a[|a| - 1]) && e <= |b|
    ensures RunStart(a + b, |a| + e) == |a| + RunStart(b, e)
    decreases e
  {
    if e > 0 {
      assert (a + b)[|a| + e - 1] == b[e - 1];
      if !Terminator(b[e - 1]) {
        RunStartConcat(a, b, e - 1);
      }
    } else {
      assert (a + b)[|a| - 1] == a[|a| - 1];
    }
  }

  /** The question matches are, in order, one per `?`: the k-th runs from
      just after the last terminator before the k-th `?` (or from the
      start) up to and including that `?`. */
  lemma QuestionMatchesAre(t: string)
    ensures var r, p := QuestionMatches(t), QuestionPositions(t);
            && |r| == |p|
            && forall k :: 0 <= k < |r| ==> r[k] == t[RunStart(t, p[k])..p[k] + 1]
  {
    QuestionCountsAgree(t);
    forall k | 0 <= k < |QuestionMatches(t)|
      ensures QuestionMatches(t)[k]
              == t[RunStart(t, QuestionPositions(t)[k])..QuestionPositions(t)[k] + 1]
    {
      QuestionMatchAt(t, k);
      assert MatchEndsAt(t, QuestionMatches(t)[k], QuestionPositions(t)[k]);
    }
  }

  /** As many question matches as `?` positions. */
  lemma {:induction false} QuestionCountsAgree(t: string)
    ensures |QuestionMatches(t)| == |QuestionPositions(t)|
    decreases |t|
  {
    var q := TerminatorIndex(t);
    if q == |t| {
      NoQuestionNoPositions(t);
    } else {
      QuestionStep(t, q);
      QuestionCountsAgree(t[q + 1..]);
    }
  }

  /** `m` is the run of text that ends at position `e` of `t`, from just
      after the last terminator before `e` (or from the start). */
  predicate MatchEndsAt(t: string, m: string, e: nat)
  {
    e < |t| && m == t[RunStart(t, e)..e + 1]
  }

  /** The k-th question match, read in the whole text. */
  lemma {:induction false} QuestionMatchAt(t: string, k: nat)
    requires k < |QuestionMatches(t)| && k < |QuestionPositions(t)|
    ensures MatchEndsAt(t, QuestionMatches(t)[k], QuestionPositions(t)[k])
    decreases |t|
  {
    var q := TerminatorIndex(t);
    if q == |t| {
      NoQuestionNoPositions(t);
    } else {
      QuestionStepAt(t, q, k);
      if t[q] == '?' && k == 0 {
        FirstQuestionMatch(t, q);
      } else {
        var u, j := t[q + 1..], if t[q] == '?' then k - 1 else k;
        QuestionMatchAt(u, j);
        LaterQuestionMatch(t, q, QuestionMatches(u)[j], QuestionPositions(u)[j], QuestionMatches(t)[k], QuestionPositions(t)[k]);
      }
    }
  }

  /** The k-th match and `?` position, after one scan step. */
  lemma QuestionStepAt(t: string, q: nat, k: nat)
    requires q == TerminatorIndex(t) < |t|
    requires k < |QuestionMatches(t)| && k < |QuestionPositions(t)|
    ensures t[q] == '?' && k == 0 ==> QuestionMatches(t)[k] == t[..q + 1] && QuestionPositions(t)[k] == q
    ensures !(t[q] == '?' && k == 0) ==>
              var u, j := t[q + 1..], if t[q] == '?' then k - 1 else k;
              && j < |QuestionMatches(u)| && j < |QuestionPositions(u)|
              && QuestionMatches(t)[k] == QuestionMatches(u)[j]
              && QuestionPositions(t)[k] == q + 1 + QuestionPositions(u)[j]
  {
    QuestionStep(t, q);
    var h, u := t[..q + 1], t[q + 1..];
    var head := if t[q] == '?' then [h] else [];
    if k >= |head| {
      Utils.ConcatIndex(head, QuestionMatches(u), k);
      Utils.ConcatIndex(QuestionPositions(h), Shift(QuestionPositions(u), |h|), k);
    }
  }

  /** One scan step: the first terminator splits off at most one match
      and at most one `?` position. */
  lemma QuestionStep(t: string, q: nat)
    requires q == TerminatorIndex(t) < |t|
    ensures var h, u := t[..q + 1], t[q + 1..];
            && QuestionMatches(t) == (if t[q] == '?' then [h] else []) + QuestionMatches(u)
            && QuestionPositions(t) == QuestionPositions(h) + Shift(QuestionPositions(u), |h|)
            && QuestionPositions(h) == if t[q] == '?' then [q] else []
  {
    Utils.SplitAt(t, q + 1);
    QuestionPositionsConcat(t[..q + 1], t[q + 1..]);
    HeadPositions(t, q);
  }

  /** Text without a `?` has no `?` positions. */
  lemma {:induction false} NoQuestionNoPositions(t: string)
    requires forall i :: 0 <= i < |t| ==> !Terminator(t[i])
    ensures QuestionPositions(t) == []
    decreases |t|
  {
    if |t| > 0 {
      NoQuestionNoPositions(t[..|t| - 1]);
    }
  }

  /** A match ending at the first terminator starts at 0. */
  lemma FirstQuestionMatch(t: string, q: nat)
    requires q == TerminatorIndex(t) < |t|
    ensures MatchEndsAt(t, t[..q + 1], q)
  {
    assert RunStart(t, q) == 0;
  }

  /** A match found after the terminator at `q`, read in the whole text. */
  lemma LaterQuestionMatch(t: string, q: nat, m: string, e: nat, m': string, e': nat)
    requires q < |t| && Terminator(t[q])
    requires MatchEndsAt(t[q + 1..], m, e)
    requires m' == m && e' == q + 1 + e
    ensures MatchEndsAt(t, m', e')
  {
    RunStartSuffix(t, q, e);
    Utils.SliceWithinSuffix(t, q + 1, RunStart(t[q + 1..], e), e + 1);
  }

  /** The run start of a position after the terminator at `q`, read in
      the whole text. */
  lemma RunStartSuffix(t: string, q: nat, e: nat)
    requires q < |t| && Terminator(t[q]) && e <= |t| - (q + 1)
    ensures RunStart(t, q + 1 + e) == q + 1 + RunStart(t[q + 1..], e)
  {
    Utils.SplitAt(t, q + 1);
    RunStartConcat(t[..q + 1], t[q + 1..], e);
  }

  /** There is one question match per `?` in the text. */
  lemma {:induction false} QuestionMatchCount(t: string)
    ensures |QuestionMatches(t)| == multiset(t)['?']
    decreases |t|
  {
    var q := TerminatorIndex(t);
    if q < |t| {
      QuestionMatchCount(t[q + 1..]);
      assert |QuestionMatches(t)| == (if t[q] == '?' then 1 else 0) + |QuestionMatches(t[q + 1..])|;
      CountAround(t, q);
      NoQuestionMark(t[..q]);
    } else {
      NoQuestionMark(t);
    }
  }

  /** The `?` count of a string, split around position `q`. */
  lemma CountAround(t: string, q: nat)
    requires q < |t|
    ensures multiset(t)['?'] == multiset(t[..q])['?'] + (if t[q] == '?' then 1 else 0) + multiset(t[q + 1..])['?']
  {
    Utils.SplitAt(t, q);
    Utils.SplitFirst(t[q..]);
    assert t[q..][1..] == t[q + 1..];
    assert multiset(t) == multiset(t[..q]) + multiset(t[q..]);
    assert multiset(t[q..]) == multiset([t[q]]) + multiset(t[q + 1..]);
  }

  /** A string without a `?` counts none. */
  lemma {:induction false} NoQuestionMark(u: string)
    requires forall j :: 0 <= j < |u| ==> u[j] != '?'
    ensures multiset(u)['?'] == 0
    decreases |u|
  {
    if |u| > 0 {
      Utils.SplitFirst(u);
      NoQuestionMark(u[1..]);
    }
  }

  /** Trimming a question keeps its shape: the `?` at the end stays. */
  lemma TrimQuestion(s: string)
    requires QuestionShaped(s)
    ensures QuestionShaped(Js.Trim(s))
  {
    var t := Js.TrimStart(s);
    var k := |s| - |t|;
    assert !Js.IsSpace(s[|s| - 1]);
    assert k < |s|;
    assert t[|t| - 1] == s[|s| - 1];
    assert Js.Trim(s) == t;
    forall j | 0 <= j < |t| - 1 ensures !Terminator(t[j]) {
      assert t[j] == s[k + j];
    }
  }

  /** Each string trimmed, in order. */
  function TrimAll(ss: seq<string>): (r: seq<string>)
    ensures |r| == |ss|
    ensures forall k :: 0 <= k < |ss| ==> r[k] == Js.Trim(ss[k])
  {
    seq(|ss|, k requires 0 <= k < |ss| => Js.Trim(ss[k]))
  }

  /** The questions of the text: the matches trimmed, de-duplicated and
      cut to ten. Each is a question shape. */
  function Questions(t: string): (r: seq<string>)
    ensures |r| <= 10 && Utils.NoDuplicates(r)
    ensures forall k :: 0 <= k < |r| ==> QuestionShaped(r[k])
    ensures forall k :: 0 <= k < |r| ==> r[k] in TrimAll(QuestionMatches(t))
    ensures Utils.FirstDistinct(r, TrimAll(QuestionMatches(t)), 10)
  {
    var m := QuestionMatches(t);
    var trimmed := TrimAll(m);
    TrimAllQuestions(m);
    Utils.TakeOfUniq(trimmed, 10);
    Js.Take(Utils.Uniq(trimmed), 10)
  }

  /** Trimming every question match keeps each a question shape. */
  lemma TrimAllQuestions(m: seq<string>)
    requires forall k :: 0 <= k < |m| ==> QuestionShaped(m[k])
    ensures forall s :: s in TrimAll(m) ==> QuestionShaped(s)
  {
    forall s | s in TrimAll(m) ensures QuestionShaped(s) {
      var k :| 0 <= k < |m| && TrimAll(m)[k] == s;
      TrimQuestion(m[k]);
    }
  }

  /** A word with no whitespace at either end, as every constraint word is. */
  type SolidWord = w: string | SolidEnds(w) witness "a"

  const ConstraintWords: seq<SolidWord> :=
    ["must", "only", "exact", "no", "without", "include", "exclude", "never", "always"]

  /** ASCII word characters, those `\b` looks at. */
  predicate WordChar(c: char)
  {
    'a' <= c <= 'z' || 'A' <= c <= 'Z' || '0' <= c <= '9' || c == '_'
  }

  /** `\b` at position `i`: a word character on exactly one side. */
  predicate Boundary(t: string, i: nat)
    requires i <= |t|
  {
    (i > 0 && WordChar(t[i - 1])) != (i < |t| && WordChar(t[i]))
  }

  /** `\bw\b` matches at `p`, ignoring ASCII case. */
  predicate WordAt(t: string, w: string, p: nat)
  {
    p + |w| <= |t| && Boundary(t, p) && Js.Lower(t[p..p + |w|]) == w && Boundary(t, p + |w|)
  }

  /** The end of `[^.?!]{0,limit}` matched greedily from `s`. */
  function RunEnd(t: string, s: nat, limit: nat): (e: nat)
    requires s <= |t|
    ensures s <= e <= |t| && e - s <= limit
    ensures forall j :: s <= j < e ==> !Terminator(t[j])
    ensures e < |t| && e - s < limit ==> Terminator(t[e])
    decreases limit
  {
    if limit == 0 || s == |t| || Terminator(t[s]) then s
    else RunEnd(t, s + 1, limit - 1)
  }

  /** A raw constraint match for the word `w`: the word (ignoring case),
      then at most 120 characters, none of them a terminator. */
  predicate ConstraintShaped(s: string, w: string)
  {
    && |w| <= |s| <= |w| + 120
    && Js.Lower(s[..|w|]) == w
    && forall j :: |w| <= j < |s| ==> !Terminator(s[j])
  }

  /** `t.match(new RegExp("\\b" + w + "\\b[^.?!]{0,120}", "gi"))`, the scan
      starting at `p`: at the first position where the word stands whole
      the match takes the word and the greedy run after it, and the scan
      resumes where the match ended. */
  function WordMatches(t: string, w: string, p: nat): (r: seq<string>)
    requires |w| > 0
    ensures forall k :: 0 <= k < |r| ==> ConstraintShaped(r[k], w)
    decreases |t| - p
  {
    if p + |w| > |t| then []
    else if WordAt(t, w, p) then
      var e := RunEnd(t, p + |w|, 120);
      var m := t[p..e];
      assert m[..|w|] == t[p..p + |w|];
      [m] + WordMatches(t, w, e)
    else WordMatches(t, w, p + 1)
  }

  /** `m` is the match the regular expression takes when the word stands
      whole at `a`: the word and the greedy run after it. */
  predicate MatchFrom(t: string, w: string, a: nat, m: string)
  {
    WordAt(t, w, a) && m == t[a..RunEnd(t, a + |w|, 120)]
  }

  /** Each match of a scan from `p` is taken where the word stands whole,
      at or after `p`. */
  lemma {:induction false} WordMatchAt(t: string, w: string, p: nat, k: nat)
    requires |w| > 0 && k < |WordMatches(t, w, p)|
    ensures exists a :: p <= a && MatchFrom(t, w, a, WordMatches(t, w, p)[k])
    decreases |t| - p
  {
    if WordAt(t, w, p) {
      var e := RunEnd(t, p + |w|, 120);
      if k == 0 {
        assert MatchFrom(t, w, p, WordMatches(t, w, p)[k]);
      } else {
        WordMatchAt(t, w, e, k - 1);
        assert WordMatches(t, w, p)[k] == WordMatches(t, w, e)[k - 1];
      }
    } else {
      WordMatchAt(t, w, p + 1, k);
    }
  }

  /** A scan from `p` finds a match exactly when the word stands whole
      somewhere at or after `p`. */
  lemma WordMatchesFind(t: string, w: string, p: nat)
    requires |w| > 0
    ensures |WordMatches(t, w, p)| > 0 <==> exists a :: p <= a && WordAt(t, w, a)
  {
    if |WordMatches(t, w, p)| > 0 {
      WordMatchAt(t, w, p, 0);
    }
    forall a | p <= a && WordAt(t, w, a) ensures |WordMatches(t, w, p)| > 0 {
      FirstWordMatch(t, w, p, a);
    }
  }

  /** The scan takes its first match at the first place at or after `p`
      where the word stands whole. */
  lemma {:induction false} FirstWordMatch(t: string, w: string, p: nat, a: nat)
    requires |w| > 0 && p <= a && WordAt(t, w, a)
    ensures |WordMatches(t, w, p)| > 0
    ensures (forall b :: p <= b < a ==> !WordAt(t, w, b)) ==> MatchFrom(t, w, a, WordMatches(t, w, p)[0])
    decreases a - p
  {
    if !WordAt(t, w, p) {
      FirstWordMatch(t, w, p + 1, a);
    }
  }

  /** `\bmust\b` does not match inside "mustard". */
  lemma MustardHasNoMust()
    ensures WordMatches("mustard", "must", 0) == []
  {
    assert !Boundary("mustard", 4);
    assert forall a :: 0 <= a ==> !WordAt("mustard", "must", a);
    WordMatchesFind("mustard", "must", 0);
  }

  /** A word whose first and last characters are not whitespace. */
  predicate SolidEnds(w: string)
  {
    |w| > 0 && !Js.IsSpace(w[0]) && !Js.IsSpace(w[|w| - 1])
  }

  /** Trimming a constraint match keeps the word at its head. */
  lemma TrimConstraint(s: string, w: string)
    requires SolidEnds(w) && ConstraintShaped(s, w)
    ensures ConstraintShaped(Js.Trim(s), w)
  {
    Js.TrimIsSlice(s);
    var a, b :| && 0 <= a <= b <= |s| && Js.Trim(s) == s[a..b]
                && (forall i :: 0 <= i < a ==> Js.IsSpace(s[i]))
                && (forall i :: b <= i < |s| ==> Js.IsSpace(s[i]));
    assert Js.Lower(s[..|w|])[0] == Js.LowerChar(s[0]);
    Utils.LowerSpace(s[0]);
    assert Js.Lower(s[..|w|])[|w| - 1] == Js.LowerChar(s[|w| - 1]);
    Utils.LowerSpace(s[|w| - 1]);
    assert a == 0 && b >= |w|;
    var r := Js.Trim(s);
    assert r[..|w|] == s[..|w|];
    forall j | |w| <= j < |r| ensures !Terminator(r[j]) {
      assert r[j] == s[j];
    }
  }

  /** `s` is a raw constraint match for one of `words`. */
  predicate ShapedBySome(s: string, words: seq<string>)
  {
    exists k :: 0 <= k < |words| && ConstraintShaped(s, words[k])
  }

  /** The trimmed matches of each word in `words`, word by word. */
  function ConstraintMatches(t: string, words: seq<SolidWord>): (r: seq<string>)
    ensures forall i :: 0 <= i < |r| ==> ShapedBySome(r[i], words)
  {
    if |words| == 0 then []
    else
      assert SolidEnds(words[0]);
      var here := TrimmedWordMatches(t, words[0]);
      var rest := ConstraintMatches(t, words[1..]);
      ShapedBySomeTail(rest, words);
      ShapedBySomeConcat(here, rest, words);
      here + rest
  }

  /** The trimmed matches of one word. */
  function TrimmedWordMatches(t: string, w: SolidWord): (r: seq<string>)
    ensures forall i :: 0 <= i < |r| ==> ConstraintShaped(r[i], w)
  {
    var m := WordMatches(t, w, 0);
    var here := TrimAll(m);
    forall i | 0 <= i < |here| ensures ConstraintShaped(here[i], w) {
      TrimConstraint(m[i], w);
    }
    here
  }

  lemma ShapedBySomeTail(rest: seq<string>, words: seq<string>)
    requires |words| > 0
    requires forall i :: 0 <= i < |rest| ==> ShapedBySome(rest[i], words[1..])
    ensures forall i :: 0 <= i < |rest| ==> ShapedBySome(rest[i], words)
  {
    forall i | 0 <= i < |rest| ensures ShapedBySome(rest[i], words) {
      var k :| 0 <= k < |words[1..]| && ConstraintShaped(rest[i], words[1..][k]);
      assert words[1..][k] == words[k + 1];
    }
  }

  lemma ShapedBySomeConcat(here: seq<string>, rest: seq<string>, words: seq<string>)
    requires |words| > 0
    requires forall i :: 0 <= i < |here| ==> ConstraintShaped(here[i], words[0])
    requires forall i :: 0 <= i < |rest| ==> ShapedBySome(rest[i], words)
    ensures forall i :: 0 <= i < |here + rest| ==> ShapedBySome((here + rest)[i], words)
  {
    forall i | 0 <= i < |here + rest| ensures ShapedBySome((here + rest)[i], words) {
      if i < |here| {
        assert (here + rest)[i] == here[i];
      } else {
        assert (here + rest)[i] == rest[i - |here|];
      }
    }
  }

  /** The constraints of the text: the trimmed matches of all constraint
      words, de-duplicated and cut to 25. Each starts with a constraint
      word (ignoring case) followed by at most 120 non-terminators. */
  function Constraints(t: string): (r: seq<string>)
    ensures |r| <= 25 && Utils.NoDuplicates(r)
    ensures forall i :: 0 <= i < |r| ==> ShapedBySome(r[i], ConstraintWords)
    ensures Utils.FirstDistinct(r, ConstraintMatches(t, ConstraintWords), 25)
  {
    var all := ConstraintMatches(t, ConstraintWords);
    Utils.TakeOfUniq(all, 25);
    ShapedMembers(all, ConstraintWords);
    Js.Take(Utils.Uniq(all), 25)
  }

  /** What holds of every element holds of every member. */
  lemma ShapedMembers(all: seq<string>, words: seq<string>)
    requires forall i :: 0 <= i < |all| ==> ShapedBySome(all[i], words)
    ensures forall s :: s in all ==> ShapedBySome(s, words)
  {
  }

  /** The entities: the URL matches, then the capitalised-token matches,
      de-duplicated and cut to 25. The two regular expressions are given
      as functions of the normalised text. */
  function Entities(t: string, urlsOf: string -> seq<string>, capsOf: string -> seq<string>): (r: seq<string>)
    ensures |r| <= 25 && Utils.NoDuplicates(r)
    ensures forall i :: 0 <= i < |r| ==> r[i] in urlsOf(t) + capsOf(t)
    ensures Utils.FirstDistinct(r, urlsOf(t) + capsOf(t), 25)
  {
    var u := Utils.Uniq(urlsOf(t) + capsOf(t));
    var r := Js.Take(u, 25);
    assert forall i :: 0 <= i < |r| ==> r[i] == u[i];
    r
  }

  /** URLs come first: the distinct URLs lead the entity list (when there
      are at most 25 of them), and no later entity is a URL. */
  lemma UrlsFirst(t: string, urlsOf: string -> seq<string>, capsOf: string -> seq<string>)
    ensures var r := Entities(t, urlsOf, capsOf);
            var n := |Utils.Uniq(urlsOf(t))|;
            && (n <= 25 ==> n <= |r| && r[..n] == Utils.Uniq(urlsOf(t)))
            && forall i :: n <= i < |r| ==> r[i] !in urlsOf(t)
  {
    var urls := urlsOf(t);
    Utils.UniqOfConcat(urls, capsOf(t));
    var u := Utils.Uniq(urls + capsOf(t));
    assert Entities(t, urlsOf, capsOf) == Js.Take(u, 25);
  }

  /** `extractSignals(userTextRaw)`. */
  function ExtractSignals(userTextRaw: string, urlsOf: string -> seq<string>, capsOf: string -> seq<string>): (r: Extracted)
    ensures |r.questions| <= 10 && |r.constraints| <= 25 && |r.entities| <= 25
    ensures Utils.NoDuplicates(r.questions) && Utils.NoDuplicates(r.constraints) && Utils.NoDuplicates(r.entities)
    ensures forall k :: 0 <= k < |r.questions| ==> QuestionShaped(r.questions[k])
    ensures var t := Utils.NormalizeText(userTextRaw);
            && Utils.FirstDistinct(r.questions, TrimAll(QuestionMatches(t)), 10)
            && Utils.FirstDistinct(r.constraints, ConstraintMatches(t, ConstraintWords), 25)
            && Utils.FirstDistinct(r.entities, urlsOf(t) + capsOf(t), 25)
  {
    var t := Utils.NormalizeText(userTextRaw);
    Extracted(Entities(t, urlsOf, capsOf), Constraints(t), Questions(t))
  }
}
