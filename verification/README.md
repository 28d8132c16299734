# SovereignAgent core, modelled in Dafny

This project models the decision and bookkeeping core of SovereignAgent, a voice-driven personal agent. It has a TypeScript server, a multi-mind "parliament" that votes on requests, a consent-gated tool runner and a hashed audit ledger. The model covers these parts:

- **Intelligence layer.**
  - The vote aggregation engine (`aggregateVotes` and its helpers).
  - The compliance mind and the failure-context risk mind.
  - The four constant stub minds and the older majority-vote `runParliament`.
  - The eight-way and the three-way intent classifiers.
  - `extractSignals`.
  - The text helpers `clamp`, `uniq`, `includesAny` and `normalizeText`.
- **Storage.** The in-memory `MemStorage` store of users, sessions, consent requests, opportunities, actions, tokens and ledger entries, and the record shapes and defaults of `shared/schema.ts`.
- **Agent.** The session, consent and action operations of `SovereignAgent`.
- **Audit ledger service.** Recursive redaction of sensitive keys, hash-based integrity checking, CSV export and per-status and per-channel summaries.
- **Record log.** The small append-only record log with last-k reads.
- **n8n webhook.** The allow-lists, the request-id format and the decisions of `postToN8N`.

The model is written in a functional style:

- Every entity is an immutable datatype, and every operation is a pure function.
- A store operation takes the store and returns the new store together with its answer.
- Record ids, clock readings, random bytes, SHA-256, `toISOString` and the results of the OpenAI, speech and `fetch` calls are all parameters.
- JavaScript built-ins the core relies on are modelled in module `Js`:
  - `Math.round` is `floor(x + 1/2)`, computed on scaled integers;
  - `slice` with negative indices;
  - `trim` with the JavaScript whitespace set;
  - ASCII `toLowerCase`;
  - `includes`.
- A `Map` is modelled as an insertion-ordered table of rows (module `Tables`), because the order of `Map.values()` shows in the filter results.

Each source file gets its own module. The files of the intelligence layer disagree with each other about their types, so `risk.ts`, `minds.ts` and `parliament.ts` each get their own datatypes and are not reconciled with `types.ts`.

## Model

| member | source | states |
|---|---|---|
| Scoring.Directions | server/intelligence/server/intelligence/server/intelligence/server/intelligence/scoring.ts:8-12 | the direction list has one entry per vote, the i-th being the i-th vote's direction |
| Scoring.BucketCounts | server/intelligence/server/intelligence/server/intelligence/server/intelligence/scoring.ts:6-14 | approvals, revises and rejects are the multiplicities of each direction among the votes and add up to total = number of votes |
| Scoring.Top | server/intelligence/server/intelligence/server/intelligence/server/intelligence/scoring.ts:17 | the top bucket is one of the three counts and no count exceeds it |
| Scoring.AgreementPct | server/intelligence/server/intelligence/server/intelligence/server/intelligence/scoring.ts:16-19 | agreement is 0 without votes, otherwise the nearest integer to 100·top/total (halves rounded up), always within 0..100 |
| Scoring.SortDescending3 | server/intelligence/server/intelligence/server/intelligence/server/intelligence/scoring.ts:22 | the three counts come out in non-increasing order and are a permutation of the input |
| Scoring.Margin | server/intelligence/server/intelligence/server/intelligence/server/intelligence/scoring.ts:21-24 | margin is the top bucket minus the second largest, never negative, and 0 exactly when two directions share the top count |
| Scoring.DecideDirection | server/intelligence/server/intelligence/server/intelligence/server/intelligence/scoring.ts:26-33 | the chosen direction has a maximal count; REJECT only when REVISE is not maximal, APPROVE only when neither REVISE nor REJECT is |
| Scoring.ConfidenceFrom | server/intelligence/server/intelligence/server/intelligence/server/intelligence/scoring.ts:35-40 | fewer than 3 votes is LOW; HIGH exactly with at least 3 votes, agreement ≥ 80, margin ≥ 2 and risk ≤ 35; MEDIUM exactly with at least 3 votes, agreement ≥ 60, margin ≥ 1, risk ≤ 60 and not HIGH |
| Scoring.ConfidenceMonotone | server/intelligence/server/intelligence/server/intelligence/server/intelligence/scoring.ts:35-40 | more votes, more agreement, a larger margin or a lower risk never lowers the confidence level |
| Scoring.RawScoreIsRoundedFormula | server/intelligence/server/intelligence/server/intelligence/server/intelligence/scoring.ts:47-52 | the scaled-integer score is Math.round of meanScore − 0.55·meanRisk − 0.35·(100 − agreement), computed over the reals |
| Scoring.QuotientOfScaledSum | server/intelligence/server/intelligence/server/intelligence/server/intelligence/scoring.ts:47-51 | the real-number identity that turns the source's penalised mean into one quotient |
| Scoring.ScaledFormula | server/intelligence/server/intelligence/server/intelligence/server/intelligence/scoring.ts:47-51 | the integer numerator over 100·n equals mean score − 0.55·mean risk − 0.35·dissent, computed in reals |
| Scoring.CapScore | server/intelligence/server/intelligence/server/intelligence/server/intelligence/scoring.ts:54-55 | the cap never raises the score; REJECT caps it at 25, REVISE at 65, APPROVE keeps it |
| Scoring.TopReasons | server/intelligence/server/intelligence/server/intelligence/server/intelligence/scoring.ts:57-61 | the top reasons are the first min(12, all) "MIND: reason" strings in vote order |
| Scoring.NextSteps | server/intelligence/server/intelligence/server/intelligence/server/intelligence/scoring.ts:58 | the next steps are duplicate-free, at most 20, and a prefix of the first-occurrence deduplication of all steps |
| Scoring.FinalRisk | server/intelligence/server/intelligence/server/intelligence/server/intelligence/scoring.ts:48-53 | the final risk is in 0..100, 0 without votes, and for in-range votes exactly the rounded mean risk, with the clamp never needed |
| Scoring.AggregateVotes | server/intelligence/server/intelligence/server/intelligence/server/intelligence/scoring.ts:42-62 | every documented range holds; the counts add to the vote count; REJECT scores ≤ 25 and REVISE ≤ 65; fewer than 3 votes is LOW, and HIGH or MEDIUM only above their thresholds |
| Scoring.AggregateCountsVotes | server/intelligence/server/intelligence/server/intelligence/server/intelligence/scoring.ts:43-61 | the consensus counts are the direction multiplicities; the margin is the top count minus the middle one, and 0 exactly when two directions share the top count |
| Scoring.AggregateConsensus | server/intelligence/server/intelligence/server/intelligence/server/intelligence/scoring.ts:43-56 | the direction, agreement, margin, final risk and confidence are decideDirection, computeAgreementPct, computeMargin, the rounded mean risk and confidenceFrom of the counts |
| Scoring.AggregateLists | server/intelligence/server/intelligence/server/intelligence/server/intelligence/scoring.ts:57-61 | the top reasons are the first 12 labelled reasons; the next steps the first 20 distinct ones; the risk tags and signals are exactly `uniq` of all the votes' lists, each kept at its first occurrence |
| Scoring.EmptyVotes | server/intelligence/server/intelligence/server/intelligence/server/intelligence/scoring.ts:42-62 | no votes gives REVISE, score 0, risk 0, LOW confidence and empty lists |
| Scoring.TieGoesToRevise | server/intelligence/server/intelligence/server/intelligence/server/intelligence/scoring.ts:26-33 | two APPROVE and two REVISE votes give REVISE, margin 0 and agreement 50 |
| Scoring.DirectionPriority | server/intelligence/server/intelligence/server/intelligence/server/intelligence/scoring.ts:29-32 | REVISE exactly when its count is maximal; REJECT exactly when it beats REVISE and is at least APPROVE; APPROVE exactly when it is strictly largest |
| Scoring.SumRisksInRange | server/intelligence/server/intelligence/server/intelligence/server/intelligence/scoring.ts:48 | in-range votes have a risk sum between 0 and 100 per vote |
| Scoring.FinalScoreFormula | server/intelligence/server/intelligence/server/intelligence/server/intelligence/scoring.ts:49-55 | the final score is the direction cap of clamp(s), where s is Math.round of mean score − 0.55·mean risk − 0.35·(100 − agreement), computed over the reals |
| Scoring.RawScoreNearest | server/intelligence/server/intelligence/server/intelligence/server/intelligence/scoring.ts:47-52 | for any vote count, the scaled-integer raw score is Math.round of the real score formula, both means being 0 without votes |
| Scoring.TopReasonsKeepDuplicates | server/intelligence/server/intelligence/server/intelligence/server/intelligence/scoring.ts:57 | top reasons are not deduplicated: two identical votes contribute two identical lines |
| Utils.Clamp | server/intelligence/server/intelligence/utils.ts:5-7 | the result lies in [min, max] when min ≤ max, equals n inside the range and the nearer bound outside it |
| Utils.Clamp100 | server/intelligence/server/intelligence/utils.ts:5-7 | with the default bounds the result is in 0..100 and the identity on 0..100 |
| Utils.ClampIdempotent | server/intelligence/server/intelligence/utils.ts:5-7 | clamping twice equals clamping once |
| Utils.Uniq | server/intelligence/server/intelligence/utils.ts:9-11 | the result is duplicate-free, has exactly the input's elements and is no longer than the input |
| Utils.FirstIndex | server/intelligence/server/intelligence/utils.ts:9-11 | the position of an element's first occurrence: it holds the element and nothing before it does |
| Utils.FirstIndexOfSnoc | server/intelligence/server/intelligence/utils.ts:9-11 | appending an element does not move an earlier element's first occurrence |
| Utils.FirstIndexOfNew | server/intelligence/server/intelligence/utils.ts:9-11 | a new element's first occurrence is where it was appended |
| Utils.UniqKeepsFirstOccurrenceOrder | server/intelligence/server/intelligence/utils.ts:9-11 | the deduplicated elements appear in the order of their first occurrences |
| Utils.UniqOfDuplicateFree | server/intelligence/server/intelligence/utils.ts:9-11 | a duplicate-free list is its own deduplication |
| Utils.UniqIdempotent | server/intelligence/server/intelligence/utils.ts:9-11 | deduplicating twice equals deduplicating once |
| Utils.UniqOfConcat | server/intelligence/server/intelligence/utils.ts:9-11 | deduplicating a + b starts with the deduplication of a and continues only with elements not in a |
| Utils.UniqSnoc | server/intelligence/server/intelligence/utils.ts:9-11 | appending an element already present leaves the deduplication unchanged; appending a new one appends it |
| Utils.UniqOfPrefix | server/intelligence/server/intelligence/utils.ts:9-11 | deduplicating an extension of a list starts with the deduplication of the list and adds only elements not in it |
| Utils.TakeOfUniq | server/intelligence/server/intelligence/utils.ts:9-11 | the first n deduplicated elements are at most n, duplicate-free and drawn from the input |
| Utils.IncludesAny | server/intelligence/server/intelligence/utils.ts:25-28 | true exactly when some lower-cased needle occurs in the lower-cased haystack |
| Utils.IncludesAnyEmptyNeedle | server/intelligence/server/intelligence/utils.ts:25-28 | an empty needle matches every haystack |
| Utils.IncludesAnyAt | server/intelligence/server/intelligence/utils.ts:25-28 | one lower-cased needle occurring in the lower-cased haystack is enough for a match |
| Utils.NonSpaceConcat | server/intelligence/server/intelligence/utils.ts:21-23 | the non-whitespace content of a concatenation is the concatenation of the contents |
| Utils.NonSpaceEmptyIff | server/intelligence/server/intelligence/utils.ts:21-23 | a text has no non-whitespace content exactly when every character is whitespace |
| Utils.CollapseSpaces | server/intelligence/server/intelligence/utils.ts:22 | the result is single-spaced (its whitespace is all ' ', never two in a row), has the same non-whitespace characters in the same order, is empty exactly for empty input, and starts with ' ' exactly when the input starts with whitespace |
| Utils.SingleSpacedSlice | server/intelligence/server/intelligence/utils.ts:22 | a slice of a single-spaced text is single-spaced |
| Utils.TrimKeepsShape | server/intelligence/server/intelligence/utils.ts:22 | trimming a single-spaced text keeps it single-spaced and keeps its content |
| Utils.NonSpaceOfTrimmed | server/intelligence/server/intelligence/utils.ts:22 | a text without leading whitespace has content exactly when it is non-empty |
| Utils.NonSpaceDropLeading | server/intelligence/server/intelligence/utils.ts:22 | dropping leading whitespace keeps the non-whitespace content |
| Utils.NonSpaceDropTrailing | server/intelligence/server/intelligence/utils.ts:22 | dropping trailing whitespace keeps the non-whitespace content |
| Utils.TrimKeepsContent | server/intelligence/server/intelligence/utils.ts:22 | trimming keeps the non-whitespace content |
| Utils.NormalizeText | server/intelligence/server/intelligence/utils.ts:21-23 | the result is single-spaced with no whitespace at either end, keeps the non-whitespace characters in order, and is empty exactly for all-whitespace input |
| Utils.CollapseOfSingleSpaced | server/intelligence/server/intelligence/utils.ts:22 | collapsing an already single-spaced text changes nothing |
| Utils.NormalizeOfNormalized | server/intelligence/server/intelligence/utils.ts:21-23 | normalizing a normalized text changes nothing |
| Utils.NormalizeIdempotent | server/intelligence/server/intelligence/utils.ts:21-23 | normalizing twice equals normalizing once |
| Utils.RunLen | server/intelligence/server/intelligence/utils.ts:22 | the length of the leading non-whitespace run: no whitespace before it, whitespace at it |
| Utils.WordsAreRuns | server/intelligence/server/intelligence/utils.ts:22 | every word is a non-empty run of non-whitespace characters |
| Utils.WordsDropSpaces | server/intelligence/server/intelligence/utils.ts:22 | leading whitespace carries no word |
| Utils.RunLenConcat | server/intelligence/server/intelligence/utils.ts:22 | the leading run of a + b ends inside a unless it fills all of a |
| Utils.WordsOfRun | server/intelligence/server/intelligence/utils.ts:22 | a whole run followed by whitespace or nothing is the first word |
| Utils.WordsDropTrailing | server/intelligence/server/intelligence/utils.ts:22 | trailing whitespace carries no word |
| Utils.WordsOfTrim | server/intelligence/server/intelligence/utils.ts:22 | trimming keeps the words |
| Utils.CollapseOfRun | server/intelligence/server/intelligence/utils.ts:22 | collapsing copies a run of non-whitespace characters unchanged |
| Utils.CollapseKeepsWords | server/intelligence/server/intelligence/utils.ts:22 | replacing each whitespace run by one space keeps the words, in order |
| Utils.NormalizedIsJoinedWords | server/intelligence/server/intelligence/utils.ts:21-23 | a normalized text is its words joined by single spaces |
| Utils.NormalizeJoinsWords | server/intelligence/server/intelligence/utils.ts:21-23 | normalizeText(s) is exactly the words of s joined by single spaces |
| Utils.LowerNormalized | server/intelligence/server/intelligence/server/intelligence/intent.ts:7 | the lower-cased normalized text is normalized and has the lower-cased content of the input |
| Utils.LowerSpace | server/intelligence/server/intelligence/utils.ts:26 | lower-casing neither creates nor removes whitespace |
| Utils.LowerKeepsShape | server/intelligence/server/intelligence/server/intelligence/intent.ts:7 | lower-casing a normalized text keeps it normalized |
| Utils.LowerNonSpace | server/intelligence/server/intelligence/server/intelligence/intent.ts:7 | lower-casing commutes with taking the non-whitespace content |
| Utils.NoTermOccurs | server/intelligence/server/intelligence/utils.ts:25-28 | a lower-case haystack missing one character of each needle matches no needle |
| Types.EnumerationSizes | server/intelligence/types.ts:3-31 | directions and confidence levels have three values each, risk and signal tags seven each |
| Types.MindNameInjective | server/intelligence/types.ts:5-11 | distinct minds have distinct names |
| Compliance.DirectionOf | server/intelligence/server/intelligence/server/intelligence/server/intelligence/server/intelligence/minds/compliance.ts:37-39 | REJECT exactly from risk 70, REVISE exactly on 40..69, APPROVE below 40 |
| Compliance.Assess | server/intelligence/server/intelligence/server/intelligence/server/intelligence/server/intelligence/minds/compliance.ts:13-40 | risk = 20 + 25·credential + 20·legal + 30·concealment and score = 70 − 25·credential − 15·legal − 30·concealment, so risk is in 20..95 and score in 0..70; one reason and one next step per fired check; evidence only for production |
| Compliance.CredentialCheck | server/intelligence/server/intelligence/server/intelligence/server/intelligence/server/intelligence/minds/compliance.ts:15-21 | when it fires: SECURITY and PRIVACY tags, a confirmation signal, risk +25, score −25, its reason and step appended, evidence untouched; otherwise no change |
| Compliance.LegalCheck | server/intelligence/server/intelligence/server/intelligence/server/intelligence/server/intelligence/minds/compliance.ts:22-26 | when it fires: LEGAL and REPUTATION tags, risk +20, score −15, its reason and step appended, signals and evidence untouched; otherwise no change |
| Compliance.ConcealmentCheck | server/intelligence/server/intelligence/server/intelligence/server/intelligence/server/intelligence/minds/compliance.ts:27-31 | when it fires: LEGAL and REPUTATION tags, a high-impact signal, risk +30, score −30, its reason and step appended, evidence untouched; otherwise no change |
| Compliance.ProductionCheck | server/intelligence/server/intelligence/server/intelligence/server/intelligence/server/intelligence/minds/compliance.ts:32-36 | when it fires: evidence, reason and step appended, risk, score, tags and signals untouched; otherwise no change |
| Compliance.ComplianceMind | server/intelligence/server/intelligence/server/intelligence/server/intelligence/server/intelligence/minds/compliance.ts:6-41 | the vote is a COMPLIANCE vote in range whose direction follows its risk |
| Compliance.NoMatchApproves | server/intelligence/server/intelligence/server/intelligence/server/intelligence/server/intelligence/minds/compliance.ts:13-40 | with no keyword match: APPROVE, score 70, risk 20, every list empty |
| Compliance.CredentialNeverApproves | server/intelligence/server/intelligence/server/intelligence/server/intelligence/server/intelligence/minds/compliance.ts:15-39 | a credential keyword adds SECURITY, PRIVACY and USER_CONFIRMATION_REQUIRED and the vote is never APPROVE |
| Compliance.ConcealmentNeverApproves | server/intelligence/server/intelligence/server/intelligence/server/intelligence/server/intelligence/minds/compliance.ts:27-39 | concealment adds LEGAL, REPUTATION and HIGH_IMPACT and the vote is never APPROVE |
| Compliance.LegalTagsRepeat | server/intelligence/server/intelligence/server/intelligence/server/intelligence/server/intelligence/minds/compliance.ts:22-31 | legal together with concealment lists LEGAL twice |
| Compliance.ProductionOnlyAddsNotes | server/intelligence/server/intelligence/server/intelligence/server/intelligence/server/intelligence/minds/compliance.ts:32-36 | the production check leaves score, risk, tags, signals and direction as they were and only adds notes |
| Compliance.DirectionTable | server/intelligence/server/intelligence/server/intelligence/server/intelligence/server/intelligence/minds/compliance.ts:37-39 | REJECT exactly for concealment plus credential or legal; APPROVE exactly when none of the three fires |
| Compliance.IssueFiresLegal | server/intelligence/server/intelligence/server/intelligence/server/intelligence/server/intelligence/minds/compliance.ts:22 | substring matching makes "issue" fire the legal check through "sue" |
| Compliance.IssueFiresOnlyLegal | server/intelligence/server/intelligence/server/intelligence/server/intelligence/server/intelligence/minds/compliance.ts:15-36 | "issue" fires no other check |
| Compliance.IssueNoCredential | server/intelligence/server/intelligence/server/intelligence/server/intelligence/server/intelligence/minds/compliance.ts:15 | "issue" contains no credential keyword |
| Compliance.IssueNoConcealment | server/intelligence/server/intelligence/server/intelligence/server/intelligence/server/intelligence/minds/compliance.ts:27 | "issue" contains no concealment keyword |
| Compliance.IssueNoProduction | server/intelligence/server/intelligence/server/intelligence/server/intelligence/server/intelligence/minds/compliance.ts:32 | "issue" contains no production keyword |
| Compliance.IssueIsRevised | server/intelligence/server/intelligence/server/intelligence/server/intelligence/server/intelligence/minds/compliance.ts:6-41 | the text "issue" gets REVISE with score 55 and risk 40 |
| Compliance.LegalOnly | server/intelligence/server/intelligence/server/intelligence/server/intelligence/server/intelligence/minds/compliance.ts:22-39 | the legal check alone gives REVISE, score 55, risk 40 |
| Compliance.NormalizedIssue | server/intelligence/server/intelligence/server/intelligence/server/intelligence/server/intelligence/minds/compliance.ts:7 | normalizing and lower-casing "issue" leaves it unchanged |
| Compliance.IssueIsLowerCase | server/intelligence/server/intelligence/server/intelligence/server/intelligence/server/intelligence/minds/compliance.ts:7 | "issue" is already lower case |
| RiskMind.DirectionOf | server/intelligence/server/intelligence/server/intelligence/server/intelligence/server/intelligence/minds/server/intelligence/minds/risk.ts:23 | APPROVE exactly from 70, REJECT exactly on 40..69, REVISE below 40 |
| RiskMind.RiskMindStep | server/intelligence/server/intelligence/server/intelligence/server/intelligence/server/intelligence/minds/server/intelligence/minds/risk.ts:4-25 | the vote is a RISK vote; a REVISE intent appends the repeat-failure reason to the caller's reasons; the score is always 10, 40 or 50 |
| RiskMind.AnyTransientSnoc | server/intelligence/server/intelligence/server/intelligence/server/intelligence/server/intelligence/minds/server/intelligence/minds/risk.ts:17 | a list has a transient reason exactly when its prefix or its last element has one |
| RiskMind.RiskMindOutcomes | server/intelligence/server/intelligence/server/intelligence/server/intelligence/server/intelligence/minds/server/intelligence/minds/risk.ts:6-23 | in terms of the caller's reasons: REVISE intent and no transient reason gives 10 and REVISE; a transient reason gives 40 with REVISE intent, 50 otherwise, and REJECT; neither gives 50 and REJECT; tags and signals are those of the blocks that fired, in order; never APPROVE |
| RiskMind.RepeatReasonNotTransient | server/intelligence/server/intelligence/server/intelligence/server/intelligence/server/intelligence/minds/server/intelligence/minds/risk.ts:13-17 | the repeat-failure reason contains neither "timeout" nor "network" |
| RiskMind.TransientAfterRepeatCheck | server/intelligence/server/intelligence/server/intelligence/server/intelligence/server/intelligence/minds/server/intelligence/minds/risk.ts:13-17 | the reasons line 17 reads have a transient reason exactly when the caller's reasons do |
| RiskMind.TransientOverridesCap | server/intelligence/server/intelligence/server/intelligence/server/intelligence/server/intelligence/minds/server/intelligence/minds/risk.ts:17-21 | a timeout or network reason floors the score at 40 and makes the direction REJECT, overriding the REVISE cap |
| RiskMind.ReasonsUntouchedUnlessRevise | server/intelligence/server/intelligence/server/intelligence/server/intelligence/server/intelligence/minds/server/intelligence/minds/risk.ts:10-15 | the caller's reasons are changed only when the intent is REVISE |
| RiskMind.DirectionNotMonotone | server/intelligence/server/intelligence/server/intelligence/server/intelligence/server/intelligence/minds/server/intelligence/minds/risk.ts:23 | the direction mapping is not monotone: 39 is milder than 40, and 69 is harsher than 70 |
| Parliament.StubRiskMind | server/intelligence/minds.ts:4-11 | whatever the context: RISK, REVISE, score 50 |
| Parliament.OperationsMind | server/intelligence/minds.ts:14-21 | whatever the context: OPERATIONS, APPROVE, score 75 |
| Parliament.EvidenceMind | server/intelligence/minds.ts:24-31 | whatever the context: EVIDENCE, APPROVE, score 70 |
| Parliament.EfficiencyMind | server/intelligence/minds.ts:34-41 | whatever the context: EFFICIENCY, APPROVE, score 80 |
| Parliament.CountOf | server/intelligence/parliament.ts:15-16 | a direction count never exceeds the vote count |
| Parliament.Majority | server/intelligence/parliament.ts:18-21 | APPROVE exactly when approves outnumber rejects, REJECT exactly when rejects outnumber approves, REVISE exactly on a tie |
| Parliament.SumBetween | server/intelligence/parliament.ts:14 | the score sum lies between count·min and count·max |
| Parliament.ScoreBounds | server/intelligence/parliament.ts:14 | every vote's score lies between the least and the greatest score |
| Parliament.SumAtLeast | server/intelligence/parliament.ts:14 | scores all at least m sum to at least count·m |
| Parliament.SumAtMost | server/intelligence/parliament.ts:14 | scores all at most m sum to at most count·m |
| Parliament.Decide | server/intelligence/parliament.ts:14-23 | the decision is PARLIAMENT's, follows the majority, and its score is the rounded mean, between the smallest and largest vote score |
| Parliament.RunParliament | server/intelligence/parliament.ts:4-24 | exactly four votes, in the order risk, operations, evidence, efficiency, are stored in the context and decided |
| Parliament.StubParliamentApproves | server/intelligence/parliament.ts:4-23 | with the stub minds every context yields APPROVE with score 69 |
| Parliament.ReviseVotesDoNotCount | server/intelligence/parliament.ts:15-21 | adding a REVISE vote never changes the direction |
| SimpleIntent.ClassifyMessage | server/intelligence/intent.ts:3-18 | never Unknown; parliament exactly when the lower-cased message mentions a parliament word; query exactly when it mentions no parliament word but a query word |
| SimpleIntent.WordsMentioned | server/intelligence/intent.ts:7-12 | the two word lists are exactly the words the source tests |
| SimpleIntent.ClassifyIgnoresCase | server/intelligence/intent.ts:4 | lower-casing the message first does not change the answer |
| SimpleIntent.EmptyIsCommand | server/intelligence/intent.ts:3-18 | the empty message is a command, not unknown |
| SimpleIntent.SomewhatIsQuery | server/intelligence/intent.ts:12-14 | substring matching makes "somewhat" a query |
| SimpleIntent.ParliamentBeforeQuery | server/intelligence/intent.ts:7-9 | a message containing "vote" is parliament whatever else it contains |
| Intent.ClassifyIntent | server/intelligence/server/intelligence/server/intelligence/intent.ts:6-28 | UNKNOWN exactly for blank text |
| Intent.FirstRule | server/intelligence/server/intelligence/server/intelligence/intent.ts:8-25 | the chosen rule is the first whose keywords match: no earlier rule matches, and the chosen one does |
| Intent.ClassifyIsFirstMatch | server/intelligence/server/intelligence/server/intelligence/intent.ts:6-28 | the classifier is the first matching rule over the normalized lower-cased text, else INFO_REQUEST or UNKNOWN |
| Intent.NothingInEmpty | server/intelligence/server/intelligence/server/intelligence/intent.ts:26-27 | the empty text matches no list of non-empty keywords |
| Intent.KeywordsNonEmpty | server/intelligence/server/intelligence/server/intelligence/intent.ts:8-23 | every keyword is non-empty |
| Intent.UnknownIffBlank | server/intelligence/server/intelligence/server/intelligence/intent.ts:26-27 | blank text is UNKNOWN; non-blank text matching no rule is INFO_REQUEST |
| Intent.GovernanceFirst | server/intelligence/server/intelligence/server/intelligence/intent.ts:8-9 | text containing "vote" is a governance request whatever else it contains |
| Intent.VoteIsLowerCase | server/intelligence/server/intelligence/server/intelligence/intent.ts:8 | the governance keyword "vote" is lower case |
| Intent.PrefixIsDebug | server/intelligence/server/intelligence/server/intelligence/intent.ts:7-11 | substring matching makes "prefix" a debug request through "fix" |
| Intent.PrefixMatchesDebug | server/intelligence/server/intelligence/server/intelligence/intent.ts:11 | "prefix" matches a debug keyword |
| Intent.PrefixNotGovernance | server/intelligence/server/intelligence/server/intelligence/intent.ts:8 | "prefix" matches no governance keyword |
| Intent.NormalizedPrefix | server/intelligence/server/intelligence/server/intelligence/intent.ts:7 | normalizing and lower-casing "prefix" leaves it unchanged |
| Intent.PrefixIsLowerCase | server/intelligence/server/intelligence/server/intelligence/intent.ts:7 | "prefix" is already lower case |
| Intent.TerminatorIndex | server/intelligence/server/intelligence/server/intelligence/intent.ts:36 | the index of the first '.', '?' or '!', or the length when there is none |
| Intent.QuestionMatches | server/intelligence/server/intelligence/server/intelligence/intent.ts:36 | every match is question-shaped: a run of non-terminators ending in a '?' |
| Intent.QuestionPositionsSpec | server/intelligence/server/intelligence/server/intelligence/intent.ts:36 | the '?' positions are exactly the indices holding '?', each once, in increasing order |
| Intent.RunStart | server/intelligence/server/intelligence/server/intelligence/intent.ts:36 | where the non-terminator run ending before e starts: just after a terminator or at 0, with no terminator in between |
| Intent.QuestionPositionsConcat | server/intelligence/server/intelligence/server/intelligence/intent.ts:36 | the '?' positions of a + b are those of a, then those of b moved up by |a| |
| Intent.HeadPositions | server/intelligence/server/intelligence/server/intelligence/intent.ts:36 | up to and including the first terminator, the only possible '?' is that terminator |
| Intent.RunStartConcat | server/intelligence/server/intelligence/server/intelligence/intent.ts:36 | a run beginning after a terminator that ends a starts inside b |
| Intent.QuestionMatchesAre | server/intelligence/server/intelligence/server/intelligence/intent.ts:36 | one match per '?', in order: the k-th runs from just after the last terminator before the k-th '?' (or from the start) through that '?' |
| Intent.QuestionCountsAgree | server/intelligence/server/intelligence/server/intelligence/intent.ts:36 | there are as many matches as '?' positions |
| Intent.QuestionMatchAt | server/intelligence/server/intelligence/server/intelligence/intent.ts:36 | the k-th match, read as a slice of the whole text |
| Intent.QuestionStepAt | server/intelligence/server/intelligence/server/intelligence/intent.ts:36 | after one scan step, the k-th match and '?' position are those of the rest of the text, shifted |
| Intent.QuestionStep | server/intelligence/server/intelligence/server/intelligence/intent.ts:36 | the first terminator splits off at most one match and one '?' position, that terminator |
| Intent.NoQuestionNoPositions | server/intelligence/server/intelligence/server/intelligence/intent.ts:36 | terminator-free text has no '?' positions |
| Intent.FirstQuestionMatch | server/intelligence/server/intelligence/server/intelligence/intent.ts:36 | a match ending at the first terminator starts at 0 |
| Intent.LaterQuestionMatch | server/intelligence/server/intelligence/server/intelligence/intent.ts:36 | a match found after a terminator is the same slice, shifted, of the whole text |
| Intent.QuestionMatchCount | server/intelligence/server/intelligence/server/intelligence/intent.ts:36 | there are exactly as many question matches as '?' characters |
| Intent.CountAround | server/intelligence/server/intelligence/server/intelligence/intent.ts:36 | the '?' count of a text is the count before a position, at it, and after it |
| Intent.NoQuestionMark | server/intelligence/server/intelligence/server/intelligence/intent.ts:36 | a text without '?' counts none |
| Intent.TrimQuestion | server/intelligence/server/intelligence/server/intelligence/intent.ts:36 | trimming a question match keeps it question-shaped |
| Intent.TrimAllQuestions | server/intelligence/server/intelligence/server/intelligence/intent.ts:36 | trimming every question match keeps each one question-shaped |
| Intent.TrimAll | server/intelligence/server/intelligence/server/intelligence/intent.ts:36-42 | each element is the trimmed input element |
| Intent.Questions | server/intelligence/server/intelligence/server/intelligence/intent.ts:36-50 | the first min(10, n) distinct trimmed question matches, in order of first occurrence; each is question-shaped |
| Intent.RunEnd | server/intelligence/server/intelligence/server/intelligence/intent.ts:40 | a run of at most 120 non-terminator characters, stopped early only by a terminator |
| Intent.WordMatches | server/intelligence/server/intelligence/server/intelligence/intent.ts:40-41 | every match is the constraint word (ignoring case) followed by at most 120 non-terminators |
| Intent.WordMatchAt | server/intelligence/server/intelligence/server/intelligence/intent.ts:40-41 | each match is taken where the word stands whole between word boundaries, at or after the scan start, and is the word plus the greedy run of up to 120 non-terminators after it |
| Intent.WordMatchesFind | server/intelligence/server/intelligence/server/intelligence/intent.ts:40-41 | a scan finds a match exactly when the word stands whole somewhere at or after its start |
| Intent.FirstWordMatch | server/intelligence/server/intelligence/server/intelligence/intent.ts:40-41 | the first match is taken at the first place where the word stands whole |
| Intent.MustardHasNoMust | server/intelligence/server/intelligence/server/intelligence/intent.ts:40 | the boundary keeps "must" from matching inside "mustard" |
| Intent.TrimConstraint | server/intelligence/server/intelligence/server/intelligence/intent.ts:42 | trimming a constraint match keeps its shape |
| Intent.ConstraintMatches | server/intelligence/server/intelligence/server/intelligence/intent.ts:39-43 | every collected match is shaped by one of the constraint words |
| Intent.TrimmedWordMatches | server/intelligence/server/intelligence/server/intelligence/intent.ts:41-42 | each trimmed match is still shaped by its word |
| Intent.ShapedBySomeTail | server/intelligence/server/intelligence/server/intelligence/intent.ts:39-43 | a match shaped by a later word is shaped by some word of the whole list |
| Intent.ShapedBySomeConcat | server/intelligence/server/intelligence/server/intelligence/intent.ts:39-43 | shaped matches stay shaped when the lists are joined |
| Intent.Constraints | server/intelligence/server/intelligence/server/intelligence/intent.ts:37-49 | the first min(25, n) distinct trimmed matches of all constraint words, taken word by word in list order; each is a constraint word followed by at most 120 non-terminators |
| Intent.Entities | server/intelligence/server/intelligence/server/intelligence/intent.ts:44-46 | the first min(25, n) distinct URL and capitalised-token matches, URLs listed before tokens |
| Intent.UrlsFirst | server/intelligence/server/intelligence/server/intelligence/intent.ts:44-46 | URLs come before capitalised tokens |
| Intent.ExtractSignals | server/intelligence/server/intelligence/server/intelligence/intent.ts:30-52 | over the normalized text: the questions are the first 10 distinct trimmed question matches, the constraints the first 25 distinct constraint matches, the entities the first 25 distinct URL or token matches; all duplicate-free and every question question-shaped |
| Js.RoundDiv | server/intelligence/server/intelligence/server/intelligence/server/intelligence/scoring.ts:52 | Math.round of n/d: the integer nearest the quotient, halves rounded up |
| Js.RoundDivNearest | server/intelligence/server/intelligence/server/intelligence/server/intelligence/scoring.ts:18 | the rounded quotient is within half a unit of the real quotient |
| Js.RoundDivRange | server/intelligence/server/intelligence/server/intelligence/server/intelligence/scoring.ts:18 | rounding a quotient that lies between two integers stays between them |
| Js.SliceIndex | server/ledger/storage.ts:15 | a slice index is clamped to the sequence, and a negative one counts from the end |
| Js.Take | server/storage.ts:352 | slice(0, k) is the first min(k, length) elements |
| Js.TakeIsSlice | server/storage.ts:352 | taking k elements is slice(0, k) |
| Js.Lower | server/intelligence/server/intelligence/utils.ts:26 | lower-casing keeps the length and maps each character |
| Js.LowerIdempotent | server/intelligence/server/intelligence/utils.ts:26 | lower-casing twice equals lower-casing once |
| Js.LowerOfLowerCase | server/intelligence/server/intelligence/utils.ts:26 | text with no upper-case letter is its own lower case |
| Js.LowerConcat | server/intelligence/server/intelligence/utils.ts:26 | lower-casing distributes over concatenation |
| Js.Includes | server/intelligence/server/intelligence/utils.ts:27 | includes holds exactly when the needle occurs at some position |
| Js.NotIncludesMissingChar | server/intelligence/server/intelligence/utils.ts:27 | a needle with a character the haystack lacks does not occur |
| Js.TrimStart | server/intelligence/server/intelligence/utils.ts:22 | drops exactly the leading whitespace |
| Js.TrimEnd | server/intelligence/server/intelligence/utils.ts:22 | drops exactly the trailing whitespace |
| Js.Trim | server/intelligence/server/intelligence/utils.ts:22 | the result neither starts nor ends with whitespace |
| Js.TrimIsSlice | server/intelligence/server/intelligence/utils.ts:22 | trim removes only whitespace, from both ends |
| Js.TrimOfTrimmed | server/intelligence/server/intelligence/utils.ts:22 | trimming trimmed text changes nothing |
| Js.TrimIdempotent | server/intelligence/server/intelligence/utils.ts:22 | trimming twice equals trimming once |
| Js.TrimEmptyIff | server/intelligence/server/intelligence/utils.ts:22 | trim yields "" exactly for all-whitespace text |
| Js.NatToString | server/services/ledger.ts:35 | a number's decimal form is non-empty and all digits, as an array index key appears |
| Json.Keys | server/services/ledger.ts:35 | the key list of an object, in entry order |
| Json.Get | server/services/agent.ts:220-221 | a property is present exactly when its key is, and it is that entry's value |
| Tables.Ids | server/storage.ts:65-71 | the ids of a table, in insertion order |
| Tables.Get | server/storage.ts:130-132 | Map.get finds a value exactly for a present id, and the stored one |
| Tables.GetCons | server/storage.ts:130-132 | lookup in a table with a first row |
| Tables.GetInValid | server/storage.ts:130-132 | in a table with distinct ids, looking up a row's id finds that row's value |
| Tables.Set | server/storage.ts:143 | Map.set makes the id map to the value and leaves every other id as it was |
| Tables.SetKeys | server/storage.ts:143 | Map.set keeps the key order for an existing id and appends a new one |
| Tables.SetFreshAppends | server/storage.ts:143 | setting a new id appends a row |
| Tables.SetThree | server/storage.ts:86-127 | three distinct ids set in order give three rows in that order |
| Tables.SetThreeOnto | server/storage.ts:143 | three distinct new ids set in order are appended after the existing rows in that order |
| Tables.SetTwoOnto | server/storage.ts:143 | two distinct new ids set in order are appended in that order, and the keys grow by those two ids |
| Tables.SetValid | server/storage.ts:143 | Map.set keeps the ids distinct |
| Tables.Delete | server/storage.ts:323-325 | Map.delete reports whether the id was present, removes it, and leaves the other ids as they were |
| Tables.DeleteKeys | server/storage.ts:323-325 | deleting keeps the order of the remaining ids |
| Tables.DeleteValid | server/storage.ts:323-325 | deleting keeps the ids distinct |
| Tables.Values | server/storage.ts:217 | Map.values in insertion order |
| Tables.Filter | server/storage.ts:217-218 | every kept element passes the test, and nothing is gained |
| Tables.FilterCounts | server/storage.ts:217-218 | each element is kept as often as it occurs when it passes, and never otherwise |
| Tables.FilterKeepsDistinct | server/storage.ts:217-218 | filtering a duplicate-free list keeps it duplicate-free |
| Tables.FilterMembers | server/storage.ts:217-218 | an element is kept exactly when it occurs and passes |
| Tables.FilterConcat | server/storage.ts:217-218 | filtering distributes over concatenation |
| Tables.Find | server/storage.ts:135-137 | Array.find returns nothing exactly when no element passes, and otherwise a passing element |
| Schema.NamesDistinct | shared/schema.ts:33-79 | each status and channel enumeration has distinct values with distinct names |
| Schema.ConsentRequestDefaults | shared/schema.ts:33-34 | a missing status becomes pending and a missing dryRun becomes true; nothing else changes |
| Schema.ActionDefaults | shared/schema.ts:55-59 | a missing status becomes pending, dryRun false and requiresConsent true; nothing else changes |
| Schema.DefaultsIdempotent | shared/schema.ts:33-59 | applying defaults twice equals applying them once |
| Schema.ParseConsentResponse | shared/schema.ts:129-132 | parsing succeeds exactly for an object with a string requestId and a boolean approved, and returns those values |
| Schema.ParseConsentPreview | shared/schema.ts:134-139 | parsing succeeds exactly for an object with string action and scope, object parameters and dryRun absent or boolean; the fields are read from those keys, and dryRun is true exactly when absent or true |
| Schema.PreviewDefaultsToDryRun | shared/schema.ts:129-139 | a preview without dryRun is a dry run; a response without approved is rejected |
| Schema.PreviewRoundTrip | shared/schema.ts:134-139 | a preview written out as a body with every key parses back to the same preview |
| Schema.PreviewBodyFields | shared/schema.ts:134-139 | each key of a written-out preview finds its own value |
| Storage.CreateUser | server/storage.ts:140-145 | the stored user is the insert plus the new id; no other user and no other table changes |
| Storage.GetUserByUsername | server/storage.ts:134-138 | nothing exactly when no user has that name, otherwise the first user in insertion order with that name (names are not unique) |
| Storage.MergeSession | server/storage.ts:174 | a key present in the patch overrides the stored value, an absent key keeps it, and the id stays |
| Storage.MergeSessionIdempotent | server/storage.ts:174 | merging the same patch twice equals once, and an empty patch changes nothing |
| Storage.CreateSession | server/storage.ts:152-168 | active, started and last acted at now; missing lists default to [] and a missing or empty revenue to "0"; only that session changes |
| Storage.UpdateSession | server/storage.ts:170-177 | an unknown id returns nothing and changes nothing; otherwise the merge, with lastActionTime refreshed, and no other session changes |
| Storage.GetActiveSessionByUserId | server/storage.ts:179-183 | nothing exactly when the user has no active session, otherwise the first active session of that user in insertion order |
| Storage.MergeConsentIdempotent | server/storage.ts:206-210 | merging the same patch twice equals once, and an empty patch changes nothing |
| Storage.CreateConsentRequest | server/storage.ts:190-200 | the stored request is the insert, requested at now and not yet answered; nothing else changes |
| Storage.MergeConsent | server/storage.ts:206-208 | a key present in the patch overrides the stored value, an absent key keeps it; the id and respondedAt stay |
| Storage.UpdateConsentRequest | server/storage.ts:202-213 | an unknown id returns nothing and changes nothing; respondedAt is set only when the patch has a status |
| Storage.GetConsentRequestsBySessionId | server/storage.ts:215-219 | exactly the stored requests of that session |
| Storage.GetPendingConsentRequests | server/storage.ts:274-278 | exactly the stored pending requests of that session |
| Storage.CreateOpportunity | server/storage.ts:226-231 | the stored opportunity is the insert plus the id; nothing else changes |
| Storage.GetAllActiveOpportunities | server/storage.ts:233-235 | exactly the active stored opportunities |
| Storage.GetOpportunitiesByCategory | server/storage.ts:237-241 | exactly the active stored opportunities of that category |
| Storage.MergeAction | server/storage.ts:263 | a key present in the patch overrides the stored value, an absent key keeps it, and the id stays |
| Storage.MergeActionIdempotent | server/storage.ts:263 | merging the same patch twice equals once, and an empty patch changes nothing |
| Storage.CreateAction | server/storage.ts:248-257 | the stored action is the insert, the id and the time now; nothing else changes |
| Storage.UpdateAction | server/storage.ts:259-266 | an unknown id returns nothing and changes nothing; otherwise the merged action, and no other action changes |
| Storage.GetActionsBySessionId | server/storage.ts:268-272 | exactly the stored actions of that session |
| Storage.MergeToken | server/storage.ts:314-316 | a key present in the patch overrides the stored value, an absent key keeps it; the id and updatedAt stay |
| Storage.MergeTokenIdempotent | server/storage.ts:314-318 | merging the same patch twice equals once |
| Storage.GetTokenByUserAndProvider | server/storage.ts:285-289 | nothing exactly when no token has that user and provider, otherwise the first such token in insertion order |
| Storage.GetTokensByUserId | server/storage.ts:291-295 | exactly the stored tokens of that user |
| Storage.CreateToken | server/storage.ts:297-308 | the stored token is the insert, created and updated at now; nothing else changes |
| Storage.UpdateToken | server/storage.ts:310-321 | an unknown id fails with "Token not found"; otherwise the merge with updatedAt refreshed, and nothing else changes |
| Storage.DeleteToken | server/storage.ts:323-325 | true exactly when the id existed; only that token is removed |
| Storage.CreateLedgerEntry | server/storage.ts:332-341 | the stored entry is the insert with the id and the store's own time; nothing else changes |
| Storage.InsertByTime | server/storage.ts:346-350 | insertion adds exactly one element |
| Storage.InsertSorted | server/storage.ts:346-350 | insertion keeps a newest-first list newest-first |
| Storage.InsertBounded | server/storage.ts:346-350 | inserting an entry no newer than a bound among such entries leaves all of them within the bound |
| Storage.ConsSorted | server/storage.ts:346-350 | a newest-first list under a head at least as new stays newest-first |
| Storage.SortByTimeDesc | server/storage.ts:346-350 | the sort is a newest-first permutation of its input |
| Storage.NoneAtTime | server/storage.ts:346-350 | no entry is at a time later than all of them |
| Storage.InsertKeepsTies | server/storage.ts:346-350 | insertion puts a new entry after the entries with the same time |
| Storage.SortIsStable | server/storage.ts:346-350 | entries with equal times keep their insertion order, as Array.sort is stable |
| Storage.SliceFromZero | server/storage.ts:352 | slice(0, end) is the clamped prefix |
| Storage.UserEntries | server/storage.ts:344-345 | exactly the stored entries of that user |
| Storage.SortedPrefix | server/storage.ts:352 | a prefix of a newest-first list is newest-first and drawn from it |
| Storage.GetLedgerEntriesByUserId | server/storage.ts:343-353 | only that user's stored entries, newest first, as many as slice(0, limit) keeps of them (limit 50 by default) |
| Storage.SortKeepsLength | server/storage.ts:346-350 | sorting keeps the length |
| Storage.LedgerQueryNewest | server/storage.ts:343-353 | the result is drawn from the user's entries, holds min(limit, n) of them for a non-negative limit, and no entry left out is newer than one returned |
| Storage.PrefixIsNewest | server/storage.ts:352 | a prefix of a newest-first list holds its newest elements |
| Storage.LedgerQueryComplete | server/storage.ts:343-353 | a large enough limit returns every entry of the user |
| Storage.Seeded | server/storage.ts:86-127 | the seeded store holds the default user and no sessions, consent requests, actions, tokens or ledger entries |
| Storage.SeededOpportunities | server/storage.ts:99-126 | three active opportunities are seeded, one per category |
| Storage.SeededUserFound | server/storage.ts:88-97 | the seeded user is found by name |
| Agent.CreateSession | server/services/agent.ts:16-36 | the stored session is active with empty lists and revenue "0", the agent keeps a matching copy, and nothing else changes |
| Agent.RequestConsentScope | server/services/agent.ts:164-170 | a pending request for the scope is filed, and nothing else changes |
| Agent.SetScopes | server/services/agent.ts:184-193 | the stored scopes are replaced and lastActionTime refreshed; the agent copy, if there is one, gets the same scopes |
| Agent.HandleConsentResponse | server/services/agent.ts:172-196 | fails with "Consent request not found" exactly for an unknown request |
| Agent.ConsentAnswerRecorded | server/services/agent.ts:173-175 | the request becomes granted or denied and is marked answered now |
| Agent.ApprovalAppendsScope | server/services/agent.ts:181-195 | approval appends the scope, without deduplication, to the stored scopes and to the agent copy, stamps lastActionTime, and leaves every other session, the copy's other fields and every table but sessions and consent requests unchanged |
| Agent.DenialKeepsScopes | server/services/agent.ts:181 | a denial leaves every session as it was |
| Agent.RevokeConsentScope | server/services/agent.ts:198-212 | an unknown session changes nothing; otherwise every occurrence of the scope goes, the other scopes keep their order and count, lastActionTime becomes now, the agent's copy (if any) gets the same list, and no other session or table changes |
| Agent.RevokeIdempotent | server/services/agent.ts:198-212 | revoking twice leaves the same scopes as revoking once |
| Agent.FilterWithout | server/services/agent.ts:201 | filtering out an absent scope keeps the list |
| Agent.ExecuteAction | server/services/agent.ts:214-244 | success exactly for the three known tools; any other tool fails with "Unknown tool: " and its name; a shortcut passes a truthy input through as its output, an intent its extras and a reply its payload, each with its own message and no other result keys |
| Agent.ShortcutDefaultOutput | server/services/agent.ts:221 | a shortcut without a truthy input outputs "executed" |
| Agent.GetSessionStats | server/services/agent.ts:246-267 | fails with "Session not found" exactly for an unknown session; otherwise the counts are the list lengths |
| Agent.NewSessionStats | server/services/agent.ts:246-267 | a new session has zero counts and revenue "0" |
| Agent.FileRequests | server/services/agent.ts:74-82 | filing requests changes only the consent requests |
| Agent.FileRequestsKeeps | server/services/agent.ts:74-82 | requests with other ids stay as they were |
| Agent.FileRequestsFiles | server/services/agent.ts:74-82 | one pending request per requested scope is filed under its own id |
| Agent.ProcessTextInput | server/services/agent.ts:125-162 | fails for a session the agent does not hold and for a missing user; otherwise returns the reply as given and changes only consent requests |
| Agent.TextInputFilesRequests | server/services/agent.ts:147-155 | every requested scope gets a pending request |
| Agent.RunActions | server/services/agent.ts:85-104 | each call is recorded as an action; only actions change |
| Agent.RunAction | server/services/agent.ts:86-103 | one call: a pending action with the given id, session, tool and args is recorded, then stored as success or failure with the call's result as JSON; other actions and the rest of the store are untouched |
| Agent.RunActionsResultAt | server/services/agent.ts:86-103 | the k-th recorded action gets the k-th id and the k-th call's result |
| Agent.RunActionsResults | server/services/agent.ts:86-103 | the k-th recorded action gets the k-th id and the k-th call's result |
| Agent.ProcessVoiceInput | server/services/agent.ts:42-123 | as written: fails for an unknown session; on success the reply echoes the transcription, response, audio and requested scopes, its k-th action is the k-th call stored under the k-th id left after the consent requests, the session's stored history becomes the agent copy's history plus this task, and users and agent sessions are unchanged |
| Agent.VoiceInputFilesRequests | server/services/agent.ts:74-82 | with enough distinct ids, a voice input files one pending consent request per requested scope, for the session, under the k-th id |
| Agent.FileAndRun | server/services/agent.ts:74-104 | only consent requests and actions change; the requests are those filed per scope, and the k-th executed action is the k-th call under the k-th id left over |
| Agent.VoiceInputDropsHistory | server/services/agent.ts:107-114 | a stored task is lost by the next voice input |
| Agent.TwoVoiceInputsKeepOneTask | server/services/agent.ts:107-114 | after two voice inputs on a new session only one task is stored |
| Agent.ProcessVoiceInputAppending | server/services/agent.ts:107-114 | corrected: on success the stored history gains exactly this task at its end |
| Agent.AppendingKeepsHistory | server/services/agent.ts:107-114 | corrected: every voice input lengthens the stored history by one |
| Ledger.RedactSensitiveData | server/services/ledger.ts:20-48 | the same keys in order; sensitive keys masked, objects and arrays redacted recursively, other values kept |
| Ledger.ShippingContainsPin | server/services/ledger.ts:21-37 | the key "shipping" counts as sensitive, because it contains "pin" |
| Ledger.AccessTokensContainsToken | server/services/ledger.ts:21-37 | the key "AccessTokens" counts as sensitive, because lower-cased it contains "token" |
| Ledger.RedactCleans | server/services/ledger.ts:20-48 | no sensitive key keeps its value anywhere in a redacted value |
| Ledger.EntryCleans | server/services/ledger.ts:36-44 | redacting one entry leaves it clean |
| Ledger.RedactIdempotent | server/services/ledger.ts:20-48 | redacting a redacted value changes nothing |
| Ledger.EntryIdempotent | server/services/ledger.ts:36-44 | redacting an entry twice equals once |
| Ledger.ArrayBecomesObject | server/services/ledger.ts:35-41 | an array value comes back as an object keyed by indices |
| Ledger.SubstringMatching | server/services/ledger.ts:36-37 | matching is substring and case-insensitive: "shipping" and "AccessTokens" are sensitive |
| Ledger.RedactValue | server/services/ledger.ts:20-48 | an object keeps its keys in order, an array becomes an object keyed by its indices, anything else is returned as it is |
| Ledger.RedactEntry | server/services/ledger.ts:36-44 | a sensitive key's value becomes "[REDACTED]"; under any other key the value is redacted recursively, scalars kept |
| Ledger.RedactPayloadIdempotent | server/services/ledger.ts:20-48 | redacting a payload twice equals redacting it once |
| Ledger.HashInputInjective | server/services/ledger.ts:7-15 | the hashed document determines the time, every hashed field and the redacted payload |
| Ledger.HashInput | server/services/ledger.ts:7-15 | the hashed object's keys are userId, action, channel, status, payload, result (only when present) and timestamp, in that order; the payload is redacted and the timestamp is the ISO time |
| Ledger.CreateHashRedactsFirst | server/services/ledger.ts:12 | an already redacted payload hashes like the raw one |
| Ledger.CreateHashDetermines | server/services/ledger.ts:6-17 | with a collision-free digest and date format, equal hashes mean equal times, equal hashed fields and equal redacted payloads |
| Ledger.LogAction | server/services/ledger.ts:50-79 | as written: the stored payload is redacted and the hash covers the logging time, while the entry carries the store's time |
| Ledger.LoggedEntryVerifiesWithinTick | server/services/ledger.ts:50-113 | when the two clock readings agree, the logged entry verifies |
| Ledger.LoggedEntryFailsAcrossTick | server/services/ledger.ts:59-77 | when the store's clock reading differs, the logged entry does not verify |
| Ledger.LogActionOnce | server/services/ledger.ts:50-113 | corrected: one timestamp for hash and entry, and the logged entry always verifies |
| Ledger.VerifyDetectsTampering | server/services/ledger.ts:100-113 | with a collision-free digest, changing the action, channel, status or time breaks verification |
| Ledger.VerifyExactlyUnchanged | server/services/ledger.ts:100-113 | against a verified entry's hash, verification accepts exactly the entries with the same time, userId, action, channel, status, result and redacted payload |
| Ledger.GetLedger | server/services/ledger.ts:81-83 | only the user's entries, newest first, as many as slice(0, limit) keeps (50 by default), drawn from the user's entries with none left out newer than one returned |
| Ledger.ExportCsv | server/services/ledger.ts:85-95 | the export starts with the header line |
| Ledger.CsvRows | server/services/ledger.ts:90-91 | one row per entry |
| Ledger.CsvRowFields | server/services/ledger.ts:91 | a row splits at commas into exactly five fields exactly when the time, the action and the hash hold no comma, and then into time, action, channel, status and hash |
| Ledger.NewlinesConcat | server/services/ledger.ts:92-94 | newline counts add over concatenation |
| Ledger.NoNewlines | server/services/ledger.ts:91 | text without '\n' counts no newline |
| Ledger.JoinLinesCount | server/services/ledger.ts:92 | joining n newline-free lines adds n − 1 newlines |
| Ledger.RowHasNoNewline | server/services/ledger.ts:91 | a row of newline-free fields is one line |
| Ledger.HeaderIsOneLine | server/services/ledger.ts:89 | the header holds exactly one newline |
| Ledger.RowsHaveNoNewlines | server/services/ledger.ts:90-91 | every row is newline-free |
| Ledger.ExportCsvLines | server/services/ledger.ts:85-95 | the export of n ≥ 1 entries holds n newlines (header plus n rows), and 1 for none |
| Ledger.ExportCsvLayout | server/services/ledger.ts:85-95 | split at newlines, the export is the header line, then one row per entry in order, or one empty line when there are none |
| Ledger.ExportLines | server/services/ledger.ts:85-95 | the lines of the export are the header line followed by the rows, or by one empty line |
| Ledger.LinesOfJoin | server/services/ledger.ts:92 | splitting a newline join of newline-free lines at newlines gives back the lines |
| Ledger.LinesCons | server/services/ledger.ts:92 | a newline-free line followed by a newline is the first line |
| Ledger.RowIsOneLine | server/services/ledger.ts:91 | a row of newline-free fields holds no newline |
| Ledger.BumpFacts | server/services/ledger.ts:127-128 | a bump adds one to one key's count, and adds the key at the end only if it is new |
| Ledger.BumpCount | server/services/ledger.ts:127-128 | a bump adds one to the bumped key's count and leaves every other count |
| Ledger.BumpTotal | server/services/ledger.ts:127-128 | a bump adds one to the total |
| Ledger.BumpKeys | server/services/ledger.ts:127-128 | a bump keeps the keys for a known key and appends a new key at the end |
| Ledger.Tally | server/services/ledger.ts:126-129 | each key's count is its number of occurrences, the counts add to the entry count, and the keys are distinct and exactly those present |
| Ledger.GetActionSummary | server/services/ledger.ts:115-137 | total is min(100, the user's entry count) and equals both count sums; recent holds min(5, total) of the user's entries, newest first |
| Ledger.StatusNames | server/services/ledger.ts:127 | one status name per entry |
| Ledger.ChannelNames | server/services/ledger.ts:128 | one channel name per entry |
| Ledger.Recent | server/services/ledger.ts:135 | the first five of a newest-first list, or all of it when shorter |
| Ledger.RecentIsNewest | server/services/ledger.ts:135 | the recent entries are drawn from the user's entries and none left out is newer than one shown |
| Ledger.SummaryCounts | server/services/ledger.ts:121-129 | each status and channel count is the number of entries with it |
| Ledger.StatusCount | server/services/ledger.ts:127 | a status count is the number of entries with that status |
| Ledger.ChannelCount | server/services/ledger.ts:128 | a channel count is the number of entries with that channel |
| RecordLog.AddLedgerRecord | server/ledger/storage.ts:10-12 | the record is appended and the earlier records are unchanged |
| RecordLog.GetLedgerRecords | server/ledger/storage.ts:14-16 | as written: a positive limit gives the last min(limit, n) records, a limit of 0 gives all, a negative limit drops that many from the front |
| RecordLog.DefaultKeepsTen | server/ledger/storage.ts:14 | by default the newest ten come back in insertion order |
| RecordLog.NewestAfterAdd | server/ledger/storage.ts:10-16 | right after an append the record is the last returned |
| RecordLog.ZeroLimitReturnsAll | server/ledger/storage.ts:15 | asking for 0 records returns all of them |
| RecordLog.GetLedgerRecordsAtMost | server/ledger/storage.ts:14-16 | corrected: exactly min(limit, n) of the newest records, none for a limit ≤ 0 |
| RecordLog.AtMostAgreesForPositive | server/ledger/storage.ts:14-16 | for positive limits the corrected read agrees with the original |
| Webhook.AllowListsDiffer | server/services/n8nWebhook.ts:41-68 | the default allow-list is the trigger list minus exactly the text and voice pipelines |
| Webhook.IsActionAllowed | server/services/n8nWebhook.ts:60-69 | allowed exactly for createSession, runTool, orchestrate and executePlan |
| Webhook.ShouldTriggerN8N | server/services/n8nWebhook.ts:40-55 | triggers exactly for the default allow-list plus processTextInput and processVoiceInput |
| Webhook.HexChar | server/services/n8nWebhook.ts:74 | a nibble gives a lower-case hex digit |
| Webhook.Hex | server/services/n8nWebhook.ts:74 | two hex digits per byte |
| Webhook.DigitValue | server/services/n8nWebhook.ts:74 | a hex digit's value is the nibble that spells it |
| Webhook.DigitOfHexChar | server/services/n8nWebhook.ts:74 | reading a written digit gives back the nibble |
| Webhook.HexRoundTrip | server/services/n8nWebhook.ts:74 | hex decoding recovers the bytes |
| Webhook.MakeRequestId | server/services/n8nWebhook.ts:73-75 | prefix (default "req"), "_", then hex that decodes back to the random bytes |
| Webhook.DefaultRequestId | server/services/n8nWebhook.ts:73-75 | the default id is 28 characters starting "req_" |
| Webhook.PostToN8N | server/services/n8nWebhook.ts:85-117 | the event's id is always echoed; ok exactly when configured, listed, fetch did not throw and the status is 2xx; a status exactly when configured, listed, and fetch answered with a status whose error body (if read) could be read |
| Webhook.SkippedCallIgnoresNetwork | server/services/n8nWebhook.ts:88-98 | without a URL or for an unlisted action the result is a failure without status, whatever fetch would do |

## Left out

- HTTP routes, WebSocket handling, Express middleware, the React client and the OpenAI, speech and token-vault services are I/O or foreign libraries. Where agent.ts calls the OpenAI, speech or transcription services, their results are parameters.
- SHA-256, `JSON.stringify`, `toISOString`, `randomUUID`, `crypto.randomBytes` and `new Date()` are parameters: a digest function, an ISO-format function, ids, random bytes and clock readings. `stableHash` and `shortId` in utils.ts are hashing and randomness only, so they are not modelled.
- One agent call uses a single clock reading `now` for all of its store operations. The source reads `new Date()` separately in each `createConsentRequest` and `createAction`, for the task record's `timestamp` (agent.ts:109) and in `updateSession` (storage.ts:174), so the model takes the readings of one call as equal. The ledger finding is the one place where two readings are modelled separately.
- Storage patches cannot set a field to `null` or `undefined`, nor overwrite the id.
- `getUser`, `getSession`, `getConsentRequest`, `getOpportunity`, `getAction`, `getToken` and `getLedgerEntry` are all `Tables.Get` on their table.
- The asynchronous ordering of `initializeDefaultData` is not modelled: the seeded store is built in its final form.
- JavaScript arrays are shared between the store and the agent's sessions by reference. The model copies values instead, which makes no difference because no operation mutates those arrays in place.
- `exportLedger` in JSON format is only `JSON.stringify`, so only the CSV layout is modelled.
- The `|| ''` fallback for a missing timestamp in the CSV row is not modelled, because every stored entry has a timestamp. The missing-timestamp branch of `verifyEntryIntegrity` is left out for the same reason.
- `Object.entries` lists integer-like keys first. The model keeps insertion order.
- The task record's `Date` object is modelled as the number `now`.
- `agentRequestSchema` and `executeActionSchema` are request validation for the HTTP routes, which are not modelled.
- The insert schemas' omission of server-assigned fields is modelled only by the shape of the insert datatypes.
- extractSignals' URL and capitalised-token regular expressions are parameters. The question and constraint patterns are modelled concretely.
- Utils.NormalizeText: the two quote replacements of utils.ts:22 are omitted, because as written they map each character to itself.
- Utils.IncludesAny: `toLowerCase` is modelled on ASCII letters only.
- Scoring.AggregateVotes: the arithmetic is exact rational arithmetic, not IEEE doubles. Rounding differences only in the last bit of a double are not modelled.
- Agent.FileRequests: its own contract is only the frame. What it files is stated in Agent.FileRequestsFiles and Agent.FileRequestsKeeps.
- Agent.RunActions: its own contract gives the frame and the count. The per-action results are in Agent.RunActionsResults.
- Parliament.RunParliament: the `reasoning` strings of the stub minds and the other fields of `ParliamentContext` are not modelled.
- The `FailureContext.votes` field is not modelled, because risk.ts never reads it.
- Webhook.PostToN8N: logging and the request body are not modelled.
- Json.Num: JSON and JavaScript numbers are integers in the model. Fractions, `NaN` and the infinities are not represented.
- RecordLog.GetLedgerRecords: the limit is an integer. The route passes `Number(req.query.limit ?? 10)`, so `?limit=abc` gives `NaN` and returns every record (`slice(-NaN)` is `slice(0)`), and a limit of 2.5 returns the last 2 records. Neither case is modelled.
- Storage.GetLedgerEntriesByUserId: the limit is an integer. A fractional limit, which `slice` truncates toward zero, and a `NaN` limit, which `slice` treats as 0, are not modelled.

## Findings

| source | as written | input that shows it | evidently intended | confidence | as-written member | corrected member |
|---|---|---|---|---|---|---|
| server/services/ledger.ts:59-77 | `logAction` hashes with its own `new Date()`, but `createLedgerEntry` ignores the timestamp argument and stamps a second `new Date()` | any logged entry whose two clock readings fall in different milliseconds | the entry carries the timestamp its hash was computed with, so `verifyEntryIntegrity` accepts it | not executed; high | Ledger.LogAction, Ledger.LoggedEntryFailsAcrossTick | Ledger.LogActionOnce |
| server/services/agent.ts:107-114 | the new task list is built from the agent's in-memory `executedTasks`, which stays `[]` after `createSession` | two voice inputs on a fresh session leave one stored task | the stored task history grows by one on each voice input | not executed; high | Agent.ProcessVoiceInput, Agent.TwoVoiceInputsKeepOneTask | Agent.ProcessVoiceInputAppending |
| server/ledger/storage.ts:15 | `slice(-limit)` with limit 0 is `slice(0)` | `getLedgerRecords(0)` on two records returns both | a limit of 0 returns no records | not executed; medium | RecordLog.GetLedgerRecords, RecordLog.ZeroLimitReturnsAll | RecordLog.GetLedgerRecordsAtMost |
