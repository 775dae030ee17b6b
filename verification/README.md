# A verified model of the vpsman console's core logic

vpsman is a console for fleets of virtual servers. This project models the logic of its browser
frontend that is hardest to get right and proves properties of it in Dafny 4.11. Everything is
checked by `dafny verify dfyconfig.toml`.

**Login sessions across tabs** (`SessionRecords`, `SessionProtocol`, `SessionInvariants`, `SessionRuns`,
`SessionTokens`, `SessionTabs`). The tabs of one origin share a canonical session record, a state lock and a renewal
lock. Each state-lock section is one function on the record; `SessionTabs` has the same sections as
methods of a tab with its cached record and its handle table, proved equal to those functions.
`SessionProtocol` is the transition system of all tabs: any number of concurrent sign-ins, logouts and
renewals, arbitrary server replies, failures and cancellations, with reading the record and sending the
request as separate steps. The theorems of `SessionRuns` hold in every state of every run.

**Search expressions** (`Tokenizer`, `TokenizerLoops`, `Spelling`, `Expressions`, `Parsing`, `ParserClass`, `Grammar`,
`Printing`, `TextPrinting`, `Evaluation`, `EvaluationLaws`, `Glob`, `Selectors`, `EventExpressions`). The tokenizer, the recursive-descent
parser, the evaluator, the wildcard matcher, the generated selector for a list of client ids and the
static check of schedule expressions. The loops of the tokenizer and the parser object are methods,
proved to compute the functions that the other modules reason about. The tokenizer is proved to read
every legal spelling of a token list, and the parser is proved equivalent to a grammar; both are
stated independently of the code. Together they give the round trip from text to expression to text.

**Latest-read consumer** (`LatestRead`). Enqueue, discard and the asynchronous drain loop as a transition
system over the JavaScript run-to-completion steps, and as a class whose methods are those steps.

**Resumable uploads** (`Uploads`). Both multi-target modes as loops against an arbitrary environment: a
function gives what each wait for acknowledgements observes.

**Exact algorithms.** `NaturalOrder`, `NaturalLaws` and `TagOrder` (natural order of tag names, blocks, insertion,
reconciliation), `OspfCost` (directional costs over exact reals), `ScaledRules` (quotas and speeds),
`PingHistory` (sliding loss window), `PortForwarding` and `PortTexts` (port lists and mappings).

Some promises turned out to hold only under a condition; each has the exact condition, and a witness
where the condition fails.

- A refresh request can leave after its login has ended, because the decision to send is taken under the
  state lock and the request is sent after the lock is released. It can leave after the end exactly when
  such a decision was outstanding at the end, and then at most once (`LateSendIff`, `LateSendHappens`).
- The wildcard matcher is exact for every pattern exactly on values without a `*`; for each value with a
  `*` some matching pattern is missed (`ExactIffNoStar`, `MissedPattern`).
- The selector of a list of ids selects exactly the listed agents if and only if some id is not blank.
  With only blank ids the expression is empty and selects every agent (`SelectorSelects`).
- `not in` is the opposite of `in` exactly on items that have the field; on an item without it both are
  false, or both search its texts for the tag (`NotInIsOppositeIff`).
- The one-bucket shortcut of loss smoothing equals the summary of its row exactly when the row has
  samples (`ShortcutAgreesIff`).
- A printed port pairing pairs to itself again exactly when no single target port serves several incoming
  items (`PrintThenPair`).

## Model

| member | source | states |
|---|---|---|
| SessionRecords.BoundaryIsInjective | frontend/src/authSession.ts:281-284 | equal captured boundaries mean the same presence, epoch and status of the record, whatever characters the epoch holds |
| SessionRecords.Decide | frontend/src/authSession.ts:424-440 | a send is decided only for the active login at the challenged revision, with its refresh token and never an empty one; without a failure to share, nothing is sent exactly when there is no refresh token; a recorded failure is reopened only by an explicit retry of that very attempt |
| SessionTabs.Tab.CurrentSession | frontend/src/authSession.ts:138-146 | a handle exists exactly for an active record, one object per epoch, and no earlier handle changes |
| SessionTabs.Tab.IsCurrentSession | frontend/src/authSession.ts:259-270 | comparing handle objects is the same as comparing epochs of the active record |
| SessionTabs.Tab.Initialize | frontend/src/authSession.ts:338-361 | the canonical record wins over legacy credentials; the tab's cache equals the store afterwards |
| SessionTabs.Tab.RememberOperator | frontend/src/authSession.ts:308-313 | an operator is bound only to the current login and only if none is bound |
| SessionTabs.Tab.Install | frontend/src/authSession.ts:376-391 | publishes a new active login if the boundary is unmoved, otherwise changes nothing and tells the caller to revoke |
| SessionTabs.Tab.Logout | frontend/src/authSession.ts:372-411 | ends this login and no other, and returns the record whose token is to be revoked |
| SessionTabs.Tab.ReadForRenewal | frontend/src/authSession.ts:424-440 | the decision, with its token and attempt, is the one of the freshly read record; which token that is, is proved over whole runs in SentTokenIsPublished |
| SessionTabs.Tab.EndUnrefreshable | frontend/src/authSession.ts:432-435 | ends the login only if it is still current |
| SessionTabs.Tab.EndRejected | frontend/src/authSession.ts:442-447 | ends the login only if it is still current at the challenged revision |
| SessionTabs.Tab.SettleReply | frontend/src/authSession.ts:451-463 | publishes the reply as the next revision, or ends the login on an account switch, or leaves the record alone; tells which |
| SessionTabs.Tab.RecordFailure | frontend/src/authSession.ts:481-492 | a failure is recorded under a new attempt id, only on the current login at the challenged revision |
| SessionTabs.Tab.RecordRevocationFailure | frontend/src/authSession.ts:464-480 | a failed revocation is recorded only on this login once ended |
| SessionInvariants.StepKeepsInv | frontend/src/authSession.ts:240-257 | every step of every tab keeps the eleven invariants of locks, phases, used epochs, sends, attempts, revisions, settlements and installs |
| SessionInvariants.ExecutionKeepsInv | frontend/src/authSession.ts:240-257 | the invariants hold in every state of every run |
| SessionRuns.LoginIsStable | frontend/src/authSession.ts:308-313 | while one login stays active its revision never falls, epoch and revision fix the token pair, and a bound operator id never changes; a login that ends loses both tokens and its operator and stays ended |
| SessionRuns.RevisionCountsRenewals | frontend/src/authSession.ts:449-463 | the current revision is the first one plus exactly one per published renewal of the epoch |
| SessionRuns.BoundaryNeverRecurs | frontend/src/authSession.ts:281-284 | once the boundary has changed it never returns to the old one in the run |
| SessionRuns.EndedStaysEnded | frontend/src/authSession.ts:372-411 | a known epoch that is not current is never current again |
| SessionRuns.OneInstallPerBoundary | frontend/src/authSession.ts:376-391 | of all installs with the same captured boundary at most one publishes |
| SessionRuns.InstallOutcomeIsFinal | frontend/src/authSession.ts:386-390 | a refused install never publishes later; it only goes on to revoke its token |
| SessionRuns.InitializeAdopts | frontend/src/authSession.ts:338-361 | legacy credentials become the first revision of a new login, each token in its place, and never replace a canonical record |
| SessionRuns.LogoutEnds | frontend/src/authSession.ts:393-401 | the active login is ended and cleared, and its access token is kept for revocation |
| SessionRuns.RememberBinds | frontend/src/authSession.ts:308-313 | binds this operator to the current login without one and changes nothing else |
| SessionRuns.CommitPublishesIffUnmoved | frontend/src/authSession.ts:377-385 | committing publishes the install's own tokens as revision 0 exactly when its boundary is the current one, otherwise refuses and changes nothing |
| SessionRuns.SendsAreExclusive | frontend/src/authSession.ts:424-441 | every send is by the holder of the renewal lock, for its own renewal, and of a revision that no renewal has replaced |
| SessionRuns.SendsAreCounted | frontend/src/authSession.ts:424-441 | the token of one epoch and revision is sent at most once plus once for each failed attempt published for it, and never twice for the same attempt |
| SessionTokens.SentTokenIsPublished | frontend/src/authSession.ts:424-441 | in every run each request carries exactly the refresh token published for its epoch and revision |
| SessionTokens.PublishedIsFinal | frontend/src/authSession.ts:376-391 | the token published for an epoch and revision never changes in a run |
| SessionTokens.StepKeepsTokens | frontend/src/authSession.ts:449-463 | every step keeps the active record and all decisions at the published tokens |
| SessionRuns.NoNewSendsAfterEnd | frontend/src/authSession.ts:424-441 | after a login ends nothing more is decided for it, and at most the one outstanding request still leaves |
| SessionRuns.LateSendIff | frontend/src/authSession.ts:425-441 | from a state where the login is over, some run still sends for it exactly when a decided request was outstanding |
| SessionRuns.LateSendHappens | frontend/src/authSession.ts:425-441 | a run in which a request leaves after the logout of its login |
| SessionRuns.ReplyIsPublishedOrRevoked | frontend/src/authSession.ts:449-480 | a complete reply is published with its own tokens as the next revision of the same login, or goes to revoke with the record unchanged or ended; never both |
| SessionRuns.RepliesAreSettledOnce | frontend/src/authSession.ts:449-480 | every reply received in a run is settled or in hand and never both, none is settled twice, and none is in hand when the lock is free |
| Glob.GlobMatches | frontend/src/searchExpression.ts:1121-1150 | the backtracking loop terminates and decides exactly the recursive acceptance relation, for all values and patterns |
| Glob.Sound | frontend/src/searchExpression.ts:1121-1150 | whatever is accepted matches the declarative meaning of the pattern |
| Glob.CompleteWithoutStars | frontend/src/searchExpression.ts:1121-1150 | without a star in the value every declarative match is accepted |
| Glob.ExactIffNoStar | frontend/src/searchExpression.ts:1121-1150 | the matcher agrees with the meaning of all patterns exactly on values without a star |
| Glob.MissedPattern | frontend/src/searchExpression.ts:1121-1150 | for every value with a star, a pattern that matches it and is rejected |
| Glob.LiteralMatches | frontend/src/searchExpression.ts:1097-1110 | a pattern without wildcards matches only itself |
| Tokenizer.NextStep | frontend/src/searchExpression.ts:123-267 | every step that does not fail consumes at least one character, stays inside the input and emits the text of its own span; kinds and values are proved in SpelledReads and TokensAreLegal |
| Tokenizer.TokensCoverInput | frontend/src/searchExpression.ts:123-267 | on accepted input the tokens are ordered, disjoint and equal to their spans, and only white space or hidden comments lie between them |
| Tokenizer.CommentsAreOnlyShown | frontend/src/searchExpression.ts:123-283 | the highlighting form fails exactly when the plain form does, and without its comment tokens it is the plain form |
| Spelling.ItemEmits | frontend/src/searchExpression.ts:144-264 | a token that is written legally and ends before what follows is read with its kind and its value |
| Spelling.SpelledReads | frontend/src/searchExpression.ts:123-283 | whatever is written legally reads as its tokens: words in any case, signs, single or double quotes with escapes, plain and partly quoted terms, regular expressions, with any white space and comments in front and between |
| TextPrinting.TokensAreLegal | frontend/src/searchExpression.ts:123-267 | only legal spellings are ever read: signs and unquoted words stand for themselves, strings end with their own quote, regular expressions stand between slashes |
| TokenizerLoops.ReadQuoted | frontend/src/searchExpression.ts:1182-1203 | the loop reads what the recursive scan of quoted text reads |
| TokenizerLoops.ReadTerm | frontend/src/searchExpression.ts:1205-1247 | the loop with its quote and escape state reads what the recursive scan of a term reads |
| TokenizerLoops.ReadRegex | frontend/src/searchExpression.ts:1253-1286 | the loop reads what the recursive scan of a regular expression reads |
| TokenizerLoops.ReadComment | frontend/src/searchExpression.ts:269-283 | finds the end of the line or block comment, or that the block never ends |
| TokenizerLoops.TokenizeSearchExpression | frontend/src/searchExpression.ts:123-267 | the token loop returns the tokens and the error of the step-wise specification, whose tokens are fixed by SpelledReads |
| Expressions.CanonicalFieldIdempotent | frontend/src/searchExpression.ts:986-1019 | every field alias leads to a spelling that stands for itself |
| Expressions.TermIsExpressible | frontend/src/searchExpression.ts:1067-1078 | whatever a term stands for can be written as a term or a comparison again |
| Expressions.ShorthandOfName | frontend/src/searchExpression.ts:915-984 | `id:`, `name:` and `status:` stand for an equality on the field that the canonical names give them |
| Expressions.ShorthandOfFleet | frontend/src/searchExpression.ts:915-984 | so does every `vps.` field except the tags |
| Parsing.ParseOr | frontend/src/searchExpression.ts:1298-1310 | terminates on every token list, consumes at least one token on success, stays within the tokens, and reports an error exactly when it returns no tree |
| ParserClass.Parser.ParseOr | frontend/src/searchExpression.ts:1298-1310 | the loop leaves the position, the error and the tree of the parse function |
| ParserClass.Parser.ParseAnd | frontend/src/searchExpression.ts:1312-1337 | the same for conjunctions, explicit or by juxtaposition |
| ParserClass.Parser.ParseNot | frontend/src/searchExpression.ts:1339-1350 | the same for negations |
| ParserClass.Parser.ParsePrimary | frontend/src/searchExpression.ts:1352-1375 | the same for terms and parenthesized expressions, with the same errors |
| ParserClass.Parser.ParsePredicate | frontend/src/searchExpression.ts:1377-1413 | the same for comparisons, memberships and lone terms |
| ParserClass.Parser.ParseListItems | frontend/src/searchExpression.ts:1424-1455 | the list loop terminates and yields the list, or the error, of the parse function |
| Grammar.OrSound | frontend/src/searchExpression.ts:1288-1488 | a returned tree is derived by the grammar from exactly the consumed tokens |
| Grammar.OrComplete | frontend/src/searchExpression.ts:1288-1488 | every derivation is found by the parser |
| Grammar.ParserMatchesGrammar | frontend/src/searchExpression.ts:81-121 | for all token lists and trees, the parser returns the tree if and only if the grammar (or below and below not below primary) derives it |
| Grammar.GrammarIsUnambiguous | frontend/src/searchExpression.ts:1288-1488 | a token list has at most one tree |
| Printing.PrintThenParse | frontend/src/searchExpression.ts:1288-1488 | every tree the parser can return, printed as tokens with full parentheses and any spelling of the words, parses back to itself |
| TextPrinting.TextReadsBack | frontend/src/searchExpression.ts:81-121 | however the tokens of a printed expression are written, the text reads back as the expression |
| TextPrinting.PrintTextReadsBack | frontend/src/searchExpression.ts:81-121 | the printed text of an expression reads back as the expression |
| TextPrinting.ReadPrintRead | frontend/src/searchExpression.ts:81-121 | whatever is read from any text, printed as text, reads back as the same expression |
| TextPrinting.ReadableExactly | frontend/src/searchExpression.ts:81-121 | an expression can be read from some text if and only if it is printable, its terms and regular expressions can be written, and it breaks no rule |
| EvaluationLaws.NegationIsOpposite | frontend/src/searchExpression.ts:304-306 | an expression or its negation is true, never both; double negation cancels |
| EvaluationLaws.DeMorgan | frontend/src/searchExpression.ts:285-308 | negating a conjunction or a disjunction negates its parts and exchanges the connective |
| EvaluationLaws.BranchesMeaning | frontend/src/searchExpression.ts:285-308 | an expression is true exactly when all parts of one of its alternatives are true |
| EvaluationLaws.NotInIsOppositeIff | frontend/src/searchExpression.ts:514-604 | `not in` is the opposite of `in` exactly on items that have the field and, for a keyed rule, the rule |
| EvaluationLaws.InMeans | frontend/src/searchExpression.ts:601-642 | on an ordinary field, `in` holds exactly when a value of the field equals a literal of the list or is matched by a pattern of it |
| EvaluationLaws.ComparisonIsSome | frontend/src/searchExpression.ts:555-557 | a comparison of an ordinary field holds exactly when it holds of one of its values |
| EvaluationLaws.EqualityIsOpposite | frontend/src/searchExpression.ts:607-618 | equality and inequality with one value are opposites |
| EvaluationLaws.EqualityMeans | frontend/src/searchExpression.ts:1097-1110 | a text without a star equals a value exactly when it matches it as a pattern, ignoring case |
| EvaluationLaws.OrderingMeans | frontend/src/searchExpression.ts:619-628 | an ordering holds exactly when both sides can be read and the sign of their difference is one it allows |
| EvaluationLaws.OrderingsAreOppositeIff | frontend/src/searchExpression.ts:619-628 | exactly one of `<` and `>=`, and of `>` and `<=`, holds if and only if both sides can be read |
| EvaluationLaws.AliasesAgree | frontend/src/searchExpression.ts:644-672 | spellings of the same field are interchangeable in comparisons and memberships |
| EvaluationLaws.BareMeans | frontend/src/searchExpression.ts:497-501 | a bare term without wildcards is true exactly when its text occurs, ignoring case, in one of the item's texts |
| Selectors.DistinctIdsKeeps | frontend/src/searchExpression.ts:478-484 | exactly the trimmed non-empty ids are kept |
| Selectors.SelectorReadsBack | frontend/src/searchExpression.ts:478-491 | for any ids, with quotes, backslashes, delimiters or comment openers, the text tokenizes and parses to the left-nested OR of id comparisons in order |
| Selectors.AnyOfMeaning | frontend/src/searchExpression.ts:478-484 | the selector's expression is true of an agent exactly when its id matches one of the ids |
| Selectors.SelectorSelects | frontend/src/searchExpression.ts:1097-1110 | without wildcards the selector selects exactly the listed ids ignoring case, if and only if some id is not blank |
| EventExpressions.AnchoredNeedsLifecycle | frontend/src/eventExpression.ts:187-211 | an expression whose branches are all anchored is true only if a triggered or resolved alert is in the context |
| EventExpressions.AnchoredExactly | frontend/src/eventExpression.ts:187-211 | the check fails exactly when some alternative of the expression names no triggered or resolved alert |
| EventExpressions.AcceptedExactly | frontend/src/eventExpression.ts:116-185 | a schedule accepts exactly the inputs that, trimmed, are not empty, have at most 4096 bytes and read as an expression with only allowed predicates and an alert in every alternative |
| EventExpressions.AcceptedNeedsAlert | frontend/src/eventExpression.ts:116-140 | an input that the schedule check accepts evaluates to true only in a context with a triggered or resolved alert |
| EventExpressions.OnlyAllowedMatters | frontend/src/eventExpression.ts:142-185 | contexts that agree on the allowed fields and events get the same verdict |
| LatestRead.RunKeepsInv | frontend/src/api.ts:79-141 | ownership and promise accounting hold in every interleaving of enqueue, discard, completion and rejection |
| LatestRead.OneConsumer | frontend/src/api.ts:89-141 | at most one work runs, pending work has exactly one live drain, and the restart in the finally block is never taken |
| LatestRead.SettledOnce | frontend/src/api.ts:89-141 | no promise settles twice, only issued ones settle, and at idle all have settled |
| LatestRead.NeverStale | frontend/src/api.ts:89-130 | a waiter that was not discarded gets the outcome of work enqueued no earlier than its own; which outcome, is proved in OutcomesAreEarned |
| LatestRead.OutcomesAreEarned | frontend/src/api.ts:105-130 | in every run a waiter is fulfilled, rejected or discarded exactly when its work completed, its work failed, or a discard found it pending |
| LatestRead.StartsLatest | frontend/src/api.ts:112-130 | work that starts is the work enqueued last |
| LatestRead.LatestReadConsumer.Enqueue | frontend/src/api.ts:89-103 | records the work, adds the waiter and starts a drain if none runs: exactly the enqueue step |
| LatestRead.LatestReadConsumer.DiscardPending | frontend/src/api.ts:105-110 | settles the pending waiters as discarded and drops the work: exactly the discard step |
| LatestRead.LatestReadConsumer.FinishWork | frontend/src/api.ts:123-130 | settles the work's waiters and goes on: exactly the completion step, whose outcomes OutcomesAreEarned fixes |
| LatestRead.LatestReadConsumer.ResumeDrain | frontend/src/api.ts:115-122 | after the microtask it takes new work or closes: exactly the resume step |
| LatestRead.LatestReadConsumer.CloseDrain | frontend/src/api.ts:131-140 | the finally block, with the restart if work is pending |
| Uploads.AwaitCovers | frontend/src/resumableFileTransfer.ts:543-633 | an accepted wait has exactly one status from each expected client and from nobody else |
| Uploads.GatherKeepsLatest | frontend/src/resumableFileTransfer.ts:573-586 | exactly the last output of each expected client is gathered |
| Uploads.UniformNextOffset | frontend/src/resumableFileTransfer.ts:681-698 | gives the common offset exactly when there are statuses, all inside the file, of the right size and equal |
| Uploads.TargetOffsetsFromStatuses | frontend/src/resumableFileTransfer.ts:700-713 | succeeds exactly when all statuses fit, and maps each client to its offset and nobody else |
| Uploads.MinimumTargetOffset | frontend/src/resumableFileTransfer.ts:738-744 | the least offset, attained by some client |
| Uploads.TargetsGroupedByOffset | frontend/src/resumableFileTransfer.ts:746-760 | ascending groups; every member is at its group's offset, below the size; every unfinished client is in a group |
| Uploads.SendTogether | frontend/src/resumableFileTransfer.ts:197-250 | the same-offset loop ends; it succeeds with all active clients at the size, or stops at a chunk whose wait was not acceptable |
| Uploads.SendApart | frontend/src/resumableFileTransfer.ts:296-340 | the independent loop ends on the sum of remaining bytes; it succeeds with every client at the size, or stops at a chunk whose wait was not acceptable |
| Uploads.Commit | frontend/src/resumableFileTransfer.ts:252-282 | commits exactly when the active clients confirm the size and the others were there already |
| Uploads.RunUpload | frontend/src/resumableFileTransfer.ts:178-369 | against any environment each chunk starts at its receivers' last acknowledged offset and ends a chunk later or at the end of the file, acknowledged offsets stay inside the file and rise with each chunk, the run ends, success is exactly that every wait was acceptable, and then every requested client is at the size |
| NaturalOrder.RunEnd | frontend/src/tagOrder.ts:281-295 | the end of the maximal run of digits or of other characters |
| NaturalOrder.MagnitudeIsNumeric | frontend/src/tagOrder.ts:231-247 | digit runs of any length compare as the numbers they write |
| NaturalOrder.CompareAsciiCaseInsensitive | frontend/src/tagOrder.ts:249-258 | the sign of the lexicographic order of the folded codes, zero exactly on equal folds |
| NaturalOrder.CompareNaturalAscii | frontend/src/tagOrder.ts:187-229 | the run-by-run loop with its deferred tie-break has the sign of comparing one key per name, then the lengths of the digit runs |
| NaturalOrder.CompareTagNamesNaturally | frontend/src/tagOrder.ts:62-71 | the comparator has the sign of the order on names; what that order is, is proved in NamesSortByNumber, NamesSortByText and NamesSortByLength |
| NaturalOrder.OrderReversed | frontend/src/tagOrder.ts:62-71 | swapping the names flips the sign |
| NaturalOrder.OrderZero | frontend/src/tagOrder.ts:62-71 | zero exactly on equal names |
| NaturalOrder.OrderTransitive | frontend/src/tagOrder.ts:62-71 | transitive, strictly if either step is strict |
| NaturalLaws.NamesSortByNumber | frontend/src/tagOrder.ts:62-71 | names whose values differ first in a number sort by that number, whatever follows it and in any namespaces |
| NaturalLaws.NamesSortByText | frontend/src/tagOrder.ts:62-71 | names whose values have no digits sort by the folded values, in any namespaces |
| NaturalLaws.NamesSortByLength | frontend/src/tagOrder.ts:226-228 | a name sorts before every name whose value continues its value, in any namespaces |
| NaturalLaws.ValuesDecide | frontend/src/tagOrder.ts:62-71 | the values decide; whole names decide only between values of the same rank |
| TagOrder.SortSorts | frontend/src/tagOrder.ts:73-75 | the sorted names are in order |
| TagOrder.SortIsUnique | frontend/src/tagOrder.ts:73-75 | a multiset of names has one sorted list, so any correct sort gives it |
| TagOrder.NamespaceIs | frontend/src/tagOrder.ts:7-13 | the namespace is what stands before the first colon, folded; without a colon, or with nothing before it, there is none |
| TagOrder.BuildTagOrderBlocks | frontend/src/tagOrder.ts:20-40 | the loop splits the list into maximal blocks of one namespace that flatten back to it |
| TagOrder.BlocksAreExact | frontend/src/tagOrder.ts:20-60 | flattening the blocks of a list gives the list |
| TagOrder.BlocksOfFlattened | frontend/src/tagOrder.ts:20-60 | the blocks of a flattened well-formed block list are those blocks |
| TagOrder.NormalizeKeepsShape | frontend/src/tagOrder.ts:90-100 | normalization keeps the multiset of names and the namespace at every position |
| TagOrder.NormalizedBlocks | frontend/src/tagOrder.ts:90-100 | the blocks of the normalized list are the sorted blocks of the list |
| TagOrder.NormalizedIsSorted | frontend/src/tagOrder.ts:90-100 | each block of the normalized list holds the names of the block at its place, sorted if it has a namespace |
| TagOrder.NormalizeIdempotent | frontend/src/tagOrder.ts:90-100 | normalizing twice changes nothing more |
| TagOrder.InsertNewTagIntoOrder | frontend/src/tagOrder.ts:134-160 | a known name changes nothing; a new one goes behind a name of its namespace (the last one, without repetitions) or to the end, and the result is normalized on request |
| TagOrder.ReconcileTagOrderDraft | frontend/src/tagOrder.ts:162-175 | exact count of every name for all inputs, a permutation of the incoming names without repetitions, surviving draft names in their order with natural sort off, a fixpoint of normalization with it on |
| OspfCost.RatioIsExact | frontend/src/topologyRuntime.ts:418-426 | the big-integer ratio stands for exactly the number the decimal text writes |
| OspfCost.RatiosAreExact | frontend/src/topologyRuntime.ts:441-451 | the integer computation gives the exact real cost, whichever fractions represent the decimals |
| OspfCost.AdjustIsExact | frontend/src/topologyRuntime.ts:428-452 | exactly the valid inputs give a cost, and it is clamp(step * floor((base + offset) * multiplier / step), min, max) over reals, negative offsets and the early minimum included |
| OspfCost.CostIsMonotone | frontend/src/topologyRuntime.ts:428-452 | the cost is in bounds and does not fall when base or offset rise |
| OspfCost.DirectionsAreExact | frontend/src/topologyRuntime.ts:405-413 | each direction has the exact cost of its own offset and its own multiplier |
| OspfCost.DirectionsCompare | frontend/src/topologyRuntime.ts:405-413 | each direction uses its own offset: with one multiplier the larger offset never costs less |
| ScaledRules.ReadIsSound | frontend/src/vpsRules.ts:371-374 | what is read is written in the text as the pattern demands |
| ScaledRules.ReadIsComplete | frontend/src/vpsRules.ts:371-374 | every text written so is read, with those parts |
| ScaledRules.NormalizingKeepsValue | frontend/src/vpsRules.ts:419-445 | dropping surplus zeros does not change the integer, for digit strings of any length |
| ScaledRules.QuotaUnitsArePowers | frontend/src/vpsRules.ts:127-138 | the quota units are bytes, powers of 1000 and powers of 1024, and no others |
| ScaledRules.SpeedUnitsArePowers | frontend/src/vpsRules.ts:140-146 | the speed units are bits per second and powers of 1000 of it, and no others |
| ScaledRules.QuotaUnitSpelling | frontend/src/vpsRules.ts:383-390 | canonical quota units have a capital prefix and B, and binary ones a small i |
| ScaledRules.SpeedUnitSpelling | frontend/src/vpsRules.ts:412-412 | canonical speed units have a capital prefix |
| ScaledRules.QuotaIsExact | frontend/src/vpsRules.ts:370-395 | an accepted quota has a known unit and a non-zero digit, and its integer is the exact scaled value rounded half up, at most 2^63-1 |
| ScaledRules.QuotaIsAccepted | frontend/src/vpsRules.ts:370-395 | everything of that form is accepted with that integer |
| ScaledRules.QuotaIsCanonical | frontend/src/vpsRules.ts:370-395 | the canonical text reads back to the same text and integer |
| ScaledRules.SpeedIsExact | frontend/src/vpsRules.ts:397-417 | an accepted speed has at most three decimals, and its integer is the exact scaled value rounded down, positive and at most 2^63-1 |
| ScaledRules.SpeedIsAccepted | frontend/src/vpsRules.ts:397-417 | everything of that form is accepted with that integer |
| ScaledRules.SpeedIsCanonical | frontend/src/vpsRules.ts:397-417 | the canonical text reads back to the same text and integer |
| PingHistory.SummarizePingHistory | frontend/src/pingHistory.ts:8-28 | loss weighted by samples and latency weighted by successes of rows with a latency; nothing without weight |
| PingHistory.WindowIsLeast | frontend/src/pingHistory.ts:30-33 | the window is the least whole number of steps that covers five minutes, and one step exactly when a step does |
| PingHistory.SmoothPingLoss | frontend/src/pingHistory.ts:38-66 | at every index the running sums give the summary's loss over the last window of rows since the latest gap, clamped; nothing at gaps |
| PingHistory.ClampChangesNothing | frontend/src/pingHistory.ts:62-64 | for ratios in [0, 1] and counts of at least zero the clamp is the identity |
| PingHistory.ShortcutAgreesIff | frontend/src/pingHistory.ts:43-43 | the one-bucket shortcut equals the summary of the row exactly when the row has samples |
| PortForwarding.NeighboursDecide | frontend/src/portForwarding.ts:21-26 | in a sorted list of ranges, neighbours are apart exactly when all pairs are |
| PortForwarding.HasOverlap | frontend/src/portForwarding.ts:21-26 | sorting a copy and scanning neighbours finds an overlap exactly when two ranges of the list overlap |
| PortForwarding.ParsePortExpression | frontend/src/portForwarding.ts:5-28 | accepts exactly the lists of at most 256 valid, pairwise disjoint ranges, in the order written |
| PortTexts.RangeReadsExactly | frontend/src/portForwarding.ts:8-17 | a text is read as a range exactly when it is one port, or two with a dash between, with any leading zeros and white space |
| PortTexts.ListReadsExactly | frontend/src/portForwarding.ts:5-28 | a text is accepted as these ranges exactly when it is their texts separated by commas, at most 256 and no two overlapping |
| PortForwarding.FitMeans | frontend/src/portForwarding.ts:47-55 | a mapping is accepted exactly when all its ports go to one port or all move by the same distance |
| PortForwarding.PrintThenRead | frontend/src/portForwarding.ts:59-82 | printing any non-empty list of ranges reads back to it exactly when it has at most 256 disjoint ranges |
| PortForwarding.PairPortExpressions | frontend/src/portForwarding.ts:30-57 | the pairing of the two lists if their lengths and every size fit, otherwise nothing |
| PortForwarding.TargetsDisjointIff | frontend/src/portForwarding.ts:36-46 | the targets of a pairing are disjoint exactly when no single port serves several incoming items |
| PortForwarding.PrintThenPair | frontend/src/portForwarding.ts:30-82 | printing a pairing and pairing again gives it back exactly in that case, and is refused otherwise |

## Left out

- Real HTTP, IndexedDB, Web Locks, local storage, timers and visibility events: their contracts are atomic steps and arbitrary replies in the transition systems.
- Random UUIDs: parameters of the steps; a step that starts a login or records an attempt needs an id not used before.
- Session listeners, hints in local storage, the shared promise of concurrent renewals in one tab and the renewal timeout: only an arbitrary failure or cancellation of a renewal is modelled.
- The search evaluator's locale lower-casing, number and date reading, regular expressions and ordered rule values: functions supplied as parameters.
- EventExpressions.AcceptedNeedsAlert: folds case of names and categories over ASCII only, so the Kelvin sign does not count as a `k`.
- Spelling.SpelledReads: covers terms with at most one quoted part, at their end, and backslashes only before a quote or a backslash; other spellings of the same values are not enumerated.
- Highlighting, term titles, adding a selector to an expression and filtering lists: easy compositions of what is modelled.
- Uploads: hashing, base64, progress events, polling intervals and downloads; acknowledged offsets are integers, and a job's target count is the number of clients it was sent to.
- Uploads.TargetsGroupedByOffset: keeps the groups in order while it collects them instead of sorting them at the end.
- Tag block ids, moving blocks or leaves and display labels: permutations by construction.
- The floating-point OSPF cost preview; how JavaScript prints a number as decimal text is the input of the directional costs.
- Billing values, reset days, product names and traffic selector lists of the rule fields: finite formats without arithmetic.
- Floating-point rounding in ping history: sums and quotients are exact reals.
- Error texts of port lists and pairings: a refused input is None.
- User interface, routing, presentation tables and everything outside the frontend files named above.
