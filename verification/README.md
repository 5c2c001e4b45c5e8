# LoopStorm, verified

A Dafny model of the parts of LoopStorm that decide, record and coordinate: the enforcement engine, the
hash-chained audit log with its verifier, the canonical JSON that arguments are hashed from, the
protocol between the Python guard and the engine, and the concurrent structures of the backend, the
supervisor and the telemetry exporter. Results are stated over every run, every interleaving and every
input; SHA-256 is proved from its bits up, and the audit results hold with it and not only with an
abstract hash.

Check everything with `dafny verify dfyconfig.toml`.

How the files fit together:

- `Budget`, `LoopDetector`, `Policy`, `Engine`: the engine's state and one `enforce` call, as classes
  that are proved equal to pure functions; `EngineRuns`: whole runs of those functions, with calls of
  different agent runs interleaved freely; `EngineAnswers`: what every answer is, without engine state;
  `EngineMeaning`: the same in plain terms, without any of the functions the engine is made of.
- `Guard`, `Framing`, `ClientFraming`: the client side of the protocol against a network that fails in
  any pattern, and the two NDJSON readers.
- `JsonText`, `Decimal`, `KeyOrder`, `Jcs`: JSON text with a parser that inverts it, and canonical JSON in
  both languages.
- `AuditEvent`, `AuditReading`, `AuditChain`, `AuditTampering`: the log, its verifier, and what the verifier
  says of logs that were changed; `Sha256`, `Sha256Constants`, `AuditWithSha256`: the hash, where its constants
  come from, and the log with it.
- `TriggerQueue`, `Scheduler`, `RateLimit`, `TraceBuffer` with `TraceRuns`, `PolicyUpdates`, `Proposals`, `Escalations`
  (the last three on top of `Trails`): the small concurrent structures.
- `Wrappers`, `Json`, `Arithmetic`: shared datatypes and facts.

Where the code and its own documentation differ, the model follows the code:

- `escalate_to_human` is documented as never blocked. `evaluate` indeed always allows it, but `enforce`
  records its cost afterwards and turns it into a kill when a cap is passed or the audit write fails.
  `EscalationIsAllowedExactlyWhen` gives the exact condition, `EscalationCanBeKilled` an instance.
- Both serialisers claim RFC 8785. Python sorts keys by little-endian UTF-16 bytes, which is not the order
  of section 3.2.3. `LanguagesAgreeExactlyWhen` says on which values the two agree, `LanguagesCanDiffer`
  gives one on which they do not.
- The verifier's comment calls a false match of its text-level stripping statistically impossible. For
  logs the writer produced it is plainly impossible, because JSON escaping never leaves a bare quote
  behind a comma inside a string: `StripRecoversPayload`.
- The request schema promises non-negative costs and the engine does not check it. Without the promise a
  spent run can come back to life (`NegativeCostBreaksAbsorption`); `RevivesExactlyWhen` and
  `StaysSpentExactlyWhen` say exactly when, and the other budget results hold for all costs.
- A reopened audit file restarts its chain, so a file in which two sessions wrote does not verify:
  `ReopenedLog` says exactly when, for any number of sessions.
- The client's size limit counts bytes behind the line it waits for, so the outcome can depend on how
  bytes were cut into chunks: `CuttingMattersExactlyWhen`.

## Model

| member | source | states |
|---|---|---|
| Budget.WorstStatusIsFirstHardCap | apps/engine/src/budget.rs:158-207 | the early-returning pre-check and the fold over all dimensions after recording report the same exceeded cap, dimension and numbers included |
| Budget.StatusOf | apps/engine/src/budget.rs:232-281 | the folded status is a hard-cap report if and only if some configured dimension is over its hard cap, and a warning if and only if none is but some soft cap is passed |
| Budget.RevivesExactlyWhen | apps/engine/src/budget.rs:76-141 | a call leaves an exceeded budget if and only if only the cost was over, the cost total comes back to its cap, and no token or call cap is passed |
| Budget.ExceededIsStable | apps/engine/src/budget.rs:76-141 | with a non-negative cost no recording brings an exceeded run back under its caps |
| Budget.BudgetTracker.Record | apps/engine/src/budget.rs:76-141 | only the named run's totals change, by exactly this update and one call; the answer is the worst status of the new totals |
| Budget.BudgetTracker.CheckHardCaps | apps/engine/src/budget.rs:158-207 | unknown runs pass; otherwise the first exceeded cap is reported |
| LoopDetector.FingerprintInjective | apps/engine/src/loop_detector.rs:93-111 | calls that share a fingerprint are the same tool with the same arguments hash, unless a hash contains a colon |
| LoopDetector.PruneWindow | apps/engine/src/loop_detector.rs:113-121 | the pruning loop drops exactly the leading entries older than the window |
| LoopDetector.CountCalls | apps/engine/src/loop_detector.rs:123-128 | the number of entries of the deque with this tool and arguments hash |
| LoopDetector.Detector.Check | apps/engine/src/loop_detector.rs:93-164 | the effect and answer of one check; other runs' states stay untouched, and so does everything when detection is off |
| LoopDetector.Detector.RecordError | apps/engine/src/loop_detector.rs:170-216 | the effect and answer of an error report on the run's streaks and cooldown flags |
| LoopDetector.Detector.RecordSuccess | apps/engine/src/loop_detector.rs:219-225 | a success ends the streak of its fingerprint and changes nothing else |
| LoopDetector.CheckCountsHistory | apps/engine/src/loop_detector.rs:107-128 | with a clock that never goes back, the count read from the pruned deque is the number of matching calls within the window over the whole unpruned history |
| LoopDetector.AnswersAreHistorical | apps/engine/src/loop_detector.rs:93-225 | over every interleaving of runs, every answer of both heuristics is the one a reading of the full history gives |
| LoopDetector.CooldownThenKill | apps/engine/src/loop_detector.rs:138-216 | on any clock, a trigger is a cooldown exactly when nothing in this run with this fingerprint triggered before, by either heuristic; otherwise it is a kill |
| LoopDetector.TriggeredMeans | apps/engine/src/loop_detector.rs:123-164 | on a clock that never goes back, an operation triggers iff its count over the full history reaches its threshold |
| Policy.Navigate | apps/engine/src/evaluator.rs:356-376 | the path-walking loop finds the value at the dotted path, or nothing when a step is missing or not an object |
| Policy.SplitDotsExactly | apps/engine/src/evaluator.rs:357 | a path is cut exactly at its dots |
| Policy.OperatorsMean | apps/engine/src/evaluator.rs:238-333 | each operator on the values of field and condition; a missing field fails all six, an invalid glob both that use one |
| Policy.FieldsMean | apps/engine/src/evaluator.rs:335-343 | which part of the request each field name stands for |
| Policy.PathsMean | apps/engine/src/evaluator.rs:344-376 | what a path into the arguments reads, for each kind of value found |
| Policy.RuleMatchesMeans | apps/engine/src/policy.rs:247-257 | an exact tool name, else a glob, else any tool; and then every condition |
| Policy.FirstMatch | apps/engine/src/evaluator.rs:158-228 | the position returned matches and none before it does; none is returned only if no rule matches |
| Policy.BeforeIsStrictWeakOrder | apps/engine/src/policy.rs:327-334 | the sort's comparator is a strict weak order |
| Policy.PrecedesIsTotalOrder | apps/engine/src/policy.rs:327-334 | priority first, file position second is a strict total order on the rules of a file |
| Policy.SortOrderIsPermutation | apps/engine/src/policy.rs:327-334 | the stable sort neither drops nor repeats a rule |
| Policy.DecidingRuleIsUnique | apps/engine/src/policy.rs:324-334 | at most one matching rule is least by priority class, priority and file position |
| Policy.FirstMatchDecides | apps/engine/src/evaluator.rs:158-228 | sorting and taking the first match picks exactly the one matching rule that is least on the fields: a priority before none, then the smaller number, then the earlier place in the file; no match exactly when no rule of the file matches |
| Policy.DecidesOnFields | apps/engine/src/policy.rs:324-334 | deciding, stated on priority numbers and file positions without the comparator |
| Policy.SortedInPriorityOrder | apps/engine/src/policy.rs:324-334 | the compiled list has the rules with priorities first, in nondecreasing order of their numbers |
| Policy.ValidateAndCompile | apps/engine/src/policy.rs:284-340 | wrong versions and empty packs are refused, the first faulty rule is reported, and a valid pack compiles to its stably sorted rules, those with priorities first and in ascending order |
| Engine.EnforcementContext.EvaluateRules | apps/engine/src/evaluator.rs:158-228 | the rule loop answers with the first matching rule, and with a deny without rule id when there is none; what each action means is fixed by EngineMeaning.RulesDecide |
| Engine.EnforcementContext.EvaluateRequest | apps/engine/src/evaluator.rs:26-228 | escalation bypass, budget pre-check, loop detection and rules on the mutable state compute the pure evaluation |
| Engine.EnforcementContext.EnforceRequest | apps/engine/src/lib.rs:94-300 | the whole pipeline on the mutable state, failed audit writes included, computes the pure step that the whole-run results are about |
| EngineRuns.BudgetSafety | apps/engine/src/lib.rs:105-151 | whenever the answer is not a kill, the run's totals over all its calls, this one included, are within every configured hard cap |
| EngineRuns.BudgetKillIsExact | apps/engine/src/lib.rs:116-151 | whatever the costs, a call is answered with a budget kill if and only if it is audited and the run's totals are over a cap with it, or were before it and the tool is not the escalation tool |
| EngineRuns.BudgetKillIsAbsorbing | apps/engine/src/lib.rs:94-151 | once a run's totals pass a cap, every answer to that run is a kill, and a budget kill when audited, until a call revives it, whatever other runs do |
| EngineRuns.StaysSpentExactlyWhen | apps/engine/src/budget.rs:76-141 | a spent run stays spent up to a point if and only if no call before that point revives it |
| EngineRuns.NonNegativeCostsAbsorb | apps/engine/src/lib.rs:94-151 | with the schema's non-negative costs absorption is unconditional |
| EngineRuns.RunsDoNotInterfere | apps/engine/src/lib.rs:94-151 | each answer is what the engine would give if it only ever saw this run's calls |
| EngineRuns.PreCheckIsRedundant | apps/engine/src/evaluator.rs:58-92 | over every interleaved trace in which no call revives a spent run, the engine with the budget pre-check and the one without it give the same responses and the same audit log, although their loop histories differ |
| EngineRuns.NonNegativeCostsReviveNothing | apps/engine/src/decision.rs:35 | with non-negative costs that is every trace |
| EngineRuns.PreCheckMattersAtRevival | apps/engine/src/evaluator.rs:58-92 | the condition is needed: at an audited call that revives its run and is no escalation the two engines answer differently |
| EngineRuns.AllowsAreBounded | apps/engine/src/lib.rs:105-151 | a run is never given more Allows than its call cap |
| EngineRuns.AuditIsComplete | apps/engine/src/lib.rs:175-300 | the log's decisions are exactly the answers given, in order, and every answer missing from it is a kill |
| EngineRuns.NovelCallIsJudgedByRules | apps/engine/src/evaluator.rs:94-228 | a loop kill is not absorbing: in every trace a call its run has not made before, within budget before and after it and audited, is answered by the rules alone (for a call threshold of at least 2) |
| EngineRuns.EvaluateAllowsEscalation | apps/engine/src/evaluator.rs:26-56 | evaluation allows escalation to a human under every policy, budget and loop state |
| EngineRuns.EscalationIsAllowedExactlyWhen | apps/engine/src/lib.rs:116-238 | the whole pipeline allows an escalation if and only if the audit write works and the run's totals with it are within the caps |
| EngineRuns.EscalationCanBeKilled | apps/engine/src/lib.rs:116-151 | a policy under which the first escalation is killed |
| EngineRuns.NegativeCostBreaksAbsorption | apps/engine/src/decision.rs:35 | a trace with a negative cost that brings a spent run back to life |
| EngineAnswers.LoopsAreChecks | apps/engine/src/evaluator.rs:94-156 | the engine's loop state is that of a detector that saw exactly the calls which are no escalations and whose runs were not over a cap before them |
| EngineAnswers.EveryAnswerIsDeclared | apps/engine/src/lib.rs:94-300 | for a policy compiled from a file and a clock that never goes back, every answer in every interleaving is an audit kill, a kill naming the first exceeded cap, the escalation bypass, the verdict on repetition over the full history of checked calls, or the answer of the one rule of the file that decides; EngineMeaning.EveryAnswerMeans says the same without any function of the engine |
| EngineMeaning.EveryAnswerMeans | apps/engine/src/lib.rs:94-300 | the answer to every call in every interleaving, on the fields of requests, policy and rules alone: run id, seq, decision, rule id, reason and pause, with the names, numbers and defaults of the interface written out |
| EngineMeaning.RulesDecide | apps/engine/src/evaluator.rs:158-228 | a call that reaches the rules is allowed iff the least matching rule of the file allows, needs approval iff that rule asks for it, and is denied iff that rule denies or none matches |
| EngineMeaning.TotalsAreSums | apps/engine/src/lib.rs:105-114 | a run's totals are the sums of the cost and token fields of its requests and the number of its calls |
| EngineMeaning.OverMeans | apps/engine/src/budget.rs:232-271 | a budget is exceeded iff some sum is strictly above its hard cap; meeting the cap is not exceeding it |
| EngineMeaning.CallCapIsExact | apps/engine/src/budget.rs:252-271 | with a call cap alone, exactly the calls beyond the cap are killed for the budget |
| EngineMeaning.LoopAnswerMeans | apps/engine/src/loop_detector.rs:93-164 | a call is stopped for repetition iff it and its like within the window, in nanoseconds, reach the limit: with a pause the first time and a kill ever after; without configuration 3 calls in 120 seconds and a pause of 5000 ms |
| EngineMeaning.AuditIsExact | apps/engine/src/lib.rs:175-300 | the whole audit log, entry by entry: each audited answer, and behind it a notice naming the first soft cap passed when no hard cap is |
| Guard.Guard.Check | apps/shim-python/loopstorm/_guard.py:94-150 | the outcome is fixed by what came back: Allow, Deny, Cooldown, Kill and RequireApproval for this seq and run each give their own outcome, anything else that came back terminates the run, and nothing fails open or raises as configured |
| Guard.Guard.Send | apps/shim-python/loopstorm/_guard.py:171-188 | one attempt, one reconnect and resend; any response returned is a protocol kill or an answer `enforce` gave to a request of this guard |
| Guard.EngineConnection.SendRequest | apps/shim-python/loopstorm/_connection.py:57-69 | a failing send leaves nothing, an unfinished line that spoils the next one, or the whole request behind |
| Guard.EngineConnection.RecvResponse | apps/shim-python/loopstorm/_connection.py:71-84 | responses come in order per connection and each is genuine, whatever the rest of the world does meanwhile |
| Guard.Network.Serve | apps/engine/src/server.rs:210-314 | a connection handler answers every line with a protocol kill or the answer of `enforce`, or loses the response |
| Guard.GrantIsBacked | apps/shim-python/loopstorm/_guard.py:133-148 | the echo check ties an Allow to the request just sent, despite resends and stale buffered responses |
| Guard.GrantsAreBounded | apps/engine/src/lib.rs:94-151 | calls let through have distinct Allows of `enforce` for that run behind them, so there are at most as many as the call cap |
| Guard.Guard.LetThroughIsBounded | apps/shim-python/loopstorm/_guard.py:94-150 | with fail_open off no more calls are let through than `call_count.hard` |
| Guard.Session | apps/shim-python/loopstorm/_guard.py:71-150 | the bound holds after any number of checks with any failures, closings and other clients in between |
| Framing.ReadLineLimited | apps/engine/src/server.rs:330-369 | for every cutting of the stream into nonempty chunks: a line exactly when the first newline ends within the limit, leaving exactly the bytes behind it; too large when more bytes than that come without one; end of file otherwise |
| Framing.LimitIsExact | apps/engine/src/server.rs:354-366 | a line of 65536 bytes is read, one of 65537 is too large |
| Framing.ReadConnection | apps/engine/src/server.rs:214-248 | the lines a connection serves, and how it ends, do not depend on the cutting |
| Framing.FramesPartition | apps/engine/src/server.rs:330-369 | the lines followed by the unread rest are the stream, each line ends at its only newline, and the rest holds no further line |
| ClientFraming.ResponseReader.RecvLine | apps/shim-python/loopstorm/_connection.py:71-84 | no byte is lost; the first line is returned exactly when it was buffered or at most 64 KiB had arrived with its newline |
| ClientFraming.AlwaysReturnedExactlyWhen | apps/shim-python/loopstorm/_connection.py:71-84 | the outcome is the first line for every cutting if and only if the line plus one chunk, or the whole stream, fits in 64 KiB |
| ClientFraming.SometimesReturnedExactlyWhen | apps/shim-python/loopstorm/_connection.py:71-84 | some cutting returns the first line if and only if the line itself fits in 64 KiB |
| ClientFraming.CuttingMattersExactlyWhen | apps/shim-python/loopstorm/_connection.py:71-84 | two cuttings of the same bytes differ in outcome if and only if the line fits in 64 KiB and what can arrive in one chunk with its newline does not |
| ClientFraming.CuttingCanMatter | apps/shim-python/loopstorm/_connection.py:71-84 | a line of 65000 bytes with 1000 bytes behind it: one cutting returns it and another does not, although alone it is always returned |
| JsonText.ReadQuoted | apps/shim-python/loopstorm/_jcs.py:41-65 | escaping is prefix-free and invertible: reading a quoted string gives it back and stops at its closing quote, whatever follows |
| JsonText.EscapesMean | apps/shim-python/loopstorm/_jcs.py:44-63 | which escape each character gets: the short forms of section 3.2.2.2 of RFC 8785, lowercase hexadecimal for other control characters, everything else as it is |
| JsonText.ParseInvertsText | apps/engine/src/audit.rs:204-232 | parsing the compact text of any printable value gives the value back |
| JsonText.TextIsInjective | apps/engine/src/audit.rs:204-232 | different printable values have different texts |
| Decimal.IntTextInjective | apps/shim-python/loopstorm/_jcs.py:11-33 | different integers print differently |
| KeyOrder.KeyOrderIsTotal | apps/shim-python/loopstorm/_jcs.py:36-38 | both key orders are strict total orders on Unicode strings, surrogate pairs included |
| KeyOrder.KeyLessMeans | packages/ipc-client/src/jcs.ts:46 | keys ascend: by code units in TypeScript, by the little-endian bytes of the units in Python, and a prefix comes first |
| KeyOrder.UnitsMean | apps/shim-python/loopstorm/_jcs.py:38 | the code units of a character, surrogate pairs included |
| KeyOrder.LittleEndianAt | apps/shim-python/loopstorm/_jcs.py:38 | each unit is two bytes, the low one first |
| KeyOrder.KeysAgreeMeans | apps/shim-python/loopstorm/_jcs.py:36-38 | when the little-endian byte order and the code unit order put two keys the same way round |
| KeyOrder.Latin1KeysAgree | apps/shim-python/loopstorm/_jcs.py:36-38 | on keys with all code units below 0x100 the two orders agree |
| Jcs.JcsString | apps/shim-python/loopstorm/_jcs.py:41-65 | the accumulating loop gives the quoted, escaped string, and reading it back gives the original string and stops at its closing quote |
| Jcs.SerializePrintsCanon | packages/ipc-client/src/jcs.ts:15-49 | serialising is printing the value with every object sorted, at all depths |
| Jcs.CanonicalTextIsExact | apps/shim-python/loopstorm/_jcs.py:11-65 | in either language two values serialise to the same text if and only if they are equal up to the order of object members |
| Jcs.LanguagesAgreeExactlyWhen | packages/ipc-client/src/jcs.ts:15-49 | Python and TypeScript write the same text if and only if the two key orders agree inside every object of the value |
| Jcs.Latin1ValuesAgree | packages/ipc-client/src/jcs.ts:45-49 | they agree on every value whose keys stay below 0x100 |
| Jcs.LanguagesCanDiffer | apps/shim-python/loopstorm/_jcs.py:36-38 | a value on which they differ |
| AuditEvent.LineShape | apps/engine/src/audit.rs:50-141 | the text of a line is its head, the two hash fields as the verifier looks for them, and its tail, whatever the event contains |
| AuditEvent.BeforeNoHits | apps/cli/src/verify.rs:194-208 | nothing before the hash fields can look like one of them, whatever the escaped strings contain |
| AuditEvent.StripRecoversPayload | apps/cli/src/verify.rs:194-208 | text-level stripping of the first occurrences recovers exactly the payload that was hashed |
| AuditChain.AuditWriter.constructor | apps/engine/src/audit.rs:177-195 | opening starts a new chain behind whatever the file already holds |
| AuditChain.AuditWriter.WriteEvent | apps/engine/src/audit.rs:204-257 | a successful write appends the chained line; a failed one leaves the chain state as it was and possibly a torn line in the file |
| AuditChain.VerifyChain | apps/cli/src/verify.rs:74-176 | valid with the line count exactly when every line passes, otherwise the report of the first line that fails; what passing means is fixed by the rows of AuditTampering |
| AuditChain.LineEndsDoNotMatter | apps/cli/src/verify.rs:74-77 | blank lines, and carriage returns in front of newlines, make no difference to what is verified |
| AuditChain.WhitespaceMeans | apps/cli/src/verify.rs:76 | which characters make a line blank |
| AuditTampering.CheckOfPrinted | apps/cli/src/verify.rs:89-164 | the check of any printed line, in terms of its event, hash and link: unexpected link, wrong link, wrong hash or none of these |
| AuditTampering.RewrittenLine | apps/cli/src/verify.rs:89-176 | one line of a written log replaced by a line with any event, any hash and any link: the exact verdict; unnoticed are only a last line with a recomputed hash, and collisions |
| AuditTampering.EditedEvent | apps/cli/src/verify.rs:150-164 | an event changed with its stored hash and link left alone is reported as a hash mismatch at its own line, unless the payloads have the same hash |
| AuditTampering.UnhashedLineIsRefused | apps/cli/src/verify.rs:114-164 | a line that is no object, or has no hash text, is never accepted |
| AuditTampering.ForeignLine | apps/cli/src/verify.rs:92-112 | a line that is not JSON is reported as a JSON error, and one that is no object as such, at its own line |
| AuditTampering.AcceptedHash | apps/cli/src/verify.rs:150-164 | the stored hash of an accepted line is the hash of the rest of the line |
| AuditTampering.EditedEventWithSha256 | apps/cli/src/verify.rs:150-164 | with SHA-256 and the model's parser, a change of any field of any event is reported at its line, or the two payloads are a SHA-256 collision |
| AuditReading.LineReadsBack | apps/engine/src/audit.rs:50-141 | every optional field is in the line under its own name, and absent fields are absent |
| AuditReading.PayloadIsInjective | apps/engine/src/audit.rs:50-141 | different events have different payloads |
| AuditChain.VerdictIsUnique | apps/cli/src/verify.rs:89-176 | there is one verdict per log, so a reported break is the least failing position |
| AuditChain.PrefixIsAccepted | apps/cli/src/verify.rs:89-176 | every prefix of an accepted log is accepted |
| AuditChain.TamperEvidence | apps/cli/src/verify.rs:89-176 | two accepted logs that end in the same line are identical, length included, or two of their lines collide under the hash |
| AuditChain.ReadLineReads | apps/cli/src/verify.rs:92-122 | the model's JSON parser meets the one hypothesis made about the reader |
| AuditChain.WrittenLogVerifies | apps/cli/src/verify.rs:74-208 | every sequence of events written by one session to an empty file verifies with exactly that count |
| AuditChain.WriteThenVerify | apps/cli/src/verify.rs:74-176 | running the verifier on an intact writer's file answers valid with the writer's event count |
| AuditChain.ReopenedLog | apps/engine/src/audit.rs:177-210 | a file written by any number of sessions verifies if and only if at most one of them wrote anything; otherwise the break is the first line of the second one that did |
| AuditWithSha256.Utf8Injective | apps/engine/src/audit.rs:169-173 | different texts have different UTF-8 bytes |
| AuditWithSha256.WrittenLogVerifiesWithSha256 | apps/cli/src/verify.rs:74-208 | the round trip with SHA-256 and the model's parser, with nothing assumed about either |
| AuditWithSha256.TamperEvidenceWithSha256 | apps/cli/src/verify.rs:89-176 | accepted logs with the same last line are identical, or two of their lines are a SHA-256 collision |
| Sha256.Pad | apps/engine/build.rs:108-115 | the padding loop ends and yields the padding of section 5.1.1 of FIPS 180-4, and its length is a multiple of 64 bytes |
| Sha256.PaddingIsInjective | apps/engine/build.rs:108-115 | messages shorter than 2^61 bytes with the same padding are the same |
| Sha256.RotationsAreShifts | apps/engine/build.rs:123-144 | the rotations of the code are the shift form of section 4.1.2 of FIPS 180-4 |
| Sha256.FillSchedule | apps/engine/build.rs:119-130 | the array filled in place holds the message schedule of section 6.2.2 of FIPS 180-4 |
| Sha256.Rotate | apps/engine/build.rs:134-154 | one turn of the eight working variables is one round of section 6.2.2 |
| Sha256.Compress | apps/engine/build.rs:118-164 | one block changes the eight hash words in place to the next intermediate hash value |
| Sha256.ComputeSha256Hex | apps/engine/build.rs:88-171 | the whole in-place computation yields the functional digest, in lowercase hex; the constants and functions of that definition are fixed by the rows below |
| Sha256Constants.FirstPrimes | apps/engine/build.rs:90-101 | the list used holds exactly the first 64 primes |
| Sha256Constants.RoundConstants | apps/engine/build.rs:90-101 | each round constant is the first 32 bits behind the point of the cube root of its prime (section 4.2.2 of FIPS 180-4), as integer inequalities |
| Sha256Constants.InitialHashValue | apps/engine/build.rs:103-106 | the same with square roots of the first eight primes (section 5.3.3) |
| Sha256.ChoiceAndMajority | apps/engine/build.rs:136-143 | the choice follows its second argument where the first has ones and the third elsewhere; the majority follows any two that agree |
| Sha256.RotationAmounts | apps/engine/build.rs:124-142 | how far each of the four functions rotates and shifts |
| Sha256.WordIsBigEndian | apps/engine/build.rs:120-122 | words are read with the most significant byte first |
| Sha256.FromHexInverts | apps/engine/build.rs:166-171 | the hexadecimal text of a word reads back as the word |
| Sha256.DigestIsHex | apps/engine/build.rs:166-171 | every digest is 64 lowercase hex characters |
| TriggerQueue.Queue.Enqueue | packages/backend/src/lib/trigger-queue.ts:69-103 | when a trigger is accepted, and the exact new queue and deduplication map |
| TriggerQueue.Queue.Dequeue | packages/backend/src/lib/trigger-queue.ts:109-111 | the oldest trigger leaves; nothing else changes |
| TriggerQueue.Queue.CleanupDedup | packages/backend/src/lib/trigger-queue.ts:121-127 | exactly the entries older than the window leave |
| TriggerQueue.CleanupIsInvisible | packages/backend/src/lib/trigger-queue.ts:69-127 | with a clock that never goes back the queue answers every operation as one that never cleans up |
| TriggerQueue.QueueIsFifo | packages/backend/src/lib/trigger-queue.ts:69-111 | what was dequeued followed by what is queued is what was accepted, in order, and the size never exceeds the capacity |
| TriggerQueue.AcceptedPrioritiesFall | packages/backend/src/lib/trigger-queue.ts:69-103 | accepted triggers of one run less than 60 seconds apart have strictly falling priority numbers |
| TriggerQueue.AcceptedExactlyWhen | packages/backend/src/lib/trigger-queue.ts:69-102 | over every trace a trigger is accepted iff fewer wait than the capacity and its run's latest accepted trigger is at least 60 seconds old or less urgent |
| Scheduler.Supervisor.Arrive | apps/supervisor/src/index.ts:139-149 | a trigger is refused exactly when all five slots are busy and fifty wait; a free slot never coexists with a waiting trigger |
| Scheduler.Supervisor.ProcessTrigger | apps/supervisor/src/index.ts:61-86 | a session starts as the next one accepted; its setup may throw at any time, and then it has ended and the queue is drained before this returns |
| Scheduler.Supervisor.DrainQueue | apps/supervisor/src/index.ts:88-95 | after draining, waiting triggers mean that all slots are busy; the triggers started stay a prefix of those accepted through the mutual recursion |
| Scheduler.Supervisor.ExactlyOnePlace | apps/supervisor/src/index.ts:61-95 | each accepted trigger is exactly one of queued, active or finished |
| Scheduler.Supervisor.Limits | apps/supervisor/src/index.ts:47-48 | at most five sessions run and at most fifty triggers wait |
| Scheduler.AnyHistory | apps/supervisor/src/index.ts:61-149 | the invariants hold over every interleaving of arrivals and completions |
| RateLimit.Store.IncrementBucket | packages/backend/src/lib/rate-limit-store.ts:35-61 | the counter of the key and window rises by one; a successful answer's retry time is at least 1 and lands on the next window boundary; a database error is a refusal |
| RateLimit.AlignedWindowLimit | packages/backend/src/lib/rate-limit-store.ts:35-61 | per key at most `limit` requests are allowed in each aligned window, in any arrival order and with any database errors |
| RateLimit.AllowedExactlyWhen | packages/backend/src/lib/rate-limit-store.ts:35-61 | a request is allowed iff the database works and fewer than `limit` were recorded before it in its window |
| RateLimit.AnyIntervalLimit | packages/backend/src/lib/rate-limit-store.ts:35-61 | at most twice the limit is allowed in any interval of one window's length |
| TraceBuffer.Buffer.AddEvent | apps/otel-exporter/src/trace-buffer.ts:56-136 | the effect on the buffer and on where spans went: the event's span joins its run's trace, a start takes the place of a buffered root, a full buffer drops its oldest trace first, and the end of a run emits the whole trace |
| TraceBuffer.Buffer.EvictOldest | apps/otel-exporter/src/trace-buffer.ts:197-211 | the trace with the oldest first event leaves, the earliest inserted among equals |
| TraceBuffer.Buffer.FlushTimedOut | apps/otel-exporter/src/trace-buffer.ts:142-164 | exactly the traces past the timeout leave, and their spans are the result, roots first, in insertion order |
| TraceBuffer.Buffer.FlushAll | apps/otel-exporter/src/trace-buffer.ts:170-190 | every buffered span is emitted and nothing stays |
| TraceRuns.Session | apps/otel-exporter/src/trace-buffer.ts:56-211 | a session emits exactly the replay of its calls, in order, the flush at shutdown included; evicted and replaced spans are the replay's; every event's span is in one of the three as often as the event arrived |
| TraceRuns.Conservation | apps/otel-exporter/src/trace-buffer.ts:56-211 | at every point of every run each event's span is in exactly one of emitted, buffered, evicted or replaced, at most 1000 traces are held, one per run, and none is empty |
| TraceRuns.LossExactlyWhen | apps/otel-exporter/src/trace-buffer.ts:60-94 | nothing is evicted if and only if no call opens a trace while 1000 are held; nothing is replaced if and only if no start hits a trace held with a root |
| TraceRuns.NothingEvictedExactlyWhen | apps/otel-exporter/src/trace-buffer.ts:60-65 | read off the calls alone: nothing is ever evicted if and only if no event makes more than 1000 runs alive at once, ends and timeout flushes counted |
| TraceRuns.NothingReplacedExactlyWhen | apps/otel-exporter/src/trace-buffer.ts:84-94 | without evictions nothing is replaced if and only if no run starts twice within one life |
| TraceRuns.EverythingEmittedExactlyWhen | apps/otel-exporter/src/trace-buffer.ts:56-211 | a session emits every event's span exactly as often as the event arrived if and only if never more than 1000 runs are alive at once and no run starts twice within one life |
| TraceRuns.LivesAreShown | apps/otel-exporter/src/trace-buffer.ts:56-136 | without evictions the buffer holds, for each run alive, exactly its first time, latest start, other events in order and root annotations |
| TraceRuns.EndEmits | apps/otel-exporter/src/trace-buffer.ts:96-123 | the end of a run emits its root first, then its other events in order, then the end |
| PolicyUpdates.PolicyTable.Begin | packages/backend/src/trpc/routers/policies.ts:217-258 | which of not found, conflict, bad request and go-ahead a read gives |
| PolicyUpdates.PolicyTable.Finish | packages/backend/src/trpc/routers/policies.ts:260-296 | a successful write overwrites exactly the version it names and raises it by one; a refused one lost to another update of that version that succeeded after its read |
| PolicyUpdates.EveryWriteSurvives | packages/backend/src/trpc/routers/policies.ts:260-270 | every field of the row holds what the latest successful update that sets it gave it |
| PolicyUpdates.PolicyTable.Create | packages/backend/src/trpc/routers/policies.ts:147-190 | a pack with valid content is inserted at version 1 and nothing else changes |
| PolicyUpdates.Serve | packages/backend/src/trpc/routers/policies.ts:217-296 | any schedule of inserts, reads and writes comes out as its run says; there is a row for exactly the policies validly inserted, each the inserted one with exactly its successful updates applied; the n-th success on a policy named version n, so no two name the same |
| Proposals.ProposalTable.Begin | packages/backend/src/trpc/routers/supervisor.ts:112-142 | not found for a missing or foreign proposal, conflict for a decided one, otherwise the review goes on to its write |
| Proposals.ProposalTable.Finish | packages/backend/src/trpc/routers/supervisor.ts:144-173 | the guarded write records the reviewer; it is refused if and only if the proposal was decided or expired after this review's read |
| Proposals.ProposalTable.ExpireProposals | packages/backend/src/jobs/timeout-checker.ts:110-125 | exactly the pending proposals older than a day expire, and they are counted |
| Proposals.SweptMeans | packages/backend/src/jobs/timeout-checker.ts:110-125 | what is pending for more than 86400 seconds expires, and only status and update time change |
| Proposals.Serve | packages/backend/src/trpc/routers/supervisor.ts:112-247 | any schedule comes out as its run says, with a row for exactly the proposals inserted; a proposal leaves pending at most once, with one winner among approve, reject and expire; at most one reviewer is told of success and the row shows that review; only proposals older than a day expire |
| Escalations.EscalationTable.Begin | packages/backend/src/trpc/routers/supervisor.ts:319-347 | not found for a missing or foreign escalation, conflict unless it is open (to acknowledge) or acknowledged (to resolve) |
| Escalations.EscalationTable.Finish | packages/backend/src/trpc/routers/supervisor.ts:349-380 | the guarded write is refused if and only if the escalation changed after this request's read |
| Escalations.EscalationTable.ExpireEscalations | packages/backend/src/jobs/timeout-checker.ts:135-155 | exactly the open escalations past their own timeout expire |
| Escalations.SweptMeans | packages/backend/src/jobs/timeout-checker.ts:135-155 | what is open for longer than its own timeout expires, and only status and update time change |
| Escalations.Serve | packages/backend/src/trpc/routers/supervisor.ts:319-455 | any schedule comes out as its run says, with a row for exactly the escalations inserted; the successful answers for one are none, an acknowledgement, or an acknowledgement and then a resolution; a resolved one names who acknowledged it; one without a timeout never expires |
| Trails.OvertakenExactlyWhen | packages/backend/src/trpc/routers/supervisor.ts:156-163 | a row read earlier was changed since if and only if its trail of accepted changes has grown |

## Left out

- Floating point: costs are `real`, so rounding of f64 sums is not modelled; u64 totals do not overflow.
- Timestamps, latency and reason texts of responses: only what identifies the deciding rule is kept, as the `Reason` datatype.
- Budget.BudgetTracker.Record: the model's `BudgetState` also carries its run id, which the source keeps only as the map key.
- Glob matching, YAML parsing, JSON printing of condition values: parameters (`Library`), with nothing assumed about them.
- `reset` of the budget tracker and the loop detector: nothing in the engine's pipeline calls them.
- LoopDetector.Detector.RecordError: proved with the detector, but the engine's pipeline never calls it, so `EngineRuns` has no error streaks.
- Redaction, telemetry, risk scores and approval fields of responses: branch-by-branch facts without cross-call properties.
- Policy reloading and several engine instances: one fixed policy, one engine.
- Guard.Network.Serve: read timeouts, oversized and non-UTF-8 messages are covered only as a connection that stops being served or a malformed line, without their own rule ids.
- Guard.Session: the client's byte buffer is abstracted to the queue of response lines still to be read; `ClientFraming` treats its bytes separately.
- The TypeScript guard and the MCP proxy: the same protocol in callback form.
- Jcs.CanonicalTextIsExact: floats, and in TypeScript integers outside the safe range, are not covered; number formatting there rests on the host's printing.
- AuditChain.AuditWriter.WriteEvent: bytes that a buffered writer retries after a failed flush are not modelled; a failed write may leave any part of its line.
- Numbers of an audit line that come from f64 fields are arbitrary JSON number literals; how they are printed is not modelled.
- Backend ingest and its chain rule, which differs from the engine's: nothing is claimed about it.
- TraceBuffer.Buffer.AddEvent: span contents (attributes, timing, the annotations attached to a root span) are not modelled; a span is the identity of its event.
- PolicyUpdates.PolicyTable.Create: `created_by`, `schema_version` and `updated_at` columns are not modelled; ids are fresh, as the database draws them.
- Deletion of rows by removing a tenant: rows stay once inserted.
- Authentication and input length limits of the backend's procedures: tenants and users are inputs.
- RateLimit.Store.IncrementBucket: the upsert is one atomic step, as the database makes it; cleaning up old rows is not modelled.
- Scheduler.Supervisor.ProcessTrigger: what a session does is abstract; its setup throws or not at will, and otherwise it ends at any later time.
