# Verification model of the Buttercup crash-finding components

This project models nine components of Buttercup in Dafny and proves properties of them that hold for every
input, every run or every reachable state. Each imperative part of the source is a method or a class proved
against a specification function, and the theorems are about those functions.

| file | what it models |
|---|---|
| `EditDistance.dfy` | the two-row Levenshtein loop, and edit distance as the length of the shortest chain of one-character edits |
| `CommonSubsequence.dfy` | the table loop for the longest common subsequence, and subsequences as increasing choices of positions |
| `CrashComparer.dfy` | similarity ratios, Python's `splitlines`, and the decision whether two crash states are similar |
| `StackParser.dfy` | the cycle search in stack-overflow frames, and the grouping of frames into threads |
| `CrashLines.dfy` | that the lines the comparer sees in a crash state are the frames the parser wrote |
| `PovStatus.dfy` | the PoV reproduction sets in Redis, read by many clients through their caches |
| `CorpusMerge.dfy` | the distributed corpus merge, as interleaved steps of many nodes and as the objects of one pass |
| `ReliableQueue.dfy` | one Redis stream with a consumer group, and any number of readers |
| `BuilderBot.dfy` | build workers on that queue, command by command, with crashes and redeliveries |
| `BuildEvidence.dfy` | what the tools must have answered for each output and acknowledgement of those workers to exist |
| `CoverageCodec.dfy` | the delta-compressed coverage snapshots and their two decoders |
| `ToolOptions.dfy` | joining and parsing memory tool options, with the regular expression that splits at unquoted colons |
| `PovWorkflow.dfy` | the vulnerability discovery graph, its step limit, and the directory moves of tested PoVs |
| `Text.dfy`, `Numbers.dfy`, `Outcomes.dfy` | string order, decimal numerals, shared arithmetic, `Option` and `Result` |

## What the proofs show about the code

- The similarity verdict depends on the order of the two states exactly when one of them carries the
  `FuzzerHash=` marker, the other does not, and their lines are similar: `is_similar` looks for the marker
  in the first state only (`SimilarIsSymmetricIff`, with the counterexample family
  `MarkerBelowIsOrderDependent`), although its comment speaks of "a fuzzer hash string in state".
- With `request_status` as one step, a cached "no verdict yet" never leads it astray, and a cached verdict is
  always the live one (`CachedRunAgreesWithLive`). As the two commands that its lookup and its later add are,
  the sets stay disjoint over a run exactly if no verdict for a request arrives between a client's lookup of
  it and that client's add (`SplitRunIsDisjointIff`). Verdicts are then permanent, and cached ones right,
  exactly if no such late add of a request found to crash is followed by a mark, the next one of that request,
  that it does not crash (`SplitVerdictsArePermanentIff`; between any two points of a run,
  `SplitVerdictChangesIff`). There are runs in which that happens (`SplitRunChangesVerdict`): a client that
  cached the first verdict goes on answering with it.
- The merge never loses combined coverage even if pushes silently fail and even without the lock, because a
  deleted file is covered by files in the remote corpus or by files the node itself keeps
  (`CoverageNeverShrinks`). The counts that `push_remotely` and `delete_locally` return are of files sent or
  tried, not of files that arrived or went away.
- A merge pass selects `max(1, max_local_files)` files, not `max_local_files`: the limit is looked at after a
  file was added (`SelectLocalFiles`).
- The limit on tries does not apply to failing builds: a request of which only the build fails is never
  acknowledged, whatever becomes of other requests (`FailingBuildsAreNeverAcknowledged`), and for every limit
  and every number there is a run in which it has been handed out that often and is still pending
  (`RetriedForEver`).
- The limit on tries is not compared with the delivery that failed, but with the count at the time of the
  check: that delivery's own count plus all hand-outs to anyone since (`LimitCountsLaterHandOuts`). So for every
  limit of at least one there is a run in which a request is given up although its diff failed in one delivery
  only, its first (`GivenUpOnFirstDelivery`). If nobody else was handed the request in the meantime, the failed
  delivery itself was over the limit.
- Where a key was monitored, decoding shows what the last round with news left; a round has news if its last
  data for the key is not empty and differs from the data monitored just before under that key, be it in an
  earlier round or earlier in the same one (`ShownIsLatest`). So a non-empty snapshot is decoded rightly
  exactly if the last news so far was equal data, and an empty one exactly if there was no news so far
  (`FaithfulIff`, for all keys). For a harness with a key of its own this means: right at every non-empty
  snapshot, also after coverage went back to empty, and wrong exactly at an empty snapshot after a non-empty
  one (`FaithfulIffDistinct`). The key leaves out the task, so two tasks can share it, and a round in which
  they end with equal data is shown as whatever came before it, or not at all (`RepetitionHidesRound`,
  `SharedKeyLosesData`).
- Joined options parse back exactly when each single option has a name without an equals sign, is well quoted
  as a whole, and is not a string that reads as an integer (`JoinThenParseIff`).
- The step limit leaves a step to spare in every run exactly when both iteration limits are at least 1
  (`LimitDominatesIff`): each loop body runs once even if its limit is smaller.

## Model

| member | source | states |
|---|---|---|
| EditDistance.LevenshteinDistance | common/src/buttercup/common/clusterfuzz_parser/crash_comparer.py:22-45 | the early exits and the two rows updated in place compute the edit distance of any two strings |
| EditDistance.FillRow | common/src/buttercup/common/clusterfuzz_parser/crash_comparer.py:36-40 | one turn of the outer loop turns row i of the full distance matrix into row i + 1 |
| EditDistance.CopyRow | common/src/buttercup/common/clusterfuzz_parser/crash_comparer.py:42-43 | the copying loop makes the old row equal to the new one |
| EditDistance.LevenshteinIsMinimalEditCount | common/src/buttercup/common/clusterfuzz_parser/crash_comparer.py:22-45 | some chain of single inserts, deletes and substitutions is as long as the distance, and none is shorter |
| EditDistance.LeastEditCountIff | common/src/buttercup/common/clusterfuzz_parser/crash_comparer.py:22-45 | a number is the distance exactly if some chain has that many edits and none has fewer |
| EditDistance.NoShorterEditChain | common/src/buttercup/common/clusterfuzz_parser/crash_comparer.py:32-45 | every chain of edits between two strings has at least as many steps as the distance |
| EditDistance.ShortestEditChain | common/src/buttercup/common/clusterfuzz_parser/crash_comparer.py:32-45 | constructs a chain of edits that has exactly as many steps as the distance |
| EditDistance.LevenshteinTriangle | common/src/buttercup/common/clusterfuzz_parser/crash_comparer.py:32-45 | the distance obeys the triangle inequality |
| EditDistance.LevenshteinSymmetric | common/src/buttercup/common/clusterfuzz_parser/crash_comparer.py:32-45 | the distance is the same in both directions |
| EditDistance.LevenshteinZeroIffEqual | common/src/buttercup/common/clusterfuzz_parser/crash_comparer.py:25-45 | the distance is zero exactly on equal strings |
| EditDistance.LevenshteinBounds | common/src/buttercup/common/clusterfuzz_parser/crash_comparer.py:27-45 | the distance lies between the difference and the maximum of the lengths |
| CommonSubsequence.LongestCommonSubsequence | common/src/buttercup/common/clusterfuzz_parser/crash_comparer.py:58-72 | the nested loops over the table compute the recurrence for any two frame lists |
| CommonSubsequence.LcsIsMaximal | common/src/buttercup/common/clusterfuzz_parser/crash_comparer.py:58-72 | the result is the length of some common subsequence, and no common subsequence is longer |
| CommonSubsequence.NoLongerCommonSubsequence | common/src/buttercup/common/clusterfuzz_parser/crash_comparer.py:58-72 | every common subsequence is at most as long as the result |
| CommonSubsequence.LcsAtLeastIff | common/src/buttercup/common/clusterfuzz_parser/crash_comparer.py:105-107 | the result reaches a number exactly if there is a common subsequence of that length |
| CommonSubsequence.LcsSymmetric | common/src/buttercup/common/clusterfuzz_parser/crash_comparer.py:58-72 | the result does not depend on the order of the lists |
| CrashComparer.ComputeSimilarityRatio | common/src/buttercup/common/clusterfuzz_parser/crash_comparer.py:48-55 | 1 for two empty lines, and otherwise the share of the summed lengths that is left when the least number of edits between the lines is taken off |
| CrashComparer.SimilarityRatioLaws | common/src/buttercup/common/clusterfuzz_parser/crash_comparer.py:48-55 | the ratio is between 0 and 1, is 1 exactly on equal lines, and is symmetric |
| CrashComparer.RatioIff | common/src/buttercup/common/clusterfuzz_parser/crash_comparer.py:48-55 | a number is the ratio exactly if it is that share, with the least number of edits told by chains of edits |
| CrashComparer.AverageOfRatios | common/src/buttercup/common/clusterfuzz_parser/crash_comparer.py:109-121 | the average times the number of line pairs compared is the sum of their ratios |
| CrashComparer.ContainsIff | common/src/buttercup/common/clusterfuzz_parser/crash_comparer.py:97 | a text holds another exactly if it is a text before it, the other, and a text after it |
| CrashComparer.SplitLinesIff | common/src/buttercup/common/clusterfuzz_parser/crash_comparer.py:102-103 | the lines are exactly those that Python's line boundaries make, a carriage return and line feed being one |
| CrashComparer.LinesAndBreaks | common/src/buttercup/common/clusterfuzz_parser/crash_comparer.py:102-103 | splitting a state into lines loses only the line breaks: lines and breaks interleaved give the state back |
| CrashComparer.RatioAverageBounds | common/src/buttercup/common/clusterfuzz_parser/crash_comparer.py:109-121 | for non-empty states at least one line is compared, the average is between 0 and 1, and is 1 exactly if the lines of one begin the other |
| CrashComparer.SimilarIff | common/src/buttercup/common/clusterfuzz_parser/crash_comparer.py:85-121 | for any two states: similar exactly if neither is empty and they are equal, or the first holds no "FuzzerHash=" and their lines have two in common in order or ratios whose sum exceeds the threshold times their number |
| CrashComparer.SimilarIsSymmetricIff | common/src/buttercup/common/clusterfuzz_parser/crash_comparer.py:95-98 | the verdict is the same both ways exactly if both or neither carry the marker, or the lines are not similar |
| CrashComparer.MarkerBelowIsOrderDependent | common/src/buttercup/common/clusterfuzz_parser/crash_comparer.py:95-98 | a one-line state is similar to the one that continues with a fuzzer hash, and not the other way round |
| CrashComparer.SimilarIsNotSymmetric | common/src/buttercup/common/clusterfuzz_parser/crash_comparer.py:95-98 | such a pair of states exists |
| CrashComparer.CrashComparer.constructor | common/src/buttercup/common/clusterfuzz_parser/crash_comparer.py:80-83 | a missing and a zero threshold both become 0.8 |
| CrashComparer.CrashComparer.IsSimilar | common/src/buttercup/common/clusterfuzz_parser/crash_comparer.py:85-121 | the decision with its early returns and running sum gives the verdict the lemmas are about |
| StackParser.FindCycle | common/src/buttercup/common/clusterfuzz_parser/__init__.py:1435-1464 | the nested loops pick the least (start, length) with three equal consecutive blocks of 1 to 10 frames, the third ending before the last frame, or nothing if there is none |
| StackParser.TryCycle | common/src/buttercup/common/clusterfuzz_parser/__init__.py:1441-1458 | the inner loop accepts a candidate exactly if it is a cycle |
| StackParser.PickIsUnique | common/src/buttercup/common/clusterfuzz_parser/__init__.py:1435-1464 | there is only one least cycle |
| StackParser.IsPickIff | common/src/buttercup/common/clusterfuzz_parser/__init__.py:1435-1464 | the pick comes three times over within the frames but the last, is one to ten frames long, and nothing that starts earlier or is shorter does |
| StackParser.PickIsPrimitive | common/src/buttercup/common/clusterfuzz_parser/__init__.py:1437-1464 | the chosen block is never two or more repetitions of a shorter block |
| StackParser.AppendingMovesPickEarlier | common/src/buttercup/common/clusterfuzz_parser/__init__.py:1435-1464 | more frames can only move the pick earlier, to a cycle reaching into them, and no longer once it is thirty frames from the end |
| StackParser.CrashInfo.UpdateCrashStateForStackOverflow | common/src/buttercup/common/clusterfuzz_parser/__init__.py:1430-1464 | for a stack overflow the crash state becomes the first three frames of the first such block, or all of a shorter one, each on its line; otherwise, or without one, it is unchanged |
| StackParser.TerminatedIsJoined | common/src/buttercup/common/clusterfuzz_parser/__init__.py:1462-1463 | joining frames with newlines and adding one is the same text as adding each frame with its newline |
| CrashLines.LinesOfTerminated | common/src/buttercup/common/clusterfuzz_parser/__init__.py:269-271 | a crash state made of one-line frames splits into exactly these frames when states are compared |
| StackParser.CrashInfo.AddFrameOnMatch | common/src/buttercup/common/clusterfuzz_parser/__init__.py:206-273 | the fields after a line: thread lists, last frame id, raw frames, crash state and frame count, and nothing on a line that does not match |
| StackParser.CrashInfo.UpdateStateOnMatch | common/src/buttercup/common/clusterfuzz_parser/__init__.py:160-193 | crash type, address, state and frame count after a line: a match group goes before a given value and that before the reset; the threads stay, and nothing changes on a line that does not match |
| StackParser.UpdateCases | common/src/buttercup/common/clusterfuzz_parser/__init__.py:168-191 | field by field: the match group's text, or else the value given, or else nothing on a reset, or else what it was |
| StackParser.ResetStartsAfresh | common/src/buttercup/common/clusterfuzz_parser/__init__.py:168-171 | after a reset the crash state holds the first three frames kept since, while the raw frames go on |
| StackParser.ThreadsAreMaximalRuns | common/src/buttercup/common/clusterfuzz_parser/__init__.py:238-254 | over any run the threads are all matched frames in order, split into maximal non-decreasing runs of frame ids, a missing id counting as the previous plus one |
| StackParser.RunSplitIsUnique | common/src/buttercup/common/clusterfuzz_parser/__init__.py:238-254 | there is only one such split, so the previous row fixes the threads |
| StackParser.CrashStateTakesFirstFrames | common/src/buttercup/common/clusterfuzz_parser/__init__.py:259-271 | between updates the raw frames gain all frames that are not ignored, and the crash state the first of them until it has three |
| PovStatus.CachedRunAgreesWithLive | common/src/buttercup/common/sets.py:110-171 | over every run of any clients with any evictions, answers and sets are those of a version that reads the live sets |
| PovStatus.NextAgreesWithLive | common/src/buttercup/common/sets.py:110-171 | a single step through a coherent cache agrees with the live step |
| PovStatus.ReachableStoresAreDisjoint | common/src/buttercup/common/sets.py:139-215 | pending, mitigated and non-mitigated are pairwise disjoint in every reachable state |
| PovStatus.VerdictIsPermanent | common/src/buttercup/common/sets.py:139-215 | once there is a verdict it stays, and the request is never pending again |
| PovStatus.OnlyExpiredBecomesPendingAgain | common/src/buttercup/common/sets.py:169-215 | a request that left the pending set and came back was marked as expired in between, while pending, and had no verdict |
| PovStatus.ExpiredIsScheduledAgain | common/src/buttercup/common/sets.py:169-215 | an expired request has no verdict and is pending again as soon as anyone asks |
| PovStatus.MarkDecidesEveryLaterAnswer | common/src/buttercup/common/sets.py:151-199 | after a mark every client is answered with it for ever, whatever its cache held |
| PovStatus.AnswerTellsWhere | common/src/buttercup/common/sets.py:139-171 | no status means pending, a status is the verdict, and asking changes at most the pending set by that request |
| PovStatus.SplitRunIsDisjointIff | common/src/buttercup/common/sets.py:156-171 | with lookup and add as separate commands the sets are disjoint throughout a run exactly if no verdict for a request is given between a client's lookup of it and that client's add |
| PovStatus.SplitRunIsClearIff | common/src/buttercup/common/sets.py:156-171 | the same for each single request |
| PovStatus.SplitVerdictChangesIff | common/src/buttercup/common/sets.py:139-199 | over such runs the verdict given by one point has changed at a later one exactly if, in between, a request found to crash and added late is next marked as mitigated; it changes only from crash to no crash |
| PovStatus.SplitVerdictsArePermanentIff | common/src/buttercup/common/sets.py:139-199 | every verdict is permanent over a whole such run exactly if that never happens in it |
| PovStatus.SplitRunBreaksDisjointness | common/src/buttercup/common/sets.py:156-171 | two clients and a verdict in between bring a request into two sets |
| PovStatus.SplitRunChangesVerdict | common/src/buttercup/common/sets.py:156-199 | after such a run a given verdict of a crash is replaced by its opposite |
| PovStatus.PoVReproduceStatus.DidCrash | common/src/buttercup/common/sets.py:110-130 | the cached lookup; of 1000 entries, the one used least recently goes for a new one |
| PovStatus.PoVReproduceStatus.RequestStatus | common/src/buttercup/common/sets.py:139-171 | answers and changes the pending set as the atomic step does: a request without a status is pending afterwards |
| PovStatus.PoVReproduceStatus.MarkMitigated | common/src/buttercup/common/sets.py:173-185 | moves a pending request to mitigated and reports whether it did |
| PovStatus.PoVReproduceStatus.MarkNonMitigated | common/src/buttercup/common/sets.py:187-199 | moves a pending request to non-mitigated and reports whether it did |
| PovStatus.PoVReproduceStatus.MarkExpired | common/src/buttercup/common/sets.py:201-215 | moves a pending request to expired and reports whether it did |
| PovStatus.PoVReproduceStatus.GetOnePending | common/src/buttercup/common/sets.py:217-241 | returns some pending request, or nothing exactly if none is pending |
| CorpusMerge.CoverageNeverShrinks | fuzzer/src/buttercup/fuzzing_infra/corpus_merger.py:297-345 | in every run of any nodes, at every step, with crashes, failing pushes and files that other components add remotely, combined coverage never shrinks and the remote corpus only grows |
| CorpusMerge.NextKeepsCoverage | fuzzer/src/buttercup/fuzzing_infra/corpus_merger.py:297-345 | the same for a single step from any state that satisfies the invariant |
| CorpusMerge.PushedPassIsCoveredRemotely | fuzzer/src/buttercup/fuzzing_infra/corpus_merger.py:333-343 | once the push has gone through, the remote corpus covers everything the pass selected |
| CorpusMerge.ToFinalSplitsSelection | fuzzer/src/buttercup/fuzzing_infra/corpus_merger.py:119-135 | the assertions fail exactly if the engine lost or invented files; otherwise the selection is split exactly into pushed and deleted, and the pushed are the files the engine added |
| CorpusMerge.SelectLocalFiles | fuzzer/src/buttercup/fuzzing_infra/corpus_merger.py:80-100 | in any shuffled order, selects min(n, max(1, limit)) of the n files that can be copied, and none that cannot |
| CorpusMerge.FinalCorpus.PushRemotely | fuzzer/src/buttercup/fuzzing_infra/corpus_merger.py:46-53 | adds what arrives of the files to push, clears them, and returns how many were sent |
| CorpusMerge.FinalCorpus.DeleteLocally | fuzzer/src/buttercup/fuzzing_infra/corpus_merger.py:55-66 | removes the files to delete except those whose removal fails, and returns how many were tried |
| CorpusMerge.MergerBot.RunTask | fuzzer/src/buttercup/fuzzing_infra/corpus_merger.py:290-355 | nothing without the lock; else what sync, selection, a failing copy or engine, a failed assertion, push and delete leave in both corpora, and the returned flag or error |
| CorpusMerge.MergerBot.RunTasks | fuzzer/src/buttercup/fuzzing_infra/corpus_merger.py:263-386 | k passes over one corpus one after the other, without failures and new inputs, leave n - min(n, k * max(1, limit)) local-only files, none exactly from k = ceil(n / max(1, limit)) on |
| CorpusMerge.OutcomeIsARun | fuzzer/src/buttercup/fuzzing_infra/corpus_merger.py:297-353 | every pass, finished, without work or failed at a copy, in the engine or at an assertion, is a run of the many-node machine |
| CorpusMerge.OutcomeCases | fuzzer/src/buttercup/fuzzing_infra/corpus_merger.py:297-353 | which passes count as work, which raise what, and file by file what is in both corpora afterwards |
| CorpusMerge.TaskKeepsCoverage | fuzzer/src/buttercup/fuzzing_infra/corpus_merger.py:297-353 | every pass of a node, however it goes, keeps the joint coverage of its corpus and the remote one |
| CorpusMerge.SmoothOutcomeIsCleanPass | fuzzer/src/buttercup/fuzzing_infra/corpus_merger.py:297-345 | a pass in which nothing fails is a pass in the sense of the drain theorems |
| CorpusMerge.PassShrinksBacklog | fuzzer/src/buttercup/fuzzing_infra/corpus_merger.py:80-135 | a pass takes exactly its pushed and deleted files out of the local-only set |
| CorpusMerge.PassesDrainBacklog | fuzzer/src/buttercup/fuzzing_infra/corpus_merger.py:80-135 | after k passes over n local-only files n - min(n, k * max(1, limit)) are left |
| CorpusMerge.BacklogIsEmptyIff | fuzzer/src/buttercup/fuzzing_infra/corpus_merger.py:80-135 | the backlog is empty exactly from pass ceil(n / max(1, limit)) on |
| ReliableQueue.MessagesArePartitioned | common/src/buttercup/common/queues.py:135-212 | in every run each pushed message is in exactly one of undelivered, pending with one owner, and acknowledged |
| ReliableQueue.TakeoverNeedsIdleTime | common/src/buttercup/common/queues.py:155-178 | pop takes a message over from another reader only after task_timeout_ms of idling, whether others act between its commands or not, and an uninterrupted pop only with nothing new to read; claim_item only after the idle time it names |
| ReliableQueue.PopIsItsCommands | common/src/buttercup/common/queues.py:150-196 | an uninterrupted pop is its commands one after the other, each only if the one before gave nothing |
| ReliableQueue.PopGives | common/src/buttercup/common/queues.py:150-196 | which message a pop gives: the first own pending one if wanted, else the next undelivered, else the first idle one looked at, and none only if there is none of these |
| ReliableQueue.PositionStaysWhileOwn | common/src/buttercup/common/queues.py:180-186 | over any run a reader's position stays while its pops find entries of its own, and is ">" from the first that finds none |
| ReliableQueue.ClaimGives | common/src/buttercup/common/queues.py:210-212 | a claim takes a message exactly if it is pending and idle for the time named |
| ReliableQueue.AckTakesOut | common/src/buttercup/common/queues.py:198-200 | an acknowledgement moves that pending message to the acknowledged ones and touches nothing else |
| ReliableQueue.PushAppends | common/src/buttercup/common/queues.py:135-137 | a push adds the message at the end, undelivered, and touches nothing else |
| ReliableQueue.DeliveryGivesOwnership | common/src/buttercup/common/queues.py:150-212 | a delivery makes the reader the owner and restarts the idle time, and nothing else changes an entry |
| ReliableQueue.NextIsLater | common/src/buttercup/common/queues.py:135-212 | a step never loses a pending message, and only acknowledging acknowledges |
| ReliableQueue.LaterStream | common/src/buttercup/common/queues.py:135-212 | the same over any continuation of a run: log and acknowledgements only grow |
| ReliableQueue.TimesDeliveredCountsDeliveries | common/src/buttercup/common/queues.py:202-208 | times_delivered is the number of hand-outs to all readers while the message is pending, and 0 otherwise |
| ReliableQueue.FirstDeliveriesFollowLog | common/src/buttercup/common/queues.py:155-185 | a message is handed out for the first time only after all earlier ones were |
| ReliableQueue.RedisStream.XReadGroupOwn | common/src/buttercup/common/queues.py:155-161 | reading with an id gives the first own pending entry from there on and counts a delivery |
| ReliableQueue.RedisStream.XReadGroupNew | common/src/buttercup/common/queues.py:155-161 | reading with ">" gives the next message nobody was given |
| ReliableQueue.RedisStream.XAutoClaim | common/src/buttercup/common/queues.py:166-172 | takes over the first sufficiently idle entry among those looked at |
| ReliableQueue.ReliableQueue.PopItem | common/src/buttercup/common/queues.py:150-196 | own pending entries first if wanted, then a new message, then an idle one; the position falls back to ">" when nothing of its own is left |
| ReliableQueue.ReliableQueue.Push | common/src/buttercup/common/queues.py:135-137 | appends one message to the log |
| ReliableQueue.ReliableQueue.AckItem | common/src/buttercup/common/queues.py:198-200 | takes a pending entry out, whoever owns it |
| ReliableQueue.ReliableQueue.GetTimesDelivered | common/src/buttercup/common/queues.py:202-208 | reads the delivery count of a pending entry, 0 for any other id |
| ReliableQueue.ReliableQueue.ClaimItem | common/src/buttercup/common/queues.py:210-212 | makes the reader the owner of an entry that has been idle for the given time |
| BuildEvidence.AcknowledgedForAReason | fuzzer/src/buttercup/fuzzing_infra/builder_bot.py:98-190 | every acknowledged request was acknowledged by a worker that, in the same call and since the same delivery, was told that the task is stopped, or saw the diff or the patch fail and then the count over the limit, or saw diff, patch and build succeed and pushed the output |
| BuildEvidence.FailingBuildsAreNeverAcknowledged | fuzzer/src/buttercup/fuzzing_infra/builder_bot.py:155-166 | a request whose workers see nothing but a failing build is never acknowledged and no output is pushed for it, whatever other requests do |
| BuildEvidence.NothingBuildsNothingAcknowledged | fuzzer/src/buttercup/fuzzing_infra/builder_bot.py:155-166 | if that holds of all requests, nothing is acknowledged and nothing pushed |
| BuildEvidence.RetriedForEver | fuzzer/src/buttercup/fuzzing_infra/builder_bot.py:155-166 | for every request, limit and number some run with failing builds hands the request out that many times and leaves it pending |
| BuildEvidence.OutputsAreEarned | fuzzer/src/buttercup/fuzzing_infra/builder_bot.py:127-185 | every output carries task, engine, sanitizer, type, diff flag and patch id of a request, and was pushed in a call in which, one after the other, its diff and patch applied and the build succeeded in the output's directory |
| BuildEvidence.EventsAreTrue | fuzzer/src/buttercup/fuzzing_infra/builder_bot.py:108-144 | a request counts as stopped only in a call in which the registry said so, and is given up only in a call in which its diff or patch failed and then the count was over the limit |
| BuildEvidence.EveryWorkerIsInACall | fuzzer/src/buttercup/fuzzing_infra/builder_bot.py:98-190 | in every run a worker at a point has found, in its consecutive steps since the delivery, exactly the facts that lead there, in order |
| BuildEvidence.LimitCountsLaterHandOuts | fuzzer/src/buttercup/fuzzing_infra/builder_bot.py:128-142 | the count that exceeded the limit is that of the failed delivery plus all hand-outs of the request since then |
| BuildEvidence.GivenUpOnFirstDelivery | fuzzer/src/buttercup/fuzzing_infra/builder_bot.py:128-135 | for every limit of at least one some run gives up and acknowledges a request whose diff failed once, in its first delivery |
| BuilderBot.EveryRequestIsKeptOrJustified | fuzzer/src/buttercup/fuzzing_infra/builder_bot.py:98-190 | in every run with crashes and redeliveries a request is undelivered, pending, or acknowledged for one of three reasons |
| BuilderBot.RunKeepsInvariant | fuzzer/src/buttercup/fuzzing_infra/builder_bot.py:98-190 | every run keeps the invariant that ties delivery counts, workers' points and acknowledgements to the history |
| BuilderBot.ServeItemIsARun | fuzzer/src/buttercup/fuzzing_infra/builder_bot.py:98-190 | an undisturbed call is at most seven steps of the machine, so the run theorems hold of calls |
| BuilderBot.BuilderBot.Serve | fuzzer/src/buttercup/fuzzing_infra/builder_bot.py:98-190 | the call leaves the queues as that sequence of steps does and returns its flag; on success one output is added, with the request's fields and the build's directory |
| BuilderBot.ServeItemCases | fuzzer/src/buttercup/fuzzing_infra/builder_bot.py:98-190 | what a call comes to case by case: when it counts as work, when the request is acknowledged, and what is pushed |
| BuilderBot.BuilderBot.ApplyChallengeDiff | fuzzer/src/buttercup/fuzzing_infra/builder_bot.py:43-66 | fails exactly if a diff is asked for in delta mode and does not apply |
| BuilderBot.BuilderBot.ApplyPatch | fuzzer/src/buttercup/fuzzing_infra/builder_bot.py:68-96 | fails exactly if there is a patch with an id and it does not apply |
| BuilderBot.BuilderBot.AckIfTriesExceeded | fuzzer/src/buttercup/fuzzing_infra/builder_bot.py:128-144 | acknowledges exactly if the request was delivered more than max_tries times |
| CoverageCodec.DataEqualIff | common/src/buttercup/common/coverage_monitor.py:53-80 | two lists are equal exactly if for each function name they have as many entries and, one by one, the same total lines, the same covered lines and the same set of paths |
| CoverageCodec.DataEqualIsEquivalence | common/src/buttercup/common/coverage_monitor.py:53-80 | this equality is reflexive, symmetric and transitive, and needs equal lengths |
| CoverageCodec.CoverageMonitor.Collect | common/src/buttercup/common/coverage_monitor.py:176-227 | one turn of the loop appends the encoded snapshot and remembers the data last stored |
| CoverageCodec.Monitor | common/src/buttercup/common/coverage_monitor.py:167-233 | any number of turns give the encoding of the rounds |
| CoverageCodec.DecodingGivesBackCoverage | common/src/buttercup/common/coverage_monitor.py:188-224 | for a harness with a distinct key either decoder shows, at each non-empty snapshot, for every function the line counts and paths of the original, and nothing where the harness was absent |
| CoverageCodec.ShownIsLatest | common/src/buttercup/common/coverage_monitor.py:188-224 | for any rounds and any key, shared or not, either decoder shows where the key was monitored what the last round with news left, and nothing elsewhere |
| CoverageCodec.FaithfulIff | common/src/buttercup/common/coverage_monitor.py:188-224 | for any rounds and any key: a non-empty snapshot is decoded to equal data exactly if the last news so far is equal, an empty one to nothing exactly if there was no news so far |
| CoverageCodec.FaithfulIffDistinct | common/src/buttercup/common/coverage_monitor.py:188-224 | for a distinct key, decoding is faithful exactly at the snapshots that are not empty after a non-empty one |
| CoverageCodec.PrintDecode | common/src/buttercup/common/coverage_monitor.py:422-463 | the printing loop decodes every snapshot as its specification says |
| CoverageCodec.VisualDecode | common/src/buttercup/common/coverage_monitor.py:468-494 | the plotting loop keeps, in order, exactly the snapshots it has something to show for |
| CoverageCodec.DecodersAgree | common/src/buttercup/common/coverage_monitor.py:422-494 | the two decoders agree on all snapshots in which no record both claims to be unchanged and carries data |
| CoverageCodec.DecodersAgreeOnEncoderOutput | common/src/buttercup/common/coverage_monitor.py:422-494 | so they agree on everything the monitor writes, distinct keys or not |
| CoverageCodec.RepetitionHidesRound | common/src/buttercup/common/coverage_monitor.py:188-224 | a round that ends with equal data under a shared key is decoded as what was shown before it |
| CoverageCodec.SharedKeyLosesData | common/src/buttercup/common/coverage_monitor.py:188-224 | if a key ends so in every round that monitors it, nothing is ever shown for it, over any number of rounds |
| CoverageCodec.SharedRoundLosesData | common/src/buttercup/common/coverage_monitor.py:188-224 | such a round exists for any non-empty data, and its decoding is not faithful |
| ToolOptions.JoinThenParseIff | common/src/buttercup/common/clusterfuzz_env/environment.py:65-108 | parsing the joined form gives the map back exactly if each single option is well formed |
| ToolOptions.PlainOptionsRoundTrip | common/src/buttercup/common/clusterfuzz_env/environment.py:65-117 | plain names with integers or well-quoted non-numeric strings round-trip |
| ToolOptions.QuotedValueRoundTrips | common/src/buttercup/common/clusterfuzz_env/environment.py:111-117 | a quote-free value that does not read as an integer is made safe by quoting |
| ToolOptions.QuotingIff | common/src/buttercup/common/clusterfuzz_env/environment.py:111-117 | a value is quoted, as a whole, exactly if it holds a space or a colon |
| ToolOptions.ItemsAreSorted | common/src/buttercup/common/clusterfuzz_env/environment.py:65-69 | the options are joined each once, in ascending order of their names |
| ToolOptions.ParseThenJoinIsStable | common/src/buttercup/common/clusterfuzz_env/environment.py:65-108 | for every string that parses, joining the result and parsing again changes nothing |
| ToolOptions.MatchesAllIff | common/src/buttercup/common/clusterfuzz_env/environment.py:81-83 | the pattern matches a whole text exactly if all its quotations close and every colon is inside one |
| ToolOptions.MatchIsLongest | common/src/buttercup/common/clusterfuzz_env/environment.py:81-83 | a match is the longest well-quoted text at its place |
| ToolOptions.SplitLosesNothing | common/src/buttercup/common/clusterfuzz_env/environment.py:90 | the pieces of the split, one after the other, are the text |
| ToolOptions.ParseFailsIff | common/src/buttercup/common/clusterfuzz_env/environment.py:90-103 | parsing fails with the first piece that is neither empty nor a colon nor has an equals sign, and only then |
| ToolOptions.LastPieceCounts | common/src/buttercup/common/clusterfuzz_env/environment.py:90-108 | one more piece is skipped, is the error, or gives its option the value, whatever it had before |
| ToolOptions.ParseMemoryToolOptions | common/src/buttercup/common/clusterfuzz_env/environment.py:86-108 | the loop over the pieces fills the map, later options prevailing, or fails with the first piece without an equals sign |
| Text.ParseIntOfIntToString | common/src/buttercup/common/clusterfuzz_env/environment.py:68-78 | reading back what `str` wrote of an integer gives the integer |
| Text.ParseIntIff | common/src/buttercup/common/clusterfuzz_env/environment.py:72-78 | a text reads as an integer exactly if it is a numeral with an optional sign and white space around it |
| Text.NumeralLaws | common/src/buttercup/common/clusterfuzz_env/environment.py:72-78 | what a numeral is: non-empty digits, or numerals joined by one underscore, which does not count; none starts or ends with an underscore |
| Text.StringLeIff | common/src/buttercup/common/clusterfuzz_env/environment.py:69 | the order of names: the shorter prefix first, else the smaller character at the first difference |
| PovWorkflow.EveryRunIsTwoLoops | seed-gen/src/buttercup/seed_gen/vuln_base_task.py:271-305 | every run ends and is the context rounds, exactly as many as allowed (one if fewer are), then PoV rounds up to the first that finds a PoV or the last allowed (again at least one) |
| PovWorkflow.PovRoundsAreUnique | seed-gen/src/buttercup/seed_gen/vuln_base_task.py:162-164 | what the rounds find determines how many are run |
| PovWorkflow.NodesExecuted | seed-gen/src/buttercup/seed_gen/vuln_base_task.py:271-310 | a run executes two nodes for each context round and four for each PoV round |
| PovWorkflow.LimitDominatesIff | seed-gen/src/buttercup/seed_gen/vuln_base_task.py:307-310 | every run stays below recursion_limit exactly if both iteration limits are at least 1 |
| PovWorkflow.LimitIsReached | seed-gen/src/buttercup/seed_gen/vuln_base_task.py:307-310 | a run that finds nothing takes exactly one node less than the limit |
| PovWorkflow.VulnTask.TestPovs | seed-gen/src/buttercup/seed_gen/vuln_base_task.py:166-203 | empties the current directory into the output directory under final names and makes the state update of the graph's node |
| PovWorkflow.VulnTask.RunPovLoop | seed-gen/src/buttercup/seed_gen/vuln_base_task.py:162-203 | no round before the last makes a PoV that crashes a build; the last does, or is the last allowed; every PoV made is kept unchanged, and nothing else is |
| PovWorkflow.TotalCrashesLaws | seed-gen/src/buttercup/seed_gen/vuln_base_task.py:170-192 | the count of a round: the crashes of a single PoV, adding up over listings |
| PovWorkflow.TotalDoesNotDependOnOrder | seed-gen/src/buttercup/seed_gen/vuln_base_task.py:171 | the count does not depend on the order in which the directory is listed |
| PovWorkflow.SomeCrashIff | seed-gen/src/buttercup/seed_gen/vuln_base_task.py:170-192 | the count is not zero exactly if some PoV crashed a build |
| PovWorkflow.FinalNameIsInjective | seed-gen/src/buttercup/seed_gen/vuln_base_task.py:172 | different rounds or names give different final names |
| PovWorkflow.FinalNameIs | seed-gen/src/buttercup/seed_gen/vuln_base_task.py:172 | the final name is "iter", the number of the round, an underscore and the name |
| PovWorkflow.EveryPovIsKept | seed-gen/src/buttercup/seed_gen/vuln_base_task.py:166-174 | after any rounds every PoV ever generated is in the output directory unchanged |
| PovWorkflow.OutputNamesBelongToRounds | seed-gen/src/buttercup/seed_gen/vuln_base_task.py:166-174 | and nothing else is there |

## Left out

- CrashComparer.SimilarityRatioLaws: ratios, averages and thresholds are real numbers; rounding of floating point is not modelled.
- StackParser.CrashInfo.AddFrameOnMatch: a matched line arrives as its filtered text, ignore flag and parsed frame; the regular expressions, demangling and structure stripping that produce them are not modelled.
- StackParser.CrashInfo.UpdateStateOnMatch: the texts of match groups arrive extracted and filtered.
- The classification of crashes by the stack parser, and its string filters for addresses, sanitizers and kernels.
- PovStatus.ReachableStoresAreDisjoint: holds with `request_status` as one step; for the separate commands see `SplitRunIsDisjointIff`.
- PovStatus.CachedRunAgreesWithLive: holds with `request_status` as one step; the machine with separate commands has no caches, and a verdict cached in it is right exactly as long as `SplitVerdictChangesIff` says that it has not changed.
- PovStatus.VerdictIsPermanent: holds with `request_status` as one step; for the separate commands see `SplitVerdictsArePermanentIff`.
- PovStatus.PoVReproduceStatus.GetOnePending: a request stands for its JSON key, so writing and reading the key is taken to be lossless.
- CorpusMerge.CoverageNeverShrinks: the engine's merge is an assumption (it keeps the target's files, adds only files of the source, and keeps their joint coverage), one merger works on each local directory, and files are never removed from the remote corpus.
- CorpusMerge.MergerBot.RunTask: files are their content hashes; hashing, scratch directories and the choice of a build are not modelled, and the lock is a given answer.
- ReliableQueue.RedisStream.XAutoClaim: which entries XAUTOCLAIM looks at is arbitrary, so pop is not claimed to find every idle message.
- BuilderBot.RunKeepsInvariant: a worker's pop is one step, while the queue's theorems also hold of pops whose commands are interrupted.
- Redis networking, blocking reads, trimming and deletion of stream entries, queues without a group name, and protobuf encoding.
- BuilderBot.BuilderBot.Serve: the answers of the registry, the diff, the patch and the build are given from outside; archiving the task directory, working copies and telemetry are not modelled, and an exception outside the caught ones is a crash of the worker.
- CoverageCodec.CoverageMonitor.Collect: the percentage field follows from the line counts and is left out; timing, files, totals and plots are not modelled.
- ToolOptions.ParseMemoryToolOptions: digits and white space are the ASCII ones, and there is no limit on the length of numerals.
- Reading and writing process environment variables, and the default sanitizer options.
- PovWorkflow.VulnTask.TestPovs: the crashes of a PoV are a given count (up to an error, if one occurs); messages, prompts, generated functions and submission of crashes are not part of the state.
- Language-model calls, the graph library's own scheduling, sandboxed execution, docker, rsync and the file system beyond the moves above.
