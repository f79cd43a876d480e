# Verified model of the saarCTF gameserver

A Dafny model of the parts of the gameserver that decide about time, points and flags, and
proofs of what they promise over whole runs.  One module stands for one component; objects
that the program updates in place are classes whose methods are proved against a
specification on values, and the promises are lemmas about that specification.

| module | component |
|---|---|
| `Timer` | the clock of the game: polls, operator commands, tick and game events |
| `TimerCommands` | what becomes of each operator command in the polls after it |
| `SlotScheduler` | start slots of checker tasks, rearranged at random |
| `CheckerTasks` | how the tasks of a tick use up the slots |
| `EnoStatus` | the status of a service, folded from the results of its tasks |
| `TeamAddress` | addresses of teams, and the two searches that invert them |
| `Base64` | the encoder and the decoder of flags |
| `Base64Form` | the form of the text: alphabet, bit order, padding, lines |
| `FlagCache` | the lossy cache in front of the flag table |
| `FlagServer` | the decision sequence of the submission server, alone and interleaved |
| `FlagAnswers` | when the server gives which answer |
| `SubmittedFlags` | the windowed queries on submitted flags and rankings |
| `Scoring` | the scoring of one tick |
| `ScoringHistory` | offensive points over a whole game |
| `DefenceHistory` | defensive points and counters over a whole game |
| `DamageHistory` | what a stolen flag costs when the number of active teams changes |
| `DamageExample` | a game in which that cost drifts from the damage and comes back |
| `ScoringFormulas` | the points of a game as plain formulas |
| `FirstBlood` | levels of first bloods: caches, failures, recomputation |
| `FirstBloodResets` | which resets of its caches are harmless |
| `FirstBloodPayloads` | for which payloads its recomputation is exact |
| `Ranks` | the ranking of a tick |
| `Prelude` | the option type and facts about collections |

Random choices, clock readings, answers of the database (success or error) and the order in
which rows arrive are parameters, and the theorems hold for all of them.  Points are exact
reals.  The two powers of the scoring, x^0.5 and x^0.3, are arbitrary functions; where a sign
or a monotonicity is needed, it is a precondition.

Where the code falls short of what it is for, the model follows the code, shows an input, and
states exactly when the code is right:

- A flag submitted one tick after it expired is scored with the default rank of its victim,
  because the window of rankings is one tick shorter than that of flags
  (`SubmittedFlags.ExpiredFlagLosesRank`, `SubmittedFlags.VictimRankIsRecordedIff`).
- The first check of a flag of round 0 with payload 0 hits the empty cache and is answered as
  a resubmission (`FlagServer.BlindRequest`, `FlagServer.CacheIsTransparentIff`).
- A database error after the cache has seen a flag makes a later submission of it look old
  (`FlagServer.DatabaseErrorLosesFlag`, `FlagServer.RefusedWronglyIff`).
- An address outside the network can be given an id: fixed bytes are not compared at all, and other
  bytes only modulo their radix; the id can even be negative (`TeamAddress.FixedByteMistake`,
  `TeamAddress.SampleMistake`, `TeamAddress.OutOfRangeIsNotNoticed`, `TeamAddress.AnswerIsRightIff`).
- The fallback slots keep the timeout between put and get only for timeouts up to 15 seconds
  (`SlotScheduler.FallbackIsSafeIff`).
- A tick length of -1 seconds can make a tick begin before an earlier one has ended
  (`Timer.ShortenedTicksOverlap`, `Timer.TicksNeverOverlapIff`).
- First-blood queries compare times strictly, so equal times on both sides of a cache reset can
  give a level twice (`FirstBloodResets.LevelGivenTwice`, `FirstBloodResets.RunIsExactIff`).
- Recomputing first bloods ends as soon as all declared payloads are done, and loses the levels
  of others (`FirstBloodPayloads.PayloadIsLost`, `FirstBloodPayloads.RecomputationIsExactIff`).
- When the number of active teams changes, the cost of a stolen flag can drift from its damage,
  and changes back and forth can cancel (`DamageExample.CostDrifts`, `DamageExample.ManyChangesCancel`,
  `DamageHistory.LossStaysDamageIff`, `DamageHistory.AlwaysCostsItsDamageIff`).
- The size of the cache is computed in 32 bits (`FlagCache.CacheTooSmall`,
  `FlagCache.IndexStaysAllocated`).

## Model

| member | source | states |
|---|---|---|
| Timer.EventsInOrder | controlserver/timer.py:233-308 | for every run of polls and commands from the fresh timer: ticks 1, 2, 3, ... start once and end once, each end before the next start; RUNNING exactly while the last tick event is a start; game starts and ends alternate, suspensions do not count |
| Timer.StepKeepsOrder | controlserver/timer.py:233-308 | every single poll or command keeps that order |
| Timer.ScheduledTicksNeverOverlap | controlserver/timer.py:233-282 | with a positive clock that never runs backwards, the planned intervals of all ticks, as recorded for the database, never overlap, for all tick lengths but -1 seconds, and with -1 if all lengths are negative |
| Timer.StepKeepsSchedule | controlserver/timer.py:83-89 | every command keeps the schedule, also changes of the tick time in whatever state, for tick lengths without -1 or all negative |
| Timer.TicksNeverOverlapIff | controlserver/timer.py:242-248 | for a set of tick lengths, ticks never overlap in any run if and only if -1 is not among them or all are negative |
| Timer.ShortenedTicksOverlap | controlserver/timer.py:84-89 | a run in which a tick shortened to -1 seconds makes the next one begin before the first one has ended |
| Timer.PollCountsDown | controlserver/timer.py:233-255 | each poll that ends a tick takes one from the number of ticks left before the last one |
| Timer.StopAfterTickStops | controlserver/timer.py:302-308 | with stop_after_tick = N armed and enough polls, the timer ends STOPPED after exactly N whole ticks, with the field cleared |
| Timer.NeverPastLastTick | controlserver/timer.py:302-308 | however the polls come, tick N + 1 never starts |
| Timer.PunctualPollsDoNotDrift | controlserver/timer.py:242-246 | polled at least every second second, the start of tick n is start + n * tick time, without drift |
| Timer.CTFTimer.CheckTime | controlserver/timer.py:233-264 | the fields and events after a poll are those of the transition function |
| Timer.CTFTimer.StartCTF | controlserver/timer.py:267-282 | the same for the start command |
| Timer.CTFTimer.SuspendCtfAfterTick | controlserver/timer.py:285-291 | the same for the suspend command |
| Timer.CTFTimer.StopCtfAfterTick | controlserver/timer.py:294-300 | the same for the stop command |
| Timer.CTFTimer.SetTickTime | controlserver/timer.py:84-89 | the same for the tick time |
| Timer.CTFTimer.SetStopAfterTick | controlserver/timer.py:96-99 | the same for the last tick |
| Timer.CTFTimer.SetStartAt | controlserver/timer.py:106-109 | the same for the planned start |
| Timer.CTFTimer.SetOpenVulnboxAccessAt | controlserver/timer.py:116-119 | the same for the planned opening |
| Timer.CTFTimer.OnStartTick | controlserver/timer.py:302-308 | reaching the last tick wishes STOPPED and clears the field before the listeners hear of the tick |
| TimerCommands.SuspendSuspends | controlserver/timer.py:239-255 | after the suspend command, polls do nothing until the end of the tick; the first one from then on leads to SUSPENDED with the end of the tick and the suspension as events, and no later poll starts or ends anything |
| TimerCommands.StopStops | controlserver/timer.py:239-255 | after the stop command the same, with STOPPED and the end of the game |
| TimerCommands.RemoteWishIsMet | controlserver/timer.py:169-170 | after a wish of another timer the same, without an announcement |
| TimerCommands.SuspensionKeepsGame | controlserver/timer.py:267-282 | started again after a suspension, the next tick starts and the game is not started a second time |
| TimerCommands.StartStarts | controlserver/timer.py:267-282 | the start command by the state of the timer: the next tick, at the time of the command, and a new game only if it was stopped |
| TimerCommands.NextTickStarts | controlserver/timer.py:239-247 | while the game goes on, the first poll from the end of a tick on starts the next one: at the end, or at the time of the poll if that is more than a second late |
| TimerCommands.TickTimeMovesEnd | controlserver/timer.py:84-89 | after a change of the tick time, the running tick ends at its start plus the new time, and the next one has the new length |
| TimerCommands.PlannedStart | controlserver/timer.py:258-260 | a planned start starts the game at the first poll from then on if that is at most four seconds late, and otherwise never |
| TimerCommands.PlannedOpening | controlserver/timer.py:261-264 | a planned opening of the vulnboxes is made exactly once, under the same condition |
| SlotScheduler.LateGuardsAreExact | checker_runner/runners/eno.py:335-368 | for every target, of all three kinds and also the own partner: the local guards swap the late task exactly if all pairs stay apart, and otherwise leave everything |
| SlotScheduler.EarlyGuardsAreExact | checker_runner/runners/eno.py:335-375 | the same for the early task |
| SlotScheduler.SwapLoopKeepsClearance | checker_runner/runners/eno.py:361-375 | for every sequence of random choices, every pair keeps timeout plus interval between its two tasks, and the offsets are a permutation of the original ones |
| SlotScheduler.LoopExchanges | checker_runner/runners/eno.py:361-375 | for every sequence of choices, the passes follow each other, and in each pass for every pair number k first late entry k and then early entry c - 1 - k is exchanged with its choice, exactly if all pairs stay clear |
| SlotScheduler.SwapExchanges | checker_runner/runners/eno.py:343 | an exchange moves the two offsets and nothing else |
| SlotScheduler.TryPerformSwap | checker_runner/runners/eno.py:339-359 | the swap on the shared list of entries is that of the specification |
| SlotScheduler.SwapLoop | checker_runner/runners/eno.py:361-375 | twenty passes in place compute the specified list and, from a spaced start, make exactly the exchanges of `SlotScheduler.LoopExchanges` |
| SlotScheduler.FitsStartsSpaced | checker_runner/runners/eno.py:309-313 | the three assertions imply that all pairs start far enough apart |
| SlotScheduler.FitsIff | checker_runner/runners/eno.py:309-313 | the three assertions hold if and only if the timeout fits between the first early and the first late slot |
| SlotScheduler.GenTimeslotsFlat | checker_runner/runners/eno.py:265-408 | which exception comes when (no task, no pair, a failed assertion), and otherwise the shuffled and jittered slots |
| SlotScheduler.SpreadHasOwnSlots | checker_runner/runners/eno.py:385-406 | after shuffling and jitter, every task lies in an interval of its own |
| SlotScheduler.PlanIsSafe | checker_runner/runners/eno.py:265-408 | every get starts more than the timeout after its put, all tasks have own intervals, and all delays lie in [0, tick length - buffer - timeout) |
| SlotScheduler.FallbackIsSafeIff | checker_runner/runners/eno.py:411-432 | the fallback keeps the timeout for all random numbers exactly if it is at most 15 seconds |
| SlotScheduler.FallbackRanges | checker_runner/runners/eno.py:411-432 | its delays lie in [0, 15), [30, 40) and [0, 40) |
| SlotScheduler.GenTimeslots | checker_runner/runners/eno.py:434-449 | only a failed assertion leads to the fallback; for timeouts up to 15 seconds every plan is safe, and without a failed assertion every task has an own interval in time |
| CheckerTasks.ScheduleTasks | checker_runner/runners/eno.py:456-529 | the loops with the three iterators give each task its slot, or run out exactly if the specification does |
| CheckerTasks.EnoughIffAssigned | checker_runner/runners/eno.py:458-529 | the iterators suffice if and only if there are as many slots of each kind as tasks |
| CheckerTasks.NoSlotIsShared | checker_runner/runners/eno.py:458-529 | the tasks of a kind get the slots of that kind in order, each its own |
| CheckerTasks.JobsAreBalanced | checker_runner/runners/eno.py:463-529 | in every tick, also the first ones, there is one put and one get per flag and noise variant, at the same place of their iterators, and the counted number of free tasks |
| CheckerTasks.SafeSlotsSuffice | checker_runner/runners/eno.py:456-529 | with a plan of the scheduler, no iterator ever runs out |
| CheckerTasks.GetsComeAfterPuts | checker_runner/runners/eno.py:463-518 | put and get of one variant get the two halves of one pair, so the get starts more than the timeout later |
| CheckerTasks.PlanTick | checker_runner/runners/eno.py:451-529 | for all random choices, fallback included: an error reaches the caller exactly if there is no pair of tasks; otherwise every task has a slot and every get starts more than 15 seconds after its put |
| CheckerTasks.EveryVariantIsChecked | checker_runner/runners/eno.py:463-529 | every variant is stored, and fetched again in each of the past ticks that exist |
| CheckerTasks.JobsAreThese | checker_runner/runners/eno.py:463-529 | exactly which tasks there are in a tick, havocs and past ticks included |
| EnoStatus.SeverityNeverDrops | checker_runner/runners/eno.py:188-205 | more results never make the status less severe |
| EnoStatus.FinalStatus | checker_runner/runners/eno.py:188-205 | the exact condition of every final status but the two for internal errors, which come together here; SUCCESS, RECOVERING and internal errors do not depend on the order of results |
| EnoStatus.InternalStatus | checker_runner/runners/eno.py:188-189 | TIMEOUT if and only if the last internal error has the message TIMEOUT, and CRASHED if and only if it has another one or none |
| EnoStatus.InternalStatusOfOneKind | checker_runner/runners/eno.py:188-189 | so if all internal errors are timeouts, or none is, their order does not matter |
| EnoStatus.OrderDoesNotMatter | checker_runner/runners/eno.py:188-205 | results in any order give the same status up to MUMBLE/OFFLINE and CRASHED/TIMEOUT |
| EnoStatus.FoldKeepsChainMessages | checker_runner/runners/eno.py:169-186 | the message kept for a chain of tasks is the first one, or the last one of an OFFLINE result |
| EnoStatus.OfflineMessageWins | checker_runner/runners/eno.py:169-177 | which report gives the message of its chain |
| EnoStatus.EnoCheckerRunner.HandleResult | checker_runner/runners/eno.py:179-205 | the updates of status and messages are those of the fold |
| TeamAddress.SearchPython | saarctf_commons/config.py:156-165 | the search ends, with the least solution below 0xFFFF, or None if there is none |
| TeamAddress.NetworkIpToId | saarctf_commons/config.py:140-165 | the same for an address, and the error if no component is constrained |
| TeamAddress.OrbitsAreBytes | saarctf_commons/config.py:104-165 | for addresses in range, the interval constraints are those of the address bytes |
| TeamAddress.LookupInvertsEncoding | saarctf_commons/config.py:128-165 | for addresses of the network, whose bytes are all in range and whose fixed bytes are the configured ones, the answer is the least id with this address, and None iff no id has it |
| TeamAddress.LookupFindsConstrained | saarctf_commons/config.py:140-165 | if only the constrained bytes are in range, the answer is the least id with these constrained bytes, and None iff no id has them |
| TeamAddress.OutOfRangeIsNotNoticed | saarctf_commons/config.py:155-162 | an address below the range for which the search answers -22 |
| TeamAddress.AnswerIsRightIff | saarctf_commons/config.py:140-165 | for mixed-radix networks: the answer to any address is right if and only if all its bytes are in range, fixed ones too, or the least number with the digits of the constrained bytes modulo the radices, from the largest digit value on, is beyond the limit |
| TeamAddress.SearchInClosedForm | saarctf_commons/config.py:156-165 | for mixed-radix networks and any address, in range or not: the answer of the Python program, and that of the C++ program below the limit, as one formula on the bytes |
| TeamAddress.AnswerIsRightByDigits | saarctf_commons/config.py:140-165 | for any network: the answer is right if and only if all bytes are in range, fixed ones too, or nothing below the limit has the digits of the constrained bytes modulo the radices |
| TeamAddress.SampleMistake | saarctf_commons/config.py:140-165 | in the sample network, 127.0.210.1 is looked up as team 51210, although no team has this address |
| TeamAddress.FixedByteMistake | saarctf_commons/config.py:151 | in the sample network, 10.0.5.1 is looked up as team 5, although all addresses begin with 127 |
| TeamAddress.SearchCpp | flag-submission-server/src/config.cpp:40-69 | the search ends; what it returns for solutions below, at and above the limit |
| TeamAddress.GetTeamIdFromIpSpec | flag-submission-server/src/config.cpp:32-70 | the same for an address |
| TeamAddress.ProgramsAgree | flag-submission-server/src/config.cpp:32-70 | both programs give the same id whenever there is one below 0xFFFF |
| TeamAddress.RoundTrip | saarctf_commons/config.py:104-165 | the address of an id is looked up as that id exactly if no smaller id has the same prefix |
| TeamAddress.MixedRadixRoundTrip | saarctf_commons/config.py:104-165 | for mixed-radix networks, both lookups invert the encoding for all ids below the product of the radices |
| TeamAddress.SampleNetwork | saarctf_commons/config.py:104-129 | 127.(id/200%256).(id%200).x is such a network, for 51200 teams |
| Base64.RoundTrip | flag-submission-server/src/libraries/base64.c:29-142 | decoding an encoded string of any length gives it back, through padding and line feeds; nothing but the empty string is refused |
| Base64.LineFeedsAreSkipped | flag-submission-server/src/libraries/base64.c:53-74 | the decoder sees the same letters as if there were no line feeds |
| Base64.FullDecodeIffAllLetters | flag-submission-server/src/libraries/base64.c:90-142 | a text decodes to three quarters of its length if and only if all its characters are letters of the alphabet |
| Base64.DecodeThenEncode | flag-submission-server/src/libraries/base64.c:29-142 | encoding a decoded text gives back its letters: texts of 32 letters and 24 bytes are in bijection |
| Base64.EncodingFits | flag-submission-server/src/libraries/base64.c:36-41 | the encoded text with its end mark fits the size that is allowed for it |
| Base64.EncodeInto | flag-submission-server/src/libraries/base64.c:29-77 | the pointer loop writes the encoding and the end mark |
| Base64.DecodeInto | flag-submission-server/src/libraries/base64.c:90-142 | the pointer loop writes the decoded bytes and returns their number, or -1 exactly when the text cannot be decoded |
| Base64.BuildTable | flag-submission-server/src/libraries/base64.c:96-99 | the table gives the value of each letter, 0 for the padding and 0x80 otherwise |
| Base64Form.AlphabetIs | flag-submission-server/src/libraries/base64.c:13-15 | letter v of the alphabet, range by range |
| Base64Form.KnownCharacters | flag-submission-server/src/libraries/base64.c:96-99 | which characters stand for something |
| Base64Form.LettersAreNumbers | flag-submission-server/src/libraries/base64.c:46-71 | each group of four letters is the number of its three bytes, and padding stands exactly for missing bytes |
| Base64Form.EncodingIsInLines | flag-submission-server/src/libraries/base64.c:52-74 | a line feed stands after every 72 letters and at the end, and nowhere else |
| Base64Form.DecodableIff | flag-submission-server/src/libraries/base64.c:101-141 | which texts can be decoded and to how many bytes: the first group with padding is the last one, and more than two of it are an error |
| Base64Form.DecodedNumbers | flag-submission-server/src/libraries/base64.c:121-126 | the decoded bytes are those of the number of their group |
| FlagCache.IndexInside | flag-submission-server/src/flagcache.cpp:45-55 | within bounds, the index is below the number of cells |
| FlagCache.CellAndKeyIdentify | flag-submission-server/src/flagcache.cpp:49-58 | same cell and same key mean the same five numbers |
| FlagCache.IndexStaysAllocated | flag-submission-server/src/flagcache.cpp:21-29 | all indices are allocated if and only if the number of cells fits 32 bits |
| FlagCache.CacheTooSmall | flag-submission-server/src/flagcache.cpp:24 | with 600 teams and 100 services, an index far beyond the allocated cells |
| FlagCache.CheckIsExact | flag-submission-server/src/flagcache.cpp:39-63 | after any calls, a flag is reported as not new exactly if it was the last one in its cell, or its key is 0 and the cell untouched |
| FlagCache.NoFalseAlarm | flag-submission-server/src/flagcache.cpp:39-63 | "not new" is said only of flags checked before, unless round and payload are 0 |
| FlagCache.FirstCheckWins | flag-submission-server/src/flagcache.cpp:60 | as long as no other flag uses the cell, exactly the first check of a flag reports it as new, in whatever order the atomic exchanges happen |
| FlagCache.FlagCache.Resize | flag-submission-server/src/flagcache.cpp:21-29 | new empty cells, as many as the 32-bit product says |
| FlagCache.FlagCache.CheckFlag | flag-submission-server/src/flagcache.cpp:39-63 | answer, cell and counters after one check |
| FlagServer.SubmittedIff | flag-submission-server/src/flagchecker.cpp:68-172 | the exact condition under which a text reaches cache and table |
| FlagServer.SubmittedTuple | flag-submission-server/src/flagchecker.cpp:85-183 | what is then stored are the first four little-endian numbers of the 24 bytes, for the team that submits it |
| FlagAnswers.TextAnswers | flag-submission-server/src/flagchecker.cpp:69-89 | when a text is refused as empty, too long or short, of the wrong format or not decodable |
| FlagAnswers.FlagAnswersIff | flag-submission-server/src/flagchecker.cpp:91-145 | when exactly a readable flag is refused because of the state, the source, the service, the team, the NOP team, a test round, or as the own flag |
| FlagAnswers.LastAnswersIff | flag-submission-server/src/flagchecker.cpp:146-172 | when exactly it is refused as coming from the NOP team, as expired or not authentic, when a test flag is answered, and which row is passed on otherwise |
| FlagAnswers.TeamIsKeptIff | flag-submission-server/src/flagchecker.cpp:91-108 | when the team of the sender is looked up and kept for the connection |
| FlagServer.BinaryIffLetters | flag-submission-server/src/flagchecker.cpp:72-89 | a text has a binary flag exactly if it has the prefix, braces and 32 letters from the sixth character on, for prefixes of any length that leaves room |
| FlagServer.ParseInvertsBytes | flag-submission-server/src/flagchecker.h:23-29 | the packed structure has 24 bytes, and reading them gives back the fields |
| FlagServer.BytesInvertParse | flag-submission-server/src/flagchecker.h:23-29 | and every 24 bytes are those of the flag read from them |
| FlagServer.CacheIsTransparentIff | flag-submission-server/src/flagchecker.cpp:174-195 | in a run without database errors, the answers are those of the server without the cache if and only if no request meets its own zero key in an empty cell; then also the table is the same |
| FlagServer.CacheIsTransparent | flag-submission-server/src/flagchecker.cpp:174-195 | so the cache changes nothing for flags other than those of round 0 and payload 0 |
| FlagServer.BlindRequest | flag-submission-server/src/flagchecker.cpp:174-181 | a first submission that the cache refuses |
| FlagServer.OkMeansOneRow | flag-submission-server/src/flagchecker.cpp:174-195 | under every interleaving of cache checks and inserts, with any database errors: as many [OK] as new rows, at most one per flag and team |
| FlagServer.NoFlagIsLost | flag-submission-server/src/flagchecker.cpp:174-195 | if all answers are [OK] or "already submitted", every flag is in the table |
| FlagServer.StoredByStepsIff | flag-submission-server/src/flagchecker.cpp:174-195 | in every interleaving, with any database errors: a flag is in the table at the end if and only if it was there before, or some insertion of it after the cache did not fail |
| FlagServer.StepsStayFaithful | flag-submission-server/src/flagchecker.cpp:174-195 | at every moment, a flag in the cache is in the table or on its way to it |
| FlagServer.DatabaseErrorLosesFlag | flag-submission-server/src/flagchecker.cpp:183-191 | after a database error, the next submission is refused although the flag is not stored |
| FlagServer.RefusedWronglyIff | flag-submission-server/src/flagchecker.cpp:174-191 | in every sequential run, with any database errors: a request is refused although its flag is not stored if and only if it is blind, or its cell was last used for this flag and all insertions of the flag that got past the cache have failed |
| FlagServer.StoredIff | flag-submission-server/src/flagchecker.cpp:174-195 | and a flag is in the table at the end if and only if it was there before, or some request for it got past the cache without a database error |
| FlagAnswers.StoredTick | flag-submission-server/src/database.cpp:91-96 | a row has the tick of the first request that has inserted it, and rows that were there keep theirs |
| FlagServer.RowsAreRecent | flag-submission-server/src/flagchecker.cpp:150-157 | one insertion keeps rows at most one tick older than the expiry allows, even if the round advances in between |
| FlagServer.ReachableTable | flag-submission-server/src/flagchecker.cpp:150-195 | after any texts, the table has unique rows of that age, as the scoring expects |
| FlagServer.TrimLength | flag-submission-server/src/flagchecker.cpp:69-73 | the loop drops trailing characters up to the space |
| FlagServer.Checker.SubmitFlag | flag-submission-server/src/database.cpp:73-108 | insert under the unique key: 1, 0 if it is there, -1 on errors |
| FlagServer.Checker.Store | flag-submission-server/src/flagchecker.cpp:174-195 | cache, table and answer after the last steps |
| FlagServer.Checker.ProgressFlag | flag-submission-server/src/flagchecker.cpp:68-196 | answer, table and cache after a request; refused texts change neither; the team is kept for the connection exactly for readable flags while the game runs, or for test flags |
| SubmittedFlags.JoinCounts | controlserver/scoring/scoring.py:228-242 | the distinct counts over the triple join are the counts of partners |
| SubmittedFlags.WindowLosesNothing | controlserver/scoring/scoring.py:228-253 | although the join looks back a few ticks, both counts are those over the whole history, and the list has all earlier submitters |
| SubmittedFlags.PreviousListIsComplete | controlserver/scoring/algorithms/algorithm.py:199 | the assertion of the scorer never fails, and the list names exactly the earlier submitters |
| SubmittedFlags.WindowHasAnEnd | controlserver/scoring/scoring.py:233-234 | a submission outside the window is forgotten, so the expiry rule of the server is needed |
| SubmittedFlags.VictimRankIsRecordedIff | controlserver/scoring/scoring.py:203-212 | the scoring sees the recorded rank exactly up to the last valid tick of a flag, or if the default is the same |
| SubmittedFlags.ExpiredFlagLosesRank | controlserver/scoring/scoring.py:209-211 | a flag valid until tick 16 and stored in tick 17, scored with the default rank |
| Scoring.FlagSet.IsNew | controlserver/scoring/algorithms/algorithm.py:21-30 | true once per flag, whoever submits it |
| Scoring.ScoreTickAlgorithm.FlagStolen | controlserver/scoring/algorithms/algorithm.py:135-157 | points and seen flags after one flag, also when a team or service is unknown |
| Scoring.ScoreTickAlgorithm.FlagStolenAttacker | controlserver/scoring/algorithms/algorithm.py:171-176 | what the submitter gets |
| Scoring.ScoreTickAlgorithm.FlagStolenVictim | controlserver/scoring/algorithms/algorithm.py:178-191 | what the victim loses |
| Scoring.ScoreTickAlgorithm.FlagStolenPreviousAttackers | controlserver/scoring/algorithms/algorithm.py:193-206 | what the earlier submitters lose, in the order of the list up to an unknown one |
| Scoring.ScoreTickAlgorithm.CalculateSla | controlserver/scoring/algorithms/algorithm.py:208-222 | SLA points by status and number of active teams, and their table by service and tick |
| Scoring.ScoreTickAlgorithm.CalculateScoringForTick | controlserver/scoring/algorithms/algorithm.py:118-169 | the loops compute the specified points of a tick |
| ScoringHistory.FlagEffect | controlserver/scoring/algorithms/algorithm.py:135-157 | the effect of one flag on any one team: reward, one correction if it submitted the flag earlier, loss once per flag and tick |
| ScoringHistory.CorrectReaches | controlserver/scoring/algorithms/algorithm.py:203-206 | the loop over the earlier submitters reaches each of them exactly once |
| ScoringHistory.CorrectionIsChange | controlserver/scoring/algorithms/algorithm.py:199-206 | a correction is the change of the value of a submission, whatever the rank of the victim was |
| ScoringHistory.OffAmidTick | controlserver/scoring/algorithms/algorithm.py:118-206 | after every flag of every tick, the points are those from scratch |
| ScoringHistory.OffIsFromScratch | controlserver/scoring/algorithms/algorithm.py:118-206 | after ticks 1..t, offensive points are the sum over all submissions of the team of their value by the number of submissions up to t |
| ScoringHistory.OffIsByRecords | controlserver/scoring/algorithms/algorithm.py:140-176 | if no submission of the team came after its flag expired, or there is no record or the default rank is the same, the sum is by the recorded ranks of the victims |
| ScoringHistory.GameIsOk | controlserver/scoring/scoring.py:266-285 | for every table with its keys, recent rows and known teams, and all checker results, there is such a game |
| ScoringHistory.OffIsOrderIndependent | controlserver/scoring/algorithms/algorithm.py:135-157 | and do not depend on the order of flags inside a tick |
| DefenceHistory.SlaIsFound | controlserver/scoring/algorithms/algorithm.py:178-186 | the SLA points looked up for a flag are those of the tick in which it was issued |
| DefenceHistory.DefIsFromScratch | controlserver/scoring/algorithms/algorithm.py:178-188 | after ticks 1..t, defensive points are minus what the distinct stolen flags have cost, each once per tick |
| DefenceHistory.LossTelescopes | controlserver/scoring/algorithms/saarctf.py:44-52 | the losses of a flag telescope to the difference of its damage, if the number of active teams is the same in all ticks with submissions |
| DefenceHistory.LossIsDamage | controlserver/scoring/algorithms/saarctf.py:44-52 | so its total cost is the damage by the number of submissions |
| DamageHistory.LossStaysDamageIff | controlserver/scoring/algorithms/saarctf.py:44-52 | over the whole history, if teams only drop out or only join: a flag has cost its damage by the submissions and active teams up to now if and only if as many teams were active in every tick since its first submission |
| DamageHistory.GapHasSign | controlserver/scoring/algorithms/saarctf.py:44-52 | and otherwise it has cost less, respectively more |
| DamageExample.CostDrifts | controlserver/scoring/algorithms/saarctf.py:44-52 | a game in which, after tick 2 with fewer active teams, a flag has cost less than its damage |
| DamageExample.ManyChangesCancel | controlserver/scoring/algorithms/saarctf.py:44-52 | in the same game, after tick 4 with 2, 1, 4 and 2 active teams, the cost is the damage for every increasing power |
| DamageHistory.AlwaysCostsItsDamageIff | controlserver/scoring/algorithms/saarctf.py:44-52 | in any history, the cost is the damage for all increasing powers if and only if the shares charged and the shares that they become in the next tick are the same numbers |
| DefenceHistory.DefNeverRises | controlserver/scoring/algorithms/algorithm.py:178-188 | defensive points never rise, for factors and SLA that are not negative and monotonic damage |
| DefenceHistory.CountersAreExact | controlserver/scoring/algorithms/algorithm.py:171-191 | captured flags are the submissions of the team, stolen ones the distinct flags stolen from it |
| DefenceHistory.NothingIsCountedTwice | controlserver/scoring/algorithms/algorithm.py:171-191 | summed over teams and services: all submissions, and all distinct stolen flags |
| ScoringFormulas.SlaIsSum | controlserver/scoring/algorithms/algorithm.py:165 | SLA points are the sum over the ticks of the factor times the root of the number of active teams, half of it for RECOVERING and nothing for other failures |
| ScoringFormulas.OffIsSum | controlserver/scoring/algorithms/saarctf.py:28-37 | offensive points are the sum over the submissions of 1 + root(1 / submissions) + root(1 / rank of the victim), doubled in the happy hour, by flags per tick and factor |
| ScoringFormulas.DefIsSum | controlserver/scoring/algorithms/saarctf.py:44-52 | defensive points by the damage (submissions / active teams)^0.3 times the SLA of the victim, spelled out |
| ScoringFormulas.UnknownSubmitter | controlserver/scoring/algorithms/algorithm.py:135-157 | a flag of an unknown service or submitter changes nothing |
| ScoringFormulas.UnknownVictim | controlserver/scoring/algorithms/algorithm.py:135-157 | a flag with an unknown victim rewards its submitter and is remembered |
| ScoringFormulas.CorrectStops | controlserver/scoring/algorithms/algorithm.py:203-206 | corrections stop at the first unknown submitter |
| FirstBlood.BestIsMaximum | controlserver/scoring/algorithms/firstblood.py:158-164 | the largest number of victims is that of some team, and no team has more |
| FirstBlood.SameKeyIff | controlserver/scoring/algorithms/firstblood.py:137-139 | flags compete for levels if they are of one service, and of one payload if it has payloads |
| FirstBlood.LevelIff | controlserver/scoring/algorithms/firstblood.py:141-164 | a flag gets a level if and only if its victim is new to the submitter, nobody has more victims and the limit is not reached |
| FirstBlood.LevelsHaveNoGaps | controlserver/scoring/algorithms/firstblood.py:128-165 | each service or payload gets the levels 1, 2, 3, ... in order, each once |
| FirstBlood.JudgeIsExact | controlserver/scoring/algorithms/firstblood.py:133-164 | with stale or empty caches and the queries, a flag gets the level that it has by the whole history |
| FirstBlood.JudgeKeepsFit | controlserver/scoring/algorithms/firstblood.py:141-164 | and the caches stay usable |
| FirstBlood.JudgeAllIsExact | controlserver/scoring/algorithms/firstblood.py:128-165 | so for whole batches |
| FirstBlood.SaveRecords | controlserver/scoring/scoring.py:184 | saving a batch keeps the saved levels those of the history |
| FirstBloodResets.RunIsExactIff | controlserver/scoring/algorithms/firstblood.py:123-181 | for given times and any run of ticks, failed commits and restarts: all histories get the levels of the whole history if and only if there are no levels or no reset with flags to score after it has the same time on both sides |
| FirstBloodResets.HarmfulReset | controlserver/scoring/algorithms/firstblood.py:167-178 | for every other run, a history that gets a level twice |
| FirstBloodResets.LevelGivenTwice | controlserver/scoring/algorithms/firstblood.py:177-178 | two flags of one time in two ticks, with a restart between them |
| FirstBlood.ServicesAreIndependent | controlserver/scoring/algorithms/firstblood.py:137-139 | the first bloods of a service are those of its own flags |
| FirstBlood.TickIsSlice | controlserver/scoring/algorithms/firstblood.py:190-193 | in time order, the flags of a tick stand together |
| FirstBlood.NothingLeft | controlserver/scoring/algorithms/firstblood.py:197-200 | when all payloads are declared and have reached the limit, no later flag has a level |
| FirstBlood.RecomputationIsExact | controlserver/scoring/algorithms/firstblood.py:183-201 | unless a service is cut short, its recomputation finds what its whole history gives |
| FirstBloodPayloads.RecomputationIsExactIff | controlserver/scoring/algorithms/firstblood.py:183-201 | for a set of payloads, recomputing a service is exact for all histories if and only if there are no levels or no payloads, or all are declared, or some declared one is missing |
| FirstBloodPayloads.PayloadIsLost | controlserver/scoring/algorithms/firstblood.py:197-200 | for every payload that is not declared, a history in which its level is lost |
| FirstBlood.MultiFirstBlood.JudgeFlag | controlserver/scoring/algorithms/firstblood.py:133-164 | caches and level after one flag |
| FirstBlood.MultiFirstBlood.GetFirstbloods | controlserver/scoring/algorithms/firstblood.py:128-165 | caches and result after a batch, or up to a flag of an unknown service |
| FirstBlood.MultiFirstBlood.ComputeFirstbloodIncremental | controlserver/scoring/scoring.py:281-298 | one tick of a run; an error leaves the table and empties the caches |
| FirstBlood.MultiFirstBlood.GetFirstbloodsForRecomputation | controlserver/scoring/algorithms/firstblood.py:183-201 | caches and result after the loop over the ticks with its early end |
| FirstBlood.MultiFirstBlood.RecomputeFirstBloodFlags | controlserver/scoring/scoring.py:187-201 | unless a service is cut short, recomputing all services saves the levels of the whole history, hence those of scoring tick by tick |
| Ranks.OrderByPoints | controlserver/scoring/scoring.py:354-371 | the list is the stable sort by descending points, and every rank is 1 plus the number of teams with more points than both this team and 0 |
| Ranks.AssignRanks | controlserver/scoring/scoring.py:361-370 | the running counter gives these ranks |
| Ranks.Sorted | controlserver/scoring/scoring.py:360 | descending, and a permutation |
| Ranks.SortIsStable | controlserver/scoring/scoring.py:360 | teams with equal points keep their order |
| Ranks.RankOrders | controlserver/scoring/scoring.py:361-370 | one rank is smaller exactly if the team has more points, and positive ones; so ties and all teams without positive points share a rank |
| Ranks.RankIsCount | controlserver/scoring/scoring.py:361-370 | a rank is 1 plus the number of teams with more points, and positive ones: equal ranks leave out as many |
| Ranks.RanksInRange | controlserver/scoring/scoring.py:361-370 | ranks go from 1 to at most the number of teams, and the best team has 1 |

## Left out

- Sockets, libev, Redis, PostgreSQL, Celery, Flask pages, scoreboard writers, VPN scripts: input and output without an algorithm of their own.
- SQL: tables are sets or sequences with their keys, queries are comprehensions over them; the queries of one tick see one state of the table.
- HMAC of flags: an arbitrary predicate on the 24 bytes.
- Floating-point rounding: points and slot offsets are exact reals.
- Redis echo between master and slave timers: every timer call is one atomic step; of the messages only the desired state is a command (controlserver/timer.py:169-170), the others would only overwrite single fields.
- Statistics counters and log lines of the submission server and of the scoring; answers to test flags beyond that they are not stored.
- Overflow of 32-bit `int` in flag-submission-server/src/config.cpp:40-64 for networks far larger than 0xffff teams, and the mapping of VPN addresses beside the team range.
- DefaultFirstBloodAlgorithm, the dispatcher threads, and the scoreboard: nothing in them needs more than what is here.
- Sorting itself: `list.sort` is a library function; `Ranks.Sorted` is the stable sort that it computes.
- Joining the messages of the chains of tasks into one text (checker_runner/runners/eno.py:533-540), and sender 1 for addresses of no team (flag-submission-server/src/flagchecker.cpp:54).
- Addition of the three kinds of points per team before the ranking (controlserver/scoring/scoring.py:347-349): a plain sum.
- FlagServer.SubmittedIff: for prefixes of fewer than 38 characters; a longer one makes the program compare beyond the text.
- ScoringHistory.OffIsFromScratch: for games in which teams and services are fixed and every submitted flag names known ones; what one tick does with unknown ones, including the effects before the error, is part of `Scoring.ProcessFlag`.
- DefenceHistory.DefIsFromScratch: under the same condition.
- FirstBloodResets.RunIsExactIff: new rows of the table come with times not before those of the rows already scored, as the server sets the time on insertion; the services are at least two.
- FirstBlood.MultiFirstBlood.RecomputeFirstBloodFlags: for ticks of submission in time order.
