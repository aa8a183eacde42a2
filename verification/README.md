# Models of the concurrent components and of Google Mock

The repository holds small concurrent components for Windows servers and vendors
Google Test and Google Mock. This project models the following parts of it and
proves what they promise.

- `SafeArray`, `HttpClient`: the power-of-two ring buffer, and its use as a
  queue between one producer and one consumer that share it without a lock.
- `PoolTable`, `PoolProtocol`, `PoolGuarantees`, `PoolCalls`, `PoolUnregister`,
  `ThreadPool`: the thread pool whose task records circulate between a
  completion queue and the workers while tasks are registered and unregistered.
- `ExpectCall`, `MockEngine`: the clauses of `EXPECT_CALL`, and how calls are
  handled by expectations with prerequisites, saturation and retirement.
- `Matchers`, `MatchMatrix`, `CaseInsensitive`: the matcher combinators, the
  matrix of elements and matchers, and string comparison up to case.
- `EchoConnection`: the asio connection that echoes what it reads.
- `ParallelFor`: the threads of `P1_main` that share a counter.
- `Timers`, `TimerRuns`: due times, execution rates, the pass of the timer
  manager, and its runs.
- `Lossless`: the conversions Google Mock takes to be lossless.
- `Bits`, `Sequences`, `Options`: powers of two and bitwise and, facts about
  sequences, and optional values, which the others rest on.

What the code changes in place is a class here, and its methods are proved
against functions of the old state. Where threads interleave, the same code is
also a state machine: a state holds the shared data and where each thread is, a
step is one access to shared data, and the theorems are about every sequence of
steps, under sequential consistency. The `Alone` lemmas say what the steps of one
call add up to without interruption. The methods of the ring's two threads
promise the same of the queue, and those of the pool the same of the protocol
state that their object shows, which is always one that some execution reaches.

Some results differ from what one might expect of the code.

- The ring's size for requests above 2^31 is 8, if `1 << 32` is taken in 32 bits.
- A second `unRegisterThread` goes through NULL once a record is freed:
  `UnregisterReturns` says exactly when, `SecondUnregisterMeetsNull` gives an
  execution. In the model such a call never returns, and holds the mutex for good.
- The pass over the timers moves its iterator twice after an erase:
  `RemovalsSkip` says exactly which passes still do their work.
- The due test always fires when the sum of last execution and interval wraps.
- An expectation that retires on saturation can retire unsatisfied: exactly if
  the first call that saturates its cardinality does not satisfy it.
- Calls along a sequence can go back to an earlier position, exactly after an
  excessive call at a position where no call is expected: that retires nothing.
- The parallel loop processes nothing when `hardware_concurrency()` answers 0.
- The grammar in gmock.h:49-57 has no After; gmock-spec-builders.h:44-57 and the
  code allow it behind InSequence, and so does the model.

## Model

| member | source | states |
|---|---|---|
| `SafeArray.SafeArray.BitLength` | P1/SafeArray.h:14-19 | the shift loop ends with the number of bits of the request |
| `SafeArray.SafeArray.RoundUp` | P1/SafeArray.h:11-22 | the size is the least power of two that is at least 8 and the request, hence under twice that; for requests above 2^31, where the shift leaves 32 bits, it is 8 |
| `SafeArray.SafeArray.constructor` | P1/SafeArray.h:9-28 | a new ring is empty, of that size, with the mask one below the size |
| `SafeArray.NextWraps` | P1/SafeArray.h:40 | the masked increment of an index is the increment modulo the ring's size |
| `SafeArray.PushAppends` | P1/SafeArray.h:55-63 | storing and advancing the push index appends to the queue, and wraps onto the pop index exactly when one slot is left |
| `SafeArray.PopRemoves` | P1/SafeArray.h:34-50 | the indices are equal exactly when the queue is empty; advancing the pop index drops the oldest item |
| `SafeArray.SafeArray.HasItem` | P1/SafeArray.h:34-37 | true exactly when the queue is not empty |
| `SafeArray.SafeArray.RemoveTopItem` | P1/SafeArray.h:38-41 | drops the oldest item; called on an empty ring it makes the ring appear full |
| `SafeArray.SafeArray.GetItem` | P1/SafeArray.h:42-50 | takes the oldest item off the queue; on an empty one it answers zero and changes nothing |
| `SafeArray.SafeArray.GetItemNoRemove` | P1/SafeArray.h:51-54 | answers the oldest item of a non-empty queue |
| `SafeArray.SafeArray.HasSpace` | P1/SafeArray.h:55-58 | true exactly while the queue is shorter than the size less one |
| `SafeArray.SafeArray.AddItem` | P1/SafeArray.h:59-63 | appends when there is space; on a full ring all items are lost |
| `SafeArray.SafeArray.Count` | P1/SafeArray.h:64-68 | the signed difference, corrected by the size, is the length of the queue |
| `HttpClient.HttpClientBoost.constructor` | P1/HttpClientBoost.cpp:5-7 | a request queue for 1000 gets a ring of 1024 slots |
| `HttpClient.HttpClientBoost.ReqData` | P1/HttpClientBoost.cpp:93-101 | a request is appended, or refused and nothing changes, exactly as there is space |
| `HttpClient.HttpClientBoost.ExecuteTurn` | P1/HttpClientBoost.cpp:18-23 | a turn of the loop takes the oldest request, or NULL from an empty queue |
| `HttpClient.PendingSlotIsSafe` | P1/SafeArray.h:47-57 | while a read is pending, a producer that passed its space check is at another slot |
| `HttpClient.StepKeepsInv` | P1/SafeArray.h:34-63 | each access by either thread keeps the accounting of all items |
| `HttpClient.NothingLostOrReordered` | P1/HttpClientBoost.cpp:18-23 | in every interleaving with `ReqData`, what was accepted is what was returned, then the item being read, then the queue |
| `HttpClient.AdmittedAreAccepted` | P1/HttpClientBoost.cpp:93-101 | every request that passes its space check, and nothing else, is accepted in its turn, and every read of the consumer returns one |
| `HttpClient.ReturnedArePrefix` | P1/HttpClientBoost.cpp:18-23 | what the consumer gets is a prefix of those requests, one for each of its reads |
| `HttpClient.StoreMissesPendingRead` | P1/SafeArray.h:42-63 | although the pop index moves before the slot is read, no store changes that slot |
| `HttpClient.FailedChecksAreExact` | P1/SafeArray.h:44-58 | the empty branch of `GetItem` is never taken by the loop; a request is refused only when the other side has left one slot |
| `HttpClient.ReqDataAlone` | P1/HttpClientBoost.cpp:93-101 | uninterrupted, the producer's steps have the effect `ReqData` promises |
| `HttpClient.ExecuteTurnAlone` | P1/HttpClientBoost.cpp:18-23 | uninterrupted, the consumer's steps have the effect `ExecuteTurn` promises |
| `PoolProtocol.StepsAreSafe` | IOCP_Test/ThreadPool.cpp:50-92 | under the invariant a step goes through no freed record, and through NULL only when `unRegisterThread` is at the slot of a freed record |
| `PoolGuarantees.StepKeepsInv` | IOCP_Test/ThreadPool.cpp:13-95 | each step of registering, unregistering and calling back keeps the invariant of the pool |
| `PoolGuarantees.InvHolds` | IOCP_Test/ThreadPool.cpp:13-95 | it holds in every state of every execution |
| `PoolProtocol.RequestsGranted` | IOCP_Test/ThreadPool.cpp:15-22 | a request for all workers gets as many records as there are workers, one for at most that many gets those, any other is refused |
| `PoolGuarantees.NoUseAfterFree` | IOCP_Test/ThreadPool.cpp:42-95 | no record is used after it is freed, and none is freed twice; `unRegisterThread` goes through NULL exactly at the slot of a freed record, never in the first call for a task |
| `PoolGuarantees.TaskIsAlwaysFound` | IOCP_Test/ThreadPool.cpp:66-70 | the return for a task not found is unreachable |
| `PoolGuarantees.OneToken` | IOCP_Test/ThreadPool.cpp:25-34 | an allocated record is queued once or with one worker, never both; a freed one is nowhere |
| `PoolGuarantees.SlotsPointToAllocated` | IOCP_Test/ThreadPool.cpp:72-88 | slot by slot, a mapped task points to exactly its allocated records, and it is mapped exactly while it has one |
| `PoolGuarantees.OverlapIsBounded` | IOCP_Test/ThreadPool.cpp:19-34 | at most `concurrency` calls of the function of a task run at a time |
| `PoolGuarantees.TraceStep` | IOCP_Test/ThreadPool.cpp:58-95 | each step of a record of an unregistered task takes one off its weight, and no other step changes it |
| `PoolGuarantees.UnregisteredTaskDrains` | IOCP_Test/ThreadPool.cpp:42-95 | once unregistered, each record starts at most once more, the task at most `concurrency` times, with at most four steps a record |
| `PoolGuarantees.NoWeightLeft` | IOCP_Test/ThreadPool.cpp:62-92 | the weight of a record is used up exactly when it is freed |
| `PoolUnregister.SecondUnregisterMeetsNull` | IOCP_Test/ThreadPool.cpp:50-53 | an execution in which a second call is about to go through NULL |
| `PoolUnregister.UnregisterReturns` | IOCP_Test/ThreadPool.cpp:42-56 | a call for a mapped task can return exactly if no record of the task is freed when it starts |
| `PoolUnregister.StaysBlocked` | IOCP_Test/ThreadPool.cpp:44-53 | a call that has an empty slot in front of it keeps the mutex and the map as they are, whatever the other threads do |
| `PoolUnregister.UnregisteredTaskCanBeFreed` | IOCP_Test/ThreadPool.cpp:58-95 | from every state reached after a successful call, the task can be freed and its entry erased, exactly unless the entry is there and another call is blocked at a NULL |
| `ThreadPool.ThreadPool.RegisterThread` | IOCP_Test/ThreadPool.cpp:13-40 | allocates, queues and maps a record for each worker when asked for all, or as many as requested if there are enough workers, for a new id; any other request changes nothing, and the other tasks and what the workers hold stay |
| `ThreadPool.ThreadPool.PostRecords` | IOCP_Test/ThreadPool.cpp:25-34 | allocates and posts one new record for each unit of concurrency |
| `ThreadPool.ThreadPool.Receive` | IOCP_Test/IO_Service.cpp:24-44 | hands the first queued record to a worker, and takes the state the pool shows to that |
| `ThreadPool.ThreadPool.UnRegisterThread` | IOCP_Test/ThreadPool.cpp:42-56 | takes the state the pool shows to that with no record of the task active; false exactly when there is no task, and no answer exactly when a slot is NULL |
| `ThreadPool.ThreadPool.FinishRecord` | IOCP_Test/ThreadPool.cpp:64-89 | empties the record's slot and removes the entry exactly when no record is left |
| `ThreadPool.ThreadPool.CallBackFunction` | IOCP_Test/ThreadPool.cpp:58-95 | for the record that a worker holds, takes the state the pool shows to that with the record queued again, if its own state is not zero, or freed; what the other workers hold stays |
| `ThreadPool.ThreadPool.constructor` | IOCP_Test/ThreadPool.cpp:4-7 | a new pool shows the initial state; from there on every call keeps the state the pool shows a state of some execution, so that every guarantee holds of it |
| `ThreadPool.FinishShow` | IOCP_Test/ThreadPool.cpp:71-88 | deleting a record does to the map of the pool what it does to that of the protocol |
| `ThreadPool.EntryGoesWithLastRecord` | IOCP_Test/ThreadPool.cpp:71-88 | finishing the records in any order keeps the entry until the last one |
| `PoolCalls.RegisterAlone` | IOCP_Test/ThreadPool.cpp:13-40 | uninterrupted, the steps of a registration leave a new task, with all its records queued, active and mapped |
| `PoolCalls.UnregisterAlone` | IOCP_Test/ThreadPool.cpp:42-56 | uninterrupted, the steps of an unregistration leave every record of the task inactive and change nothing else |
| `PoolCalls.CallBackAlone` | IOCP_Test/ThreadPool.cpp:58-95 | uninterrupted, the steps after the function has returned repost the record or free it and update the map |
| `PoolCalls.CalledBackIsReached` | IOCP_Test/ThreadPool.cpp:58-95 | from a state of some execution, a callback leads to a state of some execution, freeing a record only of a mapped task |
| `ExpectCall.TypedExpectation.constructor` | GTest/gtest/googlemock/include/gmock/gmock-spec-builders.h:727-737 | a new expectation has no clause, the given cardinality and no action |
| `ExpectCall.TypedExpectation.With` | GTest/gtest/googlemock/include/gmock/gmock-spec-builders.h:913-928 | records the matcher; a failure unless it is the first clause |
| `ExpectCall.TypedExpectation.Times` | GTest/gtest/googlemock/include/gmock/gmock-spec-builders.h:930-934 | records the cardinality, as specified by the user |
| `ExpectCall.TypedExpectation.InSequence` | GTest/gtest/googlemock/include/gmock/gmock-spec-builders.h:941-951 | adds the last expectation of the sequence to the prerequisites |
| `ExpectCall.TypedExpectation.After` | GTest/gtest/googlemock/include/gmock/gmock-spec-builders.h:969-981 | adds all named expectations to the prerequisites |
| `ExpectCall.TypedExpectation.WillOnce` | GTest/gtest/googlemock/include/gmock/gmock-spec-builders.h:999-1011 | appends the action and, unless there was a Times, expects exactly as many calls |
| `ExpectCall.TypedExpectation.WillRepeatedly` | GTest/gtest/googlemock/include/gmock/gmock-spec-builders.h:1013-1036 | records the repeated action and, unless there was a Times, expects at least as many calls as there are actions |
| `ExpectCall.TypedExpectation.RetiresOnSaturation` | GTest/gtest/googlemock/include/gmock/gmock-spec-builders.h:1038-1050 | marks the expectation |
| `ExpectCall.FailuresAreDisorder` | GTest/gtest/googlemock/include/gmock/gmock-spec-builders.h:913-1050 | failures are reported exactly when some clause does not accept the one before it |
| `ExpectCall.GrammarIsOrder` | GTest/gtest/googlemock/include/gmock/gmock-spec-builders.h:727-737 | the sequences of clauses that accept one another are those the grammar derives |
| `ExpectCall.ChecksDecideGrammar` | GTest/gtest/googlemock/include/gmock/gmock-spec-builders.h:913-1050 | no failure is reported exactly on `With? Times? InSequence* After* WillOnce* WillRepeatedly? RetiresOnSaturation?` |
| `ExpectCall.ChecksDecideOrder` | GTest/gtest/googlemock/include/gmock/gmock-spec-builders.h:913-1050 | no failure is reported exactly if each clause stands behind one that the documentation lets it follow |
| `ExpectCall.PrerequisitesAreNamed` | GTest/gtest/googlemock/include/gmock/gmock-spec-builders.h:969-981 | the prerequisites are exactly the expectations named by some After or found last in the sequence of some InSequence, in statements of any length |
| `ExpectCall.ActionsAreKept` | GTest/gtest/googlemock/include/gmock/gmock-spec-builders.h:999-1011 | the actions are those of the WillOnce clauses, in order |
| `ExpectCall.RetiresIfAsked` | GTest/gtest/googlemock/include/gmock/gmock-spec-builders.h:1038-1050 | an expectation retires on saturation exactly if some clause asks for it |
| `ExpectCall.LastRepeatedCounts` | GTest/gtest/googlemock/include/gmock/gmock-spec-builders.h:1013-1036 | the repeated action is that of the last WillRepeatedly, and there is none without one |
| `ExpectCall.LastWithCounts` | GTest/gtest/googlemock/include/gmock/gmock-spec-builders.h:913-928 | the last With decides on the arguments, and without one all will do |
| `ExpectCall.LastTimesCounts` | GTest/gtest/googlemock/include/gmock/gmock-spec-builders.h:930-939 | the cardinality is that of the last Times, whatever actions stand around it, and the default without Times and actions |
| `ExpectCall.StatementsAreSteady` | GTest/gtest/googlemock/include/gmock/gmock-spec-builders.h:1006-1030 | a statement with cardinalities that stay saturated has one itself |
| `ExpectCall.CardinalityFromActions` | GTest/gtest/googlemock/include/gmock/gmock-spec-builders.h:1006-1030 | without Times, a failure-free statement gets its actions in order and its cardinality from them |
| `ExpectCall.FactoriesSaturateSatisfied` | GTest/gtest/googlemock/include/gmock/gmock-cardinalities.h:101-116 | the first call that saturates a factory's cardinality satisfies it, exactly unless the bounds are crossed |
| `ExpectCall.CallsAllowed` | GTest/gtest/googlemock/include/gmock/gmock-cardinalities.h:101-116 | which numbers of calls satisfy, saturate and over-saturate the cardinalities of the factories: over-saturated is more calls than the maximum |
| `MockEngine.Mocks.IsSatisfied` | GTest/gtest/googlemock/include/gmock/gmock-spec-builders.h:792-797 | the cardinality is satisfied by the number of calls taken |
| `MockEngine.Mocks.constructor` | GTest/gtest/googlemock/include/gmock/gmock-spec-builders.h:869-870 | a run begins with no call taken and nothing retired |
| `MockEngine.Mocks.AllPrerequisitesAreSatisfied` | GTest/gtest/googlemock/include/gmock/gmock-spec-builders.h:812-815 | all immediate and transitive prerequisites are satisfied |
| `MockEngine.Mocks.FindMatchingExpectation` | GTest/gtest/googlemock/include/gmock/gmock-spec-builders.h:1728-1744 | the newest expectation that is not retired, has its prerequisites satisfied and matches; none if there is none |
| `MockEngine.Mocks.RetireAllPreRequisites` | GTest/gtest/googlemock/include/gmock/gmock-spec-builders.h:773-776 | retires exactly the immediate and transitive prerequisites |
| `MockEngine.Mocks.GetActionForArguments` | GTest/gtest/googlemock/include/gmock/gmock-spec-builders.h:1192-1218 | an excessive call is only counted; any other is counted, retires the prerequisites and, when asked to and saturated, the expectation, and gets its action |
| `MockEngine.Mocks.Invoke` | GTest/gtest/googlemock/include/gmock/gmock-spec-builders.h:1694-1716 | a call is a step of the runs the theorems are about |
| `MockEngine.NewestMatchHandles` | GTest/gtest/googlemock/include/gmock/gmock-spec-builders.h:1728-1744 | in every run, a call goes to the newest expectation of its function that is not retired, matches it and has its prerequisites satisfied, and is unexpected exactly if there is none |
| `MockEngine.CallsAreCounted` | GTest/gtest/googlemock/include/gmock/gmock-spec-builders.h:1198-1208 | the count of an expectation is the number of calls it handled |
| `MockEngine.RetiredIsFrozen` | GTest/gtest/googlemock/include/gmock/gmock-spec-builders.h:1096-1106 | a retired expectation takes no call and keeps its status |
| `MockEngine.RetiredAreClosed` | GTest/gtest/googlemock/include/gmock/gmock-spec-builders.h:1192-1218 | in every run, prerequisites of a retired expectation are retired |
| `MockEngine.RetiredAreSatisfied` | GTest/gtest/googlemock/include/gmock/gmock-spec-builders.h:1192-1218 | if the first saturating call satisfies each cardinality that retires on saturation, the retired expectations are satisfied in every state of every run |
| `MockEngine.UnsatisfiedRetires` | GTest/gtest/googlemock/include/gmock/gmock-spec-builders.h:1211-1213 | for every other cardinality there is a run that retires its expectation unsatisfied |
| `MockEngine.StaysRetired` | GTest/gtest/googlemock/include/gmock/gmock-spec-builders.h:1096-1106 | retirement is final |
| `MockEngine.RetiredExactly` | GTest/gtest/googlemock/include/gmock/gmock-spec-builders.h:1208-1213 | an expectation is retired exactly if an accepted call went to one that it precedes, or saturated it while it retires on saturation |
| `MockEngine.AcceptedCallClosesPrerequisites` | GTest/gtest/googlemock/include/gmock/gmock-spec-builders.h:1192-1218 | after a call that is not excessive, all transitive prerequisites are retired and satisfied for good and take no call |
| `MockEngine.SequenceNeverGoesBack` | GTest/gtest/googlemock/include/gmock/gmock-spec-builders.h:1728-1744 | after a call at one position of a sequence, accepted or excessive, no later call goes to an earlier position, unless the call was excessive where no call is expected at all |
| `MockEngine.SaturatedPositionGoesBack` | GTest/gtest/googlemock/include/gmock/gmock-spec-builders.h:1198-1206 | for every cardinality that is saturated at zero there is a run that goes back from its position |
| `MockEngine.NamedComesFirst` | GTest/gtest/googlemock/include/gmock/gmock-spec-builders.h:969-981 | an expectation takes no call before those that its After and InSequence clauses name are satisfied; once it has accepted one they take none |
| `MockEngine.StatementsMakeChain` | GTest/gtest/googlemock/include/gmock/gmock-spec-builders.h:941-951 | statements that each follow the one before in a sequence make the chain of the sequence law |
| `MockEngine.AcceptedCount` | GTest/gtest/googlemock/include/gmock/gmock-spec-builders.h:1198-1208 | how many calls were accepted, from the number taken |
| `MockEngine.AcceptedAction` | GTest/gtest/googlemock/include/gmock/gmock-spec-builders.h:1155-1218 | however the expectation was specified: if its cardinality stays saturated once it is, an accepted call performs the action of its position among the accepted calls |
| `MockEngine.ClauseActions` | GTest/gtest/googlemock/include/gmock/gmock-spec-builders.h:1155-1218 | for every statement: a call is excessive exactly if the calls before saturate it, and gets the default action; accepted calls perform the WillOnce actions in order, then that of the last WillRepeatedly, or the default action without one |
| `MockEngine.UnsteadySkipsAction` | GTest/gtest/googlemock/include/gmock/gmock-spec-builders.h:1198-1217 | with any other cardinality there is a run in which an accepted call gets a later action |
| `MockEngine.ActionsInOrder` | GTest/gtest/googlemock/include/gmock/gmock-spec-builders.h:1155-1218 | after a failure-free statement with a WillOnce and no Times, accepted calls perform the WillOnce actions in order, then the repeated one; without it later calls are excessive and the actions never run out |
| `Matchers.Matches` | GTest/gtest/googletest/include/gtest/gtest-matchers.h:262-270 | matching with the dummy listener is the meaning of the matcher |
| `Matchers.MatchAndExplain` | GTest/gtest/googlemock/include/gmock/gmock-matchers.h:336-356 | the verdict is the meaning of the matcher whether or not the listener is interested; one that is not hears nothing |
| `Matchers.ExplainAllOf` | GTest/gtest/googlemock/include/gmock/gmock-matchers.h:1040-1067 | true exactly when every matcher matches |
| `Matchers.ExplainAnyOf` | GTest/gtest/googlemock/include/gmock/gmock-matchers.h:1146-1173 | true exactly when some matcher matches |
| `Matchers.ExplainElementsAre` | GTest/gtest/googlemock/include/gmock/gmock-matchers.h:2748-2826 | one pass decides equal length and a match at every position |
| `Matchers.ExplainQuantifier` | GTest/gtest/googlemock/include/gmock/gmock-matchers.h:2377-2395 | stopping at the first deciding element decides all, or some |
| `Matchers.ExplainPointwise` | GTest/gtest/googlemock/include/gmock/gmock-matchers.h:2305-2343 | true exactly for equal sizes and pairs that all match |
| `Matchers.ExplainPair` | GTest/gtest/googlemock/include/gmock/gmock-matchers.h:2621-2665 | true exactly when both fields match, on both paths |
| `Matchers.EachIsNotContainsNot` | GTest/gtest/googlemock/include/gmock/gmock-matchers.h:2377-2455 | the verdicts of `Each(m)` and `Not(Contains(Not(m)))` agree, as do those of `Contains(m)` and `Not(Each(Not(m)))` |
| `Matchers.DeMorgan` | GTest/gtest/googlemock/include/gmock/gmock-matchers.h:967-1173 | the verdicts of `Not`, `AllOf` and `AnyOf` follow the laws of De Morgan |
| `Matchers.ElementsOneByOne` | GTest/gtest/googlemock/include/gmock/gmock-matchers.h:2748-2826 | the first matcher is for the first element and the others for the rest, up to the same end |
| `Matchers.EachIsElementsAre` | GTest/gtest/googlemock/include/gmock/gmock-matchers.h:2452-2455 | Each is ElementsAre with the same matcher everywhere |
| `Matchers.PointwiseIsElementsAre` | GTest/gtest/googlemock/include/gmock/gmock-matchers.h:2305-2343 | Pointwise is ElementsAre with each element held against the other side |
| `Matchers.KeyIsProjection` | GTest/gtest/googlemock/include/gmock/gmock-matchers.h:2538-2548 | Key looks at the first field alone |
| `Matchers.PairIsBothFields` | GTest/gtest/googlemock/include/gmock/gmock-matchers.h:2621-2665 | Pair is a test of each field |
| `Matchers.SimpleMatchers` | GTest/gtest/googlemock/include/gmock/gmock-matchers.h:967-1067 | Not, and AllOf and AnyOf of one matcher or none |
| `MatchMatrix.SpaceIndexInjective` | GTest/gtest/googlemock/include/gmock/gmock-matchers.h:2871-2873 | the flat index is in bounds and different for different coordinates |
| `MatchMatrix.MatchMatrix.constructor` | GTest/gtest/googlemock/include/gmock/gmock-matchers.h:2846-2850 | a new matrix has no edge |
| `MatchMatrix.MatchMatrix.HasEdge` | GTest/gtest/googlemock/include/gmock/gmock-matchers.h:2854-2856 | reads the edge |
| `MatchMatrix.MatchMatrix.SetEdge` | GTest/gtest/googlemock/include/gmock/gmock-matchers.h:2857-2859 | changes that edge and no other |
| `MatchMatrix.QueueResults` | GTest/gtest/googlemock/include/gmock/gmock-matchers.h:3013-3022 | the verdicts are queued row after row |
| `MatchMatrix.AnalyzeElements` | GTest/gtest/googlemock/include/gmock/gmock-matchers.h:3008-3032 | the matrix has an edge exactly where the matcher matches the element |
| `CaseInsensitive.HeadsAgree` | GTest/gtest/googlemock/include/gmock/gmock-matchers.h:638-645 | comparing the C strings is comparing the characters before the first NUL up to case |
| `CaseInsensitive.ComparesWholeStrings` | GTest/gtest/googlemock/include/gmock/gmock-matchers.h:636-654 | true exactly for strings of equal length that agree up to case everywhere, embedded NULs included |
| `EchoConnection.SessionObject.Read` | AsioTest/proto.hpp:43-50 | what was read becomes the write buffer; nothing read changes nothing |
| `EchoConnection.SessionObject.Write` | AsioTest/proto.hpp:60-68 | what was taken leaves the front of the write buffer; reading resumes when it is empty |
| `EchoConnection.ConnectionObject.StartOperationsNow` | AsioTest/proto.hpp:113-134 | asks for the wait that the session wants, unless it is in progress |
| `EchoConnection.ConnectionObject.Begin` | AsioTest/proto.hpp:96-102 | starting a connection is the start step |
| `EchoConnection.ConnectionObject.HandleRead` | AsioTest/proto.hpp:136-154 | a read wait that completes is a read step, with errors and would-block answers |
| `EchoConnection.ConnectionObject.HandleWrite` | AsioTest/proto.hpp:156-174 | a write wait that completes is a write step |
| `EchoConnection.StepKeepsInv` | AsioTest/proto.hpp:96-174 | every step keeps the bytes, the flags and the waits in agreement |
| `EchoConnection.EchoesEverything` | AsioTest/proto.hpp:43-68 | in every run, the bytes that `read_some` delivered are the bytes written, as many as `write_some` took, then the write buffer; the session is writing exactly while that is not empty |
| `EchoConnection.SocketAccounts` | AsioTest/proto.hpp:136-174 | what the connection has received and how much it has sent are the chunks and counts of the events |
| `EchoConnection.SentIsPrefix` | AsioTest/proto.hpp:60-68 | what goes out is a prefix of what the socket delivered |
| `EchoConnection.OneWaitOutstanding` | AsioTest/proto.hpp:113-174 | exactly one wait is outstanding while a started connection is open, of the right kind, and none afterwards |
| `EchoConnection.NoOverwriteWhilePending` | AsioTest/proto.hpp:43-50 | the buffer is read into only when nothing is pending |
| `EchoConnection.OnlyErrorsClose` | AsioTest/proto.hpp:146-173 | a step leaves the connection closed exactly when it met an error other than would-block |
| `ParallelFor.Shared.Worker` | P1/P1_main.cpp:28-36 | a worker alone processes the indices left, in order, and adds its successes |
| `ParallelFor.Step` | P1/P1_main.cpp:28-36 | each access to an atomic keeps the invariant and uses up some of the measure |
| `ParallelFor.NoIndexTwice` | P1/P1_main.cpp:30-32 | under every schedule, an index is processed at most once, and only a drawn index of a sample |
| `ParallelFor.AllDone` | P1/P1_main.cpp:24-43 | when all threads have stopped, each sample was processed exactly once, the result counts the successes, and the counter is samples plus threads: exactly if there is a thread, or no sample |
| `ParallelFor.Terminates` | P1/P1_main.cpp:24-43 | every schedule is bounded and can go on until all threads have stopped |
| `Timers.CTimer.QueryExcuteTimer` | CommonLib/TimerManager.cpp:24-52 | the answer and the new state of the timer; any answer but run changes nothing |
| `Timers.QueryIsExact` | CommonLib/TimerManager.cpp:24-52 | a query answers run exactly for a timer that is forced, or waits and is due; it then waits, and counts its interval from now only if it was due; any other timer is left as it is |
| `Timers.CTimer.ChangeTimerState` | CommonLib/TimerManager.cpp:18-22 | a change of state is the change event |
| `Timers.CTimer.constructor` | CommonLib/TimerManager.cpp:6-16 | a new timer waits and has never run |
| `Timers.TimerManager.CreateTimer` | CommonLib/TimerManager.cpp:93-102 | a new timer comes behind the others and leaves them as they are |
| `Timers.TimerManager.ChangeTimerState` | CommonLib/TimerManager.cpp:104-115 | changes the state of that timer, or finds none |
| `Timers.TimerManager.ExcuteTimerTask` | CommonLib/TimerManager.cpp:117-162 | one pass over the map, with the erasing and skipping of the loop; the timers left are distinct ones of those before, ready for the next call |
| `Timers.DueIsElapsed` | CommonLib/TimerManager.cpp:35-38 | due means more than the interval has passed, exactly if the sum stays within 32 bits |
| `Timers.ForcedOrDue` | CommonLib/TimerManager.cpp:33-47 | each execution is due or answers a request |
| `Timers.RateBound` | CommonLib/TimerManager.cpp:24-52 | in a window, a timer's queries answer run at most once, plus its length by the interval and one, plus the forced ones |
| `Timers.PassExecutesFirst` | CommonLib/TimerManager.cpp:122-161 | without removals in front of it, the timer with the lowest id that is forced, or waits and is due, is executed and waits again, and nothing else changes |
| `Timers.RemovalsSkip` | CommonLib/TimerManager.cpp:122-155 | a pass finds the first runnable timer, or ends idle, exactly if the timers marked for removal directly before it are even in number |
| `Timers.RemovalMisses` | CommonLib/TimerManager.cpp:136-154 | two passes that go wrong: a due timer behind a removed one is not executed, and a removed timer at the end moves the iterator past it |
| `Timers.IdleLosesOnlyMarked` | CommonLib/TimerManager.cpp:122-155 | a pass that executes nothing loses no timer but those marked for removal, and changes none |
| `TimerRuns.TurnIsSeen` | CommonLib/TimerManager.cpp:117-162 | a pass queries each timer up to the first runnable one, and executes a timer exactly if its query answers run |
| `TimerRuns.RunVerdictsAreExecuted` | CommonLib/TimerManager.cpp:117-162 | over any run of passes, changes and new timers, the passes that execute a timer are as many as its queries that answer run |
| `TimerRuns.ManagerRateBound` | CommonLib/TimerManager.cpp:104-162 | in a window, the manager executes a timer at most once, plus its length by the interval and one, plus the runs forced at its start or in it |
| `TimerRuns.ForcedTurn` | CommonLib/TimerManager.cpp:117-162 | a pass executes a forced timer exactly if it reaches it, which then waits with its interval running on |
| `TimerRuns.RequestIsAnswered` | CommonLib/TimerManager.cpp:104-162 | a request to run at once that is not revoked is answered, exactly if some later pass reaches the timer |
| `Lossless.LosslessIsEnclosing` | GTest/gtest/googlemock/include/gmock/internal/gmock-internal-utils.h:188-222 | between bool and integers of any width and sign, lossless is that the target range encloses the source range |
| `Lossless.LosslessIsTransitive` | GTest/gtest/googlemock/include/gmock/internal/gmock-internal-utils.h:188-247 | the relation is transitive over all arithmetic types |
| `Lossless.FloatingCases` | GTest/gtest/googlemock/include/gmock/internal/gmock-internal-utils.h:198-247 | which conversions from and to floating-point types are lossless |

## Left out

- Memory ordering weaker than sequential consistency, and several producers or consumers of one ring.
- CommonLib/SafeArray.h, which has the same logic with padding between the indices.
- The pool when posting fails, when ids or counters wrap around, and its shutdown.
- What a task's function does; other threads may register and unregister while it runs, and workers may take a queued record in any order.
- Interleavings in the pool's object, whose calls run one after the other; the protocol has them.
- What follows an access through NULL, which C++ leaves undefined and which ends the process in practice: the object's call then promises nothing, and in the protocol the other threads go on while the mutex stays taken.
- Bodies that are not in the repository follow their header comments: AllPrerequisitesAreSatisfied, RetireAllPreRequisites, UntypedTimes, Sequence::AddExpectation, the factories of cardinalities and CaseInsensitiveCStringEquals are not part of this model beyond that.
- InSequence is given the sequence's last expectation; prerequisites that form a cycle, for which the searches through them need not end.
- The width of the call counts, the action-count warnings of CheckActionCountIfNotDone, deleting or verifying mock objects, and expectations added between calls.
- The wording of explanations and the printing of values are only words of a text; descriptions of matchers are left out.
- The bipartite matching of UnorderedElementsAre, FindPairing, WhenSortedBy, floating-point matchers, and NULL pointers in Pointee.
- The case mapping of the locale is a parameter that maps only NUL to NUL.
- A container or pair matcher is a type error on other values in C++; here it does not match them.
- Sockets, waits and clocks are inputs: what a read or write answers, which wait completes, and the tick of every query.
- The timer map is the sequence of its timers in the order of their ids; `_runcount`, which the code never consults, and the callbacks are left out.
- Runs of the timer manager in which a timer is removed, after which positions in the map shift.
- The width of the counters in the parallel loop; `Worker` is the loop of one thread alone, and the interleavings are in the state machine.
- Connecting, sending and parsing of the HTTP client, and that its thread ends when the host's address is bad.
- Logging, charset conversion, time formatting and the other files of the servers, clients and test frameworks.
