# DogDB: a verified model of the fault-injection session

DogDB sits between a client and a database and injects faults deterministically: every choice is derived from a
hash of the session's seed, the statement's normal form and its occurrence number. This project models that engine,
with the backend's answers and the hash left arbitrary, and proves what its written contract claims for whole sessions.

## How it is organised

- **SQL normal form**: `SqlNormalizer` holds the one-pass scanner as a loop and a reference lexer and printer;
  `SqlRoundTrip` proves that they are inverse to each other on canonical token streams, `Spelling` how letter case and
  white space count.
- **Draws and transformations**: `Draws` (fairness of the derived indices), `RawDraws` (every draw read off its hashed
  text), `FiringOdds` (how often faults fire and which is selected), `Permutations` (Fisher-Yates in place),
  `Transforms` and `SilentFaults` (what each fault does to a result).
- **Hashed texts**: `Decisions` (the closed set of purposes, decision and derivation texts, occurrence counters) and
  `DomainSeparation` (texts of different purposes never coincide).
- **Components with state**: `EventLog`, `House`, `AutoReturn`, `MoodEngine`, `StaleCache`, `Adapters`. Each class is
  proved against functions on values.
- **The session**: `Faults` and `Session` give one operation as a function on session states, and a run as a list of
  operations. `FaultEngine` and `InterventionEngine` are the objects of the source: their methods mutate the component
  objects, and `InterventionEngine.Valid` says that the objects are in the state the operations called so far lead to.
  Every theorem about runs is therefore a theorem about every sequence of calls of those methods.
- **Theorems about runs**: `Invariants` and `StepInvariants` (what every operation keeps), `LogTheorems`,
  `EventGrammar`, `HouseMoves`, `StashCycle`, `StashLog`, `AutoReturnTiming`, `StashOrder`, `StaleReads`, `Deliveries`,
  `Passthrough`, `FastPath`, `Lapse`, `DebugRuns`, `DebugFaults`, `DebugLapse`, `ParameterErasure`. What single operations do
  to a run, stated on texts and replies alone: `FaultChoice` and `FaultRuns`, `CacheContents`, `PlainAnswers`, `ManualReturns`.

Inputs of the model: the hash (any function from texts to 32 bytes), the seed and session id, the fixed policy and
limits, and per operation the statement's text, its classification, its parameter fingerprint and the backend's answer.
The parameter `force` of `Step` and `After` stands for a session that never skips a decision; the code is `force == false`.

## Where the code and its documentation differ

- The documentation says a stashed row stays hidden until it is returned (`docs/contract-v1.md`, line 61). In the
  code hiding is a late step of the on-result phase. The phase is skipped after SLOTH and when no on-result fault has
  weight in the present mood, and it ends before that step for oversized results and when NO_DROP fires.
  `Deliveries.TreasuredRowsReappear` gives, for every read of every run, the exact condition under which the row is
  delivered again: the phase does not run, or the result is oversized and that is no error. A response dropped by
  NO_DROP, or refused for its size, shows no row; `Deliveries.TreasuredRowsStayHidden` gives the exact condition for a
  delivery without the row. `FastPath.RunsAgree` gives the exact condition under which skipping changes a run, and
  `Lapse.StashedRowReappears` two reads after which a stashed row has reappeared.
- SHUFFLE and TANGLED_LEASH can be logged without any visible change; `Transforms.ReorderedFacts` and
  `SilentFaults.SwappedLabels` say exactly when.
- A comment is meant to read as white space. A line comment right after a `-` does not;
  `SqlRoundTrip.LineCommentIsBreak` says that this is the only exception among line comments in code.
- A debug run is documented, in the repository's requirements on the event log, to inject the same faults as the run
  without debug mode. Debug mode never skips a decision, and a skipped decision can leave a release unspent that the
  debug run has spent. `DebugFaults.SameFaultsExactly` gives the exact condition: the injected faults agree unless some
  operation evaluates a result with rows of a template whose release only the run without debug mode still has, while
  STASH fires and either the house takes the row or that run selects another fault. `DebugLapse.DebugInjectsMore` is a
  run of five operations whose debug run injects one fault more, and `DebugRuns.DebugIsSilent` gives the exact condition
  for the answers to agree as well.
- WRONG_COUNT can report the backend's own count when the backend answers with a count but no rows;
  `SilentFaults.DeclaredIsNotVacuous` and `SilentFaults.VacuousCount` say when.
- A seed with a NUL character can make two sessions share all decisions; `DomainSeparation.SessionsDiffer` says
  exactly when decisions of two sessions have the same text.

## Model

| member | source | states |
|---|---|---|
| SqlNormalizer.NormalizeSql | src/dogdb/core/fingerprints.py:31-86 | the scanner loop returns the text of the canonical token stream of the SQL text, for every text; `Spelling` says what that stream keeps |
| SqlRoundTrip.LexIsValid | src/dogdb/core/fingerprints.py:37-84 | lexing any text gives a stream whose tokens cannot be read together with their neighbours |
| SqlRoundTrip.LexPrint | src/dogdb/core/fingerprints.py:37-86 | lexing the text of a valid token stream gives that stream back |
| SqlRoundTrip.NormalFormLexes | src/dogdb/core/fingerprints.py:31-86 | lexing a normal form gives the canonical stream of the original text |
| SqlRoundTrip.SameNormalForm | src/dogdb/core/fingerprints.py:31-91 | two texts share a normal form if and only if their canonical streams are equal |
| SqlRoundTrip.FixedPoints | src/dogdb/core/fingerprints.py:31-86 | normalising is idempotent and its fixed points are exactly the texts of canonical streams |
| SqlRoundTrip.LexAppend | src/dogdb/core/fingerprints.py:37-84 | text that cannot join on to the end of a prefix in code state leaves the reading of that prefix unchanged |
| SqlRoundTrip.BlockCommentIsSpace | src/dogdb/core/fingerprints.py:62-70 | a block comment anywhere in code is interchangeable with one space |
| SqlRoundTrip.OpenBlockCommentIsEnd | src/dogdb/core/fingerprints.py:62-70 | a block comment in code that is never closed reads as the end of the text |
| SqlRoundTrip.LineCommentIsBreak | src/dogdb/core/fingerprints.py:56-61 | a line comment in code, ended by either line break or by the end of the text, can be left out if and only if no '-' stands right before it |
| SqlRoundTrip.LineCommentAfterMinus | src/dogdb/core/fingerprints.py:56-61 | a concrete text in which the comment swallows the '-' before it |
| Spelling.LiteralsAreKept | src/dogdb/core/fingerprints.py:43-54 | two texts that differ inside one single-quoted literal share a normal form if and only if the literals are the same, letter case included |
| Spelling.IdentifiersIgnoreCase | src/dogdb/core/fingerprints.py:43-54 | two texts that differ inside one double-quoted identifier share a normal form if and only if the identifiers differ at most in the case of ASCII letters |
| Spelling.CodeIgnoresCase | src/dogdb/core/fingerprints.py:71-84 | the same for one character of code that is no quote, space or part of a comment mark |
| Spelling.SpacesCollapse | src/dogdb/core/fingerprints.py:71-84 | a run of white space in code reads as one space, whatever it is made of |
| Spelling.EndsAreTrimmed | src/dogdb/core/fingerprints.py:71-86 | white space at either end of a text does not count |
| Spelling.SpaceSeparates | src/dogdb/core/fingerprints.py:71-84 | white space between two plain characters of code does count |
| Spelling.SpacesAre | src/dogdb/core/fingerprints.py:71-74 | the code points that count as white space, one by one |
| Draws.ModularCount | src/dogdb/core/faults.py:594-596 | how many of n draws reduce to a given index, exactly |
| Draws.ScaledCount | src/dogdb/core/faults.py:583-587 | the draws that scale to a given index are exactly those between two thresholds |
| Draws.DrawsAreFair | src/dogdb/core/faults.py:583-596 | for every size up to 2^64 each index has floor or ceiling of 2^64/size draws behind it, for both kinds of draw |
| RawDraws.EightIs | src/dogdb/core/decision.py:95-98 | a draw is the number that its eight bytes write, the first the most significant |
| RawDraws.DigitsAreDecimal | src/dogdb/core/decision.py:81-83 | numbers enter the hashed texts as decimal numerals without leading zeros |
| RawDraws.KeysAre | src/dogdb/core/decision.py:68-88 | the key of a decision is the tagged hash of the text written out part by part, for both phases |
| RawDraws.Tags | src/dogdb/core/faults.py:216-226 | the tags that depend on a fault or an index, written out |
| RawDraws.FixedTags | src/dogdb/core/faults.py:329-331 | the other tags, written out |
| RawDraws.HoldIs | src/dogdb/core/auto_return.py:39-42 | the hold is drawn under its own tag from the stashing decision, within the configured range |
| RawDraws.HoldsAreFair | src/dogdb/core/auto_return.py:39-42 | every hold of the range has floor or ceiling of its share of the draws behind it |
| RawDraws.MoodIs | src/dogdb/core/mood.py:65-78 | the mood of an epoch, from the text of the mood chain and the epoch's tag to the three moods in order |
| RawDraws.MoodChangesAre | src/dogdb/proxy/connection.py:278-295 | the clock logs a mood change exactly when the epoch's end draws another mood, with the id that the epoch's digest gives |
| RawDraws.SwapsAre | src/dogdb/core/faults.py:583-588 | each swap index is the fraction of 2^64 that its own draw marks among the places up to its position |
| Permutations.FisherYates | src/dogdb/core/faults.py:583-588 | the in-place loop carries out the swap vector on the array |
| Permutations.ShuffledFacts | src/dogdb/core/faults.py:583-588 | a shuffle permutes its rows and leaves the places above its start alone |
| Permutations.ShuffledTraces | src/dogdb/core/faults.py:583-588 | every place of a shuffle, traced back through the swaps to the place its element came from |
| Permutations.ShuffledInjective | src/dogdb/core/faults.py:583-588 | different swap vectors arrange distinct rows differently |
| Permutations.SwapVectorsAreThePermutations | src/dogdb/core/faults.py:583-588 | swap vectors and permutations of distinct rows correspond one to one |
| Transforms.ShuffleRows | src/dogdb/core/faults.py:580-590 | the shuffled array, with its first two rows swapped if nothing had moved |
| Transforms.ReorderedFacts | src/dogdb/core/faults.py:588-592 | the delivered rows are a permutation, equal to the input exactly when the shuffle was the identity and the first two rows agree |
| Transforms.VacuousShuffle | src/dogdb/core/faults.py:589-592 | a concrete result whose logged SHUFFLE changes nothing |
| Transforms.FindEligible | src/dogdb/core/faults.py:683-693 | the scan over profiles, rows and columns lists the cells that each profile changes |
| Transforms.EligibleCorrupts | src/dogdb/core/faults.py:683-693 | every eligible cell is one its profile really changes |
| Transforms.EligibleIsComplete | src/dogdb/core/faults.py:683-693 | every cell that a listed profile changes is eligible under that profile |
| Transforms.EligibleInOrder | src/dogdb/core/faults.py:683-693 | the eligible cells of a profile come row by row and, within a row, column by column |
| Transforms.EligibleAppend | src/dogdb/core/faults.py:683-693 | eligible profiles come in the order of the configured list |
| Transforms.ChewingIs | src/dogdb/core/faults.py:770-787 | for each profile exactly which values it changes and into what |
| Transforms.RoundsToNearest | src/dogdb/core/faults.py:773-785 | rounding gives a nearest integer, and the even one of two |
| Transforms.ChewedChangesOneCell | src/dogdb/core/faults.py:703-724 | CHEW changes one cell and nothing else |
| Transforms.MisreportedIsOff | src/dogdb/core/faults.py:729-735 | WRONG_COUNT is never right, off by at most the configured delta and never negative |
| Transforms.HidingOneRow | src/dogdb/core/faults.py:401-402 | filtering by hidden index removes exactly the stashed row, or nothing from a result that is too short |
| SilentFaults.LoggedFaultsAreDeclared | src/dogdb/core/faults.py:363-465 | a result delivered under a logged fault is the backend's result changed as fault and details declare, the forced swap and the CHEW profile included |
| SilentFaults.DeclaredIsNotVacuous | src/dogdb/core/faults.py:539-745 | for every fault, exactly when a declared change leaves the result as it was: a shuffle that moved nothing, two equal labels, or a wrong count equal to the backend's |
| SilentFaults.CountedFaultsAreReal | src/dogdb/core/faults.py:539-745 | where the backend's count is its number of rows, a declared change leaves the result as it was if and only if the two swapped labels are equal, or no row moved and the two in front are equal |
| SilentFaults.VacuousCount | src/dogdb/core/faults.py:726-745 | a concrete answer with a count but no rows whose WRONG_COUNT reports that count |
| Deliveries.LoggedFaultsAreReal | src/dogdb/proxy/connection.py:225-253 | in every run a read that logs a result fault and delivers is changed as declared, and for an answer with rows really changed, except for a repeated stale result, if and only if it did not swap two equal labels or leave every row in place with equal rows in front |
| SilentFaults.SwappedLabels | src/dogdb/core/faults.py:664-678 | swapping two labels changes nothing exactly when they are equal |
| DomainSeparation.DigitsInjective | src/dogdb/core/decision.py:81-83 | decimal rendering is injective |
| DomainSeparation.TagsDiffer | src/dogdb/core/faults.py:222-224 | tags of different purposes, faults or indices differ |
| DomainSeparation.DeriveTextsDiffer | src/dogdb/core/decision.py:89-93 | derivation texts under keys of one length determine key and purpose |
| DomainSeparation.DecisionTextsDiffer | src/dogdb/core/decision.py:68-88 | decision texts of a session determine template, occurrence, phase and used parameter |
| DomainSeparation.MoodTextIsSeparate | src/dogdb/core/mood.py:65-68 | the text behind the mood chain is no decision's text |
| DomainSeparation.SessionsDiffer | src/dogdb/core/decision.py:78-86 | any two decisions of any two sessions share a text if and only if seed and id join to the same text and template, occurrence, phase and used parameter agree; without NUL in the seeds they are then decisions of one session |
| DomainSeparation.SeedCollision | src/dogdb/core/decision.py:78-86 | two concrete session names that share every decision text |
| Decisions.DrawBound | src/dogdb/core/decision.py:95-98 | a draw is below 2^64 |
| Decisions.DecisionEngine.Begin | src/dogdb/core/decision.py:50-66 | counts this template and no other, and returns the new count |
| EventLog.EventLog.Append | src/dogdb/core/event_log.py:147-178 | appends one event under the next contiguous number |
| House.HouseLedger.Add | src/dogdb/core/house.py:38-48 | admits exactly a new id at a vacant location below capacity, and keeps the location index inverse to the dictionary |
| House.HouseLedger.ReturnTreasure | src/dogdb/core/house.py:59-64 | removes the treasure, frees its location and releases its template |
| House.HouseLedger.ReturnAll | src/dogdb/core/house.py:66-72 | empties the house and releases every template that was in it |
| House.HouseLedger.ConsumeRelease | src/dogdb/core/house.py:74-78 | takes a release exactly when there is one |
| House.WithoutFacts | src/dogdb/core/house.py:59-64 | removing an id removes its one treasure and keeps ids and locations distinct |
| House.RebuildHouse | src/dogdb/core/house.py:81-96 | the loop computes the projection of the events |
| AutoReturn.AutoReturnScheduler.Advance | src/dogdb/core/auto_return.py:26-37 | sets the tick, drops exactly what is due and returns it sorted by due tick and order |
| AutoReturn.AutoReturnScheduler.Schedule | src/dogdb/core/auto_return.py:39-48 | plans the id for the current tick plus its hold, under the next order |
| AutoReturn.AutoReturnScheduler.Cancel | src/dogdb/core/auto_return.py:50-51 | forgets the id and nothing else |
| AutoReturn.InsertFacts | src/dogdb/core/auto_return.py:28-34 | insertion into a sorted list keeps it sorted and loses nothing |
| MoodEngine.MoodEngine.Advance | src/dogdb/core/mood.py:70-87 | moves the clock, draws a mood at epoch ends only, and reports exactly the real changes |
| StaleCache.StaleReadCache.Add | src/dogdb/core/stale_cache.py:48-69 | for every pair: one bounded addition to the FIFO list; both views stay in order if and only if the pair is not there any more once room has been made, and otherwise the entry is replaced in place and listed twice |
| StaleCache.AssignedFacts | src/dogdb/core/stale_cache.py:64 | assigning a new pair appends it, assigning a known one keeps every length |
| StaleCache.StaleReadCache.History | src/dogdb/core/stale_cache.py:41-46 | never misses a lookup and returns the key's part of the FIFO list |
| StaleCache.StaleReadCache.Remove | src/dogdb/core/stale_cache.py:74-82 | both views lose the same entry |
| StaleCache.AddedKeepsBounds | src/dogdb/core/stale_cache.py:48-69 | both bounds hold after every addition and the newest entry survives |
| CacheContents.CacheIsLatestDeliveries | src/dogdb/proxy/connection.py:249-252 | after every run the cache is exactly the list of all deliveries of in-scope SELECTs that are not too large, cut to the last 4 of a key and then to the last 64, and empty without OLD_BONE |
| CacheContents.JustDelivered | src/dogdb/proxy/connection.py:249-252 | what such a SELECT has just delivered is the newest entry, under its key and occurrence |
| CacheContents.CutThenAdd | src/dogdb/core/stale_cache.py:48-69 | cutting to the overall bound before an addition makes no difference to the list after it |
| Adapters.Materialize | src/dogdb/adapters/base.py:41-59 | for any cursor that may return short batches: refuses exactly the answers with more rows than the cap after reading one more than the cap, and otherwise returns all columns, types and rows with their count |
| Adapters.CapRefusesOrAgrees | src/dogdb/adapters/base.py:41-59 | a capped read refuses exactly the answers with more rows than the cap and gives all others whole |
| StepInvariants.StepKeeps | src/dogdb/proxy/connection.py:64-328 | every operation keeps the invariants of house, log, schedule, moods and cache |
| StepInvariants.Reachable | src/dogdb/proxy/connection.py:64-328 | the invariants hold after every run |
| LogTheorems.HouseIsTheProjection | src/dogdb/core/house.py:81-96 | after every run the house rebuilt from the log equals the live house in id, template, row index, event id and order |
| LogTheorems.ClockCounts | src/dogdb/proxy/connection.py:269-272 | the logical clock counts the statements of the run, passed-through ones included |
| LogTheorems.MoodIsReplayed | src/dogdb/core/mood.py:70-87 | the mood after t statements is CALM before the first epoch end and the epoch's draw after it, and folding the logged changes gives it back |
| LogTheorems.MoodLogOfRun | src/dogdb/proxy/connection.py:278-295 | the mood changes logged in a run chain from CALM, never to the same mood, at strictly increasing multiples of the epoch no later than the clock |
| LogTheorems.EventIdTextsDiffer | src/dogdb/core/faults.py:266-269 | the texts behind the event ids of a run are pairwise different |
| EventGrammar.StatementGrammar | src/dogdb/proxy/connection.py:151-253 | every statement appends automatic returns, at most one mood change, and then one of the listed event sequences |
| EventGrammar.AtMostOneFault | src/dogdb/proxy/connection.py:189-253 | such a sequence holds at most one fault and at most two events |
| EventGrammar.InterruptedEvents | src/dogdb/proxy/connection.py:207-222 | an interrupted capped read logs no evaluated decision and, unless it was refused before execution, the limit as its last event |
| LogTheorems.LogOfRunIsContiguous | src/dogdb/core/event_log.py:147-178 | the events of a run are numbered from 1 without gaps |
| HouseMoves.OnResultMoves | src/dogdb/core/faults.py:363-465 | the result phase leaves the house alone, spends its own template's release, or admits one row of a template with neither |
| StashCycle.HouseAfterRuns | src/dogdb/core/house.py:38-78 | after every run ids and templates are unique, capacity holds, and no treasured template is released |
| StashCycle.StaysHidden | src/dogdb/core/faults.py:369-405 | in one result phase a treasured row is left out if and only if the phase runs, the result is not oversized and it is not dropped |
| Deliveries.TreasuredRowsStayHidden | src/dogdb/proxy/connection.py:225-253 | the same for every read of every run: the exact condition under which the client gets the result without a treasured row that the backend answers again |
| Deliveries.TreasuredRowsReappear | src/dogdb/proxy/connection.py:225-253 | such a row reaches the client again if and only if the result phase does not run, or the result is oversized and that is no error; otherwise the client gets the result without the row, or an error |
| StashCycle.Reappears | src/dogdb/core/faults.py:363-405 | the same for one result phase, from any state with one treasure for each template |
| Deliveries.DeliveriesAreExplained | src/dogdb/proxy/connection.py:151-253 | in every run a read delivers the backend's result, or that result without the row treasured for its template, or a result that the last event of the same statement accounts for |
| Deliveries.OnResultExplained | src/dogdb/core/faults.py:363-465 | the same for one result phase, from any state |
| StashCycle.StepMoves | src/dogdb/proxy/connection.py:64-253 | an operation first returns, and a statement then keeps a treasure, spends a release or stashes |
| StashCycle.ReturnAndSpendBetween | src/dogdb/core/faults.py:407-417 | between two operations that put a treasure of one template in the house lie a logged return and then an operation that spends the release |
| StashLog.StashEventsAreStashes | src/dogdb/core/faults.py:539-578 | an operation of a run logs a STASH event of a template if and only if it puts its treasure in the house |
| StashLog.SpendsExactly | src/dogdb/core/faults.py:363-417 | an operation of a run spends a release if and only if the release is there when it opens and it evaluates a result of the template |
| StashLog.SpendingIsNoStash | src/dogdb/core/faults.py:412-417 | an operation that spends a release logs no STASH event of the template |
| StashLog.BetweenStashEvents | src/dogdb/core/faults.py:407-417 | between two STASH events of one template in the log of a run stand a return event of the template and after it an operation that evaluates a result of the template without a STASH event |
| AutoReturnTiming.DueInStashOrder | src/dogdb/core/auto_return.py:26-37 | what is due at the next tick is due exactly then and comes in the order it was planned |
| AutoReturnTiming.ReturnsInStashOrder | src/dogdb/proxy/connection.py:269-295 | from every state that keeps the invariants a statement opens with one return event per due treasure in schedule order, then at most a mood change |
| StashOrder.HouseInStashOrder | src/dogdb/core/faults.py:566-573 | after every run house and schedule hold the same ids in the same order, which is the order of their STASH events in the log |
| StashOrder.ReturnsFollowStashes | src/dogdb/proxy/connection.py:269-295 | every statement of a run opens with one return event per due treasure, in the order of the STASH events of those treasures |
| AutoReturnTiming.AutoReturnIsExact | src/dogdb/proxy/connection.py:269-277 | a row stashed by statement n with hold h is held until statement n + h starts and comes back right then, unless returned by hand |
| StaleReads.CacheIsHistory | src/dogdb/proxy/connection.py:249-253 | after every run each cached entry is what some earlier operation delivered under that key and occurrence; `CacheContents` has the converse |
| StaleReads.OldBoneReplays | src/dogdb/core/faults.py:747-764 | a stale read delivers exactly what an earlier operation of the same key delivered and logs its occurrence |
| StaleReads.StaleReadsTraceBack | src/dogdb/core/faults.py:747-764 | following stale reads back ends at a delivery that was not stale |
| Passthrough.PassthroughErasure | src/dogdb/proxy/connection.py:157-177 | without a clock, deleting passed-through operations changes no state and no remaining answer |
| PlainAnswers.TakingPartIs | src/dogdb/proxy/connection.py:157-172 | a statement takes part if and only if its parameters are positional and in the fingerprint domain and it is neither unknown SQL nor transaction control |
| PlainAnswers.PassedThrough | src/dogdb/proxy/connection.py:157-177 | in every run a statement that passes through gets the backend's answer untouched, or is refused exactly in error mode for a reason other than transaction control; it leaves no trace but the clock's |
| PlainAnswers.BulkPassesThrough | src/dogdb/proxy/connection.py:322-327 | in every run a bulk statement gets the backend's answer and leaves no trace but the clock's |
| PlainAnswers.ScopeIs | src/dogdb/proxy/connection.py:297-302 | a statement is in scope if and only if it names a listed table, or no table that is excluded |
| PlainAnswers.OutOfScope | src/dogdb/proxy/connection.py:179-253 | in every run a statement out of scope gets the backend's answer untouched, counts as an occurrence and changes nothing else |
| Passthrough.OccurrenceIsRank | src/dogdb/core/decision.py:62-66 | an occurrence is one more than the number of earlier statements of the template that took part, whatever became of them |
| Passthrough.OccurrenceOfNormalForm | src/dogdb/core/decision.py:57-66 | without hash collisions in the run, that is the number of earlier statements with the same normal form |
| FastPath.BeforeSkipIsSilent | src/dogdb/proxy/connection.py:185-203 | skipping the before-execute decision never changes anything |
| FiringOdds.FiresIsHit | src/dogdb/core/faults.py:216-226 | a fault fires if and only if the first eight bytes of its hashed text lie below its chance times 2^64, the chance being its probability scaled by the mood |
| FiringOdds.FiringIsMonotone | src/dogdb/core/faults.py:216-226 | what fires under some chance fires under every greater one with the same draw |
| FiringOdds.FiringCount | src/dogdb/core/faults.py:222-226 | of the 2^64 draws exactly the ceiling of the chance times 2^64 fire |
| FiringOdds.SelectIsFirst | src/dogdb/core/faults.py:240-256 | the selected fault is the first of the order that is eligible and whose draw hits |
| FaultRuns.StatementsStartByDraws | src/dogdb/proxy/connection.py:185-203 | in every run, what the before-execute phase of a statement in scope logs and answers, from the hashed texts: the first of four faults whose draw hits, its event and its delay |
| FaultRuns.ReadsStartWith | src/dogdb/proxy/connection.py:189-224 | in every run a statement in scope that reads a result has logged exactly its delay, or in debug mode one evaluated decision, whether the read is capped or not |
| FaultRuns.RefusedExactly | src/dogdb/core/faults.py:311-361 | in every run a statement in scope is refused with a fault if and only if that is the first of the four whose draw hits |
| FaultRuns.SoleRefusal | src/dogdb/core/faults.py:216-226 | with one refusing fault configured and no mood, it strikes exactly the statements whose draw lies below its probability |
| FaultRuns.StatementsRead | src/dogdb/proxy/connection.py:204-222 | in every run a statement that is not refused reads the backend's answer whole, passes its failure on, or stops at the result cap with one limit event and an error |
| FaultRuns.ResultsGoByDraws | src/dogdb/core/faults.py:363-485 | in every run, what an in-scope SELECT that was not slowed logs and answers, from texts, tables and sizes: the limit, NO_DROP, or the first fault whose guard holds and whose draw hits, with the details its own draws give |
| FaultChoice.CandidateIs | src/dogdb/core/faults.py:407-444 | for each fault exactly when it is a candidate |
| FaultChoice.CandidatesInOrder | src/dogdb/core/faults.py:407-444 | candidates are listed in one fixed order, each at most once |
| FaultRuns.OthersGetTheirResult | src/dogdb/proxy/connection.py:225-248 | in every run a result that is slowed, out of scope or not of a SELECT is delivered as it was read and logs nothing more |
| FaultChoice.RowTreasureIs | src/dogdb/core/faults.py:539-565 | the treasure of a stashed row in all its fields: the row that its own draw picks, its id and the id of its event |
| FaultRuns.StaleReadsHappen | src/dogdb/core/faults.py:434-461 | in every run a read whose key has a delivery in the cache is stale when OLD_BONE is certain and no earlier fault of the order is due |
| FastPath.ResultSkip | src/dogdb/proxy/connection.py:225-248 | skipping the result phase matters if and only if it had a row to hide or a release to spend |
| FastPath.PendingForOne | src/dogdb/core/faults.py:399-405 | for one treasured row, that is: the result has the row, or its count was wrong |
| FastPath.StepsAgree | src/dogdb/proxy/connection.py:151-253 | one operation comes out the same on the fast path if and only if it does not lapse |
| FastPath.RunsAgree | src/dogdb/proxy/connection.py:151-253 | a run comes out the same, in states and answers, if and only if none of its operations lapses |
| FastPath.FastPathRefines | src/dogdb/core/faults.py:228-238 | when STASH keeps some weight in every mood or is not configured, the fast path refines always deciding over every run |
| Lapse.StashedRowReappears | src/dogdb/proxy/connection.py:225-248 | a concrete run in which a stashed row is delivered again without having been returned |
| DebugRuns.StepAlike | src/dogdb/proxy/connection.py:185-248 | an operation in debug mode comes out as in a session that never skips a decision, but for evaluated decisions, event numbers and ids |
| DebugRuns.DebugIsSilent | src/dogdb/proxy/connection.py:185-248 | a run agrees with its debug run in states, answers and all other events after every operation if and only if none of its operations lapses |
| DebugFaults.StatesAgree | src/dogdb/proxy/connection.py:225-248 | one operation leads to the same state with and without skipping if and only if it does not skip the spending of a release |
| DebugFaults.SameStates | src/dogdb/proxy/connection.py:225-248 | a run keeps the states of always deciding after every operation if and only if it never skips the spending of a release |
| DebugFaults.SameFaults | src/dogdb/core/faults.py:467-485 | where no spending of a release is skipped the debug run injects the same faults in the same order, whatever rows show again |
| DebugFaults.StepParts | src/dogdb/core/faults.py:407-417 | from two states that differ in releases only, one operation makes the injected faults differ if and only if a result meets the missing release while STASH fires and a fault is at stake; otherwise the states still differ in releases only |
| DebugFaults.SameFaultsExactly | src/dogdb/core/faults.py:407-485 | for every run, the exact condition under which the debug run injects the same faults in the same order after every operation, and logs the same events but for evaluated decisions |
| DebugLapse.DebugInjectsMore | src/dogdb/proxy/connection.py:185-248 | a concrete run that injects one fault while its debug run injects two |
| ParameterErasure.StepErased | src/dogdb/core/decision.py:68-87 | without included parameters, one operation with its fingerprint erased takes the erased state to the erased outcome |
| ParameterErasure.ParametersDoNotMatter | src/dogdb/core/decision.py:68-87 | two runs that differ only in the fingerprints of bound parameters have the same states, answers and events but for the fingerprints these carry, unless parameters are included |
| FaultEngine.FaultEngine.SelectCandidate | src/dogdb/core/faults.py:240-256 | the first eligible fault in priority order that fires, as `FiringOdds.SelectIsFirst` reads it off the draws |
| FaultEngine.FaultEngine.HasEffectiveWeight | src/dogdb/core/faults.py:228-238 | the loop finds whether any listed fault has weight in the present mood |
| FaultEngine.FaultEngine.BeforeExecute | src/dogdb/core/faults.py:311-361 | the objects move as the before-execute phase says |
| FaultEngine.FaultEngine.Stash | src/dogdb/core/faults.py:539-578 | house, schedule and log move together, the event under the id computed before the row was admitted |
| FaultEngine.FaultEngine.OnResult | src/dogdb/core/faults.py:363-465 | the objects and the delivery are those of the on-result phase |
| InterventionEngine.InterventionEngine.constructor | src/dogdb/proxy/connection.py:99-149 | a new engine is in the initial state with no operations called, and all its parts are its own |
| InterventionEngine.InterventionEngine.BeginOperation | src/dogdb/proxy/connection.py:269-295 | due returns, then the mood, whose own clock stays in step with the logical tick |
| InterventionEngine.InterventionEngine.Execute | src/dogdb/proxy/connection.py:151-253 | the objects are in the state of the run extended by this statement, and the answer is the run's |
| InterventionEngine.InterventionEngine.ExecuteMany | src/dogdb/proxy/connection.py:322-327 | as for a statement that always passes through |
| InterventionEngine.InterventionEngine.ReturnTreasure | src/dogdb/proxy/connection.py:64-70 | cancels, returns and logs one treasure as the run says |
| InterventionEngine.InterventionEngine.ReturnAll | src/dogdb/proxy/connection.py:72-78 | returns every treasure and cancels and logs each as the run says |
| ManualReturns.ReturnTreasureHandsBack | src/dogdb/proxy/connection.py:64-70 | in every run, if the id is in the house its treasure is handed back, taken out of house and schedule with the others in order, released and logged by one event; otherwise nothing changes |
| ManualReturns.ReturnAllHandsBack | src/dogdb/proxy/connection.py:72-78 | in every run all treasures are handed back, house and schedule are empty, their templates are released, and one event per treasure is logged in house order |
| ManualReturns.LogReturnIs | src/dogdb/proxy/connection.py:80-97 | the event of a return, by hand or by the clock, in all its fields |

## Left out

- IEEE rounding: draws are the exact rationals n/2^64 and probabilities are reals. The float draw of the source rounds
  to 1.0 for n >= 2^64 - 2^10 (section 4.3.1 of IEEE 754-2019), and a swap index can then leave its range.
- The float branch of the CHEW profile `precision_loss` works on reals, so overflow and non-finite values are not modelled.
- Unicode: lower-casing covers ASCII letters only; white space is the full set Python's `isspace` accepts.
- Python's equality across types: two cells are equal when they are the same model value, so `rows == result.rows` after a
  shuffle and `rounded != value` do not identify, say, 1 and 1.0.
- SHA-256 itself: the hash is an arbitrary function. Statements about hashed ids are about the texts that are hashed;
  only `Passthrough.OccurrenceOfNormalForm` assumes that the run's normal forms do not collide.
- Classification of SQL (kind, tables, order, limit, offset, transaction) and the parameter fingerprint are inputs.
- The backend: an operation carries its answer. Transactions, commit, rollback and clones are foreign calls.
- Resuming a session from a log file, the JSONL format and its warnings: a session starts with an empty log.
- Changing the policy while a session runs: the configuration is fixed.
- Statistics, warnings of the `warn` passthrough mode, the category and severity of events, and messages of errors.
- SLOTH's real delay: only the logged number of milliseconds and the effect on the later phases are modelled.
- Configuration parsing, cursor fetch surfaces, `description`, attribute guidance, examples and demos.
- The order in which `active_for` sorts treasures: the rows it hides are used as a set, and there is at most one.
- Copies made of delivered lists: results are values, so aliasing between a cached and a delivered list is not captured.
- `_MemoizedParameterFingerprint`: the parameter fingerprint is a value, so when it is computed is not modelled.
