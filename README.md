# Pig map-side merge join (`POMergeJoin`), modelled in Dafny

`POMergeJoin` is the physical operator behind Pig's `JOIN ... USING 'merge'`
(and `'merge-sparse'`). The left input is sorted on the join key and arrives
one result at a time. The right input is a sorted file read through an
`IndexableLoadFunc`, which can place its cursor near a key. Each call of
`getNextTuple()` takes one bounded step and returns one of:

- a joined tuple (`STATUS_OK`);
- "nothing yet" (`STATUS_NULL`);
- a status passed through (`EOP`, `ERR`).

Several fields carry the join between calls:

- `firstTime`, `doingJoin` and `counter`;
- `prevLeftKey` / `prevLeftInp` and `prevRightKey` / `prevRightInp`;
- `curJoinKey` and `curJoiningRightTup`;
- the buffer `leftTuples`, which holds the current run of equal left keys.

The project models that state machine and proves what it does.

## Files

- `types.dfy` (module `Types`): tuples, keys (`Option<int>`, `None` being
  Pig's null key), operator results, failures, and `setupRightPipeline`.
- `right_source.dfy` (module `RightSource`): the right loader as a class over
  a fixed run of rows with a cursor (`getNext`, `seekNear`, `close`).
- `merge_join_spec.dfy` (module `MergeJoinSpec`): one call of `getNextTuple`
  as a pure function from the state before the call to the state after it
  and the call's outcome (returned, thrown, or never returning). The
  operator's recursive self-calls and its `while(true)` loops are the
  (mutual) recursions of `DrainLoop`/`DrainOn` and `Advance`/`AdvanceOn`.
- `merge_join.dfy` (module `MergeJoin`): class `POMergeJoin`. It has the
  operator's fields and the loader it reads. `getNextTuple` and its helpers
  are methods with the operator's loops. Each method is proved to change the
  fields and the loader exactly as the matching `MergeJoinSpec` function says.
- `row_combiner.dfy` (module `RowCombiner`): the two index loops that build a
  joined tuple.
- `properties.dfy` (module `MergeJoinProperties`):
  - the drain cycle (a started match emits the whole buffer);
  - the output invariant of the dense mode: every returned tuple splits
    into a left part and a right part whose keys are equal and not null.
- `cases.dfy` (module `MergeJoinCases`): the branches of one call, stated
  case by case, including the operator's quirks, and what `getNextRightInp`
  returns.
- `completeness.dfy` (module `MergeJoinCompleteness`): the join the operator
  should compute (`Expected`), and the theorem that a dense run over sorted
  inputs returns exactly that, each pair once, and ends with EOP.
- `scenarios.dfy` (module `MergeJoinScenarios`): two small joins worked
  through call by call.

Modelling choices:

- A Java `NullPointerException` becomes the failure `NullDereference`. This
  covers `compareTo` against a null key, a null `prevRightInp`, and a null
  tuple taken from the buffer.
- The error codes map to failures:
  - `ExecException` 1102 becomes `NotSortedLeft` / `NotSortedRight`;
  - 2167 becomes `KeyPlanBroken`;
  - 2176 becomes `RightInputFailed`;
  - `FrontendException` 2168 becomes `PipelineShape`.
- Key extraction (`extractKeysFromTuple`) is an abstract function from a
  tuple to either a key or a failed plan. A failed plan raises 2167.
- The optional right pipeline is a function from one raw right tuple to a
  tuple, to nothing (its leaf answers EOP, so the next raw tuple is pulled),
  or to an ERR/NULL status (2176).
- `seekNear(k)` moves the cursor to a position the loader's index gives for
  `k`, clamped to the end of the file.
- `close()` ends the loader's stream: its cursor moves past the last row, so
  a later `getNext()` answers null. The operator reads the right side once
  more after the close at the end of all input (see `Left out`).
- The flags `parentPlan.endOfAllInput`, `endOfInput` and
  `leftInputConsumedInSpark` are one boolean, `endOfAllInput`.
- Keys are integers, compared as integers. The `equals` test of
  `prevRightKey` against `prevLeftKey` is integer equality; it is reached
  only with a non-null `prevRightKey`, and a null `prevLeftKey` never equals
  it.
- In sparse mode, the advance loop can meet a right row with a null key on a
  fetch that followed a seek. The loop then seeks again, and the second seek
  restores exactly the state after the first one. The Java method therefore
  never returns. The model reports this as the outcome `Hang` (see
  `MergeJoinCases.SparseNullKeyHangs`).

## Model

| member | source | states |
|---|---|---|
| MergeJoin.POMergeJoin.constructor | src/org/apache/pig/backend/hadoop/executionengine/physicalLayer/relationalOperators/POMergeJoin.java:80-132 | a fresh operator built from a right pipeline that `setupRightPipeline` accepted (`Configured`): `firstTime`, not joining, empty buffer, no previous keys or tuples |
| MergeJoin.POMergeJoin.GetNextTuple | src/org/apache/pig/backend/hadoop/executionengine/physicalLayer/relationalOperators/POMergeJoin.java:313-563 | one call dispatches on `firstTime` / `doingJoin` and leaves the fields, the loader and its outcome exactly as `MergeJoinSpec.GetNext` describes; the state stays well formed |
| MergeJoin.POMergeJoin.SetUp | src/org/apache/pig/backend/hadoop/executionengine/physicalLayer/relationalOperators/POMergeJoin.java:318-342 | the set-up branch renews the buffer, reads one left result and, for a keyed tuple, opens the right side near its key (`MergeJoinSpec.FirstCall`) |
| MergeJoin.POMergeJoin.ProcessInput | src/org/apache/pig/backend/hadoop/executionengine/physicalLayer/relationalOperators/POMergeJoin.java:422 | takes the next left result, or EOP when the left input has none left |
| MergeJoin.POMergeJoin.EmitJoined | src/org/apache/pig/backend/hadoop/executionengine/physicalLayer/relationalOperators/POMergeJoin.java:347-361 | decrements `counter` and returns `leftTuples[counter]` followed by the matched right tuple; a null buffered tuple is a null dereference |
| RowCombiner.Combine | src/org/apache/pig/backend/hadoop/executionengine/physicalLayer/relationalOperators/POMergeJoin.java:349-358 | the joined tuple has `leftTupSize + rightTupSize` fields, the left fields unchanged at `0..l-1` and the right fields unchanged at `l..l+r-1` |
| MergeJoin.POMergeJoin.JoinStep | src/org/apache/pig/backend/hadoop/executionengine/physicalLayer/relationalOperators/POMergeJoin.java:344-365 | while `counter > 0` one joined tuple is emitted, otherwise `doingJoin` is cleared and the right stream is read on (`MergeJoinSpec.Drain`) |
| MergeJoin.POMergeJoin.DrainRight | src/org/apache/pig/backend/hadoop/executionengine/physicalLayer/relationalOperators/POMergeJoin.java:367-419 | the `while(true)` loop after the buffer was emitted ends as `MergeJoinSpec.DrainLoop` says |
| MergeJoin.POMergeJoin.DrainRightOnce | src/org/apache/pig/backend/hadoop/executionengine/physicalLayer/relationalOperators/POMergeJoin.java:368-418 | one turn of that loop: EOP clears `prevRightInp`, a null key goes round again, an equal key restarts the emission, a greater key becomes the read-ahead tuple (or closes the loader at the end of all input), a smaller key is 1102 |
| MergeJoin.POMergeJoin.ReadLeft | src/org/apache/pig/backend/hadoop/executionengine/physicalLayer/relationalOperators/POMergeJoin.java:422-465 | the next left result is dropped, buffered, rejected as unsorted, passed through, or closes the run (`MergeJoinSpec.NextLeft`) |
| MergeJoin.POMergeJoin.MatchRun | src/org/apache/pig/backend/hadoop/executionengine/physicalLayer/relationalOperators/POMergeJoin.java:467-493 | the read-ahead checks come before the right stream is advanced (`MergeJoinSpec.Match` and `ReadAhead`) |
| MergeJoin.POMergeJoin.JoinWith | src/org/apache/pig/backend/hadoop/executionengine/physicalLayer/relationalOperators/POMergeJoin.java:483-492 | a right tuple with the run's key starts the emission of the whole buffer, and the new left tuple and key replace `prevLeftInp` / `prevLeftKey` |
| MergeJoin.POMergeJoin.AdvanceRight | src/org/apache/pig/backend/hadoop/executionengine/physicalLayer/relationalOperators/POMergeJoin.java:495-562 | the right-advance loop with `slidingToNextRecord` ends as `MergeJoinSpec.Advance` says, including `Hang` on a repeated sparse seek |
| MergeJoin.POMergeJoin.AdvanceRightOnce | src/org/apache/pig/backend/hadoop/executionengine/physicalLayer/relationalOperators/POMergeJoin.java:506-512 | a non-OK right result is returned, a null right key goes round again without sliding |
| MergeJoin.POMergeJoin.AdvanceRightOnKey | src/org/apache/pig/backend/hadoop/executionengine/physicalLayer/relationalOperators/POMergeJoin.java:514-561 | a keyed right tuple: order check against `prevRightKey`, then slide, join or overshoot against `prevLeftKey` (`MergeJoinSpec.AdvanceOn`) |
| MergeJoin.POMergeJoin.Overshoot | src/org/apache/pig/backend/hadoop/executionengine/physicalLayer/relationalOperators/POMergeJoin.java:542-560 | the right tuple becomes the read-ahead one, the buffer becomes `[current left tuple]`, `prevLeftInp`/`prevLeftKey` move on, and the loader is closed only at the end of all input |
| MergeJoin.POMergeJoin.GetNextRightInp | src/org/apache/pig/backend/hadoop/executionengine/physicalLayer/relationalOperators/POMergeJoin.java:612-649 | the retry loop through the right pipeline returns the first tuple the leaf yields, EOP when the loader runs out, or a failure on ERR/NULL, and moves the cursor as `MergeJoinSpec.Fetch` says |
| MergeJoin.POMergeJoin.GetNextRightInpNear | src/org/apache/pig/backend/hadoop/executionengine/physicalLayer/relationalOperators/POMergeJoin.java:595-610 | only in sparse mode: seek near the key and clear `prevRightKey` before fetching; otherwise a plain fetch with `prevRightKey` kept |
| RightSource.RightLoader.GetNext | src/org/apache/pig/backend/hadoop/executionengine/physicalLayer/relationalOperators/POMergeJoin.java:614-620 | the next raw right row and a cursor one further, or null (None) at the end with the cursor unmoved |
| RightSource.RightLoader.SeekNear | src/org/apache/pig/backend/hadoop/executionengine/physicalLayer/relationalOperators/POMergeJoin.java:603 | the cursor moves to the index position for the key, never past the end |
| RightSource.RightLoader.Open | src/org/apache/pig/backend/hadoop/executionengine/physicalLayer/relationalOperators/POMergeJoin.java:565-576 | the right file is (re)opened and the cursor placed near the first left key |
| RightSource.RightLoader.Close | src/org/apache/pig/backend/hadoop/executionengine/physicalLayer/relationalOperators/POMergeJoin.java:553-558 | the loader is closed and has no rows left to give; a failure to close is only logged, so closing cannot fail |
| Types.SetupRightPipeline | src/org/apache/pig/backend/hadoop/executionengine/physicalLayer/relationalOperators/POMergeJoin.java:677-693 | a plan is rejected (2168) exactly when it has other than one root and one leaf; no plan means right tuples are used as read; an accepted plan's transform is the one used |
| MergeJoinProperties.DrainCycle | src/org/apache/pig/backend/hadoop/executionengine/physicalLayer/relationalOperators/POMergeJoin.java:347-361 | after a match starts, the next `n <= counter` calls return `leftTuples[counter-1]`, ..., `leftTuples[counter-n]`, each followed by the same right tuple, and change nothing but `counter` |
| MergeJoinProperties.EmitSound | src/org/apache/pig/backend/hadoop/executionengine/physicalLayer/relationalOperators/POMergeJoin.java:347-361 | in any mode and at the end of all input too, emitting keeps the invariant, and the emitted tuple splits into a left part and a right part whose keys are equal and not null |
| MergeJoinProperties.DrainSound | src/org/apache/pig/backend/hadoop/executionengine/physicalLayer/relationalOperators/POMergeJoin.java:344-419 | in the `doingJoin` branch, the final drain at the end of all input included, the invariant is kept, nothing hangs, and every emitted tuple splits into two parts with equal non-null keys |
| MergeJoinProperties.AdvanceSound | src/org/apache/pig/backend/hadoop/executionengine/physicalLayer/relationalOperators/POMergeJoin.java:495-562 | in dense mode, the end of all input included, the right-advance loop keeps the invariant, never hangs, and a tuple it emits splits into two parts with equal non-null keys |
| MergeJoinProperties.GetNextSound | src/org/apache/pig/backend/hadoop/executionengine/physicalLayer/relationalOperators/POMergeJoin.java:313-563 | in dense mode, the end of all input included, a call from a sound state does not hang; when it returns, the state is sound and a returned tuple splits into a left part and a right part with equal non-null keys |
| MergeJoinProperties.InitialSound | src/org/apache/pig/backend/hadoop/executionengine/physicalLayer/relationalOperators/POMergeJoin.java:80-132 | a fresh operator is in a sound state |
| MergeJoinProperties.RunSound | src/org/apache/pig/backend/hadoop/executionengine/physicalLayer/relationalOperators/POMergeJoin.java:313-563 | in dense mode, over any number of calls with the plan raising the end of all input once the left input is used up, as long as every call returns normally, every returned tuple splits into a left part and a right part with equal non-null keys |
| MergeJoinCases.FetchCases | src/org/apache/pig/backend/hadoop/executionengine/physicalLayer/relationalOperators/POMergeJoin.java:612-649 | without a pipeline the fetch returns the row under the cursor, or EOP at the end; with one, every row passed over is one the pipeline drops, a returned tuple is what the pipeline made of the last row read, ERR/NULL from the leaf is failure 2176 on that row, and EOP means every remaining row was dropped |
| MergeJoinCases.FirstCallCases | src/org/apache/pig/backend/hadoop/executionengine/physicalLayer/relationalOperators/POMergeJoin.java:318-342 | set-up: a non-OK status returned unchanged and a null key dropped, both with `firstTime` kept; a keyed tuple becomes the buffer and `prevLeftKey`, the cursor is placed near it, STATUS_NULL, and `prevLeftInp` is not set; a broken key plan is 2167 |
| MergeJoinCases.NextLeftCases | src/org/apache/pig/backend/hadoop/executionengine/physicalLayer/relationalOperators/POMergeJoin.java:422-465 | null key dropped, equal key appended (with `prevLeftInp` untouched), smaller key 1102, greater key sets `curJoinKey := prevLeftKey` and matches; EOP before the end, NULL and ERR returned unchanged; a broken key plan is 2167 |
| MergeJoinCases.EndOfInputCase | src/org/apache/pig/backend/hadoop/executionengine/physicalLayer/relationalOperators/POMergeJoin.java:449-458 | at the end of all input the pending run is matched with a null left tuple and key |
| MergeJoinCases.ReadAheadCases | src/org/apache/pig/backend/hadoop/executionengine/physicalLayer/relationalOperators/POMergeJoin.java:467-493 | a read-ahead key at or past the new left key restarts the buffer with the new tuple and reads nothing; a read-ahead key equal to the run's key emits the first joined tuple at once without reading |
| MergeJoinCases.AdvanceFetchCases | src/org/apache/pig/backend/hadoop/executionengine/physicalLayer/relationalOperators/POMergeJoin.java:496-504 | in sparse mode the first fetch of a loop seeks near `prevLeftKey` and clears `prevRightKey`, a second seek hangs; after a lower key, or in dense mode, the fetch is sequential |
| MergeJoinCases.AdvanceKeyCases | src/org/apache/pig/backend/hadoop/executionengine/physicalLayer/relationalOperators/POMergeJoin.java:506-561 | right EOP and failures returned; null key skipped; below a non-null `prevRightKey` is 1102; below `prevLeftKey` skipped with `prevRightKey` not updated; equal starts the join; above becomes the read-ahead tuple with buffer `[current left tuple]` and STATUS_NULL, the loader closed only at the end of all input |
| MergeJoinCases.AfterDrainCases | src/org/apache/pig/backend/hadoop/executionengine/physicalLayer/relationalOperators/POMergeJoin.java:365-418 | once `counter` is 0: right EOP clears `prevRightInp` and returns EOP; null key skipped; equal key re-emits the whole buffer; greater key saves the read-ahead and sets the buffer to `[prevLeftInp]` with STATUS_NULL, or at the end closes the loader and returns EOP; smaller key 1102 |
| MergeJoinCases.SparseAdvanceSkipsOrderCheck | src/org/apache/pig/backend/hadoop/executionengine/physicalLayer/relationalOperators/POMergeJoin.java:514-529 | in sparse mode the advance loop never raises "not sorted on right side": the seek clears `prevRightKey` and skipped rows never set it |
| MergeJoinCompleteness.MergeJoinComplete | src/org/apache/pig/backend/hadoop/executionengine/physicalLayer/relationalOperators/POMergeJoin.java:313-563 | in dense mode without a right pipeline, for an all-OK left input and a right file both sorted on non-null keys and an index that never seeks past a row it should return: the calls on a fresh operator, made until it stops, return exactly `Expected`, i.e. each run of equal left keys with every right tuple of that key, each pair once, run by run and the right tuples in file order, and the last call answers EOP |
| MergeJoinCompleteness.Drive | src/org/apache/pig/backend/hadoop/executionengine/physicalLayer/relationalOperators/POMergeJoin.java:313-563 | from any state of the run's invariant the plan's calls come to an end, and the last one answers EOP |
| MergeJoinCompleteness.DriveOwes | src/org/apache/pig/backend/hadoop/executionengine/physicalLayer/relationalOperators/POMergeJoin.java:313-563 | from any state of the run's invariant the calls until the operator stops return exactly what is still owed (`Rest`) |
| MergeJoinCompleteness.Step | src/org/apache/pig/backend/hadoop/executionengine/physicalLayer/relationalOperators/POMergeJoin.java:313-563 | a call from a state of the invariant either stops with EOP when nothing is owed, or returns the first tuples owed and leaves a state of the invariant that owes the rest and is closer to the end |
| MergeJoinCompleteness.StepFresh | src/org/apache/pig/backend/hadoop/executionengine/physicalLayer/relationalOperators/POMergeJoin.java:318-342 | the set-up call returns nothing and opens the right side at or before every partner of the first left tuple, so nothing owed is lost; with no left input the run ends |
| MergeJoinCompleteness.StepCollecting | src/org/apache/pig/backend/hadoop/executionengine/physicalLayer/relationalOperators/POMergeJoin.java:422-465 | reading the next left tuple: one of the same key joins the buffered run, and a greater key or the end of all input has the finished run matched, with nothing owed lost |
| MergeJoinCompleteness.MatchStep | src/org/apache/pig/backend/hadoop/executionengine/physicalLayer/relationalOperators/POMergeJoin.java:467-493 | a finished run owes its pairs with the read-ahead tuple and the rows ahead, then the next run's join: a read-ahead key at or past the new key restarts the buffer, a read-ahead key equal to the run's emits at once, otherwise the right stream is advanced |
| MergeJoinCompleteness.AdvanceStep | src/org/apache/pig/backend/hadoop/executionengine/physicalLayer/relationalOperators/POMergeJoin.java:495-562 | the advance loop skips rows below the run's key without losing a pair, starts emitting on an equal key, keeps a greater row as the next run's read-ahead (closing the loader at the end of all input), and owes nothing more once the rows run out |
| MergeJoinCompleteness.StepEmitting | src/org/apache/pig/backend/hadoop/executionengine/physicalLayer/relationalOperators/POMergeJoin.java:344-419 | while a match is emitted each call returns the next buffered tuple with the right tuple; with the buffer spent a right row of the same key emits the whole buffer again, and a greater one hands over to the next run |
| MergeJoinCompleteness.StepStarved | src/org/apache/pig/backend/hadoop/executionengine/physicalLayer/relationalOperators/POMergeJoin.java:422-465 | with the right rows used up nothing more is owed, and the calls read on through the left input to EOP |
| MergeJoinCompleteness.StepFinished | src/org/apache/pig/backend/hadoop/executionengine/physicalLayer/relationalOperators/POMergeJoin.java:495-507 | after the last run the closed loader is read once more and the call answers EOP |
| MergeJoinScenarios.CrossProductOfRuns | src/org/apache/pig/backend/hadoop/executionengine/physicalLayer/relationalOperators/POMergeJoin.java:313-563 | left keys 1, 1, 2 against right keys 1, 2, 2 give exactly four joined tuples (the two key-1 left tuples, last first, with the key-1 right tuple, and the key-2 left tuple with each key-2 right tuple), then EOP |
| MergeJoinScenarios.ReadAfterClose | src/org/apache/pig/backend/hadoop/executionengine/physicalLayer/relationalOperators/POMergeJoin.java:543-560 | left keys 1, 3 against right keys 1, 4, 5, 6: six calls answer NULL, the one joined tuple, NULL, EOP, then, after the end of all input, NULL with the loader closed, and EOP from the read of the closed loader |
| MergeJoinCases.SparseNullKeyHangs | src/org/apache/pig/backend/hadoop/executionengine/physicalLayer/relationalOperators/POMergeJoin.java:497-512 | in sparse mode a null-keyed right tuple found by the seek makes the loop seek again forever |

## Left out

- POSimpleTezLoad (the Tez input reader) is not part of this model. It is
  input plumbing, not join logic.
- Loader construction (`getRightLoader`, the Hadoop `Job`/`Configuration`,
  index files): the right side is a fixed run of rows with an index function.
  `RightLoader.Open` stands for `seekInRightStream`.
- SchemaTuple factories and conversion: the buffer is a plain sequence of
  tuple references.
- The `POLocalRearrange` key plans are abstract functions from a tuple to a
  key or a failure.
- An `IOException` from `seekNear` or from the loader (2176) is not
  modelled: the loader here cannot fail. A close failure is only logged.
- Right pipelines that yield several tuples for one raw tuple (for example a
  FLATTEN): the pipeline gives at most one tuple per raw row.
- `clone`, the copy constructor, `readObject`, `visit`, `name`, the getters
  and setters, and the Spark-specific flags (folded into `endOfAllInput`).
- Keys are integers compared numerically, not arbitrary Pig `Comparable`
  data.
- `leftTupSize`/`rightTupSize` are not fields here: they are the lengths of
  the two tuples being combined.
- MergeJoinProperties.GetNextSound: proved for the dense mode only. In
  sparse mode the invariant depends on the loader's index agreeing with the
  right file's order, which the model does not assume.
- MergeJoinProperties.AdvanceSound: dense mode only, for the same reason.
- MergeJoinProperties.RunSound: dense mode only, and it states soundness
  only: `Joined` says that a returned tuple splits into two parts with equal
  non-null keys, not that the parts are tuples taken from the inputs, nor
  that every pair is returned. Both are stated by
  `MergeJoinCompleteness.MergeJoinComplete`, under its narrower hypotheses.
- MergeJoinCompleteness.MergeJoinComplete: covers dense mode without a right
  pipeline, a left input of OK results only, both inputs sorted on non-null
  keys, and an index that never seeks past a row it should return. Sparse
  mode, pipelines, null keys, unsorted input (error 1102) and ERR/NULL
  results on the left are covered only call by call, by the soundness
  lemmas and the `MergeJoinCases` lemmas.
- RightSource.RightLoader.Close: the loader's own code is not part of this
  model, so what a read after `close()` returns is a modelling choice:
  nothing. The choice matters. At the end of all input the overshoot
  (POMergeJoin.java:543-560) closes the loader, sets `prevLeftKey` to null
  and returns STATUS_NULL. The plan then calls again, and that call reads the
  right side once more (:495-504). A loader that went on returning rows after
  `close()` would make that call compare the next key with the null
  `prevLeftKey` (:526), which throws a `NullPointerException`.
