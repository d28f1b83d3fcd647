# PyBaMM `Solution` composition and bookkeeping, in Dafny

This project models the part of PyBaMM's `Solution` class
(`pybamm/solvers/solution.py`) that is about trajectory segments and the
bookkeeping around them. It does not model the numerics. It proves what the
class promises about:

- **Segments.** A solution is a list of segments: times, state columns, a
  model and an input set per segment. The constructor wraps single values in
  lists and widens bare numbers in an input set to one-element vectors. The
  full time vector `t` is the concatenation of the segment times. Reading it
  fails when there is no segment to concatenate, or when some consecutive
  difference of that vector is not positive, which for finite times means it
  is not strictly increasing.
- **Composition.** `a + b` (`__add__`) has three rules:
  - a single point of `b` that repeats `a`'s last time continues `a`;
  - otherwise a repeated boundary sample is dropped;
  - otherwise the segments are concatenated verbatim.

  A continuation concatenates and adds nothing: it is a copy of `a` with `b`'s
  event and termination. The other two rules concatenate models, inputs,
  input vectors and `sub_solutions`, add the solve and integration times,
  leave the set-up time unset, and take the event and termination from `b`.
  `None + s` (`__radd__`) copies `s`, and `copy` carries everything over.
- **Boundary states.** `first_state` and `last_state` are one-point
  solutions with zero timings when the first (last) segment is non-empty.
  When it is empty they hold no time at all. They are memoised on first
  access.
- **Caches.** `__getitem__` and `update` keep two write-once caches:
  - the solution's processed variables, with their `data` kept in sync;
  - each model's compiled evaluators, compiled only on a miss.
- **Export.** `save_data` checks its input before writing:
  - empty data is an error;
  - short names are substituted;
  - MATLAB names must be identifiers;
  - CSV arrays must have fewer than two dimensions and form a table: at
    least one 1-D array, and all 1-D arrays of one length;
  - unknown formats are an error.
- **Cycles.**
  - `make_cycle_solution` folds a cycle's steps left to right.
  - `get_cycle_summary_variables` builds a cycle's summary: the capacities, the
    last value and change of each degradation variable, the state-of-health
    outputs and the "Theoretical capacity" alias.
  - `set_summary_variables` turns the per-cycle summaries into one list per
    name plus "Cycle number" = 1..n.

Modules, one file each, in dependency order:

| file | module | contents |
|---|---|---|
| outcomes.dfy | `Outcomes` | `Option`, `Result` with the library's error kinds |
| dicts.dfy | `Dicts` | an insertion-ordered dictionary, as Python's `dict` |
| trajectory.dfy | `Trajectory` | the `Solution` record, the constructor, `set_t` and the memoised `t` |
| composition.dfy | `Composition` | `copy`, `__add__`, `__radd__` and the time/column laws of a sum |
| boundary.dfy | `Boundary` | `first_state`, `last_state` and their memo |
| variables.dfy | `Variables` | `update` and `__getitem__` over the two caches |
| export.dfy | `Export` | `save_data` up to the point where a file would be written |
| cycles.dfy | `Cycles` | `make_cycle_solution`, `get_cycle_summary_variables`, `set_summary_variables` |

The model is functional:

- Each memo and cache is an explicit value that an operation takes and returns.
- A raised exception is an `Err` of `Result`.
- Compiling an expression, evaluating a processed variable and solving the
  electrode state-of-health model are function parameters (oracles).

Behaviour of the code worth noting:

- Bare numbers in the inputs are widened only when a single input set is
  passed (`solution.py:72-76`). A list of input sets is kept as given.
- Construction does not check the time vector. Only reading `t` does
  (`solution.py:116-128`).
- The identifier check applies to the MATLAB format. The CSV format rejects
  arrays of two or more dimensions and allows 0-D and 1-D ones
  (`solution.py:460-493`).
- `first_state` and `last_state` zero all three timings, not only the solve
  time (`solution.py:226-228, 255-257`).
- `update` processes every listed key again, even one already cached. Only
  `__getitem__` returns a cached variable without recomputing it
  (`solution.py:296-370`).

## Model

All source paths are in `pybamm/solvers/solution.py`.

| member | source | states |
|---|---|---|
| Trajectory.NormaliseInputs | pybamm/solvers/solution.py:72-76 | Every bare number of an input set becomes a one-element vector. Every other value, and the key order, are kept. |
| Trajectory.Make | pybamm/solvers/solution.py:47-111 | Construction succeeds exactly when there is a first model and a first input set (else an index error). The result holds the given segments, models, inputs, event and termination. Its timings are unset, it lists itself as its only sub-solution, and its input vectors are the input sets' values. |
| Trajectory.Construct | pybamm/solvers/solution.py:57-80 | Construction succeeds exactly when there is a model and an input set, and always with single arguments. Segments, columns and models are the given lists, or one-element lists of single values. A single input set becomes its widened form, with the same keys and no bare number left; a list of input sets is kept as given. The event, termination and timings are as in `Make`. |
| Trajectory.NormaliseIdempotent | pybamm/solvers/solution.py:72-76 | Widening an input set that is already widened changes nothing. |
| Trajectory.ConstructSingleAsList | pybamm/solvers/solution.py:57-80 | Single arguments construct the same solution as one-element lists with the input set widened beforehand, and that construction succeeds. |
| Trajectory.StepsDecideIncrease | pybamm/solvers/solution.py:127 | No consecutive difference is ≤ 0 if and only if every earlier time is smaller than every later one. |
| Trajectory.SetT | pybamm/solvers/solution.py:125-128 | `set_t` succeeds exactly when there is a segment and the concatenated segment times are strictly increasing, and then yields that concatenation. With no segment, `np.concatenate` fails; otherwise it is the strictly-increasing error. |
| Trajectory.ReadTimesAsWritten | pybamm/solvers/solution.py:116-128 | The property `t` as written: a memo hit returns the memo unchecked. With no segment, a miss fails and stores nothing. Otherwise a miss stores the concatenation whether or not the check passes, and returns the check's result. |
| Trajectory.StaleTimeRead | pybamm/solvers/solution.py:116-128 | For a time vector that is not strictly increasing, the first read of `t` fails and the second returns the rejected vector. |
| Trajectory.StaleTimeReadExample | pybamm/solvers/solution.py:116-128 | Segments [0, 1] and [1, 2]: the second read returns [0, 1, 1, 2], which is not strictly increasing. |
| Trajectory.ReadTimes | pybamm/solvers/solution.py:116-128 | `t` with the memo stored only after the check passes. Every read fails exactly when there is no segment or the concatenation is not strictly increasing, and otherwise returns it. The memo only ever holds the checked vector. |
| Composition.Copy | pybamm/solvers/solution.py:568-585 | A copy succeeds exactly when there is a first model and a first input set. It carries over the segments, models, inputs, input vectors, event, termination, all three timings and the sub-solutions, and keeps the symbolic flag. |
| Composition.Continue | pybamm/solvers/solution.py:512-524 | The continuation rule: a copy of `a` whose termination and events are `b`'s and whose content is otherwise `a`'s. |
| Composition.Concatenate | pybamm/solvers/solution.py:526-554 | The general rule succeeds exactly when `b` has a column block where its first time repeats, the operands have a model and an input set between them, and all four solve and integration times are set. A failure is an index error or a missing timing. Models, inputs, input vectors and sub-solutions are `a`'s followed by `b`'s. Solve and integration times are summed, and set-up time is unset. Event and termination come from `b`. `b`'s first segment loses its first time and first column exactly when that time repeats `a`'s last one. |
| Composition.Add | pybamm/solvers/solution.py:506-554 | A non-solution operand is a type error. A continuation is `Continue`. Otherwise the sum is `Concatenate` when both boundary times exist, and an index error when either is missing. A solution operand never gives a type error. |
| Composition.AddSucceeds | pybamm/solvers/solution.py:506-554 | `a + b` of two solutions succeeds exactly when: for a continuation, `a` has a model and an input set; otherwise both boundary times exist and the general rule's conditions hold. |
| Composition.AddTakesRightEvents | pybamm/solvers/solution.py:521-523 | Every successful sum stopped the way its right operand did: same termination, event time and event state. |
| Composition.RAdd | pybamm/solvers/solution.py:556-566 | `None + s` is a copy of `s` with the same content. It succeeds exactly when `s` has a first model and input set. Any other left operand is a type error. |
| Composition.AddJoinsTimes | pybamm/solvers/solution.py:512-533 | The flattened time vector of a sum is the independent `Join` of the operands' vectors: `b`'s first time is dropped exactly when it equals `a`'s last time. |
| Composition.AddJoinsColumns | pybamm/solvers/solution.py:529-533 | With one state column per time point in each operand, the sum keeps that shape. Its columns are `a`'s followed by `b`'s, without `b`'s first column exactly when the boundary time repeats. |
| Composition.AddKeepsTimesIncreasing | pybamm/solvers/solution.py:125-128 | If both operands have strictly increasing times and `b` starts no earlier than `a` ends, the sum's `t` succeeds. |
| Composition.SharedBoundaryExample | pybamm/solvers/solution.py:527-552 | Times [0, 1, 2] + [2, 3] give [0, 1, 2, 3] with one column per time, summed solve time and sub-solutions [a, b]. |
| Boundary.FirstState | pybamm/solvers/solution.py:204-231 | `first_state` succeeds exactly when all four lists are non-empty (else an index error). When the first segment is non-empty, it holds exactly the global first time and the first column of that segment; when it is empty, it holds no time and no column. It also holds the first model and input set, the first input vector and sub-solution. It has no event, termination "success" and all timings zero. |
| Boundary.LastState | pybamm/solvers/solution.py:233-260 | `last_state` succeeds exactly when all four lists are non-empty. When the last segment is non-empty, it holds exactly the global last time and the last column of that segment; when it is empty, it holds no time and no column. It also holds the last model, input set, input vector and sub-solution. It inherits the event and termination, and its timings are zero. |
| Boundary.FirstStateCached | pybamm/solvers/solution.py:211-231 | A memo hit returns the memo. A miss computes `first_state` and stores it when it succeeds. The other memo is untouched, and a sound memo stays sound. |
| Boundary.LastStateCached | pybamm/solvers/solution.py:240-260 | The same for `last_state`. |
| Boundary.BoundaryStatesMemoised | pybamm/solvers/solution.py:204-260 | After a successful access, the next access returns the same state and leaves the memo as it is. |
| Variables.Resolve | pybamm/solvers/solution.py:311-340 | The loop over the models gives one evaluator per model, each the one stored on that model for the key afterwards. No stored evaluator is dropped or replaced. |
| Variables.ResolveAddsOnly | pybamm/solvers/solution.py:315-339 | The only new evaluators are for the key, on the listed models. |
| Variables.ResolveCompilesMissing | pybamm/solvers/solution.py:315-339 | The loop compiles exactly the models that had no evaluator for the key, each once. |
| Variables.ResolveConsistent | pybamm/solvers/solution.py:315-339 | A store that holds what compilation gives stays that way, and every evaluator used is the freshly compiled one. |
| Variables.NothingNewWhenAllPresent | pybamm/solvers/solution.py:315-316 | When every model already has an evaluator for the key, nothing is compiled and the store is unchanged. |
| Variables.Evaluate | pybamm/solvers/solution.py:300-342 | The reference processed variable, built with no cache. With symbolic inputs it succeeds exactly when the first model has the key. Otherwise it succeeds exactly when every model has it, with one evaluator per zipped segment. |
| Variables.Process | pybamm/solvers/solution.py:296-342 | Processing one key succeeds exactly when the reference does, with the same error. It only adds evaluators for the key on the zipped models, compiling exactly the missing ones. Over a consistent store it yields the reference variable. |
| Variables.EmptyCache | pybamm/solvers/solution.py:101-102 | The fresh variable and data maps are in sync. |
| Variables.Record | pybamm/solvers/solution.py:345-346 | The variable is stored under the key and its data in `data`. Every other entry of both maps is unchanged, and the maps stay in sync. |
| Variables.UpdateKeys | pybamm/solvers/solution.py:296-346 | After a successful `update`, every listed key is cached. Keys not listed keep their entries, and the maps stay in sync. |
| Variables.UpdateKeysSound | pybamm/solvers/solution.py:296-346 | `update` only adds evaluators. A failure is the reference error of one of the keys. Consistent stores and faithful caches stay so. |
| Variables.Update | pybamm/solvers/solution.py:290-296 | A single name is a one-element list. Each listed key is cached afterwards, and for one name the cached variable is the reference one. |
| Variables.GetItem | pybamm/solvers/solution.py:348-370 | A cached key is returned with no other change. A missing key is processed and recorded: success exactly when the reference succeeds, with the reference error and untouched caches otherwise. The caches are write-once and evaluators are only added for the key. |
| Variables.GetItemIdempotent | pybamm/solvers/solution.py:364-366 | A second lookup of a key returns the same variable and changes nothing. |
| Variables.GetItemIsEvaluate | pybamm/solvers/solution.py:348-370 | Over a consistent store and faithful cache, a lookup is the reference evaluation. |
| Variables.EvaluatorsShared | pybamm/solvers/solution.py:315-339 | A second solution over models of the first compiles nothing and leaves the store as the first lookup left it. |
| Export.FirstInvalidChar | pybamm/solvers/solution.py:468-474 | The position of the first character MATLAB rejects, if any. Letters and `_` are allowed anywhere, digits anywhere but first. |
| Export.CheckMatlabNames | pybamm/solvers/solution.py:460-484 | Succeeds exactly when every name is an identifier. The error names the first offending character and its name. |
| Export.CheckZeroDimensional | pybamm/solvers/solution.py:486-493 | Succeeds exactly when every array has fewer than two dimensions. The error names the first offending variable and its dimension minus one. |
| Export.RenameFrom | pybamm/solvers/solution.py:448-455 | The renamed keys are exactly the old ones plus the saved names. Entries not overwritten are kept. |
| Export.RenameFromValues | pybamm/solvers/solution.py:448-455 | When no two names collide, each array is saved under its name's saved name. |
| Export.RenameFromOrder | pybamm/solvers/solution.py:448-455 | When no two names collide, the saved names follow the data's order. |
| Export.ApplyShortNames | pybamm/solvers/solution.py:447-455 | The renamed data is a well-formed dictionary whose keys are exactly the saved names. |
| Export.ShortNamesKeepArrays | pybamm/solvers/solution.py:447-455 | When no two names collide, the renamed data keeps every array under its saved name, in order. |
| Export.ShortNameCollision | pybamm/solvers/solution.py:447-455 | Mapping `a` to an existing name `b` keeps only `b`, with `b`'s array: the later entry overwrites. |
| Export.CollectData | pybamm/solvers/solution.py:436-438 | Reading the listed variables keeps the caches write-once and in sync. Each name maps to the `.data` of its cached variable. |
| Export.CollectDataSound | pybamm/solvers/solution.py:436-438 | The reads only add evaluators. A failure is the reference error of one of the names, and consistency and faithfulness are kept. |
| Export.CollectedIsEvaluated | pybamm/solvers/solution.py:436-438 | Over a consistent store and faithful cache, each collected array is the reference evaluation's data. |
| Export.CollectDataSucceeds | pybamm/solvers/solution.py:436-438 | Over a consistent store and faithful cache, collecting succeeds when every requested name can be evaluated. |
| Export.CollectDataOrder | pybamm/solvers/solution.py:436-438 | Distinct requested names are collected in the order they were requested. |
| Export.Collect | pybamm/solvers/solution.py:430-438 | With no variable list, the data cache is taken as it is. Otherwise the data's keys are exactly the listed names. |
| Export.CheckFormat | pybamm/solvers/solution.py:457-497 | Pickle always succeeds. MATLAB succeeds exactly when all names are identifiers. CSV succeeds exactly when all arrays have fewer than two dimensions and they form a table for `pd.DataFrame`: at least one 1-D array, all 1-D arrays of one length. Any other format is an unknown-format error. |
| Export.CsvNeedsEqualLengths | pybamm/solvers/solution.py:486-494 | 1-D arrays of lengths 3 and 4 pass the dimension check but fail the CSV export; two of length 3 succeed. |
| Export.ExportData | pybamm/solvers/solution.py:439-497 | Empty data is an error. Otherwise short names are applied and the format is checked. On success every name's saved name is present, in the requested format. |
| Export.ExportKeepsArrays | pybamm/solvers/solution.py:439-497 | A non-empty dictionary whose saved names do not collide always pickles. Every successful export keeps each array under its saved name, in the data's order. |
| Export.SaveData | pybamm/solvers/solution.py:430-497 | With no list, the computed data is exported as it is. An empty list is the empty-data error. |
| Export.SaveDataFailures | pybamm/solvers/solution.py:430-497 | Every failure of `save_data` has one of these causes: a variable that cannot be evaluated, empty data, an unknown format, a non-identifier or a high-dimensional array. |
| Export.SaveDataSavesRequested | pybamm/solvers/solution.py:436-455 | On success every requested name appears under its saved name. |
| Export.SaveDataSucceeds | pybamm/solvers/solution.py:430-497 | With distinct listed variables that all evaluate and whose saved names do not collide, pickling succeeds. In every format that succeeds, each variable's evaluated array is saved under its saved name, in the requested order. |
| Cycles.FoldAdd | pybamm/solvers/solution.py:609-611 | Summing no steps gives the accumulator. A fold of solutions never fails with a type error. |
| Cycles.FoldTakesLastEvents | pybamm/solvers/solution.py:609-611 | A successful fold stopped the way its last step did. |
| Cycles.FoldConstructed | pybamm/solvers/solution.py:609-611 | Summing steps onto a solution with a first model and input set gives a solution that still has them. |
| Cycles.CombineSteps | pybamm/solvers/solution.py:609-611 | No steps is an index error (`steps[0]`). Otherwise a successful result has a first model and input set and stopped the way the last step did. It is never a type error. |
| Cycles.AddAccumulates | pybamm/solvers/solution.py:506-554 | Adding a step with both boundary times, a column block and set timings to a running sum with a model, an input set, a last time and set timings succeeds, and the sum can take the next step. |
| Cycles.FoldSucceeds | pybamm/solvers/solution.py:609-611 | Steps that can each be added fold onto such a running sum without error. |
| Cycles.CombineStepsSucceeds | pybamm/solvers/solution.py:609-611 | Steps that each have both boundary times, a column block and set timings, the first also a model and an input set, always combine. |
| Cycles.FoldJoinsTimes | pybamm/solvers/solution.py:609-611 | The fold's time vector is the steps' vectors joined left to right by `Join`. |
| Cycles.AddEndsWithRight | pybamm/solvers/solution.py:512-533 | A sum ends at its right operand's last time. |
| Cycles.FoldKeepsTimesIncreasing | pybamm/solvers/solution.py:609-611 | Steps with strictly increasing times, each starting no earlier than the previous one ends, fold into a solution whose `t` succeeds. |
| Cycles.CombinedTimes | pybamm/solvers/solution.py:609-611 | The cycle's time vector is the steps' vectors joined in order, and it is strictly increasing when the steps meet in order. |
| Cycles.Minimum | pybamm/solvers/solution.py:643 | `np.min` fails on an empty array. Otherwise it is an entry no larger than any entry. |
| Cycles.Maximum | pybamm/solvers/solution.py:644 | `np.max` fails on an empty array. Otherwise it is an entry no smaller than any entry. |
| Cycles.CapacitySummary | pybamm/solvers/solution.py:643-652 | The three capacity entries in order: the minimum and maximum are entries bounding every discharge capacity, and the measured capacity is their difference. |
| Cycles.Capacities | pybamm/solvers/solution.py:642-652 | The capacity entries of a cycle have exactly the three names, bound the discharge-capacity data, and hold the measured capacity as maximum minus minimum. |
| Cycles.CapacitiesOutcome | pybamm/solvers/solution.py:642-644 | Reading the capacities succeeds exactly when the discharge capacity can be read and is non-empty. Otherwise it fails with that read's error, or on the empty array in `np.min`. |
| Cycles.ChangeNamesApart | pybamm/solvers/solution.py:689-690 | Names starting with an upper-case letter have distinct change names, and one not starting with 'C' is no change name. |
| Cycles.DegradationVariablesSeparated | pybamm/solvers/solution.py:654-682 | Every degradation variable is non-empty and starts with an upper-case letter other than 'C' (and not 'M'). None is "Theoretical capacity [A.h]". |
| Cycles.ReadChange | pybamm/solvers/solution.py:686-692 | Reading a variable at both boundary states succeeds exactly when both reads and both `[0]` succeed. The last value is `data_last[0]` and the change is `data_last[0] - data_first[0]`. A failure is an index error or one of the two reads' errors. |
| Cycles.AddDegradation | pybamm/solvers/solution.py:685-692 | The loop succeeds exactly when every tracked variable can be read, and keeps the summary well formed. |
| Cycles.DegradationKeys | pybamm/solvers/solution.py:685-692 | The summary's keys afterwards are exactly the old ones, the tracked names and their change names. |
| Cycles.DegradationKeepsOthers | pybamm/solvers/solution.py:685-692 | Entries that are neither tracked nor change names are kept. |
| Cycles.DegradationValues | pybamm/solvers/solution.py:685-692 | For separated names, each tracked name holds its last value and its change name holds the change. |
| Cycles.MergeKeys | pybamm/solvers/solution.py:721-722 | Each output overwrites or adds its key. Every other entry is kept. |
| Cycles.Merge | pybamm/solvers/solution.py:721-722 | The same over all outputs of the solve. |
| Cycles.SolveInputs | pybamm/solvers/solution.py:694-719 | The state-of-health inputs: the cut-off voltages, the last-state electrode capacities and particle lithium, the maximum negative-electrode state of charge, and the measured capacity. They can be read exactly when the three last-state reads and their `[0]` succeed and the state-of-charge data is non-empty. A failure is an index error, an empty array or one of the reads' errors. |
| Cycles.Finish | pybamm/solvers/solution.py:721-724 | A failed solve is an error. Otherwise the summary succeeds exactly when "C" is present, and a missing "C" is a key error. |
| Cycles.FinishEntries | pybamm/solvers/solution.py:721-724 | After the merge, the keys are the summary's, the outputs' and the alias. Outputs overwrite, and the alias equals "C". |
| Cycles.SummaryOver | pybamm/solvers/solution.py:641-726 | The summary's errors come in the source's order: the capacity read first, then the boundary states. A summary is a well-formed dictionary. |
| Cycles.CycleSummary | pybamm/solvers/solution.py:641-726 | `get_cycle_summary_variables` yields a well-formed dictionary. |
| Cycles.SummaryNamesApart | pybamm/solvers/solution.py:646-690 | The capacity names, the alias and "C" are distinct from each other, from the degradation variables and from their change names. |
| Cycles.SummaryCapacities | pybamm/solvers/solution.py:646-652 | The capacity entries survive into the finished summary. |
| Cycles.SummaryDegradation | pybamm/solvers/solution.py:685-692 | Each tracked variable's last value and change survive into the finished summary. |
| Cycles.SummaryTheoretical | pybamm/solvers/solution.py:724 | "Theoretical capacity" equals the solve's output "C". |
| Cycles.CycleCapacities | pybamm/solvers/solution.py:642-652 | In a cycle's summary, minimum and maximum are entries of the discharge-capacity data bounding all of it, and measured capacity is their difference. |
| Cycles.CycleDegradation | pybamm/solvers/solution.py:683-692 | In a cycle's summary, each degradation variable `v` holds its last-state `data[0]`, and "Change in " + lower(v[0]) + v[1:] holds last minus first. |
| Cycles.CycleTheoretical | pybamm/solvers/solution.py:694-724 | In a cycle's summary, "Theoretical capacity [A.h]" equals the output "C" of the solve on the cycle's inputs. |
| Cycles.DegradationFailure | pybamm/solvers/solution.py:685-692 | A failed degradation loop reports the error of some tracked variable's reading. |
| Cycles.SummaryOverSucceeds | pybamm/solvers/solution.py:641-726 | The summary succeeds exactly when the capacities and boundary states exist, every tracked variable can be read, the solve's inputs can be read, and the solve succeeds with an output "C". |
| Cycles.SummaryOverFailures | pybamm/solvers/solution.py:641-726 | A failed summary reports the capacity read's error, the boundary states' error, a tracked variable's error, the input read's error, a failed solve, or a missing "C". |
| Cycles.CycleSummarySucceeds | pybamm/solvers/solution.py:641-726 | `get_cycle_summary_variables` succeeds exactly when the discharge capacity is readable and non-empty, the cycle has boundary states, every degradation variable has a first entry in both states, the solve's inputs can be read, and the solve succeeds with an output "C". |
| Cycles.CycleSummaryFailures | pybamm/solvers/solution.py:641-726 | `get_cycle_summary_variables` raises only an index error, an empty array, an unknown variable, a failed solve or a missing "C". |
| Cycles.MakeCycleSolution | pybamm/solvers/solution.py:588-638 | No steps is an index error, and a failed sum is that error. Otherwise it succeeds exactly when the summary of the rebuilt sum does, and fails with the summary's error. The summary is that of the rebuilt sum. The cycle is kept exactly when it is saved, with the sum's content, the steps, the summary and the last step's termination. |
| Cycles.EmptyColumns | pybamm/solvers/solution.py:279 | One empty list per name of the first cycle, in its order. |
| Cycles.AppendItems | pybamm/solvers/solution.py:281-282 | Appending one cycle succeeds exactly when all its names are columns. Otherwise the error names a missing one. Each named column gains exactly that cycle's value, and the others are unchanged. |
| Cycles.AppendCycles | pybamm/solvers/solution.py:280-282 | The loop over the cycles keeps the column names and their order, and an error names a missing column. |
| Cycles.AppendCyclesColumns | pybamm/solvers/solution.py:280-282 | Each column ends as it started, followed by the name's values over the cycles (`Column`). |
| Cycles.AppendCyclesSucceeds | pybamm/solvers/solution.py:280-282 | The loop succeeds exactly when every name of every cycle is a column. An error names a name some cycle has. |
| Cycles.SetSummaryVariables | pybamm/solvers/solution.py:278-288 | An empty list fails on `[0]`. Otherwise the columns are the first cycle's names plus "Cycle number". Each column holds that name's values over the cycles, and "Cycle number" is 1..n. |
| Cycles.SummaryVariablesSucceed | pybamm/solvers/solution.py:278-288 | `set_summary_variables` succeeds exactly when the list is non-empty and no cycle has a name the first lacks. An error names a name of some cycle. |
| Cycles.ColumnPerCycle | pybamm/solvers/solution.py:278-288 | When every cycle has the name, its column holds one value per cycle, in cycle order. |

## Left out

- `y` and `set_y` (horizontal stacking of state matrices across models): numerics. `AddJoinsColumns` states only how the columns concatenate.
- Time- and length-scale evaluation in the constructor, the citation registration and the logger: side effects with no bookkeeping to state.
- `has_symbolic_inputs`: the check `isinstance(v, casadi.MX)` becomes a `Symbolic` input value, and the flag is a field.
- CasADi compilation (`MX.sym`, `to_casadi`, `casadi.Function`): an oracle `compile(model, key)`. `ProcessedVariable` and `ProcessedSymbolicVariable` evaluation: oracles returning the `.data` array.
- Variables.GetItemIsEvaluate and Variables.EvaluatorsShared: the evaluator's dependence on the segment it was first compiled for is not modelled. The source builds it over symbols sized by that segment's state and inputs (`solution.py:318-323`) and caches it per model (`solution.py:338`). A later segment or solution over the same model reuses it whatever its state size or input sizes, so the cache is transparent only when those agree.
- `FuzzyDict`: exact key lookup only. Fuzzy suggestions on a missing key are not modelled.
- File I/O: `save`, `clear_casadi_attributes`, pickling, `savemat` and `to_csv`. `save_data` returns the format and renamed data it would write.
- `plot`, `total_time`, the `cycles` property and the plain getters and setters: no logic beyond a field access.
- The electrode state-of-health simulation (`solution.py:694-722`): `build`, `set_initial_conditions_from` and `solve` are one oracle from an input record to an optional dictionary. The record holds:
  - the two cut-off voltages read from its parameter values;
  - the initial conditions `x_100` and `C`;
  - the solve inputs.

  `None` means the solve failed.
- `np.array` conversion of the summary columns in `set_summary_variables`: the columns stay sequences.
- Integer vs float in the summaries: all values are reals, and `range(1, n + 1)` becomes reals 1..n.
- Lower-casing a variable's first character (`LowerChar`) maps ASCII letters only; `str.lower` also maps other Unicode letters. Every degradation variable starts with an ASCII letter.
- `data[0]` (`Head`): an array of two or more dimensions is its flat entries, so `data[0]` there is the first entry, not the first row.
- Cycles.SummaryCapacities: assumes the state-of-health outputs reuse no capacity name, degradation variable or "Change in" name (`OutputsApart`). In the source such an output would overwrite the entry.
- Cycles.SummaryDegradation: assumes the same `OutputsApart` hypothesis.
- Cycles.CycleCapacities: assumes the same `OutputsApart` hypothesis.
- Cycles.CycleDegradation: assumes the same `OutputsApart` hypothesis.
- Cycles.SummaryOver: the summary is written generically, over the names it writes (`Names`) and the outcomes of its reads. `SummaryNamesApart` discharges its `Apart` hypothesis for the source's names.
- Cycles.AddDegradation: requires non-empty tracked names, where the source would raise on `var[0]`. The tracked names are a constant list of non-empty names.
- Cycles.CycleSummary: requires that the state-of-health solve returns well-formed dictionaries (`ReturnsDicts`).
- Cycles.MakeCycleSolution: requires the same `ReturnsDicts` hypothesis.
- Cycles.DegradationValues: requires the tracked names to start with an upper-case letter other than 'C' (`Separated`), which the source's list does.
- Trajectory.Make: the time vector is not checked at construction, as in the source.
- Floating point: times, columns and summary values are reals. NaN and infinities are not modelled. `np.diff(t) <= 0` is False at a NaN (`solution.py:127`), so the source's `set_t` accepts [0, nan, 1] and [inf, inf], which `SetT` cannot represent.
- Trajectory.NormaliseInputs: returns a new input set. The source writes the widened arrays back into the caller's dictionary (`solution.py:75`), and that aliasing is not modelled.
- Cycles.MakeCycleSolution: the caches that `get_cycle_summary_variables` fills on the returned `cycle_solution` are not modelled (`solution.py:642, 683-684, 706`). Those are `_variables` and `data` for "Discharge capacity [A.h]" and "Negative electrode SOC", the `_first_state` and `_last_state` memos, and the models' compiled evaluators. The summary reads through cache-free reads, and `Cycle` carries no cache, so a later `save_data` on the returned cycle starts from an empty cache.

## Findings

| source | as written | input that shows it | evidently intended | confidence | as-written member | corrected member |
|---|---|---|---|---|---|---|
| pybamm/solvers/solution.py:116-128 | `set_t` assigns `self._t` before it checks the vector. After the first read of `t` raises, the memo holds the rejected vector, and the next read returns it without the check. | Segments [0, 1] and [1, 2]: the first read fails, the second returns [0, 1, 1, 2]. | Every read of `t` either fails or returns a strictly increasing vector. | not executed | Trajectory.ReadTimesAsWritten (with Trajectory.StaleTimeRead and Trajectory.StaleTimeReadExample) | Trajectory.ReadTimes |
