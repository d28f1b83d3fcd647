/** Cycle aggregation (pybamm/solvers/solution.py): `make_cycle_solution`
    folds the step solutions of one cycle into a cycle solution,
    `get_cycle_summary_variables` builds the cycle's summary map, and
    `set_summary_variables` turns the per-cycle maps into one map of lists.
    The electrode state-of-health model solved inside the summary is an
    oracle that returns a map of outputs. */
module Cycles {
  import opened Outcomes
  import opened Dicts
  import opened Trajectory
  import opened Composition
  import opened Variables
  import Boundary

  // ---------------------------------------------------------------------------
  // Folding the steps of a cycle

  /** `for step_solution in steps: sum_sols = sum_sols + step_solution` */
  function FoldAdd(acc: Solution, steps: seq<Solution>): (r: Result<Solution>)
    ensures |steps| == 0 ==> r == Ok(acc)
    ensures r.Err? ==> r.error != TypeMismatch
    decreases |steps|
  {
    if |steps| == 0 then Ok(acc)
    else
      var next :- Add(acc, SolutionValue(steps[0]));
      FoldAdd(next, steps[1..])
  }

  /** The fold ends with the termination and event of the last step. */
  lemma {:induction false} FoldTakesLastEvents(acc: Solution, steps: seq<Solution>)
    ensures FoldAdd(acc, steps).Ok? && |steps| > 0 ==> EndsAs(FoldAdd(acc, steps).value, steps[|steps| - 1])
    decreases |steps|
  {
    if |steps| > 0 && FoldAdd(acc, steps).Ok? {
      var next := Add(acc, SolutionValue(steps[0])).value;
      var rest := steps[1..];
      assert FoldAdd(acc, steps) == FoldAdd(next, rest);
      if |rest| == 0 {
        AddTakesRightEvents(acc, steps[0]);
      } else {
        FoldTakesLastEvents(next, rest);
        assert rest[|rest| - 1] == steps[|steps| - 1];
      }
    }
  }

  /** Every successful fold from a constructed solution is a constructed
      solution: it has a first model and a first input set. */
  lemma {:induction false} FoldConstructed(acc: Solution, steps: seq<Solution>)
    ensures Constructed(acc) && FoldAdd(acc, steps).Ok? ==> Constructed(FoldAdd(acc, steps).value)
    decreases |steps|
  {
    if |steps| > 0 && FoldAdd(acc, steps).Ok? {
      var sum := Add(acc, SolutionValue(steps[0]));
      assert Constructed(sum.value) by {
        if IsContinuation(acc, steps[0]) {
          assert sum == Continue(acc, steps[0]);
        } else {
          assert sum == Concatenate(acc, steps[0]);
        }
      }
      FoldConstructed(sum.value, steps[1..]);
    }
  }

  /** A running sum that can take another step: a model and an input set,
      a last time, and both timings set. */
  predicate CanAccumulate(a: Solution) {
    |a.allModels| > 0 && |a.allInputs| > 0 && HasLastTime(a)
    && a.solveTime.Some? && a.integrationTime.Some?
  }

  /** A step that can be added: both boundary times, a column block, and
      both timings set. */
  predicate CanBeAdded(b: Solution) {
    HasFirstTime(b) && HasLastTime(b) && |b.allYs| > 0
    && b.solveTime.Some? && b.integrationTime.Some?
  }

  /** Adding a step to a running sum succeeds, and the sum can take the
      next step. */
  lemma AddAccumulates(a: Solution, b: Solution)
    requires CanAccumulate(a) && CanBeAdded(b)
    ensures Add(a, SolutionValue(b)).Ok? && CanAccumulate(Add(a, SolutionValue(b)).value)
  {
    AddSucceeds(a, b);
    AddEndsWithRight(a, b);
    if IsContinuation(a, b) {
      assert Add(a, SolutionValue(b)) == Continue(a, b);
    } else {
      assert Add(a, SolutionValue(b)) == Concatenate(a, b);
    }
  }

  /** Steps that can each be added fold onto a running sum without error. */
  lemma {:induction false} FoldSucceeds(acc: Solution, steps: seq<Solution>)
    requires CanAccumulate(acc)
    requires forall i :: 0 <= i < |steps| ==> CanBeAdded(steps[i])
    ensures FoldAdd(acc, steps).Ok?
    decreases |steps|
  {
    if |steps| > 0 {
      AddAccumulates(acc, steps[0]);
      var next := Add(acc, SolutionValue(steps[0])).value;
      assert forall i :: 0 <= i < |steps[1..]| ==> steps[1..][i] == steps[i + 1];
      FoldSucceeds(next, steps[1..]);
    }
  }

  /** `steps[0].copy()` followed by the fold; an empty list of steps fails on
      `steps[0]`. */
  function CombineSteps(steps: seq<Solution>): (r: Result<Solution>)
    ensures |steps| == 0 ==> r == Err(IndexOutOfRange)
    ensures r.Ok? ==> Constructed(r.value) && EndsAs(r.value, steps[|steps| - 1])
    ensures r.Err? ==> r.error != TypeMismatch
  {
    if |steps| == 0 then Err(IndexOutOfRange)
    else
      var first :- Copy(steps[0]);
      FoldTakesLastEvents(first, steps[1..]);
      FoldConstructed(first, steps[1..]);
      FoldAdd(first, steps[1..])
  }

  /** The flattened time vectors of `steps`. */
  function TimesOf(steps: seq<Solution>): (r: seq<seq<real>>)
    ensures |r| == |steps|
    ensures forall i :: 0 <= i < |steps| ==> r[i] == Concat(steps[i].allTs)
  {
    seq(|steps|, i requires 0 <= i < |steps| => Concat(steps[i].allTs))
  }

  /** Reference definition: the time vectors joined left to right. */
  function JoinAll(t: seq<real>, us: seq<seq<real>>): seq<real>
    decreases |us|
  {
    if |us| == 0 then t else JoinAll(Join(t, us[0]), us[1..])
  }

  /** The fold's time vector is the steps' time vectors joined left to right. */
  lemma {:induction false} FoldJoinsTimes(acc: Solution, steps: seq<Solution>)
    requires FoldAdd(acc, steps).Ok?
    ensures Concat(FoldAdd(acc, steps).value.allTs) == JoinAll(Concat(acc.allTs), TimesOf(steps))
    decreases |steps|
  {
    if |steps| > 0 {
      var next := Add(acc, SolutionValue(steps[0])).value;
      AddJoinsTimes(acc, steps[0]);
      FoldJoinsTimes(next, steps[1..]);
      assert TimesOf(steps[1..]) == TimesOf(steps)[1..];
    }
  }

  /** A sum ends at the last time of its right operand. */
  lemma AddEndsWithRight(a: Solution, b: Solution)
    requires Add(a, SolutionValue(b)).Ok?
    requires HasLastTime(b)
    ensures HasLastTime(Add(a, SolutionValue(b)).value)
    ensures LastTime(Add(a, SolutionValue(b)).value) == LastTime(b)
  {
    if IsContinuation(a, b) {
      ContinueEndsWithRight(a, b);
    } else {
      assert Add(a, SolutionValue(b)) == Concatenate(a, b);
      JoinedEndsWithRight(a, b, Add(a, SolutionValue(b)).value);
    }
  }

  lemma ContinueEndsWithRight(a: Solution, b: Solution)
    requires IsContinuation(a, b) && Continue(a, b).Ok?
    ensures HasLastTime(Continue(a, b).value)
    ensures LastTime(Continue(a, b).value) == LastTime(b)
  {
    assert Continue(a, b).value.allTs == a.allTs;
  }

  lemma JoinedEndsWithRight(a: Solution, b: Solution, r: Solution)
    requires HasFirstTime(b) && HasLastTime(a) && HasLastTime(b) && !IsContinuation(a, b)
    requires r.allTs == JoinSegments(a.allTs, b.allTs, RepeatsBoundary(a, b))
    ensures HasLastTime(r) && LastTime(r) == LastTime(b)
  {
    var repeated := RepeatsBoundary(a, b);
    assert repeated && |b.allTs| == 1 ==> |b.allTs[0]| > 1;
    JoinSegmentsEnd(a.allTs, b.allTs, repeated);
  }

  /** Joining keeps the last sample of the right-hand segments, unless the
      only one is dropped. */
  lemma JoinSegmentsEnd<T>(x: seq<seq<T>>, y: seq<seq<T>>, repeated: bool)
    requires |y| > 0 && |y[|y| - 1]| > 0
    requires repeated && |y| == 1 ==> |y[0]| > 1
    ensures var j := JoinSegments(x, y, repeated);
            |j| > 0 && |j[|j| - 1]| > 0 && j[|j| - 1][|j[|j| - 1]| - 1] == y[|y| - 1][|y[|y| - 1]| - 1]
  {
  }

  /** Steps that each have a model, an input set, both boundary times, a
      column block and both timings set always combine. */
  lemma CombineStepsSucceeds(steps: seq<Solution>)
    requires |steps| > 0 && |steps[0].allModels| > 0 && |steps[0].allInputs| > 0
    requires forall i :: 0 <= i < |steps| ==> CanBeAdded(steps[i])
    ensures CombineSteps(steps).Ok?
  {
    var first := Copy(steps[0]).value;
    assert forall i :: 0 <= i < |steps[1..]| ==> steps[1..][i] == steps[i + 1];
    FoldSucceeds(first, steps[1..]);
  }

  /** Every step is a valid trajectory and each starts no earlier than the
      previous one ends. */
  ghost predicate Chained(steps: seq<Solution>) {
    && (forall i :: 0 <= i < |steps| ==>
          HasFirstTime(steps[i]) && HasLastTime(steps[i]) && SetT(steps[i]).Ok?)
    && (forall i :: 0 < i < |steps| ==> LastTime(steps[i - 1]) <= steps[i].allTs[0][0])
  }

  lemma {:induction false} FoldKeepsTimesIncreasing(acc: Solution, steps: seq<Solution>)
    requires FoldAdd(acc, steps).Ok?
    requires SetT(acc).Ok? && HasLastTime(acc)
    requires Chained(steps)
    requires |steps| > 0 ==> LastTime(acc) <= steps[0].allTs[0][0]
    ensures SetT(FoldAdd(acc, steps).value).Ok?
    decreases |steps|
  {
    if |steps| > 0 {
      var next := Add(acc, SolutionValue(steps[0])).value;
      AddKeepsTimesIncreasing(acc, steps[0]);
      AddEndsWithRight(acc, steps[0]);
      assert Chained(steps[1..]) by {
        assert forall i :: 0 <= i < |steps[1..]| ==> steps[1..][i] == steps[i + 1];
      }
      if |steps| > 1 {
        assert LastTime(next) == LastTime(steps[0]) <= steps[1].allTs[0][0];
      }
      FoldKeepsTimesIncreasing(next, steps[1..]);
    }
  }

  /** Steps that are valid trajectories meeting in order combine into a valid
      trajectory whose time vector is theirs joined left to right. */
  lemma CombinedTimes(steps: seq<Solution>)
    requires CombineSteps(steps).Ok?
    ensures Concat(CombineSteps(steps).value.allTs) == JoinAll(Concat(steps[0].allTs), TimesOf(steps[1..]))
    ensures Chained(steps) ==> SetT(CombineSteps(steps).value).Ok?
  {
    var first := Copy(steps[0]).value;
    FoldJoinsTimes(first, steps[1..]);
    if Chained(steps) {
      assert Chained(steps[1..]) by {
        assert forall i :: 0 <= i < |steps[1..]| ==> steps[1..][i] == steps[i + 1];
      }
      FoldKeepsTimesIncreasing(first, steps[1..]);
    }
  }

  // ---------------------------------------------------------------------------
  // Reading arrays

  /** `solution[name].data`, read without caches; through the caches the
      value is the same (`Variables.GetItemIsEvaluate`). */
  function Data(s: Solution, name: string, oracle: Oracle): (r: Result<Array>)
    ensures r.Ok? <==> Evaluate(s, name, oracle).Ok?
    ensures r.Ok? ==> r.value == Evaluate(s, name, oracle).value.data
    ensures r.Err? ==> r.error == Evaluate(s, name, oracle).error
  {
    var v :- Evaluate(s, name, oracle);
    Ok(v.data)
  }

  /** How the summary reads `solution[name].data`. */
  type Reads = (Solution, string) -> Result<Array>

  /** The reads through the solution's variables. */
  function ArrayReads(oracle: Oracle): Reads {
    (s, name) => Data(s, name, oracle)
  }

  /** `data[0]`: an index error on a scalar or an empty array. For arrays of
      two or more dimensions this is the first entry of the first row. */
  function Head(a: Array): (r: Result<real>)
    ensures r.Ok? <==> a.ndim > 0 && |a.entries| > 0
    ensures r.Ok? ==> r.value == a.entries[0]
    ensures r.Err? ==> r.error == IndexOutOfRange
  {
    if a.ndim == 0 || |a.entries| == 0 then Err(IndexOutOfRange) else Ok(a.entries[0])
  }

  function MinOf(xs: seq<real>): (r: real)
    requires |xs| > 0
    ensures r in xs
    ensures forall i :: 0 <= i < |xs| ==> r <= xs[i]
  {
    if |xs| == 1 then xs[0]
    else
      var m := MinOf(xs[1..]);
      if xs[0] <= m then xs[0] else m
  }

  function MaxOf(xs: seq<real>): (r: real)
    requires |xs| > 0
    ensures r in xs
    ensures forall i :: 0 <= i < |xs| ==> xs[i] <= r
  {
    if |xs| == 1 then xs[0]
    else
      var m := MaxOf(xs[1..]);
      if m <= xs[0] then xs[0] else m
  }

  /** `np.min`, failing on an empty array. */
  function Minimum(a: Array): (r: Result<real>)
    ensures r.Ok? <==> |a.entries| > 0
    ensures r.Err? ==> r.error == EmptyArray
    ensures r.Ok? ==> r.value in a.entries && forall i :: 0 <= i < |a.entries| ==> r.value <= a.entries[i]
  {
    if |a.entries| == 0 then Err(EmptyArray) else Ok(MinOf(a.entries))
  }

  /** `np.max`, failing on an empty array. */
  function Maximum(a: Array): (r: Result<real>)
    ensures r.Ok? <==> |a.entries| > 0
    ensures r.Err? ==> r.error == EmptyArray
    ensures r.Ok? ==> r.value in a.entries && forall i :: 0 <= i < |a.entries| ==> a.entries[i] <= r.value
  {
    if |a.entries| == 0 then Err(EmptyArray) else Ok(MaxOf(a.entries))
  }

  // ---------------------------------------------------------------------------
  // Summary names

  const DischargeCapacity: string := "Discharge capacity [A.h]"
  const MinimumCapacity: string := "Minimum measured discharge capacity [A.h]"
  const MaximumCapacity: string := "Maximum measured discharge capacity [A.h]"
  const MeasuredCapacity: string := "Measured capacity [A.h]"
  const NegativeCapacity: string := "Negative electrode capacity [A.h]"
  const PositiveCapacity: string := "Positive electrode capacity [A.h]"
  const ParticleLithium: string := "Total lithium in particles [mol]"
  const NegativeSoc: string := "Negative electrode SOC"
  const TheoreticalCapacity: string := "Theoretical capacity [A.h]"
  const EsohCapacity: string := "C"

  const LossOf: string := "Loss of "
  const TotalLithium: string := "Total lithium"

  /** The degradation variables whose last value and change over the cycle
      are summarised, in the source's order; the names sharing a leading
      phrase are written with it. */
  const DegradationVariables: seq<string> := [
    "Negative electrode capacity [A.h]",
    "Positive electrode capacity [A.h]",
    LossOf + "Active Material in negative electrode [%]",
    LossOf + "Active Material in positive electrode [%]",
    LossOf + "Lithium Inventory [%]",
    LossOf + "Lithium Inventory, including electrolyte [%]",
    TotalLithium + " [mol]",
    TotalLithium + " in electrolyte [mol]",
    TotalLithium + " in positive electrode [mol]",
    TotalLithium + " in negative electrode [mol]",
    TotalLithium + " in particles [mol]",
    TotalLithium + " lost [mol]",
    TotalLithium + " lost from particles [mol]",
    TotalLithium + " lost from electrolyte [mol]",
    LossOf + "lithium to negative electrode SEI [mol]",
    LossOf + "lithium to positive electrode SEI [mol]",
    LossOf + "lithium to negative electrode lithium plating [mol]",
    LossOf + "lithium to positive electrode lithium plating [mol]",
    LossOf + "capacity to negative electrode SEI [A.h]",
    LossOf + "capacity to positive electrode SEI [A.h]",
    LossOf + "capacity to negative electrode lithium plating [A.h]",
    LossOf + "capacity to positive electrode lithium plating [A.h]",
    TotalLithium + " lost to side reactions [mol]",
    "Total capacity lost to side reactions [A.h]"
  ]

  /** `str.lower` on one character, for ASCII letters. */
  function LowerChar(c: char): (r: char)
    ensures 'A' <= c <= 'Z' ==> 'a' <= r <= 'z' && r as int == c as int + 32
    ensures !('A' <= c <= 'Z') ==> r == c
  {
    if 'A' <= c <= 'Z' then (c as int + 32) as char else c
  }

  /** `"Change in " + var[0].lower() + var[1:]` */
  function ChangeName(v: string): (r: string)
    requires |v| > 0
    ensures |r| == |v| + 10 && r[0] == 'C'
    ensures r[..10] == "Change in " && r[10] == LowerChar(v[0]) && r[11..] == v[1..]
  {
    "Change in " + [LowerChar(v[0])] + v[1..]
  }

  /** Names that cannot collide with each other's change names: non-empty,
      starting with an ASCII capital other than 'C'. */
  predicate Separated(tracked: seq<string>) {
    forall v :: v in tracked ==> |v| > 0 && 'A' <= v[0] <= 'Z' && v[0] != 'C'
  }

  function ChangeNames(tracked: seq<string>): (r: seq<string>)
    requires forall v :: v in tracked ==> |v| > 0
    ensures |r| == |tracked|
    ensures forall i :: 0 <= i < |tracked| ==> r[i] == ChangeName(tracked[i])
  {
    seq(|tracked|, i requires 0 <= i < |tracked| => ChangeName(tracked[i]))
  }

  lemma ChangeNamesCons(tracked: seq<string>)
    requires |tracked| > 0 && forall v :: v in tracked ==> |v| > 0
    ensures forall k :: k in ChangeNames(tracked) <==> k == ChangeName(tracked[0]) || k in ChangeNames(tracked[1..])
  {
    var rest := tracked[1..];
    forall k | k in ChangeNames(rest) ensures k in ChangeNames(tracked) {
      var i :| 0 <= i < |rest| && ChangeNames(rest)[i] == k;
      assert ChangeNames(tracked)[i + 1] == k;
    }
    forall k | k in ChangeNames(tracked) && k != ChangeName(tracked[0]) ensures k in ChangeNames(rest) {
      var i :| 0 <= i < |tracked| && ChangeNames(tracked)[i] == k;
      assert ChangeNames(rest)[i - 1] == k;
    }
    assert ChangeNames(tracked)[0] == ChangeName(tracked[0]);
  }

  /** Two capitalised names share a change name only if they are equal, and
      no such name is a change name. */
  lemma ChangeNamesApart(v: string, w: string)
    requires |v| > 0 && |w| > 0 && 'A' <= v[0] <= 'Z' && 'A' <= w[0] <= 'Z'
    ensures ChangeName(v) == ChangeName(w) ==> v == w
    ensures v[0] != 'C' ==> v != ChangeName(w)
  {
    if ChangeName(v) == ChangeName(w) {
      assert ChangeName(v)[10] == ChangeName(w)[10];
      assert v[1..] == ChangeName(v)[11..] == ChangeName(w)[11..] == w[1..];
      assert v == [v[0]] + v[1..] && w == [w[0]] + w[1..];
    }
  }

  lemma DegradationVariablesSeparated()
    ensures Separated(DegradationVariables)
    ensures forall i :: 0 <= i < |DegradationVariables| ==>
              DegradationVariables[i][0] != 'M' && |DegradationVariables[i]| != |TheoreticalCapacity|
  {
    assert forall i :: 0 <= i < |DegradationVariables| ==>
      && |DegradationVariables[i]| > 0 && 'A' <= DegradationVariables[i][0] <= 'Z'
      && DegradationVariables[i][0] != 'C' && DegradationVariables[i][0] != 'M';
    assert forall i :: 0 <= i < |DegradationVariables| ==> |DegradationVariables[i]| != |TheoreticalCapacity|;
  }

  /** What one step of the degradation loop may rely on: the new names are
      not among the rest's names or change names, unless `v` itself comes
      again. */
  lemma SeparatedStep(v: string, rest: seq<string>)
    requires Separated([v] + rest)
    ensures Separated(rest)
    ensures v != ChangeName(v)
    ensures v !in ChangeNames(rest)
    ensures ChangeName(v) !in rest
    ensures ChangeName(v) in ChangeNames(rest) ==> v in rest
  {
    assert forall w :: w in rest ==> w in [v] + rest;
    ChangeNamesApart(v, v);
    forall i | 0 <= i < |rest|
      ensures v != ChangeNames(rest)[i] && ChangeName(v) != rest[i]
      ensures ChangeName(v) == ChangeNames(rest)[i] ==> v == rest[i]
    {
      ChangeNamesApart(v, rest[i]);
      ChangeNamesApart(rest[i], v);
    }
  }

  // ---------------------------------------------------------------------------
  // get_cycle_summary_variables

  /** The minimum, maximum and measured (max − min) discharge capacity. */
  function CapacitySummary(q: Array): (r: Result<Dict<real>>)
    ensures r.Ok? <==> |q.entries| > 0
    ensures r.Err? ==> r.error == EmptyArray
    ensures r.Ok? ==>
              && WellFormed(r.value)
              && r.value.order == [MinimumCapacity, MaximumCapacity, MeasuredCapacity]
              && var lo := r.value.entries[MinimumCapacity];
              && var hi := r.value.entries[MaximumCapacity];
              && lo in q.entries && hi in q.entries
              && (forall i :: 0 <= i < |q.entries| ==> lo <= q.entries[i] <= hi)
              && r.value.entries[MeasuredCapacity] == hi - lo
  {
    if |q.entries| == 0 then Err(EmptyArray)
    else
      var lo := MinOf(q.entries);
      var hi := MaxOf(q.entries);
      Ok(Dict([MinimumCapacity, MaximumCapacity, MeasuredCapacity],
              map[MinimumCapacity := lo, MaximumCapacity := hi, MeasuredCapacity := hi - lo]))
  }

  /** The last value of a degradation variable and its change over the cycle. */
  datatype Reading = Reading(last: real, change: real)

  /** `data_last[0]` and `data_last[0] - data_first[0]`, with the reads in
      the order the source makes them. */
  function ReadChange(first: Solution, last: Solution, v: string, data: Reads): (r: Result<Reading>)
    ensures r.Ok? <==> && data(first, v).Ok? && data(last, v).Ok?
                       && Head(data(first, v).value).Ok? && Head(data(last, v).value).Ok?
    ensures r.Ok? ==>
              && r.value.last == Head(data(last, v).value).value
              && r.value.change == r.value.last - Head(data(first, v).value).value
    ensures r.Err? ==> r.error == IndexOutOfRange || data(first, v) == Err(r.error) || data(last, v) == Err(r.error)
  {
    var dataFirst :- data(first, v);
    var dataLast :- data(last, v);
    var l :- Head(dataLast);
    var f :- Head(dataFirst);
    Ok(Reading(l, l - f))
  }

  /** The loop over the degradation variables: each gets its last value and
      its change, as `read` gives them. */
  function AddDegradation(summary: Dict<real>, tracked: seq<string>, read: string -> Result<Reading>): (r: Result<Dict<real>>)
    requires forall v :: v in tracked ==> |v| > 0
    ensures WellFormed(summary) && r.Ok? ==> WellFormed(r.value)
    ensures r.Ok? <==> forall v :: v in tracked ==> read(v).Ok?
    decreases |tracked|
  {
    if |tracked| == 0 then Ok(summary)
    else
      var v := tracked[0];
      var reading :- read(v);
      assert forall w :: w in tracked <==> w == v || w in tracked[1..];
      AddDegradation(Set(Set(summary, v, reading.last), ChangeName(v), reading.change), tracked[1..], read)
  }

  /** The loop adds exactly the tracked names and their change names. */
  lemma {:induction false} DegradationKeys(summary: Dict<real>, tracked: seq<string>, read: string -> Result<Reading>)
    requires forall v :: v in tracked ==> |v| > 0
    requires AddDegradation(summary, tracked, read).Ok?
    ensures forall k :: k in AddDegradation(summary, tracked, read).value.entries <==>
              k in summary.entries || k in tracked || k in ChangeNames(tracked)
    decreases |tracked|
  {
    if |tracked| > 0 {
      var v := tracked[0];
      var rest := tracked[1..];
      var reading := read(v).value;
      var next := Set(Set(summary, v, reading.last), ChangeName(v), reading.change);
      assert AddDegradation(next, rest, read) == AddDegradation(summary, tracked, read);
      assert forall w :: w in tracked <==> w == v || w in rest;
      ChangeNamesCons(tracked);
      DegradationKeys(next, rest, read);
    }
  }

  /** The loop leaves every entry other than the tracked names and their
      change names as it was. */
  lemma {:induction false} DegradationKeepsOthers(summary: Dict<real>, tracked: seq<string>, read: string -> Result<Reading>)
    requires forall v :: v in tracked ==> |v| > 0
    requires AddDegradation(summary, tracked, read).Ok?
    ensures var r := AddDegradation(summary, tracked, read).value;
            forall k :: k in summary.entries && k !in tracked && k !in ChangeNames(tracked) ==>
              k in r.entries && r.entries[k] == summary.entries[k]
    decreases |tracked|
  {
    if |tracked| > 0 {
      var v := tracked[0];
      var rest := tracked[1..];
      var reading := read(v).value;
      var next := Set(Set(summary, v, reading.last), ChangeName(v), reading.change);
      assert AddDegradation(next, rest, read) == AddDegradation(summary, tracked, read);
      assert forall w :: w in rest ==> w in tracked;
      DegradationKeepsOthers(next, rest, read);
      ChangeNamesCons(tracked);
    }
  }

  /** With separated names, every degradation variable holds its last value
      and its change name holds the change. */
  lemma {:induction false} DegradationValues(summary: Dict<real>, tracked: seq<string>, read: string -> Result<Reading>)
    requires Separated(tracked)
    requires AddDegradation(summary, tracked, read).Ok?
    ensures var r := AddDegradation(summary, tracked, read).value;
            forall v :: v in tracked ==>
              && v in r.entries && r.entries[v] == read(v).value.last
              && ChangeName(v) in r.entries && r.entries[ChangeName(v)] == read(v).value.change
    decreases |tracked|
  {
    if |tracked| > 0 {
      var v := tracked[0];
      var rest := tracked[1..];
      var reading := read(v).value;
      var next := Set(Set(summary, v, reading.last), ChangeName(v), reading.change);
      assert AddDegradation(next, rest, read) == AddDegradation(summary, tracked, read);
      assert forall w :: w in tracked <==> w == v || w in rest;
      SeparatedStep(v, rest);
      DegradationValues(next, rest, read);
      if v !in rest {
        DegradationKeepsOthers(next, rest, read);
      }
    }
  }

  /** The electrode state-of-health model: its voltage cut-offs and its solve,
      from the initial guesses and inputs to a map of outputs (None when the
      solve fails). */
  datatype ElectrodeSOH = ElectrodeSOH(lowerCutoff: real, upperCutoff: real,
                                       solve: EsohInputs -> Option<Dict<real>>)

  datatype EsohInputs = EsohInputs(x100: real, capacity: real, vMin: real, vMax: real,
                                   negativeCapacity: real, positiveCapacity: real, lithium: real)

  /** The solve returns dictionaries. */
  ghost predicate ReturnsDicts(esoh: ElectrodeSOH) {
    forall inputs :: esoh.solve(inputs).Some? ==> WellFormed(esoh.solve(inputs).value)
  }

  /** `for var in outputs: summary[var] = outputs[var]` */
  function MergeKeys(summary: Dict<real>, keys: seq<string>, outputs: map<string, real>): (r: Dict<real>)
    requires forall k :: k in keys ==> k in outputs
    ensures WellFormed(summary) ==> WellFormed(r)
    ensures forall k :: k in r.entries <==> k in summary.entries || k in keys
    ensures forall k :: k in keys ==> r.entries[k] == outputs[k]
    ensures forall k :: k in summary.entries && k !in keys ==> r.entries[k] == summary.entries[k]
    decreases |keys|
  {
    if |keys| == 0 then summary
    else
      assert forall k :: k in keys <==> k == keys[0] || k in keys[1..];
      MergeKeys(Set(summary, keys[0], outputs[keys[0]]), keys[1..], outputs)
  }

  function Merge(summary: Dict<real>, outputs: Dict<real>): (r: Dict<real>)
    requires WellFormed(outputs)
    ensures WellFormed(summary) ==> WellFormed(r)
    ensures forall k :: k in r.entries <==> k in summary.entries || k in outputs.entries
    ensures forall k :: k in outputs.entries ==> r.entries[k] == outputs.entries[k]
    ensures forall k :: k in summary.entries && k !in outputs.entries ==> r.entries[k] == summary.entries[k]
  {
    MergeKeys(summary, outputs.order, outputs.entries)
  }

  /** `last_state[name].data[0]` */
  function LastValue(last: Solution, name: string, data: Reads): (r: Result<real>)
    ensures r.Ok? <==> data(last, name).Ok? && Head(data(last, name).value).Ok?
    ensures r.Ok? ==> r == Head(data(last, name).value)
    ensures r.Err? ==> r.error == IndexOutOfRange || data(last, name) == Err(r.error)
  {
    var d :- data(last, name);
    Head(d)
  }

  /** `Q = cycle_solution["Discharge capacity [A.h]"].data` and the three
      capacity entries. */
  function Capacities(cycle: Solution, data: Reads): (r: Result<Dict<real>>)
    ensures CapacityEntries(SummaryNames, r)
    ensures r.Ok? ==> data(cycle, DischargeCapacity).Ok?
    ensures r.Ok? ==>
              && (forall k :: k in r.value.entries <==> k in [MinimumCapacity, MaximumCapacity, MeasuredCapacity])
              && var q := data(cycle, DischargeCapacity).value.entries;
              && var lo := r.value.entries[MinimumCapacity];
              && var hi := r.value.entries[MaximumCapacity];
              && lo in q && hi in q
              && (forall i :: 0 <= i < |q| ==> lo <= q[i] <= hi)
              && r.value.entries[MeasuredCapacity] == hi - lo
  {
    var q :- data(cycle, DischargeCapacity);
    CapacitySummary(q)
  }

  /** Reading the capacities succeeds exactly when the discharge capacity
      can be read and is non-empty; otherwise it fails with that read's
      error or on the empty array. */
  lemma CapacitiesOutcome(cycle: Solution, data: Reads)
    ensures var r := Capacities(cycle, data);
            && (r.Ok? <==> data(cycle, DischargeCapacity).Ok? && |data(cycle, DischargeCapacity).value.entries| > 0)
            && (r.Err? ==> r.error == EmptyArray || data(cycle, DischargeCapacity) == Err(r.error))
  {
  }

  /** The names the summary writes besides the tracked ones and the solve's
      outputs: the three capacity entries, the theoretical capacity, and the
      output it is copied from. */
  datatype Names = Names(minimum: string, maximum: string, measured: string, theoretical: string, esoh: string)

  const SummaryNames: Names := Names(MinimumCapacity, MaximumCapacity, MeasuredCapacity, TheoreticalCapacity, EsohCapacity)

  function CapacityNames(names: Names): seq<string> {
    [names.minimum, names.maximum, names.measured]
  }

  /** The capacity entries, when read, are a well-formed dictionary over the
      capacity names holding the measured capacity. */
  ghost predicate CapacityEntries(names: Names, capacities: Result<Dict<real>>) {
    capacities.Ok? ==>
      && WellFormed(capacities.value)
      && names.measured in capacities.value.entries
      && forall k :: k in capacities.value.entries ==> k in CapacityNames(names)
  }

  /** The fixed names differ where the summary relies on it, and none of
      them is a tracked name or a change name. */
  ghost predicate Apart(names: Names, tracked: seq<string>) {
    && Separated(tracked)
    && names.esoh != names.theoretical
    && names.esoh !in CapacityNames(names) && names.theoretical !in CapacityNames(names)
    && forall k :: k in CapacityNames(names) + [names.theoretical, names.esoh] ==>
         k !in tracked && k !in ChangeNames(tracked)
  }

  /** The cycle's `first_state` and `last_state`. */
  datatype Boundaries = Boundaries(first: Solution, last: Solution)

  /** Both boundary states of a cycle; they fail together, on a missing
      segment. */
  function BoundaryStates(cycle: Solution): (r: Result<Boundaries>)
    ensures r.Ok? <==> Boundary.HasBoundary(cycle)
    ensures r.Err? ==> r.error == IndexOutOfRange
    ensures r.Ok? ==> Boundary.FirstState(cycle) == Ok(r.value.first) && Boundary.LastState(cycle) == Ok(r.value.last)
  {
    if !Boundary.HasBoundary(cycle) then Err(IndexOutOfRange)
    else Ok(Boundaries(Boundary.FirstState(cycle).value, Boundary.LastState(cycle).value))
  }

  /** Reading a degradation variable in the boundary states, once they
      exist. */
  function Reader(states: Result<Boundaries>, data: Reads): string -> Result<Reading> {
    v => if states.Ok? then ReadChange(states.value.first, states.value.last, v, data) else Err(IndexOutOfRange)
  }

  /** The inputs of the state-of-health solve: the cut-off voltages, the
      last-state electrode capacities and particle lithium, the maximum
      negative-electrode state of charge and the measured capacity. */
  function SolveInputs(cycle: Solution, last: Solution, esoh: ElectrodeSOH, data: Reads, measured: real): (r: Result<EsohInputs>)
    ensures r.Ok? ==>
              && r.value.vMin == esoh.lowerCutoff && r.value.vMax == esoh.upperCutoff
              && LastValue(last, NegativeCapacity, data) == Ok(r.value.negativeCapacity)
              && LastValue(last, PositiveCapacity, data) == Ok(r.value.positiveCapacity)
              && LastValue(last, ParticleLithium, data) == Ok(r.value.lithium)
              && data(cycle, NegativeSoc).Ok?
              && var soc := data(cycle, NegativeSoc).value.entries;
              && r.value.x100 in soc && (forall i :: 0 <= i < |soc| ==> soc[i] <= r.value.x100)
              && r.value.capacity == measured
    ensures r.Ok? <==>
              && LastValue(last, NegativeCapacity, data).Ok?
              && LastValue(last, PositiveCapacity, data).Ok?
              && LastValue(last, ParticleLithium, data).Ok?
              && data(cycle, NegativeSoc).Ok? && |data(cycle, NegativeSoc).value.entries| > 0
    ensures r.Err? ==>
              || r.error == IndexOutOfRange || r.error == EmptyArray
              || data(last, NegativeCapacity) == Err(r.error) || data(last, PositiveCapacity) == Err(r.error)
              || data(last, ParticleLithium) == Err(r.error) || data(cycle, NegativeSoc) == Err(r.error)
  {
    var cN :- LastValue(last, NegativeCapacity, data);
    var cP :- LastValue(last, PositiveCapacity, data);
    var nLi :- LastValue(last, ParticleLithium, data);
    var soc :- data(cycle, NegativeSoc);
    var x100 :- Maximum(soc);
    Ok(EsohInputs(x100, measured, esoh.lowerCutoff, esoh.upperCutoff, cN, cP, nLi))
  }

  /** The solve's outputs merged into the summary, then the theoretical
      capacity copied from the output "C". */
  function Finish(names: Names, summary: Dict<real>, solved: Option<Dict<real>>): (r: Result<Dict<real>>)
    requires solved.Some? ==> WellFormed(solved.value)
    ensures solved.None? ==> r == Err(AuxiliarySolveFailed)
    ensures solved.Some? ==>
              (r.Ok? <==> names.esoh in summary.entries || names.esoh in solved.value.entries)
    ensures r.Err? && solved.Some? ==> r.error == MissingKey(names.esoh)
    ensures r.Ok? && WellFormed(summary) ==> WellFormed(r.value)
  {
    match solved
    case None => Err(AuxiliarySolveFailed)
    case Some(outputs) =>
      var merged := Merge(summary, outputs);
      if names.esoh !in merged.entries then Err(MissingKey(names.esoh))
      else Ok(Set(merged, names.theoretical, merged.entries[names.esoh]))
  }

  /** After the solve the summary holds its own entries, the outputs and the
      theoretical capacity; an output overrides an entry of the same name,
      and the theoretical capacity is "C". */
  lemma FinishEntries(names: Names, summary: Dict<real>, solved: Option<Dict<real>>)
    requires solved.Some? ==> WellFormed(solved.value)
    requires Finish(names, summary, solved).Ok?
    ensures var r := Finish(names, summary, solved).value.entries;
            var outputs := solved.value.entries;
            && (forall k :: k in r <==> k in summary.entries || k in outputs || k == names.theoretical)
            && names.esoh in r && r[names.theoretical] == r[names.esoh]
            && (forall k :: k in outputs && k != names.theoretical ==> r[k] == outputs[k])
            && (forall k :: k in summary.entries && k !in outputs && k != names.theoretical ==> r[k] == summary.entries[k])
  {
  }

  /** How the solve's inputs are read from the last state, given the
      measured capacity. */
  type InputReads = (Solution, real) -> Result<EsohInputs>

  /** The solve's inputs read from the cycle's last state. */
  function InputReader(cycle: Solution, esoh: ElectrodeSOH, data: Reads): InputReads {
    (last, measured) => SolveInputs(cycle, last, esoh, data, measured)
  }

  /** `get_cycle_summary_variables` over the outcomes of its reads, taken in
      the order the source makes them: the capacity entries, the boundary
      states, each tracked name's reading by `read`, the solve's inputs by
      `inputs`; then the solve. The summary writes under `names`. */
  function SummaryOver(names: Names, tracked: seq<string>, capacities: Result<Dict<real>>, states: Result<Boundaries>,
                       read: string -> Result<Reading>, inputs: InputReads, esoh: ElectrodeSOH): (r: Result<Dict<real>>)
    requires Apart(names, tracked) && ReturnsDicts(esoh) && CapacityEntries(names, capacities)
    ensures capacities.Err? ==> r == Err(capacities.error)
    ensures capacities.Ok? && states.Err? ==> r == Err(states.error)
    ensures r.Ok? ==> WellFormed(r.value)
  {
    var c :- capacities;
    var b :- states;
    var summary :- AddDegradation(c, tracked, read);
    var solveInputs :- inputs(b.last, c.entries[names.measured]);
    Finish(names, summary, esoh.solve(solveInputs))
  }

  /** `get_cycle_summary_variables(cycle_solution, esoh_sim)` */
  function CycleSummary(cycle: Solution, esoh: ElectrodeSOH, oracle: Oracle): (r: Result<Dict<real>>)
    requires ReturnsDicts(esoh)
    ensures r.Ok? ==> WellFormed(r.value)
  {
    SummaryNamesApart();
    var data := ArrayReads(oracle);
    var states := BoundaryStates(cycle);
    SummaryOver(SummaryNames, DegradationVariables, Capacities(cycle, data), states,
                Reader(states, data), InputReader(cycle, esoh, data), esoh)
  }

  // ---------------------------------------------------------------------------
  // What the summary holds

  /** The names the summary writes before the solve, and every change name. */
  ghost predicate Reserved(k: string, names: Names, tracked: seq<string>) {
    || k in CapacityNames(names)
    || k in tracked
    || (|k| >= 10 && k[..10] == "Change in ")
  }

  /** The solve's outputs never reuse a reserved name. */
  ghost predicate OutputsApart(esoh: ElectrodeSOH, names: Names, tracked: seq<string>) {
    forall inputs :: esoh.solve(inputs).Some? ==>
      forall k :: k in esoh.solve(inputs).value.entries ==> !Reserved(k, names, tracked)
  }

  lemma ChangeNamesStart(tracked: seq<string>)
    requires forall v :: v in tracked ==> |v| > 0
    ensures forall k :: k in ChangeNames(tracked) ==> |k| > 10 && k[0] == 'C'
  {
    forall k | k in ChangeNames(tracked) ensures |k| > 10 && k[0] == 'C' {
      var i :| 0 <= i < |tracked| && ChangeNames(tracked)[i] == k;
    }
  }

  /** Names apart by their shape: the capacity names start with 'M', which
      no tracked name does, the theoretical capacity is no tracked name, and
      the solve's name is "C". */
  lemma ApartByShape(names: Names, tracked: seq<string>)
    requires Separated(tracked)
    requires |names.minimum| > 0 && names.minimum[0] == 'M'
    requires |names.maximum| > 0 && names.maximum[0] == 'M'
    requires |names.measured| > 0 && names.measured[0] == 'M'
    requires |names.theoretical| > 0 && names.theoretical[0] == 'T' && names.esoh == ['C']
    requires forall i :: 0 <= i < |tracked| ==> tracked[i][0] != 'M'
    requires forall i :: 0 <= i < |tracked| ==> tracked[i] != names.theoretical
    ensures Apart(names, tracked)
  {
    ChangeNamesStart(tracked);
  }

  /** The summary's own names stay apart from the degradation variables and
      their change names. */
  lemma SummaryNamesApart()
    ensures Apart(SummaryNames, DegradationVariables)
  {
    DegradationVariablesSeparated();
    assert MinimumCapacity[0] == 'M' && MaximumCapacity[0] == 'M' && MeasuredCapacity[0] == 'M';
    assert TheoreticalCapacity[0] == 'T' && EsohCapacity == ['C'];
    assert forall i :: 0 <= i < |DegradationVariables| ==> DegradationVariables[i] != SummaryNames.theoretical;
    ApartByShape(SummaryNames, DegradationVariables);
  }

  /** The degradation loop leaves the capacity entries as they were, and
      they are reserved names other than the theoretical capacity. */
  lemma DegradationKeepsCapacities(names: Names, c: Dict<real>, tracked: seq<string>, read: string -> Result<Reading>)
    requires Apart(names, tracked) && CapacityEntries(names, Ok(c))
    requires AddDegradation(c, tracked, read).Ok?
    ensures var summary := AddDegradation(c, tracked, read).value.entries;
            forall k :: k in c.entries ==>
              && k in summary && summary[k] == c.entries[k]
              && k != names.theoretical && Reserved(k, names, tracked)
  {
    DegradationKeepsOthers(c, tracked, read);
    forall k | k in c.entries
      ensures k !in tracked && k !in ChangeNames(tracked)
    {
      assert k in CapacityNames(names) + [names.theoretical, names.esoh];
    }
  }

  /** The degradation loop never writes "C". */
  lemma DegradationLacksEsoh(names: Names, c: Dict<real>, tracked: seq<string>, read: string -> Result<Reading>)
    requires Apart(names, tracked) && CapacityEntries(names, Ok(c))
    requires AddDegradation(c, tracked, read).Ok?
    ensures names.esoh !in AddDegradation(c, tracked, read).value.entries
  {
    assert names.esoh in CapacityNames(names) + [names.theoretical, names.esoh];
    assert names.esoh !in c.entries;
    DegradationKeys(c, tracked, read);
  }

  /** When the summary lacks "C", the theoretical capacity is the solve's
      "C". */
  lemma FinishTheoretical(names: Names, summary: Dict<real>, solved: Option<Dict<real>>)
    requires solved.Some? ==> WellFormed(solved.value)
    requires names.esoh != names.theoretical && names.esoh !in summary.entries
    requires Finish(names, summary, solved).Ok?
    ensures solved.Some? && names.esoh in solved.value.entries
    ensures Finish(names, summary, solved).value.entries[names.theoretical] == solved.value.entries[names.esoh]
  {
    FinishEntries(names, summary, solved);
  }

  /** The capacity entries reach the summary unchanged. */
  lemma SummaryCapacities(names: Names, tracked: seq<string>, capacities: Result<Dict<real>>, states: Result<Boundaries>,
                          read: string -> Result<Reading>, inputs: InputReads, esoh: ElectrodeSOH)
    requires Apart(names, tracked) && ReturnsDicts(esoh) && CapacityEntries(names, capacities)
    requires OutputsApart(esoh, names, tracked)
    requires SummaryOver(names, tracked, capacities, states, read, inputs, esoh).Ok?
    ensures capacities.Ok?
    ensures var summary := SummaryOver(names, tracked, capacities, states, read, inputs, esoh).value.entries;
            forall k :: k in capacities.value.entries ==> k in summary && summary[k] == capacities.value.entries[k]
  {
    var c := capacities.value;
    var summary := AddDegradation(c, tracked, read).value;
    var solved := esoh.solve(inputs(states.value.last, c.entries[names.measured]).value);
    assert SummaryOver(names, tracked, capacities, states, read, inputs, esoh) == Finish(names, summary, solved);
    DegradationKeepsCapacities(names, c, tracked, read);
    FinishEntries(names, summary, solved);
  }

  /** Every tracked name holds its reading's last value and its change name
      the reading's change. */
  lemma SummaryDegradation(names: Names, tracked: seq<string>, capacities: Result<Dict<real>>, states: Result<Boundaries>,
                           read: string -> Result<Reading>, inputs: InputReads, esoh: ElectrodeSOH)
    requires Apart(names, tracked) && ReturnsDicts(esoh) && CapacityEntries(names, capacities)
    requires OutputsApart(esoh, names, tracked)
    requires SummaryOver(names, tracked, capacities, states, read, inputs, esoh).Ok?
    ensures capacities.Ok? && states.Ok?
    ensures var summary := SummaryOver(names, tracked, capacities, states, read, inputs, esoh).value.entries;
            forall v :: v in tracked ==>
              && read(v).Ok?
              && v in summary && ChangeName(v) in summary
              && summary[v] == read(v).value.last
              && summary[ChangeName(v)] == read(v).value.change
  {
    var c := capacities.value;
    var summary := AddDegradation(c, tracked, read).value;
    var solved := esoh.solve(inputs(states.value.last, c.entries[names.measured]).value);
    assert SummaryOver(names, tracked, capacities, states, read, inputs, esoh) == Finish(names, summary, solved);
    FinishEntries(names, summary, solved);
    DegradationValues(c, tracked, read);
    forall v | v in tracked
      ensures v !in solved.value.entries && ChangeName(v) !in solved.value.entries
      ensures v != names.theoretical && ChangeName(v) != names.theoretical
    {
      assert Reserved(v, names, tracked) && Reserved(ChangeName(v), names, tracked);
      assert ChangeName(v) in ChangeNames(tracked);
      assert names.theoretical in CapacityNames(names) + [names.theoretical, names.esoh];
    }
  }

  /** The theoretical capacity is the solve's "C", for the inputs read from
      the last state and the measured capacity. */
  lemma SummaryTheoretical(names: Names, tracked: seq<string>, capacities: Result<Dict<real>>, states: Result<Boundaries>,
                           read: string -> Result<Reading>, inputs: InputReads, esoh: ElectrodeSOH)
    requires Apart(names, tracked) && ReturnsDicts(esoh) && CapacityEntries(names, capacities)
    requires SummaryOver(names, tracked, capacities, states, read, inputs, esoh).Ok?
    ensures capacities.Ok? && states.Ok?
    ensures var summary := SummaryOver(names, tracked, capacities, states, read, inputs, esoh).value.entries;
            var solveInputs := inputs(states.value.last, capacities.value.entries[names.measured]);
            && solveInputs.Ok?
            && var outputs := esoh.solve(solveInputs.value);
            && outputs.Some? && names.esoh in outputs.value.entries
            && names.theoretical in summary
            && summary[names.theoretical] == outputs.value.entries[names.esoh]
  {
    var c := capacities.value;
    var summary := AddDegradation(c, tracked, read).value;
    var solved := esoh.solve(inputs(states.value.last, c.entries[names.measured]).value);
    assert SummaryOver(names, tracked, capacities, states, read, inputs, esoh) == Finish(names, summary, solved);
    DegradationLacksEsoh(names, c, tracked, read);
    FinishTheoretical(names, summary, solved);
    FinishEntries(names, summary, solved);
  }

  /** `get_cycle_summary_variables`: the minimum and maximum measured
      discharge capacity are the extremes of the cycle's discharge capacity,
      and the measured capacity is their difference. */
  lemma CycleCapacities(cycle: Solution, esoh: ElectrodeSOH, oracle: Oracle)
    requires ReturnsDicts(esoh) && OutputsApart(esoh, SummaryNames, DegradationVariables)
    requires CycleSummary(cycle, esoh, oracle).Ok?
    ensures Data(cycle, DischargeCapacity, oracle).Ok?
    ensures var summary := CycleSummary(cycle, esoh, oracle).value.entries;
            var q := Data(cycle, DischargeCapacity, oracle).value.entries;
            && MinimumCapacity in summary && MaximumCapacity in summary && MeasuredCapacity in summary
            && summary[MinimumCapacity] in q && summary[MaximumCapacity] in q
            && (forall i :: 0 <= i < |q| ==> summary[MinimumCapacity] <= q[i] <= summary[MaximumCapacity])
            && summary[MeasuredCapacity] == summary[MaximumCapacity] - summary[MinimumCapacity]
  {
    var data := ArrayReads(oracle);
    var states := BoundaryStates(cycle);
    SummaryNamesApart();
    SummaryCapacities(SummaryNames, DegradationVariables, Capacities(cycle, data), states,
                      Reader(states, data), InputReader(cycle, esoh, data), esoh);
    assert data(cycle, DischargeCapacity) == Data(cycle, DischargeCapacity, oracle);
  }

  /** `get_cycle_summary_variables`: each degradation variable holds its
      reading in the boundary states: the first entry in the last state, and
      under its change name that entry minus the first entry in the first
      state. */
  lemma CycleDegradation(cycle: Solution, esoh: ElectrodeSOH, oracle: Oracle)
    requires ReturnsDicts(esoh) && OutputsApart(esoh, SummaryNames, DegradationVariables)
    requires CycleSummary(cycle, esoh, oracle).Ok?
    ensures Boundary.HasBoundary(cycle)
    ensures var summary := CycleSummary(cycle, esoh, oracle).value.entries;
            var first := Boundary.FirstState(cycle).value;
            var last := Boundary.LastState(cycle).value;
            forall v :: v in DegradationVariables ==>
              && var reading := ReadChange(first, last, v, ArrayReads(oracle));
              && reading.Ok? && |v| > 0 && v in summary && ChangeName(v) in summary
              && summary[v] == reading.value.last
              && summary[ChangeName(v)] == reading.value.change
  {
    var data := ArrayReads(oracle);
    var states := BoundaryStates(cycle);
    var read := Reader(states, data);
    SummaryNamesApart();
    SummaryDegradation(SummaryNames, DegradationVariables, Capacities(cycle, data), states,
                       read, InputReader(cycle, esoh, data), esoh);
    forall v | v in DegradationVariables
      ensures read(v) == ReadChange(states.value.first, states.value.last, v, data)
    {
    }
  }

  /** `get_cycle_summary_variables`: the theoretical capacity is the output
      "C" of the state-of-health solve, for the inputs read from the last
      state with the measured capacity. */
  lemma CycleTheoretical(cycle: Solution, esoh: ElectrodeSOH, oracle: Oracle)
    requires ReturnsDicts(esoh)
    requires CycleSummary(cycle, esoh, oracle).Ok?
    ensures Boundary.HasBoundary(cycle) && Capacities(cycle, ArrayReads(oracle)).Ok?
    ensures var summary := CycleSummary(cycle, esoh, oracle).value.entries;
            var measured := Capacities(cycle, ArrayReads(oracle)).value.entries[MeasuredCapacity];
            var inputs := SolveInputs(cycle, Boundary.LastState(cycle).value, esoh, ArrayReads(oracle), measured);
            && inputs.Ok?
            && var outputs := esoh.solve(inputs.value);
            && outputs.Some? && EsohCapacity in outputs.value.entries
            && TheoreticalCapacity in summary
            && summary[TheoreticalCapacity] == outputs.value.entries[EsohCapacity]
  {
    var data := ArrayReads(oracle);
    var states := BoundaryStates(cycle);
    SummaryNamesApart();
    SummaryTheoretical(SummaryNames, DegradationVariables, Capacities(cycle, data), states,
                       Reader(states, data), InputReader(cycle, esoh, data), esoh);
  }

  // ---------------------------------------------------------------------------
  // When the summary succeeds

  /** The degradation loop fails with the error of some tracked name's
      reading. */
  lemma {:induction false} DegradationFailure(summary: Dict<real>, tracked: seq<string>, read: string -> Result<Reading>)
    requires forall v :: v in tracked ==> |v| > 0
    ensures var r := AddDegradation(summary, tracked, read);
            r.Err? ==> exists v :: v in tracked && read(v) == Err(r.error)
    decreases |tracked|
  {
    if |tracked| > 0 && read(tracked[0]).Ok? {
      var v := tracked[0];
      var reading := read(v).value;
      var next := Set(Set(summary, v, reading.last), ChangeName(v), reading.change);
      assert AddDegradation(summary, tracked, read) == AddDegradation(next, tracked[1..], read);
      DegradationFailure(next, tracked[1..], read);
    }
  }

  /** The summary succeeds exactly when the capacity entries and the
      boundary states exist, every tracked name can be read, the solve's
      inputs can be read, and the solve succeeds with an output "C". */
  lemma SummaryOverSucceeds(names: Names, tracked: seq<string>, capacities: Result<Dict<real>>, states: Result<Boundaries>,
                            read: string -> Result<Reading>, inputs: InputReads, esoh: ElectrodeSOH)
    requires Apart(names, tracked) && ReturnsDicts(esoh) && CapacityEntries(names, capacities)
    ensures SummaryOver(names, tracked, capacities, states, read, inputs, esoh).Ok? <==>
              && capacities.Ok? && states.Ok?
              && (forall v :: v in tracked ==> read(v).Ok?)
              && var solveInputs := inputs(states.value.last, capacities.value.entries[names.measured]);
              && solveInputs.Ok?
              && esoh.solve(solveInputs.value).Some?
              && names.esoh in esoh.solve(solveInputs.value).value.entries
  {
    if capacities.Ok? && states.Ok? && AddDegradation(capacities.value, tracked, read).Ok? {
      DegradationLacksEsoh(names, capacities.value, tracked, read);
    }
  }

  /** A failed summary reports the failure of one of its reads, a failed
      solve, or a missing "C". */
  lemma SummaryOverFailures(names: Names, tracked: seq<string>, capacities: Result<Dict<real>>, states: Result<Boundaries>,
                            read: string -> Result<Reading>, inputs: InputReads, esoh: ElectrodeSOH)
    requires Apart(names, tracked) && ReturnsDicts(esoh) && CapacityEntries(names, capacities)
    ensures var r := SummaryOver(names, tracked, capacities, states, read, inputs, esoh);
            r.Err? ==>
              || capacities == Err(r.error)
              || (capacities.Ok? && states == Err(r.error))
              || (exists v :: v in tracked && read(v) == Err(r.error))
              || (capacities.Ok? && states.Ok? &&
                  inputs(states.value.last, capacities.value.entries[names.measured]) == Err(r.error))
              || r.error == AuxiliarySolveFailed
              || r.error == MissingKey(names.esoh)
  {
    if capacities.Ok? && states.Ok? {
      DegradationFailure(capacities.value, tracked, read);
    }
  }

  /** `get_cycle_summary_variables` succeeds exactly when the discharge
      capacity can be read and is non-empty, the cycle has boundary states,
      every degradation variable has a first entry in both of them, the
      solve's inputs can be read from the last state, and the solve succeeds
      with an output "C". */
  lemma CycleSummarySucceeds(cycle: Solution, esoh: ElectrodeSOH, oracle: Oracle)
    requires ReturnsDicts(esoh)
    ensures var data := ArrayReads(oracle);
            CycleSummary(cycle, esoh, oracle).Ok? <==>
              && Data(cycle, DischargeCapacity, oracle).Ok?
              && |Data(cycle, DischargeCapacity, oracle).value.entries| > 0
              && Boundary.HasBoundary(cycle)
              && var first := Boundary.FirstState(cycle).value;
              && var last := Boundary.LastState(cycle).value;
              && (forall v :: v in DegradationVariables ==> ReadChange(first, last, v, data).Ok?)
              && var measured := Capacities(cycle, data).value.entries[MeasuredCapacity];
              && var inputs := SolveInputs(cycle, last, esoh, data, measured);
              && inputs.Ok?
              && esoh.solve(inputs.value).Some?
              && EsohCapacity in esoh.solve(inputs.value).value.entries
  {
    var data := ArrayReads(oracle);
    var states := BoundaryStates(cycle);
    SummaryNamesApart();
    CapacitiesOutcome(cycle, data);
    assert data(cycle, DischargeCapacity) == Data(cycle, DischargeCapacity, oracle);
    SummaryOverSucceeds(SummaryNames, DegradationVariables, Capacities(cycle, data), states,
                        Reader(states, data), InputReader(cycle, esoh, data), esoh);
  }

  /** The errors `get_cycle_summary_variables` can raise: an index error, an
      empty array, an unknown variable, a failed solve, or a missing "C". */
  ghost predicate SummaryError(e: Error) {
    || e == IndexOutOfRange || e == EmptyArray || e.UnknownVariable?
    || e == AuxiliarySolveFailed || e == MissingKey(EsohCapacity)
  }

  /** Reading a variable fails only with an index error or an unknown
      variable. */
  lemma ReadErrors(oracle: Oracle, s: Solution, name: string)
    ensures ArrayReads(oracle)(s, name).Err? ==> SummaryError(ArrayReads(oracle)(s, name).error)
  {
  }

  /** The summary raises only what its reads raise, a failed solve, or a
      missing "C". */
  lemma SummaryOverErrors(names: Names, tracked: seq<string>, capacities: Result<Dict<real>>, states: Result<Boundaries>,
                          read: string -> Result<Reading>, inputs: InputReads, esoh: ElectrodeSOH)
    requires Apart(names, tracked) && ReturnsDicts(esoh) && CapacityEntries(names, capacities)
    requires names.esoh == EsohCapacity
    requires capacities.Err? ==> SummaryError(capacities.error)
    requires states.Err? ==> SummaryError(states.error)
    requires forall v :: read(v).Err? ==> SummaryError(read(v).error)
    requires forall l, m :: inputs(l, m).Err? ==> SummaryError(inputs(l, m).error)
    ensures var r := SummaryOver(names, tracked, capacities, states, read, inputs, esoh);
            r.Err? ==> SummaryError(r.error)
  {
    SummaryOverFailures(names, tracked, capacities, states, read, inputs, esoh);
    var r := SummaryOver(names, tracked, capacities, states, read, inputs, esoh);
    if r.Err? {
      ErrorCases(r.error, names, tracked, capacities, states, read, inputs);
    }
  }

  lemma ErrorCases(e: Error, names: Names, tracked: seq<string>, capacities: Result<Dict<real>>, states: Result<Boundaries>,
                   read: string -> Result<Reading>, inputs: InputReads)
    requires names.esoh == EsohCapacity && CapacityEntries(names, capacities)
    requires capacities.Err? ==> SummaryError(capacities.error)
    requires states.Err? ==> SummaryError(states.error)
    requires forall v :: read(v).Err? ==> SummaryError(read(v).error)
    requires forall l, m :: inputs(l, m).Err? ==> SummaryError(inputs(l, m).error)
    requires || capacities == Err(e)
             || (capacities.Ok? && states == Err(e))
             || (exists v :: v in tracked && read(v) == Err(e))
             || (capacities.Ok? && states.Ok? &&
                 inputs(states.value.last, capacities.value.entries[names.measured]) == Err(e))
             || e == AuxiliarySolveFailed
             || e == MissingKey(names.esoh)
    ensures SummaryError(e)
  {
    if exists v :: v in tracked && read(v) == Err(e) {
      var v :| v in tracked && read(v) == Err(e);
      assert read(v).Err?;
    } else if capacities.Ok? && states.Ok? &&
              inputs(states.value.last, capacities.value.entries[names.measured]) == Err(e) {
      var l, m := states.value.last, capacities.value.entries[names.measured];
      assert inputs(l, m).Err? && inputs(l, m).error == e;
      assert SummaryError(inputs(l, m).error);
    }
  }

  lemma CapacitiesErrors(cycle: Solution, oracle: Oracle)
    ensures Capacities(cycle, ArrayReads(oracle)).Err? ==> SummaryError(Capacities(cycle, ArrayReads(oracle)).error)
  {
    CapacitiesOutcome(cycle, ArrayReads(oracle));
    ReadErrors(oracle, cycle, DischargeCapacity);
  }

  lemma ReaderErrors(states: Result<Boundaries>, oracle: Oracle)
    requires states.Err? ==> states.error == IndexOutOfRange
    ensures forall v :: Reader(states, ArrayReads(oracle))(v).Err? ==>
              SummaryError(Reader(states, ArrayReads(oracle))(v).error)
  {
    forall v | Reader(states, ArrayReads(oracle))(v).Err?
      ensures SummaryError(Reader(states, ArrayReads(oracle))(v).error)
    {
      if states.Ok? {
        ReadErrors(oracle, states.value.first, v);
        ReadErrors(oracle, states.value.last, v);
      }
    }
  }

  lemma InputReaderErrors(cycle: Solution, esoh: ElectrodeSOH, oracle: Oracle)
    ensures forall l, m :: InputReader(cycle, esoh, ArrayReads(oracle))(l, m).Err? ==>
              SummaryError(InputReader(cycle, esoh, ArrayReads(oracle))(l, m).error)
  {
    forall l, m | InputReader(cycle, esoh, ArrayReads(oracle))(l, m).Err?
      ensures SummaryError(InputReader(cycle, esoh, ArrayReads(oracle))(l, m).error)
    {
      ReadErrors(oracle, l, NegativeCapacity);
      ReadErrors(oracle, l, PositiveCapacity);
      ReadErrors(oracle, l, ParticleLithium);
      ReadErrors(oracle, cycle, NegativeSoc);
    }
  }

  /** `get_cycle_summary_variables` fails only with an index error, an
      empty array, an unknown variable, a failed solve, or a missing "C". */
  lemma CycleSummaryFailures(cycle: Solution, esoh: ElectrodeSOH, oracle: Oracle)
    requires ReturnsDicts(esoh)
    ensures CycleSummary(cycle, esoh, oracle).Err? ==> SummaryError(CycleSummary(cycle, esoh, oracle).error)
  {
    var data := ArrayReads(oracle);
    var states := BoundaryStates(cycle);
    SummaryNamesApart();
    CapacitiesErrors(cycle, oracle);
    ReaderErrors(states, oracle);
    InputReaderErrors(cycle, esoh, oracle);
    SummaryOverErrors(SummaryNames, DegradationVariables, Capacities(cycle, data), states,
                      Reader(states, data), InputReader(cycle, esoh, data), esoh);
  }

  // ---------------------------------------------------------------------------
  // make_cycle_solution

  /** A cycle solution with its steps and, when saved, its summary. */
  datatype Cycle = Cycle(solution: Solution, steps: seq<Solution>, summary: Dict<real>)

  /** The cycle solution (None unless it is saved) and its summary. */
  datatype CycleOutcome = CycleOutcome(cycle: Option<Cycle>, summary: Dict<real>)

  /** `make_cycle_solution(step_solutions, esoh_sim, save_this_cycle)`: the
      steps are summed, rebuilt as a fresh solution and summarised. */
  function MakeCycleSolution(steps: seq<Solution>, esoh: ElectrodeSOH, oracle: Oracle, save: bool): (r: Result<CycleOutcome>)
    requires ReturnsDicts(esoh)
    ensures |steps| == 0 ==> r == Err(IndexOutOfRange)
    ensures r.Ok? ==> CombineSteps(steps).Ok? && Copy(CombineSteps(steps).value).Ok?
    ensures r.Ok? ==>
              && var combined := CombineSteps(steps).value;
              && CycleSummary(Copy(combined).value, esoh, oracle) == Ok(r.value.summary)
              && (r.value.cycle.Some? <==> save)
              && (save ==> && SameContent(r.value.cycle.value.solution, combined)
                           && r.value.cycle.value.steps == steps
                           && r.value.cycle.value.summary == r.value.summary)
    ensures r.Ok? && save ==> r.value.cycle.value.solution.termination == steps[|steps| - 1].termination
    ensures CombineSteps(steps).Err? ==> r == Err(CombineSteps(steps).error)
    ensures CombineSteps(steps).Ok? ==>
              && var solution := Copy(CombineSteps(steps).value);
              && solution.Ok?
              && (r.Ok? <==> CycleSummary(solution.value, esoh, oracle).Ok?)
              && (r.Err? ==> r.error == CycleSummary(solution.value, esoh, oracle).error)
  {
    var combined :- CombineSteps(steps);
    var solution := Copy(combined).value;
    var summary :- CycleSummary(solution, esoh, oracle);
    Ok(CycleOutcome(if save then Some(Cycle(solution, steps, summary)) else None, summary))
  }

  // ---------------------------------------------------------------------------
  // set_summary_variables

  const CycleNumber: string := "Cycle number"

  /** Reference definition: the values of `name` over `cycles`, skipping the
      cycles without it. */
  function Column(name: string, cycles: seq<Dict<real>>): seq<real>
    decreases |cycles|
  {
    if |cycles| == 0 then []
    else
      var c := cycles[|cycles| - 1];
      Column(name, cycles[..|cycles| - 1]) + (if name in c.entries then [c.entries[name]] else [])
  }

  /** `range(1, n + 1)` */
  function CycleNumbers(n: nat): (r: seq<real>)
    ensures |r| == n && forall i :: 0 <= i < n ==> r[i] == (i + 1) as real
  {
    seq(n, i requires 0 <= i < n => (i + 1) as real)
  }

  /** `summary_variables[name].append(value)` for each item of one cycle. */
  function AppendItems(acc: Dict<seq<real>>, names: seq<string>, values: map<string, real>): (r: Result<Dict<seq<real>>>)
    requires WellFormed(acc)
    requires forall k :: k in names ==> k in values
    requires forall i, j :: 0 <= i < j < |names| ==> names[i] != names[j]
    ensures r.Ok? <==> forall k :: k in names ==> k in acc.entries
    ensures r.Err? ==> r.error.MissingKey? && r.error.key in names && r.error.key !in acc.entries
    ensures r.Ok? ==> WellFormed(r.value) && r.value.order == acc.order
    ensures r.Ok? ==> forall k :: k in r.value.entries <==> k in acc.entries
    ensures r.Ok? ==> forall k :: k in acc.entries ==>
              r.value.entries[k] == acc.entries[k] + (if k in names then [values[k]] else [])
    decreases |names|
  {
    if |names| == 0 then Ok(acc)
    else
      var name := names[0];
      if name !in acc.entries then Err(MissingKey(name))
      else
        assert forall k :: k in names <==> k == name || k in names[1..];
        assert name !in names[1..] by {
          assert forall j :: 0 <= j < |names[1..]| ==> names[1..][j] == names[j + 1] != names[0];
        }
        AppendItems(Set(acc, name, acc.entries[name] + [values[name]]), names[1..], values)
  }

  /** The loop over the cycles' summaries. */
  function AppendCycles(acc: Dict<seq<real>>, cycles: seq<Dict<real>>): (r: Result<Dict<seq<real>>>)
    requires WellFormed(acc)
    requires forall i :: 0 <= i < |cycles| ==> WellFormed(cycles[i])
    ensures r.Err? ==> r.error.MissingKey? && r.error.key !in acc.entries
    ensures r.Ok? ==> WellFormed(r.value) && r.value.order == acc.order
    ensures r.Ok? ==> forall k :: k in r.value.entries <==> k in acc.entries
    decreases |cycles|
  {
    if |cycles| == 0 then Ok(acc)
    else
      var n := |cycles| - 1;
      var before :- AppendCycles(acc, cycles[..n]);
      var last := cycles[n];
      assert WellFormed(last);
      AppendItems(before, last.order, last.entries)
  }

  /** Each list of the loop's result is the list it started with followed by
      the name's values over the cycles. */
  lemma {:induction false} AppendCyclesColumns(acc: Dict<seq<real>>, cycles: seq<Dict<real>>)
    requires WellFormed(acc)
    requires forall i :: 0 <= i < |cycles| ==> WellFormed(cycles[i])
    requires AppendCycles(acc, cycles).Ok?
    ensures forall k :: k in acc.entries ==>
              AppendCycles(acc, cycles).value.entries[k] == acc.entries[k] + Column(k, cycles)
    decreases |cycles|
  {
    if |cycles| > 0 {
      var n := |cycles| - 1;
      var before := AppendCycles(acc, cycles[..n]).value;
      var last := cycles[n];
      assert WellFormed(last);
      AppendCyclesColumns(acc, cycles[..n]);
      var r := AppendItems(before, last.order, last.entries).value;
      assert AppendCycles(acc, cycles).value == r;
      ColumnsStep(acc, before, r, cycles, last);
    }
  }

  /** One more cycle extends every column by that cycle's value, if any. */
  lemma ColumnsStep(acc: Dict<seq<real>>, before: Dict<seq<real>>, r: Dict<seq<real>>,
                    cycles: seq<Dict<real>>, last: Dict<real>)
    requires |cycles| > 0 && last == cycles[|cycles| - 1]
    requires forall k :: k in last.order <==> k in last.entries
    requires forall k :: k in acc.entries ==>
               k in before.entries && before.entries[k] == acc.entries[k] + Column(k, cycles[..|cycles| - 1])
    requires forall k :: k in before.entries ==> k in r.entries
    requires forall k :: k in before.entries ==>
               r.entries[k] == before.entries[k] + (if k in last.order then [last.entries[k]] else [])
    ensures forall k :: k in acc.entries ==> r.entries[k] == acc.entries[k] + Column(k, cycles)
  {
    forall k | k in acc.entries
      ensures r.entries[k] == acc.entries[k] + Column(k, cycles)
    {
      ColumnSnoc(k, acc.entries[k], cycles, last);
    }
  }

  lemma ColumnSnoc(k: string, start: seq<real>, cycles: seq<Dict<real>>, last: Dict<real>)
    requires |cycles| > 0 && last == cycles[|cycles| - 1]
    ensures start + Column(k, cycles) ==
              (start + Column(k, cycles[..|cycles| - 1])) + (if k in last.entries then [last.entries[k]] else [])
  {
    ColumnStep(k, cycles);
    AppendAssociates(start, Column(k, cycles[..|cycles| - 1]), if k in last.entries then [last.entries[k]] else []);
  }

  /** One unfolding of `Column` at the last cycle. */
  lemma ColumnStep(k: string, cycles: seq<Dict<real>>)
    requires |cycles| > 0
    ensures var last := cycles[|cycles| - 1];
            Column(k, cycles) == Column(k, cycles[..|cycles| - 1]) + (if k in last.entries then [last.entries[k]] else [])
  {
  }

  /** The loop succeeds exactly when every name of every cycle is already a
      column; otherwise it reports a name some cycle has. */
  lemma {:induction false} AppendCyclesSucceeds(acc: Dict<seq<real>>, cycles: seq<Dict<real>>)
    requires WellFormed(acc)
    requires forall i :: 0 <= i < |cycles| ==> WellFormed(cycles[i])
    ensures AppendCycles(acc, cycles).Ok? <==>
              forall i, k :: 0 <= i < |cycles| && k in cycles[i].entries ==> k in acc.entries
    ensures AppendCycles(acc, cycles).Err? ==>
              exists i :: 0 <= i < |cycles| && AppendCycles(acc, cycles).error.key in cycles[i].entries
    decreases |cycles|
  {
    if |cycles| > 0 {
      var n := |cycles| - 1;
      AppendCyclesSucceeds(acc, cycles[..n]);
      assert forall i :: 0 <= i < n ==> cycles[..n][i] == cycles[i];
    }
  }

  /** `summary_variables` of a solution, next to `all_summary_variables`. */
  datatype Summaries = Summaries(all: seq<Dict<real>>, columns: Dict<seq<real>>)

  /** `{var: [] for var in all_summary_variables[0]}` */
  function EmptyColumns(first: Dict<real>): (r: Dict<seq<real>>)
    requires WellFormed(first)
    ensures WellFormed(r) && r.order == first.order
    ensures forall k :: k in r.entries <==> k in first.entries
    ensures forall k :: k in r.entries ==> r.entries[k] == []
  {
    Dict(first.order, map k | k in first.entries :: [])
  }

  /** `set_summary_variables(all_summary_variables)`: one list per name of the
      first cycle's summary, then the cycle numbers. */
  function SetSummaryVariables(all: seq<Dict<real>>): (r: Result<Summaries>)
    requires forall i :: 0 <= i < |all| ==> WellFormed(all[i])
    ensures |all| == 0 ==> r == Err(IndexOutOfRange)
    ensures r.Err? && |all| > 0 ==> r.error.MissingKey? && r.error.key !in all[0].entries
    ensures r.Ok? ==> r.value.all == all && WellFormed(r.value.columns)
    ensures r.Ok? ==> forall k :: k in r.value.columns.entries <==> k in all[0].entries || k == CycleNumber
    ensures r.Ok? ==> forall k :: k in all[0].entries && k != CycleNumber ==> r.value.columns.entries[k] == Column(k, all)
    ensures r.Ok? ==> r.value.columns.entries[CycleNumber] == CycleNumbers(|all|)
  {
    if |all| == 0 then Err(IndexOutOfRange)
    else
      var columns :- AppendCycles(EmptyColumns(all[0]), all);
      AppendCyclesColumns(EmptyColumns(all[0]), all);
      Ok(Summaries(all, Set(columns, CycleNumber, CycleNumbers(|all|))))
  }

  /** `set_summary_variables` fails exactly when the list is empty or some
      cycle has a name the first cycle lacks, and then it names one. */
  lemma SummaryVariablesSucceed(all: seq<Dict<real>>)
    requires forall i :: 0 <= i < |all| ==> WellFormed(all[i])
    ensures SetSummaryVariables(all).Ok? <==>
              |all| > 0 && forall i, k :: 0 <= i < |all| && k in all[i].entries ==> k in all[0].entries
    ensures SetSummaryVariables(all).Err? && |all| > 0 ==>
              exists i :: 0 <= i < |all| && SetSummaryVariables(all).error.key in all[i].entries
  {
    if |all| > 0 {
      AppendCyclesSucceeds(EmptyColumns(all[0]), all);
    }
  }

  /** When every cycle has the same names, each column holds one value per
      cycle, in cycle order. */
  lemma {:induction false} ColumnPerCycle(name: string, cycles: seq<Dict<real>>)
    requires forall i :: 0 <= i < |cycles| ==> name in cycles[i].entries
    ensures |Column(name, cycles)| == |cycles|
    ensures forall i :: 0 <= i < |cycles| ==> Column(name, cycles)[i] == cycles[i].entries[name]
    decreases |cycles|
  {
    if |cycles| > 0 {
      var n := |cycles| - 1;
      ColumnPerCycle(name, cycles[..n]);
    }
  }
}
