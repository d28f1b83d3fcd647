/** The trajectory store of a solution: the ordered segments produced by the
    solver (times, state columns, model, inputs), the constructor that
    normalises single values into one-element lists, and the full time vector
    `t` with its monotonicity check (pybamm/solvers/solution.py). */
module Trajectory {
  import opened Outcomes
  import opened Dicts

  /** A solver's time points for one segment. */
  type Times = seq<real>
  /** One state vector y(t). */
  type Column = seq<real>
  /** The state matrix of a segment, one column per time point. */
  type Columns = seq<Column>
  /** An opaque handle on a symbolic expression of the model. */
  type Symbol = nat

  /** A model object: `id` stands for its identity, `variables` for its
      registry `model.variables` of symbolic expressions. */
  datatype Model = Model(id: nat, variables: map<string, Symbol>)

  /** An input parameter value: a bare number, a numeric vector or a
      symbolic placeholder (`casadi.MX`). */
  datatype InputValue = Number(x: real) | Vector(xs: seq<real>) | Symbolic(name: string, size: nat)

  /** One input set, a Python dict from parameter name to value. */
  type Inputs = Dict<InputValue>

  /** The stacked input vector of one input set (`casadi.vertcat(*inp.values())`),
      kept as the sequence of stacked blocks. */
  type InputVector = seq<InputValue>

  /** `_sub_solutions`: a fresh solution lists itself; composition replaces
      the list by an explicit one. */
  datatype SubSolutions = Itself | Listed(solutions: seq<Solution>)

  datatype Solution = Solution(
    allTs: seq<Times>,
    allYs: seq<Columns>,
    allModels: seq<Model>,
    allInputs: seq<Inputs>,
    inputVectors: Option<seq<InputVector>>,   // the memoised `_all_inputs_casadi`
    tEvent: Option<real>,
    yEvent: Option<Column>,
    termination: string,
    hasSymbolicInputs: bool,
    setUpTime: Option<real>,
    solveTime: Option<real>,
    integrationTime: Option<real>,
    subs: SubSolutions)

  /** A constructor argument that is either a single value or a list. */
  datatype OneOrMany<T> = One(item: T) | Many(items: seq<T>)

  const FinalTime: string := "final time"
  const Success: string := "success"

  /** `x if isinstance(x, list) else [x]` */
  function AsList<T>(x: OneOrMany<T>): (r: seq<T>)
    ensures x.One? ==> r == [x.item]
    ensures x.Many? ==> r == x.items
  {
    match x
    case One(item) => [item]
    case Many(items) => items
  }

  /** Flat concatenation of a list of segments (`np.concatenate`). */
  function Concat<T>(segments: seq<seq<T>>): seq<T> {
    if |segments| == 0 then [] else segments[0] + Concat(segments[1..])
  }

  lemma {:induction false} ConcatAppend<T>(a: seq<seq<T>>, b: seq<seq<T>>)
    ensures Concat(a + b) == Concat(a) + Concat(b)
  {
    if |a| == 0 {
      assert a + b == b;
    } else {
      assert (a + b)[1..] == a[1..] + b;
      ConcatAppend(a[1..], b);
    }
  }

  /** Sequence concatenation is associative. */
  lemma AppendAssociates<T>(a: seq<T>, b: seq<T>, c: seq<T>)
    ensures (a + b) + c == a + (b + c)
  {
  }

  /** The scalar inputs of a single input set become one-element vectors;
      everything else is kept. */
  function NormaliseInputs(d: Inputs): (r: Inputs)
    ensures r.order == d.order && r.entries.Keys == d.entries.Keys
    ensures forall k :: k in r.entries ==> !r.entries[k].Number?
    ensures forall k :: k in d.entries && d.entries[k].Number? ==> r.entries[k] == Vector([d.entries[k].x])
    ensures forall k :: k in d.entries && !d.entries[k].Number? ==> r.entries[k] == d.entries[k]
  {
    Dict(d.order, map k | k in d.entries :: NormaliseValue(d.entries[k]))
  }

  function NormaliseValue(v: InputValue): InputValue {
    if v.Number? then Vector([v.x]) else v
  }

  /** True iff some input of the set is a symbolic placeholder. */
  predicate HasSymbolic(d: Inputs) {
    exists k :: k in d.entries && d.entries[k].Symbolic?
  }

  /** What every successfully constructed solution satisfies: a first model,
      a first input set, and the symbolic-input flag taken from that set. */
  predicate Constructed(s: Solution) {
    && |s.allModels| > 0
    && |s.allInputs| > 0
    && s.hasSymbolicInputs == HasSymbolic(s.allInputs[0])
  }

  /** `Solution.__init__` with list arguments. Reading `all_inputs[0]` and
      `all_models[0]` fails on an empty list. */
  function Make(allTs: seq<Times>, allYs: seq<Columns>, allModels: seq<Model>, allInputs: seq<Inputs>,
                tEvent: Option<real>, yEvent: Option<Column>, termination: string): (r: Result<Solution>)
    ensures r.Ok? <==> |allInputs| > 0 && |allModels| > 0
    ensures r.Err? ==> r.error == IndexOutOfRange
    ensures r.Ok? ==> Constructed(r.value) && SubSolutionsOf(r.value) == [r.value]
    ensures r.Ok? ==> r.value.allTs == allTs && r.value.allYs == allYs
    ensures r.Ok? ==> r.value.allModels == allModels && r.value.allInputs == allInputs
    ensures r.Ok? ==> r.value.tEvent == tEvent && r.value.yEvent == yEvent && r.value.termination == termination
    ensures r.Ok? ==> r.value.setUpTime.None? && r.value.solveTime.None? && r.value.integrationTime.None?
    ensures r.Ok? ==> InputVectors(r.value) == StackAll(allInputs)
  {
    if |allInputs| == 0 || |allModels| == 0 then Err(IndexOutOfRange)
    else Ok(Solution(allTs, allYs, allModels, allInputs, None, tEvent, yEvent, termination,
                     HasSymbolic(allInputs[0]), None, None, None, Itself))
  }

  /** `Solution.__init__` as called by a solver: any argument may be a single
      value, which becomes a one-element list; a single input set also has its
      bare numbers turned into one-element vectors, a list of input sets is
      taken as it is. */
  function Construct(ts: OneOrMany<Times>, ys: OneOrMany<Columns>, models: OneOrMany<Model>,
                     inputs: OneOrMany<Inputs>, tEvent: Option<real>, yEvent: Option<Column>,
                     termination: string): (r: Result<Solution>)
    ensures r.Ok? <==> |AsList(models)| > 0 && (inputs.One? || |inputs.items| > 0)
    ensures models.One? && inputs.One? ==> r.Ok?
    ensures r.Ok? ==> Constructed(r.value)
    ensures r.Ok? ==> r.value.allTs == AsList(ts) && r.value.allYs == AsList(ys) && r.value.allModels == AsList(models)
    ensures r.Ok? && ts.One? ==> r.value.allTs == [ts.item]
    ensures r.Ok? && ys.One? ==> r.value.allYs == [ys.item]
    ensures r.Ok? && models.One? ==> r.value.allModels == [models.item]
    ensures r.Ok? && inputs.One? ==>
      && r.value.allInputs == [NormaliseInputs(inputs.item)]
      && r.value.allInputs[0].entries.Keys == inputs.item.entries.Keys
      && (forall k :: k in r.value.allInputs[0].entries ==> !r.value.allInputs[0].entries[k].Number?)
    ensures r.Ok? && inputs.Many? ==> r.value.allInputs == inputs.items
    ensures r.Ok? ==> r.value.tEvent == tEvent && r.value.yEvent == yEvent
    ensures r.Ok? ==> r.value.termination == termination && r.value.subs == Itself
    ensures r.Ok? ==> r.value.setUpTime.None? && r.value.solveTime.None? && r.value.integrationTime.None?
  {
    var allInputs := match inputs
      case One(d) => [NormaliseInputs(d)]
      case Many(l) => l;
    Make(AsList(ts), AsList(ys), AsList(models), allInputs, tEvent, yEvent, termination)
  }

  /** Widening is idempotent: an input set the constructor has normalised
      is left as it is by a second normalisation. */
  lemma NormaliseIdempotent(d: Inputs)
    ensures NormaliseInputs(NormaliseInputs(d)) == NormaliseInputs(d)
  {
    var once := NormaliseInputs(d);
    var twice := NormaliseInputs(once);
    assert twice.entries == once.entries;
  }

  /** Single arguments construct the same solution as one-element lists
      whose input set is already widened. */
  lemma ConstructSingleAsList(t: Times, y: Columns, m: Model, d: Inputs, tEvent: Option<real>,
                              yEvent: Option<Column>, termination: string)
    ensures Construct(One(t), One(y), One(m), One(d), tEvent, yEvent, termination)
            == Construct(Many([t]), Many([y]), Many([m]), Many([NormaliseInputs(d)]), tEvent, yEvent, termination)
    ensures Construct(One(t), One(y), One(m), One(d), tEvent, yEvent, termination).Ok?
  {
  }

  /** `sub_solutions`: the solution itself for a fresh one. */
  function SubSolutionsOf(s: Solution): (r: seq<Solution>)
    ensures s.subs.Itself? ==> r == [s]
  {
    match s.subs
    case Itself => [s]
    case Listed(l) => l
  }

  function StackAll(inputs: seq<Inputs>): (r: seq<InputVector>)
    ensures |r| == |inputs|
    ensures forall i :: 0 <= i < |inputs| ==> r[i] == Values(inputs[i])
  {
    seq(|inputs|, i requires 0 <= i < |inputs| => Values(inputs[i]))
  }

  /** `all_inputs_casadi`: computed from the input sets unless memoised. */
  function InputVectors(s: Solution): seq<InputVector> {
    match s.inputVectors
    case Some(v) => v
    case None => StackAll(s.allInputs)
  }

  /** The memoised input vectors, when present, agree with the input sets. */
  predicate InputVectorsInSync(s: Solution) {
    s.inputVectors.None? || s.inputVectors.value == StackAll(s.allInputs)
  }

  // ---------------------------------------------------------------------------
  // The full time vector

  /** The independent notion: every earlier time is smaller than every later one. */
  ghost predicate StrictlyIncreasing(t: seq<real>) {
    forall i, j :: 0 <= i < j < |t| ==> t[i] < t[j]
  }

  /** The source's test `any(np.diff(t) <= 0)`. */
  predicate HasNonPositiveStep(t: seq<real>) {
    exists i :: 0 <= i < |t| - 1 && t[i + 1] - t[i] <= 0.0
  }

  /** Checking consecutive differences decides global strict increase. */
  lemma {:induction false} StepsDecideIncrease(t: seq<real>)
    ensures !HasNonPositiveStep(t) <==> StrictlyIncreasing(t)
  {
    if !HasNonPositiveStep(t) {
      forall i, j | 0 <= i < j < |t|
        ensures t[i] < t[j]
      {
        StepsChain(t, i, j);
      }
    } else {
      var i :| 0 <= i < |t| - 1 && t[i + 1] - t[i] <= 0.0;
      assert !(t[i] < t[i + 1]);
    }
  }

  lemma {:induction false} StepsChain(t: seq<real>, i: nat, j: nat)
    requires !HasNonPositiveStep(t)
    requires i < j < |t|
    ensures t[i] < t[j]
    decreases j - i
  {
    assert !(t[i + 1] - t[i] <= 0.0);
    if i + 1 < j {
      StepsChain(t, i + 1, j);
    }
  }

  /** `set_t`: the concatenated segment times, rejected exactly when there
      is no segment to concatenate or they are not strictly increasing. */
  function SetT(s: Solution): (r: Result<seq<real>>)
    ensures r.Ok? <==> |s.allTs| > 0 && StrictlyIncreasing(Concat(s.allTs))
    ensures r.Ok? ==> r.value == Concat(s.allTs)
    ensures |s.allTs| == 0 ==> r == Err(NothingToConcatenate)
    ensures r.Err? && |s.allTs| > 0 ==> r.error == NotStrictlyIncreasing
  {
    if |s.allTs| == 0 then Err(NothingToConcatenate)
    else
      var t := Concat(s.allTs);
      StepsDecideIncrease(t);
      if HasNonPositiveStep(t) then Err(NotStrictlyIncreasing) else Ok(t)
  }

  /** One read of the property `t`: the result and the memo `_t` afterwards. */
  datatype TimeRead = TimeRead(result: Result<seq<real>>, memo: Option<seq<real>>)

  /** The property `t` as written: `set_t` stores `_t` before it checks the
      vector, so after a failed first read the memo holds the rejected vector
      and the next read returns it unchecked. With no segment the
      concatenation itself raises, and nothing is stored. */
  function ReadTimesAsWritten(s: Solution, memo: Option<seq<real>>): (r: TimeRead)
    ensures memo.Some? ==> r == TimeRead(Ok(memo.value), memo)
    ensures memo.None? ==> r.result == SetT(s)
    ensures memo.None? && |s.allTs| == 0 ==> r.memo.None?
    ensures memo.None? && |s.allTs| > 0 ==> r.memo == Some(Concat(s.allTs))
  {
    if memo.Some? then TimeRead(Ok(memo.value), memo)
    else if |s.allTs| == 0 then TimeRead(Err(NothingToConcatenate), None)
    else
      var t := Concat(s.allTs);
      TimeRead(if HasNonPositiveStep(t) then Err(NotStrictlyIncreasing) else Ok(t), Some(t))
  }

  lemma StaleTimeRead(s: Solution)
    requires !StrictlyIncreasing(Concat(s.allTs))
    ensures ReadTimesAsWritten(s, None).result.Err?
    ensures ReadTimesAsWritten(s, ReadTimesAsWritten(s, None).memo).result == Ok(Concat(s.allTs))
  {
  }

  /** A concrete witness: two segments repeating the time 1.0 pass the second read. */
  lemma StaleTimeReadExample()
    ensures var s := Solution([[0.0, 1.0], [1.0, 2.0]], [], [Model(0, map[])], [Empty()], None, None,
                              None, FinalTime, false, None, None, None, Itself);
            var second := ReadTimesAsWritten(s, ReadTimesAsWritten(s, None).memo).result;
            second.Ok? && second.value == [0.0, 1.0, 1.0, 2.0] && !StrictlyIncreasing(second.value)
  {
    var s := Solution([[0.0, 1.0], [1.0, 2.0]], [], [Model(0, map[])], [Empty()], None, None,
                      None, FinalTime, false, None, None, None, Itself);
    assert Concat(s.allTs) == [0.0, 1.0, 1.0, 2.0] by {
      assert Concat(s.allTs[1..][1..]) == [];
    }
    var t := Concat(s.allTs);
    assert !(t[1] < t[2]);
    StaleTimeRead(s);
  }

  /** The memo holds only a vector that passed the check. */
  ghost predicate TimeMemoSound(s: Solution, memo: Option<seq<real>>) {
    memo.Some? ==> |s.allTs| > 0 && memo.value == Concat(s.allTs) && StrictlyIncreasing(memo.value)
  }

  /** The property `t` with the memo written only after the check succeeds:
      every read either fails or returns the strictly increasing vector. */
  function ReadTimes(s: Solution, memo: Option<seq<real>>): (r: TimeRead)
    requires TimeMemoSound(s, memo)
    ensures TimeMemoSound(s, r.memo)
    ensures r.result.Ok? <==> |s.allTs| > 0 && StrictlyIncreasing(Concat(s.allTs))
    ensures r.result.Ok? ==> r.result.value == Concat(s.allTs) && r.memo == Some(r.result.value)
    ensures memo.Some? ==> r.memo == memo
  {
    if memo.Some? then TimeRead(Ok(memo.value), memo)
    else match SetT(s)
      case Ok(t) => TimeRead(Ok(t), Some(t))
      case Err(e) => TimeRead(Err(e), None)
  }
}
