/** Composition of solutions: `copy`, `__add__` (with its single-point
    continuation rule and the de-duplication of a repeated boundary sample)
    and `__radd__`, which lets `None` start a sum (pybamm/solvers/solution.py). */
module Composition {
  import opened Outcomes
  import opened Trajectory

  /** The right operand of `+`: `None`, a solution, or anything else. */
  datatype Operand = NoneValue | SolutionValue(solution: Solution) | OtherValue

  /** Everything `copy` carries over, compared between two solutions. */
  predicate SameContent(r: Solution, s: Solution) {
    && r.allTs == s.allTs
    && r.allYs == s.allYs
    && r.allModels == s.allModels
    && r.allInputs == s.allInputs
    && InputVectors(r) == InputVectors(s)
    && r.tEvent == s.tEvent
    && r.yEvent == s.yEvent
    && r.termination == s.termination
    && r.setUpTime == s.setUpTime
    && r.solveTime == s.solveTime
    && r.integrationTime == s.integrationTime
    && SubSolutionsOf(r) == SubSolutionsOf(s)
  }

  /** `copy`: a new solution object over the same segments, input vectors,
      sub-solutions and timings. */
  function Copy(s: Solution): (r: Result<Solution>)
    ensures r.Ok? <==> |s.allInputs| > 0 && |s.allModels| > 0
    ensures r.Err? ==> r.error == IndexOutOfRange
    ensures r.Ok? ==> SameContent(r.value, s) && Constructed(r.value)
    ensures r.Ok? && Constructed(s) ==> r.value.hasSymbolicInputs == s.hasSymbolicInputs
    ensures r.Ok? && InputVectorsInSync(s) ==> InputVectorsInSync(r.value)
  {
    var made :- Make(s.allTs, s.allYs, s.allModels, s.allInputs, s.tEvent, s.yEvent, s.termination);
    Ok(made.(inputVectors := Some(InputVectors(s)), subs := Listed(SubSolutionsOf(s)),
              solveTime := s.solveTime, integrationTime := s.integrationTime, setUpTime := s.setUpTime))
  }

  /** `self.all_ts[-1][-1]` exists. */
  predicate HasLastTime(a: Solution) {
    |a.allTs| > 0 && |a.allTs[|a.allTs| - 1]| > 0
  }

  function LastTime(a: Solution): real
    requires HasLastTime(a)
  {
    a.allTs[|a.allTs| - 1][|a.allTs[|a.allTs| - 1]| - 1]
  }

  /** `other.all_ts[0][0]` exists. */
  predicate HasFirstTime(b: Solution) {
    |b.allTs| > 0 && |b.allTs[0]| > 0
  }

  /** `b` starts at the time where `a` ends. */
  predicate RepeatsBoundary(a: Solution, b: Solution) {
    HasFirstTime(b) && HasLastTime(a) && b.allTs[0][0] == LastTime(a)
  }

  /** `b` is one segment holding only the time where `a` ends. */
  predicate IsContinuation(a: Solution, b: Solution) {
    |b.allTs| == 1 && |b.allTs[0]| == 1 && RepeatsBoundary(a, b)
  }

  /** `[:, 1:]` on a state matrix: drop the first column, if any. */
  function DropFirst<T>(s: seq<T>): (r: seq<T>)
    ensures |s| > 0 ==> r == s[1..]
    ensures |s| == 0 ==> r == []
  {
    if |s| == 0 then [] else s[1..]
  }

  /** `solve_time` and `integration_time` of a sum; a timing still unset
      (`None`) makes the addition fail. */
  function SumTimings(x: Option<real>, y: Option<real>): (r: Result<real>)
    ensures r.Ok? <==> x.Some? && y.Some?
    ensures r.Ok? ==> r.value == x.value + y.value
    ensures r.Err? ==> r.error == MissingTiming
  {
    if x.Some? && y.Some? then Ok(x.value + y.value) else Err(MissingTiming)
  }

  /** The single-point continuation rule: a copy of `a` that takes `b`'s
      termination and event. */
  function Continue(a: Solution, b: Solution): (r: Result<Solution>)
    ensures r.Ok? <==> |a.allInputs| > 0 && |a.allModels| > 0
    ensures r.Err? ==> r.error == IndexOutOfRange
    ensures r.Ok? ==> && Constructed(r.value)
                      && r.value.termination == b.termination
                      && r.value.tEvent == b.tEvent
                      && r.value.yEvent == b.yEvent
                      && SameContent(r.value.(termination := a.termination, tEvent := a.tEvent, yEvent := a.yEvent), a)
  {
    var c :- Copy(a);
    Ok(c.(termination := b.termination, tEvent := b.tEvent, yEvent := b.yEvent))
  }

  /** The general rule: concatenate the segments (dropping a repeated
      boundary sample of `b`) and the bookkeeping of both operands. */
  function Concatenate(a: Solution, b: Solution): (r: Result<Solution>)
    requires HasFirstTime(b) && HasLastTime(a)
    ensures r.Ok? <==>
              && (RepeatsBoundary(a, b) ==> |b.allYs| > 0)
              && |a.allModels| + |b.allModels| > 0 && |a.allInputs| + |b.allInputs| > 0
              && a.solveTime.Some? && b.solveTime.Some?
              && a.integrationTime.Some? && b.integrationTime.Some?
    ensures r.Err? ==> r.error == IndexOutOfRange || r.error == MissingTiming
    ensures r.Ok? ==>
              && Constructed(r.value)
              && r.value.termination == b.termination
              && r.value.tEvent == b.tEvent
              && r.value.yEvent == b.yEvent
              && r.value.allModels == a.allModels + b.allModels
              && r.value.allInputs == a.allInputs + b.allInputs
              && InputVectors(r.value) == InputVectors(a) + InputVectors(b)
              && SubSolutionsOf(r.value) == SubSolutionsOf(a) + SubSolutionsOf(b)
              && a.solveTime.Some? && b.solveTime.Some?
              && a.integrationTime.Some? && b.integrationTime.Some?
              && r.value.solveTime == Some(a.solveTime.value + b.solveTime.value)
              && r.value.integrationTime == Some(a.integrationTime.value + b.integrationTime.value)
              && r.value.setUpTime.None?
              && r.value.allTs == JoinSegments(a.allTs, b.allTs, RepeatsBoundary(a, b))
              && (RepeatsBoundary(a, b) ==> |b.allYs| > 0)
              && r.value.allYs == JoinSegments(a.allYs, b.allYs, RepeatsBoundary(a, b))
  {
    var repeated := b.allTs[0][0] == LastTime(a);
    if repeated && |b.allYs| == 0 then Err(IndexOutOfRange)
    else
      var made :- Make(JoinSegments(a.allTs, b.allTs, repeated), JoinSegments(a.allYs, b.allYs, repeated),
                       a.allModels + b.allModels, a.allInputs + b.allInputs, b.tEvent, b.yEvent, b.termination);
      var solve :- SumTimings(a.solveTime, b.solveTime);
      var integration :- SumTimings(a.integrationTime, b.integrationTime);
      Ok(made.(inputVectors := Some(InputVectors(a) + InputVectors(b)),
               solveTime := Some(solve), integrationTime := Some(integration),
               subs := Listed(SubSolutionsOf(a) + SubSolutionsOf(b))))
  }

  /** `a + other`: a type error unless `other` is a solution; then the
      continuation rule or the general rule. Reading `a`'s last time or `b`'s
      first time fails when the segment is missing or empty. */
  function Add(a: Solution, other: Operand): (r: Result<Solution>)
    ensures !other.SolutionValue? ==> r == Err(TypeMismatch)
    ensures other.SolutionValue? ==> r.Err? ==> r.error != TypeMismatch
    ensures other.SolutionValue? && IsContinuation(a, other.solution) ==> r == Continue(a, other.solution)
    ensures other.SolutionValue? && !IsContinuation(a, other.solution) ==>
              if HasFirstTime(other.solution) && HasLastTime(a) then r == Concatenate(a, other.solution)
              else r == Err(IndexOutOfRange)
  {
    if !other.SolutionValue? then Err(TypeMismatch)
    else
      var b := other.solution;
      if |b.allTs| == 1 && |b.allTs[0]| == 1 && !HasLastTime(a) then Err(IndexOutOfRange)
      else if IsContinuation(a, b) then Continue(a, b)
      else if !HasFirstTime(b) || !HasLastTime(a) then Err(IndexOutOfRange)
      else Concatenate(a, b)
  }

  /** When `a + b` succeeds: the continuation needs `a`'s first model and
      input set; the general rule needs both boundary times, a column block
      of `b` when its first time repeats, a model and an input set between
      the operands, and both operands' solve and integration times. */
  lemma AddSucceeds(a: Solution, b: Solution)
    ensures Add(a, SolutionValue(b)).Ok? <==>
              if IsContinuation(a, b) then |a.allModels| > 0 && |a.allInputs| > 0
              else
                && HasFirstTime(b) && HasLastTime(a)
                && (RepeatsBoundary(a, b) ==> |b.allYs| > 0)
                && |a.allModels| + |b.allModels| > 0 && |a.allInputs| + |b.allInputs| > 0
                && a.solveTime.Some? && b.solveTime.Some?
                && a.integrationTime.Some? && b.integrationTime.Some?
  {
  }

  /** `r` stopped the way `s` did: same termination reason and event. */
  predicate EndsAs(r: Solution, s: Solution) {
    r.termination == s.termination && r.tEvent == s.tEvent && r.yEvent == s.yEvent
  }

  /** A sum takes its termination and event from the right operand. */
  lemma AddTakesRightEvents(a: Solution, b: Solution)
    requires Add(a, SolutionValue(b)).Ok?
    ensures EndsAs(Add(a, SolutionValue(b)).value, b)
  {
    if IsContinuation(a, b) {
      assert Add(a, SolutionValue(b)) == Continue(a, b);
    } else {
      assert Add(a, SolutionValue(b)) == Concatenate(a, b);
    }
  }

  /** `other + s` when `other` is not a solution: `None` gives a copy of `s`,
      anything else fails. */
  function RAdd(s: Solution, other: Operand): (r: Result<Solution>)
    ensures !other.NoneValue? ==> r == Err(TypeMismatch)
    ensures other.NoneValue? && Constructed(s) ==> r.Ok? && SameContent(r.value, s)
    ensures other.NoneValue? ==> (r.Ok? <==> |s.allInputs| > 0 && |s.allModels| > 0)
  {
    if other.NoneValue? then Copy(s) else Err(TypeMismatch)
  }

  // ---------------------------------------------------------------------------
  // The time vector and the state columns of a sum

  /** Reference definition: append `u` to `t`, dropping `u`'s first sample
      when it repeats `t`'s last one. */
  function Join<T(==)>(t: seq<T>, u: seq<T>): seq<T> {
    if |t| > 0 && |u| > 0 && u[0] == t[|t| - 1] then t + u[1..] else t + u
  }

  lemma {:induction false} ConcatFirst<T>(segs: seq<seq<T>>)
    requires |segs| > 0 && |segs[0]| > 0
    ensures Concat(segs) == segs[0] + Concat(segs[1..])
    ensures |Concat(segs)| > 0 && Concat(segs)[0] == segs[0][0]
  {
  }

  lemma {:induction false} ConcatLast<T>(segs: seq<seq<T>>)
    requires |segs| > 0 && |segs[|segs| - 1]| > 0
    ensures |Concat(segs)| > 0
    ensures Concat(segs)[|Concat(segs)| - 1] == segs[|segs| - 1][|segs[|segs| - 1]| - 1]
  {
    var n := |segs|;
    assert segs == segs[..n - 1] + [segs[n - 1]];
    ConcatAppend(segs[..n - 1], [segs[n - 1]]);
    assert Concat([segs[n - 1]]) == segs[n - 1] + Concat([segs[n - 1]][1..]);
    assert [segs[n - 1]][1..] == [];
  }

  /** `a`'s segments followed by `b`'s, with `b`'s first sample dropped when
      `repeated` (`self.all_ts + [other.all_ts[0][1:]] + other.all_ts[1:]`). */
  function JoinSegments<T>(x: seq<seq<T>>, y: seq<seq<T>>, repeated: bool): seq<seq<T>>
    requires repeated ==> |y| > 0
  {
    if repeated then x + [DropFirst(y[0])] + y[1..] else x + y
  }

  lemma {:induction false} ConcatJoinSegments<T>(x: seq<seq<T>>, y: seq<seq<T>>, repeated: bool)
    requires repeated ==> |y| > 0 && |y[0]| > 0
    ensures Concat(JoinSegments(x, y, repeated)) ==
              Concat(x) + (if repeated then Concat(y)[1..] else Concat(y))
  {
    if repeated {
      var y0 := y[0][1..];
      ConcatAppend(x + [y0], y[1..]);
      ConcatAppend(x, [y0]);
      assert Concat([y0]) == y0 + Concat([y0][1..]);
      assert [y0][1..] == [];
      ConcatFirst(y);
      assert (y[0] + Concat(y[1..]))[1..] == y0 + Concat(y[1..]);
    } else {
      ConcatAppend(x, y);
    }
  }

  /** The segments of the sum, flattened, are `a`'s times joined with `b`'s. */
  lemma AddJoinsTimes(a: Solution, b: Solution)
    requires Add(a, SolutionValue(b)).Ok?
    ensures Concat(Add(a, SolutionValue(b)).value.allTs) == Join(Concat(a.allTs), Concat(b.allTs))
  {
    var r := Add(a, SolutionValue(b)).value;
    ConcatLast(a.allTs);
    ConcatFirst(b.allTs);
    if IsContinuation(a, b) {
      assert b.allTs[1..] == [];
      assert Concat(b.allTs) == [b.allTs[0][0]];
    } else {
      ConcatJoinSegments(a.allTs, b.allTs, RepeatsBoundary(a, b));
    }
  }

  /** Segment by segment, one state column per time point. */
  ghost predicate Shaped(ts: seq<Times>, ys: seq<Columns>) {
    |ys| == |ts| && forall i :: 0 <= i < |ts| ==> |ys[i]| == |ts[i]|
  }

  ghost predicate WellShaped(s: Solution) {
    Shaped(s.allTs, s.allYs)
  }

  lemma JoinSegmentsShaped(xt: seq<Times>, yt: seq<Times>, xs: seq<Columns>, ys: seq<Columns>, repeated: bool)
    requires Shaped(xt, xs) && Shaped(yt, ys)
    requires repeated ==> |yt| > 0
    ensures Shaped(JoinSegments(xt, yt, repeated), JoinSegments(xs, ys, repeated))
  {
    var t := JoinSegments(xt, yt, repeated);
    var c := JoinSegments(xs, ys, repeated);
    forall i | 0 <= i < |t|
      ensures |c[i]| == |t[i]|
    {
      if i < |xt| {
        assert t[i] == xt[i] && c[i] == xs[i];
      } else if repeated && i == |xt| {
        assert t[i] == DropFirst(yt[0]) && c[i] == DropFirst(ys[0]);
      } else {
        var k := if repeated then i - |xt| else i - |xt|;
        assert t[i] == yt[k] && c[i] == ys[k];
      }
    }
  }

  /** The state columns of the sum are `a`'s followed by `b`'s, without `b`'s
      first column exactly when `b`'s first time was dropped. */
  lemma AddJoinsColumns(a: Solution, b: Solution)
    requires Add(a, SolutionValue(b)).Ok?
    requires WellShaped(a) && WellShaped(b)
    ensures WellShaped(Add(a, SolutionValue(b)).value)
    ensures Concat(Add(a, SolutionValue(b)).value.allYs) ==
              Concat(a.allYs) + (if RepeatsBoundary(a, b) then Concat(b.allYs)[1..] else Concat(b.allYs))
  {
    var r := Add(a, SolutionValue(b)).value;
    assert |b.allYs[0]| == |b.allTs[0]| > 0;
    ConcatFirst(b.allYs);
    if IsContinuation(a, b) {
      assert b.allYs[1..] == [];
      assert Concat(b.allYs) == [b.allYs[0][0]];
    } else {
      JoinSegmentsShaped(a.allTs, b.allTs, a.allYs, b.allYs, RepeatsBoundary(a, b));
      ConcatJoinSegments(a.allYs, b.allYs, RepeatsBoundary(a, b));
    }
  }

  /** Joining two strictly increasing vectors that meet in order (the second
      starting no earlier than the first ends) gives a strictly increasing one
      that ends where the second ends. */
  lemma {:induction false} JoinIncreasing(t: seq<real>, u: seq<real>)
    requires StrictlyIncreasing(t) && StrictlyIncreasing(u)
    requires |t| > 0 && |u| > 0 && t[|t| - 1] <= u[0]
    ensures StrictlyIncreasing(Join(t, u))
    ensures |Join(t, u)| > 0 && Join(t, u)[|Join(t, u)| - 1] == u[|u| - 1]
    ensures Join(t, u)[0] == t[0]
  {
    var j := Join(t, u);
    var rest := if u[0] == t[|t| - 1] then u[1..] else u;
    assert j == t + rest;
    assert forall k :: 0 <= k < |rest| ==> t[|t| - 1] < rest[k] by {
      forall k | 0 <= k < |rest|
        ensures t[|t| - 1] < rest[k]
      {
        if u[0] == t[|t| - 1] {
          assert rest[k] == u[k + 1];
        }
      }
    }
    forall i, k | 0 <= i < k < |j|
      ensures j[i] < j[k]
    {
      if k < |t| {
      } else if i >= |t| {
        assert j[i] == rest[i - |t|] && j[k] == rest[k - |t|];
        if u[0] == t[|t| - 1] {
          assert rest[i - |t|] == u[i - |t| + 1] && rest[k - |t|] == u[k - |t| + 1];
        }
      } else {
        assert j[k] == rest[k - |t|];
        assert i == |t| - 1 || t[i] < t[|t| - 1];
      }
    }
  }

  /** A sum of two valid trajectories that meet in order is a valid
      trajectory: its time vector passes `set_t`. */
  lemma AddKeepsTimesIncreasing(a: Solution, b: Solution)
    requires Add(a, SolutionValue(b)).Ok?
    requires SetT(a).Ok? && SetT(b).Ok?
    requires HasLastTime(a) && HasFirstTime(b) && LastTime(a) <= b.allTs[0][0]
    ensures SetT(Add(a, SolutionValue(b)).value).Ok?
  {
    AddJoinsTimes(a, b);
    ConcatLast(a.allTs);
    ConcatFirst(b.allTs);
    JoinIncreasing(Concat(a.allTs), Concat(b.allTs));
  }

  /** The shared-boundary example: times [0, 1, 2] and [2, 3] give [0, 1, 2, 3]
      with one state column per time. */
  lemma SharedBoundaryExample(m: Model, i: Dicts.Dict<InputValue>)
    ensures
      var a := Solution([[0.0, 1.0, 2.0]], [[[0.0], [1.0], [2.0]]], [m], [i], None, None, None,
                        FinalTime, false, Some(0.0), Some(1.0), Some(1.0), Itself);
      var b := Solution([[2.0, 3.0]], [[[2.0], [3.0]]], [m], [i], None, None, None,
                        FinalTime, false, Some(0.0), Some(1.0), Some(1.0), Itself);
      var r := Add(a, SolutionValue(b));
      && r.Ok?
      && Concat(r.value.allTs) == [0.0, 1.0, 2.0, 3.0]
      && Concat(r.value.allYs) == [[0.0], [1.0], [2.0], [3.0]]
      && r.value.solveTime == Some(2.0)
      && SubSolutionsOf(r.value) == [a, b]
  {
    var a := Solution([[0.0, 1.0, 2.0]], [[[0.0], [1.0], [2.0]]], [m], [i], None, None, None,
                      FinalTime, false, Some(0.0), Some(1.0), Some(1.0), Itself);
    var b := Solution([[2.0, 3.0]], [[[2.0], [3.0]]], [m], [i], None, None, None,
                      FinalTime, false, Some(0.0), Some(1.0), Some(1.0), Itself);
    var r := Add(a, SolutionValue(b)).value;
    assert r.allTs == [[0.0, 1.0, 2.0], [3.0]];
    assert r.allYs == [[[0.0], [1.0], [2.0]], [[3.0]]];
    assert Concat(r.allTs) == [0.0, 1.0, 2.0] + Concat(r.allTs[1..]);
    assert Concat(r.allTs[1..]) == [3.0] + Concat(r.allTs[1..][1..]);
    assert Concat(r.allYs) == [[0.0], [1.0], [2.0]] + Concat(r.allYs[1..]);
    assert Concat(r.allYs[1..]) == [[3.0]] + Concat(r.allYs[1..][1..]);
  }
}
