/** The boundary states of a solution: `first_state` and `last_state`, the
    one-point sub-solutions built from the first and the last segment, with
    zero timings, memoised on first access (pybamm/solvers/solution.py). */
module Boundary {
  import opened Outcomes
  import opened Trajectory
  import Composition

  /** `s[:1]` */
  function Front<T>(s: seq<T>): (r: seq<T>)
    ensures |s| > 0 ==> r == [s[0]]
    ensures |s| == 0 ==> r == []
  {
    if |s| == 0 then [] else s[..1]
  }

  /** `s[-1:]` */
  function Back<T>(s: seq<T>): (r: seq<T>)
    ensures |s| > 0 ==> r == [s[|s| - 1]]
    ensures |s| == 0 ==> r == []
  {
    if |s| == 0 then [] else s[|s| - 1..]
  }

  /** Every timing of a boundary state is zero. */
  predicate ZeroTimings(s: Solution) {
    s.solveTime == Some(0.0) && s.integrationTime == Some(0.0) && s.setUpTime == Some(0.0)
  }

  /** Reading the first or last segment, column block, model or input set
      fails when that list is empty. */
  predicate HasBoundary(s: Solution) {
    |s.allTs| > 0 && |s.allYs| > 0 && |s.allModels| > 0 && |s.allInputs| > 0
  }

  /** `first_state`. */
  function FirstState(s: Solution): (r: Result<Solution>)
    ensures r.Ok? <==> HasBoundary(s)
    ensures r.Err? ==> r.error == IndexOutOfRange
    ensures r.Ok? ==>
              && var f := r.value;
              && Constructed(f)
              && |f.allTs| == 1 && |Concat(f.allTs)| <= 1
              // exactly the global first time, when the first segment holds one
              && (|s.allTs[0]| > 0 ==> Concat(f.allTs) == [Concat(s.allTs)[0]])
              && (|s.allYs[0]| > 0 ==> f.allYs == [[s.allYs[0][0]]])
              // and no time or column at all when the first segment is empty
              && (|s.allTs[0]| == 0 ==> Concat(f.allTs) == [])
              && (|s.allYs[0]| == 0 ==> f.allYs == [[]])
              && f.allModels == [s.allModels[0]] && f.allInputs == [s.allInputs[0]]
              && InputVectors(f) == Front(InputVectors(s))
              && SubSolutionsOf(f) == Front(SubSolutionsOf(s))
              && f.tEvent.None? && f.yEvent.None? && f.termination == Success
              && ZeroTimings(f)
  {
    if !HasBoundary(s) then Err(IndexOutOfRange)
    else
      var made := Make([Front(s.allTs[0])], [Front(s.allYs[0])], Front(s.allModels), Front(s.allInputs),
                       None, None, Success).value;
      FirstTimeIsGlobal(s.allTs);
      Ok(made.(inputVectors := Some(Front(InputVectors(s))), subs := Listed(Front(SubSolutionsOf(s))),
               solveTime := Some(0.0), integrationTime := Some(0.0), setUpTime := Some(0.0)))
  }

  /** `last_state`. */
  function LastState(s: Solution): (r: Result<Solution>)
    ensures r.Ok? <==> HasBoundary(s)
    ensures r.Err? ==> r.error == IndexOutOfRange
    ensures r.Ok? ==>
              && var l := r.value;
              && var lastTs := s.allTs[|s.allTs| - 1];
              && var lastYs := s.allYs[|s.allYs| - 1];
              && Constructed(l)
              && |l.allTs| == 1 && |Concat(l.allTs)| <= 1
              // exactly the global last time, when the last segment holds one
              && (|lastTs| > 0 ==> |Concat(s.allTs)| > 0 && Concat(l.allTs) == [Concat(s.allTs)[|Concat(s.allTs)| - 1]])
              && (|lastYs| > 0 ==> l.allYs == [[lastYs[|lastYs| - 1]]])
              // and no time or column at all when the last segment is empty
              && (|lastTs| == 0 ==> Concat(l.allTs) == [])
              && (|lastYs| == 0 ==> l.allYs == [[]])
              && l.allModels == [s.allModels[|s.allModels| - 1]]
              && l.allInputs == [s.allInputs[|s.allInputs| - 1]]
              && InputVectors(l) == Back(InputVectors(s))
              && SubSolutionsOf(l) == Back(SubSolutionsOf(s))
              && l.tEvent == s.tEvent && l.yEvent == s.yEvent && l.termination == s.termination
              && ZeroTimings(l)
  {
    if !HasBoundary(s) then Err(IndexOutOfRange)
    else
      var lastTs := s.allTs[|s.allTs| - 1];
      var made := Make([Back(lastTs)], [Back(s.allYs[|s.allYs| - 1])], Back(s.allModels), Back(s.allInputs),
                       s.tEvent, s.yEvent, s.termination).value;
      LastTimeIsGlobal(s.allTs);
      Ok(made.(inputVectors := Some(Back(InputVectors(s))), subs := Listed(Back(SubSolutionsOf(s))),
               solveTime := Some(0.0), integrationTime := Some(0.0), setUpTime := Some(0.0)))
  }

  lemma ConcatOne<T>(x: seq<T>)
    ensures Concat([x]) == x
  {
    assert [x][1..] == [];
  }

  lemma FirstTimeIsGlobal(ts: seq<Times>)
    requires |ts| > 0
    ensures |Concat([Front(ts[0])])| <= 1
    ensures |ts[0]| > 0 ==> Concat([Front(ts[0])]) == [Concat(ts)[0]]
  {
    ConcatOne(Front(ts[0]));
    if |ts[0]| > 0 {
      Composition.ConcatFirst(ts);
    }
  }

  lemma LastTimeIsGlobal(ts: seq<Times>)
    requires |ts| > 0
    ensures |Concat([Back(ts[|ts| - 1])])| <= 1
    ensures |ts[|ts| - 1]| > 0 ==> |Concat(ts)| > 0 && Concat([Back(ts[|ts| - 1])]) == [Concat(ts)[|Concat(ts)| - 1]]
  {
    ConcatOne(Back(ts[|ts| - 1]));
    if |ts[|ts| - 1]| > 0 {
      Composition.ConcatLast(ts);
    }
  }

  // ---------------------------------------------------------------------------
  // Memoisation

  /** The memo attributes `_first_state` and `_last_state` of one solution. */
  datatype BoundaryMemo = BoundaryMemo(first: Option<Solution>, last: Option<Solution>)

  /** One access: what it returns and the memo afterwards. */
  datatype Access = Access(result: Result<Solution>, memo: BoundaryMemo)

  /** The memo only ever holds what the accessor computes. */
  predicate MemoSound(s: Solution, memo: BoundaryMemo) {
    && (memo.first.Some? ==> FirstState(s) == Ok(memo.first.value))
    && (memo.last.Some? ==> LastState(s) == Ok(memo.last.value))
  }

  /** The property `first_state`: a hit returns the memo, a miss computes,
      and a successful computation is stored. */
  function FirstStateCached(s: Solution, memo: BoundaryMemo): (r: Access)
    ensures memo.first.Some? ==> r == Access(Ok(memo.first.value), memo)
    ensures memo.first.None? && FirstState(s).Ok? ==> r.memo.first == Some(FirstState(s).value)
    ensures memo.first.None? && FirstState(s).Err? ==> r.memo == memo
    ensures r.memo.last == memo.last
    ensures MemoSound(s, memo) ==> MemoSound(s, r.memo) && r.result == FirstState(s)
  {
    if memo.first.Some? then Access(Ok(memo.first.value), memo)
    else match FirstState(s)
      case Ok(f) => Access(Ok(f), memo.(first := Some(f)))
      case Err(e) => Access(Err(e), memo)
  }

  /** The property `last_state`, memoised like `first_state`. */
  function LastStateCached(s: Solution, memo: BoundaryMemo): (r: Access)
    ensures memo.last.Some? ==> r == Access(Ok(memo.last.value), memo)
    ensures memo.last.None? && LastState(s).Ok? ==> r.memo.last == Some(LastState(s).value)
    ensures memo.last.None? && LastState(s).Err? ==> r.memo == memo
    ensures r.memo.first == memo.first
    ensures MemoSound(s, memo) ==> MemoSound(s, r.memo) && r.result == LastState(s)
  {
    if memo.last.Some? then Access(Ok(memo.last.value), memo)
    else match LastState(s)
      case Ok(l) => Access(Ok(l), memo.(last := Some(l)))
      case Err(e) => Access(Err(e), memo)
  }

  /** After a successful access, the next access returns the same state and
      leaves the memo as it is. */
  lemma BoundaryStatesMemoised(s: Solution, memo: BoundaryMemo)
    requires MemoSound(s, memo)
    ensures var once := FirstStateCached(s, memo);
            once.result.Ok? ==> FirstStateCached(s, once.memo) == Access(once.result, once.memo)
    ensures var once := LastStateCached(s, memo);
            once.result.Ok? ==> LastStateCached(s, once.memo) == Access(once.result, once.memo)
  {
  }
}
