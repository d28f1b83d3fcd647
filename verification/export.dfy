/** `save_data` (pybamm/solvers/solution.py): which arrays are saved, under
    which names, and the checks each output format makes before writing. The
    writing itself (pickle, savemat, a CSV file) is left out; the model
    returns the dictionary that would be written and the chosen format. */
module Export {
  import opened Outcomes
  import opened Dicts
  import opened Trajectory
  import opened Variables

  datatype Format = Pickle | Matlab | Csv

  /** What `save_data` hands to the writer. */
  datatype ExportPlan = ExportPlan(format: Format, data: Dict<Array>)

  // ---------------------------------------------------------------------------
  // MATLAB identifiers

  /** A character MATLAB accepts at position `i` of a variable name: an ASCII
      letter or underscore anywhere, an ASCII digit anywhere but first. */
  predicate ValidMatlabChar(c: char, i: nat) {
    var o := c as int;
    || (97 <= o <= 122)
    || (65 <= o <= 90)
    || o == 95
    || (i > 0 && 48 <= o <= 57)
  }

  predicate IsMatlabName(name: string) {
    forall i :: 0 <= i < |name| ==> ValidMatlabChar(name[i], i)
  }

  /** The position of the first character of `name` from `from` on that MATLAB
      rejects. */
  function FirstInvalidChar(name: string, from: nat): (r: Option<nat>)
    requires from <= |name|
    ensures r.None? <==> forall i :: from <= i < |name| ==> ValidMatlabChar(name[i], i)
    ensures r.Some? ==>
              && from <= r.value < |name|
              && !ValidMatlabChar(name[r.value], r.value)
              && forall i :: from <= i < r.value ==> ValidMatlabChar(name[i], i)
    decreases |name| - from
  {
    if from == |name| then None
    else if !ValidMatlabChar(name[from], from) then Some(from)
    else FirstInvalidChar(name, from + 1)
  }

  /** Character `i` of name `j` is the first one the nested loops over names
      and characters reject. */
  ghost predicate FirstOffence(names: seq<string>, j: int, i: int) {
    && 0 <= j < |names|
    && 0 <= i < |names[j]|
    && !ValidMatlabChar(names[j][i], i)
    && (forall jj :: 0 <= jj < j ==> IsMatlabName(names[jj]))
    && (forall ii :: 0 <= ii < i ==> ValidMatlabChar(names[j][ii], ii))
  }

  /** The MATLAB branch of `save_data`: every name must be an identifier; the
      error names the first offending character and its name. */
  function CheckMatlabNames(names: seq<string>): (r: Result<()>)
    ensures r.Ok? <==> forall j :: 0 <= j < |names| ==> IsMatlabName(names[j])
    ensures r.Err? ==> exists j, i :: FirstOffence(names, j, i) && r.error == InvalidIdentifier(names[j][i], names[j])
  {
    if |names| == 0 then Ok(())
    else match FirstInvalidChar(names[0], 0)
      case Some(i) =>
        assert FirstOffence(names, 0, i);
        Err(InvalidIdentifier(names[0][i], names[0]))
      case None =>
        var rest := CheckMatlabNames(names[1..]);
        if rest.Err? then
          OffenceShifts(names, rest.error);
          rest
        else
          assert forall j :: 1 <= j < |names| ==> names[j] == names[1..][j - 1];
          rest
  }

  lemma OffenceShifts(names: seq<string>, e: Error)
    requires |names| > 0 && IsMatlabName(names[0])
    requires exists j, i :: FirstOffence(names[1..], j, i) && e == InvalidIdentifier(names[1..][j][i], names[1..][j])
    ensures exists j, i :: FirstOffence(names, j, i) && e == InvalidIdentifier(names[j][i], names[j])
  {
    var j, i :| FirstOffence(names[1..], j, i) && e == InvalidIdentifier(names[1..][j][i], names[1..][j]);
    assert FirstOffence(names, j + 1, i);
  }

  // ---------------------------------------------------------------------------
  // CSV

  /** Array `names[j]` is the first one of two or more dimensions. */
  ghost predicate FirstHighDimension(names: seq<string>, m: map<string, Array>, j: int)
    requires forall n :: n in names ==> n in m
  {
    && 0 <= j < |names|
    && m[names[j]].ndim >= 2
    && forall jj :: 0 <= jj < j ==> m[names[jj]].ndim < 2
  }

  /** The CSV branch of `save_data`: only arrays of at most one dimension (a
      value per time) fit a column; the error reports the first other one with
      its dimension counted without the time axis. */
  function CheckZeroDimensional(names: seq<string>, m: map<string, Array>): (r: Result<()>)
    requires forall n :: n in names ==> n in m
    ensures r.Ok? <==> forall j :: 0 <= j < |names| ==> m[names[j]].ndim < 2
    ensures r.Err? ==>
              exists j :: FirstHighDimension(names, m, j) && r.error == NotZeroDimensional(names[j], m[names[j]].ndim - 1)
  {
    if |names| == 0 then Ok(())
    else if m[names[0]].ndim >= 2 then
      assert FirstHighDimension(names, m, 0);
      Err(NotZeroDimensional(names[0], m[names[0]].ndim - 1))
    else
      var rest := CheckZeroDimensional(names[1..], m);
      if rest.Err? then
        HighDimensionShifts(names, m, rest.error);
        rest
      else
        assert forall j :: 1 <= j < |names| ==> names[j] == names[1..][j - 1];
        rest
  }

  lemma HighDimensionShifts(names: seq<string>, m: map<string, Array>, e: Error)
    requires forall n :: n in names ==> n in m
    requires |names| > 0 && m[names[0]].ndim < 2
    requires exists j :: FirstHighDimension(names[1..], m, j) &&
                         e == NotZeroDimensional(names[1..][j], m[names[1..][j]].ndim - 1)
    ensures exists j :: FirstHighDimension(names, m, j) && e == NotZeroDimensional(names[j], m[names[j]].ndim - 1)
  {
    var j :| FirstHighDimension(names[1..], m, j) && e == NotZeroDimensional(names[1..][j], m[names[1..][j]].ndim - 1);
    assert FirstHighDimension(names, m, j + 1);
  }

  // ---------------------------------------------------------------------------
  // Short names

  /** The name an array is saved under. */
  function Rename(short: map<string, string>, name: string): string {
    if name in short then short[name] else name
  }

  /** No two of `keys` are saved under the same name. */
  ghost predicate RenamesApart(keys: seq<string>, short: map<string, string>) {
    forall i, j :: 0 <= i < j < |keys| ==> Rename(short, keys[i]) != Rename(short, keys[j])
  }

  /** The names `keys` are saved under, in order. */
  function Renamed(keys: seq<string>, short: map<string, string>): (r: seq<string>)
    ensures |r| == |keys|
    ensures forall i :: 0 <= i < |keys| ==> r[i] == Rename(short, keys[i])
  {
    seq(|keys|, i requires 0 <= i < |keys| => Rename(short, keys[i]))
  }

  lemma RenamedCons(keys: seq<string>, short: map<string, string>)
    requires |keys| > 0
    ensures Renamed(keys, short) == [Rename(short, keys[0])] + Renamed(keys[1..], short)
  {
    assert forall i :: 1 <= i < |keys| ==> keys[i] == keys[1..][i - 1];
  }

  /** The loop building `data_short_names`: each array is stored under its
      short name, a later one overwriting an earlier one of the same name. */
  function RenameFrom(acc: Dict<Array>, keys: seq<string>, m: map<string, Array>, short: map<string, string>): (r: Dict<Array>)
    requires forall k :: k in keys ==> k in m
    ensures WellFormed(acc) ==> WellFormed(r)
    ensures forall k :: k in r.entries <==> k in acc.entries || k in Renamed(keys, short)
    ensures forall k :: k in acc.entries && k !in Renamed(keys, short) ==> r.entries[k] == acc.entries[k]
    decreases |keys|
  {
    if |keys| == 0 then acc
    else
      RenamedCons(keys, short);
      RenameFrom(Set(acc, Rename(short, keys[0]), m[keys[0]]), keys[1..], m, short)
  }

  lemma TailRenamesApart(keys: seq<string>, short: map<string, string>)
    requires |keys| > 0 && RenamesApart(keys, short)
    ensures RenamesApart(keys[1..], short)
    ensures Rename(short, keys[0]) !in Renamed(keys[1..], short)
  {
    var tail := keys[1..];
    forall a, b | 0 <= a < b < |tail|
      ensures Rename(short, tail[a]) != Rename(short, tail[b])
    {
      assert tail[a] == keys[a + 1] && tail[b] == keys[b + 1];
    }
    forall i | 0 <= i < |tail|
      ensures Rename(short, tail[i]) != Rename(short, keys[0])
    {
      assert tail[i] == keys[i + 1];
    }
  }

  /** When no two names collide, every array is saved under its own short
      name. */
  lemma {:induction false} RenameFromValues(acc: Dict<Array>, keys: seq<string>, m: map<string, Array>,
                                            short: map<string, string>)
    requires forall k :: k in keys ==> k in m
    requires RenamesApart(keys, short)
    ensures var r := RenameFrom(acc, keys, m, short);
            forall i :: 0 <= i < |keys| ==> r.entries[Rename(short, keys[i])] == m[keys[i]]
    decreases |keys|
  {
    if |keys| > 0 {
      var next := Set(acc, Rename(short, keys[0]), m[keys[0]]);
      var tail := keys[1..];
      TailRenamesApart(keys, short);
      RenameFromValues(next, tail, m, short);
      var r := RenameFrom(next, tail, m, short);
      assert r == RenameFrom(acc, keys, m, short);
      forall i | 0 <= i < |keys|
        ensures r.entries[Rename(short, keys[i])] == m[keys[i]]
      {
        if i > 0 {
          assert keys[i] == tail[i - 1];
        }
      }
    }
  }

  /** When no two names collide and none was there before, the saved names
      follow the original order after what was there before. */
  lemma {:induction false} RenameFromOrder(acc: Dict<Array>, keys: seq<string>, m: map<string, Array>,
                                           short: map<string, string>)
    requires forall k :: k in keys ==> k in m
    requires RenamesApart(keys, short)
    requires forall k :: k in Renamed(keys, short) ==> k !in acc.order
    ensures RenameFrom(acc, keys, m, short).order == acc.order + Renamed(keys, short)
    decreases |keys|
  {
    if |keys| > 0 {
      var k0 := Rename(short, keys[0]);
      var next := Set(acc, k0, m[keys[0]]);
      var tail := keys[1..];
      assert next.order == acc.order + [k0] by {
        assert Renamed(keys, short)[0] == k0;
      }
      assert RenamesApart(tail, short) by {
        TailRenamesApart(keys, short);
      }
      assert forall k :: k in Renamed(tail, short) ==> k !in next.order by {
        RenamedCons(keys, short);
        TailRenamesApart(keys, short);
      }
      RenameFromOrder(next, tail, m, short);
      assert RenameFrom(acc, keys, m, short).order == (acc.order + [k0]) + Renamed(tail, short);
      assert Renamed(keys, short) == [k0] + Renamed(tail, short) by {
        RenamedCons(keys, short);
      }
      AppendAssociates(acc.order, [k0], Renamed(tail, short));
    }
  }

  /** `data_short_names` for the dictionary `data`. */
  function ApplyShortNames(data: Dict<Array>, short: map<string, string>): (r: Dict<Array>)
    requires WellFormed(data)
    ensures WellFormed(r)
    ensures forall k :: k in r.entries <==> k in Renamed(data.order, short)
  {
    RenameFrom(Empty(), data.order, data.entries, short)
  }

  /** Without collisions, renaming keeps every array and the order: the saved
      dictionary is the original one with its keys renamed. */
  lemma ShortNamesKeepArrays(data: Dict<Array>, short: map<string, string>)
    requires WellFormed(data)
    requires RenamesApart(data.order, short)
    ensures var r := ApplyShortNames(data, short);
            && r.order == Renamed(data.order, short)
            && forall n :: n in data.entries ==> r.entries[Rename(short, n)] == data.entries[n]
  {
    RenameFromValues(Empty(), data.order, data.entries, short);
    RenameFromOrder(Empty(), data.order, data.entries, short);
    var r := ApplyShortNames(data, short);
    forall n | n in data.entries
      ensures r.entries[Rename(short, n)] == data.entries[n]
    {
      var i :| 0 <= i < |data.order| && data.order[i] == n;
    }
  }

  /** Two names given the same short name: mapping `a` to `b` while `b` is
      also saved keeps only the later array, under `b`, in `a`'s position. */
  lemma ShortNameCollision(a: string, b: string, x: Array, y: Array)
    requires a != b
    ensures var data := Dict([a, b], map[a := x, b := y]);
            ApplyShortNames(data, map[a := b]) == Dict([b], map[b := y])
  {
    var short := map[a := b];
    var m := map[a := x, b := y];
    var one := Set(Empty<Array>(), b, x);
    calc {
      ApplyShortNames(Dict([a, b], m), short);
      RenameFrom(Empty(), [a, b], m, short);
      { RenameFromStep(Empty(), [a, b], m, short); }
      RenameFrom(one, [b], m, short);
      { RenameFromStep(one, [b], m, short); }
      RenameFrom(Set(one, b, y), [], m, short);
    }
    assert Set(one, b, y) == Dict([b], map[b := y]);
  }

  lemma RenameFromStep(acc: Dict<Array>, keys: seq<string>, m: map<string, Array>, short: map<string, string>)
    requires |keys| > 0 && forall k :: k in keys ==> k in m
    ensures RenameFrom(acc, keys, m, short) == RenameFrom(Set(acc, Rename(short, keys[0]), m[keys[0]]), keys[1..], m, short)
  {
  }

  // ---------------------------------------------------------------------------
  // save_data

  /** `data[name] = self[name].data` for each requested name in turn. */
  function CollectData(s: Solution, cache: VariableCache, store: Store, names: seq<string>, oracle: Oracle,
                       acc: Dict<Array>): (r: Step<Dict<Array>>)
    ensures InSync(cache) ==> InSync(r.cache)
    ensures Keeps(cache, r.cache)
    ensures r.result.Ok? && WellFormed(acc) ==> WellFormed(r.result.value)
    ensures r.result.Ok? ==> forall k :: k in r.result.value.entries <==> k in acc.entries || k in names
    ensures r.result.Ok? ==>
              forall k :: k in acc.entries && k !in names ==> r.result.value.entries[k] == acc.entries[k]
    ensures r.result.Ok? ==>
              forall k :: k in names ==>
                k in r.cache.variables.entries && r.result.value.entries[k] == r.cache.variables.entries[k].data
    decreases |names|
  {
    if |names| == 0 then Step(cache, store, [], Ok(acc))
    else
      var got := GetItem(s, cache, store, names[0], oracle);
      match got.result
      case Err(e) => Step(got.cache, got.store, got.compiled, Err(e))
      case Ok(v) =>
        var rest := CollectData(s, got.cache, got.store, names[1..], oracle, Set(acc, names[0], v.data));
        assert forall k :: k in names <==> k == names[0] || k in names[1..];
        KeepsTransitive(cache, got.cache, rest.cache);
        assert got.cache.variables.entries[names[0]] == v;
        assert rest.result.Ok? && names[0] !in names[1..] ==> rest.result.value.entries[names[0]] == v.data;
        Step(rest.cache, rest.store, got.compiled + rest.compiled, rest.result)
  }

  /** Collecting only adds evaluators, fails only on a name that cannot be
      evaluated, and keeps the caches faithful. */
  lemma {:induction false} CollectDataSound(s: Solution, cache: VariableCache, store: Store, names: seq<string>,
                                            oracle: Oracle, acc: Dict<Array>)
    ensures var r := CollectData(s, cache, store, names, oracle, acc);
            && Extends(store, r.store)
            && (r.result.Err? ==> exists i :: 0 <= i < |names| && Evaluate(s, names[i], oracle) == Err(r.result.error))
            && (Consistent(store, oracle.compile) && Faithful(s, cache, oracle) ==>
                  Consistent(r.store, oracle.compile) && Faithful(s, r.cache, oracle))
    decreases |names|
  {
    if |names| > 0 {
      var got := GetItem(s, cache, store, names[0], oracle);
      if got.result.Ok? {
        var next := Set(acc, names[0], got.result.value.data);
        CollectDataSound(s, got.cache, got.store, names[1..], oracle, next);
        var rest := CollectData(s, got.cache, got.store, names[1..], oracle, next);
        assert rest.result.Err? ==>
                 exists i :: 0 <= i < |names[1..]| && Evaluate(s, names[1..][i], oracle) == Err(rest.result.error);
      }
    }
  }

  /** With a consistent evaluator store and a faithful cache, every collected
      array is the data of a cache-free evaluation of its name. */
  lemma CollectedIsEvaluated(s: Solution, cache: VariableCache, store: Store, names: seq<string>,
                             oracle: Oracle, acc: Dict<Array>)
    requires Consistent(store, oracle.compile) && Faithful(s, cache, oracle)
    ensures var r := CollectData(s, cache, store, names, oracle, acc);
            r.result.Ok? ==>
              forall k :: k in names ==>
                Evaluate(s, k, oracle).Ok? && r.result.value.entries[k] == Evaluate(s, k, oracle).value.data
  {
    CollectDataSound(s, cache, store, names, oracle, acc);
  }

  /** With a consistent store and a faithful cache, collecting succeeds
      when every requested name can be evaluated. */
  lemma {:induction false} CollectDataSucceeds(s: Solution, cache: VariableCache, store: Store, names: seq<string>,
                                               oracle: Oracle, acc: Dict<Array>)
    requires Consistent(store, oracle.compile) && Faithful(s, cache, oracle)
    requires forall i :: 0 <= i < |names| ==> Evaluate(s, names[i], oracle).Ok?
    ensures CollectData(s, cache, store, names, oracle, acc).result.Ok?
    decreases |names|
  {
    if |names| > 0 {
      var got := GetItem(s, cache, store, names[0], oracle);
      assert got.result.Ok?;
      var rest := names[1..];
      assert forall i :: 0 <= i < |rest| ==> rest[i] == names[i + 1];
      CollectDataSucceeds(s, got.cache, got.store, rest, oracle, Set(acc, names[0], got.result.value.data));
    }
  }

  /** Distinct new names are collected in the order they are requested. */
  lemma {:induction false} CollectDataOrder(s: Solution, cache: VariableCache, store: Store, names: seq<string>,
                                            oracle: Oracle, acc: Dict<Array>)
    requires forall i, j :: 0 <= i < j < |names| ==> names[i] != names[j]
    requires forall k :: k in names ==> k !in acc.order
    ensures var r := CollectData(s, cache, store, names, oracle, acc);
            r.result.Ok? ==> r.result.value.order == acc.order + names
    decreases |names|
  {
    if |names| > 0 {
      var got := GetItem(s, cache, store, names[0], oracle);
      if got.result.Ok? {
        var next := Set(acc, names[0], got.result.value.data);
        var rest := names[1..];
        assert next.order == acc.order + [names[0]];
        assert forall k :: k in rest ==> k !in next.order by {
          assert forall j :: 0 <= j < |rest| ==> rest[j] == names[j + 1] != names[0];
        }
        CollectDataOrder(s, got.cache, got.store, rest, oracle, next);
        AppendAssociates(acc.order, [names[0]], rest);
        assert [names[0]] + rest == names;
      }
    }
  }

  /** `pd.DataFrame` of the renamed arrays builds a table: the 1-D arrays
      all have the same length, and there is at least one of them (0-D
      arrays are scalars, which alone give no row count). */
  predicate Tabular(names: seq<string>, m: map<string, Array>)
    requires forall n :: n in names ==> n in m
  {
    && (exists j :: 0 <= j < |names| && m[names[j]].ndim == 1)
    && forall i, j :: 0 <= i < |names| && 0 <= j < |names| && m[names[i]].ndim == 1 && m[names[j]].ndim == 1 ==>
         |m[names[i]].entries| == |m[names[j]].entries|
  }

  /** The format branch of `save_data` on the renamed dictionary. */
  function CheckFormat(format: string, renamed: Dict<Array>): (r: Result<ExportPlan>)
    requires WellFormed(renamed)
    ensures r.Ok? ==> r.value.data == renamed
    ensures format == "pickle" ==> r == Ok(ExportPlan(Pickle, renamed))
    ensures format == "matlab" ==>
              && (r.Ok? <==> forall j :: 0 <= j < |renamed.order| ==> IsMatlabName(renamed.order[j]))
              && (r.Ok? ==> r.value.format == Matlab)
              && (r.Err? ==> r.error.InvalidIdentifier?)
    ensures format == "csv" ==>
              && (r.Ok? <==> && (forall j :: 0 <= j < |renamed.order| ==> renamed.entries[renamed.order[j]].ndim < 2)
                             && Tabular(renamed.order, renamed.entries))
              && (r.Ok? ==> r.value.format == Csv)
              && (r.Err? ==> r.error.NotZeroDimensional? || r.error == NotTabular)
              && (r.Err? && r.error == NotTabular ==> !Tabular(renamed.order, renamed.entries))
    ensures format !in {"pickle", "matlab", "csv"} ==> r == Err(UnknownFormat(format))
    ensures r.Err? ==> r.error == UnknownFormat(format) || r.error.InvalidIdentifier? || r.error.NotZeroDimensional?
                       || r.error == NotTabular
  {
    if format == "pickle" then Ok(ExportPlan(Pickle, renamed))
    else if format == "matlab" then
      match CheckMatlabNames(renamed.order)
      case Ok(_) => Ok(ExportPlan(Matlab, renamed))
      case Err(e) => Err(e)
    else if format == "csv" then
      match CheckZeroDimensional(renamed.order, renamed.entries)
      case Ok(_) => if Tabular(renamed.order, renamed.entries) then Ok(ExportPlan(Csv, renamed)) else Err(NotTabular)
      case Err(e) => Err(e)
    else Err(UnknownFormat(format))
  }

  /** Two 1-D arrays of different lengths pass the dimension check but do
      not make a table, so the CSV export fails; of equal length they do. */
  lemma CsvNeedsEqualLengths()
    ensures var d := Dict(["a", "b"], map["a" := Array(1, [1.0, 2.0, 3.0]), "b" := Array(1, [1.0, 2.0, 3.0, 4.0])]);
            CheckFormat("csv", d) == Err(NotTabular)
    ensures var d := Dict(["a", "b"], map["a" := Array(1, [1.0, 2.0, 3.0]), "b" := Array(1, [4.0, 5.0, 6.0])]);
            CheckFormat("csv", d).Ok?
  {
    var d := Dict(["a", "b"], map["a" := Array(1, [1.0, 2.0, 3.0]), "b" := Array(1, [1.0, 2.0, 3.0, 4.0])]);
    assert !Tabular(d.order, d.entries) by {
      assert d.entries[d.order[0]].ndim == 1 && d.entries[d.order[1]].ndim == 1;
    }
    var e := Dict(["a", "b"], map["a" := Array(1, [1.0, 2.0, 3.0]), "b" := Array(1, [4.0, 5.0, 6.0])]);
    assert e.entries[e.order[0]].ndim == 1;
  }

  /** The arrays `save_data` collects: every cached one when `variables` is
      None, otherwise those of the listed names, evaluated on demand. */
  function Collect(s: Solution, cache: VariableCache, store: Store, variables: Option<seq<string>>,
                   oracle: Oracle): (r: Step<Dict<Array>>)
    requires InSync(cache)
    ensures InSync(r.cache)
    ensures variables.None? ==> r == Step(cache, store, [], Ok(cache.data))
    ensures r.result.Ok? ==> WellFormed(r.result.value)
    ensures r.result.Ok? && variables.Some? ==>
              forall k :: k in r.result.value.entries <==> k in variables.value
  {
    match variables
    case None => Step(cache, store, [], Ok(cache.data))
    case Some(names) => CollectData(s, cache, store, names, oracle, Empty())
  }

  /** What `save_data` does with the collected arrays: refuse an empty
      dictionary before looking at the format, apply the short names, then run
      the format's check. */
  function ExportData(data: Dict<Array>, format: string, short: map<string, string>): (r: Result<ExportPlan>)
    requires WellFormed(data)
    ensures |data.order| == 0 ==> r == Err(EmptyData)
    ensures |data.order| > 0 ==> r == CheckFormat(format, ApplyShortNames(data, short))
    ensures r.Ok? ==> |r.value.data.order| > 0 && WellFormed(r.value.data)
    ensures r.Ok? ==> forall n :: n in data.entries ==> Rename(short, n) in r.value.data.entries
    ensures r.Ok? ==>
              || (format == "pickle" && r.value.format == Pickle)
              || (format == "matlab" && r.value.format == Matlab)
              || (format == "csv" && r.value.format == Csv)
  {
    if |data.order| == 0 then Err(EmptyData)
    else
      var renamed := ApplyShortNames(data, short);
      assert Rename(short, data.order[0]) in Renamed(data.order, short);
      assert forall n :: n in data.entries ==> Rename(short, n) in Renamed(data.order, short);
      CheckFormat(format, renamed)
  }

  /** `save_data(filename, variables, to_format, short_names)`, up to the
      write. */
  function SaveData(s: Solution, cache: VariableCache, store: Store, variables: Option<seq<string>>,
                    format: string, short: map<string, string>, oracle: Oracle): (r: Step<ExportPlan>)
    requires InSync(cache)
    ensures InSync(r.cache)
    ensures variables.None? ==> r == Step(cache, store, [], ExportData(cache.data, format, short))
    ensures variables == Some([]) ==> r.result == Err(EmptyData)
  {
    var collected := Collect(s, cache, store, variables, oracle);
    match collected.result
    case Err(e) => Step(collected.cache, collected.store, collected.compiled, Err(e))
    case Ok(data) => Step(collected.cache, collected.store, collected.compiled, ExportData(data, format, short))
  }

  /** `save_data` fails only on a requested name that cannot be evaluated or
      with one of its own errors. */
  lemma SaveDataFailures(s: Solution, cache: VariableCache, store: Store, variables: Option<seq<string>>,
                         format: string, short: map<string, string>, oracle: Oracle)
    requires InSync(cache)
    ensures var r := SaveData(s, cache, store, variables, format, short, oracle);
            r.result.Err? ==>
              || (variables.Some? &&
                  exists i :: 0 <= i < |variables.value| && Evaluate(s, variables.value[i], oracle) == Err(r.result.error))
              || r.result.error in {EmptyData, UnknownFormat(format)}
              || r.result.error.InvalidIdentifier? || r.result.error.NotZeroDimensional?
              || r.result.error == NotTabular
  {
    var collected := Collect(s, cache, store, variables, oracle);
    if collected.result.Err? {
      CollectDataSound(s, cache, store, variables.value, oracle, Empty());
    } else {
      var e := ExportData(collected.result.value, format, short);
      assert e.Err? ==>
               || e.error in {EmptyData, UnknownFormat(format)}
               || e.error.InvalidIdentifier? || e.error.NotZeroDimensional? || e.error == NotTabular;
    }
  }

  /** Exporting a non-empty dictionary whose saved names do not collide:
      pickling succeeds, and every successful export keeps each array under
      its saved name, in order. */
  lemma ExportKeepsArrays(data: Dict<Array>, format: string, short: map<string, string>)
    requires WellFormed(data) && |data.order| > 0
    requires RenamesApart(data.order, short)
    ensures var r := ExportData(data, format, short);
            && (format == "pickle" ==> r.Ok?)
            && (r.Ok? ==>
                  && r.value.data.order == Renamed(data.order, short)
                  && forall n :: n in data.entries ==> r.value.data.entries[Rename(short, n)] == data.entries[n])
  {
    ShortNamesKeepArrays(data, short);
  }

  /** The export of arrays collected for `names`, in that order. */
  lemma ExportCollected(s: Solution, names: seq<string>, oracle: Oracle, data: Dict<Array>,
                        format: string, short: map<string, string>)
    requires WellFormed(data) && data.order == names && |names| > 0
    requires RenamesApart(names, short)
    requires forall n :: n in names ==> Evaluate(s, n, oracle).Ok? && data.entries[n] == Evaluate(s, n, oracle).value.data
    ensures var r := ExportData(data, format, short);
            && (format == "pickle" ==> r.Ok?)
            && (r.Ok? ==>
                  && r.value.data.order == Renamed(names, short)
                  && forall n :: n in names ==> r.value.data.entries[Rename(short, n)] == Evaluate(s, n, oracle).value.data)
  {
    ExportKeepsArrays(data, format, short);
  }

  /** `save_data` with a list of distinct variables that all evaluate and
      whose saved names do not collide: pickling succeeds, and in every
      format that succeeds each variable's array is saved under its saved
      name, in the requested order. */
  lemma SaveDataSucceeds(s: Solution, cache: VariableCache, store: Store, names: seq<string>,
                         format: string, short: map<string, string>, oracle: Oracle)
    requires InSync(cache) && Consistent(store, oracle.compile) && Faithful(s, cache, oracle)
    requires |names| > 0 && forall i :: 0 <= i < |names| ==> Evaluate(s, names[i], oracle).Ok?
    requires RenamesApart(names, short)
    ensures var r := SaveData(s, cache, store, Some(names), format, short, oracle);
            && (format == "pickle" ==> r.result.Ok?)
            && (r.result.Ok? ==>
                  && r.result.value.data.order == Renamed(names, short)
                  && forall n :: n in names ==>
                       r.result.value.data.entries[Rename(short, n)] == Evaluate(s, n, oracle).value.data)
  {
    var collected := CollectData(s, cache, store, names, oracle, Empty());
    CollectDataSucceeds(s, cache, store, names, oracle, Empty());
    DistinctWhenRenamedApart(names, short);
    CollectDataOrder(s, cache, store, names, oracle, Empty());
    CollectedIsEvaluated(s, cache, store, names, oracle, Empty());
    var data := collected.result.value;
    assert data.order == names by {
      assert [] + names == names;
    }
    assert SaveData(s, cache, store, Some(names), format, short, oracle).result == ExportData(data, format, short);
    ExportCollected(s, names, oracle, data, format, short);
  }

  /** Names saved apart are distinct. */
  lemma DistinctWhenRenamedApart(names: seq<string>, short: map<string, string>)
    requires RenamesApart(names, short)
    ensures forall i, j :: 0 <= i < j < |names| ==> names[i] != names[j]
  {
    forall i, j | 0 <= i < j < |names| ensures names[i] != names[j] {
      assert Rename(short, names[i]) != Rename(short, names[j]);
    }
  }

  /** Every requested name is saved, under its short name. */
  lemma SaveDataSavesRequested(s: Solution, cache: VariableCache, store: Store, names: seq<string>,
                               format: string, short: map<string, string>, oracle: Oracle)
    requires InSync(cache)
    ensures var r := SaveData(s, cache, store, Some(names), format, short, oracle);
            r.result.Ok? ==> forall n :: n in names ==> Rename(short, n) in r.result.value.data.entries
  {
  }
}
