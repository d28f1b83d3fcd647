/** The two-level, write-once variable cache of a solution
    (pybamm/solvers/solution.py, `update` and `__getitem__`):
    - per solution, `_variables` maps a name to its processed variable and
      `data` maps the same name to that variable's raw array;
    - per model object, `_variables_casadi` maps a name to the compiled
      evaluator, shared by every solution built from that model.
    Compilation and evaluation are numerics and enter as an `Oracle`; the
    caches are explicit state that each operation takes and returns. */
module Variables {
  import opened Outcomes
  import opened Dicts
  import opened Trajectory

  /** A numpy array: its number of dimensions and its entries in row-major order. */
  datatype Array = Array(ndim: nat, entries: seq<real>)

  /** A compiled numeric function of (t, y, inputs) (`casadi.Function`). */
  datatype Evaluator = Evaluator(handle: nat)

  /** A processed variable and the raw array `.data` it produced. */
  datatype ProcessedVariable =
    | Numeric(symbols: seq<Symbol>, evaluators: seq<Evaluator>, data: Array)
    | SymbolicVariable(symbol: Symbol, data: Array)

  /** The numerics the cache discipline does not depend on: compiling a
      model's expression for a name, and evaluating processed variables over a
      solution (numerically, or with the inputs kept symbolic). */
  datatype Oracle = Oracle(
    compile: (Model, string) -> Evaluator,
    evaluate: (seq<Symbol>, seq<Evaluator>, Solution) -> Array,
    evaluateSymbolic: (Symbol, Solution) -> Array)

  /** `model._variables_casadi` of every model object. */
  type Store = map<Model, map<string, Evaluator>>

  function EvaluatorsOf(store: Store, m: Model): map<string, Evaluator> {
    if m in store then store[m] else map[]
  }

  /** Every stored evaluator is the one its model compiles for that name. */
  ghost predicate Consistent(store: Store, compile: (Model, string) -> Evaluator) {
    forall m, k :: m in store && k in store[m] ==> store[m][k] == compile(m, k)
  }

  /** Evaluators are only ever added: none is dropped or replaced. */
  ghost predicate Extends(before: Store, after: Store) {
    forall m, k :: k in EvaluatorsOf(before, m) ==>
      k in EvaluatorsOf(after, m) && EvaluatorsOf(after, m)[k] == EvaluatorsOf(before, m)[k]
  }

  /** The only new evaluators are for `key`, on models of `models`. */
  ghost predicate AddsOnly(before: Store, after: Store, key: string, models: seq<Model>) {
    forall m, k :: k in EvaluatorsOf(after, m) && k !in EvaluatorsOf(before, m) ==> k == key && m in models
  }

  ghost predicate NoDuplicates<T>(s: seq<T>) {
    forall i, j :: 0 <= i < j < |s| ==> s[i] != s[j]
  }

  /** The models compiled for `key` are exactly those of `models` that had no
      evaluator for it, each once. */
  ghost predicate CompiledExactly(compiled: seq<Model>, models: seq<Model>, key: string, before: Store) {
    && NoDuplicates(compiled)
    && forall m :: m in compiled <==> m in models && key !in EvaluatorsOf(before, m)
  }

  /** The evaluators for one name, one per model, with the store afterwards
      and the models that had to be compiled. */
  datatype Resolution = Resolution(evaluators: seq<Evaluator>, store: Store, compiled: seq<Model>)

  /** The loop over the models of `update`: reuse `model._variables_casadi[key]`
      when present, otherwise compile and store it. */
  function Resolve(models: seq<Model>, key: string, store: Store, compile: (Model, string) -> Evaluator): (r: Resolution)
    ensures |r.evaluators| == |models|
    ensures forall i :: 0 <= i < |models| ==>
              key in EvaluatorsOf(r.store, models[i]) && r.evaluators[i] == EvaluatorsOf(r.store, models[i])[key]
    ensures Extends(store, r.store)
    decreases |models|
  {
    if |models| == 0 then Resolution([], store, [])
    else
      var m := models[0];
      var cached := EvaluatorsOf(store, m);
      if key in cached then
        var rest := Resolve(models[1..], key, store, compile);
        Resolution([cached[key]] + rest.evaluators, rest.store, rest.compiled)
      else
        var e := compile(m, key);
        var rest := Resolve(models[1..], key, store[m := cached[key := e]], compile);
        Resolution([e] + rest.evaluators, rest.store, [m] + rest.compiled)
  }

  /** Resolving adds evaluators for `key` on the given models and nothing
      else. */
  lemma {:induction false} ResolveAddsOnly(models: seq<Model>, key: string, store: Store,
                                           compile: (Model, string) -> Evaluator)
    ensures AddsOnly(store, Resolve(models, key, store, compile).store, key, models)
    decreases |models|
  {
    if |models| > 0 {
      var m := models[0];
      var cached := EvaluatorsOf(store, m);
      if key in cached {
        ResolveAddsOnly(models[1..], key, store, compile);
        AddsOnlyWidens(store, Resolve(models, key, store, compile).store, key, models);
      } else {
        var after := store[m := cached[key := compile(m, key)]];
        ResolveAddsOnly(models[1..], key, after, compile);
        AddsOnlyAfterCompile(store, compile(m, key), Resolve(models, key, store, compile).store, key, models);
      }
    }
  }

  lemma AddsOnlyWidens(store: Store, later: Store, key: string, models: seq<Model>)
    requires |models| > 0 && AddsOnly(store, later, key, models[1..])
    ensures AddsOnly(store, later, key, models)
  {
    assert forall x :: x in models[1..] ==> x in models;
  }

  lemma AddsOnlyAfterCompile(store: Store, e: Evaluator, later: Store, key: string, models: seq<Model>)
    requires |models| > 0
    requires AddsOnly(store[models[0] := EvaluatorsOf(store, models[0])[key := e]], later, key, models[1..])
    ensures AddsOnly(store, later, key, models)
  {
    var after := store[models[0] := EvaluatorsOf(store, models[0])[key := e]];
    forall x, k | k in EvaluatorsOf(later, x) && k !in EvaluatorsOf(store, x)
      ensures k == key && x in models
    {
      if k !in EvaluatorsOf(after, x) {
        assert x in models[1..];
      }
    }
  }

  /** Resolving compiles exactly the models that had no evaluator for `key`,
      each once, however often a model repeats. */
  lemma {:induction false} ResolveCompilesMissing(models: seq<Model>, key: string, store: Store,
                                                  compile: (Model, string) -> Evaluator)
    ensures CompiledExactly(Resolve(models, key, store, compile).compiled, models, key, store)
    decreases |models|
  {
    if |models| > 0 {
      var m := models[0];
      var cached := EvaluatorsOf(store, m);
      assert forall x :: x in models <==> x == m || x in models[1..];
      if key in cached {
        ResolveCompilesMissing(models[1..], key, store, compile);
      } else {
        var after := store[m := cached[key := compile(m, key)]];
        ResolveCompilesMissing(models[1..], key, after, compile);
        assert m !in Resolve(models[1..], key, after, compile).compiled;
        assert forall x :: x != m ==> EvaluatorsOf(after, x) == EvaluatorsOf(store, x);
      }
    }
  }

  /** Resolving over a consistent store keeps it consistent, so every
      evaluator it returns is the one its model compiles. */
  lemma {:induction false} ResolveConsistent(models: seq<Model>, key: string, store: Store,
                                             compile: (Model, string) -> Evaluator)
    ensures var r := Resolve(models, key, store, compile);
            Consistent(store, compile) ==>
              && Consistent(r.store, compile)
              && forall i :: 0 <= i < |models| ==> r.evaluators[i] == compile(models[i], key)
    decreases |models|
  {
    if |models| > 0 && Consistent(store, compile) {
      var m := models[0];
      var cached := EvaluatorsOf(store, m);
      if key in cached {
        ResolveConsistent(models[1..], key, store, compile);
      } else {
        var after := store[m := cached[key := compile(m, key)]];
        assert Consistent(after, compile);
        ResolveConsistent(models[1..], key, after, compile);
      }
    }
  }

  /** `[model.variables[key] for model in self.all_models]` */
  function Symbols(s: Solution, key: string): (r: Result<seq<Symbol>>)
    ensures r.Ok? <==> forall m :: m in s.allModels ==> key in m.variables
    ensures r.Err? ==> r.error == UnknownVariable(key)
    ensures r.Ok? ==>
              && |r.value| == |s.allModels|
              && forall i :: 0 <= i < |s.allModels| ==> r.value[i] == s.allModels[i].variables[key]
  {
    if exists m :: m in s.allModels && key !in m.variables then Err(UnknownVariable(key))
    else Ok(seq(|s.allModels|, i requires 0 <= i < |s.allModels| => s.allModels[i].variables[key]))
  }

  /** The number of iterations of `zip(all_models, all_ys, all_inputs, ...)`. */
  function ZipLength(s: Solution): nat {
    var n := if |s.allModels| < |s.allYs| then |s.allModels| else |s.allYs|;
    if n < |s.allInputs| then n else |s.allInputs|
  }

  /** Reference definition: the processed variable for `key` built with no
      cache at all, every evaluator freshly compiled. */
  function Evaluate(s: Solution, key: string, oracle: Oracle): (r: Result<ProcessedVariable>)
    ensures s.hasSymbolicInputs ==>
              (r.Ok? <==> |s.allModels| > 0 && key in s.allModels[0].variables)
    ensures !s.hasSymbolicInputs ==> (r.Ok? <==> forall m :: m in s.allModels ==> key in m.variables)
    ensures r.Err? ==> r.error == UnknownVariable(key) || r.error == IndexOutOfRange
    ensures r.Ok? && !s.hasSymbolicInputs ==> r.value.Numeric? && |r.value.evaluators| == ZipLength(s)
  {
    if s.hasSymbolicInputs then
      if |s.allModels| == 0 then Err(IndexOutOfRange)
      else if key !in s.allModels[0].variables then Err(UnknownVariable(key))
      else
        var symbol := s.allModels[0].variables[key];
        Ok(SymbolicVariable(symbol, oracle.evaluateSymbolic(symbol, s)))
    else
      var symbols :- Symbols(s, key);
      var n := ZipLength(s);
      var evaluators := seq(n, i requires 0 <= i < n => oracle.compile(s.allModels[i], key));
      Ok(Numeric(symbols, evaluators, oracle.evaluate(symbols, evaluators, s)))
  }

  /** One processed variable together with the evaluator store afterwards. */
  datatype Processed = Processed(variable: ProcessedVariable, store: Store, compiled: seq<Model>)

  /** The body of `update` for one key: a symbolic variable when the solution
      has symbolic inputs, otherwise a numeric one over the evaluators of the
      models, compiled only where the model has none for `key`. */
  function Process(s: Solution, key: string, store: Store, oracle: Oracle): (r: Result<Processed>)
    ensures r.Ok? <==> Evaluate(s, key, oracle).Ok?
    ensures r.Err? ==> r.error == Evaluate(s, key, oracle).error
    ensures r.Ok? ==> Extends(store, r.value.store)
    ensures r.Ok? ==> AddsOnly(store, r.value.store, key, s.allModels[..ZipLength(s)])
    ensures r.Ok? && !s.hasSymbolicInputs ==>
              CompiledExactly(r.value.compiled, s.allModels[..ZipLength(s)], key, store)
    ensures r.Ok? && !s.hasSymbolicInputs ==>
              forall m :: m in s.allModels[..ZipLength(s)] ==> key in EvaluatorsOf(r.value.store, m)
    ensures r.Ok? && s.hasSymbolicInputs ==> r.value.store == store && r.value.compiled == []
    ensures r.Ok? && Consistent(store, oracle.compile) ==>
              Consistent(r.value.store, oracle.compile) && r.value.variable == Evaluate(s, key, oracle).value
  {
    if s.hasSymbolicInputs then
      var v :- Evaluate(s, key, oracle);
      Ok(Processed(v, store, []))
    else
      var symbols :- Symbols(s, key);
      var n := ZipLength(s);
      var res := Resolve(s.allModels[..n], key, store, oracle.compile);
      ResolveAddsOnly(s.allModels[..n], key, store, oracle.compile);
      ResolveCompilesMissing(s.allModels[..n], key, store, oracle.compile);
      ResolveConsistent(s.allModels[..n], key, store, oracle.compile);
      var v := Numeric(symbols, res.evaluators, oracle.evaluate(symbols, res.evaluators, s));
      assert Consistent(store, oracle.compile) ==>
               res.evaluators == seq(n, i requires 0 <= i < n => oracle.compile(s.allModels[i], key));
      Ok(Processed(v, res.store, res.compiled))
  }

  // ---------------------------------------------------------------------------
  // The per-solution cache

  /** `_variables` and `data` of one solution. */
  datatype VariableCache = VariableCache(variables: Dict<ProcessedVariable>, data: Dict<Array>)

  function EmptyCache(): (r: VariableCache)
    ensures InSync(r)
  {
    VariableCache(Empty(), Empty())
  }

  /** The two maps hold the same names in the same order, and `data[k]` is
      the data of `_variables[k]`. */
  ghost predicate InSync(c: VariableCache) {
    && WellFormed(c.variables)
    && WellFormed(c.data)
    && c.variables.order == c.data.order
    && forall k :: k in c.variables.entries ==>
         k in c.data.entries && c.data.entries[k] == c.variables.entries[k].data
  }

  /** Every variable cached before is still cached, unchanged: the cache is
      write-once. */
  ghost predicate Keeps(before: VariableCache, after: VariableCache) {
    forall k :: k in before.variables.entries ==>
      k in after.variables.entries && after.variables.entries[k] == before.variables.entries[k]
  }

  lemma KeepsTransitive(a: VariableCache, b: VariableCache, c: VariableCache)
    requires Keeps(a, b) && Keeps(b, c)
    ensures Keeps(a, c)
  {
  }

  /** Every cached variable is what a cache-free evaluation produces. */
  ghost predicate Faithful(s: Solution, c: VariableCache, oracle: Oracle) {
    forall k :: k in c.variables.entries ==> Evaluate(s, k, oracle) == Ok(c.variables.entries[k])
  }

  /** `self._variables[key] = var; self.data[key] = var.data` */
  function Record(c: VariableCache, key: string, v: ProcessedVariable): (r: VariableCache)
    ensures InSync(c) ==> InSync(r)
    ensures key in r.variables.entries && r.variables.entries[key] == v
    ensures key in r.data.entries && r.data.entries[key] == v.data
    ensures forall k :: k != key ==> (k in r.variables.entries <==> k in c.variables.entries)
    ensures forall k :: k != key && k in c.variables.entries ==> r.variables.entries[k] == c.variables.entries[k]
    ensures forall k :: k != key ==> (k in r.data.entries <==> k in c.data.entries)
    ensures forall k :: k != key && k in c.data.entries ==> r.data.entries[k] == c.data.entries[k]
  {
    VariableCache(Set(c.variables, key, v), Set(c.data, key, v.data))
  }

  /** The state after an operation on the caches, and its result. */
  datatype Step<T> = Step(cache: VariableCache, store: Store, compiled: seq<Model>, result: Result<T>)

  /** `update(variables)`: process the keys in order, each one afresh
      whether or not it is cached; an error stops the loop and keeps what
      earlier keys stored. */
  function UpdateKeys(s: Solution, cache: VariableCache, store: Store, keys: seq<string>, oracle: Oracle): (r: Step<()>)
    ensures InSync(cache) ==> InSync(r.cache)
    ensures r.result.Ok? ==> forall k :: k in keys ==> k in r.cache.variables.entries
    // nothing but the listed keys changes
    ensures forall k :: k !in keys ==> (k in r.cache.variables.entries <==> k in cache.variables.entries)
    ensures forall k :: k !in keys && k in cache.variables.entries ==>
              r.cache.variables.entries[k] == cache.variables.entries[k]
    decreases |keys|
  {
    if |keys| == 0 then Step(cache, store, [], Ok(()))
    else match Process(s, keys[0], store, oracle)
      case Err(e) => Step(cache, store, [], Err(e))
      case Ok(p) =>
        var rest := UpdateKeys(s, Record(cache, keys[0], p.variable), p.store, keys[1..], oracle);
        assert forall k :: k in keys <==> k == keys[0] || k in keys[1..];
        Step(rest.cache, rest.store, p.compiled + rest.compiled, rest.result)
  }

  /** `update` only adds evaluators, fails only on a key that cannot be
      evaluated, and stores only what a cache-free evaluation produces. */
  lemma {:induction false} UpdateKeysSound(s: Solution, cache: VariableCache, store: Store, keys: seq<string>,
                                           oracle: Oracle)
    ensures var r := UpdateKeys(s, cache, store, keys, oracle);
            && Extends(store, r.store)
            && (r.result.Err? ==> exists i :: 0 <= i < |keys| && Evaluate(s, keys[i], oracle) == Err(r.result.error))
            && (Consistent(store, oracle.compile) && Faithful(s, cache, oracle) ==>
                  Consistent(r.store, oracle.compile) && Faithful(s, r.cache, oracle))
    decreases |keys|
  {
    if |keys| > 0 {
      var p := Process(s, keys[0], store, oracle);
      if p.Ok? {
        var next := Record(cache, keys[0], p.value.variable);
        UpdateKeysSound(s, next, p.value.store, keys[1..], oracle);
        var rest := UpdateKeys(s, next, p.value.store, keys[1..], oracle);
        assert rest.result.Err? ==>
                 exists i :: 0 <= i < |keys[1..]| && Evaluate(s, keys[1..][i], oracle) == Err(rest.result.error);
      }
    }
  }

  /** `update`, whose argument is one name or a list of names. */
  function Update(s: Solution, cache: VariableCache, store: Store, variables: OneOrMany<string>, oracle: Oracle): (r: Step<()>)
    ensures InSync(cache) ==> InSync(r.cache)
    ensures r.result.Ok? ==> forall k :: k in AsList(variables) ==> k in r.cache.variables.entries
    ensures variables.One? && r.result.Ok? && Consistent(store, oracle.compile) ==>
              Ok(r.cache.variables.entries[variables.item]) == Evaluate(s, variables.item, oracle)
  {
    UpdateKeys(s, cache, store, AsList(variables), oracle)
  }

  /** `__getitem__`: a hit returns the cached variable and changes nothing;
      a miss runs `update(key)` and returns what it stored. */
  function GetItem(s: Solution, cache: VariableCache, store: Store, key: string, oracle: Oracle): (r: Step<ProcessedVariable>)
    ensures key in cache.variables.entries ==> r == Step(cache, store, [], Ok(cache.variables.entries[key]))
    ensures key !in cache.variables.entries ==>
              && (r.result.Ok? <==> Evaluate(s, key, oracle).Ok?)
              && (r.result.Err? ==> r.result == Evaluate(s, key, oracle) && r.cache == cache && r.store == store)
              && (r.result.Ok? ==> r.cache == Record(cache, key, r.result.value))
              && (r.result.Ok? && Consistent(store, oracle.compile) ==> r.result == Evaluate(s, key, oracle))
              && (r.result.Ok? && !s.hasSymbolicInputs ==>
                    && CompiledExactly(r.compiled, s.allModels[..ZipLength(s)], key, store)
                    && forall m :: m in s.allModels[..ZipLength(s)] ==> key in EvaluatorsOf(r.store, m))
    ensures InSync(cache) ==> InSync(r.cache)
    ensures Keeps(cache, r.cache)
    ensures Extends(store, r.store)
    ensures AddsOnly(store, r.store, key, s.allModels[..ZipLength(s)])
    ensures Consistent(store, oracle.compile) && Faithful(s, cache, oracle) ==>
              Consistent(r.store, oracle.compile) && Faithful(s, r.cache, oracle)
  {
    if key in cache.variables.entries then Step(cache, store, [], Ok(cache.variables.entries[key]))
    else match Process(s, key, store, oracle)
      case Err(e) => Step(cache, store, [], Err(e))
      case Ok(p) => Step(Record(cache, key, p.variable), p.store, p.compiled, Ok(p.variable))
  }

  /** Asking twice for the same name: the second request is a hit that
      returns the identical variable and compiles nothing. */
  lemma GetItemIdempotent(s: Solution, cache: VariableCache, store: Store, key: string, oracle: Oracle)
    requires GetItem(s, cache, store, key, oracle).result.Ok?
    ensures var once := GetItem(s, cache, store, key, oracle);
            GetItem(s, once.cache, once.store, key, oracle) == Step(once.cache, once.store, [], once.result)
  {
  }

  /** With a consistent store and a faithful cache, `__getitem__` returns what
      a cache-free evaluation returns: the caches are invisible to callers. */
  lemma GetItemIsEvaluate(s: Solution, cache: VariableCache, store: Store, key: string, oracle: Oracle)
    requires Consistent(store, oracle.compile) && Faithful(s, cache, oracle)
    ensures GetItem(s, cache, store, key, oracle).result == Evaluate(s, key, oracle)
  {
  }

  /** Two solutions built from the same model objects: once the first has
      processed `key`, the second compiles nothing for it and leaves the
      evaluator store as it is. */
  lemma EvaluatorsShared(s1: Solution, s2: Solution, cache1: VariableCache, cache2: VariableCache,
                         store: Store, key: string, oracle: Oracle)
    requires !s1.hasSymbolicInputs && !s2.hasSymbolicInputs
    requires key !in cache1.variables.entries && key !in cache2.variables.entries
    requires forall m :: m in s2.allModels[..ZipLength(s2)] ==> m in s1.allModels[..ZipLength(s1)]
    requires GetItem(s1, cache1, store, key, oracle).result.Ok?
    ensures var first := GetItem(s1, cache1, store, key, oracle);
            var second := GetItem(s2, cache2, first.store, key, oracle);
            second.result.Ok? ==> second.compiled == [] && second.store == first.store
  {
    var first := GetItem(s1, cache1, store, key, oracle);
    NothingNewWhenAllPresent(s2.allModels[..ZipLength(s2)], key, first.store, oracle.compile);
  }

  lemma {:induction false} NothingNewWhenAllPresent(models: seq<Model>, key: string, store: Store,
                                                    compile: (Model, string) -> Evaluator)
    requires forall m :: m in models ==> key in EvaluatorsOf(store, m)
    ensures Resolve(models, key, store, compile).store == store
    ensures Resolve(models, key, store, compile).compiled == []
    decreases |models|
  {
    if |models| > 0 {
      assert forall m :: m in models[1..] ==> m in models;
      NothingNewWhenAllPresent(models[1..], key, store, compile);
    }
  }
}
