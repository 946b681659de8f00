/**
 * The request input store: the merged variables of the selected sources,
 * the custom filters registered on it, and the errors that filtering left.
 */
module Input {
  import opened Wrappers
  import opened PhpString
  import opened PhpArray

  // ---------------------------------------------------------------------------
  // Sources

  /** The sources a request can provide, and the default selection. */
  const Known: seq<string> := ["query", "post", "files", "cookie"]

  /** Why `from()` refused its sources. */
  datatype Error = UnknownSource(names: seq<string>) | EmptySources

  /** The exception message; the two refusals can be told apart by it. */
  function Message(e: Error): (r: string)
    ensures StartsWith(r, "Unknown source: ") <==> e.UnknownSource?
  {
    match e
    case UnknownSource(names) => "Unknown source: " + Implode(", ", names)
    case EmptySources =>
      assert "Sources must not be empty"[0] != 'U';
      "Sources must not be empty"
  }

  /** A refused `from()` says why: every unknown source is named in the message, and an empty selection gets its own message. */
  lemma MessageNamesUnknown(sources: seq<string>)
    requires Check(sources).Some?
    ensures sources == [] ==> Message(Check(sources).value) == "Sources must not be empty"
    ensures forall x | x in sources && x !in Known :: Contains(Message(Check(sources).value), x)
  {
    var e := Check(sources).value;
    forall x | x in sources && x !in Known
      ensures Contains(Message(e), x)
    {
      assert x in e.names;
      var i :| 0 <= i < |e.names| && e.names[i] == x;
      ImplodeHolds(", ", e.names, i);
      ContainsAfter("Unknown source: ", Implode(", ", e.names), x);
    }
  }

  /** Each piece occurs in the pieces joined. */
  lemma {:induction false} ImplodeHolds(sep: string, parts: seq<string>, i: nat)
    requires i < |parts|
    ensures Contains(Implode(sep, parts), parts[i])
    decreases |parts|
  {
    if |parts| == 1 {
      assert At(parts[0], parts[0], 0);
    } else if i == 0 {
      var s := Implode(sep, parts);
      assert s[..|parts[0]|] == parts[0];
      assert At(s, parts[0], 0);
    } else {
      ImplodeHolds(sep, parts[1..], i - 1);
      ContainsAfter(parts[0] + sep, Implode(sep, parts[1..]), parts[i]);
      assert parts[0] + sep + Implode(sep, parts[1..]) == (parts[0] + sep) + Implode(sep, parts[1..]);
    }
  }

  /** Text found in `s` is still found after a prefix. */
  lemma ContainsAfter(pre: string, s: string, t: string)
    requires Contains(s, t)
    ensures Contains(pre + s, t)
  {
    var j :| 0 <= j <= |s| && At(s, t, j);
    assert (pre + s)[|pre| + j..|pre| + j + |t|] == s[j..j + |t|];
    assert At(pre + s, t, |pre| + j);
  }

  /** `array_diff($sources, Known)`: the unknown names, in order and with repeats. */
  function Unknown(sources: seq<string>): (r: seq<string>)
    ensures |r| <= |sources|
    ensures forall x :: x in r <==> x in sources && x !in Known
  {
    if sources == [] then []
    else (if sources[0] in Known then [] else [sources[0]]) + Unknown(sources[1..])
  }

  /** The guard of `from()`: unknown names are reported before an empty selection. */
  function Check(sources: seq<string>): (r: Option<Error>)
    ensures r.None? <==> sources != [] && forall i | 0 <= i < |sources| :: sources[i] in Known
    ensures r == Some(EmptySources) <==> sources == []
    ensures r.Some? && r.value.UnknownSource? ==> r.value.names == Unknown(sources) && r.value.names != []
  {
    var unknown := Unknown(sources);
    if unknown != [] then
      assert unknown[0] in unknown;
      var i :| 0 <= i < |sources| && sources[i] == unknown[0];
      Some(UnknownSource(unknown))
    else if sources == [] then Some(EmptySources)
    else
      assert forall i | 0 <= i < |sources| :: sources[i] in Known by {
        forall i | 0 <= i < |sources| ensures sources[i] in Known {
          assert sources[i] in sources;
        }
      }
      None
  }

  /** The arrays the request hands over for each selected source. */
  function Arrays<V>(request: string -> seq<(Key, Option<V>)>, sources: seq<string>): (r: seq<seq<(Key, Option<V>)>>)
    ensures |r| == |sources| && forall i | 0 <= i < |sources| :: r[i] == request(sources[i])
  {
    seq(|sources|, i requires 0 <= i < |sources| => request(sources[i]))
  }

  /** What `load()` stores: `array_merge` of the selected sources, in order. */
  function Loaded<V>(request: string -> seq<(Key, Option<V>)>, sources: seq<string>): seq<(Key, Option<V>)>
  {
    Merge(Arrays(request, sources))
  }

  /** A string-keyed variable takes its value from the last selected source that has it. */
  lemma LoadedLastWins<V>(request: string -> seq<(Key, Option<V>)>, sources: seq<string>, name: string)
    requires forall i | 0 <= i < |sources| :: DistinctKeys(request(sources[i]))
    requires KeyOf(name).StrKey?
    ensures Get(Loaded(request, sources), KeyOf(name)) == LastValue(Arrays(request, sources), KeyOf(name))
  {
    MergeLastWins(Arrays(request, sources), KeyOf(name));
  }

  // ---------------------------------------------------------------------------
  // Filters

  /** A registered filter: given the value (by reference) and the parameters, the new value and the errors it returns. */
  type Filter<!V> = (Option<V>, seq<string>) -> (Option<V>, seq<string>)

  /** PHP's function table: the function of that name applied to the value and the parameters. */
  type Functions<!V> = (string, Option<V>, seq<string>) -> Option<V>

  /** The `$filters` argument: a `|`-separated string, or an array of entries. */
  datatype FilterSpec = Names(names: string) | List(entries: seq<(Key, string)>)

  /**
   * One entry as a filter name and its parameters: the entry is split on ':'; a
   * string key is the name (and the whole entry the parameters), otherwise
   * the first piece is the name.
   */
  function StepOf(e: (Key, string)): (r: (string, seq<string>))
    ensures e.0.StrKey? ==> r == (e.0.s, Explode(":", e.1))
    ensures e.0.IntKey? ==> [r.0] + r.1 == Explode(":", e.1)
  {
    var params := Explode(":", e.1);
    if e.0.StrKey? then (e.0.s, params)
    else
      assert params == [params[0]] + params[1..];
      (params[0], params[1..])
  }

  function StepsOf(entries: seq<(Key, string)>): (r: seq<(string, seq<string>)>)
    ensures |r| == |entries| && forall i | 0 <= i < |entries| :: r[i] == StepOf(entries[i])
  {
    seq(|entries|, i requires 0 <= i < |entries| => StepOf(entries[i]))
  }

  /** A list of names as PHP numbers it: keys 0, 1, ... */
  function Indexed(names: seq<string>): (r: seq<(Key, string)>)
    ensures |r| == |names| && forall i | 0 <= i < |names| :: r[i] == (IntKey(i), names[i])
  {
    seq(|names|, i requires 0 <= i < |names| => (IntKey(i), names[i]))
  }

  /** The filters to run, in order; a falsy string names none. */
  function Steps(spec: FilterSpec): seq<(string, seq<string>)>
  {
    match spec
    case Names(s) => if Truthy(s) then StepsOf(Indexed(Explode("|", s))) else []
    case List(entries) => StepsOf(entries)
  }

  /** One filter: a registered filter of that name first, else the PHP function, which reports no errors. */
  function Apply<V>(step: (string, seq<string>), value: Option<V>, custom: map<string, Filter<V>>, functions: Functions<V>): (Option<V>, seq<string>)
  {
    if step.0 in custom then custom[step.0](value, step.1)
    else (functions(step.0, value, step.1), [])
  }

  /** The chain: the first filter returning errors stops it with those errors; one that nulls the value stops it with null. */
  function Run<V>(value: Option<V>, steps: seq<(string, seq<string>)>, custom: map<string, Filter<V>>, functions: Functions<V>): (Option<V>, seq<string>)
    decreases |steps|
  {
    if steps == [] then (value, [])
    else
      var r := Apply(steps[0], value, custom, functions);
      if r.1 != [] then r
      else if r.0.None? then (None, [])
      else Run(r.0, steps[1..], custom, functions)
  }

  /** `filter()`'s value and errors: a null or missing value runs no filter at all. */
  function Filtered<V>(value: Option<V>, steps: seq<(string, seq<string>)>, custom: map<string, Filter<V>>, functions: Functions<V>): (r: (Option<V>, seq<string>))
    ensures value.None? ==> r == (None, [])
    ensures value.Some? ==> r == Run(value, steps, custom, functions)
  {
    if value.None? then (None, []) else Run(value, steps, custom, functions)
  }

  /**
   * Running a chain is running its front and then, unless the front stopped
   * on errors or null, its back on the front's value.
   */
  lemma {:induction false} RunAppend<V>(value: Option<V>, front: seq<(string, seq<string>)>, back: seq<(string, seq<string>)>,
                                        custom: map<string, Filter<V>>, functions: Functions<V>)
    requires value.Some?
    ensures var r := Run(value, front, custom, functions);
      Run(value, front + back, custom, functions) == if r.1 != [] || r.0.None? then r else Run(r.0, back, custom, functions)
    decreases |front|
  {
    if front == [] {
      assert front + back == back;
    } else {
      assert (front + back)[0] == front[0];
      assert (front + back)[1..] == front[1..] + back;
      var r := Apply(front[0], value, custom, functions);
      if r.1 == [] && r.0.Some? {
        RunAppend(r.0, front[1..], back, custom, functions);
      }
    }
  }

  /** The same functions applied one after another, with nothing stopping early. */
  function Compose<V>(value: Option<V>, steps: seq<(string, seq<string>)>, functions: Functions<V>): Option<V>
    decreases |steps|
  {
    if steps == [] || value.None? then value
    else Compose(functions(steps[0].0, value, steps[0].1), steps[1..], functions)
  }

  /** Without registered filters the chain reports no errors and applies each function in turn. */
  lemma {:induction false} RunFunctions<V>(value: Option<V>, steps: seq<(string, seq<string>)>, custom: map<string, Filter<V>>, functions: Functions<V>)
    requires forall i | 0 <= i < |steps| :: steps[i].0 !in custom
    requires value.Some?
    ensures Run(value, steps, custom, functions) == (Compose(value, steps, functions), [])
    decreases |steps|
  {
    if steps != [] {
      var v := functions(steps[0].0, value, steps[0].1);
      assert steps[0].0 !in custom;
      if v.Some? {
        assert forall i | 0 <= i < |steps[1..]| :: steps[1..][i].0 !in custom by {
          forall i | 0 <= i < |steps[1..]| ensures steps[1..][i].0 !in custom {
            assert steps[1..][i] == steps[i + 1];
          }
        }
        RunFunctions(v, steps[1..], custom, functions);
      }
    }
  }

  /** A registered filter shadows the PHP function of the same name, whatever that function does. */
  lemma CustomFirst<V>(step: (string, seq<string>), value: Option<V>, custom: map<string, Filter<V>>, f: Functions<V>, g: Functions<V>)
    requires step.0 in custom
    ensures Apply(step, value, custom, f) == Apply(step, value, custom, g) == custom[step.0](value, step.1)
  {
  }

  /** `"a|b"` names the same filters as `["a", "b"]`. */
  lemma NamesAsList(names: seq<string>)
    requires |names| >= 1 && forall i | 0 <= i < |names| :: '|' !in names[i]
    requires Truthy(Implode("|", names))
    ensures Steps(Names(Implode("|", names))) == Steps(List(Indexed(names)))
  {
    ExplodeCharImplode('|', names);
  }

  // ---------------------------------------------------------------------------
  // Errors

  /** `errors($field)`: the field's list, or none. */
  function FieldErrors(errors: seq<(Key, seq<string>)>, field: string): seq<string>
  {
    PhpArray.Get(errors, KeyOf(field)).GetOr([])
  }

  /** `array_merge([], ...array_values($errors))` over lists: their concatenation in field order. */
  function AllErrors(errors: seq<(Key, seq<string>)>): seq<string>
  {
    if errors == [] then [] else errors[0].1 + AllErrors(errors[1..])
  }

  /** All errors are empty exactly when every field's list is. */
  lemma {:induction false} AllErrorsEmpty(errors: seq<(Key, seq<string>)>)
    ensures AllErrors(errors) == [] <==> forall i | 0 <= i < |errors| :: errors[i].1 == []
  {
    if errors != [] {
      AllErrorsEmpty(errors[1..]);
      assert forall i | 1 <= i < |errors| :: errors[i].1 == errors[1..][i - 1].1;
    }
  }

  /** With no errors at all, every field is valid. */
  lemma ValidEverywhere(errors: seq<(Key, seq<string>)>, field: string)
    requires AllErrors(errors) == []
    ensures FieldErrors(errors, field) == []
  {
    AllErrorsEmpty(errors);
    match IndexOf(errors, KeyOf(field))
    case None =>
    case Some(i) => assert errors[i].1 == [];
  }

  /** Storing a field's errors replaces that field's list and leaves every other field's. */
  lemma FieldErrorsPut(errors: seq<(Key, seq<string>)>, name: string, list: seq<string>, field: string)
    ensures FieldErrors(Put(errors, KeyOf(name), list), field) == if field == name then list else FieldErrors(errors, field)
  {
    PutGet(errors, KeyOf(name), list);
    if KeyOf(field) == KeyOf(name) {
      KeyOfInjective(field, name);
    }
  }

  // ---------------------------------------------------------------------------
  // The store

  class Input<V> {
    /** The request's arrays by source name (`$request->query()` and so on). */
    const request: string -> seq<(Key, Option<V>)>
    const functions: Functions<V>
    var sources: seq<string>
    var data: seq<(Key, Option<V>)>
    var filters: map<string, Filter<V>>
    var errors: seq<(Key, seq<string>)>

    /** Only known sources are selected, and at least one. */
    ghost predicate Valid()
      reads this
    {
      Check(sources).None?
    }

    /** Selects every source and loads them. */
    constructor (request: string -> seq<(Key, Option<V>)>, functions: Functions<V>)
      ensures Valid()
      ensures this.request == request && this.functions == functions
      ensures sources == Known && data == Loaded(request, Known) && errors == [] && filters == map[]
    {
      this.request := request;
      this.functions := functions;
      sources := Known;
      filters := map[];
      new;
      Load();
    }

    /** `from()`: refuses unknown or no sources and changes nothing then; otherwise selects and reloads. */
    method From(sources: seq<string>) returns (error: Option<Error>)
      requires Valid()
      modifies this
      ensures Valid()
      ensures error == Check(sources)
      ensures error.Some? ==> this.sources == old(this.sources) && data == old(data) && errors == old(errors)
      ensures error.None? ==> this.sources == sources && data == Loaded(request, sources) && errors == []
      ensures filters == old(filters)
    {
      error := Check(sources);
      if error.Some? {
        return;
      }
      this.sources := sources;
      Load();
    }

    /** `load()`: the merged sources, with every error flushed. */
    method Load()
      modifies this
      ensures data == Loaded(request, sources) && errors == []
      ensures sources == old(sources) && filters == old(filters)
    {
      data := Loaded(request, sources);
      errors := [];
    }

    function All(): seq<(Key, Option<V>)>
      reads this
    {
      data
    }

    /** `has()`: the key exists, even with a null value. */
    predicate Has(name: string)
      reads this
    {
      PhpArray.Get(data, KeyOf(name)).Some?
    }

    /** `get()`: the value, or null when the key is absent. */
    function Get(name: string): (r: Option<V>)
      reads this
      ensures r.Some? ==> Has(name)
      ensures !Has(name) ==> r.None?
      ensures Has(name) ==> Some(r) == PhpArray.Get(data, KeyOf(name))
    {
      match PhpArray.Get(data, KeyOf(name))
      case None => None
      case Some(v) => v
    }

    /** `register()`: a filter under a name, replacing any before it. */
    method Register(name: string, filter: Filter<V>)
      modifies this
      ensures filters == old(filters)[name := filter]
      ensures sources == old(sources) && data == old(data) && errors == old(errors)
    {
      filters := filters[name := filter];
    }

    /**
     * `filter()`: runs the chain on the variable, stores what it leaves as
     * the variable (a missing one gets a null entry) and, when a filter
     * returned errors, stores them as the variable's errors.
     */
    method Filter(name: string, spec: FilterSpec) returns (r: Option<V>)
      modifies this
      ensures var outcome := Filtered(old(Get(name)), Steps(spec), old(filters), functions);
        && r == outcome.0
        && data == Put(old(data), KeyOf(name), outcome.0)
        && errors == if outcome.1 != [] then Put(old(errors), KeyOf(name), outcome.1) else old(errors)
      ensures sources == old(sources) && filters == old(filters)
    {
      var key := KeyOf(name);
      var value := Get(name);
      if value.None? {
        data := Put(data, key, None);
        return None;
      }
      var steps := Steps(spec);
      ghost var initial := value;
      var failures: seq<string> := [];
      var stopped := false;
      var i := 0;
      while i < |steps| && !stopped
        invariant 0 <= i <= |steps|
        invariant !stopped ==> value.Some? && failures == [] && Run(initial, steps, filters, functions) == Run(value, steps[i..], filters, functions)
        invariant stopped ==> (value, failures) == Run(initial, steps, filters, functions)
        decreases |steps| - i
      {
        assert steps[i..][0] == steps[i] && steps[i..][1..] == steps[i + 1..];
        var step := steps[i];
        var outcome := if step.0 in filters then filters[step.0](value, step.1) else (functions(step.0, value, step.1), []);
        value := outcome.0;
        if outcome.1 != [] {
          failures := outcome.1;
          stopped := true;
        } else if value.None? {
          stopped := true;
        }
        i := i + 1;
      }
      data := Put(data, key, value);
      if failures != [] {
        errors := Put(errors, key, failures);
      }
      r := value;
    }

    /** `errors()`: a truthy field gives that field's list, otherwise all of them. */
    function Errors(field: Option<string>): (r: seq<string>)
      reads this
      ensures field.Some? && Truthy(field.value) ==> r == FieldErrors(errors, field.value)
      ensures !(field.Some? && Truthy(field.value)) ==> r == AllErrors(errors)
    {
      if field.Some? && Truthy(field.value) then FieldErrors(errors, field.value) else AllErrors(errors)
    }

    /** `valid()`: no errors for the field, or none at all. */
    predicate IsValid(field: Option<string>)
      reads this
    {
      Errors(field) == []
    }
  }
}
