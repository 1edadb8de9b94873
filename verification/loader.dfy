/** Formula discovery and selection.

    After the user's formula file has been executed, its namespace holds the
    helpers it was given (`sma`, `ema`, `rsi`, `highest`, `lowest`, and the
    non-callable `pd`) alongside whatever it defined itself.  Every callable
    entry that is not one of the five helpers is a formula.  The namespace is
    modelled as a map from name to an entry carrying an `isCallable` flag and
    an opaque formula value of type `F`.
 */
module Loader {
  import opened Wrappers

  /** One binding of the executed namespace. */
  datatype Entry<F> = Entry(isCallable: bool, formula: F)

  /** The helper names placed in the namespace before the formula file runs. */
  const HelperNames: set<string> := {"sma", "ema", "rsi", "highest", "lowest"}

  /** The run-aborting errors of loading and choosing a formula. */
  datatype LoadError =
    | NoFormulas
    | UnknownFormula(name: string, available: set<string>)

  /** `name` is discovered as a formula: bound, callable, and not a helper. */
  predicate Eligible<F>(env: map<string, Entry<F>>, name: string)
  {
    name in env && env[name].isCallable && name !in HelperNames
  }

  /** `load_formulas`: every callable non-helper entry, keyed by its name;
      fails when there is none. */
  function LoadFormulas<F>(env: map<string, Entry<F>>): (r: Result<map<string, F>, LoadError>)
    ensures r.Failure? <==> forall name :: name in env ==> !Eligible(env, name)
    ensures r.Failure? ==> r.error == NoFormulas
    ensures r.Success? ==> |r.value| > 0
    ensures r.Success? ==> forall name :: name in r.value <==> Eligible(env, name)
    ensures r.Success? ==> forall name :: name in r.value ==> name in env && r.value[name] == env[name].formula
  {
    var found := map name | name in env && env[name].isCallable && name !in HelperNames :: env[name].formula;
    if |found| == 0 then
      Failure(NoFormulas)
    else
      Success(found)
  }

  /** The chosen name must be one of the loaded formulas; otherwise the run
      stops with an error that lists the available names. */
  function SelectFormula<F>(formulas: map<string, F>, chosen: string): (r: Result<F, LoadError>)
    ensures r.Success? <==> chosen in formulas
    ensures r.Success? ==> r.value == formulas[chosen]
    ensures r.Failure? ==> r.error == UnknownFormula(chosen, formulas.Keys)
  {
    if chosen in formulas then Success(formulas[chosen]) else Failure(UnknownFormula(chosen, formulas.Keys))
  }

  /** Whatever a formula file binds to a helper name (its own redefinition,
      or nothing at all) has no effect on the formulas discovered. */
  lemma HelperBindingsIgnored<F>(env: map<string, Entry<F>>, helper: string, e: Entry<F>)
    requires helper in HelperNames
    ensures LoadFormulas(env[helper := e]) == LoadFormulas(env - {helper})
  {
    var a := env[helper := e];
    var b := env - {helper};
    forall name
      ensures Eligible(a, name) <==> Eligible(b, name)
    {
    }
    if LoadFormulas(a).Success? {
      assert LoadFormulas(a).value == LoadFormulas(b).value;
    }
  }

  /** Defining one more callable formula always makes loading succeed, and
      keeps every formula discovered before. */
  lemma NewFormulaDiscovered<F>(env: map<string, Entry<F>>, name: string, f: F)
    requires name !in HelperNames
    ensures LoadFormulas(env[name := Entry(true, f)]).Success?
    ensures var loaded := LoadFormulas(env[name := Entry(true, f)]).value;
            name in loaded && loaded[name] == f &&
            (LoadFormulas(env).Success? ==> LoadFormulas(env).value.Keys <= loaded.Keys)
  {
    assert Eligible(env[name := Entry(true, f)], name);
  }
}
