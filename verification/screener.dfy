/** The whole screening run once the downloads and the executed formula
    file are in hand: discover the formulas, select the chosen one, screen
    every ticker with it, and rank the matches.
 */
module Screener {
  import opened Wrappers
  import opened Loader
  import opened Driver
  import opened Ranking

  /** The ranked report for the formula named `chosen`, or the error that
      stops the run before any ticker is screened. */
  function Run(env: map<string, Entry<Formula>>, chosen: string, universe: seq<Ticker>): (r: Result<seq<Ranked>, LoadError>)
    ensures r.Success? <==> Eligible(env, chosen)
    ensures r.Failure? ==> (r.error == NoFormulas <==> forall name :: name in env ==> !Eligible(env, name))
    ensures r.Failure? && r.error.UnknownFormula? ==>
              r.error.name == chosen && r.error.available == set name | name in env && Eligible(env, name)
    ensures r.Success? ==>
              var matches := Screen(env[chosen].formula, universe);
              && multiset(Entries(r.value)) == multiset(matches)
              && ByPriceDescending(Entries(r.value))
              && forall k :: 0 <= k < |r.value| ==> r.value[k].sr == k + 1
  {
    match LoadFormulas(env)
    case Failure(e) => Failure(e)
    case Success(formulas) =>
      assert formulas.Keys == set name | name in env && Eligible(env, name);
      match SelectFormula(formulas, chosen)
      case Failure(e) => Failure(e)
      case Success(f) => Success(Rank(Screen(f, universe)))
  }
}
