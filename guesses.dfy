/**
 * The check between the fit function's parameter names and the initial
 * guesses: the first name is the independent variable, every other name
 * needs exactly one guess.
 */
module FitParameters {

  /** What the check reports: the mismatch error, or the parameter count and each parameter with its guess. */
  datatype GuessCheck =
    | Mismatch
    | Listing(count: int, pairs: seq<(string, real)>)

  /**
   * `names` are the fit function's argument names, independent variable
   * first; `guesses` are the initial guesses, one per remaining argument.
   */
  method CheckGuesses(names: seq<string>, guesses: seq<real>) returns (outcome: GuessCheck)
    ensures outcome.Mismatch? <==> |names| - 1 != |guesses|
    ensures outcome.Listing? ==>
              outcome.count == |guesses| == |names| - 1 &&
              |outcome.pairs| == |guesses| &&
              forall i :: 0 <= i < |guesses| ==> outcome.pairs[i] == (names[i + 1], guesses[i])
  {
    if |names| - 1 != |guesses| {
      return Mismatch;
    }
    var pairs: seq<(string, real)> := [];
    for i := 0 to |guesses|
      invariant |pairs| == i
      invariant forall k :: 0 <= k < i ==> pairs[k] == (names[k + 1], guesses[k])
    {
      pairs := pairs + [(names[i + 1], guesses[i])];
    }
    return Listing(|names| - 1, pairs);
  }
}
