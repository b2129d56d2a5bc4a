/** The neighbourhood and tract colour ramp of the results map
    (analysis/08_visualize_results.py, `color_for_score`). */
module ScoreColors {
  import opened Common

  const NO_DATA_COLOR: string := "#dddddd"

  /** The five colours, from the lowest scores to the highest. */
  const RAMP: seq<string> := ["#ffffcc", "#c2e699", "#78c679", "#31a354", "#006837"]

  /** `float(score)` of a property value: numbers and booleans convert, a
      string converts when `parse` reads a number from it, anything else
      raises and yields None. */
  function AsFloat(score: Json, parse: string -> Option<real>): (f: Option<real>)
    ensures score.JNum? ==> f == Some(score.x)
    ensures score.JNull? || score.JArr? || score.JObj? ==> f.None?
  {
    match score
    case JNull => None
    case JBool(b) => Some(if b then 1.0 else 0.0)
    case JNum(x) => Some(x)
    case JStr(t) => parse(t)
    case JArr(_) => None
    case JObj(_) => None
  }

  /** The position in the ramp of a numeric score: 20-point bins, the first
      and last open-ended. */
  function Bin(s: real): (k: nat)
    ensures k < |RAMP|
    ensures k == 0 <==> s < 20.0
    ensures k == 4 <==> 80.0 <= s
    ensures 0 < k < 4 ==> 20.0 * k as real <= s < 20.0 * (k + 1) as real
  {
    if s < 20.0 then 0 else if s < 40.0 then 1 else if s < 60.0 then 2 else if s < 80.0 then 3 else 4
  }

  /** `color_for_score`: grey for a missing, null or non-numeric score,
      otherwise the ramp colour of the score's bin. */
  function ColorForScore(score: Option<Json>, parse: string -> Option<real>): (c: string)
    ensures c == NO_DATA_COLOR || c in RAMP
    ensures score.None? || score.value.JNull? ==> c == NO_DATA_COLOR
    ensures score.Some? && score.value.JNum? ==> c == RAMP[Bin(score.value.x)]
    ensures score.Some? && AsFloat(score.value, parse).Some? ==> c == RAMP[Bin(AsFloat(score.value, parse).value)]
  {
    if score.None? || score.value.JNull? then NO_DATA_COLOR
    else match AsFloat(score.value, parse)
      case None => NO_DATA_COLOR
      case Some(s) => RAMP[Bin(s)]
  }

  /** The function is total over six colours: grey for a missing or
      non-numeric score, otherwise the ramp colour of the score's bin; the
      bin is read back from the colour, since the six colours differ. */
  lemma ColorCases(score: Option<Json>, parse: string -> Option<real>)
    ensures var c := ColorForScore(score, parse);
      && (c == NO_DATA_COLOR || c in RAMP)
      && (score.None? || score.value.JNull? || AsFloat(score.value, parse).None? <==> c == NO_DATA_COLOR)
      && (score.Some? && AsFloat(score.value, parse).Some? ==>
            forall k :: 0 <= k < |RAMP| ==> (c == RAMP[k] <==> k == Bin(AsFloat(score.value, parse).value)))
  {
  }

  /** The ramp is monotone: a higher score never gets a lower colour. */
  lemma BinMonotone(s1: real, s2: real)
    requires s1 <= s2
    ensures Bin(s1) <= Bin(s2)
  {
  }

  /** Scores outside 0..100 fall into the end bins. */
  lemma OutOfRangeScores(s: real)
    ensures s < 0.0 ==> Bin(s) == 0
    ensures s > 100.0 ==> Bin(s) == |RAMP| - 1
  {
  }
}
