/** The textual explainer of src/vdt_scoring/explain/text.py. */
module Explain {

  const BlurReason := "High blur/compression indicators"
  const TemporalReason := "Temporal inconsistency peaks across frames"
  const LowEdgeReason := "Very low edge detail; possible heavy compression or defocus"
  const FallbackReason := "No strong manipulation indicators; low-risk frame"

  /** `textual_reasons(edge, motion, blur)`: each rule that fires adds its
      reason, in the order blur, temporal, low edge; with none, the fallback. */
  function TextualReasons(edge: real, motion: real, blur: real): (r: seq<string>)
    ensures 1 <= |r| <= 3
    ensures BlurReason in r <==> blur > 0.6
    ensures TemporalReason in r <==> motion > 0.5
    ensures LowEdgeReason in r <==> edge < 0.1
    ensures FallbackReason in r <==> !(blur > 0.6 || motion > 0.5 || edge < 0.1)
    ensures FallbackReason in r ==> r == [FallbackReason]
    ensures forall i, j :: 0 <= i < j < |r| ==> Rank(r[i]) < Rank(r[j])
  {
    var reasons := (if blur > 0.6 then [BlurReason] else [])
      + (if motion > 0.5 then [TemporalReason] else [])
      + (if edge < 0.1 then [LowEdgeReason] else []);
    if reasons == [] then [FallbackReason] else reasons
  }

  /** The position of a reason in the rule table. */
  function Rank(reason: string): nat
  {
    if reason == BlurReason then 0
    else if reason == TemporalReason then 1
    else if reason == LowEdgeReason then 2
    else 3
  }

  /** The order of the rule table has no ties, so no reason repeats. */
  lemma ReasonsDistinct(edge: real, motion: real, blur: real)
    ensures var r := TextualReasons(edge, motion, blur);
      forall i, j :: 0 <= i < j < |r| ==> r[i] != r[j]
  {
  }

  lemma ReasonsExamples()
    ensures TextualReasons(0.05, 0.7, 0.8) == [BlurReason, TemporalReason, LowEdgeReason]
    ensures TextualReasons(0.5, 0.1, 0.1) == [FallbackReason]
  {
  }
}
