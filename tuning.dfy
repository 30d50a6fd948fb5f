/** check_tuning of main.cpp: classify a frequency as A440, A432 or neither,
    with an inclusive tolerance of 1 Hz; 440 is tested first. The message the
    source prints for each outcome becomes the outcome itself. */
module Tuning {

  const La440: real := 440.0
  const La432: real := 432.0
  const Tolerance: real := 1.0

  datatype Verdict = A440 | A432 | Neither

  function Abs(x: real): (r: real)
    ensures r >= 0.0 && (r == x || r == -x)
  {
    if x < 0.0 then -x else x
  }

  /** The decision of check_tuning: A440 exactly on [439, 441], A432 exactly on
      [431, 433], neither everywhere else. */
  function CheckTuning(frequency: real): (v: Verdict)
    ensures v == A440 <==> 439.0 <= frequency <= 441.0
    ensures v == A432 <==> 431.0 <= frequency <= 433.0
    ensures v == Neither <==> frequency < 431.0 || 433.0 < frequency < 439.0 || 441.0 < frequency
  {
    if Abs(frequency - La440) <= Tolerance then A440
    else if Abs(frequency - La432) <= Tolerance then A432
    else Neither
  }

  /** The same decision with 432 tested first. */
  function CheckTuning432First(frequency: real): Verdict {
    if Abs(frequency - La432) <= Tolerance then A432
    else if Abs(frequency - La440) <= Tolerance then A440
    else Neither
  }

  /** The two reference bands are disjoint, so the order of the two tests in
      check_tuning decides nothing. */
  lemma TestOrderIrrelevant(frequency: real)
    ensures CheckTuning(frequency) == CheckTuning432First(frequency)
  {
  }

  /** The tolerance is inclusive at both ends of both bands. */
  lemma BandEdges()
    ensures CheckTuning(439.0) == A440 && CheckTuning(441.0) == A440
    ensures CheckTuning(431.0) == A432 && CheckTuning(433.0) == A432
    ensures CheckTuning(436.0) == Neither && CheckTuning(441.5) == Neither
  {
  }
}
