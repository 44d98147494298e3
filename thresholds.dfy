/**
  The monitoring-plugin statuses and the warning/critical classifier that
  `check_cpu`, `check_ram` and `check_gc` each write out inline.
*/
module Thresholds {
  import opened Wrappers

  /** OK < WARNING < CRITICAL by severity; UNKNOWN stands apart and means "no reading". */
  datatype Status = Ok | Warning | Critical | Unknown {

    /** The process exit code of the plugin convention. */
    function Code(): (r: int) {
      match this
      case Ok => 0
      case Warning => 1
      case Critical => 2
      case Unknown => 3
    }

    /** The word that starts the printed status line. */
    function Text(): (r: string) {
      match this
      case Ok => "OK"
      case Warning => "WARNING"
      case Critical => "CRITICAL"
      case Unknown => "UNKNOWN"
    }
  }

  /** The reference classifier: the critical cut-off comes first, both cut-offs are inclusive. */
  function Classify(value: real, warning: real, critical: real): (r: Status)
  {
    if value >= critical then Critical
    else if value >= warning then Warning
    else Ok
  }

  /** The status read back from an exit code, if it is one of the four. */
  function FromCode(code: int): (s: Option<Status>)
    ensures s.Some? <==> 0 <= code <= 3
    ensures s.Some? ==> s.value.Code() == code
  {
    if code == 0 then Some(Ok)
    else if code == 1 then Some(Warning)
    else if code == 2 then Some(Critical)
    else if code == 3 then Some(Unknown)
    else None
  }

  // ---------------------------------------------------------------------
  // Lemmas

  /** Exit code and status word determine each other, and both determine the status. */
  lemma CodeTextAgree(s: Status, t: Status)
    ensures s.Code() == t.Code() <==> s == t
    ensures s.Text() == t.Text() <==> s == t
    ensures FromCode(s.Code()) == Some(s)
    ensures 0 <= s.Code() <= 3
  {
  }

  /** The three outcomes of the classifier, each with its exact condition; UNKNOWN never comes out. */
  lemma ClassifyCases(value: real, warning: real, critical: real)
    ensures Classify(value, warning, critical) == Critical <==> value >= critical
    ensures Classify(value, warning, critical) == Warning <==> warning <= value < critical
    ensures Classify(value, warning, critical) == Ok <==> value < critical && value < warning
    ensures Classify(value, warning, critical) != Unknown
  {
  }

  /** Raising the sample never lowers the status. */
  lemma ClassifyMonotone(v1: real, v2: real, warning: real, critical: real)
    requires v1 <= v2
    ensures Classify(v1, warning, critical).Code() <= Classify(v2, warning, critical).Code()
  {
  }

  /** A sample equal to a cut-off lands in the stricter category. */
  lemma ClassifyBoundaries(warning: real, critical: real)
    ensures Classify(critical, warning, critical) == Critical
    ensures warning < critical ==> Classify(warning, warning, critical) == Warning
  {
  }

  /**
    With warning at or above critical the policy stays well defined: the
    warning band is empty and the critical cut-off alone decides.
  */
  lemma ClassifyInvertedPolicy(value: real, warning: real, critical: real)
    requires warning >= critical
    ensures Classify(value, warning, critical) != Warning
    ensures Classify(value, warning, critical) == (if value >= critical then Critical else Ok)
  {
  }
}
