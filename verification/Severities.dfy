/** The severity scale shared by detections, alerts and cases. */
module Severities {
  datatype Severity = Informational | Low | Medium | High | Critical

  function Level(s: Severity): (n: nat)
    ensures n <= 4
  {
    match s
    case Informational => 0
    case Low => 1
    case Medium => 2
    case High => 3
    case Critical => 4
  }
}
