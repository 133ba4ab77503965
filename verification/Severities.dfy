/** NMSettingVerifyResult, from harmless to fatal. */
module Severities {
  datatype Severity = Success | Normalizable | NormalizableError | Error

  function Rank(s: Severity): nat {
    match s
    case Success => 0
    case Normalizable => 1
    case NormalizableError => 2
    case Error => 3
  }

  function Max(a: Severity, b: Severity): Severity {
    if Rank(a) < Rank(b) then b else a
  }
}
