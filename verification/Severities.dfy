/** The severity of a verdict. */
module Severities {
  datatype Severity = Ok | Warn | Bad
}
