/**
 * The errors returned by the configuration layer (pkg/validators.go).
 * Go returns an `error` whose only observable content is its message; each
 * constructor below stands for one of those messages.
 */
module Errors {

  datatype ConfigError =
    | InvalidIp              // "invalid IP address"
    | PortsAlreadySelected   // "Invalid syntax, port/s allready selected"
    | InvalidPortValue       // "invalid port value"
    | StartAfterEnd          // "Invalid syntax, start port is larger than end port"
    | InvalidRangeSyntax     // "Invalid syntax for port range"
    | InvalidListSyntax      // "invalid syntax for ports"
    | NoPortsProvided        // "Invalid syntax, no ports provided"
    | DuplicatePort          // "duplicate port in the list"
    | MultipleProtocols      // "invalid syntax, multiple protocol flags"
    | MultipleOutputs        // "invalid syntax, multiple output flags"
    | MissingFileName        // "invalid syntax, missing output file name"
    | MultipleWorkers        // "invalid syntax, multiple worker flags"
    | InvalidWorkerCount     // "invalid worker count value, expected int"
    | MissingPortValue       // "Expected value after -p"
    | MissingFileValue       // "Expected filename after -f"
    | MissingWorkerValue     // "Expected value after -w"
    | UnknownFlag            // "Unknown flag"
    | SanityAddr             // "internal error, sanity check Addr"
    | SanityPort             // "internal error, sanity check Port"

  /** A value or the error that replaced it. */
  datatype Parsed<+T> = Ok(value: T) | Err(error: ConfigError)

  /** Go's `error` result: nil (Pass) or an error (Fail). */
  datatype Outcome = Pass | Fail(error: ConfigError)
}
