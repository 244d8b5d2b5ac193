/** The parsed command line (`Args` in src/lib.rs). Parsing itself, and the
    rule that `--alert-origin` and `--no-alert-origin` exclude each other, are
    the argument parser's business; `main` accepts any record of this shape. */
module Cli {

  import opened Wrappers

  /** Default of `--max-output-capture`, in bytes. */
  const DefaultMaxOutputCapture: nat := 65536

  datatype Args = Args(
    alertChannel: Option<string>,
    alertCategory: Option<string>,
    alertOrigin: Option<string>,
    noAlertOrigin: bool,
    alertEndpoint: Option<string>,
    alertToken: Option<string>,
    maxOutputCapture: nat,        // a `usize`; never close to its limit here
    ignoreExitCode: seq<int>,     // `i32` exit codes treated as success
    programName: Option<string>,
    command: string,
    args: seq<string>
  )
}
