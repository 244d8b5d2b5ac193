/** What running the command can yield, and `is_success`. Spawning and waiting
    are effects: the outcome is an input to the model. */
module CommandRunner {

  import opened Wrappers

  /** A Unix exit status: the exit code, or `None` when a signal ended the
      process (`ExitStatus::code`). */
  datatype ExitStatus = ExitStatus(code: Option<int>) {
    /** `ExitStatus::success`: exited with code zero. */
    predicate Succeeded()
    {
      code == Some(0)
    }
  }

  /** The result of `Command::output`: the OS error's text when the process
      could not be started, or its status and its standard error decoded as
      `String::from_utf8_lossy` does (invalid bytes already replaced). */
  datatype CommandOutcome =
    | SpawnFailed(error: string)
    | Exited(status: ExitStatus, stderr: string)

  /** `is_success`: a zero exit code, or an exit code listed as ignored. */
  function IsSuccess(status: ExitStatus, ignored: seq<int>): (ok: bool)
    ensures status.code == Some(0) ==> ok
    ensures status.code.None? ==> !ok
    ensures forall c :: status.code == Some(c) && c != 0 ==> (ok <==> c in ignored)
  {
    status.Succeeded() || (status.code.Some? && status.code.value in ignored)
  }

  /** Ignoring more exit codes never turns a success into a failure, and
      turns exactly the newly listed codes into successes. */
  lemma IgnoringMoreCodes(status: ExitStatus, ignored: seq<int>, more: seq<int>)
    ensures IsSuccess(status, ignored) ==> IsSuccess(status, ignored + more)
    ensures IsSuccess(status, ignored + more) && !IsSuccess(status, ignored)
      ==> status.code.Some? && status.code.value in more
  {
  }
}
