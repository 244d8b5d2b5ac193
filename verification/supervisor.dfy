/** `main` as a function of its inputs: the parsed arguments, the
    environment, the host name, the start time (already formatted as RFC 3339
    with milliseconds), the outcome of running the command, and the outcome of
    the alert POST. */
module Supervisor {

  import opened Wrappers
  import opened Json
  import opened Cli
  import opened ConfigResolver
  import opened CommandRunner
  import opened ProgramName
  import Paths
  import opened Utf8
  import opened ReportFormatter
  import opened AlertDispatcher

  /** A panic of `main`: a missing endpoint or token, or the truncation
      `unwrap`. */
  datatype RunError = ConfigFailed(config: ConfigError) | ReportFailed(report: ReportError)

  /** What a completed run did: its exit code, the alert it sent (if any), and
      the lines it logged. */
  datatype RunReport = RunReport(exitCode: int, alert: Option<Request>, log: seq<string>)

  /** True when the outcome needs no alert. */
  predicate Succeeded(outcome: CommandOutcome, ignored: seq<int>)
  {
    outcome.Exited? && IsSuccess(outcome.status, ignored)
  }

  /** The alert branch: send the report and exit with 1, whatever the
      delivery did. */
  function Alerted(config: AlertConfig, name: string, body: string, delivery: Delivery): (report: RunReport)
    ensures report.exitCode == 1 && report.alert.Some?
    ensures report.alert.value == AlertRequest(config, SubjectPrefix + name, body)
  {
    RunReport(1, Some(AlertRequest(config, SubjectPrefix + name, body)), SendAlertLog(delivery))
  }

  /** `main`. */
  function Run(args: Args, env: Env, hostname: string, startTime: string,
               outcome: CommandOutcome, delivery: Delivery): (r: Result<RunReport, RunError>)
    ensures Resolve(args, env, hostname).Failure? ==> r == Failure(ConfigFailed(Resolve(args, env, hostname).error))
    ensures r.Success? ==> r.value.exitCode in {0, 1}
    ensures r.Success? ==> (r.value.exitCode == 0 <==> r.value.alert.None?)
    ensures r.Success? ==> (r.value.exitCode == 0 <==> Succeeded(outcome, args.ignoreExitCode))
  {
    match Resolve(args, env, hostname)
    case Failure(e) => Failure(ConfigFailed(e))
    case Success(config) =>
      var name := GetProgramName(args);
      match outcome
      case Exited(status, stderr) =>
        if IsSuccess(status, args.ignoreExitCode) then Success(RunReport(0, None, []))
        else (
          match FormatExecutionError(startTime, name, args, status, stderr)
          case Failure(e) => Failure(ReportFailed(e))
          case Success(body) => Success(Alerted(config, name, body, delivery)))
      case SpawnFailed(error) =>
        Success(Alerted(config, name, FormatSpawnError(startTime, name, args, error), delivery))
  }

  /** Configuration is resolved before the command runs: a missing endpoint
      or token stops the run the same way whatever the command would do. */
  lemma ConfigurationFirst(args: Args, env: Env, hostname: string, startTime: string,
                           o1: CommandOutcome, d1: Delivery, o2: CommandOutcome, d2: Delivery)
    requires Resolve(args, env, hostname).Failure?
    ensures Run(args, env, hostname, startTime, o1, d1) == Run(args, env, hostname, startTime, o2, d2)
    ensures Run(args, env, hostname, startTime, o1, d1).Failure?
  {
  }

  /** A successful command (exit code zero, or an ignored code) exits with 0
      and sends nothing. */
  lemma SuccessSendsNothing(args: Args, env: Env, hostname: string, startTime: string,
                            outcome: CommandOutcome, delivery: Delivery)
    requires Resolve(args, env, hostname).Success?
    requires Succeeded(outcome, args.ignoreExitCode)
    ensures Run(args, env, hostname, startTime, outcome, delivery) == Success(RunReport(0, None, []))
  {
  }

  /** A failed command exits with 1 and sends exactly one alert: six keys,
      plain text, the subject naming the program, and the configured channel,
      category and origin. Only the truncation panic can stop it. */
  lemma FailureSendsOneAlert(args: Args, env: Env, hostname: string, startTime: string,
                             outcome: CommandOutcome, delivery: Delivery)
    requires Resolve(args, env, hostname).Success?
    requires !Succeeded(outcome, args.ignoreExitCode)
    ensures var r := Run(args, env, hostname, startTime, outcome, delivery);
      r.Failure? <==> outcome.Exited? && StderrSection(outcome.stderr, args.maxOutputCapture).Failure?
    ensures var r := Run(args, env, hostname, startTime, outcome, delivery);
      var config := Resolve(args, env, hostname).value;
      r.Success? ==>
        && r.value.exitCode == 1
        && r.value.alert.Some?
        && var req := r.value.alert.value;
        && req.endpoint == config.endpoint
        && req.authorization == "Bearer " + config.token
        && req.payload.Keys == PayloadKeys && |req.payload| == 6
        && req.payload["contentType"] == Str("text/plain")
        && req.payload["subject"] == Str("Scheduled execution failed: " + GetProgramName(args))
        && req.payload["channel"] == Str(config.channel)
        && req.payload["category"] == FromOption(config.category)
        && req.payload["origin"] == FromOption(config.origin)
        && (outcome.Exited? ==>
              req.payload["body"]
              == Str(FormatExecutionError(startTime, GetProgramName(args), args, outcome.status, outcome.stderr).value))
        && (outcome.SpawnFailed? ==>
              req.payload["body"] == Str(FormatSpawnError(startTime, GetProgramName(args), args, outcome.error)))
  {
  }

  /** A spawn failure is always reported, with the OS error in the first
      line of the body. */
  lemma SpawnFailureReported(args: Args, env: Env, hostname: string, startTime: string,
                             error: string, delivery: Delivery)
    requires Resolve(args, env, hostname).Success?
    ensures var r := Run(args, env, hostname, startTime, SpawnFailed(error), delivery);
      var head := "Failed to start " + GetProgramName(args) + " at " + startTime + ": " + error;
      && r.Success? && r.value.exitCode == 1 && r.value.alert.Some?
      && r.value.alert.value.payload.Keys == PayloadKeys
      && r.value.alert.value.payload["body"].Str?
      && var body := r.value.alert.value.payload["body"].s;
      |body| > |head| && body[..|head|] == head
  {
  }

  /** The delivery outcome changes only the log, never the exit code or the
      alert that was sent. */
  lemma DeliveryNeverEscalates(args: Args, env: Env, hostname: string, startTime: string,
                               outcome: CommandOutcome, d1: Delivery, d2: Delivery)
    ensures var r1 := Run(args, env, hostname, startTime, outcome, d1);
      var r2 := Run(args, env, hostname, startTime, outcome, d2);
      && r1.Success? == r2.Success?
      && (r1.Failure? ==> r1 == r2)
      && (r1.Success? ==> r1.value.exitCode == r2.value.exitCode && r1.value.alert == r2.value.alert)
  {
  }

  /** `main` with the corrected standard error section: the only way it can
      stop without exiting is a missing endpoint or token. */
  function RunIntended(args: Args, env: Env, hostname: string, startTime: string,
                       outcome: CommandOutcome, delivery: Delivery): (r: Result<RunReport, ConfigError>)
    ensures r.Failure? <==> Resolve(args, env, hostname).Failure?
    ensures r.Failure? ==> r.error == Resolve(args, env, hostname).error
    ensures r.Success? ==> (r.value.exitCode == 0 <==> Succeeded(outcome, args.ignoreExitCode))
    ensures r.Success? ==> (r.value.exitCode == 0 <==> r.value.alert.None?)
  {
    match Resolve(args, env, hostname)
    case Failure(e) => Failure(e)
    case Success(config) =>
      var name := GetProgramName(args);
      match outcome
      case Exited(status, stderr) =>
        if IsSuccess(status, args.ignoreExitCode) then Success(RunReport(0, None, []))
        else Success(Alerted(config, name, FormatExecutionErrorIntended(startTime, name, args, status, stderr), delivery))
      case SpawnFailed(error) =>
        Success(Alerted(config, name, FormatSpawnError(startTime, name, args, error), delivery))
  }

  /** The correction changes nothing while the captured standard error fits
      in the cap: the corrected run and the run as written then agree. */
  lemma IntendedAgreesWithinCap(args: Args, env: Env, hostname: string, startTime: string,
                                outcome: CommandOutcome, delivery: Delivery)
    requires outcome.Exited? ==> ByteLength(outcome.stderr) <= args.maxOutputCapture
    ensures var r := Run(args, env, hostname, startTime, outcome, delivery);
      match RunIntended(args, env, hostname, startTime, outcome, delivery)
      case Success(report) => r == Success(report)
      case Failure(e) => r == Failure(ConfigFailed(e))
  {
  }

  // ------------------------------------------------- the repository's tests

  /** The arguments the tests pass, for a given command and ignored codes. */
  function TestArgs(command: string, ignored: seq<int>, origin: Option<string>, noOrigin: bool,
                    category: Option<string>, endpoint: string, token: string): Args
  {
    Args(Some("foo"), category, origin, noOrigin, Some(endpoint), Some(token),
         DefaultMaxOutputCapture, ignored, None, command, [])
  }

  /** `false` (which writes nothing to standard error) exiting with 1, with
      no ignored code or codes that do not include 1: one alert with channel
      `foo`, a null category, the host name as origin, plain text, and the
      subject `Scheduled execution failed: false`. */
  lemma FalseAlerts(env: Env, hostname: string, startTime: string, endpoint: string, token: string,
                    ignored: seq<int>, delivery: Delivery)
    requires 1 !in ignored
    requires "CRONWRAP_ALERT_CATEGORY" !in env && "ALERT_CATEGORY" !in env
    requires "CRONWRAP_ALERT_ORIGIN" !in env && "ALERT_ORIGIN" !in env
    ensures var args := TestArgs("false", ignored, None, false, None, endpoint, token);
      var r := Run(args, env, hostname, startTime, Exited(ExitStatus(Some(1)), ""), delivery);
      && r.Success? && r.value.exitCode == 1 && r.value.alert.Some?
      && var p := r.value.alert.value.payload;
      && p.Keys == PayloadKeys && |p| == 6
      && p["channel"] == Str("foo")
      && p["category"] == Null
      && p["origin"] == Str(hostname)
      && p["contentType"] == Str("text/plain")
      && p["subject"] == Str("Scheduled execution failed: false")
  {
    var args := TestArgs("false", ignored, None, false, None, endpoint, token);
    var config := AlertConfig(endpoint, "foo", None, Some(hostname), token);
    var body := FormatExecutionError(startTime, "false", args, ExitStatus(Some(1)), "");
    FalseRun(env, hostname, startTime, endpoint, token, ignored, delivery);
    SubjectOfFalse();
  }

  lemma SubjectOfFalse()
    ensures SubjectPrefix + "false" == "Scheduled execution failed: false"
  {
    var s := SubjectPrefix + "false";
    assert |s| == 33;
    assert forall i :: 0 <= i < 33 ==> s[i] == "Scheduled execution failed: false"[i];
  }

  lemma FalseRun(env: Env, hostname: string, startTime: string, endpoint: string, token: string,
                 ignored: seq<int>, delivery: Delivery)
    requires 1 !in ignored
    requires "CRONWRAP_ALERT_CATEGORY" !in env && "ALERT_CATEGORY" !in env
    requires "CRONWRAP_ALERT_ORIGIN" !in env && "ALERT_ORIGIN" !in env
    ensures var args := TestArgs("false", ignored, None, false, None, endpoint, token);
      var body := FormatExecutionError(startTime, "false", args, ExitStatus(Some(1)), "");
      && body.Success?
      && Run(args, env, hostname, startTime, Exited(ExitStatus(Some(1)), ""), delivery)
         == Success(Alerted(AlertConfig(endpoint, "foo", None, Some(hostname), token), "false", body.value, delivery))
  {
    var args := TestArgs("false", ignored, None, false, None, endpoint, token);
    var config := AlertConfig(endpoint, "foo", None, Some(hostname), token);
    var status := ExitStatus(Some(1));
    FalseResolves(env, hostname, endpoint, token, ignored);
    assert Paths.IsNormal("false") && '/' !in "false";
    BareCommandName(args);
    assert !IsSuccess(status, ignored);
    StderrEmpty(args.maxOutputCapture);
    var body := FormatExecutionError(startTime, "false", args, status, "");
    assert body.Success?;
    assert Run(args, env, hostname, startTime, Exited(status, ""), delivery)
        == Success(Alerted(config, "false", body.value, delivery));
  }

  lemma FalseResolves(env: Env, hostname: string, endpoint: string, token: string, ignored: seq<int>)
    requires "CRONWRAP_ALERT_CATEGORY" !in env && "ALERT_CATEGORY" !in env
    requires "CRONWRAP_ALERT_ORIGIN" !in env && "ALERT_ORIGIN" !in env
    ensures Resolve(TestArgs("false", ignored, None, false, None, endpoint, token), env, hostname)
         == Success(AlertConfig(endpoint, "foo", None, Some(hostname), token))
  {
    assert ConfigResolver.Prefix + CategoryVar == "CRONWRAP_ALERT_CATEGORY";
    assert ConfigResolver.Prefix + OriginVar == "CRONWRAP_ALERT_ORIGIN";
  }

  /** `--no-alert-origin` (and no origin in the environment) gives a null
      origin; `--alert-origin server-1234` gives that origin. */
  lemma OriginScenarios(env: Env, hostname: string, startTime: string, endpoint: string, token: string,
                        delivery: Delivery)
    requires "CRONWRAP_ALERT_ORIGIN" !in env && "ALERT_ORIGIN" !in env
    ensures var r := Run(TestArgs("false", [], None, true, None, endpoint, token),
                         env, hostname, startTime, Exited(ExitStatus(Some(1)), ""), delivery);
      r.Success? && r.value.alert.Some? && "origin" in r.value.alert.value.payload
      && r.value.alert.value.payload["origin"] == Null
    ensures var r := Run(TestArgs("false", [], Some("server-1234"), false, None, endpoint, token),
                         env, hostname, startTime, Exited(ExitStatus(Some(1)), ""), delivery);
      r.Success? && r.value.alert.Some? && "origin" in r.value.alert.value.payload
      && r.value.alert.value.payload["origin"] == Str("server-1234")
  {
    NoOriginScenario(env, hostname, startTime, endpoint, token, delivery);
    GivenOriginScenario(env, hostname, startTime, endpoint, token, delivery);
  }

  lemma NoOriginScenario(env: Env, hostname: string, startTime: string, endpoint: string, token: string,
                         delivery: Delivery)
    requires "CRONWRAP_ALERT_ORIGIN" !in env && "ALERT_ORIGIN" !in env
    ensures var r := Run(TestArgs("false", [], None, true, None, endpoint, token),
                         env, hostname, startTime, Exited(ExitStatus(Some(1)), ""), delivery);
      r.Success? && r.value.alert.Some? && "origin" in r.value.alert.value.payload
      && r.value.alert.value.payload["origin"] == Null
  {
    assert ConfigResolver.Prefix + OriginVar == "CRONWRAP_ALERT_ORIGIN";
    var args := TestArgs("false", [], None, true, None, endpoint, token);
    OriginRule(args, env, hostname);
    FailureSendsOneAlert(args, env, hostname, startTime, Exited(ExitStatus(Some(1)), ""), delivery);
  }

  lemma GivenOriginScenario(env: Env, hostname: string, startTime: string, endpoint: string, token: string,
                            delivery: Delivery)
    ensures var r := Run(TestArgs("false", [], Some("server-1234"), false, None, endpoint, token),
                         env, hostname, startTime, Exited(ExitStatus(Some(1)), ""), delivery);
      r.Success? && r.value.alert.Some? && "origin" in r.value.alert.value.payload
      && r.value.alert.value.payload["origin"] == Str("server-1234")
  {
    var args := TestArgs("false", [], Some("server-1234"), false, None, endpoint, token);
    OriginRule(args, env, hostname);
    FailureSendsOneAlert(args, env, hostname, startTime, Exited(ExitStatus(Some(1)), ""), delivery);
  }

  /** `true`, and `false` with 1 among the ignored codes, exit with 0 and send
      nothing. */
  lemma NoAlertScenarios(env: Env, hostname: string, startTime: string, endpoint: string, token: string,
                         ignored: seq<int>, stderr: string, delivery: Delivery)
    ensures Run(TestArgs("true", ignored, None, false, None, endpoint, token),
                env, hostname, startTime, Exited(ExitStatus(Some(0)), stderr), delivery)
            == Success(RunReport(0, None, []))
    ensures Run(TestArgs("false", [1, 10, 100], None, false, None, endpoint, token),
                env, hostname, startTime, Exited(ExitStatus(Some(1)), stderr), delivery)
            == Success(RunReport(0, None, []))
  {
  }
}
