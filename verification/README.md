# cronwrap-alert, modelled in Dafny

`cronwrap` runs one command, usually from cron. If the command fails, it posts
an alert to an HTTP endpoint. This project models the deterministic core of
`src/lib.rs` as pure functions. The effects become inputs:

- the environment is a `map<string, string>`;
- the host name and the start time are strings;
- the result of running the command is a `CommandOutcome`: the spawn error text, or the exit status plus the decoded standard error;
- the result of the alert POST is a `Delivery`.

`main` becomes `Supervisor.Run`. It returns one of two things:

- a `RunError`, standing for one of the program's panics (a missing endpoint or token, or the truncation `unwrap`);
- a `RunReport`: the exit code, the alert request that was sent (if any), and the lines `send_alert` logged.

Modules, leaves first:

| module | file | models |
|---|---|---|
| `Wrappers` | wrappers.dfy | `Option` / `Result` |
| `Strings` | strings.dfy | split/join on a separator; decimal `Display` of integers |
| `Utf8` | utf8.dfy | UTF-8 (section 3 of RFC 3629): byte length of text, character boundaries |
| `Json` | json.dfy | the string literal `serde_json` writes (section 7 of RFC 8259), a reader for it, `null`/string values |
| `Paths` | paths.dfy | `Path::file_name` for Unix paths |
| `Cli` | cli.dfy | the `Args` record |
| `ConfigResolver` | config.dfy | `or_env`, building `AlertConfig` |
| `CommandRunner` | runner.dfy | exit statuses, command outcomes, `is_success` |
| `ProgramName` | naming.dfy | `get_program_name` |
| `ReportFormatter` | report.dfy | `format_spawn_error`, `format_execution_error` |
| `AlertDispatcher` | alert.dfy | the payload and request of `post_alert`, the log of `send_alert` |
| `Supervisor` | supervisor.dfy | `main` |

Points of the code's behaviour worth knowing:

- `--no-alert-origin` only drops the host-name fallback. An origin from `CRONWRAP_ALERT_ORIGIN` or `ALERT_ORIGIN` still applies (`ConfigResolver.OriginRule`).
- A truncated standard error keeps the last `cap + 1` characters (see Findings).
- Truncation panics when the text is longer than the cap in bytes but not in characters (see Findings).

## Model

| member | source | states |
|---|---|---|
| ConfigResolver.OrEnv | src/lib.rs:186-191 | The CLI value wins, then `CRONWRAP_<NAME>`, then `<NAME>`. The result is absent exactly when all three are absent. |
| ConfigResolver.OrEnvIsPrecedence | src/lib.rs:186-191 | `or_env` equals "first present" over the three tiers in order. |
| ConfigResolver.Resolve | src/lib.rs:199-208 | Fails with the endpoint error exactly when no endpoint tier has a value. Fails with the token error exactly when an endpoint exists but no token does. Otherwise endpoint, token and category are the resolved values. |
| ConfigResolver.ChannelRule | src/lib.rs:203 | The channel is the resolved value, or `"cronwrap"` when no tier has one. |
| ConfigResolver.OriginRule | src/lib.rs:194-205 | A resolved origin wins, even over `--no-alert-origin`. Otherwise the origin is the host name, unless the flag is set. The origin is null exactly when nothing resolves and the flag is set. |
| ConfigResolver.ResolveFailsOnlyForEndpointOrToken | src/lib.rs:199-208 | Whether configuration succeeds depends only on the endpoint and token tiers, never on the host name. |
| CommandRunner.IsSuccess | src/lib.rs:182-184 | Code 0 always succeeds. A signal (no code) never succeeds. A non-zero code succeeds exactly when it is in the ignored list. |
| CommandRunner.IgnoringMoreCodes | src/lib.rs:182-184 | Adding ignored codes never turns a success into a failure. The only new successes are the newly listed codes. |
| Paths.FileName | src/lib.rs:171-175 | A file name, when there is one, is a normal component of the path: non-empty, not `.` or `..`, and without `/`. |
| Paths.FileNameOfName | src/lib.rs:171-175 | A slash-free name is its own file name. |
| Paths.FileNameOfJoin | src/lib.rs:171-175 | The file name of `dir/name` is `name`, for every `dir`. |
| Paths.FileNameIgnoresTrailing | src/lib.rs:171-175 | A trailing `/` or `/.` does not change the file name. |
| Paths.NoFileName | src/lib.rs:171-175 | `""`, `/`, `.`, `..` and `/..` have no file name. |
| Paths.FileNameOfParent | src/lib.rs:171-175 | Every path ending in `/..` has no file name, whatever directory precedes it, so the whole command is displayed. |
| ProgramName.GetProgramName | src/lib.rs:170-180 | `--program-name` wins. Otherwise the result is the whole command, or a normal `/`-free component of it. |
| ProgramName.BareCommandName | src/lib.rs:172-175 | A command without `/` is displayed as itself (`false` as `false`). |
| ProgramName.PathCommandName | src/lib.rs:172-175 | A command `dir/name` is displayed as `name`. |
| ProgramName.CommandWithoutFileName | src/lib.rs:174-175 | A command with no file name is displayed whole. |
| Json.FromOption | src/lib.rs:32-33 | An absent category or origin becomes JSON `null`. A present one becomes its string. |
| Json.EscapeChar | src/lib.rs:117 | Each character is written as itself when it needs no escape, and otherwise as an escape of printable characters only. |
| Json.Quote | src/lib.rs:117 | The literal is quoted and contains no control character, so in particular no line break. |
| Json.UnquoteQuote | src/lib.rs:123 | Reading a written literal gives back the original string (round trip). |
| Json.QuotePlain | src/lib.rs:117 | Text with no quote, backslash or control character is only wrapped in quotes. |
| Utf8.EncodeScalar | src/lib.rs:151 | The encoding of a scalar has 1 to 4 bytes. Its lead byte announces its length, the rest are continuation bytes, and it decodes back to the scalar. |
| Utf8.ByteLengthIsEncodedLength | src/lib.rs:151 | `len()` (the byte length) is the length of the UTF-8 encoding. |
| Utf8.ByteLengthBounds | src/lib.rs:151 | A text has between one and four bytes per character. It has exactly one byte per character exactly when it is ASCII. |
| Utf8.CutIsCharBoundary | src/lib.rs:154-159 | Cutting the text at a character index splits its encoding exactly, at a character boundary. |
| ReportFormatter.ArgumentLinesSplit | src/lib.rs:122-124 | The argument block splits into exactly one line per argument, in order. |
| ReportFormatter.ArgumentsReadBack | src/lib.rs:144-146 | Each argument line is two spaces followed by a literal that reads back as that argument. |
| ReportFormatter.InvocationLines | src/lib.rs:117-124 | The command and argument block is, line by line: two blank lines, `Command: <literal>`, a blank line, `Arguments:`, then exactly one indented literal per argument. |
| ReportFormatter.InvocationReadBack | src/lib.rs:117-124 | An independent reader of the block recovers the command and every argument, in order. |
| ReportFormatter.FormatSpawnError | src/lib.rs:111-126 | The report starts `Failed to start <name> at <time>: <error>`. The rest is the invocation block, from which the reader recovers the command and every argument. |
| ReportFormatter.Describe | src/lib.rs:134-138 | An exit code is described as `exited with status code ...`. A signal is described as `was terminated by a signal`. |
| ReportFormatter.DescribeReadBack | src/lib.rs:134-138 | The exit code can be parsed back from its description. A signal's description does not start like an exit code's. |
| ReportFormatter.StderrSection | src/lib.rs:147-166 | Panics exactly when the text is non-empty, over the cap in bytes, and at most the cap in characters. |
| ReportFormatter.FormatExecutionError | src/lib.rs:128-168 | The report is the header line with the exit description, the invocation block (from which the reader recovers the command and every argument), then the standard error section. It fails exactly when that section does. |
| ReportFormatter.FormatExecutionErrorIntended | src/lib.rs:128-168 | The corrected report is always produced: the same header and readable invocation block, then the corrected section. It equals the code's report whenever the capture fits in the cap. |
| ReportFormatter.StderrEmpty | src/lib.rs:148-149 | Empty standard error gives only the `(empty)` marker, with no content block. |
| ReportFormatter.StderrVerbatim | src/lib.rs:162-165 | Non-empty text within the cap reads back as the full form carrying exactly that text, with no elision. |
| ReportFormatter.StderrTruncated | src/lib.rs:151-161 | Over the cap, the section reads back as the truncated form. It carries exactly the last `cap + 1` characters, and their bytes are the tail of the text's encoding from a character boundary. |
| ReportFormatter.TruncationPanicsOnMultiByte | src/lib.rs:151-158 | `é` (two bytes) with a cap of one byte panics. |
| ReportFormatter.TruncationKeepsOneExtra | src/lib.rs:153-161 | `abc` with a cap of one keeps `bc`, which is over the cap. |
| ReportFormatter.TailWithin | src/lib.rs:151-161 | The longest suffix that fits in the byte budget: a suffix, within budget, and no longer suffix fits. |
| ReportFormatter.StderrSectionIntended | src/lib.rs:147-166 | Corrected section: never panics, and agrees with the code when the text is within the cap. |
| ReportFormatter.IntendedTailWithinCap | src/lib.rs:151-161 | The corrected truncation keeps at most `cap` bytes. It cuts on a character boundary and keeps the longest tail that fits. |
| ReportFormatter.IntendedSectionReadsBack | src/lib.rs:151-161 | A reader of the corrected section sees a truncated capture whose tail is exactly the kept suffix. |
| AlertDispatcher.Payload | src/lib.rs:30-37 | The payload has exactly six keys. Category and origin are `null` exactly when unset. The other values are the given strings. |
| AlertDispatcher.AlertRequest | src/lib.rs:39-42 | The request goes to the configured endpoint with `Bearer <token>` and a `text/plain` payload. |
| AlertDispatcher.SendAlertLog | src/lib.rs:49-55 | Two log lines: the announcement, then the key, or the error. |
| Supervisor.Alerted | src/lib.rs:226-229 | The alert branch exits with 1 and sends the alert with subject `Scheduled execution failed: <name>`. |
| Supervisor.Run | src/lib.rs:193-230 | A configuration failure is returned as is. A completed run exits with 0 or 1, exits with 0 exactly when no alert is sent, and does so exactly when the command succeeded. |
| Supervisor.RunIntended | src/lib.rs:193-230 | `main` with the corrected section. It stops only when the endpoint or token is missing. Otherwise it exits with 0 exactly when the command succeeded, and with 1 and one alert otherwise. |
| Supervisor.IntendedAgreesWithinCap | src/lib.rs:147-166 | When the captured standard error fits in the cap, the corrected run and the run as written are identical. |
| Supervisor.ConfigurationFirst | src/lib.rs:199-214 | Missing endpoint or token fails the run identically, whatever the command or the delivery would do. |
| Supervisor.SuccessSendsNothing | src/lib.rs:214-218 | A successful command gives exit code 0, no alert and no log. |
| Supervisor.FailureSendsOneAlert | src/lib.rs:219-229 | A failed command gives exit code 1 and one alert: six keys, `text/plain`, the subject naming the program, and the configured channel, category, origin, endpoint and token. Its body is the execution report, or the spawn report when the command could not start. The only other result is the truncation panic. |
| Supervisor.SpawnFailureReported | src/lib.rs:221-223 | A spawn failure always alerts, and the body begins `Failed to start <name> at <time>: <error>`. |
| Supervisor.DeliveryNeverEscalates | src/lib.rs:49-55 | The delivery result changes neither the exit code nor the alert. |
| Supervisor.FalseAlerts | tests/alert.rs:6-39 | `false` with 1 not ignored: exit 1 and six keys. The channel is `foo`, the category `null`, the origin the host name. The payload is `text/plain` with subject `Scheduled execution failed: false`. |
| Supervisor.OriginScenarios | tests/alert.rs:112-174 | `--no-alert-origin` gives a `null` origin. `--alert-origin server-1234` gives that origin. |
| Supervisor.NoAlertScenarios | tests/no_alert.rs:6-55 | `true`, and `false` with codes `[1, 10, 100]` ignored: exit 0 and no alert. |

## Left out

- Running the command (`Command::output`) is not modelled. Its result is the `CommandOutcome` input.
- Lossy UTF-8 decoding of the captured bytes is not modelled. The input is the decoded text, a sequence of Unicode scalar values.
- The HTTP POST through `reqwest` is not modelled: network I/O in a foreign library. This covers serialising the payload object to JSON text and parsing the `key` out of the reply. The payload is modelled as a map from keys to values; the reply is the `Delivery` input.
- `gethostname` and `Utc::now` are not modelled: system calls and a clock. The RFC 3339 formatting of the time is left out too. Both are input strings.
- `clap` argument parsing is not modelled. That includes the rule that `--alert-origin` and `--no-alert-origin` exclude each other, which `main` does not rely on. `Args` is a plain record, and `Cli.DefaultMaxOutputCapture` records the default cap.
- Paths.FileName: follows Unix component rules only. Windows prefixes and separators are not modelled.
- Json.Unquote: the reference reader refuses `\u` escapes that name surrogates instead of pairing them. Writing never produces such escapes.
- The text of the two `expect` panic messages is not modelled. `ConfigResolver.ConfigError` records which of the two fired.
- Integer widths are not modelled: `usize` for the cap and `i32` for exit codes are unbounded `nat`/`int`. No computation here comes near those bounds.

## Findings

| source | as written | input that shows it | evidently intended | confidence | as-written member | corrected member |
|---|---|---|---|---|---|---|
| src/lib.rs:151-158 | Truncation is triggered by the byte length but cuts by character count. `nth_back(cap)` is `None` when the text has at most `cap` characters, and `unwrap` panics. | standard error `é` (2 bytes), `--max-output-capture 1` | report a tail that fits in the cap, never panic | high (not executed) | ReportFormatter.TruncationPanicsOnMultiByte | ReportFormatter.IntendedTailWithinCap |
| src/lib.rs:153-161 | `nth_back(cap)` keeps `cap + 1` characters, which can be more than `cap` bytes. | standard error `abc`, `--max-output-capture 1`, keeps `bc` | keep at most `cap` bytes | medium (not executed) | ReportFormatter.TruncationKeepsOneExtra | ReportFormatter.IntendedTailWithinCap |

`Supervisor.Run` follows the code as written, so the model reproduces the
program's behaviour, panic included. The corrected section is
`ReportFormatter.StderrSectionIntended`, which uses `ReportFormatter.TailWithin`.
`ReportFormatter.FormatExecutionErrorIntended` builds on it, and
`Supervisor.RunIntended` is `main` rebuilt on that report.
`Supervisor.IntendedAgreesWithinCap` shows that the two runs agree whenever
the capture fits in the cap.
