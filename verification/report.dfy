/** The plain-text failure reports (`format_spawn_error` and
    `format_execution_error`). The start time, the display name and the OS
    error text are opaque strings here. */
module ReportFormatter {

  import opened Wrappers
  import opened Strings
  import opened Utf8
  import opened Json
  import opened Cli
  import opened CommandRunner

  const EmptyMarker := "\n\nStandard error output (empty):\n"
  const FullHeader := "\n\nStandard error output:\n\n"
  const ElisionMarker := "[...]"
  const TruncatedHeader := "\n\nStandard error output (truncated):\n\n" + ElisionMarker + "\n"
  const ExitedPrefix := "exited with status code "
  const SignalledDescription := "was terminated by a signal"

  /** The execution report cannot be built: `char_indices().nth_back(cap)` is
      `None` (fewer than `cap + 1` characters) and `unwrap` panics. */
  datatype ReportError = NoCharacterAtCap(characters: nat, cap: nat)

  // ------------------------------------------------------ command and args

  /** One `"\n  <literal>"` line per argument, in order. */
  function ArgumentLines(args: seq<string>): string
    decreases |args|
  {
    if |args| == 0 then ""
    else ArgumentLines(args[..|args| - 1]) + "\n  " + Quote(args[|args| - 1])
  }

  /** The indented literal of each argument. */
  function IndentedArguments(args: seq<string>): (lines: seq<string>)
    ensures |lines| == |args|
  {
    seq(|args|, i requires 0 <= i < |args| => "  " + Quote(args[i]))
  }

  /** The argument block splits into exactly one line per argument (after the
      line break that opens it): no argument can spill over a line, since its
      literal holds no raw line break. */
  lemma {:induction false} ArgumentLinesSplit(args: seq<string>)
    ensures Split(ArgumentLines(args), '\n') == [""] + IndentedArguments(args)
    decreases |args|
  {
    if |args| > 0 {
      var init := args[..|args| - 1];
      var line := "  " + Quote(args[|args| - 1]);
      ArgumentLinesSplit(init);
      ArgumentLinesSnoc(args);
      IndentedLineIsOneLine(args[|args| - 1]);
      SplitAround(ArgumentLines(init), '\n', line);
      SplitNoSeparator(line, '\n');
      IndentedSnoc(args);
    }
  }

  lemma ArgumentLinesSnoc(args: seq<string>)
    requires |args| > 0
    ensures ArgumentLines(args)
         == ArgumentLines(args[..|args| - 1]) + ['\n'] + ("  " + Quote(args[|args| - 1]))
  {
    Reassociate(ArgumentLines(args[..|args| - 1]), Quote(args[|args| - 1]));
  }

  lemma Reassociate(a: string, q: string)
    ensures a + "\n  " + q == a + ['\n'] + ("  " + q)
  {
    assert "\n  " == ['\n'] + "  ";
    calc {
      a + "\n  " + q;
      a + (['\n'] + "  ") + q;
      (a + ['\n']) + "  " + q;
      a + ['\n'] + ("  " + q);
    }
  }

  lemma IndentedSnoc(args: seq<string>)
    requires |args| > 0
    ensures IndentedArguments(args)
         == IndentedArguments(args[..|args| - 1]) + ["  " + Quote(args[|args| - 1])]
  {
    var lhs := IndentedArguments(args);
    var rhs := IndentedArguments(args[..|args| - 1]) + ["  " + Quote(args[|args| - 1])];
    assert forall k :: 0 <= k < |lhs| ==> lhs[k] == rhs[k];
  }

  lemma IndentedLineIsOneLine(a: string)
    ensures '\n' !in "  " + Quote(a)
  {
    var line := "  " + Quote(a);
    assert forall k :: 2 <= k < |line| ==> line[k] == Quote(a)[k - 2];
  }

  /** Every argument can be read back from its line of the report. */
  lemma ArgumentsReadBack(args: seq<string>, i: nat)
    requires i < |args|
    ensures |Split(ArgumentLines(args), '\n')| == |args| + 1
    ensures var line := Split(ArgumentLines(args), '\n')[i + 1];
      |line| >= 2 && line[..2] == "  " && Unquote(line[2..]) == Some(args[i])
  {
    ArgumentLinesSplit(args);
    var line := "  " + Quote(args[i]);
    assert Split(ArgumentLines(args), '\n')[i + 1] == line;
    assert line[2..] == Quote(args[i]);
    UnquoteQuote(args[i]);
  }

  /** The command and argument part common to both reports. */
  function Invocation(command: string, args: seq<string>): string
  {
    "\n\nCommand: " + Quote(command) + "\n\nArguments:\n" + ArgumentLines(args)
  }

  /** The invocation block line by line: two blank lines, the command's
      literal, a blank line, the `Arguments:` title, then one line per
      argument. */
  lemma InvocationLines(command: string, args: seq<string>)
    ensures Split(Invocation(command, args), '\n')
         == ["", "", "Command: " + Quote(command), "", "Arguments:", ""] + IndentedArguments(args)
  {
    var literal := Quote(command);
    assert '\n' !in "Command: " + literal by {
      var line := "Command: " + literal;
      assert forall k :: 9 <= k < |line| ==> line[k] == literal[k - 9];
    }
    InvocationBlockLines(literal, ArgumentLines(args));
    ArgumentLinesSplit(args);
    var lines := ["", "", "Command: " + literal, "", "Arguments:"];
    assert lines + ([""] + IndentedArguments(args)) == lines + [""] + IndentedArguments(args);
  }

  lemma InvocationBlockLines(literal: string, rest: string)
    requires '\n' !in "Command: " + literal
    ensures Split("\n\nCommand: " + literal + "\n\nArguments:\n" + rest, '\n')
         == ["", "", "Command: " + literal, "", "Arguments:"] + Split(rest, '\n')
  {
    var commandLine := "Command: " + literal;
    var x4 := "Arguments:" + ['\n'] + rest;
    var x3 := "" + ['\n'] + x4;
    var x2 := commandLine + ['\n'] + x3;
    var x1 := "" + ['\n'] + x2;
    var x0 := "" + ['\n'] + x1;
    InvocationShape(literal, rest);
    SplitFirstLine("Arguments:", rest);
    SplitFirstLine("", x4);
    SplitFirstLine(commandLine, x3);
    SplitFirstLine("", x2);
    SplitFirstLine("", x1);
    assert Split(x0, '\n') == [""] + ([""] + ([commandLine] + ([""] + (["Arguments:"] + Split(rest, '\n')))));
  }

  lemma InvocationShape(literal: string, rest: string)
    ensures "\n\nCommand: " + literal + "\n\nArguments:\n" + rest
         == "" + ['\n'] + ("" + ['\n'] + (("Command: " + literal) + ['\n']
              + ("" + ['\n'] + ("Arguments:" + ['\n'] + rest))))
  {
    assert "\n\nCommand: " == ['\n', '\n'] + "Command: ";
    assert "\n\nArguments:\n" == ['\n', '\n'] + "Arguments:" + ['\n'];
  }

  lemma SplitFirstLine(line: string, rest: string)
    requires '\n' !in line
    ensures Split(line + ['\n'] + rest, '\n') == [line] + Split(rest, '\n')
  {
    SplitAround(line, '\n', rest);
    SplitNoSeparator(line, '\n');
  }

  /** What the invocation block tells its reader. */
  datatype Invoked = Invoked(command: string, args: seq<string>)

  /** Read argument lines, each two spaces and a JSON string literal. */
  function ReadArgumentLines(lines: seq<string>): Option<seq<string>>
  {
    if |lines| == 0 then Some([])
    else if !StartsWith(lines[0], "  ") then None
    else
      match (Unquote(lines[0][2..]), ReadArgumentLines(lines[1..]))
      case (Some(arg), Some(rest)) => Some([arg] + rest)
      case _ => None
  }

  /** Read an invocation block back into the command and its arguments. */
  function ReadInvocation(text: string): Option<Invoked>
  {
    var lines := Split(text, '\n');
    if |lines| < 6 || lines[0] != "" || lines[1] != "" || !StartsWith(lines[2], "Command: ")
       || lines[3] != "" || lines[4] != "Arguments:" || lines[5] != "" then None
    else
      match (Unquote(lines[2][|"Command: "|..]), ReadArgumentLines(lines[6..]))
      case (Some(command), Some(args)) => Some(Invoked(command, args))
      case _ => None
  }

  lemma {:induction false} ReadIndentedArguments(args: seq<string>)
    ensures ReadArgumentLines(IndentedArguments(args)) == Some(args)
    decreases |args|
  {
    if |args| > 0 {
      var lines := IndentedArguments(args);
      assert lines[1..] == IndentedArguments(args[1..]);
      ReadIndentedArguments(args[1..]);
      assert lines[0][2..] == Quote(args[0]);
      UnquoteQuote(args[0]);
      assert [args[0]] + args[1..] == args;
    }
  }

  /** The command and every argument can be read back from the invocation
      block, in order. */
  lemma InvocationReadBack(command: string, args: seq<string>)
    ensures ReadInvocation(Invocation(command, args)) == Some(Invoked(command, args))
  {
    InvocationLines(command, args);
    ReadInvocationLines(Invocation(command, args), command, args);
  }

  lemma ReadInvocationLines(text: string, command: string, args: seq<string>)
    requires Split(text, '\n') == ["", "", "Command: " + Quote(command), "", "Arguments:", ""] + IndentedArguments(args)
    ensures ReadInvocation(text) == Some(Invoked(command, args))
  {
    var lines := Split(text, '\n');
    assert lines[2][|"Command: "|..] == Quote(command);
    UnquoteQuote(command);
    assert lines[6..] == IndentedArguments(args);
    ReadIndentedArguments(args);
  }

  // ------------------------------------------------------------- spawn error

  /** `format_spawn_error`: what could not be started, when, and why,
      followed by the invocation, from which the command and its arguments
      can be read back. */
  function FormatSpawnError(startTime: string, programName: string, args: Args, error: string): (report: string)
    ensures var head := "Failed to start " + programName + " at " + startTime + ": " + error;
      && |report| > |head| && report[..|head|] == head
      && report[|head|..] == Invocation(args.command, args.args)
      && ReadInvocation(report[|head|..]) == Some(Invoked(args.command, args.args))
  {
    var head := "Failed to start " + programName + " at " + startTime + ": " + error;
    var invocation := Invocation(args.command, args.args);
    InvocationReadBack(args.command, args.args);
    assert (head + invocation)[|head|..] == invocation;
    head + invocation
  }

  // --------------------------------------------------------- execution error

  /** How the process ended, as the report's header says it. */
  function Describe(code: Option<int>): (d: string)
    ensures code.Some? ==> |d| > |ExitedPrefix| && d[..|ExitedPrefix|] == ExitedPrefix
    ensures code.None? ==> d == SignalledDescription
  {
    match code
    case Some(c) => ExitedPrefix + IntToDecimal(c)
    case None => SignalledDescription
  }

  /** The exit code can be read back from the description, and a signal is
      never described like an exit code. */
  lemma DescribeReadBack(code: Option<int>)
    ensures code.Some? ==> ParseDecimal(Describe(code)[|ExitedPrefix|..]) == Some(code.value)
    ensures code.None? ==> !StartsWith(Describe(code), ExitedPrefix)
  {
    if code.Some? {
      assert Describe(code)[|ExitedPrefix|..] == IntToDecimal(code.value);
      IntToDecimalRoundTrip(code.value);
    } else {
      assert Describe(code)[0] != ExitedPrefix[0];
    }
  }

  /** The standard error section of `format_execution_error`, as written:
      nothing but a marker when the text is empty; the whole text when its
      UTF-8 length is within `cap` bytes; otherwise the elision marker and
      the last `cap + 1` characters, which needs more than `cap` characters
      (otherwise `unwrap` panics). */
  function StderrSection(text: string, cap: nat): (r: Result<string, ReportError>)
    ensures r.Failure? <==> |text| > 0 && ByteLength(text) > cap && |text| <= cap
    ensures r.Failure? ==> r.error == NoCharacterAtCap(|text|, cap)
  {
    if |text| == 0 then Success(EmptyMarker)
    else if ByteLength(text) > cap then
      if |text| <= cap then Failure(NoCharacterAtCap(|text|, cap))
      else Success(TruncatedHeader + text[|text| - (cap + 1)..])
    else Success(FullHeader + text)
  }

  /** The first line of `format_execution_error`'s report: program, start
      time and how the command ended. */
  function ExecutionHeader(startTime: string, programName: string, code: Option<int>): string
  {
    "Execution of " + programName + " at " + startTime + " failed: " + Describe(code)
  }

  /** `format_execution_error`: the header with the exit description, the
      invocation, then the standard error section. */
  function FormatExecutionError(startTime: string, programName: string, args: Args,
                                status: ExitStatus, stderr: string): (r: Result<string, ReportError>)
    ensures r.Failure? <==> StderrSection(stderr, args.maxOutputCapture).Failure?
    ensures r.Success? ==>
      var header := ExecutionHeader(startTime, programName, status.code);
      var invocation := Invocation(args.command, args.args);
      && r.value == header + invocation + StderrSection(stderr, args.maxOutputCapture).value
      && ReadInvocation(r.value[|header|..|header| + |invocation|]) == Some(Invoked(args.command, args.args))
  {
    var header := ExecutionHeader(startTime, programName, status.code);
    var invocation := Invocation(args.command, args.args);
    match StderrSection(stderr, args.maxOutputCapture)
    case Failure(e) => Failure(e)
    case Success(section) =>
      InvocationReadBack(args.command, args.args);
      assert (header + invocation + section)[|header|..|header| + |invocation|] == invocation;
      Success(header + invocation + section)
  }

  // ------------------------------------------------- reading the section back

  /** What a standard error section tells its reader. */
  datatype Capture = Empty | Full(text: string) | Truncated(tail: string)

  predicate StartsWith(s: string, prefix: string)
  {
    |prefix| <= |s| && s[..|prefix|] == prefix
  }

  /** Read a standard error section: which of the three forms it has, and
      the text it carries. */
  function ReadStderrSection(section: string): Option<Capture>
  {
    if section == EmptyMarker then Some(Empty)
    else if StartsWith(section, TruncatedHeader) then Some(Truncated(section[|TruncatedHeader|..]))
    else if StartsWith(section, FullHeader) then Some(Full(section[|FullHeader|..]))
    else None
  }

  /** An empty capture shows only the marker. */
  lemma StderrEmpty(cap: nat)
    ensures StderrSection("", cap) == Success(EmptyMarker)
    ensures ReadStderrSection(EmptyMarker) == Some(Empty)
  {
  }

  /** A capture within the cap is shown verbatim, with no elision. */
  lemma StderrVerbatim(text: string, cap: nat)
    requires |text| > 0 && ByteLength(text) <= cap
    ensures StderrSection(text, cap).Success?
    ensures ReadStderrSection(StderrSection(text, cap).value) == Some(Full(text))
  {
    assert StderrSection(text, cap) == Success(FullHeader + text);
    ReadFull(text);
  }

  /** The three forms are told apart by their first line. */
  lemma ReadFull(text: string)
    ensures ReadStderrSection(FullHeader + text) == Some(Full(text))
  {
    var section := FullHeader + text;
    assert section[..|FullHeader|] == FullHeader;
    assert section[|FullHeader|..] == text;
    assert section[23] == ':' && TruncatedHeader[23] == ' ' && EmptyMarker[23] == ' ';
  }

  lemma ReadTruncated(tail: string)
    ensures ReadStderrSection(TruncatedHeader + tail) == Some(Truncated(tail))
  {
    var section := TruncatedHeader + tail;
    assert section[..|TruncatedHeader|] == TruncatedHeader;
    assert section[|TruncatedHeader|..] == tail;
    assert section[25] == 't' && EmptyMarker[25] == 'e';
  }

  /** A capture over the cap (in bytes) with more than `cap` characters shows
      the elision marker and then exactly its last `cap + 1` characters. The
      cut falls between characters: the bytes shown are exactly the trailing
      bytes of the capture's encoding, starting on a character boundary. */
  lemma StderrTruncated(text: string, cap: nat)
    requires ByteLength(text) > cap && |text| > cap
    ensures StderrSection(text, cap).Success?
    ensures var kept := text[|text| - (cap + 1)..];
      && ReadStderrSection(StderrSection(text, cap).value) == Some(Truncated(kept))
      && |kept| == cap + 1
      && Encode(text) == Encode(text[..|text| - (cap + 1)]) + Encode(kept)
      && IsCharBoundary(Encode(text), ByteLength(text[..|text| - (cap + 1)]))
  {
    var k := |text| - (cap + 1);
    assert StderrSection(text, cap) == Success(TruncatedHeader + text[k..]);
    ReadTruncated(text[k..]);
    CutIsCharBoundary(text, k);
  }

  /** As written, a capture of multi-byte characters that exceeds the cap in
      bytes but not in characters makes the report panic: here one `é` (two
      bytes) against a cap of one byte. */
  lemma TruncationPanicsOnMultiByte()
    ensures ByteLength("é") == 2
    ensures StderrSection("é", 1) == Failure(NoCharacterAtCap(1, 1))
  {
  }

  /** As written, the kept tail has one character more than the cap, so it
      can exceed the cap in bytes: `"abc"` with a cap of one keeps `"bc"`. */
  lemma TruncationKeepsOneExtra()
    ensures StderrSection("abc", 1) == Success(TruncatedHeader + "bc")
    ensures ByteLength("bc") > 1
  {
    assert "abc"[1..] == "bc";
  }

  // ---------------------------------------------------- intended truncation

  /** The longest suffix of `text` whose UTF-8 encoding fits in `budget`
      bytes. */
  function TailWithin(text: string, budget: nat): (tail: string)
    ensures |tail| <= |text| && tail == text[|text| - |tail|..]
    ensures ByteLength(tail) <= budget
    ensures |tail| < |text| ==> ByteLength(text[|text| - |tail| - 1..]) > budget
    decreases |text|
  {
    if |text| == 0 then []
    else
      var c := text[|text| - 1];
      if ScalarLength(c) > budget then
        ByteLengthSnoc([], c);
        assert text[|text| - 1..] == [] + [c];
        []
      else
        var init := text[..|text| - 1];
        var rest := TailWithin(init, budget - ScalarLength(c));
        TailWithinStep(text, budget, rest);
        rest + [c]
  }

  lemma ByteLengthSnoc(s: string, c: char)
    ensures ByteLength(s + [c]) == ByteLength(s) + ScalarLength(c)
  {
    EncodeAppend(s, [c]);
    assert [c][1..] == [];
  }

  /** Extending a maximal tail of `text` minus its last character by that
      character gives a maximal tail of `text`. */
  lemma TailWithinStep(text: string, budget: nat, rest: string)
    requires |text| > 0 && ScalarLength(text[|text| - 1]) <= budget
    requires var init, b := text[..|text| - 1], budget - ScalarLength(text[|text| - 1]);
      && |rest| <= |init| && rest == init[|init| - |rest|..]
      && ByteLength(rest) <= b
      && (|rest| < |init| ==> ByteLength(init[|init| - |rest| - 1..]) > b)
    ensures var tail := rest + [text[|text| - 1]];
      && |tail| <= |text| && tail == text[|text| - |tail|..]
      && ByteLength(tail) <= budget
      && (|tail| < |text| ==> ByteLength(text[|text| - |tail| - 1..]) > budget)
  {
    var init, c := text[..|text| - 1], text[|text| - 1];
    assert text == init + [c];
    ByteLengthSnoc(rest, c);
    assert text[|text| - |rest| - 1..] == init[|init| - |rest|..] + [c];
    if |rest| < |init| {
      assert text[|text| - |rest| - 2..] == init[|init| - |rest| - 1..] + [c];
      ByteLengthSnoc(init[|init| - |rest| - 1..], c);
    }
  }

  /** The corrected standard error section: never panics, and a truncated
      capture keeps the longest tail that fits in `cap` bytes. */
  function StderrSectionIntended(text: string, cap: nat): (section: string)
    ensures |text| > 0 && ByteLength(text) <= cap ==> section == FullHeader + text
  {
    if |text| == 0 then EmptyMarker
    else if ByteLength(text) > cap then TruncatedHeader + TailWithin(text, cap)
    else FullHeader + text
  }

  /** The intended truncation keeps at most `cap` bytes, as a tail of the
      capture cut on a character boundary, and keeps as much as fits. */
  lemma IntendedTailWithinCap(text: string, cap: nat)
    requires ByteLength(text) > cap
    ensures var tail := TailWithin(text, cap);
      && ByteLength(tail) <= cap
      && tail == text[|text| - |tail|..]
      && IsCharBoundary(Encode(text), ByteLength(text[..|text| - |tail|]))
      && ByteLength(text[|text| - |tail| - 1..]) > cap
  {
    var tail := TailWithin(text, cap);
    assert |tail| < |text|;
    CutIsCharBoundary(text, |text| - |tail|);
  }

  /** A reader of the intended section sees a truncated capture whose tail is
      exactly the kept suffix. */
  lemma IntendedSectionReadsBack(text: string, cap: nat)
    requires ByteLength(text) > cap
    ensures ReadStderrSection(StderrSectionIntended(text, cap)) == Some(Truncated(TailWithin(text, cap)))
  {
  }

  /** The execution report with the intended section: always produced, and
      the same as `format_execution_error`'s whenever the capture fits. */
  function FormatExecutionErrorIntended(startTime: string, programName: string, args: Args,
                                        status: ExitStatus, stderr: string): (body: string)
    ensures var header := ExecutionHeader(startTime, programName, status.code);
      var invocation := Invocation(args.command, args.args);
      && body == header + invocation + StderrSectionIntended(stderr, args.maxOutputCapture)
      && ReadInvocation(body[|header|..|header| + |invocation|]) == Some(Invoked(args.command, args.args))
    ensures ByteLength(stderr) <= args.maxOutputCapture ==>
      FormatExecutionError(startTime, programName, args, status, stderr) == Success(body)
  {
    var header := ExecutionHeader(startTime, programName, status.code);
    var invocation := Invocation(args.command, args.args);
    var section := StderrSectionIntended(stderr, args.maxOutputCapture);
    InvocationReadBack(args.command, args.args);
    assert (header + invocation + section)[|header|..|header| + |invocation|] == invocation;
    header + invocation + section
  }
}
