/** The display name used in alert subjects and reports (`get_program_name`). */
module ProgramName {

  import opened Wrappers
  import opened Strings
  import opened Paths
  import opened Cli

  /** `--program-name` when given; otherwise the file name of the command
      path, or the whole command when it has none. */
  function GetProgramName(args: Args): (name: string)
    ensures args.programName.Some? ==> name == args.programName.value
    ensures args.programName.None? ==>
      name == args.command || (IsNormal(name) && '/' !in name && name in Split(args.command, '/'))
  {
    match args.programName
    case Some(n) => n
    case None => FileName(args.command).GetOr(args.command)
  }

  /** A bare command such as `false` is displayed as itself. */
  lemma BareCommandName(args: Args)
    requires args.programName.None? && IsNormal(args.command) && '/' !in args.command
    ensures GetProgramName(args) == args.command
  {
    FileNameOfName(args.command);
  }

  /** A command given by path is displayed by its last component. */
  lemma PathCommandName(args: Args, dir: string, name: string)
    requires args.programName.None? && args.command == dir + "/" + name
    requires IsNormal(name) && '/' !in name
    ensures GetProgramName(args) == name
  {
    FileNameOfJoin(dir, name);
  }

  /** A command without a file name (`/`, `.`, `..`, ...) is displayed whole. */
  lemma CommandWithoutFileName(args: Args)
    requires args.programName.None? && FileName(args.command).None?
    ensures GetProgramName(args) == args.command
  {
  }
}
