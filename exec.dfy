/**
 * `exec` of src/exec.rs: a builtin name runs its builtin; any other name
 * is looked up in the `PATH` directories, and a found command is spawned
 * by name once its redirections are validated. The spawn itself is
 * returned as a plan.
 */
module Exec {
  import opened Outcomes
  import opened Strings
  import opened Tokenizer
  import opened Parser
  import opened Builtins

  /** Where a child's output stream goes. */
  datatype StdioSetup = Inherit | CreateFile(path: string)

  datatype ExecError = TargetExpected | UnsupportedRedirection

  /** The child process to spawn: the program is the bare name, found again by the OS. */
  datatype SpawnPlan = SpawnPlan(program: string, args: seq<string>, stdout: StdioSetup, stderr: StdioSetup)

  /** What a builtin decided. */
  datatype BuiltinRun =
    | ExitRun(decision: ExitDecision)
    | EchoRun(effects: seq<EchoEffect>)
    | TypeRun(report: TypeReport)
    | PwdRun
    | CdRun(outcome: CdOutcome)

  datatype ExecOutcome =
    | RanBuiltin(run: BuiltinRun)
    | CommandNotFound(name: string)
    | Failed(error: ExecError)
    | Spawned(dir: string, plan: SpawnPlan)   // `dir` is the first PATH directory holding the name

  /**
   * The redirection checks before spawning: only `redirection` and
   * `stderr_redirection` are consulted; a stdout kind needs a target, a
   * stderr kind without a target leaves stderr inherited, and a slot
   * holding any other kind is unsupported.
   */
  function SpawnSetup(cmd: Command): (r: Result<SpawnPlan, ExecError>)
    ensures r.Ok? <==>
              && (cmd.redirection.None? || (cmd.redirection == Some(Stdout) && cmd.redirectionTarget.Some?))
              && (cmd.stderrRedirection.None? || cmd.stderrRedirection == Some(Stderr))
    ensures r == Err(TargetExpected) <==> cmd.redirection == Some(Stdout) && cmd.redirectionTarget.None?
    ensures r.Ok? ==> r.value.program == cmd.name && r.value.args == cmd.args
    ensures r.Ok? ==> (r.value.stdout.CreateFile? <==> cmd.redirection.Some?)
    ensures r.Ok? && r.value.stdout.CreateFile? ==> Some(r.value.stdout.path) == cmd.redirectionTarget
    ensures r.Ok? ==> (r.value.stderr.CreateFile? <==> cmd.stderrRedirection.Some? && cmd.stderrRedirectionTarget.Some?)
    ensures r.Ok? && r.value.stderr.CreateFile? ==> Some(r.value.stderr.path) == cmd.stderrRedirectionTarget
  {
    var out: Result<StdioSetup, ExecError> :=
      match cmd.redirection
      case None => Ok(Inherit)
      case Some(Stdout) =>
        if cmd.redirectionTarget.Some? then Ok(CreateFile(cmd.redirectionTarget.value)) else Err(TargetExpected)
      case Some(_) => Err(UnsupportedRedirection);
    if out.Err? then Err(out.error)
    else
      match cmd.stderrRedirection
      case None => Ok(SpawnPlan(cmd.name, cmd.args, out.value, Inherit))
      case Some(Stderr) =>
        var err := if cmd.stderrRedirectionTarget.Some? then CreateFile(cmd.stderrRedirectionTarget.value) else Inherit;
        Ok(SpawnPlan(cmd.name, cmd.args, out.value, err))
      case Some(_) => Err(UnsupportedRedirection)
  }

  /** The command builder of `exec`, configured step by step with early returns. */
  method BuildCommand(cmd: Command) returns (r: Result<SpawnPlan, ExecError>)
    ensures r == SpawnSetup(cmd)
  {
    var command := SpawnPlan(cmd.name, [], Inherit, Inherit);
    command := command.(args := cmd.args);
    if cmd.redirection.Some? {
      match cmd.redirection.value {
        case Stdout =>
          if cmd.redirectionTarget.Some? {
            command := command.(stdout := CreateFile(cmd.redirectionTarget.value));
          } else {
            return Err(TargetExpected);
          }
        case _ =>
          return Err(UnsupportedRedirection);
      }
    }
    if cmd.stderrRedirection.Some? {
      match cmd.stderrRedirection.value {
        case Stderr =>
          if cmd.stderrRedirectionTarget.Some? {
            command := command.(stderr := CreateFile(cmd.stderrRedirectionTarget.value));
          }
        case _ =>
          return Err(UnsupportedRedirection);
      }
    }
    return Ok(command);
  }

  /**
   * `exec`: builtins first, with no `PATH` search; then the first `PATH`
   * directory holding the name; "command not found" before any
   * redirection is examined; then the redirection checks.
   */
  function Exec(cmd: Command, env: Env): (r: ExecOutcome)
    ensures r.RanBuiltin? <==> cmd.name in BUILTINS
    ensures r.CommandNotFound? <==>
              cmd.name !in BUILTINS && forall j :: 0 <= j < |SearchPath(env.pathVar)| ==> !env.inDir(SearchPath(env.pathVar)[j], cmd.name)
    ensures r.CommandNotFound? ==> r.name == cmd.name
    ensures r.Spawned? ==>
              && SpawnSetup(cmd) == Ok(r.plan)
              && exists i :: 0 <= i < |SearchPath(env.pathVar)| && SearchPath(env.pathVar)[i] == r.dir && env.inDir(r.dir, cmd.name)
                               && forall j :: 0 <= j < i ==> !env.inDir(SearchPath(env.pathVar)[j], cmd.name)
    ensures r.Failed? <==> cmd.name !in BUILTINS && !r.CommandNotFound? && SpawnSetup(cmd).Err?
    ensures r.Failed? ==> SpawnSetup(cmd) == Err(r.error)
    ensures cmd.name == "exit" ==> r == RanBuiltin(ExitRun(BuiltinExit(cmd.args)))
    ensures cmd.name == "echo" ==> r == RanBuiltin(EchoRun(BuiltinEcho(cmd)))
    ensures cmd.name == "type" ==> r == RanBuiltin(TypeRun(TypeOf(cmd.args, env)))
    ensures cmd.name == "pwd" ==> r == RanBuiltin(PwdRun)
    ensures cmd.name == "cd" ==> r == RanBuiltin(CdRun(BuiltinCd(cmd.args, env)))
  {
    match cmd.name
    case "exit" => RanBuiltin(ExitRun(BuiltinExit(cmd.args)))
    case "echo" => RanBuiltin(EchoRun(BuiltinEcho(cmd)))
    case "type" => RanBuiltin(TypeRun(TypeOf(cmd.args, env)))
    case "pwd" => RanBuiltin(PwdRun)
    case "cd" => RanBuiltin(CdRun(BuiltinCd(cmd.args, env)))
    case _ =>
      var dirs := SearchPath(env.pathVar);
      match FirstContaining(dirs, cmd.name, env.inDir)
      case None => CommandNotFound(cmd.name)
      case Some(i) =>
        match SpawnSetup(cmd)
        case Err(e) => Failed(e)
        case Ok(plan) => Spawned(dirs[i], plan)
  }

  /**
   * Whether a builtin hands control back to `exec`: `exit` ends the process
   * unless its one argument is not a valid code, and a panic in `echo` or
   * `cd` ends it too.
   */
  predicate Returns(run: BuiltinRun) {
    match run
    case ExitRun(decision) => decision.InvalidExitCode?
    case EchoRun(effects) => Panic !in effects
    case CdRun(outcome) => outcome != CdPanic
    case _ => true
  }

  /**
   * The status `exec` returns when it decides one itself: 0 after a
   * builtin that returns, 127 when the command is not found. There is none
   * when the process has ended inside a builtin, when a redirection is
   * refused, or when the status is the child's own.
   */
  function Status(o: ExecOutcome): Option<int> {
    match o
    case RanBuiltin(run) => if Returns(run) then Some(0) else None
    case CommandNotFound(_) => Some(127)
    case _ => None
  }

  /**
   * The status in terms of the command: 127 exactly for a name that is
   * neither a builtin nor in any searched directory; 0 exactly for `type`,
   * `pwd`, `exit` with one argument that is not a valid code, `echo`
   * without a missing target, and `cd` that does not panic.
   */
  lemma ExecStatus(cmd: Command, env: Env)
    ensures Status(Exec(cmd, env)) == Some(127) <==>
              cmd.name !in BUILTINS && forall j :: 0 <= j < |SearchPath(env.pathVar)| ==> !env.inDir(SearchPath(env.pathVar)[j], cmd.name)
    ensures Status(Exec(cmd, env)) == Some(0) <==>
              || cmd.name == "type"
              || cmd.name == "pwd"
              || (cmd.name == "exit" && |cmd.args| == 1 && ParseI32(cmd.args[0]).None?)
              || (cmd.name == "echo" && Panic !in BuiltinEcho(cmd))
              || (cmd.name == "cd" && BuiltinCd(cmd.args, env) != CdPanic)
  {
  }

  /** A builtin name is never searched for, whatever `PATH` holds. */
  lemma BuiltinsShadowPath(cmd: Command, env: Env, env': Env)
    requires cmd.name in BUILTINS
    requires env.home == env'.home && env.pathExists == env'.pathExists && env.enterable == env'.enterable
    requires cmd.name == "type" ==> env.pathVar == env'.pathVar && env.inDir == env'.inDir
    ensures Exec(cmd, env) == Exec(cmd, env')
    ensures Status(Exec(cmd, env)) == Some(0) || Status(Exec(cmd, env)).None?
  {
  }

  /** The append slots never change what happens to an external command. */
  lemma ExternalIgnoresAppendSlots(cmd: Command, env: Env, so: Option<Redirection>, se: Option<Redirection>)
    requires cmd.name !in BUILTINS
    ensures Exec(cmd.(stdoutAppend := so, stderrAppend := se), env) == Exec(cmd, env)
  {
    var cmd' := cmd.(stdoutAppend := so, stderrAppend := se);
    assert SpawnSetup(cmd') == SpawnSetup(cmd);
  }

  /** A command that comes out of the parser is never refused as unsupported. */
  lemma ParsedNeverUnsupported(toks: seq<Token>, env: Env)
    requires Parsed(toks).Ok?
    ensures Exec(Parsed(toks).value, env) != Failed(UnsupportedRedirection)
  {
  }

  /**
   * `>` with no target fails only for an external command that exists;
   * `echo` instead hits the `unwrap` on the missing target.
   */
  lemma MissingStdoutTarget(cmd: Command, env: Env)
    requires cmd.redirection == Some(Stdout) && cmd.redirectionTarget.None?
    ensures cmd.name !in BUILTINS && !Exec(cmd, env).CommandNotFound? ==> Exec(cmd, env) == Failed(TargetExpected)
    ensures cmd.name == "echo" && cmd.args != [] ==> Exec(cmd, env) == RanBuiltin(EchoRun([Panic]))
  {
  }

  /** With `PATH` set, `type` names the same directory `exec` would run the command from. */
  lemma TypeAgreesWithExec(cmd: Command, env: Env)
    requires cmd.name !in BUILTINS && env.pathVar.Some?
    requires SpawnSetup(cmd).Ok?
    ensures TypeOf([cmd.name], env).FoundAt? <==> Exec(cmd, env).Spawned?
    ensures Exec(cmd, env).Spawned? ==> TypeOf([cmd.name], env).dir == Exec(cmd, env).dir
    ensures TypeOf([cmd.name], env).NotFound? <==> Exec(cmd, env).CommandNotFound?
  {
  }
}
