/**
 * The decisions of the builtins in src/builtins.rs: `exit`, `echo`,
 * `type` and `cd`. Their effects on the process, the terminal and the file
 * system are returned as values; the environment and the file system are
 * an `Env` value.
 */
module Builtins {
  import opened Outcomes
  import opened Strings
  import opened Tokenizer
  import opened Parser

  /** The builtin names, in the order of `BUILTINS`. */
  const BUILTINS: seq<string> := ["exit", "echo", "type", "pwd", "cd"]

  /** What the shell reads from its environment and file system. */
  datatype Env = Env(
    pathVar: Option<string>,          // `PATH`, if set
    inDir: (string, string) -> bool,  // whether `dir` joined with `name` exists
    home: Option<string>,             // `HOME`, if set
    pathExists: string -> bool,       // `Path::exists`
    enterable: string -> bool)        // whether `set_current_dir` succeeds

  /** The directories of a `PATH` value: the pieces between colons. */
  function PathDirs(pathVar: string): seq<string> {
    Split(pathVar, ':')
  }

  /**
   * The directories `exec` and completion search: an unset `PATH` reads as
   * the empty string, which is one empty directory.
   */
  function SearchPath(pathVar: Option<string>): seq<string> {
    PathDirs(pathVar.GetOr([]))
  }

  /** The index of the first directory of `dirs` that contains `name`, if any. */
  function FirstContaining(dirs: seq<string>, name: string, inDir: (string, string) -> bool): (r: Option<nat>)
    ensures r.Some? ==> r.value < |dirs| && inDir(dirs[r.value], name)
    ensures r.Some? ==> forall j :: 0 <= j < r.value ==> !inDir(dirs[j], name)
    ensures r.None? ==> forall j :: 0 <= j < |dirs| ==> !inDir(dirs[j], name)
    decreases |dirs|
  {
    if dirs == [] then None
    else if inDir(dirs[0], name) then Some(0)
    else
      match FirstContaining(dirs[1..], name, inDir)
      case None => None
      case Some(i) => Some(i + 1)
  }

  // ---------------------------------------------------------------------
  // exit

  const I32Min := -0x8000_0000
  const I32Max := 0x7FFF_FFFF

  predicate IsDigit(c: char) {
    '0' <= c <= '9'
  }

  predicate AllDigits(s: string) {
    forall i :: 0 <= i < |s| ==> IsDigit(s[i])
  }

  /** The value of a string of decimal digits. */
  function DigitsValue(ds: string): nat
    requires AllDigits(ds)
    decreases |ds|
  {
    if ds == [] then 0
    else DigitsValue(ds[..|ds| - 1]) * 10 + (ds[|ds| - 1] as int - '0' as int)
  }

  /**
   * `str::parse::<i32>`: an optional `+` or `-`, then at least one decimal
   * digit, and a value that fits in 32 bits.
   */
  function ParseI32(s: string): (r: Option<int>)
    ensures r.Some? ==> I32Min <= r.value <= I32Max
    ensures r.Some? ==> s != [] && (s[0] == '-' || s[0] == '+' || IsDigit(s[0]))
    ensures r.Some? ==> forall i :: 1 <= i < |s| ==> IsDigit(s[i])
    ensures r.Some? && AllDigits(s) ==> r.value == DigitsValue(s)
    ensures r.Some? && s[0] == '-' ==> |s| > 1 && AllDigits(s[1..]) && r.value == -(DigitsValue(s[1..]) as int)
    ensures r.Some? && s[0] == '+' ==> |s| > 1 && AllDigits(s[1..]) && r.value == DigitsValue(s[1..])
    ensures s != [] && AllDigits(s) && DigitsValue(s) <= I32Max ==> r == Some(DigitsValue(s))
    ensures |s| > 1 && s[0] == '-' && AllDigits(s[1..]) && DigitsValue(s[1..]) <= -I32Min ==> r == Some(-(DigitsValue(s[1..]) as int))
    ensures |s| > 1 && s[0] == '+' && AllDigits(s[1..]) && DigitsValue(s[1..]) <= I32Max ==> r == Some(DigitsValue(s[1..]))
  {
    if s == [] then None
    else
      var digits := if s[0] == '-' || s[0] == '+' then s[1..] else s;
      if digits == [] || !AllDigits(digits) then None
      else
        var v := if s[0] == '-' then -(DigitsValue(digits) as int) else DigitsValue(digits);
        if I32Min <= v <= I32Max then Some(v) else None
  }

  /** The decimal digits of `n`, without leading zeros. */
  function NatDigits(n: nat): (ds: string)
    ensures ds != [] && AllDigits(ds)
    decreases n
  {
    if n < 10 then ['0' + n as char]
    else NatDigits(n / 10) + ['0' + (n % 10) as char]
  }

  /** `n.to_string()` */
  function Decimal(n: int): string {
    if n < 0 then ['-'] + NatDigits(-n) else NatDigits(n)
  }

  lemma {:induction false} NatDigitsValue(n: nat)
    ensures DigitsValue(NatDigits(n)) == n
    decreases n
  {
    if n >= 10 {
      NatDigitsValue(n / 10);
      var ds := NatDigits(n);
      assert ds[..|ds| - 1] == NatDigits(n / 10);
    }
  }

  /** Every 32-bit integer written in decimal parses back to itself. */
  lemma ParseI32Decimal(n: int)
    requires I32Min <= n <= I32Max
    ensures ParseI32(Decimal(n)) == Some(n)
  {
    if n < 0 {
      NatDigitsValue(-n);
      assert Decimal(n)[1..] == NatDigits(-n);
    } else {
      NatDigitsValue(n);
    }
  }

  /** What `exit` decides: end the process with a code, or report an invalid code and return. */
  datatype ExitDecision = Terminate(code: int) | InvalidExitCode(arg: string)

  /**
   * `builtin_exit`: zero or several arguments end the process with 0; one
   * argument ends it with that argument's value if it parses as an `i32`,
   * and otherwise is reported without ending the process.
   */
  function BuiltinExit(args: seq<string>): (d: ExitDecision)
    ensures |args| != 1 ==> d == Terminate(0)
    ensures |args| == 1 ==> (d.Terminate? <==> ParseI32(args[0]).Some?)
    ensures |args| == 1 && d.Terminate? ==> d.code == ParseI32(args[0]).value
    ensures d.Terminate? ==> I32Min <= d.code <= I32Max
    ensures d.InvalidExitCode? ==> |args| == 1 && d.arg == args[0]
  {
    if |args| == 1 then
      match ParseI32(args[0])
      case Some(code) => Terminate(code)
      case None => InvalidExitCode(args[0])
    else Terminate(0)
  }

  /** `exit n` ends the process with `n` for every 32-bit `n`. */
  lemma ExitWithCode(n: int)
    requires I32Min <= n <= I32Max
    ensures BuiltinExit([Decimal(n)]) == Terminate(n)
  {
    ParseI32Decimal(n);
  }

  /** `exit abc` reports the invalid code and the shell keeps running. */
  lemma ExitWithWordKeepsRunning()
    ensures BuiltinExit(["abc"]) == InvalidExitCode("abc")
  {
    assert !IsDigit("abc"[0]);
  }

  // ---------------------------------------------------------------------
  // echo

  /**
   * How a redirection file is opened: `Overwrite` writes from the start
   * without truncating (the options are only `write` and `create`),
   * `Append` writes at the end.
   */
  datatype FileMode = Overwrite | Append

  /** One effect of `echo`, in order. A `Panic` is an `unwrap` on a missing target and ends the process. */
  datatype EchoEffect =
    | PrintLine(text: string)
    | WriteLine(path: string, mode: FileMode, text: string)
    | OpenOnly(path: string, mode: FileMode)
    | Panic

  function LineTo(target: Option<string>, mode: FileMode, line: string): EchoEffect {
    match target
    case Some(path) => WriteLine(path, mode, line)
    case None => Panic
  }

  function OpenTarget(target: Option<string>, mode: FileMode): EchoEffect {
    match target
    case Some(path) => OpenOnly(path, mode)
    case None => Panic
  }

  /**
   * `builtin_echo`: the arguments joined by single spaces go to exactly one
   * place, a truncate kind taking precedence over an append kind and the
   * terminal being the default; a recorded stderr target is opened and gets
   * no text; with no arguments an empty line is printed and no file is
   * touched.
   */
  function BuiltinEcho(cmd: Command): (effects: seq<EchoEffect>)
    ensures cmd.args == [] ==> effects == [PrintLine([])]
    ensures 1 <= |effects| <= 2
    ensures cmd.args != [] ==> effects[0].PrintLine? || effects[0].WriteLine? || effects[0].Panic?
    ensures cmd.args != [] && effects[0] != Panic ==> effects[0].text == Join(cmd.args, " ")
    ensures forall i :: 1 <= i < |effects| ==> effects[i].OpenOnly? || effects[i].Panic?
    ensures forall i :: 0 <= i < |effects| - 1 ==> effects[i] != Panic
    ensures cmd.args != [] && cmd.redirection == Some(Stdout) ==>
              effects[0] == if cmd.redirectionTarget.Some? then WriteLine(cmd.redirectionTarget.value, Overwrite, Join(cmd.args, " ")) else Panic
    ensures cmd.args != [] && cmd.redirection != Some(Stdout) && cmd.stdoutAppend == Some(StdoutAppend) ==>
              effects[0] == if cmd.redirectionTarget.Some? then WriteLine(cmd.redirectionTarget.value, Append, Join(cmd.args, " ")) else Panic
    ensures cmd.args != [] && cmd.redirection != Some(Stdout) && cmd.stdoutAppend != Some(StdoutAppend) ==>
              effects[0] == PrintLine(Join(cmd.args, " "))
    ensures cmd.args != [] && effects[0] != Panic && cmd.stderrRedirection == Some(Stderr) ==>
              |effects| == 2 && effects[1] == if cmd.stderrRedirectionTarget.Some? then OpenOnly(cmd.stderrRedirectionTarget.value, Overwrite) else Panic
    ensures cmd.args != [] && effects[0] != Panic && cmd.stderrRedirection != Some(Stderr) && cmd.stderrAppend == Some(StderrAppend) ==>
              |effects| == 2 && effects[1] == if cmd.stderrRedirectionTarget.Some? then OpenOnly(cmd.stderrRedirectionTarget.value, Append) else Panic
    ensures cmd.args != [] && cmd.stderrRedirection != Some(Stderr) && cmd.stderrAppend != Some(StderrAppend) ==> |effects| == 1
    ensures Panic in effects <==>
              && cmd.args != []
              && (|| ((cmd.redirection == Some(Stdout) || cmd.stdoutAppend == Some(StdoutAppend)) && cmd.redirectionTarget.None?)
                  || ((cmd.stderrRedirection == Some(Stderr) || cmd.stderrAppend == Some(StderrAppend)) && cmd.stderrRedirectionTarget.None?))
  {
    if cmd.args == [] then [PrintLine([])]
    else
      var line := Join(cmd.args, " ");
      var out :=
        if cmd.redirection == Some(Stdout) then LineTo(cmd.redirectionTarget, Overwrite, line)
        else if cmd.stdoutAppend == Some(StdoutAppend) then LineTo(cmd.redirectionTarget, Append, line)
        else PrintLine(line);
      if out == Panic then [Panic]
      else if cmd.stderrRedirection == Some(Stderr) then [out, OpenTarget(cmd.stderrRedirectionTarget, Overwrite)]
      else if cmd.stderrAppend == Some(StderrAppend) then [out, OpenTarget(cmd.stderrRedirectionTarget, Append)]
      else [out]
  }

  /** The line `echo` writes splits back into its arguments when none holds a space. */
  lemma EchoLineSplitsBack(cmd: Command)
    requires cmd.args != []
    requires forall i :: 0 <= i < |cmd.args| ==> ' ' !in cmd.args[i]
    requires BuiltinEcho(cmd)[0] != Panic
    ensures Split(BuiltinEcho(cmd)[0].text, ' ') == cmd.args
  {
    SplitJoin(cmd.args, ' ');
  }

  // ---------------------------------------------------------------------
  // type

  datatype TypeReport =
    | RequiresArgument
    | ShellBuiltin(name: string)
    | FoundAt(name: string, dir: string)
    | NotFound(name: string)

  /**
   * What `type` reports: it looks only at its first argument; a builtin
   * name is reported before any search; otherwise the first `PATH`
   * directory holding the name is reported, or "not found".
   */
  function TypeOf(args: seq<string>, env: Env): (r: TypeReport)
    ensures args == [] <==> r == RequiresArgument
    ensures args != [] ==> r.name == args[0]
    ensures r.ShellBuiltin? <==> args != [] && args[0] in BUILTINS
    ensures r.FoundAt? ==>
              && args[0] !in BUILTINS && env.pathVar.Some?
              && var dirs := PathDirs(env.pathVar.value);
              && exists i :: 0 <= i < |dirs| && dirs[i] == r.dir && env.inDir(dirs[i], r.name)
                               && forall j :: 0 <= j < i ==> !env.inDir(dirs[j], r.name)
    ensures r.NotFound? ==>
              && args[0] !in BUILTINS
              && (env.pathVar.Some? ==> var dirs := PathDirs(env.pathVar.value);
                                        forall j :: 0 <= j < |dirs| ==> !env.inDir(dirs[j], r.name))
  {
    if args == [] then RequiresArgument
    else if args[0] in BUILTINS then ShellBuiltin(args[0])
    else if env.pathVar.None? then NotFound(args[0])
    else
      var dirs := PathDirs(env.pathVar.value);
      match FirstContaining(dirs, args[0], env.inDir)
      case Some(i) => FoundAt(args[0], dirs[i])
      case None => NotFound(args[0])
  }

  /** `builtin_type`, the search loop with its early returns. */
  method BuiltinType(args: seq<string>, env: Env) returns (r: TypeReport)
    ensures r == TypeOf(args, env)
  {
    if |args| == 0 {
      return RequiresArgument;
    }
    var maybeCmd := args[0];
    if maybeCmd in BUILTINS {
      return ShellBuiltin(maybeCmd);
    }
    if env.pathVar.Some? {
      var dirs := PathDirs(env.pathVar.value);
      for i := 0 to |dirs|
        invariant forall j :: 0 <= j < i ==> !env.inDir(dirs[j], maybeCmd)
      {
        if env.inDir(dirs[i], maybeCmd) {
          return FoundAt(maybeCmd, dirs[i]);
        }
      }
    }
    return NotFound(maybeCmd);
  }

  // ---------------------------------------------------------------------
  // cd

  /** `s.replace(from, to)` for a one-character pattern: every occurrence, not only a leading one. */
  function ReplaceAll(s: string, from: char, to: string): (r: string)
    ensures from !in s ==> r == s
    ensures from !in to ==> from !in r
    decreases |s|
  {
    if s == [] then []
    else
      var init := s[..|s| - 1];
      assert s == init + [s[|s| - 1]];
      ReplaceAll(init, from, to) + (if s[|s| - 1] == from then to else [s[|s| - 1]])
  }

  /** Replacing is splitting at the pattern and joining with the replacement. */
  lemma {:induction false} ReplaceAllIsSplitJoin(s: string, from: char, to: string)
    ensures ReplaceAll(s, from, to) == Join(Split(s, from), to)
    decreases |s|
  {
    if s != [] {
      var init := s[..|s| - 1];
      var c := s[|s| - 1];
      ReplaceAllIsSplitJoin(init, from, to);
      var ps := Split(init, from);
      assert s == init + [c];
      if c == from {
        JoinSnoc(ps, [], to);
      } else {
        JoinExtendLast(ps, c, to);
      }
    }
  }

  /** `ReplaceAll("~/a~b", '~', "/h")` replaces both tildes. */
  lemma ReplaceEveryTilde()
    ensures ReplaceAll("~/a~b", '~', "/h") == "/h/a/hb"
  {
    var s := "~/a~b";
    assert s[..1] == "~" && s[..2] == "~/" && s[..3] == "~/a" && s[..4] == "~/a~";
    assert s[..2][..1] == s[..1] && s[..3][..2] == s[..2] && s[..4][..3] == s[..3] && s[..4] == s[..|s| - 1];
    assert ReplaceAll(s[..1], '~', "/h") == "/h";
    assert ReplaceAll(s[..2], '~', "/h") == "/h/";
    assert ReplaceAll(s[..3], '~', "/h") == "/h/a";
    assert ReplaceAll(s[..4], '~', "/h") == "/h/a/h";
  }

  datatype CdOutcome =
    | TooManyArguments
    | ChangedTo(dir: string)
    | CannotEnter(dir: string)    // the error of `set_current_dir` is reported
    | NoSuchDirectory(arg: string)
    | CdPanic                     // an index past an empty argument list, or a failed `expect`

  /**
   * `builtin_cd`: more than one argument is refused; no argument goes to
   * `HOME` when it is set (and with `HOME` unset falls through to index an
   * empty list); one argument has every `~` replaced by `HOME`, or by
   * nothing when `HOME` is unset, and a path that does not exist is
   * reported without changing directory.
   */
  function BuiltinCd(args: seq<string>, env: Env): (r: CdOutcome)
    ensures |args| > 1 <==> r == TooManyArguments
    ensures |args| == 0 && env.home.None? <==> r == CdPanic && |args| == 0
    ensures |args| == 0 && env.home.Some? ==> r == (if env.enterable(env.home.value) then ChangedTo(env.home.value) else CannotEnter(env.home.value))
    ensures |args| == 1 ==>
              var path := ReplaceAll(args[0], '~', env.home.GetOr([]));
              && (r == NoSuchDirectory(args[0]) <==> !env.pathExists(path))
              && (r.ChangedTo? <==> env.pathExists(path) && env.enterable(path))
              && (r.ChangedTo? ==> r.dir == path)
              && (r == CdPanic <==> env.pathExists(path) && !env.enterable(path))
    ensures |args| == 1 && r.ChangedTo? && '~' !in args[0] ==> r.dir == args[0]
    ensures |args| == 1 && r.ChangedTo? && '~' !in env.home.GetOr([]) ==> '~' !in r.dir
  {
    if |args| > 1 then TooManyArguments
    else if |args| == 0 && env.home.Some? then
      if env.enterable(env.home.value) then ChangedTo(env.home.value) else CannotEnter(env.home.value)
    else if |args| == 0 then CdPanic
    else
      var path := ReplaceAll(args[0], '~', env.home.GetOr([]));
      if !env.pathExists(path) then NoSuchDirectory(args[0])
      else if env.enterable(path) then ChangedTo(path)
      else CdPanic
  }
}
