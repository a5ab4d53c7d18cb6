/**
 * The redirection parser of src/parser.rs: one left-to-right scan over the
 * tokens that fills a `Command`, with one flag saying that the next word
 * is a redirection target.
 */
module Parser {
  import opened Outcomes
  import opened Tokenizer

  /**
   * The parsed command. Four independent slots record which redirection
   * kinds were seen; two targets hold the file names.
   */
  datatype Command = Command(
    name: string,
    args: seq<string>,
    redirection: Option<Redirection>,
    redirectionTarget: Option<string>,
    stderrRedirection: Option<Redirection>,
    stderrRedirectionTarget: Option<string>,
    stdoutAppend: Option<Redirection>,
    stderrAppend: Option<Redirection>)

  const EmptyCommand := Command([], [], None, None, None, None, None, None)

  datatype ParseError =
    | RedirectionTargetExpected
    | MultipleStderrRedirections
    | MultipleRedirections
    | MixingAppendAndStdout
    | MixingAppendAndStderr

  /** The command built so far and the `set_redirection` flag. */
  datatype ParseState = ParseState(cmd: Command, setRedirection: bool)

  const Start := ParseState(EmptyCommand, false)

  /** Each slot holds only its own kind. */
  predicate SlotsHoldOwnKind(cmd: Command) {
    && cmd.redirection in {None, Some(Stdout)}
    && cmd.stderrRedirection in {None, Some(Stderr)}
    && cmd.stdoutAppend in {None, Some(StdoutAppend)}
    && cmd.stderrAppend in {None, Some(StderrAppend)}
  }

  predicate AnySlotSet(cmd: Command) {
    cmd.redirection.Some? || cmd.stderrRedirection.Some? || cmd.stdoutAppend.Some? || cmd.stderrAppend.Some?
  }

  /** What every state reached from `Start` satisfies. */
  predicate Reachable(st: ParseState) {
    SlotsHoldOwnKind(st.cmd) && (st.setRedirection ==> AnySlotSet(st.cmd))
  }

  /** One iteration of the token loop. */
  function Step(st: ParseState, t: Token): (r: Result<ParseState, ParseError>)
    ensures Reachable(st) && r.Ok? ==> Reachable(r.value)
    ensures t.Word? && Reachable(st) ==> r.Ok?
    ensures r.Ok? ==> r.value.setRedirection == t.Operand?
  {
    var cmd := st.cmd;
    match t
    case Word(word) =>
      if !st.setRedirection then
        if cmd.name == [] then Ok(ParseState(cmd.(name := word), false))
        else Ok(ParseState(cmd.(args := cmd.args + [word]), false))
      // the target goes to the first occupied slot, whatever operator came last
      else if cmd.redirection.Some? then Ok(ParseState(cmd.(redirectionTarget := Some(word)), false))
      else if cmd.stderrRedirection.Some? then Ok(ParseState(cmd.(stderrRedirectionTarget := Some(word)), false))
      else if cmd.stdoutAppend.Some? then Ok(ParseState(cmd.(redirectionTarget := Some(word)), false))
      else if cmd.stderrAppend.Some? then Ok(ParseState(cmd.(stderrRedirectionTarget := Some(word)), false))
      else Err(RedirectionTargetExpected)
    case Operand(op) =>
      if st.setRedirection then Err(RedirectionTargetExpected)
      else
        match op
        case Stderr =>
          if cmd.stderrRedirection.None? then Ok(ParseState(cmd.(stderrRedirection := Some(op)), true))
          else Err(MultipleStderrRedirections)
        case Stdout =>
          if cmd.redirection.None? then Ok(ParseState(cmd.(redirection := Some(op)), true))
          else Err(MultipleRedirections)
        case StdoutAppend =>
          if cmd.redirection.Some? then Err(MixingAppendAndStdout)
          else if cmd.stdoutAppend.None? then Ok(ParseState(cmd.(stdoutAppend := Some(op)), true))
          else Err(MultipleRedirections)
        case StderrAppend =>
          if cmd.stderrRedirection.Some? then Err(MixingAppendAndStderr)
          else if cmd.stderrAppend.None? then Ok(ParseState(cmd.(stderrAppend := Some(op)), true))
          else Err(MultipleRedirections)
  }

  /** The state after the loop has consumed all of `toks`, or the first error. */
  function Run(toks: seq<Token>): (r: Result<ParseState, ParseError>)
    ensures r.Ok? ==> Reachable(r.value)
    decreases |toks|
  {
    if toks == [] then Ok(Start)
    else
      match Run(toks[..|toks| - 1])
      case Err(e) => Err(e)
      case Ok(st) => Step(st, toks[|toks| - 1])
  }

  /** `parse`: there is no check at the end, so a pending target is not an error. */
  function Parsed(toks: seq<Token>): (r: Result<Command, ParseError>)
    ensures r.Ok? ==> SlotsHoldOwnKind(r.value)
  {
    match Run(toks)
    case Ok(st) => Ok(st.cmd)
    case Err(e) => Err(e)
  }

  lemma RunSnoc(p: seq<Token>, t: Token)
    ensures Run(p + [t]) == match Run(p) case Err(e) => Err(e) case Ok(st) => Step(st, t)
  {
    assert (p + [t])[..|p|] == p;
  }

  /** Once the scan has failed, later tokens do not change the error. */
  lemma {:induction false} ErrorPersists(p: seq<Token>, q: seq<Token>)
    requires Run(p).Err?
    ensures Run(p + q) == Run(p)
    decreases |q|
  {
    if q != [] {
      var q' := q[..|q| - 1];
      ErrorPersists(p, q');
      RunSnoc(p + q', q[|q| - 1]);
      assert p + q' + [q[|q| - 1]] == p + q;
    } else {
      assert p + q == p;
    }
  }

  /** `parse`, the loop of the source with its early returns. */
  method Parse(tokens: seq<Token>) returns (r: Result<Command, ParseError>)
    ensures r == Parsed(tokens)
  {
    var setRedirection := false;
    var cmd := EmptyCommand;
    for i := 0 to |tokens|
      invariant Run(tokens[..i]) == Ok(ParseState(cmd, setRedirection))
    {
      RunSnoc(tokens[..i], tokens[i]);
      assert tokens[..i] + [tokens[i]] == tokens[..i + 1];
      var failure: Option<ParseError> := None;
      match tokens[i]
      case Word(word) =>
        if !setRedirection {
          if cmd.name == [] {
            cmd := cmd.(name := word);
          } else {
            cmd := cmd.(args := cmd.args + [word]);
          }
        } else {
          if cmd.redirection.Some? {
            cmd := cmd.(redirectionTarget := Some(word));
          } else if cmd.stderrRedirection.Some? {
            cmd := cmd.(stderrRedirectionTarget := Some(word));
          } else if cmd.stdoutAppend.Some? {
            cmd := cmd.(redirectionTarget := Some(word));
          } else if cmd.stderrAppend.Some? {
            cmd := cmd.(stderrRedirectionTarget := Some(word));
          } else {
            failure := Some(RedirectionTargetExpected);
          }
          setRedirection := false;
        }
      case Operand(op) =>
        if setRedirection {
          failure := Some(RedirectionTargetExpected);
        } else if op == Stderr {
          if cmd.stderrRedirection.None? {
            cmd := cmd.(stderrRedirection := Some(op));
            setRedirection := true;
          } else {
            failure := Some(MultipleStderrRedirections);
          }
        } else if op == Stdout {
          if cmd.redirection.None? {
            cmd := cmd.(redirection := Some(op));
            setRedirection := true;
          } else {
            failure := Some(MultipleRedirections);
          }
        } else if op == StdoutAppend {
          if cmd.redirection.Some? {
            failure := Some(MixingAppendAndStdout);
          } else if cmd.stdoutAppend.None? {
            cmd := cmd.(stdoutAppend := Some(op));
            setRedirection := true;
          } else {
            failure := Some(MultipleRedirections);
          }
        } else {
          if cmd.stderrRedirection.Some? {
            failure := Some(MixingAppendAndStderr);
          } else if cmd.stderrAppend.None? {
            cmd := cmd.(stderrAppend := Some(op));
            setRedirection := true;
          } else {
            failure := Some(MultipleRedirections);
          }
        }
      if failure.Some? {
        ErrorPersists(tokens[..i + 1], tokens[i + 1..]);
        assert tokens[..i + 1] + tokens[i + 1..] == tokens;
        return Err(failure.value);
      }
    }
    assert tokens[..|tokens|] == tokens;
    return Ok(cmd);
  }

  // ---------------------------------------------------------------------
  // Properties of the parser

  /** `Run` after one more token of a prefix of `ts`. */
  lemma RunPrefixStep(ts: seq<Token>, i: nat)
    requires i < |ts|
    ensures Run(ts[..i + 1]) == match Run(ts[..i]) case Err(e) => Err(e) case Ok(st) => Step(st, ts[i])
  {
    RunSnoc(ts[..i], ts[i]);
    assert ts[..i] + [ts[i]] == ts[..i + 1];
  }

  /** The redirection slot that operator `k` fills. */
  function Slot(cmd: Command, k: Redirection): Option<Redirection> {
    match k
    case Stdout => cmd.redirection
    case Stderr => cmd.stderrRedirection
    case StdoutAppend => cmd.stdoutAppend
    case StderrAppend => cmd.stderrAppend
  }

  /** The flag is set exactly when the last token consumed was an operator. */
  lemma PendingAfterOperator(p: seq<Token>)
    requires Run(p).Ok?
    ensures Run(p).value.setRedirection <==> p != [] && p[|p| - 1].Operand?
  {
    if p != [] {
      RunSnoc(p[..|p| - 1], p[|p| - 1]);
      assert p[..|p| - 1] + [p[|p| - 1]] == p;
    }
  }

  /** Every word of a token list, in order. */
  function Words(ws: seq<string>): (ts: seq<Token>)
    ensures |ts| == |ws| && forall i :: 0 <= i < |ws| ==> ts[i] == Word(ws[i])
  {
    seq(|ws|, i requires 0 <= i < |ws| => Word(ws[i]))
  }

  lemma WordsSnoc(ws: seq<string>)
    requires ws != []
    ensures Words(ws) == Words(ws[..|ws| - 1]) + [Word(ws[|ws| - 1])]
  {
  }

  /**
   * With only words, the first becomes the name and the others are the
   * arguments, in order, and no target is pending.
   */
  lemma {:induction false} WordsOnly(ws: seq<string>)
    requires forall i :: 0 <= i < |ws| ==> ws[i] != []
    ensures Run(Words(ws)) == Ok(ParseState(if ws == [] then EmptyCommand else EmptyCommand.(name := ws[0], args := ws[1..]), false))
    ensures Parsed(Words(ws)) == Ok(if ws == [] then EmptyCommand else EmptyCommand.(name := ws[0], args := ws[1..]))
    decreases |ws|
  {
    if ws != [] {
      var init := ws[..|ws| - 1];
      var w := ws[|ws| - 1];
      WordsOnly(init);
      WordsSnoc(ws);
      RunSnoc(Words(init), Word(w));
      if init != [] {
        var c := EmptyCommand.(name := init[0], args := init[1..]);
        assert c.name == ws[0] != [];
        assert ws[1..] == init[1..] + [w];
        assert Step(ParseState(c, false), Word(w)) == Ok(ParseState(c.(args := ws[1..]), false));
      }
    }
  }

  /** The words that are not redirection targets: those not right after an operator. */
  function FreeWords(toks: seq<Token>): seq<string>
    decreases |toks|
  {
    if toks == [] then []
    else
      var p := toks[..|toks| - 1];
      var t := toks[|toks| - 1];
      if t.Word? && (p == [] || p[|p| - 1].Word?) then FreeWords(p) + [t.text] else FreeWords(p)
  }

  /** The name is the first of `fw`, not empty, and the arguments are the rest; both empty if `fw` is. */
  predicate NameAndArgsFrom(cmd: Command, fw: seq<string>) {
    if fw == [] then cmd.name == [] && cmd.args == [] else cmd.name == fw[0] != [] && cmd.args == fw[1..]
  }

  lemma {:induction false} RunNameAndArgs(toks: seq<Token>)
    requires forall i :: 0 <= i < |toks| && toks[i].Word? ==> toks[i].text != []
    requires Run(toks).Ok?
    ensures NameAndArgsFrom(Run(toks).value.cmd, FreeWords(toks))
    decreases |toks|
  {
    if toks != [] {
      var p := toks[..|toks| - 1];
      var t := toks[|toks| - 1];
      assert p + [t] == toks;
      RunSnoc(p, t);
      assert Run(p).Ok?;
      assert forall i :: 0 <= i < |p| ==> p[i] == toks[i];
      RunNameAndArgs(p);
      PendingAfterOperator(p);
      var st := Run(p).value;
      var fw := FreeWords(p);
      assert FreeWords(toks) == if t.Word? && (p == [] || p[|p| - 1].Word?) then fw + [t.text] else fw;
      StepNameAndArgs(st, t, fw);
    }
  }

  lemma StepNameAndArgs(st: ParseState, t: Token, fw: seq<string>)
    requires NameAndArgsFrom(st.cmd, fw)
    requires t.Word? ==> t.text != []
    requires Step(st, t).Ok?
    ensures NameAndArgsFrom(Step(st, t).value.cmd, if t.Word? && !st.setRedirection then fw + [t.text] else fw)
  {
    if t.Word? && !st.setRedirection && fw != [] {
      assert fw[1..] + [t.text] == (fw + [t.text])[1..];
      assert (fw + [t.text])[0] == fw[0];
    }
  }

  /**
   * A word consumed as a redirection target never reaches the name or the
   * arguments: the name is the first free word and the arguments are the
   * remaining free words, in order.
   */
  lemma NameAndArgsAreFreeWords(toks: seq<Token>)
    requires forall i :: 0 <= i < |toks| && toks[i].Word? ==> toks[i].text != []
    ensures Parsed(toks).Ok? ==> NameAndArgsFrom(Parsed(toks).value, FreeWords(toks))
  {
    if Run(toks).Ok? {
      RunNameAndArgs(toks);
    }
  }

  /** Two operators in a row fail: an operator cannot be a file name. */
  lemma OperatorAfterOperatorFails(p: seq<Token>, k: Redirection, q: seq<Token>)
    requires Run(p).Ok? && p != [] && p[|p| - 1].Operand?
    ensures Parsed(p + [Operand(k)] + q) == Err(RedirectionTargetExpected)
  {
    PendingAfterOperator(p);
    RunSnoc(p, Operand(k));
    ErrorPersists(p + [Operand(k)], q);
  }

  /**
   * An operator whose slot is already filled fails: a second `>` or `2>`
   * with its own message, a second `>>` or `2>>` with the "Mixing" message
   * if the truncate kind of that stream is set and the "Multiple" message
   * otherwise.
   */
  lemma RepeatedOperatorFails(p: seq<Token>, k: Redirection, q: seq<Token>)
    requires Run(p).Ok? && !Run(p).value.setRedirection
    requires Slot(Run(p).value.cmd, k).Some?
    ensures var cmd := Run(p).value.cmd;
            Parsed(p + [Operand(k)] + q) == Err(match k
                                                 case Stdout => MultipleRedirections
                                                 case Stderr => MultipleStderrRedirections
                                                 case StdoutAppend => if cmd.redirection.Some? then MixingAppendAndStdout else MultipleRedirections
                                                 case StderrAppend => if cmd.stderrRedirection.Some? then MixingAppendAndStderr else MultipleRedirections)
  {
    RunSnoc(p, Operand(k));
    ErrorPersists(p + [Operand(k)], q);
  }

  /** `>` followed later by `>>` (and `2>` by `2>>`) fails with the "Mixing" error. */
  lemma TruncateThenAppendFails(p: seq<Token>, q: seq<Token>)
    requires Run(p).Ok? && !Run(p).value.setRedirection
    ensures Run(p).value.cmd.redirection.Some? ==> Parsed(p + [Operand(StdoutAppend)] + q) == Err(MixingAppendAndStdout)
    ensures Run(p).value.cmd.stderrRedirection.Some? ==> Parsed(p + [Operand(StderrAppend)] + q) == Err(MixingAppendAndStderr)
  {
    RunSnoc(p, Operand(StdoutAppend));
    if Run(p).value.cmd.redirection.Some? {
      ErrorPersists(p + [Operand(StdoutAppend)], q);
    }
    RunSnoc(p, Operand(StderrAppend));
    if Run(p).value.cmd.stderrRedirection.Some? {
      ErrorPersists(p + [Operand(StderrAppend)], q);
    }
  }

  /** The reverse order is accepted: after `>>`, a `>` sets the truncate slot as well. */
  lemma AppendThenTruncateAccepted(p: seq<Token>)
    requires Run(p).Ok? && !Run(p).value.setRedirection
    requires Run(p).value.cmd.stdoutAppend.Some? && Run(p).value.cmd.redirection.None?
    ensures var cmd := Run(p).value.cmd;
            Run(p + [Operand(Stdout)]) == Ok(ParseState(cmd.(redirection := Some(Stdout)), true))
  {
    RunSnoc(p, Operand(Stdout));
  }

  /**
   * A trailing operator with no word after it is accepted: its kind is
   * recorded and the targets stay as they were.
   */
  lemma TrailingOperatorAccepted(p: seq<Token>, k: Redirection)
    requires Run(p).Ok? && !Run(p).value.setRedirection
    requires Slot(Run(p).value.cmd, k).None?
    requires k == StdoutAppend ==> Run(p).value.cmd.redirection.None?
    requires k == StderrAppend ==> Run(p).value.cmd.stderrRedirection.None?
    ensures var before := Run(p).value.cmd;
            && Parsed(p + [Operand(k)]).Ok?
            && var after := Parsed(p + [Operand(k)]).value;
            && Slot(after, k) == Some(k)
            && after.redirectionTarget == before.redirectionTarget
            && after.stderrRedirectionTarget == before.stderrRedirectionTarget
            && after.name == before.name && after.args == before.args
            && forall k' :: k' != k ==> Slot(after, k') == Slot(before, k')
  {
    RunSnoc(p, Operand(k));
  }

  /**
   * Once `>` has been seen, every later target word is stored as the
   * stdout target: the stderr target never changes again, even for `2>`.
   */
  lemma {:induction false} StdoutSlotTakesLaterTargets(p: seq<Token>, q: seq<Token>)
    requires Run(p).Ok? && Run(p).value.cmd.redirection.Some?
    requires Run(p + q).Ok?
    ensures Run(p + q).value.cmd.redirection == Run(p).value.cmd.redirection
    ensures Run(p + q).value.cmd.stderrRedirectionTarget == Run(p).value.cmd.stderrRedirectionTarget
    decreases |q|
  {
    if q == [] {
      assert p + q == p;
    } else {
      var q' := q[..|q| - 1];
      assert p + q' + [q[|q| - 1]] == p + q;
      RunSnoc(p + q', q[|q| - 1]);
      assert Run(p + q').Ok?;
      StdoutSlotTakesLaterTargets(p, q');
      StepKeepsStdoutSlot(Run(p + q').value, q[|q| - 1]);
    }
  }

  /** One token after `>` keeps the `>` slot and the stderr target. */
  lemma StepKeepsStdoutSlot(st: ParseState, t: Token)
    requires st.cmd.redirection.Some? && Step(st, t).Ok?
    ensures Step(st, t).value.cmd.redirection == st.cmd.redirection
    ensures Step(st, t).value.cmd.stderrRedirectionTarget == st.cmd.stderrRedirectionTarget
  {
  }

  /**
   * A target word goes to the first recorded slot in the order `>`, `2>`,
   * `>>`, `2>>`, whichever operator came just before it, and clears the
   * pending flag; nothing else changes.
   */
  lemma TargetGoesToFirstRecordedSlot(p: seq<Token>, w: string)
    requires Run(p).Ok? && Run(p).value.setRedirection
    ensures var cmd := Run(p).value.cmd;
            Run(p + [Word(w)]) == Ok(ParseState(
              if cmd.redirection.Some? || (cmd.stderrRedirection.None? && cmd.stdoutAppend.Some?)
              then cmd.(redirectionTarget := Some(w))
              else cmd.(stderrRedirectionTarget := Some(w)),
              false))
  {
    RunSnoc(p, Word(w));
  }

  /** A target word after an operator never makes the scan fail. */
  lemma TargetWordAccepted(p: seq<Token>, w: string)
    requires Run(p).Ok?
    ensures Run(p + [Word(w)]).Ok?
  {
    RunSnoc(p, Word(w));
  }

  /**
   * `ls > out.txt 2>> err.txt`: both kinds are recorded, but err.txt is
   * stored as the stdout target (the `>` slot comes first) and no stderr
   * target is recorded.
   */
  lemma ExampleTruncateAndAppend()
    ensures Parsed([Word("ls"), Operand(Stdout), Word("out.txt"), Operand(StderrAppend), Word("err.txt")])
         == Ok(EmptyCommand.(name := "ls", redirection := Some(Stdout), redirectionTarget := Some("err.txt"),
                             stderrAppend := Some(StderrAppend)))
  {
    var ts := [Word("ls"), Operand(Stdout), Word("out.txt"), Operand(StderrAppend), Word("err.txt")];
    var c1 := EmptyCommand.(name := "ls");
    var c2 := c1.(redirection := Some(Stdout));
    var c3 := c2.(redirectionTarget := Some("out.txt"));
    var c4 := c3.(stderrAppend := Some(StderrAppend));
    assert ts[..0] == [];
    RunPrefixStep(ts, 0);
    assert Run(ts[..1]) == Ok(ParseState(c1, false));
    RunPrefixStep(ts, 1);
    assert Run(ts[..2]) == Ok(ParseState(c2, true));
    RunPrefixStep(ts, 2);
    assert Run(ts[..3]) == Ok(ParseState(c3, false));
    RunPrefixStep(ts, 3);
    assert Run(ts[..4]) == Ok(ParseState(c4, true));
    RunPrefixStep(ts, 4);
    assert ts[..|ts|] == ts;
  }

  /** `echo hi > a.txt >> b.txt` fails with the "Mixing" error. */
  lemma ExampleMixingFails()
    ensures Parsed([Word("echo"), Word("hi"), Operand(Stdout), Word("a.txt"), Operand(StdoutAppend), Word("b.txt")])
         == Err(MixingAppendAndStdout)
  {
    var ts := [Word("echo"), Word("hi"), Operand(Stdout), Word("a.txt"), Operand(StdoutAppend), Word("b.txt")];
    var c1 := EmptyCommand.(name := "echo");
    var c2 := c1.(args := ["hi"]);
    assert c1.args + ["hi"] == ["hi"];
    var c3 := c2.(redirection := Some(Stdout));
    var c4 := c3.(redirectionTarget := Some("a.txt"));
    assert ts[..0] == [];
    RunPrefixStep(ts, 0);
    assert Run(ts[..1]) == Ok(ParseState(c1, false));
    RunPrefixStep(ts, 1);
    assert Run(ts[..2]) == Ok(ParseState(c2, false));
    RunPrefixStep(ts, 2);
    assert Run(ts[..3]) == Ok(ParseState(c3, true));
    RunPrefixStep(ts, 3);
    assert Run(ts[..4]) == Ok(ParseState(c4, false));
    TruncateThenAppendFails(ts[..4], [Word("b.txt")]);
    assert ts[..4] + [Operand(StdoutAppend)] + [Word("b.txt")] == ts;
  }

  /** `ls >> a > b`: append then truncate is accepted, both slots set, target b. */
  lemma ExampleAppendThenTruncate()
    ensures Parsed([Word("ls"), Operand(StdoutAppend), Word("a"), Operand(Stdout), Word("b")])
         == Ok(EmptyCommand.(name := "ls", stdoutAppend := Some(StdoutAppend), redirection := Some(Stdout),
                             redirectionTarget := Some("b")))
  {
    var ts := [Word("ls"), Operand(StdoutAppend), Word("a"), Operand(Stdout), Word("b")];
    var c1 := EmptyCommand.(name := "ls");
    var c2 := c1.(stdoutAppend := Some(StdoutAppend));
    var c3 := c2.(redirectionTarget := Some("a"));
    var c4 := c3.(redirection := Some(Stdout));
    assert ts[..0] == [];
    RunPrefixStep(ts, 0);
    assert Run(ts[..1]) == Ok(ParseState(c1, false));
    RunPrefixStep(ts, 1);
    assert Run(ts[..2]) == Ok(ParseState(c2, true));
    RunPrefixStep(ts, 2);
    assert Run(ts[..3]) == Ok(ParseState(c3, false));
    RunPrefixStep(ts, 3);
    assert Run(ts[..4]) == Ok(ParseState(c4, true));
    RunPrefixStep(ts, 4);
    assert ts[..|ts|] == ts;
  }

  /** `ls > a 2> b`: b becomes the stdout target and the stderr target stays unset. */
  lemma ExampleTargetGoesToFirstSlot()
    ensures Parsed([Word("ls"), Operand(Stdout), Word("a"), Operand(Stderr), Word("b")])
         == Ok(EmptyCommand.(name := "ls", redirection := Some(Stdout), redirectionTarget := Some("b"),
                             stderrRedirection := Some(Stderr)))
  {
    var ts := [Word("ls"), Operand(Stdout), Word("a"), Operand(Stderr), Word("b")];
    var c1 := EmptyCommand.(name := "ls");
    var c2 := c1.(redirection := Some(Stdout));
    var c3 := c2.(redirectionTarget := Some("a"));
    var c4 := c3.(stderrRedirection := Some(Stderr));
    assert ts[..0] == [];
    RunPrefixStep(ts, 0);
    assert Run(ts[..1]) == Ok(ParseState(c1, false));
    RunPrefixStep(ts, 1);
    assert Run(ts[..2]) == Ok(ParseState(c2, true));
    RunPrefixStep(ts, 2);
    assert Run(ts[..3]) == Ok(ParseState(c3, false));
    RunPrefixStep(ts, 3);
    assert Run(ts[..4]) == Ok(ParseState(c4, true));
    RunPrefixStep(ts, 4);
    assert ts[..|ts|] == ts;
  }

  /** `ls >`: accepted, with the kind recorded and no target. */
  lemma ExampleTrailingOperator()
    ensures Parsed([Word("ls"), Operand(Stdout)]) == Ok(EmptyCommand.(name := "ls", redirection := Some(Stdout)))
  {
    var ts := [Word("ls"), Operand(Stdout)];
    RunPrefixStep(ts, 0);
    RunPrefixStep(ts, 1);
    assert ts[..0] == [] && ts[..|ts|] == ts;
  }
}
