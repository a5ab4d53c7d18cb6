# A verified model of a small interactive shell

This project models the core of a small Unix shell written in Rust. The model
covers five parts of it:

- **The word tokenizer** (`tokenize`). A character loop with single-quote,
  double-quote and backslash flags turns a line into words.
- **The redirection parser** (`parse`). It scans a stream of `Word` and
  `Operand` tokens and fills a `Command`: the name, the arguments, four
  redirection-kind slots and two targets.
- **The line editor** (`Shell` and the keys of the main loop). This covers
  insert, backspace, Tab completion from the `PATH` listings and the builtin
  names, Enter and Ctrl-D.
- **Command dispatch** (`exec`). Builtins come first, then the first `PATH`
  directory that holds the name, then the redirection checks before a spawn.
- **The builtins** `exit`, `echo`, `type` and `cd`, as decisions.

The environment is a value (`Builtins.Env`):

- the `PATH` and `HOME` variables, each optional;
- a predicate telling whether a directory holds a name;
- the `Path::exists` and `set_current_dir` outcomes, as predicates.

Directory listings for completion are passed in as a function from a
directory to its entry names (`None` when it cannot be read). Terminal output,
process exits, spawns and file writes are returned as values: `Effect`,
`ExitDecision`, `EchoEffect`, `ExecOutcome` and `SpawnPlan`.

Each explicit loop of the source is a method proved equal to a specification
function:

- `Tokenizer.Tokenize` against `Tokenized`;
- `Parser.Parse` against `Parsed`;
- `Builtins.BuiltinType` against `TypeOf`;
- `LineEditor.GetPartialMatches` against `PartialMatches`, with its inner loop
  `PushMatching`.

The command builder of `exec` is straight-line code with early returns. It is
the method `Exec.BuildCommand`, proved equal to `SpawnSetup`. The iterator
chains, `find` in src/exec.rs:38-40 and `take_while` in src/main.rs:71-76, are
the recursive functions `Builtins.FirstContaining` and
`LineEditor.CommonLength`.

The tokenizer's and the parser's specifications are left folds of one loop
iteration (`Step`) over the input. The properties are proved about these
functions. The `Shell` record is a class whose key methods keep the invariant
`cursorPos == |buffer|` and state their whole new state.

Several behaviours of the code are easy to miss. The model keeps each of them:

- The tokenizer returns plain strings and does not recognise the operators
  `>`, `2>`, `>>` and `2>>`.
- A backslash escapes in every quote mode, single quotes included.
- The parser has no check at the end of the input, so a trailing operator is
  accepted.
- A target word goes to the first recorded slot, not to the operator just
  before it. So `ls > out.txt 2>> err.txt` records `err.txt` as the stdout
  target and records no stderr target.
- `cd` replaces every `~`, not only a leading one.
- `exec` spawns the bare name, not the path it found.
- Tab compares the common prefix with the length of the whole line, not of
  the word being completed. Tab with several candidates leaves the ambiguity
  flag unchanged when it extends the line.

## Model

| member | source | states |
|---|---|---|
| Tokenizer.Step | src/tokenizer.rs:29-79 | one loop iteration either flushes a non-empty current word, or adds exactly one character to it, or changes only the flags; it never turns both quote modes on |
| Tokenizer.ScanSound | src/tokenizer.rs:28-84 | after every prefix: the quote modes are not both on, every finished word is non-empty, and the words hold no more characters than were consumed |
| Tokenizer.Tokenized | src/tokenizer.rs:19-100 | empty input gives no words; every word is non-empty; the total word length is at most the input length; an open single quote is the error, else an open double quote |
| Tokenizer.Tokenize | src/tokenizer.rs:19-100 | the character loop with its match arms in source order computes `Tokenized` |
| Tokenizer.ScanPlain | src/tokenizer.rs:46-49 | on input without quotes or backslashes, the loop has emitted the non-empty space-separated pieces before the last one, and holds the last one as the current word |
| Tokenizer.PlainInputSplitsOnSpaces | src/tokenizer.rs:46-84 | input without quotes or backslashes gives exactly its non-empty `' '`-separated pieces, in order; other whitespace stays inside words |
| Tokenizer.BackslashEscapesInEveryMode | src/tokenizer.rs:57-77 | a backslash then any character adds that character to the current word (`n` and `t` become newline and tab) in every quote mode, and the quote modes stay as they were |
| Tokenizer.QuotesToggleOrAreCopied | src/tokenizer.rs:31-39 | a quote that switches a mode is not copied; `'` inside double quotes and `"` inside single quotes are copied |
| Tokenizer.QuotedCharIsCopied | src/tokenizer.rs:36-78 | inside quotes every character except a backslash and the quote that closes the mode, the space included, is added to the current word, and nothing is flushed |
| Tokenizer.UnquotedSpaceEndsWord | src/tokenizer.rs:46-49 | outside quotes a space moves a non-empty current word to the output and otherwise changes nothing |
| Tokenizer.OrdinaryCharIsCopied | src/tokenizer.rs:78 | a character that is not a space, a quote or a backslash is added to the current word in every quote mode |
| Tokenizer.StepsAppend | src/tokenizer.rs:28-80 | consuming one text and then another is consuming their concatenation |
| Tokenizer.OrdinaryRunIsCopied | src/tokenizer.rs:78 | a run of ordinary characters is added to the current word as it is |
| Tokenizer.SingleQuotedRunIsCopied | src/tokenizer.rs:54-78 | inside single quotes a run without a quote or a backslash, spaces included, is added to the current word as it is |
| Tokenizer.SingleQuotedTextIsOneWord | src/tokenizer.rs:31-78 | outside quotes, a text without a quote or a backslash written between single quotes is added to the current word, spaces included, and the quotes are dropped |
| Tokenizer.ExampleQuotedSpaceScan | src/tokenizer.rs:28-80 | after `echo 'a b' c` the loop has emitted `echo` and `a b` and holds `c` |
| Tokenizer.ExampleQuotedSpace | src/tokenizer.rs:19-100 | `echo 'a b' c` gives the three words `echo`, `a b` and `c` |
| Tokenizer.TrailingBackslashDropped | src/tokenizer.rs:61 | a lone backslash at the end of the input changes nothing in the result |
| Tokenizer.UnclosedQuoteFails | src/tokenizer.rs:86-97 | a quote opened at the end of the input is reported as an unmatched single or double quote |
| Parser.Step | src/parser.rs:32-119 | one token keeps the reachable-state invariant (each slot holds its own kind; a pending target implies a recorded slot); a word from such a state never fails; the pending flag is set exactly after an operator |
| Parser.Run | src/parser.rs:31-120 | every state the scan reaches satisfies the invariant |
| Parser.Parsed | src/parser.rs:17-122 | each slot of a parsed command holds only its own kind or nothing |
| Parser.ErrorPersists | src/parser.rs:50-117 | once the scan has failed, later tokens do not change the error |
| Parser.Parse | src/parser.rs:17-122 | the token loop with its early returns computes `Parsed` |
| Parser.PendingAfterOperator | src/parser.rs:55-104 | the pending-target flag is set exactly when the last token was an operator |
| Parser.WordsOnly | src/parser.rs:33-39 | with only words, the first is the name and the rest are the arguments, in order, and no target is pending |
| Parser.NameAndArgsAreFreeWords | src/parser.rs:33-56 | a target word never reaches the name or the arguments: the name is the first word not right after an operator, and the arguments are the others of those words, in order |
| Parser.OperatorAfterOperatorFails | src/parser.rs:113-118 | an operator while a target is pending fails with "Redirection target expected" |
| Parser.RepeatedOperatorFails | src/parser.rs:58-110 | an operator whose slot is already set fails, with the message for that operator |
| Parser.TruncateThenAppendFails | src/parser.rs:80-101 | `>` then `>>` (and `2>` then `2>>`) fails with the "Mixing" error, whatever follows |
| Parser.AppendThenTruncateAccepted | src/parser.rs:69-72 | `>>` then `>` is accepted, and both slots are set |
| Parser.TrailingOperatorAccepted | src/parser.rs:57-121 | a trailing operator is accepted with its kind recorded and the other kind slots, the targets, the name and the arguments unchanged |
| Parser.TargetGoesToFirstRecordedSlot | src/parser.rs:40-56 | a target word is stored by the first recorded slot in the order `>`, `2>`, `>>`, `2>>`, and the pending flag is cleared |
| Parser.StdoutSlotTakesLaterTargets | src/parser.rs:41-44 | once `>` is recorded, the stderr target never changes again |
| Parser.TargetWordAccepted | src/parser.rs:40-56 | a word after an operator never makes the scan fail |
| Parser.ExampleTruncateAndAppend | src/parser.rs:40-48 | `ls > out.txt 2>> err.txt` stores `err.txt` as the stdout target and no stderr target |
| Parser.ExampleMixingFails | src/parser.rs:80-85 | `echo hi > a.txt >> b.txt` fails with the "Mixing" error |
| Parser.ExampleAppendThenTruncate | src/parser.rs:69-72 | `ls >> a > b` sets both stdout slots, with target `b` |
| Parser.ExampleTargetGoesToFirstSlot | src/parser.rs:41-44 | `ls > a 2> b` stores `b` as the stdout target and leaves the stderr target unset |
| Parser.ExampleTrailingOperator | src/parser.rs:121 | `ls >` is accepted, with the kind recorded and no target |
| Builtins.FirstContaining | src/builtins.rs:79-85 | the index found is the first directory that holds the name; no index means no directory holds it |
| Builtins.ParseI32 | src/builtins.rs:12 | `str::parse::<i32>`: a parsed text is an optional `+` or `-` followed by at least one digit, and its value is the digits' value, negated after `-`, within the 32-bit range; every such text whose value fits parses |
| Builtins.ParseI32Decimal | src/builtins.rs:12 | every 32-bit integer written in decimal parses back to itself |
| Builtins.BuiltinExit | src/builtins.rs:10-20 | zero or several arguments end the process with 0; one argument ends it with its value exactly when it parses as `i32`, and is otherwise reported without ending the process |
| Builtins.ExitWithCode | src/builtins.rs:11-13 | `exit n` ends the process with `n` for every 32-bit `n` |
| Builtins.ExitWithWordKeepsRunning | src/builtins.rs:14-16 | `exit abc` is reported as an invalid code |
| Builtins.BuiltinEcho | src/builtins.rs:22-66 | no arguments print an empty line and touch no file; otherwise the arguments joined by spaces go to exactly one place, `>` before `>>` before the terminal; then a `2>` target is opened for writing, else a `2>>` target for appending, and gets no text, and with neither kind recorded nothing else happens; it panics exactly when a recorded kind has no target, and nothing follows the panic |
| Builtins.EchoLineSplitsBack | src/builtins.rs:35 | the written line splits at spaces back into the arguments when none of them holds a space |
| Builtins.TypeOf | src/builtins.rs:68-88 | no argument asks for one; only the first argument is examined; builtins are reported before any search; otherwise the first `PATH` directory holding the name, else "not found" |
| Builtins.BuiltinType | src/builtins.rs:68-88 | the search loop with its early returns computes `TypeOf` |
| Builtins.ReplaceAll | src/builtins.rs:115 | text without the pattern is unchanged; without the pattern in the replacement, none is left |
| Builtins.ReplaceAllIsSplitJoin | src/builtins.rs:115 | replacing every `~` is the same as splitting at `~` and joining with the replacement |
| Builtins.ReplaceEveryTilde | src/builtins.rs:115 | every `~` is replaced, not only a leading one |
| Builtins.BuiltinCd | src/builtins.rs:96-125 | more than one argument is refused; no argument enters `HOME`, reports that it cannot be entered, or panics when it is unset; one argument has every `~` replaced by `HOME` or by nothing; a missing path is reported without a change of directory, an existing path that cannot be entered panics, and any other is entered |
| Exec.SpawnSetup | src/exec.rs:50-88 | only `redirection` and `stderr_redirection` are consulted; `>` needs a target; `2>` without a target inherits stderr; any other kind is unsupported; the program is the bare name with the arguments |
| Exec.BuildCommand | src/exec.rs:50-88 | the step-by-step builder with its early returns computes `SpawnSetup` |
| Exec.Exec | src/exec.rs:10-92 | builtins run exactly for the builtin names, each name its own builtin on the command's arguments; "command not found" exactly when no searched directory holds the name, before any redirection is examined; a spawn records the first directory that holds the name and otherwise follows the redirection checks |
| Exec.ExecStatus | src/exec.rs:12-46 | status 127 exactly for a name that is neither a builtin nor in any searched directory; status 0 exactly for `type`, `pwd`, `exit` with one argument that is not a valid code, `echo` that does not panic and `cd` that does not panic; there is no status of `exec`'s own otherwise: `exit` or a panic in `echo` or `cd` ends the process, a refused redirection is an error, and a spawned child has its own status |
| Exec.BuiltinsShadowPath | src/exec.rs:12-35 | a builtin name never depends on `PATH` (except `type`, which reads it) and never yields 127: its status is 0 when it returns |
| Exec.ExternalIgnoresAppendSlots | src/exec.rs:53-88 | the append slots never change what happens to an external command |
| Exec.ParsedNeverUnsupported | src/exec.rs:65-86 | a command produced by the parser is never refused as unsupported |
| Exec.MissingStdoutTarget | src/exec.rs:55-62 | `>` without a target fails for a found external command; for `echo` with arguments it panics |
| Exec.TypeAgreesWithExec | src/exec.rs:38-48 | with `PATH` set and redirections that pass the spawn checks, `type` reports the same directory `exec` uses, and "not found" exactly when `exec` reports "command not found" |
| Ordering.SortDedup | src/main.rs:61-62 | the result is strictly sorted and holds exactly the input's elements |
| Ordering.StrictlySortedUnique | src/main.rs:61-62 | two strictly sorted lists with the same elements are equal |
| LineEditor.LastWord | src/main.rs:124 | the last whitespace-separated word of the line, or the whole line when it has no word |
| LineEditor.LastWordIsSuffix | src/main.rs:124 | when the line does not end in whitespace, its last word ends the line |
| LineEditor.OneWordIsLastWord | src/main.rs:124 | a line without whitespace is its own last word |
| LineEditor.PathMatchesMembers | src/main.rs:43-53 | a name is collected exactly when it starts with the word and a readable `PATH` directory lists it |
| LineEditor.PartialMatches | src/main.rs:41-64 | the candidates are strictly sorted, each starts with the word, and they are exactly the builtins and listed names that start with it |
| LineEditor.GetPartialMatches | src/main.rs:41-64 | the nested loops, then sort and dedup, compute `PartialMatches` |
| LineEditor.PushMatching | src/main.rs:45-59 | an inner loop appends the names that start with the word, in order |
| LineEditor.LongestCommonPrefix | src/main.rs:66-77 | empty for no strings; a prefix of every string; it stops at the end of the first string or where another string ends or differs |
| LineEditor.LcpGreatest | src/main.rs:66-77 | every common prefix of the strings is a prefix of the result |
| LineEditor.Shell.constructor | src/main.rs:18-25 | an empty line, cursor 0, empty cache, flag off |
| LineEditor.Shell.StartPrompt | src/main.rs:113-116 | each prompt starts from that same state |
| LineEditor.Shell.InsertChar | src/main.rs:171-176 | the key is appended at the cursor, which is the end of the line; cache and flag are unchanged |
| LineEditor.Shell.Backspace | src/main.rs:160-167 | on an empty line nothing changes; otherwise the last character is removed; cache and flag are unchanged |
| LineEditor.Shell.ProcessMatches | src/main.rs:79-103 | the word is popped; no candidate rings the bell and clears cache and flag; one candidate appends its rest after the word and a space; several are cached, sorted and deduplicated |
| LineEditor.Shell.ExtendOrList | src/main.rs:128-151 | a common prefix longer than the whole line extends it by the part past the line's length; otherwise a first Tab rings and sets the flag, a second lists the cache and clears it |
| LineEditor.Shell.Tab | src/main.rs:122-152 | the whole Tab arm (`TabOutcome`) on the candidates of the last word: no candidate rings the bell; one is completed with a space; with several they are cached and a common prefix longer than the line extends it, else a first Tab rings and sets the flag and a second lists them and clears it |
| LineEditor.Shell.Key | src/main.rs:120-177 | Tab has the Tab arm's outcome; Enter submits the line and starts a new prompt; Ctrl-D is `exit 0`; DEL erases the last character, or is silent on an empty line; other keys are inserted; only Tab and Enter touch the flag and the cache |
| LineEditor.SingleWordExtensionIsCommonPrefix | src/main.rs:129-134 | for a one-word line, the extension turns the line into the common prefix, a prefix of every candidate |
| LineEditor.ExtendedPrefix | src/main.rs:129-134 | a common prefix longer than a word that every candidate starts with extends that word |
| LineEditor.SingleCandidateCompletesLastWord | src/main.rs:87-95 | when the line does not end in whitespace, a single completion makes the line end with the candidate and a space |
| LineEditor.ExtensionMeasuredAgainstWholeLine | src/main.rs:122-134 | Tab on the line `a gi` with the candidates `gitlab1` and `gitlab2` for its last word `gi` gives `a giab`, not `a gitlab`: the extension is measured against the whole line |
| LineEditor.LastWordOfTwoWords | src/main.rs:124 | the last word of `a gi` is `gi` |
| LineEditor.CommonPrefixOfTwoNames | src/main.rs:66-77 | the common prefix of `gitlab1` and `gitlab2` is `gitlab` |

## Left out

- Terminal handling is not modelled: raw mode, `read_char`, the writing and flushing of output. Output is returned as `Effect` values; the bell and the candidate listing are effects.
- Environment and file system queries are not modelled: `PATH`, `HOME`, `read_dir`, `Path::exists`, `set_current_dir` and `current_dir` are fields of `Env` or parameters.
- The model counts characters. UTF-8 byte offsets in `String::insert`, `remove` and slicing are not modelled, and neither is `read_char` turning a raw byte into a `char`.
- `process_command` is not modelled: it passes the tokenizer's strings straight to the parser, and there is no step turning words into operators.
- `builtin_pwd` only prints the current directory. Its run is `PwdRun`, with nothing to decide.
- Process spawning, waiting and `std::process::exit` are not modelled. `exec` returns a `SpawnPlan` or an `ExitDecision` instead, and the child's exit status is not modelled.
- Creating, opening and writing redirection files is not modelled, nor are their failures. `echo` without `>>` opens its file without truncating it; the model records this as `FileMode.Overwrite`.
- Directory entry names that are not valid UTF-8 are skipped by the source. In the model every name is a string.
- The sorting algorithm of `sort` is not modelled. `Ordering.SortDedup` gives the same result by ordered insertion: `StrictlySortedUnique` shows there is only one strictly sorted list with given elements.
- `PATH` and `HOME` values that are not valid Unicode are treated as unset by the source; the model only has "set" or "unset".
