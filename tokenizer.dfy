/**
 * The word tokenizer of src/tokenizer.rs: a character loop driven by three
 * flags (inside single quotes, inside double quotes, after a backslash)
 * that cuts a line into words, and the token types that the parser
 * consumes.
 */
module Tokenizer {
  import opened Outcomes
  import opened Strings

  /** A redirection operator: `>`, `2>`, `>>`, `2>>`. */
  datatype Redirection = Stdout | Stderr | StdoutAppend | StderrAppend

  /** What the parser consumes: a word, or a redirection operator. */
  datatype Token = Word(text: string) | Operand(kind: Redirection)

  datatype TokenizeError = UnmatchedSingleQuote | UnmatchedDoubleQuote

  /**
   * The three flags of `TokenizerState` together with the loop's
   * `current` word and the `out` vector of finished words.
   */
  datatype State = State(inSQuotes: bool, inDQuotes: bool, inBackslash: bool, current: string, out: seq<string>)

  const Initial := State(false, false, false, [], [])

  /** The character an escaped `c` stands for: `\n` and `\t` are control characters. */
  function Unescape(c: char): char {
    if c == 'n' then '\n' else if c == 't' then '\t' else c
  }

  /**
   * One iteration of the character loop: it flushes the current word, or
   * adds exactly one character to it, or changes only the flags; and it
   * never turns on both quote modes.
   */
  function Step(st: State, c: char): (r: State)
    ensures !(st.inSQuotes && st.inDQuotes) ==> !(r.inSQuotes && r.inDQuotes)
    ensures || (r.out == st.out + [st.current] && st.current != [] && r.current == [])
            || (r.out == st.out && |r.current| == |st.current| + 1 && r.current[..|st.current|] == st.current)
            || (r.out == st.out && r.current == st.current)
  {
    if st.inBackslash then
      // every escaped character is copied, in every quote mode
      st.(current := st.current + [Unescape(c)], inBackslash := false)
    else if c == '\'' then
      if !st.inDQuotes then st.(inSQuotes := !st.inSQuotes) else st.(current := st.current + [c])
    else if c == '"' then
      if !st.inSQuotes then st.(inDQuotes := !st.inDQuotes) else st.(current := st.current + [c])
    else if c == ' ' && !st.inSQuotes && !st.inDQuotes then
      if st.current != [] then st.(out := st.out + [st.current], current := []) else st
    else if c == '\\' then
      st.(inBackslash := true)
    else
      st.(current := st.current + [c])
  }

  /** The state after the loop, started in `st`, has consumed all of `s`. */
  function Steps(st: State, s: string): State
    decreases |s|
  {
    if s == [] then st else Step(Steps(st, s[..|s| - 1]), s[|s| - 1])
  }

  /** The state after the loop has consumed all of `s`. */
  function Scan(s: string): State {
    Steps(Initial, s)
  }

  lemma StepsSnoc(st: State, s: string, c: char)
    ensures Steps(st, s + [c]) == Step(Steps(st, s), c)
  {
    assert (s + [c])[..|s|] == s;
  }

  lemma ScanSnoc(s: string, c: char)
    ensures Scan(s + [c]) == Step(Scan(s), c)
  {
    StepsSnoc(Initial, s, c);
  }

  /** Consuming `p` and then `w` is consuming `p + w`. */
  lemma {:induction false} StepsAppend(st: State, p: string, w: string)
    ensures Steps(st, p + w) == Steps(Steps(st, p), w)
    decreases |w|
  {
    if w != [] {
      var w', c := w[..|w| - 1], w[|w| - 1];
      StepsAppend(st, p, w');
      assert p + w == (p + w') + [c];
      StepsSnoc(st, p + w', c);
    } else {
      assert p + w == p;
    }
  }

  /** What happens after the loop: flush the last word, then reject an open quote. */
  function Finish(st: State): Result<seq<string>, TokenizeError> {
    var out := if st.current != [] then st.out + [st.current] else st.out;
    if st.inSQuotes then Err(UnmatchedSingleQuote)
    else if st.inDQuotes then Err(UnmatchedDoubleQuote)
    else Ok(out)
  }

  /** Facts that hold after every prefix of the input. */
  ghost predicate Sound(st: State, consumed: nat) {
    && !(st.inSQuotes && st.inDQuotes)
    && (forall i :: 0 <= i < |st.out| ==> st.out[i] != [])
    && TotalLength(st.out) + |st.current| <= consumed
  }

  /**
   * The quote modes are never both on, every finished word is non-empty, and
   * the words hold no more characters than the input consumed so far.
   */
  lemma {:induction false} ScanSound(s: string)
    ensures Sound(Scan(s), |s|)
    decreases |s|
  {
    if s != [] {
      var prev := Scan(s[..|s| - 1]);
      ScanSound(s[..|s| - 1]);
      var next := Step(prev, s[|s| - 1]);
      if next.out == prev.out + [prev.current] {
        TotalLengthSnoc(prev.out, prev.current);
      }
    }
  }

  /** `tokenize`: the words of `input`, or the quote left open. */
  function Tokenized(input: string): (r: Result<seq<string>, TokenizeError>)
    ensures input == [] ==> r == Ok([])
    ensures r.Ok? ==> forall i :: 0 <= i < |r.value| ==> r.value[i] != []
    ensures r.Ok? ==> TotalLength(r.value) <= |input|
    ensures r == Err(UnmatchedSingleQuote) <==> input != [] && Scan(input).inSQuotes
    ensures r == Err(UnmatchedDoubleQuote) <==> input != [] && !Scan(input).inSQuotes && Scan(input).inDQuotes
  {
    if input == [] then Ok([])
    else
      var st := Scan(input);
      ScanSound(input);
      TotalLengthSnoc(st.out, st.current);
      Finish(st)
  }

  /** `tokenize`, the loop of the source with its match arms in their order. */
  method Tokenize(input: string) returns (r: Result<seq<string>, TokenizeError>)
    ensures r == Tokenized(input)
  {
    if input == [] {
      return Ok([]);
    }
    var inSQuotes, inDQuotes, inBackslash := false, false, false;
    var out: seq<string> := [];
    var current: string := [];
    for i := 0 to |input|
      invariant State(inSQuotes, inDQuotes, inBackslash, current, out) == Scan(input[..i])
    {
      var c := input[i];
      ScanSnoc(input[..i], c);
      assert input[..i] + [c] == input[..i + 1];
      if c == '\'' && !inBackslash && !inDQuotes {
        inSQuotes := !inSQuotes;
      } else if c == '\'' && inBackslash {
        current := current + [c];
        inBackslash := false;
      } else if c == '\'' {
        current := current + [c];
      } else if c == '"' && !inBackslash && !inSQuotes {
        inDQuotes := !inDQuotes;
      } else if c == '"' && inBackslash {
        current := current + [c];
        inBackslash := false;
      } else if c == ' ' && !inBackslash && !inSQuotes && !inDQuotes && current != [] {
        out := out + [current];
        current := [];
      } else if c == ' ' && !inBackslash && !inSQuotes && !inDQuotes {
        // consecutive separators: nothing to flush
      } else if c == ' ' && inBackslash {
        current := current + [c];
        inBackslash := false;
      } else if c == ' ' {
        current := current + [c];
      } else if c == '\\' && inBackslash {
        current := current + [c];
        inBackslash := false;
      } else if c == '\\' {
        inBackslash := true;
      } else if c == 'n' && inBackslash {
        current := current + ['\n'];
        inBackslash := false;
      } else if c == 't' && inBackslash {
        current := current + ['\t'];
        inBackslash := false;
      } else if inBackslash {
        current := current + [c];
        inBackslash := false;
      } else {
        current := current + [c];
      }
    }
    assert input[..|input|] == input;
    if current != [] {
      out := out + [current];
    }
    if inSQuotes {
      return Err(UnmatchedSingleQuote);
    }
    if inDQuotes {
      return Err(UnmatchedDoubleQuote);
    }
    return Ok(out);
  }

  // ---------------------------------------------------------------------
  // Properties of the tokenizer

  /** No quote and no backslash anywhere in `s`. */
  predicate Plain(s: string) {
    forall i :: 0 <= i < |s| ==> s[i] != '\'' && s[i] != '"' && s[i] != '\\'
  }

  /**
   * On plain input the loop keeps the text after the last space as the
   * current word and has emitted the non-empty pieces before it.
   */
  lemma {:induction false} ScanPlain(s: string)
    requires Plain(s)
    ensures var pieces := Split(s, ' ');
            Scan(s) == State(false, false, false, pieces[|pieces| - 1], NonEmpty(pieces[..|pieces| - 1]))
    decreases |s|
  {
    if s != [] {
      var init := s[..|s| - 1];
      var c := s[|s| - 1];
      assert Plain(init) by {
        forall i | 0 <= i < |init| ensures init[i] == s[i] { }
      }
      ScanPlain(init);
      var ps := Split(init, ' ');
      var front := ps[..|ps| - 1];
      if c == ' ' {
        assert Split(s, ' ') == ps + [[]];
        assert (ps + [[]])[..|ps|] == ps;
        assert ps == front + [ps[|ps| - 1]];
        NonEmptySnoc(front, ps[|ps| - 1]);
      } else {
        var last := ps[|ps| - 1] + [c];
        assert Split(s, ' ') == front + [last];
        assert (front + [last])[..|front|] == front;
      }
    }
  }

  /**
   * Input with no quote and no backslash gives exactly the non-empty
   * pieces between spaces, in order: only `' '` separates words, so tabs
   * and other whitespace stay inside them.
   */
  lemma PlainInputSplitsOnSpaces(s: string)
    requires Plain(s)
    ensures Tokenized(s) == Ok(NonEmpty(Split(s, ' ')))
  {
    if s != [] {
      ScanPlain(s);
      var ps := Split(s, ' ');
      assert ps == ps[..|ps| - 1] + [ps[|ps| - 1]];
      NonEmptySnoc(ps[..|ps| - 1], ps[|ps| - 1]);
    }
  }

  /**
   * A backslash followed by any character adds exactly that character to
   * the current word (`n` and `t` become newline and tab) whatever the
   * quote mode, single quotes included, and leaves the quote modes alone.
   */
  lemma BackslashEscapesInEveryMode(s: string, c: char)
    requires !Scan(s).inBackslash
    ensures var st := Scan(s);
            Scan(s + ['\\', c]) == st.(current := st.current + [Unescape(c)])
  {
    ScanSnoc(s, '\\');
    ScanSnoc(s + ['\\'], c);
    assert s + ['\\'] + [c] == s + ['\\', c];
  }

  /**
   * A quote character that switches a mode is never copied; a single
   * quote inside double quotes and a double quote inside single quotes are
   * copied literally.
   */
  lemma QuotesToggleOrAreCopied(s: string)
    requires !Scan(s).inBackslash
    ensures var st := Scan(s);
            && (!st.inDQuotes ==> Scan(s + ['\'']) == st.(inSQuotes := !st.inSQuotes))
            && (st.inDQuotes ==> Scan(s + ['\'']) == st.(current := st.current + ['\'']))
            && (!st.inSQuotes ==> Scan(s + ['"']) == st.(inDQuotes := !st.inDQuotes))
            && (st.inSQuotes ==> Scan(s + ['"']) == st.(current := st.current + ['"']))
  {
    ScanSnoc(s, '\'');
    ScanSnoc(s, '"');
  }

  /**
   * Inside quotes every character other than a backslash and the quote
   * that closes the mode, the space included, is added to the current
   * word, and nothing is flushed.
   */
  lemma QuotedCharIsCopied(s: string, c: char)
    requires !Scan(s).inBackslash && (Scan(s).inSQuotes || Scan(s).inDQuotes)
    requires c != '\\' && !(c == '\'' && !Scan(s).inDQuotes) && !(c == '"' && !Scan(s).inSQuotes)
    ensures Scan(s + [c]) == Scan(s).(current := Scan(s).current + [c])
  {
    ScanSnoc(s, c);
  }

  /** Outside quotes a space ends the current word, and a run of spaces adds no empty word. */
  lemma UnquotedSpaceEndsWord(s: string)
    requires !Scan(s).inBackslash && !Scan(s).inSQuotes && !Scan(s).inDQuotes
    ensures var st := Scan(s);
            Scan(s + [' ']) == if st.current != [] then st.(out := st.out + [st.current], current := []) else st
  {
    ScanSnoc(s, ' ');
  }

  /** A character that is not a space, a quote or a backslash is added to the current word in every mode. */
  lemma OrdinaryCharIsCopied(s: string, c: char)
    requires !Scan(s).inBackslash
    requires c != ' ' && c != '\'' && c != '"' && c != '\\'
    ensures Scan(s + [c]) == Scan(s).(current := Scan(s).current + [c])
  {
    ScanSnoc(s, c);
  }

  /** A run of characters that are not spaces, quotes or backslashes is added to the current word. */
  lemma {:induction false} OrdinaryRunIsCopied(st: State, w: string)
    requires !st.inBackslash
    requires forall i :: 0 <= i < |w| ==> w[i] != ' ' && w[i] != '\'' && w[i] != '"' && w[i] != '\\'
    ensures Steps(st, w) == st.(current := st.current + w)
    decreases |w|
  {
    if w != [] {
      var w', c := w[..|w| - 1], w[|w| - 1];
      assert forall i :: 0 <= i < |w'| ==> w'[i] == w[i];
      OrdinaryRunIsCopied(st, w');
      assert st.current + w == st.current + w' + [c];
    }
  }

  /** Inside single quotes a run without a quote or a backslash, spaces included, is added to the current word. */
  lemma {:induction false} SingleQuotedRunIsCopied(st: State, w: string)
    requires !st.inBackslash && st.inSQuotes && !st.inDQuotes
    requires forall i :: 0 <= i < |w| ==> w[i] != '\'' && w[i] != '\\'
    ensures Steps(st, w) == st.(current := st.current + w)
    decreases |w|
  {
    if w != [] {
      var w', c := w[..|w| - 1], w[|w| - 1];
      assert forall i :: 0 <= i < |w'| ==> w'[i] == w[i];
      SingleQuotedRunIsCopied(st, w');
      assert st.current + w == st.current + w' + [c];
    }
  }

  /**
   * Quoting a text without a quote or a backslash adds the text, spaces
   * included, to the current word; the quotes themselves are dropped.
   */
  lemma SingleQuotedTextIsOneWord(p: string, w: string)
    requires !Scan(p).inBackslash && !Scan(p).inSQuotes && !Scan(p).inDQuotes
    requires forall i :: 0 <= i < |w| ==> w[i] != '\'' && w[i] != '\\'
    ensures Scan(p + ['\''] + w + ['\'']) == Scan(p).(current := Scan(p).current + w)
  {
    var st := Scan(p);
    ScanSnoc(p, '\'');
    StepsAppend(Initial, p + ['\''], w);
    SingleQuotedRunIsCopied(st.(inSQuotes := true), w);
    ScanSnoc(p + ['\''] + w, '\'');
  }

  /** The loop over `echo 'a b' c` ends holding `c`, after the words `echo` and `a b`. */
  lemma ExampleQuotedSpaceScan(p: string)
    requires p == "echo" + " " + "'" + "a b" + "'" + " " + "c"
    ensures Scan(p) == State(false, false, false, "c", ["echo", "a b"])
  {
    var p1 := "echo";
    OrdinaryRunIsCopied(Initial, p1);
    assert [] + p1 == p1;
    assert Scan(p1) == State(false, false, false, "echo", []);
    var p2 := p1 + [' '];
    UnquotedSpaceEndsWord(p1);
    assert Scan(p2) == State(false, false, false, [], ["echo"]);
    var p3 := p2 + ['\''] + "a b" + ['\''];
    SingleQuotedTextIsOneWord(p2, "a b");
    assert [] + "a b" == "a b";
    assert Scan(p3) == State(false, false, false, "a b", ["echo"]);
    var p4 := p3 + [' '];
    UnquotedSpaceEndsWord(p3);
    assert Scan(p4) == State(false, false, false, [], ["echo", "a b"]);
    StepsAppend(Initial, p4, "c");
    OrdinaryRunIsCopied(Scan(p4), "c");
    assert [] + "c" == "c";
    assert p == p4 + "c";
  }

  /** `echo 'a b' c` gives the three words `echo`, `a b` and `c`: quoting keeps the space in the word. */
  lemma ExampleQuotedSpace()
    ensures Tokenized("echo 'a b' c") == Ok(["echo", "a b", "c"])
  {
    var p := "echo 'a b' c";
    assert p == "echo" + " " + "'" + "a b" + "'" + " " + "c";
    ExampleQuotedSpaceScan(p);
    assert ["echo", "a b"] + ["c"] == ["echo", "a b", "c"];
  }

  /** A lone backslash at the end of the input is dropped silently. */
  lemma TrailingBackslashDropped(s: string)
    requires !Scan(s).inBackslash
    ensures Tokenized(s + ['\\']) == Tokenized(s)
  {
    ScanSnoc(s, '\\');
  }

  /** An unclosed quote is an error, and the single quote is reported first. */
  lemma UnclosedQuoteFails(s: string)
    requires !Scan(s).inBackslash && !Scan(s).inDQuotes && !Scan(s).inSQuotes
    ensures Tokenized(s + ['\'']) == Err(UnmatchedSingleQuote)
    ensures Tokenized(s + ['"']) == Err(UnmatchedDoubleQuote)
  {
    ScanSnoc(s, '\'');
    ScanSnoc(s, '"');
  }
}
