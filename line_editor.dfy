/**
 * The interactive line editor of src/main.rs: the `Shell` record updated
 * one key at a time, and the tab completion built from `PATH` listings
 * and the builtin names. Terminal output is returned as an `Effect`; the
 * `PATH` value and the directory listings are parameters.
 */
module LineEditor {
  import opened Outcomes
  import opened Strings
  import opened Ordering
  import opened Builtins

  // ---------------------------------------------------------------------
  // The word under completion

  /** `char::is_whitespace`: the Unicode `White_Space` characters. */
  predicate IsWhitespace(c: char) {
    || c == ' ' || ('\t' <= c <= '\r') || c == '\U{0085}' || c == '\U{00A0}' || c == '\U{1680}'
    || ('\U{2000}' <= c <= '\U{200A}') || c == '\U{2028}' || c == '\U{2029}' || c == '\U{202F}'
    || c == '\U{205F}' || c == '\U{3000}'
  }

  predicate AllWhitespace(s: string) {
    forall i :: 0 <= i < |s| ==> IsWhitespace(s[i])
  }

  predicate NoWhitespace(s: string) {
    forall i :: 0 <= i < |s| ==> !IsWhitespace(s[i])
  }

  /** `s` with its trailing whitespace removed. */
  function TrimEnd(s: string): (r: string)
    ensures |r| <= |s| && r == s[..|r|]
    ensures AllWhitespace(s[|r|..])
    ensures r == [] || !IsWhitespace(r[|r| - 1])
    decreases |s|
  {
    if s != [] && IsWhitespace(s[|s| - 1]) then
      var r := TrimEnd(s[..|s| - 1]);
      assert s[|r|..] == s[..|s| - 1][|r|..] + [s[|s| - 1]];
      r
    else s
  }

  /** The longest suffix of `s` without whitespace. */
  function TrailingRun(s: string): (r: string)
    ensures |r| <= |s| && r == s[|s| - |r|..]
    ensures NoWhitespace(r)
    ensures |r| == |s| || IsWhitespace(s[|s| - |r| - 1])
    decreases |s|
  {
    if s != [] && !IsWhitespace(s[|s| - 1]) then TrailingRun(s[..|s| - 1]) + [s[|s| - 1]] else []
  }

  /** `s[i..j]` is the last of the words `split_whitespace` yields. */
  predicate IsLastWord(s: string, i: int, j: int) {
    && 0 <= i < j <= |s|
    && NoWhitespace(s[i..j])
    && (i == 0 || IsWhitespace(s[i - 1]))
    && AllWhitespace(s[j..])
  }

  /**
   * `buffer.split_whitespace().last().unwrap_or(&buffer)`: the last
   * whitespace-separated word, or the whole buffer when it has no word.
   */
  function LastWord(buffer: string): (w: string)
    ensures AllWhitespace(buffer) ==> w == buffer
    ensures !AllWhitespace(buffer) ==> exists i, j :: IsLastWord(buffer, i, j) && w == buffer[i..j]
  {
    var t := TrimEnd(buffer);
    if t == [] then buffer
    else
      var w := TrailingRun(t);
      assert IsLastWord(buffer, |t| - |w|, |t|) && w == buffer[|t| - |w|..|t|];
      w
  }

  /** When the buffer does not end in whitespace, the completed word is at its very end. */
  lemma LastWordIsSuffix(buffer: string)
    requires buffer != [] && !IsWhitespace(buffer[|buffer| - 1])
    ensures |LastWord(buffer)| <= |buffer| && buffer[|buffer| - |LastWord(buffer)|..] == LastWord(buffer)
  {
    assert TrimEnd(buffer) == buffer;
    assert LastWord(buffer) == TrailingRun(buffer);
  }

  // ---------------------------------------------------------------------
  // Candidates

  /** The names of one listing that start with `word`, in listing order. */
  function DirMatches(names: seq<string>, word: string): (r: seq<string>)
    ensures forall m :: m in r <==> m in names && StartsWith(m, word)
    decreases |names|
  {
    if names == [] then []
    else
      var init := names[..|names| - 1];
      var last := names[|names| - 1];
      assert names == init + [last];
      DirMatches(init, word) + (if StartsWith(last, word) then [last] else [])
  }

  /** The matching names of one directory; a directory that cannot be read adds none. */
  function ListedMatches(listing: Option<seq<string>>, word: string): seq<string> {
    match listing
    case None => []
    case Some(names) => DirMatches(names, word)
  }

  /** The matching names of the directories, one directory after the other. */
  function PathMatches(dirs: seq<string>, listDir: string -> Option<seq<string>>, word: string): seq<string>
    decreases |dirs|
  {
    if dirs == [] then []
    else PathMatches(dirs[..|dirs| - 1], listDir, word) + ListedMatches(listDir(dirs[|dirs| - 1]), word)
  }

  /** A name is collected exactly when it starts with `word` and some readable directory lists it. */
  lemma {:induction false} PathMatchesMembers(dirs: seq<string>, listDir: string -> Option<seq<string>>, word: string)
    ensures forall m :: m in PathMatches(dirs, listDir, word) <==>
              StartsWith(m, word) && exists i :: 0 <= i < |dirs| && listDir(dirs[i]).Some? && m in listDir(dirs[i]).value
    decreases |dirs|
  {
    if dirs != [] {
      var init := dirs[..|dirs| - 1];
      PathMatchesMembers(init, listDir, word);
      assert forall i :: 0 <= i < |init| ==> init[i] == dirs[i];
    }
  }

  /** Whether `m` is a name of some readable `PATH` directory. */
  predicate Listed(m: string, pathVar: Option<string>, listDir: string -> Option<seq<string>>) {
    var dirs := SearchPath(pathVar);
    exists i :: 0 <= i < |dirs| && listDir(dirs[i]).Some? && m in listDir(dirs[i]).value
  }

  /**
   * The candidates `get_partial_matches` returns: the listed names and the
   * builtins that start with `word`, sorted, with duplicates removed.
   */
  function PartialMatches(word: string, pathVar: Option<string>, listDir: string -> Option<seq<string>>): (r: seq<string>)
    ensures StrictlySorted(r)
    ensures forall i :: 0 <= i < |r| ==> StartsWith(r[i], word)
    ensures forall m :: m in r <==> StartsWith(m, word) && (m in BUILTINS || Listed(m, pathVar, listDir))
  {
    PathMatchesMembers(SearchPath(pathVar), listDir, word);
    var r := SortDedup(PathMatches(SearchPath(pathVar), listDir, word) + DirMatches(BUILTINS, word));
    assert forall i :: 0 <= i < |r| ==> r[i] in r;
    r
  }

  /** `get_partial_matches`: nested loops over the directories and their entries, then the builtins. */
  method GetPartialMatches(word: string, pathVar: Option<string>, listDir: string -> Option<seq<string>>)
    returns (matches: seq<string>)
    ensures matches == PartialMatches(word, pathVar, listDir)
  {
    var dirs := SearchPath(pathVar);
    matches := [];
    for i := 0 to |dirs|
      invariant matches == PathMatches(dirs[..i], listDir, word)
    {
      assert dirs[..i + 1][..i] == dirs[..i];
      assert PathMatches(dirs[..i + 1], listDir, word) == matches + ListedMatches(listDir(dirs[i]), word);
      var entries := listDir(dirs[i]);
      if entries.Some? {
        matches := PushMatching(matches, entries.value, word);
      }
    }
    assert dirs[..|dirs|] == dirs;
    ghost var listed := matches;
    matches := PushMatching(matches, BUILTINS, word);
    matches := SortDedup(matches);
    assert matches == SortDedup(listed + DirMatches(BUILTINS, word));
  }

  /** The inner loops of `get_partial_matches`: push every name that starts with `word`. */
  method PushMatching(matches: seq<string>, names: seq<string>, word: string) returns (r: seq<string>)
    ensures r == matches + DirMatches(names, word)
  {
    r := matches;
    for j := 0 to |names|
      invariant r == matches + DirMatches(names[..j], word)
    {
      assert names[..j + 1][..j] == names[..j];
      if StartsWith(names[j], word) {
        r := r + [names[j]];
      }
    }
    assert names[..|names|] == names;
  }

  /** Sorting and deduplicating an already strictly sorted list changes nothing. */
  lemma SortDedupSorted(s: seq<string>)
    requires StrictlySorted(s)
    ensures SortDedup(s) == s
  {
    StrictlySortedUnique(SortDedup(s), s);
  }

  // ---------------------------------------------------------------------
  // Longest common prefix

  /** Every other string has `strs[0][i]` at position `i`. */
  predicate AgreeAt(strs: seq<string>, i: nat)
    requires strs != [] && i < |strs[0]|
  {
    forall k :: 1 <= k < |strs| ==> i < |strs[k]| && strs[k][i] == strs[0][i]
  }

  /** Where the `take_while` over the characters of `strs[0]` stops, counting from `i`. */
  function CommonLength(strs: seq<string>, i: nat): (n: nat)
    requires strs != [] && i <= |strs[0]|
    ensures i <= n <= |strs[0]|
    ensures forall p :: i <= p < n ==> AgreeAt(strs, p)
    ensures n == |strs[0]| || !AgreeAt(strs, n)
    decreases |strs[0]| - i
  {
    if i == |strs[0]| || !AgreeAt(strs, i) then i else CommonLength(strs, i + 1)
  }

  /**
   * `longest_common_prefix`: empty for no strings; otherwise a prefix of
   * every string that stops at the end of `strs[0]` or where another
   * string ends or differs.
   */
  function LongestCommonPrefix(strs: seq<string>): (r: string)
    ensures strs == [] ==> r == []
    ensures forall k :: 0 <= k < |strs| ==> StartsWith(strs[k], r)
    ensures strs != [] ==>
              || r == strs[0]
              || (|r| < |strs[0]| && exists k :: 1 <= k < |strs| && (|strs[k]| <= |r| || strs[k][|r|] != strs[0][|r|]))
  {
    if strs == [] then []
    else
      var n := CommonLength(strs, 0);
      forall k | 1 <= k < |strs|
        ensures StartsWith(strs[k], strs[0][..n])
      {
        forall p | 0 <= p < n
          ensures p < |strs[k]| && strs[k][p] == strs[0][p]
        {
          assert AgreeAt(strs, p);
        }
        if n > 0 {
          assert AgreeAt(strs, n - 1);
        }
      }
      strs[0][..n]
  }

  /** The scan does not stop inside a prefix that all the strings share. */
  lemma {:induction false} CommonLengthCoversPrefix(strs: seq<string>, p: string, i: nat)
    requires strs != [] && i <= |p|
    requires forall k :: 0 <= k < |strs| ==> StartsWith(strs[k], p)
    ensures i <= |strs[0]| && CommonLength(strs, i) >= |p|
    decreases |p| - i
  {
    assert StartsWith(strs[0], p);
    if i < |p| {
      forall k | 1 <= k < |strs|
        ensures i < |strs[k]| && strs[k][i] == strs[0][i]
      {
        assert StartsWith(strs[k], p);
        assert strs[k][i] == p[i] == strs[0][i];
      }
      assert AgreeAt(strs, i);
      CommonLengthCoversPrefix(strs, p, i + 1);
    }
  }

  /** Every common prefix of the strings is a prefix of `longest_common_prefix`. */
  lemma LcpGreatest(strs: seq<string>, p: string)
    requires strs != []
    requires forall k :: 0 <= k < |strs| ==> StartsWith(strs[k], p)
    ensures StartsWith(LongestCommonPrefix(strs), p)
  {
    CommonLengthCoversPrefix(strs, p, 0);
    assert StartsWith(strs[0], p);
  }

  // ---------------------------------------------------------------------
  // The shell record

  /** What a key press shows or triggers. */
  datatype Effect =
    | Silent
    | Bell                                          // "\x07"
    | Show(text: string)                            // text echoed after the cursor
    | Erase                                         // "\u{8} \u{8}"
    | ListCandidates(names: seq<string>, line: string)  // the candidates, then the prompt and the line again
    | Submit(line: string)                          // the line is run by `process_command`
    | Exit(decision: ExitDecision)

  /**
   * What the Tab key does to the line `line` with the flag `flag`, given
   * the sorted candidates `ms` for its last word `word`: `line'`,
   * `cache'` and `flag'` are the line, the cache and the flag afterwards
   * and `e` is what the terminal shows. No candidate rings the bell; one
   * is completed with a space; with several, a common prefix longer than
   * the whole line extends the line by its part past the line's length,
   * and otherwise a first Tab rings the bell and a second one lists them.
   */
  predicate TabOutcome(word: string, ms: seq<string>, line: string, flag: bool,
                       line': string, cache': seq<string>, flag': bool, e: Effect)
    requires forall k :: 0 <= k < |ms| ==> |word| <= |ms[k]|
  {
    var prefix := LongestCommonPrefix(ms);
    && (ms == [] ==> line' == line && cache' == [] && !flag' && e == Bell)
    && (|ms| == 1 ==>
          line' == line + ms[0][|word|..] + " " && cache' == [] && !flag' && e == Show(ms[0][|word|..] + " "))
    && (|ms| >= 2 ==> cache' == ms)
    && (|ms| >= 2 && |prefix| > |line| ==>
          line' == line + prefix[|line|..] && flag' == flag && e == Show(prefix[|line|..]))
    && (|ms| >= 2 && |prefix| <= |line| && !flag ==> line' == line && flag' && e == Bell)
    && (|ms| >= 2 && |prefix| <= |line| && flag ==> line' == line && !flag' && e == ListCandidates(ms, line))
  }

  class Shell {
    var buffer: string
    var cursorPos: nat
    var matchesCache: seq<string>
    var inMultipleOptsState: bool

    /** The cursor is always at the end of the line. */
    predicate Valid()
      reads this
    {
      cursorPos == |buffer|
    }

    /** `Shell::new` */
    constructor ()
      ensures Valid()
      ensures buffer == [] && cursorPos == 0 && matchesCache == [] && !inMultipleOptsState
    {
      buffer := [];
      cursorPos := 0;
      matchesCache := [];
      inMultipleOptsState := false;
    }

    /** The reset before each prompt. */
    method StartPrompt()
      modifies this
      ensures Valid()
      ensures buffer == [] && cursorPos == 0 && matchesCache == [] && !inMultipleOptsState
    {
      buffer := [];
      inMultipleOptsState := false;
      matchesCache := [];
      cursorPos := 0;
    }

    /** An ordinary key: inserted at the cursor, which is the end of the line. */
    method InsertChar(c: char) returns (e: Effect)
      requires Valid()
      modifies this
      ensures Valid()
      ensures buffer == old(buffer) + [c] && e == Show([c])
      ensures matchesCache == old(matchesCache) && inMultipleOptsState == old(inMultipleOptsState)
    {
      buffer := buffer[..cursorPos] + [c] + buffer[cursorPos..];
      cursorPos := cursorPos + 1;
      e := Show([c]);
    }

    /** `\x7f`: removes the character before the cursor, if any. */
    method Backspace() returns (e: Effect)
      requires Valid()
      modifies this
      ensures Valid()
      ensures old(buffer) == [] ==> buffer == [] && e == Silent
      ensures old(buffer) != [] ==> buffer == old(buffer)[..|old(buffer)| - 1] && e == Erase
      ensures matchesCache == old(matchesCache) && inMultipleOptsState == old(inMultipleOptsState)
    {
      e := Silent;
      if cursorPos > 0 {
        e := Erase;
        buffer := buffer[..cursorPos - 1] + buffer[cursorPos..];
        cursorPos := cursorPos - 1;
      }
    }

    /**
     * `process_matches`: the last element of `matches` is the word being
     * completed and is popped; no candidate rings the bell and clears the
     * cache; one candidate is completed with a space after it; several
     * are kept, sorted and deduplicated, in the cache.
     */
    method ProcessMatches(matches: seq<string>) returns (e: Effect, candidates: seq<string>)
      requires Valid()
      requires |matches| == 2 ==> |matches[1]| <= |matches[0]|
      modifies this
      ensures Valid()
      ensures candidates == if matches == [] then [] else matches[..|matches| - 1]
      ensures candidates == [] ==>
                buffer == old(buffer) && matchesCache == [] && !inMultipleOptsState && e == Bell
      ensures |candidates| == 1 ==>
                var completion := candidates[0][|matches[1]|..];
                buffer == old(buffer) + completion + " " && matchesCache == [] && !inMultipleOptsState
                && e == Show(completion + " ")
      ensures |candidates| >= 2 ==>
                buffer == old(buffer) && matchesCache == SortDedup(candidates)
                && inMultipleOptsState == old(inMultipleOptsState) && e == Silent
    {
      var word: string := [];
      candidates := matches;
      if candidates != [] {
        word := candidates[|candidates| - 1];
        candidates := candidates[..|candidates| - 1];
      }
      if candidates == [] {
        e := Bell;
        inMultipleOptsState := false;
        matchesCache := [];
      } else if |candidates| == 1 {
        var completion := candidates[0][|word|..];
        buffer := buffer + completion;
        buffer := buffer + " ";
        cursorPos := cursorPos + |completion| + 1;
        matchesCache := [];
        inMultipleOptsState := false;
        e := Show(completion + " ");
      } else {
        matchesCache := SortDedup(candidates);
        e := Silent;
      }
    }

    /**
     * The Tab key. The candidates for the last word are computed and
     * handed to `process_matches`; with several candidates, a common
     * prefix longer than the whole line extends the line by its part past
     * the line's length, and otherwise a first Tab rings the bell and a
     * second one lists the candidates.
     */
    method Tab(pathVar: Option<string>, listDir: string -> Option<seq<string>>) returns (e: Effect)
      requires Valid()
      modifies this
      ensures Valid()
      ensures TabOutcome(LastWord(old(buffer)), PartialMatches(LastWord(old(buffer)), pathVar, listDir),
                         old(buffer), old(inMultipleOptsState), buffer, matchesCache, inMultipleOptsState, e)
    {
      ghost var line, flag := buffer, inMultipleOptsState;
      var word := LastWord(buffer);
      var matches := GetPartialMatches(word, pathVar, listDir);
      ghost var ms := matches;
      SortDedupSorted(ms);
      assert forall k :: 0 <= k < |ms| ==> |word| <= |ms[k]|;
      matches := matches + [word];
      assert |matches| == 2 ==> StartsWith(matches[0], word);
      e, matches := ProcessMatches(matches);
      assert matches == ms;
      if matchesCache != [] {
        e := ExtendOrList(matches);
        assert TabOutcome(word, ms, line, flag, buffer, matchesCache, inMultipleOptsState, e);
      } else {
        assert TabOutcome(word, ms, line, flag, buffer, matchesCache, inMultipleOptsState, e);
      }
    }

    /**
     * The rest of the Tab arm after several candidates were cached: extend
     * by the common prefix past the whole line's length, or ring the bell
     * on a first Tab, or list the cache on a second one.
     */
    method ExtendOrList(matches: seq<string>) returns (e: Effect)
      requires Valid()
      modifies this
      ensures Valid()
      ensures matchesCache == old(matchesCache)
      ensures
        var prefix := LongestCommonPrefix(matches);
        && (|prefix| > |old(buffer)| ==>
              buffer == old(buffer) + prefix[|old(buffer)|..]
              && inMultipleOptsState == old(inMultipleOptsState) && e == Show(prefix[|old(buffer)|..]))
        && (|prefix| <= |old(buffer)| && !old(inMultipleOptsState) ==>
              buffer == old(buffer) && inMultipleOptsState && e == Bell)
        && (|prefix| <= |old(buffer)| && old(inMultipleOptsState) ==>
              buffer == old(buffer) && !inMultipleOptsState && e == ListCandidates(matchesCache, old(buffer)))
    {
      var prefix := LongestCommonPrefix(matches);
      if |prefix| > |buffer| {
        var completion := prefix[|buffer|..];
        buffer := buffer + completion;
        cursorPos := cursorPos + |completion|;
        e := Show(completion);
      } else if !inMultipleOptsState {
        e := Bell;
        inMultipleOptsState := true;
      } else {
        e := ListCandidates(matchesCache, buffer);
        inMultipleOptsState := false;
      }
    }

    /**
     * One key of the inner loop: Tab completes, `\n` submits the line and
     * starts a new prompt, `\x7f` erases, `\x04` runs `exit 0`, and any
     * other key is inserted.
     */
    method Key(c: char, pathVar: Option<string>, listDir: string -> Option<seq<string>>) returns (e: Effect)
      requires Valid()
      modifies this
      ensures Valid()
      ensures c == '\n' ==> e == Submit(old(buffer)) && buffer == [] && matchesCache == [] && !inMultipleOptsState
      ensures c == '\U{0004}' ==> e == Exit(Terminate(0)) && buffer == old(buffer)
      ensures c !in {'\t', '\n', '\U{007F}', '\U{0004}'} ==> buffer == old(buffer) + [c] && e == Show([c])
      ensures c == '\U{007F}' ==>
                && buffer == (if old(buffer) == [] then [] else old(buffer)[..|old(buffer)| - 1])
                && e == if old(buffer) == [] then Silent else Erase
      ensures c != '\t' && c != '\n' ==> inMultipleOptsState == old(inMultipleOptsState) && matchesCache == old(matchesCache)
      ensures c == '\t' ==>
                TabOutcome(LastWord(old(buffer)), PartialMatches(LastWord(old(buffer)), pathVar, listDir),
                           old(buffer), old(inMultipleOptsState), buffer, matchesCache, inMultipleOptsState, e)
    {
      match c {
        case '\t' =>
          e := Tab(pathVar, listDir);
        case '\n' =>
          e := Submit(buffer);
          StartPrompt();
        case '\U{007F}' =>
          e := Backspace();
        case '\U{0004}' =>
          e := Exit(BuiltinExit(["0"]));
          assert ParseI32("0") == Some(0) by { ParseI32Decimal(0); }
        case _ =>
          e := InsertChar(c);
      }
    }
  }

  // ---------------------------------------------------------------------
  // Properties of the completion

  /**
   * For a buffer that is a single word, the extension by a longer common
   * prefix turns the buffer into that prefix, a prefix of every candidate.
   */
  lemma SingleWordExtensionIsCommonPrefix(buffer: string, pathVar: Option<string>, listDir: string -> Option<seq<string>>)
    requires NoWhitespace(buffer)
    ensures
      var ms := PartialMatches(LastWord(buffer), pathVar, listDir);
      var prefix := LongestCommonPrefix(ms);
      |prefix| > |buffer| ==>
        && buffer + prefix[|buffer|..] == prefix
        && forall k :: 0 <= k < |ms| ==> StartsWith(ms[k], buffer + prefix[|buffer|..])
  {
    OneWordIsLastWord(buffer);
    var ms := PartialMatches(buffer, pathVar, listDir);
    if ms != [] {
      ExtendedPrefix(ms, buffer);
    }
  }

  /** A line without whitespace is its own last word. */
  lemma OneWordIsLastWord(buffer: string)
    requires NoWhitespace(buffer)
    ensures LastWord(buffer) == buffer
  {
    if buffer != [] {
      assert TrimEnd(buffer) == buffer;
    }
  }

  /** A common prefix longer than a word every string starts with extends that word. */
  lemma ExtendedPrefix(strs: seq<string>, word: string)
    requires strs != []
    requires forall k :: 0 <= k < |strs| ==> StartsWith(strs[k], word)
    ensures |LongestCommonPrefix(strs)| > |word| ==> word + LongestCommonPrefix(strs)[|word|..] == LongestCommonPrefix(strs)
  {
    LcpGreatest(strs, word);
  }

  /**
   * A single candidate is completed at the end of the line: when the line
   * does not end in whitespace, the line ends with the candidate and a space.
   */
  lemma SingleCandidateCompletesLastWord(buffer: string, m: string)
    requires buffer != [] && !IsWhitespace(buffer[|buffer| - 1])
    requires StartsWith(m, LastWord(buffer))
    ensures
      var line := buffer + m[|LastWord(buffer)|..] + " ";
      |m| + 1 <= |line| && line[|line| - |m| - 1..] == m + " "
  {
    var w := LastWord(buffer);
    LastWordIsSuffix(buffer);
    assert buffer == buffer[..|buffer| - |w|] + w;
    CompletedWordEndsLine(buffer[..|buffer| - |w|], w, m);
  }

  /** Completing the word `w` at the end of `pre + w` to `m` leaves `m` and a space at the end. */
  lemma CompletedWordEndsLine(pre: string, w: string, m: string)
    requires StartsWith(m, w)
    ensures var line := pre + w + m[|w|..] + " "; |m| + 1 <= |line| && line[|line| - |m| - 1..] == m + " "
  {
    assert pre + w + m[|w|..] + " " == pre + (m + " ");
  }

  /**
   * On a line of several words the extension is taken past the length of
   * the whole line: on the line `a gi`, whose last word is `gi`, with the
   * candidates `gitlab1` and `gitlab2`, the common prefix `gitlab` adds
   * only `ab`, giving `a giab` rather than `a gitlab`.
   */
  lemma ExtensionMeasuredAgainstWholeLine(flag: bool, line': string, cache': seq<string>, flag': bool, e: Effect)
    ensures LastWord("a gi") == "gi"
    ensures TabOutcome("gi", ["gitlab1", "gitlab2"], "a gi", flag, line', cache', flag', e) ==>
              line' == "a giab" && e == Show("ab") && flag' == flag
  {
    LastWordOfTwoWords();
    CommonPrefixOfTwoNames();
  }

  /** The last word of `a gi` is `gi`. */
  lemma LastWordOfTwoWords()
    ensures LastWord("a gi") == "gi"
  {
    assert TrimEnd("a gi") == "a gi";
    assert TrailingRun("a gi") == "gi";
  }

  /** The common prefix of `gitlab1` and `gitlab2` is `gitlab`. */
  lemma CommonPrefixOfTwoNames()
    ensures LongestCommonPrefix(["gitlab1", "gitlab2"]) == "gitlab"
  {
    var strs := ["gitlab1", "gitlab2"];
    assert strs[1][6] != strs[0][6];
    assert CommonLength(strs, 6) == 6;
    assert AgreeAt(strs, 5) && CommonLength(strs, 5) == 6;
    assert AgreeAt(strs, 4) && CommonLength(strs, 4) == 6;
    assert AgreeAt(strs, 3) && CommonLength(strs, 3) == 6;
    assert AgreeAt(strs, 2) && CommonLength(strs, 2) == 6;
    assert AgreeAt(strs, 1) && CommonLength(strs, 1) == 6;
    assert AgreeAt(strs, 0) && CommonLength(strs, 0) == 6;
  }
}
