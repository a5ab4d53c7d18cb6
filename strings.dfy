/** Helpers over character sequences shared by the shell's components. */
module Strings {

  /** `s.starts_with(p)` */
  predicate StartsWith(s: string, p: string) {
    |p| <= |s| && s[..|p|] == p
  }

  /**
   * The pieces of `s` between occurrences of `sep`, as `str::split(sep)`
   * yields them: `k` separators give `k + 1` pieces, some possibly empty.
   */
  function Split(s: string, sep: char): (r: seq<string>)
    ensures |r| >= 1
    decreases |s|
  {
    if s == [] then [[]]
    else
      var init := Split(s[..|s| - 1], sep);
      if s[|s| - 1] == sep then init + [[]]
      else init[..|init| - 1] + [init[|init| - 1] + [s[|s| - 1]]]
  }

  /** `ws.join(sep)`: the words with one `sep` between neighbours. */
  function Join(ws: seq<string>, sep: string): string
    decreases |ws|
  {
    if ws == [] then []
    else if |ws| == 1 then ws[0]
    else Join(ws[..|ws| - 1], sep) + sep + ws[|ws| - 1]
  }

  /** The words of `ws` that are not empty, in order. */
  function NonEmpty(ws: seq<string>): (r: seq<string>)
    ensures forall i :: 0 <= i < |r| ==> r[i] != []
    ensures forall w :: w in r <==> w in ws && w != []
    ensures |r| <= |ws|
    decreases |ws|
  {
    if ws == [] then []
    else
      var init := NonEmpty(ws[..|ws| - 1]);
      assert ws == ws[..|ws| - 1] + [ws[|ws| - 1]];
      if ws[|ws| - 1] == [] then init else init + [ws[|ws| - 1]]
  }

  /** The number of characters in all of `ws` together. */
  function TotalLength(ws: seq<string>): nat
    decreases |ws|
  {
    if ws == [] then 0 else TotalLength(ws[..|ws| - 1]) + |ws[|ws| - 1]|
  }

  lemma TotalLengthSnoc(ws: seq<string>, w: string)
    ensures TotalLength(ws + [w]) == TotalLength(ws) + |w|
  {
    assert (ws + [w])[..|ws|] == ws;
  }

  lemma NonEmptySnoc(ws: seq<string>, w: string)
    ensures NonEmpty(ws + [w]) == if w == [] then NonEmpty(ws) else NonEmpty(ws) + [w]
  {
    assert (ws + [w])[..|ws|] == ws;
  }

  /** No piece of a split contains the separator. */
  lemma {:induction false} SplitPiecesAvoidSeparator(s: string, sep: char)
    ensures forall i :: 0 <= i < |Split(s, sep)| ==> sep !in Split(s, sep)[i]
    decreases |s|
  {
    if s != [] {
      SplitPiecesAvoidSeparator(s[..|s| - 1], sep);
    }
  }

  /** Joining one more word adds the separator and the word. */
  lemma JoinSnoc(ws: seq<string>, w: string, sep: string)
    requires ws != []
    ensures Join(ws + [w], sep) == Join(ws, sep) + sep + w
  {
    assert (ws + [w])[..|ws|] == ws;
  }

  /** Extending the last word by `c` extends the join by `c`. */
  lemma JoinExtendLast(ws: seq<string>, c: char, sep: string)
    requires ws != []
    ensures Join(ws[..|ws| - 1] + [ws[|ws| - 1] + [c]], sep) == Join(ws, sep) + [c]
  {
    var front := ws[..|ws| - 1];
    if |ws| > 1 {
      assert ws == front + [ws[|ws| - 1]];
      JoinSnoc(front, ws[|ws| - 1], sep);
      JoinSnoc(front, ws[|ws| - 1] + [c], sep);
    }
  }

  /** Joining the pieces of a split with the same separator gives back the input. */
  lemma {:induction false} JoinSplit(s: string, sep: char)
    ensures Join(Split(s, sep), [sep]) == s
    decreases |s|
  {
    if s != [] {
      var init := s[..|s| - 1];
      var ps := Split(init, sep);
      JoinSplit(init, sep);
      assert s == init + [s[|s| - 1]];
      if s[|s| - 1] == sep {
        JoinSnoc(ps, [], [sep]);
      } else {
        JoinExtendLast(ps, s[|s| - 1], [sep]);
      }
    }
  }

  /** Splitting `x + [sep] + w`, where `w` holds no separator, adds `w` as one more piece. */
  lemma {:induction false} SplitAfterSeparator(x: string, sep: char, w: string)
    requires sep !in w
    ensures Split(x + [sep] + w, sep) == Split(x, sep) + [w]
    decreases |w|
  {
    if w == [] {
      assert x + [sep] + w == x + [sep];
      assert (x + [sep])[..|x|] == x;
    } else {
      var w' := w[..|w| - 1];
      SplitAfterSeparator(x, sep, w');
      var s := x + [sep] + w;
      assert s[..|s| - 1] == x + [sep] + w';
      assert w' + [w[|w| - 1]] == w;
    }
  }

  /** Splitting the join of words that hold no separator gives back the words. */
  lemma {:induction false} SplitJoin(ws: seq<string>, sep: char)
    requires |ws| >= 1
    requires forall i :: 0 <= i < |ws| ==> sep !in ws[i]
    ensures Split(Join(ws, [sep]), sep) == ws
    decreases |ws|
  {
    if |ws| == 1 {
      SplitAfterSeparator([], sep, ws[0]);
      SplitWithoutSeparator(ws[0], sep);
    } else {
      var init := ws[..|ws| - 1];
      SplitJoin(init, sep);
      SplitAfterSeparator(Join(init, [sep]), sep, ws[|ws| - 1]);
      assert init + [ws[|ws| - 1]] == ws;
    }
  }

  /** A string without the separator is one piece. */
  lemma {:induction false} SplitWithoutSeparator(s: string, sep: char)
    requires sep !in s
    ensures Split(s, sep) == [s]
    decreases |s|
  {
    if s != [] {
      SplitWithoutSeparator(s[..|s| - 1], sep);
      assert s[..|s| - 1] + [s[|s| - 1]] == s;
    }
  }
}
