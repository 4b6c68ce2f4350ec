/**
  `strings.Split(s, " ")` as the extractor uses it on a captured
  `rewrite` body, and the source and target tokens taken from its result.
 */
module Tokens {

  /** The pieces of `s` between single spaces, in order. Two adjacent spaces
      give an empty piece; the empty string gives one empty piece. */
  function Split(s: string): (r: seq<string>)
    ensures |r| >= 1
    ensures forall k :: 0 <= k < |r| ==> ' ' !in r[k]
    decreases |s|
  {
    if |s| == 0 then [""]
    else
      var rest := Split(s[1..]);
      if s[0] == ' ' then [""] + rest
      else [[s[0]] + rest[0]] + rest[1..]
  }

  /** `strings.Join(parts, " ")`, the inverse of `Split`. */
  function Join(parts: seq<string>): string
    requires |parts| >= 1
  {
    if |parts| == 1 then parts[0] else parts[0] + " " + Join(parts[1..])
  }

  /** The source token: the first piece of the split (main.go line 88). */
  function SourceToken(capture: string): string
  {
    Split(capture)[0]
  }

  /** The target token: the last piece of the split (main.go line 89). */
  function TargetToken(capture: string): string
  {
    var s := Split(capture);
    s[|s| - 1]
  }

  /** Joining the pieces with spaces gives back the split string. */
  lemma {:induction false} JoinSplit(s: string)
    ensures Join(Split(s)) == s
    decreases |s|
  {
    if |s| > 0 {
      JoinSplit(s[1..]);
      var rest := Split(s[1..]);
      if s[0] != ' ' && |rest| > 1 {
        assert Join(rest) == rest[0] + " " + Join(rest[1..]);
        assert Split(s)[1..] == rest[1..];
      }
    }
  }

  /** A string without spaces splits into itself alone. */
  lemma {:induction false} SplitWord(w: string)
    requires ' ' !in w
    ensures Split(w) == [w]
    decreases |w|
  {
    if |w| > 0 {
      SplitWord(w[1..]);
      assert [w[0]] + w[1..] == w;
    }
  }

  /** A space-free word followed by a space splits off as the first piece. */
  lemma {:induction false} SplitAfterWord(w: string, t: string)
    requires ' ' !in w
    ensures Split(w + " " + t) == [w] + Split(t)
    decreases |w|
  {
    var s := w + " " + t;
    if |w| == 0 {
      assert s[1..] == t;
    } else {
      assert s[1..] == w[1..] + " " + t;
      SplitAfterWord(w[1..], t);
      assert [w[0]] + w[1..] == w;
    }
  }

  /** Splitting a join of space-free pieces gives back the pieces. */
  lemma {:induction false} SplitJoin(parts: seq<string>)
    requires |parts| >= 1
    requires forall k :: 0 <= k < |parts| ==> ' ' !in parts[k]
    ensures Split(Join(parts)) == parts
    decreases |parts|
  {
    if |parts| == 1 {
      SplitWord(parts[0]);
    } else {
      SplitJoin(parts[1..]);
      SplitAfterWord(parts[0], Join(parts[1..]));
    }
  }

  /** `Split` never returns fewer than two pieces for a string with a space. */
  lemma SplitHasSeveralPieces(s: string)
    requires ' ' in s
    ensures |Split(s)| >= 2
  {
    JoinSplit(s);
  }

  /** The source token is the longest space-free prefix of the capture: the
      whole capture when it has no space, otherwise the text before its first
      space. */
  lemma SourceTokenIsFirstWord(capture: string)
    ensures ' ' !in SourceToken(capture)
    ensures ' ' !in capture ==> SourceToken(capture) == capture
    ensures ' ' in capture ==>
      |SourceToken(capture)| < |capture| &&
      capture[..|SourceToken(capture)| + 1] == SourceToken(capture) + " "
  {
    var parts := Split(capture);
    if ' ' !in capture {
      SplitWord(capture);
    } else {
      SplitHasSeveralPieces(capture);
      JoinSplit(capture);
      assert capture == parts[0] + " " + Join(parts[1..]);
      assert capture[..|parts[0]| + 1] == parts[0] + " ";
    }
  }

  /** Joining all pieces but the last, then a space and the last piece, is
      the whole join. */
  lemma {:induction false} JoinLast(parts: seq<string>)
    requires |parts| >= 2
    ensures Join(parts) == Join(parts[..|parts| - 1]) + " " + parts[|parts| - 1]
    decreases |parts|
  {
    if |parts| > 2 {
      JoinLast(parts[1..]);
      assert parts[1..][..|parts| - 2] == parts[..|parts| - 1][1..];
    }
  }

  /** The target token is the longest space-free suffix of the capture: the
      whole capture when it has no space, otherwise the text after its last
      space. */
  lemma TargetTokenIsLastWord(capture: string)
    ensures ' ' !in TargetToken(capture)
    ensures ' ' !in capture ==> TargetToken(capture) == capture
    ensures ' ' in capture ==>
      |TargetToken(capture)| < |capture| &&
      capture[|capture| - |TargetToken(capture)| - 1..] == " " + TargetToken(capture)
  {
    var parts := Split(capture);
    if ' ' !in capture {
      SplitWord(capture);
    } else {
      SplitHasSeveralPieces(capture);
      JoinSplit(capture);
      JoinLast(parts);
      var last := parts[|parts| - 1];
      assert capture == Join(parts[..|parts| - 1]) + " " + last;
      assert capture[|capture| - |last| - 1..] == " " + last;
    }
  }

  /** A capture of the form `<source> <target>` with space-free halves gives
      exactly those halves (for example `"/a /b"` gives `"/a"` and `"/b"`). */
  lemma SourceAndTargetOfPair(source: string, target: string)
    requires ' ' !in source && ' ' !in target
    ensures SourceToken(source + " " + target) == source
    ensures TargetToken(source + " " + target) == target
  {
    SplitAfterWord(source, target);
    SplitWord(target);
  }

  /** A capture with a single token yields that token as both source and
      target. */
  lemma SingleTokenIsSourceAndTarget(capture: string)
    requires ' ' !in capture
    ensures SourceToken(capture) == capture && TargetToken(capture) == capture
  {
    SplitWord(capture);
  }
}
