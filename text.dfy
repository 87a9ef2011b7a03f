/**
 * String operations the helpers are built from, with JavaScript's meaning:
 * `String.prototype.split` on a one-character separator, `Array.prototype.join`,
 * `includes` and prefix tests.
 */
module Text {

  /**
   * `s.split(sep)`: the pieces between occurrences of `sep`. There is always at
   * least one piece; the empty string gives `[""]`.
   */
  function Split(s: string, sep: char): (parts: seq<string>)
    ensures |parts| >= 1
    ensures forall i | 0 <= i < |parts| :: sep !in parts[i]
    ensures sep !in s ==> parts == [s]
    ensures sep in s ==> |parts| > 1
    decreases |s|
  {
    if s == [] then [""]
    else
      var tail := Split(s[1..], sep);
      if s[0] == sep then [""] + tail
      else
        assert sep !in s ==> s == [s[0]] + s[1..];
        assert sep in s ==> sep in s[1..];
        [[s[0]] + tail[0]] + tail[1..]
  }

  /** `parts.join(sep)`. */
  function Join(parts: seq<string>, sep: char): string
    decreases |parts|
  {
    if parts == [] then ""
    else if |parts| == 1 then parts[0]
    else parts[0] + [sep] + Join(parts[1..], sep)
  }

  /** Splitting and joining again gives the string back. */
  lemma {:induction false} JoinSplit(s: string, sep: char)
    ensures Join(Split(s, sep), sep) == s
    decreases |s|
  {
    if s != [] {
      var tail := Split(s[1..], sep);
      JoinSplit(s[1..], sep);
      if s[0] == sep {
        assert Split(s, sep)[1..] == tail;
      } else {
        var parts := Split(s, sep);
        assert parts[0] == [s[0]] + tail[0];
        if |tail| > 1 {
          assert parts[1..] == tail[1..];
          assert Join(tail, sep) == tail[0] + [sep] + Join(tail[1..], sep);
        }
      }
      assert s == [s[0]] + s[1..];
    }
  }

  /** Joining pieces free of the separator and splitting again gives the pieces back. */
  lemma {:induction false} SplitJoin(parts: seq<string>, sep: char)
    requires |parts| >= 1
    requires forall i | 0 <= i < |parts| :: sep !in parts[i]
    ensures Split(Join(parts, sep), sep) == parts
    decreases |parts|
  {
    if |parts| == 1 {
      assert Split(parts[0], sep) == [parts[0]];
    } else {
      var rest := Join(parts[1..], sep);
      SplitJoin(parts[1..], sep);
      SplitAfterPiece(parts[0], rest, sep);
      assert [parts[0]] + parts[1..] == parts;
    }
  }

  /** A piece free of the separator, then the separator, splits off as one piece. */
  lemma {:induction false} SplitAfterPiece(p: string, rest: string, sep: char)
    requires sep !in p
    ensures Split(p + [sep] + rest, sep) == [p] + Split(rest, sep)
    decreases |p|
  {
    if p == [] {
      assert p + [sep] + rest == [sep] + rest;
      assert ([sep] + rest)[1..] == rest;
    } else {
      SplitAfterPiece(p[1..], rest, sep);
      assert (p + [sep] + rest)[1..] == p[1..] + [sep] + rest;
      assert [p[0]] + p[1..] == p;
    }
  }

  /** The first piece of a split is a prefix of the string. */
  lemma {:induction false} SplitFirstIsPrefix(s: string, sep: char)
    ensures Split(s, sep)[0] <= s
    ensures |Split(s, sep)| > 1 ==> |Split(s, sep)[0]| < |s| && s[|Split(s, sep)[0]|] == sep
    decreases |s|
  {
    if s != [] {
      SplitFirstIsPrefix(s[1..], sep);
    }
  }

  /** Joining one more piece appends the separator and the piece. */
  lemma {:induction false} JoinSnoc(ps: seq<string>, x: string, sep: char)
    requires |ps| >= 1
    ensures Join(ps + [x], sep) == Join(ps, sep) + [sep] + x
    decreases |ps|
  {
    if |ps| == 1 {
      assert (ps + [x])[1..] == [x];
    } else {
      JoinSnoc(ps[1..], x, sep);
      assert (ps + [x])[1..] == ps[1..] + [x];
    }
  }

  /** The text of a split string ends with its last piece, preceded by the separator when there are several. */
  lemma SplitEnds(s: string, sep: char)
    ensures var parts := Split(s, sep); var n := |parts|;
      (n == 1 ==> parts[0] == s) &&
      (n >= 2 ==> s == Join(parts[..n - 1], sep) + [sep] + parts[n - 1])
  {
    var parts := Split(s, sep);
    var n := |parts|;
    JoinSplit(s, sep);
    if n >= 2 {
      assert parts[..n - 1] + [parts[n - 1]] == parts;
      JoinSnoc(parts[..n - 1], parts[n - 1], sep);
    }
  }

  /** The last piece of a split is a suffix of the string, preceded by the separator when there are several. */
  lemma SplitLastIsSuffix(s: string, sep: char)
    ensures var parts := Split(s, sep); var last := parts[|parts| - 1];
      |last| <= |s| && s[|s| - |last|..] == last &&
      (|parts| > 1 ==> |last| < |s| && s[|s| - |last| - 1] == sep)
  {
    SplitEnds(s, sep);
  }

  /** The last two pieces of a split, with the separator between them, end the string. */
  lemma SplitLastTwo(s: string, sep: char)
    requires |Split(s, sep)| >= 2
    ensures var parts := Split(s, sep); var n := |parts|;
      var tailText := parts[n - 2] + [sep] + parts[n - 1];
      |tailText| <= |s| && s[|s| - |tailText|..] == tailText
  {
    var parts := Split(s, sep);
    var n := |parts|;
    SplitEnds(s, sep);
    var front := parts[..n - 1];
    if n > 2 {
      assert front[..n - 2] + [parts[n - 2]] == front;
      JoinSnoc(front[..n - 2], parts[n - 2], sep);
    }
  }

  /** After the first separator, the remaining pieces are the split of the text that follows it. */
  lemma SplitRest(s: string, sep: char)
    requires sep in s
    ensures var k := |Split(s, sep)[0]|;
      k < |s| && s[k] == sep && Split(s, sep)[1..] == Split(s[k + 1..], sep)
  {
    var parts := Split(s, sep);
    var k := |parts[0]|;
    SplitFirstIsPrefix(s, sep);
    PrefixThenRest(s, parts[0]);
    SplitAfterPiece(parts[0], s[k + 1..], sep);
  }

  /** A string is a proper prefix, the character after it, and the rest. */
  lemma PrefixThenRest(s: string, p: string)
    requires p <= s && |p| < |s|
    ensures s == p + [s[|p|]] + s[|p| + 1..]
  {
    assert s == s[..|p|] + [s[|p|]] + s[|p| + 1..];
  }

  /**
   * The piece before the last one starts the string, when there are just two
   * pieces, and follows a separator otherwise.
   */
  lemma SecondLastPiece(s: string, sep: char)
    requires |Split(s, sep)| >= 2
    ensures var parts := Split(s, sep); var n := |parts|;
      var m := |parts[n - 2]| + 1 + |parts[n - 1]|;
      m <= |s| && (n == 2 ==> m == |s|) && (n > 2 ==> m < |s| && s[|s| - m - 1] == sep)
  {
    var parts := Split(s, sep);
    var n := |parts|;
    SplitEnds(s, sep);
    var front := parts[..n - 1];
    var t := Join(front, sep);
    assert s == t + [sep] + parts[n - 1];
    SplitJoin(front, sep);
    assert Split(t, sep) == front;
    SplitLastIsSuffix(t, sep);
    if n == 2 {
      SplitEnds(t, sep);
    }
  }

  /** `s.startsWith(p)`. */
  predicate StartsWith(s: string, p: string)
  {
    |p| <= |s| && s[..|p|] == p
  }

  /** `s.includes(sub)`. */
  predicate Contains(s: string, sub: string)
    decreases |s|
  {
    StartsWith(s, sub) || (s != [] && Contains(s[1..], sub))
  }

  /** ASCII lower case; the regular expressions here use the `i` flag on ASCII text only. */
  function Lower(c: char): char
  {
    if 'A' <= c <= 'Z' then (c as int + 32) as char else c
  }

  /** `s` starts with `p`, letters compared without regard to ASCII case. */
  predicate StartsWithIgnoringCase(s: string, p: string)
  {
    |p| <= |s| && forall i | 0 <= i < |p| :: Lower(s[i]) == Lower(p[i])
  }

  /** `\s` of JavaScript regular expressions: white space and line terminators. */
  predicate IsSpace(c: char)
  {
    c == ' ' || c == '\t' || c == '\n' || c == '\r' || c == '\U{000B}' || c == '\U{000C}'
    || c == '\U{00A0}' || c == '\U{1680}' || ('\U{2000}' <= c <= '\U{200A}')
    || c == '\U{2028}' || c == '\U{2029}' || c == '\U{202F}' || c == '\U{205F}'
    || c == '\U{3000}' || c == '\U{FEFF}'
  }

  /** The characters `.` does not match in a JavaScript regular expression without the `s` flag. */
  predicate IsLineTerminator(c: char)
  {
    c == '\n' || c == '\r' || c == '\U{2028}' || c == '\U{2029}'
  }
}
