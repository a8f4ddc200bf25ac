/**
 * The JavaScript string operations the model needs: `trim`, `split` on one
 * character and on `/\s+/`, `startsWith`, substring search and
 * `toLowerCase`, on strings as sequences of characters.
 */
module JsText {

  /** The characters `\s` and `trim` treat as white space: ECMAScript WhiteSpace and LineTerminator. */
  predicate IsSpace(c: char) {
    || c == '\t' || c == '\n' || c == '\U{000B}' || c == '\U{000C}' || c == '\r' || c == ' '
    || c == '\U{00A0}' || c == '\U{1680}' || ('\U{2000}' <= c <= '\U{200A}')
    || c == '\U{2028}' || c == '\U{2029}' || c == '\U{202F}' || c == '\U{205F}'
    || c == '\U{3000}' || c == '\U{FEFF}'
  }

  /** `s` without its leading white space. */
  function TrimStart(s: string): (r: string)
    ensures |r| <= |s| && r == s[|s| - |r|..]
    ensures forall k :: 0 <= k < |s| - |r| ==> IsSpace(s[k])
    ensures r == [] || !IsSpace(r[0])
    decreases |s|
  {
    if |s| > 0 && IsSpace(s[0]) then TrimStart(s[1..]) else s
  }

  /** `s` without its trailing white space. */
  function TrimEnd(s: string): (r: string)
    ensures |r| <= |s| && r == s[..|r|]
    ensures forall k :: |r| <= k < |s| ==> IsSpace(s[k])
    ensures r == [] || !IsSpace(r[|r| - 1])
    decreases |s|
  {
    if |s| > 0 && IsSpace(s[|s| - 1]) then TrimEnd(s[..|s| - 1]) else s
  }

  /** `trim` */
  function Trim(s: string): string {
    TrimEnd(TrimStart(s))
  }

  /** The trimmed string is a slice of `s` with white space only around it, and empty only if `s` was all white space. */
  lemma TrimFacts(s: string)
    ensures Trim(s) == [] || (!IsSpace(Trim(s)[0]) && !IsSpace(Trim(s)[|Trim(s)| - 1]))
    ensures Trim(s) == [] <==> forall k :: 0 <= k < |s| ==> IsSpace(s[k])
  {
    var a := TrimStart(s);
    var t := TrimEnd(a);
    if t == [] {
      assert a == [];
    } else {
      assert t[0] == a[0];
    }
  }

  /** `s.split(sep)` for a one-character separator: the pieces between the separators, in order. */
  function Split(s: string, sep: char): (parts: seq<string>)
    ensures |parts| >= 1
    ensures forall i, k :: 0 <= i < |parts| && 0 <= k < |parts[i]| ==> parts[i][k] != sep
    decreases |s|
  {
    if s == [] then [[]]
    else if s[0] == sep then [[]] + Split(s[1..], sep)
    else
      var rest := Split(s[1..], sep);
      [[s[0]] + rest[0]] + rest[1..]
  }

  /** `parts.join(sep)` */
  function Join(parts: seq<string>, sep: char): string
    requires |parts| >= 1
    decreases |parts|
  {
    if |parts| == 1 then parts[0] else parts[0] + [sep] + Join(parts[1..], sep)
  }

  /** Splitting loses nothing: joining the pieces with the separator gives the string back. */
  lemma {:induction false} JoinSplit(s: string, sep: char)
    ensures Join(Split(s, sep), sep) == s
    decreases |s|
  {
    if s != [] {
      JoinSplit(s[1..], sep);
      var rest := Split(s[1..], sep);
      if s[0] != sep {
        if |rest| == 1 {
          assert Join(Split(s, sep), sep) == [s[0]] + rest[0];
        } else {
          assert Split(s, sep)[1..] == rest[1..];
          assert Join(Split(s, sep), sep) == [s[0]] + rest[0] + [sep] + Join(rest[1..], sep);
        }
      }
      assert s == [s[0]] + s[1..];
    }
  }

  /** Splitting a string without separators gives the string itself. */
  lemma {:induction false} SplitWithoutSeparator(s: string, sep: char)
    requires forall k :: 0 <= k < |s| ==> s[k] != sep
    ensures Split(s, sep) == [s]
    decreases |s|
  {
    if s != [] {
      SplitWithoutSeparator(s[1..], sep);
      assert [s[0]] + s[1..] == s;
    }
  }

  /** A separator between two strings splits exactly there. */
  lemma {:induction false} SplitAppend(a: string, b: string, sep: char)
    ensures Split(a + [sep] + b, sep) == Split(a, sep) + Split(b, sep)
    decreases |a|
  {
    if a == [] {
      assert a + [sep] + b == [sep] + b;
      assert ([sep] + b)[1..] == b;
    } else {
      var t := a + [sep] + b;
      assert t[0] == a[0] && t[1..] == a[1..] + [sep] + b;
      SplitAppend(a[1..], b, sep);
    }
  }

  /** Each line followed by the separator, as text built with `+= line + sep`. */
  function Terminated(lines: seq<string>, sep: char): string
    decreases |lines|
  {
    if lines == [] then [] else lines[0] + [sep] + Terminated(lines[1..], sep)
  }

  lemma {:induction false} TerminatedAppend(lines: seq<string>, line: string, sep: char)
    ensures Terminated(lines + [line], sep) == Terminated(lines, sep) + line + [sep]
    decreases |lines|
  {
    if lines == [] {
      assert [line][1..] == [];
    } else {
      assert (lines + [line])[1..] == lines[1..] + [line];
      TerminatedAppend(lines[1..], line, sep);
    }
  }

  lemma {:induction false} TerminatedConcat(a: seq<string>, b: seq<string>, sep: char)
    ensures Terminated(a + b, sep) == Terminated(a, sep) + Terminated(b, sep)
    decreases |a|
  {
    if a == [] {
      assert a + b == b;
    } else {
      assert (a + b)[1..] == a[1..] + b;
      TerminatedConcat(a[1..], b, sep);
    }
  }

  /** Splitting terminated lines without separators gives the lines back, and one empty piece after the last. */
  lemma {:induction false} SplitTerminated(lines: seq<string>, sep: char)
    requires forall i, k :: 0 <= i < |lines| && 0 <= k < |lines[i]| ==> lines[i][k] != sep
    ensures Split(Terminated(lines, sep), sep) == lines + [[]]
    decreases |lines|
  {
    if lines != [] {
      SplitTerminated(lines[1..], sep);
      SplitAppend(lines[0], Terminated(lines[1..], sep), sep);
      SplitWithoutSeparator(lines[0], sep);
      assert lines == [lines[0]] + lines[1..];
    }
  }

  /** A character that is not the separator occurs in a join only if it occurs in a part. */
  lemma {:induction false} JoinAvoids(parts: seq<string>, sep: char, c: char)
    requires |parts| >= 1 && c != sep
    requires forall i, k :: 0 <= i < |parts| && 0 <= k < |parts[i]| ==> parts[i][k] != c
    ensures forall k :: 0 <= k < |Join(parts, sep)| ==> Join(parts, sep)[k] != c
    decreases |parts|
  {
    if |parts| > 1 {
      JoinAvoids(parts[1..], sep, c);
      var j := Join(parts, sep);
      forall k | 0 <= k < |j|
        ensures j[k] != c
      {
        if k >= |parts[0]| + 1 {
          assert j[k] == Join(parts[1..], sep)[k - |parts[0]| - 1];
        }
      }
    }
  }

  /**
   * `s.split(/\\s+/)`: the pieces between maximal runs of white space; a
   * leading or trailing run gives an empty first or last piece.
   */
  function Words(s: string): (words: seq<string>)
    ensures |words| >= 1
    ensures forall i, k :: 0 <= i < |words| && 0 <= k < |words[i]| ==> !IsSpace(words[i][k])
    decreases |s|
  {
    if s == [] then [[]]
    else if IsSpace(s[0]) then [[]] + Words(TrimStart(s))
    else
      var rest := Words(s[1..]);
      [[s[0]] + rest[0]] + rest[1..]
  }

  /** A piece after the first begins right after a run of white space, so it is empty only at the end. */
  lemma {:induction false} WordsAfterFirstNonEmpty(s: string)
    requires s == [] || !IsSpace(s[|s| - 1])
    ensures forall i :: 1 <= i < |Words(s)| ==> Words(s)[i] != []
    decreases |s|
  {
    if s != [] {
      if IsSpace(s[0]) {
        var t := TrimStart(s);
        assert t != [];
        assert t[|t| - 1] == s[|s| - 1];
        WordsAfterFirstNonEmpty(t);
        assert Words(t)[0] != [] by {
          WordsStartsWithWord(t);
        }
      } else {
        WordsAfterFirstNonEmpty(s[1..]);
      }
    }
  }

  /** A string that starts with a non-space character has a non-empty first piece. */
  lemma WordsStartsWithWord(s: string)
    requires s != [] && !IsSpace(s[0])
    ensures Words(s)[0] != [] && Words(s)[0][0] == s[0]
  {
  }

  /** A trimmed, non-empty line splits into non-empty words without white space. */
  lemma WordsOfTrimmed(s: string)
    requires s != [] && !IsSpace(s[0]) && !IsSpace(s[|s| - 1])
    ensures forall i :: 0 <= i < |Words(s)| ==> Words(s)[i] != []
  {
    WordsStartsWithWord(s);
    WordsAfterFirstNonEmpty(s);
  }

  predicate StartsWith(s: string, prefix: string) {
    |prefix| <= |s| && s[..|prefix|] == prefix
  }

  /** `s` contains `p` as a contiguous piece: the regular expression test for a plain pattern. */
  predicate Contains(s: string, p: string)
    decreases |s|
  {
    StartsWith(s, p) || (|s| > 0 && Contains(s[1..], p))
  }

  function LowerChar(c: char): char {
    if 'A' <= c <= 'Z' then (c as int + 32) as char else c
  }

  /** `toLowerCase` on ASCII letters. */
  function ToLower(s: string): (r: string)
    ensures |r| == |s|
    ensures forall k :: 0 <= k < |s| ==> r[k] == LowerChar(s[k])
  {
    seq(|s|, k requires 0 <= k < |s| => LowerChar(s[k]))
  }
}
