/** Line- and separator-oriented string building, with the splitting that undoes it. */
module Text {

  const CRLF: string := "\r\n"

  /** Each line followed by CR LF, concatenated: what repeated `string + line + "\r\n"` builds. */
  function JoinCrlf(lines: seq<string>): string
  {
    if lines == [] then [] else lines[0] + CRLF + JoinCrlf(lines[1..])
  }

  predicate HasNoCr(s: string)
  {
    forall i :: 0 <= i < |s| ==> s[i] != '\r'
  }

  /** The text before the first CR LF, and what follows that CR LF (all of `s` when there is none). */
  function TakeLine(s: string): (r: (string, string))
    ensures |r.1| <= |s|
    ensures s != [] ==> |r.1| < |s| || r.0 == s
    decreases |s|
  {
    if s == [] then ([], [])
    else if |s| >= 2 && s[0] == '\r' && s[1] == '\n' then ([], s[2..])
    else
      var (line, rest) := TakeLine(s[1..]);
      ([s[0]] + line, rest)
  }

  /** Splits text into CR LF terminated lines; a trailing fragment without a terminator is a line too. */
  function SplitCrlf(s: string): seq<string>
    decreases |s|
  {
    if s == [] then []
    else
      var (line, rest) := TakeLine(s);
      if |rest| < |s| then [line] + SplitCrlf(rest) else [s]
  }

  lemma {:induction false} TakeTerminatedLine(line: string, rest: string)
    requires HasNoCr(line)
    ensures TakeLine(line + CRLF + rest) == (line, rest)
    decreases |line|
  {
    var s := line + CRLF + rest;
    if line == [] {
      assert s == CRLF + rest;
      assert s[2..] == rest;
    } else {
      assert s[1..] == line[1..] + CRLF + rest;
      TakeTerminatedLine(line[1..], rest);
      assert [line[0]] + line[1..] == line;
    }
  }

  /** Splitting undoes joining when no line holds a carriage return. */
  lemma {:induction false} SplitJoinCrlf(lines: seq<string>)
    requires forall i :: 0 <= i < |lines| ==> HasNoCr(lines[i])
    ensures SplitCrlf(JoinCrlf(lines)) == lines
    decreases |lines|
  {
    if lines != [] {
      var rest := JoinCrlf(lines[1..]);
      TakeTerminatedLine(lines[0], rest);
      SplitJoinCrlf(lines[1..]);
      assert [lines[0]] + lines[1..] == lines;
    }
  }

  /** The joined text begins with the first line and its terminator. */
  lemma JoinCrlfStartsWith(lines: seq<string>)
    requires lines != []
    ensures lines[0] + CRLF <= JoinCrlf(lines)
  {
  }

  /** A suffix of `tail` is a suffix of anything ending in `tail`. */
  lemma SuffixOfConcat(a: string, tail: string, t: string)
    requires |t| <= |tail| && tail[|tail| - |t|..] == t
    ensures |t| <= |a + tail| && (a + tail)[|a + tail| - |t|..] == t
  {
    assert (a + tail)[|a + tail| - |t|..] == tail[|tail| - |t|..];
  }

  /** The joined text ends with the last line and its terminator. */
  lemma {:induction false} JoinCrlfEndsWith(lines: seq<string>)
    requires lines != []
    ensures var s := JoinCrlf(lines); var t := lines[|lines| - 1] + CRLF;
      |t| <= |s| && s[|s| - |t|..] == t
    decreases |lines|
  {
    var t := lines[|lines| - 1] + CRLF;
    if |lines| > 1 {
      JoinCrlfEndsWith(lines[1..]);
      assert lines[1..][|lines[1..]| - 1] == lines[|lines| - 1];
      SuffixOfConcat(lines[0] + CRLF, JoinCrlf(lines[1..]), t);
    } else {
      assert JoinCrlf(lines) == t + [];
    }
  }

  /** The parts separated by single `sep` characters. */
  function JoinWith(parts: seq<string>, sep: char): string
    requires parts != []
  {
    if |parts| == 1 then parts[0] else parts[0] + [sep] + JoinWith(parts[1..], sep)
  }

  /** `s` cut at every `sep`; there is always at least one part. */
  function SplitOn(s: string, sep: char): (parts: seq<string>)
    ensures |parts| >= 1
  {
    if s == [] then [[]]
    else
      var tail := SplitOn(s[1..], sep);
      if s[0] == sep then [[]] + tail else [[s[0]] + tail[0]] + tail[1..]
  }

  /** The number of occurrences of `c` in `s`. */
  function Count(s: string, c: char): nat
  {
    if s == [] then 0 else (if s[0] == c then 1 else 0) + Count(s[1..], c)
  }

  predicate Lacks(s: string, c: char)
  {
    forall i :: 0 <= i < |s| ==> s[i] != c
  }

  /** Cutting at a separator always yields one part more than there are separators. */
  lemma {:induction false} SplitOnLength(s: string, sep: char)
    ensures |SplitOn(s, sep)| == Count(s, sep) + 1
    decreases |s|
  {
    if s != [] {
      SplitOnLength(s[1..], sep);
    }
  }

  lemma {:induction false} SplitOnPlain(p: string, sep: char)
    requires Lacks(p, sep)
    ensures SplitOn(p, sep) == [p]
    decreases |p|
  {
    if p != [] {
      SplitOnPlain(p[1..], sep);
      assert [p[0]] + p[1..] == p;
    }
  }

  lemma {:induction false} SplitOnSeparated(p: string, rest: string, sep: char)
    requires Lacks(p, sep)
    ensures SplitOn(p + [sep] + rest, sep) == [p] + SplitOn(rest, sep)
    decreases |p|
  {
    var s := p + [sep] + rest;
    if p == [] {
      assert s[1..] == rest;
    } else {
      assert s[1..] == p[1..] + [sep] + rest;
      SplitOnSeparated(p[1..], rest, sep);
      assert [p[0]] + p[1..] == p;
    }
  }

  /** Splitting undoes joining when no part holds the separator. */
  lemma {:induction false} SplitJoinWith(parts: seq<string>, sep: char)
    requires parts != []
    requires forall i :: 0 <= i < |parts| ==> Lacks(parts[i], sep)
    ensures SplitOn(JoinWith(parts, sep), sep) == parts
    decreases |parts|
  {
    if |parts| == 1 {
      SplitOnPlain(parts[0], sep);
    } else {
      SplitOnSeparated(parts[0], JoinWith(parts[1..], sep), sep);
      SplitJoinWith(parts[1..], sep);
      assert [parts[0]] + parts[1..] == parts;
    }
  }
}
