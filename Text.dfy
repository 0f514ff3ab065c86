/**
 * Character classes of JavaScript regular expressions (without the `u`
 * flag), the ASCII case mappings, and the String.prototype operations the
 * setup scripts use: startsWith, includes, a literal global replace, and
 * splitting on /\r?\n/ and joining lines.
 */
module Text {

  /** RegExp `\w`: [A-Za-z0-9_]. */
  predicate IsWordChar(c: char) {
    IsAsciiAlnum(c) || c == '_'
  }

  predicate IsAsciiLetter(c: char) {
    'a' <= c <= 'z' || 'A' <= c <= 'Z'
  }

  predicate IsAsciiDigit(c: char) {
    '0' <= c <= '9'
  }

  predicate IsAsciiAlnum(c: char) {
    IsAsciiLetter(c) || IsAsciiDigit(c)
  }

  /** RegExp `\s`: the WhiteSpace and LineTerminator code points of ECMAScript. */
  predicate IsSpace(c: char) {
    || c == '\t' || c == '\n' || c == '\U{000B}' || c == '\U{000C}' || c == '\r'
    || c == ' ' || c == '\U{00A0}' || c == '\U{1680}' || '\U{2000}' <= c <= '\U{200A}'
    || c == '\U{2028}' || c == '\U{2029}' || c == '\U{202F}' || c == '\U{205F}'
    || c == '\U{3000}' || c == '\U{FEFF}'
  }

  /** The characters RegExp `.` does not match (without the `s` flag). */
  predicate IsLineTerminator(c: char) {
    c == '\n' || c == '\r' || c == '\U{2028}' || c == '\U{2029}'
  }

  function ToUpperAscii(c: char): (u: char)
    ensures IsAsciiAlnum(c) <==> IsAsciiAlnum(u)
    ensures !('a' <= u <= 'z')
  {
    if 'a' <= c <= 'z' then (c as int - 32) as char else c
  }

  function ToLowerAscii(c: char): (l: char)
    ensures IsAsciiAlnum(c) <==> IsAsciiAlnum(l)
    ensures !('A' <= l <= 'Z')
  {
    if 'A' <= c <= 'Z' then (c as int + 32) as char else c
  }

  /** String.prototype.toLowerCase, on the ASCII range. */
  function LowerString(s: string): (r: string)
    ensures |r| == |s|
    ensures forall i :: 0 <= i < |s| ==> r[i] == ToLowerAscii(s[i])
  {
    if s == [] then [] else [ToLowerAscii(s[0])] + LowerString(s[1..])
  }

  /** Text without upper-case ASCII letters is its own lower case. */
  lemma LowerStringOfLower(s: string)
    requires forall i :: 0 <= i < |s| ==> !('A' <= s[i] <= 'Z')
    ensures LowerString(s) == s
  {
  }

  predicate StartsWith(s: string, prefix: string) {
    |prefix| <= |s| && s[..|prefix|] == prefix
  }

  predicate EndsWith(s: string, suffix: string) {
    |suffix| <= |s| && s[|s| - |suffix|..] == suffix
  }

  /** String.prototype.includes. */
  predicate Contains(s: string, t: string)
    decreases |s|
  {
    StartsWith(s, t) || (s != [] && Contains(s[1..], t))
  }

  /** The length of the longest prefix of `s` whose characters all satisfy `p`. */
  function RunLength(s: string, p: char -> bool): (n: nat)
    ensures n <= |s|
    ensures forall i :: 0 <= i < n ==> p(s[i])
    ensures n < |s| ==> !p(s[n])
  {
    if s == [] || !p(s[0]) then 0 else 1 + RunLength(s[1..], p)
  }

  lemma AppendAssoc<T>(a: seq<T>, b: seq<T>, c: seq<T>)
    ensures a + b + c == a + (b + c)
  {
  }

  /** Putting the first element back in front of the rest. */
  lemma ConsRest<T>(s: seq<T>, u: seq<T>)
    requires s != []
    ensures [s[0]] + (s[1..] + u) == s + u
  {
    assert [s[0]] + s[1..] == s;
  }

  /** A prefix of `p` characters followed by one that is not: the run is the prefix. */
  lemma {:induction false} RunLengthOfPrefix(a: string, b: string, p: char -> bool)
    requires forall i :: 0 <= i < |a| ==> p(a[i])
    requires b == [] || !p(b[0])
    ensures RunLength(a + b, p) == |a|
  {
    if a == [] {
      assert a + b == b;
    } else {
      assert (a + b)[1..] == a[1..] + b;
      RunLengthOfPrefix(a[1..], b, p);
    }
  }

  /** An occurrence at any offset makes `includes` true. */
  lemma {:induction false} ContainsAt(s: string, t: string, k: nat)
    requires k <= |s| && StartsWith(s[k..], t)
    ensures Contains(s, t)
    decreases k
  {
    if k == 0 {
      assert s[0..] == s;
    } else {
      assert s[1..][k - 1..] == s[k..];
      ContainsAt(s[1..], t, k - 1);
    }
  }

  /** Text between a head and a tail occurs in the whole. */
  lemma ContainsMiddle(head: string, t: string, tail: string)
    ensures Contains(head + t + tail, t)
  {
    var s := head + t + tail;
    assert s[|head|..][..|t|] == t;
    ContainsAt(s, t, |head|);
  }

  /** `c` does not occur in `s`, checked character by character. */
  predicate Lacks(s: string, c: char)
    decreases |s|
  {
    s == [] || (s[0] != c && Lacks(s[1..], c))
  }

  lemma {:induction false} LacksMeansNotIn(s: string, c: char)
    requires Lacks(s, c)
    ensures c !in s
    decreases |s|
  {
    if s != [] {
      LacksMeansNotIn(s[1..], c);
      assert s == [s[0]] + s[1..];
    }
  }

  /** A string that lacks the first character of `t` does not include `t`. */
  lemma {:induction false} NotContainsWithoutFirst(s: string, t: string)
    requires t != [] && t[0] !in s
    ensures !Contains(s, t)
    decreases |s|
  {
    if s != [] {
      assert s[0] != t[0];
      NotContainsWithoutFirst(s[1..], t);
    }
  }

  /** The characters of `s` that satisfy `keep`, in order. */
  function Filter(s: string, keep: char -> bool): (r: string)
    ensures |r| <= |s|
    ensures forall i :: 0 <= i < |r| ==> keep(r[i]) && r[i] in s
  {
    if s == [] then []
    else if keep(s[0]) then [s[0]] + Filter(s[1..], keep)
    else Filter(s[1..], keep)
  }

  lemma {:induction false} FilterConcat(a: string, b: string, keep: char -> bool)
    ensures Filter(a + b, keep) == Filter(a, keep) + Filter(b, keep)
  {
    if a != [] {
      assert (a + b)[0] == a[0];
      assert (a + b)[1..] == a[1..] + b;
      FilterConcat(a[1..], b, keep);
    } else {
      assert a + b == b;
    }
  }

  lemma {:induction false} FilterKeepsAll(s: string, keep: char -> bool)
    requires forall i :: 0 <= i < |s| ==> keep(s[i])
    ensures Filter(s, keep) == s
  {
    if s != [] {
      FilterKeepsAll(s[1..], keep);
    }
  }

  /**
   * String.prototype.replace with a global pattern that is a literal
   * token: occurrences are found left to right and do not overlap.
   */
  function ReplaceAll(s: string, token: string, replacement: string): (r: string)
    requires token != []
    decreases |s|
  {
    if s == [] then []
    else if StartsWith(s, token) then replacement + ReplaceAll(s[|token|..], token, replacement)
    else [s[0]] + ReplaceAll(s[1..], token, replacement)
  }

  /** Text in which the token does not occur is left unchanged. */
  lemma {:induction false} ReplaceAllWithoutToken(s: string, token: string, replacement: string)
    requires token != []
    requires !Contains(s, token)
    ensures ReplaceAll(s, token, replacement) == s
    decreases |s|
  {
    if s != [] {
      ReplaceAllWithoutToken(s[1..], token, replacement);
    }
  }

  /**
   * The scan emits the text before an occurrence unchanged, then the
   * replacement: an occurrence of the token that the scan meets first is
   * replaced, provided no earlier occurrence straddles it.
   */
  lemma {:induction false} ReplaceAllAtOccurrence(head: string, token: string, replacement: string, tail: string)
    requires token != []
    requires forall i :: 0 <= i < |head| ==> !StartsWith((head + token + tail)[i..], token)
    ensures ReplaceAll(head + token + tail, token, replacement) == head + replacement + ReplaceAll(tail, token, replacement)
  {
    var s := head + token + tail;
    if head == [] {
      assert s == token + tail;
      assert StartsWith(s, token);
      assert s[|token|..] == tail;
    } else {
      assert s[0..] == s;
      assert !StartsWith(s, token);
      assert s[1..] == head[1..] + token + tail;
      forall i | 0 <= i < |head[1..]|
        ensures !StartsWith((head[1..] + token + tail)[i..], token)
      {
        assert (head[1..] + token + tail)[i..] == s[i + 1..];
      }
      ReplaceAllAtOccurrence(head[1..], token, replacement, tail);
    }
  }

  /** String.prototype.split(/\r?\n/). */
  function SplitLines(s: string): (lines: seq<string>)
    ensures |lines| >= 1
    ensures forall i :: 0 <= i < |lines| ==> '\n' !in lines[i]
    decreases |s|
  {
    if s == [] then [[]]
    else if s[0] == '\n' then [[]] + SplitLines(s[1..])
    else if s[0] == '\r' && |s| >= 2 && s[1] == '\n' then [[]] + SplitLines(s[2..])
    else
      var rest := SplitLines(s[1..]);
      [[s[0]] + rest[0]] + rest[1..]
  }

  /** Array.prototype.join(sep). */
  function Join(parts: seq<string>, sep: string): (s: string)
    decreases |parts|
  {
    if parts == [] then []
    else if |parts| == 1 then parts[0]
    else parts[0] + sep + Join(parts[1..], sep)
  }

  /** Joining a line in front of at least one other puts the separator between them. */
  lemma JoinFirst(x: string, lines: seq<string>, sep: string)
    requires |lines| >= 1
    ensures Join([x] + lines, sep) == x + (sep + Join(lines, sep))
  {
    assert ([x] + lines)[1..] == lines;
  }

  /** The line endings os.EOL can be. */
  predicate IsEol(eol: string) {
    eol == "\n" || eol == "\r\n"
  }

  /**
   * A line followed by a line ending (and anything) splits off as that
   * line, provided a bare "\n" ending cannot be read as "\r\n".
   */
  lemma {:induction false} SplitAfterLine(line: string, eol: string, rest: string)
    requires IsEol(eol)
    requires '\n' !in line
    requires eol == "\n" ==> line == [] || line[|line| - 1] != '\r'
    ensures SplitLines(line + eol + rest) == [line] + SplitLines(rest)
  {
    var s := line + eol + rest;
    if line == [] {
      assert s == eol + rest;
      if eol == "\n" {
        assert s[1..] == rest;
      } else {
        assert s[2..] == rest;
      }
    } else {
      assert s[0] == line[0];
      assert s[1..] == line[1..] + eol + rest;
      assert line[0] != '\n';
      assert s[0] == '\r' ==> s[1] != '\n';
      SplitAfterLine(line[1..], eol, rest);
      assert [line[0]] + line[1..] == line;
    }
  }

  /** A line ending at the start splits off an empty line. */
  lemma SplitAfterEmptyLine(eol: string, rest: string)
    requires IsEol(eol)
    ensures SplitLines(eol + rest) == [[]] + SplitLines(rest)
  {
    if eol == "\n" {
      assert (eol + rest)[1..] == rest;
    } else {
      assert (eol + rest)[2..] == rest;
    }
  }

  /** A string without "\n" is one line. */
  lemma {:induction false} SplitSingleLine(line: string)
    requires '\n' !in line
    ensures SplitLines(line) == [line]
  {
    if line != [] {
      SplitSingleLine(line[1..]);
      assert [line[0]] + line[1..] == line;
    }
  }

  /** Splitting undoes joining, for lines that a line ending cannot merge with. */
  lemma {:induction false} SplitJoinLines(lines: seq<string>, eol: string)
    requires |lines| >= 1
    requires IsEol(eol)
    requires forall i :: 0 <= i < |lines| ==> '\n' !in lines[i]
    requires eol == "\n" ==> forall i :: 0 <= i < |lines| ==> lines[i] == [] || lines[i][|lines[i]| - 1] != '\r'
    ensures SplitLines(Join(lines, eol)) == lines
    decreases |lines|
  {
    if |lines| == 1 {
      SplitSingleLine(lines[0]);
    } else {
      var rest := Join(lines[1..], eol);
      assert Join(lines, eol) == lines[0] + eol + rest;
      SplitAfterLine(lines[0], eol, rest);
      SplitJoinLines(lines[1..], eol);
      assert [lines[0]] + lines[1..] == lines;
    }
  }

  function DigitChar(d: nat): (c: char)
    requires d < 10
    ensures IsAsciiDigit(c)
  {
    ('0' as int + d) as char
  }

  /** Number.prototype.toString on a non-negative integer. */
  function NatToString(n: nat): (s: string)
    ensures s != [] && IsAsciiDigit(s[|s| - 1])
    ensures forall i :: 0 <= i < |s| ==> IsAsciiDigit(s[i])
  {
    if n < 10 then [DigitChar(n)] else NatToString(n / 10) + [DigitChar(n % 10)]
  }

  /** Number.prototype.toString on an integer below 10^21 in magnitude. */
  function IntToString(n: int): (s: string)
    ensures s != [] && IsAsciiDigit(s[|s| - 1])
    ensures '\n' !in s
  {
    if n < 0 then "-" + NatToString(-n) else NatToString(n)
  }
}
