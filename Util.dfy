/**
 * The pure helpers of scripts/util.ts (copied verbatim into
 * scripts/setup.ts): toPascalCase and getSafePackageName, each regular
 * expression written out as a left-to-right scan, getUrlFromRepo, and the
 * text writeJSON puts in a file.
 */
module Util {
  import opened Wrappers
  import opened Text
  import opened Json

  // ---------------------------------------------------------------------
  // toPascalCase: five replaces applied in turn
  // ---------------------------------------------------------------------

  predicate IsSeparator(c: char) {
    c == '-' || c == '_'
  }

  predicate IsWordOrSpace(c: char) {
    IsWordChar(c) || IsSpace(c)
  }

  predicate IsNotSpace(c: char) {
    !IsSpace(c)
  }

  predicate AllAlnum(s: string) {
    forall i :: 0 <= i < |s| ==> IsAsciiAlnum(s[i])
  }

  predicate AllAlnumOrSpace(s: string) {
    forall i :: 0 <= i < |s| ==> IsAsciiAlnum(s[i]) || IsSpace(s[i])
  }

  /** .replace(/[-_]+/g, ' '): every run of separators becomes one space. */
  function CollapseSeparators(s: string): (r: string)
    ensures |r| <= |s|
    ensures forall i :: 0 <= i < |r| ==> !IsSeparator(r[i])
    decreases |s|
  {
    if s == [] then []
    else if IsSeparator(s[0]) then " " + CollapseSeparators(s[RunLength(s, IsSeparator)..])
    else [s[0]] + CollapseSeparators(s[1..])
  }

  /** .replace(/[^\w\s]/g, ''): only word characters and whitespace remain. */
  function DropPunctuation(s: string): (r: string)
    ensures |r| <= |s|
    ensures forall i :: 0 <= i < |r| ==> IsWordOrSpace(r[i]) && r[i] in s
  {
    Filter(s, IsWordOrSpace)
  }

  /**
   * .replace(/\s+(.)(\w+)/g, (m, c, w) => c.toUpperCase() + w.toLowerCase()).
   * At a whitespace run the greedy `\s+` first takes the whole run, so `.`
   * is the character after it; if no word character follows that, `\s+`
   * gives back its last character to `.` (not a line terminator) and the
   * word after the run must be the `\w+`. The whitespace of a match is
   * dropped, except the character taken by `.`.
   */
  function CapitalizeWords(s: string): (r: string)
    ensures |r| <= |s|
    decreases |s|
  {
    if s == [] then []
    else
      var step := CapitalizeStep(s);
      step.emitted + CapitalizeWords(s[step.next..])
  }

  /** What the scan emits at the start of `s`, and where it goes on. */
  datatype Step = Step(emitted: string, next: nat)

  function CapitalizeStep(s: string): (step: Step)
    requires s != []
    ensures 0 < step.next <= |s| && |step.emitted| <= step.next
  {
    if !IsSpace(s[0]) then Step([s[0]], 1)
    else
      var q := RunLength(s, IsSpace);
      if q + 1 < |s| && IsWordChar(s[q + 1]) then
        var e := q + 1 + RunLength(s[q + 1..], IsWordChar);
        Step([ToUpperAscii(s[q])] + LowerString(s[q + 1..e]), e)
      else if q >= 2 && !IsLineTerminator(s[q - 1]) && q < |s| && IsWordChar(s[q]) then
        var e := q + RunLength(s[q..], IsWordChar);
        Step([s[q - 1]] + LowerString(s[q..e]), e)
      else
        Step([s[0]], 1)
  }

  lemma {:induction false} AlnumOrSpaceConcat(a: string, b: string)
    requires AllAlnumOrSpace(a) && AllAlnumOrSpace(b)
    ensures AllAlnumOrSpace(a + b)
  {
    forall i | 0 <= i < |a + b| ensures IsAsciiAlnum((a + b)[i]) || IsSpace((a + b)[i]) {
      if i >= |a| {
        assert (a + b)[i] == b[i - |a|];
      }
    }
  }

  lemma {:induction false} LowerKeepsAlnumOrSpace(s: string, i: nat, j: nat)
    requires i <= j <= |s| && AllAlnumOrSpace(s)
    ensures AllAlnumOrSpace(LowerString(s[i..j]))
  {
    forall k | 0 <= k < j - i ensures IsAsciiAlnum(LowerString(s[i..j])[k]) || IsSpace(LowerString(s[i..j])[k]) {
      assert s[i..j][k] == s[i + k];
    }
  }

  lemma HeadKeepsAlnumOrSpace(c: char, s: string, i: nat, j: nat)
    requires IsAsciiAlnum(c) || IsSpace(c)
    requires i <= j <= |s| && AllAlnumOrSpace(s)
    ensures AllAlnumOrSpace([c] + LowerString(s[i..j]))
  {
    LowerKeepsAlnumOrSpace(s, i, j);
    AlnumOrSpaceConcat([c], LowerString(s[i..j]));
  }

  lemma CapitalizeStepKeepsAlnum(s: string)
    requires s != [] && AllAlnumOrSpace(s)
    ensures AllAlnumOrSpace(CapitalizeStep(s).emitted)
  {
    if IsSpace(s[0]) {
      var q := RunLength(s, IsSpace);
      if q + 1 < |s| && IsWordChar(s[q + 1]) {
        var e := q + 1 + RunLength(s[q + 1..], IsWordChar);
        HeadKeepsAlnumOrSpace(ToUpperAscii(s[q]), s, q + 1, e);
      } else if q >= 2 && !IsLineTerminator(s[q - 1]) && q < |s| && IsWordChar(s[q]) {
        var e := q + RunLength(s[q..], IsWordChar);
        HeadKeepsAlnumOrSpace(s[q - 1], s, q, e);
      }
    }
  }

  lemma {:induction false} CapitalizeWordsKeepsAlnum(s: string)
    requires AllAlnumOrSpace(s)
    ensures AllAlnumOrSpace(CapitalizeWords(s))
    decreases |s|
  {
    if s != [] {
      var step := CapitalizeStep(s);
      CapitalizeStepKeepsAlnum(s);
      CapitalizeWordsKeepsAlnum(s[step.next..]);
      AlnumOrSpaceConcat(step.emitted, CapitalizeWords(s[step.next..]));
    }
  }

  /** .replace(/\s/g, ''). */
  function DropSpaces(s: string): (r: string)
    ensures |r| <= |s|
    ensures forall i :: 0 <= i < |r| ==> !IsSpace(r[i]) && r[i] in s
  {
    Filter(s, IsNotSpace)
  }

  /** .replace(/\w/, s => s.toUpperCase()): only the first word character. */
  function UpperFirstWordChar(s: string): (r: string)
    ensures |r| == |s|
    ensures AllAlnum(s) ==> AllAlnum(r)
  {
    if s == [] then []
    else if IsWordChar(s[0]) then [ToUpperAscii(s[0])] + s[1..]
    else [s[0]] + UpperFirstWordChar(s[1..])
  }

  /** toPascalCase: the result holds ASCII letters and digits only. */
  function ToPascalCase(s: string): (r: string)
    ensures |r| <= |s|
    ensures AllAlnum(r)
  {
    var collapsed := CollapseSeparators(s);
    var cleaned := DropPunctuation(collapsed);
    assert AllAlnumOrSpace(cleaned);
    CapitalizeWordsKeepsAlnum(cleaned);
    UpperFirstWordChar(DropSpaces(CapitalizeWords(cleaned)))
  }

  lemma {:induction false} CollapseWithoutSeparators(s: string)
    requires forall i :: 0 <= i < |s| ==> !IsSeparator(s[i])
    ensures CollapseSeparators(s) == s
  {
    if s != [] {
      CollapseWithoutSeparators(s[1..]);
    }
  }

  lemma {:induction false} CapitalizeWithoutSpaces(s: string, t: string)
    requires forall i :: 0 <= i < |s| ==> !IsSpace(s[i])
    ensures CapitalizeWords(s + t) == s + CapitalizeWords(t)
  {
    if s != [] {
      var x := s + t;
      assert x[0] == s[0] && x[1..] == s[1..] + t;
      NonSpaceStep(x);
      CapitalizeWithoutSpaces(s[1..], t);
      ConsRest(s, CapitalizeWords(t));
    } else {
      assert s + t == t;
    }
  }

  /** A character other than whitespace is emitted as it is. */
  lemma NonSpaceStep(x: string)
    requires x != [] && !IsSpace(x[0])
    ensures CapitalizeWords(x) == [x[0]] + CapitalizeWords(x[1..])
  {
    assert CapitalizeStep(x) == Step([x[0]], 1);
  }

  lemma {:induction false} UpperFirstWordCharIdempotent(s: string)
    ensures UpperFirstWordChar(UpperFirstWordChar(s)) == UpperFirstWordChar(s)
  {
    if s != [] && !IsWordChar(s[0]) {
      UpperFirstWordCharIdempotent(s[1..]);
    }
  }

  /** On letters and digits only the first replace has an effect. */
  lemma AlnumPascalCase(t: string)
    requires AllAlnum(t)
    ensures ToPascalCase(t) == UpperFirstWordChar(t)
  {
    CollapseWithoutSeparators(t);
    FilterKeepsAll(t, IsWordOrSpace);
    CapitalizeWithoutSpaces(t, []);
    assert t + [] == t;
    FilterKeepsAll(t, IsNotSpace);
  }

  /** toPascalCase is idempotent. */
  lemma PascalCaseIdempotent(s: string)
    ensures ToPascalCase(ToPascalCase(s)) == ToPascalCase(s)
  {
    var collapsed := CollapseSeparators(s);
    var cleaned := DropPunctuation(collapsed);
    var x := DropSpaces(CapitalizeWords(cleaned));
    AlnumPascalCase(ToPascalCase(s));
    UpperFirstWordCharIdempotent(x);
  }

  /** A name already in PascalCase (letters and digits, not starting lower-case) is unchanged. */
  lemma PascalCaseKeepsPascalCase(t: string)
    requires AllAlnum(t)
    requires t != [] ==> !('a' <= t[0] <= 'z')
    ensures ToPascalCase(t) == t
  {
    AlnumPascalCase(t);
    if t != [] {
      assert [t[0]] + t[1..] == t;
    }
  }

  /**
   * What toPascalCase makes of a word that follows a separator: a word of
   * two or more characters is upper-cased first and lower-cased after; a
   * single character is left as it is.
   */
  function CapitalizeWord(w: string): string {
    if |w| < 2 then w else [ToUpperAscii(w[0])] + LowerString(w[1..])
  }

  function ConcatCapitalized(ws: seq<string>): string
    decreases |ws|
  {
    if ws == [] then [] else CapitalizeWord(ws[0]) + ConcatCapitalized(ws[1..])
  }

  predicate IsSeparatorRun(sep: string) {
    sep != [] && forall i :: 0 <= i < |sep| ==> IsSeparator(sep[i])
  }

  predicate AreWords(ws: seq<string>) {
    forall i :: 0 <= i < |ws| ==> ws[i] != [] && AllAlnum(ws[i])
  }

  /** " w1 w2 …": each word led by one space. */
  function SpaceLed(ws: seq<string>): string
    decreases |ws|
  {
    if ws == [] then [] else " " + ws[0] + SpaceLed(ws[1..])
  }

  /** "w0 s0 w1 s1 … wn": the words with a separator run of their own at each joint. */
  function Interleave(ws: seq<string>, seps: seq<string>): string
    requires |ws| == |seps| + 1
    decreases |seps|
  {
    if seps == [] then ws[0] else ws[0] + seps[0] + Interleave(ws[1..], seps[1..])
  }

  predicate AreSeparatorRuns(seps: seq<string>) {
    forall i :: 0 <= i < |seps| ==> IsSeparatorRun(seps[i])
  }

  lemma {:induction false} CollapseAroundSeparator(w: string, sep: string, t: string)
    requires forall i :: 0 <= i < |w| ==> !IsSeparator(w[i])
    requires IsSeparatorRun(sep)
    requires t == [] || !IsSeparator(t[0])
    ensures CollapseSeparators(w + sep + t) == w + " " + CollapseSeparators(t)
  {
    var s := w + sep + t;
    if w == [] {
      assert s == sep + t;
      RunLengthOfPrefix(sep, t, IsSeparator);
      assert s[|sep|..] == t;
    } else {
      assert s[0] == w[0];
      assert s[1..] == w[1..] + sep + t;
      CollapseAroundSeparator(w[1..], sep, t);
      assert [w[0]] + w[1..] == w;
    }
  }

  lemma {:induction false} CollapseJoined(ws: seq<string>, seps: seq<string>)
    requires |ws| == |seps| + 1 && AreWords(ws)
    requires AreSeparatorRuns(seps)
    ensures CollapseSeparators(Interleave(ws, seps)) == ws[0] + SpaceLed(ws[1..])
    decreases |seps|
  {
    assert ws[0] != [] && AllAlnum(ws[0]);
    if seps == [] {
      CollapseWithoutSeparators(ws[0]);
      assert SpaceLed(ws[1..]) == [];
    } else {
      var rest, restSeps := ws[1..], seps[1..];
      assert AreWords(rest) by {
        forall i | 0 <= i < |rest| ensures rest[i] != [] && AllAlnum(rest[i]) {
          assert rest[i] == ws[i + 1];
        }
      }
      assert AreSeparatorRuns(restSeps) by {
        forall i | 0 <= i < |restSeps| ensures IsSeparatorRun(restSeps[i]) {
          assert restSeps[i] == seps[i + 1];
        }
      }
      var t := Interleave(rest, restSeps);
      assert Interleave(ws, seps) == ws[0] + seps[0] + t;
      calc {
        CollapseSeparators(Interleave(ws, seps));
      == { InterleaveStartsWithFirst(rest, restSeps);
           CollapseAroundSeparator(ws[0], seps[0], t); }
        ws[0] + " " + CollapseSeparators(t);
      == { CollapseJoined(rest, restSeps); }
        ws[0] + " " + (rest[0] + SpaceLed(rest[1..]));
      == { assert SpaceLed(rest) == " " + rest[0] + SpaceLed(rest[1..]); }
        ws[0] + SpaceLed(rest);
      }
    }
  }

  lemma InterleaveStartsWithFirst(ws: seq<string>, seps: seq<string>)
    requires |ws| == |seps| + 1 && ws[0] != []
    ensures Interleave(ws, seps) != [] && Interleave(ws, seps)[0] == ws[0][0]
  {
  }

  lemma {:induction false} SpaceLedAlnumOrSpace(ws: seq<string>)
    requires AreWords(ws)
    ensures AllAlnumOrSpace(SpaceLed(ws))
    decreases |ws|
  {
    if ws != [] {
      SpaceLedAlnumOrSpace(ws[1..]);
      var rest := SpaceLed(ws[1..]);
      assert SpaceLed(ws) == " " + ws[0] + rest;
      forall i | 0 <= i < |SpaceLed(ws)|
        ensures IsAsciiAlnum(SpaceLed(ws)[i]) || IsSpace(SpaceLed(ws)[i])
      {
        if i == 0 {
        } else if i < 1 + |ws[0]| {
          assert SpaceLed(ws)[i] == ws[0][i - 1];
        } else {
          assert SpaceLed(ws)[i] == rest[i - 1 - |ws[0]|];
        }
      }
    }
  }

  /** In a space-led word the run of white space is that one space. */
  lemma SpaceLedRun(v: string, t: string)
    requires v != [] && AllAlnum(v)
    ensures RunLength(" " + v + t, IsSpace) == 1
  {
    assert " " + v + t == " " + (v + t);
    RunLengthOfPrefix(" ", v + t, IsSpace);
  }

  lemma LongWordStep(v: string, t: string)
    requires |v| >= 2 && AllAlnum(v)
    requires t == [] || t[0] == ' '
    ensures CapitalizeStep(" " + v + t) == Step(CapitalizeWord(v), |v| + 1)
  {
    var s := " " + v + t;
    SpaceLedRun(v, t);
    assert s[2] == v[1];
    assert s[2..] == v[1..] + t;
    RunLengthOfPrefix(v[1..], t, IsWordChar);
    assert s[2..|v| + 1] == v[1..];
  }

  lemma ShortWordStep(v: string, t: string)
    requires |v| == 1 && AllAlnum(v)
    requires t == [] || t[0] == ' '
    ensures CapitalizeStep(" " + v + t) == Step(" ", 1)
  {
    var s := " " + v + t;
    SpaceLedRun(v, t);
    assert |s| > 2 ==> s[2] == t[0];
  }

  lemma DropSpacesOfWord(w: string, t: string)
    requires AllAlnum(w)
    ensures DropSpaces(w + t) == w + DropSpaces(t)
  {
    FilterConcat(w, t, IsNotSpace);
    FilterKeepsAll(w, IsNotSpace);
  }

  lemma CapitalizeWordAlnum(v: string)
    requires AllAlnum(v)
    ensures AllAlnum(CapitalizeWord(v))
  {
  }

  /** A space-led word loses its space; a word of two or more characters is capitalised. */
  lemma CapitalizeAfterSpace(v: string, t: string)
    requires v != [] && AllAlnum(v)
    requires t == [] || t[0] == ' '
    ensures DropSpaces(CapitalizeWords(" " + v + t)) == CapitalizeWord(v) + DropSpaces(CapitalizeWords(t))
  {
    if |v| >= 2 {
      LongWordAfterSpace(v, t);
    } else {
      ShortWordAfterSpace(v, t);
    }
  }

  lemma LongWordAfterSpace(v: string, t: string)
    requires |v| >= 2 && AllAlnum(v)
    requires t == [] || t[0] == ' '
    ensures DropSpaces(CapitalizeWords(" " + v + t)) == CapitalizeWord(v) + DropSpaces(CapitalizeWords(t))
  {
    var s := " " + v + t;
    var w := CapitalizeWord(v);
    assert CapitalizeWords(s) == w + CapitalizeWords(t) by {
      LongWordStep(v, t);
      assert s[|v| + 1..] == t;
    }
    CapitalizeWordAlnum(v);
    DropSpacesOfWord(w, CapitalizeWords(t));
  }

  lemma ShortWordAfterSpace(v: string, t: string)
    requires |v| == 1 && AllAlnum(v)
    requires t == [] || t[0] == ' '
    ensures DropSpaces(CapitalizeWords(" " + v + t)) == CapitalizeWord(v) + DropSpaces(CapitalizeWords(t))
  {
    ShortWordWords(v, t);
    DropLeadingSpace(v, CapitalizeWords(t));
  }

  /** A space-led single character keeps its space, which the next replace drops. */
  lemma ShortWordWords(v: string, t: string)
    requires |v| == 1 && AllAlnum(v)
    requires t == [] || t[0] == ' '
    ensures CapitalizeWords(" " + v + t) == " " + (v + CapitalizeWords(t))
  {
    var s := " " + v + t;
    assert CapitalizeWords(s) == " " + CapitalizeWords(s[1..]) by {
      ShortWordStep(v, t);
      WordsOfStep(s, " ", 1);
    }
    assert s[1..] == v + t;
    assert CapitalizeWords(v + t) == v + CapitalizeWords(t) by {
      assert !IsSpace(v[0]);
      CapitalizeWithoutSpaces(v, t);
    }
  }

  /** The scan goes on after the step it takes at the start. */
  lemma WordsOfStep(x: string, emitted: string, next: nat)
    requires x != [] && CapitalizeStep(x) == Step(emitted, next)
    ensures CapitalizeWords(x) == emitted + CapitalizeWords(x[next..])
  {
  }

  lemma DropLeadingSpace(v: string, c: string)
    requires AllAlnum(v)
    ensures DropSpaces(" " + (v + c)) == v + DropSpaces(c)
  {
    FilterConcat(" ", v + c, IsNotSpace);
    DropSpacesOfWord(v, c);
  }

  lemma {:induction false} CapitalizeSpaceLed(ws: seq<string>)
    requires AreWords(ws)
    ensures DropSpaces(CapitalizeWords(SpaceLed(ws))) == ConcatCapitalized(ws)
    decreases |ws|
  {
    if ws != [] {
      var t := SpaceLed(ws[1..]);
      assert SpaceLed(ws) == " " + ws[0] + t;
      CapitalizeAfterSpace(ws[0], t);
      CapitalizeSpaceLed(ws[1..]);
    }
  }

  /**
   * Words of letters and digits joined by separator runs: the first word
   * keeps its case with its first character upper-cased, and every later
   * word is capitalised (a single-character word is left as it is).
   */
  lemma SpacedWordsPipeline(first: string, rest: seq<string>)
    requires first != [] && AllAlnum(first) && AreWords(rest)
    ensures DropSpaces(CapitalizeWords(DropPunctuation(first + SpaceLed(rest)))) == first + ConcatCapitalized(rest)
  {
    var spaced := first + SpaceLed(rest);
    SpaceLedAlnumOrSpace(rest);
    AlnumOrSpaceConcat(first, SpaceLed(rest));
    FilterKeepsAll(spaced, IsWordOrSpace);
    CapitalizeWithoutSpaces(first, SpaceLed(rest));
    CapitalizeSpaceLed(rest);
    DropSpacesOfWord(first, CapitalizeWords(SpaceLed(rest)));
  }

  lemma UpperFirstOfWord(first: string, tail: string)
    requires first != [] && AllAlnum(first)
    ensures UpperFirstWordChar(first + tail) == [ToUpperAscii(first[0])] + first[1..] + tail
  {
    var x := first + tail;
    assert x[0] == first[0];
    assert x[1..] == first[1..] + tail;
  }

  lemma PascalCaseOfWords(ws: seq<string>, seps: seq<string>)
    requires |ws| == |seps| + 1 && AreWords(ws)
    requires AreSeparatorRuns(seps)
    ensures ToPascalCase(Interleave(ws, seps)) == [ToUpperAscii(ws[0][0])] + ws[0][1..] + ConcatCapitalized(ws[1..])
  {
    var first, rest := ws[0], ws[1..];
    assert AreWords(rest) by {
      forall i | 0 <= i < |rest| ensures rest[i] != [] && AllAlnum(rest[i]) {
        assert rest[i] == ws[i + 1];
      }
    }
    CollapseJoined(ws, seps);
    SpacedWordsPipeline(first, rest);
    UpperFirstOfWord(first, ConcatCapitalized(rest));
  }

  /** Two words joined by a separator run. */
  lemma PascalCaseOfTwoWords(a: string, sep: string, b: string)
    requires a != [] && AllAlnum(a) && b != [] && AllAlnum(b)
    requires IsSeparatorRun(sep)
    ensures ToPascalCase(a + sep + b) == [ToUpperAscii(a[0])] + a[1..] + CapitalizeWord(b)
  {
    var ws := [a, b];
    assert ws[1..] == [b];
    assert Interleave(ws, [sep]) == a + sep + b;
    PascalCaseOfWords(ws, [sep]);
    assert ConcatCapitalized([b]) == CapitalizeWord(b) + ConcatCapitalized([]);
  }

  /** A word of lower-case letters. */
  predicate IsLowerWord(w: string) {
    w != [] && forall i :: 0 <= i < |w| ==> 'a' <= w[i] <= 'z'
  }

  lemma CapitalizeLowerWord(w: string)
    requires IsLowerWord(w)
    ensures AllAlnum(w)
    ensures |w| >= 2 ==> CapitalizeWord(w) == [ToUpperAscii(w[0])] + w[1..]
  {
    if |w| >= 2 {
      LowerStringOfLower(w[1..]);
    }
  }

  /** Two lower-case words joined by "-". */
  lemma PascalCaseOfLowerWords(a: string, b: string)
    requires IsLowerWord(a) && IsLowerWord(b)
    ensures ToPascalCase(a + "-" + b) == [ToUpperAscii(a[0])] + a[1..] + CapitalizeWord(b)
  {
    CapitalizeLowerWord(a);
    CapitalizeLowerWord(b);
    PascalCaseOfTwoWords(a, "-", b);
  }

  /** "cool-tool" becomes "CoolTool". */
  lemma PascalCaseExample(u: string)
    requires u == "cool-tool"
    ensures ToPascalCase(u) == "CoolTool"
  {
    var a, b := "cool", "tool";
    assert u == a + "-" + b;
    assert IsLowerWord(a) && IsLowerWord(b);
    PascalCaseOfLowerWords(a, b);
    CapitalizeLowerWord(b);
    CoolToolSpelling(a, b);
  }

  lemma CoolToolSpelling(a: string, b: string)
    requires a == "cool" && b == "tool"
    ensures [ToUpperAscii(a[0])] + a[1..] + ([ToUpperAscii(b[0])] + b[1..]) == "CoolTool"
  {
    assert [ToUpperAscii(a[0])] + a[1..] == "Cool";
    assert [ToUpperAscii(b[0])] + b[1..] == "Tool";
  }

  /** "my-template" becomes "MyTemplate". */
  lemma PascalCaseTemplateExample(u: string)
    requires u == "my-template"
    ensures ToPascalCase(u) == "MyTemplate"
  {
    var a, b := "my", "template";
    TemplateParts(u, a, b);
    PascalCaseOfLowerWords(a, b);
    CapitalizeLowerWord(b);
    TemplateSpelling(a, b);
  }

  lemma TemplateParts(u: string, a: string, b: string)
    requires u == "my-template" && a == "my" && b == "template"
    ensures u == a + "-" + b && IsLowerWord(a) && IsLowerWord(b)
  {
  }

  lemma TemplateSpelling(a: string, b: string)
    requires a == "my" && b == "template"
    ensures [ToUpperAscii(a[0])] + a[1..] + ([ToUpperAscii(b[0])] + b[1..]) == "MyTemplate"
  {
    assert [ToUpperAscii(a[0])] + a[1..] == "My";
    assert [ToUpperAscii(b[0])] + b[1..] == "Template";
  }

  /** A one-character word after a separator is not capitalised: "x-y" becomes "Xy". */
  lemma PascalCaseSingleCharacterWord(u: string)
    requires u == "x-y"
    ensures ToPascalCase(u) == "Xy"
  {
    var a, b := "x", "y";
    assert u == a + "-" + b;
    assert IsLowerWord(a) && IsLowerWord(b);
    PascalCaseOfLowerWords(a, b);
  }

  // ---------------------------------------------------------------------
  // getSafePackageName: name.toLowerCase().replace(
  //   /(^@.*\/)|((^[^a-zA-Z]+)|[^\w.-])|([^a-zA-Z0-9]+$)/g, '')
  // ---------------------------------------------------------------------

  /** [\w.-] */
  predicate IsSafeChar(c: char) {
    IsWordChar(c) || c == '.' || c == '-'
  }

  predicate IsNotAsciiLetter(c: char) {
    !IsAsciiLetter(c)
  }

  predicate IsNotLineTerminator(c: char) {
    !IsLineTerminator(c)
  }

  predicate NoAlnum(s: string) {
    forall i :: 0 <= i < |s| ==> !IsAsciiAlnum(s[i])
  }

  predicate NoUpper(s: string) {
    forall i :: 0 <= i < |s| ==> !('A' <= s[i] <= 'Z')
  }

  /** `a` can be obtained from `b` by deleting characters. */
  predicate IsSubsequence(a: string, b: string)
    decreases |b|
  {
    a == [] || (b != [] && ((a[0] == b[0] && IsSubsequence(a[1..], b[1..])) || IsSubsequence(a, b[1..])))
  }

  lemma {:induction false} SubsequenceOfSuffix(a: string, b: string, k: nat)
    requires k <= |b|
    requires IsSubsequence(a, b[k..])
    ensures IsSubsequence(a, b)
  {
    if k > 0 {
      assert b[k - 1..][1..] == b[k..];
      SubsequenceOfSuffix(a, b, k - 1);
    } else {
      assert b[0..] == b;
    }
  }

  /**
   * The two unanchored alternatives scanned from the left: a character
   * outside [\w.-] is dropped, and at the first kept position from which
   * no letter or digit remains, [^a-zA-Z0-9]+$ drops the whole rest.
   */
  function Scrub(s: string): (r: string)
    ensures forall i :: 0 <= i < |r| ==> IsSafeChar(r[i])
    ensures NoUpper(s) ==> NoUpper(r)
    ensures r == [] || IsAsciiAlnum(r[|r| - 1])
    ensures r == [] <==> NoAlnum(s)
    ensures IsSubsequence(r, s)
    decreases |s|
  {
    if s == [] then []
    else if !IsSafeChar(s[0]) then Scrub(s[1..])
    else if NoAlnum(s) then []
    else [s[0]] + Scrub(s[1..])
  }

  /** One past the last ASCII letter or digit of `s`; 0 when it has none. */
  function AlnumEnd(s: string): (n: nat)
    ensures n <= |s|
    ensures n == 0 <==> NoAlnum(s)
    ensures n > 0 ==> IsAsciiAlnum(s[n - 1]) && NoAlnum(s[n..])
    decreases |s|
  {
    if s == [] then 0
    else if NoAlnum(s[1..]) then
      assert forall i :: 1 <= i < |s| ==> s[i] == s[1..][i - 1];
      if IsAsciiAlnum(s[0]) then 1 else 0
    else
      assert s[1 + AlnumEnd(s[1..])..] == s[1..][AlnumEnd(s[1..])..];
      1 + AlnumEnd(s[1..])
  }

  /**
   * What the unanchored alternatives leave: the [\w.-] characters of the
   * input up to its last letter or digit, in order, and nothing else.
   */
  lemma {:induction false} ScrubKeepsSafeChars(s: string)
    ensures Scrub(s) == Filter(s[..AlnumEnd(s)], IsSafeChar)
    decreases |s|
  {
    if s != [] {
      ScrubKeepsSafeChars(s[1..]);
      if NoAlnum(s[1..]) {
        if IsAsciiAlnum(s[0]) {
          assert !NoAlnum(s);
          assert s[..1][1..] == [];
        }
      } else {
        assert !NoAlnum(s);
        assert s[..AlnumEnd(s)][1..] == s[1..][..AlnumEnd(s[1..])];
      }
    }
  }

  /** The last index of `c` in `s`. */
  function LastIndexOf(s: string, c: char): (r: Option<nat>)
    ensures r.Some? ==> r.value < |s| && s[r.value] == c
    ensures r.Some? ==> forall i :: r.value < i < |s| ==> s[i] != c
    ensures r.None? ==> forall i :: 0 <= i < |s| ==> s[i] != c
    decreases |s|
  {
    if s == [] then None
    else if s[|s| - 1] == c then Some(|s| - 1)
    else LastIndexOf(s[..|s| - 1], c)
  }

  /**
   * Where ^@.*\/ ends when it matches: `.*` is greedy over characters
   * other than line terminators, so the match runs to the last "/" before
   * the first line terminator.
   */
  function ScopeEnd(s: string): (j: Option<nat>)
    ensures j.Some? ==> 0 < j.value < |s| && s[0] == '@' && s[j.value] == '/'
  {
    if s == [] || s[0] != '@' then None
    else
      var e := 1 + RunLength(s[1..], IsNotLineTerminator);
      match LastIndexOf(s[1..e], '/')
      case None => None
      case Some(k) => Some(k + 1)
  }

  /**
   * Where the anchored alternatives of getSafePackageName stop: past the
   * scope's "/" when ^@.*\/ matches, otherwise past the leading run of
   * non-letters that ^[^a-zA-Z]+ removes.
   */
  function PrefixEnd(s: string): (k: nat)
    ensures k <= |s|
    ensures ScopeEnd(s).Some? ==> k == ScopeEnd(s).value + 1
    ensures ScopeEnd(s).None? ==> (forall i :: 0 <= i < k ==> !IsAsciiLetter(s[i])) && (k == |s| || IsAsciiLetter(s[k]))
  {
    match ScopeEnd(s)
    case Some(j) => j + 1
    case None => RunLength(s, IsNotAsciiLetter)
  }

  /**
   * getSafePackageName. At index 0 the anchored alternatives are tried
   * first (a scope up to its last "/", else a leading run of non-letters);
   * the rest of the string sees only the unanchored ones.
   */
  function GetSafePackageName(name: string): (r: string)
    ensures forall i :: 0 <= i < |r| ==> IsSafeChar(r[i]) && !('A' <= r[i] <= 'Z')
    ensures r == [] || IsAsciiAlnum(r[|r| - 1])
    ensures IsSubsequence(r, LowerString(name))
    ensures ScopeEnd(LowerString(name)).None? ==> r == [] || 'a' <= r[0] <= 'z'
  {
    var s := LowerString(name);
    var start := PrefixEnd(s);
    assert NoUpper(s);
    ScrubSuffix(s, start);
    Scrub(s[start..])
  }

  /**
   * The characters getSafePackageName keeps: the [\w.-] characters of the
   * lower-cased name after the stripped prefix, up to its last letter or
   * digit, in order, and nothing else.
   */
  lemma SafeNameKeepsSafeChars(name: string)
    ensures var s := LowerString(name);
      var t := s[PrefixEnd(s)..];
      GetSafePackageName(name) == Filter(t[..AlnumEnd(t)], IsSafeChar)
  {
    var s := LowerString(name);
    ScrubKeepsSafeChars(s[PrefixEnd(s)..]);
  }

  lemma ScrubSuffix(s: string, k: nat)
    requires k <= |s| && NoUpper(s)
    ensures NoUpper(Scrub(s[k..]))
    ensures IsSubsequence(Scrub(s[k..]), s)
    ensures k < |s| && IsAsciiLetter(s[k]) ==> Scrub(s[k..]) != [] && Scrub(s[k..])[0] == s[k] && 'a' <= s[k] <= 'z'
  {
    var t := s[k..];
    assert NoUpper(t) by {
      forall i | 0 <= i < |t| ensures !('A' <= t[i] <= 'Z') {
        assert t[i] == s[k + i];
      }
    }
    SubsequenceOfSuffix(Scrub(t), s, k);
    if k < |s| && IsAsciiLetter(s[k]) {
      assert t[0] == s[k];
      assert !NoAlnum(t);
    }
  }

  lemma {:induction false} ScrubKeepsSafeName(s: string)
    requires forall i :: 0 <= i < |s| ==> IsSafeChar(s[i])
    requires s == [] || IsAsciiAlnum(s[|s| - 1])
    ensures Scrub(s) == s
    decreases |s|
  {
    if s != [] {
      assert !NoAlnum(s);
      ScrubKeepsSafeName(s[1..]);
    }
  }

  lemma {:induction false} LowerStringConcat(a: string, b: string)
    ensures LowerString(a + b) == LowerString(a) + LowerString(b)
  {
    assert forall i :: 0 <= i < |a + b| ==> LowerString(a + b)[i] == (LowerString(a) + LowerString(b))[i];
  }

  /** The last `c` of a + [c] + b, when b has none, is the one right after a. */
  lemma {:induction false} LastIndexOfLast(a: string, c: char, b: string)
    requires c !in b
    ensures LastIndexOf(a + [c] + b, c) == Some(|a|)
    decreases |b|
  {
    var s := a + [c] + b;
    if b != [] {
      assert s[|s| - 1] == b[|b| - 1];
      assert s[..|s| - 1] == a + [c] + b[..|b| - 1];
      LastIndexOfLast(a, c, b[..|b| - 1]);
    }
  }

  lemma ScopeEndOf(scope: string, rest: string)
    requires forall i :: 0 <= i < |scope| ==> !IsLineTerminator(scope[i])
    requires forall i :: 0 <= i < |rest| ==> !IsLineTerminator(rest[i]) && rest[i] != '/'
    ensures ScopeEnd("@" + scope + "/" + rest) == Some(|scope| + 1)
  {
    var s := "@" + scope + "/" + rest;
    var t := scope + "/" + rest;
    assert s[1..] == t;
    assert t + [] == t;
    RunLengthOfPrefix(t, [], IsNotLineTerminator);
    assert s[1..1 + |t|] == t;
    LastIndexOfLast(scope, '/', rest);
  }

  lemma {:induction false} LowerKeepsOtherChars(s: string)
    ensures forall i :: 0 <= i < |s| ==> (IsLineTerminator(s[i]) <==> IsLineTerminator(LowerString(s)[i]))
    ensures forall i :: 0 <= i < |s| ==> (s[i] == '/' <==> LowerString(s)[i] == '/')
  {
  }

  /**
   * A scoped name loses everything up to the "/" after the scope: the
   * result is the scrubbed, lower-cased name after it, whatever the scope.
   */
  lemma ScopedNameDropsScope(scope: string, rest: string)
    requires forall i :: 0 <= i < |scope| ==> !IsLineTerminator(scope[i])
    requires forall i :: 0 <= i < |rest| ==> !IsLineTerminator(rest[i]) && rest[i] != '/'
    ensures GetSafePackageName("@" + scope + "/" + rest) == Scrub(LowerString(rest))
  {
    var ls, lr := LowerString(scope), LowerString(rest);
    LowerScoped(scope, rest);
    LowerKeepsOtherChars(scope);
    LowerKeepsOtherChars(rest);
    ScopeEndOf(ls, lr);
    SafeNameAfterScope("@" + scope + "/" + rest, "@" + ls + "/" + lr, |ls| + 1);
    assert ("@" + ls + "/" + lr)[|ls| + 2..] == lr;
  }

  lemma LowerScoped(scope: string, rest: string)
    ensures LowerString("@" + scope + "/" + rest) == "@" + LowerString(scope) + "/" + LowerString(rest)
  {
    LowerAround('@', scope, '/', rest);
  }

  lemma LowerAround(c: char, a: string, d: char, b: string)
    requires !('A' <= c <= 'Z') && !('A' <= d <= 'Z')
    ensures LowerString([c] + a + [d] + b) == [c] + LowerString(a) + [d] + LowerString(b)
  {
    LowerStringConcat([c] + a + [d], b);
    LowerStringConcat([c] + a, [d]);
    LowerStringConcat([c], a);
    assert LowerString([c]) == [c] && LowerString([d]) == [d];
  }

  /** The scope match ending at `j` is stripped and the rest scrubbed. */
  lemma SafeNameAfterScope(name: string, s: string, j: nat)
    requires LowerString(name) == s
    requires ScopeEnd(s) == Some(j)
    ensures GetSafePackageName(name) == Scrub(s[j + 1..])
  {
  }

  /** "@scope/Name" becomes "name". */
  lemma ScopedNameExample(n: string)
    requires n == "@scope/Name"
    ensures GetSafePackageName(n) == "name"
  {
    var scope, rest := "scope", "Name";
    assert n == "@" + scope + "/" + rest;
    ExampleParts(scope, rest);
    ScopedNameDropsScope(scope, rest);
    LowerName(rest);
    NameIsSafe(LowerString(rest));
  }

  lemma ExampleParts(scope: string, rest: string)
    requires scope == "scope" && rest == "Name"
    ensures forall i :: 0 <= i < |scope| ==> !IsLineTerminator(scope[i])
    ensures forall i :: 0 <= i < |rest| ==> !IsLineTerminator(rest[i]) && rest[i] != '/'
  {
  }

  lemma NameIsSafe(s: string)
    requires s == "name"
    ensures Scrub(s) == s
  {
    assert forall i :: 0 <= i < |s| ==> 'a' <= s[i] <= 'z';
    ScrubKeepsSafeName(s);
  }

  lemma LowerName(rest: string)
    requires rest == "Name"
    ensures LowerString(rest) == "name"
  {
    assert LowerString(rest)[0] == 'n';
  }

  /**
   * A name that already has the shape of an unscoped result (a lower-case
   * letter, then [a-z0-9_.-], ending in a letter or digit) is unchanged.
   */
  lemma SafeNameKeepsSafeName(s: string)
    requires s != [] && 'a' <= s[0] <= 'z'
    requires forall i :: 0 <= i < |s| ==> IsSafeChar(s[i]) && !('A' <= s[i] <= 'Z')
    requires IsAsciiAlnum(s[|s| - 1])
    ensures GetSafePackageName(s) == s
  {
    assert LowerString(s) == s;
    assert ScopeEnd(s).None?;
    assert PrefixEnd(s) == 0 && s[0..] == s;
    ScrubKeepsSafeName(s);
  }

  /** getSafePackageName is idempotent on names without a scope. */
  lemma SafeNameIdempotentUnscoped(name: string)
    requires ScopeEnd(LowerString(name)).None?
    ensures GetSafePackageName(GetSafePackageName(name)) == GetSafePackageName(name)
  {
    var r := GetSafePackageName(name);
    if r != [] {
      assert 'a' <= r[0] <= 'z' && IsAsciiAlnum(r[|r| - 1]);
      assert forall i :: 0 <= i < |r| ==> IsSafeChar(r[i]) && !('A' <= r[i] <= 'Z');
      SafeNameKeepsSafeName(r);
    }
  }

  // ---------------------------------------------------------------------
  // getUrlFromRepo
  // ---------------------------------------------------------------------

  const GitHubHost := "github.com"
  const GitHubShorthand := "github:"
  const GitHubBase := "https://github.com/"
  const GitSuffix := ".git"

  /**
   * The url the code reads from a present `repository` field: the string
   * itself, or the `url` member of an object when it is a string. An array
   * is an object without a `url`; numbers and booleans yield none.
   */
  function RepoUrlField(repo: Json): Option<string> {
    match repo
    case JStr(s) => Some(s)
    case JObj(_) | JArr(_) =>
      (match Child(repo, "url")
       case Some(JStr(u)) => Some(u)
       case _ => None)
    case _ => None
  }

  predicate IsGitHubUrl(u: string) {
    Contains(u, GitHubHost) || StartsWith(u, GitHubShorthand)
  }

  predicate IsNotColon(c: char) {
    c != ':'
  }

  /** u.split(':')[1] for a url that starts with "github:". */
  function ShorthandPath(u: string): (p: string)
    requires StartsWith(u, GitHubShorthand)
  {
    var t := u[|GitHubShorthand|..];
    t[..RunLength(t, IsNotColon)]
  }

  /** url.replace(/\.git$/, ''). */
  function StripGitSuffix(u: string): (v: string)
    ensures v + GitSuffix == u || (v == u && !EndsWith(u, GitSuffix))
  {
    if EndsWith(u, GitSuffix) then u[..|u| - |GitSuffix|] else u
  }

  /**
   * getUrlFromRepo: `undefined` for an absent field, a TypeError for a
   * null one (`repo.url` on null), a url only for a GitHub address. The
   * `github.com` test comes before the `github:` test.
   */
  function GetUrlFromRepo(repo: Option<Json>): (r: Result<Option<string>, Fault>)
    ensures r.Failure? <==> repo == Some(JNull)
    ensures r.Success? && r.value.Some? <==>
      repo.Some? && RepoUrlField(repo.value).Some? && IsGitHubUrl(RepoUrlField(repo.value).value)
  {
    if repo.None? then Success(None)
    else if repo.value.JNull? then Failure(TypeError)
    else match RepoUrlField(repo.value)
      case None => Success(None)
      case Some(url) =>
        if Contains(url, GitHubHost) then Success(Some(StripGitSuffix(url)))
        else if StartsWith(url, GitHubShorthand) then Success(Some(GitHubBase + ShorthandPath(url)))
        else Success(None)
  }

  /** A url mentioning github.com is kept, less at most one trailing ".git". */
  lemma GitHubUrlKept(repo: Json, u: string)
    requires RepoUrlField(repo) == Some(u) && Contains(u, GitHubHost)
    ensures var r := GetUrlFromRepo(Some(repo));
      r.Success? && r.value.Some? &&
      (r.value.value + ".git" == u || (r.value.value == u && !EndsWith(u, ".git")))
  {
  }

  /**
   * A "github:" shorthand (without github.com) becomes an https url whose
   * path is the text between the first and the second colon.
   */
  lemma ShorthandExpanded(repo: Json, u: string)
    requires RepoUrlField(repo) == Some(u)
    requires !Contains(u, GitHubHost) && StartsWith(u, GitHubShorthand)
    ensures var r := GetUrlFromRepo(Some(repo));
      r.Success? && r.value.Some? && StartsWith(r.value.value, GitHubBase) &&
      var p := r.value.value[|GitHubBase|..];
      ':' !in p && StartsWith(u[|GitHubShorthand|..], p) &&
      (|u| == |GitHubShorthand| + |p| || u[|GitHubShorthand| + |p|] == ':')
  {
    var p := ShorthandPath(u);
    assert GetUrlFromRepo(Some(repo)) == Success(Some(GitHubBase + p));
    assert (GitHubBase + p)[|GitHubBase|..] == p;
    ShorthandPathEndsAtColon(u);
  }

  lemma ShorthandPathEndsAtColon(u: string)
    requires StartsWith(u, GitHubShorthand)
    ensures var p := ShorthandPath(u);
      ':' !in p && StartsWith(u[|GitHubShorthand|..], p) &&
      (|u| == |GitHubShorthand| + |p| || u[|GitHubShorthand| + |p|] == ':')
  {
    var t := u[|GitHubShorthand|..];
    var p := ShorthandPath(u);
    assert ':' !in p by {
      forall i | 0 <= i < |p| ensures p[i] != ':' {
        assert p[i] == t[i];
      }
    }
  }

  /** Any other url, or a field with no string url, gives no badge. */
  lemma OtherUrlsGiveNone(repo: Option<Json>)
    requires repo != Some(JNull)
    requires repo.None? || RepoUrlField(repo.value).None? || !IsGitHubUrl(RepoUrlField(repo.value).value)
    ensures GetUrlFromRepo(repo) == Success(None)
  {
  }

  /** An https GitHub url loses its ".git". */
  lemma GitHubUrlExample()
    ensures GetUrlFromRepo(Some(JStr("https://github.com/org/repo.git"))) == Success(Some("https://github.com/org/repo"))
  {
    var u := "https://github.com/org/repo.git";
    assert u[8..][..|GitHubHost|] == GitHubHost;
    ContainsAt(u, GitHubHost, 8);
    assert u[|u| - 4..] == GitSuffix;
    assert u[..|u| - 4] == "https://github.com/org/repo";
  }

  lemma ShorthandPathExample(u: string)
    requires u == "github:me/tool"
    ensures !Contains(u, GitHubHost) && StartsWith(u, GitHubShorthand)
    ensures ShorthandPath(u) == "me/tool"
  {
    ShorthandLacksHost(u);
    ShorthandTail(u);
  }

  lemma ShorthandLacksHost(u: string)
    requires u == "github:me/tool"
    ensures !Contains(u, GitHubHost)
  {
    NotContainsWithoutFirst(u[1..], GitHubHost);
    assert u[..|GitHubHost|][6] != GitHubHost[6];
  }

  lemma ShorthandTail(u: string)
    requires u == "github:me/tool"
    ensures StartsWith(u, GitHubShorthand)
    ensures ShorthandPath(u) == "me/tool"
  {
    var t := u[|GitHubShorthand|..];
    assert t == "me/tool";
    assert t + [] == t;
    RunLengthOfPrefix(t, [], IsNotColon);
    assert t[..|t|] == t;
  }

  /** A shorthand in the `url` member of an object is expanded. */
  lemma ShorthandExample(u: string)
    requires u == "github:me/tool"
    ensures GetUrlFromRepo(Some(JObj([Member("url", JStr(u))]))) == Success(Some(GitHubBase + "me/tool"))
  {
    ShorthandPathExample(u);
    var repo := JObj([Member("url", JStr(u))]);
    assert Find(repo.members, "url") == Some(0);
    assert RepoUrlField(repo) == Some(u);
  }

  /** A url that is not on GitHub gives no badge. */
  lemma OtherHostExample(u: string)
    requires u == "svn://example.com/repo"
    ensures GetUrlFromRepo(Some(JStr(u))) == Success(None)
  {
    OtherHostLacksHost(u);
    assert u[..|GitHubShorthand|][0] != GitHubShorthand[0];
  }

  lemma OtherHostLacksHost(u: string)
    requires u == "svn://example.com/repo"
    ensures !Contains(u, GitHubHost)
  {
    NotContainsWithoutFirst(u, GitHubHost);
  }

  /** The github.com test comes first: a shorthand that mentions github.com is kept as it is. */
  lemma HostTestFirstExample(u: string)
    requires u == "github:github.com/x"
    ensures GetUrlFromRepo(Some(JStr(u))) == Success(Some(u))
  {
    assert u[7..][..|GitHubHost|] == GitHubHost;
    ContainsAt(u, GitHubHost, 7);
    assert !EndsWith(u, GitSuffix);
  }

  // ---------------------------------------------------------------------
  // writeJSON
  // ---------------------------------------------------------------------

  /**
   * The text writeJSON puts in a file: the two-space serialisation and
   * exactly one trailing newline. The newline is the only line break
   * exactly when the document is a scalar or an empty array or object.
   */
  function JsonFileText(doc: Json): (text: string)
    ensures |text| >= 2 && text[|text| - 1] == '\n' && text[|text| - 2] != '\n'
    ensures text[..|text| - 1] == Stringify(doc, "")
    ensures '\n' !in text[..|text| - 1] <==> !(doc.JArr? && doc.items != []) && !(doc.JObj? && doc.members != [])
  {
    StringifyOneLine(doc, "");
    var body := Stringify(doc, "");
    assert (body + "\n")[..|body|] == body;
    body + "\n"
  }
}
