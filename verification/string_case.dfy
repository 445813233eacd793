/**
 Case helpers (packages/app/src/shared/utils/string.ts): `toPascalCase`
 and the first-letter helpers. Upper- and lower-casing are the ASCII
 mappings of `Strings`; Unicode case mapping is not modelled.
 */
module StringCase {

  import opened Strings

  /** A character of JavaScript's regular-expression class `\s`. */
  predicate IsWhitespace(c: char)
  {
    c == '\t' || c == '\n' || c == '\U{000B}' || c == '\U{000C}' || c == '\r' || c == ' '
    || c == '\U{00A0}' || c == '\U{1680}' || ('\U{2000}' <= c <= '\U{200A}')
    || c == '\U{2028}' || c == '\U{2029}' || c == '\U{202F}' || c == '\U{205F}'
    || c == '\U{3000}' || c == '\U{FEFF}'
  }

  /** A character of the word-separator class `[\s\-_]`. */
  predicate IsSeparator(c: char)
  {
    IsWhitespace(c) || c == '-' || c == '_'
  }

  predicate NoSeparators(s: string)
  {
    forall i :: 0 <= i < |s| ==> !IsSeparator(s[i])
  }

  /** Upper-casing never turns a character into a separator or a separator into something else. */
  lemma UpperKeepsSeparators(c: char)
    ensures IsSeparator(UpperChar(c)) <==> IsSeparator(c)
  {
  }

  /** The index of the first separator at or after `i`, or `|s|`. */
  function NextSeparator(s: string, i: nat): (j: nat)
    requires i <= |s|
    ensures i <= j <= |s| && (j < |s| ==> IsSeparator(s[j]))
    ensures forall k :: i <= k < j ==> !IsSeparator(s[k])
    decreases |s| - i
  {
    if i == |s| || IsSeparator(s[i]) then i else NextSeparator(s, i + 1)
  }

  /** The end of the run of separators starting at `i`. */
  function RunEnd(s: string, i: nat): (j: nat)
    requires i <= |s|
    ensures i <= j <= |s| && (j < |s| ==> !IsSeparator(s[j]))
    ensures forall k :: i <= k < j ==> IsSeparator(s[k])
    decreases |s| - i
  {
    if i == |s| || !IsSeparator(s[i]) then i else RunEnd(s, i + 1)
  }

  /**
   `str.split(/[\s\-_]+/)`: the pieces between maximal separator runs. A
   leading or trailing run yields an empty first or last piece, and the
   empty string splits into one empty piece.
   */
  function Words(s: string): (r: seq<string>)
    ensures |r| >= 1
    ensures forall i :: 0 <= i < |r| ==> NoSeparators(r[i])
    decreases |s|
  {
    var i := NextSeparator(s, 0);
    if i == |s| then [s]
    else [s[..i]] + Words(s[RunEnd(s, i)..])
  }

  /** The characters that are not separators, in order. */
  function Letters(s: string): string
  {
    if |s| == 0 then "" else (if IsSeparator(s[0]) then "" else [s[0]]) + Letters(s[1..])
  }

  lemma {:induction false} LettersAppend(a: string, b: string)
    ensures Letters(a + b) == Letters(a) + Letters(b)
    decreases |a|
  {
    if |a| == 0 {
      assert a + b == b;
    } else {
      assert (a + b)[1..] == a[1..] + b;
      LettersAppend(a[1..], b);
    }
  }

  /** A run of separators contributes no letters. */
  lemma {:induction false} LettersOfRun(s: string)
    requires forall k :: 0 <= k < |s| ==> IsSeparator(s[k])
    ensures Letters(s) == ""
    decreases |s|
  {
    if |s| > 0 {
      LettersOfRun(s[1..]);
    }
  }

  /** A separator-free string is all letters. */
  lemma {:induction false} LettersOfWord(s: string)
    requires NoSeparators(s)
    ensures Letters(s) == s
    decreases |s|
  {
    if |s| > 0 {
      assert NoSeparators(s[1..]) by {
        assert forall k :: 0 <= k < |s| - 1 ==> s[1..][k] == s[k + 1];
      }
      LettersOfWord(s[1..]);
      assert [s[0]] + s[1..] == s;
    }
  }

  /** One step of the split: the first piece, then the pieces after the first separator run. */
  lemma WordsStep(s: string)
    requires NextSeparator(s, 0) < |s|
    ensures Words(s) == [s[..NextSeparator(s, 0)]] + Words(s[RunEnd(s, NextSeparator(s, 0))..])
  {
  }

  /** Letters of a string cut in three pieces. */
  lemma LettersSplit(s: string, i: nat, j: nat)
    requires i <= j <= |s|
    ensures Letters(s) == Letters(s[..i]) + (Letters(s[i..j]) + Letters(s[j..]))
  {
    LettersCut(s, i);
    LettersCut(s[i..], j - i);
    SlicesOfSuffix(s, i, j);
  }

  lemma SlicesOfSuffix(s: string, i: nat, j: nat)
    requires i <= j <= |s|
    ensures s[i..][..j - i] == s[i..j] && s[i..][j - i..] == s[j..]
  {
  }

  /** Letters of a string cut in two. */
  lemma {:induction false} LettersCut(s: string, i: nat)
    requires i <= |s|
    ensures Letters(s) == Letters(s[..i]) + Letters(s[i..])
    decreases i
  {
    if i > 0 {
      LettersCut(s[1..], i - 1);
      assert s[1..][..i - 1] == s[..i][1..];
      assert s[1..][i - 1..] == s[i..];
    }
  }

  /** The pieces, put back together, are exactly the string's non-separator characters. */
  lemma {:induction false} WordsAreTheLetters(s: string)
    ensures Concat(Words(s)) == Letters(s)
    decreases |s|
  {
    var i := NextSeparator(s, 0);
    if i == |s| {
      WordsOfWord(s);
    } else {
      var j := RunEnd(s, i);
      WordsAreTheLetters(s[j..]);
      WordsLettersStep(s, i, j);
    }
  }

  /** A string without separators is its own single piece and its own letters. */
  lemma WordsOfWord(s: string)
    requires NextSeparator(s, 0) == |s|
    ensures Concat(Words(s)) == Letters(s)
  {
    LettersOfWord(s);
    assert Words(s) == [s];
    assert Concat([s]) == s + Concat([]);
  }

  /** The inductive step: the first piece, the run it ends at, then the rest. */
  lemma WordsLettersStep(s: string, i: nat, j: nat)
    requires i == NextSeparator(s, 0) < |s| && j == RunEnd(s, i)
    requires Concat(Words(s[j..])) == Letters(s[j..])
    ensures Concat(Words(s)) == Letters(s)
  {
    LettersDropRun(s, i, j);
    ConcatWordsStep(s, i, j);
  }

  /** The letters skip the separator run at `i..j`. */
  lemma LettersDropRun(s: string, i: nat, j: nat)
    requires i == NextSeparator(s, 0) < |s| && j == RunEnd(s, i)
    ensures Letters(s) == s[..i] + Letters(s[j..])
  {
    LettersSplit(s, i, j);
    LettersOfWord(s[..i]);
    LettersOfRun(s[i..j]);
  }

  /** The pieces put together: the first piece, then the rest's pieces. */
  lemma ConcatWordsStep(s: string, i: nat, j: nat)
    requires i == NextSeparator(s, 0) < |s| && j == RunEnd(s, i)
    ensures Concat(Words(s)) == s[..i] + Concat(Words(s[j..]))
  {
    WordsStep(s);
    var ws := Words(s);
    assert ws[0] == s[..i] && ws[1..] == Words(s[j..]);
    assert Concat(ws) == ws[0] + Concat(ws[1..]);
  }

  /** `str.charAt(0).toUpperCase() + str.slice(1)`. */
  function UpperFirst(s: string): (r: string)
    ensures |r| == |s|
    ensures |s| > 0 ==> r[0] == UpperChar(s[0]) && r[1..] == s[1..]
  {
    if |s| == 0 then "" else [UpperChar(s[0])] + s[1..]
  }

  /** `str.charAt(0).toLowerCase() + str.slice(1)`. */
  function LowerFirst(s: string): (r: string)
    ensures |r| == |s|
    ensures |s| > 0 ==> r[0] == LowerChar(s[0]) && r[1..] == s[1..]
  {
    if |s| == 0 then "" else [LowerChar(s[0])] + s[1..]
  }

  /**
   The first-letter helpers undo each other up to case: lower-casing after
   upper-casing is lower-casing, and the other way round; each is idempotent.
   */
  lemma FirstLetterRoundTrip(s: string)
    ensures LowerFirst(UpperFirst(s)) == LowerFirst(s)
    ensures UpperFirst(LowerFirst(s)) == UpperFirst(s)
    ensures UpperFirst(UpperFirst(s)) == UpperFirst(s)
    ensures LowerFirst(LowerFirst(s)) == LowerFirst(s)
  {
    if |s| > 0 {
      assert UpperFirst(s)[1..] == s[1..];
      assert LowerFirst(s)[1..] == s[1..];
    }
  }

  /** Upper-casing the first letter of a separator-free word keeps it separator-free. */
  lemma UpperFirstNoSeparators(w: string)
    requires NoSeparators(w)
    ensures NoSeparators(UpperFirst(w))
  {
    if |w| > 0 {
      UpperKeepsSeparators(w[0]);
      assert forall k :: 1 <= k < |w| ==> UpperFirst(w)[k] == w[k];
    }
  }

  /** The mapped words joined with `''`; empty words contribute nothing. */
  function JoinMapped(words: seq<string>): (r: string)
    requires forall i :: 0 <= i < |words| ==> NoSeparators(words[i])
    ensures NoSeparators(r)
  {
    if |words| == 0 then ""
    else
      var head := if words[0] == "" then "" else UpperFirst(words[0]);
      UpperFirstNoSeparators(words[0]);
      head + JoinMapped(words[1..])
  }

  /** `toPascalCase(str)`. The result holds no whitespace, `-` or `_`. */
  function ToPascalCase(s: string): (r: string)
    ensures NoSeparators(r)
  {
    JoinMapped(Words(s))
  }

  /**
   A reference definition by one left-to-right scan: separators are
   dropped, and a character is upper-cased when it starts the string or
   follows a separator.
   */
  function PascalScan(s: string, atWordStart: bool): (r: string)
    decreases |s|
  {
    if |s| == 0 then ""
    else if IsSeparator(s[0]) then PascalScan(s[1..], true)
    else [if atWordStart then UpperChar(s[0]) else s[0]] + PascalScan(s[1..], false)
  }

  /** Inside a word the scan copies characters unchanged. */
  lemma {:induction false} ScanInsideWord(w: string, t: string)
    requires NoSeparators(w)
    ensures PascalScan(w + t, false) == w + PascalScan(t, false)
    decreases |w|
  {
    if |w| > 0 {
      assert (w + t)[1..] == w[1..] + t;
      assert (w + t)[0] == w[0] && !IsSeparator(w[0]);
      assert NoSeparators(w[1..]) by {
        assert forall k :: 0 <= k < |w| - 1 ==> w[1..][k] == w[k + 1];
      }
      ScanInsideWord(w[1..], t);
      var x := PascalScan(t, false);
      assert PascalScan(w + t, false) == [w[0]] + PascalScan(w[1..] + t, false);
      assert [w[0]] + (w[1..] + x) == ([w[0]] + w[1..]) + x;
      assert [w[0]] + w[1..] == w;
    } else {
      assert w + t == t;
    }
  }

  /** At a word start the scan upper-cases the word's first character and copies the rest. */
  lemma ScanWord(w: string, t: string)
    requires NoSeparators(w)
    ensures PascalScan(w + t, true) == UpperFirst(w) + PascalScan(t, |w| == 0)
  {
    if |w| > 0 {
      assert (w + t)[1..] == w[1..] + t;
      ScanInsideWord(w[1..], t);
    } else {
      assert w + t == t;
    }
  }

  /** A run of separators leaves the scan at a word start. */
  lemma {:induction false} ScanRun(s: string, i: nat, j: nat, b: bool)
    requires i < j <= |s| && forall k :: i <= k < j ==> IsSeparator(s[k])
    ensures PascalScan(s[i..], b) == PascalScan(s[j..], true)
    decreases j - i
  {
    assert s[i..][1..] == s[i + 1..];
    if i + 1 < j {
      ScanRun(s, i + 1, j, true);
    }
  }

  /** Splitting into words and mapping them is the same as the one-pass scan. */
  lemma {:induction false} PascalCaseIsScan(s: string)
    ensures ToPascalCase(s) == PascalScan(s, true)
    decreases |s|
  {
    var i := NextSeparator(s, 0);
    if i == |s| {
      assert Words(s) == [s];
      assert JoinMapped([s]) == (if s == "" then "" else UpperFirst(s)) + JoinMapped([]);
      ScanWord(s, "");
      assert s + "" == s;
    } else {
      var j := RunEnd(s, i);
      PascalCaseIsScan(s[j..]);
      assert s == s[..i] + s[i..];
      ScanWord(s[..i], s[i..]);
      ScanRun(s, i, j, i == 0);
      assert Words(s) == [s[..i]] + Words(s[j..]);
      assert Words(s)[1..] == Words(s[j..]);
    }
  }

  /** The scan started at a word start yields a first character that is already upper case. */
  lemma {:induction false} ScanStartsUpper(s: string)
    ensures var r := PascalScan(s, true); |r| > 0 ==> UpperChar(r[0]) == r[0]
    decreases |s|
  {
    if |s| > 0 && IsSeparator(s[0]) {
      ScanStartsUpper(s[1..]);
    }
  }

  /** A separator-free string is scanned back to itself apart from its first letter's case. */
  lemma ScanOfWord(w: string)
    requires NoSeparators(w)
    ensures PascalScan(w, true) == UpperFirst(w)
  {
    ScanWord(w, "");
    assert w + "" == w;
  }

  /** `toPascalCase` is idempotent. */
  lemma PascalCaseIdempotent(s: string)
    ensures ToPascalCase(ToPascalCase(s)) == ToPascalCase(s)
  {
    var t := ToPascalCase(s);
    PascalCaseIsScan(s);
    PascalCaseIsScan(t);
    ScanOfWord(t);
    ScanStartsUpper(s);
    if |t| > 0 {
      assert UpperFirst(t) == [UpperChar(t[0])] + t[1..];
      assert [t[0]] + t[1..] == t;
    }
  }

  /** A single word is converted by upper-casing its first letter. */
  lemma PascalCaseOfWord(w: string)
    requires NoSeparators(w)
    ensures ToPascalCase(w) == UpperFirst(w)
  {
    PascalCaseIsScan(w);
    ScanOfWord(w);
  }
}
