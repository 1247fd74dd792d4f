/**
 * String helpers shared by both controllers: the JavaScript whitespace class,
 * trimming, repetition, joining, and splitting a text into document lines.
 */
module Text {

  /** The characters matched by `\s` in a JavaScript regular expression;
      `trim` and `trimStart` remove exactly these. The range from tab to carriage
      return is tab, line feed, vertical tab, form feed and carriage return; the
      range from U+2000 to U+200A holds the typographic spaces. */
  predicate IsSpace(c: char)
  {
    c == ' ' || ('\t' <= c <= '\r') || c == '\U{00A0}' || c == '\U{1680}'
    || ('\U{2000}' <= c <= '\U{200A}') || c == '\U{2028}' || c == '\U{2029}'
    || c == '\U{202F}' || c == '\U{205F}' || c == '\U{3000}' || c == '\U{FEFF}'
  }

  /** The length of the leading run of whitespace. */
  function LeadingSpaceCount(s: string): (n: nat)
    ensures n <= |s|
  {
    if s != [] && IsSpace(s[0]) then 1 + LeadingSpaceCount(s[1..]) else 0
  }

  /** The run is maximal: all of it is whitespace, and the character after it is not. */
  lemma {:induction false} LeadingSpaceCountIsMaximal(s: string)
    ensures var n := LeadingSpaceCount(s);
            (n == |s| || !IsSpace(s[n])) && forall i | 0 <= i < n :: IsSpace(s[i])
  {
    if s != [] && IsSpace(s[0]) {
      LeadingSpaceCountIsMaximal(s[1..]);
      assert LeadingSpaceCount(s) == 1 + LeadingSpaceCount(s[1..]);
    } else {
      assert LeadingSpaceCount(s) == 0;
    }
  }

  /** A whitespace run of length `k` followed by a non-whitespace character (or the end) is the
      leading run. */
  lemma {:induction false} LeadingSpaceCountIs(s: string, k: nat)
    requires k <= |s| && (k == |s| || !IsSpace(s[k]))
    requires forall i | 0 <= i < k :: IsSpace(s[i])
    ensures LeadingSpaceCount(s) == k
  {
    if k > 0 {
      assert forall i | 0 <= i < k - 1 :: s[1..][i] == s[i + 1];
      if k - 1 < |s| - 1 {
        assert s[1..][k - 1] == s[k];
      }
      LeadingSpaceCountIs(s[1..], k - 1);
    }
  }

  /** `s.trimStart()`. */
  function TrimStart(s: string): (r: string)
    ensures |r| <= |s| && r == s[|s| - |r|..]
  {
    s[LeadingSpaceCount(s)..]
  }

  /** `trimStart` removes the whole leading run of whitespace and nothing more. */
  lemma TrimStartIsMaximal(s: string)
    ensures var r := TrimStart(s);
            (r == [] || !IsSpace(r[0])) && forall i | 0 <= i < |s| - |r| :: IsSpace(s[i])
  {
    LeadingSpaceCountIsMaximal(s);
  }

  /** The match of `^\s*` on `s`: its leading whitespace. */
  function LeadingSpace(s: string): (r: string)
    ensures r + TrimStart(s) == s
  {
    var n := LeadingSpaceCount(s);
    assert s[..n] + s[n..] == s;
    s[..n]
  }

  /** The leading whitespace is whitespace only. */
  lemma LeadingSpaceIsSpace(s: string)
    ensures forall i | 0 <= i < |LeadingSpace(s)| :: IsSpace(LeadingSpace(s)[i])
  {
    LeadingSpaceCountIsMaximal(s);
  }

  /** The length of the trailing run of whitespace. */
  function TrailingSpaceCount(s: string): (n: nat)
    ensures n <= |s|
    decreases |s|
  {
    if s != [] && IsSpace(s[|s| - 1]) then 1 + TrailingSpaceCount(s[..|s| - 1]) else 0
  }

  /** The character before the trailing run, if any, is not whitespace. */
  lemma {:induction false} TrailingSpaceCountIsMaximal(s: string)
    ensures var n := TrailingSpaceCount(s); n == |s| || !IsSpace(s[|s| - n - 1])
    decreases |s|
  {
    if s != [] && IsSpace(s[|s| - 1]) {
      var p := s[..|s| - 1];
      TrailingSpaceCountIsMaximal(p);
      assert TrailingSpaceCount(s) == 1 + TrailingSpaceCount(p);
      var n := TrailingSpaceCount(p);
      if n < |p| {
        assert s[|s| - (n + 1) - 1] == p[|p| - n - 1];
      }
    } else {
      assert TrailingSpaceCount(s) == 0;
    }
  }

  /** `s` with trailing whitespace removed. */
  function TrimEnd(s: string): (r: string)
    ensures r <= s
  {
    s[..|s| - TrailingSpaceCount(s)]
  }

  /** The last character left by `TrimEnd`, if any, is not whitespace. */
  lemma TrimEndIsMaximal(s: string)
    ensures TrimEnd(s) == [] || !IsSpace(TrimEnd(s)[|TrimEnd(s)| - 1])
  {
    TrailingSpaceCountIsMaximal(s);
  }

  /** `s.trim()`. */
  function Trim(s: string): string
  {
    TrimEnd(TrimStart(s))
  }

  /** `/\{\s*$/.test(s)`: the last non-whitespace character is an opening brace. */
  predicate OpensBlock(s: string)
  {
    var t := TrimEnd(s);
    t != [] && t[|t| - 1] == '{'
  }

  /** `/^[}\])]/.test(s)`: the text starts with a closing bracket. */
  predicate ClosesBlock(s: string)
  {
    s != [] && (s[0] == '}' || s[0] == ']' || s[0] == ')')
  }

  /** A line VS Code reports as `isEmptyOrWhitespace`: nothing but whitespace. */
  predicate IsBlank(s: string)
  {
    forall i | 0 <= i < |s| :: IsSpace(s[i])
  }

  /** A blank line is one that `trimStart` empties. */
  lemma IsBlankTrims(s: string)
    ensures IsBlank(s) <==> TrimStart(s) == []
  {
    LeadingSpaceCountIsMaximal(s);
    if IsBlank(s) {
      LeadingSpaceCountIs(s, |s|);
    }
  }

  /** `s.repeat(n)`. */
  function Repeat(s: string, n: nat): string
  {
    if n == 0 then "" else s + Repeat(s, n - 1)
  }

  /** `n` copies of the character `c`. */
  function Fill(c: char, n: nat): (r: string)
    ensures |r| == n
    ensures forall i | 0 <= i < n :: r[i] == c
  {
    if n == 0 then "" else [c] + Fill(c, n - 1)
  }

  /** `parts.join(sep)`. */
  function Join(parts: seq<string>, sep: string): string
  {
    if |parts| == 0 then ""
    else if |parts| == 1 then parts[0]
    else parts[0] + sep + Join(parts[1..], sep)
  }

  lemma {:induction false} JoinSnoc(parts: seq<string>, sep: string, last: string)
    requires parts != []
    ensures Join(parts + [last], sep) == Join(parts, sep) + sep + last
  {
    if |parts| == 1 {
      assert parts + [last] == [parts[0], last];
      assert [parts[0], last][1..] == [last];
    } else {
      assert (parts + [last])[1..] == parts[1..] + [last];
      JoinSnoc(parts[1..], sep, last);
    }
  }

  /** Four parts joined by one separator, written out. */
  lemma JoinFour(parts: seq<string>, sep: string)
    requires |parts| == 4
    ensures Join(parts, sep) == parts[0] + sep + parts[1] + sep + parts[2] + sep + parts[3]
  {
    var t := parts[1..];
    assert t[1..] == parts[2..] && t[1..][1..] == parts[3..];
    assert Join(parts[2..], sep) == parts[2] + sep + parts[3];
    assert Join(t, sep) == parts[1] + sep + (parts[2] + sep + parts[3]);
  }

  /** Lines joined by a separator without a line break form one line. */
  lemma {:induction false} JoinIsLine(parts: seq<string>, sep: string)
    requires IsLine(sep) && forall i | 0 <= i < |parts| :: IsLine(parts[i])
    ensures IsLine(Join(parts, sep))
  {
    if |parts| > 1 {
      JoinIsLine(parts[1..], sep);
      assert IsLine(parts[0]);
    }
  }

  /** Extending a prefix by one element. */
  lemma PrefixSnoc<T>(s: seq<T>, i: nat)
    requires i < |s|
    ensures s[..i + 1] == s[..i] + [s[i]]
  {
  }

  /** A text without a line break: one document line. */
  predicate IsLine(s: string)
  {
    '\n' !in s
  }

  /** Every element is a line. */
  predicate AllLines(s: seq<string>)
  {
    forall i | 0 <= i < |s| :: IsLine(s[i])
  }

  /** A piece of a line is a line. */
  lemma SliceIsLine(s: string, i: nat, j: nat)
    requires IsLine(s) && i <= j <= |s|
    ensures IsLine(s[i..j])
  {
    assert forall k | 0 <= k < j - i :: s[i..j][k] == s[i + k];
  }

  /** So is a suffix of a line. */
  lemma SuffixIsLine(s: string, r: string)
    requires IsLine(s) && |r| <= |s| && r == s[|s| - |r|..]
    ensures IsLine(r)
  {
    SliceIsLine(s, |s| - |r|, |s|);
  }

  /** Repeating a line gives a line. */
  lemma {:induction false} RepeatIsLine(s: string, n: nat)
    requires IsLine(s)
    ensures IsLine(Repeat(s, n))
  {
    if n > 0 {
      RepeatIsLine(s, n - 1);
    }
  }

  /** The lines of a text, split at every `\n` (an empty text is one empty line). */
  function SplitLines(s: string): (r: seq<string>)
    ensures |r| >= 1
    ensures forall i | 0 <= i < |r| :: IsLine(r[i])
    decreases |s|
  {
    if s == [] then [""]
    else
      var rest := SplitLines(s[1..]);
      if s[0] == '\n' then [""] + rest
      else [[s[0]] + rest[0]] + rest[1..]
  }

  lemma {:induction false} SplitLinesOfLine(s: string)
    requires IsLine(s)
    ensures SplitLines(s) == [s]
    decreases |s|
  {
    if s != [] {
      SplitLinesOfLine(s[1..]);
      assert [s[0]] + s[1..] == s;
    }
  }

  lemma {:induction false} SplitLinesAfterLine(a: string, b: string)
    requires IsLine(a)
    ensures SplitLines(a + "\n" + b) == [a] + SplitLines(b)
    decreases |a|
  {
    var s := a + "\n" + b;
    if a == [] {
      assert s[1..] == b;
    } else {
      assert s[1..] == a[1..] + "\n" + b;
      SplitLinesAfterLine(a[1..], b);
      assert [a[0]] + a[1..] == a;
    }
  }

  /** Joining lines with `\n` and splitting the result gives the lines back. */
  lemma {:induction false} SplitJoin(parts: seq<string>)
    requires parts != []
    requires forall i | 0 <= i < |parts| :: IsLine(parts[i])
    ensures SplitLines(Join(parts, "\n")) == parts
  {
    if |parts| == 1 {
      SplitLinesOfLine(parts[0]);
    } else {
      SplitJoin(parts[1..]);
      SplitLinesAfterLine(parts[0], Join(parts[1..], "\n"));
      assert [parts[0]] + parts[1..] == parts;
    }
  }
}
