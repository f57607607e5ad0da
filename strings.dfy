/**
 * The handful of Python `str` builtins the notes parser relies on, over
 * `seq<char>`: substring search (`in`, `split(sep, 1)`), `split("\n")`,
 * `strip()` and the leading character runs the two regular expressions
 * consume.  Whitespace is Python's `str.isspace` restricted to ASCII.
 */
module Strings {
  import opened Wrappers

  /** The ASCII characters for which Python's `str.isspace` (and `\s`) holds. */
  predicate IsSpace(c: char)
  {
    c == ' ' || c == '\t' || c == '\n' || c == '\r' || c == '\U{B}' || c == '\U{C}'
    || ('\U{1C}' <= c <= '\U{1F}')
  }

  /** The character class `[0-9a-fA-F]`. */
  predicate IsHexDigit(c: char)
  {
    '0' <= c <= '9' || 'a' <= c <= 'f' || 'A' <= c <= 'F'
  }

  /** The character class `[0-9]`. */
  predicate IsDigit(c: char)
  {
    '0' <= c <= '9'
  }

  predicate AllSpace(s: string)
  {
    forall k :: 0 <= k < |s| ==> IsSpace(s[k])
  }

  /** Python's `s.startswith(prefix)`. */
  predicate StartsWith(s: string, prefix: string)
  {
    |prefix| <= |s| && s[..|prefix|] == prefix
  }

  /** `pat` occurs in `s` starting at index `i`. */
  predicate OccursAt(s: string, pat: string, i: int)
  {
    0 <= i && i + |pat| <= |s| && s[i..i + |pat|] == pat
  }

  /** The lowest index at or after `from` where `pat` occurs in `s`. */
  function FindFrom(s: string, pat: string, from: nat): (r: Option<nat>)
    ensures r.Some? ==> from <= r.value && OccursAt(s, pat, r.value)
    ensures r.Some? ==> forall j :: from <= j < r.value ==> !OccursAt(s, pat, j)
    ensures r.None? ==> forall j :: from <= j ==> !OccursAt(s, pat, j)
    decreases |s| - from
  {
    if from + |pat| > |s| then None
    else if s[from..from + |pat|] == pat then Some(from)
    else FindFrom(s, pat, from + 1)
  }

  /** Python's `s.find(pat)`, with None for -1. */
  function Find(s: string, pat: string): (r: Option<nat>)
    ensures r.Some? ==> OccursAt(s, pat, r.value)
    ensures r.Some? ==> forall j :: 0 <= j < r.value ==> !OccursAt(s, pat, j)
    ensures r.None? <==> forall j :: !OccursAt(s, pat, j)
  {
    FindFrom(s, pat, 0)
  }

  /** Python's `pat in s`. */
  predicate Contains(s: string, pat: string)
  {
    Find(s, pat).Some?
  }

  /**
   * Python's `s.split(sep, 1)` unpacked into two names: it succeeds exactly
   * when `sep` occurs, and then cuts at the first occurrence.
   */
  function SplitOnce(s: string, sep: string): (r: Option<(string, string)>)
    requires |sep| > 0
    ensures r.None? <==> forall j :: !OccursAt(s, sep, j)
    ensures r.Some? ==> s == r.value.0 + sep + r.value.1
    ensures r.Some? ==> forall j :: 0 <= j < |r.value.0| ==> !OccursAt(s, sep, j)
  {
    match Find(s, sep)
    case None => None
    case Some(i) =>
      assert s == s[..i] + sep + s[i + |sep|..];
      Some((s[..i], s[i + |sep|..]))
  }

  /** `SplitOnce` cuts where `Find` points. */
  lemma SplitOnceAtFind(s: string, sep: string)
    requires |sep| > 0
    ensures SplitOnce(s, sep).Some? <==> Find(s, sep).Some?
    ensures SplitOnce(s, sep).Some? ==>
      SplitOnce(s, sep).value == (s[..Find(s, sep).value], s[Find(s, sep).value + |sep|..])
  {
  }

  /** `SplitOnce` cuts at the first occurrence of `sep`, wherever that is. */
  lemma SplitOnceAt(s: string, before: string, sep: string, after: string)
    requires |sep| > 0 && s == before + sep + after
    requires forall j :: 0 <= j < |before| ==> !OccursAt(s, sep, j)
    ensures SplitOnce(s, sep) == Some((before, after))
  {
    assert s[|before|..|before| + |sep|] == sep;
    assert OccursAt(s, sep, |before|);
    var i := Find(s, sep).value;
    assert i == |before|;
    assert s[..i] == before;
    assert s[i + |sep|..] == after;
  }

  /** Cut at the first occurrence of `sep`: what comes before it starts `s` and holds no `sep`. */
  lemma CutAtFirst(s: string, before: string, sep: string, after: string)
    requires |sep| > 0 && s == before + sep + after
    requires forall j :: 0 <= j < |before| ==> !OccursAt(s, sep, j)
    ensures StartsWith(s, before) && OccursAt(s, sep, |before|)
    ensures forall j :: !OccursAt(before, sep, j)
  {
    assert s[..|before|] == before;
    assert s[|before|..|before| + |sep|] == sep;
    forall j | OccursAt(before, sep, j) ensures OccursAt(s, sep, j) {
      assert s[j..j + |sep|] == before[j..j + |sep|];
    }
  }

  /** `s.split("\n")` undone: the pieces joined with newlines. */
  function JoinLines(lines: seq<string>): string
  {
    if |lines| == 0 then ""
    else if |lines| == 1 then lines[0]
    else lines[0] + "\n" + JoinLines(lines[1..])
  }

  predicate NoNewline(s: string)
  {
    forall k :: 0 <= k < |s| ==> s[k] != '\n'
  }

  lemma NoNewlineOfAvoid(s: string)
    requires '\n' !in s
    ensures NoNewline(s)
  {
  }

  /** Python's `s.split("\n")`: never empty, no piece holds a newline, and joining gives `s` back. */
  function SplitLines(s: string): (r: seq<string>)
    ensures |r| >= 1
    ensures forall k :: 0 <= k < |r| ==> NoNewline(r[k])
    ensures JoinLines(r) == s
    decreases |s|
  {
    match Find(s, "\n")
    case None =>
      NoNewlineBefore(s, |s|);
      assert s[..|s|] == s;
      [s]
    case Some(i) =>
      NoNewlineBefore(s, i);
      var rest := SplitLines(s[i + 1..]);
      assert s == s[..i] + "\n" + s[i + 1..] by { assert s[i..i + 1] == "\n"; }
      [s[..i]] + rest
  }

  /** No newline up to where `Find` would look for the first one. */
  lemma NoNewlineBefore(s: string, n: nat)
    requires n <= |s|
    requires forall j :: 0 <= j < n ==> !OccursAt(s, "\n", j)
    ensures NoNewline(s[..n])
  {
    forall k | 0 <= k < n ensures s[..n][k] != '\n' {
      assert !OccursAt(s, "\n", k);
      assert s[k..k + 1] == [s[k]];
    }
  }

  /** The length of the longest prefix of `s` whose characters all satisfy `p`. */
  function Span(s: string, p: char -> bool): (n: nat)
    ensures n <= |s|
    ensures forall k :: 0 <= k < n ==> p(s[k])
    ensures n == |s| || !p(s[n])
  {
    if |s| > 0 && p(s[0]) then 1 + Span(s[1..], p) else 0
  }

  /** Where the run of characters satisfying `p` that starts at index `from` ends. */
  function RunEnd(s: string, from: nat, p: char -> bool): (e: nat)
    requires from <= |s|
    ensures from <= e <= |s|
    ensures forall k :: from <= k < e ==> p(s[k])
    ensures e == |s| || !p(s[e])
    decreases |s| - from
  {
    if from < |s| && p(s[from]) then RunEnd(s, from + 1, p) else from
  }

  /** A run that ends where `p` first fails is the one `RunEnd` measures. */
  lemma {:induction false} RunEndExact(s: string, from: nat, p: char -> bool, e: nat)
    requires from <= e <= |s|
    requires forall k :: from <= k < e ==> p(s[k])
    requires e == |s| || !p(s[e])
    ensures RunEnd(s, from, p) == e
    decreases e - from
  {
    if from < e {
      RunEndExact(s, from + 1, p, e);
    }
  }

  /** `RunEnd` goes at least as far as any run. */
  lemma {:induction false} RunEndAtLeast(s: string, from: nat, p: char -> bool, e: nat)
    requires from <= e <= |s|
    requires forall k :: from <= k < e ==> p(s[k])
    ensures e <= RunEnd(s, from, p)
    decreases e - from
  {
    if from < e {
      RunEndAtLeast(s, from + 1, p, e);
    }
  }

  /** Python's `s.lstrip()`. */
  function TrimLeft(s: string): (r: string)
    ensures |r| <= |s| && r == s[|s| - |r|..]
    ensures AllSpace(s[..|s| - |r|])
    ensures r == [] || !IsSpace(r[0])
  {
    s[Span(s, IsSpace)..]
  }

  /** Python's `s.rstrip()`. */
  function TrimRight(s: string): (r: string)
    ensures |r| <= |s| && r == s[..|r|]
    ensures AllSpace(s[|r|..])
    ensures r == [] || !IsSpace(r[|r| - 1])
  {
    if |s| > 0 && IsSpace(s[|s| - 1]) then
      var r := TrimRight(s[..|s| - 1]);
      assert s[|r|..] == s[..|s| - 1][|r|..] + [s[|s| - 1]];
      r
    else s
  }

  /**
   * Python's `s.strip()`: a contiguous piece of `s` with only whitespace
   * around it, and neither starting nor ending with whitespace.
   */
  function Strip(s: string): (r: string)
    ensures |r| <= |s|
    ensures r == [] || (!IsSpace(r[0]) && !IsSpace(r[|r| - 1]))
  {
    TrimRight(TrimLeft(s))
  }

  /** What `Strip` keeps is a piece of `s` with only whitespace before and after it. */
  lemma StripIsInfix(s: string)
    ensures var r := Strip(s);
      exists i :: 0 <= i <= |s| - |r| && r == s[i..i + |r|] && AllSpace(s[..i]) && AllSpace(s[i + |r|..])
  {
    var l := TrimLeft(s);
    var r := TrimRight(l);
    var i := |s| - |l|;
    assert r == s[i..i + |r|];
    assert s[i + |r|..] == l[|r|..];
  }

  lemma TrimLeftUnique(a: string, m: string)
    requires AllSpace(a)
    requires m == [] || !IsSpace(m[0])
    ensures TrimLeft(a + m) == m
  {
    var s := a + m;
    var n := Span(s, IsSpace);
    assert forall k :: 0 <= k < |a| ==> IsSpace(s[k]);
    assert s[|a|..] == m;
  }

  lemma TrimRightUnique(m: string, b: string)
    requires AllSpace(b)
    requires m == [] || !IsSpace(m[|m| - 1])
    ensures TrimRight(m + b) == m
  {
    var s := m + b;
    var r := TrimRight(s);
    assert s[..|m|] == m;
  }

  /** `TrimRight` keeps everything up to the last non-space character. */
  lemma {:induction false} TrimRightKeeps(s: string, k: nat)
    requires k < |s| && !IsSpace(s[k])
    ensures k < |TrimRight(s)|
    decreases |s|
  {
    if IsSpace(s[|s| - 1]) {
      assert k < |s| - 1;
      assert s[..|s| - 1][k] == s[k];
      TrimRightKeeps(s[..|s| - 1], k);
    }
  }

  /** `Strip` keeps the front of a string that starts with a non-space, up to any later non-space. */
  lemma StripKeepsFront(s: string, n: nat, i: nat)
    requires n <= i < |s| && !IsSpace(s[0]) && !IsSpace(s[i])
    ensures n <= |Strip(s)| && Strip(s)[..n] == s[..n]
  {
    assert TrimLeft(s) == s by {
      assert Span(s, IsSpace) == 0;
    }
    TrimRightKeeps(s, i);
  }

  /** Whatever is kept between surrounding whitespace is exactly what `Strip` returns. */
  lemma StripUnique(a: string, m: string, b: string)
    requires AllSpace(a) && AllSpace(b)
    requires m == [] || (!IsSpace(m[0]) && !IsSpace(m[|m| - 1]))
    ensures Strip(a + m + b) == m
  {
    if m == [] {
      assert a + m + b == a + b;
      assert AllSpace(a + b) by {
        forall k | 0 <= k < |a + b| ensures IsSpace((a + b)[k]) {
          if k >= |a| { assert (a + b)[k] == b[k - |a|]; }
        }
      }
      TrimLeftUnique(a + b, []);
      assert a + b + [] == a + b;
      TrimRightUnique([], []);
    } else {
      assert a + m + b == a + (m + b);
      TrimLeftUnique(a, m + b);
      TrimRightUnique(m, b);
    }
  }

  /** `SplitLines` undoes `JoinLines` on newline-free pieces. */
  lemma {:induction false} SplitJoinLines(lines: seq<string>)
    requires |lines| >= 1
    requires forall k :: 0 <= k < |lines| ==> NoNewline(lines[k])
    ensures SplitLines(JoinLines(lines)) == lines
    decreases |lines|
  {
    if |lines| > 1 {
      var s := JoinLines(lines);
      var n := |lines[0]|;
      assert s == lines[0] + "\n" + JoinLines(lines[1..]);
      assert OccursAt(s, "\n", n);
      forall j | 0 <= j < n ensures !OccursAt(s, "\n", j) {
        assert s[j] == lines[0][j];
      }
      assert Find(s, "\n") == Some(n);
      assert s[..n] == lines[0];
      assert s[n + 1..] == JoinLines(lines[1..]);
      SplitJoinLines(lines[1..]);
      assert lines == [lines[0]] + lines[1..];
    } else {
      var s := lines[0];
      forall j | 0 <= j < |s| ensures !OccursAt(s, "\n", j) {
        assert s[j..j + 1][0] == s[j];
      }
    }
  }

  /** No two newlines in a row, and no newline at the end. */
  predicate NoBlankLine(s: string)
  {
    && (forall j :: 0 <= j < |s| - 1 ==> !(s[j] == '\n' && s[j + 1] == '\n'))
    && (s == [] || s[|s| - 1] != '\n')
  }

  /** The first character of joined lines is that of the first line. */
  lemma JoinLinesStart(lines: seq<string>)
    requires |lines| >= 1 && lines[0] != []
    ensures JoinLines(lines) != [] && JoinLines(lines)[0] == lines[0][0]
  {
  }

  /** Lines that are all non-empty, save perhaps the first, join without a blank line. */
  lemma {:induction false} JoinLinesNoBlankLine(lines: seq<string>)
    requires |lines| >= 1
    requires forall k :: 0 <= k < |lines| ==> NoNewline(lines[k])
    requires forall k :: 1 <= k < |lines| ==> lines[k] != []
    ensures NoBlankLine(JoinLines(lines))
    decreases |lines|
  {
    if |lines| > 1 {
      var tail := lines[1..];
      var j' := JoinLines(tail);
      JoinLinesNoBlankLine(tail);
      JoinLinesStart(tail);
      var s := JoinLines(lines);
      var n := |lines[0]|;
      assert s == lines[0] + "\n" + j';
      forall j | 0 <= j < |s| - 1 ensures !(s[j] == '\n' && s[j + 1] == '\n') {
        if j < n {
          assert s[j] == lines[0][j];
        } else if j == n {
          assert s[j + 1] == j'[0];
        } else {
          assert s[j] == j'[j - n - 1] && s[j + 1] == j'[j - n];
        }
      }
      assert s[|s| - 1] == j'[|j'| - 1];
    } else {
      assert NoNewline(lines[0]);
    }
  }

  /** A character that no line holds, other than a newline, is not in the joined lines. */
  lemma {:induction false} JoinLinesAvoids(lines: seq<string>, c: char)
    requires c != '\n'
    requires forall k :: 0 <= k < |lines| ==> c !in lines[k]
    ensures c !in JoinLines(lines)
    decreases |lines|
  {
    if |lines| > 1 {
      JoinLinesAvoids(lines[1..], c);
    }
  }

  /**
   * In text without a blank line, followed by a blank line, the first blank
   * line is the one that follows.
   */
  lemma NoBlankLineBefore(body: string, rest: string)
    requires NoBlankLine(body)
    ensures forall j :: 0 <= j < |body| ==> !OccursAt(body + "\n\n" + rest, "\n\n", j)
  {
    var s := body + "\n\n" + rest;
    forall j | 0 <= j < |body| ensures !OccursAt(s, "\n\n", j) {
      assert s[j..j + 2][0] == s[j] == body[j];
      if j + 1 < |body| {
        assert s[j..j + 2][1] == body[j + 1];
      }
    }
  }

  /** Concatenation regrouped, for long concatenations where the solver would search. */
  lemma ConcatAssoc<T>(x: seq<T>, y: seq<T>, z: seq<T>)
    ensures x + y + z == x + (y + z)
  {
  }

  /** A pattern does not occur where one of its characters is missing. */
  lemma NotOccursAt(s: string, pat: string, i: nat, k: nat)
    requires k < |pat| && i + |pat| <= |s| && s[i + k] != pat[k]
    ensures !OccursAt(s, pat, i)
  {
    assert s[i..i + |pat|][k] == s[i + k];
  }
}
