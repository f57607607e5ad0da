/**
 * The release-notes parser: cutting a Markdown notes document into its
 * "What's Changed" and "Commits" sections, classifying each bullet line as a
 * pull-request line or a commit line, and finding the tracker issue key in a
 * change title.
 */
module NotesParser {
  import opened Wrappers
  import opened Strings

  /**
   * One parsed bullet line.  Pull-request lines carry an author and a link;
   * commit lines have neither key, which is None here.
   */
  datatype Change = Change(title: string, author: Option<string>, link: Option<string>)

  const ChangesSection: string := "What's Changed"
  const CommitsSection: string := "Commits"

  /** The heading line that opens a section. */
  function Marker(sectionTitle: string): string
  {
    "## " + sectionTitle + "\n"
  }

  // ---------------------------------------------------------------------
  // Section extraction
  // ---------------------------------------------------------------------

  /**
   * `_get_section`: the text after the first `## <title>\n`, up to the first
   * blank line after it.  None stands for the IndexError Python raises when
   * the heading is absent.  With no blank line after the heading the whole
   * remainder is returned.
   */
  function GetSection(content: string, sectionTitle: string): (r: Option<string>)
    ensures r.None? <==> !Contains(content, Marker(sectionTitle))
    ensures r.Some? ==>
      var rest := content[Find(content, Marker(sectionTitle)).value + |Marker(sectionTitle)|..];
      && StartsWith(rest, r.value)
      && (forall j :: 0 <= j < |r.value| ==> !OccursAt(rest, "\n\n", j))
      && (|r.value| == |rest| || OccursAt(rest, "\n\n", |r.value|))
    ensures r.Some? ==> forall j :: !OccursAt(r.value, "\n\n", j)
  {
    var m := Marker(sectionTitle);
    match SplitOnce(content, m)
    case None => None
    case Some((_, rest)) =>
      assert rest == content[Find(content, m).value + |m|..];
      match SplitOnce(rest, "\n\n")
      case None =>
        Some(rest)
      case Some((section, after)) =>
        CutAtFirst(rest, section, "\n\n", after);
        Some(section)
  }

  /**
   * A document whose first heading for the section comes after `prefix`,
   * then a body with no blank line in it, then a blank line: the section is
   * that body.
   */
  lemma GetSectionOfHeadedBlock(prefix: string, sectionTitle: string, body: string, rest: string)
    requires forall j :: 0 <= j < |prefix| ==>
      !OccursAt(prefix + Marker(sectionTitle) + body + "\n\n" + rest, Marker(sectionTitle), j)
    requires forall j :: 0 <= j < |body| ==> !OccursAt(body + "\n\n" + rest, "\n\n", j)
    ensures GetSection(prefix + Marker(sectionTitle) + body + "\n\n" + rest, sectionTitle) == Some(body)
  {
    var m := Marker(sectionTitle);
    var after := body + "\n\n" + rest;
    var content := prefix + m + after;
    assert content == prefix + m + body + "\n\n" + rest;
    assert content[|prefix|..|prefix| + |m|] == m;
    assert OccursAt(content, m, |prefix|);
    assert Find(content, m) == Some(|prefix|);
    assert content[|prefix| + |m|..] == after;
    assert OccursAt(after, "\n\n", |body|);
    assert after[..|body|] == body;
  }

  // ---------------------------------------------------------------------
  // Line classification
  // ---------------------------------------------------------------------

  /**
   * The pull-request shape `<title> by @<author> in <link>`: split once on
   * " by @", then split the rest once on " in ".  None when either split
   * finds no separator, which is where the source falls back to the commit
   * shape.
   */
  function ParsePr(raw: string): (r: Option<Change>)
    ensures r.Some? ==> r.value.author.Some? && r.value.link.Some?
  {
    match SplitOnce(raw, " by @")
    case None => None
    case Some((prTitle, tail)) =>
      match SplitOnce(tail, " in ")
      case None => None
      case Some((author, prLink)) => Some(Change(prTitle, Some(author), Some(prLink)))
  }

  /**
   * `ParsePr` succeeds exactly when " by @" occurs and " in " occurs after
   * its first occurrence; the title, author and link are then the untrimmed
   * pieces around the first " by @" and the first " in " after it.
   */
  lemma ParsePrSpec(raw: string)
    ensures ParsePr(raw).None? <==>
      !Contains(raw, " by @") || !Contains(raw[Find(raw, " by @").value + 5..], " in ")
    ensures ParsePr(raw).Some? ==>
      var c := ParsePr(raw).value;
      && raw == c.title + " by @" + c.author.value + " in " + c.link.value
      && (forall j :: 0 <= j < |c.title| ==> !OccursAt(raw, " by @", j))
      && (forall j :: 0 <= j < |c.author.value| ==> !OccursAt(c.author.value + " in " + c.link.value, " in ", j))
  {
    ParsePrNone(raw);
    if ParsePr(raw).Some? {
      ParsePrPieces(raw);
    }
  }

  /** When `ParsePr` fails: one of the two separators is missing. */
  lemma ParsePrNone(raw: string)
    ensures ParsePr(raw).None? <==>
      !Contains(raw, " by @") || !Contains(raw[Find(raw, " by @").value + 5..], " in ")
  {
    SplitOnceAtFind(raw, " by @");
    if Contains(raw, " by @") {
      SplitOnceAtFind(raw[Find(raw, " by @").value + 5..], " in ");
    }
  }

  /** When `ParsePr` succeeds: its pieces rebuild `raw` around the first separators. */
  lemma ParsePrPieces(raw: string)
    requires ParsePr(raw).Some?
    ensures var c := ParsePr(raw).value;
      && raw == c.title + " by @" + c.author.value + " in " + c.link.value
      && (forall j :: 0 <= j < |c.title| ==> !OccursAt(raw, " by @", j))
      && (forall j :: 0 <= j < |c.author.value| ==> !OccursAt(c.author.value + " in " + c.link.value, " in ", j))
  {
    var c := ParsePr(raw).value;
    var first := SplitOnce(raw, " by @");
    var tail := first.value.1;
    var second := SplitOnce(tail, " in ");
    assert c.title == first.value.0;
    assert second.Some? && c.author.value == second.value.0 && c.link.value == second.value.1;
    RebuildPrLine(raw, c.title, tail, c.author.value, c.link.value);
  }

  lemma RebuildPrLine(raw: string, t: string, tail: string, a: string, l: string)
    requires raw == t + " by @" + tail && tail == a + " in " + l
    ensures raw == t + " by @" + a + " in " + l
  {
    ConcatAssoc(t + " by @", a + " in ", l);
    ConcatAssoc(t, " by @", a + " in " + l);
  }

  /** Any pull-request line is split at the first " by @" and the first " in " after it. */
  lemma ParsePrOfPrLine(t: string, a: string, l: string)
    requires forall j :: 0 <= j < |t| ==> !OccursAt(t + " by @" + a + " in " + l, " by @", j)
    requires forall j :: 0 <= j < |a| ==> !OccursAt(a + " in " + l, " in ", j)
    ensures ParsePr(t + " by @" + a + " in " + l) == Some(Change(t, Some(a), Some(l)))
  {
    var tail := a + " in " + l;
    var raw := t + " by @" + tail;
    RebuildPrLine(raw, t, tail, a, l);
    SplitOnceAt(raw, t, " by @", tail);
    SplitOnceAt(tail, a, " in ", l);
  }

  /** A line without '@' never has the pull-request shape. */
  lemma ParsePrNeedsAt(raw: string)
    requires '@' !in raw
    ensures ParsePr(raw).None?
  {
    forall j | 0 <= j && j + 5 <= |raw| ensures !OccursAt(raw, " by @", j) {
      assert raw[j..j + 5][4] == raw[j + 4];
    }
  }

  /**
   * The pull-request split of a line whose title has no '@' and whose author
   * has no 'n': neither separator can then occur before its place.
   */
  lemma ParsePrOfPlainLine(t: string, a: string, l: string)
    requires '@' !in t && 'n' !in a
    ensures ParsePr(t + " by @" + a + " in " + l) == Some(Change(t, Some(a), Some(l)))
  {
    PlainLineSeparators(t, a, l);
    ParsePrOfPrLine(t, a, l);
  }

  /**
   * With no '@' in the title and no 'n' in the author, " by @" first occurs
   * right after the title and " in " right after the author.
   */
  lemma PlainLineSeparators(t: string, a: string, l: string)
    requires '@' !in t && 'n' !in a
    ensures forall j :: 0 <= j < |t| ==> !OccursAt(t + " by @" + a + " in " + l, " by @", j)
    ensures forall j :: 0 <= j < |a| ==> !OccursAt(a + " in " + l, " in ", j)
  {
    var raw := t + " by @" + a + " in " + l;
    forall j | 0 <= j < |t| ensures !OccursAt(raw, " by @", j) {
      assert raw[j..j + 5][4] == raw[j + 4];
      if j + 4 < |t| { assert raw[j + 4] == t[j + 4]; }
      else { assert raw[j + 4] == (" by @")[j + 4 - |t|]; }
    }
    var tail := a + " in " + l;
    forall j | 0 <= j < |a| ensures !OccursAt(tail, " in ", j) {
      assert tail[j..j + 4][2] == tail[j + 2];
      if j + 2 < |a| { assert tail[j + 2] == a[j + 2]; }
      else { assert tail[j + 2] == (" in ")[j + 2 - |a|]; }
    }
  }

  predicate IsSeparator(c: char)
  {
    c == ':' || c == '-'
  }

  predicate AllHex(s: string)
  {
    forall k :: 0 <= k < |s| ==> IsHexDigit(s[k])
  }

  /**
   * The length of the text that `^[0-9a-fA-F]{7,}\s*[:\-]\s*` matches at the
   * start of `raw`, if it matches: the whole leading hex run, which must be at
   * least 7 long, then whitespace, one separator and whitespace again, each
   * run taken as far as it goes.
   */
  function HashPrefixLength(raw: string): (r: Option<nat>)
    ensures r.Some? ==> 8 <= r.value <= |raw|
  {
    var h := RunEnd(raw, 0, IsHexDigit);
    if h < 7 then None
    else
      var sep := RunEnd(raw, h, IsSpace);
      if sep < |raw| && IsSeparator(raw[sep]) then Some(RunEnd(raw, sep + 1, IsSpace))
      else None
  }

  /**
   * `p` splits as the hash pattern requires: hex digits up to `i` (at least
   * 7), whitespace up to `j`, a separator at `j`, whitespace after it.
   */
  predicate HashPrefixSplit(p: string, i: int, j: int)
  {
    7 <= i <= j < |p| && AllHex(p[..i]) && AllSpace(p[i..j]) && IsSeparator(p[j]) && AllSpace(p[j + 1..])
  }

  /** The hash pattern read as a set of strings. */
  ghost predicate IsHashPrefix(p: string)
  {
    exists i, j :: HashPrefixSplit(p, i, j)
  }

  /** What `HashPrefixLength` measures is a prefix in the pattern's language. */
  lemma HashPrefixMatches(raw: string)
    requires HashPrefixLength(raw).Some?
    ensures IsHashPrefix(raw[..HashPrefixLength(raw).value])
  {
    var h := RunEnd(raw, 0, IsHexDigit);
    var j := RunEnd(raw, h, IsSpace);
    var n := HashPrefixLength(raw).value;
    var p := raw[..n];
    assert AllHex(p[..h]) by {
      var q := p[..h];
      forall k | 0 <= k < |q| ensures IsHexDigit(q[k]) { assert q[k] == raw[k]; }
    }
    assert AllSpace(p[h..j]) by {
      var q := p[h..j];
      forall k | 0 <= k < |q| ensures IsSpace(q[k]) { assert q[k] == raw[h + k]; }
    }
    assert AllSpace(p[j + 1..]) by {
      var q := p[j + 1..];
      forall k | 0 <= k < |q| ensures IsSpace(q[k]) { assert q[k] == raw[j + 1 + k]; }
    }
    assert HashPrefixSplit(p, h, j);
  }

  // The three runs of any split of a prefix of `raw` are the ones `HashPrefixLength` measures.

  lemma HexRunOfSplit(raw: string, m: nat, i: nat, j: nat)
    requires m <= |raw| && HashPrefixSplit(raw[..m], i, j)
    ensures RunEnd(raw, 0, IsHexDigit) == i
  {
    var p := raw[..m];
    forall k | 0 <= k < i ensures IsHexDigit(raw[k]) { assert p[..i][k] == raw[k]; }
    assert !IsHexDigit(raw[i]) by {
      if i < j { assert p[i..j][0] == raw[i]; } else { assert p[j] == raw[i]; }
    }
    RunEndExact(raw, 0, IsHexDigit, i);
  }

  lemma SpaceRunOfSplit(raw: string, m: nat, i: nat, j: nat)
    requires m <= |raw| && HashPrefixSplit(raw[..m], i, j)
    ensures RunEnd(raw, i, IsSpace) == j
  {
    var p := raw[..m];
    forall k | i <= k < j ensures IsSpace(raw[k]) { assert p[i..j][k - i] == raw[k]; }
    assert !IsSpace(raw[j]) by { assert raw[j] == p[j]; }
    RunEndExact(raw, i, IsSpace, j);
  }

  lemma TrailingRunOfSplit(raw: string, m: nat, i: nat, j: nat)
    requires m <= |raw| && HashPrefixSplit(raw[..m], i, j)
    ensures m <= RunEnd(raw, j + 1, IsSpace)
  {
    var p := raw[..m];
    forall k | j + 1 <= k < m ensures IsSpace(raw[k]) { assert p[j + 1..][k - j - 1] == raw[k]; }
    RunEndAtLeast(raw, j + 1, IsSpace, m);
  }

  /** Any prefix in the pattern's language is no longer than what `HashPrefixLength` measures. */
  lemma HashPrefixIsLongest(raw: string, m: nat)
    requires m <= |raw| && IsHashPrefix(raw[..m])
    ensures HashPrefixLength(raw).Some? && m <= HashPrefixLength(raw).value
  {
    var i, j :| HashPrefixSplit(raw[..m], i, j);
    HexRunOfSplit(raw, m, i, j);
    SpaceRunOfSplit(raw, m, i, j);
    TrailingRunOfSplit(raw, m, i, j);
    assert IsSeparator(raw[j]) by { assert raw[j] == raw[..m][j]; }
    HashPrefixLengthFromRuns(raw, i, j, RunEnd(raw, j + 1, IsSpace));
  }

  /**
   * The prefix `HashPrefixLength` measures is the longest prefix of `raw` in
   * the pattern's language, which is the one Python's greedy matcher takes;
   * when it finds none, no prefix is in the language.
   */
  lemma HashPrefixIsLongestMatch(raw: string)
    ensures HashPrefixLength(raw).Some? ==> IsHashPrefix(raw[..HashPrefixLength(raw).value])
    ensures forall m: nat :: m <= |raw| && IsHashPrefix(raw[..m]) ==>
      HashPrefixLength(raw).Some? && m <= HashPrefixLength(raw).value
  {
    if HashPrefixLength(raw).Some? {
      HashPrefixMatches(raw);
    }
    forall m: nat | m <= |raw| && IsHashPrefix(raw[..m])
      ensures HashPrefixLength(raw).Some? && m <= HashPrefixLength(raw).value
    {
      HashPrefixIsLongest(raw, m);
    }
  }

  /** The hash pattern measured on a line built from its parts. */
  lemma HashPrefixLengthOf(hash: string, w1: string, sep: char, w2: string, rest: string)
    requires |hash| >= 7 && AllHex(hash)
    requires AllSpace(w1) && IsSeparator(sep) && AllSpace(w2)
    requires rest == [] || !IsSpace(rest[0])
    ensures HashPrefixLength(hash + (w1 + ([sep] + (w2 + rest)))) == Some(|hash| + |w1| + 1 + |w2|)
  {
    var raw := hash + (w1 + ([sep] + (w2 + rest)));
    HashLineRuns(raw, hash, w1, sep, w2, rest);
    HashPrefixLengthFromRuns(raw, |hash|, |hash| + |w1|, |hash| + |w1| + 1 + |w2|);
  }

  /** The three runs of a line built from a hash, a separator and its whitespace. */
  lemma HashLineRuns(raw: string, hash: string, w1: string, sep: char, w2: string, rest: string)
    requires raw == hash + (w1 + ([sep] + (w2 + rest)))
    requires AllHex(hash)
    requires AllSpace(w1) && IsSeparator(sep) && AllSpace(w2)
    requires rest == [] || !IsSpace(rest[0])
    ensures |hash| + |w1| < |raw| && raw[|hash| + |w1|] == sep
    ensures RunEnd(raw, 0, IsHexDigit) == |hash|
    ensures RunEnd(raw, |hash|, IsSpace) == |hash| + |w1|
    ensures RunEnd(raw, |hash| + |w1| + 1, IsSpace) == |hash| + |w1| + 1 + |w2|
  {
    var tail2 := [sep] + (w2 + rest);
    HashLineFront(raw, hash, w1, tail2);
    var front := hash + w1 + [sep];
    assert raw == front + (w2 + rest) by {
      ConcatAssoc(hash, w1, tail2);
      ConcatAssoc(hash + w1, [sep], w2 + rest);
    }
    RunEndOfPiece(raw, front, w2, rest, IsSpace);
  }

  /** The hex run and the whitespace run of a line that continues with a separator. */
  lemma HashLineFront(raw: string, hash: string, w1: string, tail: string)
    requires raw == hash + (w1 + tail)
    requires AllHex(hash) && AllSpace(w1)
    requires tail != [] && !IsHexDigit(tail[0]) && !IsSpace(tail[0])
    ensures |hash| + |w1| < |raw| && raw[|hash| + |w1|] == tail[0]
    ensures RunEnd(raw, 0, IsHexDigit) == |hash|
    ensures RunEnd(raw, |hash|, IsSpace) == |hash| + |w1|
  {
    var tail1 := w1 + tail;
    assert tail1[0] == if |w1| > 0 then w1[0] else tail[0];
    assert raw == [] + (hash + tail1);
    RunEndOfPiece(raw, [], hash, tail1, IsHexDigit);
    RunEndOfPiece(raw, hash, w1, tail, IsSpace);
    assert raw[|hash| + |w1|] == tail1[|w1|];
  }

  /** A run that fills the piece `a` of `s` and stops where `b` starts. */
  lemma RunEndOfPiece(s: string, pre: string, a: string, b: string, p: char -> bool)
    requires s == pre + (a + b)
    requires forall k :: 0 <= k < |a| ==> p(a[k])
    requires b == [] || !p(b[0])
    ensures RunEnd(s, |pre|, p) == |pre| + |a|
  {
    forall k | |pre| <= k < |pre| + |a| ensures p(s[k]) {
      assert s[k] == a[k - |pre|];
    }
    if b != [] {
      assert s[|pre| + |a|] == b[0];
    }
    RunEndExact(s, |pre|, p, |pre| + |a|);
  }

  /** `HashPrefixLength` from the ends of the three runs it measures. */
  lemma HashPrefixLengthFromRuns(raw: string, h: nat, j: nat, e: nat)
    requires 7 <= h && j < |raw| && IsSeparator(raw[j])
    requires RunEnd(raw, 0, IsHexDigit) == h
    requires RunEnd(raw, h, IsSpace) == j
    requires RunEnd(raw, j + 1, IsSpace) == e
    ensures HashPrefixLength(raw) == Some(e)
  {
  }

  /** `re.sub` of the hash pattern: the longest matching prefix removed, or `raw` unchanged. */
  function RemoveHashPrefix(raw: string): (r: string)
    ensures |r| <= |raw| && r == raw[|raw| - |r|..]
    ensures HashPrefixLength(raw).None? ==> r == raw
    ensures HashPrefixLength(raw).Some? ==> r == raw[HashPrefixLength(raw).value..]
  {
    match HashPrefixLength(raw)
    case None => raw
    case Some(n) => raw[n..]
  }

  /**
   * The title of a commit-style line: the hash prefix removed and the rest
   * stripped, or the whole of `raw` when that leaves nothing.  It is empty
   * only when `raw` is.
   */
  function CommitTitle(raw: string): (t: string)
    ensures t == [] <==> raw == []
    ensures Strip(RemoveHashPrefix(raw)) != [] ==> t == Strip(RemoveHashPrefix(raw))
    ensures Strip(RemoveHashPrefix(raw)) == [] ==> t == raw
  {
    var msg := Strip(RemoveHashPrefix(raw));
    if msg == [] then raw else msg
  }

  /** `<hash><ws><sep><ws><message><ws>` yields the message alone. */
  lemma CommitTitleOfHashLine(hash: string, w1: string, sep: char, w2: string, msg: string, w3: string)
    requires |hash| >= 7 && AllHex(hash)
    requires AllSpace(w1) && IsSeparator(sep) && AllSpace(w2) && AllSpace(w3)
    requires msg != [] && !IsSpace(msg[0]) && !IsSpace(msg[|msg| - 1])
    ensures CommitTitle(hash + w1 + [sep] + w2 + msg + w3) == msg
  {
    var tail := msg + w3;
    var front := hash + w1 + [sep] + w2;
    var raw := front + tail;
    HashLineNesting(hash, w1, [sep], w2, msg, w3);
    HashPrefixLengthOf(hash, w1, sep, w2, tail);
    assert RemoveHashPrefix(raw) == tail by {
      assert raw[|front|..] == tail;
    }
    assert tail == [] + msg + w3;
    StripUnique([], msg, w3);
  }

  /** The ways a commit-style line is grouped in the lemmas about it are one string. */
  lemma HashLineNesting(hash: string, w1: string, sep: string, w2: string, msg: string, w3: string)
    ensures hash + w1 + sep + w2 + msg + w3 == (hash + w1 + sep + w2) + (msg + w3)
    ensures (hash + w1 + sep + w2) + (msg + w3) == hash + (w1 + (sep + (w2 + (msg + w3))))
  {
    ConcatAssoc(hash + w1 + sep + w2, msg, w3);
    ConcatAssoc(hash + w1 + sep, w2, msg + w3);
    ConcatAssoc(hash + w1, sep, w2 + (msg + w3));
    ConcatAssoc(hash, w1, sep + (w2 + (msg + w3)));
  }

  /** A line that is nothing but a hash prefix keeps its whole text as the title. */
  lemma CommitTitleOfBareHash(raw: string)
    requires raw != [] && IsHashPrefix(raw)
    ensures CommitTitle(raw) == raw
  {
    HashPrefixIsLongestMatch(raw);
    assert raw[..|raw|] == raw;
    var n := HashPrefixLength(raw).value;
    assert n == |raw|;
    assert RemoveHashPrefix(raw) == [];
  }

  /** Without a hash prefix the title is the stripped line, or the line itself if that is blank. */
  lemma CommitTitleWithoutHash(raw: string)
    requires forall m: nat :: m <= |raw| ==> !IsHashPrefix(raw[..m])
    ensures CommitTitle(raw) == if Strip(raw) == [] then raw else Strip(raw)
  {
    HashPrefixIsLongestMatch(raw);
  }

  /** A line is a change item when its stripped form starts with "- ". */
  predicate IsItemLine(line: string)
  {
    StartsWith(Strip(line), "- ")
  }

  /** A bullet line has at least the marker and one further character. */
  lemma ItemLineLength(line: string)
    requires IsItemLine(line)
    ensures |line| >= 3
  {
    var s := Strip(line);
    assert s[..2] == "- ";
    assert s[1] == ' ';
    assert |s| != 2;
  }

  /**
   * One line of a section: no item unless it is a bullet; otherwise the
   * pull-request shape if it fits and the commit shape if not.  The text
   * parsed is the line minus its first two characters, taken from the line
   * as written, not from its stripped form.
   */
  function ParseLine(line: string): (r: Option<Change>)
    ensures r.Some? <==> IsItemLine(line)
    ensures r.Some? ==> |line| >= 3
    ensures r.Some? ==> (r.value.author.Some? <==> ParsePr(line[2..]).Some?)
    ensures r.Some? ==> (r.value.author.Some? <==> r.value.link.Some?)
    ensures r.Some? && r.value.author.None? ==> r.value.title != []
  {
    if !IsItemLine(line) then None
    else
      ItemLineLength(line);
      var raw := line[2..];
      match ParsePr(raw)
      case Some(c) => Some(c)
      case None => Some(Change(CommitTitle(raw), None, None))
  }

  /**
   * The item of a bullet line: the pull-request split of the line minus its
   * first two characters when that split fits, and otherwise a commit item
   * titled by `CommitTitle` of that text, with no author and no link.
   */
  lemma ParseLineSpec(line: string)
    ensures ParseLine(line).Some? <==> IsItemLine(line)
    ensures IsItemLine(line) && ParsePr(line[2..]).Some? ==> ParseLine(line) == ParsePr(line[2..])
    ensures IsItemLine(line) && ParsePr(line[2..]).None? ==>
      ParseLine(line) == Some(Change(CommitTitle(line[2..]), None, None))
  {
  }

  /** Blank lines and lines that open with anything but whitespace or '-' (such as the "**Full Changelog**" footer) are never items. */
  lemma NonBulletLineIgnored(line: string)
    requires AllSpace(line) || (|line| > 0 && !IsSpace(line[0]) && line[0] != '-')
    ensures ParseLine(line) == None
  {
    if AllSpace(line) {
      assert line == line + [] + [];
      StripUnique(line, [], []);
    } else {
      NoBulletAfterText(line);
    }
  }

  lemma NoBulletAfterText(line: string)
    requires |line| > 0 && !IsSpace(line[0]) && line[0] != '-'
    ensures !IsItemLine(line)
  {
    assert TrimLeft(line) == line by {
      assert Span(line, IsSpace) == 0;
    }
    var s := TrimRight(line);
    if |s| > 0 {
      assert s[0] == line[0];
    }
  }

  /**
   * "- " followed by text with a non-space at index `i` is a bullet line,
   * whatever whitespace ends it, and its parsed text is that text.
   */
  lemma BulletLine(raw: string, i: nat)
    requires i < |raw| && !IsSpace(raw[i])
    ensures IsItemLine("- " + raw) && ("- " + raw)[2..] == raw
  {
    var line := "- " + raw;
    assert line[0] == '-' && line[2 + i] == raw[i];
    StripKeepsFront(line, 2, 2 + i);
    assert line[..2] == "- ";
    assert line[2..] == raw;
  }

  /**
   * A bullet in the pull-request shape gives its title, author and link,
   * when " by @" first occurs after the title and " in " first occurs after
   * the author.
   */
  lemma PrBulletLine(t: string, a: string, l: string)
    requires forall j :: 0 <= j < |t| ==> !OccursAt(t + " by @" + a + " in " + l, " by @", j)
    requires forall j :: 0 <= j < |a| ==> !OccursAt(a + " in " + l, " in ", j)
    ensures ParseLine("- " + (t + " by @" + a + " in " + l)) == Some(Change(t, Some(a), Some(l)))
  {
    var raw := t + " by @" + a + " in " + l;
    assert raw[|t| + 4] == '@';
    BulletLine(raw, |t| + 4);
    ParsePrOfPrLine(t, a, l);
  }

  /**
   * A bullet in the commit shape that the pull-request split rejects gives
   * the message alone, with no author and no link.
   */
  lemma CommitBulletLine(hash: string, w1: string, sep: char, w2: string, msg: string, w3: string)
    requires |hash| >= 7 && AllHex(hash)
    requires AllSpace(w1) && IsSeparator(sep) && AllSpace(w2) && AllSpace(w3)
    requires msg != [] && !IsSpace(msg[0]) && !IsSpace(msg[|msg| - 1])
    requires ParsePr(hash + w1 + [sep] + w2 + msg + w3).None?
    ensures ParseLine("- " + (hash + w1 + [sep] + w2 + msg + w3)) == Some(Change(msg, None, None))
  {
    var raw := hash + w1 + [sep] + w2 + msg + w3;
    assert raw[0] == hash[0];
    BulletLine(raw, 0);
    CommitTitleOfHashLine(hash, w1, sep, w2, msg, w3);
  }

  /**
   * The text parsed is cut from the line as written: a bullet indented by two
   * spaces keeps its "- " marker in the title.
   */
  lemma IndentedBulletKeepsMarker(rest: string)
    requires rest != [] && !IsSpace(rest[|rest| - 1]) && '@' !in rest
    ensures ParseLine("  " + ("- " + rest)) == Some(Change("- " + rest, None, None))
  {
    IndentedBulletLine(rest);
    DashTextIsCommit(rest);
    ParseLineOfCommitText("  " + ("- " + rest), "- " + rest);
  }

  /** Text opening with "- " and without '@' is commit-style text that is its own title. */
  lemma DashTextIsCommit(rest: string)
    requires rest != [] && !IsSpace(rest[|rest| - 1]) && '@' !in rest
    ensures ParsePr("- " + rest).None? && CommitTitle("- " + rest) == "- " + rest
  {
    var raw := "- " + rest;
    assert '@' !in raw;
    ParsePrNeedsAt(raw);
    assert raw[0] == '-' && raw[|raw| - 1] == rest[|rest| - 1];
    CommitTitleOfPlainText(raw);
  }

  /** A bullet line whose text is not in the pull-request shape gives the commit title of that text. */
  lemma ParseLineOfCommitText(line: string, raw: string)
    requires IsItemLine(line) && line[2..] == raw && ParsePr(raw).None?
    ensures ParseLine(line) == Some(Change(CommitTitle(raw), None, None))
  {
    ParseLineSpec(line);
  }

  /** A bullet indented by two spaces is still a bullet line. */
  lemma IndentedBulletLine(rest: string)
    requires rest != [] && !IsSpace(rest[|rest| - 1])
    ensures IsItemLine("  " + ("- " + rest)) && ("  " + ("- " + rest))[2..] == "- " + rest
  {
    var raw := "- " + rest;
    var line := "  " + raw;
    assert raw[|raw| - 1] == rest[|rest| - 1];
    assert AllSpace("  ");
    assert line == "  " + raw + [];
    StripUnique("  ", raw, []);
  }

  /** Text that does not start with a hex digit, and has no whitespace around it, is its own title. */
  lemma CommitTitleOfPlainText(raw: string)
    requires raw != [] && !IsHexDigit(raw[0]) && !IsSpace(raw[0]) && !IsSpace(raw[|raw| - 1])
    ensures CommitTitle(raw) == raw
  {
    assert RunEnd(raw, 0, IsHexDigit) == 0;
    assert raw == [] + raw + [];
    StripUnique([], raw, []);
  }

  // ---------------------------------------------------------------------
  // Section contents
  // ---------------------------------------------------------------------

  /** The items one line contributes: none or one. */
  function LineItems(line: string): (r: seq<Change>)
    ensures |r| <= 1
  {
    match ParseLine(line)
    case None => []
    case Some(c) => [c]
  }

  /** The items of a sequence of lines, in line order. */
  function ParseLines(lines: seq<string>): (items: seq<Change>)
    ensures |items| <= |lines|
  {
    if |lines| == 0 then []
    else ParseLines(lines[..|lines| - 1]) + LineItems(lines[|lines| - 1])
  }

  /** `_parse_changelist` as a function: the items of the section's lines. */
  function Changelist(content: string): seq<Change>
  {
    ParseLines(SplitLines(content))
  }

  /** The bullet lines among `lines`, in order. */
  function ItemLines(lines: seq<string>): (r: seq<string>)
    ensures |r| <= |lines|
    ensures forall k :: 0 <= k < |r| ==> IsItemLine(r[k])
  {
    if |lines| == 0 then []
    else if IsItemLine(lines[|lines| - 1]) then ItemLines(lines[..|lines| - 1]) + [lines[|lines| - 1]]
    else ItemLines(lines[..|lines| - 1])
  }

  /** Every bullet line yields exactly one item, in the order of the lines. */
  lemma {:induction false} ParseLinesOfItemLines(lines: seq<string>)
    ensures |ParseLines(lines)| == |ItemLines(lines)|
    ensures forall k :: 0 <= k < |ItemLines(lines)| ==>
      ParseLine(ItemLines(lines)[k]) == Some(ParseLines(lines)[k])
  {
    if |lines| > 0 {
      var init := lines[..|lines| - 1];
      var last := lines[|lines| - 1];
      ParseLinesOfItemLines(init);
      if IsItemLine(last) {
        var c := ParseLine(last).value;
        assert ParseLines(lines) == ParseLines(init) + [c];
        assert ItemLines(lines) == ItemLines(init) + [last];
      } else {
        assert ParseLines(lines) == ParseLines(init) + [];
        assert ItemLines(lines) == ItemLines(init);
      }
    }
  }

  /** The items of two runs of lines are the items of the first followed by those of the second. */
  lemma {:induction false} ParseLinesAppend(a: seq<string>, b: seq<string>)
    ensures ParseLines(a + b) == ParseLines(a) + ParseLines(b)
    decreases |b|
  {
    if |b| == 0 {
      assert a + b == a;
    } else {
      var b' := b[..|b| - 1];
      var last := b[|b| - 1];
      var items := LineItems(last);
      assert (a + b)[..|a + b| - 1] == a + b';
      assert (a + b)[|a + b| - 1] == last;
      ParseLinesAppend(a, b');
      ConcatAssoc(ParseLines(a), ParseLines(b'), items);
    }
  }

  /** A line that is not a bullet contributes nothing wherever it stands. */
  lemma NonItemLineContributesNothing(a: seq<string>, line: string, b: seq<string>)
    requires !IsItemLine(line)
    ensures ParseLines(a + [line] + b) == ParseLines(a + b)
  {
    assert LineItems(line) == [];
    assert (a + [line])[..|a|] == a;
    assert ParseLines(a + [line]) == ParseLines(a);
    ParseLinesAppend(a + [line], b);
    ParseLinesAppend(a, b);
  }

  /**
   * `_parse_changelist`: walk the lines of `content` and append one item per
   * bullet line.
   */
  method ParseChangelist(content: string) returns (items: seq<Change>)
    ensures items == Changelist(content)
    ensures |items| == |ItemLines(SplitLines(content))| <= |SplitLines(content)|
  {
    var lines := SplitLines(content);
    items := [];
    for i := 0 to |lines|
      invariant items == ParseLines(lines[..i])
    {
      var line := lines[i];
      assert ParseLines(lines[..i + 1]) == items + LineItems(line) by {
        assert lines[..i + 1][..i] == lines[..i];
      }
      if StartsWith(Strip(line), "- ") {
        var raw := line[2..];
        var pr := ParsePr(raw);
        if pr.Some? {
          assert LineItems(line) == [pr.value];
          items := items + [pr.value];
        } else {
          var msg := Strip(RemoveHashPrefix(raw));
          if msg == [] {
            msg := raw;
          }
          assert LineItems(line) == [Change(msg, None, None)];
          items := items + [Change(msg, None, None)];
        }
      } else {
        assert LineItems(line) == [];
      }
    }
    assert lines[..|lines|] == lines;
    ParseLinesOfItemLines(lines);
  }

  /** The items of a section written out line by line are the items of those lines. */
  lemma ChangelistOfLines(lines: seq<string>)
    requires |lines| >= 1
    requires forall k :: 0 <= k < |lines| ==> NoNewline(lines[k])
    ensures Changelist(JoinLines(lines)) == ParseLines(lines)
  {
    SplitJoinLines(lines);
  }

  // ---------------------------------------------------------------------
  // The whole document
  // ---------------------------------------------------------------------

  /**
   * What one section contributes: nothing when its heading is absent, and
   * otherwise the items of its text.  The heading is tested before the
   * section is cut, so the failure path of `GetSection` is never taken.
   */
  function SectionItems(content: string, sectionTitle: string): (r: seq<Change>)
    ensures !Contains(content, Marker(sectionTitle)) ==> r == []
    ensures Contains(content, Marker(sectionTitle)) ==>
      GetSection(content, sectionTitle).Some? && r == Changelist(GetSection(content, sectionTitle).value)
  {
    if Contains(content, Marker(sectionTitle)) then
      match GetSection(content, sectionTitle)
      case Some(section) => Changelist(section)
      case None => []
    else []
  }

  /**
   * A section written out line by line after its first heading and closed
   * by a blank line contributes the items of exactly those lines.
   */
  lemma SectionItemsOfHeadedBlock(prefix: string, sectionTitle: string, lines: seq<string>, rest: string)
    requires |lines| >= 1
    requires forall k :: 0 <= k < |lines| ==> NoNewline(lines[k])
    requires forall j :: 0 <= j < |prefix| ==>
      !OccursAt(prefix + Marker(sectionTitle) + JoinLines(lines) + "\n\n" + rest, Marker(sectionTitle), j)
    requires forall j :: 0 <= j < |JoinLines(lines)| ==> !OccursAt(JoinLines(lines) + "\n\n" + rest, "\n\n", j)
    ensures SectionItems(prefix + Marker(sectionTitle) + JoinLines(lines) + "\n\n" + rest, sectionTitle) == ParseLines(lines)
  {
    GetSectionOfHeadedBlock(prefix, sectionTitle, JoinLines(lines), rest);
    ChangelistOfLines(lines);
  }

  /** The items of the given sections, concatenated in their order. */
  function ItemsOfSections(content: string, titles: seq<string>): seq<Change>
  {
    if |titles| == 0 then []
    else ItemsOfSections(content, titles[..|titles| - 1]) + SectionItems(content, titles[|titles| - 1])
  }

  /** `extract_changes` as a function: "What's Changed" items, then "Commits" items. */
  function Changes(content: string): (r: seq<Change>)
    ensures r == SectionItems(content, ChangesSection) + SectionItems(content, CommitsSection)
  {
    var titles := [ChangesSection, CommitsSection];
    assert titles[..1] == [ChangesSection];
    assert titles[..1][..0] == [];
    assert ItemsOfSections(content, titles[..1]) == SectionItems(content, ChangesSection);
    ItemsOfSections(content, titles)
  }

  /**
   * A document with a "What's Changed" section and then a "Commits" section,
   * each closed by a blank line, gives the items of the first section's
   * lines followed by those of the second's.  Any text may come before the
   * first heading, as long as neither heading starts earlier than where it
   * is written.  An empty first line (the blank line under a heading) is
   * allowed; no other line may be empty, since an empty line would close the
   * section early.
   */
  lemma ChangesOfDocument(prefix: string, a: seq<string>, b: seq<string>, footer: string)
    requires |a| >= 1 && |b| >= 1
    requires forall k :: 0 <= k < |a| ==> NoNewline(a[k])
    requires forall k :: 0 <= k < |b| ==> NoNewline(b[k])
    requires forall k :: 1 <= k < |a| ==> a[k] != []
    requires forall k :: 1 <= k < |b| ==> b[k] != []
    requires forall j :: 0 <= j < |prefix| ==>
      !OccursAt(prefix + Marker(ChangesSection) + JoinLines(a) + "\n\n" + (Marker(CommitsSection) + JoinLines(b) + "\n\n" + footer),
                Marker(ChangesSection), j)
    requires forall j :: 0 <= j < |prefix + Marker(ChangesSection) + JoinLines(a) + "\n\n"| ==>
      !OccursAt(prefix + Marker(ChangesSection) + JoinLines(a) + "\n\n" + (Marker(CommitsSection) + JoinLines(b) + "\n\n" + footer),
                Marker(CommitsSection), j)
    ensures Changes(prefix + Marker(ChangesSection) + JoinLines(a) + "\n\n" + (Marker(CommitsSection) + JoinLines(b) + "\n\n" + footer))
      == ParseLines(a) + ParseLines(b)
  {
    var ja := JoinLines(a);
    var jb := JoinLines(b);
    var rest := Marker(CommitsSection) + jb + "\n\n" + footer;
    var content := prefix + Marker(ChangesSection) + ja + "\n\n" + rest;
    assert SectionItems(content, ChangesSection) == ParseLines(a) by {
      JoinLinesNoBlankLine(a);
      NoBlankLineBefore(ja, rest);
      SectionItemsOfHeadedBlock(prefix, ChangesSection, a, rest);
    }
    assert SectionItems(content, CommitsSection) == ParseLines(b) by {
      var p := prefix + Marker(ChangesSection) + ja + "\n\n";
      var mk := Marker(CommitsSection);
      ConcatAssoc(p, mk + jb + "\n\n", footer);
      ConcatAssoc(p, mk + jb, "\n\n");
      ConcatAssoc(p, mk, jb);
      assert content == p + mk + jb + "\n\n" + footer;
      JoinLinesNoBlankLine(b);
      NoBlankLineBefore(jb, footer);
      SectionItemsOfHeadedBlock(p, CommitsSection, b, footer);
    }
  }

  /**
   * The common case of `ChangesOfDocument`: the document starts with its
   * "What's Changed" heading and that section holds no '#', so the first
   * "Commits" heading is the one after it.
   */
  lemma ChangesOfHashFreeDocument(a: seq<string>, b: seq<string>, footer: string)
    requires |a| >= 1 && |b| >= 1
    requires forall k :: 0 <= k < |a| ==> NoNewline(a[k]) && '#' !in a[k]
    requires forall k :: 0 <= k < |b| ==> NoNewline(b[k])
    requires forall k :: 1 <= k < |a| ==> a[k] != []
    requires forall k :: 1 <= k < |b| ==> b[k] != []
    ensures Changes(Marker(ChangesSection) + JoinLines(a) + "\n\n" + (Marker(CommitsSection) + JoinLines(b) + "\n\n" + footer))
      == ParseLines(a) + ParseLines(b)
  {
    var rest := Marker(CommitsSection) + JoinLines(b) + "\n\n" + footer;
    JoinLinesAvoids(a, '#');
    CommitsHeadingFirst(JoinLines(a), rest);
    assert [] + Marker(ChangesSection) == Marker(ChangesSection);
    ChangesOfDocument([], a, b, footer);
  }

  /** With no '#' in the first section's text, the first "Commits" heading is not inside it. */
  lemma CommitsHeadingFirst(ja: string, rest: string)
    requires '#' !in ja
    ensures forall j :: 0 <= j < |Marker(ChangesSection) + ja + "\n\n"| ==>
      !OccursAt(Marker(ChangesSection) + ja + "\n\n" + rest, Marker(CommitsSection), j)
  {
    var mc := Marker(ChangesSection);
    var mk := Marker(CommitsSection);
    var p := mc + ja + "\n\n";
    var content := p + rest;
    forall j | 0 <= j < |p| ensures !OccursAt(content, mk, j) {
      if j + |mk| > |content| {
      } else if j == 0 {
        assert content[3] == p[3] == mc[3] == 'W';
        NotOccursAt(content, mk, 0, 3);
      } else if j == 1 {
        assert content[2] == p[2] == mc[2] == ' ';
        NotOccursAt(content, mk, 1, 1);
      } else {
        assert content[j] == p[j];
        if j < |mc| {
          assert p[j] == mc[j];
        } else if j < |mc| + |ja| {
          assert p[j] == ja[j - |mc|];
        } else {
          assert p[j] == '\n';
        }
        NotOccursAt(content, mk, j, 0);
      }
    }
  }

  /**
   * A document whose only section is "What's Changed", closed by a blank
   * line, gives the items of that section's lines.
   */
  lemma ChangesOfChangesSection(prefix: string, a: seq<string>, footer: string)
    requires |a| >= 1
    requires forall k :: 0 <= k < |a| ==> NoNewline(a[k])
    requires forall k :: 1 <= k < |a| ==> a[k] != []
    requires forall j :: 0 <= j < |prefix| ==>
      !OccursAt(prefix + Marker(ChangesSection) + JoinLines(a) + "\n\n" + footer, Marker(ChangesSection), j)
    requires !Contains(prefix + Marker(ChangesSection) + JoinLines(a) + "\n\n" + footer, Marker(CommitsSection))
    ensures Changes(prefix + Marker(ChangesSection) + JoinLines(a) + "\n\n" + footer) == ParseLines(a)
  {
    SectionItemsOfBlock(prefix, ChangesSection, a, footer);
  }

  /**
   * A document whose only section is "Commits", closed by a blank line,
   * gives the items of that section's lines.
   */
  lemma ChangesOfCommitsSection(prefix: string, b: seq<string>, footer: string)
    requires |b| >= 1
    requires forall k :: 0 <= k < |b| ==> NoNewline(b[k])
    requires forall k :: 1 <= k < |b| ==> b[k] != []
    requires forall j :: 0 <= j < |prefix| ==>
      !OccursAt(prefix + Marker(CommitsSection) + JoinLines(b) + "\n\n" + footer, Marker(CommitsSection), j)
    requires !Contains(prefix + Marker(CommitsSection) + JoinLines(b) + "\n\n" + footer, Marker(ChangesSection))
    ensures Changes(prefix + Marker(CommitsSection) + JoinLines(b) + "\n\n" + footer) == ParseLines(b)
  {
    SectionItemsOfBlock(prefix, CommitsSection, b, footer);
  }

  /** `SectionItemsOfHeadedBlock` for lines that are non-empty after the first. */
  lemma SectionItemsOfBlock(prefix: string, sectionTitle: string, lines: seq<string>, rest: string)
    requires |lines| >= 1
    requires forall k :: 0 <= k < |lines| ==> NoNewline(lines[k])
    requires forall k :: 1 <= k < |lines| ==> lines[k] != []
    requires forall j :: 0 <= j < |prefix| ==>
      !OccursAt(prefix + Marker(sectionTitle) + JoinLines(lines) + "\n\n" + rest, Marker(sectionTitle), j)
    ensures SectionItems(prefix + Marker(sectionTitle) + JoinLines(lines) + "\n\n" + rest, sectionTitle) == ParseLines(lines)
  {
    JoinLinesNoBlankLine(lines);
    NoBlankLineBefore(JoinLines(lines), rest);
    SectionItemsOfHeadedBlock(prefix, sectionTitle, lines, rest);
  }

  /** A document of one '#'-free "What's Changed" section gives that section's items. */
  lemma ChangesOfHashFreeChangesSection(a: seq<string>, footer: string)
    requires |a| >= 1
    requires forall k :: 0 <= k < |a| ==> NoNewline(a[k]) && '#' !in a[k]
    requires forall k :: 1 <= k < |a| ==> a[k] != []
    requires '#' !in footer
    ensures Changes(Marker(ChangesSection) + JoinLines(a) + "\n\n" + footer) == ParseLines(a)
  {
    JoinLinesAvoids(a, '#');
    CommitsHeadingAbsent(JoinLines(a) + "\n\n" + footer);
    RegroupSection(Marker(ChangesSection), JoinLines(a), footer);
    ChangesOfChangesSection([], a, footer);
  }

  /** A document of one '#'-free "Commits" section gives that section's items. */
  lemma ChangesOfHashFreeCommitsSection(b: seq<string>, footer: string)
    requires |b| >= 1
    requires forall k :: 0 <= k < |b| ==> NoNewline(b[k]) && '#' !in b[k]
    requires forall k :: 1 <= k < |b| ==> b[k] != []
    requires '#' !in footer
    ensures Changes(Marker(CommitsSection) + JoinLines(b) + "\n\n" + footer) == ParseLines(b)
  {
    JoinLinesAvoids(b, '#');
    ChangesHeadingAbsent(JoinLines(b) + "\n\n" + footer);
    RegroupSection(Marker(CommitsSection), JoinLines(b), footer);
    ChangesOfCommitsSection([], b, footer);
  }

  /** After the "What's Changed" heading, text without '#' holds no "Commits" heading. */
  lemma CommitsHeadingAbsent(s: string)
    requires '#' !in s
    ensures !Contains(Marker(ChangesSection) + s, Marker(CommitsSection))
  {
    assert ChangesSection[0] == 'W' && CommitsSection[0] == 'C';
    OtherHeadingAbsent(ChangesSection, CommitsSection, s);
  }

  /** After the "Commits" heading, text without '#' holds no "What's Changed" heading. */
  lemma ChangesHeadingAbsent(s: string)
    requires '#' !in s
    ensures !Contains(Marker(CommitsSection) + s, Marker(ChangesSection))
  {
    assert ChangesSection[0] == 'W' && CommitsSection[0] == 'C';
    OtherHeadingAbsent(CommitsSection, ChangesSection, s);
  }

  /** The two groupings of a one-section document. */
  lemma RegroupSection(m: string, body: string, footer: string)
    ensures [] + m + body + "\n\n" + footer == m + body + "\n\n" + footer
    ensures m + body + "\n\n" + footer == m + (body + "\n\n" + footer)
  {
    ConcatAssoc(m, body + "\n\n", footer);
    ConcatAssoc(m, body, "\n\n");
    assert [] + m == m;
  }

  /**
   * After a heading, text without '#' holds no heading whose title starts
   * with another letter: every heading starts with "##".
   */
  lemma OtherHeadingAbsent(sectionTitle: string, other: string, s: string)
    requires sectionTitle != [] && other != [] && sectionTitle[0] != other[0]
    requires '#' !in sectionTitle && '#' !in s
    ensures !Contains(Marker(sectionTitle) + s, Marker(other))
  {
    var m := Marker(sectionTitle);
    var mo := Marker(other);
    var content := m + s;
    forall j | 0 <= j < |content| ensures !OccursAt(content, mo, j) {
      if j + |mo| > |content| {
      } else if j == 0 {
        assert content[3] == m[3] == sectionTitle[0];
        assert mo[3] == other[0];
        NotOccursAt(content, mo, 0, 3);
      } else if j == 1 {
        assert content[2] == m[2] == ' ';
        NotOccursAt(content, mo, 1, 1);
      } else {
        if j < |m| {
          assert content[j] == m[j];
          if j == 2 {
          } else if j < |m| - 1 {
            assert m[j] == sectionTitle[j - 3];
          } else {
            assert m[j] == '\n';
          }
        } else {
          assert content[j] == s[j - |m|];
        }
        NotOccursAt(content, mo, j, 0);
      }
    }
  }

  /**
   * `extract_changes`, with the document text passed in: for each of the two
   * sections whose heading occurs, append the items of its text.
   */
  method ExtractChanges(content: string) returns (items: seq<Change>)
    ensures items == Changes(content)
  {
    var sections := [ChangesSection, CommitsSection];
    items := [];
    for i := 0 to |sections|
      invariant items == ItemsOfSections(content, sections[..i])
    {
      var section := sections[i];
      assert ItemsOfSections(content, sections[..i + 1]) == items + SectionItems(content, section) by {
        assert sections[..i + 1][..i] == sections[..i];
      }
      if Contains(content, Marker(section)) {
        match GetSection(content, section)
        case Some(sectionContent) =>
          var parsed := ParseChangelist(sectionContent);
          items := items + parsed;
        case None =>
      }
    }
    assert sections[..|sections|] == sections;
  }

  // ---------------------------------------------------------------------
  // Issue keys
  // ---------------------------------------------------------------------

  /** `key` is `<project>-` followed by one or more ASCII digits. */
  predicate IsIssueKey(key: string, project: string)
  {
    |key| > |project| + 1 && StartsWith(key, project + "-")
    && forall k :: |project| + 1 <= k < |key| ==> IsDigit(key[k])
  }

  /** The issue pattern `<project>-[0-9]+` can match at index `i`. */
  predicate KeyStartsAt(title: string, project: string, i: int)
  {
    OccursAt(title, project + "-", i) && i + |project| + 1 < |title| && IsDigit(title[i + |project| + 1])
  }

  /** `key` is what the greedy issue pattern matches at index `i`: a key, with no digit after it. */
  predicate KeyMatchAt(title: string, project: string, i: int, key: string)
  {
    OccursAt(title, key, i) && IsIssueKey(key, project) && (i + |key| == |title| || !IsDigit(title[i + |key|]))
  }

  /** The lowest index at or after `from` where the issue pattern can match. */
  function FirstKeyFrom(title: string, project: string, from: nat): (r: Option<nat>)
    ensures r.Some? ==> from <= r.value && KeyStartsAt(title, project, r.value)
    ensures r.Some? ==> forall j :: from <= j < r.value ==> !KeyStartsAt(title, project, j)
    ensures r.None? ==> forall j :: from <= j ==> !KeyStartsAt(title, project, j)
    decreases |title| - from
  {
    if from + |project| + 1 >= |title| then None
    else if KeyStartsAt(title, project, from) then Some(from)
    else FirstKeyFrom(title, project, from + 1)
  }

  /**
   * `extract_issue_id`: the first of the non-overlapping matches of
   * `<project>-[0-9]+`, which is the leftmost match with all the digits that
   * follow it, or None when there is none.
   */
  function ExtractIssueId(title: string, project: string): (r: Option<string>)
    ensures r.None? <==> forall i :: !KeyStartsAt(title, project, i)
  {
    match FirstKeyFrom(title, project, 0)
    case None => None
    case Some(i) =>
      var d := i + |project| + 1;
      Some(title[i..d + Span(title[d..], IsDigit)])
  }

  /**
   * A key `ExtractIssueId` returns is a `<project>-<digits>` substring of the
   * title starting at the leftmost index where the pattern can match, with
   * every digit that follows.
   */
  lemma ExtractIssueIdSpec(title: string, project: string)
    requires ExtractIssueId(title, project).Some?
    ensures var key := ExtractIssueId(title, project).value;
      exists i :: 0 <= i && KeyMatchAt(title, project, i, key) &&
        (forall j :: 0 <= j < i ==> !KeyStartsAt(title, project, j))
  {
    var i := FirstKeyFrom(title, project, 0).value;
    var d := i + |project| + 1;
    var n := Span(title[d..], IsDigit);
    var key := title[i..d + n];
    assert key == ExtractIssueId(title, project).value;
    assert key[..|project| + 1] == title[i..d];
    forall k | |project| + 1 <= k < |key| ensures IsDigit(key[k]) {
      assert key[k] == title[d..][k - |project| - 1];
    }
    if d + n < |title| { assert title[d + n] == title[d..][n]; }
    assert KeyMatchAt(title, project, i, key);
  }

  /** A key found at the leftmost match position is the one `ExtractIssueId` returns. */
  lemma ExtractIssueIdUnique(title: string, project: string, i: nat, key: string)
    requires KeyMatchAt(title, project, i, key)
    requires forall j :: 0 <= j < i ==> !KeyStartsAt(title, project, j)
    ensures ExtractIssueId(title, project) == Some(key)
  {
    KeyMatchStarts(title, project, i, key);
    var r := ExtractIssueId(title, project);
    ExtractIssueIdSpec(title, project);
    var i' :| 0 <= i' && KeyMatchAt(title, project, i', r.value) &&
      forall j :: 0 <= j < i' ==> !KeyStartsAt(title, project, j);
    KeyMatchStarts(title, project, i', r.value);
    assert i' == i;
    KeyLengthUnique(title, project, i, key, r.value);
  }

  /** Where a key matches, the pattern can match. */
  lemma KeyMatchStarts(title: string, project: string, i: int, key: string)
    requires KeyMatchAt(title, project, i, key)
    ensures KeyStartsAt(title, project, i)
  {
    assert title[i..i + |project| + 1] == key[..|project| + 1];
    assert title[i + |project| + 1] == key[|project| + 1];
  }

  /** Two greedy matches at the same index are the same key. */
  lemma KeyLengthUnique(title: string, project: string, i: nat, k1: string, k2: string)
    requires KeyMatchAt(title, project, i, k1) && KeyMatchAt(title, project, i, k2)
    ensures k1 == k2
  {
    assert k1 == title[i..i + |k1|];
  }

  /** A title that starts with a key gives that key, whatever follows a non-digit. */
  lemma ExtractIssueIdOfLeadingKey(project: string, digits: string, rest: string)
    requires digits != [] && forall k :: 0 <= k < |digits| ==> IsDigit(digits[k])
    requires rest == [] || !IsDigit(rest[0])
    ensures ExtractIssueId(project + "-" + digits + rest, project) == Some(project + "-" + digits)
  {
    var key := project + "-" + digits;
    var title := key + rest;
    assert title[0..|key|] == key;
    assert key[..|project| + 1] == project + "-";
    forall k | |project| + 1 <= k < |key| ensures IsDigit(key[k]) {
      assert key[k] == digits[k - |project| - 1];
    }
    if |key| < |title| { assert title[|key|] == rest[0]; }
    assert KeyMatchAt(title, project, 0, key);
    ExtractIssueIdUnique(title, project, 0, key);
  }

  /** A title without '-' mentions no key. */
  lemma ExtractIssueIdNeedsDash(title: string, project: string)
    requires '-' !in title
    ensures ExtractIssueId(title, project) == None
  {
    forall i | 0 <= i && i + |project| + 1 <= |title| ensures !KeyStartsAt(title, project, i) {
      assert title[i..i + |project| + 1][|project|] == title[i + |project|];
    }
  }

  /** Extracting from a key alone gives the key back. */
  lemma ExtractIssueIdOfKey(key: string, project: string)
    requires IsIssueKey(key, project)
    ensures ExtractIssueId(key, project) == Some(key)
  {
    assert key[0..|key|] == key;
    ExtractIssueIdUnique(key, project, 0, key);
  }

  /** Extraction is idempotent: a key it returns extracts to itself. */
  lemma ExtractIssueIdIdempotent(title: string, project: string)
    requires ExtractIssueId(title, project).Some?
    ensures ExtractIssueId(ExtractIssueId(title, project).value, project) == ExtractIssueId(title, project)
  {
    ExtractIssueIdOfKey(ExtractIssueId(title, project).value, project);
  }
}
