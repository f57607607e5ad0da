/**
 * The expectations of the notes parser's test file, test by test, and the
 * key-collection examples of the release script, as lemmas about the model.
 * Each test's document is written as its lines, and each line as the
 * concatenation of its parts (title, author, link; hash, whitespace,
 * separator, message).  That keeps every literal short: the verifier
 * reasons about long string literals slowly, and the parts are exactly what
 * the line-level lemmas take apart.
 */
module Scenarios {
  import opened Wrappers
  import opened Strings
  import opened NotesParser
  import opened IssueKeys

  // ---------------------------------------------------------------------
  // Pieces shared by the test documents
  // ---------------------------------------------------------------------

  /** The link of a pull request of the test repository. */
  function PullLink(number: string): string
  {
    "https://" + "github.com" + "/org" + "/repo" + "/pull/" + number
  }

  /** The footer every test document ends with. */
  const ChangelogFooter: string :=
    "**Full" + " Changelog**: " + "https://" + "github.com" + "/org" + "/repo" + "/compare/" + "v1.0.0" + "..." + "v1.0.1" + "\n"

  lemma PullLinkAvoids(number: string)
    requires '#' !in number && '\n' !in number
    ensures '#' !in PullLink(number) && '\n' !in PullLink(number)
  {
    assert '#' !in "https://" && '\n' !in "https://";
    assert '#' !in "github.com" && '\n' !in "github.com";
    assert '#' !in "/org" && '\n' !in "/org";
    assert '#' !in "/repo" && '\n' !in "/repo";
    assert '#' !in "/pull/" && '\n' !in "/pull/";
  }

  /** The abbreviated hashes of the test commits: seven hex digits, none of '@', '#' or a newline. */
  predicate TestHash(hash: string)
  {
    |hash| >= 7 && AllHex(hash) && '@' !in hash && '#' !in hash && '\n' !in hash
  }

  lemma TestHashes()
    ensures TestHash("1234567") && TestHash("abcdef0")
    ensures TestHash("abc1234") && TestHash("def5678")
  {
  }

  /** A commit message of the tests: non-space ends, and none of '@', '#' or a newline. */
  predicate TestMessage(msg: string)
  {
    msg != [] && !IsSpace(msg[0]) && !IsSpace(msg[|msg| - 1]) && '@' !in msg && '#' !in msg && '\n' !in msg
  }

  /** A title that starts with `TEST-`, three digits and a space mentions the key `TEST-` with those digits. */
  lemma LeadingTestKey(digits: string, text: string)
    requires |digits| == 3 && IsDigit(digits[0]) && IsDigit(digits[1]) && IsDigit(digits[2])
    requires text != [] && text[0] == ' '
    ensures ExtractIssueId("TEST" + "-" + digits + text, "TEST") == Some("TEST-" + digits)
  {
    ExtractIssueIdOfLeadingKey("TEST", digits, text);
    assert "TEST" + "-" + digits == "TEST-" + digits;
  }

  /** A title `TEST-<digits><text>` whose parts hold none of '@', '#' or a newline, and whose text ends with a non-space, is such a message. */
  lemma KeyTitleParts(digits: string, text: string)
    requires '#' !in digits && '\n' !in digits && '@' !in digits
    requires text != [] && !IsSpace(text[|text| - 1]) && '#' !in text && '\n' !in text && '@' !in text
    ensures TestMessage("TEST" + "-" + digits + text)
  {
    var t := "TEST" + "-" + digits + text;
    assert t[0] == 'T' && t[|t| - 1] == text[|text| - 1];
  }

  /** The footer holds no heading. */
  lemma FooterShape()
    ensures '#' !in ChangelogFooter
  {
    assert '#' !in "**Full";
    assert '#' !in " Changelog**: ";
    assert '#' !in "https://";
    assert '#' !in "github.com";
    assert '#' !in "/org";
    assert '#' !in "/repo";
    assert '#' !in "/compare/";
    assert '#' !in "v1.0.0";
    assert '#' !in "v1.0.1";
  }

  /** A pull-request line whose parts hold no '#' and no newline holds neither. */
  lemma PrLineShape(t: string, a: string, l: string)
    requires '#' !in t && '\n' !in t && '#' !in a && '\n' !in a && '#' !in l && '\n' !in l
    ensures var line := "- " + (t + " by @" + a + " in " + l);
      '#' !in line && NoNewline(line) && line != []
  {
    NoNewlineOfAvoid("- " + (t + " by @" + a + " in " + l));
  }

  /** A commit line whose parts hold no '#' and no newline holds neither. */
  lemma CommitLineShape(hash: string, w1: string, sep: char, w2: string, msg: string)
    requires TestHash(hash) && '#' !in w1 && '\n' !in w1
    requires sep != '#' && sep != '\n' && '#' !in w2 && '\n' !in w2 && TestMessage(msg)
    ensures var line := "- " + (hash + w1 + [sep] + w2 + msg);
      '#' !in line && NoNewline(line) && line != []
  {
    NoNewlineOfAvoid("- " + (hash + w1 + [sep] + w2 + msg));
  }

  /** An item line after some lines adds its item after theirs. */
  lemma ParseLinesSnoc(ls: seq<string>, l: string, c: Change)
    requires ParseLine(l) == Some(c)
    ensures ParseLines(ls + [l]) == ParseLines(ls) + [c]
  {
    assert (ls + [l])[..|ls|] == ls;
  }

  /** A commit line of the tests, `- <hash><ws><sep><ws><message>` with no '@', gives its message. */
  lemma CommitLineItem(hash: string, w1: string, sep: char, w2: string, msg: string)
    requires TestHash(hash) && TestMessage(msg)
    requires AllSpace(w1) && IsSeparator(sep) && AllSpace(w2) && '@' !in w1 && '@' !in w2
    ensures ParseLine("- " + (hash + w1 + [sep] + w2 + msg)) == Some(Change(msg, None, None))
  {
    var raw := hash + w1 + [sep] + w2 + msg;
    assert raw + "" == raw;
    ParsePrNeedsAt(raw);
    CommitBulletLine(hash, w1, sep, w2, msg, "");
  }

  /** The blank line that follows a heading gives no item. */
  lemma BlankLineItems()
    ensures ParseLines([""]) == []
  {
    NonBulletLineIgnored("");
    assert [""][..0] == [];
  }

  /** A blank line followed by an item line gives that one item. */
  lemma ItemsOfTwoLines(l1: string, c1: Change)
    requires ParseLine(l1) == Some(c1)
    ensures ParseLines([""] + [l1]) == [c1]
  {
    BlankLineItems();
    ParseLinesSnoc([""], l1, c1);
  }

  /** A blank line followed by two item lines gives those two items. */
  lemma ItemsOfThreeLines(l1: string, l2: string, c1: Change, c2: Change)
    requires ParseLine(l1) == Some(c1) && ParseLine(l2) == Some(c2)
    ensures ParseLines([""] + [l1] + [l2]) == [c1] + [c2]
  {
    ItemsOfTwoLines(l1, c1);
    ParseLinesSnoc([""] + [l1], l2, c2);
  }

  /** The keys of two changes, in order, given the key of each title. */
  lemma KeysOfTwo(cs: seq<Change>, project: string, k0: Option<string>, k1: Option<string>)
    requires |cs| == 2
    requires ExtractIssueId(cs[0].title, project) == k0
    requires ExtractIssueId(cs[1].title, project) == k1
    ensures KeysOf(cs, project) == [k0, k1]
  {
    var ks := KeysOf(cs, project);
    assert ks[0] == k0 && ks[1] == k1;
  }

  /** The key of one change, given the key of its title. */
  lemma KeysOfOne(c: Change, project: string, k0: Option<string>)
    requires ExtractIssueId(c.title, project) == k0
    ensures KeysOf([c], project) == [k0]
  {
    var ks := KeysOf([c], project);
    assert ks[0] == k0;
  }

  /** The keys of two lists of changes, one after the other, are the keys of the joined list. */
  lemma KeysOfAppend(cs: seq<Change>, ds: seq<Change>, project: string)
    ensures KeysOf(cs + ds, project) == KeysOf(cs, project) + KeysOf(ds, project)
  {
    var ks := KeysOf(cs + ds, project);
    forall k | 0 <= k < |ks|
      ensures ks[k] == (KeysOf(cs, project) + KeysOf(ds, project))[k]
    {
      if k >= |cs| {
        assert (cs + ds)[k] == ds[k - |cs|];
      }
    }
  }

  /** The footer and the blank line after a section give no item. */
  lemma FooterAndBlankLines()
    ensures ParseLine("**Full Changelog**: " + "https://github.com/org/repo/compare/v1.0.0...v1.0.1") == None
    ensures ParseLine("") == None
  {
    var footer := "**Full Changelog**: " + "https://github.com/org/repo/compare/v1.0.0...v1.0.1";
    assert footer[0] == '*';
    NonBulletLineIgnored(footer);
    NonBulletLineIgnored("");
  }

  // ---------------------------------------------------------------------
  // test_pr_style_parsing: a "What's Changed" section of two pull requests
  // ---------------------------------------------------------------------

  const LoginTitle: string := "TEST" + "-" + "123" + (" Fix" + " login" + " bug")
  const LoginLink: string := PullLink("1")
  const LoginLine: string := "- " + (LoginTitle + " by @" + "alice" + " in " + LoginLink)
  const LoginChange: Change := Change(LoginTitle, Some("alice"), Some(LoginLink))
  const FeatureTitle: string := "TEST" + "-" + "456" + (" Add" + " new" + " feature")
  const FeatureLink: string := PullLink("2")
  const FeatureLine: string := "- " + (FeatureTitle + " by @" + "bob" + " in " + FeatureLink)
  const FeatureChange: Change := Change(FeatureTitle, Some("bob"), Some(FeatureLink))
  /** The blank line under the heading, then the two pull requests. */
  const PrStyleLines: seq<string> := [""] + [LoginLine] + [FeatureLine]

  /** The document of the first test: one section, then the footer. */
  function PrStyleDocument(): string
  {
    Marker(ChangesSection) + JoinLines(PrStyleLines) + "\n\n" + ChangelogFooter
  }

  /** The first pull-request line of the first test. */
  lemma FirstPrLine()
    ensures ParseLine(LoginLine) == Some(LoginChange)
  {
    PlainLineSeparators(LoginTitle, "alice", LoginLink);
    PrBulletLine(LoginTitle, "alice", LoginLink);
  }

  /** The second pull-request line of the first test. */
  lemma SecondPrLine()
    ensures ParseLine(FeatureLine) == Some(FeatureChange)
  {
    PlainLineSeparators(FeatureTitle, "bob", FeatureLink);
    PrBulletLine(FeatureTitle, "bob", FeatureLink);
  }

  lemma LoginKey()
    ensures ExtractIssueId(LoginTitle, "TEST") == Some("TEST-123")
  {
    LeadingTestKey("123", (" Fix" + " login" + " bug"));
    assert "TEST-" + "123" == "TEST-123";
  }

  lemma FeatureKey()
    ensures ExtractIssueId(FeatureTitle, "TEST") == Some("TEST-456")
  {
    LeadingTestKey("456", (" Add" + " new" + " feature"));
    assert "TEST-" + "456" == "TEST-456";
  }

  lemma LoginLineShape()
    ensures '#' !in LoginLine && NoNewline(LoginLine) && LoginLine != []
  {
    KeyTitleParts("123", (" Fix" + " login" + " bug"));
    PullLinkAvoids("1");
    PrLineShape(LoginTitle, "alice", LoginLink);
  }

  lemma FeatureLineShape()
    ensures '#' !in FeatureLine && NoNewline(FeatureLine) && FeatureLine != []
  {
    KeyTitleParts("456", (" Add" + " new" + " feature"));
    PullLinkAvoids("2");
    PrLineShape(FeatureTitle, "bob", FeatureLink);
  }

  lemma PrStyleLineShapes()
    ensures forall k :: 0 <= k < |PrStyleLines| ==> NoNewline(PrStyleLines[k]) && '#' !in PrStyleLines[k]
    ensures forall k :: 1 <= k < |PrStyleLines| ==> PrStyleLines[k] != []
  {
    LoginLineShape();
    FeatureLineShape();
    assert PrStyleLines[1] == LoginLine && PrStyleLines[2] == FeatureLine;
  }

  lemma PrStyleItems()
    ensures ParseLines(PrStyleLines)
      == [LoginChange] + [FeatureChange]
  {
    FirstPrLine();
    SecondPrLine();
    ItemsOfThreeLines(LoginLine, FeatureLine,
                      LoginChange, FeatureChange);
  }

  /** The two pull requests of the first test, in order. */
  lemma PrStyleDocumentChanges()
    ensures Changes(PrStyleDocument())
      == [LoginChange] + [FeatureChange]
  {
    PrStyleLineShapes();
    FooterShape();
    ChangesOfHashFreeChangesSection(PrStyleLines, ChangelogFooter);
    PrStyleItems();
  }

  /** The keys of the two titles of the first test. */
  lemma PrStyleKeys()
    ensures KeysOf([LoginChange] + [FeatureChange], "TEST") == [Some("TEST-123"), Some("TEST-456")]
  {
    var cs := [LoginChange] + [FeatureChange];
    LoginKey();
    FeatureKey();
    assert cs[0].title == LoginTitle && cs[1].title == FeatureTitle;
    KeysOfTwo(cs, "TEST", Some("TEST-123"), Some("TEST-456"));
  }

  /** test_pr_style_parsing: two changes, whose keys are TEST-123 and TEST-456. */
  lemma PrStyleParsing()
    ensures |Changes(PrStyleDocument())| == 2
    ensures KeysOf(Changes(PrStyleDocument()), "TEST") == [Some("TEST-123"), Some("TEST-456")]
  {
    PrStyleDocumentChanges();
    PrStyleKeys();
  }

  // ---------------------------------------------------------------------
  // test_commit_style_parsing: a "Commits" section of two commits
  // ---------------------------------------------------------------------

  const DocsTitle: string := "TEST" + "-" + "789" + (" Update" + " documentation")
  const DocsLine: string := "- " + ("1234567" + " " + ['-'] + " " + DocsTitle)
  const DocsChange: Change := Change(DocsTitle, None, None)
  const TypoTitle: string := "TEST" + "-" + "999" + (" Fix" + " typo" + " in" + " README")
  const TypoLine: string := "- " + ("abcdef0" + "" + [':'] + " " + TypoTitle)
  const TypoChange: Change := Change(TypoTitle, None, None)
  /** The blank line under the heading, then the two commits. */
  const CommitStyleLines: seq<string> := [""] + [DocsLine] + [TypoLine]

  /** The document of the second test: one section, then the footer. */
  function CommitStyleDocument(): string
  {
    Marker(CommitsSection) + JoinLines(CommitStyleLines) + "\n\n" + ChangelogFooter
  }

  lemma DocsMessage()
    ensures TestMessage(DocsTitle)
  {
    KeyTitleParts("789", (" Update" + " documentation"));
  }

  /** The first commit line of the second test: hash, space, dash, space. */
  lemma DashCommitLine()
    ensures ParseLine(DocsLine) == Some(DocsChange)
  {
    DocsMessage();
    TestHashes();
    CommitLineItem("1234567", " ", '-', " ", DocsTitle);
  }

  lemma TypoMessage()
    ensures TestMessage(TypoTitle)
  {
    KeyTitleParts("999", (" Fix" + " typo" + " in" + " README"));
  }

  /** The second commit line of the second test: hash, colon, space. */
  lemma ColonCommitLine()
    ensures ParseLine(TypoLine) == Some(TypoChange)
  {
    TypoMessage();
    TestHashes();
    CommitLineItem("abcdef0", "", ':', " ", TypoTitle);
  }

  lemma DocsKey()
    ensures ExtractIssueId(DocsTitle, "TEST") == Some("TEST-789")
  {
    LeadingTestKey("789", (" Update" + " documentation"));
    assert "TEST-" + "789" == "TEST-789";
  }

  lemma TypoKey()
    ensures ExtractIssueId(TypoTitle, "TEST") == Some("TEST-999")
  {
    LeadingTestKey("999", (" Fix" + " typo" + " in" + " README"));
    assert "TEST-" + "999" == "TEST-999";
  }

  lemma DocsLineShape()
    ensures '#' !in DocsLine && NoNewline(DocsLine) && DocsLine != []
  {
    DocsMessage();
    TestHashes();
    CommitLineShape("1234567", " ", '-', " ", DocsTitle);
  }

  lemma TypoLineShape()
    ensures '#' !in TypoLine && NoNewline(TypoLine) && TypoLine != []
  {
    TypoMessage();
    TestHashes();
    CommitLineShape("abcdef0", "", ':', " ", TypoTitle);
  }

  lemma CommitStyleLineShapes()
    ensures forall k :: 0 <= k < |CommitStyleLines| ==> NoNewline(CommitStyleLines[k]) && '#' !in CommitStyleLines[k]
    ensures forall k :: 1 <= k < |CommitStyleLines| ==> CommitStyleLines[k] != []
  {
    DocsLineShape();
    TypoLineShape();
    assert CommitStyleLines[1] == DocsLine && CommitStyleLines[2] == TypoLine;
  }

  lemma CommitStyleItems()
    ensures ParseLines(CommitStyleLines) == [DocsChange] + [TypoChange]
  {
    DashCommitLine();
    ColonCommitLine();
    ItemsOfThreeLines(DocsLine, TypoLine, DocsChange, TypoChange);
  }

  /** The two commits of the second test, in order, with their hashes removed. */
  lemma CommitStyleDocumentChanges()
    ensures Changes(CommitStyleDocument()) == [DocsChange] + [TypoChange]
  {
    CommitStyleLineShapes();
    FooterShape();
    ChangesOfHashFreeCommitsSection(CommitStyleLines, ChangelogFooter);
    CommitStyleItems();
  }

  /** The keys of the two titles of the second test. */
  lemma CommitStyleKeys()
    ensures KeysOf([DocsChange] + [TypoChange], "TEST") == [Some("TEST-789"), Some("TEST-999")]
  {
    var cs := [DocsChange] + [TypoChange];
    DocsKey();
    TypoKey();
    assert cs[0].title == DocsTitle && cs[1].title == TypoTitle;
    KeysOfTwo(cs, "TEST", Some("TEST-789"), Some("TEST-999"));
  }

  /** test_commit_style_parsing: two changes, whose keys are TEST-789 and TEST-999. */
  lemma CommitStyleParsing()
    ensures |Changes(CommitStyleDocument())| == 2
    ensures KeysOf(Changes(CommitStyleDocument()), "TEST") == [Some("TEST-789"), Some("TEST-999")]
  {
    CommitStyleDocumentChanges();
    CommitStyleKeys();
  }

  // ---------------------------------------------------------------------
  // test_mixed_prs_and_commits: two pull requests, then two commits
  // ---------------------------------------------------------------------

  const FeatureATitle: string := "TEST" + "-" + "100" + (" Feature" + " A")
  const FeatureALink: string := PullLink("10")
  const FeatureALine: string := "- " + (FeatureATitle + " by @" + "user1" + " in " + FeatureALink)
  const FeatureAChange: Change := Change(FeatureATitle, Some("user1"), Some(FeatureALink))
  const FeatureBTitle: string := "TEST" + "-" + "200" + (" Feature" + " B")
  const FeatureBLink: string := PullLink("20")
  const FeatureBLine: string := "- " + (FeatureBTitle + " by @" + "user2" + " in " + FeatureBLink)
  const FeatureBChange: Change := Change(FeatureBTitle, Some("user2"), Some(FeatureBLink))
  const HotfixTitle: string := "TEST" + "-" + "300" + (" Hotfix" + " for" + " issue")
  const HotfixLine: string := "- " + ("abc1234" + " " + ['-'] + " " + HotfixTitle)
  const HotfixChange: Change := Change(HotfixTitle, None, None)
  const AnotherTitle: string := "TEST" + "-" + "400" + (" Another" + " commit")
  const AnotherLine: string := "- " + ("def5678" + "" + [':'] + " " + AnotherTitle)
  const AnotherChange: Change := Change(AnotherTitle, None, None)
  const MixedChangesLines: seq<string> := [""] + [FeatureALine] + [FeatureBLine]
  const MixedCommitsLines: seq<string> := [""] + [HotfixLine] + [AnotherLine]

  /** The document of the mixed test: two sections, then the footer. */
  function MixedDocument(): string
  {
    Marker(ChangesSection) + JoinLines(MixedChangesLines) + "\n\n"
      + (Marker(CommitsSection) + JoinLines(MixedCommitsLines) + "\n\n" + ChangelogFooter)
  }

  lemma FeatureALineItem()
    ensures ParseLine(FeatureALine) == Some(FeatureAChange)
  {
    PlainLineSeparators(FeatureATitle, "user1", FeatureALink);
    PrBulletLine(FeatureATitle, "user1", FeatureALink);
  }

  lemma FeatureBLineItem()
    ensures ParseLine(FeatureBLine) == Some(FeatureBChange)
  {
    PlainLineSeparators(FeatureBTitle, "user2", FeatureBLink);
    PrBulletLine(FeatureBTitle, "user2", FeatureBLink);
  }

  lemma HotfixMessage()
    ensures TestMessage(HotfixTitle)
  {
    KeyTitleParts("300", (" Hotfix" + " for" + " issue"));
  }

  lemma HotfixLineItem()
    ensures ParseLine(HotfixLine) == Some(HotfixChange)
  {
    HotfixMessage();
    TestHashes();
    CommitLineItem("abc1234", " ", '-', " ", HotfixTitle);
  }

  lemma AnotherMessage()
    ensures TestMessage(AnotherTitle)
  {
    KeyTitleParts("400", (" Another" + " commit"));
  }

  lemma AnotherLineItem()
    ensures ParseLine(AnotherLine) == Some(AnotherChange)
  {
    AnotherMessage();
    TestHashes();
    CommitLineItem("def5678", "", ':', " ", AnotherTitle);
  }

  lemma FeatureAKey()
    ensures ExtractIssueId(FeatureATitle, "TEST") == Some("TEST-100")
  {
    LeadingTestKey("100", (" Feature" + " A"));
    assert "TEST-" + "100" == "TEST-100";
  }

  lemma FeatureBKey()
    ensures ExtractIssueId(FeatureBTitle, "TEST") == Some("TEST-200")
  {
    LeadingTestKey("200", (" Feature" + " B"));
    assert "TEST-" + "200" == "TEST-200";
  }

  lemma HotfixKey()
    ensures ExtractIssueId(HotfixTitle, "TEST") == Some("TEST-300")
  {
    LeadingTestKey("300", (" Hotfix" + " for" + " issue"));
    assert "TEST-" + "300" == "TEST-300";
  }

  lemma AnotherKey()
    ensures ExtractIssueId(AnotherTitle, "TEST") == Some("TEST-400")
  {
    LeadingTestKey("400", (" Another" + " commit"));
    assert "TEST-" + "400" == "TEST-400";
  }

  lemma FeatureALineShape()
    ensures '#' !in FeatureALine && NoNewline(FeatureALine) && FeatureALine != []
  {
    KeyTitleParts("100", (" Feature" + " A"));
    PullLinkAvoids("10");
    PrLineShape(FeatureATitle, "user1", FeatureALink);
  }

  lemma FeatureBLineShape()
    ensures '#' !in FeatureBLine && NoNewline(FeatureBLine) && FeatureBLine != []
  {
    KeyTitleParts("200", (" Feature" + " B"));
    PullLinkAvoids("20");
    PrLineShape(FeatureBTitle, "user2", FeatureBLink);
  }

  lemma HotfixLineShape()
    ensures NoNewline(HotfixLine) && HotfixLine != []
  {
    HotfixMessage();
    TestHashes();
    CommitLineShape("abc1234", " ", '-', " ", HotfixTitle);
  }

  lemma AnotherLineShape()
    ensures NoNewline(AnotherLine) && AnotherLine != []
  {
    AnotherMessage();
    TestHashes();
    CommitLineShape("def5678", "", ':', " ", AnotherTitle);
  }

  lemma MixedLineShapes()
    ensures forall k :: 0 <= k < |MixedChangesLines| ==> NoNewline(MixedChangesLines[k]) && '#' !in MixedChangesLines[k]
    ensures forall k :: 0 <= k < |MixedCommitsLines| ==> NoNewline(MixedCommitsLines[k])
    ensures forall k :: 1 <= k < |MixedChangesLines| ==> MixedChangesLines[k] != []
    ensures forall k :: 1 <= k < |MixedCommitsLines| ==> MixedCommitsLines[k] != []
  {
    FeatureALineShape();
    FeatureBLineShape();
    HotfixLineShape();
    AnotherLineShape();
    assert MixedChangesLines[1] == FeatureALine && MixedChangesLines[2] == FeatureBLine;
    assert MixedCommitsLines[1] == HotfixLine && MixedCommitsLines[2] == AnotherLine;
  }

  lemma MixedChangesItems()
    ensures ParseLines(MixedChangesLines)
      == [FeatureAChange] + [FeatureBChange]
  {
    FeatureALineItem();
    FeatureBLineItem();
    ItemsOfThreeLines(FeatureALine, FeatureBLine,
                      FeatureAChange, FeatureBChange);
  }

  lemma MixedCommitsItems()
    ensures ParseLines(MixedCommitsLines) == [HotfixChange] + [AnotherChange]
  {
    HotfixLineItem();
    AnotherLineItem();
    ItemsOfThreeLines(HotfixLine, AnotherLine, HotfixChange, AnotherChange);
  }

  /** The four changes of the mixed test: the pull requests, then the commits. */
  lemma MixedDocumentChanges()
    ensures Changes(MixedDocument()) == ([FeatureAChange] + [FeatureBChange]) + ([HotfixChange] + [AnotherChange])
  {
    MixedLineShapes();
    ChangesOfHashFreeDocument(MixedChangesLines, MixedCommitsLines, ChangelogFooter);
    MixedChangesItems();
    MixedCommitsItems();
  }

  /** The keys of the two pull-request titles of the mixed test. */
  lemma MixedPrKeys()
    ensures KeysOf([FeatureAChange] + [FeatureBChange], "TEST")
      == [Some("TEST-100"), Some("TEST-200")]
  {
    var cs := [FeatureAChange] + [FeatureBChange];
    FeatureAKey();
    FeatureBKey();
    assert cs[0].title == FeatureATitle && cs[1].title == FeatureBTitle;
    KeysOfTwo(cs, "TEST", Some("TEST-100"), Some("TEST-200"));
  }

  /** The keys of the two commit titles of the mixed test. */
  lemma MixedCommitKeys()
    ensures KeysOf([HotfixChange] + [AnotherChange], "TEST")
      == [Some("TEST-300"), Some("TEST-400")]
  {
    var cs := [HotfixChange] + [AnotherChange];
    HotfixKey();
    AnotherKey();
    assert cs[0].title == HotfixTitle && cs[1].title == AnotherTitle;
    KeysOfTwo(cs, "TEST", Some("TEST-300"), Some("TEST-400"));
  }

  /** The keys of the four titles of the mixed test. */
  lemma MixedKeys()
    ensures KeysOf(([FeatureAChange] + [FeatureBChange]) + ([HotfixChange] + [AnotherChange]), "TEST")
      == [Some("TEST-100"), Some("TEST-200"), Some("TEST-300"), Some("TEST-400")]
  {
    var ps := [FeatureAChange] + [FeatureBChange];
    var qs := [HotfixChange] + [AnotherChange];
    MixedPrKeys();
    MixedCommitKeys();
    KeysOfAppend(ps, qs, "TEST");
    assert [Some("TEST-100"), Some("TEST-200")] + [Some("TEST-300"), Some("TEST-400")]
      == [Some("TEST-100"), Some("TEST-200"), Some("TEST-300"), Some("TEST-400")];
  }

  /** test_mixed_prs_and_commits: four changes, each with its own key. */
  lemma MixedParsing()
    ensures |Changes(MixedDocument())| == 4
    ensures KeysOf(Changes(MixedDocument()), "TEST")
      == [Some("TEST-100"), Some("TEST-200"), Some("TEST-300"), Some("TEST-400")]
  {
    MixedDocumentChanges();
    MixedKeys();
  }

  // ---------------------------------------------------------------------
  // test_deduplication: one pull request and two commits, two keys
  // ---------------------------------------------------------------------

  const InitialFixTitle: string := "TEST" + "-" + "500" + (" Initial" + " fix")
  const InitialFixLink: string := PullLink("1")
  const FollowUpTitle: string := "TEST" + "-" + "500" + (" Follow-up" + " commit" + " for" + " same" + " issue")
  const DifferentTitle: string := "TEST" + "-" + "600" + (" Different" + " issue")
  const InitialFixLine: string := "- " + (InitialFixTitle + " by @" + "user1" + " in " + InitialFixLink)
  const InitialFixChange: Change := Change(InitialFixTitle, Some("user1"), Some(InitialFixLink))
  const FollowUpLine: string := "- " + ("abc1234" + " " + ['-'] + " " + FollowUpTitle)
  const FollowUpChange: Change := Change(FollowUpTitle, None, None)
  const DifferentLine: string := "- " + ("def5678" + "" + [':'] + " " + DifferentTitle)
  const DifferentChange: Change := Change(DifferentTitle, None, None)

  /** The "What's Changed" lines: the blank line under the heading, then one pull request. */
  const DedupChangesLines: seq<string> := [""] + [InitialFixLine]
  /** The "Commits" lines: the blank line under the heading, then two commits. */
  const DedupCommitsLines: seq<string> := [""] + [FollowUpLine] + [DifferentLine]

  /** The document of the deduplication test, as its two sections and the footer. */
  function DedupDocument(): string
  {
    Marker(ChangesSection) + JoinLines(DedupChangesLines) + "\n\n"
      + (Marker(CommitsSection) + JoinLines(DedupCommitsLines) + "\n\n" + ChangelogFooter)
  }

  lemma InitialFixLineItem()
    ensures ParseLine(InitialFixLine) == Some(InitialFixChange)
  {
    PlainLineSeparators(InitialFixTitle, "user1", InitialFixLink);
    PrBulletLine(InitialFixTitle, "user1", InitialFixLink);
  }

  lemma FollowUpMessage()
    ensures TestMessage(FollowUpTitle)
  {
    KeyTitleParts("500", (" Follow-up" + " commit" + " for" + " same" + " issue"));
  }

  lemma FollowUpLineItem()
    ensures ParseLine(FollowUpLine) == Some(FollowUpChange)
  {
    FollowUpMessage();
    TestHashes();
    CommitLineItem("abc1234", " ", '-', " ", FollowUpTitle);
  }

  lemma DifferentMessage()
    ensures TestMessage(DifferentTitle)
  {
    KeyTitleParts("600", (" Different" + " issue"));
  }

  lemma DifferentLineItem()
    ensures ParseLine(DifferentLine) == Some(DifferentChange)
  {
    DifferentMessage();
    TestHashes();
    CommitLineItem("def5678", "", ':', " ", DifferentTitle);
  }

  /** The items of the "What's Changed" lines. */
  lemma DedupChangesItems()
    ensures ParseLines(DedupChangesLines) == [InitialFixChange]
  {
    InitialFixLineItem();
    ItemsOfTwoLines(InitialFixLine, InitialFixChange);
  }

  /** The items of the "Commits" lines. */
  lemma DedupCommitsItems()
    ensures ParseLines(DedupCommitsLines) == [FollowUpChange] + [DifferentChange]
  {
    FollowUpLineItem();
    DifferentLineItem();
    ItemsOfThreeLines(FollowUpLine, DifferentLine, FollowUpChange, DifferentChange);
  }

  lemma InitialFixKey()
    ensures ExtractIssueId(InitialFixTitle, "TEST") == Some("TEST-500")
  {
    LeadingTestKey("500", (" Initial" + " fix"));
    assert "TEST-" + "500" == "TEST-500";
  }

  lemma FollowUpKey()
    ensures ExtractIssueId(FollowUpTitle, "TEST") == Some("TEST-500")
  {
    LeadingTestKey("500", (" Follow-up" + " commit" + " for" + " same" + " issue"));
    assert "TEST-" + "500" == "TEST-500";
  }

  lemma DifferentKey()
    ensures ExtractIssueId(DifferentTitle, "TEST") == Some("TEST-600")
  {
    LeadingTestKey("600", (" Different" + " issue"));
    assert "TEST-" + "600" == "TEST-600";
  }

  /** The keys of the three titles of the deduplication test. */
  lemma DedupKeys()
    ensures KeysOf([InitialFixChange] + ([FollowUpChange] + [DifferentChange]), "TEST")
      == [Some("TEST-500"), Some("TEST-500"), Some("TEST-600")]
  {
    var qs := [FollowUpChange] + [DifferentChange];
    InitialFixKey();
    FollowUpKey();
    DifferentKey();
    KeysOfOne(InitialFixChange, "TEST", Some("TEST-500"));
    assert qs[0].title == FollowUpTitle && qs[1].title == DifferentTitle;
    KeysOfTwo(qs, "TEST", Some("TEST-500"), Some("TEST-600"));
    KeysOfAppend([InitialFixChange], qs, "TEST");
    assert [Some("TEST-500")] + [Some("TEST-500"), Some("TEST-600")] == [Some("TEST-500"), Some("TEST-500"), Some("TEST-600")];
  }

  lemma InitialFixLineShape()
    ensures '#' !in InitialFixLine && NoNewline(InitialFixLine) && InitialFixLine != []
  {
    InitialFixTitleAvoids();
    InitialFixLinkAvoids();
    PrLineShape(InitialFixTitle, "user1", InitialFixLink);
  }

  lemma InitialFixTitleAvoids()
    ensures '#' !in InitialFixTitle && '\n' !in InitialFixTitle
  {
    KeyTitleParts("500", (" Initial" + " fix"));
  }

  lemma InitialFixLinkAvoids()
    ensures '#' !in InitialFixLink && '\n' !in InitialFixLink
  {
    PullLinkAvoids("1");
  }

  lemma FollowUpLineShape()
    ensures NoNewline(FollowUpLine) && FollowUpLine != []
  {
    FollowUpMessage();
    TestHashes();
    CommitLineShape("abc1234", " ", '-', " ", FollowUpTitle);
  }

  lemma DifferentLineShape()
    ensures NoNewline(DifferentLine) && DifferentLine != []
  {
    DifferentMessage();
    TestHashes();
    CommitLineShape("def5678", "", ':', " ", DifferentTitle);
  }

  /** The lines hold no newline, only the first of each section is empty, and the first section has no '#'. */
  lemma DedupLineShapes()
    ensures forall k :: 0 <= k < |DedupChangesLines| ==> NoNewline(DedupChangesLines[k]) && '#' !in DedupChangesLines[k]
    ensures forall k :: 0 <= k < |DedupCommitsLines| ==> NoNewline(DedupCommitsLines[k])
    ensures forall k :: 1 <= k < |DedupChangesLines| ==> DedupChangesLines[k] != []
    ensures forall k :: 1 <= k < |DedupCommitsLines| ==> DedupCommitsLines[k] != []
  {
    InitialFixLineShape();
    FollowUpLineShape();
    DifferentLineShape();
    assert DedupChangesLines[1] == InitialFixLine;
    assert DedupCommitsLines[1] == FollowUpLine && DedupCommitsLines[2] == DifferentLine;
  }

  /** The three changes of the deduplication test, in section order. */
  lemma DedupDocumentChanges()
    ensures Changes(DedupDocument()) == [InitialFixChange] + ([FollowUpChange] + [DifferentChange])
  {
    DedupLineShapes();
    ChangesOfHashFreeDocument(DedupChangesLines, DedupCommitsLines, ChangelogFooter);
    DedupChangesItems();
    DedupCommitsItems();
  }

  /**
   * The deduplication test's keys: one pull request and two commits, two of
   * which mention the same key, give two keys; a change without a key is
   * skipped.
   */
  lemma DeduplicatesAcrossSections()
    ensures Collected([Some("TEST-500"), Some("TEST-500"), Some("TEST-600")]) == ["TEST-500", "TEST-600"]
    ensures Collected([Some("TEST-500"), None, Some("TEST-600")]) == ["TEST-500", "TEST-600"]
  {
    var ids := [Some("TEST-500"), Some("TEST-500"), Some("TEST-600")];
    assert ids[..2][..1] == [Some("TEST-500")];
    assert ids[..2] == [Some("TEST-500"), Some("TEST-500")];
    assert Collected([Some("TEST-500")]) == ["TEST-500"] by { assert [Some("TEST-500")][..0] == []; }
    KeylessSkipped([Some("TEST-500")], [Some("TEST-600")]);
    assert [Some("TEST-500")] + [Some("TEST-600")] == [Some("TEST-500"), Some("TEST-600")];
    assert [Some("TEST-500")] + [None] + [Some("TEST-600")] == [Some("TEST-500"), None, Some("TEST-600")];
    var two := [Some("TEST-500"), Some("TEST-600")];
    assert two[..1] == [Some("TEST-500")];
  }

  /**
   * The whole document of the deduplication test: the "What's Changed"
   * section, then the "Commits" section, then the footer.  It gives three
   * changes, and their keys collect to TEST-500, TEST-600.
   */
  lemma DeduplicationDocument()
    ensures |Changes(DedupDocument())| == 3
    ensures Collected(KeysOf(Changes(DedupDocument()), "TEST")) == ["TEST-500", "TEST-600"]
  {
    DedupDocumentChanges();
    DedupKeys();
    DeduplicatesAcrossSections();
  }

  // ---------------------------------------------------------------------
  // test_no_issue_key: one pull request and one commit, neither with a key
  // ---------------------------------------------------------------------

  const NoKeyPrTitle: string := "Some" + " change" + " without" + " issue" + " key"
  const NoKeyPrLink: string := PullLink("1")
  const NoKeyPrLine: string := "- " + (NoKeyPrTitle + " by @" + "user1" + " in " + NoKeyPrLink)
  const NoKeyPrChange: Change := Change(NoKeyPrTitle, Some("user1"), Some(NoKeyPrLink))
  const NoKeyCommitTitle: string := "Another" + " change" + " without" + " key"
  const NoKeyCommitLine: string := "- " + ("abc1234" + " " + ['-'] + " " + NoKeyCommitTitle)
  const NoKeyCommitChange: Change := Change(NoKeyCommitTitle, None, None)
  const NoKeyChangesLines: seq<string> := [""] + [NoKeyPrLine]
  const NoKeyCommitsLines: seq<string> := [""] + [NoKeyCommitLine]

  /** The document of the last test: two sections, then the footer. */
  function NoKeyDocument(): string
  {
    Marker(ChangesSection) + JoinLines(NoKeyChangesLines) + "\n\n"
      + (Marker(CommitsSection) + JoinLines(NoKeyCommitsLines) + "\n\n" + ChangelogFooter)
  }

  /** The titles of the last test mention no key. */
  lemma TitlesWithoutKey()
    ensures ExtractIssueId(NoKeyPrTitle, "TEST") == None
    ensures ExtractIssueId(NoKeyCommitTitle, "TEST") == None
  {
    ExtractIssueIdNeedsDash(NoKeyPrTitle, "TEST");
    ExtractIssueIdNeedsDash(NoKeyCommitTitle, "TEST");
  }

  /** The commit title of the last test is a message of the tests. */
  lemma NoKeyCommitTitleParts()
    ensures TestMessage(NoKeyCommitTitle)
  {
    assert NoKeyCommitTitle[0] == 'A' && NoKeyCommitTitle[|NoKeyCommitTitle| - 1] == 'y';
    assert '@' !in "Another" && '#' !in "Another" && '\n' !in "Another";
    assert '@' !in " change" && '#' !in " change" && '\n' !in " change";
    assert '@' !in " without" && '#' !in " without" && '\n' !in " without";
    assert '@' !in " key" && '#' !in " key" && '\n' !in " key";
  }

  lemma NoKeyPrLineItem()
    ensures ParseLine(NoKeyPrLine) == Some(NoKeyPrChange)
  {
    PlainLineSeparators(NoKeyPrTitle, "user1", NoKeyPrLink);
    PrBulletLine(NoKeyPrTitle, "user1", NoKeyPrLink);
  }

  lemma NoKeyCommitLineItem()
    ensures ParseLine(NoKeyCommitLine) == Some(NoKeyCommitChange)
  {
    NoKeyCommitTitleParts();
    TestHashes();
    CommitLineItem("abc1234", " ", '-', " ", NoKeyCommitTitle);
  }

  lemma NoKeyPrLineShape()
    ensures '#' !in NoKeyPrLine && NoNewline(NoKeyPrLine) && NoKeyPrLine != []
  {
    assert '#' !in NoKeyPrTitle && '\n' !in NoKeyPrTitle;
    PullLinkAvoids("1");
    PrLineShape(NoKeyPrTitle, "user1", NoKeyPrLink);
  }

  lemma NoKeyCommitLineShape()
    ensures NoNewline(NoKeyCommitLine) && NoKeyCommitLine != []
  {
    NoKeyCommitTitleParts();
    TestHashes();
    CommitLineShape("abc1234", " ", '-', " ", NoKeyCommitTitle);
  }

  lemma NoKeyLineShapes()
    ensures forall k :: 0 <= k < |NoKeyChangesLines| ==> NoNewline(NoKeyChangesLines[k]) && '#' !in NoKeyChangesLines[k]
    ensures forall k :: 0 <= k < |NoKeyCommitsLines| ==> NoNewline(NoKeyCommitsLines[k])
    ensures forall k :: 1 <= k < |NoKeyChangesLines| ==> NoKeyChangesLines[k] != []
    ensures forall k :: 1 <= k < |NoKeyCommitsLines| ==> NoKeyCommitsLines[k] != []
  {
    NoKeyPrLineShape();
    NoKeyCommitLineShape();
    assert NoKeyChangesLines[1] == NoKeyPrLine && NoKeyCommitsLines[1] == NoKeyCommitLine;
  }

  lemma NoKeyChangesItems()
    ensures ParseLines(NoKeyChangesLines) == [NoKeyPrChange]
  {
    NoKeyPrLineItem();
    ItemsOfTwoLines(NoKeyPrLine, NoKeyPrChange);
  }

  lemma NoKeyCommitsItems()
    ensures ParseLines(NoKeyCommitsLines) == [NoKeyCommitChange]
  {
    NoKeyCommitLineItem();
    ItemsOfTwoLines(NoKeyCommitLine, NoKeyCommitChange);
  }

  /** The two changes of the last test: the pull request, then the commit. */
  lemma NoKeyDocumentChanges()
    ensures Changes(NoKeyDocument())
      == [NoKeyPrChange] + [NoKeyCommitChange]
  {
    NoKeyLineShapes();
    ChangesOfHashFreeDocument(NoKeyChangesLines, NoKeyCommitsLines, ChangelogFooter);
    NoKeyChangesItems();
    NoKeyCommitsItems();
  }

  /** The keys of the two titles of the last test. */
  lemma NoKeyKeys()
    ensures KeysOf([NoKeyPrChange] + [NoKeyCommitChange], "TEST") == [None, None]
  {
    var cs := [NoKeyPrChange] + [NoKeyCommitChange];
    TitlesWithoutKey();
    assert cs[0].title == NoKeyPrTitle && cs[1].title == NoKeyCommitTitle;
    KeysOfTwo(cs, "TEST", None, None);
  }

  /** test_no_issue_key: two changes, neither with a key. */
  lemma NoKeyParsing()
    ensures |Changes(NoKeyDocument())| == 2
    ensures KeysOf(Changes(NoKeyDocument()), "TEST") == [None, None]
  {
    NoKeyDocumentChanges();
    NoKeyKeys();
  }

  // ---------------------------------------------------------------------
  // Further behaviour of the key pattern and of the release script's loop
  // ---------------------------------------------------------------------

  /** The pattern is not anchored: a key is found inside a longer word. */
  lemma UnanchoredKey()
    ensures ExtractIssueId("X" + ("TEST" + "-" + "12"), "TEST") == Some("TEST" + "-" + "12")
  {
    var key := "TEST" + "-" + "12";
    var title := "X" + key;
    assert title[1..1 + |key|] == key;
    assert key[..5] == "TEST" + "-";
    assert IsIssueKey(key, "TEST");
    assert KeyMatchAt(title, "TEST", 1, key);
    assert title[0..5][0] == 'X';
    assert !KeyStartsAt(title, "TEST", 0);
    ExtractIssueIdUnique(title, "TEST", 1, key);
  }

  /** Keys A, B, A, C are collected as A, B, C. */
  lemma FirstSeenOrder(a: string, b: string, c: string)
    requires a != b && b != c && a != c
    ensures Collected([Some(a), Some(b), Some(a), Some(c)]) == [a, b, c]
  {
    var ids := [Some(a), Some(b), Some(a), Some(c)];
    assert [Some(a)][..0] == [];
    assert Collected([Some(a)]) == [a];
    assert [Some(a), Some(b)][..1] == [Some(a)];
    assert Collected([Some(a), Some(b)]) == [a, b];
    assert [Some(a), Some(b), Some(a)][..2] == [Some(a), Some(b)];
    assert Collected([Some(a), Some(b), Some(a)]) == [a, b];
    assert ids[..3] == [Some(a), Some(b), Some(a)];
  }
}
