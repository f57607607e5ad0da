# release-to-jira: the release-notes parser

This project models the part of the release-to-jira GitHub Action that reads
a release's Markdown notes and collects the Jira issue keys they mention. It
proves properties of that model in Dafny. The modelled steps are:

* Cut the document into its `## What's Changed` and `## Commits` sections.
  A section starts after its heading line and ends at the first blank line.
* Classify and parse every bullet line of a section. A line of the form
  `<title> by @<author> in <link>` is a pull request. Any other bullet is a
  commit: a leading abbreviated hash and its `:` or `-` separator are
  removed, and the rest is stripped.
* Find the first `<PROJECT>-<digits>` key in a change title.
* Collect the keys of all changes, each once, in order of first mention.
  The release script does this before it updates the issues.

Modules:

* `Wrappers`: `Option`.
* `Strings`: the Python string builtins the parser relies on, namely
  `split(sep, 1)`, `split("\n")`, `in`, `startswith` and `strip()`.
  `strip()` works over the ASCII whitespace set.
* `NotesParser`: `src/notes_parser.py`. Contents:
  * `GetSection`;
  * the pull-request shape `ParsePr`;
  * the hash-prefix pattern: `HashPrefixLength`, with the reference
    predicate `IsHashPrefix` for the pattern's language;
  * `CommitTitle`, `ParseLine`, and the loop `ParseChangelist` with its
    specification `Changelist`;
  * the section loop `ExtractChanges` with its specification `Changes`;
  * `ExtractIssueId`.
* `IssueKeys`: the deduplication loop of `src/main.py` as the method
  `CollectIssueIds`, specified by `Collected`.
* `Scenarios`: the expectations of each of the five tests of
  `test_notes_parser.py` (`test_pr_style_parsing`,
  `test_commit_style_parsing`, `test_mixed_prs_and_commits`,
  `test_deduplication` and `test_no_issue_key`), stated about each test's
  whole document: the number of changes, their titles, authors and links,
  and their keys. It also holds a few further examples of the key pattern and
  of the key-collection loop.

The two loops of the parser and the loop of the release script are methods.
Each is proved equal to a recursive specification function. The properties
are proved as lemmas about those functions:

* Which lines give items, and in what order.
* The Python split semantics: the first occurrence of the separator.
* The greedy regular-expression match is the longest match.
* The issue key is the leftmost key, with all its digits.
* The collected keys are free of duplicates, complete, and in first-mention
  order.

Where the written description of this tool and its code differ, the model
follows the code:

* A pull-request title can be empty. The line `-  by @a in b` parses to
  the title `""`. Only commit-style items are guaranteed a non-empty title
  (`NotesParser.ParseLine`).
* A present heading with no blank line anywhere after it is not an error.
  `split("\n\n", 1)[0]` returns the whole remainder of the document, and
  `GetSection` returns it too.

## Model

| member | source | states |
|---|---|---|
| `Strings.IsSpace` | src/notes_parser.py:41 | the whitespace set of `strip()` and of `\s`: space, tab, newline, carriage return, vertical tab, form feed and the separators U+001C to U+001F (a predicate, no contract of its own) |
| `Strings.IsHexDigit` | src/notes_parser.py:41 | the character class `[0-9a-fA-F]` (a predicate, no contract of its own) |
| `Strings.IsDigit` | src/notes_parser.py:5 | the character class `[0-9]` (a predicate, no contract of its own) |
| `Strings.AllSpace` | src/notes_parser.py:41 | every character is whitespace (a predicate, no contract of its own) |
| `Strings.OccursAt` | src/notes_parser.py:27-28 | the pattern occurs at that index (a predicate, no contract of its own) |
| `Strings.FindFrom` | src/notes_parser.py:27-28 | the result is the first occurrence of the pattern at or after `from`; None means there is none there |
| `Strings.Find` | src/notes_parser.py:57 | the result is the first occurrence of the pattern; None holds exactly when the pattern occurs nowhere (Python's `in`) |
| `Strings.Contains` | src/notes_parser.py:57 | Python's `in`: the pattern occurs somewhere (no contract of its own; `Find` carries it) |
| `Strings.SplitOnce` | src/notes_parser.py:27-28 | `split(sep, 1)` unpacked into two parts: it fails exactly when `sep` is absent; otherwise `s == left + sep + right`, where `left` holds no occurrence of `sep`, so the split is at the first one |
| `Strings.SplitOnceAtFind` | src/notes_parser.py:27-28 | `split(sep, 1)` succeeds exactly when `in` finds the separator, and its two parts are the text before and after that first occurrence |
| `Strings.SplitOnceAt` | src/notes_parser.py:27-28 | a text `before + sep + after` with no occurrence of `sep` starting inside `before` splits into exactly `before` and `after` |
| `Strings.CutAtFirst` | src/notes_parser.py:11 | in such a text, `before` is a prefix followed by the separator and holds no occurrence of it |
| `Strings.NotOccursAt` | src/notes_parser.py:27-28 | one mismatching character rules out an occurrence of the pattern at that index |
| `Strings.StartsWith` | src/notes_parser.py:21 | `startswith`: the prefix is the first characters of the text (a predicate, no contract of its own) |
| `Strings.SplitLines` | src/notes_parser.py:16 | `split("\n")`: at least one piece, no piece holds a newline, and joining the pieces with newlines gives back the input |
| `Strings.JoinLines` | src/notes_parser.py:16 | the inverse of `split("\n")`: the pieces joined with newlines (a definition; `SplitLines` and `SplitJoinLines` state the round trip) |
| `Strings.NoNewline` | src/notes_parser.py:16 | a piece of `split("\n")` holds no newline (a predicate, no contract of its own) |
| `Strings.NoNewlineBefore` | src/notes_parser.py:16 | a prefix before which no newline starts holds no newline |
| `Strings.NoNewlineOfAvoid` | src/notes_parser.py:16 | a text without the character '\n' is a single line |
| `Strings.SplitJoinLines` | src/notes_parser.py:16 | splitting newline-free lines joined by newlines gives back exactly those lines |
| `Strings.NoBlankLine` | src/notes_parser.py:11 | text with no two newlines in a row and no newline at its end (a predicate, no contract of its own) |
| `Strings.JoinLinesStart` | src/notes_parser.py:11 | joined lines begin with the first character of the first line |
| `Strings.JoinLinesNoBlankLine` | src/notes_parser.py:11 | lines that are all non-empty, except perhaps the first, join without a blank line |
| `Strings.JoinLinesAvoids` | src/notes_parser.py:11 | a character that no line holds, other than a newline, is not in the joined text |
| `Strings.NoBlankLineBefore` | src/notes_parser.py:11 | in text with no blank line, followed by "\n\n", the first "\n\n" is the one that follows |
| `Strings.Span` | src/notes_parser.py:21 | the length of the longest prefix whose characters all satisfy the predicate (as used by `strip()` and by the digit run of the key pattern) |
| `Strings.RunEnd` | src/notes_parser.py:41 | the end of the longest run from `from` whose characters all satisfy the predicate: each run character satisfies it and the next one does not |
| `Strings.RunEndExact` | src/notes_parser.py:41 | a run that ends where the predicate first fails is the maximal run |
| `Strings.RunEndAtLeast` | src/notes_parser.py:41 | the maximal run reaches at least as far as any run |
| `Strings.TrimLeft` | src/notes_parser.py:21 | removes exactly the leading whitespace: the removed part is all whitespace and the result does not start with whitespace |
| `Strings.TrimRight` | src/notes_parser.py:21 | removes exactly the trailing whitespace: the removed part is all whitespace and the result does not end with whitespace |
| `Strings.Strip` | src/notes_parser.py:21 | `strip()`: the result neither starts nor ends with whitespace and is no longer than the input |
| `Strings.StripIsInfix` | src/notes_parser.py:21 | `strip()` removes only whitespace, and only at the two ends |
| `Strings.TrimLeftUnique` | src/notes_parser.py:21 | leading whitespace followed by a text that starts with a non-space trims to that text |
| `Strings.TrimRightUnique` | src/notes_parser.py:21 | a text that ends with a non-space, followed by whitespace, trims to that text |
| `Strings.StripUnique` | src/notes_parser.py:21 | whitespace, a text with non-space ends, whitespace: the strip is that text |
| `Strings.TrimRightKeeps` | src/notes_parser.py:21 | stripping the right end keeps every character up to the last non-space |
| `Strings.StripKeepsFront` | src/notes_parser.py:21 | a text that starts with a non-space keeps its first `n` characters through `strip()` when a non-space lies at or after index `n` |
| `NotesParser.Change` | src/notes_parser.py:29-45 | an item: a title, and an author and a link that pull-request items have and commit items lack (a datatype, no contract of its own) |
| `NotesParser.Marker` | src/notes_parser.py:56 | the heading line `## <title>\n` (a definition, no contract of its own) |
| `NotesParser.GetSection` | src/notes_parser.py:10-11 | fails exactly when the heading `## <title>\n` is absent; otherwise it returns the text after the first heading, up to the first blank line or to the end, and the result holds no blank line |
| `NotesParser.GetSectionOfHeadedBlock` | src/notes_parser.py:10-11 | a heading whose first occurrence follows a prefix, then a body with no blank line, then a blank line, then anything: the section is the body |
| `NotesParser.ParsePr` | src/notes_parser.py:26-35 | a pull-request item always carries both an author and a link |
| `NotesParser.ParsePrSpec` | src/notes_parser.py:26-38 | the pull-request shape fails exactly when " by @" is absent, or " in " is absent after it; otherwise the line is `title + " by @" + author + " in " + link`, split at the first " by @" and at the first " in " after it |
| `NotesParser.ParsePrNone` | src/notes_parser.py:26-38 | the pull-request shape fails exactly when " by @" is absent, or " in " is absent after its first occurrence |
| `NotesParser.ParsePrPieces` | src/notes_parser.py:27-35 | a parsed pull request rebuilds its line, the title holds no " by @" and the author holds no " in " |
| `NotesParser.RebuildPrLine` | src/notes_parser.py:27-28 | the two splits put back together rebuild the line `title + " by @" + author + " in " + link` |
| `NotesParser.ParsePrOfPrLine` | src/notes_parser.py:26-35 | a line built from a title, an author and a link, with no earlier separators, parses to exactly those three parts |
| `NotesParser.ParsePrNeedsAt` | src/notes_parser.py:27 | a line without '@' falls through to the commit shape |
| `NotesParser.ParsePrOfPlainLine` | src/notes_parser.py:26-35 | a title without '@' and an author without 'n' are recovered exactly, whatever the link holds |
| `NotesParser.PlainLineSeparators` | src/notes_parser.py:27-28 | with no '@' in the title and no 'n' in the author, " by @" first occurs right after the title and " in " first occurs right after the author |
| `NotesParser.IsSeparator` | src/notes_parser.py:41 | the character class `[:\-]` (a predicate, no contract of its own) |
| `NotesParser.AllHex` | src/notes_parser.py:41 | every character is in `[0-9a-fA-F]` (a predicate, no contract of its own) |
| `NotesParser.HashPrefixSplit` | src/notes_parser.py:41 | one way a text fits `[0-9a-fA-F]{7,}\s*[:\-]\s*`: seven or more hex digits, whitespace, one separator, whitespace, and nothing else (a predicate, no contract of its own) |
| `NotesParser.IsHashPrefix` | src/notes_parser.py:41 | the language of the hash pattern: the texts that split that way (a predicate, no contract of its own; `HashPrefixIsLongestMatch` ties it to `HashPrefixLength`) |
| `NotesParser.HashPrefixLength` | src/notes_parser.py:41 | the hash pattern's match is at least 8 characters long and lies within the line |
| `NotesParser.HashPrefixMatches` | src/notes_parser.py:41 | the measured prefix is in the language of `[0-9a-fA-F]{7,}\s*[:\-]\s*` |
| `NotesParser.HexRunOfSplit` | src/notes_parser.py:41 | in any matching prefix the hex part is the whole leading hex run |
| `NotesParser.SpaceRunOfSplit` | src/notes_parser.py:41 | in any matching prefix the whitespace before the separator is the whole run after the hex digits |
| `NotesParser.TrailingRunOfSplit` | src/notes_parser.py:41 | in any matching prefix the whitespace after the separator is no longer than the whole run there |
| `NotesParser.HashPrefixIsLongest` | src/notes_parser.py:41 | no matching prefix is longer than the measured one, and a matching prefix means a match is found |
| `NotesParser.HashPrefixIsLongestMatch` | src/notes_parser.py:41 | the measured prefix is the longest prefix in the pattern's language, which is what the greedy matcher takes; when none is measured, no prefix matches |
| `NotesParser.HashPrefixLengthOf` | src/notes_parser.py:41 | hash, whitespace, separator, whitespace, then a non-space: the match covers exactly the first four parts |
| `NotesParser.HashLineRuns` | src/notes_parser.py:41 | on `<hash><ws><sep><ws><rest>`, the hex run, the whitespace run and the trailing whitespace run end exactly at the piece boundaries, and the separator follows the first whitespace |
| `NotesParser.HashLineNesting` | src/notes_parser.py:41 | the groupings of a commit-style text into its pieces are the same string |
| `NotesParser.HashLineFront` | src/notes_parser.py:41 | on `<hash><ws><tail>` with a tail that starts with neither a hex digit nor a space, the hex and whitespace runs end exactly at the piece boundaries |
| `NotesParser.RunEndOfPiece` | src/notes_parser.py:41 | a piece whose characters satisfy the predicate, followed by one that starts with a character that does not, ends the run |
| `NotesParser.HashPrefixLengthFromRuns` | src/notes_parser.py:41 | the match length is the sum of the three runs plus the separator |
| `NotesParser.RemoveHashPrefix` | src/notes_parser.py:41 | `re.sub` of the anchored pattern: when the pattern matches, the measured prefix is removed; when it does not, the text is unchanged. The result is always a suffix of the text. `HashPrefixIsLongestMatch` ties the measured prefix to the pattern's language |
| `NotesParser.CommitTitle` | src/notes_parser.py:41-45 | the title is the text with its hash prefix removed and then stripped, whenever that is non-empty; otherwise it is the text as written. It is empty exactly when the text is |
| `NotesParser.CommitTitleOfHashLine` | src/notes_parser.py:41-45 | `<hash><ws><sep><ws><message><ws>` gives exactly the message, whatever whitespace follows it |
| `NotesParser.CommitTitleOfBareHash` | src/notes_parser.py:42-44 | a text that is a hash prefix and nothing else is kept whole as the title |
| `NotesParser.CommitTitleWithoutHash` | src/notes_parser.py:41-44 | with no hash prefix, the title is the stripped text, or the text itself when it is blank |
| `NotesParser.CommitTitleOfPlainText` | src/notes_parser.py:41-45 | a text that starts with neither a hex digit nor a space and ends with a non-space is its own title |
| `NotesParser.IsItemLine` | src/notes_parser.py:21 | a line is a bullet when its stripped form starts with "- " (a predicate, no contract of its own) |
| `NotesParser.ItemLineLength` | src/notes_parser.py:21-23 | a bullet line has at least three characters, so cutting at 2 leaves a non-empty text |
| `NotesParser.ParseLine` | src/notes_parser.py:21-45 | a line gives an item exactly when its stripped form starts with "- "; a commit item's title is never empty, and an item has an author exactly when it has a link (the item's content is stated by `ParseLineSpec`) |
| `NotesParser.ParseLineSpec` | src/notes_parser.py:21-45 | a line gives an item exactly when its stripped form starts with "- ". The text parsed is the line minus its first two characters. The item is that text's pull-request split when it fits; otherwise it is a commit item titled `CommitTitle` of the text, with no author and no link |
| `NotesParser.NonBulletLineIgnored` | src/notes_parser.py:21-22 | blank lines, and lines opening with neither whitespace nor '-', give no item |
| `NotesParser.NoBulletAfterText` | src/notes_parser.py:21 | a line opening with neither whitespace nor '-' is not a bullet |
| `NotesParser.BulletLine` | src/notes_parser.py:21-23 | "- " followed by text with any non-space character is a bullet, whatever whitespace ends it, and its parsed text is that text |
| `NotesParser.PrBulletLine` | src/notes_parser.py:21-36 | a bullet `- <title> by @<author> in <link>` gives its title, author and link. The only conditions are that " by @" first occurs after the title and " in " first occurs after the author |
| `NotesParser.CommitBulletLine` | src/notes_parser.py:21-45 | a bullet `- <hash><ws><sep><ws><message><ws>` that the pull-request split rejects gives the message, with no author and no link |
| `NotesParser.IndentedBulletKeepsMarker` | src/notes_parser.py:21-23 | the text is cut from the line as written, so a bullet indented by two spaces keeps "- " in its title |
| `NotesParser.IndentedBulletLine` | src/notes_parser.py:21-23 | a line "  - <text>" is a bullet and its parsed text is "- <text>" |
| `NotesParser.DashTextIsCommit` | src/notes_parser.py:26-45 | "- <text>" without '@' fails the pull-request split and is its own commit title |
| `NotesParser.ParseLineOfCommitText` | src/notes_parser.py:21-45 | a bullet whose text fails the pull-request split gives a commit item titled `CommitTitle` of the text, with no author and no link |
| `NotesParser.LineItems` | src/notes_parser.py:21-45 | one line gives at most one item |
| `NotesParser.ParseLines` | src/notes_parser.py:16-46 | a section never gives more items than it has lines |
| `NotesParser.ItemLines` | src/notes_parser.py:21-22 | the lines kept are bullet lines, and no more than all the lines |
| `NotesParser.Changelist` | src/notes_parser.py:14-46 | `_parse_changelist` as a function: the items of the lines of `split("\n")` (a definition; `ParseChangelist`, `ParseLinesOfItemLines` and `ChangelistOfLines` state its properties) |
| `NotesParser.ParseLinesOfItemLines` | src/notes_parser.py:14-46 | the section gives one item per bullet line, in order, and item k is the parse of bullet line k |
| `NotesParser.ParseLinesAppend` | src/notes_parser.py:14-46 | the items of two runs of lines are the items of the first run, then those of the second |
| `NotesParser.NonItemLineContributesNothing` | src/notes_parser.py:21-22 | removing a non-bullet line from anywhere leaves the items unchanged |
| `NotesParser.ParseChangelist` | src/notes_parser.py:14-46 | the loop returns `Changelist(content)`: one item per bullet line, and no more items than lines |
| `NotesParser.ChangelistOfLines` | src/notes_parser.py:14-46 | a section written out as lines gives the items of exactly those lines |
| `NotesParser.SectionItems` | src/notes_parser.py:55-62 | an absent heading contributes nothing; a present heading always gets its section cut, and contributes that section's items |
| `NotesParser.SectionItemsOfHeadedBlock` | src/notes_parser.py:55-62 | a heading whose first occurrence follows a prefix, then lines without a blank line, then a blank line: the section contributes the items of exactly those lines |
| `NotesParser.ItemsOfSections` | src/notes_parser.py:55-60 | the items of the given sections, concatenated in the order the loop visits them (a definition; `Changes` and `ExtractChanges` state its use) |
| `NotesParser.Changes` | src/notes_parser.py:49-64 | the "What's Changed" items, followed by the "Commits" items |
| `NotesParser.ExtractChanges` | src/notes_parser.py:49-64 | the loop over the two sections returns `Changes(content)` |
| `NotesParser.ChangesOfDocument` | src/notes_parser.py:49-64 | a document made of any prefix, a "What's Changed" section and then a "Commits" section, each closed by a blank line, gives the first section's items followed by the second's. The conditions are exactly that the first "What's Changed" heading is not inside the prefix and the first "Commits" heading is not before the second section |
| `NotesParser.CommitsHeadingFirst` | src/notes_parser.py:56-59 | after the "What's Changed" heading, a section text without '#' and its blank line hold no "Commits" heading, whatever follows |
| `NotesParser.ChangesOfHashFreeDocument` | src/notes_parser.py:49-64 | a document that starts with its "What's Changed" section, whose lines hold no '#', followed by its "Commits" section, gives the first section's items followed by the second's |
| `NotesParser.ChangesOfChangesSection` | src/notes_parser.py:49-64 | a document with a "What's Changed" section after any prefix that holds no such heading, and no "Commits" heading anywhere, gives exactly that section's items |
| `NotesParser.ChangesOfCommitsSection` | src/notes_parser.py:49-64 | a document with a "Commits" section after any prefix that holds no such heading, and no "What's Changed" heading anywhere, gives exactly that section's items |
| `NotesParser.SectionItemsOfBlock` | src/notes_parser.py:55-60 | a section whose lines are non-empty after the first, closed by a blank line, contributes the items of exactly those lines |
| `NotesParser.ChangesOfHashFreeChangesSection` | src/notes_parser.py:49-64 | a document made of its "What's Changed" section and a footer, none of it holding '#', gives exactly that section's items |
| `NotesParser.ChangesOfHashFreeCommitsSection` | src/notes_parser.py:49-64 | a document made of its "Commits" section and a footer, none of it holding '#', gives exactly that section's items |
| `NotesParser.CommitsHeadingAbsent` | src/notes_parser.py:56-57 | after the "What's Changed" heading, text without '#' holds no "Commits" heading, so `marker in content` is false for it |
| `NotesParser.ChangesHeadingAbsent` | src/notes_parser.py:56-57 | after the "Commits" heading, text without '#' holds no "What's Changed" heading |
| `NotesParser.OtherHeadingAbsent` | src/notes_parser.py:56-57 | after one heading, text without '#' holds no heading whose title starts with another character |
| `NotesParser.RegroupSection` | src/notes_parser.py:56-59 | the groupings of a one-section document are the same string |
| `NotesParser.IsIssueKey` | src/notes_parser.py:5 | a text in the language of `<project>-[0-9]+` (a predicate, no contract of its own) |
| `NotesParser.KeyStartsAt` | src/notes_parser.py:68 | `<project>-` followed by a digit starts at that index, so the pattern can match there (a predicate, no contract of its own) |
| `NotesParser.KeyMatchAt` | src/notes_parser.py:68 | the greedy match of the pattern at that index is exactly that key: a key, not followed by a digit (a predicate, no contract of its own) |
| `NotesParser.FirstKeyFrom` | src/notes_parser.py:68 | the result is the lowest index at or after `from` where `<project>-<digit>` starts; None means there is none there |
| `NotesParser.ExtractIssueId` | src/notes_parser.py:67-71 | None holds exactly when `<project>-` followed by a digit occurs nowhere in the title |
| `NotesParser.ExtractIssueIdSpec` | src/notes_parser.py:67-71 | the key found is `<project>-<digits>`, starts at the leftmost index where the pattern can match, and takes every digit that follows |
| `NotesParser.ExtractIssueIdUnique` | src/notes_parser.py:67-71 | a greedy key at the leftmost possible start is the key found |
| `NotesParser.KeyMatchStarts` | src/notes_parser.py:68 | where a greedy key matches, the pattern can start |
| `NotesParser.KeyLengthUnique` | src/notes_parser.py:68 | two greedy matches at one index are the same key |
| `NotesParser.ExtractIssueIdOfLeadingKey` | src/notes_parser.py:67-71 | a title starting with `<project>-<digits>`, followed by a non-digit, gives that key |
| `NotesParser.ExtractIssueIdNeedsDash` | src/notes_parser.py:67-70 | a title without '-' gives no key |
| `NotesParser.ExtractIssueIdOfKey` | src/notes_parser.py:67-71 | a key on its own extracts to itself |
| `NotesParser.ExtractIssueIdIdempotent` | src/notes_parser.py:67-71 | extracting from an extracted key gives it back |
| `IssueKeys.KeysOf` | src/main.py:26-27 | one key lookup per change, in order |
| `IssueKeys.FirstMention` | src/main.py:26-33 | the index of the first change that mentions the key; no change before it does |
| `IssueKeys.NoDuplicates` | src/main.py:31-33 | no key appears twice (a predicate, no contract of its own) |
| `IssueKeys.Collected` | src/main.py:24-33 | the keys the loop has collected after a run of changes: a key is appended when it is new (a definition; the `Collected*` lemmas and `CollectIssueIds` state its properties) |
| `IssueKeys.FirstMentionOfPrefix` | src/main.py:26-33 | a first mention inside a prefix is the first mention overall, and none in the prefix means none before its end |
| `IssueKeys.CollectedMembers` | src/main.py:24-33 | a key is collected exactly when some change mentions it |
| `IssueKeys.CollectedNoDuplicates` | src/main.py:31-33 | no key is collected twice |
| `IssueKeys.CollectedInMentionOrder` | src/main.py:24-33 | the keys are in the order of their first mentions |
| `IssueKeys.KeylessSkipped` | src/main.py:28-30 | a change without a key leaves the collected keys unchanged, wherever it stands |
| `IssueKeys.CollectIssueIds` | src/main.py:24-33 | the loop with its `seen` set yields `Collected(KeysOf(changes))`, which has no duplicates, holds every mentioned key and no other, and is in first-mention order |
| `Scenarios.PullLink` | test_notes_parser.py:20-21 | the link of a pull request of the test repository (a definition, no contract of its own) |
| `Scenarios.PullLinkAvoids` | test_notes_parser.py:20-21 | such a link holds no '#' and no newline when its number holds none |
| `Scenarios.TestHash` | test_notes_parser.py:62-63 | what the commit hashes of the tests are: seven or more hexadecimal digits, with no '@', '#' or newline (a definition, no contract of its own) |
| `Scenarios.TestHashes` | test_notes_parser.py:62-63 | 1234567, abcdef0, abc1234 and def5678 are such hashes |
| `Scenarios.TestMessage` | src/notes_parser.py:41-44 | what the commit messages of the tests are: non-empty, no white space at either end, no '@', '#' or newline, so stripping leaves them whole (a definition, no contract of its own) |
| `Scenarios.KeyTitleParts` | test_notes_parser.py:62-63 | a title `TEST-<digits><text>` whose parts hold no '@', '#' or newline and whose text ends in a non-space is such a message |
| `Scenarios.LeadingTestKey` | src/notes_parser.py:67-71 | a title that starts with `TEST-`, three digits and a space gives the key `TEST-` with those digits |
| `Scenarios.CommitLineItem` | src/notes_parser.py:21-45 | `- <hash><spaces><separator><spaces><message>` with such a hash and message gives the message alone, with no author and no link |
| `Scenarios.BlankLineItems` | src/notes_parser.py:21-22 | a single blank line gives no item |
| `Scenarios.ParseLinesSnoc` | src/notes_parser.py:16-46 | one more line that is an item adds that item at the end of the items |
| `Scenarios.FooterShape` | test_notes_parser.py:23 | the "**Full Changelog**" footer holds no '#' |
| `Scenarios.PrLineShape` | test_notes_parser.py:20-21 | a pull-request line built from parts without '#' or newline is a single non-empty line without '#' |
| `Scenarios.CommitLineShape` | test_notes_parser.py:62-63 | a commit line built from parts without '#' or newline is a single non-empty line without '#' |
| `Scenarios.ItemsOfTwoLines` | test_notes_parser.py:137-139 | a blank line and then one item line give that one item |
| `Scenarios.ItemsOfThreeLines` | test_notes_parser.py:18-21 | a blank line and then two item lines give those two items, in order |
| `Scenarios.KeysOfTwo` | test_notes_parser.py:47-50 | two changes whose titles carry the keys `k0`, `k1` give exactly those keys, in order |
| `Scenarios.KeysOfOne` | src/main.py:26-27 | a change whose title carries the key `k0` gives exactly that key |
| `Scenarios.KeysOfAppend` | src/main.py:26-27 | the keys of two runs of changes are the keys of the first run, then those of the second |
| `Scenarios.FooterAndBlankLines` | test_notes_parser.py:22-23 | the "**Full Changelog**" footer and a blank line give no item |
| `Scenarios.PrStyleDocument` | test_notes_parser.py:18-24 | the document of test_pr_style_parsing (a definition, no contract of its own) |
| `Scenarios.FirstPrLine` | test_notes_parser.py:20-40 | the first pull-request line gives "TEST-123 Fix login bug", "alice" and its link |
| `Scenarios.SecondPrLine` | test_notes_parser.py:21-44 | the second pull-request line gives "TEST-456 Add new feature", "bob" and its link |
| `Scenarios.LoginKey` | test_notes_parser.py:47-49 | "TEST-123 Fix login bug" gives TEST-123 |
| `Scenarios.FeatureKey` | test_notes_parser.py:48-50 | "TEST-456 Add new feature" gives TEST-456 |
| `Scenarios.LoginLineShape` | test_notes_parser.py:20 | that line is a single non-empty line without '#' |
| `Scenarios.FeatureLineShape` | test_notes_parser.py:21 | that line is a single non-empty line without '#' |
| `Scenarios.PrStyleLineShapes` | test_notes_parser.py:18-22 | the section's lines meet the conditions of `ChangesOfHashFreeChangesSection` |
| `Scenarios.PrStyleItems` | test_notes_parser.py:19-21 | the section's lines give the two pull requests, in order |
| `Scenarios.PrStyleDocumentChanges` | test_notes_parser.py:18-44 | the whole document gives the two pull requests with their titles, authors and links, in order |
| `Scenarios.PrStyleKeys` | test_notes_parser.py:47-50 | the two pull-request titles give TEST-123 and TEST-456, in order |
| `Scenarios.PrStyleParsing` | test_notes_parser.py:34-50 | the document gives 2 changes, whose keys are TEST-123 and TEST-456 |
| `Scenarios.CommitStyleDocument` | test_notes_parser.py:60-66 | the document of test_commit_style_parsing (a definition, no contract of its own) |
| `Scenarios.DashCommitLine` | test_notes_parser.py:62-79 | `- 1234567 - TEST-789 Update documentation` gives the message alone, with no author and no link |
| `Scenarios.ColonCommitLine` | test_notes_parser.py:63-80 | `- abcdef0: TEST-999 Fix typo in README` gives the message alone, with no author and no link |
| `Scenarios.DocsMessage` | test_notes_parser.py:62 | "TEST-789 Update documentation" is a test message |
| `Scenarios.TypoMessage` | test_notes_parser.py:63 | "TEST-999 Fix typo in README" is a test message |
| `Scenarios.DocsKey` | test_notes_parser.py:83-85 | "TEST-789 Update documentation" gives TEST-789 |
| `Scenarios.TypoKey` | test_notes_parser.py:84-86 | "TEST-999 Fix typo in README" gives TEST-999 |
| `Scenarios.DocsLineShape` | test_notes_parser.py:62 | that line is a single non-empty line without '#' |
| `Scenarios.TypoLineShape` | test_notes_parser.py:63 | that line is a single non-empty line without '#' |
| `Scenarios.CommitStyleLineShapes` | test_notes_parser.py:60-64 | the section's lines meet the conditions of `ChangesOfHashFreeCommitsSection` |
| `Scenarios.CommitStyleItems` | test_notes_parser.py:61-63 | the section's lines give the two commits, in order |
| `Scenarios.CommitStyleDocumentChanges` | test_notes_parser.py:60-80 | the whole document gives the two commit messages without their hashes, in order |
| `Scenarios.CommitStyleKeys` | test_notes_parser.py:83-86 | the two commit messages give TEST-789 and TEST-999, in order |
| `Scenarios.CommitStyleParsing` | test_notes_parser.py:75-86 | the document gives 2 changes, whose keys are TEST-789 and TEST-999 |
| `Scenarios.MixedDocument` | test_notes_parser.py:96-107 | the document of test_mixed_prs_and_commits (a definition, no contract of its own) |
| `Scenarios.FeatureALineItem` | test_notes_parser.py:98 | `- TEST-100 Feature A by @user1 in …/pull/10` gives its title, author and link |
| `Scenarios.FeatureBLineItem` | test_notes_parser.py:99 | `- TEST-200 Feature B by @user2 in …/pull/20` gives its title, author and link |
| `Scenarios.HotfixMessage` | test_notes_parser.py:103 | "TEST-300 Hotfix for issue" is a test message |
| `Scenarios.AnotherMessage` | test_notes_parser.py:104 | "TEST-400 Another commit" is a test message |
| `Scenarios.HotfixLineItem` | test_notes_parser.py:103 | `- abc1234 - TEST-300 Hotfix for issue` gives the message alone |
| `Scenarios.AnotherLineItem` | test_notes_parser.py:104 | `- def5678: TEST-400 Another commit` gives the message alone |
| `Scenarios.FeatureAKey` | test_notes_parser.py:124 | "TEST-100 Feature A" gives TEST-100 |
| `Scenarios.FeatureBKey` | test_notes_parser.py:125 | "TEST-200 Feature B" gives TEST-200 |
| `Scenarios.HotfixKey` | test_notes_parser.py:126 | "TEST-300 Hotfix for issue" gives TEST-300 |
| `Scenarios.AnotherKey` | test_notes_parser.py:127 | "TEST-400 Another commit" gives TEST-400 |
| `Scenarios.FeatureALineShape` | test_notes_parser.py:98 | that line is a single non-empty line without '#' |
| `Scenarios.FeatureBLineShape` | test_notes_parser.py:99 | that line is a single non-empty line without '#' |
| `Scenarios.HotfixLineShape` | test_notes_parser.py:103 | that line is a single non-empty line |
| `Scenarios.AnotherLineShape` | test_notes_parser.py:104 | that line is a single non-empty line |
| `Scenarios.MixedLineShapes` | test_notes_parser.py:96-105 | the document's lines meet the conditions of `ChangesOfHashFreeDocument` |
| `Scenarios.MixedChangesItems` | test_notes_parser.py:97-99 | the "What's Changed" lines give the two pull requests, in order |
| `Scenarios.MixedCommitsItems` | test_notes_parser.py:102-104 | the "Commits" lines give the two commits, in order |
| `Scenarios.MixedDocumentChanges` | test_notes_parser.py:96-116 | the whole document gives the two pull requests, then the two commits |
| `Scenarios.MixedPrKeys` | test_notes_parser.py:120-125 | the two pull-request titles give TEST-100 and TEST-200 |
| `Scenarios.MixedCommitKeys` | test_notes_parser.py:120-127 | the two commit titles give TEST-300 and TEST-400 |
| `Scenarios.MixedKeys` | test_notes_parser.py:120-127 | the four titles give TEST-100, TEST-200, TEST-300 and TEST-400, in order |
| `Scenarios.MixedParsing` | test_notes_parser.py:116-127 | the document gives 4 changes, whose keys are exactly TEST-100, TEST-200, TEST-300 and TEST-400, in order, none of them missing |
| `Scenarios.DedupDocument` | test_notes_parser.py:137-147 | the document of test_deduplication (a definition, no contract of its own) |
| `Scenarios.InitialFixLineItem` | test_notes_parser.py:139 | the pull-request line of the deduplication test gives "TEST-500 Initial fix", "user1" and its link |
| `Scenarios.FollowUpMessage` | test_notes_parser.py:143 | "TEST-500 Follow-up commit for same issue" is a test message |
| `Scenarios.DifferentMessage` | test_notes_parser.py:144 | "TEST-600 Different issue" is a test message |
| `Scenarios.FollowUpLineItem` | test_notes_parser.py:143 | `- abc1234 - TEST-500 Follow-up commit for same issue` gives the message alone |
| `Scenarios.DifferentLineItem` | test_notes_parser.py:144 | `- def5678: TEST-600 Different issue` gives the message alone |
| `Scenarios.DedupChangesItems` | test_notes_parser.py:137-139 | the "What's Changed" lines of the deduplication test give one pull-request item |
| `Scenarios.DedupCommitsItems` | test_notes_parser.py:141-144 | the "Commits" lines of the deduplication test give two commit items |
| `Scenarios.InitialFixKey` | test_notes_parser.py:139 | "TEST-500 Initial fix" gives TEST-500 |
| `Scenarios.FollowUpKey` | test_notes_parser.py:143 | "TEST-500 Follow-up commit for same issue" gives TEST-500 |
| `Scenarios.DifferentKey` | test_notes_parser.py:144 | "TEST-600 Different issue" gives TEST-600 |
| `Scenarios.DedupKeys` | test_notes_parser.py:162-166 | the three titles give TEST-500, TEST-500 and TEST-600 |
| `Scenarios.InitialFixLineShape` | test_notes_parser.py:139 | that line is a single non-empty line without '#' |
| `Scenarios.InitialFixTitleAvoids` | test_notes_parser.py:139 | that line's title holds no '#' and no newline |
| `Scenarios.InitialFixLinkAvoids` | test_notes_parser.py:139 | that line's link holds no '#' and no newline |
| `Scenarios.FollowUpLineShape` | test_notes_parser.py:143 | that line is a single non-empty line |
| `Scenarios.DifferentLineShape` | test_notes_parser.py:144 | that line is a single non-empty line |
| `Scenarios.DedupLineShapes` | test_notes_parser.py:137-145 | the document's lines meet the conditions of `ChangesOfHashFreeDocument` |
| `Scenarios.DedupDocumentChanges` | test_notes_parser.py:137-157 | the whole deduplication document gives the pull request, then the two commits, in section order |
| `Scenarios.DeduplicatesAcrossSections` | test_notes_parser.py:160-171 | TEST-500, TEST-500, TEST-600 collect to TEST-500, TEST-600, and so does a sequence with a keyless change in the middle |
| `Scenarios.DeduplicationDocument` | test_notes_parser.py:156-171 | the document gives three changes, and their keys collect to TEST-500 and TEST-600 |
| `Scenarios.NoKeyDocument` | test_notes_parser.py:181-190 | the document of test_no_issue_key (a definition, no contract of its own) |
| `Scenarios.TitlesWithoutKey` | test_notes_parser.py:183-206 | "Some change without issue key" and "Another change without key" give None |
| `Scenarios.NoKeyCommitTitleParts` | test_notes_parser.py:187 | "Another change without key" is a test message |
| `Scenarios.NoKeyPrLineItem` | test_notes_parser.py:183 | `- Some change without issue key by @user1 in …/pull/1` gives its title, author and link |
| `Scenarios.NoKeyCommitLineItem` | test_notes_parser.py:187 | `- abc1234 - Another change without key` gives the message alone |
| `Scenarios.NoKeyPrLineShape` | test_notes_parser.py:183 | that line is a single non-empty line without '#' |
| `Scenarios.NoKeyCommitLineShape` | test_notes_parser.py:187 | that line is a single non-empty line |
| `Scenarios.NoKeyLineShapes` | test_notes_parser.py:181-188 | the document's lines meet the conditions of `ChangesOfHashFreeDocument` |
| `Scenarios.NoKeyChangesItems` | test_notes_parser.py:182-183 | the "What's Changed" lines give the one pull request |
| `Scenarios.NoKeyCommitsItems` | test_notes_parser.py:186-187 | the "Commits" lines give the one commit |
| `Scenarios.NoKeyDocumentChanges` | test_notes_parser.py:181-200 | the whole document gives the pull request, then the commit |
| `Scenarios.NoKeyKeys` | test_notes_parser.py:203-206 | neither title gives a key |
| `Scenarios.NoKeyParsing` | test_notes_parser.py:199-206 | the document gives 2 changes, and neither has a key |
| `Scenarios.UnanchoredKey` | src/notes_parser.py:67-71 | the key pattern is not anchored: "XTEST-12" gives TEST-12 |
| `Scenarios.FirstSeenOrder` | src/main.py:24-33 | keys A, B, A, C are collected as A, B, C |

## Left out

- Reading `notes.md` (src/notes_parser.py:50-51): the document text is a parameter of `ExtractChanges`.
- The environment variables `INPUT_JIRA_PROJECT` and `GITHUB_REF_NAME`: the project key is a parameter of `ExtractIssueId` and `CollectIssueIds`.
- The Jira calls in src/main.py (creating and releasing the version, adding it to each issue) and all printing: they are I/O and are not part of this model. `jira_api` is not part of this model.
- The `except` branch of `extract_changes` (src/notes_parser.py:61-62): the heading is tested before the section is cut, so `_get_section` cannot fail there. `ExtractChanges` keeps that branch as an empty case, and `SectionItems` proves it is never taken.
- Non-ASCII whitespace: Python's `strip()` and `\s` also accept Unicode spaces. The model uses the ASCII whitespace set only.
- `NotesParser.ExtractIssueId`: the project key is read as a literal. The source interpolates it unescaped into the regular expression, so a key holding regex metacharacters would behave differently.
- `NotesParser.HashPrefixLength`: this is the one pattern `^[0-9a-fA-F]{7,}\s*[:\-]\s*`, not a general regular-expression engine. It is tied to the pattern's language by `HashPrefixIsLongestMatch`.
- Line items are records with optional `author` and `link` fields. The source's dictionaries omit those keys for commit items, and that is modelled as None.
