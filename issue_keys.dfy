/**
 * The issue-key collection step of the release script: the tracker issue
 * keys of the parsed changes, each once, in the order of first mention.
 */
module IssueKeys {
  import opened Wrappers
  import opened NotesParser

  /** The key each change's title mentions, if any, change by change. */
  function KeysOf(changes: seq<Change>, project: string): (ids: seq<Option<string>>)
    ensures |ids| == |changes|
    ensures forall k :: 0 <= k < |changes| ==> ids[k] == ExtractIssueId(changes[k].title, project)
  {
    seq(|changes|, k requires 0 <= k < |changes| => ExtractIssueId(changes[k].title, project))
  }

  predicate NoDuplicates(s: seq<string>)
  {
    forall k1, k2 :: 0 <= k1 < k2 < |s| ==> s[k1] != s[k2]
  }

  /** The index of the first mention of `key` in `ids`, or `|ids|` when there is none. */
  function FirstMention(ids: seq<Option<string>>, key: string): (n: nat)
    ensures n <= |ids|
    ensures forall j :: 0 <= j < n ==> ids[j] != Some(key)
    ensures n < |ids| ==> ids[n] == Some(key)
  {
    if |ids| == 0 then 0
    else if ids[0] == Some(key) then 0
    else 1 + FirstMention(ids[1..], key)
  }

  /** The keys the loop has collected after going through `ids`. */
  function Collected(ids: seq<Option<string>>): seq<string>
  {
    if |ids| == 0 then []
    else
      var keys := Collected(ids[..|ids| - 1]);
      match ids[|ids| - 1]
      case None => keys
      case Some(key) => if key in keys then keys else keys + [key]
  }

  /** The first mention of a key in a prefix of `ids` is its first mention in all of `ids`. */
  lemma FirstMentionOfPrefix(ids: seq<Option<string>>, key: string, n: nat)
    requires n <= |ids|
    ensures FirstMention(ids[..n], key) < n ==> FirstMention(ids, key) == FirstMention(ids[..n], key)
    ensures FirstMention(ids[..n], key) == n ==> FirstMention(ids, key) >= n
  {
    var f := FirstMention(ids[..n], key);
    if f < n {
      assert ids[..n][f] == ids[f];
    }
  }

  /** The collected keys are exactly the keys mentioned somewhere in `ids`. */
  lemma {:induction false} CollectedMembers(ids: seq<Option<string>>)
    ensures forall key :: key in Collected(ids) <==> FirstMention(ids, key) < |ids|
  {
    if |ids| > 0 {
      var n := |ids| - 1;
      CollectedMembers(ids[..n]);
      forall key ensures key in Collected(ids) <==> FirstMention(ids, key) < |ids| {
        FirstMentionOfPrefix(ids, key, n);
      }
    }
  }

  /** No key is collected twice. */
  lemma {:induction false} CollectedNoDuplicates(ids: seq<Option<string>>)
    ensures NoDuplicates(Collected(ids))
  {
    if |ids| > 0 {
      CollectedNoDuplicates(ids[..|ids| - 1]);
    }
  }

  /** The collected keys are in the order of their first mentions in `ids`. */
  lemma {:induction false} CollectedInMentionOrder(ids: seq<Option<string>>)
    ensures forall k1, k2 :: 0 <= k1 < k2 < |Collected(ids)| ==>
      FirstMention(ids, Collected(ids)[k1]) < FirstMention(ids, Collected(ids)[k2])
  {
    if |ids| > 0 {
      var n := |ids| - 1;
      var init := ids[..n];
      var prev := Collected(init);
      CollectedInMentionOrder(init);
      CollectedMembers(init);
      forall k | 0 <= k < |prev| ensures FirstMention(ids, prev[k]) == FirstMention(init, prev[k]) < n {
        FirstMentionOfPrefix(ids, prev[k], n);
      }
      forall k1, k2 | 0 <= k1 < k2 < |prev| ensures FirstMention(ids, prev[k1]) < FirstMention(ids, prev[k2]) {
        assert FirstMention(init, prev[k1]) < FirstMention(init, prev[k2]);
      }
      if ids[n].Some? && ids[n].value !in prev {
        FirstMentionOfPrefix(ids, ids[n].value, n);
        assert FirstMention(ids, ids[n].value) == n;
      } else {
        assert Collected(ids) == prev;
      }
    }
  }

  /** A change that mentions no key leaves the collected keys as they were. */
  lemma {:induction false} KeylessSkipped(a: seq<Option<string>>, b: seq<Option<string>>)
    ensures Collected(a + [None] + b) == Collected(a + b)
    decreases |b|
  {
    if |b| == 0 {
      assert a + [None] + b == a + [None];
      assert (a + [None])[..|a|] == a;
      assert a + b == a;
    } else {
      var b' := b[..|b| - 1];
      assert (a + [None] + b)[..|a + [None] + b| - 1] == a + [None] + b';
      assert (a + [None] + b)[|a + [None] + b| - 1] == b[|b| - 1];
      assert (a + b)[..|a + b| - 1] == a + b';
      assert (a + b)[|a + b| - 1] == b[|b| - 1];
      KeylessSkipped(a, b');
    }
  }

  /**
   * The loop of the release script over the parsed changes: skip a change
   * without a key, and append a key not seen before, recording it in `seen`.
   * Each key is the key of some change, every change's key is there, once,
   * in the order the changes first mention them.
   */
  method CollectIssueIds(changes: seq<Change>, project: string) returns (issueIds: seq<string>)
    ensures issueIds == Collected(KeysOf(changes, project))
    ensures NoDuplicates(issueIds)
    ensures forall key :: key in issueIds <==> FirstMention(KeysOf(changes, project), key) < |changes|
    ensures forall k1, k2 :: 0 <= k1 < k2 < |issueIds| ==>
      FirstMention(KeysOf(changes, project), issueIds[k1]) < FirstMention(KeysOf(changes, project), issueIds[k2])
  {
    ghost var ids := KeysOf(changes, project);
    issueIds := [];
    var seen: set<string> := {};
    for i := 0 to |changes|
      invariant issueIds == Collected(ids[..i])
      invariant seen == set key | key in issueIds
    {
      assert ids[..i + 1][..i] == ids[..i];
      var issueId := ExtractIssueId(changes[i].title, project);
      if issueId.Some? {
        if issueId.value !in seen {
          seen := seen + {issueId.value};
          issueIds := issueIds + [issueId.value];
        }
      }
    }
    assert ids[..|changes|] == ids;
    CollectedMembers(ids);
    CollectedNoDuplicates(ids);
    CollectedInMentionOrder(ids);
  }
}
