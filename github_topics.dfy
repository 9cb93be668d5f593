/** `GitHubTopicsManager`: the repository's topics are merged with the
    detected ones, capped at twenty and written back; the GitHub calls are
    replaced by their outcomes. */
module GitHubTopics {
  import opened Wrappers
  import opened Seqs

  /** The most topics GitHub accepts on a repository. */
  const MaxTopics := 20

  /** `mergeTopics`: the current topics, then the new ones, each kept at its
      first occurrence (exact, case-sensitive comparison). */
  function MergeTopics(current: seq<string>, newTopics: seq<string>): (merged: seq<string>)
    ensures NoDup(merged)
    ensures forall t :: t in merged <==> t in current || t in newTopics
    ensures |Dedup(current)| <= |merged| && merged[..|Dedup(current)|] == Dedup(current)
  {
    AddAllConcat([], current, newTopics);
    Dedup(current + newTopics)
  }

  /** The truncation of `updateTopics`: a merge longer than the maximum
      loses everything after its first twenty entries. */
  function Capped(merged: seq<string>): (kept: seq<string>)
    ensures |kept| <= MaxTopics
    ensures |kept| <= |merged| && kept == merged[..|kept|]
    ensures |merged| >= MaxTopics ==> |kept| == MaxTopics
    ensures |merged| <= MaxTopics ==> kept == merged
  {
    if |merged| > MaxTopics then merged[..MaxTopics] else merged
  }

  /** The list `updateTopics` sends to GitHub. */
  function TopicsToWrite(current: seq<string>, newTopics: seq<string>): seq<string> {
    Capped(MergeTopics(current, newTopics))
  }

  /** What is written: at most twenty topics, none twice, each from the
      current or the new list, the current ones first and in their order. */
  lemma WrittenTopics(current: seq<string>, newTopics: seq<string>)
    ensures var w := TopicsToWrite(current, newTopics);
      |w| <= MaxTopics && NoDup(w)
      && (forall t | t in w :: t in current || t in newTopics)
      && (|Dedup(current)| <= MaxTopics ==> w[..|Dedup(current)|] == Dedup(current))
      && (|MergeTopics(current, newTopics)| >= MaxTopics ==> |w| == MaxTopics)
  {
    var merged := MergeTopics(current, newTopics);
    var w := TopicsToWrite(current, newTopics);
    assert forall i, j | 0 <= i < j < |w| :: w[i] == merged[i] && w[j] == merged[j];
    assert forall t | t in w :: t in merged;
    var d := |Dedup(current)|;
    if d <= MaxTopics {
      assert d <= |w|;
      assert w[..d] == merged[..d];
    }
  }

  /** Fifteen current topics and ten new, distinct ones give twenty: the
      current fifteen followed by the first five new. */
  lemma FifteenPlusTen(current: seq<string>, newTopics: seq<string>)
    requires |current| == 15 && NoDup(current)
    requires |newTopics| == 10 && NoDup(newTopics)
    requires forall t | t in newTopics :: t !in current
    ensures TopicsToWrite(current, newTopics) == current + newTopics[..5]
  {
    FreshMerge(current, newTopics);
    var merged := current + newTopics;
    assert Capped(merged) == merged[..MaxTopics];
    assert merged[..MaxTopics] == current + newTopics[..5];
  }

  /** Distinct current topics and distinct new ones that are all fresh merge
      into their concatenation. */
  lemma FreshMerge(current: seq<string>, newTopics: seq<string>)
    requires NoDup(current) && NoDup(newTopics)
    requires forall t | t in newTopics :: t !in current
    ensures MergeTopics(current, newTopics) == current + newTopics
  {
    DedupOfNoDup(current);
    AddAllConcat([], current, newTopics);
    AddAllFresh(current, newTopics);
  }

  /** When the repository already has twenty distinct topics, no new topic
      is written. */
  lemma FullRepositoryGainsNothing(current: seq<string>, newTopics: seq<string>)
    requires |Elems(current)| >= MaxTopics
    ensures forall t | t in TopicsToWrite(current, newTopics) :: t in current
  {
    var d := Dedup(current);
    NoDupCard(d);
    assert Elems(d) == Elems(current);
    var w := TopicsToWrite(current, newTopics);
    var merged := MergeTopics(current, newTopics);
    assert w == merged[..MaxTopics];
    assert merged[..MaxTopics] == d[..MaxTopics];
    forall t | t in w ensures t in current {
      assert t in d;
    }
  }

  /** `updateTopics`: `current` is the result of reading the topics, an
      error when the read throws, which `updateTopics` lets through;
      `replaceFails` says whether the write throws; it swallows that
      failure with a warning, so the update completes either way.
      `sent` is the list handed to the write. */
  method UpdateTopics(current: Result<seq<string>>, newTopics: seq<string>, replaceFails: bool)
    returns (completed: bool, sent: Option<seq<string>>)
    ensures current.Err? ==> !completed && sent == None
    ensures current.Ok? ==> completed && sent == Some(TopicsToWrite(current.value, newTopics))
  {
    if current.Err? {
      return false, None;
    }
    var merged := MergeTopics(current.value, newTopics);
    if |merged| > MaxTopics {
      merged := merged[..MaxTopics];
    }
    sent := Some(merged);
    completed := true;
  }
}
