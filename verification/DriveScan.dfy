/**
  The Microsoft 365 side of a cycle (`sync_executor._iter_m365_candidates`): the candidates
  come from the inventory's listing, and what is not among them is pruned.
 */
module DriveScan {
  import opened Prelude
  import opened Inventory
  import opened Paths
  import opened Spoiling

  /** A source: the folder below the configured one (with its slash, or empty), and whether it descends. */
  datatype Source = Source(prefix: string, recursive: bool)

  /** Extension, globs and size, given the path relative to the source. */
  type Accept = (string, Record) -> bool

  predicate Below(s: Source, full: string) {
    && s.prefix <= full && |full| > |s.prefix|
    && (s.recursive || '/' !in full[|s.prefix|..])
  }

  /** A path below the source is its prefix and something more; one level only unless it descends. */
  lemma BelowExactly(s: Source, full: string)
    ensures Below(s, full) <==> exists rel :: rel != "" && full == s.prefix + rel && (s.recursive || '/' !in rel)
  {
    if Below(s, full) {
      assert full == s.prefix + full[|s.prefix|..];
    }
    if rel :| rel != "" && full == s.prefix + rel && (s.recursive || '/' !in rel) {
      assert full[|s.prefix|..] == rel;
    }
  }

  /** The listed file at `full` is a candidate of the source. */
  predicate IsCandidate(items: View, files: map<string, string>, s: Source, accept: Accept, full: string) {
    full in files && files[full] in items && Below(s, full) && accept(full[|s.prefix|..], items[files[full]])
  }

  function Candidates(items: View, files: map<string, string>, sources: seq<Source>, accept: Accept): set<string> {
    set s, full | s in sources && full in files && IsCandidate(items, files, s, accept, full) :: full[|s.prefix|..]
  }

  /** What the first `n` paths of the listing yield for a source. */
  function Yielded(items: View, files: map<string, string>, ordered: seq<string>, s: Source, accept: Accept, n: nat): set<string>
    requires n <= |ordered|
  {
    set k | 0 <= k < n && IsCandidate(items, files, s, accept, ordered[k]) :: ordered[k][|s.prefix|..]
  }

  /** One source: the loop over the listing, which looks for a stop before every path; the `left`-th look finds it. */
  method SourceCandidates(items: View, files: map<string, string>, ordered: seq<string>, s: Source, accept: Accept, left: nat)
    returns (scanned: set<string>, stopped: bool)
    ensures stopped <==> left < |ordered|
    ensures scanned == Yielded(items, files, ordered, s, accept, if stopped then left else |ordered|)
  {
    scanned := {};
    for j := 0 to |ordered|
      invariant j <= left && scanned == Yielded(items, files, ordered, s, accept, j)
    {
      if j == left {
        return scanned, true;
      }
      if IsCandidate(items, files, s, accept, ordered[j]) {
        scanned := scanned + {ordered[j][|s.prefix|..]};
      }
      assert Yielded(items, files, ordered, s, accept, j + 1)
          == Yielded(items, files, ordered, s, accept, j)
             + if IsCandidate(items, files, s, accept, ordered[j]) then {ordered[j][|s.prefix|..]} else {};
    }
    stopped := false;
  }

  /**
    `_iter_m365_candidates`. The stop is found at the look number `stopAt`, of which there is one for every
    source and path: all candidates, or those of the sources done and of the paths before the stop.
   */
  method DriveCandidates(items: View, files: map<string, string>, ordered: seq<string>, sources: seq<Source>, accept: Accept,
                         stopAt: nat) returns (scanned: set<string>, stopped: bool)
    requires forall full :: full in ordered <==> full in files
    ensures stopped <==> stopAt < |sources| * |ordered|
    ensures !stopped ==> scanned == Candidates(items, files, sources, accept)
    ensures stopped ==> exists i: nat, j: nat | i < |sources| && j < |ordered| && stopAt == i * |ordered| + j ::
      scanned == Candidates(items, files, sources[..i], accept) + Yielded(items, files, ordered, sources[i], accept, j)
    ensures scanned <= Candidates(items, files, sources, accept)
  {
    scanned := {};
    var left: nat := stopAt;
    for i := 0 to |sources|
      invariant scanned == Candidates(items, files, sources[..i], accept) && stopAt == i * |ordered| + left
    {
      var more;
      more, stopped := SourceCandidates(items, files, ordered, sources[i], accept, left);
      ghost var before := scanned;
      scanned := scanned + more;
      if stopped {
        MoreSources(i, |sources|, |ordered|);
        YieldedIsCandidate(items, files, ordered, sources, i, accept, left);
        assert scanned == before + Yielded(items, files, ordered, sources[i], accept, left);
        return;
      }
      assert sources[..i + 1] == sources[..i] + [sources[i]];
      OneSource(items, files, sources[..i], sources[i], accept, ordered);
      left := left - |ordered|;
    }
    assert sources[..|sources|] == sources;
    stopped := false;
  }

  lemma MoreSources(i: nat, n: nat, each: nat)
    requires i < n
    ensures i * each + each <= n * each
  {
    assert (i + 1) * each <= n * each;
  }

  lemma YieldedIsCandidate(items: View, files: map<string, string>, ordered: seq<string>, sources: seq<Source>, i: nat,
                           accept: Accept, n: nat)
    requires i < |sources| && n <= |ordered| && forall full :: full in ordered ==> full in files
    ensures Candidates(items, files, sources[..i], accept) + Yielded(items, files, ordered, sources[i], accept, n)
         <= Candidates(items, files, sources, accept)
  {
    assert sources[i] in sources;
    assert forall s :: s in sources[..i] ==> s in sources;
    assert forall k :: 0 <= k < n ==> ordered[k] in files;
  }

  lemma OneSource(items: View, files: map<string, string>, before: seq<Source>, s: Source, accept: Accept, ordered: seq<string>)
    requires forall full :: full in ordered <==> full in files
    ensures Candidates(items, files, before + [s], accept)
         == Candidates(items, files, before, accept) + Yielded(items, files, ordered, s, accept, |ordered|)
  {
    var all := Candidates(items, files, before + [s], accept);
    var known := Candidates(items, files, before, accept);
    var more := Yielded(items, files, ordered, s, accept, |ordered|);
    forall rel | rel in all ensures rel in known + more {
      var t, full :| t in before + [s] && full in files && IsCandidate(items, files, t, accept, full) && full[|t.prefix|..] == rel;
      if t !in before {
        var k :| 0 <= k < |ordered| && ordered[k] == full;
        assert rel in more;
      }
    }
    forall rel | rel in more ensures rel in all {
      var k :| 0 <= k < |ordered| && IsCandidate(items, files, s, accept, ordered[k]) && ordered[k][|s.prefix|..] == rel;
      assert s in before + [s] && ordered[k] in files;
    }
    assert forall t :: t in before ==> t in before + [s];
  }

  // ----- deletion safety ------------------------------------------------------------------

  /** A file of the drive that the source means to hold, known as `rel`. */
  ghost predicate Means(items: View, folder: string, s: Source, accept: Accept, rel: string, id: string) {
    exists full :: FileAt(items, folder, full, id) && Below(s, full) && full[|s.prefix|..] == rel && accept(rel, items[id])
  }

  /** The document is a candidate of its source whenever its file is listed, and only then. */
  lemma CandidateIfListed(items: View, folder: string, ids: seq<string>, sources: seq<Source>, accept: Accept,
                          s: Source, full: string, id: string)
    requires OneFilePerPath(items, folder) && FileAt(items, folder, full, id)
    requires s in sources && Below(s, full) && accept(full[|s.prefix|..], items[id])
    ensures var files := Listed(items, folder, ids).files;
            && (full in files ==> full[|s.prefix|..] in Candidates(items, files, sources, accept))
            && (full !in files && sources == [s] ==> full[|s.prefix|..] !in Candidates(items, files, sources, accept))
  {
    ListedAreFiles(items, folder, ids);
    var files := Listed(items, folder, ids).files;
    if full in files {
      assert FileAt(items, folder, full, files[full]);
      assert IsCandidate(items, files, s, accept, full);
    } else {
      forall other | other in files && s.prefix <= other ensures other[|s.prefix|..] != full[|s.prefix|..] {
        assert other == s.prefix + other[|s.prefix|..] && full == s.prefix + full[|s.prefix|..];
      }
    }
  }

  /**
    A document whose file is still on the drive is a candidate in whatever order the inventory is walked, and
    so never taken for gone, unless a file beyond the bound lies at most 256 steps below an item of its chain.
   */
  lemma DriveDeletionSafety(items: View, folder: string, ids: seq<string>, sources: seq<Source>, accept: Accept,
                            s: Source, rel: string, id: string)
    requires OneFilePerPath(items, folder) && Orders(ids, items) && !Spoilable(items, folder, id)
    requires s in sources && Means(items, folder, s, accept, rel, id)
    ensures rel in Candidates(items, Listed(items, folder, ids).files, sources, accept)
  {
    var full :| FileAt(items, folder, full, id) && Below(s, full) && full[|s.prefix|..] == rel && accept(rel, items[id]);
    ListedInEveryOrderExactly(items, folder, full, id);
    CandidateIfListed(items, folder, ids, sources, accept, s, full, id);
  }

  /** With one source that is the exact condition, document by document. */
  lemma KeptInEveryOrderExactly(items: View, folder: string, s: Source, accept: Accept, rel: string, id: string)
    requires OneFilePerPath(items, folder) && Means(items, folder, s, accept, rel, id)
    ensures (forall ids :: Orders(ids, items) ==> rel in Candidates(items, Listed(items, folder, ids).files, [s], accept))
       <==> !Spoilable(items, folder, id)
  {
    var full :| FileAt(items, folder, full, id) && Below(s, full) && full[|s.prefix|..] == rel && accept(rel, items[id]);
    ListedInEveryOrderExactly(items, folder, full, id);
    forall ids | Orders(ids, items)
      ensures rel in Candidates(items, Listed(items, folder, ids).files, [s], accept) <==> full in Listed(items, folder, ids).files
    {
      CandidateIfListed(items, folder, ids, [s], accept, s, full, id);
    }
  }

  /** Where no file's chain is beyond the bound, no document is in danger. */
  lemma NothingToSpoil(items: View, folder: string, id: string)
    requires FilesWithin(items, folder)
    ensures !Spoilable(items, folder, id)
  {
  }

  /** A document beyond the bound is, in some order of the inventory, not among the candidates of its source. */
  lemma DeepDocumentIsTakenForGone(items: View, folder: string, s: Source, accept: Accept, full: string, id: string, k: nat)
    returns (ids: seq<string>)
    requires FileAt(items, folder, full, id) && Below(s, full) && Reaches(items, folder, id, k) && k > MAX_DEPTH
    ensures Orders(ids, items)
    ensures full[|s.prefix|..] !in Candidates(items, Listed(items, folder, ids).files, [s], accept)
  {
    ids := DeepFileIsMissed(items, folder, full, id, k);
    var files := Listed(items, folder, ids).files;
    forall other | other in files && s.prefix <= other ensures other[|s.prefix|..] != full[|s.prefix|..] {
      assert other == s.prefix + other[|s.prefix|..] && full == s.prefix + full[|s.prefix|..];
    }
  }
}
