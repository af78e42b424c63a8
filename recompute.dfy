/** The batch script that rewrites every record's score with the current scorer and stamps it
    with the package version. */
module Recompute {
  import opened Wrappers
  import opened Store
  import opened Schema
  import opened Scoring
  import opened Connector

  /** A record as the script writes it back: the score current, the version set, every other
      field as it was. */
  function Recomputed(e: ActivityEntry, version: string): (r: ActivityEntry)
    ensures ScoreIsCurrent(r)
    ensures r.version == Some(version)
    ensures r == e.(activityScore := r.activityScore, version := Some(version))
  {
    e.(activityScore := MessageScore(e) + AudioVideoScore(e.audioVideoActivities), version := Some(version))
  }

  /** The script: one scan of the whole table, then for each scanned record, in order, a
      recomputation and a put. `failingPut` is the position of the first put the backend
      rejects, if any; that error ends the script with the earlier records already written.
      On a table with unique ids (the store's primary key) each put replaces the record it
      came from. */
  method RecalculateActivityScores(scanOk: bool, table: seq<ActivityEntry>, version: string, failingPut: Option<nat>)
    returns (final: seq<ActivityEntry>, updateCount: nat, error: Option<Error>)
    ensures !scanOk ==> final == table && updateCount == 0 && error == Some(BackendFailure)
    ensures scanOk && (failingPut.None? || failingPut.value >= |table|) ==> error.None? && updateCount == |table|
    ensures scanOk && failingPut.Some? && failingPut.value < |table| ==>
      error == Some(BackendFailure) && updateCount == failingPut.value
    ensures UniqueKeys(table, EntryId) ==>
      && |final| == |table|
      && forall j :: 0 <= j < |table| ==>
           final[j] == if j < updateCount then Recomputed(table[j], version) else table[j]
    ensures UniqueKeys(table, EntryId) && error.None? ==>
      forall e :: e in final ==> ScoreIsCurrent(e) && e.version == Some(version)
  {
    final := table;
    updateCount := 0;
    error := None;
    if !scanOk {
      error := Some(BackendFailure);
      return;
    }
    var items := table;
    ghost var unique := UniqueKeys(table, EntryId);
    for i := 0 to |items|
      invariant updateCount == i
      invariant failingPut.Some? ==> i <= failingPut.value || failingPut.value >= |items|
      invariant error.None?
      invariant unique ==> UniqueKeys(final, EntryId) && RecomputedUpTo(table, final, i, version)
    {
      var entry := items[i];
      entry := entry.(activityScore := MessageScore(entry) + AudioVideoScore(entry.audioVideoActivities));
      entry := entry.(version := Some(version));
      if failingPut == Some(i) {
        error := Some(BackendFailure);
        return;
      }
      assert entry == Recomputed(items[i], version);
      if unique {
        PutAt(final, i, entry, EntryId);
        PutKeepsUniqueKeys(final, entry, EntryId);
        RecomputeStep(table, final, i, version);
      }
      final := Put(final, entry, EntryId);
      updateCount := updateCount + 1;
    }
    if unique {
      forall e | e in final ensures ScoreIsCurrent(e) && e.version == Some(version) {
        var j :| 0 <= j < |final| && final[j] == e;
      }
    }
  }

  /** The first `i` records are rewritten and the rest are as scanned. */
  ghost predicate RecomputedUpTo(table: seq<ActivityEntry>, final: seq<ActivityEntry>, i: nat, version: string) {
    && |final| == |table|
    && forall j :: 0 <= j < |table| ==> final[j] == if j < i then Recomputed(table[j], version) else table[j]
  }

  lemma RecomputeStep(table: seq<ActivityEntry>, final: seq<ActivityEntry>, i: nat, version: string)
    requires i < |table| && RecomputedUpTo(table, final, i, version)
    ensures RecomputedUpTo(table, final[i := Recomputed(table[i], version)], i + 1, version)
  {
  }
}
