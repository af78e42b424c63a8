/** The superseded revision of the repository layer: records without audio/video data or a
    version, a score from message activity only, and an exclusion lookup that throws when
    it does not find exactly one exclusion. */
module Legacy {
  import opened Wrappers
  import opened Store
  import opened Schema
  import opened Scoring
  import Leaderboard
  import Connector

  /** The old record shape: every counter and the mentioned count are present; histograms
      may be missing on records written before they existed. */
  datatype LegacyEntry = LegacyEntry(
    id: Id,
    userId: string,
    guildId: string,
    messageCount: nat,
    replyCount: nat,
    reactionCount: nat,
    mentionedCount: nat,
    frequencyCounts: Option<FrequencyCounts>,
    messageLengthCounts: Option<MessageLengthCounts>,
    activityScore: int,
    updatedAt: nat)

  function LegacyId(e: LegacyEntry): Id { e.id }

  predicate IsFor(e: LegacyEntry, userId: string, guildId: string) {
    e.userId == userId && e.guildId == guildId
  }

  /** The old revision's scan filter, over `LegacyEntry` records: one user's records in one guild. */
  function Matches(table: seq<LegacyEntry>, userId: string, guildId: string): (r: seq<LegacyEntry>)
    ensures forall e :: e in r <==> e in table && IsFor(e, userId, guildId)
  {
    Filter(table, e => IsFor(e, userId, guildId))
  }

  /** The old calculateActivityScore: the same weighted sum and rounding, without defaults
      for missing arguments; on present arguments it agrees with the current scorer. */
  function LegacyActivityScore(m: nat, r: nat, re: nat, me: nat, f: FrequencyCounts, l: MessageLengthCounts): (score: nat)
    ensures 20 * score <= WeightedSum20(m, r, re, me, f, l) + 10 < 20 * score + 20
    ensures score == ActivityScore(Some(m), Some(r), Some(re), Some(me), Some(f), Some(l))
  {
    (WeightedSum20(m, r, re, me, f, l) + 10) / 20
  }

  /** The score of a record is its message score; the old revision has no audio/video term. */
  ghost predicate LegacyScoreIsCurrent(e: LegacyEntry) {
    && e.frequencyCounts.Some? && e.messageLengthCounts.Some?
    && e.activityScore == LegacyActivityScore(e.messageCount, e.replyCount, e.reactionCount, e.mentionedCount,
                                              e.frequencyCounts.value, e.messageLengthCounts.value)
  }

  ghost predicate IsNewLegacyEntry(e: LegacyEntry, id: Id, userId: string, guildId: string, inc: Increments, now: nat) {
    && e.id == id && IsFor(e, userId, guildId)
    && e.messageCount == inc.message && e.replyCount == inc.reply && e.reactionCount == inc.reaction
    && e.mentionedCount == inc.mentioned
    && e.frequencyCounts == Some(FrequencyCounts(1, 0, 0, 0))
    && e.messageLengthCounts == Some(Connector.LengthTallied(ZeroLength, inc.messageLength))
    && e.updatedAt == now
    && LegacyScoreIsCurrent(e)
  }

  ghost predicate IsIncrementedLegacyEntry(entry: LegacyEntry, e: LegacyEntry, inc: Increments, now: nat) {
    && e.id == entry.id && e.userId == entry.userId && e.guildId == entry.guildId
    && e.messageCount == entry.messageCount + inc.message
    && e.replyCount == entry.replyCount + inc.reply
    && e.reactionCount == entry.reactionCount + inc.reaction
    && e.mentionedCount == entry.mentionedCount + inc.mentioned
    && e.frequencyCounts == Some(TallyFrequency(entry.frequencyCounts.GetOr(ZeroFrequency),
                                                FrequencyCountType(entry.updatedAt, now)))
    && e.messageLengthCounts == Some(Connector.LengthTallied(entry.messageLengthCounts.GetOr(ZeroLength), inc.messageLength))
    && e.updatedAt == now
    && LegacyScoreIsCurrent(e)
  }

  /** The "add new" branch of incrementUserGuildActivities (its lines 162-196). */
  method NewLegacyEntry(userId: string, guildId: string, inc: Increments, now: nat, freshId: Id)
    returns (entry: LegacyEntry)
    ensures IsNewLegacyEntry(entry, freshId, userId, guildId, inc, now)
  {
    FirstTally(now);
    var frequencyCounts := TallyFrequency(ZeroFrequency, FrequencyCountType(now, now));
    // A zero length means "no message" and leaves the length histogram as it is.
    var messageLengthCounts := Connector.LengthTallied(ZeroLength, inc.messageLength);
    entry := LegacyEntry(freshId, userId, guildId, inc.message, inc.reply, inc.reaction, inc.mentioned,
                         Some(frequencyCounts), Some(messageLengthCounts),
                         LegacyActivityScore(inc.message, inc.reply, inc.reaction, inc.mentioned,
                                             frequencyCounts, messageLengthCounts),
                         now);
  }

  /** The "update existing" branch of incrementUserGuildActivities (its lines 205-235). */
  method IncrementLegacyEntry(existing: LegacyEntry, inc: Increments, now: nat) returns (entry: LegacyEntry)
    ensures IsIncrementedLegacyEntry(existing, entry, inc, now)
  {
    entry := existing;
    var frequencyCounts := entry.frequencyCounts.GetOr(ZeroFrequency);
    var messageLengthCounts := entry.messageLengthCounts.GetOr(ZeroLength);
    if inc.messageLength > 0 {
      messageLengthCounts := TallyLength(messageLengthCounts, MessageLengthType(inc.messageLength));
    }
    frequencyCounts := TallyFrequency(frequencyCounts, FrequencyCountType(entry.updatedAt, now));
    entry := entry.(
      messageCount := entry.messageCount + inc.message,
      replyCount := entry.replyCount + inc.reply,
      reactionCount := entry.reactionCount + inc.reaction,
      mentionedCount := entry.mentionedCount + inc.mentioned,
      frequencyCounts := Some(frequencyCounts),
      messageLengthCounts := Some(messageLengthCounts));
    entry := entry.(activityScore := LegacyActivityScore(entry.messageCount, entry.replyCount, entry.reactionCount,
                                                         entry.mentionedCount, frequencyCounts, messageLengthCounts));
    entry := entry.(updatedAt := now);
  }

  /** incrementUserGuildActivities: insert a record when the scan finds none, else update the
      first record found; either way one put. */
  method IncrementUserGuildActivities(
    b: Backend, table: seq<LegacyEntry>, userId: string, guildId: string, inc: Increments, now: nat, freshId: Id)
    returns (r: Result<seq<LegacyEntry>>, written: Option<LegacyEntry>)
    ensures !b.scanOk ==> r == Failure(BackendFailure) && written.None?
    ensures b.scanOk ==> written.Some? && r == PutItem(b, table, written.value, LegacyId)
    ensures b.scanOk && |Matches(table, userId, guildId)| == 0 ==>
      IsNewLegacyEntry(written.value, freshId, userId, guildId, inc, now)
    ensures b.scanOk && |Matches(table, userId, guildId)| > 0 ==>
      IsIncrementedLegacyEntry(Matches(table, userId, guildId)[0], written.value, inc, now)
    ensures r.Success? && |Matches(table, userId, guildId)| == 0 && freshId !in Keys(table, LegacyId) ==>
      r.value == table + [written.value]
    ensures r.Success? && |Matches(table, userId, guildId)| > 0 ==> |r.value| == |table|
  {
    if !b.scanOk {
      return Failure(BackendFailure), None;
    }
    var existing := Matches(table, userId, guildId);
    var entry;
    if |existing| == 0 {
      entry := NewLegacyEntry(userId, guildId, inc, now, freshId);
    } else {
      entry := IncrementLegacyEntry(existing[0], inc, now);
      assert entry.id in Keys(table, LegacyId) by {
        assert existing[0] in table;
        var j :| 0 <= j < |table| && table[j] == existing[0];
      }
    }
    written := Some(entry);
    r := PutItem(b, table, entry, LegacyId);
  }

  /** getNMostActiveUsers of the old revision: the same ranking over old records. */
  function GetNMostActiveUsers(b: Backend, table: seq<LegacyEntry>, n: int, guildId: string)
    : (r: Result<seq<LegacyEntry>>)
    ensures r.Success? <==> b.scanOk
    ensures r.Success? ==> Leaderboard.NonIncreasing(r.value, LegacyScore)
    ensures r.Success? ==> multiset(r.value) <= multiset(GuildEntries(table, guildId))
    ensures r.Success? ==> forall e :: e in r.value ==> e in table && e.guildId == guildId
    ensures r.Success? && 0 <= n ==>
      |r.value| == if n < |GuildEntries(table, guildId)| then n else |GuildEntries(table, guildId)|
    ensures r.Success? ==> forall x, y ::
      x in r.value && y in table && y.guildId == guildId && y !in r.value ==> y.activityScore <= x.activityScore
  {
    if !b.scanOk then Failure(BackendFailure)
    else
      var items := GuildEntries(table, guildId);
      var top := Leaderboard.TopN(items, n, LegacyScore);
      assert forall x, y :: x in top && y in table && y.guildId == guildId && y !in top ==>
        y.activityScore <= x.activityScore by {
        forall x, y | x in top && y in table && y.guildId == guildId && y !in top
          ensures y.activityScore <= x.activityScore {
          assert y in items;
          assert LegacyScore(y) <= LegacyScore(x);
        }
      }
      Success(top)
  }

  function LegacyScore(e: LegacyEntry): int { e.activityScore }

  function GuildEntries(table: seq<LegacyEntry>, guildId: string): (r: seq<LegacyEntry>)
    ensures forall e :: e in r <==> e in table && e.guildId == guildId
  {
    Filter(table, (e: LegacyEntry) => e.guildId == guildId)
  }

  // ---------------------------------------------------------------------------------------
  // User exclusions
  // ---------------------------------------------------------------------------------------

  /** getExcludedUserGuild of the old revision: the exclusion when the scan finds exactly
      one, else a thrown "no entry found" error. */
  function GetExcludedUserGuild(b: Backend, exclusions: seq<ExcludedUserGuildEntry>, userId: string, guildId: string)
    : (r: Result<ExcludedUserGuildEntry>)
    ensures !b.scanOk ==> r == Failure(BackendFailure)
    ensures b.scanOk ==> (r.Success? <==> |Connector.ExclusionMatches(exclusions, userId, guildId)| == 1)
    ensures b.scanOk && !r.Success? ==> r == Failure(NotFound)
    ensures r.Success? ==> r.value == Connector.ExclusionMatches(exclusions, userId, guildId)[0]
    ensures r.Success? ==> r.value in exclusions && Connector.IsExclusionFor(r.value, userId, guildId)
  {
    if !b.scanOk then Failure(BackendFailure)
    else
      var items := Connector.ExclusionMatches(exclusions, userId, guildId);
      if |items| == 1 then
        assert items[0] in items;
        Success(items[0])
      else Failure(NotFound)
  }

  /** excludeUserGuild of the old revision: any failed lookup (none found, several found, or
      the scan rejected) leads to one put of a new exclusion with a fresh id. */
  function ExcludeUserGuild(
    b: Backend, exclusions: seq<ExcludedUserGuildEntry>, userId: string, guildId: string, freshId: Id, date: string)
    : (r: Result<seq<ExcludedUserGuildEntry>>)
    ensures GetExcludedUserGuild(b, exclusions, userId, guildId).Success? ==> r == Success(exclusions)
    ensures GetExcludedUserGuild(b, exclusions, userId, guildId).Failure? ==>
      r == PutItem(b, exclusions, ExcludedUserGuildEntry(freshId, userId, guildId, date), ExclusionId)
    ensures r.Success? ==> |Connector.ExclusionMatches(r.value, userId, guildId)| >= 1
  {
    match GetExcludedUserGuild(b, exclusions, userId, guildId)
    case Success(_) =>
      var m := Connector.ExclusionMatches(exclusions, userId, guildId);
      Success(exclusions)
    case Failure(_) =>
      var x := ExcludedUserGuildEntry(freshId, userId, guildId, date);
      var r := PutItem(b, exclusions, x, ExclusionId);
      assert r.Success? ==> x in Connector.ExclusionMatches(r.value, userId, guildId);
      r
  }

  /** includeUserGuild of the old revision: delete the one exclusion the lookup finds. */
  function IncludeUserGuild(b: Backend, exclusions: seq<ExcludedUserGuildEntry>, userId: string, guildId: string)
    : (r: Result<seq<ExcludedUserGuildEntry>>)
    ensures r.Success? <==> b.scanOk && b.deleteOk && |Connector.ExclusionMatches(exclusions, userId, guildId)| == 1
    ensures b.scanOk && |Connector.ExclusionMatches(exclusions, userId, guildId)| != 1 ==> r == Failure(NotFound)
    ensures r.Success? ==> Connector.ExclusionMatches(r.value, userId, guildId) == []
    ensures r.Success? && UniqueKeys(exclusions, ExclusionId) ==>
      exists i :: 0 <= i < |exclusions| && exclusions[i] == Connector.ExclusionMatches(exclusions, userId, guildId)[0]
                  && r.value == exclusions[..i] + exclusions[i + 1..]
    ensures r.Success? ==>
      r.value == Delete(exclusions, Connector.ExclusionMatches(exclusions, userId, guildId)[0].id, ExclusionId)
  {
    match GetExcludedUserGuild(b, exclusions, userId, guildId)
    case Failure(e) => Failure(e)
    case Success(found) =>
      var r := DeleteItem(b, exclusions, Some(found.id), ExclusionId);
      if r.Success? then
        Connector.DeleteOnlyMatch(exclusions, userId, guildId);
        DeleteMember(exclusions, found, ExclusionId);
        r
      else r
  }

  /** Excluding a user who has no exclusion and then looking the user up finds the new
      exclusion. */
  lemma ExcludeThenLookup(exclusions: seq<ExcludedUserGuildEntry>, userId: string, guildId: string, freshId: Id, date: string)
    requires |Connector.ExclusionMatches(exclusions, userId, guildId)| == 0
    requires freshId !in Keys(exclusions, ExclusionId)
    ensures var r := ExcludeUserGuild(Healthy, exclusions, userId, guildId, freshId, date);
      && r == Success(exclusions + [ExcludedUserGuildEntry(freshId, userId, guildId, date)])
      && GetExcludedUserGuild(Healthy, r.value, userId, guildId) == Success(ExcludedUserGuildEntry(freshId, userId, guildId, date))
  {
    var x := ExcludedUserGuildEntry(freshId, userId, guildId, date);
    var p := (e: ExcludedUserGuildEntry) => Connector.IsExclusionFor(e, userId, guildId);
    FilterAppend(exclusions, [x], p);
    assert Filter([x], p) == [x] by {
      assert [x] == [x] + [];
      assert Filter([x][1..], p) == [];
    }
  }

  /** Excluding twice is excluding once, from any state with at most one exclusion of the
      user (the state the operations themselves keep). */
  lemma ExcludeIdempotent(exclusions: seq<ExcludedUserGuildEntry>, userId: string, guildId: string,
                          freshId: Id, freshId2: Id, date: string, date2: string)
    requires |Connector.ExclusionMatches(exclusions, userId, guildId)| <= 1
    requires freshId !in Keys(exclusions, ExclusionId)
    ensures var once := ExcludeUserGuild(Healthy, exclusions, userId, guildId, freshId, date);
      ExcludeUserGuild(Healthy, once.value, userId, guildId, freshId2, date2) == once
  {
    if |Connector.ExclusionMatches(exclusions, userId, guildId)| == 0 {
      ExcludeThenLookup(exclusions, userId, guildId, freshId, date);
    }
  }

  /** Exclude followed by include restores the table exactly. */
  lemma IncludeUndoesExclude(exclusions: seq<ExcludedUserGuildEntry>, userId: string, guildId: string, freshId: Id, date: string)
    requires |Connector.ExclusionMatches(exclusions, userId, guildId)| == 0
    requires freshId !in Keys(exclusions, ExclusionId)
    ensures var once := ExcludeUserGuild(Healthy, exclusions, userId, guildId, freshId, date);
      IncludeUserGuild(Healthy, once.value, userId, guildId) == Success(exclusions)
  {
    ExcludeThenLookup(exclusions, userId, guildId, freshId, date);
    DeleteAppended(exclusions, ExcludedUserGuildEntry(freshId, userId, guildId, date), ExclusionId);
  }
}
