/** The current connector: every operation on the activity table and the user-exclusion
    table. A scan filtered by (userId, guildId) is `Matches`; the record a scan returns is
    copied and then changed field by field, as the source does on `Items[0]`, and written
    back with a put that overwrites the record with the same `id` or adds a new one. */
module Connector {
  import opened Wrappers
  import opened Store
  import opened Schema
  import opened Scoring
  import Leaderboard

  predicate IsFor(e: ActivityEntry, userId: string, guildId: string) {
    e.userId == userId && e.guildId == guildId
  }

  /** The records of one user in one guild, in table order. */
  function Matches(table: seq<ActivityEntry>, userId: string, guildId: string): (r: seq<ActivityEntry>)
    ensures forall e :: e in r <==> e in table && IsFor(e, userId, guildId)
  {
    Filter(table, e => IsFor(e, userId, guildId))
  }

  /** getExistingEntry: the filtered scan; a rejected scan propagates to the caller. */
  function GetExistingEntry(b: Backend, table: seq<ActivityEntry>, userId: string, guildId: string)
    : (r: Result<seq<ActivityEntry>>)
    ensures r.Success? <==> b.scanOk
    ensures r.Success? ==> forall e :: e in r.value <==> e in table && IsFor(e, userId, guildId)
    ensures r.Success? ==> r.value == Matches(table, userId, guildId)
  {
    if b.scanOk then Success(Matches(table, userId, guildId)) else Failure(BackendFailure)
  }

  // ---------------------------------------------------------------------------------------
  // Message, reply, reaction and mention activity
  // ---------------------------------------------------------------------------------------

  /** The message part of a record's score, computed from its stored counters. */
  function MessageScore(e: ActivityEntry): nat {
    ActivityScore(Some(e.messageCount), Some(e.replyCount), Some(e.reactionCount), e.mentionedCount,
                  e.frequencyCounts, e.messageLengthCounts)
  }

  /** The stored score is the message score plus the audio/video score of the stored fields. */
  ghost predicate ScoreIsCurrent(e: ActivityEntry) {
    e.activityScore == MessageScore(e) + AudioVideoScore(e.audioVideoActivities)
  }

  /** The length histogram after a message of the given length; length 0 means "no message". */
  function LengthTallied(l: MessageLengthCounts, messageLength: nat): (r: MessageLengthCounts)
    ensures LengthLe(l, r)
    ensures messageLength == 0 ==> r == l
    ensures messageLength > 0 ==>
      && LengthCount(r, MessageLengthType(messageLength)) == LengthCount(l, MessageLengthType(messageLength)) + 1
      && forall c :: c != MessageLengthType(messageLength) ==> LengthCount(r, c) == LengthCount(l, c)
  {
    if messageLength > 0 then
      TallyLengthOtherSlots(l, MessageLengthType(messageLength));
      TallyLength(l, MessageLengthType(messageLength))
    else l
  }

  /** What addNewUserGuildActivityEntry writes. */
  ghost predicate IsNewActivityEntry(e: ActivityEntry, id: Id, userId: string, guildId: string, inc: Increments, now: nat) {
    && e.id == id && IsFor(e, userId, guildId)
    && e.messageCount == inc.message && e.replyCount == inc.reply && e.reactionCount == inc.reaction
    && e.mentionedCount == Some(inc.mentioned)
    && e.frequencyCounts == Some(FrequencyCounts(1, 0, 0, 0))
    && e.messageLengthCounts == Some(LengthTallied(ZeroLength, inc.messageLength))
    && e.audioVideoActivities.None? && e.version.None?
    && e.updatedAt == now
    && ScoreIsCurrent(e)
  }

  /** What updateExistingUserGuildActivityEntry writes in place of `entry`. */
  ghost predicate IsUpdatedActivityEntry(entry: ActivityEntry, e: ActivityEntry, inc: Increments, now: nat) {
    && e.id == entry.id && e.userId == entry.userId && e.guildId == entry.guildId
    && e.messageCount == entry.messageCount + inc.message
    && e.replyCount == entry.replyCount + inc.reply
    && e.reactionCount == entry.reactionCount + inc.reaction
    && e.mentionedCount == Some(entry.mentionedCount.GetOr(0) + inc.mentioned)
    && e.frequencyCounts == Some(TallyFrequency(entry.frequencyCounts.GetOr(ZeroFrequency),
                                                FrequencyCountType(entry.updatedAt, now)))
    && e.messageLengthCounts == Some(LengthTallied(entry.messageLengthCounts.GetOr(ZeroLength), inc.messageLength))
    && e.audioVideoActivities == entry.audioVideoActivities
    && e.version == entry.version
    && e.updatedAt == now
    && ScoreIsCurrent(e)
  }

  /** addNewUserGuildActivityEntry. The frequency bucket is looked up with the current time
      as the last update, so the gap is 0 and the bucket is always veryHigh. */
  method AddNewUserGuildActivityEntry(
    b: Backend, table: seq<ActivityEntry>, userId: string, guildId: string, inc: Increments, now: nat, freshId: Id)
    returns (r: Result<seq<ActivityEntry>>, written: ActivityEntry)
    ensures IsNewActivityEntry(written, freshId, userId, guildId, inc, now)
    ensures r == PutItem(b, table, written, EntryId)
    ensures b.putOk && freshId !in Keys(table, EntryId) ==> r == Success(table + [written])
  {
    FirstTally(now);
    var frequencyCounts := TallyFrequency(ZeroFrequency, FrequencyCountType(now, now));
    // A zero length means "no message" and leaves the length histogram as it is.
    var messageLengthCounts := LengthTallied(ZeroLength, inc.messageLength);
    var score := ActivityScore(Some(inc.message), Some(inc.reply), Some(inc.reaction), Some(inc.mentioned),
                               Some(frequencyCounts), Some(messageLengthCounts));
    written := ActivityEntry(freshId, userId, guildId, inc.message, inc.reply, inc.reaction, Some(inc.mentioned),
                             Some(frequencyCounts), Some(messageLengthCounts), None, score, now, None);
    r := PutItem(b, table, written, EntryId);
  }

  /** updateExistingUserGuildActivityEntry on the first record of a scan result. */
  method UpdateExistingUserGuildActivityEntry(
    b: Backend, table: seq<ActivityEntry>, existing: seq<ActivityEntry>, inc: Increments, now: nat)
    returns (r: Result<seq<ActivityEntry>>, written: ActivityEntry)
    requires |existing| > 0
    ensures IsUpdatedActivityEntry(existing[0], written, inc, now)
    ensures r == PutItem(b, table, written, EntryId)
  {
    var entry := existing[0];
    // Missing histograms and a falsy mentioned count start from zero.
    var frequencyCounts := entry.frequencyCounts.GetOr(ZeroFrequency);
    var messageLengthCounts := entry.messageLengthCounts.GetOr(ZeroLength);
    if inc.messageLength > 0 {
      messageLengthCounts := TallyLength(messageLengthCounts, MessageLengthType(inc.messageLength));
    }
    var mentionedCount := entry.mentionedCount.GetOr(0);
    frequencyCounts := TallyFrequency(frequencyCounts, FrequencyCountType(entry.updatedAt, now));
    entry := entry.(
      messageCount := entry.messageCount + inc.message,
      replyCount := entry.replyCount + inc.reply,
      reactionCount := entry.reactionCount + inc.reaction,
      mentionedCount := Some(mentionedCount + inc.mentioned),
      frequencyCounts := Some(frequencyCounts),
      messageLengthCounts := Some(messageLengthCounts),
      updatedAt := now);
    entry := entry.(activityScore := MessageScore(entry) + AudioVideoScore(entry.audioVideoActivities));
    written := entry;
    r := PutItem(b, table, written, EntryId);
  }

  /** updateUserGuildActivities: add a record when the scan finds none, else update the first
      one found. On a table with unique ids and a fresh id the put changes only the user's
      record in the guild. */
  method UpdateUserGuildActivities(
    b: Backend, table: seq<ActivityEntry>, userId: string, guildId: string, inc: Increments, now: nat, freshId: Id)
    returns (r: Result<seq<ActivityEntry>>, written: Option<ActivityEntry>)
    ensures !b.scanOk ==> r == Failure(BackendFailure) && written.None?
    ensures b.scanOk ==> written.Some? && r == PutItem(b, table, written.value, EntryId)
    ensures b.scanOk && |Matches(table, userId, guildId)| == 0 ==>
      IsNewActivityEntry(written.value, freshId, userId, guildId, inc, now)
    ensures b.scanOk && |Matches(table, userId, guildId)| > 0 ==>
      IsUpdatedActivityEntry(Matches(table, userId, guildId)[0], written.value, inc, now)
    ensures r.Success? ==> IsFor(written.value, userId, guildId)
    ensures r.Success? && UniqueKeys(table, EntryId) && freshId !in Keys(table, EntryId) ==>
      && UniqueKeys(r.value, EntryId)
      && Keys(r.value, EntryId) <= Keys(table, EntryId) + {freshId}
      && (forall e :: e in table && !IsFor(e, userId, guildId) ==> e in r.value)
  {
    var existing := GetExistingEntry(b, table, userId, guildId);
    if existing.Failure? {
      return Failure(BackendFailure), None;
    }
    var w;
    if |existing.value| == 0 {
      r, w := AddNewUserGuildActivityEntry(b, table, userId, guildId, inc, now, freshId);
    } else {
      r, w := UpdateExistingUserGuildActivityEntry(b, table, existing.value, inc, now);
      assert existing.value[0] in table;
    }
    written := Some(w);
    if r.Success? && UniqueKeys(table, EntryId) && freshId !in Keys(table, EntryId) {
      PutKeepsUniqueKeys(table, w, EntryId);
      KeysAfterPut(table, w, EntryId);
      if |existing.value| > 0 {
        PutPreservesOthers(table, existing.value[0], w, userId, guildId);
      }
    }
  }

  /** Replacing a record by one with the same id keeps every record of another (user, guild). */
  lemma PutPreservesOthers(table: seq<ActivityEntry>, old_: ActivityEntry, w: ActivityEntry, userId: string, guildId: string)
    requires UniqueKeys(table, EntryId) && old_ in table && w.id == old_.id
    requires IsFor(old_, userId, guildId)
    ensures forall e :: e in table && !IsFor(e, userId, guildId) ==> e in Put(table, w, EntryId)
  {
    var j :| 0 <= j < |table| && table[j] == old_;
    PutAt(table, j, w, EntryId);
    forall e | e in table && !IsFor(e, userId, guildId) ensures e in Put(table, w, EntryId) {
      var m :| 0 <= m < |table| && table[m] == e;
      assert m != j;
      assert table[j := w][m] == e;
    }
  }

  /** The weights of message, reply and reaction are whole numbers, so an update raises the
      stored score of a record whose score was current by at least 3, 2 and 1 per increment. */
  lemma UpdateRaisesScore(entry: ActivityEntry, e: ActivityEntry, inc: Increments, now: nat)
    requires IsUpdatedActivityEntry(entry, e, inc, now) && ScoreIsCurrent(entry)
    ensures e.activityScore >= entry.activityScore + 3 * inc.message + 2 * inc.reply + inc.reaction
  {
    assert FrequencyLe(entry.frequencyCounts.GetOr(ZeroFrequency), e.frequencyCounts.value);
    assert LengthLe(entry.messageLengthCounts.GetOr(ZeroLength), e.messageLengthCounts.value);
    MessageScoreGrowth(entry, e, inc);
  }

  /** The message score after adding counter increments and histogram tallies. */
  lemma MessageScoreGrowth(entry: ActivityEntry, e: ActivityEntry, inc: Increments)
    requires e.messageCount == entry.messageCount + inc.message
    requires e.replyCount == entry.replyCount + inc.reply
    requires e.reactionCount == entry.reactionCount + inc.reaction
    requires e.mentionedCount == Some(entry.mentionedCount.GetOr(0) + inc.mentioned)
    requires e.frequencyCounts.Some? && FrequencyLe(entry.frequencyCounts.GetOr(ZeroFrequency), e.frequencyCounts.value)
    requires e.messageLengthCounts.Some? && LengthLe(entry.messageLengthCounts.GetOr(ZeroLength), e.messageLengthCounts.value)
    ensures MessageScore(e) >= MessageScore(entry) + 3 * inc.message + 2 * inc.reply + inc.reaction
  {
    ActivityScoreGrowth(entry.messageCount, entry.replyCount, entry.reactionCount, entry.mentionedCount.GetOr(0),
                        entry.frequencyCounts.GetOr(ZeroFrequency), entry.messageLengthCounts.GetOr(ZeroLength),
                        inc.message, inc.reply, inc.reaction, inc.mentioned,
                        e.frequencyCounts.value, e.messageLengthCounts.value);
  }

  /** updateUserGuildMentions: one mentioned-count increment per listed user, in list order,
      each new record taking the next fresh id. The calls are issued independently, so each
      has its own backend outcome `bs[i]`; a failing call drops only its own increment. With
      unique ids and fresh ids not yet in the table, ids stay unique and records of other
      guilds survive. When every call succeeds, each listed user's record has its mentioned
      count raised by the number of times the user is listed (from 0 for a user without a
      record or without a count), and every other user's records in the guild are as they
      were. */
  method UpdateUserGuildMentions(
    bs: seq<Backend>, table: seq<ActivityEntry>, userIds: seq<string>, guildId: string, now: nat, freshIds: seq<Id>)
    returns (t: seq<ActivityEntry>)
    requires |bs| == |userIds| && |freshIds| == |userIds|
    ensures UniqueKeys(table, EntryId) && FreshIds(table, freshIds) ==>
      && UniqueKeys(t, EntryId)
      && (forall e :: e in table && e.guildId != guildId ==> e in t)
    ensures UniqueKeys(table, EntryId) && FreshIds(table, freshIds) && AllSucceed(bs) ==>
      && (forall u :: u in userIds ==>
            && |Matches(t, u, guildId)| > 0
            && Matches(t, u, guildId)[0].mentionedCount
               == Some(MentionedCount(table, u, guildId) + multiset(userIds)[u]))
      && (forall u :: u !in userIds ==> Matches(t, u, guildId) == Matches(table, u, guildId))
  {
    t := table;
    var mention := Increments(0, 0, 0, 1, 0);
    ghost var clean := UniqueKeys(table, EntryId) && FreshIds(table, freshIds);
    ghost var healthy := AllSucceed(bs);
    for i := 0 to |userIds|
      invariant clean ==> MentionsApplied(table, t, userIds, guildId, freshIds, i, healthy)
    {
      ghost var before := t;
      var r, w := UpdateUserGuildActivities(bs[i], t, userIds[i], guildId, mention, now, freshIds[i]);
      if r.Success? {
        t := r.value;
      }
      if clean {
        MentionStep(table, before, t, userIds, guildId, freshIds, i, healthy, w, now);
      }
    }
    assert userIds[..|userIds|] == userIds;
    if clean && healthy {
      forall u ensures u in userIds ==>
        && |Matches(t, u, guildId)| > 0
        && Matches(t, u, guildId)[0].mentionedCount == Some(MentionedCount(table, u, guildId) + multiset(userIds)[u])
      {
        assert MentionedUpTo(table, t, userIds, u, guildId);
      }
      forall u ensures u !in userIds ==> Matches(t, u, guildId) == Matches(table, u, guildId) {
        assert MentionedUpTo(table, t, userIds, u, guildId);
      }
    }
  }

  /** Every call's scan and put succeed. */
  predicate AllSucceed(bs: seq<Backend>) {
    forall k :: 0 <= k < |bs| ==> bs[k].scanOk && bs[k].putOk
  }

  /** The mentioned count the update starts from: that of the user's first record in the
      guild, 0 when it has none (`if (!entry.mentionedCount) entry.mentionedCount = 0`) or when
      the user has no record. */
  function MentionedCount(table: seq<ActivityEntry>, userId: string, guildId: string): nat {
    var m := Matches(table, userId, guildId);
    if |m| > 0 then m[0].mentionedCount.GetOr(0) else 0
  }

  /** The loop invariant of updateUserGuildMentions after the first `i` users. */
  ghost predicate MentionsApplied(
    table: seq<ActivityEntry>, t: seq<ActivityEntry>, userIds: seq<string>, guildId: string,
    freshIds: seq<Id>, i: nat, healthy: bool)
    requires i <= |userIds| == |freshIds|
  {
    && UniqueKeys(table, EntryId) && FreshIds(table, freshIds)
    && UniqueKeys(t, EntryId)
    && (forall k :: k in Keys(t, EntryId) ==> k in Keys(table, EntryId) || k in freshIds[..i])
    && (forall e :: e in table && e.guildId != guildId ==> e in t)
    && (healthy ==> forall u :: MentionedUpTo(table, t, userIds[..i], u, guildId))
  }

  /** After the mentions `done`, user `u` has one increment per mention, or is untouched. */
  ghost predicate MentionedUpTo(table: seq<ActivityEntry>, t: seq<ActivityEntry>, done: seq<string>, u: string, guildId: string) {
    && (u in done ==>
          && |Matches(t, u, guildId)| > 0
          && Matches(t, u, guildId)[0].mentionedCount == Some(MentionedCount(table, u, guildId) + multiset(done)[u]))
    && (u !in done ==> Matches(t, u, guildId) == Matches(table, u, guildId))
  }

  /** One user of updateUserGuildMentions, from the contract of updateUserGuildActivities. */
  lemma MentionStep(
    table: seq<ActivityEntry>, t: seq<ActivityEntry>, t': seq<ActivityEntry>, userIds: seq<string>, guildId: string,
    freshIds: seq<Id>, i: nat, healthy: bool, w: Option<ActivityEntry>, now: nat)
    requires i < |userIds| == |freshIds|
    requires MentionsApplied(table, t, userIds, guildId, freshIds, i, healthy)
    requires UniqueKeys(t', EntryId) && Keys(t', EntryId) <= Keys(t, EntryId) + {freshIds[i]}
    requires forall e :: e in t && !IsFor(e, userIds[i], guildId) ==> e in t'
    requires healthy ==> w.Some? && t' == Put(t, w.value, EntryId)
    requires healthy && |Matches(t, userIds[i], guildId)| == 0 ==>
      IsNewActivityEntry(w.value, freshIds[i], userIds[i], guildId, Increments(0, 0, 0, 1, 0), now)
    requires healthy && |Matches(t, userIds[i], guildId)| > 0 ==>
      IsUpdatedActivityEntry(Matches(t, userIds[i], guildId)[0], w.value, Increments(0, 0, 0, 1, 0), now)
    ensures MentionsApplied(table, t', userIds, guildId, freshIds, i + 1, healthy)
  {
    MentionFrameStep(table, t, t', userIds, guildId, freshIds, i, healthy);
    if healthy {
      assert userIds[..i + 1] == userIds[..i] + [userIds[i]];
      FreshIdUnused(table, t, userIds, guildId, freshIds, i, healthy);
      MentionRecord(t, userIds[i], guildId, freshIds[i], w.value, now);
      MentionCountStep(table, t, userIds[..i], userIds[i], guildId, w.value);
    }
  }

  /** The ids and the other guilds' records after one more mention. */
  lemma MentionFrameStep(
    table: seq<ActivityEntry>, t: seq<ActivityEntry>, t': seq<ActivityEntry>, userIds: seq<string>, guildId: string,
    freshIds: seq<Id>, i: nat, healthy: bool)
    requires i < |userIds| == |freshIds|
    requires MentionsApplied(table, t, userIds, guildId, freshIds, i, healthy)
    requires UniqueKeys(t', EntryId) && Keys(t', EntryId) <= Keys(t, EntryId) + {freshIds[i]}
    requires forall e :: e in t && !IsFor(e, userIds[i], guildId) ==> e in t'
    ensures forall k :: k in Keys(t', EntryId) ==> k in Keys(table, EntryId) || k in freshIds[..i + 1]
    ensures forall e :: e in table && e.guildId != guildId ==> e in t'
  {
    assert freshIds[..i + 1] == freshIds[..i] + [freshIds[i]];
    forall k | k in Keys(t', EntryId) ensures k in Keys(table, EntryId) || k in freshIds[..i + 1] {
      if k != freshIds[i] {
        assert k in Keys(t, EntryId);
      }
    }
    forall e | e in table && e.guildId != guildId ensures e in t' {
      assert e in t;
    }
  }

  /** The id reserved for the next mention is not in use yet. */
  lemma FreshIdUnused(
    table: seq<ActivityEntry>, t: seq<ActivityEntry>, userIds: seq<string>, guildId: string,
    freshIds: seq<Id>, i: nat, healthy: bool)
    requires i < |userIds| == |freshIds|
    requires MentionsApplied(table, t, userIds, guildId, freshIds, i, healthy)
    ensures freshIds[i] !in Keys(t, EntryId)
  {
    assert freshIds[i] !in Keys(table, EntryId);
    forall j | 0 <= j < i ensures freshIds[..i][j] != freshIds[i] {}
  }

  /** The record one mention of `v` writes: a new record under a fresh id, or the update of the first match. */
  lemma MentionRecord(t: seq<ActivityEntry>, v: string, guildId: string, id: Id, w: ActivityEntry, now: nat)
    requires |Matches(t, v, guildId)| == 0 ==>
      IsNewActivityEntry(w, id, v, guildId, Increments(0, 0, 0, 1, 0), now) && id !in Keys(t, EntryId)
    requires |Matches(t, v, guildId)| > 0 ==>
      IsUpdatedActivityEntry(Matches(t, v, guildId)[0], w, Increments(0, 0, 0, 1, 0), now)
    ensures IsFor(w, v, guildId)
    ensures |Matches(t, v, guildId)| == 0 ==> w.id !in Keys(t, EntryId)
    ensures |Matches(t, v, guildId)| > 0 ==> w.id == Matches(t, v, guildId)[0].id
    ensures w.mentionedCount == Some(MentionedCount(t, v, guildId) + 1)
  {
    if |Matches(t, v, guildId)| > 0 {
      assert Matches(t, v, guildId)[0] in Matches(t, v, guildId);
    }
  }

  /** The mentioned counts after one more mention of `v`, written as record `w`. */
  lemma MentionCountStep(
    table: seq<ActivityEntry>, t: seq<ActivityEntry>, done: seq<string>, v: string, guildId: string, w: ActivityEntry)
    requires forall u :: MentionedUpTo(table, t, done, u, guildId)
    requires UniqueKeys(t, EntryId) && IsFor(w, v, guildId)
    requires |Matches(t, v, guildId)| == 0 ==> w.id !in Keys(t, EntryId)
    requires |Matches(t, v, guildId)| > 0 ==> w.id == Matches(t, v, guildId)[0].id
    requires w.mentionedCount == Some(MentionedCount(t, v, guildId) + 1)
    ensures forall u :: MentionedUpTo(table, Put(t, w, EntryId), done + [v], u, guildId)
  {
    MatchesAfterPut(t, w, v, guildId);
    forall u ensures MentionedUpTo(table, Put(t, w, EntryId), done + [v], u, guildId) {
      if u == v {
        MentionedSelf(table, t, Put(t, w, EntryId), done, v, guildId, w);
      } else {
        MentionedOther(table, t, Put(t, w, EntryId), done, v, u, guildId);
      }
    }
  }

  /** The mentioned user's own record after one more mention. */
  lemma MentionedSelf(
    table: seq<ActivityEntry>, t: seq<ActivityEntry>, t': seq<ActivityEntry>, done: seq<string>, v: string,
    guildId: string, w: ActivityEntry)
    requires MentionedUpTo(table, t, done, v, guildId)
    requires |Matches(t', v, guildId)| > 0 && Matches(t', v, guildId)[0] == w
    requires w.mentionedCount == Some(MentionedCount(t, v, guildId) + 1)
    ensures MentionedUpTo(table, t', done + [v], v, guildId)
  {
    assert multiset(done + [v]) == multiset(done) + multiset{v};
    if v !in done {
      assert multiset(done)[v] == 0;
    }
  }

  /** Every other user's records are untouched by a mention of `v`. */
  lemma MentionedOther(
    table: seq<ActivityEntry>, t: seq<ActivityEntry>, t': seq<ActivityEntry>, done: seq<string>, v: string,
    u: string, guildId: string)
    requires MentionedUpTo(table, t, done, u, guildId) && u != v
    requires Matches(t', u, guildId) == Matches(t, u, guildId)
    ensures MentionedUpTo(table, t', done + [v], u, guildId)
  {
    assert multiset(done + [v]) == multiset(done) + multiset{v};
  }

  /** A put of the record the update writes for user `v`, with the id of that user's first
      record or a fresh id when there is none, makes it that user's first record and leaves
      every other user's records in the guild as they were. */
  lemma MatchesAfterPut(t: seq<ActivityEntry>, w: ActivityEntry, v: string, guildId: string)
    requires UniqueKeys(t, EntryId) && IsFor(w, v, guildId)
    requires |Matches(t, v, guildId)| == 0 ==> w.id !in Keys(t, EntryId)
    requires |Matches(t, v, guildId)| > 0 ==> w.id == Matches(t, v, guildId)[0].id
    ensures |Matches(Put(t, w, EntryId), v, guildId)| > 0 && Matches(Put(t, w, EntryId), v, guildId)[0] == w
    ensures forall u :: u != v ==> Matches(Put(t, w, EntryId), u, guildId) == Matches(t, u, guildId)
  {
    var mine := (e: ActivityEntry) => IsFor(e, v, guildId);
    if |Matches(t, v, guildId)| == 0 {
      assert EntryId(w) !in Keys(t, EntryId);
      assert Put(t, w, EntryId) == t + [w];
      FilterAppend(t, [w], mine);
      assert Filter([w], mine) == [w] by { assert [w][1..] == []; }
      forall u | u != v ensures Matches(Put(t, w, EntryId), u, guildId) == Matches(t, u, guildId) {
        var theirs := (e: ActivityEntry) => IsFor(e, u, guildId);
        FilterAppend(t, [w], theirs);
        assert Filter([w], theirs) == [] by { assert [w][1..] == []; }
      }
    } else {
      var first := Matches(t, v, guildId)[0];
      assert first in Matches(t, v, guildId);
      var idx :| 0 <= idx < |t| && t[idx] == first;
      PutAt(t, idx, w, EntryId);
      FilterFirstReplaced(t, idx, w, mine, EntryId);
      forall u | u != v ensures Matches(Put(t, w, EntryId), u, guildId) == Matches(t, u, guildId) {
        FilterReplaceDropped(t, idx, w, (e: ActivityEntry) => IsFor(e, u, guildId));
      }
    }
  }

  /** The fresh ids are pairwise distinct and none is taken in the table. */
  ghost predicate FreshIds(table: seq<ActivityEntry>, freshIds: seq<Id>) {
    && (forall i, j :: 0 <= i < j < |freshIds| ==> freshIds[i] != freshIds[j])
    && (forall i :: 0 <= i < |freshIds| ==> freshIds[i] !in Keys(table, EntryId))
  }

  // ---------------------------------------------------------------------------------------
  // Audio/video sessions
  // ---------------------------------------------------------------------------------------

  function SessionStart(av: AudioVideoActivities, kind: SessionKind): nat {
    match kind
    case VoiceChannel => av.joinedVoiceChannelAt
    case Microphone => av.enabledMicrophoneAt
    case Video => av.enabledVideoAt
    case Screencast => av.enabledScreencastAt
  }

  function SessionTotal(av: AudioVideoActivities, kind: SessionKind): int {
    match kind
    case VoiceChannel => av.totalTimeInVoiceChannel
    case Microphone => av.totalTimeWithMicrophone
    case Video => av.totalTimeWithVideo
    case Screencast => av.totalTimeWithScreencast
  }

  /** What addNewAudioVideoSession writes: zero counters, zero histograms, score 0, the
      package version, and one started session. */
  ghost predicate IsNewSessionEntry(e: ActivityEntry, id: Id, userId: string, guildId: string, kind: SessionKind, now: nat, version: string) {
    && e.id == id && IsFor(e, userId, guildId)
    && e.messageCount == 0 && e.replyCount == 0 && e.reactionCount == 0 && e.mentionedCount == Some(0)
    && e.frequencyCounts == Some(ZeroFrequency) && e.messageLengthCounts == Some(ZeroLength)
    && e.audioVideoActivities.Some?
    && SessionStart(e.audioVideoActivities.value, kind) == now
    && (forall k :: k != kind ==> SessionStart(e.audioVideoActivities.value, k) == 0)
    && (forall k :: SessionTotal(e.audioVideoActivities.value, k) == 0)
    && e.activityScore == 0 && e.updatedAt == now && e.version == Some(version)
  }

  /** What updateExistingAudioVideoSession writes in place of `entry`: the session's start
      is `now` (in an all-zero aggregate if the record had none), `updatedAt` is `now`, and
      nothing else changes; in particular the score is not recomputed. */
  ghost predicate IsSessionStarted(entry: ActivityEntry, e: ActivityEntry, kind: SessionKind, now: nat) {
    && e.audioVideoActivities.Some?
    && var av := entry.audioVideoActivities.GetOr(ZeroActivities);
       var av' := e.audioVideoActivities.value;
       (&& SessionStart(av', kind) == now
        && (forall k :: k != kind ==> SessionStart(av', k) == SessionStart(av, k))
        && (forall k :: SessionTotal(av', k) == SessionTotal(av, k))
        && e == entry.(audioVideoActivities := e.audioVideoActivities, updatedAt := now))
  }

  method AddNewAudioVideoSession(
    b: Backend, table: seq<ActivityEntry>, userId: string, guildId: string, kind: SessionKind, now: nat,
    freshId: Id, version: string)
    returns (r: Result<seq<ActivityEntry>>, written: ActivityEntry)
    ensures IsNewSessionEntry(written, freshId, userId, guildId, kind, now, version)
    ensures r == PutItem(b, table, written, EntryId)
  {
    var av := ZeroActivities;
    if kind == VoiceChannel {
      av := av.(joinedVoiceChannelAt := now);
    } else if kind == Microphone {
      av := av.(enabledMicrophoneAt := now);
    } else if kind == Video {
      av := av.(enabledVideoAt := now);
    } else {
      av := av.(enabledScreencastAt := now);
    }
    written := ActivityEntry(freshId, userId, guildId, 0, 0, 0, Some(0), Some(ZeroFrequency), Some(ZeroLength),
                             Some(av), 0, now, Some(version));
    r := PutItem(b, table, written, EntryId);
  }

  method UpdateExistingAudioVideoSession(
    b: Backend, table: seq<ActivityEntry>, existing: seq<ActivityEntry>, kind: SessionKind, now: nat)
    returns (r: Result<seq<ActivityEntry>>, written: ActivityEntry)
    requires |existing| > 0
    ensures IsSessionStarted(existing[0], written, kind, now)
    ensures r == PutItem(b, table, written, EntryId)
  {
    var entry := existing[0];
    if entry.audioVideoActivities.None? {
      entry := entry.(audioVideoActivities := Some(ZeroActivities));
    }
    var av := entry.audioVideoActivities.value;
    if kind == VoiceChannel {
      av := av.(joinedVoiceChannelAt := now);
    } else if kind == Microphone {
      av := av.(enabledMicrophoneAt := now);
    } else if kind == Video {
      av := av.(enabledVideoAt := now);
    } else {
      av := av.(enabledScreencastAt := now);
    }
    entry := entry.(audioVideoActivities := Some(av));
    entry := entry.(updatedAt := now);
    written := entry;
    r := PutItem(b, table, written, EntryId);
  }

  /** startAudioVideoSession: add a session record when the scan finds none, else start the
      session on the first record found. */
  method StartAudioVideoSession(
    b: Backend, table: seq<ActivityEntry>, userId: string, guildId: string, kind: SessionKind, now: nat,
    freshId: Id, version: string)
    returns (r: Result<seq<ActivityEntry>>, written: Option<ActivityEntry>)
    ensures !b.scanOk ==> r == Failure(BackendFailure) && written.None?
    ensures b.scanOk ==> written.Some? && r == PutItem(b, table, written.value, EntryId)
    ensures b.scanOk && |Matches(table, userId, guildId)| == 0 ==>
      IsNewSessionEntry(written.value, freshId, userId, guildId, kind, now, version)
    ensures b.scanOk && |Matches(table, userId, guildId)| > 0 ==>
      IsSessionStarted(Matches(table, userId, guildId)[0], written.value, kind, now)
  {
    var existing := GetExistingEntry(b, table, userId, guildId);
    if existing.Failure? {
      return Failure(BackendFailure), None;
    }
    var w;
    if |existing.value| == 0 {
      r, w := AddNewAudioVideoSession(b, table, userId, guildId, kind, now, freshId, version);
    } else {
      r, w := UpdateExistingAudioVideoSession(b, table, existing.value, kind, now);
    }
    written := Some(w);
  }

  /** A new session record's score of 0 is current. */
  lemma NewSessionScoreIsCurrent(e: ActivityEntry, id: Id, userId: string, guildId: string, kind: SessionKind, now: nat, version: string)
    requires IsNewSessionEntry(e, id, userId, guildId, kind, now, version)
    ensures ScoreIsCurrent(e)
  {
    var av := e.audioVideoActivities.value;
    assert SessionTotal(av, VoiceChannel) == 0 && SessionTotal(av, Microphone) == 0;
    assert SessionTotal(av, Video) == 0 && SessionTotal(av, Screencast) == 0;
    ZeroTotalsScore(av);
  }

  /** Starting a session moves only start timestamps, on which the score does not depend, so a
      current score stays current although it is not recomputed. */
  lemma SessionStartKeepsScoreCurrent(entry: ActivityEntry, e: ActivityEntry, kind: SessionKind, now: nat)
    requires IsSessionStarted(entry, e, kind, now) && ScoreIsCurrent(entry)
    ensures ScoreIsCurrent(e)
  {
    var av := entry.audioVideoActivities.GetOr(ZeroActivities);
    var av' := e.audioVideoActivities.value;
    assert SessionTotal(av', VoiceChannel) == SessionTotal(av, VoiceChannel);
    assert SessionTotal(av', Microphone) == SessionTotal(av, Microphone);
    assert SessionTotal(av', Video) == SessionTotal(av, Video);
    assert SessionTotal(av', Screencast) == SessionTotal(av, Screencast);
    AudioVideoScoreIgnoresStarts(av, av');
    if entry.audioVideoActivities.None? {
      ZeroTotalsScore(av);
    }
    assert MessageScore(e) == MessageScore(entry);
  }

  /** What endAudioVideoSession writes, as the code stands: the elapsed minutes since the
      session's start are added to the voice-channel, microphone and video totals but
      ASSIGNED to the screencast total; the start timestamps stay; the message score is
      recomputed with the reply count in the reaction slot. */
  ghost predicate IsSessionEndedAsWritten(entry: ActivityEntry, e: ActivityEntry, kind: SessionKind, now: nat) {
    && entry.audioVideoActivities.Some? && e.audioVideoActivities.Some?
    && var av := entry.audioVideoActivities.value;
       var av' := e.audioVideoActivities.value;
       var minutes := ElapsedMinutes(now, SessionStart(av, kind));
       (&& SessionTotal(av', kind) == (if kind == Screencast then minutes else SessionTotal(av, kind) + minutes)
       && (forall k :: k != kind ==> SessionTotal(av', k) == SessionTotal(av, k))
       && (forall k :: SessionStart(av', k) == SessionStart(av, k))
       && e.activityScore ==
            ActivityScore(Some(entry.messageCount), Some(entry.replyCount), Some(entry.replyCount),
                          entry.mentionedCount, entry.frequencyCounts, entry.messageLengthCounts)
            + AudioVideoScore(e.audioVideoActivities)
       && e == entry.(audioVideoActivities := e.audioVideoActivities, updatedAt := now, activityScore := e.activityScore))
  }

  /** endAudioVideoSession as written. The scan result is always truthy, so the code reads
      `Items[0].audioVideoActivities` even when the scan found nothing or the record has no
      aggregate; both raise a TypeError. */
  method EndAudioVideoSession(b: Backend, table: seq<ActivityEntry>, userId: string, guildId: string, kind: SessionKind, now: nat)
    returns (r: Result<seq<ActivityEntry>>, written: Option<ActivityEntry>)
    ensures !b.scanOk ==> r == Failure(BackendFailure) && written.None?
    ensures b.scanOk && |Matches(table, userId, guildId)| == 0 ==> r == Failure(TypeError) && written.None?
    ensures b.scanOk && |Matches(table, userId, guildId)| > 0 && Matches(table, userId, guildId)[0].audioVideoActivities.None? ==>
      r == Failure(TypeError) && written.None?
    ensures b.scanOk && |Matches(table, userId, guildId)| > 0 && Matches(table, userId, guildId)[0].audioVideoActivities.Some? ==>
      && written.Some?
      && IsSessionEndedAsWritten(Matches(table, userId, guildId)[0], written.value, kind, now)
      && r == PutItem(b, table, written.value, EntryId)
  {
    var existing := GetExistingEntry(b, table, userId, guildId);
    if existing.Failure? {
      return Failure(BackendFailure), None;
    }
    if |existing.value| == 0 {
      return Failure(TypeError), None;
    }
    var entry := existing.value[0];
    if entry.audioVideoActivities.None? {
      return Failure(TypeError), None;
    }
    var av := entry.audioVideoActivities.value;
    if kind == VoiceChannel {
      av := av.(totalTimeInVoiceChannel := av.totalTimeInVoiceChannel + ElapsedMinutes(now, av.joinedVoiceChannelAt));
    } else if kind == Microphone {
      av := av.(totalTimeWithMicrophone := av.totalTimeWithMicrophone + ElapsedMinutes(now, av.enabledMicrophoneAt));
    } else if kind == Video {
      av := av.(totalTimeWithVideo := av.totalTimeWithVideo + ElapsedMinutes(now, av.enabledVideoAt));
    } else {
      av := av.(totalTimeWithScreencast := ElapsedMinutes(now, av.enabledScreencastAt));
    }
    entry := entry.(audioVideoActivities := Some(av));
    entry := entry.(updatedAt := now);
    entry := entry.(activityScore :=
      ActivityScore(Some(entry.messageCount), Some(entry.replyCount), Some(entry.replyCount),
                    entry.mentionedCount, entry.frequencyCounts, entry.messageLengthCounts)
      + AudioVideoScore(entry.audioVideoActivities));
    written := Some(entry);
    r := PutItem(b, table, entry, EntryId);
  }

  // ---------------------------------------------------------------------------------------
  // Leaderboard
  // ---------------------------------------------------------------------------------------

  function Score(e: ActivityEntry): int { e.activityScore }

  function GuildEntries(table: seq<ActivityEntry>, guildId: string): (r: seq<ActivityEntry>)
    ensures forall e :: e in r <==> e in table && e.guildId == guildId
  {
    Filter(table, (e: ActivityEntry) => e.guildId == guildId)
  }

  /** getNMostActiveUsers: the guild's records sorted by score, highest first, cut to `n`
      (a negative `n` drops records from the end, as `slice(0, n)` does). */
  function GetNMostActiveUsers(b: Backend, table: seq<ActivityEntry>, n: int, guildId: string)
    : (r: Result<seq<ActivityEntry>>)
    ensures r.Success? <==> b.scanOk
    ensures r.Success? ==> Leaderboard.NonIncreasing(r.value, Score)
    ensures r.Success? ==> multiset(r.value) <= multiset(GuildEntries(table, guildId))
    ensures r.Success? ==> forall e :: e in r.value ==> e in table && e.guildId == guildId
    ensures r.Success? && 0 <= n ==>
      |r.value| == if n < |GuildEntries(table, guildId)| then n else |GuildEntries(table, guildId)|
    ensures r.Success? ==> forall x, y ::
      x in r.value && y in table && y.guildId == guildId && y !in r.value ==> y.activityScore <= x.activityScore
  {
    if !b.scanOk then Failure(BackendFailure)
    else
      var items := GuildEntries(table, guildId);
      var top := Leaderboard.TopN(items, n, Score);
      assert forall x, y :: x in top && y in table && y.guildId == guildId && y !in top ==>
        y.activityScore <= x.activityScore by {
        forall x, y | x in top && y in table && y.guildId == guildId && y !in top
          ensures y.activityScore <= x.activityScore {
          assert y in items;
          assert Score(y) <= Score(x);
        }
      }
      Success(top)
  }

  // ---------------------------------------------------------------------------------------
  // User exclusions
  // ---------------------------------------------------------------------------------------

  predicate IsExclusionFor(e: ExcludedUserGuildEntry, userId: string, guildId: string) {
    e.userId == userId && e.guildId == guildId
  }

  function ExclusionMatches(exclusions: seq<ExcludedUserGuildEntry>, userId: string, guildId: string)
    : (r: seq<ExcludedUserGuildEntry>)
    ensures forall e :: e in r <==> e in exclusions && IsExclusionFor(e, userId, guildId)
  {
    Filter(exclusions, e => IsExclusionFor(e, userId, guildId))
  }

  /** getAllExcludedUserGuild: the scan has no filter, so the guild id does not restrict the
      result. */
  function GetAllExcludedUserGuild(b: Backend, exclusions: seq<ExcludedUserGuildEntry>, guildId: string)
    : (r: Result<seq<ExcludedUserGuildEntry>>)
    ensures r.Success? <==> b.scanOk
    ensures r.Success? ==> forall e :: e in r.value <==> e in exclusions
  {
    if b.scanOk then Success(exclusions) else Failure(BackendFailure)
  }

  /** getExcludedUserGuild: the exclusion when the scan finds exactly one, else the empty
      object `{}` (here `None`), which is returned, not thrown. */
  function GetExcludedUserGuild(b: Backend, exclusions: seq<ExcludedUserGuildEntry>, userId: string, guildId: string)
    : (r: Result<Option<ExcludedUserGuildEntry>>)
    ensures r.Success? <==> b.scanOk
    ensures r.Success? ==> (r.value.Some? <==> |ExclusionMatches(exclusions, userId, guildId)| == 1)
    ensures r.Success? && r.value.Some? ==>
      r.value.value in exclusions && IsExclusionFor(r.value.value, userId, guildId)
  {
    if !b.scanOk then Failure(BackendFailure)
    else
      var items := ExclusionMatches(exclusions, userId, guildId);
      if |items| == 1 then
        assert items[0] in items;
        Success(Some(items[0]))
      else Success(None)
  }

  /** excludeUserGuild: a lookup that does not throw counts as "already excluded"; only a
      failed lookup leads to the put of a new exclusion. */
  function ExcludeUserGuild(
    b: Backend, exclusions: seq<ExcludedUserGuildEntry>, userId: string, guildId: string, freshId: Id, date: string)
    : (r: Result<seq<ExcludedUserGuildEntry>>)
    ensures b.scanOk ==> r == Success(exclusions)
    ensures !b.scanOk ==> (r.Success? <==> b.putOk)
    ensures r.Success? && !b.scanOk ==>
      ExcludedUserGuildEntry(freshId, userId, guildId, date) in r.value
    ensures !b.scanOk ==> r == PutItem(b, exclusions, ExcludedUserGuildEntry(freshId, userId, guildId, date), ExclusionId)
  {
    match GetExcludedUserGuild(b, exclusions, userId, guildId)
    case Success(_) => Success(exclusions)
    case Failure(_) => PutItem(b, exclusions, ExcludedUserGuildEntry(freshId, userId, guildId, date), ExclusionId)
  }

  /** includeUserGuild: delete by the id of the looked-up exclusion. With `{}` the key is
      undefined and the delete is rejected. A successful include removes the one exclusion
      of the user in the guild, and no other record. */
  function IncludeUserGuild(b: Backend, exclusions: seq<ExcludedUserGuildEntry>, userId: string, guildId: string)
    : (r: Result<seq<ExcludedUserGuildEntry>>)
    ensures r.Success? <==> b.scanOk && b.deleteOk && |ExclusionMatches(exclusions, userId, guildId)| == 1
    ensures r.Success? ==> ExclusionMatches(r.value, userId, guildId) == []
    ensures r.Success? ==> forall y :: y in r.value <==>
      y in exclusions && y.id != ExclusionMatches(exclusions, userId, guildId)[0].id
    ensures r.Success? ==> r.value == Delete(exclusions, ExclusionMatches(exclusions, userId, guildId)[0].id, ExclusionId)
  {
    match GetExcludedUserGuild(b, exclusions, userId, guildId)
    case Failure(e) => Failure(e)
    case Success(found) =>
      var key := if found.Some? then Some(found.value.id) else None;
      var r := DeleteItem(b, exclusions, key, ExclusionId);
      if r.Success? then
        DeleteOnlyMatch(exclusions, userId, guildId);
        r
      else r
  }

  /** Deleting the id of the only matching exclusion leaves none that matches. */
  lemma DeleteOnlyMatch(exclusions: seq<ExcludedUserGuildEntry>, userId: string, guildId: string)
    requires |ExclusionMatches(exclusions, userId, guildId)| == 1
    ensures var m := ExclusionMatches(exclusions, userId, guildId);
      ExclusionMatches(Delete(exclusions, m[0].id, ExclusionId), userId, guildId) == []
  {
    var m := ExclusionMatches(exclusions, userId, guildId);
    var only := m[0];
    assert m == [only];
    var r := Delete(exclusions, only.id, ExclusionId);
    forall y | y in r ensures !IsExclusionFor(y, userId, guildId) {
      assert ExclusionId(y) != only.id;
      assert y != only;
      assert IsExclusionFor(y, userId, guildId) ==> y in m;
    }
    FilterNone(r, e => IsExclusionFor(e, userId, guildId));
  }
}
