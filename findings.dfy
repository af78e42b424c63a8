/** Places where the code does not do what it evidently means. Each is shown on
    the model as written, beside a corrected definition with the intended property proved. */
module Findings {
  import opened Wrappers
  import opened Store
  import opened Schema
  import opened Scoring
  import Connector
  import Legacy
  import Bot

  // ---------------------------------------------------------------------------------------
  // 1. Frequency thresholds counted in seconds, gap counted in milliseconds
  // ---------------------------------------------------------------------------------------

  /** As written, any gap of 172.8 seconds or more already counts as "low": the day-scale
      bands collapse into the first three minutes. */
  lemma SecondThresholdsOnMilliseconds(lastUpdate: nat, now: nat)
    requires lastUpdate != 0 && now - lastUpdate >= 172800
    ensures FrequencyCountType(lastUpdate, now) == Low
  {
  }

  /** The frequency bucket with the 12, 24 and 48 hour bands counted in milliseconds, the
      unit of the timestamps it compares. */
  function FrequencyCountTypeMs(lastUpdate: nat, now: nat): (b: FrequencyBucket)
    ensures lastUpdate == 0 ==> b == VeryHigh
    ensures lastUpdate != 0 ==>
      && (b == VeryHigh <==> now - lastUpdate < 43200000)
      && (b == High <==> 43200000 <= now - lastUpdate < 86400000)
      && (b == FrequencyBucket.Middle <==> 86400000 <= now - lastUpdate < 172800000)
      && (b == Low <==> 172800000 <= now - lastUpdate)
  {
    if lastUpdate == 0 then VeryHigh
    else
      var timeSpan := now - lastUpdate;
      if timeSpan < 12 * ONE_HOUR_IN_S * ONE_S_IN_MS then VeryHigh
      else if timeSpan < 24 * ONE_HOUR_IN_S * ONE_S_IN_MS then High
      else if timeSpan < 48 * ONE_HOUR_IN_S * ONE_S_IN_MS then FrequencyBucket.Middle
      else Low
  }

  /** One hour after the last update: "low" as written, "veryHigh" as intended. */
  lemma OneHourGap()
    ensures FrequencyCountType(1, 1 + ONE_HOUR_IN_S * ONE_S_IN_MS) == Low
    ensures FrequencyCountTypeMs(1, 1 + ONE_HOUR_IN_S * ONE_S_IN_MS) == VeryHigh
  {
  }

  /** The corrected bucket of a millisecond gap is the written bucket of the same gap in
      whole seconds: the two differ only in the unit. */
  lemma {:induction false} MillisecondBandsAreSecondBands(lastUpdate: nat, now: nat)
    requires lastUpdate != 0 && lastUpdate <= now
    ensures FrequencyCountTypeMs(lastUpdate, now) == FrequencyCountType(1, 1 + (now - lastUpdate) / ONE_S_IN_MS)
  {
    var g := now - lastUpdate;
    var s := g / 1000;
    assert 1000 * s <= g < 1000 * s + 1000;
    assert s < 43200 <==> g < 43200000;
    assert s < 86400 <==> g < 86400000;
    assert s < 172800 <==> g < 172800000;
  }

  function Rank(b: FrequencyBucket): nat {
    match b
    case VeryHigh => 0
    case High => 1
    case Middle => 2
    case Low => 3
  }

  /** A longer gap never gives a more frequent bucket. */
  lemma FrequencyMsMonotone(lastUpdate: nat, now: nat, later: nat)
    requires lastUpdate != 0 && now <= later
    ensures Rank(FrequencyCountTypeMs(lastUpdate, now)) <= Rank(FrequencyCountTypeMs(lastUpdate, later))
  {
  }

  // ---------------------------------------------------------------------------------------
  // 2-4. Ending an audio/video session
  // ---------------------------------------------------------------------------------------

  /** As written, ending a screencast overwrites the screencast total with the last session's
      minutes, so every earlier screencast minute is lost. */
  lemma ScreencastTotalOverwritten(entry: ActivityEntry, e: ActivityEntry, now: nat)
    requires Connector.IsSessionEndedAsWritten(entry, e, Screencast, now)
    requires Connector.SessionTotal(entry.audioVideoActivities.value, Screencast) > 0
    ensures Connector.SessionTotal(e.audioVideoActivities.value, Screencast)
          < Connector.SessionTotal(entry.audioVideoActivities.value, Screencast)
            + ElapsedMinutes(now, Connector.SessionStart(entry.audioVideoActivities.value, Screencast))
  {
  }

  /** As written, the score is recomputed with the reply count in the reaction slot, so a
      record with more reactions than replies ends with a score below its current one. */
  lemma ReactionsScoredAsReplies(entry: ActivityEntry, e: ActivityEntry, kind: SessionKind, now: nat)
    requires Connector.IsSessionEndedAsWritten(entry, e, kind, now)
    requires entry.replyCount < entry.reactionCount
    ensures e.activityScore < Connector.MessageScore(e) + AudioVideoScore(e.audioVideoActivities)
    ensures !Connector.ScoreIsCurrent(e)
  {
    var written := ActivityScore(Some(entry.messageCount), Some(entry.replyCount), Some(entry.replyCount),
                                 entry.mentionedCount, entry.frequencyCounts, entry.messageLengthCounts);
    var sw := WeightedSum20(entry.messageCount, entry.replyCount, entry.replyCount,
                            entry.mentionedCount.GetOr(0), entry.frequencyCounts.GetOr(ZeroFrequency),
                            entry.messageLengthCounts.GetOr(ZeroLength));
    var sc := WeightedSum20(entry.messageCount, entry.replyCount, entry.reactionCount,
                            entry.mentionedCount.GetOr(0), entry.frequencyCounts.GetOr(ZeroFrequency),
                            entry.messageLengthCounts.GetOr(ZeroLength));
    assert sc >= sw + 20;
    assert Connector.MessageScore(e) == Connector.MessageScore(entry);
    assert written < Connector.MessageScore(entry);
  }

  /** As written, ending a session of a user with no record fails with a TypeError; the
      intended operation leaves the table as it is. */
  method EndWithoutRecord(table: seq<ActivityEntry>, userId: string, guildId: string, kind: SessionKind, now: nat)
    returns (asWritten: Result<seq<ActivityEntry>>, intended: Result<seq<ActivityEntry>>)
    requires |Connector.Matches(table, userId, guildId)| == 0
    ensures asWritten == Failure(TypeError)
    ensures intended == Success(table)
  {
    var w;
    asWritten, w := Connector.EndAudioVideoSession(Healthy, table, userId, guildId, kind, now);
    intended, w := EndAudioVideoSessionIntended(Healthy, table, userId, guildId, kind, now);
  }

  /** The total of one session kind set to `t`. */
  function WithSessionTotal(av: AudioVideoActivities, kind: SessionKind, t: int): (r: AudioVideoActivities)
    ensures Connector.SessionTotal(r, kind) == t
    ensures forall k :: k != kind ==> Connector.SessionTotal(r, k) == Connector.SessionTotal(av, k)
    ensures forall k :: Connector.SessionStart(r, k) == Connector.SessionStart(av, k)
  {
    match kind
    case VoiceChannel => av.(totalTimeInVoiceChannel := t)
    case Microphone => av.(totalTimeWithMicrophone := t)
    case Video => av.(totalTimeWithVideo := t)
    case Screencast => av.(totalTimeWithScreencast := t)
  }

  /** What ending a session evidently should write: the elapsed minutes added to the total of
      that kind (in an all-zero aggregate if the record had none), the other totals and all
      start timestamps kept, `updatedAt` set and the score recomputed from the stored
      counters. */
  ghost predicate IsSessionEnded(entry: ActivityEntry, e: ActivityEntry, kind: SessionKind, now: nat) {
    && e.audioVideoActivities.Some?
    && var av := entry.audioVideoActivities.GetOr(ZeroActivities);
       var av' := e.audioVideoActivities.value;
       var minutes := ElapsedMinutes(now, Connector.SessionStart(av, kind));
       (&& Connector.SessionTotal(av', kind) == Connector.SessionTotal(av, kind) + minutes
        && (forall k :: k != kind ==> Connector.SessionTotal(av', k) == Connector.SessionTotal(av, k))
        && (forall k :: Connector.SessionStart(av', k) == Connector.SessionStart(av, k))
        && Connector.ScoreIsCurrent(e)
        && e == entry.(audioVideoActivities := e.audioVideoActivities, updatedAt := now, activityScore := e.activityScore))
  }

  /** endAudioVideoSession as intended: a user without a record is left alone, and every
      session kind accumulates. */
  method EndAudioVideoSessionIntended(
    b: Backend, table: seq<ActivityEntry>, userId: string, guildId: string, kind: SessionKind, now: nat)
    returns (r: Result<seq<ActivityEntry>>, written: Option<ActivityEntry>)
    ensures !b.scanOk ==> r == Failure(BackendFailure) && written.None?
    ensures b.scanOk && |Connector.Matches(table, userId, guildId)| == 0 ==> r == Success(table) && written.None?
    ensures b.scanOk && |Connector.Matches(table, userId, guildId)| > 0 ==>
      && written.Some?
      && IsSessionEnded(Connector.Matches(table, userId, guildId)[0], written.value, kind, now)
      && r == PutItem(b, table, written.value, EntryId)
  {
    var existing := Connector.GetExistingEntry(b, table, userId, guildId);
    if existing.Failure? {
      return Failure(BackendFailure), None;
    }
    if |existing.value| == 0 {
      return Success(table), None;
    }
    var entry := existing.value[0];
    var av := entry.audioVideoActivities.GetOr(ZeroActivities);
    var minutes := ElapsedMinutes(now, Connector.SessionStart(av, kind));
    av := WithSessionTotal(av, kind, Connector.SessionTotal(av, kind) + minutes);
    entry := entry.(audioVideoActivities := Some(av), updatedAt := now);
    entry := entry.(activityScore := Connector.MessageScore(entry) + AudioVideoScore(entry.audioVideoActivities));
    written := Some(entry);
    r := PutItem(b, table, entry, EntryId);
  }

  /** A session that ends no earlier than it started never lowers a current score. */
  lemma SessionEndRaisesScore(entry: ActivityEntry, e: ActivityEntry, kind: SessionKind, now: nat)
    requires IsSessionEnded(entry, e, kind, now) && Connector.ScoreIsCurrent(entry)
    requires Connector.SessionStart(entry.audioVideoActivities.GetOr(ZeroActivities), kind) <= now
    ensures e.activityScore >= entry.activityScore
  {
    var av := entry.audioVideoActivities.GetOr(ZeroActivities);
    var av' := e.audioVideoActivities.value;
    var minutes := ElapsedMinutes(now, Connector.SessionStart(av, kind));
    assert minutes >= 0;
    assert Connector.MessageScore(e) == Connector.MessageScore(entry);
    assert av.totalTimeInVoiceChannel <= av'.totalTimeInVoiceChannel by {
      assert Connector.SessionTotal(av', VoiceChannel) >= Connector.SessionTotal(av, VoiceChannel);
    }
    assert av.totalTimeWithMicrophone <= av'.totalTimeWithMicrophone by {
      assert Connector.SessionTotal(av', Microphone) >= Connector.SessionTotal(av, Microphone);
    }
    assert av.totalTimeWithVideo <= av'.totalTimeWithVideo by {
      assert Connector.SessionTotal(av', Video) >= Connector.SessionTotal(av, Video);
    }
    assert av.totalTimeWithScreencast <= av'.totalTimeWithScreencast by {
      assert Connector.SessionTotal(av', Screencast) >= Connector.SessionTotal(av, Screencast);
    }
    AudioVideoScoreMonotone(av, av');
    if entry.audioVideoActivities.None? {
      ZeroTotalsScore(av);
    }
  }

  // ---------------------------------------------------------------------------------------
  // 5. The connector's exclusion lookup returns `{}` instead of throwing
  // ---------------------------------------------------------------------------------------

  /** As written, every lookup that reaches the store resolves, so the gate reads every user
      as excluded and no message, reaction or voice event is ever counted. */
  lemma ConnectorGateRejectsEveryone(
    b: Backend, exclusions: seq<ExcludedUserGuildEntry>, userId: string, guildId: string,
    guildRoles: Option<set<string>>, memberRoles: Option<set<string>>, channelId: Option<string>, running: bool,
    channelLookupResolves: bool)
    requires b.scanOk
    ensures !Bot.PreconditionsFulfilled(guildRoles, memberRoles, channelId, running,
                                        Connector.GetExcludedUserGuild(b, exclusions, userId, guildId),
                                        channelLookupResolves)
  {
  }

  /** As written, exclude never stores anything while the store answers scans. */
  lemma ConnectorExcludeNeverStores(
    b: Backend, exclusions: seq<ExcludedUserGuildEntry>, userId: string, guildId: string, freshId: Id, date: string)
    requires b.scanOk && |Connector.ExclusionMatches(exclusions, userId, guildId)| == 0
    ensures Connector.ExcludeUserGuild(b, exclusions, userId, guildId, freshId, date) == Success(exclusions)
    ensures Connector.ExclusionMatches(Connector.ExcludeUserGuild(b, exclusions, userId, guildId, freshId, date).value,
                                       userId, guildId) == []
  {
    FilterNone(exclusions, e => Connector.IsExclusionFor(e, userId, guildId));
  }

  /** With the throwing lookup of the old revision, and every other check passing, the gate
      lets a user through exactly when the user is not found excluded. */
  lemma LegacyGateFollowsExclusions(
    b: Backend, exclusions: seq<ExcludedUserGuildEntry>, userId: string, guildId: string,
    guildRoles: Option<set<string>>, memberRoles: Option<set<string>>, channelId: Option<string>)
    requires b.scanOk && guildRoles.Some? && memberRoles.Some? && !Bot.Falsy(channelId)
    requires Bot.HasPlayerRole(guildRoles) ==> Bot.HasPlayerRole(memberRoles)
    ensures Bot.PreconditionsFulfilled(guildRoles, memberRoles, channelId, true,
                                       Legacy.GetExcludedUserGuild(b, exclusions, userId, guildId), false)
        <==> |Connector.ExclusionMatches(exclusions, userId, guildId)| != 1
  {
  }

  /** With the old revision, a user excluded from a healthy store no longer passes the gate,
      and including the user again lets them through. */
  lemma LegacyExcludeThenGate(
    exclusions: seq<ExcludedUserGuildEntry>, userId: string, guildId: string, freshId: Id, date: string,
    guildRoles: Option<set<string>>, memberRoles: Option<set<string>>, channelId: Option<string>)
    requires |Connector.ExclusionMatches(exclusions, userId, guildId)| == 0
    requires freshId !in Keys(exclusions, ExclusionId)
    requires guildRoles.Some? && memberRoles.Some? && !Bot.Falsy(channelId)
    requires Bot.HasPlayerRole(guildRoles) ==> Bot.HasPlayerRole(memberRoles)
    ensures var once := Legacy.ExcludeUserGuild(Healthy, exclusions, userId, guildId, freshId, date);
      && once.Success?
      && !Bot.PreconditionsFulfilled(guildRoles, memberRoles, channelId, true,
                                     Legacy.GetExcludedUserGuild(Healthy, once.value, userId, guildId), false)
      && Bot.PreconditionsFulfilled(guildRoles, memberRoles, channelId, true,
                                    Legacy.GetExcludedUserGuild(Healthy, Legacy.IncludeUserGuild(Healthy, once.value, userId, guildId).value,
                                                                userId, guildId), false)
  {
    Legacy.ExcludeThenLookup(exclusions, userId, guildId, freshId, date);
    Legacy.IncludeUndoesExclude(exclusions, userId, guildId, freshId, date);
  }

  // ---------------------------------------------------------------------------------------
  // 6. The listing of a guild's excluded users is not filtered by guild
  // ---------------------------------------------------------------------------------------

  /** As written, the listing for one guild shows the exclusions of every guild. */
  lemma ListingShowsOtherGuilds(exclusions: seq<ExcludedUserGuildEntry>, guildId: string, e: ExcludedUserGuildEntry)
    requires e in exclusions && e.guildId != guildId
    ensures Connector.GetAllExcludedUserGuild(Healthy, exclusions, guildId).Success?
    ensures e in Connector.GetAllExcludedUserGuild(Healthy, exclusions, guildId).value
  {
  }

  /** getAllExcludedUserGuild as its name and its `guildId` parameter mean: the exclusions
      of that guild, in scan order. */
  function GetAllExcludedUserGuildOfGuild(b: Backend, exclusions: seq<ExcludedUserGuildEntry>, guildId: string)
    : (r: Result<seq<ExcludedUserGuildEntry>>)
    ensures r.Success? <==> b.scanOk
    ensures r.Success? ==> forall e :: e in r.value <==> e in exclusions && e.guildId == guildId
    ensures r.Success? ==> |r.value| <= |exclusions|
  {
    if b.scanOk then Success(Filter(exclusions, (e: ExcludedUserGuildEntry) => e.guildId == guildId))
    else Failure(BackendFailure)
  }

  /** Every exclusion the single lookup finds is in its guild's listing, and the listing
      holds nothing of another guild. */
  lemma LookupIsListed(b: Backend, exclusions: seq<ExcludedUserGuildEntry>, userId: string, guildId: string)
    requires Legacy.GetExcludedUserGuild(b, exclusions, userId, guildId).Success?
    ensures GetAllExcludedUserGuildOfGuild(b, exclusions, guildId).Success?
    ensures Legacy.GetExcludedUserGuild(b, exclusions, userId, guildId).value
            in GetAllExcludedUserGuildOfGuild(b, exclusions, guildId).value
  {
  }

  // ---------------------------------------------------------------------------------------
  // 7. The voice-state gate checks the channel of the new state only
  // ---------------------------------------------------------------------------------------

  /** As written, an update that leaves every channel makes no call at all, although the
      handler's leave branch would end the voice-channel session: that branch is dead, and the
      voice-channel total never grows. */
  lemma LeavingRecordsNothing<T>(
    guildRoles: Option<set<string>>, memberRoles: Option<set<string>>, running: bool,
    userLookup: Result<T>, channelLookupResolves: bool, before: Bot.VoiceState, after: Bot.VoiceState)
    requires before.InChannel() && !after.InChannel()
    ensures Bot.VoiceStateUpdate(guildRoles, memberRoles, running, userLookup, channelLookupResolves, before, after) == []
    ensures Bot.End(VoiceChannel) in Bot.VoiceSessionCalls(before, after)
  {
  }

  /** The channel the gate should check: the one joined or stayed in, else the one left. */
  function GateChannel(before: Bot.VoiceState, after: Bot.VoiceState): (channel: Option<string>)
    ensures after.InChannel() ==> channel == after.channel
    ensures !after.InChannel() ==> channel == before.channel
  {
    if after.channel.Some? then after.channel else before.channel
  }

  /** voiceStateUpdate with the gate on the channel the update is about, so that a leave
      still reaches the leave branch. */
  function VoiceStateUpdateIntended<T>(
    guildRoles: Option<set<string>>, memberRoles: Option<set<string>>, running: bool,
    userLookup: Result<T>, channelLookupResolves: bool, before: Bot.VoiceState, after: Bot.VoiceState)
    : (calls: seq<Bot.SessionCall>)
    ensures var open := Bot.PreconditionsFulfilled(guildRoles, memberRoles, GateChannel(before, after), running,
                                                   userLookup, channelLookupResolves);
      && (!open ==> calls == [])
      && (open ==> calls == Bot.VoiceSessionCalls(before, after))
  {
    var channelId := GateChannel(before, after);
    if !Bot.PreconditionsFulfilled(guildRoles, memberRoles, channelId, running, userLookup, channelLookupResolves) then []
    else Bot.VoiceSessionCalls(before, after)
  }

  /** With the corrected gate, a user who leaves a channel the gate admits has the
      voice-channel session ended, and the microphone session too exactly when unmuted. */
  lemma IntendedLeaveEndsSessions<T>(
    guildRoles: Option<set<string>>, memberRoles: Option<set<string>>, running: bool,
    userLookup: Result<T>, channelLookupResolves: bool, before: Bot.VoiceState, after: Bot.VoiceState)
    requires before.InChannel() && !after.InChannel()
    requires Bot.PreconditionsFulfilled(guildRoles, memberRoles, before.channel, running, userLookup, channelLookupResolves)
    ensures var calls := VoiceStateUpdateIntended(guildRoles, memberRoles, running, userLookup, channelLookupResolves,
                                                  before, after);
      && Bot.End(VoiceChannel) in calls
      && (Bot.End(Microphone) in calls <==> !before.selfMute)
  {
  }

  /** The correction changes nothing for an update that ends in a channel. */
  lemma IntendedAgreesInChannel<T>(
    guildRoles: Option<set<string>>, memberRoles: Option<set<string>>, running: bool,
    userLookup: Result<T>, channelLookupResolves: bool, before: Bot.VoiceState, after: Bot.VoiceState)
    requires after.InChannel()
    ensures VoiceStateUpdateIntended(guildRoles, memberRoles, running, userLookup, channelLookupResolves, before, after)
         == Bot.VoiceStateUpdate(guildRoles, memberRoles, running, userLookup, channelLookupResolves, before, after)
  {
  }
}
