/** The record shapes of the activity and exclusion tables. Counters and histogram slots are
    natural numbers; timestamps are epoch milliseconds (0 stands for a missing timestamp,
    since the code only tests them for truthiness); audio/video totals are whole minutes and
    may be negative, because they accumulate rounded `now - start` differences. */
module Schema {
  import opened Wrappers
  import opened Store

  datatype FrequencyCounts = FrequencyCounts(veryHigh: nat, high: nat, middle: nat, low: nat)

  datatype MessageLengthCounts = MessageLengthCounts(veryShort: nat, short: nat, middle: nat, long: nat)

  datatype AudioVideoActivities = AudioVideoActivities(
    joinedVoiceChannelAt: nat,
    enabledMicrophoneAt: nat,
    enabledVideoAt: nat,
    enabledScreencastAt: nat,
    totalTimeInVoiceChannel: int,
    totalTimeWithMicrophone: int,
    totalTimeWithVideo: int,
    totalTimeWithScreencast: int)

  /** One (user, guild) aggregate. Fields that records written by earlier code may lack
      (`mentionedCount`, both histograms, `audioVideoActivities`, `version`) are options. */
  datatype ActivityEntry = ActivityEntry(
    id: Id,
    userId: string,
    guildId: string,
    messageCount: nat,
    replyCount: nat,
    reactionCount: nat,
    mentionedCount: Option<nat>,
    frequencyCounts: Option<FrequencyCounts>,
    messageLengthCounts: Option<MessageLengthCounts>,
    audioVideoActivities: Option<AudioVideoActivities>,
    activityScore: int,
    updatedAt: nat,
    version: Option<string>)

  datatype ExcludedUserGuildEntry = ExcludedUserGuildEntry(id: Id, userId: string, guildId: string, date: string)

  /** The kinds of audio/video session. */
  datatype SessionKind = VoiceChannel | Microphone | Video | Screencast

  /** The arguments of one activity update after the user and guild. */
  datatype Increments = Increments(message: nat, reply: nat, reaction: nat, mentioned: nat, messageLength: nat)

  const ZeroFrequency := FrequencyCounts(0, 0, 0, 0)
  const ZeroLength := MessageLengthCounts(0, 0, 0, 0)
  const ZeroActivities := AudioVideoActivities(0, 0, 0, 0, 0, 0, 0, 0)

  /** Primary keys of the two tables. */
  function EntryId(e: ActivityEntry): Id { e.id }
  function ExclusionId(e: ExcludedUserGuildEntry): Id { e.id }
}
