# Activity scoring of a Discord tracker, modelled in Dafny

The tracker is a Discord bot. It counts what each user does in each guild: messages, replies,
reactions, mentions, and time spent in voice channels, with the microphone on, on video and
screencasting. It keeps one activity record per (user, guild) pair in a key-value table. Each
record holds the counters, two histograms and a cached activity score. The bot also keeps a
table of excluded users, answers admin commands, and serves a leaderboard. A batch script
recomputes every stored score.

The model covers these parts:

- **Scoring** (`scoring.dfy`). The weighted activity score and the audio/video score. The
  frequency and message-length classifiers. Minutes elapsed since a timestamp. JavaScript's
  `Math.round` becomes exact integer arithmetic on scaled values: round(x) = floor(x + 1/2).
  For example, the activity score is `(20·sum + 10) / 20`, where `20·sum` is an integer.
- **Store** (`store.dfy`). The table is a sequence of items. A scan filters the sequence and
  keeps its order. A put replaces the item with the same id, or appends one. A delete removes
  the key. A `Backend(scanOk, putOk, deleteOk)` value says which calls the store rejects.
- **Leaderboard** (`leaderboard.dfy`). The score comparator, a sort by score, highest first,
  and `slice(0, n)` with JavaScript's meaning of a negative `n`.
- **Connector** (`connector.dfy`). The current record and exclusion operations:
  - message activity, mentions, and starting and ending audio/video sessions;
  - the leaderboard query;
  - looking up, listing, excluding and including users.

  The source mutates a fetched record and puts it back. Here, methods update a local record
  value and then call the store's put. Their contracts relate the written record to the
  record the scan found.
- **Legacy** (`legacy.dfy`). The superseded revision of the same repository: records without
  an audio/video aggregate or a version, and an exclusion lookup that throws when nothing is
  found.
- **Bot** (`bot.dfy`). The event rules:
  - which session calls a voice-state change makes;
  - which increments a message or a reaction produces;
  - the gate every event passes (`preconditionsFulfilled`);
  - the role check on commands;
  - the running/paused switch, as a class with one mutable field;
  - the text of the exclusion lists.
- **Recompute** (`recompute.dfy`). The recalculation script, as a loop over the scanned
  records, with a put that may fail part way.
- **Findings** (`findings.dfy`). The defects described under "## Findings", and the corrected
  definitions.

The main modules model the code as it is written, defects included. The corrected behaviour
lives in `findings.dfy`, beside a member that shows each defect. Every defect listed under
"## Findings" is modelled as written there. Two of them also show in the main modules'
contracts:

- The frequency thresholds are 12, 24 and 48 hours counted in seconds, compared with a gap in
  milliseconds.
- Ending a screencast assigns the screencast total, where the other three totals add to it.

Some values come from outside the code and are parameters here:

- The clock (`Date.now()`) is `now`. The several `Date.now()` calls of one operation read the
  same `now`.
- Generated ids (`uuid.v4()`) are `freshId` / `freshIds`.
- The package version is `version`.
- An ISO date string is `date`.

## Model

| member | source | states |
|---|---|---|
| Store.Filter | src/aws-dynamodb-connector.ts:125-131 | A scan returns exactly the items that pass its filter, each no more often than in the table, at most as many as the table holds. |
| Store.FilterAppend | src/aws-dynamodb-connector.ts:125-131 | A scan keeps the table's order: scanning two halves and joining the results is scanning the whole. |
| Store.IndexOfKey | src/aws-dynamodb-connector.ts:216-231 | The position a put by primary key overwrites: the first item with that id, or the end of the table when no item has it. |
| Store.Put | src/aws-dynamodb-connector.ts:216-231 | A put of an item whose id is absent appends it. Otherwise it replaces the item with that id at its position and keeps the length. The put item is in the result, and every other item was there before. |
| Store.Delete | src/aws-dynamodb-connector.ts:107-112 | After a delete by key, no item has that key. An item remains exactly when it was there and has another key. Deleting an absent key changes nothing. |
| Store.PutItem | src/aws-dynamodb-connector.ts:215-236 | A put succeeds exactly when the backend accepts it. The table is then the put of the item: it holds the item, and nothing else changes. |
| Store.DeleteItem | src/aws-dynamodb-connector.ts:107-117 | A delete succeeds exactly when the backend accepts it and a key is given. The table is then the delete of that key: the key is gone, and nothing else changes. |
| Store.FilterReplaceDropped | src/aws-dynamodb-connector.ts:216-231 | Replacing an item a scan drops by another it drops leaves the scan result as it was. |
| Store.FilterFirstReplaced | src/aws-dynamodb-connector.ts:216-231 | With unique ids, replacing the first item of a scan result puts the new item first. |
| Store.KeysAfterPut | src/aws-dynamodb-connector.ts:216-231 | A put adds the item's id to the key set and no other key. |
| Store.PutKeepsUniqueKeys | src/aws-dynamodb-connector.ts:216-231 | A put keeps ids unique, as the table's primary key requires. |
| Store.DeleteAppended | src/aws-dynamodb-connector.ts:107-112 | Deleting the id of the item just appended, when that id was new, gives back the table before the append. |
| Store.DeleteOne | src/aws-dynamodb-connector.ts:107-112 | With unique ids, deleting the id at position i removes exactly that one item. |
| Store.DeleteMember | src/aws-dynamodb-connector.ts:107-112 | With unique ids, deleting the id of a member removes that member from its place and keeps the rest in order. |
| Scoring.TallyFrequency | src/aws-dynamodb-connector.ts:395 | Counting a message in a frequency bucket adds one to that bucket and lowers no slot. |
| Scoring.TallyFrequencyOtherSlots | src/aws-dynamodb-connector.ts:395 | The tally adds exactly one message in all and leaves the other three buckets as they were. |
| Scoring.FirstTally | src/aws-dynamodb-connector.ts:196-202 | The first tally of a new record lands in veryHigh, giving the histogram {veryHigh: 1}. |
| Scoring.TallyLength | src/aws-dynamodb-connector.ts:383-385 | Counting a message in a length bucket adds one to that bucket and lowers no slot. |
| Scoring.TallyLengthOtherSlots | src/aws-dynamodb-connector.ts:383-385 | The tally adds exactly one message in all and leaves the other three buckets as they were. |
| Scoring.ActivityScore | src/aws-dynamodb-connector.ts:504-554 | The score is the weighted sum rounded to the nearest integer, halves upwards. The weights are 3/2/1/0.5 on messages, replies, reactions and mentions, 1/0.5/0.2/0.05 on the frequency buckets and 0.05/0.2/0.5/1 on the length buckets. A missing counter counts as 0 and a missing histogram as all zero. |
| Scoring.AudioVideoScore | src/aws-dynamodb-connector.ts:556-566 | Without an aggregate the score is 0. Otherwise it is 3·screencast + 2·video + microphone + 0.25·voice-channel minutes, rounded to the nearest integer. |
| Scoring.ElapsedMinutes | src/aws-dynamodb-connector.ts:453-460 | The elapsed milliseconds over 60000, rounded to the nearest integer, halves upwards. |
| Scoring.FrequencyCountType | src/aws-dynamodb-connector.ts:572-589 | A missing or zero last update gives veryHigh. Otherwise the gap lies below 43200, in [43200, 86400), in [86400, 172800) or at 172800 and above. Each band holds exactly when the bucket is veryHigh, high, middle or low. |
| Scoring.MessageLengthType | src/aws-dynamodb-connector.ts:591-601 | Each of the four bands (below 50, [50, 150), [150, 300), 300 and above) holds exactly when the bucket is veryShort, short, middle or long. |
| Scoring.ActivityScoreMonotone | src/aws-dynamodb-connector.ts:504-554 | Raising any counter or any histogram slot never lowers the activity score. |
| Scoring.ActivityScoreGrowth | src/aws-dynamodb-connector.ts:504-554 | Adding messages, replies and reactions, with no histogram slot lowered, raises the score by at least 3, 2 and 1 for each. |
| Scoring.ActivityScoreDefaults | src/aws-dynamodb-connector.ts:512-535 | Missing counters and histograms score exactly like zero ones. |
| Scoring.AudioVideoScoreMonotone | src/aws-dynamodb-connector.ts:556-566 | Larger totals never give a lower audio/video score. |
| Scoring.AudioVideoScoreIgnoresStarts | src/aws-dynamodb-connector.ts:556-566 | The audio/video score depends only on the four totals, not on the start timestamps. |
| Scoring.ZeroTotalsScore | src/aws-dynamodb-connector.ts:556-566 | An aggregate whose totals are all zero scores 0, like an absent one. |
| Scoring.FortyCharacterMessageScore | src/aws-dynamodb-connector.ts:185-237 | A new record made from one 40-character message scores round(3 + 1 + 0.05) = 4. |
| Leaderboard.ActivityScoreSort | src/aws-dynamodb-connector.ts:568-570 | The comparator returns -1 exactly when the first score is higher, and 1 otherwise. |
| Leaderboard.Insert | src/aws-dynamodb-connector.ts:134 | Inserting into a list ranked highest first keeps it ranked, and adds exactly the one element. |
| Leaderboard.SortByScore | src/aws-dynamodb-connector.ts:134 | The sorted list is ranked highest first and is a permutation of its input. |
| Leaderboard.Slice | src/aws-dynamodb-connector.ts:134 | `slice(0, n)` is a prefix. A non-negative n keeps min(n, length) elements. A negative n drops -n elements from the end. |
| Leaderboard.PrefixIsTop | src/aws-dynamodb-connector.ts:134 | In a ranked list, no element after a cut scores above any element before it. |
| Leaderboard.TopN | src/aws-dynamodb-connector.ts:134 | The result is ranked and is a sub-multiset of the input, with min(n, length) elements for n ≥ 0. No item left out scores above an item taken. |
| Connector.Matches | src/aws-dynamodb-connector.ts:486-502 | The records of one (user, guild), in scan order. |
| Connector.GetExistingEntry | src/aws-dynamodb-connector.ts:486-502 | The filtered scan succeeds exactly when the backend accepts it, and then returns the matching records. |
| Connector.AddNewUserGuildActivityEntry | src/aws-dynamodb-connector.ts:185-237 | The new record has the given counters and the mentioned count. Its frequency histogram is {veryHigh: 1}, because the gap to "now" is 0. Its length histogram counts the message when its length is above 0. It has no aggregate and no version, and its score is current. A put of a new id appends it. |
| Connector.UpdateExistingUserGuildActivityEntry | src/aws-dynamodb-connector.ts:351-416 | The found record gains the increments. A missing histogram or mentioned count restarts from zero. The frequency bucket of the gap since the last update gains one, and so does the length bucket when the length is above 0. `updatedAt` becomes now and the score becomes current. The id, the aggregate and the version are kept. |
| Connector.UpdateUserGuildActivities | src/aws-dynamodb-connector.ts:150-183 | A failed scan fails. No match adds a new record, otherwise the first match is updated. The record written is the user's in the guild. With unique ids and a fresh id, ids stay unique, only the fresh id may be added, and every record of another (user, guild) survives. |
| Connector.PutPreservesOthers | src/aws-dynamodb-connector.ts:405-409 | A put that replaces a user's record keeps every record of another (user, guild). |
| Connector.LengthTallied | src/aws-dynamodb-connector.ts:211-213 | A positive length adds one to its band's slot and leaves the other slots. Length 0 leaves the histogram as it is. No slot is lowered. The update path tallies the same way (src/aws-dynamodb-connector.ts:383-385). |
| Connector.MessageScoreGrowth | src/aws-dynamodb-connector.ts:351-416 | A record whose counters grew by the increments, with no histogram slot lowered, has a message score at least 3 per message, 2 per reply and 1 per reaction higher. |
| Connector.UpdateRaisesScore | src/aws-dynamodb-connector.ts:351-416 | An update raises a current score by at least 3 per message, 2 per reply and 1 per reaction. |
| Connector.UpdateUserGuildMentions | src/aws-dynamodb-connector.ts:143-148 | Each listed user gets one update, each with its own backend outcome. With unique ids and fresh ids, ids stay unique and records of other guilds survive. When every call succeeds, each listed user's first record in the guild has its mentioned count raised by the number of times the user is listed, starting from 0 for a missing record or count. Every other user's records in the guild are unchanged. |
| Connector.MentionStep | src/aws-dynamodb-connector.ts:143-148 | One mention update keeps the invariant of the mentions loop. |
| Connector.MentionFrameStep | src/aws-dynamodb-connector.ts:143-148 | One mention update uses no id beyond the reserved ones and keeps the records of other guilds. |
| Connector.FreshIdUnused | src/aws-dynamodb-connector.ts:143-148 | The id reserved for the next new record is not yet in the table. |
| Connector.MentionRecord | src/aws-dynamodb-connector.ts:151-183 | The record a mention writes belongs to the user and guild, reuses the first match's id or takes a fresh one, and holds the user's mentioned count plus one. |
| Connector.MentionCountStep | src/aws-dynamodb-connector.ts:143-148 | One more mention of a user raises that user's count by one and leaves every other user's records. |
| Connector.MentionedSelf | src/aws-dynamodb-connector.ts:143-148 | The mentioned user's count after one more mention is one more than before. |
| Connector.MentionedOther | src/aws-dynamodb-connector.ts:143-148 | A mention of one user leaves another user's count state as it was. |
| Connector.MatchesAfterPut | src/aws-dynamodb-connector.ts:151-183 | Putting the record an update writes for a user makes it that user's first record in the guild, and leaves every other user's records there unchanged. |
| Connector.AddNewAudioVideoSession | src/aws-dynamodb-connector.ts:239-303 | The new record has zero counters, zero histograms, score 0 and the version. Its aggregate has the one start set to now and every other field zero. |
| Connector.UpdateExistingAudioVideoSession | src/aws-dynamodb-connector.ts:305-349 | The session's start becomes now, in a zero aggregate if the record had none. `updatedAt` becomes now. Nothing else changes, and the score is not recomputed. |
| Connector.StartAudioVideoSession | src/aws-dynamodb-connector.ts:418-439 | A failed scan fails. No match adds a session record, otherwise the first match gets the session started. |
| Connector.NewSessionScoreIsCurrent | src/aws-dynamodb-connector.ts:239-303 | The score 0 of a new session record is its current score. |
| Connector.SessionStartKeepsScoreCurrent | src/aws-dynamodb-connector.ts:305-349 | Starting a session keeps a current score current, although the score is not recomputed. |
| Connector.EndAudioVideoSession | src/aws-dynamodb-connector.ts:441-484 | A failed scan fails. No match, or a match without an aggregate, raises a TypeError. Otherwise the elapsed minutes are added to the voice-channel, microphone or video total, but assigned to the screencast total. The message score uses the reply count in the reaction slot, and the record is put. |
| Connector.GuildEntries | src/aws-dynamodb-connector.ts:125-131 | The records of one guild. |
| Connector.GetNMostActiveUsers | src/aws-dynamodb-connector.ts:120-141 | The query succeeds exactly when the scan does. It returns records of the guild, each no more often than it is stored, ranked highest first, min(n, count) of them for n ≥ 0. No guild record left out scores above one returned. |
| Connector.ExclusionMatches | src/aws-dynamodb-connector.ts:52-59 | The exclusions of one (user, guild). |
| Connector.GetAllExcludedUserGuild | src/aws-dynamodb-connector.ts:30-46 | The unfiltered scan returns every exclusion of every guild. |
| Connector.GetExcludedUserGuild | src/aws-dynamodb-connector.ts:48-69 | The lookup fails only when the scan fails. The exclusion is returned exactly when there is one match, and otherwise `{}` is returned, not thrown. |
| Connector.ExcludeUserGuild | src/aws-dynamodb-connector.ts:71-99 | While scans succeed, nothing is stored. Only a failed scan leads to the put of a new exclusion, and the result is then exactly that put: it succeeds when the backend accepts it, adds the new exclusion and keeps every other. |
| Connector.IncludeUserGuild | src/aws-dynamodb-connector.ts:101-118 | It succeeds exactly when the scan and the delete succeed and there is one match. The result is then exactly the delete of that exclusion's id: no exclusion of the user in the guild is left, and every other exclusion stays in order. |
| Connector.DeleteOnlyMatch | src/aws-dynamodb-connector.ts:101-118 | Deleting the id of the only matching exclusion leaves none for that user in that guild. |
| Legacy.Matches | src/aws-dynamodb.ts:147-158 | The old records of one (user, guild), in scan order. |
| Legacy.LegacyActivityScore | src/aws-dynamodb.ts:250-272 | The old scorer rounds the same weighted sum and equals the current scorer on present arguments. |
| Legacy.NewLegacyEntry | src/aws-dynamodb.ts:160-202 | The new old-style record has the increments, the frequency histogram {veryHigh: 1}, the length histogram of the message, and a current score. |
| Legacy.IncrementLegacyEntry | src/aws-dynamodb.ts:203-246 | The found old record gains the increments and the two bucket counts, and its score becomes current. |
| Legacy.IncrementUserGuildActivities | src/aws-dynamodb.ts:136-248 | A failed scan fails. No match adds a record, appended when its id is new. Otherwise the first match is incremented in place, and the length stays. |
| Legacy.GuildEntries | src/aws-dynamodb.ts:111-117 | The old records of one guild. |
| Legacy.GetNMostActiveUsers | src/aws-dynamodb.ts:107-127 | The same ranking and cut as the current leaderboard, over old records: a sub-multiset of the guild's records, ranked, of length min(n, count), with no left-out record scoring above a returned one. |
| Legacy.GetExcludedUserGuild | src/aws-dynamodb.ts:38-58 | A failed scan fails. The exclusion is returned exactly when there is one match, and otherwise "not found" is thrown. |
| Legacy.ExcludeUserGuild | src/aws-dynamodb.ts:60-86 | A successful lookup changes nothing, and every failed lookup leads to one put. A success leaves at least one exclusion of the user. |
| Legacy.IncludeUserGuild | src/aws-dynamodb.ts:88-105 | It succeeds exactly when the scan and the delete succeed and there is one match. Otherwise it throws "not found". The result is then exactly the delete of that exclusion's id, and with unique ids that removes just its position. |
| Legacy.ExcludeThenLookup | src/aws-dynamodb.ts:38-86 | Excluding a user who has no exclusion appends one, and the lookup then finds it. |
| Legacy.ExcludeIdempotent | src/aws-dynamodb.ts:60-86 | Excluding twice is excluding once. |
| Legacy.IncludeUndoesExclude | src/aws-dynamodb.ts:60-105 | Exclude followed by include restores the table exactly. |
| Bot.ScreencastCalls | src/index.ts:221-228 | A screencast starts exactly when streaming turns on, and ends exactly when it turns off. |
| Bot.VideoCalls | src/index.ts:230-237 | A video session starts exactly when the camera turns on, and ends exactly when it turns off. |
| Bot.MicrophoneCalls | src/index.ts:239-246 | A microphone session starts exactly on unmute, and ends exactly on mute. |
| Bot.ChannelCalls | src/index.ts:248-264 | Joining a channel starts a channel session, and a microphone session when unmuted. Leaving one ends a channel session, and a microphone session when the old state was unmuted. |
| Bot.VoiceSessionCalls | src/index.ts:221-264 | Which calls one update makes, for every kind. No update both starts and ends the same kind, and an unchanged state makes no call. |
| Bot.MicrophoneStartCount | src/index.ts:239-255 | The microphone is started once for an unmute and once more for a join while unmuted. |
| Bot.MicrophoneEndCount | src/index.ts:239-264 | The microphone is ended once for a mute and once more for a leave while unmuted, so twice for a leave that also mutes. |
| Bot.OtherCallsAtMostOnce | src/index.ts:221-264 | Every kind but the microphone is started at most once and ended at most once. |
| Bot.CallCount | src/index.ts:221-264 | A call occurs once for each of the four edge checks that issues it. |
| Bot.VoiceStateUpdate | src/index.ts:212-265 | The gate checks the new state's channel id. A closed gate makes no call, an open one makes the calls above. So an update that leaves every channel makes no call: the voice-channel session is never ended, and the microphone is ended only by muting. |
| Bot.UnmuteInChannel | src/index.ts:239-246 | Unmuting while staying in a channel starts exactly one microphone session. |
| Bot.MessageCreateRequests | src/index.ts:267-289 | The gate is checked with the message's channel id and the author's roles. A closed gate makes no request. Through an open gate, a message with no mentions counts one message. One with mentions counts one reply for the author and one mention per mentioned user. The message length goes with the author's increment. |
| Bot.ReactionRequests | src/index.ts:291-302 | The gate is checked with the message's channel id and the roles of the reacting user as cached in the guild. A user missing from the cache closes it. A closed gate makes no request. An open one counts one reaction for the reacting user. |
| Bot.PreconditionsFulfilled | src/index.ts:498-541 | The gate passes exactly when guild and member are known, the channel id is truthy, the bot is running, and a guild with the player role implies a member with it. Also, the user lookup must throw and the channel lookup must not resolve. |
| Bot.CommandAuthorized | src/index.ts:310-323 | Admin commands need the admin role, passport commands need the player role, and other commands pass. |
| Bot.CommandListsDisjoint | src/constants.ts:25-33 | No command is in both role lists. |
| Bot.StatusWord | src/index.ts:403-410 | The mode word is "running" exactly when the adapter runs, and "paused" otherwise. |
| Bot.Adapter.constructor | src/index.ts:199 | The bot starts running. |
| Bot.Adapter.Toggle | src/index.ts:403-406 | Toggling flips the mode and replies with the new one. |
| Bot.Adapter.ViewStatus | src/index.ts:408-409 | Viewing replies with the mode and changes nothing. |
| Bot.ToggleTwice | src/index.ts:403-409 | Two toggles restore the mode, with the view between them showing the flipped one. |
| Bot.FormatRows | src/index.ts:543-567 | No rows give "no results". Otherwise the result is the header line followed by one "key - date" line per row, in order. |
| Bot.UserRows | src/index.ts:550-552 | One (userId, date) row per exclusion, in order. |
| Bot.ChannelRows | src/index.ts:563-565 | One (channelId, date) row per exclusion, in order. |
| Bot.FormatExcludedUserGuild | src/index.ts:543-554 | The user list is "no results", or "userId - date" followed by the rows. |
| Bot.FormatExcludedChannelGuild | src/index.ts:556-567 | The channel list is "no results", or "channelId - date" followed by the rows. |
| Bot.LinesNewlines | src/index.ts:550-552 | Rows without line breaks give one line break per row. |
| Bot.FormattedLineCount | src/index.ts:547-553 | A non-empty list has exactly one line more than it has rows. |
| Recompute.Recomputed | src/scripts/recalculate-activity-score.ts:28-37 | A rewritten record has a current score and the version set, and every other field as before. |
| Recompute.RecalculateActivityScores | src/scripts/recalculate-activity-score.ts:11-54 | A failed scan changes nothing and fails. With no failing put, every record is updated. If the k-th put fails, k records are updated and the script fails. With unique ids, exactly the first `updateCount` records are rewritten. After a full run every record is current and carries the version. |
| Findings.SecondThresholdsOnMilliseconds | src/aws-dynamodb-connector.ts:572-589 | As written, every gap of 172800 ms (under three minutes) or more is already "low". |
| Findings.OneHourGap | src/aws-dynamodb-connector.ts:572-589 | One hour after the last update is "low" as written, and "veryHigh" as intended. |
| Findings.FrequencyCountTypeMs | src/aws-dynamodb-connector.ts:572-589 | The corrected classifier, with the 12/24/48-hour bands in milliseconds. Each band holds exactly when the matching bucket is returned. |
| Findings.MillisecondBandsAreSecondBands | src/aws-dynamodb-connector.ts:572-589 | The corrected bucket of a gap in milliseconds is the written bucket of the same gap in whole seconds. |
| Findings.FrequencyMsMonotone | src/aws-dynamodb-connector.ts:572-589 | A longer gap never gives a more frequent bucket. |
| Findings.ScreencastTotalOverwritten | src/aws-dynamodb-connector.ts:459-460 | As written, ending a screencast leaves a total below the previous total plus the session's minutes. |
| Findings.ReactionsScoredAsReplies | src/aws-dynamodb-connector.ts:464-471 | As written, a record with more reactions than replies ends a session with a score below its current score. |
| Findings.EndWithoutRecord | src/aws-dynamodb-connector.ts:448-451 | Without a record, the written session end raises a TypeError, and the intended one leaves the table unchanged. |
| Findings.WithSessionTotal | src/aws-dynamodb-connector.ts:453-460 | The total of one kind is set, and the other totals and all starts are kept. |
| Findings.EndAudioVideoSessionIntended | src/aws-dynamodb-connector.ts:441-484 | Without a record nothing happens. Otherwise the elapsed minutes are added to the total of that kind, starting from a zero aggregate if there was none. Everything else is kept and the score becomes current. |
| Findings.SessionEndRaisesScore | src/aws-dynamodb-connector.ts:441-484 | The intended session end never lowers a current score. |
| Findings.ConnectorGateRejectsEveryone | src/aws-dynamodb-connector.ts:48-69 | With the `{}` lookup, the gate rejects every user whenever the scan succeeds. |
| Findings.ConnectorExcludeNeverStores | src/aws-dynamodb-connector.ts:71-99 | With the `{}` lookup, excluding a user stores nothing. |
| Findings.LegacyGateFollowsExclusions | src/aws-dynamodb.ts:38-58 | With the throwing lookup, and the other checks passing, the gate passes exactly when the user does not have exactly one exclusion. |
| Findings.LegacyExcludeThenGate | src/aws-dynamodb.ts:60-105 | With the throwing lookup, an excluded user is stopped by the gate and passes again after being included. |
| Findings.ListingShowsOtherGuilds | src/aws-dynamodb-connector.ts:30-46 | As written, the listing for one guild shows every other guild's exclusions. |
| Findings.GetAllExcludedUserGuildOfGuild | src/aws-dynamodb-connector.ts:30-46 | The corrected listing contains exactly the guild's exclusions. |
| Findings.LookupIsListed | src/aws-dynamodb.ts:38-58 | Every exclusion the lookup finds is in its guild's corrected listing. |
| Findings.LeavingRecordsNothing | src/index.ts:215-264 | As written, an update that leaves a channel makes no call at all, although the handler's leave branch would end the voice-channel session. |
| Findings.GateChannel | src/index.ts:215 | The corrected gate checks the channel joined or stayed in, else the channel left. |
| Findings.VoiceStateUpdateIntended | src/index.ts:212-265 | With the gate on that channel, a closed gate makes no call and an open one makes the handler's calls. |
| Findings.IntendedLeaveEndsSessions | src/index.ts:256-264 | With the corrected gate, leaving an admitted channel ends the voice-channel session, and the microphone session exactly when unmuted. |
| Findings.IntendedAgreesInChannel | src/index.ts:212-265 | The correction changes nothing for an update that ends in a channel. |

## Left out

- Asynchrony and concurrency. Event handlers call the store without awaiting it, and the
  mentions loop fires one update per user without waiting. Interleaved read-modify-write
  updates can lose increments. The model runs each operation to completion, in list order.
- Store.DeleteItem, Connector.IncludeUserGuild: the store is taken to reject a delete whose key
  is undefined (the `{}` lookup of src/aws-dynamodb-connector.ts:105-110). This is an assumption
  about the backend, not something the code decides.
- Scan pagination. A scan returns the whole table, with no 1 MB page limit.
- Floating point. Scores, weights and minutes are exact scaled integers, rounded as
  `Math.round` rounds the exact value. Binary rounding errors of the source's float sums are
  not modelled. They can move a sum that is exactly halfway down by one.
- Connector.UpdateUserGuildMentions: it is modelled over the connector's update. The old
  revision's `incrementUserGuildMentions` (src/aws-dynamodb.ts:129-134) is the same loop over
  `Legacy.IncrementUserGuildActivities`, and it is not modelled separately.
- The old revision's getAllExcludedUserGuild (src/aws-dynamodb.ts:21-36) is the same
  unfiltered scan as `Connector.GetAllExcludedUserGuild`. It is not modelled twice.
- The old revision's classifiers and comparator (src/aws-dynamodb.ts:274-307) are the same as
  the connector's, and `Scoring` stands for both.
- Old records stored without `mentionedCount` make the old scorer compute NaN. They are not
  modelled: `Legacy.LegacyEntry` has a mentioned count.
- Leaderboard.TopN: the comparator is not consistent on equal scores (both orders return 1).
  ECMAScript then leaves the sort order implementation-defined. The model picks one valid
  ranking, and its contract holds for every ranking.
- Channel exclusions (`getExcludedChannelGuild`, `excludeChannelGuild`,
  `includeChannelGuild`, `getAllExcludedChannelGuild`) and the guild link settings. They are
  called from src/index.ts but defined outside the files modelled. The gate takes the
  channel lookup's outcome as a flag, and the channel record is shaped like the user one.
- Command handlers that only forward to the store and reply with fixed text (exclude,
  include, the link commands). Their store side is the connector's operations above.
- Discord client set-up, command registration, login, logging and error reporting. They do
  not affect the stored data.
- The table client singleton (`getDynamoDbSingleton`) and the environment variables naming
  the tables. Each table is a separate sequence.
- Bot.PreconditionsFulfilled: the member's and the guild's role lists are sets given as
  inputs. How Discord fills its role cache is not modelled.

## Findings

| source | as written | input that shows it | evidently intended | confidence | as-written member | corrected member |
|---|---|---|---|---|---|---|
| src/aws-dynamodb-connector.ts:572-589 | The bands 12/24/48 · ONE_HOUR_IN_S are seconds, but the gap is a difference of millisecond timestamps. The same holds in src/aws-dynamodb.ts:278-295. | Last update 1, now 3600001, one hour later: the bucket is "low". | Bands of 12, 24 and 48 hours in milliseconds. | not executed | Findings.OneHourGap | Findings.FrequencyCountTypeMs |
| src/aws-dynamodb-connector.ts:459-460 | Ending a screencast assigns the total (`=`), where the other three kinds add (`+=`). | A screencast total of 30 followed by a 10-minute session gives 10, not 40. | Add the minutes, like the other kinds. | not executed | Findings.ScreencastTotalOverwritten | Findings.EndAudioVideoSessionIntended |
| src/aws-dynamodb-connector.ts:464-471 | The score at session end passes `replyCount` as the reaction count. | A record with 0 replies and 5 reactions loses 5 points: its score is no longer current. | Pass `reactionCount`, as every other scoring call does. | not executed | Findings.ReactionsScoredAsReplies | Findings.EndAudioVideoSessionIntended |
| src/aws-dynamodb-connector.ts:448-451 | The test is on the scan result, which is always an object. With no match (or no aggregate), `Items[0].audioVideoActivities` raises a TypeError. | Ending a session for a user without a record. | Do nothing without a record, and start from a zero aggregate. | not executed | Findings.EndWithoutRecord | Findings.EndAudioVideoSessionIntended |
| src/aws-dynamodb-connector.ts:63-64 | The lookup returns `{}` instead of throwing when nothing is found. The gate (src/index.ts:524-529) and excludeUserGuild treat "did not throw" as "excluded". | Any user, with any backend whose scans succeed: the gate rejects the user, so no activity is ever counted. | Throw when nothing is found, as the old revision does (src/aws-dynamodb.ts:54-57). | not executed | Findings.ConnectorGateRejectsEveryone | Findings.LegacyGateFollowsExclusions |
| src/aws-dynamodb-connector.ts:30-46 | `getAllExcludedUserGuild(guildId)` scans with no filter. The guild's "view excluded gamers" list shows every guild's exclusions. | A table holding an exclusion of another guild: it is listed. | Filter the scan by `guildId`. | not executed | Findings.ListingShowsOtherGuilds | Findings.GetAllExcludedUserGuildOfGuild |
| src/index.ts:215-218 | The gate receives `newState.channel?.id`, which is undefined when the user leaves every channel, and `preconditionsFulfilled` rejects an undefined channel id (src/index.ts:509-512). The leave branch (src/index.ts:256-264) is dead, so voice-channel time is never recorded. | A user in a channel leaves it: no call is made, and the voice-channel total stays 0. | Gate a leave on the channel left. | not executed | Findings.LeavingRecordsNothing | Findings.VoiceStateUpdateIntended |

Two more behaviours look unintended but are not listed as findings:

- In the old revision, a user with two exclusions passes the gate.
- Taken apart from the gate, the handler's branches would end the microphone session twice
  for a user who leaves a channel and mutes in the same update (src/index.ts:239-264).
  `Bot.MicrophoneEndCount` counts that second end. The gate rejects every update without
  a new channel, so the case cannot arise as written (`Bot.VoiceStateUpdate`).
