/** The event rules of the bot process, over plain values: which repository calls a voice-state
    change, a message or a reaction leads to, the gate every event passes first, the role check
    on commands, the running/paused switch and the text of the exclusion lists. */
module Bot {
  import opened Wrappers
  import opened Schema

  // ---------------------------------------------------------------------------------------
  // Voice-state edges
  // ---------------------------------------------------------------------------------------

  /** The parts of a voice state the rules read: the id of the channel the user is in, if
      any, and the self-mute, self-video and streaming flags. */
  datatype VoiceState = VoiceState(channel: Option<string>, selfMute: bool, selfVideo: bool, streaming: bool)
  {
    /** `state.channel` is set. */
    predicate InChannel() {
      channel.Some?
    }
  }

  /** A call of startAudioVideoSession or endAudioVideoSession. */
  datatype SessionCall = Start(kind: SessionKind) | End(kind: SessionKind)

  function ScreencastCalls(before: VoiceState, after: VoiceState): (r: seq<SessionCall>)
    ensures forall c :: c in r ==> c.kind == Screencast
    ensures |r| <= 1
    ensures Start(Screencast) in r <==> !before.streaming && after.streaming
    ensures End(Screencast) in r <==> before.streaming && !after.streaming
  {
    if !before.streaming && after.streaming then [Start(Screencast)]
    else if before.streaming && !after.streaming then [End(Screencast)]
    else []
  }

  function VideoCalls(before: VoiceState, after: VoiceState): (r: seq<SessionCall>)
    ensures forall c :: c in r ==> c.kind == Video
    ensures |r| <= 1
    ensures Start(Video) in r <==> !before.selfVideo && after.selfVideo
    ensures End(Video) in r <==> before.selfVideo && !after.selfVideo
  {
    if !before.selfVideo && after.selfVideo then [Start(Video)]
    else if before.selfVideo && !after.selfVideo then [End(Video)]
    else []
  }

  /** The microphone is on when the user is NOT self-muted. */
  function MicrophoneCalls(before: VoiceState, after: VoiceState): (r: seq<SessionCall>)
    ensures forall c :: c in r ==> c.kind == Microphone
    ensures |r| <= 1
    ensures Start(Microphone) in r <==> before.selfMute && !after.selfMute
    ensures End(Microphone) in r <==> !before.selfMute && after.selfMute
  {
    if before.selfMute && !after.selfMute then [Start(Microphone)]
    else if !before.selfMute && after.selfMute then [End(Microphone)]
    else []
  }

  /** Joining also starts the microphone when unmuted; leaving also ends it when the user
      was unmuted. */
  function ChannelCalls(before: VoiceState, after: VoiceState): (r: seq<SessionCall>)
    ensures forall c :: c in r ==> c.kind == VoiceChannel || c.kind == Microphone
    ensures |r| <= 2 && (|r| == 2 ==> r[0] != r[1])
    ensures Start(VoiceChannel) in r <==> !before.InChannel() && after.InChannel()
    ensures End(VoiceChannel) in r <==> before.InChannel() && !after.InChannel()
    ensures Start(Microphone) in r <==> !before.InChannel() && after.InChannel() && !after.selfMute
    ensures End(Microphone) in r <==> before.InChannel() && !after.InChannel() && !before.selfMute
  {
    if !before.InChannel() && after.InChannel() then
      [Start(VoiceChannel)] + (if !after.selfMute then [Start(Microphone)] else [])
    else if before.InChannel() && !after.InChannel() then
      [End(VoiceChannel)] + (if !before.selfMute then [End(Microphone)] else [])
    else []
  }

  /** The session calls of one voiceStateUpdate, in the order the handler issues them. */
  function VoiceSessionCalls(before: VoiceState, after: VoiceState): (calls: seq<SessionCall>)
    ensures Start(Screencast) in calls <==> !before.streaming && after.streaming
    ensures End(Screencast) in calls <==> before.streaming && !after.streaming
    ensures Start(Video) in calls <==> !before.selfVideo && after.selfVideo
    ensures End(Video) in calls <==> before.selfVideo && !after.selfVideo
    ensures Start(Microphone) in calls <==>
      (before.selfMute && !after.selfMute) || (!before.InChannel() && after.InChannel() && !after.selfMute)
    ensures End(Microphone) in calls <==>
      (!before.selfMute && after.selfMute) || (before.InChannel() && !after.InChannel() && !before.selfMute)
    ensures Start(VoiceChannel) in calls <==> !before.InChannel() && after.InChannel()
    ensures End(VoiceChannel) in calls <==> before.InChannel() && !after.InChannel()
    ensures forall k :: !(Start(k) in calls && End(k) in calls)
    ensures before == after ==> calls == []
  {
    var a := ScreencastCalls(before, after);
    var b := VideoCalls(before, after);
    var c := MicrophoneCalls(before, after);
    var d := ChannelCalls(before, after);
    var calls := a + b + c + d;
    assert forall x :: x in calls <==> x in a || x in b || x in c || x in d;
    calls
  }

  /** The microphone is started once by an unmute and once more by a join while unmuted. */
  lemma MicrophoneStartCount(before: VoiceState, after: VoiceState)
    ensures multiset(VoiceSessionCalls(before, after))[Start(Microphone)] ==
      (if before.selfMute && !after.selfMute then 1 else 0)
      + (if !before.InChannel() && after.InChannel() && !after.selfMute then 1 else 0)
  {
    CallCount(before, after, Start(Microphone));
  }

  /** The microphone is ended once by a mute and once more by a leave while unmuted. */
  lemma MicrophoneEndCount(before: VoiceState, after: VoiceState)
    ensures multiset(VoiceSessionCalls(before, after))[End(Microphone)] ==
      (if !before.selfMute && after.selfMute then 1 else 0)
      + (if before.InChannel() && !after.InChannel() && !before.selfMute then 1 else 0)
  {
    CallCount(before, after, End(Microphone));
  }

  /** Every kind but the microphone is started and ended at most once. */
  lemma OtherCallsAtMostOnce(before: VoiceState, after: VoiceState, k: SessionKind)
    requires k != Microphone
    ensures multiset(VoiceSessionCalls(before, after))[Start(k)] <= 1
    ensures multiset(VoiceSessionCalls(before, after))[End(k)] <= 1
  {
    CallCount(before, after, Start(k));
    CallCount(before, after, End(k));
  }

  /** A call occurs once for each edge part that issues it. */
  lemma CallCount(before: VoiceState, after: VoiceState, x: SessionCall)
    ensures multiset(VoiceSessionCalls(before, after))[x] ==
      (if x in ScreencastCalls(before, after) then 1 else 0) + (if x in VideoCalls(before, after) then 1 else 0)
      + (if x in MicrophoneCalls(before, after) then 1 else 0) + (if x in ChannelCalls(before, after) then 1 else 0)
  {
    VoiceSessionCallsParts(before, after);
    CountInParts(ScreencastCalls(before, after), VideoCalls(before, after),
                 MicrophoneCalls(before, after), ChannelCalls(before, after), x);
  }

  /** The calls of the four edge parts, joined in source order. */
  lemma VoiceSessionCallsParts(before: VoiceState, after: VoiceState)
    ensures VoiceSessionCalls(before, after) ==
      ScreencastCalls(before, after) + VideoCalls(before, after) + MicrophoneCalls(before, after) + ChannelCalls(before, after)
  {
  }

  /** Counting a call in four short parts joined together. */
  lemma CountInParts(a: seq<SessionCall>, b: seq<SessionCall>, c: seq<SessionCall>, d: seq<SessionCall>, x: SessionCall)
    requires |a| <= 1 && |b| <= 1 && |c| <= 1
    requires |d| <= 2 && (|d| == 2 ==> d[0] != d[1])
    ensures multiset(a + b + c + d)[x] ==
      (if x in a then 1 else 0) + (if x in b then 1 else 0) + (if x in c then 1 else 0) + (if x in d then 1 else 0)
  {
    assert multiset(a + b + c + d) == multiset(a) + multiset(b) + multiset(c) + multiset(d);
    CountInShort(a, x);
    CountInShort(b, x);
    CountInShort(c, x);
    CountInShort(d, x);
  }

  /** In a sequence of at most two different calls, a call occurs once or not at all. */
  lemma CountInShort(s: seq<SessionCall>, x: SessionCall)
    requires |s| <= 2 && (|s| == 2 ==> s[0] != s[1])
    ensures multiset(s)[x] == if x in s then 1 else 0
  {
    if |s| == 2 {
      assert s == [s[0]] + [s[1]];
    } else if |s| == 1 {
      assert s == [s[0]];
    }
  }

  /** voiceStateUpdate: no session call at all unless the gate lets the event through. The
      gate is given the id of the NEW state's channel, so an update that leaves every channel
      is always rejected: leaving never ends the voice-channel session, nor the microphone
      session of a user who leaves unmuted. */
  function VoiceStateUpdate<T>(
    guildRoles: Option<set<string>>, memberRoles: Option<set<string>>, running: bool,
    userLookup: Result<T>, channelLookupResolves: bool, before: VoiceState, after: VoiceState)
    : (calls: seq<SessionCall>)
    ensures !PreconditionsFulfilled(guildRoles, memberRoles, after.channel, running, userLookup, channelLookupResolves)
            ==> calls == []
    ensures PreconditionsFulfilled(guildRoles, memberRoles, after.channel, running, userLookup, channelLookupResolves)
            ==> calls == VoiceSessionCalls(before, after)
    ensures !after.InChannel() ==> calls == []
    ensures End(VoiceChannel) !in calls
    ensures End(Microphone) in calls ==> !before.selfMute && after.selfMute
  {
    var channelId := after.channel;
    if !PreconditionsFulfilled(guildRoles, memberRoles, channelId, running, userLookup, channelLookupResolves) then []
    else VoiceSessionCalls(before, after)
  }

  /** A user who unmutes while staying in the channel gets exactly one microphone start, and
      nothing else happens. */
  lemma UnmuteInChannel(before: VoiceState)
    requires before.InChannel() && before.selfMute
    ensures VoiceSessionCalls(before, before.(selfMute := false)) == [Start(Microphone)]
  {
  }

  // ---------------------------------------------------------------------------------------
  // Message and reaction increments
  // ---------------------------------------------------------------------------------------

  /** A call of updateUserGuildActivities (a mention is one with only the mentioned count). */
  datatype ActivityRequest = ActivityRequest(userId: string, inc: Increments)

  const MentionIncrement := Increments(0, 0, 0, 1, 0)

  /** messageCreate: no request unless the gate lets the message through, with the message's
      channel id and the author's member roles. Then one mention request per mentioned user,
      then the author's request; a message mentioning someone counts as a reply, otherwise as
      a message. */
  function MessageCreateRequests<T>(
    guildRoles: Option<set<string>>, memberRoles: Option<set<string>>, running: bool,
    userLookup: Result<T>, channelLookupResolves: bool, channelId: string,
    authorId: string, mentionedUserIds: seq<string>, contentLength: nat)
    : (r: seq<ActivityRequest>)
    ensures var open := PreconditionsFulfilled(guildRoles, memberRoles, Some(channelId), running, userLookup, channelLookupResolves);
      && (!open ==> r == [])
      && (open ==> |r| == |mentionedUserIds| + 1)
      && (open ==> forall i :: 0 <= i < |mentionedUserIds| ==>
            r[i] == ActivityRequest(mentionedUserIds[i], MentionIncrement))
      && (open ==> var last := r[|mentionedUserIds|];
            && last.userId == authorId
            && last.inc.message + last.inc.reply == 1
            && (last.inc.reply == 1 <==> |mentionedUserIds| > 0)
            && last.inc.reaction == 0 && last.inc.mentioned == 0
            && last.inc.messageLength == contentLength)
  {
    if !PreconditionsFulfilled(guildRoles, memberRoles, Some(channelId), running, userLookup, channelLookupResolves) then []
    else
      var isReply := |mentionedUserIds| != 0;
      var mentionedUsers := if isReply then mentionedUserIds else [];
      var messageIncrement := if isReply then 0 else 1;
      var replyIncrement := if isReply then 1 else 0;
      seq(|mentionedUsers|, i requires 0 <= i < |mentionedUsers| => ActivityRequest(mentionedUsers[i], MentionIncrement))
      + [ActivityRequest(authorId, Increments(messageIncrement, replyIncrement, 0, 0, contentLength))]
  }

  /** messageReactionAdd: the gate is given the roles of the reacting user as found in the
      guild's member cache (`None` when the user is not cached, which closes the gate). An open
      gate gives one reaction for the reacting user and no message length. */
  function ReactionRequests<T>(
    guildRoles: Option<set<string>>, cachedMemberRoles: Option<set<string>>, running: bool,
    userLookup: Result<T>, channelLookupResolves: bool, channelId: string, userId: string)
    : (r: seq<ActivityRequest>)
    ensures var open := PreconditionsFulfilled(guildRoles, cachedMemberRoles, Some(channelId), running, userLookup, channelLookupResolves);
      && (!open ==> r == [])
      && (open ==> r == [ActivityRequest(userId, Increments(0, 0, 1, 0, 0))])
    ensures cachedMemberRoles.None? ==> r == []
  {
    if PreconditionsFulfilled(guildRoles, cachedMemberRoles, Some(channelId), running, userLookup, channelLookupResolves)
    then [ActivityRequest(userId, Increments(0, 0, 1, 0, 0))]
    else []
  }

  // ---------------------------------------------------------------------------------------
  // Roles, the gate and command authorization
  // ---------------------------------------------------------------------------------------

  const GAMER_PASSPORT_PLAYER_ROLE := "Gamer Passport Gamer"
  const GAMER_PASSPORT_ADMIN_ROLE := "Gamer Passport Admin"

  const EXCLUDE_GAMER_COMMAND := "exclude-gamer"
  const INCLUDE_GAMER_COMMAND := "include-gamer"
  const VIEW_EXCLUDED_GAMERS_COMMAND := "view-excluded-gamers"
  const EXCLUDE_CHANNEL_COMMAND := "exclude-channel"
  const INCLUDE_CHANNEL_COMMAND := "include-channel"
  const VIEW_EXCLUDED_CHANNELS_COMMAND := "view-excluded-channels"
  const TOGGLE_ADAPTER_STATUS_COMMAND := "toggle-adapter-status"
  const VIEW_ADAPTER_STATUS_COMMAND := "view-adapter-status"
  const SET_REGISTER_FOR_GAMER_PASSPORT_LINK_COMMAND := "set-register-for-gamer-pp-link"
  const SET_MY_PORTAL_LINK_COMMAND := "set-my-portal-link"
  const SET_CONNECT_ELROND_WALLET_LINK_COMMAND := "set-connect-elrond-wallet-link"
  const VIEW_REGISTER_FOR_GAMER_PASSPORT_LINK_COMMAND := "view-register-for-gamer-pp-link"
  const VIEW_MY_PORTAL_LINK_COMMAND := "view-my-portal-link"
  const VIEW_CONNECT_ELROND_WALLET_LINK_COMMAND := "view-connect-elrond-wallet-link"
  const REGISTER_FOR_GAMER_PASSPORT_COMMAND := "register-for-gamer-passport"
  const MY_PORTAL_COMMAND := "my-portal"
  const CONNECT_ELROND_WALLET_COMMAND := "connect-elrond-wallet"

  const ADMIN_COMMANDS: seq<string> := [
    EXCLUDE_GAMER_COMMAND, INCLUDE_GAMER_COMMAND, VIEW_EXCLUDED_GAMERS_COMMAND, EXCLUDE_CHANNEL_COMMAND,
    INCLUDE_CHANNEL_COMMAND, VIEW_EXCLUDED_CHANNELS_COMMAND, TOGGLE_ADAPTER_STATUS_COMMAND, VIEW_ADAPTER_STATUS_COMMAND,
    SET_REGISTER_FOR_GAMER_PASSPORT_LINK_COMMAND, SET_MY_PORTAL_LINK_COMMAND, SET_CONNECT_ELROND_WALLET_LINK_COMMAND,
    VIEW_REGISTER_FOR_GAMER_PASSPORT_LINK_COMMAND, VIEW_MY_PORTAL_LINK_COMMAND, VIEW_CONNECT_ELROND_WALLET_LINK_COMMAND]

  const GAMER_PASSPORT_COMMANDS: seq<string> := [
    REGISTER_FOR_GAMER_PASSPORT_COMMAND, MY_PORTAL_COMMAND, CONNECT_ELROND_WALLET_COMMAND]

  /** guildOrGuildMemberHasGamerPassportPlayerRole over the role names of a guild or member
      (None for a missing one, which has no role). */
  predicate HasPlayerRole(roles: Option<set<string>>) {
    roles.Some? && GAMER_PASSPORT_PLAYER_ROLE in roles.value
  }

  /** guildMemberHasGamerPassportAdminRole. */
  predicate HasAdminRole(roles: Option<set<string>>) {
    roles.Some? && GAMER_PASSPORT_ADMIN_ROLE in roles.value
  }

  /** `!x` on an optional string: absent or empty. */
  predicate Falsy(s: Option<string>) {
    s.None? || s.value == ""
  }

  /** preconditionsFulfilled. The checks run in order and the first failing one decides;
      the two lookups count as "excluded" when they resolve (do not throw). The user lookup
      is given as its result, the channel lookup, defined outside these files, as a flag. */
  function PreconditionsFulfilled<T>(
    guildRoles: Option<set<string>>, memberRoles: Option<set<string>>, channelId: Option<string>, running: bool,
    userLookup: Result<T>, channelLookupResolves: bool): (ok: bool)
    ensures ok <==>
      && guildRoles.Some? && memberRoles.Some? && !Falsy(channelId) && running
      && (HasPlayerRole(guildRoles) ==> HasPlayerRole(memberRoles))
      && userLookup.Failure? && !channelLookupResolves
  {
    if guildRoles.None? then false
    else if memberRoles.None? then false
    else if Falsy(channelId) then false
    else if !running then false
    else if HasPlayerRole(guildRoles) && !HasPlayerRole(memberRoles) then false
    else if userLookup.Success? then false
    else if channelLookupResolves then false
    else true
  }

  /** The role check of interactionCreate: admin commands need the admin role, passport
      commands the player role, every other command passes. */
  function CommandAuthorized(commandName: string, memberRoles: Option<set<string>>): (ok: bool)
    ensures commandName in ADMIN_COMMANDS ==> (ok <==> HasAdminRole(memberRoles))
    ensures commandName in GAMER_PASSPORT_COMMANDS ==> (ok <==> HasPlayerRole(memberRoles))
    ensures commandName !in ADMIN_COMMANDS && commandName !in GAMER_PASSPORT_COMMANDS ==> ok
  {
    if commandName in ADMIN_COMMANDS then HasAdminRole(memberRoles)
    else if commandName in GAMER_PASSPORT_COMMANDS then HasPlayerRole(memberRoles)
    else true
  }

  /** The two command lists share no name, so no command needs both roles. */
  lemma CommandListsDisjoint()
    ensures forall c :: c in ADMIN_COMMANDS ==> c !in GAMER_PASSPORT_COMMANDS
  {
    forall c | c in ADMIN_COMMANDS ensures c !in GAMER_PASSPORT_COMMANDS {
      assert |c| != |MY_PORTAL_COMMAND| || c != MY_PORTAL_COMMAND;
    }
  }

  // ---------------------------------------------------------------------------------------
  // The running/paused switch
  // ---------------------------------------------------------------------------------------

  /** The word the replies use for the mode; the two modes get different words, so a reply
      tells the admin which mode the adapter is in. */
  function StatusWord(running: bool): (word: string)
    ensures word == "running" || word == "paused"
    ensures word == "running" <==> running
  {
    if running then "running" else "paused"
  }

  /** The module-level `adapterIsRunning` flag and the two commands on it. */
  class Adapter {
    var running: bool

    constructor ()
      ensures running
    {
      running := true;
    }

    /** toggle-adapter-status: flip the flag and reply with the new mode. */
    method Toggle() returns (reply: string)
      modifies this
      ensures running == !old(running)
      ensures reply == "adapter mode changed to " + StatusWord(running)
    {
      running := !running;
      reply := "adapter mode changed to " + StatusWord(running);
    }

    /** view-adapter-status: reply with the mode; the flag is read only. */
    method ViewStatus() returns (reply: string)
      ensures reply == "adapter is currently " + StatusWord(running)
    {
      reply := "adapter is currently " + StatusWord(running);
    }
  }

  /** Two toggles restore the mode, and viewing changes nothing. */
  method ToggleTwice(a: Adapter) returns (first: string, status: string, second: string)
    modifies a
    ensures a.running == old(a.running)
    ensures first == "adapter mode changed to " + StatusWord(!old(a.running))
    ensures status == "adapter is currently " + StatusWord(!old(a.running))
    ensures second == "adapter mode changed to " + StatusWord(old(a.running))
  {
    first := a.Toggle();
    status := a.ViewStatus();
    second := a.Toggle();
  }

  // ---------------------------------------------------------------------------------------
  // Exclusion list text
  // ---------------------------------------------------------------------------------------

  /** The channel exclusion record, whose definition is not part of this model; by analogy
      with the user exclusion record. */
  datatype ExcludedChannelGuildEntry = ExcludedChannelGuildEntry(id: string, channelId: string, guildId: string, date: string)

  function Line(key: string, date: string): string {
    key + " - " + date + "\n"
  }

  /** The lines of a list of (key, date) rows, in input order. */
  function Lines(rows: seq<(string, string)>): string {
    if rows == [] then "" else Lines(rows[..|rows| - 1]) + Line(rows[|rows| - 1].0, rows[|rows| - 1].1)
  }

  /** The shared loop of the two formatters: "no results" for no rows, else the header line
      followed by one line per row. */
  method FormatRows(header: string, rows: seq<(string, string)>) returns (result: string)
    ensures rows == [] ==> result == "no results"
    ensures rows != [] ==> result == header + "\n" + Lines(rows)
  {
    if |rows| == 0 {
      return "no results";
    }
    result := header + "\n";
    for i := 0 to |rows|
      invariant result == header + "\n" + Lines(rows[..i])
    {
      assert rows[..i + 1][..i] == rows[..i];
      result := result + Line(rows[i].0, rows[i].1);
    }
    assert rows[..|rows|] == rows;
  }

  function UserRows(entries: seq<ExcludedUserGuildEntry>): (rows: seq<(string, string)>)
    ensures |rows| == |entries|
    ensures forall i :: 0 <= i < |entries| ==> rows[i] == (entries[i].userId, entries[i].date)
  {
    seq(|entries|, i requires 0 <= i < |entries| => (entries[i].userId, entries[i].date))
  }

  function ChannelRows(entries: seq<ExcludedChannelGuildEntry>): (rows: seq<(string, string)>)
    ensures |rows| == |entries|
    ensures forall i :: 0 <= i < |entries| ==> rows[i] == (entries[i].channelId, entries[i].date)
  {
    seq(|entries|, i requires 0 <= i < |entries| => (entries[i].channelId, entries[i].date))
  }

  /** formatExcludedUserGuild. */
  method FormatExcludedUserGuild(entries: seq<ExcludedUserGuildEntry>) returns (result: string)
    ensures entries == [] ==> result == "no results"
    ensures entries != [] ==> result == "userId - date\n" + Lines(UserRows(entries))
  {
    result := FormatRows("userId - date", UserRows(entries));
  }

  /** formatExcludedChannelGuild. */
  method FormatExcludedChannelGuild(entries: seq<ExcludedChannelGuildEntry>) returns (result: string)
    ensures entries == [] ==> result == "no results"
    ensures entries != [] ==> result == "channelId - date\n" + Lines(ChannelRows(entries))
  {
    result := FormatRows("channelId - date", ChannelRows(entries));
  }

  predicate NoNewline(s: string) {
    '\n' !in s
  }

  /** Rows without line breaks give exactly one line break per row. */
  lemma {:induction false} LinesNewlines(rows: seq<(string, string)>)
    requires forall i :: 0 <= i < |rows| ==> NoNewline(rows[i].0) && NoNewline(rows[i].1)
    ensures multiset(Lines(rows))['\n'] == |rows|
  {
    if rows != [] {
      var last := rows[|rows| - 1];
      LinesNewlines(rows[..|rows| - 1]);
      assert multiset(Line(last.0, last.1))['\n'] == 1 by {
        assert Line(last.0, last.1) == last.0 + " - " + last.1 + "\n";
        assert multiset(" - ")['\n'] == 0;
      }
    }
  }

  /** A formatted non-empty list with line-break-free header, keys and dates has one more
      line than rows: the header and one line per row. */
  lemma FormattedLineCount(header: string, rows: seq<(string, string)>)
    requires NoNewline(header)
    requires forall i :: 0 <= i < |rows| ==> NoNewline(rows[i].0) && NoNewline(rows[i].1)
    ensures multiset(header + "\n" + Lines(rows))['\n'] == |rows| + 1
  {
    LinesNewlines(rows);
    assert multiset(header)['\n'] == 0;
  }
}
