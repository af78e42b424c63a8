/** The scoring functions and the bucket classifiers of the connector. `Math.round(x)` on the
    weighted sums is `floor(x + 1/2)`; with every weight a multiple of 1/20 (activity) or 1/4
    (audio/video), the sums are kept as exact scaled integers. */
module Scoring {
  import opened Wrappers
  import opened Schema

  const ONE_MINUTE_IN_S := 60
  const ONE_HOUR_IN_S := ONE_MINUTE_IN_S * 60
  const ONE_S_IN_MS := 1000

  datatype FrequencyBucket = VeryHigh | High | Middle | Low
  datatype LengthBucket = VeryShort | Short | Middle | Long

  /** The tally a frequency histogram holds for one bucket. */
  function FrequencyCount(f: FrequencyCounts, b: FrequencyBucket): nat {
    match b
    case VeryHigh => f.veryHigh
    case High => f.high
    case Middle => f.middle
    case Low => f.low
  }

  function FrequencyTotal(f: FrequencyCounts): nat {
    f.veryHigh + f.high + f.middle + f.low
  }

  /** `frequencyCounts[b] += 1`. */
  function TallyFrequency(f: FrequencyCounts, b: FrequencyBucket): (r: FrequencyCounts)
    ensures FrequencyCount(r, b) == FrequencyCount(f, b) + 1
    ensures FrequencyLe(f, r)
  {
    match b
    case VeryHigh => f.(veryHigh := f.veryHigh + 1)
    case High => f.(high := f.high + 1)
    case Middle => f.(middle := f.middle + 1)
    case Low => f.(low := f.low + 1)
  }

  /** A tally adds exactly one message to the histogram and leaves every other slot as it was. */
  lemma TallyFrequencyOtherSlots(f: FrequencyCounts, b: FrequencyBucket)
    ensures FrequencyTotal(TallyFrequency(f, b)) == FrequencyTotal(f) + 1
    ensures forall c :: c != b ==> FrequencyCount(TallyFrequency(f, b), c) == FrequencyCount(f, c)
  {
  }

  /** The tally a message-length histogram holds for one bucket. */
  function LengthCount(l: MessageLengthCounts, b: LengthBucket): nat {
    match b
    case VeryShort => l.veryShort
    case Short => l.short
    case Middle => l.middle
    case Long => l.long
  }

  function LengthTotal(l: MessageLengthCounts): nat {
    l.veryShort + l.short + l.middle + l.long
  }

  /** `messageLengthCounts[b] += 1`. */
  function TallyLength(l: MessageLengthCounts, b: LengthBucket): (r: MessageLengthCounts)
    ensures LengthCount(r, b) == LengthCount(l, b) + 1
    ensures LengthLe(l, r)
  {
    match b
    case VeryShort => l.(veryShort := l.veryShort + 1)
    case Short => l.(short := l.short + 1)
    case Middle => l.(middle := l.middle + 1)
    case Long => l.(long := l.long + 1)
  }

  /** A tally adds exactly one message to the histogram and leaves every other slot as it was. */
  lemma TallyLengthOtherSlots(l: MessageLengthCounts, b: LengthBucket)
    ensures LengthTotal(TallyLength(l, b)) == LengthTotal(l) + 1
    ensures forall c :: c != b ==> LengthCount(TallyLength(l, b), c) == LengthCount(l, c)
  {
  }

  /** Twenty times the weighted activity sum: weights 3, 2, 1 and 0.5 on the message, reply,
      reaction and mentioned counters, 1, 0.5, 0.2 and 0.05 on the frequency buckets
      veryHigh to low, 0.05, 0.2, 0.5 and 1 on the length buckets veryShort to long. */
  function WeightedSum20(m: nat, r: nat, re: nat, me: nat, f: FrequencyCounts, l: MessageLengthCounts): nat {
    60 * m + 40 * r + 20 * re + 10 * me
    + 20 * f.veryHigh + 10 * f.high + 4 * f.middle + f.low
    + l.veryShort + 4 * l.short + 10 * l.middle + 20 * l.long
  }

  /** calculateActivityScore: the weighted sum rounded to the nearest integer, halves upwards.
      Missing counters count as 0 and missing histograms as all-zero, so partial records
      never make it fail. */
  function ActivityScore(
    messageCount: Option<nat>, replyCount: Option<nat>, reactionCount: Option<nat>, mentionedCount: Option<nat>,
    frequencyCounts: Option<FrequencyCounts>, messageLengthCounts: Option<MessageLengthCounts>): (score: nat)
    ensures var s := WeightedSum20(messageCount.GetOr(0), replyCount.GetOr(0), reactionCount.GetOr(0),
                                  mentionedCount.GetOr(0), frequencyCounts.GetOr(ZeroFrequency),
                                  messageLengthCounts.GetOr(ZeroLength));
            20 * score <= s + 10 < 20 * score + 20
  {
    var s := WeightedSum20(messageCount.GetOr(0), replyCount.GetOr(0), reactionCount.GetOr(0),
                           mentionedCount.GetOr(0), frequencyCounts.GetOr(ZeroFrequency),
                           messageLengthCounts.GetOr(ZeroLength));
    (s + 10) / 20
  }

  /** Four times the weighted audio/video sum: 3 per screencast minute, 2 per video minute,
      1 per microphone minute and 0.25 per voice-channel minute. */
  function AudioVideoSum4(av: AudioVideoActivities): int {
    12 * av.totalTimeWithScreencast + 8 * av.totalTimeWithVideo
    + 4 * av.totalTimeWithMicrophone + av.totalTimeInVoiceChannel
  }

  /** calculateAudioVideoScore: 0 without an aggregate, else the weighted sum rounded to the
      nearest integer, halves upwards. */
  function AudioVideoScore(av: Option<AudioVideoActivities>): (score: int)
    ensures av.None? ==> score == 0
    ensures av.Some? ==> 4 * score <= AudioVideoSum4(av.value) + 2 < 4 * score + 4
  {
    if av.None? then 0 else (AudioVideoSum4(av.value) + 2) / 4
  }

  /** `Math.round((now - start) / (ONE_S_IN_MS * ONE_MINUTE_IN_S))`: elapsed whole minutes,
      rounded to nearest, halves upwards. */
  function ElapsedMinutes(now: nat, start: nat): (minutes: int)
    ensures 120000 * minutes <= 2 * (now - start) + 60000 < 120000 * minutes + 120000
  {
    var msPerMinute := ONE_S_IN_MS * ONE_MINUTE_IN_S;
    (2 * (now - start) + msPerMinute) / (2 * msPerMinute)
  }

  /** getFrequencyCountType. The thresholds are 12, 24 and 48 hours counted in SECONDS
      (43200, 86400, 172800), compared with a gap of Date.now() values, which are
      milliseconds. */
  function FrequencyCountType(lastUpdate: nat, now: nat): (b: FrequencyBucket)
    ensures lastUpdate == 0 ==> b == VeryHigh
    ensures lastUpdate != 0 ==>
      && (b == VeryHigh <==> now - lastUpdate < 43200)
      && (b == High <==> 43200 <= now - lastUpdate < 86400)
      && (b == FrequencyBucket.Middle <==> 86400 <= now - lastUpdate < 172800)
      && (b == Low <==> 172800 <= now - lastUpdate)
  {
    if lastUpdate == 0 then VeryHigh
    else
      var timeSpan := now - lastUpdate;
      if timeSpan < 12 * ONE_HOUR_IN_S then VeryHigh
      else if timeSpan < 24 * ONE_HOUR_IN_S then High
      else if timeSpan < 48 * ONE_HOUR_IN_S then FrequencyBucket.Middle
      else Low
  }

  /** getMessageLengthType: half-open buckets below 50, 150 and 300 characters. */
  function MessageLengthType(messageLength: int): (b: LengthBucket)
    ensures b == VeryShort <==> messageLength < 50
    ensures b == Short <==> 50 <= messageLength < 150
    ensures b == LengthBucket.Middle <==> 150 <= messageLength < 300
    ensures b == Long <==> 300 <= messageLength
  {
    if messageLength < 50 then VeryShort
    else if messageLength < 150 then Short
    else if messageLength < 300 then LengthBucket.Middle
    else Long
  }

  /** A brand-new record's first tally: the gap from `now` to itself is below every
      threshold, so the message counts as very high frequency. */
  lemma FirstTally(now: nat)
    ensures TallyFrequency(ZeroFrequency, FrequencyCountType(now, now)) == FrequencyCounts(1, 0, 0, 0)
  {
  }

  /** Each histogram slot of `f` is at most the same slot of `g`. */
  predicate FrequencyLe(f: FrequencyCounts, g: FrequencyCounts) {
    f.veryHigh <= g.veryHigh && f.high <= g.high && f.middle <= g.middle && f.low <= g.low
  }

  predicate LengthLe(f: MessageLengthCounts, g: MessageLengthCounts) {
    f.veryShort <= g.veryShort && f.short <= g.short && f.middle <= g.middle && f.long <= g.long
  }

  /** The activity score is monotone in every counter and every histogram slot. */
  lemma ActivityScoreMonotone(
    m: nat, r: nat, re: nat, me: nat, f: FrequencyCounts, l: MessageLengthCounts,
    m': nat, r': nat, re': nat, me': nat, f': FrequencyCounts, l': MessageLengthCounts)
    requires m <= m' && r <= r' && re <= re' && me <= me' && FrequencyLe(f, f') && LengthLe(l, l')
    ensures ActivityScore(Some(m), Some(r), Some(re), Some(me), Some(f), Some(l))
         <= ActivityScore(Some(m'), Some(r'), Some(re'), Some(me'), Some(f'), Some(l'))
  {
    var s := WeightedSum20(m, r, re, me, f, l);
    var s' := WeightedSum20(m', r', re', me', f', l');
    assert s <= s';
  }

  /** Adding to the message, reply, reaction and mentioned counters and to the histograms
      raises the score by at least the whole-number weights of the first three increments. */
  lemma ActivityScoreGrowth(
    m: nat, r: nat, re: nat, me: nat, f: FrequencyCounts, l: MessageLengthCounts,
    dm: nat, dr: nat, dre: nat, dme: nat, f': FrequencyCounts, l': MessageLengthCounts)
    requires FrequencyLe(f, f') && LengthLe(l, l')
    ensures ActivityScore(Some(m + dm), Some(r + dr), Some(re + dre), Some(me + dme), Some(f'), Some(l'))
         >= ActivityScore(Some(m), Some(r), Some(re), Some(me), Some(f), Some(l)) + 3 * dm + 2 * dr + dre
  {
    var s := WeightedSum20(m, r, re, me, f, l);
    var s' := WeightedSum20(m + dm, r + dr, re + dre, me + dme, f', l');
    assert s' >= s + 20 * (3 * dm + 2 * dr + dre);
  }

  /** A missing counter or histogram scores exactly like a zero one. */
  lemma ActivityScoreDefaults(m: nat, r: nat, re: nat, me: nat, f: FrequencyCounts, l: MessageLengthCounts)
    ensures ActivityScore(None, None, None, None, None, None) == 0
    ensures ActivityScore(Some(m), Some(r), Some(re), None, None, None)
         == ActivityScore(Some(m), Some(r), Some(re), Some(0), Some(ZeroFrequency), Some(ZeroLength))
  {
  }

  /** Every audio/video total below or equal to another's gives a score below or equal. */
  lemma AudioVideoScoreMonotone(a: AudioVideoActivities, b: AudioVideoActivities)
    requires a.totalTimeInVoiceChannel <= b.totalTimeInVoiceChannel
    requires a.totalTimeWithMicrophone <= b.totalTimeWithMicrophone
    requires a.totalTimeWithVideo <= b.totalTimeWithVideo
    requires a.totalTimeWithScreencast <= b.totalTimeWithScreencast
    ensures AudioVideoScore(Some(a)) <= AudioVideoScore(Some(b))
  {
    assert AudioVideoSum4(a) <= AudioVideoSum4(b);
  }

  /** The audio/video score only reads the four totals, not the start timestamps. */
  lemma AudioVideoScoreIgnoresStarts(a: AudioVideoActivities, b: AudioVideoActivities)
    requires a.totalTimeInVoiceChannel == b.totalTimeInVoiceChannel
    requires a.totalTimeWithMicrophone == b.totalTimeWithMicrophone
    requires a.totalTimeWithVideo == b.totalTimeWithVideo
    requires a.totalTimeWithScreencast == b.totalTimeWithScreencast
    ensures AudioVideoScore(Some(a)) == AudioVideoScore(Some(b))
  {
    assert AudioVideoSum4(a) == AudioVideoSum4(b);
  }

  /** An aggregate whose four totals are zero (a zero-initialised one, say) scores like an
      absent one. */
  lemma ZeroTotalsScore(a: AudioVideoActivities)
    requires a.totalTimeInVoiceChannel == a.totalTimeWithMicrophone == 0
    requires a.totalTimeWithVideo == a.totalTimeWithScreencast == 0
    ensures AudioVideoScore(Some(a)) == AudioVideoScore(None) == 0
  {
    assert AudioVideoSum4(a) == 0;
  }

  /** The score of a brand-new record made from one 40-character message is
      round(3 + 1 + 0.05) = 4. */
  lemma FortyCharacterMessageScore()
    ensures ActivityScore(Some(1), Some(0), Some(0), Some(0),
                          Some(TallyFrequency(ZeroFrequency, FrequencyCountType(1, 1))),
                          Some(TallyLength(ZeroLength, MessageLengthType(40)))) == 4
  {
    assert FrequencyCountType(1, 1) == VeryHigh;
    assert MessageLengthType(40) == VeryShort;
    var f := TallyFrequency(ZeroFrequency, VeryHigh);
    var l := TallyLength(ZeroLength, VeryShort);
    assert f == FrequencyCounts(1, 0, 0, 0);
    assert l == MessageLengthCounts(1, 0, 0, 0);
    assert WeightedSum20(1, 0, 0, 0, f, l) == 81;
  }
}
