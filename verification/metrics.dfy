/** The recording rules of src/utils/metrics.ts over an abstract Prometheus
    registry: counters are maps from label tuples to counts (an absent key
    reads as zero), gauges a map from gauge to value, and the downloader
    histogram the sequence of its observations. Durations are whole
    milliseconds and the clock is a parameter. */
module Metrics {
  import opened Wrappers

  /** The three gauges of the module. */
  datatype Gauge = ActiveConnections | GuildsTotal | UptimeSeconds

  /** The registry state the tracking functions touch. */
  datatype Recorder = Recorder(
    messages: map<(string, string, string), nat>,        // guild, channel, has_link
    linkDetections: map<(string, string), nat>,          // provider, supported
    downloaderRequests: map<string, nat>,                // status
    responseTimes: seq<int>,                             // histogram observations
    gauges: map<Gauge, int>,
    botReadyEvents: nat,
    apiErrors: map<(string, string), nat>)               // endpoint, error_type

  /** A freshly created registry. */
  const Fresh := Recorder(map[], map[], map[], [], map[], 0, map[])

  /** The value a counter reports for a label tuple. */
  function Count<K>(m: map<K, nat>, k: K): nat {
    if k in m then m[k] else 0
  }

  /** `counter.labels(...k).inc()`. */
  function Inc<K(!new)>(m: map<K, nat>, k: K): (m': map<K, nat>)
    ensures Count(m', k) == Count(m, k) + 1
    ensures forall j :: j != k ==> Count(m', j) == Count(m, j)
  {
    m[k := Count(m, k) + 1]
  }

  /** A gauge reads 0 until it is first set. */
  function GaugeValue(r: Recorder, g: Gauge): int {
    if g in r.gauges then r.gauges[g] else 0
  }

  /** `b.toString()` for a boolean label. */
  function BoolLabel(b: bool): string {
    if b then "true" else "false"
  }

  /** `trackMessage(guild, channel, hasLink)`. */
  function TrackMessage(r: Recorder, guild: string, channel: string, hasLink: bool): (r': Recorder)
    ensures Count(r'.messages, (guild, channel, BoolLabel(hasLink))) == Count(r.messages, (guild, channel, BoolLabel(hasLink))) + 1
    ensures forall k :: k != (guild, channel, BoolLabel(hasLink)) ==> Count(r'.messages, k) == Count(r.messages, k)
    ensures r' == r.(messages := r'.messages)
  {
    r.(messages := Inc(r.messages, (guild, channel, BoolLabel(hasLink))))
  }

  /** A message with a link and one without, from the same guild and channel,
      are counted on two different series, one count each. */
  lemma LinkFlagSeparatesSeries(r: Recorder, guild: string, channel: string)
    ensures var r' := TrackMessage(TrackMessage(r, guild, channel, true), guild, channel, false);
      Count(r'.messages, (guild, channel, "true")) == Count(r.messages, (guild, channel, "true")) + 1
      && Count(r'.messages, (guild, channel, "false")) == Count(r.messages, (guild, channel, "false")) + 1
  {
  }

  /** `trackLinkDetection(provider, supported)`. */
  function TrackLinkDetection(r: Recorder, provider: string, supported: bool): (r': Recorder)
    ensures Count(r'.linkDetections, (provider, BoolLabel(supported))) == Count(r.linkDetections, (provider, BoolLabel(supported))) + 1
    ensures forall k :: k != (provider, BoolLabel(supported)) ==> Count(r'.linkDetections, k) == Count(r.linkDetections, k)
    ensures r' == r.(linkDetections := r'.linkDetections)
  {
    r.(linkDetections := Inc(r.linkDetections, (provider, BoolLabel(supported))))
  }

  /** `trackDownloaderRequest(status, responseTime?)`: the test is
      `!== undefined`, so a response time of 0 is observed too. */
  function TrackDownloaderRequest(r: Recorder, status: string, responseTime: Option<int>): (r': Recorder)
    ensures Count(r'.downloaderRequests, status) == Count(r.downloaderRequests, status) + 1
    ensures forall k :: k != status ==> Count(r'.downloaderRequests, k) == Count(r.downloaderRequests, k)
    ensures responseTime.None? ==> r'.responseTimes == r.responseTimes
    ensures responseTime.Some? ==> r'.responseTimes == r.responseTimes + [responseTime.value]
    ensures r' == r.(downloaderRequests := r'.downloaderRequests, responseTimes := r'.responseTimes)
  {
    var observed := if responseTime.Some? then r.responseTimes + [responseTime.value] else r.responseTimes;
    r.(downloaderRequests := Inc(r.downloaderRequests, status), responseTimes := observed)
  }

  /** `trackApiError(endpoint, errorType)`. */
  function TrackApiError(r: Recorder, endpoint: string, errorType: string): (r': Recorder)
    ensures Count(r'.apiErrors, (endpoint, errorType)) == Count(r.apiErrors, (endpoint, errorType)) + 1
    ensures forall k :: k != (endpoint, errorType) ==> Count(r'.apiErrors, k) == Count(r.apiErrors, k)
    ensures r' == r.(apiErrors := r'.apiErrors)
  {
    r.(apiErrors := Inc(r.apiErrors, (endpoint, errorType)))
  }

  /** `gauge.set(value)`. */
  function SetGauge(r: Recorder, g: Gauge, value: int): (r': Recorder)
    ensures GaugeValue(r', g) == value
    ensures forall h :: h != g ==> GaugeValue(r', h) == GaugeValue(r, h)
    ensures r' == r.(gauges := r'.gauges)
  {
    r.(gauges := r.gauges[g := value])
  }

  /** `updateGuildCount(count)`. */
  function UpdateGuildCount(r: Recorder, count: int): (r': Recorder)
    ensures GaugeValue(r', GuildsTotal) == count
    ensures forall h :: h != GuildsTotal ==> GaugeValue(r', h) == GaugeValue(r, h)
    ensures r' == r.(gauges := r'.gauges)
  {
    SetGauge(r, GuildsTotal, count)
  }

  /** `updateActiveConnections(count)`. */
  function UpdateActiveConnections(r: Recorder, count: int): (r': Recorder)
    ensures GaugeValue(r', ActiveConnections) == count
    ensures forall h :: h != ActiveConnections ==> GaugeValue(r', h) == GaugeValue(r, h)
    ensures r' == r.(gauges := r'.gauges)
  {
    SetGauge(r, ActiveConnections, count)
  }

  /** `incrementBotReady()`. */
  function IncrementBotReady(r: Recorder): (r': Recorder)
    ensures r'.botReadyEvents == r.botReadyEvents + 1
    ensures r' == r.(botReadyEvents := r'.botReadyEvents)
  {
    r.(botReadyEvents := r.botReadyEvents + 1)
  }

  /** Setting a gauge twice leaves the second value: the first write is lost,
      and repeating a write changes nothing. */
  lemma GaugeLastWriteWins(r: Recorder, a: int, b: int)
    ensures UpdateGuildCount(UpdateGuildCount(r, a), b) == UpdateGuildCount(r, b)
    ensures UpdateActiveConnections(UpdateActiveConnections(r, a), b) == UpdateActiveConnections(r, b)
    ensures UpdateGuildCount(UpdateGuildCount(r, a), a) == UpdateGuildCount(r, a)
    ensures UpdateActiveConnections(UpdateActiveConnections(r, a), a) == UpdateActiveConnections(r, a)
  {
  }

  /** A request context: its start time and the labels it was built with. */
  datatype Context = Context(startTime: int, labels: map<string, string>)

  /** `new MetricsContext(labels)` at clock reading `now`. */
  function NewContext(labels: map<string, string>, now: int): Context {
    Context(now, labels)
  }

  /** `finish(status)` at clock reading `now`: one downloader request counted
      under `status` and one observation of the time elapsed since the
      context was made. */
  function Finish(c: Context, status: string, now: int, r: Recorder): (r': Recorder)
    ensures Count(r'.downloaderRequests, status) == Count(r.downloaderRequests, status) + 1
    ensures forall k :: k != status ==> Count(r'.downloaderRequests, k) == Count(r.downloaderRequests, k)
    ensures r'.responseTimes == r.responseTimes + [now - c.startTime]
    ensures r' == r.(downloaderRequests := r'.downloaderRequests, responseTimes := r'.responseTimes)
  {
    TrackDownloaderRequest(r, status, Some(now - c.startTime))
  }

  /** A context made at clock reading `t0` and finished at `t1` observes
      exactly the time in between, whatever labels it was given. */
  lemma ContextMeasuresElapsed(labels: map<string, string>, t0: int, status: string, t1: int, r: Recorder)
    ensures Finish(NewContext(labels, t0), status, t1, r).responseTimes == r.responseTimes + [t1 - t0]
  {
  }

  /** The labels given to the constructor never affect what is recorded. */
  lemma FinishIgnoresLabels(start: int, a: map<string, string>, b: map<string, string>, status: string, now: int, r: Recorder)
    ensures Finish(NewContext(a, start), status, now, r) == Finish(NewContext(b, start), status, now, r)
  {
  }

  /** Nothing stops a context from being finished twice: both calls are recorded. */
  lemma FinishTwice(c: Context, s1: string, t1: int, s2: string, t2: int, r: Recorder)
    ensures var r' := Finish(c, s2, t2, Finish(c, s1, t1, r));
      r'.responseTimes == r.responseTimes + [t1 - c.startTime, t2 - c.startTime]
      && (s1 == s2 ==> Count(r'.downloaderRequests, s1) == Count(r.downloaderRequests, s1) + 2)
  {
    var r1 := Finish(c, s1, t1, r);
    assert r1.responseTimes + [t2 - c.startTime] == r.responseTimes + [t1 - c.startTime, t2 - c.startTime];
  }

  /** One call of the tracking interface, as a log entry. */
  datatype Call =
    | MessageSeen(guild: string, channel: string, hasLink: bool)
    | LinkDetected(provider: string, supported: bool)
    | DownloaderRequest(status: string, responseTime: Option<int>)
    | ApiError(endpoint: string, errorType: string)
    | GuildCountSet(guilds: int)
    | ActiveConnectionsSet(connections: int)
    | BotReady

  /** Performs one call on the registry. */
  function Apply(r: Recorder, c: Call): Recorder {
    match c
    case MessageSeen(g, ch, b) => TrackMessage(r, g, ch, b)
    case LinkDetected(p, s) => TrackLinkDetection(r, p, s)
    case DownloaderRequest(s, t) => TrackDownloaderRequest(r, s, t)
    case ApiError(e, t) => TrackApiError(r, e, t)
    case GuildCountSet(n) => UpdateGuildCount(r, n)
    case ActiveConnectionsSet(n) => UpdateActiveConnections(r, n)
    case BotReady => IncrementBotReady(r)
  }

  /** Performs a sequence of calls in order. */
  function Replay(r: Recorder, calls: seq<Call>): Recorder
    decreases |calls|
  {
    if calls == [] then r else Apply(Replay(r, calls[..|calls| - 1]), calls[|calls| - 1])
  }

  // The counter label tuple each call increments, if any.

  function MessageKey(c: Call): Option<(string, string, string)> {
    if c.MessageSeen? then Some((c.guild, c.channel, BoolLabel(c.hasLink))) else None
  }

  function DetectionKey(c: Call): Option<(string, string)> {
    if c.LinkDetected? then Some((c.provider, BoolLabel(c.supported))) else None
  }

  function RequestKey(c: Call): Option<string> {
    if c.DownloaderRequest? then Some(c.status) else None
  }

  function ErrorKey(c: Call): Option<(string, string)> {
    if c.ApiError? then Some((c.endpoint, c.errorType)) else None
  }

  /** How many calls of a log increment label tuple `k` of a counter. */
  function Tally<K(==)>(calls: seq<Call>, key: Call -> Option<K>, k: K): nat
    decreases |calls|
  {
    if calls == [] then 0
    else (if key(calls[0]) == Some(k) then 1 else 0) + Tally(calls[1..], key, k)
  }

  /** How many calls of a log are ready events. */
  function ReadyCalls(calls: seq<Call>): nat
    decreases |calls|
  {
    if calls == [] then 0 else (if calls[0].BotReady? then 1 else 0) + ReadyCalls(calls[1..])
  }

  /** The response times a log observes, in call order. */
  function Observations(calls: seq<Call>): seq<int>
    decreases |calls|
  {
    if calls == [] then []
    else
      var here := if calls[0].DownloaderRequest? && calls[0].responseTime.Some? then [calls[0].responseTime.value] else [];
      here + Observations(calls[1..])
  }

  /** The value a call writes to gauge `g`, if it writes it. */
  function Writes(c: Call, g: Gauge): Option<int> {
    match c
    case GuildCountSet(n) => if g == GuildsTotal then Some(n) else None
    case ActiveConnectionsSet(n) => if g == ActiveConnections then Some(n) else None
    case _ => None
  }

  lemma {:induction false} TallySnoc<K>(a: seq<Call>, c: Call, key: Call -> Option<K>, k: K)
    ensures Tally(a + [c], key, k) == Tally(a, key, k) + (if key(c) == Some(k) then 1 else 0)
    decreases |a|
  {
    if a != [] {
      assert (a + [c])[0] == a[0];
      assert (a + [c])[1..] == a[1..] + [c];
      TallySnoc(a[1..], c, key, k);
    } else {
      assert [] + [c] == [c];
    }
  }

  lemma {:induction false} ReadyCallsSnoc(a: seq<Call>, c: Call)
    ensures ReadyCalls(a + [c]) == ReadyCalls(a) + (if c.BotReady? then 1 else 0)
    decreases |a|
  {
    if a != [] {
      assert (a + [c])[0] == a[0];
      assert (a + [c])[1..] == a[1..] + [c];
      ReadyCallsSnoc(a[1..], c);
    } else {
      assert [] + [c] == [c];
    }
  }

  lemma {:induction false} ObservationsSnoc(a: seq<Call>, c: Call)
    ensures Observations(a + [c]) == Observations(a) + Observations([c])
    decreases |a|
  {
    if a != [] {
      assert (a + [c])[0] == a[0];
      assert (a + [c])[1..] == a[1..] + [c];
      ObservationsSnoc(a[1..], c);
    } else {
      assert [] + [c] == [c];
    }
  }

  /** What one call adds to each counter and to the histogram. */
  lemma ApplyStep(r: Recorder, c: Call)
    ensures forall k :: Count(Apply(r, c).messages, k) == Count(r.messages, k) + (if MessageKey(c) == Some(k) then 1 else 0)
    ensures forall k :: Count(Apply(r, c).linkDetections, k) == Count(r.linkDetections, k) + (if DetectionKey(c) == Some(k) then 1 else 0)
    ensures forall k :: Count(Apply(r, c).downloaderRequests, k) == Count(r.downloaderRequests, k) + (if RequestKey(c) == Some(k) then 1 else 0)
    ensures forall k :: Count(Apply(r, c).apiErrors, k) == Count(r.apiErrors, k) + (if ErrorKey(c) == Some(k) then 1 else 0)
    ensures Apply(r, c).botReadyEvents == r.botReadyEvents + (if c.BotReady? then 1 else 0)
    ensures Apply(r, c).responseTimes == r.responseTimes + Observations([c])
  {
    assert [c][1..] == [];
    match c
    case MessageSeen(_, _, _) =>
    case LinkDetected(_, _) =>
    case DownloaderRequest(_, _) =>
    case ApiError(_, _) =>
    case GuildCountSet(_) =>
    case ActiveConnectionsSet(_) =>
    case BotReady =>
  }

  lemma {:induction false} ReplayMessages(r: Recorder, calls: seq<Call>, k: (string, string, string))
    ensures Count(Replay(r, calls).messages, k) == Count(r.messages, k) + Tally(calls, MessageKey, k)
    decreases |calls|
  {
    if calls != [] {
      var init, c := calls[..|calls| - 1], calls[|calls| - 1];
      assert calls == init + [c];
      ReplayMessages(r, init, k);
      TallySnoc(init, c, MessageKey, k);
      ApplyStep(Replay(r, init), c);
    }
  }

  lemma {:induction false} ReplayDetections(r: Recorder, calls: seq<Call>, k: (string, string))
    ensures Count(Replay(r, calls).linkDetections, k) == Count(r.linkDetections, k) + Tally(calls, DetectionKey, k)
    decreases |calls|
  {
    if calls != [] {
      var init, c := calls[..|calls| - 1], calls[|calls| - 1];
      assert calls == init + [c];
      ReplayDetections(r, init, k);
      TallySnoc(init, c, DetectionKey, k);
      ApplyStep(Replay(r, init), c);
    }
  }

  lemma {:induction false} ReplayRequests(r: Recorder, calls: seq<Call>, k: string)
    ensures Count(Replay(r, calls).downloaderRequests, k) == Count(r.downloaderRequests, k) + Tally(calls, RequestKey, k)
    decreases |calls|
  {
    if calls != [] {
      var init, c := calls[..|calls| - 1], calls[|calls| - 1];
      assert calls == init + [c];
      ReplayRequests(r, init, k);
      TallySnoc(init, c, RequestKey, k);
      ApplyStep(Replay(r, init), c);
    }
  }

  lemma {:induction false} ReplayErrors(r: Recorder, calls: seq<Call>, k: (string, string))
    ensures Count(Replay(r, calls).apiErrors, k) == Count(r.apiErrors, k) + Tally(calls, ErrorKey, k)
    decreases |calls|
  {
    if calls != [] {
      var init, c := calls[..|calls| - 1], calls[|calls| - 1];
      assert calls == init + [c];
      ReplayErrors(r, init, k);
      TallySnoc(init, c, ErrorKey, k);
      ApplyStep(Replay(r, init), c);
    }
  }

  lemma {:induction false} ReplayReady(r: Recorder, calls: seq<Call>)
    ensures Replay(r, calls).botReadyEvents == r.botReadyEvents + ReadyCalls(calls)
    decreases |calls|
  {
    if calls != [] {
      var init, c := calls[..|calls| - 1], calls[|calls| - 1];
      assert calls == init + [c];
      ReplayReady(r, init);
      ReadyCallsSnoc(init, c);
      ApplyStep(Replay(r, init), c);
    }
  }

  lemma {:induction false} ReplayObservations(r: Recorder, calls: seq<Call>)
    ensures Replay(r, calls).responseTimes == r.responseTimes + Observations(calls)
    decreases |calls|
  {
    if calls != [] {
      var init, c := calls[..|calls| - 1], calls[|calls| - 1];
      assert calls == init + [c];
      ReplayObservations(r, init);
      ObservationsSnoc(init, c);
      ApplyStep(Replay(r, init), c);
    }
  }

  /** Replaying a log counts every call under its own labels and nowhere
      else: each counter grows by exactly the number of calls that name its
      label tuple, and the histogram gains exactly the defined response
      times, in order. */
  lemma ReplayCounts(r: Recorder, calls: seq<Call>)
    ensures forall k :: Count(Replay(r, calls).messages, k) == Count(r.messages, k) + Tally(calls, MessageKey, k)
    ensures forall k :: Count(Replay(r, calls).linkDetections, k) == Count(r.linkDetections, k) + Tally(calls, DetectionKey, k)
    ensures forall k :: Count(Replay(r, calls).downloaderRequests, k) == Count(r.downloaderRequests, k) + Tally(calls, RequestKey, k)
    ensures forall k :: Count(Replay(r, calls).apiErrors, k) == Count(r.apiErrors, k) + Tally(calls, ErrorKey, k)
    ensures Replay(r, calls).botReadyEvents == r.botReadyEvents + ReadyCalls(calls)
    ensures Replay(r, calls).responseTimes == r.responseTimes + Observations(calls)
  {
    forall k { ReplayMessages(r, calls, k); }
    forall k { ReplayDetections(r, calls, k); }
    forall k { ReplayRequests(r, calls, k); }
    forall k { ReplayErrors(r, calls, k); }
    ReplayReady(r, calls);
    ReplayObservations(r, calls);
  }

  /** Counters only ever grow. */
  lemma CountersMonotone(r: Recorder, calls: seq<Call>)
    ensures forall k :: Count(r.messages, k) <= Count(Replay(r, calls).messages, k)
    ensures forall k :: Count(r.linkDetections, k) <= Count(Replay(r, calls).linkDetections, k)
    ensures forall k :: Count(r.downloaderRequests, k) <= Count(Replay(r, calls).downloaderRequests, k)
    ensures forall k :: Count(r.apiErrors, k) <= Count(Replay(r, calls).apiErrors, k)
    ensures r.botReadyEvents <= Replay(r, calls).botReadyEvents
    ensures |r.responseTimes| <= |Replay(r, calls).responseTimes|
  {
    ReplayCounts(r, calls);
  }

  /** One call leaves a gauge alone unless it writes it. */
  lemma ApplyGauge(r: Recorder, c: Call, g: Gauge)
    ensures GaugeValue(Apply(r, c), g) == Writes(c, g).GetOr(GaugeValue(r, g))
  {
  }

  /** A gauge holds the value of the last call that wrote it. */
  lemma {:induction false} GaugeHoldsLastWrite(r: Recorder, calls: seq<Call>, g: Gauge, i: nat)
    requires i < |calls| && Writes(calls[i], g).Some?
    requires forall j :: i < j < |calls| ==> Writes(calls[j], g).None?
    ensures GaugeValue(Replay(r, calls), g) == Writes(calls[i], g).value
    decreases |calls|
  {
    var init, c := calls[..|calls| - 1], calls[|calls| - 1];
    ApplyGauge(Replay(r, init), c, g);
    if i < |calls| - 1 {
      assert init[i] == calls[i];
      GaugeHoldsLastWrite(r, init, g, i);
    }
  }

  /** A gauge no call writes keeps its value; in particular no tracking call
      ever writes the uptime gauge. */
  lemma {:induction false} GaugeUntouched(r: Recorder, calls: seq<Call>, g: Gauge)
    requires forall j :: 0 <= j < |calls| ==> Writes(calls[j], g).None?
    ensures GaugeValue(Replay(r, calls), g) == GaugeValue(r, g)
    decreases |calls|
  {
    if calls != [] {
      var init, c := calls[..|calls| - 1], calls[|calls| - 1];
      assert forall j :: 0 <= j < |init| ==> init[j] == calls[j];
      GaugeUntouched(r, init, g);
      ApplyGauge(Replay(r, init), c, g);
    }
  }

  /** A response time of zero is still an observation; a missing one is not. */
  lemma ZeroResponseTimeObserved(r: Recorder, status: string)
    ensures |TrackDownloaderRequest(r, status, Some(0)).responseTimes| == |r.responseTimes| + 1
    ensures |TrackDownloaderRequest(r, status, None).responseTimes| == |r.responseTimes|
  {
  }

  /** Replaying one more call applies it to the state replayed so far. */
  lemma ReplaySnoc(r: Recorder, calls: seq<Call>, c: Call)
    ensures Replay(r, calls + [c]) == Apply(Replay(r, calls), c)
  {
    assert (calls + [c])[..|calls|] == calls;
  }

  /** The typical start-up sequence: ready, guild and connection gauges set,
      one message with a supported link, one timed download request. */
  lemma StartupSequence(guild: string, channel: string, provider: string, status: string)
    ensures var r := Replay(Fresh, StartupCalls(guild, channel, provider, status));
      r.botReadyEvents == 1
      && GaugeValue(r, GuildsTotal) == 5 && GaugeValue(r, ActiveConnections) == 1
      && GaugeValue(r, UptimeSeconds) == 0
      && Count(r.messages, (guild, channel, "true")) == 1
      && Count(r.messages, (guild, channel, "false")) == 0
      && Count(r.linkDetections, (provider, "true")) == 1
      && Count(r.downloaderRequests, status) == 1
      && r.responseTimes == [2100]
  {
    StartupReplay(guild, channel, provider, status);
    assert (guild, channel, "false") != (guild, channel, BoolLabel(true));
  }

  function StartupCalls(guild: string, channel: string, provider: string, status: string): seq<Call> {
    [BotReady, GuildCountSet(5), ActiveConnectionsSet(1), MessageSeen(guild, channel, true),
     LinkDetected(provider, true), DownloaderRequest(status, Some(2100))]
  }

  /** Replaying the start-up sequence applies its calls one after the other. */
  lemma StartupReplay(guild: string, channel: string, provider: string, status: string)
    ensures Replay(Fresh, StartupCalls(guild, channel, provider, status))
      == TrackDownloaderRequest(TrackLinkDetection(TrackMessage(UpdateActiveConnections(
           UpdateGuildCount(IncrementBotReady(Fresh), 5), 1), guild, channel, true), provider, true), status, Some(2100))
  {
    var c1, c2, c3 := BotReady, GuildCountSet(5), ActiveConnectionsSet(1);
    var c4, c5, c6 := MessageSeen(guild, channel, true), LinkDetected(provider, true), DownloaderRequest(status, Some(2100));
    var p1: seq<Call> := [c1];
    var p2, p3, p4, p5 := p1 + [c2], p1 + [c2] + [c3], p1 + [c2] + [c3] + [c4], p1 + [c2] + [c3] + [c4] + [c5];
    assert p5 + [c6] == StartupCalls(guild, channel, provider, status);
    var r1 := IncrementBotReady(Fresh);
    assert Replay(Fresh, p1) == r1 by {
      ReplaySnoc(Fresh, [], c1);
      assert [] + [c1] == p1;
    }
    var r2 := UpdateGuildCount(r1, 5);
    assert Replay(Fresh, p2) == r2 by { ReplaySnoc(Fresh, p1, c2); }
    var r3 := UpdateActiveConnections(r2, 1);
    assert Replay(Fresh, p3) == r3 by { ReplaySnoc(Fresh, p2, c3); }
    var r4 := TrackMessage(r3, guild, channel, true);
    assert Replay(Fresh, p4) == r4 by { ReplaySnoc(Fresh, p3, c4); }
    var r5 := TrackLinkDetection(r4, provider, true);
    assert Replay(Fresh, p5) == r5 by { ReplaySnoc(Fresh, p4, c5); }
    var r6 := TrackDownloaderRequest(r5, status, Some(2100));
    assert Replay(Fresh, p5 + [c6]) == r6 by { ReplaySnoc(Fresh, p5, c6); }
  }
}
