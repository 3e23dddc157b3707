/** The logging decisions of src/utils/logger.ts: which logger the
    constructor picks, the level and text of each convenience call, and the
    plain shape of the line the console format prints (colours dropped).

    A log call is a pure function returning the one Entry it emits; the
    winston transport that prints it is left abstract. */
module Logger {
  import opened Wrappers
  import Text
  import Json

  /** winston's default (npm) levels, most severe first. */
  datatype Level = Error | Warn | Info | Http | Verbose | Debug | Silly

  function LevelName(l: Level): string {
    match l
    case Error => "error"
    case Warn => "warn"
    case Info => "info"
    case Http => "http"
    case Verbose => "verbose"
    case Debug => "debug"
    case Silly => "silly"
  }

  /** winston's npm priority: a smaller number is more severe. */
  function Priority(l: Level): nat {
    match l
    case Error => 0
    case Warn => 1
    case Info => 2
    case Http => 3
    case Verbose => 4
    case Debug => 5
    case Silly => 6
  }

  /** The threshold of the shared logger when LOG_LEVEL is unset. */
  const DefaultThreshold: Level := Info

  /** A logger with threshold `threshold` passes entries at least as severe as it. */
  predicate Enabled(l: Level, threshold: Level) {
    Priority(l) <= Priority(threshold)
  }

  /** The `service` default metadata of the shared base logger. */
  const DefaultService := "thumbbot-discord-bot"

  /** The winston logger a ThumbBotLogger wraps: the shared base logger, or a
      child of it created with `{ service }` metadata. */
  datatype Sink = Base | Child(service: string)

  /** One logged event: its level, message, service tag and the metadata
      object passed with the call (as its own enumerable properties). */
  datatype Entry = Entry(level: Level, message: string, service: string, meta: seq<Json.Field>)

  /** `new ThumbBotLogger(service?)`: a child logger when `service` is truthy,
      that is, present and non-empty. */
  function NewLogger(service: Option<string>): (l: Sink)
    ensures l.Child? <==> service.Some? && service.value != ""
    ensures l.Child? ==> l.service == service.value
  {
    if service.Some? && service.value != "" then Child(service.value) else Base
  }

  /** `Object.assign({}, { service: tag }, record).service`: a `service`
      already on the record wins over the one it is copied onto. */
  function MergedService(tag: string, record: Option<string>): string {
    record.GetOr(tag)
  }

  /** The service tag on the records a sink writes. The shared logger builds
      every record from its `defaultMeta`, so the record already holds the
      shared tag when a child's `write` copies it over the child's
      `{ service }`; the child's own tag is shadowed. */
  function ServiceOf(l: Sink): string {
    match l
    case Base => DefaultService
    case Child(s) => MergedService(s, Some(DefaultService))
  }

  /** The level methods `info`, `warn`, `error` and `debug`: the message and
      metadata are passed on unchanged, and every record carries the shared tag. */
  function Emit(l: Sink, level: Level, message: string, meta: seq<Json.Field>): (e: Entry)
    ensures e.level == level && e.message == message && e.meta == meta
    ensures e.service == DefaultService
  {
    Entry(level, message, ServiceOf(l), meta)
  }

  const SuccessMark := "\U{2705} "
  const LaunchMark := "\U{1F680} "

  /** `success(message, meta)`: an info entry marked with a check mark. */
  function Success(l: Sink, message: string, meta: seq<Json.Field>): (e: Entry)
    ensures e.level == Info && e.meta == meta && e.service == ServiceOf(l)
    ensures |e.message| == |message| + 2 && e.message[..2] == SuccessMark && e.message[2..] == message
  {
    Emit(l, Info, SuccessMark + message, meta)
  }

  /** `${method} ${url} -> ${status}`. */
  function RequestLine(verb: string, url: string, status: int): string {
    verb + " " + url + " -> " + Text.IntToString(status)
  }

  /** `logApiRequest(verb, url, status?)`, None standing for an undefined
      status. The test `if (status)` is JavaScript truthiness, so a status of
      0 takes the same branch as a missing one. */
  function LogApiRequest(l: Sink, verb: string, url: string, status: Option<int>): (e: Entry)
    ensures e.service == ServiceOf(l) && e.meta == []
    ensures e.level == Error <==> status.Some? && status.value >= 400
    ensures e.level != Error ==> e.level == Info
    ensures status.GetOr(0) == 0 ==> e.message == LaunchMark + verb + " " + url
    ensures status.Some? && 200 <= status.value < 300 ==>
      e.message == SuccessMark + RequestLine(verb, url, status.value)
    ensures status.Some? && status.value != 0 && !(200 <= status.value < 300) ==>
      e.message == RequestLine(verb, url, status.value)
  {
    match status
    case Some(st) =>
      if st == 0 then Emit(l, Info, LaunchMark + verb + " " + url, [])
      else if st >= 200 && st < 300 then Success(l, RequestLine(verb, url, st), [])
      else if st >= 400 then Emit(l, Error, RequestLine(verb, url, st), [])
      else Emit(l, Info, RequestLine(verb, url, st), [])
    case None => Emit(l, Info, LaunchMark + verb + " " + url, [])
  }

  /** A logged status can be read back from the end of the message. */
  lemma ApiRequestStatusRecoverable(l: Sink, verb: string, url: string, status: int)
    requires status != 0
    ensures var m := LogApiRequest(l, verb, url, Some(status)).message;
      exists k :: 0 <= k <= |m| && m[..k] + Text.IntToString(status) == m
        && Text.ParseInt(m[k..]) == Some(status)
  {
    var m := LogApiRequest(l, verb, url, Some(status)).message;
    var d := Text.IntToString(status);
    var k := |m| - |d|;
    assert m[..k] + d == m;
    assert m[k..] == d;
    Text.IntToStringRoundTrip(status);
  }

  /** `logProviderCheck(url, supported)`: a success entry when supported,
      a debug entry otherwise. */
  function LogProviderCheck(l: Sink, url: string, supported: bool): (e: Entry)
    ensures e.level == (if supported then Info else Debug)
    ensures e.service == ServiceOf(l) && e.meta == []
    ensures supported ==> e.message == SuccessMark + "Provider check: " + url + " is supported"
    ensures !supported ==> e.message == "Provider check: " + url + " not supported"
  {
    if supported then Success(l, "Provider check: " + url + " is supported", [])
    else Emit(l, Debug, "Provider check: " + url + " not supported", [])
  }

  /** Under the default threshold only supported provider checks are printed. */
  lemma ProviderCheckVisibleByDefault(l: Sink, url: string, supported: bool)
    ensures Enabled(LogProviderCheck(l, url, supported).level, DefaultThreshold) <==> supported
  {
  }

  /** The level column: the upper-cased level name padded to seven characters. */
  function LevelColumn(l: Level): string {
    Text.PadEnd(Text.ToUpperAscii(LevelName(l)), 7)
  }

  /** The metadata the console format prints: every property but `service`. */
  function WithoutService(meta: seq<Json.Field>): (rest: seq<Json.Field>)
    ensures forall f :: f in rest <==> f in meta && f.key != "service"
    decreases |meta|
  {
    if meta == [] then []
    else if meta[0].key == "service" then WithoutService(meta[1..])
    else [meta[0]] + WithoutService(meta[1..])
  }

  /** The text after the message: a space and the JSON of the remaining
      metadata, or nothing when no property remains. */
  function Extra(meta: seq<Json.Field>): string {
    var rest := WithoutService(meta);
    if |rest| > 0 then " " + Json.RenderObject(rest) else ""
  }

  /** The line the console format prints for an entry, colours removed. */
  function Printf(e: Entry): string {
    LevelColumn(e.level) + " | " + e.message + Extra(e.meta)
  }

  /** Every level name fits the column: the column is always seven characters,
      the upper-cased name followed by spaces. */
  lemma LevelColumnShape(l: Level)
    ensures |LevelColumn(l)| == 7
    ensures LevelColumn(l)[..|LevelName(l)|] == Text.ToUpperAscii(LevelName(l))
    ensures forall k :: |LevelName(l)| <= k < 7 ==> LevelColumn(l)[k] == ' '
  {
  }

  /** A printed line is the level column, ` | `, the message, and a suffix
      that is empty exactly when every metadata property is `service`. */
  lemma PrintfShape(e: Entry)
    ensures var line := Printf(e);
      |line| >= 10 + |e.message|
      && line[..7] == LevelColumn(e.level)
      && line[7..10] == " | "
      && line[10..10 + |e.message|] == e.message
      && (|line| == 10 + |e.message| <==> forall f :: f in e.meta ==> f.key == "service")
  {
    LevelColumnShape(e.level);
    var rest := WithoutService(e.meta);
    if |rest| > 0 {
      assert rest[0] in rest;
    }
  }

  /** When some property other than `service` remains, the line goes on after
      the message with a space and the JSON object of the remaining properties. */
  lemma PrintedMetadata(e: Entry)
    requires exists f :: f in e.meta && f.key != "service"
    ensures var line := Printf(e);
      |line| > 10 + |e.message|
      && line[10 + |e.message|..] == " " + Json.RenderObject(WithoutService(e.meta))
  {
    var f :| f in e.meta && f.key != "service";
    var rest := WithoutService(e.meta);
    assert f in rest;
    LevelColumnShape(e.level);
    var head := LevelColumn(e.level) + " | " + e.message;
    assert Printf(e) == head + Extra(e.meta);
    assert (head + Extra(e.meta))[|head|..] == Extra(e.meta);
  }

  /** Every metadata property other than `service` is printed after the
      message, as its quoted key, a colon and its JSON value. */
  lemma PrintedProperty(e: Entry, f: Json.Field)
    requires f in e.meta && f.key != "service"
    ensures exists k: nat :: k > 10 + |e.message| && Text.OccursAt(Printf(e), Json.Member(f), k)
  {
    var rest := WithoutService(e.meta);
    var obj := Json.RenderObject(rest);
    assert f in rest;
    var i :| 0 <= i < |rest| && rest[i] == f;
    Json.RenderObjectHoldsMembers(rest, i);
    var k: nat :| Text.OccursAt(obj, Json.Member(f), k);
    Text.OccursAtAfter(" ", obj, Json.Member(f), k);
    PrintedMetadata(e);
    Text.OccursInSuffix(Printf(e), 10 + |e.message|, Json.Member(f), 1 + k);
  }

  /** The service tag never reaches the printed line: neither the tag of the
      logger nor a `service` property among the metadata. */
  lemma ServiceNeverPrinted(e: Entry, tag: string, v: Json.Value)
    ensures Printf(e.(service := tag)) == Printf(e)
    ensures Printf(e.(meta := e.meta + [Json.Field("service", v)])) == Printf(e)
  {
    ServicePropertyDropped(e.meta, v);
  }

  /** A `service` property appended to the metadata leaves the suffix as it was. */
  lemma ServicePropertyDropped(meta: seq<Json.Field>, v: Json.Value)
    ensures Extra(meta + [Json.Field("service", v)]) == Extra(meta)
  {
    var tail := [Json.Field("service", v)];
    assert WithoutService(tail) == [] by {
      assert tail[1..] == [];
    }
    WithoutServiceAppend(meta, tail);
    assert WithoutService(meta + tail) == WithoutService(meta);
  }

  /** The printed properties keep the order they have in the metadata: a
      property other than `service` stays between what came before it and
      what came after it. */
  lemma WithoutServiceKeepsOrder(a: seq<Json.Field>, f: Json.Field, b: seq<Json.Field>)
    requires f.key != "service"
    ensures WithoutService(a + [f] + b) == WithoutService(a) + [f] + WithoutService(b)
  {
    WithoutServiceAppend(a + [f], b);
    WithoutServiceAppend(a, [f]);
    assert WithoutService([f]) == [f] by {
      assert [f][1..] == [];
    }
  }

  lemma {:induction false} WithoutServiceAppend(a: seq<Json.Field>, b: seq<Json.Field>)
    ensures WithoutService(a + b) == WithoutService(a) + WithoutService(b)
    decreases |a|
  {
    if a != [] {
      var ab := a + b;
      assert ab != [] && ab[0] == a[0] && ab[1..] == a[1..] + b;
      WithoutServiceAppend(a[1..], b);
      if a[0].key == "service" {
        assert WithoutService(ab) == WithoutService(a[1..] + b);
        assert WithoutService(a) == WithoutService(a[1..]);
      } else {
        assert WithoutService(ab) == [a[0]] + WithoutService(a[1..] + b);
        assert WithoutService(a) == [a[0]] + WithoutService(a[1..]);
        assert [a[0]] + (WithoutService(a[1..]) + WithoutService(b))
            == ([a[0]] + WithoutService(a[1..])) + WithoutService(b);
      }
    } else {
      assert a + b == b;
    }
  }

  /** `new ThumbBotLogger('metrics')` builds a child logger, yet its entries
      carry the shared tag like those of the logger made without a name: the
      child's tag never reaches a record. */
  lemma ConstructorServiceTag(name: Option<string>, level: Level, message: string)
    ensures Emit(NewLogger(name), level, message, []).service == DefaultService
    ensures Emit(NewLogger(name), level, message, []) == Emit(NewLogger(None), level, message, [])
  {
  }

  /** A failed request is printed as an error line with its status. */
  lemma ServerErrorLine(l: Sink, verb: string, url: string)
    requires verb == "POST" && url == "/videos"
    ensures Printf(LogApiRequest(l, verb, url, Some(500))) == "ERROR   | POST /videos -> 500"
  {
    ErrorColumn();
    StatusText500();
    var e := LogApiRequest(l, verb, url, Some(500));
    assert e.level == Error && e.meta == [] && e.message == verb + " " + url + " -> " + "500";
    assert Extra(e.meta) == "";
  }

  lemma ErrorColumn()
    ensures LevelColumn(Error) == "ERROR  "
  {
    assert Text.ToUpperAscii("error") == "ERROR";
  }

  lemma StatusText500()
    ensures Text.IntToString(500) == "500"
  {
    assert Text.NatToString(50) == "50";
  }
}
