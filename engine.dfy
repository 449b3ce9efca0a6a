/**
 * The store-and-forward engine of handler/Handler.go as functions of an
 * abstract state: what ingestion, saving, a resend scan, a resend request,
 * the periodic tick and store initialisation do to the connectivity flag, the
 * store and the remote publishes. The `Handler` class is proved against these.
 */
module Engine {
  import opened Basics
  import opened Config
  import opened Store
  import opened StoreFile
  import opened Messages
  import opened Broker
  import Text

  /** The topics `InitHandler` derives from the templates, `+` standing for the client id. */
  datatype Topics = Topics(
    raw: string,
    pollutant: string,
    resendRaw: string,
    resendPollutant: string,
    will: string,
    willPayload: string)

  function DeriveTopics(m: MqttConfig): (t: Topics)
    ensures Text.ReplacedFirst(m.rawTopic, '+', m.clientID, t.raw)
    ensures Text.ReplacedFirst(m.pollutantTopic, '+', m.clientID, t.pollutant)
    ensures Text.ReplacedFirst(m.resendRawTopic, '+', m.clientID, t.resendRaw)
    ensures Text.ReplacedFirst(m.resendPollutantTopic, '+', m.clientID, t.resendPollutant)
    ensures Text.ReplacedFirst(m.willTopic, '+', m.clientID, t.will)
    ensures Text.ReplacedFirst(m.willPayload, '+', m.clientID, t.willPayload)
  {
    Text.ReplaceFirstReplacesFirst(m.rawTopic, '+', m.clientID);
    Text.ReplaceFirstReplacesFirst(m.pollutantTopic, '+', m.clientID);
    Text.ReplaceFirstReplacesFirst(m.resendRawTopic, '+', m.clientID);
    Text.ReplaceFirstReplacesFirst(m.resendPollutantTopic, '+', m.clientID);
    Text.ReplaceFirstReplacesFirst(m.willTopic, '+', m.clientID);
    Text.ReplaceFirstReplacesFirst(m.willPayload, '+', m.clientID);
    Topics(
      Text.ReplaceFirst(m.rawTopic, '+', m.clientID),
      Text.ReplaceFirst(m.pollutantTopic, '+', m.clientID),
      Text.ReplaceFirst(m.resendRawTopic, '+', m.clientID),
      Text.ReplaceFirst(m.resendPollutantTopic, '+', m.clientID),
      Text.ReplaceFirst(m.willTopic, '+', m.clientID),
      Text.ReplaceFirst(m.willPayload, '+', m.clientID))
  }

  /**
   * What a handler keeps fixed once built: its configuration, the derived
   * topics, and the decoders it relies on (msgpack for the two measurement
   * classes, JSON for a resend request), each a partial function.
   */
  datatype Env = Env(
    config: ConfigData,
    topics: Topics,
    decodeRaw: Bytes -> Option<Int64>,
    decodePollutant: Bytes -> Option<Int64>,
    parseRequest: Bytes -> Option<(Int64, Int64)>)

  function TopicOf(env: Env, c: Class): string {
    match c
    case Raw => env.topics.raw
    case Pollutant => env.topics.pollutant
  }

  /** `SendRawData` / `SendPollutantData`. */
  function Forwarding(env: Env, c: Class): bool {
    match c
    case Raw => env.config.server.sendRawData
    case Pollutant => env.config.server.sendPollutantData
  }

  /** `LogRaw` / `LogPollutant`. */
  function Logging(env: Env, c: Class): bool {
    match c
    case Raw => env.config.server.logRaw
    case Pollutant => env.config.server.logPollutant
  }

  function Decode(env: Env, c: Class, data: Bytes): Option<Int64> {
    match c
    case Raw => env.decodeRaw(data)
    case Pollutant => env.decodePollutant(data)
  }

  /**
   * The abstract state: the remote-connectivity flag, the open store (if
   * any), the remote client's pending outcomes and its publish log, how many
   * times a background `InitDB` was requested, and how many file-system
   * repairs were run.
   */
  datatype World = World(
    connected: bool,
    db: Option<Store>,
    outcomes: seq<bool>,
    attempts: seq<Publication>,
    initSpawns: nat,
    repairs: nat)

  ghost predicate Consistent(w: World) {
    w.db.Some? ==> WellFormedStore(w.db.value)
  }

  /** One publish on the remote client, and whether it was confirmed. */
  function PublishSpec(w: World, topic: string, qos: Byte, payload: Payload): (World, bool) {
    (w.(outcomes := RestOf(w.outcomes), attempts := w.attempts + [Publication(topic, qos, payload)]),
     NextOk(w.outcomes))
  }

  /** The outcome oracle after `k` publishes. */
  function Drop(outcomes: seq<bool>, k: nat): seq<bool> {
    if k <= |outcomes| then outcomes[k..] else []
  }

  /** How many of the next `n` publishes are confirmed before the first that is not. */
  function Delivered(outcomes: seq<bool>, n: nat): (k: nat)
    ensures k <= n && k <= |outcomes|
    ensures forall i :: 0 <= i < k ==> outcomes[i]
    ensures k < n ==> k == |outcomes| || !outcomes[k]
  {
    if n == 0 || outcomes == [] || !outcomes[0] then 0
    else
      var rest := Delivered(outcomes[1..], n - 1);
      assert forall i :: 1 <= i < 1 + rest ==> outcomes[1..][i - 1] == outcomes[i];
      1 + rest
  }

  /** The publications that forward `rows`, one per row, in order. */
  function Forwards(topic: string, qos: Byte, rows: Table): (ps: seq<Publication>)
    ensures |ps| == |rows|
    ensures forall i :: 0 <= i < |rows| ==> ps[i] == Publication(topic, qos, Blob(rows[i].data))
  {
    seq(|rows|, i requires 0 <= i < |rows| => Publication(topic, qos, Blob(rows[i].data)))
  }

  /**
   * `resendRaw` / `resendPollutant` over `[start, end]`: refuse when the remote
   * side is down or no store is open; otherwise publish the pending rows in
   * store order and, if every publish was confirmed, commit them as sent; the
   * first unconfirmed publish abandons the transaction.
   */
  function ResendSpec(env: Env, w: World, c: Class, start: Int64, end: Int64): (r: (World, Option<ResendError>))
    ensures r.0.connected == w.connected && r.0.repairs == w.repairs
    ensures r.1.None? ==> w.connected && w.db.Some?
    ensures r.1.Some? ==> r.0.db == w.db
    ensures |r.0.attempts| >= |w.attempts| && r.0.attempts[..|w.attempts|] == w.attempts
  {
    if !w.connected then (w, Some(RemoteNotConnected))
    else if w.db.None? then (w.(initSpawns := w.initSpawns + 1), Some(DatabaseNotConnected))
    else ScanSpec(env, w, c, start, end)
  }

  /** The transaction part of a resend, once the guards have passed. */
  function ScanSpec(env: Env, w: World, c: Class, start: Int64, end: Int64): (r: (World, Option<ResendError>))
    requires w.db.Some?
    ensures r.0.connected == w.connected && r.0.initSpawns == w.initSpawns && r.0.repairs == w.repairs
    ensures r.1 == None || r.1 == Some(PublishFailed)
    ensures r.1.Some? ==> r.0.db == w.db
    ensures r.0.db.Some? && forall d :: d != c ==> TableOf(r.0.db.value, d) == TableOf(w.db.value, d)
    ensures |r.0.attempts| >= |w.attempts| && r.0.attempts[..|w.attempts|] == w.attempts
  {
    var s := w.db.value;
    var t := TableOf(s, c);
    var p := Pending(t, start, end);
    var k := Delivered(w.outcomes, |p|);
    var topic, qos := TopicOf(env, c), env.config.mqtt.qos;
    if k == |p| then
      (w.(db := Some(WithTable(s, c, Acknowledge(t, start, end))),
          outcomes := Drop(w.outcomes, k),
          attempts := w.attempts + Forwards(topic, qos, p)),
       None)
    else
      (w.(outcomes := Drop(w.outcomes, k + 1),
          attempts := w.attempts + Forwards(topic, qos, p[..k + 1])),
       Some(PublishFailed))
  }

  /** One more publish on top of `i` earlier ones consumes outcome `i`. */
  lemma DropStep(outcomes: seq<bool>, i: nat)
    ensures NextOk(Drop(outcomes, i)) == (i < |outcomes| && outcomes[i])
    ensures RestOf(Drop(outcomes, i)) == Drop(outcomes, i + 1)
  {
  }

  lemma ForwardsStep(topic: string, qos: Byte, rows: Table, i: nat)
    requires i < |rows|
    ensures Forwards(topic, qos, rows[..i + 1])
         == Forwards(topic, qos, rows[..i]) + [Publication(topic, qos, Blob(rows[i].data))]
  {
    assert rows[..i + 1] == rows[..i] + [rows[i]];
  }

  /** The state a resend leaves when the publish of pending row `i` is the first not confirmed. */
  lemma ScanFailsAt(env: Env, w: World, c: Class, start: Int64, end: Int64, i: nat)
    requires w.db.Some?
    requires i < |Pending(TableOf(w.db.value, c), start, end)|
    requires Delivered(w.outcomes, |Pending(TableOf(w.db.value, c), start, end)|) == i
    ensures ScanSpec(env, w, c, start, end)
         == (w.(outcomes := Drop(w.outcomes, i + 1),
                attempts := w.attempts + Forwards(TopicOf(env, c), env.config.mqtt.qos,
                                                  Pending(TableOf(w.db.value, c), start, end)[..i + 1])),
             Some(PublishFailed))
  {
  }

  /** The state a resend leaves when every pending row's publish is confirmed. */
  lemma ScanCommits(env: Env, w: World, c: Class, start: Int64, end: Int64)
    requires w.db.Some?
    requires var n := |Pending(TableOf(w.db.value, c), start, end)|; Delivered(w.outcomes, n) == n
    ensures var t := TableOf(w.db.value, c);
      var p := Pending(t, start, end);
      ScanSpec(env, w, c, start, end)
         == (w.(db := Some(WithTable(w.db.value, c, Acknowledge(t, start, end))),
                outcomes := Drop(w.outcomes, |p|),
                attempts := w.attempts + Forwards(TopicOf(env, c), env.config.mqtt.qos, p)),
             None)
  {
  }


  function SaveSpec(env: Env, w: World, c: Class, data: Bytes, sent: bool): (r: (World, Option<SaveError>))
    requires Consistent(w)
    ensures Consistent(r.0)
    ensures r.0.connected == w.connected && r.0.outcomes == w.outcomes && r.0.attempts == w.attempts
    ensures r.1 == Some(StoreNotOpen) <==> w.db.None?
    ensures r.1.Some? ==> r.0.db == w.db
    ensures r.1 == Some(UndecodablePayload) <==> w.db.Some? && Decode(env, c, data).None?
    ensures r.1.None? ==>
      && w.db.Some? && r.0.db.Some?
      && var t := TableOf(w.db.value, c);
         && TableOf(r.0.db.value, c) == t + [Row(|t| + 1, Decode(env, c, data).value, data, sent)]
         && forall d :: d != c ==> TableOf(r.0.db.value, d) == TableOf(w.db.value, d)
  {
    if w.db.None? then (w.(initSpawns := w.initSpawns + 1), Some(StoreNotOpen))
    else
      match Decode(env, c, data)
      case None => (w, Some(UndecodablePayload))
      case Some(ts) =>
        var s := w.db.value;
        (w.(db := Some(WithTable(s, c, Append(TableOf(s, c), ts, data, sent)))), None)
  }

  /** `rawHandler` / `pollutantHandler`: forward if enabled, then log if enabled, with the forward's outcome. */
  function IngestSpec(env: Env, w: World, c: Class, data: Bytes): (r: World)
    requires Consistent(w)
    ensures Consistent(r)
    ensures r.connected == w.connected && r.repairs == w.repairs
    ensures |w.attempts| <= |r.attempts| <= |w.attempts| + 1 && r.attempts[..|w.attempts|] == w.attempts
  {
    var (w1, ok) :=
      if Forwarding(env, c) then PublishSpec(w, TopicOf(env, c), env.config.mqtt.qos, Blob(data))
      else (w, false);
    if Logging(env, c) then SaveSpec(env, w1, c, data, ok).0 else w1
  }

  /** `mqttResponse`: always on the remote client, its own outcome ignored. */
  function RespondSpec(env: Env, w: World, topic: string, text: ResponseText, success: bool): (r: World)
    ensures r.connected == w.connected && r.db == w.db
    ensures r.initSpawns == w.initSpawns && r.repairs == w.repairs
    ensures r.outcomes == RestOf(w.outcomes)
    ensures r.attempts == w.attempts + [Publication(topic, env.config.mqtt.qos, ResponseJson("suceess", success, text))]
  {
    PublishSpec(w, topic, env.config.mqtt.qos, ResponseJson(SuccessKey, success, text)).0
  }

  /** `resendRawHandler` / `resendPollutantHandler` for a request that arrived on `requestTopic`. */
  function ResendRequestSpec(env: Env, w: World, c: Class, requestTopic: string, payload: Bytes): (r: World)
    ensures r.connected == w.connected && r.repairs == w.repairs
    ensures |r.attempts| > |w.attempts| && r.attempts[..|w.attempts|] == w.attempts
    ensures r.attempts[|r.attempts| - 1].topic == requestTopic + "/response"
  {
    var resTopic := ResponseTopic(requestTopic);
    match env.parseRequest(payload)
    case None => RespondSpec(env, w, resTopic, ParseFailed, false)
    case Some((start, end)) =>
      var (w1, err) := ResendSpec(env, w, c, start, end);
      if err.Some? then RespondSpec(env, w1, resTopic, ResendFailed(err.value), false)
      else RespondSpec(env, w1, resTopic, Resent(c, start, end), true)
  }

  /** One tick of `Run`: while connected, resend `[0, now]` for each class whose forwarding is on, pollutant first. */
  function TickSpec(env: Env, w: World, pollutantNow: Int64, rawNow: Int64): (r: World)
    ensures r.connected == w.connected && r.repairs == w.repairs
    ensures !w.connected ==> r == w
    ensures |r.attempts| >= |w.attempts| && r.attempts[..|w.attempts|] == w.attempts
  {
    if !w.connected then w
    else
      var w1 := if Forwarding(env, Pollutant) then ResendSpec(env, w, Pollutant, 0, pollutantNow).0 else w;
      if Forwarding(env, Raw) then ResendSpec(env, w1, Raw, 0, rawNow).0 else w1
  }

  // ---------------------------------------------------------------------
  // Store initialisation (`InitDB`).

  /** What one `sql.Open` attempt gives. */
  datatype OpenResult = OpenOk | OpenErr(text: string)

  /** Where `InitDB` is once the given clock readings and open attempts are used up. */
  datatype InitOutcome =
    | WaitingForClock
    | RetryingOpen(path: string)
    | Opened(path: string)

  /** The index of the first synchronised clock reading, or `|clock|` if none is. */
  function FirstSynced(clock: seq<UtcTime>): (k: nat)
    requires forall i :: 0 <= i < |clock| ==> ValidTime(clock[i])
    ensures k <= |clock|
    ensures forall i :: 0 <= i < k ==> Before(clock[i], Milestone)
    ensures k < |clock| ==> ClockSynced(clock[k])
  {
    if clock == [] || !Before(clock[0], Milestone) then 0 else 1 + FirstSynced(clock[1..])
  }

  /** The index of the first successful open, or `|opens|` if none is. */
  function FirstOpened(opens: seq<OpenResult>): (k: nat)
    ensures k <= |opens|
    ensures forall i :: 0 <= i < k ==> opens[i].OpenErr?
    ensures k < |opens| ==> opens[k] == OpenOk
  {
    if opens == [] || opens[0] == OpenOk then 0 else 1 + FirstOpened(opens[1..])
  }

  /** How many open attempts failed. */
  function Failures(opens: seq<OpenResult>): (n: nat)
    ensures n <= |opens|
  {
    if opens == [] then 0
    else Failures(opens[..|opens| - 1]) + (if opens[|opens| - 1].OpenErr? then 1 else 0)
  }

  /** How many of the failed opens carry the read-only signature. */
  function Repairs(opens: seq<OpenResult>): (n: nat)
    ensures n <= Failures(opens)
  {
    if opens == [] then 0
    else
      var last := opens[|opens| - 1];
      Repairs(opens[..|opens| - 1]) + (if last.OpenErr? && IsReadOnlyError(last.text) then 1 else 0)
  }

  /** No repair is run exactly when no failed open carried the read-only signature. */
  lemma {:induction false} NoRepairsIff(opens: seq<OpenResult>)
    ensures Repairs(opens) == 0
        <==> forall i :: 0 <= i < |opens| ==> !(opens[i].OpenErr? && IsReadOnlyError(opens[i].text))
  {
    if opens != [] {
      var front := opens[..|opens| - 1];
      NoRepairsIff(front);
      assert forall i :: 0 <= i < |front| ==> front[i] == opens[i];
    }
  }

  /**
   * `InitDB` given successive clock readings and successive open results:
   * wait for the clock, name the month's file, retry opening (repairing the
   * file system on a read-only error) until one open succeeds, then keep the
   * opened store.
   */
  function InitSpec(env: Env, w: World, clock: seq<UtcTime>, opens: seq<OpenResult>, file: Store): (r: (World, InitOutcome))
    requires forall i :: 0 <= i < |clock| ==> ValidTime(clock[i])
    ensures r.0.connected == w.connected && r.0.outcomes == w.outcomes && r.0.attempts == w.attempts
    ensures r.0.initSpawns == w.initSpawns
    ensures r.1 == WaitingForClock ==> r.0 == w
    ensures r.1.Opened? ==> r.0.db == Some(file)
    ensures !r.1.Opened? ==> r.0.db == w.db
    ensures w.repairs <= r.0.repairs <= w.repairs + |opens|
  {
    var k := FirstSynced(clock);
    if k == |clock| then (w, WaitingForClock)
    else
      var path := DbPath(env.config.server.mainFolder, env.config.mqtt.clientID, clock[k]);
      var j := FirstOpened(opens);
      var w1 := w.(repairs := w.repairs + Repairs(opens[..j]));
      if j == |opens| then (w1, RetryingOpen(path))
      else (w1.(db := Some(file)), Opened(path))
  }

  /** `InitSpec` once a synchronised reading `clock[k]` was found and the opens settled at `j`. */
  lemma InitSpecAfterClock(env: Env, w: World, clock: seq<UtcTime>, opens: seq<OpenResult>, file: Store, k: nat, j: nat)
    requires forall i :: 0 <= i < |clock| ==> ValidTime(clock[i])
    requires k == FirstSynced(clock) < |clock|
    requires j == FirstOpened(opens)
    ensures var path := DbPath(env.config.server.mainFolder, env.config.mqtt.clientID, clock[k]);
      var w1 := w.(repairs := w.repairs + Repairs(opens[..j]));
      && InitSpec(env, w, clock, opens, file).0 == (if j == |opens| then w1 else w1.(db := Some(file)))
      && InitSpec(env, w, clock, opens, file).1 == (if j == |opens| then RetryingOpen(path) else Opened(path))
  {
  }

  // ---------------------------------------------------------------------
  // Properties.

  /** A resend with the remote side down does nothing at all; with no store it only asks for `InitDB`. */
  lemma ResendGuards(env: Env, w: World, c: Class, start: Int64, end: Int64)
    ensures !w.connected ==> ResendSpec(env, w, c, start, end) == (w, Some(RemoteNotConnected))
    ensures w.connected && w.db.None? ==>
      ResendSpec(env, w, c, start, end) == (w.(initSpawns := w.initSpawns + 1), Some(DatabaseNotConnected))
  {
  }

  /** A resend succeeds exactly when connected, with a store, and every pending row's publish is confirmed. */
  lemma ResendSucceedsIff(env: Env, w: World, c: Class, start: Int64, end: Int64)
    ensures ResendSpec(env, w, c, start, end).1.None? <==>
      && w.connected
      && w.db.Some?
      && var n := |Pending(TableOf(w.db.value, c), start, end)|;
         n <= |w.outcomes| && forall i :: 0 <= i < n ==> w.outcomes[i]
  {
    if w.connected && w.db.Some? {
      var n := |Pending(TableOf(w.db.value, c), start, end)|;
      var k := Delivered(w.outcomes, n);
      if k < n && k < |w.outcomes| {
        assert !w.outcomes[k];
      }
    }
  }

  /**
   * A successful resend publishes each pending row once, in store order, and
   * marks exactly the unsent rows with `start <= ts <= end` as sent: rows
   * outside the range and the other class's table are untouched.
   */
  lemma ResendSuccessEffect(env: Env, w: World, c: Class, start: Int64, end: Int64)
    requires Consistent(w)
    requires ResendSpec(env, w, c, start, end).1.None?
    ensures var w' := ResendSpec(env, w, c, start, end).0;
      var t := TableOf(w.db.value, c);
      && w'.db.Some? && Consistent(w')
      && w'.attempts == w.attempts + Forwards(TopicOf(env, c), env.config.mqtt.qos, Pending(t, start, end))
      && var t' := TableOf(w'.db.value, c);
         && |t'| == |t|
         && (forall i :: 0 <= i < |t| && start <= t[i].ts <= end ==> t'[i].sent)
         && (forall i :: 0 <= i < |t| && !(start <= t[i].ts <= end) ==> t'[i] == t[i])
         && (forall i :: 0 <= i < |t| ==> t'[i].id == t[i].id && t'[i].data == t[i].data)
         && (forall d :: d != c ==> TableOf(w'.db.value, d) == TableOf(w.db.value, d))
         && Pending(t', start, end) == []
  {
    var t := TableOf(w.db.value, c);
    AcknowledgeOnlyRaisesFlags(t, start, end);
    AcknowledgeLeavesNothingPending(t, start, end);
    assert WellFormed(Acknowledge(t, start, end));
  }

  /** A failed resend commits nothing: the store keeps every `sent` flag it had. */
  lemma ResendFailureCommitsNothing(env: Env, w: World, c: Class, start: Int64, end: Int64)
    requires ResendSpec(env, w, c, start, end).1.Some?
    ensures ResendSpec(env, w, c, start, end).0.db == w.db
    ensures ResendSpec(env, w, c, start, end).0.connected == w.connected
  {
  }

  /** Once a range has been resent successfully, resending it again publishes nothing and succeeds. */
  lemma ResendAgainPublishesNothing(env: Env, w: World, c: Class, start: Int64, end: Int64)
    requires Consistent(w)
    requires ResendSpec(env, w, c, start, end).1.None?
    ensures var w' := ResendSpec(env, w, c, start, end).0;
      ResendSpec(env, w', c, start, end) == (w', None)
  {
    var w' := ResendSpec(env, w, c, start, end).0;
    ResendSuccessEffect(env, w, c, start, end);
    var t' := TableOf(w'.db.value, c);
    assert Pending(t', start, end) == [];
    assert Acknowledge(t', start, end) == t';
    assert WithTable(w'.db.value, c, t') == w'.db.value;
    assert Drop(w'.outcomes, 0) == w'.outcomes;
    assert w'.attempts + Forwards(TopicOf(env, c), env.config.mqtt.qos, []) == w'.attempts;
  }

  /**
   * Ingestion: with forwarding off nothing is published; with logging off no
   * row is added; a logged row carries the decoded timestamp, the payload
   * verbatim, and `sent` exactly when forwarding was on and the publish was
   * confirmed. Nothing else in the store changes.
   */
  lemma IngestEffect(env: Env, w: World, c: Class, data: Bytes)
    requires Consistent(w)
    ensures var w' := IngestSpec(env, w, c, data);
      && w'.connected == w.connected
      && (!Forwarding(env, c) ==> w'.attempts == w.attempts)
      && (Forwarding(env, c) ==>
            w'.attempts == w.attempts + [Publication(TopicOf(env, c), env.config.mqtt.qos, Blob(data))])
      && (!Logging(env, c) || w.db.None? || Decode(env, c, data).None? ==> w'.db == w.db)
      && (Logging(env, c) && w.db.Some? && Decode(env, c, data).Some? ==>
            var t := TableOf(w.db.value, c);
            && w'.db.Some?
            && TableOf(w'.db.value, c) == t + [Row(|t| + 1, Decode(env, c, data).value, data,
                                                   Forwarding(env, c) && NextOk(w.outcomes))]
            && (forall d :: d != c ==> TableOf(w'.db.value, d) == TableOf(w.db.value, d)))
  {
  }

  /**
   * A resend request is always answered once, on the request topic plus
   * "/response"; an unparseable request is answered `false` and never reaches
   * the store; otherwise the answer is `true` exactly when the resend
   * returned no error.
   */
  lemma ResendRequestAnswer(env: Env, w: World, c: Class, requestTopic: string, payload: Bytes)
    ensures var w' := ResendRequestSpec(env, w, c, requestTopic, payload);
      && |w'.attempts| > |w.attempts|
      && var answer := w'.attempts[|w'.attempts| - 1];
         && answer.topic == requestTopic + "/response"
         && answer.payload.ResponseJson?
         && answer.payload.successKey == "suceess"
         && (env.parseRequest(payload).None? ==>
               && !answer.payload.success
               && w' == w.(outcomes := RestOf(w.outcomes), attempts := w.attempts + [answer]))
         && (env.parseRequest(payload).Some? ==>
               var (start, end) := env.parseRequest(payload).value;
               answer.payload.success == ResendSpec(env, w, c, start, end).1.None?)
  {
  }

  /**
   * The tick does nothing while disconnected, and a class whose forwarding is
   * off keeps its table as it was.
   */
  lemma TickEffect(env: Env, w: World, pollutantNow: Int64, rawNow: Int64)
    ensures !w.connected ==> TickSpec(env, w, pollutantNow, rawNow) == w
    ensures forall c :: !Forwarding(env, c) && w.db.Some? ==>
      var w' := TickSpec(env, w, pollutantNow, rawNow);
      w'.db.Some? && TableOf(w'.db.value, c) == TableOf(w.db.value, c)
    ensures w.connected && !Forwarding(env, Pollutant) ==>
      TickSpec(env, w, pollutantNow, rawNow)
        == (if Forwarding(env, Raw) then ResendSpec(env, w, Raw, 0, rawNow).0 else w)
    ensures w.connected && !Forwarding(env, Raw) ==>
      TickSpec(env, w, pollutantNow, rawNow)
        == (if Forwarding(env, Pollutant) then ResendSpec(env, w, Pollutant, 0, pollutantNow).0 else w)
  {
  }

  /**
   * No store file is named or opened while every clock reading is before the
   * milestone; otherwise the file is the one for the first synchronised
   * reading's month, and one repair is run per read-only open error before
   * the first successful open.
   */
  lemma InitEffect(env: Env, w: World, clock: seq<UtcTime>, opens: seq<OpenResult>, file: Store)
    requires forall i :: 0 <= i < |clock| ==> ValidTime(clock[i])
    ensures var (w', out) := InitSpec(env, w, clock, opens, file);
      && ((forall i :: 0 <= i < |clock| ==> Before(clock[i], Milestone)) <==> out == WaitingForClock)
      && (out == WaitingForClock ==> w' == w)
      && (out.Opened? <==> out != WaitingForClock && OpenOk in opens)
      && (out.Opened? ==> w'.db == Some(file))
      && (!out.Opened? ==> w'.db == w.db)
      && w'.connected == w.connected && w'.attempts == w.attempts
      && (out != WaitingForClock ==>
            out.path == DbPath(env.config.server.mainFolder, env.config.mqtt.clientID, clock[FirstSynced(clock)]))
      && (out != WaitingForClock ==> w'.repairs == w.repairs + Repairs(opens[..FirstOpened(opens)]))
  {
    var k := FirstSynced(clock);
    if k == |clock| {
      assert forall i :: 0 <= i < |clock| ==> Before(clock[i], Milestone);
    } else {
      assert !Before(clock[k], Milestone);
      var j := FirstOpened(opens);
      if j < |opens| {
        assert opens[j] == OpenOk;
      } else {
        assert forall i :: 0 <= i < |opens| ==> opens[i] != OpenOk;
      }
    }
  }
}
