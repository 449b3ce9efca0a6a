/**
 * The handler of handler/Handler.go as an object: the remote-connectivity
 * flag and the open store are fields its callbacks update in place, the remote
 * client is an object it publishes through, and every method is proved to do
 * to the abstract state exactly what the `Engine` functions say.
 */
module Handler {
  import opened Basics
  import opened Config
  import opened Store
  import opened StoreFile
  import opened Messages
  import opened Broker
  import opened Engine

  class Handler {
    const env: Env
    const remote: RemoteClient
    var connected: bool
    var db: Option<Store>
    var initSpawns: nat
    var repairs: nat

    ghost predicate Valid()
      reads this
    {
      db.Some? ==> WellFormedStore(db.value)
    }

    function Snap(): (w: World)
      reads this, remote
    {
      World(connected, db, remote.outcomes, remote.attempts, initSpawns, repairs)
    }

    /**
     * `InitHandler`: derive the topics, start disconnected and with no store
     * open, and request one background `InitDB`.
     */
    constructor (
      config: ConfigData,
      decodeRaw: Bytes -> Option<Int64>,
      decodePollutant: Bytes -> Option<Int64>,
      parseRequest: Bytes -> Option<(Int64, Int64)>,
      remote: RemoteClient)
      ensures Valid()
      ensures env == Env(config, DeriveTopics(config.mqtt), decodeRaw, decodePollutant, parseRequest)
      ensures this.remote == remote
      ensures !connected && db.None? && initSpawns == 1 && repairs == 0
    {
      env := Env(config, DeriveTopics(config.mqtt), decodeRaw, decodePollutant, parseRequest);
      this.remote := remote;
      connected := false;
      db := None;
      initSpawns := 1;
      repairs := 0;
    }

    /** `ontConnectionHandler`: the remote session is up. */
    method OnRemoteConnect()
      modifies this
      ensures Snap() == old(Snap()).(connected := true)
    {
      connected := true;
    }

    /** `lostConnectionHandler`: the remote session is down. */
    method OnRemoteConnectionLost()
      modifies this
      ensures Snap() == old(Snap()).(connected := false)
    {
      connected := false;
    }

    /** `startTx`: with no store, ask for `InitDB` in the background and fail. */
    method StartTx() returns (ok: bool)
      modifies this
      ensures ok == old(db).Some?
      ensures Snap() == if ok then old(Snap()) else old(Snap()).(initSpawns := old(initSpawns) + 1)
    {
      if db.None? {
        initSpawns := initSpawns + 1;
        return false;
      }
      ok := true;
    }

    /** `sendRaw` / `sendPollutant`: publish the payload verbatim on the class's topic. */
    method Send(c: Class, data: Bytes) returns (ok: bool)
      modifies remote
      ensures (Snap(), ok) == PublishSpec(old(Snap()), TopicOf(env, c), env.config.mqtt.qos, Blob(data))
    {
      ok := remote.Publish(TopicOf(env, c), env.config.mqtt.qos, Blob(data));
    }

    /** `saveRawDatabase` / `savePollutantDatabase`. */
    method SaveDatabase(c: Class, data: Bytes, sent: bool) returns (err: Option<SaveError>)
      requires Valid()
      modifies this
      ensures Valid()
      ensures (Snap(), err) == SaveSpec(env, old(Snap()), c, data, sent)
    {
      var ok := StartTx();
      if !ok {
        return Some(StoreNotOpen);
      }
      var decoded := Decode(env, c, data);
      if decoded.None? {
        return Some(UndecodablePayload);
      }
      var s := db.value;
      db := Some(WithTable(s, c, Append(TableOf(s, c), decoded.value, data, sent)));
      err := None;
    }

    /** `rawHandler` / `pollutantHandler`. */
    method Ingest(c: Class, data: Bytes)
      requires Valid()
      modifies this, remote
      ensures Valid()
      ensures Snap() == IngestSpec(env, old(Snap()), c, data)
    {
      var sendSuccessful := false;
      if Forwarding(env, c) {
        sendSuccessful := Send(c, data);
      }
      if Logging(env, c) {
        var _ := SaveDatabase(c, data, sendSuccessful);
      }
    }

    method RawHandler(data: Bytes)
      requires Valid()
      modifies this, remote
      ensures Valid()
      ensures Snap() == IngestSpec(env, old(Snap()), Raw, data)
    {
      Ingest(Raw, data);
    }

    method PollutantHandler(data: Bytes)
      requires Valid()
      modifies this, remote
      ensures Valid()
      ensures Snap() == IngestSpec(env, old(Snap()), Pollutant, data)
    {
      Ingest(Pollutant, data);
    }

    /**
     * `resendRaw` / `resendPollutant`: refuse while the remote side is down or
     * no store is open, otherwise run the scan.
     */
    method Resend(c: Class, start: Int64, end: Int64) returns (err: Option<ResendError>)
      requires Valid()
      modifies this, remote
      ensures Valid()
      ensures (Snap(), err) == ResendSpec(env, old(Snap()), c, start, end)
    {
      if !connected {
        return Some(RemoteNotConnected);
      }
      if db.None? {
        initSpawns := initSpawns + 1;
        return Some(DatabaseNotConnected);
      }
      err := Scan(c, start, end);
    }

    /**
     * The transaction of a resend: publish each pending row in store order,
     * buffering its `sent` update; the updates are committed only after the
     * last row, and the first unconfirmed publish returns before the commit.
     */
    method Scan(c: Class, start: Int64, end: Int64) returns (err: Option<ResendError>)
      requires Valid() && db.Some?
      modifies this, remote
      ensures Valid()
      ensures (Snap(), err) == ScanSpec(env, old(Snap()), c, start, end)
    {
      ghost var w0 := Snap();
      var s := db.value;
      var t := TableOf(s, c);
      var rows := Pending(t, start, end);
      var updates, ok := PublishRows(TopicOf(env, c), env.config.mqtt.qos, rows);
      if !ok {
        ScanFailsAt(env, w0, c, start, end, Delivered(w0.outcomes, |rows|));
        return Some(PublishFailed);
      }
      ScanCommits(env, w0, c, start, end);
      CommitMatchesAcknowledge(t, start, end);
      AcknowledgeOnlyRaisesFlags(t, start, end);
      db := Some(WithTable(s, c, ApplyUpdates(t, updates)));
      err := None;
    }

    /**
     * The loop of a resend: publish `rows` in order, collecting the id of each
     * row whose publish was confirmed, and stop at the first that was not.
     */
    method PublishRows(topic: string, qos: Byte, rows: Table) returns (updates: seq<int>, ok: bool)
      modifies remote
      ensures var k := Delivered(old(remote.outcomes), |rows|);
        && ok == (k == |rows|)
        && (ok ==> updates == Ids(rows)
                   && remote.outcomes == Drop(old(remote.outcomes), k)
                   && remote.attempts == old(remote.attempts) + Forwards(topic, qos, rows))
        && (!ok ==> remote.outcomes == Drop(old(remote.outcomes), k + 1)
                    && remote.attempts == old(remote.attempts) + Forwards(topic, qos, rows[..k + 1]))
    {
      ghost var outcomes0, attempts0 := remote.outcomes, remote.attempts;
      ghost var k := Delivered(outcomes0, |rows|);
      updates := [];
      var i := 0;
      while i < |rows|
        invariant 0 <= i <= |rows| && i <= k
        invariant updates == Ids(rows[..i])
        invariant remote.outcomes == Drop(outcomes0, i)
        invariant remote.attempts == attempts0 + Forwards(topic, qos, rows[..i])
      {
        DropStep(outcomes0, i);
        ForwardsStep(topic, qos, rows, i);
        var sent := remote.Publish(topic, qos, Blob(rows[i].data));
        if !sent {
          assert i == k;
          return updates, false;
        }
        assert i < k;
        assert rows[..i + 1] == rows[..i] + [rows[i]];
        updates := updates + [rows[i].id];
        i := i + 1;
      }
      assert rows[..i] == rows;
      ok := true;
    }

    /** `mqttResponse`: publish `{"suceess": success, "message": text}` on the remote client. */
    method MqttResponse(topic: string, text: ResponseText, success: bool)
      modifies remote
      ensures Snap() == RespondSpec(env, old(Snap()), topic, text, success)
    {
      var _ := remote.Publish(topic, env.config.mqtt.qos, ResponseJson(SuccessKey, success, text));
    }

    /** `resendRawHandler` / `resendPollutantHandler` for a request received on `requestTopic`. */
    method ResendHandler(c: Class, requestTopic: string, payload: Bytes)
      requires Valid()
      modifies this, remote
      ensures Valid()
      ensures Snap() == ResendRequestSpec(env, old(Snap()), c, requestTopic, payload)
    {
      var resTopic := ResponseTopic(requestTopic);
      var request := env.parseRequest(payload);
      if request.None? {
        MqttResponse(resTopic, ParseFailed, false);
        return;
      }
      var (start, end) := request.value;
      var err := Resend(c, start, end);
      if err.Some? {
        MqttResponse(resTopic, ResendFailed(err.value), false);
      } else {
        MqttResponse(resTopic, Resent(c, start, end), true);
      }
    }

    method ResendRawHandler(requestTopic: string, payload: Bytes)
      requires Valid()
      modifies this, remote
      ensures Valid()
      ensures Snap() == ResendRequestSpec(env, old(Snap()), Raw, requestTopic, payload)
    {
      ResendHandler(Raw, requestTopic, payload);
    }

    method ResendPollutantHandler(requestTopic: string, payload: Bytes)
      requires Valid()
      modifies this, remote
      ensures Valid()
      ensures Snap() == ResendRequestSpec(env, old(Snap()), Pollutant, requestTopic, payload)
    {
      ResendHandler(Pollutant, requestTopic, payload);
    }

    /** One resend tick of `Run`, given the two `time.Now().Unix()` readings it takes. */
    method RunTick(pollutantNow: Int64, rawNow: Int64)
      requires Valid()
      modifies this, remote
      ensures Valid()
      ensures Snap() == TickSpec(env, old(Snap()), pollutantNow, rawNow)
    {
      if connected {
        if Forwarding(env, Pollutant) {
          var _ := Resend(Pollutant, 0, pollutantNow);
        }
        if Forwarding(env, Raw) {
          var _ := Resend(Raw, 0, rawNow);
        }
      }
    }

    /**
     * `InitDB`, given the successive clock readings taken while waiting for
     * the clock, the successive results of trying to open the file, and the
     * contents of the file once it opens.
     */
    method InitDB(clock: seq<UtcTime>, opens: seq<OpenResult>, file: Store) returns (out: InitOutcome)
      requires Valid()
      requires forall i :: 0 <= i < |clock| ==> ValidTime(clock[i])
      requires WellFormedStore(file)
      modifies this
      ensures Valid()
      ensures (Snap(), out) == InitSpec(env, old(Snap()), clock, opens, file)
    {
      var i := AwaitClock(clock);
      if i == |clock| {
        return WaitingForClock;
      }
      var path := DbPath(env.config.server.mainFolder, env.config.mqtt.clientID, clock[i]);
      var j := RetryOpen(opens);
      InitSpecAfterClock(env, old(Snap()), clock, opens, file, i, j);
      if j == |opens| {
        return RetryingOpen(path);
      }
      db := Some(file);
      out := Opened(path);
    }

    /** The first loop of `InitDB`: skip the clock readings before the milestone. */
    method AwaitClock(clock: seq<UtcTime>) returns (i: nat)
      requires forall k :: 0 <= k < |clock| ==> ValidTime(clock[k])
      ensures i == FirstSynced(clock)
    {
      i := 0;
      while i < |clock| && Before(clock[i], Milestone)
        invariant i <= FirstSynced(clock)
      {
        i := i + 1;
      }
    }

    /**
     * The second loop of `InitDB`: retry opening until one attempt succeeds,
     * asking for a file-system repair after each read-only error.
     */
    method RetryOpen(opens: seq<OpenResult>) returns (j: nat)
      modifies this
      ensures j == FirstOpened(opens)
      ensures Snap() == old(Snap()).(repairs := old(repairs) + Repairs(opens[..j]))
    {
      j := 0;
      while j < |opens| && opens[j].OpenErr?
        invariant 0 <= j <= FirstOpened(opens)
        invariant Snap() == old(Snap()).(repairs := old(repairs) + Repairs(opens[..j]))
      {
        assert opens[..j + 1][..j] == opens[..j];
        if IsReadOnlyError(opens[j].text) {
          repairs := repairs + 1;
        }
        j := j + 1;
      }
    }
  }
}
