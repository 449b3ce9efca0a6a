/**
 * What the handler publishes on the remote broker (handler/Handler.go): the
 * measurement payloads it forwards verbatim and the responses to resend
 * requests, together with the errors those responses report.
 */
module Messages {
  import opened Basics
  import opened Store

  /** Why a resend scan returned an error. */
  datatype ResendError =
    | RemoteNotConnected     // "Remote MQTT client not connected"
    | DatabaseNotConnected   // "Database not connected"
    | PublishFailed          // a publish of a selected row was not confirmed

  /** Why saving a received message returned an error. */
  datatype SaveError =
    | StoreNotOpen           // `startTx` found no database
    | UndecodablePayload     // the msgpack payload did not decode

  /** The `message` text of a resend response, before it is formatted. */
  datatype ResponseText =
    | ParseFailed                                    // "Unable to parse resend request:..."
    | ResendFailed(error: ResendError)               // "Fail to resend:..."
    | Resent(c: Class, start: Int64, end: Int64)     // "Successfully resend ... data between ... and ..."

  /** The key under which the response object carries its success flag, spelled as on the wire. */
  const SuccessKey := "suceess"

  datatype Payload =
    | Blob(bytes: Bytes)
    | ResponseJson(successKey: string, success: bool, message: ResponseText)

  /** One publish call: topic, QoS and payload (never retained). */
  datatype Publication = Publication(topic: string, qos: Byte, payload: Payload)

  /** A response goes to the request's own topic with "/response" appended. */
  function ResponseTopic(requestTopic: string): (t: string)
    ensures |t| == |requestTopic| + 9
    ensures t[..|requestTopic|] == requestTopic && t[|requestTopic|..] == "/response"
  {
    requestTopic + "/response"
  }

  /** Distinct request topics get distinct response topics. */
  lemma ResponseTopicInjective(a: string, b: string)
    ensures ResponseTopic(a) == ResponseTopic(b) ==> a == b
  {
    if ResponseTopic(a) == ResponseTopic(b) {
      assert a == ResponseTopic(a)[..|a|];
    }
  }
}

/**
 * The remote MQTT client as the handler sees it: a publish either is
 * confirmed or is not. Whether each successive publish will be confirmed is
 * an oracle, `outcomes`; once it is used up every publish fails. Every
 * publish call is recorded in `attempts`, confirmed or not.
 */
module Broker {
  import opened Basics
  import opened Messages

  /** Whether the next publish is confirmed. */
  function NextOk(outcomes: seq<bool>): bool {
    |outcomes| > 0 && outcomes[0]
  }

  /** The oracle once one publish has consumed its outcome. */
  function RestOf(outcomes: seq<bool>): (r: seq<bool>)
    ensures |outcomes| > 0 ==> r == outcomes[1..]
    ensures |outcomes| == 0 ==> r == []
  {
    if outcomes == [] then [] else outcomes[1..]
  }

  class RemoteClient {
    var outcomes: seq<bool>
    var attempts: seq<Publication>

    constructor (outcomes: seq<bool>)
      ensures this.outcomes == outcomes && attempts == []
    {
      this.outcomes := outcomes;
      attempts := [];
    }

    /** `Publish(...)` followed by `pubTokenHandler`: the token's error, as a confirmation flag. */
    method Publish(topic: string, qos: Byte, payload: Payload) returns (ok: bool)
      modifies this
      ensures ok == NextOk(old(outcomes)) && outcomes == RestOf(old(outcomes))
      ensures attempts == old(attempts) + [Publication(topic, qos, payload)]
    {
      ok := NextOk(outcomes);
      outcomes := RestOf(outcomes);
      attempts := attempts + [Publication(topic, qos, payload)];
    }
  }
}
