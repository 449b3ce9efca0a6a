/**
 * The service configuration (config/config.go): the full configuration read
 * from the packaged default file, the user configuration read from the user
 * file, and the merge of the latter into the former.
 */
module Config {
  import opened Basics

  datatype ServerConfig = ServerConfig(
    goDebug: bool,
    logRaw: bool,
    logPollutant: bool,
    sendRawData: bool,
    sendPollutantData: bool,
    mainFolder: string,
    waitTime: int)

  datatype LogConfig = LogConfig(
    filename: string,
    maxSize: int,
    maxBackups: int,
    maxAge: int,
    compress: bool)

  datatype MqttConfig = MqttConfig(
    servers: string,
    clientID: string,
    qos: Byte,
    willTopic: string,
    willPayload: string,
    rawTopic: string,
    pollutantTopic: string,
    resendRawTopic: string,
    resendPollutantTopic: string,
    resendingInterval: int,
    keyFile: string,
    certFile: string)

  /** The value of a Go `Config` struct. */
  datatype ConfigData = ConfigData(server: ServerConfig, log: LogConfig, mqtt: MqttConfig)

  datatype UserServerConfig = UserServerConfig(
    logRaw: bool,
    logPollutant: bool,
    sendRawData: bool,
    sendPollutantData: bool,
    waitTime: int)

  datatype UserMqttConfig = UserMqttConfig(
    clientID: string,
    qos: Byte,
    willTopic: string,
    willPayload: string,
    rawTopic: string,
    pollutantTopic: string,
    resendPollutantTopic: string,
    resendRawTopic: string,
    resendingInterval: int)

  /** The value of a Go `UserConfig` struct. */
  datatype UserConfig = UserConfig(server: UserServerConfig, mqtt: UserMqttConfig)

  /** The Go zero value of `Config`, which a `var CONFIG config.Config` starts as. */
  const ZeroConfig := ConfigData(
    ServerConfig(false, false, false, false, false, "", 0),
    LogConfig("", 0, 0, 0, false),
    MqttConfig("", "", 0, "", "", "", "", "", "", 0, "", ""))

  /** The thirteen fields of `c` that the user configuration controls hold the user's values. */
  predicate TakesUserFields(c: ConfigData, u: UserConfig) {
    && c.server.logRaw == u.server.logRaw
    && c.server.logPollutant == u.server.logPollutant
    && c.server.sendRawData == u.server.sendRawData
    && c.server.sendPollutantData == u.server.sendPollutantData
    && c.mqtt.clientID == u.mqtt.clientID
    && c.mqtt.qos == u.mqtt.qos
    && c.mqtt.rawTopic == u.mqtt.rawTopic
    && c.mqtt.pollutantTopic == u.mqtt.pollutantTopic
    && c.mqtt.resendRawTopic == u.mqtt.resendRawTopic
    && c.mqtt.resendPollutantTopic == u.mqtt.resendPollutantTopic
    && c.mqtt.willTopic == u.mqtt.willTopic
    && c.mqtt.willPayload == u.mqtt.willPayload
    && c.mqtt.resendingInterval == u.mqtt.resendingInterval
  }

  /** Every field the user configuration does not control is the same in `c` and `before`. */
  predicate KeepsOwnFields(c: ConfigData, before: ConfigData) {
    && c.server.goDebug == before.server.goDebug
    && c.server.mainFolder == before.server.mainFolder
    && c.server.waitTime == before.server.waitTime
    && c.mqtt.servers == before.mqtt.servers
    && c.mqtt.keyFile == before.mqtt.keyFile
    && c.mqtt.certFile == before.mqtt.certFile
    && c.log == before.log
  }

  /** The configuration `MergeUserConfig` leaves behind. */
  function Merged(c: ConfigData, u: UserConfig): (r: ConfigData)
    ensures TakesUserFields(r, u)
    ensures KeepsOwnFields(r, c)
  {
    ConfigData(
      c.server.(logRaw := u.server.logRaw,
                logPollutant := u.server.logPollutant,
                sendRawData := u.server.sendRawData,
                sendPollutantData := u.server.sendPollutantData),
      c.log,
      c.mqtt.(clientID := u.mqtt.clientID,
              qos := u.mqtt.qos,
              rawTopic := u.mqtt.rawTopic,
              pollutantTopic := u.mqtt.pollutantTopic,
              resendRawTopic := u.mqtt.resendRawTopic,
              resendPollutantTopic := u.mqtt.resendPollutantTopic,
              willTopic := u.mqtt.willTopic,
              willPayload := u.mqtt.willPayload,
              resendingInterval := u.mqtt.resendingInterval))
  }

  /** The two predicates pin the merge down: any configuration satisfying both is the merge. */
  lemma MergedIsUnique(r: ConfigData, c: ConfigData, u: UserConfig)
    ensures (TakesUserFields(r, u) && KeepsOwnFields(r, c)) <==> r == Merged(c, u)
  {
  }

  /** Merging the same user configuration twice is merging it once. */
  lemma MergeIdempotent(c: ConfigData, u: UserConfig)
    ensures Merged(Merged(c, u), u) == Merged(c, u)
  {
  }

  /** The last user configuration merged wins outright. */
  lemma MergeLastWins(c: ConfigData, u1: UserConfig, u2: UserConfig)
    ensures Merged(Merged(c, u1), u2) == Merged(c, u2)
  {
  }

  /** The user's `WaitTime` is declared but never read by the merge. */
  lemma MergeIgnoresUserWaitTime(c: ConfigData, u: UserConfig, w: int)
    ensures Merged(c, u.(server := u.server.(waitTime := w))) == Merged(c, u)
  {
  }

  /** A Go `*Config`: the merge assigns its fields in place. */
  class Config {
    var server: ServerConfig
    var log: LogConfig
    var mqtt: MqttConfig

    function Data(): ConfigData
      reads this
    {
      ConfigData(server, log, mqtt)
    }

    constructor (d: ConfigData)
      ensures Data() == d
    {
      server, log, mqtt := d.server, d.log, d.mqtt;
    }

    /** Overwrites the thirteen user-controlled fields, one assignment at a time. */
    method MergeUserConfig(u: UserConfig)
      modifies this
      ensures Data() == Merged(old(Data()), u)
    {
      server := server.(logPollutant := u.server.logPollutant);
      server := server.(logRaw := u.server.logRaw);
      server := server.(sendPollutantData := u.server.sendPollutantData);
      server := server.(sendRawData := u.server.sendRawData);

      mqtt := mqtt.(clientID := u.mqtt.clientID);
      mqtt := mqtt.(qos := u.mqtt.qos);
      mqtt := mqtt.(pollutantTopic := u.mqtt.pollutantTopic);
      mqtt := mqtt.(rawTopic := u.mqtt.rawTopic);
      mqtt := mqtt.(resendPollutantTopic := u.mqtt.resendPollutantTopic);
      mqtt := mqtt.(resendRawTopic := u.mqtt.resendRawTopic);
      mqtt := mqtt.(willTopic := u.mqtt.willTopic);
      mqtt := mqtt.(willPayload := u.mqtt.willPayload);
      mqtt := mqtt.(resendingInterval := u.mqtt.resendingInterval);
    }
  }
}
