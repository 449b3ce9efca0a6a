# onion-datasync: store-and-forward engine, configuration merge and start-up

This project models in Dafny the core of onion-datasync, the data
synchronisation service of an AirSENCE sensor. The service receives raw and
pollutant measurements from a local MQTT broker. When enabled, it forwards
each one to a remote broker and logs it to a monthly SQLite file with a
`sent` flag. On request, and on a periodic tick, it resends the rows that
were never confirmed.

The model has these modules:

- `Basics` holds `Option`, bytes and 64-bit integers.
- `Config` holds the configuration records and `MergeUserConfig`. It is a
  class `Config` whose method assigns the thirteen user-controlled fields in
  place, proved equal to the pure merge `Merged`.
- `Cli` holds `argParse` and `loadConfig` from main.go. The function
  `ParseFrom` reads the arguments in key/value pairs. The class `Process`
  holds the two path globals and the configuration. Its `ArgParse` method
  runs the same loop as the source (index stepping by 2) and is proved equal
  to `ParseFrom`.
- `Text` holds the string helpers: first-occurrence replacement (Go's
  `strings.Replace(s, "+", id, 1)`), `strings.Contains`, and zero-padded
  decimal printing.
- `StoreFile` holds the clock milestone, the monthly file path, and the
  read-only error check.
- `Store` holds the two tables as sequences of rows `(id, ts, data, sent)`:
  - the resend query `Pending` (`sent = false and ts between start and end`,
    both ends included, store order);
  - the commit of buffered updates `ApplyUpdates`;
  - its specification `Acknowledge`.
- `Messages` and `Broker` hold the publications and the remote client. A
  publish consumes one outcome of an oracle sequence. Once the sequence is
  used up, every publish fails. Every publish call is recorded.
- `Engine` holds the handler's behaviour as functions of an abstract `World`:
  the connectivity flag, the open store, the publish oracle and log, and the
  counts of `InitDB` requests and file-system repairs. The property lemmas
  live here.
- `Handler` holds the class `Handler`. Its fields `connected`, `db`,
  `initSpawns` and `repairs` are updated in place by the callbacks. Each
  method is proved to leave `Snap()` equal to the matching `Engine`
  function of the old state. The resend loop (`PublishRows`) buffers the ids
  of confirmed rows, and `Scan` applies them only after the last row.

Inputs the source takes from the outside are parameters:

- the msgpack decoders of the two payload classes and the JSON request
  parser are function-typed fields of the handler (`Bytes -> Option<...>`);
- the remote broker's confirmations are the oracle of `RemoteClient`;
- `time.Now()` readings are arguments (`RunTick`, `InitDB`);
- the results of `sql.Open` are an argument of `InitDB`;
- the configuration readers are arguments of `LoadConfig`.

## Model

| member | source | states |
|---|---|---|
| Config.Merged | config/config.go:126-143 | The merge takes the four server toggles and the nine MQTT fields from the user configuration. It keeps GoDebug, MainFolder, WaitTime, Servers, KeyFile, CertFile and the whole Log section. |
| Config.MergedIsUnique | config/config.go:126-143 | Taking the thirteen user fields and keeping all the others pins down the result: a configuration satisfies both exactly when it is the merge. |
| Config.MergeIdempotent | config/config.go:126-143 | Merging the same user configuration twice equals merging it once. |
| Config.MergeLastWins | config/config.go:126-143 | Merging u1 and then u2 equals merging u2 alone. |
| Config.MergeIgnoresUserWaitTime | config/config.go:33 | The user's WaitTime is declared but has no effect on the merge. |
| Config.Config.MergeUserConfig | config/config.go:126-143 | The thirteen in-place assignments leave the object's data equal to the merge of its old data with the user configuration. |
| Cli.ParseFrom | main.go:53-80 | When parsing continues, each path is its starting value or one of the arguments. An exit names a non-path key among the arguments. An index panic happens only on an odd-length list. |
| Cli.ParseArgs | main.go:24-80 | When parsing continues, each path is its default ("config.tomlz", "config_user.toml") or one of the arguments. |
| Cli.ContinueReadsPairs | main.go:57-77 | Parsing continues only over an even-length argument list whose every key position holds -d, --default, -c or --config. |
| Cli.PairsContinue | main.go:57-67 | Conversely, every even-length list with a path key in each key position parses to Continue. |
| Cli.LastDefaultWins | main.go:60-63 | Appending -d v (or --default v) to a list that parses sets the config path to v and keeps the user-config path. A repeated key's last occurrence wins. |
| Cli.LastConfigWins | main.go:64-67 | Appending -c v (or --config v) to a list that parses sets the user-config path to v and keeps the config path. |
| Cli.KeyPositionOutcome | main.go:61-76 | Any other key in key position (-h, -v or unknown) ends the process with status 0 whatever follows. A path key as the last argument reads past the end of the list. |
| Cli.NoArgumentsKeepDefaults | main.go:24-26 | With no arguments the paths stay "config.tomlz" and "config_user.toml". |
| Cli.ValueTakenVerbatim | main.go:60-67 | The token after -d or -c is taken as the value even when it looks like a key. |
| Cli.LoadedConfig | main.go:93-99 | When the user file could not be read the defaults are kept unchanged. Otherwise the result takes the user fields and keeps the rest. |
| Cli.Process.constructor | main.go:24-26 | The path globals start at "config.tomlz" and "config_user.toml". |
| Cli.Process.ArgParse | main.go:53-80 | The index-by-two loop returns exactly what ParseFrom gives for the arguments and the old paths. When parsing continues, the path globals hold the parsed paths. |
| Cli.Process.LoadConfig | main.go:82-100 | An exit or an index panic from argument parsing is reported. A config file that cannot be read is fatal. Otherwise the configuration becomes LoadedConfig of the default file and the optional user file. |
| Text.ReplaceFirst | handler/Handler.go:61-66 | Only the first "+" of a topic template is replaced by the client id. A template without "+" is unchanged. |
| Text.ReplaceFirstReplacesFirst | handler/Handler.go:61-66 | The replacement holds a "+" at some position with none before it, and only that character is replaced by the client id. |
| Text.Contains | handler/Handler.go:198 | The substring test is true exactly when the text occurs at some position. |
| Text.PadValue | handler/Handler.go:145 | The zero-padded decimal digits read back as the number. |
| Text.PadExactWidth | handler/Handler.go:145 | A number below 10^width prints as exactly width digits. |
| StoreFile.SyncedClockYear | handler/Handler.go:21 | A clock not before 2021-04-01T00:00:00Z reads year 2021 or later, and at least April in 2021. |
| StoreFile.MonthStamp | handler/Handler.go:145 | The "200601" stamp is at least six digits. The last two read back as the month and the rest as the year, for every year. |
| StoreFile.DbPath | handler/Handler.go:141-146 | The path is the folder, "/", the client id and "_", then the month stamp, then ".db" and the SQLite options. |
| StoreFile.MonthStampRoundTrip | handler/Handler.go:141-146 | For four-digit years, the "200601" stamp is six digits that read back as the year and the month. |
| StoreFile.SamePathIffSameMonth | handler/Handler.go:141-146 | Two synchronised times name the same store file exactly when they fall in the same calendar month. |
| StoreFile.IsReadOnlyError | handler/Handler.go:197-202 | A repair is asked for exactly when the error text contains "read-only file system". |
| Store.Append | handler/Handler.go:480-496 | The insert appends exactly one row with the given ts, data and sent flag. It keeps the rows before it and the id numbering. |
| Store.Pending | handler/Handler.go:375-377 | The query returns only rows of the table with sent = false and start <= ts <= end, and returns every such row. |
| Store.PendingInStoreOrder | handler/Handler.go:390-395 | Without ORDER BY, the pending rows come back in increasing id order, each once. |
| Store.Acknowledge | handler/Handler.go:378-380 | The commit of a resend sets sent on every row with sent = false and start <= ts <= end, and on no other row. |
| Store.AcknowledgeLeavesNothingPending | handler/Handler.go:375-417 | After a committed resend nothing in the range is left to resend. |
| Store.AcknowledgeIdempotent | handler/Handler.go:375-417 | Committing the same range twice changes nothing more. |
| Store.AcknowledgeOnlyRaisesFlags | handler/Handler.go:378-380 | The commit only raises sent flags and never changes id, ts or data. |
| Store.ApplyUpdates | handler/Handler.go:407-413 | The buffered updates set sent on exactly the rows whose id was buffered, at commit. |
| Store.CommitMatchesAcknowledge | handler/Handler.go:395-416 | Applying the buffered `update ... where id = ?` statements for the scanned ids marks exactly the selected rows. |
| Messages.ResponseTopic | handler/Handler.go:304 | The response topic is the request topic followed by "/response". |
| Messages.ResponseTopicInjective | handler/Handler.go:304 | Distinct request topics get distinct response topics. |
| Broker.RemoteClient.Publish | handler/Handler.go:535-544 | A publish returns the next oracle outcome and consumes it. It records the publication. |
| Engine.DeriveTopics | handler/Handler.go:61-66 | Each of the six templates (raw, pollutant, both resend topics, will topic and will payload) has only its first "+" replaced by the client id. |
| Engine.ResendSpec | handler/Handler.go:366-418 | A resend keeps the flag and the repair count. It succeeds only when connected with a store open. A failure leaves the store as it was. The publish log only grows. |
| Engine.ScanSpec | handler/Handler.go:375-417 | The scan fails only on an unconfirmed publish, and then leaves the store as it was. It never touches the other table, the flag or the InitDB requests. |
| Engine.SaveSpec | handler/Handler.go:474-532 | A save fails with StoreNotOpen exactly when no store is open, and with UndecodablePayload exactly when a store is open but the payload does not decode. A failure adds no row. A success keeps every old row and appends one row with the next id, the decoded ts, the payload as received and the given sent flag. It leaves the other table and never publishes. |
| Engine.IngestSpec | handler/Handler.go:254-286 | Ingestion keeps the store ids well-formed and the flag unchanged. It publishes at most once. |
| Engine.RespondSpec | handler/Handler.go:547-559 | A response is exactly one publication of {"suceess": success, "message": text} on the given topic with the configured QoS, and nothing else changes. |
| Engine.ResendRequestSpec | handler/Handler.go:302-363 | Every request ends with a publication on the request topic plus "/response", and the flag is unchanged. |
| Engine.TickSpec | handler/Handler.go:590-602 | A tick keeps the flag. A disconnected tick changes nothing. The publish log only grows. |
| Engine.Repairs | handler/Handler.go:148-157 | The repairs asked for number at most the failed opens (`Failures`). |
| Engine.NoRepairsIff | handler/Handler.go:148-157 | No repair is asked for exactly when no failed open carried the read-only signature. |
| Engine.InitSpec | handler/Handler.go:123-158 | InitDB never touches the flag, the publish log or the InitDB requests. While waiting for the clock it changes nothing. The store becomes the file exactly when an open succeeded. |
| Engine.InitSpecAfterClock | handler/Handler.go:141-157 | Once a synchronised reading is found, the path is named from it and the repairs are counted up to the first successful open. |
| Engine.Delivered | handler/Handler.go:395-412 | Delivered counts the confirmed publishes before the first unconfirmed one, and never more than the rows. |
| Engine.ResendGuards | handler/Handler.go:366-374 | With the remote side down a resend changes nothing and reports it. With no store it only requests InitDB and reports it. |
| Engine.ResendSucceedsIff | handler/Handler.go:366-418 | A resend returns no error exactly when connected, a store is open, and every pending row's publish is confirmed. |
| Engine.ResendSuccessEffect | handler/Handler.go:375-417 | A successful resend publishes each pending row once, in store order, and marks every unsent row with start <= ts <= end as sent. It leaves rows outside the range, ids, data and the other table untouched. |
| Engine.ResendFailureCommitsNothing | handler/Handler.go:403-406 | A failed resend returns before the commit: the store and the flag are as before. |
| Engine.ResendAgainPublishesNothing | handler/Handler.go:375-417 | Once a range has been resent, resending it again publishes nothing and succeeds. |
| Engine.IngestEffect | handler/Handler.go:254-286 | With forwarding off nothing is published, and with logging off no row is added. A logged row carries the decoded ts and the payload verbatim. Its sent flag is true exactly when forwarding was on and the publish was confirmed. A missing store or an undecodable payload adds nothing. The other table never changes. |
| Engine.ResendRequestAnswer | handler/Handler.go:302-363 | Every request is answered once on the request topic plus "/response" under the key "suceess". An unparseable request is answered false and never runs the scan. Otherwise the answer is true exactly when the resend returned no error. |
| Engine.TickEffect | handler/Handler.go:590-602 | While disconnected the tick does nothing. A class whose forwarding is off keeps its table, and no resend runs for it: the tick is the other class's resend, or nothing. |
| Engine.InitEffect | handler/Handler.go:123-158 | No file is opened while every clock reading is before the milestone. Otherwise the path is named from the first synchronised reading's month, and one repair is counted per read-only error before the first successful open. The store becomes the opened file exactly when some open succeeds. The flag and the publish log are untouched. |
| Engine.FirstSynced | handler/Handler.go:131-139 | FirstSynced gives the index of the first clock reading not before the milestone. Every earlier reading is before it. |
| Engine.FirstOpened | handler/Handler.go:148-157 | FirstOpened gives the index of the first successful open. Every earlier attempt failed. |
| Handler.Handler.constructor | handler/Handler.go:56-118 | The handler derives its topics from the templates and starts disconnected with no store open. It has requested one background InitDB. |
| Handler.Handler.OnRemoteConnect | handler/Handler.go:224-226 | The connect callback sets the flag and changes nothing else. |
| Handler.Handler.OnRemoteConnectionLost | handler/Handler.go:240-242 | The lost-connection callback clears the flag and changes nothing else. |
| Handler.Handler.StartTx | handler/Handler.go:176-186 | With no store, startTx requests InitDB and fails. Otherwise it succeeds and changes nothing. |
| Handler.Handler.Send | handler/Handler.go:535-544 | The payload is published verbatim on the class's topic with the configured QoS. |
| Handler.Handler.SaveDatabase | handler/Handler.go:474-532 | The save keeps the store ids well-formed and equals SaveSpec: no store or an undecodable payload gives an error and no row, otherwise one row is appended. |
| Handler.Handler.Ingest | handler/Handler.go:254-286 | Ingest keeps the store well-formed and leaves the state IngestSpec gives. |
| Handler.Handler.RawHandler | handler/Handler.go:254-268 | rawHandler is ingestion for the raw class. |
| Handler.Handler.PollutantHandler | handler/Handler.go:272-286 | pollutantHandler is ingestion for the pollutant class. |
| Handler.Handler.Resend | handler/Handler.go:366-374 | The guards refuse while disconnected or without a store. Otherwise the state and error are those of the scan. |
| Handler.Handler.Scan | handler/Handler.go:375-417 | The buffered transaction leaves exactly the state and error ScanSpec gives. The updates are applied at commit only. |
| Handler.Handler.PublishRows | handler/Handler.go:395-412 | The loop publishes the rows in order until the first unconfirmed publish. It returns the ids of all rows exactly when every publish was confirmed. |
| Handler.Handler.MqttResponse | handler/Handler.go:547-559 | The response object goes out on the remote client whatever the outcome. |
| Handler.Handler.ResendHandler | handler/Handler.go:302-363 | A request leaves the state ResendRequestSpec gives and keeps the store well-formed. |
| Handler.Handler.ResendRawHandler | handler/Handler.go:302-328 | resendRawHandler is the request handler for the raw class. |
| Handler.Handler.ResendPollutantHandler | handler/Handler.go:338-364 | resendPollutantHandler is the request handler for the pollutant class. |
| Handler.Handler.RunTick | handler/Handler.go:590-602 | While connected, the tick resends [0, now] for pollutant and then raw, each only if its forwarding toggle is on. |
| Handler.Handler.AwaitClock | handler/Handler.go:131-139 | The clock loop stops at the first reading not before the milestone. |
| Handler.Handler.RetryOpen | handler/Handler.go:148-157 | The open loop stops at the first successful open and counts one repair per read-only error before it. Nothing else changes. |
| Handler.Handler.InitDB | handler/Handler.go:123-158 | The two retry loops leave the state InitSpec gives: one repair per read-only open error, and the file's month from the first synchronised reading. |

## Left out

- MQTT client construction, local and remote connect, subscriptions, TLS key
  loading and last-will options (handler/Handler.go:78-117, 206-220,
  228-232): these are library calls. The derived last-will topic and payload
  are computed (`Engine.DeriveTopics`) but not used.
- Handler.Handler.OnRemoteConnectionLost: the reconnect attempt at
  handler/Handler.go:243-249 is a library call and is not modelled; only the
  flag is.
- `pubTokenHandler`'s blocking wait (handler/Handler.go:573-577): a publish
  is reduced to its confirmation flag.
- SQLite specifics:
  - the errors of `Begin`, `Prepare`, `Query`, `Scan`, the update `Exec`,
    the insert `Exec` and `Commit` are not modelled; the store always answers;
  - the `create table` statements are not modelled (the opened file is given
    with both tables);
  - the DSN flags are not modelled beyond the path text;
  - the select running on the connection rather than in the transaction, and
    the missing `Rollback`, are not modelled.
- Engine.ResendFailureCommitsNothing: covers only a failed publish. A failed
  update `Exec` or `Commit` is one of the statement errors above.
- msgpack and JSON decoding are abstract partial functions. JSON encoding of
  the response and RFC 3339 formatting of its text are not modelled either:
  the response message is the datatype `ResponseText`, not its string.
- `fixFileSystem` runs `fsck.fat` as an external process. Only the number of
  repairs asked for is counted.
- Concurrency and timing are not modelled:
  - the `go handler.InitDB()` spawns (at construction and whenever no store
    is open) are counted, not run;
  - the sleeps between retries are left out;
  - the ticker and `select` in `Run`, and the unsynchronised access to the
    flag, are left out.
- `DB.Close` on shutdown is not modelled.
- The resend interval is not modelled. It is counted in minutes at
  handler/Handler.go:581, although the field comment says seconds.
- Handler.Handler.InitDB: the clock readings and open results are finite
  sequences. When they run out, the model reports that it is still waiting
  or retrying instead of looping for ever.
- Clock readings are calendar UTC times. The conversion from the system
  clock's epoch seconds to a calendar date is library code.
- StoreFile.MonthStampRoundTrip: proved only for years up to 9999, which
  Go's "2006" layout prints on four digits.
- `ReadConf` and `ReadUserConf` (config/config.go:84-124) are zip and TOML
  file I/O. They are parameters of `LoadConfig` returning `None` on failure.
- `log.Fatalf` is the outcome `Fatal`. The exits of `-h`, `-v` and an
  unknown key are the outcome `Exited`. The help banner, logging, signal
  handling, `gracefullShutdown` and the rest of `main` are not modelled.
- Measurement payloads are opaque bytes apart from their decoded timestamp.
- A resend scan is confined to the store file opened by `InitDB`, so earlier
  months' files are not reached (the TODO at handler/Handler.go:288-292).
  No new month's file is opened while running either: `InitDB` is started
  only at construction and while no store is open (handler/Handler.go:118,
  178, 372, 426).
- Ingestion publishes whatever the connectivity flag says, as
  handler/Handler.go:254-262 does. The flag gates only the resend scans and
  the tick.
