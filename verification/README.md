# log_agg, modelled in Dafny

log_agg is a log aggregation service. HTTP clients post log messages,
the service broadcasts each message to every registered output (one of
which archives it), and clients read archived messages back through a
filtered query endpoint. This project models three pieces of it and
proves their properties:

- `transform.dfy` (module `Transform`, Go package `log_agg` in
  `transform/transform.go`): the `Message` record; `Message.Read`, the
  `io.Reader` that drains the raw payload from the front; and the
  broadcast hub `Log_agg` (class `LogAgg`). The hub keeps a registry from
  tag to a pair of channels (class `OutputChannels`). Its operations are
  `Init`, `AddOutput`, `RemoveOutput`, `Close` and `WriteMessage`. The hub
  is sequential: each registered output's channel pair carries a
  delivery log, the messages handed to that output in hand-off order, and
  a flag saying whether its `done` channel has been closed.
- `api.dfy` (module `Api`, `api/api.go`): the `GET /logs` archive
  endpoint. Missing parameters get their defaults. `start`, `end` and
  `limit` are then parsed in that order, and the first one that fails
  decides the error. After that the archive's `Slice` is called once, and
  the result is marshalled into the response.
- `input.dfy` (module `Input`, `input/http.go`): the `POST /logs`
  handler. A request body becomes a `Message`: either the decoded JSON, or
  the raw text with priority 2 and tag `http-raw`. Its type is then
  defaulted, its time is stamped, and it is published on the hub.
- `wrappers.dfy` (module `Wrappers`): `Option` and `Result`.

Library calls are parameters of the model, not re-implementations:
`strconv.ParseInt`, `strconv.Atoi`, `lumber.LvlInt`, the archive's
`Slice`, `json.Marshal`, `json.Unmarshal`, `ioutil.ReadAll` and
`time.Now`. A `time.Time` is reduced to the instant it denotes, in Unix
nanoseconds.

Two behaviours of the code worth noting:
- Re-registering a tag that is already registered does not stop the old
  output's worker. `addOutput` overwrites the map entry, and the old
  `done` channel stays open (transform/transform.go:106).
- An unrecognised `level` in a query is not rejected. It is passed to
  `lumber.LvlInt`, and the request proceeds (api/api.go:104).

## Model

| member | source | states |
|---|---|---|
| `Transform.ReadByte` | transform/transform.go:149-154 | the returned byte followed by the new raw payload is the old raw payload; no other field of the message changes |
| `Transform.Chunk` | transform/transform.go:162-169 | what one Read takes is the prefix of the raw payload of length min(capacity, payload length) |
| `Transform.Eof` | transform/transform.go:145-147 | a message is at EOF exactly when a Read with any buffer would take no byte |
| `Transform.Read` | transform/transform.go:145-172 | empty Raw: n = 0, error EOF, message and buffer unchanged; otherwise nil error and n = min(cap(p), len(Raw)); p[0..n) followed by the new Raw is the old Raw; p beyond n is untouched; only Raw changes |
| `Transform.ReadAll` | transform/transform.go:156-172 | Reading with a non-empty buffer until EOF returns the whole raw payload, equal to the concatenated chunks, and leaves the message with no raw bytes |
| `Transform.ChunksReassemble` | transform/transform.go:156-172 | successive Reads with any non-empty buffer return the whole raw payload, in order, in non-empty chunks that fit the buffer |
| `Transform.BroadcastInOrder` | transform/transform.go:122-143 | after any sequence of broadcasts, each output registered throughout has received every message once, in call order, and the set of outputs is unchanged |
| `Transform.OutputChannels.constructor` | transform/transform.go:89-92 | a new channel pair has delivered nothing and its done channel is open |
| `Transform.LogAgg.Init` | transform/transform.go:64-70 | a new hub has an empty registry |
| `Transform.LogAgg.AddOutput` | transform/transform.go:88-107 | the tag is bound to fresh open channels with an empty log; every other tag keeps its entry; a replaced entry is dropped from the registry but not closed |
| `Transform.LogAgg.RemoveOutput` | transform/transform.go:114-120 | a registered tag has its done channel closed and only that tag is removed; an unregistered tag changes nothing; no delivery log changes |
| `Transform.LogAgg.Close` | transform/transform.go:77-81 | the registry is empty afterwards, and every output registered before has been closed with its log unchanged |
| `Transform.LogAgg.WriteMessage` | transform/transform.go:129-143 | each registered output's log gets the message appended exactly once; the registry is unchanged; the resulting logs are one broadcast step of the old ones |
| `Transform.DeliveryOrderScenario` | transform/transform.go:122-143 | an output sees two writes once each, in call order (extends the one-message test at transform/transform_test.go:30-73) |
| `Transform.LateOutputScenario` | transform/transform.go:129-143 | an output added after a write sees only the later write |
| `Transform.RemovedOutputScenario` | transform/transform_test.go:76-83 | a removed output is closed and sees no write made after its removal |
| `Api.Defaults` | api/api.go:80-102 | an empty or missing type, start, end, limit or level becomes the configured log type, "0", "0", "100" or "TRACE"; given values are kept; id and all tag values are taken as given |
| `Api.Validate` | api/api.go:104-122 | an unparseable start gives "bad start offset"; otherwise an unparseable end gives "bad end value"; otherwise an unparseable limit gives "bad limit"; success exactly when all three parse, with the Slice arguments built from the parsed values and the mapped level |
| `Api.ArchiveEndpoint` | api/api.go:75-139 | Slice is called exactly when validation passes, and then exactly once; a validation error gives 500 with its text and no call; a Slice error or a Marshal error gives 500 with that error's text; 200 exactly when Slice and Marshal succeed, with the marshalled body followed by a newline |
| `Api.LevelNeverRejects` | api/api.go:99-104 | any level value reaches Slice exactly when any other would, with the same arguments except the mapped level |
| `Api.GetLogsRequest` | api/api_test.go:76 | the query type=app, id=log-test, start=0, limit=1 calls Slice once for "app" from host "log-test", offset 0, end 0, limit 1, level TRACE |
| `Api.BadStartRefused` | api/api.go:105-110 | an unparseable start offset gives 500 "bad start offset" without calling Slice, whatever the other parameters are |
| `Input.ContainsOccurs` | input/http.go:26 | `Contains`, the model of `strings.Contains`, holds exactly when the substring occurs at some index |
| `Input.BytesToString` | input/http.go:33 | the conversion keeps every byte, in order |
| `Input.FromBody` | input/http.go:23-36 | without a decoding error the decoded message is used as is; with one, content is the whole body, priority 2 and tag ["http-raw"], and nothing else the decoder filled in changes |
| `Input.HttpInput` | input/http.go:15-50 | a read failure gives 500 and publishes nothing; a decoding error without "invalid character" gives 500 with its text and publishes nothing; the answer is 200 exactly when the body was read and decoded or rejected only as an invalid character, and exactly then one message is published and the body is "success!\n"; the published message has its type defaulted, its time set to now and UTime set to now in Unix nanoseconds, and nothing else changed |
| `Input.RawBodyPublished` | input/input_test.go:55-61 | a body rejected as an invalid character is published whole as the content, with priority 2, tag ["http-raw"], the default type and the current time |
| `Input.HandleIngest` | input/http.go:41-48 | the published message is broadcast once to every registered output; a failed request broadcasts nothing |

## Left out

- Goroutines, channels and the `WaitGroup`: the per-output worker
  (transform/transform.go:94-104) and the parallel fan-out
  (transform/transform.go:131-142) are replaced by appending to each
  registered output's delivery log. Because of this, the model does not
  capture that handlers run after `WriteMessage` returns, or the race
  between an in-flight write and a removal.
- The output function passed to `addOutput` is not stored. Its calls are
  the delivery log of the output's channels.
- The package-level singleton `Vac` and the exported wrappers `Init`,
  `Close`, `AddOutput`, `RemoveOutput` and `WriteMessage`, which only
  forward to it. The hub is an object instead.
- `Transform.Read`: a buffer whose length is less than its capacity can
  make the Go code panic, when `Raw` holds more than `len(p)` bytes. The
  model's buffer is an array whose length is its capacity, so this case
  does not arise.
- `Transform.Read` returns the updated message instead of updating it
  through a pointer receiver. Message is a value everywhere else in the
  code.
- The archive engine (`BoltArchive`, `Slice`, `Write`, `Expire`), retention
  parsing and `archiveInit` in output/output.go are not part of this
  model. Only the `Slice` interface appears, as a parameter.
- `Start`, `handleRequest` and `parseBody` in api/api.go (the network
  listener, request logging, body reading), config/config.go and
  main.go (flags and configuration files) are left out.
- The `Logger` and `Output` declarations, and all diagnostic logging.
- `time.Time` is reduced to its Unix-nanosecond instant. Its location and
  monotonic reading are not modelled, and neither is the undefined result
  of `UnixNano` outside the int64 range.
- Go strings are byte strings. The model uses character strings for
  error texts and response bodies, and maps each body byte to one
  character.
- `strconv.Atoi` returns Go's `int`, which is taken to be 64 bits wide, so
  the widening `int64(realLimit)` keeps the value.
