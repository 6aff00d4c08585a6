# sqs-go-runner, modelled in Dafny

A model of the core of `sqs-go-runner`, a long-running worker. The worker
polls an Amazon SQS queue. It hands each received message to a handler
chosen by the message's `type` tag. It deletes a message from the queue
only when processing succeeded. The model has three parts:

- **Configuration** (`config.dfy`, module `Config`). `config.Load` becomes a
  total function from an environment (`map<string, string>`) to a `Config`
  or an error. `SQS_QUEUE_URL` is required. `SQS_REGION` defaults to
  `ap-northeast-1`. `POLLING_WAIT_TIME`, `MAX_MESSAGES` and
  `VISIBILITY_TIMEOUT` default to 20, 10 and 30. Go's
  `strconv.ParseInt(s, 10, 64)` is written out in `strconv.dfy` (module
  `Strconv`): an optional sign, one or more decimal digits, and a value
  within int64. `strconv.FormatInt` is a right inverse of it: parsing a
  formatted int64 gives it back. The converse does not hold, because
  `"+7"`, `"007"` and `"-0"` all parse but are never formatted.
  `Strconv.ParseIff` states exactly which texts parse to a given value. The
  two functions give a round trip from configurations to environments and
  back.
- **Dispatch** (`handler.dfy`, module `Handler`). `HandleMessage` decodes a
  body as a JSON envelope. It routes by exact string match on `type` to the
  task, notification, data-sync or unknown path. A body that does not
  decode goes to the raw path. Every path returns success. Each path also
  reports which path it is, in place of the log line it writes, so the
  result of `HandleMessage` shows the path taken. JSON decoding is
  a parameter `decode: string -> Option<Message>`. The `switch` is proved to
  agree with a tag-to-route registry.
- **Consumer** (`consumer.dfy`, module `Consumer`). `SQSConsumer` keeps its
  fields unchanged after construction, so it is a datatype whose methods
  are `Start` and `ReceiveAndProcessMessages`. The receive call, the
  delete call and the message handler are functions supplied by the caller,
  fresh for every iteration. The handler's and the delete call's outcomes
  are indexed by the message's position in its batch, so a redelivered
  message, or two equal bodies in one batch, can fare differently.
  The goroutines of one batch share no mutable state and are joined before
  the batch returns, so a batch is a sequential loop over its messages.
  That loop collects the delete requests and the logged errors. `Start` is
  a loop over a finite script of context checks (`Cancelled` or
  `Live(receive, handle, delete)`). It records an `Iterated` event for each iteration and a
  `Backoff(5)` event after each failed one. `NewSQSConsumer` copies the
  configuration with Go's truncating `int32` conversion, written out as
  `ToInt32`.

Go `error` values are the `Errors.Error` datatype. Each `fmt.Errorf("…: %w")`
wrapping site has its own constructor.

Only a failed iteration is followed by the 5-second sleep, shown as
`Backoff(5)`. An empty batch returns nil, and the loop polls again at once
(`StartIsPaced`).

JSON with an unrecognised `type` tag takes the unknown path, not the raw
one. Only a body that is not JSON takes the raw path. `TwoMessageBatch`
uses such a body, `bogus-text`, for its raw message.

`ToInt32` wraps configured values outside the int32 range without any check.
For example, `MAX_MESSAGES=4294967306` reaches the receive request as 10
(`NarrowingWraps`).

## Model

| member | source | states |
|---|---|---|
| `Strconv.Parse` | internal/config/config.go:34 | `strconv.ParseInt(s, 10, 64)` succeeds only on a non-empty string. After an optional `+`/`-`, every character is a decimal digit. The value is within int64 and has the sign of the text. These are necessary conditions; `Strconv.ParseIff` gives the exact set of accepted texts. |
| `Strconv.ParseAccepts` | internal/config/config.go:34 | Completeness: an optional sign, any number of leading zeros and the digits of an int64's magnitude parse to that int64. `-` is allowed on 0 and required on negative values. |
| `Strconv.ParseCanonical` | internal/config/config.go:34 | Soundness: every text that parses to v is its sign, some leading zeros and the digits of v's magnitude. |
| `Strconv.ParseIff` | internal/config/config.go:34 | Both directions together: `Parse(s) == Some(v)` if and only if s is a sign that fits v's sign, then zeros, then the digits of v's magnitude. |
| `Strconv.FormatInt` | internal/config/config.go:34 | `strconv.FormatInt(v, 10)`: starts with `-` exactly for negative values, never with `+`, and is all digits for non-negative values. `ParseFormatInt` makes it a right inverse of `Parse`. |
| `Strconv.ParseFormatInt` | internal/config/config.go:34-35 | Every int64 written in decimal parses back to itself, 0 and negative values included. |
| `Strconv.ParsePlusSign` | internal/config/config.go:42-43 | An explicit `+` sign is accepted on non-negative values. |
| `Strconv.ParseLeadingZero` | internal/config/config.go:50-51 | A leading zero does not change the value (`"020"` is 20). |
| `Strconv.ParseAboveRange` | internal/config/config.go:34 | Decimal text for a value above 2^63 - 1 is a (range) error. |
| `Strconv.ParseBelowRange` | internal/config/config.go:42 | Decimal text for a value below -2^63 is a (range) error. |
| `Strconv.ParseRejectsSyntax` | internal/config/config.go:33-36 | A lone sign, or any non-digit after the optional sign, is a (syntax) error. |
| `Config.Setting` | internal/config/config.go:32-37 | One numeric setting: the parsed value of the variable when it parses, and the default otherwise (an unset or empty variable does not parse). |
| `Config.Load` | internal/config/config.go:20-66 | Fails exactly when `SQS_QUEUE_URL` is unset or empty. Any configuration it returns has a non-empty queue URL and region. |
| `Config.LoadRequiresQueueURL` | internal/config/config.go:21-24 | The only error is a missing queue URL. That error is returned, and no config, exactly when the variable is unset or empty. |
| `Config.LoadRegion` | internal/config/config.go:26-29 | Region is `SQS_REGION` verbatim when it is non-empty, and `"ap-northeast-1"` otherwise. |
| `Config.LoadWaitTime` | internal/config/config.go:32-37 | The value is 20 when `POLLING_WAIT_TIME` is unset, empty or not a base-10 int64. Otherwise it is the parsed value. |
| `Config.LoadMaxMessages` | internal/config/config.go:40-45 | The same rule for `MAX_MESSAGES`, with default 10. |
| `Config.LoadVisibilityTimeout` | internal/config/config.go:48-53 | The same rule for `VISIBILITY_TIMEOUT`, with default 30. |
| `Config.LoadNoRangeCheck` | internal/config/config.go:34-35 | There is no range check. Any int64 written into one of the three variables is stored unchanged, 0 and negative values included. |
| `Config.LoadOverflowFallsBack` | internal/config/config.go:33-37 | A decimal value past int64 fails to parse, so the default 20 is kept. |
| `Config.LoadCopiesURLs` | internal/config/config.go:56-65 | Queue URL and endpoint URL are copied verbatim. The endpoint is `""` when `AWS_ENDPOINT_URL` is unset. |
| `Config.SettingIsolated` | internal/config/config.go:32-53 | Setting one numeric variable to any text leaves the outcome of `Load` and every other field unchanged. |
| `Config.LoadEnvironment` | internal/config/config.go:58-65 | Round trip: every configuration with a queue URL and a region is loaded back exactly from its own environment. So `Load`'s possible results are exactly these configurations. |
| `Handler.HandleMessage` | internal/handler/handler.go:29-52 | Takes the path `Classify` selects for the decoded body, and returns nil for every body and every decoder. |
| `Handler.Classify` | internal/handler/handler.go:31-51 | The raw path is chosen exactly when decoding fails. The unknown path is chosen exactly when the decoded tag is none of `task`, `notification` and `data-sync`. |
| `Handler.ProcessRawMessage` | internal/handler/handler.go:55-63 | The raw path returns nil. |
| `Handler.ProcessTaskMessage` | internal/handler/handler.go:66-74 | The task path returns nil. |
| `Handler.ProcessNotificationMessage` | internal/handler/handler.go:77-85 | The notification path returns nil. |
| `Handler.ProcessDataSyncMessage` | internal/handler/handler.go:88-96 | The data-sync path returns nil. |
| `Handler.ProcessUnknownMessage` | internal/handler/handler.go:99-105 | The unknown path returns nil. |
| `Handler.ClassifyIsRegistryLookup` | internal/handler/handler.go:41-51 | The `switch` equals a lookup in the tag table `{task, notification, data-sync}`. Every other tag selects the unknown path. |
| `Handler.TagSelectsRoute` | internal/handler/handler.go:41-47 | For the three named routes, a message takes a route if and only if its tag is that route's tag. Setting the tag selects the route. |
| `Handler.UndecodableIsRaw` | internal/handler/handler.go:32-35 | A body that does not decode takes the raw path and succeeds. |
| `Handler.TaskRoute` | internal/handler/handler.go:42-43 | Tag `"task"` takes the task path and succeeds. |
| `Handler.NotificationRoute` | internal/handler/handler.go:44-45 | Tag `"notification"` takes the notification path and succeeds. |
| `Handler.DataSyncRoute` | internal/handler/handler.go:46-47 | Tag `"data-sync"` takes the data-sync path and succeeds. |
| `Handler.UnknownRoute` | internal/handler/handler.go:48-50 | Any other decoded tag takes the unknown path and still succeeds. |
| `Handler.ExactTagMatch` | internal/handler/handler.go:41 | A missing tag (`""`), `"Task"` and `"task "` all take the unknown path, because matching is exact. |
| `Handler.RouteDependsOnTagOnly` | internal/handler/handler.go:41-51 | Two bodies that decode to envelopes with the same tag take the same path with the same result. The id, data and timestamp play no part. |
| `Consumer.ToInt32` | internal/consumer/consumer.go:64-66 | Go's `int32(x)`: the result is an int32 congruent to x modulo 2^32. It is x itself when x fits in int32. |
| `Consumer.ToInt32Unique` | internal/consumer/consumer.go:64-66 | Those two facts determine the conversion: any int32 congruent to x modulo 2^32 is `ToInt32(x)`. |
| `Consumer.NarrowingWraps` | internal/consumer/consumer.go:64-66 | Out-of-range values wrap: 2^32 + 10 becomes 10, and 2^31 becomes -2^31. |
| `Consumer.NewSQSConsumer` | internal/consumer/consumer.go:61-68 | The consumer keeps the configured queue URL. Each numeric field is the int32 narrowing of its configured value, and equals it when the value fits. |
| `Consumer.ReceiveRequestFromConfig` | internal/consumer/consumer.go:93-100 | With values in int32 range, the receive request carries the configured queue URL, batch size, wait time and visibility timeout, and asks for all attributes. |
| `Consumer.DefaultReceiveRequest` | internal/consumer/consumer.go:93-97 | An environment that names only the queue yields a receive request with 10 messages, a 20 s wait and a 30 s visibility timeout. |
| `Consumer.SqsConsumer.ReceiveParams` | internal/consumer/consumer.go:93-100 | The receive request carries the consumer's queue URL, batch size, wait time and visibility timeout, and asks for all attributes and all message attributes. |
| `Consumer.SqsConsumer.DeleteParams` | internal/consumer/consumer.go:161-164 | The delete request carries the consumer's queue URL and the message's receipt handle. |
| `Consumer.SqsConsumer.ProcessMessage` | internal/consumer/consumer.go:144-157 | Succeeds exactly when the handler succeeds on the body. A handler error comes back wrapped with the message id. |
| `Consumer.SqsConsumer.DeleteMessage` | internal/consumer/consumer.go:160-173 | Succeeds exactly when the delete call succeeds. The call's error comes back wrapped. |
| `Consumer.SqsConsumer.Acknowledged` | internal/consumer/consumer.go:125-134 | A batch issues at most one delete per message, each to the consumer's queue. |
| `Consumer.SqsConsumer.Swallowed` | internal/consumer/consumer.go:125-134 | A batch logs at most one error per message, each a processing or a delete error. |
| `Consumer.SqsConsumer.Iterate` | internal/consumer/consumer.go:91-141 | An iteration fails exactly when the receive call fails, and then processes, deletes and logs nothing. Otherwise it processes the received messages, with at most one delete and one logged error per message. |
| `Consumer.SqsConsumer.ReceiveAndProcessMessages` | internal/consumer/consumer.go:91-141 | A receive failure returns the wrapped error and processes and deletes nothing. Otherwise it returns nil, every message is processed once, and the deletes are those of the batch rule. An empty batch processes nothing. |
| `Consumer.SqsConsumer.StartTrace` | internal/consumer/consumer.go:72-88 | The loop returns only nil, and records at most two events (an iteration and a backoff) per context check. |
| `Consumer.SqsConsumer.Start` | internal/consumer/consumer.go:72-88 | Its run equals the loop's specification over the script. It only ever returns nil. |
| `Consumer.AcknowledgedCount` | internal/consumer/consumer.go:125-134 | The number of deletes is the batch size minus the number of messages whose processing failed. |
| `Consumer.OneFailureLeavesOne` | internal/consumer/consumer.go:125-134 | N messages with exactly one failure give N−1 deletes. |
| `Consumer.AcknowledgedExactly` | internal/consumer/consumer.go:161-164 | Every successfully processed message gets a delete. Every delete carries the consumer's queue URL and the receipt handle of a successfully processed message. |
| `Consumer.DeletedIffProcessed` | internal/consumer/consumer.go:125-134 | With distinct receipt handles, a message is deleted if and only if its processing succeeded. |
| `Consumer.AllSucceedAllDeleted` | internal/consumer/consumer.go:116-139 | When every message succeeds, every message is deleted with its own receipt handle. |
| `Consumer.StubHandlersDeleteAll` | internal/consumer/consumer.go:150-153 | With the current handlers, which never fail, every received message is deleted. |
| `Consumer.TwoMessageBatch` | internal/consumer/consumer.go:116-139 | A task envelope and a non-JSON body take the task and raw paths. Both are deleted with their own receipts, and the batch returns nil. |
| `Consumer.StartIsPaced` | internal/consumer/consumer.go:80-85 | A backoff of 5 follows every failed iteration. No other event is a backoff, so a successful or empty poll is followed directly by the next poll. |
| `Consumer.StartReturnsOnlyOnCancel` | internal/consumer/consumer.go:74-79 | `Start` returns if and only if a cancellation is observed, and then it returns nil. |
| `Consumer.IterationsBeforeCancel` | internal/consumer/consumer.go:74-87 | Cancellation is checked before every iteration. There is one iteration per check before the first cancellation, and none after it. |

## Left out

- The AWS SDK set-up in `NewSQSConsumer` (region option, custom endpoint resolver, `LoadDefaultConfig`, `sqs.NewFromConfig`, the `log.Fatalf` exit): foreign library calls. Only the copied field values are modelled.
- The `ReceiveMessage` and `DeleteMessage` wire calls: each is a function supplied to the model, from request to response or outcome. Cancellation of an in-flight receive belongs to that call and is not modelled.
- Goroutine scheduling and `sync.WaitGroup`: only the joined result of a batch is modelled. The model lists deletes and logged errors in batch order, while the source issues them in no fixed order.
- `time.Sleep`: the 5-second backoff is a `Backoff(5)` event. The simulated handler latencies (500 ms, 200 ms, 1 s) are left out.
- `encoding/json` and the parsing of `time.Time`: decoding is a parameter, and the timestamp is kept as text.
- The source of Go's `strconv` is not part of this model. `Strconv.Parse` follows the documented behaviour of `ParseInt` with base 10 and bit size 64, and reports syntax and range errors alike as `None`.
- `os.Getenv`: the environment is a map, and an absent key reads as `""`.
- `Consumer.SqsConsumer.ReceiveAndProcessMessages`: the SDK's message fields `MessageId`, `Body` and `ReceiptHandle` are `*string`, and the model assumes they are present. The nil-pointer panic in `processMessage` and `deleteMessage` when one is missing is not modelled.
- Log output: the text of the log lines is left out. The errors a batch logs instead of returning are kept as `logged`.
- `main.go`: signal handling, the context wiring, the health-check HTTP server on :8080 and the process exit.
- Non-termination of `Start`: `Start` runs over a finite script of context checks. `ScriptEnded` only means the script ran out before a cancellation.
- `Consumer.SqsConsumer.Start`: covered only up to the end of its finite script, because the Go loop does not terminate without cancellation.
