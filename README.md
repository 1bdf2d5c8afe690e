# multipart-pipe: a Dafny model of the upload relay's coordination core

multipart-pipe is Express-style middleware. It decodes a `multipart/form-data`
request and streams each file part to a storage sink (S3 by default) without
writing it to disk. This project models the logic in `index.js` that decides
what happens to each part and when the middleware's `next` callback is
called:

- **Refcount** (module `Refcounting`) is a reference-counted gate around
  `next`. `incr` and `decr` count uploads in flight. `close` marks the end of
  the form. `cancel(err, code)` fails the request. The pure functions `Step`
  and `Replay` give the effect of one call and of a sequence of calls. The
  class `Refcount` holds the source's three fields and a log of its callback
  invocations, and is proved to follow `Replay`.
- **The per-request handlers** that `pipe` registers on the form (module
  `Relay`) handle `field`, `part`, the streamer's completion callback, `close`
  and `error`. Each is a method of the class `Request`, which holds
  `req.form`, `req.files`, the log of streamer calls, the abort flag and the
  request's `Refcount`. The pure `Step` and `Run` define what the handlers
  do, and the class is proved to follow `Run`. The lemmas about `Run` cover
  every order of events. They lift the Refcount theorems to whole requests.
- **`defaults`** (module `OptionDefaults`) normalises the options object in
  place. `Normalize` gives the result as a value. The method `Defaults`
  rewrites an `Options` object to match it.
- **`s3streamer`** (module `S3`) writes the part's length and type into a
  header map that every upload shares. It then classifies the S3 client's
  answer as an error or a success.

The multipart decoder, the `bytes` size parser, regular expressions, the S3
client and the streamer are external collaborators. Their events become
method calls, and their functions become parameters (`parse`, `matches`,
`allow`, `fngen`). The streamer is represented by the log of its calls, and
the decoder's `bytesReceived`/`bytesExpected` become integer arguments.

The source has two textual defects. The model follows the evident intent in
both cases:

- `pipe` reads `opts.limit` and `opts.encoding` (index.js:19-20), but only
  `options` is in scope there. The model reads the normalised options.
- The `;` that ends index.js:31 cuts the `.on('part', ...)` chain off from
  `form`. The model registers every handler on the form.

Four behaviours of the code that a reader might not expect, all modelled as
written:

- `fngen` runs for every admitted part (index.js:41), even when a filename
  repeats, and `req.files` keeps the key of the last completed upload for
  a name (index.js:49).
- The success callback is not one-shot: nothing records that `cb()` has
  run. `maybecall` tests only `canceled`, `closed` and `count`, and
  `cancel` tests only `canceled`, so a second `close`, or a `cancel` after
  success, calls `next` again (index.js:128-144). `SecondCloseCallsAgain`
  and `CancelAfterSuccessCallsAgain` show both cases. That `next` is called
  at most once, and with the first failure's error whenever something
  fails, is proved for every request whose decoder sends nothing after its
  close and whose streamers each call back once
  (`Refcounting.Permitted`, `Relay.Contracted`). That it is then called
  exactly once, with no error, is proved for a request in which nothing
  fails (`Refcounting.Protocol`, `Relay.WellBehaved`).
- All uploads of one S3 streamer share one header map (index.js:95-99).
- The code given to `cancel` (400, 413 or 500) is only tested as a truth
  value and then dropped: `err.code = err` stores the error itself
  (index.js:135-137). The model carries the code on the Refcount call and
  otherwise ignores it.

## Model

| member | source | states |
|---|---|---|
| `Refcounting.Step` | index.js:121-145 | One call on a Refcount: `canceled` never goes back to false, and a canceled Refcount never calls back. `cb()` is called exactly when a `decr` or `close` leaves it uncanceled, closed and at count zero. `cb(err)` is called exactly when `cancel` meets an uncanceled Refcount. At most one callback per call. |
| `Refcounting.Replay` | index.js:112-145 | Over any sequence of calls, a canceled Refcount stays canceled and makes no further callback, whatever `incr`, `decr`, `close` or `cancel` follow. The callbacks are never more than the calls. |
| `Refcounting.ReplayFields` | index.js:115-131 | After any sequence of calls, `count` is the start count plus the increments minus the decrements. `closed` tells whether a `close` has happened, and `canceled` whether a `cancel` has. |
| `Refcounting.FailureIsFinal` | index.js:132-144 | Over any sequence of calls, no callback follows a `cb(err)`: at most one error is delivered, and it is the last callback. |
| `Refcounting.FirstErrorWins` | index.js:132-140 | The error delivered, if any, is the one passed to the first `cancel`. When there is a `cancel`, that error is delivered. |
| `Refcounting.ProtocolCalls` | index.js:121-145 | Under the protocol (no cancel, only decrements after the single close, every decrement matching an earlier increment), `cb()` has been called once exactly when the close has happened and the increments equal the decrements. Otherwise no callback has been made. |
| `Refcounting.SucceedsExactlyOnce` | index.js:112-145 | N increments, N decrements and one close in any order the protocol allows call `cb()` exactly once, at the last call (the close or the last decrement), and no prefix has called back. |
| `Refcounting.SecondCloseCallsAgain` | index.js:128-131 | The success callback is not one-shot: nothing records that `cb()` has run, so two closes on an idle Refcount call `cb()` twice. |
| `Refcounting.PermittedCallsLog` | index.js:112-145 | When increments and the close come before any close, every decrement matches an earlier increment, and a cancel after the close comes only while an increment is unmatched (cancels otherwise allowed anywhere), the callback log is exactly `[cb(err)]` with the first cancel's error if there was a cancel, else `[cb()]` if the close has happened and every increment is matched, else empty. |
| `Refcounting.PermittedCallsOnce` | index.js:112-145 | Under that discipline the callback is called at most once. |
| `Refcounting.CancelAfterSuccessCallsAgain` | index.js:132-140 | A cancel after the success callback still calls `cb(err)`: nothing records that `cb()` has run, and `cancel` tests only `canceled`. |
| `Refcounting.Refcount.constructor` | index.js:115-120 | A new Refcount has count 0, is neither closed nor canceled, and has not called back. |
| `Refcounting.Refcount.Incr` | index.js:121-123 | Adds one to the count and changes nothing else. It never calls back. |
| `Refcounting.Refcount.Decr` | index.js:124-127 | Subtracts one from the count, then calls `cb()` exactly when the Refcount is uncanceled, closed and at zero. |
| `Refcounting.Refcount.Close` | index.js:128-131 | Sets `closed`, then calls `cb()` exactly when the Refcount is uncanceled and at zero. |
| `Refcounting.Refcount.Cancel` | index.js:132-140 | Sets `canceled`. It calls `cb(err)` only if the Refcount was not canceled before, and leaves the count and `closed` alone. |
| `Refcounting.Refcount.MaybeCall` | index.js:141-145 | Calls `cb()` exactly when the firing condition holds, and changes no field. |
| `OptionDefaults.Normalize` | index.js:74-91 | Throws the missing-streamer error exactly when there is no streamer. Otherwise every option ends in normal form. A falsy encoding becomes 'utf8'. Only an absent limit gets '128mb', so a number such as 0 is kept, and a text limit is parsed. A RegExp `allow` is kept, and any other value becomes a RegExp of its text ('.*' when falsy). A function `filename` is kept, and anything else becomes the identity on the original filename. |
| `OptionDefaults.NormalIsFixed` | index.js:74-91 | Options already in normal form pass through `defaults` unchanged. |
| `OptionDefaults.NormalizeIdempotent` | index.js:74-91 | Running `defaults` on its own result changes nothing. |
| `OptionDefaults.ZeroLimitKept` | index.js:82-83 | A supplied limit of 0 survives normalisation as 0. |
| `OptionDefaults.Defaults` | index.js:74-91 | A missing options object or streamer throws and leaves the object untouched. Otherwise the object is rewritten in place to what `Normalize` gives, and the same object is returned. |
| `S3.DefaultHeaders` | index.js:95 | Without configured headers, the shared map holds exactly `x-amz-acl: public-read`. |
| `S3.WithPartHeaders` | index.js:97-99 | Starting an upload sets `Content-Length` to the part's byte count (undefined when unknown) and `Content-Type` to its content type. It keeps every other entry and adds no other key. |
| `S3.SharedHeadersKeepOthers` | index.js:95-99 | However many uploads share the map, every entry other than those two keeps its presence and value, `x-amz-acl` included. After at least one upload, the two entries describe the latest part. |
| `S3.Completion` | index.js:100-108 | A client error passes through unchanged. A response is a success exactly when its status is in 200..299. Any other status is an error naming that status. |
| `S3.S3Streamer.constructor` | index.js:95 | The shared map is the configured `headers` option, or the default map when none is given. No upload has started. |
| `S3.S3Streamer.Stream` | index.js:97-100 | Overwrites the two part entries of the shared map, then calls `putStream` with the part, its key and the updated map. |
| `Relay.Decide` | index.js:34-36 | A part with no filename, or whose content type fails the allow test, is skipped before the limit is looked at. An allowed file part is refused exactly when the limit is non-zero and the bytes received or expected exceed it. A limit of 0 never refuses. |
| `Relay.Step` | index.js:29-60 | A field updates only `req.form` (last write wins, and a field named `__proto__` stores nothing). A skipped part changes nothing: no name generated, no count, no streamer call. A part over the limit aborts the request and cancels it without counting or streaming the part. An admitted part adds one streamer call under `fngen(filename, type)` and one count. A failed upload cancels the request and leaves `req.files` alone. A successful upload sets `req.files[original]` to its key (nothing for the name `__proto__`), keeps every other key, and decrements once. Close closes the Refcount, and a form error cancels it. |
| `Relay.RunFollowsRefcount` | index.js:27-60 | The request's Refcount fields and every call of `next` are those the Refcount gives for the calls the handlers make on it (`Induced`). |
| `Relay.OneErrorAtMost` | index.js:36-60 | Whatever the decoder and the streamers do, `next` is never called after it has been called with an error. That error is the one of the first failure: a byte-limit breach, a failed upload or a form error. |
| `Relay.UploadsAdmitted` | index.js:33-44 | Every streamer call is for a file part whose content type passed the allow test. Its destination key is `fngen(original filename, content type)`. |
| `Relay.ProtoNeverStored` | index.js:24-50 | Whatever the events, neither `req.form` nor `req.files` gets an entry under `__proto__`: on a plain object that key reaches the prototype setter, which ignores a string. |
| `Relay.FilesNameUploads` | index.js:44-50 | Every `req.files` entry maps an original filename to the key generated for one of that filename's streamer calls. |
| `Relay.ContractedFollowsPermitted` | index.js:33-60 | A request whose decoder sends nothing after its close and whose streamer calls each call back once, with or without an error (parts over the limit and form errors allowed), drives its Refcount within the failure-tolerant discipline above. |
| `Relay.ExactlyOnceWithFailures` | index.js:23-63 | For such a request, failures included, `next` is called at most once. When anything has failed (a part over the limit, an upload error or a form error), that call is `next(err)` with the first failure's error. `next()` without an error comes only after the close and only when nothing has failed. |
| `Relay.WellBehavedFollowsProtocol` | index.js:33-60 | A request in which nothing fails (no form error, no part over the limit, every upload succeeds once, nothing but completions after the close) drives its Refcount within the Refcount's no-cancel protocol. The completed streamer calls are distinct and are all calls already made. |
| `Relay.WellBehavedCallsNext` | index.js:23-63 | For a request in which nothing fails, `next` has been called exactly once with no error if the form has closed and every streamer call has called back. Otherwise it has not been called. |
| `Relay.WellBehavedSucceedsOnce` | index.js:23-63 | For a request in which nothing fails, once the form closes and every upload completes (in any interleaving), `next()` is called exactly once, at the last event, and not before. |
| `Relay.NoFilesSucceedEmpty` | index.js:24-55 | For a request in which nothing fails, when no file part is admitted, the close calls `next()` once and `req.files` is empty. |
| `Relay.ConfigOf` | index.js:17-21 | The handlers use the normalised limit, encoding and filename generator, and an allow test that is the RegExp test of the normalised pattern. |
| `Relay.ZeroLimitNeverRefuses` | index.js:36 | A limit of 0 given to `pipe` survives `defaults` (index.js:82-83) and keeps the part handler's limit test off, so no part is refused as too large. |
| `Relay.DefaultLimitApplies` | index.js:36 | Without a `limit` option (index.js:82-83), an allowed file part is refused exactly when '128mb' parses to a non-zero size that the bytes received or expected exceed. |
| `Relay.DefaultKeyIsFilename` | index.js:41-44 | Without a `filename` function (index.js:86-88), an admitted part is streamed under its original filename. |
| `Relay.Pipe` | index.js:14-21 | `pipe(options)` throws exactly when `defaults` does. Otherwise it leaves the options normalised in place and builds the handlers' configuration from them. |
| `Relay.Request.constructor` | index.js:23-27 | A request starts with empty `req.form` and `req.files`, no streamer call and a fresh Refcount around `next`. |
| `Relay.Request.OnField` | index.js:29-31 | Stores the value under its name (last write wins; nothing under `__proto__`), as `Step` says, and changes nothing else. |
| `Relay.Request.OnPart` | index.js:33-52 | Skips, refuses at the limit (abort and cancel), or names, counts and streams the part, as `Step` says. |
| `Relay.Request.OnStreamed` | index.js:44-51 | A streamer callback: an error cancels the request, and a success records the name and decrements, as `Step` says. |
| `Relay.Request.OnClose` | index.js:54-56 | Closes the Refcount, which calls `next()` when no upload is outstanding and the request is not canceled. |
| `Relay.Request.OnError` | index.js:58-60 | Cancels the Refcount with the decoder's error. |

## Left out

- Multipart decoding (`multiparty.Form`, `form.parse(req)`) is a foreign library. Its events are the methods of `Request` (the events of `Run`). A request with no Content-Length, where the decoder's `bytesExpected` is null, is passed as 0, because JavaScript compares null as 0.
- `parseBytes` from the `bytes` package is a foreign function and is the parameter `parse`. The model passes it '128mb' but does not state its value. An unparsable text is taken to give 0, which is falsy like the parser's null.
- RegExp construction and matching are the parameter `matches` on a pattern's source text. The model does not capture that '.*' accepts every content type, that an invalid pattern makes `new RegExp` throw, or that a non-string `allow` value is turned into text.
- A RegExp `allow` option is kept as its source text only, so its flags are lost: `/png/i` is not modelled as case-insensitive. A pattern with the `g` or `y` flag keeps `lastIndex` between calls of `test`, so its answer for the same content type can change from part to part. `Config.allow` is a pure function and does not capture that.
- `Part.contentType` is always a string. A part without a Content-Type header gives `undefined` in the source: `typetest.test` then tests the text "undefined" (index.js:35), `fngen` receives `undefined` (index.js:41), and the S3 `Content-Type` header is set to `undefined` (index.js:99). The model does not distinguish that case from a header whose value is the text "undefined".
- Other JavaScript values in the options are reduced to the kinds the code distinguishes. The encoding is a string with "" for every falsy value. The limit is absent, a number or a text, with no null or NaN. The filename generator is missing, not a function, or a function.
- Network I/O is left out: `s3.putStream`'s transfer, `s3resp.resume()`, and the effect of `req.abort()` on the connection. The abort is kept only as a flag.
- Asynchrony is left out. Streamer completions and decoder events are method calls on one thread, in any order, and a callback that throws or re-enters the relay is not modelled.
- The streamer is the log of its calls. What a custom streamer does is not modelled. Its completions, an error or none, are inputs to `OnStreamed`, and `S3.Completion` gives them for the S3 streamer. The S3 response that `s3streamer` passes as a second callback argument is ignored by the relay, so it is not modelled.
- `err.code = err` (index.js:136) gives the error object a `code` property that refers to itself. Errors are values here, so that property is not represented. The status code passed to `cancel` is carried on the call and otherwise ignored, as in the source.
- A `cancel` with a falsy error would call `next()` as if the request had succeeded. Every call site passes an error object, and `Error` has no falsy value.
- Relay.Step: a completion whose index names no streamer call changes nothing. No such callback exists in the source, and `Request.OnStreamed` requires an index of a call already made.
- S3.S3Streamer: the `headers` option is copied into the streamer's own map. The model does not capture that the caller's object is the same object the streamer later rewrites. Each `putStream` call records the map as it is at that moment, so a client that reads the shared map later, after another upload has rewritten it, is not modelled.
- `pipe.s3` (index.js:66-69) only passes an S3 streamer into `pipe`, so there is nothing to prove about it.
