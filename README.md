# Ouroboros networking core, modelled in Dafny

This project models the two stateful parts of the `ouroboros.network` package.

- **`AsyncHttp`** (`ouroboros/network/asynchttp.py`) is an HTTP client wrapper. It keeps default
  headers, a proxy and proxy credentials, and builds the options of every request from them. Its
  `post` follows redirects in a loop: a `302 Found` turns the request into a `get` and drops the
  `data` and `headers` options, and `301`, `302`, `303` and `307` re-target the URL to the
  response's `Location`. The file also has `canonicalHeaderKey`, which title-cases a header name
  segment by segment.
- **`AsyncClient`** (`ouroboros/network/asyncclient.py`) is an `asyncio.Protocol`. It keeps a
  nullable transport and a cumulative receive buffer (`FileStream`). Three of its four callbacks
  call owner-overridable hooks, in a fixed order relative to assigning, closing and clearing the
  transport; `eof_received` calls none and only returns `None`.

Modules:

| file | module | models |
|---|---|---|
| `wrappers.dfy` | `Wrappers` | `Option`, for Python's `None` |
| `header_key.dfy` | `HeaderKey` | `canonicalHeaderKey` as split / per-segment / join. `None` stands for the `IndexError` on an empty segment. `Title` is an independent character-by-character reference. |
| `http_options.dfy` | `HttpOptions` | the `**kwargs` bag as `map<string, Value>` and the options `request` builds from it |
| `http_redirect.dfy` | `HttpRedirect` | `post`'s redirect loop as a recursive specification over a finite sequence of transport exchanges, with lemmas that describe every request it issues |
| `async_http.dfy` | `Http` | class `AsyncHttp`: constructor, setters, `Request`, `Get`, and `Post` as a `while` loop proved against the specification |
| `file_stream.dfy` | `FileIO` | the part of `FileStream` the client uses: bytes, cursor, endianness, `END_OF_FILE`, `Write` |
| `async_client.dfy` | `Client` | class `AsyncClient`: the four callbacks, the default hooks, and a ghost trace of observable events |

The HTTP session is an oracle. The i-th request that `post` issues is answered by the i-th
`Exchange`, which is a reply (status and `Location`), a timeout or a transport failure. If the
exchanges run out while the server is still redirecting, the run is `Unfinished`: the source would
go on looping, because it has no hop limit. An owner hook is modelled only by whether it returns or
raises.

A caller keyword that binds a parameter a second time makes Python raise `TypeError` before any
request is sent. For `request`, `get` and `post` these keywords are `self`, `method` and `url`. For
the session call inside `request`, which passes `timeout = self.timeout` itself, it is `timeout`.
The model returns the outcome `TypeError(keyword)` with no request issued
(`HttpOptions.DuplicateKeyword` picks the keyword). `self` and `url` of `get` and `post` are bound at
their own call, before `method` is bound again when they call `request`.

Behaviour of the code that the model keeps as written:

- Header keys collide only when they are exactly equal, because the headers are a plain `dict`
  (`ExactKeyCollision`). They are not merged case-insensitively.
- `canonicalHeaderKey` is defined but never called, so headers are sent as given.
- `connection_lost` closes and clears the transport only if the hook returns normally.
- `post` has no redirect limit and no `TooManyRedirects` error.
- The path option is named `noQuotoPath`.

## Model

| member | source | states |
|---|---|---|
| `HeaderKey.Split` | ouroboros/network/asynchttp.py:10 | `key.split('-')` yields at least one segment, and no segment contains `-` |
| `HeaderKey.JoinSplit` | ouroboros/network/asynchttp.py:10 | joining the segments of a split with `-` gives back the key |
| `HeaderKey.Join` | ouroboros/network/asynchttp.py:10 | `'-'.join`: splitting the join of dash-free segments gives back the segments |
| `HeaderKey.CanonicalSegment` | ouroboros/network/asynchttp.py:10 | one segment keeps its length, its first character is upper-cased and every later one lower-cased |
| `HeaderKey.EmptySegmentIffDashFault` | ouroboros/network/asynchttp.py:10 | some segment is empty iff the key is empty, starts or ends with `-`, or has two `-` in a row |
| `HeaderKey.Title` | ouroboros/network/asynchttp.py:9-10 | reference definition: same length; each `-` kept; the character after a `-` (or the first) upper-cased; every other character lower-cased |
| `HeaderKey.CanonicalHeaderKey` | ouroboros/network/asynchttp.py:9-10 | `canonicalHeaderKey` raises exactly on the keys with an empty segment (both directions); on every other key, split / upper-first / lower-rest / join equals the character-wise `Title` |
| `HeaderKey.CanonicalCharacterwise` | ouroboros/network/asynchttp.py:9-10 | on success: length kept, `-` at exactly the same positions, each segment's first character upper-cased and the rest lower-cased |
| `HeaderKey.TitleKeepsDashFault` | ouroboros/network/asynchttp.py:10 | title-casing neither adds nor removes an empty segment |
| `HeaderKey.TitleIdempotent` | ouroboros/network/asynchttp.py:9-10 | title-casing twice equals title-casing once |
| `HeaderKey.CanonicalIdempotent` | ouroboros/network/asynchttp.py:9-10 | a canonical key is accepted again and maps to itself |
| `HttpOptions.EffectiveOptions` | ouroboros/network/asynchttp.py:189-207 | `noQuotoPath` removed. Headers are the defaults overridden on exact key equality by the per-call headers. `proxy` is injected iff a proxy is configured, and `proxy_auth` iff credentials are. Otherwise those keys, and every other key, pass through unchanged. |
| `HttpOptions.ExactKeyCollision` | ouroboros/network/asynchttp.py:199-201 | a per-call `x-token` does not replace a default `X-Token`: both are sent |
| `HttpOptions.DuplicateKeyword` | ouroboros/network/asynchttp.py:156-165 | the argument-binding `TypeError`: there is one iff the caller gives `self`, `url`, `method` or `timeout` (line 212); the reported keyword is one the caller gave, and a keyword of `get`/`post` itself (`self`, `url`) is reported before `method`, which is reported before the session's `timeout` |
| `HttpRedirect.RequestOutcome` | ouroboros/network/asynchttp.py:211-217 | a reply is returned unchanged; a timeout re-raises carrying method, URL and timeout; another failure propagates |
| `HttpRedirect.WithRedirectDefault` | ouroboros/network/asynchttp.py:160 | `allow_redirects` is set to `False` only when the caller gave none; every other key is untouched |
| `HttpRedirect.AfterFound` | ouroboros/network/asynchttp.py:169-173 | after a `302`, `data` and `headers` are gone (absent keys are no error); everything else stays |
| `HttpRedirect.PostRun` | ouroboros/network/asynchttp.py:164-186 | the loop issues at most one request per exchange; it issues none iff there is no exchange or a keyword is bound twice |
| `HttpRedirect.PostSpec` | ouroboros/network/asynchttp.py:159-165 | a keyword bound twice ends `post` with `TypeError` and no request; otherwise it issues a request iff there is an exchange, and the first one is a `post` to the given URL |
| `HttpRedirect.PostRunEnds` | ouroboros/network/asynchttp.py:164-186 | a keyword bound twice ends the loop with `TypeError` before any request, and only then is the outcome a `TypeError`. Otherwise the loop stops at the first exchange that is not a `301`/`302`/`303`/`307` reply, and that reply is returned unchanged (4xx and 5xx included); it is unfinished iff every exchange redirects |
| `HttpRedirect.PostRunUrls` | ouroboros/network/asynchttp.py:175-182 | the first request goes to the given URL; each later one goes to the `Location` of the redirect before it |
| `HttpRedirect.PostRunVerbs` | ouroboros/network/asynchttp.py:162-168 | the i-th request uses `get` iff an earlier reply was `302`, and the starting method otherwise |
| `HttpRedirect.PostRunOptions` | ouroboros/network/asynchttp.py:165-173 | the i-th request's options are built from the caller's options, with `data` and `headers` deleted iff an earlier reply was `302` |
| `HttpRedirect.PostMethodNeverReverts` | ouroboros/network/asynchttp.py:162-168 | `post` starts with `post`, uses only `post` or `get`, and never goes back to `post` once it has used `get` |
| `HttpRedirect.PostFoundStep` | ouroboros/network/asynchttp.py:167-182 | after a `302` the next request is a `get` to `Location`, with no `data` and only the client's default headers |
| `HttpRedirect.PostRedirectKeeps` | ouroboros/network/asynchttp.py:175-182 | after a `301`, `303` or `307` the next request goes to `Location` with the same method and options (a `303` does not downgrade) |
| `HttpRedirect.DefaultsOnlyAfterFound` | ouroboros/network/asynchttp.py:199-201 | with the per-call headers deleted, the headers sent are exactly the defaults |
| `HttpRedirect.PostOptionsDefaults` | ouroboros/network/asynchttp.py:160 | every request of `post` carries `allow_redirects` (the caller's value, else `False`) and never `noQuotoPath` |
| `Http.AsyncHttp.constructor` | ouroboros/network/asynchttp.py:106-113 | a new client has no default headers, no proxy, no credentials and the given timeout |
| `Http.AsyncHttp.SetHeaders` | ouroboros/network/asynchttp.py:132-133 | replaces the default header table |
| `Http.AsyncHttp.AddHeaders` | ouroboros/network/asynchttp.py:135-136 | keys are the union; the new value wins on equal keys; other old values stay |
| `Http.AsyncHttp.SetProxy` | ouroboros/network/asynchttp.py:144-150 | the proxy is exactly `"http://" + host + ":" + port` (so requests will carry it); credentials are stored iff `login` is truthy, and cleared otherwise |
| `Http.AsyncHttp.ClearProxy` | ouroboros/network/asynchttp.py:152-154 | proxy and credentials both reset to none |
| `Http.AsyncHttp.Request` | ouroboros/network/asynchttp.py:188-217 | a keyword binding `self`, `method`, `url` or `timeout` twice gives `TypeError` and sends nothing; otherwise the step-by-step option building produces `EffectiveOptions` of the client's state, and the result is `RequestOutcome`; the client's state, default headers included, is not modified |
| `Http.AsyncHttp.Get` | ouroboros/network/asynchttp.py:156-157 | a keyword bound twice gives `TypeError` and sends nothing; otherwise one `get` request to the URL, with the options `request` builds |
| `Http.AsyncHttp.Post` | ouroboros/network/asynchttp.py:159-186 | the `while` loop issues exactly the requests of `PostSpec` and ends as it does (a `TypeError` included), so every `PostRun*`/`Post*` lemma above describes it |
| `FileIO.FileStream.constructor` | ouroboros/network/asyncclient.py:12-13 | a stream over the initial bytes, at position 0, with the given endianness |
| `FileIO.FileStream.SetPosition` | ouroboros/network/asyncclient.py:36-38 | the `END_OF_FILE` sentinel resolves to the current length, and an offset is taken as given |
| `FileIO.FileStream.Write` | ouroboros/network/asyncclient.py:37 | bytes are written at the cursor, overwriting and then growing, and the cursor advances by their length |
| `Client.AsyncClient.constructor` | ouroboros/network/asyncclient.py:7-13 | no transport, an empty buffer at position 0, endianness from the argument, no events yet |
| `Client.AsyncClient.ConnectionMade` | ouroboros/network/asyncclient.py:26-33 | the transport is assigned before the hook runs (the hook sees it), and it stays assigned when the hook raises and the callback fails |
| `Client.AsyncClient.DataReceived` | ouroboros/network/asyncclient.py:35-44 | buffer = old buffer + chunk, position 0 when the hook runs, endianness and transport untouched, and the buffer already updated if the hook raises |
| `Client.AsyncClient.EofReceived` | ouroboros/network/asyncclient.py:46-47 | changes nothing and returns a false value (`None`) |
| `Client.AsyncClient.ConnectionLost` | ouroboros/network/asyncclient.py:49-57 | the hook runs first, with the transport still assigned. If it raises, the transport stays assigned and unclosed. Otherwise the transport is closed exactly once, then set to none. With no transport, `close()` fails. |
| `Client.AsyncClient.ConnectionMadeDefault` | ouroboros/network/asyncclient.py:63-64 | the default hook returns and changes no state |
| `Client.AsyncClient.DataReceivedDefault` | ouroboros/network/asyncclient.py:66-67 | the default hook returns and changes no state |
| `Client.AsyncClient.ConnectionLostDefault` | ouroboros/network/asyncclient.py:69-70 | the default hook returns and changes no state |

## Left out

- The aiohttp session, `TCPConnector`, `CookieJar`, `SetCookies` and the `cookies` property: this is state of a foreign library.
- `close` and `__del__`: they only schedule the session's close on the event loop.
- `AsyncHttp.Response` decoding (`text`, `json`, `plist`, `decode`): these are text encodings and foreign parsers. A reply is its status and `Location` only.
- `_ClientRequest`, `_CaseInsensitiveDict` and the process-wide `DEFAULT_HEADERS` patch are not used by anything modelled. The line that would install `_ClientRequest` is commented out, so the popped `noQuotoPath` value is discarded.
- Timeouts: the `asyncio.wait_for` race is not modelled. A timeout is an exchange the oracle supplies. The re-raised error is kept as its three parts (method, URL, seconds), not as the formatted message. The model's timeout is a whole number of seconds; the source also accepts fractional seconds such as `2.5`, or `None`.
- `create_connection`, `print_exception` and the event-loop argument are event-loop and traceback I/O. A raising hook makes its callback fail; which exception then surfaces is not modelled.
- Owner hooks: only whether they return or raise is modelled, not their effects on the client. The hook runs with the state recorded in the ghost `events` trace.
- `FileStream` internals (integer encoding by endianness, reads): the class is not part of this model beyond the operations above.
- `FileIO.FileStream.SetPosition`: requires an explicit offset to lie within the data. Only `0` and `END_OF_FILE` are used.
- `HeaderKey`: Python's `upper()`/`lower()` are modelled for ASCII letters only. Full Unicode case mapping can change a string's length (`'ß'.upper()` is `'SS'`).
- `Http.AsyncHttp.SetHeaders`: models the table as a value. The source stores the caller's `dict` by reference, so a later `AddHeaders` also changes the caller's `dict`; that aliasing is not captured.
- `Http.AsyncHttp.SetProxy`: takes the port as the text that `%s` produces. The credentials are kept as the values `aiohttp.BasicAuth` is built from, and its own validation of them is not modelled.
- `HttpOptions.WellFormed`: per-call `headers` must be a mapping. `dict.update` also accepts an iterable of pairs; that form is not modelled. Values other than flags, text, header tables and credentials are opaque.
- `HttpOptions.DuplicateKeyword`: when the caller repeats several parameters that are bound at the same stage (`self` and `url` of `get`/`post`; `self`, `url` and `method` of a direct `request`), Python names the first in the caller's keyword order. The model's options are an unordered map, so it names them in the fixed order `self`, `url`, `method`; which of them the error names is not modelled.
- `Http.AsyncHttp.Post`: reads the client's configuration once for the whole loop. The source awaits between hops, so a concurrent `SetHeaders`, `AddHeaders`, `SetProxy` or `ClearProxy` would affect the later hops; the model assumes the configuration does not change during a call.
- `Http.AsyncHttp.Request`: when the oracle has no exchange left, the model stops before sending and reports `Unfinished`; the request the source would send then is not recorded.
- `post`'s unbounded looping is visible only up to the number of exchanges supplied. A redirect without `Location` passes `None` on as the next URL; what the session then does is the oracle's answer.
