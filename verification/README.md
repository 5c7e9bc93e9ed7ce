# motu_websocket_bridge: the datastore client's poll/update protocol in Dafny

The bridge relays a MOTU AVB datastore to websocket clients. Its core is
`DatastoreClient`: it builds the address of one datastore resource, runs a
long-poll loop against it (a conditional GET carrying the last `ETag` in
`If-None-Match`, with every payload that is not a 304 handed to a sink),
stops when asked, and sends updates as PATCH requests.

The model is four modules:

- `Wrappers` — `Option`.
- `Decimal` — Python's `str` on an `int` (`IntToString`) and its inverse
  `ParseInt`. The change token and the `client=` query are both written this way.
- `DatastoreClient` — the client record (`Client`), construction (`New`),
  `Stop`, the resource address (`DatastoreUrl`) with its inverse `ParseUrl`,
  and `Send`. `ParseUrl` splits at the last '?'. The sub-path may hold a
  '?' (the route decodes `%3F`), but the identity never does. `Send` returns the PATCH it issues and whether it logged a
  warning. It takes the client as input only, so it cannot change it.
- `PollCycle` — `run` as a pure fold. The world outside the loop is a
  finite sequence of events: `Replied(response)` (the upstream answers the
  GET in flight), `StopCalled` and `Sent(message, status)`. `Start`
  raises the flag, resets the token to -1 and makes the first loop check.
  `Step` applies one event and `Run` folds them all. A `Session` records
  the client, the local token, every GET issued, every payload given to
  the sink, every PATCH and the outcome of every loop-condition check.
  The lemmas compare it with reference definitions that are stated over
  the events alone:
  - `Read`: every reply before the first stop, then only the one answering
    the GET already in flight;
  - `Emitted`: the bodies of the replies that are not 304s;
  - `LastEtag` and `Token`: the token state after some replies have been read;
  - `Patches`: one PATCH per send.

Payloads and messages are an opaque type `J`. A response's `ETag` is
already an integer, as `int(response.headers["ETag"])` would give it. The
random identity is a `draw` parameter of `New` that must lie in
`[0, 2^32-1]`.

Two behaviours of the code worth noting:

- The sink is called for every status other than 304, not only for 200.
- `run` sets `enabled` to true itself. So a `stop` made before `run`
  starts does not prevent the first GET (`StopBeforeRun`).

## Model

| member | source | states |
|---|---|---|
| `DatastoreClient.New` | src/package/motu_websocket_bridge/datastore_client.py:18-23 | The base address and the sub-path are kept. A supplied identity is kept unchanged. Without one, the identity lies in [0, 2^32-1]. A new client is not enabled. |
| `DatastoreClient.Stop` | src/package/motu_websocket_bridge/datastore_client.py:25-30 | Afterwards the flag is down. Address, path and identity are unchanged. |
| `DatastoreClient.StopIdempotent` | src/package/motu_websocket_bridge/datastore_client.py:25-30 | Calling `stop` a second time changes nothing. |
| `DatastoreClient.DatastoreUrl` | src/package/motu_websocket_bridge/datastore_client.py:32-37 | Computes the resource address, with one branch per case of the source. Its properties are stated by `UrlShape`, `UrlRoundTrip` and `UrlInjective`. |
| `DatastoreClient.UrlShape` | src/package/motu_websocket_bridge/datastore_client.py:32-37 | The address starts with base + "/datastore" and ends with the decimal identity. The next character is '?' for the root path, so there is no slash artefact, and '/' for any other path. |
| `DatastoreClient.UrlRoundTrip` | src/package/motu_websocket_bridge/datastore_client.py:33-37 | Parsing the address against its base gives back the sub-path and the identity, for every sub-path, including one that holds a '?'. |
| `DatastoreClient.UrlInjective` | src/package/motu_websocket_bridge/datastore_client.py:33-37 | On one server, two clients share an address exactly when they have the same sub-path and the same identity. |
| `DatastoreClient.Send` | src/package/motu_websocket_bridge/datastore_client.py:39-47 | The PATCH targets the client's resource address and carries the message as its `json` field. A warning is logged exactly when the status is not 200. |
| `Decimal.IntToString` | src/package/motu_websocket_bridge/datastore_client.py:35-37 | Computes `str` of an integer, as used for the identity and for the token at line 58. Its properties are stated by `IntToStringRoundTrip`, `IntToStringInjective` and `IntToStringChars`. |
| `Decimal.IntToStringChars` | src/package/motu_websocket_bridge/datastore_client.py:35-37 | A rendering holds only digits, plus a minus sign first when the integer is negative. So the identity can never contain the '?' that starts the query. |
| `Decimal.IntToStringRoundTrip` | src/package/motu_websocket_bridge/datastore_client.py:57-59 | Reading `str(n)` back gives n, for negative integers too. |
| `Decimal.IntToStringInjective` | src/package/motu_websocket_bridge/datastore_client.py:57-59 | Distinct tokens render as distinct header values. |
| `PollCycle.Start` | src/package/motu_websocket_bridge/datastore_client.py:53-56 | Entering `run`: raise the flag, reset the token to -1 and make the first loop check. Its effect is stated by `StopBeforeRun`, `SentinelText` and `RunTokens`. |
| `PollCycle.LoopCheck` | src/package/motu_websocket_bridge/datastore_client.py:56-62 | One test of the loop condition. When the flag is up, it issues a GET of the address carrying the current token. Its effect over a whole run is stated by `RunChecks`, `RunTokens` and `NoGetAfterStop`. |
| `PollCycle.Receive` | src/package/motu_websocket_bridge/datastore_client.py:62-69 | Reads one reply: stores its ETag, and hands on its body unless the status is 304. Its effect over a whole run is stated by `RunEmits` and `EmittedExactly`. |
| `PollCycle.Step` | src/package/motu_websocket_bridge/datastore_client.py:25-69 | Applies one event. A stop lowers the flag, a send adds a PATCH, and a reply is read only while a GET is in flight. This is stated phase by phase by `FoldRunning`, `FoldDraining` and `FoldFinished`. |
| `PollCycle.Fold` | src/package/motu_websocket_bridge/datastore_client.py:56-69 | Applies events in order. `FoldRunning`, `FoldDraining` and `FoldFinished` relate it to the reference definitions. |
| `PollCycle.Run` | src/package/motu_websocket_bridge/datastore_client.py:49-71 | A whole `run` against an ordering of events. It is tied to the reference definitions by `RunEmits`, `RunTokens`, `RunChecks`, `RunClient`, `RunPatches`, `SendsDoNotDisturb`, `ReadWithoutStop` and `ReadAfterStop`. |
| `PollCycle.SentinelText` | src/package/motu_websocket_bridge/datastore_client.py:54-58 | The initial token -1 is sent as the text "-1". |
| `PollCycle.RunEmits` | src/package/motu_websocket_bridge/datastore_client.py:62-69 | The sink receives exactly `Emitted` of the replies read, in order. The token ends as the ETag of the last reply read, whatever its status, or -1 if none was read. |
| `PollCycle.EmittedExactly` | src/package/motu_websocket_bridge/datastore_client.py:64-69 | The payloads handed on are the bodies of the replies whose status is not 304, one for each such reply, in increasing reply position. No 304 contributes. |
| `PollCycle.RunTokens` | src/package/motu_websocket_bridge/datastore_client.py:53-63 | The first GET carries "-1". The GET after reply k carries `str` of reply k's ETag. Every GET targets the client's address. While the loop runs there is one more GET than replies read. |
| `PollCycle.RunChecks` | src/package/motu_websocket_bridge/datastore_client.py:56-59 | The number of GETs equals the number of loop checks that found the flag up. The only failing check is the last one, and it happens exactly when the loop has exited. |
| `PollCycle.RunClient` | src/package/motu_websocket_bridge/datastore_client.py:49-56 | After a run the client keeps its address and identity. Its flag is down exactly when a stop occurred. |
| `PollCycle.RunPatches` | src/package/motu_websocket_bridge/datastore_client.py:39-47 | Every send issues one PATCH of the polled resource, in order, whether the loop is running or has exited. |
| `PollCycle.SendsDoNotDisturb` | src/package/motu_websocket_bridge/datastore_client.py:39-47 | Removing all sends from the events leaves the run unchanged apart from its PATCHes. So `send` affects neither the flag, the token, the GETs nor the sink. |
| `PollCycle.StopBeforeRun` | src/package/motu_websocket_bridge/datastore_client.py:53 | A run of a stopped client is the same as a run of the client, and it issues at least one GET. |
| `PollCycle.NoGetAfterStop` | src/package/motu_websocket_bridge/datastore_client.py:56-62 | Once `stop` has been called, no further GET is issued. |
| `PollCycle.ReadWithoutStop` | src/package/motu_websocket_bridge/datastore_client.py:56-69 | Without a stop, every reply is read and the loop keeps running. |
| `PollCycle.ReadAfterStop` | src/package/motu_websocket_bridge/datastore_client.py:56-69 | After the first stop, at most one more reply is read: the one answering the GET in flight. The loop exits exactly when such a reply arrives. |
| `PollCycle.FoldRunning` | src/package/motu_websocket_bridge/datastore_client.py:56-69 | While the flag is up, the loop state follows `Read`. |
| `PollCycle.FoldDraining` | src/package/motu_websocket_bridge/datastore_client.py:56-69 | With the flag down and a GET in flight, the next reply is read and then the loop exits. No GET is added. |
| `PollCycle.FoldFinished` | src/package/motu_websocket_bridge/datastore_client.py:56-71 | After the loop has exited, no reply is read and no GET is issued. |
| `PollCycle.Scenario` | src/package/motu_websocket_bridge/datastore_client.py:62-69 | Example run on "foo" with replies (7, 200), (7, 304), (9, 200). The sink gets the two 200 bodies, the token ends at 9, four GETs are issued, and the second and fourth carry "7" and "9". |

## Left out

- server.py: tornado handler and application wiring is not part of this model. This covers spawning `run` on open, `check_origin`, `on_close` forwarding to `stop`, logging setup and server start-up. The sub-path captured by the route is an input string.
- The call `send(json.loads(message), self.write_message)` in server.py:88 passes an extra argument that `send` does not accept. It is not modelled.
- HTTP, aiohttp sessions and header plumbing: a GET is a record (address, `If-None-Match`), a reply is (ETag, status, body) and a PATCH is (address, message).
- JSON encoding and decoding: payloads are opaque, and `int(ETag)` is assumed to succeed. A reply without an integer ETag, or a body that is not JSON, would raise in the source. No such fault is modelled.
- Transport failures and their exceptions. The events only contain replies that arrive.
- asyncio scheduling: interleaving is an ordering of events, and a `send` may fall anywhere in it. Restarting `run` on the same client is not modelled.
- Logging. The only logged outcome kept is `Send`'s warning flag.
- Randomness: the draw is a parameter constrained to the range `random.randint(0, 2^32-1)` yields.
- The module-level `main` (datastore_client.py:73-79) calls the constructor and `run` without their required arguments. It is not modelled.
