# lua-resty-ffi-etcd dispatch loop, in Dafny

This project models the Go side of lua-resty-ffi-etcd, the bridge between an
nginx/OpenResty host and an etcd cluster. `libffi_init` starts one dispatch
goroutine. It takes commands from the host one at a time and keeps a registry
of etcd clients, each with its own registry of watches. It answers every
command through the host's `respond` call, with a task handle, a status (0 or
1) and a payload. A watch turns etcd's push stream into a pull protocol: each
WATCH_RECV puts one pending request in the watch's token channel. The
forwarder goroutine of that watch completes the request with the next item of
the etcd stream.

The model is sequential. Each handler is one atomic step, and the method
`Serve` runs a schedule of host commands and forwarder turns in order. The
host's `respond` calls and the close calls on watchers and sessions are
appended, in order, to a `Trace` of effects.

Files and modules:

- `base.dfy` (`Base`): the Go `byte` (wrapping arithmetic written out),
  byte strings, `Option`, ASCII literals.
- `decimal.dfy` (`Decimal`): `strconv.FormatUint(n, 10)`, the parse of the
  result and the proof that the two are inverse bijections.
- `watch_range.dfy` (`WatchRange`): the decoded WATCH_CREATE body and the
  option list built from it. Covers the prefix end key, byte-wise key order,
  what a prefix range holds, and which range end wins.
- `protocol.dfy` (`Protocol`): command kinds and status codes, commands and
  effects, the four-way WATCH_RECV decision with its answers, and the
  forwarder's completion of a pending receive.
- `registry.dfy` (`Registry`): the classes `Trace`, `Watcher` and
  `Dispatcher`, the client record, the close loop over a client's watchers,
  the registry invariant with one preservation lemma per handler, the five
  handlers, one dispatch step and the dispatch loop.

The model has four parts:

- **Client registry.** `Dispatcher.clients` and `Dispatcher.clientIdx` are the
  source's `clients` map and `client_idx` counter.
- **Watch registry.** Each client record carries `watchers` and `watcherIdx`.
- **Forwarders.** `Dispatcher.forwarders` holds every forwarder goroutine
  started so far, keyed by client id and watch id. A forwarder keeps running
  after its watch leaves the registry.
- **Watchers.** A `Watcher` holds the token channel (`slot`, `chOpen`), the
  etcd subscription (`stream`, `streamOpen`), the command its forwarder has
  taken (`held`) and the forwarder's exit flag.

## Model

| member | source | states |
|---|---|---|
| `Decimal.Format` | main.go:124 | The id is rendered as a non-empty string of decimal digits with no leading zero, and it starts with '0' only for id 0 |
| `Decimal.ParseFormat` | main.go:124-125 | Parsing the decimal answer of NEW or CREATE gives back the id |
| `Decimal.FormatInjective` | main.go:124-125 | Two different ids never get the same answer string |
| `Decimal.FormatValue` | main.go:124-125 | Every canonical decimal string is the answer for exactly the number it denotes |
| `WatchRange.RuneBytes` | main.go:162 | `string(ch)` on a byte gives that byte when it is below 0x80, and otherwise two bytes: a lead byte 0xC2 or 0xC3 and a continuation byte 0x80 to 0xBF |
| `WatchRange.RuneBytesDecode` | main.go:162 | The two bytes are the UTF-8 encoding of the byte's code point: they decode back to it |
| `WatchRange.PrefixEnd` | main.go:159-162 | The prefix end key keeps every byte of the key except the last. A last byte below 0x7F, or 0xFF, becomes itself plus one modulo 256. A last byte from 0x7F to 0xFE becomes the two-byte encoding of itself plus one, so the end key is one byte longer. It needs a non-empty key |
| `WatchRange.PrefixRangeExact` | main.go:159-163 | If the last byte is below 0x7F, the range [key, end) holds exactly the keys that start with key |
| `WatchRange.PrefixRangeTooWide` | main.go:159-163 | If the last byte is 0x7F to 0xC2, every key that starts with key is in the range [key, end), and the range also holds a key that does not start with key: the key with its last byte incremented |
| `WatchRange.PrefixRangeTooNarrow` | main.go:159-163 | If the last byte is 0xC3, the end key is key followed by 0x84, which starts with key and is outside the range |
| `WatchRange.PrefixRangeEmpty` | main.go:159-163 | If the last byte is 0xC4 to 0xFE, the end key sorts below the key and the range holds no key at all |
| `WatchRange.PrefixEndWraps` | main.go:160-162 | If the last byte is 0xFF, the end key wraps to 0x00 and sorts below the key |
| `WatchRange.PrefixRangeWraps` | main.go:160-163 | If a key of two or more bytes ends in 0xFF, the prefix range holds no key at all |
| `WatchRange.PrefixRangeWrapsAll` | main.go:160-163 | For the one-byte key 0xFF the end key is exactly 0x00, which the store reads as "no upper bound", so the watch covers every key from 0xFF on |
| `WatchRange.RangeOptions` | main.go:159-167 | The range options are the prefix end (first, when requested) and the explicit range (last, when present), and nothing else |
| `WatchRange.ExtraOptions` | main.go:168-173 | WithRev(r) is present iff rev is r, WithPrevKV iff prev is true, and there is no range option |
| `WatchRange.WatchOptions` | main.go:158-173 | At most four options; the prefix range comes first when requested; the explicit range is present when given; every range option comes from one of those two; WithRev iff rev; WithPrevKV iff prev is true |
| `WatchRange.WatchRangeEnd` | main.go:159-167 | Once the options are applied in order, an explicit range overrides the prefix end; the prefix end applies otherwise; with neither, there is no range end |
| `Protocol.ClassifyRecv` | main.go:235-256 | The four outcomes are exclusive and exhaustive, checked in order: unknown client, unknown watch, busy slot, enqueue |
| `Protocol.RecvReply` | main.go:238-256 | An unknown client gets status 0 with "invalid client"; an unknown watch gets status 1 with "invalid watcher"; a busy slot gets status 1 with no payload; an enqueued receive is not answered now |
| `Protocol.Completion` | main.go:209-219 | The pending task is completed with status 1 and the error text exactly when the item carries an error, and with status 0 and the item's encoding otherwise |
| `Registry.Watcher.Step` | main.go:204-223 | One forwarder turn at one of its two blocking points. With no command in hand, it takes the queued command out of the token channel, even once the channel is closed; a closed, empty channel ends the loop. With a command in hand, it takes exactly the next stream item and completes the command's task from it; at the end of a closed stream it completes with the empty response and ends the loop. Everything taken plus everything left is always the original stream, so no item is delivered twice |
| `Registry.Watcher.Shutdown` | main.go:140-141 | Closes the token channel and then the subscription; the channel must still be open, since closing a closed channel panics |
| `Registry.ShutdownWatchers` | main.go:138-143 | Every watcher of the client is closed, each exactly once, and one close effect is logged per watcher in the order the loop took them; the watchers must be registered under their own ids and still open |
| `Registry.ClosingEffectsAnswerNothing` | main.go:138-143 | Closing watchers completes no host task |
| `Registry.CloseClientAnswers` | main.go:131-149 | Closing a registered client completes exactly its own task, once |
| `Registry.RegisteredDistinct` | main.go:139-142 | Two registrations under different pairs of ids hold different watchers, so closing every registered watch closes no channel twice |
| `Registry.NewClientKeeps` | main.go:119-123 | A successful NEW keeps the registry invariant, and the new id was not registered before |
| `Registry.CloseClientKeeps` | main.go:135-144 | Removing a client keeps the registry invariant once its watchers count as closed; each of them is registered under its own id and was not closed before |
| `Registry.CreateWatchKeeps` | main.go:191-196 | A new watch keeps the registry invariant, and its id is neither registered nor used by any earlier forwarder |
| `Registry.Unregister` | main.go:265-277 | WATCH_CLOSE removes only that watch of that client; every other client, every other watch and every counter stay the same |
| `Registry.UnregisterIdempotent` | main.go:265-279 | Closing the same watch twice leaves the same registry as closing it once |
| `Registry.CloseWatchKeeps` | main.go:265-277 | WATCH_CLOSE keeps the registry invariant once the removed watch counts as closed, and that watch was not closed before |
| `Registry.Dispatcher.constructor` | main.go:92-94 | The loop starts with counter 0, no clients and no forwarders |
| `Registry.Dispatcher.NewClient` | main.go:114-130 | On success, the counter is old+1, a client with no watches is stored under the new id, only that key is added, and the answer is status 0 with the id in decimal; on failure, clients and counter are unchanged and the answer is status 1 with the error text; either way the task is completed once |
| `Registry.Dispatcher.CloseClient` | main.go:131-150 | Exactly the key `id` is removed; a known client has each of its watchers, all open before, closed, then its session, then the answer status 0 with no payload; an unknown id gets only that answer; either way the task is completed once |
| `Registry.Dispatcher.CreateWatch` | main.go:151-227 | The client's counter is old+1, and the new watch id is above every id the client has registered and was never used by a forwarder; a fresh, open watcher over the key and the resolved options, with an empty token slot, is registered and its forwarder started; the answer is status 0 with the watch id in decimal, and the task is completed once |
| `Registry.Dispatcher.Recv` | main.go:228-257 | The outcome is the four-way decision on the registry, and the answer is the one for that outcome; an enqueued command is in the slot of a channel that is still open, so no send goes to a closed channel, and nothing is answered; a busy slot keeps its command; only the token slot of the named watch can change |
| `Registry.Dispatcher.Unwatch` | main.go:270-274 | A registered watch leaves its client's registry, the counter stays, and its channel, open before, and its subscription are closed |
| `Registry.Dispatcher.CloseWatch` | main.go:258-280 | The registry becomes Unregister of the old one and the counter stays; a registered watch, open before, has its channel and subscription closed; the answer is always status 0 with no payload, for an unknown client or watch too, and the task is completed once |
| `Registry.Dispatcher.Dispatch` | main.go:106-281 | The step stops the process exactly on the inputs the source crashes on; otherwise each handled command completes its own task once, except an enqueued receive, and KV_RANGE, KV_PUT and unknown kinds change nothing and answer nothing; the invariant holds, the client counter never decreases, no forwarder disappears and the trace only grows |
| `Registry.Dispatcher.Serve` | main.go:96-283 | Over any schedule of commands and forwarder turns, the registry invariant holds, the client counter never decreases, no forwarder disappears and the trace only grows |

The registry invariant (`Registry.Consistent`) says four things:

- every registered client id is between 1 and the client counter;
- every registered watch id is between 1 and its client's counter;
- every registered watch is the watcher run by the forwarder under the same
  pair of ids, and no forwarder's watch id is above its client's counter;
- every forwarder's watcher was created under its own pair of ids, and no
  registered watch is one the loop has already closed.

`Dispatcher.Valid` adds that a watcher's channel and subscription are open
exactly until the loop closes them. Every registered watch is therefore
open, so the model proves that no handler closes a closed channel or sends
on one.

## Left out

- The host FFI calls (`ngx_http_lua_ffi_task_poll`, `_get_req`, `_respond`)
  are host I/O. Commands arrive as the inputs of `Serve`, and every respond
  call is an effect appended to the `Trace`. The nil task that stops the loop
  is the end of the input sequence.
- The etcd client library is foreign network code:
  - `clientv3.New`'s success or error is an input of CLIENT_NEW;
  - a new subscription's stream of responses is an input of WATCH_CREATE;
  - `Close` on a watcher or a session is a logged effect.
  
  Etcd may drop buffered items when a watcher is closed; the model still
  delivers what is left of `stream`. A subscription that ends on its own
  (cancellation, compaction) is not modelled: a stream closes only when its
  watch or client is closed.
- JSON is library code. Commands arrive decoded, and a WATCH_RECV or
  WATCH_CLOSE body is a bare watch id. A response's encoding is part of the
  stream item, and the encoding of the zero response sent at the end of a
  closed stream is the parameter `zero`. The client configuration of
  CLIENT_NEW is passed on undecoded: the source overwrites its decode error
  with the result of `clientv3.New` (main.go:117-118), so only that result is
  modelled. The marshal failure at main.go:214-216 is left out, along with
  the encoder.
- The key of a WATCH_CREATE is any byte string in the model. Go's JSON
  decoder replaces invalid UTF-8 in a string (`CreateWatch.Key`, main.go:70)
  with U+FFFD, so the source's key is valid UTF-8 and its last byte is never
  0xC0 to 0xFF. Of the prefix-range lemmas only `PrefixRangeExact` (last byte
  below 0x7F) and `PrefixRangeTooWide` (0x7F to 0xBF) describe keys the
  program can see; the cases from 0xC0 on describe the computation at
  main.go:160-162, not behaviour the program shows.
- Goroutines, `sync.RWMutex` and blocking channel operations are replaced by
  atomic handler steps. In the source, CLIENT_NEW, CLIENT_CLOSE, WATCH_CREATE
  and WATCH_CLOSE each run in their own goroutine, so they can complete out of
  order and race with a later WATCH_RECV. The model runs them to completion in
  arrival order.
- Registry.Dispatcher.Recv: the token channel is created unbuffered
  (main.go:189). In the source, a send therefore blocks the dispatch loop
  until the forwarder takes the command, and the busy check `len(w.ch) == 1`
  never fires. The model gives the channel the capacity of one that the
  busy check is written for (`Watcher.slot`). The forwarder takes the
  command out of the slot (`Watcher.held`) before it waits for the stream
  (main.go:205, 209). A second WATCH_RECV is then queued while the first
  waits for an event; only a command the forwarder has not taken yet makes
  the slot busy.
- `context.WithTimeout` and the `cancel` call when the forwarder exits are
  left out, because time and cancellation are outside the model. The
  `timeout` field of a WATCH_CREATE body is decoded but not used.
- Registry.Dispatcher.NewClient: `client_idx` is a `uint64` and wraps after
  2^64 - 1 clients; the model's counter is an unbounded `nat`. The source
  reads `client_idx` again for the answer after it releases the lock
  (main.go:123-124). Two concurrent CLIENT_NEW can therefore both answer the
  later id. The model's handler is atomic and answers the id it stored.
- Registry.Dispatcher.CreateWatch: `watcher_idx` is a `uint64` and wraps after
  2^64 - 1 watches; the model's counter is an unbounded `nat`. A WATCH_CREATE
  on an unknown client dereferences nil in the source (main.go:184-187). This
  is a precondition of the handler, and `Dispatch` stops there.
- `log.Fatalln` on a request body that does not decode (main.go:156, 232,
  263) and the index panic on an empty prefix key (main.go:160) end the
  process. `Registry.Fatal` names those inputs: `Dispatch` reports them with
  `ok == false` and `Serve` halts. The `log.Fatalln` on a command envelope
  that does not decode (main.go:107-109) has no counterpart: commands arrive
  decoded, so the model has no such input.
- KV_RANGE and KV_PUT have no case in the switch (main.go:113-281). Like any
  unknown kind, they produce no response and change nothing.
- The client record is held by value in the registry. The source stores a
  pointer, and the handlers of CLIENT_CLOSE, WATCH_CREATE, WATCH_RECV and
  WATCH_CLOSE keep the pointer they looked up after they release the
  registry lock (main.go:135, 184, 240, 266). In the model every handler is
  atomic, so none of them sees a client after it leaves the registry. The
  session itself is the `SessionClosed` effect. The model therefore leaves
  out these races of the source:
  - Registry.Dispatcher.CreateWatch: a WATCH_CREATE that looked up its
    client before a CLIENT_CLOSE removed it registers its watcher on the
    removed client (main.go:184-196). Nothing closes that watcher, and its
    forwarder never ends.
  - Registry.Dispatcher.CloseWatch: CLIENT_CLOSE closes the client's
    watchers but leaves them in the client's map (main.go:139-142). A
    WATCH_CLOSE that looked up the client before the removal still finds
    the watch and closes its channel a second time (main.go:270-273), which
    panics.
  - Registry.Dispatcher.Recv: in the same way, a WATCH_RECV that looked up
    the client before the removal can send on a channel that CLIENT_CLOSE
    has closed (main.go:252-255), which panics.
