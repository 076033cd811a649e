/**
 * The command protocol between the host and the bridge: decoded commands,
 * the effects the bridge has on the outside world, and the two pure
 * decisions of the dispatch loop (classifying a WATCH_RECV and completing a
 * pending receive from a watch response).
 */
module Protocol {
  import opened Base
  import opened WatchRange

  /** The command kinds, numbered as in the source's iota block. */
  const ClientNew: nat := 0
  const ClientClose: nat := 1
  const WatchCreate: nat := 2
  const WatchRecv: nat := 3
  const WatchClose: nat := 4
  const KvRange: nat := 5
  const KvPut: nat := 6

  /** Completion status codes of the host's respond call. */
  const StatusOk: nat := 0
  const StatusError: nat := 1

  /** The opaque, single-use task handle the host hands out with each command. */
  type Task = nat

  /**
   * The `req` field of a command, already decoded: a WATCH_CREATE body, a
   * bare watch id (WATCH_RECV, WATCH_CLOSE), or bytes the bridge passes on
   * undecoded (the client configuration of CLIENT_NEW).
   */
  datatype Body = Raw(bytes: Bytes) | Create(spec: WatchSpec) | Index(id: nat)

  datatype Command = Command(task: Task, kind: nat, client: nat, body: Body)

  /**
   * One item of a store watch stream: its error, if any, and its JSON
   * encoding (the encoder is the store library's, not modelled).
   */
  datatype WatchResponse = WatchResponse(err: Option<Bytes>, encoded: Bytes)

  /**
   * What the bridge does to the outside world, in order: completing a host
   * task, closing a watcher (its token channel and its store subscription),
   * closing a client session.
   */
  datatype Effect =
    | Respond(task: Task, status: nat, payload: Bytes)
    | WatcherClosed(client: nat, watch: nat)
    | SessionClosed(client: nat)

  const InvalidClientText: Bytes := Ascii("invalid client")
  const InvalidWatcherText: Bytes := Ascii("invalid watcher")

  /** The four ways a WATCH_RECV can go. */
  datatype RecvOutcome = UnknownClient | UnknownWatcher | SlotBusy | Enqueued

  /**
   * What WATCH_RECV looks at: for each client id, its watch ids, each with
   * whether its token slot already holds a pending command.
   */
  type Occupancy = map<nat, map<nat, bool>>

  /**
   * The receive decision: the client is looked up first, then the watcher,
   * then the token slot; only a free slot of a known watcher takes the command.
   */
  function ClassifyRecv(reg: Occupancy, client: nat, watch: nat): (o: RecvOutcome)
    ensures o == UnknownClient <==> client !in reg
    ensures o == UnknownWatcher <==> client in reg && watch !in reg[client]
    ensures o == SlotBusy <==> client in reg && watch in reg[client] && reg[client][watch]
    ensures o == Enqueued <==> client in reg && watch in reg[client] && !reg[client][watch]
  {
    if client !in reg then UnknownClient
    else if watch !in reg[client] then UnknownWatcher
    else if reg[client][watch] then SlotBusy
    else Enqueued
  }

  /**
   * The immediate answer to a WATCH_RECV: none when the command was queued
   * (the forwarder answers it later), otherwise a completion of the command's
   * own task. An unknown client is answered with status 0, the other
   * refusals with status 1; a busy slot carries no payload.
   */
  function RecvReply(o: RecvOutcome, task: Task): (r: Option<Effect>)
    ensures r.None? <==> o == Enqueued
    ensures r.Some? ==> r.value.Respond? && r.value.task == task
    ensures r.Some? ==> (r.value.status == StatusOk <==> o == UnknownClient)
    ensures o == UnknownClient ==> r.value.payload == InvalidClientText
    ensures o == UnknownWatcher ==> r.value.payload == InvalidWatcherText
    ensures o == SlotBusy ==> r.value.status == StatusError && r.value.payload == []
  {
    match o
    case UnknownClient => Some(Respond(task, StatusOk, InvalidClientText))
    case UnknownWatcher => Some(Respond(task, StatusError, InvalidWatcherText))
    case SlotBusy => Some(Respond(task, StatusError, []))
    case Enqueued => None
  }

  /**
   * How the forwarder completes a pending receive from the next stream item:
   * an item carrying an error gives status 1 and the error text, any other
   * item status 0 and its encoding.
   */
  function Completion(task: Task, item: WatchResponse): (e: Effect)
    ensures e.Respond? && e.task == task
    ensures e.status == StatusError <==> item.err.Some?
    ensures e.status == StatusOk <==> item.err.None?
    ensures item.err.Some? ==> e.payload == item.err.value
    ensures item.err.None? ==> e.payload == item.encoded
  {
    match item.err
    case Some(text) => Respond(task, StatusError, text)
    case None => Respond(task, StatusOk, item.encoded)
  }

  /** The tasks completed by a run of effects, in completion order. */
  function Answers(effects: seq<Effect>): seq<Task> {
    if effects == [] then []
    else
      var last := effects[|effects| - 1];
      Answers(effects[..|effects| - 1]) + (if last.Respond? then [last.task] else [])
  }

  lemma {:induction false} AnswersAppend(a: seq<Effect>, b: seq<Effect>)
    ensures Answers(a + b) == Answers(a) + Answers(b)
    decreases |b|
  {
    if b == [] {
      assert a + b == a;
    } else {
      var c := b[..|b| - 1];
      assert (a + b)[..|a + b| - 1] == a + c;
      AnswersAppend(a, c);
    }
  }

  /** A single effect completes a task exactly when it is a completion. */
  lemma AnswersOne(e: Effect)
    ensures Answers([e]) == if e.Respond? then [e.task] else []
  {
    assert [e][..0] == [];
  }
}
