/**
 * The dispatch goroutine of `libffi_init`: the client registry with its
 * counter, each client's watcher registry with its counter, the five
 * command handlers, the per-watch forwarder and the dispatch loop.
 *
 * Each handler runs as one atomic step: the goroutines, locks and blocking
 * channel operations of the source are replaced by a sequential schedule
 * (the inputs of Serve). The host's respond call and the store library's
 * close calls are recorded, in order, in a Trace.
 */
module Registry {
  import opened Base
  import opened Decimal
  import opened WatchRange
  import opened Protocol

  /** The outside world as the bridge sees it: the ordered log of its effects. */
  class Trace {
    var effects: seq<Effect>

    constructor()
      ensures effects == []
    {
      effects := [];
    }

    method Emit(e: Effect)
      modifies this
      ensures effects == old(effects) + [e]
    {
      effects := effects + [e];
    }
  }

  /**
   * A watch: its store subscription (the responses it has yet to yield),
   * its token channel and its forwarder.
   *
   * The source creates the token channel unbuffered, so there a send blocks
   * the dispatch loop until the forwarder takes the command and the busy
   * check `len(w.ch) == 1` never fires. The model gives the channel the
   * capacity of one that the busy check is written for: `slot`.
   */
  class Watcher {
    const key: Bytes
    const opts: seq<OpOption>
    /** The client id and the watch id the watcher was created under. */
    ghost const owner: nat
    ghost const index: nat
    /** The token channel: the one receive command waiting to be taken. */
    var slot: Option<Command>
    /** The command the forwarder has taken from the channel and not yet completed. */
    var held: Option<Command>
    /** The token channel has not been closed. */
    var chOpen: bool
    /** The store subscription has not been closed. */
    var streamOpen: bool
    /** What the subscription will still yield, in order. */
    var stream: seq<WatchResponse>
    /** What the forwarder has taken from the subscription so far. */
    ghost var delivered: seq<WatchResponse>
    /** The forwarder loop has returned. */
    var exited: bool

    constructor(key: Bytes, opts: seq<OpOption>, stream: seq<WatchResponse>, ghost owner: nat, ghost index: nat)
      ensures this.key == key && this.opts == opts && this.stream == stream
      ensures this.owner == owner && this.index == index
      ensures slot == None && held == None && chOpen && streamOpen && !exited && delivered == []
    {
      this.key := key;
      this.opts := opts;
      this.stream := stream;
      this.owner := owner;
      this.index := index;
      slot := None;
      held := None;
      chOpen := true;
      streamOpen := true;
      exited := false;
      delivered := [];
    }

    /**
     * Closes the token channel, then the subscription. Closing a closed
     * channel panics, so the channel must still be open.
     */
    method Shutdown()
      requires chOpen
      modifies this`chOpen, this`streamOpen
      ensures !chOpen && !streamOpen
    {
      chOpen := false;
      streamOpen := false;
    }

    /**
     * One turn of the forwarder loop, which has two blocking points. Without
     * a command in hand it receives from the token channel: it takes the
     * queued command, buffered commands first even once the channel is
     * closed, and a closed, empty channel ends the loop. With a command in
     * hand it receives the next item of the subscription and completes the
     * command's task from it; once the subscription is closed and drained it
     * completes the task with the encoding `zero` of the empty response and
     * ends the loop. A turn that would block changes nothing and reports
     * `ran == false`.
     */
    method Step(trace: Trace, zero: Bytes) returns (ran: bool)
      modifies this`slot, this`held, this`stream, this`delivered, this`exited, trace
      ensures delivered + stream == old(delivered + stream)
      ensures old(exited) ==>
        && !ran && exited && slot == old(slot) && held == old(held) && stream == old(stream)
        && trace.effects == old(trace.effects)
      ensures !old(exited) && old(held).None? && old(slot).Some? ==>
        && ran && !exited && held == old(slot) && slot == None && stream == old(stream)
        && trace.effects == old(trace.effects)
      ensures !old(exited) && old(held).None? && old(slot).None? ==>
        && ran == !chOpen && exited == !chOpen && slot == None && held == None
        && stream == old(stream) && trace.effects == old(trace.effects)
      ensures !old(exited) && old(held).Some? && old(stream) != [] ==>
        && ran && !exited && held == None && slot == old(slot)
        && stream == old(stream)[1..] && delivered == old(delivered) + [old(stream)[0]]
        && trace.effects == old(trace.effects) + [Completion(old(held).value.task, old(stream)[0])]
      ensures !old(exited) && old(held).Some? && old(stream) == [] && streamOpen ==>
        && !ran && !exited && held == old(held) && slot == old(slot) && stream == []
        && trace.effects == old(trace.effects)
      ensures !old(exited) && old(held).Some? && old(stream) == [] && !streamOpen ==>
        && ran && exited && held == None && slot == old(slot) && stream == [] && delivered == old(delivered)
        && trace.effects == old(trace.effects) + [Completion(old(held).value.task, WatchResponse(None, zero))]
    {
      ran := false;
      if exited {
        return;
      }
      match held {
        case None =>
          if slot.Some? {
            held := slot;
            slot := None;
            ran := true;
          } else if !chOpen {
            exited := true;
            ran := true;
          }
        case Some(cmd) =>
          if stream != [] {
            var item := stream[0];
            held := None;
            stream := stream[1..];
            delivered := delivered + [item];
            trace.Emit(Completion(cmd.task, item));
            ran := true;
          } else if !streamOpen {
            held := None;
            trace.Emit(Completion(cmd.task, WatchResponse(None, zero)));
            exited := true;
            ran := true;
          }
      }
    }
  }

  /**
   * A client session: its watcher registry and watch-id counter. The source
   * keeps a pointer to it in the client registry; the handlers that hold the
   * same pointer run to completion here, so the registry holds it as a value.
   */
  datatype Client = Client(watcherIdx: nat, watchers: map<nat, Watcher>)
  {
    /** Every registered watch id has been handed out by the counter. */
    predicate Valid() {
      forall wid :: wid in watchers ==> 1 <= wid <= watcherIdx
    }
  }

  /**
   * The close loop of CLIENT_CLOSE over the watchers of client `id`: each
   * one has its channel and subscription closed, once, in the order `order`.
   * The watchers are the distinct watchers registered under their ids, all
   * still open, so no channel is closed twice.
   */
  method ShutdownWatchers(id: nat, watchers: map<nat, Watcher>, trace: Trace) returns (ghost order: seq<nat>)
    requires forall wid :: wid in watchers ==> watchers[wid].index == wid && watchers[wid].chOpen
    modifies watchers.Values`chOpen, watchers.Values`streamOpen, trace
    ensures Enumerates(order, watchers.Keys)
    ensures trace.effects == old(trace.effects) + ClosingEffects(id, order)
    ensures forall wid :: wid in watchers ==> !watchers[wid].chOpen && !watchers[wid].streamOpen
  {
    order := [];
    var pending := watchers.Keys;
    ghost var before := trace.effects;
    while pending != {}
      invariant pending <= watchers.Keys
      invariant Distinct(order)
      invariant forall x :: x in order <==> x in watchers && x !in pending
      invariant forall wid :: wid in watchers ==>
        watchers[wid].chOpen == (wid in pending) && (wid !in pending ==> !watchers[wid].streamOpen)
      invariant trace.effects == before + ClosingEffects(id, order)
      decreases |pending|
    {
      var wid :| wid in pending;
      var w := watchers[wid];
      assert wid !in order;
      assert forall v :: v in pending && v != wid ==> watchers[v] != w;
      w.Shutdown();
      trace.Emit(WatcherClosed(id, wid));
      ClosingEffectsSnoc(id, order, wid);
      DistinctSnoc(order, wid);
      order := order + [wid];
      pending := pending - {wid};
    }
  }

  /** No element occurs twice in `s`. */
  ghost predicate Distinct(s: seq<nat>) {
    forall i, j :: 0 <= i < j < |s| ==> s[i] != s[j]
  }

  lemma DistinctSnoc(s: seq<nat>, x: nat)
    requires Distinct(s) && x !in s
    ensures Distinct(s + [x])
  {
  }

  /** `order` lists every element of `ids` exactly once. */
  ghost predicate Enumerates(order: seq<nat>, ids: set<nat>) {
    && Distinct(order)
    && (forall x :: x in order <==> x in ids)
  }

  /** The close effects for the watchers of client `id`, in the order given. */
  function ClosingEffects(id: nat, order: seq<nat>): (r: seq<Effect>)
    ensures |r| == |order|
    ensures forall i :: 0 <= i < |order| ==> r[i] == WatcherClosed(id, order[i])
  {
    seq(|order|, i requires 0 <= i < |order| => WatcherClosed(id, order[i]))
  }

  lemma ClosingEffectsSnoc(id: nat, order: seq<nat>, wid: nat)
    ensures ClosingEffects(id, order + [wid]) == ClosingEffects(id, order) + [WatcherClosed(id, wid)]
  {
  }

  /** Closing watchers completes no task. */
  lemma {:induction false} ClosingEffectsAnswerNothing(id: nat, order: seq<nat>)
    ensures Answers(ClosingEffects(id, order)) == []
    decreases |order|
  {
    if order != [] {
      var shorter := order[..|order| - 1];
      assert ClosingEffects(id, order)[..|order| - 1] == ClosingEffects(id, shorter);
      ClosingEffectsAnswerNothing(id, shorter);
    }
  }

  /** CLIENT_CLOSE on a registered client completes only its own task. */
  lemma CloseClientAnswers(id: nat, order: seq<nat>, task: Task)
    ensures Answers(ClosingEffects(id, order) + [SessionClosed(id), Respond(task, StatusOk, [])]) == [task]
  {
    ClosingEffectsAnswerNothing(id, order);
    assert ClosingEffects(id, order) + [SessionClosed(id), Respond(task, StatusOk, [])] ==
      ClosingEffects(id, order) + [SessionClosed(id)] + [Respond(task, StatusOk, [])];
    AnswersAppend(ClosingEffects(id, order), [SessionClosed(id)]);
    AnswersOne(SessionClosed(id));
    AnswersAppend(ClosingEffects(id, order) + [SessionClosed(id)], [Respond(task, StatusOk, [])]);
    AnswersOne(Respond(task, StatusOk, []));
  }

  /**
   * The registry invariant: ids up to the counters, every forwarder one of
   * the watchers created, run under its own pair of ids, and every
   * registered watcher the one its forwarder runs and not one of the
   * watchers already closed.
   */
  ghost predicate Consistent(clientIdx: nat, clients: map<nat, Client>,
                             forwarders: map<(nat, nat), Watcher>, created: set<Watcher>,
                             closed: set<Watcher>)
  {
    && closed <= created
    && (forall id :: id in clients ==> 1 <= id <= clientIdx && clients[id].Valid())
    && (forall k: (nat, nat) :: k in forwarders ==>
          && forwarders[k] in created
          && forwarders[k].owner == k.0 && forwarders[k].index == k.1
          && 1 <= k.0 <= clientIdx
          && (k.0 in clients ==> k.1 <= clients[k.0].watcherIdx))
    && (forall id, wid :: id in clients && wid in clients[id].watchers ==>
          && (id, wid) in forwarders && forwarders[(id, wid)] == clients[id].watchers[wid]
          && clients[id].watchers[wid] !in closed)
  }

  /**
   * Two registrations under different pairs of ids hold different watchers,
   * so closing every registered watch closes no channel twice.
   */
  lemma RegisteredDistinct(clientIdx: nat, clients: map<nat, Client>,
                           forwarders: map<(nat, nat), Watcher>, created: set<Watcher>, closed: set<Watcher>,
                           i: nat, v: nat, j: nat, u: nat)
    requires Consistent(clientIdx, clients, forwarders, created, closed)
    requires i in clients && v in clients[i].watchers && j in clients && u in clients[j].watchers
    ensures clients[i].watchers[v] == clients[j].watchers[u] ==> i == j && v == u
  {
  }

  /** CLIENT_NEW keeps the invariant, and the new id is not registered yet. */
  lemma NewClientKeeps(clientIdx: nat, clients: map<nat, Client>,
                       forwarders: map<(nat, nat), Watcher>, created: set<Watcher>, closed: set<Watcher>)
    requires Consistent(clientIdx, clients, forwarders, created, closed)
    ensures clientIdx + 1 !in clients
    ensures Consistent(clientIdx + 1, clients[clientIdx + 1 := Client(0, map[])], forwarders, created, closed)
  {
  }

  /**
   * CLIENT_CLOSE keeps the invariant once the client's watchers count as
   * closed; they were distinct, registered under their own ids and not
   * closed before.
   */
  lemma CloseClientKeeps(clientIdx: nat, clients: map<nat, Client>,
                         forwarders: map<(nat, nat), Watcher>, created: set<Watcher>, closed: set<Watcher>,
                         id: nat, clients': map<nat, Client>, closed': set<Watcher>)
    requires Consistent(clientIdx, clients, forwarders, created, closed)
    requires clients' == clients - {id}
    requires closed' == if id in clients then closed + clients[id].watchers.Values else closed
    ensures id in clients ==> forall wid :: wid in clients[id].watchers ==>
      clients[id].watchers[wid].index == wid && clients[id].watchers[wid] !in closed
    ensures Consistent(clientIdx, clients', forwarders, created, closed')
  {
  }

  /**
   * WATCH_CREATE keeps the invariant, and the next watch id of the client is
   * neither registered nor taken by a forwarder.
   */
  lemma CreateWatchKeeps(clientIdx: nat, clients: map<nat, Client>,
                         forwarders: map<(nat, nat), Watcher>, created: set<Watcher>,
                         closed: set<Watcher>, id: nat, w: Watcher,
                         clients': map<nat, Client>, forwarders': map<(nat, nat), Watcher>)
    requires Consistent(clientIdx, clients, forwarders, created, closed)
    requires id in clients && w !in created
    requires w.owner == id && w.index == clients[id].watcherIdx + 1
    requires clients' == clients[id := Client(w.index, clients[id].watchers[w.index := w])]
    requires forwarders' == forwarders[(id, w.index) := w]
    ensures w.index !in clients[id].watchers && (id, w.index) !in forwarders
    ensures Consistent(clientIdx, clients', forwarders', created + {w}, closed)
  {
  }

  /**
   * The client registry after WATCH_CLOSE of watch `wid` of client `id`:
   * that one entry goes, every client and every counter stays.
   */
  function Unregister(clients: map<nat, Client>, id: nat, wid: nat): (r: map<nat, Client>)
    ensures r.Keys == clients.Keys
    ensures forall j :: j in clients ==> r[j].watcherIdx == clients[j].watcherIdx
    ensures forall j :: j in clients && j != id ==> r[j] == clients[j]
    ensures id in clients ==> wid !in r[id].watchers
    ensures id in clients ==> forall v :: v != wid ==>
      (v in r[id].watchers <==> v in clients[id].watchers) &&
      (v in clients[id].watchers ==> r[id].watchers[v] == clients[id].watchers[v])
  {
    if id in clients then clients[id := clients[id].(watchers := clients[id].watchers - {wid})]
    else clients
  }

  /** Closing a watch a second time changes nothing. */
  lemma UnregisterIdempotent(clients: map<nat, Client>, id: nat, wid: nat)
    ensures Unregister(Unregister(clients, id, wid), id, wid) == Unregister(clients, id, wid)
  {
    var once := Unregister(clients, id, wid);
    if id in clients {
      assert once[id].watchers - {wid} == once[id].watchers;
      assert once[id := once[id].(watchers := once[id].watchers - {wid})] == once;
    }
  }

  /**
   * WATCH_CLOSE keeps the invariant, and the watcher it closes is no longer
   * registered anywhere.
   */
  lemma CloseWatchKeeps(clientIdx: nat, clients: map<nat, Client>,
                        forwarders: map<(nat, nat), Watcher>, created: set<Watcher>, closed: set<Watcher>,
                        id: nat, wid: nat, clients': map<nat, Client>, closed': set<Watcher>)
    requires Consistent(clientIdx, clients, forwarders, created, closed)
    requires clients' == Unregister(clients, id, wid)
    requires closed' ==
      if id in clients && wid in clients[id].watchers then closed + {clients[id].watchers[wid]} else closed
    ensures id in clients && wid in clients[id].watchers ==> clients[id].watchers[wid] !in closed
    ensures Consistent(clientIdx, clients', forwarders, created, closed')
  {
    if id in clients && wid in clients[id].watchers {
      var r := Unregister(clients, id, wid);
      forall i, v | i in r && v in r[i].watchers
        ensures r[i].watchers[v] != clients[id].watchers[wid]
      {
        assert forwarders[(i, v)].owner == i && forwarders[(i, v)].index == v;
      }
    }
  }

  /** One input of the sequential schedule of the bridge. */
  datatype Input =
    /**
     * The host's next command, with what the store does for it: `failure`
     * is the error of opening a session (CLIENT_NEW), `stream` the responses
     * a new subscription will yield (WATCH_CREATE).
     */
    | Arrive(cmd: Command, failure: Option<Bytes>, stream: seq<WatchResponse>)
    /** A turn of the forwarder of watch `watch` of client `client`. */
    | Forward(client: nat, watch: nat, zero: Bytes)

  /**
   * The inputs on which the source stops the process: a request body that
   * does not decode, a prefix watch on an empty key (an index panic), and a
   * watch on a client id that is not registered (a nil dereference).
   */
  predicate Fatal(cmd: Command, known: set<nat>) {
    if cmd.kind == WatchCreate then
      !cmd.body.Create? ||
      (PrefixRequested(cmd.body.spec) && |cmd.body.spec.key| == 0) ||
      cmd.client !in known
    else if cmd.kind == WatchRecv || cmd.kind == WatchClose then
      !cmd.body.Index?
    else
      false
  }

  /** The state of the dispatch goroutine. */
  class Dispatcher {
    var clientIdx: nat
    var clients: map<nat, Client>
    /**
     * Every forwarder started so far, by client id and watch id. A forwarder
     * outlives its entry in the registry: it still drains its channel after
     * the watch is closed.
     */
    var forwarders: map<(nat, nat), Watcher>
    /** Every watcher created so far. */
    ghost var Watchers: set<Watcher>
    /** The watchers whose channel and subscription the loop has closed. */
    ghost var Closed: set<Watcher>

    ghost function Repr(): set<object>
      reads this
    {
      {this} + Watchers
    }

    /**
     * The registry invariant, and the channel and the subscription of a
     * watcher are open exactly until the loop closes them. So every
     * registered watch is still open.
     */
    ghost predicate Valid()
      reads this, Watchers
    {
      && Consistent(clientIdx, clients, forwarders, Watchers, Closed)
      && (forall w :: w in Watchers ==> (w.chOpen <==> w !in Closed) && (w.streamOpen <==> w !in Closed))
    }

    constructor()
      ensures Valid() && fresh(Repr())
      ensures clientIdx == 0 && clients == map[] && forwarders == map[]
    {
      clientIdx := 0;
      clients := map[];
      forwarders := map[];
      Watchers := {};
      Closed := {};
    }

    /**
     * What every step keeps: the state stays well-formed, the client counter
     * never goes back, no forwarder goes away and the effect log only grows.
     */
    twostate predicate Grows(trace: Trace)
      reads this, Watchers, trace
    {
      && Valid() && fresh(Repr() - old(Repr()))
      && old(clientIdx) <= clientIdx
      && old(forwarders.Keys) <= forwarders.Keys
      && old(trace.effects) <= trace.effects
    }

    /** Which registered watches have a receive pending. */
    ghost function Occupancy(): Occupancy
      reads this, Watchers
      requires Valid()
    {
      map id | id in clients ::
        map wid | wid in clients[id].watchers :: clients[id].watchers[wid].slot.Some?
    }

    /** The watchers registered for client `id`. */
    ghost function Registered(id: nat): set<Watcher>
      reads this
    {
      if id in clients then clients[id].watchers.Values else {}
    }

    /** The registered watcher `wid` of client `id`, as a frame. */
    ghost function WatcherAt(id: nat, wid: nat): set<Watcher>
      reads this
    {
      if id in clients && wid in clients[id].watchers then {clients[id].watchers[wid]} else {}
    }

    /**
     * CLIENT_NEW. `failure` is the error of opening the session, if any. On
     * success the counter moves on by one, a client with no watchers is
     * stored under the new value and the task is completed with it in decimal;
     * on failure the task is completed with the error.
     */
    method NewClient(task: Task, failure: Option<Bytes>, trace: Trace)
      requires Valid()
      modifies this`clientIdx, this`clients, trace
      ensures Grows(trace)
      ensures failure.None? ==>
        && clientIdx == old(clientIdx) + 1
        && clientIdx !in old(clients)
        && clients == old(clients)[clientIdx := Client(0, map[])]
        && trace.effects == old(trace.effects) + [Respond(task, StatusOk, Format(clientIdx))]
      ensures failure.Some? ==>
        && clientIdx == old(clientIdx) && clients == old(clients)
        && trace.effects == old(trace.effects) + [Respond(task, StatusError, failure.value)]
      ensures Answers(trace.effects[|old(trace.effects)|..]) == [task]
    {
      var e: Effect;
      match failure {
        case None =>
          NewClientKeeps(clientIdx, clients, forwarders, Watchers, Closed);
          clientIdx := clientIdx + 1;
          clients := clients[clientIdx := Client(0, map[])];
          e := Respond(task, StatusOk, Format(clientIdx));
        case Some(err) =>
          e := Respond(task, StatusError, err);
      }
      trace.Emit(e);
      assert trace.effects[|old(trace.effects)|..] == [e];
      AnswersOne(e);
    }

    /**
     * CLIENT_CLOSE. A registered client is removed, each of its watchers is
     * closed (in the order `order`), then its session, and the task is
     * completed with status 0 and no payload; an unknown id only gets the
     * completion.
     */
    method CloseClient(task: Task, id: nat, trace: Trace) returns (ghost order: seq<nat>)
      requires Valid()
      modifies this`clients, this`Closed, trace, Registered(id)`chOpen, Registered(id)`streamOpen
      ensures Grows(trace)
      ensures clients == old(clients) - {id}
      ensures old(id in clients) ==>
        var ws := old(clients[id].watchers);
        && Enumerates(order, ws.Keys)
        && (forall wid :: wid in ws ==> old(ws[wid].chOpen) && !ws[wid].chOpen && !ws[wid].streamOpen)
        && trace.effects ==
             old(trace.effects) + ClosingEffects(id, order) + [SessionClosed(id), Respond(task, StatusOk, [])]
      ensures old(id !in clients) ==>
        trace.effects == old(trace.effects) + [Respond(task, StatusOk, [])]
      ensures Answers(trace.effects[|old(trace.effects)|..]) == [task]
    {
      order := [];
      if id in clients {
        var c := clients[id];
        clients := clients - {id};
        Closed := Closed + c.watchers.Values;
        CloseClientKeeps(clientIdx, old(clients), forwarders, Watchers, old(Closed), id, clients, Closed);
        order := ShutdownWatchers(id, c.watchers, trace);
        trace.Emit(SessionClosed(id));
        trace.Emit(Respond(task, StatusOk, []));
        assert trace.effects[|old(trace.effects)|..] ==
          ClosingEffects(id, order) + [SessionClosed(id), Respond(task, StatusOk, [])];
        CloseClientAnswers(id, order, task);
      } else {
        trace.Emit(Respond(task, StatusOk, []));
        assert trace.effects[|old(trace.effects)|..] == [Respond(task, StatusOk, [])];
        AnswersOne(Respond(task, StatusOk, []));
      }
    }

    /**
     * WATCH_CREATE on registered client `id`. The client's counter moves on
     * by one, a fresh watcher over the resolved options is stored under the
     * new value, its forwarder is started, and the task is completed with the
     * watch id in decimal.
     */
    method CreateWatch(task: Task, id: nat, spec: WatchSpec, stream: seq<WatchResponse>, trace: Trace)
      returns (wid: nat)
      requires Valid() && id in clients
      requires PrefixRequested(spec) ==> |spec.key| > 0
      modifies this`clients, this`forwarders, this`Watchers, trace
      ensures Grows(trace)
      ensures wid == old(clients[id].watcherIdx) + 1
      ensures forall v :: v in old(clients[id].watchers) ==> v < wid
      ensures (id, wid) !in old(forwarders)
      ensures (id, wid) in forwarders &&
        var w := forwarders[(id, wid)];
        && forwarders == old(forwarders)[(id, wid) := w]
        && clients == old(clients)[id := Client(wid, old(clients[id].watchers)[wid := w])]
        && fresh(w)
        && w.key == spec.key && w.opts == WatchOptions(spec)
        && w.slot == None && w.held == None && w.chOpen && w.streamOpen && !w.exited
        && w.stream == stream && w.delivered == []
      ensures trace.effects == old(trace.effects) + [Respond(task, StatusOk, Format(wid))]
      ensures Answers(trace.effects[|old(trace.effects)|..]) == [task]
    {
      var opts := WatchOptions(spec);
      var c := clients[id];
      wid := c.watcherIdx + 1;
      var w := new Watcher(spec.key, opts, stream, id, wid);
      clients := clients[id := Client(wid, c.watchers[wid := w])];
      forwarders := forwarders[(id, wid) := w];
      Watchers := Watchers + {w};
      CreateWatchKeeps(clientIdx, old(clients), old(forwarders), old(Watchers), Closed, id, w, clients, forwarders);
      trace.Emit(Respond(task, StatusOk, Format(wid)));
      assert trace.effects[|old(trace.effects)|..] == [Respond(task, StatusOk, Format(wid))];
      AnswersOne(Respond(task, StatusOk, Format(wid)));
    }

    /**
     * WATCH_RECV for watch `wid`: classifies the command against the
     * registry and either answers it at once or puts it in the watch's free
     * token slot for the forwarder to answer.
     */
    method Recv(cmd: Command, wid: nat, trace: Trace) returns (outcome: RecvOutcome)
      requires Valid()
      modifies trace, WatcherAt(cmd.client, wid)`slot
      ensures Grows(trace)
      ensures outcome == ClassifyRecv(old(Occupancy()), cmd.client, wid)
      ensures RecvReply(outcome, cmd.task).Some? ==>
        trace.effects == old(trace.effects) + [RecvReply(outcome, cmd.task).value]
      ensures outcome == Enqueued ==>
        && trace.effects == old(trace.effects)
        && clients[cmd.client].watchers[wid].slot == Some(cmd)
        && clients[cmd.client].watchers[wid].chOpen
      ensures outcome == SlotBusy ==>
        clients[cmd.client].watchers[wid].slot == old(clients[cmd.client].watchers[wid].slot)
      ensures Answers(trace.effects[|old(trace.effects)|..]) == if outcome == Enqueued then [] else [cmd.task]
    {
      if cmd.client !in clients {
        outcome := UnknownClient;
      } else if wid !in clients[cmd.client].watchers {
        outcome := UnknownWatcher;
      } else {
        var w := clients[cmd.client].watchers[wid];
        if w.slot.Some? {
          outcome := SlotBusy;
        } else {
          outcome := Enqueued;
          w.slot := Some(cmd);
        }
      }
      if outcome != Enqueued {
        var e := RecvReply(outcome, cmd.task).value;
        trace.Emit(e);
        assert trace.effects[|old(trace.effects)|..] == [e];
        AnswersOne(e);
      } else {
        assert trace.effects[|old(trace.effects)|..] == [];
      }
    }

    /**
     * The close of a registered watch: it leaves its client's registry (the
     * counter stays), then its channel and its subscription are closed.
     */
    method Unwatch(id: nat, wid: nat, trace: Trace)
      requires Valid() && id in clients && wid in clients[id].watchers
      modifies this`clients, this`Closed, trace, WatcherAt(id, wid)`chOpen, WatcherAt(id, wid)`streamOpen
      ensures Grows(trace)
      ensures clients == Unregister(old(clients), id, wid)
      ensures var w := old(clients[id].watchers[wid]);
        && old(w.chOpen) && !w.chOpen && !w.streamOpen
        && trace.effects == old(trace.effects) + [WatcherClosed(id, wid)]
    {
      var c := clients[id];
      var w := c.watchers[wid];
      clients := clients[id := c.(watchers := c.watchers - {wid})];
      Closed := Closed + {w};
      CloseWatchKeeps(clientIdx, old(clients), forwarders, Watchers, old(Closed), id, wid, clients, Closed);
      w.Shutdown();
      trace.Emit(WatcherClosed(id, wid));
    }

    /**
     * WATCH_CLOSE for watch `wid`: a registered watch is removed from its
     * client (the counter stays), its channel and subscription are closed;
     * the task is completed with status 0 and no payload in every case.
     */
    method CloseWatch(task: Task, id: nat, wid: nat, trace: Trace)
      requires Valid()
      modifies this`clients, this`Closed, trace, WatcherAt(id, wid)`chOpen, WatcherAt(id, wid)`streamOpen
      ensures Grows(trace)
      ensures clients == Unregister(old(clients), id, wid)
      ensures id in old(clients) && wid in old(clients[id].watchers) ==>
        var w := old(clients[id].watchers[wid]);
        && old(w.chOpen) && !w.chOpen && !w.streamOpen
        && trace.effects == old(trace.effects) + [WatcherClosed(id, wid), Respond(task, StatusOk, [])]
      ensures !(id in old(clients) && wid in old(clients[id].watchers)) ==>
        trace.effects == old(trace.effects) + [Respond(task, StatusOk, [])]
      ensures Answers(trace.effects[|old(trace.effects)|..]) == [task]
    {
      if id in clients && wid in clients[id].watchers {
        Unwatch(id, wid, trace);
        trace.Emit(Respond(task, StatusOk, []));
        assert trace.effects[|old(trace.effects)|..] == [WatcherClosed(id, wid)] + [Respond(task, StatusOk, [])];
        AnswersAppend([WatcherClosed(id, wid)], [Respond(task, StatusOk, [])]);
        AnswersOne(WatcherClosed(id, wid));
      } else {
        assert Unregister(clients, id, wid) == clients by {
          if id in clients {
            assert clients[id].(watchers := clients[id].watchers - {wid}) == clients[id];
          }
        }
        trace.Emit(Respond(task, StatusOk, []));
        assert trace.effects[|old(trace.effects)|..] == [Respond(task, StatusOk, [])];
      }
      AnswersOne(Respond(task, StatusOk, []));
    }

    /**
     * One pass of the dispatch loop over a command. `ok` is false exactly
     * when the source would stop the process. A handled command completes
     * its own task once, except a receive that was queued; a command of any
     * other kind (KV_RANGE, KV_PUT included) is ignored.
     */
    method Dispatch(cmd: Command, failure: Option<Bytes>, stream: seq<WatchResponse>, trace: Trace)
      returns (ok: bool)
      requires Valid()
      modifies Repr(), trace
      ensures Grows(trace)
      ensures ok <==> !Fatal(cmd, old(clients.Keys))
      ensures !ok ==> trace.effects == old(trace.effects)
      ensures ok ==>
        Answers(trace.effects[|old(trace.effects)|..]) ==
          if cmd.kind > WatchClose then []
          else if cmd.kind == WatchRecv &&
                  ClassifyRecv(old(Occupancy()), cmd.client, cmd.body.id) == Enqueued then []
          else [cmd.task]
      ensures cmd.kind > WatchClose ==>
        && clients == old(clients) && clientIdx == old(clientIdx)
        && forwarders == old(forwarders) && trace.effects == old(trace.effects)
        && Watchers == old(Watchers) && Closed == old(Closed)
        && forall w :: w in Watchers ==> unchanged(w)
    {
      ok := !Fatal(cmd, clients.Keys);
      if !ok {
        return;
      }
      if cmd.kind == ClientNew {
        NewClient(cmd.task, failure, trace);
      } else if cmd.kind == ClientClose {
        ghost var order := CloseClient(cmd.task, cmd.client, trace);
      } else if cmd.kind == WatchCreate {
        var wid := CreateWatch(cmd.task, cmd.client, cmd.body.spec, stream, trace);
      } else if cmd.kind == WatchRecv {
        var outcome := Recv(cmd, cmd.body.id, trace);
      } else if cmd.kind == WatchClose {
        CloseWatch(cmd.task, cmd.client, cmd.body.id, trace);
      } else {
        assert trace.effects[|old(trace.effects)|..] == [];
      }
    }

    /**
     * The dispatch loop over a schedule of host commands and forwarder turns.
     * It stops early, with `halted`, where the source stops the process.
     */
    method Serve(inputs: seq<Input>, trace: Trace) returns (halted: bool)
      requires Valid()
      modifies Repr(), trace
      ensures Valid() && fresh(Repr() - old(Repr()))
      ensures old(clientIdx) <= clientIdx
      ensures old(forwarders.Keys) <= forwarders.Keys
      ensures old(trace.effects) <= trace.effects
    {
      halted := false;
      var i := 0;
      while i < |inputs|
        invariant 0 <= i <= |inputs|
        invariant Valid() && fresh(Repr() - old(Repr()))
        invariant old(clientIdx) <= clientIdx
        invariant old(forwarders.Keys) <= forwarders.Keys
        invariant old(trace.effects) <= trace.effects
      {
        match inputs[i] {
          case Arrive(cmd, failure, stream) =>
            var ok := Dispatch(cmd, failure, stream, trace);
            if !ok {
              halted := true;
              return;
            }
          case Forward(id, wid, zero) =>
            if (id, wid) in forwarders {
              var _ := forwarders[(id, wid)].Step(trace, zero);
            }
        }
        i := i + 1;
      }
    }
  }
}
