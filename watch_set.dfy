/** The registry of watches of the file storage (pkg/apiserver/storage/file/watchset.go):
    a WatchSet holding an id counter and an id-to-node map, and the watch nodes it
    broadcasts to. Channels are sequences; the goroutine started by Start is split
    into RunStartup (the initial events and the pre-start buffer) and DrainUpdates
    (the live queue), which the caller runs as explicit steps. */
module WatchSets {
  import opened Common
  import opened Objects
  import opened WatchFilter

  /** The initial events given to Start carry no old object. */
  function WrapInitial(evs: seq<Event>): seq<EventWrapper> {
    seq(|evs|, i requires 0 <= i < |evs| => EventWrapper(evs[i], None))
  }

  /** The mutable part of a watch node. */
  datatype NodeState = NodeState(
    updateQueue: seq<EventWrapper>, queueClosed: bool, out: seq<Event>, outClosed: bool,
    buffered: seq<EventWrapper>, started: bool, delivered: seq<EventWrapper>)

  /** The buffer only ever receives the first delivered event, and started says
      whether anything was delivered. */
  ghost predicate BufferInvariant(started: bool, buffered: seq<EventWrapper>, delivered: seq<EventWrapper>) {
    && started == (|delivered| > 0)
    && (started ==> buffered == [delivered[0]])
    && (!started ==> buffered == [])
  }

  ghost predicate StateValid(st: NodeState) {
    BufferInvariant(st.started, st.buffered, st.delivered)
  }

  /** One notifyWatchers step for a node: queue e, buffer it if the node had not
      started, and mark the node started. */
  function DeliverTo(st: NodeState, e: EventWrapper): NodeState {
    st.(updateQueue := st.updateQueue + [e],
        delivered := st.delivered + [e],
        buffered := if st.started then st.buffered else st.buffered + [e],
        started := true)
  }

  lemma DeliverKeepsValid(st: NodeState, e: EventWrapper)
    requires StateValid(st)
    ensures StateValid(DeliverTo(st, e))
  {
  }

  class WatchNode {
    const s: WatchSet
    const id: int
    const config: WatchConfig
    var updateQueue: seq<EventWrapper>   // updateCh
    var queueClosed: bool
    var out: seq<Event>                  // outCh, read by the subscriber
    var outClosed: bool
    var buffered: seq<EventWrapper>
    var started: bool
    ghost var delivered: seq<EventWrapper>  // every event notifyWatchers put on updateCh

    ghost predicate Valid()
      reads this`started, this`buffered, this`delivered
    {
      BufferInvariant(started, buffered, delivered)
    }

    /** Valid, with the live queue still open. */
    ghost predicate Live()
      reads this`started, this`buffered, this`delivered, this`queueClosed
    {
      Valid() && !queueClosed
    }

    constructor (owner: WatchSet, nodeId: int, c: WatchConfig)
      ensures Valid() && s == owner && id == nodeId && config == c
      ensures updateQueue == [] && !queueClosed && out == [] && !outClosed
      ensures buffered == [] && !started && delivered == []
    {
      s, id, config := owner, nodeId, c;
      updateQueue, queueClosed, out, outClosed := [], false, [], false;
      buffered, started, delivered := [], false, [];
    }

    /** processEvent: put on the output queue what EventOutcome decides, and
        report its error. */
    method ProcessEvent(e: EventWrapper) returns (err: Option<WatchError>)
      modifies this`out
      ensures out == old(out) + Emitted(config, e)
      ensures err.Some? <==> EventOutcome(config, e).Failure?
      ensures err.Some? ==> err.value == EventOutcome(config, e).error
    {
      var validity := IsValid(config, e);
      if validity.Failure? {
        return Some(validity.error);
      }
      if validity.value.matches {
        if e.ev.kind == Modified {
          var handled := HandleAddedForFilteredList(config, e);
          if handled.Failure? {
            return Some(handled.error);
          }
          if handled.value.Some? {
            out := out + [handled.value.value];
          } else {
            out := out + [e.ev];  // forward the original event
          }
        } else {
          out := out + [e.ev];
        }
      } else if validity.value.pastPositionalFilters {
        if e.ev.kind == Modified {
          var handled := HandleDeletedForFilteredList(config, e);
          if handled.Failure? {
            return Some(handled.error);
          }
          if handled.value.Some? {
            out := out + [handled.value.value];
          }
        }
      }
      return None;
    }

    /** The node's queues and buffering state, as one value. */
    ghost function Snapshot(): NodeState
      reads this
    {
      NodeState(updateQueue, queueClosed, out, outClosed, buffered, started, delivered)
    }

    /** The node's state is `before` with e delivered: queued, buffered if the node
        had not started, and the node started. */
    ghost predicate Delivered(before: NodeState, e: EventWrapper)
      reads this
    {
      Snapshot() == DeliverTo(before, e)
    }

    /** The body of notifyWatchers' loop for this node. */
    method Deliver(e: EventWrapper)
      modifies this`buffered, this`started, this`updateQueue, this`delivered
      ensures Delivered(old(Snapshot()), e)
    {
      if !started {
        buffered := buffered + [e];
      }
      started := true;
      updateQueue := updateQueue + [e];
      delivered := delivered + [e];
    }

    /** Start: register the node under its id, where notifyWatchers can see it. */
    method Start()
      requires s.Valid() && Valid() && 0 < id <= s.counter && !queueClosed
      modifies s`nodes
      ensures s.Valid()
      ensures s.nodes == old(s.nodes)[id := this]
    {
      s.nodes := s.nodes[id := this];
    }

    /** Run processEvent over each event in turn, logging and skipping errors. */
    method ProcessEach(es: seq<EventWrapper>)
      modifies this`out
      ensures out == old(out) + ProcessAll(config, es)
    {
      for i := 0 to |es|
        invariant out == old(out) + ProcessAll(config, es[..i])
      {
        ProcessAllExtend(config, old(out), es, i);
        var err := ProcessEvent(es[i]);
      }
      assert es[..|es|] == es;
    }

    /** The first two phases of Start's goroutine: process the initial events, then,
        when resuming from a non-zero cursor, replay the pre-start buffer. */
    method RunStartup(initEvents: seq<Event>)
      requires Valid()
      modifies this`out
      ensures Valid()
      ensures out == old(out) + ProcessAll(config, WrapInitial(initEvents))
                     + (if config.requestedRV != 0 then ProcessAll(config, buffered) else [])
    {
      ProcessEach(WrapInitial(initEvents));
      // replaying from cursor 0 would repeat what the initial list already sent
      if config.requestedRV != 0 {
        ProcessEach(buffered);
      }
    }

    /** The last phase of Start's goroutine: process every queued event in order;
        once the queue is closed and empty, close the output. */
    method DrainUpdates()
      requires Valid()
      modifies this`out, this`updateQueue, this`outClosed
      ensures Valid()
      ensures out == old(out) + ProcessAll(config, old(updateQueue))
      ensures updateQueue == []
      ensures outClosed == (old(outClosed) || queueClosed)
    {
      ghost var pending := updateQueue;
      ghost var i := 0;
      while updateQueue != []
        invariant 0 <= i <= |pending| && updateQueue == pending[i..]
        invariant out == old(out) + ProcessAll(config, pending[..i])
        invariant outClosed == old(outClosed)
        decreases |updateQueue|
      {
        var e := updateQueue[0];
        ProcessAllExtend(config, old(out), pending, i);
        updateQueue := updateQueue[1..];
        i := i + 1;
        var err := ProcessEvent(e);
      }
      assert pending[..i] == pending;
      if queueClosed {
        outClosed := true;
      }
    }

    /** Stop (and the unlocked stop): deregister this id and close the live queue. */
    method Stop()
      modifies s`nodes, this`queueClosed
      ensures s.nodes == old(s.nodes) - {id} && queueClosed
      ensures old(s.Valid()) ==> s.Valid()
    {
      s.nodes := s.nodes - {id};
      queueClosed := true;
    }
  }

  class WatchSet {
    var nodes: map<int, WatchNode>
    var counter: int

    /** Every registered node sits under its own id, which the counter has already
        handed out, belongs to this set, and has an open live queue. */
    ghost predicate Valid()
      reads this, nodes.Values
    {
      && Registered()
      && forall k | k in nodes :: nodes[k].Live()
    }

    /** Every registered node sits under its own id, which the counter has already
        handed out, and belongs to this set. */
    ghost predicate Registered()
      reads this
    {
      && counter >= 0
      && forall k | k in nodes :: nodes[k].id == k && 0 < k <= counter && nodes[k].s == this
    }

    constructor ()
      ensures Valid() && nodes == map[] && counter == 0
    {
      nodes, counter := map[], 0;
    }

    /** newWatch: a fresh node under the next id, not registered yet. */
    method NewWatch(requestedRV: uint64, p: Predicate, namespace: Option<string>) returns (node: WatchNode)
      requires Valid()
      modifies this`counter
      ensures Valid() && nodes == old(nodes)
      ensures counter == old(counter) + 1 && node.id == counter
      ensures node.id !in nodes && forall k | k in nodes :: k < node.id
      ensures fresh(node) && node.s == this && node.config == WatchConfig(requestedRV, namespace, p)
      ensures node.Valid() && node.delivered == [] && node.out == [] && !node.queueClosed && !node.outClosed
      ensures node.updateQueue == [] && node.buffered == [] && !node.started
    {
      counter := counter + 1;
      node := new WatchNode(this, counter, WatchConfig(requestedRV, namespace, p));
    }

    /** order lists every registered id exactly once: the order in which ranging
        over the map visits them, which Go leaves unspecified. */
    ghost predicate Enumerates(order: seq<int>)
      reads this
    {
      && (forall i | 0 <= i < |order| :: order[i] in nodes)
      && (forall k | k in nodes :: k in order)
      && (forall i, j | 0 <= i < j < |order| :: order[i] != order[j])
    }

    /** cleanupWatchers: stop every registered node, visiting them in `order`. */
    method CleanupWatchers(order: seq<int>)
      requires Registered() && Enumerates(order)
      modifies this`nodes, nodes.Values
      ensures Valid() && counter == old(counter)
      ensures forall k :: k !in nodes
      ensures forall k | k in old(nodes) :: old(nodes)[k].queueClosed
      ensures forall w | w in old(nodes.Values) ::
        && w.out == old(w.out) && w.outClosed == old(w.outClosed) && w.updateQueue == old(w.updateQueue)
        && w.buffered == old(w.buffered) && w.started == old(w.started) && w.delivered == old(w.delivered)
    {
      ghost var registered := nodes;
      for i := 0 to |order|
        invariant forall j | 0 <= j < |order| :: order[j] in registered
        invariant forall k :: k in nodes <==> k in order[i..]
        invariant forall k | k in nodes :: nodes[k] == registered[k]
        invariant forall j | 0 <= j < i :: registered[order[j]].queueClosed
        invariant forall w | w in old(nodes.Values) ::
          && w.out == old(w.out) && w.outClosed == old(w.outClosed) && w.updateQueue == old(w.updateQueue)
          && w.buffered == old(w.buffered) && w.started == old(w.started) && w.delivered == old(w.delivered)
      {
        assert order[i..][0] == order[i];
        var w := nodes[order[i]];
        w.Stop();
        assert order[i..][1..] == order[i + 1..];
      }
    }

    /** notifyWatchers: push the event onto every registered node's live queue, in
        `order`; a node that has not started yet also buffers it, and every node is
        then started. */
    method NotifyWatchers(ev: Event, oldObject: Option<Obj>, order: seq<int>)
      requires Valid() && Enumerates(order)
      modifies nodes.Values
      ensures Valid()
      ensures forall k | k in nodes :: nodes[k].Delivered(old(nodes[k].Snapshot()), EventWrapper(ev, oldObject))
    {
      var e := EventWrapper(ev, oldObject);
      ghost var visited: set<int> := {};
      for i := 0 to |order|
        invariant forall k | k in visited :: k in nodes
        invariant forall j | 0 <= j < i :: order[j] in visited
        invariant forall j | i <= j < |order| :: order[j] !in visited
        invariant forall k | k in nodes && k !in visited :: unchanged(nodes[k])
        invariant forall k | k in visited :: nodes[k].Delivered(old(nodes[k].Snapshot()), e)
      {
        var w := nodes[order[i]];
        w.Deliver(e);
        visited := visited + {order[i]};
      }
      forall k | k in nodes
        ensures nodes[k].Live()
      {
        var j :| 0 <= j < |order| && order[j] == k;
        DeliverKeepsValid(old(nodes[k].Snapshot()), e);
      }
    }
  }

  /** One event notified between Start and the start-up replay of a node that
      was created with no initial events: with a non-zero resume cursor it is
      both replayed from the buffer and drained from the live queue, so its
      output appears twice; from cursor 0 the buffer is skipped and it appears
      once. */
  method EventBeforeReplay(requestedRV: uint64, p: Predicate, namespace: Option<string>, ev: Event, oldObject: Option<Obj>)
    returns (out: seq<Event>)
    ensures var c, e := WatchConfig(requestedRV, namespace, p), EventWrapper(ev, oldObject);
      out == (if requestedRV != 0 then Emitted(c, e) else []) + Emitted(c, e)
  {
    var ws := new WatchSet();
    var node := ws.NewWatch(requestedRV, p, namespace);
    node.Start();
    ws.NotifyWatchers(ev, oldObject, [node.id]);
    ghost var e := EventWrapper(ev, oldObject);
    assert node.buffered == [e] && node.updateQueue == [e];
    ProcessAllCons(node.config, [e]);
    node.RunStartup([]);
    node.DrainUpdates();
    out := node.out;
  }
}
