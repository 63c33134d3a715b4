/** What one node's remote service keeps by itself, whatever the network brings and however many calls it makes. */
module NodeRuns {
  import opened Basics
  import opened CallIds
  import opened RemoteCall

  predicate Steps(n: Node, e: NodeEvent, n': Node) {
    NodeStep(n, e).Some? && NodeStep(n, e).value.node == n'
  }

  /** The states a node passed through, one event apart. */
  ghost predicate IsHistory(nodes: seq<Node>, events: seq<NodeEvent>) {
    && |nodes| == |events| + 1
    && forall i {:trigger events[i]} :: 0 <= i < |events| ==> Steps(nodes[i], events[i], nodes[i + 1])
  }

  /** A pending entry names a call with that id that has not returned; a held reply belongs to a call with its id. */
  ghost predicate TablesOk(n: Node) {
    && (forall k :: k in n.pending ==>
          n.pending[k] < |n.calls| && n.calls[n.pending[k]].id == k && !n.calls[n.pending[k]].phase.Returned?)
    && (forall c, rep :: (c, rep) in n.held ==> c < |n.calls| && n.calls[c].id == rep.callId)
  }

  predicate SameRequest(a: CallRec, b: CallRec) {
    a.id == b.id && a.ref == b.ref && a.args == b.args
  }

  /** A step of one call changes that call only, never its request; it may drop a held reply, and drops the pending entry
      exactly when the call returns. */
  lemma CallStepShape(n: Node, c: nat, e: NodeEvent)
    requires c < |n.calls| && CallStep(n, c, e).Some?
    ensures var n' := CallStep(n, c, e).value.node;
      && |n'.calls| == |n.calls| && SameRequest(n.calls[c], n'.calls[c])
      && n' == SetCall(n, c, n'.calls[c]).(held := n'.held, pending := n'.pending)
      && n'.held <= n.held
      && n'.pending == (if e.CallReturn? then n.pending - {n.calls[c].id} else n.pending)
      && (n'.calls[c].phase.Returned? ==> e.CallReturn? || n.calls[c].phase.Returned?)
      && (n.calls[c].phase.Returned? ==> n'.calls[c].phase == n.calls[c].phase)
  {
  }

  /** Calls are only ever added, and a returned call stays as it returned. */
  lemma NodeCallsStay(n: Node, e: NodeEvent, n': Node)
    requires Steps(n, e, n')
    ensures |n.calls| <= |n'.calls|
    ensures forall c :: 0 <= c < |n.calls| && n.calls[c].phase.Returned? ==> n'.calls[c].phase == n.calls[c].phase
  {
    if OfOneCall(e) { CallStepShape(n, e.call, e); }
  }

  /** The events of a call after it was begun. */
  predicate OfOneCall(e: NodeEvent) {
    !(e.Register? || e.Unregister? || e.CallBegin? || e.CallUnserializable? || e.HandleCall? || e.HandleReply?)
  }

  lemma CallStepKeepsTables(n: Node, c: nat, e: NodeEvent)
    requires TablesOk(n) && c < |n.calls| && CallStep(n, c, e).Some?
    ensures TablesOk(CallStep(n, c, e).value.node)
  {
    CallStepShape(n, c, e);
    OneCallKeepsTables(n, c, CallStep(n, c, e).value.node, e.CallReturn?);
  }

  lemma OneCallKeepsTables(n: Node, c: nat, n': Node, done: bool)
    requires TablesOk(n) && c < |n.calls| == |n'.calls| && SameRequest(n.calls[c], n'.calls[c])
    requires n'.calls == n.calls[c := n'.calls[c]] && n'.held <= n.held
    requires n'.pending == if done then n.pending - {n.calls[c].id} else n.pending
    requires n'.calls[c].phase.Returned? ==> done || n.calls[c].phase.Returned?
    ensures TablesOk(n')
  {
    forall d, rep | (d, rep) in n'.held ensures d < |n'.calls| && n'.calls[d].id == rep.callId {
      assert (d, rep) in n.held;
    }
  }

  lemma StepKeepsTables(n: Node, e: NodeEvent, n': Node)
    requires TablesOk(n) && Steps(n, e, n')
    ensures TablesOk(n')
  {
    if OfOneCall(e) {
      CallStepKeepsTables(n, e.call, e);
    } else if e.CallBegin? {
      BeginKeepsTables(n, n'.calls[|n.calls|]);
    }
  }

  lemma BeginKeepsTables(n: Node, call: CallRec)
    requires TablesOk(n) && !call.phase.Returned?
    ensures TablesOk(n.(calls := n.calls + [call], pending := n.pending[call.id := |n.calls|]))
  {
  }

  lemma {:induction false} EveryHistoryKeepsTables(nodes: seq<Node>, events: seq<NodeEvent>, i: nat)
    requires IsHistory(nodes, events) && TablesOk(nodes[0]) && i <= |events|
    ensures TablesOk(nodes[i])
  {
    if i > 0 {
      EveryHistoryKeepsTables(nodes, events, i - 1);
      StepKeepsTables(nodes[i - 1], events[i - 1], nodes[i]);
    }
  }

  // ---- the node's part of a cluster run ----

  /** The events of a cluster run that happened at one node. */
  function EventsAt(es: seq<Event>, at: NodeId): seq<NodeEvent> {
    if es == [] then [] else (if es[0].at == at then [es[0].e] else []) + EventsAt(es[1..], at)
  }

  /** What a cluster run does to one node is a history of that node. */
  lemma {:induction false} ClusterRunIsNodeHistory(s: Cluster, es: seq<Event>, t: Cluster, at: NodeId)
    returns (nodes: seq<Node>)
    requires Exec(s, es) == Some(t) && at in s.nodes
    ensures at in t.nodes && IsHistory(nodes, EventsAt(es, at))
    ensures nodes[0] == s.nodes[at] && nodes[|EventsAt(es, at)|] == t.nodes[at]
    decreases |es|
  {
    if es == [] {
      nodes := [s.nodes[at]];
    } else {
      var s' := Apply(s, es[0]).value;
      nodes := ClusterRunIsNodeHistory(s', es[1..], t, at);
      if es[0].at == at {
        HistoryFront(s.nodes[at], es[0].e, nodes, EventsAt(es[1..], at));
        nodes := [s.nodes[at]] + nodes;
      }
    }
  }

  lemma HistoryFront(n: Node, e: NodeEvent, nodes: seq<Node>, events: seq<NodeEvent>)
    requires IsHistory(nodes, events) && Steps(n, e, nodes[0])
    ensures IsHistory([n] + nodes, [e] + events)
  {
    var ns, es := [n] + nodes, [e] + events;
    forall i | 0 <= i < |es| ensures Steps(ns[i], es[i], ns[i + 1]) {
      if i > 0 {
        assert es[i] == events[i - 1] && ns[i] == nodes[i - 1] && ns[i + 1] == nodes[i];
      }
    }
  }
}
