/** What every run of the cluster keeps: a call only returns what its own request was answered with. */
module RemoteRuns {
  import opened Basics
  import opened CallIds
  import opened RemoteCall
  import opened NodeRuns

  /** `a` answers exactly the request of `call`: same service, same id, same arguments. */
  predicate AnswersCall(a: Answer, call: CallRec) {
    a.ref == call.ref && a.callId == call.id && a.args == call.args
  }

  /** Some answer to this very call reads back as `ret`. */
  ghost predicate Justified(call: CallRec, answers: set<Answer>, ret: Return) {
    exists a :: a in answers && AnswersCall(a, call) && ReadBack(EncodeOutcome(call.id, a.outcome)) == ret
  }

  predicate IsReply(ret: Return) {
    ret.GotResult? || ret.GotError?
  }

  ghost predicate CallOk(call: CallRec, answers: set<Answer>) {
    && (call.result.Some? ==> Justified(call, answers, GotResult(call.result.value)))
    && (call.error.Some? ==> Justified(call, answers, GotError(call.error.value)))
    && ((call.phase.Leaving? || call.phase.Returned?) && IsReply(call.phase.ret) ==> Justified(call, answers, call.phase.ret))
  }

  /** `rep` is a justified reply to call `c` of node `n`. */
  ghost predicate ReplyFor(n: Node, c: nat, rep: Reply, answers: set<Answer>) {
    c < |n.calls| && rep.callId == n.calls[c].id && Justified(n.calls[c], answers, ReadBack(rep))
  }

  /** Call ids are drawn in order, and pending entries name the call with that id. */
  ghost predicate IdsOk(n: Node) {
    && n.counter == |n.calls| < TWO_63
    && (forall c :: 0 <= c < |n.calls| ==> n.calls[c].id == MakeCallId(n.id, c + 1))
    && (forall k :: k in n.pending ==> n.pending[k] < |n.calls| && n.calls[n.pending[k]].id == k)
  }

  ghost predicate NodeOk(n: Node, answers: set<Answer>) {
    && IdsOk(n)
    && (forall c :: 0 <= c < |n.calls| ==> CallOk(n.calls[c], answers))
    && (forall c, rep :: (c, rep) in n.held ==> ReplyFor(n, c, rep, answers))
  }

  ghost predicate PacketOk(s: Cluster, p: Packet) {
    match p
    case CallPacket(from, to, req) =>
      from in s.nodes && exists c :: 0 <= c < |s.nodes[from].calls| && Requests(s.nodes[from].calls[c], to, req)
    case ReplyPacket(_, to, rep) =>
      to in s.nodes && exists c :: ReplyFor(s.nodes[to], c, rep, s.answers)
  }

  predicate Requests(call: CallRec, to: NodeId, req: Request) {
    req == RequestOf(call) && to == call.ref.node
  }

  predicate AnswerOk(a: Answer) {
    !a.ran ==> a.outcome == MissingHandler(a.ref.service)
  }

  ghost predicate Inv(s: Cluster) {
    && (forall id :: id in s.nodes ==> s.nodes[id].id == id && NodeOk(s.nodes[id], s.answers))
    && (forall p :: p in s.network ==> PacketOk(s, p))
    && (forall a :: a in s.answers ==> AnswerOk(a))
  }

  /** Later states keep every call's request. */
  ghost predicate Extends(n: Node, n': Node) {
    && n'.id == n.id && |n.calls| <= |n'.calls|
    && forall c :: 0 <= c < |n.calls| ==> SameRequest(n.calls[c], n'.calls[c])
  }

  lemma JustifiedGrows(call: CallRec, answers: set<Answer>, call': CallRec, answers': set<Answer>, ret: Return)
    requires Justified(call, answers, ret) && SameRequest(call, call') && answers <= answers'
    ensures Justified(call', answers', ret)
  {
    var a :| a in answers && AnswersCall(a, call) && ReadBack(EncodeOutcome(call.id, a.outcome)) == ret;
    assert a in answers' && AnswersCall(a, call');
  }

  lemma ReplyForGrows(n: Node, n': Node, c: nat, rep: Reply, answers: set<Answer>, answers': set<Answer>)
    requires ReplyFor(n, c, rep, answers) && Extends(n, n') && answers <= answers'
    ensures ReplyFor(n', c, rep, answers')
  {
    JustifiedGrows(n.calls[c], answers, n'.calls[c], answers', ReadBack(rep));
  }

  lemma NodeOkGrows(n: Node, answers: set<Answer>, answers': set<Answer>)
    requires NodeOk(n, answers) && answers <= answers'
    ensures NodeOk(n, answers')
  {
    forall c | 0 <= c < |n.calls| ensures CallOk(n.calls[c], answers') {
      CallOkGrows(n.calls[c], answers, answers');
    }
    forall c, rep | (c, rep) in n.held ensures ReplyFor(n, c, rep, answers') {
      ReplyForGrows(n, n, c, rep, answers, answers');
    }
  }

  lemma CallOkGrows(call: CallRec, answers: set<Answer>, answers': set<Answer>)
    requires CallOk(call, answers) && answers <= answers'
    ensures CallOk(call, answers')
  {
    forall ret | Justified(call, answers, ret) ensures Justified(call, answers', ret) {
      JustifiedGrows(call, answers, call, answers', ret);
    }
  }

  lemma PacketOkGrows(s: Cluster, s': Cluster, p: Packet)
    requires PacketOk(s, p) && s.nodes.Keys <= s'.nodes.Keys && s.answers <= s'.answers
    requires forall id :: id in s.nodes ==> Extends(s.nodes[id], s'.nodes[id])
    ensures PacketOk(s', p)
  {
    match p
    case CallPacket(from, to, req) =>
      var c :| 0 <= c < |s.nodes[from].calls| && Requests(s.nodes[from].calls[c], to, req);
      assert Requests(s'.nodes[from].calls[c], to, req);
    case ReplyPacket(_, to, rep) =>
      var c :| ReplyFor(s.nodes[to], c, rep, s.answers);
      ReplyForGrows(s.nodes[to], s'.nodes[to], c, rep, s.answers, s'.answers);
  }

  /** Two calls of one node with the same id are the same call. */
  lemma SameIdSameCall(n: Node, c: nat, d: nat)
    requires IdsOk(n) && c < |n.calls| && d < |n.calls| && n.calls[c].id == n.calls[d].id
    ensures c == d
  {
    assert MakeCallId(n.id, c + 1) == n.calls[c].id == n.calls[d].id == MakeCallId(n.id, d + 1);
    CallIdInjective(n.id, c + 1, n.id, d + 1);
  }

  // ---- one node's step ----

  lemma DeliverOk(call: CallRec, rep: Reply, answers: set<Answer>)
    requires CallOk(call, answers) && Justified(call, answers, ReadBack(rep))
    ensures CallOk(Deliver(call, rep), answers)
  {
    forall ret | Justified(call, answers, ret) ensures Justified(Deliver(call, rep), answers, ret) {
      JustifiedGrows(call, answers, Deliver(call, rep), answers, ret);
    }
  }

  /** Changing one call to a justified one with the same request keeps a node good. */
  lemma SetCallOk(n: Node, c: nat, call: CallRec, answers: set<Answer>)
    requires NodeOk(n, answers) && c < |n.calls| && SameRequest(n.calls[c], call) && CallOk(call, answers)
    ensures NodeOk(SetCall(n, c, call), answers) && Extends(n, SetCall(n, c, call))
  {
    var n' := SetCall(n, c, call);
    assert Extends(n, n');
    forall d, rep | (d, rep) in n'.held ensures ReplyFor(n', d, rep, answers) {
      ReplyForGrows(n, n', d, rep, answers, answers);
    }
  }

  lemma CallStepCallOk(n: Node, c: nat, e: NodeEvent, f: Effect, answers: set<Answer>)
    requires NodeOk(n, answers) && c < |n.calls| && CallStep(n, c, e) == Some(f)
    requires |f.node.calls| == |n.calls| && SameRequest(n.calls[c], f.node.calls[c])
    ensures CallOk(f.node.calls[c], answers)
  {
    var call := n.calls[c];
    assert CallOk(call, answers);
    if e.DeliverReply? {
      DeliverOk(call, e.rep, answers);
    } else {
      forall ret | Justified(call, answers, ret) ensures Justified(f.node.calls[c], answers, ret) {
        JustifiedGrows(call, answers, f.node.calls[c], answers, ret);
      }
    }
  }

  lemma CallStepOk(n: Node, c: nat, e: NodeEvent, f: Effect, answers: set<Answer>)
    requires NodeOk(n, answers) && c < |n.calls| && CallStep(n, c, e) == Some(f)
    ensures NodeOk(f.node, answers) && Extends(n, f.node)
  {
    CallStepShape(n, c, e);
    CallStepCallOk(n, c, e, f, answers);
    SetCallOk(n, c, f.node.calls[c], answers);
    FewerEntriesOk(SetCall(n, c, f.node.calls[c]), f.node, answers);
  }

  lemma FewerEntriesOk(n: Node, n': Node, answers: set<Answer>)
    requires NodeOk(n, answers) && n' == n.(held := n'.held, pending := n'.pending)
    requires n'.held <= n.held && n'.pending.Keys <= n.pending.Keys
    requires forall k :: k in n'.pending ==> n'.pending[k] == n.pending[k]
    ensures NodeOk(n', answers)
  {
    forall c, rep | (c, rep) in n'.held ensures ReplyFor(n', c, rep, answers) {
      assert (c, rep) in n.held;
    }
  }

  lemma NewIdOk(n: Node, call: CallRec, pending: map<CallId, nat>)
    requires IdsOk(n) && |n.calls| + 1 < TWO_63 && call.id == MakeCallId(n.id, NextCounter(n))
    requires pending == n.pending || pending == n.pending[call.id := |n.calls|]
    ensures IdsOk(n.(counter := NextCounter(n), calls := n.calls + [call], pending := pending))
  {
    assert NextCounter(n) == |n.calls| + 1;
    var calls := n.calls + [call];
    forall c | 0 <= c < |calls| ensures calls[c].id == MakeCallId(n.id, c + 1) {
      if c < |n.calls| { assert calls[c] == n.calls[c]; }
    }
    forall k | k in pending ensures pending[k] < |calls| && calls[pending[k]].id == k {
      if k in n.pending { assert calls[n.pending[k]] == n.calls[n.pending[k]]; }
    }
  }

  /** Drawing a new id: the call is appended, and the pending table may point to it. */
  lemma NewCallOk(n: Node, call: CallRec, pending: map<CallId, nat>, answers: set<Answer>)
    requires NodeOk(n, answers) && |n.calls| + 1 < TWO_63
    requires call.id == MakeCallId(n.id, NextCounter(n)) && CallOk(call, answers)
    requires pending == n.pending || pending == n.pending[call.id := |n.calls|]
    ensures var n' := n.(counter := NextCounter(n), calls := n.calls + [call], pending := pending);
            NodeOk(n', answers) && Extends(n, n')
  {
    var n' := n.(counter := NextCounter(n), calls := n.calls + [call], pending := pending);
    NewIdOk(n, call, pending);
    forall c, rep | (c, rep) in n'.held ensures ReplyFor(n', c, rep, answers) {
      ReplyForGrows(n, n', c, rep, answers, answers);
    }
  }

  /** A reply that was sent for some call of this node is held for the call its id names. */
  lemma HandleReplyOk(n: Node, d: nat, rep: Reply, answers: set<Answer>)
    requires NodeOk(n, answers) && ReplyFor(n, d, rep, answers)
    ensures var n' := NodeStep(n, HandleReply(rep)).value.node; NodeOk(n', answers) && Extends(n, n')
  {
    if rep.callId in n.pending {
      var c := n.pending[rep.callId];
      SameIdSameCall(n, c, d);
      var n' := n.(held := n.held + multiset{(c, rep)});
      assert Extends(n, n');
      forall k, r | (k, r) in n'.held ensures ReplyFor(n', k, r, answers) {
        ReplyForGrows(n, n', k, r, answers, answers);
      }
    }
  }

  /** A node's step, when a handled reply is justified for one of its calls. */
  lemma NodeStepOk(n: Node, e: NodeEvent, f: Effect, answers: set<Answer>)
    requires NodeOk(n, answers) && NodeStep(n, e) == Some(f) && |f.node.calls| < TWO_63
    requires e.HandleReply? ==> exists d :: ReplyFor(n, d, e.rep, answers)
    ensures NodeOk(f.node, answers) && Extends(n, f.node)
  {
    if e.Register? || e.Unregister? {
      SameCallsOk(n, f.node, answers);
    } else if e.CallBegin? || e.CallUnserializable? {
      BeginOk(n, e, f, answers);
    } else if e.HandleReply? {
      var d :| ReplyFor(n, d, e.rep, answers);
      HandleReplyOk(n, d, e.rep, answers);
    } else if !e.HandleCall? {
      CallStepOk(n, e.call, e, f, answers);
    }
  }

  lemma BeginOk(n: Node, e: NodeEvent, f: Effect, answers: set<Answer>)
    requires NodeOk(n, answers) && NodeStep(n, e) == Some(f) && |f.node.calls| < TWO_63
    requires e.CallBegin? || e.CallUnserializable?
    ensures NodeOk(f.node, answers) && Extends(n, f.node)
  {
    NewCallOk(n, f.node.calls[|n.calls|], f.node.pending, answers);
  }

  lemma SameCallsOk(n: Node, n': Node, answers: set<Answer>)
    requires NodeOk(n, answers) && n' == n.(handlers := n'.handlers)
    ensures NodeOk(n', answers) && Extends(n, n')
  {
    forall c, rep | (c, rep) in n'.held ensures ReplyFor(n', c, rep, answers) {
      assert ReplyFor(n, c, rep, answers);
    }
  }

  lemma AnswersOk(n: Node, e: NodeEvent, f: Effect, a: Answer)
    requires NodeStep(n, e) == Some(f) && a in f.answers
    ensures AnswerOk(a)
  {
  }

  /** A reply that was sent to this node is justified for one of its calls. */
  lemma ReceivedOk(s: Cluster, at: NodeId, rep: Reply)
    requires Inv(s) && Received(s, at, HandleReply(rep))
    ensures at in s.nodes && exists d :: ReplyFor(s.nodes[at], d, rep, s.answers)
  {
    var p :| p in s.network && p.ReplyPacket? && p.to == at && p.rep == rep;
    assert PacketOk(s, p);
  }

  /** The reply to a request that was sent is justified by the answer it carries. */
  lemma RepliedOk(s: Cluster, at: NodeId, from: NodeId, req: Request, outcome: Outcome, answers: set<Answer>)
    requires Inv(s) && at in s.nodes && CallPacket(from, at, req) in s.network
    requires AnswerTo(s.nodes[at], req, outcome) in answers
    ensures var a := AnswerTo(s.nodes[at], req, outcome);
            from in s.nodes && exists c :: ReplyFor(s.nodes[from], c, EncodeOutcome(req.callId, a.outcome), answers)
  {
    assert PacketOk(s, CallPacket(from, at, req));
    var c :| 0 <= c < |s.nodes[from].calls| && Requests(s.nodes[from].calls[c], at, req);
    var a := AnswerTo(s.nodes[at], req, outcome);
    assert AnswersCall(a, s.nodes[from].calls[c]);
    assert ReplyFor(s.nodes[from], c, EncodeOutcome(req.callId, a.outcome), answers);
  }

  /** Apart from replies to requests, a node only sends the requests of its own calls. */
  lemma RequestedOk(n: Node, e: NodeEvent, f: Effect, p: Packet)
    requires NodeStep(n, e) == Some(f) && p in f.sent && !e.HandleCall?
    ensures p.CallPacket? && p.from == n.id
    ensures exists c :: 0 <= c < |f.node.calls| && Requests(f.node.calls[c], p.to, p.req)
  {
    assert Requests(f.node.calls[e.call], p.to, p.req);
  }

  /** What a node sends is a request of one of its calls, or a justified reply to the sender of a request. */
  lemma SentOk(s: Cluster, e: Event, s': Cluster, f: Effect, p: Packet)
    requires Inv(s) && Apply(s, e) == Some(s') && NodeStep(s.nodes[e.at], e.e) == Some(f) && p in f.sent
    ensures PacketOk(s', p)
  {
    if e.e.HandleCall? {
      assert s'.nodes == s.nodes;
      RepliedOk(s, e.at, e.e.from, e.e.req, e.e.outcome, s'.answers);
    } else {
      RequestedOk(s.nodes[e.at], e.e, f, p);
      assert s'.nodes[e.at] == f.node;
    }
  }

  predicate FewCalls(s: Cluster) {
    forall id :: id in s.nodes ==> |s.nodes[id].calls| < TWO_63
  }

  lemma StepKeepsNodes(s: Cluster, e: Event, s': Cluster, f: Effect)
    requires Inv(s) && Apply(s, e) == Some(s') && NodeStep(s.nodes[e.at], e.e) == Some(f) && |f.node.calls| < TWO_63
    ensures Extends(s.nodes[e.at], f.node)
    ensures forall id :: id in s'.nodes ==> s'.nodes[id].id == id && NodeOk(s'.nodes[id], s'.answers)
  {
    if e.e.HandleReply? { ReceivedOk(s, e.at, e.e.rep); }
    NodeStepOk(s.nodes[e.at], e.e, f, s.answers);
    NodeOkGrows(f.node, s.answers, s'.answers);
    forall id | id in s'.nodes ensures s'.nodes[id].id == id && NodeOk(s'.nodes[id], s'.answers) {
      if id != e.at { NodeOkGrows(s.nodes[id], s.answers, s'.answers); }
    }
  }

  lemma StepKeepsInv(s: Cluster, e: Event, s': Cluster)
    requires Inv(s) && Apply(s, e) == Some(s') && FewCalls(s')
    ensures Inv(s')
  {
    var f := NodeStep(s.nodes[e.at], e.e).value;
    assert s'.nodes[e.at] == f.node;
    StepKeepsNodes(s, e, s', f);
    forall p | p in s'.network ensures PacketOk(s', p) {
      if p in s.network { PacketOkGrows(s, s', p); } else { SentOk(s, e, s', f, p); }
    }
    forall a | a in s'.answers ensures AnswerOk(a) {
      if a !in s.answers { AnswersOk(s.nodes[e.at], e.e, f, a); }
    }
  }

  // ---- whole runs ----

  lemma CallsGrow(s: Cluster, e: Event, s': Cluster)
    requires Apply(s, e) == Some(s')
    ensures s'.nodes.Keys == s.nodes.Keys
    ensures forall id :: id in s.nodes ==> |s.nodes[id].calls| <= |s'.nodes[id].calls|
  {
    NodeCallsStay(s.nodes[e.at], e.e, s'.nodes[e.at]);
  }

  lemma {:induction false} FewCallsBefore(s: Cluster, es: seq<Event>, t: Cluster)
    requires Exec(s, es) == Some(t) && FewCalls(t)
    ensures FewCalls(s)
    decreases |es|
  {
    if es != [] {
      var s' := Apply(s, es[0]).value;
      FewCallsBefore(s', es[1..], t);
      CallsGrow(s, es[0], s');
    }
  }

  /** Every run in which no node draws 2^63 ids keeps the invariant. */
  lemma {:induction false} EveryRun(s: Cluster, es: seq<Event>, t: Cluster)
    requires Inv(s) && Exec(s, es) == Some(t) && FewCalls(t)
    ensures Inv(t)
    decreases |es|
  {
    if es != [] {
      var s' := Apply(s, es[0]).value;
      FewCallsBefore(s', es[1..], t);
      StepKeepsInv(s, es[0], s');
      EveryRun(s', es[1..], t);
    }
  }

  /** No two calls in the cluster share an id. */
  lemma IdNamesOneCall(s: Cluster, id: NodeId, d: nat, at: NodeId, c: nat)
    requires Inv(s) && id in s.nodes && at in s.nodes && d < |s.nodes[id].calls| && c < |s.nodes[at].calls|
    requires s.nodes[id].calls[d].id == s.nodes[at].calls[c].id
    ensures id == at && d == c
  {
    assert IdsOk(s.nodes[id]) && IdsOk(s.nodes[at]);
    assert MakeCallId(id, d + 1) == s.nodes[id].calls[d].id == s.nodes[at].calls[c].id == MakeCallId(at, c + 1);
    CallIdInjective(id, d + 1, at, c + 1);
  }

  // ---- where answers come from ----

  /** Nodes are stored under their own id. */
  predicate Named(s: Cluster) {
    forall id :: id in s.nodes ==> s.nodes[id].id == id
  }

  lemma StepKeepsNames(s: Cluster, e: Event, s': Cluster)
    requires Named(s) && Apply(s, e) == Some(s')
    ensures Named(s')
  {
    NodeCallsStay(s.nodes[e.at], e.e, s'.nodes[e.at]);
  }

  /** `a` was computed by event `e` in state `u`: the addressed node handled exactly that request, and answered with what
      its handler returned if the service was registered there at the time, or with the missing-handler error. */
  predicate ComputedBy(a: Answer, e: Event, u: Cluster) {
    && e.at == a.ref.node && e.at in u.nodes
    && e.e.HandleCall? && e.e.req == Request(a.callId, a.ref.service, a.args)
    && a.ran == (a.ref.service in u.nodes[e.at].handlers)
    && a.outcome == if a.ran then e.e.outcome else Error("service not found: " + a.ref.service)
  }

  lemma NewAnswer(s: Cluster, e: Event, s': Cluster, a: Answer)
    requires Named(s) && Apply(s, e) == Some(s') && a in s'.answers && a !in s.answers
    ensures ComputedBy(a, e, s)
  {
  }

  /** Every answer of a run was computed by one of its events. */
  lemma {:induction false} AnswerWasComputed(s: Cluster, es: seq<Event>, t: Cluster, a: Answer) returns (i: nat, u: Cluster)
    requires Named(s) && Exec(s, es) == Some(t) && a in t.answers && a !in s.answers
    ensures i < |es| && Exec(s, es[..i]) == Some(u) && ComputedBy(a, es[i], u)
    decreases |es|
  {
    var s' := Apply(s, es[0]).value;
    if a in s'.answers {
      NewAnswer(s, es[0], s', a);
      i, u := 0, s;
    } else {
      StepKeepsNames(s, es[0], s');
      i, u := AnswerWasComputed(s', es[1..], t, a);
      i := i + 1;
      assert es[..i][1..] == es[1..][..i - 1];
    }
  }

  /** Whether a service is registered at a node after some events, given whether it was before. */
  function RegisteredAfter(es: seq<Event>, at: NodeId, service: Service, before: bool): bool {
    if es == [] then before
    else
      var now := if es[0].at != at then before
                 else if es[0].e == Register(service) then true
                 else if es[0].e == Unregister(service) then false
                 else before;
      RegisteredAfter(es[1..], at, service, now)
  }

  /** A node has a handler for exactly the services registered there and not unregistered since. */
  lemma {:induction false} HandlersAreRegistered(s: Cluster, es: seq<Event>, t: Cluster, at: NodeId, service: Service)
    requires Exec(s, es) == Some(t) && at in s.nodes
    ensures at in t.nodes
    ensures service in t.nodes[at].handlers <==> RegisteredAfter(es, at, service, service in s.nodes[at].handlers)
    decreases |es|
  {
    if es != [] {
      var s' := Apply(s, es[0]).value;
      if es[0].at == at { HandlersStep(s.nodes[at], es[0].e, s'.nodes[at], service); }
      HandlersAreRegistered(s', es[1..], t, at, service);
    }
  }

  lemma HandlersStep(n: Node, e: NodeEvent, n': Node, service: Service)
    requires Steps(n, e, n')
    ensures service in n'.handlers <==> e == Register(service) || (service in n.handlers && e != Unregister(service))
  {
    if OfOneCall(e) { CallStepShape(n, e.call, e); }
  }

  /** Call `c` of node `at` returned the answer `a`, which is to this very call and to no other. */
  ghost predicate ReturnedAnswer(t: Cluster, at: NodeId, c: nat, a: Answer) {
    && at in t.nodes && c < |t.nodes[at].calls| && t.nodes[at].calls[c].phase.Returned?
    && a in t.answers && AnswersCall(a, t.nodes[at].calls[c])
    && (forall id, d :: id in t.nodes && 0 <= d < |t.nodes[id].calls| && AnswersCall(a, t.nodes[id].calls[d]) ==>
          id == at && d == c)
    && t.nodes[at].calls[c].phase.ret == ReadBack(EncodeOutcome(a.callId, a.outcome))
    && (a.outcome != Error("") ==> t.nodes[at].calls[c].phase.ret == Faithful(a.outcome))
  }

  /** Event `i` of the run computed the answer in state `u`: what the handler returned there, if the service was registered
      by then, or the missing-handler report. */
  ghost predicate AnswerFrom(ids: set<NodeId>, es: seq<Event>, a: Answer, i: nat, u: Cluster) {
    && i < |es| && Exec(Init(ids), es[..i]) == Some(u) && ComputedBy(a, es[i], u)
    && a.ran == RegisteredAfter(es[..i], a.ref.node, a.ref.service, false)
  }

  /** Over a network that drops, duplicates and reorders: whatever a call returns as a result or remote error is what
      some answer to this very call reads back as. The answer was computed at the addressed node, for the addressed
      service, on exactly this call's arguments, as what its handler returned there or as a missing-handler report; and
      it was not another call's. */
  lemma CallReturnsOwnAnswer(ids: set<NodeId>, es: seq<Event>, t: Cluster, at: NodeId, c: nat)
    returns (a: Answer, i: nat, u: Cluster)
    requires Exec(Init(ids), es) == Some(t) && FewCalls(t)
    requires at in t.nodes && c < |t.nodes[at].calls|
    requires t.nodes[at].calls[c].phase.Returned? && IsReply(t.nodes[at].calls[c].phase.ret)
    ensures ReturnedAnswer(t, at, c, a) && AnswerFrom(ids, es, a, i, u)
    ensures a.ran && es[i].e.outcome != Error("") ==> t.nodes[at].calls[c].phase.ret == Faithful(es[i].e.outcome)
  {
    EveryRun(Init(ids), es, t);
    a := AnswerOfReturned(t, at, c);
    i, u := OriginOfAnswer(ids, es, t, a);
  }

  /** In every run each answer was computed by some event, and by the handler exactly if the service was registered then. */
  lemma OriginOfAnswer(ids: set<NodeId>, es: seq<Event>, t: Cluster, a: Answer) returns (i: nat, u: Cluster)
    requires Exec(Init(ids), es) == Some(t) && a in t.answers
    ensures AnswerFrom(ids, es, a, i, u)
  {
    i, u := AnswerWasComputed(Init(ids), es, t, a);
    NodesStay(Init(ids), es[..i], u);
    HandlersAreRegistered(Init(ids), es[..i], u, a.ref.node, a.ref.service);
  }

  lemma AnswerOfReturned(t: Cluster, at: NodeId, c: nat) returns (a: Answer)
    requires Inv(t) && at in t.nodes && c < |t.nodes[at].calls|
    requires t.nodes[at].calls[c].phase.Returned? && IsReply(t.nodes[at].calls[c].phase.ret)
    ensures ReturnedAnswer(t, at, c, a)
  {
    var call := t.nodes[at].calls[c];
    assert CallOk(call, t.answers);
    a :| a in t.answers && AnswersCall(a, call) && ReadBack(EncodeOutcome(call.id, a.outcome)) == call.phase.ret;
    forall id, d | id in t.nodes && 0 <= d < |t.nodes[id].calls| && AnswersCall(a, t.nodes[id].calls[d])
      ensures id == at && d == c
    {
      IdNamesOneCall(t, id, d, at, c);
    }
  }

  /** Once a call has returned, nothing that arrives later changes what it returned. */
  lemma {:induction false} ReturnIsFinal(s: Cluster, es: seq<Event>, t: Cluster, at: NodeId, c: nat)
    requires Exec(s, es) == Some(t) && at in s.nodes && c < |s.nodes[at].calls| && s.nodes[at].calls[c].phase.Returned?
    ensures at in t.nodes && c < |t.nodes[at].calls| && t.nodes[at].calls[c].phase == s.nodes[at].calls[c].phase
    decreases |es|
  {
    if es != [] {
      var s' := Apply(s, es[0]).value;
      ReturnStays(s, es[0], s', at, c);
      ReturnIsFinal(s', es[1..], t, at, c);
    }
  }

  lemma ReturnStays(s: Cluster, e: Event, s': Cluster, at: NodeId, c: nat)
    requires Apply(s, e) == Some(s') && at in s.nodes && c < |s.nodes[at].calls| && s.nodes[at].calls[c].phase.Returned?
    ensures at in s'.nodes && c < |s'.nodes[at].calls| && s'.nodes[at].calls[c].phase == s.nodes[at].calls[c].phase
  {
    NodeCallsStay(s.nodes[e.at], e.e, s'.nodes[e.at]);
  }

  /** The id of a call that has returned is not pending. */
  lemma ReturnedIsNotPending(n: Node, c: nat)
    requires IdsOk(n) && TablesOk(n) && c < |n.calls| && n.calls[c].phase.Returned?
    ensures n.calls[c].id !in n.pending
  {
    if n.calls[c].id in n.pending { SameIdSameCall(n, n.pending[n.calls[c].id], c); }
  }

  /** In every run, a reply that comes in after its call has returned changes nothing at the node. */
  lemma LateReplyChangesNothing(ids: set<NodeId>, es: seq<Event>, t: Cluster, at: NodeId, c: nat, rep: Reply)
    requires Exec(Init(ids), es) == Some(t) && FewCalls(t)
    requires at in t.nodes && c < |t.nodes[at].calls|
    requires t.nodes[at].calls[c].phase.Returned? && rep.callId == t.nodes[at].calls[c].id
    ensures NodeStep(t.nodes[at], HandleReply(rep)) == Some(Quiet(t.nodes[at]))
  {
    assert IdsOk(t.nodes[at]) by { EveryRun(Init(ids), es, t); }
    TablesInEveryRun(ids, es, t, at);
    ReturnedIsNotPending(t.nodes[at], c);
  }

  lemma TablesInEveryRun(ids: set<NodeId>, es: seq<Event>, t: Cluster, at: NodeId)
    requires Exec(Init(ids), es) == Some(t) && at in t.nodes
    ensures TablesOk(t.nodes[at])
  {
    NodesStay(Init(ids), es, t);
    var nodes := ClusterRunIsNodeHistory(Init(ids), es, t, at);
    EveryHistoryKeepsTables(nodes, EventsAt(es, at), |nodes| - 1);
  }

  lemma {:induction false} NodesStay(s: Cluster, es: seq<Event>, t: Cluster)
    requires Exec(s, es) == Some(t)
    ensures t.nodes.Keys == s.nodes.Keys
    decreases |es|
  {
    if es != [] { NodesStay(Apply(s, es[0]).value, es[1..], t); }
  }
}
