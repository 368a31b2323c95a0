/** What a fastpath achieves, thread by thread, whatever the writes that bring it about. */
module Outcomes {
  import opened KernelObjects
  import opened Fastpath
  import EQ = EndpointQueue
  import CS = CallStack

  /** All threads but a and b are as they were, up to their places in queues. */
  predicate OthersSame(k: Kernel, k': Kernel, a: Ref, b: Ref) {
    && k'.tcbs.Keys == k.tcbs.Keys
    && forall t :: t in k.tcbs && t != a && t != b ==>
         k'.tcbs[t] == k.tcbs[t].(epNext := k'.tcbs[t].epNext, epPrev := k'.tcbs[t].epPrev)
  }

  /** t goes before all others that wait: no one is of higher priority, and of its own no one came earlier. */
  predicate FirstOf(tcbs: map<Ref, Tcb>, arrival: map<Ref, int>, q: seq<Ref>, t: Ref) {
    && t in q && t in tcbs && t in arrival
    && forall u :: u in q && u != t ==>
         && u in tcbs && u in arrival
         && (tcbs[u].priority < tcbs[t].priority
             || (tcbs[u].priority == tcbs[t].priority && arrival[t] < arrival[u]))
  }

  lemma FrontIsFirst(k: Kernel, v: Shadow, ep: Ref)
    requires ep in k.eps && ep in v.queues && EndpointOk(k, v, ep) && v.queues[ep] != []
    ensures FirstOf(k.tcbs, v.arrival, v.queues[ep], v.queues[ep][0])
  {
    var q := v.queues[ep];
    assert QueueOrdered(k.tcbs, v, q);
    forall u | u in q && u != q[0]
      ensures u in k.tcbs && u in v.arrival && Ahead(k.tcbs, v.arrival, q[0], u)
    {
      var i :| 0 <= i < |q| && q[i] == u;
      assert Ahead(k.tcbs, v.arrival, q[0], q[i]);
    }
  }

  /**
    A call runs the thread that waits first at the endpoint, on the caller's scheduling
    context, while the caller waits with the reply object the receiver brought.  The
    receiver is out of its queue, and all other queues and threads are as they were.
   */
  lemma CallOutcome(w: World, ep: Ref)
    requires Inv(w) && Enabled(w.k, Call(ep))
    ensures var k, k', v := w.k, CallStep(w, ep).k, w.v;
      && ep in v.queues && FirstOf(k.tcbs, v.arrival, v.queues[ep], k'.cur) && k'.cur != k.cur
      && OthersSame(k, k', k.cur, k'.cur)
      && k'.tcbs[k'.cur].ts == Running && k'.tcbs[k'.cur].sc == k.tcbs[k.cur].sc
      && k'.tcbs[k'.cur].replyObject == NULL
      && k'.tcbs[k.cur].ts == BlockedOnReply && k'.tcbs[k.cur].sc == NULL
      && k'.tcbs[k.cur].replyObject == k.tcbs[k'.cur].replyObject
    ensures var q := w.v.queues[ep];
      q != [] && CallStep(w, ep).k.cur == q[0] && CallStep(w, ep).v.queues == w.v.queues[ep := q[1..]]
    ensures SameObjects(w.k, CallStep(w, ep).k)
  {
    InvParts(w);
    DequeueStep(w.k, w.v, ep);
    CallSameObjects(w, ep);
    assert EndpointOk(w.k, w.v, ep);
    FrontIsFirst(w.k, w.v, ep);
  }

  /** q' is q with t put where its priority puts it: behind all of its priority or higher, ahead of all others. */
  predicate PutInto(tcbs: map<Ref, Tcb>, q: seq<Ref>, t: Ref, q': seq<Ref>) {
    exists p :: 0 <= p <= |q| && PutAt(tcbs, q, t, q', p)
  }

  predicate PutAt(tcbs: map<Ref, Tcb>, q: seq<Ref>, t: Ref, q': seq<Ref>, p: nat)
    requires p <= |q|
  {
    && t in tcbs && q' == q[..p] + [t] + q[p..]
    && (forall i :: 0 <= i < p ==> q[i] in tcbs && tcbs[q[i]].priority >= tcbs[t].priority)
    && (forall i :: p <= i < |q| ==> q[i] in tcbs && tcbs[q[i]].priority < tcbs[t].priority)
  }

  lemma InsertedPut(tcbs: map<Ref, Tcb>, v: Shadow, q: seq<Ref>, t: Ref)
    requires t in tcbs && QueueOrdered(tcbs, v, q)
    ensures PutInto(tcbs, q, t, EQ.InsertAt(q, EQ.InsertPos(tcbs, q, tcbs[t].priority), t))
  {
    var p := EQ.InsertPos(tcbs, q, tcbs[t].priority);
    forall i | 0 <= i < p ensures tcbs[q[i]].priority >= tcbs[t].priority {
      if i < p - 1 { assert Ahead(tcbs, v.arrival, q[i], q[p - 1]); }
    }
    assert PutAt(tcbs, q, t, EQ.InsertAt(q, p, t), p);
  }

  /** The context and the reply object back: the caller runs, and the server is blocked. */
  predicate HandedBack(k: Kernel, k': Kernel, ep: Ref, r: Ref) {
    && k.cur in k.tcbs && r in k.replies && k'.cur == k.replies[r].tcb && k'.cur != k.cur
    && OthersSame(k, k', k.cur, k'.cur) && k'.cur in k'.tcbs
    && k'.tcbs[k'.cur].ts == Running && k'.tcbs[k'.cur].sc == k.tcbs[k.cur].sc
    && k'.tcbs[k'.cur].replyObject == NULL
    && k'.tcbs[k.cur].ts == BlockedOnReceive && k'.tcbs[k.cur].blockingObject == ep
    && k'.tcbs[k.cur].sc == NULL && k'.tcbs[k.cur].replyObject == r
  }

  lemma HandBackHands(k: Kernel, v: Shadow, ep: Ref, r: Ref, s: Ref)
    requires CS.Replyable(k, v, r, s) && k.replies[r].tcb != k.cur
    ensures HandedBack(k, CS.HandBack(k, ep, r, s), ep, r)
  {
  }

  /** Joining a queue changes links only. */
  lemma JoinLinks(k: Kernel, v: Shadow, ep: Ref, t: Ref)
    requires NullFree(k) && QueuesOk(k, v) && EQ.Arriving(k, v, ep, t)
    ensures SameButLinks(k.tcbs, Join(k, v, ep, t).k.tcbs) && Join(k, v, ep, t).k.cur == k.cur
  {
    var q := v.queues[ep];
    var p := EQ.InsertPos(k.tcbs, q, k.tcbs[t].priority);
    EQ.BetweenFacts(k.tcbs, q, p);
    LinksOnly(k.tcbs, t, Before(q, p), After(q, p));
  }

  lemma LinksOnly(tcbs: map<Ref, Tcb>, t: Ref, before: Ref, after: Ref)
    requires t in tcbs && (before != NULL ==> before in tcbs) && (after != NULL ==> after in tcbs)
    ensures SameButLinks(tcbs, EQ.Linked(tcbs, t, before, after))
  {
  }

  lemma StillHandedBack(k: Kernel, a: Kernel, b: Kernel, ep: Ref, r: Ref)
    requires HandedBack(k, a, ep, r) && SameButLinks(a.tcbs, b.tcbs) && b.cur == a.cur
    ensures HandedBack(k, b, ep, r)
  {
  }

  /**
    A reply runs the thread that waits with the reply object, on the server's scheduling
    context, while the server waits at the endpoint with that reply object, in the place
    its priority gives it.  All other queues and threads are as they were.
   */
  lemma ReplyOutcome(w: World, ep: Ref, r: Ref)
    requires Inv(w) && Enabled(w.k, ReplyRecv(ep, r))
    ensures HandedBack(w.k, ReplyRecvStep(w, ep, r).k, ep, r)
    ensures var v, v' := w.v, ReplyRecvStep(w, ep, r).v;
      && ep in v.queues && ep in v'.queues && v'.queues == v.queues[ep := v'.queues[ep]]
      && PutInto(w.k.tcbs, v.queues[ep], w.k.cur, v'.queues[ep])
    ensures SameObjects(w.k, ReplyRecvStep(w, ep, r).k)
  {
    InvParts(w);
    HandBackStep(w.k, w.v, ep, r);
    ReplyRecvSameObjects(w, ep, r);
    var s := w.k.tcbs[w.k.cur].sc;
    var h, u := CS.HandBack(w.k, ep, r, s), CS.Popped(w.v, s);
    CS.ReplyableFacts(w.k, w.v, r);
    HandBackHands(w.k, w.v, ep, r, s);
    JoinLinks(h, u, ep, w.k.cur);
    StillHandedBack(w.k, h, Join(h, u, ep, w.k.cur).k, ep, r);
    JoinPlace(w.k, w.v, h, u, ep, w.k.cur);
  }

  lemma JoinPlace(k: Kernel, v: Shadow, h: Kernel, u: Shadow, ep: Ref, t: Ref)
    requires ep in k.eps && ep in v.queues && EndpointOk(k, v, ep) && u.queues == v.queues && t in k.tcbs
    requires NullFree(h) && QueuesOk(h, u) && EQ.Arriving(h, u, ep, t)
    requires h.tcbs.Keys == k.tcbs.Keys && forall x :: x in k.tcbs ==> h.tcbs[x].priority == k.tcbs[x].priority
    ensures PutInto(k.tcbs, v.queues[ep], t, Join(h, u, ep, t).v.queues[ep])
    ensures Join(h, u, ep, t).v.queues == v.queues[ep := Join(h, u, ep, t).v.queues[ep]]
  {
    var q := v.queues[ep];
    assert QueueOrdered(k.tcbs, v, q);
    InsertedPut(k.tcbs, v, q, t);
    InsertPosFrame(k.tcbs, h.tcbs, q, k.tcbs[t].priority);
  }
}
