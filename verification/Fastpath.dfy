/**
  The two IPC fastpaths as steps of a machine, and what holds in every run of
  them.  A fastpath that leaves for the slow path takes no step.
 */
module Fastpath {
  import opened Basics
  import opened KernelObjects
  import EQ = EndpointQueue
  import CS = CallStack

  datatype Event =
    | Call(ep: Ref)
    | ReplyRecv(ep: Ref, reply: Ref)

  /** The checks before the point of no return that look at the linked objects. */
  predicate Enabled(k: Kernel, e: Event) {
    && k.cur in k.tcbs
    && e.ep in k.eps
    && match e
       case Call(ep) =>
         && k.eps[ep].state == Recv
         && var dest := k.eps[ep].head;
           dest in k.tcbs && k.tcbs[dest].sc == NULL && k.tcbs[dest].replyObject != NULL
       case ReplyRecv(ep, r) =>
         && k.eps[ep].state != Send
         && r in k.replies
         && k.replies[r].tcb != NULL
         && k.replies[r].next == Link(k.tcbs[k.cur].sc, true)
  }

  // ---- Queues and call stacks do not disturb each other -----------------------

  /** Only endpoint links differ. */
  predicate SameButLinks(a: map<Ref, Tcb>, b: map<Ref, Tcb>) {
    && a.Keys == b.Keys
    && forall t :: t in a ==> b[t] == a[t].(epNext := b[t].epNext, epPrev := b[t].epPrev)
  }

  /** The part of the invariant that does not look at endpoints. */
  predicate CallInv(k: Kernel, v: Shadow) {
    var ok := NullFree(k) && CurrentRuns(k) && ContextsBound(k) && RepliesBound(k) && ChainsOk(k, v);
    ok
  }

  lemma BoundFrame(k: Kernel, k': Kernel)
    requires NullFree(k) && CurrentRuns(k) && ContextsBound(k) && RepliesBound(k)
    requires SameButLinks(k.tcbs, k'.tcbs) && k'.eps.Keys == k.eps.Keys
    requires k'.cur == k.cur && k'.replies == k.replies && k'.scs == k.scs
    ensures NullFree(k') && CurrentRuns(k') && ContextsBound(k') && RepliesBound(k')
  {
  }

  lemma ContextFrame(k: Kernel, v: Shadow, k': Kernel, v': Shadow, s: Ref)
    requires s in k.scs && s in v.chains && ContextOk(k, v, s)
    requires SameButLinks(k.tcbs, k'.tcbs) && k'.replies == k.replies && k'.scs == k.scs && v'.chains == v.chains
    ensures ContextOk(k', v', s)
  {
    assert ChainLinked(k', s, v.chains[s]);
    assert ChainWaiting(k', v.chains[s]);
  }

  lemma CallInvFrame(k: Kernel, v: Shadow, k': Kernel, v': Shadow)
    requires CallInv(k, v)
    requires SameButLinks(k.tcbs, k'.tcbs) && k'.eps.Keys == k.eps.Keys
    requires k'.cur == k.cur && k'.replies == k.replies && k'.scs == k.scs && v'.chains == v.chains
    ensures CallInv(k', v')
  {
    BoundFrame(k, k');
    forall s | s in k.scs ensures ContextOk(k', v', s) {
      assert ContextOk(k, v, s);
      ContextFrame(k, v, k', v', s);
    }
    assert ChainsOk(k', v');
  }

  /** Queues survive any change to threads that are on none of them. */
  lemma QueuesFrame(k: Kernel, v: Shadow, k': Kernel, v': Shadow, a: Ref, b: Ref)
    requires QueuesOk(k, v) && k'.eps == k.eps && v'.queues == v.queues
    requires v'.arrival == v.arrival && v'.clock == v.clock
    requires k'.tcbs.Keys == k.tcbs.Keys
    requires forall t :: t in k.tcbs && t != a && t != b ==> k'.tcbs[t] == k.tcbs[t]
    requires forall e :: e in v.queues ==> a !in v.queues[e] && b !in v.queues[e]
    ensures QueuesOk(k', v')
  {
    forall e | e in k.eps ensures EndpointOk(k', v', e) {
      assert EndpointOk(k, v, e);
      EQ.EndpointFrame(k, v, k', v', e);
    }
  }

  /** A thread that is not blocked sending or receiving is on no queue. */
  lemma OffAllQueues(k: Kernel, v: Shadow, t: Ref)
    requires QueuesOk(k, v) && t in k.tcbs && k.tcbs[t].ts != BlockedOnReceive && k.tcbs[t].ts != BlockedOnSend
    ensures forall e :: e in v.queues ==> t !in v.queues[e]
  {
    forall e | e in v.queues ensures t !in v.queues[e] {
      assert EndpointOk(k, v, e);
      EQ.NotQueued(k, v, e, t);
    }
  }

  // ---- The steps -----------------------------------------------------------

  lemma InvParts(w: World)
    ensures Inv(w) <==> CallInv(w.k, w.v) && QueuesOk(w.k, w.v)
  {
  }

  /** The receiver off its queue, ready to be called. */
  lemma DequeueStep(k: Kernel, v: Shadow, ep: Ref)
    requires CallInv(k, v) && QueuesOk(k, v) && Enabled(k, Call(ep))
    ensures EQ.HeadIs(k, ep, v.queues[ep])
    ensures var k', v' := EQ.Dequeue(k, ep), EQ.Dequeued(v, ep);
      var dest := k.eps[ep].head;
      && CallInv(k', v') && QueuesOk(k', v')
      && CS.Callable(k', dest, k.tcbs[dest].replyObject, k.tcbs[k.cur].sc)
      && k'.cur == k.cur
      && (forall e :: e in v'.queues ==> dest !in v'.queues[e])
  {
    EQ.DequeueQueuesOk(k, v, ep);
    var k', v' := EQ.Dequeue(k, ep), EQ.Dequeued(v, ep);
    CallInvFrame(k, v, k', v');
    var dest := k.eps[ep].head;
    forall e | e in v'.queues ensures dest !in v'.queues[e] {
      if e != ep {
        assert EndpointOk(k, v, e);
        EQ.NotQueued(k, v, e, dest);
      }
    }
    CallableFacts(k', v', dest);
  }

  lemma CallableFacts(k: Kernel, v: Shadow, dest: Ref)
    requires CallInv(k, v)
    requires dest in k.tcbs && k.tcbs[dest].ts == BlockedOnReceive && k.tcbs[dest].sc == NULL
    requires k.tcbs[dest].replyObject != NULL
    ensures CS.Callable(k, dest, k.tcbs[dest].replyObject, k.tcbs[k.cur].sc)
  {
    var s := k.tcbs[k.cur].sc;
    assert ContextOk(k, v, s);
    CS.NotOnChain(k, v, s, k.tcbs[dest].replyObject);
    assert ChainLinked(k, s, v.chains[s]);
  }

  /** `fastpath_call` past the point of no return. */
  ghost function CallStep(w: World, ep: Ref): World
    requires Inv(w) && Enabled(w.k, Call(ep))
  {
    InvParts(w);
    DequeueStep(w.k, w.v, ep);
    var k, v := EQ.Dequeue(w.k, ep), EQ.Dequeued(w.v, ep);
    var dest := w.k.eps[ep].head;
    var r, s := w.k.tcbs[dest].replyObject, w.k.tcbs[w.k.cur].sc;
    World(CS.HandOver(k, dest, r, s), CS.Pushed(v, s, r))
  }

  lemma HandOverInv(k: Kernel, v: Shadow, dest: Ref, r: Ref, s: Ref)
    requires CallInv(k, v) && QueuesOk(k, v) && CS.Callable(k, dest, r, s) && s in v.chains
    requires forall e :: e in v.queues ==> dest !in v.queues[e]
    ensures CallInv(CS.HandOver(k, dest, r, s), CS.Pushed(v, s, r))
    ensures QueuesOk(CS.HandOver(k, dest, r, s), CS.Pushed(v, s, r))
  {
    CS.HandOverBound(k, dest, r, s);
    CS.HandOverChains(k, v, dest, r, s);
    OffAllQueues(k, v, k.cur);
    QueuesFrame(k, v, CS.HandOver(k, dest, r, s), CS.Pushed(v, s, r), k.cur, dest);
  }

  lemma CallInvariant(w: World, ep: Ref)
    requires Inv(w) && Enabled(w.k, Call(ep))
    ensures Inv(CallStep(w, ep))
  {
    InvParts(w);
    DequeueStep(w.k, w.v, ep);
    var dest := w.k.eps[ep].head;
    HandOverInv(EQ.Dequeue(w.k, ep), EQ.Dequeued(w.v, ep), dest, w.k.tcbs[dest].replyObject, w.k.tcbs[w.k.cur].sc);
    InvParts(CallStep(w, ep));
  }

  lemma HeadReady(w: World, ep: Ref)
    requires Inv(w) && Enabled(w.k, Call(ep))
    ensures ep in w.v.queues && EQ.HeadIs(w.k, ep, w.v.queues[ep])
  {
    InvParts(w);
    DequeueStep(w.k, w.v, ep);
  }

  /** The parts of a call, for the code that performs them one after the other. */
  lemma CallParts(w: World, ep: Ref, k: Kernel, v: Shadow, dest: Ref, r: Ref, s: Ref)
    requires Inv(w) && Enabled(w.k, Call(ep)) && dest == w.k.eps[ep].head
    requires r == w.k.tcbs[dest].replyObject && s == w.k.tcbs[w.k.cur].sc
    requires EQ.HeadIs(w.k, ep, w.v.queues[ep]) && k == EQ.Dequeue(w.k, ep) && v == EQ.Dequeued(w.v, ep)
    ensures CS.Callable(k, dest, r, s) && k.cur == w.k.cur && dest != k.cur && s in v.chains
    ensures CallStep(w, ep) == World(CS.HandOver(k, dest, r, s), CS.Pushed(v, s, r))
    ensures Inv(CallStep(w, ep)) && SameObjects(w.k, CallStep(w, ep).k)
  {
    InvParts(w);
    DequeueStep(w.k, w.v, ep);
    CallInvariant(w, ep);
    CallSameObjects(w, ep);
  }

  /** The server blocked on ep but not yet queued, the caller running again. */
  lemma HandBackStep(k: Kernel, v: Shadow, ep: Ref, r: Ref)
    requires CallInv(k, v) && QueuesOk(k, v) && Enabled(k, ReplyRecv(ep, r))
    ensures CS.Replyable(k, v, r, k.tcbs[k.cur].sc)
    ensures var k', v' := CS.HandBack(k, ep, r, k.tcbs[k.cur].sc), CS.Popped(v, k.tcbs[k.cur].sc);
      CallInv(k', v') && QueuesOk(k', v') && EQ.Arriving(k', v', ep, k.cur)
  {
    var s := k.tcbs[k.cur].sc;
    CS.ReplyableFacts(k, v, r);
    CS.HandBackBound(k, v, ep, r, s);
    CS.HandBackChains(k, v, ep, r, s);
    var k', v' := CS.HandBack(k, ep, r, s), CS.Popped(v, s);
    OffAllQueues(k, v, k.cur);
    OffAllQueues(k, v, k.replies[r].tcb);
    QueuesFrame(k, v, k', v', k.cur, k.replies[r].tcb);
    assert EndpointOk(k', v', ep);
    assert EQ.Arriving(k', v', ep, k.cur);
  }

  /** t joins the queue of ep where its priority puts it. */
  ghost function Join(k: Kernel, v: Shadow, ep: Ref, t: Ref): World
    requires NullFree(k) && QueuesOk(k, v) && EQ.Arriving(k, v, ep, t)
  {
    var q := v.queues[ep];
    var p := EQ.InsertPos(k.tcbs, q, k.tcbs[t].priority);
    EQ.BetweenFacts(k.tcbs, q, p);
    World(EQ.Enqueue(k, ep, t, Before(q, p), After(q, p)), EQ.Enqueued(v, ep, t, p))
  }

  /** `fastpath_reply_recv` past the point of no return. */
  ghost function ReplyRecvStep(w: World, ep: Ref, r: Ref): World
    requires Inv(w) && Enabled(w.k, ReplyRecv(ep, r))
  {
    InvParts(w);
    HandBackStep(w.k, w.v, ep, r);
    var s := w.k.tcbs[w.k.cur].sc;
    Join(CS.HandBack(w.k, ep, r, s), CS.Popped(w.v, s), ep, w.k.cur)
  }

  /** The server can join the queue before its context is given back, as the source has it. */
  lemma BlockStep(k: Kernel, v: Shadow, ep: Ref, r: Ref)
    requires CallInv(k, v) && QueuesOk(k, v) && Enabled(k, ReplyRecv(ep, r))
    ensures CS.Replyable(k, v, r, k.tcbs[k.cur].sc)
    ensures var k', v' := CS.Block(k, ep, r), CS.Popped(v, k.tcbs[k.cur].sc);
      NullFree(k') && QueuesOk(k', v') && EQ.Arriving(k', v', ep, k.cur) && k.replies[r].tcb !in v'.queues[ep]
  {
    CS.ReplyableFacts(k, v, r);
    var k', v' := CS.Block(k, ep, r), CS.Popped(v, k.tcbs[k.cur].sc);
    OffAllQueues(k, v, k.cur);
    OffAllQueues(k, v, k.replies[r].tcb);
    QueuesFrame(k, v, k', v', k.cur, k.replies[r].tcb);
    assert EndpointOk(k', v', ep);
  }

  lemma {:induction false} InsertPosFrame(a: map<Ref, Tcb>, b: map<Ref, Tcb>, q: seq<Ref>, priority: int)
    requires forall i :: 0 <= i < |q| ==> q[i] in a && q[i] in b && a[q[i]].priority == b[q[i]].priority
    ensures EQ.InsertPos(a, q, priority) == EQ.InsertPos(b, q, priority)
    decreases |q|
  {
    if q != [] {
      InsertPosFrame(a, b, q[..|q| - 1], priority);
    }
  }

  lemma LinkThenPop(tcbs: map<Ref, Tcb>, server: Ref, caller: Ref, s: Ref, before: Ref, after: Ref)
    requires server in tcbs && caller in tcbs && server != caller
    requires before != server && before != caller && after != server && after != caller
    requires before != NULL ==> before != after
    requires (before != NULL ==> before in tcbs) && (after != NULL ==> after in tcbs)
    ensures CS.PopThreads(EQ.Linked(tcbs, server, before, after), server, caller, s)
         == EQ.Linked(CS.PopThreads(tcbs, server, caller, s), server, before, after)
  {
    var a := CS.PopThreads(EQ.Linked(tcbs, server, before, after), server, caller, s);
    var b := EQ.Linked(CS.PopThreads(tcbs, server, caller, s), server, before, after);
    assert a.Keys == b.Keys;
    assert forall x :: x in a ==> a[x] == b[x];
  }

  /** Joining the queue and giving the context back touch different fields, so either may come first. */
  lemma JoinPopCommute(k: Kernel, v: Shadow, ep: Ref, r: Ref, caller: Ref, s: Ref)
    requires NullFree(k) && QueuesOk(k, v) && EQ.Arriving(k, v, ep, k.cur)
    requires caller in k.tcbs && caller != k.cur && caller !in v.queues[ep] && r in k.replies && s in k.scs
    requires k.replies[r].prev.ptr != NULL ==> k.replies[r].prev.ptr in k.replies
    requires var h := CS.Pop(k, r, caller, s); NullFree(h) && QueuesOk(h, v) && EQ.Arriving(h, v, ep, k.cur)
    ensures var j := Join(k, v, ep, k.cur);
      && j.k == k.(tcbs := j.k.tcbs, eps := j.k.eps) && caller in j.k.tcbs && k.cur in j.k.tcbs
      && World(CS.Pop(j.k, r, caller, s), j.v) == Join(CS.Pop(k, r, caller, s), v, ep, k.cur)
  {
    var h, q, t := CS.Pop(k, r, caller, s), v.queues[ep], k.cur;
    assert EndpointOk(k, v, ep);
    assert forall i :: 0 <= i < |q| ==> q[i] in k.tcbs && h.tcbs[q[i]] == k.tcbs[q[i]];
    InsertPosFrame(k.tcbs, h.tcbs, q, k.tcbs[t].priority);
    var p := EQ.InsertPos(k.tcbs, q, k.tcbs[t].priority);
    EQ.BetweenFacts(k.tcbs, q, p);
    NeighboursDiffer(q, p);
    LinkThenPop(k.tcbs, t, caller, s, Before(q, p), After(q, p));
  }

  /** The writes in the order of the source make the same step. */
  lemma JoinThenPop(w: World, ep: Ref, r: Ref, k: Kernel, v: Shadow, s: Ref, caller: Ref)
    requires Inv(w) && Enabled(w.k, ReplyRecv(ep, r)) && s == w.k.tcbs[w.k.cur].sc && caller == w.k.replies[r].tcb
    requires CS.Replyable(w.k, w.v, r, s) && k == CS.Block(w.k, ep, r) && v == CS.Popped(w.v, s)
    ensures NullFree(k) && QueuesOk(k, v) && EQ.Arriving(k, v, ep, k.cur)
    ensures var j := Join(k, v, ep, k.cur);
      && j.k == k.(tcbs := j.k.tcbs, eps := j.k.eps) && caller in j.k.tcbs && k.cur in j.k.tcbs
      && World(CS.Pop(j.k, r, caller, s), j.v) == ReplyRecvStep(w, ep, r)
  {
    InvParts(w);
    BlockStep(w.k, w.v, ep, r);
    HandBackStep(w.k, w.v, ep, r);
    CS.HandBackHalves(w.k, ep, r, s);
    JoinPopCommute(k, v, ep, r, caller, s);
  }

  lemma NeighboursDiffer(q: seq<Ref>, p: nat)
    requires Distinct(q) && NULL !in q && p <= |q|
    ensures Before(q, p) != NULL || After(q, p) != NULL ==> Before(q, p) != After(q, p)
  {
  }

  lemma EnqueueInv(k: Kernel, v: Shadow, ep: Ref, t: Ref, p: nat, before: Ref, after: Ref)
    requires CallInv(k, v) && QueuesOk(k, v) && EQ.Arriving(k, v, ep, t)
    requires p == EQ.InsertPos(k.tcbs, v.queues[ep], k.tcbs[t].priority)
    requires before == Before(v.queues[ep], p) && after == After(v.queues[ep], p)
    ensures EQ.Between(k.tcbs, v.queues[ep], p, before, after)
    ensures CallInv(EQ.Enqueue(k, ep, t, before, after), EQ.Enqueued(v, ep, t, p))
    ensures QueuesOk(EQ.Enqueue(k, ep, t, before, after), EQ.Enqueued(v, ep, t, p))
  {
    EQ.EnqueueQueuesOk(k, v, ep, t, p, before, after);
    LinkedSame(k.tcbs, t, before, after);
    CallInvFrame(k, v, EQ.Enqueue(k, ep, t, before, after), EQ.Enqueued(v, ep, t, p));
  }

  lemma LinkedSame(tcbs: map<Ref, Tcb>, t: Ref, before: Ref, after: Ref)
    requires NULL !in tcbs && t in tcbs && t != before && t != after
    requires before != NULL ==> before in tcbs
    requires after != NULL ==> after in tcbs
    ensures SameButLinks(tcbs, EQ.Linked(tcbs, t, before, after))
  {
    var tcbs' := EQ.Linked(tcbs, t, before, after);
    forall x | x in tcbs ensures tcbs'[x] == tcbs[x].(epNext := tcbs'[x].epNext, epPrev := tcbs'[x].epPrev) {
      EQ.LinkedFields(tcbs, t, before, after, x);
    }
  }

  lemma ReplyRecvInvariant(w: World, ep: Ref, r: Ref)
    requires Inv(w) && Enabled(w.k, ReplyRecv(ep, r))
    ensures Inv(ReplyRecvStep(w, ep, r))
  {
    InvParts(w);
    HandBackStep(w.k, w.v, ep, r);
    var s, t := w.k.tcbs[w.k.cur].sc, w.k.cur;
    var k, v := CS.HandBack(w.k, ep, r, s), CS.Popped(w.v, s);
    var p := EQ.InsertPos(k.tcbs, v.queues[ep], k.tcbs[t].priority);
    EnqueueInv(k, v, ep, t, p, Before(v.queues[ep], p), After(v.queues[ep], p));
    InvParts(ReplyRecvStep(w, ep, r));
  }

  ghost function Next(w: World, e: Event): World
    requires Inv(w) && Enabled(w.k, e)
  {
    match e
    case Call(ep) => CallStep(w, ep)
    case ReplyRecv(ep, r) => ReplyRecvStep(w, ep, r)
  }

  lemma StepInvariant(w: World, e: Event)
    requires Inv(w) && Enabled(w.k, e)
    ensures Inv(Next(w, e))
  {
    match e
    case Call(ep) => CallInvariant(w, ep);
    case ReplyRecv(ep, r) => ReplyRecvInvariant(w, ep, r);
  }

  /** The same objects, and for threads the same priorities and capability spaces. */
  predicate SameObjects(a: Kernel, b: Kernel) {
    && b.tcbs.Keys == a.tcbs.Keys && b.replies.Keys == a.replies.Keys
    && b.scs.Keys == a.scs.Keys && b.eps.Keys == a.eps.Keys
    && forall t :: t in a.tcbs ==> SameTraits(a.tcbs[t], b.tcbs[t])
  }

  /** What no IPC changes about a thread. */
  predicate SameTraits(a: Tcb, b: Tcb) {
    && b.priority == a.priority && b.ctable == a.ctable && b.domain == a.domain
    && b.faulted == a.faulted && b.validVTable == a.validVTable && b.notified == a.notified
  }

  lemma HandOverSameObjects(k: Kernel, dest: Ref, r: Ref, s: Ref)
    requires CS.Callable(k, dest, r, s)
    ensures SameObjects(k, CS.HandOver(k, dest, r, s))
  {
  }

  lemma CallSameObjects(w: World, ep: Ref)
    requires Inv(w) && Enabled(w.k, Call(ep))
    ensures SameObjects(w.k, CallStep(w, ep).k)
  {
    InvParts(w);
    DequeueStep(w.k, w.v, ep);
    var k, dest := EQ.Dequeue(w.k, ep), w.k.eps[ep].head;
    assert SameObjects(w.k, k);
    HandOverSameObjects(k, dest, w.k.tcbs[dest].replyObject, w.k.tcbs[w.k.cur].sc);
  }

  lemma JoinSameObjects(k: Kernel, v: Shadow, ep: Ref, t: Ref)
    requires NullFree(k) && QueuesOk(k, v) && EQ.Arriving(k, v, ep, t)
    ensures SameObjects(k, Join(k, v, ep, t).k)
  {
    var q := v.queues[ep];
    var p := EQ.InsertPos(k.tcbs, q, k.tcbs[t].priority);
    EQ.BetweenFacts(k.tcbs, q, p);
    LinkedSame(k.tcbs, t, Before(q, p), After(q, p));
  }

  lemma HandBackSameObjects(k: Kernel, v: Shadow, ep: Ref, r: Ref, s: Ref)
    requires CS.Replyable(k, v, r, s)
    ensures SameObjects(k, CS.HandBack(k, ep, r, s))
  {
  }

  lemma ReplyRecvSameObjects(w: World, ep: Ref, r: Ref)
    requires Inv(w) && Enabled(w.k, ReplyRecv(ep, r))
    ensures SameObjects(w.k, ReplyRecvStep(w, ep, r).k)
  {
    InvParts(w);
    HandBackStep(w.k, w.v, ep, r);
    var s := w.k.tcbs[w.k.cur].sc;
    HandBackSameObjects(w.k, w.v, ep, r, s);
    JoinSameObjects(CS.HandBack(w.k, ep, r, s), CS.Popped(w.v, s), ep, w.k.cur);
  }

  // ---- The call stack as a stack ----------------------------------------------

  /** The threads waiting along a chain, most recent caller first. */
  ghost function Callers(replies: map<Ref, ReplyObj>, c: seq<Ref>): seq<Ref> {
    seq(|c|, i requires 0 <= i < |c| => if c[i] in replies then replies[c[i]].tcb else NULL)
  }

  /** The running thread on top of everyone it indirectly works for. */
  ghost function Stack(w: World): seq<Ref>
    requires Inv(w)
  {
    [w.k.cur] + Callers(w.k.replies, w.v.chains[Context(w)])
  }

  /** The scheduling context of the running thread. */
  function Context(w: World): Ref
    requires Inv(w)
  {
    w.k.tcbs[w.k.cur].sc
  }

  lemma CallersFrame(replies: map<Ref, ReplyObj>, replies': map<Ref, ReplyObj>, c: seq<Ref>)
    requires forall i :: 0 <= i < |c| ==> c[i] in replies && c[i] in replies' && replies'[c[i]].tcb == replies[c[i]].tcb
    ensures Callers(replies', c) == Callers(replies, c)
  {
  }

  lemma HandOverStack(k: Kernel, v: Shadow, dest: Ref, r: Ref, s: Ref, c: seq<Ref>)
    requires NullFree(k) && CS.Callable(k, dest, r, s) && ChainLinked(k, s, c) && r !in c
    ensures Callers(CS.HandOver(k, dest, r, s).replies, [r] + c) == [k.cur] + Callers(k.replies, c)
  {
    var k' := CS.HandOver(k, dest, r, s);
    CallersFrame(k.replies, k'.replies, c);
    assert Callers(k'.replies, [r] + c) == [k'.replies[r].tcb] + Callers(k'.replies, c);
  }

  /** A call pushes: the receiver runs on top of everyone who was there, on the same context. */
  lemma CallPushes(w: World, ep: Ref)
    requires Inv(w) && Enabled(w.k, Call(ep))
    ensures Inv(CallStep(w, ep))
    ensures Context(CallStep(w, ep)) == Context(w)
    ensures Stack(CallStep(w, ep)) == [w.k.eps[ep].head] + Stack(w)
    ensures forall x :: x in w.v.chains && x != Context(w) ==> CallStep(w, ep).v.chains[x] == w.v.chains[x]
  {
    CallInvariant(w, ep);
    InvParts(w);
    DequeueStep(w.k, w.v, ep);
    var k, v := EQ.Dequeue(w.k, ep), EQ.Dequeued(w.v, ep);
    var dest := w.k.eps[ep].head;
    var r, s := w.k.tcbs[dest].replyObject, Context(w);
    assert ContextOk(k, v, s);
    CS.NotOnChain(k, v, s, r);
    HandOverStack(k, v, dest, r, s, v.chains[s]);
  }

  lemma OthersKeepCaller(k: Kernel, ep: Ref, r: Ref, s: Ref)
    requires k.cur in k.tcbs && r in k.replies && k.replies[r].tcb in k.tcbs && s in k.scs
    requires k.replies[r].prev.ptr != NULL ==> k.replies[r].prev.ptr in k.replies
    ensures var after := CS.HandBack(k, ep, r, s).replies;
      forall x :: x in k.replies && x != r ==> x in after && after[x].tcb == k.replies[x].tcb
  {
  }

  /** The top of a chain does not occur below. */
  lemma ChainBelow(k: Kernel, s: Ref, c: seq<Ref>)
    requires s in k.scs && ChainLinked(k, s, c) && c != []
    ensures forall i :: 0 <= i < |c[1..]| ==> c[1..][i] in k.replies && c[1..][i] != c[0]
  {
  }

  lemma PoppedCallers(replies: map<Ref, ReplyObj>, replies': map<Ref, ReplyObj>, c: seq<Ref>)
    requires c != [] && forall i :: 0 <= i < |c| ==> c[i] in replies
    requires forall i :: 0 <= i < |c[1..]| ==>
      c[1..][i] in replies && c[1..][i] in replies' && replies'[c[1..][i]].tcb == replies[c[1..][i]].tcb
    ensures [replies[c[0]].tcb] + Callers(replies', c[1..]) == Callers(replies, c)
  {
    CallersFrame(replies, replies', c[1..]);
  }

  lemma HandBackStack(k: Kernel, v: Shadow, ep: Ref, r: Ref, s: Ref)
    requires NullFree(k) && CS.Replyable(k, v, r, s) && ChainLinked(k, s, v.chains[s])
    ensures [k.replies[r].tcb] + Callers(CS.HandBack(k, ep, r, s).replies, v.chains[s][1..])
         == Callers(k.replies, v.chains[s])
  {
    var c, k' := v.chains[s], CS.HandBack(k, ep, r, s);
    OthersKeepCaller(k, ep, r, s);
    ChainBelow(k, s, c);
    PoppedCallers(k.replies, k'.replies, c);
  }

  /** A reply pops: the most recent unreplied caller runs again, on the same context. */
  lemma ReplyPops(w: World, ep: Ref, r: Ref)
    requires Inv(w) && Enabled(w.k, ReplyRecv(ep, r))
    ensures Inv(ReplyRecvStep(w, ep, r))
    ensures Context(ReplyRecvStep(w, ep, r)) == Context(w)
    ensures |Stack(w)| > 1
    ensures Stack(ReplyRecvStep(w, ep, r)) == Stack(w)[1..]
    ensures forall x :: x in w.v.chains && x != Context(w) ==> ReplyRecvStep(w, ep, r).v.chains[x] == w.v.chains[x]
  {
    ReplyRecvInvariant(w, ep, r);
    InvParts(w);
    HandBackStep(w.k, w.v, ep, r);
    var s, t := Context(w), w.k.cur;
    assert ContextOk(w.k, w.v, s);
    HandBackStack(w.k, w.v, ep, r, s);
    var k, v := CS.HandBack(w.k, ep, r, s), CS.Popped(w.v, s);
    var p := EQ.InsertPos(k.tcbs, v.queues[ep], k.tcbs[t].priority);
    EnqueueInv(k, v, ep, t, p, Before(v.queues[ep], p), After(v.queues[ep], p));
    EQ.LinkedFields(k.tcbs, t, Before(v.queues[ep], p), After(v.queues[ep], p), k.cur);
  }

  /** Both steps in terms of the stack alone. */
  lemma StackStep(w: World, e: Event)
    requires Inv(w) && Enabled(w.k, e)
    ensures Inv(Next(w, e)) && Context(Next(w, e)) == Context(w)
    ensures e.Call? ==> Stack(Next(w, e)) == [w.k.eps[e.ep].head] + Stack(w)
    ensures e.ReplyRecv? ==> |Stack(w)| > 1 && Stack(Next(w, e)) == Stack(w)[1..]
    ensures Next(w, e).v.chains.Keys == w.v.chains.Keys
    ensures forall x :: x in w.v.chains && x != Context(w) ==> Next(w, e).v.chains[x] == w.v.chains[x]
  {
    match e
    case Call(ep) => CallPushes(w, ep);
    case ReplyRecv(ep, r) => ReplyPops(w, ep, r);
  }

  // ---- Runs -------------------------------------------------------------------

  datatype History = Start | Then(past: History, last: Event)

  /** Every run of fastpath calls and replies from a well-linked kernel stays well linked. */
  ghost function Run(w: World, h: History): (r: Option<World>)
    requires Inv(w)
    ensures r.Some? ==> Inv(r.value)
    decreases h
  {
    match h
    case Start => Some(w)
    case Then(past, e) =>
      var before := Run(w, past);
      if before.Some? && Enabled(before.value.k, e) then
        StepInvariant(before.value, e);
        Some(Next(before.value, e))
      else None
  }

  /** Calls made and not yet replied to. */
  function Depth(h: History): int {
    match h
    case Start => 0
    case Then(past, e) => Depth(past) + (if e.Call? then 1 else -1)
  }

  /** No reply in the run answers a call made before it. */
  predicate Nested(h: History) {
    match h
    case Start => true
    case Then(past, e) => Nested(past) && Depth(h) >= 0
  }

  /**
    Through any run the running thread has the same context, its chain grows by
    one per call and shrinks by one per reply, and no other chain changes.
   */
  lemma {:induction false} RunKeepsContext(w: World, h: History, t: World)
    requires Inv(w) && Run(w, h) == Some(t)
    ensures Context(t) == Context(w)
    ensures |Stack(t)| == |Stack(w)| + Depth(h)
    ensures t.v.chains.Keys == w.v.chains.Keys
    ensures forall x :: x in w.v.chains && x != Context(w) ==> t.v.chains[x] == w.v.chains[x]
    decreases h
  {
    if h.Then? {
      var p := Run(w, h.past).value;
      RunKeepsContext(w, h.past, p);
      StackStep(p, h.last);
    }
  }

  /** Stack a is stack b with d more entries on top. */
  predicate OnTopOf(a: seq<Ref>, b: seq<Ref>, d: int) {
    var ok := 0 <= d <= |a| && a[d..] == b;
    ok
  }

  lemma PushOnTop(a: seq<Ref>, b: seq<Ref>, d: int, x: Ref)
    requires OnTopOf(a, b, d)
    ensures OnTopOf([x] + a, b, d + 1)
  {
    assert ([x] + a)[d + 1..] == a[d..];
  }

  lemma PopOnTop(a: seq<Ref>, b: seq<Ref>, d: int)
    requires OnTopOf(a, b, d) && d > 0
    ensures OnTopOf(a[1..], b, d - 1)
  {
    assert a[1..][d - 1..] == a[d..];
  }

  lemma OnTopStep(w: World, e: Event, b: seq<Ref>, d: int)
    requires Inv(w) && Enabled(w.k, e) && OnTopOf(Stack(w), b, d) && (e.ReplyRecv? ==> d > 0)
    ensures Inv(Next(w, e)) && OnTopOf(Stack(Next(w, e)), b, d + (if e.Call? then 1 else -1))
  {
    StackStep(w, e);
    if e.Call? {
      PushOnTop(Stack(w), b, d, w.k.eps[e.ep].head);
    } else {
      PopOnTop(Stack(w), b, d);
    }
  }

  lemma LastStep(w: World, h: History, t: World) returns (p: World)
    requires Inv(w) && h.Then? && Run(w, h) == Some(t)
    ensures Run(w, h.past) == Some(p) && Inv(p) && Enabled(p.k, h.last) && t == Next(p, h.last)
  {
    p := Run(w, h.past).value;
  }

  lemma {:induction false} NestedRunOnTop(w: World, h: History, t: World)
    requires Inv(w) && Run(w, h) == Some(t) && Nested(h)
    ensures Inv(t) && OnTopOf(Stack(t), Stack(w), Depth(h))
    decreases h
  {
    if h.Then? {
      var p := LastStep(w, h, t);
      NestedRunOnTop(w, h.past, p);
      OnTopStep(p, h.last, Stack(w), Depth(h.past));
    }
  }

  lemma SameTop(w: World, t: World, d: int)
    requires Inv(w) && Inv(t) && OnTopOf(Stack(t), Stack(w), d)
    ensures d == 0 ==> Stack(t) == Stack(w) && t.k.cur == w.k.cur
  {
    if d == 0 {
      assert Stack(t)[0..] == Stack(t);
      assert Stack(t)[0] == t.k.cur && Stack(w)[0] == w.k.cur;
    }
  }

  /**
    Every reply resumes the most recent unreplied caller: a run whose replies all
    answer calls of its own leaves the original stack of callers at the bottom,
    and when all its calls are answered the original thread runs again.
   */
  lemma NestedRunRestoresStack(w: World, h: History, t: World)
    requires Inv(w) && Run(w, h) == Some(t) && Nested(h)
    ensures OnTopOf(Stack(t), Stack(w), Depth(h))
    ensures Depth(h) == 0 ==> Stack(t) == Stack(w) && t.k.cur == w.k.cur
  {
    NestedRunOnTop(w, h, t);
    SameTop(w, t, Depth(h));
  }

  // ---- The shadow adds nothing -------------------------------------------------

  /** c is a walk along `next` to the null pointer. */
  predicate Walk(next: map<Ref, Ref>, c: seq<Ref>) {
    forall i :: 0 <= i < |c| ==> c[i] != NULL && c[i] in next && next[c[i]] == After(c, i + 1)
  }

  lemma {:induction false} WalkUnique(next: map<Ref, Ref>, c: seq<Ref>, d: seq<Ref>)
    requires Walk(next, c) && Walk(next, d) && After(c, 0) == After(d, 0)
    ensures c == d
  {
    assert (c != [] ==> c[0] != NULL) && (d != [] ==> d[0] != NULL);
    if c != [] {
      WalkTail(next, c);
      WalkTail(next, d);
      WalkUnique(next, c[1..], d[1..]);
      assert c == [c[0]] + c[1..] && d == [d[0]] + d[1..];
    }
  }

  lemma WalkTail(next: map<Ref, Ref>, c: seq<Ref>)
    requires Walk(next, c) && c != []
    ensures Walk(next, c[1..]) && After(c[1..], 0) == next[c[0]]
  {
    var t := c[1..];
    forall i | 0 <= i < |t| ensures t[i] != NULL && t[i] in next && next[t[i]] == After(t, i + 1) {
      assert t[i] == c[i + 1] && After(t, i + 1) == After(c, i + 2);
    }
  }

  /** The chain of a context is determined by its pointers. */
  lemma ChainUnique(k: Kernel, s: Ref, c: seq<Ref>, d: seq<Ref>)
    requires NullFree(k) && s in k.scs && ChainLinked(k, s, c) && ChainLinked(k, s, d)
    ensures c == d
  {
    WalkUnique(map r | r in k.replies :: k.replies[r].prev.ptr, c, d);
  }

  /** The queue of an endpoint is determined by its pointers. */
  lemma QueueUnique(tcbs: map<Ref, Tcb>, ep: Endpoint, q: seq<Ref>, r: seq<Ref>)
    requires NULL !in tcbs && QueueLinked(tcbs, ep, q) && QueueLinked(tcbs, ep, r)
    ensures q == r
  {
    WalkUnique(map t | t in tcbs :: tcbs[t].epNext, q, r);
  }
}
