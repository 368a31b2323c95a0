/**
  The kernel objects that the IPC fastpaths of the mixed-criticality kernel link
  together, on one core, and the invariant that makes sense of the links.

  Objects live in an explicit heap: a pointer is a number, the null pointer is 0,
  and each kind of object has a map from pointer to contents.  `Shadow` adds what
  the linked objects mean: the reply chain hanging off each scheduling context
  and the queue of each endpoint.
 */
module KernelObjects {
  import opened CSpace

  type Ref = int

  const NULL: Ref := 0

  datatype ThreadState = Running | BlockedOnReceive | BlockedOnSend | BlockedOnReply | Inactive

  datatype Tcb = Tcb(
    ts: ThreadState,
    blockingObject: Ref,
    replyObject: Ref,
    sc: Ref,
    priority: int,
    epNext: Ref,
    epPrev: Ref,
    ctable: Cap,
    domain: int,
    faulted: bool,
    validVTable: bool,
    notified: bool)

  /** A link of the call stack: to a reply object, or, marked head, to the scheduling context. */
  datatype Link = Link(ptr: Ref, isHead: bool)

  datatype ReplyObj = ReplyObj(tcb: Ref, prev: Link, next: Link)

  datatype SchedContext = SchedContext(tcb: Ref, reply: Ref)

  datatype EpState = Idle | Send | Recv

  datatype Endpoint = Endpoint(state: EpState, head: Ref, tail: Ref)

  datatype Kernel = Kernel(
    cur: Ref,
    tcbs: map<Ref, Tcb>,
    replies: map<Ref, ReplyObj>,
    scs: map<Ref, SchedContext>,
    eps: map<Ref, Endpoint>)

  /** Chains run from the most recent call downwards; `arrival` stamps when a thread last joined an endpoint. */
  datatype Shadow = Shadow(
    chains: map<Ref, seq<Ref>>,
    queues: map<Ref, seq<Ref>>,
    arrival: map<Ref, int>,
    clock: int)

  datatype World = World(k: Kernel, v: Shadow)

  // ---- The invariant -----------------------------------------------------

  predicate Distinct(s: seq<Ref>) {
    forall i, j :: 0 <= i < j < |s| ==> s[i] != s[j]
  }

  /** The neighbours of position p in q; NULL beyond either end. */
  function Before(q: seq<Ref>, p: nat): Ref
    requires p <= |q|
  {
    if p == 0 then NULL else q[p - 1]
  }

  function After(q: seq<Ref>, p: nat): Ref
    requires p <= |q|
  {
    if p == |q| then NULL else q[p]
  }

  /** The upward link of entry i in a chain that hangs off context s. */
  function UpLink(s: Ref, c: seq<Ref>, i: nat): Link
    requires i < |c|
  {
    if i == 0 then Link(s, true) else Link(c[i - 1], false)
  }

  /** A null pointer never addresses an object. */
  predicate NullFree(k: Kernel) {
    NULL !in k.tcbs && NULL !in k.replies && NULL !in k.scs && NULL !in k.eps
  }

  /** `scTcb` and `tcbSchedContext` are mutually inverse. */
  predicate ContextsBound(k: Kernel) {
    && (forall s :: s in k.scs && k.scs[s].tcb != NULL ==>
          k.scs[s].tcb in k.tcbs && k.tcbs[k.scs[s].tcb].sc == s)
    && (forall t :: t in k.tcbs && k.tcbs[t].sc != NULL ==>
          k.tcbs[t].sc in k.scs && k.scs[k.tcbs[t].sc].tcb == t)
  }

  /** Reply objects and the threads that use them name each other. */
  predicate RepliesBound(k: Kernel) {
    && (forall r :: r in k.replies && k.replies[r].tcb != NULL ==>
          k.replies[r].tcb in k.tcbs && k.tcbs[k.replies[r].tcb].replyObject == r)
    && (forall t :: t in k.tcbs && k.tcbs[t].replyObject != NULL ==>
          && k.tcbs[t].replyObject in k.replies
          && k.replies[k.tcbs[t].replyObject].tcb == t
          && (k.tcbs[t].ts == BlockedOnReceive || k.tcbs[t].ts == BlockedOnReply))
  }

  /** The current thread runs on a scheduling context. */
  predicate CurrentRuns(k: Kernel) {
    && k.cur in k.tcbs
    && k.tcbs[k.cur].ts == Running
    && k.tcbs[k.cur].sc != NULL
  }

  /** `c` is the reply chain of context s: doubly linked, only the top marked head. */
  predicate ChainLinked(k: Kernel, s: Ref, c: seq<Ref>)
    requires s in k.scs
  {
    && Distinct(c)
    && k.scs[s].reply == After(c, 0)
    && (forall i :: 0 <= i < |c| ==> c[i] in k.replies)
    && (forall i :: 0 <= i < |c| ==>
          k.replies[c[i]].prev == Link(After(c, i + 1), false))
    && (forall i :: 0 <= i < |c| ==>
          k.replies[c[i]].next == UpLink(s, c, i))
  }

  /** Every reply on a chain belongs to a thread that waits for it and has no context of its own. */
  predicate ChainWaiting(k: Kernel, c: seq<Ref>) {
    forall i :: 0 <= i < |c| ==>
      && c[i] in k.replies
      && k.replies[c[i]].tcb in k.tcbs
      && k.tcbs[k.replies[c[i]].tcb].ts == BlockedOnReply
      && k.tcbs[k.replies[c[i]].tcb].replyObject == c[i]
      && k.tcbs[k.replies[c[i]].tcb].sc == NULL
  }

  predicate Disjoint(c: seq<Ref>, d: seq<Ref>) {
    forall r :: r in c ==> r !in d
  }

  predicate ContextOk(k: Kernel, v: Shadow, s: Ref)
    requires s in k.scs && s in v.chains
  {
    var ok := ChainLinked(k, s, v.chains[s]) && ChainWaiting(k, v.chains[s]);
    ok
  }

  /** A reply marked head is the top of the chain it points to. */
  predicate HeadsOnTop(k: Kernel) {
    forall r :: r in k.replies && k.replies[r].next.isHead ==>
      k.replies[r].next.ptr in k.scs && k.scs[k.replies[r].next.ptr].reply == r
  }

  predicate ChainsOk(k: Kernel, v: Shadow) {
    && v.chains.Keys == k.scs.Keys
    && (forall s {:trigger ContextOk(k, v, s)} :: s in k.scs ==> ContextOk(k, v, s))
    && HeadsOnTop(k)
    && (forall s, t :: s in k.scs && t in k.scs && s != t ==> Disjoint(v.chains[s], v.chains[t]))
  }

  /** `q` is the doubly linked queue of endpoint e. */
  predicate QueueLinked(tcbs: map<Ref, Tcb>, ep: Endpoint, q: seq<Ref>) {
    && Distinct(q)
    && ep.head == After(q, 0)
    && ep.tail == Before(q, |q|)
    && (forall i :: 0 <= i < |q| ==> q[i] in tcbs)
    && (forall i :: 0 <= i < |q| ==> tcbs[q[i]].epNext == After(q, i + 1))
    && (forall i :: 0 <= i < |q| ==> tcbs[q[i]].epPrev == Before(q, i))
  }

  /** Higher priority first; among equals, earlier arrival first. */
  predicate Ahead(tcbs: map<Ref, Tcb>, arrival: map<Ref, int>, a: Ref, b: Ref)
    requires a in tcbs && b in tcbs && a in arrival && b in arrival
  {
    tcbs[a].priority > tcbs[b].priority || (tcbs[a].priority == tcbs[b].priority && arrival[a] < arrival[b])
  }

  predicate QueueOrdered(tcbs: map<Ref, Tcb>, v: Shadow, q: seq<Ref>) {
    && (forall i :: 0 <= i < |q| ==> q[i] in tcbs && q[i] in v.arrival && v.arrival[q[i]] < v.clock)
    && (forall i, j :: 0 <= i < j < |q| ==> Ahead(tcbs, v.arrival, q[i], q[j]))
  }

  /** Everyone in the queue is blocked on this endpoint in the direction of its state. */
  predicate QueueBlocked(tcbs: map<Ref, Tcb>, e: Ref, state: EpState, q: seq<Ref>) {
    && (state == Idle <==> q == [])
    && (forall i :: 0 <= i < |q| ==>
          && q[i] in tcbs
          && tcbs[q[i]].blockingObject == e
          && tcbs[q[i]].ts == if state == Send then BlockedOnSend else BlockedOnReceive)
  }

  predicate EndpointOk(k: Kernel, v: Shadow, e: Ref)
    requires e in k.eps && e in v.queues
  {
    var ok :=
      && QueueLinked(k.tcbs, k.eps[e], v.queues[e])
      && QueueOrdered(k.tcbs, v, v.queues[e])
      && QueueBlocked(k.tcbs, e, k.eps[e].state, v.queues[e]);
    ok
  }

  predicate QueuesOk(k: Kernel, v: Shadow) {
    && v.queues.Keys == k.eps.Keys
    && (forall e {:trigger EndpointOk(k, v, e)} :: e in k.eps ==> EndpointOk(k, v, e))
  }

  predicate Inv(w: World) {
    var ok :=
      && NullFree(w.k)
      && CurrentRuns(w.k)
      && ContextsBound(w.k)
      && RepliesBound(w.k)
      && ChainsOk(w.k, w.v)
      && QueuesOk(w.k, w.v);
    ok
  }
}
