/**
  Joining and leaving the queue of an endpoint: a doubly linked list through the
  threads themselves, by falling priority and first come first served within one.
 */
module EndpointQueue {
  import opened KernelObjects

  /** Take the first receiver off its endpoint. */
  function Dequeue(k: Kernel, ep: Ref): Kernel
    requires ep in k.eps && k.eps[ep].head in k.tcbs
    requires var next := k.tcbs[k.eps[ep].head].epNext; next != NULL ==> next in k.tcbs
  {
    var next := k.tcbs[k.eps[ep].head].epNext;
    if next != NULL then
      k.(tcbs := k.tcbs[next := k.tcbs[next].(epPrev := NULL)],
         eps := k.eps[ep := k.eps[ep].(head := next)])
    else
      k.(eps := k.eps[ep := Endpoint(Idle, NULL, NULL)])
  }

  /** Where a thread goes in a priority-ordered queue, searching from the back. */
  function InsertPos(tcbs: map<Ref, Tcb>, q: seq<Ref>, priority: int): (p: nat)
    requires forall i :: 0 <= i < |q| ==> q[i] in tcbs
    ensures p <= |q|
    ensures forall i :: p <= i < |q| ==> tcbs[q[i]].priority < priority
    ensures p > 0 ==> tcbs[q[p - 1]].priority >= priority
  {
    if q == [] || priority <= tcbs[q[|q| - 1]].priority then |q|
    else InsertPos(tcbs, q[..|q| - 1], priority)
  }

  /** The place is below entry n - 1, if that is of lower priority. */
  lemma {:induction false} PlaceBelow(tcbs: map<Ref, Tcb>, q: seq<Ref>, n: nat, priority: int)
    requires 0 < n <= |q| && (forall i :: 0 <= i < |q| ==> q[i] in tcbs) && priority > tcbs[q[n - 1]].priority
    ensures InsertPos(tcbs, q[..n], priority) == InsertPos(tcbs, q[..n - 1], priority)
  {
    assert q[..n][..n - 1] == q[..n - 1];
  }

  /** Else it is right behind it. */
  lemma {:induction false} PlaceReached(tcbs: map<Ref, Tcb>, q: seq<Ref>, n: nat, priority: int)
    requires n <= |q| && (forall i :: 0 <= i < |q| ==> q[i] in tcbs)
    requires n > 0 ==> priority <= tcbs[q[n - 1]].priority
    ensures InsertPos(tcbs, q[..n], priority) == n
  {
  }

  function InsertAt(q: seq<Ref>, p: nat, t: Ref): seq<Ref>
    requires p <= |q|
  {
    q[..p] + [t] + q[p..]
  }

  /** Entry i of the queue after t was inserted at p. */
  function Entry(q: seq<Ref>, p: nat, t: Ref, i: nat): Ref
    requires p <= |q| && i <= |q|
  {
    if i < p then q[i] else if i == p then t else q[i - 1]
  }

  lemma InsertAtEntries(q: seq<Ref>, p: nat, t: Ref)
    requires p <= |q|
    ensures |InsertAt(q, p, t)| == |q| + 1
    ensures forall i :: 0 <= i <= |q| ==> InsertAt(q, p, t)[i] == Entry(q, p, t, i)
  {
  }

  /** Link t between two neighbours, either of which may be absent. */
  function Linked(tcbs: map<Ref, Tcb>, t: Ref, before: Ref, after: Ref): map<Ref, Tcb>
    requires t in tcbs
    requires before != NULL ==> before in tcbs
    requires after != NULL ==> after in tcbs
  {
    var m := if before != NULL then tcbs[before := tcbs[before].(epNext := t)] else tcbs;
    var n := if after != NULL then m[after := m[after].(epPrev := t)] else m;
    n[t := n[t].(epNext := after, epPrev := before)]
  }

  /** Put t between `before` and `after` on the queue of ep. */
  function Enqueue(k: Kernel, ep: Ref, t: Ref, before: Ref, after: Ref): Kernel
    requires ep in k.eps && t in k.tcbs
    requires before != NULL ==> before in k.tcbs
    requires after != NULL ==> after in k.tcbs
  {
    k.(tcbs := Linked(k.tcbs, t, before, after),
       eps := k.eps[ep := Endpoint(Recv,
                                   if before == NULL then t else k.eps[ep].head,
                                   if after == NULL then t else k.eps[ep].tail)])
  }

  // ---- Endpoint queues -----------------------------------------------------

  /** The threads of q are the same in both maps. */
  predicate Agree(tcbs: map<Ref, Tcb>, tcbs': map<Ref, Tcb>, q: seq<Ref>) {
    forall i :: 0 <= i < |q| ==> q[i] in tcbs && q[i] in tcbs' && tcbs'[q[i]] == tcbs[q[i]]
  }

  /** The threads of q are the same in both maps up to their endpoint links. */
  predicate AgreeButLinks(tcbs: map<Ref, Tcb>, tcbs': map<Ref, Tcb>, q: seq<Ref>) {
    forall i :: 0 <= i < |q| ==>
      && q[i] in tcbs && q[i] in tcbs'
      && tcbs'[q[i]] == tcbs[q[i]].(epNext := tcbs'[q[i]].epNext, epPrev := tcbs'[q[i]].epPrev)
  }

  lemma OrderedFrame(tcbs: map<Ref, Tcb>, v: Shadow, tcbs': map<Ref, Tcb>, v': Shadow, q: seq<Ref>)
    requires QueueOrdered(tcbs, v, q) && AgreeButLinks(tcbs, tcbs', q) && v.clock <= v'.clock
    requires forall i :: 0 <= i < |q| ==> q[i] in v'.arrival && v'.arrival[q[i]] == v.arrival[q[i]]
    ensures QueueOrdered(tcbs', v', q)
  {
    forall i, j | 0 <= i < j < |q|
      ensures q[i] in tcbs' && q[j] in tcbs' && Ahead(tcbs', v'.arrival, q[i], q[j])
    {
      assert Ahead(tcbs, v.arrival, q[i], q[j]);
    }
  }

  /** An endpoint none of whose waiting threads changed is still in order. */
  lemma EndpointFrame(k: Kernel, v: Shadow, k': Kernel, v': Shadow, e: Ref)
    requires e in k.eps && e in v.queues && EndpointOk(k, v, e)
    requires e in k'.eps && e in v'.queues && k'.eps[e] == k.eps[e] && v'.queues[e] == v.queues[e]
    requires Agree(k.tcbs, k'.tcbs, v.queues[e]) && v.clock <= v'.clock
    requires forall i :: 0 <= i < |v.queues[e]| ==>
      v.queues[e][i] in v'.arrival && v'.arrival[v.queues[e][i]] == v.arrival[v.queues[e][i]]
    ensures EndpointOk(k', v', e)
  {
    OrderedFrame(k.tcbs, v, k'.tcbs, v', v.queues[e]);
  }

  /** A thread waiting on another endpoint, or not waiting, is on none of this queue's places. */
  lemma NotQueued(k: Kernel, v: Shadow, e: Ref, t: Ref)
    requires e in k.eps && e in v.queues && EndpointOk(k, v, e)
    requires t in k.tcbs
    requires k.tcbs[t].blockingObject != e || (k.tcbs[t].ts != BlockedOnReceive && k.tcbs[t].ts != BlockedOnSend)
    ensures t !in v.queues[e]
  {
  }

  lemma LinkedTail(tcbs: map<Ref, Tcb>, ep: Endpoint, q: seq<Ref>)
    requires QueueLinked(tcbs, ep, q) && q != [] && NULL !in tcbs
    ensures ep.head == q[0] && q[0] in tcbs && q[0] !in q[1..] && tcbs[q[0]].epNext == After(q, 1)
    ensures |q| == 1 ==> QueueLinked(tcbs, Endpoint(Idle, NULL, NULL), q[1..])
    ensures |q| > 1 ==> q[1] in tcbs && q[1] != NULL
    ensures |q| > 1 ==> QueueLinked(tcbs[q[1] := tcbs[q[1]].(epPrev := NULL)], ep.(head := q[1]), q[1..])
  {
    if |q| > 1 {
      var r, tcbs' := q[1..], tcbs[q[1] := tcbs[q[1]].(epPrev := NULL)];
      forall i | 0 <= i < |r|
        ensures r[i] in tcbs' && tcbs'[r[i]].epNext == After(r, i + 1) && tcbs'[r[i]].epPrev == Before(r, i)
      {
        assert r[i] == q[i + 1];
        assert tcbs[q[i + 1]].epNext == After(q, i + 2) && tcbs[q[i + 1]].epPrev == Before(q, i + 1);
      }
    }
  }

  lemma OrderedTail(tcbs: map<Ref, Tcb>, v: Shadow, q: seq<Ref>)
    requires QueueOrdered(tcbs, v, q) && q != []
    ensures QueueOrdered(tcbs, v, q[1..])
  {
    var r := q[1..];
    forall i, j | 0 <= i < j < |r| ensures r[i] in tcbs && r[j] in tcbs && Ahead(tcbs, v.arrival, r[i], r[j]) {
      assert Ahead(tcbs, v.arrival, q[i + 1], q[j + 1]);
    }
  }

  /** The shadow after the head of ep's queue left. */
  function Dequeued(v: Shadow, ep: Ref): Shadow
    requires ep in v.queues && v.queues[ep] != []
  {
    v.(queues := v.queues[ep := v.queues[ep][1..]])
  }

  /** The head of a receive queue and its successor, as the pointers show them. */
  predicate HeadIs(k: Kernel, ep: Ref, q: seq<Ref>)
    requires ep in k.eps
  {
    && q != [] && k.eps[ep].head == q[0] && q[0] in k.tcbs && q[0] !in q[1..]
    && k.tcbs[q[0]].ts == BlockedOnReceive && k.tcbs[q[0]].blockingObject == ep
    && k.tcbs[q[0]].epNext == After(q, 1)
    && (After(q, 1) != NULL ==> After(q, 1) in k.tcbs)
    && (|q| > 1 ==> q[1] in k.tcbs && q[1] != NULL && k.tcbs[q[1]].blockingObject == ep)
  }

  lemma HeadFacts(k: Kernel, v: Shadow, ep: Ref)
    requires NullFree(k) && ep in k.eps && ep in v.queues && EndpointOk(k, v, ep) && k.eps[ep].state == Recv
    ensures HeadIs(k, ep, v.queues[ep])
  {
    LinkedTail(k.tcbs, k.eps[ep], v.queues[ep]);
  }

  lemma DequeueLinked(k: Kernel, ep: Ref, q: seq<Ref>)
    requires NULL !in k.tcbs && ep in k.eps && QueueLinked(k.tcbs, k.eps[ep], q) && HeadIs(k, ep, q)
    ensures QueueLinked(Dequeue(k, ep).tcbs, Dequeue(k, ep).eps[ep], q[1..])
  {
    LinkedTail(k.tcbs, k.eps[ep], q);
  }

  lemma DequeueOrdered(k: Kernel, v: Shadow, ep: Ref, q: seq<Ref>)
    requires ep in k.eps && QueueOrdered(k.tcbs, v, q) && HeadIs(k, ep, q) && ep in v.queues && v.queues[ep] != []
    ensures QueueOrdered(Dequeue(k, ep).tcbs, Dequeued(v, ep), q[1..])
  {
    OrderedTail(k.tcbs, v, q);
    OrderedFrame(k.tcbs, v, Dequeue(k, ep).tcbs, Dequeued(v, ep), q[1..]);
  }

  lemma DequeueThis(k: Kernel, v: Shadow, ep: Ref)
    requires NullFree(k) && ep in k.eps && ep in v.queues && EndpointOk(k, v, ep) && k.eps[ep].state == Recv
    requires HeadIs(k, ep, v.queues[ep])
    ensures EndpointOk(Dequeue(k, ep), Dequeued(v, ep), ep)
  {
    DequeueLinked(k, ep, v.queues[ep]);
    DequeueOrdered(k, v, ep, v.queues[ep]);
  }

  lemma DequeueOther(k: Kernel, v: Shadow, ep: Ref, e: Ref)
    requires ep in k.eps && ep in v.queues && HeadIs(k, ep, v.queues[ep])
    requires e in k.eps && e in v.queues && EndpointOk(k, v, e) && e != ep
    ensures EndpointOk(Dequeue(k, ep), Dequeued(v, ep), e)
  {
    if |v.queues[ep]| > 1 {
      NotQueued(k, v, e, v.queues[ep][1]);
    }
    EndpointFrame(k, v, Dequeue(k, ep), Dequeued(v, ep), e);
  }

  lemma DequeueAt(k: Kernel, v: Shadow, ep: Ref, e: Ref)
    requires NullFree(k) && QueuesOk(k, v) && ep in k.eps && k.eps[ep].state == Recv
    requires HeadIs(k, ep, v.queues[ep]) && e in k.eps
    ensures EndpointOk(Dequeue(k, ep), Dequeued(v, ep), e)
  {
    if e == ep { DequeueThis(k, v, ep); } else { DequeueOther(k, v, ep, e); }
  }

  lemma DequeueQueuesOk(k: Kernel, v: Shadow, ep: Ref)
    requires NullFree(k) && QueuesOk(k, v) && ep in k.eps && k.eps[ep].state == Recv
    ensures HeadIs(k, ep, v.queues[ep])
    ensures QueuesOk(Dequeue(k, ep), Dequeued(v, ep))
  {
    HeadFacts(k, v, ep);
    forall e | e in k.eps ensures EndpointOk(Dequeue(k, ep), Dequeued(v, ep), e) {
      DequeueAt(k, v, ep, e);
    }
  }

  // ---- Joining a queue -----------------------------------------------------

  /** t is blocked receiving on ep but not on its queue. */
  predicate Arriving(k: Kernel, v: Shadow, ep: Ref, t: Ref) {
    && ep in k.eps && ep in v.queues
    && (forall i :: 0 <= i < |v.queues[ep]| ==> v.queues[ep][i] in k.tcbs)
    && k.eps[ep].state != Send
    && t in k.tcbs
    && k.tcbs[t].ts == BlockedOnReceive
    && k.tcbs[t].blockingObject == ep
    && t !in v.queues[ep]
  }

  /** The shadow after t joined ep's queue at position p. */
  function Enqueued(v: Shadow, ep: Ref, t: Ref, p: nat): Shadow
    requires ep in v.queues && p <= |v.queues[ep]|
  {
    v.(queues := v.queues[ep := InsertAt(v.queues[ep], p, t)],
       arrival := v.arrival[t := v.clock],
       clock := v.clock + 1)
  }

  /** The endpoint record after t was put between two neighbours. */
  function Joined(ep: Endpoint, t: Ref, before: Ref, after: Ref): Endpoint {
    Endpoint(Recv, if before == NULL then t else ep.head, if after == NULL then t else ep.tail)
  }

  /** Before and after are neighbours of position p in q. */
  predicate Between(tcbs: map<Ref, Tcb>, q: seq<Ref>, p: nat, before: Ref, after: Ref) {
    && p <= |q|
    && before == Before(q, p) && after == After(q, p)
    && (before != NULL ==> before in tcbs && before in q)
    && (after != NULL ==> after in tcbs && after in q)
    && (p > 0 ==> before != NULL)
    && (p < |q| ==> after != NULL)
  }

  lemma BetweenFacts(tcbs: map<Ref, Tcb>, q: seq<Ref>, p: nat)
    requires NULL !in tcbs && p <= |q| && forall i :: 0 <= i < |q| ==> q[i] in tcbs
    ensures Between(tcbs, q, p, Before(q, p), After(q, p))
  {
  }

  /** What linking t in does to the links of any thread. */
  lemma LinkedFields(tcbs: map<Ref, Tcb>, t: Ref, before: Ref, after: Ref, x: Ref)
    requires t in tcbs && x in tcbs && t != before && t != after && x != NULL
    requires before != NULL ==> before in tcbs
    requires after != NULL ==> after in tcbs
    ensures var y := Linked(tcbs, t, before, after)[x];
      && y == tcbs[x].(epNext := y.epNext, epPrev := y.epPrev)
      && y.epNext == (if x == t then after else if x == before then t else tcbs[x].epNext)
      && y.epPrev == (if x == t then before else if x == after then t else tcbs[x].epPrev)
  {
  }

  lemma LinkedInsert(tcbs: map<Ref, Tcb>, ep: Endpoint, q: seq<Ref>, p: nat, t: Ref, before: Ref, after: Ref)
    requires QueueLinked(tcbs, ep, q) && NULL !in tcbs && t in tcbs && t !in q
    requires Between(tcbs, q, p, before, after)
    ensures QueueLinked(Linked(tcbs, t, before, after), Joined(ep, t, before, after), InsertAt(q, p, t))
  {
    var r, tcbs' := InsertAt(q, p, t), Linked(tcbs, t, before, after);
    InsertAtEntries(q, p, t);
    forall i | 0 <= i < |r|
      ensures r[i] in tcbs' && tcbs'[r[i]].epNext == After(r, i + 1) && tcbs'[r[i]].epPrev == Before(r, i)
    {
      EntryLinks(tcbs, ep, q, p, t, before, after, i);
    }
    assert Distinct(r) by { InsertDistinct(q, p, t); }
  }

  lemma InsertDistinct(q: seq<Ref>, p: nat, t: Ref)
    requires Distinct(q) && p <= |q| && t !in q
    ensures Distinct(InsertAt(q, p, t))
  {
  }

  lemma EntryLinks(tcbs: map<Ref, Tcb>, ep: Endpoint, q: seq<Ref>, p: nat, t: Ref, before: Ref, after: Ref, i: nat)
    requires QueueLinked(tcbs, ep, q) && NULL !in tcbs && t in tcbs && t !in q
    requires Between(tcbs, q, p, before, after) && i <= |q|
    ensures var x, tcbs' := Entry(q, p, t, i), Linked(tcbs, t, before, after);
      && x in tcbs'
      && tcbs'[x].epNext == (if i == |q| then NULL else Entry(q, p, t, i + 1))
      && tcbs'[x].epPrev == (if i == 0 then NULL else Entry(q, p, t, i - 1))
  {
    var x := Entry(q, p, t, i);
    LinkedFields(tcbs, t, before, after, x);
    if i != p {
      var j := if i < p then i else i - 1;
      assert x == q[j] && tcbs[x].epNext == After(q, j + 1) && tcbs[x].epPrev == Before(q, j);
    }
  }

  lemma OrderedInsert(tcbs: map<Ref, Tcb>, v: Shadow, q: seq<Ref>, t: Ref, p: nat, v': Shadow)
    requires QueueOrdered(tcbs, v, q) && t in tcbs && t !in q
    requires p == InsertPos(tcbs, q, tcbs[t].priority)
    requires v'.arrival == v.arrival[t := v.clock] && v'.clock == v.clock + 1
    ensures QueueOrdered(tcbs, v', InsertAt(q, p, t))
  {
    var r := InsertAt(q, p, t);
    InsertAtEntries(q, p, t);
    forall i | 0 <= i < |r| ensures r[i] in tcbs && r[i] in v'.arrival && v'.arrival[r[i]] < v'.clock {
      assert r[i] == Entry(q, p, t, i);
    }
    forall i, j | 0 <= i < j < |r| ensures Ahead(tcbs, v'.arrival, r[i], r[j]) {
      EntriesAhead(tcbs, v, q, t, p, v', i, j);
    }
  }

  lemma EntriesAhead(tcbs: map<Ref, Tcb>, v: Shadow, q: seq<Ref>, t: Ref, p: nat, v': Shadow, i: nat, j: nat)
    requires QueueOrdered(tcbs, v, q) && t in tcbs && t !in q && i < j <= |q|
    requires p == InsertPos(tcbs, q, tcbs[t].priority)
    requires v'.arrival == v.arrival[t := v.clock]
    ensures var x, y := Entry(q, p, t, i), Entry(q, p, t, j);
      x in tcbs && y in tcbs && x in v'.arrival && y in v'.arrival && Ahead(tcbs, v'.arrival, x, y)
  {
    if j == p {
      assert i == p - 1 || Ahead(tcbs, v.arrival, q[i], q[p - 1]);
    } else if i != p {
      var a, b := if i < p then i else i - 1, if j < p then j else j - 1;
      assert Ahead(tcbs, v.arrival, q[a], q[b]);
    }
  }

  lemma EnqueueThis(k: Kernel, v: Shadow, ep: Ref, t: Ref, p: nat, before: Ref, after: Ref)
    requires NullFree(k) && Arriving(k, v, ep, t) && EndpointOk(k, v, ep)
    requires p == InsertPos(k.tcbs, v.queues[ep], k.tcbs[t].priority)
    requires Between(k.tcbs, v.queues[ep], p, before, after)
    ensures EndpointOk(Enqueue(k, ep, t, before, after), Enqueued(v, ep, t, p), ep)
  {
    var q, k', v' := v.queues[ep], Enqueue(k, ep, t, before, after), Enqueued(v, ep, t, p);
    var r := v'.queues[ep];
    assert QueueLinked(k'.tcbs, k'.eps[ep], r) by {
      LinkedInsert(k.tcbs, k.eps[ep], q, p, t, before, after);
    }
    LinkedAgrees(k.tcbs, q, p, t, before, after);
    assert QueueOrdered(k'.tcbs, v', r) by {
      OrderedInsert(k.tcbs, v, q, t, p, v');
      OrderedFrame(k.tcbs, v', k'.tcbs, v', r);
    }
    assert QueueBlocked(k'.tcbs, ep, Recv, r) by {
      EnqueueBlocked(k.tcbs, k'.tcbs, ep, k.eps[ep].state, q, p, t);
    }
  }

  lemma LinkedAgrees(tcbs: map<Ref, Tcb>, q: seq<Ref>, p: nat, t: Ref, before: Ref, after: Ref)
    requires NULL !in tcbs && t in tcbs && t !in q && Between(tcbs, q, p, before, after)
    requires forall i :: 0 <= i < |q| ==> q[i] in tcbs
    ensures AgreeButLinks(tcbs, Linked(tcbs, t, before, after), InsertAt(q, p, t))
  {
    var r, tcbs' := InsertAt(q, p, t), Linked(tcbs, t, before, after);
    forall i | 0 <= i < |r|
      ensures r[i] in tcbs && r[i] in tcbs'
      ensures tcbs'[r[i]] == tcbs[r[i]].(epNext := tcbs'[r[i]].epNext, epPrev := tcbs'[r[i]].epPrev)
    {
      InsertAtEntries(q, p, t);
      assert r[i] == Entry(q, p, t, i);
      LinkedFields(tcbs, t, before, after, r[i]);
    }
  }

  lemma EnqueueBlocked(tcbs: map<Ref, Tcb>, tcbs': map<Ref, Tcb>, e: Ref, state: EpState, q: seq<Ref>, p: nat, t: Ref)
    requires QueueBlocked(tcbs, e, state, q) && state != Send && p <= |q|
    requires t in tcbs && tcbs[t].ts == BlockedOnReceive && tcbs[t].blockingObject == e
    requires AgreeButLinks(tcbs, tcbs', InsertAt(q, p, t))
    ensures QueueBlocked(tcbs', e, Recv, InsertAt(q, p, t))
  {
    var r := InsertAt(q, p, t);
    forall i | 0 <= i < |r|
      ensures r[i] in tcbs' && tcbs'[r[i]].blockingObject == e && tcbs'[r[i]].ts == BlockedOnReceive
    {
      InsertAtEntries(q, p, t);
      assert r[i] == Entry(q, p, t, i);
    }
  }

  lemma EnqueueOther(k: Kernel, v: Shadow, ep: Ref, t: Ref, p: nat, before: Ref, after: Ref, e: Ref)
    requires Arriving(k, v, ep, t) && EndpointOk(k, v, ep) && Between(k.tcbs, v.queues[ep], p, before, after)
    requires e in k.eps && e in v.queues && EndpointOk(k, v, e) && e != ep
    ensures EndpointOk(Enqueue(k, ep, t, before, after), Enqueued(v, ep, t, p), e)
  {
    if before != NULL { NotQueued(k, v, e, before); }
    if after != NULL { NotQueued(k, v, e, after); }
    NotQueued(k, v, e, t);
    EndpointFrame(k, v, Enqueue(k, ep, t, before, after), Enqueued(v, ep, t, p), e);
  }

  lemma EnqueueAt(k: Kernel, v: Shadow, ep: Ref, t: Ref, p: nat, before: Ref, after: Ref, e: Ref)
    requires NullFree(k) && QueuesOk(k, v) && Arriving(k, v, ep, t) && e in k.eps
    requires p == InsertPos(k.tcbs, v.queues[ep], k.tcbs[t].priority)
    requires Between(k.tcbs, v.queues[ep], p, before, after)
    ensures EndpointOk(Enqueue(k, ep, t, before, after), Enqueued(v, ep, t, p), e)
  {
    assert EndpointOk(k, v, ep);
    if e == ep {
      EnqueueThis(k, v, ep, t, p, before, after);
    } else {
      EnqueueOther(k, v, ep, t, p, before, after, e);
    }
  }

  lemma EnqueueQueuesOk(k: Kernel, v: Shadow, ep: Ref, t: Ref, p: nat, before: Ref, after: Ref)
    requires NullFree(k) && QueuesOk(k, v) && Arriving(k, v, ep, t)
    requires p == InsertPos(k.tcbs, v.queues[ep], k.tcbs[t].priority)
    requires before == Before(v.queues[ep], p) && after == After(v.queues[ep], p)
    ensures Between(k.tcbs, v.queues[ep], p, before, after)
    ensures QueuesOk(Enqueue(k, ep, t, before, after), Enqueued(v, ep, t, p))
  {
    BetweenFacts(k.tcbs, v.queues[ep], p);
    forall e | e in k.eps ensures EndpointOk(Enqueue(k, ep, t, before, after), Enqueued(v, ep, t, p), e) {
      EnqueueAt(k, v, ep, t, p, before, after, e);
    }
  }
}
