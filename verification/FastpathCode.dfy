/**
  The fastpaths as the kernel runs them: checks in order, any of which leaves for
  the slow path with nothing changed, then one field write after another.
 */
module FastpathCode {
  import opened Basics
  import opened Bits
  import opened CSpace
  import opened KernelObjects
  import opened Fastpath
  import opened Outcomes
  import EQ = EndpointQueue
  import CS = CallStack

  class IpcKernel {
    const slots: Slots
    const curDomain: int
    const maxDom: int
    const highestReady: Option<int>  // the best priority in the ready queues, if any thread is ready
    var cur: Ref
    var tcbs: map<Ref, Tcb>
    var replies: map<Ref, ReplyObj>
    var scs: map<Ref, SchedContext>
    var eps: map<Ref, Endpoint>
    ghost var shadow: Shadow

    constructor (space: Slots, domain: int, lastDomain: int, highest: Option<int>, ghost w: World, k: Kernel)
      requires k == w.k && Inv(w) && space.WellFormed() && space.wordBits > 0
      requires forall a :: a in space.at && space.at[a].EndpointCap? ==> space.at[a].ep in k.eps
      requires forall a :: a in space.at && space.at[a].ReplyCap? ==> space.at[a].reply in k.replies
      requires forall t :: t in k.tcbs ==> space.WellFormedCap(k.tcbs[t].ctable)
      ensures Valid() && View() == w
      ensures slots == space && curDomain == domain && maxDom == lastDomain && highestReady == highest
    {
      slots, curDomain, maxDom, highestReady := space, domain, lastDomain, highest;
      cur, tcbs, replies, scs, eps := k.cur, k.tcbs, k.replies, k.scs, k.eps;
      shadow := w.v;
    }

    ghost function View(): World
      reads this
    {
      World(Kernel(cur, tcbs, replies, scs, eps), shadow)
    }

    /** Capabilities name live objects, and every thread has a capability space. */
    ghost predicate CapsLive(k: Kernel) {
      && (forall a :: a in slots.at && slots.at[a].EndpointCap? ==> slots.at[a].ep in k.eps)
      && (forall a :: a in slots.at && slots.at[a].ReplyCap? ==> slots.at[a].reply in k.replies)
      && (forall t :: t in k.tcbs ==> slots.WellFormedCap(k.tcbs[t].ctable))
    }

    ghost predicate Valid()
      reads this
    {
      && Inv(View())
      && slots.WellFormed() && slots.wordBits > 0
      && CapsLive(View().k)
    }

    /** The capability an address names in the space of the current thread. */
    ghost function Named(k: Kernel, cptr: nat): Cap
      requires slots.WellFormed() && k.cur in k.tcbs && slots.WellFormedCap(k.tcbs[k.cur].ctable)
    {
      CapAt(slots, Resolve(slots, k.tcbs[k.cur].ctable, cptr, slots.wordBits))
    }

    predicate IsHighestPrio(priority: int) {
      highestReady.None? || priority >= highestReady.value
    }

    /** The current thread of k can run, in its domain, and is not behind a ready thread. */
    ghost predicate Runnable(k: Kernel) {
      k.cur in k.tcbs && k.tcbs[k.cur].validVTable && (maxDom > 0 ==> k.tcbs[k.cur].domain == curDomain)
    }

    ghost predicate BehindNone(k: Kernel) {
      k.cur in k.tcbs && (highestReady.Some? ==> k.tcbs[k.cur].priority >= highestReady.value)
    }

    /** When `fastpath_call` goes ahead. */
    ghost predicate CallGoesAhead(k: Kernel, cap: Cap, miOk: bool) {
      && miOk && k.cur in k.tcbs && !k.tcbs[k.cur].faulted
      && cap.EndpointCap? && cap.canSend && (cap.canGrant || cap.canGrantReply)
      && Enabled(k, Call(cap.ep))
      && var dest := k.tcbs[k.eps[cap.ep].head];
        && dest.validVTable
        && (dest.priority >= k.tcbs[k.cur].priority || IsHighestPrio(dest.priority))
        && (dest.domain == curDomain || maxDom <= 0)
    }

    /** `fastpath_call` */
    method FastpathCall(cptr: nat, miOk: bool) returns (taken: bool)
      requires Valid() && cptr < Pow2(slots.wordBits)
      modifies this
      ensures Valid()
      ensures taken <==> CallGoesAhead(old(View().k), Named(old(View().k), cptr), miOk)
      ensures taken ==> View() == CallStep(old(View()), Named(old(View().k), cptr).ep)
      ensures taken ==> Runnable(View().k) && (old(BehindNone(View().k)) ==> BehindNone(View().k))
      ensures taken ==>
        var cap := Named(old(View().k), cptr); cap.EndpointCap? && cap.canSend && (cap.canGrant || cap.canGrantReply)
      ensures !taken ==> View() == old(View())
    {
      ghost var before := View();
      if !miOk || tcbs[cur].faulted {
        return false;
      }
      var epCap := LookupFp(slots, tcbs[cur].ctable, cptr);
      if !epCap.EndpointCap? || !epCap.canSend {
        return false;
      }
      var ep := epCap.ep;
      var dest := eps[ep].head;
      if eps[ep].state != Recv {
        return false;
      }
      InvParts(before);
      assert EndpointOk(before.k, shadow, ep);
      EQ.HeadFacts(before.k, shadow, ep);
      if !tcbs[dest].validVTable {
        return false;
      }
      if tcbs[dest].priority < tcbs[cur].priority && !IsHighestPrio(tcbs[dest].priority) {
        return false;
      }
      if !epCap.canGrant && !epCap.canGrantReply {
        return false;
      }
      if tcbs[dest].domain != curDomain && 0 < maxDom {
        return false;
      }
      if tcbs[dest].sc != NULL {
        return false;
      }
      var reply := tcbs[dest].replyObject;
      if reply == NULL {
        return false;
      }
      CallRuns(before, epCap, miOk);
      CommitCall(ep, dest, reply);
      return true;
    }

    /** Who runs after a call can run, and is behind no ready thread if the caller was not. */
    lemma CallRuns(w: World, cap: Cap, miOk: bool)
      requires Inv(w) && CallGoesAhead(w.k, cap, miOk)
      ensures Runnable(CallStep(w, cap.ep).k) && (BehindNone(w.k) ==> BehindNone(CallStep(w, cap.ep).k))
      ensures cap.canSend && (cap.canGrant || cap.canGrantReply)
    {
      CallOutcome(w, cap.ep);
    }

    /** Who runs after a reply can run, and is behind no ready thread. */
    lemma ReplyRuns(w: World, epCap: Cap, replyCap: Cap, miOk: bool)
      requires Inv(w) && ReplyRecvGoesAhead(w.k, epCap, replyCap, miOk)
      ensures var k := ReplyRecvStep(w, epCap.ep, replyCap.reply).k;
        Runnable(k) && BehindNone(k) && !k.tcbs[k.cur].faulted
      ensures epCap.canReceive
    {
      ReplyOutcome(w, epCap.ep, replyCap.reply);
    }

    /**
      A call is left to the slow path for one of these reasons and no other: the message
      or the caller, the capability, nobody ready to receive, or a receiver that cannot
      run, is of another domain, or is behind both the caller and a ready thread.
     */
    lemma CallLeftFor(k: Kernel, cap: Cap, miOk: bool)
      requires k.cur in k.tcbs && (cap.EndpointCap? ==> cap.ep in k.eps)
      requires cap.EndpointCap? && k.eps[cap.ep].state == Recv ==> k.eps[cap.ep].head in k.tcbs
      ensures !CallGoesAhead(k, cap, miOk) <==>
        || !miOk || k.tcbs[k.cur].faulted
        || !cap.EndpointCap? || !cap.canSend || (!cap.canGrant && !cap.canGrantReply)
        || k.eps[cap.ep].state != Recv
        || var dest := k.tcbs[k.eps[cap.ep].head];
          || dest.sc != NULL || dest.replyObject == NULL || !dest.validVTable
          || (maxDom > 0 && dest.domain != curDomain)
          || (dest.priority < k.tcbs[k.cur].priority && highestReady.Some? && dest.priority < highestReady.value)
    {
    }

    /** From the point of no return on. */
    method CommitCall(ep: Ref, dest: Ref, reply: Ref)
      requires Valid() && Enabled(View().k, Call(ep))
      requires dest == eps[ep].head && reply == tcbs[dest].replyObject
      modifies this
      ensures Valid() && View() == CallStep(old(View()), ep)
    {
      ghost var w, sc := View(), tcbs[cur].sc;
      HeadReady(w, ep);
      ghost var k, v := EQ.Dequeue(w.k, ep), EQ.Dequeued(w.v, ep);
      CallParts(w, ep, k, v, dest, reply, sc);
      PerformCall(ep, dest, reply);
      CapsStayLive(w.k, View().k);
    }

    /** The receiver leaves its queue and gets the context. */
    method PerformCall(ep: Ref, dest: Ref, reply: Ref)
      requires ep in eps && ep in shadow.queues && EQ.HeadIs(View().k, ep, shadow.queues[ep]) && dest == eps[ep].head
      requires cur in tcbs && dest != cur && tcbs[cur].sc in shadow.chains
      requires CS.Callable(EQ.Dequeue(View().k, ep), dest, reply, tcbs[cur].sc)
      modifies this
      ensures View() == old(World(
        CS.HandOver(EQ.Dequeue(View().k, ep), dest, reply, tcbs[cur].sc),
        CS.Pushed(EQ.Dequeued(shadow, ep), tcbs[cur].sc, reply)))
    {
      ghost var v := CS.Pushed(EQ.Dequeued(shadow, ep), tcbs[cur].sc, reply);
      DequeueHead(ep, dest);
      HandOverContext(dest, reply);
      shadow := v;
    }

    lemma CapsStayLive(a: Kernel, b: Kernel)
      requires CapsLive(a) && SameObjects(a, b)
      ensures CapsLive(b)
    {
    }

    /**
      The caller blocks on the reply object, which goes on top of the call stack;
      dest gets the context.  The objects written more than once are held in
      locals until the end.
     */
    method HandOverContext(dest: Ref, reply: Ref)
      requires cur in tcbs && dest in tcbs && cur != dest && reply in replies && tcbs[cur].sc in scs
      requires scs[tcbs[cur].sc].reply != NULL ==> scs[tcbs[cur].sc].reply in replies
      requires scs[tcbs[cur].sc].reply != reply
      modifies this`cur, this`tcbs, this`replies, this`scs
      ensures View().k == CS.HandOver(old(View().k), dest, reply, old(tcbs[cur].sc))
    {
      var src, dst, obj := tcbs[cur], tcbs[dest], replies[reply];
      // unlink dest from the reply object, link the caller to it
      src := src.(ts := BlockedOnReply, blockingObject := NULL);
      dst := dst.(replyObject := NULL);
      src := src.(replyObject := reply);
      obj := obj.(tcb := cur);
      // donate the scheduling context
      var sc := src.sc;
      var context := scs[sc].(tcb := dest);
      dst := dst.(sc := sc);
      src := src.(sc := NULL);
      // push the reply object
      var oldCaller := context.reply;
      obj := obj.(prev := Link(context.reply, false));
      if oldCaller != NULL {
        replies := replies[oldCaller := replies[oldCaller].(next := Link(reply, false))];
      }
      obj := obj.(next := Link(sc, true));
      context := context.(reply := reply);
      dst := dst.(ts := Running, blockingObject := NULL);
      tcbs := tcbs[cur := src][dest := dst];
      replies := replies[reply := obj];
      scs := scs[sc := context];
      cur := dest;
    }

    method DequeueHead(ep: Ref, dest: Ref)
      requires ep in eps && dest == eps[ep].head && dest in tcbs
      requires tcbs[dest].epNext != NULL ==> tcbs[dest].epNext in tcbs
      modifies this`eps, this`tcbs
      ensures View().k == EQ.Dequeue(old(View().k), ep)
    {
      var next := tcbs[dest].epNext;
      eps := eps[ep := eps[ep].(head := next)];
      if next != NULL {
        tcbs := tcbs[next := tcbs[next].(epPrev := NULL)];
      } else {
        eps := eps[ep := eps[ep].(tail := NULL, state := Idle)];
      }
    }

    /** When `fastpath_reply_recv` goes ahead. */
    ghost predicate ReplyRecvGoesAhead(k: Kernel, epCap: Cap, replyCap: Cap, miOk: bool) {
      && miOk && k.cur in k.tcbs && !k.tcbs[k.cur].faulted && !k.tcbs[k.cur].notified
      && epCap.EndpointCap? && epCap.canReceive
      && replyCap.ReplyCap?
      && Enabled(k, ReplyRecv(epCap.ep, replyCap.reply))
      && k.replies[replyCap.reply].tcb in k.tcbs
      && var caller := k.tcbs[k.replies[replyCap.reply].tcb];
        && !caller.faulted && caller.validVTable && IsHighestPrio(caller.priority)
        && (caller.domain == curDomain || maxDom <= 0)
    }

    /** `fastpath_reply_recv` */
    method FastpathReplyRecv(cptr: nat, miOk: bool, reply: nat) returns (taken: bool)
      requires Valid() && cptr < Pow2(slots.wordBits) && reply < Pow2(slots.wordBits)
      modifies this
      ensures Valid()
      ensures taken <==>
        ReplyRecvGoesAhead(old(View().k), Named(old(View().k), cptr), Named(old(View().k), reply), miOk)
      ensures taken ==>
        View() == ReplyRecvStep(old(View()), Named(old(View().k), cptr).ep, Named(old(View().k), reply).reply)
      ensures taken ==> Runnable(View().k) && BehindNone(View().k) && !tcbs[cur].faulted
      ensures taken ==> Named(old(View().k), cptr).EndpointCap? && Named(old(View().k), cptr).canReceive
      ensures !taken ==> View() == old(View())
    {
      ghost var before := View();
      if !miOk || tcbs[cur].faulted {
        return false;
      }
      var epCap := LookupFp(slots, tcbs[cur].ctable, cptr);
      if !epCap.EndpointCap? || !epCap.canReceive {
        return false;
      }
      var replyCap := LookupFp(slots, tcbs[cur].ctable, reply);
      if !replyCap.ReplyCap? {
        return false;
      }
      if tcbs[cur].notified {
        return false;
      }
      var ep := epCap.ep;
      if eps[ep].state == Send {
        return false;
      }
      var replyPtr := replyCap.reply;
      if replies[replyPtr].tcb == NULL || !replies[replyPtr].next.isHead || replies[replyPtr].next.ptr != tcbs[cur].sc {
        return false;
      }
      InvParts(before);
      HandBackStep(before.k, shadow, ep, replyPtr);
      var caller := replies[replyPtr].tcb;
      if tcbs[caller].faulted {
        return false;
      }
      if !tcbs[caller].validVTable {
        return false;
      }
      if !IsHighestPrio(tcbs[caller].priority) {
        return false;
      }
      if tcbs[caller].domain != curDomain && 0 < maxDom {
        return false;
      }
      if tcbs[caller].sc != NULL {
        return false;
      }
      ReplyRuns(before, epCap, replyCap, miOk);
      CommitReplyRecv(ep, replyPtr);
      return true;
    }

    /**
      A reply is left to the slow path for one of these reasons and no other: the message
      or the server, its capabilities, senders waiting, a reply object that is not on top
      of the server's call stack, or a caller that cannot run, is of another domain, or is
      behind a ready thread.
     */
    lemma ReplyLeftFor(k: Kernel, epCap: Cap, replyCap: Cap, miOk: bool)
      requires k.cur in k.tcbs && (epCap.EndpointCap? ==> epCap.ep in k.eps)
      requires replyCap.ReplyCap? ==> replyCap.reply in k.replies
      requires replyCap.ReplyCap? && k.replies[replyCap.reply].tcb != NULL ==>
        k.replies[replyCap.reply].tcb in k.tcbs
      ensures !ReplyRecvGoesAhead(k, epCap, replyCap, miOk) <==>
        || !miOk || k.tcbs[k.cur].faulted || k.tcbs[k.cur].notified
        || !epCap.EndpointCap? || !epCap.canReceive || !replyCap.ReplyCap?
        || k.eps[epCap.ep].state == Send
        || k.replies[replyCap.reply].tcb == NULL
        || k.replies[replyCap.reply].next != Link(k.tcbs[k.cur].sc, true)
        || var caller := k.tcbs[k.replies[replyCap.reply].tcb];
          || caller.faulted || !caller.validVTable
          || (maxDom > 0 && caller.domain != curDomain)
          || (highestReady.Some? && caller.priority < highestReady.value)
    {
    }

    /** From the point of no return on. */
    method CommitReplyRecv(ep: Ref, reply: Ref)
      requires Valid() && Enabled(View().k, ReplyRecv(ep, reply))
      modifies this
      ensures Valid() && View() == ReplyRecvStep(old(View()), ep, reply)
    {
      ghost var w := View();
      InvParts(w);
      BlockStep(w.k, w.v, ep, reply);
      var self, caller := cur, replies[reply].tcb;
      ghost var v := CS.Popped(shadow, tcbs[cur].sc);
      JoinThenPop(w, ep, reply, CS.Block(w.k, ep, reply), v, tcbs[cur].sc, caller);
      BlockServer(ep, reply, caller);
      shadow := v;
      JoinQueue(ep, self);
      PopContext(reply, caller);
      ReplyRecvInvariant(w, ep, reply);
      ReplyRecvSameObjects(w, ep, reply);
      CapsStayLive(w.k, View().k);
    }

    /** The server blocks on ep and takes the reply object over from the caller. */
    method BlockServer(ep: Ref, reply: Ref, caller: Ref)
      requires cur in tcbs && reply in replies && replies[reply].tcb == caller && caller in tcbs && caller != cur
      modifies this`tcbs, this`replies
      ensures View().k == CS.Block(old(View().k), ep, reply)
    {
      var src, dst, obj := tcbs[cur], tcbs[caller], replies[reply];
      src := src.(ts := BlockedOnReceive, blockingObject := ep);
      dst := dst.(replyObject := NULL);
      src := src.(replyObject := reply);
      obj := obj.(tcb := cur);
      tcbs := tcbs[caller := dst][cur := src];
      replies := replies[reply := obj];
    }

    /** The server's context goes back to the caller, which runs, and the call stack loses its top. */
    method PopContext(reply: Ref, caller: Ref)
      requires cur in tcbs && reply in replies && caller in tcbs && caller != cur && tcbs[cur].sc in scs
      requires replies[reply].prev.ptr != NULL ==>
        replies[reply].prev.ptr in replies && replies[reply].prev.ptr != reply
      modifies this`cur, this`tcbs, this`replies, this`scs
      ensures View().k == CS.Pop(old(View().k), reply, caller, old(tcbs[cur].sc))
    {
      var src, dst, obj := tcbs[cur], tcbs[caller], replies[reply];
      var prev, sc := obj.prev.ptr, src.sc;
      src := src.(sc := NULL);
      dst := dst.(sc := sc);
      var context := scs[sc].(tcb := caller);
      context := context.(reply := prev);
      if prev != NULL {
        replies := replies[prev := replies[prev].(next := obj.next)];
      }
      obj := obj.(prev := Link(NULL, false));
      obj := obj.(next := Link(NULL, false));
      dst := dst.(ts := Running, blockingObject := NULL);
      tcbs := tcbs[cur := src][caller := dst];
      replies := replies[reply := obj];
      scs := scs[sc := context];
      cur := caller;
    }

    /** Join the queue of ep. */
    method JoinQueue(ep: Ref, t: Ref)
      requires NullFree(View().k) && QueuesOk(View().k, shadow) && EQ.Arriving(View().k, shadow, ep, t)
      modifies this`eps, this`tcbs, this`shadow
      ensures View() == Join(old(View().k), old(shadow), ep, t)
    {
      ghost var q := shadow.queues[ep];
      ghost var p := EQ.InsertPos(tcbs, q, tcbs[t].priority);
      assert EndpointOk(View().k, shadow, ep);
      LinkIn(ep, t, q);
      shadow := EQ.Enqueued(shadow, ep, t, p);
    }

    /** The writes: directly to the endpoint when the queue is empty, else the queue is searched from the back. */
    method LinkIn(ep: Ref, t: Ref, ghost q: seq<Ref>)
      requires NULL !in tcbs && t in tcbs && t !in q && ep in eps && QueueLinked(tcbs, eps[ep], q)
      modifies this`eps, this`tcbs
      ensures var p := EQ.InsertPos(old(tcbs), q, old(tcbs)[t].priority);
        && EQ.Between(old(tcbs), q, p, Before(q, p), After(q, p))
        && View().k == EQ.Enqueue(old(View().k), ep, t, Before(q, p), After(q, p))
    {
      EQ.BetweenFacts(tcbs, q, EQ.InsertPos(tcbs, q, tcbs[t].priority));
      var endpointTail := eps[ep].tail;
      if endpointTail == NULL {
        tcbs := tcbs[t := tcbs[t].(epPrev := NULL, epNext := NULL)];
        eps := eps[ep := eps[ep].(head := t, tail := t, state := Recv)];
      } else {
        var head, end := TcbEPAppend(t, eps[ep].head, eps[ep].tail, q);
        eps := eps[ep := eps[ep].(head := head, tail := end, state := Recv)];
      }
    }

    /** `tcbEPAppend` */
    method TcbEPAppend(t: Ref, head: Ref, end: Ref, ghost q: seq<Ref>) returns (head': Ref, end': Ref)
      requires NULL !in tcbs && t in tcbs && t !in q && QueueLinked(tcbs, Endpoint(Recv, head, end), q)
      modifies this`tcbs
      ensures var p := EQ.InsertPos(old(tcbs), q, old(tcbs)[t].priority);
        && EQ.Between(old(tcbs), q, p, Before(q, p), After(q, p))
        && tcbs == EQ.Linked(old(tcbs), t, Before(q, p), After(q, p))
        && head' == (if Before(q, p) == NULL then t else head)
        && end' == (if After(q, p) == NULL then t else end)
    {
      head', end' := head, end;
      QueueLinkedBack(tcbs, Endpoint(Recv, head, end), q);
      var before, after := FindPlace(tcbs, t, end, q);
      EQ.BetweenFacts(tcbs, q, EQ.InsertPos(tcbs, q, tcbs[t].priority));
      if before == NULL {
        head' := t;
      } else {
        tcbs := tcbs[before := tcbs[before].(epNext := t)];
      }
      if after == NULL {
        end' := t;
      } else {
        tcbs := tcbs[after := tcbs[after].(epPrev := t)];
      }
      tcbs := tcbs[t := tcbs[t].(epNext := after, epPrev := before)];
    }
  }

  /** Entry n - 1 of a queue is a thread whose back link names the entry before it. */
  predicate LinkedBack(tcbs: map<Ref, Tcb>, q: seq<Ref>, n: nat)
    requires n <= |q|
  {
    n > 0 ==> q[n - 1] in tcbs && q[n - 1] != NULL && tcbs[q[n - 1]].epPrev == Before(q, n - 1)
  }

  lemma QueueLinkedBack(tcbs: map<Ref, Tcb>, ep: Endpoint, q: seq<Ref>)
    requires NULL !in tcbs && QueueLinked(tcbs, ep, q)
    ensures ep.tail == Before(q, |q|)
    ensures forall n {:trigger LinkedBack(tcbs, q, n)} :: 0 <= n <= |q| ==> LinkedBack(tcbs, q, n)
  {
  }

  /** The search of `tcbEPAppend`, from the back as first come first served is the common case. */
  method FindPlace(tcbs: map<Ref, Tcb>, t: Ref, end: Ref, ghost q: seq<Ref>) returns (before: Ref, after: Ref)
    requires t in tcbs && end == Before(q, |q|) && forall i :: 0 <= i < |q| ==> q[i] in tcbs
    requires forall n {:trigger LinkedBack(tcbs, q, n)} :: 0 <= n <= |q| ==> LinkedBack(tcbs, q, n)
    ensures var p := EQ.InsertPos(tcbs, q, tcbs[t].priority); before == Before(q, p) && after == After(q, p)
  {
    before, after := end, NULL;
    ghost var n: nat, priority := |q|, tcbs[t].priority;
    assert q[..n] == q;
    while before != NULL && tcbs[t].priority > tcbs[before].priority
      invariant n <= |q| && before == Before(q, n) && after == After(q, n) && LinkedBack(tcbs, q, n)
      invariant EQ.InsertPos(tcbs, q, priority) == EQ.InsertPos(tcbs, q[..n], priority)
      decreases n
    {
      EQ.PlaceBelow(tcbs, q, n, priority);
      after := before;
      before := tcbs[after].epPrev;
      n := n - 1;
    }
    EQ.PlaceReached(tcbs, q, n, priority);
  }
}
