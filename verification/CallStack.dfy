/**
  Pushing and popping a reply object on the call stack of a scheduling context
  while the context moves between caller and server.
 */
module CallStack {
  import opened KernelObjects

  /** The caller blocks on reply object r of dest, and dest runs on the caller's context s. */
  function HandOver(k: Kernel, dest: Ref, r: Ref, s: Ref): Kernel
    requires k.cur in k.tcbs && dest in k.tcbs && r in k.replies && s in k.scs
    requires k.scs[s].reply != NULL ==> k.scs[s].reply in k.replies
  {
    var top := k.scs[s].reply;
    var below := if top != NULL then k.replies[top := k.replies[top].(next := Link(r, false))] else k.replies;
    var caller := k.tcbs[k.cur].(ts := BlockedOnReply, blockingObject := NULL, replyObject := r, sc := NULL);
    var receiver := k.tcbs[dest].(ts := Running, blockingObject := NULL, replyObject := NULL, sc := s);
    k.(cur := dest,
       tcbs := k.tcbs[k.cur := caller][dest := receiver],
       replies := below[r := ReplyObj(k.cur, Link(top, false), Link(s, true))],
       scs := k.scs[s := SchedContext(dest, r)])
  }

  /** The current thread waits on ep with reply object r, and r's caller gets context s back. */
  function HandBack(k: Kernel, ep: Ref, r: Ref, s: Ref): Kernel
    requires k.cur in k.tcbs && r in k.replies && k.replies[r].tcb in k.tcbs && s in k.scs
    requires k.replies[r].prev.ptr != NULL ==> k.replies[r].prev.ptr in k.replies
  {
    var caller, prev := k.replies[r].tcb, k.replies[r].prev.ptr;
    var above := if prev != NULL then k.replies[prev := k.replies[prev].(next := k.replies[r].next)] else k.replies;
    var server := k.tcbs[k.cur].(ts := BlockedOnReceive, blockingObject := ep, replyObject := r, sc := NULL);
    var resumed := k.tcbs[caller].(ts := Running, blockingObject := NULL, replyObject := NULL, sc := s);
    k.(cur := caller,
       tcbs := k.tcbs[k.cur := server][caller := resumed],
       replies := above[r := ReplyObj(k.cur, Link(NULL, false), Link(NULL, false))],
       scs := k.scs[s := SchedContext(caller, prev)])
  }

  /** The first half of `HandBack`: the server blocks on ep and takes the reply object over from the caller. */
  function Block(k: Kernel, ep: Ref, r: Ref): Kernel
    requires k.cur in k.tcbs && r in k.replies && k.replies[r].tcb in k.tcbs
  {
    var caller := k.replies[r].tcb;
    var server := k.tcbs[k.cur].(ts := BlockedOnReceive, blockingObject := ep, replyObject := r);
    k.(tcbs := k.tcbs[caller := k.tcbs[caller].(replyObject := NULL)][k.cur := server],
       replies := k.replies[r := k.replies[r].(tcb := k.cur)])
  }

  /** The second half: the caller gets the context and runs, and the call stack loses its top. */
  function Pop(k: Kernel, r: Ref, caller: Ref, s: Ref): Kernel
    requires k.cur in k.tcbs && r in k.replies && caller in k.tcbs && s in k.scs
    requires k.replies[r].prev.ptr != NULL ==> k.replies[r].prev.ptr in k.replies
  {
    var prev := k.replies[r].prev.ptr;
    var above := if prev != NULL then k.replies[prev := k.replies[prev].(next := k.replies[r].next)] else k.replies;
    k.(cur := caller,
       tcbs := PopThreads(k.tcbs, k.cur, caller, s),
       replies := above[r := k.replies[r].(prev := Link(NULL, false), next := Link(NULL, false))],
       scs := k.scs[s := SchedContext(caller, prev)])
  }

  function PopThreads(tcbs: map<Ref, Tcb>, server: Ref, caller: Ref, s: Ref): map<Ref, Tcb>
    requires server in tcbs && caller in tcbs
  {
    tcbs[server := tcbs[server].(sc := NULL)][caller := tcbs[caller].(ts := Running, blockingObject := NULL, sc := s)]
  }

  /** One half after the other is the whole. */
  lemma HandBackHalves(k: Kernel, ep: Ref, r: Ref, s: Ref)
    requires k.cur in k.tcbs && r in k.replies && k.replies[r].tcb in k.tcbs && s in k.scs
    requires k.replies[r].tcb != k.cur && k.replies[r].prev.ptr != r
    requires k.replies[r].prev.ptr != NULL ==> k.replies[r].prev.ptr in k.replies
    ensures Pop(Block(k, ep, r), r, k.replies[r].tcb, s) == HandBack(k, ep, r, s)
  {
    var caller := k.replies[r].tcb;
    var a, b := Pop(Block(k, ep, r), r, caller, s), HandBack(k, ep, r, s);
    assert a.tcbs == b.tcbs;
    assert a.replies == b.replies;
  }

  // ---- Handing over --------------------------------------------------------

  /** dest waits to be called with reply object r, off every queue; the caller runs on context s. */
  predicate Callable(k: Kernel, dest: Ref, r: Ref, s: Ref) {
    && k.cur in k.tcbs && k.tcbs[k.cur].ts == Running && k.tcbs[k.cur].sc == s && s != NULL
    && dest in k.tcbs && k.tcbs[dest].ts == BlockedOnReceive && k.tcbs[dest].sc == NULL
    && k.tcbs[dest].replyObject == r && r != NULL
    && r in k.replies && k.replies[r].tcb == dest
    && s in k.scs && k.scs[s].tcb == k.cur
    && (k.scs[s].reply != NULL ==> k.scs[s].reply in k.replies)
    && k.scs[s].reply != r
  }

  lemma HandOverBound(k: Kernel, dest: Ref, r: Ref, s: Ref)
    requires NullFree(k) && ContextsBound(k) && RepliesBound(k) && Callable(k, dest, r, s)
    ensures NullFree(HandOver(k, dest, r, s)) && CurrentRuns(HandOver(k, dest, r, s))
    ensures ContextsBound(HandOver(k, dest, r, s)) && RepliesBound(HandOver(k, dest, r, s))
  {
  }

  /** A reply object whose thread is not waiting for a reply is on no chain. */
  lemma NotOnChain(k: Kernel, v: Shadow, x: Ref, r: Ref)
    requires x in k.scs && x in v.chains && ContextOk(k, v, x)
    requires r in k.replies && (k.replies[r].tcb in k.tcbs ==> k.tcbs[k.replies[r].tcb].ts != BlockedOnReply)
    ensures r !in v.chains[x]
  {
  }

  /** The shadow after r was pushed on the chain of context s. */
  function Pushed(v: Shadow, s: Ref, r: Ref): Shadow
    requires s in v.chains
  {
    v.(chains := v.chains[s := [r] + v.chains[s]])
  }

  lemma PushLinked(k: Kernel, dest: Ref, r: Ref, s: Ref, c: seq<Ref>)
    requires NullFree(k) && Callable(k, dest, r, s) && ChainLinked(k, s, c) && r !in c
    ensures ChainLinked(HandOver(k, dest, r, s), s, [r] + c)
  {
    var k', d := HandOver(k, dest, r, s), [r] + c;
    forall i | 0 <= i < |d|
      ensures d[i] in k'.replies
      ensures k'.replies[d[i]].prev == Link(After(d, i + 1), false) && k'.replies[d[i]].next == UpLink(s, d, i)
    {
      if i > 0 {
        assert d[i] == c[i - 1] && After(d, i + 1) == After(c, i);
        assert k.replies[c[i - 1]].prev == Link(After(c, i), false);
        assert k.replies[c[i - 1]].next == UpLink(s, c, i - 1);
        assert i > 1 ==> UpLink(s, d, i) == UpLink(s, c, i - 1);
      }
    }
  }

  lemma PushWaiting(k: Kernel, dest: Ref, r: Ref, s: Ref, c: seq<Ref>)
    requires NullFree(k) && Callable(k, dest, r, s) && ChainWaiting(k, c) && r !in c
    ensures ChainWaiting(HandOver(k, dest, r, s), c)
    ensures ChainWaiting(HandOver(k, dest, r, s), [r] + c)
  {
    var k', d := HandOver(k, dest, r, s), [r] + c;
    assert forall i :: 0 < i < |d| ==> d[i] == c[i - 1];
    forall i | 0 <= i < |c| ensures k'.replies[c[i]].tcb == k.replies[c[i]].tcb {
    }
  }

  lemma PushThis(k: Kernel, v: Shadow, dest: Ref, r: Ref, s: Ref)
    requires NullFree(k) && Callable(k, dest, r, s) && s in v.chains && ContextOk(k, v, s)
    ensures r !in v.chains[s]
    ensures ContextOk(HandOver(k, dest, r, s), Pushed(v, s, r), s)
  {
    NotOnChain(k, v, s, r);
    PushLinked(k, dest, r, s, v.chains[s]);
    PushWaiting(k, dest, r, s, v.chains[s]);
  }

  lemma PushOther(k: Kernel, v: Shadow, dest: Ref, r: Ref, s: Ref, x: Ref)
    requires NullFree(k) && Callable(k, dest, r, s) && s in v.chains && ChainLinked(k, s, v.chains[s])
    requires x in k.scs && x in v.chains && x != s && ContextOk(k, v, x) && Disjoint(v.chains[x], v.chains[s])
    ensures r !in v.chains[x]
    ensures ContextOk(HandOver(k, dest, r, s), Pushed(v, s, r), x)
  {
    NotOnChain(k, v, x, r);
    var k', c := HandOver(k, dest, r, s), v.chains[x];
    var top := k.scs[s].reply;
    assert top != NULL ==> top in v.chains[s];
    assert forall i :: 0 <= i < |c| ==> c[i] in c;
    assert ChainLinked(k', x, c);
    PushWaiting(k, dest, r, s, c);
  }

  lemma PushHeads(k: Kernel, v: Shadow, dest: Ref, r: Ref, s: Ref)
    requires NullFree(k) && Callable(k, dest, r, s) && HeadsOnTop(k)
    ensures HeadsOnTop(HandOver(k, dest, r, s))
  {
  }

  lemma PushDisjoint(v: Shadow, s: Ref, r: Ref, x: Ref, y: Ref)
    requires s in v.chains && x in v.chains && y in v.chains && x != y
    requires Disjoint(v.chains[x], v.chains[y])
    requires r !in v.chains[x] && r !in v.chains[y]
    ensures Disjoint(Pushed(v, s, r).chains[x], Pushed(v, s, r).chains[y])
  {
  }

  lemma HandOverChains(k: Kernel, v: Shadow, dest: Ref, r: Ref, s: Ref)
    requires NullFree(k) && Callable(k, dest, r, s) && ChainsOk(k, v)
    ensures ChainsOk(HandOver(k, dest, r, s), Pushed(v, s, r))
  {
    var k', v' := HandOver(k, dest, r, s), Pushed(v, s, r);
    assert ContextOk(k, v, s);
    forall x | x in k.scs ensures ContextOk(k', v', x) && r !in v.chains[x] {
      assert ContextOk(k, v, x);
      if x == s { PushThis(k, v, dest, r, s); } else { PushOther(k, v, dest, r, s, x); }
    }
    PushHeads(k, v, dest, r, s);
    forall x, y | x in k.scs && y in k.scs && x != y ensures Disjoint(v'.chains[x], v'.chains[y]) {
      PushDisjoint(v, s, r, x, y);
    }
  }

  // ---- Handing back --------------------------------------------------------

  /** r is the top of the chain of the context s on which the current thread runs. */
  predicate Replyable(k: Kernel, v: Shadow, r: Ref, s: Ref) {
    && k.cur in k.tcbs && k.tcbs[k.cur].ts == Running && k.tcbs[k.cur].sc == s && s != NULL
    && k.tcbs[k.cur].replyObject == NULL
    && s in k.scs && k.scs[s].tcb == k.cur
    && s in v.chains && v.chains[s] != [] && v.chains[s][0] == r
    && r in k.replies
    && k.replies[r].prev == Link(After(v.chains[s], 1), false)
    && k.replies[r].next == Link(s, true)
    && (After(v.chains[s], 1) != NULL ==> After(v.chains[s], 1) in k.replies && After(v.chains[s], 1) != r)
    && (|v.chains[s]| > 1 ==> v.chains[s][1] != NULL)
    && var caller := k.replies[r].tcb;
      && caller in k.tcbs && k.tcbs[caller].ts == BlockedOnReply
      && k.tcbs[caller].replyObject == r && k.tcbs[caller].sc == NULL
  }

  /** The checks of the fastpath establish just that. */
  lemma ReplyableFacts(k: Kernel, v: Shadow, r: Ref)
    requires NullFree(k) && CurrentRuns(k) && ContextsBound(k) && RepliesBound(k) && ChainsOk(k, v)
    requires r in k.replies && k.replies[r].next == Link(k.tcbs[k.cur].sc, true)
    ensures Replyable(k, v, r, k.tcbs[k.cur].sc)
  {
    var s := k.tcbs[k.cur].sc;
    assert ContextOk(k, v, s);
    var c := v.chains[s];
    assert k.scs[s].reply == r;
    assert c[0] == r;
    assert k.replies[c[0]].prev == Link(After(c, 1), false);
    if |c| > 1 { assert c[1] in k.replies; }
  }

  lemma HandBackBound(k: Kernel, v: Shadow, ep: Ref, r: Ref, s: Ref)
    requires NullFree(k) && ContextsBound(k) && RepliesBound(k) && Replyable(k, v, r, s)
    ensures NullFree(HandBack(k, ep, r, s)) && CurrentRuns(HandBack(k, ep, r, s))
    ensures ContextsBound(HandBack(k, ep, r, s)) && RepliesBound(HandBack(k, ep, r, s))
  {
  }

  /** The shadow after the top of the chain of context s was popped. */
  function Popped(v: Shadow, s: Ref): Shadow
    requires s in v.chains && v.chains[s] != []
  {
    v.(chains := v.chains[s := v.chains[s][1..]])
  }

  lemma PopLinked(k: Kernel, v: Shadow, ep: Ref, r: Ref, s: Ref)
    requires NullFree(k) && Replyable(k, v, r, s) && ChainLinked(k, s, v.chains[s])
    ensures ChainLinked(HandBack(k, ep, r, s), s, v.chains[s][1..])
  {
    var k', c := HandBack(k, ep, r, s), v.chains[s];
    var d := c[1..];
    forall i | 0 <= i < |d|
      ensures d[i] in k'.replies
      ensures k'.replies[d[i]].prev == Link(After(d, i + 1), false) && k'.replies[d[i]].next == UpLink(s, d, i)
    {
      assert d[i] == c[i + 1] && c[i + 1] != c[0] && After(d, i + 1) == After(c, i + 2);
      assert k.replies[c[i + 1]].prev == Link(After(c, i + 2), false);
      assert k.replies[c[i + 1]].next == UpLink(s, c, i + 1);
      if i > 0 { assert c[i + 1] != c[1] && UpLink(s, d, i) == UpLink(s, c, i + 1); }
    }
  }

  lemma PopWaiting(k: Kernel, v: Shadow, ep: Ref, r: Ref, s: Ref, d: seq<Ref>)
    requires NullFree(k) && Replyable(k, v, r, s) && ChainWaiting(k, d) && r !in d
    ensures ChainWaiting(HandBack(k, ep, r, s), d)
  {
    var k' := HandBack(k, ep, r, s);
    forall i | 0 <= i < |d| ensures d[i] in k'.replies && k'.replies[d[i]].tcb == k.replies[d[i]].tcb {
      assert d[i] in d;
    }
  }

  lemma PopThis(k: Kernel, v: Shadow, ep: Ref, r: Ref, s: Ref)
    requires NullFree(k) && Replyable(k, v, r, s) && ContextOk(k, v, s)
    ensures ContextOk(HandBack(k, ep, r, s), Popped(v, s), s)
  {
    var d := v.chains[s][1..];
    PopLinked(k, v, ep, r, s);
    assert ChainWaiting(k, d) by {
      assert forall i :: 0 <= i < |d| ==> d[i] == v.chains[s][i + 1];
    }
    PopWaiting(k, v, ep, r, s, d);
  }

  lemma PopOther(k: Kernel, v: Shadow, ep: Ref, r: Ref, s: Ref, x: Ref)
    requires NullFree(k) && Replyable(k, v, r, s)
    requires x in k.scs && x in v.chains && x != s && ContextOk(k, v, x) && Disjoint(v.chains[x], v.chains[s])
    ensures ContextOk(HandBack(k, ep, r, s), Popped(v, s), x)
  {
    var k', c := HandBack(k, ep, r, s), v.chains[x];
    assert r in v.chains[s];
    if |v.chains[s]| > 1 { assert v.chains[s][1] in v.chains[s]; }
    assert forall i :: 0 <= i < |c| ==> c[i] in c;
    assert ChainLinked(k', x, c);
    PopWaiting(k, v, ep, r, s, c);
  }

  lemma PopHeads(k: Kernel, v: Shadow, ep: Ref, r: Ref, s: Ref)
    requires NullFree(k) && Replyable(k, v, r, s) && HeadsOnTop(k)
    requires ChainLinked(k, s, v.chains[s])
    ensures HeadsOnTop(HandBack(k, ep, r, s))
  {
  }

  lemma HandBackChains(k: Kernel, v: Shadow, ep: Ref, r: Ref, s: Ref)
    requires NullFree(k) && Replyable(k, v, r, s) && ChainsOk(k, v)
    ensures ChainsOk(HandBack(k, ep, r, s), Popped(v, s))
  {
    var k', v' := HandBack(k, ep, r, s), Popped(v, s);
    assert ContextOk(k, v, s);
    PopHeads(k, v, ep, r, s);
    forall x | x in k.scs ensures ContextOk(k', v', x) {
      assert ContextOk(k, v, x);
      if x == s { PopThis(k, v, ep, r, s); } else { PopOther(k, v, ep, r, s, x); }
    }
    forall x, y | x in k.scs && y in k.scs && x != y ensures Disjoint(v'.chains[x], v'.chains[y]) {
      assert Disjoint(v.chains[x], v.chains[y]);
    }
  }
}
