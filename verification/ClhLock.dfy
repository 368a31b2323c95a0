/**
  The CLH queue lock that serialises the multicore kernel.

  Every core runs an endless loop of acquire and release.  One constructor of
  `Pc` names each point between two accesses to shared memory, so a run is an
  interleaving of single reads, writes and exchanges under sequential
  consistency.
 */
module ClhLock {
  import opened Basics

  datatype ReqState = Granted | Pending

  /** Where a core stands between two shared accesses. */
  datatype Pc =
    | Outside    // neither acquiring nor releasing
    | Announced  // own request marked Pending, not yet exchanged into tail
    | Waiting    // exchanged into tail, spinning on `watch`
    | Holding    // acquire has returned
    | Releasing  // own request Granted, `myreq` not yet replaced by `watch`

  /** The lock: `cells` request states, one node per core, and the tail pointer. */
  datatype State = State(
    cells: seq<ReqState>,
    myreq: seq<nat>,
    watch: seq<nat>,
    pc: seq<Pc>,
    tail: nat)

  datatype Event =
    | Announce(core: nat)
    | Enqueue(core: nat)
    | Spin(core: nat)
    | Enter(core: nat)
    | Grant(core: nat)
    | Recycle(core: nat)

  /** Every pointer in the lock is the address of one of the N + 1 requests. */
  predicate Shape(s: State) {
    && |s.myreq| == |s.watch| == |s.pc|
    && |s.cells| == |s.pc| + 1
    && s.tail < |s.cells|
    && (forall c :: 0 <= c < |s.pc| ==> s.myreq[c] < |s.cells|)
    && (forall c :: 0 <= c < |s.pc| ==> s.watch[c] < |s.cells|)
  }

  predicate Enabled(s: State, e: Event)
    requires Shape(s)
  {
    && e.core < |s.pc|
    && match e
       case Announce(c) => s.pc[c] == Outside
       case Enqueue(c) => s.pc[c] == Announced
       case Spin(c) => s.pc[c] == Waiting && s.cells[s.watch[c]] == Pending
       case Enter(c) => s.pc[c] == Waiting && s.cells[s.watch[c]] == Granted
       case Grant(c) => s.pc[c] == Holding
       case Recycle(c) => s.pc[c] == Releasing
  }

  function Apply(s: State, e: Event): (t: State)
    requires Shape(s) && Enabled(s, e)
    ensures Shape(t)
    ensures |t.pc| == |s.pc|
  {
    match e
    case Announce(c) => s.(cells := s.cells[s.myreq[c] := Pending], pc := s.pc[c := Announced])
    case Enqueue(c) => s.(watch := s.watch[c := s.tail], tail := s.myreq[c], pc := s.pc[c := Waiting])
    case Spin(c) => s
    case Enter(c) => s.(pc := s.pc[c := Holding])
    case Grant(c) => s.(cells := s.cells[s.myreq[c] := Granted], pc := s.pc[c := Releasing])
    case Recycle(c) => s.(myreq := s.myreq[c := s.watch[c]], pc := s.pc[c := Outside])
  }

  /** What `clh_lock_init` leaves behind for n cores; the requests start zeroed, which is Granted. */
  function Init(n: nat): (s: State)
    ensures Shape(s)
  {
    State(seq(n + 1, _ => Granted), seq(n, (i: nat) => i), seq(n, _ => 0), seq(n, _ => Outside), n)
  }

  // ---- Runs -------------------------------------------------------------

  /** The shared accesses made since the lock was initialised, oldest innermost. */
  datatype History = Boot | Then(past: History, last: Event)

  /** The lock after a history, or None when one of its events was not enabled at its turn. */
  function Run(n: nat, h: History): (r: Option<State>)
    ensures r.Some? ==> Shape(r.value) && |r.value.pc| == n
  {
    match h
    case Boot => Some(Init(n))
    case Then(past, e) =>
      var before := Run(n, past);
      if before.Some? && Enabled(before.value, e) then Some(Apply(before.value, e)) else None
  }

  /** `h` is a possible interleaving of the n cores and ends in `s`. */
  predicate RunsTo(n: nat, h: History, s: State) {
    Run(n, h) == Some(s)
  }

  /** The cores that swapped themselves into `tail`, in that order. */
  function Enqueues(h: History): seq<nat> {
    match h
    case Boot => []
    case Then(past, e) => Enqueues(past) + (if e.Enqueue? then [e.core] else [])
  }

  /** The cores that left the wait loop, in that order. */
  function Enters(h: History): seq<nat> {
    match h
    case Boot => []
    case Then(past, e) => Enters(past) + (if e.Enter? then [e.core] else [])
  }

  /** The cores that granted the lock onwards, in that order. */
  function Grants(h: History): seq<nat> {
    match h
    case Boot => []
    case Then(past, e) => Grants(past) + (if e.Grant? then [e.core] else [])
  }

  // ---- The inductive invariant -------------------------------------------

  /** The request a core owns; inside release it already owns what it watched. */
  function Owned(s: State, c: nat): nat
    requires Shape(s) && c < |s.pc|
  {
    if s.pc[c] == Releasing then s.watch[c] else s.myreq[c]
  }

  /** The one request no core owns: what the queue's head watches, else the tail. */
  function Spare(s: State, q: seq<nat>): nat
    requires Shape(s)
    requires forall i :: 0 <= i < |q| ==> q[i] < |s.pc|
  {
    if q == [] then s.tail else s.watch[q[0]]
  }

  predicate DistinctlyOwned(s: State, q: seq<nat>)
    requires Shape(s)
    requires forall i :: 0 <= i < |q| ==> q[i] < |s.pc|
  {
    && (forall c, d :: 0 <= c < d < |s.pc| ==> Owned(s, c) != Owned(s, d))
    && (forall c :: 0 <= c < |s.pc| ==> Owned(s, c) != Spare(s, q))
  }

  /** The queue `q` is exactly the cores that are waiting or holding, linked through watch and myreq. */
  predicate QueueLinked(s: State, q: seq<nat>)
    requires Shape(s)
  {
    && (forall i :: 0 <= i < |q| ==> q[i] < |s.pc|)
    && (forall i, j :: 0 <= i < j < |q| ==> q[i] != q[j])
    && (forall c :: 0 <= c < |s.pc| ==> (c in q <==> s.pc[c] == Waiting || s.pc[c] == Holding))
    && (forall i :: 0 <= i < |q| && s.pc[q[i]] == Holding ==> i == 0)
    && (forall i :: 0 < i < |q| ==> s.watch[q[i]] == s.myreq[q[i - 1]])
    && (q != [] ==> s.tail == s.myreq[q[|q| - 1]])
  }

  predicate CellStates(s: State, q: seq<nat>)
    requires Shape(s)
    requires forall i :: 0 <= i < |q| ==> q[i] < |s.pc|
  {
    && s.cells[Spare(s, q)] == Granted
    && (forall c :: 0 <= c < |s.pc| ==>
          (s.cells[Owned(s, c)] == Pending <==> s.pc[c] in {Announced, Waiting, Holding}))
  }

  predicate Inv(s: State, q: seq<nat>) {
    && Shape(s)
    && QueueLinked(s, q)
    && DistinctlyOwned(s, q)
    && CellStates(s, q)
  }

  /** How an event changes the queue of waiting and holding cores. */
  function QueueAfter(q: seq<nat>, e: Event): seq<nat>
    requires e.Grant? ==> q != []
  {
    match e
    case Enqueue(c) => q + [c]
    case Grant(_) => q[1..]
    case _ => q
  }

  lemma InitInv(n: nat)
    ensures Inv(Init(n), [])
  {
    var s := Init(n);
    assert forall c :: 0 <= c < n ==> Owned(s, c) == c;
  }

  /** The holder is the head of the queue. */
  lemma HolderIsHead(s: State, q: seq<nat>, c: nat)
    requires Inv(s, q) && c < |s.pc| && s.pc[c] == Holding
    ensures q != [] && q[0] == c
  {
    var i :| 0 <= i < |q| && q[i] == c;
  }

  /** Every shared access by any core keeps the invariant. */
  lemma StepInv(s: State, q: seq<nat>, e: Event)
    requires Inv(s, q) && Enabled(s, e)
    ensures e.Grant? ==> q != [] && q[0] == e.core
    ensures Inv(Apply(s, e), QueueAfter(q, e))
  {
    match e
    case Announce(c) => AnnounceInv(s, q, c);
    case Enqueue(c) => EnqueueInv(s, q, c);
    case Spin(c) =>
    case Enter(c) => EnterInv(s, q, c);
    case Grant(c) => GrantInv(s, q, c);
    case Recycle(c) => RecycleInv(s, q, c);
  }

  lemma AnnounceInv(s: State, q: seq<nat>, c: nat)
    requires Inv(s, q) && Enabled(s, Announce(c))
    ensures Inv(Apply(s, Announce(c)), q)
  {
    var t := Apply(s, Announce(c));
    assert c !in q;
    assert forall d :: 0 <= d < |s.pc| ==> Owned(t, d) == Owned(s, d);
    assert Spare(t, q) == Spare(s, q);
  }

  lemma EnqueueInv(s: State, q: seq<nat>, c: nat)
    requires Inv(s, q) && Enabled(s, Enqueue(c))
    ensures Inv(Apply(s, Enqueue(c)), q + [c])
  {
    EnqueueLinked(s, q, c);
    var t := Apply(s, Enqueue(c));
    assert forall d :: 0 <= d < |s.pc| ==> Owned(t, d) == Owned(s, d);
    assert Spare(t, q + [c]) == Spare(s, q);
  }

  lemma EnqueueLinked(s: State, q: seq<nat>, c: nat)
    requires Shape(s) && QueueLinked(s, q) && Enabled(s, Enqueue(c))
    ensures c !in q
    ensures QueueLinked(Apply(s, Enqueue(c)), q + [c])
  {
    var t, r := Apply(s, Enqueue(c)), q + [c];
    assert c !in q;
    forall i | 0 < i < |r| ensures t.watch[r[i]] == t.myreq[r[i - 1]] {
      if i < |q| {
        assert r[i] in q;
      }
    }
  }

  lemma QueuedRequestPending(s: State, q: seq<nat>, i: nat)
    requires Inv(s, q) && i < |q|
    ensures s.cells[s.myreq[q[i]]] == Pending
  {
    assert q[i] in q;
  }

  lemma EnterInv(s: State, q: seq<nat>, c: nat)
    requires Inv(s, q) && Enabled(s, Enter(c))
    ensures q != [] && q[0] == c
    ensures Inv(Apply(s, Enter(c)), q)
  {
    var t := Apply(s, Enter(c));
    assert c in q;
    var i :| 0 <= i < |q| && q[i] == c;
    if i > 0 {
      // the watched request is the predecessor's, and that core is still queued
      QueuedRequestPending(s, q, i - 1);
    }
    assert forall d :: 0 <= d < |s.pc| ==> Owned(t, d) == Owned(s, d);
  }

  lemma GrantInv(s: State, q: seq<nat>, c: nat)
    requires Inv(s, q) && Enabled(s, Grant(c))
    ensures q != [] && q[0] == c
    ensures Inv(Apply(s, Grant(c)), q[1..])
  {
    HolderIsHead(s, q, c);
    GrantLinked(s, q, c);
    var t := Apply(s, Grant(c));
    assert Owned(t, c) == Spare(s, q);
    assert Spare(t, q[1..]) == Owned(s, c);
    assert forall d :: 0 <= d < |s.pc| && d != c ==> Owned(t, d) == Owned(s, d);
  }

  lemma GrantLinked(s: State, q: seq<nat>, c: nat)
    requires Shape(s) && QueueLinked(s, q) && Enabled(s, Grant(c))
    requires q != [] && q[0] == c
    ensures QueueLinked(Apply(s, Grant(c)), q[1..])
  {
    var t, r := Apply(s, Grant(c)), q[1..];
    assert forall i :: 0 <= i < |r| ==> r[i] == q[i + 1];
    forall d | 0 <= d < |s.pc| ensures d in r <==> t.pc[d] == Waiting || t.pc[d] == Holding {
      assert d in q <==> d == c || d in r;
    }
  }

  lemma RecycleInv(s: State, q: seq<nat>, c: nat)
    requires Inv(s, q) && Enabled(s, Recycle(c))
    ensures Inv(Apply(s, Recycle(c)), q)
  {
    RecycleLinked(s, q, c);
    var t := Apply(s, Recycle(c));
    assert forall d :: 0 <= d < |s.pc| ==> Owned(t, d) == Owned(s, d);
    assert Spare(t, q) == Spare(s, q);
  }

  lemma RecycleLinked(s: State, q: seq<nat>, c: nat)
    requires Shape(s) && QueueLinked(s, q) && Enabled(s, Recycle(c))
    ensures QueueLinked(Apply(s, Recycle(c)), q)
  {
    assert c !in q;
    assert forall i :: 0 <= i < |q| ==> q[i] in q;
  }

  /** The queue at the end of a run: who has swapped into tail and not yet granted onwards. */
  function Queue(h: History): seq<nat> {
    if |Grants(h)| <= |Enqueues(h)| then Enqueues(h)[|Grants(h)|..] else []
  }

  /** The histories after one more event. */
  lemma HistoryStep(h: History, e: Event)
    requires Grants(h) <= Enqueues(h)
    requires e.Grant? ==> Queue(h) != [] && Queue(h)[0] == e.core
    ensures Enqueues(Then(h, e)) == Enqueues(h) + (if e.Enqueue? then [e.core] else [])
    ensures Enters(Then(h, e)) == Enters(h) + (if e.Enter? then [e.core] else [])
    ensures Grants(Then(h, e)) == Grants(h) + (if e.Grant? then [e.core] else [])
    ensures Grants(Then(h, e)) <= Enqueues(Then(h, e))
    ensures Queue(Then(h, e)) == QueueAfter(Queue(h), e)
  {
  }

  /** Every reachable state satisfies the invariant with the queue its own history dictates. */
  lemma {:induction false} RunInv(n: nat, h: History, s: State)
    requires RunsTo(n, h, s)
    ensures Inv(s, Queue(h))
    ensures Grants(h) <= Enqueues(h)
  {
    match h
    case Boot =>
      InitInv(n);
    case Then(past, e) =>
      var p := Run(n, past).value;
      RunInv(n, past, p);
      StepInv(p, Queue(past), e);
      HistoryStep(past, e);
  }

  // ---- Main results ------------------------------------------------------

  /** In every interleaving at most one core is past acquire and short of the grant. */
  lemma MutualExclusion(n: nat, h: History, s: State, c: nat, d: nat)
    requires RunsTo(n, h, s)
    requires c < |s.pc| && d < |s.pc| && s.pc[c] == Holding && s.pc[d] == Holding
    ensures c == d
  {
    RunInv(n, h, s);
    HolderIsHead(s, Queue(h), c);
    HolderIsHead(s, Queue(h), d);
  }

  /** The N + 1 requests always have N + 1 distinct owners: one per core, and one spare that is Granted. */
  lemma RequestsDistinctlyOwned(n: nat, h: History, s: State) returns (spare: nat)
    requires RunsTo(n, h, s)
    ensures Shape(s) && spare < |s.cells| && s.cells[spare] == Granted
    ensures forall c, d :: 0 <= c < d < |s.pc| ==> Owned(s, c) != Owned(s, d)
    ensures forall c :: 0 <= c < |s.pc| ==> Owned(s, c) != spare
  {
    RunInv(n, h, s);
    spare := Spare(s, Queue(h));
  }

  /** What `clh_is_self_in_queue` computes for a core. */
  predicate SelfInQueue(s: State, c: nat)
    requires Shape(s) && c < |s.pc|
  {
    s.cells[s.myreq[c]] == Pending
  }

  /**
    Outside release the self test is exact.  Inside release it answers for a
    request the core no longer owns: it is true exactly when the core that took
    that request over has announced itself again.
   */
  lemma SelfInQueueExact(n: nat, h: History, s: State, c: nat)
    requires RunsTo(n, h, s) && c < n
    ensures Shape(s) && |s.pc| == n
    ensures s.pc[c] != Releasing ==>
      (SelfInQueue(s, c) <==> s.pc[c] in {Announced, Waiting, Holding})
    ensures s.pc[c] == Releasing ==>
      (SelfInQueue(s, c) <==>
        exists d :: 0 <= d < n && d != c && Owned(s, d) == s.myreq[c] && s.pc[d] in {Announced, Waiting, Holding})
  {
    RunInv(n, h, s);
    var q := Queue(h);
    if s.pc[c] == Releasing && SelfInQueue(s, c) {
      SomebodyOwns(s, q, s.myreq[c]);
    }
  }

  /** N owned requests and the spare one are all of the N + 1 requests. */
  lemma SomebodyOwns(s: State, q: seq<nat>, r: nat)
    requires Inv(s, q) && r < |s.cells|
    ensures r == Spare(s, q) || exists d :: 0 <= d < |s.pc| && Owned(s, d) == r
  {
    if r != Spare(s, q) && forall d :: 0 <= d < |s.pc| ==> Owned(s, d) != r {
      var owned := seq(|s.pc|, d requires 0 <= d < |s.pc| => Owned(s, d)) + [Spare(s, q), r];
      Pigeonhole(owned, |s.cells|);
    }
  }

  /** More values below m than m has room for must repeat. */
  lemma {:induction false} Pigeonhole(xs: seq<nat>, m: nat)
    requires |xs| > m
    requires forall i :: 0 <= i < |xs| ==> xs[i] < m
    ensures exists i, j :: 0 <= i < j < |xs| && xs[i] == xs[j]
    decreases m
  {
    assert m > 0 by { assert xs[0] < m; }
    if exists i :: 0 <= i < |xs| && xs[i] == m - 1 {
      var i :| 0 <= i < |xs| && xs[i] == m - 1;
      var ys := xs[..i] + xs[i + 1..];
      if j :| 0 <= j < |xs| && j != i && xs[j] == m - 1 {
        if i < j { assert xs[i] == xs[j]; } else { assert xs[j] == xs[i]; }
      } else {
        forall k | 0 <= k < |ys| ensures ys[k] < m - 1 {
          assert ys[k] == xs[if k < i then k else k + 1];
        }
        Pigeonhole(ys, m - 1);
        var k, l :| 0 <= k < l < |ys| && ys[k] == ys[l];
        assert xs[if k < i then k else k + 1] == xs[if l < i then l else l + 1];
      }
    } else {
      Pigeonhole(xs[1..], m - 1);
      var k, l :| 0 <= k < l < |xs| - 1 && xs[1..][k] == xs[1..][l];
      assert xs[k + 1] == xs[l + 1];
    }
  }

  predicate Held(s: State) {
    exists c :: 0 <= c < |s.pc| && s.pc[c] == Holding
  }

  /**
    First come, first served: the cores enter in exactly the order in which they
    exchanged the tail, and they leave in that order too.
   */
  lemma {:induction false} GrantedInTailOrder(n: nat, h: History, s: State)
    requires RunsTo(n, h, s)
    ensures Enters(h) <= Enqueues(h)
    ensures Grants(h) <= Enters(h)
    ensures |Enters(h)| - |Grants(h)| == (if Held(s) then 1 else 0)
  {
    if h.Then? {
      var p := Run(n, h.past).value;
      GrantedInTailOrder(n, h.past, p);
      HoldingStep(n, h.past, p, h.last, s);
      EntersStep(h.past, h.last);
    }
  }

  /** Only Enter and Grant change whether the lock is held, and both are made by the head of the queue. */
  lemma HoldingStep(n: nat, h: History, s: State, e: Event, t: State)
    requires RunsTo(n, h, s) && RunsTo(n, Then(h, e), t)
    ensures Grants(h) <= Enqueues(h)
    ensures e.Enter? ==> !Held(s) && Held(t) && Queue(h) != [] && Queue(h)[0] == e.core
    ensures e.Grant? ==> Held(s) && !Held(t) && Queue(h) != [] && Queue(h)[0] == e.core
    ensures !e.Enter? && !e.Grant? ==> Held(t) == Held(s)
  {
    RunInv(n, h, s);
    var q := Queue(h);
    if e.Enter? || e.Grant? {
      if e.Enter? { EnterInv(s, q, e.core); } else { HolderIsHead(s, q, e.core); }
      assert (if e.Enter? then t else s).pc[e.core] == Holding;
      OnlyHeadHolds(s, q);
    } else {
      assert forall d :: 0 <= d < |s.pc| ==> (s.pc[d] == Holding <==> t.pc[d] == Holding);
    }
  }

  lemma OnlyHeadHolds(s: State, q: seq<nat>)
    requires Inv(s, q)
    ensures forall d :: 0 <= d < |s.pc| && s.pc[d] == Holding ==> q != [] && q[0] == d
  {
    forall d | 0 <= d < |s.pc| && s.pc[d] == Holding ensures q != [] && q[0] == d {
      HolderIsHead(s, q, d);
    }
  }

  /** The three histories stay prefixes of one another when Enter and Grant are made by the head of the queue. */
  lemma EntersStep(h: History, e: Event)
    requires Grants(h) <= Enters(h) <= Enqueues(h)
    requires e.Enter? ==> Queue(h) != [] && Queue(h)[0] == e.core && |Enters(h)| == |Grants(h)|
    requires e.Grant? ==> Queue(h) != [] && Queue(h)[0] == e.core && |Enters(h)| == |Grants(h)| + 1
    ensures Grants(Then(h, e)) <= Enters(Then(h, e)) <= Enqueues(Then(h, e))
    ensures |Enters(Then(h, e))| == |Enters(h)| + (if e.Enter? then 1 else 0)
    ensures |Grants(Then(h, e))| == |Grants(h)| + (if e.Grant? then 1 else 0)
  {
    HistoryStep(h, e);
    if e.Enter? { NextOf(Enters(h), Enqueues(h), e.core); }
    if e.Grant? { NextOf(Grants(h), Enters(h), e.core); }
  }

  lemma NextOf(a: seq<nat>, b: seq<nat>, c: nat)
    requires a <= b && |a| < |b| && b[|a|] == c
    ensures a + [c] <= b
  {
  }

  /** The number of cores a queued core still has in front of it. */
  function Predecessors(q: seq<nat>, c: nat): nat
    requires c in q
  {
    if q[0] == c then 0 else 1 + Predecessors(q[1..], c)
  }

  /** No step puts a core in front of a waiter, and every grant takes exactly one away. */
  lemma PredecessorsFall(n: nat, h: History, s: State, e: Event, t: State, c: nat)
    requires RunsTo(n, h, s) && RunsTo(n, Then(h, e), t)
    requires c < n && s.pc[c] == Waiting
    ensures t.pc[c] == if e == Enter(c) then Holding else Waiting
    ensures c in Queue(h) && c in Queue(Then(h, e))
    ensures Predecessors(Queue(Then(h, e)), c) == Predecessors(Queue(h), c) - (if e.Grant? then 1 else 0)
  {
    RunInv(n, h, s);
    StepInv(s, Queue(h), e);
    HistoryStep(h, e);
    PredecessorsAfter(Queue(h), e, c);
    assert e.Grant? ==> s.pc[e.core] == Holding;
  }

  lemma PredecessorsAfter(q: seq<nat>, e: Event, c: nat)
    requires c in q
    requires e.Grant? ==> q[0] == e.core != c
    ensures c in QueueAfter(q, e)
    ensures Predecessors(QueueAfter(q, e), c) == Predecessors(q, c) - (if e.Grant? then 1 else 0)
  {
    if e.Enqueue? {
      PredecessorsOfAppended(q, e.core, c);
    }
  }

  lemma {:induction false} PredecessorsOfAppended(q: seq<nat>, d: nat, c: nat)
    requires c in q
    ensures Predecessors(q + [d], c) == Predecessors(q, c)
  {
    if q[0] != c {
      assert (q + [d])[1..] == q[1..] + [d];
      PredecessorsOfAppended(q[1..], d, c);
    }
  }

  /** In a reachable state with a waiter, the front of the queue can always enter or grant. */
  lemma NoDeadlock(n: nat, h: History, s: State, c: nat) returns (e: Event, t: State)
    requires RunsTo(n, h, s) && c < n && s.pc[c] == Waiting
    ensures RunsTo(n, Then(h, e), t)
    ensures e.Enter? || e.Grant?
    ensures Queue(h) != [] && e.core == Queue(h)[0]
  {
    RunInv(n, h, s);
    var front := Queue(h)[0];
    assert front in Queue(h);
    e := if s.pc[front] == Holding then Grant(front) else Enter(front);
    t := Apply(s, e);
  }

  /** Where a core stands after its next access that is not a turn of the wait loop. */
  function NextPc(pc: Pc): Pc {
    match pc
    case Outside => Announced
    case Announced => Waiting
    case Waiting => Holding
    case Holding => Releasing
    case Releasing => Outside
  }

  /** No core is held up by others, except a waiter with someone in front of it, whose turn changes nothing. */
  lemma CoreHeldUp(n: nat, h: History, s: State, c: nat) returns (e: Event, t: State)
    requires RunsTo(n, h, s) && c < n
    ensures e.core == c && RunsTo(n, Then(h, e), t)
    ensures t.pc[c] == NextPc(s.pc[c]) || (t == s && s.pc[c] == Waiting)
    ensures t.pc[c] == NextPc(s.pc[c]) <==> (s.pc[c] == Waiting ==> Queue(h) != [] && Queue(h)[0] == c)
  {
    RunInv(n, h, s);
    var q := Queue(h);
    if s.pc[c] == Waiting {
      var i :| 0 <= i < |q| && q[i] == c;
      if i > 0 { QueuedRequestPending(s, q, i - 1); }
    }
    match s.pc[c] {
      case Outside => e := Announce(c);
      case Announced => e := Enqueue(c);
      case Waiting => e := if s.cells[s.watch[c]] == Granted then Enter(c) else Spin(c);
      case Holding => e := Grant(c);
      case Releasing => e := Recycle(c);
    }
    t := Apply(s, e);
  }

  /** The number of entries and grants until a waiter behind k others is in: 2k + 1, or 2k while the lock is held. */
  function StepsToEntry(h: History, s: State, c: nat): nat {
    (if c in Queue(h) then 2 * Predecessors(Queue(h), c) else 0) + (if Held(s) then 0 else 1)
  }

  lemma FrontAdvances(n: nat, h: History, s: State, c: nat) returns (e: Event, t: State)
    requires RunsTo(n, h, s) && c < n && s.pc[c] == Waiting
    ensures RunsTo(n, Then(h, e), t)
    ensures e.Enter? || e.Grant?
    ensures e == Enter(c) ==> t.pc[c] == Holding && StepsToEntry(h, s, c) == 1
    ensures e != Enter(c) ==> t.pc[c] == Waiting && StepsToEntry(h, s, c) == StepsToEntry(Then(h, e), t, c) + 1
  {
    e, t := NoDeadlock(n, h, s, c);
    PredecessorsFall(n, h, s, e, t, c);
    HoldingStep(n, h, s, e, t);
  }

  /** `f` is `h` followed by exactly k events, every one of them an entry or a grant. */
  predicate FollowedBy(h: History, f: History, k: nat) {
    if k == 0 then f == h
    else f.Then? && (f.last.Enter? || f.last.Grant?) && FollowedBy(h, f.past, k - 1)
  }

  lemma {:induction false} FollowedByFirst(h: History, e: Event, f: History, k: nat)
    requires e.Enter? || e.Grant?
    requires FollowedBy(Then(h, e), f, k)
    ensures FollowedBy(h, f, k + 1)
  {
    if k > 0 {
      FollowedByFirst(h, e, f.past, k - 1);
    } else {
      assert FollowedBy(h, f.past, 0);
    }
  }

  /** Every waiter is let in by a run of just that many further entries and grants. */
  lemma {:induction false} WaiterIsReached(n: nat, h: History, s: State, c: nat)
      returns (f: History, t: State)
    requires RunsTo(n, h, s) && c < n && s.pc[c] == Waiting
    ensures RunsTo(n, f, t) && t.pc[c] == Holding
    ensures FollowedBy(h, f, StepsToEntry(h, s, c))
    decreases StepsToEntry(h, s, c)
  {
    var e, s' := FrontAdvances(n, h, s, c);
    if e == Enter(c) {
      f, t := Then(h, e), s';
      assert FollowedBy(h, f.past, 0);
    } else {
      f, t := WaiterIsReached(n, Then(h, e), s', c);
      FollowedByFirst(h, e, f, StepsToEntry(Then(h, e), s', c));
    }
  }

  /** The entries and grants of a history. */
  function Moves(h: History): nat {
    |Enters(h)| + |Grants(h)|
  }

  /** `f` is `h` followed by any events other than the entry of c. */
  predicate WithoutEntry(h: History, f: History, c: nat) {
    f == h || (f.Then? && f.last != Enter(c) && WithoutEntry(h, f.past, c))
  }

  /** In every run, each entry or grant brings a waiter one closer to its own entry, and nothing sets it back. */
  lemma {:induction false} EveryRunCountsDown(n: nat, h: History, s: State, f: History, t: State, c: nat)
    requires RunsTo(n, h, s) && c < n && s.pc[c] == Waiting
    requires RunsTo(n, f, t) && WithoutEntry(h, f, c)
    ensures t.pc[c] == Waiting && StepsToEntry(f, t, c) > 0
    ensures Moves(f) - Moves(h) + StepsToEntry(f, t, c) == StepsToEntry(h, s, c)
    decreases f
  {
    if f != h {
      var p := Run(n, f.past).value;
      EveryRunCountsDown(n, h, s, f.past, p, c);
      PredecessorsFall(n, f.past, p, f.last, t, c);
      HoldingStep(n, f.past, p, f.last, t);
    }
    WaiterNotDone(n, f, t, c);
  }

  /** A waiter is not the holder, so it has an entry to wait for. */
  lemma {:induction false} WaiterNotDone(n: nat, h: History, s: State, c: nat)
    requires RunsTo(n, h, s) && c < n && s.pc[c] == Waiting
    ensures StepsToEntry(h, s, c) > 0
  {
    RunInv(n, h, s);
    OnlyHeadHolds(s, Queue(h));
    assert c in Queue(h);
  }

  /** In whatever run a waiter gets in, it is let in by just that many entries and grants, its own entry included. */
  lemma {:induction false} EntryAsCounted(n: nat, h: History, s: State, f: History, t: State, c: nat)
    requires RunsTo(n, h, s) && c < n && s.pc[c] == Waiting
    requires WithoutEntry(h, f, c) && RunsTo(n, Then(f, Enter(c)), t)
    ensures Moves(Then(f, Enter(c))) - Moves(h) == StepsToEntry(h, s, c)
  {
    var p := Run(n, f).value;
    EveryRunCountsDown(n, h, s, f, p, c);
    HoldingStep(n, f, p, Enter(c), t);
  }

  /** Two cores, with core 0 inside release and core 1 next in line. */
  lemma ReleaseWindow() returns (h: History, s: State)
    ensures RunsTo(2, h, s)
    ensures s == State([Granted, Pending, Granted], [0, 1], [2, 0], [Releasing, Waiting], 1)
  {
    h, s := Boot, Init(2);
    h, s := Perform(2, h, s, Announce(0));
    h, s := Perform(2, h, s, Enqueue(0));
    h, s := Perform(2, h, s, Enter(0));
    assert s == State([Pending, Granted, Granted], [0, 1], [2, 0], [Holding, Outside], 0);
    h, s := Perform(2, h, s, Announce(1));
    h, s := Perform(2, h, s, Enqueue(1));
    h, s := Perform(2, h, s, Grant(0));
  }

  /** Inside release the self test can be true for a core that is not queued. */
  lemma SelfInQueueInsideRelease() returns (h: History, s: State)
    ensures RunsTo(2, h, s)
    ensures s.pc[0] == Releasing && SelfInQueue(s, 0)
  {
    h, s := ReleaseWindow();
    h, s := Perform(2, h, s, Enter(1));
    h, s := Perform(2, h, s, Grant(1));
    h, s := Perform(2, h, s, Recycle(1));
    h, s := Perform(2, h, s, Announce(1));
  }

  lemma Perform(n: nat, h: History, s: State, e: Event) returns (f: History, t: State)
    requires RunsTo(n, h, s) && Enabled(s, e)
    ensures RunsTo(n, f, t) && f == Then(h, e) && t == Apply(s, e)
  {
    f, t := Then(h, e), Apply(s, e);
  }

  // ---- The lock as the kernel holds it -------------------------------------

  /**
    `big_kernel_lock`.  Each method is one shared access of
    acquire or release; the ghost history is the interleaving so far, so every
    result above about reachable states applies to every object of this class.
   */
  class BigKernelLock {
    const request: array<ReqState>
    const myreq: array<nat>
    const watch: array<nat>
    var tail: nat
    ghost var pc: seq<Pc>
    ghost var history: History

    ghost function View(): State
      reads this, request, myreq, watch
    {
      State(request[..], myreq[..], watch[..], pc, tail)
    }

    ghost predicate Valid()
      reads this, request, myreq, watch
    {
      myreq != watch && RunsTo(|pc|, history, View())
    }

    constructor (n: nat)
      ensures Valid() && fresh(request) && fresh(myreq) && fresh(watch)
      ensures history == Boot && View() == Init(n)
    {
      request := new ReqState[n + 1](_ => Granted);
      myreq := new nat[n](i => i);
      watch := new nat[n](_ => 0);
      tail := n;
      pc := seq(n, _ => Outside);
      history := Boot;
      new;
      assert View() == Init(n);
    }

    method MarkPending(c: nat)
      requires Valid() && c < |pc| && pc[c] == Outside
      modifies this, request
      ensures Valid() && history == Then(old(history), Announce(c))
    {
      ghost var before := View();
      request[myreq[c]] := Pending;
      pc := pc[c := Announced];
      history := Then(history, Announce(c));
      assert View() == Apply(before, Announce(c));
    }

    method ExchangeTail(c: nat)
      requires Valid() && c < |pc| && pc[c] == Announced
      modifies this, watch
      ensures Valid() && history == Then(old(history), Enqueue(c))
    {
      ghost var before := View();
      watch[c], tail := tail, myreq[c];
      pc := pc[c := Waiting];
      history := Then(history, Enqueue(c));
      assert View() == Apply(before, Enqueue(c));
    }

    /** One test of the wait loop's condition. */
    method PollWatch(c: nat) returns (granted: bool)
      requires Valid() && c < |pc| && pc[c] == Waiting
      modifies this
      ensures Valid() && history == Then(old(history), if granted then Enter(c) else Spin(c))
      ensures granted <==> pc[c] == Holding
    {
      ghost var before := View();
      granted := request[watch[c]] == Granted;
      if granted {
        pc := pc[c := Holding];
      }
      ghost var e := if granted then Enter(c) else Spin(c);
      history := Then(history, e);
      assert View() == Apply(before, e);
    }

    method PassLock(c: nat)
      requires Valid() && c < |pc| && pc[c] == Holding
      modifies this, request
      ensures Valid() && history == Then(old(history), Grant(c))
    {
      ghost var before := View();
      request[myreq[c]] := Granted;
      pc := pc[c := Releasing];
      history := Then(history, Grant(c));
      assert View() == Apply(before, Grant(c));
    }

    method TakeWatched(c: nat)
      requires Valid() && c < |pc| && pc[c] == Releasing
      modifies this, myreq
      ensures Valid() && history == Then(old(history), Recycle(c))
    {
      ghost var before := View();
      myreq[c] := watch[c];
      pc := pc[c := Outside];
      history := Then(history, Recycle(c));
      assert View() == Apply(before, Recycle(c));
    }

    method IsSelfInQueue(c: nat) returns (b: bool)
      requires Valid() && c < |pc|
      ensures pc[c] != Releasing ==> (b <==> pc[c] in {Announced, Waiting, Holding})
    {
      SelfInQueueExact(|pc|, history, View(), c);
      b := request[myreq[c]] == Pending;
    }
  }
}
