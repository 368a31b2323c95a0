/** A client and a server: the invariant can be met, and a call and its reply can go ahead. */
module FastpathExample {
  import opened CSpace
  import opened KernelObjects
  import opened Fastpath

  /** Thread 1, the client, runs on context 1; thread 2, the server, waits at endpoint 1 with reply object 1. */
  function Client(): Tcb {
    Tcb(Running, NULL, NULL, 1, 10, NULL, NULL, NullCap, 0, false, true, false)
  }

  function Server(): Tcb {
    Tcb(BlockedOnReceive, 1, 1, NULL, 10, NULL, NULL, NullCap, 0, false, true, false)
  }

  function Start(): World {
    World(
      Kernel(
        1,
        map[1 := Client(), 2 := Server()],
        map[1 := ReplyObj(2, Link(NULL, false), Link(NULL, false))],
        map[1 := SchedContext(1, NULL)],
        map[1 := Endpoint(Recv, 2, 2)]),
      Shadow(map[1 := []], map[1 := [2]], map[2 := 0], 1))
  }

  lemma StartQueue()
    ensures EndpointOk(Start().k, Start().v, 1)
  {
    var q: seq<Ref> := [2];
    assert Before(q, 1) == 2 && After(q, 1) == NULL && After(q, 0) == 2;
  }

  lemma StartInv()
    ensures Inv(Start())
  {
    StartQueue();
    var k, v := Start().k, Start().v;
    assert ContextOk(k, v, 1);
    assert ChainsOk(k, v);
    assert QueuesOk(k, v);
  }

  /** The client can call, the server then runs on the client's context, and can reply. */
  lemma CallThenReply()
    ensures Inv(Start()) && Enabled(Start().k, Call(1))
    ensures Inv(CallStep(Start(), 1)) && CallStep(Start(), 1).k.cur == 2
    ensures Enabled(CallStep(Start(), 1).k, ReplyRecv(1, 1))
    ensures Inv(ReplyRecvStep(CallStep(Start(), 1), 1, 1)) && ReplyRecvStep(CallStep(Start(), 1), 1, 1).k.cur == 1
  {
    StartInv();
    CallInvariant(Start(), 1);
    ReplyRecvInvariant(CallStep(Start(), 1), 1, 1);
  }
}
