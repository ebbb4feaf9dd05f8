/** The provider object (src/provider.cc), with the reply handlers it calls back
    (src/hitsuji.cc). Its methods carry out the event-thread steps of the protocol in place. */
module Provider {
  import opened ClientSession
  import opened StreamProtocol

  class Provider {
    const capacity: nat
    var accepting: bool
    var connections: set<Handle>
    var clients: map<Handle, Client>
    var replies: multiset<Job>
    var signal: bool
    var ready: bool

    /** No client object serves two channels. */
    ghost predicate Valid()
      reads this, clients.Values
    {
      && (forall h :: h in clients ==> clients[h].Valid())
      && (forall g, h :: g in clients && h in clients && g != h ==> clients[g] != clients[h])
    }

    /** The object holds the event thread's part of the world. */
    ghost predicate Mirrors(w: World)
      reads this, clients.Values
    {
      && Valid()
      && capacity == w.capacity && accepting == w.phase.Running?
      && connections == w.connections && clients.Keys == w.clients.Keys
      && (forall h :: h in clients ==> clients[h].State() == w.clients[h])
      && replies == w.replies && signal == w.signal && ready == w.ready
    }

    constructor (sessionCapacity: nat)
      ensures Valid() && capacity == sessionCapacity && accepting && connections == {} && clients == map[]
      ensures replies == multiset{} && !signal && !ready
    {
      capacity, accepting, connections, clients := sessionCapacity, true, {}, map[];
      replies, signal, ready := multiset{}, false, false;
    }

    /** A new connection, which the listening socket may yet fail to accept. */
    method OnConnection(h: Handle, accepted: bool, ghost w: World)
      requires Mirrors(w)
      modifies this
      ensures clients == old(clients) && Mirrors(AfterConnect(w, h, accepted))
    {
      hide Client.Valid;
      if !accepting || |connections| == capacity {
        return;
      }
      if accepted {
        connections := connections + {h};
      }
    }

    method AcceptClientSession(h: Handle, initialized: bool, ghost w: World) returns (ok: bool)
      requires Mirrors(w) && h !in clients
      modifies this
      ensures ok == initialized
      ensures Mirrors(if initialized then w.(clients := w.clients[h := NEW_SESSION]) else w)
      ensures fresh(clients.Values - old(clients.Values))
    {
      hide Client.Valid, Balanced;
      if !initialized {
        return false;
      }
      var client := new Client();
      clients := clients[h := client];
      return true;
    }

    method OnActiveClientSession(h: Handle, initialized: bool, ghost w: World)
      requires Mirrors(w) && h !in clients
      modifies this
      ensures Mirrors(AfterActivate(w, h, initialized))
      ensures fresh(clients.Values - old(clients.Values))
    {
      hide Valid;
      assert |clients.Keys| == |w.clients.Keys|;
      assert |clients| == |clients.Keys| && |w.clients| == |w.clients.Keys|;
      if !accepting || |clients| == capacity {
        return;
      }
      var ok := AcceptClientSession(h, initialized, w);
    }

    /** The exception branch of the event loop: connection and session go together. */
    method Remove(h: Handle, ghost w: World)
      requires Mirrors(w)
      modifies this
      ensures Mirrors(Removed(w, h)) && clients.Values <= old(clients.Values)
    {
      hide Client.Valid, Client.State;
      connections := connections - {h};
      if h in clients {
        clients := clients - {h};
        assert clients.Values <= old(clients.Values);
      } else {
        assert w.clients - {h} == w.clients;
      }
    }

    method Dispatch(h: Handle, m: Message, sent: bool, ghost w: World) returns (ok: bool, forwarded: bool)
      requires Mirrors(w) && h in clients
      modifies clients.Values
      ensures var r := OnMessage(w.clients[h], m, w.nextSerial, sent);
              ok == r.ok && forwarded == r.forwarded && Mirrors(w.(clients := w.clients[h := r.session]))
    {
      hide Client.Valid, Balanced, OnMessage;
      ok, forwarded := clients[h].OnMsg(m, w.nextSerial, sent);
    }

    /** A message from a session; one that is not handled aborts the connection. The result
        says whether a task was handed on. */
    method OnMessageFrom(h: Handle, m: Message, sent: bool, ghost w: World) returns (forwarded: bool)
      requires Mirrors(w) && h in clients
      modifies this, clients.Values
      ensures Mirrors(AfterReceive(w, h, m, sent)) && clients.Values <= old(clients.Values)
      ensures forwarded == OnMessage(w.clients[h], m, w.nextSerial, sent).forwarded
    {
      hide Client.Valid, Balanced, OnMessage;
      var ok;
      ok, forwarded := Dispatch(h, m, sent, w);
      if !ok {
        Remove(h, w.(clients := w.clients[h := OnMessage(w.clients[h], m, w.nextSerial, sent).session]));
      }
    }

    method SendReply(h: Handle, token: Token, buffered: bool, submitted: bool, ghost w: World) returns (ok: bool)
      requires Mirrors(w)
      modifies clients.Values
      ensures var r := Answer(w, h, token, buffered, submitted); Mirrors(r.0) && ok == r.1
    {
      hide Client.Valid, Balanced, ClientSession.SendReply;
      if h !in clients {
        return false;
      }
      var client := clients[h];
      ok := client.Reply(token, buffered, submitted);
    }

    /** A reply that was received is taken from the queue and answered. */
    method OnReply(j: Job, buffered: bool, submitted: bool, ghost w: World) returns (ok: bool)
      requires Mirrors(w) && j in replies
      modifies this, clients.Values
      ensures clients == old(clients) && ready == old(ready)
      ensures Mirrors(AfterRead(w, j, buffered, submitted).(ready := ready))
      ensures (ok && replies != multiset{}) == AfterRead(w, j, buffered, submitted).ready
    {
      hide Client.Valid, Balanced, Answer;
      ghost var w1 := w.(replies := replies - multiset{j}, done := w.done + multiset{j}, signal := false);
      signal := false;
      replies := replies - multiset{j};
      assert Mirrors(w1);
      hide Valid;
      ok := SendReply(j.handle, j.token, buffered, submitted, w1);
    }

    /** One turn at the reply socket, each call to which may fail. The result says that more
        replies are known to wait. */
    method OnRead(j: Job, calls: Calls, buffered: bool, submitted: bool, ghost w: World) returns (more: bool)
      requires Mirrors(w) && (replies != multiset{} ==> j in replies)
      modifies this, clients.Values
      ensures clients == old(clients) && ready == old(ready)
      ensures Mirrors(AfterTurn(w, j, calls, buffered, submitted).(ready := ready))
      ensures more == AfterTurn(w, j, calls, buffered, submitted).ready
    {
      hide Client.Valid, Client.State, AfterRead;
      if !calls.polled {
        return false;
      }
      if replies == multiset{} || !calls.received {
        signal := false;
        return false;
      }
      ReadKeeps(w, j, buffered, submitted);
      var ok := OnReply(j, buffered, submitted, w);
      if !ok || !calls.released || !calls.polledAgain {
        return false;
      }
      more := replies != multiset{};
    }

    /** The reply socket's part in a pass of the event loop. */
    method PumpReplies(j: Job, calls: Calls, buffered: bool, submitted: bool, ghost w: World)
      requires Mirrors(w) && ready && (replies != multiset{} ==> j in replies)
      modifies this, clients.Values
      ensures clients == old(clients) && Mirrors(AfterTurn(w, j, calls, buffered, submitted))
    {
      hide Client.Valid, Balanced, AfterTurn;
      var more := OnRead(j, calls, buffered, submitted, w);
      if !more {
        ready := false;
      }
    }

    /** The sessions still `pending` are as they were, the others have ended. */
    ghost predicate Ending(w: World, pending: set<Handle>)
      reads this, clients.Values
    {
      && Valid() && pending <= clients.Keys && clients.Keys == w.clients.Keys
      && forall h :: h in clients ==>
           clients[h].State() == if h in pending then w.clients[h] else CloseSession(w.clients[h])
    }

    method EndSession(h: Handle, sent: bool, ghost w: World, ghost pending: set<Handle>)
      requires Ending(w, pending) && h in pending
      modifies clients.Values
      ensures Ending(w, pending - {h})
    {
      hide Client.Valid, Balanced, CloseSession;
      var ok := clients[h].Close(sent);
    }

    /** The third pass of closing: every session ends, in any order. */
    method EndSessions(sent: bool, ghost w: World)
      requires Mirrors(w)
      modifies clients.Values
      ensures Ending(w, {})
    {
      hide Client.Valid, Balanced, CloseSession;
      var pending := clients.Keys;
      while pending != {}
        invariant Ending(w, pending)
        decreases |pending|
      {
        var h :| h in pending;
        EndSession(h, sent, w, pending);
        pending := pending - {h};
      }
    }

    /** What is left of closing when the drain has ended: the third and the fifth pass, and the
        connections. */
    method CloseSessions(sent: bool, ghost w: World)
      requires Mirrors(w) && !accepting
      modifies this, clients.Values
      ensures clients == map[] && connections == {} && Mirrors(AllClosed(w))
      ensures forall h :: h in old(clients) ==> old(clients)[h].State() == CloseSession(w.clients[h])
    {
      hide Client.Valid, Client.State, CloseSession;
      EndSessions(sent, w);
      clients := map[];
      connections := {};
    }
  }

  /** Which calls to the reply socket succeed: asking for events, receiving, releasing the
      message, and asking again. */
  datatype Calls = Calls(polled: bool, received: bool, released: bool, polledAgain: bool)

  /** The steps that a turn at the reply socket amounts to. A call that fails behind the reply
      has the effect of a further turn that fails. */
  function AfterTurn(w: World, j: Job, calls: Calls, buffered: bool, submitted: bool): World
    requires w.replies != multiset{} ==> j in w.replies
  {
    if !calls.polled then AfterReadFails(w, true)
    else if w.replies == multiset{} || !calls.received then AfterReadFails(w, false)
    else if !calls.released || !calls.polledAgain then AfterReadFails(AfterRead(w, j, buffered, submitted), false)
    else AfterRead(w, j, buffered, submitted)
  }

  /** Every turn is one step of the protocol or two. */
  lemma TurnIsRun(w: World, j: Job, calls: Calls, buffered: bool, submitted: bool) returns (es: seq<Event>)
    requires !w.phase.Closed? && w.ready && (w.replies != multiset{} ==> j in w.replies)
    ensures IsRun(w, es) && After(w, es) == AfterTurn(w, j, calls, buffered, submitted)
  {
    hide AfterRead;
    if !calls.polled {
      es := OneStep(w, ReadFails(true));
    } else if w.replies == multiset{} || !calls.received {
      es := OneStep(w, ReadFails(false));
    } else {
      es := OneStep(w, Read(j, buffered, submitted));
      var w1 := AfterRead(w, j, buffered, submitted);
      assert w1.phase == w.phase && !w1.signal by { ReadKeeps(w, j, buffered, submitted); }
      if !calls.released || !calls.polledAgain {
        if w1.ready {
          var more := OneStep(w1, ReadFails(false));
          es := es + more;
          assert es == [Read(j, buffered, submitted), ReadFails(false)] && es[1..] == more;
        } else {
          assert AfterReadFails(w1, false) == w1;
        }
      }
    }
  }

  lemma ReadKeeps(w: World, j: Job, buffered: bool, submitted: bool)
    requires j in w.replies
    ensures var w1 := AfterRead(w, j, buffered, submitted); w1.phase == w.phase && !w1.signal
  {
  }

  lemma OneStep(w: World, e: Event) returns (es: seq<Event>)
    requires Enabled(w, e)
    ensures es == [e] && IsRun(w, es) && After(w, es) == Step(w, e)
  {
    es := [e];
    assert es[1..] == [] && IsRun(Step(w, e), []);
  }
}
