/** The item-stream protocol as a step system (src/provider.cc, src/hitsuji.cc, src/worker.cc).

    One event thread owns the connections, the sessions and the reply socket; workers take
    tasks and send replies whenever they like. A step is one handler of the event thread or
    one action of a worker; foreign calls succeed or fail as the step says. */
module StreamProtocol {
  import opened ClientSession

  /** The address of an RSSL channel. It may come back after a disconnect. */
  type Handle = nat

  /** A request on its way through the workers; `serial` tells requests apart. */
  datatype Job = Job(handle: Handle, token: Token, serial: nat)

  datatype Phase = Running | Draining | Closed

  /** `ended` remembers the sessions whose client objects are gone. `signal` says that the edge-triggered descriptor of the reply socket is readable, `ready`
      that its bit is set in the event loop's copy of the read set. */
  datatype World = World(
    capacity: nat, phase: Phase,
    connections: set<Handle>, clients: map<Handle, Session>, ended: set<Session>,
    workers: nat,
    tasks: multiset<Job>, busy: multiset<Job>, replies: multiset<Job>,
    lost: multiset<Job>, done: multiset<Job>,
    signal: bool, ready: bool, nextSerial: nat)

  datatype Event =
    | Connect(handle: Handle, accepted: bool)
    | Activate(handle: Handle, initialized: bool)
    | Receive(handle: Handle, message: Message, sent: bool)
    | Disconnect(handle: Handle)
    | Take(job: Job)
    | Finish(job: Job, signalled: bool)
    | Fail(job: Job)
    | Retire
    | Select
    | Read(job: Job, buffered: bool, submitted: bool)
    | ReadFails(signalKept: bool)
    | BeginClose
    | EndClose

  /** How often a job is waiting for a worker, with one, or on its way back. */
  ghost function InFlight(w: World, j: Job): nat {
    w.tasks[j] + w.busy[j] + w.replies[j]
  }

  ghost function Jobs(w: World, j: Job): nat {
    InFlight(w, j) + w.lost[j] + w.done[j]
  }

  ghost predicate Waits(w: World, h: Handle, t: Token) {
    h in w.clients && t in w.clients[h].streams
  }

  /** Some client has an active token. */
  ghost predicate Outstanding(w: World) {
    exists h, t :: Waits(w, h, t)
  }

  // ---- Steps -----------------------------------------------------------------------------

  /** The first reply into an empty socket always raises the edge; later ones may. Client
      sockets are read only while running, for the drain rebuilds the read set without them. */
  ghost predicate Enabled(w: World, e: Event) {
    match e
    case Connect(h, _) => !w.phase.Closed? && h !in w.connections
    case Activate(h, _) => w.phase.Running? && h in w.connections && h !in w.clients
    case Receive(h, _, _) => w.phase.Running? && h in w.clients
    case Disconnect(h) => !w.phase.Closed? && h in w.connections
    case Take(j) => j in w.tasks && |w.busy| < w.workers
    case Finish(j, signalled) => j in w.busy && (w.replies == multiset{} ==> signalled)
    case Fail(j) => j in w.busy
    case Retire => |w.busy| < w.workers
    case Select => !w.phase.Closed? && !w.ready
    case Read(j, _, _) => !w.phase.Closed? && w.ready && j in w.replies
    case ReadFails(_) => !w.phase.Closed? && w.ready
    case BeginClose => w.phase.Running?
    case EndClose => w.phase.Draining? && !Outstanding(w)
  }

  function AfterConnect(w: World, h: Handle, accepted: bool): World {
    if !w.phase.Running? || |w.connections| == w.capacity || !accepted then w
    else w.(connections := w.connections + {h})
  }

  function AfterActivate(w: World, h: Handle, initialized: bool): World {
    if !w.phase.Running? || |w.clients| == w.capacity || !initialized then w
    else w.(clients := w.clients[h := NEW_SESSION])
  }

  /** The client object is destroyed without being closed. */
  function Removed(w: World, h: Handle): World {
    w.(connections := w.connections - {h}, clients := w.clients - {h},
       ended := if h in w.clients then w.ended + {w.clients[h]} else w.ended)
  }

  /** The end of `Close`: every session is closed, then every connection. */
  ghost function AllClosed(w: World): World {
    w.(phase := Closed, connections := {}, clients := map[],
       ended := w.ended + set h | h in w.clients :: CloseSession(w.clients[h]))
  }

  /** An `OnRead` that a failing socket call, or an empty queue, cuts short. The edge is consumed
      unless the first call failed already. */
  function AfterReadFails(w: World, signalKept: bool): World {
    w.(ready := false, signal := w.signal && signalKept)
  }

  /** A handler that reports failure aborts the connection within the same pass. */
  function AfterReceive(w: World, h: Handle, m: Message, sent: bool): World
    requires h in w.clients
  {
    var r := OnMessage(w.clients[h], m, w.nextSerial, sent);
    var w1 := w.(clients := w.clients[h := r.session], nextSerial := w.nextSerial + 1);
    if !r.ok then Removed(w1, h)
    else if r.forwarded then w1.(tasks := w.tasks + multiset{Job(h, m.token, w.nextSerial)})
    else w1
  }

  /** `provider_t::SendReply`, which fails when the client has gone. */
  function Answer(w: World, h: Handle, t: Token, buffered: bool, submitted: bool): (World, bool) {
    if h !in w.clients then (w, false)
    else
      var r := SendReply(w.clients[h], t, buffered, submitted);
      (w.(clients := w.clients[h := r.session]), r.ok)
  }

  /** One `OnRead`. A reply for a client that has gone is a failure like any other, so the bit
      is cleared even when more replies wait. */
  function AfterRead(w: World, j: Job, buffered: bool, submitted: bool): World
    requires j in w.replies
  {
    var rest := w.replies - multiset{j};
    var r := Answer(w.(replies := rest, done := w.done + multiset{j}, signal := false), j.handle, j.token, buffered, submitted);
    r.0.(ready := r.1 && rest != multiset{})
  }

  ghost function Step(w: World, e: Event): World
    requires Enabled(w, e)
  {
    match e
    case Connect(h, accepted) => AfterConnect(w, h, accepted)
    case Activate(h, initialized) => AfterActivate(w, h, initialized)
    case Receive(h, m, sent) => AfterReceive(w, h, m, sent)
    case Disconnect(h) => Removed(w, h)
    case Take(j) => w.(tasks := w.tasks - multiset{j}, busy := w.busy + multiset{j})
    case Finish(j, signalled) =>
      w.(busy := w.busy - multiset{j}, replies := w.replies + multiset{j}, signal := w.signal || signalled)
    case Fail(j) =>
      w.(busy := w.busy - multiset{j}, lost := w.lost + multiset{j}, workers := if w.workers > 0 then w.workers - 1 else 0)
    case Retire => w.(workers := w.workers - 1)
    case Select => w.(ready := w.signal)
    case Read(j, buffered, submitted) => AfterRead(w, j, buffered, submitted)
    case ReadFails(kept) => AfterReadFails(w, kept)
    case BeginClose => w.(phase := Draining, ready := false)
    case EndClose => AllClosed(w)
  }

  ghost predicate IsRun(w: World, es: seq<Event>)
    decreases |es|
  {
    es == [] || (Enabled(w, es[0]) && IsRun(Step(w, es[0]), es[1..]))
  }

  ghost function After(w: World, es: seq<Event>): World
    requires IsRun(w, es)
    decreases |es|
  {
    if es == [] then w else After(Step(w, es[0]), es[1..])
  }

  ghost predicate Initial(w: World) {
    && w.phase.Running? && w.connections == {} && w.clients == map[] && w.ended == {} && (forall j :: Jobs(w, j) == 0)
    && !w.signal && !w.ready
  }

  // ---- What every step keeps -------------------------------------------------------------

  ghost predicate Admitted(w: World) {
    w.clients.Keys <= w.connections && |w.connections| <= w.capacity
  }

  /** The ledger adds up, and no token was dropped by the end of the session. */
  ghost predicate Kept(s: Session) {
    Balanced(s) && s.ledger.dropped == multiset{}
  }

  /** So it is for the sessions there are and for those there were. */
  ghost predicate Accounted(w: World) {
    && (forall h :: h in w.clients ==> Kept(w.clients[h]))
    && (forall s :: s in w.ended ==> Kept(s))
  }

  /** No request is ever in two places, and no two jobs stem from one request. */
  ghost predicate Distinct(w: World) {
    && (forall j :: Jobs(w, j) <= 1)
    && (forall j :: Jobs(w, j) > 0 ==> j.serial < w.nextSerial)
    && (forall i, j :: Jobs(w, i) > 0 && Jobs(w, j) > 0 && i.serial == j.serial ==> i == j)
  }

  /** The very request a client waits on is with a worker, on its way, or was lost by a worker
      that failed. */
  ghost predicate Covered(w: World) {
    forall h, t :: Waits(w, h, t) ==> Open(w, Job(h, t, w.clients[h].streams[t]))
  }

  ghost predicate Open(w: World, j: Job) {
    InFlight(w, j) + w.lost[j] > 0
  }

  ghost predicate Wired(w: World) {
    && |w.busy| <= w.workers
    && (w.signal || w.ready ==> w.replies != multiset{})
  }

  ghost predicate Inv(w: World) {
    Admitted(w) && Accounted(w) && Distinct(w) && Covered(w) && Wired(w)
  }

  lemma StepAdmitted(w: World, e: Event)
    requires Enabled(w, e) && Admitted(w)
    ensures Admitted(Step(w, e))
  {
    match e
    case Disconnect(h) => Shrinks(w.connections, h);
    case Receive(h, _, _) => Shrinks(w.connections, h);
    case _ =>
  }

  lemma Shrinks(s: set<Handle>, h: Handle)
    ensures |s - {h}| <= |s|
  {
    if h in s { assert s == s - {h} + {h}; } else { assert s - {h} == s; }
  }

  lemma StepAccounted(w: World, e: Event)
    requires Enabled(w, e) && Accounted(w)
    ensures Accounted(Step(w, e))
  {
    hide Kept, OnMessage, SendReply, CloseSession, AfterReceive, AfterRead;
    NewKept();
    match e
    case Receive(h, m, sent) => ReceiveAccounted(w, h, m, sent);
    case Read(j, buffered, submitted) => ReadAccounted(w, j, buffered, submitted);
    case EndClose =>
      forall h | h in w.clients ensures Kept(CloseSession(w.clients[h])) {
        ClosedKept(w, h);
      }
    case _ =>
  }

  lemma ReceiveAccounted(w: World, h: Handle, m: Message, sent: bool)
    requires h in w.clients && Accounted(w)
    ensures Accounted(AfterReceive(w, h, m, sent))
  {
    hide Kept, OnMessage;
    MessageKept(w.clients[h], m, w.nextSerial, sent);
    var s := OnMessage(w.clients[h], m, w.nextSerial, sent).session;
    var w1 := AfterReceive(w, h, m, sent);
    assert w1.ended <= w.ended + {s} && forall g :: g in w1.clients ==> g == h || g in w.clients;
  }

  lemma MessageKept(s: Session, m: Message, serial: nat, sent: bool)
    requires Kept(s)
    ensures Kept(OnMessage(s, m, serial, sent).session)
  {
    MessageKeepsBalance(s, m, serial, sent);
    hide Balanced;
  }

  lemma ReadAccounted(w: World, j: Job, buffered: bool, submitted: bool)
    requires j in w.replies && Accounted(w)
    ensures Accounted(AfterRead(w, j, buffered, submitted))
  {
    hide Kept, SendReply;
    if j.handle in w.clients {
      ReplyKept(w.clients[j.handle], j.token, buffered, submitted);
    }
  }

  lemma ReplyKept(s: Session, t: Token, buffered: bool, submitted: bool)
    requires Kept(s)
    ensures Kept(SendReply(s, t, buffered, submitted).session)
  {
    ReplyKeepsBalance(s, t, buffered, submitted);
    hide Balanced;
  }

  /** The drain has ended, so the session has no stream left that its end could drop. */
  lemma ClosedKept(w: World, h: Handle)
    requires Enabled(w, EndClose) && h in w.clients && Kept(w.clients[h])
    ensures Kept(CloseSession(w.clients[h]))
  {
    var s := w.clients[h];
    assert forall t :: t in s.streams ==> Waits(w, h, t);
    assert s.streams.Keys == {};
    CloseKeepsBalance(s);
    hide Balanced;
  }

  lemma NewKept()
    ensures Kept(NEW_SESSION)
  {
    assert multiset(NEW_SESSION.streams.Keys) == multiset{};
  }

  /** The job a step adds: a request that opens a stream and is handed on. */
  ghost function Added(w: World, e: Event, j: Job): nat
    requires Enabled(w, e)
  {
    if e.Receive? && OnMessage(w.clients[e.handle], e.message, w.nextSerial, e.sent).forwarded
         && j == Job(e.handle, e.message.token, w.nextSerial)
    then 1 else 0
  }

  /** Every other step only moves jobs about. */
  lemma JobsMove(w: World, e: Event, j: Job)
    requires Enabled(w, e)
    ensures Jobs(Step(w, e), j) == Jobs(w, j) + Added(w, e, j)
    ensures Added(w, e, j) > 0 ==> Step(w, e).nextSerial == w.nextSerial + 1
    ensures w.nextSerial <= Step(w, e).nextSerial
  {
    hide OnMessage, SendReply, AfterReceive, AfterRead, Jobs;
    match e
    case Receive(h, m, sent) => ReceiveJobs(w, h, m, sent, j);
    case Read(job, buffered, submitted) => ReadJobs(w, job, buffered, submitted, j);
    case _ => QuietJobs(w, e, j);
  }

  lemma ReceiveJobs(w: World, h: Handle, m: Message, sent: bool, j: Job)
    requires h in w.clients
    ensures var w1 := AfterReceive(w, h, m, sent);
            && w1.nextSerial == w.nextSerial + 1
            && Jobs(w1, j) == Jobs(w, j)
               + if OnMessage(w.clients[h], m, w.nextSerial, sent).forwarded && j == Job(h, m.token, w.nextSerial) then 1 else 0
  {
    MessageEffect(w.clients[h], m, w.nextSerial, sent);
    hide OnMessage;
  }

  lemma ReadJobs(w: World, job: Job, buffered: bool, submitted: bool, j: Job)
    requires job in w.replies
    ensures Jobs(AfterRead(w, job, buffered, submitted), j) == Jobs(w, j)
    ensures AfterRead(w, job, buffered, submitted).nextSerial == w.nextSerial
  {
    hide SendReply;
  }

  lemma QuietJobs(w: World, e: Event, j: Job)
    requires Enabled(w, e) && !e.Receive? && !e.Read?
    ensures Jobs(Step(w, e), j) == Jobs(w, j)
    ensures Step(w, e).nextSerial == w.nextSerial
  {
  }

  /** A message leaves each stream as it was, closes it, or opens it; and if it opens one, it
      hands the request on or fails. */
  lemma MessageEffect(s: Session, m: Message, serial: nat, sent: bool)
    ensures var r := OnMessage(s, m, serial, sent);
            && (r.forwarded ==> m.ItemRequest? && r.ok)
            && forall t :: t in r.session.streams ==>
                 || (t in s.streams && r.session.streams[t] == s.streams[t])
                 || (m == ItemRequest(t) && r.session.streams[t] == serial && r.forwarded == r.ok)
  {
  }

  lemma StepDistinct(w: World, e: Event)
    requires Enabled(w, e) && Distinct(w)
    ensures Distinct(Step(w, e))
  {
    hide Jobs, Step, Enabled;
    forall j
      ensures Jobs(Step(w, e), j) == Jobs(w, j) + Added(w, e, j) && w.nextSerial <= Step(w, e).nextSerial
      ensures Added(w, e, j) > 0 ==> Step(w, e).nextSerial == w.nextSerial + 1
    {
      JobsMove(w, e, j);
    }
    hide OnMessage;
  }

  lemma StepCovered(w: World, e: Event)
    requires Enabled(w, e) && Covered(w)
    ensures Covered(Step(w, e))
  {
    hide Step, Enabled, Open;
    forall h, t | Waits(Step(w, e), h, t)
      ensures Open(Step(w, e), Job(h, t, Step(w, e).clients[h].streams[t]))
    {
      if Waits(w, h, t) { assert Open(w, Job(h, t, w.clients[h].streams[t])); }
      StreamCovered(w, e, h, t);
    }
  }

  lemma StreamCovered(w: World, e: Event, h: Handle, t: Token)
    requires Enabled(w, e) && Waits(Step(w, e), h, t)
    requires Waits(w, h, t) ==> Open(w, Job(h, t, w.clients[h].streams[t]))
    ensures Open(Step(w, e), Job(h, t, Step(w, e).clients[h].streams[t]))
  {
    hide Step, Enabled, Open, Added;
    StreamOrigin(w, e, h, t);
    StaysOpen(w, e, Job(h, t, Step(w, e).clients[h].streams[t]));
  }

  /** A stream is there because it was there before and is not the one being answered, or
      because the step opened it and handed its request on. */
  lemma StreamOrigin(w: World, e: Event, h: Handle, t: Token)
    requires Enabled(w, e) && Waits(Step(w, e), h, t)
    ensures var j := Job(h, t, Step(w, e).clients[h].streams[t]);
            || (Waits(w, h, t) && w.clients[h].streams[t] == j.serial && !(e.Read? && e.job == j))
            || Added(w, e, j) > 0
  {
    hide AfterReceive, AfterRead, OnMessage, SendReply;
    match e
    case Receive(h1, m, sent) =>
      ReceiveStreams(w, h1, m, sent, h, t);
    case Read(job, buffered, submitted) =>
      ReadStreams(w, job, buffered, submitted, h, t);
    case _ =>
  }

  lemma ReceiveStreams(w: World, h1: Handle, m: Message, sent: bool, h: Handle, t: Token)
    requires h1 in w.clients && Waits(AfterReceive(w, h1, m, sent), h, t)
    ensures var serial := AfterReceive(w, h1, m, sent).clients[h].streams[t];
            || (Waits(w, h, t) && w.clients[h].streams[t] == serial)
            || (h == h1 && m == ItemRequest(t) && serial == w.nextSerial
                && OnMessage(w.clients[h], m, w.nextSerial, sent).forwarded)
  {
    MessageEffect(w.clients[h1], m, w.nextSerial, sent);
    hide OnMessage;
  }

  lemma ReadStreams(w: World, job: Job, buffered: bool, submitted: bool, h: Handle, t: Token)
    requires job in w.replies && Waits(AfterRead(w, job, buffered, submitted), h, t)
    ensures Waits(w, h, t) && w.clients[h].streams[t] == AfterRead(w, job, buffered, submitted).clients[h].streams[t]
    ensures !(job.handle == h && job.token == t)
  {
  }

  lemma StaysOpen(w: World, e: Event, j: Job)
    requires Enabled(w, e)
    ensures Open(w, j) && !(e.Read? && e.job == j) ==> Open(Step(w, e), j)
    ensures Added(w, e, j) > 0 ==> Open(Step(w, e), j)
  {
    hide OnMessage, SendReply, Added;
    JobsMove(w, e, j);
    assert Step(w, e).done[j] == w.done[j] + if e.Read? && e.job == j then 1 else 0;
  }

  lemma StepWired(w: World, e: Event)
    requires Enabled(w, e) && Wired(w)
    ensures Wired(Step(w, e))
  {
  }

  lemma StepKeepsInv(w: World, e: Event)
    requires Enabled(w, e) && Inv(w)
    ensures Inv(Step(w, e))
  {
    hide Step, Enabled, Admitted, Accounted, Distinct, Covered, Wired;
    StepAdmitted(w, e);
    StepAccounted(w, e);
    StepDistinct(w, e);
    StepCovered(w, e);
    StepWired(w, e);
  }

  lemma {:induction false} RunKeepsInv(w: World, es: seq<Event>)
    requires Inv(w) && IsRun(w, es)
    ensures Inv(After(w, es))
    decreases |es|
  {
    hide Step, Enabled, Inv;
    if es != [] {
      StepKeepsInv(w, es[0]);
      RunKeepsInv(Step(w, es[0]), es[1..]);
    }
  }

  /** Over every run: the connections stay within capacity; the ledger of each session adds up,
      whether it goes on, was cut off or was closed, and none has dropped a token; and while no
      worker has failed the request behind each outstanding token is in flight. */
  lemma RunSafety(w: World, es: seq<Event>, h: Handle, t: Token)
    requires Initial(w) && IsRun(w, es)
    ensures var w1 := After(w, es);
            && |w1.connections| <= w1.capacity
            && (forall s :: s in w1.clients.Values + w1.ended ==> Balanced(s) && s.ledger.dropped == multiset{})
            && (Waits(w1, h, t) && w1.lost == multiset{} ==> InFlight(w1, Job(h, t, w1.clients[h].streams[t])) == 1)
  {
    InitialInv(w);
    RunKeepsInv(w, es);
    hide IsRun, After, Balanced;
    var w1 := After(w, es);
    assert forall s :: s in w1.clients.Values + w1.ended ==> Kept(s) by {
      hide Kept, Distinct, Covered, Wired;
      forall s | s in w1.clients.Values + w1.ended ensures Kept(s) {
        if s !in w1.ended { var g :| g in w1.clients && w1.clients[g] == s; }
      }
    }
    if Waits(w1, h, t) {
      assert Open(w1, Job(h, t, w1.clients[h].streams[t]));
    }
  }

  lemma InitialInv(w: World)
    requires Initial(w)
    ensures Inv(w)
  {
    forall j ensures Jobs(w, j) == 0 && j !in w.busy && j !in w.replies {
    }
    assert w.busy == multiset{};
  }

  /** A session is never turned away for capacity, because its connection was admitted first. */
  lemma SecondCapacityCheckNeverFires(w: World, h: Handle)
    requires Inv(w) && Enabled(w, Activate(h, true))
    ensures |w.clients| < w.capacity && h in Step(w, Activate(h, true)).clients
  {
    assert w.clients.Keys <= w.connections - {h};
    SubsetSize(w.clients.Keys, w.connections - {h});
    assert w.connections == w.connections - {h} + {h};
  }

  lemma {:induction false} SubsetSize(a: set<Handle>, b: set<Handle>)
    requires a <= b
    ensures |a| <= |b|
  {
    if a != {} {
      var x :| x in a;
      SubsetSize(a - {x}, b - {x});
    }
  }

  /** A reply is submitted only to a client that waits on its token, which it then no longer
      does; nothing but the reading of a reply submits one. */
  lemma SubmitsOnlyOutstanding(w: World, e: Event, h: Handle, t: Token)
    requires Enabled(w, e) && h in w.clients && h in Step(w, e).clients
    ensures var before, after := w.clients[h].ledger.submitted[t], Step(w, e).clients[h].ledger.submitted[t];
            if e.Read? && e.job.handle == h && e.job.token == t && e.buffered && e.submitted && Waits(w, h, t)
            then after == before + 1 && !Waits(Step(w, e), h, t)
            else after == before
  {
    match e
    case Read(j, buffered, submitted) => ReadSubmits(w, j, buffered, submitted, h, t);
    case Receive(h1, m, sent) => ReceiveSubmits(w, h1, m, sent, h);
    case EndClose =>
    case _ =>
      hide OnMessage, SendReply;
      assert Step(w, e).clients[h].ledger == w.clients[h].ledger;
  }

  lemma ReadSubmits(w: World, j: Job, buffered: bool, submitted: bool, h: Handle, t: Token)
    requires j in w.replies && h in w.clients
    ensures h in AfterRead(w, j, buffered, submitted).clients
    ensures var w1 := AfterRead(w, j, buffered, submitted);
            var before, after := w.clients[h].ledger.submitted[t], w1.clients[h].ledger.submitted[t];
            if j.handle == h && j.token == t && buffered && submitted && Waits(w, h, t)
            then after == before + 1 && !Waits(w1, h, t)
            else after == before
  {
  }

  lemma ReceiveSubmits(w: World, h1: Handle, m: Message, sent: bool, h: Handle)
    requires h1 in w.clients && h in w.clients && h in AfterReceive(w, h1, m, sent).clients
    ensures AfterReceive(w, h1, m, sent).clients[h].ledger.submitted == w.clients[h].ledger.submitted
  {
    MessageSubmits(w.clients[h1], m, w.nextSerial, sent);
    hide OnMessage;
  }

  lemma MessageSubmits(s: Session, m: Message, serial: nat, sent: bool)
    ensures OnMessage(s, m, serial, sent).session.ledger.submitted == s.ledger.submitted
  {
  }

  // ---- Who is connected, and when replies are read -----------------------------------------

  /** Nothing could be sent in answer to a message that asks for an answer. */
  predicate Unanswered(s: Session, m: Message, sent: bool) {
    && !sent && !(m.ItemClose? || m.LoginClose? || m.OtherClose?)
    && !(m.ItemRequest? && s.loggedIn && m.token in s.streams)
  }

  /** A connection comes by being accepted while the provider runs below capacity, and goes by
      a disconnect, by an answer that could not be sent, or with the provider. */
  lemma ConnectionsAfter(w: World, e: Event, h: Handle)
    requires Enabled(w, e)
    ensures h in Step(w, e).connections <==>
      match e
      case Connect(g, accepted) => h in w.connections || (g == h && accepted && w.phase.Running? && |w.connections| != w.capacity)
      case Disconnect(g) => h in w.connections && g != h
      case Receive(g, m, sent) => h in w.connections && !(g == h && Unanswered(w.clients[g], m, sent))
      case EndClose => false
      case _ => h in w.connections
  {
    hide OnMessage, SendReply;
    if e.Receive? { AbortsExactlyWhen(w.clients[e.handle], e.message, w.nextSerial, e.sent); }
  }

  /** A session begins on a connection that was initialized below capacity, and ends with its
      connection. */
  lemma ClientsAfter(w: World, e: Event, h: Handle)
    requires Enabled(w, e)
    ensures h in Step(w, e).clients <==>
      match e
      case Activate(g, initialized) => h in w.clients || (g == h && initialized && |w.clients| != w.capacity)
      case Disconnect(g) => h in w.clients && g != h
      case Receive(g, m, sent) => h in w.clients && !(g == h && Unanswered(w.clients[g], m, sent))
      case EndClose => false
      case _ => h in w.clients
  {
    hide OnMessage, SendReply;
    if e.Receive? { AbortsExactlyWhen(w.clients[e.handle], e.message, w.nextSerial, e.sent); }
  }

  /** The edge is raised by finished requests alone and consumed by the first read. A pass over
      the read set takes it up as the ready bit, which stays only while replies are left and the
      last one did not fail: it fails when its client has gone or could not be sent its answer. */
  lemma EdgeAfter(w: World, e: Event)
    requires Enabled(w, e)
    ensures Step(w, e).signal <==>
      match e
      case Finish(_, signalled) => w.signal || signalled
      case Read(_, _, _) => false
      case ReadFails(kept) => w.signal && kept
      case _ => w.signal
    ensures Step(w, e).ready <==>
      match e
      case Select => w.signal
      case Read(j, buffered, submitted) =>
        w.replies != multiset{j} && j.handle in w.clients && (j.token in w.clients[j.handle].streams ==> buffered && submitted)
      case ReadFails(_) => false
      case BeginClose => false
      case _ => w.ready
  {
    match e
    case Read(j, buffered, submitted) => ReadEdge(w, j, buffered, submitted);
    case _ => hide OnMessage, SendReply;
  }

  lemma ReadEdge(w: World, j: Job, buffered: bool, submitted: bool)
    requires j in w.replies
    ensures var w1 := AfterRead(w, j, buffered, submitted);
            && !w1.signal
            && (w1.ready <==> w.replies != multiset{j} && j.handle in w.clients && (j.token in w.clients[j.handle].streams ==> buffered && submitted))
  {
    assert w.replies == w.replies - multiset{j} + multiset{j};
    assert w.replies - multiset{j} == multiset{} <==> w.replies == multiset{j};
  }

  // ---- Logging in ------------------------------------------------------------------------

  /** A well-formed login of the client was answered, and its session has not begun anew since. */
  ghost predicate LoggedInSince(es: seq<Event>, h: Handle) {
    exists i :: 0 <= i < |es| && IsLogin(es[i], h) && forall j :: i < j < |es| ==> !Begins(es[j], h)
  }

  predicate IsLogin(e: Event, h: Handle) {
    e.Receive? && e.handle == h && e.sent && e.message.LoginRequest? && e.message.wellFormed
  }

  predicate Begins(e: Event, h: Handle) {
    e.Activate? && e.handle == h && e.initialized
  }

  ghost predicate EverLoggedIn(es: seq<Event>, h: Handle) {
    exists i :: 0 <= i < |es| && IsLogin(es[i], h)
  }

  predicate Entered(s: Session) {
    s.loggedIn || s.streams != map[]
  }

  /** Sessions that are logged in or wait for replies have logged in, and the clients of all jobs
      have some time. */
  ghost predicate Authorised(w: World, es: seq<Event>) {
    && (forall h :: h in w.clients && Entered(w.clients[h]) ==> LoggedInSince(es, h))
    && (forall j :: Jobs(w, j) > 0 ==> EverLoggedIn(es, j.handle))
  }

  /** A session that is logged in or waits for replies after a step did so before, unless the
      step is its login; a session that begins does neither. */
  lemma SessionOrigin(w: World, e: Event, h: Handle)
    requires Enabled(w, e) && h in Step(w, e).clients && Entered(Step(w, e).clients[h])
    ensures IsLogin(e, h) || (!Begins(e, h) && h in w.clients && Entered(w.clients[h]))
  {
    hide OnMessage, SendReply, AfterReceive, AfterRead, IsLogin, Entered;
    match e
    case Receive(g, m, sent) => ReceiveOrigin(w, g, m, sent, h);
    case Read(j, buffered, submitted) => ReadOrigin(w, j, buffered, submitted, h);
    case Activate(g, initialized) => NewEntered();
    case EndClose =>
    case _ =>
  }

  lemma NewEntered()
    ensures !Entered(NEW_SESSION)
  {
  }

  lemma ReceiveOrigin(w: World, g: Handle, m: Message, sent: bool, h: Handle)
    requires g in w.clients && h in AfterReceive(w, g, m, sent).clients && Entered(AfterReceive(w, g, m, sent).clients[h])
    ensures h in w.clients && (IsLogin(Receive(g, m, sent), h) || Entered(w.clients[h]))
  {
    hide OnMessage;
    var r := OnMessage(w.clients[g], m, w.nextSerial, sent);
    assert AfterReceive(w, g, m, sent).clients[h] == if g == h then r.session else w.clients[h];
    if g == h {
      LoginAfterMessage(w.clients[h], m, w.nextSerial, sent);
      if r.session.streams != map[] {
        var t :| t in r.session.streams;
        StreamsAfterMessage(w.clients[h], m, w.nextSerial, sent, t);
      }
    }
  }

  lemma ReadOrigin(w: World, j: Job, buffered: bool, submitted: bool, h: Handle)
    requires j in w.replies && h in AfterRead(w, j, buffered, submitted).clients
    requires Entered(AfterRead(w, j, buffered, submitted).clients[h])
    ensures h in w.clients && Entered(w.clients[h])
  {
    hide SendReply;
    if j.handle == h && h in w.clients {
      var r := SendReply(w.clients[h], j.token, buffered, submitted).session;
      assert AfterRead(w, j, buffered, submitted).clients[h] == r;
      StreamsAfterReply(w.clients[h], j.token, buffered, submitted, j.token);
      if r.streams != map[] {
        var t :| t in r.streams;
        StreamsAfterReply(w.clients[h], j.token, buffered, submitted, t);
      }
    }
  }

  lemma StaysLoggedIn(es: seq<Event>, e: Event, h: Handle)
    ensures IsLogin(e, h) || (LoggedInSince(es, h) && !Begins(e, h)) ==> LoggedInSince(es + [e], h)
    ensures IsLogin(e, h) || EverLoggedIn(es, h) ==> EverLoggedIn(es + [e], h)
    ensures LoggedInSince(es, h) ==> EverLoggedIn(es, h)
  {
    var es1 := es + [e];
    if IsLogin(e, h) {
      assert es1[|es|] == e;
    } else {
      if EverLoggedIn(es, h) {
        var i :| 0 <= i < |es| && IsLogin(es[i], h);
        assert es1[i] == es[i];
      }
      if LoggedInSince(es, h) && !Begins(e, h) {
        var i :| 0 <= i < |es| && IsLogin(es[i], h) && forall j :: i < j < |es| ==> !Begins(es[j], h);
        assert es1[i] == es[i];
        forall j | i < j < |es1| ensures !Begins(es1[j], h) {
          if j < |es| { assert es1[j] == es[j]; }
        }
      }
    }
  }

  lemma StepAuthorised(w: World, past: seq<Event>, e: Event)
    requires Enabled(w, e) && Authorised(w, past)
    ensures Authorised(Step(w, e), past + [e])
  {
    var w1 := Step(w, e);
    forall h | h in w1.clients && Entered(w1.clients[h])
      ensures LoggedInSince(past + [e], h)
    {
      SessionOrigin(w, e, h);
      hide Step, Enabled, LoggedInSince, EverLoggedIn, IsLogin, Begins;
      StaysLoggedIn(past, e, h);
    }
    forall j | Jobs(w1, j) > 0 ensures EverLoggedIn(past + [e], j.handle) {
      JobsMove(w, e, j);
      if Added(w, e, j) > 0 { HandedOnExactlyWhen(w.clients[e.handle], e.message, w.nextSerial, e.sent); }
      hide Step, Enabled, LoggedInSince, EverLoggedIn, IsLogin, Begins;
      StaysLoggedIn(past, e, j.handle);
    }
  }

  lemma {:induction false} RunAuthorised(w: World, past: seq<Event>, es: seq<Event>)
    requires IsRun(w, es) && Authorised(w, past)
    ensures Authorised(After(w, es), past + es)
    decreases |es|
  {
    hide Step, Enabled, Authorised;
    if es == [] {
      assert past + es == past;
    } else {
      StepAuthorised(w, past, es[0]);
      RunAuthorised(Step(w, es[0]), past + [es[0]], es[1..]);
      assert past + [es[0]] + es[1..] == past + es;
    }
  }

  /** Over every run: only a client whose present session has logged in waits for replies, and no
      task, reply or finished request stems from a client that never did. */
  lemma OnlyLoggedInServed(w: World, es: seq<Event>, h: Handle, t: Token, j: Job)
    requires Initial(w) && IsRun(w, es)
    ensures Waits(After(w, es), h, t) ==> LoggedInSince(es, h)
    ensures Jobs(After(w, es), j) > 0 ==> EverLoggedIn(es, j.handle)
  {
    RunAuthorised(w, [], es);
    assert [] + es == es;
    hide IsRun, After, LoggedInSince, EverLoggedIn;
    if Waits(After(w, es), h, t) { assert Entered(After(w, es).clients[h]); }
  }

  // ---- Whose answer a reply is -----------------------------------------------------------

  /** A job in flight for a stream that is open again was made by another request. */
  ghost predicate Stale(w: World, j: Job) {
    InFlight(w, j) > 0 && Waits(w, j.handle, j.token) && w.clients[j.handle].streams[j.token] != j.serial
  }

  ghost predicate Fresh(w: World) {
    forall j :: !Stale(w, j)
  }

  /** A stream is opened while a job of the same channel and token is still in flight. */
  ghost predicate Reuses(w: World, e: Event)
    requires Enabled(w, e)
  {
    && e.Receive? && e.message.ItemRequest?
    && OnMessage(w.clients[e.handle], e.message, w.nextSerial, e.sent).forwarded
    && exists j :: InFlight(w, j) > 0 && j.handle == e.handle && j.token == e.message.token
  }

  /** The reply that is submitted was computed for another request than the one it answers. */
  ghost predicate Misdelivers(w: World, e: Event) {
    e.Read? && Stale(w, e.job)
  }

  /** From a state without stale jobs, a step leads to one with stale jobs exactly if it reuses
      a token too early. */
  lemma FreshStep(w: World, e: Event)
    requires Enabled(w, e) && Inv(w) && Fresh(w)
    ensures Fresh(Step(w, e)) <==> !Reuses(w, e)
  {
    hide Step, Enabled, Inv, InFlight, Stale, OnMessage;
    if Reuses(w, e) {
      var j :| InFlight(w, j) > 0 && j.handle == e.handle && j.token == e.message.token;
      TooEarly(w, e, j);
    } else {
      forall j ensures !Stale(Step(w, e), j) {
        StaysFresh(w, e, j);
      }
    }
  }

  lemma TooEarly(w: World, e: Event, j: Job)
    requires Enabled(w, e) && Inv(w) && Reuses(w, e)
    requires InFlight(w, j) > 0 && j.handle == e.handle && j.token == e.message.token
    ensures Stale(Step(w, e), j)
  {
    assert Jobs(w, j) > 0;
    ReceiveJobs(w, e.handle, e.message, e.sent, j);
    hide Inv;
  }

  lemma StaysFresh(w: World, e: Event, j: Job)
    requires Enabled(w, e) && !Stale(w, j) && !Reuses(w, e)
    ensures !Stale(Step(w, e), j)
  {
    if Stale(Step(w, e), j) {
      hide Step, Enabled, OnMessage, Stale;
      assert Waits(Step(w, e), j.handle, j.token) && InFlight(Step(w, e), j) > 0 by { StaleMeans(Step(w, e), j); }
      StreamOrigin(w, e, j.handle, j.token);
      FlightOrigin(w, e, j);
      StaleMeans(w, j);
    }
  }

  lemma StaleMeans(w: World, j: Job)
    ensures Stale(w, j) <==>
      InFlight(w, j) > 0 && Waits(w, j.handle, j.token) && w.clients[j.handle].streams[j.token] != j.serial
  {
  }

  /** Nothing comes into flight but the job the step adds. */
  lemma FlightOrigin(w: World, e: Event, j: Job)
    requires Enabled(w, e) && InFlight(Step(w, e), j) > 0
    ensures InFlight(w, j) > 0 || Added(w, e, j) > 0
  {
    hide OnMessage, SendReply, Added;
    JobsMove(w, e, j);
    assert Step(w, e).done[j] >= w.done[j] && Step(w, e).lost[j] >= w.lost[j];
  }

  ghost predicate NeverReuses(w: World, es: seq<Event>)
    requires IsRun(w, es)
    decreases |es|
  {
    es == [] || (!Reuses(w, es[0]) && NeverReuses(Step(w, es[0]), es[1..]))
  }

  /** When no token is reused while an old job of it is in flight, every reply of the run
      answers the request it was computed for. */
  lemma {:induction false} EveryAnswerIsOwn(w: World, es: seq<Event>, e: Event)
    requires Inv(w) && Fresh(w) && IsRun(w, es) && NeverReuses(w, es)
    ensures !Misdelivers(After(w, es), e)
    decreases |es|
  {
    hide Step, Enabled, Inv, Reuses, Stale;
    if es != [] {
      StepKeepsInv(w, es[0]);
      FreshStep(w, es[0]);
      EveryAnswerIsOwn(Step(w, es[0]), es[1..], e);
    }
  }
}
