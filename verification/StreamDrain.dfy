/** The drain of `provider_t::Close` with the workers still running (src/provider.cc:139-177),
    and the delivery of stale replies. */
module StreamDrain {
  import opened ClientSession
  import opened StreamProtocol

  /** Steps by which work gets on: a worker or the event loop does something and nothing fails. */
  ghost predicate Progress(w: World, e: Event) {
    && Enabled(w, e)
    && match e
       case Take(_) => true
       case Finish(_, _) => true
       case Select => w.signal
       case Read(_, buffered, submitted) => buffered && submitted
       case _ => false
  }

  ghost predicate CanProgress(w: World) {
    exists e :: Progress(w, e)
  }

  ghost function IsProgress(w: World, es: seq<Event>): (r: bool)
    ensures r ==> IsRun(w, es)
    decreases |es|
  {
    es == [] || (Progress(w, es[0]) && IsProgress(Step(w, es[0]), es[1..]))
  }

  ghost function Measure(w: World): nat {
    4 * |w.tasks| + 3 * |w.busy| + 2 * |w.replies| + if w.ready then 0 else 1
  }

  lemma Size(a: multiset<Job>, j: Job)
    ensures |a + multiset{j}| == |a| + 1
    ensures j in a ==> |a - multiset{j}| == |a| - 1
  {
    if j in a {
      assert a - multiset{j} + multiset{j} == a;
    }
  }

  lemma ProgressDecreases(w: World, e: Event)
    requires Progress(w, e)
    ensures Measure(Step(w, e)) < Measure(w)
  {
    hide SendReply;
    match e
    case Take(j) => Size(w.tasks, j); Size(w.busy, j);
    case Finish(j, _) => Size(w.busy, j); Size(w.replies, j);
    case Read(j, _, _) => Size(w.replies, j);
    case _ =>
  }

  /** Without failures the drain takes at most `Measure` steps. */
  lemma {:induction false} ProgressBounded(w: World, es: seq<Event>)
    requires IsProgress(w, es)
    ensures |es| <= Measure(w)
    decreases |es|
  {
    hide Step, Enabled, Measure;
    if es != [] {
      ProgressDecreases(w, es[0]);
      ProgressBounded(Step(w, es[0]), es[1..]);
    }
  }

  // ---- When the drain ends ---------------------------------------------------------------

  /** The event loop will learn of the replies that wait. */
  ghost predicate Hears(w: World) {
    w.replies != multiset{} ==> w.signal || w.ready
  }

  /** Some job in flight is for a client that has gone. */
  ghost predicate Orphaned(w: World) {
    exists j :: InFlight(w, j) > 0 && j.handle !in w.clients
  }

  /** The workers run and none of them has failed. */
  ghost predicate Manned(w: World) {
    w.phase.Draining? && w.workers > 0 && w.lost == multiset{}
  }

  lemma ProgressKeeps(w: World, e: Event)
    requires Inv(w) && Manned(w) && Hears(w) && !Orphaned(w) && Progress(w, e)
    ensures var w1 := Step(w, e); Inv(w1) && Manned(w1) && Hears(w1) && !Orphaned(w1)
  {
    StepKeepsInv(w, e);
    hide Inv;
    var w1 := Step(w, e);
    forall j | InFlight(w1, j) > 0 ensures j.handle in w1.clients {
      ProgressFlight(w, e, j);
    }
    if e.Read? {
      assert w.replies[e.job] > 0 && InFlight(w, e.job) > 0;
      hide SendReply;
      assert SendReply(w.clients[e.job.handle], e.job.token, true, true).ok by { ReplySucceeds(w.clients[e.job.handle], e.job.token); }
    }
  }

  lemma ReplySucceeds(s: Session, t: Token)
    ensures SendReply(s, t, true, true).ok
  {
  }

  lemma ProgressFlight(w: World, e: Event, j: Job)
    requires Progress(w, e) && InFlight(Step(w, e), j) > 0
    ensures InFlight(w, j) > 0 && Step(w, e).clients.Keys == w.clients.Keys
  {
    hide SendReply;
  }

  /** As long as a token is active, something can be done. */
  lemma NeverIdle(w: World)
    requires Inv(w) && Manned(w) && Hears(w) && Outstanding(w)
    ensures CanProgress(w)
  {
    var j := InFlightJob(w);
    hide Inv, InFlight, Outstanding;
    if w.busy != multiset{} {
      var i :| i in w.busy;
      assert Progress(w, Finish(i, true));
    } else if w.tasks != multiset{} {
      var i :| i in w.tasks;
      assert Progress(w, Take(i));
    } else if w.ready {
      assert Progress(w, Read(j, true, true));
    } else {
      assert Progress(w, Select);
    }
  }

  lemma InFlightJob(w: World) returns (j: Job)
    requires Inv(w) && w.lost == multiset{} && Outstanding(w)
    ensures j in w.busy || j in w.tasks || j in w.replies
  {
    var h, t :| Waits(w, h, t);
    j := Job(h, t, w.clients[h].streams[t]);
    assert Open(w, j);
  }

  /** A drain that has come as far as it can without failures. */
  ghost function Spent(w: World, es: seq<Event>): (r: bool)
    ensures r ==> IsRun(w, es)
  {
    IsProgress(w, es) && !CanProgress(After(w, es))
  }

  lemma {:induction false} SpentIsDone(w: World, es: seq<Event>)
    requires Inv(w) && Manned(w) && Hears(w) && !Orphaned(w) && Spent(w, es)
    ensures !Outstanding(After(w, es))
    decreases |es|
  {
    hide Step, Enabled, Inv, Hears, Orphaned, Manned, CanProgress, Outstanding;
    if es == [] {
      if Outstanding(w) { NeverIdle(w); }
    } else {
      ProgressKeeps(w, es[0]);
      SpentIsDone(Step(w, es[0]), es[1..]);
    }
  }

  /** Once a closing provider has no token active, none ever becomes active again, whatever
      happens and whatever fails. */
  lemma {:induction false} DoneStaysDone(w: World, es: seq<Event>)
    requires !w.phase.Running? && !Outstanding(w) && IsRun(w, es)
    ensures !Outstanding(After(w, es))
    decreases |es|
  {
    if es != [] {
      forall h, t ensures !Waits(Step(w, es[0]), h, t) {
        if Waits(Step(w, es[0]), h, t) {
          StreamOrigin(w, es[0], h, t);
        }
      }
      hide Step, Enabled;
      DoneStaysDone(Step(w, es[0]), es[1..]);
    }
  }

  // ---- When it does not ------------------------------------------------------------------

  lemma {:induction false} Joined(w: World, a: seq<Event>, b: seq<Event>)
    requires IsProgress(w, a) && IsProgress(After(w, a), b)
    ensures IsProgress(w, a + b) && After(w, a + b) == After(After(w, a), b)
    decreases |a|
  {
    hide Step, Enabled;
    if a == [] {
      assert a + b == b;
    } else {
      assert (a + b)[1..] == a[1..] + b;
      Joined(Step(w, a[0]), a[1..], b);
    }
  }

  /** The workers finish everything before the event loop wakes up once. */
  ghost function Settled(w: World): World {
    w.(tasks := multiset{}, busy := multiset{}, replies := w.replies + w.busy + w.tasks,
       signal := w.signal || (w.replies == multiset{} && w.busy + w.tasks != multiset{}))
  }

  lemma Regroup(a: multiset<Job>, b: multiset<Job>, j: Job)
    requires j in b
    ensures a + multiset{j} + (b - multiset{j}) == a + b
  {
  }

  lemma SettleFinish(w: World, j: Job)
    requires j in w.busy
    ensures var w1 := Step(w, Finish(j, w.replies == multiset{}));
            Settled(w1) == Settled(w) && |w1.busy| == |w.busy| - 1 && w1.tasks == w.tasks && w1.workers == w.workers
  {
    Size(w.busy, j);
    Regroup(w.replies, w.busy, j);
    assert j in w.replies + multiset{j};
    assert j in w.busy + w.tasks;
  }

  lemma SettleTake(w: World, j: Job)
    requires w.busy == multiset{} && j in w.tasks && w.workers > 0
    ensures var w1 := Step(w, Take(j));
            Settled(w1) == Settled(w) && |w1.busy| == 1 && |w1.tasks| == |w.tasks| - 1 && w1.workers == w.workers
  {
    Size(w.tasks, j);
    Size(w.busy, j);
    Regroup(w.replies, w.tasks, j);
    Regroup(multiset{}, w.tasks, j);
    assert w.replies + multiset{} == w.replies && multiset{} + w.tasks == w.tasks && multiset{} + multiset{j} == multiset{j};
  }

  lemma {:induction false} Settle(w: World) returns (es: seq<Event>)
    requires w.workers > 0 && |w.busy| <= w.workers
    ensures IsProgress(w, es) && After(w, es) == Settled(w)
    decreases 2 * |w.tasks| + |w.busy|
  {
    if w.busy != multiset{} {
      var j :| j in w.busy;
      var e := Finish(j, w.replies == multiset{});
      SettleFinish(w, j);
      assert Progress(w, e);
      hide Settled, Step, Enabled;
      var rest := Settle(Step(w, e));
      es := [e] + rest;
    } else if w.tasks != multiset{} {
      var j :| j in w.tasks;
      SettleTake(w, j);
      assert Progress(w, Take(j));
      hide Settled, Step, Enabled;
      var rest := Settle(Step(w, Take(j)));
      es := [Take(j)] + rest;
    } else {
      assert w.replies + w.busy + w.tasks == w.replies;
      es := [];
    }
  }

  lemma SettledHears(w: World, j: Job)
    requires Hears(w) && InFlight(w, j) > 0
    ensures var w1 := Settled(w);
            && j in w1.replies && (w1.ready || w1.signal) && w1.phase == w.phase
  {
    if w.replies == multiset{} { assert j in w.busy + w.tasks; }
  }

  lemma SelectProgress(w: World)
    requires !w.phase.Closed? && !w.ready && w.signal
    ensures Progress(w, Select) && Step(w, Select) == w.(ready := true)
  {
  }

  /** Any job in flight can be the next that the event loop reads. */
  lemma ReadNext(w: World, j: Job) returns (es: seq<Event>)
    requires Inv(w) && w.workers > 0 && Hears(w) && !w.phase.Closed? && InFlight(w, j) > 0
    ensures IsProgress(w, es)
    ensures var w1 := After(w, es); w1.ready && j in w1.replies && w1 == Settled(w).(ready := true)
  {
    assert |w.busy| <= w.workers;
    es := Settle(w);
    var w1 := Settled(w);
    SettledHears(w, j);
    if !w1.ready {
      SelectProgress(w1);
      hide *;
      OneMore(w, es, Select);
      es := es + [Select];
    }
  }

  /** A stale job in flight can be delivered as the answer to the newer request. */
  lemma StaleCanBeDelivered(w: World, j: Job) returns (es: seq<Event>)
    requires Inv(w) && w.workers > 0 && Hears(w) && !w.phase.Closed? && Stale(w, j)
    ensures IsProgress(w, es)
    ensures Enabled(After(w, es), Read(j, true, true)) && Misdelivers(After(w, es), Read(j, true, true))
  {
    es := ReadNext(w, j);
  }

  lemma DeafIsStuck(w: World)
    requires w.tasks == multiset{} && w.busy == multiset{} && !w.signal && !w.ready
    ensures !CanProgress(w)
  {
  }

  /** With replies waiting and the edge already consumed, the drain can get stuck. */
  lemma DeafDrainSticks(w: World) returns (es: seq<Event>)
    requires Inv(w) && Manned(w) && Outstanding(w) && !Hears(w)
    ensures Spent(w, es) && Outstanding(After(w, es))
  {
    es := Settle(w);
    DeafIsStuck(Settled(w));
    StillOutstanding(w, Settled(w));
  }

  /** With a job for a client that has gone, the drain can get stuck: its reply clears the bit
      while the reply to someone else is still waiting. */
  lemma OrphanedDrainSticks(w: World) returns (es: seq<Event>)
    requires Inv(w) && Manned(w) && Outstanding(w) && Hears(w) && Orphaned(w)
    ensures Spent(w, es) && Outstanding(After(w, es))
  {
    var j :| InFlight(w, j) > 0 && j.handle !in w.clients;
    es := ReadNext(w, j);
    var w1 := After(w, es);
    var e := Read(j, true, true);
    OneMore(w, es, e);
    es := es + [e];
    ReadOrphan(w1, j);
    StillOutstanding(w, Step(w1, e));
  }

  lemma OneMore(w: World, es: seq<Event>, e: Event)
    requires IsProgress(w, es) && Progress(After(w, es), e)
    ensures IsProgress(w, es + [e]) && After(w, es + [e]) == Step(After(w, es), e)
  {
    hide Step, Enabled;
    var w1 := After(w, es);
    assert IsProgress(Step(w1, e), []);
    assert [e][1..] == [];
    assert IsProgress(w1, [e]) && After(w1, [e]) == Step(w1, e);
    Joined(w, es, [e]);
  }

  lemma ReadOrphan(w: World, j: Job)
    requires Enabled(w, Read(j, true, true)) && j.handle !in w.clients
    requires w.tasks == multiset{} && w.busy == multiset{}
    ensures Step(w, Read(j, true, true)).clients == w.clients && !CanProgress(Step(w, Read(j, true, true)))
  {
    DeafIsStuck(Step(w, Read(j, true, true)));
  }

  lemma StillOutstanding(w: World, w1: World)
    requires Outstanding(w) && w1.clients == w.clients
    ensures Outstanding(w1)
  {
    var h, t :| Waits(w, h, t);
    assert Waits(w1, h, t);
  }

  /** However the workers and the event loop take turns, the drain ends with no token active. */
  ghost predicate SurelyEnds(w: World) {
    forall es :: Spent(w, es) ==> !Outstanding(After(w, es))
  }

  /** The drain surely ends exactly if the event loop will learn of the waiting replies and no
      job in flight is for a client that has gone. */
  lemma DrainEndsExactlyWhen(w: World)
    requires Inv(w) && Manned(w) && Outstanding(w)
    ensures SurelyEnds(w) <==> Hears(w) && !Orphaned(w)
  {
    hide Inv, Hears, Orphaned, Manned, Outstanding, Spent;
    if !Hears(w) {
      var es := DeafDrainSticks(w);
      assert Spent(w, es);
    } else if Orphaned(w) {
      var es := OrphanedDrainSticks(w);
      assert Spent(w, es);
    } else {
      forall es | Spent(w, es) ensures !Outstanding(After(w, es)) {
        SpentIsDone(w, es);
      }
    }
  }

  /** At the moment of closing: `Close` forgets the bit of the event loop's last pass, so the
      edge must not have been consumed while replies were left. */
  lemma CloseEndsExactlyWhen(w: World)
    requires Inv(w) && w.phase.Running? && w.workers > 0 && w.lost == multiset{} && Outstanding(w)
    ensures SurelyEnds(Step(w, BeginClose))
       <==> (w.replies != multiset{} ==> w.signal) && !Orphaned(w)
  {
    StepKeepsInv(w, BeginClose);
    Closing(w);
    hide *;
    DrainEndsExactlyWhen(Step(w, BeginClose));
  }

  lemma Closing(w: World)
    requires Enabled(w, BeginClose) && Outstanding(w)
    ensures var w1 := Step(w, BeginClose);
            && Outstanding(w1) && (Orphaned(w1) <==> Orphaned(w))
            && (Hears(w1) <==> (w.replies != multiset{} ==> w.signal))
            && w1.phase.Draining? && w1.workers == w.workers && w1.lost == w.lost
  {
    var w1 := Step(w, BeginClose);
    StillOutstanding(w, w1);
    assert Orphaned(w) ==> Orphaned(w1) by {
      if j :| InFlight(w, j) > 0 && j.handle !in w.clients { assert InFlight(w1, j) > 0; }
    }
    assert Orphaned(w1) ==> Orphaned(w) by {
      if j :| InFlight(w1, j) > 0 && j.handle !in w1.clients { assert InFlight(w, j) > 0; }
    }
  }

  // ---- Both failures start from an empty provider ----------------------------------------

  lemma {:induction false} RunsJoined(w: World, a: seq<Event>, b: seq<Event>)
    requires IsRun(w, a) && IsRun(After(w, a), b)
    ensures IsRun(w, a + b) && After(w, a + b) == After(After(w, a), b)
    decreases |a|
  {
    hide Step, Enabled;
    if a == [] {
      assert a + b == b;
    } else {
      assert (a + b)[1..] == a[1..] + b;
      RunsJoined(Step(w, a[0]), a[1..], b);
    }
  }

  /** A client connects, logs in and requests an item. */
  function Opening(h: Handle, t: Token): seq<Event> {
    [Connect(h, true), Activate(h, true), Receive(h, LoginRequest(t, true), true), Receive(h, ItemRequest(t), true)]
  }

  function Opened(w: World, h: Handle, t: Token): World {
    var serial := w.nextSerial + 1;
    var session := NEW_SESSION.(loggedIn := true, loginToken := t, streams := map[t := serial],
                                ledger := NEW_SESSION.ledger.(inserted := multiset{t}));
    w.(connections := w.connections + {h}, clients := w.clients[h := session],
       tasks := w.tasks + multiset{Job(h, t, serial)}, nextSerial := serial + 1)
  }

  lemma TwoSteps(w: World, a: Event, b: Event)
    requires Enabled(w, a) && Enabled(Step(w, a), b)
    ensures IsRun(w, [a, b]) && After(w, [a, b]) == Step(Step(w, a), b)
  {
    hide Step, Enabled;
    assert [a, b][1..] == [b] && [b][1..] == [];
    assert IsRun(Step(Step(w, a), b), []);
    assert IsRun(Step(w, a), [b]) && After(Step(w, a), [b]) == Step(Step(w, a), b);
  }

  function Connected(w: World, h: Handle): World {
    w.(connections := w.connections + {h}, clients := w.clients[h := NEW_SESSION])
  }

  lemma ConnectSteps(w: World, h: Handle)
    requires w.phase.Running? && h !in w.connections && h !in w.clients
    requires |w.connections| < w.capacity && |w.clients| < w.capacity
    ensures Enabled(w, Connect(h, true)) && Enabled(Step(w, Connect(h, true)), Activate(h, true))
    ensures Step(Step(w, Connect(h, true)), Activate(h, true)) == Connected(w, h)
  {
  }

  lemma RequestSteps(w: World, h: Handle, t: Token)
    requires w.phase.Running?
    ensures var login, item := Receive(h, LoginRequest(t, true), true), Receive(h, ItemRequest(t), true);
            && Enabled(Connected(w, h), login) && Enabled(Step(Connected(w, h), login), item)
            && Step(Step(Connected(w, h), login), item) == Opened(w, h, t)
  {
    var w2 := Connected(w, h);
    var w4 := Step(Step(w2, Receive(h, LoginRequest(t, true), true)), Receive(h, ItemRequest(t), true));
    assert multiset{} + multiset{t} == multiset{t};
    assert w4.clients[h] == Opened(w, h, t).clients[h];
    assert w4.clients == Opened(w, h, t).clients;
  }

  lemma OpeningRuns(w: World, h: Handle, t: Token)
    requires w.phase.Running? && h !in w.connections && h !in w.clients
    requires |w.connections| < w.capacity && |w.clients| < w.capacity
    ensures IsRun(w, Opening(h, t)) && After(w, Opening(h, t)) == Opened(w, h, t)
  {
    hide Step, Enabled, Opened, IsRun, After;
    var es := Opening(h, t);
    ConnectSteps(w, h);
    RequestSteps(w, h, t);
    TwoSteps(w, es[0], es[1]);
    TwoSteps(Connected(w, h), es[2], es[3]);
    RunsJoined(w, [es[0], es[1]], [es[2], es[3]]);
    assert [es[0], es[1]] + [es[2], es[3]] == es;
  }

  /** One client leaves its request behind and the provider closes on another. */
  lemma LeavingSteps(w: World, j: Job, h: Handle, t: Token)
    requires w.phase.Running? && w.replies == multiset{}
    requires InFlight(w, j) > 0 && j.handle in w.connections && h != j.handle && Waits(w, h, t)
    ensures Enabled(w, Disconnect(j.handle)) && Enabled(Step(w, Disconnect(j.handle)), BeginClose)
    ensures var w1 := Step(Step(w, Disconnect(j.handle)), BeginClose);
            && w1.phase.Draining? && w1.workers == w.workers && w1.lost == w.lost
            && Hears(w1) && Orphaned(w1) && Outstanding(w1)
  {
    var w1 := Step(Step(w, Disconnect(j.handle)), BeginClose);
    assert Waits(w1, h, t) && InFlight(w1, j) > 0;
  }

  lemma TwoStreams(w: World)
    requires Initial(w) && w.capacity >= 2
    ensures Inv(w) && IsRun(w, Opening(0, 1) + Opening(1, 1))
    ensures After(w, Opening(0, 1) + Opening(1, 1)) == Opened(Opened(w, 0, 1), 1, 1)
  {
    InitialInv(w);
    OpeningRuns(w, 0, 1);
    OpeningRuns(Opened(w, 0, 1), 1, 1);
    hide IsRun, After, Opened;
    RunsJoined(w, Opening(0, 1), Opening(1, 1));
  }

  /** From an empty provider: two clients wait, one disconnects, the provider closes, and
      although nothing fails the drain can get stuck with the other still waiting. */
  lemma DrainCanStick(w: World) returns (es: seq<Event>)
    requires Initial(w) && w.capacity >= 2 && w.workers > 0
    ensures IsRun(w, es) && After(w, es).phase.Draining?
    ensures Outstanding(After(w, es)) && !CanProgress(After(w, es))
  {
    TwoStreams(w);
    es := Opening(0, 1) + Opening(1, 1);
    var w2 := After(w, es);
    assert w2.lost == multiset{} && w2.replies == multiset{} by { InitialEmpty(w); }
    LeavingSteps(w2, Job(0, 1, w.nextSerial + 1), 1, 1);
    hide Step, Enabled, Initial, Opened, IsRun, After, Outstanding, Orphaned, Hears, Inv;
    TwoSteps(w2, Disconnect(0), BeginClose);
    RunsJoined(w, es, [Disconnect(0), BeginClose]);
    es := es + [Disconnect(0), BeginClose];
    RunKeepsInv(w, es);
    var rest := OrphanedDrainSticks(After(w, es));
    SamePhase(After(w, es), rest);
    RunsJoined(w, es, rest);
    es := es + rest;
  }

  lemma InitialEmpty(w: World)
    requires Initial(w)
    ensures w.lost == multiset{} && w.replies == multiset{}
  {
    forall j ensures w.lost[j] == 0 && w.replies[j] == 0 {
      assert Jobs(w, j) == 0;
    }
  }

  lemma {:induction false} SamePhase(w: World, es: seq<Event>)
    requires IsProgress(w, es)
    ensures After(w, es).phase == w.phase
    decreases |es|
  {
    hide SendReply;
    if es != [] {
      assert Step(w, es[0]).phase == w.phase;
      hide Step, Enabled;
      SamePhase(Step(w, es[0]), es[1..]);
    }
  }

  lemma ReopeningSteps(w: World, h: Handle, t: Token)
    requires w.phase.Running? && w.replies == multiset{} && Inv(w)
    requires Waits(w, h, t) && w.clients[h].loggedIn && InFlight(w, Job(h, t, w.clients[h].streams[t])) > 0
    ensures Enabled(w, Receive(h, ItemClose(t), true))
    ensures Enabled(Step(w, Receive(h, ItemClose(t), true)), Receive(h, ItemRequest(t), true))
    ensures var w1 := Step(Step(w, Receive(h, ItemClose(t), true)), Receive(h, ItemRequest(t), true));
            && w1.phase.Running? && w1.workers == w.workers && w1.replies == multiset{}
            && Stale(w1, Job(h, t, w.clients[h].streams[t]))
  {
    var j := Job(h, t, w.clients[h].streams[t]);
    assert Jobs(w, j) > 0;
  }

  /** From an empty provider: a client closes a stream and requests it again under the same
      token, and the answer to the first request is delivered for the second. */
  lemma StaleAnswer(w: World) returns (es: seq<Event>, e: Event)
    requires Initial(w) && w.capacity >= 1 && w.workers > 0
    ensures IsRun(w, es) && Enabled(After(w, es), e) && Misdelivers(After(w, es), e)
  {
    InitialInv(w);
    OpeningRuns(w, 0, 1);
    es := Opening(0, 1);
    RunKeepsInv(w, es);
    var w1 := After(w, es);
    assert w1.replies == multiset{} by { InitialEmpty(w); }
    var j := Job(0, 1, w.nextSerial + 1);
    assert w1.clients[0].streams[1] == j.serial && Waits(w1, 0, 1) && w1.clients[0].loggedIn;
    hide Inv, Initial;
    ReopeningSteps(w1, 0, 1);
    hide *;
    TwoSteps(w1, Receive(0, ItemClose(1), true), Receive(0, ItemRequest(1), true));
    RunsJoined(w, es, [Receive(0, ItemClose(1), true), Receive(0, ItemRequest(1), true)]);
    es := es + [Receive(0, ItemClose(1), true), Receive(0, ItemRequest(1), true)];
    RunKeepsInv(w, es);
    var rest := StaleCanBeDelivered(After(w, es), j);
    RunsJoined(w, es, rest);
    es, e := es + rest, Read(j, true, true);
  }
}
