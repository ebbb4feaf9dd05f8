/** Creation of a singleton by any number of threads (src/chromium/memory/singleton.hh,
    src/chromium/memory/singleton.cc).

    Each atomic access of `get` is one step of one thread, under sequential consistency. */
module Singleton {

  /** The value of `instance_`: 0, the marker of an object being created, or its address. */
  type Word = nat

  const MARKER: Word := 1

  predicate IsPointer(w: Word) {
    w != 0 && w != MARKER
  }

  /** Where objects come from: the heap, or one static buffer that is used only once. */
  datatype Traits = Heap | StaticMemory(buffer: Word)

  type Tid = nat

  /** How far a thread has come in `get`. */
  datatype Progress =
    | Idle
    | Entered
    | Missed
    | Creating
    | Built(newval: Word)
    | Waiting
    | Done(result: Word)

  /** A finished call, with the number of exits that came before it. */
  datatype Call = Call(epoch: nat, result: Word)

  datatype State = State(
    traits: Traits,
    instance: Word,
    dead: bool,
    threads: map<Tid, Progress>,
    epoch: nat,
    calls: seq<Call>,
    constructed: nat)

  datatype Event =
    | Enter(t: Tid)
    | FastLoad(t: Tid)
    | CompareAndSwap(t: Tid)
    | New(t: Tid, address: Word)
    | Publish(t: Tid)
    | Spin(t: Tid)
    | Return(t: Tid)
    | OnExit

  function At(s: State, t: Tid): Progress {
    if t in s.threads then s.threads[t] else Idle
  }

  function Move(s: State, t: Tid, p: Progress): State {
    s.(threads := s.threads[t := p])
  }

  /** A call ends with its result. */
  function Finish(s: State, t: Tid, result: Word): State {
    Move(s, t, Done(result)).(calls := s.calls + [Call(s.epoch, result)])
  }

  predicate Creates(s: State, t: Tid) {
    At(s, t).Creating? || At(s, t).Built?
  }

  /** On the heap, `OnExit` must be called while no other thread uses the singleton. In static
      memory stray calls may be under way, so long as none is creating the object. */
  predicate Enabled(s: State, e: Event) {
    match e
    case Enter(t) => At(s, t).Idle?
    case FastLoad(t) => At(s, t).Entered?
    case CompareAndSwap(t) => At(s, t).Missed?
    case New(t, address) => At(s, t).Creating? && IsPointer(address)
    case Publish(t) => At(s, t).Built?
    case Spin(t) => At(s, t).Waiting?
    case Return(t) => At(s, t).Done?
    case OnExit =>
      forall t :: t in s.threads ==> if s.traits.Heap? then s.threads[t].Idle? else !Creates(s, t)
  }

  function Step(s: State, e: Event): State
    requires Enabled(s, e)
  {
    match e
    case Enter(t) => Move(s, t, Entered)
    case FastLoad(t) =>
      if IsPointer(s.instance) then Finish(s, t, s.instance) else Move(s, t, Missed)
    case CompareAndSwap(t) =>
      if s.instance == 0 then Move(s, t, Creating).(instance := MARKER) else Move(s, t, Waiting)
    case New(t, address) =>
      if s.traits.Heap? then Move(s, t, Built(address)).(constructed := s.constructed + 1)
      else if s.dead then Move(s, t, Built(0))
      else Move(s, t, Built(s.traits.buffer)).(dead := true, constructed := s.constructed + 1)
    case Publish(t) => Finish(s, t, At(s, t).newval).(instance := At(s, t).newval)
    case Spin(t) => if s.instance == MARKER then s else Finish(s, t, s.instance)
    case Return(t) => Move(s, t, Idle)
    case OnExit => s.(instance := 0, dead := s.dead || s.traits.StaticMemory?, epoch := s.epoch + 1)
  }

  predicate IsRun(s: State, es: seq<Event>)
    decreases |es|
  {
    es == [] || (Enabled(s, es[0]) && IsRun(Step(s, es[0]), es[1..]))
  }

  function After(s: State, es: seq<Event>): State
    requires IsRun(s, es)
    decreases |es|
  {
    if es == [] then s else After(Step(s, es[0]), es[1..])
  }

  ghost predicate Initial(s: State) {
    && s.instance == 0 && !s.dead && s.threads == map[] && s.epoch == 0 && s.calls == [] && s.constructed == 0
    && (s.traits.StaticMemory? ==> IsPointer(s.traits.buffer))
  }

  // ---- What every step keeps -------------------------------------------------------------

  ghost predicate SomeoneCreates(s: State) {
    exists t :: Creates(s, t)
  }

  /** The marker stands exactly while some thread creates the object, and only one does. */
  ghost predicate Exclusive(s: State) {
    && (s.instance == MARKER <==> SomeoneCreates(s))
    && (forall t, u :: Creates(s, t) && Creates(s, u) ==> t == u)
  }

  /** While objects can still be made: always on the heap, and before the first exit in static
      memory. */
  predicate Live(s: State) {
    s.traits.Heap? || s.epoch == 0
  }

  /** Every call of this epoch returned what is still the instance, and no one waits for an
      object that no one makes. */
  ghost predicate Settled(s: State) {
    && (forall i :: 0 <= i < |s.calls| ==> s.calls[i].epoch <= s.epoch)
    && if Live(s) then
         && (forall i :: 0 <= i < |s.calls| && s.calls[i].epoch == s.epoch ==>
               s.calls[i].result == s.instance && IsPointer(s.instance))
         && (forall t :: At(s, t).Built? ==> IsPointer(At(s, t).newval))
         && (forall t :: At(s, t).Waiting? ==> s.instance != 0)
       else
         && s.dead && !IsPointer(s.instance)
         && (forall i :: 0 <= i < |s.calls| && s.calls[i].epoch == s.epoch ==> s.calls[i].result == 0)
         && (forall t :: At(s, t).Built? ==> At(s, t).newval == 0)
  }

  ghost predicate SomeoneBuilt(s: State) {
    exists t :: At(s, t).Built?
  }

  /** The static buffer is built in once, by whoever found the mark of death unset. */
  ghost predicate UsedOnce(s: State) {
    s.traits.StaticMemory? ==>
      && IsPointer(s.traits.buffer)
      && s.constructed <= 1
      && (s.epoch == 0 ==> (s.dead <==> IsPointer(s.instance) || SomeoneBuilt(s)) && (s.dead <==> s.constructed == 1))
  }

  /** Calls of one epoch agree; with static memory those after an exit return NULL. */
  ghost predicate PastAgreed(s: State) {
    && (forall i, j :: 0 <= i < |s.calls| && 0 <= j < |s.calls| && s.calls[i].epoch == s.calls[j].epoch ==>
          s.calls[i].result == s.calls[j].result)
    && (forall i :: 0 <= i < |s.calls| ==>
          if s.traits.Heap? || s.calls[i].epoch == 0 then IsPointer(s.calls[i].result) else s.calls[i].result == 0)
  }

  ghost predicate Inv(s: State) {
    Exclusive(s) && Settled(s) && UsedOnce(s) && PastAgreed(s)
  }

  /** A step changes where one thread is, if any; an exit finds none creating, and on the heap all
      outside. */
  lemma OthersStay(s: State, e: Event)
    requires Enabled(s, e)
    ensures forall t :: e.OnExit? || e.t != t ==> At(Step(s, e), t) == At(s, t)
    ensures e.OnExit? ==> forall t :: !Creates(s, t) && (s.traits.Heap? ==> At(s, t).Idle?)
    ensures !e.OnExit? && e.t in s.threads ==> s.threads[e.t] == At(s, e.t)
  {
  }

  /** The thread that creates the object, if the marker stands. */
  lemma Creator(s: State) returns (u: Tid)
    requires Exclusive(s) && s.instance == MARKER
    ensures Creates(s, u) && forall t :: Creates(s, t) ==> t == u
  {
    u :| Creates(s, u);
  }

  /** A thread becomes the creator by winning the swap and ceases to be it by publishing. */
  lemma CreatorsAfter(s: State, e: Event, t: Tid)
    requires Enabled(s, e)
    ensures Creates(Step(s, e), t)
       <==> if e == CompareAndSwap(t) && s.instance == 0 then true else Creates(s, t) && e != Publish(t)
  {
  }

  lemma CreatorHoldsMarker(s: State, t: Tid)
    requires Exclusive(s) && Creates(s, t)
    ensures s.instance == MARKER && forall u :: Creates(s, u) ==> u == t
  {
  }

  lemma StepExclusive(s: State, e: Event)
    requires Enabled(s, e) && Inv(s)
    ensures Exclusive(Step(s, e))
  {
    var s1 := Step(s, e);
    forall t ensures Creates(s1, t)
      <==> if e == CompareAndSwap(t) && s.instance == 0 then true else Creates(s, t) && e != Publish(t)
    {
      CreatorsAfter(s, e, t);
    }
    if e.Publish? {
      CreatorHoldsMarker(s, e.t);
    } else if e.OnExit? {
      OthersStay(s, e);
    }
    if s.instance == MARKER {
      var u := Creator(s);
      assert e != Publish(u) ==> Creates(s1, u);
    } else if e.CompareAndSwap? && s.instance == 0 {
      assert Creates(s1, e.t);
    }
  }

  lemma NothingBuiltYet(s: State, t: Tid)
    requires Exclusive(s) && At(s, t).Creating?
    ensures s.instance == MARKER && !SomeoneBuilt(s)
  {
    CreatorHoldsMarker(s, t);
    if u :| At(s, u).Built? {
      assert Creates(s, u);
    }
  }

  lemma StepSettled(s: State, e: Event)
    requires Enabled(s, e) && Inv(s)
    ensures Settled(Step(s, e))
  {
    OthersStay(s, e);
    if e.New? || e.Publish? { CreatorHoldsMarker(s, e.t); }
    if e.New? { NothingBuiltYet(s, e.t); }
    hide SomeoneCreates, PastAgreed;
  }

  lemma BuiltStays(s: State, e: Event)
    requires Enabled(s, e) && !e.New? && !e.Publish?
    ensures SomeoneBuilt(Step(s, e)) <==> SomeoneBuilt(s)
  {
    forall t ensures At(Step(s, e), t).Built? <==> At(s, t).Built? {
    }
    if t :| At(s, t).Built? { assert At(Step(s, e), t).Built?; }
    if t :| At(Step(s, e), t).Built? { assert At(s, t).Built?; }
  }

  lemma StepUsedOnce(s: State, e: Event)
    requires Enabled(s, e) && Inv(s)
    ensures UsedOnce(Step(s, e))
  {
    var s1 := Step(s, e);
    OthersStay(s, e);
    if e.New? || e.Publish? {
      CreatorHoldsMarker(s, e.t);
      forall t | At(s, t).Built? ensures t == e.t {
        assert Creates(s, t);
      }
      if e.New? { assert At(s1, e.t).Built?; }
    } else {
      BuiltStays(s, e);
    }
  }

  lemma StepPastAgreed(s: State, e: Event)
    requires Enabled(s, e) && Inv(s)
    ensures PastAgreed(Step(s, e))
  {
    if e.New? || e.Publish? { assert Creates(s, e.t); }
  }

  lemma StepKeepsInv(s: State, e: Event)
    requires Enabled(s, e) && Inv(s)
    ensures Inv(Step(s, e))
  {
    hide Step, Enabled, Exclusive, Settled, UsedOnce, PastAgreed;
    StepExclusive(s, e);
    StepSettled(s, e);
    StepUsedOnce(s, e);
    StepPastAgreed(s, e);
  }

  lemma {:induction false} RunKeepsInv(s: State, es: seq<Event>)
    requires Inv(s) && IsRun(s, es)
    ensures Inv(After(s, es))
    ensures After(s, es).traits == s.traits
    decreases |es|
  {
    if es != [] {
      assert Step(s, es[0]).traits == s.traits;
      hide Step, Enabled, Inv;
      StepKeepsInv(s, es[0]);
      RunKeepsInv(Step(s, es[0]), es[1..]);
    }
  }

  // ---- Where the pointers come from ------------------------------------------------------

  function Exits(es: seq<Event>): nat {
    if es == [] then 0 else Exits(es[..|es| - 1]) + if es[|es| - 1].OnExit? then 1 else 0
  }

  /** An object was constructed at this address after so many exits. */
  ghost predicate Made(es: seq<Event>, epoch: nat, address: Word) {
    exists k :: 0 <= k < |es| && es[k].New? && es[k].address == address && Exits(es[..k]) == epoch
  }

  /** What a call of that epoch may return. */
  ghost predicate Proper(s: State, past: seq<Event>, c: Call) {
    if s.traits.Heap? then Made(past, c.epoch, c.result) else c.epoch == 0 ==> c.result == s.traits.buffer
  }

  ghost predicate Sourced(s: State, past: seq<Event>) {
    && s.epoch == Exits(past)
    && (forall i :: 0 <= i < |s.calls| ==> Proper(s, past, s.calls[i]))
    && (IsPointer(s.instance) ==> Proper(s, past, Call(s.epoch, s.instance)))
    && (forall t :: At(s, t).Built? ==> Proper(s, past, Call(s.epoch, At(s, t).newval)))
    && (forall t :: At(s, t).Done? ==> Returned(s, At(s, t).result))
  }

  predicate Returned(s: State, w: Word) {
    exists i :: 0 <= i < |s.calls| && s.calls[i].result == w
  }

  lemma ProperStays(s: State, past: seq<Event>, e: Event, c: Call)
    requires Proper(s, past, c)
    ensures Proper(s, past + [e], c)
  {
    if s.traits.Heap? {
      var k :| 0 <= k < |past| && past[k].New? && past[k].address == c.result && Exits(past[..k]) == c.epoch;
      assert (past + [e])[k] == past[k] && (past + [e])[..k] == past[..k];
    }
  }

  lemma MadeNow(past: seq<Event>, e: Event)
    ensures Exits(past + [e]) == Exits(past) + if e.OnExit? then 1 else 0
    ensures e.New? ==> Made(past + [e], Exits(past), e.address)
  {
    assert (past + [e])[..|past|] == past && (past + [e])[|past|] == e;
  }

  lemma ReturnedStays(s: State, e: Event, t: Tid)
    requires Enabled(s, e) && At(Step(s, e), t).Done?
    requires At(s, t).Done? ==> Returned(s, At(s, t).result)
    ensures Returned(Step(s, e), At(Step(s, e), t).result)
  {
    var s1 := Step(s, e);
    if |s1.calls| == |s.calls| + 1 && !e.OnExit? && e.t == t {
      assert s1.calls[|s.calls|].result == At(s1, t).result;
    } else {
      OthersStay(s, e);
      var i :| 0 <= i < |s.calls| && s.calls[i].result == At(s, t).result;
      assert s1.calls[i] == s.calls[i];
    }
  }

  lemma NewProper(s: State, past: seq<Event>, e: Event)
    requires Enabled(s, e) && Inv(s) && e.New? && s.epoch == Exits(past)
    ensures At(Step(s, e), e.t).Built? && Proper(Step(s, e), past + [e], Call(s.epoch, At(Step(s, e), e.t).newval))
  {
    hide Exits, Made, SomeoneCreates, SomeoneBuilt, Exclusive, Settled, PastAgreed;
    MadeNow(past, e);
    NothingBuiltYet(s, e.t);
  }

  lemma ProperAfter(s: State, past: seq<Event>, e: Event, c: Call)
    requires Enabled(s, e) && (Proper(s, past, c) || (s.traits.StaticMemory? && c.epoch > 0))
    ensures Proper(Step(s, e), past + [e], c)
  {
    if Proper(s, past, c) { ProperStays(s, past, e, c); }
  }

  /** What a step newly returns, stores or builds is proper if it was so before or is new. */
  lemma StepSourced(s: State, past: seq<Event>, e: Event)
    requires Enabled(s, e) && Inv(s) && Sourced(s, past)
    ensures Sourced(Step(s, e), past + [e])
  {
    hide Proper, Returned, Made, Exits, Exclusive, UsedOnce, PastAgreed;
    var s1, past1 := Step(s, e), past + [e];
    MadeNow(past, e);
    OthersStay(s, e);
    forall c | Proper(s, past, c) || (s.traits.StaticMemory? && c.epoch > 0) ensures Proper(s1, past1, c) {
      ProperAfter(s, past, e, c);
    }
    if e.New? { NewProper(s, past, e); }
    forall t | At(s1, t).Done? ensures Returned(s1, At(s1, t).result) {
      ReturnedStays(s, e, t);
    }
  }

  lemma {:induction false} RunSourced(s: State, past: seq<Event>, es: seq<Event>)
    requires IsRun(s, es) && Inv(s) && Sourced(s, past)
    ensures Sourced(After(s, es), past + es)
    decreases |es|
  {
    hide Step, Enabled, Inv, Sourced;
    if es == [] {
      assert past + es == past;
    } else {
      StepKeepsInv(s, es[0]);
      StepSourced(s, past, es[0]);
      RunSourced(Step(s, es[0]), past + [es[0]], es[1..]);
      assert past + [es[0]] + es[1..] == past + es;
    }
  }

  /** The log of calls is that of the threads: what a thread is about to return stands in it. */
  lemma LogIsComplete(s: State, es: seq<Event>, t: Tid)
    requires Initial(s) && IsRun(s, es) && At(After(s, es), t).Done?
    ensures exists i :: 0 <= i < |After(s, es).calls| && After(s, es).calls[i].result == At(After(s, es), t).result
  {
    RunSourced(s, [], es);
    assert [] + es == es;
    hide IsRun, After;
  }

  // ---- Over every run --------------------------------------------------------------------

  /** At most one thread creates the object at a time, and while none does, a thread that waits
      is let go by its next look. */
  lemma OneCreator(s: State, es: seq<Event>, t: Tid, u: Tid)
    requires Initial(s) && IsRun(s, es)
    ensures var s1 := After(s, es);
            && (Creates(s1, t) && Creates(s1, u) ==> t == u)
            && (At(s1, t).Waiting? && !SomeoneCreates(s1) ==> At(Step(s1, Spin(t)), t) == Done(s1.instance))
  {
    RunKeepsInv(s, es);
    hide IsRun, After;
  }

  /** All calls that end between two exits return the same object, and it is one whose construction
      began between those exits. */
  lemma OneInstance(s: State, es: seq<Event>, i: nat, j: nat)
    requires Initial(s) && IsRun(s, es) && s.traits.Heap?
    requires i < |After(s, es).calls| && j < |After(s, es).calls|
    requires After(s, es).calls[i].epoch == After(s, es).calls[j].epoch
    ensures After(s, es).calls[i].result == After(s, es).calls[j].result
    ensures IsPointer(After(s, es).calls[i].result)
    ensures Made(es, After(s, es).calls[i].epoch, After(s, es).calls[i].result)
  {
    RunKeepsInv(s, es);
    RunSourced(s, [], es);
    assert [] + es == es;
    hide IsRun, After, Made;
  }

  /** In static memory the constructor runs at most once in the process; calls that end before the
      first exit return the buffer they all share, and calls that end after it return NULL, even
      if they were under way when it happened. */
  lemma StaticOnce(s: State, es: seq<Event>, i: nat)
    requires Initial(s) && IsRun(s, es) && s.traits.StaticMemory?
    requires i < |After(s, es).calls|
    ensures After(s, es).constructed <= 1
    ensures After(s, es).calls[i].result == if After(s, es).calls[i].epoch == 0 then s.traits.buffer else 0
  {
    RunKeepsInv(s, es);
    RunSourced(s, [], es);
    assert [] + es == es;
    hide IsRun, After, Made;
  }
}
