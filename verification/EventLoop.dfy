/** Events, the tasks that yield on them, and event_main_run(): the bookkeeping of src/common/event.c for any
    number of events and tasks, as a step system. What a task does between two switches is up to it; it may
    create events, yield on them and destroy any of them while the main loop is walking the list. */
module EventLoop {
  import opened Options
  import opened Clock
  import Queries

  /** enum event_flag */
  datatype Flags = Flags(read: bool, write: bool, timeout: bool)

  const NO_FLAGS := Flags(false, false, false)

  /** struct event: `owner` is event->task. */
  datatype Event = Event(flags: Flags, deadline: Timeval, owner: Option<nat>, destroyed: bool)

  datatype Point =
    | Active                  // switched into, and not yet back
    | Yielding(event: nat)    // in event_yield() or event_sleep()
    | Suspended               // in event_wait()
    | Exited

  /** struct event_task */
  datatype Task = Task(registered: int, point: Point)

  /** Where event_main_run() is. */
  datatype Phase =
    | Sweep                           // about to look through the list
    | Select(earliest: Option<nat>)   // has looked through it; `timeout_event`
    | Visit(next: Option<nat>)        // walking the list again; `event_next`
    | Done

  /** Events and tasks are named by their place in `events` and `tasks`; `list` is event_main->events and
      `stack` lists the tasks that have been switched into. `fatal` records that some log_fatal() or other branch
      that should not happen was taken. */
  datatype State = State(
    events: seq<Event>,
    list: seq<nat>,
    tasks: seq<Task>,
    stack: seq<nat>,
    phase: Phase,
    fatal: bool)

  // ----- What a task does -----

  function Top(s: State): nat
    requires s.stack != []
  {
    s.stack[|s.stack| - 1]
  }

  predicate Wf(s: State) {
    && (forall i :: 0 <= i < |s.list| ==> s.list[i] < |s.events|)
    && (forall i :: 0 <= i < |s.stack| ==> s.stack[i] < |s.tasks|)
    && (forall e :: 0 <= e < |s.events| && s.events[e].owner.Some? ==> s.events[e].owner.value < |s.tasks|)
  }

  function SetPoint(s: State, t: nat, point: Point): State
    requires t < |s.tasks|
  {
    s.(tasks := s.tasks[t := s.tasks[t].(point := point)])
  }

  function SwitchTo(s: State, t: nat): State
    requires t < |s.tasks|
  {
    SetPoint(s, t, Active).(stack := s.stack + [t])
  }

  function SwitchBack(s: State, point: Point): State
    requires Wf(s) && s.stack != []
  {
    SetPoint(s, Top(s), point).(stack := s.stack[..|s.stack| - 1])
  }

  /** event_register() by the running task. Without flags, or on an event that is taken, it is refused. */
  function Register(s: State, e: nat, flags: Flags, deadline: Timeval): State
    requires Wf(s) && s.stack != [] && e < |s.events|
  {
    var t := Top(s);
    s.(events := s.events[e := s.events[e].(owner := Some(t), flags := flags, deadline := deadline)],
       tasks := s.tasks[t := s.tasks[t].(registered := s.tasks[t].registered + 1)])
  }

  predicate Refused(s: State, e: nat, flags: Flags)
    requires e < |s.events|
  {
    flags == NO_FLAGS || s.events[e].owner.Some?
  }

  /** event_yield(), up to the switch. */
  function Yield(s: State, e: nat, flags: Flags, deadline: Timeval): State
    requires Wf(s) && s.stack != [] && e < |s.events|
  {
    if Refused(s, e, flags) then s else SwitchBack(Register(s, e, flags, deadline), Yielding(e))
  }

  /** event_destroy(): from within a task only marks the event. */
  function Destroy(s: State, e: nat): State
    requires Wf(s) && e in s.list
  {
    var owner := s.events[e].owner;
    var unowned := s.events[e].(owner := None);
    var s1 :=
      if owner == None then s
      else if s.tasks[owner.value].registered != 0 then
        s.(tasks := s.tasks[owner.value := s.tasks[owner.value].(registered := s.tasks[owner.value].registered - 1)])
      else s.(fatal := true);
    if s.stack != [] then s1.(events := s.events[e := unowned.(destroyed := true)])
    else s1.(events := s.events[e := unowned], list := Queries.Unlink(s.list, e))
  }

  // ----- What the main loop does -----

  /** Main wakes the task that yields on the event, which comes out of event_yield(). */
  function Wake(s: State, e: nat): State
    requires Wf(s) && e < |s.events| && s.events[e].owner.Some?
  {
    var t := s.events[e].owner.value;
    if s.tasks[t].point != Yielding(e) || s.tasks[t].registered == 0 then s.(fatal := true)
    else
      s.(events := s.events[e := s.events[e].(flags := NO_FLAGS, owner := None)],
         tasks := s.tasks[t := Task(s.tasks[t].registered - 1, Active)],
         stack := s.stack + [t])
  }

  function Next(list: seq<nat>, e: nat): (n: Option<nat>)
    requires e in list
    ensures n.Some? ==> n.value in list
  {
    var i := Queries.Position(list, e);
    if i + 1 < |list| then Some(list[i + 1]) else None
  }

  function FirstOf(list: seq<nat>): Option<nat> {
    if list == [] then None else Some(list[0])
  }

  predicate Listed(s: State, todo: seq<nat>) {
    Queries.Distinct(s.list) && Queries.Distinct(todo) && forall x :: x in todo ==> x in s.list
  }

  lemma DestroyListed(s: State, todo: seq<nat>)
    requires Wf(s) && s.stack == [] && Listed(s, todo) && todo != []
    ensures Wf(Destroy(s, todo[0])) && Listed(Destroy(s, todo[0]), todo[1..]) && Listed(s, todo[1..])
  {
    Queries.UnlinkDistinct(s.list, todo[0]);
    TailListed(s, todo);
    hide Queries.Distinct, Queries.Unlink;
    var u := Destroy(s, todo[0]).list;
    assert forall i :: 0 <= i < |u| ==> u[i] in u;
  }

  lemma TailListed(s: State, todo: seq<nat>)
    requires Listed(s, todo) && todo != []
    ensures Listed(s, todo[1..]) && todo[0] in s.list && forall x :: x in todo[1..] ==> x != todo[0]
  {
    assert forall x :: x in todo[1..] ==> x in todo && x != todo[0];
  }

  /** Delayed destruction of the events `todo`. */
  function Swept(s: State, todo: seq<nat>): (r: State)
    requires Wf(s) && s.stack == [] && Listed(s, todo)
    ensures Wf(r) && r.stack == [] && |r.events| == |s.events| && |r.tasks| == |s.tasks|
    decreases |todo|
  {
    if todo == [] then s
    else
      DestroyListed(s, todo);
      Swept(if s.events[todo[0]].destroyed then Destroy(s, todo[0]) else s, todo[1..])
  }

  predicate Before(a: Timeval, b: Timeval) {
    a.sec < b.sec || (a.sec == b.sec && a.usec < b.usec)
  }

  /** The choice of timeout_event: a deadline whose seconds are zero counts as none. */
  function Earlier(events: seq<Event>, best: Option<nat>, e: nat): Option<nat>
    requires e < |events| && (best.Some? ==> best.value < |events|)
  {
    var least := if best.Some? then events[best.value].deadline else Timeval(0, 0);
    if events[e].flags.timeout && (least.sec == 0 || Before(events[e].deadline, least)) then Some(e) else best
  }

  function Earliest(events: seq<Event>, list: seq<nat>): (r: Option<nat>)
    requires forall i :: 0 <= i < |list| ==> list[i] < |events|
    ensures r.Some? ==> r.value in list && r.value < |events| && events[r.value].flags.timeout
  {
    if list == [] then None
    else Earlier(events, Earliest(events, list[..|list| - 1]), list[|list| - 1])
  }

  predicate Idle(events: seq<Event>, list: seq<nat>)
    requires forall i :: 0 <= i < |list| ==> list[i] < |events|
  {
    forall i :: 0 <= i < |list| ==> events[list[i]].flags == NO_FLAGS
  }

  /** The first pass of event_main_run() over the list; it ends when no event is active. */
  function SweepList(s: State): State
    requires Wf(s) && s.stack == [] && Queries.Distinct(s.list)
  {
    var r := Swept(s, s.list);
    r.(phase := if Idle(r.events, r.list) then Done else Select(Earliest(r.events, r.list)))
  }

  /** The second pass, for one event; `found` is what select() reported for its descriptor. */
  function VisitEvent(s: State, found: Flags): State
    requires Wf(s) && s.phase.Visit? && (s.phase.next.Some? ==> s.phase.next.value in s.list)
  {
    match s.phase.next
    case None => s.(phase := Sweep)
    case Some(e) =>
      var r := s.(phase := Visit(Next(s.list, e)));
      if !(found.read && s.events[e].flags.read) && !(found.write && s.events[e].flags.write) then r
      else if s.events[e].owner.Some? then Wake(r, e)
      else if s.events[e].destroyed then r
      else r.(fatal := true)
  }

  // ----- Steps -----

  datatype Action =
    | Create                                                // event_create()
    | YieldOn(e: nat, flags: Flags, deadline: Timeval)      // event_yield() or event_sleep()
    | DestroyEvent(e: nat)                                  // event_destroy()
    | Start                                                 // event_start()
    | Suspend                                               // event_wait()
    | Notify(t: nat)                                        // event_notify()
    | Return                                                // the running task ends
    | FirstPass | TimedOut | Ready | SecondPass(found: Flags)

  predicate Enabled(s: State, a: Action) {
    match a
    case Create => s.stack != [] || s.phase.Sweep?
    case YieldOn(e, _, _) => s.stack != [] && e in s.list
    case DestroyEvent(e) => (s.stack != [] || s.phase.Sweep?) && e in s.list
    case Start => s.stack != [] || s.phase.Sweep?
    case Suspend => s.stack != []
    case Notify(t) => s.stack != [] && t < |s.tasks| && s.tasks[t].point.Suspended?
    case Return => s.stack != []
    case FirstPass => s.stack == [] && s.phase.Sweep?
    case TimedOut => s.stack == [] && s.phase.Select? && s.phase.earliest.Some?
    case Ready => s.stack == [] && s.phase.Select?
    case SecondPass(_) => s.stack == [] && s.phase.Visit?
  }

  /** Every pointer the step follows is there: `event_next` has not been freed, and the event that timed out
      has a task. */
  predicate Defined(s: State, a: Action) {
    && Wf(s)
    && match a
       case FirstPass => Queries.Distinct(s.list)
       case TimedOut =>
         Enabled(s, a) ==> s.phase.earliest.value < |s.events| && s.events[s.phase.earliest.value].owner.Some?
       case SecondPass(_) => Enabled(s, a) && s.phase.next.Some? ==> s.phase.next.value in s.list
       case _ => true
  }

  function Apply(s: State, a: Action): State
    requires Enabled(s, a) && Defined(s, a)
  {
    match a
    case Create =>
      s.(list := s.list + [|s.events|], events := s.events + [Event(NO_FLAGS, Timeval(0, 0), None, false)])
    case YieldOn(e, flags, deadline) => Yield(s, e, flags, deadline)
    case DestroyEvent(e) => Destroy(s, e)
    case Start => s.(stack := s.stack + [|s.tasks|], tasks := s.tasks + [Task(0, Active)])
    case Suspend => SwitchBack(s, Suspended)
    case Notify(t) => SwitchTo(s, t)
    case Return => SwitchBack(s, Exited)
    case FirstPass => SweepList(s)
    case TimedOut => Wake(s.(phase := Sweep), s.phase.earliest.value)
    case Ready => s.(phase := Visit(FirstOf(s.list)))
    case SecondPass(found) => VisitEvent(s, found)
  }

  ghost predicate Init(s: State) {
    s == State([], [], [], [], Sweep, false)
  }

  // ----- The invariant -----

  /** The tasks on the stack are the active ones, each once. */
  ghost predicate StackInv(s: State)
    requires Wf(s)
  {
    && Queries.Distinct(s.stack)
    && (forall i :: 0 <= i < |s.stack| ==> s.tasks[s.stack[i]].point == Active)
    && (forall t :: 0 <= t < |s.tasks| && s.tasks[t].point == Active ==> t in s.stack)
  }

  /** An event is owned by a task that yields on it, and is on the list; a task is registered exactly while it
      owns its event. */
  ghost predicate OwnerInv(s: State)
    requires Wf(s)
  {
    && (forall e :: 0 <= e < |s.events| && s.events[e].owner.Some? ==>
          e in s.list && s.tasks[s.events[e].owner.value].point == Yielding(e) && s.events[e].flags != NO_FLAGS)
    && (forall t :: 0 <= t < |s.tasks| ==> s.tasks[t].registered == if Owns(s, t) then 1 else 0)
  }

  predicate Owns(s: State, t: nat)
    requires t < |s.tasks|
  {
    var p := s.tasks[t].point;
    p.Yielding? && p.event < |s.events| && s.events[p.event].owner == Some(t)
  }

  /** An event that is selected on is owned, or waits for its destruction. */
  ghost predicate FlagInv(s: State)
    requires Wf(s)
  {
    forall i :: 0 <= i < |s.list| ==>
      var e := s.events[s.list[i]];
      e.flags != NO_FLAGS ==> e.owner.Some? || e.destroyed
  }

  ghost predicate PhaseInv(s: State)
    requires Wf(s)
  {
    match s.phase
    case Sweep => true
    case Select(earliest) =>
      && s.stack == [] && (forall i :: 0 <= i < |s.list| ==> !s.events[s.list[i]].destroyed)
      && (earliest.Some? ==> earliest.value in s.list && s.events[earliest.value].flags.timeout)
    case Visit(next) => next.Some? ==> next.value in s.list
    case Done => s.stack == [] && Idle(s.events, s.list)
  }

  ghost predicate Inv(s: State) {
    Wf(s) && Queries.Distinct(s.list) && StackInv(s) && OwnerInv(s) && FlagInv(s) && PhaseInv(s) && !s.fatal
  }

  // ----- Every step keeps it -----

  lemma CreateInv(s: State)
    requires Inv(s) && Enabled(s, Create)
    ensures Inv(Apply(s, Create))
  {
    var r := Apply(s, Create);
    assert forall x :: x in s.list ==> x in r.list;
    assert forall t :: 0 <= t < |s.tasks| ==> Owns(r, t) == Owns(s, t);
    hide Owns;
  }

  lemma YieldKeepsOwners(s: State, e: nat, flags: Flags, deadline: Timeval)
    requires Inv(s) && s.stack != [] && e in s.list && !Refused(s, e, flags)
    ensures var r := Yield(s, e, flags, deadline); Wf(r) && OwnerInv(r)
  {
    hide FlagInv, PhaseInv;
    var r, t := Yield(s, e, flags, deadline), Top(s);
    assert !Owns(s, t);
    hide StackInv;
    assert forall u :: 0 <= u < |s.tasks| && u != t ==> r.tasks[u] == s.tasks[u] && Owns(r, u) == Owns(s, u);
  }

  lemma YieldInv(s: State, e: nat, flags: Flags, deadline: Timeval)
    requires Inv(s) && s.stack != [] && e in s.list
    ensures Inv(Yield(s, e, flags, deadline))
  {
    if !Refused(s, e, flags) {
      YieldKeepsOwners(s, e, flags, deadline);
      hide OwnerInv, Owns;
      var r := Yield(s, e, flags, deadline);
      assert forall u :: u in s.stack && u != Top(s) ==> u in r.stack;
    }
  }

  lemma DestroyList(s: State, e: nat)
    requires Wf(s) && Queries.Distinct(s.list) && e in s.list
    ensures forall x :: x in Destroy(s, e).list <==> x in s.list && (x != e || s.stack != [])
  {
    Queries.UnlinkDistinct(s.list, e);
    hide Queries.Distinct, Queries.Unlink;
  }

  /** What event_destroy() changes; it finds the owner registered. */
  lemma DestroyEffect(s: State, e: nat)
    requires Inv(s) && e in s.list
    ensures var r := Destroy(s, e);
      && Wf(r) && !r.fatal && |r.events| == |s.events| && |r.tasks| == |s.tasks| && r.events[e].owner == None
      && (r.events[e].destroyed <==> s.stack != [] || s.events[e].destroyed)
      && r.events[e].flags == s.events[e].flags && r.events[e].deadline == s.events[e].deadline
      && (forall x :: 0 <= x < |s.events| && x != e ==> r.events[x] == s.events[x])
      && (forall t :: 0 <= t < |s.tasks| ==>
            r.tasks[t].point == s.tasks[t].point
            && r.tasks[t].registered == s.tasks[t].registered - if s.events[e].owner == Some(t) then 1 else 0)
      && (forall x :: x in r.list <==> x in s.list && (x != e || s.stack != []))
  {
    hide FlagInv, PhaseInv, StackInv;
    DestroyList(s, e);
    if s.events[e].owner.Some? {
      assert Owns(s, s.events[e].owner.value);
    }
    hide OwnerInv, Owns, Queries.Distinct, Queries.Unlink;
    var r := Destroy(s, e);
    forall i | 0 <= i < |r.list|
      ensures r.list[i] < |r.events|
    {
      assert r.list[i] in r.list && r.list[i] in s.list;
    }
  }

  lemma DestroyUnowns(s: State, e: nat)
    requires Inv(s) && e in s.list
    ensures var r := Destroy(s, e);
      && Wf(r) && |r.events| == |s.events| && |r.tasks| == |s.tasks|
      && forall t :: 0 <= t < |s.tasks| ==> Owns(r, t) == (Owns(s, t) && s.events[e].owner != Some(t))
  {
    DestroyEffect(s, e);
    hide FlagInv, PhaseInv, StackInv, Destroy;
  }

  lemma DestroyKeepsOwners(s: State, e: nat)
    requires Inv(s) && e in s.list
    ensures Wf(Destroy(s, e)) && OwnerInv(Destroy(s, e))
  {
    DestroyEffect(s, e);
    DestroyUnowns(s, e);
    assert forall t :: 0 <= t < |s.tasks| && s.events[e].owner == Some(t) ==> Owns(s, t);
    hide FlagInv, PhaseInv, StackInv, Destroy, Owns;
  }

  lemma DestroyKeepsFlags(s: State, e: nat)
    requires Inv(s) && e in s.list
    ensures Wf(Destroy(s, e)) && FlagInv(Destroy(s, e))
  {
    DestroyEffect(s, e);
    hide OwnerInv, PhaseInv, StackInv, Destroy;
    var r := Destroy(s, e);
    assert forall i :: 0 <= i < |r.list| ==> r.list[i] in r.list;
    assert forall x :: x in s.list && s.events[x].flags != NO_FLAGS ==>
      s.events[x].owner.Some? || s.events[x].destroyed;
  }

  lemma DestroyInv(s: State, e: nat)
    requires Inv(s) && e in s.list && (s.stack != [] || s.phase.Sweep?)
    ensures Inv(Destroy(s, e))
  {
    DestroyEffect(s, e);
    DestroyKeepsOwners(s, e);
    DestroyKeepsFlags(s, e);
    Queries.UnlinkDistinct(s.list, e);
    var r := Destroy(s, e);
    assert r.stack == s.stack && r.phase == s.phase && Queries.Distinct(r.list);
    hide OwnerInv, Owns, FlagInv, Wf, Destroy;
  }

  /** Switching between tasks leaves the events alone, and no task on either side of it owns one. */
  ghost predicate Switched(s: State, r: State) {
    && r.events == s.events && r.list == s.list && r.phase == s.phase && r.fatal == s.fatal && |s.tasks| <= |r.tasks|
    && (forall t :: 0 <= t < |s.tasks| ==>
          r.tasks[t].registered == s.tasks[t].registered
          && (r.tasks[t].point == s.tasks[t].point || (!r.tasks[t].point.Yielding? && !s.tasks[t].point.Yielding?)))
    && (forall t :: |s.tasks| <= t < |r.tasks| ==> r.tasks[t] == Task(0, Active))
  }

  lemma SwitchedInv(s: State, r: State)
    requires Inv(s) && Wf(r) && Switched(s, r) && StackInv(r)
    requires s.stack != [] || s.phase.Sweep?
    ensures Inv(r)
  {
    assert forall t :: 0 <= t < |s.tasks| ==> Owns(r, t) == Owns(s, t);
    hide StackInv, Owns, Idle;
  }

  /** Entering a task: event_start() and event_notify(). */
  lemma EnterInv(s: State, a: Action)
    requires Inv(s) && (a.Start? || a.Notify?) && Enabled(s, a)
    ensures Inv(Apply(s, a))
  {
    var r := Apply(s, a);
    assert Switched(s, r) && Wf(r);
    assert StackInv(r) by {
      hide OwnerInv, FlagInv, PhaseInv;
      assert forall t :: t in s.stack ==> t in r.stack;
      assert r.stack[|s.stack|] in r.stack;
    }
    hide StackInv, Switched;
    SwitchedInv(s, r);
  }

  /** Leaving the running task: event_wait() and the end of the task. */
  lemma LeaveInv(s: State, a: Action)
    requires Inv(s) && (a.Suspend? || a.Return?) && Enabled(s, a)
    ensures Inv(Apply(s, a))
  {
    var r := Apply(s, a);
    assert Switched(s, r) && Wf(r);
    assert StackInv(r) by {
      hide OwnerInv, FlagInv, PhaseInv;
      assert forall t :: t in s.stack && t != Top(s) ==> t in r.stack;
    }
    hide StackInv, Switched;
    SwitchedInv(s, r);
  }

  /** Main wakes a task. */
  lemma WakeInv(s: State, e: nat)
    requires Inv(s) && s.stack == [] && !s.phase.Done? && e in s.list && s.events[e].owner.Some?
    requires s.phase.Sweep? || s.phase.Visit?
    ensures Inv(Wake(s, e))
  {
    var r, t := Wake(s, e), s.events[e].owner.value;
    assert Owns(s, t);
    assert forall u :: 0 <= u < |s.tasks| ==> Owns(r, u) == (Owns(s, u) && u != t);
    assert t in r.stack;
  }

  lemma SweptNext(w: State, todo: seq<nat>)
    requires Inv(w) && w.stack == [] && w.phase == Sweep && Listed(w, todo) && todo != []
    ensures todo[0] < |w.events| && todo[0] in w.list
    ensures if w.events[todo[0]].destroyed then
              && Inv(Destroy(w, todo[0])) && Listed(Destroy(w, todo[0]), todo[1..])
              && Swept(w, todo) == Swept(Destroy(w, todo[0]), todo[1..])
            else Listed(w, todo[1..]) && Swept(w, todo) == Swept(w, todo[1..])
  {
    DestroyListed(w, todo);
    if w.events[todo[0]].destroyed {
      DestroyInv(w, todo[0]);
    }
    hide Inv;
  }

  lemma {:induction false} SweptInv(s: State, todo: seq<nat>)
    requires Inv(s) && s.stack == [] && s.phase.Sweep? && Listed(s, todo)
    ensures var r := Swept(s, todo);
      && Inv(r) && r.phase == s.phase
      && (forall x :: x in r.list <==> x in s.list && (x in todo ==> !s.events[x].destroyed))
    ensures forall x :: 0 <= x < |s.events| ==> Swept(s, todo).events[x].destroyed == s.events[x].destroyed
    decreases |todo|
  {
    if todo != [] {
      SweptNext(s, todo);
      var x := todo[0];
      var r := if s.events[x].destroyed then Destroy(s, x) else s;
      if s.events[x].destroyed {
        DestroyEffect(s, x);
      }
      assert r.stack == [] && r.phase == s.phase && Listed(r, todo[1..]);
      assert forall y :: y in todo <==> y == x || y in todo[1..];
      assert x !in todo[1..];
      hide Inv, Wf, Destroy, Listed, Swept;
      SweptInv(r, todo[1..]);
    }
  }

  lemma FirstPassInv(s: State)
    requires Inv(s) && s.stack == [] && s.phase.Sweep?
    ensures Inv(SweepList(s))
  {
    SweptInv(s, s.list);
    var r := Swept(s, s.list);
    hide Swept, OwnerInv, FlagInv, StackInv;
    assert forall i :: 0 <= i < |r.list| ==> r.list[i] in r.list && r.list[i] in s.list;
    PhaseChanged(r, SweepList(s).phase);
  }

  lemma PhaseChanged(s: State, phase: Phase)
    requires Inv(s) && PhaseInv(s.(phase := phase))
    ensures Inv(s.(phase := phase))
  {
    var r := s.(phase := phase);
    assert forall t :: 0 <= t < |s.tasks| ==> Owns(r, t) == Owns(s, t);
  }

  lemma StepInv(s: State, a: Action)
    requires Inv(s) && Enabled(s, a)
    ensures Defined(s, a) && Inv(Apply(s, a))
  {
    hide StackInv, Owns, Swept, Earliest;
    match a
    case Create => CreateInv(s);
    case YieldOn(e, flags, deadline) => YieldInv(s, e, flags, deadline);
    case DestroyEvent(e) => DestroyInv(s, e);
    case Start => EnterInv(s, a);
    case Notify(t) => EnterInv(s, a);
    case Suspend => LeaveInv(s, a);
    case Return => LeaveInv(s, a);
    case FirstPass => FirstPassInv(s);
    case Ready => PhaseChanged(s, Visit(FirstOf(s.list)));
    case TimedOut =>
      PhaseChanged(s, Sweep);
      WakeInv(s.(phase := Sweep), s.phase.earliest.value);
    case SecondPass(found) =>
      if s.phase.next.Some? {
        var e := s.phase.next.value;
        PhaseChanged(s, Visit(Next(s.list, e)));
        var r := s.(phase := Visit(Next(s.list, e)));
        if s.events[e].owner.Some? {
          WakeInv(r, e);
        }
      } else {
        PhaseChanged(s, Sweep);
      }
  }

  // ----- Over whole runs -----

  ghost predicate Run(ss: seq<State>, aa: seq<Action>) {
    && |ss| == |aa| + 1 && Init(ss[0])
    && forall i :: 0 <= i < |aa| ==> Enabled(ss[i], aa[i]) && Defined(ss[i], aa[i]) && ss[i + 1] == Apply(ss[i], aa[i])
  }

  /** No run takes a branch that should not happen, whatever the tasks and select() do: no event fires without
      a task, no task comes out of a yield for another event, and none is registered less than nought times. */
  lemma {:induction false} RunInv(ss: seq<State>, aa: seq<Action>, i: nat)
    requires Run(ss, aa) && i < |ss|
    ensures Inv(ss[i]) && !ss[i].fatal
  {
    if i > 0 {
      RunInv(ss, aa, i - 1);
      StepInv(ss[i - 1], aa[i - 1]);
    }
  }

  /** task->registered counts the events the task owns. */
  lemma RegisteredIsOwned(s: State, t: nat)
    requires Inv(s) && t < |s.tasks|
    ensures s.tasks[t].registered == |set e | 0 <= e < |s.events| && s.events[e].owner == Some(t)|
  {
    var owned := set e | 0 <= e < |s.events| && s.events[e].owner == Some(t);
    if Owns(s, t) {
      assert owned == {s.tasks[t].point.event};
    } else {
      assert owned == {};
    }
  }

  /** While a task runs no event leaves the list, so the main loop's pointer into it stays good. */
  lemma DestructionIsDelayed(s: State, a: Action)
    requires Inv(s) && Enabled(s, a) && s.stack != []
    ensures Defined(s, a) && s.list <= Apply(s, a).list
  {
    StepInv(s, a);
  }

  lemma SweptList(s: State)
    requires Inv(s) && s.stack == [] && s.phase.Sweep?
    ensures var r := SweepList(s);
      && Inv(r) && (r.phase.Done? <==> Idle(r.events, r.list))
      && forall i :: 0 <= i < |r.list| ==> !r.events[r.list[i]].destroyed
  {
    FirstPassInv(s);
    SweptInv(s, s.list);
    var r := SweepList(s);
    hide Inv, Swept, Idle;
    assert forall i :: 0 <= i < |r.list| ==> r.list[i] in r.list && r.list[i] in s.list;
  }

  /** The main loop ends if and only if no task is registered for an event any more. */
  lemma MainLoopEndsIff(s: State)
    requires Inv(s) && Enabled(s, FirstPass)
    ensures var r := SweepList(s);
      r.phase.Done? <==> forall t :: 0 <= t < |r.tasks| ==> r.tasks[t].registered == 0
  {
    SweptList(s);
    var r := SweepList(s);
    hide StackInv, PhaseInv, SweepList;
    if r.phase.Done? {
      assert forall t :: 0 <= t < |r.tasks| ==> !Owns(r, t);
    } else if i :| 0 <= i < |r.list| && r.events[r.list[i]].flags != NO_FLAGS {
      assert Owns(r, r.events[r.list[i]].owner.value);
    }
  }

  /** Unless a deadline lies in the epoch's first second, the event that times out has the earliest one. */
  lemma {:induction false} EarliestIsLeast(events: seq<Event>, list: seq<nat>)
    requires forall i :: 0 <= i < |list| ==> list[i] < |events|
    requires forall i :: 0 <= i < |list| && events[list[i]].flags.timeout ==> events[list[i]].deadline.sec != 0
    ensures Earliest(events, list) == None <==> forall i :: 0 <= i < |list| ==> !events[list[i]].flags.timeout
    ensures var r := Earliest(events, list);
      forall i :: r.Some? && 0 <= i < |list| && events[list[i]].flags.timeout ==>
        !Before(events[list[i]].deadline, events[r.value].deadline)
  {
    if list != [] {
      EarliestIsLeast(events, list[..|list| - 1]);
    }
  }

  // ----- The program -----

  lemma {:induction false} EarliestKept(events: seq<Event>, now: seq<Event>, list: seq<nat>)
    requires |now| == |events| && forall i :: 0 <= i < |list| ==> list[i] < |events| && now[list[i]] == events[list[i]]
    ensures Earliest(now, list) == Earliest(events, list)
  {
    if list != [] {
      EarliestKept(events, now, list[..|list| - 1]);
    }
  }

  lemma NextIsFirst(done: seq<nat>, todo: seq<nat>)
    requires todo != [] && Queries.Distinct(done + todo)
    ensures Next(done + todo, todo[0]) == FirstOf(todo[1..])
    ensures Queries.Unlink(done + todo, todo[0]) == done + todo[1..]
  {
    var list := done + todo;
    assert list[|done|] == todo[0];
    assert Queries.Position(list, todo[0]) == |done|;
  }

  predicate Known(events: seq<Event>, list: seq<nat>) {
    forall i :: 0 <= i < |list| ==> list[i] < |events|
  }

  /** The first pass is between two events: `done` of the list is behind it, `todo` ahead. */
  ghost predicate Passing(s: State, w: State, done: seq<nat>, todo: seq<nat>, earliest: Option<nat>, active: bool)
    requires Inv(s) && s.stack == []
  {
    && Inv(w) && w.stack == [] && w.phase == Sweep
    && w.list == done + todo && Listed(w, todo) && Swept(w, todo) == Swept(s, s.list)
    && Known(w.events, done) && earliest == Earliest(w.events, done) && (active <==> !Idle(w.events, done))
  }

  lemma PassFolds(events: seq<Event>, done: seq<nat>, e: nat)
    requires Known(events, done) && e < |events|
    ensures Known(events, done + [e]) && Earliest(events, done + [e]) == Earlier(events, Earliest(events, done), e)
    ensures Idle(events, done + [e]) <==> Idle(events, done) && events[e].flags == NO_FLAGS
  {
    assert (done + [e])[..|done|] == done;
    assert forall i :: 0 <= i < |done| ==> (done + [e])[i] == done[i];
    assert (done + [e])[|done|] == e;
  }

  lemma PassSkips(s: State, w: State, done: seq<nat>, todo: seq<nat>, earliest: Option<nat>, active: bool)
    requires Inv(s) && s.stack == [] && Passing(s, w, done, todo, earliest, active)
    requires todo != [] && todo[0] < |w.events| && !w.events[todo[0]].destroyed
    ensures var e := todo[0];
      Passing(s, w, done + [e], todo[1..], Earlier(w.events, earliest, e), active || w.events[e].flags != NO_FLAGS)
  {
    hide Inv, Listed, Swept, Earliest, Earlier, Idle, Known, Destroy;
    PassFolds(w.events, done, todo[0]);
    SweptNext(w, todo);
    assert done + todo == done + [todo[0]] + todo[1..];
  }

  /** Destroying an event changes nothing about those behind the pass. */
  lemma DestroyAhead(w: State, done: seq<nat>, todo: seq<nat>)
    requires Inv(w) && w.stack == [] && todo != [] && w.list == done + todo && Known(w.events, done)
    ensures todo[0] in w.list
    ensures var r := Destroy(w, todo[0]);
      && r.stack == [] && r.phase == w.phase && r.list == done + todo[1..] && Known(r.events, done)
      && Earliest(r.events, done) == Earliest(w.events, done) && (Idle(r.events, done) <==> Idle(w.events, done))
  {
    var e := todo[0];
    assert w.list[|done|] == e;
    DestroyEffect(w, e);
    NextIsFirst(done, todo);
    assert forall i :: 0 <= i < |done| ==> done[i] == w.list[i] != e;
    hide Inv, Earliest, Queries.Distinct, Queries.Unlink, Queries.Position;
    EarliestKept(w.events, Destroy(w, e).events, done);
  }

  lemma PassDestroys(s: State, w: State, done: seq<nat>, todo: seq<nat>, earliest: Option<nat>, active: bool)
    requires Inv(s) && s.stack == [] && Passing(s, w, done, todo, earliest, active)
    requires todo != [] && todo[0] < |w.events| && w.events[todo[0]].destroyed
    ensures todo[0] in w.list && Wf(w) && Passing(s, Destroy(w, todo[0]), done, todo[1..], earliest, active)
    ensures Destroy(w, todo[0]).stack == [] && Destroy(w, todo[0]).phase == Sweep
  {
    SweptNext(w, todo);
    DestroyAhead(w, done, todo);
    assert Wf(w);
    hide Inv, Wf, Listed, Swept, Earliest, Idle, Known, Destroy;
  }

  lemma PassBegins(s: State)
    requires Inv(s) && s.stack == [] && s.phase == Sweep
    ensures Passing(s, s, [], s.list, None, false) && Wf(s) && Queries.Distinct(s.list)
  {
    assert [] + s.list == s.list;
    hide StackInv, OwnerInv, FlagInv;
  }

  lemma PassEnds(s: State, w: State, done: seq<nat>, earliest: Option<nat>, active: bool)
    requires Inv(s) && s.stack == [] && s.phase == Sweep && Passing(s, w, done, [], earliest, active)
    ensures SweepList(s) == w.(phase := if active then Select(earliest) else Done)
  {
    assert done + [] == done;
  }

  /** struct event_main with its events and tasks. */
  class EventMain {
    var events: seq<Event>
    var list: seq<nat>
    var tasks: seq<Task>
    var stack: seq<nat>
    var phase: Phase
    var fatal: bool

    ghost function Abs(): State
      reads this
    {
      State(events, list, tasks, stack, phase, fatal)
    }

    constructor ()
      ensures Init(Abs())
    {
      events, list, tasks, stack, phase, fatal := [], [], [], [], Sweep, false;
    }

    /** event_register(), for the running task; `deadline` is set if there is a timeout. */
    method EventRegister(e: nat, flags: Flags, deadline: Timeval) returns (err: int)
      requires Wf(Abs()) && stack != [] && e < |events|
      modifies this
      ensures err == if old(Refused(Abs(), e, flags)) then -1 else 0
      ensures Abs() == if err == 0 then old(Register(Abs(), e, flags, deadline)) else old(Abs())
    {
      var task := stack[|stack| - 1];
      if flags == NO_FLAGS {
        return -1;
      }
      if events[e].owner.Some? {
        return -1;
      }
      events := events[e := events[e].(owner := Some(task))];
      events := events[e := events[e].(flags := flags)];
      events := events[e := events[e].(deadline := deadline)];
      tasks := tasks[task := tasks[task].(registered := tasks[task].registered + 1)];
      return 0;
    }

    /** event_yield() and event_sleep(), up to the switch back. */
    method EventYield(e: nat, flags: Flags, deadline: Timeval) returns (err: int)
      requires Wf(Abs()) && stack != [] && e < |events|
      modifies this
      ensures err == if old(Refused(Abs(), e, flags)) then -1 else 0
      ensures Abs() == old(Yield(Abs(), e, flags, deadline))
    {
      err := EventRegister(e, flags, deadline);
      if err != 0 {
        return -1;
      }
      var task := stack[|stack| - 1];
      tasks := tasks[task := tasks[task].(point := Yielding(e))];
      stack := stack[..|stack| - 1];
    }

    /** event_switch() from main into the task of an event that fired, and the rest of event_yield() there. */
    method EventWake(e: nat)
      requires Wf(Abs()) && e < |events| && events[e].owner.Some?
      modifies this
      ensures Abs() == old(Wake(Abs(), e))
    {
      var task := events[e].owner.value;
      if tasks[task].point != Yielding(e) || tasks[task].registered == 0 {
        fatal := true;
        return;
      }
      stack := stack + [task];
      tasks := tasks[task := tasks[task].(point := Active)];
      tasks := tasks[task := tasks[task].(registered := tasks[task].registered - 1)];
      events := events[e := events[e].(flags := NO_FLAGS)];
      events := events[e := events[e].(owner := None)];
    }

    /** One event of the second pass of event_main_run(). */
    method SecondPassOver(found: Flags)
      requires Wf(Abs()) && phase.Visit? && phase.next.Some? && phase.next.value in list
      modifies this
      ensures Abs() == old(VisitEvent(Abs(), found))
    {
      var e := phase.next.value;
      phase := Visit(Next(list, e));
      var flags := NO_FLAGS;
      if found.read && events[e].flags.read {
        flags := flags.(read := true);
      }
      if found.write && events[e].flags.write {
        flags := flags.(write := true);
      }
      if flags == NO_FLAGS {
      } else if events[e].owner.Some? {
        EventWake(e);
      } else if events[e].destroyed {
      } else {
        fatal := true;
      }
    }

    /** event_destroy() */
    method EventDestroy(e: nat)
      requires Wf(Abs()) && e in list
      modifies this
      ensures Abs() == old(Destroy(Abs(), e))
    {
      var owner := events[e].owner;
      if owner.Some? && tasks[owner.value].registered != 0 {
        tasks := tasks[owner.value := tasks[owner.value].(registered := tasks[owner.value].registered - 1)];
      } else if owner.Some? {
        fatal := true;
      }
      events := events[e := events[e].(owner := None)];
      if stack != [] {
        events := events[e := events[e].(destroyed := true)];
      } else {
        list := Queries.Unlink(list, e);
      }
    }

    /** One event of the first pass of event_main_run(): it is destroyed, or may be the one to time out. */
    method PassOver(e: nat, best: Option<nat>, some: bool, ghost s: State, ghost done: seq<nat>, ghost todo: seq<nat>)
      returns (earliest: Option<nat>, active: bool, ghost passed: seq<nat>)
      requires Inv(s) && s.stack == [] && Passing(s, Abs(), done, todo, best, some)
      requires stack == [] && phase == Sweep && FirstOf(todo) == Some(e)
      modifies this
      ensures stack == [] && phase == Sweep && Passing(s, Abs(), passed, todo[1..], earliest, active)
    {
      hide Passing, Listed, Swept, Earliest, Idle, Destroy, FirstOf, Inv;
      earliest, active, passed := best, some, done;
      ghost var w := Abs();
      PassWalks(s, w, done, todo, best, some);
      if events[e].destroyed {
        PassDestroys(s, w, done, todo, best, some);
        EventDestroy(e);
      } else {
        PassSkips(s, w, done, todo, best, some);
        earliest := Earlier(events, earliest, e);
        active := active || events[e].flags != NO_FLAGS;
        passed := done + [e];
      }
    }

    /** The first pass of event_main_run(), which destroys events of the list it walks. */
    method FirstPassOver()
      requires Inv(Abs()) && stack == [] && phase == Sweep
      modifies this
      ensures Abs() == SweepList(old(Abs()))
    {
      var active := false;
      var earliest: Option<nat> := None;
      ghost var s := Abs();
      ghost var done: seq<nat>, todo := [], list;
      hide Passing, Listed, Swept, Earliest, Idle, Destroy, FirstOf, Inv, SweepList;
      PassBegins(s);
      var event := FirstOf(list);
      while event.Some?
        invariant stack == [] && phase == Sweep && Passing(s, Abs(), done, todo, earliest, active)
        invariant event == FirstOf(todo)
        decreases |todo|
      {
        PassWalks(s, Abs(), done, todo, earliest, active);
        var next := Next(list, event.value);
        earliest, active, done := PassOver(event.value, earliest, active, s, done, todo);
        todo := todo[1..];
        event := next;
      }
      FirstOfNothing(todo);
      PassEnds(s, Abs(), done, earliest, active);
      phase := if active then Select(earliest) else Done;
    }
  }

  lemma FirstOfNothing(todo: seq<nat>)
    ensures FirstOf(todo) == None <==> todo == []
    ensures todo != [] ==> FirstOf(todo) == Some(todo[0])
  {
  }

  /** `event_next` is taken before the event can be destroyed. */
  lemma PassWalks(s: State, w: State, done: seq<nat>, todo: seq<nat>, earliest: Option<nat>, active: bool)
    requires Inv(s) && s.stack == [] && Passing(s, w, done, todo, earliest, active) && FirstOf(todo).Some?
    ensures todo != [] && FirstOf(todo) == Some(todo[0]) && Wf(w) && todo[0] < |w.events| && todo[0] in w.list
    ensures Next(w.list, todo[0]) == FirstOf(todo[1..])
    ensures earliest.Some? ==> earliest.value < |w.events|
  {
    NextIsFirst(done, todo);
    assert w.list[|done|] == todo[0];
  }
}
