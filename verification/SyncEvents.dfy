/** The two models of src/common/event.c agree: what Sync says about the resolver's one event is what EventLoop's
    main loop and tasks can do. Event 0 is the resolver's; event t + 1 stands for whatever task t sleeps on when it is
    away from the resolver. Every run of the resolver is one of the event loop; and the main loop does nothing to the
    tasks that Sync does not know. */
module SyncEvents {
  import opened Options
  import opened Clock
  import opened Sync
  import opened SyncRuns
  import SyncProof
  import Queries
  import Loop = EventLoop

  const AWAY := Loop.Flags(true, false, false)
  const RECEIVING := Loop.Flags(true, false, true)     // udp_read() yields for a datagram or the timeout

  function PointOf(t: nat, pc: Pc): Loop.Point {
    match pc
    case Exited => Loop.Exited
    case Away => Loop.Yielding(t + 1)
    case Yielding(_, _) => Loop.Yielding(0)
    case Waiting(_) => Loop.Suspended
    case _ => Loop.Active
  }

  /** Who owns event `x`. */
  function OwnerOf(s: State, x: nat): Option<nat>
    requires x <= |s.tasks|
  {
    if x == 0 then s.yielder else if s.tasks[x - 1].pc.Away? then Some((x - 1) as nat) else None
  }

  function FlagsOf(x: nat): Loop.Flags {
    if x == 0 then RECEIVING else AWAY
  }

  ghost predicate LooksEvents(s: State, e: Loop.State) {
    && |e.events| == |s.tasks| + 1
    && (forall x :: 0 <= x < |e.events| ==>
          && e.events[x].owner == OwnerOf(s, x) && !e.events[x].destroyed
          && (e.events[x].owner.Some? ==> e.events[x].flags == FlagsOf(x)))
  }

  ghost predicate LooksTasks(s: State, e: Loop.State) {
    && |e.tasks| == |s.tasks|
    && forall t :: 0 <= t < |s.tasks| ==> e.tasks[t].point == PointOf(t, s.tasks[t].pc)
  }

  predicate Upto(list: seq<nat>, n: nat) {
    |list| == n && forall i :: 0 <= i < n ==> list[i] == i
  }

  /** `e` is a state of the event loop, between two steps of its main loop or inside a task, that looks like `s`. */
  ghost predicate Looks(s: State, e: Loop.State) {
    && Loop.Inv(e) && (e.phase.Sweep? || e.phase.Visit?)
    && e.stack == s.stack && Upto(e.list, |s.tasks| + 1)
    && LooksEvents(s, e) && LooksTasks(s, e)
  }

  // ----- Reachability in the event loop -----

  predicate Steps(a: Loop.State, step: Loop.Action, b: Loop.State) {
    Loop.Enabled(a, step) && Loop.Defined(a, step) && b == Loop.Apply(a, step)
  }

  ghost predicate Path(es: seq<Loop.State>, aa: seq<Loop.Action>) {
    |es| == |aa| + 1 && forall i :: 0 <= i < |aa| ==> Steps(es[i], aa[i], es[i + 1])
  }

  ghost predicate Leads(a: Loop.State, b: Loop.State) {
    exists es: seq<Loop.State>, aa: seq<Loop.Action> :: Path(es, aa) && es[0] == a && es[|aa|] == b
  }

  lemma LeadsNowhere(a: Loop.State)
    ensures Leads(a, a)
  {
    assert Path([a], []);
  }

  lemma LeadsOn(a: Loop.State, b: Loop.State, step: Loop.Action)
    requires Leads(a, b) && Loop.Enabled(b, step) && Loop.Defined(b, step)
    ensures Leads(a, Loop.Apply(b, step))
  {
    var c := Loop.Apply(b, step);
    assert Steps(b, step, c);
    hide Steps, Loop.Enabled, Loop.Defined, Loop.Apply;
    var es: seq<Loop.State>, aa: seq<Loop.Action> :| Path(es, aa) && es[0] == a && es[|aa|] == b;
    var ss, ll := es + [c], aa + [step];
    forall i | 0 <= i < |ll|
      ensures Steps(ss[i], ll[i], ss[i + 1])
    {
      if i < |aa| {
        assert Steps(es[i], aa[i], es[i + 1]);
      }
    }
    assert Path(ss, ll) && ss[0] == a && ss[|ll|] == c;
  }

  /** One more step of the event loop, which keeps its invariant. */
  lemma Step(a: Loop.State, b: Loop.State, step: Loop.Action) returns (c: Loop.State)
    requires Leads(a, b) && Loop.Inv(b) && Loop.Enabled(b, step)
    ensures Loop.Defined(b, step) && c == Loop.Apply(b, step)
    ensures Leads(a, c) && Loop.Inv(c)
  {
    hide Loop.Inv, Loop.Enabled, Loop.Defined, Loop.Apply;
    Loop.StepInv(b, step);
    LeadsOn(a, b, step);
    c := Loop.Apply(b, step);
  }

  // ----- The main loop gets where it is needed -----

  lemma NextInOrder(list: seq<nat>, x: nat)
    requires Upto(list, |list|) && x < |list|
    ensures x in list && Loop.Next(list, x) == if x + 1 < |list| then Some(x + 1) else None
  {
    assert list[x] == x;
  }

  /** Passing over an event that is not ready. */
  lemma PassOver(a: Loop.State, b: Loop.State, x: nat) returns (c: Loop.State)
    requires Leads(a, b) && Loop.Inv(b) && b.stack == [] && Upto(b.list, |b.list|)
    requires x < |b.list| && b.phase == Loop.Visit(Some(x))
    ensures Leads(a, c) && Loop.Inv(c)
    ensures c == b.(phase := Loop.Visit(if x + 1 < |b.list| then Some(x + 1) else None))
  {
    c := Step(a, b, Loop.SecondPass(Loop.NO_FLAGS));
    NextInOrder(b.list, x);
  }

  /** The pass goes on to event `y`, or to its end. */
  lemma {:induction false} PassTo(a: Loop.State, b: Loop.State, x: nat, y: nat) returns (c: Loop.State)
    requires Leads(a, b) && Loop.Inv(b) && b.stack == [] && Upto(b.list, |b.list|)
    requires x <= y <= |b.list| && b.phase == Loop.Visit(if x < |b.list| then Some(x) else None)
    ensures Leads(a, c) && Loop.Inv(c)
    ensures c == b.(phase := Loop.Visit(if y < |b.list| then Some(y) else None))
    decreases y - x
  {
    if x == y {
      c := b;
    } else {
      hide Loop.Inv, Leads, Upto;
      c := PassOver(a, b, x);
      c := PassTo(a, c, x + 1, y);
    }
  }

  /** Whatever pass the main loop is in, it can come to its end. */
  lemma EndPass(a: Loop.State, b: Loop.State) returns (c: Loop.State)
    requires Leads(a, b) && Loop.Inv(b) && b.stack == [] && Upto(b.list, |b.list|)
    requires b.phase.Sweep? || b.phase.Visit?
    ensures Leads(a, c) && Loop.Inv(c) && c == b.(phase := Loop.Sweep)
  {
    if b.phase.Sweep? {
      c := b;
    } else {
      var x := if b.phase.next.Some? then b.phase.next.value else |b.list|;
      assert b.phase.next.Some? ==> x < |b.list| by {
        if b.phase.next.Some? {
          var i :| 0 <= i < |b.list| && b.list[i] == x;
        }
      }
      c := PassTo(a, b, x, |b.list|);
      c := Step(a, c, Loop.SecondPass(Loop.NO_FLAGS));
    }
  }

  lemma {:induction false} NothingSwept(e: Loop.State, todo: seq<nat>)
    requires Loop.Wf(e) && e.stack == [] && Loop.Listed(e, todo)
    requires forall x :: 0 <= x < |e.events| ==> !e.events[x].destroyed
    ensures Loop.Swept(e, todo) == e
    decreases |todo|
  {
    if todo != [] {
      Loop.DestroyListed(e, todo);
      NothingSwept(e, todo[1..]);
    }
  }

  lemma {:induction false} EarliestIsZero(events: seq<Loop.Event>, list: seq<nat>)
    requires list != [] && list[0] == 0 && forall i :: 0 <= i < |list| ==> list[i] < |events|
    requires forall i :: 0 <= i < |list| ==> (events[list[i]].flags.timeout <==> i == 0)
    ensures Loop.Earliest(events, list) == Some(0)
  {
    if |list| > 1 {
      EarliestIsZero(events, list[..|list| - 1]);
    } else {
      assert list[..0] == [];
    }
  }

  /** An event that nobody owns is not selected on. */
  lemma UnownedIsIdle(s: State, e: Loop.State, x: nat)
    requires Looks(s, e) && x < |e.events| && e.events[x].owner == None
    ensures e.events[x].flags == Loop.NO_FLAGS
  {
    assert e.list[x] == x;
  }

  /** While event `x` is owned, the first pass comes to select(); the resolver's event is the one that may time out. */
  lemma ToSelect(s: State, a: Loop.State, b: Loop.State, x: nat) returns (c: Loop.State)
    requires Leads(a, b) && Looks(s, b) && b.stack == [] && b.phase.Sweep?
    requires x <= |s.tasks| && OwnerOf(s, x).Some?
    ensures Leads(a, c) && Loop.Inv(c) && c.phase.Select? && c == b.(phase := c.phase)
    ensures x == 0 ==> c.phase.earliest == Some(0)
  {
    c := Step(a, b, Loop.FirstPass);
    NothingSwept(b, b.list);
    assert b.list[x] == x;
    if x == 0 {
      forall i | 0 <= i < |b.list|
        ensures b.events[b.list[i]].flags.timeout <==> i == 0
      {
        if b.events[i].owner == None {
          UnownedIsIdle(s, b, i);
        }
      }
      EarliestIsZero(b.events, b.list);
    }
  }

  lemma LooksInPhase(s: State, b: Loop.State, c: Loop.State)
    requires Looks(s, b) && Loop.Inv(c) && c == b.(phase := c.phase) && (c.phase.Sweep? || c.phase.Visit?)
    ensures Looks(s, c)
  {
    hide Loop.Inv;
  }

  lemma OwnerIsThere(s: State, b: Loop.State, x: nat)
    requires Looks(s, b) && x <= |s.tasks|
    ensures |b.list| == |s.tasks| + 1 == |b.events| && Upto(b.list, |b.list|) && b.events[x].owner == OwnerOf(s, x)
    ensures OwnerOf(s, x).Some? ==> b.events[x].flags == FlagsOf(x)
  {
    hide Loop.Inv;
  }

  /** The main loop can come to any owned event in its second pass. */
  lemma ToVisit(s: State, a: Loop.State, b: Loop.State, x: nat) returns (c: Loop.State)
    requires Leads(a, b) && Looks(s, b) && b.stack == []
    requires x <= |s.tasks| && OwnerOf(s, x).Some?
    ensures Leads(a, c) && Loop.Inv(c) && c == b.(phase := Loop.Visit(Some(x)))
  {
    OwnerIsThere(s, b, x);
    c := EndPass(a, b);
    LooksInPhase(s, b, c);
    c := ToSelect(s, a, c, x);
    assert c.list[0] == 0;
    hide Loop.Inv, Leads, Looks, Upto;
    c := Step(a, c, Loop.Ready);
    c := PassTo(a, c, 0, x);
  }

  lemma VisitWakes(a: Loop.State, b: Loop.State, x: nat) returns (c: Loop.State)
    requires Leads(a, b) && Loop.Inv(b) && b.stack == [] && b.phase == Loop.Visit(Some(x))
    requires x < |b.events| && b.events[x].owner.Some? && b.events[x].flags.read
    ensures x in b.list && Loop.Wf(b) && c == Loop.Wake(b.(phase := Loop.Visit(Loop.Next(b.list, x))), x)
    ensures Leads(a, c) && Loop.Inv(c)
  {
    assert x in b.list && Loop.Wf(b);
    hide Loop.Inv, Leads, Loop.Next, Loop.Wake;
    c := Step(a, b, Loop.SecondPass(AWAY));
  }

  /** The main loop can find any owned event ready and wake its task. */
  lemma WakeReady(s: State, a: Loop.State, b: Loop.State, x: nat) returns (c: Loop.State, phase: Loop.Phase)
    requires Leads(a, b) && Looks(s, b) && b.stack == []
    requires x <= |s.tasks| && OwnerOf(s, x).Some?
    ensures Loop.Wf(b) && x < |b.events|
    ensures phase.Visit? && b.events[x].owner.Some? && c == Loop.Wake(b.(phase := phase), x)
    ensures Leads(a, c) && Loop.Inv(c)
  {
    OwnerIsThere(s, b, x);
    assert Loop.Wf(b);
    hide Loop.Inv, Leads, Looks, Loop.Next, Loop.Wake, Upto, OwnerOf;
    var v := ToVisit(s, a, b, x);
    c := VisitWakes(a, v, x);
    phase := Loop.Visit(Loop.Next(v.list, x));
    assert v.(phase := phase) == b.(phase := phase);
  }

  /** It can also let the resolver's event time out. */
  lemma WakeTimedOut(s: State, a: Loop.State, b: Loop.State) returns (c: Loop.State)
    requires Leads(a, b) && Looks(s, b) && b.stack == [] && s.yielder.Some?
    ensures Loop.Wf(b) && |b.events| > 0
    ensures b.events[0].owner.Some? && c == Loop.Wake(b.(phase := Loop.Sweep), 0)
    ensures Leads(a, c) && Loop.Inv(c)
  {
    OwnerIsThere(s, b, 0);
    c := EndPass(a, b);
    LooksInPhase(s, b, c);
    c := ToSelect(s, a, c, 0);
    hide Leads;
    c := Step(a, c, Loop.TimedOut);
  }

  lemma WokenLooks(s: State, b: Loop.State, c: Loop.State, x: nat, t: nat, pc: Pc)
    requires LooksEvents(s, b) && LooksTasks(s, b) && x <= |s.tasks| && OwnerOf(s, x) == Some(t) && t < |s.tasks|
    requires PointOf(t, s.tasks[t].pc) == Loop.Yielding(x) && PointOf(t, pc) == Loop.Active
    requires c.events == b.events[x := b.events[x].(flags := Loop.NO_FLAGS, owner := None)]
    requires |c.tasks| == |b.tasks| && c.tasks[t].point == Loop.Active
    requires forall u :: 0 <= u < |b.tasks| && u != t ==> c.tasks[u] == b.tasks[u]
    ensures var s1 := SetPc(s.(stack := [t], yielder := if x == 0 then None else s.yielder), t, pc);
      LooksEvents(s1, c) && LooksTasks(s1, c)
  {
  }

  /** The woken task looks as it does in Sync. */
  lemma LooksWoken(s: State, b: Loop.State, c: Loop.State, x: nat, phase: Loop.Phase, pc: Pc)
    requires Looks(s, b) && b.stack == [] && x <= |s.tasks| && OwnerOf(s, x).Some?
    requires phase.Sweep? || phase.Visit?
    requires c == Loop.Wake(b.(phase := phase), x) && Loop.Inv(c)
    requires pc.Free? || pc.Loop?
    ensures var t := OwnerOf(s, x).value;
      && t < |s.tasks|
      && Looks(SetPc(s.(stack := [t], yielder := if x == 0 then None else s.yielder), t, pc), c)
  {
    OwnerIsThere(s, b, x);
    var t := OwnerOf(s, x).value;
    assert Loop.Owns(b, t) && b.tasks[t].point == Loop.Yielding(x) && b.tasks[t].registered == 1;
    assert t < |s.tasks| == |b.tasks| && b.tasks[t].point == PointOf(t, s.tasks[t].pc);
    hide Loop.Inv, Loop.Owns;
    WokenLooks(s, b, c, x, t, pc);
    hide LooksEvents, LooksTasks;
  }

  // ----- Steps of the running task -----

  lemma Quiet(s: State, s1: State, b: Loop.State)
    requires Looks(s, b) && s1.stack == s.stack && s1.yielder == s.yielder && |s1.tasks| == |s.tasks|
    requires forall t :: 0 <= t < |s.tasks| ==> PointOf(t, s1.tasks[t].pc) == PointOf(t, s.tasks[t].pc)
    ensures Looks(s1, b)
  {
    assert forall x :: 0 <= x <= |s.tasks| ==> OwnerOf(s1, x) == OwnerOf(s, x);
  }

  /** Control has gone back to the task below. */
  lemma LooksReturned(s: State, c: Loop.State)
    requires StackOk(s) && s.stack != [] && c.stack == s.stack[..|s.stack| - 1]
    requires Loop.Inv(c) && (c.phase.Sweep? || c.phase.Visit?) && Upto(c.list, |s.tasks| + 1)
    requires LooksEvents(s, c) && LooksTasks(s, c)
    ensures Looks(Return(s), c)
  {
    var s1 := s.(stack := s.stack[..|s.stack| - 1]);
    hide Loop.Inv;
    assert Looks(s1, c);
    Quiet(s1, Return(s), c);
  }

  lemma TopIsActive(s: State, b: Loop.State)
    requires Looks(s, b) && s.stack != []
    ensures Top(s.stack) == Loop.Top(b) < |s.tasks| && b.tasks[Top(s.stack)].point == Loop.Active
    ensures StackOk(s)
  {
  }

  lemma LeftLooks(s: State, b: Loop.State, s1: State, c: Loop.State, t: nat)
    requires LooksEvents(s, b) && LooksTasks(s, b) && t < |s.tasks| == |s1.tasks| && s1.yielder == s.yielder
    requires forall u :: 0 <= u < |s.tasks| && u != t ==> s1.tasks[u] == s.tasks[u]
    requires b.tasks[t].point == Loop.Active && !s1.tasks[t].pc.Away?
    requires c.events == b.events && |c.tasks| == |b.tasks| && c.tasks[t].point == PointOf(t, s1.tasks[t].pc)
    requires forall u :: 0 <= u < |b.tasks| && u != t ==> c.tasks[u] == b.tasks[u]
    ensures LooksEvents(s1, c) && LooksTasks(s1, c)
  {
    assert b.tasks[t].point == PointOf(t, s.tasks[t].pc);
    assert forall x :: 0 <= x <= |s.tasks| ==> OwnerOf(s1, x) == OwnerOf(s, x);
    hide FlagsOf;
  }

  /** event_wait() and the end of a task. */
  lemma SimulateLeave(s: State, a: Loop.State, b: Loop.State, s1: State, step: Loop.Action) returns (c: Loop.State)
    requires Leads(a, b) && Looks(s, b) && s.stack != []
    requires Top(s.stack) < |s.tasks| && s1.stack == s.stack && s1.yielder == s.yielder && |s1.tasks| == |s.tasks|
    requires forall u :: 0 <= u < |s.tasks| && u != Top(s.stack) ==> s1.tasks[u] == s.tasks[u]
    requires
      var pc := s1.tasks[Top(s.stack)].pc;
      if step == Loop.Suspend then pc.Waiting? else step == Loop.Return && pc.Exited?
    ensures StackOk(s1) && Leads(a, c) && Looks(Return(s1), c)
  {
    TopIsActive(s, b);
    assert Loop.Wf(b) && StackOk(s1);
    hide Leads, Loop.Inv;
    c := Step(a, b, step);
    LeftLooks(s, b, s1, c, Top(s.stack));
    hide LooksEvents, LooksTasks;
    LooksReturned(s1, c);
  }

  lemma YieldedLooks(s: State, b: Loop.State, s1: State, c: Loop.State, x: nat, t: nat)
    requires LooksEvents(s, b) && LooksTasks(s, b) && t < |s.tasks| == |s1.tasks|
    requires (x == 0 || x == t + 1) && x < |b.events|
    requires forall u :: 0 <= u < |s.tasks| && u != t ==> s1.tasks[u] == s.tasks[u]
    requires b.tasks[t].point == Loop.Active
    requires
      if x == 0 then s1.tasks[t].pc.Yielding? && s1.yielder == Some(t)
      else s1.tasks[t].pc.Away? && s1.yielder == s.yielder
    requires |c.tasks| == |b.tasks| && c.tasks[t].point == Loop.Yielding(x)
    requires forall u :: 0 <= u < |b.tasks| && u != t ==> c.tasks[u] == b.tasks[u]
    requires |c.events| == |b.events| && forall y :: 0 <= y < |b.events| && y != x ==> c.events[y] == b.events[y]
    requires c.events[x].owner == Some(t) && c.events[x].flags == FlagsOf(x) && !c.events[x].destroyed
    ensures LooksEvents(s1, c) && LooksTasks(s1, c)
  {
    assert forall y :: 0 <= y <= |s.tasks| && y != x ==> OwnerOf(s1, y) == OwnerOf(s, y);
    assert OwnerOf(s1, x) == Some(t);
    hide FlagsOf;
  }

  /** event_yield(), on the resolver's event or on whatever the task sleeps on otherwise. */
  lemma SimulateYield(s: State, a: Loop.State, b: Loop.State, s1: State, x: nat) returns (c: Loop.State)
    requires Leads(a, b) && Looks(s, b) && s.stack != [] && Top(s.stack) < |s.tasks|
    requires x == 0 || x == Top(s.stack) + 1
    requires s1.stack == s.stack && |s1.tasks| == |s.tasks|
    requires forall u :: 0 <= u < |s.tasks| && u != Top(s.stack) ==> s1.tasks[u] == s.tasks[u]
    requires var pc := s1.tasks[Top(s.stack)].pc;
      if x == 0 then pc.Yielding? && s.yielder == None && s1.yielder == Some(Top(s.stack))
      else pc.Away? && s1.yielder == s.yielder
    ensures StackOk(s1) && Leads(a, c) && Looks(Return(s1), c)
  {
    TopIsActive(s, b);
    var t := Top(s.stack);
    OwnerIsThere(s, b, x);
    assert b.list[x] == x;
    assert OwnerOf(s, x) == None by {
      assert b.tasks[t].point == PointOf(t, s.tasks[t].pc);
    }
    assert Loop.Wf(b) && StackOk(s1);
    hide Leads, Loop.Inv;
    c := Step(a, b, Loop.YieldOn(x, FlagsOf(x), Timeval(0, 0)));
    YieldedLooks(s, b, s1, c, x, t);
    hide LooksEvents, LooksTasks;
    LooksReturned(s1, c);
  }

  lemma NotifiedLooks(s: State, b: Loop.State, s1: State, c: Loop.State, w: nat)
    requires LooksEvents(s, b) && LooksTasks(s, b) && w < |s.tasks| == |s1.tasks|
    requires s.tasks[w].pc.Waiting? && PointOf(w, s1.tasks[w].pc) == Loop.Active && s1.yielder == s.yielder
    requires forall u :: 0 <= u < |s.tasks| && u != w ==> PointOf(u, s1.tasks[u].pc) == PointOf(u, s.tasks[u].pc)
    requires c.events == b.events && |c.tasks| == |b.tasks| && c.tasks[w].point == Loop.Active
    requires forall u :: 0 <= u < |b.tasks| && u != w ==> c.tasks[u] == b.tasks[u]
    ensures LooksEvents(s1, c) && LooksTasks(s1, c)
  {
    assert forall x :: 0 <= x <= |s.tasks| ==> OwnerOf(s1, x) == OwnerOf(s, x);
    hide FlagsOf;
  }

  /** event_notify() */
  lemma SimulateNotify(s: State, a: Loop.State, b: Loop.State, s1: State, w: nat) returns (c: Loop.State)
    requires Leads(a, b) && Looks(s, b) && s.stack != []
    requires w < |s.tasks| && s.tasks[w].pc.Waiting? && |s1.tasks| == |s.tasks|
    requires s1.stack == s.stack + [w] && s1.yielder == s.yielder && PointOf(w, s1.tasks[w].pc) == Loop.Active
    requires forall u :: 0 <= u < |s.tasks| && u != w ==> PointOf(u, s1.tasks[u].pc) == PointOf(u, s.tasks[u].pc)
    ensures Leads(a, c) && Looks(s1, c)
  {
    assert b.tasks[w].point == Loop.Suspended;
    hide Leads, Loop.Inv;
    c := Step(a, b, Loop.Notify(w));
    NotifiedLooks(s, b, s1, c, w);
    hide LooksEvents, LooksTasks;
  }

  lemma StartedLooks(s: State, b: Loop.State, c: Loop.State)
    requires LooksEvents(s, b) && LooksTasks(s, b)
    requires c.events == b.events + [Loop.Event(Loop.NO_FLAGS, Timeval(0, 0), None, false)]
    requires c.tasks == b.tasks + [Loop.Task(0, Loop.Active)]
    ensures var s1 := s.(stack := s.stack + [|s.tasks|], tasks := s.tasks + [Task(Free, false)]);
      LooksEvents(s1, c) && LooksTasks(s1, c)
  {
    var s1 := s.(stack := s.stack + [|s.tasks|], tasks := s.tasks + [Task(Free, false)]);
    assert forall x :: 0 <= x <= |s.tasks| ==> OwnerOf(s1, x) == OwnerOf(s, x);
    hide FlagsOf;
  }

  /** event_start(), for a task with an event of its own. */
  lemma SimulateStart(s: State, a: Loop.State, b: Loop.State) returns (c: Loop.State)
    requires Leads(a, b) && Looks(s, b)
    ensures Leads(a, c)
    ensures Looks(s.(stack := s.stack + [|s.tasks|], tasks := s.tasks + [Task(Free, false)]), c)
  {
    c := b;
    if s.stack == [] {
      c := EndPass(a, b);
    }
    hide Leads, Loop.Inv;
    c := Step(a, c, Loop.Create);
    c := Step(a, c, Loop.Start);
    StartedLooks(s, b, c);
    hide LooksEvents, LooksTasks;
  }

  // ----- The simulation -----

  /** What the loop of dns_resolve_sync() does with an outcome. */
  lemma SimulateOutcome(s: State, a: Loop.State, b: Loop.State, t: nat, r: nat, o: Queries.Outcome)
    returns (c: Loop.State)
    requires Leads(a, b) && Looks(s, b) && s.stack != [] && t == Top(s.stack) && t < |s.tasks| && s.tasks[t].pc.Loop?
    requires (o.next.Some? ==> o.next.value < |o.dns.table|) && !AfterResponse(s, t, r, o).fatal
    ensures Leads(a, c) && Looks(AfterResponse(s, t, r, o), c)
  {
    var s' := AfterResponse(s, t, r, o);
    hide Leads, Looks;
    if s'.stack == s.stack {
      c := b;
      Quiet(s, s', b);
    } else {
      var w := o.dns.table[o.next.value].wait.value;
      c := SimulateNotify(s, a, b, s', w);
    }
  }

  lemma SimulateTurn(s: State, a: Loop.State, b: Loop.State, recv: Recv) returns (c: Loop.State)
    requires Leads(a, b) && Looks(s, b) && Enabled(s, Turn(recv)) && Defined(s, Turn(recv)) && !LoopTurn(s, recv).fatal
    ensures Leads(a, c) && Looks(LoopTurn(s, recv), c)
  {
    var t := Top(s.stack);
    var r := s.tasks[t].pc.r;
    hide Leads, Looks, AfterResponse, Return;
    assert s.dns.queue != [] ==> s.dns.queue[0] in s.dns.queue;
    if s.dns.table[r].response != 0 {
      c := b;
      Quiet(s, LoopTurn(s, recv), b);
    } else if s.yielder.Some? {
      var s1 := s.(dns := Queries.SetWait(s.dns, r, Some(t)), tasks := s.tasks[t := Task(Waiting(r), true)]);
      c := SimulateLeave(s, a, b, s1, Loop.Suspend);
    } else {
      var head := s.dns.queue[0];
      if !Past(s.now, s.dns.table[head].timeout) && recv.Nothing? {
        c := SimulateYield(s, a, b, SetPc(s.(yielder := Some(t)), t, Yielding(r, head)), 0);
      } else {
        var expired := Past(s.now, s.dns.table[head].timeout);
        var o := if expired then Queries.Expire(s.dns, s.now, head) else Received(s.dns, s.now, head, recv);
        c := SimulateOutcome(s, a, b, t, r, o);
      }
    }
  }

  lemma SimulateAfterLoop(s: State, a: Loop.State, b: Loop.State) returns (c: Loop.State)
    requires Leads(a, b) && Looks(s, b) && Enabled(s, AfterLoop) && Defined(s, AfterLoop) && !PokeTurn(s).fatal
    ensures Leads(a, c) && Looks(PokeTurn(s), c)
  {
    var s' := PokeTurn(s);
    hide Leads, Looks;
    if s'.stack == s.stack {
      c := b;
      Quiet(s, s', b);
    } else {
      c := SimulateNotify(s, a, b, s', s.dns.table[s.dns.queue[0]].wait.value);
    }
  }

  /** The main loop finds the resolver's event ready or lets it time out. */
  lemma SimulateWake(s: State, a: Loop.State, b: Loop.State, timedOut: bool, r: nat) returns (c: Loop.State)
    requires Leads(a, b) && Looks(s, b) && s.stack == [] && s.yielder.Some? && s.yielder.value < |s.tasks|
    ensures Leads(a, c) && Looks(SetPc(s.(stack := [s.yielder.value], yielder := None), s.yielder.value, Loop(r)), c)
  {
    assert b.stack == [] && OwnerOf(s, 0) == s.yielder;
    hide Leads, Looks;
    var phase := Loop.Sweep;
    if timedOut {
      c := WakeTimedOut(s, a, b);
    } else {
      c, phase := WakeReady(s, a, b, 0);
    }
    LooksWoken(s, b, c, 0, phase, Loop(r));
  }

  /** Main reports the resolver's event, and the woken task goes on. */
  lemma SimulateMain(s: State, a: Loop.State, b: Loop.State, w: Wakeup) returns (c: Loop.State)
    requires Leads(a, b) && Looks(s, b) && Enabled(s, Main(w)) && Defined(s, Main(w)) && !Wake(s, w).fatal
    ensures Leads(a, c) && Looks(Wake(s, w), c)
  {
    hide Leads, Looks, AfterResponse, Return;
    var t := s.yielder.value;
    var r, head := s.tasks[t].pc.r, s.tasks[t].pc.head;
    var s1 := SetPc(s.(stack := [t], yielder := None), t, Loop(r));
    c := SimulateWake(s, a, b, w.TimedOut?, r);
    if w.TimedOut? {
      c := SimulateOutcome(s1, a, c, t, r, Queries.Expire(s.dns, s.now, head));
    } else if w.recv.Nothing? {
      c := SimulateYield(s1, a, c, SetPc(s1.(yielder := Some(t)), t, Yielding(r, head)), 0);
    } else {
      c := SimulateOutcome(s1, a, c, t, r, Received(s.dns, s.now, head, w.recv));
    }
  }

  /** Main goes back to a task that was away: its own event fired. */
  lemma SimulateResume(s: State, a: Loop.State, b: Loop.State, t: nat) returns (c: Loop.State)
    requires Leads(a, b) && Looks(s, b) && Enabled(s, Resume(t))
    ensures Leads(a, c) && Looks(SetPc(s.(stack := [t]), t, Free), c)
  {
    assert b.stack == [];
    hide Leads, Looks;
    var phase;
    c, phase := WakeReady(s, a, b, t + 1);
    LooksWoken(s, b, c, t + 1, phase, Free);
  }

  lemma NotFatal(s: State, step: Action, first: nat)
    requires Inv(s, first) && Enabled(s, step) && Defined(s, step)
    ensures !Apply(s, step).fatal
  {
    SyncProof.StepInv(s, step, first);
    assert EventInv(Apply(s, step));
    hide Inv, Apply;
  }

  /** Every step of Sync is a sequence of steps of the event loop. In particular main really does switch into the
      task that yields on the resolver's event, whenever Sync lets it. */
  lemma Simulates(s: State, step: Action, first: nat, b: Loop.State) returns (c: Loop.State)
    requires Inv(s, first) && Enabled(s, step) && Defined(s, step) && Looks(s, b)
    ensures Leads(b, c) && Looks(Apply(s, step), c)
  {
    LeadsNowhere(b);
    NotFatal(s, step, first);
    hide Inv, Leads, Looks, LoopTurn, PokeTurn, Wake, Return;
    match step
    case Tick(to) =>
      c := b;
      Quiet(s, Apply(s, step), b);
    case Start => c := SimulateStart(s, b, b);
    case Resume(t) => c := SimulateResume(s, b, b, t);
    case Leave => c := SimulateYield(s, b, b, SetPc(s, Top(s.stack), Away), Top(s.stack) + 1);
    case Exit => c := SimulateLeave(s, b, b, SetPc(s, Top(s.stack), Exited), Loop.Return);
    case Send =>
      c := b;
      Quiet(s, Apply(s, step), b);
    case Turn(recv) => c := SimulateTurn(s, b, b, recv);
    case AfterLoop => c := SimulateAfterLoop(s, b, b);
    case Main(w) => c := SimulateMain(s, b, b, w);
  }

  /** The program starts with the resolver's event and no task. */
  lemma Begins(s: State, first: nat) returns (a: Loop.State, b: Loop.State)
    requires Init(s, first)
    ensures Loop.Init(a) && Leads(a, b) && Looks(s, b)
  {
    a := Loop.State([], [], [], [], Loop.Sweep, false);
    LeadsNowhere(a);
    b := Step(a, a, Loop.Create);
  }

  /** After `i` steps of the resolver the event loop is at `es[i]`, which it reached from the one before. */
  ghost predicate Follows(states: seq<State>, es: seq<Loop.State>, i: nat)
    requires i < |states| && i < |es|
  {
    Looks(states[i], es[i]) && (i > 0 ==> Leads(es[i - 1], es[i]))
  }

  /** Every run of the resolver is a run of the event loop. */
  lemma {:induction false} RunsInTheLoop(states: seq<State>, steps: seq<Action>, first: nat, n: nat)
    returns (a: Loop.State, es: seq<Loop.State>)
    requires Run(states, steps, first) && n <= |steps|
    ensures |es| == n + 1 && Loop.Init(a) && Leads(a, es[0])
    ensures forall i :: 0 <= i <= n ==> Follows(states, es, i)
  {
    hide Inv, Init, Enabled, Defined, Apply, Looks, Leads, Loop.Init;
    if n == 0 {
      var b;
      a, b := Begins(states[0], first);
      es := [b];
    } else {
      var front;
      a, front := RunsInTheLoop(states, steps, first, n - 1);
      assert Follows(states, front, n - 1);
      RunInv(states, steps, first, n - 1);
      var c := Simulates(states[n - 1], steps[n - 1], first, front[n - 1]);
      es := front + [c];
      forall i | 0 <= i <= n
        ensures Follows(states, es, i)
      {
        if i < n {
          assert Follows(states, front, i);
        }
      }
    }
  }

  // ----- The other way round: what the main loop can do -----

  /** `e` looks like `s`, wherever the main loop is, as long as it has not ended. */
  ghost predicate LooksInside(s: State, e: Loop.State) {
    && Loop.Inv(e) && !e.phase.Done?
    && e.stack == s.stack && Upto(e.list, |s.tasks| + 1)
    && LooksEvents(s, e) && LooksTasks(s, e)
  }

  /** The task that owns event `x` has been woken: it goes on in the loop of its dns_resolve_sync(), or outside. */
  function Woken(s: State, x: nat): State
    requires x <= |s.tasks| && OwnerOf(s, x).Some? && OwnerOf(s, x).value < |s.tasks|
  {
    var t := OwnerOf(s, x).value;
    var pc := s.tasks[t].pc;
    SetPc(s.(stack := [t], yielder := if x == 0 then None else s.yielder), t, if pc.Yielding? then Loop(pc.r) else Free)
  }

  /** The task `t`, woken in `s1`, comes out of the event_yield() it was in. */
  function GoesOn(s: State, s1: State, t: nat, w: Wakeup): State
    requires t < |s.tasks| == |s1.tasks| && s1.tasks[t].pc.Loop? && StackOk(s1) && s1.stack != []
    requires s.tasks[t].pc.Yielding? && Queries.Wf(s.dns) && s.tasks[t].pc.head in s.dns.queue
  {
    var r, head := s.tasks[t].pc.r, s.tasks[t].pc.head;
    if w.TimedOut? then AfterResponse(s1, t, r, Queries.Expire(s.dns, s.now, head))
    else if w.recv.Nothing? then Yield(s1, t, r, head)
    else AfterResponse(s1, t, r, Received(s.dns, s.now, head, w.recv))
  }

  /** What Sync calls a step goes on from there. */
  lemma WokenGoesOn(s: State, a: Action)
    requires Enabled(s, a) && Defined(s, a) && (a.Resume? || a.Main?)
    ensures a.Resume? ==> OwnerOf(s, a.t + 1) == Some(a.t) && Apply(s, a) == Woken(s, a.t + 1)
    ensures a.Main? ==> OwnerOf(s, 0).Some? && Apply(s, a) == GoesOn(s, Woken(s, 0), OwnerOf(s, 0).value, a.w)
  {
    hide AfterResponse, Yield;
  }

  ghost predicate Wakes(s: State, x: nat, c: Loop.State) {
    x <= |s.tasks| && OwnerOf(s, x).Some? && OwnerOf(s, x).value < |s.tasks| && LooksInside(Woken(s, x), c)
  }

  lemma Asleep(s: State, b: Loop.State, x: nat)
    requires LooksInside(s, b) && x <= |s.tasks| && OwnerOf(s, x).Some?
    ensures |b.events| == |b.list| && OwnerOf(s, x).value < |s.tasks| == |b.tasks|
    ensures b.events[x].owner == OwnerOf(s, x)
    ensures var t := OwnerOf(s, x).value;
      b.tasks[t].point == Loop.Yielding(x) == PointOf(t, s.tasks[t].pc) && b.tasks[t].registered == 1
  {
    var t := OwnerOf(s, x).value;
    assert b.events[x].owner == Some(t);
    assert Loop.Owns(b, t);
  }

  /** Waking an event's task looks the same in both models. */
  lemma WakeIsCovered(s: State, b: Loop.State, x: nat, phase: Loop.Phase, c: Loop.State)
    requires LooksInside(s, b) && s.stack == [] && x <= |s.tasks| && OwnerOf(s, x).Some? && x < |b.events|
    requires Loop.Wf(b) && b.events[x].owner.Some? && c == Loop.Wake(b.(phase := phase), x)
    requires Loop.Inv(c) && !phase.Done?
    ensures Wakes(s, x, c)
  {
    Asleep(s, b, x);
    var t := OwnerOf(s, x).value;
    var pc := s.tasks[t].pc;
    hide Loop.Inv;
    WokenLooks(s, b, c, x, t, if pc.Yielding? then Loop(pc.r) else Free);
    hide LooksEvents, LooksTasks;
  }

  lemma SamePlace(s: State, b: Loop.State, c: Loop.State)
    requires LooksInside(s, b) && Loop.Inv(c) && c == b.(phase := c.phase) && !c.phase.Done?
    ensures LooksInside(s, c)
  {
    hide Loop.Inv;
  }

  /** Only the resolver's event can time out. */
  lemma OnlyTheResolverTimesOut(s: State, b: Loop.State, x: nat)
    requires LooksInside(s, b) && b.phase == Loop.Select(Some(x))
    ensures x == 0 && s.yielder.Some? && OwnerOf(s, 0).Some?
  {
    assert x in b.list;
    assert b.list[x] == x;
    assert b.events[x].owner.Some?;
  }

  lemma VisitIsCovered(s: State, b: Loop.State, found: Loop.Flags)
    requires LooksInside(s, b) && s.stack == [] && b.phase.Visit?
    requires Loop.Defined(b, Loop.SecondPass(found)) && Loop.Inv(Loop.Apply(b, Loop.SecondPass(found)))
    ensures var c := Loop.Apply(b, Loop.SecondPass(found));
      LooksInside(s, c) || exists x: nat :: x <= |s.tasks| && Wakes(s, x, c)
  {
    var c := Loop.Apply(b, Loop.SecondPass(found));
    if b.phase.next.Some? && c.stack != [] {
      var x := b.phase.next.value;
      var i :| 0 <= i < |b.list| && b.list[i] == x;
      assert b.events[x].owner == OwnerOf(s, x);
      hide Loop.Inv;
      WakeIsCovered(s, b, x, Loop.Visit(Loop.Next(b.list, x)), c);
    } else {
      hide Loop.Inv;
      SamePlace(s, b, c);
    }
  }

  lemma SweepIsCovered(s: State, b: Loop.State)
    requires LooksInside(s, b) && s.stack == [] && b.phase.Sweep?
    requires Loop.Defined(b, Loop.FirstPass) && Loop.Inv(Loop.Apply(b, Loop.FirstPass))
    ensures var c := Loop.Apply(b, Loop.FirstPass);
      if forall x :: 0 <= x <= |s.tasks| ==> OwnerOf(s, x) == None then c.phase.Done? else LooksInside(s, c)
  {
    NothingSwept(b, b.list);
    var c := Loop.Apply(b, Loop.FirstPass);
    if x :| 0 <= x <= |s.tasks| && OwnerOf(s, x).Some? {
      assert b.events[b.list[x]].flags == FlagsOf(x);
      assert c == b.(phase := c.phase);
      hide Loop.Inv;
      SamePlace(s, b, c);
    } else {
      forall i | 0 <= i < |b.list|
        ensures b.events[b.list[i]].flags == Loop.NO_FLAGS
      {
        assert b.events[i].owner == OwnerOf(s, i);
      }
    }
  }

  predicate MainStep(step: Loop.Action) {
    step.FirstPass? || step.TimedOut? || step.Ready? || step.SecondPass?
  }

  /** Whatever select() reports, the main loop does nothing to the tasks but what Sync knows: it leaves them alone, or
      wakes the one that yields on the resolver's event, or one that was away; and it ends only when there is none. */
  lemma MainLoopIsCovered(s: State, b: Loop.State, step: Loop.Action)
    requires LooksInside(s, b) && s.stack == [] && MainStep(step) && Loop.Enabled(b, step)
    ensures Loop.Defined(b, step)
    ensures var c := Loop.Apply(b, step);
      || LooksInside(s, c)
      || (c.phase.Done? && forall x :: 0 <= x <= |s.tasks| ==> OwnerOf(s, x) == None)
      || exists x: nat :: x <= |s.tasks| && Wakes(s, x, c)
  {
    Loop.StepInv(b, step);
    var c := Loop.Apply(b, step);
    match step
    case FirstPass => SweepIsCovered(s, b);
    case Ready =>
      hide Loop.Inv;
      SamePlace(s, b, c);
    case TimedOut =>
      OnlyTheResolverTimesOut(s, b, b.phase.earliest.value);
      assert b.events[0].owner == OwnerOf(s, 0);
      hide Loop.Inv;
      WakeIsCovered(s, b, 0, Loop.Sweep, c);
    case SecondPass(found) => VisitIsCovered(s, b, found);
  }

  lemma NobodyOwns(s: State, first: nat)
    requires Inv(s, first) && s.stack == []
    ensures (forall x :: 0 <= x <= |s.tasks| ==> OwnerOf(s, x) == None)
            <==> forall t :: 0 <= t < |s.tasks| ==> s.tasks[t].pc.Exited?
    ensures s.dns.queue != [] ==> OwnerOf(s, 0).Some?
  {
    hide Queries.Sorted, Queries.Numbered, Queries.Transmitted, Queries.Conserved;
    if forall x :: 0 <= x <= |s.tasks| ==> OwnerOf(s, x) == None {
      assert OwnerOf(s, 0) == None;
      forall t | 0 <= t < |s.tasks|
        ensures s.tasks[t].pc.Exited?
      {
        assert OwnerOf(s, t + 1) == None;
        assert !OnStack(s.tasks[t].pc);
      }
    }
  }

  /** event_main_run() ends if and only if every task has exited; in particular not while a query is pending. */
  lemma MainLoopEndsWhenAllExited(s: State, first: nat, b: Loop.State)
    requires Inv(s, first) && LooksInside(s, b) && s.stack == [] && b.phase.Sweep?
    ensures Loop.Enabled(b, Loop.FirstPass) && Loop.Defined(b, Loop.FirstPass)
    ensures Loop.Apply(b, Loop.FirstPass).phase.Done? <==> forall t :: 0 <= t < |s.tasks| ==> s.tasks[t].pc.Exited?
    ensures s.dns.queue != [] ==> !Loop.Apply(b, Loop.FirstPass).phase.Done?
  {
    Loop.StepInv(b, Loop.FirstPass);
    SweepIsCovered(s, b);
    NobodyOwns(s, first);
    hide Inv, Loop.Inv, OwnerOf, Loop.Apply;
  }
}
