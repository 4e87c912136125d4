/** Who runs when: what registering, select()'s answer and a timeout mean for tasks and events, told from flags and
    owners alone, and that a pass of the main loop reaches every event. */
module EventLaws {
  import opened Options
  import opened Clock
  import opened EventLoop
  import Queries

  // ----- Single steps -----

  /** select() reported something that the event is registered for. */
  predicate Reported(s: State, e: nat, found: Flags)
    requires e < |s.events|
  {
    (found.read && s.events[e].flags.read) || (found.write && s.events[e].flags.write)
  }

  /** `t` alone has changed among the tasks, and `e` among the events. */
  ghost predicate Only(s: State, s': State, t: nat, e: nat) {
    && |s'.tasks| == |s.tasks| && |s'.events| == |s.events| && s'.list == s.list && !s'.fatal
    && (forall u :: 0 <= u < |s.tasks| && u != t ==> s'.tasks[u] == s.tasks[u])
    && (forall x :: 0 <= x < |s.events| && x != e ==> s'.events[x] == s.events[x])
  }

  /** The task that owned the event runs; the event is nobody's, and is no longer selected on. */
  ghost predicate Runs(s: State, s': State, e: nat)
    requires e < |s.events| && s.events[e].owner.Some?
  {
    var t := s.events[e].owner.value;
    && Only(s, s', t, e) && s'.stack == s.stack + [t]
    && t < |s'.tasks| && s'.tasks[t].point == Active && s'.tasks[t].registered == s.tasks[t].registered - 1
    && s'.events[e] == s.events[e].(owner := None, flags := Flags(false, false, false))
  }

  /** `next` comes right after `e` in the list. */
  ghost predicate Follows(list: seq<nat>, e: nat, next: Option<nat>) {
    exists i: nat :: FollowsAt(list, i, e, next)
  }

  predicate FollowsAt(list: seq<nat>, i: nat, e: nat, next: Option<nat>) {
    i < |list| && list[i] == e && next == if i + 1 < |list| then Some(list[i + 1]) else None
  }

  lemma NextFollows(list: seq<nat>, e: nat)
    requires e in list
    ensures Follows(list, e, Next(list, e))
  {
    assert FollowsAt(list, Queries.Position(list, e), e, Next(list, e));
  }

  /** What holds of an event on the list. */
  lemma ListedEvent(s: State, e: nat)
    requires Inv(s) && e in s.list
    ensures e < |s.events|
    ensures s.events[e].flags != NO_FLAGS ==> s.events[e].owner.Some? || s.events[e].destroyed
    ensures s.events[e].owner.Some? ==>
      var t := s.events[e].owner.value;
      t < |s.tasks| && s.tasks[t].point == Yielding(e) && s.tasks[t].registered == 1
  {
    var i :| 0 <= i < |s.list| && s.list[i] == e;
    if s.events[e].owner.Some? {
      assert Owns(s, s.events[e].owner.value);
    }
    hide Queries.Distinct, StackInv, PhaseInv;
  }

  /** In the second pass an event's task runs if and only if it has one and select() reported something the event is
      registered for; otherwise the pass goes on to the next event. */
  lemma VisitRuns(s: State, found: Flags)
    requires Inv(s) && Enabled(s, SecondPass(found)) && s.phase.next.Some?
    ensures Defined(s, SecondPass(found)) && s.phase.next.value < |s.events|
    ensures var e, s' := s.phase.next.value, Apply(s, SecondPass(found));
      && s'.phase.Visit? && Follows(s.list, e, s'.phase.next)
      && if s.events[e].owner.Some? && Reported(s, e, found) then Runs(s, s', e) else s' == s.(phase := s'.phase)
  {
    var e := s.phase.next.value;
    StepInv(s, SecondPass(found));
    assert e in s.list && !s.fatal;
    ListedEvent(s, e);
    NextFollows(s.list, e);
    hide Inv, Follows, Next, Queries.Position;
  }

  /** At a timeout the task of the event that was chosen runs. */
  lemma TimeoutRuns(s: State)
    requires Inv(s) && Enabled(s, TimedOut)
    ensures Defined(s, TimedOut) && s.phase.earliest.value < |s.events|
    ensures var e, s' := s.phase.earliest.value, Apply(s, TimedOut);
      s.events[e].owner.Some? && Runs(s, s', e) && s'.phase == Sweep
  {
    StepInv(s, TimedOut);
    var e := s.phase.earliest.value;
    assert Owns(s, s.events[e].owner.value);
    hide StackInv, OwnerInv, PhaseInv;
  }

  /** Yielding on an event that is nobody's, for anything at all, registers the running task for exactly that and
      takes it off the stack; otherwise it is refused, and the task goes on. */
  lemma YieldRegisters(s: State, e: nat, flags: Flags, deadline: Timeval)
    requires Inv(s) && Enabled(s, YieldOn(e, flags, deadline))
    ensures Defined(s, YieldOn(e, flags, deadline)) && e < |s.events|
    ensures var t, s' := s.stack[|s.stack| - 1], Apply(s, YieldOn(e, flags, deadline));
      if s.events[e].owner.Some? || !(flags.read || flags.write || flags.timeout) then s' == s
      else
        && Only(s, s', t, e) && s'.phase == s.phase && s'.stack == s.stack[..|s.stack| - 1]
        && t < |s'.tasks| && s'.tasks[t].point == Yielding(e)
        && s'.tasks[t].registered == s.tasks[t].registered + 1
        && s'.events[e] == s.events[e].(owner := Some(t), flags := flags, deadline := deadline)
  {
    hide OwnerInv, FlagInv, PhaseInv;
  }

  // ----- Which event may time out -----

  /** A deadline in the epoch's first second counts as none: whatever event with a timeout comes next in the list takes
      its place. */
  lemma FirstSecondIsForgotten(events: seq<Event>, list: seq<nat>, e: nat)
    requires (forall i :: 0 <= i < |list| ==> list[i] < |events|) && e < |events| && events[e].flags.timeout
    requires var b := Earliest(events, list); b.Some? && events[b.value].deadline.sec == 0
    ensures forall i :: 0 <= i < |list + [e]| ==> (list + [e])[i] < |events|
    ensures Earliest(events, list + [e]) == Some(e)
  {
    assert (list + [e])[..|list|] == list;
  }

  /** So the later of two deadlines can be chosen. */
  lemma LaterIsChosen(a: Event, b: Event)
    requires a.flags.timeout && b.flags.timeout && a.deadline == Timeval(0, 1) && b.deadline == Timeval(7, 0)
    ensures Before(a.deadline, b.deadline) && Earliest([a, b], [0, 1]) == Some(1)
  {
    assert [0, 1][..1] == [0] && [0][..0] == [];
    assert Earliest([a, b], []) == None;
    assert Earliest([a, b], [0]) == Some(0);
  }

  // ----- A whole pass -----

  /** The pass has not come to the event yet. */
  ghost predicate Ahead(s: State, e: nat) {
    s.phase.Visit? && s.phase.next.Some?
    && exists i, j :: 0 <= i <= j < |s.list| && s.list[i] == s.phase.next.value && s.list[j] == e
  }

  predicate Reaches(s: State, a: Action, e: nat) {
    a.SecondPass? && s.stack == [] && s.phase == Visit(Some(e))
  }

  /** The pass goes on to the next event, and whatever was ahead still is, but for the one it leaves. */
  lemma PassGoesOn(s: State, s': State, x: nat, e: nat)
    requires Ahead(s, e) && s.phase.next == Some(x) && x != e && Queries.Distinct(s.list)
    requires s'.phase.Visit? && s'.list == s.list && Follows(s.list, x, s'.phase.next)
    ensures Ahead(s', e)
  {
    var i, j :| 0 <= i <= j < |s.list| && s.list[i] == x && s.list[j] == e;
    var k: nat :| FollowsAt(s.list, k, x, s'.phase.next);
    assert k == i;
  }

  lemma ListGrows(s: State, s': State, e: nat)
    requires Ahead(s, e) && s'.phase == s.phase && s.list <= s'.list
    ensures Ahead(s', e)
  {
    var i, j :| 0 <= i <= j < |s.list| && s.list[i] == s.phase.next.value && s.list[j] == e;
    assert s'.list[i] == s.list[i] && s'.list[j] == s.list[j];
  }

  lemma AheadOrReached(s: State, a: Action, e: nat)
    requires Inv(s) && Enabled(s, a) && Defined(s, a) && Ahead(s, e)
    ensures Reaches(s, a, e) || Ahead(Apply(s, a), e)
  {
    assert Queries.Distinct(s.list) && s.phase.Visit? && s.phase.next.Some?;
    if s.stack == [] {
      VisitRuns(s, a.found);
      var x := s.phase.next.value;
      assert Apply(s, a).list == s.list;
      hide Inv, Apply, Runs, Ahead, Follows, Queries.Distinct;
      if x != e {
        PassGoesOn(s, Apply(s, a), x, e);
      }
    } else {
      DestructionIsDelayed(s, a);
      PhaseKept(s, a);
      hide Inv, Apply, Ahead;
      ListGrows(s, Apply(s, a), e);
    }
  }

  lemma PhaseKept(s: State, a: Action)
    requires Enabled(s, a) && Defined(s, a) && s.stack != []
    ensures Apply(s, a).phase == s.phase
  {
  }

  /** A second pass: from its beginning until the main loop is about to look through the list again, with whatever
      the tasks do that it wakes. */
  ghost predicate Pass(ss: seq<State>, aa: seq<Action>) {
    && |ss| == |aa| + 1
    && Inv(ss[0]) && ss[0].stack == [] && ss[0].phase == Visit(FirstOf(ss[0].list))
    && !ss[|aa|].phase.Visit?
    && forall i :: 0 <= i < |aa| ==> Enabled(ss[i], aa[i]) && Defined(ss[i], aa[i]) && ss[i + 1] == Apply(ss[i], aa[i])
  }

  lemma PassStep(ss: seq<State>, aa: seq<Action>, i: nat)
    requires Pass(ss, aa) && i < |aa|
    ensures |ss| == |aa| + 1
    ensures Enabled(ss[i], aa[i]) && Defined(ss[i], aa[i]) && ss[i + 1] == Apply(ss[i], aa[i])
  {
    hide Inv, Enabled, Defined, Apply;
  }

  lemma PassNext(ss: seq<State>, aa: seq<Action>, i: nat, e: nat)
    requires Pass(ss, aa) && i < |aa| && Inv(ss[i]) && Ahead(ss[i], e)
    ensures i + 1 < |ss| && Inv(ss[i + 1]) && (Reaches(ss[i], aa[i], e) || Ahead(ss[i + 1], e))
  {
    PassStep(ss, aa, i);
    hide Pass, Inv, Enabled, Defined, Apply, Ahead, Reaches;
    StepInv(ss[i], aa[i]);
    AheadOrReached(ss[i], aa[i], e);
  }

  lemma {:induction false} PassUpTo(ss: seq<State>, aa: seq<Action>, n: nat, e: nat)
    requires Pass(ss, aa) && n <= |aa| && e in ss[0].list
    ensures n < |ss| && Inv(ss[n])
    ensures Ahead(ss[n], e) || exists i: nat :: i < n && Inv(ss[i]) && Reaches(ss[i], aa[i], e)
  {
    if n == 0 {
      var j :| 0 <= j < |ss[0].list| && ss[0].list[j] == e;
      hide Inv;
    } else {
      assert |ss| == |aa| + 1;
      hide Pass, Inv, Ahead, Reaches;
      PassUpTo(ss, aa, n - 1, e);
      if Ahead(ss[n - 1], e) {
        PassNext(ss, aa, n - 1, e);
      } else {
        PassKeeps(ss, aa, n - 1);
      }
    }
  }

  lemma PassKeeps(ss: seq<State>, aa: seq<Action>, i: nat)
    requires Pass(ss, aa) && i < |aa| && Inv(ss[i])
    ensures i + 1 < |ss| && Inv(ss[i + 1])
  {
    PassStep(ss, aa, i);
    hide Pass, Inv, Enabled, Defined, Apply;
    StepInv(ss[i], aa[i]);
  }

  /** A second pass comes to every event that was on the list, whatever the tasks do to the list meanwhile, and runs its
      task if it then has one and something was reported that it is registered for. */
  lemma EveryEventIsVisited(ss: seq<State>, aa: seq<Action>, e: nat) returns (i: nat)
    requires Pass(ss, aa) && e in ss[0].list
    ensures i < |aa| == |ss| - 1 && Reaches(ss[i], aa[i], e) && e < |ss[i].events|
    ensures ss[i].events[e].owner.Some? && Reported(ss[i], e, aa[i].found) ==> Runs(ss[i], ss[i + 1], e)
  {
    assert |ss| == |aa| + 1;
    PassUpTo(ss, aa, |aa|, e);
    assert !Ahead(ss[|aa|], e);
    i :| i < |aa| && Inv(ss[i]) && Reaches(ss[i], aa[i], e);
    PassStep(ss, aa, i);
    hide Pass, Inv, Apply, Runs;
    VisitRuns(ss[i], aa[i].found);
  }
}
