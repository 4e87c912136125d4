/** What every run of the resolver keeps: no lost wakeup, one settlement per query, deadline order. */
module SyncRuns {
  import opened Options
  import opened Clock
  import opened Queries
  import opened Sync
  import opened SyncProof

  /** `states` is the history of a run that took the steps `steps`; tasks, queries, datagrams, timeouts
      and clock readings are all chosen freely. */
  ghost predicate Run(states: seq<State>, steps: seq<Action>, first: nat) {
    && |states| == |steps| + 1
    && Init(states[0], first)
    && forall i :: 0 <= i < |steps| ==>
         Enabled(states[i], steps[i]) && Defined(states[i], steps[i]) && states[i + 1] == Apply(states[i], steps[i])
  }

  lemma InitInv(s: State, first: nat)
    requires Init(s, first)
    ensures Inv(s, first)
  {
    assert StackInv(s) && EventInv(s) && TaskInv(s, None);
  }

  lemma {:induction false} RunInv(states: seq<State>, steps: seq<Action>, first: nat, i: nat)
    requires Run(states, steps, first) && i < |states|
    ensures Inv(states[i], first)
  {
    if i == 0 {
      InitInv(states[0], first);
    } else {
      RunInv(states, steps, first, i - 1);
      StepInv(states[i - 1], steps[i - 1], first);
    }
  }

  // ----- No lost wakeup -----

  /** The resolver is being looked after: one task yields on its event for a pending resolve of its
      own, and whoever else has a pending resolve waits to be notified. */
  ghost predicate Attended(s: State, t: nat) {
    && t < |s.tasks|
    && s.tasks[t].pc.Yielding?
    && s.tasks[t].pc.r in s.dns.queue
    && (forall u :: 0 <= u < |s.tasks| && s.tasks[u].pc.Yielding? ==> u == t)
    && (forall h :: h in s.dns.queue && h < |s.dns.table| && h != s.tasks[t].pc.r ==>
          var w := s.dns.table[h].owner;
          && w != t && w < |s.tasks|
          && s.tasks[w].pc == Waiting(h) && s.tasks[w].waiting
          && s.dns.table[h].wait == Some(w))
  }

  /** In every run, whenever control is back in event_main_run() and a query is pending, some task
      yields on the resolver's event and every other pending query's task waits for it. */
  lemma NoLostWakeup(states: seq<State>, steps: seq<Action>, first: nat, i: nat)
    requires Run(states, steps, first) && i < |states|
    requires states[i].stack == [] && states[i].dns.queue != []
    ensures states[i].yielder.Some? && Attended(states[i], states[i].yielder.value)
  {
    RunInv(states, steps, first, i);
    var s := states[i];
    var t := s.yielder.value;
    forall h | h in s.dns.queue && h < |s.dns.table| && h != s.tasks[t].pc.r
      ensures s.tasks[s.dns.table[h].owner].pc == Waiting(h)
    {
      var w := s.dns.table[h].owner;
      assert !OnStack(s.tasks[w].pc);
    }
  }

  /** No task sleeps in event_wait() for a response that has already come: when main is in control,
      the tasks in event_wait() are exactly those with a pending query, other than the yielding one. */
  lemma NobodyForgotten(states: seq<State>, steps: seq<Action>, first: nat, i: nat, t: nat)
    requires Run(states, steps, first) && i < |states|
    requires states[i].stack == [] && t < |states[i].tasks|
    ensures states[i].tasks[t].pc.Waiting? || states[i].tasks[t].pc.Yielding?
       <==> exists h :: h in states[i].dns.queue && h < |states[i].dns.table| && states[i].dns.table[h].owner == t
  {
    RunInv(states, steps, first, i);
    var s := states[i];
    var pc := s.tasks[t].pc;
    if pc.Waiting? || pc.Yielding? {
      assert pc.r in s.dns.queue;
    }
    if h :| h in s.dns.queue && h < |s.dns.table| && s.dns.table[h].owner == t {
      assert !OnStack(pc);
    }
  }

  // ----- Switching -----

  /** A task that main, event_start() or event_notify() may switch into. */
  predicate Suspended(s: State, t: nat) {
    t == |s.tasks|
    || (t < |s.tasks| && (s.tasks[t].pc.Away? || s.tasks[t].pc.Yielding? || s.tasks[t].pc.Waiting?))
  }

  /** A step pops the running task or switches into suspended ones. */
  predicate Switches(s: State, s': State) {
    || s'.fatal
    || (s.stack != [] && s'.stack == s.stack[..|s.stack| - 1])
    || (s.stack <= s'.stack && forall k :: |s.stack| <= k < |s'.stack| ==> Suspended(s, s'.stack[k]))
  }

  lemma AfterResponseSwitches(s: State, t: nat, r: nat, o: Outcome)
    requires t < |s.tasks| && (o.next.Some? ==> o.next.value < |o.dns.table|)
    ensures
      var s' := AfterResponse(s, t, r, o);
      || s'.fatal
      || s'.stack == s.stack
      || exists w: nat :: s'.stack == s.stack + [w] && w < |s.tasks| && s.tasks[w].pc.Waiting?
  {
  }

  lemma ReceptionSwitches(s: State, t: nat, r: nat, head: nat, recv: Recv)
    requires t < |s.tasks| && Wf(s.dns) && head in s.dns.queue
    ensures
      forall o :: o == Expire(s.dns, s.now, head) || o == Received(s.dns, s.now, head, recv) ==>
        (o.next.Some? ==> o.next.value < |o.dns.table|)
        && var s' := AfterResponse(s, t, r, o);
           || s'.fatal
           || s'.stack == s.stack
           || exists w: nat :: s'.stack == s.stack + [w] && w < |s.tasks| && s.tasks[w].pc.Waiting?
  {
    AfterResponseSwitches(s, t, r, Expire(s.dns, s.now, head));
    AfterResponseSwitches(s, t, r, Received(s.dns, s.now, head, recv));
  }

  lemma StepSwitches(s: State, a: Action)
    requires Enabled(s, a) && Defined(s, a)
    ensures Switches(s, Apply(s, a))
  {
    hide AfterResponse, Expire, Received;
    if a.Main? {
      var t := s.yielder.value;
      var s1 := SetPc(s.(stack := [t], yielder := None), t, Loop(s.tasks[t].pc.r));
      ReceptionSwitches(s1, t, s.tasks[t].pc.r, s.tasks[t].pc.head, if a.w.TimedOut? then Nothing else a.w.recv);
    } else if a.Turn? && s.dns.queue != [] {
      var t := Top(s.stack);
      ReceptionSwitches(s, t, s.tasks[t].pc.r, s.dns.queue[0], a.recv);
    }
  }

  /** The tasks a step switches into were suspended, so none was already on the stack: no chain of
      notifications bites its own tail. No log_fatal() branch of event.c is ever taken, and the stack
      never holds a task twice. */
  lemma SwitchTargets(states: seq<State>, steps: seq<Action>, first: nat, i: nat)
    requires Run(states, steps, first) && i < |steps|
    ensures Switches(states[i], states[i + 1]) && !states[i + 1].fatal
    ensures Distinct(states[i + 1].stack)
    ensures forall t :: Suspended(states[i], t) ==> t !in states[i].stack
  {
    RunInv(states, steps, first, i);
    RunInv(states, steps, first, i + 1);
    StepSwitches(states[i], steps[i]);
  }

  /** Nothing points to the task: it is not on the stack, no event and no wait pointer names it, and it owns no
      pending query. */
  ghost predicate Forgotten(s: State, t: nat) {
    && t !in s.stack && s.yielder != Some(t)
    && (forall h :: 0 <= h < |s.dns.table| ==> s.dns.table[h].wait != Some(t))
    && (forall h :: h in s.dns.queue && h < |s.dns.table| ==> s.dns.table[h].owner != t)
  }

  lemma ExitedIsForgotten(s: State, first: nat, t: nat)
    requires Inv(s, first) && Gone(s, t)
    ensures Forgotten(s, t)
  {
    hide StackComplete, Sorted, Numbered, Transmitted, Conserved, Alive;
  }

  predicate Gone(s: State, t: nat) {
    t < |s.tasks| && s.tasks[t].pc.Exited?
  }

  lemma StepOfRun(states: seq<State>, steps: seq<Action>, first: nat, i: nat)
    requires Run(states, steps, first) && i < |steps|
    ensures |states| == |steps| + 1 && Enabled(states[i], steps[i]) && Defined(states[i], steps[i])
    ensures states[i + 1] == Apply(states[i], steps[i])
  {
    hide Init, Enabled, Defined, Apply;
  }

  lemma ReturnKeepsGone(s: State, t: nat)
    requires StackOk(s) && s.stack != [] && Gone(s, t)
    ensures Gone(Return(s), t)
  {
  }

  lemma ResponseKeepsGone(s: State, u: nat, r: nat, o: Outcome, t: nat)
    requires u < |s.tasks| && (o.next.Some? ==> o.next.value < |o.dns.table|) && Gone(s, t) && t != u
    ensures Gone(AfterResponse(s, u, r, o), t)
  {
  }

  lemma TurnKeepsGone(s: State, recv: Recv, t: nat)
    requires Enabled(s, Turn(recv)) && Defined(s, Turn(recv)) && Gone(s, t)
    ensures Gone(Apply(s, Turn(recv)), t)
  {
    var u := Top(s.stack);
    var r := s.tasks[u].pc.r;
    hide AfterResponse, Expire, Received, Return;
    if s.dns.table[r].response == 0 && s.yielder.Some? {
      ReturnKeepsGone(s.(dns := SetWait(s.dns, r, Some(u)), tasks := s.tasks[u := Task(Waiting(r), true)]), t);
    } else if s.dns.table[r].response == 0 {
      var head := s.dns.queue[0];
      assert head in s.dns.queue;
      ReturnKeepsGone(SetPc(s.(yielder := Some(u)), u, Yielding(r, head)), t);
      ReceptionIsDefined(s, head, recv);
      ResponseKeepsGone(s, u, r, Expire(s.dns, s.now, head), t);
      ResponseKeepsGone(s, u, r, Received(s.dns, s.now, head, recv), t);
    }
  }

  lemma ReceptionIsDefined(s: State, head: nat, recv: Recv)
    requires Wf(s.dns) && head in s.dns.queue
    ensures forall o :: o == Expire(s.dns, s.now, head) || o == Received(s.dns, s.now, head, recv) ==>
      (o.next.Some? ==> o.next.value < |o.dns.table|)
  {
  }

  lemma MainKeepsGone(s: State, w: Wakeup, t: nat)
    requires Enabled(s, Main(w)) && Defined(s, Main(w)) && Gone(s, t)
    ensures Gone(Apply(s, Main(w)), t)
  {
    var u := s.yielder.value;
    var r, head := s.tasks[u].pc.r, s.tasks[u].pc.head;
    var recv := if w.TimedOut? then Nothing else w.recv;
    var s1 := SetPc(s.(stack := [u], yielder := None), u, Loop(r));
    hide AfterResponse, Expire, Received, Return;
    ReturnKeepsGone(SetPc(s1.(yielder := Some(u)), u, Yielding(r, head)), t);
    ReceptionIsDefined(s, head, recv);
    ResponseKeepsGone(s1, u, r, Expire(s.dns, s.now, head), t);
    ResponseKeepsGone(s1, u, r, Received(s.dns, s.now, head, recv), t);
  }

  lemma ExitedStays(s: State, a: Action, t: nat)
    requires Enabled(s, a) && Defined(s, a) && Gone(s, t)
    ensures Gone(Apply(s, a), t)
  {
    hide LoopTurn, Wake, Return;
    match a
    case Leave => ReturnKeepsGone(SetPc(s, Top(s.stack), Away), t);
    case Exit => ReturnKeepsGone(SetPc(s, Top(s.stack), Exited), t);
    case Turn(recv) => TurnKeepsGone(s, recv, t);
    case Main(w) => MainKeepsGone(s, w, t);
    case _ =>
  }

  lemma GoneNext(states: seq<State>, steps: seq<Action>, first: nat, i: nat, t: nat)
    requires Run(states, steps, first) && i < |steps| && Gone(states[i], t)
    ensures i + 1 < |states| && Gone(states[i + 1], t)
  {
    StepOfRun(states, steps, first, i);
    hide Run, Enabled, Defined, Apply, Gone;
    ExitedStays(states[i], steps[i], t);
  }

  /** Exiting is final. */
  lemma {:induction false} GoneForGood(states: seq<State>, steps: seq<Action>, first: nat, i: nat, j: nat, t: nat)
    requires Run(states, steps, first) && i <= j < |states| && Gone(states[i], t)
    ensures Gone(states[j], t)
    decreases j
  {
    assert |states| == |steps| + 1;
    hide Run, Gone;
    if i < j {
      GoneForGood(states, steps, first, i, j - 1, t);
      GoneNext(states, steps, first, j - 1, t);
    }
  }

  /** event_switch() frees a task that has exited. From then on nothing ever points to it again. */
  lemma FreedIsForgotten(states: seq<State>, steps: seq<Action>, first: nat, i: nat, j: nat, t: nat)
    requires Run(states, steps, first) && i <= j < |states| && Gone(states[i], t)
    ensures Gone(states[j], t) && Forgotten(states[j], t)
  {
    hide Inv;
    GoneForGood(states, steps, first, i, j, t);
    RunInv(states, steps, first, j);
    ExitedIsForgotten(states[j], first, t);
  }

  // ----- Settlement -----

  /** Responses and retries only ever advance; ids and owners are fixed. */
  ghost predicate Keeps(d: Dns, d': Dns) {
    && |d.table| <= |d'.table|
    && forall h :: 0 <= h < |d.table| ==>
         && d'.table[h].id == d.table[h].id
         && d'.table[h].owner == d.table[h].owner
         && d'.table[h].retry >= d.table[h].retry
         && (d.table[h].response != 0 ==> d'.table[h].response == d.table[h].response)
  }

  lemma ExpireKeeps(d: Dns, now: Timeval, h: nat)
    requires QueueInv(d) && h in d.queue
    ensures Keeps(d, Expire(d, now, h).dns)
    ensures forall id :: Keeps(d, Answer(d, id).dns)
  {
  }

  lemma AfterResponseKeeps(s: State, t: nat, r: nat, o: Outcome)
    requires t < |s.tasks| && (o.next.Some? ==> o.next.value < |o.dns.table|)
    requires Keeps(s.dns, o.dns)
    ensures Keeps(s.dns, AfterResponse(s, t, r, o).dns)
  {
  }

  lemma ReceptionKeeps(s: State, t: nat, r: nat, head: nat, recv: Recv)
    requires t < |s.tasks| && QueueInv(s.dns) && head in s.dns.queue
    ensures Keeps(s.dns, AfterResponse(s, t, r, Expire(s.dns, s.now, head)).dns)
    ensures Keeps(s.dns, AfterResponse(s, t, r, Received(s.dns, s.now, head, recv)).dns)
  {
    ExpireKeeps(s.dns, s.now, head);
    AfterResponseKeeps(s, t, r, Expire(s.dns, s.now, head));
    AfterResponseKeeps(s, t, r, Received(s.dns, s.now, head, recv));
  }

  lemma StepKeeps(s: State, a: Action)
    requires QueueInv(s.dns) && Enabled(s, a) && Defined(s, a)
    ensures Keeps(s.dns, Apply(s, a).dns)
  {
    hide AfterResponse, Expire, Received;
    if a.Main? {
      var t := s.yielder.value;
      var r, head := s.tasks[t].pc.r, s.tasks[t].pc.head;
      var s1 := SetPc(s.(stack := [t], yielder := None), t, Loop(r));
      ReceptionKeeps(s1, t, r, head, if a.w.TimedOut? then Nothing else a.w.recv);
    } else if a.Turn? && s.dns.queue != [] {
      var t := Top(s.stack);
      assert s.dns.queue[0] in s.dns.queue;
      ReceptionKeeps(s, t, s.tasks[t].pc.r, s.dns.queue[0], a.recv);
    }
  }

  /** A response is written once and stays, the resolve is never queued again, and a retransmission
      keeps its id. */
  lemma {:induction false} SettledForGood(states: seq<State>, steps: seq<Action>, first: nat, i: nat, j: nat, h: nat)
    requires Run(states, steps, first) && i <= j < |states| && h < |states[i].dns.table|
    ensures Keeps(states[i].dns, states[j].dns)
    ensures states[i].dns.table[h].response != 0 ==>
      states[j].dns.table[h].response == states[i].dns.table[h].response && h !in states[j].dns.queue
    decreases j - i
  {
    RunInv(states, steps, first, i);
    if i < j {
      StepKeeps(states[i], steps[i]);
      SettledForGood(states, steps, first, i + 1, j, h);
    }
  }

  /** Sent is pending plus answered plus timed out, a query is pending exactly when it has no response,
      and nothing is transmitted more than once per allowed retry. */
  lemma Accounting(states: seq<State>, steps: seq<Action>, first: nat, i: nat)
    requires Run(states, steps, first) && i < |states|
    ensures
      var d := states[i].dns;
      && |d.table| == |d.queue| + CountIf(d.table, 1) + CountIf(d.table, -1)
      && Distinct(d.queue)
      && (forall h :: 0 <= h < |d.table| ==> (h in d.queue <==> d.table[h].response == 0))
      && (forall h :: 0 <= h < |d.table| ==> 1 <= multiset(d.wire)[h] <= 6)
      && (forall h :: 0 <= h < |d.table| && d.table[h].response == -1 ==> multiset(d.wire)[h] == 6)
  {
    RunInv(states, steps, first, i);
  }

  // ----- Deadlines -----

  /** dns_resolve_response() keeps a pointer to the head of the queue across its event_yield(). When
      it is switched back into, that resolve is still pending, still at the head, and still has the
      earliest deadline. */
  lemma HeadAcrossYield(states: seq<State>, steps: seq<Action>, first: nat, i: nat, t: nat, h: nat)
    requires Run(states, steps, first) && i < |states|
    requires t < |states[i].tasks| && states[i].tasks[t].pc.Yielding?
    requires h in states[i].dns.queue && h < |states[i].dns.table|
    ensures
      var s := states[i];
      var head := s.tasks[t].pc.head;
      && s.dns.queue[0] == head && head < |s.dns.table| && s.dns.table[head].response == 0
      && Deadline(s.dns, head) <= Deadline(s.dns, h)
  {
    RunInv(states, steps, first, i);
    HeadIsEarliest(states[i].dns, states[i].now, first, h);
  }
}
