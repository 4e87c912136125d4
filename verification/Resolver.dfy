/** The resolver and its tasks as the program keeps them: objects whose fields are updated in place.
    Every method is proved against the step of Sync (or the queue operation of Queries) it carries out. */
module Resolver {
  import opened Options
  import opened Clock
  import opened Queries
  import opened Sync
  import opened SyncProof
  import SyncRuns

  /** struct dns_resolve */
  class DnsResolve {
    var owner: nat
    var wait: Option<nat>
    var id: nat
    var timeout: Timeval
    var retry: nat
    var response: int

    constructor (owner: nat, id: nat, timeout: Timeval)
      ensures View() == Resolve(owner, None, id, timeout, 0, 0)
    {
      this.owner, this.wait, this.id, this.timeout, this.retry, this.response := owner, None, id, timeout, 0, 0;
    }

    function View(): Resolve
      reads this
    {
      Resolve(owner, wait, id, timeout, retry, response)
    }
  }

  /** struct event_task; `pc` is where its coroutine goes on. */
  class EventTask {
    var pc: Pc
    var waiting: bool

    constructor ()
      ensures View() == Task(Free, false)
    {
      pc, waiting := Free, false;
    }

    function View(): Task
      reads this
    {
      Task(pc, waiting)
    }
  }

  /** A task that has been freed is one that has exited. */
  function ViewOf(task: EventTask?): Task
    reads task
  {
    if task == null then Task(Exited, false) else task.View()
  }

  /** struct event_main, the resolver's struct event, and struct dns. Tasks and resolves are named by
      their place in `tasks` and `table`; a task that has been freed is null there. */
  class Program {
    var now: Timeval
    var stack: seq<nat>
    var tasks: seq<EventTask?>
    var yielder: Option<nat>
    var ids: nat
    var queue: seq<nat>
    var table: seq<DnsResolve>
    var wire: seq<nat>
    var fatal: bool

    ghost predicate Valid()
      reads this
    {
      && (forall i, j :: 0 <= i < j < |tasks| && tasks[i] != null ==> tasks[i] != tasks[j])
      && (forall i, j :: 0 <= i < j < |table| ==> table[i] != table[j])
      && (forall i :: 0 <= i < |stack| && stack[i] < |tasks| ==> tasks[stack[i]] != null)
    }

    ghost function TaskViews(): seq<Task>
      reads this, tasks
    {
      seq(|tasks|, i requires 0 <= i < |tasks| reads this, tasks => ViewOf(tasks[i]))
    }

    ghost function ResolveViews(): seq<Resolve>
      reads this, table
    {
      seq(|table|, i requires 0 <= i < |table| reads this, table => table[i].View())
    }

    ghost function Abs(): State
      reads this, tasks, table
    {
      State(now, stack, TaskViews(), yielder, Dns(ids, queue, ResolveViews(), wire), fatal)
    }

    constructor (now: Timeval, ids: nat)
      requires Normal(now)
      ensures Valid() && Init(Abs(), ids)
    {
      this.now, stack, tasks, yielder := now, [], [], None;
      this.ids, queue, table, wire, fatal := ids % IDS, [], [], [], false;
    }

    // ----- Single updates -----

    method SetTask(t: nat, pc: Pc, waiting: bool)
      requires Valid() && t < |tasks| && tasks[t] != null
      modifies tasks[t]
      ensures Valid() && Abs() == old(Abs()).(tasks := old(Abs()).tasks[t := Task(pc, waiting)])
      ensures tasks[t].pc == pc && tasks[t].waiting == waiting
    {
      tasks[t].pc, tasks[t].waiting := pc, waiting;
      assert TaskViews() == old(TaskViews())[t := Task(pc, waiting)];
      assert ResolveViews() == old(ResolveViews());
    }

    method SetResolve(h: nat, wait: Option<nat>, timeout: Timeval, retry: nat, response: int)
      requires Valid() && h < |table|
      modifies table[h]
      ensures Valid()
      ensures
        var s := old(Abs());
        var r := s.dns.table[h].(wait := wait, timeout := timeout, retry := retry, response := response);
        Abs() == s.(dns := s.dns.(table := s.dns.table[h := r]))
    {
      var r := table[h];
      r.wait, r.timeout, r.retry, r.response := wait, timeout, retry, response;
      assert ResolveViews() == old(ResolveViews())[h := r.View()];
      assert TaskViews() == old(TaskViews());
    }

    // ----- src/common/event.c -----

    /** event_switch(): go down into task `w`. */
    method EventSwitch(w: nat)
      requires Valid() && (w < |tasks| ==> tasks[w] != null)
      modifies this`stack
      ensures Valid() && Abs() == old(Abs()).(stack := old(stack) + [w])
    {
      stack := stack + [w];
      assert TaskViews() == old(TaskViews()) && ResolveViews() == old(ResolveViews());
    }

    /** The log_fatal() branches: nothing else happens. */
    method Fatal()
      requires Valid()
      modifies this`fatal
      ensures Valid() && Abs() == old(Abs()).(fatal := true)
    {
      fatal := true;
      assert TaskViews() == old(TaskViews()) && ResolveViews() == old(ResolveViews());
    }

    /** co_resume(): back into the task below, which finishes its event_switch(). A task that has exited is freed. */
    method CoResume()
      requires Valid() && StackOk(Abs()) && stack != []
      requires var t := stack[|stack| - 1]; tasks[t].pc.Exited? ==> t !in stack[..|stack| - 1] && !tasks[t].waiting
      modifies this, tasks
      ensures Valid() && table == old(table) && Abs() == Return(old(Abs()))
      ensures var t := old(stack[|stack| - 1]);
        tasks == if old(tasks[t].pc.Exited?) then old(tasks)[t := null] else old(tasks)
    {
      var t := stack[|stack| - 1];
      stack := stack[..|stack| - 1];
      if tasks[t].pc.Exited? {
        tasks := tasks[t := null];
      }
      assert TaskViews() == old(TaskViews()) && ResolveViews() == old(ResolveViews());
      if stack != [] {
        var below := stack[|stack| - 1];
        SetTask(below, Resumed(tasks[below].pc), tasks[below].waiting);
      }
    }

    /** event_task() when the task's function has returned: the task is freed, and no pointer to it is left. */
    method EventTaskExit(ghost first: nat)
      requires Valid() && Inv(Abs(), first) && Enabled(Abs(), Exit)
      modifies this, tasks
      ensures Valid() && table == old(table) && tasks == old(tasks)[old(stack[|stack| - 1]) := null]
      ensures Abs() == Apply(old(Abs()), Exit) && SyncRuns.Forgotten(Abs(), old(stack[|stack| - 1]))
    {
      var t := stack[|stack| - 1];
      ExitIsFinal(Abs(), t, first);
      hide Inv, SyncRuns.Forgotten;
      SetTask(t, Exited, tasks[t].waiting);
      CoResume();
    }

    /** event_pending() */
    method EventPending() returns (pending: bool)
      ensures pending <==> Abs().yielder.Some?
    {
      pending := yielder.Some?;
    }

    /** event_yield() on the resolver's event, up to the switch. */
    method EventYield(t: nat, r: nat, head: nat)
      requires Valid() && StackOk(Abs()) && stack != [] && t == stack[|stack| - 1]
      modifies this, tasks
      ensures Valid() && tasks == old(tasks) && table == old(table) && Abs() == Yield(old(Abs()), t, r, head)
    {
      if yielder.Some? {
        Fatal();
        return;
      }
      yielder := Some(t);
      assert TaskViews() == old(TaskViews()) && ResolveViews() == old(ResolveViews());
      SetTask(t, Yielding(r, head), tasks[t].waiting);
      CoResume();
    }

    /** event_wait(), up to the switch. */
    method EventWait(t: nat, r: nat)
      requires Valid() && StackOk(Abs()) && stack != [] && t == stack[|stack| - 1] && r < |table|
      modifies this, tasks, table
      ensures Valid() && tasks == old(tasks) && table == old(table) && Abs() == Wait(old(Abs()), t, r)
    {
      if tasks[t].waiting || table[r].wait.Some? {
        Fatal();
        return;
      }
      SetResolve(r, Some(t), table[r].timeout, table[r].retry, table[r].response);
      SetTask(t, Waiting(r), true);
      CoResume();
    }

    /** event_notify(): clear the wait pointer of `n` and switch into the task it named. */
    method EventNotify(t: nat, n: nat, pc: Pc)
      requires Valid() && t < |tasks| && tasks[t] != null && n < |table|
      modifies this, tasks, table
      ensures Valid() && tasks == old(tasks) && table == old(table) && Abs() == Notify(old(Abs()), t, n, pc)
    {
      ghost var s := Abs();
      NotifyIs(s, t, n, pc);
      hide Notify;
      var notify := table[n].wait;
      if notify.None? || tasks[t].waiting || notify.value >= |tasks|
         || tasks[notify.value] == null || !tasks[notify.value].pc.Waiting? {
        Fatal();
        return;
      }
      var w := notify.value;
      var r := tasks[w].pc.r;
      SetResolve(n, None, table[n].timeout, table[n].retry, table[n].response);
      SetTask(t, pc, tasks[t].waiting);
      SetTask(w, Loop(r), false);
      EventSwitch(w);
    }

    // ----- src/dns/resolve.c -----

    /** dns_resolve_query() */
    method DnsResolveQuery(t: nat)
      requires Valid()
      modifies this
      ensures Valid() && tasks == old(tasks) && fresh(set r | r in table && r !in old(table))
      ensures Abs() == old(Abs()).(dns := Query(old(Abs()).dns, now, t))
    {
      var timeout := TimestampFromTimeout(now, PATIENCE);
      var resolve := new DnsResolve(t, ids, timeout);
      ids := (ids + 1) % IDS;
      wire := wire + [|table|];
      queue := queue + [|table|];
      table := table + [resolve];
      assert ResolveViews() == old(ResolveViews()) + [resolve.View()];
      assert TaskViews() == old(TaskViews());
    }

    /** dns_resolve_retry() */
    method DnsResolveRetry(h: nat)
      requires Valid() && Wf(Abs().dns) && h in queue
      modifies this, table
      ensures Valid() && tasks == old(tasks) && table == old(table)
      ensures Abs() == old(Abs()).(dns := Retry(old(Abs()).dns, now, h))
    {
      var timeout := TimestampFromTimeout(now, PATIENCE);
      wire := wire + [h];
      queue := Unlink(queue, h) + [h];
      assert TaskViews() == old(TaskViews()) && ResolveViews() == old(ResolveViews());
      SetResolve(h, table[h].wait, timeout, table[h].retry + 1, table[h].response);
    }

    method DnsResolveSettle(h: nat, response: int)
      requires Valid() && Wf(Abs().dns) && h in queue
      modifies this, table
      ensures Valid() && tasks == old(tasks) && table == old(table)
      ensures Abs() == old(Abs()).(dns := Settle(old(Abs()).dns, h, response))
    {
      queue := Unlink(queue, h);
      assert TaskViews() == old(TaskViews()) && ResolveViews() == old(ResolveViews());
      SetResolve(h, table[h].wait, table[h].timeout, table[h].retry, response);
    }

    /** The TAILQ_FOREACH scan of dns_resolve_response(). */
    method FindById(id: nat) returns (m: Option<nat>)
      requires Valid() && Wf(Abs().dns)
      ensures m == Match(Abs().dns, id)
    {
      var i := 0;
      while i < |queue|
        invariant 0 <= i <= |queue|
        invariant Match(Abs().dns, id, 0) == Match(Abs().dns, id, i)
      {
        if table[queue[i]].id == id {
          return Some(queue[i]);
        }
        i := i + 1;
      }
      return None;
    }

    /** dns_resolve_response(), from the point where either the head's deadline is found past or a
        datagram is there. Returns the settled resolve, or None for the C function's 1. */
    method DnsResolveResponse(head: nat, recv: Recv, expired: bool) returns (next: Option<nat>)
      requires Valid() && Wf(Abs().dns) && head in queue
      modifies this, table
      ensures Valid() && tasks == old(tasks) && table == old(table)
      ensures
        var s := old(Abs());
        var o := if expired then Expire(s.dns, s.now, head) else Received(s.dns, s.now, head, recv);
        Abs() == s.(dns := o.dns) && next == o.next
    {
      if expired || !recv.Reply? {
        if table[head].retry < RETRIES {
          DnsResolveRetry(head);
          return None;
        }
        DnsResolveSettle(head, -1);
        return Some(head);
      }
      var m := FindById(recv.id);
      if m.Some? {
        DnsResolveSettle(m.value, 1);
      }
      return m;
    }

    /** The rest of the loop body of dns_resolve_sync(). */
    method Dispatch(t: nat, r: nat, next: Option<nat>)
      requires Valid() && t < |tasks| && tasks[t] != null && (next.Some? ==> next.value < |table|)
      modifies this, tasks, table
      ensures Valid() && tasks == old(tasks) && table == old(table)
      ensures Abs() == AfterResponse(old(Abs()), t, r, Outcome(old(Abs()).dns, next))
    {
      if next.None? {
        SetTask(t, Loop(r), tasks[t].waiting);
      } else if next.value == r {
        SetTask(t, Poke(r), tasks[t].waiting);
      } else if table[next.value].wait.None? {
        SetTask(t, Loop(r), tasks[t].waiting);
      } else {
        EventNotify(t, next.value, Notifying(r));
      }
    }

    /** dns_resolve_response() and what the loop does with its outcome. */
    method Receive(t: nat, r: nat, head: nat, recv: Recv, expired: bool)
      requires Valid() && Wf(Abs().dns) && head in queue && t < |tasks| && tasks[t] != null
      modifies this, tasks, table
      ensures Valid() && tasks == old(tasks) && table == old(table)
      ensures
        var s := old(Abs());
        var o := if expired then Expire(s.dns, s.now, head) else Received(s.dns, s.now, head, recv);
        (o.next.Some? ==> o.next.value < |o.dns.table|) && Abs() == AfterResponse(s, t, r, o)
    {
      var next := DnsResolveResponse(head, recv, expired);
      ghost var s := Abs();
      Dispatch(t, r, next);
      assert AfterResponse(s, t, r, Outcome(s.dns, next)) == AfterResponse(old(Abs()), t, r, Outcome(s.dns, next));
    }

    /** One turn of the loop of dns_resolve_sync() in the running task. */
    method SyncTurn(recv: Recv)
      requires Valid() && Enabled(Abs(), Turn(recv)) && Defined(Abs(), Turn(recv))
      modifies this, tasks, table
      ensures Valid() && tasks == old(tasks) && table == old(table)
      ensures Abs() == LoopTurn(old(Abs()), recv)
    {
      hide AfterResponse, Expire, Received, Yield, Wait, Return;
      var t := stack[|stack| - 1];
      var r := tasks[t].pc.r;
      if table[r].response != 0 {
        SetTask(t, Poke(r), tasks[t].waiting);
        return;
      }
      var pending := EventPending();
      if pending {
        EventWait(t, r);
        return;
      }
      var head := queue[0];
      var err, _ := TimeoutFromTimestamp(now, table[head].timeout);
      if err == 0 && recv.Nothing? {
        EventYield(t, r, head);
      } else {
        Receive(t, r, head, recv, err != 0);
      }
    }

    /** dns_resolve_sync() after its loop. */
    method SyncAfterLoop()
      requires Valid() && Enabled(Abs(), AfterLoop) && Defined(Abs(), AfterLoop)
      modifies this, tasks, table
      ensures Valid() && tasks == old(tasks) && table == old(table)
      ensures Abs() == PokeTurn(old(Abs()))
    {
      var t := stack[|stack| - 1];
      if queue == [] || table[queue[0]].wait.None? {
        SetTask(t, Free, tasks[t].waiting);
      } else {
        EventNotify(t, queue[0], Poking(tasks[t].pc.r));
      }
    }

    /** event_switch() from main into the yielding task, which clears event->task. */
    method EnterYielder() returns (t: nat, r: nat, head: nat)
      requires Valid() && stack == [] && yielder.Some? && yielder.value < |tasks|
      requires tasks[yielder.value] != null && tasks[yielder.value].pc.Yielding?
      modifies this, tasks
      ensures Valid() && tasks == old(tasks) && table == old(table) && t == old(yielder.value)
      ensures old(Abs()).tasks[t].pc == Yielding(r, head)
      ensures Abs() == SetPc(old(Abs()).(stack := [t], yielder := None), t, Loop(r))
    {
      t := yielder.value;
      r, head := tasks[t].pc.r, tasks[t].pc.head;
      stack, yielder := [t], None;
      assert TaskViews() == old(TaskViews()) && ResolveViews() == old(ResolveViews());
      SetTask(t, Loop(r), tasks[t].waiting);
    }

    /** event_main_run() reports the resolver's event; the woken task goes on in udp_read(). */
    method MainWake(w: Wakeup)
      requires Valid() && Enabled(Abs(), Main(w)) && Defined(Abs(), Main(w))
      modifies this, tasks, table
      ensures Valid() && tasks == old(tasks) && table == old(table)
      ensures Abs() == Wake(old(Abs()), w)
    {
      var t, r, head := EnterYielder();
      if w == Readable(Nothing) {
        EventYield(t, r, head);
      } else {
        Receive(t, r, head, if w.TimedOut? then Nothing else w.recv, w.TimedOut?);
      }
    }

    /** The loop of dns_resolve_sync() in the running task, and the poke after it, up to the point where
        control leaves the task. `recvs` is what the socket holds at each turn, `trace` the states
        after each. A call that comes to its end without having been switched away has its response. */
    method DnsResolveSync(recvs: seq<Recv>, ghost first: nat) returns (ghost trace: seq<State>)
      requires Valid() && stack != [] && stack[|stack| - 1] < |tasks| && tasks[stack[|stack| - 1]].pc.Loop?
      requires Inv(Abs(), first)
      modifies this, tasks, table
      ensures Valid() && tasks == old(tasks) && table == old(table)
      ensures Turns(trace, old(stack[|stack| - 1]), recvs) && trace[0] == old(Abs())
      ensures Ends(trace[|trace| - 1], old(stack[|stack| - 1]), |trace| - 1 == |recvs|, Abs())
      ensures Responded(Abs(), old(stack[|stack| - 1]), old(tasks[stack[|stack| - 1]].pc.r))
    {
      hide LoopTurn, PokeTurn, Inv, Enabled, Defined;
      var t := stack[|stack| - 1];
      ghost var r := tasks[t].pc.r;
      ghost var s := Abs();
      trace := [s];
      var i := 0;
      while i < |recvs| && stack != [] && stack[|stack| - 1] == t && tasks[t].pc.Loop?
        invariant 0 <= i <= |recvs|
        invariant Valid() && tasks == old(tasks) && table == old(table) && Abs() == s
        invariant InCall(s, t, r, first)
        invariant |trace| == i + 1 && trace[0] == old(Abs()) && trace[i] == s && Turns(trace, t, recvs)
      {
        CallTurn(s, t, r, recvs[i], first);
        SyncTurn(recvs[i]);
        s, i := Abs(), i + 1;
        trace := trace + [s];
      }
      CallEnd(s, t, r, first);
      if stack != [] && stack[|stack| - 1] == t && tasks[t].pc.Poke? {
        SyncAfterLoop();
      }
    }
  }

  lemma NotifyIs(s: State, t: nat, n: nat, pc: Pc)
    requires t < |s.tasks| && n < |s.dns.table|
    ensures
      var wait := s.dns.table[n].wait;
      Notify(s, t, n, pc) ==
      if wait.None? || s.tasks[t].waiting || wait.value >= |s.tasks| || !s.tasks[wait.value].pc.Waiting?
      then s.(fatal := true)
      else
        s.(dns := s.dns.(table := s.dns.table[n := s.dns.table[n].(wait := None)]),
           stack := s.stack + [wait.value],
           tasks := s.tasks[t := s.tasks[t].(pc := pc)][wait.value := Task(Loop(s.tasks[wait.value].pc.r), false)])
  {
  }

  /** The running task is on the stack once, and once it has exited nothing points to it. */
  lemma ExitIsFinal(s: State, t: nat, first: nat)
    requires Inv(s, first) && Enabled(s, Exit) && t == Top(s.stack)
    ensures t !in s.stack[..|s.stack| - 1] && !s.tasks[t].waiting && s.tasks[t].pc.Free?
    ensures StackOk(s) && Defined(s, Exit) && SyncRuns.Forgotten(Apply(s, Exit), t)
  {
    StepInv(s, Exit, first);
    assert s.tasks[t].pc.Free? && !s.tasks[t].waiting && t !in s.stack[..|s.stack| - 1];
    assert SyncRuns.Gone(Apply(s, Exit), t);
    hide Inv;
    SyncRuns.ExitedIsForgotten(Apply(s, Exit), first, t);
  }

  predicate OnTop(s: State, t: nat) {
    s.stack != [] && Top(s.stack) == t
  }

  /** `trace` records consecutive turns of task `t`'s loop, fed with `recvs`. */
  ghost predicate Turns(trace: seq<State>, t: nat, recvs: seq<Recv>) {
    && 1 <= |trace| <= |recvs| + 1
    && forall i :: 0 <= i < |trace| - 1 ==>
         && OnTop(trace[i], t)
         && Enabled(trace[i], Turn(recvs[i])) && Defined(trace[i], Turn(recvs[i]))
         && trace[i + 1] == LoopTurn(trace[i], recvs[i])
  }

  /** After the last turn the task has lost control, or the inputs are used up, or it goes on to poke. */
  ghost predicate Ends(s: State, t: nat, usedUp: bool, s': State) {
    if OnTop(s, t) && Enabled(s, AfterLoop) then Defined(s, AfterLoop) && s' == PokeTurn(s)
    else s' == s && (OnTop(s, t) ==> usedUp)
  }

  /** A task that has come out of dns_resolve_sync(r) has the response. */
  ghost predicate Responded(s: State, t: nat, r: nat) {
    t < |s.tasks| && r < |s.dns.table| && (s.tasks[t].pc.Free? ==> s.dns.table[r].response != 0)
  }

  /** Task `t` is inside dns_resolve_sync(r), before its poke. */
  ghost predicate InCall(s: State, t: nat, r: nat, first: nat) {
    && Inv(s, first)
    && t < |s.tasks| && InSync(s.tasks[t].pc) && s.tasks[t].pc.r == r && !s.tasks[t].pc.Poking?
  }

  lemma SwitchKeepsOthers(s: State, t: nat, r: nat, o: Outcome)
    requires t < |s.tasks| && (o.next.Some? ==> o.next.value < |o.dns.table|)
    requires s.tasks[t].pc == Loop(r)
    ensures
      var s' := AfterResponse(s, t, r, o);
      && |s'.tasks| == |s.tasks|
      && InSync(s'.tasks[t].pc) && s'.tasks[t].pc.r == r && !s'.tasks[t].pc.Poking?
  {
  }

  lemma TurnKeepsResolve(s: State, recv: Recv)
    requires Enabled(s, Turn(recv)) && Defined(s, Turn(recv))
    requires forall i :: 0 <= i < |s.stack| - 1 ==> s.stack[i] != Top(s.stack)
    ensures
      var t, s' := Top(s.stack), LoopTurn(s, recv);
      && |s'.tasks| == |s.tasks|
      && InSync(s'.tasks[t].pc) && s'.tasks[t].pc.r == s.tasks[t].pc.r && !s'.tasks[t].pc.Poking?
  {
    hide Past;
    var t := Top(s.stack);
    var r := s.tasks[t].pc.r;
    if s.dns.table[r].response == 0 && s.yielder.None? {
      SwitchKeepsOthers(s, t, r, Expire(s.dns, s.now, s.dns.queue[0]));
      SwitchKeepsOthers(s, t, r, Received(s.dns, s.now, s.dns.queue[0], recv));
      hide AfterResponse;
    }
  }

  lemma CallShape(s: State, t: nat, r: nat, recv: Recv, first: nat)
    requires InCall(s, t, r, first) && OnTop(s, t) && s.tasks[t].pc.Loop?
    ensures Enabled(s, Turn(recv)) && Defined(s, Turn(recv)) && s.tasks[Top(s.stack)].pc.r == r
    ensures forall i :: 0 <= i < |s.stack| - 1 ==> s.stack[i] != Top(s.stack)
  {
  }

  lemma CallTurn(s: State, t: nat, r: nat, recv: Recv, first: nat)
    requires InCall(s, t, r, first) && OnTop(s, t) && s.tasks[t].pc.Loop?
    ensures Enabled(s, Turn(recv)) && Defined(s, Turn(recv)) && InCall(LoopTurn(s, recv), t, r, first)
  {
    hide Inv, LoopTurn, Enabled, Defined;
    CallShape(s, t, r, recv, first);
    TurnKeepsResolve(s, recv);
    StepInv(s, Turn(recv), first);
  }

  lemma CallEnd(s: State, t: nat, r: nat, first: nat)
    requires InCall(s, t, r, first)
    ensures Responded(s, t, r) && (OnTop(s, t) ==> s.tasks[t].pc.Loop? || s.tasks[t].pc.Poke?)
    ensures OnTop(s, t) ==> (Enabled(s, AfterLoop) <==> s.tasks[t].pc.Poke?)
    ensures OnTop(s, t) && s.tasks[t].pc.Poke? ==> Defined(s, AfterLoop) && Responded(PokeTurn(s), t, r)
  {
  }
}
