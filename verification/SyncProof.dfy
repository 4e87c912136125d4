/** The invariant of Sync is kept by every step, so it holds in every reachable state. */
module SyncProof {
  import opened Options
  import opened Clock
  import opened Queries
  import opened Sync

  // ----- Handing control back -----

  lemma ReturnComplete(s: State, s1: State)
    requires StackInv(s) && s.stack != []
    requires s1.stack == s.stack && |s1.tasks| == |s.tasks|
    requires forall t :: 0 <= t < |s.tasks| && t != Top(s.stack) ==> s1.tasks[t] == s.tasks[t]
    requires !OnStack(s1.tasks[Top(s.stack)].pc)
    ensures StackOk(s1) && StackComplete(Return(s1))
  {
    var s2 := Return(s1);
    forall u | 0 <= u < |s2.tasks| && OnStack(s2.tasks[u].pc)
      ensures u in s2.stack
    {
      var i :| 0 <= i < |s.stack| && s.stack[i] == u;
      assert s2.stack[i] == u;
    }
  }

  lemma ReturnOrder(s: State, s1: State)
    requires StackOrder(s) && s.stack != []
    requires s1.stack == s.stack && |s1.tasks| == |s.tasks|
    requires forall t :: 0 <= t < |s.tasks| && t != Top(s.stack) ==> s1.tasks[t] == s.tasks[t]
    ensures StackOk(s1) && StackOrder(Return(s1))
  {
    var s2 := Return(s1);
    assert forall i :: 0 <= i < |s2.stack| ==> s2.stack[i] == s.stack[i] && s2.stack[i] != Top(s.stack);
  }

  lemma ReturnStack(s: State, s1: State)
    requires StackInv(s) && s.stack != []
    requires s1.stack == s.stack && |s1.tasks| == |s.tasks|
    requires forall t :: 0 <= t < |s.tasks| && t != Top(s.stack) ==> s1.tasks[t] == s.tasks[t]
    requires !OnStack(s1.tasks[Top(s.stack)].pc)
    ensures StackInv(Return(s1))
  {
    ReturnOrder(s, s1);
    ReturnComplete(s, s1);
  }

  lemma ReturnEvent(s: State)
    requires StackOk(s) && s.stack != [] && EventInv(s)
    ensures EventInv(Return(s))
  {
  }

  lemma ReturnPending(s: State)
    requires StackOk(s) && s.stack != [] && PendingInv(s)
    ensures PendingInv(Return(s))
  {
  }

  lemma ReturnTasks(s: State)
    requires StackOk(s) && s.stack != [] && TaskInv(s, None)
    ensures TaskInv(Return(s), None)
  {
    ReturnPending(s);
    hide PendingInv;
  }

  /** A task that steps back from the stack leaves the obliged ones below it obliged. */
  lemma ReturnAlive(s: State, s1: State)
    requires StackInv(s) && s.stack != [] && Alive(s) && s.tasks[Top(s.stack)].pc.Free?
    requires s1.stack == s.stack && s1.dns == s.dns && s1.yielder == s.yielder && |s1.tasks| == |s.tasks|
    requires forall t :: 0 <= t < |s.tasks| && t != Top(s.stack) ==> s1.tasks[t] == s.tasks[t]
    ensures StackOk(Return(s1)) && Alive(Return(s1))
  {
    hide StackComplete;
    var s2 := Return(s1);
    if s2.dns.queue != [] && s2.yielder.None? {
      var i :| 0 <= i < |s.stack| && Obliged(s.tasks[s.stack[i]].pc);
      assert s2.stack[i] == s.stack[i] && Obliged(s2.tasks[s2.stack[i]].pc);
    }
  }

  // ----- Notifying -----

  /** The wait pointer that a notification follows leads to a task in event_wait(). */
  predicate Wakes(s: State, t: nat, n: nat, w: nat) {
    && t < |s.tasks| && n < |s.dns.table| && w < |s.tasks|
    && s.dns.table[n].wait == Some(w) && s.tasks[w].pc == Waiting(n)
    && !s.tasks[t].waiting && !s.tasks[t].pc.Waiting?
  }

  lemma NotifyOrder(s: State, t: nat, n: nat, w: nat, pc: Pc)
    requires StackOrder(s) && s.stack != [] && t == Top(s.stack) && Wakes(s, t, n, w)
    requires pc.Notifying? || pc.Poking?
    ensures StackOrder(Notify(s, t, n, pc))
  {
    assert forall i :: 0 <= i < |s.stack| ==> s.stack[i] != w;
  }

  lemma NotifyComplete(s: State, t: nat, n: nat, w: nat, pc: Pc)
    requires StackOk(s) && StackComplete(s) && s.stack != [] && t == Top(s.stack) && Wakes(s, t, n, w)
    ensures StackComplete(Notify(s, t, n, pc))
  {
    var s' := Notify(s, t, n, pc);
    assert forall u :: u in s.stack ==> u in s'.stack;
    assert s'.stack[|s.stack|] == w;
  }

  lemma NotifyStack(s: State, t: nat, n: nat, w: nat, pc: Pc)
    requires StackInv(s) && s.stack != [] && t == Top(s.stack) && Wakes(s, t, n, w)
    requires pc.Notifying? || pc.Poking?
    ensures
      var s' := Notify(s, t, n, pc);
      StackInv(s') && s'.stack != [] && Obliged(s'.tasks[s'.stack[|s'.stack| - 1]].pc)
  {
    NotifyOrder(s, t, n, w, pc);
    NotifyComplete(s, t, n, w, pc);
    hide StackOrder, StackComplete;
  }

  lemma NotifyEvent(s: State, t: nat, n: nat, w: nat, pc: Pc)
    requires EventInv(s) && Wakes(s, t, n, w) && !s.tasks[t].pc.Yielding?
    requires pc.Notifying? || pc.Poking?
    ensures EventInv(Notify(s, t, n, pc))
  {
  }

  lemma NotifyTasks(s: State, t: nat, n: nat, w: nat, pc: Pc, late: Option<nat>)
    requires TaskInv(s, late) && Wakes(s, t, n, w)
    requires late == None || late == Some(n)
    requires s.tasks[t].pc.Loop? || s.tasks[t].pc.Poke?
    requires pc == if s.tasks[t].pc.Loop? then Notifying(s.tasks[t].pc.r) else Poking(s.tasks[t].pc.r)
    ensures TaskInv(Notify(s, t, n, pc), None)
  {
    assert OwnerInv(Notify(s, t, n, pc));
    NotifyPending(s, t, n, w, pc);
    hide PendingInv;
  }

  lemma NotifyPending(s: State, t: nat, n: nat, w: nat, pc: Pc)
    requires PendingInv(s) && OwnerInv(s) && Wakes(s, t, n, w)
    requires s.tasks[t].pc.Loop? || s.tasks[t].pc.Poke?
    requires pc == if s.tasks[t].pc.Loop? then Notifying(s.tasks[t].pc.r) else Poking(s.tasks[t].pc.r)
    ensures PendingInv(Notify(s, t, n, pc))
  {
  }

  // ----- Settling -----

  /** Settling `late`, or retrying, leaves owners, wait pointers and the other responses alone. */
  ghost predicate Advances(d: Dns, d': Dns, late: Option<nat>) {
    && |d'.table| == |d.table|
    && (forall h :: 0 <= h < |d.table| ==>
          && d'.table[h].owner == d.table[h].owner
          && d'.table[h].wait == d.table[h].wait
          && (late != Some(h) ==> d'.table[h].response == d.table[h].response))
    && (late.Some? ==>
          late.value < |d.table| && d.table[late.value].response == 0 && d'.table[late.value].response != 0)
  }

  lemma AdvanceTasks(s: State, d': Dns, late: Option<nat>)
    requires EventInv(s) && TaskInv(s, None) && s.yielder == None && Advances(s.dns, d', late)
    ensures EventInv(s.(dns := d')) && TaskInv(s.(dns := d'), late)
  {
  }

  lemma ExpireAdvances(d: Dns, now: Timeval, h: nat, first: nat)
    requires DnsInv(d, now, first) && h in d.queue
    ensures var o := Expire(d, now, h); DnsInv(o.dns, now, first) && Advances(d, o.dns, o.next)
  {
    if d.table[h].retry < RETRIES {
      RetryInv(d, now, h, first);
    } else {
      SettleInv(d, now, h, -1, first);
    }
  }

  lemma AnswerAdvances(d: Dns, now: Timeval, id: nat, first: nat)
    requires DnsInv(d, now, first)
    ensures var o := Answer(d, id); DnsInv(o.dns, now, first) && Advances(d, o.dns, o.next)
  {
    if Match(d, id).Some? {
      SettleInv(d, now, Match(d, id).value, 1, first);
    }
  }

  /** If nobody waits for the settled resolve, nobody is late. */
  lemma NoLateWaiter(s: State, late: nat)
    requires TaskInv(s, Some(late)) && late < |s.dns.table|
    requires s.dns.table[late].wait == None
      || (s.dns.table[late].owner < |s.tasks| && !s.tasks[s.dns.table[late].owner].pc.Waiting?)
    ensures TaskInv(s, None)
  {
  }

  /** The running task settled its own resolve, nobody's, or one that nobody waits for. */
  lemma ContinueInv(s: State, t: nat, r: nat, pc: Pc)
    requires StackInv(s) && EventInv(s) && TaskInv(s, None) && s.stack != [] && t == Top(s.stack)
    requires s.tasks[t].pc == Loop(r)
    requires pc == Loop(r) || (pc == Poke(r) && s.dns.table[r].response != 0)
    ensures var s' := SetPc(s, t, pc); StackInv(s') && EventInv(s') && TaskInv(s', None) && Alive(s')
  {
    var s' := SetPc(s, t, pc);
    assert Obliged(s'.tasks[s'.stack[|s'.stack| - 1]].pc);
  }

  /** A response for a waiting task is delivered. */
  lemma DeliverInv(s: State, t: nat, r: nat, n: nat, w: nat, first: nat)
    requires DnsInv(s.dns, s.now, first) && StackInv(s) && EventInv(s) && TaskInv(s, Some(n))
    requires s.stack != [] && t == Top(s.stack) && s.tasks[t].pc == Loop(r) && Wakes(s, t, n, w)
    ensures Inv(Notify(s, t, n, Notifying(r)), first)
  {
    NotifyStack(s, t, n, w, Notifying(r));
    NotifyEvent(s, t, n, w, Notifying(r));
    NotifyTasks(s, t, n, w, Notifying(r), Some(n));
    SetWaitInv(s.dns, s.now, n, None, first);
    hide StackInv, EventInv, TaskInv, DnsInv;
  }

  /** No response, the running task's own, or one that nobody waits for: the loop goes on, or is left. */
  lemma KeepInv(s: State, t: nat, r: nat, late: Option<nat>, first: nat)
    requires DnsInv(s.dns, s.now, first) && StackInv(s) && EventInv(s) && TaskInv(s, late)
    requires s.stack != [] && t == Top(s.stack) && s.tasks[t].pc == Loop(r)
    requires late.Some? ==>
      && late.value < |s.dns.table| && s.dns.table[late.value].response != 0
      && (late.value == r || s.dns.table[late.value].wait.None?)
    ensures Inv(SetPc(s, t, if late == Some(r) then Poke(r) else Loop(r)), first)
  {
    if late.Some? {
      NoLateWaiter(s, late.value);
    }
    ContinueInv(s, t, r, if late == Some(r) then Poke(r) else Loop(r));
    hide DnsInv, StackInv, EventInv, TaskInv, Alive;
  }

  /** The whole loop body after a response: from one settled resolve back to the full invariant. */
  lemma AfterResponseInv(s: State, t: nat, r: nat, o: Outcome, first: nat)
    requires StackInv(s) && EventInv(s) && TaskInv(s, None) && s.yielder == None
    requires s.stack != [] && t == Top(s.stack) && s.tasks[t].pc == Loop(r)
    requires DnsInv(o.dns, s.now, first) && Advances(s.dns, o.dns, o.next)
    ensures Inv(AfterResponse(s, t, r, o), first)
  {
    var s1 := s.(dns := o.dns);
    AdvanceTasks(s, o.dns, o.next);
    assert StackInv(s1);
    if o.next.Some? && o.next.value != r && o.dns.table[o.next.value].wait.Some? {
      var n := o.next.value;
      var w := o.dns.table[n].wait.value;
      assert Wakes(s1, t, n, w);
      hide Inv, DnsInv, StackInv, EventInv, TaskInv;
      DeliverInv(s1, t, r, n, w, first);
    } else {
      hide Inv, DnsInv, StackInv, EventInv, TaskInv;
      KeepInv(s1, t, r, o.next, first);
    }
  }

  // ----- One lemma per kind of step -----

  lemma TickInv(s: State, to: Timeval, first: nat)
    requires Inv(s, first) && Normal(to) && Micros(s.now) <= Micros(to)
    ensures Inv(s.(now := to), first)
  {
    var s' := s.(now := to);
    assert StackInv(s') && EventInv(s') && TaskInv(s', None) && Alive(s');
  }

  lemma StartOrder(s: State, s': State)
    requires StackOrder(s) && (s.stack == [] || Running(s, true))
    requires s'.stack == s.stack + [|s.tasks|] && s'.tasks == s.tasks + [Task(Free, false)]
    ensures StackOrder(s')
  {
    assert forall t :: 0 <= t < |s.tasks| ==> s'.tasks[t] == s.tasks[t];
  }

  lemma StartComplete(s: State, s': State)
    requires StackOk(s) && StackComplete(s)
    requires s'.stack == s.stack + [|s.tasks|] && s'.tasks == s.tasks + [Task(Free, false)]
    ensures StackComplete(s')
  {
    assert forall x :: x in s.stack ==> x in s'.stack;
    assert s'.stack[|s.stack|] == |s.tasks|;
  }

  lemma StartStack(s: State, s': State)
    requires StackInv(s) && (s.stack == [] || Running(s, true))
    requires s'.stack == s.stack + [|s.tasks|] && s'.tasks == s.tasks + [Task(Free, false)]
    ensures StackInv(s')
  {
    StartOrder(s, s');
    StartComplete(s, s');
    hide StackOrder, StackComplete;
  }

  lemma StartTasks(s: State, s': State)
    requires Wf(s.dns) && EventInv(s) && TaskInv(s, None)
    requires s'.yielder == s.yielder && s'.dns == s.dns && s'.fatal == s.fatal
    requires s'.tasks == s.tasks + [Task(Free, false)]
    ensures EventInv(s') && TaskInv(s', None)
  {
    assert forall t :: 0 <= t < |s.tasks| ==> s'.tasks[t] == s.tasks[t];
  }

  lemma StartInv(s: State, first: nat)
    requires Inv(s, first) && Enabled(s, Start)
    ensures Defined(s, Start) && Inv(Apply(s, Start), first)
  {
    var s' := Apply(s, Start);
    StartStack(s, s');
    StartTasks(s, s');
    if s.dns.queue != [] && s.yielder.None? {
      var i :| 0 <= i < |s.stack| && Obliged(s.tasks[s.stack[i]].pc);
      assert Obliged(s'.tasks[s'.stack[i]].pc);
    }
  }

  lemma ResumeTasks(s: State, t: nat)
    requires StackInv(s) && EventInv(s) && TaskInv(s, None) && s.stack == [] && t < |s.tasks| && s.tasks[t].pc.Away?
    ensures var s' := SetPc(s.(stack := [t]), t, Free); StackInv(s') && EventInv(s') && TaskInv(s', None)
  {
  }

  lemma ResumeInv(s: State, t: nat, first: nat)
    requires Inv(s, first) && Enabled(s, Resume(t))
    ensures Defined(s, Resume(t)) && Inv(Apply(s, Resume(t)), first)
  {
    hide EventInv, TaskInv;
    ResumeTasks(s, t);
  }

  lemma LeaveInv(s: State, pc: Pc, first: nat)
    requires Inv(s, first) && Running(s, true) && (pc == Away || pc == Exited)
    ensures Inv(Return(SetPc(s, Top(s.stack), pc)), first)
  {
    var s1 := SetPc(s, Top(s.stack), pc);
    LeaveTasks(s, pc);
    ReturnStack(s, s1);
    ReturnAlive(s, s1);
    hide StackInv, EventInv, TaskInv, Alive, DnsInv;
    ReturnEvent(s1);
    ReturnTasks(s1);
  }

  lemma LeaveTasks(s: State, pc: Pc)
    requires EventInv(s) && TaskInv(s, None) && Running(s, true) && (pc == Away || pc == Exited)
    ensures EventInv(SetPc(s, Top(s.stack), pc)) && TaskInv(SetPc(s, Top(s.stack), pc), None)
  {
  }

  lemma SendTasks(s: State, s': State, t: nat)
    requires Wf(s.dns) && EventInv(s) && TaskInv(s, None) && t < |s.tasks| && s.tasks[t].pc.Free?
    requires s' == SetPc(s.(dns := Query(s.dns, s.now, t)), t, Loop(|s.dns.table|))
    ensures EventInv(s') && TaskInv(s', None)
  {
    assert forall h :: 0 <= h < |s.dns.table| ==> s'.dns.table[h] == s.dns.table[h];
  }

  lemma SendStack(s: State, s': State)
    requires StackInv(s) && Running(s, true) && |s'.tasks| == |s.tasks| && s'.stack == s.stack
    requires forall t :: 0 <= t < |s.tasks| && t != Top(s.stack) ==> s'.tasks[t] == s.tasks[t]
    requires s'.tasks[Top(s.stack)].pc.Loop?
    ensures StackInv(s') && Alive(s')
  {
    assert Obliged(s'.tasks[s'.stack[|s.stack| - 1]].pc);
  }

  lemma SendInv(s: State, first: nat)
    requires Inv(s, first) && Enabled(s, Send)
    ensures Defined(s, Send) && Inv(Apply(s, Send), first)
  {
    var t := Top(s.stack);
    var s' := SetPc(s.(dns := Query(s.dns, s.now, t)), t, Loop(|s.dns.table|));
    assert Wf(s.dns) && StackOk(s) && Apply(s, Send) == s';
    hide DnsInv, StackInv, EventInv, TaskInv, Alive, Apply, Wf, StackOk, Query;
    QueryInv(s.dns, s.now, t, first);
    SendTasks(s, s', t);
    SendStack(s, s');
  }

  /** The task has been switched away from, and the one below goes on. */
  lemma HandBack(s: State, s1: State, first: nat)
    requires StackInv(s) && s.stack != [] && s1.stack == s.stack && |s1.tasks| == |s.tasks|
    requires forall t :: 0 <= t < |s.tasks| && t != Top(s.stack) ==> s1.tasks[t] == s.tasks[t]
    requires !OnStack(s1.tasks[Top(s.stack)].pc) && s1.yielder.Some?
    requires DnsInv(s1.dns, s1.now, first) && EventInv(s1) && TaskInv(s1, None)
    ensures StackOk(s1) && Inv(Return(s1), first)
  {
    assert StackOk(s) && StackOk(s1);
    hide DnsInv, EventInv, TaskInv, StackOrder, StackComplete;
    ReturnStack(s, s1);
    ReturnEvent(s1);
    ReturnTasks(s1);
  }

  lemma YieldTasks(s: State, t: nat, r: nat, head: nat)
    requires EventInv(s) && TaskInv(s, None) && s.yielder == None && t < |s.tasks| && s.tasks[t].pc == Loop(r)
    requires s.dns.table[r].response == 0 && s.dns.queue != [] && head == s.dns.queue[0]
    ensures
      var s1 := SetPc(s.(yielder := Some(t)), t, Yielding(r, head));
      EventInv(s1) && TaskInv(s1, None)
  {
  }

  lemma YieldInv(s: State, t: nat, r: nat, head: nat, first: nat)
    requires DnsInv(s.dns, s.now, first) && StackInv(s) && EventInv(s) && TaskInv(s, None) && s.yielder == None
    requires s.stack != [] && t == Top(s.stack) && s.tasks[t].pc == Loop(r)
    requires s.dns.table[r].response == 0 && s.dns.queue != [] && head == s.dns.queue[0]
    ensures Inv(Yield(s, t, r, head), first)
  {
    var s1 := SetPc(s.(yielder := Some(t)), t, Yielding(r, head));
    YieldTasks(s, t, r, head);
    HandBack(s, s1, first);
  }

  lemma WaitEvent(s: State, s1: State, t: nat, r: nat)
    requires Wf(s.dns) && EventInv(s)
    requires t < |s.tasks| && s.tasks[t].pc == Loop(r) && r < |s.dns.table|
    requires s1 == s.(dns := SetWait(s.dns, r, Some(t)), tasks := s.tasks[t := Task(Waiting(r), true)])
    ensures EventInv(s1)
  {
  }

  lemma WaitTasks(s: State, s1: State, t: nat, r: nat)
    requires TaskInv(s, None)
    requires t < |s.tasks| && s.tasks[t].pc == Loop(r) && s.dns.table[r].response == 0
    requires s1 == s.(dns := SetWait(s.dns, r, Some(t)), tasks := s.tasks[t := Task(Waiting(r), true)])
    ensures TaskInv(s1, None)
  {
  }

  lemma WaitPointerClear(s: State, t: nat, r: nat)
    requires EventInv(s) && TaskInv(s, None) && t < |s.tasks| && s.tasks[t].pc == Loop(r)
    ensures r < |s.dns.table| && s.dns.table[r].wait == None && !s.tasks[t].waiting
  {
  }

  lemma WaitInv(s: State, t: nat, r: nat, first: nat)
    requires Inv(s, first) && s.yielder.Some?
    requires s.stack != [] && t == Top(s.stack) && s.tasks[t].pc == Loop(r) && s.dns.table[r].response == 0
    ensures Inv(Wait(s, t, r), first)
  {
    WaitPointerClear(s, t, r);
    assert Wf(s.dns);
    hide DnsInv, EventInv, TaskInv, StackInv, Alive;
    var s1 := s.(dns := SetWait(s.dns, r, Some(t)), tasks := s.tasks[t := Task(Waiting(r), true)]);
    SetWaitInv(s.dns, s.now, r, Some(t), first);
    WaitEvent(s, s1, t, r);
    WaitTasks(s, s1, t, r);
    HandBack(s, s1, first);
  }

  lemma TurnInv(s: State, recv: Recv, first: nat)
    requires Inv(s, first) && Enabled(s, Turn(recv))
    ensures Defined(s, Turn(recv)) && Inv(Apply(s, Turn(recv)), first)
  {
    var t := Top(s.stack);
    var r := s.tasks[t].pc.r;
    if s.dns.table[r].response != 0 {
      ContinueInv(s, t, r, Poke(r));
    } else if s.yielder.Some? {
      WaitInv(s, t, r, first);
    } else {
      ReceiveInv(s, t, r, s.dns.queue[0], recv, Past(s.now, s.dns.table[s.dns.queue[0]].timeout), first);
    }
  }

  /** dns_resolve_response() with the socket in any condition. */
  lemma ReceiveInv(s: State, t: nat, r: nat, head: nat, recv: Recv, expired: bool, first: nat)
    requires DnsInv(s.dns, s.now, first) && StackInv(s) && EventInv(s) && TaskInv(s, None) && s.yielder == None
    requires s.stack != [] && t == Top(s.stack) && s.tasks[t].pc == Loop(r)
    requires s.dns.table[r].response == 0 && s.dns.queue != [] && head == s.dns.queue[0]
    ensures Inv(
      if expired then AfterResponse(s, t, r, Expire(s.dns, s.now, head))
      else if recv.Nothing? then Yield(s, t, r, head)
      else AfterResponse(s, t, r, Received(s.dns, s.now, head, recv)), first)
  {
    if !expired && recv.Nothing? {
      YieldInv(s, t, r, head, first);
    } else if !expired && recv.Reply? {
      AnswerAdvances(s.dns, s.now, recv.id, first);
      AfterResponseInv(s, t, r, Answer(s.dns, recv.id), first);
    } else {
      ExpireAdvances(s.dns, s.now, head, first);
      AfterResponseInv(s, t, r, Expire(s.dns, s.now, head), first);
    }
  }

  /** resolve.c:405-406: "we assume they have notify()'d us previously". The assumption is right. */
  lemma UnwaitedHeadIsOnStack(s: State)
    requires QueueInv(s.dns) && StackInv(s) && EventInv(s) && TaskInv(s, None)
    requires s.stack != [] && s.tasks[Top(s.stack)].pc.Poke?
    requires s.dns.queue != [] && s.dns.table[s.dns.queue[0]].wait.None? && s.yielder.None?
    ensures exists i :: 0 <= i < |s.stack| && s.tasks[s.stack[i]].pc == Notifying(s.dns.queue[0])
  {
    var h := s.dns.queue[0];
    var u := s.dns.table[h].owner;
    assert h in s.dns.queue;
    assert OnStack(s.tasks[u].pc);
    var i :| 0 <= i < |s.stack| && s.stack[i] == u;
    assert i < |s.stack| - 1;
    assert s.tasks[s.stack[i]].pc == Notifying(h);
  }

  lemma NoPokeAlive(s: State)
    requires QueueInv(s.dns) && StackInv(s) && EventInv(s) && TaskInv(s, None) && Alive(s)
    requires s.stack != [] && s.tasks[Top(s.stack)].pc.Poke?
    requires s.dns.queue == [] || s.dns.table[s.dns.queue[0]].wait.None?
    ensures var s' := SetPc(s, Top(s.stack), Free); StackOk(s') && Alive(s')
  {
    var s' := SetPc(s, Top(s.stack), Free);
    if s.dns.queue != [] && s.yielder.None? {
      UnwaitedHeadIsOnStack(s);
      var i :| 0 <= i < |s.stack| && s.tasks[s.stack[i]].pc == Notifying(s.dns.queue[0]);
      assert Obliged(s'.tasks[s'.stack[i]].pc);
    }
  }

  lemma NoPokeTasks(s: State)
    requires StackInv(s) && EventInv(s) && TaskInv(s, None)
    requires s.stack != [] && s.tasks[Top(s.stack)].pc.Poke?
    ensures var s' := SetPc(s, Top(s.stack), Free); StackInv(s') && EventInv(s') && TaskInv(s', None)
  {
  }

  lemma PokeInv(s: State, n: nat)
    requires StackInv(s) && EventInv(s) && TaskInv(s, None) && n < |s.dns.table|
    requires s.stack != [] && s.tasks[Top(s.stack)].pc.Poke? && s.dns.table[n].wait.Some?
    ensures
      var s' := Notify(s, Top(s.stack), n, Poking(s.tasks[Top(s.stack)].pc.r));
      StackInv(s') && EventInv(s') && TaskInv(s', None) && Alive(s')
  {
    var t, pc := Top(s.stack), Poking(s.tasks[Top(s.stack)].pc.r);
    var w := s.dns.table[n].wait.value;
    NotifyStack(s, t, n, w, pc);
    NotifyEvent(s, t, n, w, pc);
    NotifyTasks(s, t, n, w, pc, None);
  }

  lemma AfterLoopInv(s: State, first: nat)
    requires Inv(s, first) && Enabled(s, AfterLoop)
    ensures Defined(s, AfterLoop) && Inv(Apply(s, AfterLoop), first)
  {
    if s.dns.queue == [] || s.dns.table[s.dns.queue[0]].wait.None? {
      NoPokeTasks(s);
      NoPokeAlive(s);
    } else {
      PokeInv(s, s.dns.queue[0]);
      SetWaitInv(s.dns, s.now, s.dns.queue[0], None, first);
    }
  }

  lemma WokenInv(s: State, s1: State, t: nat, r: nat, head: nat)
    requires StackInv(s) && EventInv(s) && TaskInv(s, None) && s.stack == [] && s.yielder == Some(t)
    requires s.tasks[t].pc == Yielding(r, head)
    requires s1 == SetPc(s.(stack := [t], yielder := None), t, Loop(r))
    ensures StackInv(s1) && EventInv(s1) && TaskInv(s1, None)
  {
    WokenTasks(s, s1, t, r, head);
    hide TaskInv, PendingInv;
  }

  lemma WokenTasks(s: State, s1: State, t: nat, r: nat, head: nat)
    requires TaskInv(s, None) && t < |s.tasks| && s.tasks[t].pc == Yielding(r, head)
    requires s1 == SetPc(s.(stack := [t], yielder := None), t, Loop(r))
    ensures TaskInv(s1, None)
  {
  }

  lemma MainInv(s: State, w: Wakeup, first: nat)
    requires Inv(s, first) && Enabled(s, Main(w))
    ensures Defined(s, Main(w)) && Inv(Apply(s, Main(w)), first)
  {
    var t := s.yielder.value;
    var r, head := s.tasks[t].pc.r, s.tasks[t].pc.head;
    var s1 := SetPc(s.(stack := [t], yielder := None), t, Loop(r));
    WokenInv(s, s1, t, r, head);
    ReceiveInv(s1, t, r, head, if w.TimedOut? then Nothing else w.recv, w.TimedOut?, first);
  }

  /** No step that the program can take follows a bad pointer, and every step keeps the invariant. */
  lemma StepInv(s: State, a: Action, first: nat)
    requires Inv(s, first) && Enabled(s, a)
    ensures Defined(s, a) && Inv(Apply(s, a), first)
  {
    match a
    case Tick(to) => TickInv(s, to, first);
    case Start => StartInv(s, first);
    case Resume(t) => ResumeInv(s, t, first);
    case Leave => LeaveInv(s, Away, first);
    case Exit => LeaveInv(s, Exited, first);
    case Send => SendInv(s, first);
    case Turn(recv) => TurnInv(s, recv, first);
    case AfterLoop => AfterLoopInv(s, first);
    case Main(w) => MainInv(s, w, first);
  }
}
