/** What one step does to the queries and to their tasks, told from deadlines, datagrams and ids alone: when a query
    is retransmitted or given up, when it is answered, and who learns of it. */
module SyncLaws {
  import opened Options
  import opened Clock
  import opened Queries
  import opened Sync
  import opened SyncProof
  import opened SyncRuns

  const SECOND: int := 1_000_000      // in microseconds

  // ----- What a step learns -----

  /** Nothing at all, what is in the socket, or that the time is up. */
  datatype News = Silence | Read(recv: Recv) | TimeIsUp

  /** The running task is about to ask for a response: its own is not there, and no task yields on the event. */
  predicate Asks(s: State) {
    && s.stack != [] && Top(s.stack) < |s.tasks|
    && var pc := s.tasks[Top(s.stack)].pc;
       pc.Loop? && pc.r < |s.dns.table| && s.dns.table[pc.r].response == 0 && s.yielder.None?
  }

  /** The deadline of the query at the head lies in the past. */
  predicate HeadIsLate(s: State) {
    s.dns.queue != [] && s.dns.queue[0] < |s.dns.table|
    && Micros(s.dns.table[s.dns.queue[0]].timeout) < Micros(s.now)
  }

  function Learns(s: State, a: Action): News {
    match a
    case Turn(recv) => if !Asks(s) then Silence else if HeadIsLate(s) then TimeIsUp else Read(recv)
    case Main(w) => if w.TimedOut? then TimeIsUp else Read(w.recv)
    case _ => Silence
  }

  // ----- What becomes of the queries -----

  /** Whatever a step does to wait pointers, the query is what it was. */
  predicate Same(r: Resolve, r': Resolve) {
    && r'.id == r.id && r'.owner == r.owner && r'.timeout == r.timeout
    && r'.retry == r.retry && r'.response == r.response
  }

  ghost predicate AllSameBut(d: Dns, d': Dns, h: nat) {
    |d'.table| == |d.table| && forall x :: 0 <= x < |d.table| && x != h ==> Same(d.table[x], d'.table[x])
  }

  /** Nothing happens to any query. */
  ghost predicate AllSame(d: Dns, d': Dns) {
    && d'.queue == d.queue && d'.wire == d.wire && d'.ids == d.ids
    && |d'.table| == |d.table| && forall x :: 0 <= x < |d.table| ==> Same(d.table[x], d'.table[x])
  }

  /** The head is sent once more, due in two seconds and last in the queue; after five times it is given up. */
  ghost predicate HeadFails(d: Dns, d': Dns, now: Timeval)
    requires d.queue != [] && d.queue[0] < |d.table|
  {
    var h := d.queue[0];
    AllSameBut(d, d', h) && d'.ids == d.ids
    && var r, r' := d.table[h], d'.table[h];
       r.response == 0 && r'.id == r.id && r'.owner == r.owner
       && if r.retry < 5 then
            && r'.response == 0 && r'.retry == r.retry + 1 && Micros(r'.timeout) == Micros(now) + 2 * SECOND
            && d'.queue == d.queue[1..] + [h] && d'.wire == d.wire + [h]
          else
            && r'.response == -1 && r'.retry == r.retry == 5 && r'.timeout == r.timeout
            && d'.queue == d.queue[1..] && d'.wire == d.wire
  }

  /** The `i`-th in the queue is the first with the id: it is answered, and leaves the queue. */
  ghost predicate AnsweredAt(d: Dns, d': Dns, id: nat, i: nat)
    requires Wf(d)
  {
    && i < |d.queue| && (forall j :: 0 <= j < i ==> d.table[d.queue[j]].id != id)
    && var h := d.queue[i];
       && d.table[h].id == id && AllSameBut(d, d', h) && d'.ids == d.ids && d'.wire == d.wire
       && d.table[h].response == 0 && Same(d.table[h].(response := 1), d'.table[h])
       && d'.queue == d.queue[..i] + d.queue[i + 1..]
  }

  predicate Pending(d: Dns, id: nat)
    requires Wf(d)
  {
    exists i :: 0 <= i < |d.queue| && d.table[d.queue[i]].id == id
  }

  ghost predicate Answered(d: Dns, d': Dns, id: nat)
    requires Wf(d)
  {
    if Pending(d, id) then exists i: nat :: AnsweredAt(d, d', id, i) else AllSame(d, d')
  }

  /** A new query: due in two seconds, last in the queue, with the next id. */
  ghost predicate Sent(d: Dns, d': Dns, now: Timeval, owner: nat) {
    var h := |d.table|;
    && |d'.table| == h + 1 && (forall x :: 0 <= x < h ==> d'.table[x] == d.table[x])
    && d'.queue == d.queue + [h] && d'.wire == d.wire + [h] && d'.ids == (d.ids + 1) % 65536
    && var r := d'.table[h];
       && r.owner == owner && r.wait == None && r.id == d.ids && r.retry == 0 && r.response == 0
       && Micros(r.timeout) == Micros(now) + 2 * SECOND
  }

  // ----- Outcomes of dns_resolve_response() -----

  lemma UnlinkHead(q: seq<nat>)
    requires q != []
    ensures Unlink(q, q[0]) == q[1..]
  {
    assert q[..0] + q[1..] == q[1..];
  }

  lemma ExpireFails(d: Dns, now: Timeval)
    requires QueueInv(d) && d.queue != []
    ensures d.queue[0] in d.queue && HeadFails(d, Expire(d, now, d.queue[0]).dns, now)
  {
    UnlinkHead(d.queue);
    hide Unlink;
  }

  lemma MatchIsFirst(d: Dns, id: nat, from: nat) returns (i: nat)
    requires Wf(d) && from <= |d.queue| && Match(d, id, from).Some?
    ensures from <= i < |d.queue| && Match(d, id, from) == Some(d.queue[i])
    ensures d.table[d.queue[i]].id == id && forall j :: from <= j < i ==> d.table[d.queue[j]].id != id
    decreases |d.queue| - from
  {
    if d.table[d.queue[from]].id == id {
      i := from;
    } else {
      i := MatchIsFirst(d, id, from + 1);
    }
  }

  lemma UnlinkAt(q: seq<nat>, i: nat)
    requires Distinct(q) && i < |q|
    ensures Unlink(q, q[i]) == q[..i] + q[i + 1..]
  {
  }

  lemma AnswerAnswers(d: Dns, id: nat)
    requires QueueInv(d)
    ensures Answered(d, Answer(d, id).dns, id)
  {
    if Match(d, id).Some? {
      var i := MatchIsFirst(d, id, 0);
      UnlinkAt(d.queue, i);
      hide Unlink;
      assert d.queue[i] in d.queue && Pending(d, id);
      assert AnsweredAt(d, Answer(d, id).dns, id, i);
    }
  }

  /** Clearing or setting wait pointers changes nothing of this. */
  ghost predicate WaitsOnly(d: Dns, d': Dns) {
    && d'.queue == d.queue && d'.wire == d.wire && d'.ids == d.ids && |d'.table| == |d.table|
    && forall x :: 0 <= x < |d.table| ==> d'.table[x] == d.table[x].(wait := d'.table[x].wait)
  }

  lemma FailsWithWaits(d: Dns, m: Dns, d': Dns, now: Timeval)
    requires d.queue != [] && d.queue[0] < |d.table| && HeadFails(d, m, now) && WaitsOnly(m, d')
    ensures HeadFails(d, d', now)
  {
    assert forall x :: 0 <= x < |d.table| ==> Same(m.table[x], d'.table[x]);
  }

  lemma AnsweredWithWaits(d: Dns, m: Dns, d': Dns, id: nat)
    requires Wf(d) && Answered(d, m, id) && WaitsOnly(m, d')
    ensures Answered(d, d', id)
  {
    assert forall x :: 0 <= x < |m.table| ==> Same(m.table[x], d'.table[x]);
    if Pending(d, id) {
      var i: nat :| AnsweredAt(d, m, id, i);
      assert AnsweredAt(d, d', id, i);
    }
  }

  lemma AfterResponseWaits(s: State, t: nat, r: nat, o: Outcome)
    requires t < |s.tasks| && (o.next.Some? ==> o.next.value < |o.dns.table|)
    ensures WaitsOnly(o.dns, AfterResponse(s, t, r, o).dns)
  {
  }

  // ----- One step -----

  /** What a step makes of the queries: the head fails if its time is up or a datagram cannot be read, a reply answers
      the query that has its id, and nothing else happens to any query that was sent. */
  ghost predicate QueriesFollow(s: State, a: Action, s': State)
    requires Wf(s.dns) && Enabled(s, a) && (Learns(s, a).Silence? || s.dns.queue != [])
  {
    match Learns(s, a)
    case TimeIsUp => HeadFails(s.dns, s'.dns, s.now)
    case Read(Short) => HeadFails(s.dns, s'.dns, s.now)
    case Read(Reply(id)) => Answered(s.dns, s'.dns, id)
    case Read(Nothing) => AllSame(s.dns, s'.dns)
    case Silence => if a.Send? then Sent(s.dns, s'.dns, s.now, Top(s.stack)) else AllSame(s.dns, s'.dns)
  }

  /** dns_resolve_response() in the task `t`, and the loop body after it. */
  lemma ReceptionFollows(s: State, t: nat, r: nat, recv: Recv, expired: bool)
    requires QueueInv(s.dns) && s.dns.queue != [] && t < |s.tasks|
    requires expired || !recv.Nothing?
    ensures var head := s.dns.queue[0];
      var o := if expired then Expire(s.dns, s.now, head) else Received(s.dns, s.now, head, recv);
      && (o.next.Some? ==> o.next.value < |o.dns.table|)
      && var d' := AfterResponse(s, t, r, o).dns;
         if expired || recv.Short? then HeadFails(s.dns, d', s.now) else Answered(s.dns, d', recv.id)
  {
    var head := s.dns.queue[0];
    assert head in s.dns.queue;
    var o := if expired then Expire(s.dns, s.now, head) else Received(s.dns, s.now, head, recv);
    ExpireFails(s.dns, s.now);
    if !expired && recv.Reply? {
      AnswerAnswers(s.dns, recv.id);
    }
    ReceptionIsDefined(s, head, recv);
    hide Expire, Answer, HeadFails, Answered, WaitsOnly, AfterResponse;
    AfterResponseWaits(s, t, r, o);
    if expired || recv.Short? {
      FailsWithWaits(s.dns, o.dns, AfterResponse(s, t, r, o).dns, s.now);
    } else {
      AnsweredWithWaits(s.dns, o.dns, AfterResponse(s, t, r, o).dns, recv.id);
    }
  }

  lemma SameWaits(s: State, s': State)
    requires WaitsOnly(s.dns, s'.dns)
    ensures AllSame(s.dns, s'.dns)
  {
  }

  /** A task that does not ask may wait, or leave its loop. */
  lemma QuietTurn(s: State, recv: Recv)
    requires Enabled(s, Turn(recv)) && Defined(s, Turn(recv)) && !Asks(s)
    ensures AllSame(s.dns, Apply(s, Turn(recv)).dns)
  {
    SameWaits(s, Apply(s, Turn(recv)));
  }

  lemma AskingTurn(s: State, recv: Recv)
    requires Enabled(s, Turn(recv)) && Defined(s, Turn(recv)) && Asks(s)
    requires QueueInv(s.dns) && Normal(s.now) && Normal(s.dns.table[s.dns.queue[0]].timeout)
    ensures QueriesFollow(s, Turn(recv), Apply(s, Turn(recv)))
  {
    var t := Top(s.stack);
    var head := s.dns.queue[0];
    assert head in s.dns.queue;
    assert Past(s.now, s.dns.table[head].timeout) <==> HeadIsLate(s);
    hide QueueInv, HeadFails, Answered, AfterResponse, Expire, Received, Past;
    if HeadIsLate(s) || !recv.Nothing? {
      ReceptionFollows(s, t, s.tasks[t].pc.r, recv, HeadIsLate(s));
    } else {
      SameWaits(s, Apply(s, Turn(recv)));
    }
  }

  lemma TurnFollows(s: State, recv: Recv, first: nat)
    requires Inv(s, first) && Enabled(s, Turn(recv)) && Defined(s, Turn(recv))
    ensures Learns(s, Turn(recv)).Silence? || s.dns.queue != []
    ensures QueriesFollow(s, Turn(recv), Apply(s, Turn(recv)))
  {
    if Asks(s) {
      assert s.dns.queue != [] && Normal(s.dns.table[s.dns.queue[0]].timeout);
      hide Inv, Apply, QueriesFollow;
      AskingTurn(s, recv);
    } else {
      hide Inv, Apply;
      QuietTurn(s, recv);
    }
  }

  lemma MainFollows(s: State, w: Wakeup, first: nat)
    requires Inv(s, first) && Enabled(s, Main(w)) && Defined(s, Main(w))
    ensures s.dns.queue != [] && QueriesFollow(s, Main(w), Apply(s, Main(w)))
  {
    var t := s.yielder.value;
    var r, head := s.tasks[t].pc.r, s.tasks[t].pc.head;
    var s1 := SetPc(s.(stack := [t], yielder := None), t, Loop(r));
    assert s.dns.queue[0] == head;
    hide HeadFails, Answered, AfterResponse, Expire, Received;
    if w != Readable(Nothing) {
      ReceptionFollows(s1, t, r, if w.TimedOut? then Nothing else w.recv, w.TimedOut?);
    } else {
      SameWaits(s, Apply(s, Main(w)));
    }
  }

  lemma SendFollows(s: State, first: nat)
    requires Inv(s, first) && Enabled(s, Send) && Defined(s, Send)
    ensures QueriesFollow(s, Send, Apply(s, Send))
  {
    hide Inv;
  }

  lemma OtherFollows(s: State, a: Action)
    requires Wf(s.dns) && Enabled(s, a) && Defined(s, a) && !a.Turn? && !a.Main? && !a.Send?
    ensures QueriesFollow(s, a, Apply(s, a))
  {
    SameWaits(s, Apply(s, a));
  }

  /** When a query is retransmitted, given up, answered or sent: every step from a state that keeps the invariant does
      to the queries what deadlines, datagrams and ids say. */
  lemma StepFollows(s: State, a: Action, first: nat)
    requires Inv(s, first) && Enabled(s, a) && Defined(s, a)
    ensures Learns(s, a).Silence? || s.dns.queue != []
    ensures QueriesFollow(s, a, Apply(s, a))
  {
    assert Wf(s.dns);
    match a
    case Turn(recv) => TurnFollows(s, recv, first);
    case Main(w) => MainFollows(s, w, first);
    case Send => SendFollows(s, first);
    case _ => OtherFollows(s, a);
  }

  // ----- What becomes of the tasks -----

  /** The query has been settled in this step. */
  predicate Settles(d: Dns, d': Dns, x: nat) {
    x < |d.table| && x < |d'.table| && d.table[x].response == 0 && d'.table[x].response != 0
  }

  /** Where the task `t` of the query `r` is after it has learnt something, with `below` under it on the stack. If its
      own query is settled, it leaves its loop. If another one is, that query's task runs now if it was waiting, and
      finds out when control comes back to it if it is on the stack. */
  ghost predicate Dispatched(s: State, s': State, below: seq<nat>, t: nat, r: nat) {
    && t < |s.tasks| == |s'.tasks|
    && (s'.tasks[t].pc == Poke(r) <==> Settles(s.dns, s'.dns, r))
    && (s'.tasks[t].pc == Poke(r) || s'.tasks[t].pc == Loop(r) ==> s'.stack == below + [t])
    && (s'.tasks[t].pc == Poke(r) || s'.tasks[t].pc == Loop(r) || s'.tasks[t].pc == Notifying(r))
    && (s'.tasks[t].pc == Notifying(r) ==> exists x: nat :: Settles(s.dns, s'.dns, x))
    && forall x: nat :: Settles(s.dns, s'.dns, x) && x != r ==> Delivered(s, s', below, t, r, x)
  }

  ghost predicate Delivered(s: State, s': State, below: seq<nat>, t: nat, r: nat, x: nat)
    requires x < |s.dns.table| && x < |s'.dns.table| && t < |s.tasks| == |s'.tasks|
  {
    var u := s.dns.table[x].owner;
    u < |s.tasks| && u != t
    && if s.tasks[u].pc == Waiting(x) then
         && s'.stack == below + [t, u] && s'.tasks[t].pc == Notifying(r)
         && s'.tasks[u] == Task(Loop(x), false) && s'.dns.table[x].wait == None
       else
         u in below && s'.tasks[t].pc == Loop(r)
  }

  /** What a turn of the loop, or a wakeup by main, does to the task that takes it. */
  ghost predicate TasksFollow(s: State, a: Action, s': State)
    requires Enabled(s, a) && Defined(s, a) && (a.Turn? || a.Main?)
  {
    var t := if a.Main? then s.yielder.value else Top(s.stack);
    var below := if a.Main? then [] else s.stack[..|s.stack| - 1];
    var r := s.tasks[t].pc.r;
    && |s'.tasks| == |s.tasks|
    && match Learns(s, a)
       case TimeIsUp => Dispatched(s, s', below, t, r)
       case Read(Short) => Dispatched(s, s', below, t, r)
       case Read(Reply(_)) => Dispatched(s, s', below, t, r)
       case Read(Nothing) =>
         && s'.stack == below && s'.yielder == Some(t)
         && s.dns.queue != [] && s'.tasks[t].pc == Yielding(r, s.dns.queue[0])
       case Silence =>
         r < |s.dns.table| == |s'.dns.table|
         && if s.dns.table[r].response != 0 then s'.stack == s.stack && s'.tasks[t].pc == Poke(r)
            else s'.stack == below && s'.tasks[t] == Task(Waiting(r), true) && s'.dns.table[r].wait == Some(t)
  }

  /** The owner of a settled query that is not the running task's waits for it, or is on the stack. */
  lemma OwnerOfSettled(s: State, t: nat, r: nat, x: nat)
    requires StackInv(s) && EventInv(s) && TaskInv(s, None) && s.yielder == None
    requires s.stack != [] && t == Top(s.stack) && s.tasks[t].pc == Loop(r)
    requires x < |s.dns.table| && x != r && s.dns.table[x].response == 0
    ensures var u := s.dns.table[x].owner;
      && u < |s.tasks| && u != t
      && if s.dns.table[x].wait.Some? then s.dns.table[x].wait == Some(u) && s.tasks[u].pc == Waiting(x)
         else s.tasks[u].pc != Waiting(x) && u in s.stack[..|s.stack| - 1]
  {
    var u := s.dns.table[x].owner;
    if s.dns.table[x].wait == None {
      assert u in s.stack;
      assert s.stack == s.stack[..|s.stack| - 1] + [t];
    }
  }

  lemma SettlesNext(s: State, t: nat, r: nat, o: Outcome)
    requires t < |s.tasks| && Advances(s.dns, o.dns, o.next)
    ensures forall x: nat :: Settles(s.dns, AfterResponse(s, t, r, o).dns, x) <==> o.next == Some(x)
  {
    AfterResponseWaits(s, t, r, o);
    hide AfterResponse;
  }

  /** The running task goes on: its own query is settled, or none. */
  lemma KeepsRunning(s: State, below: seq<nat>, t: nat, r: nat, o: Outcome)
    requires t < |s.tasks| && s.stack == below + [t] && s.tasks[t].pc == Loop(r)
    requires o.next.Some? ==> o.next.value == r < |o.dns.table|
    requires forall x: nat :: Settles(s.dns, AfterResponse(s, t, r, o).dns, x) <==> o.next == Some(x)
    ensures Dispatched(s, AfterResponse(s, t, r, o), below, t, r)
  {
    hide Settles, Delivered;
  }

  /** Another one's is, whose task is on the stack. */
  lemma PassesOver(s: State, below: seq<nat>, t: nat, r: nat, o: Outcome, x: nat)
    requires t < |s.tasks| && s.stack == below + [t] && s.tasks[t].pc == Loop(r)
    requires o.next == Some(x) && x != r && x < |s.dns.table| == |o.dns.table| && o.dns.table[x].wait == None
    requires var u := s.dns.table[x].owner; u < |s.tasks| && u != t && s.tasks[u].pc != Waiting(x) && u in below
    requires forall y: nat :: Settles(s.dns, AfterResponse(s, t, r, o).dns, y) <==> o.next == Some(y)
    ensures Dispatched(s, AfterResponse(s, t, r, o), below, t, r)
  {
    hide Settles;
  }

  /** Another one's is, whose task waits for it. */
  lemma Wakens(s: State, below: seq<nat>, t: nat, r: nat, o: Outcome, x: nat)
    requires t < |s.tasks| && s.stack == below + [t] && s.tasks[t].pc == Loop(r) && !s.tasks[t].waiting
    requires o.next == Some(x) && x != r && x < |s.dns.table| == |o.dns.table|
    requires var u := s.dns.table[x].owner;
      u < |s.tasks| && u != t && s.tasks[u].pc == Waiting(x) && o.dns.table[x].wait == Some(u)
    requires forall y: nat :: Settles(s.dns, AfterResponse(s, t, r, o).dns, y) <==> o.next == Some(y)
    ensures Dispatched(s, AfterResponse(s, t, r, o), below, t, r)
  {
    hide Settles;
    var s' := AfterResponse(s, t, r, o);
    var u := s.dns.table[x].owner;
    assert s'.stack == below + [t, u] && s'.tasks[t].pc == Notifying(r) && s'.tasks[u] == Task(Loop(x), false);
    hide AfterResponse;
  }

  lemma ResponseDispatches(s: State, t: nat, r: nat, o: Outcome)
    requires StackInv(s) && EventInv(s) && TaskInv(s, None) && s.yielder == None
    requires s.stack != [] && t == Top(s.stack) && s.tasks[t].pc == Loop(r) && s.dns.table[r].response == 0
    requires Advances(s.dns, o.dns, o.next)
    ensures Dispatched(s, AfterResponse(s, t, r, o), s.stack[..|s.stack| - 1], t, r)
  {
    var below := s.stack[..|s.stack| - 1];
    assert s.stack == below + [t] && !s.tasks[t].waiting;
    SettlesNext(s, t, r, o);
    if o.next.Some? && o.next.value != r {
      var x := o.next.value;
      OwnerOfSettled(s, t, r, x);
      assert o.dns.table[x].wait == s.dns.table[x].wait && |o.dns.table| == |s.dns.table|;
      hide StackInv, EventInv, TaskInv, Advances, Settles, AfterResponse, Dispatched;
      if o.dns.table[x].wait.Some? {
        Wakens(s, below, t, r, o, x);
      } else {
        PassesOver(s, below, t, r, o, x);
      }
    } else {
      hide StackInv, EventInv, TaskInv, Settles, AfterResponse, Dispatched;
      KeepsRunning(s, below, t, r, o);
    }
  }

  lemma ReceptionDispatches(s: State, t: nat, r: nat, head: nat, recv: Recv, expired: bool, first: nat)
    requires DnsInv(s.dns, s.now, first) && StackInv(s) && EventInv(s) && TaskInv(s, None) && s.yielder == None
    requires s.stack != [] && t == Top(s.stack) && s.tasks[t].pc == Loop(r) && s.dns.table[r].response == 0
    requires head in s.dns.queue
    ensures var o := if expired then Expire(s.dns, s.now, head) else Received(s.dns, s.now, head, recv);
      (o.next.Some? ==> o.next.value < |o.dns.table|)
      && Dispatched(s, AfterResponse(s, t, r, o), s.stack[..|s.stack| - 1], t, r)
  {
    hide StackInv, EventInv, TaskInv, Expire, Answer, AfterResponse, Dispatched;
    ExpireAdvances(s.dns, s.now, head, first);
    AnswerAdvances(s.dns, s.now, if recv.Reply? then recv.id else 0, first);
    hide DnsInv;
    if expired || !recv.Reply? {
      ResponseDispatches(s, t, r, Expire(s.dns, s.now, head));
    } else {
      ResponseDispatches(s, t, r, Answer(s.dns, recv.id));
    }
  }

  lemma QuietTurnMoves(s: State, recv: Recv)
    requires EventInv(s) && Enabled(s, Turn(recv)) && Defined(s, Turn(recv)) && !Asks(s)
    requires var r := s.tasks[Top(s.stack)].pc.r; s.dns.table[r].wait.None? && !s.tasks[Top(s.stack)].waiting
    requires forall i :: 0 <= i < |s.stack| - 1 ==> s.stack[i] != Top(s.stack)
    ensures TasksFollow(s, Turn(recv), Apply(s, Turn(recv)))
  {
    hide EventInv;
  }

  /** Being switched away from, or out of the loop: what holds of the running task. */
  lemma RunningTask(s: State, first: nat)
    requires Inv(s, first) && s.stack != [] && s.tasks[Top(s.stack)].pc.Loop?
    ensures var t := Top(s.stack);
      && !s.tasks[t].waiting && s.tasks[t].pc.r < |s.dns.table| && s.dns.table[s.tasks[t].pc.r].wait == None
      && forall i :: 0 <= i < |s.stack| - 1 ==> s.stack[i] != t
  {
    var t := Top(s.stack);
    assert s.dns.table[s.tasks[t].pc.r].owner == t;
  }

  lemma TurnMoves(s: State, recv: Recv, first: nat)
    requires Inv(s, first) && Enabled(s, Turn(recv)) && Defined(s, Turn(recv))
    ensures TasksFollow(s, Turn(recv), Apply(s, Turn(recv)))
  {
    RunningTask(s, first);
    if Asks(s) {
      AskingTurnMoves(s, recv, first);
    } else {
      hide Apply, TasksFollow, DnsInv, StackInv, TaskInv, EventInv, Alive;
      QuietTurnMoves(s, recv);
    }
  }

  lemma AskingTurnIs(s: State, recv: Recv)
    requires Enabled(s, Turn(recv)) && Defined(s, Turn(recv)) && Asks(s)
    requires Normal(s.now) && Normal(s.dns.table[s.dns.queue[0]].timeout)
    ensures var t, head := Top(s.stack), s.dns.queue[0];
      var r := s.tasks[t].pc.r;
      && head in s.dns.queue
      && Apply(s, Turn(recv)) ==
         if HeadIsLate(s) then AfterResponse(s, t, r, Expire(s.dns, s.now, head))
         else if recv.Nothing? then Yield(s, t, r, head)
         else AfterResponse(s, t, r, Received(s.dns, s.now, head, recv))
  {
    hide AfterResponse, Expire, Received, Yield;
  }

  lemma YieldMoves(s: State, t: nat, r: nat, head: nat)
    requires StackOk(s) && s.stack != [] && t == Top(s.stack) && s.yielder == None
    requires forall i :: 0 <= i < |s.stack| - 1 ==> s.stack[i] != t
    ensures var s' := Yield(s, t, r, head);
      && |s'.tasks| == |s.tasks| && s'.stack == s.stack[..|s.stack| - 1]
      && s'.yielder == Some(t) && s'.tasks[t].pc == Yielding(r, head)
  {
  }

  lemma AskingTurnMoves(s: State, recv: Recv, first: nat)
    requires Inv(s, first) && Enabled(s, Turn(recv)) && Defined(s, Turn(recv)) && Asks(s)
    requires forall i :: 0 <= i < |s.stack| - 1 ==> s.stack[i] != Top(s.stack)
    ensures TasksFollow(s, Turn(recv), Apply(s, Turn(recv)))
  {
    var t, head := Top(s.stack), s.dns.queue[0];
    var r := s.tasks[t].pc.r;
    assert StackOk(s) && DnsInv(s.dns, s.now, first) && StackInv(s) && EventInv(s) && TaskInv(s, None);
    assert Normal(s.now) && Normal(s.dns.table[head].timeout);
    AskingTurnIs(s, recv);
    hide Inv, DnsInv, StackInv, TaskInv, EventInv, AfterResponse, Expire, Received, Yield, Apply;
    if !HeadIsLate(s) && recv.Nothing? {
      YieldMoves(s, t, r, head);
      hide Dispatched;
    } else {
      ReceptionDispatches(s, t, r, head, recv, HeadIsLate(s), first);
      hide Dispatched, TasksFollow;
      DispatchedFollows(s, Turn(recv), Apply(s, Turn(recv)), s.stack[..|s.stack| - 1], t, r);
    }
  }

  lemma DispatchedFollows(s: State, a: Action, s': State, below: seq<nat>, t: nat, r: nat)
    requires Enabled(s, a) && Defined(s, a) && (a.Turn? || a.Main?) && t < |s.tasks|
    requires (s.tasks[t].pc.Loop? || s.tasks[t].pc.Yielding?) && s.tasks[t].pc.r == r
    requires t == if a.Main? then s.yielder.value else Top(s.stack)
    requires below == if a.Main? then [] else s.stack[..|s.stack| - 1]
    requires Learns(s, a).TimeIsUp? || (Learns(s, a).Read? && !Learns(s, a).recv.Nothing?)
    requires Dispatched(s, s', below, t, r)
    ensures TasksFollow(s, a, s')
  {
    DispatchedTasks(s, s', below, t, r);
    hide Dispatched;
  }

  lemma DispatchedTasks(s: State, s': State, below: seq<nat>, t: nat, r: nat)
    requires Dispatched(s, s', below, t, r)
    ensures |s'.tasks| == |s.tasks|
  {
  }

  lemma WokenDispatched(s: State, s1: State, s': State, t: nat, r: nat)
    requires t < |s.tasks| == |s1.tasks| && s1.dns == s.dns && Dispatched(s1, s', [], t, r)
    requires forall u :: 0 <= u < |s.tasks| && u != t ==> s1.tasks[u] == s.tasks[u]
    ensures Dispatched(s, s', [], t, r)
  {
    forall x: nat | Settles(s.dns, s'.dns, x) && x != r
      ensures Delivered(s, s', [], t, r, x)
    {
      assert Delivered(s1, s', [], t, r, x);
    }
  }

  lemma WokenReceives(s: State, s1: State, s': State, w: Wakeup, t: nat, r: nat, head: nat, first: nat)
    requires Enabled(s, Main(w)) && Defined(s, Main(w)) && w != Readable(Nothing)
    requires t == s.yielder.value && s.tasks[t].pc == Yielding(r, head)
    requires s1 == SetPc(s.(stack := [t], yielder := None), t, Loop(r))
    requires DnsInv(s.dns, s.now, first) && StackInv(s1) && EventInv(s1) && TaskInv(s1, None)
    requires s.dns.table[r].response == 0 && s1.stack[..0] == []
    requires s' == AfterResponse(s1, t, r,
                     if w.TimedOut? then Expire(s.dns, s.now, head) else Received(s.dns, s.now, head, w.recv))
    ensures TasksFollow(s, Main(w), s')
  {
    hide DnsInv, StackInv, TaskInv, EventInv, AfterResponse, Expire, Received, Dispatched, TasksFollow;
    ReceptionDispatches(s1, t, r, head, if w.TimedOut? then Nothing else w.recv, w.TimedOut?, first);
    WokenDispatched(s, s1, s', t, r);
    DispatchedFollows(s, Main(w), s', [], t, r);
  }

  lemma MainMoves(s: State, w: Wakeup, first: nat)
    requires Inv(s, first) && Enabled(s, Main(w)) && Defined(s, Main(w))
    ensures TasksFollow(s, Main(w), Apply(s, Main(w)))
  {
    var t := s.yielder.value;
    var r, head := s.tasks[t].pc.r, s.tasks[t].pc.head;
    var s1 := SetPc(s.(stack := [t], yielder := None), t, Loop(r));
    MainFacts(s, w, first);
    MainIs(s, w);
    if w == Readable(Nothing) {
      hide Inv, DnsInv, StackInv, TaskInv, EventInv, Yield, Apply, AfterResponse, Dispatched;
      YieldMoves(s1, t, r, head);
    } else {
      hide Inv, DnsInv, StackInv, TaskInv, EventInv, Yield, Apply, AfterResponse, Expire, Received, TasksFollow;
      WokenReceives(s, s1, Apply(s, Main(w)), w, t, r, head, first);
    }
  }

  lemma MainFacts(s: State, w: Wakeup, first: nat)
    requires Inv(s, first) && Enabled(s, Main(w)) && Defined(s, Main(w))
    ensures var t := s.yielder.value;
      var r, head := s.tasks[t].pc.r, s.tasks[t].pc.head;
      var s1 := SetPc(s.(stack := [t], yielder := None), t, Loop(r));
      && DnsInv(s.dns, s.now, first) && StackInv(s1) && EventInv(s1) && TaskInv(s1, None)
      && s.dns.queue[0] == head && s1.stack[..0] == [] && s.dns.table[r].response == 0
  {
    var t := s.yielder.value;
    var r, head := s.tasks[t].pc.r, s.tasks[t].pc.head;
    var s1 := SetPc(s.(stack := [t], yielder := None), t, Loop(r));
    WokenInv(s, s1, t, r, head);
    hide DnsInv, StackInv, EventInv, StackComplete;
  }

  lemma MainIs(s: State, w: Wakeup)
    requires Enabled(s, Main(w)) && Defined(s, Main(w))
    ensures var t := s.yielder.value;
      var r, head := s.tasks[t].pc.r, s.tasks[t].pc.head;
      var s1 := SetPc(s.(stack := [t], yielder := None), t, Loop(r));
      Apply(s, Main(w)) ==
      if w == Readable(Nothing) then Yield(s1, t, r, head)
      else AfterResponse(s1, t, r,
             if w.TimedOut? then Expire(s.dns, s.now, head) else Received(s.dns, s.now, head, w.recv))
  {
    hide AfterResponse, Expire, Received, Yield;
  }

  /** Who runs after a turn of the loop, and after a wakeup by main. In particular the task of a query that has just
      been answered runs, or is on the stack and will. */
  lemma StepMoves(s: State, a: Action, first: nat)
    requires Inv(s, first) && Enabled(s, a) && Defined(s, a) && (a.Turn? || a.Main?)
    ensures TasksFollow(s, a, Apply(s, a))
  {
    hide Inv, Apply, TasksFollow, Enabled, Defined;
    match a
    case Turn(recv) => TurnMoves(s, recv, first);
    case Main(w) => MainMoves(s, w, first);
  }

  /** The task of a pending query waits for it exactly if its wait pointer is set. */
  lemma HeadWaits(s: State, first: nat)
    requires Inv(s, first) && Enabled(s, AfterLoop) && s.dns.queue != []
    ensures var t, h := Top(s.stack), s.dns.queue[0];
      && h < |s.dns.table| && s.dns.table[h].owner < |s.tasks| && !s.tasks[t].waiting
      && var u := s.dns.table[h].owner;
         if s.tasks[u].pc == Waiting(h) then u != t && s.dns.table[h].wait == Some(u) else s.dns.table[h].wait == None
  {
    assert s.dns.queue[0] in s.dns.queue;
    hide StackComplete, Sorted, Numbered, Transmitted, Conserved, Alive;
  }

  /** The poke after the loop: it wakes the task of the head of the queue if that one waits, and otherwise
      dns_resolve_sync() returns. */
  lemma PokeMoves(s: State, first: nat)
    requires Inv(s, first) && Enabled(s, AfterLoop) && Defined(s, AfterLoop)
    ensures s.dns.queue != [] ==> s.dns.queue[0] < |s.dns.table| && s.dns.table[s.dns.queue[0]].owner < |s.tasks|
    ensures var s', t := Apply(s, AfterLoop), Top(s.stack);
      if s.dns.queue != [] && s.tasks[s.dns.table[s.dns.queue[0]].owner].pc == Waiting(s.dns.queue[0]) then
        var u := s.dns.table[s.dns.queue[0]].owner;
        && s'.stack == s.stack + [u] && s'.tasks[u] == Task(Loop(s.dns.queue[0]), false)
        && s'.tasks[t].pc == Poking(s.tasks[t].pc.r)
      else
        s'.stack == s.stack && s'.tasks[t].pc == Free
  {
    if s.dns.queue != [] {
      HeadWaits(s, first);
    }
    hide Inv;
  }

  // ----- Over whole runs -----

  /** Every datagram can be read, and main reports the time to be up only when it is. */
  predicate Punctual(s: State, a: Action) {
    && Learns(s, a) != Read(Short)
    && (a == Main(TimedOut) && s.dns.queue != [] && s.dns.queue[0] < |s.dns.table| ==>
          Micros(s.dns.table[s.dns.queue[0]].timeout) <= Micros(s.now))
  }

  /** A query that was sent at the time `sent` is given two seconds for every transmission, and six of them. */
  predicate Patient(s: State, h: nat, sent: int) {
    && h < |s.dns.table| && s.dns.table[h].retry <= 5
    && var r := s.dns.table[h];
       && Micros(s.now) >= sent + 2 * SECOND * r.retry
       && (r.response == 0 ==> Micros(r.timeout) >= sent + 2 * SECOND * (r.retry + 1))
       && (r.response == -1 ==> Micros(s.now) >= sent + 12 * SECOND)
  }

  lemma TimePasses(s: State, a: Action)
    requires Enabled(s, a) && Defined(s, a)
    ensures Micros(s.now) <= Micros(Apply(s, a).now)
  {
    hide Expire, Received;
  }

  lemma FailureIsPatient(s: State, s': State, h: nat, sent: int)
    requires s.dns.queue != [] && s.dns.queue[0] < |s.dns.table| && HeadFails(s.dns, s'.dns, s.now)
    requires Micros(s.dns.table[s.dns.queue[0]].timeout) <= Micros(s.now) <= Micros(s'.now)
    requires Patient(s, h, sent)
    ensures Patient(s', h, sent)
  {
    hide Micros;
    assert h != s.dns.queue[0] ==> Same(s.dns.table[h], s'.dns.table[h]);
  }

  lemma ReplyIsPatient(s: State, s': State, id: nat, h: nat, sent: int)
    requires Wf(s.dns) && Answered(s.dns, s'.dns, id) && Micros(s.now) <= Micros(s'.now) && Patient(s, h, sent)
    ensures Patient(s', h, sent)
  {
    hide Micros;
    if Pending(s.dns, id) {
      var i: nat :| AnsweredAt(s.dns, s'.dns, id, i);
      assert h != s.dns.queue[i] ==> Same(s.dns.table[h], s'.dns.table[h]);
    } else {
      assert Same(s.dns.table[h], s'.dns.table[h]);
    }
  }

  lemma StepIsPatient(s: State, a: Action, first: nat, h: nat, sent: int)
    requires Inv(s, first) && Enabled(s, a) && Defined(s, a) && Punctual(s, a) && Patient(s, h, sent)
    ensures Patient(Apply(s, a), h, sent)
  {
    var s' := Apply(s, a);
    StepFollows(s, a, first);
    TimePasses(s, a);
    assert s.dns.queue != [] ==> s.dns.queue[0] < |s.dns.table|;
    hide Inv, Apply, HeadFails, Answered;
    match Learns(s, a)
    case TimeIsUp => FailureIsPatient(s, s', h, sent);
    case Read(Reply(id)) => ReplyIsPatient(s, s', id, h, sent);
    case Read(Nothing) => assert Same(s.dns.table[h], s'.dns.table[h]);
    case Silence => assert a.Send? || Same(s.dns.table[h], s'.dns.table[h]);
    case Read(Short) =>
  }

  lemma RunStep(states: seq<State>, steps: seq<Action>, first: nat, i: nat)
    requires Run(states, steps, first) && i < |steps|
    ensures |states| == |steps| + 1 && Inv(states[i], first) && Inv(states[i + 1], first)
    ensures Enabled(states[i], steps[i]) && Defined(states[i], steps[i]) && states[i + 1] == Apply(states[i], steps[i])
  {
    StepOfRun(states, steps, first, i);
    RunInv(states, steps, first, i);
    RunInv(states, steps, first, i + 1);
    hide Run, Inv, Enabled, Defined, Apply;
  }

  lemma PatientNext(states: seq<State>, steps: seq<Action>, first: nat, i: nat, h: nat, sent: int)
    requires Run(states, steps, first) && i < |steps|
    requires Punctual(states[i], steps[i]) && Patient(states[i], h, sent)
    ensures i + 1 < |states| && Patient(states[i + 1], h, sent)
  {
    RunStep(states, steps, first, i);
    hide Run, Inv, Enabled, Defined, Apply, Patient, Punctual;
    StepIsPatient(states[i], steps[i], first, h, sent);
  }

  lemma SentNext(states: seq<State>, steps: seq<Action>, first: nat, i: nat)
    requires Run(states, steps, first) && i < |steps| && steps[i].Send?
    ensures i + 1 < |states| && Patient(states[i + 1], |states[i].dns.table|, Micros(states[i].now))
  {
    RunStep(states, steps, first, i);
    hide Run, Inv, Enabled, Defined, Apply, Patient;
    JustSent(states[i], first);
  }

  /** In every run with readable datagrams and honest timeouts: a query is retransmitted no more than once for every
      two seconds since it was sent, and given up no earlier than after twelve. */
  lemma {:induction false} GivenUpAfterTwelveSeconds(states: seq<State>, steps: seq<Action>, first: nat, i: nat, j: nat)
    requires Run(states, steps, first) && i < j < |states| && steps[i].Send?
    requires forall k :: i < k < j ==> Punctual(states[k], steps[k])
    ensures Patient(states[j], |states[i].dns.table|, Micros(states[i].now))
    decreases j
  {
    assert |states| == |steps| + 1;
    hide Run, Patient, Punctual;
    if i + 1 == j {
      SentNext(states, steps, first, i);
    } else {
      GivenUpAfterTwelveSeconds(states, steps, first, i, j - 1);
      PatientNext(states, steps, first, j - 1, |states[i].dns.table|, Micros(states[i].now));
    }
  }

  lemma JustSent(s: State, first: nat)
    requires Inv(s, first) && Enabled(s, Send) && Defined(s, Send)
    ensures Patient(Apply(s, Send), |s.dns.table|, Micros(s.now))
  {
    StepFollows(s, Send, first);
    hide Inv, Apply;
  }

  /** In every run a reply with the id of a pending query, read before the head's deadline, settles it, and its task
      runs or is on the stack; if no other pending query has the id it is this one. */
  lemma ReplyIsDelivered(states: seq<State>, steps: seq<Action>, first: nat, i: nat, h: nat)
    requires Run(states, steps, first) && i < |steps|
    requires h in states[i].dns.queue && h < |states[i].dns.table|
    requires Learns(states[i], steps[i]) == Read(Reply(states[i].dns.table[h].id))
    requires forall x :: x in states[i].dns.queue && x < |states[i].dns.table| && x != h ==>
      states[i].dns.table[x].id != states[i].dns.table[h].id
    ensures var s' := states[i + 1];
      && h < |s'.dns.table| && s'.dns.table[h].response == 1 && h !in s'.dns.queue
      && s'.dns.table[h].owner == states[i].dns.table[h].owner && s'.dns.table[h].owner in s'.stack
  {
    RunStep(states, steps, first, i);
    hide Run, Apply;
    AnswerIsDelivered(states[i], steps[i], states[i + 1], h, first);
  }

  lemma AnswerIsDelivered(s: State, a: Action, s': State, h: nat, first: nat)
    requires Inv(s, first) && Enabled(s, a) && Defined(s, a) && s' == Apply(s, a) && Inv(s', first)
    requires h in s.dns.queue && h < |s.dns.table| && Learns(s, a) == Read(Reply(s.dns.table[h].id))
    requires forall x :: x in s.dns.queue && x < |s.dns.table| && x != h ==> s.dns.table[x].id != s.dns.table[h].id
    ensures h < |s'.dns.table| && s'.dns.table[h].response == 1 && h !in s'.dns.queue
    ensures s'.dns.table[h].owner == s.dns.table[h].owner && s'.dns.table[h].owner in s'.stack
  {
    assert a.Turn? || a.Main?;
    RunnersOwn(s, a, first);
    StepFollows(s, a, first);
    StepMoves(s, a, first);
    assert Wf(s.dns);
    hide Apply, Inv, TasksFollow, Answered, Enabled, Defined;
    AnsweredAlone(s, s', h, first);
    AnsweredRuns(s, a, s', h);
  }

  lemma RunnersOwn(s: State, a: Action, first: nat)
    requires Inv(s, first) && Enabled(s, a) && Defined(s, a) && (a.Turn? || a.Main?)
    ensures var t := if a.Main? then s.yielder.value else Top(s.stack);
      && t < |s.tasks| && (s.tasks[t].pc.Loop? || s.tasks[t].pc.Yielding?)
      && s.tasks[t].pc.r < |s.dns.table| && s.dns.table[s.tasks[t].pc.r].owner == t
  {
    hide DnsInv, StackInv, PointInv, PendingInv, Alive;
  }

  lemma AnsweredAlone(s: State, s': State, h: nat, first: nat)
    requires Inv(s, first) && Inv(s', first) && h in s.dns.queue && h < |s.dns.table|
    requires Answered(s.dns, s'.dns, s.dns.table[h].id)
    requires forall x :: x in s.dns.queue && x < |s.dns.table| && x != h ==> s.dns.table[x].id != s.dns.table[h].id
    ensures h < |s'.dns.table| && s'.dns.table[h].response == 1 && h !in s'.dns.queue
    ensures s'.dns.table[h].owner == s.dns.table[h].owner && Settles(s.dns, s'.dns, h)
  {
    var k :| 0 <= k < |s.dns.queue| && s.dns.queue[k] == h;
    assert Pending(s.dns, s.dns.table[h].id);
    var n: nat :| AnsweredAt(s.dns, s'.dns, s.dns.table[h].id, n);
    assert s.dns.queue[n] in s.dns.queue;
    hide StackInv, EventInv, TaskInv, Alive, Sorted, Numbered, Transmitted, Conserved;
  }

  lemma AnsweredRuns(s: State, a: Action, s': State, h: nat)
    requires Enabled(s, a) && Defined(s, a) && (a.Turn? || a.Main?) && Learns(s, a).Read? && Learns(s, a).recv.Reply?
    requires TasksFollow(s, a, s') && Settles(s.dns, s'.dns, h)
    requires var t := if a.Main? then s.yielder.value else Top(s.stack);
      s.tasks[t].pc.r == h ==> s.dns.table[h].owner == t
    ensures s.dns.table[h].owner in s'.stack
  {
  }
}
