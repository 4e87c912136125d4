/** dns_resolve_sync() as a step system: any number of tasks share one resolver.

    src/common/event.c runs tasks as coroutines. Main switches into a task, which may switch into
    another by starting or notifying it; a task that yields, waits or exits hands control back to
    whoever switched into it. `stack` lists the tasks that have been switched into, the running one
    last. Every step below is what one task (or main) does between two such points. */
module Sync {
  import opened Options
  import opened Clock
  import opened Queries

  /** Where a task is. `r` is the resolve that its dns_resolve_sync() call is about. */
  datatype Pc =
    | Exited
    | Away                          // suspended on something that is not the resolver's event
    | Free                          // switched into, outside dns_resolve_sync()
    | Loop(r: nat)                  // about to test `while (!resolve->response)`
    | Yielding(r: nat, head: nat)   // in event_yield() below dns_resolve_response(), whose local `resolve` is `head`
    | Waiting(r: nat)               // in event_wait()
    | Notifying(r: nat)             // in the event_notify() inside the loop
    | Poke(r: nat)                  // past the loop, about to look for another task to poke
    | Poking(r: nat)                // in the event_notify() after the loop

  /** struct event_task: `waiting` is task->wait != NULL. */
  datatype Task = Task(pc: Pc, waiting: bool)

  /** What sock_read() finds in the socket. */
  datatype Recv =
    | Nothing           // EAGAIN
    | Short             // a datagram that dns_unpack_header() refuses
    | Reply(id: nat)    // a datagram with this header id

  /** Why main switches into the task that yields on the resolver's event. */
  datatype Wakeup = TimedOut | Readable(recv: Recv)

  /** `yielder` is event->task of the resolver's event, `fatal` records that some log_fatal() or
      should-not-happen branch of event.c was taken. */
  datatype State = State(
    now: Timeval,
    stack: seq<nat>,
    tasks: seq<Task>,
    yielder: Option<nat>,
    dns: Dns,
    fatal: bool)

  // ----- Switching -----

  function Top(stack: seq<nat>): nat
    requires stack != []
  {
    stack[|stack| - 1]
  }

  function SetPc(s: State, t: nat, pc: Pc): State
    requires t < |s.tasks|
  {
    s.(tasks := s.tasks[t := s.tasks[t].(pc := pc)])
  }

  /** How a task goes on when the task it switched into hands control back. */
  function Resumed(pc: Pc): Pc {
    match pc
    case Notifying(r) => Loop(r)
    case Poking(r) => Free
    case _ => pc
  }

  predicate StackOk(s: State) {
    forall i :: 0 <= i < |s.stack| ==> s.stack[i] < |s.tasks|
  }

  /** co_resume() out of the running task, and the rest of event_switch() in the one below. */
  function Return(s: State): State
    requires StackOk(s) && s.stack != []
  {
    var rest := s.stack[..|s.stack| - 1];
    if rest == [] then s.(stack := rest)
    else SetPc(s.(stack := rest), Top(rest), Resumed(s.tasks[Top(rest)].pc))
  }

  /** event_yield(): event_register() and _event_yield(), up to the switch. */
  function Yield(s: State, t: nat, r: nat, head: nat): State
    requires StackOk(s) && s.stack != [] && t < |s.tasks|
  {
    if s.yielder.Some? then s.(fatal := true)
    else Return(SetPc(s.(yielder := Some(t)), t, Yielding(r, head)))
  }

  /** event_wait(event, &resolve->wait), up to the switch. */
  function Wait(s: State, t: nat, r: nat): State
    requires StackOk(s) && s.stack != [] && t < |s.tasks| && r < |s.dns.table|
  {
    if s.tasks[t].waiting || s.dns.table[r].wait.Some? then s.(fatal := true)
    else Return(s.(dns := SetWait(s.dns, r, Some(t)), tasks := s.tasks[t := Task(Waiting(r), true)]))
  }

  /** event_notify(event, &next->wait): switches into the task that waits for `n`, which comes out of
      its own event_wait(). */
  function Notify(s: State, t: nat, n: nat, pc: Pc): State
    requires t < |s.tasks| && n < |s.dns.table|
  {
    match s.dns.table[n].wait
    case None => s.(fatal := true)
    case Some(w) =>
      if s.tasks[t].waiting || w >= |s.tasks| || !s.tasks[w].pc.Waiting? then s.(fatal := true)
      else
        var s1 := SetPc(s.(dns := SetWait(s.dns, n, None)), t, pc);
        s1.(stack := s.stack + [w], tasks := s1.tasks[w := Task(Loop(s.tasks[w].pc.r), false)])
  }

  // ----- dns_resolve_sync() -----

  /** The loop body after dns_resolve_response() returned. */
  function AfterResponse(s: State, t: nat, r: nat, o: Outcome): State
    requires t < |s.tasks|
    requires o.next.Some? ==> o.next.value < |o.dns.table|
  {
    var s1 := s.(dns := o.dns);
    match o.next
    case None => SetPc(s1, t, Loop(r))
    case Some(n) =>
      if n == r then SetPc(s1, t, Poke(r))
      else if o.dns.table[n].wait.None? then SetPc(s1, t, Loop(r))
      else Notify(s1, t, n, Notifying(r))
  }

  /** dns_response() got a datagram, or dns_resolve_response() found the head's deadline passed. */
  function Received(d: Dns, now: Timeval, head: nat, recv: Recv): Outcome
    requires Wf(d) && head in d.queue
  {
    if recv.Reply? then Answer(d, recv.id) else Expire(d, now, head)
  }

  /** One turn of the running task's loop. */
  function LoopTurn(s: State, recv: Recv): State
    requires StackOk(s) && s.stack != [] && Wf(s.dns)
    requires s.tasks[Top(s.stack)].pc.Loop?
    requires
      var r := s.tasks[Top(s.stack)].pc.r;
      r < |s.dns.table| && (s.dns.table[r].response == 0 ==> s.dns.queue != [])
  {
    var t := Top(s.stack);
    var r := s.tasks[t].pc.r;
    if s.dns.table[r].response != 0 then SetPc(s, t, Poke(r))
    else if s.yielder.Some? then Wait(s, t, r)
    else
      var head := s.dns.queue[0];
      if Past(s.now, s.dns.table[head].timeout) then AfterResponse(s, t, r, Expire(s.dns, s.now, head))
      else if recv.Nothing? then Yield(s, t, r, head)
      else AfterResponse(s, t, r, Received(s.dns, s.now, head, recv))
  }

  /** The code after the loop. */
  function PokeTurn(s: State): State
    requires StackOk(s) && s.stack != [] && Wf(s.dns)
    requires s.tasks[Top(s.stack)].pc.Poke?
  {
    var t := Top(s.stack);
    if s.dns.queue == [] || s.dns.table[s.dns.queue[0]].wait.None? then SetPc(s, t, Free)
    else Notify(s, t, s.dns.queue[0], Poking(s.tasks[t].pc.r))
  }

  /** Main switches into the task that yields on the resolver's event. */
  function Wake(s: State, w: Wakeup): State
    requires s.stack == [] && s.yielder.Some? && s.yielder.value < |s.tasks| && Wf(s.dns)
    requires var pc := s.tasks[s.yielder.value].pc; pc.Yielding? && pc.head in s.dns.queue
  {
    var t := s.yielder.value;
    var r, head := s.tasks[t].pc.r, s.tasks[t].pc.head;
    var s1 := SetPc(s.(stack := [t], yielder := None), t, Loop(r));
    match w
    case TimedOut => AfterResponse(s1, t, r, Expire(s.dns, s.now, head))
    case Readable(recv) =>
      if recv.Nothing? then Yield(s1, t, r, head)
      else AfterResponse(s1, t, r, Received(s.dns, s.now, head, recv))
  }

  // ----- Steps -----

  datatype Action =
    | Tick(to: Timeval)      // the clock moves on
    | Start                  // event_start(), from main or from a task
    | Resume(t: nat)         // main switches into a task that was away
    | Leave                  // the running task suspends on something else
    | Exit                   // the running task returns
    | Send                   // the running task calls dns_resolve(): query, then sync
    | Turn(recv: Recv)       // the running task takes a turn of the loop
    | AfterLoop              // the running task pokes, if need be, and returns from dns_resolve_sync()
    | Main(w: Wakeup)        // main reports the resolver's event

  predicate Running(s: State, free: bool) {
    s.stack != [] && Top(s.stack) < |s.tasks| && (free ==> s.tasks[Top(s.stack)].pc.Free?)
  }

  predicate Enabled(s: State, a: Action) {
    match a
    case Tick(to) => Normal(to) && Micros(s.now) <= Micros(to)
    case Start => s.stack == [] || Running(s, true)
    case Resume(t) => s.stack == [] && t < |s.tasks| && s.tasks[t].pc.Away?
    case Leave => Running(s, true)
    case Exit => Running(s, true)
    case Send => Running(s, true)
    case Turn(recv) => Running(s, false) && s.tasks[Top(s.stack)].pc.Loop?
    case AfterLoop => Running(s, false) && s.tasks[Top(s.stack)].pc.Poke?
    case Main(w) => s.stack == [] && s.yielder.Some?
  }

  /** Every pointer the step follows is there: in particular TAILQ_FIRST() is not NULL when
      dns_resolve_response() dereferences it. */
  predicate Defined(s: State, a: Action) {
    && StackOk(s) && Wf(s.dns)
    && match a
       case Turn(recv) =>
         Enabled(s, a) ==>
           var r := s.tasks[Top(s.stack)].pc.r;
           r < |s.dns.table| && (s.dns.table[r].response == 0 ==> s.dns.queue != [])
       case Main(w) =>
         Enabled(s, a) ==>
           && s.yielder.value < |s.tasks|
           && s.tasks[s.yielder.value].pc.Yielding?
           && s.tasks[s.yielder.value].pc.head in s.dns.queue
       case _ => true
  }

  function Apply(s: State, a: Action): State
    requires Enabled(s, a) && Defined(s, a)
  {
    match a
    case Tick(to) => s.(now := to)
    case Start => s.(stack := s.stack + [|s.tasks|], tasks := s.tasks + [Task(Free, false)])
    case Resume(t) => SetPc(s.(stack := [t]), t, Free)
    case Leave => Return(SetPc(s, Top(s.stack), Away))
    case Exit => Return(SetPc(s, Top(s.stack), Exited))
    case Send =>
      var t := Top(s.stack);
      SetPc(s.(dns := Query(s.dns, s.now, t)), t, Loop(|s.dns.table|))
    case Turn(recv) => LoopTurn(s, recv)
    case AfterLoop => PokeTurn(s)
    case Main(w) => Wake(s, w)
  }

  predicate Init(s: State, first: nat) {
    && Normal(s.now)
    && s.stack == [] && s.tasks == [] && s.yielder == None && !s.fatal
    && s.dns == Dns(first % IDS, [], [], [])
  }

  // ----- The invariant -----

  predicate OnStack(pc: Pc) {
    pc.Free? || pc.Loop? || pc.Notifying? || pc.Poke? || pc.Poking?
  }

  predicate InSync(pc: Pc) {
    !pc.Exited? && !pc.Away? && !pc.Free?
  }

  /** A task on the stack that will still test the loop condition or look for a task to poke. */
  predicate Obliged(pc: Pc) {
    pc.Loop? || pc.Notifying? || pc.Poke?
  }

  /** The stack holds each task at most once, only its top runs, and the others are inside
      event_switch(). */
  ghost predicate StackOrder(s: State) {
    && StackOk(s)
    && (forall i, j :: 0 <= i < j < |s.stack| ==> s.stack[i] != s.stack[j])
    && (forall i :: 0 <= i < |s.stack| ==> OnStack(s.tasks[s.stack[i]].pc))
    && (forall i :: 0 <= i < |s.stack| - 1 ==>
          !s.tasks[s.stack[i]].pc.Loop? && !s.tasks[s.stack[i]].pc.Poke?)
    && (s.stack != [] ==> !s.tasks[Top(s.stack)].pc.Notifying? && !s.tasks[Top(s.stack)].pc.Poking?)
  }

  /** Every task that has been switched into and has not switched back is on the stack. */
  ghost predicate StackComplete(s: State) {
    forall t :: 0 <= t < |s.tasks| && OnStack(s.tasks[t].pc) ==> t in s.stack
  }

  ghost predicate StackInv(s: State) {
    StackOrder(s) && StackComplete(s)
  }

  /** event->task names the one task in event_yield(); wait pointers and task->wait agree with event_wait(). */
  ghost predicate EventInv(s: State) {
    && (forall t :: 0 <= t < |s.tasks| ==> (s.tasks[t].pc.Yielding? <==> s.yielder == Some(t)))
    && (s.yielder.Some? ==> s.yielder.value < |s.tasks|)
    && (forall t :: 0 <= t < |s.tasks| ==> (s.tasks[t].waiting <==> s.tasks[t].pc.Waiting?))
    && (forall h :: 0 <= h < |s.dns.table| && s.dns.table[h].wait.Some? ==>
          s.dns.table[h].wait.value < |s.tasks| && s.tasks[s.dns.table[h].wait.value].pc == Waiting(h))
    && !s.fatal
  }

  /** A task inside dns_resolve_sync() owns the resolve the call is about. */
  ghost predicate OwnerInv(s: State) {
    forall t :: 0 <= t < |s.tasks| && InSync(s.tasks[t].pc) ==>
      s.tasks[t].pc.r < |s.dns.table| && s.dns.table[s.tasks[t].pc.r].owner == t
  }

  /** What a task's program point says about its resolve. `late` is a resolve that has just been
      settled and whose waiting owner is about to be notified. */
  ghost predicate PointInv(s: State, late: Option<nat>)
    requires OwnerInv(s)
  {
    forall t :: 0 <= t < |s.tasks| ==>
      var pc := s.tasks[t].pc;
      && (pc.Yielding? ==> s.dns.table[pc.r].response == 0 && s.dns.queue != [] && s.dns.queue[0] == pc.head)
      && (pc.Waiting? ==> s.dns.table[pc.r].wait == Some(t))
      && (pc.Waiting? ==> s.dns.table[pc.r].response == 0 || late == Some(pc.r))
      && (pc.Poke? || pc.Poking? ==> s.dns.table[pc.r].response != 0)
  }

  /** The owner of a pending resolve is still inside the loop of dns_resolve_sync(). */
  ghost predicate PendingInv(s: State) {
    forall h :: 0 <= h < |s.dns.table| && s.dns.table[h].response == 0 ==>
      var t := s.dns.table[h].owner;
      && t < |s.tasks| && InSync(s.tasks[t].pc) && s.tasks[t].pc.r == h
      && !s.tasks[t].pc.Poke? && !s.tasks[t].pc.Poking?
  }

  ghost predicate TaskInv(s: State, late: Option<nat>) {
    OwnerInv(s) && PointInv(s, late) && PendingInv(s)
  }

  /** While something is pending, either some task yields on the event, or one on the stack is still
      obliged to see to it. */
  ghost predicate Alive(s: State)
    requires StackOk(s)
  {
    s.dns.queue != [] && s.yielder.None? ==>
      exists i :: 0 <= i < |s.stack| && Obliged(s.tasks[s.stack[i]].pc)
  }

  ghost predicate Inv(s: State, first: nat) {
    && DnsInv(s.dns, s.now, first)
    && StackInv(s) && EventInv(s) && TaskInv(s, None) && Alive(s)
  }
}
