/** Why a run of the resolver settles its queries: a measure that only new work can raise. */
module SyncProgress {
  import opened Options
  import opened Clock
  import opened Sums
  import opened Queries
  import opened Sync
  import opened SyncProof
  import opened SyncRuns

  // ----- The settling measure of the queue -----

  /** The timeouts a pending resolve can still go through. */
  function Chances(r: Resolve): int {
    if r.response == 0 then RETRIES - r.retry + 1 else 0
  }

  function AllChances(d: Dns): seq<int> {
    seq(|d.table|, h requires 0 <= h < |d.table| => Chances(d.table[h]))
  }

  function Settling(d: Dns): int {
    Sum(AllChances(d))
  }

  lemma ChancesUpdate(d: Dns, d': Dns, h: nat)
    requires h < |d.table| == |d'.table| && d'.table == d.table[h := d'.table[h]]
    ensures Settling(d') == Settling(d) - Chances(d.table[h]) + Chances(d'.table[h])
  {
    assert AllChances(d') == AllChances(d)[h := Chances(d'.table[h])];
    SumUpdate(AllChances(d), h, Chances(d'.table[h]));
  }

  /** Every timeout uses up one chance of the head, whether it is retried or given up. */
  lemma ExpireSettles(d: Dns, now: Timeval, h: nat)
    requires QueueInv(d) && h in d.queue
    ensures Settling(Expire(d, now, h).dns) == Settling(d) - 1
  {
    ChancesUpdate(d, Expire(d, now, h).dns, h);
  }

  /** A matched response uses up all the chances that are left, an unmatched one changes nothing. */
  lemma AnswerSettles(d: Dns, id: nat)
    requires QueueInv(d)
    ensures
      match Match(d, id)
      case None => Answer(d, id) == Outcome(d, None)
      case Some(m) => Settling(Answer(d, id).dns) == Settling(d) - Chances(d.table[m]) && Chances(d.table[m]) >= 1
  {
    if Match(d, id).Some? {
      ChancesUpdate(d, Answer(d, id).dns, Match(d, id).value);
    }
  }

  lemma QuerySettles(d: Dns, now: Timeval, owner: nat)
    ensures Settling(Query(d, now, owner)) == Settling(d) + RETRIES + 1
  {
    var d' := Query(d, now, owner);
    assert AllChances(d') == AllChances(d) + [RETRIES + 1];
    SumAppend(AllChances(d), [RETRIES + 1]);
    assert [RETRIES + 1][1..] == [];
  }

  lemma SetWaitSettles(d: Dns, h: nat, wait: Option<nat>)
    requires h < |d.table|
    ensures Settling(SetWait(d, h, wait)) == Settling(d)
  {
    ChancesUpdate(d, SetWait(d, h, wait), h);
  }

  // ----- The work left on the tasks' own stacks -----

  predicate Done(d: Dns, r: nat) {
    r < |d.table| && d.table[r].response != 0
  }

  function Work(d: Dns, pc: Pc): int {
    match pc
    case Free => 1
    case Loop(r) => if Done(d, r) then 5 else 1
    case Notifying(r) => if Done(d, r) then 5 else 1
    case Poke(r) => 4
    case Poking(r) => 2
    case _ => 0
  }

  function AllWork(s: State): seq<int> {
    seq(|s.tasks|, t requires 0 <= t < |s.tasks| => Work(s.dns, s.tasks[t].pc))
  }

  function Energy(s: State): int {
    7 * Settling(s.dns) + Sum(AllWork(s))
  }

  lemma EnergyNonNegative(s: State)
    requires QueueInv(s.dns)
    ensures Energy(s) >= 0
  {
    SumNonNegative(AllWork(s));
    SumNonNegative(AllChances(s.dns));
  }

  lemma ReturnWork(s: State, s1: State, t: nat)
    requires StackOk(s1) && s1.stack != [] && |s1.tasks| == |s.tasks| && t < |s.tasks|
    requires forall u :: 0 <= u < |s.tasks| && u != t ==> Work(s1.dns, s1.tasks[u].pc) <= Work(s.dns, s.tasks[u].pc)
    requires t == Top(s1.stack) && Work(s1.dns, s1.tasks[t].pc) < Work(s.dns, s.tasks[t].pc)
    requires forall i :: 0 <= i < |s1.stack| - 1 ==> s1.stack[i] != t
    ensures Sum(AllWork(Return(s1))) < Sum(AllWork(s))
  {
    SumRise(AllWork(s), AllWork(Return(s1)), t, -1, t, 0);
  }

  /** Settling `late` may give its owner four units of work, five if it is woken as well. */
  lemma SettlingWork(s: State, d': Dns, late: Option<nat>, k: nat)
    requires TaskInv(s, None) && Advances(s.dns, d', late) && k < |s.tasks|
    ensures Work(d', s.tasks[k].pc)
      <= Work(s.dns, s.tasks[k].pc) + (if late.Some? && s.dns.table[late.value].owner == k then 4 else 0)
  {
  }

  lemma DeliveryWork(s: State, t: nat, r: nat, o: Outcome, k: nat)
    requires EventInv(s) && TaskInv(s, None) && s.yielder == None
    requires t < |s.tasks| && s.tasks[t].pc == Loop(r) && s.dns.table[r].response == 0
    requires Advances(s.dns, o.dns, o.next) && k < |s.tasks|
    ensures
      var s' := AfterResponse(s, t, r, o);
      && |s'.tasks| == |s.tasks|
      && Work(s'.dns, s'.tasks[k].pc)
         <= Work(s.dns, s.tasks[k].pc) + (if o.next.Some? && s.dns.table[o.next.value].owner == k then 5 else 0)
  {
    SettlingWork(s, o.dns, o.next, k);
    hide PendingInv;
    var s' := AfterResponse(s, t, r, o);
    if o.next == None || o.next.value == r || o.dns.table[o.next.value].wait.None? {
      assert s'.dns == o.dns && (k != t ==> s'.tasks[k] == s.tasks[k]);
    } else if k != t && s'.tasks[k].pc == s.tasks[k].pc {
      assert Work(s'.dns, s.tasks[k].pc) == Work(o.dns, s.tasks[k].pc);
    }
  }

  lemma AfterResponseWork(s: State, t: nat, r: nat, o: Outcome)
    requires EventInv(s) && TaskInv(s, None) && s.yielder == None
    requires t < |s.tasks| && s.tasks[t].pc == Loop(r) && s.dns.table[r].response == 0
    requires Advances(s.dns, o.dns, o.next)
    ensures
      var s' := AfterResponse(s, t, r, o);
      && Settling(s'.dns) == Settling(o.dns)
      && Sum(AllWork(s')) <= Sum(AllWork(s)) + (if o.next.Some? then 5 else 0)
  {
    var s' := AfterResponse(s, t, r, o);
    if o.next.Some? && o.next.value != r && o.dns.table[o.next.value].wait.Some? {
      SetWaitSettles(o.dns, o.next.value, None);
    }
    forall k: nat | k < |s.tasks| {
      DeliveryWork(s, t, r, o, k);
    }
    if o.next.Some? {
      var u := s.dns.table[o.next.value].owner;
      SumRise(AllWork(s), AllWork(s'), u, 5, u, 0);
    } else {
      SumMono(AllWork(s'), AllWork(s));
    }
  }

  // ----- Steps -----

  /** The datagram is a well-formed reply that no pending resolve is waiting for. */
  predicate Unmatched(d: Dns, recv: Recv)
    requires Wf(d)
  {
    recv.Reply? && Match(d, recv.id).None?
  }

  /** Steps that are not the environment's doing: everything but new work, clock readings, spurious
      readiness and unmatched datagrams. */
  predicate Internal(s: State, a: Action)
    requires Enabled(s, a) && Defined(s, a)
  {
    match a
    case Leave => true
    case Exit => true
    case AfterLoop => true
    case Turn(recv) =>
      var r := s.tasks[Top(s.stack)].pc.r;
      || s.dns.table[r].response != 0
      || s.yielder.Some?
      || Past(s.now, s.dns.table[s.dns.queue[0]].timeout)
      || !Unmatched(s.dns, recv)
    case Main(w) => w.TimedOut? || (!w.recv.Nothing? && !Unmatched(s.dns, w.recv))
    case _ => false
  }

  /** How much energy a step may bring in. */
  function Gain(a: Action): nat {
    match a
    case Send => 42
    case Start => 1
    case Resume(t) => 1
    case Main(w) => if w.Readable? && w.recv.Reply? then 1 else 0
    case _ => 0
  }

  lemma ReceptionEnergy(s: State, t: nat, r: nat, head: nat, recv: Recv, expired: bool, first: nat)
    requires DnsInv(s.dns, s.now, first) && EventInv(s) && TaskInv(s, None) && s.yielder == None
    requires t < |s.tasks| && s.tasks[t].pc == Loop(r) && s.dns.table[r].response == 0
    requires head in s.dns.queue && (expired || !recv.Nothing?)
    ensures
      var o := if expired then Expire(s.dns, s.now, head) else Received(s.dns, s.now, head, recv);
      && (o.next.Some? ==> o.next.value < |o.dns.table|)
      && var s' := AfterResponse(s, t, r, o);
         Energy(s') <= Energy(s) - (if !expired && Unmatched(s.dns, recv) then 0 else 2)
  {
    if !expired && recv.Reply? {
      AnswerAdvances(s.dns, s.now, recv.id, first);
      AnswerSettles(s.dns, recv.id);
      AfterResponseWork(s, t, r, Answer(s.dns, recv.id));
    } else {
      ExpireAdvances(s.dns, s.now, head, first);
      ExpireSettles(s.dns, s.now, head);
      AfterResponseWork(s, t, r, Expire(s.dns, s.now, head));
    }
  }

  lemma YieldEnergy(s: State, t: nat, r: nat, head: nat)
    requires StackInv(s) && s.yielder == None && s.stack != [] && t == Top(s.stack) && s.tasks[t].pc == Loop(r)
    ensures Energy(Yield(s, t, r, head)) < Energy(s)
  {
    var s1 := SetPc(s.(yielder := Some(t)), t, Yielding(r, head));
    ReturnWork(s, s1, t);
  }

  lemma WaitEnergy(s: State, t: nat, r: nat)
    requires StackInv(s) && EventInv(s) && TaskInv(s, None)
    requires s.stack != [] && t == Top(s.stack) && s.tasks[t].pc == Loop(r)
    ensures Energy(Wait(s, t, r)) < Energy(s)
  {
    var s1 := s.(dns := SetWait(s.dns, r, Some(t)), tasks := s.tasks[t := Task(Waiting(r), true)]);
    assert Wait(s, t, r) == Return(s1);
    assert |s1.tasks| == |s.tasks| && forall u :: 0 <= u < |s.tasks| && u != t ==> s1.tasks[u] == s.tasks[u];
    SetWaitSettles(s.dns, r, Some(t));
    hide EventInv, TaskInv, StackComplete, Settling;
    ReturnWork(s, s1, t);
  }

  lemma TurnEnergy(s: State, recv: Recv, first: nat)
    requires Inv(s, first) && Enabled(s, Turn(recv)) && Defined(s, Turn(recv))
    ensures Energy(Apply(s, Turn(recv))) <= Energy(s) - (if Internal(s, Turn(recv)) then 1 else 0)
  {
    var t := Top(s.stack);
    var r := s.tasks[t].pc.r;
    if s.dns.table[r].response != 0 {
      SumRise(AllWork(s), AllWork(Apply(s, Turn(recv))), t, -1, t, 0);
    } else if s.yielder.Some? {
      WaitEnergy(s, t, r);
    } else {
      var head := s.dns.queue[0];
      var expired := Past(s.now, s.dns.table[head].timeout);
      if !expired && recv.Nothing? {
        YieldEnergy(s, t, r, head);
      } else {
        ReceptionEnergy(s, t, r, head, recv, expired, first);
      }
    }
  }

  /** The poke takes the running task out of dns_resolve_sync() and gives the one it wakes a turn of the loop. */
  lemma PokeWork(s: State, t: nat, n: nat, w: nat, k: nat)
    requires t < |s.tasks| && s.tasks[t].pc.Poke? && !s.tasks[t].waiting && k < |s.tasks|
    requires n < |s.dns.table| && s.dns.table[n].response == 0 && s.dns.table[n].wait == Some(w)
    requires w < |s.tasks| && w != t && s.tasks[w].pc == Waiting(n)
    ensures var s' := Notify(s, t, n, Poking(s.tasks[t].pc.r));
      && |s'.tasks| == |s.tasks|
      && Work(s'.dns, s'.tasks[k].pc)
         <= Work(s.dns, s.tasks[k].pc) + (if k == t then -2 else if k == w then 1 else 0)
  {
  }

  lemma AfterLoopEnergy(s: State, first: nat)
    requires Inv(s, first) && Enabled(s, AfterLoop) && Defined(s, AfterLoop)
    ensures Energy(Apply(s, AfterLoop)) < Energy(s)
  {
    var t, s' := Top(s.stack), Apply(s, AfterLoop);
    if s.dns.queue == [] || s.dns.table[s.dns.queue[0]].wait.None? {
      SumRise(AllWork(s), AllWork(s'), t, -1, t, 0);
    } else {
      var n := s.dns.queue[0];
      var w := s.dns.table[n].wait.value;
      assert n in s.dns.queue && s.tasks[w].pc == Waiting(n);
      SetWaitSettles(s.dns, n, None);
      assert t != w && s.dns.table[n].response == 0 && !s.tasks[t].waiting;
      hide Inv, Settling;
      forall k: nat | k < |s.tasks| {
        PokeWork(s, t, n, w, k);
      }
      SumRise(AllWork(s), AllWork(s'), t, -2, w, 1);
    }
  }

  lemma MainEnergy(s: State, w: Wakeup, first: nat)
    requires Inv(s, first) && Enabled(s, Main(w)) && Defined(s, Main(w))
    ensures Energy(Apply(s, Main(w))) <= Energy(s) + (if Internal(s, Main(w)) then -1 else Gain(Main(w)))
  {
    var t := s.yielder.value;
    var r, head := s.tasks[t].pc.r, s.tasks[t].pc.head;
    var s1 := SetPc(s.(stack := [t], yielder := None), t, Loop(r));
    WokenInv(s, s1, t, r, head);
    SumRise(AllWork(s), AllWork(s1), t, 1, t, 0);
    if w == Readable(Nothing) {
      YieldEnergy(s1, t, r, head);
    } else {
      ReceptionEnergy(s1, t, r, head, if w.TimedOut? then Nothing else w.recv, w.TimedOut?, first);
    }
  }

  lemma LeaveEnergy(s: State, pc: Pc)
    requires StackInv(s) && Running(s, true) && (pc == Away || pc == Exited)
    ensures Energy(Return(SetPc(s, Top(s.stack), pc))) < Energy(s)
  {
    ReturnWork(s, SetPc(s, Top(s.stack), pc), Top(s.stack));
  }

  lemma SentWork(s: State, first: nat)
    requires Inv(s, first) && Enabled(s, Send) && Defined(s, Send)
    ensures var s' := Apply(s, Send);
      && |s'.tasks| == |s.tasks|
      && forall t :: 0 <= t < |s.tasks| ==> Work(s'.dns, s'.tasks[t].pc) <= Work(s.dns, s.tasks[t].pc)
  {
    hide DnsInv, StackInv, Alive;
  }

  lemma SendEnergy(s: State, first: nat)
    requires Inv(s, first) && Enabled(s, Send) && Defined(s, Send)
    ensures Energy(Apply(s, Send)) <= Energy(s) + 42
  {
    SentWork(s, first);
    QuerySettles(s.dns, s.now, Top(s.stack));
    WorkMono(s, Apply(s, Send));
    hide Inv, Settling, AllWork;
  }

  lemma WorkMono(s: State, s': State)
    requires |s'.tasks| == |s.tasks|
    requires forall t :: 0 <= t < |s.tasks| ==> Work(s'.dns, s'.tasks[t].pc) <= Work(s.dns, s.tasks[t].pc)
    ensures Sum(AllWork(s')) <= Sum(AllWork(s))
  {
    hide Work;
    SumMono(AllWork(s'), AllWork(s));
  }

  lemma StartEnergy(s: State, a: Action, first: nat)
    requires Inv(s, first) && Enabled(s, a) && Defined(s, a) && (a.Start? || a.Resume? || a.Tick?)
    ensures Energy(Apply(s, a)) <= Energy(s) + Gain(a)
  {
    if a.Start? {
      assert AllWork(Apply(s, a)) == AllWork(s) + [1];
      SumAppend(AllWork(s), [1]);
      assert [1][1..] == [];
    } else if a.Resume? {
      SumRise(AllWork(s), AllWork(Apply(s, a)), a.t, 1, a.t, 0);
    } else {
      assert AllWork(Apply(s, a)) == AllWork(s);
    }
  }

  /** Every internal step uses up energy; the others bring in no more than their gain. */
  lemma StepEnergy(s: State, a: Action, first: nat)
    requires Inv(s, first) && Enabled(s, a) && Defined(s, a)
    ensures Energy(Apply(s, a)) <= Energy(s) + (if Internal(s, a) then -1 else Gain(a))
  {
    match a
    case Turn(recv) => TurnEnergy(s, recv, first);
    case AfterLoop => AfterLoopEnergy(s, first);
    case Main(w) => MainEnergy(s, w, first);
    case Leave => LeaveEnergy(s, Away);
    case Exit => LeaveEnergy(s, Exited);
    case Send => SendEnergy(s, first);
    case _ => StartEnergy(s, a, first);
  }

  // ----- Runs -----

  ghost function InternalSteps(states: seq<State>, steps: seq<Action>, n: nat): nat
    requires n <= |steps| < |states|
    requires forall i :: 0 <= i < n ==> Enabled(states[i], steps[i]) && Defined(states[i], steps[i])
  {
    if n == 0 then 0
    else InternalSteps(states, steps, n - 1) + (if Internal(states[n - 1], steps[n - 1]) then 1 else 0)
  }

  /** What the environment has brought in: the gains of the steps that are not internal. */
  ghost function Paid(states: seq<State>, steps: seq<Action>, n: nat): nat
    requires n <= |steps| < |states|
    requires forall i :: 0 <= i < n ==> Enabled(states[i], steps[i]) && Defined(states[i], steps[i])
  {
    if n == 0 then 0
    else Paid(states, steps, n - 1) + (if Internal(states[n - 1], steps[n - 1]) then 0 else Gain(steps[n - 1]))
  }

  lemma EnergyOfInv(s: State, first: nat)
    requires Inv(s, first)
    ensures Energy(s) >= 0
  {
    EnergyNonNegative(s);
  }

  /** A stretch of a run, from any state. */
  ghost predicate Stretch(states: seq<State>, steps: seq<Action>) {
    && |states| == |steps| + 1
    && forall i :: 0 <= i < |steps| ==>
         Enabled(states[i], steps[i]) && Defined(states[i], steps[i]) && states[i + 1] == Apply(states[i], steps[i])
  }

  /** The internal steps of any stretch are paid for by the energy it begins with and by what the environment
      brings in; a matched reply, however it is noticed, brings in nothing. */
  lemma {:induction false} StretchEnergy(states: seq<State>, steps: seq<Action>, first: nat, n: nat)
    requires Stretch(states, steps) && Inv(states[0], first) && n <= |steps|
    ensures Inv(states[n], first)
    ensures 0 <= Energy(states[n]) <= Energy(states[0]) + Paid(states, steps, n) - InternalSteps(states, steps, n)
  {
    hide Inv, Energy, Enabled, Defined, Internal, Apply, Gain;
    if n > 0 {
      StretchEnergy(states, steps, first, n - 1);
      StepInv(states[n - 1], steps[n - 1], first);
      StepEnergy(states[n - 1], steps[n - 1], first);
    }
    EnergyOfInv(states[n], first);
  }

  /** No livelock: a run takes at most as many internal steps as its queries (42 each), task starts,
      resumptions and unmatched datagrams that main reports (one each) pay for. */
  lemma {:induction false} InternalStepsAreBounded(states: seq<State>, steps: seq<Action>, first: nat, n: nat)
    requires Run(states, steps, first) && n <= |steps|
    ensures 0 <= Energy(states[n]) <= Paid(states, steps, n) - InternalSteps(states, steps, n)
  {
    InitInv(states[0], first);
    StretchEnergy(states, steps, first, n);
  }

  /** No deadlock: while a query is pending there is an internal step to take. */
  lemma PendingMeansProgress(s: State, first: nat) returns (a: Action)
    requires Inv(s, first) && s.dns.queue != []
    ensures Enabled(s, a) && Defined(s, a) && Internal(s, a)
  {
    if s.stack == [] {
      var h := s.dns.queue[0];
      assert h in s.dns.queue;
      a := Main(TimedOut);
    } else if s.tasks[Top(s.stack)].pc.Free? {
      a := Leave;
    } else if s.tasks[Top(s.stack)].pc.Loop? {
      a := Turn(Short);
    } else {
      a := AfterLoop;
    }
    StepInv(s, a, first);
  }

  /** A stretch of internal steps, from any state. */
  ghost predicate InternalRun(states: seq<State>, steps: seq<Action>) {
    && |states| == |steps| + 1
    && forall i :: 0 <= i < |steps| ==>
         && Enabled(states[i], steps[i]) && Defined(states[i], steps[i]) && Internal(states[i], steps[i])
         && states[i + 1] == Apply(states[i], steps[i])
  }

  lemma PrependStep(s: State, a: Action, states: seq<State>, steps: seq<Action>)
    requires Enabled(s, a) && Defined(s, a) && Internal(s, a)
    requires InternalRun(states, steps) && states[0] == Apply(s, a)
    ensures InternalRun([s] + states, [a] + steps)
  {
    var ss, aa := [s] + states, [a] + steps;
    forall i | 0 <= i < |aa|
      ensures Enabled(ss[i], aa[i]) && Defined(ss[i], aa[i])
      ensures Internal(ss[i], aa[i]) && ss[i + 1] == Apply(ss[i], aa[i])
    {
      if i > 0 {
        assert ss[i] == states[i - 1] && aa[i] == steps[i - 1] && ss[i + 1] == states[i];
      }
    }
  }

  /** From every state, taking internal steps settles every pending query, in no more steps than the
      energy of the state. */
  lemma {:induction false} EverythingSettles(s: State, first: nat) returns (states: seq<State>, steps: seq<Action>)
    requires Inv(s, first)
    ensures InternalRun(states, steps) && states[0] == s && |steps| <= Energy(s)
    ensures states[|steps|].dns.queue == []
    decreases Energy(s)
  {
    EnergyNonNegative(s);
    if s.dns.queue == [] {
      return [s], [];
    }
    var a := PendingMeansProgress(s, first);
    StepInv(s, a, first);
    StepEnergy(s, a, first);
    EnergyNonNegative(Apply(s, a));
    var rest, more := EverythingSettles(Apply(s, a), first);
    PrependStep(s, a, rest, more);
    states, steps := [s] + rest, [a] + more;
  }

  /** No internal step can be taken. */
  ghost predicate AtRest(s: State) {
    forall a :: Enabled(s, a) && Defined(s, a) ==> !Internal(s, a)
  }

  /** Whatever the tasks, the clock and the network do: a stretch takes no more internal steps than its energy and
      what the environment brings in allow, and when it has come to rest every query is settled. */
  lemma EveryStretchSettles(states: seq<State>, steps: seq<Action>, first: nat)
    requires Stretch(states, steps) && Inv(states[0], first)
    ensures InternalSteps(states, steps, |steps|) <= Energy(states[0]) + Paid(states, steps, |steps|)
    ensures AtRest(states[|steps|]) ==> states[|steps|].dns.queue == []
  {
    StretchEnergy(states, steps, first, |steps|);
    if states[|steps|].dns.queue != [] {
      var a := PendingMeansProgress(states[|steps|], first);
    }
  }

  /** Every run of internal steps, however they are chosen, is no longer than the energy it begins with, and
      one that cannot be prolonged has settled every query. */
  lemma {:induction false} EveryInternalRunSettles(states: seq<State>, steps: seq<Action>, first: nat, n: nat)
    requires InternalRun(states, steps) && Inv(states[0], first) && n <= |steps|
    ensures Inv(states[n], first) && n + Energy(states[n]) <= Energy(states[0])
    ensures n <= Energy(states[0])
    ensures AtRest(states[n]) ==> states[n].dns.queue == []
  {
    hide Inv, Energy, Enabled, Defined, Apply;
    if n > 0 {
      EveryInternalRunSettles(states, steps, first, n - 1);
      StepInv(states[n - 1], steps[n - 1], first);
      StepEnergy(states[n - 1], steps[n - 1], first);
    }
    EnergyOfInv(states[n], first);
    if states[n].dns.queue != [] {
      var a := PendingMeansProgress(states[n], first);
    }
  }
}
