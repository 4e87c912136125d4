/** The pending-query queue of struct dns: src/dns/resolve.c without the task switching.

    A resolve is named by its position in `table`, the record of every resolve ever sent; that number
    stands for the struct dns_resolve pointer. `queue` is the TAILQ dns->resolves. */
module Queries {
  import opened Options
  import opened Clock
  import opened Sums

  const RETRIES: nat := 5                    // DNS_RESOLVE_RETRY
  const PATIENCE := Timeval(2, 0)            // dns_resolve_timeout
  const IDS: nat := 0x1_0000                 // the range of uint16_t

  /** struct dns_resolve. `owner` is the task whose dns_resolve() call holds the pointer. */
  datatype Resolve = Resolve(
    owner: nat,
    wait: Option<nat>,
    id: nat,
    timeout: Timeval,
    retry: nat,
    response: int)

  /** struct dns, with the record of every resolve sent and of every datagram put on the wire. */
  datatype Dns = Dns(ids: nat, queue: seq<nat>, table: seq<Resolve>, wire: seq<nat>)

  // ----- List operations -----

  /** Where TAILQ_REMOVE finds its element. */
  function Position(q: seq<nat>, h: nat): (i: nat)
    requires h in q
    ensures i < |q| && q[i] == h
    ensures forall j :: 0 <= j < i ==> q[j] != h
  {
    if q[0] == h then 0 else 1 + Position(q[1..], h)
  }

  function Unlink(q: seq<nat>, h: nat): seq<nat>
    requires h in q
  {
    var i := Position(q, h);
    q[..i] + q[i + 1..]
  }

  predicate Distinct(q: seq<nat>) {
    forall i, j :: 0 <= i < j < |q| ==> q[i] != q[j]
  }

  lemma UnlinkDistinct(q: seq<nat>, h: nat)
    requires h in q && Distinct(q)
    ensures Distinct(Unlink(q, h))
    ensures forall x :: x in Unlink(q, h) <==> x in q && x != h
  {
    var i, u := Position(q, h), Unlink(q, h);
    forall x | x in q && x != h
      ensures x in u
    {
      var k :| 0 <= k < |q| && q[k] == x;
      assert if k < i then u[k] == x else u[k - 1] == x;
    }
  }

  // ----- Operations on the queue -----

  predicate Wf(d: Dns) {
    forall i :: 0 <= i < |d.queue| ==> d.queue[i] < |d.table|
  }

  /** dns_resolve_query() */
  function Query(d: Dns, now: Timeval, owner: nat): Dns {
    var h := |d.table|;
    Dns((d.ids + 1) % IDS,
        d.queue + [h],
        d.table + [Resolve(owner, None, d.ids, FromTimeout(now, PATIENCE), 0, 0)],
        d.wire + [h])
  }

  /** dns_resolve_retry() */
  function Retry(d: Dns, now: Timeval, h: nat): Dns
    requires h in d.queue && h < |d.table|
  {
    var r := d.table[h];
    d.(queue := Unlink(d.queue, h) + [h],
       table := d.table[h := r.(timeout := FromTimeout(now, PATIENCE), retry := r.retry + 1)],
       wire := d.wire + [h])
  }

  /** Marking a resolve as answered (1) or timed out (-1) and taking it off the queue. */
  function Settle(d: Dns, h: nat, response: int): Dns
    requires h in d.queue && h < |d.table|
  {
    d.(queue := Unlink(d.queue, h), table := d.table[h := d.table[h].(response := response)])
  }

  function SetWait(d: Dns, h: nat, wait: Option<nat>): Dns
    requires h < |d.table|
  {
    d.(table := d.table[h := d.table[h].(wait := wait)])
  }

  /** The outcome of dns_resolve_response(): the settled resolve, or None for its return value 1. */
  datatype Outcome = Outcome(dns: Dns, next: Option<nat>)

  /** The deadline of `h` has passed: retransmit, or give up. */
  function Expire(d: Dns, now: Timeval, h: nat): Outcome
    requires h in d.queue && h < |d.table|
  {
    if d.table[h].retry < RETRIES then Outcome(Retry(d, now, h), None)
    else Outcome(Settle(d, h, -1), Some(h))
  }

  /** The TAILQ_FOREACH scan for a matching id. */
  function Match(d: Dns, id: nat, from: nat := 0): (m: Option<nat>)
    requires Wf(d) && from <= |d.queue|
    ensures m.None? <==> forall i :: from <= i < |d.queue| ==> d.table[d.queue[i]].id != id
    ensures m.Some? ==> m.value in d.queue && m.value < |d.table| && d.table[m.value].id == id
    decreases |d.queue| - from
  {
    if from == |d.queue| then None
    else if d.table[d.queue[from]].id == id then Some(d.queue[from])
    else Match(d, id, from + 1)
  }

  /** A datagram with a readable header arrived. */
  function Answer(d: Dns, id: nat): Outcome
    requires Wf(d)
  {
    match Match(d, id)
    case None => Outcome(d, None)
    case Some(m) => Outcome(Settle(d, m, 1), Some(m))
  }

  // ----- The invariant of the queue -----

  function CountIf(table: seq<Resolve>, response: int): int {
    Sum(seq(|table|, i requires 0 <= i < |table| => if table[i].response == response then 1 else 0))
  }

  /** A resolve is queued, once, exactly when it has no response yet. */
  ghost predicate QueueInv(d: Dns) {
    && Wf(d)
    && Distinct(d.queue)
    && (forall h :: 0 <= h < |d.table| ==> (h in d.queue <==> d.table[h].response == 0))
    && (forall h :: 0 <= h < |d.table| ==>
          -1 <= d.table[h].response <= 1 && d.table[h].retry <= RETRIES
          && (d.table[h].response == -1 ==> d.table[h].retry == RETRIES))
  }

  function Deadline(d: Dns, h: nat): int
    requires h < |d.table|
  {
    Micros(d.table[h].timeout)
  }

  /** The queue is in deadline order, and no deadline is further away than a fresh one. */
  ghost predicate Sorted(d: Dns, now: Timeval)
    requires Wf(d)
  {
    && (forall i, j :: 0 <= i < j < |d.queue| ==> Deadline(d, d.queue[i]) <= Deadline(d, d.queue[j]))
    && (forall i :: 0 <= i < |d.queue| ==>
          Normal(d.table[d.queue[i]].timeout)
          && Deadline(d, d.queue[i]) <= Micros(now) + Micros(PATIENCE))
  }

  /** Ids are handed out from a wrapping 16-bit counter that started at `first`. */
  ghost predicate Numbered(d: Dns, first: nat) {
    && d.ids == (first + |d.table|) % IDS
    && forall h :: 0 <= h < |d.table| ==> d.table[h].id == (first + h) % IDS
  }

  /** Every resolve has been transmitted once, and once more for each retry. */
  ghost predicate Transmitted(d: Dns) {
    && (forall h :: 0 <= h < |d.table| ==> multiset(d.wire)[h] == 1 + d.table[h].retry)
    && (forall h :: h >= |d.table| ==> multiset(d.wire)[h] == 0)
  }

  ghost predicate Conserved(d: Dns) {
    && CountIf(d.table, 0) == |d.queue|
    && CountIf(d.table, 0) + CountIf(d.table, 1) + CountIf(d.table, -1) == |d.table|
  }

  ghost predicate DnsInv(d: Dns, now: Timeval, first: nat) {
    && Normal(now)
    && QueueInv(d) && Sorted(d, now) && Numbered(d, first) && Transmitted(d) && Conserved(d)
  }

  // ----- Counting -----

  lemma CountUpdate(table: seq<Resolve>, h: nat, r: Resolve, response: int)
    requires h < |table|
    ensures CountIf(table[h := r], response) == CountIf(table, response)
      - (if table[h].response == response then 1 else 0) + (if r.response == response then 1 else 0)
  {
    var bit := (t: Resolve) => if t.response == response then 1 else 0;
    var s := seq(|table|, i requires 0 <= i < |table| => if table[i].response == response then 1 else 0);
    var t := table[h := r];
    assert s[h := bit(r)] == seq(|t|, i requires 0 <= i < |t| => if t[i].response == response then 1 else 0);
    SumUpdate(s, h, bit(r));
  }

  lemma CountAppend(table: seq<Resolve>, r: Resolve, response: int)
    ensures CountIf(table + [r], response) == CountIf(table, response) + (if r.response == response then 1 else 0)
  {
    var s := seq(|table|, i requires 0 <= i < |table| => if table[i].response == response then 1 else 0);
    var t := table + [r];
    var b := if r.response == response then 1 else 0;
    assert s + [b] == seq(|t|, i requires 0 <= i < |t| => if t[i].response == response then 1 else 0);
    SumAppend(s, [b]);
    assert [b][1..] == [];
  }

  // ----- Preservation -----

  lemma QueryQueue(d: Dns, now: Timeval, owner: nat)
    requires QueueInv(d)
    ensures QueueInv(Query(d, now, owner))
  {
    var d' := Query(d, now, owner);
    assert forall h :: h in d'.queue <==> h in d.queue || h == |d.table|;
  }

  lemma QueryNumbers(d: Dns, now: Timeval, owner: nat, first: nat)
    requires Numbered(d, first)
    ensures Numbered(Query(d, now, owner), first)
  {
  }

  lemma QueryTransmits(d: Dns, now: Timeval, owner: nat)
    requires Transmitted(d)
    ensures Transmitted(Query(d, now, owner))
  {
    var d' := Query(d, now, owner);
    var h0: nat := |d.table|;
    assert multiset(d'.wire) == multiset(d.wire) + multiset([h0]);
  }

  lemma QueryConserves(d: Dns, now: Timeval, owner: nat)
    requires Conserved(d)
    ensures Conserved(Query(d, now, owner))
  {
    var d' := Query(d, now, owner);
    var r := d'.table[|d.table|];
    CountAppend(d.table, r, 0);
    CountAppend(d.table, r, 1);
    CountAppend(d.table, r, -1);
    hide CountIf;
  }

  lemma QueryInv(d: Dns, now: Timeval, owner: nat, first: nat)
    requires DnsInv(d, now, first)
    ensures DnsInv(Query(d, now, owner), now, first)
  {
    QueryQueue(d, now, owner);
    QueryNumbers(d, now, owner, first);
    QueryTransmits(d, now, owner);
    QueryConserves(d, now, owner);
    hide Numbered, Transmitted, Conserved;
  }

  lemma RetryQueue(d: Dns, now: Timeval, h: nat)
    requires QueueInv(d) && h in d.queue && d.table[h].retry < RETRIES
    ensures QueueInv(Retry(d, now, h))
  {
    var u, d' := Unlink(d.queue, h), Retry(d, now, h);
    UnlinkDistinct(d.queue, h);
    assert d'.queue == u + [h];
    forall x | 0 <= x < |d.table|
      ensures x in d'.queue <==> d'.table[x].response == 0
    {
      assert x in d'.queue <==> x in u || x == h;
    }
  }

  lemma UnlinkSorted(d: Dns, now: Timeval, h: nat)
    requires Wf(d) && h in d.queue && Sorted(d, now)
    ensures Wf(d.(queue := Unlink(d.queue, h))) && Sorted(d.(queue := Unlink(d.queue, h)), now)
  {
    var k, u := Position(d.queue, h), Unlink(d.queue, h);
    assert forall i :: 0 <= i < |u| ==> u[i] == d.queue[if i < k then i else i + 1];
  }

  /** A resolve that gets the latest deadline may be put at the tail. */
  lemma AppendSorted(d: Dns, d': Dns, now: Timeval, h: nat)
    requires Wf(d) && Wf(d') && Sorted(d, now) && d'.queue == d.queue + [h]
    requires |d'.table| == |d.table| && forall i :: 0 <= i < |d.queue| ==> d'.table[d.queue[i]] == d.table[d.queue[i]]
    requires h < |d'.table| && Normal(d'.table[h].timeout) && Deadline(d', h) == Micros(now) + Micros(PATIENCE)
    ensures Sorted(d', now)
  {
    hide Micros;
    var n := |d.queue|;
    assert d'.queue[n] == h && forall i :: 0 <= i < n ==> d'.queue[i] == d.queue[i];
  }

  lemma RetrySorted(d: Dns, now: Timeval, h: nat)
    requires Normal(now) && Wf(d) && Distinct(d.queue) && h in d.queue && Sorted(d, now)
    ensures Wf(Retry(d, now, h)) && Sorted(Retry(d, now, h), now)
  {
    UnlinkSorted(d, now, h);
    UnlinkDistinct(d.queue, h);
    var u, d' := Unlink(d.queue, h), Retry(d, now, h);
    assert d'.queue == u + [h] && d'.table == d.table[h := d'.table[h]];
    assert Normal(d'.table[h].timeout) && Deadline(d', h) == Micros(now) + Micros(PATIENCE);
    hide Unlink, Distinct, Sorted, Deadline, Retry, FromTimeout, Micros;
    forall i | 0 <= i < |u|
      ensures u[i] < |d.table| && d'.table[u[i]] == d.table[u[i]]
    {
      assert u[i] in u;
    }
    AppendSorted(d.(queue := u), d', now, h);
  }

  lemma RetryAccounts(d: Dns, now: Timeval, h: nat, first: nat)
    requires Wf(d) && h in d.queue
    requires Numbered(d, first) && Transmitted(d) && Conserved(d)
    ensures var d' := Retry(d, now, h); Numbered(d', first) && Transmitted(d') && Conserved(d')
  {
    var d' := Retry(d, now, h);
    assert multiset(d'.wire) == multiset(d.wire) + multiset([h]);
    CountUpdate(d.table, h, d'.table[h], 0);
    CountUpdate(d.table, h, d'.table[h], 1);
    CountUpdate(d.table, h, d'.table[h], -1);
  }

  lemma RetryInv(d: Dns, now: Timeval, h: nat, first: nat)
    requires DnsInv(d, now, first) && h in d.queue && d.table[h].retry < RETRIES
    ensures DnsInv(Retry(d, now, h), now, first)
  {
    RetryQueue(d, now, h);
    RetrySorted(d, now, h);
    RetryAccounts(d, now, h, first);
  }

  lemma SettleAccounts(d: Dns, h: nat, response: int, first: nat)
    requires QueueInv(d) && h in d.queue && (response == 1 || response == -1)
    requires Numbered(d, first) && Transmitted(d) && Conserved(d)
    ensures var d' := Settle(d, h, response); Numbered(d', first) && Transmitted(d') && Conserved(d')
  {
    var d' := Settle(d, h, response);
    CountUpdate(d.table, h, d'.table[h], 0);
    CountUpdate(d.table, h, d'.table[h], 1);
    CountUpdate(d.table, h, d'.table[h], -1);
  }

  lemma SettleQueue(d: Dns, now: Timeval, h: nat, response: int)
    requires QueueInv(d) && Sorted(d, now) && h in d.queue
    requires response == 1 || (response == -1 && d.table[h].retry == RETRIES)
    ensures QueueInv(Settle(d, h, response)) && Sorted(Settle(d, h, response), now)
  {
    UnlinkDistinct(d.queue, h);
    SettleSorted(d, now, h, response);
    hide Sorted, Unlink;
  }

  lemma SettleSorted(d: Dns, now: Timeval, h: nat, response: int)
    requires QueueInv(d) && Sorted(d, now) && h in d.queue
    ensures Wf(Settle(d, h, response)) && Sorted(Settle(d, h, response), now)
  {
    UnlinkSorted(d, now, h);
    UnlinkDistinct(d.queue, h);
    hide Unlink, Distinct;
    var u := Unlink(d.queue, h);
    assert forall i :: 0 <= i < |u| ==> u[i] in u;
  }

  lemma SettleInv(d: Dns, now: Timeval, h: nat, response: int, first: nat)
    requires DnsInv(d, now, first) && h in d.queue
    requires response == 1 || (response == -1 && d.table[h].retry == RETRIES)
    ensures DnsInv(Settle(d, h, response), now, first)
  {
    SettleQueue(d, now, h, response);
    SettleAccounts(d, h, response, first);
  }

  lemma SetWaitInv(d: Dns, now: Timeval, h: nat, wait: Option<nat>, first: nat)
    requires DnsInv(d, now, first) && h < |d.table|
    ensures DnsInv(SetWait(d, h, wait), now, first)
  {
    SetWaitOrder(d, now, h, wait);
    SetWaitAccounts(d, h, wait, first);
    hide QueueInv, Sorted, Numbered, Transmitted, Conserved;
  }

  lemma SetWaitOrder(d: Dns, now: Timeval, h: nat, wait: Option<nat>)
    requires QueueInv(d) && Sorted(d, now) && h < |d.table|
    ensures QueueInv(SetWait(d, h, wait)) && Sorted(SetWait(d, h, wait), now)
  {
  }

  lemma SetWaitAccounts(d: Dns, h: nat, wait: Option<nat>, first: nat)
    requires h < |d.table| && Numbered(d, first) && Transmitted(d) && Conserved(d)
    ensures var d' := SetWait(d, h, wait); Numbered(d', first) && Transmitted(d') && Conserved(d')
  {
    var d' := SetWait(d, h, wait);
    CountUpdate(d.table, h, d'.table[h], 0);
    CountUpdate(d.table, h, d'.table[h], 1);
    CountUpdate(d.table, h, d'.table[h], -1);
  }

  // ----- What the invariant means -----

  /** The first resolve in the queue has the earliest deadline of all pending resolves. */
  lemma HeadIsEarliest(d: Dns, now: Timeval, first: nat, h: nat)
    requires DnsInv(d, now, first) && h < |d.table| && d.table[h].response == 0
    ensures d.queue != [] && Deadline(d, d.queue[0]) <= Deadline(d, h)
  {
    var i :| 0 <= i < |d.queue| && d.queue[i] == h;
  }

  /** Two resolves carry the same id exactly when a multiple of 65536 allocations lies between them. */
  lemma SameIdIff(d: Dns, first: nat, a: nat, b: nat)
    requires Numbered(d, first) && a <= b < |d.table|
    ensures d.table[a].id == d.table[b].id <==> (b - a) % IDS == 0
  {
    assert d.table[a].id == (first + a) % IDS && d.table[b].id == (first + b) % IDS;
    var x, y := first + a, first + b;
    assert y - x == IDS * (y / IDS - x / IDS) + (y % IDS - x % IDS);
  }

  /** Among the last 65536 resolves no two carry the same id. */
  lemma RecentIdsDiffer(d: Dns, first: nat, a: nat, b: nat)
    requires Numbered(d, first) && a <= b < |d.table| && b - a < IDS && d.table[a].id == d.table[b].id
    ensures a == b
  {
    SameIdIff(d, first, a, b);
    hide Numbered;
  }

  /** While no pending resolve has been overtaken by 65536 later allocations, a datagram's id matches
      at most one pending resolve: the scan's answer does not depend on the order of the queue. */
  lemma AtMostOneMatch(d: Dns, now: Timeval, first: nat, id: nat, h: nat)
    requires DnsInv(d, now, first)
    requires forall i :: 0 <= i < |d.queue| ==> |d.table| - d.queue[i] <= IDS
    requires h in d.queue && d.table[h].id == id
    ensures Match(d, id) == Some(h)
  {
    hide Sorted, Numbered, Transmitted, Conserved;
    var m := Match(d, id).value;
    assert m in d.queue;
    RecentIdsDiffer(d, first, if m < h then m else h, if m < h then h else m);
  }
}
