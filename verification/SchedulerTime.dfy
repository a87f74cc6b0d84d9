/**
 What the strides of lib/rob/schedulers/v3 measure. The time for which a user holds workers is
 defined here from the events of a run: from the one that gives the user a worker to the one by
 which it releases it. Strides are proved to grow by exactly that time and by what queueing adds.
 */
module SchedulerTime {
  import opened Collections
  import opened SchedulerSpec
  import opened SchedulerFairness

  // ---- held time -------------------------------------------------------------------------

  /** The hold that the event ends, if it started at `since`. */
  function Ended(s: State, e: Event, v: UserId, since: int): int {
    if e.Release? && e.user == v && Busy(s, v) then e.now - since else 0
  }

  /** When the hold that v has after the event started. */
  ghost function Started(s: State, e: Event, v: UserId, since: int): int
    requires Enabled(s, e)
  {
    if !Busy(s, v) && Busy(Next(s, e), v) then Next(s, e).clock else since
  }

  /** The time of all holds of v that end in the run; the first may have started before, at `since`. */
  ghost function HeldTime(s: State, es: seq<Event>, v: UserId, since: int): int
    requires Run(s, es)
    decreases |es|
  {
    if es == [] then 0
    else Ended(s, es[0], v, since) + HeldTime(Next(s, es[0]), es[1..], v, Started(s, es[0], v, since))
  }

  /** By the event v is queued. */
  predicate Queues(s: State, e: Event, v: UserId) {
    e.Acquire? && e.user == v && v in s.users && s.queue == [] && !s.closed
  }

  /** How far the event moves v by queueing it: up to the floor, and on to a free slot. */
  ghost function Moved(s: State, e: Event, v: UserId): int
    requires Enabled(s, e)
  {
    if Queues(s, e, v) && v in Next(s, e).users then Next(s, e).users[v].stride - s.users[v].stride else 0
  }

  ghost function Moves(s: State, es: seq<Event>, v: UserId): int
    requires Run(s, es)
    decreases |es|
  {
    if es == [] then 0 else Moved(s, es[0], v) + Moves(Next(s, es[0]), es[1..], v)
  }

  /** If v has a worker, it has had it since then. */
  ghost predicate Since(s: State, v: UserId, since: int) {
    forall w | w in s.workers && s.workers[w].user == Some(v) :: s.workers[w].since == since
  }

  // ---- one step --------------------------------------------------------------------------

  lemma HandOutStrides(s: State, w: WorkerId, v: UserId)
    requires w in s.workers && v in s.users
    ensures var t := HandOut(s, w, s.clock); v in t.users && t.users[v].stride == s.users[v].stride
  {
    hide MinKey;
  }

  lemma GiveBackCharges(s: State, w: WorkerId, v: UserId)
    requires v in s.users
    ensures var t := GiveBack(s, w, s.clock);
      v in t.users && t.users[v].stride == s.users[v].stride +
        if !s.closed && w in s.workers && s.workers[w].user == Some(v) then s.clock - s.workers[w].since else 0
  {
    hide HandOut;
    if !s.closed && w in s.workers {
      HandOutStrides(Charge(s, w, s.clock), w, v);
    }
  }

  lemma GiveBackWorkers(s: State, w: WorkerId, x: WorkerId)
    ensures var t := GiveBack(s, w, s.clock);
      && t.clock == s.clock && t.clients == s.clients
      && (x in t.workers && t.workers[x].user.Some? ==>
            || (x in s.workers && t.workers[x] == s.workers[x])
            || (&& t.workers[x].since == s.clock && !s.closed && w in s.workers && s.schedule != map[]
                && t.workers[x].user == Some(s.schedule[MinKey(s.schedule)].user)))
  {
    hide MinKey;
    if !s.closed && w in s.workers {
      var c := Charge(s, w, s.clock);
      assert x != w ==> (x in c.workers <==> x in s.workers) && (x in s.workers ==> c.workers[x] == s.workers[x]);
      assert c.schedule == s.schedule && c.clients == s.clients;
      hide Charge;
    }
  }

  lemma NotBusyJob(s: State, k: int)
    requires Inv(s) && k in s.schedule
    ensures !Busy(s, s.schedule[k].user)
  {
  }

  /** A worker that is with v after the event either was before, unchanged, or was handed to v just now. */
  lemma WorkersStep(s: State, e: Event, v: UserId, x: WorkerId)
    requires Inv(s) && Allowed(s, e) && x in Next(s, e).workers && Next(s, e).workers[x].user == Some(v)
    ensures
      || (x in s.workers && Next(s, e).workers[x] == s.workers[x])
      || (Next(s, e).workers[x].since == Next(s, e).clock && !Busy(s, v) && (s.queue != [] || Granted(s, e) == Some(v)))
  {
    if s.schedule != map[] {
      NotBusyJob(s, MinKey(s.schedule));
    }
    if e.AddWorker? || e.Release? || e.Timeout? {
      hide Inv, Next, Busy;
      TimedWorkers(s, e, v, x);
    } else {
      hide Inv, MinKey, Start, CloseChans;
    }
  }

  lemma TimedWorkers(s: State, e: Event, v: UserId, x: WorkerId)
    requires Enabled(s, e) && (e.AddWorker? || e.Release? || e.Timeout?)
    requires x in Next(s, e).workers && Next(s, e).workers[x].user == Some(v)
    ensures
      || (x in s.workers && Next(s, e).workers[x] == s.workers[x])
      || (Next(s, e).workers[x].since == Next(s, e).clock && Granted(s, e) == Some(v))
  {
    hide MinKey, GiveBack, ReleaseWorker;
    match e
    case AddWorker(w, now) =>
      if !s.closed {
        GiveBackWorkers(At(s, now).(workers := s.workers[w := Worker(None, now)]), w, x);
        AddIsGiveBack(At(s, now), w);
      }
    case Release(u, now) => GiveBackWorkers(Rested(At(s, now), u), s.clients[u].worker, x);
    case Timeout(u, now) =>
      var r, c := At(s, now), s.clients[u].ready;
      if s.chans[c].Full? {
        GiveBackWorkers(r.(clients := r.clients[u := Resting], chans := r.chans[c := Empty], cc := r.cc + [c]), s.chans[c].worker, x);
      }
  }

  lemma HolderBusy(s: State, v: UserId, w: WorkerId)
    requires Inv(s) && w in s.workers && s.workers[w].user == Some(v)
    ensures Busy(s, v)
  {
  }

  lemma SinceStep(s: State, e: Event, v: UserId, since: int)
    requires Inv(s) && Allowed(s, e) && Since(s, v, since)
    ensures Since(Next(s, e), v, Started(s, e, v, since))
  {
    var t := Next(s, e);
    NextKeeps(s, e);
    hide Inv, Next, Enabled, OwnSlot;
    forall w | w in t.workers && t.workers[w].user == Some(v)
      ensures t.workers[w].since == Started(s, e, v, since)
    {
      WorkersStep(s, e, v, w);
      HolderBusy(t, v, w);
      if w in s.workers && t.workers[w] == s.workers[w] {
        HolderBusy(s, v, w);
      }
    }
  }

  lemma ReleaseStride(s: State, u: UserId, now: int, v: UserId, since: int)
    requires Inv(s) && Enabled(s, Release(u, now)) && Since(s, v, since) && v in s.users
    ensures var t := Next(s, Release(u, now));
      v in t.users && t.users[v].stride == s.users[v].stride + Ended(s, Release(u, now), v, since)
  {
    var w := s.clients[u].worker;
    assert Has(s, u, w);
    assert s.closed ==> w !in s.workers;
    hide GiveBack, Inv;
    GiveBackCharges(Rested(At(s, now), u), w, v);
  }

  lemma TimeoutStride(s: State, u: UserId, now: int, v: UserId)
    requires Inv(s) && Enabled(s, Timeout(u, now)) && v in s.users
    ensures var t := Next(s, Timeout(u, now)); v in t.users && t.users[v].stride == s.users[v].stride
  {
    var r, c := At(s, now), s.clients[u].ready;
    if s.chans[c].Full? && u !in s.users {
      assert Has(s, u, s.chans[c].worker);
      hide GiveBack;
      GiveBackCharges(r.(clients := r.clients[u := Resting], chans := r.chans[c := Empty], cc := r.cc + [c]), s.chans[c].worker, v);
    }
  }

  /** Only Release charges, and by the length of the hold; only queueing moves a user otherwise. */
  lemma StrideStep(s: State, e: Event, v: UserId, since: int)
    requires Inv(s) && Allowed(s, e) && Since(s, v, since) && v in s.users && v in Next(s, e).users
    ensures Next(s, e).users[v].stride == s.users[v].stride + Ended(s, e, v, since) + Moved(s, e, v)
    ensures Moved(s, e, v) >= 0
  {
    match e
    case AddWorker(w, now) =>
      hide Inv, GiveBack, ReleaseWorker;
      if !s.closed {
        GiveBackCharges(At(s, now).(workers := s.workers[w := Worker(None, now)]), w, v);
        AddIsGiveBack(At(s, now), w);
      }
    case Release(u, now) =>
      hide Inv, Next;
      ReleaseStride(s, u, now, v, since);
    case Timeout(u, now) =>
      hide Inv, Next;
      TimeoutStride(s, u, now, v);
    case _ =>
      hide Inv, Next;
      OtherStride(s, e, v);
  }

  lemma OtherStride(s: State, e: Event, v: UserId)
    requires Inv(s) && Enabled(s, e) && v in s.users && v in Next(s, e).users && !e.AddWorker? && !e.Release? && !e.Timeout?
    ensures Queues(s, e, v) || Next(s, e).users[v].stride == s.users[v].stride
    ensures s.users[v].stride <= Next(s, e).users[v].stride
  {
    hide Start, CloseChans, WorkersPlaced, WaitersServed;
  }

  // ---- whole runs ------------------------------------------------------------------------

  lemma TimedClients(s: State, e: Event)
    requires Enabled(s, e) && (e.AddWorker? || e.Release? || e.Timeout?)
    ensures Next(s, e).clients.Keys == s.clients.Keys
  {
    hide MinKey, GiveBack, ReleaseWorker;
    match e
    case AddWorker(w, now) =>
      if !s.closed {
        GiveBackWorkers(At(s, now).(workers := s.workers[w := Worker(None, now)]), w, w);
        AddIsGiveBack(At(s, now), w);
      }
    case Release(u, now) => GiveBackWorkers(Rested(At(s, now), u), s.clients[u].worker, 0);
    case Timeout(u, now) =>
      var r, c := At(s, now), s.clients[u].ready;
      if s.chans[c].Full? {
        GiveBackWorkers(r.(clients := r.clients[u := Resting], chans := r.chans[c := Empty], cc := r.cc + [c]), s.chans[c].worker, 0);
      }
  }

  /** A user that is gone does not come back. */
  lemma GoneStays(s: State, e: Event, v: UserId)
    requires Allowed(s, e) && v in s.clients
    ensures v in Next(s, e).clients && (v !in s.users ==> v !in Next(s, e).users)
  {
    if e.AddWorker? || e.Release? || e.Timeout? {
      hide Next;
      UsersOfRelease(s, e);
      TimedClients(s, e);
    } else {
      hide Start, CloseChans;
    }
  }

  lemma {:induction false} GoneForGood(s: State, es: seq<Event>, v: UserId)
    requires Inv(s) && Run(s, es) && v in s.clients && v !in s.users
    ensures v !in After(s, es).users
    decreases |es|
  {
    hide Inv, Next, Enabled;
    if es != [] {
      NextKeeps(s, es[0]);
      GoneStays(s, es[0], v);
      GoneForGood(Next(s, es[0]), es[1..], v);
    }
  }

  /** A user that is there after a run was there after its first event. */
  lemma ThereAll(s: State, es: seq<Event>, v: UserId)
    requires Inv(s) && Run(s, es) && es != [] && v in s.users && v in After(s, es).users
    ensures v in Next(s, es[0]).users
  {
    GoneStays(s, es[0], v);
    NextKeeps(s, es[0]);
    hide Inv, Next, Enabled;
    if v !in Next(s, es[0]).users {
      GoneForGood(Next(s, es[0]), es[1..], v);
    }
  }

  /**
   Over any run, the stride of a user grows by exactly the time for which it held workers and by
   what queueing added, which is never negative.
   */
  lemma {:induction false} StrideIsHeldTime(s: State, es: seq<Event>, v: UserId, since: int)
    requires Inv(s) && Run(s, es) && Since(s, v, since) && v in s.users && v in After(s, es).users
    ensures After(s, es).users[v].stride == s.users[v].stride + HeldTime(s, es, v, since) + Moves(s, es, v)
    ensures Moves(s, es, v) >= 0
    decreases |es|
  {
    if es != [] {
      ThereAll(s, es, v);
      NextKeeps(s, es[0]);
      SinceStep(s, es[0], v, since);
      StrideStep(s, es[0], v, since);
      hide Inv, Next, Enabled, Since, Ended, Started, Moved;
      StrideIsHeldTime(Next(s, es[0]), es[1..], v, Started(s, es[0], v, since));
    }
  }

  /** v is never queued in the run. */
  ghost predicate NeverQueues(s: State, es: seq<Event>, v: UserId)
    requires Run(s, es)
    decreases |es|
  {
    es == [] || (!Queues(s, es[0], v) && NeverQueues(Next(s, es[0]), es[1..], v))
  }

  lemma {:induction false} NoMoves(s: State, es: seq<Event>, v: UserId)
    requires Run(s, es) && NeverQueues(s, es, v)
    ensures Moves(s, es, v) == 0
    decreases |es|
  {
    hide Next, Enabled, Queues;
    if es != [] {
      NoMoves(Next(s, es[0]), es[1..], v);
    }
  }

  /** A user that found an idle worker each time is charged its held time to the tick. */
  lemma UnqueuedCharge(s: State, es: seq<Event>, v: UserId, since: int)
    requires Inv(s) && Run(s, es) && Since(s, v, since) && v in s.users && v in After(s, es).users && NeverQueues(s, es, v)
    ensures After(s, es).users[v].stride == s.users[v].stride + HeldTime(s, es, v, since)
  {
    hide Inv, Run, After, Since, HeldTime, Moves, NeverQueues;
    StrideIsHeldTime(s, es, v, since);
    NoMoves(s, es, v);
  }

  /** Queueing moves a user to the floor if it was below, and then past at most every queued job. */
  lemma MovedLittle(s: State, e: Event, v: UserId)
    requires Inv(s) && Allowed(s, e) && Queues(s, e, v)
    ensures var from := if s.users[v].stride < s.floor then s.floor else s.users[v].stride;
      from - s.users[v].stride <= Moved(s, e, v) <= from - s.users[v].stride + |s.schedule|
    ensures Moved(s, e, v) == 0 <==> s.floor <= s.users[v].stride && s.users[v].stride !in s.schedule
  {
    var from := if s.users[v].stride < s.floor then s.floor else s.users[v].stride;
    FreeNear(s.schedule, from);
  }

  lemma {:induction false} FreeNear(m: map<int, Job>, k: int)
    ensures FirstFree(m, k) <= k + |m|
  {
    var r := FirstFree(m, k);
    assert forall x | k <= x < r :: x in m.Keys;
    IntervalSize(k, r, m.Keys);
  }

  lemma {:induction false} IntervalSize(a: int, b: int, ks: set<int>)
    requires a <= b && forall x | a <= x < b :: x in ks
    ensures b - a <= |ks|
    decreases b - a
  {
    if a < b {
      IntervalSize(a, b - 1, ks - {b - 1});
    }
  }

  // ---- sharing by time -------------------------------------------------------------------

  /**
   Whenever a worker goes to user a while user b is queued, a has not held workers for longer than b,
   but for where the two started and for what b was moved on when it was queued.
   */
  lemma FairShare(s: State, es: seq<Event>, e: Event, a: UserId, b: UserId, sinceA: int, sinceB: int)
    requires Inv(s) && Run(s, es) && Allowed(After(s, es), e) && Since(s, a, sinceA) && Since(s, b, sinceB)
    requires a in s.users && b in s.users && b in After(s, es).users && After(s, es).users[b].scheduled
    requires Granted(After(s, es), e) == Some(a)
    ensures s.users[a].stride + HeldTime(s, es, a, sinceA) + Moves(s, es, a)
         <= s.users[b].stride + HeldTime(s, es, b, sinceB) + Moves(s, es, b)
    ensures Moves(s, es, a) >= 0
  {
    var t := After(s, es);
    RunKeeps(s, es);
    GrantedJob(t, e);
    assert t.users[b].stride in t.schedule;
    hide Inv, Run, After, Since, HeldTime, Moves, Granted, Enabled;
    StrideIsHeldTime(s, es, a, sinceA);
    StrideIsHeldTime(s, es, b, sinceB);
  }

  /** No hold of v that ends in the run lasts longer than that. */
  ghost predicate HoldsUpTo(s: State, es: seq<Event>, v: UserId, since: int, longest: nat)
    requires Run(s, es)
    decreases |es|
  {
    es == [] ||
    (&& Ended(s, es[0], v, since) <= longest
     && HoldsUpTo(Next(s, es[0]), es[1..], v, Started(s, es[0], v, since), longest))
  }

  /** t stays queued at k through the whole run. */
  ghost predicate StaysQueued(s: State, es: seq<Event>, t: UserId, k: int)
    requires Run(s, es)
    decreases |es|
  {
    Queued(s, t, k) && (es == [] || StaysQueued(Next(s, es[0]), es[1..], t, k))
  }

  /** What v may still hold while t waits at k. */
  function Allowance(s: State, v: UserId, k: int, longest: nat): nat
    requires v in s.users
  {
    var room := if s.users[v].stride < k then k - s.users[v].stride else 0;
    if Busy(s, v) || room > 0 then room + longest else 0
  }

  /** Where no worker is idle, only a grant gives v one. */
  lemma BusyByGrant(s: State, e: Event, v: UserId)
    requires Inv(s) && Allowed(s, e) && s.queue == [] && !Busy(s, v) && Busy(Next(s, e), v)
    ensures Granted(s, e) == Some(v)
  {
    NextKeeps(s, e);
    hide Inv, Next, Granted, Allowed;
    var x := BusyHolder(Next(s, e), v);
    WorkersStep(s, e, v, x);
    hide Busy;
    if x in s.workers && Next(s, e).workers[x] == s.workers[x] {
      HolderBusy(s, v, x);
    }
  }

  lemma BusyBy(s: State, e: Event, t: UserId, k: int, v: UserId)
    requires Inv(s) && Allowed(s, e) && Queued(s, t, k) && v in s.users && v != t && !Busy(s, v) && Busy(Next(s, e), v)
    ensures s.users[v].stride < k
  {
    hide Inv, Next, Granted, OwnSlot, Busy;
    QueuedSchedule(s, t, k);
    QueueEmpty(s);
    BusyByGrant(s, e, v);
    hide Enabled;
    GrantedJob(s, e);
  }

  lemma BusyHolder(s: State, v: UserId) returns (w: WorkerId)
    requires Inv(s) && Busy(s, v)
    ensures w in s.workers && s.workers[w].user == Some(v)
  {
    w := if s.clients[v].Holding? then s.clients[v].worker else s.chans[s.clients[v].ready].worker;
    assert Has(s, v, w);
  }

  lemma AllowanceStep(s: State, e: Event, t: UserId, k: int, v: UserId, since: int, longest: nat)
    requires Inv(s) && Allowed(s, e) && Queued(s, t, k) && v != t && v in s.users && v in Next(s, e).users
    requires Since(s, v, since) && Ended(s, e, v, since) <= longest
    ensures Ended(s, e, v, since) + Allowance(Next(s, e), v, k, longest) <= Allowance(s, v, k, longest)
  {
    StrideStep(s, e, v, since);
    EndedIdle(s, e, v, since);
    hide Next, Enabled, Since, Moved, Inv;
    if !Busy(s, v) && Busy(Next(s, e), v) {
      BusyBy(s, e, t, k, v);
    }
    hide Busy, Ended;
  }

  /** A hold that ends was there and is over, and it did not last less than no time. */
  lemma EndedIdle(s: State, e: Event, v: UserId, since: int)
    requires Inv(s) && Allowed(s, e) && Since(s, v, since)
    ensures Ended(s, e, v, since) != 0 ==> Busy(s, v) && !Busy(Next(s, e), v)
    ensures Ended(s, e, v, since) >= 0
  {
    if e.Release? && e.user == v && Busy(s, v) {
      var w := s.clients[v].worker;
      assert Has(s, v, w) && s.workers[w].since <= s.clock;
      GiveBackWorkers(Rested(At(s, e.now), v), w, w);
    }
  }

  /**
   While t waits at key k, another user holds workers for no longer than it is behind k, and one hold:
   however many turns it takes, they are charged by their length.
   */
  lemma {:induction false} BypassTime(s: State, es: seq<Event>, t: UserId, k: int, v: UserId, since: int, longest: nat)
    requires Inv(s) && Run(s, es) && StaysQueued(s, es, t, k) && v != t && v in s.users && v in After(s, es).users
    requires Since(s, v, since) && HoldsUpTo(s, es, v, since, longest)
    ensures HeldTime(s, es, v, since) <= Allowance(s, v, k, longest)
    decreases |es|
  {
    if es != [] {
      var e := es[0];
      ThereAll(s, es, v);
      NextKeeps(s, e);
      hide Inv, Next, Enabled, Since, Started, Ended, Allowance, Busy, Queued;
      SinceStep(s, e, v, since);
      AllowanceStep(s, e, t, k, v, since, longest);
      BypassTime(Next(s, e), es[1..], t, k, v, Started(s, e, v, since), longest);
    }
  }

  /** Whenever a gets a worker in the run, b is queued. */
  ghost predicate Contends(s: State, es: seq<Event>, a: UserId, b: UserId)
    requires Run(s, es)
    decreases |es|
  {
    es == [] ||
    (&& (!Busy(s, a) && Busy(Next(s, es[0]), a) ==> b in s.users && s.users[b].scheduled)
     && Contends(Next(s, es[0]), es[1..], a, b))
  }

  /** How far a may get ahead of b in held time. */
  function Lead(s: State, a: UserId, b: UserId, longest: nat): nat
    requires a in s.users && b in s.users
  {
    var d := s.users[b].stride - s.users[a].stride;
    if Busy(s, a) then longest + (if d > 0 then d else 0) else if d + longest > 0 then d + longest else 0
  }

  lemma ServedNotAhead(s: State, e: Event, a: UserId, b: UserId)
    requires Inv(s) && Allowed(s, e) && !Busy(s, a) && Busy(Next(s, e), a) && b in s.users && s.users[b].scheduled
    ensures a in s.users && s.users[a].stride <= s.users[b].stride
  {
    var k := s.users[b].stride;
    hide Inv, Next, Granted, OwnSlot, Busy;
    QueuedSchedule(s, b, k);
    QueueEmpty(s);
    BusyByGrant(s, e, a);
    hide Enabled;
    GrantedJob(s, e);
  }

  lemma LeadStep(s: State, e: Event, a: UserId, b: UserId, sinceA: int, sinceB: int, longest: nat)
    requires Inv(s) && Allowed(s, e) && a in s.users && b in s.users && a in Next(s, e).users && b in Next(s, e).users
    requires Since(s, a, sinceA) && Since(s, b, sinceB) && Ended(s, e, a, sinceA) <= longest
    requires !Busy(s, a) && Busy(Next(s, e), a) ==> s.users[b].scheduled
    ensures Ended(s, e, a, sinceA) + Lead(Next(s, e), a, b, longest)
         <= Lead(s, a, b, longest) + Ended(s, e, b, sinceB) + Moved(s, e, b)
  {
    StrideStep(s, e, a, sinceA);
    StrideStep(s, e, b, sinceB);
    EndedIdle(s, e, a, sinceA);
    EndedIdle(s, e, b, sinceB);
    hide Next, Enabled, Since, Moved, Inv, Ended;
    if !Busy(s, a) && Busy(Next(s, e), a) {
      ServedNotAhead(s, e, a, b);
    }
    hide Busy;
  }

  /**
   Equal shares: of two users that contend, the one is ahead of the other in held time by no more
   than where they started and its longest hold, and by what queueing moved the other.
   */
  lemma {:induction false} EqualShare(s: State, es: seq<Event>, a: UserId, b: UserId, sinceA: int, sinceB: int, longest: nat)
    requires Inv(s) && Run(s, es) && a in s.users && b in s.users && a in After(s, es).users && b in After(s, es).users
    requires Since(s, a, sinceA) && Since(s, b, sinceB)
    requires HoldsUpTo(s, es, a, sinceA, longest) && Contends(s, es, a, b)
    ensures HeldTime(s, es, a, sinceA) <= HeldTime(s, es, b, sinceB) + Moves(s, es, b) + Lead(s, a, b, longest)
    decreases |es|
  {
    if es != [] {
      var e := es[0];
      ThereAll(s, es, a);
      ThereAll(s, es, b);
      NextKeeps(s, e);
      hide Inv, Next, Enabled, Since, Started, Ended, Moved, Lead, Busy;
      SinceStep(s, e, a, sinceA);
      SinceStep(s, e, b, sinceB);
      LeadStep(s, e, a, b, sinceA, sinceB, longest);
      EqualShare(Next(s, e), es[1..], a, b, Started(s, e, a, sinceA), Started(s, e, b, sinceB), longest);
    }
  }

  // ---- the floor -------------------------------------------------------------------------

  lemma GrantRaisesFloor(s: State, e: Event)
    requires Inv(s) && Allowed(s, e) && Granted(s, e).Some?
    ensures Granted(s, e).value in s.users && Next(s, e).floor == s.users[Granted(s, e).value].stride
  {
  }

  /**
   After a worker was handed out at a key, nobody is queued below that key in any continuation,
   however long it rested.
   */
  lemma NobodyQueuedBelow(s: State, e: Event, es: seq<Event>)
    requires Inv(s) && Allowed(s, e) && Granted(s, e).Some? && Run(Next(s, e), es)
    ensures Granted(s, e).value in s.users
    ensures forall x | x in After(Next(s, e), es).schedule :: s.users[Granted(s, e).value].stride <= x
  {
    GrantRaisesFloor(s, e);
    NextKeeps(s, e);
    hide Next, Granted, Enabled, Run, After;
    RunKeeps(Next(s, e), es);
  }
}
