/**
 Workers and users of lib/rob/schedulers/v3 over their whole lives: what was added is there until it
 is deleted, what was deleted is never handed out or queued again, and whoever waits is woken.
 */
module SchedulerLife {
  import opened Collections
  import opened SchedulerSpec
  import opened SchedulerFairness
  import opened SchedulerTime

  // ---- workers ---------------------------------------------------------------------------

  lemma GiveBackKeepsWorkers(s: State, w: WorkerId, now: int)
    ensures GiveBack(s, w, now).workers.Keys == s.workers.Keys
  {
    if !s.closed && w in s.workers {
      var c := Charge(s, w, now);
      assert c.workers.Keys == s.workers.Keys;
      hide Charge, MinKey;
      assert HandOut(c, w, now).workers.Keys == c.workers.Keys;
    }
  }

  /** Which workers there are after an event. */
  lemma WorkersOf(s: State, e: Event, w: WorkerId)
    requires Inv(s) && Allowed(s, e)
    ensures !s.closed ==>
      (w in Next(s, e).workers <==> e != DeleteWorker(w) && !e.Close? && (w in s.workers || (e.AddWorker? && e.worker == w)))
  {
    hide GiveBack, ReleaseWorker, Start, CloseChans;
    match e
    case AddWorker(x, now) =>
      if !s.closed {
        GiveBackKeepsWorkers(At(s, now).(workers := s.workers[x := Worker(None, now)]), x, now);
        AddIsGiveBack(At(s, now), x);
      }
    case Release(u, now) => GiveBackKeepsWorkers(Rested(At(s, now), u), s.clients[u].worker, now);
    case Timeout(u, now) =>
      var r, c := At(s, now), s.clients[u].ready;
      if s.chans[c].Full? {
        GiveBackKeepsWorkers(r.(clients := r.clients[u := Resting], chans := r.chans[c := Empty], cc := r.cc + [c]), s.chans[c].worker, now);
      }
    case Acquire(_, _, _) => assert s.queue != [] ==> s.queue[|s.queue| - 1] in s.workers;
    case _ =>
  }

  lemma GiveBackHas(s: State, w: WorkerId, now: int, u: UserId, x: WorkerId)
    requires x !in s.workers && Has(GiveBack(s, w, now), u, x)
    ensures Has(s, u, x)
  {
    hide MinKey;
  }

  /** Nobody gets a worker that is not there, unless it was in the client's channel already. */
  lemma GoneIsNotHanded(s: State, e: Event, u: UserId, w: WorkerId)
    requires Inv(s) && Allowed(s, e) && w !in s.workers && !(e.AddWorker? && e.worker == w) && Has(Next(s, e), u, w)
    ensures Has(s, u, w)
  {
    hide Inv, GiveBack, ReleaseWorker, AcquireStep, CloseStep, AddUserStep, DeleteUserStep, DeleteWorkerStep;
    match e
    case AddWorker(x, now) =>
      if !s.closed {
        AddIsGiveBack(At(s, now), x);
        GiveBackHas(At(s, now).(workers := s.workers[x := Worker(None, now)]), x, now, u, w);
      }
    case Release(v, now) => GiveBackHas(Rested(At(s, now), v), s.clients[v].worker, now, u, w);
    case Timeout(v, now) =>
      var r, c := At(s, now), s.clients[v].ready;
      if v !in s.users && s.chans[c].Full? {
        GiveBackHas(r.(clients := r.clients[v := Resting], chans := r.chans[c := Empty], cc := r.cc + [c]), s.chans[c].worker, now, u, w);
      }
    case Acquire(v, now, spare) => AcquireNotHanded(s, v, now, spare, u, w);
    case _ => OthersNotHanded(s, e, u, w);
  }

  lemma AcquireNotHanded(s: State, v: UserId, now: int, spare: ChanId, u: UserId, w: WorkerId)
    requires Inv(s) && Enabled(s, Acquire(v, now, spare)) && w !in s.workers && Has(Next(s, Acquire(v, now, spare)), u, w)
    ensures Has(s, u, w)
  {
    assert s.queue != [] ==> s.queue[|s.queue| - 1] in s.queue;
    hide JobsOwned;
  }

  lemma OthersNotHanded(s: State, e: Event, u: UserId, w: WorkerId)
    requires Inv(s) && Enabled(s, e) && w !in s.workers && Has(Next(s, e), u, w)
    requires !e.AddWorker? && !e.Release? && !e.Timeout? && !e.Acquire?
    ensures Has(s, u, w)
  {
    hide Start, JobsOwned, AcquireStep;
  }

  predicate Adds(e: Event, w: WorkerId) {
    e.AddWorker? && e.worker == w
  }

  /**
   A worker that was deleted is not idle in any later state until it is added again, and only a
   client that had it then can have it.
   */
  lemma {:induction false} DeletedWorkerIsOut(s: State, es: seq<Event>, w: WorkerId)
    requires Inv(s) && Run(s, es) && w !in s.workers && forall i | 0 <= i < |es| :: !Adds(es[i], w)
    ensures var t := After(s, es); w !in t.workers && w !in t.queue && forall u: UserId | Has(t, u, w) :: Has(s, u, w)
    decreases |es|
  {
    if es != [] {
      assert !Adds(es[0], w);
      NextKeeps(s, es[0]);
      WorkersOf(s, es[0], w);
      if s.closed {
        ClosedStays(s, es[0]);
      }
      forall u: UserId | Has(Next(s, es[0]), u, w)
        ensures Has(s, u, w)
      {
        GoneIsNotHanded(s, es[0], u, w);
      }
      hide Inv, Next, Enabled, Has;
      DeletedWorkerIsOut(Next(s, es[0]), es[1..], w);
    }
  }

  /** Closed is for ever, and leaves neither workers nor users nor jobs. */
  lemma ClosedStays(s: State, e: Event)
    requires Inv(s) && Allowed(s, e) && s.closed
    ensures var t := Next(s, e); t.closed && t.workers == map[] && t.users == map[] && t.schedule == map[]
  {
  }

  predicate Removes(e: Event, w: WorkerId) {
    e == DeleteWorker(w) || e.Close?
  }

  /** A worker that was added is idle or with a client at every later point until it is deleted or everything closes. */
  lemma {:induction false} WorkerStays(s: State, es: seq<Event>, w: WorkerId)
    requires Inv(s) && Run(s, es) && w in s.workers && forall i | 0 <= i < |es| :: !Removes(es[i], w)
    ensures var t := After(s, es); w in t.workers && (w in t.queue || exists u: UserId :: Has(t, u, w))
    decreases |es|
  {
    if es != [] {
      assert !Removes(es[0], w);
      NextKeeps(s, es[0]);
      WorkersOf(s, es[0], w);
      hide Inv, Next, Enabled;
      WorkerStays(Next(s, es[0]), es[1..], w);
    } else {
      OnePlace(s, w);
    }
  }

  // ---- users -----------------------------------------------------------------------------

  /** A user that was deleted is never queued again, and if its client waits, it is woken. */
  lemma DeletedUserIsOut(s: State, es: seq<Event>, u: UserId)
    requires Inv(s) && Run(s, es) && u in s.clients && u !in s.users
    ensures var t := After(s, es);
      && u !in t.users && (forall k | k in t.schedule :: t.schedule[k].user != u)
      && (u in t.clients && t.clients[u].Waiting? ==> CanTake(t, u))
  {
    hide Next, Run, After;
    GoneForGood(s, es, u);
    RunKeeps(s, es);
    hide WorkersPlaced;
  }

  /** Closing wakes everybody who waits, and everything stays closed. */
  lemma {:induction false} ClosedWakes(s: State, es: seq<Event>, u: UserId)
    requires Inv(s) && Run(s, es) && s.closed
    ensures var t := After(s, es); t.closed && t.workers == map[] && (u in t.clients && t.clients[u].Waiting? ==> CanTake(t, u))
    decreases |es|
  {
    if es != [] {
      NextKeeps(s, es[0]);
      ClosedStays(s, es[0]);
      hide Inv, Next, Enabled, CanTake;
      ClosedWakes(Next(s, es[0]), es[1..], u);
    }
  }

  /** What adding and deleting do at once; the lemmas above say for how long. A new user starts just above the queue. */
  lemma ComeAndGo(s: State, e: Event)
    requires Inv(s) && Allowed(s, e) && !s.closed
    ensures e.AddWorker? ==> e.worker in Next(s, e).workers
    ensures e.DeleteWorker? ==> e.worker !in Next(s, e).workers
    ensures e.AddUser? ==>
      && e.user in Next(s, e).users
      && var stride := Next(s, e).users[e.user].stride;
      && (forall k | k in s.schedule :: k < stride)
      && (if s.schedule == map[] then stride == s.floor else stride - 1 in s.schedule)
    ensures e.DeleteUser? ==> e.user !in Next(s, e).users
    ensures e.Close? ==> Next(s, e).closed
  {
    if e.AddWorker? || e.DeleteWorker? {
      WorkersOf(s, e, e.worker);
      hide Next;
    }
  }

  // ---- idle workers ----------------------------------------------------------------------

  lemma {:induction false} RunLast(s: State, es: seq<Event>)
    requires Run(s, es) && es != []
    ensures var n := |es| - 1;
      Run(s, es[..n]) && Allowed(After(s, es[..n]), es[n]) && After(s, es) == Next(After(s, es[..n]), es[n])
    decreases |es|
  {
    hide Enabled, OwnSlot, Next;
    if |es| > 1 {
      RunLast(Next(s, es[0]), es[1..]);
      assert es[1..][..|es| - 2] == es[..|es| - 1][1..];
    } else {
      assert es[1..] == [] && es[..0] == [];
    }
  }

  /** The number of events after which an idle worker became idle. */
  ghost function IdleSince(es: seq<Event>, w: WorkerId): nat
    requires Run(Initial, es)
    decreases |es|
  {
    if es == [] then 0
    else
      RunLast(Initial, es);
      if w in After(Initial, es[..|es| - 1]).queue then IdleSince(es[..|es| - 1], w) else |es|
  }

  lemma GiveBackShifts(s: State, w: WorkerId, now: int)
    requires w !in s.queue
    ensures Shifted(s.queue, GiveBack(s, w, now).queue)
  {
    hide MinKey;
  }

  lemma QueueShifts(s: State, e: Event)
    requires Inv(s) && Allowed(s, e)
    ensures Shifted(s.queue, Next(s, e).queue)
  {
    hide GiveBack, ReleaseWorker, Start, CloseChans, Shifted, Without;
    Unshifted(s.queue);
    match e
    case AddWorker(x, now) =>
      if !s.closed {
        AddIsGiveBack(At(s, now), x);
        GiveBackShifts(At(s, now).(workers := s.workers[x := Worker(None, now)]), x, now);
      }
    case Release(v, now) =>
      assert Has(s, v, s.clients[v].worker);
      GiveBackShifts(Rested(At(s, now), v), s.clients[v].worker, now);
    case Timeout(v, now) =>
      var r, c := At(s, now), s.clients[v].ready;
      if v !in s.users && s.chans[c].Full? {
        assert Has(s, v, s.chans[c].worker);
        GiveBackShifts(r.(clients := r.clients[v := Resting], chans := r.chans[c := Empty], cc := r.cc + [c]), s.chans[c].worker, now);
      }
    case DeleteWorker(w) => WithoutShifts(s.queue, w);
    case Acquire(_, _, _) => LastShifts(s.queue);
    case _ =>
  }

  lemma Unshifted(q: seq<WorkerId>)
    ensures Shifted(q, q) && Shifted(q, [])
  {
  }

  lemma LastShifts(q: seq<WorkerId>)
    ensures q != [] ==> Shifted(q, q[..|q| - 1])
  {
    assert q != [] ==> Cut(q, q[..|q| - 1], |q| - 1);
  }

  lemma {:induction false} SinceBefore(es: seq<Event>)
    requires Run(Initial, es)
    ensures forall w :: IdleSince(es, w) <= |es|
    decreases |es|
  {
    hide Run, After;
    if es != [] {
      RunLast(Initial, es);
      SinceBefore(es[..|es| - 1]);
    }
  }

  /** At every point of every run the idle workers stand in the order in which they became idle. */
  lemma {:induction false} StackOrder(es: seq<Event>, i: nat, j: nat)
    requires Run(Initial, es) && i < j < |After(Initial, es).queue|
    ensures var q := After(Initial, es).queue; IdleSince(es, q[i]) < IdleSince(es, q[j])
    decreases |es|
  {
    var n := |es| - 1;
    RunLast(Initial, es);
    InitialHolds();
    RunKeeps(Initial, es[..n]);
    var q, r := After(Initial, es[..n]).queue, After(Initial, es).queue;
    QueueShifts(After(Initial, es[..n]), es[n]);
    hide Inv, Next, Allowed, Shifted, Run, After;
    SinceBefore(es[..n]);
    ShiftedOrder(q, r, i, j);
    if InOrder(q, r[i], r[j]) {
      var a, b :| 0 <= a < b < |q| && q[a] == r[i] && q[b] == r[j];
      StackOrder(es[..n], a, b);
    }
  }

  lemma TakesLast(s: State, u: UserId, now: int, spare: ChanId)
    requires Inv(s) && Enabled(s, Acquire(u, now, spare)) && s.queue != [] && u in s.users
    ensures var t, w := Next(s, Acquire(u, now, spare)), s.queue[|s.queue| - 1];
      && u in t.clients && t.clients[u] == Holding(w) && w in t.workers && t.workers[w] == Worker(Some(u), now)
      && (forall x :: x in t.queue <==> x in s.queue && x != w)
  {
    LastTaken(s.queue);
  }

  /** In every run, a user that finds idle workers gets the one that became idle last. */
  lemma LastInFirstOut(es: seq<Event>, u: UserId, now: int, spare: ChanId)
    requires Run(Initial, es) && Allowed(After(Initial, es), Acquire(u, now, spare))
    requires After(Initial, es).queue != [] && u in After(Initial, es).users
    ensures var s := After(Initial, es);
      var t := Next(s, Acquire(u, now, spare));
      && u in t.clients && t.clients[u].Holding?
      && var w := t.clients[u].worker;
      && w in s.queue && w in t.workers && t.workers[w] == Worker(Some(u), now)
      && (forall x | x in s.queue && x != w :: IdleSince(es, x) < IdleSince(es, w))
      && (forall x :: x in t.queue <==> x in s.queue && x != w)
  {
    var s := After(Initial, es);
    InitialHolds();
    RunKeeps(Initial, es);
    TakesLast(s, u, now, spare);
    hide Inv, Next, Enabled, Run, After;
    var n := |s.queue| - 1;
    forall x | x in s.queue && x != s.queue[n]
      ensures IdleSince(es, x) < IdleSince(es, s.queue[n])
    {
      var i :| 0 <= i < |s.queue| && s.queue[i] == x;
      StackOrder(es, i, n);
    }
  }
}
