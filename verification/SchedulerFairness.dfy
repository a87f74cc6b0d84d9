/**
 Fairness of the scheduler of lib/rob/schedulers/v3: once a user is queued, users added later are
 never served before it, and the number of workers handed to others before its turn is bounded by
 how far their strides are below its key, provided every hold lasts at least one tick.
 */
module SchedulerFairness {
  import opened Collections
  import opened SchedulerSpec

  /** The event sets a live worker free, which then goes to the first job if there is one. */
  predicate Frees(s: State, e: Event)
    requires Enabled(s, e)
  {
    match e
    case AddWorker(_, _) => !s.closed
    case Release(u, _) => !s.closed && s.clients[u].worker in s.workers
    case Timeout(u, _) =>
      && !s.closed && u !in s.users && s.chans[s.clients[u].ready].Full?
      && s.chans[s.clients[u].ready].worker in s.workers
    case _ => false
  }

  /** The user served by the event, if any. */
  ghost function Granted(s: State, e: Event): Option<UserId>
    requires Enabled(s, e)
  {
    if Frees(s, e) && s.schedule != map[] then Some(s.schedule[MinKey(s.schedule)].user) else None
  }

  predicate Queued(s: State, t: UserId, k: int) {
    t in s.users && s.users[t].scheduled && s.users[t].stride == k
  }

  /** v has a live worker, or one is on its way to it. */
  predicate Busy(s: State, v: UserId) {
    && v in s.clients
    && match s.clients[v]
       case Holding(w) => w in s.workers
       case Waiting(c) => c in s.chans && s.chans[c].Full? && s.chans[c].worker in s.workers
       case Resting => false
  }

  /** The least key at which v can be served next. */
  function Earliest(s: State, v: UserId): int
    requires v in s.users
  {
    var stride := s.users[v].stride + (if Busy(s, v) then 1 else 0);
    if stride < s.floor then s.floor else stride
  }

  /** Every hold that ends in the event lasted at least a tick. */
  predicate Ticked(s: State, e: Event)
    requires Enabled(s, e)
  {
    e.Release? && s.clients[e.user].worker in s.workers ==> s.workers[s.clients[e.user].worker].since < e.now
  }

  /** The user deprived of its worker by the event, if any. */
  function Deprived(s: State, e: Event): Option<UserId> {
    if e.DeleteWorker? && !s.closed && e.worker in s.workers then s.workers[e.worker].user else None
  }

  /** How an event may move the earliest key of v: never back, unless v loses its worker; on when served. */
  ghost predicate Advances(s: State, t: State, v: UserId, served: bool, deprived: bool) {
    v in s.users && v in t.users ==>
      && Earliest(s, v) - (if deprived then 1 else 0) <= Earliest(t, v)
      && (served ==> Earliest(s, v) == s.users[v].stride && s.users[v].stride < Earliest(t, v))
  }

  /** Handing out, seen from one user. */
  lemma HandOutAdvances(s: State, w: WorkerId, v: UserId)
    requires InvBut(s, {w}) && w in s.workers
    ensures Advances(s, HandOut(s, w, s.clock), v,
                     s.schedule != map[] && v == s.schedule[MinKey(s.schedule)].user, false)
  {
    if s.schedule != map[] {
      GrantJobs(s, w, s.clock);
    }
  }

  lemma ReleaseAdvances(s: State, u: UserId, v: UserId)
    requires Inv(s) && u in s.clients && s.clients[u].Holding? && !s.closed && s.clients[u].worker in s.workers
    requires u in s.users ==> s.workers[s.clients[u].worker].since < s.clock
    ensures Advances(s, GiveBack(Rested(s, u), s.clients[u].worker, s.clock), v,
                     s.schedule != map[] && v == s.schedule[MinKey(s.schedule)].user, false)
  {
    var w := s.clients[u].worker;
    var c := Charge(Rested(s, u), w, s.clock);
    ReleaseMid(s, u);
    HandOutAdvances(c, w, v);
    ChargeAdvances(s, u, v);
  }

  lemma ChargeAdvances(s: State, u: UserId, v: UserId)
    requires Inv(s) && u in s.clients && s.clients[u].Holding? && !s.closed && s.clients[u].worker in s.workers
    requires (u in s.users ==> s.workers[s.clients[u].worker].since < s.clock) && s.workers[s.clients[u].worker].user == Some(u)
    ensures var c := Charge(Rested(s, u), s.clients[u].worker, s.clock);
      && Advances(s, c, v, false, false) && (v in s.users ==> v in c.users)
      && (v in s.users && s.users[v].scheduled ==> Earliest(c, v) == Earliest(s, v) && c.users[v] == s.users[v])
  {
  }

  lemma AddWorkerAdvances(s: State, w: WorkerId, v: UserId)
    requires Inv(s) && w !in s.workers && !Appears(s, w) && !s.closed
    ensures Advances(s, AddWorkerStep(s, w, s.clock), v,
                     s.schedule != map[] && v == s.schedule[MinKey(s.schedule)].user, false)
  {
    var c := s.(workers := s.workers[w := Worker(None, s.clock)]);
    AddWorkerMid(s, w);
    HandOutAdvances(c, w, v);
    assert v in s.users ==> Earliest(c, v) == Earliest(s, v);
  }

  lemma DeleteWorkerAdvances(s: State, w: WorkerId, v: UserId)
    requires Inv(s)
    ensures Advances(s, DeleteWorkerStep(s, w), v, false, Deprived(s, DeleteWorker(w)) == Some(v))
  {
    if !s.closed && w in s.workers && v in s.users && Busy(s, v) {
      var x := if s.clients[v].Holding? then s.clients[v].worker else s.chans[s.clients[v].ready].worker;
      assert Has(s, v, x);
    }
  }

  lemma AcquireAdvances(s: State, u: UserId, spare: ChanId, v: UserId)
    requires Inv(s) && u in s.clients && s.clients[u].Resting? && spare !in s.chans && s.queue == []
    ensures Advances(s, AcquireStep(s, u, s.clock, spare), v, false, false)
  {
    var t := AcquireStep(s, u, s.clock, spare);
    if s.cc != [] {
      assert s.cc[|s.cc| - 1] in s.cc;
    }
  }

  lemma TakeAdvances(s: State, u: UserId, v: UserId)
    requires Inv(s) && CanTake(s, u)
    ensures Advances(s, Take(s, u, s.clients[u].ready), v, false, false)
  {
  }

  lemma TimeoutReleaseAdvances(s: State, u: UserId, c: ChanId, v: UserId)
    requires Inv(s) && u in s.clients && s.clients[u] == Waiting(c) && c in s.chans
    requires u !in s.users && s.chans[c].Full? && !s.closed && s.chans[c].worker in s.workers
    ensures Advances(s, TimeoutStep(s, u, c, s.clock), v,
                     s.schedule != map[] && v == s.schedule[MinKey(s.schedule)].user, false)
  {
    hide Inv, GiveBack;
    TakeKeeps(s, u);
    var t := Take(s, u, c);
    TakeAdvances(s, u, v);
    ReleaseAdvances(t, u, v);
    assert Rested(t, u) == s.(clients := s.clients[u := Resting], chans := s.chans[c := Empty], cc := s.cc + [c]);
    assert v in s.users ==> Earliest(t, v) == Earliest(s, v) && t.users == s.users;
  }

  lemma TimeoutAdvances(s: State, u: UserId, c: ChanId, v: UserId)
    requires Inv(s) && u in s.clients && s.clients[u] == Waiting(c) && c in s.chans && OwnSlot(s, u)
    ensures Advances(s, TimeoutStep(s, u, c, s.clock), v, Granted(s, Timeout(u, s.clock)) == Some(v), false)
  {
    hide HandOut, Charge;
    if u in s.users && s.users[u].stride in s.schedule {
    } else {
      LostRaceHasWorker(s, u);
      if u !in s.users && s.chans[c].Full? && !s.closed && s.chans[c].worker in s.workers {
        TimeoutReleaseAdvances(s, u, c, v);
      } else {
        TakeAdvances(s, u, v);
      }
    }
  }

  /** Every step, seen from one user, while somebody is queued. */
  lemma NextAdvances(s: State, e: Event, v: UserId)
    requires Inv(s) && Allowed(s, e) && Ticked(s, e) && s.schedule != map[] && v in s.users
    ensures Advances(s, Next(s, e), v, Granted(s, e) == Some(v), Deprived(s, e) == Some(v))
  {
    hide Inv, AcquireStep, TimeoutStep, GiveBack, AddWorkerStep, Take, DeleteWorkerStep;
    QueueEmpty(s);
    if e.AddWorker? || e.Acquire? || e.Timeout? || e.Release? {
      AtKeeps(s, e.now);
      assert Earliest(At(s, e.now), v) == Earliest(s, v);
    }
    match e
    case AddWorker(w, now) =>
      if !s.closed {
        AddWorkerAdvances(At(s, now), w, v);
      } else {
        ClosedIdle(s);
      }
    case DeleteWorker(w) => DeleteWorkerAdvances(s, w, v);
    case AddUser(u) => AddUserAdvances(s, u, v);
    case DeleteUser(u) => DeleteUserAdvances(s, u, v);
    case Acquire(u, now, spare) => AcquireAdvances(At(s, now), u, spare, v);
    case Receive(u) => TakeAdvances(s, u, v);
    case Timeout(u, now) => TimeoutAdvances(At(s, now), u, s.clients[u].ready, v);
    case Release(u, now) =>
      if !s.closed && s.clients[u].worker in s.workers {
        ReleaseAdvances(At(s, now), u, v);
      } else {
        RestAdvances(At(s, now), u, v);
      }
    case Close =>
  }

  lemma QueueEmpty(s: State)
    requires Inv(s) && s.schedule != map[]
    ensures s.queue == [] && !s.closed
  {
  }

  lemma ClosedIdle(s: State)
    requires Inv(s) && s.closed
    ensures s.schedule == map[]
  {
  }

  lemma AddUserAdvances(s: State, u: UserId, v: UserId)
    requires Inv(s) && u !in s.clients
    ensures Advances(s, AddUserStep(Rested(s, u), u), v, false, false)
  {
  }

  lemma DeleteUserAdvances(s: State, u: UserId, v: UserId)
    requires Inv(s)
    ensures Advances(s, DeleteUserStep(s, u), v, false, false)
  {
  }

  lemma RestAdvances(s: State, u: UserId, v: UserId)
    requires Inv(s) && u in s.clients && s.clients[u].Holding? && s.clients[u].worker !in s.workers
    ensures Advances(s, GiveBack(Rested(s, u), s.clients[u].worker, s.clock), v, false, false)
  {
  }

  // ---- the measure -----------------------------------------------------------------------

  /** The total of m over the keys ks. */
  ghost function Sum(m: map<UserId, nat>, ks: set<UserId>): nat
    requires ks <= m.Keys
    decreases |ks|
  {
    if ks == {} then 0 else
    assert exists u :: u in ks by {
      var some := Member(ks);
      assert some.value in ks;
    }
    var u :| u in ks;
    m[u] + Sum(m, ks - {u})
  }

  lemma {:induction false} SumPick(m: map<UserId, nat>, ks: set<UserId>, u: UserId)
    requires ks <= m.Keys && u in ks
    ensures Sum(m, ks) == m[u] + Sum(m, ks - {u})
    decreases |ks|
  {
    var x :| x in ks && Sum(m, ks) == m[x] + Sum(m, ks - {x});
    if x != u {
      SumPick(m, ks - {x}, u);
      SumPick(m, ks - {u}, x);
      assert ks - {x} - {u} == ks - {u} - {x};
    }
  }

  /** A smaller set with smaller values has a smaller total. */
  lemma {:induction false} SumLess(m: map<UserId, nat>, n: map<UserId, nat>, ks: set<UserId>)
    requires ks <= n.Keys && forall u :: u in n.Keys && u !in ks ==> n[u] == 0
    requires ks <= m.Keys && forall u :: u in ks ==> n[u] <= m[u]
    ensures Sum(n, n.Keys) <= Sum(m, m.Keys)
  {
    SumZero(n, n.Keys, ks);
    SumSubset(m, m.Keys, ks);
    SumPointwise(m, n, ks);
  }

  lemma {:induction false} SumZero(n: map<UserId, nat>, all: set<UserId>, ks: set<UserId>)
    requires ks <= all <= n.Keys && forall u :: u in all && u !in ks ==> n[u] == 0
    ensures Sum(n, all) == Sum(n, ks)
    decreases |all|
  {
    var some := Member(all - ks);
    if all - ks == {} {
      assert all == ks;
    } else {
      var u := some.value;
      SumPick(n, all, u);
      SumZero(n, all - {u}, ks);
    }
  }

  lemma {:induction false} SumSubset(m: map<UserId, nat>, all: set<UserId>, ks: set<UserId>)
    requires ks <= all <= m.Keys
    ensures Sum(m, ks) <= Sum(m, all)
    decreases |all|
  {
    var some := Member(all - ks);
    if all - ks == {} {
      assert all == ks;
    } else {
      var u := some.value;
      SumPick(m, all, u);
      SumSubset(m, all - {u}, ks);
    }
  }

  lemma {:induction false} SumPointwise(m: map<UserId, nat>, n: map<UserId, nat>, ks: set<UserId>)
    requires ks <= n.Keys && ks <= m.Keys && forall u :: u in ks ==> n[u] <= m[u]
    ensures Sum(n, ks) <= Sum(m, ks)
    decreases |ks|
  {
    var some := Member(ks);
    if ks != {} {
      var u := some.value;
      SumPick(m, ks, u);
      SumPick(n, ks, u);
      SumPointwise(m, n, ks - {u});
    }
  }

  /** How often v can still be served before key k. */
  function Turns(s: State, k: int, v: UserId): nat
    requires v in s.users
  {
    if Earliest(s, v) < k then k - Earliest(s, v) else 0
  }

  ghost predicate AreTurns(m: map<UserId, nat>, s: State, t: UserId, k: int) {
    m.Keys == s.users.Keys - {t} && forall v | v in m :: m[v] == Turns(s, k, v)
  }

  ghost function AllTurns(s: State, t: UserId, k: int): (m: map<UserId, nat>)
    ensures AreTurns(m, s, t, k)
  {
    assert exists m :: AreTurns(m, s, t, k) by {
      var m := map v | v in s.users && v != t :: Turns(s, k, v);
      assert AreTurns(m, s, t, k);
    }
    var m :| AreTurns(m, s, t, k);
    m
  }

  /** How often anybody but t can still be served before key k. */
  ghost function Ahead(s: State, t: UserId, k: int): nat {
    Sum(AllTurns(s, t, k), AllTurns(s, t, k).Keys)
  }

  lemma SumUpdate(m: map<UserId, nat>, u: UserId, x: nat)
    requires u in m
    ensures Sum(m[u := x], m[u := x].Keys) + m[u] == Sum(m, m.Keys) + x
  {
    var n := m[u := x];
    assert n.Keys == m.Keys;
    SumPick(m, m.Keys, u);
    SumPick(n, n.Keys, u);
    SumSame(m, n, m.Keys - {u});
  }

  lemma {:induction false} SumSame(m: map<UserId, nat>, n: map<UserId, nat>, ks: set<UserId>)
    requires ks <= n.Keys && ks <= m.Keys && forall u :: u in ks ==> n[u] == m[u]
    ensures Sum(n, ks) == Sum(m, ks)
  {
    SumPointwise(m, n, ks);
    SumPointwise(n, m, ks);
  }

  /** Users that appear in a step while t is queued at k start above k. */
  lemma NewcomersBehind(s: State, e: Event, t: UserId, k: int, v: UserId)
    requires Inv(s) && Allowed(s, e) && Queued(s, t, k) && v !in s.users && v in Next(s, e).users
    ensures e == AddUser(v) && k < Next(s, e).users[v].stride
  {
    hide MinKey;
    assert k in s.schedule;
    match e
    case AddWorker(w, now) => UsersOfRelease(s, e);
    case Release(u, now) => UsersOfRelease(s, e);
    case Timeout(u, now) => UsersOfRelease(s, e);
    case _ =>
  }

  lemma UsersOfRelease(s: State, e: Event)
    requires Enabled(s, e) && (e.AddWorker? || e.Release? || e.Timeout?)
    ensures Next(s, e).users.Keys == s.users.Keys
  {
    hide GiveBack, ReleaseWorker, HandOut, MinKey;
    match e
    case AddWorker(w, now) =>
      if !s.closed {
        GiveBackUsers(At(s, now).(workers := s.workers[w := Worker(None, now)]), w, now);
        AddIsGiveBack(At(s, now), w);
      }
    case Release(u, now) => GiveBackUsers(Rested(At(s, now), u), s.clients[u].worker, now);
    case Timeout(u, now) =>
      var t, c := At(s, now), s.clients[u].ready;
      if s.chans[c].Full? {
        GiveBackUsers(t.(clients := t.clients[u := Resting], chans := t.chans[c := Empty], cc := t.cc + [c]), s.chans[c].worker, now);
      }
  }

  lemma GiveBackUsers(s: State, w: WorkerId, now: int)
    ensures GiveBack(s, w, now).users.Keys == s.users.Keys
  {
    if !s.closed && w in s.workers {
      assert Charge(s, w, now).users.Keys == s.users.Keys;
    }
  }

  /** Whoever is served while t stays queued at k is another user with a key below k. */
  lemma ServedAhead(s: State, e: Event, t: UserId, k: int)
    requires Inv(s) && Allowed(s, e) && Queued(s, t, k) && Queued(Next(s, e), t, k) && Granted(s, e).Some?
    ensures var g := Granted(s, e).value;
      g != t && g in s.users && g in Next(s, e).users && s.users[g].stride < k && s.users[g].scheduled
  {
    hide Inv, Next, Granted, Enabled, OwnSlot;
    QueuedSchedule(s, t, k);
    GrantedJob(s, e);
    UsersOfRelease(s, e);
    ServedLeaves(s, e);
  }

  /** Whoever is served has the job with the least key. */
  lemma GrantedJob(s: State, e: Event)
    requires Inv(s) && Enabled(s, e) && Granted(s, e).Some?
    ensures var g := Granted(s, e).value;
      && g in s.users && s.users[g].scheduled
      && s.users[g].stride in s.schedule && s.schedule[s.users[g].stride].user == g
      && forall k | k in s.schedule :: s.users[g].stride <= k
    ensures e.AddWorker? || e.Release? || e.Timeout?
  {
  }

  lemma ServedLeaves(s: State, e: Event)
    requires Inv(s) && Allowed(s, e) && Granted(s, e).Some?
    ensures var g := Granted(s, e).value;
      g in s.users && g in Next(s, e).users && !Next(s, e).users[g].scheduled
  {
    UsersOfRelease(s, e);
  }

  function Count<T>(o: Option<T>): nat {
    if o.Some? then 1 else 0
  }

  /** Turns of each user across a step. */
  lemma TurnsStep(s: State, e: Event, t: UserId, k: int, v: UserId)
    requires Inv(s) && Allowed(s, e) && Ticked(s, e) && Queued(s, t, k) && Queued(Next(s, e), t, k)
    requires v in Next(s, e).users && v != t
    ensures v !in s.users ==> Turns(Next(s, e), k, v) == 0
    ensures v in s.users ==>
      Turns(Next(s, e), k, v) + (if Granted(s, e) == Some(v) then 1 else 0)
      <= Turns(s, k, v) + (if Deprived(s, e) == Some(v) then 1 else 0)
  {
    hide Inv, Next, Granted, Enabled, Deprived;
    if v !in s.users {
      NewcomersBehind(s, e, t, k, v);
    } else {
      QueuedSchedule(s, t, k);
      NextAdvances(s, e, v);
      if Granted(s, e).Some? {
        ServedAhead(s, e, t, k);
      }
    }
  }

  lemma QueuedSchedule(s: State, t: UserId, k: int)
    requires Inv(s) && Queued(s, t, k)
    ensures k in s.schedule && s.schedule[k].user == t && s.schedule != map[]
  {
  }

  /** Serving somebody uses up a turn; nothing but losing a worker gives one back. */
  lemma AheadStep(s: State, e: Event, t: UserId, k: int)
    requires Inv(s) && Allowed(s, e) && Ticked(s, e) && Queued(s, t, k) && Queued(Next(s, e), t, k)
    ensures Ahead(Next(s, e), t, k) + Count(Granted(s, e)) <= Ahead(s, t, k) + Count(Deprived(s, e))
  {
    hide Inv, Next, Granted, Enabled, Deprived, Turns, Ticked, Sum, AllTurns;
    var s' := Next(s, e);
    var m, n := AllTurns(s, t, k), AllTurns(s', t, k);
    forall v | v in n
      ensures v !in m ==> n[v] == 0
      ensures v in m ==> n[v] + (if Granted(s, e) == Some(v) then 1 else 0) <= m[v] + (if Deprived(s, e) == Some(v) then 1 else 0)
    {
      TurnsStep(s, e, t, k, v);
    }
    var b := m;
    if Granted(s, e).Some? {
      ServedAhead(s, e, t, k);
      GrantedOrDeprived(s, e);
      var g := Granted(s, e).value;
      assert g in m && g in n;
      b := m[g := m[g] - 1];
      SumUpdate(m, g, m[g] - 1);
    } else if Deprived(s, e).Some? && Deprived(s, e).value in m {
      var d := Deprived(s, e).value;
      b := m[d := m[d] + 1];
      SumUpdate(m, d, m[d] + 1);
    }
    assert b.Keys == m.Keys;
    SumLess(b, n, m.Keys * n.Keys);
  }

  lemma GrantedOrDeprived(s: State, e: Event)
    requires Enabled(s, e)
    ensures Granted(s, e).None? || Deprived(s, e).None?
  {
  }

  // ---- bounded bypass over whole runs ----------------------------------------------------

  /** t stays queued at k through the whole run, and every hold lasts at least a tick. */
  ghost predicate KeepsWaiting(s: State, es: seq<Event>, t: UserId, k: int)
    requires Run(s, es)
    decreases |es|
  {
    && Queued(s, t, k)
    && (es != [] ==> Ticked(s, es[0]) && KeepsWaiting(Next(s, es[0]), es[1..], t, k))
  }

  /** How many workers were handed to queued users in the run, and how many were taken from their users. */
  ghost function Grants(s: State, es: seq<Event>): nat
    requires Run(s, es)
    decreases |es|
  {
    if es == [] then 0 else Count(Granted(s, es[0])) + Grants(Next(s, es[0]), es[1..])
  }

  ghost function Losses(s: State, es: seq<Event>): nat
    requires Run(s, es)
    decreases |es|
  {
    if es == [] then 0 else Count(Deprived(s, es[0])) + Losses(Next(s, es[0]), es[1..])
  }

  /**
   Bounded bypass: while t waits at key k, no more workers are handed to others than the turns they
   had left below k when it was queued, plus the workers deleted under their users since.
   */
  lemma {:induction false} BoundedBypass(s: State, es: seq<Event>, t: UserId, k: int)
    requires Inv(s) && Run(s, es) && KeepsWaiting(s, es, t, k)
    ensures Grants(s, es) + Ahead(After(s, es), t, k) <= Ahead(s, t, k) + Losses(s, es)
    decreases |es|
  {
    hide Inv, Next, Granted, Deprived, Ahead, Ticked, Queued, Enabled;
    if es != [] {
      NextKeeps(s, es[0]);
      AheadStep(s, es[0], t, k);
      BoundedBypass(Next(s, es[0]), es[1..], t, k);
    }
  }

  /** The events by which t gives up its place: its timeout, its deletion, and the end of everything. */
  predicate Leaves(e: Event, t: UserId) {
    e == DeleteUser(t) || (e.Timeout? && e.user == t) || e.Close?
  }

  /** t never gives up its place. */
  predicate Stays(es: seq<Event>, t: UserId) {
    forall i :: 0 <= i < |es| ==> !Leaves(es[i], t)
  }

  /** Every hold that ends in the run lasted at least a tick. */
  ghost predicate AllTicked(s: State, es: seq<Event>)
    requires Run(s, es)
    decreases |es|
  {
    es != [] ==> Ticked(s, es[0]) && AllTicked(Next(s, es[0]), es[1..])
  }

  ghost predicate Serves(s: State, es: seq<Event>, v: UserId)
    requires Run(s, es)
    decreases |es|
  {
    es != [] && (Granted(s, es[0]) == Some(v) || Serves(Next(s, es[0]), es[1..], v))
  }

  /** A queued user waits: no worker is with it. */
  lemma QueuedHasNone(s: State, t: UserId, k: int, w: WorkerId)
    requires Inv(s) && Queued(s, t, k) && w in s.workers
    ensures s.workers[w].user != Some(t)
  {
    assert k in s.schedule && s.schedule[k].user == t;
  }

  /** A worker given back by another user and handed to another user leaves t where it is. */
  lemma GiveBackKeepsPlace(s: State, w: WorkerId, now: int, t: UserId, k: int)
    requires Queued(s, t, k) && (w in s.workers ==> s.workers[w].user != Some(t))
    requires !s.closed && w in s.workers && s.schedule != map[] ==> s.schedule[MinKey(s.schedule)].user != t
    ensures Queued(GiveBack(s, w, now), t, k)
  {
    hide MinKey;
  }

  /** Whoever else is served, t keeps its place and its key until it is served itself. */
  lemma KeepsPlace(s: State, e: Event, t: UserId, k: int)
    requires Inv(s) && Allowed(s, e) && Queued(s, t, k) && !Leaves(e, t) && Granted(s, e) != Some(t)
    ensures Queued(Next(s, e), t, k)
  {
    assert k in s.schedule && s.schedule[k].user == t && s.schedule[k].ready in s.chans && s.chans[s.schedule[k].ready].Empty?;
    assert t in s.clients && s.clients[t] == Waiting(s.schedule[k].ready) && !s.closed;
    match e
    case AddWorker(w, now) =>
      hide Inv, MinKey, GiveBack, ReleaseWorker;
      GiveBackKeepsPlace(At(s, now).(workers := s.workers[w := Worker(None, now)]), w, now, t, k);
      AddIsGiveBack(At(s, now), w);
    case Release(u, now) =>
      var w := s.clients[u].worker;
      if w in s.workers {
        QueuedHasNone(s, t, k, w);
      }
      hide Inv, MinKey, GiveBack;
      GiveBackKeepsPlace(Rested(At(s, now), u), w, now, t, k);
    case Timeout(u, now) => TimeoutKeepsPlace(s, u, now, t, k);
    case _ => hide MinKey;
  }

  lemma TimeoutKeepsPlace(s: State, u: UserId, now: int, t: UserId, k: int)
    requires Inv(s) && Allowed(s, Timeout(u, now)) && Queued(s, t, k) && u != t && Granted(s, Timeout(u, now)) != Some(t)
    ensures Queued(Next(s, Timeout(u, now)), t, k)
  {
    hide MinKey, GiveBack;
    var c := s.clients[u].ready;
    if u !in s.users && s.chans[c].Full? {
      var w := s.chans[c].worker;
      if w in s.workers {
        QueuedHasNone(s, t, k, w);
      }
      var r := At(s, now);
      GiveBackKeepsPlace(r.(clients := r.clients[u := Resting], chans := r.chans[c := Empty], cc := r.cc + [c]), w, now, t, k);
    }
  }

  lemma {:induction false} ServedOrWaiting(s: State, es: seq<Event>, t: UserId, k: int)
    requires Inv(s) && Run(s, es) && Queued(s, t, k) && AllTicked(s, es) && Stays(es, t)
    ensures Serves(s, es, t) || KeepsWaiting(s, es, t, k)
    decreases |es|
  {
    hide Inv, Next, Granted, Ticked, Queued, Enabled;
    if es != [] && Granted(s, es[0]) != Some(t) {
      NextKeeps(s, es[0]);
      KeepsPlace(s, es[0], t, k);
      ServedOrWaiting(Next(s, es[0]), es[1..], t, k);
    }
  }

  /**
   Starvation freedom: a user that is queued and does not give up its place is served in every run
   with more grants than the turns that others had left before it, plus the workers deleted under
   their users.
   */
  lemma StarvationFree(s: State, es: seq<Event>, t: UserId, k: int)
    requires Inv(s) && Run(s, es) && Queued(s, t, k) && AllTicked(s, es) && Stays(es, t)
    requires Ahead(s, t, k) + Losses(s, es) < Grants(s, es)
    ensures Serves(s, es, t)
  {
    hide Inv, Run, Ahead, Grants, Losses, Serves, KeepsWaiting;
    ServedOrWaiting(s, es, t, k);
    if KeepsWaiting(s, es, t, k) {
      BoundedBypass(s, es, t, k);
    }
  }

  /** v is behind key k: not known yet, gone, or with a stride above k. */
  predicate Behind(s: State, v: UserId, k: int) {
    v in s.users ==> k < s.users[v].stride
  }

  lemma BehindStays(s: State, e: Event, t: UserId, k: int, v: UserId)
    requires Inv(s) && Allowed(s, e) && Queued(s, t, k) && Behind(s, v, k)
    ensures Behind(Next(s, e), v, k)
    ensures Granted(s, e) != Some(v)
  {
    hide Inv;
    if v !in s.users {
      hide Next, Enabled;
      if v in Next(s, e).users {
        NewcomersBehind(s, e, t, k, v);
      }
      GrantedLive(s, e);
    } else {
      if v in Next(s, e).users {
        StrideGrows(s, e, v);
      }
      QueuedSchedule(s, t, k);
      GrantedLive(s, e);
    }
  }

  lemma GrantedLive(s: State, e: Event)
    requires Inv(s) && Allowed(s, e)
    ensures var g := Granted(s, e);
      g.Some? ==> g.value in s.users && forall k :: k in s.schedule ==> s.users[g.value].stride <= k
  {
  }

  lemma GiveBackGrows(s: State, w: WorkerId, v: UserId)
    requires v in s.users && (w in s.workers ==> s.workers[w].since <= s.clock)
    ensures v in GiveBack(s, w, s.clock).users && s.users[v].stride <= GiveBack(s, w, s.clock).users[v].stride
  {
  }

  lemma WorkersSince(s: State, w: WorkerId)
    requires Inv(s) && w in s.workers
    ensures s.workers[w].since <= s.clock
  {
  }

  lemma StrideGrows(s: State, e: Event, v: UserId)
    requires Inv(s) && Allowed(s, e) && v in s.users && v in Next(s, e).users
    ensures s.users[v].stride <= Next(s, e).users[v].stride
  {
    hide GiveBack, ReleaseWorker, HandOut, MinKey;
    match e
    case AddWorker(w, now) =>
      var t := At(s, now).(workers := s.workers[w := Worker(None, now)]);
      GiveBackGrows(t, w, v);
      AddIsGiveBack(At(s, now), w);
    case Release(u, now) =>
      var w := s.clients[u].worker;
      if w in s.workers {
        WorkersSince(s, w);
      }
      GiveBackGrows(Rested(At(s, now), u), w, v);
    case Timeout(u, now) =>
      var c := s.clients[u].ready;
      if u !in s.users && s.chans[c].Full? {
        var w := s.chans[c].worker;
        if w in s.workers {
          WorkersSince(s, w);
        }
        var t := At(s, now);
        GiveBackGrows(t.(clients := t.clients[u := Resting], chans := t.chans[c := Empty], cc := t.cc + [c]), w, v);
      }
    case _ => OthersGrow(s, e, v);
  }

  lemma AddIsGiveBack(s: State, w: WorkerId)
    requires !s.closed
    ensures AddWorkerStep(s, w, s.clock) == GiveBack(s.(workers := s.workers[w := Worker(None, s.clock)]), w, s.clock)
  {
  }

  lemma OthersGrow(s: State, e: Event, v: UserId)
    requires Inv(s) && Allowed(s, e) && v in s.users && v in Next(s, e).users
    requires !e.AddWorker? && !e.Release? && !e.Timeout?
    ensures s.users[v].stride <= Next(s, e).users[v].stride
  {
  }

  /** v is served in the run before t is. */
  ghost predicate ServedFirst(s: State, es: seq<Event>, t: UserId, v: UserId)
    requires Run(s, es)
    decreases |es|
  {
    && es != [] && Granted(s, es[0]) != Some(t)
    && (Granted(s, es[0]) == Some(v) || ServedFirst(Next(s, es[0]), es[1..], t, v))
  }

  /**
   Users that are behind t when it is queued, above all those added later, are never served before
   it, however short the holds are.
   */
  lemma {:induction false} NewcomersNeverFirst(s: State, es: seq<Event>, t: UserId, k: int, v: UserId)
    requires Inv(s) && Run(s, es) && Queued(s, t, k) && Stays(es, t) && Behind(s, v, k)
    ensures !ServedFirst(s, es, t, v)
    decreases |es|
  {
    hide Inv, Next, Granted, Enabled, Queued;
    if es != [] && Granted(s, es[0]) != Some(t) {
      NextKeeps(s, es[0]);
      KeepsPlace(s, es[0], t, k);
      BehindStays(s, es[0], t, k, v);
      NewcomersNeverFirst(Next(s, es[0]), es[1..], t, k, v);
    }
  }
}
