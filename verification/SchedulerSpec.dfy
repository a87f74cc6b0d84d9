/**
 The fair-share scheduler of lib/rob/schedulers/v3 as a state machine. One state holds the fields
 of Scheduler together with what surrounds them: the Ready channels and what each client is doing.
 An event is one critical section of the scheduler, or a client taking what its channel holds, so
 a run of events is any interleaving of any number of clients.
 */
module SchedulerSpec {
  import opened Collections

  type WorkerId = nat
  type UserId = nat
  type ChanId = nat

  /** user is the one the worker was handed to and since the time of that. */
  datatype Worker = Worker(user: Option<UserId>, since: int)
  datatype User = User(stride: int, scheduled: bool)
  datatype Job = Job(user: UserId, ready: ChanId)
  /** `to` is the user whose job the channel was taken from. */
  datatype Chan = Empty | Full(worker: WorkerId, to: UserId) | Closed
  datatype Client = Resting | Waiting(ready: ChanId) | Holding(worker: WorkerId)

  datatype State = State(
    closed: bool,
    queue: seq<WorkerId>,
    workers: map<WorkerId, Worker>,
    floor: int,
    users: map<UserId, User>,
    schedule: map<int, Job>,
    cc: seq<ChanId>,
    chans: map<ChanId, Chan>,
    clients: map<UserId, Client>,
    clock: int)

  datatype Event =
    | AddWorker(worker: WorkerId, now: int)
    | DeleteWorker(worker: WorkerId)
    | AddUser(user: UserId)
    | DeleteUser(user: UserId)
    | Acquire(user: UserId, now: int, spare: ChanId)
    | Receive(user: UserId)
    | Timeout(user: UserId, now: int)
    | Release(user: UserId, now: int)
    | Close

  // ---- order on the schedule -------------------------------------------------------------

  ghost predicate IsMin(m: map<int, Job>, k: int) {
    k in m && forall x :: x in m ==> k <= x
  }

  lemma {:induction false} MinExists(ks: set<int>) returns (k: int)
    requires ks != {}
    ensures k in ks && forall x :: x in ks ==> k <= x
    decreases |ks|
  {
    var some := Member(ks);
    var a := some.value;
    if ks == {a} {
      k := a;
    } else {
      var rest := ks - {a};
      var b := MinExists(rest);
      k := if a < b then a else b;
      forall x | x in ks
        ensures k <= x
      {
        if x != a {
          assert x in rest;
        }
      }
    }
  }

  ghost function MinKey(m: map<int, Job>): (k: int)
    requires m != map[]
    ensures IsMin(m, k)
  {
    assert exists k :: IsMin(m, k) by {
      assert m.Keys != {};
      var k := MinExists(m.Keys);
      assert IsMin(m, k);
    }
    var k :| IsMin(m, k);
    k
  }

  /** Where AddUser lets a new user start: just above everyone queued. */
  ghost predicate IsStart(m: map<int, Job>, floor: int, stride: int) {
    if m == map[] then stride == floor
    else stride - 1 in m && forall x :: x in m ==> x < stride
  }

  ghost function Start(m: map<int, Job>, floor: int): (stride: int)
    ensures IsStart(m, floor, stride)
  {
    if m == map[] then floor
    else
      assert exists stride :: IsStart(m, floor, stride) by {
        assert m.Keys != {};
        var some := Member(m.Keys);
        var a := some.value;
        var ks := set x | x in m :: -x;
        assert -a in ks;
        var k := MinExists(ks);
        forall x | x in m
          ensures x < -k + 1
        {
          assert -x in ks;
        }
        assert IsStart(m, floor, -k + 1);
      }
      var stride :| IsStart(m, floor, stride);
      stride
  }

  /** The least free slot from k on. */
  function FirstFree(m: map<int, Job>, k: int): (r: int)
    ensures k <= r && r !in m && forall x :: k <= x < r ==> x in m
    decreases |set x | x in m.Keys && x >= k|
  {
    if k in m then
      FewerAbove(m.Keys, k);
      FirstFree(m, k + 1)
    else k
  }

  lemma FewerAbove(ks: set<int>, k: int)
    requires k in ks
    ensures |set x | x in ks && x >= k + 1| < |set x | x in ks && x >= k|
  {
    var a, b := set x | x in ks && x >= k + 1, set x | x in ks && x >= k;
    assert b == a + {k};
    assert k !in a;
  }

  // ---- the critical sections -------------------------------------------------------------

  /** releaseWorker, first half: charges the previous user for its hold. */
  function Charge(s: State, w: WorkerId, now: int): State
    requires w in s.workers
  {
    match s.workers[w].user
    case None => s
    case Some(u) =>
      s.(workers := s.workers[w := Worker(None, now)],
         users := if u in s.users
                  then s.users[u := s.users[u].(stride := s.users[u].stride + (now - s.workers[w].since))]
                  else s.users)
  }

  /** releaseWorker, second half: hands the worker to the job with the least key, if any. */
  ghost function HandOut(s: State, w: WorkerId, now: int): State
    requires w in s.workers
  {
    if s.schedule == map[] then s.(queue := s.queue + [w])
    else
      var k := MinKey(s.schedule);
      var job := s.schedule[k];
      s.(floor := k, schedule := s.schedule - {k},
         users := if job.user in s.users then s.users[job.user := s.users[job.user].(scheduled := false)] else s.users,
         workers := s.workers[w := Worker(Some(job.user), now)],
         chans := s.chans[job.ready := Full(w, job.user)])
  }

  ghost function ReleaseWorker(s: State, w: WorkerId, now: int): State
    requires w in s.workers
  {
    HandOut(Charge(s, w, now), w, now)
  }

  /** release: workers that were deleted, or a closed scheduler, are ignored. */
  ghost function GiveBack(s: State, w: WorkerId, now: int): State {
    if s.closed || w !in s.workers then s else ReleaseWorker(s, w, now)
  }

  ghost function AddWorkerStep(s: State, w: WorkerId, now: int): State {
    if s.closed then s else ReleaseWorker(s.(workers := s.workers[w := Worker(None, now)]), w, now)
  }

  function DeleteWorkerStep(s: State, w: WorkerId): State {
    if s.closed || w !in s.workers then s
    else s.(workers := s.workers - {w}, queue := Without(s.queue, w))
  }

  ghost function AddUserStep(s: State, u: UserId): State {
    if s.closed then s
    else s.(users := s.users[u := User(Start(s.schedule, s.floor), false)])
  }

  function DeleteUserStep(s: State, u: UserId): State {
    if s.closed || u !in s.users then s
    else
      var t := s.(users := s.users - {u});
      if s.users[u].scheduled && s.users[u].stride in s.schedule then
        t.(chans := s.chans[s.schedule[s.users[u].stride].ready := Closed],
           schedule := s.schedule - {s.users[u].stride})
      else t
  }

  /** Acquire up to the point where it returns or starts to wait. `spare` is the channel made if cc is empty. */
  function AcquireStep(s: State, u: UserId, now: int, spare: ChanId): State {
    if s.closed || u !in s.users then s
    else if s.queue != [] then
      var w := s.queue[|s.queue| - 1];
      s.(queue := s.queue[..|s.queue| - 1],
         workers := s.workers[w := Worker(Some(u), now)],
         clients := s.clients[u := Holding(w)])
    else
      var ready := if s.cc != [] then s.cc[|s.cc| - 1] else spare;
      var from := if s.users[u].stride < s.floor then s.floor else s.users[u].stride;
      var stride := FirstFree(s.schedule, from);
      s.(cc := if s.cc != [] then s.cc[..|s.cc| - 1] else s.cc,
         chans := if s.cc != [] then s.chans else s.chans[spare := Empty],
         schedule := s.schedule[stride := Job(u, ready)],
         users := s.users[u := User(stride, true)],
         clients := s.clients[u := Waiting(ready)])
  }

  /** The receive of Acquire: a closed channel yields no worker. */
  function Take(s: State, u: UserId, ready: ChanId): State
    requires ready in s.chans
  {
    match s.chans[ready]
    case Empty => s
    case Closed => s.(clients := s.clients[u := Resting])
    case Full(w, _) =>
      s.(clients := s.clients[u := Holding(w)], chans := s.chans[ready := Empty], cc := s.cc + [ready])
  }

  /** The timeout branch of Acquire. */
  ghost function TimeoutStep(s: State, u: UserId, ready: ChanId, now: int): State
    requires ready in s.chans
  {
    if u !in s.users then
      match s.chans[ready]
      case Full(w, _) =>
        GiveBack(s.(clients := s.clients[u := Resting], chans := s.chans[ready := Empty], cc := s.cc + [ready]), w, now)
      case _ => s.(clients := s.clients[u := Resting])
    else if s.users[u].stride in s.schedule then
      s.(users := s.users[u := s.users[u].(scheduled := false)],
         schedule := s.schedule - {s.users[u].stride},
         cc := s.cc + [ready],
         clients := s.clients[u := Resting])
    else Take(s, u, ready)
  }

  predicate HasJob(schedule: map<int, Job>, c: ChanId) {
    exists k :: k in schedule && schedule[k].ready == c
  }

  /** The channels once those of the queued jobs were closed. */
  ghost predicate ClosedFor(now: map<ChanId, Chan>, chans: map<ChanId, Chan>, schedule: map<int, Job>) {
    now.Keys == chans.Keys && forall c | c in chans :: now[c] == if HasJob(schedule, c) then Closed else chans[c]
  }

  ghost function CloseChans(chans: map<ChanId, Chan>, schedule: map<int, Job>): (now: map<ChanId, Chan>)
    ensures ClosedFor(now, chans, schedule)
  {
    assert exists now :: ClosedFor(now, chans, schedule) by {
      var now := map c | c in chans :: if HasJob(schedule, c) then Closed else chans[c];
      assert ClosedFor(now, chans, schedule);
    }
    var now :| ClosedFor(now, chans, schedule);
    now
  }

  ghost function CloseStep(s: State): State {
    if s.closed then s
    else s.(closed := true, users := map[], workers := map[], queue := [], schedule := map[],
            chans := CloseChans(s.chans, s.schedule))
  }

  /**
   What the surroundings guarantee: identifiers are not reused, a client does one thing at a time,
   a receive happens only on a channel that has something to give, and time does not run backwards.
   */
  predicate Enabled(s: State, e: Event) {
    match e
    case AddWorker(w, now) => w !in s.workers && !Appears(s, w) && s.clock <= now
    case DeleteWorker(_) => true
    case AddUser(u) => u !in s.clients
    case DeleteUser(_) => true
    case Acquire(u, now, spare) => u in s.clients && s.clients[u].Resting? && spare !in s.chans && s.clock <= now
    case Receive(u) =>
      u in s.clients && s.clients[u].Waiting? && s.clients[u].ready in s.chans && !s.chans[s.clients[u].ready].Empty?
    case Timeout(u, now) =>
      u in s.clients && s.clients[u].Waiting? && s.clients[u].ready in s.chans && s.clock <= now
    case Release(u, now) => u in s.clients && s.clients[u].Holding? && s.clock <= now
    case Close => true
  }

  /** The identifier is still in some client's hands or on its way there. */
  predicate Appears(s: State, w: WorkerId) {
    || (exists u :: u in s.clients && s.clients[u] == Holding(w))
    || (exists c :: c in s.chans && s.chans[c].Full? && s.chans[c].worker == w)
  }

  function At(s: State, now: int): State {
    s.(clock := now)
  }

  function Rested(s: State, u: UserId): State {
    s.(clients := s.clients[u := Resting])
  }

  ghost function Next(s: State, e: Event): State
    requires Enabled(s, e)
  {
    match e
    case AddWorker(w, now) => AddWorkerStep(At(s, now), w, now)
    case DeleteWorker(w) => DeleteWorkerStep(s, w)
    case AddUser(u) => AddUserStep(Rested(s, u), u)
    case DeleteUser(u) => DeleteUserStep(s, u)
    case Acquire(u, now, spare) => AcquireStep(At(s, now), u, now, spare)
    case Receive(u) => Take(s, u, s.clients[u].ready)
    case Timeout(u, now) => TimeoutStep(At(s, now), u, s.clients[u].ready, now)
    case Release(u, now) => GiveBack(Rested(At(s, now), u), s.clients[u].worker, now)
    case Close => CloseStep(s)
  }

  const Initial := State(false, [], map[], 0, map[], map[], [], map[], map[], 0)

  // ---- the invariant ---------------------------------------------------------------------

  /** w is on its way to u or in u's hands. */
  predicate Has(s: State, u: UserId, w: WorkerId) {
    && u in s.clients
    && match s.clients[u]
       case Holding(v) => v == w
       case Waiting(c) => c in s.chans && s.chans[c].Full? && s.chans[c].worker == w
       case Resting => false
  }

  /**
   Idle workers are those handed to nobody, once each; every other live worker is with its user.
   The workers in `out` are between places.
   */
  ghost predicate WorkersPlaced(s: State, out: set<WorkerId>) {
    && Distinct(s.queue)
    && (forall w :: w in s.queue ==> w in s.workers && s.workers[w].user.None? && w !in out)
    && (forall w :: w in s.workers && s.workers[w].user.None? ==> w in s.queue || w in out)
    && (forall w :: w in s.workers && s.workers[w].user.Some? ==> Has(s, s.workers[w].user.value, w) && w !in out)
    && (forall u: UserId, w: WorkerId :: Has(s, u, w) && w in s.workers ==> s.workers[w].user == Some(u))
    && (forall w :: w in s.workers ==> s.workers[w].since <= s.clock)
    && (forall w :: w in out ==> w in s.workers)
  }

  /** A user is scheduled exactly when the slot at its stride holds its own job. */
  ghost predicate JobsOwned(s: State) {
    && (forall u :: u in s.users && s.users[u].scheduled ==>
          s.users[u].stride in s.schedule && s.schedule[s.users[u].stride].user == u)
    && (forall k :: k in s.schedule ==>
          var u := s.schedule[k].user;
          u in s.users && s.users[u].scheduled && s.users[u].stride == k)
    && (forall k :: k in s.schedule ==> s.floor <= k)
  }

  /** The client of a queued job waits on the job's channel, which is empty. */
  ghost predicate JobsAwaited(s: State) {
    forall k :: k in s.schedule ==>
      var j := s.schedule[k];
      j.ready in s.chans && s.chans[j.ready].Empty? && j.user in s.clients && s.clients[j.user] == Waiting(j.ready)
  }

  /** Whoever waits on an empty channel has a job with that channel; no two wait on the same. */
  ghost predicate WaitersServed(s: State) {
    && (forall u :: u in s.clients && s.clients[u].Waiting? ==>
          var c := s.clients[u].ready;
          c in s.chans && c !in s.cc &&
          (s.chans[c].Empty? ==>
             && u in s.users && s.users[u].scheduled && s.users[u].stride in s.schedule
             && s.schedule[s.users[u].stride].ready == c))
    && (forall u, v :: u in s.clients && v in s.clients && s.clients[u].Waiting? && s.clients[u] == s.clients[v] ==> u == v)
  }

  /** Pooled channels are empty, and a worker is only in the channel of the client it was sent to. */
  ghost predicate PoolClean(s: State) {
    && Distinct(s.cc) && (forall c :: c in s.cc ==> c in s.chans && s.chans[c].Empty?)
    && (forall c :: c in s.chans && s.chans[c].Full? ==> s.chans[c].to in s.clients && s.clients[s.chans[c].to] == Waiting(c))
    && (forall u :: u in s.users ==> u in s.clients)
  }

  ghost predicate ChansOwned(s: State) {
    JobsAwaited(s) && WaitersServed(s) && PoolClean(s)
  }

  ghost predicate Shut(s: State) {
    s.closed ==> s.queue == [] && s.workers == map[] && s.users == map[] && s.schedule == map[]
  }

  /** The invariant, but for workers in `out`, which have just been taken from their place. */
  ghost predicate InvBut(s: State, out: set<WorkerId>) {
    && JobsOwned(s) && ChansOwned(s) && WorkersPlaced(s, out)
    && (s.queue != [] ==> s.schedule == map[])
    && Shut(s)
  }

  ghost predicate Inv(s: State) {
    InvBut(s, {})
  }

  // ---- every step keeps the invariant ----------------------------------------------------

  lemma AtKeeps(s: State, now: int)
    requires Inv(s) && s.clock <= now
    ensures Inv(At(s, now))
  {
    var t := At(s, now);
    assert forall u: UserId, w: WorkerId :: Has(t, u, w) <==> Has(s, u, w);
  }

  /** Handing w to the first job: jobs, channels and workers one by one. */
  lemma GrantJobs(s: State, w: WorkerId, now: int)
    requires InvBut(s, {w}) && w in s.workers && s.schedule != map[]
    ensures JobsOwned(HandOut(s, w, now)) && s.floor <= HandOut(s, w, now).floor
  {
  }

  lemma GrantChans(s: State, w: WorkerId, now: int)
    requires InvBut(s, {w}) && w in s.workers && s.schedule != map[]
    ensures ChansOwned(HandOut(s, w, now))
  {
    var t := HandOut(s, w, now);
    var k := MinKey(s.schedule);
    var job := s.schedule[k];
    assert t.clients == s.clients && t.cc == s.cc;
    forall x | x in t.schedule
      ensures var j := t.schedule[x]; j.ready in t.chans && t.chans[j.ready].Empty?
    {
      assert s.schedule[x].user != job.user;
    }
  }

  lemma GrantWorkers(s: State, w: WorkerId)
    requires InvBut(s, {w}) && w in s.workers && s.schedule != map[]
    ensures WorkersPlaced(HandOut(s, w, s.clock), {})
  {
    var t := HandOut(s, w, s.clock);
    var job := s.schedule[MinKey(s.schedule)];
    assert t.queue == s.queue == [];
    forall u: UserId, v: WorkerId
      ensures Has(t, u, v) <==> if u == job.user then v == w else Has(s, u, v)
    {
    }
  }

  lemma ParkWorkers(s: State, w: WorkerId)
    requires WorkersPlaced(s, {w}) && w in s.workers
    ensures WorkersPlaced(s.(queue := s.queue + [w]), {})
  {
    var t := s.(queue := s.queue + [w]);
    assert forall u: UserId, v: WorkerId :: Has(t, u, v) <==> Has(s, u, v);
  }

  lemma HandOutKeeps(s: State, w: WorkerId)
    requires InvBut(s, {w}) && w in s.workers
    ensures Inv(HandOut(s, w, s.clock)) && s.floor <= HandOut(s, w, s.clock).floor
  {
    hide WorkersPlaced;
    if s.schedule != map[] {
      GrantJobs(s, w, s.clock);
      GrantChans(s, w, s.clock);
      GrantWorkers(s, w);
    } else {
      ParkWorkers(s, w);
    }
  }

  /** A client that waits for nothing may rest without disturbing jobs and channels. */
  lemma RestChans(s: State, u: UserId)
    requires ChansOwned(s) && JobsOwned(s) && u in s.clients && !s.clients[u].Waiting?
    ensures ChansOwned(Rested(s, u)) && JobsOwned(Rested(s, u))
  {
    var t := Rested(s, u);
    assert forall v :: v in t.clients && t.clients[v].Waiting? ==> v != u && v in s.clients && t.clients[v] == s.clients[v];
  }

  lemma ChargeJobs(s: State, u: UserId, w: WorkerId, now: int)
    requires JobsOwned(s) && ChansOwned(s) && u in s.clients && s.clients[u] == Resting
    requires w in s.workers && s.workers[w].user == Some(u)
    ensures JobsOwned(Charge(s, w, now)) && ChansOwned(Charge(s, w, now))
  {
  }

  lemma ChargeWorkers(s: State, u: UserId, w: WorkerId)
    requires Inv(s) && u in s.clients && s.clients[u] == Holding(w) && w in s.workers
    ensures s.workers[w].user == Some(u)
    ensures WorkersPlaced(Charge(Rested(s, u), w, s.clock), {w})
  {
    assert Has(s, u, w);
    var t := Charge(Rested(s, u), w, s.clock);
    forall v: UserId, x: WorkerId
      ensures Has(t, v, x) <==> v != u && Has(s, v, x)
    {
    }
  }

  lemma RestWorkers(s: State, u: UserId)
    requires WorkersPlaced(s, {}) && u in s.clients && forall w: WorkerId :: Has(s, u, w) ==> w !in s.workers
    ensures WorkersPlaced(Rested(s, u), {})
  {
    var t := Rested(s, u);
    assert forall v: UserId, x: WorkerId :: Has(t, v, x) <==> v != u && Has(s, v, x);
  }

  lemma ReleaseMid(s: State, u: UserId)
    requires Inv(s) && u in s.clients && s.clients[u].Holding? && !s.closed && s.clients[u].worker in s.workers
    ensures s.workers[s.clients[u].worker].user == Some(u)
    ensures InvBut(Charge(Rested(s, u), s.clients[u].worker, s.clock), {s.clients[u].worker})
  {
    hide JobsOwned, ChansOwned, WorkersPlaced;
    var w := s.clients[u].worker;
    RestChans(s, u);
    ChargeWorkers(s, u, w);
    ChargeJobs(Rested(s, u), u, w, s.clock);
  }

  lemma ReleaseKeeps(s: State, u: UserId)
    requires Inv(s) && u in s.clients && s.clients[u].Holding?
    ensures var t := GiveBack(Rested(s, u), s.clients[u].worker, s.clock);
      Inv(t) && s.floor <= t.floor
  {
    hide JobsOwned, ChansOwned, WorkersPlaced;
    var w := s.clients[u].worker;
    RestChans(s, u);
    if s.closed || w !in s.workers {
      RestWorkers(s, u);
    } else {
      ReleaseMid(s, u);
      HandOutKeeps(Charge(Rested(s, u), w, s.clock), w);
    }
  }

  lemma JoinWorkers(s: State, w: WorkerId)
    requires WorkersPlaced(s, {}) && w !in s.workers && !Appears(s, w)
    ensures WorkersPlaced(s.(workers := s.workers[w := Worker(None, s.clock)]), {w})
  {
    var t := s.(workers := s.workers[w := Worker(None, s.clock)]);
    forall u: UserId, x: WorkerId
      ensures Has(t, u, x) <==> Has(s, u, x)
      ensures Has(s, u, x) ==> x != w
    {
    }
  }

  lemma AddWorkerMid(s: State, w: WorkerId)
    requires Inv(s) && w !in s.workers && !Appears(s, w) && !s.closed
    ensures InvBut(s.(workers := s.workers[w := Worker(None, s.clock)]), {w})
  {
    hide JobsOwned, ChansOwned, WorkersPlaced;
    JoinWorkers(s, w);
    SameButPlaces(s, s.(workers := s.workers[w := Worker(None, s.clock)]));
  }

  /** What is said of jobs and channels does not depend on the workers. */
  lemma SameButPlaces(s: State, t: State)
    requires t == s.(workers := t.workers, queue := t.queue) && JobsOwned(s) && ChansOwned(s)
    ensures JobsOwned(t) && ChansOwned(t)
  {
  }

  lemma AddWorkerKeeps(s: State, w: WorkerId)
    requires Inv(s) && w !in s.workers && !Appears(s, w)
    ensures Inv(AddWorkerStep(s, w, s.clock)) && s.floor <= AddWorkerStep(s, w, s.clock).floor
  {
    if !s.closed {
      AddWorkerMid(s, w);
      HandOutKeeps(s.(workers := s.workers[w := Worker(None, s.clock)]), w);
    }
  }

  lemma DeleteWorkerPlaces(s: State, w: WorkerId)
    requires WorkersPlaced(s, {}) && !s.closed && w in s.workers
    ensures WorkersPlaced(DeleteWorkerStep(s, w), {})
    ensures DeleteWorkerStep(s, w).queue != [] ==> s.queue != []
  {
    hide Without;
    var t := DeleteWorkerStep(s, w);
    WithoutIs(s.queue, w);
    assert forall u: UserId, x: WorkerId :: Has(t, u, x) <==> Has(s, u, x);
    hide Has;
    if t.queue != [] {
      assert t.queue[0] in t.queue;
    }
  }

  lemma DeleteWorkerKeeps(s: State, w: WorkerId)
    requires Inv(s)
    ensures Inv(DeleteWorkerStep(s, w))
  {
    hide JobsOwned, JobsAwaited, WaitersServed, PoolClean, WorkersPlaced;
    if !s.closed && w in s.workers {
      DeleteWorkerPlaces(s, w);
      var t := DeleteWorkerStep(s, w);
      SameButPlaces(s, t);
    }
  }

  lemma AddUserKeeps(s: State, u: UserId)
    requires Inv(s) && u !in s.clients
    ensures Inv(AddUserStep(Rested(s, u), u))
  {
    hide JobsOwned, JobsAwaited, WaitersServed, PoolClean, WorkersPlaced, Start;
    AddUserJobs(s, u);
    AddUserWaiters(s, u);
    AddUserPool(s, u);
    AddUserWorkers(s, u);
  }

  lemma AddUserWorkers(s: State, u: UserId)
    requires WorkersPlaced(s, {}) && u !in s.clients
    ensures WorkersPlaced(AddUserStep(Rested(s, u), u), {})
  {
    hide Start;
    var t := AddUserStep(Rested(s, u), u);
    assert forall v: UserId, x: WorkerId :: Has(t, v, x) <==> Has(s, v, x);
    hide Has;
  }

  lemma AddUserJobs(s: State, u: UserId)
    requires JobsOwned(s) && JobsAwaited(s) && PoolClean(s) && u !in s.clients
    ensures JobsOwned(AddUserStep(Rested(s, u), u)) && JobsAwaited(AddUserStep(Rested(s, u), u))
  {
    hide Start;
    assert u !in s.users;
  }

  lemma AddUserWaiters(s: State, u: UserId)
    requires WaitersServed(s) && PoolClean(s) && u !in s.clients
    ensures WaitersServed(AddUserStep(Rested(s, u), u))
  {
    hide Start;
    assert u !in s.users;
  }

  lemma AddUserPool(s: State, u: UserId)
    requires PoolClean(s) && u !in s.clients
    ensures PoolClean(AddUserStep(Rested(s, u), u))
  {
    hide Start;
  }

  lemma DeleteUserJobs(s: State, u: UserId)
    requires JobsOwned(s) && JobsAwaited(s) && WaitersServed(s) && !s.closed && u in s.users
    ensures JobsOwned(DeleteUserStep(s, u)) && JobsAwaited(DeleteUserStep(s, u))
  {
    if s.users[u].scheduled {
      var ready := s.schedule[s.users[u].stride].ready;
      assert s.clients[u] == Waiting(ready);
      forall k | k in s.schedule && k != s.users[u].stride
        ensures s.schedule[k].ready != ready && s.schedule[k].user != u
      {
        assert s.clients[s.schedule[k].user] == Waiting(s.schedule[k].ready);
      }
    }
  }

  lemma DeleteUserChans(s: State, u: UserId)
    requires JobsOwned(s) && ChansOwned(s) && !s.closed && u in s.users
    ensures WaitersServed(DeleteUserStep(s, u)) && PoolClean(DeleteUserStep(s, u))
  {
    if s.users[u].scheduled {
      assert s.clients[u] == Waiting(s.schedule[s.users[u].stride].ready);
    }
  }

  lemma DeleteUserKeeps(s: State, u: UserId)
    requires Inv(s)
    ensures Inv(DeleteUserStep(s, u))
  {
    hide WaitersServed, PoolClean;
    if !s.closed && u in s.users {
      DeleteUserJobs(s, u);
      DeleteUserChans(s, u);
      var t := DeleteUserStep(s, u);
      assert forall v: UserId, x: WorkerId :: Has(t, v, x) <==> Has(s, v, x);
    }
  }

  lemma LastTaken(q: seq<WorkerId>)
    requires q != [] && Distinct(q)
    ensures var w, r := q[|q| - 1], q[..|q| - 1];
      Distinct(r) && w !in r && forall x :: x in q <==> x in r || x == w
  {
  }

  /** An idle worker is taken from the end of the queue. */
  lemma AcquireIdleWorkers(s: State, u: UserId, spare: ChanId)
    requires WorkersPlaced(s, {}) && u in s.clients && s.clients[u].Resting? && !s.closed && u in s.users && s.queue != []
    ensures WorkersPlaced(AcquireStep(s, u, s.clock, spare), {})
  {
    var t := AcquireStep(s, u, s.clock, spare);
    var w := s.queue[|s.queue| - 1];
    LastTaken(s.queue);
    forall v: UserId, x: WorkerId
      ensures Has(t, v, x) <==> if v == u then x == w else Has(s, v, x)
    {
    }
    assert !Has(s, u, w);
    hide Distinct;
  }

  lemma AcquireIdle(s: State, u: UserId, spare: ChanId)
    requires Inv(s) && u in s.clients && s.clients[u].Resting? && !s.closed && u in s.users && s.queue != []
    ensures Inv(AcquireStep(s, u, s.clock, spare))
  {
    hide WorkersPlaced;
    AcquireIdleWorkers(s, u, spare);
  }

  lemma AcquireJobs(s: State, u: UserId, spare: ChanId)
    requires Inv(s) && u in s.clients && s.clients[u].Resting? && !s.closed && u in s.users && s.queue == []
    requires spare !in s.chans
    ensures JobsOwned(AcquireStep(s, u, s.clock, spare)) && JobsAwaited(AcquireStep(s, u, s.clock, spare))
  {
    assert !s.users[u].scheduled;
  }

  /** The channel a client starts to wait on is empty, no longer pooled, and nobody else's. */
  lemma AcquireReady(s: State, u: UserId, spare: ChanId)
    requires ChansOwned(s) && u in s.clients && s.clients[u].Resting?
    requires !s.closed && u in s.users && s.queue == [] && spare !in s.chans
    ensures var t := AcquireStep(s, u, s.clock, spare);
      && t.clients[u].Waiting?
      && var ready := t.clients[u].ready;
         && ready in t.chans && t.chans[ready].Empty? && ready !in t.cc
         && (forall v | v in s.clients && s.clients[v].Waiting? :: s.clients[v].ready != ready)
         && (forall c | c in s.chans :: c in t.chans && t.chans[c] == s.chans[c])
         && (forall c | c in t.cc :: c in s.cc)
  {
    hide FirstFree;
    var t := AcquireStep(s, u, s.clock, spare);
    if s.cc != [] {
      assert s.cc == t.cc + [t.clients[u].ready];
    }
  }

  lemma AcquireWaiters(s: State, u: UserId, spare: ChanId)
    requires JobsOwned(s) && ChansOwned(s) && u in s.clients && s.clients[u].Resting?
    requires !s.closed && u in s.users && s.queue == [] && spare !in s.chans
    ensures WaitersServed(AcquireStep(s, u, s.clock, spare))
  {
    var t := AcquireStep(s, u, s.clock, spare);
    AcquireReady(s, u, spare);
    assert !s.users[u].scheduled;
    hide PoolClean, JobsAwaited, FirstFree;
    forall v | v in t.clients && t.clients[v].Waiting? && v != u
      ensures v in s.clients && t.clients[v] == s.clients[v]
      ensures t.clients[v].ready in t.chans && t.clients[v].ready !in t.cc
      ensures t.chans[t.clients[v].ready].Empty? ==>
        && v in t.users && t.users[v].scheduled && t.users[v].stride in t.schedule
        && t.schedule[t.users[v].stride].ready == t.clients[v].ready
    {
    }
  }

  lemma AcquirePool(s: State, u: UserId, spare: ChanId)
    requires PoolClean(s) && u in s.clients && s.clients[u].Resting?
    requires !s.closed && u in s.users && s.queue == [] && spare !in s.chans
    ensures PoolClean(AcquireStep(s, u, s.clock, spare))
  {
    var t := AcquireStep(s, u, s.clock, spare);
    if s.cc != [] {
      assert s.cc == t.cc + [t.clients[u].ready];
      assert forall c :: c in t.cc ==> c in s.cc;
    }
  }

  lemma AcquireWorkers(s: State, u: UserId, spare: ChanId)
    requires Inv(s) && u in s.clients && s.clients[u].Resting? && !s.closed && u in s.users && s.queue == []
    requires spare !in s.chans
    ensures WorkersPlaced(AcquireStep(s, u, s.clock, spare), {})
  {
    var t := AcquireStep(s, u, s.clock, spare);
    var ready := t.clients[u].ready;
    if s.cc != [] {
      assert ready in s.cc;
    }
    forall v: UserId, x: WorkerId
      ensures Has(t, v, x) <==> Has(s, v, x)
    {
    }
  }

  lemma AcquireKeeps(s: State, u: UserId, spare: ChanId)
    requires Inv(s) && u in s.clients && s.clients[u].Resting? && spare !in s.chans
    ensures Inv(AcquireStep(s, u, s.clock, spare))
  {
    hide WorkersPlaced, JobsOwned, JobsAwaited, WaitersServed, PoolClean;
    if !s.closed && u in s.users {
      if s.queue != [] {
        AcquireIdle(s, u, spare);
      } else {
        AcquireJobs(s, u, spare);
        AcquireWaiters(s, u, spare);
        AcquirePool(s, u, spare);
        AcquireWorkers(s, u, spare);
      }
    }
  }

  ghost predicate CanTake(s: State, u: UserId) {
    && u in s.clients && s.clients[u].Waiting?
    && s.clients[u].ready in s.chans && !s.chans[s.clients[u].ready].Empty?
  }

  lemma TakeJobs(s: State, u: UserId)
    requires JobsOwned(s) && JobsAwaited(s) && CanTake(s, u)
    ensures JobsOwned(Take(s, u, s.clients[u].ready)) && JobsAwaited(Take(s, u, s.clients[u].ready))
  {
  }

  lemma TakeWaiters(s: State, u: UserId)
    requires WaitersServed(s) && CanTake(s, u)
    ensures WaitersServed(Take(s, u, s.clients[u].ready))
  {
    var t := Take(s, u, s.clients[u].ready);
    assert forall v :: v in t.clients && t.clients[v].Waiting? ==> v != u && v in s.clients && t.clients[v] == s.clients[v];
  }

  lemma TakePool(s: State, u: UserId)
    requires WaitersServed(s) && PoolClean(s) && CanTake(s, u)
    ensures PoolClean(Take(s, u, s.clients[u].ready))
  {
  }

  lemma TakeWorkers(s: State, u: UserId)
    requires WaitersServed(s) && WorkersPlaced(s, {}) && CanTake(s, u)
    ensures WorkersPlaced(Take(s, u, s.clients[u].ready), {})
  {
    var t := Take(s, u, s.clients[u].ready);
    forall v: UserId, x: WorkerId
      ensures Has(t, v, x) <==> Has(s, v, x)
    {
    }
    hide Has;
  }

  lemma TakeKeeps(s: State, u: UserId)
    requires Inv(s) && CanTake(s, u)
    ensures Inv(Take(s, u, s.clients[u].ready))
  {
    hide WorkersPlaced, JobsOwned, JobsAwaited, WaitersServed, PoolClean;
    TakeJobs(s, u);
    TakeWaiters(s, u);
    TakePool(s, u);
    TakeWorkers(s, u);
  }

  /**
   The slot the timeout branch looks at is empty or holds the job of the client that timed out.
   After a lost race it may instead hold the job of a user queued since then.
   */
  predicate OwnSlot(s: State, u: UserId) {
    u in s.users && s.users[u].stride in s.schedule ==> s.schedule[s.users[u].stride].user == u
  }

  lemma WithdrawChans(s: State, u: UserId)
    requires JobsOwned(s) && ChansOwned(s) && u in s.clients && s.clients[u].Waiting?
    requires u in s.users && s.users[u].stride in s.schedule && OwnSlot(s, u)
    ensures var t := TimeoutStep(s, u, s.clients[u].ready, s.clock);
      JobsOwned(t) && JobsAwaited(t) && WaitersServed(t)
  {
    var t := TimeoutStep(s, u, s.clients[u].ready, s.clock);
    assert s.clients[u] == Waiting(s.schedule[s.users[u].stride].ready);
    assert forall v :: v in t.clients && t.clients[v].Waiting? ==> v != u && v in s.clients && t.clients[v] == s.clients[v];
    assert forall v :: v in s.clients && v != u && s.clients[v].Waiting? ==> s.clients[v].ready != s.clients[u].ready;
  }

  lemma WithdrawWorkers(s: State, u: UserId)
    requires JobsOwned(s) && ChansOwned(s) && WorkersPlaced(s, {}) && u in s.clients && s.clients[u].Waiting?
    requires u in s.users && s.users[u].stride in s.schedule && OwnSlot(s, u)
    ensures var t := TimeoutStep(s, u, s.clients[u].ready, s.clock);
      PoolClean(t) && WorkersPlaced(t, {})
  {
    var t := TimeoutStep(s, u, s.clients[u].ready, s.clock);
    assert s.clients[u] == Waiting(s.schedule[s.users[u].stride].ready);
    forall v: UserId, x: WorkerId
      ensures Has(t, v, x) <==> Has(s, v, x)
    {
    }
  }

  /** The receive in the timeout branch, made while holding the lock, never blocks. */
  lemma LostRaceHasWorker(s: State, u: UserId)
    requires Inv(s) && u in s.clients && s.clients[u].Waiting?
    requires u in s.users ==> s.users[u].stride !in s.schedule
    ensures CanTake(s, u)
  {
  }

  lemma TimeoutWithdraws(s: State, u: UserId, c: ChanId)
    requires Inv(s) && u in s.clients && s.clients[u] == Waiting(c) && c in s.chans && OwnSlot(s, u)
    requires u in s.users && s.users[u].stride in s.schedule
    ensures Inv(TimeoutStep(s, u, c, s.clock)) && TimeoutStep(s, u, c, s.clock).floor == s.floor
  {
    hide WorkersPlaced, JobsOwned, JobsAwaited, WaitersServed, PoolClean;
    WithdrawChans(s, u);
    WithdrawWorkers(s, u);
  }

  lemma TimeoutReleases(s: State, u: UserId, c: ChanId)
    requires Inv(s) && u in s.clients && s.clients[u] == Waiting(c) && c in s.chans
    requires u !in s.users && s.chans[c].Full?
    ensures Inv(TimeoutStep(s, u, c, s.clock)) && s.floor <= TimeoutStep(s, u, c, s.clock).floor
  {
    hide Inv, GiveBack;
    TakeKeeps(s, u);
    var t := Take(s, u, c);
    ReleaseKeeps(t, u);
    assert Rested(t, u) == s.(clients := s.clients[u := Resting], chans := s.chans[c := Empty], cc := s.cc + [c]);
  }

  lemma TimeoutKeeps(s: State, u: UserId, c: ChanId)
    requires Inv(s) && u in s.clients && s.clients[u] == Waiting(c) && c in s.chans && OwnSlot(s, u)
    ensures Inv(TimeoutStep(s, u, c, s.clock)) && s.floor <= TimeoutStep(s, u, c, s.clock).floor
  {
    hide Inv, GiveBack;
    if u in s.users && s.users[u].stride in s.schedule {
      TimeoutWithdraws(s, u, c);
    } else {
      LostRaceHasWorker(s, u);
      if u !in s.users && s.chans[c].Full? {
        TimeoutReleases(s, u, c);
      } else {
        TakeKeeps(s, u);
      }
    }
  }

  lemma CloseKeeps(s: State)
    requires Inv(s)
    ensures Inv(CloseStep(s))
  {
    if !s.closed {
      var t := CloseStep(s);
      forall u: UserId | u in s.clients && s.clients[u].Waiting?
        ensures !t.chans[s.clients[u].ready].Empty?
      {
        if s.chans[s.clients[u].ready].Empty? {
          assert s.schedule[s.users[u].stride].ready == s.clients[u].ready;
        }
      }
      forall c | c in s.chans && s.chans[c].Full?
        ensures t.chans[c] == s.chans[c]
      {
      }
      forall c | c in s.cc
        ensures t.chans[c].Empty?
      {
        assert forall k :: k in s.schedule ==> s.clients[s.schedule[k].user] == Waiting(s.schedule[k].ready);
      }
    }
  }

  /** Steps of the surroundings that respect the timeout premise. */
  predicate Allowed(s: State, e: Event) {
    Enabled(s, e) && (e.Timeout? ==> OwnSlot(s, e.user))
  }

  /** Every allowed step keeps the invariant, and the floor never falls. */
  lemma NextKeeps(s: State, e: Event)
    requires Inv(s) && Allowed(s, e)
    ensures Inv(Next(s, e)) && s.floor <= Next(s, e).floor
  {
    hide Inv, AcquireStep, TimeoutStep, GiveBack, AddWorkerStep;
    if e.AddWorker? || e.Acquire? || e.Timeout? || e.Release? {
      AtKeeps(s, e.now);
    }
    match e
    case AddWorker(w, now) => AddWorkerKeeps(At(s, now), w);
    case DeleteWorker(w) => DeleteWorkerKeeps(s, w);
    case AddUser(u) => AddUserKeeps(s, u);
    case DeleteUser(u) => DeleteUserKeeps(s, u);
    case Acquire(u, now, spare) => AcquireKeeps(At(s, now), u, spare); AcquireFloor(At(s, now), u, spare);
    case Receive(u) => TakeKeeps(s, u);
    case Timeout(u, now) => TimeoutKeeps(At(s, now), u, s.clients[u].ready);
    case Release(u, now) => ReleaseKeeps(At(s, now), u);
    case Close => CloseKeeps(s);
  }

  lemma AcquireFloor(s: State, u: UserId, spare: ChanId)
    ensures AcquireStep(s, u, s.clock, spare).floor == s.floor
  {
  }

  // ---- whole runs ------------------------------------------------------------------------

  ghost predicate Run(s: State, es: seq<Event>)
    decreases |es|
  {
    es == [] || (Allowed(s, es[0]) && Run(Next(s, es[0]), es[1..]))
  }

  ghost function After(s: State, es: seq<Event>): State
    requires Run(s, es)
    decreases |es|
  {
    if es == [] then s else After(Next(s, es[0]), es[1..])
  }

  lemma {:induction false} RunKeeps(s: State, es: seq<Event>)
    requires Inv(s) && Run(s, es)
    ensures Inv(After(s, es)) && s.floor <= After(s, es).floor
    decreases |es|
  {
    if es != [] {
      NextKeeps(s, es[0]);
      RunKeeps(Next(s, es[0]), es[1..]);
    }
  }

  /** Each live worker is idle, in one Ready channel or with one holder, and only there. */
  lemma OnePlace(s: State, w: WorkerId)
    requires Inv(s) && w in s.workers
    ensures w in s.queue <==> !exists u: UserId :: Has(s, u, w)
    ensures forall u: UserId, v: UserId :: Has(s, u, w) && Has(s, v, w) ==> u == v
    ensures forall c :: c in s.chans && s.chans[c].Full? && s.chans[c].worker == w ==> Has(s, s.chans[c].to, w)
    ensures forall i, j :: 0 <= i < j < |s.queue| && s.queue[i] == w ==> s.queue[j] != w
  {
    if s.workers[w].user.Some? {
      assert Has(s, s.workers[w].user.value, w);
    }
  }

  /** A new scheduler satisfies the invariant. */
  lemma InitialHolds()
    ensures Inv(Initial)
  {
  }

  /** At every point of every run a live worker is in exactly one place. */
  lemma AlwaysOnePlace(es: seq<Event>, w: WorkerId)
    requires Run(Initial, es) && w in After(Initial, es).workers
    ensures var s := After(Initial, es);
      && (w in s.queue <==> !exists u: UserId :: Has(s, u, w))
      && (forall u: UserId, v: UserId :: Has(s, u, w) && Has(s, v, w) ==> u == v)
      && (forall i, j :: 0 <= i < j < |s.queue| && s.queue[i] == w ==> s.queue[j] != w)
  {
    hide Inv, Run, After;
    InitialHolds();
    RunKeeps(Initial, es);
    OnePlace(After(Initial, es), w);
  }

  /**
   At every point of every run no worker is idle while a job is queued, a user is marked as
   scheduled if and only if the slot at its stride holds its own job, and no job is below the floor.
   */
  lemma AlwaysOrdered(es: seq<Event>)
    requires Run(Initial, es)
    ensures var s := After(Initial, es);
      && (s.queue == [] || s.schedule == map[])
      && (forall u | u in s.users ::
            s.users[u].scheduled <==> s.users[u].stride in s.schedule && s.schedule[s.users[u].stride].user == u)
      && (forall k | k in s.schedule :: s.floor <= k)
  {
    hide Run, After, Next;
    InitialHolds();
    RunKeeps(Initial, es);
  }

  /** The timeout branch keeps the invariant exactly when the slot it empties is not someone else's. */
  lemma TimeoutKeepsIff(s: State, u: UserId, c: ChanId)
    requires Inv(s) && u in s.clients && s.clients[u] == Waiting(c) && c in s.chans
    ensures Inv(TimeoutStep(s, u, c, s.clock)) <==> OwnSlot(s, u)
  {
    if OwnSlot(s, u) {
      TimeoutKeeps(s, u, c);
    } else {
      var k := s.users[u].stride;
      var v := s.schedule[k].user;
      var t := TimeoutStep(s, u, c, s.clock);
      assert v in t.users && t.users[v].scheduled && t.users[v].stride == k && k !in t.schedule;
    }
  }
}
