/**
 The Scheduler of lib/rob/schedulers/v3/scheduler.go: its fields updated in place under a lock,
 its run queue the red-black tree of module RBTree. Each method is one critical section and is
 proved to be the step of SchedulerSpec that models it. Channels are part of the state; the clock
 reading and the channel that make would create are parameters.
 */
module Scheduler {
  import opened Collections
  import opened SchedulerSpec
  import RBTree
  import RBTreeSpec

  class Scheduler {
    var cc: seq<ChanId>
    var chans: map<ChanId, Chan>
    var closed: bool
    var queue: seq<WorkerId>
    var workers: map<WorkerId, Worker>
    var floor: int
    var users: map<UserId, User>
    const schedule: RBTree.RBTree<Job>
    ghost var clients: map<UserId, Client>
    ghost var clock: int

    ghost predicate Sound()
      reads this, schedule, schedule.pool, RBTreeSpec.Ids(schedule.tree)
    {
      schedule.Valid()
    }

    ghost function View(): State
      reads this, schedule
    {
      State(closed, queue, workers, floor, users, schedule.Contents(), cc, chans, clients, clock)
    }

    constructor ()
      ensures Sound() && View() == Initial && Inv(View()) && fresh(schedule) && fresh(schedule.Nodes())
    {
      cc, chans, closed, queue, workers := [], map[], false, [], map[];
      floor, users, clients, clock := 0, map[], map[], 0;
      schedule := new RBTree.RBTree(Job(0, 0));
      new;
      InitialHolds();
    }

    /** releaseWorker up to the point where the worker is free. */
    method ChargeUser(w: WorkerId, now: int)
      requires Sound() && w in workers
      modifies this`workers, this`users
      ensures Sound() && w in workers && View() == Charge(old(View()), w, now)
    {
      var worker := workers[w];
      if worker.user.Some? {
        var u := worker.user.value;
        if u in users {
          users := users[u := users[u].(stride := users[u].stride + (now - worker.since))];
        }
        workers := workers[w := Worker(None, now)];
      }
    }

    method ReleaseWorker(w: WorkerId, now: int)
      requires Sound() && w in workers
      modifies this`workers, this`users, this`queue, this`floor, this`chans, schedule, schedule.Nodes()
      ensures Sound() && View() == SchedulerSpec.ReleaseWorker(old(View()), w, now)
      ensures fresh(schedule.Nodes() - old(schedule.Nodes()))
    {
      hide RBTree.RBTree.Valid, RBTreeSpec.Model, RBTreeSpec.Ids, RBTree.RBTree.Contents, Charge;
      ChargeUser(w, now);
      ghost var s := View();
      var stride, job, ok := schedule.Min();
      if !ok {
        queue := queue + [w];
        return;
      }
      assert stride == MinKey(s.schedule);
      floor := stride;
      schedule.Delete(stride);
      if job.user in users {
        users := users[job.user := users[job.user].(scheduled := false)];
      }
      workers := workers[w := Worker(Some(job.user), now)];
      chans := chans[job.ready := Full(w, job.user)];
      assert View() == HandOut(s, w, now);
    }

    method AddWorker(id: WorkerId, now: int)
      requires Sound() && Inv(View()) && Allowed(View(), Event.AddWorker(id, now))
      modifies this`workers, this`users, this`queue, this`floor, this`chans, this`clock, schedule, schedule.Nodes()
      ensures Sound() && View() == Next(old(View()), Event.AddWorker(id, now)) && Inv(View())
      ensures fresh(schedule.Nodes() - old(schedule.Nodes()))
    {
      hide RBTree.RBTree.Valid, RBTreeSpec.Ids, SchedulerSpec.ReleaseWorker, Inv;
      NextKeeps(View(), Event.AddWorker(id, now));
      clock := now;
      if closed {
        return;
      }
      workers := workers[id := Worker(None, now)];
      ghost var nodes := schedule.Nodes();
      label locked:
      ReleaseWorker(id, now);
      assert forall o | o in schedule.Nodes() && o !in nodes :: fresh@locked(o);
    }

    method DeleteWorker(worker: WorkerId)
      requires Sound() && Inv(View())
      modifies this`workers, this`queue
      ensures Sound() && View() == Next(old(View()), Event.DeleteWorker(worker)) && Inv(View())
    {
      hide Inv;
      NextKeeps(View(), Event.DeleteWorker(worker));
      if closed || worker !in workers {
        return;
      }
      workers := workers - {worker};
      var nodes := RBTree.Footprint(schedule.tree);
      var q := RemoveFrom(queue, worker);
      queue := q;
    }

    method AddUser(user: UserId)
      requires Sound() && Inv(View()) && Allowed(View(), Event.AddUser(user))
      modifies this`users, this`clients
      ensures Sound() && View() == Next(old(View()), Event.AddUser(user)) && Inv(View())
    {
      hide Inv;
      NextKeeps(View(), Event.AddUser(user));
      clients := clients[user := Resting];
      if closed {
        return;
      }
      var stride := floor;
      var s, _, ok := schedule.Max();
      if ok {
        stride := s + 1;
      }
      assert IsStart(schedule.Contents(), floor, stride);
      users := users[user := User(stride, false)];
    }

    method DeleteUser(user: UserId)
      requires Sound() && Inv(View())
      modifies this`users, this`chans, schedule, schedule.Nodes()
      ensures Sound() && View() == Next(old(View()), Event.DeleteUser(user)) && Inv(View())
      ensures fresh(schedule.Nodes() - old(schedule.Nodes()))
    {
      hide RBTree.RBTree.Valid, RBTreeSpec.Ids, Inv;
      NextKeeps(View(), Event.DeleteUser(user));
      if closed || user !in users {
        return;
      }
      var u := users[user];
      users := users - {user};
      if u.scheduled {
        var j, ok := schedule.Get(u.stride);
        if ok {
          chans := chans[j.ready := Closed];
          schedule.Delete(u.stride);
        }
      }
    }

    /**
     The first critical section of Acquire: an idle worker, or a channel to wait on. `spare` is the
     channel that make would return.
     */
    method AcquireLocked(user: UserId, now: int, spare: ChanId) returns (v: Option<WorkerId>, c: Option<ChanId>)
      requires Sound()
      modifies this`queue, this`workers, this`users, this`cc, this`chans, this`clients, schedule, schedule.Nodes()
      ensures Sound() && View() == AcquireStep(old(View()), user, now, spare)
      ensures fresh(schedule.Nodes() - old(schedule.Nodes()))
      ensures v.Some? ==> user in clients && clients[user] == Holding(v.value) && c.None?
      ensures c.Some? ==> user in clients && clients[user] == Waiting(c.value)
      ensures v.None? && c.None? <==> closed || user !in users
    {
      hide RBTree.RBTree.Valid, RBTreeSpec.Ids, FirstFree;
      if closed || user !in users {
        return None, None;
      }
      if |queue| > 0 {
        var worker := queue[|queue| - 1];
        queue := queue[..|queue| - 1];
        workers := workers[worker := Worker(Some(user), now)];
        clients := clients[user := Holding(worker)];
        return Some(worker), None;
      }
      var ready := spare;
      if |cc| > 0 {
        ready := cc[|cc| - 1];
        cc := cc[..|cc| - 1];
      } else {
        chans := chans[spare := Empty];
      }
      var stride := FindSlot(if users[user].stride < floor then floor else users[user].stride);
      schedule.Set(stride, Job(user, ready));
      users := users[user := User(stride, true)];
      clients := clients[user := Waiting(ready)];
      return None, Some(ready);
    }

    method Acquire(user: UserId, now: int, spare: ChanId) returns (v: Option<WorkerId>, c: Option<ChanId>)
      requires Sound() && Inv(View()) && Allowed(View(), Event.Acquire(user, now, spare))
      modifies this`queue, this`workers, this`users, this`cc, this`chans, this`clients, this`clock, schedule, schedule.Nodes()
      ensures Sound() && View() == Next(old(View()), Event.Acquire(user, now, spare)) && Inv(View())
      ensures fresh(schedule.Nodes() - old(schedule.Nodes()))
      ensures v.Some? ==> user in clients && clients[user] == Holding(v.value) && c.None?
      ensures c.Some? ==> user in clients && clients[user] == Waiting(c.value)
      ensures v.None? && c.None? <==> closed || user !in users
    {
      hide RBTree.RBTree.Valid, RBTreeSpec.Ids, Inv, AcquireStep;
      NextKeeps(View(), Event.Acquire(user, now, spare));
      clock := now;
      ghost var nodes := schedule.Nodes();
      label locked:
      v, c := AcquireLocked(user, now, spare);
      assert forall o | o in schedule.Nodes() && o !in nodes :: fresh@locked(o);
    }

    /** The probing loop of Acquire. */
    method FindSlot(from: int) returns (stride: int)
      requires Sound()
      ensures Sound() && stride == FirstFree(schedule.Contents(), from)
    {
      hide RBTree.RBTree.Valid, RBTreeSpec.Ids;
      stride := from;
      var job, ok := schedule.Get(stride);
      while ok
        invariant Sound() && ok == (stride in schedule.Contents())
        invariant FirstFree(schedule.Contents(), stride) == FirstFree(schedule.Contents(), from)
        decreases FirstFree(schedule.Contents(), from) - stride
      {
        stride := stride + 1;
        job, ok := schedule.Get(stride);
      }
    }

    /** release */
    method GiveBack(worker: WorkerId, now: int)
      requires Sound()
      modifies this`workers, this`users, this`queue, this`floor, this`chans, schedule, schedule.Nodes()
      ensures Sound() && View() == SchedulerSpec.GiveBack(old(View()), worker, now)
      ensures fresh(schedule.Nodes() - old(schedule.Nodes()))
    {
      hide RBTree.RBTree.Valid, RBTreeSpec.Ids, SchedulerSpec.ReleaseWorker;
      if closed || worker !in workers {
        return;
      }
      ReleaseWorker(worker, now);
    }

    method Release(user: UserId, worker: WorkerId, now: int)
      requires Sound() && Inv(View()) && Allowed(View(), Event.Release(user, now)) && clients[user].worker == worker
      modifies this`workers, this`users, this`queue, this`floor, this`chans, this`clients, this`clock, schedule, schedule.Nodes()
      ensures Sound() && View() == Next(old(View()), Event.Release(user, now)) && Inv(View())
      ensures fresh(schedule.Nodes() - old(schedule.Nodes()))
    {
      hide RBTree.RBTree.Valid, RBTreeSpec.Ids, SchedulerSpec.GiveBack, Inv;
      NextKeeps(View(), Event.Release(user, now));
      clock := now;
      clients := clients[user := Resting];
      ghost var nodes := schedule.Nodes();
      label locked:
      GiveBack(worker, now);
      assert forall o | o in schedule.Nodes() && o !in nodes :: fresh@locked(o);
    }

    /** Acquire goes on when its channel is ready. */
    method Receive(user: UserId, c: ChanId) returns (v: Option<WorkerId>)
      requires Sound() && Inv(View()) && Allowed(View(), Event.Receive(user)) && clients[user].ready == c
      modifies this`chans, this`cc, this`clients
      ensures Sound() && View() == Next(old(View()), Event.Receive(user)) && Inv(View())
      ensures v == if old(chans[c]).Full? then Some(old(chans[c]).worker) else None
    {
      hide Inv;
      NextKeeps(View(), Event.Receive(user));
      v := TakeFrom(user, c);
    }

    /** Receiving from the Ready channel, which has something to give. */
    method TakeFrom(user: UserId, c: ChanId) returns (v: Option<WorkerId>)
      requires Sound() && c in chans && !chans[c].Empty?
      modifies this`chans, this`cc, this`clients
      ensures Sound() && View() == Take(old(View()), user, c)
      ensures v == if old(chans[c]).Full? then Some(old(chans[c]).worker) else None
    {
      match chans[c]
      case Closed =>
        clients := clients[user := Resting];
        return None;
      case Full(w, _) =>
        clients := clients[user := Holding(w)];
        chans := chans[c := Empty];
        cc := cc + [c];
        return Some(w);
    }

    /** The timeout branch of Acquire. */
    method TimeoutLocked(user: UserId, c: ChanId, now: int) returns (v: Option<WorkerId>)
      requires Sound() && c in chans
      requires user in users && users[user].stride !in schedule.Contents() ==> !chans[c].Empty?
      modifies this`chans, this`cc, this`clients, this`workers, this`users, this`queue, this`floor, schedule, schedule.Nodes()
      ensures Sound() && View() == TimeoutStep(old(View()), user, c, now)
      ensures fresh(schedule.Nodes() - old(schedule.Nodes()))
    {
      hide RBTree.RBTree.Valid, RBTreeSpec.Ids, SchedulerSpec.GiveBack;
      if user !in users {
        clients := clients[user := Resting];
        if chans[c].Full? {
          var w := chans[c].worker;
          chans := chans[c := Empty];
          cc := cc + [c];
          GiveBack(w, now);
        }
        return None;
      }
      var u := users[user];
      var _, ok := schedule.Get(u.stride);
      if ok {
        users := users[user := u.(scheduled := false)];
        schedule.Delete(u.stride);
        cc := cc + [c];
        clients := clients[user := Resting];
        return None;
      }
      v := TakeFrom(user, c);
    }

    /**
     A timeout, which may hit anybody's slot. The receive under the lock finds something whenever the
     invariant held before.
     */
    method Timeout(user: UserId, c: ChanId, now: int) returns (v: Option<WorkerId>)
      requires Sound() && Inv(View()) && Enabled(View(), Event.Timeout(user, now)) && clients[user].ready == c
      modifies this`chans, this`cc, this`clients, this`workers, this`users, this`queue, this`floor, this`clock,
               schedule, schedule.Nodes()
      ensures Sound() && View() == Next(old(View()), Event.Timeout(user, now))
      ensures Inv(View()) <==> OwnSlot(old(View()), user)
      ensures fresh(schedule.Nodes() - old(schedule.Nodes()))
    {
      hide RBTree.RBTree.Valid, RBTreeSpec.Ids, TimeoutStep, Inv, OwnSlot;
      ghost var s := At(View(), now);
      AtKeeps(View(), now);
      TimeoutKeepsIff(s, user, c);
      SameSlot(View(), now, user);
      if user !in users || users[user].stride !in schedule.Contents() {
        LostRaceHasWorker(s, user);
      }
      clock := now;
      assert View() == s;
      ghost var nodes := schedule.Nodes();
      label locked:
      v := TimeoutLocked(user, c, now);
      assert forall o | o in schedule.Nodes() && o !in nodes :: fresh@locked(o);
      assert View() == TimeoutStep(s, user, c, now);
    }

    /** Closes every queued job's channel and forgets everything else. */
    method CloseLocked()
      requires Sound() && forall k :: k in schedule.Contents() ==> schedule.Contents()[k].ready in chans
      modifies this`closed, this`users, this`workers, this`queue, this`chans, schedule, schedule.Nodes()
      ensures Sound() && View() == CloseStep(old(View()))
      ensures fresh(schedule.Nodes() - old(schedule.Nodes()))
    {
      hide RBTree.RBTree.Valid, RBTreeSpec.Ids, RBTreeSpec.Model, ClosedSoFar, CloseChans;
      ClosedNone(chans, schedule.Contents());
      if closed {
        return;
      }
      closed := true;
      users := map[];
      workers := map[];
      ghost var jobs := schedule.Contents();
      var stride, job, ok := schedule.Min();
      while ok
        invariant Sound() && schedule.Nodes() == old(schedule.Nodes())
        invariant closed && users == map[] && workers == map[]
        invariant ok <==> schedule.Contents() != map[]
        invariant ok ==> stride in schedule.Contents() && schedule.Contents()[stride] == job
        invariant schedule.Contents().Keys <= jobs.Keys
        invariant forall k :: k in schedule.Contents() ==> schedule.Contents()[k] == jobs[k]
        invariant ClosedSoFar(old(chans), chans, jobs, schedule.Contents().Keys)
        decreases schedule.Contents().Keys
      {
        ghost var before := schedule.Contents().Keys;
        schedule.Delete(stride);
        CloseOne(old(chans), chans, jobs, before, stride);
        chans := chans[job.ready := Closed];
        stride, job, ok := schedule.Min();
      }
      queue := [];
      ClosedAll(old(chans), chans, jobs, schedule.Contents());
    }

    method Close()
      requires Sound() && Inv(View())
      modifies this`closed, this`users, this`workers, this`queue, this`chans, schedule, schedule.Nodes()
      ensures Sound() && View() == Next(old(View()), Event.Close) && Inv(View())
      ensures fresh(schedule.Nodes() - old(schedule.Nodes()))
    {
      hide RBTree.RBTree.Valid, RBTreeSpec.Ids, CloseStep, Inv;
      NextKeeps(View(), Event.Close);
      JobsHaveChannels(View());
      CloseLocked();
    }
  }

  lemma JobsHaveChannels(s: State)
    requires Inv(s)
    ensures forall k :: k in s.schedule ==> s.schedule[k].ready in s.chans
  {
  }

  lemma SameSlot(s: State, now: int, u: UserId)
    ensures OwnSlot(At(s, now), u) <==> OwnSlot(s, u)
  {
  }

  /** The channels of the jobs not in `left` have been closed, and only those. */
  ghost predicate ClosedSoFar(was: map<ChanId, Chan>, now: map<ChanId, Chan>, jobs: map<int, Job>, left: set<int>) {
    && now.Keys == was.Keys
    && forall c :: c in was ==>
         now[c] == if exists k :: k in jobs && k !in left && jobs[k].ready == c then Closed else was[c]
  }

  lemma ClosedNone(chans: map<ChanId, Chan>, jobs: map<int, Job>)
    ensures ClosedSoFar(chans, chans, jobs, jobs.Keys)
  {
  }

  lemma ClosedAll(was: map<ChanId, Chan>, now: map<ChanId, Chan>, jobs: map<int, Job>, left: map<int, Job>)
    requires left == map[] && ClosedSoFar(was, now, jobs, left.Keys)
    ensures now == CloseChans(was, jobs)
  {
    hide CloseChans;
    assert left.Keys == {};
    forall c | c in was
      ensures now[c] == CloseChans(was, jobs)[c]
    {
      if HasJob(jobs, c) {
        var k :| k in jobs && jobs[k].ready == c;
        assert k !in left.Keys;
      }
    }
  }

  lemma CloseOne(was: map<ChanId, Chan>, now: map<ChanId, Chan>, jobs: map<int, Job>, left: set<int>, k: int)
    requires ClosedSoFar(was, now, jobs, left) && k in left && k in jobs && jobs[k].ready in was
    ensures ClosedSoFar(was, now[jobs[k].ready := Closed], jobs, left - {k})
  {
    var next := now[jobs[k].ready := Closed];
    forall c | c in was
      ensures next[c] == if exists j :: j in jobs && j !in left - {k} && jobs[j].ready == c then Closed else was[c]
    {
      if c == jobs[k].ready {
        assert k in jobs && k !in left - {k} && jobs[k].ready == c;
      }
    }
  }
}
