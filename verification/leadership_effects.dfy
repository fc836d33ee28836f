/** What each step of the election does to its instance, to the key and to the jobs, and how the lead passes
    from one instance to another. */
module LeadershipEffects {
  import opened Common
  import opened Jobs
  import opened Leadership

  /** A step writes its own instance only, only commands write the key, and time passes only between steps. */
  lemma OwnInstanceOnly(c: Cluster, s: Step, ttl: int, jobs: seq<Job>)
    requires Enabled(c, s)
    ensures var d := Next(c, s, ttl, jobs);
            && d.instances.Keys == c.instances.Keys
            && (forall i :: i in c.instances && (s.Advance? || s.i != i) ==> d.instances[i] == c.instances[i])
            && (d.now == if s.Advance? then c.now + s.dt else c.now)
            && (!s.SendSetNx? && !s.SendExpire? && !s.SendResign? ==> d.key == c.key)
  {
  }

  /** Polls and requests to the job manager leave the election as it is, and the election leaves the jobs. */
  lemma JobsAndElectionApart(c: Cluster, s: Step, ttl: int, jobs: seq<Job>)
    requires Enabled(c, s) && !s.Advance?
    ensures var x, y := c.instances[s.i], Next(c, s, ttl, jobs).instances[s.i];
            && (s.StartOtherJobs? || s.ShutDownJobs? ==> y == x.(manager := y.manager))
            && (s.ActOnFlag? ==> y == x.(manager := y.manager, polled := x.reading.at, reading := NoReading))
            && (s.StartOtherJobs? || s.ShutDownJobs? || s.ActOnFlag? || s.Restart? || y.manager == x.manager)
  {
  }

  /** Which jobs run after a step: all others are started or everything is stopped at once, an instance that
      has just found itself leader starts its leader jobs, one that no longer is stops them, and a new process
      runs none. */
  lemma JobsAfter(c: Cluster, s: Step, ttl: int, jobs: seq<Job>)
    requires Enabled(c, s) && !s.Advance? && Consistent(c.instances[s.i].manager.book)
    ensures var x, y := c.instances[s.i], Next(c, s, ttl, jobs).instances[s.i];
            var before, after := Live(x.manager.book), Live(y.manager.book);
            && (s.StartOtherJobs? ==> after == before + Names(jobs, OtherJobs))
            && (s.ShutDownJobs? ==> after == before - Names(jobs, AllJobs))
            && (s.ActOnFlag? && x.reading.flag && !x.manager.wasLeader ==> after == before + Names(jobs, LeaderJobs))
            && (s.ActOnFlag? && !x.reading.flag && x.manager.wasLeader ==> after == before - Names(jobs, LeaderJobs))
            && (s.ActOnFlag? && x.reading.flag == x.manager.wasLeader ==> after == before)
            && (s.Restart? ==> after == {} && !y.isLeader && y.phase.Idle? && !y.done && y.reading.NoReading?)
  {
    var m := c.instances[s.i].manager;
    LiveIsBooked(m.book);
    if s.StartOtherJobs? {
      OthersStart(m, jobs);
    } else if s.ShutDownJobs? {
      StopKeeps(m.book, jobs, AllJobs);
      LiveIsBooked(Stop(m.book, jobs, AllJobs));
    } else if s.ActOnFlag? {
      StartKeeps(m.book, jobs, LeaderJobs);
      StopKeeps(m.book, jobs, LeaderJobs);
      LiveIsBooked(Start(m.book, jobs, LeaderJobs));
      LiveIsBooked(Stop(m.book, jobs, LeaderJobs));
    }
  }

  /** Nothing an instance does once its context is cancelled makes it a leader, except a restart. */
  lemma CancelledRunsNothing(c: Cluster, s: Step, ttl: int, jobs: seq<Job>, i: Id)
    requires Enabled(c, s) && i in c.instances && (c.instances[i].done || s == CancelContext(i)) && s != Restart(i)
    ensures Next(c, s, ttl, jobs).instances[i].done && !RunsLeaderJob(Next(c, s, ttl, jobs).instances[i], jobs)
  {
  }

  /** An election loop that has ended takes no more commands, and its flag stays down. */
  lemma StoppedStays(c: Cluster, s: Step, ttl: int, jobs: seq<Job>, i: Id)
    requires Enabled(c, s) && i in c.instances && s != Restart(i)
    requires c.instances[i].phase.Stopped? && !c.instances[i].isLeader
    ensures Next(c, s, ttl, jobs).instances[i].phase.Stopped? && !Next(c, s, ttl, jobs).instances[i].isLeader
    ensures !s.Advance? && s.i == i ==> Next(c, s, ttl, jobs).key == c.key
  {
  }

  /** The flag can be read except while a campaign or a resignation holds the lock. */
  lemma ReadableIff(c: Cluster, i: Id)
    requires i in c.instances && c.instances[i].reading.NoReading?
    ensures var p := c.instances[i].phase;
            Enabled(c, ReadFlag(i)) <==> !p.Own? && !p.Renewed? && !p.Other? && !p.Resigning?
  {
  }

  /** One campaign at a time and one poll at a time; a resignation comes between campaigns, once the context
      is cancelled, and sends its script only for a leader. */
  lemma OneAtATime(c: Cluster, i: Id, fate: Fate, executed: bool)
    requires i in c.instances
    ensures Enabled(c, SendSetNx(i, fate)) ==> c.instances[i].phase.Idle?
    ensures Enabled(c, ReadFlag(i)) ==> c.instances[i].reading.NoReading?
    ensures Enabled(c, SendResign(i, executed)) ==>
              c.instances[i].phase.Idle? && c.instances[i].done && c.instances[i].isLeader
    ensures Enabled(c, EndResign(i)) && !c.instances[i].phase.Resigning? ==>
              c.instances[i].phase.Idle? && c.instances[i].done && !c.instances[i].isLeader
  {
  }

  /** What an instance is taken to have written last is a write that made the key its own, until it deletes it. */
  lemma HeldTracksWrites(c: Cluster, s: Step, ttl: int, jobs: seq<Job>)
    requires Enabled(c, s) && !s.Advance? && ttl > 0
    ensures var d := Next(c, s, ttl, jobs);
            var before, after := c.instances[s.i].held, d.instances[s.i].held;
            || after == before
            || (after == Some(d.now) && HeldBy(d.key, d.now, s.i) && (s.SendSetNx? || s.SendExpire?))
            || (after == None && s.SendResign? && HeldBy(c.key, c.now, s.i) && d.key == Free)
  {
  }

  /** Only after an adoption must an EXPIRE take effect, and any other step but the clock's is let through. */
  lemma PermittedUnlessAdopted(c: Cluster, s: Step, t: Timing, jobs: seq<Job>)
    requires Enabled(c, s) && !s.Advance?
    ensures Permitted(c, s, t, jobs) <==>
              !s.SendExpire? || t.unextended || c.instances[s.i].phase == Own(false)
              || (!s.fate.NotSent? && HeldBy(c.key, c.now, s.i))
  {
  }

  // ------------------------------------------------------------------ how the lead passes on

  lemma Onward(c: Cluster, steps: seq<Step>, d: Cluster, s: Step, t: Timing, jobs: seq<Job>) returns (e: Cluster)
    requires TimedRun(c, steps, t, jobs) == Some(d) && Enabled(d, s) && Permitted(d, s, t, jobs)
    ensures e == Next(d, s, t.ttl, jobs) && TimedRun(c, steps + [s], t, jobs) == Some(e)
  {
    e := Next(d, s, t.ttl, jobs);
    assert (steps + [s])[..|steps|] == steps;
  }

  /** The instance has nothing in hand and runs no leader jobs. */
  ghost predicate Ready(x: Instance) {
    x.phase.Idle? && x.reading.NoReading? && !x.done && Consistent(x.manager.book) && !x.manager.wasLeader
  }

  /** The instance leads: the key is its own for a whole lease, its flag is up and its leader jobs run. */
  ghost predicate Leads(c: Cluster, i: Id, ttl: int, jobs: seq<Job>) {
    && c.key == Held(i, c.now + ttl) && i in c.instances && c.instances[i].isLeader && c.instances[i].phase.Idle?
    && !c.instances[i].done && Names(jobs, LeaderJobs) <= Live(c.instances[i].manager.book)
  }

  lemma PollStarts(c: Cluster, steps: seq<Step>, d: Cluster, i: Id, t: Timing, jobs: seq<Job>) returns (e: Cluster)
    requires TimedRun(c, steps, t, jobs) == Some(d) && i in d.instances && d.instances[i].isLeader
    requires Ready(d.instances[i]) && d.key == Held(i, d.now + t.ttl)
    ensures TimedRun(c, steps + [ReadFlag(i)] + [ActOnFlag(i)], t, jobs) == Some(e) && Leads(e, i, t.ttl, jobs)
    ensures forall j :: j in d.instances && j != i ==> j in e.instances && e.instances[j] == d.instances[j]
  {
    var r := Onward(c, steps, d, ReadFlag(i), t, jobs);
    e := Onward(c, steps + [ReadFlag(i)], r, ActOnFlag(i), t, jobs);
    JobsAfter(r, ActOnFlag(i), t.ttl, jobs);
  }

  lemma Win(c: Cluster, steps: seq<Step>, d: Cluster, i: Id, t: Timing, jobs: seq<Job>)
      returns (all: seq<Step>, e: Cluster)
    requires TimedRun(c, steps, t, jobs) == Some(d) && i in d.instances && Ready(d.instances[i])
    requires !Unexpired(d.key, d.now)
    ensures all == steps + [SendSetNx(i, Answered)] + [RaiseFlag(i)] + [ReadFlag(i)] + [ActOnFlag(i)]
    ensures TimedRun(c, all, t, jobs) == Some(e) && Leads(e, i, t.ttl, jobs)
    ensures forall j :: j in d.instances && j != i ==> j in e.instances && e.instances[j] == d.instances[j]
  {
    var w := Onward(c, steps, d, SendSetNx(i, Answered), t, jobs);
    all := steps + [SendSetNx(i, Answered)];
    var f := Onward(c, all, w, RaiseFlag(i), t, jobs);
    all := all + [RaiseFlag(i)];
    e := PollStarts(c, all, f, i, t, jobs);
    all := all + [ReadFlag(i)] + [ActOnFlag(i)];
  }

  /** A leader that shuts down hands over at once: it gives the key back, and the next campaign of any other
      instance makes that one lead. */
  lemma HandsOver(c: Cluster, i: Id, j: Id, t: Timing, jobs: seq<Job>) returns (steps: seq<Step>, d: Cluster)
    requires i != j && i in c.instances && j in c.instances && Ready(c.instances[j])
    requires c.instances[i].isLeader && c.instances[i].phase.Idle? && HeldBy(c.key, c.now, i)
    ensures steps == [CancelContext(i)] + [SendResign(i, true)] + [EndResign(i)] +
              [SendSetNx(j, Answered)] + [RaiseFlag(j)] + [ReadFlag(j)] + [ActOnFlag(j)]
    ensures TimedRun(c, steps, t, jobs) == Some(d) && Leads(d, j, t.ttl, jobs)
    ensures i in d.instances && !d.instances[i].isLeader && !RunsLeaderJob(d.instances[i], jobs)
  {
    var a := Onward(c, [], c, CancelContext(i), t, jobs);
    steps := [] + [CancelContext(i)];
    var b := Onward(c, steps, a, SendResign(i, true), t, jobs);
    steps := steps + [SendResign(i, true)];
    var e := Onward(c, steps, b, EndResign(i), t, jobs);
    steps := steps + [EndResign(i)];
    steps, d := Win(c, steps, e, j, t, jobs);
  }

  /** When a leader is gone without a word, the first campaign after the end of its lease makes another lead. */
  lemma TakesOver(c: Cluster, i: Id, dt: nat, t: Timing, jobs: seq<Job>) returns (steps: seq<Step>, d: Cluster)
    requires i in c.instances && Ready(c.instances[i])
    requires c.key.Held? ==> c.key.expiry <= c.now + dt
    requires Permitted(c, Advance(dt), t, jobs)
    ensures steps == [Advance(dt)] + [SendSetNx(i, Answered)] + [RaiseFlag(i)] + [ReadFlag(i)] + [ActOnFlag(i)]
    ensures TimedRun(c, steps, t, jobs) == Some(d) && Leads(d, i, t.ttl, jobs)
  {
    var a := Onward(c, [], c, Advance(dt), t, jobs);
    assert [] + [Advance(dt)] == [Advance(dt)];
    steps, d := Win(c, [Advance(dt)], a, i, t, jobs);
  }

  /** A leader that restarts within its lease finds its own ID in the key and leads again. */
  lemma ComesBack(c: Cluster, i: Id, t: Timing, jobs: seq<Job>) returns (steps: seq<Step>, d: Cluster)
    requires i in c.instances && HeldBy(c.key, c.now, i)
    ensures steps == [Restart(i)] + [SendSetNx(i, Answered)] + [SendGet(i, true)] + [SendExpire(i, Answered)] +
              [EndRenewal(i)] + [ReadFlag(i)] + [ActOnFlag(i)]
    ensures TimedRun(c, steps, t, jobs) == Some(d) && Leads(d, i, t.ttl, jobs)
  {
    var a := Onward(c, [], c, Restart(i), t, jobs);
    steps := [] + [Restart(i)];
    var b := Onward(c, steps, a, SendSetNx(i, Answered), t, jobs);
    steps := steps + [SendSetNx(i, Answered)];
    var e := Onward(c, steps, b, SendGet(i, true), t, jobs);
    steps := steps + [SendGet(i, true)];
    var f := Onward(c, steps, e, SendExpire(i, Answered), t, jobs);
    steps := steps + [SendExpire(i, Answered)];
    var g := Onward(c, steps, f, EndRenewal(i), t, jobs);
    steps := steps + [EndRenewal(i)];
    d := PollStarts(c, steps, g, i, t, jobs);
    steps := steps + [ReadFlag(i)] + [ActOnFlag(i)];
  }

  /** An instance that does not lead shuts down without touching the key. */
  lemma LeavesQuietly(c: Cluster, i: Id, t: Timing, jobs: seq<Job>) returns (steps: seq<Step>, d: Cluster)
    requires i in c.instances && c.instances[i].phase.Idle? && !c.instances[i].isLeader
    ensures steps == [CancelContext(i)] + [EndResign(i)]
    ensures TimedRun(c, steps, t, jobs) == Some(d) && d.key == c.key
    ensures i in d.instances && d.instances[i] == c.instances[i].(done := true, phase := Stopped)
  {
    var a := Onward(c, [], c, CancelContext(i), t, jobs);
    steps := [] + [CancelContext(i)];
    d := Onward(c, steps, a, EndResign(i), t, jobs);
    steps := steps + [EndResign(i)];
  }

  /** An instance that does not hold a live key cannot win it: its campaign lowers its flag. */
  lemma CannotWin(c: Cluster, i: Id, j: Id, t: Timing, jobs: seq<Job>) returns (steps: seq<Step>, d: Cluster)
    requires i != j && i in c.instances && c.instances[i].phase.Idle? && HeldBy(c.key, c.now, j)
    ensures steps == [SendSetNx(i, Answered)] + [SendGet(i, true)] + [LowerFlag(i)]
    ensures TimedRun(c, steps, t, jobs) == Some(d) && d.key == c.key
    ensures i in d.instances && d.instances[i] == c.instances[i].(isLeader := false)
  {
    var a := Onward(c, [], c, SendSetNx(i, Answered), t, jobs);
    steps := [] + [SendSetNx(i, Answered)];
    var b := Onward(c, steps, a, SendGet(i, true), t, jobs);
    steps := steps + [SendGet(i, true)];
    d := Onward(c, steps, b, LowerFlag(i), t, jobs);
    steps := steps + [LowerFlag(i)];
  }
}
