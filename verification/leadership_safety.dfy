/** When at most one instance runs leader jobs: exactly when the gaps add up to less than the lease and no
    instance goes on leading on a lease it adopted and did not extend. */
module LeadershipSafety {
  import opened Common
  import opened Jobs
  import opened Leadership

  /** How old an instance's last write to the key can be while it acts as leader. */
  ghost predicate FreshOf(x: Instance, now: int, t: Timing, jobs: seq<Job>) {
    && Consistent(x.manager.book)
    && (LeaderJobLive(jobs, x.manager.book) ==> x.manager.wasLeader)
    && (!x.done ==>
      && (x.isLeader ==> x.confirmed <= now <= x.confirmed + t.campaignGap)
      && (x.isLeader && x.phase != Own(true) ==> x.held.Some? && x.confirmed <= x.held.value + t.writeLag)
      && (x.phase.Won? ==> x.held.Some? && x.phase.at <= x.held.value && now <= x.phase.at + t.writeLag)
      && (x.phase.Own? || x.phase.Renewed? ==> x.isLeader)
      && (x.phase.Renewed? && x.phase.clean ==>
            x.held.Some? && x.phase.at <= x.held.value && now <= x.phase.at + t.writeLag)
      && (x.reading.Read? ==> now <= x.reading.at + t.pollGap)
      && (x.reading.Read? && x.reading.flag ==>
            x.held.Some? && x.reading.at <= x.held.value + t.writeLag + t.campaignGap)
      && (LeaderJobLive(jobs, x.manager.book) ==>
            && x.held.Some? && x.polled <= x.held.value + t.writeLag + t.campaignGap
            && now <= x.polled + t.pollGap))
  }

  ghost predicate Fresh(c: Cluster, t: Timing, jobs: seq<Job>) {
    forall i :: i in c.instances ==> FreshOf(c.instances[i], c.now, t, jobs)
  }

  ghost predicate Sane(t: Timing) {
    t.ttl > 0 && t.campaignGap >= 0 && t.writeLag >= 0 && t.pollGap >= 1
  }

  ghost predicate FitsLease(t: Timing) {
    t.campaignGap + t.writeLag + t.pollGap < t.ttl
  }

  /** The managers only ever change as the job manager changes them. */
  lemma ManagerStep(m: Manager, jobs: seq<Job>, r: Request)
    requires DistinctNames(jobs)
    requires Consistent(m.book) && (LeaderJobLive(jobs, m.book) ==> m.wasLeader)
    ensures var n := Serve(m, jobs, r);
            && Consistent(n.book)
            && (LeaderJobLive(jobs, n.book) ==> n.wasLeader)
            && (r.StartOthers? || r.ShutDown? ==> LeaderJobLive(jobs, n.book) ==> LeaderJobLive(jobs, m.book))
  {
    ServeKeeps(m, jobs, r);
    NamesAreDisjoint(jobs);
    LiveIsBooked(m.book);
    LiveIsBooked(Serve(m, jobs, r).book);
    StartKeeps(m.book, jobs, OtherJobs);
    StopKeeps(m.book, jobs, AllJobs);
  }

  /** The commands of a campaign. */
  lemma FreshCampaign(c: Cluster, s: Step, t: Timing, jobs: seq<Job>)
    requires Sane(t) && FitsLease(t) && !t.unextended
    requires s.SendSetNx? || s.RaiseFlag? || s.SendGet? || s.SendExpire? || s.EndRenewal? || s.LowerFlag?
    requires Enabled(c, s) && Permitted(c, s, t, jobs)
    requires LeaseOf(c.instances[s.i], s.i, c.key, c.now, t.ttl) && FreshOf(c.instances[s.i], c.now, t, jobs)
    ensures FreshOf(Next(c, s, t.ttl, jobs).instances[s.i], c.now, t, jobs)
  {
  }

  /** Polls reading the flag, the end of the context, resignation and restart. */
  lemma FreshOtherwise(c: Cluster, s: Step, t: Timing, jobs: seq<Job>)
    requires Sane(t) && (s.ReadFlag? || s.CancelContext? || s.SendResign? || s.EndResign? || s.Restart?)
    requires Enabled(c, s) && FreshOf(c.instances[s.i], c.now, t, jobs)
    requires LeaseOf(c.instances[s.i], s.i, c.key, c.now, t.ttl)
    ensures FreshOf(Next(c, s, t.ttl, jobs).instances[s.i], c.now, t, jobs)
  {
    LiveIsBooked(EMPTY_BOOK);
  }

  /** The job manager acts on what it was asked. */
  lemma FreshManager(c: Cluster, s: Step, t: Timing, jobs: seq<Job>)
    requires DistinctNames(jobs) && (s.ActOnFlag? || s.StartOtherJobs? || s.ShutDownJobs?)
    requires Enabled(c, s) && FreshOf(c.instances[s.i], c.now, t, jobs)
    ensures FreshOf(Next(c, s, t.ttl, jobs).instances[s.i], c.now, t, jobs)
  {
    var x := c.instances[s.i];
    match s
    case ActOnFlag(_) => ManagerStep(x.manager, jobs, Tick(x.reading.flag)); PollKeeps(x.manager, jobs, x.reading.flag);
    case StartOtherJobs(_) => ManagerStep(x.manager, jobs, StartOthers);
    case _ => ManagerStep(x.manager, jobs, ShutDown);
  }

  /** The instance that takes the step stays fresh. */
  lemma FreshActor(c: Cluster, s: Step, t: Timing, jobs: seq<Job>)
    requires Sane(t) && FitsLease(t) && !t.unextended && DistinctNames(jobs)
    requires !s.Advance? && Enabled(c, s) && Permitted(c, s, t, jobs)
    requires Lease(c, t.ttl) && Fresh(c, t, jobs)
    ensures FreshOf(Next(c, s, t.ttl, jobs).instances[s.i], c.now, t, jobs)
  {
    assert FreshOf(c.instances[s.i], c.now, t, jobs);
    assert LeaseOf(c.instances[s.i], s.i, c.key, c.now, t.ttl);
    if s.ActOnFlag? || s.StartOtherJobs? || s.ShutDownJobs? {
      FreshManager(c, s, t, jobs);
    } else if s.ReadFlag? || s.CancelContext? || s.SendResign? || s.EndResign? || s.Restart? {
      FreshOtherwise(c, s, t, jobs);
    } else {
      FreshCampaign(c, s, t, jobs);
    }
  }

  lemma FreshStep(c: Cluster, s: Step, t: Timing, jobs: seq<Job>)
    requires Sane(t) && FitsLease(t) && !t.unextended && DistinctNames(jobs)
    requires Enabled(c, s) && Permitted(c, s, t, jobs)
    requires Lease(c, t.ttl) && Fresh(c, t, jobs)
    ensures Fresh(Next(c, s, t.ttl, jobs), t, jobs)
  {
    var d := Next(c, s, t.ttl, jobs);
    if !s.Advance? { FreshActor(c, s, t, jobs); }
    forall i | i in d.instances ensures FreshOf(d.instances[i], d.now, t, jobs) {
      if s.Advance? {
        assert FreshOf(c.instances[i], c.now, t, jobs);
        assert InTime(c.instances[i], d.now, t, jobs);
      } else if s.i != i {
        assert FreshOf(c.instances[i], c.now, t, jobs);
      }
    }
  }

  lemma FreshImpliesOne(c: Cluster, t: Timing, jobs: seq<Job>)
    requires Sane(t) && FitsLease(t) && Lease(c, t.ttl) && Fresh(c, t, jobs)
    ensures AtMostOneRuns(c, jobs)
  {
    forall i | i in c.instances && RunsLeaderJob(c.instances[i], jobs) ensures HeldBy(c.key, c.now, i) {
      assert FreshOf(c.instances[i], c.now, t, jobs);
      assert LeaseOf(c.instances[i], i, c.key, c.now, t.ttl);
    }
  }

  lemma {:induction false} FreshAlways(ids: set<Id>, steps: seq<Step>, t: Timing, jobs: seq<Job>)
    requires Sane(t) && FitsLease(t) && !t.unextended && DistinctNames(jobs)
    ensures var r := TimedRun(Initial(ids), steps, t, jobs);
            r.Some? ==> Lease(r.value, t.ttl) && Fresh(r.value, t, jobs)
  {
    if steps != [] {
      var front, last := steps[..|steps| - 1], steps[|steps| - 1];
      FreshAlways(ids, front, t, jobs);
      var before := TimedRun(Initial(ids), front, t, jobs);
      if before.Some? && Enabled(before.value, last) && Permitted(before.value, last, t, jobs) {
        LeaseStep(before.value, last, t.ttl, jobs);
        FreshStep(before.value, last, t, jobs);
      }
    }
  }

  ghost predicate Reachable(ids: set<Id>, t: Timing, jobs: seq<Job>, c: Cluster) {
    exists steps :: TimedRun(Initial(ids), steps, t, jobs) == Some(c)
  }

  ghost predicate AlwaysAtMostOne(ids: set<Id>, t: Timing, jobs: seq<Job>) {
    forall c :: Reachable(ids, t, jobs, c) ==> AtMostOneRuns(c, jobs)
  }

  /** Under those two conditions no run, whatever Redis loses, ever has two. */
  lemma MutualExclusion(ids: set<Id>, t: Timing, jobs: seq<Job>)
    requires Sane(t) && FitsLease(t) && !t.unextended && DistinctNames(jobs)
    ensures AlwaysAtMostOne(ids, t, jobs)
  {
    forall c | Reachable(ids, t, jobs, c) ensures AtMostOneRuns(c, jobs) {
      var steps :| TimedRun(Initial(ids), steps, t, jobs) == Some(c);
      FreshAlways(ids, steps, t, jobs);
      FreshImpliesOne(c, t, jobs);
    }
  }

  // ------------------------------------------------------------------ the runs that break it

  lemma Step(ids: set<Id>, t: Timing, jobs: seq<Job>, c: Cluster, s: Leadership.Step) returns (d: Cluster)
    requires Reachable(ids, t, jobs, c) && Enabled(c, s) && Permitted(c, s, t, jobs)
    ensures d == Next(c, s, t.ttl, jobs) && Reachable(ids, t, jobs, d)
  {
    d := Next(c, s, t.ttl, jobs);
    var steps :| TimedRun(Initial(ids), steps, t, jobs) == Some(c);
    var more := steps + [s];
    assert more[..|more| - 1] == steps;
    assert TimedRun(Initial(ids), more, t, jobs) == Some(d);
  }

  ghost predicate HasLeaderJob(jobs: seq<Job>) { Names(jobs, LeaderJobs) != {} }

  lemma StartRunsJobs(jobs: seq<Job>)
    requires HasLeaderJob(jobs)
    ensures LeaderJobLive(jobs, Poll(NEW_MANAGER, jobs, true).book) && !LeaderJobLive(jobs, EMPTY_BOOK)
  {
    StartKeeps(EMPTY_BOOK, jobs, LeaderJobs);
    LiveIsBooked(Start(EMPTY_BOOK, jobs, LeaderJobs));
  }

  /** An idle leader that has not polled yet polls and starts its jobs, all at once. */
  lemma PollNow(ids: set<Id>, t: Timing, jobs: seq<Job>, c: Cluster, i: Id) returns (d: Cluster)
    requires Reachable(ids, t, jobs, c) && HasLeaderJob(jobs) && i in c.instances
    requires var x := c.instances[i];
             x.isLeader && x.phase.Idle? && !x.done && x.reading.NoReading? && x.manager == NEW_MANAGER
    ensures Reachable(ids, t, jobs, d)
    ensures var x := c.instances[i].(manager := Poll(NEW_MANAGER, jobs, true), polled := c.now);
            d == c.(instances := c.instances[i := x])
    ensures RunsLeaderJob(d.instances[i], jobs)
  {
    d := Step(ids, t, jobs, c, ReadFlag(i));
    d := Step(ids, t, jobs, d, ActOnFlag(i));
    StartRunsJobs(jobs);
  }

  /** A fresh instance takes a free key, becomes leader, polls and starts its jobs, all at once. */
  lemma TakeOver(ids: set<Id>, t: Timing, jobs: seq<Job>, c: Cluster, i: Id) returns (d: Cluster)
    requires Reachable(ids, t, jobs, c) && HasLeaderJob(jobs) && i in c.instances
    requires c.instances[i] == NEW_INSTANCE && !Unexpired(c.key, c.now)
    ensures Reachable(ids, t, jobs, d) && i in d.instances && RunsLeaderJob(d.instances[i], jobs)
    ensures forall j :: j in c.instances && j != i ==> j in d.instances && d.instances[j] == c.instances[j]
  {
    d := Step(ids, t, jobs, c, SendSetNx(i, Answered));
    d := Step(ids, t, jobs, d, RaiseFlag(i));
    d := PollNow(ids, t, jobs, d, i);
  }

  /** While the key is live, a failed GET makes an idle leader lower its flag. */
  lemma LoseFlag(ids: set<Id>, t: Timing, jobs: seq<Job>, c: Cluster, i: Id) returns (d: Cluster)
    requires Reachable(ids, t, jobs, c) && i in c.instances
    requires c.instances[i].phase.Idle? && Unexpired(c.key, c.now)
    ensures Reachable(ids, t, jobs, d)
    ensures d == c.(instances := c.instances[i := c.instances[i].(isLeader := false)])
  {
    d := Step(ids, t, jobs, c, SendSetNx(i, Answered));
    d := Step(ids, t, jobs, d, SendGet(i, false));
    d := Step(ids, t, jobs, d, LowerFlag(i));
  }

  lemma Start0(ids: set<Id>, t: Timing, jobs: seq<Job>)
    ensures Reachable(ids, t, jobs, Initial(ids))
  {
    assert TimedRun(Initial(ids), [], t, jobs) == Some(Initial(ids));
  }

  /** When the gaps reach the lease, one leader can still be running when the next one starts. */
  lemma GapsTooLong(ids: set<Id>, t: Timing, jobs: seq<Job>, a: Id, b: Id)
    requires Sane(t) && HasLeaderJob(jobs) && a in ids && b in ids && a != b
    requires !FitsLease(t)
    ensures !AlwaysAtMostOne(ids, t, jobs)
  {
    Start0(ids, t, jobs);
    StartRunsJobs(jobs);
    var c := Step(ids, t, jobs, Initial(ids), SendSetNx(a, Answered));
    c := Step(ids, t, jobs, c, Advance(t.writeLag));
    c := Step(ids, t, jobs, c, RaiseFlag(a));
    c := Step(ids, t, jobs, c, Advance(t.campaignGap));
    c := PollNow(ids, t, jobs, c, a);
    if Unexpired(c.key, c.now) {
      c := LoseFlag(ids, t, jobs, c, a);
      c := Step(ids, t, jobs, c, Advance(t.pollGap));
    }
    var d := TakeOver(ids, t, jobs, c, b);
    assert RunsLeaderJob(d.instances[a], jobs) && RunsLeaderJob(d.instances[b], jobs);
  }

  /** However short the gaps: an instance that lost the answer to its SETNX finds its own ID in a key that
      is about to expire, leads on it although its EXPIRE is lost, and is still running when the next leader
      starts. */
  lemma UnextendedAdoptionBreaks(ids: set<Id>, t: Timing, jobs: seq<Job>, a: Id, b: Id)
    requires Sane(t) && HasLeaderJob(jobs) && a in ids && b in ids && a != b
    requires t.unextended
    ensures !AlwaysAtMostOne(ids, t, jobs)
  {
    Start0(ids, t, jobs);
    StartRunsJobs(jobs);
    var c := Step(ids, t, jobs, Initial(ids), SendSetNx(a, AnswerLost));
    c := Step(ids, t, jobs, c, Advance(t.ttl - 1));
    c := Step(ids, t, jobs, c, SendSetNx(a, Answered));
    c := Step(ids, t, jobs, c, SendGet(a, true));
    c := Step(ids, t, jobs, c, SendExpire(a, NotSent));
    c := Step(ids, t, jobs, c, EndRenewal(a));
    c := PollNow(ids, t, jobs, c, a);
    c := LoseFlag(ids, t, jobs, c, a);
    c := Step(ids, t, jobs, c, Advance(1));
    var d := TakeOver(ids, t, jobs, c, b);
    assert RunsLeaderJob(d.instances[a], jobs) && RunsLeaderJob(d.instances[b], jobs);
  }

  /** Main result 2. With two instances and a leader job, no reachable state has two instances running
      leader jobs if and only if the three gaps add up to less than the lease and no instance leads on a
      lease it adopted and did not extend. */
  lemma ExactlyWhenExclusive(ids: set<Id>, t: Timing, jobs: seq<Job>)
    requires Sane(t) && DistinctNames(jobs) && HasLeaderJob(jobs)
    requires exists a, b :: a in ids && b in ids && a != b
    ensures AlwaysAtMostOne(ids, t, jobs) <==> !t.unextended && FitsLease(t)
  {
    var a, b :| a in ids && b in ids && a != b;
    if t.unextended {
      UnextendedAdoptionBreaks(ids, t, jobs, a, b);
    } else if !FitsLease(t) {
      GapsTooLong(ids, t, jobs, a, b);
    } else {
      MutualExclusion(ids, t, jobs);
    }
  }

  /** The intervals in the code: both are a third of the lease, rounded down. They leave
      `ttl - 2 * (ttl / 3)` for the lag between a write and the end of its campaign; that every adopted
      lease is extended is needed beside it. */
  lemma CodeIntervals(ids: set<Id>, ttl: int, lag: nat, unextended: bool, jobs: seq<Job>)
    requires ttl >= 3 && DistinctNames(jobs) && HasLeaderJob(jobs)
    requires exists a, b :: a in ids && b in ids && a != b
    ensures AlwaysAtMostOne(ids, Timing(ttl, ttl / 3, lag, ttl / 3, unextended), jobs)
            <==> !unextended && lag < ttl - 2 * (ttl / 3)
    ensures !unextended && lag < ttl / 3 ==> AlwaysAtMostOne(ids, Timing(ttl, ttl / 3, lag, ttl / 3, unextended), jobs)
  {
    ExactlyWhenExclusive(ids, Timing(ttl, ttl / 3, lag, ttl / 3, unextended), jobs);
  }
}
