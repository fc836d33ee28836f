/** The leader lease: one Redis key with an expiry, taken by SETNX and renewed by GET then EXPIRE, and a
    separate poll that starts and stops each instance's leader jobs.

    The protocol is a step relation over any number of instances. Every Redis command, every change of the
    flag and every poll is a step of its own, and the clock moves only in `Advance`. */
module Leadership {
  import opened Common
  import opened Jobs

  type Id = string

  datatype Key = Free | Held(holder: Id, expiry: int)

  predicate Unexpired(k: Key, now: int) { k.Held? && now < k.expiry }

  predicate HeldBy(k: Key, now: int, i: Id) { Unexpired(k, now) && k.holder == i }

  /** The four commands as Redis carries them out. */
  function SetNx(k: Key, i: Id, now: int, ttl: int): Key {
    if Unexpired(k, now) then k else Held(i, now + ttl)
  }

  function Expire(k: Key, now: int, ttl: int): Key {
    if Unexpired(k, now) then k.(expiry := now + ttl) else k
  }

  function DeleteIfHeld(k: Key, i: Id, now: int): Key {
    if HeldBy(k, now, i) then Free else k
  }

  /** A command may be answered, or take effect with its answer lost, or never reach Redis. */
  datatype Fate = Answered | AnswerLost | NotSent

  /** Where an instance's election goroutine is.
      - Idle: between campaigns.
      - Won: SETNX answered "set" and took effect at `at`; the flag is not raised yet.
      - Taken: SETNX answered "not set".
      - Own: GET answered the instance's own ID, the flag is up, the lock is held, EXPIRE is still to come;
        `adopted` if the flag was down before, so that it now leads on a lease it did not know it had.
      - Renewed: EXPIRE was sent at `at`; `clean` if it took effect and was answered.
      - Other: GET failed or named someone else, the flag is still to be lowered, the lock is held.
      - Resigning: the resign script was sent, the flag is still to be lowered, the lock is held.
      - Stopped: the election loop has returned. */
  datatype Phase =
    | Idle | Won(at: int) | Taken | Own(adopted: bool) | Renewed(at: int, clean: bool) | Other | Resigning | Stopped

  /** A poll has read the flag and not yet acted on it. */
  datatype Reading = NoReading | Read(at: int, flag: bool)

  datatype Instance = Instance(
    isLeader: bool,
    phase: Phase,
    held: Option<int>,      // when it last set the key, or extended it while holding it
    confirmed: int,         // when it last became leader or finished an error-free campaign
    done: bool,             // the shared context is cancelled
    manager: Manager,
    reading: Reading,
    polled: int)            // when the last poll it acted on read the flag

  datatype Cluster = Cluster(now: int, key: Key, instances: map<Id, Instance>)

  const NEW_INSTANCE := Instance(false, Idle, None, 0, false, NEW_MANAGER, NoReading, 0)

  function Initial(ids: set<Id>): Cluster {
    Cluster(0, Free, map i | i in ids :: NEW_INSTANCE)
  }

  /** The lease length and the timing the instances are assumed to keep: a leader's error-free campaigns
      end at most `campaignGap` apart, each ends at most `writeLag` after its write to the key took effect,
      and a poll acts at most `pollGap` after the previous one read the flag.
      `unextended` says whether an instance that adopts a lease, finding its own ID in the key while its flag
    is down, may go on although its EXPIRE did not take effect on its own key. */
  datatype Timing = Timing(ttl: int, campaignGap: int, writeLag: int, pollGap: int, unextended: bool)

  datatype Step =
    | Advance(dt: nat)
    | SendSetNx(i: Id, fate: Fate)
    | RaiseFlag(i: Id)
    | SendGet(i: Id, answered: bool)
    | SendExpire(i: Id, fate: Fate)
    | EndRenewal(i: Id)
    | LowerFlag(i: Id)
    | ReadFlag(i: Id)
    | ActOnFlag(i: Id)
    | StartOtherJobs(i: Id)
    | ShutDownJobs(i: Id)
    | CancelContext(i: Id)
    | SendResign(i: Id, executed: bool)
    | EndResign(i: Id)
    | Restart(i: Id)

  /** The lock is free, so the flag can be read. */
  predicate Unlocked(p: Phase) { p.Idle? || p.Won? || p.Taken? || p.Stopped? }

  predicate Enabled(c: Cluster, s: Step) {
    s.Advance? || (s.i in c.instances &&
    var x := c.instances[s.i];
    match s
    case SendSetNx(_, _) => x.phase.Idle?
    case RaiseFlag(_) => x.phase.Won?
    case SendGet(_, _) => x.phase.Taken?
    case SendExpire(_, _) => x.phase.Own?
    case EndRenewal(_) => x.phase.Renewed?
    case LowerFlag(_) => x.phase.Other?
    case ReadFlag(_) => Unlocked(x.phase) && x.reading.NoReading?
    case ActOnFlag(_) => x.reading.Read?
    case SendResign(_, _) => x.done && x.phase.Idle? && x.isLeader
    case EndResign(_) => x.phase.Resigning? || (x.done && x.phase.Idle? && !x.isLeader)
    case _ => true)
  }

  function With(c: Cluster, i: Id, k: Key, x: Instance): Cluster {
    c.(key := k, instances := c.instances[i := x])
  }

  function Next(c: Cluster, s: Step, ttl: int, jobs: seq<Job>): Cluster
    requires Enabled(c, s)
  {
    if s.Advance? then c.(now := c.now + s.dt)
    else
      var i, x, now := s.i, c.instances[s.i], c.now;
      match s
      case SendSetNx(_, fate) =>
        var free := !Unexpired(c.key, now);
        var y := if fate.NotSent? || !free then x else x.(held := Some(now));
        With(c, i, if fate.NotSent? then c.key else SetNx(c.key, i, now, ttl),
             y.(phase := if !fate.Answered? then Idle else if free then Won(now) else Taken))
      case RaiseFlag(_) => With(c, i, c.key, x.(isLeader := true, phase := Idle, confirmed := now))
      case SendGet(_, answered) =>
        if answered && HeldBy(c.key, now, i) then
          With(c, i, c.key, x.(isLeader := true, phase := Own(!x.isLeader),
                               confirmed := if x.isLeader then x.confirmed else now))
        else With(c, i, c.key, x.(phase := Other))
      case SendExpire(_, fate) =>
        var y := if fate.NotSent? || !HeldBy(c.key, now, i) then x else x.(held := Some(now));
        With(c, i, if fate.NotSent? then c.key else Expire(c.key, now, ttl),
             y.(phase := Renewed(now, fate.Answered?)))
      case EndRenewal(_) =>
        With(c, i, c.key, x.(phase := Idle, confirmed := if x.phase.clean then now else x.confirmed))
      case LowerFlag(_) => With(c, i, c.key, x.(isLeader := false, phase := Idle))
      case ReadFlag(_) => With(c, i, c.key, x.(reading := Read(now, x.isLeader)))
      case ActOnFlag(_) =>
        With(c, i, c.key, x.(manager := Poll(x.manager, jobs, x.reading.flag),
                             polled := x.reading.at, reading := NoReading))
      case StartOtherJobs(_) => With(c, i, c.key, x.(manager := Serve(x.manager, jobs, StartOthers)))
      case ShutDownJobs(_) => With(c, i, c.key, x.(manager := Serve(x.manager, jobs, ShutDown)))
      case CancelContext(_) => With(c, i, c.key, x.(done := true))
      case SendResign(_, executed) =>
        With(c, i, if executed then DeleteIfHeld(c.key, i, now) else c.key,
             x.(phase := Resigning, held := if executed && HeldBy(c.key, now, i) then None else x.held))
      case EndResign(_) => With(c, i, c.key, x.(isLeader := false, phase := Stopped))
      case Restart(_) => With(c, i, c.key, NEW_INSTANCE.(held := x.held))
  }

  /** The cluster after the steps, if each was enabled when its turn came. */
  ghost function Run(c: Cluster, steps: seq<Step>, ttl: int, jobs: seq<Job>): Option<Cluster> {
    if steps == [] then Some(c)
    else
      var before := Run(c, steps[..|steps| - 1], ttl, jobs);
      var s := steps[|steps| - 1];
      if before.None? || !Enabled(before.value, s) then None
      else Some(Next(before.value, s, ttl, jobs))
  }

  /** An instance whose shared context is live and one of whose leader jobs is not cancelled. */
  ghost predicate RunsLeaderJob(x: Instance, jobs: seq<Job>) {
    !x.done && LeaderJobLive(jobs, x.manager.book)
  }

  ghost predicate AtMostOneRuns(c: Cluster, jobs: seq<Job>) {
    forall i, j | i in c.instances && j in c.instances ::
      RunsLeaderJob(c.instances[i], jobs) && RunsLeaderJob(c.instances[j], jobs) ==> i == j
  }

  ghost predicate InTime(x: Instance, now: int, t: Timing, jobs: seq<Job>) {
    x.done || (
      && (x.isLeader ==> now <= x.confirmed + t.campaignGap)
      && (x.phase.Won? ==> now <= x.phase.at + t.writeLag)
      && (x.phase.Renewed? && x.phase.clean ==> now <= x.phase.at + t.writeLag)
      && (x.reading.Read? ==> now <= x.reading.at + t.pollGap)
      && (RunsLeaderJob(x, jobs) ==> now <= x.polled + t.pollGap))
  }

  /** The clock moves only while every deadline is still met, and without `unextended` the EXPIRE after an
      adoption takes effect on the instance's own key. Its answer may still be lost. */
  ghost predicate Permitted(c: Cluster, s: Step, t: Timing, jobs: seq<Job>)
    requires Enabled(c, s)
  {
    match s
    case Advance(dt) => forall i :: i in c.instances ==> InTime(c.instances[i], c.now + dt, t, jobs)
    case SendExpire(i, fate) =>
      t.unextended || !c.instances[i].phase.adopted || (!fate.NotSent? && HeldBy(c.key, c.now, i))
    case _ => true
  }

  ghost function TimedRun(c: Cluster, steps: seq<Step>, t: Timing, jobs: seq<Job>): Option<Cluster> {
    if steps == [] then Some(c)
    else
      var before := TimedRun(c, steps[..|steps| - 1], t, jobs);
      var s := steps[|steps| - 1];
      if before.None? || !Enabled(before.value, s) || !Permitted(before.value, s, t, jobs) then None
      else Some(Next(before.value, s, t.ttl, jobs))
  }

  // ------------------------------------------------------------------ the lease, whatever the timing

  /** As long as TTL has not passed since an instance last set or extended the key while holding it, it
      holds the key, for at least the rest of that time. */
  ghost predicate LeaseOf(x: Instance, i: Id, k: Key, now: int, ttl: int) {
    && (x.held.Some? ==> x.held.value <= now)
    && (x.held.Some? && now < x.held.value + ttl ==> HeldBy(k, now, i) && k.expiry >= x.held.value + ttl)
    && (HeldBy(k, now, i) ==> x.held.Some?)
    && (x.isLeader && !x.phase.Resigning? ==> x.held.Some?)
    && (x.phase.Won? || x.phase.Own? ==> x.held.Some?)
    && (x.phase.Resigning? ==> x.done)
  }

  ghost predicate Lease(c: Cluster, ttl: int) {
    && (c.key.Held? ==> c.key.expiry <= c.now + ttl)
    && (forall i :: i in c.instances ==> LeaseOf(c.instances[i], i, c.key, c.now, ttl))
  }

  /** The instance that takes the step. */
  lemma LeaseActor(c: Cluster, s: Step, ttl: int, jobs: seq<Job>)
    requires ttl > 0 && !s.Advance? && Enabled(c, s)
    requires c.key.Held? ==> c.key.expiry <= c.now + ttl
    requires LeaseOf(c.instances[s.i], s.i, c.key, c.now, ttl)
    ensures var d := Next(c, s, ttl, jobs);
            && LeaseOf(d.instances[s.i], s.i, d.key, d.now, ttl)
            && (d.key.Held? ==> d.key.expiry <= d.now + ttl)
  {
  }

  /** An instance the step does not change. */
  lemma LeaseOther(c: Cluster, s: Step, ttl: int, jobs: seq<Job>, i: Id)
    requires ttl > 0 && Enabled(c, s) && i in c.instances && (s.Advance? || s.i != i)
    requires c.key.Held? ==> c.key.expiry <= c.now + ttl
    requires LeaseOf(c.instances[i], i, c.key, c.now, ttl)
    requires !s.Advance? ==> LeaseOf(c.instances[s.i], s.i, c.key, c.now, ttl)
    ensures var d := Next(c, s, ttl, jobs);
            i in d.instances && LeaseOf(d.instances[i], i, d.key, d.now, ttl)
  {
    assert Next(c, s, ttl, jobs).instances[i] == c.instances[i];
  }

  lemma LeaseStep(c: Cluster, s: Step, ttl: int, jobs: seq<Job>)
    requires ttl > 0 && Enabled(c, s) && Lease(c, ttl)
    ensures Lease(Next(c, s, ttl, jobs), ttl)
  {
    var d := Next(c, s, ttl, jobs);
    if !s.Advance? { LeaseActor(c, s, ttl, jobs); }
    forall i | i in d.instances ensures LeaseOf(d.instances[i], i, d.key, d.now, ttl) {
      if s.Advance? || s.i != i { LeaseOther(c, s, ttl, jobs, i); }
    }
  }

  lemma {:induction false} LeaseAlways(ids: set<Id>, steps: seq<Step>, ttl: int, jobs: seq<Job>)
    requires ttl > 0
    ensures var r := Run(Initial(ids), steps, ttl, jobs); r.Some? ==> Lease(r.value, ttl)
  {
    if steps != [] {
      var front := steps[..|steps| - 1];
      LeaseAlways(ids, front, ttl, jobs);
      var before := Run(Initial(ids), front, ttl, jobs);
      if before.Some? && Enabled(before.value, steps[|steps| - 1]) {
        LeaseStep(before.value, steps[|steps| - 1], ttl, jobs);
      }
    }
  }

  /** Main result 1, for every interleaving, every delay and every Redis failure: a flag that can be read
      as up without the live key belongs to an instance that wrote the key at least TTL ago. */
  lemma StaleFlagIsOld(ids: set<Id>, steps: seq<Step>, ttl: int, jobs: seq<Job>, i: Id)
    requires ttl > 0
    requires Run(Initial(ids), steps, ttl, jobs).Some?
    requires i in Run(Initial(ids), steps, ttl, jobs).value.instances
    ensures var c := Run(Initial(ids), steps, ttl, jobs).value;
            var x := c.instances[i];
            x.isLeader && Unlocked(x.phase) && !HeldBy(c.key, c.now, i) ==>
              x.held.Some? && c.now >= x.held.value + ttl
  {
    LeaseAlways(ids, steps, ttl, jobs);
  }

  /** An EXPIRE never shortens a lease, even when it lands on another instance's key. */
  lemma {:induction false} ExpireOnlyLengthens(ids: set<Id>, steps: seq<Step>, ttl: int, jobs: seq<Job>)
    requires ttl > 0
    requires Run(Initial(ids), steps, ttl, jobs).Some?
    requires Run(Initial(ids), steps, ttl, jobs).value.key.Held?
    ensures var c := Run(Initial(ids), steps, ttl, jobs).value;
            var k := Expire(c.key, c.now, ttl);
            k.Held? && k.holder == c.key.holder && k.expiry >= c.key.expiry
  {
    LeaseAlways(ids, steps, ttl, jobs);
  }
}
