/** The job manager: which background jobs have an uncancelled context.

    A context is never removed, only cancelled, so `goroutines` records every context ever made and
    `cancelFuncs` points at the ones the manager can still cancel. */
module Jobs {

  datatype Job = Job(name: string, leaderOnly: bool)

  datatype Goroutine = Goroutine(job: string, cancelled: bool)

  datatype Book = Book(cancelFuncs: map<string, nat>, goroutines: seq<Goroutine>)

  const EMPTY_BOOK := Book(map[], [])

  /** Which jobs a loop of the manager looks at. */
  datatype Selection = LeaderJobs | OtherJobs | AllJobs

  predicate Selects(sel: Selection, job: Job) {
    match sel
    case LeaderJobs => job.leaderOnly
    case OtherJobs => !job.leaderOnly
    case AllJobs => true
  }

  function Names(jobs: seq<Job>, sel: Selection): set<string> {
    set j | j in jobs && Selects(sel, j) :: j.name
  }

  ghost predicate DistinctNames(jobs: seq<Job>) {
    forall i, j :: 0 <= i < j < |jobs| ==> jobs[i].name != jobs[j].name
  }

  /** Every entry of `cancelFuncs` is an uncancelled goroutine of that job, and every uncancelled
      goroutine has its entry. */
  ghost predicate Consistent(b: Book) {
    && (forall n :: n in b.cancelFuncs ==>
          b.cancelFuncs[n] < |b.goroutines| && b.goroutines[b.cancelFuncs[n]] == Goroutine(n, false))
    && (forall i :: 0 <= i < |b.goroutines| && !b.goroutines[i].cancelled ==>
          b.goroutines[i].job in b.cancelFuncs && b.cancelFuncs[b.goroutines[i].job] == i)
  }

  /** The names with an uncancelled goroutine. */
  function Live(b: Book): set<string> {
    set i | 0 <= i < |b.goroutines| && !b.goroutines[i].cancelled :: b.goroutines[i].job
  }

  ghost predicate LeaderJobLive(jobs: seq<Job>, b: Book) {
    Live(b) * Names(jobs, LeaderJobs) != {}
  }

  ghost predicate AtMostOneEach(b: Book) {
    forall i, j | 0 <= i < j < |b.goroutines| && !b.goroutines[i].cancelled && !b.goroutines[j].cancelled ::
      b.goroutines[i].job != b.goroutines[j].job
  }

  /** What starting the selected jobs does: one goroutine more for each job that has none, in order. */
  function Start(b: Book, jobs: seq<Job>, sel: Selection): Book {
    if jobs == [] then b
    else StartOne(Start(b, jobs[..|jobs| - 1], sel), jobs[|jobs| - 1], sel)
  }

  function StartOne(b: Book, job: Job, sel: Selection): Book {
    if !Selects(sel, job) || job.name in b.cancelFuncs then b
    else Book(b.cancelFuncs[job.name := |b.goroutines|], b.goroutines + [Goroutine(job.name, false)])
  }

  function Cancel(g: Goroutine, names: set<string>): Goroutine {
    if g.job in names then g.(cancelled := true) else g
  }

  /** What stopping the selected jobs does, as one update of the whole book. */
  function Stop(b: Book, jobs: seq<Job>, sel: Selection): Book {
    var names := Names(jobs, sel);
    Book(map n | n in b.cancelFuncs && n !in names :: b.cancelFuncs[n],
         seq(|b.goroutines|, i requires 0 <= i < |b.goroutines| => Cancel(b.goroutines[i], names)))
  }

  /** The manager together with the monitor's `wasLeader`. */
  datatype Manager = Manager(book: Book, wasLeader: bool)

  const NEW_MANAGER := Manager(EMPTY_BOOK, false)

  /** One tick of the leadership monitor that reads `isLeader`. */
  function Poll(m: Manager, jobs: seq<Job>, isLeader: bool): Manager {
    Manager(
      if isLeader && !m.wasLeader then Start(m.book, jobs, LeaderJobs)
      else if !isLeader && m.wasLeader then Stop(m.book, jobs, LeaderJobs)
      else m.book,
      isLeader)
  }

  /** What the rest of the server asks of the manager. */
  datatype Request = StartOthers | Tick(isLeader: bool) | LeaveLeadership | ShutDown

  function Serve(m: Manager, jobs: seq<Job>, r: Request): Manager {
    match r
    case StartOthers => m.(book := Start(m.book, jobs, OtherJobs))
    case Tick(isLeader) => Poll(m, jobs, isLeader)
    case LeaveLeadership => m.(book := Stop(m.book, jobs, LeaderJobs))
    case ShutDown => m.(book := Stop(m.book, jobs, AllJobs))
  }

  function ServeAll(jobs: seq<Job>, rs: seq<Request>): Manager {
    if rs == [] then NEW_MANAGER else Serve(ServeAll(jobs, rs[..|rs| - 1]), jobs, rs[|rs| - 1])
  }

  lemma LiveIsBooked(b: Book)
    requires Consistent(b)
    ensures Live(b) == b.cancelFuncs.Keys
  {
    forall n | n in b.cancelFuncs ensures n in Live(b) {
      assert b.goroutines[b.cancelFuncs[n]].job == n;
    }
  }

  lemma StartOneKeeps(b: Book, job: Job, sel: Selection)
    requires Consistent(b)
    ensures var r := StartOne(b, job, sel);
            && Consistent(r)
            && r.cancelFuncs.Keys == b.cancelFuncs.Keys + (if Selects(sel, job) then {job.name} else {})
            && b.goroutines <= r.goroutines
  {
    var r := StartOne(b, job, sel);
    if Selects(sel, job) && job.name !in b.cancelFuncs {
      forall n | n in r.cancelFuncs
        ensures r.cancelFuncs[n] < |r.goroutines| && r.goroutines[r.cancelFuncs[n]] == Goroutine(n, false)
      {
        if n != job.name { assert b.goroutines[b.cancelFuncs[n]] == Goroutine(n, false); }
      }
    }
  }

  lemma NamesOfOneMore(front: seq<Job>, last: Job, sel: Selection)
    ensures Names(front + [last], sel) == Names(front, sel) + (if Selects(sel, last) then {last.name} else {})
  {
    var all := front + [last];
    forall n | n in Names(front, sel) + (if Selects(sel, last) then {last.name} else {}) ensures n in Names(all, sel) {
      if n in Names(front, sel) {
        var j :| j in front && Selects(sel, j) && j.name == n;
        assert j in all;
      } else {
        assert last in all;
      }
    }
  }

  lemma {:induction false} StartKeeps(b: Book, jobs: seq<Job>, sel: Selection)
    requires Consistent(b)
    ensures var r := Start(b, jobs, sel);
            && Consistent(r)
            && r.cancelFuncs.Keys == b.cancelFuncs.Keys + Names(jobs, sel)
            && b.goroutines <= r.goroutines
  {
    if jobs == [] {
      assert Names(jobs, sel) == {};
    } else {
      var last, front := jobs[|jobs| - 1], jobs[..|jobs| - 1];
      StartKeeps(b, front, sel);
      StartOneKeeps(Start(b, front, sel), last, sel);
      assert jobs == front + [last];
      NamesOfOneMore(front, last, sel);
    }
  }

  lemma StopKeeps(b: Book, jobs: seq<Job>, sel: Selection)
    requires Consistent(b)
    ensures var r := Stop(b, jobs, sel);
            && Consistent(r)
            && r.cancelFuncs.Keys == b.cancelFuncs.Keys - Names(jobs, sel)
            && |r.goroutines| == |b.goroutines|
            && (forall i :: 0 <= i < |b.goroutines| ==>
                  r.goroutines[i] == Cancel(b.goroutines[i], Names(jobs, sel)))
  {
  }

  /** Whatever is asked of it and in whatever order: a job has at most one uncancelled goroutine, it has
      one exactly when its name is booked, and leader jobs live only while the monitor last saw the flag. */
  lemma {:induction false} BookIsAlwaysConsistent(jobs: seq<Job>, rs: seq<Request>)
    requires DistinctNames(jobs)
    ensures var m := ServeAll(jobs, rs);
            && Consistent(m.book)
            && Live(m.book) == m.book.cancelFuncs.Keys
            && AtMostOneEach(m.book)
            && (LeaderJobLive(jobs, m.book) ==> m.wasLeader)
  {
    var m := ServeAll(jobs, rs);
    if rs != [] {
      var before := ServeAll(jobs, rs[..|rs| - 1]);
      BookIsAlwaysConsistent(jobs, rs[..|rs| - 1]);
      ServeKeeps(before, jobs, rs[|rs| - 1]);
    }
    LiveIsBooked(m.book);
  }

  lemma NamesAreDisjoint(jobs: seq<Job>)
    requires DistinctNames(jobs)
    ensures Names(jobs, LeaderJobs) !! Names(jobs, OtherJobs)
  {
  }

  lemma ServeKeeps(m: Manager, jobs: seq<Job>, r: Request)
    requires DistinctNames(jobs)
    requires Consistent(m.book) && (LeaderJobLive(jobs, m.book) ==> m.wasLeader)
    ensures var n := Serve(m, jobs, r);
            Consistent(n.book) && (LeaderJobLive(jobs, n.book) ==> n.wasLeader)
  {
    var n := Serve(m, jobs, r);
    LiveIsBooked(m.book);
    NamesAreDisjoint(jobs);
    match r
    case StartOthers => StartKeeps(m.book, jobs, OtherJobs); LiveIsBooked(n.book);
    case Tick(isLeader) => PollKeeps(m, jobs, isLeader);
    case LeaveLeadership => StopKeeps(m.book, jobs, LeaderJobs); LiveIsBooked(n.book);
    case ShutDown => StopKeeps(m.book, jobs, AllJobs); LiveIsBooked(n.book);
  }

  lemma PollKeeps(m: Manager, jobs: seq<Job>, isLeader: bool)
    requires Consistent(m.book) && (LeaderJobLive(jobs, m.book) ==> m.wasLeader)
    ensures var n := Poll(m, jobs, isLeader);
            && Consistent(n.book)
            && n.wasLeader == isLeader
            && (LeaderJobLive(jobs, n.book) ==> isLeader)
  {
    var n := Poll(m, jobs, isLeader);
    LiveIsBooked(m.book);
    StartKeeps(m.book, jobs, LeaderJobs);
    StopKeeps(m.book, jobs, LeaderJobs);
    LiveIsBooked(n.book);
  }

  /** Losing leadership, and every other tick, leaves the jobs that do not need it exactly as they were. */
  lemma PollSparesOtherJobs(m: Manager, jobs: seq<Job>, isLeader: bool)
    requires DistinctNames(jobs) && Consistent(m.book)
    ensures var n := Poll(m, jobs, isLeader);
            && Live(n.book) * Names(jobs, OtherJobs) == Live(m.book) * Names(jobs, OtherJobs)
            && (forall i :: 0 <= i < |m.book.goroutines| && m.book.goroutines[i].job in Names(jobs, OtherJobs) ==>
                  i < |n.book.goroutines| && n.book.goroutines[i] == m.book.goroutines[i])
  {
    NamesAreDisjoint(jobs);
    LiveIsBooked(m.book);
    StartKeeps(m.book, jobs, LeaderJobs);
    StopKeeps(m.book, jobs, LeaderJobs);
    LiveIsBooked(Poll(m, jobs, isLeader).book);
  }

  ghost predicate LeaderJobsFollow(jobs: seq<Job>, b: Book, isLeader: bool) {
    forall n :: n in Names(jobs, LeaderJobs) ==> (n in Live(b) <==> isLeader)
  }

  /** After a tick the leader jobs run exactly when the flag was up, if and only if the flag had changed
      or they already ran exactly when it was up. */
  lemma PollFollowsFlag(m: Manager, jobs: seq<Job>, isLeader: bool)
    requires Consistent(m.book) && (LeaderJobLive(jobs, m.book) ==> m.wasLeader)
    ensures LeaderJobsFollow(jobs, Poll(m, jobs, isLeader).book, isLeader)
            <==> (isLeader != m.wasLeader || LeaderJobsFollow(jobs, m.book, m.wasLeader))
  {
    LiveIsBooked(m.book);
    StartKeeps(m.book, jobs, LeaderJobs);
    StopKeeps(m.book, jobs, LeaderJobs);
    LiveIsBooked(Poll(m, jobs, isLeader).book);
    if isLeader == m.wasLeader {
      assert Poll(m, jobs, isLeader).book == m.book;
    }
  }

  /** Until someone shuts the manager down, every tick leaves the leader jobs running exactly when the
      flag it read was up. */
  lemma {:induction false} TicksFollowFlag(jobs: seq<Job>, rs: seq<Request>)
    requires DistinctNames(jobs)
    requires forall r :: r in rs ==> r.StartOthers? || r.Tick?
    ensures LeaderJobsFollow(jobs, ServeAll(jobs, rs).book, ServeAll(jobs, rs).wasLeader)
  {
    if rs != [] {
      var before := ServeAll(jobs, rs[..|rs| - 1]);
      TicksFollowFlag(jobs, rs[..|rs| - 1]);
      BookIsAlwaysConsistent(jobs, rs[..|rs| - 1]);
      var r := rs[|rs| - 1];
      match r
      case Tick(isLeader) => PollFollowsFlag(before, jobs, isLeader);
      case _ =>
        NamesAreDisjoint(jobs);
        LiveIsBooked(before.book);
        StartKeeps(before.book, jobs, OtherJobs);
        LiveIsBooked(Start(before.book, jobs, OtherJobs));
    }
  }

  predicate StopsLeaderJobs(r: Request) { r.ShutDown? || r.LeaveLeadership? }

  /** The tick at i is the first that read the flag up in a stretch without one that read it down, and
      that stretch lasts to the end. */
  ghost predicate LeadsSince(rs: seq<Request>, i: nat) {
    && i < |rs| && rs[i] == Tick(true)
    && (forall j :: i < j < |rs| ==> rs[j] != Tick(false))
    && (forall j :: 0 <= j < i && rs[j] == Tick(true) ==> exists k :: j < k < i && rs[k] == Tick(false))
  }

  ghost predicate LastReadUp(rs: seq<Request>, j: nat) {
    j < |rs| && rs[j] == Tick(true) && forall k :: j < k < |rs| ==> rs[k] != Tick(false)
  }

  lemma {:induction false} WasLeaderIs(jobs: seq<Job>, rs: seq<Request>)
    ensures ServeAll(jobs, rs).wasLeader <==> exists j :: LastReadUp(rs, j)
  {
    if rs != [] {
      var front, n := rs[..|rs| - 1], |rs| - 1;
      WasLeaderIs(jobs, front);
      if rs[n] == Tick(true) {
        assert LastReadUp(rs, n);
      } else if rs[n] != Tick(false) {
        assert forall k :: 0 <= k < n ==> front[k] == rs[k];
        assert forall j: nat :: LastReadUp(rs, j) <==> LastReadUp(front, j);
      }
    }
  }

  /** One more request in a stretch: the leader jobs run on unless it stops them. */
  lemma StretchStep(m: Manager, jobs: seq<Job>, r: Request)
    requires DistinctNames(jobs) && Names(jobs, LeaderJobs) != {}
    requires Consistent(m.book) && m.wasLeader && r != Tick(false)
    ensures LeaderJobsFollow(jobs, Serve(m, jobs, r).book, true)
            <==> LeaderJobsFollow(jobs, m.book, true) && !StopsLeaderJobs(r)
  {
    NamesAreDisjoint(jobs);
    LiveIsBooked(m.book);
    match r
    case StartOthers => StartKeeps(m.book, jobs, OtherJobs); LiveIsBooked(Start(m.book, jobs, OtherJobs));
    case Tick(_) =>
    case _ => StoppedRunNone(m.book, jobs, if r.ShutDown? then AllJobs else LeaderJobs);
  }

  lemma StoppedRunNone(b: Book, jobs: seq<Job>, sel: Selection)
    requires Consistent(b) && !sel.OtherJobs?
    ensures Live(Stop(b, jobs, sel)) * Names(jobs, LeaderJobs) == {}
  {
    StopKeeps(b, jobs, sel);
    LiveIsBooked(Stop(b, jobs, sel));
    assert Names(jobs, LeaderJobs) <= Names(jobs, sel);
  }

  /** At the beginning of a stretch the leader jobs start. */
  lemma StretchBegins(jobs: seq<Job>, front: seq<Request>)
    requires DistinctNames(jobs) && LeadsSince(front + [Tick(true)], |front|)
    ensures LeaderJobsFollow(jobs, Poll(ServeAll(jobs, front), jobs, true).book, true)
  {
    var rs := front + [Tick(true)];
    BookIsAlwaysConsistent(jobs, front);
    WasLeaderIs(jobs, front);
    forall j: nat ensures !LastReadUp(front, j) {
      if j < |front| && front[j] == Tick(true) {
        assert rs[j] == Tick(true);
        var k :| j < k < |front| && rs[k] == Tick(false);
        assert front[k] == Tick(false);
      }
    }
    PollFollowsFlag(ServeAll(jobs, front), jobs, true);
  }

  /** Main result, over every history: since the flag was last seen to go up, the leader jobs run if and
      only if nothing has stopped them. No later tick brings them back. */
  lemma {:induction false} RunsIffNotStopped(jobs: seq<Job>, rs: seq<Request>, i: nat)
    requires DistinctNames(jobs) && Names(jobs, LeaderJobs) != {} && LeadsSince(rs, i)
    ensures LeaderJobsFollow(jobs, ServeAll(jobs, rs).book, true)
            <==> forall j :: i < j < |rs| ==> !StopsLeaderJobs(rs[j])
  {
    var front, n := rs[..|rs| - 1], |rs| - 1;
    var before := ServeAll(jobs, front);
    if i == n {
      assert rs == front + [Tick(true)];
      StretchBegins(jobs, front);
    } else {
      BookIsAlwaysConsistent(jobs, front);
      WasLeaderIs(jobs, front);
      assert forall j :: 0 <= j < n ==> front[j] == rs[j];
      assert LastReadUp(front, i) && LeadsSince(front, i);
      RunsIffNotStopped(jobs, front, i);
      StretchStep(before, jobs, rs[n]);
    }
  }

  /** After a shutdown it fails: the monitor still remembers leadership and starts nothing. */
  lemma ShutdownLosesLeaderJobs()
    ensures var jobs := [Job("firewall_ip_sync", true)];
            var m := ServeAll(jobs, [Tick(true), ShutDown, Tick(true)]);
            m.wasLeader && Live(m.book) == {}
  {
    var jobs := [Job("firewall_ip_sync", true)];
    var r1, r2, r3 := [Tick(true)], [Tick(true), ShutDown], [Tick(true), ShutDown, Tick(true)];
    assert r1[..0] == [] && r2[..1] == r1 && r3[..2] == r2;
    var m1, m2 := ServeAll(jobs, r1), ServeAll(jobs, r2);
    assert ServeAll(jobs, []) == NEW_MANAGER;
    StartKeeps(EMPTY_BOOK, jobs, LeaderJobs);
    assert m1 == Poll(NEW_MANAGER, jobs, true);
    StopKeeps(m1.book, jobs, AllJobs);
    LiveIsBooked(m2.book);
    assert jobs[0] in jobs;
    assert Names(jobs, LeaderJobs) <= Names(jobs, AllJobs);
    assert ServeAll(jobs, r3) == Poll(m2, jobs, true) == m2;
  }

  // ------------------------------------------------------------------ the jobs that do not need leadership

  /** Which names a selection stands for. */
  lemma NamesAre(jobs: seq<Job>, name: string)
    ensures name in Names(jobs, LeaderJobs) <==> exists j :: j in jobs && j.name == name && j.leaderOnly
    ensures name in Names(jobs, OtherJobs) <==> exists j :: j in jobs && j.name == name && !j.leaderOnly
    ensures name in Names(jobs, AllJobs) <==> exists j :: j in jobs && j.name == name
  {
  }

  /** Starting them starts each of them and stops nothing. */
  lemma OthersStart(m: Manager, jobs: seq<Job>)
    requires Consistent(m.book)
    ensures Live(Serve(m, jobs, StartOthers).book) == Live(m.book) + Names(jobs, OtherJobs)
  {
    LiveIsBooked(m.book);
    StartKeeps(m.book, jobs, OtherJobs);
    LiveIsBooked(Start(m.book, jobs, OtherJobs));
  }

  lemma RegisteredStep(m: Manager, jobs: seq<Job>, r: Request)
    requires Consistent(m.book) && m.book.cancelFuncs.Keys <= Names(jobs, AllJobs)
    ensures Serve(m, jobs, r).book.cancelFuncs.Keys <= Names(jobs, AllJobs)
  {
    SelectionsAreJobs(jobs);
    match r
    case StartOthers => StartKeeps(m.book, jobs, OtherJobs);
    case Tick(_) => StartKeeps(m.book, jobs, LeaderJobs); StopKeeps(m.book, jobs, LeaderJobs);
    case LeaveLeadership => StopKeeps(m.book, jobs, LeaderJobs);
    case ShutDown => StopKeeps(m.book, jobs, AllJobs);
  }

  /** Nothing but registered jobs is ever live. */
  lemma {:induction false} LiveIsRegistered(jobs: seq<Job>, rs: seq<Request>)
    requires DistinctNames(jobs)
    ensures Live(ServeAll(jobs, rs).book) <= Names(jobs, AllJobs)
  {
    BookIsAlwaysConsistent(jobs, rs);
    if rs != [] {
      var front := rs[..|rs| - 1];
      LiveIsRegistered(jobs, front);
      BookIsAlwaysConsistent(jobs, front);
      RegisteredStep(ServeAll(jobs, front), jobs, rs[|rs| - 1]);
    }
  }

  lemma SelectionsAreJobs(jobs: seq<Job>)
    ensures Names(jobs, LeaderJobs) + Names(jobs, OtherJobs) == Names(jobs, AllJobs)
  {
    forall n ensures n in Names(jobs, LeaderJobs) + Names(jobs, OtherJobs) <==> n in Names(jobs, AllJobs) {
      NamesAre(jobs, n);
    }
  }

  /** After a shutdown nothing is live, whatever was asked before. */
  lemma ShutDownStopsAll(jobs: seq<Job>, rs: seq<Request>)
    requires DistinctNames(jobs) && rs != [] && rs[|rs| - 1] == ShutDown
    ensures Live(ServeAll(jobs, rs).book) == {}
  {
    var front := rs[..|rs| - 1];
    LiveIsRegistered(jobs, front);
    BookIsAlwaysConsistent(jobs, front);
    BookIsAlwaysConsistent(jobs, rs);
    StopKeeps(ServeAll(jobs, front).book, jobs, AllJobs);
  }

  /** They have been started and nothing has been shut down since. */
  ghost predicate StartedSince(rs: seq<Request>, i: nat) {
    i < |rs| && rs[i] == StartOthers && forall j :: i < j < |rs| ==> rs[j] != ShutDown
  }

  ghost predicate UpSince(rs: seq<Request>) { exists i :: StartedSince(rs, i) }

  lemma UpSinceOneMore(front: seq<Request>, r: Request)
    ensures UpSince(front + [r]) <==> r == StartOthers || (r != ShutDown && UpSince(front))
  {
    var rs := front + [r];
    forall i: nat ensures StartedSince(rs, i) <==>
        (i == |front| && r == StartOthers) || (r != ShutDown && StartedSince(front, i)) {
      assert forall j :: 0 <= j < |front| ==> front[j] == rs[j];
      assert rs[|front|] == r;
    }
    assert StartedSince(rs, |front|) <==> r == StartOthers;
    if r != ShutDown && UpSince(front) {
      var i: nat :| StartedSince(front, i);
      assert StartedSince(rs, i);
    }
  }

  /** One request: a job that does not need leadership runs afterwards if it was started, or ran before and
      was not shut down. */
  lemma OtherJobStep(m: Manager, jobs: seq<Job>, r: Request, job: Job)
    requires DistinctNames(jobs) && job in jobs && !job.leaderOnly && Consistent(m.book)
    ensures job.name in Live(Serve(m, jobs, r).book) <==>
              r == StartOthers || (r != ShutDown && job.name in Live(m.book))
  {
    NamesAreDisjoint(jobs);
    NamesAre(jobs, job.name);
    assert job.name in Names(jobs, OtherJobs) && job.name in Names(jobs, AllJobs);
    LiveIsBooked(m.book);
    match r
    case StartOthers => OthersStart(m, jobs);
    case Tick(isLeader) =>
      PollSparesOtherJobs(m, jobs, isLeader);
      var others := Names(jobs, OtherJobs);
      assert job.name in Live(Poll(m, jobs, isLeader).book) * others <==> job.name in Live(m.book) * others;
    case LeaveLeadership => StopKeeps(m.book, jobs, LeaderJobs); LiveIsBooked(Stop(m.book, jobs, LeaderJobs));
    case ShutDown => StopKeeps(m.book, jobs, AllJobs); LiveIsBooked(Stop(m.book, jobs, AllJobs));
  }

  /** Main result, over every history: a job that does not need leadership runs if and only if these jobs
      were started and nothing was shut down since, whatever the leadership does. */
  lemma {:induction false} OtherJobRunsIff(jobs: seq<Job>, rs: seq<Request>, job: Job)
    requires DistinctNames(jobs) && job in jobs && !job.leaderOnly
    ensures job.name in Live(ServeAll(jobs, rs).book) <==> UpSince(rs)
  {
    if rs != [] {
      var front, r := rs[..|rs| - 1], rs[|rs| - 1];
      OtherJobRunsIff(jobs, front, job);
      BookIsAlwaysConsistent(jobs, front);
      OtherJobStep(ServeAll(jobs, front), jobs, r, job);
      assert rs == front + [r];
      UpSinceOneMore(front, r);
    }
  }

  /** The manager as the server holds it: the fields change in place, job by job. */
  class JobManager {
    const jobs: seq<Job>
    var cancelFuncs: map<string, nat>
    var goroutines: seq<Goroutine>
    var wasLeader: bool

    ghost function State(): Manager
      reads this
    {
      Manager(Book(cancelFuncs, goroutines), wasLeader)
    }

    ghost predicate Valid()
      reads this
    {
      DistinctNames(jobs) && Consistent(State().book) && (LeaderJobLive(jobs, State().book) ==> wasLeader)
    }

    constructor (jobs: seq<Job>)
      requires DistinctNames(jobs)
      ensures Valid() && this.jobs == jobs && State() == NEW_MANAGER
    {
      this.jobs := jobs;
      cancelFuncs, goroutines, wasLeader := map[], [], false;
    }

    method StartSelected(sel: Selection)
      requires Consistent(State().book)
      modifies this`cancelFuncs, this`goroutines
      ensures State().book == Start(old(State().book), jobs, sel)
    {
      for k := 0 to |jobs|
        invariant State().book == Start(old(State().book), jobs[..k], sel)
      {
        var job := jobs[k];
        assert jobs[..k + 1][..k] == jobs[..k];
        if !Selects(sel, job) { continue; }
        if job.name in cancelFuncs { continue; }
        cancelFuncs := cancelFuncs[job.name := |goroutines|];
        goroutines := goroutines + [Goroutine(job.name, false)];
      }
      assert jobs[..|jobs|] == jobs;
    }

    method StopSelected(sel: Selection)
      requires Consistent(State().book)
      modifies this`cancelFuncs, this`goroutines
      ensures State().book == Stop(old(State().book), jobs, sel)
    {
      ghost var b := State().book;
      assert State().book == Stop(b, jobs[..0], sel);
      for k := 0 to |jobs|
        invariant Consistent(State().book)
        invariant State().book == Stop(b, jobs[..k], sel)
      {
        var job := jobs[k];
        StopOneMore(b, jobs, sel, k);
        if !Selects(sel, job) { continue; }
        if job.name in cancelFuncs {
          var i := cancelFuncs[job.name];
          goroutines := goroutines[i := goroutines[i].(cancelled := true)];
          cancelFuncs := cancelFuncs - {job.name};
        }
        StopKeeps(b, jobs[..k + 1], sel);
      }
      assert jobs[..|jobs|] == jobs;
    }

    method MonitorTick(isLeader: bool)
      requires Valid()
      modifies this
      ensures Valid() && State() == Poll(old(State()), jobs, isLeader)
    {
      PollKeeps(State(), jobs, isLeader);
      if isLeader && !wasLeader {
        StartSelected(LeaderJobs);
      } else if !isLeader && wasLeader {
        StopSelected(LeaderJobs);
      }
      wasLeader := isLeader;
    }

    method StartNonLeaderJobs()
      requires Valid()
      modifies this
      ensures Valid() && State() == Serve(old(State()), jobs, StartOthers)
    {
      ServeKeeps(State(), jobs, StartOthers);
      StartSelected(OtherJobs);
    }

    method StopAllJobs()
      requires Valid()
      modifies this
      ensures Valid() && State() == Serve(old(State()), jobs, ShutDown)
    {
      ServeKeeps(State(), jobs, ShutDown);
      StopSelected(AllJobs);
    }
  }

  /** Stopping one more job: the selected job's entry goes and its goroutine, if it has one, is cancelled. */
  lemma StopOneMore(b: Book, jobs: seq<Job>, sel: Selection, k: nat)
    requires Consistent(b) && k < |jobs|
    ensures var before := Stop(b, jobs[..k], sel);
            var after := Stop(b, jobs[..k + 1], sel);
            var name := jobs[k].name;
            if Selects(sel, jobs[k]) && name in before.cancelFuncs then
              var i := before.cancelFuncs[name];
              && i < |before.goroutines|
              && after.cancelFuncs == before.cancelFuncs - {name}
              && after.goroutines == before.goroutines[i := before.goroutines[i].(cancelled := true)]
            else after == before
  {
    var before, after := Stop(b, jobs[..k], sel), Stop(b, jobs[..k + 1], sel);
    var name := jobs[k].name;
    StopKeeps(b, jobs[..k], sel);
    assert jobs[..k + 1] == jobs[..k] + [jobs[k]];
    NamesOfOneMore(jobs[..k], jobs[k], sel);
    if Selects(sel, jobs[k]) {
      assert after.cancelFuncs == before.cancelFuncs - {name};
      if name !in before.cancelFuncs {
        forall i | 0 <= i < |b.goroutines| ensures after.goroutines[i] == before.goroutines[i] {
          if before.goroutines[i].job == name { assert before.goroutines[i].cancelled; }
        }
        assert after.goroutines == before.goroutines;
      }
    }
  }
}
