/** Certificate requests: reviews, one creation worker and one status worker, interleaved between their
    storage and provider calls, either worker crashing anywhere. */
module Certificates {
  import opened Common

  datatype Status = AwaitingReview | Approved | Rejected | Pending | Issued | Failed | Completed

  function ValidTransitions(s: Status): set<Status> {
    match s
    case AwaitingReview => {Approved, Rejected}
    case Approved => {Pending}
    case Pending => {Issued, Failed}
    case Issued => {Completed}
    case _ => {}
  }

  predicate CanTransitionTo(s: Status, next: Status) { next in ValidTransitions(s) }

  predicate IsTerminal(s: Status) { s.Rejected? || s.Failed? || s.Completed? }

  datatype Request = Request(status: Status, identifier: Option<string>)

  datatype Event = Event(id: nat, newStatus: Status)

  /** A certificate the provider made; `confirmed` if the worker was told so. */
  datatype Creation = Creation(id: nat, confirmed: bool)

  /** Where the creation worker is; `queue` are the approved requests still to handle. */
  datatype Creator =
    | Resting
    | Handling(queue: seq<nat>)
    | Reserved(id: nat, queue: seq<nat>)
    | Missing(id: nat, queue: seq<nat>)
    | Refused(id: nat, queue: seq<nat>)
    | Made(id: nat, identifier: string, queue: seq<nat>)

  datatype Checker = Waiting | Checking(queue: seq<nat>)

  datatype System = System(requests: map<nat, Request>, events: seq<Event>, creations: seq<Creation>,
                           creator: Creator, checker: Checker)

  const NEW_SYSTEM := System(map[], [], [], Resting, Waiting)

  datatype Lookup = NotFound | Exists(identifier: string) | OtherError

  /** A creation may succeed, fail, or succeed and be reported as failed. */
  datatype Making = Success(identifier: string) | Failure | Unreported

  datatype Step =
    | Post(id: nat, autoApproved: bool)
    | Review(id: nat, approved: bool)
    | FetchApproved(ids: seq<nat>)
    | SkipRequest
    | Reserve(ok: bool)
    | LookUp(answer: Lookup)
    | Create(result: Making)
    | RollBack(ok: bool)
    | RecordIdentifier(ok: bool)
    | EndBatch
    | CreatorCrash
    | FetchPending(ids: seq<nat>)
    | SkipCheck
    | MarkIssued(ok: bool)
    | EndChecks
    | CheckerCrash

  function ApprovedIn(w: System): set<nat> {
    set id | id in w.requests && w.requests[id].status.Approved?
  }

  function PendingIn(w: System): set<nat> {
    set id | id in w.requests && w.requests[id].status.Pending? && w.requests[id].identifier.Some?
  }

  /** One transaction: the status is replaced, whatever it was, and an event is written. */
  function SetStatus(w: System, id: nat, s: Status): System
    requires id in w.requests
  {
    w.(requests := w.requests[id := w.requests[id].(status := s)], events := w.events + [Event(id, s)])
  }

  ghost predicate Enabled(w: System, s: Step) {
    match s
    case Post(id, _) => id !in w.requests
    case Review(id, _) => id in w.requests && w.requests[id].status.AwaitingReview?
    case FetchApproved(ids) => w.creator.Resting? && Lists(ids, ApprovedIn(w))
    case SkipRequest => w.creator.Handling? && w.creator.queue != []
    case Reserve(_) => w.creator.Handling? && w.creator.queue != [] && w.creator.queue[0] in w.requests
    case LookUp(_) => w.creator.Reserved?
    case Create(_) => w.creator.Missing?
    case RollBack(_) => w.creator.Refused? && w.creator.id in w.requests
    case RecordIdentifier(_) => w.creator.Made? && w.creator.id in w.requests
    case EndBatch => w.creator.Handling? && w.creator.queue == []
    case FetchPending(ids) => w.checker.Waiting? && Lists(ids, PendingIn(w))
    case SkipCheck => w.checker.Checking? && w.checker.queue != []
    case MarkIssued(_) => w.checker.Checking? && w.checker.queue != [] && w.checker.queue[0] in w.requests
    case EndChecks => w.checker.Checking? && w.checker.queue == []
    case _ => true
  }

  function Next(w: System, s: Step): System
    requires Enabled(w, s)
  {
    match s
    case Post(id, autoApproved) =>
      var posted := w.(requests := w.requests[id := Request(AwaitingReview, None)]);
      if autoApproved then SetStatus(posted, id, Approved) else posted
    case Review(id, approved) => SetStatus(w, id, if approved then Approved else Rejected)
    case FetchApproved(ids) => w.(creator := Handling(ids))
    case SkipRequest => w.(creator := Handling(w.creator.queue[1..]))
    case Reserve(ok) =>
      var id, rest := w.creator.queue[0], w.creator.queue[1..];
      if ok then SetStatus(w, id, Pending).(creator := Reserved(id, rest)) else w.(creator := Handling(rest))
    case LookUp(answer) =>
      w.(creator := match answer
                    case NotFound => Missing(w.creator.id, w.creator.queue)
                    case Exists(identifier) => Made(w.creator.id, identifier, w.creator.queue)
                    case OtherError => Handling(w.creator.queue))
    case Create(result) =>
      var id, rest := w.creator.id, w.creator.queue;
      w.(creator := if result.Success? then Made(id, result.identifier, rest) else Refused(id, rest),
         creations := if result.Failure? then w.creations else w.creations + [Creation(id, result.Success?)])
    case RollBack(ok) =>
      (if ok then SetStatus(w, w.creator.id, Approved) else w).(creator := Handling(w.creator.queue))
    case RecordIdentifier(ok) =>
      var id := w.creator.id;
      w.(creator := Handling(w.creator.queue),
         requests := if ok then w.requests[id := w.requests[id].(identifier := Some(w.creator.identifier))]
                     else w.requests)
    case EndBatch => w.(creator := Resting)
    case CreatorCrash => w.(creator := Resting)
    case FetchPending(ids) => w.(checker := Checking(ids))
    case SkipCheck => w.(checker := Checking(w.checker.queue[1..]))
    case MarkIssued(ok) =>
      (if ok then SetStatus(w, w.checker.queue[0], Issued) else w).(checker := Checking(w.checker.queue[1..]))
    case EndChecks => w.(checker := Waiting)
    case CheckerCrash => w.(checker := Waiting)
  }

  /** State k comes from the one before by the step between them. */
  ghost predicate StepsTo(ws: seq<System>, ss: seq<Step>, k: nat)
    requires 0 < k < |ws| == |ss| + 1
  {
    Enabled(ws[k - 1], ss[k - 1]) && ws[k] == Next(ws[k - 1], ss[k - 1])
  }

  ghost predicate Leads(ws: seq<System>, ss: seq<Step>) {
    |ws| == |ss| + 1 && forall k :: 0 < k < |ws| ==> StepsTo(ws, ss, k)
  }

  ghost predicate IsRun(ws: seq<System>, ss: seq<Step>) { Leads(ws, ss) && ws[0] == NEW_SYSTEM }

  /** How many certificates were made for the request, confirmed or not. */
  function Count(cs: seq<Creation>, id: nat, confirmed: bool): nat {
    if cs == [] then 0
    else
      var c := cs[|cs| - 1];
      Count(cs[..|cs| - 1], id, confirmed) + if c.id == id && c.confirmed == confirmed then 1 else 0
  }

  function TimesEntered(events: seq<Event>, id: nat, s: Status): nat {
    if events == [] then 0
    else
      var e := events[|events| - 1];
      TimesEntered(events[..|events| - 1], id, s) + if e == Event(id, s) then 1 else 0
  }

  // ------------------------------------------------------------------ what every step keeps

  function Queue(c: Creator): seq<nat> { if c.Resting? then [] else c.queue }

  predicate WorksOn(c: Creator, id: nat) { !c.Resting? && !c.Handling? && c.id == id }

  /** One request, seen together with the creation worker and its certificates. */
  ghost predicate RequestOk(w: System, id: nat)
    requires id in w.requests
  {
    var r := w.requests[id];
    var confirmed := Count(w.creations, id, true);
    && (r.identifier.Some? ==> r.status.Pending? || r.status.Issued?)
    && (r.status.Issued? ==> r.identifier.Some?)
    && confirmed <= 1
    && (confirmed == 1 ==> r.status.Pending? || r.status.Issued?)
    && (id in Queue(w.creator) ==> r.status.Approved?)
    && (WorksOn(w.creator, id) ==> r.status.Pending? && r.identifier.None?
                                   && (w.creator.Made? || confirmed == 0))
    && TimesEntered(w.events, id, Issued) == (if r.status.Issued? then 1 else 0)
  }

  ghost predicate Inv(w: System) {
    && (forall id :: id in w.requests ==> RequestOk(w, id))
    && (forall id :: id !in w.requests ==>
          Count(w.creations, id, true) == 0 && TimesEntered(w.events, id, Issued) == 0)
    && CreatorOk(w)
    && CheckerOk(w)
  }

  lemma OneMoreCreation(cs: seq<Creation>, c: Creation, id: nat, confirmed: bool)
    ensures Count(cs + [c], id, confirmed) == Count(cs, id, confirmed) + if c == Creation(id, confirmed) then 1 else 0
  {
    assert (cs + [c])[..|cs + [c]| - 1] == cs;
  }

  lemma OneMoreEvent(events: seq<Event>, e: Event, id: nat, s: Status)
    ensures TimesEntered(events + [e], id, s) == TimesEntered(events, id, s) + if e == Event(id, s) then 1 else 0
  {
    assert (events + [e])[..|events + [e]| - 1] == events;
  }

  /** The creation and event counts after a step, for one request. */
  lemma CountsAfter(w: System, s: Step, id: nat)
    requires Enabled(w, s)
    ensures var d := Next(w, s);
            && Count(d.creations, id, true) == Count(w.creations, id, true)
                 + (if s.Create? && s.result.Success? && w.creator.id == id then 1 else 0)
            && TimesEntered(d.events, id, Issued) == TimesEntered(w.events, id, Issued)
                 + (if s == MarkIssued(true) && w.checker.queue[0] == id then 1 else 0)
  {
    match s
    case Post(i, a) => if a { OneMoreEvent(w.events, Event(i, Approved), id, Issued); }
    case Review(i, a) => OneMoreEvent(w.events, Event(i, if a then Approved else Rejected), id, Issued);
    case Reserve(ok) => OneMoreEvent(w.events, Event(w.creator.queue[0], Pending), id, Issued);
    case RollBack(ok) => OneMoreEvent(w.events, Event(w.creator.id, Approved), id, Issued);
    case MarkIssued(ok) => OneMoreEvent(w.events, Event(w.checker.queue[0], Issued), id, Issued);
    case Create(result) => OneMoreCreation(w.creations, Creation(w.creator.id, result.Success?), id, true);
    case _ =>
  }

  /** Taking the next request from the queue. */
  lemma TakeStep(w: System, s: Step, id: nat)
    requires Enabled(w, s) && (s.SkipRequest? || s.Reserve?)
    requires id in w.requests && RequestOk(w, id) && Distinct(w.creator.queue)
    ensures RequestOk(Next(w, s), id)
  {
    CountsAfter(w, s, id);
    var queue := w.creator.queue;
    assert queue == [queue[0]] + queue[1..];
    if id in queue[1..] {
      var k :| 0 <= k < |queue[1..]| && queue[1..][k] == id;
      assert queue[k + 1] == id != queue[0];
    }
  }

  /** Working on a reserved request. */
  lemma WorkStep(w: System, s: Step, id: nat)
    requires Enabled(w, s) && (s.LookUp? || s.Create? || s.RollBack? || s.RecordIdentifier?)
    requires id in w.requests && RequestOk(w, id)
    ensures RequestOk(Next(w, s), id)
  {
    CountsAfter(w, s, id);
    assert Queue(Next(w, s).creator) == w.creator.queue;
  }

  /** The creation worker starts, ends or crashes. */
  lemma BatchStep(w: System, s: Step, id: nat)
    requires Enabled(w, s) && (s.FetchApproved? || s.EndBatch? || s.CreatorCrash?)
    requires id in w.requests && RequestOk(w, id)
    ensures RequestOk(Next(w, s), id)
  {
  }

  /** Handlers. */
  lemma PostStep(w: System, s: Step, id: nat)
    requires Enabled(w, s) && s.Post? && id in Next(w, s).requests
    requires id in w.requests ==> RequestOk(w, id)
    requires id !in w.requests ==> Count(w.creations, id, true) == 0 && TimesEntered(w.events, id, Issued) == 0
                                   && id !in Queue(w.creator) && !WorksOn(w.creator, id)
    ensures RequestOk(Next(w, s), id)
  {
    if s.autoApproved { OneMoreEvent(w.events, Event(s.id, Approved), id, Issued); }
    assert Next(w, s).creator == w.creator && Next(w, s).creations == w.creations;
  }

  lemma ReviewStep(w: System, s: Step, id: nat)
    requires Enabled(w, s) && s.Review? && id in w.requests && RequestOk(w, id)
    ensures RequestOk(Next(w, s), id)
  {
    OneMoreEvent(w.events, Event(s.id, if s.approved then Approved else Rejected), id, Issued);
    assert Next(w, s).creator == w.creator && Next(w, s).creations == w.creations;
  }

  /** The status worker. */
  lemma CheckStep(w: System, s: Step, id: nat)
    requires Enabled(w, s) && (s.FetchPending? || s.SkipCheck? || s.MarkIssued? || s.EndChecks? || s.CheckerCrash?)
    requires id in w.requests && RequestOk(w, id)
    requires s.MarkIssued? ==> w.requests[w.checker.queue[0]].status.Pending?
                               && w.requests[w.checker.queue[0]].identifier.Some?
    ensures RequestOk(Next(w, s), id)
  {
    CountsAfter(w, s, id);
  }

  ghost predicate CreatorOk(w: System) {
    && Distinct(Queue(w.creator))
    && (forall id :: id in Queue(w.creator) || WorksOn(w.creator, id) ==> id in w.requests)
  }

  lemma CreatorStep(w: System, s: Step)
    requires Enabled(w, s) && CreatorOk(w)
    ensures CreatorOk(Next(w, s))
  {
    if s.SkipRequest? || s.Reserve? {
      assert w.creator.queue[0] in Queue(w.creator);
    }
  }

  ghost predicate CheckerOk(w: System) {
    w.checker.Checking? ==>
      && Distinct(w.checker.queue)
      && forall id :: id in w.checker.queue ==>
           id in w.requests && w.requests[id].status.Pending? && w.requests[id].identifier.Some?
  }

  /** No other step touches a request the status worker has fetched. */
  lemma FetchedStays(w: System, s: Step, id: nat)
    requires Enabled(w, s) && Inv(w) && !s.MarkIssued?
    requires id in w.requests && w.requests[id].status.Pending? && w.requests[id].identifier.Some?
    ensures id in Next(w, s).requests
    ensures Next(w, s).requests[id] == w.requests[id]
  {
    assert RequestOk(w, id);
    if s.Reserve? { assert w.creator.queue[0] in Queue(w.creator); }
  }

  /** Marking takes one request off the queue and leaves the others alone. */
  lemma MarkStep(w: System, s: Step)
    requires Enabled(w, s) && s.MarkIssued? && CheckerOk(w)
    ensures CheckerOk(Next(w, s))
  {
    var queue := w.checker.queue;
    forall id | id in queue[1..] ensures id in queue && id != queue[0] {
      var k :| 0 <= k < |queue[1..]| && queue[1..][k] == id;
      assert queue[k + 1] == id;
    }
  }

  lemma CheckerStep(w: System, s: Step)
    requires Enabled(w, s) && Inv(w)
    ensures CheckerOk(Next(w, s))
  {
    if s.MarkIssued? {
      MarkStep(w, s);
    } else {
      forall id | id in PendingIn(w) ensures id in Next(w, s).requests && Next(w, s).requests[id] == w.requests[id] {
        FetchedStays(w, s, id);
      }
    }
  }

  lemma InvStep(w: System, s: Step)
    requires Enabled(w, s) && Inv(w)
    ensures Inv(Next(w, s))
  {
    var d := Next(w, s);
    forall id | id in d.requests ensures RequestOk(d, id) {
      match s
      case SkipRequest => TakeStep(w, s, id);
      case Reserve(_) => TakeStep(w, s, id);
      case LookUp(_) => WorkStep(w, s, id);
      case Create(_) => WorkStep(w, s, id);
      case RollBack(_) => WorkStep(w, s, id);
      case RecordIdentifier(_) => WorkStep(w, s, id);
      case FetchApproved(_) => BatchStep(w, s, id);
      case EndBatch => BatchStep(w, s, id);
      case CreatorCrash => BatchStep(w, s, id);
      case Post(_, _) => PostStep(w, s, id);
      case Review(_, _) => ReviewStep(w, s, id);
      case _ => CheckStep(w, s, id);
    }
    forall id | id !in d.requests ensures Count(d.creations, id, true) == 0 && TimesEntered(d.events, id, Issued) == 0 {
      CountsAfter(w, s, id);
    }
    CreatorStep(w, s);
    CheckerStep(w, s);
  }

  lemma {:induction false} InvAlways(ws: seq<System>, ss: seq<Step>, k: nat)
    requires IsRun(ws, ss) && k < |ws|
    ensures Inv(ws[k])
  {
    if k > 0 {
      InvAlways(ws, ss, k - 1);
      assert StepsTo(ws, ss, k);
      InvStep(ws[k - 1], ss[k - 1]);
    }
  }

  /** Main result. In every run each request is issued at most once and gets at most one certificate the
      worker was told of; a recorded identifier means pending or issued. */
  lemma AtMostOneCertificate(ws: seq<System>, ss: seq<Step>, k: nat, id: nat)
    requires IsRun(ws, ss) && k < |ws| && id in ws[k].requests
    ensures Count(ws[k].creations, id, true) <= 1
    ensures TimesEntered(ws[k].events, id, Issued) <= 1
    ensures var r := ws[k].requests[id];
            r.identifier.Some? ==> r.status.Pending? || r.status.Issued?
  {
    InvAlways(ws, ss, k);
    assert RequestOk(ws[k], id);
  }

  /** All certificates made for the request. */
  function Total(cs: seq<Creation>, id: nat): nat { Count(cs, id, true) + Count(cs, id, false) }

  lemma TotalAfter(w: System, s: Step, id: nat)
    requires Enabled(w, s)
    ensures Total(Next(w, s).creations, id) ==
              Total(w.creations, id) + if s.Create? && !s.result.Failure? && w.creator.id == id then 1 else 0
  {
    if s.Create? {
      var c := Creation(w.creator.id, s.result.Success?);
      OneMoreCreation(w.creations, c, id, true);
      OneMoreCreation(w.creations, c, id, false);
    }
  }

  /** The look-up does not find a certificate that the provider has made for the request. */
  predicate Misses(w: System, s: Step) {
    w.creator.Reserved? && s == LookUp(NotFound) && Total(w.creations, w.creator.id) > 0
  }

  ghost predicate OneSoFar(w: System, id: nat) {
    Total(w.creations, id) <= if w.creator.Missing? && w.creator.id == id then 0 else 1
  }

  lemma OneSoFarStep(w: System, s: Step, id: nat)
    requires Enabled(w, s) && OneSoFar(w, id) && !Misses(w, s)
    ensures OneSoFar(Next(w, s), id)
  {
    TotalAfter(w, s, id);
  }

  /** Main result: as long as no look-up misses a certificate, no request gets a second one, whatever the
      provider reports of its creations. */
  lemma {:induction false} LookUpsGiveOne(ws: seq<System>, ss: seq<Step>, k: nat, id: nat)
    requires IsRun(ws, ss) && k < |ws|
    requires forall j :: 0 <= j < |ss| ==> !Misses(ws[j], ss[j])
    ensures OneSoFar(ws[k], id)
  {
    if k > 0 {
      LookUpsGiveOne(ws, ss, k - 1, id);
      assert StepsTo(ws, ss, k);
      OneSoFarStep(ws[k - 1], ss[k - 1], id);
    }
  }

  /** What can follow the answer "not found", up to and with the next creation. */
  ghost predicate UpToCreation(ws: seq<System>, ss: seq<Step>, w: System)
    requires w.creator.Reserved?
  {
    && Leads(ws, ss) && ws[0] == Next(w, LookUp(NotFound))
    && ss != [] && ss[|ss| - 1].Create? && forall k :: 0 <= k < |ss| - 1 ==> !ss[k].Create?
  }

  lemma {:induction false} NothingMade(ws: seq<System>, ss: seq<Step>, k: nat)
    requires Leads(ws, ss) && k < |ws| && forall j :: 0 <= j < k ==> !ss[j].Create?
    ensures ws[k].creations == ws[0].creations
  {
    if k > 0 {
      NothingMade(ws, ss, k - 1);
      assert StepsTo(ws, ss, k);
    }
  }

  ghost predicate MakesSecond(ws: seq<System>, ss: seq<Step>, w: System)
    requires w.creator.Reserved?
  {
    UpToCreation(ws, ss, w) && Total(ws[|ss|].creations, w.creator.id) == 2
  }

  lemma MissedMakesSecond(w: System)
    requires w.creator.Reserved? && Total(w.creations, w.creator.id) == 1
    ensures exists ws, ss :: MakesSecond(ws, ss, w)
  {
    var c, s := Next(w, LookUp(NotFound)), Create(Unreported);
    var d := Next(c, s);
    TotalAfter(c, s, w.creator.id);
    var ws, ss := [c, d], [s];
    assert ws[0] == c && ws[1] == d && ss[0] == s;
    assert StepsTo(ws, ss, 1);
    assert MakesSecond(ws, ss, w);
  }

  lemma OneMoreAtMost(ws: seq<System>, ss: seq<Step>, w: System)
    requires w.creator.Reserved? && UpToCreation(ws, ss, w)
    ensures Total(ws[|ss|].creations, w.creator.id) <= Total(w.creations, w.creator.id) + 1
  {
    NothingMade(ws, ss, |ss| - 1);
    assert StepsTo(ws, ss, |ss|);
    TotalAfter(ws[|ss| - 1], ss[|ss| - 1], w.creator.id);
  }

  /** Main result, from any state in which the look-up answers "not found" for a request with at most one
      certificate: whatever the handlers, the other worker or a crash do in between, the next creation can
      give that request a second one if and only if the look-up missed one. */
  lemma SecondIffMissed(w: System)
    requires w.creator.Reserved? && Total(w.creations, w.creator.id) <= 1
    ensures (exists ws, ss :: MakesSecond(ws, ss, w)) <==> Misses(w, LookUp(NotFound))
  {
    if Misses(w, LookUp(NotFound)) {
      MissedMakesSecond(w);
    } else if exists ws, ss :: MakesSecond(ws, ss, w) {
      var ws, ss :| MakesSecond(ws, ss, w);
      OneMoreAtMost(ws, ss, w);
    }
  }

  lemma {:induction false} NoneUnreported(ws: seq<System>, ss: seq<Step>, k: nat, id: nat)
    requires IsRun(ws, ss) && k < |ws|
    requires forall j :: 0 <= j < |ss| ==> ss[j] != Create(Unreported)
    ensures Count(ws[k].creations, id, false) == 0
  {
    if k > 0 {
      NoneUnreported(ws, ss, k - 1, id);
      assert StepsTo(ws, ss, k);
      if ss[k - 1].Create? && ss[k - 1].result.Success? {
        OneMoreCreation(ws[k - 1].creations, Creation(ws[k - 1].creator.id, true), id, false);
      }
    }
  }

  /** If the provider reports truthfully, each request gets at most one certificate in all. */
  lemma TruthfulReportsGiveOne(ws: seq<System>, ss: seq<Step>, k: nat, id: nat)
    requires IsRun(ws, ss) && k < |ws| && id in ws[k].requests
    requires forall j :: 0 <= j < |ss| ==> ss[j] != Create(Unreported)
    ensures Total(ws[k].creations, id) <= 1
  {
    AtMostOneCertificate(ws, ss, k, id);
    NoneUnreported(ws, ss, k, id);
  }

  /** A recorded identifier is never replaced, and its request only moves on from pending to issued. */
  lemma RecordedStep(w: System, s: Step, id: nat)
    requires Enabled(w, s) && Inv(w) && id in w.requests && w.requests[id].identifier.Some?
    ensures var d := Next(w, s);
            && id in d.requests && d.requests[id].identifier == w.requests[id].identifier
            && (d.requests[id].status == w.requests[id].status
                || (w.requests[id].status.Pending? && d.requests[id].status.Issued?))
  {
    assert RequestOk(w, id);
    if s.Reserve? { assert w.creator.queue[0] in Queue(w.creator); }
    if s.MarkIssued? { assert w.checker.queue[0] in w.checker.queue; }
  }

  lemma {:induction false} RecordedStays(ws: seq<System>, ss: seq<Step>, j: nat, k: nat, id: nat)
    requires IsRun(ws, ss) && j <= k < |ws|
    requires id in ws[j].requests && ws[j].requests[id].identifier.Some?
    ensures id in ws[k].requests && ws[k].requests[id].identifier == ws[j].requests[id].identifier
    ensures ws[j].requests[id].status.Issued? ==> ws[k].requests[id].status.Issued?
  {
    if j < k {
      RecordedStays(ws, ss, j, k - 1, id);
      InvAlways(ws, ss, k - 1);
      assert StepsTo(ws, ss, k);
      RecordedStep(ws[k - 1], ss[k - 1], id);
    }
  }

  /** Reserved, without an identifier, and nobody is working on it. */
  ghost predicate Abandoned(w: System, id: nat) {
    id in w.requests && w.requests[id] == Request(Pending, None) && !WorksOn(w.creator, id)
  }

  lemma AbandonedStep(w: System, s: Step, id: nat)
    requires Enabled(w, s) && Inv(w) && Abandoned(w, id)
    ensures Abandoned(Next(w, s), id)
    ensures Total(Next(w, s).creations, id) == Total(w.creations, id)
  {
    assert RequestOk(w, id);
    TotalAfter(w, s, id);
    if s.Reserve? { assert w.creator.queue[0] in Queue(w.creator); }
    if s.MarkIssued? { assert w.checker.queue[0] in w.checker.queue; }
  }

  /** The steps at which the worker leaves the request it works on like that. */
  lemma AbandonedIff(w: System, s: Step, id: nat)
    requires Enabled(w, s) && Inv(w) && WorksOn(w.creator, id)
    ensures Abandoned(Next(w, s), id) <==>
              s.CreatorCrash? || s in {LookUp(OtherError), RecordIdentifier(false), RollBack(false)}
  {
    assert id in w.requests && RequestOk(w, id);
    if s.MarkIssued? { assert w.checker.queue[0] in w.checker.queue; }
  }

  /** An abandoned request is never taken up again and gets no certificate any more: the status worker does
      not come to it, although the creation worker counts on that. */
  lemma {:induction false} AbandonedForever(ws: seq<System>, ss: seq<Step>, j: nat, k: nat, id: nat)
    requires IsRun(ws, ss) && j <= k < |ws| && Abandoned(ws[j], id)
    ensures Abandoned(ws[k], id) && Total(ws[k].creations, id) == Total(ws[j].creations, id)
  {
    if j < k {
      AbandonedForever(ws, ss, j, k - 1, id);
      InvAlways(ws, ss, k - 1);
      assert StepsTo(ws, ss, k);
      AbandonedStep(ws[k - 1], ss[k - 1], id);
    }
  }

  /** Storage never asks the transition table, yet every change of status is one it allows, except the
      creation worker's way back from pending to approved. */
  lemma StatusStep(w: System, s: Step, id: nat)
    requires Enabled(w, s) && Inv(w) && id in w.requests
    ensures var d := Next(w, s);
            && id in d.requests
            && (d.requests[id].status == w.requests[id].status
                || CanTransitionTo(w.requests[id].status, d.requests[id].status)
                || (s == RollBack(true) && w.creator.id == id
                    && w.requests[id].status.Pending? && d.requests[id].status.Approved?))
  {
    assert RequestOk(w, id);
    if s.Reserve? {
      assert w.creator.queue[0] in Queue(w.creator) && RequestOk(w, w.creator.queue[0]);
    } else if s.MarkIssued? {
      assert w.checker.queue[0] in w.checker.queue;
    }
  }

  /** A rejected, failed or completed request stays what it is. */
  lemma {:induction false} TerminalStays(ws: seq<System>, ss: seq<Step>, j: nat, k: nat, id: nat)
    requires IsRun(ws, ss) && j <= k < |ws|
    requires id in ws[j].requests && IsTerminal(ws[j].requests[id].status)
    ensures id in ws[k].requests && ws[k].requests[id].status == ws[j].requests[id].status
  {
    if j < k {
      TerminalStays(ws, ss, j, k - 1, id);
      InvAlways(ws, ss, k - 1);
      assert StepsTo(ws, ss, k);
      StatusStep(ws[k - 1], ss[k - 1], id);
    }
  }

  // ------------------------------------------------------------------ runs that go wrong

  ghost predicate Reachable(w: System) {
    exists ws, ss :: IsRun(ws, ss) && ws[|ws| - 1] == w
  }

  lemma Onward(w: System, s: Step) returns (d: System)
    requires Reachable(w) && Enabled(w, s)
    ensures d == Next(w, s) && Reachable(d)
  {
    d := Next(w, s);
    var ws, ss :| IsRun(ws, ss) && ws[|ws| - 1] == w;
    var ws', ss' := ws + [d], ss + [s];
    forall k | 0 < k < |ws'| ensures StepsTo(ws', ss', k) {
      if k < |ws| { assert StepsTo(ws, ss, k); }
    }
    assert IsRun(ws', ss') && ws'[|ws'| - 1] == d;
  }

  /** One attempt at the only request there is, up to the provider's answer. */
  lemma Attempt(w: System, id: nat, result: Making) returns (d: System)
    requires Reachable(w) && w.creator.Resting?
    requires w.requests == map[id := Request(Approved, None)]
    ensures Reachable(d) && d.requests == map[id := Request(Pending, None)]
    ensures d.creations == if result.Failure? then w.creations else w.creations + [Creation(id, result.Success?)]
    ensures d.creator == if result.Success? then Made(id, result.identifier, []) else Refused(id, [])
  {
    assert ApprovedIn(w) == {id};
    d := Onward(w, FetchApproved([id]));
    d := Onward(d, Reserve(true));
    d := Onward(d, LookUp(NotFound));
    d := Onward(d, Create(result));
  }

  lemma OneOfEach(id: nat)
    ensures var both := [Creation(id, false)] + [Creation(id, true)];
            Total(both, id) == 2
  {
    var first := [Creation(id, false)];
    OneMoreCreation(first, Creation(id, true), id, true);
    OneMoreCreation(first, Creation(id, true), id, false);
  }

  /** One success is reported as a failure, and the request goes back to approved. */
  lemma LostReport(id: nat) returns (w: System)
    ensures Reachable(w) && w.creator.Resting?
    ensures w.requests == map[id := Request(Approved, None)] && w.creations == [Creation(id, false)]
  {
    assert IsRun([NEW_SYSTEM], []) && [NEW_SYSTEM][|[NEW_SYSTEM]| - 1] == NEW_SYSTEM;
    w := Onward(NEW_SYSTEM, Post(id, true));
    w := Attempt(w, id, Unreported);
    assert [] + [Creation(id, false)] == [Creation(id, false)];
    w := Onward(w, RollBack(true));
    w := Onward(w, EndBatch);
  }

  /** If the next look-up then does not find the certificate, the request gets a second one. */
  lemma LostReportMakesTwo(id: nat, identifier: string)
    ensures exists w :: Reachable(w) && Total(w.creations, id) == 2
  {
    var w := LostReport(id);
    w := Attempt(w, id, Success(identifier));
    OneOfEach(id);
  }

  /** A run that abandons a request together with its certificate: the identifier could not be recorded. */
  lemma UnrecordedIsAbandoned(id: nat, identifier: string)
    ensures exists w :: Reachable(w) && Abandoned(w, id) && Total(w.creations, id) == 1
  {
    assert IsRun([NEW_SYSTEM], []) && [NEW_SYSTEM][|[NEW_SYSTEM]| - 1] == NEW_SYSTEM;
    var w := Onward(NEW_SYSTEM, Post(id, true));
    w := Attempt(w, id, Success(identifier));
    assert [] + [Creation(id, true)] == [Creation(id, true)];
    OneMoreCreation([], Creation(id, true), id, true);
    OneMoreCreation([], Creation(id, true), id, false);
    assert Total(w.creations, id) == 1;
    w := Onward(w, RecordIdentifier(false));
  }

  // ------------------------------------------------------------------ the creation worker's loop

  /** The steps lead from one state to the other. */
  ghost predicate Follows(w: System, ss: seq<Step>, d: System) {
    exists ws :: Leads(ws, ss) && ws[0] == w && ws[|ss|] == d
  }

  lemma FollowsNothing(w: System)
    ensures Follows(w, [], w)
  {
    assert Leads([w], []) && [w][0] == w;
  }

  lemma FollowsConcat(w: System, s1: seq<Step>, c: System, s2: seq<Step>, d: System)
    requires Follows(w, s1, c) && Follows(c, s2, d)
    ensures Follows(w, s1 + s2, d)
  {
    var w1: seq<System> :| Leads(w1, s1) && w1[0] == w && w1[|s1|] == c;
    var w2: seq<System> :| Leads(w2, s2) && w2[0] == c && w2[|s2|] == d;
    var ws, ss := w1[..|s1|] + w2, s1 + s2;
    forall k | 0 < k < |ws| ensures StepsTo(ws, ss, k) {
      if k <= |s1| { assert StepsTo(w1, s1, k); } else { assert StepsTo(w2, s2, k - |s1|); }
    }
    assert Leads(ws, ss) && ws[0] == w && ws[|ss|] == d;
  }

  lemma FollowsOne(c: System, s: Step) returns (d: System)
    requires Enabled(c, s)
    ensures d == Next(c, s) && Follows(c, [s], d)
  {
    d := Next(c, s);
    assert StepsTo([c, d], [s], 1);
    assert Leads([c, d], [s]) && [c, d][0] == c && [c, d][|[s]|] == d;
  }

  lemma Take(w: System, ss: seq<Step>, c: System, s: Step) returns (d: System)
    requires Follows(w, ss, c) && Enabled(c, s)
    ensures d == Next(c, s) && Follows(w, ss + [s], d)
  {
    d := FollowsOne(c, s);
    FollowsConcat(w, ss, c, [s], d);
  }

  /** What the calls for one request are going to answer. */
  datatype Answers = Answers(systemUser: bool, reserve: bool, lookUp: Lookup, making: Making,
                             rollBack: bool, record: bool)

  /** The steps the loop takes for one request. */
  function Script(a: Answers): seq<Step> {
    if !a.systemUser then [SkipRequest]
    else if !a.reserve then [Reserve(false)]
    else [Reserve(true)] + MakingScript(a)
  }

  function MakingScript(a: Answers): seq<Step> {
    match a.lookUp
    case OtherError => [LookUp(a.lookUp)]
    case Exists(_) => [LookUp(a.lookUp), RecordIdentifier(a.record)]
    case NotFound => [LookUp(a.lookUp)] + CreatingScript(a)
  }

  function CreatingScript(a: Answers): seq<Step> {
    [Create(a.making)] + [if a.making.Success? then RecordIdentifier(a.record) else RollBack(a.rollBack)]
  }

  function Scripts(answers: seq<Answers>): seq<Step> {
    if answers == [] then []
    else Scripts(answers[..|answers| - 1]) + Script(answers[|answers| - 1])
  }

  lemma ScriptsGrow(answers: seq<Answers>, k: nat)
    requires k < |answers|
    ensures Scripts(answers[..k + 1]) == Scripts(answers[..k]) + Script(answers[k])
  {
    assert answers[..k + 1][..k] == answers[..k];
  }

  class CreationJob {
    var requests: map<nat, Request>
    var events: seq<Event>
    var creations: seq<Creation>

    ghost predicate Matches(w: System)
      reads this
    {
      w.requests == requests && w.events == events && w.creations == creations
    }

    method UpdateStatus(id: nat, s: Status, ok: bool)
      requires id in requests
      modifies this
      ensures creations == old(creations)
      ensures requests == if ok then old(requests)[id := old(requests)[id].(status := s)] else old(requests)
      ensures events == if ok then old(events) + [Event(id, s)] else old(events)
    {
      if ok {
        requests := requests[id := requests[id].(status := s)];
        events := events + [Event(id, s)];
      }
    }

    /** The loop over the approved requests takes exactly the worker's steps, in order, and ends with the
        queue empty. */
    method HandleApproved(certs: seq<nat>, answers: seq<Answers>, ghost w: System) returns (ghost d: System)
      requires |answers| == |certs| && Matches(w) && w.creator == Handling(certs)
      requires forall id :: id in certs ==> id in requests
      modifies this
      ensures Follows(w, Scripts(answers), d) && d.creator == Handling([])
      ensures d.requests == requests && d.events == events && d.creations == creations
    {
      d := w;
      FollowsNothing(w);
      for k := 0 to |certs|
        invariant Follows(w, Scripts(answers[..k]), d)
        invariant Matches(d) && d.creator == Handling(certs[k..])
        invariant requests.Keys == old(requests).Keys
      {
        assert certs[k] in certs;
        d := HandleNext(certs, answers, k, w, d);
      }
      assert answers[..|answers|] == answers;
    }

    /** One turn of the loop. */
    method HandleNext(certs: seq<nat>, answers: seq<Answers>, k: nat, ghost w: System, ghost c: System)
        returns (ghost d: System)
      requires k < |certs| == |answers| && Matches(c) && c.creator == Handling(certs[k..]) && certs[k] in requests
      requires Follows(w, Scripts(answers[..k]), c)
      modifies this
      ensures Follows(w, Scripts(answers[..k + 1]), d) && Matches(d) && d.creator == Handling(certs[k + 1..])
      ensures requests.Keys == old(requests).Keys
    {
      assert certs[k..] == [certs[k]] + certs[k + 1..];
      d := HandleOne(certs[k], answers[k], c, certs[k + 1..]);
      ScriptsGrow(answers, k);
      FollowsConcat(w, Scripts(answers[..k]), c, Script(answers[k]), d);
    }

    method HandleOne(id: nat, a: Answers, ghost c: System, ghost rest: seq<nat>) returns (ghost d: System)
      requires Matches(c) && c.creator == Handling([id] + rest) && id in requests
      modifies this
      ensures Follows(c, Script(a), d) && Matches(d) && d.creator == Handling(rest)
      ensures requests.Keys == old(requests).Keys
    {
      assert ([id] + rest)[1..] == rest;
      if !a.systemUser {
        d := FollowsOne(c, SkipRequest);
        return;
      }
      UpdateStatus(id, Pending, a.reserve);
      d := FollowsOne(c, Reserve(a.reserve));
      if !a.reserve { return; }
      ghost var reserved := d;
      d := MakeOne(id, a, reserved, rest);
      FollowsConcat(c, [Reserve(true)], reserved, MakingScript(a), d);
    }

    /** From the reserved request to its identifier or back to approved. */
    method MakeOne(id: nat, a: Answers, ghost c: System, ghost rest: seq<nat>) returns (ghost d: System)
      requires Matches(c) && c.creator == Reserved(id, rest) && id in requests
      modifies this
      ensures Follows(c, MakingScript(a), d) && Matches(d) && d.creator == Handling(rest)
      ensures requests.Keys == old(requests).Keys
    {
      ghost var looked := FollowsOne(c, LookUp(a.lookUp));
      match a.lookUp {
        case NotFound =>
          d := CreateOne(id, a, looked, rest);
          FollowsConcat(c, [LookUp(a.lookUp)], looked, CreatingScript(a), d);
        case OtherError =>
          d := looked;
        case Exists(found) =>
          Record(id, found, a.record);
          d := Take(c, [LookUp(a.lookUp)], looked, RecordIdentifier(a.record));
          assert [LookUp(a.lookUp)] + [RecordIdentifier(a.record)] == MakingScript(a);
      }
    }

    /** The certificate is not there yet. */
    method CreateOne(id: nat, a: Answers, ghost c: System, ghost rest: seq<nat>) returns (ghost d: System)
      requires Matches(c) && c.creator == Missing(id, rest) && id in requests
      modifies this
      ensures Follows(c, CreatingScript(a), d) && Matches(d) && d.creator == Handling(rest)
      ensures requests.Keys == old(requests).Keys
    {
      if !a.making.Failure? { creations := creations + [Creation(id, a.making.Success?)]; }
      ghost var made := FollowsOne(c, Create(a.making));
      if a.making.Success? {
        Record(id, a.making.identifier, a.record);
        d := Take(c, [Create(a.making)], made, RecordIdentifier(a.record));
      } else {
        UpdateStatus(id, Approved, a.rollBack);
        d := Take(c, [Create(a.making)], made, RollBack(a.rollBack));
      }
    }

    method Record(id: nat, identifier: string, ok: bool)
      requires id in requests
      modifies this`requests
      ensures requests == if ok then old(requests)[id := old(requests)[id].(identifier := Some(identifier))]
                          else old(requests)
    {
      if ok {
        requests := requests[id := requests[id].(identifier := Some(identifier))];
      }
    }
  }

  // ------------------------------------------------------------------ the status worker's loop

  /** Whether a request still has its identifier, is ready with readable data, and can be updated. */
  datatype Findings = Findings(ready: bool, update: bool)

  function CheckScript(f: Findings): Step { if f.ready then MarkIssued(f.update) else SkipCheck }

  function CheckScripts(findings: seq<Findings>): seq<Step> {
    if findings == [] then []
    else CheckScripts(findings[..|findings| - 1]) + [CheckScript(findings[|findings| - 1])]
  }

  lemma CheckScriptsGrow(findings: seq<Findings>, k: nat)
    requires k < |findings|
    ensures CheckScripts(findings[..k + 1]) == CheckScripts(findings[..k]) + [CheckScript(findings[k])]
  {
    assert findings[..k + 1][..k] == findings[..k];
  }

  class StatusJob {
    var requests: map<nat, Request>
    var events: seq<Event>

    ghost predicate Matches(w: System)
      reads this
    {
      w.requests == requests && w.events == events
    }

    method UpdateIssued(id: nat, ok: bool)
      requires id in requests
      modifies this
      ensures requests == if ok then old(requests)[id := old(requests)[id].(status := Issued)] else old(requests)
      ensures events == if ok then old(events) + [Event(id, Issued)] else old(events)
    {
      if ok {
        requests := requests[id := requests[id].(status := Issued)];
        events := events + [Event(id, Issued)];
      }
    }

    method HandleOne(id: nat, f: Findings, ghost c: System, ghost rest: seq<nat>) returns (ghost d: System)
      requires Matches(c) && c.checker == Checking([id] + rest) && id in requests
      modifies this
      ensures Follows(c, [CheckScript(f)], d) && Matches(d) && d.checker == Checking(rest)
      ensures requests.Keys == old(requests).Keys
    {
      assert ([id] + rest)[1..] == rest;
      if f.ready { UpdateIssued(id, f.update); }
      d := FollowsOne(c, CheckScript(f));
    }

    /** The loop over the pending requests takes exactly the status worker's steps, in order. */
    method HandlePending(certs: seq<nat>, findings: seq<Findings>, ghost w: System) returns (ghost d: System)
      requires |findings| == |certs| && Matches(w) && w.checker == Checking(certs)
      requires forall id :: id in certs ==> id in requests
      modifies this
      ensures Follows(w, CheckScripts(findings), d) && d.checker == Checking([])
      ensures d.requests == requests && d.events == events
    {
      d := w;
      FollowsNothing(w);
      for k := 0 to |certs|
        invariant Follows(w, CheckScripts(findings[..k]), d)
        invariant Matches(d) && d.checker == Checking(certs[k..])
        invariant requests.Keys == old(requests).Keys
      {
        ghost var c := d;
        assert certs[k..] == [certs[k]] + certs[k + 1..] && certs[k] in certs;
        d := HandleOne(certs[k], findings[k], c, certs[k + 1..]);
        CheckScriptsGrow(findings, k);
        FollowsConcat(w, CheckScripts(findings[..k]), c, [CheckScript(findings[k])], d);
      }
      assert findings[..|findings|] == findings;
    }
  }
}
