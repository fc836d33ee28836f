/** What reviews and workers do to one request, and what a certificate needs before it. */
module CertificateEffects {
  import opened Common
  import opened Certificates

  // ------------------------------------------------------------------ the transition table

  lemma TransitionsAre(s: Status, next: Status)
    ensures CanTransitionTo(s, next) <==>
              || (s.AwaitingReview? && (next.Approved? || next.Rejected?))
              || (s.Approved? && next.Pending?)
              || (s.Pending? && (next.Issued? || next.Failed?))
              || (s.Issued? && next.Completed?)
  {
  }

  /** The terminal statuses are those the table leads nowhere from. */
  lemma TerminalIffNoTransition(s: Status)
    ensures IsTerminal(s) <==> forall next :: !CanTransitionTo(s, next)
  {
    match s
    case AwaitingReview => assert CanTransitionTo(s, Approved);
    case Approved => assert CanTransitionTo(s, Pending);
    case Pending => assert CanTransitionTo(s, Issued);
    case Issued => assert CanTransitionTo(s, Completed);
    case _ =>
  }

  // ------------------------------------------------------------------ handlers

  /** A posted request awaits review, or is approved at once; it has no identifier. */
  lemma PostWrites(w: System, id: nat, autoApproved: bool)
    requires Enabled(w, Post(id, autoApproved))
    ensures var d := Next(w, Post(id, autoApproved));
            && d.requests.Keys == w.requests.Keys + {id} && d.requests[id].identifier.None?
            && (autoApproved <==> d.requests[id].status.Approved?)
            && (!autoApproved <==> d.requests[id].status.AwaitingReview?)
  {
  }

  /** A review says of a request that awaits one, and of no other, what the reviewer said. */
  lemma ReviewWrites(w: System, id: nat, approved: bool)
    ensures Enabled(w, Review(id, approved)) <==> id in w.requests && w.requests[id].status.AwaitingReview?
    ensures Enabled(w, Review(id, approved)) ==>
              var d := Next(w, Review(id, approved));
              && (approved ==> d.requests[id].status.Approved? && d.events == w.events + [Event(id, Approved)])
              && (!approved ==> d.requests[id].status.Rejected? && d.events == w.events + [Event(id, Rejected)])
              && d.requests[id].identifier == w.requests[id].identifier
  {
  }

  // ------------------------------------------------------------------ what a step leaves alone

  /** The request a step may write, if it may write one. */
  ghost function Subject(w: System, s: Step): Option<nat>
    requires Enabled(w, s)
  {
    match s
    case Post(id, _) => Some(id)
    case Review(id, _) => Some(id)
    case Reserve(_) => Some(w.creator.queue[0])
    case RollBack(_) => Some(w.creator.id)
    case RecordIdentifier(_) => Some(w.creator.id)
    case MarkIssued(_) => Some(w.checker.queue[0])
    case _ => None
  }

  lemma OthersUntouched(w: System, s: Step, id: nat)
    requires Enabled(w, s) && Subject(w, s) != Some(id)
    ensures var d := Next(w, s);
            && (id in d.requests <==> id in w.requests)
            && (id in w.requests ==> d.requests[id] == w.requests[id])
  {
  }

  /** Only a creation makes certificates, for the request the worker holds. */
  lemma OnlyCreationsMake(w: System, s: Step)
    requires Enabled(w, s)
    ensures Next(w, s).creations == w.creations
            || (s.Create? && !s.result.Failure?
                && Next(w, s).creations == w.creations + [Creation(w.creator.id, s.result.Success?)])
  {
  }

  // ------------------------------------------------------------------ workers

  /** Each worker takes up exactly the requests it is for. */
  lemma FetchesAll(w: System, ids: seq<nat>)
    ensures Enabled(w, FetchApproved(ids)) <==>
              w.creator.Resting? && Distinct(ids)
              && forall id :: id in ids <==> id in w.requests && w.requests[id].status == Approved
    ensures Enabled(w, FetchPending(ids)) <==>
              w.checker.Waiting? && Distinct(ids)
              && forall id :: id in ids <==>
                   id in w.requests && w.requests[id].status == Pending && w.requests[id].identifier.Some?
  {
  }

  /** A request that is reserved and not found at the provider gets a certificate, and its identifier. */
  lemma MadeIsRecorded(w: System, identifier: string) returns (d: System)
    requires w.creator.Reserved? && w.creator.id in w.requests
    ensures Follows(w, [LookUp(NotFound)] + [Create(Success(identifier))] + [RecordIdentifier(true)], d)
    ensures d.requests == w.requests[w.creator.id := w.requests[w.creator.id].(identifier := Some(identifier))]
    ensures d.creations == w.creations + [Creation(w.creator.id, true)] && d.creator == Handling(w.creator.queue)
    ensures d.checker == w.checker
  {
    d := FollowsOne(w, LookUp(NotFound));
    var e := Take(w, [LookUp(NotFound)], d, Create(Success(identifier)));
    d := Take(w, [LookUp(NotFound)] + [Create(Success(identifier))], e, RecordIdentifier(true));
  }

  /** One found there gets that identifier and no further certificate. */
  lemma FoundIsRecorded(w: System, identifier: string) returns (d: System)
    requires w.creator.Reserved? && w.creator.id in w.requests
    ensures Follows(w, [LookUp(Exists(identifier))] + [RecordIdentifier(true)], d)
    ensures d.requests == w.requests[w.creator.id := w.requests[w.creator.id].(identifier := Some(identifier))]
    ensures d.creations == w.creations && d.creator == Handling(w.creator.queue)
  {
    d := FollowsOne(w, LookUp(Exists(identifier)));
    d := Take(w, [LookUp(Exists(identifier))], d, RecordIdentifier(true));
  }

  /** A failed creation puts the request back to approved, to be taken up again. */
  lemma FailureGoesBack(w: System) returns (d: System)
    requires w.creator.Reserved? && w.creator.id in w.requests
    ensures Follows(w, [LookUp(NotFound)] + [Create(Failure)] + [RollBack(true)], d)
    ensures d.requests == w.requests[w.creator.id := w.requests[w.creator.id].(status := Approved)]
    ensures d.creations == w.creations && d.creator == Handling(w.creator.queue)
  {
    d := FollowsOne(w, LookUp(NotFound));
    var e := Take(w, [LookUp(NotFound)], d, Create(Failure));
    d := Take(w, [LookUp(NotFound)] + [Create(Failure)], e, RollBack(true));
  }

  /** Reserving marks the first request of the queue as pending and goes on with it. */
  lemma ReserveWrites(w: System, id: nat, rest: seq<nat>)
    requires w.creator == Handling([id] + rest) && id in w.requests
    ensures var d := Next(w, Reserve(true));
            && d.requests == w.requests[id := w.requests[id].(status := Pending)] && d.creator == Reserved(id, rest)
            && d.creations == w.creations && d.checker == w.checker
  {
    assert ([id] + rest)[1..] == rest;
  }

  /** The status worker issues a request under the identifier it has. */
  lemma IssueWrites(w: System, id: nat, rest: seq<nat>)
    requires w.checker == Checking([id] + rest) && id in w.requests
    ensures var d := Next(w, MarkIssued(true));
            && d.requests == w.requests[id := w.requests[id].(status := Issued)] && d.checker == Checking(rest)
            && d.creations == w.creations && d.creator == w.creator
            && d.events == w.events + [Event(id, Issued)]
  {
    assert ([id] + rest)[1..] == rest;
  }

  /** A request that is skipped is left as it is; a crash leaves everything but its worker as it is. */
  lemma SkipsAndCrashes(w: System, id: nat, rest: seq<nat>)
    ensures w.creator == Handling([id] + rest) ==> Next(w, SkipRequest) == w.(creator := Handling(rest))
    ensures w.checker == Checking([id] + rest) ==> Next(w, SkipCheck) == w.(checker := Checking(rest))
    ensures Next(w, CreatorCrash) == w.(creator := Resting) && Next(w, CheckerCrash) == w.(checker := Waiting)
  {
    assert ([id] + rest)[1..] == rest;
  }

  /** Short of a crash, a worker ends its pass only when it has been through its whole list. */
  lemma PassEndsWhenDone(w: System, s: Step)
    requires Enabled(w, s)
    ensures !w.creator.Resting? && Next(w, s).creator.Resting? ==> s.CreatorCrash? || w.creator == Handling([])
    ensures w.checker.Checking? && Next(w, s).checker.Waiting? ==> s.CheckerCrash? || w.checker == Checking([])
  {
  }

  // ------------------------------------------------------------------ one request, for every combination of answers

  lemma FollowsFirst(w: System, s: Step, ss: seq<Step>, d: System)
    requires Follows(w, [s] + ss, d)
    ensures Enabled(w, s) && Follows(Next(w, s), ss, d)
  {
    var all := [s] + ss;
    var ws: seq<System> :| Leads(ws, all) && ws[0] == w && ws[|all|] == d;
    assert StepsTo(ws, all, 1);
    forall k | 0 < k < |ws[1..]| ensures StepsTo(ws[1..], ss, k) { assert StepsTo(ws, all, k + 1); }
    assert Leads(ws[1..], ss) && ws[1..][0] == Next(w, s) && ws[1..][|ss|] == d;
  }

  lemma FollowsLast(w: System, s: Step, d: System)
    requires Follows(w, [s], d)
    ensures Enabled(w, s) && d == Next(w, s)
  {
    assert [s] == [s] + [];
    FollowsFirst(w, s, [], d);
  }

  lemma CreatingOutcome(w: System, a: Answers, d: System)
    requires w.creator.Missing? && w.creator.id in w.requests && Follows(w, CreatingScript(a), d)
    ensures var id, r := w.creator.id, w.requests[w.creator.id];
            && d.creator == Handling(w.creator.queue) && d.checker == w.checker
            && d.creations == w.creations + (if a.making.Failure? then [] else [Creation(id, a.making.Success?)])
            && d.requests == w.requests[id :=
                 if a.making.Success? && a.record then r.(identifier := Some(a.making.identifier))
                 else if !a.making.Success? && a.rollBack then r.(status := Approved) else r]
  {
    var last := if a.making.Success? then RecordIdentifier(a.record) else RollBack(a.rollBack);
    FollowsFirst(w, Create(a.making), [last], d);
    FollowsLast(Next(w, Create(a.making)), last, d);
  }

  lemma MakingOutcome(w: System, a: Answers, d: System)
    requires w.creator.Reserved? && w.creator.id in w.requests && Follows(w, MakingScript(a), d)
    ensures d.creator == Handling(w.creator.queue) && d.checker == w.checker
    ensures var id, r := w.creator.id, w.requests[w.creator.id];
            match a.lookUp
            case OtherError => d.requests == w.requests && d.creations == w.creations
            case Exists(identifier) =>
              && d.creations == w.creations
              && d.requests == if a.record then w.requests[id := r.(identifier := Some(identifier))] else w.requests
            case NotFound =>
              && d.creations == w.creations + (if a.making.Failure? then [] else [Creation(id, a.making.Success?)])
              && d.requests == w.requests[id :=
                   if a.making.Success? && a.record then r.(identifier := Some(a.making.identifier))
                   else if !a.making.Success? && a.rollBack then r.(status := Approved) else r]
  {
    var c := Next(w, LookUp(a.lookUp));
    match a.lookUp
    case OtherError => FollowsLast(w, LookUp(a.lookUp), d);
    case Exists(_) =>
      assert MakingScript(a) == [LookUp(a.lookUp)] + [RecordIdentifier(a.record)];
      FollowsFirst(w, LookUp(a.lookUp), [RecordIdentifier(a.record)], d);
      FollowsLast(c, RecordIdentifier(a.record), d);
    case NotFound =>
      FollowsFirst(w, LookUp(a.lookUp), CreatingScript(a), d);
      CreatingOutcome(c, a, d);
  }

  /** What the loop leaves of one request: untouched if it could not be reserved; otherwise pending, unless a
      creation failed or was reported as failed and the roll-back went through; and with the identifier that
      was found or made, if recording it went through. Only a creation the provider carried out makes a
      certificate. */
  lemma OneRequestOutcome(w: System, id: nat, rest: seq<nat>, a: Answers, d: System)
    requires w.creator == Handling([id] + rest) && id in w.requests && Follows(w, Script(a), d)
    ensures d.creator == Handling(rest) && d.checker == w.checker
    ensures !a.systemUser || !a.reserve ==> d.requests == w.requests && d.creations == w.creations
    ensures a.systemUser && a.reserve ==>
              && d.requests == w.requests[id := Request(
                   if a.lookUp.NotFound? && !a.making.Success? && a.rollBack then Approved else Pending,
                   if a.lookUp.Exists? && a.record then Some(a.lookUp.identifier)
                   else if a.lookUp.NotFound? && a.making.Success? && a.record then Some(a.making.identifier)
                   else w.requests[id].identifier)]
              && d.creations == w.creations +
                   if a.lookUp.NotFound? && !a.making.Failure? then [Creation(id, a.making.Success?)] else []
  {
    assert ([id] + rest)[1..] == rest;
    if !a.systemUser {
      FollowsLast(w, SkipRequest, d);
    } else if !a.reserve {
      FollowsLast(w, Reserve(false), d);
    } else {
      FollowsFirst(w, Reserve(true), MakingScript(a), d);
      MakingOutcome(Next(w, Reserve(true)), a, d);
    }
  }

  /** The status worker issues a request that is ready if the update goes through, and leaves it otherwise. */
  lemma OneCheckOutcome(w: System, id: nat, rest: seq<nat>, f: Findings, d: System)
    requires w.checker == Checking([id] + rest) && id in w.requests && Follows(w, [CheckScript(f)], d)
    ensures d.checker == Checking(rest) && d.creator == w.creator && d.creations == w.creations
    ensures d.requests == if f.ready && f.update then w.requests[id := w.requests[id].(status := Issued)]
                          else w.requests
  {
    assert ([id] + rest)[1..] == rest;
    FollowsLast(w, CheckScript(f), d);
  }

  // ------------------------------------------------------------------ passes that meet no failure

  /** The listed requests have a certificate more and are pending with its identifier; nothing else changed. */
  ghost predicate MadeFor(w: System, d: System, ids: seq<nat>, name: nat -> string) {
    && d.requests.Keys == w.requests.Keys && d.checker == w.checker
    && (forall id :: id in w.requests ==>
          d.requests[id] == if id in ids then Request(Pending, Some(name(id))) else w.requests[id])
    && (forall id :: Total(d.creations, id) == Total(w.creations, id) + if id in ids then 1 else 0)
  }

  lemma OneMoreCreation(cs: seq<Creation>, id: nat, x: nat)
    ensures Total(cs + [Creation(id, true)], x) == Total(cs, x) + if x == id then 1 else 0
  {
    assert (cs + [Creation(id, true)])[..|cs|] == cs;
  }

  lemma MakeOne(w: System, id: nat, rest: seq<nat>, name: nat -> string) returns (ss: seq<Step>, d: System)
    requires w.creator == Handling([id] + rest) && id in w.requests
    ensures Follows(w, ss, d) && d.creator == Handling(rest) && MadeFor(w, d, [id], name)
  {
    var c := FollowsOne(w, Reserve(true));
    ReserveWrites(w, id, rest);
    d := MadeIsRecorded(c, name(id));
    ss := [LookUp(NotFound)] + [Create(Success(name(id)))] + [RecordIdentifier(true)];
    FollowsConcat(w, [Reserve(true)], c, ss, d);
    ss := [Reserve(true)] + ss;
    forall x ensures Total(d.creations, x) == Total(w.creations, x) + if x in [id] then 1 else 0 {
      OneMoreCreation(w.creations, id, x);
    }
  }

  lemma {:induction false} MakeAll(w: System, ids: seq<nat>, name: nat -> string) returns (ss: seq<Step>, d: System)
    requires w.creator == Handling(ids) && Distinct(ids) && forall id :: id in ids ==> id in w.requests
    ensures Follows(w, ss, d) && d.creator == Handling([]) && MadeFor(w, d, ids, name)
    decreases ids
  {
    if ids == [] {
      ss, d := [], w;
      FollowsNothing(w);
    } else {
      var id, rest := ids[0], ids[1..];
      assert ids == [id] + rest;
      var s1, c := MakeOne(w, id, rest, name);
      var s2;
      s2, d := MakeAll(c, rest, name);
      FollowsConcat(w, s1, c, s2, d);
      ss := s1 + s2;
      assert id !in rest;
    }
  }

  /** A pass of the creation worker that meets no failure gives every approved request one certificate and
      leaves it pending under its identifier. */
  lemma PassMakesAll(w: System, ids: seq<nat>, name: nat -> string) returns (ss: seq<Step>, d: System)
    requires Enabled(w, FetchApproved(ids))
    ensures Follows(w, ss, d) && d.creator.Resting? && MadeFor(w, d, ids, name)
  {
    var b := FollowsOne(w, FetchApproved(ids));
    FetchesAll(w, ids);
    var s, c := MakeAll(b, ids, name);
    FollowsConcat(w, [FetchApproved(ids)], b, s, c);
    ss := [FetchApproved(ids)] + s;
    d := Take(w, ss, c, EndBatch);
    ss := ss + [EndBatch];
  }

  ghost predicate IssuedFor(w: System, d: System, ids: seq<nat>) {
    && d.requests.Keys == w.requests.Keys && d.creations == w.creations && d.creator == w.creator
    && forall id :: id in w.requests ==>
         d.requests[id] == if id in ids then w.requests[id].(status := Issued) else w.requests[id]
  }

  lemma {:induction false} IssueAll(w: System, ids: seq<nat>) returns (ss: seq<Step>, d: System)
    requires w.checker == Checking(ids) && Distinct(ids) && forall id :: id in ids ==> id in w.requests
    ensures Follows(w, ss, d) && d.checker == Checking([]) && IssuedFor(w, d, ids)
    decreases ids
  {
    if ids == [] {
      ss, d := [], w;
      FollowsNothing(w);
    } else {
      var id, rest := ids[0], ids[1..];
      assert ids == [id] + rest && id !in rest;
      var c := FollowsOne(w, MarkIssued(true));
      IssueWrites(w, id, rest);
      var s;
      s, d := IssueAll(c, rest);
      FollowsConcat(w, [MarkIssued(true)], c, s, d);
      ss := [MarkIssued(true)] + s;
    }
  }

  /** A pass of the status worker that finds everything ready issues every pending request with an
      identifier. */
  lemma PassIssuesAll(w: System, ids: seq<nat>) returns (ss: seq<Step>, d: System)
    requires Enabled(w, FetchPending(ids))
    ensures Follows(w, ss, d) && d.checker.Waiting? && IssuedFor(w, d, ids)
  {
    var b := FollowsOne(w, FetchPending(ids));
    FetchesAll(w, ids);
    var s, c := IssueAll(b, ids);
    FollowsConcat(w, [FetchPending(ids)], b, s, c);
    ss := [FetchPending(ids)] + s;
    d := Take(w, ss, c, EndChecks);
    ss := ss + [EndChecks];
  }

  // ------------------------------------------------------------------ what a certificate needs before it

  ghost predicate Granted(ss: seq<Step>, k: nat, id: nat)
    requires k <= |ss|
  {
    Post(id, true) in ss[..k] || Review(id, true) in ss[..k]
  }

  /** The request has got past its review, or has a certificate. */
  ghost predicate PastReview(w: System, id: nat) {
    || Total(w.creations, id) > 0
    || (id in w.requests && !w.requests[id].status.AwaitingReview? && !w.requests[id].status.Rejected?)
  }

  lemma PastReviewStep(w: System, s: Step, id: nat)
    requires Enabled(w, s) && Inv(w) && PastReview(Next(w, s), id)
    ensures PastReview(w, id) || s == Post(id, true) || s == Review(id, true)
  {
    TotalAfter(w, s, id);
    if s.Create? {
      assert WorksOn(w.creator, w.creator.id);
      assert RequestOk(w, w.creator.id);
    }
    if Subject(w, s) != Some(id) { OthersUntouched(w, s, id); }
    if s.Reserve? { assert w.creator.queue[0] in Queue(w.creator) && RequestOk(w, w.creator.queue[0]); }
    if s.MarkIssued? { assert w.checker.queue[0] in w.checker.queue; }
    if s.RollBack? { assert WorksOn(w.creator, w.creator.id) && RequestOk(w, w.creator.id); }
  }

  /** Main result, over every run: a request is approved, pending or issued, or has a certificate, only if it
      was approved when it was posted or by a review. */
  lemma {:induction false} NothingWithoutApproval(ws: seq<System>, ss: seq<Step>, k: nat, id: nat)
    requires IsRun(ws, ss) && k < |ws| && PastReview(ws[k], id)
    ensures Granted(ss, k, id)
  {
    if k > 0 {
      InvAlways(ws, ss, k - 1);
      assert StepsTo(ws, ss, k);
      PastReviewStep(ws[k - 1], ss[k - 1], id);
      assert ss[..k] == ss[..k - 1] + [ss[k - 1]];
      if PastReview(ws[k - 1], id) { NothingWithoutApproval(ws, ss, k - 1, id); }
    }
  }

  lemma RejectedStep(w: System, s: Step, id: nat)
    requires Enabled(w, s) && Inv(w) && id in w.requests && w.requests[id].status.Rejected?
    ensures id in Next(w, s).requests && Next(w, s).requests[id] == w.requests[id]
    ensures Total(Next(w, s).creations, id) == Total(w.creations, id)
  {
    assert RequestOk(w, id);
    TotalAfter(w, s, id);
    if s.Create? || s.RollBack? || s.RecordIdentifier? { assert WorksOn(w.creator, w.creator.id); }
    if s.Reserve? { assert w.creator.queue[0] in Queue(w.creator); }
    if s.MarkIssued? { assert w.checker.queue[0] in w.checker.queue; }
  }

  /** A request that awaits its review, or is not there yet, has no certificate. */
  ghost predicate AwaitingHasNone(w: System, id: nat) {
    id !in w.requests || w.requests[id].status.AwaitingReview? ==> Total(w.creations, id) == 0
  }

  lemma AwaitingStep(w: System, s: Step, id: nat)
    requires Enabled(w, s) && Inv(w) && AwaitingHasNone(w, id)
    ensures AwaitingHasNone(Next(w, s), id)
  {
    TotalAfter(w, s, id);
    if s.Create? {
      assert WorksOn(w.creator, w.creator.id);
      assert RequestOk(w, w.creator.id);
    }
    if Subject(w, s) != Some(id) { OthersUntouched(w, s, id); }
  }

  lemma {:induction false} AwaitingAlways(ws: seq<System>, ss: seq<Step>, k: nat, id: nat)
    requires IsRun(ws, ss) && k < |ws|
    ensures AwaitingHasNone(ws[k], id)
  {
    if k > 0 {
      AwaitingAlways(ws, ss, k - 1, id);
      InvAlways(ws, ss, k - 1);
      assert StepsTo(ws, ss, k);
      AwaitingStep(ws[k - 1], ss[k - 1], id);
    }
  }

  /** Main result: a request that a review rejects stays rejected and never gets a certificate. */
  lemma {:induction false} RejectedGetsNone(ws: seq<System>, ss: seq<Step>, j: nat, k: nat, id: nat)
    requires IsRun(ws, ss) && j < k < |ws| && ss[j] == Review(id, false)
    ensures id in ws[k].requests && ws[k].requests[id].status.Rejected? && Total(ws[k].creations, id) == 0
  {
    InvAlways(ws, ss, k - 1);
    assert StepsTo(ws, ss, k);
    if k == j + 1 {
      AwaitingAlways(ws, ss, j, id);
      ReviewWrites(ws[j], id, false);
      TotalAfter(ws[j], ss[j], id);
    } else {
      RejectedGetsNone(ws, ss, j, k - 1, id);
      RejectedStep(ws[k - 1], ss[k - 1], id);
    }
  }
}
