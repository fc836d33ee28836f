/** Handlers and jobs over the whitelist table, interleaved between their storage calls.

    An operation that has read the table and not yet written keeps what it read in `ops`. */
module WhitelistRuns {
  import opened Common
  import opened Whitelist

  datatype Alias = Alias(name: string, uuid: string, maxPerUser: int, maxTotal: int)

  /** How far an add handler has come: past the blacklist check, the per-user count, the total count. */
  datatype Stage = NotBlacklisted | UserCounted | TotalCounted

  datatype Op =
    | Adding(owner: Owner, alias: Alias, ip: string, expiresAt: Option<int>, stage: Stage)
    | Removing(id: nat)
    | Expiring(ids: seq<nat>)
    | Marking(ids: seq<nat>)

  datatype World = World(table: Table, ops: map<nat, Op>, now: int)

  const INITIAL_WORLD := World(EMPTY_TABLE, map[], 0)

  datatype Step =
    | BeginAdd(p: nat, owner: Owner, alias: Alias, ip: string, expiresAt: Option<int>)
    | CountUser(p: nat)
    | CountTotal(p: nat)
    | InsertRow(p: nat, id: nat)
    | BeginRemove(p: nat, id: nat)
    | EndRemove(p: nat)
    | BeginExpire(p: nat, ids: seq<nat>)
    | EndExpire(p: nat)
    | BeginMark(p: nat, ids: seq<nat>)
    | EndMark(p: nat)
    | Blacklist(uuid: string, ip: string, ids: seq<nat>)
    | LogSyncFailure(ids: seq<nat>)
    | GiveUp(p: nat)
    | Wait(dt: nat)

  ghost predicate Enabled(w: World, s: Step, aliases: seq<Alias>) {
    var t := w.table;
    match s
    case BeginAdd(p, _, alias, ip, _) => p !in w.ops && alias in aliases && !IsBlacklisted(t, alias.uuid, ip)
    case CountUser(p) => p in w.ops && w.ops[p].Adding? && w.ops[p].stage.NotBlacklisted?
    case CountTotal(p) => p in w.ops && w.ops[p].Adding? && w.ops[p].stage.UserCounted?
    case InsertRow(p, id) => p in w.ops && w.ops[p].Adding? && w.ops[p].stage.TotalCounted? && id !in t.rows
    case BeginRemove(p, id) => p !in w.ops && id in t.rows && Active(t.rows[id].status)
    case EndRemove(p) => p in w.ops && w.ops[p].Removing?
    case BeginExpire(p, ids) => p !in w.ops && Lists(ids, ToExpire(t, w.now))
    case EndExpire(p) => p in w.ops && w.ops[p].Expiring?
    case BeginMark(p, ids) =>
      p !in w.ops && Distinct(ids) && forall id :: id in ids ==> id in t.rows && t.rows[id].status.Requested?
    case EndMark(p) => p in w.ops && w.ops[p].Marking?
    case Blacklist(uuid, ip, ids) => Lists(ids, ToBlacklist(t, uuid, ip))
    case LogSyncFailure(ids) => forall id :: id in ids ==> id in t.rows
    case GiveUp(p) => p in w.ops
    case Wait(_) => true
  }

  function Finish(w: World, p: nat, t: Table): World {
    w.(table := t, ops := map q | q in w.ops && q != p :: w.ops[q])
  }

  ghost function Next(w: World, s: Step, aliases: seq<Alias>): World
    requires Enabled(w, s, aliases)
  {
    var t := w.table;
    match s
    case BeginAdd(p, owner, alias, ip, expiresAt) =>
      w.(ops := w.ops[p := Adding(owner, alias, ip, expiresAt, NotBlacklisted)])
    case CountUser(p) =>
      var op := w.ops[p];
      if |ActiveOf(t, op.owner, op.alias.uuid)| >= op.alias.maxPerUser then Finish(w, p, t)
      else w.(ops := w.ops[p := op.(stage := UserCounted)])
    case CountTotal(p) =>
      var op := w.ops[p];
      if |ActiveIn(t, op.alias.uuid)| >= op.alias.maxTotal then Finish(w, p, t)
      else w.(ops := w.ops[p := op.(stage := TotalCounted)])
    case InsertRow(p, id) =>
      var op := w.ops[p];
      if HasDuplicate(t, op.owner, op.alias.uuid, op.ip) then Finish(w, p, t)
      else Finish(w, p, Insert(t, id, Row(op.owner, op.alias.uuid, op.ip, Requested, op.expiresAt)))
    case BeginRemove(p, id) => w.(ops := w.ops[p := Removing(id)])
    case EndRemove(p) => Finish(w, p, SetStatus(t, [w.ops[p].id], Removed, WasRemoved))
    case BeginExpire(p, ids) => w.(ops := w.ops[p := Expiring(ids)])
    case EndExpire(p) => Finish(w, p, SetStatus(t, w.ops[p].ids, Removed, WasExpired))
    case BeginMark(p, ids) => w.(ops := w.ops[p := Marking(ids)])
    case EndMark(p) => Finish(w, p, MarkAdded(t, w.ops[p].ids))
    case Blacklist(uuid, ip, ids) => w.(table := SetStatus(t, ids, Status.Blacklisted, WasBlacklisted))
    case LogSyncFailure(ids) => w.(table := t.(events := t.events + Log(ids, SyncFailed)))
    case GiveUp(p) => Finish(w, p, t)
    case Wait(dt) => w.(now := w.now + dt)
  }

  /** World k comes from the one before by the step between them. */
  ghost predicate StepsTo(ws: seq<World>, ss: seq<Step>, aliases: seq<Alias>, k: nat)
    requires 0 < k < |ws| == |ss| + 1
  {
    Enabled(ws[k - 1], ss[k - 1], aliases) && ws[k] == Next(ws[k - 1], ss[k - 1], aliases)
  }

  ghost predicate Leads(ws: seq<World>, ss: seq<Step>, aliases: seq<Alias>) {
    |ws| == |ss| + 1 && forall k :: 0 < k < |ws| ==> StepsTo(ws, ss, aliases, k)
  }

  ghost predicate IsRun(ws: seq<World>, ss: seq<Step>, aliases: seq<Alias>) {
    Leads(ws, ss, aliases) && ws[0] == INITIAL_WORLD
  }

  // ------------------------------------------------------------------ what operations have read

  /** The rows an operation has read are in the table, each listed once. */
  ghost predicate OpSound(t: Table, op: Op) {
    match op
    case Adding(_, _, _, _, _) => true
    case Removing(id) => id in t.rows
    case Expiring(ids) => Distinct(ids) && forall id :: id in ids ==> id in t.rows
    case Marking(ids) => Distinct(ids) && forall id :: id in ids ==> id in t.rows
  }

  ghost predicate Sound(w: World) { forall p :: p in w.ops ==> OpSound(w.table, w.ops[p]) }

  lemma SoundStep(w: World, s: Step, aliases: seq<Alias>)
    requires Enabled(w, s, aliases) && Sound(w)
    ensures Sound(Next(w, s, aliases))
  {
    var d := Next(w, s, aliases);
    assert w.table.rows.Keys <= d.table.rows.Keys;
    forall p | p in d.ops ensures OpSound(d.table, d.ops[p]) {
      assert p in w.ops ==> OpSound(w.table, w.ops[p]);
    }
  }

  lemma {:induction false} SoundAlways(ws: seq<World>, ss: seq<Step>, aliases: seq<Alias>, k: nat)
    requires IsRun(ws, ss, aliases) && k < |ws|
    ensures Sound(ws[k])
  {
    if k > 0 {
      SoundAlways(ws, ss, aliases, k - 1);
      assert StepsTo(ws, ss, aliases, k);
      SoundStep(ws[k - 1], ss[k - 1], aliases);
    }
  }

  // ------------------------------------------------------------------ one active row per owner, alias and address

  ghost predicate OneActiveEach(t: Table) {
    forall i, j | i in t.rows && j in t.rows && Active(t.rows[i].status) && Active(t.rows[j].status) ::
      t.rows[i].owner == t.rows[j].owner && t.rows[i].uuid == t.rows[j].uuid && t.rows[i].ip == t.rows[j].ip ==> i == j
  }

  lemma OneActiveStep(w: World, s: Step, aliases: seq<Alias>)
    requires Enabled(w, s, aliases) && OneActiveEach(w.table)
    ensures OneActiveEach(Next(w, s, aliases).table)
  {
    match s
    case InsertRow(p, id) =>
      var op := w.ops[p];
      forall i | i in ActiveOf(w.table, op.owner, op.alias.uuid) && w.table.rows[i].ip == op.ip
        ensures HasDuplicate(w.table, op.owner, op.alias.uuid, op.ip) {}
    case _ =>
  }

  /** Main result, for every interleaving: no owner has two active rows for one alias and address. */
  lemma {:induction false} NoDuplicates(ws: seq<World>, ss: seq<Step>, aliases: seq<Alias>, k: nat)
    requires IsRun(ws, ss, aliases) && k < |ws|
    ensures OneActiveEach(ws[k].table)
  {
    if k > 0 {
      NoDuplicates(ws, ss, aliases, k - 1);
      assert StepsTo(ws, ss, aliases, k);
      OneActiveStep(ws[k - 1], ss[k - 1], aliases);
    }
  }

  // ------------------------------------------------------------------ the log tells the status

  /** The last event for the row other than `sync_failed`, if there is one. */
  function Latest(events: seq<Event>, id: nat): Option<Kind> {
    if events == [] then None
    else
      var e := events[|events| - 1];
      if e.id == id && !e.kind.SyncFailed? then Some(e.kind) else Latest(events[..|events| - 1], id)
  }

  lemma OneEventTells(events: seq<Event>, e: Event, id: nat)
    ensures Latest(events + [e], id) == if e.id == id && !e.kind.SyncFailed? then Some(e.kind) else Latest(events, id)
  {
    assert (events + [e])[..|events + [e]| - 1] == events;
  }

  lemma LogOneMore(events: seq<Event>, front: seq<nat>, last: nat, kind: Kind)
    ensures events + Log(front + [last], kind) == events + Log(front, kind) + [Event(last, kind)]
  {
    assert Log(front + [last], kind) == Log(front, kind) + [Event(last, kind)];
  }

  lemma {:induction false} LogTells(events: seq<Event>, ids: seq<nat>, kind: Kind, id: nat)
    ensures Latest(events + Log(ids, kind), id) ==
              if id in ids && !kind.SyncFailed? then Some(kind) else Latest(events, id)
  {
    if ids == [] {
      assert events + Log(ids, kind) == events;
    } else {
      var front, last := ids[..|ids| - 1], ids[|ids| - 1];
      LogTells(events, front, kind, id);
      OneEventTells(events + Log(front, kind), Event(last, kind), id);
      LogOneMore(events, front, last, kind);
      assert ids == front + [last];
    }
  }

  /** The row's latest event announces its status; an unknown row has none. */
  ghost predicate Told(t: Table, id: nat) {
    var latest := Latest(t.events, id);
    if id in t.rows then latest.Some? && Announces(latest.value, t.rows[id].status) else latest.None?
  }

  ghost predicate LogAgrees(t: Table) { forall id :: Told(t, id) }

  /** The update writes each listed row whatever its status, so its events tell the truth. */
  lemma SetStatusTells(t: Table, ids: seq<nat>, status: Status, kind: Kind)
    requires LogAgrees(t) && Announces(kind, status) && forall id :: id in ids ==> id in t.rows
    ensures LogAgrees(SetStatus(t, ids, status, kind))
  {
    forall id ensures Told(SetStatus(t, ids, status, kind), id) {
      LogTells(t.events, ids, kind, id);
      assert Told(t, id);
    }
  }

  /** Marking writes only requested rows but logs them all: its events tell the truth exactly when every
      listed row is still active. */
  lemma MarkTellsIff(t: Table, ids: seq<nat>)
    requires LogAgrees(t) && forall id :: id in ids ==> id in t.rows
    ensures LogAgrees(MarkAdded(t, ids)) <==> forall id :: id in ids ==> Active(t.rows[id].status)
  {
    var u := MarkAdded(t, ids);
    forall id ensures Told(u, id) <==> (id in ids ==> Active(t.rows[id].status)) {
      LogTells(t.events, ids, WasAdded, id);
      assert Told(t, id);
    }
  }

  lemma InsertTells(t: Table, id: nat, row: Row)
    requires LogAgrees(t) && id !in t.rows && row.status.Requested?
    ensures LogAgrees(Insert(t, id, row))
  {
    forall i ensures Told(Insert(t, id, row), i) {
      OneEventTells(t.events, Event(id, WasRequested), i);
      assert Told(t, i);
    }
  }

  lemma SyncFailureTells(t: Table, ids: seq<nat>)
    requires LogAgrees(t)
    ensures LogAgrees(t.(events := t.events + Log(ids, SyncFailed)))
  {
    forall id ensures Told(t.(events := t.events + Log(ids, SyncFailed)), id) {
      LogTells(t.events, ids, SyncFailed, id);
      assert Told(t, id);
    }
  }

  /** The one write that can make the log lie: marking a row that is no longer active. */
  ghost predicate KeepsLog(w: World, s: Step) {
    s.EndMark? && s.p in w.ops && w.ops[s.p].Marking? ==>
      forall id :: id in w.ops[s.p].ids && id in w.table.rows ==> Active(w.table.rows[id].status)
  }

  lemma TellsStepIff(w: World, s: Step, aliases: seq<Alias>)
    requires Enabled(w, s, aliases) && Sound(w) && LogAgrees(w.table)
    ensures LogAgrees(Next(w, s, aliases).table) <==> KeepsLog(w, s)
  {
    var t := w.table;
    match s
    case InsertRow(p, id) =>
      var op := w.ops[p];
      InsertTells(t, id, Row(op.owner, op.alias.uuid, op.ip, Requested, op.expiresAt));
    case EndRemove(p) =>
      assert OpSound(t, w.ops[p]);
      SetStatusTells(t, [w.ops[p].id], Removed, WasRemoved);
    case EndExpire(p) =>
      assert OpSound(t, w.ops[p]);
      SetStatusTells(t, w.ops[p].ids, Removed, WasExpired);
    case EndMark(p) =>
      assert OpSound(t, w.ops[p]);
      MarkTellsIff(t, w.ops[p].ids);
    case Blacklist(uuid, ip, ids) => SetStatusTells(t, ids, Status.Blacklisted, WasBlacklisted);
    case LogSyncFailure(ids) => SyncFailureTells(t, ids);
    case _ =>
  }

  /** Main result, for every interleaving: the latest event of every row has told its status all along if
      and only if no mark came too late for one of its rows. */
  lemma {:induction false} LogTellsIff(ws: seq<World>, ss: seq<Step>, aliases: seq<Alias>, n: nat)
    requires IsRun(ws, ss, aliases) && n < |ws|
    ensures (forall k :: 0 <= k <= n ==> LogAgrees(ws[k].table)) <==>
            (forall k :: 0 <= k < n ==> KeepsLog(ws[k], ss[k]))
  {
    if n == 0 {
      forall id ensures Told(ws[0].table, id) {}
    } else {
      LogTellsIff(ws, ss, aliases, n - 1);
      SoundAlways(ws, ss, aliases, n - 1);
      assert StepsTo(ws, ss, aliases, n);
      if LogAgrees(ws[n - 1].table) { TellsStepIff(ws[n - 1], ss[n - 1], aliases); }
    }
  }

  /** From any world with a requested row: a sync that has read it and marks it after a user removed it. */
  lemma LateMarkLies(w: World, p: nat, q: nat, id: nat, aliases: seq<Alias>)
    requires Sound(w) && LogAgrees(w.table) && p !in w.ops && q !in w.ops && p != q
    requires id in w.table.rows && w.table.rows[id].status.Requested?
    ensures Enabled(w, BeginMark(p, [id]), aliases)
    ensures var w1 := Next(w, BeginMark(p, [id]), aliases);
            && Enabled(w1, BeginRemove(q, id), aliases)
            && var w2 := Next(w1, BeginRemove(q, id), aliases);
               && Enabled(w2, EndRemove(q), aliases)
               && var w3 := Next(w2, EndRemove(q), aliases);
                  && Enabled(w3, EndMark(p), aliases)
                  && var t := Next(w3, EndMark(p), aliases).table;
                     t.rows[id].status.Removed? && Latest(t.events, id) == Some(WasAdded) && !LogAgrees(t)
  {
    var w1 := Next(w, BeginMark(p, [id]), aliases);
    var w2 := Next(w1, BeginRemove(q, id), aliases);
    var w3 := Next(w2, EndRemove(q), aliases);
    LogTells(w3.table.events, [id], WasAdded, id);
    assert !Told(Next(w3, EndMark(p), aliases).table, id);
  }

  // ------------------------------------------------------------------ statuses only rise

  /** Rows stay, keep who and what they are for, and their status changes only upwards. */
  ghost predicate Raises(t: Table, u: Table) {
    forall id :: id in t.rows ==>
      && id in u.rows
      && u.rows[id] == t.rows[id].(status := u.rows[id].status)
      && (u.rows[id].status == t.rows[id].status || Rank(u.rows[id].status) > Rank(t.rows[id].status))
  }

  predicate BelowOrRemoved(s: Status) { Active(s) || s.Removed? }

  /** The writes that can lower a status: removing, for a user or for its age, a row that an administrator
      has taken in the meantime. */
  ghost predicate KeepsRank(w: World, s: Step) {
    && (s.EndRemove? && s.p in w.ops && w.ops[s.p].Removing? && w.ops[s.p].id in w.table.rows ==>
          BelowOrRemoved(w.table.rows[w.ops[s.p].id].status))
    && (s.EndExpire? && s.p in w.ops && w.ops[s.p].Expiring? ==>
          forall id :: id in w.ops[s.p].ids && id in w.table.rows ==> BelowOrRemoved(w.table.rows[id].status))
  }

  lemma RemovingRaisesIff(t: Table, ids: seq<nat>, kind: Kind)
    requires forall id :: id in ids ==> id in t.rows
    ensures Raises(t, SetStatus(t, ids, Removed, kind)) <==>
              forall id :: id in ids ==> BelowOrRemoved(t.rows[id].status)
  {
    var u := SetStatus(t, ids, Removed, kind);
    forall id | id in ids ensures u.rows[id].status.Removed? {}
  }

  lemma RaisesStepIff(w: World, s: Step, aliases: seq<Alias>)
    requires Enabled(w, s, aliases) && Sound(w)
    ensures Raises(w.table, Next(w, s, aliases).table) <==> KeepsRank(w, s)
  {
    match s
    case EndRemove(p) =>
      assert OpSound(w.table, w.ops[p]);
      RemovingRaisesIff(w.table, [w.ops[p].id], WasRemoved);
    case EndExpire(p) =>
      assert OpSound(w.table, w.ops[p]);
      RemovingRaisesIff(w.table, w.ops[p].ids, WasExpired);
    case _ =>
  }

  ghost predicate StepRaises(ws: seq<World>, k: nat)
    requires k + 1 < |ws|
  {
    Raises(ws[k].table, ws[k + 1].table)
  }

  ghost predicate RanksKept(ws: seq<World>, ss: seq<Step>) {
    |ws| == |ss| + 1 && forall k :: 0 <= k < |ss| ==> KeepsRank(ws[k], ss[k])
  }

  /** Main result, for every interleaving: every step only raises statuses if and only if no removal comes
      too late for one of its rows. */
  lemma StatusRisesIff(ws: seq<World>, ss: seq<Step>, aliases: seq<Alias>)
    requires IsRun(ws, ss, aliases)
    ensures (forall k :: 0 <= k < |ss| ==> StepRaises(ws, k)) <==> RanksKept(ws, ss)
  {
    forall k | 0 <= k < |ss| ensures StepRaises(ws, k) <==> KeepsRank(ws[k], ss[k]) {
      SoundAlways(ws, ss, aliases, k);
      assert StepsTo(ws, ss, aliases, k + 1);
      RaisesStepIff(ws[k], ss[k], aliases);
    }
  }

  lemma RaisesOn(t: Table, u: Table, v: Table)
    requires Raises(t, u) && Raises(u, v)
    ensures Raises(t, v)
  {
  }

  lemma {:induction false} RaisesAlong(ws: seq<World>, j: nat, k: nat)
    requires j <= k < |ws| && forall n :: 0 <= n < |ws| - 1 ==> StepRaises(ws, n)
    ensures Raises(ws[j].table, ws[k].table)
  {
    if j < k {
      RaisesAlong(ws, j, k - 1);
      assert StepRaises(ws, k - 1);
      RaisesOn(ws[j].table, ws[k - 1].table, ws[k].table);
    }
  }

  lemma StatusOnlyRises(ws: seq<World>, ss: seq<Step>, aliases: seq<Alias>, j: nat, k: nat)
    requires IsRun(ws, ss, aliases) && RanksKept(ws, ss) && j <= k < |ws|
    ensures Raises(ws[j].table, ws[k].table)
  {
    StatusRisesIff(ws, ss, aliases);
    RaisesAlong(ws, j, k);
  }

  predicate Changes(t: Table, u: Table, id: nat) {
    id in t.rows && id in u.rows && t.rows[id].status != u.rows[id].status
  }

  /** How often the row's status changes in the first n steps. */
  function ChangesIn(ws: seq<World>, id: nat, n: nat): nat
    requires n < |ws|
  {
    if n == 0 then 0
    else ChangesIn(ws, id, n - 1) + if Changes(ws[n - 1].table, ws[n].table, id) then 1 else 0
  }

  /** So a row changes at most as often as its rank says, and never more than three times. */
  lemma {:induction false} AtMostThreeChanges(ws: seq<World>, ss: seq<Step>, aliases: seq<Alias>, k: nat, id: nat)
    requires IsRun(ws, ss, aliases) && RanksKept(ws, ss) && k < |ws|
    ensures id !in ws[k].table.rows ==> ChangesIn(ws, id, k) == 0
    ensures id in ws[k].table.rows ==> ChangesIn(ws, id, k) <= Rank(ws[k].table.rows[id].status) <= 3
  {
    if k > 0 {
      AtMostThreeChanges(ws, ss, aliases, k - 1, id);
      StatusOnlyRises(ws, ss, aliases, k - 1, k);
    }
  }

  // ------------------------------------------------------------------ every event is a change

  /** How many events other than `sync_failed` the row has. */
  function EventCount(events: seq<Event>, id: nat): nat {
    if events == [] then 0
    else
      var e := events[|events| - 1];
      EventCount(events[..|events| - 1], id) + if e.id == id && !e.kind.SyncFailed? then 1 else 0
  }

  lemma OneEventCounts(events: seq<Event>, e: Event, id: nat)
    ensures EventCount(events + [e], id) == EventCount(events, id) + if e.id == id && !e.kind.SyncFailed? then 1 else 0
  {
    assert (events + [e])[..|events + [e]| - 1] == events;
  }

  lemma {:induction false} LogCounts(events: seq<Event>, ids: seq<nat>, kind: Kind, id: nat)
    requires Distinct(ids) || kind.SyncFailed?
    ensures EventCount(events + Log(ids, kind), id) ==
              EventCount(events, id) + if id in ids && !kind.SyncFailed? then 1 else 0
  {
    if ids == [] {
      assert events + Log(ids, kind) == events;
    } else {
      var front, last := ids[..|ids| - 1], ids[|ids| - 1];
      LogCounts(events, front, kind, id);
      OneEventCounts(events + Log(front, kind), Event(last, kind), id);
      LogOneMore(events, front, last, kind);
      assert ids == front + [last] && (Distinct(ids) ==> last !in front);
    }
  }

  predicate Inserts(t: Table, op: Op) { op.Adding? && !HasDuplicate(t, op.owner, op.alias.uuid, op.ip) }

  /** The rows whose events a step writes, `sync_failed` aside. */
  function Logs(w: World, s: Step): seq<nat> {
    match s
    case InsertRow(p, id) => if p in w.ops && Inserts(w.table, w.ops[p]) then [id] else []
    case EndRemove(p) => if p in w.ops && w.ops[p].Removing? then [w.ops[p].id] else []
    case EndExpire(p) => if p in w.ops && w.ops[p].Expiring? then w.ops[p].ids else []
    case EndMark(p) => if p in w.ops && w.ops[p].Marking? then w.ops[p].ids else []
    case Blacklist(_, _, ids) => ids
    case _ => []
  }

  lemma CountAfter(w: World, s: Step, aliases: seq<Alias>, id: nat)
    requires Enabled(w, s, aliases) && Sound(w)
    ensures EventCount(Next(w, s, aliases).table.events, id) ==
              EventCount(w.table.events, id) + if id in Logs(w, s) then 1 else 0
  {
    match s
    case InsertRow(_, row) => OneEventCounts(w.table.events, Event(row, WasRequested), id);
    case EndRemove(p) => LogCounts(w.table.events, [w.ops[p].id], WasRemoved, id);
    case EndExpire(p) => assert OpSound(w.table, w.ops[p]); LogCounts(w.table.events, w.ops[p].ids, WasExpired, id);
    case EndMark(p) => assert OpSound(w.table, w.ops[p]); LogCounts(w.table.events, w.ops[p].ids, WasAdded, id);
    case Blacklist(_, _, ids) => LogCounts(w.table.events, ids, WasBlacklisted, id);
    case LogSyncFailure(ids) => LogCounts(w.table.events, ids, SyncFailed, id);
    case _ =>
  }

  ghost predicate LogsChange(w: World, s: Step, d: World, id: nat) {
    id in Logs(w, s) && id in w.table.rows ==> Changes(w.table, d.table, id)
  }

  /** Every row the step logs is changed by it. */
  ghost predicate LogsOnlyChanges(w: World, s: Step, d: World) { forall id: nat :: LogsChange(w, s, d, id) }

  /** No write logs a row that already has the status it writes, or that it no longer changes: no removal
      finds a row removed, no mark finds one not requested. */
  ghost predicate WritesFresh(w: World, s: Step) {
    && (s.EndRemove? && s.p in w.ops && w.ops[s.p].Removing? && w.ops[s.p].id in w.table.rows ==>
          !w.table.rows[w.ops[s.p].id].status.Removed?)
    && (s.EndExpire? && s.p in w.ops && w.ops[s.p].Expiring? ==>
          forall id :: id in w.ops[s.p].ids && id in w.table.rows ==> !w.table.rows[id].status.Removed?)
    && (s.EndMark? && s.p in w.ops && w.ops[s.p].Marking? ==>
          forall id :: id in w.ops[s.p].ids && id in w.table.rows ==> w.table.rows[id].status.Requested?)
  }

  lemma FreshStepIff(w: World, s: Step, aliases: seq<Alias>)
    requires Enabled(w, s, aliases) && Sound(w)
    ensures LogsOnlyChanges(w, s, Next(w, s, aliases)) <==> WritesFresh(w, s)
  {
    var d := Next(w, s, aliases);
    match s
    case EndRemove(p) =>
      assert OpSound(w.table, w.ops[p]);
      assert LogsChange(w, s, d, w.ops[p].id) <==> !w.table.rows[w.ops[p].id].status.Removed?;
    case EndExpire(p) =>
      assert OpSound(w.table, w.ops[p]);
      forall id | id in w.ops[p].ids ensures LogsChange(w, s, d, id) <==> !w.table.rows[id].status.Removed? {}
    case EndMark(p) =>
      assert OpSound(w.table, w.ops[p]);
      forall id | id in w.ops[p].ids ensures LogsChange(w, s, d, id) <==> w.table.rows[id].status.Requested? {}
    case _ =>
  }

  /** A row a step does not log keeps its status, and only an insert adds a row, which it logs. */
  lemma LogsOrChanges(w: World, s: Step, aliases: seq<Alias>, id: nat)
    requires Enabled(w, s, aliases) && Sound(w)
    ensures var d := Next(w, s, aliases);
            && (id !in Logs(w, s) ==> !Changes(w.table, d.table, id) && (id in d.table.rows <==> id in w.table.rows))
            && (id in Logs(w, s) ==> id in d.table.rows)
            && (id in w.table.rows ==> id in d.table.rows)
  {
    match s
    case EndRemove(p) => assert OpSound(w.table, w.ops[p]);
    case EndExpire(p) => assert OpSound(w.table, w.ops[p]);
    case EndMark(p) => assert OpSound(w.table, w.ops[p]);
    case _ =>
  }

  /** The row's events are its request and its changes. */
  ghost predicate Tallies(ws: seq<World>, k: nat, id: nat)
    requires k < |ws|
  {
    EventCount(ws[k].table.events, id) == ChangesIn(ws, id, k) + if id in ws[k].table.rows then 1 else 0
  }

  lemma TallyStep(ws: seq<World>, ss: seq<Step>, aliases: seq<Alias>, k: nat, id: nat)
    requires IsRun(ws, ss, aliases) && 0 < k < |ws| && Tallies(ws, k - 1, id)
    ensures Tallies(ws, k, id) <==> LogsChange(ws[k - 1], ss[k - 1], ws[k], id)
  {
    SoundAlways(ws, ss, aliases, k - 1);
    assert StepsTo(ws, ss, aliases, k);
    CountAfter(ws[k - 1], ss[k - 1], aliases, id);
    LogsOrChanges(ws[k - 1], ss[k - 1], aliases, id);
  }

  ghost predicate AllTally(ws: seq<World>, k: nat)
    requires k < |ws|
  {
    forall id: nat :: Tallies(ws, k, id)
  }

  lemma AllTallyStep(ws: seq<World>, ss: seq<Step>, aliases: seq<Alias>, k: nat)
    requires IsRun(ws, ss, aliases) && 0 < k < |ws| && AllTally(ws, k - 1)
    ensures AllTally(ws, k) <==> WritesFresh(ws[k - 1], ss[k - 1])
  {
    var w, s, d := ws[k - 1], ss[k - 1], ws[k];
    SoundAlways(ws, ss, aliases, k - 1);
    assert StepsTo(ws, ss, aliases, k);
    FreshStepIff(w, s, aliases);
    forall id: nat ensures Tallies(ws, k, id) <==> LogsChange(w, s, d, id) {
      assert Tallies(ws, k - 1, id);
      TallyStep(ws, ss, aliases, k, id);
    }
    if LogsOnlyChanges(w, s, d) {
      forall id: nat ensures Tallies(ws, k, id) { assert LogsChange(w, s, d, id); }
    }
  }

  /** Main result, for every interleaving: each row's events have been its request and its changes all
      along, one each, if and only if no removal found a row removed and no mark found one not requested. */
  lemma {:induction false} EventsAreChangesIff(ws: seq<World>, ss: seq<Step>, aliases: seq<Alias>, n: nat)
    requires IsRun(ws, ss, aliases) && n < |ws|
    ensures (forall k :: 0 <= k <= n ==> AllTally(ws, k)) <==> (forall k :: 0 <= k < n ==> WritesFresh(ws[k], ss[k]))
  {
    if n == 0 {
      forall id: nat ensures Tallies(ws, 0, id) {}
    } else {
      EventsAreChangesIff(ws, ss, aliases, n - 1);
      if AllTally(ws, n - 1) { AllTallyStep(ws, ss, aliases, n); }
    }
  }

  /** In any world with an active row two removals of it can be under way at once. */
  lemma TwoRemovalsBegin(w: World, p: nat, q: nat, id: nat, aliases: seq<Alias>) returns (d: World)
    requires p !in w.ops && q !in w.ops && p != q && id in w.table.rows && Active(w.table.rows[id].status)
    ensures Enabled(w, BeginRemove(p, id), aliases)
    ensures Enabled(Next(w, BeginRemove(p, id), aliases), BeginRemove(q, id), aliases)
    ensures d == Next(Next(w, BeginRemove(p, id), aliases), BeginRemove(q, id), aliases)
    ensures d == w.(ops := w.ops[p := Removing(id)][q := Removing(id)])
  {
    d := Next(Next(w, BeginRemove(p, id), aliases), BeginRemove(q, id), aliases);
  }

  /** They then write two events for one change. */
  lemma TwoRemovalsLogTwice(w: World, p: nat, q: nat, id: nat, aliases: seq<Alias>) returns (c: World, d: World)
    requires p != q && p in w.ops && q in w.ops && w.ops[p] == w.ops[q] == Removing(id)
    requires id in w.table.rows && Active(w.table.rows[id].status)
    ensures Enabled(w, EndRemove(p), aliases) && c == Next(w, EndRemove(p), aliases)
    ensures Enabled(c, EndRemove(q), aliases) && d == Next(c, EndRemove(q), aliases)
    ensures WritesFresh(w, EndRemove(p)) && !WritesFresh(c, EndRemove(q)) && d.table.rows == c.table.rows
    ensures EventCount(d.table.events, id) == EventCount(w.table.events, id) + 2
  {
    c := Next(w, EndRemove(p), aliases);
    d := Next(c, EndRemove(q), aliases);
    LogCounts(w.table.events, [id], WasRemoved, id);
    LogCounts(c.table.events, [id], WasRemoved, id);
  }
}
