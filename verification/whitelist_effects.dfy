/** What each operation does to the rows, stated on the rows themselves. */
module WhitelistEffects {
  import opened Common
  import opened Whitelist
  import opened WhitelistRuns

  predicate CanCount(s: Status) { s.Requested? || s.Added? }

  /** The rows that count against one owner's limit, and against the alias's. */
  function CountedOf(t: Table, owner: Owner, uuid: string): set<nat> {
    set id | id in t.rows && CanCount(t.rows[id].status) && t.rows[id].uuid == uuid && t.rows[id].owner == owner
  }

  function CountedIn(t: Table, uuid: string): set<nat> {
    set id | id in t.rows && CanCount(t.rows[id].status) && t.rows[id].uuid == uuid
  }

  ghost predicate Clean(t: Table, uuid: string, ip: string) {
    forall id :: id in t.rows && t.rows[id].uuid == uuid && t.rows[id].ip == ip ==> !t.rows[id].status.Blacklisted?
  }

  /** The owner has no requested or added row for the address. */
  ghost predicate Unlisted(t: Table, owner: Owner, uuid: string, ip: string) {
    forall id :: id in CountedOf(t, owner, uuid) ==> t.rows[id].ip != ip
  }

  // ------------------------------------------------------------------ adding

  lemma AddStartsIff(w: World, p: nat, owner: Owner, a: Alias, ip: string, expiresAt: Option<int>, aliases: seq<Alias>)
    ensures Enabled(w, BeginAdd(p, owner, a, ip, expiresAt), aliases) <==>
              p !in w.ops && a in aliases && Clean(w.table, a.uuid, ip)
    ensures Enabled(w, BeginAdd(p, owner, a, ip, expiresAt), aliases) ==>
              Next(w, BeginAdd(p, owner, a, ip, expiresAt), aliases) ==
                w.(ops := w.ops[p := Adding(owner, a, ip, expiresAt, NotBlacklisted)])
  {
  }

  /** An add passes a count exactly if it shows fewer rows than the limit; otherwise it ends. */
  lemma CountsPassIff(w: World, p: nat, aliases: seq<Alias>)
    requires p in w.ops && w.ops[p].Adding?
    ensures w.ops[p].stage.NotBlacklisted? ==>
              var d := Next(w, CountUser(p), aliases);
              && d.table == w.table
              && (p in d.ops <==> |CountedOf(w.table, w.ops[p].owner, w.ops[p].alias.uuid)| < w.ops[p].alias.maxPerUser)
              && (p in d.ops ==> d.ops[p] == w.ops[p].(stage := UserCounted))
    ensures w.ops[p].stage.UserCounted? ==>
              var d := Next(w, CountTotal(p), aliases);
              && d.table == w.table
              && (p in d.ops <==> |CountedIn(w.table, w.ops[p].alias.uuid)| < w.ops[p].alias.maxTotal)
              && (p in d.ops ==> d.ops[p] == w.ops[p].(stage := TotalCounted))
  {
    var op := w.ops[p];
    assert ActiveOf(w.table, op.owner, op.alias.uuid) == CountedOf(w.table, op.owner, op.alias.uuid);
    assert ActiveIn(w.table, op.alias.uuid) == CountedIn(w.table, op.alias.uuid);
  }

  /** Past both counts it stores exactly its row, unless the owner has one already. */
  lemma InsertStores(w: World, p: nat, id: nat, aliases: seq<Alias>)
    requires Enabled(w, InsertRow(p, id), aliases)
    ensures var op, d := w.ops[p], Next(w, InsertRow(p, id), aliases);
            && p !in d.ops
            && (if Unlisted(w.table, op.owner, op.alias.uuid, op.ip)
                then d.table.rows == w.table.rows[id := Row(op.owner, op.alias.uuid, op.ip, Requested, op.expiresAt)]
                     && d.table.events == w.table.events + [Event(id, WasRequested)]
                else d.table == w.table)
  {
    var op := w.ops[p];
    assert ActiveOf(w.table, op.owner, op.alias.uuid) == CountedOf(w.table, op.owner, op.alias.uuid);
  }

  /** An add on its own goes through if nothing speaks against it. */
  lemma AddAlone(w: World, p: nat, owner: Owner, a: Alias, ip: string, expiresAt: Option<int>, id: nat,
                 aliases: seq<Alias>) returns (d: World)
    requires p !in w.ops && a in aliases && id !in w.table.rows
    requires Clean(w.table, a.uuid, ip) && Unlisted(w.table, owner, a.uuid, ip)
    requires |CountedOf(w.table, owner, a.uuid)| < a.maxPerUser && |CountedIn(w.table, a.uuid)| < a.maxTotal
    ensures var ss := [BeginAdd(p, owner, a, ip, expiresAt), CountUser(p), CountTotal(p), InsertRow(p, id)];
            Follows(w, ss, d, aliases)
    ensures d.table.rows == w.table.rows[id := Row(owner, a.uuid, ip, Requested, expiresAt)]
    ensures d.ops == w.ops && d.now == w.now
  {
    var s1, s2, s3, s4 := BeginAdd(p, owner, a, ip, expiresAt), CountUser(p), CountTotal(p), InsertRow(p, id);
    AddStartsIff(w, p, owner, a, ip, expiresAt, aliases);
    var w1 := Next(w, s1, aliases);
    CountsPassIff(w1, p, aliases);
    var w2 := Next(w1, s2, aliases);
    CountsPassIff(w2, p, aliases);
    var w3 := Next(w2, s3, aliases);
    InsertStores(w3, p, id, aliases);
    d := Next(w3, s4, aliases);
    assert d.ops == w.ops;
    FollowsFour(w, s1, w1, s2, w2, s3, w3, s4, d, aliases);
  }

  /** Each step is enabled where it is taken, and they lead from one world to the other. */
  ghost predicate Follows(w: World, ss: seq<Step>, d: World, aliases: seq<Alias>) {
    exists ws :: Leads(ws, ss, aliases) && ws[0] == w && ws[|ss|] == d
  }

  lemma FollowsFour(w: World, s1: Step, w1: World, s2: Step, w2: World, s3: Step, w3: World, s4: Step, d: World,
                    aliases: seq<Alias>)
    requires Enabled(w, s1, aliases) && w1 == Next(w, s1, aliases)
    requires Enabled(w1, s2, aliases) && w2 == Next(w1, s2, aliases)
    requires Enabled(w2, s3, aliases) && w3 == Next(w2, s3, aliases)
    requires Enabled(w3, s4, aliases) && d == Next(w3, s4, aliases)
    ensures Follows(w, [s1, s2, s3, s4], d, aliases)
  {
    var ws, ss := [w, w1, w2, w3, d], [s1, s2, s3, s4];
    assert StepsTo(ws, ss, aliases, 1) && StepsTo(ws, ss, aliases, 2);
    assert StepsTo(ws, ss, aliases, 3) && StepsTo(ws, ss, aliases, 4);
    assert Leads(ws, ss, aliases) && ws[0] == w && ws[|ss|] == d;
  }

  // ------------------------------------------------------------------ removing, expiring, marking, blacklisting

  /** What a row becomes. */
  ghost predicate RowsBecome(t: Table, u: Table, row: (nat, Row) -> Row) {
    u.rows.Keys == t.rows.Keys && forall id :: id in t.rows ==> u.rows[id] == row(id, t.rows[id])
  }

  lemma RemovalStartsIff(w: World, p: nat, id: nat, aliases: seq<Alias>)
    ensures Enabled(w, BeginRemove(p, id), aliases) <==>
              p !in w.ops && id in w.table.rows && CanCount(w.table.rows[id].status)
    ensures Enabled(w, BeginRemove(p, id), aliases) ==>
              Next(w, BeginRemove(p, id), aliases) == w.(ops := w.ops[p := Removing(id)])
  {
  }

  /** A removal writes its row whatever the status is by then, and no other. */
  lemma RemovalWrites(w: World, p: nat, aliases: seq<Alias>)
    requires p in w.ops && w.ops[p].Removing?
    ensures var d := Next(w, EndRemove(p), aliases);
            && p !in d.ops
            && RowsBecome(w.table, d.table, (id, r: Row) => if id == w.ops[p].id then r.(status := Removed) else r)
  {
  }

  /** A pass that reads and writes alone removes exactly the due rows. */
  lemma ExpiryAlone(w: World, p: nat, ids: seq<nat>, aliases: seq<Alias>)
    requires Enabled(w, BeginExpire(p, ids), aliases)
    ensures var b := Next(w, BeginExpire(p, ids), aliases);
            && Enabled(b, EndExpire(p), aliases)
            && var d := Next(b, EndExpire(p), aliases);
               && d.ops == w.ops
               && RowsBecome(w.table, d.table, (id, r: Row) => if IsDue(r, w.now) then r.(status := Removed) else r)
  {
    ExpiryIs(w.table, w.now, ids);
    var d := Next(Next(w, BeginExpire(p, ids), aliases), EndExpire(p), aliases);
    assert d.ops == w.ops;
  }

  /** Whatever happens in between, a pass removes the rows that were due when it read, and no row that had
      no expiry or a later one. */
  lemma ExpiryWrites(w: World, p: nat, ids: seq<nat>, aliases: seq<Alias>, c: World)
    requires Enabled(w, BeginExpire(p, ids), aliases) && p in c.ops
    requires c.ops[p] == Next(w, BeginExpire(p, ids), aliases).ops[p]
    ensures Enabled(c, EndExpire(p), aliases)
    ensures forall id :: id in c.table.rows ==>
              Next(c, EndExpire(p), aliases).table.rows[id] ==
                if id in w.table.rows && IsDue(w.table.rows[id], w.now) then c.table.rows[id].(status := Removed)
                else c.table.rows[id]
  {
    ExpiryIs(w.table, w.now, ids);
  }

  /** A mark turns exactly those of its rows that are still requested into added ones. */
  lemma MarkWrites(w: World, p: nat, aliases: seq<Alias>)
    requires p in w.ops && w.ops[p].Marking?
    ensures var d := Next(w, EndMark(p), aliases);
            && p !in d.ops
            && RowsBecome(w.table, d.table, (id, r: Row) =>
                 if id in w.ops[p].ids && r.status.Requested? then r.(status := Added) else r)
  {
  }

  /** Blacklisting writes the rows of the pair and no other. */
  lemma BlacklistWrites(w: World, uuid: string, ip: string, ids: seq<nat>, aliases: seq<Alias>)
    requires Enabled(w, Blacklist(uuid, ip, ids), aliases)
    ensures var d := Next(w, Blacklist(uuid, ip, ids), aliases);
            && d.ops == w.ops
            && RowsBecome(w.table, d.table, (_, r: Row) =>
                 if r.uuid == uuid && r.ip == ip then r.(status := Status.Blacklisted) else r)
  {
  }

  /** Nothing else writes a row. */
  lemma OthersWriteNothing(w: World, s: Step, aliases: seq<Alias>)
    requires Enabled(w, s, aliases)
    requires !s.InsertRow? && !s.EndRemove? && !s.EndExpire? && !s.EndMark? && !s.Blacklist?
    ensures Next(w, s, aliases).table.rows == w.table.rows
    ensures !s.LogSyncFailure? ==> Next(w, s, aliases).table == w.table
  {
  }

  /** An operation can be given up at any time, time can pass at any time, and a failed sync is logged for
      any rows. */
  lemma TheRestDo(w: World, p: nat, dt: nat, ids: seq<nat>, aliases: seq<Alias>)
    ensures Enabled(w, GiveUp(p), aliases) <==> p in w.ops
    ensures p in w.ops ==> Next(w, GiveUp(p), aliases) == w.(ops := w.ops - {p})
    ensures Enabled(w, Wait(dt), aliases) && Next(w, Wait(dt), aliases) == w.(now := w.now + dt)
    ensures Enabled(w, LogSyncFailure(ids), aliases) <==> forall id :: id in ids ==> id in w.table.rows
    ensures Enabled(w, LogSyncFailure(ids), aliases) ==>
              var d := Next(w, LogSyncFailure(ids), aliases);
              && d.table.rows == w.table.rows && d.ops == w.ops && d.now == w.now
              && |d.table.events| == |w.table.events| + |ids| && w.table.events <= d.table.events
              && forall k :: 0 <= k < |ids| ==> d.table.events[|w.table.events| + k] == Event(ids[k], SyncFailed)
  {
  }

  /** An add goes through its stages in order, and every operation writes only once. */
  lemma StagesInOrder(w: World, p: nat, id: nat, ids: seq<nat>, aliases: seq<Alias>)
    requires p in w.ops
    ensures Enabled(w, CountUser(p), aliases) ==> w.ops[p].Adding? && w.ops[p].stage == NotBlacklisted
    ensures Enabled(w, CountTotal(p), aliases) ==> w.ops[p].Adding? && w.ops[p].stage == UserCounted
    ensures Enabled(w, InsertRow(p, id), aliases) ==> w.ops[p].Adding? && w.ops[p].stage == TotalCounted
    ensures Enabled(w, InsertRow(p, id), aliases) ==> p !in Next(w, InsertRow(p, id), aliases).ops
    ensures Enabled(w, EndRemove(p), aliases) ==> p !in Next(w, EndRemove(p), aliases).ops
    ensures Enabled(w, EndExpire(p), aliases) ==> p !in Next(w, EndExpire(p), aliases).ops
    ensures Enabled(w, EndMark(p), aliases) ==> p !in Next(w, EndMark(p), aliases).ops
    ensures !Enabled(w, BeginRemove(p, id), aliases) && !Enabled(w, BeginMark(p, ids), aliases)
    ensures !Enabled(w, BeginExpire(p, ids), aliases)
  {
  }

  /** A sync marks any rows that it has read as requested, each once. */
  lemma MarkStartsIff(w: World, p: nat, ids: seq<nat>, aliases: seq<Alias>)
    requires p !in w.ops
    ensures Enabled(w, BeginMark(p, ids), aliases) <==>
              (forall i, j :: 0 <= i < j < |ids| ==> ids[i] != ids[j])
              && (forall id :: id in ids ==> id in w.table.rows && w.table.rows[id].status == Requested)
    ensures Enabled(w, BeginMark(p, ids), aliases) ==>
              Next(w, BeginMark(p, ids), aliases) == w.(ops := w.ops[p := Marking(ids)])
  {
  }

  /** The operation a step belongs to, if it belongs to one. */
  function OpOf(s: Step): Option<nat> {
    if s.Blacklist? || s.LogSyncFailure? || s.Wait? then None else Some(s.p)
  }

  /** A step leaves every other operation as it is. */
  lemma OtherOpsStay(w: World, s: Step, aliases: seq<Alias>, p: nat)
    requires Enabled(w, s, aliases) && OpOf(s) != Some(p)
    ensures p in w.ops <==> p in Next(w, s, aliases).ops
    ensures p in w.ops ==> Next(w, s, aliases).ops[p] == w.ops[p]
  {
  }

  /** Every event but `sync_failed` announces exactly one status. */
  lemma AnnouncesOne(k: Kind)
    ensures k.SyncFailed? <==> forall s :: !Announces(k, s)
    ensures forall s, r :: Announces(k, s) && Announces(k, r) ==> s == r
  {
    match k
    case WasRequested => assert Announces(k, Requested);
    case WasAdded => assert Announces(k, Added);
    case WasRemoved => assert Announces(k, Removed);
    case WasExpired => assert Announces(k, Removed);
    case WasBlacklisted => assert Announces(k, Status.Blacklisted);
    case SyncFailed =>
  }
}
