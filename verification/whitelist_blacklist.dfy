/** Blacklisting a pair of alias and address: which operations under way can bring the pair back. */
module WhitelistBlacklist {
  import opened Common
  import opened Whitelist
  import opened WhitelistRuns

  predicate OfPair(t: Table, id: nat, uuid: string, ip: string) {
    id in t.rows && t.rows[id].uuid == uuid && t.rows[id].ip == ip
  }

  /** The pair has rows, and all of them are blacklisted. */
  ghost predicate Sealed(t: Table, uuid: string, ip: string) {
    IsBlacklisted(t, uuid, ip) && forall id :: OfPair(t, id, uuid, ip) ==> t.rows[id].status.Blacklisted?
  }

  /** An add of the pair that is past the blacklist check and has no limit below one still to pass, or a
      removal, by a user or for its age, that has read a row of the pair. */
  ghost predicate Threatens(t: Table, op: Op, uuid: string, ip: string) {
    match op
    case Adding(_, alias, address, _, stage) =>
      && alias.uuid == uuid && address == ip
      && (stage.NotBlacklisted? ==> alias.maxPerUser >= 1)
      && (!stage.TotalCounted? ==> alias.maxTotal >= 1)
    case Removing(id) => OfPair(t, id, uuid, ip)
    case Expiring(ids) => exists id :: id in ids && OfPair(t, id, uuid, ip)
    case Marking(_) => false
  }

  ghost predicate Threatened(w: World, uuid: string, ip: string) {
    exists p :: p in w.ops && Threatens(w.table, w.ops[p], uuid, ip)
  }

  // ------------------------------------------------------------------ nothing under way: sealed for good

  lemma SealedRows(w: World, s: Step, aliases: seq<Alias>, uuid: string, ip: string, id: nat)
    requires Enabled(w, s, aliases) && Sealed(w.table, uuid, ip) && !Threatened(w, uuid, ip)
    ensures OfPair(w.table, id, uuid, ip) ==> OfPair(Next(w, s, aliases).table, id, uuid, ip)
    ensures OfPair(Next(w, s, aliases).table, id, uuid, ip) ==> Next(w, s, aliases).table.rows[id].status.Blacklisted?
  {
    if (s.InsertRow? || s.EndRemove? || s.EndExpire? || s.EndMark?) && s.p in w.ops {
      assert !Threatens(w.table, w.ops[s.p], uuid, ip);
    }
  }

  lemma SealedOps(w: World, s: Step, aliases: seq<Alias>, uuid: string, ip: string, p: nat)
    requires Enabled(w, s, aliases) && Sealed(w.table, uuid, ip) && !Threatened(w, uuid, ip)
    requires p in Next(w, s, aliases).ops
    ensures !Threatens(Next(w, s, aliases).table, Next(w, s, aliases).ops[p], uuid, ip)
  {
    if p in w.ops { assert !Threatens(w.table, w.ops[p], uuid, ip); }
    if s.InsertRow? { assert !Threatens(w.table, w.ops[s.p], uuid, ip); }
  }

  lemma SealedStep(w: World, s: Step, aliases: seq<Alias>, uuid: string, ip: string)
    requires Enabled(w, s, aliases) && Sealed(w.table, uuid, ip) && !Threatened(w, uuid, ip)
    ensures Sealed(Next(w, s, aliases).table, uuid, ip) && !Threatened(Next(w, s, aliases), uuid, ip)
  {
    var d := Next(w, s, aliases);
    var b :| b in w.table.rows && w.table.rows[b].uuid == uuid && w.table.rows[b].ip == ip
      && w.table.rows[b].status.Blacklisted?;
    forall id ensures OfPair(w.table, id, uuid, ip) ==> OfPair(d.table, id, uuid, ip)
              ensures OfPair(d.table, id, uuid, ip) ==> d.table.rows[id].status.Blacklisted? {
      SealedRows(w, s, aliases, uuid, ip, id);
    }
    assert OfPair(d.table, b, uuid, ip);
    forall p | p in d.ops ensures !Threatens(d.table, d.ops[p], uuid, ip) { SealedOps(w, s, aliases, uuid, ip, p); }
  }

  lemma {:induction false} SealedAlways(ws: seq<World>, ss: seq<Step>, aliases: seq<Alias>, uuid: string, ip: string,
                                        j: nat, k: nat)
    requires Leads(ws, ss, aliases) && j <= k < |ws|
    requires Sealed(ws[j].table, uuid, ip) && !Threatened(ws[j], uuid, ip)
    ensures Sealed(ws[k].table, uuid, ip) && !Threatened(ws[k], uuid, ip)
  {
    if j < k {
      SealedAlways(ws, ss, aliases, uuid, ip, j, k - 1);
      assert StepsTo(ws, ss, aliases, k);
      SealedStep(ws[k - 1], ss[k - 1], aliases, uuid, ip);
    }
  }

  // ------------------------------------------------------------------ something under way: it can come back

  ghost predicate Reaches(w: World, d: World, aliases: seq<Alias>) {
    exists ws, ss :: Leads(ws, ss, aliases) && ws[0] == w && ws[|ws| - 1] == d
  }

  lemma ReachesItself(w: World, aliases: seq<Alias>)
    ensures Reaches(w, w, aliases)
  {
    assert Leads([w], [], aliases) && [w][0] == w && [w][|[w]| - 1] == w;
  }

  lemma Onward(w: World, c: World, s: Step, aliases: seq<Alias>) returns (d: World)
    requires Reaches(w, c, aliases) && Enabled(c, s, aliases)
    ensures d == Next(c, s, aliases) && Reaches(w, d, aliases)
  {
    d := Next(c, s, aliases);
    var ws: seq<World>, ss :| Leads(ws, ss, aliases) && ws[0] == w && ws[|ws| - 1] == c;
    var ws', ss' := ws + [d], ss + [s];
    assert Leads(ws', ss', aliases) by {
      forall k | 0 < k < |ws'| ensures StepsTo(ws', ss', aliases, k) {
        if k < |ws| { assert StepsTo(ws, ss, aliases, k); }
      }
    }
    assert ws'[0] == w && ws'[|ws'| - 1] == d;
  }

  /** A number above all of a set. */
  lemma {:induction false} Above(s: set<nat>) returns (n: nat)
    ensures forall x :: x in s ==> x < n
  {
    n := 0;
    if s != {} {
      var x :| x in s;
      var m := Above(s - {x});
      n := if x < m then m else x + 1;
      forall y | y in s ensures y < n { assert y == x || y in s - {x}; }
    }
  }

  /** Users can remove every active row of the alias, one after the other. */
  lemma {:induction false} EmptyAlias(w: World, c: World, aliases: seq<Alias>, uuid: string, ip: string)
      returns (d: World)
    requires Reaches(w, c, aliases) && Sealed(c.table, uuid, ip)
    ensures Reaches(w, d, aliases) && d.ops == c.ops && Sealed(d.table, uuid, ip) && ActiveIn(d.table, uuid) == {}
    decreases |ActiveIn(c.table, uuid)|
  {
    if ActiveIn(c.table, uuid) == {} {
      d := c;
    } else {
      var id :| id in ActiveIn(c.table, uuid);
      var p := Above(c.ops.Keys);
      assert p !in c.ops;
      var b := Onward(w, c, BeginRemove(p, id), aliases);
      d := Onward(w, b, EndRemove(p), aliases);
      RemovedOne(c, d, id, uuid, ip);
      assert d.ops == c.ops;
      d := EmptyAlias(w, d, aliases, uuid, ip);
    }
  }

  lemma RemovedOne(c: World, d: World, id: nat, uuid: string, ip: string)
    requires Sealed(c.table, uuid, ip) && id in ActiveIn(c.table, uuid)
    requires d.table == SetStatus(c.table, [id], Removed, WasRemoved)
    ensures Sealed(d.table, uuid, ip)
    ensures ActiveIn(d.table, uuid) == ActiveIn(c.table, uuid) - {id}
  {
    var b :| b in c.table.rows && c.table.rows[b].uuid == uuid && c.table.rows[b].ip == ip
      && c.table.rows[b].status.Blacklisted?;
    assert !OfPair(c.table, id, uuid, ip);
    assert b in d.table.rows && d.table.rows[b] == c.table.rows[b];
    forall i | OfPair(d.table, i, uuid, ip) ensures d.table.rows[i].status.Blacklisted? {
      assert OfPair(c.table, i, uuid, ip);
    }
  }

  /** In an empty alias the add passes the counts it still has to pass, and stores its row. */
  lemma AddGoesThrough(w: World, c: World, p: nat, aliases: seq<Alias>, uuid: string, ip: string) returns (d: World)
    requires Reaches(w, c, aliases) && ActiveIn(c.table, uuid) == {}
    requires p in c.ops && c.ops[p].Adding? && Threatens(c.table, c.ops[p], uuid, ip)
    ensures Reaches(w, d, aliases) && !Sealed(d.table, uuid, ip)
  {
    var owner := c.ops[p].owner;
    assert ActiveOf(c.table, owner, uuid) <= ActiveIn(c.table, uuid);
    d := c;
    if d.ops[p].stage.NotBlacklisted? { d := Onward(w, d, CountUser(p), aliases); }
    if d.ops[p].stage.UserCounted? { d := Onward(w, d, CountTotal(p), aliases); }
    var id := Above(d.table.rows.Keys);
    assert id !in d.table.rows && d.table == c.table;
    d := Onward(w, d, InsertRow(p, id), aliases);
    assert OfPair(d.table, id, uuid, ip) && d.table.rows[id].status.Requested?;
  }

  /** A removal that has read a row of the pair writes it. */
  lemma RemovalGoesThrough(w: World, p: nat, id: nat, aliases: seq<Alias>, uuid: string, ip: string) returns (d: World)
    requires p in w.ops && OfPair(w.table, id, uuid, ip)
    requires w.ops[p] == Removing(id) || (w.ops[p].Expiring? && id in w.ops[p].ids)
    ensures Reaches(w, d, aliases) && !Sealed(d.table, uuid, ip)
  {
    ReachesItself(w, aliases);
    d := Onward(w, w, if w.ops[p].Removing? then EndRemove(p) else EndExpire(p), aliases);
    assert OfPair(d.table, id, uuid, ip) && d.table.rows[id].status.Removed?;
  }

  lemma ThreatComesTrue(w: World, p: nat, aliases: seq<Alias>, uuid: string, ip: string) returns (d: World)
    requires Sealed(w.table, uuid, ip) && p in w.ops && Threatens(w.table, w.ops[p], uuid, ip)
    ensures Reaches(w, d, aliases) && !Sealed(d.table, uuid, ip)
  {
    match w.ops[p]
    case Adding(_, _, _, _, _) =>
      ReachesItself(w, aliases);
      var c := EmptyAlias(w, w, aliases, uuid, ip);
      d := AddGoesThrough(w, c, p, aliases, uuid, ip);
    case Removing(id) => d := RemovalGoesThrough(w, p, id, aliases, uuid, ip);
    case Expiring(ids) =>
      var id :| id in ids && OfPair(w.table, id, uuid, ip);
      d := RemovalGoesThrough(w, p, id, aliases, uuid, ip);
    case Marking(_) =>
  }

  // ------------------------------------------------------------------ main results

  ghost predicate SealedForGood(w: World, aliases: seq<Alias>, uuid: string, ip: string) {
    forall d :: Reaches(w, d, aliases) ==> Sealed(d.table, uuid, ip)
  }

  /** A pair all of whose rows are blacklisted stays so in every continuation, whatever else goes on, if and
      only if no operation under way threatens it. */
  lemma PermanentIffUnthreatened(w: World, aliases: seq<Alias>, uuid: string, ip: string)
    requires Sealed(w.table, uuid, ip)
    ensures SealedForGood(w, aliases, uuid, ip) <==> !Threatened(w, uuid, ip)
  {
    if Threatened(w, uuid, ip) {
      var p :| p in w.ops && Threatens(w.table, w.ops[p], uuid, ip);
      var d := ThreatComesTrue(w, p, aliases, uuid, ip);
    } else {
      forall d | Reaches(w, d, aliases) ensures Sealed(d.table, uuid, ip) {
        var ws: seq<World>, ss :| Leads(ws, ss, aliases) && ws[0] == w && ws[|ws| - 1] == d;
        SealedAlways(ws, ss, aliases, uuid, ip, 0, |ws| - 1);
      }
    }
  }

  lemma BlacklistingSeals(w: World, uuid: string, ip: string, ids: seq<nat>, aliases: seq<Alias>)
    requires Enabled(w, Blacklist(uuid, ip, ids), aliases) && ids != []
    ensures var b := Next(w, Blacklist(uuid, ip, ids), aliases);
            Sealed(b.table, uuid, ip) && (Threatened(b, uuid, ip) <==> Threatened(w, uuid, ip))
  {
    var b := Next(w, Blacklist(uuid, ip, ids), aliases);
    assert ids[0] in ids;
    assert OfPair(b.table, ids[0], uuid, ip);
    forall id ensures OfPair(b.table, id, uuid, ip) <==> OfPair(w.table, id, uuid, ip) {}
    forall p | p in w.ops ensures Threatens(b.table, w.ops[p], uuid, ip) <==> Threatens(w.table, w.ops[p], uuid, ip) {}
  }

  /** Main result: blacklisting a pair is permanent if and only if, at that moment, no add of the pair that
      can still pass its limits and no removal of one of its rows is under way. */
  lemma BlacklistingIsPermanentIff(w: World, uuid: string, ip: string, ids: seq<nat>, aliases: seq<Alias>)
    requires Enabled(w, Blacklist(uuid, ip, ids), aliases) && ids != []
    ensures SealedForGood(Next(w, Blacklist(uuid, ip, ids), aliases), aliases, uuid, ip) <==> !Threatened(w, uuid, ip)
  {
    BlacklistingSeals(w, uuid, ip, ids, aliases);
    PermanentIffUnthreatened(Next(w, Blacklist(uuid, ip, ids), aliases), aliases, uuid, ip);
  }

  /** A run from the empty table: a user begins to remove a row, an administrator blacklists its address, and
      the removal lowers the status and brings the pair back. */
  lemma RemovalUndoesBlacklisting(owner: Owner, a: Alias, ip: string, aliases: seq<Alias>)
      returns (w: World, d: World)
    requires a in aliases && a.maxPerUser >= 1 && a.maxTotal >= 1
    ensures Reaches(INITIAL_WORLD, w, aliases) && Sealed(w.table, a.uuid, ip)
    ensures Enabled(w, EndRemove(0), aliases) && d == Next(w, EndRemove(0), aliases)
    ensures !Sealed(d.table, a.uuid, ip) && !Raises(w.table, d.table)
  {
    w := RequestedFirst(owner, a, ip, aliases);
    w := Onward(INITIAL_WORLD, w, BeginRemove(0, 0), aliases);
    assert ToBlacklist(w.table, a.uuid, ip) == {0};
    BlacklistingSeals(w, a.uuid, ip, [0], aliases);
    w := Onward(INITIAL_WORLD, w, Blacklist(a.uuid, ip, [0]), aliases);
    d := Next(w, EndRemove(0), aliases);
    assert OfPair(d.table, 0, a.uuid, ip) && d.table.rows[0].status.Removed?;
  }

  /** The first row of the table, requested by one add. */
  lemma RequestedFirst(owner: Owner, a: Alias, ip: string, aliases: seq<Alias>) returns (w: World)
    requires a in aliases && a.maxPerUser >= 1 && a.maxTotal >= 1
    ensures Reaches(INITIAL_WORLD, w, aliases) && w.ops == map[]
    ensures w.table.rows == map[0 := Row(owner, a.uuid, ip, Requested, None)]
  {
    ReachesItself(INITIAL_WORLD, aliases);
    w := Onward(INITIAL_WORLD, INITIAL_WORLD, BeginAdd(0, owner, a, ip, None), aliases);
    assert ActiveOf(w.table, owner, a.uuid) == {} && ActiveIn(w.table, a.uuid) == {};
    w := Onward(INITIAL_WORLD, w, CountUser(0), aliases);
    w := Onward(INITIAL_WORLD, w, CountTotal(0), aliases);
    w := Onward(INITIAL_WORLD, w, InsertRow(0, 0), aliases);
  }
}
