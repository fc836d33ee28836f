/** The sync job: compare what the table wants with what the router shows, and send the difference. */
module FirewallSync {
  import opened Common
  import opened Whitelist
  import opened Router
  import opened WhitelistRuns
  import opened WhitelistBlacklist

  datatype Entry = Entry(id: nat, row: Row)

  /** The hosts the table wants in an alias: those with at least one requested or added row. */
  function Desired(rows: map<nat, Row>, uuid: string): set<string> {
    set id | id in rows && rows[id].uuid == uuid && Active(rows[id].status) :: StripCIDR(rows[id].ip)
  }

  /** Addresses come from parsed hosts, so every stored one is a host, with or without a prefix length. */
  ghost predicate HostsOnly(rows: map<nat, Row>) {
    forall id :: id in rows ==> IsHost(StripCIDR(rows[id].ip))
  }

  /** A row adds its host to the wish of its own alias if it is requested or added, and to no other; nothing
      else about the row matters. */
  lemma WishOfRow(rows: map<nat, Row>, id: nat, row: Row, uuid: string)
    ensures Desired(rows[id := row], uuid) ==
              Desired(rows - {id}, uuid) +
              if row.uuid == uuid && (row.status.Requested? || row.status.Added?) then {StripCIDR(row.ip)} else {}
  {
    var after, before := rows[id := row], rows - {id};
    forall h
      ensures h in Desired(after, uuid) <==>
                (h in Desired(before, uuid)
                 || (h == StripCIDR(row.ip) && row.uuid == uuid && (row.status.Requested? || row.status.Added?)))
    {
      if h in Desired(after, uuid) {
        var i :| i in after && after[i].uuid == uuid && Active(after[i].status) && StripCIDR(after[i].ip) == h;
        assert i == id || (i in before && before[i] == after[i]);
      }
      if h in Desired(before, uuid) {
        var i :| i in before && before[i].uuid == uuid && Active(before[i].status) && StripCIDR(before[i].ip) == h;
        assert i in after && after[i] == before[i];
      }
      assert id in after && after[id] == row;
    }
  }

  /** What applying the difference between a first reading and the wish to a second reading leaves. */
  function Merge(seen: set<string>, desired: set<string>, reread: set<string>): set<string> {
    (reread - (seen - desired)) + (desired - seen)
  }

  /** It leaves the wish exactly if between the readings the router got nothing new that is unwanted and
      lost nothing that is wanted. */
  lemma MergeIsExact(seen: set<string>, desired: set<string>, reread: set<string>)
    ensures Merge(seen, desired, reread) == desired
            <==> (forall x :: x in reread - seen ==> x in desired) && seen * desired <= reread
  {
    var m := Merge(seen, desired, reread);
    if m == desired {
      forall x | x in reread - seen ensures x in desired { assert x in m; }
      forall x | x in seen * desired ensures x in reread { assert x in m; }
    }
  }

  /** The rows after the requested ones of an alias have been marked, for the hosts whose update went
      through. */
  function Marked(rows: map<nat, Row>, uuid: string, hosts: set<string>): map<nat, Row> {
    map id | id in rows ::
      if rows[id].uuid == uuid && rows[id].status.Requested? && StripCIDR(rows[id].ip) in hosts
      then rows[id].(status := Added) else rows[id]
  }

  /** The rows of an alias may only have gone from requested to added. */
  ghost predicate OnlyMarked(before: map<nat, Row>, after: map<nat, Row>, uuid: string) {
    && after.Keys == before.Keys
    && forall id :: id in before ==>
         || after[id] == before[id]
         || (before[id].uuid == uuid && before[id].status.Requested? && after[id] == before[id].(status := Added))
  }

  lemma MarkingKeepsWish(before: map<nat, Row>, after: map<nat, Row>, uuid: string, any: string)
    requires OnlyMarked(before, after, uuid)
    ensures Desired(after, any) == Desired(before, any)
    ensures HostsOnly(before) ==> HostsOnly(after)
  {
    forall x ensures x in Desired(after, any) <==> x in Desired(before, any) {
      if x in Desired(before, any) {
        var id :| id in before && before[id].uuid == any && Active(before[id].status) && StripCIDR(before[id].ip) == x;
        assert after[id].uuid == any && Active(after[id].status);
      }
    }
  }

  /** Nothing but the one alias has changed on the router. */
  ghost predicate SameBut(before: map<string, Content>, after: map<string, Content>, uuid: string) {
    forall u :: u != uuid ==>
      (u in after <==> u in before) && (u in after ==> after[u] == before[u])
  }

  /** Nothing but the given aliases has changed on the router. */
  ghost predicate SameOutside(before: map<string, Content>, after: map<string, Content>, uuids: seq<string>) {
    forall u :: u !in uuids ==>
      (u in after <==> u in before) && (u in after ==> after[u] == before[u])
  }

  /** Rows of the given aliases may have gone from requested to added; nothing else has changed. */
  ghost predicate MarkedWithin(before: map<nat, Row>, after: map<nat, Row>, uuids: seq<string>) {
    && after.Keys == before.Keys
    && forall id :: id in before ==>
         || after[id] == before[id]
         || (before[id].uuid in uuids && before[id].status.Requested? && after[id] == before[id].(status := Added))
  }

  /** A sync succeeds only if both readings do and the router knows the alias; if the update is answered well
      too, it does succeed. */
  predicate OutcomeFits(ok: bool, a: Answers, known: bool) {
    && (ok ==> known && a.read && a.rows)
    && (known && a.read && a.rows && AllGood(a.update) ==> ok)
  }

  /** If the sync of the alias got that far and its mark went through, the requested row is now added. */
  ghost predicate MarkedBy(before: map<nat, Row>, after: map<nat, Row>, uuid: string, a: Answers, id: nat) {
    && a.read && a.rows && id in before && id in after
    && before[id].uuid == uuid && before[id].status.Requested? && StripCIDR(before[id].ip) in a.marks ==>
      after[id].status.Added?
  }

  /** Marking turns the requested rows of the alias whose host is listed into added ones, and nothing else. */
  lemma MarkedIs(rows: map<nat, Row>, uuid: string, hosts: set<string>, id: nat)
    requires id in rows
    ensures Marked(rows, uuid, hosts).Keys == rows.Keys
    ensures var r, m := rows[id], Marked(rows, uuid, hosts)[id];
            if r.uuid == uuid && r.status == Requested && Before(r.ip, '/') in hosts
            then m == r.(status := Added) else m == r
  {
  }

  lemma MarkedIsOnlyMarked(rows: map<nat, Row>, uuid: string, hosts: set<string>)
    ensures OnlyMarked(rows, Marked(rows, uuid, hosts), uuid)
  {
  }

  /** The table after the first k syncs. */
  ghost predicate RowsAfter(before: map<nat, Row>, after: map<nat, Row>, uuids: seq<string>, answers: seq<Answers>,
                            known: set<string>, k: nat)
    requires k <= |uuids| == |answers|
  {
    && MarkedWithin(before, after, uuids)
    && (forall j, id :: 0 <= j < k && uuids[j] in known ==> MarkedBy(before, after, uuids[j], answers[j], id))
  }

  lemma RowsAfterOneMore(x: map<nat, Row>, y: map<nat, Row>, z: map<nat, Row>, uuids: seq<string>,
                         answers: seq<Answers>, known: set<string>, k: nat)
    requires k < |uuids| == |answers| && RowsAfter(x, y, uuids, answers, known, k)
    requires z == if uuids[k] in known && answers[k].read && answers[k].rows
                  then Marked(y, uuids[k], answers[k].marks) else y
    ensures RowsAfter(x, z, uuids, answers, known, k + 1)
  {
    MarkedIsOnlyMarked(y, uuids[k], answers[k].marks);
    assert MarkedWithin(x, z, uuids);
    forall j, id | 0 <= j < k + 1 && uuids[j] in known ensures MarkedBy(x, z, uuids[j], answers[j], id) {
      if j < k { assert MarkedBy(x, y, uuids[j], answers[j], id); }
    }
  }

  /** The router after the first k syncs: those that succeeded have left their aliases exact. */
  ghost predicate RouterAfter(before: map<string, Content>, after: map<string, Content>, rows: map<nat, Row>,
                              uuids: seq<string>, oks: seq<bool>)
    requires |oks| <= |uuids|
  {
    && after.Keys == before.Keys
    && SameOutside(before, after, uuids)
    && (forall j :: 0 <= j < |oks| && oks[j] ==> ShownIn(after, uuids[j]) == Desired(rows, uuids[j]))
  }

  lemma RouterAfterOneMore(a: map<string, Content>, b: map<string, Content>, c: map<string, Content>,
                           rows: map<nat, Row>, uuids: seq<string>, oks: seq<bool>, ok: bool)
    requires |oks| < |uuids| && RouterAfter(a, b, rows, uuids, oks)
    requires var u := uuids[|oks|];
             && SameBut(b, c, u) && (u in c <==> u in b)
             && (ok ==> ShownIn(c, u) == Desired(rows, u))
             && (ShownIn(b, u) == Desired(rows, u) ==> c == b)
    ensures RouterAfter(a, c, rows, uuids, oks + [ok])
  {
    var u := uuids[|oks|];
    assert forall x :: x in c <==> x in b;
    forall j | 0 <= j < |oks + [ok]| && (oks + [ok])[j] ensures ShownIn(c, uuids[j]) == Desired(rows, uuids[j]) {
      if uuids[j] != u { assert ShownIn(c, uuids[j]) == ShownIn(b, uuids[j]); }
    }
  }

  /** The entries of one group: those of a sequence whose host is the given one, in order. */
  function OfHost(entries: seq<Entry>, host: string): seq<Entry> {
    if entries == [] then []
    else
      var last := entries[|entries| - 1];
      OfHost(entries[..|entries| - 1], host) + if StripCIDR(last.row.ip) == host then [last] else []
  }

  lemma {:induction false} OfHostHolds(entries: seq<Entry>, host: string, e: Entry)
    ensures e in OfHost(entries, host) <==> e in entries && StripCIDR(e.row.ip) == host
  {
    if entries != [] {
      OfHostHolds(entries[..|entries| - 1], host, e);
      assert entries == entries[..|entries| - 1] + [entries[|entries| - 1]];
    }
  }

  /** The addresses the router shows in an alias, none if it does not know it. */
  function ShownIn(aliases: map<string, Content>, uuid: string): set<string> {
    if uuid in aliases then Selected(aliases[uuid]) else {}
  }

  /** What the requests of an update are answered: the second reading, the write, the reload after it. */
  datatype UpdateAnswers = UpdateAnswers(read: bool, accepted: bool, reloaded: bool)

  predicate AllGood(a: UpdateAnswers) { a.read && a.accepted && a.reloaded }

  /** What one sync meets: whether the router and the table can be read, for which hosts marking succeeds,
      and how the update is answered. */
  datatype Answers = Answers(read: bool, rows: bool, marks: set<string>, update: UpdateAnswers)

  class RouterAPI {
    var aliases: map<string, Content>

    function Shows(uuid: string): set<string>
      reads this
    {
      ShownIn(aliases, uuid)
    }

    /** Someone else edits the router. */
    method Drift()
      modifies this
    {
      var edited: map<string, Content> := *;
      aliases := edited;
    }

    method GetAliasIPs(uuid: string, answered: bool) returns (ips: seq<string>, ok: bool)
      ensures ok <==> answered && uuid in aliases
      ensures ok ==> ToSet(ips) == Shows(uuid)
    {
      if !answered || uuid !in aliases { return [], false; }
      ips := GetSelectedIPs(aliases[uuid]);
      ok := true;
    }

    /** Reads the alias again, takes the removals out and puts the additions in, and writes the result.
        A failure may come before the write or after it. */
    method UpdateAlias(uuid: string, ipsToAdd: seq<string>, ipsToRemove: seq<string>, a: UpdateAnswers)
        returns (ok: bool, ghost written: seq<string>)
      modifies this
      ensures ToSet(written) == (old(Shows(uuid)) - ToSet(ipsToRemove)) + ToSet(ipsToAdd)
      ensures ok <==> uuid in old(aliases) && a.read && a.accepted && a.reloaded
      ensures aliases == if uuid in old(aliases) && a.read && a.accepted
                         then old(aliases)[uuid := Accept(Join(Stripped(written)))] else old(aliases)
    {
      var current, got := GetAliasIPs(uuid, a.read);
      if !got {
        written := Listed((Shows(uuid) - ToSet(ipsToRemove)) + ToSet(ipsToAdd));
        return false, written;
      }
      var newIPs := MergeIPs(current, ipsToAdd, ipsToRemove);
      written := newIPs;
      var content := BuildContent(newIPs);
      if !a.accepted { return false, written; }
      aliases := aliases[uuid := Accept(content)];
      ok := a.reloaded;
    }
  }

  function Hosts(entries: seq<Entry>): set<string> {
    set e | e in entries :: StripCIDR(e.row.ip)
  }

  /** The entries of one alias, as they stand in the table. */
  ghost predicate Snapshot(entries: seq<Entry>, rows: map<nat, Row>, uuid: string) {
    && (forall e :: e in entries ==> e.id in rows && rows[e.id] == e.row && e.row.uuid == uuid)
    && (forall id :: id in rows && rows[id].uuid == uuid ==> Entry(id, rows[id]) in entries)
  }

  predicate AnyActive(entries: seq<Entry>) {
    exists e :: e in entries && Active(e.row.status)
  }

  /** Asking of each host whether one of its entries is active gives the wish. */
  lemma GroupsGiveWish(entries: seq<Entry>, rows: map<nat, Row>, uuid: string)
    requires Snapshot(entries, rows, uuid)
    ensures (set h | h in Hosts(entries) && AnyActive(OfHost(entries, h))) == Desired(rows, uuid)
  {
    var wish := set h | h in Hosts(entries) && AnyActive(OfHost(entries, h));
    forall h ensures h in wish <==> h in Desired(rows, uuid) {
      if h in wish {
        var e :| e in OfHost(entries, h) && Active(e.row.status);
        OfHostHolds(entries, h, e);
      }
      if h in Desired(rows, uuid) {
        var id :| id in rows && rows[id].uuid == uuid && Active(rows[id].status) && StripCIDR(rows[id].ip) == h;
        OfHostHolds(entries, h, Entry(id, rows[id]));
      }
    }
  }

  /** Every row of the alias has a `sync_failed` event. */
  ghost predicate FailureLogged(rows: map<nat, Row>, uuid: string, events: seq<Event>) {
    forall id :: id in rows && rows[id].uuid == uuid ==> Event(id, SyncFailed) in events
  }

  /** Every entry of the given groups has a `sync_failed` event. */
  ghost predicate AllLogged(groups: map<string, seq<Entry>>, hosts: set<string>, events: seq<Event>) {
    forall h, e :: h in hosts && h in groups && e in groups[h] ==> Event(e.id, SyncFailed) in events
  }

  lemma OneMoreLogged(groups: map<string, seq<Entry>>, hosts: set<string>, h: string, events: seq<Event>, ids: seq<nat>)
    requires AllLogged(groups, hosts, events) && h in groups && |ids| == |groups[h]|
    requires forall k :: 0 <= k < |ids| ==> ids[k] == groups[h][k].id
    ensures AllLogged(groups, hosts + {h}, events + Log(ids, SyncFailed))
  {
    forall e | e in groups[h] ensures Event(e.id, SyncFailed) in events + Log(ids, SyncFailed) {
      var k :| 0 <= k < |ids| && groups[h][k] == e;
      assert Log(ids, SyncFailed)[k] == Event(e.id, SyncFailed);
    }
  }

  lemma OneMoreEntry(entries: seq<Entry>, k: nat)
    requires k < |entries|
    ensures var h := StripCIDR(entries[k].row.ip);
            && Hosts(entries[..k + 1]) == Hosts(entries[..k]) + {h}
            && OfHost(entries[..k + 1], h) == OfHost(entries[..k], h) + [entries[k]]
            && forall g :: g != h ==> OfHost(entries[..k + 1], g) == OfHost(entries[..k], g)
  {
    assert entries[..k + 1] == entries[..k] + [entries[k]];
    assert entries[..k + 1][..k] == entries[..k];
  }

  /** An entry of the group of h is a row of the alias with that host. */
  ghost predicate EntryFits(e: Entry, h: string, rows: map<nat, Row>, uuid: string) {
    e.id in rows && rows[e.id] == e.row && e.row.uuid == uuid && StripCIDR(e.row.ip) == h
  }

  ghost predicate RowGrouped(groups: map<string, seq<Entry>>, e: Entry) {
    StripCIDR(e.row.ip) in groups && e in groups[StripCIDR(e.row.ip)]
  }

  /** The groups hold the rows of the alias, each under its host. */
  ghost predicate GroupsRows(groups: map<string, seq<Entry>>, rows: map<nat, Row>, uuid: string) {
    && (forall h, e :: h in groups && e in groups[h] ==> EntryFits(e, h, rows, uuid))
    && (forall id :: id in rows && rows[id].uuid == uuid ==> RowGrouped(groups, Entry(id, rows[id])))
  }

  lemma OfItsGroup(entries: seq<Entry>, rows: map<nat, Row>, uuid: string, h: string, e: Entry)
    requires Snapshot(entries, rows, uuid) && e in OfHost(entries, h)
    ensures EntryFits(e, h, rows, uuid)
  {
    OfHostHolds(entries, h, e);
  }

  lemma InItsGroup(groups: map<string, seq<Entry>>, entries: seq<Entry>, e: Entry)
    requires groups.Keys == Hosts(entries) && forall h :: h in groups ==> groups[h] == OfHost(entries, h)
    requires e in entries
    ensures RowGrouped(groups, e)
  {
    OfHostHolds(entries, StripCIDR(e.row.ip), e);
    assert StripCIDR(e.row.ip) in Hosts(entries);
  }

  lemma {:induction false} GroupedBySnapshot(groups: map<string, seq<Entry>>, entries: seq<Entry>, rows: map<nat, Row>,
                                             uuid: string)
    requires groups.Keys == Hosts(entries) && forall h :: h in groups ==> groups[h] == OfHost(entries, h)
    requires Snapshot(entries, rows, uuid)
    ensures GroupsRows(groups, rows, uuid)
  {
    forall h, e | h in groups && e in groups[h] ensures EntryFits(e, h, rows, uuid) {
      OfItsGroup(entries, rows, uuid, h, e);
    }
    forall id | id in rows && rows[id].uuid == uuid ensures RowGrouped(groups, Entry(id, rows[id])) {
      InItsGroup(groups, entries, Entry(id, rows[id]));
    }
  }

  /** Marking the requested rows of one more host. */
  lemma MarkOneHost(groups: map<string, seq<Entry>>, rows: map<nat, Row>, uuid: string, hosts: set<string>, h: string,
                    pending: seq<nat>)
    requires GroupsRows(groups, rows, uuid) && h in groups && h !in hosts
    requires forall id :: id in pending <==> exists e :: e in groups[h] && e.id == id && e.row.status.Requested?
    ensures forall events ::
              MarkAdded(Table(Marked(rows, uuid, hosts), events), pending).rows == Marked(rows, uuid, hosts + {h})
  {
    forall id | id in rows
      ensures id in pending <==> rows[id].uuid == uuid && rows[id].status.Requested? && StripCIDR(rows[id].ip) == h {
      if rows[id].uuid == uuid && StripCIDR(rows[id].ip) == h { assert Entry(id, rows[id]) in groups[h]; }
    }
  }

  lemma NothingPending(groups: map<string, seq<Entry>>, rows: map<nat, Row>, uuid: string, hosts: set<string>,
                       h: string, pending: seq<nat>)
    requires GroupsRows(groups, rows, uuid) && h in groups
    requires forall id :: id in pending <==> exists e :: e in groups[h] && e.id == id && e.row.status.Requested?
    ensures pending != [] ==> AnyActive(groups[h])
    ensures pending == [] ==> Marked(rows, uuid, hosts + {h}) == Marked(rows, uuid, hosts)
  {
    if pending == [] {
      forall id | id in rows && rows[id].uuid == uuid && StripCIDR(rows[id].ip) == h
        ensures !rows[id].status.Requested? {
        assert Entry(id, rows[id]) in groups[h];
        assert id !in pending;
      }
    } else {
      assert pending[0] in pending;
    }
  }

  lemma LoggingGroupsLogsAll(groups: map<string, seq<Entry>>, entries: seq<Entry>, before: map<nat, Row>,
                             after: map<nat, Row>, uuid: string, events: seq<Event>)
    requires groups.Keys == Hosts(entries) && forall h :: h in groups ==> groups[h] == OfHost(entries, h)
    requires Snapshot(entries, before, uuid) && OnlyMarked(before, after, uuid)
    requires AllLogged(groups, groups.Keys, events)
    ensures FailureLogged(after, uuid, events)
  {
    forall id | id in after && after[id].uuid == uuid ensures Event(id, SyncFailed) in events {
      var e := Entry(id, before[id]);
      assert e in entries;
      OfHostHolds(entries, StripCIDR(e.row.ip), e);
    }
  }

  class SyncJob {
    const router: RouterAPI
    const store: Store

    constructor (router: RouterAPI, store: Store)
      ensures this.router == router && this.store == store
    {
      this.router, this.store := router, store;
    }

    method AliasEntries(uuid: string) returns (entries: seq<Entry>)
      ensures Snapshot(entries, store.rows, uuid)
    {
      entries := [];
      var rest := store.rows.Keys;
      while rest != {}
        invariant rest <= store.rows.Keys
        invariant forall e :: e in entries ==> e.id in store.rows && store.rows[e.id] == e.row && e.row.uuid == uuid
        invariant forall id :: id in store.rows && id !in rest && store.rows[id].uuid == uuid ==>
                    Entry(id, store.rows[id]) in entries
        decreases rest
      {
        var id :| id in rest;
        if store.rows[id].uuid == uuid { entries := entries + [Entry(id, store.rows[id])]; }
        rest := rest - {id};
      }
    }

    /** The hosts wanted in the alias; their requested rows get marked. */
    method Wanted(uuid: string, marks: set<string>) returns (wanted: set<string>, groups: map<string, seq<Entry>>)
      requires store.Valid()
      modifies store
      ensures store.Valid() && store.rows == Marked(old(store.rows), uuid, marks)
      ensures wanted == Desired(old(store.rows), uuid)
      ensures forall events :: AllLogged(groups, groups.Keys, events) ==> FailureLogged(store.rows, uuid, events)
    {
      ghost var rows := store.rows;
      var entries := AliasEntries(uuid);
      groups := GroupByHost(entries);
      GroupsGiveWish(entries, rows, uuid);
      GroupedBySnapshot(groups, entries, rows, uuid);
      wanted := Decide(groups, uuid, marks);
      assert wanted == set h | h in Hosts(entries) && AnyActive(OfHost(entries, h));
      forall events | AllLogged(groups, groups.Keys, events) ensures FailureLogged(store.rows, uuid, events) {
        LoggingGroupsLogsAll(groups, entries, rows, store.rows, uuid, events);
      }
    }

    method GroupByHost(entries: seq<Entry>) returns (groups: map<string, seq<Entry>>)
      ensures groups.Keys == Hosts(entries)
      ensures forall h :: h in groups ==> groups[h] == OfHost(entries, h)
    {
      groups := map[];
      for k := 0 to |entries|
        invariant groups.Keys == Hosts(entries[..k])
        invariant forall h :: h in groups ==> groups[h] == OfHost(entries[..k], h)
      {
        var e := entries[k];
        var h := StripCIDR(e.row.ip);
        OneMoreEntry(entries, k);
        if h !in groups { NoneOfHost(entries[..k], h); }
        groups := groups[h := (if h in groups then groups[h] else []) + [e]];
      }
      assert entries[..|entries|] == entries;
    }

    /** Which of a group's rows are still requested, and whether any of its rows is active. */
    static method Inspect(group: seq<Entry>) returns (pending: seq<nat>, active: bool)
      ensures active == AnyActive(group)
      ensures forall id :: id in pending <==> exists e :: e in group && e.id == id && e.row.status.Requested?
    {
      pending, active := [], false;
      for k := 0 to |group|
        invariant active == AnyActive(group[..k])
        invariant forall id :: id in pending <==> exists e :: e in group[..k] && e.id == id && e.row.status.Requested?
      {
        assert group[..k + 1] == group[..k] + [group[k]];
        if group[k].row.status.Requested? {
          pending := pending + [group[k].id];
          active := true;
        } else if group[k].row.status.Added? {
          active := true;
        }
      }
      assert group[..|group|] == group;
    }

    /** Decides each host and marks the requested rows of the wanted ones, as far as marking succeeds. */
    method Decide(groups: map<string, seq<Entry>>, uuid: string, marks: set<string>) returns (wanted: set<string>)
      requires store.Valid() && GroupsRows(groups, store.rows, uuid)
      modifies store
      ensures store.Valid() && store.rows == Marked(old(store.rows), uuid, marks)
      ensures wanted == set h | h in groups && AnyActive(groups[h])
    {
      wanted := {};
      ghost var rows := store.rows;
      var rest := groups.Keys;
      assert Marked(rows, uuid, marks * (groups.Keys - rest)) == rows;
      while rest != {}
        invariant rest <= groups.Keys && store.Valid()
        invariant store.rows == Marked(rows, uuid, marks * (groups.Keys - rest))
        invariant wanted == set h | h in groups && h !in rest && AnyActive(groups[h])
        decreases rest
      {
        var h :| h in rest;
        var pending, active := Inspect(groups[h]);
        ghost var hosts := marks * (groups.Keys - rest);
        MarkOneHost(groups, rows, uuid, hosts, h, pending);
        if active {
          wanted := wanted + {h};
          if |pending| > 0 {
            var writable: nat := *;
            var r := store.MarkIPsAsAdded(pending, h in marks, writable);
          }
        }
        rest := rest - {h};
        NothingPending(groups, rows, uuid, hosts, h, pending);
        assert marks * (groups.Keys - rest) == if h in marks then hosts + {h} else hosts;
      }
      assert groups.Keys - rest == groups.Keys;
      assert store.rows == Marked(rows, uuid, marks);
    }

    static method Difference(wanted: set<string>, current: seq<string>)
        returns (toAdd: seq<string>, toRemove: seq<string>)
      ensures ToSet(toAdd) == wanted - ToSet(current)
      ensures ToSet(toRemove) == ToSet(current) - wanted
    {
      var currentSet := ToSet(current);
      toAdd, toRemove := [], [];
      var rest := wanted;
      while rest != {}
        invariant rest <= wanted && ToSet(toAdd) == wanted - currentSet - rest
        decreases rest
      {
        var ip :| ip in rest;
        ghost var before := toAdd;
        if ip !in currentSet { toAdd := toAdd + [ip]; }
        rest := rest - {ip};
        assert ToSet(toAdd) == ToSet(before) + (if ip in currentSet then {} else {ip});
      }
      rest := currentSet;
      while rest != {}
        invariant rest <= currentSet && ToSet(toRemove) == currentSet - wanted - rest
        decreases rest
      {
        var ip :| ip in rest;
        ghost var before := toRemove;
        if ip !in wanted { toRemove := toRemove + [ip]; }
        rest := rest - {ip};
        assert ToSet(toRemove) == ToSet(before) + (if ip in wanted then {} else {ip});
      }
    }

    /** One `sync_failed` event for every entry of the alias. */
    method LogFailure(groups: map<string, seq<Entry>>)
      requires store.Valid()
      modifies store`events
      ensures store.Valid() && old(store.events) <= store.events
      ensures forall k :: |old(store.events)| <= k < |store.events| ==> store.events[k].kind == SyncFailed
      ensures AllLogged(groups, groups.Keys, store.events)
      ensures forall h, e :: h in groups && e in groups[h] ==> Event(e.id, SyncFailed) in store.events
    {
      var rest := groups.Keys;
      while rest != {}
        invariant rest <= groups.Keys && store.Valid() && old(store.events) <= store.events
        invariant forall k :: |old(store.events)| <= k < |store.events| ==> store.events[k].kind == SyncFailed
        invariant AllLogged(groups, groups.Keys - rest, store.events)
        decreases rest
      {
        var h :| h in rest;
        var ids := seq(|groups[h]|, k requires 0 <= k < |groups[h]| => groups[h][k].id);
        ghost var before := store.events;
        store.AppendEvents(ids, SyncFailed);
        OneMoreLogged(groups, groups.Keys - rest, h, before, ids);
        rest := rest - {h};
        assert groups.Keys - rest == groups.Keys - rest - {h} + {h};
      }
      assert groups.Keys - rest == groups.Keys;
    }

    /** Sends the difference between the wish and a reading of the router, if there is one. `reread` is what
        the router shows when the update reads it again; on a quiet router nobody else edits it before. */
    method Send(uuid: string, wanted: set<string>, current: seq<string>, groups: map<string, seq<Entry>>,
                a: UpdateAnswers, quiet: bool)
        returns (ok: bool, toAdd: seq<string>, toRemove: seq<string>,
                 ghost reread: set<string>, ghost written: seq<string>)
      requires store.Valid() && uuid in router.aliases && ToSet(current) == router.Shows(uuid)
      requires forall h :: h in wanted ==> IsHost(h)
      modifies router, store`events
      ensures store.Valid()
      ensures ToSet(toAdd) == wanted - ToSet(current) && ToSet(toRemove) == ToSet(current) - wanted
      ensures quiet ==> (ok <==> (toAdd == [] && toRemove == []) || AllGood(a))
      ensures quiet ==> SameBut(old(router.aliases), router.aliases, uuid) && reread == ToSet(current)
      ensures quiet ==> uuid in router.aliases
      ensures ok && (toAdd != [] || toRemove != []) ==>
                && ToSet(written) == Merge(ToSet(current), wanted, reread)
                && uuid in router.aliases && router.aliases[uuid] == Accept(Join(Stripped(written)))
      ensures ok && (quiet || forall x :: x in reread ==> IsHost(x)) ==>
                router.Shows(uuid) == Merge(ToSet(current), wanted, reread)
      ensures toAdd == [] && toRemove == [] ==> ok && router.aliases == old(router.aliases)
      ensures ok ==> store.events == old(store.events)
      ensures !ok ==> AllLogged(groups, groups.Keys, store.events)
    {
      reread, written := ToSet(current), [];
      toAdd, toRemove := Difference(wanted, current);
      ok := true;
      if |toAdd| > 0 || |toRemove| > 0 {
        if !quiet { router.Drift(); }
        reread := router.Shows(uuid);
        ok, written := router.UpdateAlias(uuid, toAdd, toRemove, a);
        assert ToSet(written) == Merge(ToSet(current), wanted, reread);
        if !ok {
          LogFailure(groups);
        } else if quiet || forall x :: x in reread ==> IsHost(x) {
          WrittenAreHosts(wanted, ToSet(current), reread, written);
          WriteThenRead(written);
        }
      } else {
        assert ToSet(toAdd) == {} && ToSet(toRemove) == {};
        assert wanted == ToSet(current);
      }
    }

    /** One alias. `seen` and `reread` are what the router showed at the first reading and at the one the
        update starts from; `written` are the addresses the update wrote. */
    method SyncAlias(uuid: string, a: Answers, quiet: bool)
        returns (ok: bool, toAdd: seq<string>, toRemove: seq<string>,
                 ghost seen: set<string>, ghost reread: set<string>, ghost written: seq<string>)
      requires store.Valid() && HostsOnly(store.rows)
      modifies router, store
      ensures store.Valid()
      ensures store.rows == if uuid in old(router.aliases) && a.read && a.rows
                            then Marked(old(store.rows), uuid, a.marks) else old(store.rows)
      ensures quiet ==> (ok <==> uuid in old(router.aliases) && a.read && a.rows
                                 && ((toAdd == [] && toRemove == []) || AllGood(a.update)))
      ensures quiet ==> SameBut(old(router.aliases), router.aliases, uuid) && seen == reread == old(router.Shows(uuid))
      ensures quiet ==> (uuid in router.aliases <==> uuid in old(router.aliases))
      ensures ToSet(toAdd) <= Desired(old(store.rows), uuid) - seen
      ensures ToSet(toRemove) <= seen - Desired(old(store.rows), uuid)
      ensures ok ==> ToSet(toAdd) == Desired(old(store.rows), uuid) - seen
                     && ToSet(toRemove) == seen - Desired(old(store.rows), uuid)
      ensures ok && (toAdd != [] || toRemove != []) ==>
                && ToSet(written) == Merge(seen, Desired(old(store.rows), uuid), reread)
                && uuid in router.aliases && router.aliases[uuid] == Accept(Join(Stripped(written)))
      ensures ok && (quiet || forall x :: x in reread ==> IsHost(x)) ==>
                router.Shows(uuid) == Merge(seen, Desired(old(store.rows), uuid), reread)
      ensures toAdd == [] && toRemove == [] ==> router.aliases == old(router.aliases)
      ensures !ok && (toAdd != [] || toRemove != []) ==>
                forall id :: id in store.rows && store.rows[id].uuid == uuid ==> Event(id, SyncFailed) in store.events
    {
      var current, got := router.GetAliasIPs(uuid, a.read);
      seen := router.Shows(uuid);
      if !got || !a.rows { return false, [], [], seen, seen, []; }
      var wanted, groups := Wanted(uuid, a.marks);
      ok, toAdd, toRemove, reread, written := Send(uuid, wanted, current, groups, a.update, quiet);
    }

    /** On a quiet router a successful sync is exact, and it sends something only if there was a difference. */
    method SyncQuiet(uuid: string, a: Answers) returns (ok: bool, toAdd: seq<string>, toRemove: seq<string>)
      requires store.Valid() && HostsOnly(store.rows)
      modifies router, store
      ensures store.Valid() && HostsOnly(store.rows)
      ensures store.rows == if uuid in old(router.aliases) && a.read && a.rows
                            then Marked(old(store.rows), uuid, a.marks) else old(store.rows)
      ensures forall u :: Desired(store.rows, u) == Desired(old(store.rows), u)
      ensures SameBut(old(router.aliases), router.aliases, uuid)
      ensures uuid in router.aliases <==> uuid in old(router.aliases)
      ensures ok <==> uuid in old(router.aliases) && a.read && a.rows
                      && (old(router.Shows(uuid)) == Desired(old(store.rows), uuid)
                          || (a.update.read && a.update.accepted && a.update.reloaded))
      ensures ok ==> router.Shows(uuid) == Desired(old(store.rows), uuid)
      ensures old(router.Shows(uuid)) == Desired(old(store.rows), uuid) ==> toAdd == [] && toRemove == []
      ensures toAdd == [] && toRemove == [] ==> router.aliases == old(router.aliases)
    {
      ghost var rows := store.rows;
      ghost var seen, reread, written;
      ok, toAdd, toRemove, seen, reread, written := SyncAlias(uuid, a, true);
      forall u ensures Desired(store.rows, u) == Desired(rows, u) { MarkingKeepsWish(rows, store.rows, uuid, u); }
      MarkingKeepsWish(rows, store.rows, uuid, uuid);
      MergeIsExact(seen, Desired(rows, uuid), reread);
      EmptySet(toAdd);
      EmptySet(toRemove);
    }

    /** A successful sync on a quiet router is exact, and the next one finds nothing to do. */
    method SyncTwice(uuid: string, a: Answers, b: Answers)
        returns (first: bool, second: bool, toAdd: seq<string>, toRemove: seq<string>)
      requires store.Valid() && HostsOnly(store.rows)
      modifies router, store
      ensures first ==> router.Shows(uuid) == Desired(old(store.rows), uuid)
      ensures first ==> toAdd == [] && toRemove == []
    {
      first, toAdd, toRemove := SyncQuiet(uuid, a);
      if !first { return false, false, [], []; }
      second, toAdd, toRemove := SyncQuiet(uuid, b);
    }

    /** Every configured alias in turn; several may name the same router alias. An alias that one sync has
        made exact stays exact. */
    method SyncAllAliases(uuids: seq<string>, answers: seq<Answers>) returns (oks: seq<bool>)
      requires store.Valid() && HostsOnly(store.rows) && |answers| == |uuids|
      modifies router, store
      ensures store.Valid() && |oks| == |uuids|
      ensures forall k :: 0 <= k < |uuids| && oks[k] ==>
                uuids[k] in old(router.aliases) && answers[k].read && answers[k].rows
      ensures forall k :: 0 <= k < |uuids| && uuids[k] in old(router.aliases) ==>
                (answers[k].read && answers[k].rows && answers[k].update == UpdateAnswers(true, true, true) ==> oks[k])
      ensures router.aliases.Keys == old(router.aliases.Keys)
      ensures forall u :: u in router.aliases && u !in uuids ==> router.aliases[u] == old(router.aliases)[u]
      ensures forall k :: 0 <= k < |uuids| && oks[k] ==>
                uuids[k] in router.aliases
                && Selected(router.aliases[uuids[k]]) == Desired(old(store.rows), uuids[k])
      ensures store.rows.Keys == old(store.rows.Keys)
      ensures forall id :: id in store.rows ==>
                var r := old(store.rows)[id];
                store.rows[id] == r
                || (r.uuid in uuids && r.status.Requested? && store.rows[id] == r.(status := Added))
      ensures forall k, id :: 0 <= k < |uuids| && uuids[k] in old(router.aliases) && id in store.rows ==>
                var r, a := old(store.rows)[id], answers[k];
                (a.read && a.rows && r.uuid == uuids[k] && r.status.Requested? && StripCIDR(r.ip) in a.marks ==>
                   store.rows[id].status.Added?)
      ensures forall u :: Desired(store.rows, u) == Desired(old(store.rows), u)
    {
      oks := [];
      ghost var rows := store.rows;
      for k := 0 to |uuids|
        invariant store.Valid() && HostsOnly(store.rows) && |oks| == k
        invariant forall j :: 0 <= j < k ==> OutcomeFits(oks[j], answers[j], uuids[j] in old(router.aliases))
        invariant RouterAfter(old(router.aliases), router.aliases, rows, uuids, oks)
        invariant RowsAfter(rows, store.rows, uuids, answers, old(router.aliases).Keys, k)
        invariant forall u :: Desired(store.rows, u) == Desired(rows, u)
      {
        oks := SyncNext(uuids, answers, oks, old(router.aliases), rows);
      }
      forall k, id | 0 <= k < |uuids| && uuids[k] in old(router.aliases) && id in store.rows
        ensures MarkedBy(rows, store.rows, uuids[k], answers[k], id) {}
    }

    /** The next alias of the loop, which started from the given router and table. */
    method SyncNext(uuids: seq<string>, answers: seq<Answers>, before: seq<bool>,
                    ghost aliases: map<string, Content>, ghost rows: map<nat, Row>) returns (oks: seq<bool>)
      requires store.Valid() && HostsOnly(store.rows) && |before| < |uuids| == |answers|
      requires RouterAfter(aliases, router.aliases, rows, uuids, before)
      requires RowsAfter(rows, store.rows, uuids, answers, aliases.Keys, |before|)
      requires forall u :: Desired(store.rows, u) == Desired(rows, u)
      modifies router, store
      ensures store.Valid() && HostsOnly(store.rows)
      ensures |oks| == |before| + 1 && before <= oks
      ensures OutcomeFits(oks[|before|], answers[|before|], uuids[|before|] in aliases)
      ensures RouterAfter(aliases, router.aliases, rows, uuids, oks)
      ensures RowsAfter(rows, store.rows, uuids, answers, aliases.Keys, |oks|)
      ensures forall u :: Desired(store.rows, u) == Desired(rows, u)
    {
      var k := |before|;
      assert uuids[k] in router.aliases <==> uuids[k] in aliases.Keys;
      var ok, _, _ := SyncQuiet(uuids[k], answers[k]);
      RowsAfterOneMore(rows, old(store.rows), store.rows, uuids, answers, aliases.Keys, k);
      RouterAfterOneMore(aliases, old(router.aliases), router.aliases, rows, uuids, before, ok);
      oks := before + [ok];
    }
  }

  lemma EmptySet(s: seq<string>)
    ensures ToSet(s) == {} ==> s == []
  {
    if s != [] { assert s[0] in ToSet(s); }
  }

  /** Once a pair is blacklisted and nothing under way threatens it, its address is not wanted in the alias
      in any later state: every later sync that succeeds leaves it out. */
  lemma BlacklistedStaysUnwanted(w: World, d: World, aliases: seq<Alias>, uuid: string, ip: string)
    requires Sealed(w.table, uuid, ip) && !Threatened(w, uuid, ip) && Reaches(w, d, aliases)
    requires forall id :: id in d.table.rows && StripCIDR(d.table.rows[id].ip) == StripCIDR(ip) ==>
               d.table.rows[id].ip == ip
    ensures StripCIDR(ip) !in Desired(d.table.rows, uuid)
  {
    PermanentIffUnthreatened(w, aliases, uuid, ip);
    forall id | id in d.table.rows && d.table.rows[id].uuid == uuid && Active(d.table.rows[id].status)
      ensures StripCIDR(d.table.rows[id].ip) != StripCIDR(ip) {
      assert !OfPair(d.table, id, uuid, ip);
    }
  }

  lemma WrittenAreHosts(wanted: set<string>, seen: set<string>, reread: set<string>, written: seq<string>)
    requires forall h :: h in wanted ==> IsHost(h)
    requires ToSet(written) == Merge(seen, wanted, reread)
    requires seen == reread || forall x :: x in reread ==> IsHost(x)
    ensures forall h :: h in written ==> IsHost(h)
    ensures Stripped(written) == written
  {
    forall h | h in written ensures IsHost(h) && StripCIDR(h) == h {
      assert h in ToSet(written);
      HostIsShown(h);
    }
  }

  lemma {:induction false} NoneOfHost(entries: seq<Entry>, h: string)
    requires h !in Hosts(entries)
    ensures OfHost(entries, h) == []
  {
    if entries != [] {
      var front := entries[..|entries| - 1];
      assert entries == front + [entries[|entries| - 1]];
      assert Hosts(front) <= Hosts(entries);
      assert entries[|entries| - 1] in entries;
      NoneOfHost(front, h);
    }
  }
}
