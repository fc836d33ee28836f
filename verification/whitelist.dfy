/** The whitelist table and its event log: what each statement of the storage layer does to them. */
module Whitelist {
  import opened Common

  datatype Owner = Owner(iss: string, sub: string)

  datatype Status = Requested | Added | Removed | RemovedByAdmin | Blacklisted

  datatype Row = Row(owner: Owner, uuid: string, ip: string, status: Status, expiresAt: Option<int>)

  datatype Kind = WasRequested | WasAdded | WasRemoved | WasExpired | WasBlacklisted | SyncFailed

  datatype Event = Event(id: nat, kind: Kind)

  datatype Table = Table(rows: map<nat, Row>, events: seq<Event>)

  const EMPTY_TABLE := Table(map[], [])

  predicate Active(s: Status) { s.Requested? || s.Added? }

  function Rank(s: Status): nat {
    match s
    case Requested => 0
    case Added => 1
    case Removed => 2
    case RemovedByAdmin => 2
    case Blacklisted => 3
  }

  /** The status an event announces; `sync_failed` announces none. */
  predicate Announces(k: Kind, s: Status) {
    match k
    case WasRequested => s.Requested?
    case WasAdded => s.Added?
    case WasRemoved => s.Removed?
    case WasExpired => s.Removed?
    case WasBlacklisted => s.Blacklisted?
    case SyncFailed => false
  }

  function Log(ids: seq<nat>, kind: Kind): seq<Event> {
    seq(|ids|, k requires 0 <= k < |ids| => Event(ids[k], kind))
  }

  /** `UPDATE ... SET status WHERE id = ANY(ids)` followed by one event for each id. */
  function SetStatus(t: Table, ids: seq<nat>, status: Status, kind: Kind): Table {
    Table(map id | id in t.rows :: if id in ids then t.rows[id].(status := status) else t.rows[id],
          t.events + Log(ids, kind))
  }

  /** The same, but only for rows still requested; the events are written for every id. */
  function MarkAdded(t: Table, ids: seq<nat>): Table {
    Table(map id | id in t.rows ::
            if id in ids && t.rows[id].status.Requested? then t.rows[id].(status := Added) else t.rows[id],
          t.events + Log(ids, WasAdded))
  }

  function Insert(t: Table, id: nat, row: Row): Table {
    Table(t.rows[id := row], t.events + [Event(id, WasRequested)])
  }

  function ActiveOf(t: Table, owner: Owner, uuid: string): set<nat> {
    set id | id in t.rows && Active(t.rows[id].status) && t.rows[id].owner == owner && t.rows[id].uuid == uuid
  }

  function ActiveIn(t: Table, uuid: string): set<nat> {
    set id | id in t.rows && Active(t.rows[id].status) && t.rows[id].uuid == uuid
  }

  predicate HasDuplicate(t: Table, owner: Owner, uuid: string, ip: string) {
    exists id :: id in ActiveOf(t, owner, uuid) && t.rows[id].ip == ip
  }

  predicate IsBlacklisted(t: Table, uuid: string, ip: string) {
    exists id :: id in t.rows && t.rows[id].uuid == uuid && t.rows[id].ip == ip && t.rows[id].status.Blacklisted?
  }

  /** The rows `BlacklistIPAddress` selects. */
  function ToBlacklist(t: Table, uuid: string, ip: string): set<nat> {
    set id | id in t.rows && t.rows[id].uuid == uuid && t.rows[id].ip == ip && !t.rows[id].status.Blacklisted?
  }

  /** The rows `ExpireOldIPs` selects. */
  function ToExpire(t: Table, now: int): set<nat> {
    set id | id in t.rows && Active(t.rows[id].status)
             && t.rows[id].expiresAt.Some? && t.rows[id].expiresAt.value <= now
  }

  /** A query's answer: the selected ids in some order. */
  method Query(s: set<nat>) returns (ids: seq<nat>)
    ensures Lists(ids, s)
  {
    ids := [];
    var rest := s;
    while rest != {}
      invariant rest <= s && Lists(ids, s - rest)
      decreases rest
    {
      var id :| id in rest;
      ids, rest := ids + [id], rest - {id};
    }
  }

  /** How an add ends: the new row, an error although the row is stored, or an error with nothing stored. */
  datatype AddResult = Stored(id: nat) | StoredUnread(id: nat) | Duplicate | RolledBack

  /** What an add meets: whether the transaction can read, whether it commits, whether the row can be read
      again. */
  datatype AddAnswers = AddAnswers(readable: bool, commits: bool, readAgain: bool)

  /** How an update followed by its events ends: before the update, after it with only so many of the
      events written, or with all of them. */
  datatype Outcome = NotUpdated | PartlyLogged(written: nat) | Done

  /** The storage layer: statements change the rows and the log in place. */
  class Store {
    var rows: map<nat, Row>
    var events: seq<Event>
    var nextId: nat

    ghost function State(): Table
      reads this
    {
      Table(rows, events)
    }

    ghost predicate Valid()
      reads this
    {
      forall id :: id in rows ==> id < nextId
    }

    constructor ()
      ensures Valid() && State() == EMPTY_TABLE
    {
      rows, events, nextId := map[], [], 0;
    }

    method AppendEvents(ids: seq<nat>, kind: Kind)
      modifies this`events
      ensures events == old(events) + Log(ids, kind)
    {
      for k := 0 to |ids|
        invariant events == old(events) + Log(ids[..k], kind)
      {
        assert Log(ids[..k + 1], kind) == Log(ids[..k], kind) + [Event(ids[k], kind)];
        events := events + [Event(ids[k], kind)];
      }
      assert ids[..|ids|] == ids;
    }

    /** The same, giving up at the first event that cannot be written, after so many that can. */
    method AppendUntilError(ids: seq<nat>, kind: Kind, writable: nat) returns (r: Outcome)
      modifies this`events
      ensures r == if writable >= |ids| then Done else PartlyLogged(writable)
      ensures events == old(events) + Log(if writable >= |ids| then ids else ids[..writable], kind)
    {
      for k := 0 to |ids|
        invariant k <= writable && events == old(events) + Log(ids[..k], kind)
      {
        if k == writable { return PartlyLogged(k); }
        assert Log(ids[..k + 1], kind) == Log(ids[..k], kind) + [Event(ids[k], kind)];
        events := events + [Event(ids[k], kind)];
      }
      assert ids[..|ids|] == ids;
      r := Done;
    }

    /** One transaction: refuse a second active row for the same owner, alias and address. The row is read
        again after the commit, and failing at that is an error too. */
    method AddIPToWhitelist(row: Row, a: AddAnswers) returns (r: AddResult)
      requires Valid() && row.status.Requested?
      modifies this
      ensures Valid()
      ensures r.RolledBack? <==>
                !a.readable || (!a.commits && !HasDuplicate(old(State()), row.owner, row.uuid, row.ip))
      ensures r.Duplicate? <==> a.readable && HasDuplicate(old(State()), row.owner, row.uuid, row.ip)
      ensures (r.Stored? ==> a.readAgain) && (r.StoredUnread? ==> !a.readAgain)
      ensures r.Stored? || r.StoredUnread? ==> r.id !in old(rows) && State() == Insert(old(State()), r.id, row)
      ensures r.Duplicate? || r.RolledBack? ==> State() == old(State())
    {
      if !a.readable { return RolledBack; }
      if HasDuplicate(Table(rows, events), row.owner, row.uuid, row.ip) { return Duplicate; }
      if !a.commits { return RolledBack; }
      r := if a.readAgain then Stored(nextId) else StoredUnread(nextId);
      rows := rows[nextId := row];
      events := events + [Event(nextId, WasRequested)];
      nextId := nextId + 1;
    }

    method RemoveIPFromWhitelist(id: nat, executes: bool, writable: nat) returns (r: Outcome)
      requires Valid()
      modifies this
      ensures Valid()
      ensures r == if !executes || id !in old(rows) then NotUpdated else if writable >= 1 then Done else PartlyLogged(0)
      ensures r.NotUpdated? ==> State() == old(State())
      ensures !r.NotUpdated? ==> rows == old(rows)[id := old(rows)[id].(status := Removed)]
      ensures r.PartlyLogged? ==> events == old(events)
      ensures r.Done? ==> State() == SetStatus(old(State()), [id], Removed, WasRemoved)
    {
      if !executes || id !in rows { return NotUpdated; }
      rows := map i | i in rows :: if i == id then rows[i].(status := Removed) else rows[i];
      r := AppendUntilError([id], WasRemoved, writable);
    }

    /** One transaction over every row of the pair that is not blacklisted yet; having none is an error. */
    method BlacklistIPAddress(uuid: string, ip: string, commits: bool) returns (ids: seq<nat>, ok: bool)
      requires Valid()
      modifies this
      ensures Valid() && Lists(ids, ToBlacklist(old(State()), uuid, ip))
      ensures ok <==> commits && ids != []
      ensures State() == if ok then SetStatus(old(State()), ids, Blacklisted, WasBlacklisted) else old(State())
    {
      ids := Query(ToBlacklist(Table(rows, events), uuid, ip));
      ok := |ids| > 0 && commits;
      if !ok { return; }
      rows := map i | i in rows :: if i in ids then rows[i].(status := Blacklisted) else rows[i];
      AppendEvents(ids, WasBlacklisted);
    }

    /** `executes` says whether the update is carried out, `writable` how many of its events can be written. */
    method MarkIPsAsAdded(ids: seq<nat>, executes: bool, writable: nat) returns (r: Outcome)
      requires Valid()
      modifies this
      ensures Valid()
      ensures r == if !executes then NotUpdated else if writable >= |ids| then Done else PartlyLogged(writable)
      ensures r.NotUpdated? ==> State() == old(State())
      ensures !r.NotUpdated? ==> rows == MarkAdded(old(State()), ids).rows
      ensures r.PartlyLogged? ==> r.written < |ids| && events == old(events) + Log(ids[..r.written], WasAdded)
      ensures r.Done? ==> State() == MarkAdded(old(State()), ids)
    {
      if !executes { return NotUpdated; }
      rows := map i | i in rows ::
          if i in ids && rows[i].status.Requested? then rows[i].(status := Added) else rows[i];
      r := AppendUntilError(ids, WasAdded, writable);
    }

    /** Removes exactly the active rows whose time has come. */
    method ExpireOldIPs(now: int, executes: bool, writable: nat) returns (ids: seq<nat>, r: Outcome)
      requires Valid()
      modifies this
      ensures Valid() && Lists(ids, ToExpire(old(State()), now))
      ensures r == if ids == [] then Done else if !executes then NotUpdated
                   else if writable >= |ids| then Done else PartlyLogged(writable)
      ensures r.NotUpdated? ==> State() == old(State())
      ensures !r.NotUpdated? ==> rows.Keys == old(rows).Keys && forall id :: id in rows ==>
                rows[id] == if IsDue(old(rows)[id], now) then old(rows)[id].(status := Removed) else old(rows)[id]
      ensures r.PartlyLogged? ==> r.written < |ids| && events == old(events) + Log(ids[..r.written], WasExpired)
      ensures r.Done? ==> State() == SetStatus(old(State()), ids, Removed, WasExpired)
    {
      ids := Query(ToExpire(Table(rows, events), now));
      ExpiryIs(Table(rows, events), now, ids);
      if |ids| == 0 {
        assert SetStatus(State(), ids, Removed, WasExpired) == State();
        return ids, Done;
      }
      if !executes { return ids, NotUpdated; }
      rows := map i | i in rows :: if i in ids then rows[i].(status := Removed) else rows[i];
      r := AppendUntilError(ids, WasExpired, writable);
    }
  }

  /** The row is requested or added and its expiry is not later than the clock. */
  predicate IsDue(row: Row, now: int) {
    (row.status.Requested? || row.status.Added?) && row.expiresAt.Some? && row.expiresAt.value <= now
  }

  /** The pass takes the due rows, and no row without an expiry or with a later one. */
  lemma ExpiryIs(t: Table, now: int, ids: seq<nat>)
    requires Lists(ids, ToExpire(t, now))
    ensures forall id :: id in ids <==> id in t.rows && IsDue(t.rows[id], now)
    ensures forall id :: id in t.rows && (t.rows[id].expiresAt.None? || t.rows[id].expiresAt.value > now) ==> id !in ids
    ensures forall id :: id in t.rows && t.rows[id].expiresAt.Some? && t.rows[id].expiresAt.value <= now ==>
              (id in ids <==> t.rows[id].status.Requested? || t.rows[id].status.Added?)
  {
  }
}
