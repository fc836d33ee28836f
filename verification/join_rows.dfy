/** Reading entries with their events in one joined query, and grouping the rows again in one pass. */
module JoinRows {
  import opened Common

  datatype Entry = Entry(id: nat, requestedAt: int, columns: string)

  datatype Event = Event(id: nat, entryId: nat, createdAt: int, columns: string)

  datatype Row = Row(entry: Entry, event: Option<Event>)

  datatype Grouped = Grouped(entry: Entry, events: seq<Event>)

  // ------------------------------------------------------------------ the queries

  ghost predicate HasEvents(e: Entry, events: seq<Event>) {
    exists ev :: ev in events && ev.entryId == e.id
  }

  /** How often a row occurs in the left join of the two tables. */
  ghost function InJoin(row: Row, entries: seq<Entry>, events: seq<Event>): nat {
    if row.entry !in entries then 0
    else
      match row.event
      case None => if HasEvents(row.entry, events) then 0 else 1
      case Some(ev) => if ev.entryId == row.entry.id then multiset(events)[ev] else 0
  }

  /** `ORDER BY requested_at DESC, created_at DESC`; a missing event time sorts first. */
  predicate Before(a: Row, b: Row) {
    a.entry.requestedAt > b.entry.requestedAt ||
    (a.entry.requestedAt == b.entry.requestedAt &&
     (a.event.None? || (b.event.Some? && a.event.value.createdAt >= b.event.value.createdAt)))
  }

  /** Any two rows can be put in this order, in both ways only if all their times are the same. */
  lemma AnyTwoRows(a: Row, b: Row)
    ensures Before(a, b) || Before(b, a)
    ensures Before(a, b) && Before(b, a) ==>
              && a.entry.requestedAt == b.entry.requestedAt
              && (a.event.None? <==> b.event.None?)
              && (a.event.Some? && b.event.Some? ==> a.event.value.createdAt == b.event.value.createdAt)
  {
  }

  ghost predicate DistinctIds(entries: seq<Entry>) {
    forall i, j :: 0 <= i < j < |entries| ==> entries[i].id != entries[j].id
  }

  /** The rows are an answer to the joined query. */
  ghost predicate AnswersJoin(rows: seq<Row>, entries: seq<Entry>, events: seq<Event>) {
    && (forall row :: multiset(rows)[row] == InJoin(row, entries, events))
    && (forall i, j :: 0 <= i < j < |rows| ==> Before(rows[i], rows[j]))
  }

  /** The events are an answer to the query for one entry's events, newest first. */
  ghost predicate AnswersEvents(answer: seq<Event>, events: seq<Event>, id: nat) {
    && (forall ev :: multiset(answer)[ev] == if ev.entryId == id then multiset(events)[ev] else 0)
    && NewestFirst(answer)
  }

  ghost predicate NewestFirst(events: seq<Event>) {
    forall i, j :: 0 <= i < j < |events| ==> events[i].createdAt >= events[j].createdAt
  }

  // ------------------------------------------------------------------ the pass over the rows

  /** The ids in the order of their first rows. */
  function FirstIds(rows: seq<Row>): seq<nat> {
    if rows == [] then []
    else
      var front := FirstIds(rows[..|rows| - 1]);
      var id := rows[|rows| - 1].entry.id;
      if id in front then front else front + [id]
  }

  /** The events in the rows of one entry, in order. */
  function EventsOf(rows: seq<Row>, id: nat): seq<Event> {
    if rows == [] then []
    else
      var front := EventsOf(rows[..|rows| - 1], id);
      var last := rows[|rows| - 1];
      if last.entry.id == id && last.event.Some? then front + [last.event.value] else front
  }

  function FirstEntry(rows: seq<Row>, id: nat): Entry
    requires id in FirstIds(rows)
  {
    if id in FirstIds(rows[..|rows| - 1]) then FirstEntry(rows[..|rows| - 1], id)
    else rows[|rows| - 1].entry
  }

  method GroupRows(rows: seq<Row>) returns (grouped: seq<Grouped>)
    ensures |grouped| == |FirstIds(rows)|
    ensures forall k :: 0 <= k < |grouped| ==>
              var id := FirstIds(rows)[k];
              id in FirstIds(rows) && grouped[k] == Grouped(FirstEntry(rows, id), EventsOf(rows, id))
  {
    var entriesMap: map<nat, Grouped> := map[];
    var entryOrder: seq<nat> := [];
    for k := 0 to |rows|
      invariant entryOrder == FirstIds(rows[..k])
      invariant forall id :: id in entriesMap <==> id in entryOrder
      invariant forall id :: id in entriesMap ==>
                  entriesMap[id] == Grouped(FirstEntry(rows[..k], id), EventsOf(rows[..k], id))
    {
      assert rows[..k + 1][..k] == rows[..k];
      var row := rows[k];
      var id := row.entry.id;
      if id !in entriesMap {
        NoEventsYet(rows[..k], id);
        entriesMap := entriesMap[id := Grouped(row.entry, [])];
        entryOrder := entryOrder + [id];
      }
      if row.event.Some? {
        entriesMap := entriesMap[id := entriesMap[id].(events := entriesMap[id].events + [row.event.value])];
      }
    }
    assert rows[..|rows|] == rows;
    grouped := [];
    for k := 0 to |entryOrder|
      invariant |grouped| == k
      invariant forall n :: 0 <= n < k ==> grouped[n] == entriesMap[entryOrder[n]]
    {
      assert entryOrder[k] in entryOrder;
      grouped := grouped + [entriesMap[entryOrder[k]]];
    }
  }

  lemma {:induction false} NoEventsYet(rows: seq<Row>, id: nat)
    requires id !in FirstIds(rows)
    ensures EventsOf(rows, id) == []
  {
    if rows != [] { NoEventsYet(rows[..|rows| - 1], id); }
  }

  // ------------------------------------------------------------------ what the groups hold

  lemma {:induction false} FirstIdsAre(rows: seq<Row>)
    ensures forall id :: id in FirstIds(rows) <==> exists k :: 0 <= k < |rows| && rows[k].entry.id == id
    ensures forall i, j :: 0 <= i < j < |FirstIds(rows)| ==> FirstIds(rows)[i] != FirstIds(rows)[j]
  {
    if rows != [] {
      var front, last := rows[..|rows| - 1], rows[|rows| - 1];
      FirstIdsAre(front);
      forall id ensures id in FirstIds(rows) <==> exists k :: 0 <= k < |rows| && rows[k].entry.id == id {
        if id in FirstIds(front) {
          var k :| 0 <= k < |front| && front[k].entry.id == id;
          assert rows[k].entry.id == id;
        }
        if exists k :: 0 <= k < |rows| && rows[k].entry.id == id {
          var k :| 0 <= k < |rows| && rows[k].entry.id == id;
          if k < |front| { assert front[k].entry.id == id; }
        }
      }
    }
  }

  lemma {:induction false} FirstEntryIs(rows: seq<Row>, id: nat)
    requires id in FirstIds(rows)
    ensures exists k :: 0 <= k < |rows| && rows[k].entry == FirstEntry(rows, id) && rows[k].entry.id == id
  {
    var front := rows[..|rows| - 1];
    if id in FirstIds(front) {
      FirstEntryIs(front, id);
      var k :| 0 <= k < |front| && front[k].entry == FirstEntry(front, id) && front[k].entry.id == id;
      assert rows[k].entry == FirstEntry(rows, id);
    }
  }

  /** Rows that agree on the id agree on the entry. */
  ghost predicate OneEntryEach(rows: seq<Row>) {
    forall i, j :: 0 <= i < |rows| && 0 <= j < |rows| && rows[i].entry.id == rows[j].entry.id ==>
      rows[i].entry == rows[j].entry
  }

  lemma {:induction false} EventCounts(rows: seq<Row>, e: Entry, ev: Event)
    requires forall k :: 0 <= k < |rows| && rows[k].entry.id == e.id ==> rows[k].entry == e
    ensures multiset(EventsOf(rows, e.id))[ev] == multiset(rows)[Row(e, Some(ev))]
  {
    if rows != [] {
      var front, last := rows[..|rows| - 1], rows[|rows| - 1];
      EventCounts(front, e, ev);
      assert rows == front + [last];
      assert last in rows;
    }
  }

  lemma {:induction false} EventsAreRows(rows: seq<Row>, id: nat, ev: Event)
    requires ev in EventsOf(rows, id)
    ensures exists k :: 0 <= k < |rows| && rows[k].entry.id == id && rows[k].event == Some(ev)
  {
    var front := rows[..|rows| - 1];
    if ev in EventsOf(front, id) {
      EventsAreRows(front, id, ev);
      var k :| 0 <= k < |front| && front[k].entry.id == id && front[k].event == Some(ev);
      assert rows[k].event == Some(ev);
    }
  }

  lemma {:induction false} EventsNewestFirst(rows: seq<Row>, id: nat)
    requires OneEntryEach(rows) && forall i, j :: 0 <= i < j < |rows| ==> Before(rows[i], rows[j])
    ensures NewestFirst(EventsOf(rows, id))
  {
    if rows != [] {
      var front, n := rows[..|rows| - 1], |rows| - 1;
      EventsNewestFirst(front, id);
      if rows[n].entry.id == id && rows[n].event.Some? {
        forall ev | ev in EventsOf(front, id) ensures ev.createdAt >= rows[n].event.value.createdAt {
          EventsAreRows(front, id, ev);
          var k :| 0 <= k < |front| && front[k].entry.id == id && front[k].event == Some(ev);
          assert Before(rows[k], rows[n]) && rows[k].entry == rows[n].entry;
        }
        var before := EventsOf(front, id);
        forall i | 0 <= i < |before| ensures before[i].createdAt >= rows[n].event.value.createdAt {
          assert before[i] in before;
        }
      }
    }
  }

  lemma {:induction false} EntriesInOrder(rows: seq<Row>, i: nat, j: nat)
    requires forall i, j :: 0 <= i < j < |rows| ==> Before(rows[i], rows[j])
    requires i < j < |FirstIds(rows)|
    ensures FirstIds(rows)[i] in FirstIds(rows) && FirstIds(rows)[j] in FirstIds(rows)
    ensures FirstEntry(rows, FirstIds(rows)[i]).requestedAt >= FirstEntry(rows, FirstIds(rows)[j]).requestedAt
  {
    FirstIdsAre(rows);
    var front, ids := rows[..|rows| - 1], FirstIds(rows);
    assert ids[i] in ids && ids[j] in ids;
    if j < |FirstIds(front)| {
      EntriesInOrder(front, i, j);
    } else {
      assert ids[i] in FirstIds(front);
      FirstEntryIs(front, ids[i]);
      var k :| 0 <= k < |front| && front[k].entry == FirstEntry(front, ids[i]) && front[k].entry.id == ids[i];
      assert Before(rows[k], rows[|rows| - 1]);
    }
  }

  lemma JoinedRows(rows: seq<Row>, entries: seq<Entry>, events: seq<Event>)
    requires DistinctIds(entries) && AnswersJoin(rows, entries, events)
    ensures forall k :: 0 <= k < |rows| ==> rows[k].entry in entries
    ensures OneEntryEach(rows)
    ensures forall e :: e in entries ==> exists k :: 0 <= k < |rows| && rows[k].entry == e
  {
    forall k | 0 <= k < |rows| ensures rows[k].entry in entries {
      assert rows[k] in multiset(rows);
    }
    forall e | e in entries ensures exists k :: 0 <= k < |rows| && rows[k].entry == e {
      var row := Row(e, None);
      if HasEvents(e, events) {
        var ev :| ev in events && ev.entryId == e.id;
        row := Row(e, Some(ev));
      }
      assert InJoin(row, entries, events) > 0;
      assert row in multiset(rows);
      assert row in rows;
    }
  }

  /** Main result. For every answer to the joined query, however ties interleave the rows of different
      entries, the pass returns each entry exactly once, latest request first, with an answer to the query
      for that entry's events. */
  lemma GroupingIsExact(rows: seq<Row>, entries: seq<Entry>, events: seq<Event>)
    requires DistinctIds(entries) && AnswersJoin(rows, entries, events)
    ensures var ids := FirstIds(rows);
            && (forall i, j :: 0 <= i < j < |ids| ==> ids[i] != ids[j])
            && (forall e :: e in entries ==> e.id in ids && FirstEntry(rows, e.id) == e)
            && (forall id :: id in ids ==>
                  && FirstEntry(rows, id) in entries && FirstEntry(rows, id).id == id
                  && AnswersEvents(EventsOf(rows, id), events, id))
            && (forall i, j :: 0 <= i < j < |ids| ==>
                  && ids[i] in ids && ids[j] in ids
                  && FirstEntry(rows, ids[i]).requestedAt >= FirstEntry(rows, ids[j]).requestedAt)
  {
    var ids := FirstIds(rows);
    JoinedRows(rows, entries, events);
    FirstIdsAre(rows);
    forall id | id in ids
      ensures FirstEntry(rows, id) in entries && FirstEntry(rows, id).id == id
      ensures AnswersEvents(EventsOf(rows, id), events, id)
    {
      GroupOfOne(rows, entries, events, id);
    }
    forall e | e in entries ensures e.id in ids && FirstEntry(rows, e.id) == e {
      var k :| 0 <= k < |rows| && rows[k].entry == e;
      FirstEntryIs(rows, e.id);
    }
    forall i, j | 0 <= i < j < |ids|
      ensures ids[i] in ids && ids[j] in ids
              && FirstEntry(rows, ids[i]).requestedAt >= FirstEntry(rows, ids[j]).requestedAt {
      EntriesInOrder(rows, i, j);
    }
  }

  lemma GroupOfOne(rows: seq<Row>, entries: seq<Entry>, events: seq<Event>, id: nat)
    requires DistinctIds(entries) && AnswersJoin(rows, entries, events) && id in FirstIds(rows)
    ensures FirstEntry(rows, id) in entries && FirstEntry(rows, id).id == id
    ensures AnswersEvents(EventsOf(rows, id), events, id)
  {
    JoinedRows(rows, entries, events);
    FirstEntryIs(rows, id);
    var e := FirstEntry(rows, id);
    EventsNewestFirst(rows, id);
    forall ev ensures multiset(EventsOf(rows, id))[ev] == if ev.entryId == id then multiset(events)[ev] else 0 {
      EventCounts(rows, e, ev);
      assert multiset(rows)[Row(e, Some(ev))] == InJoin(Row(e, Some(ev)), entries, events);
    }
  }
}
