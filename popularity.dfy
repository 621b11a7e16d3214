/**
 * `get_event_popularity` (prototype.py:146-173): every scheduled event, optionally of
 * one type, with the number of registrations it has, most registrations first.
 *
 * The query is modelled clause by clause: `Joined` is the LEFT JOIN, `Where` the
 * WHERE clause, `Group` one group of GROUP BY e.event_id, `Aggregate` the SELECT
 * list, and `EventPopularity` the ORDER BY. `RowOf` and `ListedEvents` say directly
 * what the report should hold, and `PopularityIsOneRowPerListedEvent` proves that
 * the query computes it.
 */
module Popularity {
  import opened Schema
  import opened Relational
  import opened Ordering

  /** A row of `Events e LEFT JOIN Registrations r`: `reg` is None for an unmatched event. */
  datatype JoinRow = JoinRow(event: Event, reg: Option<Registration>)

  /** A row of the report: (event_name, event_type, registration_count). */
  datatype PopularityRow = PopularityRow(eventName: string, eventType: Option<string>, registrationCount: nat)

  function PairWith(e: Event): Registration -> seq<JoinRow> {
    (r: Registration) => [JoinRow(e, Some(r))]
  }

  /** The LEFT JOIN rows of one event: one per matching registration, or one with NULLs. */
  function LeftJoinOf(regs: seq<Registration>): Event -> seq<JoinRow> {
    (e: Event) =>
      var m := RegistrationsOfEvent(regs, e.eventId);
      if m == [] then [JoinRow(e, None)] else FlatMap(m, PairWith(e))
  }

  /** FROM Events e LEFT JOIN Registrations r ON e.event_id = r.event_id */
  function Joined(db: Store): seq<JoinRow> {
    FlatMap(db.events, LeftJoinOf(db.registrations))
  }

  /** `if event_type:` in Python: the type filter is added only for a non-empty string. */
  predicate TypeFilterActive(eventType: Option<string>) {
    eventType.Some? && eventType.value != ""
  }

  /** `e.event_type = ?`; a NULL event_type never equals the parameter. */
  predicate TypeMatches(e: Event, eventType: Option<string>) {
    TypeFilterActive(eventType) ==> e.eventType == Some(eventType.value)
  }

  /** The events the report lists: scheduled, and of the requested type if one is given. */
  predicate Listed(e: Event, eventType: Option<string>) {
    e.eventStatus == Scheduled && TypeMatches(e, eventType)
  }

  /** WHERE e.event_status = 'Scheduled' [AND e.event_type = ?] */
  function Where(eventType: Option<string>): JoinRow -> bool {
    (row: JoinRow) => Listed(row.event, eventType)
  }

  function InGroup(id: Id): JoinRow -> bool {
    (row: JoinRow) => row.event.eventId == id
  }

  /** The group of GROUP BY e.event_id whose key is `id`. */
  function Group(db: Store, eventType: Option<string>, id: Id): seq<JoinRow> {
    Filter(Filter(Joined(db), Where(eventType)), InGroup(id))
  }

  function HasRegistration(): JoinRow -> bool {
    (row: JoinRow) => row.reg.Some?
  }

  /** SELECT e.event_name, e.event_type, COUNT(r.reg_id): COUNT skips the NULLs. */
  function Aggregate(g: seq<JoinRow>): PopularityRow
    requires g != []
  {
    PopularityRow(g[0].event.eventName, g[0].event.eventType, |Filter(g, HasRegistration())|)
  }

  /**
   * One report row per group key that has rows. The keys are enumerated from the
   * Events table, which lists each event_id once when the primary key holds.
   */
  function Grouped(db: Store, eventType: Option<string>, es: seq<Event>): seq<PopularityRow> {
    if es == [] then []
    else
      var g := Group(db, eventType, es[0].eventId);
      (if g == [] then [] else [Aggregate(g)]) + Grouped(db, eventType, es[1..])
  }

  /** ORDER BY registration_count DESC */
  function MoreRegistrations(): (PopularityRow, PopularityRow) -> bool {
    (a: PopularityRow, b: PopularityRow) => a.registrationCount >= b.registrationCount
  }

  lemma MoreRegistrationsOrders()
    ensures TotalPreorder(MoreRegistrations())
  {}

  /**
   * The report. Unique event ids, which the PRIMARY KEY guarantees,
   * are what make grouping by event_id the same as one group per Events row.
   */
  function EventPopularity(db: Store, eventType: Option<string>): (report: seq<PopularityRow>)
    requires EventKeysUnique(db.events)
    ensures multiset(report) == multiset(Grouped(db, eventType, db.events))
    ensures SortedBy(report, MoreRegistrations())
  {
    MoreRegistrationsOrders();
    SortBy(Grouped(db, eventType, db.events), MoreRegistrations())
  }

  // ---------------------------------------------------------------------------
  // What the report means.

  function IsListed(eventType: Option<string>): Event -> bool {
    (e: Event) => Listed(e, eventType)
  }

  /** The events the report should list, in table order. */
  function ListedEvents(db: Store, eventType: Option<string>): seq<Event> {
    Filter(db.events, IsListed(eventType))
  }

  /** The row an event should get: its name, its type and how many registrations name it. */
  function RowOf(db: Store, e: Event): PopularityRow {
    PopularityRow(e.eventName, e.eventType, |RegistrationsOfEvent(db.registrations, e.eventId)|)
  }

  function RowFor(db: Store): Event -> PopularityRow {
    (e: Event) => RowOf(db, e)
  }

  /** The rows the events `es` should get, in order. */
  function RowsOf(db: Store, es: seq<Event>): seq<PopularityRow> {
    Map(es, RowFor(db))
  }

  /** Every LEFT JOIN row of an event carries that event, and there is at least one. */
  lemma LeftJoinOfEvent(regs: seq<Registration>, e: Event)
    ensures LeftJoinOf(regs)(e) != []
    ensures forall y :: y in LeftJoinOf(regs)(e) ==> y.event == e
  {}

  /** An event's registration count is the number of registrations that reference it. */
  lemma {:induction false} LeftJoinCount(regs: seq<Registration>, e: Event)
    ensures |Filter(LeftJoinOf(regs)(e), HasRegistration())| == |RegistrationsOfEvent(regs, e.eventId)|
  {
    var m := RegistrationsOfEvent(regs, e.eventId);
    if m != [] {
      var rows := FlatMap(m, PairWith(e));
      assert forall y :: y in rows ==> HasRegistration()(y);
      FilterAll(rows, HasRegistration());
      FlatMapSingletonsLength(m, PairWith(e));
    }
  }

  /** The group of the k-th event: its LEFT JOIN rows if it is listed, otherwise nothing. */
  lemma {:induction false} GroupOfEvent(db: Store, eventType: Option<string>, k: nat)
    requires EventKeysUnique(db.events)
    requires k < |db.events|
    ensures Group(db, eventType, db.events[k].eventId) ==
      if Listed(db.events[k], eventType) then LeftJoinOf(db.registrations)(db.events[k]) else []
  {
    var e := db.events[k];
    var f := LeftJoinOf(db.registrations);
    FilterCommute(Joined(db), Where(eventType), InGroup(e.eventId));
    forall i, y | 0 <= i < |db.events| && i != k && y in f(db.events[i])
      ensures !InGroup(e.eventId)(y)
    {
      LeftJoinOfEvent(db.registrations, db.events[i]);
      if i < k {
        assert db.events[i].eventId != db.events[k].eventId;
      } else {
        assert db.events[k].eventId != db.events[i].eventId;
      }
    }
    FilterFlatMapSingle(db.events, f, InGroup(e.eventId), k);
    LeftJoinOfEvent(db.registrations, e);
    FilterAll(f(e), InGroup(e.eventId));
    if Listed(e, eventType) {
      FilterAll(f(e), Where(eventType));
    } else {
      FilterNone(f(e), Where(eventType));
    }
  }

  /** The row the k-th event's group contributes: its `RowOf` when it is listed, none otherwise. */
  lemma GroupRowOfEvent(db: Store, eventType: Option<string>, k: nat)
    requires EventKeysUnique(db.events)
    requires k < |db.events|
    ensures var g := Group(db, eventType, db.events[k].eventId);
      (if g == [] then [] else [Aggregate(g)]) ==
      (if Listed(db.events[k], eventType) then [RowOf(db, db.events[k])] else [])
  {
    GroupOfEvent(db, eventType, k);
    var e := db.events[k];
    if Listed(e, eventType) {
      LeftJoinOfEvent(db.registrations, e);
      LeftJoinCount(db.registrations, e);
      var g := Group(db, eventType, e.eventId);
      assert g[0] in g;
    }
  }

  lemma {:induction false} GroupedFrom(db: Store, eventType: Option<string>, k: nat)
    requires EventKeysUnique(db.events)
    requires k <= |db.events|
    ensures Grouped(db, eventType, db.events[k..]) == RowsOf(db, Filter(db.events[k..], IsListed(eventType)))
    decreases |db.events| - k
  {
    if k < |db.events| {
      var es := db.events[k..];
      assert es[0] == db.events[k];
      assert es[1..] == db.events[k + 1..];
      GroupedFrom(db, eventType, k + 1);
      GroupRowOfEvent(db, eventType, k);
    }
  }

  /**
   * The report has one row per listed event — scheduled and, when a non-empty type
   * is given, of exactly that type — carrying its name, its type and the number of
   * registrations that reference it (0 when there are none), in some order.
   */
  lemma PopularityIsOneRowPerListedEvent(db: Store, eventType: Option<string>)
    requires EventKeysUnique(db.events)
    ensures multiset(EventPopularity(db, eventType)) == multiset(RowsOf(db, ListedEvents(db, eventType)))
  {
    assert db.events[0..] == db.events;
    GroupedFrom(db, eventType, 0);
  }

  /**
   * A row is in the report exactly when it is the row of a scheduled event of the
   * requested type; a cancelled event never contributes a row.
   */
  lemma PopularityMembership(db: Store, eventType: Option<string>, row: PopularityRow)
    requires EventKeysUnique(db.events)
    ensures row in EventPopularity(db, eventType) <==>
      exists e :: e in db.events && Listed(e, eventType) && row == RowOf(db, e)
  {
    PopularityIsOneRowPerListedEvent(db, eventType);
    var listed := ListedEvents(db, eventType);
    assert row in EventPopularity(db, eventType) <==> row in RowsOf(db, listed) by {
      assert row in EventPopularity(db, eventType) <==> row in multiset(EventPopularity(db, eventType));
    }
    if row in RowsOf(db, listed) {
      var e :| e in listed && row == RowFor(db)(e);
      assert e in db.events && Listed(e, eventType) && row == RowOf(db, e);
    } else {
      forall e | e in db.events && Listed(e, eventType) ensures row != RowOf(db, e) {
        assert e in listed;
      }
    }
  }

  /** A listed event with no registrations still appears, with count 0 (LEFT JOIN). */
  lemma UnregisteredEventCountsZero(db: Store, eventType: Option<string>, e: Event)
    requires EventKeysUnique(db.events)
    requires e in db.events && Listed(e, eventType)
    requires forall r :: r in db.registrations ==> r.eventId != Some(e.eventId)
    ensures PopularityRow(e.eventName, e.eventType, 0) in EventPopularity(db, eventType)
  {
    FilterNone(db.registrations, ForEvent(e.eventId));
    PopularityMembership(db, eventType, RowOf(db, e));
  }

  /** With a non-empty type, every row has exactly that type. */
  lemma TypeFilterSelectsExactType(db: Store, t: string, row: PopularityRow)
    requires EventKeysUnique(db.events)
    requires t != ""
    requires row in EventPopularity(db, Some(t))
    ensures row.eventType == Some(t)
  {
    PopularityMembership(db, Some(t), row);
  }

  /** With no type, or the empty string, no type restriction applies. */
  lemma EmptyTypeFilterIsNoFilter(db: Store)
    requires EventKeysUnique(db.events)
    ensures multiset(EventPopularity(db, Some(""))) == multiset(EventPopularity(db, None))
  {
    PopularityIsOneRowPerListedEvent(db, Some(""));
    PopularityIsOneRowPerListedEvent(db, None);
    FilterCongruent(db.events, IsListed(Some("")), IsListed(None));
  }
}
