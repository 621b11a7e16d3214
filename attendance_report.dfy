/**
 * `get_event_attendance_report` (prototype.py:222-243): per scheduled event, the
 * registration count and the number of attendance rows marked present, ordered by
 * event name; and the percentage the caller derives from them (prototype.py:303).
 *
 * COUNT(r.reg_id) counts joined rows: a registration with several attendance rows
 * is counted once per attendance row. The schema does not forbid that, so the
 * model keeps it, and proves the count exact when each registration has at most
 * one attendance row.
 */
module AttendanceReport {
  import opened Schema
  import opened Relational
  import opened Ordering
  import opened EventJoin

  /** A row of the report: (event_name, registration_count, attendance_count). */
  datatype AttendanceRow = AttendanceRow(eventName: string, registrationCount: nat, attendanceCount: nat)

  /** WHERE e.event_status = 'Scheduled' */
  function Where(): JoinRow -> bool {
    (row: JoinRow) => row.event.eventStatus == Scheduled
  }

  /** The rows COUNT(r.reg_id) counts: those whose registration is not NULL. */
  function HasRegistration(): JoinRow -> bool {
    (row: JoinRow) => row.reg.Some?
  }

  /** CASE WHEN af.is_present THEN 1 ELSE 0 END is 1: a NULL attendance counts 0. */
  function Attended(): JoinRow -> bool {
    (row: JoinRow) => row.att.Some? && row.att.value.isPresent
  }

  /** SELECT e.event_name, COUNT(r.reg_id), SUM(CASE WHEN af.is_present THEN 1 ELSE 0 END) */
  function Aggregate(g: seq<JoinRow>): AttendanceRow
    requires g != []
  {
    AttendanceRow(g[0].event.eventName, |Filter(g, HasRegistration())|, |Filter(g, Attended())|)
  }

  function Grouped(db: Store, es: seq<Event>): seq<AttendanceRow> {
    if es == [] then []
    else
      var g := Group(db, Where(), es[0].eventId);
      (if g == [] then [] else [Aggregate(g)]) + Grouped(db, es[1..])
  }

  /** ORDER BY e.event_name (ascending, binary collation) */
  function ByName(): (AttendanceRow, AttendanceRow) -> bool {
    (a: AttendanceRow, b: AttendanceRow) => TextLe(a.eventName, b.eventName)
  }

  lemma ByNameOrders()
    ensures TotalPreorder(ByName())
  {
    forall a: AttendanceRow, b: AttendanceRow ensures ByName()(a, b) || ByName()(b, a) {
      TextLeTotal(a.eventName, b.eventName);
    }
    forall a: AttendanceRow, b: AttendanceRow, c: AttendanceRow | ByName()(a, b) && ByName()(b, c)
      ensures ByName()(a, c)
    {
      TextLeTransitive(a.eventName, b.eventName, c.eventName);
    }
  }

  /** The report, grouped per event (event ids are unique) and sorted by event name. */
  function EventAttendanceReport(db: Store): (report: seq<AttendanceRow>)
    requires EventKeysUnique(db.events)
    ensures multiset(report) == multiset(Grouped(db, db.events))
    ensures SortedBy(report, ByName())
  {
    ByNameOrders();
    SortBy(Grouped(db, db.events), ByName())
  }

  /**
   * The caller's percentage (prototype.py:303): attended over registered times 100,
   * or 0 when nothing is registered instead of dividing by zero.
   */
  function AttendancePercentage(row: AttendanceRow): (pct: real)
    ensures row.registrationCount == 0 ==> pct == 0.0
    ensures row.attendanceCount == 0 ==> pct == 0.0
    ensures row.attendanceCount <= row.registrationCount ==> 0.0 <= pct <= 100.0
    ensures row.registrationCount > 0 ==>
      pct * (row.registrationCount as real) == (row.attendanceCount as real) * 100.0
  {
    if row.registrationCount > 0 then
      var att, reg := row.attendanceCount as real, row.registrationCount as real;
      assert att / reg * 100.0 * reg == att * 100.0;
      assert att <= reg ==> att / reg <= 1.0;
      att / reg * 100.0
    else 0.0
  }

  // ---------------------------------------------------------------------------
  // What the report means.

  /** The attendance rows marked present on the event's registrations. */
  function PresentAtEvent(db: Store, e: Event): seq<Attendance> {
    FlatMap(RegistrationsOfEvent(db.registrations, e.eventId), PresentOf(db.attendance))
  }

  /**
   * The joined rows a list of registrations yields: one per attendance row of each
   * registration, or one for a registration without any.
   */
  function JoinedRegistrationRows(atts: seq<Attendance>, rs: seq<Registration>): nat {
    if rs == [] then 0
    else
      var n := |AttendanceOf(atts, rs[0].regId)|;
      (if n == 0 then 1 else n) + JoinedRegistrationRows(atts, rs[1..])
  }

  /** The row a scheduled event should get. */
  function RowOf(db: Store, e: Event): AttendanceRow {
    AttendanceRow(
      e.eventName,
      JoinedRegistrationRows(db.attendance, RegistrationsOfEvent(db.registrations, e.eventId)),
      |PresentAtEvent(db, e)|)
  }

  function IsScheduled(): Event -> bool {
    (e: Event) => e.eventStatus == Scheduled
  }

  function RowFor(db: Store): Event -> AttendanceRow {
    (e: Event) => RowOf(db, e)
  }

  /** The rows the events `es` should get, in order. */
  function RowsOf(db: Store, es: seq<Event>): seq<AttendanceRow> {
    Map(es, RowFor(db))
  }

  lemma {:induction false} JoinedRowsOfAttendance(as_: seq<Attendance>, e: Event, r: Registration)
    ensures |Filter(FlatMap(as_, WithAttendance(e, r)), HasRegistration())| == |as_|
    ensures |Filter(FlatMap(as_, WithAttendance(e, r)), Attended())| == |Filter(as_, IsPresent())|
  {
    if as_ != [] {
      JoinedRowsOfAttendance(as_[1..], e, r);
      FilterConcat(WithAttendance(e, r)(as_[0]), FlatMap(as_[1..], WithAttendance(e, r)), HasRegistration());
      FilterConcat(WithAttendance(e, r)(as_[0]), FlatMap(as_[1..], WithAttendance(e, r)), Attended());
    }
  }

  /** The joined rows of one registration: how many carry it, how many are present. */
  lemma JoinedRowsOfRegistration(atts: seq<Attendance>, e: Event, r: Registration)
    ensures |Filter(WithRegistration(atts, e)(r), HasRegistration())| ==
      (if AttendanceOf(atts, r.regId) == [] then 1 else |AttendanceOf(atts, r.regId)|)
    ensures |Filter(WithRegistration(atts, e)(r), Attended())| == |PresentOf(atts)(r)|
  {
    var m := AttendanceOf(atts, r.regId);
    if m == [] {
      FilterNone(m, IsPresent());
    } else {
      JoinedRowsOfAttendance(m, e, r);
    }
  }

  lemma {:induction false} JoinedRowsOfRegistrations(atts: seq<Attendance>, e: Event, rs: seq<Registration>)
    ensures |Filter(FlatMap(rs, WithRegistration(atts, e)), HasRegistration())| == JoinedRegistrationRows(atts, rs)
    ensures |Filter(FlatMap(rs, WithRegistration(atts, e)), Attended())| == |FlatMap(rs, PresentOf(atts))|
  {
    if rs != [] {
      var f := WithRegistration(atts, e);
      JoinedRowsOfRegistrations(atts, e, rs[1..]);
      JoinedRowsOfRegistration(atts, e, rs[0]);
      FilterConcat(f(rs[0]), FlatMap(rs[1..], f), HasRegistration());
      FilterConcat(f(rs[0]), FlatMap(rs[1..], f), Attended());
    }
  }

  /** The counts of one scheduled event's group are the counts `RowOf` states. */
  lemma EventCounts(db: Store, e: Event)
    ensures Aggregate(WithEvent(db.registrations, db.attendance)(e)) == RowOf(db, e)
  {
    var rows := WithEvent(db.registrations, db.attendance)(e);
    RowsOfEvent(db.registrations, db.attendance, e);
    assert rows[0] in rows;
    var m := RegistrationsOfEvent(db.registrations, e.eventId);
    if m != [] {
      JoinedRowsOfRegistrations(db.attendance, e, m);
    }
  }

  lemma {:induction false} GroupedFrom(db: Store, k: nat)
    requires EventKeysUnique(db.events)
    requires k <= |db.events|
    ensures Grouped(db, db.events[k..]) == RowsOf(db, Filter(db.events[k..], IsScheduled()))
    decreases |db.events| - k
  {
    if k < |db.events| {
      var es := db.events[k..];
      var e := db.events[k];
      assert es[0] == e;
      assert es[1..] == db.events[k + 1..];
      GroupedFrom(db, k + 1);
      GroupOfEvent(db, Where(), k);
      var rows := WithEvent(db.registrations, db.attendance)(e);
      RowsOfEvent(db.registrations, db.attendance, e);
      if e.eventStatus == Scheduled {
        FilterAll(rows, Where());
        EventCounts(db, e);
      } else {
        FilterNone(rows, Where());
      }
    }
  }

  /** The report has one row per scheduled event, with the counts `RowOf` states. */
  lemma AttendanceIsOneRowPerScheduledEvent(db: Store)
    requires EventKeysUnique(db.events)
    ensures multiset(EventAttendanceReport(db)) == multiset(RowsOf(db, Filter(db.events, IsScheduled())))
  {
    assert db.events[0..] == db.events;
    GroupedFrom(db, 0);
  }

  lemma ReportedIffExpected(db: Store, row: AttendanceRow)
    requires EventKeysUnique(db.events)
    ensures row in EventAttendanceReport(db) <==> row in RowsOf(db, Filter(db.events, IsScheduled()))
  {
    AttendanceIsOneRowPerScheduledEvent(db);
    assert row in EventAttendanceReport(db) <==> row in multiset(EventAttendanceReport(db));
  }

  /** A row is in the report exactly when it is the row of a scheduled event. */
  lemma AttendanceMembership(db: Store, row: AttendanceRow)
    requires EventKeysUnique(db.events)
    ensures row in EventAttendanceReport(db) <==>
      exists e :: e in db.events && e.eventStatus == Scheduled && row == RowOf(db, e)
  {
    var scheduled := Filter(db.events, IsScheduled());
    ReportedIffExpected(db, row);
    if row in RowsOf(db, scheduled) {
      var e :| e in scheduled && row == RowFor(db)(e);
      assert e in db.events && e.eventStatus == Scheduled && row == RowOf(db, e);
    } else {
      forall e | e in db.events && e.eventStatus == Scheduled ensures row != RowOf(db, e) {
        assert e in scheduled;
      }
    }
  }

  /**
   * Each registration yields at least one joined row; the total equals the number of
   * registrations exactly when each has at most one attendance row.
   */
  lemma {:induction false} JoinedRegistrationRowsBounds(atts: seq<Attendance>, rs: seq<Registration>)
    ensures JoinedRegistrationRows(atts, rs) >= |rs|
    ensures JoinedRegistrationRows(atts, rs) == |rs| <==>
      forall r :: r in rs ==> |AttendanceOf(atts, r.regId)| <= 1
  {
    if rs != [] {
      JoinedRegistrationRowsBounds(atts, rs[1..]);
      assert forall r :: r in rs <==> r == rs[0] || r in rs[1..];
    }
  }

  /**
   * In every row the attendance count is at most the registration count (even when
   * a registration has several attendance rows), so the percentage lies in 0..100.
   */
  lemma AttendanceWithinRegistrations(db: Store, e: Event)
    ensures RowOf(db, e).attendanceCount <= RowOf(db, e).registrationCount
    ensures 0.0 <= AttendancePercentage(RowOf(db, e)) <= 100.0
  {
    var rows := WithEvent(db.registrations, db.attendance)(e);
    AttendanceRowsHaveRegistration(db.registrations, db.attendance, e);
    FilterMonotone(rows, Attended(), HasRegistration());
    EventCounts(db, e);
  }

  /**
   * The registration count is the number of registrations of the event exactly when
   * each of them has at most one attendance row.
   */
  lemma RegistrationCountExact(db: Store, e: Event)
    ensures RowOf(db, e).registrationCount == |RegistrationsOfEvent(db.registrations, e.eventId)| <==>
      forall r :: r in RegistrationsOfEvent(db.registrations, e.eventId) ==> |AttendanceOf(db.attendance, r.regId)| <= 1
  {
    JoinedRegistrationRowsBounds(db.attendance, RegistrationsOfEvent(db.registrations, e.eventId));
  }

  /**
   * An event without registrations, or whose registrations have no attendance row
   * marked present, has attendance count 0 and percentage 0.
   */
  lemma NoPresenceCountsZero(db: Store, e: Event)
    requires forall r, a ::
      (r in db.registrations && a in db.attendance && r.eventId == Some(e.eventId) && a.regId == Some(r.regId))
      ==> !a.isPresent
    ensures RowOf(db, e).attendanceCount == 0
    ensures AttendancePercentage(RowOf(db, e)) == 0.0
  {
    var rs := RegistrationsOfEvent(db.registrations, e.eventId);
    forall r | r in rs ensures PresentOf(db.attendance)(r) == [] {
      FilterNone(AttendanceOf(db.attendance, r.regId), IsPresent());
    }
    FlatMapEmpty(rs, PresentOf(db.attendance));
  }
}
