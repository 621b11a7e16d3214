/**
 * The FROM clause shared by `get_event_attendance_report` (prototype.py:227-238) and
 * `get_event_feedback_report` (prototype.py:250-260):
 *
 *   Events e LEFT JOIN Registrations r ON e.event_id = r.event_id
 *            LEFT JOIN AttendanceFeedback af ON r.reg_id = af.reg_id
 *
 * and its grouping by e.event_id. An event with no registration contributes one
 * row of NULLs; a registration with no attendance row contributes one row with a
 * NULL attendance; a registration with k attendance rows contributes k rows.
 */
module EventJoin {
  import opened Schema
  import opened Relational

  datatype JoinRow = JoinRow(event: Event, reg: Option<Registration>, att: Option<Attendance>)

  function WithAttendance(e: Event, r: Registration): Attendance -> seq<JoinRow> {
    (a: Attendance) => [JoinRow(e, Some(r), Some(a))]
  }

  /** ... LEFT JOIN AttendanceFeedback af ON r.reg_id = af.reg_id, for one registration. */
  function WithRegistration(atts: seq<Attendance>, e: Event): Registration -> seq<JoinRow> {
    (r: Registration) =>
      var m := AttendanceOf(atts, r.regId);
      if m == [] then [JoinRow(e, Some(r), None)] else FlatMap(m, WithAttendance(e, r))
  }

  /** The joined rows of one event. */
  function WithEvent(regs: seq<Registration>, atts: seq<Attendance>): Event -> seq<JoinRow> {
    (e: Event) =>
      var m := RegistrationsOfEvent(regs, e.eventId);
      if m == [] then [JoinRow(e, None, None)] else FlatMap(m, WithRegistration(atts, e))
  }

  function Joined(db: Store): seq<JoinRow> {
    FlatMap(db.events, WithEvent(db.registrations, db.attendance))
  }

  function InGroup(id: Id): JoinRow -> bool {
    (row: JoinRow) => row.event.eventId == id
  }

  /** The group of GROUP BY e.event_id with key `id`, after the WHERE clause `where`. */
  function Group(db: Store, where: JoinRow -> bool, id: Id): seq<JoinRow> {
    Filter(Filter(Joined(db), where), InGroup(id))
  }

  lemma RowsOfRegistration(atts: seq<Attendance>, e: Event, r: Registration)
    ensures forall y :: y in WithRegistration(atts, e)(r) ==>
      y.event == e && y.reg == Some(r) && (y.att.Some? ==> y.att.value in AttendanceOf(atts, r.regId))
  {
    forall y | y in WithRegistration(atts, e)(r)
      ensures y.event == e && y.reg == Some(r) && (y.att.Some? ==> y.att.value in AttendanceOf(atts, r.regId))
    {
      var m := AttendanceOf(atts, r.regId);
      if m != [] {
        var a :| a in m && y in WithAttendance(e, r)(a);
      }
    }
  }

  /** Every joined row of an event carries that event, and there is at least one. */
  lemma RowsOfEvent(regs: seq<Registration>, atts: seq<Attendance>, e: Event)
    ensures WithEvent(regs, atts)(e) != []
    ensures forall y :: y in WithEvent(regs, atts)(e) ==> y.event == e
  {
    forall y | y in WithEvent(regs, atts)(e) ensures y.event == e {
      var m := RegistrationsOfEvent(regs, e.eventId);
      if m != [] {
        var r :| r in m && y in WithRegistration(atts, e)(r);
        RowsOfRegistration(atts, e, r);
      }
    }
    var m := RegistrationsOfEvent(regs, e.eventId);
    if m != [] {
      assert WithEvent(regs, atts)(e) == WithRegistration(atts, e)(m[0]) + FlatMap(m[1..], WithRegistration(atts, e));
    }
  }

  /**
   * Grouping by event_id picks out the rows of the k-th event that pass the WHERE
   * clause, when event ids are unique.
   */
  lemma {:induction false} GroupOfEvent(db: Store, where: JoinRow -> bool, k: nat)
    requires EventKeysUnique(db.events)
    requires k < |db.events|
    ensures Group(db, where, db.events[k].eventId) ==
      Filter(WithEvent(db.registrations, db.attendance)(db.events[k]), where)
  {
    var e := db.events[k];
    var f := WithEvent(db.registrations, db.attendance);
    FilterCommute(Joined(db), where, InGroup(e.eventId));
    forall i, y | 0 <= i < |db.events| && i != k && y in f(db.events[i])
      ensures !InGroup(e.eventId)(y)
    {
      RowsOfEvent(db.registrations, db.attendance, db.events[i]);
      if i < k {
        assert db.events[i].eventId != db.events[k].eventId;
      } else {
        assert db.events[k].eventId != db.events[i].eventId;
      }
    }
    FilterFlatMapSingle(db.events, f, InGroup(e.eventId), k);
    RowsOfEvent(db.registrations, db.attendance, e);
    FilterAll(f(e), InGroup(e.eventId));
  }

  /** A row that carries an attendance row also carries its registration. */
  lemma AttendanceRowsHaveRegistration(regs: seq<Registration>, atts: seq<Attendance>, e: Event)
    ensures forall y :: y in WithEvent(regs, atts)(e) && y.att.Some? ==> y.reg.Some?
  {
    forall y | y in WithEvent(regs, atts)(e) && y.att.Some? ensures y.reg.Some? {
      var m := RegistrationsOfEvent(regs, e.eventId);
      var r :| r in m && y in WithRegistration(atts, e)(r);
      RowsOfRegistration(atts, e, r);
    }
  }
}
