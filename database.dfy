/**
 * The database as `setup_database` leaves it (prototype.py:7-76) and the INSERT
 * statements that fill it (prototype.py:85-137): a store whose rows are appended one
 * statement at a time, each statement accepted or rejected by the constraints.
 *
 * SQLite checks PRIMARY KEY and UNIQUE on every insert, but checks FOREIGN KEY
 * clauses only on a connection that issued `PRAGMA foreign_keys = ON`, which the
 * program never does. `InsertAsWritten` is the engine as the program configures it;
 * `Insert` enforces every declared constraint, and is what `CampusDatabase` uses.
 */
module Database {
  import opened Schema

  /** The row of one INSERT INTO <table> VALUES (...). */
  datatype NewRow =
    | NewCollege(college: College)
    | NewStudent(student: Student)
    | NewEvent(event: Event)
    | NewRegistration(registration: Registration)
    | NewAttendance(attendance: Attendance)

  function AttendanceIds(as_: seq<Attendance>): set<Id> { set a | a in as_ :: a.attendanceId }

  /** The new row appended to its table. */
  function Append(db: Store, row: NewRow): Store {
    match row
    case NewCollege(c) => db.(colleges := db.colleges + [c])
    case NewStudent(s) => db.(students := db.students + [s])
    case NewEvent(e) => db.(events := db.events + [e])
    case NewRegistration(r) => db.(registrations := db.registrations + [r])
    case NewAttendance(a) => db.(attendance := db.attendance + [a])
  }

  /** PRIMARY KEY and UNIQUE (student_id, event_id): the checks SQLite always makes. */
  predicate KeysAdmit(db: Store, row: NewRow) {
    match row
    case NewCollege(c) => c.collegeId !in CollegeIds(db.colleges)
    case NewStudent(s) => s.studentId !in StudentIds(db.students)
    case NewEvent(e) => e.eventId !in EventIds(db.events)
    case NewRegistration(r) =>
      r.regId !in RegistrationIds(db.registrations) && forall x :: x in db.registrations ==> !SamePair(x, r)
    case NewAttendance(a) => a.attendanceId !in AttendanceIds(db.attendance)
  }

  /** FOREIGN KEY: the new row's non-NULL references name existing rows. */
  predicate ReferencesResolve(db: Store, row: NewRow) {
    match row
    case NewCollege(_) => true
    case NewStudent(s) => Resolves(s.collegeId, CollegeIds(db.colleges))
    case NewEvent(e) => Resolves(e.collegeId, CollegeIds(db.colleges))
    case NewRegistration(r) =>
      Resolves(r.studentId, StudentIds(db.students)) && Resolves(r.eventId, EventIds(db.events))
    case NewAttendance(a) => Resolves(a.regId, RegistrationIds(db.registrations))
  }

  /** An INSERT as SQLite runs it on the program's connections: foreign keys unchecked. */
  function InsertAsWritten(db: Store, row: NewRow): (r: Option<Store>)
    ensures r.Some? <==> KeysAdmit(db, row)
    ensures r.Some? ==> r.value == Append(db, row)
  {
    if KeysAdmit(db, row) then Some(Append(db, row)) else None
  }

  /** An INSERT that enforces every constraint the schema declares. */
  function Insert(db: Store, row: NewRow): (r: Option<Store>)
    ensures r.Some? <==> KeysAdmit(db, row) && ReferencesResolve(db, row)
    ensures r.Some? ==> r.value == Append(db, row)
  {
    if KeysAdmit(db, row) && ReferencesResolve(db, row) then Some(Append(db, row)) else None
  }

  // ---------------------------------------------------------------------------
  // Appending keeps every existing key and reference.

  lemma AppendKeepsKeys(db: Store, row: NewRow)
    ensures CollegeIds(db.colleges) <= CollegeIds(Append(db, row).colleges)
    ensures StudentIds(db.students) <= StudentIds(Append(db, row).students)
    ensures EventIds(db.events) <= EventIds(Append(db, row).events)
    ensures RegistrationIds(db.registrations) <= RegistrationIds(Append(db, row).registrations)
  {}

  /** A table with unique keys stays so when a row with a fresh key is appended, and only then. */
  lemma CollegeKeysAppend(cs: seq<College>, c: College)
    requires CollegeKeysUnique(cs)
    ensures CollegeKeysUnique(cs + [c]) <==> c.collegeId !in CollegeIds(cs)
  {
    if c.collegeId in CollegeIds(cs) {
      var x :| x in cs && x.collegeId == c.collegeId;
      var i :| 0 <= i < |cs| && cs[i] == x;
      assert (cs + [c])[i].collegeId == (cs + [c])[|cs|].collegeId;
    }
  }

  lemma StudentKeysAppend(ss: seq<Student>, s: Student)
    requires StudentKeysUnique(ss)
    ensures StudentKeysUnique(ss + [s]) <==> s.studentId !in StudentIds(ss)
  {
    if s.studentId in StudentIds(ss) {
      var x :| x in ss && x.studentId == s.studentId;
      var i :| 0 <= i < |ss| && ss[i] == x;
      assert (ss + [s])[i].studentId == (ss + [s])[|ss|].studentId;
    }
  }

  lemma EventKeysAppend(es: seq<Event>, e: Event)
    requires EventKeysUnique(es)
    ensures EventKeysUnique(es + [e]) <==> e.eventId !in EventIds(es)
  {
    if e.eventId in EventIds(es) {
      var x :| x in es && x.eventId == e.eventId;
      var i :| 0 <= i < |es| && es[i] == x;
      assert (es + [e])[i].eventId == (es + [e])[|es|].eventId;
    }
  }

  lemma RegistrationAppend(rs: seq<Registration>, r: Registration)
    requires RegistrationKeysUnique(rs) && RegistrationPairsUnique(rs)
    ensures RegistrationKeysUnique(rs + [r]) <==> r.regId !in RegistrationIds(rs)
    ensures RegistrationPairsUnique(rs + [r]) <==> forall x :: x in rs ==> !SamePair(x, r)
  {
    if r.regId in RegistrationIds(rs) {
      var x :| x in rs && x.regId == r.regId;
      var i :| 0 <= i < |rs| && rs[i] == x;
      assert (rs + [r])[i].regId == (rs + [r])[|rs|].regId;
    }
    if x :| x in rs && SamePair(x, r) {
      var i :| 0 <= i < |rs| && rs[i] == x;
      assert SamePair((rs + [r])[i], (rs + [r])[|rs|]);
    }
  }

  lemma AttendanceKeysAppend(as_: seq<Attendance>, a: Attendance)
    requires AttendanceKeysUnique(as_)
    ensures AttendanceKeysUnique(as_ + [a]) <==> a.attendanceId !in AttendanceIds(as_)
  {
    if a.attendanceId in AttendanceIds(as_) {
      var x :| x in as_ && x.attendanceId == a.attendanceId;
      var i :| 0 <= i < |as_| && as_[i] == x;
      assert (as_ + [a])[i].attendanceId == (as_ + [a])[|as_|].attendanceId;
    }
  }

  /**
   * On a well-formed store, an insert that enforces every constraint succeeds
   * exactly when the resulting store is well formed: it accepts every row the
   * schema allows and rejects every row it forbids.
   */
  lemma InsertKeepsWellFormed(db: Store, row: NewRow)
    requires WellFormed(db)
    ensures Insert(db, row).Some? <==> WellFormed(Append(db, row))
  {
    AppendKeepsKeys(db, row);
    var db' := Append(db, row);
    match row
    case NewCollege(c) =>
      CollegeKeysAppend(db.colleges, c);
    case NewStudent(s) =>
      StudentKeysAppend(db.students, s);
      assert s in db'.students;
    case NewEvent(e) =>
      EventKeysAppend(db.events, e);
      assert e in db'.events;
    case NewRegistration(r) =>
      RegistrationAppend(db.registrations, r);
      assert r in db'.registrations;
    case NewAttendance(a) =>
      AttendanceKeysAppend(db.attendance, a);
      assert a in db'.attendance;
  }

  /** The constraints SQLite checks on the program's connections: PRIMARY KEY and UNIQUE. */
  predicate KeysHold(db: Store) {
    && CollegeKeysUnique(db.colleges)
    && StudentKeysUnique(db.students)
    && EventKeysUnique(db.events)
    && RegistrationKeysUnique(db.registrations)
    && AttendanceKeysUnique(db.attendance)
    && RegistrationPairsUnique(db.registrations)
  }

  /**
   * The engine as written keeps every key unique: on a store whose keys hold, an
   * insert succeeds exactly when the keys still hold afterwards, and the store it
   * leaves meets what the reports require, even though references may dangle.
   */
  lemma AsWrittenKeepsKeys(db: Store, row: NewRow)
    requires KeysHold(db)
    ensures InsertAsWritten(db, row).Some? <==> KeysHold(Append(db, row))
    ensures InsertAsWritten(db, row).Some? ==> ReportReady(InsertAsWritten(db, row).value)
  {
    match row
    case NewCollege(c) => CollegeKeysAppend(db.colleges, c);
    case NewStudent(s) => StudentKeysAppend(db.students, s);
    case NewEvent(e) => EventKeysAppend(db.events, e);
    case NewRegistration(r) => RegistrationAppend(db.registrations, r);
    case NewAttendance(a) => AttendanceKeysAppend(db.attendance, a);
  }

  /** Whatever `Insert` accepts, the engine as written accepts too, with the same result. */
  lemma InsertRefinesAsWritten(db: Store, row: NewRow)
    ensures Insert(db, row).Some? ==> InsertAsWritten(db, row) == Insert(db, row)
    ensures !KeysAdmit(db, row) ==> InsertAsWritten(db, row).None? && Insert(db, row).None?
  {}

  /**
   * The engine as written accepts a registration naming a student and an event that
   * do not exist, into the freshly created tables, and the store it leaves violates
   * the declared foreign keys.
   */
  lemma ForeignKeysNotEnforced()
    ensures WellFormed(EmptyStore)
    ensures var row := NewRegistration(Registration("r1", Some("s1"), Some("e1"), "2025-09-06"));
      && InsertAsWritten(EmptyStore, row).Some?
      && !WellFormed(InsertAsWritten(EmptyStore, row).value)
      && Insert(EmptyStore, row).None?
  {
    var r := Registration("r1", Some("s1"), Some("e1"), "2025-09-06");
    var db' := Append(EmptyStore, NewRegistration(r));
    assert r in db'.registrations;
    assert StudentIds(db'.students) == {};
  }

  /**
   * The tables `setup_database` creates, filled by the corrected INSERT, `Insert`,
   * which enforces the declared foreign keys as well. On the program's own
   * connections SQLite skips that check (`InsertAsWritten`). The two agree on every
   * row whose references resolve. The store stays well formed after every statement.
   */
  class CampusDatabase {
    var colleges: seq<College>
    var students: seq<Student>
    var events: seq<Event>
    var registrations: seq<Registration>
    var attendance: seq<Attendance>

    function Contents(): Store
      reads this
    {
      Store(colleges, students, events, registrations, attendance)
    }

    ghost predicate Valid()
      reads this
    {
      WellFormed(Contents())
    }

    /** DROP TABLE IF EXISTS and CREATE TABLE for all five tables: every table is empty. */
    constructor ()
      ensures Contents() == EmptyStore
      ensures Valid()
    {
      colleges := [];
      students := [];
      events := [];
      registrations := [];
      attendance := [];
    }

    /**
     * INSERT INTO <table> VALUES (...), foreign keys enforced: appends the row when
     * every declared constraint admits it, and otherwise leaves the tables as they were.
     */
    method InsertRow(row: NewRow) returns (ok: bool)
      requires Valid()
      modifies this
      ensures Valid()
      ensures ok <==> KeysAdmit(old(Contents()), row) && ReferencesResolve(old(Contents()), row)
      ensures ok ==> Contents() == Append(old(Contents()), row)
      ensures !ok ==> Contents() == old(Contents())
    {
      InsertKeepsWellFormed(Contents(), row);
      ok := KeysAdmit(Contents(), row) && ReferencesResolve(Contents(), row);
      if ok {
        match row
        case NewCollege(c) => colleges := colleges + [c];
        case NewStudent(s) => students := students + [s];
        case NewEvent(e) => events := events + [e];
        case NewRegistration(r) => registrations := registrations + [r];
        case NewAttendance(a) => attendance := attendance + [a];
      }
    }
  }
}
