/**
 * `get_top_active_students` (prototype.py:197-220): per student, the number of
 * attendance rows marked present, with the student's college name, most first,
 * cut to `limit` rows.
 *
 * The joins are inner joins, so a student without any present attendance row, or
 * whose college_id is NULL or names no college, gets no group and never appears.
 * Unlike the other reports, the query never looks at Events: attendances at
 * cancelled events count too.
 */
module TopStudents {
  import opened Schema
  import opened Relational
  import opened Ordering

  /** A row of Students s JOIN Registrations r JOIN AttendanceFeedback af JOIN Colleges c. */
  datatype JoinRow = JoinRow(student: Student, reg: Registration, att: Attendance, college: College)

  /** A row of the report: (student_name, college_name, attended_events_count). */
  datatype ActiveRow = ActiveRow(studentName: string, collegeName: string, attendedCount: nat)

  function WithCollege(s: Student, r: Registration, a: Attendance): College -> seq<JoinRow> {
    (c: College) => [JoinRow(s, r, a, c)]
  }

  /** ... JOIN Colleges c ON s.college_id = c.college_id */
  function WithAttendance(cs: seq<College>, s: Student, r: Registration): Attendance -> seq<JoinRow> {
    (a: Attendance) => FlatMap(CollegesWithKey(cs, s.collegeId), WithCollege(s, r, a))
  }

  /** ... JOIN AttendanceFeedback af ON r.reg_id = af.reg_id */
  function WithRegistration(atts: seq<Attendance>, cs: seq<College>, s: Student): Registration -> seq<JoinRow> {
    (r: Registration) => FlatMap(AttendanceOf(atts, r.regId), WithAttendance(cs, s, r))
  }

  /** ... JOIN Registrations r ON s.student_id = r.student_id */
  function WithStudent(regs: seq<Registration>, atts: seq<Attendance>, cs: seq<College>): Student -> seq<JoinRow> {
    (s: Student) => FlatMap(RegistrationsOfStudent(regs, s.studentId), WithRegistration(atts, cs, s))
  }

  function Joined(db: Store): seq<JoinRow> {
    FlatMap(db.students, WithStudent(db.registrations, db.attendance, db.colleges))
  }

  /** WHERE af.is_present = 1 */
  function Where(): JoinRow -> bool {
    (row: JoinRow) => row.att.isPresent
  }

  function InGroup(id: Id): JoinRow -> bool {
    (row: JoinRow) => row.student.studentId == id
  }

  /** The group of GROUP BY s.student_id whose key is `id`. */
  function Group(db: Store, id: Id): seq<JoinRow> {
    Filter(Filter(Joined(db), Where()), InGroup(id))
  }

  /** SELECT s.student_name, c.college_name, COUNT(af.attendance_id); attendance_id is never NULL. */
  function Aggregate(g: seq<JoinRow>): ActiveRow
    requires g != []
  {
    ActiveRow(g[0].student.studentName, g[0].college.collegeName, |g|)
  }

  /** One row per student key that has a group, enumerated from the Students table. */
  function Grouped(db: Store, ss: seq<Student>): seq<ActiveRow> {
    if ss == [] then []
    else
      var g := Group(db, ss[0].studentId);
      (if g == [] then [] else [Aggregate(g)]) + Grouped(db, ss[1..])
  }

  /**
   * The keys the query groups by and joins through: student_id and college_id. The
   * query never reads Events, so it needs nothing of them.
   */
  predicate RankingReady(db: Store) {
    CollegeKeysUnique(db.colleges) && StudentKeysUnique(db.students)
  }

  /** ORDER BY attended_events_count DESC */
  function MoreActive(): (ActiveRow, ActiveRow) -> bool {
    (a: ActiveRow, b: ActiveRow) => a.attendedCount >= b.attendedCount
  }

  lemma MoreActiveOrders()
    ensures TotalPreorder(MoreActive())
  {}

  /**
   * The report: the `limit` most active students (all of them for a negative
   * limit, as SQLite reads LIMIT). Rows it drops are never more active than rows
   * it keeps.
   */
  function TopActiveStudents(db: Store, limit: int): (report: seq<ActiveRow>)
    requires RankingReady(db)
    ensures 0 <= limit ==> |report| <= limit
    ensures |report| == if 0 <= limit < |Grouped(db, db.students)| then limit else |Grouped(db, db.students)|
    ensures SortedBy(report, MoreActive())
    ensures multiset(report) <= multiset(Grouped(db, db.students))
    ensures forall x, y :: x in report && y in multiset(Grouped(db, db.students)) - multiset(report) ==>
      MoreActive()(x, y)
  {
    MoreActiveOrders();
    TopRows(Grouped(db, db.students), MoreActive(), limit);
    Limit(SortBy(Grouped(db, db.students), MoreActive()), limit)
  }

  // ---------------------------------------------------------------------------
  // What the report means.

  /** The attendance rows marked present on the student's registrations, whatever the event. */
  function PresentAttendance(db: Store, s: Student): seq<Attendance> {
    FlatMap(RegistrationsOfStudent(db.registrations, s.studentId), PresentOf(db.attendance))
  }

  /** The student's college, if its college_id names one. */
  function CollegeOf(db: Store, s: Student): seq<College> {
    CollegesWithKey(db.colleges, s.collegeId)
  }

  /** Students the report ranks: present at least once, and with a matching college. */
  predicate Active(db: Store, s: Student) {
    PresentAttendance(db, s) != [] && CollegeOf(db, s) != []
  }

  function IsActive(db: Store): Student -> bool {
    (s: Student) => Active(db, s)
  }

  function RowOf(db: Store, s: Student): ActiveRow
    requires Active(db, s)
  {
    ActiveRow(s.studentName, CollegeOf(db, s)[0].collegeName, |PresentAttendance(db, s)|)
  }

  function RowsOf(db: Store, ss: seq<Student>): seq<ActiveRow>
    requires forall s :: s in ss ==> Active(db, s)
  {
    if ss == [] then [] else [RowOf(db, ss[0])] + RowsOf(db, ss[1..])
  }

  /** With unique college ids, a college_id matches at most one college. */
  lemma {:induction false} AtMostOneCollege(cs: seq<College>, ref: Option<Id>)
    requires CollegeKeysUnique(cs)
    ensures |CollegesWithKey(cs, ref)| <= 1
  {
    if cs != [] {
      AtMostOneCollege(cs[1..], ref);
      if CollegeKeyedBy(ref)(cs[0]) {
        forall c | c in cs[1..] ensures !CollegeKeyedBy(ref)(c) {
          var j :| 0 <= j < |cs[1..]| && cs[1..][j] == c;
          assert cs[0].collegeId != cs[j + 1].collegeId;
        }
        FilterNone(cs[1..], CollegeKeyedBy(ref));
      }
    }
  }

  lemma RowsOfRegistration(atts: seq<Attendance>, cs: seq<College>, s: Student, r: Registration, y: JoinRow)
    requires y in WithRegistration(atts, cs, s)(r)
    ensures y.student == s
  {
    var a :| a in AttendanceOf(atts, r.regId) && y in WithAttendance(cs, s, r)(a);
  }

  lemma RowsOfStudent(regs: seq<Registration>, atts: seq<Attendance>, cs: seq<College>, s: Student)
    ensures forall y :: y in WithStudent(regs, atts, cs)(s) ==> y.student == s
  {
    forall y | y in WithStudent(regs, atts, cs)(s) ensures y.student == s {
      var r :| r in RegistrationsOfStudent(regs, s.studentId) && y in WithRegistration(atts, cs, s)(r);
      RowsOfRegistration(atts, cs, s, r, y);
    }
  }

  /** The present rows of one registration, joined to the student's one college `c`. */
  lemma {:induction false} PresentRowsOfAttendance(as_: seq<Attendance>, cs: seq<College>, s: Student, r: Registration, c: College)
    requires CollegesWithKey(cs, s.collegeId) == [c]
    ensures |Filter(FlatMap(as_, WithAttendance(cs, s, r)), Where())| == |Filter(as_, IsPresent())|
    ensures forall y :: y in FlatMap(as_, WithAttendance(cs, s, r)) ==> y.college == c
  {
    if as_ != [] {
      PresentRowsOfAttendance(as_[1..], cs, s, r, c);
      var head := WithAttendance(cs, s, r)(as_[0]);
      FlatMapOne(c, WithCollege(s, r, as_[0]));
      assert head == [JoinRow(s, r, as_[0], c)];
      FilterConcat(head, FlatMap(as_[1..], WithAttendance(cs, s, r)), Where());
    }
  }

  lemma {:induction false} PresentRowsOfRegistrations(rs: seq<Registration>, atts: seq<Attendance>, cs: seq<College>, s: Student, c: College)
    requires CollegesWithKey(cs, s.collegeId) == [c]
    ensures |Filter(FlatMap(rs, WithRegistration(atts, cs, s)), Where())| == |FlatMap(rs, PresentOf(atts))|
    ensures forall y :: y in FlatMap(rs, WithRegistration(atts, cs, s)) ==> y.college == c
  {
    if rs != [] {
      PresentRowsOfRegistrations(rs[1..], atts, cs, s, c);
      PresentRowsOfAttendance(AttendanceOf(atts, rs[0].regId), cs, s, rs[0], c);
      FilterConcat(WithRegistration(atts, cs, s)(rs[0]), FlatMap(rs[1..], WithRegistration(atts, cs, s)), Where());
    }
  }

  /** Without a matching college the inner join leaves a student no rows at all. */
  lemma NoCollegeNoRows(regs: seq<Registration>, atts: seq<Attendance>, cs: seq<College>, s: Student)
    requires CollegesWithKey(cs, s.collegeId) == []
    ensures WithStudent(regs, atts, cs)(s) == []
  {
    forall r | r in RegistrationsOfStudent(regs, s.studentId)
      ensures WithRegistration(atts, cs, s)(r) == []
    {
      FlatMapEmpty(AttendanceOf(atts, r.regId), WithAttendance(cs, s, r));
    }
    FlatMapEmpty(RegistrationsOfStudent(regs, s.studentId), WithRegistration(atts, cs, s));
  }

  /** Grouping by student_id picks out the present rows the k-th student produced. */
  lemma {:induction false} GroupIsStudentRows(db: Store, k: nat)
    requires StudentKeysUnique(db.students)
    requires k < |db.students|
    ensures Group(db, db.students[k].studentId) ==
      Filter(WithStudent(db.registrations, db.attendance, db.colleges)(db.students[k]), Where())
  {
    var s := db.students[k];
    var f := WithStudent(db.registrations, db.attendance, db.colleges);
    FilterCommute(Joined(db), Where(), InGroup(s.studentId));
    forall i, y | 0 <= i < |db.students| && i != k && y in f(db.students[i])
      ensures !InGroup(s.studentId)(y)
    {
      RowsOfStudent(db.registrations, db.attendance, db.colleges, db.students[i]);
      if i < k {
        assert db.students[i].studentId != db.students[k].studentId;
      } else {
        assert db.students[k].studentId != db.students[i].studentId;
      }
    }
    FilterFlatMapSingle(db.students, f, InGroup(s.studentId), k);
    RowsOfStudent(db.registrations, db.attendance, db.colleges, s);
    FilterAll(f(s), InGroup(s.studentId));
  }

  /**
   * A student's present joined rows: there are some exactly when the student is
   * active, and then as many as its present attendance rows, all carrying the
   * student and its college.
   */
  lemma PresentRowsOfStudent(db: Store, s: Student)
    requires CollegeKeysUnique(db.colleges)
    ensures var g := Filter(WithStudent(db.registrations, db.attendance, db.colleges)(s), Where());
      && (g != [] <==> Active(db, s))
      && (g != [] ==> |g| == |PresentAttendance(db, s)| && g[0].student == s && g[0].college == CollegeOf(db, s)[0])
  {
    AtMostOneCollege(db.colleges, s.collegeId);
    if CollegeOf(db, s) == [] {
      NoCollegeNoRows(db.registrations, db.attendance, db.colleges, s);
    } else {
      PresentRowsWithCollege(db, s, CollegeOf(db, s)[0]);
    }
  }

  lemma PresentRowsWithCollege(db: Store, s: Student, c: College)
    requires CollegeOf(db, s) == [c]
    ensures var g := Filter(WithStudent(db.registrations, db.attendance, db.colleges)(s), Where());
      && |g| == |PresentAttendance(db, s)|
      && (g != [] ==> g[0].student == s && g[0].college == c)
  {
    var f := WithStudent(db.registrations, db.attendance, db.colleges);
    var rs := RegistrationsOfStudent(db.registrations, s.studentId);
    assert f(s) == FlatMap(rs, WithRegistration(db.attendance, db.colleges, s));
    PresentRowsOfRegistrations(rs, db.attendance, db.colleges, s, c);
    var g := Filter(f(s), Where());
    if g != [] {
      assert g[0] in f(s);
      RowsOfStudent(db.registrations, db.attendance, db.colleges, s);
    }
  }

  /** The group of the k-th student has rows exactly when that student is active. */
  lemma GroupOfStudent(db: Store, k: nat)
    requires RankingReady(db)
    requires k < |db.students|
    ensures var s := db.students[k]; var g := Group(db, s.studentId);
      && (g != [] <==> Active(db, s))
      && (g != [] ==> Aggregate(g) == RowOf(db, s))
  {
    GroupIsStudentRows(db, k);
    PresentRowsOfStudent(db, db.students[k]);
  }

  lemma {:induction false} GroupedFrom(db: Store, k: nat)
    requires RankingReady(db)
    requires k <= |db.students|
    ensures forall s :: s in Filter(db.students[k..], IsActive(db)) ==> Active(db, s)
    ensures Grouped(db, db.students[k..]) == RowsOf(db, Filter(db.students[k..], IsActive(db)))
    decreases |db.students| - k
  {
    if k < |db.students| {
      var ss := db.students[k..];
      assert ss[0] == db.students[k];
      assert ss[1..] == db.students[k + 1..];
      GroupedFrom(db, k + 1);
      GroupOfStudent(db, k);
    }
  }

  /** The ranked rows are exactly one per active student, with its present count. */
  lemma GroupedIsOneRowPerActiveStudent(db: Store)
    requires RankingReady(db)
    ensures forall s :: s in Filter(db.students, IsActive(db)) ==> Active(db, s)
    ensures Grouped(db, db.students) == RowsOf(db, Filter(db.students, IsActive(db)))
  {
    assert db.students[0..] == db.students;
    GroupedFrom(db, 0);
  }

  lemma {:induction false} RowsOfLength(db: Store, ss: seq<Student>)
    requires forall s :: s in ss ==> Active(db, s)
    ensures |RowsOf(db, ss)| == |ss|
  {
    if ss != [] {
      RowsOfLength(db, ss[1..]);
    }
  }

  /**
   * The report in terms of the active students: it holds LIMIT's share of the rows
   * `RowOf` gives them, sorted, and no active student left out outranks one kept.
   */
  lemma TopActiveStudentsOfActive(db: Store, limit: int)
    requires RankingReady(db)
    ensures forall s :: s in Filter(db.students, IsActive(db)) ==> Active(db, s)
    ensures
      var active := Filter(db.students, IsActive(db));
      var report := TopActiveStudents(db, limit);
      && |report| == (if 0 <= limit < |active| then limit else |active|)
      && SortedBy(report, MoreActive())
      && multiset(report) <= multiset(RowsOf(db, active))
      && forall x, y :: x in report && y in multiset(RowsOf(db, active)) - multiset(report) ==>
        MoreActive()(x, y)
  {
    GroupedIsOneRowPerActiveStudent(db);
    RowsOfLength(db, Filter(db.students, IsActive(db)));
  }

  lemma {:induction false} RowsOfComeFromActive(db: Store, ss: seq<Student>, row: ActiveRow)
    requires forall s :: s in ss ==> Active(db, s)
    requires row in RowsOf(db, ss)
    ensures exists s :: s in ss && Active(db, s) && row == RowOf(db, s)
  {
    if row != RowOf(db, ss[0]) {
      RowsOfComeFromActive(db, ss[1..], row);
    }
  }

  /**
   * Every reported student has at least one present attendance row and a college
   * its college_id matches; the row carries that college's name and the number of
   * its present attendance rows, which is at least 1.
   */
  lemma TopStudentsAreActive(db: Store, limit: int, row: ActiveRow)
    requires RankingReady(db)
    requires row in TopActiveStudents(db, limit)
    ensures row.attendedCount >= 1
    ensures exists s, c ::
      && s in db.students && c in db.colleges && s.collegeId == Some(c.collegeId)
      && row == ActiveRow(s.studentName, c.collegeName, |PresentAttendance(db, s)|)
      && |PresentAttendance(db, s)| >= 1
  {
    var report := TopActiveStudents(db, limit);
    assert row in multiset(report);
    assert row in Grouped(db, db.students);
    var s := RankedStudent(db, row);
    var c := CollegeOf(db, s)[0];
    assert c in CollegeOf(db, s);
  }

  /** The active student a ranked row belongs to. */
  lemma RankedStudent(db: Store, row: ActiveRow) returns (s: Student)
    requires RankingReady(db)
    requires row in Grouped(db, db.students)
    ensures s in db.students && Active(db, s) && row == RowOf(db, s)
  {
    GroupedIsOneRowPerActiveStudent(db);
    var active := Filter(db.students, IsActive(db));
    RowsOfComeFromActive(db, active, row);
    s :| s in active && Active(db, s) && row == RowOf(db, s);
  }

  /** Event status plays no part: changing the Events table changes nothing. */
  lemma TopStudentsIgnoreEvents(db: Store, events: seq<Event>, limit: int)
    requires RankingReady(db)
    ensures RankingReady(db.(events := events))
    ensures TopActiveStudents(db.(events := events), limit) == TopActiveStudents(db, limit)
  {
    var db' := db.(events := events);
    assert Joined(db') == Joined(db);
    assert forall ss :: Grouped(db', ss) == Grouped(db, ss) by {
      forall ss ensures Grouped(db', ss) == Grouped(db, ss) {
        GroupedIgnoresEvents(db, events, ss);
      }
    }
  }

  lemma {:induction false} GroupedIgnoresEvents(db: Store, events: seq<Event>, ss: seq<Student>)
    ensures Grouped(db.(events := events), ss) == Grouped(db, ss)
  {
    var db' := db.(events := events);
    assert Joined(db') == Joined(db);
    if ss != [] {
      assert Group(db', ss[0].studentId) == Group(db, ss[0].studentId);
      GroupedIgnoresEvents(db, events, ss[1..]);
    }
  }
}
