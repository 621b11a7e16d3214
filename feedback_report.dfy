/**
 * `get_event_feedback_report` (prototype.py:245-265): per scheduled event, the mean
 * of the non-NULL feedback scores of the attendance rows of its registrations,
 * highest mean first. The WHERE clause keeps only joined rows with a score, so an
 * event without any score is left out; `is_present` plays no part.
 *
 * AVG returns a floating-point value; the model computes the exact mean as a `real`.
 */
module FeedbackReport {
  import opened Schema
  import opened Relational
  import opened Ordering
  import opened EventJoin

  /** A row of the report: (event_name, average_score). */
  datatype FeedbackRow = FeedbackRow(eventName: string, averageScore: real)

  /** The score a joined row carries, when it carries one. */
  predicate Scored(row: JoinRow) {
    row.att.Some? && row.att.value.feedbackScore.Some?
  }

  /** WHERE e.event_status = 'Scheduled' AND af.feedback_score IS NOT NULL */
  function Where(): JoinRow -> bool {
    (row: JoinRow) => row.event.eventStatus == Scheduled && Scored(row)
  }

  function Sum(xs: seq<int>): int {
    if xs == [] then 0 else xs[0] + Sum(xs[1..])
  }

  /** The arithmetic mean of a non-empty list of scores. */
  function Mean(xs: seq<int>): real
    requires xs != []
  {
    (Sum(xs) as real) / (|xs| as real)
  }

  /** The score of a joined row, if it has one. */
  function ScoreOf(row: JoinRow): seq<int> {
    if Scored(row) then [row.att.value.feedbackScore.value] else []
  }

  /** The non-NULL scores of joined rows, as AVG reads them. */
  function RowScores(g: seq<JoinRow>): seq<int> {
    if g == [] then [] else ScoreOf(g[0]) + RowScores(g[1..])
  }

  /** SELECT e.event_name, AVG(af.feedback_score) */
  function Aggregate(g: seq<JoinRow>): FeedbackRow
    requires g != [] && Scored(g[0])
  {
    FeedbackRow(g[0].event.eventName, Mean(RowScores(g)))
  }

  function Grouped(db: Store, es: seq<Event>): seq<FeedbackRow> {
    if es == [] then []
    else
      var g := Group(db, Where(), es[0].eventId);
      (if g == [] then [] else
         assert g[0] in g;
         [Aggregate(g)])
      + Grouped(db, es[1..])
  }

  /** ORDER BY average_score DESC */
  function HigherAverage(): (FeedbackRow, FeedbackRow) -> bool {
    (a: FeedbackRow, b: FeedbackRow) => a.averageScore >= b.averageScore
  }

  lemma HigherAverageOrders()
    ensures TotalPreorder(HigherAverage())
  {}

  /** The report, grouped per event (event ids are unique) and sorted by mean score, highest first. */
  function EventFeedbackReport(db: Store): (report: seq<FeedbackRow>)
    requires EventKeysUnique(db.events)
    ensures multiset(report) == multiset(Grouped(db, db.events))
    ensures SortedBy(report, HigherAverage())
  {
    HigherAverageOrders();
    SortBy(Grouped(db, db.events), HigherAverage())
  }

  // ---------------------------------------------------------------------------
  // What the report means.

  /** The non-NULL scores of some attendance rows. */
  function ScoreValues(as_: seq<Attendance>): (xs: seq<int>)
    ensures forall x :: x in xs <==> exists a :: a in as_ && a.feedbackScore == Some(x)
  {
    if as_ == [] then []
    else
      assert forall a :: a in as_ <==> a == as_[0] || a in as_[1..];
      (if as_[0].feedbackScore.Some? then [as_[0].feedbackScore.value] else []) + ScoreValues(as_[1..])
  }

  function ScoresOf(atts: seq<Attendance>): Registration -> seq<int> {
    (r: Registration) => ScoreValues(AttendanceOf(atts, r.regId))
  }

  /** Every non-NULL score given on a registration of the event, whether or not the attendee was present. */
  function EventScores(db: Store, e: Event): seq<int> {
    FlatMap(RegistrationsOfEvent(db.registrations, e.eventId), ScoresOf(db.attendance))
  }

  /** The events the report lists: scheduled, with at least one score. */
  predicate Rated(db: Store, e: Event) {
    e.eventStatus == Scheduled && EventScores(db, e) != []
  }

  /** The row a rated event should get. */
  function RowOf(db: Store, e: Event): FeedbackRow
    requires EventScores(db, e) != []
  {
    FeedbackRow(e.eventName, Mean(EventScores(db, e)))
  }

  lemma {:induction false} RowScoresConcat(a: seq<JoinRow>, b: seq<JoinRow>)
    ensures RowScores(a + b) == RowScores(a) + RowScores(b)
  {
    if a == [] {
      assert a + b == b;
    } else {
      assert (a + b)[0] == a[0];
      assert (a + b)[1..] == a[1..] + b;
      RowScoresConcat(a[1..], b);
      calc {
        RowScores(a + b);
        ScoreOf(a[0]) + RowScores(a[1..] + b);
        ScoreOf(a[0]) + (RowScores(a[1..]) + RowScores(b));
        (ScoreOf(a[0]) + RowScores(a[1..])) + RowScores(b);
      }
    }
  }

  lemma {:induction false} ScoresOfAttendance(as_: seq<Attendance>, e: Event, r: Registration)
    requires e.eventStatus == Scheduled
    ensures RowScores(Filter(FlatMap(as_, WithAttendance(e, r)), Where())) == ScoreValues(as_)
  {
    if as_ != [] {
      var f := WithAttendance(e, r);
      ScoresOfAttendance(as_[1..], e, r);
      FilterConcat(f(as_[0]), FlatMap(as_[1..], f), Where());
      RowScoresConcat(Filter(f(as_[0]), Where()), Filter(FlatMap(as_[1..], f), Where()));
    }
  }

  lemma ScoresOfRegistration(atts: seq<Attendance>, e: Event, r: Registration)
    requires e.eventStatus == Scheduled
    ensures RowScores(Filter(WithRegistration(atts, e)(r), Where())) == ScoresOf(atts)(r)
  {
    var m := AttendanceOf(atts, r.regId);
    if m != [] {
      ScoresOfAttendance(m, e, r);
    }
  }

  lemma {:induction false} ScoresOfRegistrations(atts: seq<Attendance>, e: Event, rs: seq<Registration>)
    requires e.eventStatus == Scheduled
    ensures RowScores(Filter(FlatMap(rs, WithRegistration(atts, e)), Where())) == FlatMap(rs, ScoresOf(atts))
  {
    if rs != [] {
      var f := WithRegistration(atts, e);
      ScoresOfRegistrations(atts, e, rs[1..]);
      ScoresOfRegistration(atts, e, rs[0]);
      FilterConcat(f(rs[0]), FlatMap(rs[1..], f), Where());
      RowScoresConcat(Filter(f(rs[0]), Where()), Filter(FlatMap(rs[1..], f), Where()));
    }
  }

  /** Rows that all carry a score give one score each. */
  lemma {:induction false} RowScoresOfScored(g: seq<JoinRow>)
    requires forall y :: y in g ==> Scored(y)
    ensures |RowScores(g)| == |g|
  {
    if g != [] {
      assert g[0] in g;
      RowScoresOfScored(g[1..]);
    }
  }

  /** The group of a scheduled event carries exactly the event's scores. */
  lemma EventGroupScores(db: Store, e: Event)
    requires e.eventStatus == Scheduled
    ensures RowScores(Filter(WithEvent(db.registrations, db.attendance)(e), Where())) == EventScores(db, e)
    ensures Filter(WithEvent(db.registrations, db.attendance)(e), Where()) == [] <==> EventScores(db, e) == []
  {
    var g := Filter(WithEvent(db.registrations, db.attendance)(e), Where());
    var m := RegistrationsOfEvent(db.registrations, e.eventId);
    if m != [] {
      ScoresOfRegistrations(db.attendance, e, m);
    }
    RowScoresOfScored(g);
  }

  function RowsOf(db: Store, es: seq<Event>): (rows: seq<FeedbackRow>)
    requires forall e :: e in es ==> EventScores(db, e) != []
  {
    if es == [] then [] else [RowOf(db, es[0])] + RowsOf(db, es[1..])
  }

  function IsRated(db: Store): Event -> bool {
    (e: Event) => Rated(db, e)
  }

  /** The row the k-th event's group contributes: its `RowOf` when it is rated, none otherwise. */
  lemma GroupRowOfEvent(db: Store, k: nat)
    requires EventKeysUnique(db.events)
    requires k < |db.events|
    ensures var g := Group(db, Where(), db.events[k].eventId);
      (if g == [] then [] else assert g[0] in g; [Aggregate(g)]) ==
      (if Rated(db, db.events[k]) then [RowOf(db, db.events[k])] else [])
  {
    var e := db.events[k];
    GroupOfEvent(db, Where(), k);
    RowsOfEvent(db.registrations, db.attendance, e);
    if e.eventStatus == Scheduled {
      EventGroupScores(db, e);
    } else {
      FilterNone(WithEvent(db.registrations, db.attendance)(e), Where());
    }
  }

  lemma {:induction false} GroupedFrom(db: Store, k: nat)
    requires EventKeysUnique(db.events)
    requires k <= |db.events|
    ensures Grouped(db, db.events[k..]) == RowsOf(db, Filter(db.events[k..], IsRated(db)))
    decreases |db.events| - k
  {
    if k < |db.events| {
      var es := db.events[k..];
      assert es[0] == db.events[k];
      assert es[1..] == db.events[k + 1..];
      GroupedFrom(db, k + 1);
      GroupRowOfEvent(db, k);
    }
  }

  /** The report has one row per rated event, carrying the mean of that event's scores. */
  lemma FeedbackIsOneRowPerRatedEvent(db: Store)
    requires EventKeysUnique(db.events)
    ensures multiset(EventFeedbackReport(db)) == multiset(RowsOf(db, Filter(db.events, IsRated(db))))
  {
    assert db.events[0..] == db.events;
    GroupedFrom(db, 0);
  }

  lemma {:induction false} RowsOfMembership(db: Store, es: seq<Event>, row: FeedbackRow)
    requires forall e :: e in es ==> EventScores(db, e) != []
    ensures row in RowsOf(db, es) <==> exists e :: e in es && EventScores(db, e) != [] && row == RowOf(db, e)
  {
    if es != [] {
      RowsOfMembership(db, es[1..], row);
      assert forall e :: e in es <==> e == es[0] || e in es[1..];
    }
  }

  /**
   * A row is in the report exactly when it is the row of a scheduled event with at
   * least one score: that event's name and the mean of its scores.
   */
  lemma FeedbackMembership(db: Store, row: FeedbackRow)
    requires EventKeysUnique(db.events)
    ensures row in EventFeedbackReport(db) <==>
      exists e :: e in db.events && Rated(db, e) && row == RowOf(db, e)
  {
    FeedbackIsOneRowPerRatedEvent(db);
    assert row in EventFeedbackReport(db) <==> row in multiset(EventFeedbackReport(db));
    RowsOfMembership(db, Filter(db.events, IsRated(db)), row);
  }

  /**
   * The scores averaged for an event are exactly the non-NULL scores of attendance
   * rows of its registrations: presence is not consulted.
   */
  lemma EventScoresMembership(db: Store, e: Event, x: int)
    ensures x in EventScores(db, e) <==>
      exists r, a :: r in db.registrations && r.eventId == Some(e.eventId) &&
        a in db.attendance && a.regId == Some(r.regId) && a.feedbackScore == Some(x)
  {
    if x in EventScores(db, e) {
      var r :| r in RegistrationsOfEvent(db.registrations, e.eventId) && x in ScoresOf(db.attendance)(r);
      var a :| a in AttendanceOf(db.attendance, r.regId) && a.feedbackScore == Some(x);
    }
    if exists r, a :: r in db.registrations && r.eventId == Some(e.eventId) &&
        a in db.attendance && a.regId == Some(r.regId) && a.feedbackScore == Some(x) {
      var r, a :| r in db.registrations && r.eventId == Some(e.eventId) &&
        a in db.attendance && a.regId == Some(r.regId) && a.feedbackScore == Some(x);
      assert a in AttendanceOf(db.attendance, r.regId);
      assert x in ScoresOf(db.attendance)(r);
      assert r in RegistrationsOfEvent(db.registrations, e.eventId);
    }
  }

  lemma {:induction false} SumBounds(xs: seq<int>, lo: int, hi: int)
    requires forall x :: x in xs ==> lo <= x <= hi
    ensures lo * |xs| <= Sum(xs) <= hi * |xs|
  {
    if xs != [] {
      var rest := xs[1..];
      assert xs[0] in xs;
      assert forall x :: x in rest ==> x in xs;
      SumBounds(rest, lo, hi);
      assert Sum(xs) == xs[0] + Sum(rest);
      MulStep(lo, |rest|);
      MulStep(hi, |rest|);
    }
  }

  lemma MulStep(a: int, n: nat)
    ensures a * (n + 1) == a + a * n
  {}

  lemma ProductAsReal(a: int, b: int)
    ensures (a * b) as real == a as real * b as real
  {}

  /** A quotient by a positive number of values lies between the bounds of its dividend. */
  lemma QuotientBounds(total: real, n: real, lo: real, hi: real)
    requires n > 0.0
    requires lo * n <= total <= hi * n
    ensures lo <= total / n <= hi
  {
    assert total / n * n == total;
  }

  /** A mean lies between any bounds of the values it averages. */
  lemma MeanBounds(xs: seq<int>, lo: int, hi: int)
    requires xs != []
    requires forall x :: x in xs ==> lo <= x <= hi
    ensures lo as real <= Mean(xs) <= hi as real
  {
    var n, total := |xs|, Sum(xs);
    SumBounds(xs, lo, hi);
    ProductAsReal(lo, n);
    ProductAsReal(hi, n);
    QuotientBounds(total as real, n as real, lo as real, hi as real);
  }

  /**
   * When every score stored lies in lo..hi (1..5 in the sample data), every average
   * in the report does too.
   */
  lemma FeedbackAverageBounds(db: Store, row: FeedbackRow, lo: int, hi: int)
    requires EventKeysUnique(db.events)
    requires forall a :: a in db.attendance && a.feedbackScore.Some? ==> lo <= a.feedbackScore.value <= hi
    requires row in EventFeedbackReport(db)
    ensures lo as real <= row.averageScore <= hi as real
  {
    FeedbackMembership(db, row);
    var e :| e in db.events && Rated(db, e) && row == RowOf(db, e);
    forall x | x in EventScores(db, e) ensures lo <= x <= hi {
      EventScoresMembership(db, e, x);
    }
    MeanBounds(EventScores(db, e), lo, hi);
  }
}
