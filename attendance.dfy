/** The attendance rules of the front end: the per-student attendance
    rate of the students table, the prefill of the attendance form from
    today's records, and the batch that "Save attendance" submits. */
module Attendance {
  import opened Base
  import opened Entities
  import opened Markup

  /** The four options of the status select, in the order the form lists
      them. */
  datatype Status = Present | Absent | Late | Excused

  /** The `value` of a status option. */
  function StatusName(s: Status): (name: string)
    ensures IsStatusName(name)
    ensures StatusOf(name) == s
  {
    match s
    case Present => "present"
    case Absent => "absent"
    case Late => "late"
    case Excused => "excused"
  }

  predicate IsStatusName(name: string) {
    name == "present" || name == "absent" || name == "late" || name == "excused"
  }

  /** The option a status select shows for a stored status: the option
      with that value, or, when no option is marked selected, the first
      one ("present"). */
  function StatusOf(name: string): Status {
    if name == "absent" then Absent
    else if name == "late" then Late
    else if name == "excused" then Excused
    else Present
  }

  // ---------------------------------------------------------------------
  // Attendance rate of one student (students table)

  /** Which records carry the student's id. */
  function OwnFlags(records: seq<AttendanceRecord>, sid: string): (flags: seq<bool>)
    ensures |flags| == |records|
    ensures forall i :: 0 <= i < |records| ==> (flags[i] <==> records[i].studentId == sid)
  {
    seq(|records|, i requires 0 <= i < |records| => records[i].studentId == sid)
  }

  /** `records.filter(a => a.studentId === sid)`: every record carrying the
      id, duplicates included, in their order; the `j`-th one is the record
      at the `j`-th position that carries the id. */
  function RecordsOf(records: seq<AttendanceRecord>, sid: string): (own: seq<AttendanceRecord>)
    ensures var idx := Positions(OwnFlags(records, sid), |records|);
            |own| == |idx| && forall j :: 0 <= j < |idx| ==> own[j] == records[idx[j]]
    ensures |own| <= |records|
    ensures forall a :: a in own <==> a in records && a.studentId == sid
  {
    Filter(records, OwnFlags(records, sid))
  }

  /** `records.filter(a => a.status === 'present').length`: the number of
      positions holding a "present" record. */
  function PresentCount(records: seq<AttendanceRecord>): (p: nat)
    ensures p == |set i | 0 <= i < |records| && records[i].status == "present"|
    ensures p <= |records|
    ensures p == |records| <==> forall i :: 0 <= i < |records| ==> records[i].status == "present"
  {
    var flags := seq(|records|, i requires 0 <= i < |records| => records[i].status == "present");
    assert forall i :: 0 <= i < |records| ==> (flags[i] <==> records[i].status == "present");
    assert (set i | 0 <= i < |flags| && flags[i]) == (set i | 0 <= i < |records| && records[i].status == "present");
    Count(flags)
  }

  /** The attendance rate shown for a student: 0 without records, otherwise
      `Math.round(present / total * 100)`, which for a non-negative ratio is
      `floor(x + 1/2)` and is computed here in integers. */
  function AttendanceRate(records: seq<AttendanceRecord>, sid: string): (rate: nat)
    ensures rate <= 100
    ensures RecordsOf(records, sid) == [] ==> rate == 0
    ensures var own := RecordsOf(records, sid);
            own != [] ==> RoundsTo(PresentCount(own), |own|, rate)
  {
    var own := RecordsOf(records, sid);
    if |own| == 0 then 0
    else
      RoundedPercent(PresentCount(own), |own|)
  }

  /** `rate` is `100 · present / total` rounded to the nearest integer,
      halves up: `rate <= 100 · p / t + 1/2 < rate + 1`, multiplied out by
      `2t`. */
  predicate RoundsTo(p: nat, t: nat, rate: int) {
    2 * t * rate <= 200 * p + t < 2 * t * (rate + 1)
  }

  /** `present / total * 100` rounded to the nearest integer, halves up,
      computed in integers. */
  function RoundedPercent(present: nat, total: nat): (rate: nat)
    requires 0 < total
    ensures present <= total ==> rate <= 100
    ensures RoundsTo(present, total, rate)
  {
    var rate := (200 * present + total) / (2 * total);
    RoundingBounds(200 * present + total, 2 * total, rate);
    assert present <= total ==> rate <= 100 by {
      if present <= total {
        AtMostHundred(total, present, rate);
      }
    }
    rate
  }

  /** Integer division brackets the quotient. */
  lemma RoundingBounds(a: nat, b: nat, q: nat)
    requires b > 0 && q == a / b
    ensures b * q <= a < b * (q + 1)
  {
  }

  /** The rounded rate of at most `t` present records out of `t` is at
      most 100. */
  lemma AtMostHundred(t: nat, p: nat, rate: nat)
    requires 0 < t && p <= t
    requires 2 * t * rate <= 200 * p + t
    ensures rate <= 100
  {
    if rate > 100 {
      assert 2 * t * rate >= 2 * t * 101 by {
        MulMonotonic(101, rate, 2 * t);
      }
    }
  }

  lemma MulMonotonic(a: nat, b: nat, c: nat)
    requires a <= b
    ensures a * c <= b * c
  {
  }

  /** The percentage `100 · p / t` as an exact rational. */
  function ExactPercent(p: nat, t: nat): real
    requires t > 0
  {
    100.0 * p as real / t as real
  }

  /** The integer rate is `Math.round` of the exact percentage. */
  lemma AttendanceRateIsRoundedPercentage(records: seq<AttendanceRecord>, sid: string)
    requires RecordsOf(records, sid) != []
    ensures var own := RecordsOf(records, sid);
            AttendanceRate(records, sid) == MathRound(ExactPercent(PresentCount(own), |own|))
  {
    var own := RecordsOf(records, sid);
    RoundedPercentIsMathRound(PresentCount(own), |own|);
  }

  /** The integer rounding agrees with `Math.round` of the exact
      percentage. */
  lemma RoundedPercentIsMathRound(p: nat, t: nat)
    requires 0 < t
    ensures RoundedPercent(p, t) == MathRound(ExactPercent(p, t))
  {
    RealBracket(t, p, RoundedPercent(p, t));
  }

  /** Dividing the integer bracket by `2t` gives the real one. */
  lemma RealBracket(t: nat, p: nat, rate: int)
    requires t > 0
    requires RoundsTo(p, t, rate)
    ensures MathRound(ExactPercent(p, t)) == rate
  {
    var tr := t as real;
    var x := 100.0 * p as real / tr;
    assert x * tr == 100.0 * p as real;
    var lo := (2 * t * rate) as real;
    var mid := (200 * p + t) as real;
    var hi := (2 * t * (rate + 1)) as real;
    assert lo == 2.0 * tr * rate as real;
    assert hi == 2.0 * tr * (rate as real + 1.0);
    assert mid == 2.0 * tr * (x + 0.5);
    RealCancel(rate as real, x + 0.5, 2.0 * tr);
    RealCancelStrict(x + 0.5, rate as real + 1.0, 2.0 * tr);
  }

  lemma RealCancel(a: real, b: real, c: real)
    requires c > 0.0 && c * a <= c * b
    ensures a <= b
  {
  }

  lemma RealCancelStrict(a: real, b: real, c: real)
    requires c > 0.0 && c * a < c * b
    ensures a < b
  {
  }

  // ---------------------------------------------------------------------
  // Attendance form: prefill

  /** One row of the attendance form: the student, the status select and
      the reason input. */
  datatype AttendanceRow = AttendanceRow(studentId: string, status: Status, reason: string)

  /** `existing.findIndex(a => a.studentId === sid)`, with `|existing|`
      standing for "not found". */
  function FirstRecordFor(existing: seq<AttendanceRecord>, sid: string): (k: nat)
    ensures k <= |existing|
    ensures k < |existing| ==> existing[k].studentId == sid
    ensures forall j :: 0 <= j < k ==> existing[j].studentId != sid
  {
    if existing == [] then 0
    else if existing[0].studentId == sid then 0
    else 1 + FirstRecordFor(existing[1..], sid)
  }

  /** The row for one student: prefilled from `existing.find(a =>
      a.studentId === student.id)` when that finds a record, its reason
      (a missing one written as "") shown as the reason input reads it
      back, else "present" with an empty reason. */
  function PrefillRow(student: Student, existing: seq<AttendanceRecord>, w: Writing): AttendanceRow {
    var k := FirstRecordFor(existing, student.id);
    if k < |existing| then
      AttendanceRow(student.id, StatusOf(existing[k].status), Shown(w, existing[k].reason.GetOr("")))
    else
      AttendanceRow(student.id, Present, "")
  }

  /** A record is the first one for its student. */
  predicate FirstRecordAt(existing: seq<AttendanceRecord>, sid: string, j: int) {
    0 <= j < |existing| && existing[j].studentId == sid
    && forall k :: 0 <= k < j ==> existing[k].studentId != sid
  }

  /** The attendance form for a class roster and that class's records for
      the day: one row per roster student, in roster order, taken from the
      FIRST record for that student, or defaulted when there is none. The
      reason input shows the stored reason as `value="…"` reads it back:
      unchanged when it holds no quote, ampersand or line break. */
  function Prefill(roster: seq<Student>, existing: seq<AttendanceRecord>, w: Writing): (rows: seq<AttendanceRow>)
    ensures |rows| == |roster|
    ensures forall i :: 0 <= i < |rows| ==> rows[i].studentId == roster[i].id
    ensures forall i, j :: 0 <= i < |rows| && FirstRecordAt(existing, roster[i].id, j)
              ==> rows[i].status == StatusOf(existing[j].status)
                  && rows[i].reason == Shown(w, existing[j].reason.GetOr(""))
    ensures forall i, j :: 0 <= i < |rows| && FirstRecordAt(existing, roster[i].id, j)
                           && ShowsAsStored(w, existing[j].reason.GetOr(""))
              ==> rows[i].reason == existing[j].reason.GetOr("")
    ensures forall i :: 0 <= i < |rows| && (forall j :: 0 <= j < |existing| ==> existing[j].studentId != roster[i].id)
              ==> rows[i].status == Present && rows[i].reason == ""
  {
    var rows := seq(|roster|, i requires 0 <= i < |roster| => PrefillRow(roster[i], existing, w));
    assert forall i, j :: 0 <= i < |rows| && FirstRecordAt(existing, roster[i].id, j)
             ==> rows[i].status == StatusOf(existing[j].status)
                 && rows[i].reason == Shown(w, existing[j].reason.GetOr("")) by {
      forall i, j | 0 <= i < |rows| && FirstRecordAt(existing, roster[i].id, j) {
        FirstRecordIsFound(existing, roster[i].id, j);
      }
    }
    rows
  }

  /** The first record for a student is the one `find` returns. */
  lemma FirstRecordIsFound(existing: seq<AttendanceRecord>, sid: string, j: int)
    requires FirstRecordAt(existing, sid, j)
    ensures FirstRecordFor(existing, sid) == j
  {
  }

  // ---------------------------------------------------------------------
  // Attendance form: save

  /** One `{studentId, status, reason}` of the submitted batch. */
  datatype AttendanceEntry = AttendanceEntry(studentId: string, status: string, reason: string)

  /** `POST /classes/{classId}/attendance` with `{attendanceData, date}`. */
  datatype AttendanceBatch = AttendanceBatch(path: string, date: string, entries: seq<AttendanceEntry>)

  /** `findIndex` of the first row carrying a student id. */
  function FirstRowFor(form: seq<AttendanceRow>, sid: string): (k: nat)
    ensures k <= |form|
    ensures k < |form| ==> form[k].studentId == sid
    ensures forall j :: 0 <= j < k ==> form[j].studentId != sid
  {
    if form == [] then 0
    else if form[0].studentId == sid then 0
    else 1 + FirstRowFor(form[1..], sid)
  }

  /** The reason input `document.querySelector` finds for a student: the
      one in the first row carrying that student id. */
  function ReasonInput(form: seq<AttendanceRow>, sid: string): string {
    var k := FirstRowFor(form, sid);
    if k < |form| then form[k].reason else ""
  }

  /** A row is the first one for its student. */
  predicate FirstRowAt(form: seq<AttendanceRow>, sid: string, j: int) {
    0 <= j < |form| && form[j].studentId == sid
    && forall k :: 0 <= k < j ==> form[k].studentId != sid
  }

  /** "Save attendance": refused without a selected class; otherwise one
      entry per status select, in row order, each carrying the select's
      status and the reason input found for its student id. */
  function SaveAttendance(classId: string, form: seq<AttendanceRow>, date: string): (r: Result<AttendanceBatch>)
    ensures r.Err? <==> !Truthy(classId)
    ensures r.Err? ==> r.message == "Please select a class"
    ensures r.Ok? ==> r.value.path == "/classes/" + classId + "/attendance" && r.value.date == date
    ensures r.Ok? ==> |r.value.entries| == |form|
    ensures r.Ok? ==> forall i :: 0 <= i < |form| ==>
              r.value.entries[i].studentId == form[i].studentId
              && IsStatusName(r.value.entries[i].status)
              && StatusOf(r.value.entries[i].status) == form[i].status
    ensures r.Ok? ==>
              forall i, j :: 0 <= i < |form| && FirstRowAt(form, form[i].studentId, j)
                ==> r.value.entries[i].reason == form[j].reason
  {
    if !Truthy(classId) then Err("Please select a class")
    else
      var entries := seq(|form|, i requires 0 <= i < |form| =>
        AttendanceEntry(form[i].studentId, StatusName(form[i].status), ReasonInput(form, form[i].studentId)));
      Ok(AttendanceBatch("/classes/" + classId + "/attendance", date, entries))
  }

  /** No two rows of the form belong to the same student. */
  predicate DistinctStudents(form: seq<AttendanceRow>) {
    forall i, j :: 0 <= i < j < |form| ==> form[i].studentId != form[j].studentId
  }

  /** With one row per student, every entry carries its own row's reason:
      the batch is exactly the form. */
  lemma SavedBatchIsForm(classId: string, form: seq<AttendanceRow>, date: string)
    requires Truthy(classId) && DistinctStudents(form)
    ensures var b := SaveAttendance(classId, form, date).value;
            forall i :: 0 <= i < |form| ==>
              b.entries[i] == AttendanceEntry(form[i].studentId, StatusName(form[i].status), form[i].reason)
  {
    var b := SaveAttendance(classId, form, date).value;
    forall i | 0 <= i < |form|
      ensures b.entries[i] == AttendanceEntry(form[i].studentId, StatusName(form[i].status), form[i].reason)
    {
      assert forall k :: 0 <= k < i ==> form[k].studentId != form[i].studentId;
      assert StatusOf(b.entries[i].status) == form[i].status;
      StatusNameOf(b.entries[i].status);
    }
  }

  /** A status name is the name of the status it selects. */
  lemma StatusNameOf(name: string)
    requires IsStatusName(name)
    ensures StatusName(StatusOf(name)) == name
  {
  }

  /** The records the backend stores for a batch: one per entry, in order,
      each with the batch's date and the entry's student, status and
      reason. */
  function StoredRecords(b: AttendanceBatch): (records: seq<AttendanceRecord>)
    ensures |records| == |b.entries|
    ensures forall i :: 0 <= i < |records| ==>
              records[i].studentId == b.entries[i].studentId && records[i].date == b.date
              && records[i].status == b.entries[i].status && records[i].reason == Some(b.entries[i].reason)
  {
    seq(|b.entries|, i requires 0 <= i < |b.entries| =>
      AttendanceRecord(b.entries[i].studentId, b.date, b.entries[i].status, Some(b.entries[i].reason)))
  }

  /** Saving a form for a roster and opening the form again on the records
      stored from that save shows the same form, provided every reason is
      shown as stored under the given way of writing. */
  lemma ReopenShowsForm(w: Writing, classId: string, roster: seq<Student>, form: seq<AttendanceRow>, date: string)
    requires Truthy(classId)
    requires |form| == |roster|
    requires forall i :: 0 <= i < |form| ==> form[i].studentId == roster[i].id
    requires DistinctStudents(form)
    requires forall i :: 0 <= i < |form| ==> ShowsAsStored(w, form[i].reason)
    ensures Prefill(roster, StoredRecords(SaveAttendance(classId, form, date).value), w) == form
  {
    var b := SaveAttendance(classId, form, date).value;
    var stored := StoredRecords(b);
    var rows := Prefill(roster, stored, w);
    SavedBatchIsForm(classId, form, date);
    forall i | 0 <= i < |form|
      ensures rows[i] == form[i]
    {
      assert stored[i].studentId == roster[i].id;
      assert forall k :: 0 <= k < i ==> stored[k].studentId != roster[i].id;
      assert FirstRecordAt(stored, roster[i].id, i);
      assert rows[i].status == StatusOf(stored[i].status);
      assert rows[i].reason == form[i].reason;
    }
  }

  /** As app.js writes the reason input (unescaped), reopening the form
      after a save shows exactly what was saved when no reason holds a
      quote, an ampersand or a line break. */
  lemma ReopenAfterSave(classId: string, roster: seq<Student>, form: seq<AttendanceRow>, date: string)
    requires Truthy(classId)
    requires |form| == |roster|
    requires forall i :: 0 <= i < |form| ==> form[i].studentId == roster[i].id
    requires DistinctStudents(form)
    requires forall i :: 0 <= i < |form| ==> AttrSafe(form[i].reason)
    ensures Prefill(roster, StoredRecords(SaveAttendance(classId, form, date).value), Raw) == form
  {
    ReopenShowsForm(Raw, classId, roster, form, date);
  }

  /** As written, a saved reason holding a quote comes back cut at the
      quote: a reason `a"b` (say `Sick "flu"`) is shown, and saved again,
      as `a` (`Sick `). */
  lemma QuotedReasonCut(classId: string, student: Student, status: Status, a: string, b: string, date: string)
    requires Truthy(classId) && AttrSafe(a)
    ensures var form := [AttendanceRow(student.id, status, a + "\"" + b)];
            var stored := StoredRecords(SaveAttendance(classId, form, date).value);
            Prefill([student], stored, Raw)[0].reason == a
  {
    var form := [AttendanceRow(student.id, status, a + "\"" + b)];
    var stored := StoredRecords(SaveAttendance(classId, form, date).value);
    assert stored[0].reason == Some(a + "\"" + b);
    assert FirstRecordAt(stored, student.id, 0);
    AttrValueCut(a, b);
  }

  /** Corrected: with the reason escaped into `value="…"`, reopening the
      form after a save shows exactly what was saved for every reason a
      text input can hold, quotes and ampersands included. */
  lemma ReopenEscapedAfterSave(classId: string, roster: seq<Student>, form: seq<AttendanceRow>, date: string)
    requires Truthy(classId)
    requires |form| == |roster|
    requires forall i :: 0 <= i < |form| ==> form[i].studentId == roster[i].id
    requires DistinctStudents(form)
    requires forall i :: 0 <= i < |form| ==> FitsTextInput(form[i].reason)
    ensures Prefill(roster, StoredRecords(SaveAttendance(classId, form, date).value), Escaped) == form
  {
    ReopenShowsForm(Escaped, classId, roster, form, date);
  }
}
