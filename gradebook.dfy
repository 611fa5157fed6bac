/** The gradebook rules of the front end: the per-student lookup of the
    grades of one assignment, the rows of the grade form, and which save
    request (if any) each row of the form turns into. */
module Gradebook {
  import opened Base
  import opened JsText
  import opened Entities
  import opened Markup

  // ---------------------------------------------------------------------
  // The grade lookup

  /** A grade of the given assignment and student. */
  predicate GradeOf(g: Grade, assignmentId: string, sid: string) {
    g.assignmentId == assignmentId && g.studentId == sid
  }

  /** The lookup a grade list builds: the grades of one assignment keyed
      by student id, a later grade replacing an earlier one. */
  function IndexGrades(grades: seq<Grade>, assignmentId: string): (m: map<string, Grade>)
    ensures forall sid :: sid in m ==> GradeOf(m[sid], assignmentId, sid) && m[sid] in grades
  {
    if grades == [] then map[]
    else
      var before := IndexGrades(grades[..|grades| - 1], assignmentId);
      var g := grades[|grades| - 1];
      if g.assignmentId == assignmentId then before[g.studentId := g] else before
  }

  /** A student has an entry exactly when some grade of the assignment is
      theirs. */
  lemma {:induction false} IndexGradesKeys(grades: seq<Grade>, assignmentId: string, sid: string)
    ensures sid in IndexGrades(grades, assignmentId)
            <==> exists j :: 0 <= j < |grades| && GradeOf(grades[j], assignmentId, sid)
  {
    if grades != [] {
      var init := grades[..|grades| - 1];
      IndexGradesKeys(init, assignmentId, sid);
      if exists j :: 0 <= j < |init| && GradeOf(init[j], assignmentId, sid) {
        var j :| 0 <= j < |init| && GradeOf(init[j], assignmentId, sid);
        assert GradeOf(grades[j], assignmentId, sid);
      }
      if exists j :: 0 <= j < |grades| && GradeOf(grades[j], assignmentId, sid) {
        var j :| 0 <= j < |grades| && GradeOf(grades[j], assignmentId, sid);
        if j < |init| {
          assert GradeOf(init[j], assignmentId, sid);
        }
      }
    }
  }

  /** Later grades win: a student's entry is the last grade of the
      assignment that is theirs. */
  lemma {:induction false} IndexGradesLastWins(grades: seq<Grade>, assignmentId: string, j: nat)
    requires j < |grades| && grades[j].assignmentId == assignmentId
    requires forall k :: j < k < |grades| ==> !GradeOf(grades[k], assignmentId, grades[j].studentId)
    ensures grades[j].studentId in IndexGrades(grades, assignmentId)
    ensures IndexGrades(grades, assignmentId)[grades[j].studentId] == grades[j]
  {
    var last := |grades| - 1;
    var init := grades[..last];
    var g := grades[last];
    var before := IndexGrades(init, assignmentId);
    assert IndexGrades(grades, assignmentId)
           == if g.assignmentId == assignmentId then before[g.studentId := g] else before;
    if j < last {
      assert forall k :: j < k < |init| ==> init[k] == grades[k];
      IndexGradesLastWins(init, assignmentId, j);
      assert init[j] == grades[j];
      assert !GradeOf(g, assignmentId, grades[j].studentId);
    }
  }

  /** `grades.forEach(g => { if (g.assignmentId === assignmentId)
      existingMap[g.studentId] = g; })`. */
  method BuildGradeLookup(grades: seq<Grade>, assignmentId: string) returns (existing: map<string, Grade>)
    ensures existing == IndexGrades(grades, assignmentId)
  {
    existing := map[];
    var i := 0;
    while i < |grades|
      invariant 0 <= i <= |grades|
      invariant existing == IndexGrades(grades[..i], assignmentId)
    {
      var g := grades[i];
      assert grades[..i + 1][..i] == grades[..i];
      if g.assignmentId == assignmentId {
        existing := existing[g.studentId := g];
      }
      i := i + 1;
    }
    assert grades[..|grades|] == grades;
  }

  // ---------------------------------------------------------------------
  // The grade form

  /** One row of the grade form: the student, the marks input and the
      feedback input, as text. */
  datatype GradeRow = GradeRow(studentId: string, mark: string, feedback: string)

  /** A student's row: the looked-up grade's marks, and its feedback as the
      feedback input reads it back, or two empty inputs. */
  function GradeRowFor(student: Student, existing: map<string, Grade>, w: Writing): GradeRow {
    if student.id in existing then
      GradeRow(student.id, IntToDecimal(existing[student.id].marksObtained), Shown(w, existing[student.id].feedback))
    else
      GradeRow(student.id, "", "")
  }

  /** The grade form: one row per student of the class, in roster order;
      a student with a grade shows marks that read back as the stored
      marks, and the stored feedback as `value="…"` reads it back
      (unchanged when it is shown as stored); any other student shows two
      empty inputs. */
  function GradeForm(students: seq<Student>, existing: map<string, Grade>, w: Writing): (rows: seq<GradeRow>)
    ensures |rows| == |students|
    ensures forall i :: 0 <= i < |rows| ==> rows[i].studentId == students[i].id
    ensures forall i :: 0 <= i < |rows| && students[i].id in existing ==>
              ParseInt(rows[i].mark) == Some(existing[students[i].id].marksObtained)
              && rows[i].feedback == Shown(w, existing[students[i].id].feedback)
    ensures forall i :: 0 <= i < |rows| && students[i].id in existing
                        && ShowsAsStored(w, existing[students[i].id].feedback) ==>
              rows[i].feedback == existing[students[i].id].feedback
    ensures forall i :: 0 <= i < |rows| && students[i].id !in existing ==>
              rows[i].mark == "" && rows[i].feedback == ""
  {
    var rows := seq(|students|, i requires 0 <= i < |students| => GradeRowFor(students[i], existing, w));
    assert forall i :: 0 <= i < |rows| && students[i].id in existing ==>
             ParseInt(rows[i].mark) == Some(existing[students[i].id].marksObtained) by {
      forall i | 0 <= i < |rows| && students[i].id in existing
        ensures ParseInt(rows[i].mark) == Some(existing[students[i].id].marksObtained)
      {
        ParseIntRendering(existing[students[i].id].marksObtained);
      }
    }
    rows
  }

  // ---------------------------------------------------------------------
  // Saving the grade form

  /** The body of a grade save. */
  datatype GradePayload = GradePayload(classId: string, studentId: string, assignmentId: string, marksObtained: int, feedback: string)

  /** `PUT /grades/{id}` or `POST /grades` with a payload. */
  datatype GradeRequest = GradeRequest(verb: Method, path: string, payload: GradePayload)

  /** A marks input that is saved: `parseInt` of it is a number, and not a
      negative one. */
  predicate Savable(mark: string) {
    ParseInt(mark).Some? && ParseInt(mark).value >= 0
  }

  /** `findIndex` of the first row carrying a student id. */
  function FirstRowFor(form: seq<GradeRow>, sid: string): (k: nat)
    ensures k <= |form|
    ensures k < |form| ==> form[k].studentId == sid
    ensures forall j :: 0 <= j < k ==> form[j].studentId != sid
  {
    if form == [] then 0
    else if form[0].studentId == sid then 0
    else 1 + FirstRowFor(form[1..], sid)
  }

  /** The feedback input `document.querySelector` finds for a student: the
      one in the first row carrying that id, or "" when there is none. */
  function FeedbackInput(form: seq<GradeRow>, sid: string): string {
    var k := FirstRowFor(form, sid);
    if k < |form| then form[k].feedback else ""
  }

  /** Where a save goes: an update of the looked-up grade when it has an
      id, a creation otherwise. */
  function Route(existing: map<string, Grade>, sid: string): (route: (Method, string))
    ensures route.0 == Put <==> sid in existing && HasId(existing[sid])
    ensures route.0 == Put ==> route.1 == "/grades/" + existing[sid].id.value
    ensures route.0 != Put ==> route == (Post, "/grades")
  {
    if sid in existing && HasId(existing[sid]) then (Put, "/grades/" + existing[sid].id.value)
    else (Post, "/grades")
  }

  /** The request row `i` of the form turns into, if any. */
  function RowRequest(classId: string, assignmentId: string, form: seq<GradeRow>, i: nat,
                      existing: map<string, Grade>): (r: Option<GradeRequest>)
    requires i < |form|
    ensures r.Some? <==> Savable(form[i].mark)
    ensures r.Some? ==> r.value.payload.marksObtained >= 0
    ensures r.Some? ==> Some(r.value.payload.marksObtained) == ParseInt(form[i].mark)
    ensures r.Some? ==> r.value.payload.classId == classId && r.value.payload.assignmentId == assignmentId
    ensures r.Some? ==> r.value.payload.studentId == form[i].studentId
    ensures r.Some? ==> r.value.payload.feedback == FeedbackInput(form, form[i].studentId)
    ensures r.Some? ==> (r.value.verb, r.value.path) == Route(existing, form[i].studentId)
  {
    var row := form[i];
    match ParseInt(row.mark)
    case Some(marks) =>
      if marks >= 0 then
        var route := Route(existing, row.studentId);
        Some(GradeRequest(route.0, route.1,
          GradePayload(classId, row.studentId, assignmentId, marks, FeedbackInput(form, row.studentId))))
      else None
    case None => None
  }

  /** What every row of the form turns into. */
  function RowRequests(classId: string, assignmentId: string, form: seq<GradeRow>,
                       existing: map<string, Grade>): (rs: seq<Option<GradeRequest>>)
    ensures |rs| == |form|
    ensures forall i :: 0 <= i < |form| ==> rs[i] == RowRequest(classId, assignmentId, form, i, existing)
  {
    seq(|form|, i requires 0 <= i < |form| => RowRequest(classId, assignmentId, form, i, existing))
  }

  /** The requests "Save grades" issues for a form, in row order. */
  function PlannedSaves(classId: string, assignmentId: string, form: seq<GradeRow>,
                        existing: map<string, Grade>): seq<GradeRequest>
  {
    Collect(RowRequests(classId, assignmentId, form, existing), |form|)
  }

  /** The positions of the rows that are saved, in increasing order. */
  function SavedRows(form: seq<GradeRow>): (idx: seq<nat>)
    ensures forall j :: 0 <= j < |idx| ==> idx[j] < |form| && Savable(form[idx[j]].mark)
    ensures forall i :: 0 <= i < |form| && Savable(form[i].mark) ==> i in idx
    ensures forall a, b :: 0 <= a < b < |idx| ==> idx[a] < idx[b]
  {
    Positions(seq(|form|, i requires 0 <= i < |form| => Savable(form[i].mark)), |form|)
  }

  /** "Save grades" issues, in row order, exactly one request per saved row
      and nothing else: the `j`-th saved row gives the `j`-th request. */
  lemma PlannedSavesPerRow(classId: string, assignmentId: string, form: seq<GradeRow>,
                           existing: map<string, Grade>)
    ensures var saves := PlannedSaves(classId, assignmentId, form, existing);
            var idx := SavedRows(form);
            |saves| == |idx|
            && forall j :: 0 <= j < |idx| ==>
                 Some(saves[j]) == RowRequest(classId, assignmentId, form, idx[j], existing)
  {
    var rs := RowRequests(classId, assignmentId, form, existing);
    var flags := seq(|form|, i requires 0 <= i < |form| => Savable(form[i].mark));
    assert SomeFlags(rs) == flags;
    CollectPerSome(rs, |form|);
  }

  /** No two rows of the form belong to the same student. */
  predicate DistinctStudents(students: seq<Student>) {
    forall a, b :: 0 <= a < b < |students| ==> students[a].id != students[b].id
  }

  /** Saving a freshly loaded, unedited grade form re-submits every stored
      non-negative grade's marks (an update when the stored grade has an
      id) with its feedback as the feedback input shows it, and nothing for
      students without a grade or with a negative one. */
  lemma UneditedFormResaves(w: Writing, classId: string, assignmentId: string, students: seq<Student>,
                            grades: seq<Grade>, i: nat)
    requires i < |students|
    requires DistinctStudents(students)
    ensures var existing := IndexGrades(grades, assignmentId);
            var form := GradeForm(students, existing, w);
            var sid := students[i].id;
            RowRequest(classId, assignmentId, form, i, existing) ==
              if sid in existing && existing[sid].marksObtained >= 0 then
                var route := Route(existing, sid);
                Some(GradeRequest(route.0, route.1,
                  GradePayload(classId, sid, assignmentId, existing[sid].marksObtained, Shown(w, existing[sid].feedback))))
              else None
  {
    var existing := IndexGrades(grades, assignmentId);
    var form := GradeForm(students, existing, w);
    var sid := students[i].id;
    assert FirstRowFor(form, sid) == i by {
      assert forall j :: 0 <= j < i ==> form[j].studentId != sid;
    }
    if sid !in existing {
      ParseIntNaN(form[i].mark);
    }
  }

  /** As written (feedback unescaped), saving an unedited form sends a
      stored feedback `a"b` (say `Good "hook"`) back as `a` (`Good `): the
      text from the quote on is lost. */
  lemma QuotedFeedbackCut(classId: string, student: Student, g: Grade, a: string, b: string)
    requires g.studentId == student.id && g.marksObtained >= 0
    requires g.feedback == a + "\"" + b && AttrSafe(a)
    ensures var existing := IndexGrades([g], g.assignmentId);
            var r := RowRequest(classId, g.assignmentId, GradeForm([student], existing, Raw), 0, existing);
            r.Some? && r.value.payload.feedback == a
  {
    var existing := IndexGrades([g], g.assignmentId);
    assert existing == map[student.id := g] by {
      assert [g][..0] == [];
    }
    AttrValueCut(a, b);
    UneditedFormResaves(Raw, classId, g.assignmentId, [student], [g], 0);
  }

  /** Corrected: with the feedback escaped into `value="…"`, saving an
      unedited form re-sends every stored non-negative grade unchanged,
      marks and feedback, for any feedback a text input can hold. */
  lemma UneditedEscapedFormResaves(classId: string, assignmentId: string, students: seq<Student>,
                                   grades: seq<Grade>, i: nat)
    requires i < |students|
    requires DistinctStudents(students)
    requires var existing := IndexGrades(grades, assignmentId);
             students[i].id in existing ==> FitsTextInput(existing[students[i].id].feedback)
    ensures var existing := IndexGrades(grades, assignmentId);
            var sid := students[i].id;
            RowRequest(classId, assignmentId, GradeForm(students, existing, Escaped), i, existing) ==
              if sid in existing && existing[sid].marksObtained >= 0 then
                var route := Route(existing, sid);
                Some(GradeRequest(route.0, route.1,
                  GradePayload(classId, sid, assignmentId, existing[sid].marksObtained, existing[sid].feedback)))
              else None
  {
    UneditedFormResaves(Escaped, classId, assignmentId, students, grades, i);
  }
}
