/** The page-level `state` record the loaders overwrite, and the rows the
    students, classes, attendance and gradebook pages derive from it. Each
    backend answer is a parameter: `None` stands for the `null` a failed
    call yields, which the loaders turn into `[]`. */
module AppState {
  import opened Base
  import opened Entities
  import opened Attendance
  import opened Gradebook
  import opened Markup

  /** The four figures of the dashboard; the attendance figure is only
      written when there are students. */
  datatype DashboardStats = DashboardStats(classes: nat, students: nat, assignments: nat, attendancePercent: Option<int>)

  /** The dashboard attendance figure: `Math.round(records /
      Math.max(students * 30, 1) * 100)`, shown only when there are
      students; it is the number of records per 30 days of each student as
      a percentage, rounded to the nearest integer, halves up. */
  function AttendancePercent(records: nat, students: nat): (r: Option<int>)
    ensures r.Some? <==> students > 0
    ensures r.Some? ==> r.value >= 0 && RoundsTo(records, 30 * students, r.value)
    ensures r.Some? && records <= 30 * students ==> r.value <= 100
  {
    if students > 0 then
      var days := if students * 30 > 1 then students * 30 else 1;
      var x := records as real / days as real * 100.0;
      assert MathRound(x) == RoundedPercent(records, days) by {
        assert x == ExactPercent(records, days);
        RoundedPercentIsMathRound(records, days);
      }
      Some(MathRound(x))
    else None
  }

  /** A row of the classes table: the class and how many cached students
      belong to it. */
  datatype ClassRow = ClassRow(section: ClassSection, studentCount: nat)

  /** `students.filter(s => s.classId === classId).length`: the number of
      positions holding a student of the class. */
  function StudentCount(students: seq<Student>, classId: string): (n: nat)
    ensures n == |set i | 0 <= i < |students| && students[i].classId == classId|
    ensures n <= |students|
    ensures n == 0 <==> forall i :: 0 <= i < |students| ==> students[i].classId != classId
  {
    var flags := seq(|students|, i requires 0 <= i < |students| => students[i].classId == classId);
    assert forall i :: 0 <= i < |students| ==> (flags[i] <==> students[i].classId == classId);
    assert (set i | 0 <= i < |flags| && flags[i]) == (set i | 0 <= i < |students| && students[i].classId == classId);
    Count(flags)
  }

  /** The classes table: one row per class, in order. */
  function ClassRows(classes: seq<ClassSection>, students: seq<Student>): (rows: seq<ClassRow>)
    ensures |rows| == |classes|
    ensures forall i :: 0 <= i < |rows| ==>
              rows[i].section == classes[i] && rows[i].studentCount == StudentCount(students, classes[i].id)
  {
    seq(|classes|, i requires 0 <= i < |classes| => ClassRow(classes[i], StudentCount(students, classes[i].id)))
  }

  /** A row of the students table: the student and their attendance rate. */
  datatype StudentRow = StudentRow(student: Student, attendanceRate: nat)

  /** The students table: one row per student, in order, each rate taken
      from the cached attendance records and at most 100. */
  function StudentRows(students: seq<Student>, attendance: seq<AttendanceRecord>): (rows: seq<StudentRow>)
    ensures |rows| == |students|
    ensures forall i :: 0 <= i < |rows| ==>
              rows[i].student == students[i]
              && rows[i].attendanceRate == AttendanceRate(attendance, students[i].id)
              && rows[i].attendanceRate <= 100
  {
    seq(|students|, i requires 0 <= i < |students| => StudentRow(students[i], AttendanceRate(attendance, students[i].id)))
  }

  /** The cache of the latest fetched collections. Every loader replaces
      the collections it fetches wholesale (last write wins) and leaves the
      others alone. */
  class State {
    var classes: seq<ClassSection>
    var students: seq<Student>
    var attendance: seq<AttendanceRecord>
    var assignments: seq<Assignment>
    /** The grade lookup of the grade list last shown. */
    var currentGrades: map<string, Grade>

    constructor ()
      ensures classes == [] && students == [] && attendance == [] && assignments == []
      ensures currentGrades == map[]
    {
      classes, students, attendance, assignments := [], [], [], [];
      currentGrades := map[];
    }

    /** The dashboard: refetch four collections, then show their sizes. */
    method LoadDashboard(cls: Option<seq<ClassSection>>, sts: Option<seq<Student>>,
                         att: Option<seq<AttendanceRecord>>, asg: Option<seq<Assignment>>)
      returns (stats: DashboardStats)
      modifies this`classes, this`students, this`attendance, this`assignments
      ensures classes == cls.GetOr([]) && students == sts.GetOr([])
      ensures attendance == att.GetOr([]) && assignments == asg.GetOr([])
      ensures stats == DashboardStats(|classes|, |students|, |assignments|,
                                      AttendancePercent(|attendance|, |students|))
    {
      classes := cls.GetOr([]);
      students := sts.GetOr([]);
      attendance := att.GetOr([]);
      assignments := asg.GetOr([]);
      stats := DashboardStats(|classes|, |students|, |assignments|, AttendancePercent(|attendance|, |students|));
    }

    /** The classes page: refetch the classes; each row counts the students
      of the cache as it stands. */
    method LoadClasses(cls: Option<seq<ClassSection>>) returns (rows: seq<ClassRow>)
      modifies this`classes
      ensures classes == cls.GetOr([])
      ensures rows == ClassRows(classes, students)
    {
      classes := cls.GetOr([]);
      rows := ClassRows(classes, students);
    }

    /** The students page: refetch the students; each rate is computed from
      the attendance records of the cache as it stands. */
    method LoadStudents(sts: Option<seq<Student>>) returns (rows: seq<StudentRow>)
      modifies this`students
      ensures students == sts.GetOr([])
      ensures rows == StudentRows(students, attendance)
    {
      students := sts.GetOr([]);
      rows := StudentRows(students, attendance);
    }

    /** The attendance and gradebook pages: refetch the classes for the
      class select. */
    method LoadClassSelect(cls: Option<seq<ClassSection>>)
      modifies this`classes
      ensures classes == cls.GetOr([])
    {
      classes := cls.GetOr([]);
    }

    /** Choosing a class on the attendance page: nothing without a class;
      otherwise refetch the roster and build the form from the day's
      records. */
    method LoadAttendanceForm(classId: string, roster: Option<seq<Student>>, existing: Option<seq<AttendanceRecord>>)
      returns (form: Option<seq<AttendanceRow>>)
      modifies this`students
      ensures !Truthy(classId) ==> form == None && students == old(students)
      ensures Truthy(classId) ==> students == roster.GetOr([])
                                  && form == Some(Prefill(students, existing.GetOr([]), Raw))
    {
      if !Truthy(classId) {
        return None;
      }
      students := roster.GetOr([]);
      form := Some(Prefill(students, existing.GetOr([]), Raw));
    }

    /** Choosing a class on the gradebook page: nothing without a class;
      otherwise refetch its roster and assignments. */
    method LoadGradebookForm(classId: string, roster: Option<seq<Student>>, asg: Option<seq<Assignment>>)
      modifies this`students, this`assignments
      ensures !Truthy(classId) ==> students == old(students) && assignments == old(assignments)
      ensures Truthy(classId) ==> students == roster.GetOr([]) && assignments == asg.GetOr([])
    {
      if Truthy(classId) {
        students := roster.GetOr([]);
        assignments := asg.GetOr([]);
      }
    }

    /** Choosing an assignment: build the grade lookup from the class's
      grades and show one row per cached student. */
    method LoadGradesList(assignmentId: string, grades: Option<seq<Grade>>) returns (rows: seq<GradeRow>)
      modifies this`currentGrades
      ensures currentGrades == IndexGrades(grades.GetOr([]), assignmentId)
      ensures rows == GradeForm(students, currentGrades, Raw)
    {
      currentGrades := BuildGradeLookup(grades.GetOr([]), assignmentId);
      rows := GradeForm(students, currentGrades, Raw);
    }

    /** "Save grades": refused unless both a class and an assignment are
      chosen; otherwise one request per row whose marks parse to a
      non-negative number, routed by the current grade lookup. */
    method SaveGrades(classId: string, assignmentId: string, form: seq<GradeRow>)
      returns (error: Option<string>, saves: seq<GradeRequest>)
      ensures !Truthy(classId) || !Truthy(assignmentId) ==>
                error == Some("Please select class and assignment") && saves == []
      ensures Truthy(classId) && Truthy(assignmentId) ==>
                error == None && saves == PlannedSaves(classId, assignmentId, form, currentGrades)
    {
      if !Truthy(classId) || !Truthy(assignmentId) {
        return Some("Please select class and assignment"), [];
      }
      error := None;
      saves := [];
      ghost var planned := RowRequests(classId, assignmentId, form, currentGrades);
      var i := 0;
      while i < |form|
        invariant 0 <= i <= |form|
        invariant saves == Collect(planned, i)
      {
        var request := RowRequest(classId, assignmentId, form, i, currentGrades);
        CollectStep(planned, i);
        if request.Some? {
          saves := saves + [request.value];
        }
        i := i + 1;
      }
    }
  }
}
