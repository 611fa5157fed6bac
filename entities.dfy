/** The records the backend returns, as the front end reads them. Every
    identity is the string the page puts into `data-student-id`
    attributes, `<option>` values and request paths. */
module Entities {
  import opened Base

  datatype ClassSection = ClassSection(id: string, name: string, section: string, subject: string)

  datatype Student = Student(id: string, name: string, rollNo: string, classId: string)

  /** One attendance mark; `status` is whatever string the backend stored
      and `reason` may be missing. */
  datatype AttendanceRecord = AttendanceRecord(studentId: string, date: string, status: string, reason: Option<string>)

  datatype Assignment = Assignment(id: string, classId: string, title: string)

  /** A stored grade; `id` is missing for a grade that was never saved. */
  datatype Grade = Grade(id: Option<string>, assignmentId: string, studentId: string, marksObtained: int, feedback: string)

  /** `grade.id` is truthy. */
  predicate HasId(g: Grade) {
    g.id.Some? && Truthy(g.id.value)
  }
}
