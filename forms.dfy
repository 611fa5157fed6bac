/** The page title lookup and the required-field rules of the modal
    forms: the account request (with its subject list), a new assignment
    (with its total-marks default) and a parent-teacher meeting. */
module Forms {
  import opened Base
  import opened JsText

  // ---------------------------------------------------------------------
  // Page titles

  /** The header title of each page. */
  const Titles: map<string, string> := map[
    "dashboard" := "Dashboard",
    "classes" := "My Classes",
    "students" := "Students",
    "attendance" := "Mark Attendance",
    "assignments" := "Assignments",
    "gradebook" := "Gradebook",
    "analytics" := "Analytics",
    "resources" := "Learning Resources",
    "communications" := "Messages & Announcements",
    "meetings" := "Parent-Teacher Meetings",
    "request-account" := "Request Account"
  ]

  /** `titles[page] || 'Dashboard'`: a known page's title, "Dashboard" for
      any other page; never an empty title. */
  function PageTitle(page: string): (title: string)
    ensures page in Titles ==> title == Titles[page]
    ensures page !in Titles ==> title == "Dashboard"
    ensures Truthy(title) && title in Titles.Values
  {
    assert Titles["dashboard"] == "Dashboard";
    if page in Titles && Truthy(Titles[page]) then Titles[page] else "Dashboard"
  }

  // ---------------------------------------------------------------------
  // The account request

  /** Each piece trimmed, in order. */
  function TrimAll(pieces: seq<string>): (r: seq<string>)
    ensures |r| == |pieces|
    ensures forall i :: 0 <= i < |r| ==> r[i] == Trim(pieces[i])
  {
    seq(|pieces|, i requires 0 <= i < |pieces| => Trim(pieces[i]))
  }

  /** Which pieces are non-empty. */
  function NonEmptyFlags(pieces: seq<string>): (flags: seq<bool>)
    ensures |flags| == |pieces|
    ensures forall i :: 0 <= i < |pieces| ==> (flags[i] <==> pieces[i] != [])
  {
    seq(|pieces|, i requires 0 <= i < |pieces| => pieces[i] != [])
  }

  /** `filter(Boolean)`: every non-empty piece, in order, and nothing else;
      the `j`-th kept piece is the one at the `j`-th non-empty position. */
  function DropEmpty(pieces: seq<string>): (r: seq<string>)
    ensures var idx := Positions(NonEmptyFlags(pieces), |pieces|);
            |r| == |idx| && forall j :: 0 <= j < |idx| ==> r[j] == pieces[idx[j]]
    ensures forall i :: 0 <= i < |pieces| && pieces[i] != [] ==> pieces[i] in r
    ensures forall p :: p in r ==> p in pieces && p != []
  {
    var r := Filter(pieces, NonEmptyFlags(pieces));
    assert forall p :: p in r ==> p in pieces && p != [] by {
      var idx := Positions(NonEmptyFlags(pieces), |pieces|);
      forall p | p in r ensures p in pieces && p != [] {
        var j :| 0 <= j < |r| && r[j] == p;
        assert r[j] == pieces[idx[j]];
      }
    }
    r
  }

  /** A subject as the request carries it: non-empty, trimmed and free of
      commas. */
  predicate IsSubject(p: string) {
    p != [] && IsTrimmed(p) && ',' !in p
  }

  /** The subjects input: split on commas, each piece trimmed, empty
      pieces dropped. Every subject is non-empty, trimmed and comma-free,
      and the subjects are exactly the trimmed pieces that are not blank,
      in input order. */
  function ParseSubjects(input: string): (subjects: seq<string>)
    ensures forall p :: p in subjects ==> IsSubject(p)
    ensures var trimmed := TrimAll(Split(input, ','));
            var idx := Positions(NonEmptyFlags(trimmed), |trimmed|);
            |subjects| == |idx| && forall j :: 0 <= j < |idx| ==> subjects[j] == trimmed[idx[j]]
    ensures forall piece :: piece in Split(input, ',') && Trim(piece) != [] ==> Trim(piece) in subjects
  {
    var pieces := Split(input, ',');
    var trimmed := TrimAll(pieces);
    TrimmedPieces(pieces, ',');
    var subjects := DropEmpty(trimmed);
    assert forall piece :: piece in pieces && Trim(piece) != [] ==> Trim(piece) in subjects by {
      forall piece | piece in pieces && Trim(piece) != [] ensures Trim(piece) in subjects {
        var i :| 0 <= i < |pieces| && pieces[i] == piece;
        assert trimmed[i] == Trim(piece);
      }
    }
    subjects
  }

  /** Trimming keeps a piece free of the separator and leaves it trimmed. */
  lemma TrimmedPieces(pieces: seq<string>, sep: char)
    requires forall p :: p in pieces ==> sep !in p
    ensures forall p :: p in TrimAll(pieces) ==> IsTrimmed(p) && sep !in p
  {
    var trimmed := TrimAll(pieces);
    forall p | p in trimmed
      ensures IsTrimmed(p) && sep !in p
    {
      var i :| 0 <= i < |trimmed| && trimmed[i] == p;
      assert pieces[i] in pieces;
    }
  }

  /** A blank input gives no subjects. */
  lemma BlankSubjects(input: string)
    requires Trim(input) == []
    ensures ParseSubjects(input) == []
  {
    var pieces := Split(input, ',');
    BlankPiecesTrimEmpty(input, pieces);
    var trimmed := TrimAll(pieces);
    TrimAllBlank(pieces);
    DropEmptyOfEmpties(trimmed);
    assert ParseSubjects(input) == DropEmpty(trimmed);
  }

  lemma TrimAllBlank(pieces: seq<string>)
    requires forall i :: 0 <= i < |pieces| ==> Trim(pieces[i]) == []
    ensures forall p :: p in TrimAll(pieces) ==> p == []
  {
    var trimmed := TrimAll(pieces);
    forall p | p in trimmed ensures p == [] {
      var i :| 0 <= i < |trimmed| && trimmed[i] == p;
      assert Trim(pieces[i]) == [];
    }
  }

  /** Every piece of a string that trims to nothing trims to nothing. */
  lemma BlankPiecesTrimEmpty(input: string, pieces: seq<string>)
    requires Trim(input) == [] && pieces == Split(input, ',')
    ensures forall i :: 0 <= i < |pieces| ==> Trim(pieces[i]) == []
  {
    AllWhitespace(input);
    forall i | 0 <= i < |pieces|
      ensures Trim(pieces[i]) == []
    {
      SplitPieceChars(input, ',', i);
      assert forall c :: c in pieces[i] ==> IsWhitespace(c);
      TrimWhitespace(pieces[i]);
    }
  }

  /** A string that trims to nothing is all whitespace. */
  lemma AllWhitespace(s: string)
    requires Trim(s) == []
    ensures forall c :: c in s ==> IsWhitespace(c)
  {
    assert TrimStart(s) == [];
    forall c | c in s ensures IsWhitespace(c) {
      var i :| 0 <= i < |s| && s[i] == c;
    }
  }

  /** An all-whitespace string trims to nothing. */
  lemma TrimWhitespace(s: string)
    requires forall c :: c in s ==> IsWhitespace(c)
    ensures Trim(s) == []
  {
  }

  /** Each character of a piece of `s` is a character of `s`. */
  lemma {:induction false} SplitPieceChars(s: string, sep: char, i: nat)
    requires i < |Split(s, sep)|
    ensures forall c :: c in Split(s, sep)[i] ==> c in s
    decreases |s|
  {
    if s != [] {
      var rest := Split(s[1..], sep);
      if s[0] == sep {
        if i > 0 {
          SplitPieceChars(s[1..], sep, i - 1);
        }
      } else if i == 0 {
        SplitPieceChars(s[1..], sep, 0);
      } else {
        SplitPieceChars(s[1..], sep, i);
      }
    }
  }

  /** Dropping the empty pieces of all-empty pieces leaves nothing. */
  lemma DropEmptyOfEmpties(pieces: seq<string>)
    requires forall p :: p in pieces ==> p == []
    ensures DropEmpty(pieces) == []
  {
    var flags := NonEmptyFlags(pieces);
    assert forall i :: 0 <= i < |pieces| ==> !flags[i] by {
      forall i | 0 <= i < |pieces| ensures !flags[i] {
        assert pieces[i] in pieces;
      }
    }
    PositionsNone(flags, |pieces|);
  }

  lemma {:induction false} TrimAllOfTrimmed(pieces: seq<string>)
    requires forall p :: p in pieces ==> IsTrimmed(p)
    ensures TrimAll(pieces) == pieces
  {
    forall i | 0 <= i < |pieces| ensures TrimAll(pieces)[i] == pieces[i] {
      assert pieces[i] in pieces;
      TrimFixesTrimmed(pieces[i]);
    }
  }

  /** Non-empty pieces are all kept, in order. */
  lemma DropEmptyOfNonEmpty(pieces: seq<string>)
    requires forall p :: p in pieces ==> p != []
    ensures DropEmpty(pieces) == pieces
  {
    var flags := NonEmptyFlags(pieces);
    assert forall i :: 0 <= i < |pieces| ==> flags[i] by {
      forall i | 0 <= i < |pieces| ensures flags[i] {
        assert pieces[i] in pieces;
      }
    }
    PositionsAll(flags, |pieces|);
  }

  /** A list of subjects written out with commas reads back as that list. */
  lemma SubjectsRoundTrip(subjects: seq<string>)
    requires |subjects| >= 1
    requires forall p :: p in subjects ==> IsSubject(p)
    ensures ParseSubjects(Join(subjects, ',')) == subjects
  {
    SplitJoin(subjects, ',');
    TrimAllOfTrimmed(subjects);
    DropEmptyOfNonEmpty(subjects);
  }

  /** `POST /teacher-requests` with its body. */
  datatype TeacherRequest = TeacherRequest(name: string, school: string, email: string, subjects: seq<string>)

  /** "Request account": refused unless a name and a school are given (as
      typed, not trimmed); the subjects are parsed from their input. */
  function AccountRequest(name: string, school: string, email: string, subjectsInput: string): (r: Result<TeacherRequest>)
    ensures r.Err? <==> !Truthy(name) || !Truthy(school)
    ensures r.Err? ==> r.message == "Name and school are required"
    ensures r.Ok? ==> r.value.name == name && r.value.school == school && r.value.email == email
    ensures r.Ok? ==> r.value.subjects == ParseSubjects(subjectsInput)
  {
    var subjects := ParseSubjects(subjectsInput);
    if !Truthy(name) || !Truthy(school) then Err("Name and school are required")
    else Ok(TeacherRequest(name, school, email, subjects))
  }

  // ---------------------------------------------------------------------
  // A new assignment

  /** `parseInt(input) || 100`: the typed total, or 100 when the input does
      not read as a number or reads as 0. */
  function TotalMarks(input: string): (total: int)
    ensures total != 0
    ensures ParseInt(input).Some? && ParseInt(input).value != 0 ==> total == ParseInt(input).value
    ensures ParseInt(input).None? || ParseInt(input) == Some(0) ==> total == 100
  {
    match ParseInt(input)
    case Some(n) => if n != 0 then n else 100
    case None => 100
  }

  /** A typed non-zero total is kept, a typed 0 becomes 100, and an empty
      input gives 100. */
  lemma TotalMarksOfTyped(n: int)
    ensures n != 0 ==> TotalMarks(IntToDecimal(n)) == n
    ensures TotalMarks(IntToDecimal(0)) == 100
    ensures TotalMarks("") == 100
  {
    ParseIntRendering(n);
    ParseIntRendering(0);
    ParseIntNaN("");
  }

  /** `POST /classes/{classId}/assignments` with its body. */
  datatype AssignmentRequest = AssignmentRequest(path: string, title: string, description: string, dueDate: string, totalMarks: int)

  /** "Create assignment": refused unless a class is chosen and the title
      and due date are non-blank; the text fields are sent trimmed. */
  function CreateAssignment(classId: string, title: string, description: string, dueDate: string, total: string)
    : (r: Result<AssignmentRequest>)
    ensures r.Err? <==> !Truthy(classId) || Trim(title) == [] || Trim(dueDate) == []
    ensures r.Err? ==> r.message == "Please fill class, title and due date"
    ensures r.Ok? ==> r.value.path == "/classes/" + classId + "/assignments"
    ensures r.Ok? ==> r.value.title == Trim(title) && r.value.description == Trim(description)
                      && r.value.dueDate == Trim(dueDate)
    ensures r.Ok? ==> IsTrimmed(r.value.title) && r.value.title != [] && IsTrimmed(r.value.dueDate)
    ensures r.Ok? ==> r.value.totalMarks == TotalMarks(total)
  {
    var t := Trim(title);
    var d := Trim(description);
    var due := Trim(dueDate);
    var marks := TotalMarks(total);
    if !Truthy(classId) || !Truthy(t) || !Truthy(due) then Err("Please fill class, title and due date")
    else Ok(AssignmentRequest("/classes/" + classId + "/assignments", t, d, due, marks))
  }

  // ---------------------------------------------------------------------
  // A parent-teacher meeting

  /** `POST /classes/{classId}/meetings` with its body. */
  datatype MeetingRequest = MeetingRequest(path: string, studentId: string, parentName: string, scheduledDate: string)

  /** "Schedule meeting": refused unless a class and a student are chosen
      and the parent name and date are non-blank; those two are sent
      trimmed. */
  function ScheduleMeeting(classId: string, studentId: string, parentName: string, scheduledDate: string)
    : (r: Result<MeetingRequest>)
    ensures r.Err? <==> !Truthy(classId) || !Truthy(studentId) || Trim(parentName) == [] || Trim(scheduledDate) == []
    ensures r.Err? ==> r.message == "Please fill all fields"
    ensures r.Ok? ==> r.value.path == "/classes/" + classId + "/meetings" && r.value.studentId == studentId
    ensures r.Ok? ==> r.value.parentName == Trim(parentName) && r.value.scheduledDate == Trim(scheduledDate)
    ensures r.Ok? ==> IsTrimmed(r.value.parentName) && r.value.parentName != []
  {
    var parent := Trim(parentName);
    var date := Trim(scheduledDate);
    if !Truthy(classId) || !Truthy(studentId) || !Truthy(parent) || !Truthy(date) then Err("Please fill all fields")
    else Ok(MeetingRequest("/classes/" + classId + "/meetings", studentId, parent, date))
  }
}
