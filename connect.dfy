/** The "connect student to class" modal: two page-level variables (the
    target class and the picked student), the listed student rows with at
    most one of them highlighted, and the request "Connect" sends. */
module ConnectFlow {
  import opened Base
  import opened Entities

  /** `PUT /students/{studentId}` with body `{ classId }`. */
  datatype StudentMove = StudentMove(path: string, classId: string)

  /** A variable holding a truthy id. */
  predicate IsSet(v: Option<string>) {
    v.Some? && Truthy(v.value)
  }

  /** What "Connect" does with the two variables: a missing target class is
      reported first, then a missing student; otherwise the student is
      moved to the target class. */
  function ConnectRequest(target: Option<string>, selected: Option<string>): (r: Result<StudentMove>)
    ensures r.Err? <==> !IsSet(target) || !IsSet(selected)
    ensures !IsSet(target) ==> r == Err("No target class")
    ensures IsSet(target) && !IsSet(selected) ==> r == Err("Select a student first")
    ensures r.Ok? ==> r.value.path == "/students/" + selected.value && r.value.classId == target.value
  {
    if !IsSet(target) then Err("No target class")
    else if !IsSet(selected) then Err("Select a student first")
    else Ok(StudentMove("/students/" + selected.value, target.value))
  }

  /** The ids of the rows the modal lists: every fetched student, in order. */
  function StudentIds(students: seq<Student>): (ids: seq<string>)
    ensures |ids| == |students|
    ensures forall i :: 0 <= i < |ids| ==> ids[i] == students[i].id
  {
    seq(|students|, i requires 0 <= i < |students| => students[i].id)
  }

  class ConnectModal {
    /** The class the modal was opened for. */
    var target: Option<string>
    /** The student last clicked. */
    var selected: Option<string>
    /** The modal is displayed. */
    var shown: bool
    /** The student ids of the listed rows, in order. */
    var rows: seq<string>
    /** The positions of the rows carrying the `selected` class. */
    var highlighted: set<nat>

    /** At most one row is highlighted, and a picked student is the student
        of the highlighted row of a displayed modal. */
    ghost predicate Valid()
      reads this
    {
      (forall i :: i in highlighted ==> i < |rows|)
      && |highlighted| <= 1
      && (selected.Some? ==> shown && target.Some?
                             && exists i :: i in highlighted && rows[i] == selected.value)
    }

    /** Both variables start out `null` and nothing is listed. */
    constructor ()
      ensures Valid()
      ensures target == None && selected == None && !shown && rows == [] && highlighted == {}
    {
      target, selected, shown := None, None, false;
      rows, highlighted := [], {};
    }

    /** Opening for a class: record it, forget any pick, show the modal and
        list the fetched students (a failed fetch lists none); the list is
        rebuilt, so no row is highlighted. */
    method Open(classId: string, students: Option<seq<Student>>)
      modifies this
      ensures Valid()
      ensures target == Some(classId) && selected == None && shown
      ensures rows == StudentIds(students.GetOr([])) && highlighted == {}
    {
      target := Some(classId);
      selected := None;
      shown := true;
      rows := StudentIds(students.GetOr([]));
      highlighted := {};
    }

    /** Clicking a listed row: un-highlight every row, highlight this one
        and pick its student. */
    method ClickRow(i: nat)
      requires Valid() && shown && target.Some? && i < |rows|
      modifies this`highlighted, this`selected
      ensures Valid()
      ensures highlighted == {i} && selected == Some(rows[i])
    {
      highlighted := {};
      highlighted := highlighted + {i};
      selected := Some(rows[i]);
    }

    /** "Cancel": hide the modal and reset both variables; the rows keep
        their highlight. */
    method Close()
      requires Valid()
      modifies this`shown, this`target, this`selected
      ensures Valid()
      ensures !shown && target == None && selected == None
    {
      shown := false;
      target := None;
      selected := None;
    }

    /** "Connect": refused with a message when a variable is unset, without
        any request; otherwise the move is sent and, when the backend
        answers with the updated student, the modal closes; when it does
        not, a failure message is shown and the modal stays as it was. */
    method Submit(updated: bool) returns (request: Option<StudentMove>, error: Option<string>)
      requires Valid()
      modifies this`shown, this`target, this`selected
      ensures Valid()
      ensures ConnectRequest(old(target), old(selected)).Err? ==>
                request == None && error == Some(ConnectRequest(old(target), old(selected)).message)
                && shown == old(shown) && target == old(target) && selected == old(selected)
      ensures ConnectRequest(old(target), old(selected)).Ok? ==>
                request == Some(ConnectRequest(old(target), old(selected)).value)
      ensures ConnectRequest(old(target), old(selected)).Ok? && updated ==>
                error == None && !shown && target == None && selected == None
      ensures ConnectRequest(old(target), old(selected)).Ok? && !updated ==>
                error == Some("Failed to connect student")
                && shown == old(shown) && target == old(target) && selected == old(selected)
    {
      var r := ConnectRequest(target, selected);
      if r.Err? {
        return None, Some(r.message);
      }
      request := Some(r.value);
      if updated {
        error := None;
        Close();
      } else {
        error := Some("Failed to connect student");
      }
    }
  }

  /** Opening the modal and clicking two rows leaves only the second one
      highlighted, and "Connect" then moves the second student; opening it
      and pressing "Connect" without a click sends nothing. */
  method PickTwiceThenConnect(classId: string, students: seq<Student>, x: nat, y: nat)
    returns (highlightedRows: set<nat>, request: Option<StudentMove>,
             unpickedRequest: Option<StudentMove>, unpickedError: Option<string>)
    requires Truthy(classId) && x < |students| && y < |students| && Truthy(students[y].id)
    ensures highlightedRows == {y}
    ensures request == Some(StudentMove("/students/" + students[y].id, classId))
    ensures unpickedRequest == None && unpickedError == Some("Select a student first")
  {
    var modal := new ConnectModal();
    modal.Open(classId, Some(students));
    modal.ClickRow(x);
    modal.ClickRow(y);
    highlightedRows := modal.highlighted;
    var connectError;
    request, connectError := modal.Submit(true);
    modal.Open(classId, Some(students));
    unpickedRequest, unpickedError := modal.Submit(true);
  }
}
