/** Registration and attendance by face: the student store, the nearest-face search, and the
    two handlers as a step machine whose requests interleave freely. */
module FaceAttendance {

  import opened Options
  import opened Ordering

  type Photo = int

  datatype Form = Form(name: string, email: string, number: string, department: string)

  datatype Student = Student(form: Form, photoUrl: string)

  type Students = map<string, Student>

  datatype Row = Row(student: string, at: int)

  // ---------------------------------------------------------------- the store

  /** The primary key and the two unique columns. */
  predicate Admissible(students: Students, id: string, st: Student) {
    && id !in students
    && forall other :: other in students ==>
         students[other].form.email != st.form.email && students[other].form.number != st.form.number
  }

  /** A row joined with the name of its student. */
  datatype Record = Record(row: Row, name: string)

  /** Rows of unknown students drop out of the join. */
  function Join(rows: seq<Row>, students: Students): seq<Record> {
    if rows == [] then []
    else
      var r := rows[|rows| - 1];
      Join(rows[..|rows| - 1], students) +
      (if r.student in students then [Record(r, students[r.student].form.name)] else [])
  }

  class Store {
    var students: Students
    var attendance: seq<Row>

    constructor ()
      ensures students == map[] && attendance == []
    {
      students, attendance := map[], [];
    }

    method CreateStudent(id: string, st: Student, up: bool) returns (ok: bool)
      modifies this`students
      ensures ok <==> up && id !in old(students) && forall other :: other in old(students) ==>
                old(students)[other].form.email != st.form.email && old(students)[other].form.number != st.form.number
      ensures students == if ok then old(students)[id := st] else old(students)
    {
      if !up || !Admissible(students, id, st) {
        return false;
      }
      students := students[id := st];
      return true;
    }

    method GetStudentByID(id: string) returns (r: Option<Student>)
      ensures r == if id in students then Some(students[id]) else None
    {
      if id in students {
        return Some(students[id]);
      }
      return None;
    }

    method MarkAttendance(id: string, at: int, up: bool) returns (ok: bool)
      modifies this`attendance
      ensures ok == up
      ensures attendance == if up then old(attendance) + [Row(id, at)] else old(attendance)
    {
      if up {
        attendance := attendance + [Row(id, at)];
      }
      return up;
    }
  }

  // ---------------------------------------------------------------- the nearest face

  datatype Verdict = NoneRegistered | NoFaceInPhoto | Matched(id: string, distance: real) | Unmatched

  /** The first of the nearest faces that could be compared. */
  ghost predicate IsNearest(distances: seq<Option<real>>, i: int) {
    && 0 <= i < |distances| && distances[i].Some?
    && (forall j :: 0 <= j < |distances| && distances[j].Some? ==> distances[i].value <= distances[j].value)
    && (forall j :: 0 <= j < i && distances[j].Some? ==> distances[i].value < distances[j].value)
  }

  /** Its position, if any face could be compared. */
  function Nearest(distances: seq<Option<real>>): (r: Option<nat>)
    ensures r.Some? ==> r.value < |distances| && distances[r.value].Some?
  {
    if distances == [] then None
    else
      var n := |distances| - 1;
      var before := Nearest(distances[..n]);
      if distances[n].Some? && (before.None? || distances[n].value < distances[before.value].value)
      then Some(n) else before
  }

  lemma {:induction false} NearestExactly(distances: seq<Option<real>>, i: int)
    ensures IsNearest(distances, i) <==> i >= 0 && Nearest(distances) == Some(i)
    ensures Nearest(distances).None? <==> forall j :: 0 <= j < |distances| ==> distances[j].None?
  {
    if distances != [] {
      var n := |distances| - 1;
      var before := Nearest(distances[..n]);
      if before.Some? {
        NearestExactly(distances[..n], before.value);
        assert IsNearest(distances[..n], before.value);
      }
      NearestExactly(distances[..n], i);
      assert forall j :: 0 <= j < n ==> distances[..n][j] == distances[j];
    }
  }

  /** What the face service answers.  `registered` lists the registered identifiers in directory
      order; a distance is None when the comparison raised an error. */
  function Judge(registered: seq<string>, detected: bool, distances: seq<Option<real>>, threshold: real): Verdict
    requires |distances| == |registered|
  {
    if registered == [] then NoneRegistered
    else if !detected then NoFaceInPhoto
    else
      match Nearest(distances)
      case None => Unmatched
      case Some(i) =>
        if registered[i] != "" && distances[i].value <= threshold
        then Matched(registered[i], distances[i].value) else Unmatched
  }

  /** A match is the first of the nearest comparable faces, within the threshold; without one
      there is no such face, or none to compare with. */
  lemma JudgeMeans(registered: seq<string>, detected: bool, distances: seq<Option<real>>, threshold: real)
    requires |distances| == |registered|
    ensures var v := Judge(registered, detected, distances, threshold);
            && (v.NoneRegistered? <==> registered == [])
            && (v.NoFaceInPhoto? <==> registered != [] && !detected)
            && (v.Matched? <==> registered != [] && detected && exists i ::
                  IsNearest(distances, i) && registered[i] != "" && distances[i].value <= threshold)
            && (forall i :: v.Matched? && IsNearest(distances, i) ==> v == Matched(registered[i], distances[i].value))
  {
    forall i ensures IsNearest(distances, i) <==> i >= 0 && Nearest(distances) == Some(i) {
      NearestExactly(distances, i);
    }
  }

  method RecognizeFace(registered: seq<string>, detected: bool, distances: seq<Option<real>>, threshold: real)
    returns (v: Verdict)
    requires |distances| == |registered|
    ensures v == Judge(registered, detected, distances, threshold)
  {
    if |registered| == 0 {
      return NoneRegistered;
    }
    if !detected {
      return NoFaceInPhoto;
    }
    var best: Option<string> := None;
    var bestDistance := 0.0;
    for i := 0 to |registered|
      invariant best.Some? <==> Nearest(distances[..i]).Some?
      invariant best.Some? ==>
                  var at := Nearest(distances[..i]).value;
                  best.value == registered[at] && bestDistance == distances[at].value
    {
      assert distances[..i + 1][..i] == distances[..i];
      if distances[i].Some? {
        var distance := distances[i].value;
        if best.None? || distance < bestDistance {
          bestDistance := distance;
          best := Some(registered[i]);
        }
      }
    }
    assert distances[..|registered|] == distances;
    if best.Some? && best.value != "" && bestDistance <= threshold {
      return Matched(best.value, bestDistance);
    }
    return Unmatched;
  }

  // ---------------------------------------------------------------- the handlers

  /** Where a request is. */
  datatype Phase =
    | Registering(form: Form, photo: Photo, photoUrl: string)
    | FaceDue(id: string, photo: Photo)
    | Recognizing(photo: Photo)
    | Recognized(id: string)
    | Marking(id: string)
    | Done

  /** `faces` is the directory of the face service; `authors` is the request behind each row. */
  datatype State = State(students: Students, faces: map<string, Photo>, attendance: seq<Row>,
                         authors: seq<nat>, requests: map<nat, Phase>)

  /** One statement of one request.  `up` or `saved` says whether the store or the face service
      carried it out, `heard` whether the handler learned that; `upload` is None when the photo could not be stored. */
  datatype Move =
    | BeginRegister(form: Form, photo: Photo, upload: Option<string>)
    | CreateStudent(id: string, up: bool, heard: bool)
    | RegisterFace(saved: bool)
    | BeginLogin(photo: Photo)
    | Recognize(registered: seq<string>, detected: bool, distances: seq<Option<real>>)
    | RecognizeFails
    | FindStudent(up: bool)
    | MarkAttendance(at: int, up: bool)

  datatype Label = Label(r: nat, move: Move)

  /** The directory listed in some order, with one comparison for each face. */
  ghost predicate Lists(registered: seq<string>, distances: seq<Option<real>>, faces: map<string, Photo>) {
    && |distances| == |registered|
    && Distinct(registered) && forall id :: id in registered <==> id in faces
  }

  predicate FormOk(f: Form) {
    f.name != "" && f.email != "" && f.number != ""
  }

  ghost function Step(threshold: real, s: State, l: Label): Option<State> {
    var r := l.r;
    match l.move
    case BeginRegister(form, photo, upload) =>
      if r in s.requests then None
      else
        var p := if FormOk(form) && upload.Some? then Registering(form, photo, upload.value) else Done;
        Some(s.(requests := s.requests[r := p]))
    case BeginLogin(photo) =>
      if r in s.requests then None else Some(s.(requests := s.requests[r := Recognizing(photo)]))
    case _ => if r in s.requests then Continue(threshold, s, r, s.requests[r], l.move) else None
  }

  ghost function Continue(threshold: real, s: State, r: nat, p: Phase, move: Move): Option<State> {
    match move
    case CreateStudent(id, up, heard) =>
      if !p.Registering? then None
      else
        var st := Student(p.form, p.photoUrl);
        if up && Admissible(s.students, id, st)
        then Some(s.(students := s.students[id := st],
                     requests := s.requests[r := if heard then FaceDue(id, p.photo) else Done]))
        else Some(s.(requests := s.requests[r := Done]))
    case RegisterFace(saved) =>
      if !p.FaceDue? then None
      else Some(s.(faces := if saved then s.faces[p.id := p.photo] else s.faces, requests := s.requests[r := Done]))
    case Recognize(registered, detected, distances) =>
      if !p.Recognizing? || !Lists(registered, distances, s.faces) then None
      else
        var v := Judge(registered, detected, distances, threshold);
        Some(s.(requests := s.requests[r := if v.Matched? then Recognized(v.id) else Done]))
    case RecognizeFails => if p.Recognizing? then Some(s.(requests := s.requests[r := Done])) else None
    case FindStudent(up) =>
      if !p.Recognized? then None
      else
        var next := if up && p.id in s.students then Marking(p.id) else Done;
        Some(s.(requests := s.requests[r := next]))
    case MarkAttendance(at, up) =>
      if !p.Marking? then None
      else if up then Some(s.(attendance := s.attendance + [Row(p.id, at)], authors := s.authors + [r],
                              requests := s.requests[r := Done]))
      else Some(s.(requests := s.requests[r := Done]))
    case _ => None
  }

  ghost function Exec(threshold: real, ls: seq<Label>): Option<State> {
    if ls == [] then Some(State(map[], map[], [], [], map[]))
    else
      match Exec(threshold, ls[..|ls| - 1])
      case None => None
      case Some(s) => Step(threshold, s, ls[|ls| - 1])
  }

  // ---------------------------------------------------------------- what every run keeps

  ghost predicate UniqueStudents(students: Students) {
    forall a, b :: a in students && b in students && a != b ==>
      students[a].form.email != students[b].form.email && students[a].form.number != students[b].form.number
  }

  /** A login that has recognized its student. */
  predicate Past(p: Phase) {
    p.Recognized? || p.Marking?
  }

  /** A request past its first statement names a stored student. */
  predicate PhaseOk(p: Phase, students: Students) {
    p.FaceDue? || Past(p) ==> p.id in students
  }

  ghost predicate RequestsOk(requests: map<nat, Phase>, students: Students) {
    forall r :: r in requests ==> PhaseOk(requests[r], students)
  }

  ghost predicate RowsOk(rows: seq<Row>, students: Students) {
    forall i :: 0 <= i < |rows| ==> rows[i].student in students
  }

  /** Each row was written by a request of its own, which is done. */
  ghost predicate AuthorsOk(s: State) {
    && |s.authors| == |s.attendance| && Distinct(s.authors)
    && forall i :: 0 <= i < |s.authors| ==> s.authors[i] in s.requests && s.requests[s.authors[i]].Done?
  }

  ghost predicate Inv(s: State) {
    && s.faces.Keys <= s.students.Keys
    && UniqueStudents(s.students)
    && RequestsOk(s.requests, s.students)
    && RowsOk(s.attendance, s.students)
    && AuthorsOk(s)
  }

  lemma StudentAdded(s: State, id: string, st: Student)
    requires Inv(s) && Admissible(s.students, id, st)
    ensures Inv(s.(students := s.students[id := st]))
  {
  }

  lemma MatchedIsRegistered(registered: seq<string>, detected: bool, distances: seq<Option<real>>,
                            threshold: real, faces: map<string, Photo>)
    requires Lists(registered, distances, faces)
    ensures var v := Judge(registered, detected, distances, threshold);
            v.Matched? ==> v.id in faces
  {
  }

  /** A request that was not done moves to a phase that is in order. */
  lemma RequestMoves(s: State, r: nat, p: Phase)
    requires Inv(s) && r !in s.authors && PhaseOk(p, s.students)
    ensures Inv(s.(requests := s.requests[r := p]))
  {
  }

  lemma RowAdded(s: State, r: nat, row: Row)
    requires Inv(s) && r !in s.authors && row.student in s.students
    ensures Inv(s.(attendance := s.attendance + [row], authors := s.authors + [r], requests := s.requests[r := Done]))
  {
  }

  lemma ContinueKeepsInv(threshold: real, s: State, r: nat, move: Move)
    requires Inv(s) && r in s.requests && Continue(threshold, s, r, s.requests[r], move).Some?
    ensures Inv(Continue(threshold, s, r, s.requests[r], move).value)
  {
    var p := s.requests[r];
    var s' := Continue(threshold, s, r, p, move).value;
    assert PhaseOk(p, s.students) && r !in s.authors;
    match move {
      case CreateStudent(id, up, heard) =>
        var st := Student(p.form, p.photoUrl);
        if up && Admissible(s.students, id, st) {
          StudentAdded(s, id, st);
          RequestMoves(s.(students := s.students[id := st]), r, if heard then FaceDue(id, p.photo) else Done);
        } else {
          RequestMoves(s, r, Done);
        }
      case Recognize(registered, detected, distances) =>
        MatchedIsRegistered(registered, detected, distances, threshold, s.faces);
        RequestMoves(s, r, s'.requests[r]);
      case MarkAttendance(at, up) =>
        if up {
          RowAdded(s, r, Row(p.id, at));
        } else {
          RequestMoves(s, r, Done);
        }
      case RegisterFace(saved) =>
        RequestMoves(s.(faces := s'.faces), r, Done);
      case RecognizeFails => RequestMoves(s, r, Done);
      case FindStudent(_) => RequestMoves(s, r, s'.requests[r]);
      case _ =>
    }
  }

  lemma StepKeepsInv(threshold: real, s: State, l: Label)
    requires Inv(s) && Step(threshold, s, l).Some?
    ensures Inv(Step(threshold, s, l).value)
  {
    if l.move.BeginRegister? || l.move.BeginLogin? {
      assert l.r !in s.authors;
      RequestMoves(s, l.r, Step(threshold, s, l).value.requests[l.r]);
    } else {
      ContinueKeepsInv(threshold, s, l.r, l.move);
    }
  }

  /** In every interleaving of registrations and logins, with arbitrary failures: registered
      faces belong to students, students are unique by e-mail and number, every attendance row
      names a student, and no request writes two rows. */
  lemma {:induction false} EveryRunIsSound(threshold: real, ls: seq<Label>)
    requires Exec(threshold, ls).Some?
    ensures Inv(Exec(threshold, ls).value)
  {
    if ls != [] {
      EveryRunIsSound(threshold, ls[..|ls| - 1]);
      StepKeepsInv(threshold, Exec(threshold, ls[..|ls| - 1]).value, ls[|ls| - 1]);
    }
  }

  // ---------------------------------------------------------------- what is behind a row

  /** Label n of the run compares a photo of request r with all faces registered at that point;
      the first of the nearest is that of `id`, and it is within the threshold. */
  ghost predicate RecognizedAt(threshold: real, ls: seq<Label>, n: int, r: nat, id: string) {
    && 0 <= n < |ls| && ls[n].r == r && ls[n].move.Recognize? && ls[n].move.detected
    && Exec(threshold, ls[..n]).Some?
    && var m := ls[n].move;
    && Lists(m.registered, m.distances, Exec(threshold, ls[..n]).value.faces)
    && exists i :: IsNearest(m.distances, i) && m.registered[i] == id && m.distances[i].value <= threshold
  }

  /** Request r was recognized as the row's student and later wrote the row. */
  ghost predicate WrittenAfter(threshold: real, ls: seq<Label>, n: int, m: int, r: nat, row: Row) {
    && RecognizedAt(threshold, ls, n, r, row.student)
    && n < m < |ls| && ls[m] == Label(r, MarkAttendance(row.at, true))
  }

  ghost predicate WasRecognized(threshold: real, ls: seq<Label>, r: nat, id: string) {
    exists n :: RecognizedAt(threshold, ls, n, r, id)
  }

  ghost predicate WasWritten(threshold: real, ls: seq<Label>, r: nat, row: Row) {
    exists n, m :: WrittenAfter(threshold, ls, n, m, r, row)
  }

  /** Every request past recognition was recognized, and every row was written after that. */
  ghost predicate Traced(threshold: real, ls: seq<Label>, s: State) {
    && (forall r :: r in s.requests && Past(s.requests[r]) ==>
          WasRecognized(threshold, ls, r, s.requests[r].id))
    && |s.authors| == |s.attendance|
    && forall i :: 0 <= i < |s.authors| ==> WasWritten(threshold, ls, s.authors[i], s.attendance[i])
  }

  lemma LongerRun(threshold: real, ls: seq<Label>, n: int, r: nat, id: string)
    requires ls != [] && RecognizedAt(threshold, ls[..|ls| - 1], n, r, id)
    ensures RecognizedAt(threshold, ls, n, r, id)
  {
    assert ls[..|ls| - 1][..n] == ls[..n] && ls[..|ls| - 1][n] == ls[n];
  }

  lemma JustRecognized(threshold: real, ls: seq<Label>, s: State, s': State)
    requires ls != [] && Exec(threshold, ls[..|ls| - 1]) == Some(s) && Exec(threshold, ls) == Some(s')
    requires ls[|ls| - 1].move.Recognize? && Past(s'.requests[ls[|ls| - 1].r])
    ensures RecognizedAt(threshold, ls, |ls| - 1, ls[|ls| - 1].r, s'.requests[ls[|ls| - 1].r].id)
  {
    var m := ls[|ls| - 1].move;
    JudgeMeans(m.registered, m.detected, m.distances, threshold);
  }

  /** How one step changes the requests past recognition and the rows. */
  lemma StepTraces(threshold: real, s: State, l: Label)
    requires Step(threshold, s, l).Some?
    ensures var s' := Step(threshold, s, l).value;
            && l.r in s'.requests && s'.requests == s.requests[l.r := s'.requests[l.r]]
            && (Past(s'.requests[l.r]) && !l.move.Recognize? ==>
                  l.r in s.requests && Past(s.requests[l.r]) && s.requests[l.r].id == s'.requests[l.r].id)
            && ((s'.authors == s.authors && s'.attendance == s.attendance) ||
                (l.r in s.requests && Past(s.requests[l.r]) && l.move.MarkAttendance? && l.move.up && s'.authors == s.authors + [l.r] &&
                 s'.attendance == s.attendance + [Row(s.requests[l.r].id, l.move.at)]))
  {
  }

  lemma RequestsTraced(threshold: real, ls: seq<Label>, s: State, s': State, r: nat)
    requires ls != [] && Exec(threshold, ls[..|ls| - 1]) == Some(s) && Exec(threshold, ls) == Some(s')
    requires Traced(threshold, ls[..|ls| - 1], s) && r in s'.requests && Past(s'.requests[r])
    ensures WasRecognized(threshold, ls, r, s'.requests[r].id)
  {
    var l := ls[|ls| - 1];
    StepTraces(threshold, s, l);
    if r == l.r && l.move.Recognize? {
      JustRecognized(threshold, ls, s, s');
    } else {
      assert WasRecognized(threshold, ls[..|ls| - 1], r, s.requests[r].id);
      var n :| RecognizedAt(threshold, ls[..|ls| - 1], n, r, s.requests[r].id);
      LongerRun(threshold, ls, n, r, s.requests[r].id);
    }
  }

  lemma RowsTraced(threshold: real, ls: seq<Label>, s: State, s': State, i: nat)
    requires ls != [] && Exec(threshold, ls[..|ls| - 1]) == Some(s) && Exec(threshold, ls) == Some(s')
    requires Traced(threshold, ls[..|ls| - 1], s) && i < |s'.authors| == |s'.attendance|
    ensures WasWritten(threshold, ls, s'.authors[i], s'.attendance[i])
  {
    var front, l := ls[..|ls| - 1], ls[|ls| - 1];
    StepTraces(threshold, s, l);
    if i < |s.authors| {
      assert WasWritten(threshold, front, s.authors[i], s.attendance[i]);
      var n, m :| WrittenAfter(threshold, front, n, m, s.authors[i], s.attendance[i]);
      LongerRun(threshold, ls, n, s.authors[i], s.attendance[i].student);
      assert WrittenAfter(threshold, ls, n, m, s'.authors[i], s'.attendance[i]);
    } else {
      assert WasRecognized(threshold, front, l.r, s.requests[l.r].id);
      var n :| RecognizedAt(threshold, front, n, l.r, s.requests[l.r].id);
      LongerRun(threshold, ls, n, l.r, s.requests[l.r].id);
      assert WrittenAfter(threshold, ls, n, |ls| - 1, s'.authors[i], s'.attendance[i]);
    }
  }

  lemma {:induction false} EveryRunIsTraced(threshold: real, ls: seq<Label>)
    requires Exec(threshold, ls).Some?
    ensures Traced(threshold, ls, Exec(threshold, ls).value)
  {
    if ls != [] {
      var front := ls[..|ls| - 1];
      EveryRunIsTraced(threshold, front);
      var s, s' := Exec(threshold, front).value, Exec(threshold, ls).value;
      StepTraces(threshold, s, ls[|ls| - 1]);
      forall r | r in s'.requests && Past(s'.requests[r])
        ensures WasRecognized(threshold, ls, r, s'.requests[r].id)
      {
        RequestsTraced(threshold, ls, s, s', r);
      }
      forall i | 0 <= i < |s'.authors|
        ensures WasWritten(threshold, ls, s'.authors[i], s'.attendance[i])
      {
        RowsTraced(threshold, ls, s, s', i);
      }
    }
  }

  /** Each attendance row of any run has a login of its own: at some point of the run the login's
      photo was compared with all faces then registered, the row's student was the first of the
      nearest and within the threshold, and the login wrote the row after that. */
  lemma EveryRowWasRecognized(threshold: real, ls: seq<Label>, i: nat)
    requires Exec(threshold, ls).Some? && i < |Exec(threshold, ls).value.attendance|
    ensures var s := Exec(threshold, ls).value;
            && |s.authors| == |s.attendance|
            && WasWritten(threshold, ls, s.authors[i], s.attendance[i])
            && forall j :: 0 <= j < |s.authors| && j != i ==> s.authors[j] != s.authors[i]
  {
    EveryRunIsTraced(threshold, ls);
    EveryRunIsSound(threshold, ls);
  }

  /** The face that was recognized always belongs to a stored student. */
  lemma RecognizedStudentIsFound(threshold: real, ls: seq<Label>, r: nat)
    requires Exec(threshold, ls + [Label(r, FindStudent(true))]).Some?
    ensures Exec(threshold, ls).Some? && r in Exec(threshold, ls).value.requests
    ensures Exec(threshold, ls + [Label(r, FindStudent(true))]).value.requests[r].Marking?
  {
    assert (ls + [Label(r, FindStudent(true))])[..|ls|] == ls;
    EveryRunIsSound(threshold, ls);
    var s := Exec(threshold, ls).value;
    assert PhaseOk(s.requests[r], s.students);
  }

  /** Which statement a request makes next; each with any outcome. */
  lemma EveryOutcomeIsPossible(threshold: real, s: State, r: nat, id: string, at: int, up: bool, heard: bool)
    requires r in s.requests
    ensures var p := s.requests[r];
            && (Step(threshold, s, Label(r, CreateStudent(id, up, heard))).Some? <==> p.Registering?)
            && (Step(threshold, s, Label(r, RegisterFace(up))).Some? <==> p.FaceDue?)
            && (Step(threshold, s, Label(r, RecognizeFails)).Some? <==> p.Recognizing?)
            && (Step(threshold, s, Label(r, FindStudent(up))).Some? <==> p.Recognized?)
            && (Step(threshold, s, Label(r, MarkAttendance(at, up))).Some? <==> p.Marking?)
  {
  }

  // ---------------------------------------------------------------- what a request achieves

  lemma ExecMore(threshold: real, ls: seq<Label>, l: Label)
    requires Exec(threshold, ls).Some?
    ensures Exec(threshold, ls + [l]) == Step(threshold, Exec(threshold, ls).value, l)
  {
    assert (ls + [l])[..|ls|] == ls;
  }

  /** After any run, a registration with all fields filled in, a photo that is stored and an
      identifier, e-mail and number not used before adds the student and the face. */
  lemma {:induction false} RegistrationIsStored(threshold: real, ls: seq<Label>, r: nat, form: Form, photo: Photo, url: string, id: string)
    requires Exec(threshold, ls).Some? && r !in Exec(threshold, ls).value.requests
    requires form.name != "" && form.email != "" && form.number != ""
    requires var students := Exec(threshold, ls).value.students;
             id !in students && forall other :: other in students ==>
               students[other].form.email != form.email && students[other].form.number != form.number
    ensures var run := ls + [Label(r, BeginRegister(form, photo, Some(url)))]
                          + [Label(r, CreateStudent(id, true, true))] + [Label(r, RegisterFace(true))];
            Exec(threshold, run).Some? &&
            var s, s' := Exec(threshold, ls).value, Exec(threshold, run).value;
            && s'.students == s.students[id := Student(form, url)]
            && s'.faces == s.faces[id := photo]
            && s'.attendance == s.attendance
  {
    var begun := ls + [Label(r, BeginRegister(form, photo, Some(url)))];
    ExecMore(threshold, ls, Label(r, BeginRegister(form, photo, Some(url))));
    ExecMore(threshold, begun, Label(r, CreateStudent(id, true, true)));
    ExecMore(threshold, begun + [Label(r, CreateStudent(id, true, true))], Label(r, RegisterFace(true)));
  }

  /** A registration that leaves out its name, e-mail or number, or whose photo could not be
      stored, changes nothing and goes no further. */
  lemma {:induction false} RefusedRegistrationEnds(threshold: real, ls: seq<Label>, r: nat, form: Form, photo: Photo,
                                upload: Option<string>, next: Move)
    requires Exec(threshold, ls).Some? && r !in Exec(threshold, ls).value.requests
    requires form.name == "" || form.email == "" || form.number == "" || upload.None?
    ensures var begun := ls + [Label(r, BeginRegister(form, photo, upload))];
            Exec(threshold, begun).Some? &&
            var s, s' := Exec(threshold, ls).value, Exec(threshold, begun).value;
            && s'.students == s.students && s'.faces == s.faces && s'.attendance == s.attendance
            && Exec(threshold, begun + [Label(r, next)]).None?
  {
    var begun := ls + [Label(r, BeginRegister(form, photo, upload))];
    ExecMore(threshold, ls, Label(r, BeginRegister(form, photo, upload)));
    ExecMore(threshold, begun, Label(r, next));
  }

  lemma NearestMatches(registered: seq<string>, distances: seq<Option<real>>, threshold: real, i: int)
    requires |distances| == |registered| && IsNearest(distances, i)
    requires registered[i] != "" && distances[i].value <= threshold
    ensures Judge(registered, true, distances, threshold) == Matched(registered[i], distances[i].value)
  {
    JudgeMeans(registered, true, distances, threshold);
  }

  lemma {:induction false} LoginIsRecognized(threshold: real, ls: seq<Label>, r: nat, photo: Photo, registered: seq<string>,
                          distances: seq<Option<real>>, i: int)
    requires Exec(threshold, ls).Some? && r !in Exec(threshold, ls).value.requests
    requires Lists(registered, distances, Exec(threshold, ls).value.faces) && IsNearest(distances, i)
    requires registered[i] != "" && distances[i].value <= threshold
    ensures var s := Exec(threshold, ls).value;
            Exec(threshold, ls + [Label(r, BeginLogin(photo))] + [Label(r, Recognize(registered, true, distances))])
            == Some(s.(requests := s.requests[r := Recognized(registered[i])]))
  {
    NearestMatches(registered, distances, threshold, i);
    var s := Exec(threshold, ls).value;
    ExecMore(threshold, ls, Label(r, BeginLogin(photo)));
    ExecMore(threshold, ls + [Label(r, BeginLogin(photo))], Label(r, Recognize(registered, true, distances)));
    assert s.requests[r := Recognizing(photo)][r := Recognized(registered[i])] == s.requests[r := Recognized(registered[i])];
  }

  /** After any run, a login whose photo is nearest to a registered face, within the threshold,
      adds a row for the student of that face, and the listing shows it under the student's name. */
  lemma {:induction false} RecognizedLoginIsListed(threshold: real, ls: seq<Label>, r: nat, photo: Photo, registered: seq<string>,
                                distances: seq<Option<real>>, i: int, at: int)
    requires Exec(threshold, ls).Some? && r !in Exec(threshold, ls).value.requests
    requires Lists(registered, distances, Exec(threshold, ls).value.faces) && IsNearest(distances, i)
    requires registered[i] != "" && distances[i].value <= threshold
    ensures var run := ls + [Label(r, BeginLogin(photo))] + [Label(r, Recognize(registered, true, distances))]
                          + [Label(r, FindStudent(true))] + [Label(r, MarkAttendance(at, true))];
            Exec(threshold, run).Some? &&
            var s, s' := Exec(threshold, ls).value, Exec(threshold, run).value;
            && s'.attendance == s.attendance + [Row(registered[i], at)]
            && s'.students == s.students && s'.faces == s.faces && registered[i] in s.students
            && Join(s'.attendance, s'.students) == Join(s.attendance, s.students)
                 + [Record(Row(registered[i], at), s.students[registered[i]].form.name)]
  {
    var judged := ls + [Label(r, BeginLogin(photo))] + [Label(r, Recognize(registered, true, distances))];
    var found := judged + [Label(r, FindStudent(true))];
    EveryRunIsSound(threshold, ls);
    assert registered[i] in registered;
    LoginIsRecognized(threshold, ls, r, photo, registered, distances, i);
    ExecMore(threshold, judged, Label(r, FindStudent(true)));
    ExecMore(threshold, found, Label(r, MarkAttendance(at, true)));
    JoinMore(Exec(threshold, ls).value.attendance, Row(registered[i], at), Exec(threshold, ls).value.students);
  }

  lemma JoinMore(rows: seq<Row>, row: Row, students: Students)
    requires row.student in students
    ensures Join(rows + [row], students) == Join(rows, students) + [Record(row, students[row.student].form.name)]
  {
    assert (rows + [row])[..|rows|] == rows;
  }

  lemma {:induction false} JoinKeepsAll(rows: seq<Row>, students: Students)
    requires forall i :: 0 <= i < |rows| ==> rows[i].student in students
    ensures |Join(rows, students)| == |rows|
    ensures forall i :: 0 <= i < |rows| ==>
              Join(rows, students)[i] == Record(rows[i], students[rows[i].student].form.name)
  {
    if rows != [] {
      JoinKeepsAll(rows[..|rows| - 1], students);
    }
  }

  /** The listing's join loses no attendance row of any run. */
  lemma ListingLosesNothing(threshold: real, ls: seq<Label>)
    requires Exec(threshold, ls).Some?
    ensures var s := Exec(threshold, ls).value;
            && |Join(s.attendance, s.students)| == |s.attendance|
            && forall i :: 0 <= i < |s.attendance| ==>
                 && s.attendance[i].student in s.students
                 && Join(s.attendance, s.students)[i]
                    == Record(s.attendance[i], s.students[s.attendance[i].student].form.name)
  {
    EveryRunIsSound(threshold, ls);
    JoinKeepsAll(Exec(threshold, ls).value.attendance, Exec(threshold, ls).value.students);
  }
}
