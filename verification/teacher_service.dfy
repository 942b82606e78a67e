/** The teacher data operations, each a pure transformer of an in-memory copy
    of the tables it touches. A table is a sequence of rows in storage order;
    identifiers the database generates are fresh integers. */
module TeacherService {
  import opened Wrappers
  import opened Seqs

  datatype Teacher = Teacher(
    teacherId: int, userId: int, teachingMode: string, bio: string,
    experienceYears: int, hourlyRate: real, education: string,
    durationPerSession: int, isVerified: bool, rating: real, updatedAt: int)

  /** The attributes a profile form submits. */
  datatype ProfileInput = ProfileInput(
    userId: int, teachingMode: string, bio: string, experienceYears: int,
    hourlyRate: real, education: string, durationPerSession: int)

  /** The values the teachers table supplies for columns the insert leaves out. */
  datatype ColumnDefaults = ColumnDefaults(isVerified: bool, rating: real, updatedAt: int)

  datatype AvailabilityRow = AvailabilityRow(availabilityId: int, teacherId: int, day: string, startTime: string, endTime: string)

  /** An availability row as the read query projects it. */
  datatype Window = Window(day: string, startTime: string, endTime: string)

  /** A row of a teacher-to-lookup join table: the teacher and the language, grade level or subject id. */
  datatype JoinRow = JoinRow(teacherId: int, refId: int)

  datatype Association = Languages | GradeLevels | Subjects

  datatype Db = Db(
    teachers: seq<Teacher>,
    availability: seq<AvailabilityRow>,
    teacherLanguages: seq<JoinRow>,
    teacherGradeLevels: seq<JoinRow>,
    teacherSubjects: seq<JoinRow>)

  /** An insert's new table contents and the row its RETURNING clause hands back. */
  datatype Inserted<T> = Inserted(db: Db, row: T)

  /** An identifier larger than every one already in use, standing in for the table's serial column. */
  function NextId(ids: seq<int>): (r: int)
    ensures forall i :: 0 <= i < |ids| ==> ids[i] < r
  {
    if |ids| == 0 then 1
    else
      var rest := NextId(ids[1..]);
      assert forall i :: 1 <= i < |ids| ==> ids[i] == ids[1..][i - 1];
      if ids[0] < rest then rest else ids[0] + 1
  }

  function TeacherIds(ts: seq<Teacher>): seq<int>
  {
    seq(|ts|, i requires 0 <= i < |ts| => ts[i].teacherId)
  }

  function AvailabilityIds(rows: seq<AvailabilityRow>): seq<int>
  {
    seq(|rows|, i requires 0 <= i < |rows| => rows[i].availabilityId)
  }

  // ---------------------------------------------------------------- teachers

  /** `createTeacherProfile`: insert one teacher row for the submitted attributes and return it. */
  function CreateTeacherProfile(db: Db, input: ProfileInput, defaults: ColumnDefaults): (r: Inserted<Teacher>)
    ensures |r.db.teachers| == |db.teachers| + 1
    ensures r.db.teachers[..|db.teachers|] == db.teachers
    ensures r.db.teachers[|db.teachers|] == r.row
    ensures forall i :: 0 <= i < |db.teachers| ==> db.teachers[i].teacherId != r.row.teacherId
    ensures r.row.userId == input.userId && r.row.teachingMode == input.teachingMode
      && r.row.bio == input.bio && r.row.experienceYears == input.experienceYears
      && r.row.hourlyRate == input.hourlyRate && r.row.education == input.education
      && r.row.durationPerSession == input.durationPerSession
    ensures r.row.isVerified == defaults.isVerified && r.row.rating == defaults.rating
    ensures r.db.(teachers := db.teachers) == db
  {
    var ids := TeacherIds(db.teachers);
    var row := Teacher(NextId(ids), input.userId, input.teachingMode, input.bio,
      input.experienceYears, input.hourlyRate, input.education, input.durationPerSession,
      defaults.isVerified, defaults.rating, defaults.updatedAt);
    assert forall i :: 0 <= i < |db.teachers| ==> db.teachers[i].teacherId == ids[i];
    Inserted(db.(teachers := db.teachers + [row]), row)
  }

  function ApplyProfile(t: Teacher, input: ProfileInput, now: int): Teacher
  {
    t.(teachingMode := input.teachingMode, bio := input.bio,
       experienceYears := input.experienceYears, hourlyRate := input.hourlyRate,
       education := input.education, durationPerSession := input.durationPerSession,
       updatedAt := now)
  }

  /** The outcome of `updateTeacherProfile`: the new table and the first updated row, if any. */
  datatype Updated = Updated(db: Db, row: Option<Teacher>)

  /** `updateTeacherProfile`: overwrite the six profile columns and the update time on every
      row of that user; return the first such row. */
  function UpdateTeacherProfile(db: Db, input: ProfileInput, now: int): (r: Updated)
    ensures |r.db.teachers| == |db.teachers|
    ensures forall i :: 0 <= i < |db.teachers| && db.teachers[i].userId != input.userId ==>
      r.db.teachers[i] == db.teachers[i]
    ensures forall i :: 0 <= i < |db.teachers| && db.teachers[i].userId == input.userId ==>
      var old_ := db.teachers[i];
      var new_ := r.db.teachers[i];
      && new_.teacherId == old_.teacherId && new_.userId == old_.userId
      && new_.isVerified == old_.isVerified && new_.rating == old_.rating
      && new_.teachingMode == input.teachingMode && new_.bio == input.bio
      && new_.experienceYears == input.experienceYears && new_.hourlyRate == input.hourlyRate
      && new_.education == input.education && new_.durationPerSession == input.durationPerSession
      && new_.updatedAt == now
    ensures r.row.None? <==> forall i :: 0 <= i < |db.teachers| ==> db.teachers[i].userId != input.userId
    ensures r.row.Some? ==> r.row.value in r.db.teachers && r.row.value.userId == input.userId
    ensures r.db.(teachers := db.teachers) == db
  {
    var ts := seq(|db.teachers|, i requires 0 <= i < |db.teachers| =>
      if db.teachers[i].userId == input.userId then ApplyProfile(db.teachers[i], input, now) else db.teachers[i]);
    var first := FirstIndex(db.teachers, (t: Teacher) => t.userId == input.userId);
    Updated(db.(teachers := ts), if first.Some? then Some(ts[first.value]) else None)
  }

  function OfUser(userId: int): Teacher -> bool
  {
    (t: Teacher) => t.userId == userId
  }

  /** `getTeacherIdByUserId`: the id of the user's first teacher row, or the not-found error. */
  function GetTeacherIdByUserId(db: Db, userId: int): (r: Result<int>)
    ensures r.Err? <==> forall i :: 0 <= i < |db.teachers| ==> db.teachers[i].userId != userId
    ensures r.Err? ==> r.message == "No teacher found for this user ID"
    ensures r.Ok? ==> exists i :: 0 <= i < |db.teachers| && db.teachers[i].userId == userId && db.teachers[i].teacherId == r.value
  {
    match FirstIndex(db.teachers, OfUser(userId))
    case Some(i) => Ok(db.teachers[i].teacherId)
    case None => Err("No teacher found for this user ID")
  }

  /** `getTeacherByUserId`: the user's first teacher row, or null. */
  function GetTeacherByUserId(db: Db, userId: int): (r: Option<Teacher>)
    ensures r.None? <==> forall i :: 0 <= i < |db.teachers| ==> db.teachers[i].userId != userId
    ensures r.Some? ==> r.value in db.teachers && r.value.userId == userId
  {
    match FirstIndex(db.teachers, OfUser(userId))
    case Some(i) => Some(db.teachers[i])
    case None => None
  }

  /** The two lookups agree: the id lookup fails exactly when the row lookup finds nothing,
      and otherwise returns the id of the row the other returns. */
  lemma LookupsAgree(db: Db, userId: int)
    ensures GetTeacherIdByUserId(db, userId).Err? <==> GetTeacherByUserId(db, userId).None?
    ensures GetTeacherIdByUserId(db, userId).Ok? ==>
      GetTeacherIdByUserId(db, userId).value == GetTeacherByUserId(db, userId).value.teacherId
  {
  }

  // ------------------------------------------------------------ availability

  function NotOfTeacher(teacherId: int): AvailabilityRow -> bool
  {
    (a: AvailabilityRow) => a.teacherId != teacherId
  }

  /** `clearTeacherAvailability`: delete every availability row of the teacher. */
  function ClearTeacherAvailability(db: Db, teacherId: int): (r: Db)
    ensures forall a :: a in r.availability <==> a in db.availability && a.teacherId != teacherId
    ensures forall a: AvailabilityRow :: a.teacherId != teacherId ==> multiset(r.availability)[a] == multiset(db.availability)[a]
    ensures r.(availability := db.availability) == db
  {
    FilterMultiset(db.availability, NotOfTeacher(teacherId));
    db.(availability := Filter(db.availability, NotOfTeacher(teacherId)))
  }

  /** `saveTeacherAvailability`: insert one row for the teacher, with no check on its times. */
  function SaveTeacherAvailability(db: Db, teacherId: int, w: Window): (r: Db)
    ensures |r.availability| == |db.availability| + 1
    ensures r.availability[..|db.availability|] == db.availability
    ensures var added := r.availability[|db.availability|];
      added.teacherId == teacherId && added.day == w.day
      && added.startTime == w.startTime && added.endTime == w.endTime
      && forall i :: 0 <= i < |db.availability| ==> db.availability[i].availabilityId != added.availabilityId
    ensures r.(availability := db.availability) == db
  {
    db.(availability := db.availability + [NewAvailabilityRow(db, teacherId, w)])
  }

  /** The row an availability insert stores, with a fresh id. */
  function NewAvailabilityRow(db: Db, teacherId: int, w: Window): (row: AvailabilityRow)
    ensures row.teacherId == teacherId && Window(row.day, row.startTime, row.endTime) == w
    ensures forall i :: 0 <= i < |db.availability| ==> db.availability[i].availabilityId != row.availabilityId
  {
    var ids := AvailabilityIds(db.availability);
    assert forall i :: 0 <= i < |db.availability| ==> db.availability[i].availabilityId == ids[i];
    AvailabilityRow(NextId(ids), teacherId, w.day, w.startTime, w.endTime)
  }

  /** The windows of one teacher's rows, in table order. */
  function WindowsOf(rows: seq<AvailabilityRow>, teacherId: int): seq<Window>
  {
    if |rows| == 0 then [] else OwnWindow(rows[0], teacherId) + WindowsOf(rows[1..], teacherId)
  }

  /** The window a single row contributes to a teacher's read: its own, or nothing. */
  function OwnWindow(row: AvailabilityRow, teacherId: int): seq<Window>
  {
    if row.teacherId == teacherId then [Window(row.day, row.startTime, row.endTime)] else []
  }

  lemma {:induction false} WindowsOfAppend(a: seq<AvailabilityRow>, b: seq<AvailabilityRow>, teacherId: int)
    ensures WindowsOf(a + b, teacherId) == WindowsOf(a, teacherId) + WindowsOf(b, teacherId)
  {
    if |a| == 0 {
      assert a + b == b;
    } else {
      var head := OwnWindow(a[0], teacherId);
      assert (a + b)[1..] == a[1..] + b;
      assert WindowsOf(a + b, teacherId) == head + WindowsOf(a[1..] + b, teacherId);
      WindowsOfAppend(a[1..], b, teacherId);
      assert head + (WindowsOf(a[1..], teacherId) + WindowsOf(b, teacherId))
          == (head + WindowsOf(a[1..], teacherId)) + WindowsOf(b, teacherId);
    }
  }

  /** `getTeacherAvailabilityByTeacherId`: the teacher's rows, projected to day, start and end. */
  function GetTeacherAvailabilityByTeacherId(db: Db, teacherId: int): seq<Window>
  {
    WindowsOf(db.availability, teacherId)
  }

  /** The read returns a window exactly when some row of that teacher carries it. */
  lemma GetReadsOwnRows(db: Db, teacherId: int, w: Window)
    ensures w in GetTeacherAvailabilityByTeacherId(db, teacherId) <==>
      exists i :: 0 <= i < |db.availability| && db.availability[i].teacherId == teacherId
        && w == Window(db.availability[i].day, db.availability[i].startTime, db.availability[i].endTime)
  {
    WindowsOfMembers(db.availability, teacherId, w);
  }

  lemma {:induction false} WindowsOfMembers(rows: seq<AvailabilityRow>, teacherId: int, w: Window)
    ensures w in WindowsOf(rows, teacherId) <==>
      exists i :: 0 <= i < |rows| && rows[i].teacherId == teacherId
        && w == Window(rows[i].day, rows[i].startTime, rows[i].endTime)
  {
    if |rows| != 0 {
      var tail := rows[1..];
      WindowsOfMembers(tail, teacherId, w);
      if exists i :: 0 <= i < |tail| && tail[i].teacherId == teacherId
          && w == Window(tail[i].day, tail[i].startTime, tail[i].endTime) {
        var i :| 0 <= i < |tail| && tail[i].teacherId == teacherId
          && w == Window(tail[i].day, tail[i].startTime, tail[i].endTime);
        assert rows[i + 1] == tail[i];
      }
      if exists i :: 0 <= i < |rows| && rows[i].teacherId == teacherId
          && w == Window(rows[i].day, rows[i].startTime, rows[i].endTime) {
        var i :| 0 <= i < |rows| && rows[i].teacherId == teacherId
          && w == Window(rows[i].day, rows[i].startTime, rows[i].endTime);
        if i > 0 {
          assert tail[i - 1] == rows[i];
        }
      }
    }
  }

  /** Reading after one more row was stored: that row's window is added when it belongs to the teacher. */
  lemma GetAfterAppend(db: Db, row: AvailabilityRow, teacherId: int)
    ensures GetTeacherAvailabilityByTeacherId(db.(availability := db.availability + [row]), teacherId)
      == GetTeacherAvailabilityByTeacherId(db, teacherId)
         + (if row.teacherId == teacherId then [Window(row.day, row.startTime, row.endTime)] else [])
  {
    WindowsOfAppend(db.availability, [row], teacherId);
    assert [row][1..] == [];
  }

  /** `updateTeacherAvailability`: set start and end on the rows with that id, whoever owns them. */
  function UpdateTeacherAvailability(db: Db, availabilityId: int, startTime: string, endTime: string): (r: Db)
    ensures |r.availability| == |db.availability|
    ensures forall i :: 0 <= i < |db.availability| ==>
      r.availability[i].availabilityId == db.availability[i].availabilityId
      && r.availability[i].teacherId == db.availability[i].teacherId
      && r.availability[i].day == db.availability[i].day
    ensures forall i :: 0 <= i < |db.availability| && db.availability[i].availabilityId == availabilityId ==>
      r.availability[i].startTime == startTime && r.availability[i].endTime == endTime
    ensures forall i :: 0 <= i < |db.availability| && db.availability[i].availabilityId != availabilityId ==>
      r.availability[i] == db.availability[i]
    ensures r.(availability := db.availability) == db
  {
    var rows := db.availability;
    db.(availability := seq(|rows|, i requires 0 <= i < |rows| =>
      if rows[i].availabilityId == availabilityId then rows[i].(startTime := startTime, endTime := endTime) else rows[i]))
  }

  /** An id that no row carries leaves the tables as they were. */
  lemma UpdateUnknownIdIsNoOp(db: Db, availabilityId: int, startTime: string, endTime: string)
    requires forall i :: 0 <= i < |db.availability| ==> db.availability[i].availabilityId != availabilityId
    ensures UpdateTeacherAvailability(db, availabilityId, startTime, endTime) == db
  {
  }

  /** `deleteTeacherAvailability`: delete the rows with that id, whoever owns them. */
  function DeleteTeacherAvailability(db: Db, availabilityId: int): (r: Db)
    ensures forall a :: a in r.availability <==> a in db.availability && a.availabilityId != availabilityId
    ensures forall a: AvailabilityRow :: a.availabilityId != availabilityId ==>
      multiset(r.availability)[a] == multiset(db.availability)[a]
    ensures r.(availability := db.availability) == db
  {
    FilterMultiset(db.availability, (a: AvailabilityRow) => a.availabilityId != availabilityId);
    db.(availability := Filter(db.availability, (a: AvailabilityRow) => a.availabilityId != availabilityId))
  }

  /** Saving each window in turn, as a caller replacing a teacher's availability does after clearing it. */
  function SaveAll(db: Db, teacherId: int, windows: seq<Window>): Db
    decreases |windows|
  {
    if |windows| == 0 then db
    else SaveAll(SaveTeacherAvailability(db, teacherId, windows[0]), teacherId, windows[1..])
  }

  /** Replace-all: clear the teacher's availability, then save each supplied window. */
  function ReplaceAvailability(db: Db, teacherId: int, windows: seq<Window>): Db
  {
    SaveAll(ClearTeacherAvailability(db, teacherId), teacherId, windows)
  }

  /** Saving windows one by one adds exactly those windows to the teacher's read, in order,
      and nothing to any other teacher's. */
  lemma {:induction false} GetAfterSaveAll(db: Db, teacherId: int, windows: seq<Window>, reader: int)
    ensures GetTeacherAvailabilityByTeacherId(SaveAll(db, teacherId, windows), reader)
      == GetTeacherAvailabilityByTeacherId(db, reader) + (if reader == teacherId then windows else [])
    decreases |windows|
  {
    var before := GetTeacherAvailabilityByTeacherId(db, reader);
    if |windows| == 0 {
      assert before + [] == before;
    } else {
      var row := NewAvailabilityRow(db, teacherId, windows[0]);
      var db1 := db.(availability := db.availability + [row]);
      SaveAllStep(db, teacherId, windows);
      GetAfterAppend(db, row, reader);
      GetAfterSaveAll(db1, teacherId, windows[1..], reader);
      var mid := if reader == teacherId then [windows[0]] else [];
      var rest := if reader == teacherId then windows[1..] else [];
      assert (before + mid) + rest == before + (mid + rest);
      assert mid + rest == (if reader == teacherId then windows else []);
    }
  }

  lemma SaveAllStep(db: Db, teacherId: int, windows: seq<Window>)
    requires |windows| != 0
    ensures SaveAll(db, teacherId, windows)
         == SaveAll(db.(availability := db.availability + [NewAvailabilityRow(db, teacherId, windows[0])]), teacherId, windows[1..])
  {
  }

  /** After clearing, the teacher has nothing to read. */
  lemma GetAfterClear(db: Db, teacherId: int)
    ensures GetTeacherAvailabilityByTeacherId(ClearTeacherAvailability(db, teacherId), teacherId) == []
  {
    WindowsOfOthers(ClearTeacherAvailability(db, teacherId).availability, teacherId);
  }

  lemma {:induction false} WindowsOfOthers(rows: seq<AvailabilityRow>, teacherId: int)
    requires forall a :: a in rows ==> a.teacherId != teacherId
    ensures WindowsOf(rows, teacherId) == []
  {
    if |rows| != 0 {
      assert rows[0] in rows;
      WindowsOfOthers(rows[1..], teacherId);
    }
  }

  /** Replacing a teacher's availability and reading it back yields exactly the supplied
      windows, compared as a multiset since the read has no ordering; other teachers' reads
      are unchanged. */
  lemma ReplaceThenGet(db: Db, teacherId: int, windows: seq<Window>, other: int)
    requires other != teacherId
    ensures multiset(GetTeacherAvailabilityByTeacherId(ReplaceAvailability(db, teacherId, windows), teacherId)) == multiset(windows)
    ensures multiset(GetTeacherAvailabilityByTeacherId(ReplaceAvailability(db, teacherId, windows), other))
         == multiset(GetTeacherAvailabilityByTeacherId(db, other))
  {
    var cleared := ClearTeacherAvailability(db, teacherId);
    GetAfterClear(db, teacherId);
    GetAfterSaveAll(cleared, teacherId, windows, teacherId);
    assert [] + windows == windows;
    GetAfterSaveAll(cleared, teacherId, windows, other);
    ClearKeepsOthersRead(db, teacherId, other);
  }

  /** Clearing one teacher does not change what another teacher reads. */
  lemma ClearKeepsOthersRead(db: Db, teacherId: int, other: int)
    requires other != teacherId
    ensures GetTeacherAvailabilityByTeacherId(ClearTeacherAvailability(db, teacherId), other)
         == GetTeacherAvailabilityByTeacherId(db, other)
  {
    WindowsOfKept(db.availability, teacherId, other);
  }

  lemma {:induction false} WindowsOfKept(rows: seq<AvailabilityRow>, teacherId: int, other: int)
    requires other != teacherId
    ensures WindowsOf(Filter(rows, NotOfTeacher(teacherId)), other) == WindowsOf(rows, other)
  {
    if |rows| != 0 {
      WindowsOfKept(rows[1..], teacherId, other);
      var head := if rows[0].teacherId != teacherId then [rows[0]] else [];
      assert Filter(rows, NotOfTeacher(teacherId)) == head + Filter(rows[1..], NotOfTeacher(teacherId));
      WindowsOfAppend(head, Filter(rows[1..], NotOfTeacher(teacherId)), other);
      if |head| == 1 {
        assert head[1..] == [];
      }
    }
  }

  // ------------------------------------------------------------ associations

  function AssocTable(db: Db, kind: Association): seq<JoinRow>
  {
    match kind
    case Languages => db.teacherLanguages
    case GradeLevels => db.teacherGradeLevels
    case Subjects => db.teacherSubjects
  }

  function WithAssocTable(db: Db, kind: Association, rows: seq<JoinRow>): (r: Db)
    ensures AssocTable(r, kind) == rows
    ensures forall k :: k != kind ==> AssocTable(r, k) == AssocTable(db, k)
    ensures r.teachers == db.teachers && r.availability == db.availability
  {
    match kind
    case Languages => db.(teacherLanguages := rows)
    case GradeLevels => db.(teacherGradeLevels := rows)
    case Subjects => db.(teacherSubjects := rows)
  }

  function JoinNotOf(teacherId: int): JoinRow -> bool
  {
    (j: JoinRow) => j.teacherId != teacherId
  }

  /** The ids a teacher is associated with in one join table, in table order. */
  function RefIds(rows: seq<JoinRow>, teacherId: int): seq<int>
  {
    if |rows| == 0 then [] else OwnRef(rows[0], teacherId) + RefIds(rows[1..], teacherId)
  }

  /** The id a single join row contributes to a teacher's list: its own, or nothing. */
  function OwnRef(row: JoinRow, teacherId: int): seq<int>
  {
    if row.teacherId == teacherId then [row.refId] else []
  }

  lemma {:induction false} RefIdsAppend(a: seq<JoinRow>, b: seq<JoinRow>, teacherId: int)
    ensures RefIds(a + b, teacherId) == RefIds(a, teacherId) + RefIds(b, teacherId)
  {
    if |a| == 0 {
      assert a + b == b;
    } else {
      var head := OwnRef(a[0], teacherId);
      assert (a + b)[1..] == a[1..] + b;
      assert RefIds(a + b, teacherId) == head + RefIds(a[1..] + b, teacherId);
      RefIdsAppend(a[1..], b, teacherId);
      assert head + (RefIds(a[1..], teacherId) + RefIds(b, teacherId))
          == (head + RefIds(a[1..], teacherId)) + RefIds(b, teacherId);
    }
  }

  /** The join rows inserted for a list of ids, in list order. */
  function JoinRows(teacherId: int, refIds: seq<int>): (r: seq<JoinRow>)
    ensures |r| == |refIds|
    ensures forall i :: 0 <= i < |r| ==> r[i] == JoinRow(teacherId, refIds[i])
  {
    if |refIds| == 0 then [] else [JoinRow(teacherId, refIds[0])] + JoinRows(teacherId, refIds[1..])
  }

  lemma {:induction false} RefIdsOfJoinRows(teacherId: int, refIds: seq<int>)
    ensures RefIds(JoinRows(teacherId, refIds), teacherId) == refIds
  {
    if |refIds| != 0 {
      JoinRowsCons(teacherId, refIds);
      RefIdsCons(JoinRow(teacherId, refIds[0]), JoinRows(teacherId, refIds[1..]), teacherId);
      RefIdsOfJoinRows(teacherId, refIds[1..]);
      assert [refIds[0]] + refIds[1..] == refIds;
    }
  }

  lemma JoinRowsCons(teacherId: int, refIds: seq<int>)
    requires |refIds| != 0
    ensures JoinRows(teacherId, refIds) == [JoinRow(teacherId, refIds[0])] + JoinRows(teacherId, refIds[1..])
  {
  }

  lemma RefIdsCons(row: JoinRow, rest: seq<JoinRow>, teacherId: int)
    ensures RefIds([row] + rest, teacherId) == OwnRef(row, teacherId) + RefIds(rest, teacherId)
  {
    assert ([row] + rest)[1..] == rest;
  }

  lemma {:induction false} RefIdsOfOthers(rows: seq<JoinRow>, teacherId: int)
    requires forall i :: 0 <= i < |rows| ==> rows[i].teacherId != teacherId
    ensures RefIds(rows, teacherId) == []
  {
    if |rows| != 0 {
      RefIdsOfOthers(rows[1..], teacherId);
    }
  }

  /** `clearTeacherLanguages` / `clearTeacherGradeLevels` / `clearTeacherSubjects`:
      delete every join row of the teacher in that table. */
  function ClearAssociations(db: Db, kind: Association, teacherId: int): (r: Db)
    ensures forall j :: j in AssocTable(r, kind) <==> j in AssocTable(db, kind) && j.teacherId != teacherId
    ensures forall j: JoinRow :: j.teacherId != teacherId ==>
      multiset(AssocTable(r, kind))[j] == multiset(AssocTable(db, kind))[j]
    ensures forall k :: k != kind ==> AssocTable(r, k) == AssocTable(db, k)
    ensures r.teachers == db.teachers && r.availability == db.availability
  {
    FilterMultiset(AssocTable(db, kind), JoinNotOf(teacherId));
    WithAssocTable(db, kind, Filter(AssocTable(db, kind), JoinNotOf(teacherId)))
  }

  /** `addTeacherLanguages` / `addTeacherGradeLevels` / `addTeacherSubjects`: insert one join row and return it. */
  function AddAssociation(db: Db, kind: Association, teacherId: int, refId: int): (r: Inserted<JoinRow>)
    ensures r.row == JoinRow(teacherId, refId)
    ensures multiset(AssocTable(r.db, kind)) == multiset(AssocTable(db, kind)) + multiset{r.row}
    ensures forall k :: k != kind ==> AssocTable(r.db, k) == AssocTable(db, k)
    ensures r.db.teachers == db.teachers && r.db.availability == db.availability
  {
    var row := JoinRow(teacherId, refId);
    Inserted(WithAssocTable(db, kind, AssocTable(db, kind) + [row]), row)
  }

  /** The inserts of an association update, one per id, each appending a join row exactly as
      `AddAssociation` does; the source issues them concurrently. */
  function AddRows(rows: seq<JoinRow>, teacherId: int, refIds: seq<int>): seq<JoinRow>
    decreases |refIds|
  {
    if |refIds| == 0 then rows else AddRows(rows + [JoinRow(teacherId, refIds[0])], teacherId, refIds[1..])
  }

  function AddAll(db: Db, kind: Association, teacherId: int, refIds: seq<int>): (r: Db)
    ensures forall k :: k != kind ==> AssocTable(r, k) == AssocTable(db, k)
    ensures r.teachers == db.teachers && r.availability == db.availability
  {
    WithAssocTable(db, kind, AddRows(AssocTable(db, kind), teacherId, refIds))
  }

  /** Adding a list of ids is the single insert of the first id followed by adding the rest. */
  lemma AddAllIsRepeatedInsert(db: Db, kind: Association, teacherId: int, refIds: seq<int>)
    requires |refIds| != 0
    ensures AddAll(db, kind, teacherId, refIds)
         == AddAll(AddAssociation(db, kind, teacherId, refIds[0]).db, kind, teacherId, refIds[1..])
  {
    var db1 := AddAssociation(db, kind, teacherId, refIds[0]).db;
    assert AssocTable(db1, kind) == AssocTable(db, kind) + [JoinRow(teacherId, refIds[0])];
    match kind
    case Languages =>
    case GradeLevels =>
    case Subjects =>
  }

  lemma {:induction false} AddRowsAppends(rows: seq<JoinRow>, teacherId: int, refIds: seq<int>)
    ensures AddRows(rows, teacherId, refIds) == rows + JoinRows(teacherId, refIds)
    decreases |refIds|
  {
    if |refIds| == 0 {
      assert rows + [] == rows;
    } else {
      var row := JoinRow(teacherId, refIds[0]);
      AddRowsAppends(rows + [row], teacherId, refIds[1..]);
      JoinRowsCons(teacherId, refIds);
      assert (rows + [row]) + JoinRows(teacherId, refIds[1..]) == rows + ([row] + JoinRows(teacherId, refIds[1..]));
    }
  }

  /** `updateTeacherLanguages` / `updateTeacherGradeLevels` / `updateTeacherSubjects`:
      clear the teacher's join rows in that table, then insert one per supplied id. */
  function UpdateAssociations(db: Db, kind: Association, teacherId: int, refIds: seq<int>): Db
  {
    AddAll(ClearAssociations(db, kind, teacherId), kind, teacherId, refIds)
  }

  /** After an update the teacher is associated with exactly the supplied ids, one row each
      (an empty list clears them); other teachers' rows, the other join tables, the teachers
      and the availability are untouched. */
  lemma {:induction false} UpdateAssociationsReplaces(db: Db, kind: Association, teacherId: int, refIds: seq<int>)
    ensures multiset(RefIds(AssocTable(UpdateAssociations(db, kind, teacherId, refIds), kind), teacherId)) == multiset(refIds)
    ensures Filter(AssocTable(UpdateAssociations(db, kind, teacherId, refIds), kind), JoinNotOf(teacherId))
         == Filter(AssocTable(db, kind), JoinNotOf(teacherId))
    ensures forall k :: k != kind ==> AssocTable(UpdateAssociations(db, kind, teacherId, refIds), k) == AssocTable(db, k)
    ensures UpdateAssociations(db, kind, teacherId, refIds).teachers == db.teachers
    ensures UpdateAssociations(db, kind, teacherId, refIds).availability == db.availability
  {
    var kept := Filter(AssocTable(db, kind), JoinNotOf(teacherId));
    var added := JoinRows(teacherId, refIds);
    AddRowsAppends(kept, teacherId, refIds);
    var after := AssocTable(UpdateAssociations(db, kind, teacherId, refIds), kind);
    assert after == kept + added;
    RefIdsAppend(kept, added, teacherId);
    RefIdsOthers(kept, teacherId);
    RefIdsOfJoinRows(teacherId, refIds);
    assert RefIds(after, teacherId) == refIds;
    FilterAppend(kept, added, JoinNotOf(teacherId));
    FilterAll(kept, JoinNotOf(teacherId));
    AllOfTeacher(added, teacherId);
  }

  lemma RefIdsOthers(kept: seq<JoinRow>, teacherId: int)
    requires forall i :: 0 <= i < |kept| ==> kept[i].teacherId != teacherId
    ensures RefIds(kept, teacherId) == []
  {
    RefIdsOfOthers(kept, teacherId);
  }

  lemma {:induction false} AllOfTeacher(rows: seq<JoinRow>, teacherId: int)
    requires forall i :: 0 <= i < |rows| ==> rows[i].teacherId == teacherId
    ensures Filter(rows, JoinNotOf(teacherId)) == []
  {
    if |rows| != 0 {
      AllOfTeacher(rows[1..], teacherId);
    }
  }
}
