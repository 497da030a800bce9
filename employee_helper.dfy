/**
  The employee profile helper: maps the rows of the profile stored procedures to
  records, orders work experience and education by start date (latest first), builds the
  duration text of an ongoing work experience, and reads the success flag of the
  add/remove/update procedures.

  A result set is given as the sequence of rows the loop reads before it ends, normally
  or by an SQL error: the code keeps whatever it accumulated in both cases.
*/
module EmployeeHelper {
  import opened Common
  import opened Periods
  import opened StableSort

  // ---------------------------------------------------------------- basic details

  /** A row of `getEmployeeBasicDetails`; SQL NULL columns are `None`. */
  datatype BasicRow = BasicRow(
    empIntId: Option<string>, dob: Option<Date>, loginId: Option<string>,
    salutation: Option<string>, firstName: Option<string>, lastName: Option<string>,
    phoneNo: Option<string>, functionName: Option<string>, zone: Option<string>,
    position: Option<string>)

  /** The `BasicEmployeeDetails` bean: an `int` id (0 until set) and nullable fields. */
  datatype BasicEmployeeDetails = BasicEmployeeDetails(
    employeeId: int, companyEmployeeId: Option<string>, dob: Option<Date>,
    emailId: Option<string>, salutation: Option<string>, firstName: Option<string>,
    lastName: Option<string>, phone: Option<string>, functionName: Option<string>,
    location: Option<string>, designation: Option<string>)

  /** A freshly constructed bean: nothing set. */
  const NoDetails := BasicEmployeeDetails(0, None, None, None, None, None, None, None, None, None, None)

  /** Every setter of the bean applied with the values of one row. */
  function DetailsOf(employeeId: int, row: BasicRow): BasicEmployeeDetails {
    BasicEmployeeDetails(employeeId, row.empIntId, row.dob, row.loginId, row.salutation,
      row.firstName, row.lastName, row.phoneNo, row.functionName, row.zone, row.position)
  }

  /** `getBasicEmployeeDetails`: each row overwrites every field, so the last row wins;
      with no row the bean is returned as constructed. */
  method GetBasicEmployeeDetails(employeeId: int, rows: seq<BasicRow>) returns (bed: BasicEmployeeDetails)
    ensures rows == [] ==> bed == NoDetails
    ensures rows != [] ==> bed == DetailsOf(employeeId, rows[|rows| - 1])
  {
    bed := NoDetails;
    var i := 0;
    while i < |rows|
      invariant 0 <= i <= |rows|
      invariant i == 0 ==> bed == NoDetails
      invariant i > 0 ==> bed == DetailsOf(employeeId, rows[i - 1])
    {
      bed := DetailsOf(employeeId, rows[i]);
      i := i + 1;
    }
  }

  // ---------------------------------------------------------------- work experience

  /** A row of `getEmployeeWorkExperience`. */
  datatype WorkExRow = WorkExRow(
    workExperienceId: int, organizationName: Option<string>, position: Option<string>,
    fromDate: Date, location: Option<string>, toDate: Option<Date>)

  /** The `WorkExperience` bean as the helper fills it in. */
  datatype WorkExperience = WorkExperience(
    employeeId: int, workExperienceDetailsId: int, companyName: Option<string>,
    designation: Option<string>, startDate: Date, location: Option<string>,
    endDate: Option<Date>, duration: string)

  /** One row as a record: an ongoing experience (no end date) carries its duration up
      to `today`, a finished one the empty string. */
  function WorkExperienceOf(employeeId: int, row: WorkExRow, today: Date): WorkExperience {
    WorkExperience(employeeId, row.workExperienceId, row.organizationName, row.position,
      row.fromDate, row.location, row.toDate,
      if row.toDate.None? then Duration(row.fromDate, today) else "")
  }

  function WorkExperiences(employeeId: int, rows: seq<WorkExRow>, today: Date): (r: seq<WorkExperience>)
    ensures |r| == |rows|
  {
    seq(|rows|, i requires 0 <= i < |rows| => WorkExperienceOf(employeeId, rows[i], today))
  }

  /** The sort key of the comparator: the start date (compared second-to-first, so the
      sort is descending). */
  function WorkStartKey(w: WorkExperience): int {
    DateKey(w.startDate)
  }

  lemma WorkExperiencesAppend(employeeId: int, rows: seq<WorkExRow>, i: nat, today: Date)
    requires i < |rows|
    ensures WorkExperiences(employeeId, rows[..i + 1], today)
         == WorkExperiences(employeeId, rows[..i], today) + [WorkExperienceOf(employeeId, rows[i], today)]
  {
  }

  /** What the sorted record list holds: latest start first, exactly the records of the
      rows, rows with the same start date in row order, every record for the requested
      employee and carrying the duration rule. */
  lemma SortedWorkExperiences(employeeId: int, rows: seq<WorkExRow>, today: Date)
    ensures var all := WorkExperiences(employeeId, rows, today);
      var sorted := SortDesc(all, WorkStartKey);
      && SortedDesc(sorted, WorkStartKey)
      && multiset(sorted) == multiset(all)
      && (forall k :: KeyRun(sorted, WorkStartKey, k) == KeyRun(all, WorkStartKey, k))
      && (forall w :: w in sorted ==> w.employeeId == employeeId)
      && (forall w :: w in sorted ==> w.duration == if w.endDate.None? then Duration(w.startDate, today) else "")
  {
    var all := WorkExperiences(employeeId, rows, today);
    var sorted := SortDesc(all, WorkStartKey);
    SortDescSorted(all, WorkStartKey);
    forall k ensures KeyRun(sorted, WorkStartKey, k) == KeyRun(all, WorkStartKey, k) {
      SortDescStable(all, WorkStartKey, k);
    }
    forall w | w in sorted
      ensures w.employeeId == employeeId
      ensures w.duration == if w.endDate.None? then Duration(w.startDate, today) else ""
    {
      assert w in multiset(all);
      assert w in all;
    }
  }

  /** `getWorkExperienceDetails`: append each record, then sort the whole list again.
      The result is the one stable sort of all records taken together. */
  method GetWorkExperienceDetails(employeeId: int, rows: seq<WorkExRow>, today: Date)
    returns (workExList: seq<WorkExperience>)
    ensures workExList == SortDesc(WorkExperiences(employeeId, rows, today), WorkStartKey)
  {
    workExList := [];
    var i := 0;
    while i < |rows|
      invariant 0 <= i <= |rows|
      invariant workExList == SortDesc(WorkExperiences(employeeId, rows[..i], today), WorkStartKey)
    {
      var workEx := WorkExperienceOf(employeeId, rows[i], today);
      ResortAfterAppend(WorkExperiences(employeeId, rows[..i], today), workEx, WorkStartKey);
      WorkExperiencesAppend(employeeId, rows, i, today);
      workExList := SortDesc(workExList + [workEx], WorkStartKey);
      i := i + 1;
    }
    assert rows[..i] == rows;
  }

  // ---------------------------------------------------------------- education

  /** A row of `getEmployeeEducation`. */
  datatype EducationRow = EducationRow(
    educationId: int, instituteName: Option<string>, certification: Option<string>,
    fromDate: Date, toDate: Option<Date>, location: Option<string>)

  /** The `EducationDetails` bean. */
  datatype EducationDetails = EducationDetails(
    employeeId: int, educationDetailsId: int, institution: Option<string>,
    certification: Option<string>, startDate: Date, endDate: Option<Date>,
    location: Option<string>)

  function EducationOf(employeeId: int, row: EducationRow): EducationDetails {
    EducationDetails(employeeId, row.educationId, row.instituteName, row.certification,
      row.fromDate, row.toDate, row.location)
  }

  function EducationList(employeeId: int, rows: seq<EducationRow>): (r: seq<EducationDetails>)
    ensures |r| == |rows|
  {
    seq(|rows|, i requires 0 <= i < |rows| => EducationOf(employeeId, rows[i]))
  }

  function EducationStartKey(e: EducationDetails): int {
    DateKey(e.startDate)
  }

  /** `getEducationDetails`: append every row, then sort once, latest start first. */
  method GetEducationDetails(employeeId: int, rows: seq<EducationRow>)
    returns (educationDetailsList: seq<EducationDetails>)
    ensures educationDetailsList == SortDesc(EducationList(employeeId, rows), EducationStartKey)
    ensures SortedDesc(educationDetailsList, EducationStartKey)
    ensures multiset(educationDetailsList) == multiset(EducationList(employeeId, rows))
    ensures forall e :: e in educationDetailsList ==> e.employeeId == employeeId
  {
    educationDetailsList := [];
    var i := 0;
    while i < |rows|
      invariant 0 <= i <= |rows|
      invariant educationDetailsList == EducationList(employeeId, rows[..i])
    {
      educationDetailsList := educationDetailsList + [EducationOf(employeeId, rows[i])];
      i := i + 1;
    }
    assert rows[..i] == rows;
    ghost var all := educationDetailsList;
    if educationDetailsList != [] {
      educationDetailsList := SortDesc(educationDetailsList, EducationStartKey);
    }
    SortDescSorted(all, EducationStartKey);
    forall e | e in educationDetailsList ensures e.employeeId == employeeId {
      assert e in multiset(all);
    }
  }

  // ---------------------------------------------------------------- languages

  /** A row of `getEmployeeLanguage`. */
  datatype LanguageRow = LanguageRow(employeeLanguageId: int, languageName: Option<string>, languageId: int)

  /** The `LanguageDetails` bean. */
  datatype LanguageDetails = LanguageDetails(
    employeeId: int, languageDetailsId: int, languageName: Option<string>, languageId: int)

  /** `getEmployeeLanguageDetails`: one record per row, in row order. */
  method GetEmployeeLanguageDetails(employeeId: int, rows: seq<LanguageRow>)
    returns (languageDetailsList: seq<LanguageDetails>)
    ensures |languageDetailsList| == |rows|
    ensures forall i :: 0 <= i < |rows| ==>
      languageDetailsList[i] == LanguageDetails(employeeId, rows[i].employeeLanguageId, rows[i].languageName, rows[i].languageId)
  {
    languageDetailsList := [];
    var i := 0;
    while i < |rows|
      invariant 0 <= i <= |rows|
      invariant |languageDetailsList| == i
      invariant forall j :: 0 <= j < i ==>
        languageDetailsList[j] == LanguageDetails(employeeId, rows[j].employeeLanguageId, rows[j].languageName, rows[j].languageId)
    {
      var row := rows[i];
      languageDetailsList := languageDetailsList + [LanguageDetails(employeeId, row.employeeLanguageId, row.languageName, row.languageId)];
      i := i + 1;
    }
  }

  /** A row of `getLanguageList`. */
  datatype LanguageMasterRow = LanguageMasterRow(languageId: int, languageName: Option<string>)

  /** Row `i` is the last one with its language id. */
  predicate LastWithId(rows: seq<LanguageMasterRow>, i: int)
    requires 0 <= i < |rows|
  {
    forall j :: i < j < |rows| ==> rows[j].languageId != rows[i].languageId
  }

  /** `getLanguageMasterMap`: language id to name; a later row with the same id replaces
      an earlier one, as `HashMap.put` does. */
  method GetLanguageMasterMap(rows: seq<LanguageMasterRow>) returns (languageMasterMap: map<int, Option<string>>)
    ensures languageMasterMap.Keys == set i | 0 <= i < |rows| :: rows[i].languageId
    ensures forall i :: 0 <= i < |rows| && LastWithId(rows, i) ==>
      languageMasterMap[rows[i].languageId] == rows[i].languageName
  {
    languageMasterMap := map[];
    var n := 0;
    while n < |rows|
      invariant 0 <= n <= |rows|
      invariant languageMasterMap.Keys == set i | 0 <= i < n :: rows[i].languageId
      invariant forall i :: 0 <= i < n && LastWithId(rows[..n], i) ==>
        languageMasterMap[rows[i].languageId] == rows[i].languageName
    {
      languageMasterMap := languageMasterMap[rows[n].languageId := rows[n].languageName];
      n := n + 1;
      forall i | 0 <= i < n && LastWithId(rows[..n], i)
        ensures languageMasterMap[rows[i].languageId] == rows[i].languageName
      {
        if i < n - 1 {
          assert LastWithId(rows[..n - 1], i);
        }
      }
    }
    assert rows[..n] == rows;
  }

  // ---------------------------------------------------------------- status procedures

  /** The procedure calls of the add, remove and update operations, with the arguments the
      helper binds (the basic-details update sends only the id and the phone number). */
  datatype ProcedureCall =
    | RemoveWorkExperience(workExperienceId: int)
    | RemoveEducation(educationId: int)
    | RemoveLanguage(languageId: int)
    | UpdateEmployeeBasicDetails(empId: int, phoneNo: Option<string>)
    | InsertWorkExperience(empIdIp: int, organizationNameIp: Option<string>, positionIp: Option<string>,
                           fromDateIp: Date, toDateIp: Option<Date>, locationIp: Option<string>)
    | InsertEducation(empIdIp: int, instituteNameIp: Option<string>, certificationIp: Option<string>,
                      fromDateIp: Date, toDateIp: Option<Date>, locationIp: Option<string>)
    | InsertLanguage(empIdIp: int, languageIdIp: int)

  /** The first column of a result row read as a boolean; `None` is SQL NULL. */
  datatype StatusRow = StatusRow(firstColumn: Option<bool>)

  /** What a procedure call gives back: an SQL error, or its result rows. */
  datatype ProcedureReply = SqlError | Rows(rows: seq<StatusRow>)

  /** The procedures themselves, whose bodies live in the database. */
  type Procedures = ProcedureCall -> ProcedureReply

  /** Reads the success flag: move to the first row and read its first column. Reading
      past an empty result is an SQL error, and NULL reads as false; both give false. */
  method ReadStatus(reply: ProcedureReply) returns (status: bool)
    ensures reply.SqlError? ==> !status
    ensures reply.Rows? && reply.rows == [] ==> !status
    ensures reply.Rows? && reply.rows != [] ==> (status <==> reply.rows[0].firstColumn == Some(true))
  {
    status := false;
    if reply.Rows? && |reply.rows| > 0 {
      var first := reply.rows[0].firstColumn;
      if first.Some? && first.value {
        status := true;
      }
    }
  }

  /** The success flag as a value, for stating the operations' results. */
  predicate Succeeded(reply: ProcedureReply) {
    reply.Rows? && |reply.rows| > 0 && reply.rows[0].firstColumn == Some(true)
  }

  method RemoveWorkExperienceOp(db: Procedures, workExperienceId: int) returns (call: ProcedureCall, status: bool)
    ensures call == RemoveWorkExperience(workExperienceId)
    ensures status <==> Succeeded(db(call))
  {
    call := RemoveWorkExperience(workExperienceId);
    status := ReadStatus(db(call));
  }

  method RemoveEducationOp(db: Procedures, educationId: int) returns (call: ProcedureCall, status: bool)
    ensures call == RemoveEducation(educationId)
    ensures status <==> Succeeded(db(call))
  {
    call := RemoveEducation(educationId);
    status := ReadStatus(db(call));
  }

  method RemoveLanguageOp(db: Procedures, languageId: int) returns (call: ProcedureCall, status: bool)
    ensures call == RemoveLanguage(languageId)
    ensures status <==> Succeeded(db(call))
  {
    call := RemoveLanguage(languageId);
    status := ReadStatus(db(call));
  }

  /** `updateBasicDetails`: only the employee id and the phone number reach the database. */
  method UpdateBasicDetails(db: Procedures, bed: BasicEmployeeDetails) returns (call: ProcedureCall, status: bool)
    ensures call == UpdateEmployeeBasicDetails(bed.employeeId, bed.phone)
    ensures status <==> Succeeded(db(call))
  {
    call := UpdateEmployeeBasicDetails(bed.employeeId, bed.phone);
    status := ReadStatus(db(call));
  }

  /** `addWorkExperience`: a missing end date is sent as NULL. */
  method AddWorkExperience(db: Procedures, wek: WorkExperience) returns (call: ProcedureCall, status: bool)
    ensures call == InsertWorkExperience(wek.employeeId, wek.companyName, wek.designation,
                                         wek.startDate, wek.endDate, wek.location)
    ensures status <==> Succeeded(db(call))
  {
    call := InsertWorkExperience(wek.employeeId, wek.companyName, wek.designation,
                                 wek.startDate, if wek.endDate.None? then None else Some(wek.endDate.value), wek.location);
    status := ReadStatus(db(call));
  }

  /** `addEducation`: the end date is converted without a null check. */
  method AddEducation(db: Procedures, ed: EducationDetails) returns (call: ProcedureCall, status: bool)
    requires ed.endDate.Some?
    ensures call == InsertEducation(ed.employeeId, ed.institution, ed.certification,
                                    ed.startDate, ed.endDate, ed.location)
    ensures status <==> Succeeded(db(call))
  {
    call := InsertEducation(ed.employeeId, ed.institution, ed.certification,
                            ed.startDate, Some(ed.endDate.value), ed.location);
    status := ReadStatus(db(call));
  }

  method AddLanguage(db: Procedures, ld: LanguageDetails) returns (call: ProcedureCall, status: bool)
    ensures call == InsertLanguage(ld.employeeId, ld.languageId)
    ensures status <==> Succeeded(db(call))
  {
    call := InsertLanguage(ld.employeeId, ld.languageId);
    status := ReadStatus(db(call));
  }
}
