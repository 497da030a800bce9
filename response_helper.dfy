/**
  The survey response recorder: ME and MOOD answers go to the `insertMeResponse`
  procedure, WE answers (an employee rating colleagues) to `insertWeResponse`, and the
  batch path first asks `isWeQuestionAnswered`. The response table is a mutable row
  sequence; the procedures are parameters that decide, from the rows and the requested
  row, whether the insert returns a row, returns none, or throws. A procedure that
  returns a row has stored it; one that returns none or throws has stored nothing.
*/
module ResponseHelper {
  import opened Common

  datatype QuestionType = ME | WE | MOOD

  /** A `Response` as the survey page hands it over. */
  datatype Response = Response(
    companyId: int, employeeId: int, questionId: int, questionType: QuestionType,
    responseValue: int, targetEmployee: int)

  /** A row of the response table, as one insert procedure call requests it. */
  datatype ResponseRow =
    | MeRow(companyId: int, empId: int, queId: int, responseTime: int, score: int, feedback: string)
    | WeRow(companyId: int, empId: int, queId: int, responseTime: int, targetId: int, wt: int)

  datatype InsertReply = RowReturned | NoRowReturned | Throws

  /** An insert procedure: its reply to a requested row, given the rows already stored. */
  type InsertProc = (seq<ResponseRow>, ResponseRow) -> InsertReply

  /** `isWeQuestionAnswered(empid, queid)` of a company: its `op` column read as a boolean
      (SQL NULL reads as false), or `None` when the call throws or returns no row (reading
      the column then throws). */
  type AnsweredQuery = (seq<ResponseRow>, int, int, int) -> Option<bool>

  /** The response table. */
  class ResponseStore {
    var rows: seq<ResponseRow>

    constructor (rows: seq<ResponseRow>)
      ensures this.rows == rows
    {
      this.rows := rows;
    }

    /** One insert procedure call; true when it returns a row. */
    method Insert(row: ResponseRow, insert: InsertProc) returns (reply: InsertReply)
      modifies this
      ensures reply == insert(old(rows), row)
      ensures rows == if reply == RowReturned then old(rows) + [row] else old(rows)
    {
      reply := insert(rows, row);
      if reply == RowReturned {
        rows := rows + [row];
      }
    }
  }

  /** The table after one insert call. */
  function AfterInsert(rows: seq<ResponseRow>, row: ResponseRow, insert: InsertProc): seq<ResponseRow> {
    if insert(rows, row) == RowReturned then rows + [row] else rows
  }

  /** `saveMeResponse`: one `insertMeResponse` call with an empty feedback text; true
      exactly when it returns a row. */
  method SaveMeResponse(store: ResponseStore, companyId: int, employeeId: int, questionId: int,
                        responseValue: int, now: int, insert: InsertProc) returns (responseSaved: bool)
    modifies store
    ensures var row := MeRow(companyId, employeeId, questionId, now, responseValue, "");
      && (responseSaved <==> insert(old(store.rows), row) == RowReturned)
      && store.rows == AfterInsert(old(store.rows), row, insert)
  {
    responseSaved := false;
    var reply := store.Insert(MeRow(companyId, employeeId, questionId, now, responseValue, ""), insert);
    if reply == RowReturned {
      responseSaved := true;
    }
  }

  /** The single-target `saveWeResponse`: one `insertWeResponse` call for (employee,
      question, target, value); true exactly when it returns a row. */
  method SaveWeResponse(store: ResponseStore, companyId: int, employeeId: int, questionId: int,
                        targetEmployee: int, responseValue: int, now: int, insert: InsertProc)
    returns (responseSaved: bool)
    modifies store
    ensures var row := WeRow(companyId, employeeId, questionId, now, targetEmployee, responseValue);
      && (responseSaved <==> insert(old(store.rows), row) == RowReturned)
      && store.rows == AfterInsert(old(store.rows), row, insert)
  {
    responseSaved := false;
    var reply := store.Insert(WeRow(companyId, employeeId, questionId, now, targetEmployee, responseValue), insert);
    if reply == RowReturned {
      responseSaved := true;
    }
  }

  // ---------------------------------------------------------------- saveAllResponses

  /** The insert a response leads to: ME and MOOD answers become an ME row with empty
      feedback, every other answer a WE row for its target employee. */
  function RowOf(r: Response, now: int): (row: ResponseRow)
    ensures row.MeRow? <==> r.questionType == ME || r.questionType == MOOD
    ensures row.companyId == r.companyId && row.empId == r.employeeId && row.queId == r.questionId
    ensures row.responseTime == now
    ensures row.MeRow? ==> row.score == r.responseValue && row.feedback == ""
    ensures row.WeRow? ==> row.targetId == r.targetEmployee && row.wt == r.responseValue
  {
    if r.questionType == ME || r.questionType == MOOD then
      MeRow(r.companyId, r.employeeId, r.questionId, now, r.responseValue, "")
    else WeRow(r.companyId, r.employeeId, r.questionId, now, r.targetEmployee, r.responseValue)
  }

  /** The saved flags and the table after saving every response of the list in order. */
  datatype SaveRun = SaveRun(rows: seq<ResponseRow>, flags: seq<bool>)

  function SaveEach(rows: seq<ResponseRow>, responses: seq<Response>, now: int, insert: InsertProc): (r: SaveRun)
    ensures |r.flags| == |responses|
  {
    if responses == [] then SaveRun(rows, [])
    else
      var prev := SaveEach(rows, responses[..|responses| - 1], now, insert);
      var row := RowOf(responses[|responses| - 1], now);
      SaveRun(AfterInsert(prev.rows, row, insert), prev.flags + [insert(prev.rows, row) == RowReturned])
  }

  /** Every response is attempted, in order, whatever the earlier ones gave: response `i`
      is inserted into the table the first `i` responses left, and its flag is its own
      insert's result. */
  lemma {:induction false} SaveEachAttemptsAll(rows: seq<ResponseRow>, responses: seq<Response>, now: int,
                                               insert: InsertProc, i: nat)
    requires i < |responses|
    ensures var before := SaveEach(rows, responses[..i], now, insert);
      var after := SaveEach(rows, responses[..i + 1], now, insert);
      && after.rows == AfterInsert(before.rows, RowOf(responses[i], now), insert)
      && SaveEach(rows, responses, now, insert).flags[i] == (insert(before.rows, RowOf(responses[i], now)) == RowReturned)
  {
    assert responses[..i + 1][..i] == responses[..i];
    if i + 1 < |responses| {
      var pre := responses[..|responses| - 1];
      SaveEachAttemptsAll(rows, pre, now, insert, i);
      assert pre[..i] == responses[..i] && pre[..i + 1] == responses[..i + 1];
    } else {
      assert responses[..i + 1] == responses;
    }
  }

  /** One response through the dispatch of `saveAllResponses`. */
  method SaveResponse(store: ResponseStore, respObj: Response, now: int, insert: InsertProc) returns (flag: bool)
    modifies store
    ensures var row := RowOf(respObj, now);
      && (flag <==> insert(old(store.rows), row) == RowReturned)
      && store.rows == AfterInsert(old(store.rows), row, insert)
  {
    if respObj.questionType == ME || respObj.questionType == MOOD {
      flag := SaveMeResponse(store, respObj.companyId, respObj.employeeId, respObj.questionId, respObj.responseValue, now, insert);
    } else {
      flag := SaveWeResponse(store, respObj.companyId, respObj.employeeId, respObj.questionId, respObj.targetEmployee,
                             respObj.responseValue, now, insert);
    }
  }

  /** The flag `saveAllResponses` folds: it starts true and is OR-ed with each result. */
  function OrFold(acc: bool, flags: seq<bool>): bool
    decreases |flags|
  {
    if flags == [] then acc else OrFold(acc || flags[0], flags[1..])
  }

  /** The flag the method evidently means to return: true when every response was saved. */
  predicate AllSaved(flags: seq<bool>) {
    forall i :: 0 <= i < |flags| ==> flags[i]
  }

  lemma AllSavedAppend(flags: seq<bool>, b: bool)
    ensures AllSaved(flags + [b]) <==> AllSaved(flags) && b
  {
    if AllSaved(flags + [b]) {
      assert b == (flags + [b])[|flags|];
      forall i | 0 <= i < |flags| ensures flags[i] {
        assert flags[i] == (flags + [b])[i];
      }
    }
  }

  /** An OR-fold that starts true is true whatever the results are. */
  lemma {:induction false} OrFoldFromTrue(flags: seq<bool>)
    ensures OrFold(true, flags)
  {
    if flags != [] {
      OrFoldFromTrue(flags[1..]);
    }
  }

  /** The fold as written and the one intended differ on a list with one failed save. */
  lemma OrFoldHidesFailure()
    ensures OrFold(true, [false]) && !AllSaved([false])
  {
    assert [false][0] == false;
    assert [false][1..] == [];
  }

  /** `saveAllResponses` as written: every response is attempted in order, and the result
      is the OR-fold from true, which is always true. */
  method SaveAllResponses(store: ResponseStore, responseList: seq<Response>, now: int, insert: InsertProc)
    returns (allResponsesSaved: bool)
    modifies store
    ensures var run := SaveEach(old(store.rows), responseList, now, insert);
      && store.rows == run.rows
      && allResponsesSaved == OrFold(true, run.flags)
      && allResponsesSaved
  {
    ghost var rows0 := store.rows;
    allResponsesSaved := true;
    ghost var flags: seq<bool> := [];
    if |responseList| > 0 {
      for i := 0 to |responseList|
        invariant var run := SaveEach(rows0, responseList[..i], now, insert);
          store.rows == run.rows && flags == run.flags
        invariant allResponsesSaved
      {
        assert responseList[..i + 1][..i] == responseList[..i];
        var flag := SaveResponse(store, responseList[i], now, insert);
        flags := flags + [flag];
        allResponsesSaved := allResponsesSaved || flag;
      }
      assert responseList[..|responseList|] == responseList;
    }
    OrFoldFromTrue(SaveEach(rows0, responseList, now, insert).flags);
  }

  /** `saveAllResponses` with the fold it was meant to have: true exactly when every
      response was saved. */
  method SaveAllResponsesStrict(store: ResponseStore, responseList: seq<Response>, now: int, insert: InsertProc)
    returns (allResponsesSaved: bool)
    modifies store
    ensures var run := SaveEach(old(store.rows), responseList, now, insert);
      && store.rows == run.rows
      && (allResponsesSaved <==> AllSaved(run.flags))
  {
    ghost var rows0 := store.rows;
    allResponsesSaved := true;
    for i := 0 to |responseList|
      invariant var run := SaveEach(rows0, responseList[..i], now, insert);
        store.rows == run.rows && (allResponsesSaved <==> AllSaved(run.flags))
    {
      assert responseList[..i + 1][..i] == responseList[..i];
      ghost var before := SaveEach(rows0, responseList[..i], now, insert).flags;
      var flag := SaveResponse(store, responseList[i], now, insert);
      allResponsesSaved := allResponsesSaved && flag;
      AllSavedAppend(before, flag);
    }
    assert responseList[..|responseList|] == responseList;
  }

  // ---------------------------------------------------------------- batch saveWeResponse

  /** The order the rating map's keys are visited in: each key once. */
  ghost predicate IsKeyOrder(order: seq<Employee>, employeeRating: map<Employee, int>) {
    && (forall i, j :: 0 <= i < j < |order| ==> order[i] != order[j])
    && (forall e :: e in employeeRating <==> e in order)
  }

  /** The insert calls of the batch path, one per key in visiting order. */
  function WeCalls(companyId: int, employeeId: int, questionId: int, employeeRating: map<Employee, int>,
                   order: seq<Employee>, now: int): (calls: seq<ResponseRow>)
    requires forall i :: 0 <= i < |order| ==> order[i] in employeeRating
    ensures |calls| == |order|
  {
    seq(|order|, i requires 0 <= i < |order| =>
      WeRow(companyId, employeeId, questionId, now, order[i].employeeId, employeeRating[order[i]]))
  }

  /** Each rated employee gets exactly one insert call, with that employee as the target
      and its rating as the weight; there is no other call. */
  lemma WeCallsPerKey(companyId: int, employeeId: int, questionId: int, employeeRating: map<Employee, int>,
                      order: seq<Employee>, now: int, e: Employee)
    requires IsKeyOrder(order, employeeRating)
    ensures var calls := WeCalls(companyId, employeeId, questionId, employeeRating, order, now);
      && (e in employeeRating ==>
            exists i :: 0 <= i < |order| && order[i] == e
              && calls[i] == WeRow(companyId, employeeId, questionId, now, e.employeeId, employeeRating[e]))
      && (forall i, j :: 0 <= i < j < |order| && order[i] == e ==> order[j] != e)
      && (forall i :: 0 <= i < |calls| ==> order[i] in employeeRating && calls[i].targetId == order[i].employeeId)
  {
    if e in employeeRating {
      var i :| 0 <= i < |order| && order[i] == e;
    }
  }

  /** How far the batch loop got: the table, the saved flag, the count of inserts that
      returned a row, the number of calls made, and whether one threw. */
  datatype BatchRun = BatchRun(rows: seq<ResponseRow>, saved: bool, count: nat, attempted: nat, threw: bool)

  /** The insert calls from `acc` on, one after the other; a throwing call ends the loop. */
  function RunInserts(acc: BatchRun, calls: seq<ResponseRow>, insert: InsertProc): BatchRun
    decreases |calls|
  {
    if calls == [] then acc
    else
      match insert(acc.rows, calls[0])
      case Throws => acc.(attempted := acc.attempted + 1, threw := true)
      case NoRowReturned => RunInserts(acc.(attempted := acc.attempted + 1), calls[1..], insert)
      case RowReturned =>
        RunInserts(BatchRun(acc.rows + [calls[0]], true, acc.count + 1, acc.attempted + 1, false), calls[1..], insert)
  }

  /** What the loop does to the table: earlier rows stay, one row is added per insert
      that returned a row, and the flag is true exactly when there was one. */
  lemma {:induction false} RunInsertsRows(acc: BatchRun, calls: seq<ResponseRow>, insert: InsertProc)
    requires acc.saved <==> acc.count > 0
    ensures var r := RunInserts(acc, calls, insert);
      && |acc.rows| <= |r.rows| && r.rows[..|acc.rows|] == acc.rows
      && |r.rows| - |acc.rows| == r.count - acc.count
      && (r.saved <==> r.count > 0)
    decreases |calls|
  {
    if calls != [] {
      match insert(acc.rows, calls[0])
      case Throws =>
      case NoRowReturned =>
        RunInsertsRows(acc.(attempted := acc.attempted + 1), calls[1..], insert);
      case RowReturned =>
        var next := BatchRun(acc.rows + [calls[0]], true, acc.count + 1, acc.attempted + 1, false);
        RunInsertsRows(next, calls[1..], insert);
        var r := RunInserts(next, calls[1..], insert);
        assert r.rows[..|next.rows|][..|acc.rows|] == r.rows[..|acc.rows|];
    }
  }

  /** Which calls are made: all of them unless one throws, and none after the one that
      throws. */
  lemma {:induction false} RunInsertsAttempts(acc: BatchRun, calls: seq<ResponseRow>, insert: InsertProc)
    requires !acc.threw
    ensures var r := RunInserts(acc, calls, insert);
      && acc.attempted <= r.attempted <= acc.attempted + |calls|
      && (!r.threw ==> r.attempted == acc.attempted + |calls|)
      && (r.threw ==> r.attempted > acc.attempted
                      && insert(r.rows, calls[r.attempted - acc.attempted - 1]) == Throws)
    decreases |calls|
  {
    if calls != [] {
      var next := match insert(acc.rows, calls[0])
        case Throws => acc
        case NoRowReturned => acc.(attempted := acc.attempted + 1)
        case RowReturned => BatchRun(acc.rows + [calls[0]], true, acc.count + 1, acc.attempted + 1, false);
      if insert(acc.rows, calls[0]) != Throws {
        RunInsertsAttempts(next, calls[1..], insert);
        var r := RunInserts(next, calls[1..], insert);
        if r.threw {
          assert calls[r.attempted - acc.attempted - 1] == calls[1..][r.attempted - next.attempted - 1];
        }
      }
    }
  }

  /** Every row the loop stores is one of the calls it made. */
  lemma {:induction false} RunInsertsStored(acc: BatchRun, calls: seq<ResponseRow>, insert: InsertProc)
    requires !acc.threw && (acc.saved <==> acc.count > 0)
    ensures var r := RunInserts(acc, calls, insert);
      && |acc.rows| <= |r.rows| && acc.attempted <= r.attempted <= acc.attempted + |calls|
      && (forall k :: |acc.rows| <= k < |r.rows| ==> r.rows[k] in calls[..r.attempted - acc.attempted])
    decreases |calls|
  {
    RunInsertsRows(acc, calls, insert);
    RunInsertsAttempts(acc, calls, insert);
    if calls != [] && insert(acc.rows, calls[0]) != Throws {
      var next := if insert(acc.rows, calls[0]) == NoRowReturned then acc.(attempted := acc.attempted + 1)
                  else BatchRun(acc.rows + [calls[0]], true, acc.count + 1, acc.attempted + 1, false);
      RunInsertsStored(next, calls[1..], insert);
      RunInsertsRows(next, calls[1..], insert);
      var r := RunInserts(next, calls[1..], insert);
      assert calls[1..][..r.attempted - next.attempted] == calls[1..r.attempted - acc.attempted];
      forall k | |acc.rows| <= k < |r.rows| ensures r.rows[k] in calls[..r.attempted - acc.attempted] {
        if k < |next.rows| {
          assert r.rows[k] == r.rows[..|next.rows|][k] == calls[0];
        } else {
          assert r.rows[k] in calls[1..][..r.attempted - next.attempted];
        }
      }
    }
  }

  /** The start of the batch loop: nothing saved, nothing counted, no call made. */
  function BatchStart(rows: seq<ResponseRow>): BatchRun {
    BatchRun(rows, false, 0, 0, false)
  }

  /** The batch `saveWeResponse`: when `isWeQuestionAnswered` reports the question
      answered (or fails) no insert is made and the result is false; otherwise one
      insert per rated employee, and the result is true when at least one returned a row.
      Inserts made before one that throws are kept. `order` is the order the map's keys
      are visited in. */
  method SaveWeResponseBatch(store: ResponseStore, companyId: int, employeeId: int, questionId: int,
                             employeeRating: map<Employee, int>, order: seq<Employee>, now: int,
                             isWeQuestionAnswered: AnsweredQuery, insert: InsertProc)
    returns (responseSaved: bool)
    requires IsKeyOrder(order, employeeRating)
    modifies store
    ensures isWeQuestionAnswered(old(store.rows), companyId, employeeId, questionId) != Some(false) ==>
      !responseSaved && store.rows == old(store.rows)
    ensures isWeQuestionAnswered(old(store.rows), companyId, employeeId, questionId) == Some(false) ==>
      var r := RunInserts(BatchStart(old(store.rows)), WeCalls(companyId, employeeId, questionId, employeeRating, order, now), insert);
      responseSaved == r.saved && store.rows == r.rows
  {
    responseSaved := false;
    var count := 0;
    var answered := isWeQuestionAnswered(store.rows, companyId, employeeId, questionId);
    if answered.None? || answered.value {
      return;
    }
    ghost var calls := WeCalls(companyId, employeeId, questionId, employeeRating, order, now);
    ghost var goal := RunInserts(BatchStart(store.rows), calls, insert);
    ghost var attempted := 0;
    var i := 0;
    while i < |order|
      invariant 0 <= i <= |order| && attempted == i
      invariant goal == RunInserts(BatchRun(store.rows, responseSaved, count, attempted, false), calls[i..], insert)
    {
      var e := order[i];
      var reply := store.Insert(WeRow(companyId, employeeId, questionId, now, e.employeeId, employeeRating[e]), insert);
      assert calls[i..][0] == calls[i] && calls[i..][1..] == calls[i + 1..];
      if reply == Throws {
        return;
      }
      if reply == RowReturned {
        responseSaved := true;
        count := count + 1;
      }
      attempted := attempted + 1;
      i := i + 1;
    }
  }

  /** The batch result: false and the table unchanged when the question is already
      answered; otherwise true exactly when the table grew, that is, when some insert
      returned a row, every row stored is one of the requested rows, and the rows stored
      before any exception are kept. */
  lemma BatchMeaning(rows: seq<ResponseRow>, companyId: int, employeeId: int, questionId: int,
                     employeeRating: map<Employee, int>, order: seq<Employee>, now: int, insert: InsertProc)
    requires IsKeyOrder(order, employeeRating)
    ensures var calls := WeCalls(companyId, employeeId, questionId, employeeRating, order, now);
      var r := RunInserts(BatchStart(rows), calls, insert);
      && |rows| <= |r.rows| && r.rows[..|rows|] == rows
      && (r.saved <==> |r.rows| > |rows|)
      && (forall k :: |rows| <= k < |r.rows| ==> r.rows[k] in calls && r.rows[k].targetId in (set e | e in employeeRating :: e.employeeId))
      && (!r.threw ==> r.attempted == |employeeRating.Keys|)
  {
    var calls := WeCalls(companyId, employeeId, questionId, employeeRating, order, now);
    RunInsertsRows(BatchStart(rows), calls, insert);
    RunInsertsAttempts(BatchStart(rows), calls, insert);
    RunInsertsStored(BatchStart(rows), calls, insert);
    var r := RunInserts(BatchStart(rows), calls, insert);
    forall k | |rows| <= k < |r.rows|
      ensures r.rows[k] in calls && r.rows[k].targetId in (set e | e in employeeRating :: e.employeeId)
    {
      assert r.rows[k] in calls[..r.attempted];
      var j :| 0 <= j < r.attempted && calls[..r.attempted][j] == r.rows[k];
      assert calls[j] == r.rows[k];
      assert order[j] in employeeRating;
    }
    KeyOrderLength(order, employeeRating);
  }

  /** A visiting order lists as many keys as the map has. */
  lemma {:induction false} KeyOrderLength(order: seq<Employee>, employeeRating: map<Employee, int>)
    requires IsKeyOrder(order, employeeRating)
    ensures |order| == |employeeRating.Keys|
    decreases |order|
  {
    if order != [] {
      var last := order[|order| - 1];
      var pre := order[..|order| - 1];
      var rest := employeeRating - {last};
      forall e ensures e in rest <==> e in pre {
        if e in pre {
          var i :| 0 <= i < |pre| && pre[i] == e;
          assert order[i] == e;
        }
        if e in rest {
          assert e in order;
          var i :| 0 <= i < |order| && order[i] == e;
          assert i != |order| - 1;
          assert pre[i] == e;
        }
      }
      KeyOrderLength(pre, rest);
      assert employeeRating.Keys == rest.Keys + {last};
    } else {
      assert employeeRating.Keys == {} by {
        forall e | e in employeeRating ensures false {
        }
      }
    }
  }
}
