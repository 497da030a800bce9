# OWEN core: initiatives, employee profiles and survey responses

This project models three parts of the OWEN back end in Dafny.

- **`Initiative`** manages initiatives in a property graph. An Init node carries the
  initiative's properties. `part_of` relationships run to it from employees (for an
  "Individual" initiative) or from Function, Position and Zone nodes (for a "Team"
  initiative), and `owner_of` relationships run to it from its owners.
  The class creates the node (`create`), which also:
  - gives the node the next Id;
  - derives its status from the start date;
  - connects it by category;
  - counts the team;
  - stores the team's metric values.

  It also updates the node's properties and owners (`updateInitiative`) and flags the
  node Deleted or Completed.
- **`EmployeeHelper`** reads an employee's profile from the result rows of stored
  procedures:
  - basic details;
  - work experience, latest first, with the duration text of an ongoing job;
  - education, latest first;
  - languages, and the language master map.

  It also reads the success flag of the add, remove and update procedures.
- **`ResponseHelper`** saves survey answers:
  - ME and MOOD answers through `insertMeResponse`;
  - WE answers through `insertWeResponse`;
  - a whole WE rating map, but only if `isWeQuestionAnswered` reports the question
    unanswered.

Files:
- `common.dfy`: shared `Option` and `Employee`.
- `stable_sort.dfy`: the stable descending sort `Collections.sort` performs with the
  start-date comparators.
- `periods.dfy`: `Period.between`, the duration text, and reading that text back.
- `employee_helper.dfy`: the employee helper.
- `initiative_graph.dfy`: the graph state. Each Cypher query and each whole operation of
  `Initiative` is a function on it, with its lemmas.
- `initiative.dfy`: the class `Initiative` and a mutable `GraphStore`. Every method is
  proved against the functions of `initiative_graph.dfy`.
- `response_helper.dfy`: the response helper over a mutable response table.

Databases, the clock and the stored procedures are parameters:
- a result set is the sequence of rows the loop reads;
- a procedure is an oracle from the call to its reply;
- "now" is a value;
- which graph query throws is a set `faults` of steps.

## Model

| member | source | states |
|---|---|---|
| StableSort.SortDesc | src/main/java/org/icube/owen/employee/EmployeeHelper.java:104-113 | the sorted list has the same length and the same elements (as a multiset) as the input |
| StableSort.InsertDesc | src/main/java/org/icube/owen/employee/EmployeeHelper.java:104-113 | inserting one element gives a list one longer, holding the old elements plus the new one |
| StableSort.InsertDescSorted | src/main/java/org/icube/owen/employee/EmployeeHelper.java:104-113 | inserting into a list in descending key order keeps it in descending order |
| StableSort.SortDescSorted | src/main/java/org/icube/owen/employee/EmployeeHelper.java:107-112 | the sort result is in descending start-date order (`we2.compareTo(we1)`) |
| StableSort.SortDescStable | src/main/java/org/icube/owen/employee/EmployeeHelper.java:107-112 | stability: for every key, the elements with that key keep their input order |
| StableSort.SortDescOfSorted | src/main/java/org/icube/owen/employee/EmployeeHelper.java:106-113 | sorting a list that is already in order leaves it unchanged |
| StableSort.ResortAfterAppend | src/main/java/org/icube/owen/employee/EmployeeHelper.java:104-113 | appending to a sorted list and sorting again equals sorting all elements at once, so re-sorting inside the loop is the same as sorting once |
| StableSort.SortedRunsDetermine | src/main/java/org/icube/owen/employee/EmployeeHelper.java:107-112 | two ordered lists with the same per-key element order are equal |
| StableSort.StableSortUnique | src/main/java/org/icube/owen/employee/EmployeeHelper.java:107-112 | any ordered list that keeps each key's input order is the sort result, so the result is what any stable sort with this comparator returns |
| Periods.MonthLength | src/main/java/org/icube/owen/employee/EmployeeHelper.java:97 | a valid month has 28 to 31 days, so `LocalDate.of` accepts every date read from a row |
| Periods.DateKeyOrder | src/main/java/org/icube/owen/employee/EmployeeHelper.java:110 | the integer sort key orders dates as the calendar does, and is equal exactly for equal dates |
| Periods.PeriodBetween | src/main/java/org/icube/owen/employee/EmployeeHelper.java:98 | years*12+months is the total month count; both parts share its sign and months stay between -11 and 11 |
| Periods.WholeMonthsElapsed | src/main/java/org/icube/owen/employee/EmployeeHelper.java:98 | for a start on or before today, the month count is the largest number of whole months from start to today |
| Periods.PeriodAntisymmetric | src/main/java/org/icube/owen/employee/EmployeeHelper.java:98 | swapping the dates negates the period, so a start in the future gives a negative duration |
| Periods.PeriodOfWholeMonths | src/main/java/org/icube/owen/employee/EmployeeHelper.java:98 | a start exactly y years and m months before today gives Period(y, m) |
| Periods.NatToString | src/main/java/org/icube/owen/employee/EmployeeHelper.java:99 | a natural number prints as a non-empty run of digits |
| Periods.IndexOfY | src/main/java/org/icube/owen/employee/EmployeeHelper.java:99 | finds the first 'y' of the text, or the end when there is none |
| Periods.ParseNatToString | src/main/java/org/icube/owen/employee/EmployeeHelper.java:99 | printing a natural number and reading it back gives it again |
| Periods.ParseIntToString | src/main/java/org/icube/owen/employee/EmployeeHelper.java:99 | printing an int (with its minus sign) and reading it back gives it again |
| Periods.ParseDurationText | src/main/java/org/icube/owen/employee/EmployeeHelper.java:99 | "<Y>years <M>months" can be read back into the period it was built from, negative parts included |
| Periods.TwoYearsThreeMonths | src/main/java/org/icube/owen/employee/EmployeeHelper.java:91-100 | example: a job that started on 2014-01-10 and is still ongoing on 2016-04-10 has the duration text "2years 3months" |
| EmployeeHelper.GetBasicEmployeeDetails | src/main/java/org/icube/owen/employee/EmployeeHelper.java:30-61 | with no row the bean is returned as constructed; otherwise every field comes from the last row, with the requested employee id |
| EmployeeHelper.WorkExperiences | src/main/java/org/icube/owen/employee/EmployeeHelper.java:81-104 | one work-experience record per row |
| EmployeeHelper.SortedWorkExperiences | src/main/java/org/icube/owen/employee/EmployeeHelper.java:81-113 | the final list is sorted latest start first, holds exactly the row records and keeps row order among equal start dates; every record has the requested employee id; the duration is Period.between(start, today) text when the end date is null, "" otherwise |
| EmployeeHelper.GetWorkExperienceDetails | src/main/java/org/icube/owen/employee/EmployeeHelper.java:69-128 | the list built by appending and re-sorting inside the loop equals one stable sort of all the row records |
| EmployeeHelper.EducationList | src/main/java/org/icube/owen/employee/EmployeeHelper.java:149-159 | one education record per row |
| EmployeeHelper.GetEducationDetails | src/main/java/org/icube/owen/employee/EmployeeHelper.java:137-177 | the list is the stable sort of the row records, latest start first: it is sorted, has the records' elements, and each record carries the requested employee id |
| EmployeeHelper.GetEmployeeLanguageDetails | src/main/java/org/icube/owen/employee/EmployeeHelper.java:185-211 | one language record per row, in row order, with the row's ids and name and the requested employee id |
| EmployeeHelper.GetLanguageMasterMap | src/main/java/org/icube/owen/employee/EmployeeHelper.java:218-235 | the keys are exactly the language ids of the rows, and each id maps to the name in the last row with that id |
| EmployeeHelper.ReadStatus | src/main/java/org/icube/owen/employee/EmployeeHelper.java:251-263 | an SQL error, an empty result or a NULL/false first column gives false; a true first column gives true |
| EmployeeHelper.RemoveWorkExperienceOp | src/main/java/org/icube/owen/employee/EmployeeHelper.java:243-266 | calls removeWorkExperience with the id, and the status is the procedure's success flag |
| EmployeeHelper.RemoveEducationOp | src/main/java/org/icube/owen/employee/EmployeeHelper.java:274-296 | calls removeEducation with the id, and the status is the procedure's success flag |
| EmployeeHelper.RemoveLanguageOp | src/main/java/org/icube/owen/employee/EmployeeHelper.java:304-325 | calls removeLanguage with the id, and the status is the procedure's success flag |
| EmployeeHelper.UpdateBasicDetails | src/main/java/org/icube/owen/employee/EmployeeHelper.java:333-357 | sends only the employee id and the phone number; the status is the procedure's success flag |
| EmployeeHelper.AddWorkExperience | src/main/java/org/icube/owen/employee/EmployeeHelper.java:365-393 | sends the work experience's fields, with a null end date passed as NULL; the status is the success flag |
| EmployeeHelper.AddEducation | src/main/java/org/icube/owen/employee/EmployeeHelper.java:401-430 | sends the education's fields; the status is the success flag |
| EmployeeHelper.AddLanguage | src/main/java/org/icube/owen/employee/EmployeeHelper.java:438-462 | sends the employee and language ids; the status is the success flag |
| InitiativeGraph.CheckInitiativeStatus | src/main/java/org/icube/owen/initiative/Initiative.java:474-480 | Pending exactly when the start date is strictly after now, Active exactly when it is not |
| InitiativeGraph.IgnoreCaseExamples | src/main/java/org/icube/owen/initiative/Initiative.java:107-113 | example: "TEAM" and "Team" match the category "Team"; "Teams" and "Individual" do not |
| InitiativeGraph.MaxOf | src/main/java/org/icube/owen/initiative/Initiative.java:90 | `max(i.Id)` is an Id of the graph and no Id is larger |
| InitiativeGraph.NextId | src/main/java/org/icube/owen/initiative/Initiative.java:90 | the new Id is larger than every existing Id; it is 1 on an empty graph and otherwise one more than an existing Id |
| InitiativeGraph.NextIdPositive | src/main/java/org/icube/owen/initiative/Initiative.java:90-104 | on a valid graph the new Id is positive, so `create` continues past the `initiativeId > 0` test |
| InitiativeGraph.AddInitNode | src/main/java/org/icube/owen/initiative/Initiative.java:90-95 | the node query adds exactly the new node under the new Id and keeps every other node |
| InitiativeGraph.FacetQueryOf | src/main/java/org/icube/owen/initiative/Initiative.java:235-257 | the query matches every node of the label exactly when the value list contains 0, and otherwise matches the listed ids |
| InitiativeGraph.AddFacetPartOfFrame | src/main/java/org/icube/owen/initiative/Initiative.java:236-255 | a facet query only adds part_of relationships, from facet nodes to an existing initiative with the given Id |
| InitiativeGraph.GetFilterValueIdList | src/main/java/org/icube/owen/initiative/Initiative.java:308-312 | the id list holds exactly the keys of the filter's value map |
| InitiativeGraph.ParamsOfKeys | src/main/java/org/icube/owen/initiative/Initiative.java:223-228 | a name is in the params map exactly when some filter has that exact name |
| InitiativeGraph.ParamsOfLastWins | src/main/java/org/icube/owen/initiative/Initiative.java:225-228 | of several filters with one name, the last one's ids are kept (`HashMap.put` replaces) |
| InitiativeGraph.SetPartOfMissingFacet | src/main/java/org/icube/owen/initiative/Initiative.java:232-266 | when no filter is named Function, Zone or Position, one lookup gives null, and `setPartOf` returns false with the graph unchanged |
| InitiativeGraph.SetPartOfFacetRule | src/main/java/org/icube/owen/initiative/Initiative.java:217-270 | with all three facets present and no query throwing, the result is true and a facet node gets part_of exactly when it has the label and its list holds 0 or the node's Id; nothing else changes |
| InitiativeGraph.SetPartOfFrame | src/main/java/org/icube/owen/initiative/Initiative.java:217-270 | `setPartOf` only adds facet part_of relationships to the initiative, whichever query throws |
| InitiativeGraph.ContributesToOne | src/main/java/org/icube/owen/initiative/Initiative.java:127-135 | no filter passes the name test of two facets, so the else-if chain loses no ids |
| InitiativeGraph.TeamSizeIdsMembers | src/main/java/org/icube/owen/initiative/Initiative.java:127-135 | an id restricts a facet's team count exactly when some filter whose name matches the facet (ignoring case), and whose values lack 0, has it; 0 never restricts |
| InitiativeGraph.TeamSizeWhereShape | src/main/java/org/icube/owen/initiative/Initiative.java:137-146 | the concatenated condition is " where " plus the present clauses joined by one " and " each, or nothing when none is present |
| InitiativeGraph.JoinAt | src/main/java/org/icube/owen/initiative/Initiative.java:142-145 | in the joined condition the clauses sit at the even positions, in order, with " and " between them |
| InitiativeGraph.TeamSizeWhereMeaning | src/main/java/org/icube/owen/initiative/Initiative.java:137-149 | an employee is counted exactly when, for each facet with a non-empty list, its node's Id is in that list |
| InitiativeGraph.FirstMetricFault | src/main/java/org/icube/owen/initiative/Initiative.java:162-186 | the first metric insert that throws, or the end: every insert before it succeeds |
| InitiativeGraph.MetricRows | src/main/java/org/icube/owen/initiative/Initiative.java:162-172 | one metric value row per metric inserted |
| InitiativeGraph.TeamOutcomeFrame | src/main/java/org/icube/owen/initiative/Initiative.java:113-193 | the team branch keeps the Init nodes and adds only facet part_of and owner_of relationships to the new initiative, owners only for a non-empty owner list |
| InitiativeGraph.CreateInits | src/main/java/org/icube/owen/initiative/Initiative.java:90-103 | after `create` the Init nodes are the old ones, plus the new node unless the node query threw |
| InitiativeGraph.CreateAllocatesId | src/main/java/org/icube/owen/initiative/Initiative.java:84-206 | the returned id is 0 (graph untouched, no metric row) when the node query throws, otherwise the new node's Id, which is positive and larger than every earlier Id; the node holds the object's fields and the status of its start date |
| InitiativeGraph.CreateBranches | src/main/java/org/icube/owen/initiative/Initiative.java:104-194 | nothing is lost; employee part_of only for "Individual" and only from listed employees that exist; facet part_of, metric rows and owners only for "Team" (owners only for a non-empty list); any other category adds only the node |
| InitiativeGraph.CreateIndividualPartOf | src/main/java/org/icube/owen/initiative/Initiative.java:107-112 | when the part_of query does not throw, an employee is part of the new individual initiative exactly when it exists in the graph and is in the part-of list |
| InitiativeGraph.CreateStoresMetrics | src/main/java/org/icube/owen/initiative/Initiative.java:149-186 | a team initiative whose metric inserts do not throw calls the insert once per metric, in order, with the new Id, the metric's id and score, the time, and the team size counted after setPartOf |
| InitiativeGraph.CreatePreservesValid | src/main/java/org/icube/owen/initiative/Initiative.java:81-207 | `create` keeps every Id positive and every relationship ending at an Init node |
| InitiativeGraph.UpdateReplacesOwners | src/main/java/org/icube/owen/initiative/Initiative.java:436-466 | the initiative's owners become exactly the listed existing employees; other owners and all part_of stay; the result is true exactly when the property query runs; on success the status is recomputed from the start date (so Completed or Deleted becomes Active or Pending) and CreatedByEmpId is kept; the node becomes exactly the updated node; every other Init node is unchanged |
| InitiativeGraph.UpdateFailureKeepsNodes | src/main/java/org/icube/owen/initiative/Initiative.java:442-464 | a failed update changes no Init node and no part_of relationship |
| InitiativeGraph.UpdatePreservesValid | src/main/java/org/icube/owen/initiative/Initiative.java:436-466 | `updateInitiative` keeps the graph valid |
| InitiativeGraph.StatusOnlyFlags | src/main/java/org/icube/owen/initiative/Initiative.java:410-427 | flagging a status is true unless the query throws, removes nothing, changes only that node's status from whatever it was, and keeps the graph valid |
| Initiatives.GraphStore.CountTeam | src/main/java/org/icube/owen/initiative/Initiative.java:149-156 | the team-size query returns the number of placements that meet the condition; what that condition means, facet by facet, is stated by `InitiativeGraph.TeamSizeWhereMeaning` |
| Initiatives.GraphStore.CreateInitNode | src/main/java/org/icube/owen/initiative/Initiative.java:90-103 | stores the node under the next Id and returns that Id |
| Initiatives.FilterParams | src/main/java/org/icube/owen/initiative/Initiative.java:223-228 | the loop builds exactly the params map ParamsOf describes |
| Initiatives.EmployeeIdList | src/main/java/org/icube/owen/initiative/Initiative.java:284-287 | the id list has one id per employee, in order, and its elements are exactly the employees' ids |
| Initiatives.CollectTeamSizeIds | src/main/java/org/icube/owen/initiative/Initiative.java:123-135 | the loop's three lists are exactly the team-size ids of Function, Position and Zone |
| Initiatives.StoreMetricValues | src/main/java/org/icube/owen/initiative/Initiative.java:162-186 | appends the rows of the metrics before the first throwing insert, and reports an abort exactly when one threw |
| Initiatives.Initiative.constructor | src/main/java/org/icube/owen/initiative/Initiative.java:25-40 | a new initiative has zero ids, the empty strings its fields are initialised to, no dates, and empty lists for the lists Java leaves null |
| Initiatives.Initiative.SetInitiativeProperties | src/main/java/org/icube/owen/initiative/Initiative.java:58-73 | sets the eleven given fields and keeps the id, the status and the metrics |
| Initiatives.Initiative.Create | src/main/java/org/icube/owen/initiative/Initiative.java:81-207 | the returned id, the graph and the metric table are those of CreateResult; the object's id is set only when the returned id is positive |
| Initiatives.Initiative.SetPartOf | src/main/java/org/icube/owen/initiative/Initiative.java:217-270 | result and graph are those of SetPartOfOutcome |
| Initiatives.Initiative.SetEmployeesPartOf | src/main/java/org/icube/owen/initiative/Initiative.java:280-300 | true exactly when the query does not throw, and then part_of runs from exactly the listed existing employees |
| Initiatives.Initiative.SetOwner | src/main/java/org/icube/owen/initiative/Initiative.java:322-340 | true exactly when the query does not throw, and then owner_of runs from exactly the listed existing employees |
| Initiatives.Initiative.Delete | src/main/java/org/icube/owen/initiative/Initiative.java:410-427 | flags the node Deleted, as StatusResult says |
| Initiatives.Initiative.Complete | src/main/java/org/icube/owen/initiative/Initiative.java:489-505 | flags the node Completed, as StatusResult says |
| Initiatives.Initiative.UpdateInitiative | src/main/java/org/icube/owen/initiative/Initiative.java:436-466 | result and graph are those of UpdateResult on the updated object's fields |
| Initiatives.Initiative.SetInitiativeName | src/main/java/org/icube/owen/initiative/Initiative.java:511-513 | changes the name and no other field |
| Initiatives.Initiative.SetInitiativeTypeId | src/main/java/org/icube/owen/initiative/Initiative.java:519-521 | changes the type id and no other field |
| Initiatives.Initiative.SetInitiativeStartDate | src/main/java/org/icube/owen/initiative/Initiative.java:527-529 | changes the start date and no other field |
| Initiatives.Initiative.SetInitiativeEndDate | src/main/java/org/icube/owen/initiative/Initiative.java:535-537 | changes the end date and no other field |
| Initiatives.Initiative.SetInitiativeComment | src/main/java/org/icube/owen/initiative/Initiative.java:543-545 | changes the comment and no other field |
| Initiatives.Initiative.SetInitiativeId | src/main/java/org/icube/owen/initiative/Initiative.java:551-553 | changes the id and no other field |
| Initiatives.Initiative.SetFilterList | src/main/java/org/icube/owen/initiative/Initiative.java:559-561 | changes the filter list and no other field |
| Initiatives.Initiative.SetOwnerOfList | src/main/java/org/icube/owen/initiative/Initiative.java:567-569 | changes the owner list and no other field |
| Initiatives.Initiative.SetInitiativeCategory | src/main/java/org/icube/owen/initiative/Initiative.java:575-577 | changes the category and no other field |
| Initiatives.Initiative.SetInitiativeStatus | src/main/java/org/icube/owen/initiative/Initiative.java:583-585 | changes the status text and no other field |
| Initiatives.Initiative.SetPartOfEmployeeList | src/main/java/org/icube/owen/initiative/Initiative.java:591-593 | changes the part-of employee list and no other field |
| Initiatives.Initiative.SetInitiativeMetrics | src/main/java/org/icube/owen/initiative/Initiative.java:612-614 | changes the metrics list and no other field |
| Initiatives.Initiative.SetInitiativeCreationDate | src/main/java/org/icube/owen/initiative/Initiative.java:620-622 | changes the creation date and no other field |
| Initiatives.Initiative.SetCreatedByEmpId | src/main/java/org/icube/owen/initiative/Initiative.java:628-630 | changes the creator's id and no other field |
| ResponseHelper.ResponseStore.Insert | src/main/java/org/icube/owen/survey/ResponseHelper.java:73-79 | one insert call: the table grows by the row exactly when the procedure returns a row |
| ResponseHelper.SaveMeResponse | src/main/java/org/icube/owen/survey/ResponseHelper.java:62-87 | one insertMeResponse with the score and an empty feedback; true exactly when it returns a row, which is then the only row added |
| ResponseHelper.SaveWeResponse | src/main/java/org/icube/owen/survey/ResponseHelper.java:98-135 | one insertWeResponse for the target with the rating; true exactly when it returns a row, which is then the only row added |
| ResponseHelper.RowOf | src/main/java/org/icube/owen/survey/ResponseHelper.java:31-46 | ME and MOOD answers become an ME row (score, empty feedback), WE answers a WE row (target, weight); ids and time come from the response |
| ResponseHelper.SaveResponse | src/main/java/org/icube/owen/survey/ResponseHelper.java:30-46 | one response through the dispatch: the insert of RowOf, and its result flag |
| ResponseHelper.SaveEach | src/main/java/org/icube/owen/survey/ResponseHelper.java:29-47 | one saved flag per response |
| ResponseHelper.SaveEachAttemptsAll | src/main/java/org/icube/owen/survey/ResponseHelper.java:29-47 | every response is attempted in order, whatever the earlier ones gave: response i is inserted into the table its predecessors left |
| ResponseHelper.OrFoldFromTrue | src/main/java/org/icube/owen/survey/ResponseHelper.java:24-50 | the OR-fold starting at true is true whatever the results |
| ResponseHelper.OrFoldHidesFailure | src/main/java/org/icube/owen/survey/ResponseHelper.java:35-37 | one failed save: the fold as written gives true, though not every response was saved |
| ResponseHelper.SaveAllResponses | src/main/java/org/icube/owen/survey/ResponseHelper.java:23-51 | as written: the table is that of saving each response in order, and the result is the OR-fold from true, hence always true |
| ResponseHelper.SaveAllResponsesStrict | src/main/java/org/icube/owen/survey/ResponseHelper.java:23-51 | corrected: the same table, and the result is true exactly when every response was saved |
| ResponseHelper.WeCalls | src/main/java/org/icube/owen/survey/ResponseHelper.java:160-171 | one insert call per visited key |
| ResponseHelper.WeCallsPerKey | src/main/java/org/icube/owen/survey/ResponseHelper.java:160-171 | each rated employee gets exactly one call, with that employee as target and its rating as weight |
| ResponseHelper.RunInsertsRows | src/main/java/org/icube/owen/survey/ResponseHelper.java:160-183 | the loop keeps the earlier rows, adds one row per insert that returns a row, and its flag is true exactly when one did |
| ResponseHelper.RunInsertsAttempts | src/main/java/org/icube/owen/survey/ResponseHelper.java:160-194 | all calls are made unless one throws, and none after the one that throws |
| ResponseHelper.RunInsertsStored | src/main/java/org/icube/owen/survey/ResponseHelper.java:174-181 | every row the loop stores is one of the calls it made |
| ResponseHelper.SaveWeResponseBatch | src/main/java/org/icube/owen/survey/ResponseHelper.java:145-200 | when isWeQuestionAnswered is not a clean false, the result is false and the table unchanged; otherwise table and result are those of the insert loop over the keys |
| ResponseHelper.BatchMeaning | src/main/java/org/icube/owen/survey/ResponseHelper.java:145-200 | the insert loop keeps the earlier rows; true exactly when the table grew; every stored row is one of the requested rows, for a rated employee; without an exception every key is attempted |
| ResponseHelper.KeyOrderLength | src/main/java/org/icube/owen/survey/ResponseHelper.java:160 | a visiting order of the key set lists as many keys as the map has |

## Left out

- Not modelled:
  - JDBC and Neo4j connections;
  - the Cypher and procedure-call text;
  - logging;
  - `SimpleDateFormat` output;
  - start-of-day and end-of-day rounding.

  Queries are modelled by their effect on the graph, and procedures by their reply.
- Clock: each operation gets one clock reading as a parameter (`now`, or `today` for work experience). The Java code reads the clock more often:
  - `Instant.now()` for every insert of a loop;
  - `LocalDate.now()` once per open-ended work experience row, in `getWorkExperienceDetails`;
  - `create` reads the clock for the node's status separately from the metric timestamps.
- Stored procedure bodies: they are oracles.
  - Response inserts: a procedure that returns a row is taken to have stored it.
  - Metric inserts: `insertInitiativeMetricValue` returns an `op` flag, but `create` only logs it. So the metric table of the model (`MetricValueTable`, `StoreMetricValues`) records one row for every call that does not throw, whatever `op` says.
- `isWeQuestionAnswered`: kept abstract as a function of the table; it gives the `op` column, or `None` when it fails.
- `get` and `getInitiativeTypeMap`: not modelled. They only read a node or a map back and have no logic beyond the query.
- `MetricsList.getInitiativeMetricsForTeam`: its computation is not part of this model. Its result is the `metrics` parameter of `create`, so an exception inside it is not modelled.
- Relationships and id lists are sets. Neo4j `CREATE` makes a second identical relationship when a query runs twice, and the Java id lists can repeat ids. Neither multiplicity is modelled.
- Null values:
  - Null lists and null strings are not modelled; an unset list is empty.
  - The dates of an `Initiative` and the end dates of work experience and education may be null (`None`).
  - Start dates of work experience and education are never null (see the next line).
- Java `int` overflow of Ids, counts and scores is not modelled; integers are unbounded.
- HashMap order: the order in which `employeeRating.keySet()` is visited is the `order` parameter. Any sequence of the distinct keys is allowed. `Employee` keys compare by employee id, as `Employee` values.
- `QuestionType.values()`: taken to be ME, WE and MOOD. The model's question type is never null. In Java a null `getQuestionType()` fails both `==` tests of ResponseHelper.java:31 and so takes the WE branch; the model has no such case.
- Getters: the getters of `Initiative` are read through `Fields()`. The debug logging in `getInitiativeMetrics` is left out.
- GetWorkExperienceDetails, GetEducationDetails, AddWorkExperience, AddEducation: start dates (`from_date`) are assumed non-null. A null one makes Java throw a `NullPointerException` out of the method, and the model does not capture that. The places are:
  - `cal.setTime` for an open-ended work experience;
  - the sort comparators, once there are two rows;
  - the unchecked date conversion of the two inserts.

  The handlers catch only `SQLException`, so the result is neither a partial list nor `false`.
- CreateResult, UpdateResult: a missing end date is taken to make the node query or the property query throw. This assumes `UtilHelper.getEndOfDay(null)` throws or returns null, which `sdf.format` then rejects. `UtilHelper` is not part of this model. A missing start date or creation date throws in the code shown: in `checkInitiativeStatus` or in `sdf.format`.
- AddEducation: requires an end date. `addEducation` converts the end date without the null check `addWorkExperience` has, and `UtilHelper.convertJavaDateToSqlDate` is not part of this model, so what a null end date does there is not stated.
- The check against the employee count at the end of the batch `saveWeResponse` is left out, because it only logs.
- Code versus documented behaviour: the model follows the code in each of these.
  - `saveAllResponses` is documented as true when at least one save succeeds. The code starts its OR-fold at true, so it is true even when none succeeds (see Findings).
  - The batch `saveWeResponse` is documented as succeeding once every rating has been persisted. The code returns true when at least one insert returned a row; the count of inserts is only compared with the map size for logging.
  - Education is sorted once after the loop. Work experience is re-sorted after every row.
  - `complete` has no guard, so a Deleted initiative can become Completed.
  - `updateInitiative` recomputes the status from the start date, so a Completed or Deleted initiative becomes Active or Pending again.
  - `setPartOf` looks the facets up by exact name, and the last filter of a name wins. `create` compares the names ignoring case.

## Findings

| source | as written | input that shows it | evidently intended | confidence | as-written member | corrected member |
|---|---|---|---|---|---|---|
| src/main/java/org/icube/owen/survey/ResponseHelper.java:24-45 | `allResponsesSaved` starts true and is OR-ed with each result, so it is always true | one ME response whose insert returns no row: nothing is saved, yet the result is true | true only when every response was saved (AND-fold) | not executed | ResponseHelper.SaveAllResponses, ResponseHelper.OrFoldHidesFailure | ResponseHelper.SaveAllResponsesStrict |
