/**
  The initiative graph as values: Init nodes keyed by their Id, the employee and facet
  (Function, Position, Zone) nodes, and the `part_of` / `owner_of` relationships. The
  functions here say what each graph query of an initiative does to the graph, how the
  filters become query clauses, and what the whole operations `create`,
  `updateInitiative`, `delete` and `complete` leave behind. The `Initiatives` module runs
  the same operations step by step on a mutable store and is proved to agree with them.

  A query that throws is named by a `Step`; an operation is given the set of steps that
  throw, since nothing wraps the queries of one operation in a transaction.
*/
module InitiativeGraph {
  import opened Common

  /** A point in time, in milliseconds (a `java.util.Date`). */
  type Instant = int

  // ---------------------------------------------------------------- status

  /** The Status property of an Init node. */
  datatype Status = Pending | Active | Completed | Deleted

  /** `checkInitiativeStatus`: Pending while the start date lies strictly in the future,
      Active from the start date on, and never any other status. */
  function CheckInitiativeStatus(startDate: Instant, now: Instant): (s: Status)
    ensures s == Pending <==> startDate > now
    ensures s == Active <==> startDate <= now
  {
    if startDate > now then Pending else Active
  }

  // ---------------------------------------------------------------- case-insensitive names

  /** The character `String.equalsIgnoreCase` treats as equal to a lower-case ASCII letter:
      upper-case ASCII letters, and the four non-ASCII characters whose upper- or
      lower-case form is an ASCII letter (dotted and dotless I, long s, the Kelvin sign). */
  function FoldChar(c: char): char {
    if 'A' <= c <= 'Z' then (c as int + 32) as char
    else if c == '\U{0130}' || c == '\U{0131}' then 'i'
    else if c == '\U{017F}' then 's'
    else if c == '\U{212A}' then 'k'
    else c
  }

  /** `s.equalsIgnoreCase(literal)` for a literal whose lower-case form is `lower`, an
      ASCII word. */
  predicate EqualsIgnoreCase(s: string, lower: string) {
    |s| == |lower| && forall i :: 0 <= i < |s| ==> FoldChar(s[i]) == lower[i]
  }

  lemma IgnoreCaseExamples()
    ensures EqualsIgnoreCase("TEAM", "team") && EqualsIgnoreCase("Team", "team")
    ensures !EqualsIgnoreCase("Teams", "team") && !EqualsIgnoreCase("Individual", "team")
  {
    assert FoldChar('I') != 't';
  }

  // ---------------------------------------------------------------- nodes and relationships

  /** The three labels a team initiative is defined over. */
  datatype Facet = Function | Position | Zone

  /** The name a filter of that facet carries (the key `setPartOf` looks up). */
  function FacetName(f: Facet): string {
    match f
    case Function => "Function"
    case Position => "Position"
    case Zone => "Zone"
  }

  /** The same name in lower case, for the case-insensitive comparison of `create`. */
  function FacetLower(f: Facet): string {
    match f
    case Function => "function"
    case Position => "position"
    case Zone => "zone"
  }

  /** A filter of the user interface: its name and a map from value id to value name. */
  datatype Filter = Filter(filterName: string, filterValues: map<int, string>)

  /** What a `part_of` relationship starts at: an Employee (by emp_id) or a facet node (by Id). */
  datatype Member = EmployeeMember(empId: int) | FacetMember(facet: Facet, id: int)

  datatype PartOf = PartOf(member: Member, initiativeId: int)
  datatype OwnerOf = OwnerOf(empId: int, initiativeId: int)

  /** An employee with the Function, Position and Zone node it is connected to. */
  datatype Placement = Placement(empId: int, functionId: int, positionId: int, zoneId: int)

  /** The properties of an Init node other than its Id. */
  datatype InitNode = InitNode(
    status: Status, name: string, typeId: int, category: string,
    startDate: Instant, endDate: Instant, createdOn: Instant,
    createdByEmpId: int, comment: string)

  datatype GraphState = GraphState(
    inits: map<int, InitNode>,
    employees: set<int>,
    functions: set<int>, positions: set<int>, zones: set<int>,
    placements: set<Placement>,
    partOf: set<PartOf>,
    ownerOf: set<OwnerOf>)

  /** The Ids of the nodes with the facet's label. */
  function NodesOf(g: GraphState, facet: Facet): set<int> {
    match facet
    case Function => g.functions
    case Position => g.positions
    case Zone => g.zones
  }

  /** The Id of the facet node a placement connects its employee to. */
  function FacetIdOf(p: Placement, facet: Facet): int {
    match facet
    case Function => p.functionId
    case Position => p.positionId
    case Zone => p.zoneId
  }

  /** Every Init node has a positive Id and every relationship ends at an Init node. */
  ghost predicate ValidGraph(g: GraphState) {
    && (forall id :: id in g.inits ==> id > 0)
    && (forall e :: e in g.partOf ==> e.initiativeId in g.inits)
    && (forall o :: o in g.ownerOf ==> o.initiativeId in g.inits)
  }

  // ---------------------------------------------------------------- id allocation

  lemma HasElement(ids: set<int>)
    requires ids != {}
    ensures exists y :: y in ids
  {
    if forall y :: y !in ids {
      assert false;
    }
  }

  lemma {:induction false} HasMax(ids: set<int>, y: int)
    requires y in ids
    ensures exists m :: m in ids && forall x :: x in ids ==> x <= m
    decreases |ids|
  {
    var rest := ids - {y};
    if rest == {} {
      assert forall x :: x in ids && x != y ==> x in rest;
    } else {
      HasElement(rest);
      var z :| z in rest;
      HasMax(rest, z);
      var m :| m in rest && forall x :: x in rest ==> x <= m;
      assert forall x :: x in ids && x != y ==> x in rest;
      if y > m {
        assert forall x :: x in ids ==> x <= y;
      } else {
        assert forall x :: x in ids ==> x <= m;
      }
    }
  }

  function MaxOf(ids: set<int>): (m: int)
    requires ids != {}
    ensures m in ids && forall x :: x in ids ==> x <= m
  {
    HasElement(ids);
    HasMax(ids, var y :| y in ids; y);
    var m :| m in ids && forall x :: x in ids ==> x <= m;
    m
  }

  /** The Id the node query gives a new Init node: `CASE count(i) WHEN 0 THEN 1 ELSE
      max(i.Id) + 1`. It is larger than every Id in use. */
  function NextId(inits: map<int, InitNode>): (uid: int)
    ensures forall id :: id in inits ==> id < uid
    ensures inits.Keys == {} ==> uid == 1
    ensures inits.Keys != {} ==> uid - 1 in inits
  {
    if inits.Keys == {} then 1 else MaxOf(inits.Keys) + 1
  }

  /** Over a valid graph the allocated Id is positive, so `create` keeps it. */
  lemma NextIdPositive(g: GraphState)
    requires ValidGraph(g)
    ensures NextId(g.inits) > 0
  {
    if g.inits.Keys != {} {
      assert NextId(g.inits) - 1 in g.inits;
    }
  }

  // ---------------------------------------------------------------- single graph queries

  /** The node query: adds an Init node under the next Id. */
  function AddInitNode(g: GraphState, node: InitNode): (r: GraphState)
    ensures r.inits.Keys == g.inits.Keys + {NextId(g.inits)}
    ensures r.inits[NextId(g.inits)] == node
    ensures forall id :: id in g.inits ==> r.inits[id] == g.inits[id]
  {
    g.(inits := g.inits[NextId(g.inits) := node])
  }

  /** The two forms of a facet's part_of query: every node of the label, or the nodes whose
      Id is in a list. */
  datatype FacetQuery = AllOfLabel | IdsIn(ids: set<int>)

  /** The choice `setPartOf` makes for one facet: a value list containing 0 means the
      whole label. */
  function FacetQueryOf(ids: set<int>): (q: FacetQuery)
    ensures q.AllOfLabel? <==> 0 in ids
    ensures q.IdsIn? ==> q.ids == ids
  {
    if 0 in ids then AllOfLabel else IdsIn(ids)
  }

  function FacetTargets(g: GraphState, facet: Facet, q: FacetQuery): set<int> {
    match q
    case AllOfLabel => NodesOf(g, facet)
    case IdsIn(ids) => NodesOf(g, facet) * ids
  }

  /** `Match (i:Init),(x:Label) where i.Id = id [and x.Id in ids] Create x-[:part_of]->i`. */
  function AddFacetPartOf(g: GraphState, facet: Facet, id: int, q: FacetQuery): GraphState {
    if id !in g.inits then g
    else g.(partOf := g.partOf + set n | n in FacetTargets(g, facet, q) :: PartOf(FacetMember(facet, n), id))
  }

  /** `Match (i:Init),(e:Employee) where i.Id = id and e.emp_id in ids Create e-[:part_of]->i`. */
  function AddEmployeePartOf(g: GraphState, id: int, empIds: set<int>): GraphState {
    if id !in g.inits then g
    else g.(partOf := g.partOf + set e | e in g.employees * empIds :: PartOf(EmployeeMember(e), id))
  }

  /** The same query creating `owner_of` relationships. */
  function AddOwners(g: GraphState, id: int, empIds: set<int>): GraphState {
    if id !in g.inits then g
    else g.(ownerOf := g.ownerOf + set e | e in g.employees * empIds :: OwnerOf(e, id))
  }

  /** `match (i:Init {Id:id})<-[r:owner_of]-(e:Employee) delete r`. */
  function RemoveOwners(g: GraphState, id: int): GraphState {
    g.(ownerOf := set o | o in g.ownerOf && o.initiativeId != id)
  }

  /** `match (a:Init {Id:id}) set a.Status = ...`; no node matched, nothing changes. */
  function SetStatus(g: GraphState, id: int, s: Status): GraphState {
    if id !in g.inits then g else g.(inits := g.inits[id := g.inits[id].(status := s)])
  }

  // ---------------------------------------------------------------- filters and clauses

  /** `getFilterValueIdList`: the ids of a filter's values, that is, the keys of its map. */
  function GetFilterValueIdList(filterValues: map<int, string>): (ids: set<int>)
    ensures forall x :: x in ids <==> x in filterValues
  {
    filterValues.Keys
  }

  /** The `params` map of `setPartOf`: each filter's ids under its exact name; a later
      filter with the same name replaces an earlier one. */
  function ParamsOf(filters: seq<Filter>): map<string, set<int>> {
    if filters == [] then map[]
    else
      var last := filters[|filters| - 1];
      ParamsOf(filters[..|filters| - 1])[last.filterName := GetFilterValueIdList(last.filterValues)]
  }

  /** Filter `i` is the last one with its name. */
  predicate LastNamed(filters: seq<Filter>, i: int)
    requires 0 <= i < |filters|
  {
    forall j :: i < j < |filters| ==> filters[j].filterName != filters[i].filterName
  }

  /** A name is a key of the params map exactly when some filter has that name. */
  lemma {:induction false} ParamsOfKeys(filters: seq<Filter>, name: string)
    ensures name in ParamsOf(filters) <==> exists i :: 0 <= i < |filters| && filters[i].filterName == name
  {
    if filters != [] {
      var pre := filters[..|filters| - 1];
      ParamsOfKeys(pre, name);
      if name in ParamsOf(pre) {
        var i :| 0 <= i < |pre| && pre[i].filterName == name;
        assert filters[i].filterName == name;
      }
      if exists i :: 0 <= i < |filters| && filters[i].filterName == name {
        var i :| 0 <= i < |filters| && filters[i].filterName == name;
        if i < |pre| {
          assert pre[i].filterName == name;
        }
      }
    }
  }

  /** The value under a filter's name is the id list of the last filter of that name. */
  lemma {:induction false} ParamsOfLastWins(filters: seq<Filter>, i: int)
    requires 0 <= i < |filters| && LastNamed(filters, i)
    ensures filters[i].filterName in ParamsOf(filters)
    ensures ParamsOf(filters)[filters[i].filterName] == filters[i].filterValues.Keys
  {
    var pre := filters[..|filters| - 1];
    if i < |pre| {
      assert LastNamed(pre, i);
      assert pre[i] == filters[i];
      ParamsOfLastWins(pre, i);
    }
  }

  /** A filter adds its ids to the team-size list of a facet: its name is the facet's name
      ignoring case, and its values do not contain the "all" id 0. */
  predicate ContributesTo(f: Filter, facet: Facet) {
    EqualsIgnoreCase(f.filterName, FacetLower(facet)) && 0 !in f.filterValues
  }

  /** No filter passes the name test of two facets, so the else-if chain of `create` never
      has to choose between them. */
  lemma ContributesToOne(f: Filter, a: Facet, b: Facet)
    requires a != b
    ensures !(ContributesTo(f, a) && ContributesTo(f, b))
  {
    if ContributesTo(f, a) {
      assert FoldChar(f.filterName[0]) == FacetLower(a)[0];
    }
  }

  /** The ids `create` collects for one facet of the team-size count. */
  function TeamSizeIds(filters: seq<Filter>, facet: Facet): set<int> {
    if filters == [] then {}
    else
      var last := filters[|filters| - 1];
      TeamSizeIds(filters[..|filters| - 1], facet) + (if ContributesTo(last, facet) then last.filterValues.Keys else {})
  }

  /** An id restricts the team-size count of a facet exactly when some contributing filter
      of that facet has it; no collected list ever holds 0. */
  lemma {:induction false} TeamSizeIdsMembers(filters: seq<Filter>, facet: Facet, x: int)
    ensures x in TeamSizeIds(filters, facet) <==>
      exists i :: 0 <= i < |filters| && ContributesTo(filters[i], facet) && x in filters[i].filterValues
    ensures 0 !in TeamSizeIds(filters, facet)
  {
    if filters != [] {
      var pre := filters[..|filters| - 1];
      TeamSizeIdsMembers(pre, facet, x);
      TeamSizeIdsMembers(pre, facet, 0);
      if x in TeamSizeIds(filters, facet) && x !in TeamSizeIds(pre, facet) {
        assert ContributesTo(filters[|filters| - 1], facet);
      }
      if exists i :: 0 <= i < |filters| && ContributesTo(filters[i], facet) && x in filters[i].filterValues {
        var i :| 0 <= i < |filters| && ContributesTo(filters[i], facet) && x in filters[i].filterValues;
        if i < |pre| {
          assert pre[i] == filters[i];
        }
      }
    }
  }

  /** The pieces of the team-size query's condition. */
  datatype Token = Where | And | IdIn(facet: Facet, ids: set<int>)

  /** The condition part of the team-size query, built the way `create` concatenates it:
      " where " when any list is non-empty, then the zone, function and position clauses
      that are present, each followed by " and " when a later one is present. */
  function TeamSizeWhere(zoneIds: set<int>, funcIds: set<int>, posIds: set<int>): seq<Token> {
    var zoneQ, funcQ, posQ := zoneIds != {}, funcIds != {}, posIds != {};
    (if zoneQ || funcQ || posQ then [Where] else [])
    + (if !zoneQ then [] else [IdIn(Zone, zoneIds)] + (if funcQ || posQ then [And] else []))
    + (if !funcQ then [] else [IdIn(Function, funcIds)] + (if posQ then [And] else []))
    + (if !posQ then [] else [IdIn(Position, posIds)])
  }

  /** The clauses that apply, in the order zone, function, position. */
  function PresentClauses(zoneIds: set<int>, funcIds: set<int>, posIds: set<int>): seq<Token> {
    (if zoneIds != {} then [IdIn(Zone, zoneIds)] else [])
    + (if funcIds != {} then [IdIn(Function, funcIds)] else [])
    + (if posIds != {} then [IdIn(Position, posIds)] else [])
  }

  /** Clauses separated by one And each, with none before the first or after the last. */
  function Join(clauses: seq<Token>): seq<Token> {
    if |clauses| <= 1 then clauses else [clauses[0], And] + Join(clauses[1..])
  }

  /** The built condition is " where " followed by the present clauses joined by " and ",
      and nothing at all when no clause is present. */
  lemma TeamSizeWhereShape(zoneIds: set<int>, funcIds: set<int>, posIds: set<int>)
    ensures var cs := PresentClauses(zoneIds, funcIds, posIds);
      TeamSizeWhere(zoneIds, funcIds, posIds) == if cs == [] then [] else [Where] + Join(cs)
  {
    var cs := PresentClauses(zoneIds, funcIds, posIds);
    if |cs| >= 2 {
      assert Join(cs) == [cs[0], And] + Join(cs[1..]);
      if |cs| == 3 {
        assert Join(cs[1..]) == [cs[1], And] + Join(cs[2..]);
        assert cs[2..] == [cs[2]];
      } else {
        assert cs[1..] == [cs[1]];
      }
    }
  }

  lemma {:induction false} JoinLength(clauses: seq<Token>)
    ensures clauses != [] ==> |Join(clauses)| == 2 * |clauses| - 1
  {
    if |clauses| > 1 {
      JoinLength(clauses[1..]);
    }
  }

  /** In a joined sequence the clauses sit at the even positions, in order, and the Ands
      at the odd ones, so there is no And before the first clause, after the last, or
      twice in a row. */
  lemma {:induction false} JoinAt(clauses: seq<Token>, k: nat)
    requires k < |Join(clauses)|
    ensures k % 2 == 1 ==> Join(clauses)[k] == And
    ensures k % 2 == 0 ==> k / 2 < |clauses| && Join(clauses)[k] == clauses[k / 2]
  {
    if |clauses| > 1 && k >= 2 {
      var rest := clauses[1..];
      assert Join(clauses) == [clauses[0], And] + Join(rest);
      JoinAt(rest, k - 2);
      assert Join(clauses)[k] == Join(rest)[k - 2];
      if k % 2 == 0 {
        assert rest[(k - 2) / 2] == clauses[k / 2];
      }
    }
  }

  /** A placement meets every clause of a condition. */
  predicate Satisfies(p: Placement, tokens: seq<Token>) {
    forall i :: 0 <= i < |tokens| && tokens[i].IdIn? ==> FacetIdOf(p, tokens[i].facet) in tokens[i].ids
  }

  /** A placement meets the team-size condition exactly when each facet with a non-empty
      id list has its id in that list; an empty list leaves the facet unrestricted. */
  lemma TeamSizeWhereMeaning(p: Placement, zoneIds: set<int>, funcIds: set<int>, posIds: set<int>)
    ensures Satisfies(p, TeamSizeWhere(zoneIds, funcIds, posIds)) <==>
      && (zoneIds != {} ==> p.zoneId in zoneIds)
      && (funcIds != {} ==> p.functionId in funcIds)
      && (posIds != {} ==> p.positionId in posIds)
  {
    var t := TeamSizeWhere(zoneIds, funcIds, posIds);
    TeamSizeWhereShape(zoneIds, funcIds, posIds);
    var cs := PresentClauses(zoneIds, funcIds, posIds);
    assert forall tok :: tok in t && tok.IdIn? ==> tok in cs;
    assert forall tok :: tok in cs ==> tok in t;
    if Satisfies(p, t) {
      if zoneIds != {} {
        assert IdIn(Zone, zoneIds) in t;
      }
      if funcIds != {} {
        assert IdIn(Function, funcIds) in t;
      }
      if posIds != {} {
        assert IdIn(Position, posIds) in t;
      }
    }
  }

  /** `return count(a) as TeamSize` over the placements meeting the condition. */
  function TeamSize(g: GraphState, tokens: seq<Token>): nat {
    |set p | p in g.placements && Satisfies(p, tokens)|
  }

  // ---------------------------------------------------------------- whole operations

  /** The query steps that can throw. */
  datatype Step =
    | NodeQuery
    | EmployeesPartOfQuery
    | FacetPartOfQuery(facet: Facet)
    | TeamSizeQuery
    | MetricInsert(index: nat)
    | OwnerQuery
    | OwnerDeleteQuery
    | PropertiesQuery
    | StatusQuery

  /** A graph after an operation, with the boolean the operation returns. */
  datatype Outcome = Outcome(graph: GraphState, ok: bool)

  /** `setPartOf`: the three facet lists must all be present (otherwise the lookup fails
      before any query); the function, position and zone queries then run in that order
      and the first one that throws ends the operation with false. */
  function SetPartOfOutcome(g: GraphState, id: int, filters: seq<Filter>, faults: set<Step>): Outcome {
    var params := ParamsOf(filters);
    if !("Function" in params && "Zone" in params && "Position" in params) then Outcome(g, false)
    else if FacetPartOfQuery(Function) in faults then Outcome(g, false)
    else
      var g1 := AddFacetPartOf(g, Function, id, FacetQueryOf(params["Function"]));
      if FacetPartOfQuery(Position) in faults then Outcome(g1, false)
      else
        var g2 := AddFacetPartOf(g1, Position, id, FacetQueryOf(params["Position"]));
        if FacetPartOfQuery(Zone) in faults then Outcome(g2, false)
        else Outcome(AddFacetPartOf(g2, Zone, id, FacetQueryOf(params["Zone"])), true)
  }

  /** A facet whose filter is missing makes `setPartOf` return false without any
      relationship created. */
  lemma SetPartOfMissingFacet(g: GraphState, id: int, filters: seq<Filter>, faults: set<Step>, facet: Facet)
    requires forall i :: 0 <= i < |filters| ==> filters[i].filterName != FacetName(facet)
    ensures SetPartOfOutcome(g, id, filters, faults) == Outcome(g, false)
  {
    ParamsOfKeys(filters, FacetName(facet));
  }

  /** With every facet present and no query throwing, a facet node gets a part_of
      relationship to the initiative exactly when it is a node of that label and its
      facet list contains the "all" id 0 or the node's Id. Employees, owners and Init
      nodes are untouched. */
  lemma SetPartOfFacetRule(g: GraphState, id: int, filters: seq<Filter>, faults: set<Step>, facet: Facet, n: int)
    requires var params := ParamsOf(filters); "Function" in params && "Zone" in params && "Position" in params
    requires forall f :: FacetPartOfQuery(f) !in faults
    ensures var r := SetPartOfOutcome(g, id, filters, faults);
      var ids := ParamsOf(filters)[FacetName(facet)];
      && r.ok
      && (PartOf(FacetMember(facet, n), id) in r.graph.partOf <==>
            PartOf(FacetMember(facet, n), id) in g.partOf
            || (id in g.inits && n in NodesOf(g, facet) && (0 in ids || n in ids)))
      && r.graph.inits == g.inits && r.graph.ownerOf == g.ownerOf
      && (forall e :: e in r.graph.partOf && e.member.EmployeeMember? ==> e in g.partOf)
  {
  }

  /** The team-size condition `create` builds from the filters. */
  function TeamSizeCondition(filters: seq<Filter>): seq<Token> {
    TeamSizeWhere(TeamSizeIds(filters, Zone), TeamSizeIds(filters, Function), TeamSizeIds(filters, Position))
  }

  /** A metric as `getInitiativeMetricsForTeam` hands it over. */
  datatype Metric = Metric(id: int, score: int)

  /** A row `insertInitiativeMetricValue` stores. */
  datatype MetricValueRow = MetricValueRow(initiativeId: int, metricId: int, metricValue: int, calcTime: Instant, noEmp: int)

  /** The index of the first metric insert from `i` on that throws, or |metrics|. */
  function FirstMetricFault(metrics: seq<Metric>, faults: set<Step>, i: nat): (k: nat)
    requires i <= |metrics|
    ensures i <= k <= |metrics|
    ensures k < |metrics| ==> MetricInsert(k) in faults
    ensures forall j :: i <= j < k ==> MetricInsert(j) !in faults
    decreases |metrics| - i
  {
    if i == |metrics| || MetricInsert(i) in faults then i else FirstMetricFault(metrics, faults, i + 1)
  }

  /** The rows of the first `n` metrics, each with the team size. */
  function MetricRows(id: int, metrics: seq<Metric>, now: Instant, teamSize: int, n: nat): (rows: seq<MetricValueRow>)
    requires n <= |metrics|
    ensures |rows| == n
  {
    seq(n, j requires 0 <= j < n => MetricValueRow(id, metrics[j].id, metrics[j].score, now, teamSize))
  }

  /** The fields of an `Initiative` object. Dates are `None` while unset (null). */
  datatype InitiativeFields = InitiativeFields(
    initiativeId: int, initiativeName: string, initiativeTypeId: int,
    initiativeCategory: string, initiativeStatus: string,
    initiativeStartDate: Option<Instant>, initiativeEndDate: Option<Instant>,
    initiativeCreationDate: Option<Instant>, createdByEmpId: int, initiativeComment: string,
    filterList: seq<Filter>, ownerOfList: seq<Employee>, partOfEmployeeList: seq<Employee>,
    initiativeMetrics: seq<Metric>)

  /** The three dates a node query needs; a null one makes building the query throw. */
  predicate DatesPresent(f: InitiativeFields) {
    f.initiativeStartDate.Some? && f.initiativeEndDate.Some? && f.initiativeCreationDate.Some?
  }

  /** The Init node the node query creates from the object's fields. */
  function NewNode(f: InitiativeFields, now: Instant): InitNode
    requires DatesPresent(f)
  {
    InitNode(CheckInitiativeStatus(f.initiativeStartDate.value, now), f.initiativeName,
      f.initiativeTypeId, f.initiativeCategory, f.initiativeStartDate.value,
      f.initiativeEndDate.value, f.initiativeCreationDate.value, f.createdByEmpId,
      f.initiativeComment)
  }

  function EmployeeIds(employees: seq<Employee>): set<int> {
    set i | 0 <= i < |employees| :: employees[i].employeeId
  }

  /** What `create` leaves behind: the graph, the metric rows stored, and the id returned. */
  datatype CreateOutcome = CreateOutcome(graph: GraphState, metricRows: seq<MetricValueRow>, id: int)

  /** The team part of `create`, after the node exists: part_of from the filters, the
      team-size count, one metric row per metric, then the owners. A throwing team-size
      query or metric insert ends it; the owners come last, only for a non-empty list. */
  function TeamOutcome(g: GraphState, uid: int, f: InitiativeFields, metrics: seq<Metric>, now: Instant, faults: set<Step>): CreateOutcome {
    var g1 := SetPartOfOutcome(g, uid, f.filterList, faults).graph;
    if TeamSizeQuery in faults then CreateOutcome(g1, [], uid)
    else
      var size := TeamSize(g1, TeamSizeCondition(f.filterList));
      var k := FirstMetricFault(metrics, faults, 0);
      var rows := MetricRows(uid, metrics, now, size, k);
      if k < |metrics| then CreateOutcome(g1, rows, uid)
      else if |f.ownerOfList| > 0 && OwnerQuery !in faults then
        CreateOutcome(AddOwners(g1, uid, EmployeeIds(f.ownerOfList)), rows, uid)
      else CreateOutcome(g1, rows, uid)
  }

  /** `create`. The node query allocates the Id; an allocated positive Id is returned
      whatever fails after it. An "Individual" initiative gets the listed employees'
      part_of relationships, a "Team" one the team part, any other category only the node. */
  function CreateResult(g: GraphState, f: InitiativeFields, metrics: seq<Metric>, now: Instant, faults: set<Step>): CreateOutcome {
    if !DatesPresent(f) || NodeQuery in faults then CreateOutcome(g, [], 0)
    else
      var uid := NextId(g.inits);
      var g1 := AddInitNode(g, NewNode(f, now));
      if uid <= 0 then CreateOutcome(g1, [], uid)
      else if EqualsIgnoreCase(f.initiativeCategory, "individual") then
        CreateOutcome(if EmployeesPartOfQuery in faults then g1 else AddEmployeePartOf(g1, uid, EmployeeIds(f.partOfEmployeeList)), [], uid)
      else if EqualsIgnoreCase(f.initiativeCategory, "team") then
        TeamOutcome(g1, uid, f, metrics, now, faults)
      else CreateOutcome(g1, [], uid)
  }

  /** What a facet part_of query changes: it only adds part_of relationships from nodes
      of that facet to the initiative. */
  lemma AddFacetPartOfFrame(g: GraphState, facet: Facet, id: int, q: FacetQuery)
    ensures var r := AddFacetPartOf(g, facet, id, q);
      && r.(partOf := g.partOf) == g
      && g.partOf <= r.partOf
      && (forall e :: e in r.partOf && e !in g.partOf ==> e.initiativeId == id && e.member.FacetMember? && e.initiativeId in g.inits)
  {
  }

  /** What `setPartOf` changes: it only adds facet part_of relationships to the initiative. */
  lemma SetPartOfFrame(g: GraphState, id: int, filters: seq<Filter>, faults: set<Step>)
    ensures var r := SetPartOfOutcome(g, id, filters, faults).graph;
      && r.(partOf := g.partOf) == g
      && g.partOf <= r.partOf
      && (forall e :: e in r.partOf && e !in g.partOf ==> e.initiativeId == id && e.member.FacetMember? && e.initiativeId in g.inits)
  {
    var params := ParamsOf(filters);
    if "Function" in params && "Zone" in params && "Position" in params {
      var g1 := AddFacetPartOf(g, Function, id, FacetQueryOf(params["Function"]));
      var g2 := AddFacetPartOf(g1, Position, id, FacetQueryOf(params["Position"]));
      AddFacetPartOfFrame(g, Function, id, FacetQueryOf(params["Function"]));
      AddFacetPartOfFrame(g1, Position, id, FacetQueryOf(params["Position"]));
      AddFacetPartOfFrame(g2, Zone, id, FacetQueryOf(params["Zone"]));
    }
  }

  /** What the team part of `create` changes: facet part_of relationships, and owner
      relationships only for a non-empty owner list, all to the new initiative. */
  lemma TeamOutcomeFrame(g: GraphState, uid: int, f: InitiativeFields, metrics: seq<Metric>, now: Instant, faults: set<Step>)
    ensures var r := TeamOutcome(g, uid, f, metrics, now, faults);
      && r.id == uid
      && r.graph.inits == g.inits
      && g.partOf <= r.graph.partOf && g.ownerOf <= r.graph.ownerOf
      && (forall e :: e in r.graph.partOf && e !in g.partOf ==> e.initiativeId == uid && e.member.FacetMember? && uid in g.inits)
      && (forall o :: o in r.graph.ownerOf && o !in g.ownerOf ==> o.initiativeId == uid && uid in g.inits)
      && (r.graph.ownerOf != g.ownerOf ==> |f.ownerOfList| > 0)
  {
    SetPartOfFrame(g, uid, f.filterList, faults);
  }

  /** The Init nodes after `create`: the earlier ones unchanged, plus the new node unless
      the node query failed. */
  lemma CreateInits(g: GraphState, f: InitiativeFields, metrics: seq<Metric>, now: Instant, faults: set<Step>)
    ensures var r := CreateResult(g, f, metrics, now, faults);
      r.graph.inits == if !DatesPresent(f) || NodeQuery in faults then g.inits
                       else AddInitNode(g, NewNode(f, now)).inits
  {
    if DatesPresent(f) && NodeQuery !in faults && NextId(g.inits) > 0 {
      var uid := NextId(g.inits);
      var g1 := AddInitNode(g, NewNode(f, now));
      if !EqualsIgnoreCase(f.initiativeCategory, "individual") && EqualsIgnoreCase(f.initiativeCategory, "team") {
        TeamOutcomeFrame(g1, uid, f, metrics, now, faults);
      }
    }
  }

  /** The returned id: 0 when the node query throws, otherwise the new node's Id, which on
      a valid graph is positive and greater than every earlier Id; the node has the fields
      of the object and the status of its start date. The id does not depend on whether
      any later step throws. */
  lemma CreateAllocatesId(g: GraphState, f: InitiativeFields, metrics: seq<Metric>, now: Instant, faults: set<Step>)
    requires ValidGraph(g)
    ensures var r := CreateResult(g, f, metrics, now, faults);
      && (r.id == if !DatesPresent(f) || NodeQuery in faults then 0 else NextId(g.inits))
      && (r.id == 0 ==> r.graph == g && r.metricRows == [])
      && (r.id != 0 ==>
            && r.id > 0 && r.id !in g.inits && (forall old_id :: old_id in g.inits ==> old_id < r.id)
            && r.id in r.graph.inits && r.graph.inits[r.id] == NewNode(f, now)
            && r.graph.inits[r.id].status == CheckInitiativeStatus(f.initiativeStartDate.value, now))
  {
    NextIdPositive(g);
    CreateInits(g, f, metrics, now, faults);
    if DatesPresent(f) && NodeQuery !in faults {
      var uid := NextId(g.inits);
      var g1 := AddInitNode(g, NewNode(f, now));
      if !EqualsIgnoreCase(f.initiativeCategory, "individual") && EqualsIgnoreCase(f.initiativeCategory, "team") {
        TeamOutcomeFrame(g1, uid, f, metrics, now, faults);
      }
    }
  }

  /** Category branching: owner relationships are made only for a "Team" initiative with
      a non-empty owner list, employee part_of relationships only for an "Individual"
      one, facet part_of relationships and metric rows only for a "Team" one; no earlier
      relationship or node is lost. */
  lemma CreateBranches(g: GraphState, f: InitiativeFields, metrics: seq<Metric>, now: Instant, faults: set<Step>)
    ensures var r := CreateResult(g, f, metrics, now, faults);
      && g.partOf <= r.graph.partOf && g.ownerOf <= r.graph.ownerOf
      && (forall id :: id in g.inits ==> id in r.graph.inits && r.graph.inits[id] == g.inits[id])
      && (r.graph.ownerOf != g.ownerOf ==> EqualsIgnoreCase(f.initiativeCategory, "team") && |f.ownerOfList| > 0)
      && (r.metricRows != [] ==> EqualsIgnoreCase(f.initiativeCategory, "team"))
      && (forall e :: e in r.graph.partOf && e !in g.partOf ==>
            e.initiativeId == r.id
            && (e.member.EmployeeMember? ==> EqualsIgnoreCase(f.initiativeCategory, "individual"))
            && (e.member.EmployeeMember? ==> e.member.empId in g.employees && e.member.empId in EmployeeIds(f.partOfEmployeeList))
            && (e.member.FacetMember? ==> EqualsIgnoreCase(f.initiativeCategory, "team")))
      && (!EqualsIgnoreCase(f.initiativeCategory, "individual") && !EqualsIgnoreCase(f.initiativeCategory, "team") ==>
            r.graph.partOf == g.partOf && r.graph.ownerOf == g.ownerOf && r.metricRows == [])
  {
    CreateInits(g, f, metrics, now, faults);
    if DatesPresent(f) && NodeQuery !in faults && NextId(g.inits) > 0 {
      var uid := NextId(g.inits);
      var g1 := AddInitNode(g, NewNode(f, now));
      if EqualsIgnoreCase(f.initiativeCategory, "individual") {
        if EmployeesPartOfQuery !in faults {
          var r := AddEmployeePartOf(g1, uid, EmployeeIds(f.partOfEmployeeList));
          assert forall e :: e in r.partOf && e !in g.partOf ==> e.initiativeId == uid && e.member.EmployeeMember?;
        }
      } else if EqualsIgnoreCase(f.initiativeCategory, "team") {
        TeamOutcomeFrame(g1, uid, f, metrics, now, faults);
      }
    }
  }

  /** An individual initiative whose part_of query does not throw is joined by exactly the
      listed employees that exist in the graph. */
  lemma CreateIndividualPartOf(g: GraphState, f: InitiativeFields, metrics: seq<Metric>, now: Instant, faults: set<Step>)
    requires ValidGraph(g) && DatesPresent(f) && NodeQuery !in faults && EmployeesPartOfQuery !in faults
    requires EqualsIgnoreCase(f.initiativeCategory, "individual")
    ensures var r := CreateResult(g, f, metrics, now, faults);
      forall e :: PartOf(EmployeeMember(e), r.id) in r.graph.partOf <==>
        e in g.employees && e in EmployeeIds(f.partOfEmployeeList)
  {
    NextIdPositive(g);
  }

  /** With every metric insert succeeding, a team initiative stores one row per metric, in
      order, each with the new Id, the metric's id and score, the time and the team size. */
  lemma CreateStoresMetrics(g: GraphState, f: InitiativeFields, metrics: seq<Metric>, now: Instant, faults: set<Step>)
    requires DatesPresent(f) && NodeQuery !in faults && TeamSizeQuery !in faults
    requires ValidGraph(g)
    requires EqualsIgnoreCase(f.initiativeCategory, "team")
    requires forall j :: 0 <= j < |metrics| ==> MetricInsert(j) !in faults
    ensures var r := CreateResult(g, f, metrics, now, faults);
      var g1 := SetPartOfOutcome(AddInitNode(g, NewNode(f, now)), r.id, f.filterList, faults).graph;
      && |r.metricRows| == |metrics|
      && forall j :: 0 <= j < |metrics| ==>
           r.metricRows[j] == MetricValueRow(r.id, metrics[j].id, metrics[j].score, now, TeamSize(g1, TeamSizeCondition(f.filterList)))
  {
    NextIdPositive(g);
    assert !EqualsIgnoreCase(f.initiativeCategory, "individual") by {
      assert FoldChar(f.initiativeCategory[0]) == 't';
    }
    var uid := NextId(g.inits);
    var g0 := AddInitNode(g, NewNode(f, now));
    assert CreateResult(g, f, metrics, now, faults) == TeamOutcome(g0, uid, f, metrics, now, faults);
    assert FirstMetricFault(metrics, faults, 0) == |metrics|;
  }

  /** `create` keeps the graph valid. */
  lemma CreatePreservesValid(g: GraphState, f: InitiativeFields, metrics: seq<Metric>, now: Instant, faults: set<Step>)
    requires ValidGraph(g)
    ensures ValidGraph(CreateResult(g, f, metrics, now, faults).graph)
  {
    NextIdPositive(g);
    if DatesPresent(f) && NodeQuery !in faults {
      var uid := NextId(g.inits);
      var g1 := AddInitNode(g, NewNode(f, now));
      assert ValidGraph(g1);
      if EqualsIgnoreCase(f.initiativeCategory, "individual") {
      } else if EqualsIgnoreCase(f.initiativeCategory, "team") {
        TeamOutcomeFrame(g1, uid, f, metrics, now, faults);
      }
    }
  }

  /** The properties `updateInitiative` sets on the node: all of them except CreatedByEmpId,
      with the status recomputed from the start date. */
  function UpdatedNode(n: InitNode, u: InitiativeFields, now: Instant): InitNode
    requires DatesPresent(u)
  {
    n.(createdOn := u.initiativeCreationDate.value, name := u.initiativeName,
       status := CheckInitiativeStatus(u.initiativeStartDate.value, now),
       typeId := u.initiativeTypeId, category := u.initiativeCategory,
       comment := u.initiativeComment, endDate := u.initiativeEndDate.value,
       startDate := u.initiativeStartDate.value)
  }

  function SetProperties(g: GraphState, id: int, u: InitiativeFields, now: Instant): GraphState
    requires DatesPresent(u)
  {
    if id !in g.inits then g else g.(inits := g.inits[id := UpdatedNode(g.inits[id], u, now)])
  }

  /** `updateInitiative`: delete the node's owner relationships, create them again from the
      new owner list (its result is not looked at), then set the properties. */
  function UpdateResult(g: GraphState, u: InitiativeFields, now: Instant, faults: set<Step>): Outcome {
    var id := u.initiativeId;
    if OwnerDeleteQuery in faults then Outcome(g, false)
    else
      var g1 := RemoveOwners(g, id);
      var g2 := if OwnerQuery in faults then g1 else AddOwners(g1, id, EmployeeIds(u.ownerOfList));
      if !DatesPresent(u) || PropertiesQuery in faults then Outcome(g2, false)
      else Outcome(SetProperties(g2, id, u, now), true)
  }

  /** The owner relationships of the initiative are replaced wholesale by the new list
      (restricted to existing employees), those of other initiatives and all part_of
      relationships are untouched, and on success the status is recomputed from the start
      date, so a Completed or Deleted initiative becomes Active or Pending again. */
  lemma UpdateReplacesOwners(g: GraphState, u: InitiativeFields, now: Instant, faults: set<Step>)
    requires OwnerDeleteQuery !in faults && OwnerQuery !in faults
    ensures var r := UpdateResult(g, u, now, faults);
      var id := u.initiativeId;
      && r.graph.partOf == g.partOf
      && (forall e :: OwnerOf(e, id) in r.graph.ownerOf <==>
            id in g.inits && e in g.employees && e in EmployeeIds(u.ownerOfList))
      && (forall o: OwnerOf :: o.initiativeId != id ==> (o in r.graph.ownerOf <==> o in g.ownerOf))
      && r.graph.inits.Keys == g.inits.Keys
      && (r.ok <==> DatesPresent(u) && PropertiesQuery !in faults)
      && (r.ok && id in g.inits ==>
            r.graph.inits[id].status == CheckInitiativeStatus(u.initiativeStartDate.value, now)
            && r.graph.inits[id].status != Completed && r.graph.inits[id].status != Deleted
            && r.graph.inits[id].createdByEmpId == g.inits[id].createdByEmpId)
      && (r.ok && id in g.inits ==> r.graph.inits[id] == UpdatedNode(g.inits[id], u, now))
      && (forall j :: j in g.inits && j != id ==> r.graph.inits[j] == g.inits[j])
  {
  }

  /** A failed update leaves part_of relationships and Init nodes alone; only the owner
      steps already run have taken effect. */
  lemma UpdateFailureKeepsNodes(g: GraphState, u: InitiativeFields, now: Instant, faults: set<Step>)
    ensures var r := UpdateResult(g, u, now, faults);
      !r.ok ==> r.graph.inits == g.inits && r.graph.partOf == g.partOf
  {
  }

  lemma UpdatePreservesValid(g: GraphState, u: InitiativeFields, now: Instant, faults: set<Step>)
    requires ValidGraph(g)
    ensures ValidGraph(UpdateResult(g, u, now, faults).graph)
  {
  }

  /** `delete` and `complete`: one status query, true unless it throws. */
  function StatusResult(g: GraphState, id: int, s: Status, faults: set<Step>): Outcome {
    if StatusQuery in faults then Outcome(g, false) else Outcome(SetStatus(g, id, s), true)
  }

  /** Flagging a status removes nothing and changes nothing but that node's status,
      whatever the status was before. */
  lemma StatusOnlyFlags(g: GraphState, id: int, s: Status, faults: set<Step>)
    ensures var r := StatusResult(g, id, s, faults);
      && (r.ok <==> StatusQuery !in faults)
      && r.graph.inits.Keys == g.inits.Keys
      && r.graph.partOf == g.partOf && r.graph.ownerOf == g.ownerOf
      && (forall other :: other in g.inits && other != id ==> r.graph.inits[other] == g.inits[other])
      && (r.ok && id in g.inits ==> r.graph.inits[id] == g.inits[id].(status := s))
      && (ValidGraph(g) ==> ValidGraph(r.graph))
  {
  }
}
