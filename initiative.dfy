/**
  `Initiative` as a class over a mutable graph store. `GraphStore` holds the graph and
  runs one query at a time; each of its methods is specified by the function of
  `InitiativeGraph` that says what that query does. The operations of `Initiative`
  then run the queries in the order the class does, and each is proved to leave the
  store as the matching whole-operation function of `InitiativeGraph` says.

  A query that throws does nothing; the operation sees it and follows the exception
  path of the class (a `return false`, or for `create` the end of the operation).
*/
module Initiatives {
  import opened Common
  import opened InitiativeGraph

  /** The graph database: Init nodes by Id, employee and facet nodes, placements and the
      part_of / owner_of relationships. */
  class GraphStore {
    var inits: map<int, InitNode>
    var employees: set<int>
    var functions: set<int>
    var positions: set<int>
    var zones: set<int>
    var placements: set<Placement>
    var partOf: set<PartOf>
    var ownerOf: set<OwnerOf>

    function State(): GraphState
      reads this
    {
      GraphState(inits, employees, functions, positions, zones, placements, partOf, ownerOf)
    }

    constructor (g: GraphState)
      ensures State() == g
    {
      inits, employees := g.inits, g.employees;
      functions, positions, zones := g.functions, g.positions, g.zones;
      placements, partOf, ownerOf := g.placements, g.partOf, g.ownerOf;
    }

    /** The node query; returns the Id it gave the node. */
    method CreateInitNode(node: InitNode) returns (uid: int)
      modifies this
      ensures uid == NextId(old(State()).inits)
      ensures State() == AddInitNode(old(State()), node)
    {
      uid := NextId(inits);
      inits := inits[uid := node];
    }

    method CreateFacetPartOf(facet: Facet, id: int, q: FacetQuery)
      modifies this
      ensures State() == AddFacetPartOf(old(State()), facet, id, q)
    {
      if id in inits {
        partOf := partOf + set n | n in FacetTargets(State(), facet, q) :: PartOf(FacetMember(facet, n), id);
      }
    }

    method CreateEmployeePartOf(id: int, empIds: set<int>)
      modifies this
      ensures State() == AddEmployeePartOf(old(State()), id, empIds)
    {
      if id in inits {
        partOf := partOf + set e | e in employees * empIds :: PartOf(EmployeeMember(e), id);
      }
    }

    method CreateOwnerOf(id: int, empIds: set<int>)
      modifies this
      ensures State() == AddOwners(old(State()), id, empIds)
    {
      if id in inits {
        ownerOf := ownerOf + set e | e in employees * empIds :: OwnerOf(e, id);
      }
    }

    method DeleteOwnerOf(id: int)
      modifies this
      ensures State() == RemoveOwners(old(State()), id)
    {
      ownerOf := set o | o in ownerOf && o.initiativeId != id;
    }

    method SetNodeStatus(id: int, s: Status)
      modifies this
      ensures State() == SetStatus(old(State()), id, s)
    {
      if id in inits {
        inits := inits[id := inits[id].(status := s)];
      }
    }

    method SetNodeProperties(id: int, u: InitiativeFields, now: Instant)
      requires DatesPresent(u)
      modifies this
      ensures State() == SetProperties(old(State()), id, u, now)
    {
      if id in inits {
        inits := inits[id := UpdatedNode(inits[id], u, now)];
      }
    }

    /** The team-size query: the number of employees whose placement meets the condition.
        `InitiativeGraph.TeamSizeWhereMeaning` states what the condition means facet by facet. */
    method CountTeam(tokens: seq<Token>) returns (n: nat)
      ensures n == TeamSize(State(), tokens)
    {
      n := |set p | p in placements && Satisfies(p, tokens)|;
    }
  }

  /** The table `insertInitiativeMetricValue` appends to. */
  class MetricValueTable {
    var rows: seq<MetricValueRow>

    constructor ()
      ensures rows == []
    {
      rows := [];
    }

    method Insert(row: MetricValueRow)
      modifies this
      ensures rows == old(rows) + [row]
    {
      rows := rows + [row];
    }
  }

  /** The `params` map `setPartOf` fills: one entry per filter, by its exact name. */
  method FilterParams(filters: seq<Filter>) returns (params: map<string, set<int>>)
    ensures params == ParamsOf(filters)
  {
    params := map[];
    for i := 0 to |filters|
      invariant params == ParamsOf(filters[..i])
    {
      var f := filters[i];
      assert filters[..i + 1][..i] == filters[..i];
      params := params[f.filterName := GetFilterValueIdList(f.filterValues)];
    }
    assert filters[..|filters|] == filters;
  }

  /** The `empIdList` of `setOwner` and `setEmployeesPartOf`: the employees' ids, in order. */
  method EmployeeIdList(employees: seq<Employee>) returns (empIdList: seq<int>)
    ensures |empIdList| == |employees|
    ensures forall i :: 0 <= i < |employees| ==> empIdList[i] == employees[i].employeeId
    ensures (set x | x in empIdList) == EmployeeIds(employees)
  {
    empIdList := [];
    for i := 0 to |employees|
      invariant |empIdList| == i
      invariant forall j :: 0 <= j < i ==> empIdList[j] == employees[j].employeeId
    {
      empIdList := empIdList + [employees[i].employeeId];
    }
    forall x | x in EmployeeIds(employees) ensures x in empIdList {
      var i :| 0 <= i < |employees| && employees[i].employeeId == x;
      assert empIdList[i] == x;
    }
  }

  /** The loop of `create` collecting the team-size ids: a filter named Function,
      Position or Zone (ignoring case) whose values do not contain 0 adds its ids to that
      facet's list; any other filter is skipped. */
  method CollectTeamSizeIds(filters: seq<Filter>) returns (funcParam: set<int>, posParam: set<int>, zoneParam: set<int>)
    ensures funcParam == TeamSizeIds(filters, Function)
    ensures posParam == TeamSizeIds(filters, Position)
    ensures zoneParam == TeamSizeIds(filters, Zone)
  {
    funcParam, posParam, zoneParam := {}, {}, {};
    for i := 0 to |filters|
      invariant funcParam == TeamSizeIds(filters[..i], Function)
      invariant posParam == TeamSizeIds(filters[..i], Position)
      invariant zoneParam == TeamSizeIds(filters[..i], Zone)
    {
      var f := filters[i];
      assert filters[..i + 1][..i] == filters[..i];
      ContributesToOne(f, Function, Position);
      ContributesToOne(f, Function, Zone);
      ContributesToOne(f, Position, Zone);
      if EqualsIgnoreCase(f.filterName, "function") && 0 !in f.filterValues.Keys {
        funcParam := funcParam + f.filterValues.Keys;
      } else if EqualsIgnoreCase(f.filterName, "position") && 0 !in f.filterValues.Keys {
        posParam := posParam + f.filterValues.Keys;
      } else if EqualsIgnoreCase(f.filterName, "zone") && 0 !in f.filterValues.Keys {
        zoneParam := zoneParam + f.filterValues.Keys;
      }
    }
    assert filters[..|filters|] == filters;
  }

  /** The metric loop of `create`: one insert per metric, in order, each carrying the team
      size; the first insert that throws ends the loop (and `create`). */
  method StoreMetricValues(table: MetricValueTable, id: int, metrics: seq<Metric>, now: Instant,
                           teamSize: int, faults: set<Step>) returns (aborted: bool)
    modifies table
    ensures var k := FirstMetricFault(metrics, faults, 0);
      && table.rows == old(table.rows) + MetricRows(id, metrics, now, teamSize, k)
      && (aborted <==> k < |metrics|)
  {
    var i := 0;
    aborted := false;
    while i < |metrics| && !aborted
      invariant 0 <= i <= |metrics|
      invariant FirstMetricFault(metrics, faults, 0) == if aborted then i else FirstMetricFault(metrics, faults, i)
      invariant aborted ==> i < |metrics|
      invariant table.rows == old(table.rows) + MetricRows(id, metrics, now, teamSize, i)
      decreases |metrics| - i, !aborted
    {
      if MetricInsert(i) in faults {
        aborted := true;
      } else {
        var row := MetricValueRow(id, metrics[i].id, metrics[i].score, now, teamSize);
        table.Insert(row);
        assert MetricRows(id, metrics, now, teamSize, i + 1) == MetricRows(id, metrics, now, teamSize, i) + [row];
        i := i + 1;
      }
    }
  }

  /** An initiative: the object the user interface fills in before `create`, or hands to
      `updateInitiative`. An unset date is `None`. */
  class Initiative {
    var initiativeId: int
    var initiativeName: string
    var initiativeTypeId: int
    var initiativeCategory: string
    var initiativeStatus: string
    var initiativeStartDate: Option<Instant>
    var initiativeEndDate: Option<Instant>
    var initiativeCreationDate: Option<Instant>
    var createdByEmpId: int
    var initiativeComment: string
    var filterList: seq<Filter>
    var ownerOfList: seq<Employee>
    var partOfEmployeeList: seq<Employee>
    var initiativeMetrics: seq<Metric>

    function Fields(): InitiativeFields
      reads this
    {
      InitiativeFields(initiativeId, initiativeName, initiativeTypeId, initiativeCategory,
        initiativeStatus, initiativeStartDate, initiativeEndDate, initiativeCreationDate,
        createdByEmpId, initiativeComment, filterList, ownerOfList, partOfEmployeeList,
        initiativeMetrics)
    }

    /** The initial field values: empty strings, zero ids, no dates, empty lists. */
    constructor ()
      ensures Fields() == InitiativeFields(0, "", 0, "", "", None, None, None, 0, "", [], [], [], [])
    {
      initiativeId, initiativeName, initiativeTypeId := 0, "", 0;
      initiativeCategory, initiativeStatus := "", "";
      initiativeStartDate, initiativeEndDate, initiativeCreationDate := None, None, None;
      createdByEmpId, initiativeComment := 0, "";
      filterList, ownerOfList, partOfEmployeeList, initiativeMetrics := [], [], [], [];
    }

    /** `setInitiativeProperties`: every field but the id, the status and the metrics. */
    method SetInitiativeProperties(initiativeName: string, initiativeTypeId: int, initiativeCategory: string,
                                   initiativeStartDate: Option<Instant>, initiativeEndDate: Option<Instant>,
                                   initiativeCreationDate: Option<Instant>, createdByEmpId: int,
                                   initiativeComment: string, filterList: seq<Filter>,
                                   ownerOfList: seq<Employee>, partOfEmployeeList: seq<Employee>)
      modifies this
      ensures Fields() == InitiativeFields(old(this.initiativeId), initiativeName, initiativeTypeId,
        initiativeCategory, old(this.initiativeStatus), initiativeStartDate, initiativeEndDate,
        initiativeCreationDate, createdByEmpId, initiativeComment, filterList, ownerOfList,
        partOfEmployeeList, old(this.initiativeMetrics))
    {
      SetInitiativeName(initiativeName);
      SetInitiativeTypeId(initiativeTypeId);
      SetInitiativeCategory(initiativeCategory);
      SetInitiativeStartDate(initiativeStartDate);
      SetInitiativeEndDate(initiativeEndDate);
      SetInitiativeCreationDate(initiativeCreationDate);
      SetCreatedByEmpId(createdByEmpId);
      SetInitiativeComment(initiativeComment);
      SetFilterList(filterList);
      SetOwnerOfList(ownerOfList);
      SetPartOfEmployeeList(partOfEmployeeList);
    }

    /** `create`: the node query, then the branch of the category. The id the node query
        gives is returned whatever a later step does; `initiativeId` is set once it is
        positive. */
    method Create(store: GraphStore, table: MetricValueTable, metrics: seq<Metric>, now: Instant, faults: set<Step>)
      returns (id: int)
      modifies this, store, table
      ensures var r := CreateResult(old(store.State()), old(Fields()), metrics, now, faults);
        && id == r.id && store.State() == r.graph && table.rows == old(table.rows) + r.metricRows
        && Fields() == if id > 0 then old(Fields()).(initiativeId := id) else old(Fields())
    {
      ghost var g, f := store.State(), Fields();
      if initiativeStartDate.None? || initiativeEndDate.None? || initiativeCreationDate.None? || NodeQuery in faults {
        return 0;
      }
      id := store.CreateInitNode(NewNode(Fields(), now));
      if id <= 0 {
        return;
      }
      this.initiativeId := id;
      ghost var g1 := store.State();
      if EqualsIgnoreCase(initiativeCategory, "individual") {
        var partOfSet := SetEmployeesPartOf(store, id, partOfEmployeeList, faults);
      } else if EqualsIgnoreCase(initiativeCategory, "team") {
        var partOfSet := SetPartOf(store, id, filterList, faults);
        var funcParam, posParam, zoneParam := CollectTeamSizeIds(filterList);
        var condition := TeamSizeWhere(zoneParam, funcParam, posParam);
        assert condition == TeamSizeCondition(f.filterList);
        if TeamSizeQuery in faults {
          return;
        }
        var teamSize := store.CountTeam(condition);
        var aborted := StoreMetricValues(table, id, metrics, now, teamSize, faults);
        if aborted {
          return;
        }
        if |ownerOfList| > 0 {
          var ownerSet := SetOwner(store, id, ownerOfList, faults);
        }
        assert store.State() == TeamOutcome(g1, id, f, metrics, now, faults).graph;
      }
    }

    /** `setPartOf`: builds the params map, then the function, position and zone queries;
        a missing facet or a throwing query gives false. */
    method SetPartOf(store: GraphStore, initiativeId: int, filterList: seq<Filter>, faults: set<Step>)
      returns (ok: bool)
      modifies store
      ensures var r := SetPartOfOutcome(old(store.State()), initiativeId, filterList, faults);
        ok == r.ok && store.State() == r.graph
    {
      var params := FilterParams(filterList);
      if !("Function" in params && "Zone" in params && "Position" in params) {
        return false;
      }
      var funcQuery, zoneQuery, posQuery := FacetQueryOf(params["Function"]), FacetQueryOf(params["Zone"]), FacetQueryOf(params["Position"]);
      if FacetPartOfQuery(Function) in faults {
        return false;
      }
      store.CreateFacetPartOf(Function, initiativeId, funcQuery);
      if FacetPartOfQuery(Position) in faults {
        return false;
      }
      store.CreateFacetPartOf(Position, initiativeId, posQuery);
      if FacetPartOfQuery(Zone) in faults {
        return false;
      }
      store.CreateFacetPartOf(Zone, initiativeId, zoneQuery);
      return true;
    }

    /** `setEmployeesPartOf`: one query creating part_of from the listed employees. */
    method SetEmployeesPartOf(store: GraphStore, initiativeId: int, employeeList: seq<Employee>, faults: set<Step>)
      returns (ok: bool)
      modifies store
      ensures ok <==> EmployeesPartOfQuery !in faults
      ensures store.State() == if ok then AddEmployeePartOf(old(store.State()), initiativeId, EmployeeIds(employeeList))
                               else old(store.State())
    {
      var empIdList := EmployeeIdList(employeeList);
      if EmployeesPartOfQuery in faults {
        return false;
      }
      store.CreateEmployeePartOf(initiativeId, set x | x in empIdList);
      return true;
    }

    /** `setOwner`: one query creating owner_of from the listed employees. */
    method SetOwner(store: GraphStore, initiativeId: int, employeeList: seq<Employee>, faults: set<Step>)
      returns (ok: bool)
      modifies store
      ensures ok <==> OwnerQuery !in faults
      ensures store.State() == if ok then AddOwners(old(store.State()), initiativeId, EmployeeIds(employeeList))
                               else old(store.State())
    {
      var empIdList := EmployeeIdList(employeeList);
      if OwnerQuery in faults {
        return false;
      }
      store.CreateOwnerOf(initiativeId, set x | x in empIdList);
      return true;
    }

    /** `delete`: flags the node Deleted. */
    method Delete(store: GraphStore, initiativeId: int, faults: set<Step>) returns (status: bool)
      modifies store
      ensures var r := StatusResult(old(store.State()), initiativeId, Deleted, faults);
        status == r.ok && store.State() == r.graph
    {
      status := false;
      if StatusQuery !in faults {
        store.SetNodeStatus(initiativeId, Deleted);
        status := true;
      }
    }

    /** `complete`: flags the node Completed. */
    method Complete(store: GraphStore, initiativeId: int, faults: set<Step>) returns (status: bool)
      modifies store
      ensures var r := StatusResult(old(store.State()), initiativeId, Completed, faults);
        status == r.ok && store.State() == r.graph
    {
      status := false;
      if StatusQuery !in faults {
        store.SetNodeStatus(initiativeId, Completed);
        status := true;
      }
    }

    /** `updateInitiative`: deletes the owners, sets them again from the updated object
        (whatever that returns), then sets the properties. */
    method UpdateInitiative(store: GraphStore, updatedInitiative: Initiative, now: Instant, faults: set<Step>)
      returns (status: bool)
      modifies store
      ensures var r := UpdateResult(old(store.State()), updatedInitiative.Fields(), now, faults);
        status == r.ok && store.State() == r.graph
    {
      status := false;
      var updatedInitiativeId := updatedInitiative.initiativeId;
      if OwnerDeleteQuery in faults {
        return;
      }
      store.DeleteOwnerOf(updatedInitiativeId);
      var ownersSet := updatedInitiative.SetOwner(store, updatedInitiativeId, updatedInitiative.ownerOfList, faults);
      if !DatesPresent(updatedInitiative.Fields()) || PropertiesQuery in faults {
        return;
      }
      store.SetNodeProperties(updatedInitiativeId, updatedInitiative.Fields(), now);
      status := true;
    }

    method SetInitiativeName(initiativeName: string)
      modifies this
      ensures Fields() == old(Fields()).(initiativeName := initiativeName)
    {
      this.initiativeName := initiativeName;
    }

    method SetInitiativeTypeId(initiativeTypeId: int)
      modifies this
      ensures Fields() == old(Fields()).(initiativeTypeId := initiativeTypeId)
    {
      this.initiativeTypeId := initiativeTypeId;
    }

    method SetInitiativeStartDate(initiativeStartDate: Option<Instant>)
      modifies this
      ensures Fields() == old(Fields()).(initiativeStartDate := initiativeStartDate)
    {
      this.initiativeStartDate := initiativeStartDate;
    }

    method SetInitiativeEndDate(initiativeEndDate: Option<Instant>)
      modifies this
      ensures Fields() == old(Fields()).(initiativeEndDate := initiativeEndDate)
    {
      this.initiativeEndDate := initiativeEndDate;
    }

    method SetInitiativeComment(initiativeComment: string)
      modifies this
      ensures Fields() == old(Fields()).(initiativeComment := initiativeComment)
    {
      this.initiativeComment := initiativeComment;
    }

    method SetInitiativeId(initiativeId: int)
      modifies this
      ensures Fields() == old(Fields()).(initiativeId := initiativeId)
    {
      this.initiativeId := initiativeId;
    }

    method SetFilterList(filterList: seq<Filter>)
      modifies this
      ensures Fields() == old(Fields()).(filterList := filterList)
    {
      this.filterList := filterList;
    }

    method SetOwnerOfList(employeeList: seq<Employee>)
      modifies this
      ensures Fields() == old(Fields()).(ownerOfList := employeeList)
    {
      this.ownerOfList := employeeList;
    }

    method SetInitiativeCategory(initiativeCategory: string)
      modifies this
      ensures Fields() == old(Fields()).(initiativeCategory := initiativeCategory)
    {
      this.initiativeCategory := initiativeCategory;
    }

    method SetInitiativeStatus(initiativeStatus: string)
      modifies this
      ensures Fields() == old(Fields()).(initiativeStatus := initiativeStatus)
    {
      this.initiativeStatus := initiativeStatus;
    }

    method SetPartOfEmployeeList(partOfEmployeeList: seq<Employee>)
      modifies this
      ensures Fields() == old(Fields()).(partOfEmployeeList := partOfEmployeeList)
    {
      this.partOfEmployeeList := partOfEmployeeList;
    }

    method SetInitiativeMetrics(initiativeMetrics: seq<Metric>)
      modifies this
      ensures Fields() == old(Fields()).(initiativeMetrics := initiativeMetrics)
    {
      this.initiativeMetrics := initiativeMetrics;
    }

    method SetInitiativeCreationDate(initiativeCreationDate: Option<Instant>)
      modifies this
      ensures Fields() == old(Fields()).(initiativeCreationDate := initiativeCreationDate)
    {
      this.initiativeCreationDate := initiativeCreationDate;
    }

    method SetCreatedByEmpId(createdByEmpId: int)
      modifies this
      ensures Fields() == old(Fields()).(createdByEmpId := createdByEmpId)
    {
      this.createdByEmpId := createdByEmpId;
    }
  }
}
