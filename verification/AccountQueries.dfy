/** `sqlAll`: rows to nodes, then every requested edge (backend/ent/account_query.go), read back
    through the accessors of backend/ent/account.go. */
module AccountQueries {
  import opened Prelude
  import opened AccountSchema
  import opened AccountCodec
  import opened Graph
  import opened ChildQueries
  import opened EagerLoading
  import opened EagerUnique
  import opened QuerySpecs
  import opened EagerGroups
  import LoadGroups

  /** An account query that is about to run: its selection and the children it eager-loads. */
  class AccountQuery {
    const fields: seq<Column>
    const groups: Option<LoadGroups.GroupQuery>
    const unique: map<UniqueEdge, ChildQuery>
    const lists: map<ListEdge, ChildQuery>

    constructor (fields: seq<Column>, groups: Option<LoadGroups.GroupQuery>,
                 unique: map<UniqueEdge, ChildQuery>, lists: map<ListEdge, ChildQuery>)
      ensures this.fields == fields && this.groups == groups && this.unique == unique && this.lists == lists
    {
      this.fields, this.groups, this.unique, this.lists := fields, groups, unique, lists;
    }

    function Requests(): Requested {
      Requested(groups.Some?, unique.Keys, lists.Keys)
    }

    /** The children are different builders. */
    ghost predicate Valid() {
      && (groups.Some? ==> IdFirstAndOnce(groups.value.table))
      && (forall d, e :: d in unique && e in unique && d != e ==> unique[d] != unique[e])
      && (forall d, e :: d in lists && e in lists && d != e ==> lists[d] != lists[e])
      && unique.Values !! lists.Values
    }
  }

  /** What a child query would answer before the loader narrows it. */
  datatype Source = Source(rows: seq<ChildRow>, columns: seq<ChildColumn>)

  ghost function SourceOf(q: ChildQuery): Source
    reads q
  {
    Source(Matching(q.rows, q.predicates), q.columns)
  }

  ghost function UniqueSources(q: AccountQuery): map<UniqueEdge, Source>
    reads q.unique.Values
  {
    map e | e in q.unique :: SourceOf(q.unique[e])
  }

  ghost function ListSources(q: AccountQuery): map<ListEdge, Source>
    reads q.lists.Values
  {
    map e | e in q.lists :: SourceOf(q.lists[e])
  }

  // ------------------------------------------------ what each accessor should answer, per row

  function RowId(row: Row): int {
    IntOf(FieldOf(row, ID))
  }

  function RowKey(row: Row, e: UniqueEdge): Option<int> {
    KeyOf(FieldOf(row, e.ForeignKey()))
  }

  ghost function RowIds(rows: seq<Row>): (ids: seq<int>)
    ensures |ids| == |rows| && forall i :: 0 <= i < |rows| ==> ids[i] == RowId(rows[i])
  {
    seq(|rows|, i requires 0 <= i < |rows| => RowId(rows[i]))
  }

  /** The row at `i` is the last one with its id; with a primary key every row is. */
  ghost predicate LastWithItsId(rows: seq<Row>, i: nat)
    requires i < |rows|
  {
    forall j :: i < j < |rows| ==> RowId(rows[j]) != RowId(rows[i])
  }

  /** A unique edge answers: not loaded unless requested; not found when the key of the row is NULL
      or dangling; otherwise the neighbour the key of the row looks up. */
  function UniqueOutcome(sources: map<UniqueEdge, Source>, e: UniqueEdge, row: Row): Result<ChildRow, EdgeError> {
    if e !in sources then Err(NotLoaded)
    else match RowKey(row, e)
      case None => Err(NotFound)
      case Some(k) => match Lookup(sources[e].rows, k)
        case None => Err(NotFound)
        case Some(r) => Ok(Seen(r, sources[e].columns))
  }

  function SeenResult(r: Result<Neighbour, EdgeError>): Result<ChildRow, EdgeError> {
    match r
    case Ok(n) => Ok(n.row)
    case Err(e) => Err(e)
  }

  /** A list edge answers: not loaded unless requested; otherwise the children of the row's id. */
  ghost function ListOutcome(sources: map<ListEdge, Source>, e: ListEdge, rows: seq<Row>, i: nat)
    : Result<seq<ChildRow>, EdgeError>
    requires i < |rows|
  {
    if e !in sources then Err(NotLoaded)
    else Ok(if LastWithItsId(rows, i) then ChildrenOf(sources[e].rows, RowId(rows[i])) else [])
  }

  ghost function SeenList(r: Result<seq<Neighbour>, EdgeError>): Result<seq<ChildRow>, EdgeError> {
    match r
    case Ok(ns) => Ok(RowsOf(ns))
    case Err(e) => Err(e)
  }

  /** The groups edge answers: not loaded unless requested; otherwise the ids linked to the row. */
  ghost function GroupsOutcome(groups: Option<LoadGroups.GroupQuery>, rows: seq<Row>, i: nat): Result<seq<int>, EdgeError>
    requires i < |rows|
  {
    if groups.None? then Err(NotLoaded)
    else Ok(if LastWithItsId(rows, i)
            then LinkedGroups(LoadGroups.Among(groups.value.links, RowIds(rows)), RowId(rows[i])) else [])
  }

  ghost function SeenGroups(r: Result<seq<Group>, EdgeError>): Result<seq<int>, EdgeError> {
    match r
    case Ok(gs) => Ok(LoadGroups.GroupIds(gs))
    case Err(e) => Err(e)
  }

  /** Every node answers every unique edge as its row says. */
  ghost predicate UniqueAnswers(nodes: seq<Node>, rows: seq<Row>, sources: map<UniqueEdge, Source>)
    reads nodes`loaded, nodes`unique
  {
    |nodes| == |rows| && forall i, e :: 0 <= i < |nodes| ==>
      SeenResult(nodes[i].UniqueOrErr(e)) == UniqueOutcome(sources, e, rows[i])
  }

  ghost predicate ListAnswers(nodes: seq<Node>, rows: seq<Row>, sources: map<ListEdge, Source>)
    reads nodes`loaded, nodes`lists
  {
    |nodes| == |rows| && forall i, e :: 0 <= i < |nodes| ==>
      SeenList(nodes[i].ListOrErr(e)) == ListOutcome(sources, e, rows, i)
  }

  ghost predicate GroupAnswers(nodes: seq<Node>, rows: seq<Row>, groups: Option<LoadGroups.GroupQuery>)
    reads nodes`loaded, nodes`groups
  {
    |nodes| == |rows| && forall i :: 0 <= i < |nodes| ==>
      SeenGroups(nodes[i].GroupsOrErr()) == GroupsOutcome(groups, rows, i)
  }

  // ------------------------------------------------ the answers read off the cells of the rows

  /** A requested unique edge whose key stands in `cell`: not found for NULL; otherwise the neighbour
      with that id, if there is one. */
  ghost predicate FollowsCell(answer: Result<Neighbour, EdgeError>, cell: Option<Scalar>, s: Source) {
    && (cell == None ==> answer == Err(NotFound))
    && forall k :: cell == Some(SInt(k)) ==>
         if exists r :: r in s.rows && r.id == k
         then answer.Ok? && exists r :: r in s.rows && r.id == k && answer.value.row == Seen(r, s.columns)
         else answer == Err(NotFound)
  }

  /** A requested list edge of the row with id `k`: the neighbours that reference `k`. */
  ghost predicate HoldsChildren(answer: Result<seq<Neighbour>, EdgeError>, k: int, s: Source) {
    && answer.Ok? && RowsOf(answer.value) == ChildrenOf(s.rows, k)
    && forall r :: r in RowsOf(answer.value) <==> r in s.rows && r.fk == Some(k)
  }

  /** The requested groups of the row with id `k`: those that the link rows name, each once. */
  ghost predicate HoldsGroups(answer: Result<seq<Group>, EdgeError>, k: int, q: LoadGroups.GroupQuery) {
    && answer.Ok? && Distinct(LoadGroups.GroupIds(answer.value))
    && forall g :: g in LoadGroups.GroupIds(answer.value) <==> JoinRow(k, g) in q.links
  }

  /** The row at `i` holds the id `k`, and no later row does; every row has some id. */
  ghost predicate HasId(rows: seq<Row>, i: nat, k: int)
    requires i < |rows|
  {
    && (forall r :: r in rows ==> Cell(r, ID).Some? && Cell(r, ID).value.SInt?)
    && Cell(rows[i], ID) == Some(SInt(k)) && forall j :: i < j < |rows| ==> Cell(rows[j], ID) != Some(SInt(k))
  }

  /** Every accessor of every node answers from the cells of its row: the proxy from `proxy_id`, the
      owner from `owner_user_id`, the lists and the groups from `id`. */
  ghost predicate FollowsCells(nodes: seq<Node>, rows: seq<Row>, groups: Option<LoadGroups.GroupQuery>,
                               unique: map<UniqueEdge, Source>, lists: map<ListEdge, Source>)
    reads nodes`loaded, nodes`unique, nodes`lists, nodes`groups
  {
    && |nodes| == |rows|
    && (ProxyEdge in unique ==>
          forall i :: 0 <= i < |nodes| ==>
            FollowsCell(nodes[i].UniqueOrErr(ProxyEdge), Cell(rows[i], ProxyID), unique[ProxyEdge]))
    && (OwnerEdge in unique ==>
          forall i :: 0 <= i < |nodes| ==>
            FollowsCell(nodes[i].UniqueOrErr(OwnerEdge), Cell(rows[i], OwnerUserID), unique[OwnerEdge]))
    && (forall i, k, e :: 0 <= i < |nodes| && HasId(rows, i, k) && e in lists ==>
          HoldsChildren(nodes[i].ListOrErr(e), k, lists[e]))
    && forall i, k :: 0 <= i < |nodes| && HasId(rows, i, k) && groups.Some? ==>
         HoldsGroups(nodes[i].GroupsOrErr(), k, groups.value)
  }

  lemma UniqueFollowsCell(answer: Result<Neighbour, EdgeError>, sources: map<UniqueEdge, Source>, e: UniqueEdge, row: Row)
    requires e in sources && SeenResult(answer) == UniqueOutcome(sources, e, row)
    ensures e == ProxyEdge ==> FollowsCell(answer, Cell(row, ProxyID), sources[e])
    ensures e == OwnerEdge ==> FollowsCell(answer, Cell(row, OwnerUserID), sources[e])
  {
    var key := RowKey(row, e);
    if key.Some? {
      LookupFinds(sources[e].rows, key.value);
    }
  }

  lemma ListFollowsId(answer: Result<seq<Neighbour>, EdgeError>, sources: map<ListEdge, Source>, e: ListEdge,
                      rows: seq<Row>, i: nat, k: int)
    requires i < |rows| && e in sources && SeenList(answer) == ListOutcome(sources, e, rows, i) && HasId(rows, i, k)
    ensures HoldsChildren(answer, k, sources[e])
  {
    IdsAreDifferent(rows, i, k);
    ChildrenMembers(sources[e].rows, k);
  }

  lemma IdsAreDifferent(rows: seq<Row>, i: nat, k: int)
    requires i < |rows| && HasId(rows, i, k)
    ensures RowId(rows[i]) == k && LastWithItsId(rows, i)
  {
    forall j | i <= j < |rows| ensures Cell(rows[j], ID) == Some(SInt(RowId(rows[j]))) {
      assert rows[j] in rows;
    }
  }

  lemma GroupsFollowId(answer: Result<seq<Group>, EdgeError>, q: LoadGroups.GroupQuery, rows: seq<Row>, i: nat, k: int)
    requires i < |rows| && SeenGroups(answer) == GroupsOutcome(Some(q), rows, i) && HasId(rows, i, k)
    ensures HoldsGroups(answer, k, q)
  {
    IdsAreDifferent(rows, i, k);
    var ids := RowIds(rows);
    assert ids[i] == k && k in ids;
    LinkedGroupsAreTheJoin(LoadGroups.Among(q.links, ids), k);
    LoadGroups.AmongMembers(q.links, ids);
  }

  lemma AnswersFollowCells(nodes: seq<Node>, rows: seq<Row>, groups: Option<LoadGroups.GroupQuery>,
                           unique: map<UniqueEdge, Source>, lists: map<ListEdge, Source>)
    requires GroupAnswers(nodes, rows, groups) && UniqueAnswers(nodes, rows, unique) && ListAnswers(nodes, rows, lists)
    ensures FollowsCells(nodes, rows, groups, unique, lists)
  {
    forall i, e | 0 <= i < |nodes| && e in unique
      ensures e == ProxyEdge ==> FollowsCell(nodes[i].UniqueOrErr(e), Cell(rows[i], ProxyID), unique[e])
      ensures e == OwnerEdge ==> FollowsCell(nodes[i].UniqueOrErr(e), Cell(rows[i], OwnerUserID), unique[e])
    {
      UniqueFollowsCell(nodes[i].UniqueOrErr(e), unique, e, rows[i]);
    }
    forall i, k, e | 0 <= i < |nodes| && HasId(rows, i, k) && e in lists
      ensures HoldsChildren(nodes[i].ListOrErr(e), k, lists[e])
    {
      ListFollowsId(nodes[i].ListOrErr(e), lists, e, rows, i, k);
    }
    forall i, k | 0 <= i < |nodes| && HasId(rows, i, k) && groups.Some?
      ensures HoldsGroups(nodes[i].GroupsOrErr(), k, groups.value)
    {
      GroupsFollowId(nodes[i].GroupsOrErr(), groups.value, rows, i, k);
    }
  }

  // ------------------------------------------------ materialising the rows

  /** The nodes read the rows as if every column had been selected, as far as the id and the keys
      of the requested edges go. */
  ghost predicate ReadsRows(nodes: seq<Node>, rows: seq<Row>, loaded: Requested)
    reads nodes`fields, nodes`loaded
  {
    |nodes| == |rows| && forall i :: 0 <= i < |nodes| ==>
      && nodes[i].loaded == loaded && IdIn(nodes[i].fields) == RowId(rows[i])
      && forall e :: e in loaded.unique ==> KeyIn(nodes[i].fields, e) == RowKey(rows[i], e)
  }

  /** The JSON columns that are read decode. */
  predicate RowDecodes(row: Row, columns: seq<Column>) {
    forall c :: c in columns ==> Decodes(row, c)
  }

  /** `_spec.Assign` for one row. */
  method MaterialiseRow(row: Row, columns: seq<Column>, loaded: Requested) returns (node: Node, err: Option<AssignError>)
    requires ID in columns && forall e :: e in loaded.unique ==> e.ForeignKey() in columns
    ensures fresh(node)
    ensures err == None <==> RowDecodes(row, columns)
    ensures err.Some? ==> err.value.Undecodable?
    ensures node.loaded == loaded && node.groups == [] && node.unique == map[] && node.lists == map[]
    ensures err == None ==>
              && IsProjection(node.fields, row, columns) && IdIn(node.fields) == RowId(row)
              && forall e :: e in loaded.unique ==> KeyIn(node.fields, e) == RowKey(row, e)
  {
    node := new Node(loaded);
    ScanThenAssign(columns, row, |columns|);
    assert columns[..|columns|] == columns;
    err := node.AssignValues(columns, Scanned(columns, row));
  }

  /** `sqlgraph.QueryNodes`: one node for each row, or the error of the first row that does not decode. */
  method Materialise(rows: seq<Row>, columns: seq<Column>, loaded: Requested)
    returns (nodes: seq<Node>, err: Option<AssignError>)
    requires ID in columns && forall e :: e in loaded.unique ==> e.ForeignKey() in columns
    ensures err == None <==> forall r :: r in rows ==> RowDecodes(r, columns)
    ensures err.Some? ==> err.value.Undecodable? && nodes == []
    ensures forall n :: n in nodes ==> fresh(n) && n.unique == map[]
    ensures err == None ==> Distinct(nodes) && ReadsRows(nodes, rows, loaded)
    ensures err == None ==> forall i :: 0 <= i < |nodes| ==> IsProjection(nodes[i].fields, rows[i], columns)
  {
    nodes := [];
    for i := 0 to |rows|
      invariant forall r :: r in rows[..i] ==> RowDecodes(r, columns)
      invariant forall n :: n in nodes ==> fresh(n) && n.unique == map[]
      invariant Distinct(nodes) && ReadsRows(nodes, rows[..i], loaded)
      invariant forall j :: 0 <= j < i ==> IsProjection(nodes[j].fields, rows[j], columns)
    {
      PrefixSnoc(rows, i);
      var node;
      node, err := MaterialiseRow(rows[i], columns, loaded);
      if err.Some? {
        assert rows[i] in rows;
        return [], err;
      }
      nodes := nodes + [node];
    }
    assert rows[..|rows|] == rows;
    err := None;
  }

  // ------------------------------------------------ loading the edges

  /** The effect of one unique-edge load on a node that has not got that edge yet. */
  ghost predicate UniqueStep(edge: UniqueEdge, outcome: Result<ChildRow, EdgeError>,
                             before: map<UniqueEdge, Neighbour>, after: map<UniqueEdge, Neighbour>)
  {
    && (forall e :: e != edge ==> (e in after <==> e in before) && (e in after ==> after[e] == before[e]))
    && match outcome
       case Ok(r) => edge in after && after[edge].row == r
       case Err(_) => edge !in after
  }

  lemma LoadedIsStep(edge: UniqueEdge, nodes: seq<Node>, keys: seq<Option<int>>, i: nat, s: Source,
                     sources: map<UniqueEdge, Source>, row: Row, before: EdgeTargets, after: EdgeTargets)
    requires i < |nodes| == |keys| && TargetLoaded(edge, nodes, keys, i, s.rows, s.columns, before, after)
    requires edge in sources && sources[edge] == s && keys[i] == RowKey(row, edge)
    requires edge !in before[nodes[i]]
    ensures UniqueStep(edge, UniqueOutcome(sources, edge, row), before[nodes[i]], after[nodes[i]])
  {}

  /** One `if query := _q.withX; query != nil` block for a unique edge. */
  method LoadOneUnique(q: AccountQuery, edge: UniqueEdge, nodes: seq<Node>, ghost rows: seq<Row>, ghost all: set<Node>,
                       ghost sources: map<UniqueEdge, Source>)
    requires all == (set n | n in nodes) && |rows| == |nodes|
    requires edge in q.unique <==> edge in sources
    requires edge in q.unique ==> sources[edge] == SourceOf(q.unique[edge])
    requires forall i :: 0 <= i < |nodes| ==> edge !in nodes[i].unique
    requires edge in q.unique ==> forall i :: 0 <= i < |nodes| ==> KeyIn(nodes[i].fields, edge) == RowKey(rows[i], edge)
    modifies (if edge in q.unique then {q.unique[edge]} else {})`predicates, all`unique
    ensures forall i :: 0 <= i < |nodes| ==>
              UniqueStep(edge, UniqueOutcome(sources, edge, rows[i]), old(nodes[i].unique), nodes[i].unique)
  {
    if edge in q.unique {
      ghost var keys, before := Keys(nodes, edge), TargetsOf(all);
      var err := LoadUnique(q.unique[edge], edge, nodes, all);
      forall i | 0 <= i < |nodes|
        ensures UniqueStep(edge, UniqueOutcome(sources, edge, rows[i]), before[nodes[i]], nodes[i].unique)
      {
        KeyAt(nodes, edge, i);
        LoadedIsStep(edge, nodes, keys, i, sources[edge], sources, rows[i], before, TargetsOf(all));
      }
    }
  }

  /** `withProxy`, then `withOwner`. */
  method LoadUniqueEdges(q: AccountQuery, nodes: seq<Node>, ghost rows: seq<Row>, ghost all: set<Node>)
    requires q.Valid()
    requires all == (set n | n in nodes) && ReadsRows(nodes, rows, q.Requests())
    requires forall n :: n in nodes ==> n.unique == map[]
    modifies q.unique.Values`predicates, all`unique
    ensures UniqueAnswers(nodes, rows, old(UniqueSources(q)))
  {
    ghost var sources := UniqueSources(q);
    LoadOneUnique(q, ProxyEdge, nodes, rows, all, sources);
    ghost var mid := TargetsOf(all);
    LoadOneUnique(q, OwnerEdge, nodes, rows, all, sources);
    forall i, e | 0 <= i < |nodes|
      ensures SeenResult(nodes[i].UniqueOrErr(e)) == UniqueOutcome(sources, e, rows[i])
    {
      NodeAnswers(nodes[i], sources, rows[i], mid[nodes[i]], e);
    }
  }

  lemma TwoUniqueSteps(sources: map<UniqueEdge, Source>, row: Row, start: map<UniqueEdge, Neighbour>,
                       mid: map<UniqueEdge, Neighbour>, end: map<UniqueEdge, Neighbour>, e: UniqueEdge)
    requires UniqueStep(ProxyEdge, UniqueOutcome(sources, ProxyEdge, row), start, mid)
    requires UniqueStep(OwnerEdge, UniqueOutcome(sources, OwnerEdge, row), mid, end)
    ensures e in end <==> UniqueOutcome(sources, e, row).Ok?
    ensures e in end ==> UniqueOutcome(sources, e, row) == Ok(end[e].row)
  {}

  lemma NodeAnswers(node: Node, sources: map<UniqueEdge, Source>, row: Row, mid: map<UniqueEdge, Neighbour>, e: UniqueEdge)
    requires node.loaded.unique == sources.Keys
    requires UniqueStep(ProxyEdge, UniqueOutcome(sources, ProxyEdge, row), map[], mid)
    requires UniqueStep(OwnerEdge, UniqueOutcome(sources, OwnerEdge, row), mid, node.unique)
    ensures SeenResult(node.UniqueOrErr(e)) == UniqueOutcome(sources, e, row)
  {
    TwoUniqueSteps(sources, row, map[], mid, node.unique, e);
  }

  /** The effect of one list-edge load on a node. */
  ghost predicate ListStep(edge: ListEdge, outcome: Result<seq<ChildRow>, EdgeError>,
                           before: map<ListEdge, seq<Neighbour>>, after: map<ListEdge, seq<Neighbour>>)
  {
    && (forall e :: e != edge ==> ListIn(after, e) == ListIn(before, e))
    && (outcome.Ok? ==> RowsOf(ListIn(after, edge)) == outcome.value)
  }

  lemma {:induction false} FreshNodesOwnLastIds(nodes: seq<Node>, ids: seq<int>, rows: seq<Row>, i: nat)
    requires i < |nodes| == |ids| == |rows| && Distinct(nodes)
    requires forall j :: 0 <= j < |rows| ==> ids[j] == RowId(rows[j])
    ensures ids[i] in ByID(nodes, ids)
    ensures ByID(nodes, ids)[ids[i]] == nodes[i] <==> LastWithItsId(rows, i)
  {
    var j := ByIDFinds(nodes, ids, ids[i]);
    assert ids[j] == ids[i] && j >= i;
    if j > i {
      assert nodes[j] != nodes[i];
    }
  }

  /** One `if query := _q.withX; query != nil` block for a list edge. */
  method LoadOneList(q: AccountQuery, edge: ListEdge, nodes: seq<Node>, ghost rows: seq<Row>, ghost all: set<Node>,
                     ghost sources: map<ListEdge, Source>)
    requires all == (set n | n in nodes) && |rows| == |nodes| && Distinct(nodes)
    requires edge in q.lists <==> edge in sources
    requires edge in q.lists ==> sources[edge] == SourceOf(q.lists[edge])
    requires forall i :: 0 <= i < |nodes| ==> IdIn(nodes[i].fields) == RowId(rows[i])
    modifies (if edge in q.lists then {q.lists[edge]} else {})`predicates,
             (if edge in q.lists then {q.lists[edge]} else {})`columns, all`lists
    ensures forall i :: 0 <= i < |nodes| ==>
              ListStep(edge, ListOutcome(sources, edge, rows, i), old(nodes[i].lists), nodes[i].lists)
  {
    if edge in q.lists {
      ghost var before := ListsOf(all);
      IdsAreRowIds(nodes, rows);
      var err := LoadList(q.lists[edge], edge, nodes, all);
      ListsAnswerRows(edge, nodes, RowIds(rows), rows, sources, before, ListsOf(all));
    }
  }

  lemma ListsAnswerRows(edge: ListEdge, nodes: seq<Node>, ids: seq<int>, rows: seq<Row>, sources: map<ListEdge, Source>,
                        before: EdgeLists, after: EdgeLists)
    requires |nodes| == |rows| && ids == RowIds(rows) && Distinct(nodes) && edge in sources
    requires ListsLoaded(edge, nodes, ids, sources[edge].rows, before, after)
    ensures forall i :: 0 <= i < |nodes| ==>
              && nodes[i] in before && nodes[i] in after
              && ListStep(edge, ListOutcome(sources, edge, rows, i), before[nodes[i]], after[nodes[i]])
  {
    forall i | 0 <= i < |nodes|
      ensures nodes[i] in before && nodes[i] in after
      ensures ListStep(edge, ListOutcome(sources, edge, rows, i), before[nodes[i]], after[nodes[i]])
    {
      FreshNodesOwnLastIds(nodes, ids, rows, i);
      assert NodeLoaded(edge, nodes, ids, i, sources[edge].rows, before, after);
    }
  }

  /** `withUsageLogs`, then `withAccountGroups`; an account has no other list edge of this kind. */
  method LoadListEdges(q: AccountQuery, nodes: seq<Node>, ghost rows: seq<Row>, ghost all: set<Node>)
    requires q.Valid() && AdoptionDecisionsEdge !in q.lists
    requires all == (set n | n in nodes) && Distinct(nodes) && ReadsRows(nodes, rows, q.Requests())
    modifies q.lists.Values`predicates, q.lists.Values`columns, all`lists
    ensures ListAnswers(nodes, rows, old(ListSources(q)))
  {
    ghost var sources := ListSources(q);
    LoadOneList(q, UsageLogsEdge, nodes, rows, all, sources);
    ghost var mid := ListsOf(all);
    LoadOneList(q, AccountGroupsEdge, nodes, rows, all, sources);
    forall i, e | 0 <= i < |nodes|
      ensures SeenList(nodes[i].ListOrErr(e)) == ListOutcome(sources, e, rows, i)
    {
      TwoListSteps(sources, rows, i, old(nodes[i].lists), mid[nodes[i]], nodes[i].lists, e);
    }
  }

  lemma TwoListSteps(sources: map<ListEdge, Source>, rows: seq<Row>, i: nat, start: map<ListEdge, seq<Neighbour>>,
                     mid: map<ListEdge, seq<Neighbour>>, end: map<ListEdge, seq<Neighbour>>, e: ListEdge)
    requires i < |rows| && AdoptionDecisionsEdge !in sources
    requires ListStep(UsageLogsEdge, ListOutcome(sources, UsageLogsEdge, rows, i), start, mid)
    requires ListStep(AccountGroupsEdge, ListOutcome(sources, AccountGroupsEdge, rows, i), mid, end)
    ensures e in sources ==> Ok(RowsOf(ListIn(end, e))) == ListOutcome(sources, e, rows, i)
  {}

  lemma GroupsAnswerRows(q: LoadGroups.GroupQuery, nodes: seq<Node>, ids: seq<int>, rows: seq<Row>, shared: seq<Group>,
                         after: LoadGroups.GroupLists)
    requires |nodes| == |rows| && ids == RowIds(rows) && Distinct(nodes)
    requires LoadGroups.GroupsLoaded(nodes, ids, LoadGroups.Among(q.links, ids), shared, after)
    ensures forall i :: 0 <= i < |nodes| ==>
              && nodes[i] in after
              && SeenGroups(Ok(after[nodes[i]])) == GroupsOutcome(Some(q), rows, i)
  {
    forall i | 0 <= i < |nodes|
      ensures nodes[i] in after && SeenGroups(Ok(after[nodes[i]])) == GroupsOutcome(Some(q), rows, i)
    {
      FreshNodesOwnLastIds(nodes, ids, rows, i);
    }
  }

  lemma IdsAreRowIds(nodes: seq<Node>, rows: seq<Row>)
    requires |nodes| == |rows|
    requires forall i :: 0 <= i < |nodes| ==> IdIn(nodes[i].fields) == RowId(rows[i])
    ensures Ids(nodes) == RowIds(rows)
  {
    forall i | 0 <= i < |nodes| ensures Ids(nodes)[i] == RowId(rows[i]) {
      IdAt(nodes, i);
    }
  }

  /** `withGroups`. */
  method LoadGroupEdge(q: AccountQuery, nodes: seq<Node>, ghost rows: seq<Row>, ghost all: set<Node>)
    requires q.Valid()
    requires all == (set n | n in nodes) && Distinct(nodes) && ReadsRows(nodes, rows, q.Requests())
    modifies all`groups
    ensures GroupAnswers(nodes, rows, q.groups)
  {
    match q.groups {
      case None =>
      case Some(query) =>
        IdsAreRowIds(nodes, rows);
        ghost var shared;
        var err;
        err, shared := LoadGroups.Load(query, nodes, all);
        GroupsAnswerRows(query, nodes, RowIds(rows), rows, shared, LoadGroups.GroupsOf(all));
    }
  }

  /** `sqlAll`. It fails exactly when a JSON column that is read does not decode. Otherwise, whatever
      fields were selected, every accessor of every returned node answers from the full row: the
      eager-loaded edges do not depend on the projection, and the three answers of a unique edge
      (found, not found, not loaded) are told apart exactly. */
  method SqlAll(q: AccountQuery, rows: seq<Row>)
    returns (nodes: seq<Node>, err: Option<AssignError>, ghost columns: seq<Column>)
    requires q.Valid() && AdoptionDecisionsEdge !in q.lists
    modifies q.unique.Values`predicates, q.lists.Values`predicates, q.lists.Values`columns
    ensures IdFirstAndOnce(columns)
    ensures forall c :: c in q.fields ==> c in columns
    ensures q.fields == [] ==> columns == COLUMNS
    ensures err == None <==> forall r :: r in rows ==> RowDecodes(r, columns)
    ensures err.Some? ==> err.value.Undecodable? && nodes == []
    ensures err == None ==>
              |nodes| == |rows| && forall i :: 0 <= i < |nodes| ==> IsProjection(nodes[i].fields, rows[i], columns)
    ensures err == None ==> GroupAnswers(nodes, rows, q.groups)
    ensures err == None ==> UniqueAnswers(nodes, rows, old(UniqueSources(q)))
    ensures err == None ==> ListAnswers(nodes, rows, old(ListSources(q)))
    ensures err == None ==> FollowsCells(nodes, rows, q.groups, old(UniqueSources(q)), old(ListSources(q)))
  {
    ghost var unique, lists := UniqueSources(q), ListSources(q);
    nodes, err, columns := ReadNodes(q, rows);
    if err == None && |nodes| > 0 {
      LoadEdges(q, nodes, rows, set n | n in nodes);
    }
    if err == None {
      AnswersFollowCells(nodes, rows, q.groups, unique, lists);
    }
  }

  /** The five loads of `sqlAll`. */
  method LoadEdges(q: AccountQuery, nodes: seq<Node>, ghost rows: seq<Row>, ghost all: set<Node>)
    requires q.Valid() && AdoptionDecisionsEdge !in q.lists
    requires all == (set n | n in nodes) && Distinct(nodes) && ReadsRows(nodes, rows, q.Requests())
    requires forall n :: n in nodes ==> n.unique == map[]
    modifies q.unique.Values`predicates, q.lists.Values`predicates, q.lists.Values`columns,
             all`groups, all`unique, all`lists
    ensures GroupAnswers(nodes, rows, q.groups)
    ensures UniqueAnswers(nodes, rows, old(UniqueSources(q)))
    ensures ListAnswers(nodes, rows, old(ListSources(q)))
  {
    LoadGroupEdge(q, nodes, rows, all);
    LoadKeyEdges(q, nodes, rows, all);
  }

  /** The four loads that go by a foreign key. */
  method LoadKeyEdges(q: AccountQuery, nodes: seq<Node>, ghost rows: seq<Row>, ghost all: set<Node>)
    requires q.Valid() && AdoptionDecisionsEdge !in q.lists
    requires all == (set n | n in nodes) && Distinct(nodes) && ReadsRows(nodes, rows, q.Requests())
    requires forall n :: n in nodes ==> n.unique == map[]
    modifies q.unique.Values`predicates, q.lists.Values`predicates, q.lists.Values`columns,
             all`unique, all`lists
    ensures UniqueAnswers(nodes, rows, old(UniqueSources(q)))
    ensures ListAnswers(nodes, rows, old(ListSources(q)))
  {
    LoadUniqueEdges(q, nodes, rows, all);
    LoadListEdges(q, nodes, rows, all);
  }

  /** `querySpec` and `QueryNodes`: the nodes before any edge is loaded. */
  method ReadNodes(q: AccountQuery, rows: seq<Row>)
    returns (nodes: seq<Node>, err: Option<AssignError>, ghost columns: seq<Column>)
    ensures IdFirstAndOnce(columns)
    ensures forall c :: c in q.fields ==> c in columns
    ensures q.fields == [] ==> columns == COLUMNS
    ensures err == None <==> forall r :: r in rows ==> RowDecodes(r, columns)
    ensures err.Some? ==> err.value.Undecodable? && nodes == []
    ensures forall n :: n in nodes ==> fresh(n) && n.unique == map[]
    ensures err == None ==> Distinct(nodes) && ReadsRows(nodes, rows, q.Requests())
    ensures err == None ==> forall i :: 0 <= i < |nodes| ==> IsProjection(nodes[i].fields, rows[i], columns)
  {
    TableColumns();
    var cols := SpecColumns(q.fields, COLUMNS, q.Requests().unique);
    columns := cols;
    nodes, err := Materialise(rows, cols, q.Requests());
  }

  lemma TableColumns()
    ensures IdFirstAndOnce(COLUMNS)
    ensures ProxyID in COLUMNS && OwnerUserID in COLUMNS
  {
    assert SHARING_COLUMNS[2] == OwnerUserID && SHARING_COLUMNS[6] == ProxyID;
  }
}
