/** Accounts created, inserted and queried again: what `createSpec` was given comes back through the
    accessors (backend/ent/account_create.go, backend/ent/account_query.go, backend/ent/account.go). */
module CreateThenQuery {
  import opened Prelude
  import opened AccountSchema
  import opened AccountCodec
  import opened Graph
  import opened ChildQueries
  import opened QuerySpecs
  import opened EagerGroups
  import LoadGroups
  import opened AccountQueries

  /** The link rows of the account `id`. */
  function LinkRows(id: int, groups: seq<int>): (rows: seq<JoinRow>)
    ensures |rows| == |groups| && forall i :: 0 <= i < |rows| ==> rows[i] == JoinRow(id, groups[i])
  {
    seq(|groups|, i requires 0 <= i < |groups| => JoinRow(id, groups[i]))
  }

  /** `links` holds exactly the group ids of the accounts among `ids`. */
  ghost predicate LinksOf(links: seq<JoinRow>, ms: seq<Creation>, ids: seq<int>)
    requires |ms| == |ids|
  {
    forall j, g :: 0 <= j < |ms| ==> (JoinRow(ids[j], g) in links <==> g in ms[j].groups)
  }

  lemma LinksSnoc(links: seq<JoinRow>, ms: seq<Creation>, ids: seq<int>, m: Creation, id: int)
    requires |ms| == |ids| && LinksOf(links, ms, ids) && id !in ids
    requires forall l :: l in links ==> l.account in ids
    ensures LinksOf(links + LinkRows(id, m.groups), ms + [m], ids + [id])
    ensures forall l :: l in links + LinkRows(id, m.groups) ==> l.account in ids + [id]
  {
    var more := LinkRows(id, m.groups);
    forall g ensures JoinRow(id, g) in more <==> g in m.groups {
      if g in m.groups {
        var i :| 0 <= i < |m.groups| && m.groups[i] == g;
        assert more[i] == JoinRow(id, g);
      }
    }
  }

  ghost predicate AllDescribed(rows: seq<Row>, ms: seq<Creation>, ids: seq<int>) {
    |rows| == |ms| == |ids| && forall j :: 0 <= j < |ms| ==> DescribesRow(rows[j], ms[j], ids[j])
  }

  lemma AllDescribedSnoc(rows: seq<Row>, ms: seq<Creation>, ids: seq<int>, row: Row, m: Creation, id: int)
    requires AllDescribed(rows, ms, ids) && DescribesRow(row, m, id)
    ensures AllDescribed(rows + [row], ms + [m], ids + [id])
  {}

  /** One creation is described and inserted under its id. */
  method InsertOne(m: Creation, id: int) returns (row: Row, links: seq<JoinRow>)
    requires WellTyped(m)
    ensures DescribesRow(row, m, id) && links == LinkRows(id, m.groups)
  {
    var node, spec := BuildCreateSpec(m);
    row, links := InsertedRow(spec, id), LinkRows(id, Linked(spec.edges));
  }

  /** Every creation is described and inserted under its id. */
  method InsertAll(ms: seq<Creation>, ids: seq<int>) returns (rows: seq<Row>, links: seq<JoinRow>)
    requires |ms| == |ids| && Distinct(ids) && forall m :: m in ms ==> WellTyped(m)
    ensures AllDescribed(rows, ms, ids) && LinksOf(links, ms, ids)
  {
    rows, links := [], [];
    for j := 0 to |ms|
      invariant AllDescribed(rows, ms[..j], ids[..j])
      invariant LinksOf(links, ms[..j], ids[..j]) && forall l :: l in links ==> l.account in ids[..j]
    {
      PrefixSnoc(ms, j);
      PrefixSnoc(ids, j);
      var row, more := InsertOne(ms[j], ids[j]);
      LinksSnoc(links, ms[..j], ids[..j], ms[j], ids[j]);
      AllDescribedSnoc(rows, ms[..j], ids[..j], row, ms[j], ids[j]);
      rows, links := rows + [row], links + more;
    }
    assert ms[..|ms|] == ms && ids[..|ids|] == ids;
  }

  /** The neighbour with the given id, as far as the child query answers it. */
  ghost predicate Finds(answer: Result<Neighbour, EdgeError>, key: Option<int>, s: Source) {
    if key.Some? && exists r :: r in s.rows && r.id == key.value
    then answer.Ok? && answer.value.row.id == key.value
    else answer == Err(NotFound)
  }

  /** The node gives back what the creation was given: every field under its column, the groups, and
      the proxy and the owner that were set. */
  ghost predicate GivesBack(node: Node, m: Creation, fields: seq<Column>, withGroups: bool, unique: map<UniqueEdge, Source>)
    reads node
  {
    && (fields == [] ==>
          forall c :: c in m.values ==> Field(node.fields, c) == Plain(m.values[c]) || Field(node.fields, c) == Ptr(m.values[c]))
    && (ProxyEdge in unique ==> Finds(node.UniqueOrErr(ProxyEdge), m.proxy, unique[ProxyEdge]))
    && (OwnerEdge in unique ==> Finds(node.UniqueOrErr(OwnerEdge), m.owner, unique[OwnerEdge]))
    && (withGroups ==>
          && node.GroupsOrErr().Ok?
          && forall g :: g in LoadGroups.GroupIds(node.GroupsOrErr().value) <==> g in m.groups)
  }

  lemma CreatedRowsDecode(row: Row, m: Creation, id: int, columns: seq<Column>)
    requires WellTyped(m) && DescribesRow(row, m, id)
    ensures RowDecodes(row, columns)
  {}

  lemma CellGivesBack(answer: Result<Neighbour, EdgeError>, key: Option<int>, s: Source)
    requires FollowsCell(answer, if key.Some? then Some(SInt(key.value)) else None, s)
    ensures Finds(answer, key, s)
  {}

  lemma FieldsGiveBack(fields: Fields, row: Row, columns: seq<Column>, m: Creation, id: int, c: Column)
    requires IsProjection(fields, row, columns) && DescribesRow(row, m, id) && WellTyped(m)
    requires c in m.values && c in columns
    ensures Field(fields, c) == Plain(m.values[c]) || Field(fields, c) == Ptr(m.values[c])
  {}

  /** The child queries are different builders. */
  ghost predicate Different(unique: map<UniqueEdge, ChildQuery>, lists: map<ListEdge, ChildQuery>) {
    && (forall d, e :: d in unique && e in unique && d != e ==> unique[d] != unique[e])
    && (forall d, e :: d in lists && e in lists && d != e ==> lists[d] != lists[e])
    && unique.Values !! lists.Values
  }

  ghost function Sources(unique: map<UniqueEdge, ChildQuery>): map<UniqueEdge, Source>
    reads unique.Values
  {
    map e | e in unique :: SourceOf(unique[e])
  }

  /** Any accounts created, inserted under different ids and queried again: the query succeeds, and
      every account gives back its fields, its groups, its proxy and its owner. */
  method CreateThenQuery(ms: seq<Creation>, ids: seq<int>, fields: seq<Column>, table: seq<Column>, withGroups: bool,
                         unique: map<UniqueEdge, ChildQuery>, lists: map<ListEdge, ChildQuery>)
    returns (nodes: seq<Node>, err: Option<AssignError>)
    requires |ms| == |ids| && Distinct(ids) && forall m :: m in ms ==> WellTyped(m)
    requires IdFirstAndOnce(table) && Different(unique, lists) && AdoptionDecisionsEdge !in lists
    modifies unique.Values`predicates, lists.Values`predicates, lists.Values`columns
    ensures err == None && |nodes| == |ms|
    ensures forall j :: 0 <= j < |ms| ==> GivesBack(nodes[j], ms[j], fields, withGroups, old(Sources(unique)))
  {
    ghost var sources := Sources(unique);
    var rows, links := InsertAll(ms, ids);
    var groups: Option<LoadGroups.GroupQuery> := None;
    if withGroups {
      var ofLinks := new LoadGroups.GroupQuery(links, [], table);
      groups := Some(ofLinks);
    }
    var q := new AccountQuery(fields, groups, unique, lists);
    assert UniqueSources(q) == sources;
    ghost var ofLists, columns := ListSources(q), [];
    nodes, err, columns := SqlAll(q, rows);
    forall j | 0 <= j < |ms| ensures RowDecodes(rows[j], columns) {
      CreatedRowsDecode(rows[j], ms[j], ids[j], columns);
    }
    forall j | 0 <= j < |ms| ensures GivesBack(nodes[j], ms[j], fields, withGroups, sources) {
      NodeGivesBack(nodes, rows, ms, ids, j, q, columns, sources, ofLists);
    }
  }

  lemma NodeGivesBack(nodes: seq<Node>, rows: seq<Row>, ms: seq<Creation>, ids: seq<int>, j: nat, q: AccountQuery,
                      columns: seq<Column>, unique: map<UniqueEdge, Source>, lists: map<ListEdge, Source>)
    requires j < |ms| == |ids| == |rows| == |nodes| && Distinct(ids) && WellTyped(ms[j])
    requires AllDescribed(rows, ms, ids)
    requires FollowsCells(nodes, rows, q.groups, unique, lists) && IsProjection(nodes[j].fields, rows[j], columns)
    requires q.fields == [] ==> columns == COLUMNS
    requires q.groups.Some? ==> LinksOf(q.groups.value.links, ms, ids)
    ensures GivesBack(nodes[j], ms[j], q.fields, q.groups.Some?, unique)
  {
    var m := ms[j];
    assert HasId(rows, j, ids[j]);
    if ProxyEdge in unique {
      CellGivesBack(nodes[j].UniqueOrErr(ProxyEdge), m.proxy, unique[ProxyEdge]);
    }
    if OwnerEdge in unique {
      CellGivesBack(nodes[j].UniqueOrErr(OwnerEdge), m.owner, unique[OwnerEdge]);
    }
    if q.fields == [] {
      forall c | c in m.values
        ensures Field(nodes[j].fields, c) == Plain(m.values[c]) || Field(nodes[j].fields, c) == Ptr(m.values[c])
      {
        FieldColumnIsColumn(c);
        FieldsGiveBack(nodes[j].fields, rows[j], columns, m, ids[j], c);
      }
    }
  }

  lemma FieldColumnIsColumn(c: Column)
    requires IsFieldColumn(c)
    ensures c in COLUMNS
  {
    InFourRuns(IDENTITY_COLUMNS, SHARING_COLUMNS, CAPACITY_COLUMNS, SCHEDULING_COLUMNS, c);
    match c {
      case CreatedAt | UpdatedAt | DeletedAt | Name | AccountLevel | Notes | Platform | Type =>
        assert c in IDENTITY_COLUMNS;
      case Credentials | Extra | ShareMode | ShareStatus | SharePolicyID | ProxyFallbackOriginID | Concurrency =>
        assert c in SHARING_COLUMNS;
      case LoadFactor | LoadFactorPaidCeiling | Priority | RateMultiplier | Status | ErrorMessage | LastUsedAt
        | ExpiresAt | AutoPauseOnExpired =>
        assert c in CAPACITY_COLUMNS;
      case Schedulable | RateLimitedAt | RateLimitResetAt | OverloadUntil | TempUnschedulableUntil
        | TempUnschedulableReason | SessionWindowStart | SessionWindowEnd | SessionWindowStatus =>
        assert c in SCHEDULING_COLUMNS;
      case ID | OwnerUserID | ProxyID | Other(_) =>
    }
  }
}
