/** Eager loading against edge traversal: `WithGroups()` and `QueryGroups()` on one account query
    (backend/ent/account_query.go). */
module GroupTraversal {
  import opened Prelude
  import opened AccountSchema
  import opened AccountCodec
  import opened Graph
  import opened EagerGroups
  import LoadGroups
  import opened AccountQueries

  // ------------------------------------------------ what the two queries read

  /** The account query's predicates, which both `sqlAll` and `sqlQuery` apply. */
  type Predicates = seq<Row -> bool>

  predicate Selects(ps: Predicates, r: Row) {
    forall i :: 0 <= i < |ps| ==> ps[i](r)
  }

  /** The rows that the account query itself answers. */
  function Selected(accounts: seq<Row>, ps: Predicates): seq<Row> {
    if accounts == [] then []
    else
      Selected(accounts[..|accounts| - 1], ps)
      + (if Selects(ps, accounts[|accounts| - 1]) then [accounts[|accounts| - 1]] else [])
  }

  lemma {:induction false} SelectedMembers(accounts: seq<Row>, ps: Predicates)
    ensures forall r :: r in Selected(accounts, ps) <==> r in accounts && Selects(ps, r)
  {
    if accounts != [] {
      SelectedMembers(accounts[..|accounts| - 1], ps);
      assert accounts == accounts[..|accounts| - 1] + [accounts[|accounts| - 1]];
    }
  }

  /** A row of the link table leads from an account that the predicates select to the group. */
  ghost predicate LeadsTo(links: seq<JoinRow>, accounts: seq<Row>, ps: Predicates, g: int) {
    exists a :: a in accounts && Selects(ps, a) && JoinRow(RowId(a), g) in links
  }

  /** Read off the cells: some link row leads to the group from the id of an account that satisfies
      every predicate. */
  lemma LeadsFromSelectedCells(links: seq<JoinRow>, accounts: seq<Row>, ps: Predicates, g: int)
    requires forall a :: a in accounts ==> Cell(a, ID).Some? && Cell(a, ID).value.SInt?
    ensures LeadsTo(links, accounts, ps, g)
            <==> exists a, i :: a in accounts && (forall p :: p in ps ==> p(a)) && Cell(a, ID) == Some(SInt(i)) && JoinRow(i, g) in links
  {
    if LeadsTo(links, accounts, ps, g) {
      var a :| a in accounts && Selects(ps, a) && JoinRow(RowId(a), g) in links;
      assert Cell(a, ID) == Some(SInt(RowId(a))) && forall p :: p in ps ==> p(a);
    }
    if a, i :| a in accounts && (forall p :: p in ps ==> p(a)) && Cell(a, ID) == Some(SInt(i)) && JoinRow(i, g) in links {
      assert Selects(ps, a) && RowId(a) == i;
    }
  }

  /** What the traversal answers: a scan over the groups, keeping each one that an account leads to. */
  ghost function Traversed(groups: seq<int>, links: seq<JoinRow>, accounts: seq<Row>, ps: Predicates): seq<int> {
    if groups == [] then []
    else
      var last := groups[|groups| - 1];
      Traversed(groups[..|groups| - 1], links, accounts, ps) + (if LeadsTo(links, accounts, ps, last) then [last] else [])
  }

  lemma {:induction false} TraversedIsExact(groups: seq<int>, links: seq<JoinRow>, accounts: seq<Row>, ps: Predicates)
    ensures forall g :: g in Traversed(groups, links, accounts, ps) <==> g in groups && LeadsTo(links, accounts, ps, g)
    ensures Distinct(groups) ==> Distinct(Traversed(groups, links, accounts, ps))
  {
    if groups != [] {
      TraversedIsExact(groups[..|groups| - 1], links, accounts, ps);
      assert groups == groups[..|groups| - 1] + [groups[|groups| - 1]];
    }
  }

  /** `joined` answers, in any order and with any repetitions, the join of the groups with the link table. */
  ghost predicate IsJoin(joined: seq<JoinRow>, groups: seq<int>, links: seq<JoinRow>) {
    forall r :: r in joined <==> r in links && r.group in groups
  }

  // ------------------------------------------------ the two agree

  /** Every id of a row list has a last row. */
  lemma {:induction false} LastRow(rows: seq<Row>, i: nat) returns (j: nat)
    requires i < |rows|
    ensures j < |rows| && RowId(rows[j]) == RowId(rows[i]) && LastWithItsId(rows, j)
    decreases |rows| - i
  {
    if LastWithItsId(rows, i) {
      j := i;
    } else {
      var k :| i < k < |rows| && RowId(rows[k]) == RowId(rows[i]);
      j := LastRow(rows, k);
    }
  }

  /** The ids of the groups found on the returned nodes. */
  ghost function GroupsFound(nodes: seq<Node>): set<int>
    reads nodes`groups
  {
    set i, g | 0 <= i < |nodes| && g in LoadGroups.GroupIds(nodes[i].groups) :: g
  }

  lemma GroupsOnNode(q: LoadGroups.GroupQuery, rows: seq<Row>, i: nat, g: int)
    requires i < |rows|
    ensures var out := GroupsOutcome(Some(q), rows, i);
            out.Ok? && (g in out.value <==> LastWithItsId(rows, i) && JoinRow(RowId(rows[i]), g) in q.links)
  {
    var ids := RowIds(rows);
    LinkedGroupsAreTheJoin(LoadGroups.Among(q.links, ids), RowId(rows[i]));
    LoadGroups.AmongMembers(q.links, ids);
    assert ids[i] in ids;
  }

  lemma AnswersAreTraversed(nodes: seq<Node>, q: LoadGroups.GroupQuery, accounts: seq<Row>, ps: Predicates,
                            groups: seq<int>, links: seq<JoinRow>, g: int)
    requires GroupAnswers(nodes, Selected(accounts, ps), Some(q)) && IsJoin(q.links, groups, links)
    ensures g in GroupsFound(nodes) <==> g in groups && LeadsTo(links, accounts, ps, g)
  {
    var rows := Selected(accounts, ps);
    SelectedMembers(accounts, ps);
    if g in GroupsFound(nodes) {
      var i :| 0 <= i < |nodes| && g in LoadGroups.GroupIds(nodes[i].groups);
      GroupsOnNode(q, rows, i, g);
      assert rows[i] in rows && JoinRow(RowId(rows[i]), g) in links;
    }
    if g in groups && LeadsTo(links, accounts, ps, g) {
      var a :| a in accounts && Selects(ps, a) && JoinRow(RowId(a), g) in links;
      assert a in rows;
      var i :| 0 <= i < |rows| && rows[i] == a;
      var j := LastRow(rows, i);
      GroupsOnNode(q, rows, j, g);
      assert SeenGroups(nodes[j].GroupsOrErr()) == GroupsOutcome(Some(q), rows, j);
      assert g in LoadGroups.GroupIds(nodes[j].groups);
    }
  }

  /** An account query run with its groups requested: the groups found on all returned accounts are
      exactly those that the traversal from the same query answers, both reading the account table
      under the same predicates. Repeated accounts do not matter. */
  method LoadWithGroups(q: AccountQuery, accounts: seq<Row>, ps: Predicates, ghost groups: seq<int>, ghost links: seq<JoinRow>)
    returns (nodes: seq<Node>, err: Option<AssignError>)
    requires q.Valid() && AdoptionDecisionsEdge !in q.lists
    requires q.groups.Some? && IsJoin(q.groups.value.links, groups, links)
    modifies q.unique.Values`predicates, q.lists.Values`predicates, q.lists.Values`columns
    ensures err == None ==> GroupsFound(nodes) == set g | g in Traversed(groups, links, accounts, ps)
  {
    ghost var columns;
    nodes, err, columns := SqlAll(q, Selected(accounts, ps));
    if err.Some? {
      return;
    }
    TraversedIsExact(groups, links, accounts, ps);
    forall g ensures g in GroupsFound(nodes) <==> g in Traversed(groups, links, accounts, ps) {
      AnswersAreTraversed(nodes, q.groups.value, accounts, ps, groups, links, g);
    }
  }
}
