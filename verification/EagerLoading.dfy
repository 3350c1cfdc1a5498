/** Batched loading of edges whose neighbours are found through one foreign key
    (backend/ent/account_query.go, backend/ent/authidentity_query.go). */
module EagerLoading {
  import opened Prelude
  import opened Graph
  import opened ChildQueries

  datatype LoadError = UnexpectedKey(key: int) | NilForeignKey(id: int)

  /** The ids of a node list, as the loader reads them. */
  ghost function Ids(nodes: seq<Node>): (ids: seq<int>)
    reads nodes`fields
    ensures |ids| == |nodes|
  {
    if nodes == [] then [] else Ids(nodes[..|nodes| - 1]) + [IdIn(nodes[|nodes| - 1].fields)]
  }

  /** The node each id leads to after `nodeids[node.ID] = node` ran over the list. */
  ghost function ByID(nodes: seq<Node>, ids: seq<int>): map<int, Node>
    requires |nodes| == |ids|
  {
    if nodes == [] then map[]
    else
      var last := |nodes| - 1;
      ByID(nodes[..last], ids[..last])[ids[last] := nodes[last]]
  }

  lemma ByIDSnoc(nodes: seq<Node>, ids: seq<int>, n: Node, id: int)
    requires |nodes| == |ids|
    ensures ByID(nodes + [n], ids + [id]) == ByID(nodes, ids)[id := n]
  {
    assert (nodes + [n])[..|nodes|] == nodes && (ids + [id])[..|ids|] == ids;
  }

  lemma IdsSnoc(nodes: seq<Node>, n: Node)
    ensures Ids(nodes + [n]) == Ids(nodes) + [IdIn(n.fields)]
  {
    assert (nodes + [n])[..|nodes|] == nodes;
  }

  /** Every id of the list, and no other, leads to a node, and that node is the last one with it. */
  lemma {:induction false} ByIDFinds(nodes: seq<Node>, ids: seq<int>, k: int) returns (i: nat)
    requires |nodes| == |ids|
    ensures k in ByID(nodes, ids) <==> k in ids
    ensures k in ids ==> i < |ids| && ids[i] == k && ByID(nodes, ids)[k] == nodes[i]
                         && forall j :: i < j < |ids| ==> ids[j] != k
  {
    i := 0;
    if nodes != [] {
      var last := |nodes| - 1;
      if ids[last] == k {
        i := last;
      } else {
        i := ByIDFinds(nodes[..last], ids[..last], k);
        assert ids == ids[..last] + [ids[last]];
      }
    }
  }

  /** The list holds each node under its own id. */
  ghost predicate OwnIds(nodes: seq<Node>, ids: seq<int>) {
    && |nodes| == |ids|
    && forall i, j :: 0 <= i < |nodes| && 0 <= j < |nodes| && nodes[i] == nodes[j] ==> ids[i] == ids[j]
  }

  lemma {:induction false} IdAt(nodes: seq<Node>, i: nat)
    requires i < |nodes|
    ensures Ids(nodes)[i] == IdIn(nodes[i].fields)
  {
    if i < |nodes| - 1 {
      IdAt(nodes[..|nodes| - 1], i);
    }
  }

  lemma IdsAreOwn(nodes: seq<Node>)
    ensures OwnIds(nodes, Ids(nodes))
  {
    forall i | 0 <= i < |nodes| ensures Ids(nodes)[i] == IdIn(nodes[i].fields) {
      IdAt(nodes, i);
    }
  }

  /** The index map leads to nodes of the list, different ids to different nodes. */
  lemma ByIDIsInjective(nodes: seq<Node>, ids: seq<int>)
    requires OwnIds(nodes, ids)
    ensures var m := ByID(nodes, ids);
            && (forall k :: k in m <==> k in ids)
            && m.Values <= (set n | n in nodes)
            && (forall k, l :: k in m && l in m && k != l ==> m[k] != m[l])
  {
    var m := ByID(nodes, ids);
    forall k ensures k in m <==> k in ids {
      var i := ByIDFinds(nodes, ids, k);
    }
    forall n | n in m.Values ensures n in nodes {
      var k :| k in m && m[k] == n;
      var i := ByIDFinds(nodes, ids, k);
    }
    forall k, l | k in m && l in m && k != l ensures m[k] != m[l] {
      var i := ByIDFinds(nodes, ids, k);
      var j := ByIDFinds(nodes, ids, l);
    }
  }

  /** A node that its own id does not lead to is led to by no id. */
  lemma ReplacedNode(nodes: seq<Node>, ids: seq<int>, i: nat)
    requires OwnIds(nodes, ids) && i < |nodes|
    requires ids[i] in ByID(nodes, ids) ==> ByID(nodes, ids)[ids[i]] != nodes[i]
    ensures nodes[i] !in ByID(nodes, ids).Values
  {
    var m := ByID(nodes, ids);
    forall k | k in m ensures m[k] != nodes[i] {
      var j := ByIDFinds(nodes, ids, k);
    }
  }

  // ------------------------------------------------ one-to-many

  /** The foreign key as the loader reads it off a node: a plain field reads NULL as 0. */
  function KeyRead(edge: ListEdge, r: ChildRow): Result<int, LoadError> {
    match r.fk
    case Some(k) => Ok(k)
    case None => if edge.Nullable() then Err(NilForeignKey(r.id)) else Ok(0)
  }

  function Trouble(edge: ListEdge, known: set<int>, r: ChildRow): Option<LoadError> {
    match KeyRead(edge, r)
    case Err(e) => Some(e)
    case Ok(k) => if k in known then None else Some(UnexpectedKey(k))
  }

  /** A neighbour is attached under its own key; without one it is trouble on the edge with the nullable
      key, and goes to the node with id 0 on the two others. */
  lemma TroubleExactly(edge: ListEdge, known: set<int>, r: ChildRow, k: int)
    ensures r.fk == Some(k) ==>
              && KeyRead(edge, r) == Ok(k)
              && Trouble(edge, known, r) == if k in known then None else Some(UnexpectedKey(k))
    ensures r.fk == None && edge == AdoptionDecisionsEdge ==> Trouble(edge, known, r) == Some(NilForeignKey(r.id))
    ensures r.fk == None && edge != AdoptionDecisionsEdge ==>
              && KeyRead(edge, r) == Ok(0)
              && Trouble(edge, known, r) == if 0 in known then None else Some(UnexpectedKey(0))
  {}

  /** `good` neighbours can be attached, and the next one, if any, cannot. */
  ghost predicate AttachableUpTo(edge: ListEdge, known: set<int>, ns: seq<Neighbour>, good: nat) {
    && good <= |ns|
    && (forall n :: n in ns[..good] ==> Trouble(edge, known, n.row) == None)
    && (good < |ns| ==> Trouble(edge, known, ns[good].row).Some?)
  }

  /** The neighbours that carry the key `k`, in the order in which they were answered. */
  function OfKey(edge: ListEdge, ns: seq<Neighbour>, k: int): seq<Neighbour> {
    if ns == [] then []
    else OfKey(edge, ns[..|ns| - 1], k)
         + (if KeyRead(edge, ns[|ns| - 1].row) == Ok(k) then [ns[|ns| - 1]] else [])
  }

  /** The lists of a node after appending `more` to one of them. */
  function Appended(lists: map<ListEdge, seq<Neighbour>>, edge: ListEdge, more: seq<Neighbour>)
    : map<ListEdge, seq<Neighbour>>
  {
    if more == [] then lists else lists[edge := ListIn(lists, edge) + more]
  }

  lemma AppendedTwice(lists: map<ListEdge, seq<Neighbour>>, edge: ListEdge, a: seq<Neighbour>, b: seq<Neighbour>)
    ensures Appended(Appended(lists, edge, a), edge, b) == Appended(lists, edge, a + b)
  {
    if a == [] {
      assert a + b == b;
    } else if b == [] {
      assert a + b == a;
    } else {
      assert ListIn(lists, edge) + a + b == ListIn(lists, edge) + (a + b);
      assert lists[edge := ListIn(lists, edge) + a][edge := ListIn(lists, edge) + (a + b)]
          == lists[edge := ListIn(lists, edge) + (a + b)];
    }
  }

  lemma FilledList(before: map<ListEdge, seq<Neighbour>>, edge: ListEdge, ns: seq<Neighbour>)
    ensures Appended(before[edge := []], edge, ns) == before[edge := ns]
  {
    assert [] + ns == ns;
    assert before[edge := []][edge := ns] == before[edge := ns];
  }

  lemma OfKeySnoc(edge: ListEdge, ns: seq<Neighbour>, n: Neighbour, k: int)
    ensures OfKey(edge, ns + [n], k) == OfKey(edge, ns, k) + (if KeyRead(edge, n.row) == Ok(k) then [n] else [])
  {
    assert (ns + [n])[..|ns|] == ns;
  }

  /** One step of the attach loop, for a neighbour whose key is known. */
  method AttachOne(edge: ListEdge, byID: map<int, Node>, fk: int, node: Node, n: Neighbour)
    requires forall k, l :: k in byID && l in byID && k != l ==> byID[k] != byID[l]
    requires KeyRead(edge, n.row) == Ok(fk) && fk in byID && byID[fk] == node
    modifies node`lists
    ensures forall k :: k in byID ==>
              byID[k].lists == Appended(old(byID[k].lists), edge, if k == fk then [n] else [])
  {
    node.lists := node.lists[edge := ListIn(node.lists, edge) + [n]];
  }

  /** The attach loop, on whatever neighbours were answered: it stops at the first neighbour whose
      key is nil or unknown, and until there appends each neighbour to the node its key leads to. */
  method AttachList(edge: ListEdge, byID: map<int, Node>, neighbors: seq<Neighbour>, ghost led: set<Node>)
    returns (err: Option<LoadError>, ghost good: nat)
    requires forall k :: k in byID ==> byID[k] in led
    requires forall k, l :: k in byID && l in byID && k != l ==> byID[k] != byID[l]
    modifies led`lists
    ensures AttachableUpTo(edge, byID.Keys, neighbors, good)
    ensures err == if good < |neighbors| then Trouble(edge, byID.Keys, neighbors[good].row) else None
    ensures forall k :: k in byID ==>
              byID[k].lists == Appended(old(byID[k].lists), edge, OfKey(edge, neighbors[..good], k))
  {
    good := 0;
    for i := 0 to |neighbors|
      invariant good == i
      invariant forall n :: n in neighbors[..good] ==> Trouble(edge, byID.Keys, n.row) == None
      invariant forall k :: k in byID ==>
                  byID[k].lists == Appended(old(byID[k].lists), edge, OfKey(edge, neighbors[..good], k))
    {
      var n := neighbors[i];
      match KeyRead(edge, n.row) {
        case Err(e) =>
          return Some(e), good;
        case Ok(fk) =>
          if fk !in byID {
            return Some(UnexpectedKey(fk)), good;
          }
          AttachOne(edge, byID, fk, byID[fk], n);
          PrefixSnoc(neighbors, i);
          forall k | k in byID
            ensures byID[k].lists == Appended(old(byID[k].lists), edge, OfKey(edge, neighbors[..i + 1], k))
          {
            OfKeySnoc(edge, neighbors[..i], n, k);
            AppendedTwice(old(byID[k].lists), edge, OfKey(edge, neighbors[..i], k), if k == fk then [n] else []);
          }
          good := good + 1;
      }
    }
    err := None;
  }

  lemma {:induction false} RowsOfKey(edge: ListEdge, ns: seq<Neighbour>, rows: seq<ChildRow>, k: int)
    requires RowsOf(ns) == rows
    requires forall r :: r in rows ==> r.fk.Some?
    ensures RowsOf(OfKey(edge, ns, k)) == ChildrenOf(rows, k)
  {
    if ns != [] {
      var front := ns[..|ns| - 1];
      assert RowsOf(front) == rows[..|rows| - 1];
      RowsOfKey(edge, front, rows[..|rows| - 1], k);
      assert ns[|ns| - 1].row == rows[|rows| - 1];
    }
  }

  /** The edge lists of the nodes, as a value. */
  type EdgeLists = map<Node, map<ListEdge, seq<Neighbour>>>

  ghost function ListsOf(all: set<Node>): EdgeLists
    reads all`lists
  {
    map n | n in all :: n.lists
  }

  /** The list loader's first step: the edge is emptied on every node. */
  ghost predicate Emptied(edge: ListEdge, before: EdgeLists, after: EdgeLists) {
    after.Keys == before.Keys && forall n :: n in before ==> after[n] == before[n][edge := []]
  }

  /** Its last step: every node an id leads to gains the neighbours of that id. */
  ghost predicate Attached(edge: ListEdge, byID: map<int, Node>, ns: seq<Neighbour>, before: EdgeLists, after: EdgeLists) {
    && after.Keys == before.Keys
    && (forall k :: k in byID ==>
          byID[k] in before && after[byID[k]] == Appended(before[byID[k]], edge, OfKey(edge, ns, k)))
    && (forall n :: n in before && n !in byID.Values ==> after[n] == before[n])
  }

  /** The first loop of a list loader: ask for every id, index the nodes, empty their edge. */
  method IndexList(edge: ListEdge, nodes: seq<Node>, ghost all: set<Node>)
    returns (fks: seq<int>, byID: map<int, Node>)
    requires all == set n | n in nodes
    modifies all`lists
    ensures fks == Ids(nodes) && byID == ByID(nodes, fks)
    ensures Emptied(edge, old(ListsOf(all)), ListsOf(all))
  {
    fks, byID := [], map[];
    ghost var seen: set<Node> := {};
    for i := 0 to |nodes|
      invariant fks == Ids(nodes[..i]) && byID == ByID(nodes[..i], fks)
      invariant forall n :: n in nodes[..i] ==> n in seen
      invariant forall n :: n in all ==> n.lists == if n in seen then old(n.lists)[edge := []] else old(n.lists)
    {
      var node := nodes[i];
      PrefixSnoc(nodes, i);
      IdsSnoc(nodes[..i], node);
      ByIDSnoc(nodes[..i], fks, node, IdIn(node.fields));
      fks := fks + [IdIn(node.fields)];
      byID := byID[IdIn(node.fields) := node];
      node.lists := node.lists[edge := []];
      seen := seen + {node};
    }
    assert nodes[..|nodes|] == nodes;
  }

  /** The middle of a list loader: narrow the query to the asked keys and run it. Every answered
      row carries an asked key, read in full whatever the selection was. */
  method QueryList(q: ChildQuery, fks: seq<int>) returns (neighbors: seq<Neighbour>)
    modifies q`predicates, q`columns
    ensures q.predicates == old(q.predicates) + [FkIn(fks)]
    ensures forall n :: n in neighbors ==> n.row.fk.Some? && n.row.fk.value in fks
    ensures RowsOf(neighbors) == Matching(q.rows, q.predicates)
  {
    q.AppendForeignKeyOnce();
    q.Where(FkIn(fks));
    neighbors := q.All();
    AnswersAreAsked(q.rows, old(q.predicates), fks, q.columns);
    forall n | n in neighbors ensures n.row.fk.Some? && n.row.fk.value in fks {
      assert n.row in RowsOf(neighbors);
    }
  }

  lemma AllAttachable(edge: ListEdge, known: set<int>, ns: seq<Neighbour>, good: nat)
    requires AttachableUpTo(edge, known, ns, good)
    requires forall n :: n in ns ==> n.row.fk.Some? && n.row.fk.value in known
    ensures good == |ns| && ns[..good] == ns
  {}

  /** What a list load must leave on the node at `i`: its children in `rows` if its id leads to it,
      and nothing otherwise; its other lists are untouched. */
  ghost predicate NodeLoaded(edge: ListEdge, nodes: seq<Node>, ids: seq<int>, i: nat, rows: seq<ChildRow>,
                             before: EdgeLists, after: EdgeLists)
    requires i < |nodes| == |ids|
  {
    var k, node := ids[i], nodes[i];
    && k in ByID(nodes, ids) && node in before && node in after
    && after[node] == before[node][edge := ListIn(after[node], edge)]
    && RowsOf(ListIn(after[node], edge)) == if ByID(nodes, ids)[k] == node then ChildrenOf(rows, k) else []
  }

  ghost predicate ListsLoaded(edge: ListEdge, nodes: seq<Node>, ids: seq<int>, rows: seq<ChildRow>,
                              before: EdgeLists, after: EdgeLists)
  {
    |nodes| == |ids| && forall i :: 0 <= i < |nodes| ==> NodeLoaded(edge, nodes, ids, i, rows, before, after)
  }

  /** The rows on the edge lists of all nodes, pooled, and their number. */
  ghost function PooledOn(edge: ListEdge, nodes: seq<Node>, after: EdgeLists): multiset<ChildRow>
    requires forall n :: n in nodes ==> n in after
  {
    if nodes == [] then multiset{}
    else
      PooledOn(edge, nodes[..|nodes| - 1], after) + multiset(RowsOf(ListIn(after[nodes[|nodes| - 1]], edge)))
  }

  ghost function LengthsOn(edge: ListEdge, nodes: seq<Node>, after: EdgeLists): nat
    requires forall n :: n in nodes ==> n in after
  {
    if nodes == [] then 0
    else LengthsOn(edge, nodes[..|nodes| - 1], after) + |ListIn(after[nodes[|nodes| - 1]], edge)|
  }

  /** The load partitions what the store answered: under different ids, the lists of the nodes hold
      each answered child exactly once, and their lengths add up to the number of children. */
  ghost predicate Partitioned(edge: ListEdge, nodes: seq<Node>, answered: seq<ChildRow>, after: EdgeLists) {
    && (forall n :: n in nodes ==> n in after)
    && PooledOn(edge, nodes, after) == multiset(answered)
    && LengthsOn(edge, nodes, after) == |answered|
  }

  ghost predicate HoldsItsChildren(edge: ListEdge, node: Node, k: int, rows: seq<ChildRow>, after: EdgeLists) {
    node in after && RowsOf(ListIn(after[node], edge)) == ChildrenOf(rows, k)
  }

  lemma {:induction false} NodesHoldChildren(edge: ListEdge, nodes: seq<Node>, ids: seq<int>, rows: seq<ChildRow>, after: EdgeLists)
    requires |nodes| == |ids|
    requires forall i :: 0 <= i < |nodes| ==> HoldsItsChildren(edge, nodes[i], ids[i], rows, after)
    ensures forall n :: n in nodes ==> n in after
    ensures PooledOn(edge, nodes, after) == Pooled(rows, ids) && LengthsOn(edge, nodes, after) == TotalChildren(rows, ids)
  {
    if nodes != [] {
      var last := |nodes| - 1;
      NodesHoldChildren(edge, nodes[..last], ids[..last], rows, after);
      LastSnoc(nodes);
      assert HoldsItsChildren(edge, nodes[last], ids[last], rows, after);
    }
  }

  lemma LoadPartitions(edge: ListEdge, nodes: seq<Node>, ids: seq<int>, rows: seq<ChildRow>, ps: seq<Predicate>,
                       before: EdgeLists, after: EdgeLists)
    requires Distinct(ids) && ListsLoaded(edge, nodes, ids, Matching(rows, ps), before, after)
    ensures Partitioned(edge, nodes, Matching(rows, ps + [FkIn(ids)]), after)
  {
    forall i | 0 <= i < |nodes|
      ensures HoldsItsChildren(edge, nodes[i], ids[i], Matching(rows, ps), after)
    {
      assert NodeLoaded(edge, nodes, ids, i, Matching(rows, ps), before, after);
      var j := ByIDFinds(nodes, ids, ids[i]);
    }
    NodesHoldChildren(edge, nodes, ids, Matching(rows, ps), after);
    ChildrenPartition(Matching(rows, ps), ids);
    MatchingTwice(rows, ps, FkIn(ids));
  }

  /** From the steps of a list load to its result, for one node. */
  lemma NodeIsComplete(edge: ListEdge, nodes: seq<Node>, ids: seq<int>, i: nat, rows: seq<ChildRow>, ps: seq<Predicate>,
                       neighbors: seq<Neighbour>, before: EdgeLists, mid: EdgeLists, after: EdgeLists)
    requires OwnIds(nodes, ids) && i < |nodes| && nodes[i] in before && ids[i] in ByID(nodes, ids)
    requires RowsOf(neighbors) == Matching(rows, ps + [FkIn(ids)])
    requires forall n :: n in neighbors ==> n.row.fk.Some?
    requires Emptied(edge, before, mid) && Attached(edge, ByID(nodes, ids), neighbors, mid, after)
    ensures NodeLoaded(edge, nodes, ids, i, Matching(rows, ps), before, after)
  {
    var k, node := ids[i], nodes[i];
    if ByID(nodes, ids)[k] == node {
      FilledList(before[node], edge, OfKey(edge, neighbors, k));
      RowsOfKey(edge, neighbors, RowsOf(neighbors), k);
      NarrowingKeepsChildren(rows, ps, ids, k);
    } else {
      ReplacedNode(nodes, ids, i);
    }
  }

  /** From the steps of a list load to its result. */
  lemma ListLoadIsComplete(edge: ListEdge, nodes: seq<Node>, ids: seq<int>, rows: seq<ChildRow>, ps: seq<Predicate>,
                           neighbors: seq<Neighbour>, before: EdgeLists, mid: EdgeLists, after: EdgeLists)
    requires OwnIds(nodes, ids)
    requires before.Keys == set n | n in nodes
    requires RowsOf(neighbors) == Matching(rows, ps + [FkIn(ids)])
    requires forall n :: n in neighbors ==> n.row.fk.Some? && n.row.fk.value in ids
    requires Emptied(edge, before, mid) && Attached(edge, ByID(nodes, ids), neighbors, mid, after)
    ensures ListsLoaded(edge, nodes, ids, Matching(rows, ps), before, after)
  {
    ByIDIsInjective(nodes, ids);
    forall i | 0 <= i < |nodes| ensures NodeLoaded(edge, nodes, ids, i, Matching(rows, ps), before, after) {
      NodeIsComplete(edge, nodes, ids, i, rows, ps, neighbors, before, mid, after);
    }
  }

  /** The last loop of a list loader, on answers that all carry asked keys: no error is left. */
  method FinishList(edge: ListEdge, nodes: seq<Node>, ghost ids: seq<int>, byID: map<int, Node>,
                    neighbors: seq<Neighbour>, ghost all: set<Node>)
    returns (err: Option<LoadError>)
    requires all == set n | n in nodes
    requires OwnIds(nodes, ids) && byID == ByID(nodes, ids)
    requires forall n :: n in neighbors ==> n.row.fk.Some? && n.row.fk.value in ids
    modifies all`lists
    ensures err == None
    ensures Attached(edge, byID, neighbors, old(ListsOf(all)), ListsOf(all))
  {
    ByIDIsInjective(nodes, ids);
    ghost var good;
    err, good := AttachList(edge, byID, neighbors, byID.Values);
    AllAttachable(edge, byID.Keys, neighbors, good);
  }

  /** `loadUsageLogs`, `loadAccountGroups` and `loadAdoptionDecisions`. The store answers only rows
      whose key was asked for, so neither error can occur; each node that its id leads to gets
      exactly its children, and a node whose id is repeated later in the list gets none. */
  method LoadList(q: ChildQuery, edge: ListEdge, nodes: seq<Node>, ghost all: set<Node>) returns (err: Option<LoadError>)
    requires all == set n | n in nodes
    modifies q`predicates, q`columns, all`lists
    ensures err == None
    ensures q.predicates == old(q.predicates) + [FkIn(old(Ids(nodes)))]
    ensures ListsLoaded(edge, nodes, old(Ids(nodes)), Matching(q.rows, old(q.predicates)),
                        old(ListsOf(all)), ListsOf(all))
    ensures Distinct(old(Ids(nodes))) ==> Partitioned(edge, nodes, Matching(q.rows, q.predicates), ListsOf(all))
  {
    ghost var before := ListsOf(all);
    var fks, byID := IndexList(edge, nodes, all);
    ghost var mid := ListsOf(all);
    IdsAreOwn(nodes);
    var neighbors := QueryList(q, fks);
    err := FinishList(edge, nodes, fks, byID, neighbors, all);
    ListLoadIsComplete(edge, nodes, fks, q.rows, old(q.predicates), neighbors, before, mid, ListsOf(all));
    if Distinct(fks) {
      LoadPartitions(edge, nodes, fks, q.rows, old(q.predicates), before, ListsOf(all));
    }
  }

  /** What the store answers to the narrowed query: rows read in full, all under an asked key. */
  lemma AnswersAreAsked(rows: seq<ChildRow>, ps: seq<Predicate>, fks: seq<int>, columns: seq<ChildColumn>)
    requires columns == [] || ForeignKey in columns
    ensures var answered := Matching(rows, ps + [FkIn(fks)]);
            && AllSeen(answered, columns) == answered
            && forall r :: r in answered ==> r.fk.Some? && r.fk.value in fks
  {
    assert FkIn(fks) in ps + [FkIn(fks)];
    MatchingMembers(rows, ps + [FkIn(fks)]);
  }
}
