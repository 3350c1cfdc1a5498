/** The many-to-many loader on the heap: `loadGroups` (backend/ent/account_query.go). */
module LoadGroups {
  import opened Prelude
  import opened AccountSchema
  import opened Graph
  import opened EagerLoading
  import opened QuerySpecs
  import opened EagerGroups

  /** The group query: `links` is the join of its groups with the link table, in the order the
      query gives, before the loader restricts it to the asked accounts. */
  class GroupQuery {
    const links: seq<JoinRow>
    const fields: seq<Column>
    const table: seq<Column>

    constructor (links: seq<JoinRow>, fields: seq<Column>, table: seq<Column>)
      ensures this.links == links && this.fields == fields && this.table == table
    {
      this.links, this.fields, this.table := links, fields, table;
    }
  }

  /** The rows the store streams when asked for the accounts `ids`. */
  function Among(links: seq<JoinRow>, ids: seq<int>): seq<JoinRow> {
    if links == [] then []
    else Among(links[..|links| - 1], ids)
         + (if links[|links| - 1].account in ids then [links[|links| - 1]] else [])
  }

  lemma {:induction false} AmongMembers(links: seq<JoinRow>, ids: seq<int>)
    ensures forall r :: r in Among(links, ids) <==> r in links && r.account in ids
  {
    if links != [] {
      AmongMembers(links[..|links| - 1], ids);
      assert links == links[..|links| - 1] + [links[|links| - 1]];
    }
  }

  lemma {:induction false} AmongJoin(x: seq<JoinRow>, y: seq<JoinRow>, ids: seq<int>)
    ensures Among(x + y, ids) == Among(x, ids) + Among(y, ids)
  {
    if y == [] {
      assert x + y == x;
    } else {
      AmongJoin(x, y[..|y| - 1], ids);
      assert (x + y)[..|x + y| - 1] == x + y[..|y| - 1];
    }
  }

  /** One streamed row as scanned: the link column that the loader puts in front, then the columns
      of the group query. */
  function Values(r: JoinRow, columns: seq<Column>): (values: seq<Holder>)
    ensures |values| == 1 + |columns|
  {
    [Holder(NullInt64, Some(SInt(r.account)))]
    + seq(|columns|, i requires 0 <= i < |columns| =>
            if columns[i] == ID then Holder(NullInt64, Some(SInt(r.group))) else Holder(UnknownType, None))
  }

  /** `value.(*sql.NullInt64).Int64`: the type assertion must hold. */
  function Int64Of(h: Holder): int
    requires h.typ == NullInt64
  {
    match h.content
    case Some(SInt(i)) => i
    case _ => 0
  }

  ghost function GroupIds(gs: seq<Group>): (ids: seq<int>)
    ensures |ids| == |gs| && forall i :: 0 <= i < |gs| ==> ids[i] == gs[i].id
  {
    seq(|gs|, i requires 0 <= i < |gs| => gs[i].id)
  }

  /** The nodes that some row of the stream links to the group `g`. */
  ghost function LinkedNodes(stream: seq<JoinRow>, byID: map<int, Node>, g: int): set<Node> {
    set r | r in stream && r.group == g && r.account in byID :: byID[r.account]
  }

  /** `nids` after reading `stream`: for each streamed group, the set of nodes linked to it. */
  ghost predicate LinkSets(stream: seq<JoinRow>, byID: map<int, Node>, nids: map<int, set<Node>>) {
    && (forall g :: g in nids <==> g in FirstSeen(stream))
    && forall g :: g in nids ==> nids[g] == LinkedNodes(stream, byID, g)
  }

  lemma LinkedNodesSnoc(stream: seq<JoinRow>, byID: map<int, Node>, r: JoinRow, g: int)
    requires r.account in byID
    ensures LinkedNodes(stream + [r], byID, g)
            == LinkedNodes(stream, byID, g) + if g == r.group then {byID[r.account]} else {}
  {
    var s := stream + [r];
    assert r in s && forall x :: x in s <==> x in stream || x == r;
  }

  lemma LinkSetsSnoc(stream: seq<JoinRow>, byID: map<int, Node>, nids: map<int, set<Node>>, r: JoinRow)
    requires LinkSets(stream, byID, nids) && r.account in byID
    ensures LinkSets(stream + [r], byID,
                     nids[r.group := (if r.group in nids then nids[r.group] else {}) + {byID[r.account]}])
    ensures FirstSeen(stream + [r]) == FirstSeen(stream) + if r.group in nids then [] else [r.group]
  {
    assert (stream + [r])[..|stream|] == stream;
    forall g ensures LinkedNodes(stream + [r], byID, g)
                     == LinkedNodes(stream, byID, g) + if g == r.group then {byID[r.account]} else {}
    {
      LinkedNodesSnoc(stream, byID, r, g);
    }
    if r.group !in nids {
      FirstSeenIsExact(stream);
      assert LinkedNodes(stream, byID, r.group) == {};
    }
  }

  /** The wrapped `ScanValues`/`Assign` pair: a group node is built for the first row of each group
      only, and every row records its account. The positions are right because the id column comes
      first in the selection of the group query. */
  method ReadGroups(stream: seq<JoinRow>, columns: seq<Column>, byID: map<int, Node>)
    returns (neighbors: seq<Group>, nids: map<int, set<Node>>)
    requires IdFirstAndOnce(columns)
    requires forall r :: r in stream ==> r.account in byID
    ensures forall g :: g in neighbors ==> fresh(g)
    ensures GroupIds(neighbors) == FirstSeen(stream)
    ensures LinkSets(stream, byID, nids)
  {
    neighbors, nids := [], map[];
    for i := 0 to |stream|
      invariant forall g :: g in neighbors ==> fresh(g)
      invariant GroupIds(neighbors) == FirstSeen(stream[..i])
      invariant LinkSets(stream[..i], byID, nids)
    {
      PrefixSnoc(stream, i);
      LinkSetsSnoc(stream[..i], byID, nids, stream[i]);
      var values := Values(stream[i], columns);
      var outValue, inValue := Int64Of(values[0]), Int64Of(values[1]);
      if inValue !in nids {
        nids := nids[inValue := {byID[outValue]}];
        var node := new Group(inValue);
        neighbors := neighbors + [node];
      } else {
        nids := nids[inValue := nids[inValue] + {byID[outValue]}];
      }
    }
    assert stream[..|stream|] == stream;
  }

  // ------------------------------------------------ attaching

  type GroupLists = map<Node, seq<Group>>

  ghost function GroupsOf(all: set<Node>): GroupLists
    reads all`groups
  {
    map n | n in all :: n.groups
  }

  /** The neighbours whose link set holds `node`, in the order of the neighbours. */
  ghost function Taken(ns: seq<Group>, nids: map<int, set<Node>>, node: Node): seq<Group> {
    if ns == [] then []
    else
      var n := ns[|ns| - 1];
      Taken(ns[..|ns| - 1], nids, node) + (if n.id in nids && node in nids[n.id] then [n] else [])
  }

  /** The inner loop `for kn := range nodes { assign(kn, n) }`. The map is ranged over in an
      arbitrary order; whatever the order, every node of the set gains the group once. */
  method AppendToEach(kns: set<Node>, n: Group, ghost all: set<Node>)
    requires kns <= all
    modifies all`groups
    ensures forall node :: node in all ==>
              node.groups == if node in kns then old(node.groups) + [n] else old(node.groups)
  {
    var todo := kns;
    while todo != {}
      invariant todo <= kns
      invariant forall node :: node in all ==>
                  node.groups == if node in kns - todo then old(node.groups) + [n] else old(node.groups)
      decreases todo
    {
      var kn :| kn in todo;
      kn.groups := kn.groups + [n];
      todo := todo - {kn};
    }
  }

  /** The attach loop, on whatever neighbours were answered: it stops at the first group without a
      link set, and until there appends each group to every node of its set. */
  method AttachGroups(nids: map<int, set<Node>>, neighbors: seq<Group>, ghost all: set<Node>)
    returns (err: Option<LoadError>, ghost good: nat)
    requires forall g :: g in nids ==> nids[g] <= all
    modifies all`groups
    ensures good <= |neighbors| && forall n :: n in neighbors[..good] ==> n.id in nids
    ensures good < |neighbors| ==> neighbors[good].id !in nids
    ensures err == if good < |neighbors| then Some(UnexpectedKey(neighbors[good].id)) else None
    ensures forall node :: node in all ==> node.groups == old(node.groups) + Taken(neighbors[..good], nids, node)
  {
    good := 0;
    for i := 0 to |neighbors|
      invariant good == i && forall n :: n in neighbors[..good] ==> n.id in nids
      invariant forall node :: node in all ==> node.groups == old(node.groups) + Taken(neighbors[..good], nids, node)
    {
      var n := neighbors[i];
      if n.id !in nids {
        return Some(UnexpectedKey(n.id)), good;
      }
      AppendToEach(nids[n.id], n, all);
      PrefixSnoc(neighbors, i);
      good := good + 1;
    }
    err := None;
  }

  // ------------------------------------------------ the whole load

  /** Those of the shared group objects that account `a` is linked to. */
  ghost function Held(shared: seq<Group>, stream: seq<JoinRow>, a: int): seq<Group> {
    if shared == [] then []
    else
      Held(shared[..|shared| - 1], stream, a)
      + (if JoinRow(a, shared[|shared| - 1].id) in stream then [shared[|shared| - 1]] else [])
  }

  lemma {:induction false} HeldIds(shared: seq<Group>, stream: seq<JoinRow>, a: int)
    ensures GroupIds(Held(shared, stream, a)) == LinkedIn(stream, GroupIds(shared), a)
  {
    if shared != [] {
      HeldIds(shared[..|shared| - 1], stream, a);
      assert GroupIds(shared)[..|shared| - 1] == GroupIds(shared[..|shared| - 1]);
    }
  }

  lemma {:induction false} TakenIsHeld(ns: seq<Group>, nodes: seq<Node>, ids: seq<int>, i: nat, stream: seq<JoinRow>,
                                       nids: map<int, set<Node>>)
    requires OwnIds(nodes, ids) && i < |nodes|
    requires LinkSets(stream, ByID(nodes, ids), nids)
    requires forall r :: r in stream ==> r.account in ids
    requires forall n :: n in ns ==> n.id in nids
    ensures Taken(ns, nids, nodes[i])
            == if ids[i] in ByID(nodes, ids) && ByID(nodes, ids)[ids[i]] == nodes[i] then Held(ns, stream, ids[i]) else []
  {
    if ns != [] {
      var g := ns[|ns| - 1].id;
      TakenIsHeld(ns[..|ns| - 1], nodes, ids, i, stream, nids);
      LinkIsRow(nodes, ids, i, stream, g);
    }
  }

  /** A node is linked to a group exactly when its id leads to it and some row links that id. */
  lemma LinkIsRow(nodes: seq<Node>, ids: seq<int>, i: nat, stream: seq<JoinRow>, g: int)
    requires OwnIds(nodes, ids) && i < |nodes|
    requires forall r :: r in stream ==> r.account in ids
    ensures var m := ByID(nodes, ids);
            nodes[i] in LinkedNodes(stream, m, g)
            <==> ids[i] in m && m[ids[i]] == nodes[i] && JoinRow(ids[i], g) in stream
  {
    var m := ByID(nodes, ids);
    if nodes[i] in LinkedNodes(stream, m, g) {
      var r :| r in stream && r.group == g && r.account in m && m[r.account] == nodes[i];
      var j := ByIDFinds(nodes, ids, r.account);
      assert r == JoinRow(ids[i], g);
    }
  }

  /** What the load leaves: each node its id leads to holds its linked groups, each once, in the
      order of the stream and as the objects of `shared`; any other node holds none. */
  ghost predicate GroupsLoaded(nodes: seq<Node>, ids: seq<int>, stream: seq<JoinRow>, shared: seq<Group>, after: GroupLists) {
    && |nodes| == |ids| && GroupIds(shared) == FirstSeen(stream)
    && forall i :: 0 <= i < |nodes| ==>
         var owns := ids[i] in ByID(nodes, ids) && ByID(nodes, ids)[ids[i]] == nodes[i];
         && nodes[i] in after
         && after[nodes[i]] == (if owns then Held(shared, stream, ids[i]) else [])
         && (owns ==> GroupIds(after[nodes[i]]) == LinkedGroups(stream, ids[i]))
  }

  /** The first loop: ask for every id, index the nodes, empty their groups. */
  method IndexGroups(nodes: seq<Node>, ghost all: set<Node>) returns (edgeIDs: seq<int>, byID: map<int, Node>)
    requires all == set n | n in nodes
    modifies all`groups
    ensures edgeIDs == Ids(nodes) && byID == ByID(nodes, edgeIDs)
    ensures forall n :: n in all ==> n.groups == []
  {
    edgeIDs, byID := [], map[];
    for i := 0 to |nodes|
      invariant edgeIDs == Ids(nodes[..i]) && byID == ByID(nodes[..i], edgeIDs)
      invariant forall n :: n in nodes[..i] ==> n.groups == []
    {
      var node := nodes[i];
      PrefixSnoc(nodes, i);
      IdsSnoc(nodes[..i], node);
      ByIDSnoc(nodes[..i], edgeIDs, node, IdIn(node.fields));
      edgeIDs := edgeIDs + [IdIn(node.fields)];
      byID := byID[IdIn(node.fields) := node];
      node.groups := [];
    }
    assert nodes[..|nodes|] == nodes;
  }

  lemma LinkSetsWithin(nodes: seq<Node>, ids: seq<int>, stream: seq<JoinRow>, nids: map<int, set<Node>>, all: set<Node>)
    requires OwnIds(nodes, ids) && LinkSets(stream, ByID(nodes, ids), nids) && all == set n | n in nodes
    ensures forall g :: g in nids ==> nids[g] <= all
  {
    forall g, n | g in nids && n in nids[g] ensures n in all {
      assert n in LinkedNodes(stream, ByID(nodes, ids), g);
      var r :| r in stream && r.group == g && r.account in ByID(nodes, ids) && ByID(nodes, ids)[r.account] == n;
      var j := ByIDFinds(nodes, ids, r.account);
    }
  }

  /** `loadGroups`, for every node list and every stream of link rows, repeated rows included. */
  method Load(q: GroupQuery, nodes: seq<Node>, ghost all: set<Node>) returns (err: Option<LoadError>, ghost shared: seq<Group>)
    requires all == set n | n in nodes
    requires IdFirstAndOnce(q.table)
    modifies all`groups
    ensures err == None
    ensures forall g :: g in shared ==> fresh(g)
    ensures GroupsLoaded(nodes, old(Ids(nodes)), Among(q.links, old(Ids(nodes))), shared, GroupsOf(all))
  {
    var edgeIDs, byID := IndexGroups(nodes, all);
    IdsAreOwn(nodes);
    var columns := SpecColumns(q.fields, q.table, {});
    var stream := Among(q.links, edgeIDs);
    AmongMembers(q.links, edgeIDs);
    ByIDIsInjective(nodes, edgeIDs);
    var neighbors, nids := ReadGroups(stream, columns, byID);
    shared := neighbors;
    LinkSetsWithin(nodes, edgeIDs, stream, nids, all);
    ghost var good;
    err, good := AttachGroups(nids, neighbors, all);
    GroupLoadIsComplete(nodes, edgeIDs, stream, nids, neighbors, good, GroupsOf(all));
  }

  /** From the steps of the load to its result. */
  lemma GroupLoadIsComplete(nodes: seq<Node>, ids: seq<int>, stream: seq<JoinRow>, nids: map<int, set<Node>>,
                            ns: seq<Group>, good: nat, after: GroupLists)
    requires OwnIds(nodes, ids) && LinkSets(stream, ByID(nodes, ids), nids) && GroupIds(ns) == FirstSeen(stream)
    requires forall r :: r in stream ==> r.account in ids
    requires good <= |ns| && (good < |ns| ==> ns[good].id !in nids)
    requires forall n :: n in nodes ==> n in after && after[n] == Taken(ns[..good], nids, n)
    ensures good == |ns|
    ensures GroupsLoaded(nodes, ids, stream, ns, after)
  {
    AllAttached(stream, nids, ns, good);
    forall i | 0 <= i < |nodes|
      ensures var owns := ids[i] in ByID(nodes, ids) && ByID(nodes, ids)[ids[i]] == nodes[i];
              && Taken(ns, nids, nodes[i]) == (if owns then Held(ns, stream, ids[i]) else [])
              && GroupIds(Held(ns, stream, ids[i])) == LinkedGroups(stream, ids[i])
    {
      TakenIsHeld(ns, nodes, ids, i, stream, nids);
      HeldIds(ns, stream, ids[i]);
    }
  }

  /** Every streamed group has a link set, so the attach loop gets to its end. */
  lemma AllAttached(stream: seq<JoinRow>, nids: map<int, set<Node>>, ns: seq<Group>, good: nat)
    requires GroupIds(ns) == FirstSeen(stream) && forall g :: g in FirstSeen(stream) ==> g in nids
    requires good <= |ns| && (good < |ns| ==> ns[good].id !in nids)
    ensures good == |ns| && ns[..good] == ns && forall n :: n in ns ==> n.id in nids
  {
    forall i | 0 <= i < |ns| ensures ns[i].id in nids {
      assert GroupIds(ns)[i] == ns[i].id && FirstSeen(stream)[i] in FirstSeen(stream);
    }
  }
}
