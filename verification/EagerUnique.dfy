/** Batched loading of edges whose foreign key is on the account: `loadProxy` and `loadOwner`
    (backend/ent/account_query.go). */
module EagerUnique {
  import opened Prelude
  import opened AccountSchema
  import opened Graph
  import opened ChildQueries
  import opened EagerLoading

  /** The foreign keys of a node list, as the loader reads them. */
  ghost function Keys(nodes: seq<Node>, e: UniqueEdge): (keys: seq<Option<int>>)
    reads nodes`fields
    ensures |keys| == |nodes|
  {
    if nodes == [] then [] else Keys(nodes[..|nodes| - 1], e) + [KeyIn(nodes[|nodes| - 1].fields, e)]
  }

  lemma KeysSnoc(nodes: seq<Node>, n: Node, e: UniqueEdge)
    ensures Keys(nodes + [n], e) == Keys(nodes, e) + [KeyIn(n.fields, e)]
  {
    assert (nodes + [n])[..|nodes|] == nodes;
  }

  lemma {:induction false} KeyAt(nodes: seq<Node>, e: UniqueEdge, i: nat)
    requires i < |nodes|
    ensures Keys(nodes, e)[i] == KeyIn(nodes[i].fields, e)
  {
    if i < |nodes| - 1 {
      KeyAt(nodes[..|nodes| - 1], e, i);
    }
  }

  /** The list holds each node under its own key. */
  ghost predicate OwnKeys(nodes: seq<Node>, keys: seq<Option<int>>) {
    && |nodes| == |keys|
    && forall i, j :: 0 <= i < |nodes| && 0 <= j < |nodes| && nodes[i] == nodes[j] ==> keys[i] == keys[j]
  }

  lemma KeysAreOwn(nodes: seq<Node>, e: UniqueEdge)
    ensures OwnKeys(nodes, Keys(nodes, e))
  {
    forall i | 0 <= i < |nodes| ensures Keys(nodes, e)[i] == KeyIn(nodes[i].fields, e) {
      KeyAt(nodes, e, i);
    }
  }

  /** The keys to ask for: each non-nil key once, in order of first appearance. */
  function Asked(keys: seq<Option<int>>): seq<int> {
    if keys == [] then []
    else
      var front, last := Asked(keys[..|keys| - 1]), keys[|keys| - 1];
      if last.None? || last.value in front then front else front + [last.value]
  }

  lemma {:induction false} AskedIsExact(keys: seq<Option<int>>)
    ensures Distinct(Asked(keys))
    ensures forall k :: k in Asked(keys) <==> Some(k) in keys
  {
    if keys != [] {
      AskedIsExact(keys[..|keys| - 1]);
      assert keys == keys[..|keys| - 1] + [keys[|keys| - 1]];
    }
  }

  /** The nodes with key `k`, in order and with repetitions. */
  ghost function Bucket(nodes: seq<Node>, keys: seq<Option<int>>, k: int): seq<Node>
    requires |nodes| == |keys|
  {
    if nodes == [] then []
    else
      var last := |nodes| - 1;
      Bucket(nodes[..last], keys[..last], k) + (if keys[last] == Some(k) then [nodes[last]] else [])
  }

  lemma {:induction false} BucketMembers(nodes: seq<Node>, keys: seq<Option<int>>, k: int, n: Node)
    requires |nodes| == |keys|
    ensures n in Bucket(nodes, keys, k) <==> exists i :: 0 <= i < |nodes| && nodes[i] == n && keys[i] == Some(k)
  {
    if nodes != [] {
      var last := |nodes| - 1;
      BucketMembers(nodes[..last], keys[..last], k, n);
      if i :| 0 <= i < last && nodes[i] == n && keys[i] == Some(k) {
        assert nodes[..last][i] == n && keys[..last][i] == Some(k);
      }
      if n in Bucket(nodes[..last], keys[..last], k) {
        var i :| 0 <= i < last && nodes[..last][i] == n && keys[..last][i] == Some(k);
        assert nodes[i] == n && keys[i] == Some(k);
      }
    }
  }

  /** `nodeids` after the collecting loop: a bucket for each asked key. */
  ghost predicate Buckets(nodes: seq<Node>, keys: seq<Option<int>>, nodeids: map<int, seq<Node>>)
    requires |nodes| == |keys|
  {
    && (forall k :: k in nodeids <==> k in Asked(keys))
    && forall k :: k in nodeids ==> nodeids[k] == Bucket(nodes, keys, k)
  }

  lemma BucketSnoc(nodes: seq<Node>, keys: seq<Option<int>>, n: Node, key: Option<int>, k: int)
    requires |nodes| == |keys|
    ensures Bucket(nodes + [n], keys + [key], k) == Bucket(nodes, keys, k) + (if key == Some(k) then [n] else [])
  {
    assert (nodes + [n])[..|nodes|] == nodes && (keys + [key])[..|keys|] == keys;
  }

  lemma {:induction false} EmptyBucket(nodes: seq<Node>, keys: seq<Option<int>>, k: int)
    requires |nodes| == |keys| && k !in Asked(keys)
    ensures Bucket(nodes, keys, k) == []
  {
    if nodes != [] {
      EmptyBucket(nodes[..|nodes| - 1], keys[..|nodes| - 1], k);
    }
  }

  lemma BucketsSnoc(nodes: seq<Node>, keys: seq<Option<int>>, nodeids: map<int, seq<Node>>, n: Node, key: Option<int>)
    requires |nodes| == |keys| && Buckets(nodes, keys, nodeids)
    ensures Asked(keys + [key])
            == Asked(keys) + if key.Some? && key.value !in Asked(keys) then [key.value] else []
    ensures Buckets(nodes + [n], keys + [key],
                    if key.None? then nodeids
                    else nodeids[key.value := (if key.value in nodeids then nodeids[key.value] else []) + [n]])
  {
    assert (keys + [key])[..|keys|] == keys;
    forall k ensures Bucket(nodes + [n], keys + [key], k)
                     == Bucket(nodes, keys, k) + (if key == Some(k) then [n] else []) {
      BucketSnoc(nodes, keys, n, key, k);
    }
    if key.Some? && key.value !in nodeids {
      EmptyBucket(nodes, keys, key.value);
    }
  }

  /** The collecting loop of `loadProxy`/`loadOwner`. */
  method CollectKeys(edge: UniqueEdge, nodes: seq<Node>) returns (ids: seq<int>, nodeids: map<int, seq<Node>>)
    ensures ids == Asked(Keys(nodes, edge))
    ensures Buckets(nodes, Keys(nodes, edge), nodeids)
  {
    ids, nodeids := [], map[];
    for i := 0 to |nodes|
      invariant ids == Asked(Keys(nodes[..i], edge))
      invariant Buckets(nodes[..i], Keys(nodes[..i], edge), nodeids)
    {
      ghost var keys := Keys(nodes[..i], edge);
      PrefixSnoc(nodes, i);
      KeysSnoc(nodes[..i], nodes[i], edge);
      var key := KeyIn(nodes[i].fields, edge);
      BucketsSnoc(nodes[..i], keys, nodeids, nodes[i], key);
      if key.None? {
        continue;
      }
      var fk := key.value;
      if fk !in nodeids {
        ids := ids + [fk];
      }
      nodeids := nodeids[fk := (if fk in nodeids then nodeids[fk] else []) + [nodes[i]]];
    }
    assert nodes[..|nodes|] == nodes;
  }

  // ------------------------------------------------ attaching the neighbours

  /** The last neighbour with id `k`: assigning in order leaves that one. */
  function LastWith(ns: seq<Neighbour>, k: int): Option<Neighbour> {
    if ns == [] then None
    else if ns[|ns| - 1].row.id == k then Some(ns[|ns| - 1])
    else LastWith(ns[..|ns| - 1], k)
  }

  function Assigned(unique: map<UniqueEdge, Neighbour>, edge: UniqueEdge, o: Option<Neighbour>): map<UniqueEdge, Neighbour> {
    if o.Some? then unique[edge := o.value] else unique
  }

  ghost predicate KnownUpTo(known: set<int>, ns: seq<Neighbour>, good: nat) {
    && good <= |ns|
    && (forall n :: n in ns[..good] ==> n.row.id in known)
    && (good < |ns| ==> ns[good].row.id !in known)
  }

  /** The inner loop: one neighbour for every node of a bucket. */
  method AssignBucket(edge: UniqueEdge, bucket: seq<Node>, n: Neighbour, ghost led: set<Node>)
    requires forall node :: node in bucket ==> node in led
    modifies led`unique
    ensures forall node :: node in led ==>
              node.unique == if node in bucket then Assigned(old(node.unique), edge, Some(n)) else old(node.unique)
  {
    for i := 0 to |bucket|
      invariant forall node :: node in led ==>
                  node.unique == if node in bucket[..i] then Assigned(old(node.unique), edge, Some(n)) else old(node.unique)
    {
      PrefixSnoc(bucket, i);
      bucket[i].unique := bucket[i].unique[edge := n];
    }
    assert bucket[..|bucket|] == bucket;
  }

  /** The attach loop, on whatever neighbours were answered: it stops at the first one that was not
      asked for, and until there gives each neighbour to every node of its bucket. */
  method AttachUnique(edge: UniqueEdge, nodeids: map<int, seq<Node>>, neighbors: seq<Neighbour>, ghost led: set<Node>)
    returns (err: Option<LoadError>, ghost good: nat)
    requires forall k, node :: k in nodeids && node in nodeids[k] ==> node in led
    requires forall k, l, node :: k in nodeids && l in nodeids && node in nodeids[k] && node in nodeids[l] ==> k == l
    modifies led`unique
    ensures KnownUpTo(nodeids.Keys, neighbors, good)
    ensures err == if good < |neighbors| then Some(UnexpectedKey(neighbors[good].row.id)) else None
    ensures forall k, node :: k in nodeids && node in nodeids[k] ==>
              node.unique == Assigned(old(node.unique), edge, LastWith(neighbors[..good], k))
    ensures forall node :: node in led && (forall k :: k in nodeids ==> node !in nodeids[k]) ==>
              node.unique == old(node.unique)
  {
    good := 0;
    for i := 0 to |neighbors|
      invariant good == i && forall n :: n in neighbors[..good] ==> n.row.id in nodeids
      invariant forall k, node :: k in nodeids && node in nodeids[k] ==>
                  node.unique == Assigned(old(node.unique), edge, LastWith(neighbors[..good], k))
      invariant forall node :: node in led && (forall k :: k in nodeids ==> node !in nodeids[k]) ==>
                  node.unique == old(node.unique)
    {
      var n := neighbors[i];
      if n.row.id !in nodeids {
        return Some(UnexpectedKey(n.row.id)), good;
      }
      AssignBucket(edge, nodeids[n.row.id], n, led);
      PrefixSnoc(neighbors, i);
      good := good + 1;
    }
    err := None;
  }

  // ------------------------------------------------ the whole load

  /** The per-row lookup the batched load replaces: the row whose primary key is `k`. */
  function Lookup(rows: seq<ChildRow>, k: int): Option<ChildRow> {
    if rows == [] then None
    else if rows[|rows| - 1].id == k then Some(rows[|rows| - 1])
    else Lookup(rows[..|rows| - 1], k)
  }

  lemma {:induction false} LookupFinds(rows: seq<ChildRow>, k: int)
    ensures Lookup(rows, k) == None ==> forall r :: r in rows ==> r.id != k
    ensures Lookup(rows, k).Some? ==> Lookup(rows, k).value in rows && Lookup(rows, k).value.id == k
  {
    if rows != [] {
      LookupFinds(rows[..|rows| - 1], k);
      assert rows == rows[..|rows| - 1] + [rows[|rows| - 1]];
    }
  }

  lemma {:induction false} LastWithRow(ns: seq<Neighbour>, rows: seq<ChildRow>, columns: seq<ChildColumn>, k: int)
    requires RowsOf(ns) == AllSeen(rows, columns)
    ensures LastWith(ns, k).Some? <==> Lookup(rows, k).Some?
    ensures LastWith(ns, k).Some? ==> LastWith(ns, k).value.row == Seen(Lookup(rows, k).value, columns)
  {
    if ns != [] {
      var front := ns[..|ns| - 1];
      assert RowsOf(front) == RowsOf(ns)[..|ns| - 1];
      assert AllSeen(rows[..|rows| - 1], columns) == AllSeen(rows, columns)[..|rows| - 1];
      LastWithRow(front, rows[..|rows| - 1], columns, k);
      assert ns[|ns| - 1].row == AllSeen(rows, columns)[|rows| - 1];
    }
  }

  /** Narrowing the query to ids that include `k` does not change the lookup of `k`; narrowing it
      to ids without `k` loses the row. */
  lemma {:induction false} NarrowedLookup(rows: seq<ChildRow>, ps: seq<Predicate>, ids: seq<int>, k: int)
    ensures Lookup(Matching(rows, ps + [IDIn(ids)]), k)
            == if k in ids then Lookup(Matching(rows, ps), k) else None
  {
    if rows != [] {
      var front, last := rows[..|rows| - 1], rows[|rows| - 1];
      NarrowedLookup(front, ps, ids, k);
      assert SatisfiesAll(last, ps + [IDIn(ids)]) <==> SatisfiesAll(last, ps) && Satisfies(last, IDIn(ids));
      MatchingLookup(rows, ps, k);
      MatchingLookup(rows, ps + [IDIn(ids)], k);
    }
  }

  /** A second load through the same builder is narrowed by the ids of the first. The lookup of
      `k` is still right if and only if every earlier load asked for `k`, or no row has that id. */
  lemma ReloadLookupIsComplete(rows: seq<ChildRow>, ps: seq<Predicate>, k: int)
    requires forall p :: p in ps ==> p.IDIn?
    ensures Lookup(Matching(rows, ps), k) == Lookup(rows, k)
            <==> (forall p :: p in ps ==> k in p.ids) || Lookup(rows, k) == None
  {
    ReloadedLookup(rows, ps, k);
  }

  lemma {:induction false} ReloadedLookup(rows: seq<ChildRow>, ps: seq<Predicate>, k: int)
    requires forall p :: p in ps ==> p.IDIn?
    ensures Lookup(Matching(rows, ps), k) == if forall p :: p in ps ==> k in p.ids then Lookup(rows, k) else None
  {
    if rows != [] {
      ReloadedLookup(rows[..|rows| - 1], ps, k);
      MatchingLookup(rows, ps, k);
    }
  }

  lemma MatchingLookup(rows: seq<ChildRow>, ps: seq<Predicate>, k: int)
    requires rows != []
    ensures var last := rows[|rows| - 1];
            Lookup(Matching(rows, ps), k)
            == if SatisfiesAll(last, ps) && last.id == k then Some(last) else Lookup(Matching(rows[..|rows| - 1], ps), k)
  {
    var front, last := Matching(rows[..|rows| - 1], ps), rows[|rows| - 1];
    if SatisfiesAll(last, ps) {
      assert (front + [last])[..|front|] == front;
    } else {
      assert Matching(rows, ps) == front;
    }
  }

  /** The unique edges of the nodes, as a value. */
  type EdgeTargets = map<Node, map<UniqueEdge, Neighbour>>

  ghost function TargetsOf(all: set<Node>): EdgeTargets
    reads all`unique
  {
    map n | n in all :: n.unique
  }

  /** What the load leaves on the node at `i`: the neighbour its own key looks up, and no change
      when the key is nil or dangling. */
  ghost predicate TargetLoaded(edge: UniqueEdge, nodes: seq<Node>, keys: seq<Option<int>>, i: nat, rows: seq<ChildRow>,
                               columns: seq<ChildColumn>, before: EdgeTargets, after: EdgeTargets)
    requires i < |nodes| == |keys|
  {
    var node := nodes[i];
    && node in before && node in after
    && match (if keys[i].Some? then Lookup(rows, keys[i].value) else None)
       case None => after[node] == before[node]
       case Some(r) => edge in after[node] && after[node][edge].row == Seen(r, columns)
                       && after[node] == before[node][edge := after[node][edge]]
  }

  /** Every node is loaded, and nodes with the same resolved key share one neighbour object. */
  ghost predicate TargetsLoaded(edge: UniqueEdge, nodes: seq<Node>, keys: seq<Option<int>>, rows: seq<ChildRow>,
                                columns: seq<ChildColumn>, before: EdgeTargets, after: EdgeTargets)
  {
    && |nodes| == |keys|
    && (forall i :: 0 <= i < |nodes| ==> TargetLoaded(edge, nodes, keys, i, rows, columns, before, after))
    && forall i, j ::
         0 <= i < |nodes| && 0 <= j < |nodes| && keys[i] == keys[j] && keys[i].Some? && Lookup(rows, keys[i].value).Some?
         ==> Target(edge, nodes[i], after) == Target(edge, nodes[j], after)
  }

  ghost function Target(edge: UniqueEdge, node: Node, targets: EdgeTargets): Option<Neighbour> {
    if node in targets && edge in targets[node] then Some(targets[node][edge]) else None
  }

  lemma BucketsAreDisjoint(nodes: seq<Node>, keys: seq<Option<int>>, nodeids: map<int, seq<Node>>)
    requires OwnKeys(nodes, keys) && Buckets(nodes, keys, nodeids)
    ensures forall k, node :: k in nodeids && node in nodeids[k] ==> node in nodes
    ensures forall k, l, node :: k in nodeids && l in nodeids && node in nodeids[k] && node in nodeids[l] ==> k == l
  {
    forall k, node | k in nodeids && node in nodeids[k] ensures node in nodes {
      BucketMembers(nodes, keys, k, node);
    }
    forall k, l, node | k in nodeids && l in nodeids && node in nodeids[k] && node in nodeids[l] ensures k == l {
      BucketMembers(nodes, keys, k, node);
      BucketMembers(nodes, keys, l, node);
    }
  }

  /** Attached, as a relation between the edge values before and after. */
  ghost predicate Targeted(edge: UniqueEdge, nodeids: map<int, seq<Node>>, ns: seq<Neighbour>,
                           before: EdgeTargets, after: EdgeTargets)
  {
    && after.Keys == before.Keys
    && (forall k, node :: k in nodeids && node in nodeids[k] ==>
          node in before && after[node] == Assigned(before[node], edge, LastWith(ns, k)))
    && forall node :: node in before && (forall k :: k in nodeids ==> node !in nodeids[k]) ==> after[node] == before[node]
  }

  lemma NodeIsTargeted(edge: UniqueEdge, nodes: seq<Node>, keys: seq<Option<int>>, nodeids: map<int, seq<Node>>, i: nat,
                       ns: seq<Neighbour>, before: EdgeTargets, after: EdgeTargets)
    requires OwnKeys(nodes, keys) && Buckets(nodes, keys, nodeids) && i < |nodes| && nodes[i] in before
    requires Targeted(edge, nodeids, ns, before, after)
    ensures nodes[i] in after
    ensures after[nodes[i]]
            == if keys[i].Some? then Assigned(before[nodes[i]], edge, LastWith(ns, keys[i].value)) else before[nodes[i]]
  {
    AskedIsExact(keys);
    assert keys[i] in keys;
    if keys[i].Some? {
      BucketMembers(nodes, keys, keys[i].value, nodes[i]);
    } else {
      forall k | k in nodeids ensures nodes[i] !in nodeids[k] {
        BucketMembers(nodes, keys, k, nodes[i]);
      }
    }
  }

  lemma UniqueLoadIsComplete(edge: UniqueEdge, nodes: seq<Node>, keys: seq<Option<int>>, nodeids: map<int, seq<Node>>,
                             rows: seq<ChildRow>, ps: seq<Predicate>, columns: seq<ChildColumn>, ns: seq<Neighbour>,
                             before: EdgeTargets, after: EdgeTargets)
    requires OwnKeys(nodes, keys) && Buckets(nodes, keys, nodeids)
    requires forall node :: node in nodes ==> node in before
    requires RowsOf(ns) == AllSeen(Matching(rows, ps + [IDIn(Asked(keys))]), columns)
    requires Targeted(edge, nodeids, ns, before, after)
    ensures TargetsLoaded(edge, nodes, keys, Matching(rows, ps), columns, before, after)
  {
    AskedIsExact(keys);
    forall i | 0 <= i < |nodes|
      ensures TargetLoaded(edge, nodes, keys, i, Matching(rows, ps), columns, before, after)
      ensures keys[i].Some? && Lookup(Matching(rows, ps), keys[i].value).Some? ==>
                LastWith(ns, keys[i].value).Some? && after[nodes[i]][edge] == LastWith(ns, keys[i].value).value
    {
      NodeIsTargeted(edge, nodes, keys, nodeids, i, ns, before, after);
      assert keys[i] in keys;
      if keys[i].Some? {
        LastWithRow(ns, Matching(rows, ps + [IDIn(Asked(keys))]), columns, keys[i].value);
        NarrowedLookup(rows, ps, Asked(keys), keys[i].value);
      }
    }
  }

  /** The last loop of the load, on answers that were all asked for: no error is left. */
  method FinishUnique(edge: UniqueEdge, nodes: seq<Node>, ghost keys: seq<Option<int>>, nodeids: map<int, seq<Node>>,
                      neighbors: seq<Neighbour>, ghost all: set<Node>) returns (err: Option<LoadError>)
    requires all == set n | n in nodes
    requires OwnKeys(nodes, keys) && Buckets(nodes, keys, nodeids)
    requires forall n :: n in neighbors ==> n.row.id in Asked(keys)
    modifies all`unique
    ensures err == None
    ensures Targeted(edge, nodeids, neighbors, old(TargetsOf(all)), TargetsOf(all))
  {
    BucketsAreDisjoint(nodes, keys, nodeids);
    ghost var good;
    err, good := AttachUnique(edge, nodeids, neighbors, all);
    assert good == |neighbors| && neighbors[..good] == neighbors;
  }

  /** `query.Where(IDIn(ids...))` and `query.All`. */
  method QueryUnique(q: ChildQuery, ids: seq<int>) returns (neighbors: seq<Neighbour>)
    modifies q`predicates
    ensures q.predicates == old(q.predicates) + [IDIn(ids)]
    ensures forall n :: n in neighbors ==> n.row.id in ids
    ensures RowsOf(neighbors) == AllSeen(Matching(q.rows, q.predicates), q.columns)
  {
    q.Where(IDIn(ids));
    neighbors := q.All();
    MatchingMembers(q.rows, q.predicates);
    assert IDIn(ids) in q.predicates;
    forall n | n in neighbors ensures n.row.id in ids {
      var i :| 0 <= i < |neighbors| && neighbors[i] == n;
      var r := Matching(q.rows, q.predicates)[i];
      assert RowsOf(neighbors)[i] == Seen(r, q.columns) && r in Matching(q.rows, q.predicates);
      assert Satisfies(r, IDIn(ids));
    }
  }

  /** What the load leaves, read off the key field of a node: the row with that id, or, where the field
      is nil or there is no such row, nothing new. */
  ghost predicate FollowsField(edge: UniqueEdge, key: FieldValue, rows: seq<ChildRow>, columns: seq<ChildColumn>,
                               before: map<UniqueEdge, Neighbour>, after: map<UniqueEdge, Neighbour>)
  {
    && (key == Nil ==> after == before)
    && forall k :: key == Ptr(SInt(k)) ==>
         if exists r :: r in rows && r.id == k
         then edge in after && exists r :: r in rows && r.id == k && after[edge].row == Seen(r, columns)
         else after == before
  }

  ghost predicate LoadFollowsFields(edge: UniqueEdge, nodes: seq<Node>, rows: seq<ChildRow>, columns: seq<ChildColumn>,
                                    before: EdgeTargets, after: EdgeTargets)
    reads nodes`fields
  {
    forall n :: n in nodes ==>
      && n in before && n in after
      && (edge == ProxyEdge ==> FollowsField(edge, Field(n.fields, ProxyID), rows, columns, before[n], after[n]))
      && (edge == OwnerEdge ==> FollowsField(edge, Field(n.fields, OwnerUserID), rows, columns, before[n], after[n]))
  }

  lemma LoadedFollowsFields(edge: UniqueEdge, nodes: seq<Node>, rows: seq<ChildRow>, columns: seq<ChildColumn>,
                            before: EdgeTargets, after: EdgeTargets)
    requires TargetsLoaded(edge, nodes, Keys(nodes, edge), rows, columns, before, after)
    ensures LoadFollowsFields(edge, nodes, rows, columns, before, after)
  {
    forall n | n in nodes
      ensures n in before && n in after
      ensures edge == ProxyEdge ==> FollowsField(edge, Field(n.fields, ProxyID), rows, columns, before[n], after[n])
      ensures edge == OwnerEdge ==> FollowsField(edge, Field(n.fields, OwnerUserID), rows, columns, before[n], after[n])
    {
      var i :| 0 <= i < |nodes| && nodes[i] == n;
      KeyAt(nodes, edge, i);
      KeysAreFields(n.fields);
      var key := KeyIn(n.fields, edge);
      if key.Some? {
        LookupFinds(rows, key.value);
      }
      assert TargetLoaded(edge, nodes, Keys(nodes, edge), i, rows, columns, before, after);
    }
  }

  /** Where every key is nil, the load has nothing to do. */
  lemma NoKeysToLoad(edge: UniqueEdge, nodes: seq<Node>, keys: seq<Option<int>>, rows: seq<ChildRow>,
                     columns: seq<ChildColumn>, before: EdgeTargets)
    requires |nodes| == |keys| && Asked(keys) == [] && forall n :: n in nodes ==> n in before
    ensures TargetsLoaded(edge, nodes, keys, rows, columns, before, before)
  {
    NothingAsked(keys);
    assert forall i :: 0 <= i < |nodes| ==> nodes[i] in nodes;
  }

  lemma {:induction false} NothingAsked(keys: seq<Option<int>>)
    requires Asked(keys) == []
    ensures forall i :: 0 <= i < |keys| ==> keys[i] == None
  {
    if keys != [] {
      NothingAsked(keys[..|keys| - 1]);
    }
  }

  /** `loadProxy` and `loadOwner`, for every node list: each node gets what its own key looks up.
      With no key to ask for, the query is not run and not narrowed. */
  method LoadUnique(q: ChildQuery, edge: UniqueEdge, nodes: seq<Node>, ghost all: set<Node>) returns (err: Option<LoadError>)
    requires all == set n | n in nodes
    modifies q`predicates, all`unique
    ensures err == None
    ensures var asked := Asked(old(Keys(nodes, edge)));
            q.predicates == old(q.predicates) + if asked == [] then [] else [IDIn(asked)]
    ensures TargetsLoaded(edge, nodes, old(Keys(nodes, edge)), Matching(q.rows, old(q.predicates)), q.columns,
                          old(TargetsOf(all)), TargetsOf(all))
    ensures LoadFollowsFields(edge, nodes, Matching(q.rows, old(q.predicates)), q.columns,
                              old(TargetsOf(all)), TargetsOf(all))
  {
    ghost var before := TargetsOf(all);
    err := LoadByKeys(q, edge, nodes, all);
    LoadedFollowsFields(edge, nodes, Matching(q.rows, old(q.predicates)), q.columns, before, TargetsOf(all));
  }

  method LoadByKeys(q: ChildQuery, edge: UniqueEdge, nodes: seq<Node>, ghost all: set<Node>) returns (err: Option<LoadError>)
    requires all == set n | n in nodes
    modifies q`predicates, all`unique
    ensures err == None
    ensures var asked := Asked(Keys(nodes, edge));
            q.predicates == old(q.predicates) + if asked == [] then [] else [IDIn(asked)]
    ensures TargetsLoaded(edge, nodes, Keys(nodes, edge), Matching(q.rows, old(q.predicates)), q.columns,
                          old(TargetsOf(all)), TargetsOf(all))
  {
    ghost var keys, before := Keys(nodes, edge), TargetsOf(all);
    KeysAreOwn(nodes, edge);
    var ids, nodeids := CollectKeys(edge, nodes);
    if |ids| == 0 {
      NoKeysToLoad(edge, nodes, keys, Matching(q.rows, q.predicates), q.columns, before);
      return None;
    }
    var neighbors := QueryUnique(q, ids);
    err := FinishUnique(edge, nodes, keys, nodeids, neighbors, all);
    UniqueLoadIsComplete(edge, nodes, keys, nodeids, q.rows, old(q.predicates), q.columns, neighbors, before, TargetsOf(all));
  }
}
