/** The edge changes that an account mutation gathers (backend/ent/mutation.go), and the edge specs
    that `sqlSave` emits for them (backend/ent/account_update.go). */
module EdgeDelta {
  import opened Prelude
  import opened Graph

  /** Edges to many neighbours. */
  datatype ManyEdge = ToGroups | ToUsageLogs

  datatype Edge = Many(m: ManyEdge) | One(u: UniqueEdge)

  /** The edge fields of a mutation. A map without an entry is a nil map or a nil pointer. */
  datatype Delta = Delta(added: map<ManyEdge, set<int>>, removed: map<ManyEdge, set<int>>, cleared: set<ManyEdge>,
                         key: map<UniqueEdge, int>, clearedEdge: set<UniqueEdge>, clearedField: set<UniqueEdge>)

  const BLANK := Delta(map[], map[], {}, map[], {}, {})

  function IdsIn(m: map<ManyEdge, set<int>>, e: ManyEdge): set<int> {
    if e in m then m[e] else {}
  }

  function SetOf<T>(ids: seq<T>): set<T> {
    set i | i in ids
  }

  /** The calls on a mutation that concern its edges, named by their kind of edge; for the proxy:
      `SetProxyID`, `ClearProxy`, `ClearProxyID`, `ResetProxy` and `ResetProxyID`. */
  datatype Op =
    | AddIDs(m: ManyEdge, ids: seq<int>)
    | RemoveIDs(m: ManyEdge, ids: seq<int>)
    | ClearMany(m: ManyEdge)
    | ResetMany(m: ManyEdge)
    | SetKey(u: UniqueEdge, id: int)
    | ClearOne(u: UniqueEdge)
    | ClearKey(u: UniqueEdge)
    | ResetOne(u: UniqueEdge)
    | ResetKey(u: UniqueEdge)
  {
    function On(): Edge {
      if AddIDs? || RemoveIDs? || ClearMany? || ResetMany? then Many(m) else One(u)
    }
  }

  /** What a call leaves in the mutation. */
  function After(d: Delta, op: Op): Delta {
    match op
    case AddIDs(m, ids) => d.(added := d.added[m := IdsIn(d.added, m) + SetOf(ids)])
    case RemoveIDs(m, ids) =>
      d.(added := if m in d.added then d.added[m := d.added[m] - SetOf(ids)] else d.added,
         removed := d.removed[m := IdsIn(d.removed, m) + SetOf(ids)])
    case ClearMany(m) => d.(cleared := d.cleared + {m})
    case ResetMany(m) => d.(added := d.added - {m}, removed := d.removed - {m}, cleared := d.cleared - {m})
    case SetKey(u, id) => d.(key := d.key[u := id])
    case ClearOne(u) => d.(clearedEdge := d.clearedEdge + {u}, clearedField := d.clearedField + {u})
    case ClearKey(u) => d.(key := d.key - {u}, clearedField := d.clearedField + {u})
    case ResetOne(u) => d.(key := d.key - {u}, clearedEdge := d.clearedEdge - {u})
    case ResetKey(u) => d.(key := d.key - {u}, clearedField := d.clearedField - {u})
  }

  /** What a saved mutation makes of the neighbours `links` that an account has along an edge. */
  function Meant(d: Delta, e: Edge, links: set<int>): set<int> {
    match e
    case Many(m) => (if m in d.cleared then {} else links - IdsIn(d.removed, m)) + IdsIn(d.added, m)
    case One(u) => if u in d.key then {d.key[u]} else if u in d.clearedEdge + d.clearedField then {} else links
  }

  // ------------------------------------------------ the emitted specs

  /** One edge spec; in the clear list, a spec without nodes stands for all neighbours. */
  datatype EdgeSpec = EdgeSpec(edge: Edge, nodes: seq<int>)

  datatype UpdateSpec = UpdateSpec(clear: seq<EdgeSpec>, add: seq<EdgeSpec>)

  function Cleared(specs: seq<EdgeSpec>, e: Edge, links: set<int>): set<int> {
    if specs == [] then links
    else
      var rest, s := Cleared(specs[..|specs| - 1], e, links), specs[|specs| - 1];
      if s.edge != e then rest else if s.nodes == [] then {} else rest - SetOf(s.nodes)
  }

  function Added(specs: seq<EdgeSpec>, e: Edge, links: set<int>): set<int> {
    if specs == [] then links
    else
      var rest, s := Added(specs[..|specs| - 1], e, links), specs[|specs| - 1];
      if s.edge != e || s.nodes == [] then rest
      else if e.One? then {s.nodes[|s.nodes| - 1]} else rest + SetOf(s.nodes)
  }

  /** The store clears first, then adds. */
  function Applied(spec: UpdateSpec, e: Edge, links: set<int>): set<int> {
    Added(spec.add, e, Cleared(spec.clear, e, links))
  }

  function Joined(a: UpdateSpec, b: UpdateSpec): UpdateSpec {
    UpdateSpec(a.clear + b.clear, a.add + b.add)
  }

  predicate Silent(spec: UpdateSpec, e: Edge) {
    (forall s :: s in spec.clear ==> s.edge != e) && (forall s :: s in spec.add ==> s.edge != e)
  }

  lemma {:induction false} ClearedJoin(a: seq<EdgeSpec>, b: seq<EdgeSpec>, e: Edge, links: set<int>)
    ensures Cleared(a + b, e, links) == Cleared(b, e, Cleared(a, e, links))
  {
    if b == [] {
      assert a + b == a;
    } else {
      ClearedJoin(a, b[..|b| - 1], e, links);
      assert (a + b)[..|a + b| - 1] == a + b[..|b| - 1];
    }
  }

  lemma {:induction false} AddedJoin(a: seq<EdgeSpec>, b: seq<EdgeSpec>, e: Edge, links: set<int>)
    ensures Added(a + b, e, links) == Added(b, e, Added(a, e, links))
  {
    if b == [] {
      assert a + b == a;
    } else {
      AddedJoin(a, b[..|b| - 1], e, links);
      assert (a + b)[..|a + b| - 1] == a + b[..|b| - 1];
    }
  }

  lemma {:induction false} SilentSpecs(specs: seq<EdgeSpec>, e: Edge, links: set<int>)
    requires forall s :: s in specs ==> s.edge != e
    ensures Cleared(specs, e, links) == links && Added(specs, e, links) == links
  {
    if specs != [] {
      SilentSpecs(specs[..|specs| - 1], e, links);
    }
  }

  /** Specs about different edges do not interfere. */
  lemma AppliedJoin(a: UpdateSpec, b: UpdateSpec, e: Edge, links: set<int>)
    ensures Silent(a, e) ==> Applied(Joined(a, b), e, links) == Applied(b, e, links)
    ensures Silent(b, e) ==> Applied(Joined(a, b), e, links) == Applied(a, e, links)
  {
    ClearedJoin(a.clear, b.clear, e, links);
    AddedJoin(a.add, b.add, e, Cleared(a.clear + b.clear, e, links));
    if Silent(a, e) {
      SilentSpecs(a.clear, e, links);
      SilentSpecs(a.add, e, Cleared(b.clear, e, links));
    }
    if Silent(b, e) {
      SilentSpecs(b.clear, e, Cleared(a.clear, e, links));
      SilentSpecs(b.add, e, Added(a.add, e, Cleared(a.clear, e, links)));
    }
  }

  /** `GroupsCleared()`, `ProxyCleared()` and the like. */
  predicate IsCleared(d: Delta, e: Edge) {
    match e
    case Many(m) => m in d.cleared
    case One(u) => u in d.clearedField || u in d.clearedEdge
  }

  /** Whatever else the mutation holds, its spec clears a whole edge only if the edge was cleared. */
  predicate ClearsAllExactly(d: Delta, spec: UpdateSpec, e: Edge) {
    EdgeSpec(e, []) in spec.clear <==> IsCleared(d, e)
  }

  /** The part of an update spec that is about edge `e` says what the mutation means there. */
  ghost predicate Says(spec: UpdateSpec, d: Delta, e: Edge) {
    && ClearsAllExactly(d, spec, e)
    && EdgeSpec(e, []) !in spec.add
    && forall links :: Applied(spec, e, links) == Meant(d, e, links)
  }

  /** A part that is about edge `e` only. */
  ghost predicate SaysOnly(spec: UpdateSpec, d: Delta, e: Edge) {
    Says(spec, d, e) && forall f :: f != e ==> Silent(spec, f)
  }

  lemma JoinKeepsSaying(a: UpdateSpec, b: UpdateSpec, d: Delta, e: Edge)
    requires (Says(a, d, e) && Silent(b, e)) || (Silent(a, e) && Says(b, d, e))
    ensures Says(Joined(a, b), d, e)
  {
    forall links ensures Applied(Joined(a, b), e, links) == Meant(d, e, links) {
      AppliedJoin(a, b, e, links);
    }
  }

  /** `for _, k := range nodes`, over a map whose order is not specified. */
  method Listed<T(==)>(ids: set<T>) returns (nodes: seq<T>)
    ensures SetOf(nodes) == ids && Distinct(nodes)
    ensures nodes == [] <==> ids == {}
  {
    nodes := [];
    var todo := ids;
    while todo != {}
      invariant todo <= ids && Distinct(nodes)
      invariant forall i :: i in nodes <==> i in ids && i !in todo
      decreases todo
    {
      var k :| k in todo;
      nodes, todo := nodes + [k], todo - {k};
    }
    if nodes != [] {
      assert nodes[0] in nodes;
    }
  }

  lemma SetOfSnoc(ids: seq<int>, k: int)
    ensures SetOf(ids + [k]) == SetOf(ids) + {k}
  {
    assert forall i :: i in ids + [k] <==> i in ids || i == k;
  }

  lemma OneSpec(s: EdgeSpec, e: Edge, links: set<int>)
    ensures Cleared([s], e, links) == if s.edge != e then links else if s.nodes == [] then {} else links - SetOf(s.nodes)
    ensures Added([s], e, links)
            == if s.edge != e || s.nodes == [] then links
               else if e.One? then {s.nodes[|s.nodes| - 1]} else links + SetOf(s.nodes)
  {
    assert [s][..0] == [];
  }

  /** The mutation of an account, with its edge calls. */
  class AccountMutation {
    var added: map<ManyEdge, set<int>>
    var removed: map<ManyEdge, set<int>>
    var cleared: set<ManyEdge>
    var key: map<UniqueEdge, int>
    var clearedEdge: set<UniqueEdge>
    var clearedField: set<UniqueEdge>

    constructor ()
      ensures Value() == BLANK
    {
      added, removed, cleared, key, clearedEdge, clearedField := map[], map[], {}, map[], {}, {};
    }

    function Value(): Delta
      reads this
    {
      Delta(added, removed, cleared, key, clearedEdge, clearedField)
    }

    /** `AddGroupIDs`, `AddUsageLogIDs`. */
    method Add(m: ManyEdge, ids: seq<int>)
      modifies this`added
      ensures Value() == After(old(Value()), AddIDs(m, ids))
    {
      ghost var before := IdsIn(added, m);
      if m !in added {
        added := added[m := {}];
      }
      assert before + SetOf(ids[..0]) == before;
      for i := 0 to |ids|
        invariant added == old(added)[m := before + SetOf(ids[..i])]
      {
        PrefixSnoc(ids, i);
        SetOfSnoc(ids[..i], ids[i]);
        assert before + SetOf(ids[..i + 1]) == added[m] + {ids[i]};
        added := added[m := added[m] + {ids[i]}];
      }
      assert ids[..|ids|] == ids;
    }

    /** `RemoveGroupIDs`, `RemoveUsageLogIDs`; deleting from a nil map does nothing. */
    method Remove(m: ManyEdge, ids: seq<int>)
      modifies this`added, this`removed
      ensures Value() == After(old(Value()), RemoveIDs(m, ids))
    {
      ghost var before := IdsIn(removed, m);
      if m !in removed {
        removed := removed[m := {}];
      }
      assert before + SetOf(ids[..0]) == before && (m in added ==> added[m] - SetOf(ids[..0]) == added[m]);
      for i := 0 to |ids|
        invariant removed == old(removed)[m := before + SetOf(ids[..i])]
        invariant added == if m in old(added) then old(added)[m := old(added)[m] - SetOf(ids[..i])] else old(added)
      {
        PrefixSnoc(ids, i);
        SetOfSnoc(ids[..i], ids[i]);
        assert before + SetOf(ids[..i + 1]) == removed[m] + {ids[i]};
        if m in added {
          assert old(added)[m] - SetOf(ids[..i + 1]) == added[m] - {ids[i]};
          added := added[m := added[m] - {ids[i]}];
        }
        removed := removed[m := removed[m] + {ids[i]}];
      }
      assert ids[..|ids|] == ids;
    }

    /** The remaining edge calls, which only assign. */
    method Do(op: Op)
      modifies this
      ensures Value() == After(old(Value()), op)
    {
      match op {
        case AddIDs(m, ids) =>
          Add(m, ids);
        case RemoveIDs(m, ids) =>
          Remove(m, ids);
        case ClearMany(m) =>
          cleared := cleared + {m};
        case ResetMany(m) =>
          added, removed, cleared := added - {m}, removed - {m}, cleared - {m};
        case SetKey(u, id) =>
          key := key[u := id];
        case ClearOne(u) =>
          clearedEdge, clearedField := clearedEdge + {u}, clearedField + {u};
        case ClearKey(u) =>
          key, clearedField := key - {u}, clearedField + {u};
        case ResetOne(u) =>
          key, clearedEdge := key - {u}, clearedEdge - {u};
        case ResetKey(u) =>
          key, clearedField := key - {u}, clearedField - {u};
      }
    }

    /** The three `if` blocks for an edge to many. */
    method EmitMany(m: ManyEdge, spec: UpdateSpec) returns (out: UpdateSpec)
      requires Silent(spec, Many(m))
      ensures Emitted(spec, out, Value(), Many(m))
    {
      ghost var part := UpdateSpec([], []);
      out := spec;
      if m in cleared {
        out := out.(clear := out.clear + [EdgeSpec(Many(m), [])]);
        part := part.(clear := [EdgeSpec(Many(m), [])]);
      }
      var nodes := Listed(IdsIn(removed, m));
      if |nodes| > 0 && m !in cleared {
        out := out.(clear := out.clear + [EdgeSpec(Many(m), nodes)]);
        part := part.(clear := [EdgeSpec(Many(m), nodes)]);
      }
      var adds := Listed(IdsIn(added, m));
      if |adds| > 0 {
        out := out.(add := out.add + [EdgeSpec(Many(m), adds)]);
        part := part.(add := [EdgeSpec(Many(m), adds)]);
      }
      forall links ensures Applied(part, Many(m), links) == Meant(Value(), Many(m), links) {
        OneSpec(EdgeSpec(Many(m), []), Many(m), links);
        OneSpec(EdgeSpec(Many(m), nodes), Many(m), links);
        OneSpec(EdgeSpec(Many(m), adds), Many(m), Cleared(part.clear, Many(m), links));
      }
      assert out == Joined(spec, part);
      PartIsEmitted(spec, part, Value(), Many(m));
    }

    /** The two `if` blocks for an edge to one. */
    method EmitOne(u: UniqueEdge, spec: UpdateSpec) returns (out: UpdateSpec)
      requires Silent(spec, One(u))
      ensures Emitted(spec, out, Value(), One(u))
    {
      ghost var part := UpdateSpec([], []);
      out := spec;
      if u in clearedField || u in clearedEdge {
        out := out.(clear := out.clear + [EdgeSpec(One(u), [])]);
        part := part.(clear := [EdgeSpec(One(u), [])]);
      }
      if u in key {
        out := out.(add := out.add + [EdgeSpec(One(u), [key[u]])]);
        part := part.(add := [EdgeSpec(One(u), [key[u]])]);
      }
      forall links ensures Applied(part, One(u), links) == Meant(Value(), One(u), links) {
        OneSpec(EdgeSpec(One(u), []), One(u), links);
        if u in key {
          OneSpec(EdgeSpec(One(u), [key[u]]), One(u), Cleared(part.clear, One(u), links));
        }
      }
      assert out == Joined(spec, part);
      PartIsEmitted(spec, part, Value(), One(u));
    }

    /** The edge part of `sqlSave`: on every edge the emitted specs do what the mutation means,
        whatever neighbours there were, and a spec that clears everything is emitted exactly for
        the cleared edges, never for an empty list of removed ids. */
    method SqlSave() returns (spec: UpdateSpec)
      ensures forall e :: Says(spec, Value(), e)
    {
      spec := UpdateSpec([], []);
      spec := EmitMany(ToGroups, spec);
      spec := EmitOne(ProxyEdge, spec);
      spec := EmitOne(OwnerEdge, spec);
      spec := EmitMany(ToUsageLogs, spec);
      forall e ensures Says(spec, Value(), e) {
        match e {
          case Many(ToGroups) =>
          case Many(ToUsageLogs) =>
          case One(ProxyEdge) =>
          case One(OwnerEdge) =>
        }
      }
    }
  }

  /** `out` says what the mutation means along edge `e`, and about other edges what `spec` said. */
  ghost predicate Emitted(spec: UpdateSpec, out: UpdateSpec, d: Delta, e: Edge) {
    && Says(out, d, e)
    && forall f :: f != e ==> (Silent(spec, f) ==> Silent(out, f)) && (Says(spec, d, f) ==> Says(out, d, f))
  }

  lemma PartIsEmitted(spec: UpdateSpec, part: UpdateSpec, d: Delta, e: Edge)
    requires Silent(spec, e) && SaysOnly(part, d, e)
    ensures Emitted(spec, Joined(spec, part), d, e)
  {
    JoinKeepsSaying(spec, part, d, e);
    forall f | f != e
      ensures Silent(spec, f) ==> Silent(Joined(spec, part), f)
      ensures Says(spec, d, f) ==> Says(Joined(spec, part), d, f)
    {
      assert Silent(part, f);
      SilentJoin(spec, part, f);
      if Says(spec, d, f) {
        JoinKeepsSaying(spec, part, d, f);
      }
    }
  }

  lemma SilentJoin(a: UpdateSpec, b: UpdateSpec, e: Edge)
    ensures Silent(Joined(a, b), e) <==> Silent(a, e) && Silent(b, e)
  {}

  // ------------------------------------------------ one call after the other

  /** What a call should do to the neighbours at once, if each call took effect when it is made;
      a reset goes back to the neighbours `start` from before the mutation. */
  function AtOnce(op: Op, e: Edge, start: set<int>, links: set<int>): set<int> {
    if op.On() != e then links
    else
      match op
      case AddIDs(_, ids) => links + SetOf(ids)
      case RemoveIDs(_, ids) => links - SetOf(ids)
      case SetKey(_, id) => {id}
      case ClearMany(_) => {}
      case ClearOne(_) => {}
      case ClearKey(_) => {}
      case ResetMany(_) => start
      case ResetOne(_) => start
      case ResetKey(_) => start
  }

  /** The calls whose gathered effect differs: clearing an edge keeps what was added or set before,
      and each way to reset a key forgets the other way to clear it. */
  predicate Differs(d: Delta, op: Op) {
    match op
    case ClearMany(m) => IdsIn(d.added, m) != {}
    case ClearOne(u) => u in d.key
    case ResetOne(u) => u in d.clearedField
    case ResetKey(u) => u in d.clearedEdge
    case _ => false
  }

  /** For every mutation and call: gathering the call means what making it at once would mean, for
      all neighbours, unless the call is one of those that differ. */
  lemma GatheringIsExact(d: Delta, op: Op, e: Edge)
    ensures (forall links :: Meant(After(d, op), e, links) == AtOnce(op, e, links, Meant(d, e, links)))
            <==> !(op.On() == e && Differs(d, op))
  {
    if op.On() == e && Differs(d, op) {
      var links := {0};
      assert Meant(After(d, op), e, links) != AtOnce(op, e, links, Meant(d, e, links));
    } else {
      forall links ensures Meant(After(d, op), e, links) == AtOnce(op, e, links, Meant(d, e, links)) {
      }
    }
  }
}
