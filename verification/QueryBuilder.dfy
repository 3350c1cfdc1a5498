/** The query builder: its mutators, its tree of eager-load children and `Clone`
    (backend/ent/account_query.go). Function values (predicates, orders, interceptors, modifiers,
    traversal paths) and column names are represented by the numbers that identify them. */
module QueryBuilder {
  import opened Prelude
  import opened GoSlices

  /** The slices of a builder, by position. The last one is the intermediate selector of a traversal,
      as the list of its clauses. */
  type Part = p: nat | p < PARTS
  const PARTS: nat := 6
  const ORDER: Part := 0
  const INTERCEPTORS: Part := 1
  const PREDICATES: Part := 2
  const MODIFIERS: Part := 3
  const FIELDS: Part := 4
  const SELECTOR: Part := 5

  /** The contents of the slices of one builder. */
  type Parts = s: seq<seq<int>> | |s| == PARTS witness [[], [], [], [], [], []]

  /** The value of a builder without its children. */
  datatype Settings = Settings(parts: Parts, limit: Option<nat>, offset: Option<nat>, unique: Option<bool>,
                               path: Option<int>)

  /** The value of a whole builder tree. */
  datatype View = View(settings: Settings, children: map<string, View>)

  /** A builder as `Client.Query()` returns it. */
  const FRESH := View(Settings([[], [], [], [], [], []], None, None, None, None), map[])

  /** The builder calls. `With` configures the new child through its option callbacks. */
  datatype Op =
    | Add(part: Part, xs: seq<int>)
    | Limit(n: nat)
    | Offset(n: nat)
    | Unique(b: bool)
    | With(edge: string, opts: seq<Op>)

  /** What a call does to the settings. */
  function Set(s: Settings, op: Op): Settings {
    match op
    case Add(part, xs) => s.(parts := s.parts[part := s.parts[part] + xs])
    case Limit(n) => s.(limit := Some(n))
    case Offset(n) => s.(offset := Some(n))
    case Unique(b) => s.(unique := Some(b))
    case With(_, _) => s
  }

  /** What a call does to the value. */
  function Apply(v: View, op: Op): View
    decreases op, 0
  {
    if op.With? then v.(children := v.children[op.edge := ApplyAll(FRESH, op.opts)])
    else v.(settings := Set(v.settings, op))
  }

  function ApplyAll(v: View, ops: seq<Op>): View
    decreases ops, 1
  {
    if ops == [] then v else Apply(ApplyAll(v, ops[..|ops| - 1]), ops[|ops| - 1])
  }

  function WithoutModifiers(s: Settings): Settings {
    s.(parts := s.parts[MODIFIERS := []])
  }

  /** The value of a clone: equal at every level, except that modifiers are not carried over. */
  function Cloned(v: View): View {
    View(WithoutModifiers(v.settings), map e | e in v.children :: Cloned(v.children[e]))
  }

  datatype OnlyError = NotFound | NotSingular

  /** The rows a query returns: after the offset, up to the limit. */
  function Page<T>(matching: seq<T>, offset: Option<nat>, limit: Option<nat>): seq<T> {
    var rest := if offset.None? then matching else if offset.value <= |matching| then matching[offset.value..] else [];
    if limit.None? || |rest| <= limit.value then rest else rest[..limit.value]
  }

  /** The rows a builder answers as it stands, when its predicates select `matching`. */
  function Answer<T>(v: View, matching: seq<T>): seq<T> {
    Page(matching, v.settings.offset, v.settings.limit)
  }

  /** The page starts at the offset and is cut at the limit: the row at position `i` of the answer is the
      matching row at position `i` after the offset. */
  lemma AnswerExactly<T>(v: View, matching: seq<T>)
    ensures var start := if v.settings.offset.Some? then v.settings.offset.value else 0;
            var left := if start <= |matching| then |matching| - start else 0;
            && |Answer(v, matching)|
               == (if v.settings.limit.Some? && v.settings.limit.value < left then v.settings.limit.value else left)
            && forall i :: 0 <= i < |Answer(v, matching)| ==> Answer(v, matching)[i] == matching[start + i]
  {}

  /** In particular after `Offset(n)`. */
  lemma AnswerAfterOffset<T>(v: View, n: nat, matching: seq<T>)
    requires n <= |matching|
    ensures v.settings.limit == None ==> Answer(Apply(v, Offset(n)), matching) == matching[n..]
    ensures forall i :: 0 <= i < |Answer(Apply(v, Offset(n)), matching)| ==>
              Answer(Apply(v, Offset(n)), matching)[i] == matching[n + i]
  {
    AnswerExactly(Apply(v, Offset(n)), matching);
  }

  // ------------------------------------------------ what a run of calls leaves

  /** Everything that the calls append to the slice, in order. */
  function AddedTo(ops: seq<Op>, part: Part): seq<int> {
    if ops == [] then []
    else
      var last := ops[|ops| - 1];
      AddedTo(ops[..|ops| - 1], part) + if last.Add? && last.part == part then last.xs else []
  }

  /** The last limit, offset and uniqueness that the calls set. */
  function LastLimit(ops: seq<Op>, before: Option<nat>): Option<nat> {
    if ops == [] then before
    else if ops[|ops| - 1].Limit? then Some(ops[|ops| - 1].n)
    else LastLimit(ops[..|ops| - 1], before)
  }

  function LastOffset(ops: seq<Op>, before: Option<nat>): Option<nat> {
    if ops == [] then before
    else if ops[|ops| - 1].Offset? then Some(ops[|ops| - 1].n)
    else LastOffset(ops[..|ops| - 1], before)
  }

  function LastUnique(ops: seq<Op>, before: Option<bool>): Option<bool> {
    if ops == [] then before
    else if ops[|ops| - 1].Unique? then Some(ops[|ops| - 1].b)
    else LastUnique(ops[..|ops| - 1], before)
  }

  /** Whether some call requests the edge, and the options of the last one that does. */
  predicate Requests(ops: seq<Op>, edge: string) {
    exists i :: 0 <= i < |ops| && ops[i].With? && ops[i].edge == edge
  }

  function LastOptions(ops: seq<Op>, edge: string): seq<Op> {
    if ops == [] then []
    else if ops[|ops| - 1].With? && ops[|ops| - 1].edge == edge then ops[|ops| - 1].opts
    else LastOptions(ops[..|ops| - 1], edge)
  }

  lemma RequestsSnoc(ops: seq<Op>, op: Op, edge: string)
    ensures Requests(ops + [op], edge) <==> Requests(ops, edge) || (op.With? && op.edge == edge)
  {
    var all := ops + [op];
    assert all[|ops|] == op && forall i :: 0 <= i < |ops| ==> all[i] == ops[i];
    if Requests(ops, edge) {
      var i :| 0 <= i < |ops| && ops[i].With? && ops[i].edge == edge;
      assert all[i].With? && all[i].edge == edge;
    }
  }

  /** For every builder and run of calls: the slices are extended by what was added, in order; limit,
      offset and uniqueness are the last ones set; each requested edge has a fresh child under the
      options of its last request, and the other children and the path are what they were. */
  lemma {:induction false} RunSettles(v: View, ops: seq<Op>, part: Part, edge: string)
    ensures var w := ApplyAll(v, ops);
            && w.settings.parts[part] == v.settings.parts[part] + AddedTo(ops, part)
            && w.settings.limit == LastLimit(ops, v.settings.limit)
            && w.settings.offset == LastOffset(ops, v.settings.offset)
            && w.settings.unique == LastUnique(ops, v.settings.unique)
            && w.settings.path == v.settings.path
            && (edge in w.children <==> edge in v.children || Requests(ops, edge))
            && (Requests(ops, edge) ==> w.children[edge] == ApplyAll(FRESH, LastOptions(ops, edge)))
            && (edge in v.children && !Requests(ops, edge) ==> w.children[edge] == v.children[edge])
  {
    if ops != [] {
      var front, last := ops[..|ops| - 1], ops[|ops| - 1];
      LastSnoc(ops);
      RunSettles(v, front, part, edge);
      RequestsSnoc(front, last, edge);
    }
  }

  /** A limit left on a builder changes nothing else about it; the builder answers the same rows as
      before if and only if it had that limit already, or its rows fit both limits. */
  lemma LimitLeftBehind<T>(v: View, n: nat, matching: seq<T>)
    ensures Apply(v, Limit(n)) == v.(settings := v.settings.(limit := Some(n)))
    ensures var rows := Page(matching, v.settings.offset, None);
            Answer(Apply(v, Limit(n)), matching) == Answer(v, matching)
            <==> v.settings.limit == Some(n)
                 || (|rows| <= n && (v.settings.limit.None? || |rows| <= v.settings.limit.value))
  {
    var rows := Page(matching, v.settings.offset, None);
    assert |Answer(Apply(v, Limit(n)), matching)| == if |rows| <= n then |rows| else n;
  }

  /** No builder of the tree carries a modifier, such as a row lock. */
  predicate NoModifiers(v: View) {
    v.settings.parts[MODIFIERS] == [] && forall e :: e in v.children ==> NoModifiers(v.children[e])
  }

  /** Whether or not it is equal, a clone has no modifiers and keeps everything else, its children
      being clones in turn. */
  lemma CloneKeepsTheRest(v: View, part: Part, edge: string)
    ensures Cloned(v).settings.parts[part] == if part == MODIFIERS then [] else v.settings.parts[part]
    ensures Cloned(v).settings.limit == v.settings.limit && Cloned(v).settings.offset == v.settings.offset
    ensures Cloned(v).settings.unique == v.settings.unique && Cloned(v).settings.path == v.settings.path
    ensures edge in Cloned(v).children <==> edge in v.children
    ensures edge in v.children ==> Cloned(v).children[edge] == Cloned(v.children[edge])
  {}

  /** A clone equals its original if and only if no builder of the tree carries a modifier. */
  lemma {:induction false} CloneIsExact(v: View)
    ensures Cloned(v) == v <==> NoModifiers(v)
  {
    forall e | e in v.children ensures Cloned(v.children[e]) == v.children[e] <==> NoModifiers(v.children[e]) {
      CloneIsExact(v.children[e]);
    }
    if Cloned(v) == v {
      forall e | e in v.children ensures NoModifiers(v.children[e]) {
        assert Cloned(v).children[e] == Cloned(v.children[e]);
      }
    }
    if NoModifiers(v) {
      assert Cloned(v).children == v.children;
    }
  }

  /** The fields of the builder struct other than its children: its slices, the paging kept in the
      query context, and the traversal path. */
  class Core {
    var slices: seq<Slice>
    var limit: Option<nat>
    var offset: Option<nat>
    var unique: Option<bool>
    var path: Option<int>

    ghost var Repr: set<object>

    ghost predicate Valid()
      reads this
    {
      this in Repr && |slices| == PARTS && Separate(slices, Repr)
    }

    ghost function Value(): Settings
      requires Valid()
      reads this, Repr
    {
      Settings(AllContents(slices), limit, offset, unique, path)
    }

    constructor (slices: seq<Slice>, ghost arrays: set<object>,
                 limit: Option<nat>, offset: Option<nat>, unique: Option<bool>, path: Option<int>)
      requires |slices| == PARTS && Separate(slices, arrays)
      ensures Valid() && Repr == {this} + arrays
      ensures Value() == Settings(AllContents(slices), limit, offset, unique, path)
    {
      this.slices, this.limit, this.offset, this.unique, this.path := slices, limit, offset, unique, path;
      Repr := {this} + arrays;
    }

    /** `Where`, `Order`, `Select`, `ForUpdate`, ...: append to one of the slices. */
    method AddTo(part: Part, xs: seq<int>)
      requires Valid()
      modifies this, slices[part].data
      ensures Valid() && fresh(Repr - old(Repr)) && old(Repr) <= Repr
      ensures Value() == Set(old(Value()), Add(part, xs))
    {
      ghost var before := AllContents(slices);
      ContentsOfEach(slices);
      var s := AppendAll(slices[part], xs);
      slices := slices[part := s];
      Repr := Repr + {s.data};
      ContentsOfEach(slices);
      assert AllContents(slices) == before[part := before[part] + xs];
    }

    /** Any call but `With`. */
    method Do(op: Op)
      requires Valid() && !op.With?
      modifies Repr
      ensures Valid() && fresh(Repr - old(Repr)) && old(Repr) <= Repr
      ensures Value() == Set(old(Value()), op)
    {
      match op {
        case Add(part, xs) => AddTo(part, xs);
        case Limit(n) => limit := Some(n);
        case Offset(n) => offset := Some(n);
        case Unique(b) => unique := Some(b);
      }
    }

    /** The struct literal of `Clone`: every slice is copied but the modifiers, which are left out. */
    method Copied() returns (c: Core)
      requires Valid()
      ensures fresh(c.Repr) && c.Valid()
      ensures c.Value() == WithoutModifiers(Value())
    {
      var copies;
      ghost var arrays;
      copies, arrays := CopyAllBut(slices, MODIFIERS);
      c := new Core(copies, arrays, limit, offset, unique, path);
    }
  }

  /** A builder with its eager-load children. */
  class Query {
    const core: Core
    var children: map<string, Query>
    ghost var below: set<object>
    ghost var Repr: set<object>

    /** Nothing is shared between the builder and its children. */
    ghost predicate Valid()
      reads this, Repr
      decreases Repr, 0
    {
      && core in Repr && core.Valid()
      && this in Repr && core.Repr <= Repr && below <= Repr
      && this !in core.Repr && this !in below && core.Repr !! below
      && Forest(children, below)
    }

    ghost function Value(): View
      requires Valid()
      reads this, Repr
      decreases Repr, 0
    {
      View(core.Value(), Views(children, below))
    }

    /** The struct literal of `Client.Query()` and of `Clone`. */
    constructor (core: Core, children: map<string, Query>, ghost below: set<object>)
      requires core.Valid() && Forest(children, below) && core.Repr !! below
      ensures Valid() && fresh(Repr - core.Repr - below)
      ensures Value() == View(core.Value(), Views(children, below))
    {
      this.core, this.children, this.below := core, children, below;
      Repr := {this} + core.Repr + below;
    }

    /** Any call but `With`: only objects of this builder itself are written. */
    method Do(op: Op)
      requires Valid() && !op.With?
      modifies this, core.Repr
      ensures Valid() && fresh(Repr - old(Repr)) && children == old(children) && below == old(below)
      ensures Value() == Apply(old(Value()), op)
    {
      core.Do(op);
      Repr := Repr + core.Repr;
    }

    /** `_q.withX = query`. A child set earlier for the same edge is dropped. */
    method Attach(edge: string, child: Query)
      requires Valid() && child.Valid() && child.Repr !! Repr
      modifies this
      ensures Valid() && Repr == old(Repr) + old(child.Repr)
      ensures Value() == View(old(Value()).settings, old(Value()).children[edge := old(child.Value())])
    {
      ghost var here, under, settings := children, below, core.Value();
      ghost var views, kid := Views(here, under), child.Value();
      children, below, Repr := children[edge := child], below + child.Repr, Repr + child.Repr;
      assert Forest(here, under) && Views(here, under) == views;
      assert child.Valid() && child.Value() == kid && core.Value() == settings;
      ForestAdd(here, under, edge, child);
    }

    /** `WithX(opts...)`: the callbacks configure a new child, which is then attached. */
    method AttachNew(edge: string, opts: seq<Op>)
      requires Valid()
      modifies this
      ensures Valid() && fresh(Repr - old(Repr))
      ensures Value() == View(old(Value()).settings, old(Value()).children[edge := ApplyAll(FRESH, opts)])
      decreases opts, 3
    {
      var child := Configured(opts);
      ghost var before, kid := Value(), child.Value();
      Attach(edge, child);
      assert Value() == View(before.settings, before.children[edge := kid]);
    }

    /** A new child after its option callbacks. */
    static method Configured(opts: seq<Op>) returns (child: Query)
      ensures child.Valid() && fresh(child.Repr) && child.Value() == ApplyAll(FRESH, opts)
      decreases opts, 2
    {
      child := NewQuery();
      child.Run(opts);
    }

    /** One builder call. */
    method Step(op: Op)
      requires Valid()
      modifies Repr
      ensures Valid() && fresh(Repr - old(Repr))
      ensures Value() == Apply(old(Value()), op)
      decreases op, 0
    {
      if op.With? {
        AttachNew(op.edge, op.opts);
      } else {
        Do(op);
      }
    }

    /** Any sequence of builder calls. */
    method Run(ops: seq<Op>)
      requires Valid()
      modifies Repr
      ensures Valid() && fresh(Repr - old(Repr))
      ensures Value() == ApplyAll(old(Value()), ops)
      decreases ops, 1
    {
      for i := 0 to |ops|
        invariant Valid() && fresh(Repr - old(Repr))
        invariant Value() == ApplyAll(old(Value()), ops[..i])
      {
        Step(ops[i]);
        ApplyAllSnoc(old(Value()), ops[..i], ops[i]);
        PrefixSnoc(ops, i);
      }
      assert ops[..|ops|] == ops;
    }

    // ---- calls that run the query; `matching` are the rows its predicates select, in order

    /** `All`. */
    method All<T>(matching: seq<T>) returns (rows: seq<T>)
      requires Valid()
      ensures rows == Answer(Value(), matching)
    {
      rows := Page(matching, core.offset, core.limit);
    }

    /** `Only`: the one matching row. It overwrites the limit of the builder with 2. */
    method Only<T>(matching: seq<T>) returns (r: Result<T, OnlyError>)
      requires Valid()
      modifies Repr
      ensures Valid() && Value() == Apply(old(Value()), Limit(2))
      ensures var rows := Page(matching, old(Value()).settings.offset, None);
              r == if |rows| == 1 then Ok(rows[0]) else Err(if rows == [] then NotFound else NotSingular)
    {
      Step(Limit(2));
      var nodes := All(matching);
      if |nodes| == 1 {
        r := Ok(nodes[0]);
      } else if |nodes| == 0 {
        r := Err(NotFound);
      } else {
        r := Err(NotSingular);
      }
    }

    /** `First`: the first matching row. It overwrites the limit of the builder with 1. */
    method First<T>(matching: seq<T>) returns (r: Result<T, OnlyError>)
      requires Valid()
      modifies Repr
      ensures Valid() && Value() == Apply(old(Value()), Limit(1))
      ensures var rows := Page(matching, old(Value()).settings.offset, None);
              r == if rows == [] then Err(NotFound) else Ok(rows[0])
    {
      Step(Limit(1));
      var nodes := All(matching);
      if |nodes| == 0 {
        r := Err(NotFound);
      } else {
        r := Ok(nodes[0]);
      }
    }

    /** `First`, and then `All` on the same builder: exactly when that still answers all rows. */
    method FirstThenAll<T>(matching: seq<T>) returns (first: Result<T, OnlyError>, rows: seq<T>)
      requires Valid()
      modifies Repr
      ensures Valid() && Value() == Apply(old(Value()), Limit(1))
      ensures var before, all := old(Value()).settings, Page(matching, old(Value()).settings.offset, None);
              rows == Page(matching, before.offset, before.limit)
              <==> before.limit == Some(1) || (|all| <= 1 && (before.limit.None? || |all| <= before.limit.value))
    {
      LimitLeftBehind(Value(), 1, matching);
      first := First(matching);
      rows := All(matching);
    }

    /** `Clone`: an equal tree, modifiers aside, in which every object is new. */
    method Clone() returns (c: Query)
      requires Valid()
      ensures c.Valid() && fresh(c.Repr)
      ensures c.Value() == Cloned(old(Value()))
      decreases Repr, 2
    {
      ClonedByParts(Value());
      var copied := core.Copied();
      var clones;
      ghost var copies;
      clones, copies := CloneChildren();
      c := new Query(copied, clones, copies);
    }

    /** The `withX: _q.withX.Clone()` fields of the struct literal. */
    method CloneChildren() returns (clones: map<string, Query>, ghost copies: set<object>)
      requires Valid()
      ensures Forest(clones, copies) && fresh(copies)
      ensures Views(clones, copies) == ClonedAll(old(Value()).children, old(Value()).children.Keys)
      decreases Repr, 1
    {
      clones, copies := CloneForest(children, below, children.Keys);
    }
  }

  ghost function ClonedAll(views: map<string, View>, edges: set<string>): map<string, View> {
    map e | e in views && e in edges :: Cloned(views[e])
  }

  lemma ClonedAllAdd(views: map<string, View>, edges: set<string>, e: string)
    requires e in edges && e in views
    ensures ClonedAll(views, edges - {e})[e := Cloned(views[e])] == ClonedAll(views, edges)
  {}

  lemma ClonedByParts(v: View)
    ensures Cloned(v) == View(WithoutModifiers(v.settings), ClonedAll(v.children, v.children.Keys))
  {}

  method CloneOne(children: map<string, Query>, ghost objects: set<object>, e: string) returns (child: Query)
    requires Forest(children, objects) && e in children
    ensures child.Valid() && forall o :: o in child.Repr ==> fresh(o)
    ensures child.Value() == Cloned(old(Views(children, objects))[e])
    decreases objects, 3
  {
    child := children[e].Clone();
  }

  /** Clone the child at `e` and add it to the clones made so far. */
  method AddClone(children: map<string, Query>, ghost objects: set<object>, e: string,
                  clones: map<string, Query>, ghost copies: set<object>)
    returns (clones': map<string, Query>, ghost copies': set<object>)
    requires Forest(children, objects) && e in children && Forest(clones, copies)
    ensures Forest(clones', copies') && forall o :: o in copies' ==> o in copies || fresh(o)
    ensures Views(clones', copies') == old(Views(clones, copies))[e := Cloned(old(Views(children, objects))[e])]
    decreases objects, 4
  {
    var child := CloneOne(children, objects, e);
    ForestAdd(clones, copies, e, child);
    clones' := clones[e := child];
    copies' := copies + child.Repr;
  }

  /** The children of the struct literal of `Clone`, in no particular order. */
  method CloneForest(children: map<string, Query>, ghost objects: set<object>, edges: set<string>)
    returns (clones: map<string, Query>, ghost copies: set<object>)
    requires Forest(children, objects) && edges <= children.Keys
    ensures Forest(clones, copies) && forall o :: o in copies ==> fresh(o)
    ensures Views(clones, copies) == ClonedAll(old(Views(children, objects)), edges)
    decreases objects, 5, edges
  {
    if edges == {} {
      clones, copies := map[], {};
    } else {
      var e :| e in edges;
      ClonedAllAdd(Views(children, objects), edges, e);
      clones, copies := CloneForest(children, objects, edges - {e});
      clones, copies := AddClone(children, objects, e, clones, copies);
    }
  }

  // ------------------------------------------------ independence of a clone

  /** The calls of a schedule that go to the original (`true`) or to the clone (`false`). */
  function CallsTo(schedule: seq<(bool, Op)>, original: bool): seq<Op> {
    if schedule == [] then []
    else
      CallsTo(schedule[..|schedule| - 1], original)
      + (if schedule[|schedule| - 1].0 == original then [schedule[|schedule| - 1].1] else [])
  }

  /** The value of one builder after its share of the schedule. */
  function After(v: View, schedule: seq<(bool, Op)>, original: bool): View {
    ApplyAll(v, CallsTo(schedule, original))
  }

  lemma AfterSnoc(v: View, schedule: seq<(bool, Op)>, original: bool)
    requires schedule != []
    ensures var (side, op) := schedule[|schedule| - 1];
            After(v, schedule, original)
            == if side == original then Apply(After(v, schedule[..|schedule| - 1], original), op)
               else After(v, schedule[..|schedule| - 1], original)
  {
    var front, last := schedule[..|schedule| - 1], schedule[|schedule| - 1];
    if last.0 == original {
      ApplyAllSnoc(v, CallsTo(front, original), last.1);
    } else {
      assert CallsTo(schedule, original) == CallsTo(front, original);
    }
  }

  /** A call on one of two disjoint builders. */
  method StepApart(q: Query, other: Query, op: Op)
    requires q.Valid() && other.Valid() && q.Repr !! other.Repr
    modifies q.Repr
    ensures q.Valid() && q.Value() == Apply(old(q.Value()), op)
    ensures forall o :: o in q.Repr ==> o in old(q.Repr) || fresh(o)
    ensures other.Valid() && other.Repr == old(other.Repr) && other.Value() == old(other.Value())
    ensures q.Repr !! other.Repr
  {
    q.Step(op);
  }

  /** The next call of the schedule, on one of the two builders. */
  method StepEither(q: Query, c: Query, original: bool, op: Op, ghost v: View, ghost w: View)
    requires q.Valid() && c.Valid() && q.Repr !! c.Repr
    requires q.Value() == v && c.Value() == w
    modifies if original then q.Repr else c.Repr
    ensures q.Valid() && c.Valid() && q.Repr !! c.Repr
    ensures forall o :: o in q.Repr ==> o in old(q.Repr) || fresh(o)
    ensures forall o :: o in c.Repr ==> o in old(c.Repr) || fresh(o)
    ensures q.Value() == if original then Apply(v, op) else v
    ensures c.Value() == if original then w else Apply(w, op)
  {
    if original {
      StepApart(q, c, op);
    } else {
      StepApart(c, q, op);
    }
  }

  /** Calls on two disjoint builders, in the order of the schedule. */
  method Interleave(q: Query, c: Query, schedule: seq<(bool, Op)>, ghost v: View, ghost w: View)
    requires q.Valid() && c.Valid() && q.Repr !! c.Repr
    requires q.Value() == v && c.Value() == w
    modifies q.Repr, c.Repr
    ensures q.Valid() && c.Valid() && q.Repr !! c.Repr
    ensures forall o :: o in q.Repr ==> o in old(q.Repr) || fresh(o)
    ensures forall o :: o in c.Repr ==> o in old(c.Repr) || fresh(o)
    ensures q.Value() == After(v, schedule, true)
    ensures c.Value() == After(w, schedule, false)
  {
    if schedule != [] {
      var front, last := schedule[..|schedule| - 1], schedule[|schedule| - 1];
      Interleave(q, c, front, v, w);
      AfterSnoc(v, schedule, true);
      AfterSnoc(w, schedule, false);
      StepEither(q, c, last.0, last.1, After(v, front, true), After(w, front, false));
    }
  }

  /** Whatever calls are made on a builder and on its clone, in whatever order, each of the two
      ends in the value it would have had if the other one had never been touched. */
  method CloneThenInterleave(q: Query, schedule: seq<(bool, Op)>) returns (c: Query)
    requires q.Valid()
    modifies q.Repr
    ensures q.Valid() && c.Valid() && q.Repr !! c.Repr
    ensures q.Value() == After(old(q.Value()), schedule, true)
    ensures c.Value() == After(Cloned(old(q.Value())), schedule, false)
  {
    ghost var v := q.Value();
    c := q.Clone();
    Interleave(q, c, schedule, v, Cloned(v));
  }

  lemma ApplyAllSnoc(v: View, ops: seq<Op>, op: Op)
    ensures ApplyAll(v, ops + [op]) == Apply(ApplyAll(v, ops), op)
  {
    assert (ops + [op])[..|ops|] == ops;
  }

  method NewCore() returns (core: Core)
    ensures core.Valid() && fresh(core.Repr) && core.Value() == FRESH.settings
  {
    var empty;
    ghost var arrays;
    empty, arrays := EmptySlices(PARTS);
    core := new Core(empty, arrays, None, None, None, None);
  }

  /** `Client.Query()`. */
  method NewQuery() returns (q: Query)
    ensures q.Valid() && fresh(q.Repr) && q.Value() == FRESH
  {
    var core := NewCore();
    q := new Query(core, map[], {});
  }

  /** Valid builders that live within `objects`. */
  ghost predicate Forest(children: map<string, Query>, objects: set<object>)
    reads objects
    decreases objects, 1
  {
    forall e :: e in children ==> children[e] in objects && children[e].Repr <= objects && children[e].Valid()
  }

  ghost function Views(children: map<string, Query>, objects: set<object>): map<string, View>
    requires Forest(children, objects)
    reads objects
    decreases objects, 1
  {
    map e | e in children :: children[e].Value()
  }

  /** A forest grows by a tree, which replaces the one at its edge. */
  lemma ForestAdd(children: map<string, Query>, objects: set<object>, edge: string, child: Query)
    requires Forest(children, objects) && child.Valid()
    ensures Forest(children[edge := child], objects + child.Repr)
    ensures Views(children[edge := child], objects + child.Repr) == Views(children, objects)[edge := child.Value()]
  {
    var grown, all := children[edge := child], objects + child.Repr;
    forall e | e in grown ensures grown[e] in all && grown[e].Repr <= all && grown[e].Valid() {
      assert e == edge || e in children;
    }
  }
}
