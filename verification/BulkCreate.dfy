/** Bulk creation: one chain of mutators with a single batch write at its end
    (`AccountCreateBulk.Save`, backend/ent/account_create.go). */
module BulkCreate {
  import opened Prelude
  import opened AccountSchema
  import opened AccountCodec
  import opened AccountCreate

  type Error = string

  /** A hook that hands the same mutation on at most once: before calling the next mutator it may
      edit the mutation and may veto; afterwards it answers with what it makes of the result. */
  datatype Hook = Hook(edit: Creation -> Creation, veto: Creation -> Option<Error>, answer: Option<Error> -> Option<Error>)

  /** `mutators[i]`, with its closures spelled out: the core of builder `i` inside its hooks. */
  datatype Mutator = Core(i: nat) | Wrap(k: nat, hook: Hook, inner: Mutator) {
    function Index(): nat {
      match this
      case Core(i) => i
      case Wrap(_, _, inner) => inner.Index()
    }
  }

  /** The answer of `BatchCreate`: an error, or the ids it assigned (an id may stay unknown). */
  datatype Answer = Failed(error: Error) | Assigned(ids: seq<Option<int>>)

  datatype Event = Enter(i: nat, k: nat) | Exit(i: nat, k: nat) | Checked(i: nat) | Wrote

  /** What the save is given: each builder's hooks, the runtime defaults, the checks, and the store. */
  datatype Env = Env(hooks: seq<seq<Hook>>, given: map<Column, Scalar>, check: Creation -> Option<Error>, store: seq<Option<CreateSpec>> -> Answer)

  /** The state of a save: each builder's mutation, the slices that the closures share, which
      mutations are marked done (and so carry an id), the batch writes, and the event log. */
  datatype State = State(muts: seq<Creation>, specs: seq<Option<CreateSpec>>, nodes: seq<Option<Fields>>, ids: seq<int>,
                         done: seq<bool>, batches: seq<seq<Option<CreateSpec>>>, trace: seq<Event>)

  predicate Sized(s: State, n: nat) {
    |s.muts| == |s.specs| == |s.nodes| == |s.ids| == |s.done| == n
  }

  /** The mutators are used in their own env. */
  predicate Fits(env: Env, m: Mutator) {
    m.Index() < |env.hooks|
  }

  /** Hook 0 ends up outermost. */
  function WithHooks(hooks: seq<Hook>, k: nat, core: Mutator): (m: Mutator)
    requires k <= |hooks|
    ensures m.Index() == core.Index()
    decreases |hooks| - k
  {
    if k == |hooks| then core else Wrap(k, hooks[k], WithHooks(hooks, k + 1, core))
  }

  function MutatorOf(env: Env, i: nat): (m: Mutator)
    requires i < |env.hooks|
    ensures Fits(env, m) && m.Index() == i
  {
    WithHooks(env.hooks[i], 0, Core(i))
  }

  /** `for i := len(hooks) - 1; i >= 0; i-- { mut = hooks[i](mut) }`. */
  method WrapAll(hooks: seq<Hook>, core: Mutator) returns (mut: Mutator)
    ensures mut == WithHooks(hooks, 0, core) && mut.Index() == core.Index()
  {
    mut := core;
    for k := |hooks| downto 0
      invariant mut == WithHooks(hooks, k, core)
    {
      mut := Wrap(k, hooks[k], mut);
    }
  }

  function IdAssigned(a: Answer, i: nat): int {
    if a.Assigned? && i < |a.ids| && a.ids[i].Some? then a.ids[i].value else 0
  }

  function Log(s: State, e: Event): State {
    s.(trace := s.trace + [e])
  }

  /** The batch write at the end of the chain. */
  function Write(env: Env, s: State): (State, Option<Error>) {
    var s' := Log(s, Wrote).(batches := s.batches + [s.specs]);
    match env.store(s.specs)
    case Failed(e) => (s', Some(e))
    case Assigned(_) => (s', None)
  }

  /** `mutation.id = &nodes[i].ID`, the id of the node, and `mutation.done = true`. */
  function Finish(env: Env, s: State, i: nat): State
    requires i < |s.done| == |s.ids|
  {
    s.(done := s.done[i := true], ids := s.ids[i := IdAssigned(env.store(s.specs), i)])
  }

  /** Entering hook `k` of builder `i`, up to its edit of the mutation. */
  function EnterHook(s: State, i: nat, k: nat, hook: Hook): State
    requires i < |s.muts|
  {
    s.(trace := s.trace + [Enter(i, k)], muts := s.muts[i := hook.edit(s.muts[i])])
  }

  /** `nodes[i], specs[i] = builder.createSpec()`, after a passed check. */
  function BuildSpec(s: State, i: nat): State
    requires i < |s.muts| && |s.muts| == |s.specs| == |s.nodes|
  {
    s.(trace := s.trace + [Checked(i)], specs := s.specs[i := Some(CreatedSpec(s.muts[i]))],
       nodes := s.nodes[i := Some(CreatedNode(s.muts[i]))])
  }

  /** What a mutator does: the nested closures of `Save`. */
  function Run(env: Env, m: Mutator, s: State): (r: (State, Option<Error>))
    requires Fits(env, m) && Sized(s, |env.hooks|)
    ensures Sized(r.0, |env.hooks|)
    decreases |env.hooks| - m.Index(), m
  {
    var i := m.Index();
    match m
    case Wrap(k, hook, inner) =>
      var s1 := EnterHook(s, i, k, hook);
      (match hook.veto(s1.muts[i])
       case Some(e) => (Log(s1, Exit(i, k)), Some(e))
       case None =>
         var (s2, e) := Run(env, inner, s1);
         (Log(s2, Exit(i, k)), hook.answer(e)))
    case Core(_) =>
      match env.check(s.muts[i])
      case Some(e) => (s, Some(e))
      case None =>
        var s1 := BuildSpec(s, i);
        var (s2, e) := if i + 1 < |env.hooks| then Run(env, MutatorOf(env, i + 1), s1) else Write(env, s1);
        if e.Some? then (s2, e) else (Finish(env, s2, i), None)
  }

  /** `builder.defaults()`, whose error the bulk builder ignores. */
  function WithDefaults(env: Env, m: Creation): Creation {
    m.(values := Defaulted(m.values, env.given, DEFAULTED).0)
  }

  function AllWithDefaults(env: Env, muts: seq<Creation>): (r: seq<Creation>)
    ensures |r| == |muts|
  {
    seq(|muts|, i requires 0 <= i < |muts| => WithDefaults(env, muts[i]))
  }

  /** The whole save. */
  function Start(muts: seq<Creation>): State {
    State(muts, seq(|muts|, _ => None), seq(|muts|, _ => None), seq(|muts|, _ => 0), seq(|muts|, _ => false), [], [])
  }

  function Saved(env: Env, muts: seq<Creation>): (State, Option<Error>)
    requires |muts| == |env.hooks|
  {
    var start := Start(AllWithDefaults(env, muts));
    if |muts| == 0 then (start, None) else Run(env, MutatorOf(env, 0), start)
  }

  // ------------------------------------------------ the save on its objects

  class BulkSave {
    const env: Env
    var muts: seq<Creation>
    var specs: seq<Option<CreateSpec>>
    var nodes: seq<Option<Fields>>
    var ids: seq<int>
    var done: seq<bool>
    var mutators: seq<Mutator>
    ghost var batches: seq<seq<Option<CreateSpec>>>
    ghost var trace: seq<Event>

    constructor (env: Env, muts: seq<Creation>)
      ensures this.env == env && this.muts == muts
    {
      this.env, this.muts := env, muts;
      specs, nodes, ids, done, mutators, batches, trace := [], [], [], [], [], [], [];
    }

    ghost function Value(): State
      reads this
    {
      State(muts, specs, nodes, ids, done, batches, trace)
    }

    /** The chain has been built. */
    ghost predicate Chained()
      reads this
    {
      |mutators| == |env.hooks| && forall i :: 0 <= i < |mutators| ==> mutators[i] == MutatorOf(env, i)
    }

    /** The batch write and its answer. */
    method BatchCreate() returns (err: Option<Error>)
      requires Sized(Value(), |env.hooks|)
      modifies this`batches, this`trace
      ensures (Value(), err) == Write(env, old(Value())) && Sized(Value(), |env.hooks|)
    {
      batches := batches + [specs];
      trace := trace + [Wrote];
      match env.store(specs) {
        case Failed(e) => err := Some(e);
        case Assigned(_) => err := None;
      }
    }

    /** `mutators[i].Mutate(...)`. */
    method Mutate(m: Mutator) returns (err: Option<Error>)
      requires Fits(env, m) && Sized(Value(), |env.hooks|) && Chained()
      modifies this
      ensures Chained() && Sized(Value(), |env.hooks|)
      ensures (Value(), err) == Run(env, m, old(Value()))
      decreases |env.hooks| - m.Index(), m, 1
    {
      match m {
        case Wrap(k, hook, inner) =>
          var i := m.Index();
          trace := trace + [Enter(i, k)];
          muts := muts[i := hook.edit(muts[i])];
          match hook.veto(muts[i]) {
            case Some(e) =>
              trace := trace + [Exit(i, k)];
              return Some(e);
            case None =>
              err := Mutate(inner);
              trace := trace + [Exit(i, k)];
              err := hook.answer(err);
          }
        case Core(i) =>
          err := MutateCore(i);
      }
    }

    /** The innermost closure: check, build, go on to the next builder or write, and finish. */
    method MutateCore(i: nat) returns (err: Option<Error>)
      requires i < |env.hooks| && Sized(Value(), |env.hooks|) && Chained()
      modifies this
      ensures Chained() && Sized(Value(), |env.hooks|)
      ensures (Value(), err) == Run(env, Core(i), old(Value()))
      decreases |env.hooks| - i, Core(i), 0
    {
      match env.check(muts[i]) {
        case Some(e) =>
          return Some(e);
        case None =>
          Build(i);
          if i + 1 < |env.hooks| {
            err := Mutate(mutators[i + 1]);
          } else {
            err := BatchCreate();
          }
          if err == None {
            Complete(i);
          }
      }
    }

    /** `nodes[i], specs[i] = builder.createSpec()`. */
    method Build(i: nat)
      requires i < |env.hooks| && Sized(Value(), |env.hooks|)
      modifies this`trace, this`nodes, this`specs
      ensures Value() == BuildSpec(old(Value()), i) && Sized(Value(), |env.hooks|)
    {
      trace := trace + [Checked(i)];
      var node, spec := CreatedNode(muts[i]), CreatedSpec(muts[i]);
      nodes, specs := nodes[i := Some(node)], specs[i := Some(spec)];
    }

    /** The id the store assigned, and the mark of a finished mutation. */
    method Complete(i: nat)
      requires i < |env.hooks| && Sized(Value(), |env.hooks|)
      modifies this`ids, this`done
      ensures Value() == Finish(env, old(Value()), i) && Sized(Value(), |env.hooks|)
    {
      ids := ids[i := IdAssigned(env.store(specs), i)];
      done := done[i := true];
    }

    /** The first loop of `Save`: defaults, and one mutator for each builder. */
    method Prepare()
      requires |muts| == |env.hooks|
      modifies this
      ensures Chained()
      ensures Value() == Start(AllWithDefaults(env, old(muts)))
    {
      ghost var given := muts;
      specs, nodes, ids := seq(|muts|, _ => None), seq(|muts|, _ => None), seq(|muts|, _ => 0);
      done, mutators, batches, trace := seq(|muts|, _ => false), [], [], [];
      for i := 0 to |muts|
        invariant |muts| == |env.hooks| == |given|
        invariant forall j :: 0 <= j < |muts| ==> muts[j] == if j < i then WithDefaults(env, given[j]) else given[j]
        invariant |mutators| == i && forall j :: 0 <= j < i ==> mutators[j] == MutatorOf(env, j)
        invariant Value() == Start(given).(muts := muts)
      {
        muts := muts[i := WithDefaults(env, muts[i])];
        var mut := WrapAll(env.hooks[i], Core(i));
        mutators := mutators + [mut];
      }
      assert muts == AllWithDefaults(env, given);
    }

    /** `Save`. */
    method Save() returns (err: Option<Error>)
      requires |muts| == |env.hooks|
      modifies this
      ensures (Value(), err) == Saved(env, old(muts))
    {
      Prepare();
      if |mutators| > 0 {
        err := Mutate(mutators[0]);
      } else {
        err := None;
      }
    }
  }
}
