/** What a bulk save guarantees, for every list of builders and hooks
    (`AccountCreateBulk.Save`, backend/ent/account_create.go). */
module BulkCreateTheorems {
  import opened Prelude
  import opened AccountSchema
  import opened AccountCodec
  import opened AccountCreate
  import opened BulkCreate

  /** The run of builder `i` from its hook `k` inwards. */
  function RunFrom(env: Env, i: nat, k: nat, s: State): (r: (State, Option<Error>))
    requires i < |env.hooks| && k <= |env.hooks[i]| && Sized(s, |env.hooks|)
    ensures Sized(r.0, |env.hooks|)
  {
    Run(env, WithHooks(env.hooks[i], k, Core(i)), s)
  }

  lemma RunFromHook(env: Env, i: nat, k: nat, s: State)
    requires i < |env.hooks| && k < |env.hooks[i]| && Sized(s, |env.hooks|)
    ensures var hook := env.hooks[i][k];
            var s1 := EnterHook(s, i, k, hook);
            RunFrom(env, i, k, s)
            == if hook.veto(s1.muts[i]).Some? then (Log(s1, Exit(i, k)), hook.veto(s1.muts[i]))
               else (Log(RunFrom(env, i, k + 1, s1).0, Exit(i, k)), hook.answer(RunFrom(env, i, k + 1, s1).1))
  {
    assert WithHooks(env.hooks[i], k, Core(i)) == Wrap(k, env.hooks[i][k], WithHooks(env.hooks[i], k + 1, Core(i)));
  }

  lemma RunFromCore(env: Env, i: nat, s: State)
    requires i < |env.hooks| && Sized(s, |env.hooks|)
    ensures RunFrom(env, i, |env.hooks[i]|, s)
            == if env.check(s.muts[i]).Some? then (s, env.check(s.muts[i]))
               else
                 var s1 := BuildSpec(s, i);
                 var r := if i + 1 < |env.hooks| then RunFrom(env, i + 1, 0, s1) else Write(env, s1);
                 if r.1.Some? then r else (Finish(env, r.0, i), None)
  {}

  // ------------------------------------------------ at most one batch write, of everything

  /** The core of builder `j` ran: its mutation passed the check, and its spec and node stand. */
  predicate Ready(env: Env, s: State, j: nat)
    requires j < |env.hooks| && Sized(s, |env.hooks|)
  {
    && env.check(s.muts[j]) == None
    && s.specs[j] == Some(CreatedSpec(s.muts[j])) && s.nodes[j] == Some(CreatedNode(s.muts[j]))
  }

  predicate AllReady(env: Env, s: State, n: nat)
    requires n <= |env.hooks| && Sized(s, |env.hooks|)
  {
    forall j :: 0 <= j < n ==> Ready(env, s, j)
  }

  lemma EnterKeepsReady(env: Env, s: State, i: nat, k: nat, hook: Hook)
    requires i < |env.hooks| && Sized(s, |env.hooks|) && AllReady(env, s, i)
    ensures AllReady(env, EnterHook(s, i, k, hook), i)
  {
    forall j | 0 <= j < i ensures Ready(env, EnterHook(s, i, k, hook), j) {
      assert Ready(env, s, j);
    }
  }

  lemma BuildMakesReady(env: Env, s: State, i: nat)
    requires i < |env.hooks| && Sized(s, |env.hooks|) && AllReady(env, s, i) && env.check(s.muts[i]) == None
    ensures AllReady(env, BuildSpec(s, i), i + 1)
  {
    forall j | 0 <= j < i ensures Ready(env, BuildSpec(s, i), j) {
      assert Ready(env, s, j);
    }
  }

  lemma ReadyIgnoresRest(env: Env, s: State, t: State, n: nat)
    requires n <= |env.hooks| && Sized(s, |env.hooks|) && Sized(t, |env.hooks|)
    requires s.muts == t.muts && s.specs == t.specs && s.nodes == t.nodes && AllReady(env, s, n)
    ensures AllReady(env, t, n)
  {
    forall j | 0 <= j < n ensures Ready(env, t, j) {
      assert Ready(env, s, j);
    }
  }

  /** Whatever the hooks do, the batch write happens at most once, and only when every builder is
      ready; it writes the specs of the final mutations, in builder order. */
  lemma {:induction false} WritesOnceWhenReady(env: Env, i: nat, k: nat, s: State)
    requires i < |env.hooks| && k <= |env.hooks[i]| && Sized(s, |env.hooks|)
    requires s.batches == [] && AllReady(env, s, i)
    ensures var t := RunFrom(env, i, k, s).0;
            t.batches == [] || (t.batches == [t.specs] && AllReady(env, t, |env.hooks|))
    decreases |env.hooks| - i, |env.hooks[i]| - k
  {
    if k < |env.hooks[i]| {
      RunFromHook(env, i, k, s);
      var s1 := EnterHook(s, i, k, env.hooks[i][k]);
      EnterKeepsReady(env, s, i, k, env.hooks[i][k]);
      WritesOnceWhenReady(env, i, k + 1, s1);
      var t := RunFrom(env, i, k + 1, s1).0;
      if t.batches != [] {
        ReadyIgnoresRest(env, t, Log(t, Exit(i, k)), |env.hooks|);
      }
    } else if env.check(s.muts[i]).None? {
      RunFromCore(env, i, s);
      var s1 := BuildSpec(s, i);
      BuildMakesReady(env, s, i);
      if i + 1 < |env.hooks| {
        WritesOnceWhenReady(env, i + 1, 0, s1);
        var t := RunFrom(env, i + 1, 0, s1).0;
        if t.batches != [] {
          ReadyIgnoresRest(env, t, Finish(env, t, i), |env.hooks|);
        }
      } else {
        ReadyIgnoresRest(env, s1, Write(env, s1).0, |env.hooks|);
        ReadyIgnoresRest(env, s1, Finish(env, Write(env, s1).0, i), |env.hooks|);
      }
    } else {
      RunFromCore(env, i, s);
    }
  }

  // ------------------------------------------------ all or nothing

  /** The batch was written and the store accepted it. */
  predicate Stored(env: Env, s: State) {
    |s.batches| == 1 && env.store(s.batches[0]).Assigned?
  }

  /** No hook turns an error into success. */
  ghost predicate NoSwallowing(env: Env) {
    forall i, k, e :: 0 <= i < |env.hooks| && 0 <= k < |env.hooks[i]| ==> env.hooks[i][k].answer(Some(e)).Some?
  }

  /** No hook turns success into an error. */
  ghost predicate NoOverturning(env: Env) {
    forall i, k :: 0 <= i < |env.hooks| && 0 <= k < |env.hooks[i]| ==> env.hooks[i][k].answer(None) == None
  }

  /** Success, and the mark `done` on builder `j`, each mean that the rows are stored. */
  predicate MeansStored(env: Env, j: nat, t: State, e: Option<Error>)
    requires j < |t.done|
  {
    (e == None || t.done[j]) ==> Stored(env, t)
  }

  lemma HookMeansStored(env: Env, i: nat, k: nat, s: State, j: nat)
    requires i < |env.hooks| && k < |env.hooks[i]| && Sized(s, |env.hooks|) && j < |env.hooks|
    requires NoSwallowing(env) && !s.done[j]
    requires var inner := RunFrom(env, i, k + 1, EnterHook(s, i, k, env.hooks[i][k])); MeansStored(env, j, inner.0, inner.1)
    ensures MeansStored(env, j, RunFrom(env, i, k, s).0, RunFrom(env, i, k, s).1)
  {
    RunFromHook(env, i, k, s);
    var e := RunFrom(env, i, k + 1, EnterHook(s, i, k, env.hooks[i][k])).1;
    assert e.Some? ==> env.hooks[i][k].answer(Some(e.value)).Some?;
  }

  lemma CoreMeansStored(env: Env, i: nat, s: State, j: nat)
    requires i < |env.hooks| && Sized(s, |env.hooks|) && j < |env.hooks| && s.batches == [] && !s.done[j]
    requires i + 1 < |env.hooks| ==>
               var inner := RunFrom(env, i + 1, 0, BuildSpec(s, i)); MeansStored(env, j, inner.0, inner.1)
    ensures MeansStored(env, j, RunFrom(env, i, |env.hooks[i]|, s).0, RunFrom(env, i, |env.hooks[i]|, s).1)
  {
    RunFromCore(env, i, s);
  }

  /** If no hook swallows errors, then success, and every mark `done`, mean that the rows are stored. */
  lemma {:induction false} SuccessMeansStored(env: Env, i: nat, k: nat, s: State, j: nat)
    requires i < |env.hooks| && k <= |env.hooks[i]| && Sized(s, |env.hooks|)
    requires NoSwallowing(env) && s.batches == [] && j < |env.hooks| && !s.done[j]
    ensures MeansStored(env, j, RunFrom(env, i, k, s).0, RunFrom(env, i, k, s).1)
    decreases |env.hooks| - i, |env.hooks[i]| - k
  {
    if k < |env.hooks[i]| {
      SuccessMeansStored(env, i, k + 1, EnterHook(s, i, k, env.hooks[i][k]), j);
      HookMeansStored(env, i, k, s, j);
    } else {
      if i + 1 < |env.hooks| {
        SuccessMeansStored(env, i + 1, 0, BuildSpec(s, i), j);
      }
      CoreMeansStored(env, i, s, j);
    }
  }

  /** The node of builder `j` carries the id that the store assigned to the spec of builder `j`, or
      none if the store left that id unknown. */
  predicate CarriesItsId(env: Env, t: State, j: nat)
    requires j < |t.ids|
  {
    && env.store(t.specs).Assigned?
    && var ids := env.store(t.specs).ids;
       if j < |ids| && ids[j].Some? then t.ids[j] == ids[j].value else t.ids[j] == 0
  }

  lemma {:induction false} StoredMeansFinished(env: Env, i: nat, k: nat, s: State)
    requires i < |env.hooks| && k <= |env.hooks[i]| && Sized(s, |env.hooks|)
    requires NoOverturning(env) && s.batches == [] && AllReady(env, s, i)
    ensures var (t, e) := RunFrom(env, i, k, s);
            Stored(env, t) ==>
              && e == None
              && forall j :: i <= j < |env.hooks| ==> t.done[j] && t.ids[j] == IdAssigned(env.store(t.specs), j)
    decreases |env.hooks| - i, |env.hooks[i]| - k
  {
    if k < |env.hooks[i]| {
      RunFromHook(env, i, k, s);
      EnterKeepsReady(env, s, i, k, env.hooks[i][k]);
      StoredMeansFinished(env, i, k + 1, EnterHook(s, i, k, env.hooks[i][k]));
      assert env.hooks[i][k].answer(None) == None;
    } else {
      RunFromCore(env, i, s);
      if env.check(s.muts[i]).None? && i + 1 < |env.hooks| {
        BuildMakesReady(env, s, i);
        StoredMeansFinished(env, i + 1, 0, BuildSpec(s, i));
      }
    }
  }

  lemma IdsAreTheirOwn(env: Env, t: State, j: nat)
    requires j < |t.ids| && t.ids[j] == IdAssigned(env.store(t.specs), j) && env.store(t.specs).Assigned?
    ensures CarriesItsId(env, t, j)
  {}

  /** If no hook overturns success, then stored rows mean success: every mutation from here on is
      marked done and its node carries the id the store assigned to its spec. */
  lemma StoredMeansSuccess(env: Env, i: nat, k: nat, s: State)
    requires i < |env.hooks| && k <= |env.hooks[i]| && Sized(s, |env.hooks|)
    requires NoOverturning(env) && s.batches == [] && AllReady(env, s, i)
    ensures var (t, e) := RunFrom(env, i, k, s);
            Stored(env, t) ==>
              && e == None
              && forall j :: i <= j < |env.hooks| ==> t.done[j] && CarriesItsId(env, t, j)
  {
    StoredMeansFinished(env, i, k, s);
    WritesOnceWhenReady(env, i, k, s);
    var t := RunFrom(env, i, k, s).0;
    if Stored(env, t) {
      forall j | i <= j < |env.hooks| ensures CarriesItsId(env, t, j) {
        IdsAreTheirOwn(env, t, j);
      }
    }
  }

  // ------------------------------------------------ hooks nest

  /** The hooks that are open while hook `k` of builder `i` is about to be entered: all hooks of the
      builders before, outermost first, then the hooks of this builder before `k`. */
  function OpenHooks(env: Env, i: nat, k: nat): seq<(nat, nat)>
    requires i < |env.hooks| && k <= |env.hooks[i]|
    decreases i, k
  {
    if k > 0 then OpenHooks(env, i, k - 1) + [(i, k - 1)]
    else if i > 0 then OpenHooks(env, i - 1, |env.hooks[i - 1]|)
    else []
  }

  /** Replays a log on a stack of open hooks. A hook may only be entered when exactly the hooks that
      enclose it are open, only the innermost open hook may be left, a builder is checked only with
      all its hooks open, and the write happens only inside everything. */
  function Replay(env: Env, trace: seq<Event>): Option<seq<(nat, nat)>> {
    if trace == [] then Some([])
    else
      match Replay(env, trace[..|trace| - 1])
      case None => None
      case Some(stack) =>
        match trace[|trace| - 1]
        case Enter(i, k) =>
          if i < |env.hooks| && k < |env.hooks[i]| && stack == OpenHooks(env, i, k) then Some(stack + [(i, k)]) else None
        case Exit(i, k) =>
          if stack != [] && stack[|stack| - 1] == (i, k) then Some(stack[..|stack| - 1]) else None
        case Checked(i) =>
          if i < |env.hooks| && stack == OpenHooks(env, i, |env.hooks[i]|) then Some(stack) else None
        case Wrote =>
          if |env.hooks| > 0 && stack == OpenHooks(env, |env.hooks| - 1, |env.hooks[|env.hooks| - 1]|) then Some(stack)
          else None
  }

  lemma ReplaySnoc(env: Env, trace: seq<Event>, e: Event)
    ensures (trace + [e])[..|trace|] == trace && (trace + [e])[|trace|] == e
  {}

  /** Running the mutator at hook `k` of builder `i` logs a balanced stretch: replayed from the
      hooks that enclose it, it ends with the same hooks open. */
  lemma {:induction false} HooksNest(env: Env, i: nat, k: nat, s: State)
    requires i < |env.hooks| && k <= |env.hooks[i]| && Sized(s, |env.hooks|)
    requires Replay(env, s.trace) == Some(OpenHooks(env, i, k))
    ensures Replay(env, RunFrom(env, i, k, s).0.trace) == Some(OpenHooks(env, i, k))
    decreases |env.hooks| - i, |env.hooks[i]| - k
  {
    if k < |env.hooks[i]| {
      RunFromHook(env, i, k, s);
      var s1 := EnterHook(s, i, k, env.hooks[i][k]);
      EntersNested(env, i, k, s.trace);
      HooksNest(env, i, k + 1, s1);
      LeavesNested(env, i, k, s1.trace);
      LeavesNested(env, i, k, RunFrom(env, i, k + 1, s1).0.trace);
    } else {
      RunFromCore(env, i, s);
      if env.check(s.muts[i]).None? {
        ChecksNested(env, i, s.trace);
        if i + 1 < |env.hooks| {
          HooksNest(env, i + 1, 0, BuildSpec(s, i));
        } else {
          WritesNested(env, s.trace + [Checked(i)]);
        }
      }
    }
  }

  lemma EntersNested(env: Env, i: nat, k: nat, trace: seq<Event>)
    requires i < |env.hooks| && k < |env.hooks[i]| && Replay(env, trace) == Some(OpenHooks(env, i, k))
    ensures Replay(env, trace + [Enter(i, k)]) == Some(OpenHooks(env, i, k + 1))
  {
    ReplaySnoc(env, trace, Enter(i, k));
  }

  lemma LeavesNested(env: Env, i: nat, k: nat, trace: seq<Event>)
    requires i < |env.hooks| && k < |env.hooks[i]| && Replay(env, trace) == Some(OpenHooks(env, i, k + 1))
    ensures Replay(env, trace + [Exit(i, k)]) == Some(OpenHooks(env, i, k))
  {
    ReplaySnoc(env, trace, Exit(i, k));
    var open := OpenHooks(env, i, k);
    assert (open + [(i, k)])[..|open|] == open;
  }

  /** The hooks around the core of a builder are those around the whole of the next one. */
  lemma ChecksNested(env: Env, i: nat, trace: seq<Event>)
    requires i < |env.hooks| && Replay(env, trace) == Some(OpenHooks(env, i, |env.hooks[i]|))
    ensures Replay(env, trace + [Checked(i)]) == Some(OpenHooks(env, i, |env.hooks[i]|))
    ensures i + 1 < |env.hooks| ==> OpenHooks(env, i + 1, 0) == OpenHooks(env, i, |env.hooks[i]|)
  {
    ReplaySnoc(env, trace, Checked(i));
  }

  lemma WritesNested(env: Env, trace: seq<Event>)
    requires |env.hooks| > 0
    requires Replay(env, trace) == Some(OpenHooks(env, |env.hooks| - 1, |env.hooks[|env.hooks| - 1]|))
    ensures Replay(env, trace + [Wrote]) == Replay(env, trace)
  {
    ReplaySnoc(env, trace, Wrote);
  }

  /** The log of a whole save is balanced and properly nested, whether it succeeds or not. */
  lemma SaveLogIsNested(env: Env, muts: seq<Creation>)
    requires |muts| == |env.hooks|
    ensures Replay(env, Saved(env, muts).0.trace) == Some([])
  {
    if |muts| > 0 {
      HooksNest(env, 0, 0, Start(AllWithDefaults(env, muts)));
    }
  }

  // ------------------------------------------------ exactly when a save succeeds

  /** What the hooks of a builder hand to its core, or `None` if one of them vetoes. */
  function HandedOn(hooks: seq<Hook>, k: nat, m: Creation): Option<Creation>
    requires k <= |hooks|
    decreases |hooks| - k
  {
    if k == |hooks| then Some(m)
    else
      var edited := hooks[k].edit(m);
      if hooks[k].veto(edited).Some? then None else HandedOn(hooks, k + 1, edited)
  }

  /** The builder gets through: no veto, and its check accepts what the hooks hand on. */
  predicate Passes(env: Env, hooks: seq<Hook>, k: nat, m: Creation)
    requires k <= |hooks|
  {
    HandedOn(hooks, k, m).Some? && env.check(HandedOn(hooks, k, m).value) == None
  }

  /** The specs the chain writes if every builder from hook `k` of `i` on passes. */
  function FinalSpecs(env: Env, s: State, i: nat, k: nat): (specs: seq<Option<CreateSpec>>)
    requires i < |env.hooks| && k <= |env.hooks[i]| && Sized(s, |env.hooks|)
    ensures |specs| == |env.hooks|
  {
    seq(|env.hooks|, j requires 0 <= j < |env.hooks| =>
      if j < i then s.specs[j]
      else
        var m := HandedOn(env.hooks[j], if j == i then k else 0, s.muts[j]);
        if m.Some? then Some(CreatedSpec(m.value)) else None)
  }

  predicate AllPass(env: Env, s: State, i: nat, k: nat)
    requires i < |env.hooks| && k <= |env.hooks[i]| && Sized(s, |env.hooks|)
  {
    && Passes(env, env.hooks[i], k, s.muts[i])
    && forall j :: i < j < |env.hooks| ==> Passes(env, env.hooks[j], 0, s.muts[j])
  }

  lemma EnterKeepsFinal(env: Env, i: nat, k: nat, s: State)
    requires i < |env.hooks| && k < |env.hooks[i]| && Sized(s, |env.hooks|)
    ensures var s1 := EnterHook(s, i, k, env.hooks[i][k]);
            env.hooks[i][k].veto(s1.muts[i]).None? ==>
              && FinalSpecs(env, s1, i, k + 1) == FinalSpecs(env, s, i, k)
              && (AllPass(env, s1, i, k + 1) <==> AllPass(env, s, i, k))
  {}

  lemma BuildKeepsFinal(env: Env, i: nat, s: State)
    requires i + 1 < |env.hooks| && Sized(s, |env.hooks|)
    ensures FinalSpecs(env, BuildSpec(s, i), i + 1, 0) == FinalSpecs(env, s, i, |env.hooks[i]|)
    ensures env.check(s.muts[i]) == None ==>
              (AllPass(env, BuildSpec(s, i), i + 1, 0) <==> AllPass(env, s, i, |env.hooks[i]|))
  {}

  lemma {:induction false} SucceedsExactly(env: Env, i: nat, k: nat, s: State)
    requires i < |env.hooks| && k <= |env.hooks[i]| && Sized(s, |env.hooks|)
    requires NoSwallowing(env) && NoOverturning(env)
    ensures RunFrom(env, i, k, s).1 == None
            <==> AllPass(env, s, i, k) && env.store(FinalSpecs(env, s, i, k)).Assigned?
    decreases |env.hooks| - i, |env.hooks[i]| - k
  {
    if k < |env.hooks[i]| {
      RunFromHook(env, i, k, s);
      EnterKeepsFinal(env, i, k, s);
      var s1 := EnterHook(s, i, k, env.hooks[i][k]);
      if env.hooks[i][k].veto(s1.muts[i]).None? {
        SucceedsExactly(env, i, k + 1, s1);
        AnswerPassesOn(env, i, k, RunFrom(env, i, k + 1, s1).1);
      }
    } else {
      RunFromCore(env, i, s);
      if env.check(s.muts[i]).None? {
        if i + 1 < |env.hooks| {
          SucceedsExactly(env, i + 1, 0, BuildSpec(s, i));
          BuildKeepsFinal(env, i, s);
        } else {
          LastSpecsAreFinal(env, i, s);
        }
      }
    }
  }

  lemma AnswerPassesOn(env: Env, i: nat, k: nat, e: Option<Error>)
    requires NoSwallowing(env) && NoOverturning(env) && i < |env.hooks| && k < |env.hooks[i]|
    ensures env.hooks[i][k].answer(e) == None <==> e == None
  {
    assert e.Some? ==> env.hooks[i][k].answer(Some(e.value)).Some?;
  }

  lemma LastSpecsAreFinal(env: Env, i: nat, s: State)
    requires i + 1 == |env.hooks| && Sized(s, |env.hooks|)
    ensures BuildSpec(s, i).specs == FinalSpecs(env, s, i, |env.hooks[i]|)
  {}

  /** With hooks that pass the outcome on, a save succeeds if and only if no hook vetoes, every check
      accepts the mutation its hooks hand on, and the store accepts the specs of those mutations. */
  lemma BulkSaveSucceedsExactly(env: Env, muts: seq<Creation>)
    requires |muts| == |env.hooks| && |muts| > 0
    requires NoSwallowing(env) && NoOverturning(env)
    ensures var s := Start(AllWithDefaults(env, muts));
            Saved(env, muts).1 == None
            <==> && (forall j :: 0 <= j < |muts| ==> Passes(env, env.hooks[j], 0, s.muts[j]))
                 && env.store(FinalSpecs(env, s, 0, 0)).Assigned?
  {
    SucceedsExactly(env, 0, 0, Start(AllWithDefaults(env, muts)));
  }

  /** The error of `defaults` that `Save` ignores, for a builder whose column `c` it left unset: with
      any hooks, the builder gets through if and only if none vetoes, what they hand on has `c` set by
      one of them, every other needed column is set, and the validators accept. */
  lemma IgnoredDefaultsErrorExactly(env: Env, hooks: seq<Hook>, m: Creation, accepts: (Column, Scalar) -> bool, c: Column)
    requires forall n :: env.check(n) == None <==> Check(n.values, accepts) == None
    requires Defaulted(m.values, env.given, DEFAULTED).1 == Some(c)
    ensures c !in WithDefaults(env, m).values
    ensures var handed := HandedOn(hooks, 0, WithDefaults(env, m));
            Passes(env, hooks, 0, WithDefaults(env, m))
            <==> && handed.Some? && c in handed.value.values
                 && (forall d :: Needs(d) in CHECKS && d != c ==> d in handed.value.values)
                 && (forall d :: Validates(d) in CHECKS && d in handed.value.values ==> accepts(d, handed.value.values[d]))
  {
    DefaultedIsExact(m.values, env.given, DEFAULTED);
    NeededByCheck(c);
    var handed := HandedOn(hooks, 0, WithDefaults(env, m));
    if handed.Some? {
      FirstFailureIsExact(handed.value.values, accepts, CHECKS);
      NeedsSplit(handed.value.values, CHECKS, c);
    }
  }

  lemma NeedsSplit(values: map<Column, Scalar>, steps: seq<CheckStep>, c: Column)
    requires Needs(c) in steps
    ensures (forall d :: Needs(d) in steps ==> d in values)
            <==> c in values && forall d :: Needs(d) in steps && d != c ==> d in values
  {}

  // ------------------------------------------------ exactly when a save is all or nothing

  /** A hook leaves what was stored inside it. */
  lemma HookKeepsStored(env: Env, i: nat, k: nat, s: State)
    requires i < |env.hooks| && k < |env.hooks[i]| && Sized(s, |env.hooks|) && s.batches == []
    ensures var s1 := EnterHook(s, i, k, env.hooks[i][k]);
            Stored(env, RunFrom(env, i, k, s).0)
            <==> env.hooks[i][k].veto(s1.muts[i]).None? && Stored(env, RunFrom(env, i, k + 1, s1).0)
  {
    RunFromHook(env, i, k, s);
  }

  /** Whatever the hooks make of the outcome, the rows are stored if and only if no hook vetoes,
      every check accepts what the hooks hand on, and the store accepts those specs. */
  lemma {:induction false} StoredExactly(env: Env, i: nat, k: nat, s: State)
    requires i < |env.hooks| && k <= |env.hooks[i]| && Sized(s, |env.hooks|) && s.batches == []
    ensures Stored(env, RunFrom(env, i, k, s).0)
            <==> AllPass(env, s, i, k) && env.store(FinalSpecs(env, s, i, k)).Assigned?
    decreases |env.hooks| - i, |env.hooks[i]| - k
  {
    if k < |env.hooks[i]| {
      HookKeepsStored(env, i, k, s);
      EnterKeepsFinal(env, i, k, s);
      var s1 := EnterHook(s, i, k, env.hooks[i][k]);
      if env.hooks[i][k].veto(s1.muts[i]).None? {
        StoredExactly(env, i, k + 1, s1);
      }
    } else {
      RunFromCore(env, i, s);
      if env.check(s.muts[i]).None? {
        if i + 1 < |env.hooks| {
          StoredExactly(env, i + 1, 0, BuildSpec(s, i));
          BuildKeepsFinal(env, i, s);
        } else {
          LastSpecsAreFinal(env, i, s);
        }
      }
    }
  }

  /** Every hook from hook `k` of builder `i` inwards answers success with success. */
  ghost predicate PassSuccessOn(env: Env, i: nat, k: nat)
    requires i < |env.hooks| && k <= |env.hooks[i]|
  {
    && (forall l :: k <= l < |env.hooks[i]| ==> env.hooks[i][l].answer(None) == None)
    && forall j, l :: i < j < |env.hooks| && 0 <= l < |env.hooks[j]| ==> env.hooks[j][l].answer(None) == None
  }

  /** Once the rows are stored, and if no hook swallows errors, the outcome is success if and only if
      every hook on the way out answers success with success. */
  lemma {:induction false} StoredOutcomeExactly(env: Env, i: nat, k: nat, s: State)
    requires i < |env.hooks| && k <= |env.hooks[i]| && Sized(s, |env.hooks|) && s.batches == []
    requires NoSwallowing(env) && Stored(env, RunFrom(env, i, k, s).0)
    ensures RunFrom(env, i, k, s).1 == None <==> PassSuccessOn(env, i, k)
    decreases |env.hooks| - i, |env.hooks[i]| - k
  {
    if k < |env.hooks[i]| {
      HookKeepsStored(env, i, k, s);
      var s1 := EnterHook(s, i, k, env.hooks[i][k]);
      StoredOutcomeExactly(env, i, k + 1, s1);
      AnswerOfStored(env, i, k, RunFrom(env, i, k + 1, s1).1);
      RunFromHook(env, i, k, s);
    } else {
      CoreOutcome(env, i, s);
      if i + 1 < |env.hooks| {
        StoredOutcomeExactly(env, i + 1, 0, BuildSpec(s, i));
        NextPassesOn(env, i);
      }
    }
  }

  /** The core of a builder adds nothing to the outcome of the builder after it. */
  lemma CoreOutcome(env: Env, i: nat, s: State)
    requires i < |env.hooks| && Sized(s, |env.hooks|) && s.batches == []
    requires Stored(env, RunFrom(env, i, |env.hooks[i]|, s).0)
    ensures if i + 1 == |env.hooks| then RunFrom(env, i, |env.hooks[i]|, s).1 == None
            else var inner := RunFrom(env, i + 1, 0, BuildSpec(s, i));
                 Stored(env, inner.0) && RunFrom(env, i, |env.hooks[i]|, s).1 == inner.1
  {
    RunFromCore(env, i, s);
  }

  lemma NextPassesOn(env: Env, i: nat)
    requires i + 1 < |env.hooks|
    ensures PassSuccessOn(env, i, |env.hooks[i]|) <==> PassSuccessOn(env, i + 1, 0)
  {}

  lemma FirstPassesOn(env: Env, i: nat, k: nat)
    requires i < |env.hooks| && k < |env.hooks[i]|
    ensures PassSuccessOn(env, i, k) <==> env.hooks[i][k].answer(None) == None && PassSuccessOn(env, i, k + 1)
  {}

  lemma AnswerOfStored(env: Env, i: nat, k: nat, e: Option<Error>)
    requires NoSwallowing(env) && i < |env.hooks| && k < |env.hooks[i]|
    requires e == None <==> PassSuccessOn(env, i, k + 1)
    ensures env.hooks[i][k].answer(e) == None <==> PassSuccessOn(env, i, k)
  {
    FirstPassesOn(env, i, k);
    assert e.Some? ==> env.hooks[i][k].answer(Some(e.value)).Some?;
  }

  /** All or nothing: either the save succeeds, with one batch of every spec in builder order stored,
      every mutation done and every node carrying its id; or it fails, with nothing stored and no
      mutation done. */
  ghost predicate AllOrNothing(env: Env, t: State, e: Option<Error>)
    requires Sized(t, |env.hooks|)
  {
    && (e == None <==> Stored(env, t))
    && (e == None ==>
          && t.batches == [t.specs] && AllReady(env, t, |env.hooks|)
          && forall j :: 0 <= j < |env.hooks| ==> t.done[j] && CarriesItsId(env, t, j))
    && (e != None ==> forall j :: 0 <= j < |env.hooks| ==> !t.done[j])
  }

  /** No veto stands in the way, and the checks and the store accept. */
  predicate WouldBeStored(env: Env, muts: seq<Creation>)
    requires |muts| == |env.hooks| && |muts| > 0
  {
    var s := Start(AllWithDefaults(env, muts));
    AllPass(env, s, 0, 0) && env.store(FinalSpecs(env, s, 0, 0)).Assigned?
  }

  /** With hooks that do not swallow errors, a save is all or nothing if and only if no hook overturns
      success, or the save never gets as far as storing its rows. */
  lemma BulkSaveIsAllOrNothing(env: Env, muts: seq<Creation>)
    requires |muts| == |env.hooks| && |muts| > 0 && NoSwallowing(env)
    ensures AllOrNothing(env, Saved(env, muts).0, Saved(env, muts).1)
            <==> (WouldBeStored(env, muts) ==> NoOverturning(env))
  {
    var s := Start(AllWithDefaults(env, muts));
    var (t, e) := RunFrom(env, 0, 0, s);
    StoredExactly(env, 0, 0, s);
    assert PassSuccessOn(env, 0, 0) <==> NoOverturning(env);
    if Stored(env, t) {
      StoredOutcomeExactly(env, 0, 0, s);
      WritesOnceWhenReady(env, 0, 0, s);
      if NoOverturning(env) {
        StoredMeansSuccess(env, 0, 0, s);
      }
    } else {
      forall j | 0 <= j < |muts| ensures e != None && !t.done[j] {
        SuccessMeansStored(env, 0, 0, s, j);
      }
      SuccessMeansStored(env, 0, 0, s, 0);
    }
  }

  /** A hook that reports an error after the write is enough to break it: the save fails although
      the rows are stored and the mutation is marked done. */
  lemma OverturningBreaksAtomicity(m: Creation)
    ensures var hook := Hook(c => c, _ => None, _ => Some("late"));
            var env := Env([[hook]], map[], _ => None, specs => Assigned([]));
            var (t, e) := Saved(env, [m]);
            e == Some("late") && Stored(env, t) && t.done == [true]
  {
    var hook := Hook(c => c, _ => None, _ => Some("late"));
    var env := Env([[hook]], map[], _ => None, specs => Assigned([]));
    var s := Start(AllWithDefaults(env, [m]));
    RunFromHook(env, 0, 0, s);
    RunFromCore(env, 0, EnterHook(s, 0, 0, hook));
  }

  // ------------------------------------------------ what is stored

  /** The stored batch is that of the specs that every builder's hooks hand on. */
  lemma {:induction false} StoredSpecsAreFinal(env: Env, i: nat, k: nat, s: State)
    requires i < |env.hooks| && k <= |env.hooks[i]| && Sized(s, |env.hooks|) && s.batches == []
    requires Stored(env, RunFrom(env, i, k, s).0)
    ensures RunFrom(env, i, k, s).0.batches == [FinalSpecs(env, s, i, k)]
    decreases |env.hooks| - i, |env.hooks[i]| - k
  {
    if k < |env.hooks[i]| {
      HookKeepsStored(env, i, k, s);
      RunFromHook(env, i, k, s);
      EnterKeepsFinal(env, i, k, s);
      StoredSpecsAreFinal(env, i, k + 1, EnterHook(s, i, k, env.hooks[i][k]));
    } else {
      RunFromCore(env, i, s);
      if i + 1 < |env.hooks| {
        CoreOutcome(env, i, s);
        StoredSpecsAreFinal(env, i + 1, 0, BuildSpec(s, i));
        BuildKeepsFinal(env, i, s);
      } else {
        LastSpecsAreFinal(env, i, s);
      }
    }
  }

  /** The row that a stored save writes for a builder without hooks: every field that was set keeps
      its value, every column with a default that was left unset has that default, and the two keys
      are those of the builder. */
  lemma StoredRowsCarryDefaults(env: Env, muts: seq<Creation>, j: nat, id: int)
    requires j < |muts| == |env.hooks| && env.hooks[j] == []
    requires Stored(env, Saved(env, muts).0)
    requires WellTyped(muts[j]) && forall c :: c in env.given ==> HasType(env.given[c], ScanType(c))
    requires forall c :: HasDefault(c) && c !in muts[j].values ==> c in env.given
    ensures var batch := Saved(env, muts).0.batches[0];
            && |batch| == |muts| && batch[j].Some?
            && var row := InsertedRow(batch[j].value, id);
               && Cell(row, ID) == Some(SInt(id))
               && (muts[j].proxy.Some? ==> Cell(row, ProxyID) == Some(SInt(muts[j].proxy.value)))
               && (muts[j].owner.Some? ==> Cell(row, OwnerUserID) == Some(SInt(muts[j].owner.value)))
               && (forall c :: c in muts[j].values ==> Cell(row, c) == Some(muts[j].values[c]))
               && forall c :: HasDefault(c) && c !in muts[j].values ==> Cell(row, c) == Some(env.given[c])
  {
    var s := Start(AllWithDefaults(env, muts));
    StoredSpecsAreFinal(env, 0, 0, s);
    var m := WithDefaults(env, muts[j]);
    AllDefaultsFilled(muts[j].values, env.given);
    assert HandedOn(env.hooks[j], 0, m) == Some(m);
    DefaultsAreTyped(env, muts[j]);
    CreatedRowIsDescribed(m, id);
  }

  lemma DefaultsAreTyped(env: Env, m: Creation)
    requires WellTyped(m) && forall c :: c in env.given ==> HasType(env.given[c], ScanType(c))
    ensures WellTyped(WithDefaults(env, m))
  {
    DefaultedIsExact(m.values, env.given, DEFAULTED);
    var filled := WithDefaults(env, m).values;
    forall c | c in filled ensures IsFieldColumn(c) && HasType(filled[c], ScanType(c)) {
      if c !in m.values {
        ColumnsOfDefaults(c);
        DefaultsAreFields(c);
      }
    }
  }

  lemma DefaultsAreFields(c: Column)
    requires HasDefault(c)
    ensures IsFieldColumn(c)
  {}
}
