/** Whole runs of edge calls on one mutation: what saving the gathered changes means, against making
    each call take effect at once (backend/ent/mutation.go, backend/ent/account_update.go). */
module EdgeRuns {
  import opened Graph
  import opened EdgeDelta

  function Gathered(run: seq<Op>): Delta {
    if run == [] then BLANK else After(Gathered(run[..|run| - 1]), run[|run| - 1])
  }

  function InTurn(run: seq<Op>, e: Edge, start: set<int>): set<int> {
    if run == [] then start else AtOnce(run[|run| - 1], e, start, InTurn(run[..|run| - 1], e, start))
  }

  // ------------------------------------------------ edges to many

  predicate Adds(op: Op, m: ManyEdge, id: int) {
    op.AddIDs? && op.m == m && id in op.ids
  }

  /** The call adds or removes the id, or resets the edge. */
  predicate Names(op: Op, m: ManyEdge, id: int) {
    match op
    case AddIDs(n, ids) => n == m && id in ids
    case RemoveIDs(n, ids) => n == m && id in ids
    case ResetMany(n) => n == m
    case _ => false
  }

  predicate NotNamedAfter(run: seq<Op>, i: nat, m: ManyEdge, id: int) {
    forall k :: i < k < |run| ==> !Names(run[k], m, id)
  }

  /** The id was added, and not named again since. */
  predicate AddedLast(run: seq<Op>, m: ManyEdge, id: int) {
    exists i :: 0 <= i < |run| && Adds(run[i], m, id) && NotNamedAfter(run, i, m, id)
  }

  /** The id was added, the edge was cleared afterwards, and the id was not named again since. */
  predicate Outlived(run: seq<Op>, m: ManyEdge, id: int) {
    exists i, j :: 0 <= i < j < |run| && Adds(run[i], m, id) && run[j] == ClearMany(m) && NotNamedAfter(run, i, m, id)
  }

  lemma AddedLastSnoc(run: seq<Op>, op: Op, m: ManyEdge, id: int)
    ensures AddedLast(run + [op], m, id) <==> Adds(op, m, id) || (AddedLast(run, m, id) && !Names(op, m, id))
  {
    var all := run + [op];
    assert all[|run|] == op && forall k :: 0 <= k < |run| ==> all[k] == run[k];
    if Adds(op, m, id) {
      assert NotNamedAfter(all, |run|, m, id);
    }
    if AddedLast(all, m, id) {
      var i :| 0 <= i < |all| && Adds(all[i], m, id) && NotNamedAfter(all, i, m, id);
      if i < |run| {
        assert Adds(run[i], m, id) && NotNamedAfter(run, i, m, id);
      }
    }
    if AddedLast(run, m, id) && !Names(op, m, id) {
      var i :| 0 <= i < |run| && Adds(run[i], m, id) && NotNamedAfter(run, i, m, id);
      assert Adds(all[i], m, id) && NotNamedAfter(all, i, m, id);
    }
  }

  lemma OutlivedSnoc(run: seq<Op>, op: Op, m: ManyEdge, id: int)
    ensures Outlived(run + [op], m, id)
            <==> !Names(op, m, id) && (Outlived(run, m, id) || (op == ClearMany(m) && AddedLast(run, m, id)))
  {
    var all := run + [op];
    assert all[|run|] == op && forall k :: 0 <= k < |run| ==> all[k] == run[k];
    if Outlived(all, m, id) {
      var i, j :| 0 <= i < j < |all| && Adds(all[i], m, id) && all[j] == ClearMany(m) && NotNamedAfter(all, i, m, id);
      assert Adds(run[i], m, id) && NotNamedAfter(run, i, m, id);
      if j < |run| {
        assert run[j] == ClearMany(m);
      }
    }
    if !Names(op, m, id) && Outlived(run, m, id) {
      var i, j :| 0 <= i < j < |run| && Adds(run[i], m, id) && run[j] == ClearMany(m) && NotNamedAfter(run, i, m, id);
      assert Adds(all[i], m, id) && all[j] == ClearMany(m) && NotNamedAfter(all, i, m, id);
    }
    if op == ClearMany(m) && AddedLast(run, m, id) {
      var i :| 0 <= i < |run| && Adds(run[i], m, id) && NotNamedAfter(run, i, m, id);
      assert Adds(all[i], m, id) && NotNamedAfter(all, i, m, id);
    }
  }

  lemma {:induction false} OneIdGathered(run: seq<Op>, m: ManyEdge, id: int)
    ensures id in IdsIn(Gathered(run).added, m) <==> AddedLast(run, m, id)
    ensures Outlived(run, m, id) ==> m in Gathered(run).cleared && AddedLast(run, m, id)
  {
    if run != [] {
      var front, op := run[..|run| - 1], run[|run| - 1];
      assert run == front + [op];
      OneIdGathered(front, m, id);
      AddedLastSnoc(front, op, m, id);
      OutlivedSnoc(front, op, m, id);
    }
  }

  /** For every run, every id and all neighbours from before: the gathered changes keep the id when
      the calls in turn do, and besides exactly when it outlived a clear. */
  lemma {:induction false} OneIdInRun(run: seq<Op>, m: ManyEdge, start: set<int>, id: int)
    ensures id in InTurn(run, Many(m), start)
            <==> id in Meant(Gathered(run), Many(m), start) && !Outlived(run, m, id)
  {
    if run != [] {
      var front, op := run[..|run| - 1], run[|run| - 1];
      assert run == front + [op];
      OneIdInRun(front, m, start, id);
      OneIdGathered(front, m, id);
      OutlivedSnoc(front, op, m, id);
    }
  }

  /** For every run of calls, saving the gathered changes leaves the neighbours that the calls in
      turn would leave, if and only if no id outlived a clear. */
  lemma ManyRunIsExact(run: seq<Op>, m: ManyEdge, start: set<int>)
    ensures Meant(Gathered(run), Many(m), start) == InTurn(run, Many(m), start)
            <==> forall id :: !Outlived(run, m, id)
  {
    var saved, inTurn := Meant(Gathered(run), Many(m), start), InTurn(run, Many(m), start);
    forall id ensures Outlived(run, m, id) <==> id in saved && id !in inTurn {
      OneIdInRun(run, m, start, id);
      OneIdGathered(run, m, id);
    }
    forall id ensures id in inTurn ==> id in saved {
      OneIdInRun(run, m, start, id);
    }
    if id :| Outlived(run, m, id) {
      assert id in saved && id !in inTurn;
    } else {
      assert forall id :: id in saved <==> id in inTurn;
      assert saved == inTurn;
    }
  }

  // ------------------------------------------------ edges to one

  /** The last call on the edge was one that differs. */
  predicate LastDiffers(run: seq<Op>, u: UniqueEdge) {
    run != [] &&
    (var front, op := run[..|run| - 1], run[|run| - 1];
     if op.On() == One(u) then Differs(Gathered(front), op) else LastDiffers(front, u))
  }

  /** From the neighbour `start`, saving the gathered changes leaves what the calls in turn would leave. */
  ghost predicate SavesAlike(run: seq<Op>, u: UniqueEdge, start: set<int>) {
    Meant(Gathered(run), One(u), start) == InTurn(run, One(u), start)
  }

  /** For every run of calls, saving the gathered changes leaves the neighbour that the calls in
      turn would leave, whatever it was before, if and only if the last call on the edge is neither
      `ClearProxy` after a key was set, nor a reset that forgets the other mark of a clear. */
  lemma {:induction false} OneRunIsExact(run: seq<Op>, u: UniqueEdge)
    ensures (forall start :: SavesAlike(run, u, start)) <==> !LastDiffers(run, u)
  {
    if run != [] {
      var front, op := run[..|run| - 1], run[|run| - 1];
      if op.On() == One(u) {
        OneCallIsExact(Gathered(front), op, u);
        forall start ensures InTurn(run, One(u), start) == AtOnce(op, One(u), start, {}) {
          InTurnForgets(run, u, start);
        }
        if Differs(Gathered(front), op) {
          assert !SavesAlike(run, u, {0});
        }
      } else {
        OneRunIsExact(front, u);
        forall start ensures SavesAlike(run, u, start) <==> SavesAlike(front, u, start) {
          OtherCallsDoNotMatter(Gathered(front), op, One(u), start, InTurn(front, One(u), start));
        }
      }
    } else {
      forall start ensures SavesAlike(run, u, start) {
        BlankMeansNothing(One(u), start);
      }
    }
  }

  lemma BlankMeansNothing(e: Edge, start: set<int>)
    ensures Meant(BLANK, e, start) == start
  {}

  lemma InTurnForgets(run: seq<Op>, u: UniqueEdge, start: set<int>)
    requires run != [] && run[|run| - 1].On() == One(u)
    ensures InTurn(run, One(u), start) == AtOnce(run[|run| - 1], One(u), start, {})
  {}

  lemma OtherCallsDoNotMatter(d: Delta, op: Op, e: Edge, start: set<int>, links: set<int>)
    requires op.On() != e
    ensures Meant(After(d, op), e, start) == Meant(d, e, start) && AtOnce(op, e, start, links) == links
  {}

  /** What a call on an edge to one does at once does not depend on the calls before it. */
  lemma OneCallIsExact(d: Delta, op: Op, u: UniqueEdge)
    requires op.On() == One(u)
    ensures !Differs(d, op) ==> forall start :: Meant(After(d, op), One(u), start) == AtOnce(op, One(u), start, {})
    ensures Differs(d, op) ==> Meant(After(d, op), One(u), {0}) != AtOnce(op, One(u), {0}, {})
  {
    assert 0 in {0};
  }
}
