/** The child query of an eager-loaded edge: what the store answers, and how the loaders narrow it
    (backend/ent/account_query.go, backend/ent/usagelog_query.go). */
module ChildQueries {
  import opened Prelude
  import opened Graph

  /** The predicates the loaders append: the primary key, or the foreign key, is in a list. */
  datatype Predicate = IDIn(ids: seq<int>) | FkIn(ids: seq<int>)

  /** A NULL key is in no list. */
  predicate Satisfies(r: ChildRow, p: Predicate) {
    match p
    case IDIn(ids) => r.id in ids
    case FkIn(ids) => r.fk.Some? && r.fk.value in ids
  }

  predicate SatisfiesAll(r: ChildRow, ps: seq<Predicate>) {
    forall p :: p in ps ==> Satisfies(r, p)
  }

  datatype ChildColumn = ForeignKey | Extra(name: string)

  /** The row as read through a column selection; an empty selection means all columns. The
      primary key is always read, because `querySpec` puts it first. */
  function Seen(r: ChildRow, columns: seq<ChildColumn>): ChildRow {
    if columns == [] || ForeignKey in columns then r else ChildRow(r.id, None)
  }

  function AllSeen(rows: seq<ChildRow>, columns: seq<ChildColumn>): (s: seq<ChildRow>)
    ensures |s| == |rows|
  {
    seq(|rows|, i requires 0 <= i < |rows| => Seen(rows[i], columns))
  }

  /** Why the loaders select the foreign key: read through a selection without it, every row looks as
      if it referenced nothing; read through any other selection, a row is read in full. */
  lemma UnselectedKeyIsNotRead(r: ChildRow, columns: seq<ChildColumn>)
    ensures Seen(r, columns).id == r.id
    ensures Seen(r, columns).fk == r.fk <==> columns == [] || ForeignKey in columns || r.fk == None
    ensures Seen(r, columns).fk == None || Seen(r, columns).fk == r.fk
  {}

  /** The rows that satisfy every predicate, in the order of the table. */
  function Matching(rows: seq<ChildRow>, ps: seq<Predicate>): seq<ChildRow> {
    if rows == [] then []
    else Matching(rows[..|rows| - 1], ps)
         + (if SatisfiesAll(rows[|rows| - 1], ps) then [rows[|rows| - 1]] else [])
  }

  lemma {:induction false} MatchingMembers(rows: seq<ChildRow>, ps: seq<Predicate>)
    ensures forall r :: r in Matching(rows, ps) <==> r in rows && SatisfiesAll(r, ps)
  {
    if rows != [] {
      MatchingMembers(rows[..|rows| - 1], ps);
      assert rows == rows[..|rows| - 1] + [rows[|rows| - 1]];
    }
  }

  /** Tables answer part by part, so the answer keeps their order and repetitions. */
  lemma {:induction false} MatchingJoin(x: seq<ChildRow>, y: seq<ChildRow>, ps: seq<Predicate>)
    ensures Matching(x + y, ps) == Matching(x, ps) + Matching(y, ps)
  {
    if y == [] {
      assert x + y == x;
    } else {
      MatchingJoin(x, y[..|y| - 1], ps);
      assert (x + y)[..|x + y| - 1] == x + y[..|y| - 1];
    }
  }

  /** The rows that reference `k`: the per-parent lookup the batched load replaces. */
  function ChildrenOf(rows: seq<ChildRow>, k: int): seq<ChildRow> {
    if rows == [] then []
    else ChildrenOf(rows[..|rows| - 1], k) + (if rows[|rows| - 1].fk == Some(k) then [rows[|rows| - 1]] else [])
  }

  lemma {:induction false} ChildrenMembers(rows: seq<ChildRow>, k: int)
    ensures forall r :: r in ChildrenOf(rows, k) <==> r in rows && r.fk == Some(k)
  {
    if rows != [] {
      ChildrenMembers(rows[..|rows| - 1], k);
      assert rows == rows[..|rows| - 1] + [rows[|rows| - 1]];
    }
  }

  lemma {:induction false} ChildrenJoin(x: seq<ChildRow>, y: seq<ChildRow>, k: int)
    ensures ChildrenOf(x + y, k) == ChildrenOf(x, k) + ChildrenOf(y, k)
  {
    if y == [] {
      assert x + y == x;
    } else {
      ChildrenJoin(x, y[..|y| - 1], k);
      assert (x + y)[..|x + y| - 1] == x + y[..|y| - 1];
    }
  }

  lemma ChildrenSnoc(rows: seq<ChildRow>, r: ChildRow, k: int)
    ensures ChildrenOf(rows + [r], k) == ChildrenOf(rows, k) + (if r.fk == Some(k) then [r] else [])
  {
    assert (rows + [r])[..|rows|] == rows;
  }

  lemma MatchingChildren(rows: seq<ChildRow>, ps: seq<Predicate>, k: int)
    requires rows != []
    ensures var last := rows[|rows| - 1];
            ChildrenOf(Matching(rows, ps), k)
            == ChildrenOf(Matching(rows[..|rows| - 1], ps), k)
               + (if SatisfiesAll(last, ps) && last.fk == Some(k) then [last] else [])
  {
    var front, last := Matching(rows[..|rows| - 1], ps), rows[|rows| - 1];
    if SatisfiesAll(last, ps) {
      ChildrenSnoc(front, last, k);
    } else {
      assert Matching(rows, ps) == front;
    }
  }

  /** Narrowing the query to keys that include `k` does not change the children of `k`. */
  lemma {:induction false} NarrowingKeepsChildren(rows: seq<ChildRow>, ps: seq<Predicate>, ids: seq<int>, k: int)
    requires k in ids
    ensures ChildrenOf(Matching(rows, ps + [FkIn(ids)]), k) == ChildrenOf(Matching(rows, ps), k)
  {
    if rows != [] {
      var front, last := rows[..|rows| - 1], rows[|rows| - 1];
      NarrowingKeepsChildren(front, ps, ids, k);
      MatchingChildren(rows, ps, k);
      MatchingChildren(rows, ps + [FkIn(ids)], k);
      assert SatisfiesAll(last, ps + [FkIn(ids)]) <==> SatisfiesAll(last, ps) && Satisfies(last, FkIn(ids));
    }
  }

  lemma {:induction false} MatchingTwice(rows: seq<ChildRow>, ps: seq<Predicate>, p: Predicate)
    ensures Matching(Matching(rows, ps), [p]) == Matching(rows, ps + [p])
  {
    if rows != [] {
      var front, last := rows[..|rows| - 1], rows[|rows| - 1];
      MatchingTwice(front, ps, p);
      assert SatisfiesAll(last, ps + [p]) <==> SatisfiesAll(last, ps) && Satisfies(last, p);
      assert SatisfiesAll(last, [p]) <==> Satisfies(last, p);
      if SatisfiesAll(last, ps) {
        MatchingSnoc(Matching(front, ps), last, [p]);
      } else {
        assert Matching(rows, ps) == Matching(front, ps);
        assert Matching(rows, ps + [p]) == Matching(front, ps + [p]);
      }
    }
  }

  lemma MatchingSnoc(rows: seq<ChildRow>, r: ChildRow, ps: seq<Predicate>)
    ensures Matching(rows + [r], ps) == Matching(rows, ps) + (if SatisfiesAll(r, ps) then [r] else [])
  {
    assert (rows + [r])[..|rows|] == rows;
  }

  // ------------------------------------------------ the children of all parents together

  /** The children of every key of the list, pooled. */
  function Pooled(rows: seq<ChildRow>, ids: seq<int>): multiset<ChildRow> {
    if ids == [] then multiset{}
    else Pooled(rows, ids[..|ids| - 1]) + multiset(ChildrenOf(rows, ids[|ids| - 1]))
  }

  function TotalChildren(rows: seq<ChildRow>, ids: seq<int>): nat {
    if ids == [] then 0 else TotalChildren(rows, ids[..|ids| - 1]) + |ChildrenOf(rows, ids[|ids| - 1])|
  }

  lemma {:induction false} PooledSize(rows: seq<ChildRow>, ids: seq<int>)
    ensures |Pooled(rows, ids)| == TotalChildren(rows, ids)
  {
    if ids != [] {
      PooledSize(rows, ids[..|ids| - 1]);
    }
  }

  lemma {:induction false} PooledSnoc(front: seq<ChildRow>, r: ChildRow, ids: seq<int>)
    requires Distinct(ids)
    ensures Pooled(front + [r], ids)
            == Pooled(front, ids) + if r.fk.Some? && r.fk.value in ids then multiset{r} else multiset{}
  {
    if ids != [] {
      var others, last := ids[..|ids| - 1], ids[|ids| - 1];
      assert ids == others + [last];
      DistinctLast(ids);
      PooledSnoc(front, r, others);
      ChildrenSnoc(front, r, last);
    }
  }

  /** Different keys partition the rows that reference any of them: no child is lost, none is
      counted twice, and the numbers of children add up. */
  lemma {:induction false} ChildrenPartition(rows: seq<ChildRow>, ids: seq<int>)
    requires Distinct(ids)
    ensures Pooled(rows, ids) == multiset(Matching(rows, [FkIn(ids)]))
    ensures TotalChildren(rows, ids) == |Matching(rows, [FkIn(ids)])|
  {
    PooledSize(rows, ids);
    if rows == [] {
      NothingPooled(ids);
    } else {
      var front, last := rows[..|rows| - 1], rows[|rows| - 1];
      assert rows == front + [last];
      ChildrenPartition(front, ids);
      PooledSnoc(front, last, ids);
      assert SatisfiesAll(last, [FkIn(ids)]) <==> Satisfies(last, FkIn(ids));
    }
  }

  lemma {:induction false} NothingPooled(ids: seq<int>)
    ensures Pooled([], ids) == multiset{}
  {
    if ids != [] {
      NothingPooled(ids[..|ids| - 1]);
    }
  }

  /** A child query: `rows` is what the store holds for the predicates and order the caller gave;
      `predicates` are those appended by the loaders; `columns` is the selection. */
  class ChildQuery {
    var rows: seq<ChildRow>
    var predicates: seq<Predicate>
    var columns: seq<ChildColumn>

    constructor (rows: seq<ChildRow>, columns: seq<ChildColumn>)
      ensures this.rows == rows && this.columns == columns && predicates == []
    {
      this.rows, this.columns, predicates := rows, columns, [];
    }

    method Where(p: Predicate)
      modifies this`predicates
      ensures predicates == old(predicates) + [p]
    {
      predicates := predicates + [p];
    }

    /** The loaders' guard around `AppendFieldOnce`: only a non-empty selection is extended. */
    method AppendForeignKeyOnce()
      modifies this`columns
      ensures columns == [] || ForeignKey in columns
      ensures columns == old(columns) || (columns == old(columns) + [ForeignKey] && ForeignKey !in old(columns))
      ensures columns == [] <==> old(columns) == []
    {
      if |columns| > 0 && ForeignKey !in columns {
        columns := columns + [ForeignKey];
      }
    }

    /** `query.All`: fresh nodes for the matching rows, one each, in order. */
    method All() returns (ns: seq<Neighbour>)
      ensures forall n :: n in ns ==> fresh(n)
      ensures Distinct(ns)
      ensures RowsOf(ns) == AllSeen(Matching(rows, predicates), columns)
    {
      ns := [];
      for i := 0 to |rows|
        invariant forall n :: n in ns ==> fresh(n)
        invariant Distinct(ns)
        invariant RowsOf(ns) == AllSeen(Matching(rows[..i], predicates), columns)
      {
        assert rows[..i + 1] == rows[..i] + [rows[i]];
        assert rows[..i + 1][..i] == rows[..i];
        if SatisfiesAll(rows[i], predicates) {
          var n := new Neighbour(Seen(rows[i], columns));
          ns := ns + [n];
        }
      }
      assert rows[..|rows|] == rows;
    }
  }

  // ------------------------------------------------ reusing a builder

  /** True when every key list already on the query contains `k`. */
  predicate AskedBefore(ps: seq<Predicate>, k: int) {
    forall p :: p in ps && p.FkIn? ==> k in p.ids
  }

  /** A loader leaves its predicate on the child query, so the next load through the same builder
      is narrowed by it. The children of `k` are still complete if and only if every earlier load
      asked for `k` as well, or `k` has no children at all. */
  lemma ReloadIsComplete(rows: seq<ChildRow>, ps: seq<Predicate>, k: int)
    requires forall p :: p in ps ==> p.FkIn?
    ensures ChildrenOf(Matching(rows, ps), k) == ChildrenOf(rows, k)
            <==> AskedBefore(ps, k) || ChildrenOf(rows, k) == []
  {
    NarrowedChildren(rows, ps, k);
  }

  lemma {:induction false} NarrowedChildren(rows: seq<ChildRow>, ps: seq<Predicate>, k: int)
    requires forall p :: p in ps ==> p.FkIn?
    ensures ChildrenOf(Matching(rows, ps), k) == if AskedBefore(ps, k) then ChildrenOf(rows, k) else []
  {
    if rows != [] {
      var front, last := rows[..|rows| - 1], rows[|rows| - 1];
      NarrowedChildren(front, ps, k);
      MatchingChildren(rows, ps, k);
      if last.fk == Some(k) {
        assert SatisfiesAll(last, ps) <==> AskedBefore(ps, k);
      }
    }
  }

  /** The smallest failure: the only child of `k` is lost once the builder has served a list
      without `k`, for instance `r == ChildRow(7, Some(2))` after a load of account 1. */
  lemma ReloadLosesChild(r: ChildRow, k: int, served: seq<int>)
    requires r.fk == Some(k) && k !in served
    ensures ChildrenOf([r], k) == [r]
    ensures ChildrenOf(Matching([r], [FkIn(served)]), k) == []
  {
    var narrowing := FkIn(served);
    assert ChildrenOf([r], k) == [r] by {
      ChildrenSnoc([], r, k);
      assert [] + [r] == [r];
    }
    assert !AskedBefore([narrowing], k) by {
      assert narrowing in [narrowing];
    }
    NarrowedChildren([r], [narrowing], k);
  }
}
