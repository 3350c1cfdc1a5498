/** Batched loading of the many-to-many edge: `loadGroups` (backend/ent/account_query.go). */
module EagerGroups {
  import opened Prelude

  /** One row of the join: a group of the group query next to the account that references it. */
  datatype JoinRow = JoinRow(account: int, group: int)

  // ------------------------------------------------ the reference definitions

  /** The groups of the stream, each once, in order of first appearance. */
  function FirstSeen(rows: seq<JoinRow>): seq<int> {
    if rows == [] then []
    else
      var front, last := FirstSeen(rows[..|rows| - 1]), rows[|rows| - 1];
      if last.group in front then front else front + [last.group]
  }

  lemma {:induction false} FirstSeenIsExact(rows: seq<JoinRow>)
    ensures Distinct(FirstSeen(rows))
    ensures forall g :: g in FirstSeen(rows) <==> exists r :: r in rows && r.group == g
  {
    if rows != [] {
      var front, last := rows[..|rows| - 1], rows[|rows| - 1];
      FirstSeenIsExact(front);
      assert rows == front + [last];
      assert last in rows;
      forall g ensures g in FirstSeen(rows) <==> exists r :: r in rows && r.group == g {
        if r :| r in front && r.group == g {
          assert r in rows;
        }
      }
    }
  }

  /** Those of the groups `gs` that account `a` is linked to. */
  function LinkedIn(rows: seq<JoinRow>, gs: seq<int>, a: int): seq<int> {
    if gs == [] then []
    else LinkedIn(rows, gs[..|gs| - 1], a)
         + (if JoinRow(a, gs[|gs| - 1]) in rows then [gs[|gs| - 1]] else [])
  }

  /** What account `a` should hold: its linked groups, each once, in stream order. */
  function LinkedGroups(rows: seq<JoinRow>, a: int): seq<int> {
    LinkedIn(rows, FirstSeen(rows), a)
  }

  lemma {:induction false} LinkedInMembers(rows: seq<JoinRow>, gs: seq<int>, a: int)
    ensures forall g :: g in LinkedIn(rows, gs, a) <==> g in gs && JoinRow(a, g) in rows
    ensures Distinct(gs) ==> Distinct(LinkedIn(rows, gs, a))
  {
    if gs != [] {
      LinkedInMembers(rows, gs[..|gs| - 1], a);
      assert gs == gs[..|gs| - 1] + [gs[|gs| - 1]];
    }
  }

  /** The nested-loop join: an account holds exactly the groups some row links it to, each once. */
  lemma LinkedGroupsAreTheJoin(rows: seq<JoinRow>, a: int)
    ensures forall g :: g in LinkedGroups(rows, a) <==> JoinRow(a, g) in rows
    ensures Distinct(LinkedGroups(rows, a))
  {
    FirstSeenIsExact(rows);
    LinkedInMembers(rows, FirstSeen(rows), a);
  }

  // ------------------------------------------------ batched against one query per account

  /** The part of the stream that a query for account `a` alone would answer. */
  function RowsFor(rows: seq<JoinRow>, a: int): seq<JoinRow> {
    if rows == [] then []
    else RowsFor(rows[..|rows| - 1], a) + (if rows[|rows| - 1].account == a then [rows[|rows| - 1]] else [])
  }

  lemma {:induction false} RowsForMembers(rows: seq<JoinRow>, a: int)
    ensures forall r :: r in RowsFor(rows, a) <==> r in rows && r.account == a
  {
    if rows != [] {
      RowsForMembers(rows[..|rows| - 1], a);
      assert rows == rows[..|rows| - 1] + [rows[|rows| - 1]];
    }
  }

  /** The stream lists the rows of each group together, as any order that ends in the group id
      makes it. */
  ghost predicate Grouped(rows: seq<JoinRow>) {
    rows == [] ||
    (var front, g := rows[..|rows| - 1], rows[|rows| - 1].group;
     Grouped(front) && (front == [] || front[|front| - 1].group == g || g !in FirstSeen(front)))
  }

  lemma {:induction false} LastSeenIsLast(rows: seq<JoinRow>)
    requires Grouped(rows) && rows != []
    ensures FirstSeen(rows) != [] && FirstSeen(rows)[|FirstSeen(rows)| - 1] == rows[|rows| - 1].group
  {
    var front := rows[..|rows| - 1];
    if front != [] {
      LastSeenIsLast(front);
    }
  }

  lemma LinkedInSnocRow(rows: seq<JoinRow>, r: JoinRow, gs: seq<int>, a: int)
    requires r.account != a || r.group !in gs || JoinRow(a, r.group) in rows
    ensures LinkedIn(rows + [r], gs, a) == LinkedIn(rows, gs, a)
  {
    if gs != [] {
      LinkedInSnocRow(rows, r, gs[..|gs| - 1], a);
      var g := gs[|gs| - 1];
      assert JoinRow(a, g) in rows + [r] <==> JoinRow(a, g) in rows || JoinRow(a, g) == r;
    }
  }

  lemma {:induction false} LinkedInJoin(rows: seq<JoinRow>, x: seq<int>, y: seq<int>, a: int)
    ensures LinkedIn(rows, x + y, a) == LinkedIn(rows, x, a) + LinkedIn(rows, y, a)
  {
    if y == [] {
      assert x + y == x;
    } else {
      LinkedInJoin(rows, x, y[..|y| - 1], a);
      assert (x + y)[..|x + y| - 1] == x + y[..|y| - 1];
    }
  }

  /** No group that stands after `g` in the stream so far is linked to `a` yet. */
  predicate NoneLinkedAfter(rows: seq<JoinRow>, g: int, a: int) {
    var gs := FirstSeen(rows);
    forall i, j :: 0 <= i < j < |gs| && gs[i] == g ==> JoinRow(a, gs[j]) !in rows
  }

  /** Row by row: when the stream links `a` for the first time to a group it has already shown, it
      has not yet linked `a` to any group that it showed after that one. */
  predicate InStreamOrder(rows: seq<JoinRow>, a: int) {
    rows == [] ||
    (var front, r := rows[..|rows| - 1], rows[|rows| - 1];
     && InStreamOrder(front, a)
     && (r.account == a && r !in front && r.group in FirstSeen(front) ==> NoneLinkedAfter(front, r.group, a)))
  }

  /** A row that links its account to a group already in the stream puts the group into the middle
      of the account's list, before the linked groups that the stream showed later. */
  lemma KnownGroupInserts(front: seq<JoinRow>, r: JoinRow, x: seq<int>, y: seq<int>)
    requires r !in front && FirstSeen(front) == x + [r.group] + y
    ensures LinkedGroups(front, r.account) == LinkedIn(front, x, r.account) + LinkedIn(front, y, r.account)
    ensures LinkedGroups(front + [r], r.account)
            == LinkedIn(front, x, r.account) + [r.group] + LinkedIn(front, y, r.account)
  {
    assert (front + [r])[..|front|] == front;
    FirstSeenIsExact(front);
    MiddleIsUnique(x, r.group, y);
    InsertedInMiddle(front, r, x, y);
  }

  lemma InsertedInMiddle(front: seq<JoinRow>, r: JoinRow, x: seq<int>, y: seq<int>)
    requires r !in front && r.group !in x && r.group !in y
    ensures var gs, a := x + [r.group] + y, r.account;
            && LinkedIn(front, gs, a) == LinkedIn(front, x, a) + LinkedIn(front, y, a)
            && LinkedIn(front + [r], gs, a) == LinkedIn(front, x, a) + [r.group] + LinkedIn(front, y, a)
  {
    var a := r.account;
    LinkedInMiddle(front, x, r.group, y, a);
    LinkedInMiddle(front + [r], x, r.group, y, a);
    LinkedInSnocRow(front, r, x, a);
    LinkedInSnocRow(front, r, y, a);
    assert (front + [r])[|front|] == r && r == JoinRow(a, r.group);
  }

  lemma MiddleIsUnique(x: seq<int>, g: int, y: seq<int>)
    requires Distinct(x + [g] + y)
    ensures g !in x && g !in y
  {
    var s := x + [g] + y;
    assert s[|x|] == g;
    assert forall i :: 0 <= i < |x| ==> s[i] == x[i];
    assert forall i :: 0 <= i < |y| ==> s[|x| + 1 + i] == y[i];
  }

  lemma LinkedInMiddle(rows: seq<JoinRow>, x: seq<int>, g: int, y: seq<int>, a: int)
    ensures LinkedIn(rows, x + [g] + y, a)
            == LinkedIn(rows, x, a) + (if JoinRow(a, g) in rows then [g] else []) + LinkedIn(rows, y, a)
  {
    LinkedInJoin(rows, x + [g], y, a);
    assert (x + [g])[..|x|] == x;
  }

  lemma OnlyLaterGroups(front: seq<JoinRow>, g: int, x: seq<int>, y: seq<int>, a: int)
    requires FirstSeen(front) == x + [g] + y && g !in x && g !in y
    ensures NoneLinkedAfter(front, g, a) <==> LinkedIn(front, y, a) == []
  {
    var gs := FirstSeen(front);
    LinkedInMembers(front, y, a);
    assert gs[|x|] == g && forall j :: |x| < j < |gs| ==> gs[j] == y[j - |x| - 1];
    assert forall i :: 0 <= i < |x| ==> gs[i] == x[i];
    if LinkedIn(front, y, a) != [] {
      var h := LinkedIn(front, y, a)[0];
      assert h in LinkedIn(front, y, a);
      var j :| 0 <= j < |y| && y[j] == h;
      assert gs[|x| + 1 + j] == h;
    } else {
      forall i, j | 0 <= i < j < |gs| && gs[i] == g ensures JoinRow(a, gs[j]) !in front {
        assert gs[j] in y;
      }
    }
  }

  /** A row that brings a new group appends it. */
  lemma NewGroupAppends(front: seq<JoinRow>, r: JoinRow)
    requires r.group !in FirstSeen(front)
    ensures LinkedGroups(front + [r], r.account) == LinkedGroups(front, r.account) + [r.group]
  {
    var rows, gs, a := front + [r], FirstSeen(front), r.account;
    assert rows[..|front|] == front;
    LinkedInSnocRow(front, r, gs, a);
    assert (gs + [r.group])[..|gs|] == gs;
    assert rows[|front|] == r;
  }

  /** The batched load leaves on account `a` the very list that a query for that account alone would
      give, if and only if the stream links `a` to its groups in the order in which it shows them. */
  lemma {:induction false} AgreesPerAccountExactly(rows: seq<JoinRow>, a: int)
    ensures LinkedGroups(rows, a) == FirstSeen(RowsFor(rows, a)) <==> InStreamOrder(rows, a)
  {
    if rows != [] {
      var front, r := rows[..|rows| - 1], rows[|rows| - 1];
      assert rows == front + [r];
      AgreesPerAccountExactly(front, a);
      if r.account != a || r in front {
        StepKeepsLinked(front, r, a);
      } else {
        StepAppends(front, r, a);
        if r.group in FirstSeen(front) {
          KnownGroupAgrees(front, r);
        } else {
          NewGroupAppends(front, r);
          SnocCancels(LinkedGroups(front, a), FirstSeen(RowsFor(front, a)), r.group);
        }
      }
    }
  }

  lemma SnocCancels(s: seq<int>, t: seq<int>, g: int)
    ensures s + [g] == t + [g] <==> s == t
  {
    if s + [g] == t + [g] {
      assert (s + [g])[..|s|] == s && (t + [g])[..|t|] == t;
    }
  }

  function Last(s: seq<int>): int
    requires s != []
  {
    s[|s| - 1]
  }

  lemma KnownGroupAgrees(front: seq<JoinRow>, r: JoinRow)
    requires r !in front && r.group in FirstSeen(front)
    ensures var single := FirstSeen(RowsFor(front, r.account));
            LinkedGroups(front + [r], r.account) == single + [r.group]
            <==> LinkedGroups(front, r.account) == single && NoneLinkedAfter(front, r.group, r.account)
  {
    var gs, g := FirstSeen(front), r.group;
    var k :| 0 <= k < |gs| && gs[k] == g;
    assert gs == gs[..k] + [g] + gs[k + 1..];
    KnownGroupAgreesAt(front, r, gs[..k], gs[k + 1..]);
  }

  lemma KnownGroupAgreesAt(front: seq<JoinRow>, r: JoinRow, x: seq<int>, y: seq<int>)
    requires r !in front && FirstSeen(front) == x + [r.group] + y
    ensures var single := FirstSeen(RowsFor(front, r.account));
            LinkedGroups(front + [r], r.account) == single + [r.group]
            <==> LinkedGroups(front, r.account) == single && NoneLinkedAfter(front, r.group, r.account)
  {
    var g, a := r.group, r.account;
    FirstSeenIsExact(front);
    MiddleIsUnique(x, g, y);
    KnownGroupInserts(front, r, x, y);
    OnlyLaterGroups(front, g, x, y, a);
    LinkedInMembers(front, y, a);
    InsertedOrAppended(g, LinkedIn(front, x, a), LinkedIn(front, y, a), FirstSeen(RowsFor(front, a)));
  }

  /** A group put into the middle of a list stands at its end only if nothing follows. */
  lemma InsertedOrAppended(g: int, u: seq<int>, v: seq<int>, single: seq<int>)
    requires g !in v
    ensures u + [g] + v == single + [g] <==> u + v == single && v == []
  {
    if v == [] {
      assert u + [g] + v == u + [g] && u + v == u;
      SnocCancels(u, single, g);
    } else {
      assert Last(u + [g] + v) == v[|v| - 1] && v[|v| - 1] in v;
      assert Last(single + [g]) == g;
    }
  }

  /** In particular, if the stream lists each group's rows together, it agrees for every account. */
  lemma {:induction false} GroupedStreamAgreesPerAccount(rows: seq<JoinRow>, a: int)
    requires Grouped(rows)
    ensures InStreamOrder(rows, a) && LinkedGroups(rows, a) == FirstSeen(RowsFor(rows, a))
  {
    AgreesPerAccountExactly(rows, a);
    if rows != [] {
      var front, r := rows[..|rows| - 1], rows[|rows| - 1];
      GroupedStreamAgreesPerAccount(front, a);
      if r.group in FirstSeen(front) {
        FirstSeenIsExact(front);
        LastSeenIsLast(rows);
        assert FirstSeen(rows) == FirstSeen(front);
      }
    }
  }

  /** A row of another account, or a repeated row, changes neither side for `a`. */
  lemma StepKeepsLinked(front: seq<JoinRow>, r: JoinRow, a: int)
    requires r.account != a || JoinRow(a, r.group) in front
    ensures LinkedGroups(front + [r], a) == LinkedGroups(front, a)
    ensures FirstSeen(RowsFor(front + [r], a)) == FirstSeen(RowsFor(front, a))
  {
    var gs, g := FirstSeen(front), r.group;
    FirstSeenIsExact(front);
    assert (front + [r])[..|front|] == front;
    LinkedInSnocRow(front, r, gs, a);
    if g !in gs {
      assert JoinRow(a, g) !in front;
      assert (gs + [g])[..|gs|] == gs;
    }
    if r.account == a {
      RowsForMembers(front, a);
      FirstSeenIsExact(RowsFor(front, a));
      assert r in RowsFor(front, a);
      assert (RowsFor(front, a) + [r])[..|RowsFor(front, a)|] == RowsFor(front, a);
    } else {
      assert RowsFor(front + [r], a) == RowsFor(front, a);
    }
  }

  /** A first row of `a` for a group appends that group to the list of `a` alone. */
  lemma StepAppends(front: seq<JoinRow>, r: JoinRow, a: int)
    requires r.account == a && r !in front
    ensures FirstSeen(RowsFor(front + [r], a)) == FirstSeen(RowsFor(front, a)) + [r.group]
  {
    assert (front + [r])[..|front|] == front;
    var mine := RowsFor(front, a);
    RowsForMembers(front, a);
    FirstSeenIsExact(mine);
    assert (mine + [r])[..|mine|] == mine;
    forall x | x in mine ensures x.group != r.group {
      assert x in front && x.account == a;
    }
  }

  /** Otherwise it may not: account 1 is linked first to group 10, then to group 20,
      yet holds them the other way round, because account 2 made group 20 appear first. */
  lemma ScatteredStreamDisagrees()
    ensures var rows := [JoinRow(2, 20), JoinRow(1, 10), JoinRow(1, 20)];
            LinkedGroups(rows, 1) == [20, 10] && FirstSeen(RowsFor(rows, 1)) == [10, 20]
  {
    var r1, r2, r3 := JoinRow(2, 20), JoinRow(1, 10), JoinRow(1, 20);
    var two := [r1] + [r2];
    assert two + [r3] == [r1, r2, r3];
    TwoRows(r1, r2);
    assert FirstSeen(two + [r3]) == [20, 10] by { assert (two + [r3])[..2] == two; }
    TwoLinked(two + [r3], 20, 10, 1);
    StepAppends(two, r3, 1);
  }

  /** The groups and the rows of the first two rows of that stream. */
  lemma TwoRows(r1: JoinRow, r2: JoinRow)
    requires r1 == JoinRow(2, 20) && r2 == JoinRow(1, 10)
    ensures FirstSeen([r1] + [r2]) == [20, 10] && FirstSeen(RowsFor([r1] + [r2], 1)) == [10]
  {
    assert [r1][..0] == [] && [r2][..0] == [];
    assert ([r1] + [r2])[..1] == [r1];
    assert FirstSeen([r1]) == [20] && RowsFor([r1], 1) == [];
    assert RowsFor([r1] + [r2], 1) == [r2];
  }

  lemma TwoLinked(rows: seq<JoinRow>, g: int, h: int, a: int)
    requires rows == [JoinRow(2, g), JoinRow(a, h), JoinRow(a, g)]
    ensures LinkedIn(rows, [g, h], a) == [g, h]
  {
    assert [g, h][..1] == [g] && [g][..0] == [];
    assert rows[1] in rows && rows[2] in rows;
    assert LinkedIn(rows, [g], a) == [g];
  }
}
