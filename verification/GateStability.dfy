/** What may change in the inputs of the audit gate without changing its verdict
    (tools/check_pnpm_audit_exceptions.py). */
module GateStability {
  import opened Prelude
  import opened PythonText
  import opened ExceptionParser
  import opened ExceptionFiles
  import opened AuditPayload
  import opened AuditGate

  // ------------------------------------------------ repeats

  /** A record whose key came before may be inserted anywhere later, whatever its severity. */
  lemma {:induction false} RepeatIsIgnored(x: seq<Alarm>, a: Alarm, y: seq<Alarm>, ls: seq<Option<Listing>>, today: int)
    requires exists b :: b in x && b.key == a.key
    ensures Seen(x + [a] + y) == Seen(x + y)
    ensures Passes(x + [a] + y, ls, today) <==> Passes(x + y, ls, today)
  {
    if y == [] {
      assert x + [a] + y == x + [a] && x + y == x;
      SeenSnoc(x, a);
      CoveredSnoc(x, a, ls, today);
    } else {
      var front, last := y[..|y| - 1], y[|y| - 1];
      assert x + [a] + y == (x + [a] + front) + [last] && x + y == (x + front) + [last];
      RepeatIsIgnored(x, a, front, ls, today);
      SeenSnoc(x + [a] + front, last);
      SeenSnoc(x + front, last);
      CoveredSnoc(x + [a] + front, last, ls, today);
      CoveredSnoc(x + front, last, ls, today);
    }
  }

  // ------------------------------------------------ orders

  lemma SameMembers<T>(x: seq<T>, y: seq<T>)
    requires multiset(x) == multiset(y)
    ensures forall a :: a in x <==> a in y
  {
    assert forall a :: a in x <==> a in multiset(x);
    assert forall a :: a in y <==> a in multiset(y);
  }

  ghost predicate SameKeySameSeverity(alarms: seq<Alarm>) {
    forall a, b :: a in alarms && b in alarms && a.key == b.key ==> a == b
  }

  /** Every alarm has an advisory and every key has an alarm that is excused, but not all alarms
      are; then it matters which alarm of a key comes first. */
  ghost predicate Mixed(alarms: seq<Alarm>, ls: seq<Option<Listing>>, today: int) {
    && InOrder(ls)
    && (forall a :: a in alarms ==> a.key.1 != "")
    && (forall a :: a in alarms ==> KeyExcused(alarms, a.key, ls, today))
    && exists a :: a in alarms && !Excused(ls, a, today)
  }

  ghost predicate KeyExcused(alarms: seq<Alarm>, k: Key, ls: seq<Option<Listing>>, today: int) {
    exists b :: b in alarms && b.key == k && Excused(ls, b, today)
  }

  /** Where no alarms are mixed the verdict is decided by the alarms as a collection. */
  lemma PassesUnmixed(alarms: seq<Alarm>, ls: seq<Option<Listing>>, today: int)
    requires !Mixed(alarms, ls, today)
    ensures Passes(alarms, ls, today)
            <==> InOrder(ls) && forall a :: a in alarms ==> a.key.1 != "" && Excused(ls, a, today)
  {
    if Passes(alarms, ls, today) {
      forall a | a in alarms ensures KeyExcused(alarms, a.key, ls, today) {
        var i := FirstOfKey(alarms, a.key);
        assert alarms[i] in alarms;
      }
    }
  }

  /** With the excused alarms first, mixed alarms pass; with the others first, they do not. */
  lemma TwoOrdersDecide(good: seq<Alarm>, bad: seq<Alarm>, ls: seq<Option<Listing>>, today: int)
    requires forall a :: a in good ==> Excused(ls, a, today)
    requires forall a :: a in bad ==> !Excused(ls, a, today)
    requires Mixed(good + bad, ls, today)
    ensures Passes(good + bad, ls, today) && !Passes(bad + good, ls, today)
  {
    var x := good + bad;
    forall i | 0 <= i < |x| && IsFirst(x, i) ensures Excused(ls, x[i], today) {
      assert KeyExcused(x, x[i].key, ls, today);
      var b :| b in x && b.key == x[i].key && Excused(ls, b, today);
      assert b in good;
      var j :| 0 <= j < |good| && good[j] == b;
      assert x[j].key == x[i].key;
    }
    assert bad != [] && IsFirst(bad + good, 0) && (bad + good)[0] == bad[0];
    assert bad[0] in bad;
  }

  /** The elements for which `f` answers `want`, in order. */
  function Picked<A>(s: seq<A>, f: A -> bool, want: bool): seq<A> {
    if s == [] then []
    else Picked(s[..|s| - 1], f, want) + (if f(s[|s| - 1]) == want then [s[|s| - 1]] else [])
  }

  lemma {:induction false} PickedMembers<A>(s: seq<A>, f: A -> bool, want: bool)
    ensures forall x :: x in Picked(s, f, want) ==> x in s && f(x) == want
  {
    if s != [] {
      PickedMembers(s[..|s| - 1], f, want);
    }
  }

  lemma {:induction false} PickedSum<A>(s: seq<A>, f: A -> bool)
    ensures multiset(Picked(s, f, true)) + multiset(Picked(s, f, false)) == multiset(s)
  {
    if s != [] {
      PickedSum(s[..|s| - 1], f);
      LastSnoc(s);
    }
  }

  lemma PickedParts<A>(s: seq<A>, f: A -> bool)
    ensures multiset(Picked(s, f, true) + Picked(s, f, false)) == multiset(s)
    ensures multiset(Picked(s, f, false) + Picked(s, f, true)) == multiset(s)
  {
    PickedSum(s, f);
  }

  lemma MixedPermutes(x: seq<Alarm>, y: seq<Alarm>, ls: seq<Option<Listing>>, today: int)
    requires multiset(x) == multiset(y)
    ensures Mixed(x, ls, today) <==> Mixed(y, ls, today)
  {
    SameMembers(x, y);
    forall k ensures KeyExcused(x, k, ls, today) <==> KeyExcused(y, k, ls, today) {
    }
  }

  ghost predicate OrderIsIrrelevant(x: seq<Alarm>, ls: seq<Option<Listing>>, today: int) {
    forall y :: multiset(y) == multiset(x) ==> (Passes(y, ls, today) <==> Passes(x, ls, today))
  }

  /** The alarms may come in any order, if and only if they are not mixed. */
  lemma RecordOrderIsIrrelevantExactly(x: seq<Alarm>, ls: seq<Option<Listing>>, today: int)
    ensures OrderIsIrrelevant(x, ls, today) <==> !Mixed(x, ls, today)
  {
    if Mixed(x, ls, today) {
      MixedAlarmsDecide(x, ls, today);
    } else {
      forall y | multiset(y) == multiset(x) ensures Passes(y, ls, today) <==> Passes(x, ls, today) {
        UnmixedPermutes(x, y, ls, today);
      }
    }
  }

  lemma MixedAlarmsDecide(x: seq<Alarm>, ls: seq<Option<Listing>>, today: int)
    requires Mixed(x, ls, today)
    ensures !OrderIsIrrelevant(x, ls, today)
  {
    var f := (a: Alarm) => Excused(ls, a, today);
    var good, bad := Picked(x, f, true), Picked(x, f, false);
    PickedParts(x, f);
    PickedMembers(x, f, true);
    PickedMembers(x, f, false);
    MixedPermutes(x, good + bad, ls, today);
    TwoOrdersDecide(good, bad, ls, today);
    NotAllAlike(x, good + bad, bad + good, ls, today);
  }

  lemma NotAllAlike(x: seq<Alarm>, y: seq<Alarm>, z: seq<Alarm>, ls: seq<Option<Listing>>, today: int)
    requires multiset(y) == multiset(x) && multiset(z) == multiset(x)
    requires Passes(y, ls, today) && !Passes(z, ls, today)
    ensures !OrderIsIrrelevant(x, ls, today)
  {}

  lemma UnmixedPermutes(x: seq<Alarm>, y: seq<Alarm>, ls: seq<Option<Listing>>, today: int)
    requires multiset(y) == multiset(x) && !Mixed(x, ls, today)
    ensures Passes(y, ls, today) <==> Passes(x, ls, today)
  {
    MixedPermutes(x, y, ls, today);
    SameMembers(x, y);
    PassesUnmixed(x, ls, today);
    PassesUnmixed(y, ls, today);
  }

  /** In particular, where records of one key agree in severity. */
  lemma AgreeingIsUnmixed(x: seq<Alarm>, ls: seq<Option<Listing>>, today: int)
    requires SameKeySameSeverity(x)
    ensures !Mixed(x, ls, today) && OrderIsIrrelevant(x, ls, today)
  {
    RecordOrderIsIrrelevantExactly(x, ls, today);
  }

  /** Without that, the order of two records decides: an exception for high severity is enough when
      the high record comes first, and not when the critical one does. */
  lemma RecordOrderMayDecide(key: Key, today: int)
    requires key.1 != ""
    ensures var high, critical := Alarm("high", key), Alarm("critical", key);
            var ls := [Some(Listing(key, Entry("high", today)))];
            Passes([high, critical], ls, today) && !Passes([critical, high], ls, today)
  {
    var high, critical := Alarm("high", key), Alarm("critical", key);
    var ls := [Some(Listing(key, Entry("high", today)))];
    assert "high"[0] != "critical"[0];
    assert ls[0] in ls && Excuses(ls[0], high, today);
    assert !IsFirst([high, critical], 1) by {
      assert [high, critical][0].key == [high, critical][1].key;
    }
    assert IsFirst([critical, high], 0) && !Excuses(ls[0], critical, today);
    assert [critical, high][0] == critical;
  }

  lemma {:induction false} DistinctByCount<T>(s: seq<T>)
    ensures Distinct(s) <==> forall x :: x in s ==> multiset(s)[x] == 1
  {
    if s != [] {
      var front, last := s[..|s| - 1], s[|s| - 1];
      assert s == front + [last];
      DistinctByCount(front);
      assert forall x :: x in s <==> x in front || x == last;
      assert multiset(s) == multiset(front) + multiset{last};
      if last in front {
        var i :| 0 <= i < |front| && front[i] == last;
        assert s[i] == s[|front|];
      } else {
        assert multiset(front)[last] == 0;
        assert forall i :: 0 <= i < |front| ==> s[i] in front;
      }
    }
  }

  lemma InOrderByMembers(ls: seq<Option<Listing>>)
    ensures InOrder(ls)
            <==> && Distinct(ls) && (forall l :: l in ls ==> l.Some?)
                 && forall l, m :: l in ls && m in ls && l != m ==> l.value.key != m.value.key
  {
    if InOrder(ls) {
      forall l, m | l in ls && m in ls && l != m ensures l.value.key != m.value.key {
        var i, j :| 0 <= i < |ls| && 0 <= j < |ls| && ls[i] == l && ls[j] == m;
      }
    }
  }

  /** The exceptions may come in any order. */
  lemma ExceptionOrderIsIrrelevant(alarms: seq<Alarm>, ls: seq<Option<Listing>>, ms: seq<Option<Listing>>, today: int)
    requires multiset(ls) == multiset(ms)
    ensures Passes(alarms, ls, today) <==> Passes(alarms, ms, today)
  {
    SameMembers(ls, ms);
    DistinctByCount(ls);
    DistinctByCount(ms);
    InOrderByMembers(ls);
    InOrderByMembers(ms);
    forall a ensures Excused(ls, a, today) <==> Excused(ms, a, today) {
    }
  }

  // ------------------------------------------------ dates

  /** What is accepted on a day is accepted on every earlier day. */
  lemma AcceptedEarlier(py: Python, audit: Json, file: string, today: int, earlier: int)
    requires Accepts(py, audit, file, today) && earlier <= today
    ensures Accepts(py, audit, file, earlier)
  {
    var alarms := Alarms(py, AllVulns(py.show, audit).value).value;
    var ls := Listings(py, ParseAll(Lines(file)).value);
    forall a | Excused(ls, a, today) ensures Excused(ls, a, earlier) {
      var l :| l in ls && Excuses(l, a, today);
      assert Excuses(l, a, earlier);
    }
  }

  // ------------------------------------------------ orders of the inputs themselves

  function Mapped<A, B>(f: A -> B, s: seq<A>): (r: seq<B>)
    ensures |r| == |s| && forall i :: 0 <= i < |s| ==> r[i] == f(s[i])
  {
    seq(|s|, i requires 0 <= i < |s| => f(s[i]))
  }

  lemma {:induction false} MappedPermutes<A, B>(f: A -> B, x: seq<A>, y: seq<A>)
    requires multiset(x) == multiset(y)
    ensures multiset(Mapped(f, x)) == multiset(Mapped(f, y))
  {
    if x == [] {
      assert |multiset(y)| == 0;
    } else {
      var front, last := x[..|x| - 1], x[|x| - 1];
      var i := Position(x, y);
      MappedPermutes(f, front, y[..i] + y[i + 1..]);
      assert Mapped(f, x) == Mapped(f, front) + [f(last)];
      assert Mapped(f, y) == Mapped(f, y[..i]) + [f(last)] + Mapped(f, y[i + 1..]);
      assert Mapped(f, y[..i] + y[i + 1..]) == Mapped(f, y[..i]) + Mapped(f, y[i + 1..]);
    }
  }

  /** Where the last element of one order stands in the other. */
  lemma Position<A>(x: seq<A>, y: seq<A>) returns (i: nat)
    requires x != [] && multiset(x) == multiset(y)
    ensures i < |y| && y[i] == x[|x| - 1]
    ensures multiset(x[..|x| - 1]) == multiset(y[..i] + y[i + 1..])
  {
    var last := x[|x| - 1];
    SameMembers(x, y);
    assert last in y;
    i :| 0 <= i < |y| && y[i] == last;
    LastSnoc(x);
    WithoutOne(y, i);
    Cancel(multiset(x[..|x| - 1]), multiset(y[..i] + y[i + 1..]), last);
  }

  lemma WithoutOne<A>(y: seq<A>, i: nat)
    requires i < |y|
    ensures multiset(y) == multiset(y[..i] + y[i + 1..]) + multiset{y[i]}
  {
    assert y == y[..i] + ([y[i]] + y[i + 1..]);
  }

  lemma Cancel<A>(m: multiset<A>, n: multiset<A>, a: A)
    requires m + multiset{a} == n + multiset{a}
    ensures m == n
  {
    assert m == (m + multiset{a}) - multiset{a} && n == (n + multiset{a}) - multiset{a};
  }

  /** Writing the same exceptions in another order does not change the verdict. */
  lemma FileOrderIsIrrelevant(py: Python, audit: Json, x: seq<Fields>, y: seq<Fields>, today: int)
    requires multiset(x) == multiset(y) && forall r :: r in x ==> Writable(r)
    ensures Accepts(py, audit, Render(x), today) <==> Accepts(py, audit, Render(y), today)
  {
    SameMembers(x, y);
    WritingThenParsing(x);
    WritingThenParsing(y);
    var listing := (r: Fields) => ListingOf(py, MapOf(r));
    MappedPermutes(listing, x, y);
    var ls, ms := Listings(py, ParseAll(Lines(Render(x))).value), Listings(py, ParseAll(Lines(Render(y))).value);
    assert ls == Mapped(listing, x) && ms == Mapped(listing, y);
    if AllVulns(py.show, audit).Ok? && Alarms(py, AllVulns(py.show, audit).value).Ok? {
      ExceptionOrderIsIrrelevant(Alarms(py, AllVulns(py.show, audit).value).value, ls, ms, today);
    }
  }

  lemma {:induction false} AlarmsJoin(py: Python, x: seq<Vuln>, y: seq<Vuln>)
    ensures Alarms(py, x + y).Ok? <==> Alarms(py, x).Ok? && Alarms(py, y).Ok?
    ensures Alarms(py, x + y).Ok? ==> Alarms(py, x + y).value == Alarms(py, x).value + Alarms(py, y).value
  {
    if y == [] {
      assert x + y == x;
    } else {
      AlarmsJoin(py, x, y[..|y| - 1]);
      assert (x + y)[..|x + y| - 1] == x + y[..|y| - 1];
    }
  }

  lemma {:induction false} AlarmsPermute(py: Python, x: seq<Vuln>, y: seq<Vuln>)
    requires multiset(x) == multiset(y)
    ensures Alarms(py, x).Ok? <==> Alarms(py, y).Ok?
    ensures Alarms(py, x).Ok? ==> multiset(Alarms(py, x).value) == multiset(Alarms(py, y).value)
  {
    if x == [] {
      assert |multiset(y)| == 0;
    } else {
      var front, last := x[..|x| - 1], [x[|x| - 1]];
      var i := Position(x, y);
      var a, b := y[..i], y[i + 1..];
      AlarmsPermute(py, front, a + b);
      assert x == front + last && y == a + (last + b);
      AlarmsJoin(py, front, last);
      AlarmsJoin(py, a, last + b);
      AlarmsJoin(py, last, b);
      AlarmsJoin(py, a, b);
    }
  }

  /** A record of any severity other than high and critical, or without a name, may be inserted
      anywhere. */
  lemma QuietRecordsDoNotMatter(py: Python, x: seq<Vuln>, v: Vuln, y: seq<Vuln>, s: string)
    requires v.severity == Str(s) && ((Lower(Strip(s)) != "high" && Lower(Strip(s)) != "critical") || !Truthy(v.name))
    ensures Alarms(py, x + [v] + y) == Alarms(py, x + y)
  {
    AlarmsExactly(py, v, s);
    AlarmsJoin(py, x + [v], y);
    AlarmsJoin(py, x, [v]);
    AlarmsJoin(py, x, y);
    assert [v][..0] == [];
    assert Alarms(py, [v]) == Ok([]);
  }

  /** The order of the records of a report does not decide. */
  ghost predicate ReportOrderIsIrrelevant(py: Python, x: seq<Vuln>, ls: seq<Option<Listing>>, today: int)
    requires Alarms(py, x).Ok?
  {
    forall y :: multiset(y) == multiset(x) ==>
      Alarms(py, y).Ok? && (Passes(Alarms(py, y).value, ls, today) <==> Passes(Alarms(py, x).value, ls, today))
  }

  /** Whether the record raises an alarm that is excused. */
  predicate RaisesExcused(py: Python, v: Vuln, ls: seq<Option<Listing>>, today: int) {
    AlarmOf(py, v).Ok? && AlarmOf(py, v).value.Some? && Excused(ls, AlarmOf(py, v).value.value, today)
  }

  lemma {:induction false} AlarmsComeFrom(py: Python, x: seq<Vuln>, a: Alarm)
    requires Alarms(py, x).Ok? && a in Alarms(py, x).value
    ensures exists v :: v in x && AlarmOf(py, v) == Ok(Some(a))
  {
    var front, last := x[..|x| - 1], x[|x| - 1];
    assert x == front + [last] && last in x;
    if AlarmOf(py, last) != Ok(Some(a)) {
      AlarmsComeFrom(py, front, a);
    }
  }

  /** The records of a report may come in any order, if and only if their alarms are not mixed. */
  lemma ReportOrderIsIrrelevantExactly(py: Python, x: seq<Vuln>, ls: seq<Option<Listing>>, today: int)
    requires Alarms(py, x).Ok?
    ensures ReportOrderIsIrrelevant(py, x, ls, today) <==> !Mixed(Alarms(py, x).value, ls, today)
  {
    if Mixed(Alarms(py, x).value, ls, today) {
      MixedReportDecides(py, x, ls, today);
    } else {
      forall y | multiset(y) == multiset(x)
        ensures Alarms(py, y).Ok? && (Passes(Alarms(py, y).value, ls, today) <==> Passes(Alarms(py, x).value, ls, today))
      {
        AlarmsPermute(py, x, y);
        UnmixedPermutes(Alarms(py, x).value, Alarms(py, y).value, ls, today);
      }
    }
  }

  lemma MixedReportDecides(py: Python, x: seq<Vuln>, ls: seq<Option<Listing>>, today: int)
    requires Alarms(py, x).Ok? && Mixed(Alarms(py, x).value, ls, today)
    ensures !ReportOrderIsIrrelevant(py, x, ls, today)
  {
    var f := (v: Vuln) => RaisesExcused(py, v, ls, today);
    var good, bad := Picked(x, f, true), Picked(x, f, false);
    PickedParts(x, f);
    AlarmsPermute(py, x, good + bad);
    AlarmsJoin(py, good, bad);
    AlarmsJoin(py, bad, good);
    PickedAlarms(py, x, ls, today, true);
    PickedAlarms(py, x, ls, today, false);
    MixedPermutes(Alarms(py, x).value, Alarms(py, good + bad).value, ls, today);
    TwoOrdersDecide(Alarms(py, good).value, Alarms(py, bad).value, ls, today);
  }

  lemma PickedAlarms(py: Python, x: seq<Vuln>, ls: seq<Option<Listing>>, today: int, want: bool)
    requires Alarms(py, Picked(x, (v: Vuln) => RaisesExcused(py, v, ls, today), want)).Ok?
    ensures forall a :: a in Alarms(py, Picked(x, (v: Vuln) => RaisesExcused(py, v, ls, today), want)).value ==>
              (Excused(ls, a, today) <==> want)
  {
    var f := (v: Vuln) => RaisesExcused(py, v, ls, today);
    var picked := Picked(x, f, want);
    PickedMembers(x, f, want);
    forall a | a in Alarms(py, picked).value ensures Excused(ls, a, today) <==> want {
      AlarmsComeFrom(py, picked, a);
    }
  }
}
