/** The decision of the audit gate: `main` (tools/check_pnpm_audit_exceptions.py). */
module AuditGate {
  import opened Prelude
  import opened PythonText
  import opened ExceptionParser
  import opened ExceptionFiles
  import opened AuditPayload

  /** What is outside the model: `str` on values that are no strings, and `date.fromisoformat`, with
      dates as day numbers. */
  datatype Python = Python(show: Json -> string, date: string -> Option<int>)

  /** A normalised package and a normalised advisory. */
  type Key = (string, string)

  datatype Entry = Entry(severity: string, expires: int)

  // ------------------------------------------------ the exceptions

  function Field(r: Record, f: string): string {
    if f in r then r[f] else ""
  }

  predicate Complete(r: Record) {
    && Field(r, "package") != "" && Field(r, "advisory") != "" && Field(r, "severity") != ""
    && Field(r, "mitigation") != "" && Field(r, "expires_on") != ""
  }

  function KeyFor(r: Record): Key {
    (Strip(Field(r, "package")), NormalText(Field(r, "advisory")))
  }

  /** What `main` thinks of one exception by itself. */
  datatype Status = Good | MissingFields | BadDate | BlankKey

  function StatusOf(py: Python, r: Record): Status {
    if !Complete(r) then MissingFields
    else if py.date(Field(r, "expires_on")).None? then BadDate
    else if KeyFor(r).0 == "" || KeyFor(r).1 == "" then BlankKey
    else Good
  }

  /** The record has every required field, its date is valid, and its key is not blank. */
  predicate Usable(py: Python, r: Record) {
    StatusOf(py, r) == Good
  }

  datatype Listing = Listing(key: Key, entry: Entry)

  /** What an exception puts into the index, if it is usable. */
  function ListingOf(py: Python, r: Record): Option<Listing> {
    if !Usable(py, r) then None
    else Some(Listing(KeyFor(r), Entry(NormalText(Field(r, "severity")), py.date(Field(r, "expires_on")).value)))
  }

  predicate Filled(r: Record, f: string) {
    f in r && r[f] != ""
  }

  /** The required fields are there and not empty. */
  predicate AllFilled(r: Record) {
    Filled(r, "package") && Filled(r, "advisory") && Filled(r, "severity") && Filled(r, "mitigation") && Filled(r, "expires_on")
  }

  /** An exception can be used if and only if its required fields are filled, its date is a date, and
      its package and advisory are not blank; it is indexed by its own package and advisory, with its
      own severity and date. */
  lemma ListedExactly(py: Python, r: Record)
    ensures ListingOf(py, r).Some?
            <==> && AllFilled(r) && py.date(r["expires_on"]).Some?
                 && Strip(r["package"]) != "" && Strip(r["advisory"]) != ""
    ensures ListingOf(py, r).Some? ==>
              && ListingOf(py, r).value.key == (Strip(r["package"]), Lower(Strip(r["advisory"])))
              && ListingOf(py, r).value.entry.severity == Lower(Strip(r["severity"]))
              && py.date(r["expires_on"]) == Some(ListingOf(py, r).value.entry.expires)
  {
    if AllFilled(r) {
      assert |NormalText(r["advisory"])| == |Strip(r["advisory"])|;
    }
  }

  function Listings(py: Python, exceptions: seq<Record>): (ls: seq<Option<Listing>>)
    ensures |ls| == |exceptions| && forall i :: 0 <= i < |ls| ==> ls[i] == ListingOf(py, exceptions[i])
  {
    seq(|exceptions|, i requires 0 <= i < |exceptions| => ListingOf(py, exceptions[i]))
  }

  /** The index after some exceptions: the first listing of a key stays. */
  ghost function IndexOf(ls: seq<Option<Listing>>): map<Key, Entry> {
    if ls == [] then map[]
    else
      var index, last := IndexOf(ls[..|ls| - 1]), ls[|ls| - 1];
      if last.Some? && last.value.key !in index then index[last.value.key := last.value.entry] else index
  }

  /** The exceptions that `main` reports: unusable ones, and those whose key is taken. */
  ghost function Rejected(ls: seq<Option<Listing>>): nat {
    if ls == [] then 0
    else
      var front, last := ls[..|ls| - 1], ls[|ls| - 1];
      Rejected(front) + if last.Some? && last.value.key !in IndexOf(front) then 0 else 1
  }

  lemma IndexSnoc(front: seq<Option<Listing>>, l: Option<Listing>)
    ensures var index := IndexOf(front);
            && IndexOf(front + [l])
               == (if l.Some? && l.value.key !in index then index[l.value.key := l.value.entry] else index)
            && Rejected(front + [l]) == Rejected(front) + if l.Some? && l.value.key !in index then 0 else 1
  {
    assert (front + [l])[..|front|] == front;
  }

  /** The checks on one exception by itself. */
  method Examine(py: Python, exc: Record) returns (listing: Option<Listing>)
    ensures listing == ListingOf(py, exc)
  {
    if !Complete(exc) {
      return None;
    }
    var excSeverity := NormalText(Field(exc, "severity"));
    var excPackage, excAdvisory := Strip(Field(exc, "package")), NormalText(Field(exc, "advisory"));
    var excDate := py.date(Field(exc, "expires_on"));
    if excDate == None {
      return None;
    }
    if excPackage == "" || excAdvisory == "" {
      return None;
    }
    listing := Some(Listing((excPackage, excAdvisory), Entry(excSeverity, excDate.value)));
  }

  /** The first loop of `main`. */
  method IndexExceptions(py: Python, exceptions: seq<Record>) returns (index: map<Key, Entry>, errors: nat)
    ensures index == IndexOf(Listings(py, exceptions)) && errors == Rejected(Listings(py, exceptions))
  {
    index, errors := map[], 0;
    ghost var ls := Listings(py, exceptions);
    for i := 0 to |exceptions|
      invariant index == IndexOf(ls[..i]) && errors == Rejected(ls[..i])
    {
      PrefixSnoc(ls, i);
      IndexSnoc(ls[..i], ls[i]);
      var listing := Examine(py, exceptions[i]);
      if listing.None? || listing.value.key in index {
        errors := errors + 1;
      } else {
        index := index[listing.value.key := listing.value.entry];
      }
    }
    assert ls[..|ls|] == ls;
  }

  predicate HasKey(l: Option<Listing>, k: Key) {
    l.Some? && l.value.key == k
  }

  lemma {:induction false} IndexKeys(ls: seq<Option<Listing>>, k: Key)
    ensures k in IndexOf(ls) <==> exists l :: l in ls && HasKey(l, k)
  {
    if ls != [] {
      var front, last := ls[..|ls| - 1], ls[|ls| - 1];
      assert ls == front + [last];
      IndexKeys(front, k);
      assert HasKey(last, k) ==> last in ls;
    }
  }

  /** For each of its keys the index holds the entry of the first usable exception that has it. */
  lemma {:induction false} IndexFinds(ls: seq<Option<Listing>>, k: Key) returns (i: nat)
    requires k in IndexOf(ls)
    ensures i < |ls| && ls[i] == Some(Listing(k, IndexOf(ls)[k]))
    ensures forall j :: 0 <= j < i ==> !HasKey(ls[j], k)
  {
    var front := ls[..|ls| - 1];
    if k in IndexOf(front) {
      i := IndexFinds(front, k);
    } else {
      i := |front|;
      IndexKeys(front, k);
      assert forall j :: 0 <= j < i ==> ls[j] in front;
    }
  }

  /** Every exception is usable, and no two share a key. */
  ghost predicate InOrder(ls: seq<Option<Listing>>) {
    && (forall i :: 0 <= i < |ls| ==> ls[i].Some?)
    && forall i, j :: 0 <= i < j < |ls| ==> ls[i].value.key != ls[j].value.key
  }

  /** `main` reports nothing about the exceptions exactly when they are in order. */
  lemma {:induction false} RejectsExactly(ls: seq<Option<Listing>>)
    ensures Rejected(ls) == 0 <==> InOrder(ls)
  {
    if ls != [] {
      var front, last := ls[..|ls| - 1], ls[|ls| - 1];
      RejectsExactly(front);
      if last.Some? {
        IndexKeys(front, last.value.key);
        if l :| l in front && HasKey(l, last.value.key) {
          var i :| 0 <= i < |front| && front[i] == l;
          assert ls[i] == l;
        } else {
          assert forall i :: 0 <= i < |front| ==> ls[i] in front && !HasKey(ls[i], last.value.key);
        }
      }
      assert InOrder(ls) ==> InOrder(front);
    }
  }

  // ------------------------------------------------ the records

  /** A named record of high or critical severity. */
  datatype Alarm = Alarm(severity: string, key: Key)

  function AlarmOf(py: Python, v: Vuln): Result<Option<Alarm>, Raise> {
    match NormalSeverity(v.severity)
    case Err(_) => Err(Raised)
    case Ok(severity) =>
      if (severity != "high" && severity != "critical") || !Truthy(v.name) then Ok(None)
      else Ok(Some(Alarm(severity, (NormalPackage(py.show, v.name), NormalAdvisory(py.show, v.advisory)))))
  }

  /** A record raises an alarm if and only if its severity is high or critical, up to case and
      whitespace, and it has a name; the alarm is about that severity, package and advisory. */
  lemma AlarmsExactly(py: Python, v: Vuln, s: string)
    requires v.severity == Str(s)
    ensures AlarmOf(py, v).Ok?
    ensures AlarmOf(py, v).value.Some? <==> (Lower(Strip(s)) == "high" || Lower(Strip(s)) == "critical") && Truthy(v.name)
    ensures AlarmOf(py, v).value.Some? ==>
              var a := AlarmOf(py, v).value.value;
              && a.severity == Lower(Strip(s))
              && (v.name.Str? ==> a.key.0 == Strip(v.name.s))
              && (v.advisory.Str? ==> a.key.1 == Lower(Strip(v.advisory.s))) && (v.advisory == Null ==> a.key.1 == "")
  {
    if s == "" {
      BlankIsNoAlarm();
    }
  }

  lemma BlankIsNoAlarm()
    ensures Lower(Strip("")) == ""
  {
    StripTrimmed("");
  }

  /** A record without severity raises none; one whose severity is no text stops the tool. */
  lemma OtherSeverities(py: Python, v: Vuln)
    ensures !Truthy(v.severity) ==> AlarmOf(py, v) == Ok(None)
    ensures Truthy(v.severity) && !v.severity.Str? ==> AlarmOf(py, v) == Err(Raised)
  {}

  function Alarms(py: Python, vulns: seq<Vuln>): Result<seq<Alarm>, Raise> {
    if vulns == [] then Ok([])
    else
      match Alarms(py, vulns[..|vulns| - 1])
      case Err(_) => Err(Raised)
      case Ok(alarms) =>
        match AlarmOf(py, vulns[|vulns| - 1])
        case Err(_) => Err(Raised)
        case Ok(None) => Ok(alarms)
        case Ok(Some(a)) => Ok(alarms + [a])
  }

  lemma {:induction false} RaisedAlarms(py: Python, vulns: seq<Vuln>, i: nat)
    requires i < |vulns| && AlarmOf(py, vulns[i]).Err?
    ensures Alarms(py, vulns) == Err(Raised)
  {
    if i < |vulns| - 1 {
      RaisedAlarms(py, vulns[..|vulns| - 1], i);
    }
  }

  /** The keys that have been seen; a blank advisory is reported and not seen. */
  ghost function Seen(alarms: seq<Alarm>): set<Key> {
    set a | a in alarms && a.key.1 != "" :: a.key
  }

  /** What `main` adds to its lists for one more alarm. */
  datatype Report = Report(errors: nat, missing: seq<Alarm>, expired: seq<Alarm>)

  ghost function Reported(alarms: seq<Alarm>, index: map<Key, Entry>, today: int): Report {
    if alarms == [] then Report(0, [], [])
    else
      var front, a := alarms[..|alarms| - 1], alarms[|alarms| - 1];
      AfterAlarm(Reported(front, index, today), Seen(front), a, index, today)
  }

  ghost function AfterAlarm(before: Report, seen: set<Key>, a: Alarm, index: map<Key, Entry>, today: int): Report {
    if a.key.1 == "" then before.(errors := before.errors + 1)
    else if a.key in seen then before
    else if a.key !in index then before.(missing := before.missing + [a])
    else
      var entry := index[a.key];
      before.(errors := before.errors + if entry.severity != "" && entry.severity != a.severity then 1 else 0,
              expired := before.expired + if entry.expires < today then [a] else [])
  }

  /** What `main` reports about the records, or the exception a record raises. */
  ghost function ReportOn(py: Python, vulns: seq<Vuln>, index: map<Key, Entry>, today: int): Result<Report, Raise> {
    match Alarms(py, vulns)
    case Err(_) => Err(Raised)
    case Ok(alarms) => Ok(Reported(alarms, index, today))
  }

  lemma SeenSnoc(alarms: seq<Alarm>, a: Alarm)
    ensures Seen(alarms + [a]) == Seen(alarms) + if a.key.1 != "" then {a.key} else {}
  {
    var all := alarms + [a];
    assert a in all && forall b :: b in all <==> b in alarms || b == a;
  }

  lemma ReportedSnoc(alarms: seq<Alarm>, a: Alarm, index: map<Key, Entry>, today: int)
    ensures Reported(alarms + [a], index, today)
            == AfterAlarm(Reported(alarms, index, today), Seen(alarms), a, index, today)
    ensures Seen(alarms + [a]) == Seen(alarms) + if a.key.1 != "" then {a.key} else {}
  {
    assert (alarms + [a])[..|alarms|] == alarms;
    SeenSnoc(alarms, a);
  }

  /** One round of the second loop of `main`, for an alarm. */
  method CheckAlarm(a: Alarm, seen: set<Key>, report: Report, index: map<Key, Entry>, today: int)
    returns (seen': set<Key>, report': Report)
    ensures seen' == seen + if a.key.1 != "" then {a.key} else {}
    ensures report' == AfterAlarm(report, seen, a, index, today)
  {
    var errors, missing, expired := report.errors, report.missing, report.expired;
    seen' := seen;
    if a.key.1 == "" {
      errors := errors + 1;
    } else if a.key !in seen {
      seen' := seen + {a.key};
      if a.key !in index {
        missing := missing + [a];
      } else {
        if index[a.key].severity != "" && index[a.key].severity != a.severity {
          errors := errors + 1;
        }
        if index[a.key].expires < today {
          expired := expired + [a];
        }
      }
    }
    report' := Report(errors, missing, expired);
  }

  /** The second loop of `main`. */
  method CheckVulns(py: Python, vulns: seq<Vuln>, index: map<Key, Entry>, today: int)
    returns (r: Result<Report, Raise>)
    ensures r == ReportOn(py, vulns, index, today)
  {
    var seen: set<Key>, report := {}, Report(0, [], []);
    ghost var alarms: seq<Alarm> := [];
    for i := 0 to |vulns|
      invariant Alarms(py, vulns[..i]) == Ok(alarms)
      invariant seen == Seen(alarms) && report == Reported(alarms, index, today)
    {
      PrefixSnoc(vulns, i);
      var step := AlarmOf(py, vulns[i]);
      if step.Err? {
        RaisedAlarms(py, vulns, i);
        return Err(Raised);
      }
      if step.value.Some? {
        ReportedSnoc(alarms, step.value.value, index, today);
        seen, report := CheckAlarm(step.value.value, seen, report, index, today);
        alarms := alarms + [step.value.value];
      }
    }
    assert vulns[..|vulns|] == vulns;
    r := Ok(report);
  }

  // ------------------------------------------------ the verdict

  /** The listing excuses the alarm today. */
  predicate Excuses(l: Option<Listing>, a: Alarm, today: int) {
    && HasKey(l, a.key)
    && (l.value.entry.severity == "" || l.value.entry.severity == a.severity)
    && l.value.entry.expires >= today
  }

  predicate Excused(ls: seq<Option<Listing>>, a: Alarm, today: int) {
    exists l :: l in ls && Excuses(l, a, today)
  }

  predicate IsFirst(alarms: seq<Alarm>, i: nat)
    requires i < |alarms|
  {
    forall j :: 0 <= j < i ==> alarms[j].key != alarms[i].key
  }

  lemma {:induction false} FirstOfKey(alarms: seq<Alarm>, k: Key) returns (i: nat)
    requires exists a :: a in alarms && a.key == k
    ensures i < |alarms| && alarms[i].key == k && IsFirst(alarms, i)
  {
    var front := alarms[..|alarms| - 1];
    if a :| a in front && a.key == k {
      i := FirstOfKey(front, k);
    } else {
      i := |front|;
      assert alarms == front + [alarms[i]];
      assert forall j :: 0 <= j < i ==> alarms[j] in front;
    }
  }

  /** Every alarm has an advisory, and the first alarm of each key has an exception. */
  ghost predicate Covered(alarms: seq<Alarm>, ls: seq<Option<Listing>>, today: int) {
    && (forall a :: a in alarms ==> a.key.1 != "")
    && forall i :: 0 <= i < |alarms| && IsFirst(alarms, i) ==> Excused(ls, alarms[i], today)
  }

  /** What the gate asks of the exceptions and the alarms. */
  ghost predicate Passes(alarms: seq<Alarm>, ls: seq<Option<Listing>>, today: int) {
    InOrder(ls) && Covered(alarms, ls, today)
  }

  lemma InOrderIndex(ls: seq<Option<Listing>>, a: Alarm, today: int)
    requires InOrder(ls)
    ensures Excused(ls, a, today)
            <==> a.key in IndexOf(ls) && Excuses(Some(Listing(a.key, IndexOf(ls)[a.key])), a, today)
  {
    IndexKeys(ls, a.key);
    if a.key in IndexOf(ls) {
      var i := IndexFinds(ls, a.key);
      forall l | l in ls && HasKey(l, a.key) ensures l == ls[i] {
        var j :| 0 <= j < |ls| && ls[j] == l;
      }
    }
  }

  lemma {:induction false} ReportsNothingExactly(alarms: seq<Alarm>, ls: seq<Option<Listing>>, today: int)
    requires InOrder(ls)
    ensures Reported(alarms, IndexOf(ls), today) == Report(0, [], []) <==> Covered(alarms, ls, today)
  {
    if alarms != [] {
      var front, a := alarms[..|alarms| - 1], alarms[|alarms| - 1];
      ReportsNothingExactly(front, ls, today);
      InOrderIndex(ls, a, today);
      CoveredSnoc(front, a, ls, today);
      assert alarms == front + [a];
    }
  }

  lemma CoveredSnoc(alarms: seq<Alarm>, a: Alarm, ls: seq<Option<Listing>>, today: int)
    ensures Covered(alarms + [a], ls, today)
            <==> && Covered(alarms, ls, today) && a.key.1 != ""
                 && (a.key in Seen(alarms) || Excused(ls, a, today))
  {
    var all := alarms + [a];
    assert all[|alarms|] == a && forall i :: 0 <= i < |alarms| ==> all[i] == alarms[i];
    assert forall i :: 0 <= i < |alarms| ==> (IsFirst(all, i) <==> IsFirst(alarms, i));
    assert forall b :: b in all <==> b in alarms || b == a;
    if forall b :: b in all ==> b.key.1 != "" {
      assert a.key in Seen(alarms) <==> !IsFirst(all, |alarms|) by {
        if a.key in Seen(alarms) {
          var b :| b in alarms && b.key == a.key;
          var j :| 0 <= j < |alarms| && alarms[j] == b;
          assert all[j].key == a.key;
        }
      }
    }
  }

  datatype Verdict = Exit(code: int) | Traceback

  /** What the gate is for: the report is in order, the exception file parses, every exception is
      usable and no two share a key, every record can be read, every high or critical record of a
      named package has an advisory, and the first one of each key is excused today. */
  ghost predicate Accepts(py: Python, audit: Json, file: string, today: int) {
    && WellShaped(audit)
    && ParseAll(Lines(file)).Ok?
    && AllVulns(py.show, audit).Ok?
    && Alarms(py, AllVulns(py.show, audit).value).Ok?
    && Passes(Alarms(py, AllVulns(py.show, audit).value).value, Listings(py, ParseAll(Lines(file)).value), today)
  }

  /** `main`: the exit code is 0 exactly when the gate accepts. */
  method Decide(py: Python, audit: Json, file: string, today: int) returns (verdict: Verdict)
    ensures verdict == Exit(0) <==> Accepts(py, audit, file, today)
    ensures verdict.Exit? ==> verdict.code == 0 || verdict.code == 1
  {
    var exceptions := ParseExceptions(Lines(file));
    if exceptions.Err? {
      return Traceback;
    }
    var valid := Validate(audit);
    if valid.Err? {
      return Traceback;
    }
    ghost var ls := Listings(py, exceptions.value);
    var index, errors := IndexExceptions(py, exceptions.value);
    RejectsExactly(ls);
    if !valid.value {
      errors := errors + 1;
    }
    var vulns := IterVulns(py.show, audit);
    if vulns.Err? {
      return Traceback;
    }
    var found := CheckVulns(py, vulns.value, index, today);
    if found.Err? {
      return Traceback;
    }
    if InOrder(ls) {
      ReportsNothingExactly(Alarms(py, vulns.value).value, ls, today);
    }
    var report := found.value;
    errors := errors + report.errors;
    if errors > 0 || report.missing != [] || report.expired != [] {
      return Exit(1);
    }
    verdict := Exit(0);
  }
}
