/** How much of a report an accepting gate has looked at (tools/check_pnpm_audit_exceptions.py). */
module GateCoverage {
  import opened Prelude
  import opened PythonText
  import opened ExceptionParser
  import opened ExceptionFiles
  import opened AuditPayload
  import opened AuditGate

  lemma {:induction false} AlarmsHold(py: Python, vulns: seq<Vuln>, v: Vuln, a: Alarm)
    requires Alarms(py, vulns).Ok? && v in vulns && AlarmOf(py, v) == Ok(Some(a))
    ensures a in Alarms(py, vulns).value
  {
    var front, last := vulns[..|vulns| - 1], vulns[|vulns| - 1];
    if v != last {
      assert vulns == front + [last];
      AlarmsHold(py, front, v, a);
    }
  }

  /** When the gate passes, each high or critical record of a named package has an exception for its
      key that is still good today. */
  lemma PassedRecordsAreExcepted(py: Python, vulns: seq<Vuln>, ls: seq<Option<Listing>>, today: int, v: Vuln, a: Alarm)
    requires Alarms(py, vulns).Ok? && Passes(Alarms(py, vulns).value, ls, today)
    requires v in vulns && AlarmOf(py, v) == Ok(Some(a))
    ensures a.key.1 != "" && exists l :: l in ls && HasKey(l, a.key) && l.value.entry.expires >= today
  {
    var alarms := Alarms(py, vulns).value;
    AlarmsHold(py, vulns, v, a);
    var i := FirstOfKey(alarms, a.key);
    assert Excused(ls, alarms[i], today);
  }

  lemma {:induction false} ViaIdsOf(items: seq<Json>)
    ensures ViaIds(items) == [] <==> forall item :: item in items ==> ItemIds(item) == []
  {
    if items != [] {
      ViaIdsOf(items[..|items| - 1]);
      assert items == items[..|items| - 1] + [items[|items| - 1]];
    }
  }

  /** An entry of `vulnerabilities` yields no record, whatever its severity is, if and only if no
      item of its `via` names an advisory. */
  lemma SilentEntriesExactly(name: string, entry: Json)
    requires EntryVulns(name, entry).Ok?
    ensures EntryVulns(name, entry).value == [] <==> forall item :: item in ViaItems(entry.fields) ==> ItemIds(item) == []
  {
    ViaIdsOf(ViaItems(entry.fields));
  }

  lemma {:induction false} EntryVulnsHold(entries: seq<(string, Json)>, e: (string, Json), v: Vuln)
    requires FromVulnerabilities(entries).Ok? && e in entries
    ensures EntryVulns(e.0, e.1).Ok?
    ensures v in EntryVulns(e.0, e.1).value ==> v in FromVulnerabilities(entries).value
  {
    var front, last := entries[..|entries| - 1], entries[|entries| - 1];
    if e != last {
      assert entries == front + [last];
      EntryVulnsHold(front, e, v);
    }
  }

  /** The key under which the gate looks for an exception for an advisory of a package. */
  function KeyIn(py: Python, name: string, id: Json): Key {
    (NormalPackage(py.show, Str(name)), NormalAdvisory(py.show, id))
  }

  /** Some advisory that the entry names has an exception that is still good today. */
  ghost predicate EntryIsExcepted(py: Python, e: (string, Json), ls: seq<Option<Listing>>, today: int)
    requires e.1.Obj?
  {
    exists id, l :: id in ViaIds(ViaItems(e.1.fields)) && l in ls && HasKey(l, KeyIn(py, e.0, id))
                    && l.value.entry.expires >= today
  }

  /** In an accepted report, a high or critical vulnerability of a named package has an exception that
      is still good today, for some advisory that its `via` names, if and only if its `via` names any. */
  lemma AcceptedEntriesAreExceptedExactly(py: Python, audit: Json, ls: seq<Option<Listing>>, today: int,
                                          e: (string, Json), severity: string)
    requires AllVulns(py.show, audit).Ok? && Alarms(py, AllVulns(py.show, audit).value).Ok?
    requires Passes(Alarms(py, AllVulns(py.show, audit).value).value, ls, today)
    requires e in FieldsOf(Get(audit.fields, "vulnerabilities")) && e.0 != "" && e.1.Obj?
    requires NormalSeverity(Get(e.1.fields, "severity")) == Ok(severity) && (severity == "high" || severity == "critical")
    ensures EntryIsExcepted(py, e, ls, today) <==> exists item :: item in ViaItems(e.1.fields) && ItemIds(item) != []
  {
    var ids, vulns := ViaIds(ViaItems(e.1.fields)), AllVulns(py.show, audit).value;
    ViaIdsOf(ViaItems(e.1.fields));
    if ids != [] {
      var v := Vuln(Str(e.0), Get(e.1.fields, "severity"), ids[0]);
      EntryVulnsHold(FieldsOf(Get(audit.fields, "vulnerabilities")), e, v);
      assert EntryVulns(e.0, e.1).value[0] == v;
      assert v in vulns;
      PassedRecordsAreExcepted(py, vulns, ls, today, v, Alarm(severity, KeyIn(py, e.0, ids[0])));
      assert ids[0] in ids;
    }
  }

  /** The item of a `via` list names the advisory `id`. */
  predicate Names(item: Json, id: Json) {
    match item
    case Str(s) => s != "" && id == item
    case Obj(i) => Truthy(id) && id == ViaId(i)
    case _ => false
  }

  /** `via` lists the item, or is the item itself, a lone string. */
  predicate InVia(v: seq<(string, Json)>, item: Json) {
    || (Get(v, "via").Arr? && item in Get(v, "via").items)
    || (Get(v, "via").Str? && item == Get(v, "via"))
  }

  lemma {:induction false} ViaIdsHold(items: seq<Json>, item: Json, id: Json)
    requires item in items && Names(item, id)
    ensures id in ViaIds(items)
  {
    var front, last := items[..|items| - 1], items[|items| - 1];
    assert items == front + [last];
    if item != last {
      ViaIdsHold(front, item, id);
    }
  }

  /** An exception for the package `n` and the advisory `id` that is still good today. */
  ghost predicate ExceptedFor(py: Python, n: string, id: Json, ls: seq<Option<Listing>>, today: int) {
    exists l :: l in ls && l.Some? && l.value.key == (Strip(n), NormalAdvisory(py.show, id))
                && l.value.key.1 != "" && l.value.entry.expires >= today
  }

  /** When the gate passes, every advisory that the `via` list of a high or critical vulnerability
      names has an exception for that package that is still good today. */
  lemma ViaAdvisoriesAreExcepted(py: Python, audit: Json, ls: seq<Option<Listing>>, today: int, e: (string, Json),
                                 s: string, item: Json, id: Json)
    requires AllVulns(py.show, audit).Ok? && Alarms(py, AllVulns(py.show, audit).value).Ok?
    requires Passes(Alarms(py, AllVulns(py.show, audit).value).value, ls, today)
    requires e in FieldsOf(Get(audit.fields, "vulnerabilities")) && e.0 != "" && e.1.Obj?
    requires Get(e.1.fields, "severity") == Str(s) && (Lower(Strip(s)) == "high" || Lower(Strip(s)) == "critical")
    requires InVia(e.1.fields, item) && Names(item, id)
    ensures ExceptedFor(py, e.0, id, ls, today)
  {
    var items := ViaItems(e.1.fields);
    ViaIdsHold(items, item, id);
    var ids, vulns := ViaIds(items), AllVulns(py.show, audit).value;
    var k :| 0 <= k < |ids| && ids[k] == id;
    var v := Vuln(Str(e.0), Str(s), id);
    EntryVulnsHold(FieldsOf(Get(audit.fields, "vulnerabilities")), e, v);
    assert EntryVulns(e.0, e.1).value[k] == v;
    AlarmsExactly(py, v, s);
    PassedRecordsAreExcepted(py, vulns, ls, today, v, AlarmOf(py, v).value.value);
  }

  lemma {:induction false} AdvisoryVulnsHold(show: Json -> string, entries: seq<(string, Json)>, e: (string, Json))
    requires FromAdvisories(show, entries).Ok? && e in entries
    ensures AdvisoryVuln(show, e.1).Ok? && AdvisoryVuln(show, e.1).value in FromAdvisories(show, entries).value
  {
    var front, last := entries[..|entries| - 1], entries[|entries| - 1];
    if e != last {
      assert entries == front + [last];
      AdvisoryVulnsHold(show, front, e);
    }
  }

  /** The entry of `advisories` is about the package `n`: its module name, or where that is falsy, its
      name. */
  predicate IsAbout(a: seq<(string, Json)>, n: string) {
    || Get(a, "module_name") == Str(n)
    || (!Truthy(Get(a, "module_name")) && Get(a, "name") == Str(n))
  }

  /** When the gate passes, every high or critical entry of `advisories` about a named package has an
      exception for that package and the advisory it picks, and that advisory is not blank. */
  lemma AdvisoriesAreExcepted(py: Python, audit: Json, ls: seq<Option<Listing>>, today: int, e: (string, Json),
                              s: string, n: string, id: Json)
    requires AllVulns(py.show, audit).Ok? && Alarms(py, AllVulns(py.show, audit).value).Ok?
    requires Passes(Alarms(py, AllVulns(py.show, audit).value).value, ls, today)
    requires e in FieldsOf(Get(audit.fields, "advisories")) && e.1.Obj?
    requires Get(e.1.fields, "severity") == Str(s) && (Lower(Strip(s)) == "high" || Lower(Strip(s)) == "critical")
    requires IsAbout(e.1.fields, n) && n != "" && PickAdvisory(py.show, e.1.fields) == Ok(id)
    ensures ExceptedFor(py, n, id, ls, today)
  {
    AdvisoryVulnsHold(py.show, FieldsOf(Get(audit.fields, "advisories")), e);
    var v := AdvisoryVuln(py.show, e.1).value;
    assert v.name == Str(n) && v.severity == Str(s) && v.advisory == id;
    AlarmsExactly(py, v, s);
    PassedRecordsAreExcepted(py, AllVulns(py.show, audit).value, ls, today, v, AlarmOf(py, v).value.value);
  }

  /** An entry of the report calls for an exception for the package `n` and the advisory `id`. */
  ghost predicate Asks(show: Json -> string, audit: seq<(string, Json)>, e: (string, Json), n: string, id: Json) {
    && e.1.Obj? && n != ""
    && (|| (e in FieldsOf(Get(audit, "advisories")) && IsAbout(e.1.fields, n) && PickAdvisory(show, e.1.fields) == Ok(id))
        || (e in FieldsOf(Get(audit, "vulnerabilities")) && e.0 == n
            && exists item :: InVia(e.1.fields, item) && Names(item, id)))
  }

  /** The exception names the package and the advisory, has every required field, and a date that has
      not passed. */
  predicate Excepts(py: Python, r: Record, n: string, id: Json, today: int) {
    && AllFilled(r) && Strip(r["package"]) == Strip(n) && Lower(Strip(r["advisory"])) == NormalAdvisory(py.show, id)
    && py.date(r["expires_on"]).Some? && py.date(r["expires_on"]).value >= today
  }

  ghost predicate ExceptedIn(py: Python, exceptions: seq<Record>, n: string, id: Json, today: int) {
    exists r :: r in exceptions && Excepts(py, r, n, id, today)
  }

  lemma ListingExcepts(py: Python, r: Record, n: string, id: Json, today: int)
    requires ListingOf(py, r).Some? && ListingOf(py, r).value.key == (Strip(n), NormalAdvisory(py.show, id))
    requires ListingOf(py, r).value.entry.expires >= today
    ensures Excepts(py, r, n, id, today)
  {
    ListedExactly(py, r);
  }

  lemma ListingIsRecord(py: Python, exceptions: seq<Record>, n: string, id: Json, today: int)
    requires ExceptedFor(py, n, id, Listings(py, exceptions), today)
    ensures ExceptedIn(py, exceptions, n, id, today)
  {
    var ls := Listings(py, exceptions);
    var l :| l in ls && l.Some? && l.value.key == (Strip(n), NormalAdvisory(py.show, id)) && l.value.entry.expires >= today;
    var i :| 0 <= i < |ls| && ls[i] == l;
    ListingExcepts(py, exceptions[i], n, id, today);
  }

  /** From the report to the file: when the gate accepts, every high or critical entry of either form of
      report that names a package and an advisory has its exception in the file. */
  lemma AcceptedReportsAreExcepted(py: Python, audit: Json, file: string, today: int, e: (string, Json),
                                   s: string, n: string, id: Json)
    requires Accepts(py, audit, file, today) && Asks(py.show, audit.fields, e, n, id)
    requires Get(e.1.fields, "severity") == Str(s) && (Lower(Strip(s)) == "high" || Lower(Strip(s)) == "critical")
    ensures ExceptedIn(py, ParseAll(Lines(file)).value, n, id, today)
  {
    var exceptions := ParseAll(Lines(file)).value;
    var ls := Listings(py, exceptions);
    if e in FieldsOf(Get(audit.fields, "advisories")) && IsAbout(e.1.fields, n) && PickAdvisory(py.show, e.1.fields) == Ok(id) {
      AdvisoriesAreExcepted(py, audit, ls, today, e, s, n, id);
    } else {
      var item :| InVia(e.1.fields, item) && Names(item, id);
      ViaAdvisoriesAreExcepted(py, audit, ls, today, e, s, item, id);
    }
    ListingIsRecord(py, exceptions, n, id, today);
  }

  lemma {:induction false} SilentEntries(entries: seq<(string, Json)>)
    requires forall e :: e in entries ==> e.1.Obj? && ViaItems(e.1.fields) == []
    ensures FromVulnerabilities(entries) == Ok([])
  {
    if entries != [] {
      SilentEntries(entries[..|entries| - 1]);
      var last := entries[|entries| - 1];
      assert last in entries && ViaIds([]) == [];
      assert EntryVulns(last.0, last.1) == Ok([]);
      var none: seq<Vuln> := [];
      assert none + none == none;
    }
  }

  /** Such entries are counted but not gated: a report in order whose vulnerabilities all have an
      empty `via` is accepted without any exception, however many high ones its metadata counts. */
  lemma SilentReportsAreAccepted(py: Python, audit: Json, today: int)
    requires WellShaped(audit) && !Get(audit.fields, "advisories").Obj?
    requires forall e :: e in FieldsOf(Get(audit.fields, "vulnerabilities")) ==> e.1.Obj? && ViaItems(e.1.fields) == []
    ensures Accepts(py, audit, "", today)
  {
    SilentEntries(FieldsOf(Get(audit.fields, "vulnerabilities")));
    assert AllVulns(py.show, audit) == Ok([]);
    assert ParseAll(Lines("")) == Ok([]);
  }

  /** One high vulnerability with nothing in `via`, rightly counted: the smallest such report. */
  lemma SilentReportExists(py: Python, today: int) returns (audit: Json)
    ensures Accepts(py, audit, "", today)
    ensures SeverityCount(FieldsOf(Get(audit.fields, "vulnerabilities")), "high") == 1
  {
    var entry := [("severity", Str("high"))];
    var counts := [("high", Int(1)), ("critical", Int(0))];
    var meta := [("vulnerabilities", Obj(counts)), ("totalDependencies", Int(1))];
    var entries := [("p", Obj(entry))];
    audit := Obj([("vulnerabilities", Obj(entries)), ("metadata", Obj(meta))]);
    Differ();
    GetPair("high", Int(1), "critical", Int(0), "error");
    GetPair("vulnerabilities", Obj(counts), "totalDependencies", Int(1), "error");
    GetPair("vulnerabilities", Obj(entries), "metadata", Obj(meta), "advisories");
    GetPair("vulnerabilities", Obj(entries), "metadata", Obj(meta), "error");
    GetOne("severity", Str("high"), "via");
    HighIsNormal();
    CountOfOne("p", Obj(entry), "high", "high");
    CountOfOne("p", Obj(entry), "critical", "high");
    SilentReportsAreAccepted(py, audit, today);
  }

  lemma CountOfOne(name: string, entry: Json, severity: string, found: string)
    requires entry.Obj? && NormalSeverity(Get(entry.fields, "severity")) == Ok(found)
    ensures SeverityCount([(name, entry)], severity) == if found == severity then 1 else 0
  {
    assert [(name, entry)][..0] == [];
    assert NormalSeverity(Get(entry.fields, "severity")) == Ok(severity) <==> found == severity;
  }

  lemma Differ()
    ensures "vulnerabilities" != "advisories" && "metadata" != "advisories"
    ensures "vulnerabilities" != "error" && "metadata" != "error" && "vulnerabilities" != "metadata"
    ensures "vulnerabilities" != "totalDependencies" && "high" != "critical" && "severity" != "via"
    ensures "error" != "high" && "error" != "critical" && "error" != "totalDependencies"
  {
    assert |"vulnerabilities"| == 15 && |"advisories"| == 10 && |"metadata"| == 8 && |"error"| == 5;
    assert |"totalDependencies"| == 17 && |"high"| == 4 && |"critical"| == 8 && |"severity"| == 8 && |"via"| == 3;
  }

  lemma GetOne(k: string, v: Json, other: string)
    requires k != other
    ensures Get([(k, v)], k) == v && Get([(k, v)], other) == Null
  {}

  lemma GetPair(k: string, v: Json, l: string, w: Json, other: string)
    requires k != l && k != other && l != other
    ensures Get([(k, v), (l, w)], k) == v && Get([(k, v), (l, w)], l) == w && Get([(k, v), (l, w)], other) == Null
  {
    var both := [(k, v), (l, w)];
    assert both[1..] == [(l, w)];
    GetOne(l, w, other);
    assert Get(both, other) == Get(both[1..], other);
  }

  lemma HighIsNormal()
    ensures NormalSeverity(Str("high")) == Ok("high")
  {
    StripTrimmed("high");
    assert Trimmed("high");
    assert Lower("high") == "high";
  }
}
