/** The audit report: the records it yields and the checks on its shape
    (tools/check_pnpm_audit_exceptions.py). */
module AuditPayload {
  import opened Prelude
  import opened PythonText

  /** A decoded JSON value; the fields of an object are in order and have different names. */
  datatype Json =
    | Null
    | Bool(b: bool)
    | Int(n: int)
    | Real(r: real)
    | Str(s: string)
    | Arr(items: seq<Json>)
    | Obj(fields: seq<(string, Json)>)

  /** An exception that nothing catches: the tool stops with a traceback. */
  datatype Raise = Raised

  predicate Truthy(j: Json) {
    match j
    case Null => false
    case Bool(b) => b
    case Int(n) => n != 0
    case Real(r) => r != 0.0
    case Str(s) => s != ""
    case Arr(items) => items != []
    case Obj(fields) => fields != []
  }

  lemma FalsyExactly(j: Json)
    ensures !Truthy(j)
            <==> j == Null || j == Bool(false) || j == Int(0) || j == Real(0.0) || j == Str("") || j == Arr([]) || j == Obj([])
  {}

  /** `a or b`. */
  function Or(a: Json, b: Json): Json {
    if Truthy(a) then a else b
  }

  /** `d.get(key)`. */
  function Get(fields: seq<(string, Json)>, key: string): Json {
    if fields == [] then Null else if fields[0].0 == key then fields[0].1 else Get(fields[1..], key)
  }

  /** `d.get(key)` is the value under the key, or null if there is none. */
  lemma {:induction false} GetFinds(fields: seq<(string, Json)>, key: string)
    ensures (forall f :: f in fields ==> f.0 != key) ==> Get(fields, key) == Null
    ensures forall i :: 0 <= i < |fields| && fields[i].0 == key && (forall j :: 0 <= j < i ==> fields[j].0 != key) ==>
              Get(fields, key) == fields[i].1
  {
    if fields != [] {
      GetFinds(fields[1..], key);
      assert forall f :: f in fields[1..] ==> f in fields;
      forall i | 0 < i < |fields| && fields[i].0 == key && (forall j :: 0 <= j < i ==> fields[j].0 != key)
        ensures Get(fields, key) == fields[i].1
      {
        assert fields[1..][i - 1] == fields[i];
      }
    }
  }

  /** `str(j)`; the text of anything but a string is a parameter. */
  function Text(show: Json -> string, j: Json): string {
    if j.Str? then j.s else show(j)
  }

  function NormalText(s: string): string {
    Lower(Strip(s))
  }

  /** Severities and advisories that differ in case or in whitespace around them are the same. */
  lemma CaseAndPaddingDoNotMatter(s: string, t: string, a: string, b: string)
    requires SameUpToCase(s, t) && AllSpace(a) && AllSpace(b)
    ensures NormalText(a + s + b) == NormalText(t)
  {
    LowerForgetsCaseExactly(s, t);
    var x, y := StripParts(s);
    assert a + s + b == (a + x) + Strip(s) + (y + b);
    StripPadded(a + x, Strip(s), y + b);
    LowerStrip(s);
    LowerStrip(t);
  }

  /** `normalize_severity`: a value that is neither false nor a string has no `strip`. */
  function NormalSeverity(j: Json): Result<string, Raise> {
    if !Truthy(j) then Ok("") else if j.Str? then Ok(NormalText(j.s)) else Err(Raised)
  }

  /** `normalize_package`. */
  function NormalPackage(show: Json -> string, j: Json): string {
    if j == Null then "" else Strip(Text(show, j))
  }

  /** `normalize_advisory`. */
  function NormalAdvisory(show: Json -> string, j: Json): string {
    if j == Null then "" else NormalText(Text(show, j))
  }

  // ------------------------------------------------ the records

  /** One record of `iter_vulns`, without its title. */
  datatype Vuln = Vuln(name: Json, severity: Json, advisory: Json)

  /** `(advisory.get("cves") or [None])[0]`. */
  function FirstCve(cves: Json): Result<Json, Raise> {
    if !Truthy(cves) then Ok(Null)
    else
      match cves
      case Arr(items) => Ok(items[0])
      case Str(s) => Ok(Str([s[0]]))
      case _ => Err(Raised)
  }

  /** `pick_advisory_id`. */
  function PickAdvisory(show: Json -> string, a: seq<(string, Json)>): Result<Json, Raise> {
    var direct := Or(Get(a, "github_advisory_id"), Get(a, "url"));
    if Truthy(direct) then Ok(direct)
    else
      match FirstCve(Get(a, "cves"))
      case Err(_) => Err(Raised)
      case Ok(cve) =>
        var id := if Get(a, "id") != Null then Str(Text(show, Get(a, "id"))) else Null;
        Ok(Or(cve, Or(id, Or(Get(a, "title"), Or(Get(a, "advisory"), Get(a, "overview"))))))
  }

  /** The id that is picked is the first that is truthy of: the GHSA id, the URL, the first CVE, the
      numeric id as text, the title, the advisory text, the overview. Picking raises exactly when it
      comes to `cves` and these are neither a list nor a string. */
  lemma PickPrefersStableIds(show: Json -> string, a: seq<(string, Json)>)
    ensures var ghsa, url, cves, id := Get(a, "github_advisory_id"), Get(a, "url"), Get(a, "cves"), Get(a, "id");
            var picked, cve := PickAdvisory(show, a), FirstCve(cves);
            var direct := Truthy(ghsa) || Truthy(url);
            var byCve := cve.Ok? && Truthy(cve.value);
            var byId := id != Null && Text(show, id) != "";
            && (Truthy(ghsa) ==> picked == Ok(ghsa))
            && (!Truthy(ghsa) && Truthy(url) ==> picked == Ok(url))
            && (picked.Err? <==> !direct && Truthy(cves) && !cves.Arr? && !cves.Str?)
            && (!direct && byCve ==> picked == Ok(cve.value))
            && (!direct && cve.Ok? && !byCve ==>
                  picked == if byId then Ok(Str(Text(show, id)))
                            else if Truthy(Get(a, "title")) then Ok(Get(a, "title"))
                            else if Truthy(Get(a, "advisory")) then Ok(Get(a, "advisory"))
                            else Ok(Get(a, "overview")))
  {}

  /** The first CVE is the first item of the list; nothing counts as no CVE. */
  lemma FirstCveIsFirst(cves: Json)
    ensures cves.Arr? && |cves.items| > 0 ==> FirstCve(cves) == Ok(cves.items[0])
    ensures !Truthy(cves) ==> FirstCve(cves) == Ok(Null)
  {}

  /** The record of one entry of `advisories`. */
  function AdvisoryVuln(show: Json -> string, entry: Json): Result<Vuln, Raise> {
    if !entry.Obj? then Err(Raised)
    else
      var a := entry.fields;
      match PickAdvisory(show, a)
      case Err(_) => Err(Raised)
      case Ok(id) => Ok(Vuln(Or(Get(a, "module_name"), Get(a, "name")), Get(a, "severity"), id))
  }

  function ViaId(i: seq<(string, Json)>): Json {
    Or(Get(i, "github_advisory_id"), Or(Get(i, "url"), Or(Get(i, "source"), Or(Get(i, "title"), Get(i, "name")))))
  }

  function ViaTitle(i: seq<(string, Json)>): Json {
    Or(Get(i, "title"), Or(Get(i, "url"), Or(Get(i, "advisory"), Get(i, "source"))))
  }

  /** A `via` item goes by its GHSA id, else its URL, else its source, else its title, else its name. */
  lemma ViaPrefersStableIds(i: seq<(string, Json)>)
    ensures var ghsa, url, source := Get(i, "github_advisory_id"), Get(i, "url"), Get(i, "source");
            ViaId(i) == if Truthy(ghsa) then ghsa
                        else if Truthy(url) then url
                        else if Truthy(source) then source
                        else if Truthy(Get(i, "title")) then Get(i, "title")
                        else Get(i, "name")
    ensures ViaTitle(i) == if Truthy(Get(i, "title")) then Get(i, "title")
                           else if Truthy(Get(i, "url")) then Get(i, "url")
                           else if Truthy(Get(i, "advisory")) then Get(i, "advisory")
                           else Get(i, "source")
  {}

  /** The advisory ids that one item of `via` names. */
  function ItemIds(item: Json): seq<Json> {
    match item
    case Obj(i) => if Truthy(ViaId(i)) then [ViaId(i)] else []
    case Str(s) => if s != "" then [item] else []
    case _ => []
  }

  /** `"; ".join` cannot join this item's title. */
  predicate Unjoinable(item: Json) {
    item.Obj? && Truthy(ViaTitle(item.fields)) && !ViaTitle(item.fields).Str?
  }

  /** An item breaks the join if and only if the first truthy one of its title, URL, advisory and source is
      no string; an item without any of them, or a lone string, does not. */
  lemma UnjoinableExactly(item: Json)
    ensures !item.Obj? ==> !Unjoinable(item)
    ensures item.Obj? ==>
              var title, url := Get(item.fields, "title"), Get(item.fields, "url");
              var advisory, source := Get(item.fields, "advisory"), Get(item.fields, "source");
              Unjoinable(item) <==>
                if Truthy(title) then !title.Str?
                else if Truthy(url) then !url.Str?
                else if Truthy(advisory) then !advisory.Str?
                else Truthy(source) && !source.Str?
  {}

  function ViaIds(items: seq<Json>): seq<Json> {
    if items == [] then [] else ViaIds(items[..|items| - 1]) + ItemIds(items[|items| - 1])
  }

  /** What `via` lists: a lone string counts as one item, and anything but a list or a string as none. */
  function ViaItems(v: seq<(string, Json)>): seq<Json> {
    match Get(v, "via")
    case Arr(items) => items
    case Str(s) => [Str(s)]
    case _ => []
  }

  function Named(name: string, severity: Json, ids: seq<Json>): (vs: seq<Vuln>)
    ensures |vs| == |ids|
  {
    seq(|ids|, i requires 0 <= i < |ids| => Vuln(Str(name), severity, ids[i]))
  }

  /** The records of one entry of `vulnerabilities`. */
  function EntryVulns(name: string, entry: Json): Result<seq<Vuln>, Raise> {
    if !entry.Obj? then Err(Raised)
    else
      var v := entry.fields;
      if exists item :: item in ViaItems(v) && Unjoinable(item) then Err(Raised)
      else Ok(Named(name, Get(v, "severity"), ViaIds(ViaItems(v))))
  }

  function FieldsOf(j: Json): seq<(string, Json)> {
    if j.Obj? then j.fields else []
  }

  function FromAdvisories(show: Json -> string, entries: seq<(string, Json)>): Result<seq<Vuln>, Raise> {
    if entries == [] then Ok([])
    else
      match FromAdvisories(show, entries[..|entries| - 1])
      case Err(_) => Err(Raised)
      case Ok(vs) =>
        match AdvisoryVuln(show, entries[|entries| - 1].1)
        case Err(_) => Err(Raised)
        case Ok(v) => Ok(vs + [v])
  }

  function FromVulnerabilities(entries: seq<(string, Json)>): Result<seq<Vuln>, Raise> {
    if entries == [] then Ok([])
    else
      match FromVulnerabilities(entries[..|entries| - 1])
      case Err(_) => Err(Raised)
      case Ok(vs) =>
        match EntryVulns(entries[|entries| - 1].0, entries[|entries| - 1].1)
        case Err(_) => Err(Raised)
        case Ok(more) => Ok(vs + more)
  }

  /** All records of a report: those of `advisories`, then those of `vulnerabilities`. */
  function AllVulns(show: Json -> string, data: Json): Result<seq<Vuln>, Raise> {
    if !data.Obj? then Err(Raised)
    else
      match FromAdvisories(show, FieldsOf(Get(data.fields, "advisories")))
      case Err(_) => Err(Raised)
      case Ok(vs) =>
        match FromVulnerabilities(FieldsOf(Get(data.fields, "vulnerabilities")))
        case Err(_) => Err(Raised)
        case Ok(more) => Ok(vs + more)
  }

  lemma {:induction false} RaisedAdvisories(show: Json -> string, entries: seq<(string, Json)>, i: nat)
    requires i < |entries| && AdvisoryVuln(show, entries[i].1).Err?
    ensures FromAdvisories(show, entries) == Err(Raised)
  {
    if i < |entries| - 1 {
      RaisedAdvisories(show, entries[..|entries| - 1], i);
    }
  }

  lemma {:induction false} RaisedVulnerabilities(entries: seq<(string, Json)>, i: nat)
    requires i < |entries| && EntryVulns(entries[i].0, entries[i].1).Err?
    ensures FromVulnerabilities(entries) == Err(Raised)
  {
    if i < |entries| - 1 {
      RaisedVulnerabilities(entries[..|entries| - 1], i);
    }
  }

  lemma JoinableSnoc(items: seq<Json>, item: Json)
    ensures (forall i :: i in items + [item] ==> !Unjoinable(i)) <==> (forall i :: i in items ==> !Unjoinable(i)) && !Unjoinable(item)
    ensures ViaIds(items + [item]) == ViaIds(items) + ItemIds(item)
  {
    assert (items + [item])[..|items|] == items;
    assert forall i :: i in items + [item] <==> i in items || i == item;
  }

  /** The inner loop over `via`: ids and titles, then the join of the titles. */
  method ReadVia(items: seq<Json>) returns (r: Result<seq<Json>, Raise>)
    ensures r == if exists item :: item in items && Unjoinable(item) then Err(Raised) else Ok(ViaIds(items))
  {
    var advisories: seq<Json>, joinable := [], true;
    for k := 0 to |items|
      invariant advisories == ViaIds(items[..k])
      invariant joinable <==> forall item :: item in items[..k] ==> !Unjoinable(item)
    {
      PrefixSnoc(items, k);
      JoinableSnoc(items[..k], items[k]);
      match items[k] {
        case Obj(i) =>
          if Truthy(ViaId(i)) {
            advisories := advisories + [ViaId(i)];
          }
          joinable := joinable && !(Truthy(ViaTitle(i)) && !ViaTitle(i).Str?);
        case Str(s) =>
          if s != "" {
            advisories := advisories + [items[k]];
          }
        case _ =>
      }
    }
    assert items[..|items|] == items;
    r := if joinable then Ok(advisories) else Err(Raised);
  }

  /** `iter_vulns`, run to its end. */
  method IterVulns(show: Json -> string, data: Json) returns (r: Result<seq<Vuln>, Raise>)
    ensures r == AllVulns(show, data)
  {
    if !data.Obj? {
      return Err(Raised);
    }
    var entries, vulns := FieldsOf(Get(data.fields, "advisories")), [];
    for i := 0 to |entries|
      invariant FromAdvisories(show, entries[..i]) == Ok(vulns)
    {
      PrefixSnoc(entries, i);
      match AdvisoryVuln(show, entries[i].1) {
        case Err(e) =>
          RaisedAdvisories(show, entries, i);
          return Err(Raised);
        case Ok(v) =>
          vulns := vulns + [v];
      }
    }
    assert entries[..|entries|] == entries;
    var rest := IterVulnerabilities(FieldsOf(Get(data.fields, "vulnerabilities")));
    match rest {
      case Err(_) =>
        r := Err(Raised);
      case Ok(more) =>
        r := Ok(vulns + more);
    }
  }

  /** One round over `vulnerabilities`. */
  method ReadEntry(name: string, entry: Json) returns (r: Result<seq<Vuln>, Raise>)
    ensures r == EntryVulns(name, entry)
  {
    if !entry.Obj? {
      return Err(Raised);
    }
    var ids := ReadVia(ViaItems(entry.fields));
    match ids {
      case Err(_) =>
        r := Err(Raised);
      case Ok(found) =>
        r := Ok(Named(name, Get(entry.fields, "severity"), found));
    }
  }

  /** The second half of `iter_vulns`. */
  method IterVulnerabilities(entries: seq<(string, Json)>) returns (r: Result<seq<Vuln>, Raise>)
    ensures r == FromVulnerabilities(entries)
  {
    var vulns := [];
    for i := 0 to |entries|
      invariant FromVulnerabilities(entries[..i]) == Ok(vulns)
    {
      PrefixSnoc(entries, i);
      var more := ReadEntry(entries[i].0, entries[i].1);
      if more.Err? {
        RaisedVulnerabilities(entries, i);
        return Err(Raised);
      }
      vulns := vulns + more.value;
    }
    assert entries[..|entries|] == entries;
    r := Ok(vulns);
  }

  // ------------------------------------------------ the shape of the report

  /** The entries of a result whose severity is `severity`; other entries than objects count as none. */
  function SeverityCount(entries: seq<(string, Json)>, severity: string): nat {
    if entries == [] then 0
    else
      var entry := entries[|entries| - 1].1;
      SeverityCount(entries[..|entries| - 1], severity)
      + if entry.Obj? && NormalSeverity(Get(entry.fields, "severity")) == Ok(severity) then 1 else 0
  }

  /** The entries that count. */
  ghost function Counted(entries: seq<(string, Json)>, severity: string): set<int> {
    set i | 0 <= i < |entries| && entries[i].1.Obj?
            && NormalSeverity(Get(entries[i].1.fields, "severity")) == Ok(severity)
  }

  lemma {:induction false} SeverityCountIsCardinality(entries: seq<(string, Json)>, severity: string)
    ensures SeverityCount(entries, severity) == |Counted(entries, severity)|
  {
    if entries != [] {
      var last := |entries| - 1;
      SeverityCountIsCardinality(entries[..last], severity);
      var front, all := Counted(entries[..last], severity), Counted(entries, severity);
      if entries[last].1.Obj? && NormalSeverity(Get(entries[last].1.fields, "severity")) == Ok(severity) {
        assert all == front + {last};
      } else {
        assert all == front;
      }
    }
  }

  predicate IsCount(j: Json) {
    j.Int? && j.n >= 0
  }

  /** A count is a natural number; a truth value or a decimal is none. */
  lemma CountsAreNaturals(j: Json)
    ensures IsCount(j) <==> exists n: nat :: j == Int(n)
  {
    assert IsCount(j) ==> j == Int(j.n);
  }

  /** Every entry's severity has a normal form. */
  predicate SeveritiesRead(entries: seq<(string, Json)>) {
    forall e :: e in entries && e.1.Obj? ==> NormalSeverity(Get(e.1.fields, "severity")).Ok?
  }

  /** A report in order: no error, exactly one kind of result, and metadata whose counts are those of
      the result. */
  predicate WellShaped(data: Json) {
    && data.Obj?
    && !Truthy(Get(data.fields, "error"))
    && var a, v, meta := Get(data.fields, "advisories"), Get(data.fields, "vulnerabilities"), Get(data.fields, "metadata");
       && (a.Obj? <==> !v.Obj?)
       && var entries := FieldsOf(a) + FieldsOf(v);
          && SeveritiesRead(entries)
          && meta.Obj? && Get(meta.fields, "vulnerabilities").Obj? && IsCount(Get(meta.fields, "totalDependencies"))
          && var counts := Get(meta.fields, "vulnerabilities").fields;
             && Get(counts, "high") == Int(SeverityCount(entries, "high"))
             && Get(counts, "critical") == Int(SeverityCount(entries, "critical"))
  }

  /** `sum(1 for result in ... if ...)`. */
  method CountSeverity(entries: seq<(string, Json)>, severity: string) returns (r: Result<nat, Raise>)
    ensures r == if SeveritiesRead(entries) then Ok(SeverityCount(entries, severity)) else Err(Raised)
  {
    var n := 0;
    for i := 0 to |entries|
      invariant SeveritiesRead(entries[..i]) && n == SeverityCount(entries[..i], severity)
    {
      PrefixSnoc(entries, i);
      var entry := entries[i].1;
      if entry.Obj? {
        match NormalSeverity(Get(entry.fields, "severity")) {
          case Err(e) =>
            assert entries[i] in entries;
            return Err(Raised);
          case Ok(s) =>
            if s == severity {
              n := n + 1;
            }
        }
      }
    }
    assert entries[..|entries|] == entries;
    r := Ok(n);
  }

  /** One round of the severity loop of `validate_audit_payload`. */
  method CheckCount(counts: seq<(string, Json)>, entries: seq<(string, Json)>, severity: string)
    returns (r: Result<bool, Raise>)
    ensures r == Ok(true) <==> SeveritiesRead(entries) && Get(counts, severity) == Int(SeverityCount(entries, severity))
    ensures r.Err? ==> !SeveritiesRead(entries)
  {
    var count := Get(counts, severity);
    if !IsCount(count) {
      return Ok(false);
    }
    var found := CountSeverity(entries, severity);
    match found {
      case Err(_) =>
        r := Err(Raised);
      case Ok(n) =>
        r := Ok(count.n == n);
    }
  }

  /** `validate_audit_payload`: finds nothing wrong exactly with reports in order. */
  method Validate(data: Json) returns (r: Result<bool, Raise>)
    ensures r == Ok(true) <==> WellShaped(data)
    ensures r.Err? ==>
              && data.Obj?
              && !SeveritiesRead(FieldsOf(Get(data.fields, "advisories")) + FieldsOf(Get(data.fields, "vulnerabilities")))
  {
    if !data.Obj? || Truthy(Get(data.fields, "error")) {
      return Ok(false);
    }
    var a, v := Get(data.fields, "advisories"), Get(data.fields, "vulnerabilities");
    if a.Obj? == v.Obj? {
      return Ok(false);
    }
    var entries := if a.Obj? then a.fields else v.fields;
    assert entries == FieldsOf(a) + FieldsOf(v);
    var metadata := Get(data.fields, "metadata");
    if !metadata.Obj? || !Get(metadata.fields, "vulnerabilities").Obj? {
      return Ok(false);
    }
    var counts := Get(metadata.fields, "vulnerabilities").fields;
    r := CheckCount(counts, entries, "high");
    if r != Ok(true) {
      return;
    }
    r := CheckCount(counts, entries, "critical");
    if r != Ok(true) {
      return;
    }
    r := Ok(IsCount(Get(metadata.fields, "totalDependencies")));
  }
}
