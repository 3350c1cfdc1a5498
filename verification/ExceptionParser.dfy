/** The exception list of the audit gate: `split_kv` and `parse_exceptions`
    (tools/check_pnpm_audit_exceptions.py). */
module ExceptionParser {
  import opened Prelude
  import opened PythonText

  type Record = map<string, string>

  datatype ParseError = ValueError

  // ------------------------------------------------ one line

  /** Everything before the first colon. */
  function BeforeColon(s: string): (k: string)
    ensures |k| <= |s| && ':' !in k && s[..|k|] == k && (':' in s <==> |k| < |s|)
    ensures ':' in s ==> s[|k|] == ':'
  {
    if s == [] || s[0] == ':' then [] else [s[0]] + BeforeColon(s[1..])
  }

  /** The value without one pair of equal quotes; a lone quote is taken off as well. */
  function Unquoted(value: string): string {
    if (StartsWith(value, "\"") && EndsWith(value, "\"")) || (StartsWith(value, "'") && EndsWith(value, "'")) then
      if |value| >= 2 then value[1..|value| - 1] else ""
    else value
  }

  predicate SameQuotes(value: string) {
    value != "" && value[0] == value[|value| - 1] && (value[0] == '"' || value[0] == '\'')
  }

  /** A value loses its first and last character if and only if they are the same quote. */
  lemma UnquotedExactly(value: string)
    ensures SameQuotes(value) && |value| > 1 ==> [value[0]] + Unquoted(value) + [value[0]] == value
    ensures SameQuotes(value) && |value| == 1 ==> Unquoted(value) == ""
    ensures !SameQuotes(value) ==> Unquoted(value) == value
  {
    if value != "" {
      QuoteAtEnds(value, "\"");
      QuoteAtEnds(value, "'");
    }
  }

  lemma QuoteAtEnds(value: string, q: string)
    requires value != "" && |q| == 1
    ensures StartsWith(value, q) <==> value[0] == q[0]
    ensures EndsWith(value, q) <==> value[|value| - 1] == q[0]
  {
    assert value[..1] == [value[0]] && value[|value| - 1..] == [value[|value| - 1]] && q == [q[0]];
  }

  function KeyOf(line: string): string {
    Strip(BeforeColon(line))
  }

  function ValueOf(line: string): string
    requires ':' in line
  {
    Unquoted(Strip(line[|BeforeColon(line)| + 1..]))
  }

  /** `split_kv`: a line without a colon raises. */
  function SplitKv(line: string): Result<(string, string), ParseError> {
    if ':' in line then Ok((KeyOf(line), ValueOf(line))) else Err(ValueError)
  }

  /** What a line is to the parser: nothing, the start of an item, or a further field. */
  datatype Line = Skipped | Item(text: string) | Field(text: string)

  function Classify(raw: string): Line {
    var line := Strip(raw);
    if line == "" || StartsWith(line, "#") || StartsWith(line, "version:") || StartsWith(line, "exceptions:") then Skipped
    else if StartsWith(line, "- ") then Item(Strip(line[2..]))
    else if ':' in line then Field(line)
    else Skipped
  }

  // ------------------------------------------------ what a file means, in two passes

  /** The texts of each item: its own, then those of the fields up to the next item. Fields before
      the first item belong to none. */
  function Groups(lines: seq<string>): seq<seq<string>> {
    if lines == [] then [] else Grown(Groups(lines[..|lines| - 1]), Classify(lines[|lines| - 1]))
  }

  function Grown(groups: seq<seq<string>>, line: Line): seq<seq<string>> {
    match line
    case Skipped => groups
    case Item(t) => groups + [[t]]
    case Field(t) => if groups == [] then [] else Extended(groups, t)
  }

  function Extended(groups: seq<seq<string>>, t: string): seq<seq<string>>
    requires groups != []
  {
    groups[..|groups| - 1] + [groups[|groups| - 1] + [t]]
  }

  /** The fields of an item; a later field replaces an earlier one of the same key. */
  function RecordOf(texts: seq<string>): Record
    requires forall t :: t in texts ==> ':' in t
  {
    if texts == [] then map[]
    else
      var last := texts[|texts| - 1];
      RecordOf(texts[..|texts| - 1])[KeyOf(last) := ValueOf(last)]
  }

  predicate WellFormed(groups: seq<seq<string>>) {
    forall g, t :: g in groups && t in g ==> ':' in t
  }

  predicate NoneEmpty(groups: seq<seq<string>>) {
    forall g :: g in groups ==> g != []
  }

  function RecordsOf(groups: seq<seq<string>>): (r: seq<Record>)
    requires WellFormed(groups)
    ensures |r| == |groups| && forall i :: 0 <= i < |r| ==> r[i] == RecordOf(groups[i])
  {
    seq(|groups|, i requires 0 <= i < |groups| => RecordOf(groups[i]))
  }

  /** An item line that `split_kv` cannot split. */
  predicate Unsplittable(raw: string) {
    Classify(raw).Item? && ':' !in Classify(raw).text
  }

  lemma GroupsSnoc(lines: seq<string>, l: string)
    ensures Groups(lines + [l]) == Grown(Groups(lines), Classify(l))
  {
    assert (lines + [l])[..|lines|] == lines;
  }

  lemma GroupsSnocWellFormed(lines: seq<string>, l: string)
    ensures WellFormed(Groups(lines + [l])) <==> WellFormed(Groups(lines)) && !Unsplittable(l)
    ensures NoneEmpty(Groups(lines)) ==> NoneEmpty(Groups(lines + [l]))
  {
    GroupsSnoc(lines, l);
    match Classify(l) {
      case Skipped =>
      case Item(t) =>
        AddedGroup(Groups(lines), t);
      case Field(t) =>
        if Groups(lines) != [] {
          ExtendedGroup(Groups(lines), t);
        }
    }
  }

  lemma {:induction false} GroupsAreWellFormed(lines: seq<string>)
    ensures WellFormed(Groups(lines)) <==> forall l :: l in lines ==> !Unsplittable(l)
    ensures NoneEmpty(Groups(lines))
  {
    if lines != [] {
      var front, last := lines[..|lines| - 1], lines[|lines| - 1];
      assert lines == front + [last];
      GroupsAreWellFormed(front);
      GroupsSnocWellFormed(front, last);
    }
  }

  lemma AddedGroup(gs: seq<seq<string>>, t: string)
    ensures WellFormed(gs + [[t]]) <==> WellFormed(gs) && ':' in t
    ensures NoneEmpty(gs) ==> NoneEmpty(gs + [[t]])
  {
    var all := gs + [[t]];
    if WellFormed(all) {
      assert forall g :: g in gs ==> g in all;
      assert [t] in all && t in [t];
    }
  }

  lemma ExtendedGroup(gs: seq<seq<string>>, t: string)
    requires gs != [] && ':' in t
    ensures WellFormed(Extended(gs, t)) <==> WellFormed(gs)
    ensures NoneEmpty(gs) ==> NoneEmpty(Extended(gs, t))
  {
    var front, last := gs[..|gs| - 1], gs[|gs| - 1];
    var all := front + [last + [t]];
    assert gs == front + [last];
    assert forall g :: g in front ==> g in all && g in gs;
    assert last in gs && last + [t] in all;
    if WellFormed(all) {
      forall u | u in last ensures ':' in u {
        assert u in last + [t];
      }
    }
  }

  /** What a file means: one record for each item. */
  function ParseAll(lines: seq<string>): Result<seq<Record>, ParseError> {
    var groups := Groups(lines);
    if WellFormed(groups) then Ok(RecordsOf(groups)) else Err(ValueError)
  }

  // ------------------------------------------------ the single pass of the source

  /** `exceptions` and `current` after lines with the given groups. */
  ghost predicate Holds(groups: seq<seq<string>>, exceptions: seq<Record>, current: Option<Record>) {
    && WellFormed(groups)
    && if groups == [] then exceptions == [] && current == None
       else exceptions == RecordsOf(groups)[..|groups| - 1] && current == Some(RecordOf(groups[|groups| - 1]))
  }

  /** `if current: exceptions.append(current)`: the empty dict and `None` are both false. */
  method Flush(exceptions: seq<Record>, current: Option<Record>) returns (r: seq<Record>)
    ensures r == exceptions + if current.Some? && current.value != map[] then [current.value] else []
  {
    r := exceptions;
    if current.Some? && current.value != map[] {
      r := r + [current.value];
    }
  }

  lemma FlushedRecords(groups: seq<seq<string>>, exceptions: seq<Record>, current: Option<Record>)
    requires Holds(groups, exceptions, current) && NoneEmpty(groups)
    ensures RecordsOf(groups) == exceptions + if current.Some? && current.value != map[] then [current.value] else []
  {
    if groups != [] {
      assert groups[|groups| - 1] in groups;
      RecordIsNotEmpty(groups[|groups| - 1]);
      LastSnoc(RecordsOf(groups));
    }
  }

  lemma ItemStep(groups: seq<seq<string>>, exceptions: seq<Record>, t: string)
    requires WellFormed(groups) && exceptions == RecordsOf(groups) && ':' in t
    ensures Holds(groups + [[t]], exceptions, Some(map[KeyOf(t) := ValueOf(t)]))
  {
    AddedGroup(groups, t);
    var all := groups + [[t]];
    assert RecordsOf(all)[..|groups|] == RecordsOf(groups);
    assert [t][..0] == [];
    assert RecordOf([t]) == map[KeyOf(t) := ValueOf(t)];
  }

  lemma FieldStep(groups: seq<seq<string>>, exceptions: seq<Record>, current: Record, t: string)
    requires Holds(groups, exceptions, Some(current)) && ':' in t
    ensures Holds(Extended(groups, t), exceptions, Some(current[KeyOf(t) := ValueOf(t)]))
  {
    ExtendedGroup(groups, t);
    var front, last := groups[..|groups| - 1], groups[|groups| - 1];
    var all := front + [last + [t]];
    assert RecordsOf(all)[..|front|] == RecordsOf(groups)[..|front|];
    assert (last + [t])[..|last|] == last;
  }

  /** One line of the file, in the branches of the source. */
  method Step(raw: string, exceptions: seq<Record>, current: Option<Record>, ghost before: seq<string>)
    returns (r: Result<(seq<Record>, Option<Record>), ParseError>)
    requires Holds(Groups(before), exceptions, current)
    ensures r.Err? <==> Unsplittable(raw)
    ensures r.Ok? ==> Holds(Groups(before + [raw]), r.value.0, r.value.1)
  {
    GroupsSnoc(before, raw);
    var line := Strip(raw);
    if line == "" || StartsWith(line, "#") {
      return Ok((exceptions, current));
    }
    if StartsWith(line, "version:") || StartsWith(line, "exceptions:") {
      return Ok((exceptions, current));
    }
    if StartsWith(line, "- ") {
      var flushed := Flush(exceptions, current);
      GroupsAreWellFormed(before);
      FlushedRecords(Groups(before), exceptions, current);
      line := Strip(line[2..]);
      match SplitKv(line) {
        case Ok((key, value)) =>
          ItemStep(Groups(before), flushed, line);
          return Ok((flushed, Some(map[key := value])));
        case Err(e) =>
          return Err(e);
      }
    }
    if current.Some? && ':' in line {
      FieldStep(Groups(before), exceptions, current.value, line);
      return Ok((exceptions, Some(current.value[KeyOf(line) := ValueOf(line)])));
    }
    r := Ok((exceptions, current));
  }

  lemma StopsAt(lines: seq<string>, i: nat)
    requires i < |lines| && Unsplittable(lines[i])
    ensures ParseAll(lines) == Err(ValueError)
  {
    GroupsAreWellFormed(lines);
    assert lines[i] in lines;
  }

  /** `parse_exceptions`: the single pass answers what the file means, or raises. */
  method ParseExceptions(lines: seq<string>) returns (r: Result<seq<Record>, ParseError>)
    ensures r == ParseAll(lines)
  {
    var exceptions: seq<Record>, current: Option<Record> := [], None;
    for i := 0 to |lines|
      invariant Holds(Groups(lines[..i]), exceptions, current)
    {
      PrefixSnoc(lines, i);
      var next := Step(lines[i], exceptions, current, lines[..i]);
      if next.Err? {
        StopsAt(lines, i);
        return Err(ValueError);
      }
      exceptions, current := next.value.0, next.value.1;
    }
    assert lines[..|lines|] == lines;
    GroupsAreWellFormed(lines);
    FlushedRecords(Groups(lines), exceptions, current);
    var all := Flush(exceptions, current);
    r := Ok(all);
  }

  // ------------------------------------------------ what the answers are like

  /** Parsing raises if and only if some item line has no colon. */
  lemma ParsingRaisesExactly(lines: seq<string>)
    ensures ParseAll(lines).Err? <==> exists l :: l in lines && Unsplittable(l)
  {
    GroupsAreWellFormed(lines);
  }

  function ItemCount(lines: seq<string>): nat {
    if lines == [] then 0
    else ItemCount(lines[..|lines| - 1]) + if Classify(lines[|lines| - 1]).Item? then 1 else 0
  }

  lemma {:induction false} OneGroupPerItem(lines: seq<string>)
    ensures |Groups(lines)| == ItemCount(lines)
  {
    if lines != [] {
      OneGroupPerItem(lines[..|lines| - 1]);
    }
  }

  /** No item is lost or merged: there are as many records as item lines, none of them empty. */
  lemma OneRecordPerItem(lines: seq<string>)
    requires ParseAll(lines).Ok?
    ensures |ParseAll(lines).value| == ItemCount(lines)
    ensures forall r :: r in ParseAll(lines).value ==> r != map[]
  {
    OneGroupPerItem(lines);
    GroupsAreWellFormed(lines);
    forall i | 0 <= i < |Groups(lines)| ensures RecordOf(Groups(lines)[i]) != map[] {
      assert Groups(lines)[i] in Groups(lines);
      RecordIsNotEmpty(Groups(lines)[i]);
    }
  }

  lemma RecordIsNotEmpty(texts: seq<string>)
    requires texts != [] && forall t :: t in texts ==> ':' in t
    ensures RecordOf(texts) != map[]
  {
    assert KeyOf(texts[|texts| - 1]) in RecordOf(texts);
  }

  lemma GrownJoin(x: seq<seq<string>>, y: seq<seq<string>>, line: Line)
    requires y != [] || line.Item?
    ensures Grown(x + y, line) == x + Grown(y, line) && Grown(y, line) != []
  {
    if line.Field? {
      assert (x + y)[..|x + y| - 1] == x + y[..|y| - 1];
    }
  }

  lemma {:induction false} GroupsJoin(a: seq<string>, b: seq<string>)
    requires b != [] && Classify(b[0]).Item?
    ensures Groups(a + b) == Groups(a) + Groups(b) && Groups(b) != []
  {
    var front, last := b[..|b| - 1], b[|b| - 1];
    assert a + b == (a + front) + [last] && b == front + [last];
    if front == [] {
      assert a + front == a;
    } else {
      GroupsJoin(a, front);
    }
    GroupsSnoc(a + front, last);
    GrownJoin(Groups(a), Groups(front), Classify(last));
  }

  lemma RecordsJoin(x: seq<seq<string>>, y: seq<seq<string>>)
    ensures WellFormed(x + y) <==> WellFormed(x) && WellFormed(y)
    ensures WellFormed(x + y) ==> RecordsOf(x + y) == RecordsOf(x) + RecordsOf(y)
  {
    assert forall g :: g in x + y <==> g in x || g in y;
  }

  /** Files whose second part starts with an item parse part by part. */
  lemma ParsingIsCompositional(a: seq<string>, b: seq<string>)
    requires b != [] && Classify(b[0]).Item?
    ensures ParseAll(a + b).Ok? <==> ParseAll(a).Ok? && ParseAll(b).Ok?
    ensures ParseAll(a + b).Ok? ==> ParseAll(a + b).value == ParseAll(a).value + ParseAll(b).value
  {
    GroupsJoin(a, b);
    RecordsJoin(Groups(a), Groups(b));
  }
}
