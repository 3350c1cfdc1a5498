/** Exception files as text: reading their lines, and writing records so that they read back
    (tools/check_pnpm_audit_exceptions.py). */
module ExceptionFiles {
  import opened PythonText
  import opened ExceptionParser

  // ------------------------------------------------ lines

  predicate IsBreak(c: char) {
    c == '\n' || c == '\r'
  }

  predicate NoBreak(s: string) {
    forall i :: 0 <= i < |s| ==> !IsBreak(s[i])
  }

  function LineLength(text: string): (n: nat)
    ensures n <= |text| && NoBreak(text[..n]) && (n < |text| ==> IsBreak(text[n]))
  {
    if text == "" || IsBreak(text[0]) then 0
    else
      var n := LineLength(text[1..]);
      assert text[..n + 1] == [text[0]] + text[1..][..n];
      n + 1
  }

  /** `for raw in handle`, with universal newlines. */
  function Lines(text: string): seq<string>
    decreases |text|
  {
    if text == "" then []
    else
      var n := LineLength(text);
      if n == |text| then [text]
      else
        var next := if text[n] == '\r' && n + 1 < |text| && text[n + 1] == '\n' then n + 2 else n + 1;
        [text[..n] + "\n"] + Lines(text[next..])
  }

  function Joined(lines: seq<string>): string {
    if lines == [] then "" else lines[0] + Joined(lines[1..])
  }

  lemma LineLengthIs(text: string, n: nat)
    requires n < |text| && NoBreak(text[..n]) && IsBreak(text[n])
    ensures LineLength(text) == n
  {
    var m := LineLength(text);
  }

  predicate IsLine(l: string) {
    l != "" && l[|l| - 1] == '\n' && NoBreak(l[..|l| - 1])
  }

  lemma FirstLine(l: string, rest: string)
    requires IsLine(l)
    ensures Lines(l + rest) == [l] + Lines(rest)
  {
    var text, n := l + rest, |l| - 1;
    assert text[n] == '\n' && text[..n] == l[..n];
    LineLengthIs(text, n);
    assert text[n + 1..] == rest && text[..n] + "\n" == l;
  }

  lemma {:induction false} LinesOfJoined(lines: seq<string>)
    requires forall l :: l in lines ==> IsLine(l)
    ensures Lines(Joined(lines)) == lines
  {
    if lines != [] {
      assert lines[0] in lines;
      LinesOfJoined(lines[1..]);
      FirstLine(lines[0], Joined(lines[1..]));
    }
  }

  /** A carriage return ends a line as well, alone or together with a line feed. */
  lemma ReturnsEndLines(l: string, rest: string)
    requires NoBreak(l)
    ensures Lines(l + "\r\n" + rest) == [l + "\n"] + Lines(rest)
    ensures rest == "" || rest[0] != '\n' ==> Lines(l + "\r" + rest) == [l + "\n"] + Lines(rest)
  {
    var both, one, n := l + "\r\n" + rest, l + "\r" + rest, |l|;
    assert both[n] == '\r' && both[n + 1] == '\n' && both[..n] == l && both[n + 2..] == rest;
    LineLengthIs(both, n);
    assert one[n] == '\r' && one[..n] == l && one[n + 1..] == rest;
    LineLengthIs(one, n);
    assert rest != "" ==> one[n + 1] == rest[0];
  }

  // ------------------------------------------------ one field

  /** How a value is written: as it is, in single quotes, or in double quotes. */
  datatype Form = Plain | Single | Double

  function Quoted(value: string, form: Form): string {
    match form
    case Plain => value
    case Single => "'" + value + "'"
    case Double => "\"" + value + "\""
  }

  /** The text of a field. */
  function FieldText(key: string, value: string, form: Form): string {
    key + ": " + Quoted(value, form)
  }

  /** The form can express the value: any value in quotes, but not every value without. */
  predicate Expresses(form: Form, value: string) {
    form.Plain? ==> Trimmed(value) && !SameQuotes(value)
  }

  lemma {:induction false} BeforeColonOf(key: string, rest: string)
    requires ':' !in key
    ensures BeforeColon(key + ":" + rest) == key
  {
    var s := key + ":" + rest;
    var k := BeforeColon(s);
    assert s[|key|] == ':';
  }

  lemma QuotedValue(value: string, form: Form)
    requires !form.Plain?
    ensures Unquoted(Strip(" " + Quoted(value, form))) == value
  {
    var quoted := Quoted(value, form);
    assert " " + quoted == " " + quoted + "";
    StripPadded(" ", quoted, "");
    UnquotedExactly(quoted);
    assert quoted[1..|quoted| - 1] == value;
    assert ([quoted[0]] + Unquoted(quoted) + [quoted[0]])[1..|quoted| - 1] == Unquoted(quoted);
  }

  lemma PlainValue(value: string)
    ensures Unquoted(Strip(" " + value)) == value <==> Trimmed(value) && !SameQuotes(value)
  {
    var a, b := StripParts(value);
    assert " " + value == (" " + a) + Strip(value) + b;
    StripPadded(" " + a, Strip(value), b);
    StripTrimmed(value);
    UnquotedExactly(Strip(value));
    assert |value| == |a| + |Strip(value)| + |b|;
    if !Trimmed(value) {
      assert a == "" && b == "" ==> a + Strip(value) + b == Strip(value);
    }
  }

  lemma StripIsNoLonger(s: string)
    ensures |Strip(s)| <= |s|
  {
    var a, b := StripParts(s);
    assert |s| == |a| + |Strip(s)| + |b|;
  }

  /** A field reads back if and only if its key is trimmed and has no colon and its form can express
      its value: in either kind of quotes every value, and plainly every trimmed value that does not
      itself stand between equal quotes. */
  lemma FieldReadsBack(key: string, value: string, form: Form)
    ensures ':' in FieldText(key, value, form)
    ensures KeyOf(FieldText(key, value, form)) == key && ValueOf(FieldText(key, value, form)) == value
            <==> Trimmed(key) && ':' !in key && Expresses(form, value)
  {
    var text, rest := FieldText(key, value, form), " " + Quoted(value, form);
    assert text == key + ":" + rest;
    assert text[|key|] == ':';
    if ':' !in key {
      BeforeColonOf(key, rest);
      assert text[|key| + 1..] == rest;
      if form.Plain? {
        PlainValue(value);
      } else {
        QuotedValue(value, form);
      }
      StripTrimmed(key);
    } else {
      var k := BeforeColon(text);
      var i :| 0 <= i < |key| && key[i] == ':';
      assert text[i] == ':';
      StripIsNoLonger(k);
    }
  }

  lemma StartsOtherwise(s: string, p: string)
    requires s != "" && p != "" && s[0] != p[0]
    ensures !StartsWith(s, p)
  {}

  lemma DashIsItem(raw: string, text: string)
    requires Strip(raw) == "- " + text && Strip(text) == text
    ensures Classify(raw) == Item(text)
  {
    var line := Strip(raw);
    assert line[..2] == "- " && line[2..] == text && line[0] == '-';
    StartsOtherwise(line, "#");
    StartsOtherwise(line, "version:");
    StartsOtherwise(line, "exceptions:");
  }

  /** The line of the first field of an item is an item line, whatever the key is. */
  lemma FirstLineIsItem(key: string, value: string, form: Form)
    requires Trimmed(key) && Trimmed(Quoted(value, form)) && Quoted(value, form) != ""
    ensures Classify("- " + FieldText(key, value, form) + "\n") == Item(FieldText(key, value, form))
  {
    var text := FieldText(key, value, form);
    TextIsTrimmed(key, value, form);
    var line := "- " + text;
    assert line[0] == '-' && line[|line| - 1] == text[|text| - 1];
    assert "" + line + "\n" == line + "\n";
    StripPadded("", line, "\n");
    DashIsItem(line + "\n", text);
  }

  lemma TextIsTrimmed(key: string, value: string, form: Form)
    requires Trimmed(key) && Trimmed(Quoted(value, form)) && Quoted(value, form) != ""
    ensures Trimmed(FieldText(key, value, form)) && Strip(FieldText(key, value, form)) == FieldText(key, value, form)
  {
    var text, quoted := FieldText(key, value, form), Quoted(value, form);
    assert text[|text| - 1] == quoted[|quoted| - 1];
    assert text[0] == if key == "" then ':' else key[0];
    StripTrimmed(text);
  }

  /** The key would make its line a comment, a header or an item. */
  predicate Collides(key: string) {
    key == "version" || key == "exceptions" || StartsWith(key, "#") || StartsWith(key, "- ")
  }

  lemma HeaderIsKey(key: string, rest: string, word: string)
    requires ':' !in key && ':' !in word
    ensures StartsWith(key + ":" + rest, word + ":") <==> key == word
  {
    var text, head := key + ":" + rest, word + ":";
    BeforeColonOf(key, rest);
    if StartsWith(text, head) {
      assert text == word + ":" + text[|head|..];
      BeforeColonOf(word, text[|head|..]);
    }
    if key == word {
      assert text[..|head|] == head;
    }
  }

  lemma PrefixOfKey(key: string, rest: string, p: string)
    requires ':' !in key && ':' !in p
    ensures StartsWith(key + ":" + rest, p) <==> StartsWith(key, p)
  {
    var text := key + ":" + rest;
    assert text[|key|] == ':';
    if |p| <= |key| {
      assert text[..|p|] == key[..|p|];
    }
  }

  /** The line of a further field is read as that field if and only if its key does not collide. */
  lemma FurtherLineIsField(key: string, value: string, form: Form)
    requires Trimmed(key) && ':' !in key && Trimmed(Quoted(value, form)) && Quoted(value, form) != ""
    ensures Classify("  " + FieldText(key, value, form) + "\n") == Field(FieldText(key, value, form)) <==> !Collides(key)
  {
    var text, rest := FieldText(key, value, form), " " + Quoted(value, form);
    TextIsTrimmed(key, value, form);
    StripPadded("  ", text, "\n");
    assert text == key + ":" + rest && text[|key|] == ':';
    HeaderIsKey(key, rest, "version");
    HeaderIsKey(key, rest, "exceptions");
    assert "version" + ":" == "version:" && "exceptions" + ":" == "exceptions:";
    PrefixOfKey(key, rest, "#");
    PrefixOfKey(key, rest, "- ");
  }

  // ------------------------------------------------ whole files

  /** One field as it is to be written. */
  datatype Written = Written(key: string, value: string, form: Form) {
    function Text(): string { FieldText(key, value, form) }
  }

  type Fields = seq<Written>

  function MapOf(fields: Fields): Record {
    if fields == [] then map[] else MapOf(fields[..|fields| - 1])[fields[|fields| - 1].key := fields[|fields| - 1].value]
  }

  /** A field that reads back from its own line. */
  predicate Readable(w: Written) {
    && Trimmed(w.key) && ':' !in w.key && NoBreak(w.key) && NoBreak(w.value)
    && Expresses(w.form, w.value) && (w.form.Plain? ==> w.value != "")
  }

  /** What a record needs in order to be written: some field, fields that read back, and no further
      key that collides. */
  predicate Writable(fields: Fields) {
    && fields != [] && (forall i :: 0 <= i < |fields| ==> Readable(fields[i]))
    && forall i :: 1 <= i < |fields| ==> !Collides(fields[i].key)
  }

  function LinesFor(fields: Fields): seq<string> {
    if fields == [] then []
    else
      var last := |fields| - 1;
      LinesFor(fields[..last]) + [(if last == 0 then "- " else "  ") + fields[last].Text() + "\n"]
  }

  function TextsFor(fields: Fields): seq<string> {
    if fields == [] then [] else TextsFor(fields[..|fields| - 1]) + [fields[|fields| - 1].Text()]
  }

  /** The rendering of a list of records. */
  function AllLines(records: seq<Fields>): seq<string> {
    if records == [] then [] else AllLines(records[..|records| - 1]) + LinesFor(records[|records| - 1])
  }

  function Render(records: seq<Fields>): string {
    Joined(AllLines(records))
  }

  lemma WritableFront(fields: Fields)
    requires Writable(fields) && |fields| > 1
    ensures Writable(fields[..|fields| - 1])
  {}

  lemma {:induction false} RecordLinesAreLines(fields: Fields)
    requires fields == [] || Writable(fields)
    ensures forall l :: l in LinesFor(fields) ==> IsLine(l)
  {
    if fields != [] {
      var front, last := fields[..|fields| - 1], fields[|fields| - 1];
      if front != [] {
        WritableFront(fields);
      }
      RecordLinesAreLines(front);
      RenderedIsLine("- ", last);
      RenderedIsLine("  ", last);
    }
  }

  lemma {:induction false} RecordLinesGroup(fields: Fields)
    requires Writable(fields)
    ensures Groups(LinesFor(fields)) == [TextsFor(fields)]
    ensures LinesFor(fields) != [] && Classify(LinesFor(fields)[0]).Item?
  {
    var front, last := fields[..|fields| - 1], fields[|fields| - 1];
    if front == [] {
      FirstLineGroups(last);
      assert LinesFor(fields) == ["- " + last.Text() + "\n"];
      assert TextsFor(fields) == [last.Text()];
    } else {
      WritableFront(fields);
      RecordLinesGroup(front);
      FurtherLineGroups(LinesFor(front), TextsFor(front), last);
    }
  }

  lemma QuotedIsTrimmed(w: Written)
    requires Readable(w)
    ensures Trimmed(Quoted(w.value, w.form)) && Quoted(w.value, w.form) != ""
  {}

  lemma FirstLineGroups(w: Written)
    requires Readable(w)
    ensures Groups(["- " + w.Text() + "\n"]) == [[w.Text()]]
    ensures Classify("- " + w.Text() + "\n").Item?
  {
    var l := "- " + w.Text() + "\n";
    QuotedIsTrimmed(w);
    FirstLineIsItem(w.key, w.value, w.form);
    GroupsSnoc([], l);
    assert [] + [l] == [l];
  }

  lemma FurtherLineGroups(lines: seq<string>, texts: seq<string>, w: Written)
    requires Groups(lines) == [texts] && Readable(w) && !Collides(w.key)
    ensures Groups(lines + ["  " + w.Text() + "\n"]) == [texts + [w.Text()]]
  {
    QuotedIsTrimmed(w);
    FurtherLineIsField(w.key, w.value, w.form);
    GroupsSnoc(lines, "  " + w.Text() + "\n");
  }

  lemma RenderedIsLine(head: string, w: Written)
    requires NoBreak(head) && Readable(w)
    ensures IsLine(head + w.Text() + "\n")
  {
    var l := head + w.Text() + "\n";
    var quoted := Quoted(w.value, w.form);
    assert NoBreak(quoted);
    assert l[..|l| - 1] == head + w.key + ": " + quoted;
  }

  lemma {:induction false} TextsReadBack(fields: Fields)
    requires fields == [] || Writable(fields)
    ensures forall t :: t in TextsFor(fields) ==> ':' in t
    ensures RecordOf(TextsFor(fields)) == MapOf(fields)
  {
    if fields != [] {
      var front, last := fields[..|fields| - 1], fields[|fields| - 1];
      if front != [] {
        WritableFront(fields);
      }
      TextsReadBack(front);
      FieldReadsBack(last.key, last.value, last.form);
      assert TextsFor(fields)[..|TextsFor(front)|] == TextsFor(front);
    }
  }

  /** The texts of each record. */
  function AllTexts(records: seq<Fields>): seq<seq<string>> {
    if records == [] then [] else AllTexts(records[..|records| - 1]) + [TextsFor(records[|records| - 1])]
  }

  lemma {:induction false} AllTextsAt(records: seq<Fields>)
    ensures |AllTexts(records)| == |records|
    ensures forall i :: 0 <= i < |records| ==> AllTexts(records)[i] == TextsFor(records[i])
  {
    if records != [] {
      AllTextsAt(records[..|records| - 1]);
    }
  }

  lemma {:induction false} AllAreLines(records: seq<Fields>)
    requires forall r :: r in records ==> Writable(r)
    ensures forall l :: l in AllLines(records) ==> IsLine(l)
  {
    if records != [] {
      AllAreLines(records[..|records| - 1]);
      RecordLinesAreLines(records[|records| - 1]);
    }
  }

  lemma {:induction false} AllLinesGroup(records: seq<Fields>)
    requires forall r :: r in records ==> Writable(r)
    ensures Groups(AllLines(records)) == AllTexts(records)
  {
    if records != [] {
      var front, last := records[..|records| - 1], records[|records| - 1];
      assert last in records && forall r :: r in front ==> r in records;
      AllLinesGroup(front);
      RecordLinesGroup(last);
      LastRecordGroups(AllLines(front), LinesFor(last), AllTexts(front), TextsFor(last));
    }
  }

  lemma LastRecordGroups(lines: seq<string>, more: seq<string>, texts: seq<seq<string>>, last: seq<string>)
    requires more != [] && Classify(more[0]).Item? && Groups(lines) == texts && Groups(more) == [last]
    ensures Groups(lines + more) == texts + [last]
  {
    GroupsJoin(lines, more);
  }

  /** Writing any list of records, each field in any form that can express it, and parsing the file
      gives the records back. */
  lemma WritingThenParsing(records: seq<Fields>)
    requires forall r :: r in records ==> Writable(r)
    ensures ParseAll(Lines(Render(records))).Ok?
    ensures var back := ParseAll(Lines(Render(records))).value;
            |back| == |records| && forall i :: 0 <= i < |records| ==> back[i] == MapOf(records[i])
  {
    AllLinesGroup(records);
    AllAreLines(records);
    LinesOfJoined(AllLines(records));
    AllTextsAt(records);
    var groups := AllTexts(records);
    forall i | 0 <= i < |records|
      ensures groups[i] == TextsFor(records[i])
      ensures (forall t :: t in groups[i] ==> ':' in t) && RecordOf(groups[i]) == MapOf(records[i])
    {
      TextsReadBack(records[i]);
    }
  }

  // ------------------------------------------------ lines that do not matter

  /** Blank lines, comments and headers may stand anywhere. */
  lemma {:induction false} SkippedLineIsIgnored(a: seq<string>, l: string, b: seq<string>)
    requires Classify(l).Skipped?
    ensures Groups(a + [l] + b) == Groups(a + b)
  {
    if b == [] {
      assert a + [l] + b == a + [l] && a + b == a;
      GroupsSnoc(a, l);
    } else {
      var front, last := b[..|b| - 1], b[|b| - 1];
      assert a + [l] + b == (a + [l] + front) + [last] && a + b == (a + front) + [last];
      SkippedLineIsIgnored(a, l, front);
      GroupsSnoc(a + [l] + front, last);
      GroupsSnoc(a + front, last);
    }
  }

  /** A dash on a line of its own, indented or not, is such a line: it does not start an item, so the
      fields under it go to the record before it. */
  lemma BareDashIsIgnored(a: seq<string>, indent: string, pad: string, b: seq<string>)
    requires AllSpace(indent) && AllSpace(pad)
    ensures ParseAll(a + [indent + "-" + pad] + b) == ParseAll(a + b)
  {
    StripPadded(indent, "-", pad);
    assert "-"[0] != '#' && !StartsWith("-", "#");
    SkippedLineIsIgnored(a, indent + "-" + pad, b);
  }
}
