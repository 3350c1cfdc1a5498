/** Rows in, nodes out: `assignValues` over the holders of `scanValues`, and the converse
    `createSpec`, which writes a row and predicts the node that reading it will give. */
module AccountCodec {
  import opened Prelude
  import opened AccountSchema

  // ---------------------------------------------------------------- reading a row

  /** What `assignValues` writes: the struct fields and the dynamically selected values. */
  datatype NodeState = NodeState(fields: Fields, selected: map<string, Holder>)

  const FRESH := NodeState(map[], map[])

  datatype AssignError =
    MismatchedNumber(values: nat, columns: nat) | UnexpectedType(column: Column) | Undecodable(column: Column)

  /** One case of the switch of `assignValues`. The id ignores validity: NULL reads as 0. */
  function AssignOne(n: NodeState, c: Column, h: Holder): Result<NodeState, AssignError> {
    match AssertedType(c)
    case None => Ok(n.(selected := n.selected[(if c.Other? then c.name else "") := h]))
    case Some(t) =>
      if h.typ != t then Err(UnexpectedType(c))
      else if t == ByteSlice && h.content.Some? && h.content.value.SBytes? then Err(Undecodable(c))
      else if c == ID then
        Ok(n.(fields := n.fields[ID := Plain(if h.content.Some? then h.content.value else SInt(0))]))
      else if h.content.Some? then Ok(n.(fields := n.fields[c := Wrapped(c, h.content.value)]))
      else Ok(n)
  }

  /** The node and the error after the first `k` columns; an error stops the assignment. */
  function AssignUpTo(n: NodeState, columns: seq<Column>, values: seq<Holder>, k: nat)
    : (NodeState, Option<AssignError>)
    requires k <= |columns| <= |values|
  {
    if k == 0 then (n, None)
    else
      var (before, e) := AssignUpTo(n, columns, values, k - 1);
      if e.Some? then (before, e)
      else match AssignOne(before, columns[k - 1], values[k - 1])
        case Ok(after) => (after, None)
        case Err(error) => (before, Some(error))
  }

  /** A table row; a column the row does not list is NULL. */
  type Row = map<Column, Option<Scalar>>

  function Cell(row: Row, c: Column): Option<Scalar> {
    if c in row then row[c] else None
  }

  /** Every non-NULL cell of a table column has the column's type. */
  ghost predicate TypedRow(row: Row) {
    forall c :: c in row && !c.Other? && row[c].Some? ==> HasType(row[c].value, ScanType(c))
  }

  /** The holders of `scanValues`, filled by the driver from `row`. */
  function Scanned(columns: seq<Column>, row: Row): (values: seq<Holder>)
    ensures |values| == |columns|
  {
    seq(|columns|, i requires 0 <= i < |columns| => Holder(ScanType(columns[i]), Cell(row, columns[i])))
  }

  /** What the struct field of column `c` should hold for `row`. */
  function FieldOf(row: Row, c: Column): FieldValue {
    match Cell(row, c)
    case Some(s) => Wrapped(c, s)
    case None => Field(map[], c)
  }

  /** `f` is `row` read through `columns` alone: every other field is untouched. */
  ghost predicate IsProjection(f: Fields, row: Row, columns: seq<Column>) {
    forall c: Column :: !c.Other? ==> Field(f, c) == if c in columns then FieldOf(row, c) else Field(map[], c)
  }

  /** A JSON column decodes; any other column is taken as it is. */
  predicate Decodes(row: Row, c: Column) {
    ScanType(c) == ByteSlice && Cell(row, c).Some? ==> !Cell(row, c).value.SBytes?
  }

  /** Reading never meets a type mismatch, for any column list (repeated and unknown names included).
      It fails exactly when a JSON column that is read does not decode, and otherwise gives exactly
      the projection of the row onto that list. */
  lemma {:induction false} ScanThenAssign(columns: seq<Column>, row: Row, k: nat)
    requires k <= |columns|
    ensures var (n, e) := AssignUpTo(FRESH, columns, Scanned(columns, row), k);
            && (e == None <==> forall c :: c in columns[..k] ==> Decodes(row, c))
            && (e.Some? ==> e.value.Undecodable? && e.value.column in columns[..k] && !Decodes(row, e.value.column))
            && (e == None ==> IsProjection(n.fields, row, columns[..k]))
  {
    if k > 0 {
      ScanThenAssign(columns, row, k - 1);
      TypesAgree(columns[k - 1]);
      PrefixSnoc(columns, k - 1);
      AssignOneReads(AssignUpTo(FRESH, columns, Scanned(columns, row), k - 1).0, row, columns[..k - 1], columns[k - 1]);
    }
  }

  lemma AssignOneReads(n: NodeState, row: Row, before: seq<Column>, c: Column)
    ensures var r := AssignOne(n, c, Holder(ScanType(c), Cell(row, c)));
            && (r.Ok? <==> Decodes(row, c))
            && (r.Err? ==> r.error == Undecodable(c))
            && (r.Ok? && IsProjection(n.fields, row, before) ==> IsProjection(r.value.fields, row, before + [c]))
  {
    TypesAgree(c);
    var r := AssignOne(n, c, Holder(ScanType(c), Cell(row, c)));
    if r.Ok? && IsProjection(n.fields, row, before) {
      forall d: Column | !d.Other?
        ensures Field(r.value.fields, d) == if d in before + [c] then FieldOf(row, d) else Field(map[], d)
      {
        AssignOneField(n, row, c, d);
        assert d in before + [c] <==> d in before || d == c;
      }
    }
  }

  /** Assigning one column sets its field to what the row holds, and leaves the others. */
  lemma AssignOneField(n: NodeState, row: Row, c: Column, d: Column)
    requires AssignOne(n, c, Holder(ScanType(c), Cell(row, c))).Ok? && !d.Other?
    ensures var after := AssignOne(n, c, Holder(ScanType(c), Cell(row, c))).value.fields;
            && (d != c ==> Field(after, d) == Field(n.fields, d))
            && (d == c && Cell(row, c).Some? ==> Field(after, d) == FieldOf(row, d))
            && (d == c && Cell(row, c).None? ==> Field(after, d) == if c == ID then FieldOf(row, d) else Field(n.fields, d))
  {
    TypesAgree(c);
  }

  /** A value is rejected if and only if its holder has another type than the struct field, or its
      document does not decode. NULL resets the id to 0, and leaves any other field as it was. */
  lemma AssignOneExactly(n: NodeState, c: Column, h: Holder)
    ensures var r := AssignOne(n, c, h);
            && (r == Err(UnexpectedType(c)) <==> !DeclaredAs(c).NoField? && h.typ != DeclaredAs(c).typ)
            && (r == Err(Undecodable(c)) <==>
                  && (c == Credentials || c == Extra) && h.typ == ByteSlice
                  && h.content.Some? && h.content.value.SBytes?)
            && (r.Err? ==> r.error == UnexpectedType(c) || r.error == Undecodable(c))
            && (r.Ok? && c == ID && h.content == None ==> Field(r.value.fields, ID) == Plain(SInt(0)))
            && (r.Ok? && c != ID && h.content == None ==> r.value.fields == n.fields)
  {
    TypesAgree(c);
  }

  /** Every column of the list that is not a struct field is found under its own name, with the value
      of its last occurrence; nothing else is. */
  lemma {:induction false} UnknownColumnsAreSelected(columns: seq<Column>, values: seq<Holder>, k: nat, name: string)
    requires k <= |columns| <= |values|
    requires AssignUpTo(FRESH, columns, values, k).1 == None
    ensures var selected := AssignUpTo(FRESH, columns, values, k).0.selected;
            && (name in selected <==> Other(name) in columns[..k])
            && forall i :: 0 <= i < k && columns[i] == Other(name) && (forall j :: i < j < k ==> columns[j] != Other(name)) ==>
                 name in selected && selected[name] == values[i]
  {
    if k > 0 {
      UnknownColumnsAreSelected(columns, values, k - 1, name);
      PrefixSnoc(columns, k - 1);
      OnlyUnknownIsSelected(columns[k - 1]);
    }
  }

  lemma OnlyUnknownIsSelected(c: Column)
    ensures AssertedType(c) == None <==> c.Other?
  {}

  // ---------------------------------------------------------------- writing a row

  /** The part of an account mutation that `createSpec` reads. `values` holds the fields set;
      the two foreign keys are set through their edges. The id lists are in the arbitrary order
      in which the mutation lists its id sets. */
  datatype Creation = Creation(values: map<Column, Scalar>, groups: seq<int>, proxy: Option<int>,
                               owner: Option<int>, usageLogs: seq<int>)

  /** The columns `createSpec` writes as fields, in its order, in four runs. */
  const IDENTITY_FIELDS: seq<Column> := [
    CreatedAt, UpdatedAt, DeletedAt, Name, AccountLevel, Notes, Platform, Type]
  const SHARING_FIELDS: seq<Column> := [
    Credentials, Extra, ShareMode, ShareStatus, SharePolicyID, ProxyFallbackOriginID, Concurrency]
  const CAPACITY_FIELDS: seq<Column> := [
    LoadFactor, LoadFactorPaidCeiling, Priority, RateMultiplier, Status, ErrorMessage, LastUsedAt,
    ExpiresAt, AutoPauseOnExpired]
  const SCHEDULING_FIELDS: seq<Column> := [
    Schedulable, RateLimitedAt, RateLimitResetAt, OverloadUntil, TempUnschedulableUntil,
    TempUnschedulableReason, SessionWindowStart, SessionWindowEnd, SessionWindowStatus]
  const FIELD_COLUMNS: seq<Column> := IDENTITY_FIELDS + SHARING_FIELDS + CAPACITY_FIELDS + SCHEDULING_FIELDS

  /** The columns set through plain fields: all but the id and the two foreign keys. */
  predicate IsFieldColumn(c: Column) {
    !c.Other? && c != ID && c != ProxyID && c != OwnerUserID
  }

  lemma FieldColumnsAreComplete(c: Column)
    requires IsFieldColumn(c)
    ensures c in FIELD_COLUMNS
  {
    InFourRuns(IDENTITY_FIELDS, SHARING_FIELDS, CAPACITY_FIELDS, SCHEDULING_FIELDS, c);
    match c {
      case CreatedAt | UpdatedAt | DeletedAt | Name | AccountLevel | Notes | Platform | Type =>
        assert c in IDENTITY_FIELDS;
      case Credentials | Extra | ShareMode | ShareStatus | SharePolicyID | ProxyFallbackOriginID | Concurrency =>
        assert c in SHARING_FIELDS;
      case LoadFactor | LoadFactorPaidCeiling | Priority | RateMultiplier | Status | ErrorMessage | LastUsedAt
        | ExpiresAt | AutoPauseOnExpired =>
        assert c in CAPACITY_FIELDS;
      case Schedulable | RateLimitedAt | RateLimitResetAt | OverloadUntil | TempUnschedulableUntil
        | TempUnschedulableReason | SessionWindowStart | SessionWindowEnd | SessionWindowStatus =>
        assert c in SCHEDULING_FIELDS;
      case ID | OwnerUserID | ProxyID | Other(_) =>
    }
  }

  /** The Go setters only store values of their field's type, and keys are not stored as fields. */
  ghost predicate WellTyped(m: Creation) {
    forall c :: c in m.values ==> IsFieldColumn(c) && HasType(m.values[c], ScanType(c))
  }

  datatype FieldSpec = FieldSpec(column: Column, typ: HolderType, value: Scalar)
  datatype Relation = M2M | M2O(column: Column) | O2M
  datatype EdgeSpec = EdgeSpec(rel: Relation, nodes: seq<int>)
  datatype CreateSpec = CreateSpec(fields: seq<FieldSpec>, edges: seq<EdgeSpec>)

  /** How the store reads a description: later fields overwrite earlier ones, and a many-to-one
      edge writes its first node into its own column. */
  function FieldsRow(fields: seq<FieldSpec>): Row {
    if fields == [] then map[]
    else FieldsRow(fields[..|fields| - 1])[fields[|fields| - 1].column := Some(fields[|fields| - 1].value)]
  }

  function EdgesRow(edges: seq<EdgeSpec>, base: Row): Row {
    if edges == [] then base
    else
      var e := edges[|edges| - 1];
      var r := EdgesRow(edges[..|edges| - 1], base);
      if e.rel.M2O? && e.nodes != [] then r[e.rel.column := Some(SInt(e.nodes[0]))] else r
  }

  function InsertedRow(spec: CreateSpec, id: int): Row {
    EdgesRow(spec.edges, FieldsRow(spec.fields))[ID := Some(SInt(id))]
  }

  /** What the store makes of the other edges: a many-to-many edge links its nodes to the new row, and a
      one-to-many edge makes the new row their owner. */
  function Linked(edges: seq<EdgeSpec>): seq<int> {
    NodesOf(edges, M2M)
  }

  function Reowned(edges: seq<EdgeSpec>): seq<int> {
    NodesOf(edges, O2M)
  }

  function NodesOf(edges: seq<EdgeSpec>, rel: Relation): seq<int> {
    if edges == [] then []
    else NodesOf(edges[..|edges| - 1], rel) + if edges[|edges| - 1].rel == rel then edges[|edges| - 1].nodes else []
  }

  /** The field specs emitted for the columns `cols`, in order. */
  function CreatedFields(m: Creation, cols: seq<Column>): seq<FieldSpec> {
    if cols == [] then []
    else
      var c := cols[|cols| - 1];
      CreatedFields(m, cols[..|cols| - 1]) + if c in m.values then [FieldSpec(c, ScanType(c), m.values[c])] else []
  }

  function EdgeFor(rel: Relation, nodes: seq<int>): seq<EdgeSpec> {
    if nodes == [] then [] else [EdgeSpec(rel, nodes)]
  }

  /** `ProxyIDs()` and `OwnerIDs()`: at most one id. */
  function KeyIds(key: Option<int>): seq<int> {
    if key.Some? then [key.value] else []
  }

  /** The edges of `createSpec`: groups, proxy, owner, usage logs, each only when not empty. */
  function CreatedEdges(m: Creation): seq<EdgeSpec> {
    EdgeFor(M2M, m.groups) + EdgeFor(M2O(ProxyID), KeyIds(m.proxy)) + EdgeFor(M2O(OwnerUserID), KeyIds(m.owner))
    + EdgeFor(O2M, m.usageLogs)
  }

  function CreatedSpec(m: Creation): CreateSpec {
    CreateSpec(CreatedFields(m, FIELD_COLUMNS), CreatedEdges(m))
  }

  /** The node with the foreign keys of the two many-to-one edges, when set. */
  function WithKeys(m: Creation, plain: Fields): Fields {
    var withProxy := if m.proxy.Some? then plain[ProxyID := Ptr(SInt(m.proxy.value))] else plain;
    if m.owner.Some? then withProxy[OwnerUserID := Ptr(SInt(m.owner.value))] else withProxy
  }

  /** The node a mutation describes, before the store has assigned its id. */
  function CreatedNode(m: Creation): Fields {
    WithKeys(m, map c | c in m.values :: Wrapped(c, m.values[c]))
  }

  /** The field part of `createSpec`. The generated code has one `if` block for each column; the
      blocks differ in the column alone and run here as one loop over the columns in order. */
  method WriteFields(m: Creation, cols: seq<Column>) returns (node: Fields, fields: seq<FieldSpec>)
    requires forall c :: c in m.values ==> c in cols
    ensures fields == CreatedFields(m, cols)
    ensures node == map c | c in m.values :: Wrapped(c, m.values[c])
  {
    node, fields := map[], [];
    for i := 0 to |cols|
      invariant fields == CreatedFields(m, cols[..i])
      invariant node == map c | c in m.values && c in cols[..i] :: Wrapped(c, m.values[c])
    {
      var c := cols[i];
      assert cols[..i + 1] == cols[..i] + [c];
      assert cols[..i + 1][..i] == cols[..i];
      if c in m.values {
        fields := fields + [FieldSpec(c, ScanType(c), m.values[c])];
        node := node[c := Wrapped(c, m.values[c])];
      }
    }
    assert cols[..|cols|] == cols;
  }

  /** The edge part of `createSpec`. */
  method WriteEdges(m: Creation, plain: Fields) returns (node: Fields, edges: seq<EdgeSpec>)
    ensures node == WithKeys(m, plain) && edges == CreatedEdges(m)
  {
    node, edges := plain, [];
    if m.groups != [] {
      edges := edges + [EdgeSpec(M2M, m.groups)];
    }
    if m.proxy.Some? {
      node := node[ProxyID := Ptr(SInt(m.proxy.value))];
      edges := edges + [EdgeSpec(M2O(ProxyID), [m.proxy.value])];
    }
    if m.owner.Some? {
      node := node[OwnerUserID := Ptr(SInt(m.owner.value))];
      edges := edges + [EdgeSpec(M2O(OwnerUserID), [m.owner.value])];
    }
    if m.usageLogs != [] {
      edges := edges + [EdgeSpec(O2M, m.usageLogs)];
    }
  }

  /** `createSpec`: the node and the insert description, built side by side. */
  method BuildCreateSpec(m: Creation) returns (node: Fields, spec: CreateSpec)
    requires WellTyped(m)
    ensures node == CreatedNode(m) && spec == CreatedSpec(m)
    ensures Linked(spec.edges) == m.groups && Reowned(spec.edges) == m.usageLogs
    ensures forall id :: DescribesRow(InsertedRow(spec, id), m, id)
    ensures forall f :: f in spec.fields ==>
              f.column in m.values && f.value == m.values[f.column] && WrittenType(f.column) == Some(f.typ)
  {
    forall c | c in m.values ensures c in FIELD_COLUMNS {
      FieldColumnsAreComplete(c);
    }
    var fields, edges;
    node, fields := WriteFields(m, FIELD_COLUMNS);
    node, edges := WriteEdges(m, node);
    spec := CreateSpec(fields, edges);
    EdgesReachNeighbours(m);
    FieldsAreTyped(m, FIELD_COLUMNS);
    forall id ensures DescribesRow(InsertedRow(spec, id), m, id) {
      CreatedRowIsDescribed(m, id);
    }
  }

  lemma {:induction false} FieldsAreTyped(m: Creation, cols: seq<Column>)
    requires WellTyped(m)
    ensures forall f :: f in CreatedFields(m, cols) ==>
              f.column in m.values && f.value == m.values[f.column] && WrittenType(f.column) == Some(f.typ)
  {
    if cols != [] {
      FieldsAreTyped(m, cols[..|cols| - 1]);
      TypesAgree(cols[|cols| - 1]);
    }
  }

  /** The row of the account itself: its id, its two foreign keys, every field that was set, and NULL
      everywhere else. */
  ghost predicate DescribesRow(row: Row, m: Creation, id: int) {
    && Cell(row, ID) == Some(SInt(id))
    && Cell(row, ProxyID) == (if m.proxy.Some? then Some(SInt(m.proxy.value)) else None)
    && Cell(row, OwnerUserID) == (if m.owner.Some? then Some(SInt(m.owner.value)) else None)
    && forall c :: c != ID && c != ProxyID && c != OwnerUserID ==>
         Cell(row, c) == if c in m.values then Some(m.values[c]) else None
  }

  lemma CreatedRowIsDescribed(m: Creation, id: int)
    requires WellTyped(m)
    ensures DescribesRow(InsertedRow(CreatedSpec(m), id), m, id)
  {
    var row := InsertedRow(CreatedSpec(m), id);
    forall c ensures Cell(row, c) == if c == ID then Some(SInt(id)) else StoredIn(m, c) {
      FieldsRowCells(m, FIELD_COLUMNS, c);
      if c in m.values {
        FieldColumnsAreComplete(c);
      }
      CellsOfRow(m, CreatedFields(m, FIELD_COLUMNS), id, c);
    }
  }

  lemma {:induction false} NodesJoin(a: seq<EdgeSpec>, b: seq<EdgeSpec>, rel: Relation)
    ensures NodesOf(a + b, rel) == NodesOf(a, rel) + NodesOf(b, rel)
  {
    if b == [] {
      assert a + b == a;
    } else {
      var front, last := b[..|b| - 1], b[|b| - 1];
      NodesJoin(a, front, rel);
      LastSnoc(b);
      assert a + b == (a + front) + [last];
      NodesSnoc(a + front, last, rel);
      NodesSnoc(front, last, rel);
    }
  }

  lemma NodesSnoc(edges: seq<EdgeSpec>, e: EdgeSpec, rel: Relation)
    ensures NodesOf(edges + [e], rel) == NodesOf(edges, rel) + if e.rel == rel then e.nodes else []
  {
    assert (edges + [e])[..|edges|] == edges;
  }

  lemma NodesOfOne(rel: Relation, nodes: seq<int>, r: Relation)
    ensures NodesOf(EdgeFor(rel, nodes), r) == if rel == r then nodes else []
  {
    if nodes != [] {
      NodesSnoc([], EdgeSpec(rel, nodes), r);
      assert [] + [EdgeSpec(rel, nodes)] == [EdgeSpec(rel, nodes)];
    }
  }

  /** The insert links the account to exactly the groups of the mutation, and makes it the owner of
      exactly its usage logs. */
  lemma EdgesReachNeighbours(m: Creation)
    ensures Linked(CreatedEdges(m)) == m.groups && Reowned(CreatedEdges(m)) == m.usageLogs
  {
    NodesOfCreated(m, M2M);
    NodesOfCreated(m, O2M);
  }

  lemma NodesOfCreated(m: Creation, rel: Relation)
    requires !rel.M2O?
    ensures NodesOf(CreatedEdges(m), rel) == if rel == M2M then m.groups else m.usageLogs
  {
    var e1, e2 := EdgeFor(M2M, m.groups), EdgeFor(M2O(ProxyID), KeyIds(m.proxy));
    var e3, e4 := EdgeFor(M2O(OwnerUserID), KeyIds(m.owner)), EdgeFor(O2M, m.usageLogs);
    NodesJoin(e1 + e2 + e3, e4, rel);
    NodesJoin(e1 + e2, e3, rel);
    NodesJoin(e1, e2, rel);
    NodesOfOne(M2M, m.groups, rel);
    NodesOfOne(M2O(ProxyID), KeyIds(m.proxy), rel);
    NodesOfOne(M2O(OwnerUserID), KeyIds(m.owner), rel);
    NodesOfOne(O2M, m.usageLogs, rel);
  }

  lemma FieldsRowSnoc(fields: seq<FieldSpec>, f: FieldSpec)
    ensures FieldsRow(fields + [f]) == FieldsRow(fields)[f.column := Some(f.value)]
  {
    assert (fields + [f])[..|fields|] == fields;
  }

  lemma CreatedRowSnoc(m: Creation, cols: seq<Column>, d: Column)
    ensures var row := FieldsRow(CreatedFields(m, cols));
            FieldsRow(CreatedFields(m, cols + [d])) == if d in m.values then row[d := Some(m.values[d])] else row
  {
    assert (cols + [d])[..|cols|] == cols;
    var fs := CreatedFields(m, cols);
    if d in m.values {
      FieldsRowSnoc(fs, FieldSpec(d, ScanType(d), m.values[d]));
    } else {
      assert CreatedFields(m, cols + [d]) == fs;
    }
  }

  lemma {:induction false} FieldsRowCells(m: Creation, cols: seq<Column>, c: Column)
    ensures Cell(FieldsRow(CreatedFields(m, cols)), c)
            == if c in m.values && c in cols then Some(m.values[c]) else None
  {
    if cols != [] {
      var front, d := cols[..|cols| - 1], cols[|cols| - 1];
      FieldsRowCells(m, front, c);
      LastSnoc(cols);
      CreatedRowSnoc(m, front, d);
      assert c in cols <==> c in front || c == d;
    }
  }

  lemma {:induction false} EdgesRowAppend(a: seq<EdgeSpec>, b: seq<EdgeSpec>, base: Row)
    ensures EdgesRow(a + b, base) == EdgesRow(b, EdgesRow(a, base))
  {
    if b == [] {
      assert a + b == a;
    } else {
      EdgesRowAppend(a, b[..|b| - 1], base);
      assert (a + b)[..|a + b| - 1] == a + b[..|b| - 1];
    }
  }

  function KeyWritten(base: Row, c: Column, key: Option<int>): Row {
    if key.Some? then base[c := Some(SInt(key.value))] else base
  }

  lemma EdgeRow(rel: Relation, nodes: seq<int>, base: Row)
    ensures EdgesRow(EdgeFor(rel, nodes), base)
            == if rel.M2O? && nodes != [] then base[rel.column := Some(SInt(nodes[0]))] else base
  {
    if nodes != [] {
      assert [EdgeSpec(rel, nodes)][..0] == [];
    }
  }

  /** Only the two many-to-one edges write into the row of the account itself. */
  lemma EdgesRowKeys(m: Creation, base: Row)
    ensures EdgesRow(CreatedEdges(m), base)
            == KeyWritten(KeyWritten(base, ProxyID, m.proxy), OwnerUserID, m.owner)
  {
    var e1, e2 := EdgeFor(M2M, m.groups), EdgeFor(M2O(ProxyID), KeyIds(m.proxy));
    var e3, e4 := EdgeFor(M2O(OwnerUserID), KeyIds(m.owner)), EdgeFor(O2M, m.usageLogs);
    EdgesRowAppend(e1 + e2 + e3, e4, base);
    EdgesRowAppend(e1 + e2, e3, base);
    EdgesRowAppend(e1, e2, base);
    EdgeRow(M2M, m.groups, base);
    var r1 := KeyWritten(base, ProxyID, m.proxy);
    EdgeRow(M2O(ProxyID), KeyIds(m.proxy), base);
    var r2 := KeyWritten(r1, OwnerUserID, m.owner);
    EdgeRow(M2O(OwnerUserID), KeyIds(m.owner), r1);
    EdgeRow(O2M, m.usageLogs, r2);
  }

  /** The cells of the inserted row are exactly the fields of the created node, plus the id. */
  lemma InsertedRowCells(m: Creation, id: int, c: Column)
    requires WellTyped(m)
    ensures var row := InsertedRow(CreatedSpec(m), id);
            && (!c.Other? ==> FieldOf(row, c) == if c == ID then Plain(SInt(id)) else Field(CreatedNode(m), c))
            && (!c.Other? && Cell(row, c).Some? ==> HasType(Cell(row, c).value, ScanType(c)))
  {
    FieldsRowCells(m, FIELD_COLUMNS, c);
    if c in m.values {
      FieldColumnsAreComplete(c);
    }
    RowOfFieldsCells(m, CreatedFields(m, FIELD_COLUMNS), id, c);
  }

  /** What the mutation stores in column `c`, the id aside. */
  function StoredIn(m: Creation, c: Column): Option<Scalar> {
    if c == ProxyID && m.proxy.Some? then Some(SInt(m.proxy.value))
    else if c == OwnerUserID && m.owner.Some? then Some(SInt(m.owner.value))
    else if c in m.values then Some(m.values[c])
    else None
  }

  lemma CreatedNodeHolds(m: Creation, c: Column)
    requires WellTyped(m)
    ensures c in CreatedNode(m) <==> StoredIn(m, c).Some?
    ensures c in CreatedNode(m) ==> CreatedNode(m)[c] == Wrapped(c, StoredIn(m, c).value)
  {}

  lemma StoredIsTyped(m: Creation, c: Column)
    requires WellTyped(m) && !c.Other? && StoredIn(m, c).Some?
    ensures HasType(StoredIn(m, c).value, ScanType(c))
  {}

  lemma CellsOfRow(m: Creation, fields: seq<FieldSpec>, id: int, c: Column)
    requires Cell(FieldsRow(fields), c) == if c in m.values then Some(m.values[c]) else None
    ensures Cell(InsertedRow(CreateSpec(fields, CreatedEdges(m)), id), c)
            == if c == ID then Some(SInt(id)) else StoredIn(m, c)
  {
    EdgesRowKeys(m, FieldsRow(fields));
  }

  lemma RowOfFieldsCells(m: Creation, fields: seq<FieldSpec>, id: int, c: Column)
    requires WellTyped(m)
    requires Cell(FieldsRow(fields), c) == if c in m.values then Some(m.values[c]) else None
    ensures var row := InsertedRow(CreateSpec(fields, CreatedEdges(m)), id);
            && (!c.Other? ==> FieldOf(row, c) == if c == ID then Plain(SInt(id)) else Field(CreatedNode(m), c))
            && (!c.Other? && Cell(row, c).Some? ==> HasType(Cell(row, c).value, ScanType(c)))
  {
    CellsOfRow(m, fields, id, c);
    CreatedNodeHolds(m, c);
    if !c.Other? && StoredIn(m, c).Some? {
      StoredIsTyped(m, c);
    }
  }

  /** Write, then read: for every mutation and every column list, the row described by
      `createSpec` is well typed and scans back without error into the created node, restricted to
      the columns read, under the id the store assigned. */
  lemma WriteReadRoundTrip(m: Creation, id: int, columns: seq<Column>)
    requires WellTyped(m)
    ensures var row := InsertedRow(CreatedSpec(m), id);
            var (n, e) := AssignUpTo(FRESH, columns, Scanned(columns, row), |columns|);
            && TypedRow(row) && e == None
            && forall c: Column :: !c.Other? ==>
                 Field(n.fields, c) == if c !in columns then Field(map[], c)
                                       else if c == ID then Plain(SInt(id)) else Field(CreatedNode(m), c)
  {
    var row := InsertedRow(CreatedSpec(m), id);
    assert columns[..|columns|] == columns;
    forall c ensures Decodes(row, c) {
      CellReadsBack(m, id, c);
    }
    CreatedRowIsTyped(m, id);
    ScanThenAssign(columns, row, |columns|);
    var (n, _) := AssignUpTo(FRESH, columns, Scanned(columns, row), |columns|);
    forall c: Column | !c.Other?
      ensures Field(n.fields, c) == if c !in columns then Field(map[], c)
                                    else if c == ID then Plain(SInt(id)) else Field(CreatedNode(m), c)
    {
      CellReadsBack(m, id, c);
    }
  }

  /** The cell of the row is the field of the created node, or the id. */
  predicate ReadsBack(row: Row, m: Creation, id: int, c: Column) {
    !c.Other? ==>
      && FieldOf(row, c) == (if c == ID then Plain(SInt(id)) else Field(CreatedNode(m), c))
      && (Cell(row, c).Some? ==> HasType(Cell(row, c).value, ScanType(c)))
  }

  lemma CreatedRowIsTyped(m: Creation, id: int)
    requires WellTyped(m)
    ensures TypedRow(InsertedRow(CreatedSpec(m), id))
  {
    var row := InsertedRow(CreatedSpec(m), id);
    forall c | c in row && !c.Other? && row[c].Some? ensures HasType(row[c].value, ScanType(c)) {
      CellReadsBack(m, id, c);
    }
  }

  lemma CellReadsBack(m: Creation, id: int, c: Column)
    requires WellTyped(m)
    ensures var row := InsertedRow(CreatedSpec(m), id); Decodes(row, c) && ReadsBack(row, m, id, c)
  {
    InsertedRowCells(m, id, c);
  }
}
