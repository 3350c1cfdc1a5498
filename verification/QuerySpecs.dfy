/** The column selection of a query: `querySpec` (backend/ent/account_query.go,
    backend/ent/group_query.go). */
module QuerySpecs {
  import opened Prelude
  import opened AccountSchema
  import opened Graph

  predicate IdFirstAndOnce(columns: seq<Column>) {
    && columns != [] && columns[0] == ID
    && forall i :: 0 < i < |columns| ==> columns[i] != ID
  }

  /** `AddColumnOnce`. */
  function AddedOnce(columns: seq<Column>, c: Column): seq<Column> {
    if c in columns then columns else columns + [c]
  }

  /** The columns to read. With no selection, all of them; otherwise the id, the selected fields,
      and the foreign key of every requested unique edge. */
  method SpecColumns(fields: seq<Column>, table: seq<Column>, requested: set<UniqueEdge>) returns (columns: seq<Column>)
    requires IdFirstAndOnce(table)
    ensures IdFirstAndOnce(columns)
    ensures fields == [] ==> columns == table
    ensures fields != [] ==>
              forall c :: c in columns <==>
                || c == ID || c in fields
                || (c == ProxyID && ProxyEdge in requested) || (c == OwnerUserID && OwnerEdge in requested)
  {
    columns := table;
    if |fields| > 0 {
      columns := [ID];
      for i := 0 to |fields|
        invariant IdFirstAndOnce(columns)
        invariant forall c :: c in columns <==> c == ID || c in fields[..i]
      {
        PrefixSnoc(fields, i);
        if fields[i] != ID {
          columns := columns + [fields[i]];
        }
      }
      assert fields[..|fields|] == fields;
      if ProxyEdge in requested {
        columns := AddedOnce(columns, ProxyID);
      }
      if OwnerEdge in requested {
        columns := AddedOnce(columns, OwnerUserID);
      }
    }
  }
}
