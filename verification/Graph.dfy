/** The nodes of the object graph: accounts with their edges, and the neighbours attached to them
    (backend/ent/account.go). */
module Graph {
  import opened Prelude
  import opened AccountSchema
  import opened AccountCodec

  /** Edges whose foreign key is on the account. */
  datatype UniqueEdge = ProxyEdge | OwnerEdge {
    function ForeignKey(): Column {
      match this
      case ProxyEdge => ProxyID
      case OwnerEdge => OwnerUserID
    }
  }

  /** Edges whose foreign key is on the neighbour; for adoption decisions (an edge of AuthIdentity
      nodes) that key is nullable. */
  datatype ListEdge = UsageLogsEdge | AccountGroupsEdge | AdoptionDecisionsEdge {
    predicate Nullable() { AdoptionDecisionsEdge? }
  }

  /** The two columns of a neighbour row that the loaders read. */
  datatype ChildRow = ChildRow(id: int, fk: Option<int>)

  /** A neighbour node: a Proxy, User, UsageLog, AccountGroup or IdentityAdoptionDecision. */
  class Neighbour {
    const row: ChildRow

    constructor (row: ChildRow)
      ensures this.row == row
    {
      this.row := row;
    }
  }

  ghost function RowsOf(ns: seq<Neighbour>): (rows: seq<ChildRow>)
    ensures |rows| == |ns|
    ensures forall i :: 0 <= i < |ns| ==> rows[i] == ns[i].row
  {
    seq(|ns|, i requires 0 <= i < |ns| => ns[i].row)
  }

  class Group {
    const id: int

    constructor (id: int)
      ensures this.id == id
    {
      this.id := id;
    }
  }

  /** Which eager-load edges a query requested: the five `loadedTypes` flags. */
  datatype Requested = Requested(groups: bool, unique: set<UniqueEdge>, lists: set<ListEdge>)

  datatype EdgeError = NotLoaded | NotFound

  function IntOf(f: FieldValue): int {
    match f
    case Plain(SInt(i)) => i
    case _ => 0
  }

  function KeyOf(f: FieldValue): Option<int> {
    match f
    case Ptr(SInt(i)) => Some(i)
    case _ => None
  }

  /** The id of a node with these fields. */
  function IdIn(f: Fields): int {
    IntOf(Field(f, ID))
  }

  /** The foreign key of the edge in these fields; `None` for a nil pointer. */
  function KeyIn(f: Fields, e: UniqueEdge): Option<int> {
    KeyOf(Field(f, e.ForeignKey()))
  }

  /** The neighbours along a list edge; an edge never filled is the nil slice. */
  function ListIn(lists: map<ListEdge, seq<Neighbour>>, e: ListEdge): seq<Neighbour> {
    if e in lists then lists[e] else []
  }

  /** An account node (or, for its list edges only, an AuthIdentity node). */
  class Node {
    var fields: Fields
    var selected: map<string, Holder>
    var groups: seq<Group>
    var unique: map<UniqueEdge, Neighbour>
    var lists: map<ListEdge, seq<Neighbour>>
    var loaded: Requested

    constructor (loaded: Requested)
      ensures fields == map[] && selected == map[] && groups == [] && unique == map[] && lists == map[]
      ensures this.loaded == loaded
    {
      fields, selected, groups, unique, lists := map[], map[], [], map[], map[];
      this.loaded := loaded;
    }

    /** `assignValues`: writes the fields in place, column by column, until a type mismatch or a
        document that does not decode. */
    method AssignValues(columns: seq<Column>, values: seq<Holder>) returns (err: Option<AssignError>)
      modifies this`fields, this`selected
      ensures if |values| < |columns| then
                err == Some(MismatchedNumber(|values|, |columns|)) && unchanged(this)
              else
                (NodeState(fields, selected), err)
                == AssignUpTo(NodeState(old(fields), old(selected)), columns, values, |columns|)
    {
      if |values| < |columns| {
        return Some(MismatchedNumber(|values|, |columns|));
      }
      ghost var start := NodeState(fields, selected);
      for i := 0 to |columns|
        invariant (NodeState(fields, selected), None) == AssignUpTo(start, columns, values, i)
      {
        var c, h := columns[i], values[i];
        match AssertedType(c) {
          case None =>
            selected := selected[(if c.Other? then c.name else "") := h];
          case Some(t) =>
            if h.typ != t {
              err := Some(UnexpectedType(c));
              AssignErrorIsFinal(start, columns, values, i + 1, |columns|);
              return;
            }
            if t == ByteSlice && h.content.Some? && h.content.value.SBytes? {
              err := Some(Undecodable(c));
              AssignErrorIsFinal(start, columns, values, i + 1, |columns|);
              return;
            }
            if c == ID {
              fields := fields[ID := Plain(if h.content.Some? then h.content.value else SInt(0))];
            } else if h.content.Some? {
              fields := fields[c := Wrapped(c, h.content.value)];
            }
        }
      }
      err := None;
    }

    // ---- accessors over the loaded edges

    function GroupsOrErr(): Result<seq<Group>, EdgeError>
      reads this`loaded, this`groups
    {
      if loaded.groups then Ok(groups) else Err(NotLoaded)
    }

    function UniqueOrErr(e: UniqueEdge): Result<Neighbour, EdgeError>
      reads this`loaded, this`unique
    {
      if e in unique then Ok(unique[e])
      else if e in loaded.unique then Err(NotFound)
      else Err(NotLoaded)
    }

    function ListOrErr(e: ListEdge): Result<seq<Neighbour>, EdgeError>
      reads this`loaded, this`lists
    {
      if e in loaded.lists then Ok(ListIn(lists, e)) else Err(NotLoaded)
    }
  }

  /** The id of a node is its id field, its proxy the one that its proxy key points to, its owner the
      one that its owner key points to; a nil key points to none. */
  lemma KeysAreFields(f: Fields)
    ensures forall i :: Field(f, ID) == Plain(SInt(i)) ==> IdIn(f) == i
    ensures forall p :: Field(f, ProxyID) == Ptr(SInt(p)) ==> KeyIn(f, ProxyEdge) == Some(p)
    ensures forall u :: Field(f, OwnerUserID) == Ptr(SInt(u)) ==> KeyIn(f, OwnerEdge) == Some(u)
    ensures Field(f, ProxyID) == Nil ==> KeyIn(f, ProxyEdge) == None
    ensures Field(f, OwnerUserID) == Nil ==> KeyIn(f, OwnerEdge) == None
  {}

  /** Once a column was rejected, the columns after it change nothing. */
  lemma {:induction false} AssignErrorIsFinal(n: NodeState, columns: seq<Column>, values: seq<Holder>, k: nat, m: nat)
    requires k <= m <= |columns| <= |values|
    requires AssignUpTo(n, columns, values, k).1.Some?
    ensures AssignUpTo(n, columns, values, m) == AssignUpTo(n, columns, values, k)
  {
    if k < m {
      AssignErrorIsFinal(n, columns, values, k, m - 1);
    }
  }
}
