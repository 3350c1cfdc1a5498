/** The columns of the account table and the Go types their values travel in
    (backend/ent/account.go, backend/ent/account/account.go). */
module AccountSchema {
  import opened Prelude

  /** The column names of the table; any other name is `Other`. */
  datatype Column =
    | ID | CreatedAt | UpdatedAt | DeletedAt | Name | AccountLevel | Notes | Platform | Type
    | Credentials | Extra | OwnerUserID | ShareMode | ShareStatus | SharePolicyID | ProxyID
    | ProxyFallbackOriginID | Concurrency | LoadFactor | LoadFactorPaidCeiling | Priority
    | RateMultiplier | Status | ErrorMessage | LastUsedAt | ExpiresAt | AutoPauseOnExpired
    | Schedulable | RateLimitedAt | RateLimitResetAt | OverloadUntil | TempUnschedulableUntil
    | TempUnschedulableReason | SessionWindowStart | SessionWindowEnd | SessionWindowStatus
    | Other(name: string)

  /** `account.Columns`, the table's columns in order, in four runs. */
  const IDENTITY_COLUMNS: seq<Column> := [
    ID, CreatedAt, UpdatedAt, DeletedAt, Name, AccountLevel, Notes, Platform, Type]
  const SHARING_COLUMNS: seq<Column> := [
    Credentials, Extra, OwnerUserID, ShareMode, ShareStatus, SharePolicyID, ProxyID,
    ProxyFallbackOriginID, Concurrency]
  const CAPACITY_COLUMNS: seq<Column> := [
    LoadFactor, LoadFactorPaidCeiling, Priority, RateMultiplier, Status, ErrorMessage, LastUsedAt,
    ExpiresAt, AutoPauseOnExpired]
  const SCHEDULING_COLUMNS: seq<Column> := [
    Schedulable, RateLimitedAt, RateLimitResetAt, OverloadUntil, TempUnschedulableUntil,
    TempUnschedulableReason, SessionWindowStart, SessionWindowEnd, SessionWindowStatus]
  const COLUMNS: seq<Column> := IDENTITY_COLUMNS + SHARING_COLUMNS + CAPACITY_COLUMNS + SCHEDULING_COLUMNS

  /** A scalar as the driver and the node carry it. Times are instants, JSON documents are
      opaque texts, and a float64 is only ever copied, so `real` stands for it. `SBytes` are
      bytes that do not decode as a document. */
  datatype Scalar =
    | SInt(i: int) | SFloat(f: real) | SBool(b: bool) | SText(s: string) | STime(t: int) | SJson(doc: string)
    | SBytes(raw: string)

  /** The types sql rows are scanned into. */
  datatype HolderType = NullInt64 | NullFloat64 | NullBool | NullString | NullTime | ByteSlice | UnknownType

  /** A scanned value: `content` is `None` for SQL NULL (or an empty byte slice). */
  datatype Holder = Holder(typ: HolderType, content: Option<Scalar>)

  /** The type each column is written with by `createSpec`. */
  function WrittenType(c: Column): Option<HolderType> {
    match c
    case Other(_) => None
    case CreatedAt | UpdatedAt | DeletedAt | LastUsedAt | ExpiresAt | RateLimitedAt | RateLimitResetAt
      | OverloadUntil | TempUnschedulableUntil | SessionWindowStart | SessionWindowEnd => Some(NullTime)
    case Name | AccountLevel | Notes | Platform | Type | ShareMode | ShareStatus | Status | ErrorMessage
      | TempUnschedulableReason | SessionWindowStatus => Some(NullString)
    case Credentials | Extra => Some(ByteSlice)
    case ID | OwnerUserID | ProxyID | SharePolicyID | ProxyFallbackOriginID | Concurrency | LoadFactor
      | LoadFactorPaidCeiling | Priority => Some(NullInt64)
    case RateMultiplier => Some(NullFloat64)
    case AutoPauseOnExpired | Schedulable => Some(NullBool)
  }

  /** `scanValues`: the holder allocated for a column. */
  function ScanType(c: Column): HolderType {
    match c
    case Credentials | Extra => ByteSlice
    case AutoPauseOnExpired | Schedulable => NullBool
    case RateMultiplier => NullFloat64
    case ID | OwnerUserID | SharePolicyID | ProxyID | ProxyFallbackOriginID | Concurrency | LoadFactor
      | LoadFactorPaidCeiling | Priority => NullInt64
    case Name | AccountLevel | Notes | Platform | Type | ShareMode | ShareStatus | Status | ErrorMessage
      | TempUnschedulableReason | SessionWindowStatus => NullString
    case CreatedAt | UpdatedAt | DeletedAt | LastUsedAt | ExpiresAt | RateLimitedAt | RateLimitResetAt
      | OverloadUntil | TempUnschedulableUntil | SessionWindowStart | SessionWindowEnd => NullTime
    case Other(_) => UnknownType
  }

  /** `assignValues`: the holder type each case of its switch asserts, `None` for its default case. */
  function AssertedType(c: Column): Option<HolderType> {
    match c
    case ID => Some(NullInt64)
    case CreatedAt | UpdatedAt | DeletedAt => Some(NullTime)
    case Name | AccountLevel | Notes | Platform | Type => Some(NullString)
    case Credentials | Extra => Some(ByteSlice)
    case OwnerUserID => Some(NullInt64)
    case ShareMode | ShareStatus => Some(NullString)
    case SharePolicyID | ProxyID | ProxyFallbackOriginID | Concurrency | LoadFactor
      | LoadFactorPaidCeiling | Priority => Some(NullInt64)
    case RateMultiplier => Some(NullFloat64)
    case Status | ErrorMessage => Some(NullString)
    case LastUsedAt | ExpiresAt => Some(NullTime)
    case AutoPauseOnExpired | Schedulable => Some(NullBool)
    case RateLimitedAt | RateLimitResetAt | OverloadUntil | TempUnschedulableUntil => Some(NullTime)
    case TempUnschedulableReason => Some(NullString)
    case SessionWindowStart | SessionWindowEnd => Some(NullTime)
    case SessionWindowStatus => Some(NullString)
    case Other(_) => None
  }

  /** Columns whose struct field is a pointer. */
  predicate IsPointer(c: Column) {
    match c
    case DeletedAt | Notes | OwnerUserID | SharePolicyID | ProxyID | ProxyFallbackOriginID | LoadFactor
      | ErrorMessage | LastUsedAt | ExpiresAt | RateLimitedAt | RateLimitResetAt | OverloadUntil
      | TempUnschedulableUntil | TempUnschedulableReason | SessionWindowStart | SessionWindowEnd
      | SessionWindowStatus => true
    case _ => false
  }

  /** What a struct field holds: a plain value, a nil pointer or a pointer to a value. */
  datatype FieldValue = Plain(v: Scalar) | Nil | Ptr(target: Scalar)

  function ZeroScalar(t: HolderType): Scalar {
    match t
    case NullInt64 => SInt(0)
    case NullFloat64 => SFloat(0.0)
    case NullBool => SBool(false)
    case NullString => SText("")
    case NullTime => STime(0)
    case ByteSlice => SJson("null")
    case UnknownType => SText("")
  }

  predicate HasType(s: Scalar, t: HolderType) {
    match t
    case NullInt64 => s.SInt?
    case NullFloat64 => s.SFloat?
    case NullBool => s.SBool?
    case NullString => s.SText?
    case NullTime => s.STime?
    case ByteSlice => s.SJson?
    case UnknownType => true
  }

  /** The fields of an account struct, keyed by their column. A column the map does not hold
      is a field still at Go's zero value, so `map[]` is `&Account{}`. */
  type Fields = map<Column, FieldValue>

  function Field(f: Fields, c: Column): FieldValue {
    if c in f then f[c] else if IsPointer(c) then Nil else Plain(ZeroScalar(ScanType(c)))
  }

  function Wrapped(c: Column, s: Scalar): FieldValue {
    if IsPointer(c) then Ptr(s) else Plain(s)
  }

  /** The three switches name the same type for every known column, and none for any other. */
  lemma TypesAgree(c: Column)
    ensures WrittenType(c) == AssertedType(c)
    ensures AssertedType(c) == if c.Other? then None else Some(ScanType(c))
  {}

  /** The fields of the account struct as it declares them: what each holds, and whether by pointer. */
  datatype GoField = ByValue(typ: HolderType) | ByPointer(typ: HolderType) | NoField

  function DeclaredAs(c: Column): GoField {
    match c
    case ID => ByValue(NullInt64)
    case CreatedAt | UpdatedAt => ByValue(NullTime)
    case DeletedAt => ByPointer(NullTime)
    case Name | AccountLevel => ByValue(NullString)
    case Notes => ByPointer(NullString)
    case Platform | Type => ByValue(NullString)
    case Credentials | Extra => ByValue(ByteSlice)
    case OwnerUserID => ByPointer(NullInt64)
    case ShareMode | ShareStatus => ByValue(NullString)
    case SharePolicyID | ProxyID | ProxyFallbackOriginID => ByPointer(NullInt64)
    case Concurrency => ByValue(NullInt64)
    case LoadFactor => ByPointer(NullInt64)
    case LoadFactorPaidCeiling | Priority => ByValue(NullInt64)
    case RateMultiplier => ByValue(NullFloat64)
    case Status => ByValue(NullString)
    case ErrorMessage => ByPointer(NullString)
    case LastUsedAt | ExpiresAt => ByPointer(NullTime)
    case AutoPauseOnExpired | Schedulable => ByValue(NullBool)
    case RateLimitedAt | RateLimitResetAt | OverloadUntil | TempUnschedulableUntil => ByPointer(NullTime)
    case TempUnschedulableReason => ByPointer(NullString)
    case SessionWindowStart | SessionWindowEnd => ByPointer(NullTime)
    case SessionWindowStatus => ByPointer(NullString)
    case Other(_) => NoField
  }

  /** Every column is scanned into the type of its struct field. NULL reads as nil exactly where the
      struct holds a pointer, and as the zero value of its type elsewhere; a value is stored by
      address exactly where the struct holds a pointer. */
  lemma FieldsFitTheStruct(c: Column, s: Scalar)
    ensures DeclaredAs(c).NoField? <==> c.Other?
    ensures !c.Other? ==> ScanType(c) == DeclaredAs(c).typ
    ensures DeclaredAs(c).ByPointer? ==> Field(map[], c) == Nil && Wrapped(c, s) == Ptr(s)
    ensures DeclaredAs(c).ByValue? ==> Field(map[], c).Plain? && Wrapped(c, s) == Plain(s)
  {}

  lemma ZeroValues()
    ensures Field(map[], ID) == Plain(SInt(0)) && Field(map[], RateMultiplier) == Plain(SFloat(0.0))
    ensures Field(map[], Name) == Plain(SText("")) && Field(map[], Schedulable) == Plain(SBool(false))
    ensures Field(map[], CreatedAt) == Plain(STime(0)) && Field(map[], Extra) == Plain(SJson("null"))
    ensures forall c, d :: DeclaredAs(c).ByValue? && DeclaredAs(c) == DeclaredAs(d) ==> Field(map[], c) == Field(map[], d)
  {}
}
