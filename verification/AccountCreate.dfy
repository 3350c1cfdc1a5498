/** Defaults and checks of an account to be created (backend/ent/account_create.go). */
module AccountCreate {
  import opened Prelude
  import opened AccountSchema

  datatype CheckError = Missing(column: Column) | Rejected(column: Column)

  /** The columns `defaults` fills, in its order, in two runs. */
  const FIRST_DEFAULTED: seq<Column> := [
    CreatedAt, UpdatedAt, AccountLevel, Credentials, Extra, ShareMode, ShareStatus]
  const LAST_DEFAULTED: seq<Column> := [
    Concurrency, LoadFactorPaidCeiling, Priority, RateMultiplier, Status, AutoPauseOnExpired, Schedulable]
  const DEFAULTED: seq<Column> := FIRST_DEFAULTED + LAST_DEFAULTED

  datatype CheckStep = Needs(column: Column) | Validates(column: Column)

  /** The steps of `check`, in its order, in four runs. */
  const IDENTITY_CHECKS: seq<CheckStep> := [
    Needs(CreatedAt), Needs(UpdatedAt), Needs(Name), Validates(Name), Needs(AccountLevel), Validates(AccountLevel)]
  const PLATFORM_CHECKS: seq<CheckStep> := [
    Needs(Platform), Validates(Platform), Needs(Type), Validates(Type), Needs(Credentials), Needs(Extra)]
  const SHARING_CHECKS: seq<CheckStep> := [
    Needs(ShareMode), Validates(ShareMode), Needs(ShareStatus), Validates(ShareStatus), Needs(Concurrency),
    Needs(LoadFactorPaidCeiling)]
  const STATUS_CHECKS: seq<CheckStep> := [
    Needs(Priority), Needs(RateMultiplier), Needs(Status), Validates(Status), Needs(AutoPauseOnExpired),
    Needs(Schedulable), Validates(SessionWindowStatus)]
  const CHECKS: seq<CheckStep> := IDENTITY_CHECKS + PLATFORM_CHECKS + SHARING_CHECKS + STATUS_CHECKS

  /** `defaults`: fills what is not set. It stops, with an error, at a default that the runtime has
      not been given; what was filled before stays. */
  function Defaulted(values: map<Column, Scalar>, given: map<Column, Scalar>, cols: seq<Column>)
    : (r: (map<Column, Scalar>, Option<Column>))
  {
    if cols == [] then (values, None)
    else
      var (before, stop) := Defaulted(values, given, cols[..|cols| - 1]);
      var c := cols[|cols| - 1];
      if stop.Some? || c in before then (before, stop)
      else if c in given then (before[c := given[c]], None)
      else (before, Some(c))
  }

  /** `check`: the first step that fails. */
  function FirstFailure(values: map<Column, Scalar>, accepts: (Column, Scalar) -> bool, steps: seq<CheckStep>)
    : Option<CheckError>
  {
    if steps == [] then None
    else
      var rest := FirstFailure(values, accepts, steps[1..]);
      match steps[0]
      case Needs(c) => if c in values then rest else Some(Missing(c))
      case Validates(c) => if c in values && !accepts(c, values[c]) then Some(Rejected(c)) else rest
  }

  function Check(values: map<Column, Scalar>, accepts: (Column, Scalar) -> bool): Option<CheckError> {
    FirstFailure(values, accepts, CHECKS)
  }

  lemma {:induction false} FirstFailureIsExact(values: map<Column, Scalar>, accepts: (Column, Scalar) -> bool,
                                               steps: seq<CheckStep>)
    ensures FirstFailure(values, accepts, steps) == None
            <==> && (forall c :: Needs(c) in steps ==> c in values)
                 && (forall c :: Validates(c) in steps && c in values ==> accepts(c, values[c]))
  {
    if steps != [] {
      FirstFailureIsExact(values, accepts, steps[1..]);
      assert steps == [steps[0]] + steps[1..];
    }
  }

  lemma {:induction false} DefaultedIsExact(values: map<Column, Scalar>, given: map<Column, Scalar>, cols: seq<Column>)
    ensures var (filled, stop) := Defaulted(values, given, cols);
            && (forall c :: c in values ==> c in filled && filled[c] == values[c])
            && (forall c :: c in filled && c !in values ==> c in cols && c in given && filled[c] == given[c])
            && (stop == None ==> forall c :: c in cols ==> c in filled)
            && (stop.Some? ==> stop.value in cols && stop.value !in filled && stop.value !in given)
  {
    if cols != [] {
      DefaultedIsExact(values, given, cols[..|cols| - 1]);
      assert cols == cols[..|cols| - 1] + [cols[|cols| - 1]];
    }
  }

  lemma NeededByCheck(c: Column)
    ensures Needs(c) in CHECKS <==> c in DEFAULTED || c == Name || c == Platform || c == Type
  {
    StepsOfCheck(c);
    ColumnsOfDefaults(c);
  }

  /** The bulk builder ignores the error of `defaults`. By itself that hides nothing: a column left
      unfilled is one that `check` requires. */
  lemma IgnoredDefaultsErrorIsCaught(values: map<Column, Scalar>, given: map<Column, Scalar>,
                                     accepts: (Column, Scalar) -> bool)
    requires Defaulted(values, given, DEFAULTED).1.Some?
    ensures Check(Defaulted(values, given, DEFAULTED).0, accepts).Some?
  {
    var (filled, stop) := Defaulted(values, given, DEFAULTED);
    DefaultedIsExact(values, given, DEFAULTED);
    NeededByCheck(stop.value);
    FirstFailureIsExact(filled, accepts, CHECKS);
  }

  /** With every default available, only the name, the platform, the type and the validators are
      left for the caller to get right. */
  lemma DefaultsLeaveThree(values: map<Column, Scalar>, given: map<Column, Scalar>, accepts: (Column, Scalar) -> bool)
    requires Defaulted(values, given, DEFAULTED).1 == None
    ensures var filled := Defaulted(values, given, DEFAULTED).0;
            Check(filled, accepts) == None
            <==> && Name in values && Platform in values && Type in values
                 && forall c :: Validates(c) in CHECKS && c in filled ==> accepts(c, filled[c])
  {
    forall c ensures Needs(c) in CHECKS <==> c in DEFAULTED || c == Name || c == Platform || c == Type {
      NeededByCheck(c);
    }
    NotDefaulted();
    StepsLeaveThree(values, given, accepts, DEFAULTED, CHECKS);
  }

  lemma NotDefaulted()
    ensures Name !in DEFAULTED && Platform !in DEFAULTED && Type !in DEFAULTED
  {
    ColumnsOfDefaults(Name);
    ColumnsOfDefaults(Platform);
    ColumnsOfDefaults(Type);
  }

  lemma StepsLeaveThree(values: map<Column, Scalar>, given: map<Column, Scalar>, accepts: (Column, Scalar) -> bool,
                        cols: seq<Column>, steps: seq<CheckStep>)
    requires Defaulted(values, given, cols).1 == None
    requires forall c :: Needs(c) in steps <==> c in cols || c == Name || c == Platform || c == Type
    requires Name !in cols && Platform !in cols && Type !in cols
    ensures var filled := Defaulted(values, given, cols).0;
            FirstFailure(filled, accepts, steps) == None
            <==> && Name in values && Platform in values && Type in values
                 && forall c :: Validates(c) in steps && c in filled ==> accepts(c, filled[c])
  {
    var filled := Defaulted(values, given, cols).0;
    DefaultedIsExact(values, given, cols);
    FirstFailureIsExact(filled, accepts, steps);
    assert Needs(Name) in steps && Needs(Platform) in steps && Needs(Type) in steps;
  }

  /** The columns an account must have, as the generated checks list them. */
  predicate MustBeSet(c: Column) {
    match c
    case CreatedAt | UpdatedAt | Name | AccountLevel | Platform | Type | Credentials | Extra | ShareMode | ShareStatus
      | Concurrency | LoadFactorPaidCeiling | Priority | RateMultiplier | Status | AutoPauseOnExpired | Schedulable => true
    case _ => false
  }

  /** The columns whose value has a validator. */
  predicate HasValidator(c: Column) {
    match c
    case Name | AccountLevel | Platform | Type | ShareMode | ShareStatus | Status | SessionWindowStatus => true
    case _ => false
  }

  /** The columns that have a default. */
  predicate HasDefault(c: Column) {
    MustBeSet(c) && c != Name && c != Platform && c != Type
  }

  lemma IdentityChecks(c: Column)
    ensures Needs(c) in IDENTITY_CHECKS <==> c == CreatedAt || c == UpdatedAt || c == Name || c == AccountLevel
    ensures Validates(c) in IDENTITY_CHECKS <==> c == Name || c == AccountLevel
  {}

  lemma PlatformChecks(c: Column)
    ensures Needs(c) in PLATFORM_CHECKS <==> c == Platform || c == Type || c == Credentials || c == Extra
    ensures Validates(c) in PLATFORM_CHECKS <==> c == Platform || c == Type
  {}

  lemma SharingChecks(c: Column)
    ensures Needs(c) in SHARING_CHECKS <==> c == ShareMode || c == ShareStatus || c == Concurrency || c == LoadFactorPaidCeiling
    ensures Validates(c) in SHARING_CHECKS <==> c == ShareMode || c == ShareStatus
  {}

  lemma StatusChecks(c: Column)
    ensures Needs(c) in STATUS_CHECKS
            <==> c == Priority || c == RateMultiplier || c == Status || c == AutoPauseOnExpired || c == Schedulable
    ensures Validates(c) in STATUS_CHECKS <==> c == Status || c == SessionWindowStatus
  {}

  lemma StepsOfCheck(c: Column)
    ensures Needs(c) in CHECKS <==> MustBeSet(c)
    ensures Validates(c) in CHECKS <==> HasValidator(c)
  {
    InFourRuns(IDENTITY_CHECKS, PLATFORM_CHECKS, SHARING_CHECKS, STATUS_CHECKS, Needs(c));
    InFourRuns(IDENTITY_CHECKS, PLATFORM_CHECKS, SHARING_CHECKS, STATUS_CHECKS, Validates(c));
    IdentityChecks(c);
    PlatformChecks(c);
    SharingChecks(c);
    StatusChecks(c);
  }

  lemma FirstDefaults(c: Column)
    ensures c in FIRST_DEFAULTED
            <==> c == CreatedAt || c == UpdatedAt || c == AccountLevel || c == Credentials || c == Extra || c == ShareMode
                 || c == ShareStatus
  {}

  lemma LastDefaults(c: Column)
    ensures c in LAST_DEFAULTED
            <==> c == Concurrency || c == LoadFactorPaidCeiling || c == Priority || c == RateMultiplier || c == Status
                 || c == AutoPauseOnExpired || c == Schedulable
  {}

  lemma ColumnsOfDefaults(c: Column)
    ensures c in DEFAULTED <==> HasDefault(c)
  {
    InFourRuns(FIRST_DEFAULTED, LAST_DEFAULTED, [], [], c);
    FirstDefaults(c);
    LastDefaults(c);
    assert DEFAULTED == FIRST_DEFAULTED + LAST_DEFAULTED + [] + [];
  }

  /** The check passes if and only if every column an account must have is set, and each of the eight
      validators accepts the value of its column, if that is set. */
  lemma CheckAcceptsExactly(values: map<Column, Scalar>, accepts: (Column, Scalar) -> bool)
    ensures Check(values, accepts) == None
            <==> && (forall c :: MustBeSet(c) ==> c in values)
                 && (forall c :: HasValidator(c) && c in values ==> accepts(c, values[c]))
  {
    FirstFailureIsExact(values, accepts, CHECKS);
    forall c ensures Needs(c) in CHECKS <==> MustBeSet(c) ensures Validates(c) in CHECKS <==> HasValidator(c) {
      StepsOfCheck(c);
    }
  }

  /** If every default that is needed is given, all of them are filled in, and nothing else changes. */
  lemma AllDefaultsFilled(values: map<Column, Scalar>, given: map<Column, Scalar>)
    requires forall c :: HasDefault(c) && c !in values ==> c in given
    ensures var (filled, stop) := Defaulted(values, given, DEFAULTED);
            && stop == None
            && forall c :: if c in values then c in filled && filled[c] == values[c]
                           else if HasDefault(c) then c in filled && filled[c] == given[c]
                           else c !in filled
  {
    DefaultedIsExact(values, given, DEFAULTED);
    forall c ensures c in DEFAULTED <==> HasDefault(c) {
      ColumnsOfDefaults(c);
    }
  }
}
