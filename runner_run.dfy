/**
 * The runner's `Run` and `runSchema`: checks the requested operations,
 * gates each schema on its dirty state and on lock contention, rewrites
 * "upgrade" into "up to every leaf" and "revert" into "down to the single
 * applied leaf", and hands the planned migrations to the store one by one.
 * The store and its locks are reached through an oracle value.
 */
module RunnerRun {
  import opened Wrappers
  import opened MigrationDefinition
  import MigrationStore
  import RunnerValidate
  type SchemaVersion = RunnerValidate.SchemaVersion

  datatype OperationType =
    | TargetedUp
    | TargetedDown
    | TargetedUpgrade
    | TargetedRevert
    | UnknownType(code: int)

  datatype MigrationOperation = MigrationOperation(schemaName: string, kind: OperationType, targetVersions: seq<int>)

  datatype RunError =
    | MultipleOperations
    | DirtyDatabase
    | MigrationContention
    | LockNotAcquired
    | UnknownVersion(id: int)
    | AmbiguousRevert
    | UnknownOperationType(code: int)
    | PlanFailed(error: DefError)
    | MigrationFailed(id: int, up: bool, message: string)
    | StoreFailed(message: string)

  // ---------------------------------------------------------------------
  // Run: one operation per schema
  // ---------------------------------------------------------------------

  predicate DistinctNames(ops: seq<MigrationOperation>) {
    forall i, j :: 0 <= i < j < |ops| ==> ops[i].schemaName != ops[j].schemaName
  }

  function NameSet(ops: seq<MigrationOperation>): set<string> {
    set op | op in ops :: op.schemaName
  }

  /** A list has as many distinct names as entries exactly when no name repeats. */
  lemma {:induction false} NameSetSize(ops: seq<MigrationOperation>)
    ensures |NameSet(ops)| <= |ops|
    ensures |NameSet(ops)| == |ops| <==> DistinctNames(ops)
  {
    if ops != [] {
      var init, last := ops[..|ops| - 1], ops[|ops| - 1];
      NameSetSize(init);
      assert ops == init + [last];
      assert NameSet(ops) == NameSet(init) + {last.schemaName};
      if last.schemaName in NameSet(init) {
        var o :| o in init && o.schemaName == last.schemaName;
        var i :| 0 <= i < |init| && init[i] == o;
        assert ops[i].schemaName == ops[|ops| - 1].schemaName;
      } else {
        assert DistinctNames(ops) <==> DistinctNames(init) by {
          if DistinctNames(init) {
            forall i, j | 0 <= i < j < |ops| ensures ops[i].schemaName != ops[j].schemaName {
              if j == |ops| - 1 { assert ops[i] in init; }
            }
          }
        }
      }
    }
  }

  /**
   * `Run`'s check of its options: builds the schema-to-operation map (a
   * later operation on the same schema overwrites an earlier one) and
   * rejects the options when two operations name the same schema.
   */
  method Run(operations: seq<MigrationOperation>) returns (operationMap: map<string, MigrationOperation>, err: Option<RunError>)
    ensures err.Some? <==> !DistinctNames(operations)
    ensures err.Some? ==> err.value == MultipleOperations
    ensures operationMap.Keys == NameSet(operations)
    ensures forall i :: 0 <= i < |operations| ==>
      ((forall j :: i < j < |operations| ==> operations[j].schemaName != operations[i].schemaName) ==>
        operationMap[operations[i].schemaName] == operations[i])
  {
    operationMap := map[];
    var i := 0;
    while i < |operations|
      invariant 0 <= i <= |operations|
      invariant operationMap.Keys == NameSet(operations[..i])
      invariant forall k :: 0 <= k < i ==>
        ((forall j :: k < j < i ==> operations[j].schemaName != operations[k].schemaName) ==>
          operationMap[operations[k].schemaName] == operations[k])
    {
      assert operations[..i + 1] == operations[..i] + [operations[i]];
      operationMap := operationMap[operations[i].schemaName := operations[i]];
      i := i + 1;
    }
    assert operations[..i] == operations;
    NameSetSize(operations);
    if |operationMap| != |operations| {
      return operationMap, Some(MultipleOperations);
    }
    err := None;
  }

  // ---------------------------------------------------------------------
  // Applying a plan
  // ---------------------------------------------------------------------

  /** The migrations handed to the store: the plan up to and including the first that fails. */
  function RunUntilFailure(ids: seq<int>, fails: map<int, string>): (ran: seq<int>)
    ensures ran <= ids
    ensures forall k :: 0 <= k < |ran| - 1 ==> ran[k] !in fails
    ensures |ran| < |ids| ==> ran != [] && ran[|ran| - 1] in fails
  {
    if ids == [] then []
    else if ids[0] in fails then [ids[0]]
    else [ids[0]] + RunUntilFailure(ids[1..], fails)
  }

  /** The error a run reports: the failure of its last migration, if that one failed. */
  function FailureOf(ran: seq<int>, fails: map<int, string>, up: bool): seq<RunError> {
    if ran != [] && ran[|ran| - 1] in fails then [MigrationFailed(ran[|ran| - 1], up, fails[ran[|ran| - 1]])] else []
  }

  /** The identifiers `Up` (toward parents) or `Down` (toward children) plans, in order. */
  ghost function PlanIds(ds: Definitions, dir: Direction, applied: seq<int>, targets: seq<int>): seq<int> {
    match dir
    case TowardParents =>
      RunnerValidate.IdList(Select(ds.definitions, ReachableIds(ds, TowardParents, targets) - SetOf(applied)))
    case TowardChildren =>
      RunnerValidate.IdList(Reversed(Select(ds.definitions, (ReachableIds(ds, TowardChildren, targets) - SetOf(targets)) * SetOf(applied))))
  }

  /**
   * The outcome of planning and applying: a planning error runs nothing;
   * otherwise the plan runs in order up to its first failure.
   */
  ghost predicate Ran(ds: Definitions, dir: Direction, applied: seq<int>, targets: seq<int>, fails: map<int, string>,
                      errs: seq<RunError>, ran: seq<int>) {
    if AllReachableDefined(ds, dir, targets) then
      ran == RunUntilFailure(PlanIds(ds, dir, applied, targets), fails) && errs == FailureOf(ran, fails, dir == TowardParents)
    else
      ran == [] && |errs| == 1 && errs[0].PlanFailed?
  }

  /**
   * When the first `i` migrations succeed and the next one fails (or the plan
   * ends), the run is exactly those migrations and the failing one.
   */
  lemma {:induction false} RunUntilFailureAt(ids: seq<int>, i: int, fails: map<int, string>)
    requires 0 <= i <= |ids|
    requires forall k :: 0 <= k < i ==> ids[k] !in fails
    requires i == |ids| || ids[i] in fails
    ensures RunUntilFailure(ids, fails) == if i == |ids| then ids else ids[..i + 1]
  {
    if ids != [] && i > 0 {
      RunUntilFailureAt(ids[1..], i - 1, fails);
      assert ids == [ids[0]] + ids[1..];
      if i < |ids| { assert ids[..i + 1] == [ids[0]] + ids[1..][..i]; }
    }
  }

  /** Hands each planned definition to the store in order; `fails` are those whose store call fails. */
  method ApplyPlan(plan: seq<Definition>, up: bool, fails: map<int, string>) returns (errs: seq<RunError>, ran: seq<int>)
    ensures ran == RunUntilFailure(RunnerValidate.IdList(plan), fails)
    ensures errs == FailureOf(ran, fails, up)
  {
    ghost var ids := RunnerValidate.IdList(plan);
    ran := [];
    var i := 0;
    while i < |plan|
      invariant 0 <= i <= |plan|
      invariant ran == ids[..i]
      invariant forall k :: 0 <= k < i ==> ids[k] !in fails
    {
      var id := plan[i].id;
      assert ids[..i + 1] == ids[..i] + [id];
      ran := ran + [id];
      if id in fails {
        RunUntilFailureAt(ids, i, fails);
        return [MigrationFailed(id, up, fails[id])], ran;
      }
      i := i + 1;
    }
    RunUntilFailureAt(ids, i, fails);
    assert ids[..i] == ids;
    errs := [];
  }

  /** `runSchemaUp`: plans with the planner's `Up` and applies the plan. */
  method RunSchemaUp(ds: Definitions, applied: seq<int>, targets: seq<int>, fails: map<int, string>)
    returns (errs: seq<RunError>, ran: seq<int>)
    requires ds.Valid()
    ensures Ran(ds, TowardParents, applied, targets, fails, errs, ran)
  {
    var definitions := Up(ds, applied, targets);
    if definitions.Err? {
      return [PlanFailed(definitions.error)], [];
    }
    errs, ran := ApplyPlan(definitions.value, true, fails);
  }

  /** `runSchemaDown`: plans with the planner's `Down` and applies the plan. */
  method RunSchemaDown(ds: Definitions, applied: seq<int>, targets: seq<int>, fails: map<int, string>)
    returns (errs: seq<RunError>, ran: seq<int>)
    requires ds.Valid()
    ensures Ran(ds, TowardChildren, applied, targets, fails, errs, ran)
  {
    var definitions := Down(ds, applied, targets);
    if definitions.Err? {
      return [PlanFailed(definitions.error)], [];
    }
    errs, ran := ApplyPlan(definitions.value, false, fails);
  }

  // ---------------------------------------------------------------------
  // The revert target
  // ---------------------------------------------------------------------

  /** Some applied migration's definition lists `k` as a parent. */
  ghost predicate ListedAsParent(ds: Definitions, applied: seq<int>, k: int) {
    exists a :: a in applied && a in ds.definitionsMap && k in ds.definitionsMap[a].parents
  }

  /** The applied migrations no applied migration builds on. */
  ghost function RevertCandidates(ds: Definitions, applied: seq<int>): set<int> {
    set k | k in applied && !ListedAsParent(ds, applied, k)
  }

  /** The first applied identifier without a definition, if any. */
  function FirstUndefined(ds: Definitions, applied: seq<int>): (r: Option<int>)
    ensures r.None? <==> forall a :: a in applied ==> a in ds.definitionsMap
    ensures r.Some? ==> r.value in applied && r.value !in ds.definitionsMap
  {
    if applied == [] then None
    else
      assert forall a :: a in applied <==> a == applied[0] || a in applied[1..];
      if applied[0] !in ds.definitionsMap then Some(applied[0])
      else FirstUndefined(ds, applied[1..])
  }

  /**
   * The revert rewrite: counts for each applied migration how many applied
   * migrations list it as a parent, and targets the single one counted zero.
   */
  method RevertTargets(ds: Definitions, applied: seq<int>) returns (r: Result<seq<int>, RunError>)
    requires ds.Valid()
    ensures FirstUndefined(ds, applied).Some? ==> r == Err(UnknownVersion(FirstUndefined(ds, applied).value))
    ensures FirstUndefined(ds, applied).None? && |RevertCandidates(ds, applied)| != 1 ==> r == Err(AmbiguousRevert)
    ensures FirstUndefined(ds, applied).None? && |RevertCandidates(ds, applied)| == 1 ==>
      r.Ok? && |r.value| == 1 && RevertCandidates(ds, applied) == {r.value[0]}
  {
    var counts: map<int, nat> := map[];
    var i := 0;
    while i < |applied|
      invariant 0 <= i <= |applied|
      invariant counts.Keys == SetOf(applied[..i])
      invariant forall k :: k in counts ==> counts[k] == 0
    {
      assert applied[..i + 1] == applied[..i] + [applied[i]];
      counts := counts[applied[i] := 0];
      i := i + 1;
    }
    assert applied[..i] == applied;

    i := 0;
    while i < |applied|
      invariant 0 <= i <= |applied|
      invariant SetOf(applied) <= counts.Keys
      invariant forall k :: k in counts ==> (k in applied || ListedAsParent(ds, applied[..i], k))
      invariant forall k :: k in counts ==> (counts[k] == 0 <==> !ListedAsParent(ds, applied[..i], k))
      invariant forall k :: ListedAsParent(ds, applied[..i], k) ==> k in counts
      invariant FirstUndefined(ds, applied) == FirstUndefined(ds, applied[i..])
    {
      var id := applied[i];
      assert applied[i..] == [id] + applied[i + 1..];
      var definition := GetByID(ds, id);
      if definition.None? {
        return Err(UnknownVersion(id));
      }
      var parents := definition.value.parents;
      counts := CountParents(ds, applied, i, counts, parents);
      i := i + 1;
    }
    assert applied[i..] == [];
    assert FirstUndefined(ds, applied).None?;

    var leafIDs := set k | k in counts && counts[k] == 0;
    ZeroCountsAreCandidates(ds, applied, counts);
    assert leafIDs == RevertCandidates(ds, applied);
    if |leafIDs| != 1 {
      return Err(AmbiguousRevert);
    }
    var k :| k in leafIDs;
    SingletonSet(leafIDs, k);
    r := Ok([k]);
  }

  /** After the counting loops, the migrations counted zero are the revert candidates. */
  lemma ZeroCountsAreCandidates(ds: Definitions, applied: seq<int>, counts: map<int, nat>)
    requires SetOf(applied) <= counts.Keys
    requires forall k :: k in counts ==> (k in applied || ListedAsParent(ds, applied[..|applied|], k))
    requires forall k :: k in counts ==> (counts[k] == 0 <==> !ListedAsParent(ds, applied[..|applied|], k))
    ensures (set k | k in counts && counts[k] == 0) == RevertCandidates(ds, applied)
  {
    assert applied[..|applied|] == applied;
    var zero := set k | k in counts && counts[k] == 0;
    forall k | k in zero ensures k in RevertCandidates(ds, applied) {
      assert !ListedAsParent(ds, applied, k);
    }
    forall k | k in RevertCandidates(ds, applied) ensures k in zero {
      assert k in SetOf(applied);
    }
  }

  lemma SingletonSet(s: set<int>, k: int)
    requires |s| == 1 && k in s
    ensures s == {k}
  {
    assert |s - {k}| == 0;
  }

  /** Counting one more applied migration adds exactly its parents to those listed. */
  lemma ListedStep(ds: Definitions, applied: seq<int>, i: int, k: int)
    requires 0 <= i < |applied| && applied[i] in ds.definitionsMap
    ensures ListedAsParent(ds, applied[..i + 1], k) <==>
      ListedAsParent(ds, applied[..i], k) || k in ds.definitionsMap[applied[i]].parents
  {
    assert applied[..i + 1] == applied[..i] + [applied[i]];
    if ListedAsParent(ds, applied[..i + 1], k) {
      var a :| a in applied[..i + 1] && a in ds.definitionsMap && k in ds.definitionsMap[a].parents;
      if a != applied[i] { assert a in applied[..i]; }
    }
    if ListedAsParent(ds, applied[..i], k) {
      var a :| a in applied[..i] && a in ds.definitionsMap && k in ds.definitionsMap[a].parents;
      assert a in applied[..i + 1];
    }
    if k in ds.definitionsMap[applied[i]].parents {
      var a := applied[i];
      assert a == applied[..i + 1][i];
      assert a in applied[..i + 1] && a in ds.definitionsMap && k in ds.definitionsMap[a].parents;
    }
  }

  /** The inner loop: one more applied migration's parents are counted. */
  method CountParents(ds: Definitions, applied: seq<int>, i: int, counts0: map<int, nat>, parents: seq<int>)
    returns (counts: map<int, nat>)
    requires ds.Valid()
    requires 0 <= i < |applied| && applied[i] in ds.definitionsMap && ds.definitionsMap[applied[i]].parents == parents
    requires SetOf(applied) <= counts0.Keys
    requires forall k :: k in counts0 ==> (k in applied || ListedAsParent(ds, applied[..i], k))
    requires forall k :: k in counts0 ==> (counts0[k] == 0 <==> !ListedAsParent(ds, applied[..i], k))
    requires forall k :: ListedAsParent(ds, applied[..i], k) ==> k in counts0
    ensures SetOf(applied) <= counts.Keys
    ensures forall k :: k in counts ==> (k in applied || ListedAsParent(ds, applied[..i + 1], k))
    ensures forall k :: k in counts ==> (counts[k] == 0 <==> !ListedAsParent(ds, applied[..i + 1], k))
    ensures forall k :: ListedAsParent(ds, applied[..i + 1], k) ==> k in counts
  {
    forall k ensures ListedAsParent(ds, applied[..i + 1], k) <==> ListedAsParent(ds, applied[..i], k) || k in parents {
      ListedStep(ds, applied, i, k);
    }
    counts := counts0;
    var j := 0;
    while j < |parents|
      invariant 0 <= j <= |parents|
      invariant SetOf(applied) <= counts.Keys
      invariant forall k :: k in counts ==> (k in applied || ListedAsParent(ds, applied[..i], k) || k in parents[..j])
      invariant forall k :: k in counts ==> (counts[k] == 0 <==> !(ListedAsParent(ds, applied[..i], k) || k in parents[..j]))
      invariant forall k :: (ListedAsParent(ds, applied[..i], k) || k in parents[..j]) ==> k in counts
    {
      var p := parents[j];
      assert parents[..j + 1] == parents[..j] + [p];
      counts := counts[p := (if p in counts then counts[p] else 0) + 1];
      j := j + 1;
    }
    assert parents[..j] == parents;
  }

  // ---------------------------------------------------------------------
  // runSchema
  // ---------------------------------------------------------------------

  /** `compareSchemaVersions`: all three lists equal. */
  method CompareSchemaVersions(a: SchemaVersion, b: SchemaVersion) returns (same: bool)
    ensures same <==> a == b
  {
    var p := RunnerValidate.CompareVersionSlice(a.pending, b.pending);
    var f := RunnerValidate.CompareVersionSlice(a.failed, b.failed);
    var ap := RunnerValidate.CompareVersionSlice(a.applied, b.applied);
    same := p && f && ap;
  }

  /**
   * What the store does when the runner calls it: the outcome of
   * `TryLock` and `Lock` (whether acquired, or a failure), the versions
   * re-read under the lock, a failure of the unlock, and the migrations
   * whose query fails.
   */
  datatype StoreOracle = StoreOracle(
    tryLock: Result<bool, string>,
    lock: Result<bool, string>,
    fetched: Result<SchemaVersion, string>,
    unlockErr: Option<string>,
    fails: map<int, string>)

  /** The lock operations a run issues, in order. */
  datatype LockEvent = TryLockAttempt | LockAttempt | Unlocked

  function UnlockErrors(unlockErr: Option<string>): seq<RunError> {
    if unlockErr.Some? then [StoreFailed(unlockErr.value)] else []
  }

  predicate Upgrading(op: MigrationOperation) {
    op.kind == TargetedUpgrade
  }

  /**
   * What happens under the lock once the versions are re-read: contention
   * and dirty checks, the rewrite of upgrade and revert, and the run.
   * Planning uses the applied list read under the lock.
   */
  ghost predicate LockedOutcome(op: MigrationOperation, ds: Definitions, snapshot: SchemaVersion,
                                fetched: Result<SchemaVersion, string>, fails: map<int, string>,
                                errs: seq<RunError>, ran: seq<int>) {
    match fetched
    case Err(m) => errs == [StoreFailed(m)] && ran == []
    case Ok(v) =>
      if !Upgrading(op) && v != snapshot then errs == [MigrationContention] && ran == []
      else if RunnerValidate.IsDirty(v) then errs == [DirtyDatabase] && ran == []
      else match op.kind
        case TargetedUp => Ran(ds, TowardParents, v.applied, op.targetVersions, fails, errs, ran)
        case TargetedUpgrade => Ran(ds, TowardParents, v.applied, RunnerValidate.LeafIDs(ds), fails, errs, ran)
        case TargetedDown => Ran(ds, TowardChildren, v.applied, op.targetVersions, fails, errs, ran)
        case TargetedRevert =>
          (match FirstUndefined(ds, v.applied)
           case Some(id) => errs == [UnknownVersion(id)] && ran == []
           case None =>
             if |RevertCandidates(ds, v.applied)| != 1 then errs == [AmbiguousRevert] && ran == []
             else exists t :: RevertCandidates(ds, v.applied) == {t} && Ran(ds, TowardChildren, v.applied, [t], fails, errs, ran))
        case UnknownType(c) => errs == [UnknownOperationType(c)] && ran == []
  }

  /**
   * Lines 110-186 of `runSchema`: everything between taking the lock and
   * releasing it, with every operation planned from the versions re-read
   * under the lock. For everything but an upgrade the contention check
   * makes those the versions read before the lock, which `runSchemaUp` and
   * `runSchemaDown` plan from (run.go:192, run.go:211); for an upgrade they
   * may differ, and this is the corrected planning (UpgradePlanAsWritten
   * and StaleUpgradePlanRefused model the upgrade plan as written).
   */
  method RunLocked(op: MigrationOperation, ds: Definitions, snapshot: SchemaVersion,
                   fetched: Result<SchemaVersion, string>, fails: map<int, string>)
    returns (errs: seq<RunError>, ran: seq<int>)
    requires ds.Valid()
    ensures LockedOutcome(op, ds, snapshot, fetched, fails, errs, ran)
  {
    if fetched.Err? {
      return [StoreFailed(fetched.error)], [];
    }
    var schemaVersion := fetched.value;
    if !Upgrading(op) {
      var same := CompareSchemaVersions(snapshot, schemaVersion);
      if !same {
        return [MigrationContention], [];
      }
    }
    if |schemaVersion.pending| + |schemaVersion.failed| > 0 {
      return [DirtyDatabase], [];
    }
    var applied := schemaVersion.applied;
    match op.kind {
      case TargetedUpgrade =>
        var leaves := Leaves(ds);
        var leafIDs := RunnerValidate.CollectIDs(leaves);
        errs, ran := RunSchemaUp(ds, applied, leafIDs, fails);
      case TargetedRevert =>
        var targets := RevertTargets(ds, applied);
        if targets.Err? {
          return [targets.error], [];
        }
        assert targets.value == [targets.value[0]];
        errs, ran := RunSchemaDown(ds, applied, targets.value, fails);
      case TargetedUp =>
        errs, ran := RunSchemaUp(ds, applied, op.targetVersions, fails);
      case TargetedDown =>
        errs, ran := RunSchemaDown(ds, applied, op.targetVersions, fails);
      case UnknownType(c) =>
        errs, ran := [UnknownOperationType(c)], [];
    }
  }

  /**
   * `runSchema`: a non-upgrade operation on a schema with failed versions
   * stops before any lock; with pending versions it only probes the lock to
   * tell contention from a dirty database; otherwise the run happens under
   * the lock. Both deferred `err = unlock(err)` closures (run.go:91 and
   * run.go:107) assign to an `err` declared inside the `if`, not to the
   * named result, so a failure to unlock is released and then lost: the
   * result below never mentions `store.unlockErr`. `lockedVersion`
   * (validate.go:114-124) drops its unlock failure the same way. The
   * locked part is RunLocked, so an upgrade is planned from the versions
   * re-read under the lock, unlike run.go:192, which plans it from the
   * versions read before the lock (see UpgradePlanAsWritten).
   */
  method RunSchema(op: MigrationOperation, ds: Definitions, snapshot: SchemaVersion, store: StoreOracle)
    returns (errs: seq<RunError>, locks: seq<LockEvent>, ran: seq<int>)
    requires ds.Valid()
    ensures !Upgrading(op) && |snapshot.failed| > 0 ==> errs == [DirtyDatabase] && locks == [] && ran == []
    ensures !Upgrading(op) && |snapshot.failed| == 0 && |snapshot.pending| > 0 ==>
      ran == [] &&
      match store.tryLock
      case Err(m) => errs == [StoreFailed(m)] && locks == [TryLockAttempt]
      case Ok(acquired) =>
        if acquired then errs == [DirtyDatabase] && locks == [TryLockAttempt, Unlocked]
        else errs == [MigrationContention] && locks == [TryLockAttempt]
    ensures Upgrading(op) || !RunnerValidate.IsDirty(snapshot) ==>
      match store.lock
      case Err(m) => errs == [StoreFailed(m)] && locks == [LockAttempt] && ran == []
      case Ok(acquired) =>
        if !acquired then errs == [LockNotAcquired] && locks == [LockAttempt] && ran == []
        else locks == [LockAttempt, Unlocked] && LockedOutcome(op, ds, snapshot, store.fetched, store.fails, errs, ran)
  {
    locks, ran := [], [];
    var upgradingToLatest := Upgrading(op);
    if !upgradingToLatest {
      if |snapshot.failed| > 0 {
        return [DirtyDatabase], [], [];
      }
      if |snapshot.pending| > 0 {
        locks := [TryLockAttempt];
        if store.tryLock.Err? {
          return [StoreFailed(store.tryLock.error)], locks, [];
        }
        if !store.tryLock.value {
          return [MigrationContention], locks, [];
        }
        return [DirtyDatabase], locks + [Unlocked], [];
      }
    }
    locks := [LockAttempt];
    if store.lock.Err? {
      return [StoreFailed(store.lock.error)], locks, [];
    }
    if !store.lock.value {
      return [LockNotAcquired], locks, [];
    }
    errs, ran := RunLocked(op, ds, snapshot, store.fetched, store.fails);
    locks := locks + [Unlocked];
  }

  /**
   * `runSchema` with the deferred unlock writing to the named result, as
   * the store's `unlock` closures are built to be used: whenever the lock
   * is released, a failure to release it follows whatever the run itself
   * returned.
   */
  method RunSchemaReportingUnlock(op: MigrationOperation, ds: Definitions, snapshot: SchemaVersion, store: StoreOracle)
    returns (errs: seq<RunError>, locks: seq<LockEvent>, ran: seq<int>)
    requires ds.Valid()
    ensures Unlocked in locks && store.unlockErr.Some? ==> 0 < |errs| && errs[|errs| - 1] == StoreFailed(store.unlockErr.value)
    ensures !Upgrading(op) && |snapshot.failed| > 0 ==> errs == [DirtyDatabase] && locks == [] && ran == []
    ensures !Upgrading(op) && |snapshot.failed| == 0 && |snapshot.pending| > 0 ==>
      ran == [] &&
      match store.tryLock
      case Err(m) => errs == [StoreFailed(m)] && locks == [TryLockAttempt]
      case Ok(acquired) =>
        if acquired then errs == [DirtyDatabase] + UnlockErrors(store.unlockErr) && locks == [TryLockAttempt, Unlocked]
        else errs == [MigrationContention] && locks == [TryLockAttempt]
    ensures Upgrading(op) || !RunnerValidate.IsDirty(snapshot) ==>
      match store.lock
      case Err(m) => errs == [StoreFailed(m)] && locks == [LockAttempt] && ran == []
      case Ok(acquired) =>
        if !acquired then errs == [LockNotAcquired] && locks == [LockAttempt] && ran == []
        else
          var u := UnlockErrors(store.unlockErr);
          && locks == [LockAttempt, Unlocked]
          && |errs| >= |u| && errs[|errs| - |u|..] == u
          && LockedOutcome(op, ds, snapshot, store.fetched, store.fails, errs[..|errs| - |u|], ran)
  {
    var result;
    result, locks, ran := RunSchema(op, ds, snapshot, store);
    if Unlocked in locks {
      errs := result + UnlockErrors(store.unlockErr);
      assert errs[..|errs| - |UnlockErrors(store.unlockErr)|] == result;
    } else {
      errs := result;
    }
  }

  // ---------------------------------------------------------------------
  // Planning an upgrade from the versions read before the lock
  // ---------------------------------------------------------------------

  /**
   * The upgrade plan as `runSchemaUp` computes it: from the applied list the
   * runner read before taking the lock, which an upgrade never compares
   * with the list re-read under the lock.
   */
  ghost function UpgradePlanAsWritten(ds: Definitions, snapshot: SchemaVersion): seq<int> {
    PlanIds(ds, TowardParents, snapshot.applied, RunnerValidate.LeafIDs(ds))
  }

  /**
   * A single migration 1, which a concurrent migrator finished while this
   * runner waited for the lock: the plan still holds 1, and the store, whose
   * log now shows 1 applied and nothing dirty, refuses it as already applied.
   */
  lemma StaleUpgradePlanRefused()
    ensures var d := Definition(1, "", "", "", "", []);
      var ds := Definitions([d], map[1 := d]);
      var logs := [MigrationStore.LogEntry(1, "schema_migrations", 1, true, Some(true), None)];
      var reread := MigrationStore.VersionsOf(logs, "schema_migrations");
      && ds.Valid()
      && 1 in UpgradePlanAsWritten(ds, MigrationStore.VersionLists([], [1], []))
      && !RunnerValidate.IsDirty(reread)
      && MigrationStore.Validation(reread, 1, true) == Some(MigrationStore.AlreadyApplied(1))
  {
    var d := Definition(1, "", "", "", "", []);
    var ds := Definitions([d], map[1 := d]);
    assert ds.Valid() by {
      assert [d][..0] == [];
    }
    // the plan
    assert Childless([d], 1);
    assert LeafIds([d]) == {1};
    assert Select([d], {1}) == [d] by {
      assert [d][..0] == [];
    }
    assert RunnerValidate.LeafIDs(ds) == [1];
    TargetsReachable(ds, TowardParents, [1], 1);
    assert 1 in ReachableIds(ds, TowardParents, [1]);
    var keep := ReachableIds(ds, TowardParents, [1]) - SetOf([]);
    SelectMembers([d], keep);
    assert d in Select([d], keep);
    // the store
    var schema := "schema_migrations";
    var e := MigrationStore.LogEntry(1, schema, 1, true, Some(true), None);
    forall v ensures MigrationStore.VersionStatus([e], schema, v) == if v == 1 then MigrationStore.Applied else MigrationStore.NoLog {
      MigrationStore.LatestLogAppend([], e, schema, v);
      assert [] + [e] == [e];
    }
    assert !MigrationStore.Dirty([e], schema);
    var reread := MigrationStore.VersionsOf([e], schema);
    MigrationStore.VersionsMeaning([e], schema);
    MigrationStore.ValidationMeaning([e], schema, 1, true);
  }

  /**
   * Planning from the versions re-read under the lock, as `RunLocked`
   * does: on a clean store every planned up migration passes the store's
   * validation.
   */
  lemma FreshPlanPassesValidation(logs: seq<MigrationStore.LogEntry>, schema: string, ds: Definitions,
                                  targets: seq<int>, id: int)
    requires !MigrationStore.Dirty(logs, schema)
    requires id in PlanIds(ds, TowardParents, MigrationStore.VersionsOf(logs, schema).applied, targets)
    ensures MigrationStore.Validation(MigrationStore.VersionsOf(logs, schema), id, true).None?
  {
    var applied := MigrationStore.VersionsOf(logs, schema).applied;
    var keep := ReachableIds(ds, TowardParents, targets) - SetOf(applied);
    var sel := Select(ds.definitions, keep);
    var k :| 0 <= k < |sel| && RunnerValidate.IdList(sel)[k] == id;
    SelectMembers(ds.definitions, keep);
    assert sel[k] in sel;
    assert id !in applied;
    MigrationStore.VersionsMeaning(logs, schema);
    MigrationStore.ValidationMeaning(logs, schema, id, true);
  }

  // ---------------------------------------------------------------------
  // What a revert plans
  // ---------------------------------------------------------------------

  /** Every parent of an applied, defined migration is applied too, as happens when ups run parents first. */
  ghost predicate ParentClosed(ds: Definitions, applied: seq<int>) {
    forall a, p :: a in applied && a in ds.definitionsMap && p in ds.definitionsMap[a].parents ==> p in applied
  }

  /** With distinct identifiers the map holds every stored definition under its own identifier. */
  lemma DefinitionLookup(ds: Definitions, d: Definition)
    requires ds.Valid() && WellFormed(ds.definitions) && d in ds.definitions
    ensures d.id in ds.definitionsMap && ds.definitionsMap[d.id] == d
  {
    var i :| 0 <= i < |ds.definitions| && ds.definitions[i] == d;
    IndexMapLastWins(ds.definitions, i);
  }

  /**
   * From the revert target, the only applied migration reachable toward
   * children is the target itself: every other applied migration that
   * descends from it would list an applied ancestor of the target, or the
   * target, as a parent.
   */
  lemma RevertReach(ds: Definitions, applied: seq<int>, t: int)
    requires ds.Valid() && WellFormed(ds.definitions) && ParentClosed(ds, applied)
    requires t in RevertCandidates(ds, applied)
    ensures forall r :: r in ReachableIds(ds, TowardChildren, [t]) && r in applied ==> r == t
  {
    var s := {t} + (Ids(ds.definitions) - SetOf(applied));
    IndexMapFacts(ds.definitions);
    forall id, x | id in s && id in ds.definitionsMap && x in Next(ds, TowardChildren, ds.definitionsMap[id])
      ensures x in s
    {
      assert ds.definitionsMap[id].id == id;
      var d :| d in ds.definitions && d.id == x && id in d.parents;
      // an applied child would make `id` a listed parent, which neither
      // the target nor an unapplied migration can be
      if x in applied {
        DefinitionLookup(ds, d);
      }
    }
    assert Closed(ds, TowardChildren, [t], s);
  }

  /**
   * The revert as `runSchema` rewrites it: a `Down` targeted at the leaf,
   * which `Down` leaves out as a target, so on any applied set built
   * parents first nothing is reverted.
   */
  lemma RevertPlansNothing(ds: Definitions, applied: seq<int>, t: int)
    requires ds.Valid() && WellFormed(ds.definitions) && ParentClosed(ds, applied)
    requires t in RevertCandidates(ds, applied)
    ensures PlanIds(ds, TowardChildren, applied, [t]) == []
  {
    RevertReach(ds, applied, t);
    var keep := (ReachableIds(ds, TowardChildren, [t]) - SetOf([t])) * SetOf(applied);
    assert keep == {};
    SelectNone(ds.definitions, keep);
  }

  /** The revert the flag promises: undo the applied migrations reachable from the leaf, the leaf included. */
  ghost function IntendedRevertPlan(ds: Definitions, applied: seq<int>, t: int): seq<int> {
    RunnerValidate.IdList(Reversed(Select(ds.definitions, ReachableIds(ds, TowardChildren, [t]) * SetOf(applied))))
  }

  /** With distinct identifiers, selecting one stored identifier yields exactly its definition. */
  lemma {:induction false} SelectSingle(s: seq<Definition>, t: int)
    requires forall i, j :: 0 <= i < j < |s| ==> s[i].id != s[j].id
    requires t in Ids(s)
    ensures |Select(s, {t})| == 1 && Select(s, {t})[0].id == t
  {
    var init, last := s[..|s| - 1], s[|s| - 1];
    assert s == init + [last];
    if last.id == t {
      forall d | d in init ensures d.id !in {t} {
        var i :| 0 <= i < |init| && init[i] == d;
      }
      SelectNone(init, {t});
    } else {
      var d :| d in s && d.id == t;
      assert d in init;
      SelectSingle(init, t);
    }
  }

  /**
   * The intended revert undoes exactly the applied leaf: on an applied set
   * built parents first, with every applied migration defined, the plan is
   * the target alone.
   */
  lemma IntendedRevertUndoesLeaf(ds: Definitions, applied: seq<int>, t: int)
    requires ds.Valid() && WellFormed(ds.definitions) && ParentClosed(ds, applied)
    requires FirstUndefined(ds, applied).None?
    requires t in RevertCandidates(ds, applied)
    ensures IntendedRevertPlan(ds, applied, t) == [t]
  {
    RevertReach(ds, applied, t);
    IndexMapFacts(ds.definitions);
    TargetsReachable(ds, TowardChildren, [t], t);
    assert ReachableIds(ds, TowardChildren, [t]) * SetOf(applied) == {t};
    SelectSingle(ds.definitions, t);
    var one := Select(ds.definitions, {t});
    assert one == [one[0]];
    assert Reversed(one) == one;
  }
}
