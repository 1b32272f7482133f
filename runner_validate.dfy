/**
 * The runner's schema validation: decides whether an instance may start
 * against the database (up to date, or a newer deployment in progress), or
 * must fail because the schema is dirty or out of date. The store and its
 * lock are reached through the values the caller passes in.
 */
module RunnerValidate {
  import opened Wrappers
  import opened MigrationDefinition
  import MigrationStore

  /** The applied, pending and failed lists the store reports for a schema. */
  type SchemaVersion = MigrationStore.VersionLists

  /** Some version is pending or failed. */
  predicate IsDirty(v: SchemaVersion) {
    |v.pending| + |v.failed| > 0
  }

  datatype ValidateError =
    | SchemaOutOfDate(schemaName: string, missingVersions: seq<int>)
    | DirtyDatabase
    | LockedReadFailed(message: string)

  /** Every defined migration is in the applied list. */
  ghost predicate AllApplied(defs: seq<Definition>, applied: seq<int>) {
    forall d :: d in defs ==> d.id in applied
  }

  /**
   * `isDatabaseNewer`: a membership test of every definition against the
   * applied list (its doc comment speaks of a numeric comparison; the code
   * tests membership, and so does this model).
   */
  method IsDatabaseNewer(appliedVersions: seq<int>, ds: Definitions) returns (newer: bool)
    ensures newer <==> AllApplied(ds.definitions, appliedVersions)
  {
    var appliedMap := ToSet(appliedVersions);
    var defs := ds.definitions;
    var i := 0;
    while i < |defs|
      invariant 0 <= i <= |defs|
      invariant forall k :: 0 <= k < i ==> defs[k].id in appliedVersions
    {
      if defs[i].id !in appliedMap {
        return false;
      }
      i := i + 1;
    }
    forall d | d in defs ensures d.id in appliedVersions {
      var k :| 0 <= k < |defs| && defs[k] == d;
    }
    return true;
  }

  /** A version with a higher number than every definition is not, by itself, "newer". */
  lemma NewerIsMembership()
    ensures var ds := Definitions([Definition(1, "", "", "", "", [])], map[1 := Definition(1, "", "", "", "", [])]);
      !AllApplied(ds.definitions, [5]) && forall d :: d in ds.definitions ==> d.id < 5
  {
    var d := Definition(1, "", "", "", "", []);
    assert d in [d] && d.id !in [5];
  }

  /** `compareVersionSlice`: the same length and the same element at every index. */
  method CompareVersionSlice(a: seq<int>, b: seq<int>) returns (same: bool)
    ensures same <==> a == b
  {
    if |a| != |b| {
      return false;
    }
    var i := 0;
    while i < |a|
      invariant 0 <= i <= |a|
      invariant a[..i] == b[..i]
    {
      if b[i] != a[i] {
        assert a[i] != b[i];
        return false;
      }
      assert a[..i + 1] == a[..i] + [a[i]] && b[..i + 1] == b[..i] + [b[i]];
      i := i + 1;
    }
    assert a == a[..i] && b == b[..i];
    return true;
  }

  /** The identifiers of a list of definitions, in order. */
  function IdList(s: seq<Definition>): (r: seq<int>)
    ensures |r| == |s| && forall k :: 0 <= k < |s| ==> r[k] == s[k].id
  {
    seq(|s|, k requires 0 <= k < |s| => s[k].id)
  }

  /** The loop that collects `definition.ID` for each definition. */
  method CollectIDs(defs: seq<Definition>) returns (ids: seq<int>)
    ensures ids == IdList(defs)
  {
    ids := [];
    var i := 0;
    while i < |defs|
      invariant 0 <= i <= |defs|
      invariant ids == IdList(defs[..i])
    {
      ids := ids + [defs[i].id];
      i := i + 1;
    }
    assert defs[..i] == defs;
  }

  /** What `waitForMigration` returns: an applied list and whether the schema is dirty. */
  datatype Waited = Waited(applied: seq<int>, dirty: bool)

  /**
   * The outcome of the polling loop over the successive polls taken under
   * the lock, or `None` when the polls run out while the loop would go on.
   */
  ghost function WaitOutcome(version: seq<int>, dirty: bool, polls: seq<Result<SchemaVersion, string>>): Option<Result<Waited, string>>
    decreases |polls|
  {
    if !dirty then Some(Ok(Waited(version, false)))
    else if polls == [] then None
    else match polls[0]
      case Err(m) => Some(Err(m))
      case Ok(v) =>
        if v.applied == version then Some(Ok(Waited(version, true)))
        else WaitOutcome(v.applied, IsDirty(v), polls[1..])
  }

  /**
   * `waitForMigration`: while the last seen state is dirty, re-polls the
   * versions under the migration lock (`polls` are those reads, in order,
   * each already including any lock failure), stopping when the applied list
   * did not change or the state became clean.
   */
  method WaitForMigration(initial: SchemaVersion, polls: seq<Result<SchemaVersion, string>>)
    returns (r: Result<Waited, string>, used: nat)
    requires WaitOutcome(initial.applied, IsDirty(initial), polls).Some?
    ensures r == WaitOutcome(initial.applied, IsDirty(initial), polls).value
    ensures used <= |polls|
    ensures !IsDirty(initial) ==> r == Ok(Waited(initial.applied, false)) && used == 0
    ensures r.Err? ==> 0 < used && polls[used - 1] == Err(r.error)
    ensures r.Ok? && r.value.dirty ==>
      0 < used && polls[used - 1].Ok? && polls[used - 1].value.applied == r.value.applied
    ensures r.Ok? && !r.value.dirty && 0 < used ==>
      polls[used - 1].Ok? && !IsDirty(polls[used - 1].value) && polls[used - 1].value.applied == r.value.applied
  {
    var version, dirty := initial.applied, IsDirty(initial);
    used := 0;
    while dirty
      invariant used <= |polls|
      invariant WaitOutcome(version, dirty, polls[used..]) == WaitOutcome(initial.applied, IsDirty(initial), polls)
      invariant used == 0 ==> version == initial.applied && dirty == IsDirty(initial)
      invariant !IsDirty(initial) ==> used == 0
      invariant 0 < used ==>
        polls[used - 1].Ok? && polls[used - 1].value.applied == version && dirty == IsDirty(polls[used - 1].value)
      decreases |polls| - used
    {
      var read := polls[used];
      used := used + 1;
      if read.Err? {
        return Err(read.error), used;
      }
      var same := CompareVersionSlice(read.value.applied, version);
      if same {
        assert WaitOutcome(version, dirty, polls[used - 1..]) == Some(Ok(Waited(version, true)));
        return Ok(Waited(version, dirty)), used;
      }
      assert polls[used - 1..][1..] == polls[used..];
      version, dirty := read.value.applied, IsDirty(read.value);
    }
    r := Ok(Waited(version, dirty));
  }

  /** The identifiers of the leaves, the targets validation plans towards. */
  ghost function LeafIDs(ds: Definitions): seq<int> {
    IdList(Select(ds.definitions, LeafIds(ds.definitions)))
  }

  /** With no definitions there are no leaves, so planning towards them cannot fail. */
  lemma EmptyDefinitionsPlan(ds: Definitions)
    requires ds.definitions == []
    ensures LeafIDs(ds) == []
    ensures AllReachableDefined(ds, TowardParents, LeafIDs(ds))
  {
    NoTargetsNoPlan(ds, TowardParents);
  }

  /**
   * `validateSchema`: succeeds at once when every definition is applied;
   * otherwise waits out a running migrator, plans from the applied list it
   * ends with towards the leaves, and reports a dirty or out-of-date schema.
   */
  method ValidateSchema(schemaName: string, ds: Definitions, snapshot: SchemaVersion,
                        polls: seq<Result<SchemaVersion, string>>)
    returns (r: Option<ValidateError>)
    requires ds.Valid()
    requires WaitOutcome(snapshot.applied, IsDirty(snapshot), polls).Some?
    ensures AllApplied(ds.definitions, snapshot.applied) ==> r.None?
    ensures !AllApplied(ds.definitions, snapshot.applied) ==>
      var w := WaitOutcome(snapshot.applied, IsDirty(snapshot), polls).value;
      && (w.Err? ==> r == Some(LockedReadFailed(w.error)))
      && (w.Ok? && !AllReachableDefined(ds, TowardParents, LeafIDs(ds)) ==>
            r == Some(SchemaOutOfDate(schemaName, IdList(ds.definitions))))
      && (w.Ok? && AllReachableDefined(ds, TowardParents, LeafIDs(ds)) ==>
            var plan := Select(ds.definitions, ReachableIds(ds, TowardParents, LeafIDs(ds)) - SetOf(w.value.applied));
            r == (if w.value.dirty then (if AllApplied(ds.definitions, w.value.applied) then None else Some(DirtyDatabase))
                  else if plan == [] then None
                  else Some(SchemaOutOfDate(schemaName, IdList(plan)))))
  {
    var newer := IsDatabaseNewer(snapshot.applied, ds);
    if newer {
      return None;
    }
    var waited, _ := WaitForMigration(snapshot, polls);
    if waited.Err? {
      return Some(LockedReadFailed(waited.error));
    }
    var appliedVersions, dirty := waited.value.applied, waited.value.dirty;

    var leaves := Leaves(ds);
    var leafIDs := CollectIDs(leaves);
    var definitions := Up(ds, appliedVersions, leafIDs);
    if definitions.Err? {
      if |ds.definitions| == 0 {
        // unreachable: with no definitions there are no leaves to plan towards
        assert false;
      }
      var missingVersions := CollectIDs(ds.definitions);
      return Some(SchemaOutOfDate(schemaName, missingVersions));
    }
    if dirty {
      newer := IsDatabaseNewer(appliedVersions, ds);
      if newer {
        return None;
      }
      return Some(DirtyDatabase);
    }
    if |definitions.value| == 0 {
      return None;
    }
    var missingVersions := CollectIDs(definitions.value);
    return Some(SchemaOutOfDate(schemaName, missingVersions));
  }
}
