/**
 * The migration store: a per-schema version table holding the last
 * attempted version and its dirty flag, and the `migration_logs` table, one
 * row per attempt, shared by all schemas. The SQL is modelled by its effect
 * on these two tables.
 */
module MigrationStore {
  import opened Wrappers
  import Decimal

  /** Version of the log row layout written by this code. */
  const CurrentMigrationLogSchemaVersion: int := 1

  /** A row of the schema's version table. */
  datatype VersionRow = VersionRow(version: int, dirty: bool)

  /**
   * A row of `migration_logs`. `success` is unset until the attempt is
   * finalised; it is set together with `finished_at`, so an unset `success`
   * also means an unset `finished_at`.
   */
  datatype LogEntry = LogEntry(
    logSchemaVersion: int,
    schema: string,
    version: int,
    up: bool,
    success: Option<bool>,
    errorMessage: Option<string>)

  /** How `Versions` classifies the latest attempt of a version. */
  datatype Status = NoLog | Pending | Failed | Applied | Reverted

  /** The three lists `Versions` returns. */
  datatype VersionLists = VersionLists(applied: seq<int>, pending: seq<int>, failed: seq<int>)

  /** Why `validateVersion` refuses a migration. */
  datatype Refusal =
    | DirtyDatabase(pending: seq<int>, failed: seq<int>)
    | AlreadyApplied(version: int)
    | NothingToRevert(version: int)

  datatype StoreError =
    | Refused(reason: Refusal)
    | DatabaseError(message: string)

  // ---------------------------------------------------------------------
  // The versions query
  // ---------------------------------------------------------------------

  /**
   * The row the versions query keeps for `version`: rows are ranked by
   * `finished_at` descending, where an unset `finished_at` ranks first.
   * Attempts finish in the order they are logged, so this is the last
   * unfinished attempt if there is one, and the last attempt otherwise.
   */
  function LatestLog(logs: seq<LogEntry>, schema: string, version: int): (r: Option<LogEntry>)
    ensures r.Some? ==> r.value in logs && r.value.schema == schema && r.value.version == version
    ensures r.None? <==> forall e :: e in logs ==> !(e.schema == schema && e.version == version)
  {
    if logs == [] then None
    else
      var init, e := logs[..|logs| - 1], logs[|logs| - 1];
      assert logs == init + [e];
      var rest := LatestLog(init, schema, version);
      if e.schema != schema || e.version != version then rest
      else if e.success.Some? && rest.Some? && rest.value.success.None? then rest
      else Some(e)
  }

  function StatusOf(e: LogEntry): Status {
    match e.success
    case None => Pending
    case Some(ok) => if !ok then Failed else if e.up then Applied else Reverted
  }

  /** The status of `version` in `schema` according to its latest attempt. */
  function VersionStatus(logs: seq<LogEntry>, schema: string, version: int): Status {
    match LatestLog(logs, schema, version)
    case None => NoLog
    case Some(e) => StatusOf(e)
  }

  predicate StrictlyAscending(s: seq<int>) {
    forall i, j :: 0 <= i < j < |s| ==> s[i] < s[j]
  }

  /** `x` inserted into an ascending list without duplicates. */
  function InsertSorted(s: seq<int>, x: int): (r: seq<int>)
    requires StrictlyAscending(s)
    ensures StrictlyAscending(r)
    ensures forall y :: y in r <==> y in s || y == x
  {
    if s == [] then [x]
    else if x < s[0] then [x] + s
    else if x == s[0] then s
    else
      var t := InsertSorted(s[1..], x);
      assert forall y :: y in s <==> y == s[0] || y in s[1..];
      HeadBelowTail(s);
      ConsAscending(s[0], t);
      [s[0]] + t
  }

  lemma HeadBelowTail(s: seq<int>)
    requires StrictlyAscending(s) && s != []
    ensures forall y :: y in s[1..] ==> s[0] < y
  {
    forall y | y in s[1..] ensures s[0] < y {
      var i :| 0 <= i < |s[1..]| && s[1..][i] == y;
      assert s[i + 1] == y;
    }
  }

  lemma ConsAscending(h: int, t: seq<int>)
    requires StrictlyAscending(t) && forall y :: y in t ==> h < y
    ensures StrictlyAscending([h] + t)
  {
    forall i, j | 0 <= i < j < |[h] + t| ensures ([h] + t)[i] < ([h] + t)[j] {
      assert ([h] + t)[j] == t[j - 1];
      if i > 0 {
        assert ([h] + t)[i] == t[i - 1];
      } else {
        assert t[j - 1] in t;
      }
    }
  }

  /** The versions that have at least one log row of `schema`, ascending. */
  function LoggedVersions(logs: seq<LogEntry>, schema: string): (r: seq<int>)
    ensures StrictlyAscending(r)
    ensures forall v :: v in r <==> exists e :: e in logs && e.schema == schema && e.version == v
  {
    if logs == [] then []
    else
      var init, e := logs[..|logs| - 1], logs[|logs| - 1];
      assert logs == init + [e];
      var r := LoggedVersions(init, schema);
      if e.schema == schema then InsertSorted(r, e.version) else r
  }

  /** What the versions query returns: one row per logged version, ordered by version. */
  function QueryRows(logs: seq<LogEntry>, schema: string): (rows: seq<LogEntry>)
    ensures |rows| == |LoggedVersions(logs, schema)|
    ensures forall k :: 0 <= k < |rows| ==>
      var v := LoggedVersions(logs, schema)[k];
      LatestLog(logs, schema, v) == Some(rows[k]) && rows[k].version == v
  {
    var vs := LoggedVersions(logs, schema);
    seq(|vs|, k requires 0 <= k < |vs| => RowFor(logs, schema, vs[k]))
  }

  /** The query's row for a logged version. */
  function RowFor(logs: seq<LogEntry>, schema: string, v: int): (e: LogEntry)
    requires v in LoggedVersions(logs, schema)
    ensures LatestLog(logs, schema, v) == Some(e) && e.version == v
  {
    var d :| d in logs && d.schema == schema && d.version == v;
    LatestLog(logs, schema, v).value
  }

  /** The lists the classification loop of `Versions` builds from the rows. */
  function Classify(rows: seq<LogEntry>): VersionLists {
    if rows == [] then VersionLists([], [], [])
    else
      var r := Classify(rows[..|rows| - 1]);
      var e := rows[|rows| - 1];
      match StatusOf(e)
      case Pending => r.(pending := r.pending + [e.version])
      case Failed => r.(failed := r.failed + [e.version])
      case Applied => r.(applied := r.applied + [e.version])
      case _ => r
  }

  function VersionsOf(logs: seq<LogEntry>, schema: string): (r: VersionLists)
    ensures StrictlyAscending(r.pending) && StrictlyAscending(r.failed) && StrictlyAscending(r.applied)
  {
    var rows := QueryRows(logs, schema);
    ClassifyAscending(rows);
    Classify(rows)
  }

  /** Each list holds the row versions of one status, in row order. */
  lemma {:induction false} ClassifyMembers(rows: seq<LogEntry>)
    ensures forall v :: v in Classify(rows).pending <==> exists e :: e in rows && e.version == v && StatusOf(e) == Pending
    ensures forall v :: v in Classify(rows).failed <==> exists e :: e in rows && e.version == v && StatusOf(e) == Failed
    ensures forall v :: v in Classify(rows).applied <==> exists e :: e in rows && e.version == v && StatusOf(e) == Applied
  {
    if rows != [] {
      var init := rows[..|rows| - 1];
      ClassifyMembers(init);
      assert rows == init + [rows[|rows| - 1]];
    }
  }

  /** A list built by appending versions of ascending rows is ascending. */
  lemma {:induction false} ClassifyAscending(rows: seq<LogEntry>)
    requires forall i, j :: 0 <= i < j < |rows| ==> rows[i].version < rows[j].version
    ensures StrictlyAscending(Classify(rows).pending)
    ensures StrictlyAscending(Classify(rows).failed)
    ensures StrictlyAscending(Classify(rows).applied)
  {
    if rows != [] {
      var init, e := rows[..|rows| - 1], rows[|rows| - 1];
      ClassifyAscending(init);
      ClassifyMembers(init);
      var r := Classify(init);
      forall v | v in r.pending || v in r.failed || v in r.applied ensures v < e.version {
        var d :| d in init && d.version == v;
        var i :| 0 <= i < |init| && init[i] == d;
        assert rows[i] == d;
      }
      AppendAscending(r.pending, e.version);
      AppendAscending(r.failed, e.version);
      AppendAscending(r.applied, e.version);
    }
  }

  lemma AppendAscending(s: seq<int>, x: int)
    requires StrictlyAscending(s)
    requires forall v :: v in s ==> v < x
    ensures StrictlyAscending(s + [x])
  {
    assert forall k :: 0 <= k < |s| ==> s[k] in s;
  }

  /**
   * What `Versions` promises: a version is in exactly the list its latest
   * attempt calls for, and each list is ascending.
   */
  lemma VersionsMeaning(logs: seq<LogEntry>, schema: string)
    ensures var r := VersionsOf(logs, schema);
      && (forall v :: v in r.pending <==> VersionStatus(logs, schema, v) == Pending)
      && (forall v :: v in r.failed <==> VersionStatus(logs, schema, v) == Failed)
      && (forall v :: v in r.applied <==> VersionStatus(logs, schema, v) == Applied)
      && StrictlyAscending(r.pending) && StrictlyAscending(r.failed) && StrictlyAscending(r.applied)
  {
    var rows := QueryRows(logs, schema);
    var vs := LoggedVersions(logs, schema);
    ClassifyMembers(rows);
    ClassifyAscending(rows);
    forall v ensures (exists e :: e in rows && e.version == v && StatusOf(e) == VersionStatus(logs, schema, v))
                     <==> v in vs
    {
      if v in vs {
        var k :| 0 <= k < |vs| && vs[k] == v;
        assert rows[k] in rows;
      }
      if exists e :: e in rows && e.version == v && StatusOf(e) == VersionStatus(logs, schema, v) {
        var e :| e in rows && e.version == v && StatusOf(e) == VersionStatus(logs, schema, v);
        var k :| 0 <= k < |rows| && rows[k] == e;
      }
    }
    forall e | e in rows ensures StatusOf(e) == VersionStatus(logs, schema, e.version) {
      var k :| 0 <= k < |rows| && rows[k] == e;
    }
    forall v | VersionStatus(logs, schema, v) != NoLog ensures v in vs {
      var e := LatestLog(logs, schema, v).value;
    }
  }

  /** No version is in two lists. */
  lemma VersionsDisjoint(logs: seq<LogEntry>, schema: string)
    ensures var r := VersionsOf(logs, schema);
      forall v :: !(v in r.pending && v in r.failed) && !(v in r.pending && v in r.applied) && !(v in r.failed && v in r.applied)
  {
    VersionsMeaning(logs, schema);
  }

  /** Two ascending lists with the same members are equal. */
  lemma {:induction false} AscendingUnique(a: seq<int>, b: seq<int>)
    requires StrictlyAscending(a) && StrictlyAscending(b)
    requires forall v :: v in a <==> v in b
    ensures a == b
  {
    assert a != [] ==> a[0] in a;
    assert b != [] ==> b[0] in b;
    if a != [] && b != [] {
      assert a[0] in b && b[0] in a;
      forall v | v in a ensures a[0] <= v { var i :| 0 <= i < |a| && a[i] == v; }
      forall v | v in b ensures b[0] <= v { var i :| 0 <= i < |b| && b[i] == v; }
      assert a[0] == b[0];
      forall v ensures v in a[1..] <==> v in b[1..] {
        assert v in a <==> v == a[0] || v in a[1..];
        assert v in b <==> v == b[0] || v in b[1..];
        if v in a[1..] { var i :| 0 <= i < |a[1..]| && a[1..][i] == v; assert a[i + 1] == v; }
        if v in b[1..] { var i :| 0 <= i < |b[1..]| && b[1..][i] == v; assert b[i + 1] == v; }
      }
      AscendingUnique(a[1..], b[1..]);
      assert a == [a[0]] + a[1..] && b == [b[0]] + b[1..];
    }
  }

  // ---------------------------------------------------------------------
  // Validation
  // ---------------------------------------------------------------------

  predicate IsDirtyStatus(st: Status) { st == Pending || st == Failed }

  /** Some version's latest attempt is unfinished or failed. */
  ghost predicate Dirty(logs: seq<LogEntry>, schema: string) {
    exists v :: IsDirtyStatus(VersionStatus(logs, schema, v))
  }

  /** The refusal `validateVersion` reports for the lists `Versions` returned. */
  function Validation(lists: VersionLists, version: int, up: bool): (r: Option<Refusal>)
    ensures r.None? <==> |lists.pending| + |lists.failed| == 0 && (up <==> version !in lists.applied)
    ensures r.Some? && r.value.DirtyDatabase? <==> |lists.pending| + |lists.failed| > 0
    ensures r.Some? && !r.value.DirtyDatabase? ==> r.value.version == version && (r.value.AlreadyApplied? <==> up)
  {
    if |lists.pending| + |lists.failed| > 0 then Some(DirtyDatabase(lists.pending, lists.failed))
    else if up && version in lists.applied then Some(AlreadyApplied(version))
    else if !up && version !in lists.applied then Some(NothingToRevert(version))
    else None
  }

  /**
   * An attempt is refused exactly when the schema is dirty, when an up
   * migration is already applied, or when a down migration is not applied.
   */
  lemma ValidationMeaning(logs: seq<LogEntry>, schema: string, version: int, up: bool)
    ensures var r := Validation(VersionsOf(logs, schema), version, up);
      && (r.None? <==> !Dirty(logs, schema) && (up <==> VersionStatus(logs, schema, version) != Applied))
      && (r.Some? && r.value.DirtyDatabase? <==> Dirty(logs, schema))
      && (r == Some(AlreadyApplied(version)) <==> !Dirty(logs, schema) && up && VersionStatus(logs, schema, version) == Applied)
      && (r == Some(NothingToRevert(version)) <==> !Dirty(logs, schema) && !up && VersionStatus(logs, schema, version) != Applied)
  {
    var lists := VersionsOf(logs, schema);
    VersionsMeaning(logs, schema);
    if Dirty(logs, schema) {
      var v :| IsDirtyStatus(VersionStatus(logs, schema, v));
      assert v in lists.pending || v in lists.failed;
    }
    if |lists.pending| > 0 {
      assert IsDirtyStatus(VersionStatus(logs, schema, lists.pending[0]));
    }
    if |lists.failed| > 0 {
      assert IsDirtyStatus(VersionStatus(logs, schema, lists.failed[0]));
    }
  }

  // ---------------------------------------------------------------------
  // Migration attempts
  // ---------------------------------------------------------------------

  /**
   * The text of an error as it is written to the log and shown to the
   * operator: a database error's own text, or the refusal followed by a
   * blank line and the call to report a bug on a line of its own.
   */
  function Message(e: StoreError): (m: string)
    ensures e.DatabaseError? ==> m == e.message
    ensures e.Refused? ==>
      var tail := "\n\n" + Cta + "\n";
      |m| > |tail| && m[..|m| - |tail|] == RefusalText(e.reason) && m[|m| - |tail|..] == tail
  {
    match e
    case DatabaseError(m) => m
    case Refused(reason) =>
      var text, tail := RefusalText(reason), "\n\n" + Cta + "\n";
      assert (text + tail)[..|text|] == text && (text + tail)[|text|..] == tail;
      text + tail
  }

  const Cta: string := "This condition should not be reachable by normal use of the migration store via the runner and indicates a bug. Please report this issue."

  /**
   * The reason validation gives: a dirty database names its pending and
   * failed versions, the other refusals name the version and what is
   * wrong with it.
   */
  function RefusalText(reason: Refusal): (t: string)
    ensures reason.DirtyDatabase? ==> "dirty database; pending=[" <= t
    ensures !reason.DirtyDatabase? ==> "migration " + Decimal.IntToString(reason.version) + " " <= t
    ensures reason.AlreadyApplied? ==> |t| >= 18 && t[|t| - 18..] == "is already applied"
    ensures reason.NothingToRevert? ==> |t| >= 17 && t[|t| - 17..] == "nothing to revert"
  {
    match reason
    case DirtyDatabase(pending, failed) =>
      var tail := FormatInts(pending) + " failed=" + FormatInts(failed);
      Affixes("dirty database; pending=", tail);
      "dirty database; pending=" + tail
    case AlreadyApplied(v) =>
      var head := "migration " + Decimal.IntToString(v) + " ";
      Affixes(head, "is already applied");
      head + "is already applied"
    case NothingToRevert(v) =>
      var head := "migration " + Decimal.IntToString(v) + " ";
      Affixes(head, "has not been applied; nothing to revert");
      Affixes(head + "has not been applied; ", "nothing to revert");
      head + "has not been applied; " + "nothing to revert"
  }

  /** `head` starts, and `tail` ends, the string `head + tail`. */
  lemma Affixes(head: string, tail: string)
    ensures head <= head + tail
    ensures (head + tail)[|head|..] == tail
  {
  }

  /** A list of integers as Go's `%v` verb prints it: `[1 2 3]`. */
  function FormatInts(s: seq<int>): (r: string)
    ensures |r| >= 2 && r[0] == '[' && r[|r| - 1] == ']'
  {
    "[" + JoinInts(s) + "]"
  }

  function JoinInts(s: seq<int>): string {
    if s == [] then ""
    else if |s| == 1 then Decimal.IntToString(s[0])
    else Decimal.IntToString(s[0]) + " " + JoinInts(s[1..])
  }

  /** The error of an attempt that passed validation: the query's, else the dirty-flag reset's. */
  function AttemptFailure(queryErr: Option<string>, cleanErr: Option<string>): Option<StoreError> {
    if queryErr.Some? then Some(DatabaseError(queryErr.value))
    else if cleanErr.Some? then Some(DatabaseError(cleanErr.value))
    else None
  }

  /**
   * The log row an attempt leaves behind: finalised with its outcome, or
   * still unfinished when the final update itself failed.
   */
  function AttemptLog(schema: string, version: int, up: bool, failure: Option<StoreError>, finalized: bool): (e: LogEntry)
    ensures e.schema == schema && e.version == version && e.up == up
    ensures StatusOf(e) == (if !finalized then Pending else if failure.Some? then Failed else if up then Applied else Reverted)
  {
    LogEntry(CurrentMigrationLogSchemaVersion, schema, version, up,
      if finalized then Some(failure.None?) else None,
      if finalized && failure.Some? then Some(Message(failure.value)) else None)
  }

  function ErrorList(e: Option<StoreError>): seq<StoreError> {
    if e.Some? then [e.value] else []
  }

  /** A refusal, if any, as the error the store returns. */
  function RefusalError(refusal: Option<Refusal>): Option<StoreError> {
    if refusal.Some? then Some(Refused(refusal.value)) else None
  }

  /** Appends cannot disturb the latest attempt of any other version. */
  lemma LatestLogAppend(logs: seq<LogEntry>, e: LogEntry, schema: string, v: int)
    ensures LatestLog(logs + [e], schema, v) ==
      var rest := LatestLog(logs, schema, v);
      if e.schema != schema || e.version != v then rest
      else if e.success.Some? && rest.Some? && rest.value.success.None? then rest
      else Some(e)
  {
    assert (logs + [e])[..|logs|] == logs;
  }

  /**
   * On a clean schema, a new attempt becomes the latest of its version and
   * every other version keeps its status.
   */
  lemma AttemptOutcome(logs: seq<LogEntry>, schema: string, e: LogEntry, w: int)
    requires e.schema == schema
    requires !Dirty(logs, schema)
    ensures VersionStatus(logs + [e], schema, w) == if w == e.version then StatusOf(e) else VersionStatus(logs, schema, w)
  {
    LatestLogAppend(logs, e, schema, w);
    assert !IsDirtyStatus(VersionStatus(logs, schema, w));
  }

  /** A successful up migration inserts its version into the applied list, in order. */
  lemma SuccessfulUpInserts(logs: seq<LogEntry>, schema: string, version: int)
    requires Validation(VersionsOf(logs, schema), version, true).None?
    ensures var after := VersionsOf(logs + [AttemptLog(schema, version, true, None, true)], schema);
      && after.applied == InsertSorted(VersionsOf(logs, schema).applied, version)
      && after.pending == [] && after.failed == []
  {
    var e := AttemptLog(schema, version, true, None, true);
    ValidationMeaning(logs, schema, version, true);
    VersionsMeaning(logs, schema);
    VersionsMeaning(logs + [e], schema);
    forall w ensures VersionStatus(logs + [e], schema, w) == if w == version then Applied else VersionStatus(logs, schema, w) {
      AttemptOutcome(logs, schema, e, w);
    }
    var after := VersionsOf(logs + [e], schema);
    AscendingUnique(after.applied, InsertSorted(VersionsOf(logs, schema).applied, version));
    AscendingUnique(after.pending, []);
    AscendingUnique(after.failed, []);
  }

  /** A successful down migration removes its version from the applied list. */
  lemma SuccessfulDownRemoves(logs: seq<LogEntry>, schema: string, version: int)
    requires Validation(VersionsOf(logs, schema), version, false).None?
    ensures var before := VersionsOf(logs, schema);
      var after := VersionsOf(logs + [AttemptLog(schema, version, false, None, true)], schema);
      && version in before.applied
      && (forall w :: w in after.applied <==> w in before.applied && w != version)
      && after.pending == [] && after.failed == []
  {
    var e := AttemptLog(schema, version, false, None, true);
    ValidationMeaning(logs, schema, version, false);
    VersionsMeaning(logs, schema);
    VersionsMeaning(logs + [e], schema);
    forall w ensures VersionStatus(logs + [e], schema, w) == if w == version then Reverted else VersionStatus(logs, schema, w) {
      AttemptOutcome(logs, schema, e, w);
    }
    var after := VersionsOf(logs + [e], schema);
    AscendingUnique(after.pending, []);
    AscendingUnique(after.failed, []);
  }

  /** An attempt whose query fails leaves its version failed, so the schema is dirty. */
  lemma FailedAttemptDirties(logs: seq<LogEntry>, schema: string, version: int, up: bool, failure: StoreError)
    requires Validation(VersionsOf(logs, schema), version, up).None?
    ensures var after := logs + [AttemptLog(schema, version, up, Some(failure), true)];
      && VersionsOf(after, schema).failed == [version]
      && Validation(VersionsOf(after, schema), version, up) == Some(DirtyDatabase([], [version]))
  {
    var e := AttemptLog(schema, version, up, Some(failure), true);
    ValidationMeaning(logs, schema, version, up);
    VersionsMeaning(logs + [e], schema);
    forall w ensures VersionStatus(logs + [e], schema, w) == if w == version then Failed else VersionStatus(logs, schema, w) {
      AttemptOutcome(logs, schema, e, w);
    }
    var after := VersionsOf(logs + [e], schema);
    AscendingUnique(after.failed, [version]);
    AscendingUnique(after.pending, []);
  }

  // ---------------------------------------------------------------------
  // Backfilling logs for schemas that predate the log table
  // ---------------------------------------------------------------------

  /** The first version each known schema's migrations start from. */
  function MinMigrationVersion(schema: string): Option<int> {
    if schema == "schema_migrations" then Some(1528395834)
    else if schema == "codeintel_schema_migrations" then Some(1000000015)
    else if schema == "codeinsights_schema_migrations" then Some(1000000000)
    else None
  }

  function BackfillEntry(schema: string, version: int): LogEntry {
    LogEntry(CurrentMigrationLogSchemaVersion, schema, version, true, Some(true), None)
  }

  /** One successful up attempt for each of `n` consecutive versions from `start`. */
  function BackfillRun(schema: string, start: int, n: nat): (r: seq<LogEntry>)
    ensures |r| == n
  {
    if n == 0 then [] else BackfillRun(schema, start, n - 1) + [BackfillEntry(schema, start + n - 1)]
  }

  /**
   * The rows `EnsureSchemaTable` inserts: for a known schema whose version
   * table has a clean row and which has no log rows yet, one successful up
   * attempt per version from the schema's first version through the
   * recorded one.
   */
  function Backfill(schema: string, versionTable: seq<VersionRow>, logs: seq<LogEntry>): seq<LogEntry> {
    var min := MinMigrationVersion(schema);
    if min.None? || versionTable == [] || versionTable[0].dirty then []
    else if exists e :: e in logs && e.schema == schema then []
    else if versionTable[0].version < min.value then []
    else BackfillRun(schema, min.value, versionTable[0].version - min.value + 1)
  }

  lemma {:induction false} BackfillRunLatest(logs: seq<LogEntry>, schema: string, start: int, n: nat, v: int)
    requires forall e :: e in logs ==> e.schema != schema
    ensures LatestLog(logs + BackfillRun(schema, start, n), schema, v) ==
      if start <= v < start + n then Some(BackfillEntry(schema, v)) else None
  {
    if n == 0 {
      assert logs + BackfillRun(schema, start, n) == logs;
    } else {
      var prev := BackfillRun(schema, start, n - 1);
      var e := BackfillEntry(schema, start + n - 1);
      assert logs + BackfillRun(schema, start, n) == (logs + prev) + [e] by {
        assert BackfillRun(schema, start, n) == prev + [e];
        assert logs + (prev + [e]) == (logs + prev) + [e];
      }
      BackfillRunLatest(logs, schema, start, n - 1, v);
      BackfillStep(logs + prev, schema, start, n, v, e);
    }
  }

  /** Appending the next backfilled entry extends the backfilled range by one version. */
  lemma BackfillStep(base: seq<LogEntry>, schema: string, start: int, n: nat, v: int, e: LogEntry)
    requires n > 0 && e == BackfillEntry(schema, start + n - 1)
    requires LatestLog(base, schema, v) == if start <= v < start + n - 1 then Some(BackfillEntry(schema, v)) else None
    ensures LatestLog(base + [e], schema, v) == if start <= v < start + n then Some(BackfillEntry(schema, v)) else None
  {
    LatestLogAppend(base, e, schema, v);
  }

  /**
   * After the backfill, exactly the versions from the schema's first one
   * through the recorded one count as applied, and nothing is dirty.
   */
  lemma BackfillApplies(schema: string, versionTable: seq<VersionRow>, logs: seq<LogEntry>, v: int)
    requires Backfill(schema, versionTable, logs) != []
    ensures MinMigrationVersion(schema).Some? && versionTable != [] && !versionTable[0].dirty
    ensures VersionStatus(logs + Backfill(schema, versionTable, logs), schema, v) ==
      if MinMigrationVersion(schema).value <= v <= versionTable[0].version then Applied else NoLog
  {
    var min := MinMigrationVersion(schema).value;
    var n := versionTable[0].version - min + 1;
    assert Backfill(schema, versionTable, logs) == BackfillRun(schema, min, n);
    assert forall e :: e in logs ==> e.schema != schema;
    BackfillRunLatest(logs, schema, min, n, v);
    assert StatusOf(BackfillEntry(schema, v)) == Applied;
  }

  // ---------------------------------------------------------------------
  // The store
  // ---------------------------------------------------------------------

  /**
   * A store bound to one schema. Database failures of the statements an
   * operation issues are passed in as parameters (`Some(message)` for a
   * failing statement).
   */
  class Store {
    const schemaName: string
    /** The schema's version table: the last attempted version and whether it is dirty. */
    var versionTable: seq<VersionRow>
    /** The `migration_logs` table, in insertion order, shared by all schemas. */
    var logs: seq<LogEntry>
    /** Whether this store's session holds the schema's advisory lock. */
    var locked: bool

    constructor (schemaName: string, versionTable: seq<VersionRow>, logs: seq<LogEntry>)
      ensures this.schemaName == schemaName && this.versionTable == versionTable && this.logs == logs
      ensures !locked
    {
      this.schemaName := schemaName;
      this.versionTable := versionTable;
      this.logs := logs;
      locked := false;
    }

    /**
     * Inserts the backfilled log rows, inside one transaction: when the
     * transaction fails nothing changes.
     */
    method EnsureSchemaTable(txErr: Option<string>) returns (err: seq<StoreError>)
      modifies this`logs
      ensures txErr.Some? ==> err == [DatabaseError(txErr.value)] && logs == old(logs)
      ensures txErr.None? ==> err == [] && logs == old(logs) + Backfill(schemaName, versionTable, old(logs))
    {
      if txErr.Some? {
        return [DatabaseError(txErr.value)];
      }
      logs := logs + Backfill(schemaName, versionTable, logs);
      err := [];
    }

    /**
     * The applied, pending and failed versions of the schema, each ascending;
     * `queryErr` is the outcome of the versions query, whose failure yields
     * no lists and the database error.
     */
    method Versions(queryErr: Option<string>) returns (applied: seq<int>, pending: seq<int>, failed: seq<int>, err: Option<StoreError>)
      ensures queryErr.Some? ==> err == Some(DatabaseError(queryErr.value)) && applied == pending == failed == []
      ensures queryErr.None? ==> err.None? && VersionLists(applied, pending, failed) == VersionsOf(logs, schemaName)
      ensures queryErr.None? ==> forall v :: v in applied <==> VersionStatus(logs, schemaName, v) == Applied
      ensures queryErr.None? ==> forall v :: v in pending <==> VersionStatus(logs, schemaName, v) == Pending
      ensures queryErr.None? ==> forall v :: v in failed <==> VersionStatus(logs, schemaName, v) == Failed
      ensures StrictlyAscending(applied) && StrictlyAscending(pending) && StrictlyAscending(failed)
    {
      applied, pending, failed := [], [], [];
      if queryErr.Some? {
        return applied, pending, failed, Some(DatabaseError(queryErr.value));
      }
      err := None;
      var rows := QueryRows(logs, schemaName);
      var i := 0;
      while i < |rows|
        invariant 0 <= i <= |rows|
        invariant VersionLists(applied, pending, failed) == Classify(rows[..i])
      {
        var e := rows[i];
        assert rows[..i + 1] == rows[..i] + [e];
        if e.success.None? {
          pending := pending + [e.version];
        } else if !e.success.value {
          failed := failed + [e.version];
        } else if e.up {
          applied := applied + [e.version];
        }
        i := i + 1;
      }
      assert rows[..|rows|] == rows;
      VersionsMeaning(logs, schemaName);
    }

    /**
     * Why an attempt to run `version` in direction `up` must be refused, if
     * it must; a failing versions query (`versionsErr`) is passed on as is.
     */
    method ValidateVersion(version: int, up: bool, versionsErr: Option<string>) returns (r: Option<StoreError>)
      ensures versionsErr.Some? ==> r == Some(DatabaseError(versionsErr.value))
      ensures versionsErr.None? ==> r == RefusalError(Validation(VersionsOf(logs, schemaName), version, up))
      ensures versionsErr.None? ==>
        (r.None? <==> !Dirty(logs, schemaName) && (up <==> VersionStatus(logs, schemaName, version) != Applied))
      ensures versionsErr.None? ==> (r.Some? && r.value.Refused? && r.value.reason.DirtyDatabase? <==> Dirty(logs, schemaName))
    {
      var applied, pending, failed, err := Versions(versionsErr);
      if err.Some? {
        return err;
      }
      ValidationMeaning(logs, schemaName, version, up);
      if |pending| + |failed| > 0 {
        return Some(Refused(DirtyDatabase(pending, failed)));
      }
      var found := false;
      var i := 0;
      while i < |applied|
        invariant 0 <= i <= |applied|
        invariant found <==> version in applied[..i]
      {
        assert applied[..i + 1] == applied[..i] + [applied[i]];
        if applied[i] == version {
          found := true;
          assert version in applied[..i + 1];
          assert applied[..i + 1] + applied[i + 1..] == applied;
          break;
        }
        i := i + 1;
      }
      assert found <==> version in applied by {
        if !found { assert applied[..i] == applied; }
      }
      if up && found {
        r := Some(Refused(AlreadyApplied(version)));
      } else if !up && !found {
        r := Some(Refused(NothingToRevert(version)));
      } else {
        r := None;
      }
    }

    /**
     * Runs one migration query: validates, marks the version table dirty
     * and logs the attempt (one transaction), runs the query, clears the
     * dirty flag, and finally records the outcome in the log row.
     */
    method RunMigrationQuery(version: int, up: bool, versionsErr: Option<string>, queryErr: Option<string>, cleanErr: Option<string>, finalizeErr: Option<string>)
      returns (errs: seq<StoreError>)
      modifies this`versionTable, this`logs
      ensures versionsErr.Some? ==>
        errs == [DatabaseError(versionsErr.value)] && versionTable == old(versionTable) && logs == old(logs)
      ensures var refusal := Validation(VersionsOf(old(logs), schemaName), version, up);
        versionsErr.None? && refusal.Some? ==>
          errs == [Refused(refusal.value)] && versionTable == old(versionTable) && logs == old(logs)
      ensures var refusal := Validation(VersionsOf(old(logs), schemaName), version, up);
        var failure := AttemptFailure(queryErr, cleanErr);
        versionsErr.None? && refusal.None? ==>
          && versionTable == [VersionRow(version, failure.Some?)]
          && logs == old(logs) + [AttemptLog(schemaName, version, up, failure, finalizeErr.None?)]
          && errs == ErrorList(failure) + (if finalizeErr.Some? then [DatabaseError(finalizeErr.value)] else [])
    {
      var invalid := ValidateVersion(version, up, versionsErr);
      if invalid.Some? {
        return [invalid.value];
      }
      versionTable := [VersionRow(version, true)];
      logs := logs + [LogEntry(CurrentMigrationLogSchemaVersion, schemaName, version, up, None, None)];
      var logID := |logs| - 1;

      var err: Option<StoreError> := None;
      if queryErr.Some? {
        err := Some(DatabaseError(queryErr.value));
      } else if cleanErr.Some? {
        err := Some(DatabaseError(cleanErr.value));
      } else {
        versionTable := [VersionRow(version, false)];
      }

      // the deferred update of the log row
      errs := ErrorList(err);
      if finalizeErr.Some? {
        errs := errs + [DatabaseError(finalizeErr.value)];
      } else {
        logs := logs[logID := AttemptLog(schemaName, version, up, err, true)];
      }
    }

    /** Applies a migration's up query, whose outcome the parameters give. */
    method Up(definitionID: int, versionsErr: Option<string>, queryErr: Option<string>, cleanErr: Option<string>, finalizeErr: Option<string>)
      returns (errs: seq<StoreError>)
      modifies this`versionTable, this`logs
      ensures versionsErr.Some? ==>
        errs == [DatabaseError(versionsErr.value)] && versionTable == old(versionTable) && logs == old(logs)
      ensures var refusal := Validation(VersionsOf(old(logs), schemaName), definitionID, true);
        versionsErr.None? && refusal.Some? ==>
          errs == [Refused(refusal.value)] && versionTable == old(versionTable) && logs == old(logs)
      ensures var refusal := Validation(VersionsOf(old(logs), schemaName), definitionID, true);
        var failure := AttemptFailure(queryErr, cleanErr);
        versionsErr.None? && refusal.None? ==>
          && versionTable == [VersionRow(definitionID, failure.Some?)]
          && logs == old(logs) + [AttemptLog(schemaName, definitionID, true, failure, finalizeErr.None?)]
          && errs == ErrorList(failure) + (if finalizeErr.Some? then [DatabaseError(finalizeErr.value)] else [])
    {
      errs := RunMigrationQuery(definitionID, true, versionsErr, queryErr, cleanErr, finalizeErr);
    }

    /** Reverts a migration with its down query, whose outcome the parameters give. */
    method Down(definitionID: int, versionsErr: Option<string>, queryErr: Option<string>, cleanErr: Option<string>, finalizeErr: Option<string>)
      returns (errs: seq<StoreError>)
      modifies this`versionTable, this`logs
      ensures versionsErr.Some? ==>
        errs == [DatabaseError(versionsErr.value)] && versionTable == old(versionTable) && logs == old(logs)
      ensures var refusal := Validation(VersionsOf(old(logs), schemaName), definitionID, false);
        versionsErr.None? && refusal.Some? ==>
          errs == [Refused(refusal.value)] && versionTable == old(versionTable) && logs == old(logs)
      ensures var refusal := Validation(VersionsOf(old(logs), schemaName), definitionID, false);
        var failure := AttemptFailure(queryErr, cleanErr);
        versionsErr.None? && refusal.None? ==>
          && versionTable == [VersionRow(definitionID, failure.Some?)]
          && logs == old(logs) + [AttemptLog(schemaName, definitionID, false, failure, finalizeErr.None?)]
          && errs == ErrorList(failure) + (if finalizeErr.Some? then [DatabaseError(finalizeErr.value)] else [])
    {
      errs := RunMigrationQuery(definitionID, false, versionsErr, queryErr, cleanErr, finalizeErr);
    }

    /** Takes the advisory lock, waiting for it; fails only when the statement fails. */
    method Lock(lockErr: Option<string>) returns (acquired: bool, err: seq<StoreError>)
      modifies this`locked
      ensures lockErr.Some? ==> !acquired && err == [DatabaseError(lockErr.value)] && locked == old(locked)
      ensures lockErr.None? ==> acquired && err == [] && locked
    {
      if lockErr.Some? {
        return false, [DatabaseError(lockErr.value)];
      }
      locked := true;
      return true, [];
    }

    /** The release function `Lock` hands out: unlocks and adds any unlock failure to `err`. */
    method ReleaseLock(err: seq<StoreError>, unlockErr: Option<string>) returns (r: seq<StoreError>)
      modifies this`locked
      ensures unlockErr.None? ==> r == err && !locked
      ensures unlockErr.Some? ==> r == err + [DatabaseError(unlockErr.value)] && locked == old(locked)
    {
      if unlockErr.Some? {
        return err + [DatabaseError(unlockErr.value)];
      }
      locked := false;
      r := err;
    }

    /**
     * Tries the advisory lock without waiting; `available` says whether no
     * other session holds it.
     */
    method TryLock(available: bool, queryErr: Option<string>) returns (acquired: bool, err: seq<StoreError>)
      modifies this`locked
      ensures queryErr.Some? ==> !acquired && err == [DatabaseError(queryErr.value)] && locked == old(locked)
      ensures queryErr.None? ==> acquired == available && err == [] && locked == (old(locked) || available)
    {
      if queryErr.Some? {
        return false, [DatabaseError(queryErr.value)];
      }
      acquired := available;
      if acquired {
        locked := true;
      }
      err := [];
    }

    /**
     * The release function `TryLock` hands out: when the lock was not
     * acquired it returns `err` untouched and issues nothing.
     */
    method ReleaseTryLock(acquired: bool, err: seq<StoreError>, unlockErr: Option<string>) returns (r: seq<StoreError>)
      modifies this`locked
      ensures !acquired ==> r == err && locked == old(locked)
      ensures acquired && unlockErr.None? ==> r == err && !locked
      ensures acquired && unlockErr.Some? ==> r == err + [DatabaseError(unlockErr.value)] && locked == old(locked)
    {
      if !acquired {
        return err;
      }
      r := ReleaseLock(err, unlockErr);
    }
  }
}
