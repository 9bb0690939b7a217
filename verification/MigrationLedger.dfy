/** The migration ledger: what a run decides to apply, and what any sequence of runs can leave in the ledger. */
module MigrationLedger {
  import opened Wrappers
  import opened Text

  datatype Kind = Legacy | Additive | Contract
  datatype File = File(version: nat, name: string, kind: Kind, checksum: string)
  /** A ledger row; a row of the previous runner holds the version alone. */
  datatype Row = Row(version: nat, checksum: Option<string>, name: Option<string>, kind: Option<Kind>)

  datatype Error =
    | ChangedAfterApply(name: string)
    | Gap(version: nat)
    | ContractInBoot(version: nat)
    | ContractNotAllowed(version: nat)
    | SqlFailed(version: nat)

  datatype Mode = Explicit | Boot
  datatype Options = Options(mode: Mode, allowContract: set<nat>, through: Option<nat>)
  datatype Plan = Plan(pending: seq<File>, unverified: seq<nat>)

  // ---------------------------------------------------------------- the decision

  predicate Applied(rows: seq<Row>, version: nat) { exists i :: 0 <= i < |rows| && rows[i].version == version }

  /** The row a version maps to; a later row with the same version replaces an earlier one. */
  function RowOf(rows: seq<Row>, version: nat): (r: Row)
    requires Applied(rows, version)
    ensures r in rows && r.version == version
  {
    var last := rows[|rows| - 1];
    if last.version == version then last else RowOf(rows[..|rows| - 1], version)
  }

  predicate Changed(rows: seq<Row>, f: File) {
    Applied(rows, f.version) && RowOf(rows, f.version).checksum.Some? && RowOf(rows, f.version).checksum.value != f.checksum
  }

  predicate Unverified(rows: seq<Row>, f: File) { Applied(rows, f.version) && RowOf(rows, f.version).checksum.None? }

  predicate IsPending(rows: seq<Row>, opts: Options, f: File) {
    !Applied(rows, f.version) && (opts.through.None? || f.version <= opts.through.value)
  }

  function Pending(files: seq<File>, rows: seq<Row>, opts: Options): (r: seq<File>)
    ensures forall f :: f in r <==> f in files && IsPending(rows, opts, f)
  {
    if files == [] then []
    else
      var rest := Pending(files[..|files| - 1], rows, opts);
      if IsPending(rows, opts, files[|files| - 1]) then rest + [files[|files| - 1]] else rest
  }

  function UnverifiedVersions(files: seq<File>, rows: seq<Row>): seq<nat> {
    if files == [] then []
    else
      var rest := UnverifiedVersions(files[..|files| - 1], rows);
      if Unverified(rows, files[|files| - 1]) then rest + [files[|files| - 1].version] else rest
  }

  function MaxApplied(rows: seq<Row>): (m: nat)
    ensures forall r :: r in rows ==> r.version <= m
    ensures m == 0 || exists r :: r in rows && r.version == m
  {
    if rows == [] then 0
    else
      var m, last := MaxApplied(rows[..|rows| - 1]), rows[|rows| - 1];
      assert rows == rows[..|rows| - 1] + [last];
      if last.version > m then last.version else m
  }

  predicate Allowed(opts: Options, f: File) { f.kind != Contract || (opts.mode != Boot && f.version in opts.allowContract) }

  function FirstChanged(files: seq<File>, rows: seq<Row>): (r: Option<Error>)
    ensures r.None? <==> forall f :: f in files ==> !Changed(rows, f)
    ensures r.Some? ==> r.value.ChangedAfterApply?
  {
    if files == [] then None
    else if Changed(rows, files[0]) then Some(ChangedAfterApply(files[0].name))
    else FirstChanged(files[1..], rows)
  }

  function FirstGap(pending: seq<File>, maxApplied: nat): (r: Option<Error>)
    ensures r.None? <==> forall f :: f in pending ==> f.version >= maxApplied
    ensures r.Some? ==> r.value.Gap?
  {
    if pending == [] then None
    else if pending[0].version < maxApplied then Some(Gap(pending[0].version))
    else FirstGap(pending[1..], maxApplied)
  }

  function FirstForbidden(pending: seq<File>, opts: Options): (r: Option<Error>)
    ensures r.None? <==> forall f :: f in pending ==> Allowed(opts, f)
    ensures r.Some? ==> r.value.ContractInBoot? || r.value.ContractNotAllowed?
    decreases |pending|
  {
    if pending == [] then None
    else if !Allowed(opts, pending[0]) then
      assert pending[0] in pending;
      Some(if opts.mode == Boot then ContractInBoot(pending[0].version) else ContractNotAllowed(pending[0].version))
    else FirstForbidden(pending[1..], opts)
  }

  function PlanMigrations(files: seq<File>, rows: seq<Row>, opts: Options): Result<Plan, Error> {
    var pending := Pending(files, rows, opts);
    var changed, gap, forbidden := FirstChanged(files, rows), FirstGap(pending, MaxApplied(rows)), FirstForbidden(pending, opts);
    if changed.Some? then Err(changed.value)
    else if gap.Some? then Err(gap.value)
    else if forbidden.Some? then Err(forbidden.value)
    else Ok(Plan(pending, UnverifiedVersions(files, rows)))
  }

  // ---------------------------------------------------------------- one run

  function RowFor(f: File): Row { Row(f.version, Some(f.checksum), Some(f.name), Some(f.kind)) }

  function RowsFor(fs: seq<File>): (r: seq<Row>)
    ensures |r| == |fs| && forall i :: 0 <= i < |fs| ==> r[i] == RowFor(fs[i])
  {
    seq(|fs|, i requires 0 <= i < |fs| => RowFor(fs[i]))
  }

  /** One run as a transaction. `broken` holds the versions whose SQL the database refuses; any of them aborts the whole run. */
  datatype Run = Run(files: seq<File>, opts: Options, broken: set<nat>)

  function FirstBroken(pending: seq<File>, broken: set<nat>): (r: Option<Error>)
    ensures r.None? <==> forall f :: f in pending ==> f.version !in broken
    ensures r.Some? ==> r.value.SqlFailed?
  {
    if pending == [] then None
    else if pending[0].version in broken then Some(SqlFailed(pending[0].version))
    else FirstBroken(pending[1..], broken)
  }

  function Outcome(rows: seq<Row>, run: Run): Result<Plan, Error> {
    var plan := PlanMigrations(run.files, rows, run.opts);
    if plan.Err? then plan
    else
      var failure := FirstBroken(plan.value.pending, run.broken);
      if failure.Some? then Err(failure.value) else plan
  }

  function After(rows: seq<Row>, run: Run): seq<Row> {
    var o := Outcome(rows, run);
    if o.Ok? then rows + RowsFor(o.value.pending) else rows
  }

  function AfterAll(rows: seq<Row>, runs: seq<Run>): seq<Row> {
    if runs == [] then rows else After(AfterAll(rows, runs[..|runs| - 1]), runs[|runs| - 1])
  }

  // ---------------------------------------------------------------- properties

  ghost predicate SortedFiles(files: seq<File>) { forall i, j :: 0 <= i < j < |files| ==> files[i].version < files[j].version }

  ghost predicate DistinctVersions(files: seq<File>) { forall i, j :: 0 <= i < j < |files| ==> files[i].version != files[j].version }

  /** From `from` on the ledger only ever grew upwards, past everything recorded before. */
  ghost predicate Appended(rows: seq<Row>, from: nat) { forall i, j :: 0 <= i < j < |rows| && j >= from ==> rows[i].version < rows[j].version }

  /** The last row of its version, which is the one the planner reads. */
  ghost predicate Counts(rows: seq<Row>, k: int) { 0 <= k < |rows| && forall j :: k < j < |rows| ==> rows[j].version != rows[k].version }

  ghost predicate Recorded(rows: seq<Row>, v: nat) { exists k :: 0 <= k < |rows| && rows[k].version == v }

  /** The file was recorded with a checksum and holds other text now. */
  ghost predicate Edited(rows: seq<Row>, f: File) {
    exists k :: Counts(rows, k) && rows[k].version == f.version && rows[k].checksum != None && rows[k].checksum != Some(f.checksum)
  }

  /** The file is not recorded and not beyond the version the run stops at. */
  ghost predicate Due(rows: seq<Row>, opts: Options, f: File) {
    !Recorded(rows, f.version) && forall n :: opts.through == Some(n) ==> f.version <= n
  }

  /** A later version is recorded already. */
  ghost predicate Late(rows: seq<Row>, f: File) { exists k :: 0 <= k < |rows| && rows[k].version > f.version }

  /** A contract at start-up, or one the run does not name. */
  ghost predicate Forbidden(opts: Options, f: File) { f.kind == Contract && (opts.mode == Boot || f.version !in opts.allowContract) }

  lemma {:induction false} RowOfCounts(rows: seq<Row>, k: int)
    requires Counts(rows, k)
    ensures Applied(rows, rows[k].version) && RowOf(rows, rows[k].version) == rows[k]
  {
    var n := |rows| - 1;
    if k < n {
      var init := rows[..n];
      assert rows[n].version != rows[k].version;
      assert Counts(init, k) by {
        assert forall j :: k < j < |init| ==> init[j] == rows[j];
      }
      RowOfCounts(init, k);
      assert init[k] == rows[k];
    }
  }

  lemma {:induction false} SomeRowCounts(rows: seq<Row>, v: nat) returns (k: int)
    requires Applied(rows, v)
    ensures Counts(rows, k) && rows[k].version == v
  {
    var n := |rows| - 1;
    if rows[n].version == v {
      k := n;
    } else {
      var init := rows[..n];
      var i :| 0 <= i < |rows| && rows[i].version == v;
      assert init[i].version == v;
      k := SomeRowCounts(init, v);
      assert forall j :: k < j < |init| ==> init[j] == rows[j];
    }
  }

  lemma ChangedIsEdited(rows: seq<Row>, f: File)
    ensures Changed(rows, f) <==> Edited(rows, f)
  {
    if Applied(rows, f.version) {
      var k := SomeRowCounts(rows, f.version);
      RowOfCounts(rows, k);
    }
    forall k | Counts(rows, k) && rows[k].version == f.version ensures Applied(rows, f.version) && RowOf(rows, f.version) == rows[k] { RowOfCounts(rows, k); }
  }

  lemma PendingIsDue(rows: seq<Row>, opts: Options, f: File)
    ensures IsPending(rows, opts, f) <==> Due(rows, opts, f)
  {
  }

  lemma AllowedIsNotForbidden(opts: Options, f: File)
    ensures Allowed(opts, f) <==> !Forbidden(opts, f)
  {
  }

  lemma BehindIsLate(rows: seq<Row>, f: File)
    ensures f.version < MaxApplied(rows) <==> Late(rows, f)
  {
    if f.version < MaxApplied(rows) {
      var r :| r in rows && r.version == MaxApplied(rows);
      var k :| 0 <= k < |rows| && rows[k] == r;
    }
    forall k | 0 <= k < |rows| ensures rows[k].version <= MaxApplied(rows) { assert rows[k] in rows; }
  }

  /** Acceptance in the planner's own vocabulary. */
  lemma PlanAccepted(files: seq<File>, rows: seq<Row>, opts: Options)
    ensures PlanMigrations(files, rows, opts).Ok? <==>
            && (forall f :: f in files ==> !Changed(rows, f))
            && (forall f :: f in files && IsPending(rows, opts, f) ==> f.version >= MaxApplied(rows) && Allowed(opts, f))
  {
  }

  lemma PlannersWords(rows: seq<Row>, opts: Options, f: File)
    ensures Changed(rows, f) <==> Edited(rows, f)
    ensures IsPending(rows, opts, f) <==> Due(rows, opts, f)
    ensures f.version >= MaxApplied(rows) && Allowed(opts, f) <==> !Late(rows, f) && !Forbidden(opts, f)
  {
    ChangedIsEdited(rows, f);
    PendingIsDue(rows, opts, f);
    BehindIsLate(rows, f);
    AllowedIsNotForbidden(opts, f);
  }

  /** A plan is accepted exactly when no recorded file was edited and every due file is newer than the ledger and not forbidden. */
  lemma PlanAcceptedExactly(files: seq<File>, rows: seq<Row>, opts: Options)
    ensures PlanMigrations(files, rows, opts).Ok? <==>
            && (forall f :: f in files ==> !Edited(rows, f))
            && (forall f :: f in files && Due(rows, opts, f) ==> !Late(rows, f) && !Forbidden(opts, f))
  {
    PlanAccepted(files, rows, opts);
    forall f: File
      ensures Changed(rows, f) <==> Edited(rows, f)
      ensures IsPending(rows, opts, f) ==> (f.version >= MaxApplied(rows) && Allowed(opts, f) <==> !Late(rows, f) && !Forbidden(opts, f))
      ensures IsPending(rows, opts, f) <==> Due(rows, opts, f)
    {
      PlannersWords(rows, opts, f);
    }
  }

  lemma FirstChangedNames(files: seq<File>, rows: seq<Row>)
    requires FirstChanged(files, rows).Some?
    ensures exists f :: f in files && Changed(rows, f) && FirstChanged(files, rows) == Some(ChangedAfterApply(f.name))
    decreases |files|
  {
    if Changed(rows, files[0]) {
      assert files[0] in files;
    } else {
      FirstChangedNames(files[1..], rows);
      var f :| f in files[1..] && Changed(rows, f) && FirstChanged(files[1..], rows) == Some(ChangedAfterApply(f.name));
      assert f in files;
    }
  }

  lemma FirstGapNames(pending: seq<File>, maxApplied: nat)
    requires FirstGap(pending, maxApplied).Some?
    ensures exists f :: f in pending && f.version < maxApplied && FirstGap(pending, maxApplied) == Some(Gap(f.version))
    decreases |pending|
  {
    if pending[0].version < maxApplied {
      assert pending[0] in pending;
    } else {
      FirstGapNames(pending[1..], maxApplied);
      var f :| f in pending[1..] && f.version < maxApplied && FirstGap(pending[1..], maxApplied) == Some(Gap(f.version));
      assert f in pending;
    }
  }

  lemma FirstForbiddenNames(pending: seq<File>, opts: Options)
    requires FirstForbidden(pending, opts).Some?
    ensures exists f :: f in pending && Forbidden(opts, f)
              && FirstForbidden(pending, opts) == Some(if opts.mode == Boot then ContractInBoot(f.version) else ContractNotAllowed(f.version))
    decreases |pending|
  {
    AllowedIsNotForbidden(opts, pending[0]);
    if Forbidden(opts, pending[0]) {
      assert pending[0] in pending;
    } else {
      FirstForbiddenNames(pending[1..], opts);
      var f :| f in pending[1..] && Forbidden(opts, f)
               && FirstForbidden(pending[1..], opts) == Some(if opts.mode == Boot then ContractInBoot(f.version) else ContractNotAllowed(f.version));
      assert f in pending;
    }
  }

  /** The reason of a refusal, by rank: an edited file, then a gap, then a forbidden contract; each names a file it is true of. */
  lemma RefusalNamesItsFile(files: seq<File>, rows: seq<Row>, opts: Options)
    requires PlanMigrations(files, rows, opts).Err?
    ensures match PlanMigrations(files, rows, opts).error
            case ChangedAfterApply(name) => exists f :: f in files && f.name == name && Edited(rows, f)
            case Gap(v) => (forall f :: f in files ==> !Edited(rows, f)) && exists f :: f in files && f.version == v && Due(rows, opts, f) && Late(rows, f)
            case ContractInBoot(v) => opts.mode == Boot && exists f :: f in files && f.version == v && f.kind == Contract && Due(rows, opts, f)
            case ContractNotAllowed(v) =>
              opts.mode == Explicit && v !in opts.allowContract && exists f :: f in files && f.version == v && f.kind == Contract && Due(rows, opts, f)
            case SqlFailed(_) => false
  {
    var pending := Pending(files, rows, opts);
    forall f: File ensures Changed(rows, f) <==> Edited(rows, f) { ChangedIsEdited(rows, f); }
    if FirstChanged(files, rows).Some? {
      FirstChangedNames(files, rows);
    } else if FirstGap(pending, MaxApplied(rows)).Some? {
      FirstGapNames(pending, MaxApplied(rows));
      var f :| f in pending && f.version < MaxApplied(rows) && FirstGap(pending, MaxApplied(rows)) == Some(Gap(f.version));
      BehindIsLate(rows, f);
    } else {
      FirstForbiddenNames(pending, opts);
    }
  }

  /** What was recorded by a tool that keeps no checksum is reported, and nothing else. */
  lemma {:induction false} UnverifiedExactly(files: seq<File>, rows: seq<Row>, v: nat)
    ensures v in UnverifiedVersions(files, rows) <==>
            exists f, k :: f in files && f.version == v && Counts(rows, k) && rows[k].version == v && rows[k].checksum == None
  {
    if files != [] {
      var init, last := files[..|files| - 1], files[|files| - 1];
      UnverifiedExactly(init, rows, v);
      UnverifiedIs(rows, last);
      assert forall f :: f in files <==> f in init || f == last;
    }
  }

  lemma UnverifiedIs(rows: seq<Row>, f: File)
    ensures Unverified(rows, f) <==> exists k :: Counts(rows, k) && rows[k].version == f.version && rows[k].checksum == None
  {
    if Applied(rows, f.version) {
      var k := SomeRowCounts(rows, f.version);
      RowOfCounts(rows, k);
    }
    forall k | Counts(rows, k) && rows[k].version == f.version ensures Applied(rows, f.version) && RowOf(rows, f.version) == rows[k] { RowOfCounts(rows, k); }
  }

  lemma FirstBrokenNames(pending: seq<File>, broken: set<nat>)
    requires FirstBroken(pending, broken).Some?
    ensures exists f :: f in pending && f.version in broken && FirstBroken(pending, broken) == Some(SqlFailed(f.version))
    decreases |pending|
  {
    if pending[0].version in broken {
      assert pending[0] in pending;
    } else {
      FirstBrokenNames(pending[1..], broken);
      var f :| f in pending[1..] && f.version in broken && FirstBroken(pending[1..], broken) == Some(SqlFailed(f.version));
      assert f in pending;
    }
  }

  /** A run goes through exactly when its plan is accepted and the database takes every due file; otherwise the ledger stays as it was. */
  lemma RunExactly(rows: seq<Row>, run: Run)
    ensures Outcome(rows, run).Ok? <==>
            && (forall f :: f in run.files ==> !Edited(rows, f))
            && (forall f :: f in run.files && Due(rows, run.opts, f) ==> !Late(rows, f) && !Forbidden(run.opts, f) && f.version !in run.broken)
    ensures Outcome(rows, run).Err? ==> After(rows, run) == rows
    ensures Outcome(rows, run).Err? && Outcome(rows, run).error.SqlFailed? ==>
              exists f :: f in run.files && Due(rows, run.opts, f) && f.version in run.broken && Outcome(rows, run).error == SqlFailed(f.version)
  {
    PlanAcceptedExactly(run.files, rows, run.opts);
    var plan := PlanMigrations(run.files, rows, run.opts);
    if plan.Ok? && FirstBroken(plan.value.pending, run.broken).Some? {
      FirstBrokenNames(plan.value.pending, run.broken);
    }
    if plan.Err? {
      RefusalNamesItsFile(run.files, rows, run.opts);
    }
  }

  lemma {:induction false} PendingKeepsOrder(files: seq<File>, rows: seq<Row>, opts: Options, i: nat, j: nat) returns (a: nat, b: nat)
    requires i < j < |Pending(files, rows, opts)|
    ensures a < b < |files| && files[a] == Pending(files, rows, opts)[i] && files[b] == Pending(files, rows, opts)[j]
  {
    var n := |files| - 1;
    var rest := Pending(files[..n], rows, opts);
    if j < |rest| {
      a, b := PendingKeepsOrder(files[..n], rows, opts, i, j);
    } else {
      b := n;
      assert rest[i] in rest;
      a :| 0 <= a < n && files[..n][a] == rest[i];
    }
  }

  lemma AddedRow(rows: seq<Row>, run: Run, k: nat) returns (f: File)
    requires Outcome(rows, run).Ok? && |rows| <= k < |After(rows, run)|
    ensures f in run.files && Due(rows, run.opts, f) && f == Pending(run.files, rows, run.opts)[k - |rows|]
    ensures After(rows, run)[k] == Row(f.version, Some(f.checksum), Some(f.name), Some(f.kind))
  {
    f := Pending(run.files, rows, run.opts)[k - |rows|];
    PendingIsDue(rows, run.opts, f);
  }

  lemma NothingDueLeftOut(rows: seq<Row>, run: Run, f: File)
    requires Outcome(rows, run).Ok? && f in run.files && Due(rows, run.opts, f)
    ensures Recorded(After(rows, run), f.version)
  {
    var p := Pending(run.files, rows, run.opts);
    PendingIsDue(rows, run.opts, f);
    var k :| 0 <= k < |p| && p[k] == f;
    assert After(rows, run)[|rows| + k].version == f.version;
  }

  lemma RecordedStays(rows: seq<Row>, more: seq<Row>, v: nat)
    requires rows <= more && Recorded(rows, v)
    ensures Recorded(more, v)
  {
    var k :| 0 <= k < |rows| && rows[k].version == v;
    assert more[k].version == v;
  }

  /**
   * What a run that goes through does: it keeps the ledger, adds rows of due files only, each with its file's version, checksum, name and
   * class, and leaves no due file out. So nothing beyond the version it stops at is added, and everything up to there is recorded.
   */
  lemma RunAddsExactly(rows: seq<Row>, run: Run)
    requires Outcome(rows, run).Ok?
    ensures rows <= After(rows, run)
    ensures forall k :: |rows| <= k < |After(rows, run)| ==>
              exists f :: f in run.files && Due(rows, run.opts, f) && After(rows, run)[k] == Row(f.version, Some(f.checksum), Some(f.name), Some(f.kind))
    ensures forall k, n :: |rows| <= k < |After(rows, run)| && run.opts.through == Some(n) ==> After(rows, run)[k].version <= n
    ensures forall f :: f in run.files && (forall n :: run.opts.through == Some(n) ==> f.version <= n) ==> Recorded(After(rows, run), f.version)
  {
    var after := After(rows, run);
    forall k | |rows| <= k < |after|
      ensures exists f :: f in run.files && Due(rows, run.opts, f) && after[k] == Row(f.version, Some(f.checksum), Some(f.name), Some(f.kind))
    {
      var f := AddedRow(rows, run, k);
    }
    forall f | f in run.files && (forall n :: run.opts.through == Some(n) ==> f.version <= n) ensures Recorded(after, f.version) {
      if Recorded(rows, f.version) {
        RecordedStays(rows, after, f.version);
      } else {
        NothingDueLeftOut(rows, run, f);
      }
    }
  }

  /** Rows are added in the order of the files they come from. */
  lemma RunAddsInOrder(rows: seq<Row>, run: Run, i: nat, j: nat) returns (a: nat, b: nat)
    requires Outcome(rows, run).Ok? && |rows| <= i < j < |After(rows, run)|
    ensures a < b < |run.files|
    ensures After(rows, run)[i].version == run.files[a].version && After(rows, run)[j].version == run.files[b].version
  {
    var f := AddedRow(rows, run, i);
    var g := AddedRow(rows, run, j);
    a, b := PendingKeepsOrder(run.files, rows, run.opts, i - |rows|, j - |rows|);
  }

  lemma {:induction false} PendingSorted(files: seq<File>, rows: seq<Row>, opts: Options)
    requires SortedFiles(files)
    ensures SortedFiles(Pending(files, rows, opts))
  {
    if files != [] {
      var init := files[..|files| - 1];
      PendingSorted(init, rows, opts);
      forall f | f in Pending(init, rows, opts) ensures f.version < files[|files| - 1].version {
        assert f in init;
      }
    }
  }

  lemma PendingAbove(files: seq<File>, rows: seq<Row>, opts: Options)
    requires PlanMigrations(files, rows, opts).Ok?
    ensures forall f, r :: f in Pending(files, rows, opts) && r in rows ==> r.version < f.version
  {
    PlanAccepted(files, rows, opts);
    forall f, r | f in Pending(files, rows, opts) && r in rows ensures r.version < f.version {
      assert r.version <= MaxApplied(rows) <= f.version;
      assert r.version != f.version;
    }
  }

  /** What the run applies, if it applies anything, is in the order of versions. */
  ghost predicate AppliesInOrder(rows: seq<Row>, run: Run) {
    Outcome(rows, run).Ok? ==> SortedFiles(Pending(run.files, rows, run.opts))
  }

  /** Everything a successful run adds exceeds everything recorded before it. */
  lemma AddedAbove(rows: seq<Row>, run: Run, i: nat, j: nat)
    requires Outcome(rows, run).Ok? && i < |rows| <= j < |After(rows, run)|
    ensures After(rows, run)[i].version < After(rows, run)[j].version
  {
    var p := Pending(run.files, rows, run.opts);
    PendingAbove(run.files, rows, run.opts);
    assert p[j - |rows|] in p && rows[i] in rows;
  }

  /** Whatever the ledger held, a run keeps it increasing exactly when it applies its files in the order of versions. */
  lemma RunIncreasesExactly(rows: seq<Row>, run: Run, from: nat)
    requires from <= |rows|
    ensures rows <= After(rows, run)
    ensures Appended(After(rows, run), from) <==> Appended(rows, from) && AppliesInOrder(rows, run)
  {
    var after, o := After(rows, run), Outcome(rows, run);
    if o.Ok? {
      var p := o.value.pending;
      if Appended(after, from) {
        forall i, j | 0 <= i < j < |rows| && j >= from ensures rows[i].version < rows[j].version {
          assert after[i] == rows[i] && after[j] == rows[j];
        }
        forall i, j | 0 <= i < j < |p| ensures p[i].version < p[j].version {
          assert after[|rows| + i] == RowFor(p[i]) && after[|rows| + j] == RowFor(p[j]);
        }
      }
      if Appended(rows, from) && SortedFiles(p) {
        forall i, j | 0 <= i < j < |after| && j >= from ensures after[i].version < after[j].version {
          if i < |rows| <= j {
            AddedAbove(rows, run, i, j);
          } else if |rows| <= i {
            assert after[i] == RowFor(p[i - |rows|]) && after[j] == RowFor(p[j - |rows|]);
          }
        }
      }
    }
  }

  lemma {:induction false} LedgerGrows(rows: seq<Row>, runs: seq<Run>, i: nat)
    requires i <= |runs|
    ensures rows <= AfterAll(rows, runs[..i]) <= AfterAll(rows, runs)
    decreases |runs|
  {
    if i < |runs| {
      var init := runs[..|runs| - 1];
      LedgerGrows(rows, init, i);
      assert init[..i] == runs[..i];
    } else if runs != [] {
      LedgerGrows(rows, runs[..|runs| - 1], |runs| - 1);
      assert runs[..|runs|] == runs && runs[..|runs| - 1][..|runs| - 1] == runs[..|runs| - 1];
    } else {
      assert runs[..i] == runs;
    }
  }

  ghost predicate InOrderAt(rows: seq<Row>, runs: seq<Run>, i: nat)
    requires i < |runs|
  {
    AppliesInOrder(AfterAll(rows, runs[..i]), runs[i])
  }

  ghost predicate AllInOrder(rows: seq<Row>, runs: seq<Run>) { forall i :: 0 <= i < |runs| ==> InOrderAt(rows, runs, i) }

  lemma InOrderAtPrefix(rows: seq<Row>, runs: seq<Run>, i: nat)
    requires i < |runs| - 1
    ensures InOrderAt(rows, runs[..|runs| - 1], i) <==> InOrderAt(rows, runs, i)
  {
    assert runs[..|runs| - 1][..i] == runs[..i];
  }

  lemma AllInOrderSnoc(rows: seq<Row>, runs: seq<Run>)
    requires runs != []
    ensures AllInOrder(rows, runs) <==> AllInOrder(rows, runs[..|runs| - 1]) && InOrderAt(rows, runs, |runs| - 1)
  {
    var init := runs[..|runs| - 1];
    if AllInOrder(rows, runs) {
      forall i | 0 <= i < |init| ensures InOrderAt(rows, init, i) { InOrderAtPrefix(rows, runs, i); }
    }
    if AllInOrder(rows, init) && InOrderAt(rows, runs, |runs| - 1) {
      forall i | 0 <= i < |runs| ensures InOrderAt(rows, runs, i) {
        if i < |runs| - 1 {
          InOrderAtPrefix(rows, runs, i);
        }
      }
    }
  }

  /** Over any sequence of runs the ledger only grows, and it grows strictly upwards exactly when every run applies its files in the order of versions. */
  lemma {:induction false} RunsIncreaseExactly(rows: seq<Row>, runs: seq<Run>)
    ensures rows <= AfterAll(rows, runs)
    ensures Appended(AfterAll(rows, runs), |rows|) <==> AllInOrder(rows, runs)
  {
    if runs != [] {
      var init := runs[..|runs| - 1];
      RunsIncreaseExactly(rows, init);
      RunIncreasesExactly(AfterAll(rows, init), runs[|runs| - 1], |rows|);
      AllInOrderSnoc(rows, runs);
    }
  }

  // ---------------------------------------------------------------- what the reader hands over

  const LEGACY_LAST_VERSION := 25

  /** The digits a name starts with. */
  function Prefix(name: string): (p: string)
    ensures |p| <= |name| && p == name[..|p|] && (|p| < |name| ==> !IsDigit(name[|p|]))
    ensures forall c :: c in p ==> IsDigit(c)
  {
    if name == "" || !IsDigit(name[0]) then "" else [name[0]] + Prefix(name[1..])
  }

  function Number(digits: string): nat
    requires forall c :: c in digits ==> IsDigit(c)
  {
    if digits == "" then 0
    else
      var last := digits[|digits| - 1];
      assert IsDigit(last);
      10 * Number(digits[..|digits| - 1]) + (last - '0') as nat
  }

  /** A name the reader takes: digits, an underscore, and the ending of an SQL file; the digits are the version. */
  predicate NamedAfterVersion(f: File) {
    var p := Prefix(f.name);
    p != "" && |f.name| >= |p| + 5 && f.name[|p|] == '_' && f.name[|f.name| - 4..] == ".sql" && f.version == Number(p)
  }

  /** A name made of digits, an underscore, anything and ".sql". */
  predicate Spelled(name: string, digits: string, middle: string) {
    digits != "" && (forall c :: c in digits ==> IsDigit(c)) && name == digits + ("_" + middle + ".sql")
  }

  lemma NamedIsSpelled(f: File)
    requires NamedAfterVersion(f)
    ensures var n := |Prefix(f.name)|; n + 1 <= |f.name| - 4 && Spelled(f.name, f.name[..n], f.name[n + 1..|f.name| - 4])
  {
    var n := |Prefix(f.name)|;
    assert f.name[n..n + 1] == "_";
    assert f.name[n..] == "_" + f.name[n + 1..|f.name| - 4] + ".sql";
  }

  lemma SpelledIsNamed(f: File, digits: string, middle: string)
    requires Spelled(f.name, digits, middle) && f.version == Number(digits)
    ensures NamedAfterVersion(f)
  {
    var rest := "_" + middle + ".sql";
    PrefixOf(digits, rest);
    assert rest[|rest| - 4..] == ".sql";
    assert f.name[|f.name| - 4..] == rest[|rest| - 4..];
    assert f.name[|digits|] == rest[0];
  }

  /** The names the reader takes, and the version each gives its file. */
  lemma NamedExactly(f: File)
    ensures NamedAfterVersion(f) <==> exists digits, middle :: Spelled(f.name, digits, middle) && f.version == Number(digits)
  {
    if NamedAfterVersion(f) {
      NamedIsSpelled(f);
    }
    if digits, middle :| Spelled(f.name, digits, middle) && f.version == Number(digits) {
      SpelledIsNamed(f, digits, middle);
    }
  }

  /** What reading a directory can give: sorted by NAME, no version twice, legacy exactly up to the last legacy version. */
  ghost predicate Readable(files: seq<File>) {
    && (forall i, j :: 0 <= i < j < |files| ==> StringLess(files[i].name, files[j].name) && files[i].version != files[j].version)
    && (forall f :: f in files ==> NamedAfterVersion(f) && (f.kind == Legacy <==> f.version <= LEGACY_LAST_VERSION))
  }

  /** Digits of one width are ordered as numbers. */
  lemma {:induction false} WidthOrder(a: string, b: string)
    requires |a| == |b| && forall c :: c in a + b ==> IsDigit(c)
    ensures StringLess(a, b) ==> Number(a) < Number(b)
  {
    if a != "" {
      var n := |a| - 1;
      assert a == a[..n] + [a[n]] && b == b[..n] + [b[n]];
      LessAppend(a[..n], b[..n], [a[n]], [b[n]]);
      WidthOrder(a[..n], b[..n]);
      assert a[n] in a + b && b[n] in a + b;
    }
  }

  /** Versions written with one number of digits put the name order right. */
  lemma EqualWidthSorts(files: seq<File>)
    requires Readable(files) && forall i, j :: 0 <= i < j < |files| ==> |Prefix(files[i].name)| == |Prefix(files[j].name)|
    ensures SortedFiles(files)
  {
    forall i, j | 0 <= i < j < |files| ensures files[i].version < files[j].version {
      var f, g := files[i], files[j];
      var a, b := Prefix(f.name), Prefix(g.name);
      assert f in files && g in files;
      assert f.name == a + f.name[|a|..] && g.name == b + g.name[|b|..];
      LessAppend(a, b, f.name[|a|..], g.name[|b|..]);
      WidthOrder(a, b);
    }
  }

  /** So over any sequence of runs of such directories each added version exceeds every earlier one. */
  lemma RunsAppend(rows: seq<Row>, runs: seq<Run>)
    requires forall i :: 0 <= i < |runs| ==> Readable(runs[i].files)
    requires forall r, i, j :: 0 <= r < |runs| && 0 <= i < j < |runs[r].files| ==> |Prefix(runs[r].files[i].name)| == |Prefix(runs[r].files[j].name)|
    ensures rows <= AfterAll(rows, runs) && Appended(AfterAll(rows, runs), |rows|)
  {
    RunsIncreaseExactly(rows, runs);
    forall i | 0 <= i < |runs| ensures InOrderAt(rows, runs, i) {
      EqualWidthSorts(runs[i].files);
      PendingSorted(runs[i].files, AfterAll(rows, runs[..i]), runs[i].opts);
    }
  }

  lemma FreshPlan(first: File, second: File, opts: Options)
    requires opts.through.None? && first.kind == Additive && second.kind == Additive
    ensures PlanMigrations([first, second], [], opts).Ok? && Pending([first, second], [], opts) == [first, second]
  {
    var files := [first, second];
    assert files[..1] == [first] && [first][..0] == [];
    assert Pending([first], [], opts) == [first];
    PlanAcceptedExactly(files, [], opts);
  }

  lemma {:induction false} PrefixOf(digits: string, rest: string)
    requires (forall c :: c in digits ==> IsDigit(c)) && rest != "" && !IsDigit(rest[0])
    ensures Prefix(digits + rest) == digits
  {
    if digits == "" {
      assert digits + rest == rest;
    } else {
      assert (digits + rest)[1..] == digits[1..] + rest;
      PrefixOf(digits[1..], rest);
    }
  }

  const HUNDRED := File(100, "100" + "_a.sql", Additive, "x")
  const NINETY_NINE := File(99, "99" + "_b.sql", Additive, "y")

  lemma HundredIsNamed()
    ensures NamedAfterVersion(HUNDRED)
  {
    PrefixOf("100", "_a.sql");
    assert "100"[..2] == "10" && "10"[..1] == "1" && "1"[..0] == "";
    assert Number("1") == 1 && Number("10") == 10;
  }

  lemma NinetyNineIsNamed()
    ensures NamedAfterVersion(NINETY_NINE)
  {
    PrefixOf("99", "_b.sql");
    assert "99"[..1] == "9" && "9"[..0] == "";
    assert Number("9") == 9;
  }

  lemma HundredIsReadBefore()
    ensures Readable([HUNDRED, NINETY_NINE])
  {
    HundredIsNamed();
    NinetyNineIsNamed();
    assert StringLess(HUNDRED.name, NINETY_NINE.name);
  }

  /** With versions of different widths a directory the reader accepts can be applied out of order: 100 sorts before 99. */
  lemma NameOrderIsNotVersionOrder() returns (run: Run)
    ensures Readable(run.files) && Outcome([], run).Ok? && !AppliesInOrder([], run)
    ensures !Appended(After([], run), 0)
  {
    run := Run([HUNDRED, NINETY_NINE], Options(Explicit, {}, None), {});
    HundredIsReadBefore();
    FreshPlan(HUNDRED, NINETY_NINE, run.opts);
    assert run.files[0].version > run.files[1].version;
    RunIncreasesExactly([], run, 0);
  }

  // ---------------------------------------------------------------- who added a row

  /** Whatever a run added was decided by that run: the file's own checksum and class, and a contract only when named and never at start-up. */
  ghost predicate Justified(run: Run, row: Row) {
    exists f :: f in run.files && row == Row(f.version, Some(f.checksum), Some(f.name), Some(f.kind)) && !Forbidden(run.opts, f)
  }

  /** The run that added row `k`. */
  ghost predicate AddedBy(rows: seq<Row>, runs: seq<Run>, i: nat, k: nat) {
    i < |runs| && |AfterAll(rows, runs[..i])| <= k < |AfterAll(rows, runs[..i + 1])|
  }

  lemma RowOfRunJustified(rows: seq<Row>, run: Run, k: nat)
    requires |rows| <= k < |After(rows, run)|
    ensures Justified(run, After(rows, run)[k])
  {
    var p := Outcome(rows, run).value.pending;
    var f := p[k - |rows|];
    PlanAccepted(run.files, rows, run.opts);
    assert f in p;
    assert After(rows, run)[k] == RowFor(f);
  }

  lemma AddedByPrefix(rows: seq<Row>, runs: seq<Run>, n: nat, i: nat, k: nat)
    requires n < |runs| && AddedBy(rows, runs[..n], i, k)
    ensures AddedBy(rows, runs, i, k)
  {
    assert runs[..n][..i] == runs[..i] && runs[..n][..i + 1] == runs[..i + 1];
  }

  /** Some run added each row beyond the first ledger. */
  lemma {:induction false} SomeRunAdded(rows: seq<Row>, runs: seq<Run>, k: nat) returns (i: nat)
    requires |rows| <= k < |AfterAll(rows, runs)|
    ensures AddedBy(rows, runs, i, k)
    decreases |runs|
  {
    var n := |runs| - 1;
    if k < |AfterAll(rows, runs[..n])| {
      i := SomeRunAdded(rows, runs[..n], k);
      AddedByPrefix(rows, runs, n, i, k);
    } else {
      i := n;
      assert runs[..n + 1] == runs;
    }
  }

  /** Whichever run added a row, that run justifies it: a contract was named in that very run, which was not a start-up. */
  lemma EveryRowJustified(rows: seq<Row>, runs: seq<Run>, i: nat, k: nat)
    requires AddedBy(rows, runs, i, k)
    ensures k < |AfterAll(rows, runs)| && Justified(runs[i], AfterAll(rows, runs)[k])
    ensures AfterAll(rows, runs)[k].kind == Some(Contract) ==> runs[i].opts.mode != Boot && AfterAll(rows, runs)[k].version in runs[i].opts.allowContract
  {
    var before := runs[..i + 1];
    assert before[..i] == runs[..i] && before[|before| - 1] == runs[i];
    assert AfterAll(rows, before) == After(AfterAll(rows, runs[..i]), runs[i]);
    RowOfRunJustified(AfterAll(rows, runs[..i]), runs[i], k);
    LedgerGrows(rows, runs, i + 1);
    assert AfterAll(rows, runs)[k] == AfterAll(rows, before)[k];
  }

  lemma {:induction false} AppliedAppend(rows: seq<Row>, more: seq<Row>, v: nat)
    ensures Applied(rows + more, v) <==> Applied(rows, v) || Applied(more, v)
    ensures Applied(rows, v) && !Applied(more, v) ==> RowOf(rows + more, v) == RowOf(rows, v)
  {
    assert forall i :: 0 <= i < |rows| ==> (rows + more)[i] == rows[i];
    assert forall i :: 0 <= i < |more| ==> (rows + more)[|rows| + i] == more[i];
    if more == [] {
      assert rows + more == rows;
    } else if Applied(rows, v) && !Applied(more, v) {
      assert (rows + more)[..|rows + more| - 1] == rows + more[..|more| - 1];
      AppliedAppend(rows, more[..|more| - 1], v);
    }
  }

  lemma ChangedStays(rows: seq<Row>, more: seq<Row>, f: File)
    requires Changed(rows, f) && forall j :: 0 <= j < |more| ==> more[j].version != f.version
    ensures Changed(rows + more, f)
  {
    AppliedAppend(rows, more, f.version);
  }

  lemma ChangedIsRefused(rows: seq<Row>, run: Run, f: File)
    requires Changed(rows, f) && f in run.files
    ensures Outcome(rows, run).Err? && Outcome(rows, run).error.ChangedAfterApply? && After(rows, run) == rows
  {
    assert FirstChanged(run.files, rows).Some?;
  }

  /** A run adds nothing for a version already recorded. */
  lemma RunAddsNew(rows: seq<Row>, run: Run, f: File)
    requires Changed(rows, f)
    ensures Changed(After(rows, run), f)
  {
    if Outcome(rows, run).Ok? {
      var p := Outcome(rows, run).value.pending;
      forall j | 0 <= j < |p| ensures RowsFor(p)[j].version != f.version {
        assert p[j] in p && IsPending(rows, run.opts, p[j]);
      }
      ChangedStays(rows, RowsFor(p), f);
    }
  }

  lemma {:induction false} RunsKeepChanged(rows: seq<Row>, runs: seq<Run>, f: File)
    requires Changed(rows, f)
    ensures Changed(AfterAll(rows, runs), f)
  {
    if runs != [] {
      RunsKeepChanged(rows, runs[..|runs| - 1], f);
      RunAddsNew(AfterAll(rows, runs[..|runs| - 1]), runs[|runs| - 1], f);
    }
  }

  /** A row that holds a checksum keeps it through every later run, so an edited file is refused from then on and changes nothing. */
  lemma EditedFileRefused(rows: seq<Row>, runs: seq<Run>, last: Run, f: File)
    requires Edited(rows, f) && f in last.files
    ensures Outcome(AfterAll(rows, runs), last).Err? && Outcome(AfterAll(rows, runs), last).error.ChangedAfterApply?
    ensures After(AfterAll(rows, runs), last) == AfterAll(rows, runs)
  {
    ChangedIsEdited(rows, f);
    RunsKeepChanged(rows, runs, f);
    ChangedIsRefused(AfterAll(rows, runs), last, f);
  }

  /** Right after a successful run the same files have nothing left to do, whatever is allowed. */
  lemma ImmediateRerunIsEmpty(rows: seq<Row>, run: Run, opts: Options)
    requires Outcome(rows, run).Ok? && DistinctVersions(run.files) && opts.through == run.opts.through
    ensures PlanMigrations(run.files, After(rows, run), opts).Ok?
    ensures PlanMigrations(run.files, After(rows, run), opts).value.pending == []
  {
    forall f | f in run.files ensures !IsPending(After(rows, run), opts, f) && !Changed(After(rows, run), f) {
      RerunFile(rows, run, f);
    }
    NothingLeft(run.files, After(rows, run), opts);
  }

  lemma NothingLeft(files: seq<File>, rows: seq<Row>, opts: Options)
    requires forall f :: f in files ==> !IsPending(rows, opts, f) && !Changed(rows, f)
    ensures PlanMigrations(files, rows, opts).Ok? && PlanMigrations(files, rows, opts).value.pending == []
  {
    PlanAccepted(files, rows, opts);
    assert forall f :: f !in Pending(files, rows, opts);
  }

  lemma SameFile(files: seq<File>, f: File, g: File)
    requires DistinctVersions(files) && f in files && g in files && f.version == g.version
    ensures f == g
  {
    var i :| 0 <= i < |files| && files[i] == f;
    var j :| 0 <= j < |files| && files[j] == g;
    assert i == j;
  }

  /** The row of a version that only the added rows hold comes from the file of that version. */
  lemma AddedRowOf(rows: seq<Row>, files: seq<File>, p: seq<File>, f: File)
    requires DistinctVersions(files) && f in files && f in p && (forall g :: g in p ==> g in files) && !Applied(rows, f.version)
    ensures Applied(rows + RowsFor(p), f.version) && RowOf(rows + RowsFor(p), f.version) == RowFor(f)
  {
    var more := RowsFor(p);
    var i :| 0 <= i < |p| && p[i] == f;
    assert (rows + more)[|rows| + i].version == f.version;
    var row := RowOf(rows + more, f.version);
    var k :| 0 <= k < |rows + more| && (rows + more)[k] == row;
    assert k >= |rows|;
    assert p[k - |rows|] in p && row == RowFor(p[k - |rows|]);
    SameFile(files, f, p[k - |rows|]);
  }

  lemma RerunFile(rows: seq<Row>, run: Run, f: File)
    requires Outcome(rows, run).Ok? && DistinctVersions(run.files) && f in run.files
    ensures !IsPending(After(rows, run), run.opts, f) && !Changed(After(rows, run), f)
  {
    var p := Outcome(rows, run).value.pending;
    PlanAccepted(run.files, rows, run.opts);
    if IsPending(rows, run.opts, f) {
      AddedRowOf(rows, run.files, p, f);
    } else {
      forall j | 0 <= j < |p| ensures RowsFor(p)[j].version != f.version || !Applied(rows, f.version) {
        assert p[j] in p && IsPending(rows, run.opts, p[j]);
      }
      OtherRowsStay(rows, RowsFor(p), f);
    }
  }

  lemma OtherRowsStay(rows: seq<Row>, more: seq<Row>, f: File)
    requires Applied(rows, f.version) ==> forall j :: 0 <= j < |more| ==> more[j].version != f.version
    ensures Applied(rows, f.version) ==> Applied(rows + more, f.version) && RowOf(rows + more, f.version) == RowOf(rows, f.version)
    ensures !Applied(rows, f.version) && !Applied(more, f.version) ==> !Applied(rows + more, f.version)
  {
    AppliedAppend(rows, more, f.version);
  }

  // ---------------------------------------------------------------- the planner and the runner as the source writes them

  method DecidePlan(files: seq<File>, rows: seq<Row>, opts: Options) returns (r: Result<Plan, Error>)
    ensures r == PlanMigrations(files, rows, opts)
  {
    var unverified: seq<nat> := [];
    for i := 0 to |files|
      invariant unverified == UnverifiedVersions(files[..i], rows)
      invariant FirstChanged(files, rows) == FirstChanged(files[i..], rows)
    {
      var f := files[i];
      assert files[i..][0] == f && files[i..][1..] == files[i + 1..];
      if Changed(rows, f) {
        return Err(ChangedAfterApply(f.name));
      }
      assert files[..i + 1][..i] == files[..i];
      if Unverified(rows, f) {
        unverified := unverified + [f.version];
      }
    }
    assert files[..|files|] == files;
    var pending := Pending(files, rows, opts);
    var gap := FirstGap(pending, MaxApplied(rows));
    if gap.Some? {
      return Err(gap.value);
    }
    var forbidden := FirstForbidden(pending, opts);
    if forbidden.Some? {
      return Err(forbidden.value);
    }
    r := Ok(Plan(pending, unverified));
  }

  method Find(files: seq<File>, p: File) returns (f: File)
    requires DistinctVersions(files) && p in files
    ensures f == p
  {
    var i := 0;
    while files[i].version != p.version
      invariant 0 <= i < |files|
      invariant p in files[i..]
      decreases |files| - i
    {
      i := i + 1;
    }
    f := files[i];
  }

  lemma RowsForSnoc(pending: seq<File>, i: nat)
    requires i < |pending|
    ensures RowsFor(pending[..i + 1]) == RowsFor(pending[..i]) + [RowFor(pending[i])]
  {
  }

  class Database {
    var rows: seq<Row>

    constructor ()
      ensures rows == []
    {
      rows := [];
    }

    /** Plan, then execute and record; the enclosing transaction puts the ledger back when a file fails. */
    method ApplyMigrations(files: seq<File>, opts: Options, broken: set<nat>) returns (r: Result<Plan, Error>)
      requires DistinctVersions(files)
      modifies this
      ensures r == Outcome(old(rows), Run(files, opts, broken))
      ensures rows == After(old(rows), Run(files, opts, broken))
    {
      r := DecidePlan(files, rows, opts);
      if r.Ok? {
        var before := rows;
        var failure := Execute(files, r.value.pending, broken);
        if failure.Some? {
          rows := before;
          r := Err(failure.value);
        }
      }
    }

    /** Execute and record one file after another, up to the first that fails. */
    method Execute(files: seq<File>, pending: seq<File>, broken: set<nat>) returns (failure: Option<Error>)
      requires DistinctVersions(files) && forall p :: p in pending ==> p in files
      modifies this
      ensures failure == FirstBroken(pending, broken)
      ensures failure.None? ==> rows == old(rows) + RowsFor(pending)
    {
      for i := 0 to |pending|
        invariant rows == old(rows) + RowsFor(pending[..i])
        invariant FirstBroken(pending, broken) == FirstBroken(pending[i..], broken)
      {
        assert pending[i..][0] == pending[i] && pending[i..][1..] == pending[i + 1..];
        var f := Find(files, pending[i]);
        if f.version in broken {
          return Some(SqlFailed(f.version));
        }
        rows := rows + [Row(f.version, Some(f.checksum), Some(f.name), Some(f.kind))];
        RowsForSnoc(pending, i);
      }
      assert pending[..|pending|] == pending;
      return None;
    }
  }
}
