/**
 The server's startup gate over the permanent backends (cmd/telesrv/blob_storage.go) and
 what it makes of the states a migration can leave behind.
 */
module StartupGate {
  import opened BlobStorage
  import opened MigrationSteps
  import T = MigrationTool

  function Labels(rows: map<Location, Row>): set<string> {
    set loc | loc in rows :: rows[loc].backend
  }

  function On(rows: map<Location, Row>, backend: string): set<Location> {
    set loc | loc in rows && rows[loc].backend == backend
  }

  /** FileBlobBackendCounts: rows per backend label. */
  function Counts(rows: map<Location, Row>): map<string, nat> {
    map b | b in Labels(rows) :: |On(rows, b)|
  }

  datatype Mismatch = Mismatch(backend: string, count: nat)

  ghost predicate Passes(rows: map<Location, Row>, configured: string) {
    forall loc | loc in rows :: rows[loc].backend == configured
  }

  /** requireConfiguredBlobBackend: collects every populated label but the configured one. */
  method RequireConfigured(rows: map<Location, Row>, configured: string) returns (mismatches: seq<Mismatch>)
    ensures mismatches == [] <==> Passes(rows, configured)
    ensures forall m | m in mismatches :: m.backend != configured && m.count == |On(rows, m.backend)|
    ensures forall loc | loc in rows && rows[loc].backend != configured :: exists m | m in mismatches :: m.backend == rows[loc].backend
    ensures forall i, j | 0 <= i < j < |mismatches| :: mismatches[i].backend != mismatches[j].backend
  {
    var counts := Counts(rows);
    forall b | b in counts ensures counts[b] > 0 { Populated(rows, b); }
    mismatches := [];
    var left := counts.Keys;
    while left != {}
      invariant left <= counts.Keys
      invariant forall m | m in mismatches :: m.backend in counts && m.backend !in left && m.backend != configured && m.count == counts[m.backend]
      invariant forall b | b in counts && b !in left && b != configured :: Mismatch(b, counts[b]) in mismatches
      invariant forall i, j | 0 <= i < j < |mismatches| :: mismatches[i].backend != mismatches[j].backend
      decreases |left|
    {
      var b :| b in left;
      left := left - {b};
      if counts[b] > 0 && b != configured {
        mismatches := mismatches + [Mismatch(b, counts[b])];
      }
    }
    forall loc | loc in rows && rows[loc].backend != configured
      ensures Mismatch(rows[loc].backend, counts[rows[loc].backend]) in mismatches
    {
      assert rows[loc].backend in counts;
    }
    if mismatches != [] { Populated(rows, mismatches[0].backend); }
  }

  lemma Populated(rows: map<Location, Row>, b: string)
    requires b in Counts(rows)
    ensures Counts(rows)[b] > 0 && exists loc :: loc in rows && rows[loc].backend == b
  {
    var loc :| loc in rows && rows[loc].backend == b;
    assert loc in On(rows, b);
  }

  /** No configuration starts on a table with rows on two backends. */
  lemma MixedNeverStarts(rows: map<Location, Row>, a: Location, b: Location, configured: string)
    requires a in rows && b in rows && rows[a].backend != rows[b].backend
    ensures !Passes(rows, configured)
  {
  }

  /** From a server's own state -- every row on the source and resolving -- any cut-off sequence
      of runs, with host crashes anywhere, that has relabelled some rows but not all passes for no
      configuration; once none is left on the source, the destination passes; and every row that no
      crash hit serves its original bytes. */
  lemma GateOverMigration(scheme: Scheme, d: Durable, steps: seq<Step>, from: string, to: string)
    requires scheme.CollisionFree() && d.Valid() && EmptyClean(scheme, d) && LegalRun(scheme, d, steps)
    requires Passes(d.rows, from) && from != to && (forall loc | loc in d.rows :: Resolves(scheme, d, loc))
    requires Directed(steps, from, to)
    ensures var d' := Exec(scheme, d, steps);
      && (from in Labels(d'.rows) && to in Labels(d'.rows) ==> forall c :: !Passes(d'.rows, c))
      && (from !in Labels(d'.rows) ==> Passes(d'.rows, to))
      && (forall c, loc | Passes(d'.rows, c) && loc in d'.rows && Spared(scheme, d, steps, loc) ::
            && loc in d.rows && d.Holds(from, d.rows[loc].key)
            && d'.Holds(c, d'.rows[loc].key)
            && d'.stores[c][d'.rows[loc].key] == d.stores[from][d.rows[loc].key])
  {
    var d' := Exec(scheme, d, steps);
    VerdictOverMigration(scheme, d, steps, from, to);
    RowsStay(scheme, d, steps);
    forall loc | loc in d'.rows && Spared(scheme, d, steps, loc)
      ensures d.Holds(from, d.rows[loc].key) && d'.Holds(d'.rows[loc].backend, d'.rows[loc].key)
      ensures d'.stores[d'.rows[loc].backend][d'.rows[loc].key] == d.stores[from][d.rows[loc].key]
    {
      OriginalBytesSurvive(scheme, d, steps, loc);
    }
  }

  lemma RowsStay(scheme: Scheme, d: Durable, steps: seq<Step>)
    requires scheme.CollisionFree() && d.Valid() && EmptyClean(scheme, d) && LegalRun(scheme, d, steps)
    ensures Exec(scheme, d, steps).rows.Keys == d.rows.Keys
  {
    MigrationIsSafe(scheme, d, steps);
  }

  lemma VerdictOverMigration(scheme: Scheme, d: Durable, steps: seq<Step>, from: string, to: string)
    requires Passes(d.rows, from) && from != to && Directed(steps, from, to)
    ensures var rows := Exec(scheme, d, steps).rows;
      && (from in Labels(rows) && to in Labels(rows) ==> forall c :: !Passes(rows, c))
      && (from !in Labels(rows) ==> Passes(rows, to))
  {
    OnlyTwoLabels(scheme, d, steps, from, to);
    var rows := Exec(scheme, d, steps).rows;
    assert forall loc | loc in rows :: rows[loc].backend in Labels(rows);
  }

  lemma {:induction false} OnlyTwoLabels(scheme: Scheme, d: Durable, steps: seq<Step>, from: string, to: string)
    requires forall loc | loc in d.rows :: d.rows[loc].backend == from || d.rows[loc].backend == to
    requires Directed(steps, from, to)
    ensures forall loc | loc in Exec(scheme, d, steps).rows ::
      Exec(scheme, d, steps).rows[loc].backend == from || Exec(scheme, d, steps).rows[loc].backend == to
  {
    if steps != [] {
      OnlyTwoLabels(scheme, d, steps[..|steps| - 1], from, to);
      assert steps[|steps| - 1] in steps;
    }
  }

  /** From end to end: a server on the source is migrated and started on the destination.  If the
      command exits normally, the server starts if and only if no row had an empty object key, and
      then every row serves from the destination the bytes it served from the source -- through
      every host crash if and only if that is S3 or the file has been written back. */
  method MigrateThenStart(scheme: Scheme, db: T.Database, source: Disk, target: Disk, fromFlag: string, toFlag: string, batch: int, calm: bool)
    returns (report: T.Report, starts: bool)
    requires scheme.CollisionFree() && source != target && Passes(db.rows, T.Flag(fromFlag))
    requires var d := T.State(db, source, target, T.Flag(fromFlag), T.Flag(toFlag));
      EmptyClean(scheme, d) && forall loc | loc in d.rows :: Resolves(scheme, d, loc)
    modifies db, target
    ensures var from, to := T.Flag(fromFlag), T.Flag(toFlag);
      calm && T.Acceptable(from, to, from, batch) && old(T.ReadyHere(scheme, source, target, db.rows, from, to)) ==> report.Done?
    ensures report.Done? ==> (starts <==> forall loc | loc in old(db.rows) :: old(db.rows)[loc].key != "")
    ensures report.Done? && starts ==> db.rows.Keys == old(db.rows).Keys
    ensures report.Done? && starts ==> forall loc | loc in old(db.rows) ::
      var key := old(db.rows)[loc].key;
      && db.rows[loc] == old(db.rows)[loc].(backend := T.Flag(toFlag))
      && key in source.objects && key in target.objects && target.objects[key] == old(source.objects)[key]
    ensures report.Done? && starts ==> forall loc | loc in db.rows ::
      (forall found :: SurvivesCrash(scheme, T.State(db, source, target, T.Flag(fromFlag), T.Flag(toFlag)), found, loc)) <==>
      T.Flag(toFlag) == S3 || db.rows[loc].key !in target.unsynced
  {
    ghost var from, to := T.Flag(fromFlag), T.Flag(toFlag);
    ghost var d, steps := T.State(db, source, target, from, to), [];
    report, steps := T.Run(scheme, db, source, target, fromFlag, toFlag, T.Flag(fromFlag), batch, false, calm);
    var mismatches := RequireConfigured(db.rows, T.Flag(toFlag));
    starts := mismatches == [];
    if report.Done? {
      ServesOriginals(scheme, d, T.State(db, source, target, from, to), from, to, steps);
      StartsExactly(d.rows, db.rows, from, to, report);
      ghost var now := T.State(db, source, target, from, to);
      forall loc | loc in db.rows && db.rows[loc].backend == to
        ensures (forall found :: SurvivesCrash(scheme, now, found, loc)) <==> to == S3 || db.rows[loc].key !in now.unsynced
      {
        SurvivesExactly(scheme, now, loc);
      }
    }
  }

  lemma ServesOriginals(scheme: Scheme, d: Durable, d': Durable, from: string, to: string, steps: seq<Step>)
    requires scheme.CollisionFree() && d.Valid() && EmptyClean(scheme, d) && from != to && from in d.stores && to in d'.stores
    requires Passes(d.rows, from) && (forall loc | loc in d.rows :: Resolves(scheme, d, loc))
    requires T.Reached(scheme, d, from, to, steps, d')
    ensures Passes(d'.rows, to) ==> forall loc | loc in d.rows && loc in d'.rows && d'.rows[loc].key == d.rows[loc].key ::
      var key := d.rows[loc].key; key in d.stores[from] && key in d'.stores[to] && d'.stores[to][key] == d.stores[from][key]
    ensures d'.Valid() && forall loc | loc in d'.rows :: Resolves(scheme, d', loc)
  {
    GateOverMigration(scheme, d, steps, from, to);
    MigrationIsSafe(scheme, d, steps);
    forall loc | loc in d.rows ensures Spared(scheme, d, steps, loc) { HostUpSpares(scheme, d, steps, loc); }
  }

  lemma StartsExactly(rows: map<Location, Row>, now: map<Location, Row>, from: string, to: string, report: T.Report)
    requires report.Done? && from != to && T.Finished(rows, now, from, to, false, report) && Passes(rows, from)
    ensures Passes(now, to) <==> forall loc | loc in rows :: rows[loc].key != ""
    ensures now.Keys == rows.Keys && forall loc | loc in rows :: now[loc] == rows[loc].(backend := now[loc].backend)
  {
    forall loc | loc in rows ensures loc in now && (now[loc].backend == to <==> rows[loc].key != "") {
      T.LeftOnSource(rows, now, from, to, report, loc);
    }
  }
}
