/**
 The offline blob migration as durable steps (cmd/blobmigrate/main.go).  A run can
 stop after any of them, by an error or because its process dies, and be started again;
 what holds of every legal sequence of steps holds of every such point of every rerun.
 The host can crash as well: the database keeps what it committed and S3 what it
 acknowledged, but the local backend never syncs its files, so those the system has not
 written back by itself may be gone or cut short.
 */
module MigrationSteps {
  import opened BlobStorage

  type Location = string
  type Digest = Bytes

  const LOCALFS := "localfs"
  const S3 := "s3"

  /** One file_blobs row. */
  datatype Row = Row(backend: string, key: Key, size: int, sha: Digest)

  /** The digest and its rendering as an object key. */
  datatype Scheme = Scheme(hash: Bytes -> Digest, hex: Digest -> Key) {
    function KeyOf(content: Bytes): Key {
      hex(hash(content))
    }
    ghost predicate CollisionFree() {
      forall a, b :: KeyOf(a) == KeyOf(b) ==> a == b
    }
  }

  /** One object as the migration lists it. */
  datatype Object = Object(key: Key, size: int, sha: Digest, locations: nat)

  /** Everything outside the process; unsynced are the local files not written back yet. */
  datatype Durable = Durable(rows: map<Location, Row>, stores: map<string, map<Key, Bytes>>, unsynced: set<Key>) {
    ghost predicate Valid() {
      LOCALFS in stores && S3 in stores
    }
    predicate Holds(backend: string, key: Key) {
      backend in stores && key in stores[backend]
    }
  }

  datatype Step =
    | Publish(to: string, content: Bytes)
    | Relabel(from: string, to: string, blob: Object)
    | WriteBack
    | HostCrash(found: map<Key, Bytes>)

  predicate Backend(name: string) {
    name == LOCALFS || name == S3
  }

  function Relabelled(rows: map<Location, Row>, from: string, to: string, key: Key): map<Location, Row> {
    map loc | loc in rows :: if rows[loc].backend == from && rows[loc].key == key then rows[loc].(backend := to) else rows[loc]
  }

  /** The local store after a host crash: of the files not written back, those that are found. */
  function Surviving(store: map<Key, Bytes>, unsynced: set<Key>, found: map<Key, Bytes>): map<Key, Bytes> {
    map k | k in store && (k !in unsynced || k in found) :: if k in unsynced then found[k] else store[k]
  }

  function Unsynced(unsynced: set<Key>, to: string, key: Key): set<Key> {
    if to == LOCALFS then unsynced + {key} else unsynced
  }

  function Apply(scheme: Scheme, d: Durable, step: Step): Durable {
    match step
    case Publish(to, content) =>
      if to in d.stores
      then d.(stores := d.stores[to := d.stores[to][scheme.KeyOf(content) := content]], unsynced := Unsynced(d.unsynced, to, scheme.KeyOf(content)))
      else d
    case WriteBack => d.(unsynced := {})
    case HostCrash(found) =>
      if LOCALFS in d.stores
      then d.(stores := d.stores[LOCALFS := Surviving(d.stores[LOCALFS], d.unsynced, found)], unsynced := {})
      else d
    case Relabel(from, to, blob) => d.(rows := Relabelled(d.rows, from, to, blob.key))
  }

  /** All rows of one object on one backend agree on its size and digest. */
  ghost predicate Agrees(rows: map<Location, Row>, from: string, blob: Object) {
    forall loc | loc in rows && rows[loc].backend == from && rows[loc].key == blob.key ::
      rows[loc].size == blob.size && rows[loc].sha == blob.sha
  }

  /** What the two verifications have established about the destination when a copy is
      accepted.  An empty object is never read back: its size is zero, so the range reader
      answers without asking, and only the S3 backend compares the size of an object that
      was already there. */
  ghost predicate Accepted(scheme: Scheme, to: string, store: map<Key, Bytes>, blob: Object) {
    && blob.key in store
    && if blob.size > 0 then
         |store[blob.key]| == blob.size && scheme.hash(store[blob.key]) == blob.sha
       else
         && blob.size == 0 && blob.sha == scheme.hash([]) && blob.key == scheme.KeyOf([])
         && (to == S3 ==> store[blob.key] == [])
  }

  /** The steps the tool may take. */
  ghost predicate Legal(scheme: Scheme, d: Durable, step: Step) {
    match step
    case Publish(to, content) => Backend(to) && to in d.stores && scheme.KeyOf(content) !in d.stores[to]
    case Relabel(from, to, blob) =>
      && Backend(from) && Backend(to) && from != to && to in d.stores
      && Agrees(d.rows, from, blob)
      && Accepted(scheme, to, d.stores[to], blob)
    case WriteBack => true
    case HostCrash(found) =>
      LOCALFS in d.stores && forall k | k in found && k in d.stores[LOCALFS] :: |found[k]| <= |d.stores[LOCALFS][k]|
  }

  function Exec(scheme: Scheme, d: Durable, steps: seq<Step>): Durable {
    if steps == [] then d else Apply(scheme, Exec(scheme, d, steps[..|steps| - 1]), steps[|steps| - 1])
  }

  ghost predicate LegalRun(scheme: Scheme, d: Durable, steps: seq<Step>) {
    steps != [] ==>
      && LegalRun(scheme, d, steps[..|steps| - 1])
      && Legal(scheme, Exec(scheme, d, steps[..|steps| - 1]), steps[|steps| - 1])
  }

  /** Every relabelling of these steps goes one way. */
  ghost predicate Directed(steps: seq<Step>, from: string, to: string) {
    forall s | s in steps :: s.Relabel? ==> s.from == from && s.to == to
  }

  /** Steps of the tool itself: the host does not crash in between. */
  ghost predicate HostUp(steps: seq<Step>) {
    forall s | s in steps :: !s.HostCrash?
  }

  lemma {:induction false} RunsCompose(scheme: Scheme, d: Durable, first: seq<Step>, second: seq<Step>)
    requires LegalRun(scheme, d, first) && LegalRun(scheme, Exec(scheme, d, first), second)
    ensures LegalRun(scheme, d, first + second)
    ensures Exec(scheme, d, first + second) == Exec(scheme, Exec(scheme, d, first), second)
    decreases |second|
  {
    if second == [] {
      assert first + second == first;
    } else {
      assert (first + second)[..|first + second| - 1] == first + second[..|second| - 1];
      RunsCompose(scheme, d, first, second[..|second| - 1]);
    }
  }

  /** A crash leaves a legal run behind. */
  lemma {:induction false} CrashIsLegal(scheme: Scheme, d: Durable, steps: seq<Step>, k: nat)
    requires LegalRun(scheme, d, steps) && k <= |steps|
    ensures LegalRun(scheme, d, steps[..k])
    decreases |steps|
  {
    if k < |steps| {
      assert steps[..|steps| - 1][..k] == steps[..k];
      CrashIsLegal(scheme, d, steps[..|steps| - 1], k);
    } else {
      assert steps[..k] == steps;
    }
  }

  // ---------------------------------------------------------------------------
  // Safety
  // ---------------------------------------------------------------------------

  /** The row's backend holds its full, digest-matching blob. */
  ghost predicate Resolves(scheme: Scheme, d: Durable, loc: Location)
    requires loc in d.rows
  {
    var row := d.rows[loc];
    && d.Holds(row.backend, row.key)
    && |d.stores[row.backend][row.key]| == row.size
    && scheme.hash(d.stores[row.backend][row.key]) == row.sha
  }

  /** No local file pretends to be the empty blob. */
  ghost predicate EmptyClean(scheme: Scheme, d: Durable) {
    d.Holds(LOCALFS, scheme.KeyOf([])) ==> d.stores[LOCALFS][scheme.KeyOf([])] == []
  }

  /** Rows change nothing but their label. */
  ghost predicate RowsKept(d: Durable, d': Durable) {
    && d'.rows.Keys == d.rows.Keys
    && (forall loc | loc in d.rows :: d'.rows[loc] == d.rows[loc].(backend := d'.rows[loc].backend))
  }

  /** Objects are added to a backend, never removed or replaced. */
  ghost predicate ObjectsKept(d: Durable, d': Durable, backend: string) {
    forall k | d.Holds(backend, k) :: d'.Holds(backend, k) && d'.stores[backend][k] == d.stores[backend][k]
  }

  /** The crash takes the local object of the row away, or cuts it short. */
  ghost predicate Hit(d: Durable, step: Step, loc: Location)
    requires loc in d.rows
  {
    var row := d.rows[loc];
    && step.HostCrash? && row.backend == LOCALFS
    && d.Holds(LOCALFS, row.key) && row.key in d.unsynced
    && !(row.key in step.found && step.found[row.key] == d.stores[LOCALFS][row.key])
  }

  /** No crash of the run hits the row. */
  ghost predicate Spared(scheme: Scheme, d: Durable, steps: seq<Step>, loc: Location) {
    steps != [] ==>
      var init := steps[..|steps| - 1];
      && Spared(scheme, d, init, loc)
      && loc in Exec(scheme, d, init).rows && !Hit(Exec(scheme, d, init), steps[|steps| - 1], loc)
  }

  /** What one step may do: everything a row resolves to stays, unless a crash hits it. */
  ghost predicate Safe(scheme: Scheme, d: Durable, d': Durable, hostUp: bool) {
    && d'.Valid() && EmptyClean(scheme, d') && RowsKept(d, d')
    && ObjectsKept(d, d', S3) && (hostUp ==> ObjectsKept(d, d', LOCALFS))
  }

  lemma StepIsSafe(scheme: Scheme, d: Durable, step: Step)
    requires scheme.CollisionFree() && d.Valid() && EmptyClean(scheme, d) && Legal(scheme, d, step)
    ensures var d' := Apply(scheme, d, step);
      && Safe(scheme, d, d', !step.HostCrash?)
      && (forall loc | loc in d.rows && !Hit(d, step, loc) && (Resolves(scheme, d, loc) || d'.rows[loc].backend != d.rows[loc].backend) ::
            Resolves(scheme, d', loc))
  {
  }

  /** Over any number of runs, in either direction, cut off anywhere, with host crashes anywhere:
      S3 loses nothing, the local backend loses nothing while the host is up, rows change only
      their label, and a row that resolved or was relabelled resolves, unless a crash hit it. */
  lemma {:induction false} MigrationIsSafe(scheme: Scheme, d: Durable, steps: seq<Step>)
    requires scheme.CollisionFree() && d.Valid() && EmptyClean(scheme, d) && LegalRun(scheme, d, steps)
    ensures var d' := Exec(scheme, d, steps);
      && Safe(scheme, d, d', HostUp(steps))
      && (forall loc | loc in d.rows && Spared(scheme, d, steps, loc) && (Resolves(scheme, d, loc) || d'.rows[loc].backend != d.rows[loc].backend) ::
            Resolves(scheme, d', loc))
    decreases |steps|
  {
    if steps != [] {
      var init, last := steps[..|steps| - 1], steps[|steps| - 1];
      MigrationIsSafe(scheme, d, init);
      StepIsSafe(scheme, Exec(scheme, d, init), last);
      assert last in steps && forall s | s in init :: s in steps;
    }
  }

  /** While the host is up every row is spared. */
  lemma {:induction false} HostUpSpares(scheme: Scheme, d: Durable, steps: seq<Step>, loc: Location)
    requires HostUp(steps) && loc in d.rows
    ensures loc in Exec(scheme, d, steps).rows && Spared(scheme, d, steps, loc)
  {
    if steps != [] {
      var init := steps[..|steps| - 1];
      assert steps[|steps| - 1] in steps && forall s | s in init :: s in steps;
      HostUpSpares(scheme, d, init, loc);
    }
  }

  /** Every row that resolved before, and was spared, still resolves to its original bytes. */
  lemma OriginalBytesSurvive(scheme: Scheme, d: Durable, steps: seq<Step>, loc: Location)
    requires scheme.CollisionFree() && d.Valid() && EmptyClean(scheme, d) && LegalRun(scheme, d, steps)
    requires loc in d.rows && Resolves(scheme, d, loc) && Spared(scheme, d, steps, loc)
    ensures var d' := Exec(scheme, d, steps);
      && loc in d'.rows && Resolves(scheme, d', loc)
      && d'.stores[d'.rows[loc].backend][d'.rows[loc].key] == d.stores[d.rows[loc].backend][d.rows[loc].key]
  {
    MigrationIsSafe(scheme, d, steps);
    var d' := Exec(scheme, d, steps);
    assert RowsKept(d, d') && Resolves(scheme, d', loc);
    var was, now := d.stores[d.rows[loc].backend][d.rows[loc].key], d'.stores[d'.rows[loc].backend][d'.rows[loc].key];
    assert scheme.KeyOf(was) == scheme.KeyOf(now);
  }

  // ---------------------------------------------------------------------------
  // Host crashes
  // ---------------------------------------------------------------------------

  /** One crash: a row that resolved still does if and only if the crash does not hit it. */
  lemma CrashResolvesExactly(scheme: Scheme, d: Durable, found: map<Key, Bytes>, loc: Location)
    requires scheme.CollisionFree() && d.Valid() && loc in d.rows && Resolves(scheme, d, loc)
    ensures Resolves(scheme, Apply(scheme, d, HostCrash(found)), loc) <==> !Hit(d, HostCrash(found), loc)
  {
    var d', key := Apply(scheme, d, HostCrash(found)), d.rows[loc].key;
    if d.rows[loc].backend == LOCALFS && key in found && Resolves(scheme, d', loc) {
      assert scheme.KeyOf(d'.stores[LOCALFS][key]) == scheme.KeyOf(d.stores[LOCALFS][key]);
    }
  }

  ghost predicate SurvivesCrash(scheme: Scheme, d: Durable, found: map<Key, Bytes>, loc: Location)
    requires loc in d.rows
  {
    Legal(scheme, d, HostCrash(found)) ==> Resolves(scheme, Apply(scheme, d, HostCrash(found)), loc)
  }

  /** A row survives every crash if and only if its object is not local or was written back. */
  lemma SurvivesExactly(scheme: Scheme, d: Durable, loc: Location)
    requires scheme.CollisionFree() && d.Valid() && loc in d.rows && Resolves(scheme, d, loc)
    ensures (forall found :: SurvivesCrash(scheme, d, found, loc)) <==> !(d.rows[loc].backend == LOCALFS && d.rows[loc].key in d.unsynced)
  {
    forall found ensures SurvivesCrash(scheme, d, found, loc) || (d.rows[loc].backend == LOCALFS && d.rows[loc].key in d.unsynced) {
      CrashResolvesExactly(scheme, d, found, loc);
    }
    CrashResolvesExactly(scheme, d, map[], loc);
    assert Legal(scheme, d, HostCrash(map[]));
    assert SurvivesCrash(scheme, d, map[], loc) <==> !Hit(d, HostCrash(map[]), loc);
  }

  /** So right after a relabelling: a row moved to S3 survives every crash, one moved to the local
      backend if and only if its file has been written back meanwhile. */
  lemma RelabelSurvivesExactly(scheme: Scheme, d: Durable, from: string, to: string, blob: Object, loc: Location)
    requires scheme.CollisionFree() && d.Valid() && EmptyClean(scheme, d) && Legal(scheme, d, Relabel(from, to, blob))
    requires loc in d.rows && d.rows[loc].backend == from && d.rows[loc].key == blob.key
    ensures var d' := Apply(scheme, d, Relabel(from, to, blob));
      loc in d'.rows && ((forall found :: SurvivesCrash(scheme, d', found, loc)) <==> to == S3 || blob.key !in d.unsynced)
  {
    StepIsSafe(scheme, d, Relabel(from, to, blob));
    SurvivesExactly(scheme, Apply(scheme, d, Relabel(from, to, blob)), loc);
  }

  /** One object on S3 and one row that points to it. */
  function OnS3(scheme: Scheme, content: Bytes): Durable {
    Durable(map["a" := Row(S3, scheme.KeyOf(content), |content|, scheme.hash(content))],
            map[LOCALFS := map[], S3 := map[scheme.KeyOf(content) := content]], {})
  }

  function MovedThere(scheme: Scheme, content: Bytes): Durable {
    Durable(map["a" := Row(LOCALFS, scheme.KeyOf(content), |content|, scheme.hash(content))],
            map[LOCALFS := map[scheme.KeyOf(content) := content], S3 := map[scheme.KeyOf(content) := content]], {scheme.KeyOf(content)})
  }

  function MoveOf(scheme: Scheme, content: Bytes): Step {
    Relabel(S3, LOCALFS, Object(scheme.KeyOf(content), |content|, scheme.hash(content), 1))
  }

  lemma MovesThere(scheme: Scheme, content: Bytes)
    requires content != []
    ensures var d := OnS3(scheme, content); var copied := Apply(scheme, d, Publish(LOCALFS, content));
      && Legal(scheme, d, Publish(LOCALFS, content)) && Legal(scheme, copied, MoveOf(scheme, content))
      && Apply(scheme, copied, MoveOf(scheme, content)) == MovedThere(scheme, content)
  {
    var d := OnS3(scheme, content);
    var copied := Apply(scheme, d, Publish(LOCALFS, content));
    assert copied == Durable(d.rows, MovedThere(scheme, content).stores, {scheme.KeyOf(content)});
    assert Apply(scheme, copied, MoveOf(scheme, content)).rows == MovedThere(scheme, content).rows;
  }

  /** Once the system has written the local files back, every row that resolves survives every crash. */
  lemma WriteBackProtects(scheme: Scheme, d: Durable, loc: Location)
    requires scheme.CollisionFree() && d.Valid() && loc in d.rows && Resolves(scheme, d, loc)
    ensures var d' := Apply(scheme, d, WriteBack);
      loc in d'.rows && forall found :: SurvivesCrash(scheme, d', found, loc)
  {
    SurvivesExactly(scheme, Apply(scheme, d, WriteBack), loc);
  }

  /** It happens: an object is copied to the local backend, its row relabelled, the host crashes.
      The row is lost where it now points, though S3 still has the object. */
  lemma HostCrashInstance(scheme: Scheme, content: Bytes)
    requires content != []
    ensures var d := OnS3(scheme, content); var run := [Publish(LOCALFS, content), MoveOf(scheme, content), HostCrash(map[])];
      var d' := Exec(scheme, d, run);
      && d.Valid() && EmptyClean(scheme, d) && Resolves(scheme, d, "a") && LegalRun(scheme, d, run)
      && "a" in d'.rows && d'.rows["a"].backend == LOCALFS && !Resolves(scheme, d', "a")
      && S3 in d'.stores && d'.stores[S3] == d.stores[S3]
  {
    MovesThere(scheme, content);
    RunOfThree(scheme, OnS3(scheme, content), Publish(LOCALFS, content), MoveOf(scheme, content), HostCrash(map[]));
  }

  lemma RunOfThree(scheme: Scheme, d: Durable, a: Step, b: Step, c: Step)
    ensures Exec(scheme, d, [a, b, c]) == Apply(scheme, Apply(scheme, Apply(scheme, d, a), b), c)
    ensures Legal(scheme, d, a) && Legal(scheme, Apply(scheme, d, a), b) && Legal(scheme, Apply(scheme, Apply(scheme, d, a), b), c) ==>
      LegalRun(scheme, d, [a, b, c])
  {
    assert [a][..0] == [] && Exec(scheme, d, []) == d && LegalRun(scheme, d, []);
    assert Exec(scheme, d, [a]) == Apply(scheme, d, a) && (LegalRun(scheme, d, [a]) <==> Legal(scheme, d, a));
    assert [a, b][..1] == [a] && Exec(scheme, d, [a, b]) == Apply(scheme, Apply(scheme, d, a), b);
    assert [a, b, c][..2] == [a, b];
  }

  /** A local file that stands under the key of a row on S3 and is not its content. */
  ghost predicate Torn(scheme: Scheme, d: Durable, loc: Location)
    requires loc in d.rows
  {
    var row := d.rows[loc];
    && row.backend == S3 && row.size > 0 && d.Holds(LOCALFS, row.key) && row.key !in d.unsynced
    && !(|d.stores[LOCALFS][row.key]| == row.size && scheme.hash(d.stores[LOCALFS][row.key]) == row.sha)
  }

  /** What a crash cut short and the disk kept blocks its object: the local backend takes the file
      for a copy already made, every verification fails, and no run ever moves the row there. */
  lemma {:induction false} TornBlocks(scheme: Scheme, d: Durable, steps: seq<Step>, loc: Location)
    requires LegalRun(scheme, d, steps) && loc in d.rows && Torn(scheme, d, loc)
    ensures var d' := Exec(scheme, d, steps); loc in d'.rows && d'.rows[loc] == d.rows[loc] && Torn(scheme, d', loc)
    decreases |steps|
  {
    if steps != [] { TornBlocks(scheme, d, steps[..|steps| - 1], loc); }
  }

  /** Without EmptyClean the guarantee has one gap, and this is all of it: a relabelled row
      resolves unless its object is empty and something else already stood under its key. */
  lemma RelabelResolvesExactly(scheme: Scheme, d: Durable, from: string, to: string, blob: Object, loc: Location)
    requires d.Valid() && Legal(scheme, d, Relabel(from, to, blob))
    requires loc in d.rows && d.rows[loc].backend == from && d.rows[loc].key == blob.key
    ensures var d' := Apply(scheme, d, Relabel(from, to, blob));
      Resolves(scheme, d', loc) <==> blob.size > 0 || d.stores[to][blob.key] == []
  {
  }

  /** The gap is real: a stray local file under the empty object's key, and one empty blob. */
  lemma EmptyObjectGap(scheme: Scheme)
    ensures var key := scheme.KeyOf([]);
      var d := Durable(map["a" := Row(S3, key, 0, scheme.hash([]))], map[LOCALFS := map[key := [1 as byte]], S3 := map[key := []]], {});
      var step := Relabel(S3, LOCALFS, Object(key, 0, scheme.hash([]), 1));
      && d.Valid() && Resolves(scheme, d, "a") && Legal(scheme, d, step)
      && !Resolves(scheme, Apply(scheme, d, step), "a")
  {
    var key := scheme.KeyOf([]);
    var d := Durable(map["a" := Row(S3, key, 0, scheme.hash([]))], map[LOCALFS := map[key := [1 as byte]], S3 := map[key := []]], {});
    assert Apply(scheme, d, Relabel(S3, LOCALFS, Object(key, 0, scheme.hash([]), 1))).rows["a"].backend == LOCALFS;
  }
}
