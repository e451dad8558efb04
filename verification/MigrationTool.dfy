/**
 The migration command as it runs: keyset pages of distinct object keys, one object
 copied, verified, read back and relabelled at a time (cmd/blobmigrate/main.go), over
 the paging and relabelling statements of internal/store/postgres/blob_migration.go.
 Calls that reach a backend or the database may fail at any time, unless a run is calm: then
 none does, and nobody interrupts it.
 */
module MigrationTool {
  import opened Strings
  import opened BlobStorage
  import opened MigrationSteps

  // ---------------------------------------------------------------------------
  // Object keys are paged in string order, the empty string first
  // ---------------------------------------------------------------------------

  predicate Below(a: Key, b: Key) {
    b != [] && (a == [] || a[0] < b[0] || (a[0] == b[0] && Below(a[1..], b[1..])))
  }

  lemma {:induction false} BelowIsStrictTotal(a: Key, b: Key)
    ensures Below(a, b) || a == b || Below(b, a)
    ensures !(Below(a, b) && Below(b, a)) && !Below(a, a)
    decreases |a|
  {
    if a != [] {
      BelowIsStrictTotal(a[1..], a[1..]);
      if b != [] { BelowIsStrictTotal(a[1..], b[1..]); }
    }
  }

  lemma {:induction false} BelowIsTransitive(a: Key, b: Key, c: Key)
    requires Below(a, b) && Below(b, c)
    ensures Below(a, c)
    decreases |a|
  {
    if a != [] && a[0] == b[0] && b[0] == c[0] { BelowIsTransitive(a[1..], b[1..], c[1..]); }
  }

  lemma LeastKey(keys: set<Key>) returns (least: Key)
    requires keys != {}
    ensures least in keys && forall k | k in keys :: k == least || Below(least, k)
    decreases |keys|
  {
    least :| least in keys;
    if keys != {least} {
      var m := LeastKey(keys - {least});
      BelowIsStrictTotal(least, m);
      if Below(m, least) {
        least := m;
      } else {
        forall k | k in keys && k != least ensures Below(least, k) {
          if k != m { BelowIsTransitive(least, m, k); }
        }
      }
    }
  }

  // ---------------------------------------------------------------------------
  // The database
  // ---------------------------------------------------------------------------

  ghost function At(rows: map<Location, Row>, from: string, key: Key): set<Location> {
    set loc | loc in rows && rows[loc].backend == from && rows[loc].key == key
  }

  ghost function KeysAfter(rows: map<Location, Row>, from: string, after: Key): set<Key> {
    set loc | loc in rows && rows[loc].backend == from && Below(after, rows[loc].key) :: rows[loc].key
  }

  /** The page entry is what the table says about the object. */
  ghost predicate Describes(scheme: Scheme, rows: map<Location, Row>, from: string, blob: Object) {
    && At(rows, from, blob.key) != {}
    && blob.locations == |At(rows, from, blob.key)|
    && Agrees(rows, from, blob)
    && blob.key == scheme.hex(blob.sha)
  }

  /** The rows of a key agree on their size and their digest, and the key is that digest's. */
  ghost predicate Uniform(scheme: Scheme, rows: map<Location, Row>, from: string, key: Key) {
    forall a, b | a in At(rows, from, key) && b in At(rows, from, key) ::
      rows[a].size == rows[b].size && rows[a].sha == rows[b].sha && scheme.hex(rows[a].sha) == key
  }

  datatype Listing = Page(objects: seq<Object>) | ListError

  /** A page: in key order after the cursor, describing the table, skipping nothing. */
  ghost predicate IsPage(scheme: Scheme, rows: map<Location, Row>, from: string, after: Key, page: seq<Object>) {
    && (forall i | 0 <= i < |page| :: Describes(scheme, rows, from, page[i]) && Below(after, page[i].key))
    && (forall i, j | 0 <= i < j < |page| :: Below(page[i].key, page[j].key))
    && (forall loc, j | loc in rows && rows[loc].backend == from && Below(after, rows[loc].key) && 0 <= j < |page|
                        && !Below(page[j].key, rows[loc].key) ::
          exists i :: 0 <= i <= j && page[i].key == rows[loc].key)
  }

  class Database {
    var rows: map<Location, Row>

    constructor (rows: map<Location, Row>)
      ensures this.rows == rows
    {
      this.rows := rows;
    }

    /** One GROUP BY row: an error for inconsistent metadata, never a guess. */
    method Group(scheme: Scheme, from: string, key: Key) returns (ok: bool, blob: Object)
      requires At(rows, from, key) != {}
      ensures ok ==> blob.key == key && Describes(scheme, rows, from, blob)
      ensures ok <==> Uniform(scheme, rows, from, key)
    {
      var group := set loc | loc in rows && rows[loc].backend == from && rows[loc].key == key;
      assert group == At(rows, from, key);
      var loc :| loc in group;
      blob := Object(key, rows[loc].size, rows[loc].sha, |group|);
      ok := key == scheme.hex(blob.sha) && forall l | l in group :: rows[l].size == blob.size && rows[l].sha == blob.sha;
    }

    /** ListBlobMigrationObjects. */
    method List(scheme: Scheme, from: string, after: Key, limit: nat, calm: bool) returns (listing: Listing)
      requires limit > 0
      ensures calm && (forall key | key in KeysAfter(rows, from, after) :: Uniform(scheme, rows, from, key)) ==> listing.Page?
      ensures listing.Page? ==>
        && IsPage(scheme, rows, from, after, listing.objects)
        && |listing.objects| <= limit
        && (listing.objects == [] <==> KeysAfter(rows, from, after) == {})
    {
      var broken: bool := *;
      if broken && !calm { return ListError; }
      var left := set loc | loc in rows && rows[loc].backend == from && Below(after, rows[loc].key) :: rows[loc].key;
      assert left == KeysAfter(rows, from, after);
      ghost var all := left;
      var page: seq<Object> := [];
      while left != {} && |page| < limit
        invariant left <= all && |page| <= limit && Covers(scheme, rows, from, page, left, all)
        invariant page == [] ==> left == all
        decreases |left|
      {
        ghost var least := LeastKey(left);
        var key :| key in left && forall k | k in left :: k == key || Below(key, k);
        KeysAreAt(rows, from, after, key);
        var ok, blob := Group(scheme, from, key);
        if !ok { return ListError; }
        CoversOneMore(scheme, rows, from, page, left, all, blob);
        page := page + [blob];
        left := left - {key};
      }
      PageSkipsNothing(scheme, rows, from, after, page, left, all);
      assert page != [] ==> page[0].key in all;
      return Page(page);
    }

    /** MoveFileBlobBackendForObject: one UPDATE over every row of the object.  The answer can be
        lost although the UPDATE took place. */
    method Move(from: string, to: string, key: Key, expected: nat, calm: bool) returns (ok: bool, ghost moved: bool)
      requires from != to
      ensures calm ==> (ok <==> expected > 0 && expected == |At(old(rows), from, key)|)
      modifies this
      ensures rows == if moved then Relabelled(old(rows), from, to, key) else old(rows)
      ensures ok ==> moved && expected == |At(old(rows), from, key)|
    {
      var refused: bool := *;
      if expected <= 0 || (refused && !calm) { return false, false; }
      var group := set loc | loc in rows && rows[loc].backend == from && rows[loc].key == key;
      assert group == At(rows, from, key);
      rows := Relabelled(rows, from, to, key);
      var lost: bool := *;
      return (!lost || calm) && |group| == expected, true;
    }
  }

  lemma KeysAreAt(rows: map<Location, Row>, from: string, after: Key, key: Key)
    requires key in KeysAfter(rows, from, after)
    ensures At(rows, from, key) != {} && Below(after, key)
  {
    var loc :| loc in rows && rows[loc].backend == from && Below(after, rows[loc].key) && rows[loc].key == key;
    assert loc in At(rows, from, key);
  }

  /** The page holds, in order, exactly the keys of all that are not left, and they come first. */
  ghost predicate Covers(scheme: Scheme, rows: map<Location, Row>, from: string, page: seq<Object>, left: set<Key>, all: set<Key>) {
    && (forall i | 0 <= i < |page| :: Describes(scheme, rows, from, page[i]) && page[i].key in all)
    && (forall i, j | 0 <= i < j < |page| :: Below(page[i].key, page[j].key))
    && (forall i, k | 0 <= i < |page| && k in left :: Below(page[i].key, k))
    && (forall k | k in all && k !in left :: exists i :: 0 <= i < |page| && page[i].key == k)
  }

  lemma CoversOneMore(scheme: Scheme, rows: map<Location, Row>, from: string, page: seq<Object>, left: set<Key>, all: set<Key>, blob: Object)
    requires Covers(scheme, rows, from, page, left, all) && left <= all
    requires blob.key in left && (forall k | k in left :: k == blob.key || Below(blob.key, k))
    requires Describes(scheme, rows, from, blob)
    ensures Covers(scheme, rows, from, page + [blob], left - {blob.key}, all)
  {
    var page', left' := page + [blob], left - {blob.key};
    forall k | k in all && k !in left' ensures exists i :: 0 <= i < |page'| && page'[i].key == k {
      if k == blob.key {
        assert page'[|page|].key == k;
      } else {
        var i :| 0 <= i < |page| && page[i].key == k;
        assert page'[i].key == k;
      }
    }
  }

  lemma PageSkipsNothing(scheme: Scheme, rows: map<Location, Row>, from: string, after: Key, page: seq<Object>, left: set<Key>, all: set<Key>)
    requires all == KeysAfter(rows, from, after) && Covers(scheme, rows, from, page, left, all)
    ensures IsPage(scheme, rows, from, after, page)
  {
    forall i | 0 <= i < |page| ensures Below(after, page[i].key) { KeysAreAt(rows, from, after, page[i].key); }
    forall loc, j | loc in rows && rows[loc].backend == from && Below(after, rows[loc].key) && 0 <= j < |page|
                    && !Below(page[j].key, rows[loc].key)
      ensures exists i :: 0 <= i <= j && page[i].key == rows[loc].key
    {
      var k := rows[loc].key;
      assert k in all && k !in left;
      var i :| 0 <= i < |page| && page[i].key == k;
      assert i <= j;
    }
  }

  // ---------------------------------------------------------------------------
  // One object
  // ---------------------------------------------------------------------------

  /** At most one publishing step, of a key that was free, leads from one store to the other. */
  ghost predicate Published(scheme: Scheme, to: string, was: map<Key, Bytes>, unsynced: set<Key>, steps: seq<Step>,
                            now: map<Key, Bytes>, unsynced': set<Key>) {
    if steps == [] then now == was && unsynced' == unsynced
    else
      |steps| == 1 && steps[0].Publish? && steps[0].to == to
      && var key := scheme.KeyOf(steps[0].content);
      key !in was && now == was[key := steps[0].content] && unsynced' == Unsynced(unsynced, to, key)
  }

  datatype PutResult = Stored(key: Key, size: nat, digest: Digest) | PutError

  /** The bytes a reader of this size will yield: none are asked for if the size is not positive. */
  ghost predicate Readable(src: map<Key, Bytes>, key: Key, size: int) {
    size > 0 ==> key in src && |src[key]| == size
  }

  ghost function Content(src: map<Key, Bytes>, key: Key, size: int): Bytes
    requires Readable(src, key, size)
  {
    if size > 0 then src[key] else []
  }

  /** PutReader: spool and hash the stream, then publish it under its digest unless the key is
      taken.  S3 compares the size of a taken key; the local backend does not look. */
  method PutReader(scheme: Scheme, target: Disk, to: string, reader: RangeReader, calm: bool) returns (r: PutResult, ghost steps: seq<Step>)
    requires reader.Valid() && reader.offset == 0 && reader.buffer == [] && reader.backend != target
    modifies reader, target
    ensures Published(scheme, to, old(target.objects), old(target.unsynced), steps, target.objects, target.unsynced)
    ensures r.Stored? ==>
      && r.key in target.objects && r.key == scheme.hex(r.digest)
      && r.size == (if reader.total < 0 then 0 else reader.total)
      && (to == S3 ==> |target.objects[r.key]| == r.size)
    ensures var src := old(reader.backend.objects);
      if !Readable(src, reader.key, reader.total) then r.PutError? && steps == []
      else
        var content := Content(src, reader.key, reader.total); var taken := scheme.KeyOf(content) in old(target.objects);
        && (r.Stored? ==> r.digest == scheme.hash(content))
        && (steps != [] ==> steps == [Publish(to, content)])
        && (calm ==>
              && (steps == [] <==> taken)
              && (r.Stored? <==> (taken && to == S3 ==> |old(target.objects)[scheme.KeyOf(content)]| == |content|)))
  {
    steps := [];
    var faults: nat -> bool := *;
    if calm { faults := i => false; }
    var content, ok := CopyAll(reader, faults);
    if !ok { return PutError, steps; }
    var digest := scheme.hash(content);
    var key := scheme.hex(digest);
    assert key == scheme.KeyOf(content);
    var broken: bool := *;
    if broken && !calm { return PutError, steps; }
    if key in target.objects {
      if to == S3 && |target.objects[key]| != |content| { return PutError, steps; }
      return Stored(key, |content|, digest), steps;
    }
    target.objects := target.objects[key := content];
    target.unsynced := Unsynced(target.unsynced, to, key);
    steps := [Publish(to, content)];
    var lost: bool := *;
    if lost && !calm { return PutError, steps; }
    return Stored(key, |content|, digest), steps;
  }

  /** The object can be copied as it is listed: the source holds it with its stated size and digest
      under its own key, and what may already stand there at the destination does not contradict it. */
  ghost predicate Copyable(scheme: Scheme, src: map<Key, Bytes>, to: string, dst: map<Key, Bytes>, blob: Object) {
    && blob.size >= 0 && Readable(src, blob.key, blob.size)
    && scheme.hash(Content(src, blob.key, blob.size)) == blob.sha && scheme.hex(blob.sha) == blob.key
    && (blob.key in dst ==>
          if blob.size > 0 then |dst[blob.key]| == blob.size && scheme.hash(dst[blob.key]) == blob.sha
          else to == S3 ==> dst[blob.key] == [])
  }

  /** migrateObject: copy, check what was written, read it back and check again.  Nothing but the
      object's own content is ever published; in a calm run it succeeds exactly when it can. */
  method MigrateObject(scheme: Scheme, source: Disk, target: Disk, to: string, blob: Object, calm: bool) returns (ok: bool, ghost steps: seq<Step>)
    requires source != target && Backend(to)
    modifies target
    ensures Published(scheme, to, old(target.objects), old(target.unsynced), steps, target.objects, target.unsynced)
    ensures steps != [] ==> Readable(source.objects, blob.key, blob.size) && steps[0].content == Content(source.objects, blob.key, blob.size)
    ensures ok ==> Accepted(scheme, to, target.objects, blob)
    ensures calm ==> (ok <==> Copyable(scheme, source.objects, to, old(target.objects), blob))
  {
    var sourceReader := new RangeReader(source, blob.key, blob.size);
    var put, put_steps := PutReader(scheme, target, to, sourceReader, calm);
    steps := put_steps;
    if put.PutError? { return false, steps; }
    var same := EqualBytes(put.digest, blob.sha);
    if put.key != blob.key || put.size != blob.size || !same { return false, steps; }
    var verifyReader := new RangeReader(target, blob.key, blob.size);
    var faults: nat -> bool := *;
    if calm { faults := i => false; }
    var back, read := CopyAll(verifyReader, faults);
    if !read { return false, steps; }
    same := EqualBytes(scheme.hash(back), blob.sha);
    return |back| == blob.size && same, steps;
  }

  // ---------------------------------------------------------------------------
  // The whole command
  // ---------------------------------------------------------------------------

  /** The cursor has passed this key.  The empty key is never passed: paging starts after it. */
  predicate Passed(key: Key, after: Key) {
    key != "" && !Below(after, key)
  }

  /** The table once the cursor stands at after. */
  ghost function Progress(rows: map<Location, Row>, from: string, to: string, after: Key): map<Location, Row> {
    map loc | loc in rows ::
      if rows[loc].backend == from && Passed(rows[loc].key, after) then rows[loc].(backend := to) else rows[loc]
  }

  ghost function PassedRows(rows: map<Location, Row>, from: string, after: Key): set<Location> {
    set loc | loc in rows && rows[loc].backend == from && Passed(rows[loc].key, after)
  }

  ghost function Ahead(rows: map<Location, Row>, from: string, after: Key): set<Location> {
    set loc | loc in rows && rows[loc].backend == from && Below(after, rows[loc].key)
  }

  ghost function PassedKeys(rows: map<Location, Row>, from: string, after: Key): set<Key> {
    set loc | loc in PassedRows(rows, from, after) :: rows[loc].key
  }

  ghost function State(db: Database, source: Disk, target: Disk, from: string, to: string): Durable
    reads db, source, target
  {
    Durable(db.rows, map[from := source.objects, to := target.objects], if to == LOCALFS then target.unsynced else source.unsynced)
  }

  /** Rows ahead of the cursor are as they were at the start. */
  lemma AheadUntouched(scheme: Scheme, rows: map<Location, Row>, from: string, to: string, after: Key, blob: Object)
    requires from != to && Below(after, blob.key)
    ensures Describes(scheme, Progress(rows, from, to, after), from, blob) <==> Describes(scheme, rows, from, blob)
  {
    var now := Progress(rows, from, to, after);
    assert At(now, from, blob.key) == At(rows, from, blob.key);
    assert forall loc | loc in At(rows, from, blob.key) :: now[loc] == rows[loc];
    assert forall loc | loc in now && now[loc].backend == from && now[loc].key == blob.key :: loc in At(rows, from, blob.key);
    assert forall loc | loc in rows && rows[loc].backend == from && rows[loc].key == blob.key :: loc in At(rows, from, blob.key);
  }

  lemma PageOfStart(scheme: Scheme, rows: map<Location, Row>, from: string, to: string, after: Key, page: seq<Object>)
    requires from != to && IsPage(scheme, Progress(rows, from, to, after), from, after, page)
    ensures IsPage(scheme, rows, from, after, page)
  {
    forall i | 0 <= i < |page| ensures Describes(scheme, rows, from, page[i]) { AheadUntouched(scheme, rows, from, to, after, page[i]); }
    var now := Progress(rows, from, to, after);
    assert forall loc | loc in rows && Below(after, rows[loc].key) :: now[loc] == rows[loc];
  }

  ghost function Cursor(start: Key, page: seq<Object>, i: nat): Key
    requires i <= |page|
  {
    if i == 0 then start else page[i - 1].key
  }

  lemma PassOne(after: Key, key: Key, k: Key)
    requires Below(after, key)
    requires Below(after, k) ==> k == key || Below(key, k)
    ensures Passed(k, key) <==> Passed(k, after) || k == key
  {
    BelowIsStrictTotal(key, key);
    if Below(key, k) { BelowIsTransitive(after, key, k); }
  }

  lemma AfterItsPredecessor(page: seq<Object>, i: nat, j: nat)
    requires j <= i < |page| && (forall m, n | 0 <= m < n < |page| :: Below(page[m].key, page[n].key))
    requires i > 0 ==> Below(page[i - 1].key, page[j].key)
    ensures j == i
  {
    if j < i {
      BelowIsStrictTotal(page[i - 1].key, page[j].key);
    }
  }

  lemma NoGap(scheme: Scheme, rows: map<Location, Row>, from: string, start: Key, page: seq<Object>, i: nat, loc: Location)
    requires IsPage(scheme, rows, from, start, page) && i < |page|
    requires loc in rows && rows[loc].backend == from && Below(Cursor(start, page, i), rows[loc].key)
    ensures rows[loc].key == page[i].key || Below(page[i].key, rows[loc].key)
  {
    if i > 0 { BelowIsTransitive(start, page[i - 1].key, rows[loc].key); }
    if !Below(page[i].key, rows[loc].key) {
      var j :| 0 <= j <= i && page[j].key == rows[loc].key;
      AfterItsPredecessor(page, i, j);
    }
  }

  /** Moving the cursor to the next key of a page passes exactly that object's rows. */
  lemma CursorMoves(scheme: Scheme, rows: map<Location, Row>, from: string, start: Key, page: seq<Object>, i: nat, loc: Location)
    requires IsPage(scheme, rows, from, start, page) && i < |page|
    requires loc in rows && rows[loc].backend == from
    ensures Below(Cursor(start, page, i), page[i].key)
    ensures Passed(rows[loc].key, page[i].key) <==> Passed(rows[loc].key, Cursor(start, page, i)) || rows[loc].key == page[i].key
  {
    if Below(Cursor(start, page, i), rows[loc].key) { NoGap(scheme, rows, from, start, page, i, loc); }
    PassOne(Cursor(start, page, i), page[i].key, rows[loc].key);
  }

  datatype Report = Done(objects: nat, locations: nat, bytes: int) | Stopped

  /** The table, in a dry run or a real one, once the cursor stands at after. */
  ghost predicate Stands(db: Database, rows: map<Location, Row>, from: string, to: string, after: Key, dryRun: bool)
    reads db
  {
    db.rows == if dryRun then rows else Progress(rows, from, to, after)
  }

  /** No row under the empty key is relabelled. */
  ghost predicate KeysNamed(steps: seq<Step>) {
    forall s | s in steps :: s.Relabel? ==> s.blob.key != ""
  }

  /** The steps lead from d to the state at hand. */
  ghost predicate Reached(scheme: Scheme, d: Durable, from: string, to: string, steps: seq<Step>, now: Durable) {
    LegalRun(scheme, d, steps) && Directed(steps, from, to) && HostUp(steps) && KeysNamed(steps) && now == Exec(scheme, d, steps)
  }

  lemma OneStepMore(scheme: Scheme, d: Durable, from: string, to: string, steps: seq<Step>, now: Durable, step: Step)
    requires Reached(scheme, d, from, to, steps, now) && Legal(scheme, now, step)
    requires !step.HostCrash? && (step.Relabel? ==> step.from == from && step.to == to && step.blob.key != "")
    ensures Reached(scheme, d, from, to, steps + [step], Apply(scheme, now, step))
  {
    assert (steps + [step])[..|steps|] == steps;
  }

  // ---------------------------------------------------------------------------
  // When nothing stands in the way
  // ---------------------------------------------------------------------------

  /** Every object the rows name can be copied, and its rows agree on it. */
  ghost predicate Ready(scheme: Scheme, rows: map<Location, Row>, from: string, to: string, src: map<Key, Bytes>, dst: map<Key, Bytes>) {
    forall loc | loc in rows && rows[loc].backend == from && rows[loc].key != "" :: CanMove(scheme, rows, from, to, src, dst, loc)
  }

  ghost predicate CanMove(scheme: Scheme, rows: map<Location, Row>, from: string, to: string, src: map<Key, Bytes>, dst: map<Key, Bytes>, loc: Location)
    requires loc in rows
  {
    && Uniform(scheme, rows, from, rows[loc].key)
    && Copyable(scheme, src, to, dst, Object(rows[loc].key, rows[loc].size, rows[loc].sha, 1))
  }

  ghost predicate ReadyHere(scheme: Scheme, source: Disk, target: Disk, rows: map<Location, Row>, from: string, to: string)
    reads source, target
  {
    Ready(scheme, rows, from, to, source.objects, target.objects)
  }

  /** The destination has at most gained the object's own content, under its key. */
  ghost predicate Gained(scheme: Scheme, src: map<Key, Bytes>, was: map<Key, Bytes>, now: map<Key, Bytes>, blob: Object) {
    now == was || (
      && Readable(src, blob.key, blob.size)
      && var content := Content(src, blob.key, blob.size);
      scheme.KeyOf(content) !in was && now == was[scheme.KeyOf(content) := content])
  }

  lemma ReadyObject(scheme: Scheme, rows: map<Location, Row>, from: string, to: string, src: map<Key, Bytes>, dst: map<Key, Bytes>, blob: Object)
    requires Ready(scheme, rows, from, to, src, dst) && Describes(scheme, rows, from, blob) && blob.key != ""
    ensures Copyable(scheme, src, to, dst, blob)
  {
    var loc :| loc in At(rows, from, blob.key);
    assert CanMove(scheme, rows, from, to, src, dst, loc);
  }

  lemma ReadyStays(scheme: Scheme, rows: map<Location, Row>, from: string, to: string, src: map<Key, Bytes>, was: map<Key, Bytes>, now: map<Key, Bytes>, blob: Object)
    requires Ready(scheme, rows, from, to, src, was) && Describes(scheme, rows, from, blob) && blob.key != ""
    requires Gained(scheme, src, was, now, blob)
    ensures Ready(scheme, rows, from, to, src, now)
  {
    ReadyObject(scheme, rows, from, to, src, was, blob);
    forall loc | loc in rows && rows[loc].backend == from && rows[loc].key != "" ensures CanMove(scheme, rows, from, to, src, now, loc) {
      assert CanMove(scheme, rows, from, to, src, was, loc);
      if rows[loc].key == blob.key { assert loc in At(rows, from, blob.key); }
    }
  }

  lemma ReadyItem(scheme: Scheme, rows: map<Location, Row>, from: string, to: string, src: map<Key, Bytes>, was: map<Key, Bytes>, now: map<Key, Bytes>, blob: Object)
    requires Describes(scheme, rows, from, blob) && blob.key != "" && Gained(scheme, src, was, now, blob)
    ensures Ready(scheme, rows, from, to, src, was) ==> Ready(scheme, rows, from, to, src, now) && Copyable(scheme, src, to, was, blob)
  {
    if Ready(scheme, rows, from, to, src, was) {
      ReadyObject(scheme, rows, from, to, src, was, blob);
      ReadyStays(scheme, rows, from, to, src, was, now, blob);
    }
  }

  /** What is left of the table after any part of a run is as ready as the whole. */
  lemma ReadyLater(scheme: Scheme, rows: map<Location, Row>, now: map<Location, Row>, from: string, to: string, src: map<Key, Bytes>, dst: map<Key, Bytes>)
    requires Ready(scheme, rows, from, to, src, dst)
    requires forall loc | loc in now && now[loc].backend == from :: loc in rows && rows[loc] == now[loc]
    ensures Ready(scheme, now, from, to, src, dst)
  {
    forall loc | loc in now && now[loc].backend == from && now[loc].key != "" ensures CanMove(scheme, now, from, to, src, dst, loc) {
      assert CanMove(scheme, rows, from, to, src, dst, loc);
      assert At(now, from, now[loc].key) <= At(rows, from, now[loc].key);
    }
  }

  lemma ReadyPages(scheme: Scheme, rows: map<Location, Row>, now: map<Location, Row>, from: string, to: string, src: map<Key, Bytes>, dst: map<Key, Bytes>, after: Key)
    requires Ready(scheme, rows, from, to, src, dst)
    requires forall loc | loc in now && now[loc].backend == from :: loc in rows && rows[loc] == now[loc]
    ensures forall key | key in KeysAfter(now, from, after) :: Uniform(scheme, now, from, key)
  {
    ReadyLater(scheme, rows, now, from, to, src, dst);
    forall key | key in KeysAfter(now, from, after) ensures Uniform(scheme, now, from, key) {
      KeysAreAt(now, from, after, key);
      var loc :| loc in At(now, from, key);
      assert CanMove(scheme, now, from, to, src, dst, loc);
    }
  }

  /** Steps one way bring no row back to the source. */
  lemma {:induction false} OneWay(scheme: Scheme, d: Durable, steps: seq<Step>, from: string, to: string)
    requires Directed(steps, from, to) && from != to
    ensures var now := Exec(scheme, d, steps).rows;
      forall loc | loc in now && now[loc].backend == from :: loc in d.rows && d.rows[loc] == now[loc]
  {
    if steps != [] {
      assert steps[|steps| - 1] in steps && forall s | s in steps[..|steps| - 1] :: s in steps;
      OneWay(scheme, d, steps[..|steps| - 1], from, to);
    }
  }

  lemma NextPageReady(scheme: Scheme, d: Durable, now: Durable, from: string, to: string, steps: seq<Step>, src: map<Key, Bytes>, dst: map<Key, Bytes>, after: Key)
    requires Reached(scheme, d, from, to, steps, now) && from != to
    ensures Ready(scheme, d.rows, from, to, src, dst) ==> forall key | key in KeysAfter(now.rows, from, after) :: Uniform(scheme, now.rows, from, key)
  {
    if Ready(scheme, d.rows, from, to, src, dst) {
      OneWay(scheme, d, steps, from, to);
      ReadyPages(scheme, d.rows, now.rows, from, to, src, dst, after);
    }
  }

  lemma CopyReached(scheme: Scheme, d: Durable, copied: Durable, from: string, to: string, steps: seq<Step>)
    requires Backend(to) && from != to && from in d.stores && to in d.stores
    requires if steps == [] then copied == d
      else |steps| == 1 && steps[0].Publish? && steps[0].to == to && scheme.KeyOf(steps[0].content) !in d.stores[to]
           && copied == Apply(scheme, d, steps[0])
    ensures Reached(scheme, d, from, to, steps, copied)
  {
    assert Reached(scheme, d, from, to, [], d);
    if steps != [] {
      OneStepMore(scheme, d, from, to, [], d, steps[0]);
      assert [] + [steps[0]] == steps;
    }
  }

  /** One object of a page: copy it and relabel its rows, or stop. */
  method MigrateOne(scheme: Scheme, db: Database, source: Disk, target: Disk, from: string, to: string, blob: Object, calm: bool)
    returns (ok: bool, ghost steps: seq<Step>)
    requires source != target && Backend(from) && Backend(to) && from != to
    requires Describes(scheme, db.rows, from, blob) && blob.key != ""
    modifies db, target
    ensures Reached(scheme, old(State(db, source, target, from, to)), from, to, steps, State(db, source, target, from, to))
    ensures ok ==> db.rows == Relabelled(old(db.rows), from, to, blob.key)
    ensures Gained(scheme, source.objects, old(target.objects), target.objects, blob)
    ensures calm ==> (ok <==> Copyable(scheme, source.objects, to, old(target.objects), blob))
  {
    ghost var d := State(db, source, target, from, to);
    ok, steps := MigrateObject(scheme, source, target, to, blob, calm);
    ghost var copied := State(db, source, target, from, to);
    assert steps != [] ==> copied == Apply(scheme, d, steps[0]);
    CopyReached(scheme, d, copied, from, to, steps);
    if !ok { return; }
    ghost var moved;
    ok, moved := db.Move(from, to, blob.key, blob.locations, calm);
    if moved {
      OneStepMore(scheme, d, from, to, steps, copied, Relabel(from, to, blob));
      steps := steps + [Relabel(from, to, blob)];
    }
  }

  /** From after to key, the cursor passes exactly the rows of key. */
  ghost predicate Advances(rows: map<Location, Row>, from: string, after: Key, key: Key) {
    forall loc | loc in rows && rows[loc].backend == from ::
      Passed(rows[loc].key, key) <==> Passed(rows[loc].key, after) || rows[loc].key == key
  }

  lemma PageAdvances(scheme: Scheme, rows: map<Location, Row>, from: string, start: Key, page: seq<Object>, i: nat)
    requires IsPage(scheme, rows, from, start, page) && i < |page|
    ensures Below(Cursor(start, page, i), page[i].key) && Advances(rows, from, Cursor(start, page, i), page[i].key)
  {
    forall loc | loc in rows && rows[loc].backend == from
      ensures Passed(rows[loc].key, page[i].key) <==> Passed(rows[loc].key, Cursor(start, page, i)) || rows[loc].key == page[i].key
    {
      CursorMoves(scheme, rows, from, start, page, i, loc);
    }
  }

  lemma TableAdvances(rows: map<Location, Row>, from: string, to: string, after: Key, key: Key)
    requires from != to && Advances(rows, from, after, key)
    ensures Relabelled(Progress(rows, from, to, after), from, to, key) == Progress(rows, from, to, key)
  {
  }

  lemma RowsAdvance(rows: map<Location, Row>, from: string, after: Key, key: Key)
    requires Below(after, key) && Advances(rows, from, after, key)
    ensures |PassedRows(rows, from, key)| == |PassedRows(rows, from, after)| + |At(rows, from, key)|
  {
    assert PassedRows(rows, from, key) == PassedRows(rows, from, after) + At(rows, from, key);
    assert PassedRows(rows, from, after) !! At(rows, from, key);
  }

  lemma KeysAdvance(rows: map<Location, Row>, from: string, after: Key, key: Key)
    requires Below(after, key) && Advances(rows, from, after, key) && At(rows, from, key) != {}
    ensures key !in PassedKeys(rows, from, after) && PassedKeys(rows, from, key) == PassedKeys(rows, from, after) + {key}
  {
    var was, now := PassedRows(rows, from, after), PassedRows(rows, from, key);
    var w :| w in At(rows, from, key);
    assert w in now;
    assert forall loc | loc in was :: loc in now;
    assert forall loc | loc in now :: loc in was || rows[loc].key == key;
    assert PassedKeys(rows, from, key) == PassedKeys(rows, from, after) + {key};
    assert key !in PassedKeys(rows, from, after);
  }

  lemma AheadShrinks(rows: map<Location, Row>, from: string, after: Key, key: Key)
    requires Below(after, key) && At(rows, from, key) != {}
    ensures |Ahead(rows, from, key)| < |Ahead(rows, from, after)|
  {
    var w :| w in At(rows, from, key);
    BelowIsStrictTotal(key, key);
    forall loc | loc in Ahead(rows, from, key) ensures loc in Ahead(rows, from, after) {
      BelowIsTransitive(after, key, rows[loc].key);
    }
    assert w in Ahead(rows, from, after) && w !in Ahead(rows, from, key);
    SubsetSmaller(Ahead(rows, from, key), Ahead(rows, from, after) - {w});
  }

  lemma SubsetSmaller<T>(a: set<T>, b: set<T>)
    requires a <= b
    ensures |a| <= |b|
  {
    assert b == a + (b - a);
  }

  /** The size the rows of an object state. */
  ghost function SizeOf(rows: map<Location, Row>, from: string, key: Key): int {
    if At(rows, from, key) == {} then 0
    else
      var loc :| loc in At(rows, from, key);
      rows[loc].size
  }

  ghost function TotalSize(rows: map<Location, Row>, from: string, keys: set<Key>): int {
    if keys == {} then 0
    else
      var key :| key in keys;
      SizeOf(rows, from, key) + TotalSize(rows, from, keys - {key})
  }

  lemma {:induction false} TotalWithout(rows: map<Location, Row>, from: string, keys: set<Key>, key: Key)
    requires key in keys
    ensures TotalSize(rows, from, keys) == SizeOf(rows, from, key) + TotalSize(rows, from, keys - {key})
    decreases |keys|
  {
    var k :| k in keys && TotalSize(rows, from, keys) == SizeOf(rows, from, k) + TotalSize(rows, from, keys - {k});
    if k != key {
      TotalWithout(rows, from, keys - {k}, key);
      TotalWithout(rows, from, keys - {key}, k);
      assert keys - {k} - {key} == keys - {key} - {k};
    }
  }

  /** From start to after, the cursor passed this many keys and rows, and bytes of this size. */
  ghost predicate Counted(rows: map<Location, Row>, from: string, start: Key, after: Key, objects: nat, locations: nat, bytes: int) {
    && |PassedRows(rows, from, after)| == |PassedRows(rows, from, start)| + locations
    && |PassedKeys(rows, from, after)| == |PassedKeys(rows, from, start)| + objects
    && TotalSize(rows, from, PassedKeys(rows, from, after)) == TotalSize(rows, from, PassedKeys(rows, from, start)) + bytes
    && |Ahead(rows, from, after)| + objects <= |Ahead(rows, from, start)|
  }

  lemma CursorStep(scheme: Scheme, rows: map<Location, Row>, from: string, start: Key, page: seq<Object>, i: nat)
    requires IsPage(scheme, rows, from, start, page) && i < |page|
    ensures var after, blob := Cursor(start, page, i), page[i];
      && Below(after, blob.key) && Advances(rows, from, after, blob.key) && Describes(scheme, rows, from, blob)
      && Counted(rows, from, after, blob.key, 1, blob.locations, blob.size)
  {
    var after, key := Cursor(start, page, i), page[i].key;
    PageAdvances(scheme, rows, from, start, page, i);
    RowsAdvance(rows, from, after, key);
    KeysAdvance(rows, from, after, key);
    TotalWithout(rows, from, PassedKeys(rows, from, key), key);
    assert PassedKeys(rows, from, key) - {key} == PassedKeys(rows, from, after);
    AheadShrinks(rows, from, after, key);
  }

  /** The next object of a page, its steps appended to those taken so far. */
  method MigrateNext(scheme: Scheme, db: Database, source: Disk, target: Disk, from: string, to: string, dryRun: bool,
                     ghost rows: map<Location, Row>, ghost d: Durable, ghost soFar: seq<Step>, ghost after: Key, blob: Object, calm: bool)
    returns (ok: bool, ghost steps: seq<Step>)
    requires source != target && Backend(from) && Backend(to) && from != to
    requires Stands(db, rows, from, to, after, dryRun) && Below(after, blob.key)
    requires Advances(rows, from, after, blob.key) && Describes(scheme, rows, from, blob)
    requires Reached(scheme, d, from, to, soFar, State(db, source, target, from, to)) && (dryRun ==> soFar == [])
    modifies db, target
    ensures Reached(scheme, d, from, to, steps, State(db, source, target, from, to)) && (dryRun ==> steps == [])
    ensures ok ==> Stands(db, rows, from, to, blob.key, dryRun)
    ensures Gained(scheme, source.objects, old(target.objects), target.objects, blob)
    ensures calm && Copyable(scheme, source.objects, to, old(target.objects), blob) ==> ok
  {
    if dryRun { return true, soFar; }
    AheadUntouched(scheme, rows, from, to, after, blob);
    ok, steps := MigrateOne(scheme, db, source, target, from, to, blob, calm);
    RunsCompose(scheme, d, soFar, steps);
    steps := soFar + steps;
    TableAdvances(rows, from, to, after, blob.key);
  }

  /** Everything that holds at item i of a page that began at the cursor start. */
  ghost predicate AtItem(scheme: Scheme, db: Database, source: Disk, target: Disk, from: string, to: string, dryRun: bool,
                         rows: map<Location, Row>, d: Durable, start: Key, page: seq<Object>,
                         i: int, after: Key, locations: nat, bytes: int, steps: seq<Step>)
    reads db, source, target
  {
    && 0 <= i <= |page| && after == Cursor(start, page, i)
    && Stands(db, rows, from, to, after, dryRun)
    && Reached(scheme, d, from, to, steps, State(db, source, target, from, to)) && (dryRun ==> steps == [])
    && Counted(rows, from, start, after, i, locations, bytes)
  }

  /** One pass of the inner loop. */
  method PageItem(scheme: Scheme, db: Database, source: Disk, target: Disk, from: string, to: string, dryRun: bool,
                  ghost rows: map<Location, Row>, ghost d: Durable, ghost start: Key, page: seq<Object>,
                  i: nat, ghost after: Key, ghost locations: nat, ghost bytes: int, ghost soFar: seq<Step>, calm: bool)
    returns (ok: bool, ghost steps: seq<Step>)
    requires source != target && Backend(from) && Backend(to) && from != to && i < |page|
    requires IsPage(scheme, rows, from, start, page)
    requires AtItem(scheme, db, source, target, from, to, dryRun, rows, d, start, page, i, after, locations, bytes, soFar)
    modifies db, target
    ensures Reached(scheme, d, from, to, steps, State(db, source, target, from, to)) && (dryRun ==> steps == [])
    ensures ok ==> AtItem(scheme, db, source, target, from, to, dryRun, rows, d, start, page,
                          i + 1, page[i].key, locations + page[i].locations, bytes + page[i].size, steps)
    ensures old(ReadyHere(scheme, source, target, rows, from, to)) ==> ReadyHere(scheme, source, target, rows, from, to) && (calm ==> ok)
  {
    var cancelled: bool := *;
    if cancelled && !calm { return false, soFar; }
    CursorStep(scheme, rows, from, start, page, i);
    ghost var was := target.objects;
    ok, steps := MigrateNext(scheme, db, source, target, from, to, dryRun, rows, d, soFar, after, page[i], calm);
    ReadyItem(scheme, rows, from, to, source.objects, was, target.objects, page[i]);
  }

  lemma PageBegins(rows: map<Location, Row>, from: string, start: Key, page: seq<Object>)
    ensures Cursor(start, page, 0) == start && Counted(rows, from, start, start, 0, 0, 0)
  {
  }

  /** The inner loop: carries out one page from the cursor start; stops at the first failure. */
  method MigrateItems(scheme: Scheme, db: Database, source: Disk, target: Disk, from: string, to: string, dryRun: bool,
                      ghost rows: map<Location, Row>, ghost d: Durable, start: Key, page: seq<Object>, ghost soFar: seq<Step>, calm: bool)
    returns (ok: bool, after: Key, locations: nat, bytes: int, ghost steps: seq<Step>)
    requires source != target && Backend(from) && Backend(to) && from != to && page != []
    requires IsPage(scheme, rows, from, start, page)
    requires AtItem(scheme, db, source, target, from, to, dryRun, rows, d, start, page, 0, start, 0, 0, soFar)
    modifies db, target
    ensures Reached(scheme, d, from, to, steps, State(db, source, target, from, to)) && (dryRun ==> steps == [])
    ensures ok ==> AtItem(scheme, db, source, target, from, to, dryRun, rows, d, start, page, |page|, after, locations, bytes, steps)
    ensures old(ReadyHere(scheme, source, target, rows, from, to)) ==> ReadyHere(scheme, source, target, rows, from, to) && (calm ==> ok)
  {
    ghost var ready := ReadyHere(scheme, source, target, rows, from, to);
    ok, after, locations, bytes, steps := true, start, 0, 0, soFar;
    var i := 0;
    while i < |page|
      invariant 0 <= i <= |page|
      invariant AtItem(scheme, db, source, target, from, to, dryRun, rows, d, start, page, i, after, locations, bytes, steps)
      invariant ready ==> ReadyHere(scheme, source, target, rows, from, to)
    {
      ok, steps := PageItem(scheme, db, source, target, from, to, dryRun, rows, d, start, page, i, after, locations, bytes, steps, calm);
      if !ok { return; }
      after, locations, bytes := page[i].key, locations + page[i].locations, bytes + page[i].size;
      i := i + 1;
    }
    ok := true;
  }

  /** A page moves the table and the counts from its start to its last key. */
  method MigratePage(scheme: Scheme, db: Database, source: Disk, target: Disk, from: string, to: string, dryRun: bool,
                     ghost rows: map<Location, Row>, ghost d: Durable, start: Key, page: seq<Object>, ghost soFar: seq<Step>, calm: bool)
    returns (ok: bool, after: Key, locations: nat, bytes: int, ghost steps: seq<Step>)
    requires source != target && Backend(from) && Backend(to) && from != to && page != []
    requires IsPage(scheme, rows, from, start, page)
    requires Stands(db, rows, from, to, start, dryRun)
    requires Reached(scheme, d, from, to, soFar, State(db, source, target, from, to)) && (dryRun ==> soFar == [])
    modifies db, target
    ensures Reached(scheme, d, from, to, steps, State(db, source, target, from, to)) && (dryRun ==> steps == [])
    ensures ok ==> Stands(db, rows, from, to, after, dryRun) && Counted(rows, from, start, after, |page|, locations, bytes)
    ensures old(ReadyHere(scheme, source, target, rows, from, to)) ==> ReadyHere(scheme, source, target, rows, from, to) && (calm ==> ok)
  {
    PageBegins(rows, from, start, page);
    ok, after, locations, bytes, steps := MigrateItems(scheme, db, source, target, from, to, dryRun, rows, d, start, page, soFar, calm);
  }

  /** What a flag names. */
  function Flag(text: string): string {
    Lower(Trim(text))
  }

  /** Arguments and configuration the command goes to work with. */
  predicate Acceptable(from: string, to: string, configured: string, batch: int) {
    Backend(from) && Backend(to) && from != to && 0 < batch <= 10000 && configured == from
  }

  ghost function Named(rows: map<Location, Row>, from: string): set<Location> {
    set loc | loc in rows && rows[loc].backend == from && rows[loc].key != ""
  }

  /** A normal exit: every source-labelled row whose key is not empty was passed and counted, and
      -- unless it was a dry run -- exactly those were relabelled. */
  ghost predicate Finished(rows: map<Location, Row>, now: map<Location, Row>, from: string, to: string, dryRun: bool, report: Report)
    requires report.Done?
  {
    var named := Named(rows, from); var keys := set loc | loc in named :: rows[loc].key;
    && report.locations == |named| && report.objects == |keys| && report.bytes == TotalSize(rows, from, keys)
    && now == map loc | loc in rows :: if !dryRun && loc in named then rows[loc].(backend := to) else rows[loc]
  }

  /** The table, the steps and the counts once the cursor stands at after. */
  ghost predicate Working(scheme: Scheme, db: Database, source: Disk, target: Disk, from: string, to: string, dryRun: bool,
                          rows: map<Location, Row>, d: Durable, after: Key, report: Report, steps: seq<Step>)
    reads db, source, target
  {
    && Stands(db, rows, from, to, after, dryRun)
    && Reached(scheme, d, from, to, steps, State(db, source, target, from, to)) && (dryRun ==> steps == [])
    && Tally(rows, from, after, report)
  }

  /** The counts are those of what the cursor has passed. */
  ghost predicate Tally(rows: map<Location, Row>, from: string, after: Key, report: Report) {
    && report.Done?
    && report.locations == |PassedRows(rows, from, after)| && report.objects == |PassedKeys(rows, from, after)|
    && report.bytes == TotalSize(rows, from, PassedKeys(rows, from, after))
  }

  lemma TallyAdds(rows: map<Location, Row>, from: string, start: Key, after: Key, report: Report, objects: nat, locations: nat, bytes: int)
    requires Tally(rows, from, start, report) && Counted(rows, from, start, after, objects, locations, bytes) && objects > 0
    ensures Tally(rows, from, after, Done(report.objects + objects, report.locations + locations, report.bytes + bytes))
    ensures |Ahead(rows, from, after)| < |Ahead(rows, from, start)|
  {
  }

  lemma WorkIsFinished(now: map<Location, Row>, rows: map<Location, Row>, from: string, to: string, after: Key, dryRun: bool, report: Report)
    requires from != to && KeysAfter(now, from, after) == {}
    requires now == if dryRun then rows else Progress(rows, from, to, after)
    requires Tally(rows, from, after, report)
    ensures Finished(rows, now, from, to, dryRun, report)
  {
    NothingAhead(now, rows, from, to, after, dryRun);
  }

  lemma PageOfTable(scheme: Scheme, now: map<Location, Row>, rows: map<Location, Row>, from: string, to: string, after: Key, dryRun: bool, page: seq<Object>)
    requires from != to && now == if dryRun then rows else Progress(rows, from, to, after)
    requires IsPage(scheme, now, from, after, page)
    ensures IsPage(scheme, rows, from, after, page)
  {
    if !dryRun { PageOfStart(scheme, rows, from, to, after, page); }
  }

  /** One pass of the outer loop over a page that is not empty. */
  method TakePage(scheme: Scheme, db: Database, source: Disk, target: Disk, from: string, to: string, dryRun: bool,
                  ghost rows: map<Location, Row>, ghost d: Durable, start: Key, page: seq<Object>, soFar: Report, ghost taken: seq<Step>, calm: bool)
    returns (ok: bool, after: Key, count: Report, ghost steps: seq<Step>)
    requires source != target && Backend(from) && Backend(to) && from != to && page != []
    requires IsPage(scheme, db.rows, from, start, page)
    requires Working(scheme, db, source, target, from, to, dryRun, rows, d, start, soFar, taken)
    modifies db, target
    ensures Reached(scheme, d, from, to, steps, State(db, source, target, from, to)) && (dryRun ==> steps == [])
    ensures ok ==>
      && Working(scheme, db, source, target, from, to, dryRun, rows, d, after, count, steps)
      && |Ahead(rows, from, after)| < |Ahead(rows, from, start)|
    ensures old(ReadyHere(scheme, source, target, rows, from, to)) ==> ReadyHere(scheme, source, target, rows, from, to) && (calm ==> ok)
  {
    PageOfTable(scheme, db.rows, rows, from, to, start, dryRun, page);
    var moved, size;
    ok, after, moved, size, steps := MigratePage(scheme, db, source, target, from, to, dryRun, rows, d, start, page, taken, calm);
    count := Done(soFar.objects + |page|, soFar.locations + moved, soFar.bytes + size);
    if ok { TallyAdds(rows, from, start, after, soFar, |page|, moved, size); }
  }

  /** The next page of what is left. */
  method ListNext(scheme: Scheme, db: Database, source: Disk, target: Disk, from: string, to: string,
                  ghost rows: map<Location, Row>, ghost d: Durable, ghost steps: seq<Step>, after: Key, batch: nat, calm: bool)
    returns (listing: Listing)
    requires batch > 0 && from != to && d.rows == rows
    requires Reached(scheme, d, from, to, steps, State(db, source, target, from, to))
    ensures listing.Page? ==>
      IsPage(scheme, db.rows, from, after, listing.objects) && (listing.objects == [] <==> KeysAfter(db.rows, from, after) == {})
    ensures calm && ReadyHere(scheme, source, target, rows, from, to) ==> listing.Page?
  {
    NextPageReady(scheme, d, State(db, source, target, from, to), from, to, steps, source.objects, target.objects, after);
    listing := db.List(scheme, from, after, batch, calm);
  }

  lemma NothingPassed(rows: map<Location, Row>, from: string, to: string, dryRun: bool)
    ensures Tally(rows, from, "", Done(0, 0, 0)) && Progress(rows, from, to, "") == rows
  {
    assert PassedRows(rows, from, "") == {};
  }

  /** The paging loop: its cursor has the rows still ahead as termination measure. */
  method MigrateAll(scheme: Scheme, db: Database, source: Disk, target: Disk, from: string, to: string, batch: nat, dryRun: bool, calm: bool)
    returns (report: Report, ghost steps: seq<Step>)
    requires source != target && Backend(from) && Backend(to) && from != to && batch > 0
    modifies db, target
    ensures Reached(scheme, old(State(db, source, target, from, to)), from, to, steps, State(db, source, target, from, to))
    ensures dryRun ==> steps == []
    ensures report.Done? ==> Finished(old(db.rows), db.rows, from, to, dryRun, report)
    ensures old(ReadyHere(scheme, source, target, db.rows, from, to)) ==>
      ReadyHere(scheme, source, target, old(db.rows), from, to) && (calm ==> report.Done?)
  {
    ghost var ready := ReadyHere(scheme, source, target, db.rows, from, to);
    steps := [];
    ghost var d, rows := State(db, source, target, from, to), db.rows;
    var after, count := "", Done(0, 0, 0);
    NothingPassed(rows, from, to, dryRun);
    while true
      invariant Working(scheme, db, source, target, from, to, dryRun, rows, d, after, count, steps)
      invariant ready ==> ReadyHere(scheme, source, target, rows, from, to)
      decreases |Ahead(rows, from, after)|
    {
      var listing := ListNext(scheme, db, source, target, from, to, rows, d, steps, after, batch, calm);
      if listing.ListError? { return Stopped, steps; }
      if listing.objects == [] {
        WorkIsFinished(db.rows, rows, from, to, after, dryRun, count);
        return count, steps;
      }
      var ok;
      ok, after, count, steps := TakePage(scheme, db, source, target, from, to, dryRun, rows, d, after, listing.objects, count, steps, calm);
      if !ok { return Stopped, steps; }
    }
  }

  /** The command.  Every outcome is a legal run of durable steps, so a crash point of it is one
      too; the source is only read; a dry run changes nothing. */
  method Run(scheme: Scheme, db: Database, source: Disk, target: Disk, fromFlag: string, toFlag: string,
             configured: string, batch: int, dryRun: bool, calm: bool)
    returns (report: Report, ghost steps: seq<Step>)
    requires source != target
    modifies db, target
    ensures source.objects == old(source.objects) && source.unsynced == old(source.unsynced)
    ensures var from, to := Flag(fromFlag), Flag(toFlag);
      Reached(scheme, old(State(db, source, target, from, to)), from, to, steps, State(db, source, target, from, to))
    ensures dryRun ==> steps == []
    ensures !Acceptable(Flag(fromFlag), Flag(toFlag), configured, batch) ==> report == Stopped && steps == []
    ensures report.Done? ==> Finished(old(db.rows), db.rows, Flag(fromFlag), Flag(toFlag), dryRun, report)
    ensures var from, to := Flag(fromFlag), Flag(toFlag);
      old(ReadyHere(scheme, source, target, db.rows, from, to)) ==>
        && ReadyHere(scheme, source, target, db.rows, from, to)
        && (calm && Acceptable(from, to, configured, batch) ==> report.Done?)
  {
    var from, to := Flag(fromFlag), Flag(toFlag);
    if !Backend(from) || !Backend(to) || from == to || batch <= 0 || batch > 10000 || configured != from {
      return Stopped, [];
    }
    var connected: bool := *;
    if !connected && !calm { return Stopped, []; }
    ghost var d, ready := State(db, source, target, from, to), ReadyHere(scheme, source, target, db.rows, from, to);
    report, steps := MigrateAll(scheme, db, source, target, from, to, batch, dryRun, calm);
    if ready {
      OneWay(scheme, d, steps, from, to);
      ReadyLater(scheme, d.rows, db.rows, from, to, source.objects, target.objects);
    }
  }

  /** Whatever cut a run off, a calm one after it carries the migration to its end: nothing is left
      on the source but rows under the empty key. */
  method RunAgain(scheme: Scheme, db: Database, source: Disk, target: Disk, fromFlag: string, toFlag: string, batch: int)
    returns (first: Report, second: Report)
    requires source != target && Acceptable(Flag(fromFlag), Flag(toFlag), Flag(fromFlag), batch)
    requires ReadyHere(scheme, source, target, db.rows, Flag(fromFlag), Flag(toFlag))
    modifies db, target
    ensures second.Done? && db.rows.Keys == old(db.rows).Keys
    ensures forall loc | loc in db.rows ::
      && (db.rows[loc].backend == Flag(fromFlag) <==> old(db.rows)[loc].backend == Flag(fromFlag) && old(db.rows)[loc].key == "")
      && db.rows[loc] == old(db.rows)[loc].(backend := db.rows[loc].backend)
  {
    ghost var from, to := Flag(fromFlag), Flag(toFlag);
    ghost var d, steps := State(db, source, target, from, to), [];
    first, steps := Run(scheme, db, source, target, fromFlag, toFlag, Flag(fromFlag), batch, false, false);
    ghost var between := db.rows;
    OnlyLabels(scheme, d, steps, from, to);
    second, steps := Run(scheme, db, source, target, fromFlag, toFlag, Flag(fromFlag), batch, false, true);
    forall loc | loc in between
      ensures loc in db.rows && (db.rows[loc].backend == from <==> between[loc].backend == from && between[loc].key == "")
    {
      LeftOnSource(between, db.rows, from, to, second, loc);
    }
  }

  /** Steps one way change nothing but labels, and those of source rows only. */
  lemma {:induction false} OnlyLabels(scheme: Scheme, d: Durable, steps: seq<Step>, from: string, to: string)
    requires LegalRun(scheme, d, steps) && Directed(steps, from, to) && KeysNamed(steps)
    ensures var now := Exec(scheme, d, steps).rows;
      && now.Keys == d.rows.Keys
      && (forall loc | loc in d.rows ::
            && now[loc] == d.rows[loc].(backend := now[loc].backend)
            && (now[loc].backend != d.rows[loc].backend ==> d.rows[loc].backend == from && now[loc].backend == to && d.rows[loc].key != ""))
  {
    if steps != [] {
      assert steps[|steps| - 1] in steps && forall s | s in steps[..|steps| - 1] :: s in steps;
      OnlyLabels(scheme, d, steps[..|steps| - 1], from, to);
    }
  }

  lemma NothingAhead(now: map<Location, Row>, rows: map<Location, Row>, from: string, to: string, after: Key, dryRun: bool)
    requires from != to && KeysAfter(now, from, after) == {}
    requires now == if dryRun then rows else Progress(rows, from, to, after)
    ensures var named := Named(rows, from);
      && PassedRows(rows, from, after) == named
      && PassedKeys(rows, from, after) == (set loc | loc in named :: rows[loc].key)
      && now == map loc | loc in rows :: if !dryRun && loc in named then rows[loc].(backend := to) else rows[loc]
  {
    assert forall loc | loc in rows && rows[loc].backend == from && Below(after, rows[loc].key) :: now[loc] == rows[loc];
    assert forall loc | loc in rows && rows[loc].backend == from && Below(after, rows[loc].key) :: rows[loc].key in KeysAfter(now, from, after);
  }

  /** After a normal exit a row is still on the source exactly when it was there under the empty
      key: paging starts strictly behind it. */
  lemma LeftOnSource(rows: map<Location, Row>, now: map<Location, Row>, from: string, to: string, report: Report, loc: Location)
    requires report.Done? && from != to && Finished(rows, now, from, to, false, report) && loc in rows
    ensures loc in now && (now[loc].backend == from <==> rows[loc].backend == from && rows[loc].key == "")
  {
  }

  /** The schema allows such a row; the first page is then empty and the command is done at once. */
  method EmptyKeyInstance(scheme: Scheme, db: Database, source: Disk, target: Disk) returns (report: Report)
    requires source != target && db.rows == map["a" := Row(LOCALFS, "", 1, [])]
    modifies db, target
    ensures report == Done(0, 0, 0) && db.rows == old(db.rows)
  {
    ghost var steps;
    assert Named(db.rows, LOCALFS) == {};
    FlagNames();
    report, steps := Run(scheme, db, source, target, LOCALFS, S3, LOCALFS, 250, false, true);
    assert report.Done? ==> db.rows["a"] == old(db.rows)["a"];
  }

  /** A flag names a backend in any case, with white space around it. */
  lemma FlagReads(front: string, back: string)
    requires (forall c | c in front :: Space(c)) && (forall c | c in back :: Space(c))
    ensures Flag(front + "LocalFS" + back) == LOCALFS && Flag(front + "S3" + back) == S3
  {
    TrimAround(front, "LocalFS", back);
    TrimAround(front, "S3", back);
    assert Lower("LocalFS") == LOCALFS && Lower("S3") == S3;
  }

  lemma FlagNames()
    ensures Flag(LOCALFS) == LOCALFS && Flag(S3) == S3
  {
    TrimIsTrimmed(LOCALFS);
    TrimIsTrimmed(S3);
    assert forall i | 0 <= i < |LOCALFS| :: LowerChar(LOCALFS[i]) == LOCALFS[i];
    assert forall i | 0 <= i < |S3| :: LowerChar(S3[i]) == S3[i];
  }
}
