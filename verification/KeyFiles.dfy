/**
 A signing-key rotation on the file system, step by step, with a crash possible between any
 two steps (cmd/telegramloginkeygen/main.go): the key file is created exclusively, written and
 synced; then the manifest is written to a temporary file, synced and renamed into place.
 Data that was written but not synced may be lost in a crash.  The program never syncs the
 directory, so until the system writes it back a crash may also undo the creation of key files
 and put an earlier manifest back in place.
 */
module KeyFiles {
  import opened KeyRotation

  const MANIFEST := "signing-keys.json"

  datatype Data = Pem(kid: KeyId) | Manifest(keys: seq<Entry>)

  /** Created but not completely written, written but not synced, or synced. */
  datatype File = Torn | Buffered(data: Data) | Durable(data: Data)

  datatype Phase =
    | Idle
    | KeyOpen(c: Command) | KeyWritten(c: Command) | KeySynced(c: Command)
    | TempOpen(c: Command, temp: string) | TempWritten(c: Command, temp: string) | TempSynced(c: Command, temp: string)

  /** The directory, the lock file, where the running rotation stands, and the history the visible
      manifest has gone through.  links are the keys whose directory entry may not be on disk yet,
      shown the histories whose manifest the disk may still show, the visible one last. */
  datatype Dir = Dir(files: map<string, File>, locked: bool, phase: Phase, world: World, links: set<KeyId>, shown: seq<World>)

  datatype Action =
    | Begin(c: Command)
    | WriteKey | SyncKey
    | OpenTemp(temp: string) | WriteTemp | SyncTemp
    | Rename
    | Fail(removed: bool)
    | WriteBack
    | Crash(lost: set<string>, dropped: set<KeyId>, back: nat)
    | RemoveLock

  function KeyFile(kid: KeyId): string {
    "signing-" + kid + ".pem"
  }

  function Created(d: Dir, c: Command): Dir {
    d.(files := d.files[KeyFile(c.kid) := Torn], locked := true, phase := KeyOpen(c), links := d.links + {c.kid})
  }

  /** The visible manifest, when it can be read. */
  predicate Visible(d: Dir, keys: seq<Entry>) {
    MANIFEST in d.files && d.files[MANIFEST] == Durable(Manifest(keys))
  }

  /** One step; a step that is not next leaves the directory alone. */
  function Step(d: Dir, a: Action): Dir {
    match a
    case Begin(c) =>
      // Lock, read the manifest, retire, create the key file exclusively.
      if d.phase == Idle && !d.locked && Visible(d, d.world.keys) && Admits(d.world, c) && KeyFile(c.kid) !in d.files
      then Created(d, c) else d
    case WriteKey =>
      if d.phase.KeyOpen?
      then d.(files := d.files[KeyFile(d.phase.c.kid) := Buffered(Pem(d.phase.c.kid))], phase := KeyWritten(d.phase.c)) else d
    case SyncKey =>
      if d.phase.KeyWritten?
      then d.(files := d.files[KeyFile(d.phase.c.kid) := Durable(Pem(d.phase.c.kid))], phase := KeySynced(d.phase.c)) else d
    case OpenTemp(temp) =>
      if d.phase.KeySynced? && temp !in d.files && "." <= temp
      then d.(files := d.files[temp := Torn], phase := TempOpen(d.phase.c, temp)) else d
    case WriteTemp =>
      if d.phase.TempOpen? && Accepts(d.world, d.phase.c)
      then d.(files := d.files[d.phase.temp := Buffered(Manifest(Next(d.world, d.phase.c).keys))],
              phase := TempWritten(d.phase.c, d.phase.temp)) else d
    case SyncTemp =>
      if d.phase.TempWritten? && d.phase.temp in d.files && d.files[d.phase.temp].Buffered?
      then d.(files := d.files[d.phase.temp := Durable(d.files[d.phase.temp].data)],
              phase := TempSynced(d.phase.c, d.phase.temp)) else d
    case Rename =>
      if d.phase.TempSynced? && d.phase.temp in d.files && Accepts(d.world, d.phase.c)
      then Renamed(d, d.phase.c, d.phase.temp) else d
    case Fail(removed) =>
      // The deferred clean-up tries to remove what this run had only half written.
      d.(files := if removed then d.files - Unfinished(d.phase) else d.files, locked := d.locked && d.phase == Idle, phase := Idle)
    case WriteBack => d.(links := {}, shown := [d.world])
    case Crash(lost, dropped, back) => if back < |d.shown| then Crashed(d, lost, dropped, d.shown[back]) else d
    case RemoveLock => if d.phase == Idle then d.(locked := false) else d
  }

  function Renamed(d: Dir, c: Command, temp: string): Dir
    requires temp in d.files && Accepts(d.world, c)
  {
    var next := Next(d.world, c);
    Dir((d.files - {temp})[MANIFEST := d.files[temp]], false, Idle, next, d.links, d.shown + [next])
  }

  function Unfinished(p: Phase): set<string> {
    if p.KeyOpen? || p.KeyWritten? then {KeyFile(p.c.kid)}
    else if p.TempOpen? || p.TempWritten? || p.TempSynced? then {p.temp}
    else {}
  }

  /** What is found after a crash: of the key files whose entries were not written back some are
      gone, and the manifest is one of those the disk could show. */
  function Crashed(d: Dir, lost: set<string>, dropped: set<KeyId>, w: World): Dir {
    var gone := set kid | kid in dropped && kid in d.links :: KeyFile(kid);
    var left := map n | n in d.files && n !in gone :: Settle(d.files[n], n in lost);
    Dir(left[MANIFEST := Durable(Manifest(w.keys))], d.locked, Idle, w, {}, [w])
  }

  /** What a crash leaves of a file: unsynced data arrives or is lost. */
  function Settle(f: File, lost: bool): File {
    if f.Buffered? then (if lost then Torn else Durable(f.data)) else f
  }

  // ---------------------------------------------------------------------------
  // The invariant
  // ---------------------------------------------------------------------------

  lemma KeyFileInjective(a: KeyId, b: KeyId)
    ensures KeyFile(a) == KeyFile(b) ==> a == b
  {
    assert a == KeyFile(a)[8..8 + |a|] && b == KeyFile(b)[8..8 + |b|];
  }

  lemma KeyFileNames(kid: KeyId)
    ensures KeyFile(kid) != MANIFEST && !("." <= KeyFile(kid)) && !("." <= MANIFEST)
  {
    assert KeyFile(kid)[0] == 's' && KeyFile(kid)[|KeyFile(kid)| - 1] == 'm';
    assert MANIFEST[0] == 's' && MANIFEST[|MANIFEST| - 1] == 'n';
  }

  ghost predicate PhaseOk(d: Dir) {
    d.phase != Idle ==>
      var c := d.phase.c; var key := KeyFile(c.kid);
      && d.locked && Accepts(d.world, c) && key in d.files
      && d.files[key] == (if d.phase.KeyOpen? then Torn else if d.phase.KeyWritten? then Buffered(Pem(c.kid)) else Durable(Pem(c.kid)))
      && (d.phase.TempOpen? || d.phase.TempWritten? || d.phase.TempSynced? ==>
            var keys := Next(d.world, c).keys; var temp := d.phase.temp;
            && temp in d.files && "." <= temp
            && d.files[temp] == (if d.phase.TempOpen? then Torn else if d.phase.TempWritten? then Buffered(Manifest(keys)) else Durable(Manifest(keys))))
  }

  ghost predicate HasKey(d: Dir, kid: KeyId) {
    KeyFile(kid) in d.files && d.files[KeyFile(kid)] == Durable(Pem(kid))
  }

  /** Every history the disk may show is part of the visible one. */
  ghost predicate ShownOk(d: Dir) {
    && |d.shown| > 0 && d.shown[|d.shown| - 1] == d.world
    && (forall i | 0 <= i < |d.shown| :: Inv(d.shown[i]) && d.shown[i].created <= d.world.created)
  }

  /** The visible manifest is whole, and every key it ever held has its complete key file. */
  ghost predicate DirInv(d: Dir) {
    && Inv(d.world)
    && Visible(d, d.world.keys)
    && (forall kid | kid in d.world.created :: HasKey(d, kid))
    && PhaseOk(d)
    && ShownOk(d)
  }

  /** The file of the running rotation is nobody else's. */
  lemma OwnFile(d: Dir)
    requires DirInv(d) && d.phase != Idle
    ensures KeyFile(d.phase.c.kid) != MANIFEST && !("." <= KeyFile(d.phase.c.kid)) && !("." <= MANIFEST)
    ensures forall kid | kid in d.world.created ::
      KeyFile(kid) != KeyFile(d.phase.c.kid) && KeyFile(kid) != MANIFEST && !("." <= KeyFile(kid))
  {
    KeyFileNames(d.phase.c.kid);
    forall kid | kid in d.world.created
      ensures KeyFile(kid) != KeyFile(d.phase.c.kid) && KeyFile(kid) != MANIFEST && !("." <= KeyFile(kid))
    {
      KeyFileNames(kid);
      KeyFileInjective(kid, d.phase.c.kid);
    }
  }

  lemma RenameKeepsInv(d: Dir)
    requires DirInv(d) && d.phase.TempSynced?
    ensures DirInv(Step(d, Rename))
  {
    OwnFile(d);
    RotationKeepsInv(d.world, d.phase.c);
    var d' := Step(d, Rename);
    forall kid | kid in d'.world.created ensures HasKey(d', kid) { assert kid in d.world.created || kid == d.phase.c.kid; }
  }

  /** A crash loses key files in an order the program allows for: none that belongs to the history
      whose manifest is back.  So it is when directory operations reach the disk in the order in
      which they were issued, since a key file is created before the manifest that lists it. */
  predicate InOrder(d: Dir, a: Action) {
    a.Crash? && a.back < |d.shown| ==> forall kid | kid in d.shown[a.back].created :: !(kid in a.dropped && kid in d.links)
  }

  lemma CrashedFile(d: Dir, lost: set<string>, dropped: set<KeyId>, w: World, kid: KeyId)
    ensures KeyFile(kid) in Crashed(d, lost, dropped, w).files <==> KeyFile(kid) in d.files && !(kid in dropped && kid in d.links)
    ensures KeyFile(kid) in Crashed(d, lost, dropped, w).files ==>
      Crashed(d, lost, dropped, w).files[KeyFile(kid)] == Settle(d.files[KeyFile(kid)], KeyFile(kid) in lost)
  {
    KeyFileNames(kid);
    forall k | KeyFile(k) == KeyFile(kid) ensures k == kid { KeyFileInjective(k, kid); }
  }

  lemma CrashLeaves(d: Dir, lost: set<string>, dropped: set<KeyId>, back: nat, kid: KeyId)
    requires back < |d.shown| && HasKey(d, kid)
    ensures HasKey(Step(d, Crash(lost, dropped, back)), kid) <==> !(kid in dropped && kid in d.links)
  {
    CrashedFile(d, lost, dropped, d.shown[back], kid);
  }

  lemma CrashKeepsInv(d: Dir, lost: set<string>, dropped: set<KeyId>, back: nat)
    requires DirInv(d) && InOrder(d, Crash(lost, dropped, back))
    ensures DirInv(Step(d, Crash(lost, dropped, back)))
  {
    if back < |d.shown| {
      var d' := Step(d, Crash(lost, dropped, back));
      forall kid | kid in d'.world.created ensures HasKey(d', kid) { CrashLeaves(d, lost, dropped, back, kid); }
    }
  }

  lemma BeginKeepsInv(d: Dir, c: Command)
    requires DirInv(d)
    ensures DirInv(Step(d, Begin(c)))
  {
    KeyFileNames(c.kid);
    assert c.kid in d.world.created ==> HasKey(d, c.kid);
  }

  /** Rewriting one file of the running rotation leaves the keys and the manifest alone. */
  lemma WriteLeavesRest(d: Dir, d': Dir, name: string)
    requires DirInv(d) && d.phase != Idle && d'.world == d.world && d'.shown == d.shown
    requires name in Unfinished(d.phase) || name == KeyFile(d.phase.c.kid) || (name !in d.files && "." <= name)
    requires name in d'.files && d'.files == d.files[name := d'.files[name]]
    ensures Visible(d', d'.world.keys) && (forall kid | kid in d'.world.created :: HasKey(d', kid)) && ShownOk(d')
  {
    OwnFile(d);
    forall kid | kid in d'.world.created ensures HasKey(d', kid) { assert HasKey(d, kid); }
  }

  lemma KeyWriteKeepsInv(d: Dir, a: Action)
    requires DirInv(d) && (a == WriteKey || a == SyncKey)
    ensures DirInv(Step(d, a))
  {
    if Step(d, a) != d { WriteLeavesRest(d, Step(d, a), KeyFile(d.phase.c.kid)); }
  }

  lemma TempWriteKeepsInv(d: Dir, a: Action)
    requires DirInv(d) && (a.OpenTemp? || a == WriteTemp || a == SyncTemp)
    ensures DirInv(Step(d, a))
  {
    if Step(d, a) != d {
      OwnFile(d);
      WriteLeavesRest(d, Step(d, a), if a.OpenTemp? then a.temp else d.phase.temp);
    }
  }

  lemma UnfinishedIsOwn(d: Dir)
    requires DirInv(d)
    ensures MANIFEST !in Unfinished(d.phase) && forall kid | kid in d.world.created :: KeyFile(kid) !in Unfinished(d.phase)
  {
    if d.phase != Idle { OwnFile(d); }
  }

  lemma FailKeepsInv(d: Dir, removed: bool)
    requires DirInv(d)
    ensures DirInv(Step(d, Fail(removed)))
  {
    UnfinishedIsOwn(d);
    var d' := Step(d, Fail(removed));
    forall kid | kid in d.world.created ensures HasKey(d', kid) { assert HasKey(d, kid); }
  }

  /** Creating, rewriting or removing a file that is neither the manifest nor a key of its
      history keeps the visible state. */
  lemma StepKeepsInv(d: Dir, a: Action)
    requires DirInv(d) && InOrder(d, a)
    ensures DirInv(Step(d, a))
  {
    match a
    case Begin(c) => BeginKeepsInv(d, c);
    case Rename => if d.phase.TempSynced? { RenameKeepsInv(d); }
    case Fail(removed) => FailKeepsInv(d, removed);
    case Crash(lost, dropped, back) => CrashKeepsInv(d, lost, dropped, back);
    case WriteBack =>
    case RemoveLock =>
    case WriteKey => KeyWriteKeepsInv(d, a);
    case SyncKey => KeyWriteKeepsInv(d, a);
    case _ => TempWriteKeepsInv(d, a);
  }

  // ---------------------------------------------------------------------------
  // Every run, with crashes anywhere
  // ---------------------------------------------------------------------------

  function Exec(d: Dir, actions: seq<Action>): Dir {
    if actions == [] then d else Step(Exec(d, actions[..|actions| - 1]), actions[|actions| - 1])
  }

  predicate OrderlyRun(d: Dir, actions: seq<Action>) {
    actions != [] ==>
      && OrderlyRun(d, actions[..|actions| - 1])
      && InOrder(Exec(d, actions[..|actions| - 1]), actions[|actions| - 1])
  }

  /** A directory just initialised and written back. */
  ghost predicate Initialised(d: Dir, rs: KeyId, es: KeyId, ed: KeyId, now: int) {
    && rs != es && es != ed && rs != ed
    && d.world == Initial(rs, es, ed, now) && d.phase == Idle && !d.locked
    && Visible(d, d.world.keys)
    && (forall kid | kid in d.world.created :: HasKey(d, kid))
    && d.links == {} && d.shown == [d.world]
  }

  lemma {:induction false} RunsKeepInv(d: Dir, actions: seq<Action>)
    requires DirInv(d) && OrderlyRun(d, actions)
    ensures DirInv(Exec(d, actions))
  {
    if actions != [] {
      RunsKeepInv(d, actions[..|actions| - 1]);
      StepKeepsInv(Exec(d, actions[..|actions| - 1]), actions[|actions| - 1]);
    }
  }

  /** The server finds a complete manifest with a complete key file for every entry. */
  ghost predicate Whole(d: Dir) {
    Visible(d, d.world.keys) && forall e | e in d.world.keys :: HasKey(d, e.kid)
  }

  lemma EntriesAreCreated(w: World)
    requires Inv(w)
    ensures forall e | e in w.keys :: e.kid in w.created
  {
    forall e | e in w.keys ensures e.kid in w.created { var i :| 0 <= i < |w.keys| && w.keys[i] == e; assert Honoured(w, w.keys[i]); }
  }

  /** At every point of every run the manifest is complete, every entry has a completely
      written, synced key file, and the server can load it. */
  lemma ManifestAlwaysWhole(d: Dir, rs: KeyId, es: KeyId, ed: KeyId, now: int, actions: seq<Action>)
    requires Initialised(d, rs, es, ed, now) && OrderlyRun(d, actions)
    ensures Whole(Exec(d, actions)) && Loadable(Exec(d, actions).world.keys)
  {
    ReachableInv(rs, es, ed, now, []);
    RunsKeepInv(d, actions);
    EntriesAreCreated(Exec(d, actions).world);
    HistoryIsRotations(d, rs, es, ed, now, actions);
    var w := Exec(d, actions).world;
    var commands :| w == Run(Initial(rs, es, ed, now), commands);
    ReachableLoads(rs, es, ed, now, commands);
  }

  /** After a crash, whatever the disk kept: the manifest is whole if and only if no key file it
      lists was lost with its directory entry. */
  lemma WholeExactly(d: Dir, lost: set<string>, dropped: set<KeyId>, back: nat)
    requires DirInv(d) && back < |d.shown|
    ensures Whole(Step(d, Crash(lost, dropped, back))) <==>
      forall e | e in d.shown[back].keys :: !(e.kid in dropped && e.kid in d.links)
  {
    EntriesAreCreated(d.shown[back]);
    forall e | e in d.shown[back].keys
      ensures HasKey(Step(d, Crash(lost, dropped, back)), e.kid) <==> !(e.kid in dropped && e.kid in d.links)
    {
      CrashLeaves(d, lost, dropped, back, e.kid);
    }
  }

  /** The disk kept the visible manifest but not all of its key files. */
  ghost predicate Breaks(d: Dir, lost: set<string>, dropped: set<KeyId>)
    requires |d.shown| > 0
  {
    !Whole(Step(d, Crash(lost, dropped, |d.shown| - 1)))
  }

  /** A crash can leave the visible manifest without one of its files if and only if it lists a key
      whose directory entry has not been written back. */
  lemma CanBreakExactly(d: Dir)
    requires DirInv(d)
    ensures (exists lost, dropped :: Breaks(d, lost, dropped)) <==> exists e | e in d.world.keys :: e.kid in d.links
  {
    var last := |d.shown| - 1;
    if e :| e in d.world.keys && e.kid in d.links {
      WholeExactly(d, {}, {e.kid}, last);
      assert Breaks(d, {}, {e.kid});
    } else {
      forall lost, dropped ensures !Breaks(d, lost, dropped) { WholeExactly(d, lost, dropped, last); }
    }
  }

  /** So it is right after every rotation whose key file was not written back before the rename:
      the program does not sync the directory in between. */
  lemma RotationCanLoseItsKey(d: Dir)
    requires DirInv(d) && d.phase.TempSynced? && d.phase.c.kid in d.links
    ensures DirInv(Step(d, Rename)) && exists lost, dropped :: Breaks(Step(d, Rename), lost, dropped)
  {
    RenameKeepsInv(d);
    var d' := Step(d, Rename);
    var e := d'.world.keys[|d'.world.keys| - 1];
    assert e in d'.world.keys && e.kid in d'.links;
    CanBreakExactly(d');
  }

  function RotationSteps(c: Command, temp: string): seq<Action> {
    [Begin(c), WriteKey, SyncKey, OpenTemp(temp), WriteTemp, SyncTemp, Rename]
  }

  lemma ThreeKept(d: Dir, a: Action, b: Action, c: Action)
    requires DirInv(d) && !a.Crash? && !b.Crash? && !c.Crash?
    ensures DirInv(Step(Step(Step(d, a), b), c))
  {
    StepKeepsInv(d, a);
    StepKeepsInv(Step(d, a), b);
    StepKeepsInv(Step(Step(d, a), b), c);
  }

  lemma KeyFileStep(d: Dir, c: Command)
    requires d.phase == Idle && !d.locked && Visible(d, d.world.keys) && Admits(d.world, c) && KeyFile(c.kid) !in d.files
    ensures var d' := Step(Step(Step(d, Begin(c)), WriteKey), SyncKey);
      d' == d.(files := d.files[KeyFile(c.kid) := Durable(Pem(c.kid))], locked := true, phase := KeySynced(c), links := d.links + {c.kid})
  {
    var d1 := Step(d, Begin(c));
    assert d1 == Created(d, c);
    var d2 := Step(d1, WriteKey);
    assert d2 == d1.(files := d1.files[KeyFile(c.kid) := Buffered(Pem(c.kid))], phase := KeyWritten(c));
  }

  lemma TempFileStep(d: Dir, c: Command, temp: string)
    requires Accepts(d.world, c) && d.phase == KeySynced(c) && temp !in d.files && "." <= temp
    ensures var d' := Step(Step(Step(d, OpenTemp(temp)), WriteTemp), SyncTemp);
      d'.phase == TempSynced(c, temp) && d'.world == d.world && d'.links == d.links
  {
    var d1 := Step(d, OpenTemp(temp));
    assert d1 == d.(files := d.files[temp := Torn], phase := TempOpen(c, temp));
    var d2 := Step(d1, WriteTemp);
    assert d2 == d1.(files := d1.files[temp := Buffered(Manifest(Next(d.world, c).keys))], phase := TempWritten(c, temp));
  }

  lemma ExecOneMore(d: Dir, actions: seq<Action>, k: nat)
    requires k < |actions|
    ensures Exec(d, actions[..k + 1]) == Step(Exec(d, actions[..k]), actions[k])
  {
    assert actions[..k + 1][..k] == actions[..k];
  }

  lemma SevenSteps(d: Dir, a: seq<Action>)
    requires |a| == 7
    ensures Exec(d, a) == Step(Step(Step(Step(Step(Step(Step(d, a[0]), a[1]), a[2]), a[3]), a[4]), a[5]), a[6])
  {
    assert a[..7] == a && a[..0] == [] && Exec(d, a[..0]) == d;
    ExecOneMore(d, a, 0);
    ExecOneMore(d, a, 1);
    ExecOneMore(d, a, 2);
    ExecOneMore(d, a, 3);
    ExecOneMore(d, a, 4);
    ExecOneMore(d, a, 5);
    ExecOneMore(d, a, 6);
  }

  lemma RenameShowsNext(d: Dir)
    requires DirInv(d) && d.phase.TempSynced?
    ensures Step(d, Rename).world == Next(d.world, d.phase.c)
  {
  }

  /** A rotation carried out without a fault ends in such a state. */
  lemma FaultlessRotation(d: Dir, c: Command, temp: string)
    requires DirInv(d) && d.phase == Idle && !d.locked && Accepts(d.world, c) && KeyFile(c.kid) !in d.files
    requires temp !in d.files && "." <= temp
    ensures var d' := Exec(d, RotationSteps(c, temp));
      && DirInv(d') && d'.world == Next(d.world, c)
      && exists lost, dropped :: Breaks(d', lost, dropped)
  {
    KeyFileStep(d, c);
    KeyFileNames(c.kid);
    var synced := Step(Step(Step(d, Begin(c)), WriteKey), SyncKey);
    ThreeKept(d, Begin(c), WriteKey, SyncKey);
    TempFileStep(synced, c, temp);
    ThreeKept(synced, OpenTemp(temp), WriteTemp, SyncTemp);
    SevenSteps(d, RotationSteps(c, temp));
    var ready := Step(Step(Step(synced, OpenTemp(temp)), WriteTemp), SyncTemp);
    RotationCanLoseItsKey(ready);
    RenameShowsNext(ready);
  }

  /** A run that fails gives the lock back and leaves the directory idle; if its clean-up works, the
      file it had only half written is gone, and nothing else is. */
  lemma FailEndsIdle(d: Dir, removed: bool)
    requires DirInv(d) && d.phase != Idle
    ensures var d' := Step(d, Fail(removed));
      && d'.phase == Idle && !d'.locked && d'.world == d.world
      && (!removed ==> d'.files == d.files)
      && (removed && (d.phase.KeyOpen? || d.phase.KeyWritten?) ==> d'.files == d.files - {KeyFile(d.phase.c.kid)})
      && (removed && d.phase.KeySynced? ==> d'.files == d.files)
      && (removed && (d.phase.TempOpen? || d.phase.TempWritten? || d.phase.TempSynced?) ==> d'.files == d.files - {d.phase.temp})
  {
    assert d.files - {} == d.files;
  }

  /** Once the system has written the directory back, no crash breaks the visible manifest. */
  lemma WriteBackProtects(d: Dir)
    requires DirInv(d)
    ensures DirInv(Step(d, WriteBack)) && forall lost, dropped :: !Breaks(Step(d, WriteBack), lost, dropped)
  {
    StepKeepsInv(d, WriteBack);
    CanBreakExactly(Step(d, WriteBack));
  }

  /** Before it is synced a key file can be torn by a crash; after it, its data is safe. */
  lemma SyncProtects(d: Dir, lost: set<string>)
    requires DirInv(d) && (d.phase.KeyWritten? || d.phase.KeySynced?) && d.shown != []
    ensures var kid := d.phase.c.kid; var d' := Step(d, Crash(lost, {}, |d.shown| - 1));
      HasKey(d', kid) <==> d.phase.KeySynced? || KeyFile(kid) !in lost
  {
    CrashedFile(d, lost, {}, d.shown[|d.shown| - 1], d.phase.c.kid);
  }

  /** A rotation begins exactly when nothing else runs or has left its lock behind, the manifest
      admits it, and no file has its key's name. */
  lemma BeginsExactly(d: Dir, c: Command)
    requires DirInv(d)
    ensures Step(d, Begin(c)).phase == KeyOpen(c) && Step(d, Begin(c)) != d <==>
      d.phase == Idle && !d.locked && Admits(d.world, c) && KeyFile(c.kid) !in d.files
    ensures d.phase != Idle || d.locked ==> Step(d, Begin(c)) == d
  {
  }

  /** A crash in the middle of a run leaves the lock behind: no rotation begins until it is removed
      by hand, and then as at any other time. */
  lemma StaleLock(d: Dir, lost: set<string>, dropped: set<KeyId>, back: nat, c: Command)
    requires DirInv(d) && d.phase != Idle && back < |d.shown|
    ensures var left := Step(d, Crash(lost, dropped, back));
      && left.phase == Idle && left.locked && Step(left, Begin(c)) == left
      && Step(left, RemoveLock) == left.(locked := false)
  {
  }

  // ---------------------------------------------------------------------------
  // Rotations one after the other
  // ---------------------------------------------------------------------------

  /** The directory is at rest. */
  ghost predicate AtRest(d: Dir) {
    DirInv(d) && d.phase == Idle && !d.locked
  }

  lemma {:induction false} ExecTwice(d: Dir, first: seq<Action>, second: seq<Action>)
    ensures Exec(d, first + second) == Exec(Exec(d, first), second)
    decreases |second|
  {
    if second == [] {
      assert first + second == first;
    } else {
      assert (first + second)[..|first + second| - 1] == first + second[..|second| - 1];
      ExecTwice(d, first, second[..|second| - 1]);
    }
  }

  /** A command that is refused leaves the directory as it was, step by step. */
  lemma RefusedRotation(d: Dir, c: Command, temp: string)
    requires AtRest(d) && !Admits(d.world, c)
    ensures Exec(d, RotationSteps(c, temp)) == d
  {
    SevenSteps(d, RotationSteps(c, temp));
  }

  /** One that is accepted ends at rest, with one more key file. */
  lemma AcceptedRotation(d: Dir, c: Command, temp: string)
    requires AtRest(d) && Accepts(d.world, c) && KeyFile(c.kid) !in d.files && temp !in d.files && "." <= temp
    ensures var d' := Exec(d, RotationSteps(c, temp));
      && AtRest(d') && d'.world == Next(d.world, c)
      && d'.files.Keys == d.files.Keys + {KeyFile(c.kid)}
  {
    FaultlessRotation(d, c, temp);
    SevenSteps(d, RotationSteps(c, temp));
    KeyFileNames(c.kid);
    KeyFileStep(d, c);
    var synced := Step(Step(Step(d, Begin(c)), WriteKey), SyncKey);
    TempFileNames(synced, c, temp);
    RenameEndsAtRest(Step(Step(Step(synced, OpenTemp(temp)), WriteTemp), SyncTemp), c, temp);
  }

  lemma TempFileNames(d: Dir, c: Command, temp: string)
    requires Accepts(d.world, c) && d.phase == KeySynced(c) && temp !in d.files && "." <= temp
    ensures var d' := Step(Step(Step(d, OpenTemp(temp)), WriteTemp), SyncTemp);
      && d'.phase == TempSynced(c, temp) && d'.world == d.world && temp in d'.files && d'.files.Keys == d.files.Keys + {temp}
  {
    TempFileStep(d, c, temp);
    var d1 := Step(d, OpenTemp(temp));
    assert d1 == d.(files := d.files[temp := Torn], phase := TempOpen(c, temp));
    var d2 := Step(d1, WriteTemp);
    assert d2.files.Keys == d1.files.Keys && d2.phase == TempWritten(c, temp) && temp in d2.files && d2.files[temp].Buffered?;
  }

  lemma RenameEndsAtRest(d: Dir, c: Command, temp: string)
    requires d.phase == TempSynced(c, temp) && temp in d.files && Accepts(d.world, c)
    ensures var d' := Step(d, Rename);
      d'.phase == Idle && !d'.locked && d'.files.Keys == d.files.Keys - {temp} + {MANIFEST}
  {
  }

  function AllSteps(commands: seq<Command>, temp: string): seq<Action> {
    if commands == [] then [] else AllSteps(commands[..|commands| - 1], temp) + RotationSteps(commands[|commands| - 1], temp)
  }

  /** The commands draw key IDs that no file has, and no two the same. */
  predicate FreshNames(d: Dir, commands: seq<Command>) {
    && (forall i | 0 <= i < |commands| :: KeyFile(commands[i].kid) !in d.files)
    && (forall i, j | 0 <= i < j < |commands| :: commands[i].kid != commands[j].kid)
  }

  function KeyFilesOf(commands: seq<Command>): set<string> {
    if commands == [] then {} else KeyFilesOf(commands[..|commands| - 1]) + {KeyFile(commands[|commands| - 1].kid)}
  }

  lemma {:induction false} NamesOf(commands: seq<Command>, kid: KeyId, temp: string)
    requires "." <= temp && forall i | 0 <= i < |commands| :: commands[i].kid != kid
    ensures KeyFile(kid) !in KeyFilesOf(commands) && temp !in KeyFilesOf(commands)
  {
    if commands != [] {
      var last := commands[|commands| - 1];
      NamesOf(commands[..|commands| - 1], kid, temp);
      KeyFileInjective(last.kid, kid);
      KeyFileNames(last.kid);
    }
  }

  /** One rotation from rest to rest, accepted or refused. */
  lemma OneRotation(d: Dir, c: Command, temp: string)
    requires AtRest(d) && KeyFile(c.kid) !in d.files && temp !in d.files && "." <= temp
    ensures var d' := Exec(d, RotationSteps(c, temp));
      && AtRest(d') && d'.world == (if Accepts(d.world, c) then Next(d.world, c) else d.world)
      && d'.files.Keys <= d.files.Keys + {KeyFile(c.kid)}
  {
    assert c.kid in d.world.created ==> HasKey(d, c.kid);
    if Admits(d.world, c) { AcceptedRotation(d, c, temp); } else { RefusedRotation(d, c, temp); }
  }

  /** The tool called again and again, without a fault: whatever the commands, their steps one after
      the other end at rest, with the manifest of the rotations that are accepted. */
  lemma {:induction false} RotationsCompose(d: Dir, commands: seq<Command>, temp: string)
    requires AtRest(d) && FreshNames(d, commands) && temp !in d.files && "." <= temp
    ensures var d' := Exec(d, AllSteps(commands, temp));
      && AtRest(d') && d'.world == KeyRotation.Run(d.world, commands)
      && d'.files.Keys <= d.files.Keys + KeyFilesOf(commands)
  {
    if commands != [] {
      var init, c := commands[..|commands| - 1], commands[|commands| - 1];
      RotationsCompose(d, init, temp);
      ExecTwice(d, AllSteps(init, temp), RotationSteps(c, temp));
      NamesOf(init, c.kid, temp);
      assert KeyFile(commands[|commands| - 1].kid) !in d.files;
      OneRotation(Exec(d, AllSteps(init, temp)), c, temp);
    }
  }

  /** So does the first rotation in any initialised directory. */
  lemma FirstRotationCanLoseItsKey(d: Dir, rs: KeyId, es: KeyId, ed: KeyId, now: int, c: Command, temp: string)
    requires Initialised(d, rs, es, ed, now) && InBounds(c) && now <= c.now && c.kid !in {rs, es, ed}
    requires KeyFile(c.kid) !in d.files && temp !in d.files && "." <= temp
    ensures var d' := Exec(d, RotationSteps(c, temp));
      && DirInv(d') && d'.world == Run(Initial(rs, es, ed, now), [c])
      && exists lost, dropped :: Breaks(d', lost, dropped)
  {
    InitialInv(rs, es, ed, now);
    RotatesExactly(d.world, c);
    FaultlessRotation(d, c, temp);
    assert [c][..0] == [] && Run(d.world, []) == d.world;
  }

  /** A step shows the old manifest, the complete next one, or after a crash an earlier one the
      disk still showed -- nothing in between. */
  lemma OldOrNew(d: Dir, a: Action)
    requires DirInv(d)
    ensures var d' := Step(d, a);
      && Visible(d', d'.world.keys)
      && (|| d'.world == d.world
          || (a == Rename && d.phase.TempSynced? && Accepts(d.world, d.phase.c) && d'.world == Next(d.world, d.phase.c))
          || (a.Crash? && a.back < |d.shown| && d'.world == d.shown[a.back]))
  {
    if !a.Crash? { StepKeepsInv(d, a); }
  }

  ghost predicate Rotated(w: World, rs: KeyId, es: KeyId, ed: KeyId, now: int) {
    exists commands :: w == Run(Initial(rs, es, ed, now), commands)
  }

  lemma NextIsRotated(w: World, c: Command, rs: KeyId, es: KeyId, ed: KeyId, now: int)
    requires Rotated(w, rs, es, ed, now) && Accepts(w, c)
    ensures Rotated(Next(w, c), rs, es, ed, now)
  {
    var commands :| w == Run(Initial(rs, es, ed, now), commands);
    assert (commands + [c])[..|commands|] == commands;
    assert Next(w, c) == Run(Initial(rs, es, ed, now), commands + [c]);
  }

  /** Whatever crashes, the history behind every manifest the disk may show is a sequence of
      rotations from init: the guarantees about tokens and key IDs hold of it. */
  lemma {:induction false} HistoryIsRotations(d: Dir, rs: KeyId, es: KeyId, ed: KeyId, now: int, actions: seq<Action>)
    requires Initialised(d, rs, es, ed, now) && OrderlyRun(d, actions)
    ensures Rotated(Exec(d, actions).world, rs, es, ed, now)
    ensures forall w | w in Exec(d, actions).shown :: Rotated(w, rs, es, ed, now)
  {
    if actions == [] {
      assert Initial(rs, es, ed, now) == Run(Initial(rs, es, ed, now), []);
    } else {
      HistoryIsRotations(d, rs, es, ed, now, actions[..|actions| - 1]);
      var before, a := Exec(d, actions[..|actions| - 1]), actions[|actions| - 1];
      if a == Rename && Step(before, a) != before {
        NextIsRotated(before.world, before.phase.c, rs, es, ed, now);
      }
    }
  }
}
