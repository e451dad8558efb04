/**
 Rotation of the Telegram Login signing keys as a state machine over a clock
 (cmd/telegramloginkeygen/main.go).  Instants and durations are nanoseconds; a manifest
 stores its publish times in whole seconds, so formatting one drops the fraction.
 */
module KeyRotation {
  import opened Strings

  const SECOND := 1_000_000_000
  const MINUTE := 60 * SECOND
  const HOUR := 60 * MINUTE
  const MARGIN := 10 * MINUTE
  const MAX_KEYS := 32

  const RS256 := "RS256"
  const ES256 := "ES256"
  const EDDSA := "EdDSA"

  type KeyId = string

  /** publish_until as it stands in the manifest. */
  datatype Publish = Absent | Until(second: int) | Garbled

  datatype Entry = Entry(algorithm: string, kid: KeyId, active: bool, publish: Publish)

  predicate Supported(algorithm: string) {
    algorithm == RS256 || algorithm == ES256 || algorithm == EDDSA
  }

  /** The publish time of a key retired now: the fraction of the second is lost. */
  function RetireUntil(now: int, publishFor: int): int {
    (now + publishFor) / SECOND
  }

  predicate Expired(e: Entry, now: int) {
    !e.active && e.publish.Until? && e.publish.second * SECOND <= now
  }

  // ---------------------------------------------------------------------------
  // The loop over the manifest
  // ---------------------------------------------------------------------------

  function Retire(e: Entry, algorithm: string, second: int): Entry {
    if e.algorithm == algorithm && e.active then e.(active := false, publish := Until(second)) else e
  }

  /** Prune the expired, retire the active key of the algorithm. */
  function Kept(keys: seq<Entry>, algorithm: string, second: int, now: int): seq<Entry> {
    if keys == [] then []
    else
      var last := keys[|keys| - 1];
      Kept(keys[..|keys| - 1], algorithm, second, now) + (if Expired(last, now) then [] else [Retire(last, algorithm, second)])
  }

  function ActiveCount(keys: seq<Entry>, algorithm: string): nat {
    if keys == [] then 0
    else
      var last := keys[|keys| - 1];
      ActiveCount(keys[..|keys| - 1], algorithm) + (if last.active && last.algorithm == algorithm then 1 else 0)
  }

  predicate Readable(keys: seq<Entry>) {
    forall e | e in keys :: e.active || !e.publish.Garbled?
  }

  /** The loop of rotateSigning: refuses an unreadable publish time and anything but exactly
      one active key of the algorithm. */
  method RetireActive(keys: seq<Entry>, algorithm: string, publishFor: int, now: int) returns (ok: bool, kept: seq<Entry>)
    ensures ok <==> Readable(keys) && ActiveCount(keys, algorithm) == 1
    ensures ok ==> kept == Kept(keys, algorithm, RetireUntil(now, publishFor), now)
  {
    var foundActive := false;
    kept := [];
    var i := 0;
    while i < |keys|
      invariant 0 <= i <= |keys| && Readable(keys[..i])
      invariant ActiveCount(keys[..i], algorithm) == (if foundActive then 1 else 0)
      invariant kept == Kept(keys[..i], algorithm, RetireUntil(now, publishFor), now)
    {
      var key := keys[i];
      assert keys[..i + 1][..i] == keys[..i];
      i := i + 1;
      if !key.active && key.publish != Absent {
        if key.publish.Garbled? {
          assert key in keys;
          return false, kept;
        }
        if now >= key.publish.second * SECOND {
          continue;
        }
      }
      if key.algorithm == algorithm && key.active {
        if foundActive {
          ActiveCountGrows(keys, i, algorithm);
          return false, kept;
        }
        foundActive := true;
        key := key.(active := false, publish := Until(RetireUntil(now, publishFor)));
      }
      kept := kept + [key];
    }
    assert keys[..i] == keys;
    ok := foundActive;
  }

  lemma {:induction false} ActiveCountGrows(keys: seq<Entry>, i: nat, algorithm: string)
    requires i <= |keys|
    ensures ActiveCount(keys[..i], algorithm) <= ActiveCount(keys, algorithm)
  {
    if i < |keys| {
      ActiveCountGrows(keys[..|keys| - 1], i, algorithm);
      assert keys[..|keys| - 1][..i] == keys[..i];
    } else {
      assert keys[..i] == keys;
    }
  }

  // ---------------------------------------------------------------------------
  // The state machine
  // ---------------------------------------------------------------------------

  /** What is on record about a retired key: when, and for which ID-token lifetime. */
  datatype Retirement = Retirement(at: int, ttl: int)

  /** The visible manifest, every key ID it ever held, and the history of retirements. */
  datatype World = World(keys: seq<Entry>, created: set<KeyId>, retired: map<KeyId, Retirement>, clock: int)

  datatype Command = Rotate(algorithm: string, publishFor: int, ttl: int, now: int, kid: KeyId)

  /** The bounds run checks before it rotates. */
  predicate InBounds(c: Command) {
    && MINUTE <= c.ttl <= 24 * HOUR
    && c.ttl + MARGIN <= c.publishFor <= 90 * 24 * HOUR
    && Supported(c.algorithm)
  }

  /** What rotateSigning asks of the manifest, under a clock that does not run backwards. */
  predicate Admits(w: World, c: Command) {
    && InBounds(c)
    && 0 < |w.keys| < MAX_KEYS
    && Readable(w.keys) && ActiveCount(w.keys, c.algorithm) == 1
    && w.clock <= c.now
  }

  /** A rotation that succeeds: its key file could be created, so its key ID is new. */
  predicate Accepts(w: World, c: Command) {
    Admits(w, c) && c.kid !in w.created
  }

  function ActiveKid(keys: seq<Entry>, algorithm: string): KeyId
    requires ActiveCount(keys, algorithm) >= 1
  {
    var last := keys[|keys| - 1];
    if last.active && last.algorithm == algorithm then last.kid else ActiveKid(keys[..|keys| - 1], algorithm)
  }

  function Next(w: World, c: Command): World
    requires Accepts(w, c)
  {
    World(
      Kept(w.keys, c.algorithm, RetireUntil(c.now, c.publishFor), c.now) + [Entry(c.algorithm, c.kid, true, Absent)],
      w.created + {c.kid},
      w.retired[ActiveKid(w.keys, c.algorithm) := Retirement(c.now, c.ttl)],
      c.now)
  }

  /** Commands that are refused change nothing. */
  function Run(w: World, commands: seq<Command>): World {
    if commands == [] then w
    else
      var before := Run(w, commands[..|commands| - 1]);
      if Accepts(before, commands[|commands| - 1]) then Next(before, commands[|commands| - 1]) else before
  }

  /** What init writes: one active key per algorithm. */
  function Initial(rs: KeyId, es: KeyId, ed: KeyId, now: int): World {
    World([Entry(RS256, rs, true, Absent), Entry(ES256, es, true, Absent), Entry(EDDSA, ed, true, Absent)],
          {rs, es, ed}, map[], now)
  }

  // ---------------------------------------------------------------------------
  // Reachable manifests
  // ---------------------------------------------------------------------------

  /** What the server demands when it loads a manifest (internal/app/telegramlogin). */
  ghost predicate Loadable(keys: seq<Entry>) {
    && 0 < |keys| <= MAX_KEYS
    && (forall e | e in keys :: Supported(e.algorithm) && (e.active ==> e.publish == Absent) && (!e.active ==> e.publish.Until?))
    && (forall i, j | 0 <= i < j < |keys| :: keys[i].kid != keys[j].kid)
    && (forall i, j | 0 <= i < j < |keys| :: !(keys[i].active && keys[j].active && keys[i].algorithm == keys[j].algorithm))
    && (exists e | e in keys :: e.active)
  }

  /** A key of the manifest that is active, or retired and published past the point its
      recorded retirement promises. */
  ghost predicate Honoured(w: World, e: Entry) {
    && e.kid in w.created
    && (e.active ==> e.kid !in w.retired && e.publish == Absent)
    && (!e.active ==>
          && e.publish.Until? && e.kid in w.retired
          && w.retired[e.kid].at + w.retired[e.kid].ttl + MARGIN - SECOND < e.publish.second * SECOND)
  }

  ghost predicate Holds(keys: seq<Entry>, kid: KeyId) {
    exists i :: 0 <= i < |keys| && keys[i].kid == kid
  }

  ghost predicate Inv(w: World) {
    && 0 < |w.keys| <= MAX_KEYS && w.retired.Keys <= w.created
    && (forall a | Supported(a) :: ActiveCount(w.keys, a) == 1)
    && (forall i | 0 <= i < |w.keys| :: Supported(w.keys[i].algorithm) && Honoured(w, w.keys[i]))
    && (forall i, j | 0 <= i < j < |w.keys| :: w.keys[i].kid != w.keys[j].kid)
    && (forall kid | kid in w.created && !Holds(w.keys, kid) ::
          kid in w.retired && w.retired[kid].at + w.retired[kid].ttl + MARGIN - SECOND < w.clock)
  }

  lemma {:induction false} KeptMembers(keys: seq<Entry>, algorithm: string, second: int, now: int)
    ensures |Kept(keys, algorithm, second, now)| <= |keys|
    ensures forall f | f in keys && !Expired(f, now) :: Retire(f, algorithm, second) in Kept(keys, algorithm, second, now)
    ensures forall e | e in Kept(keys, algorithm, second, now) :: exists f | f in keys :: !Expired(f, now) && e == Retire(f, algorithm, second)
  {
    if keys != [] {
      var init, last := keys[..|keys| - 1], keys[|keys| - 1];
      KeptMembers(init, algorithm, second, now);
      assert forall f | f in keys :: f in init || f == last;
      assert forall f | f in init :: f in keys;
      assert last in keys;
    }
  }

  lemma {:induction false} KeptDistinct(keys: seq<Entry>, algorithm: string, second: int, now: int)
    requires forall i, j | 0 <= i < j < |keys| :: keys[i].kid != keys[j].kid
    ensures var kept := Kept(keys, algorithm, second, now);
      forall i, j | 0 <= i < j < |kept| :: kept[i].kid != kept[j].kid
  {
    if keys != [] {
      var init, last := keys[..|keys| - 1], keys[|keys| - 1];
      KeptDistinct(init, algorithm, second, now);
      KeptMembers(init, algorithm, second, now);
      var kept := Kept(init, algorithm, second, now);
      forall i | 0 <= i < |kept| ensures kept[i].kid != last.kid {
        assert kept[i] in kept;
        var f :| f in init && !Expired(f, now) && kept[i] == Retire(f, algorithm, second);
      }
    }
  }

  lemma CountAppended(keys: seq<Entry>, e: Entry, a: string)
    ensures ActiveCount(keys + [e], a) == ActiveCount(keys, a) + (if e.active && e.algorithm == a then 1 else 0)
  {
    assert (keys + [e])[..|keys|] == keys;
  }

  lemma {:induction false} KeptActives(keys: seq<Entry>, algorithm: string, second: int, now: int, a: string)
    ensures ActiveCount(Kept(keys, algorithm, second, now), a) == (if a == algorithm then 0 else ActiveCount(keys, a))
  {
    if keys != [] {
      var init, last := keys[..|keys| - 1], keys[|keys| - 1];
      var kept := Kept(init, algorithm, second, now);
      KeptActives(init, algorithm, second, now, a);
      CountAppended(kept, Retire(last, algorithm, second), a);
      if Expired(last, now) { assert Kept(keys, algorithm, second, now) == kept; }
    }
  }

  lemma {:induction false} ActiveKidIs(keys: seq<Entry>, algorithm: string)
    requires ActiveCount(keys, algorithm) >= 1
    ensures exists e | e in keys :: e.active && e.algorithm == algorithm && e.kid == ActiveKid(keys, algorithm)
  {
    var init, last := keys[..|keys| - 1], keys[|keys| - 1];
    assert last in keys;
    if !(last.active && last.algorithm == algorithm) {
      ActiveKidIs(init, algorithm);
      assert forall e | e in init :: e in keys;
    }
  }

  lemma {:induction false} ActiveKidOnly(keys: seq<Entry>, algorithm: string, e: Entry)
    requires ActiveCount(keys, algorithm) == 1 && e in keys && e.active && e.algorithm == algorithm
    ensures e.kid == ActiveKid(keys, algorithm)
  {
    var init, last := keys[..|keys| - 1], keys[|keys| - 1];
    if e != last {
      assert e in init;
      CountsItsMember(init, algorithm, e);
      ActiveKidOnly(init, algorithm, e);
    }
  }

  lemma {:induction false} CountsItsMember(keys: seq<Entry>, algorithm: string, e: Entry)
    requires e in keys && e.active && e.algorithm == algorithm
    ensures ActiveCount(keys, algorithm) >= 1
  {
    if e != keys[|keys| - 1] {
      assert e in keys[..|keys| - 1];
      CountsItsMember(keys[..|keys| - 1], algorithm, e);
    }
  }

  /** Dropping the fraction costs less than a second, which the margin absorbs. */
  lemma RetireKeepsItsPromise(c: Command)
    requires InBounds(c)
    ensures c.now + c.ttl + MARGIN - SECOND < RetireUntil(c.now, c.publishFor) * SECOND
  {
  }

  /** The publish time is the end of the window, less the fraction of its second. */
  lemma RetireUntilExactly(now: int, publishFor: int)
    ensures RetireUntil(now, publishFor) * 1_000_000_000 <= now + publishFor < (RetireUntil(now, publishFor) + 1) * 1_000_000_000
  {
  }

  /** Each surviving entry keeps the promise made when it was retired. */
  lemma EntryHonoured(w: World, c: Command, f: Entry)
    requires Inv(w) && Accepts(w, c) && f in w.keys
    ensures Honoured(Next(w, c), Retire(f, c.algorithm, RetireUntil(c.now, c.publishFor)))
  {
    ActiveKidIs(w.keys, c.algorithm);
    RetireKeepsItsPromise(c);
    var retiring :| retiring in w.keys && retiring.active && retiring.algorithm == c.algorithm && retiring.kid == ActiveKid(w.keys, c.algorithm);
    if f.active && f.algorithm == c.algorithm {
      ActiveKidOnly(w.keys, c.algorithm, f);
    } else {
      assert f != retiring;
    }
  }

  lemma SurvivorHeld(w: World, c: Command, f: Entry)
    requires Accepts(w, c) && f in w.keys
    ensures !Expired(f, c.now) ==> Holds(Next(w, c).keys, f.kid)
  {
    var kept := Kept(w.keys, c.algorithm, RetireUntil(c.now, c.publishFor), c.now);
    KeptMembers(w.keys, c.algorithm, RetireUntil(c.now, c.publishFor), c.now);
    if !Expired(f, c.now) {
      var i :| 0 <= i < |kept| && kept[i] == Retire(f, c.algorithm, RetireUntil(c.now, c.publishFor));
      assert Next(w, c).keys[i].kid == f.kid;
    }
  }

  lemma MissingWasHonoured(w: World, c: Command, kid: KeyId)
    requires Inv(w) && Accepts(w, c) && kid in Next(w, c).created && !Holds(Next(w, c).keys, kid)
    ensures var w' := Next(w, c);
      kid in w'.retired && w'.retired[kid].at + w'.retired[kid].ttl + MARGIN - SECOND < w'.clock
  {
    var w', second := Next(w, c), RetireUntil(c.now, c.publishFor);
    KeptMembers(w.keys, c.algorithm, second, c.now);
    ActiveKidIs(w.keys, c.algorithm);
    assert w'.keys[|w'.keys| - 1].kid == c.kid;
    if Holds(w.keys, kid) {
      var i :| 0 <= i < |w.keys| && w.keys[i].kid == kid;
      SurvivorHeld(w, c, w.keys[i]);
      assert Expired(w.keys[i], c.now);
    }
  }

  lemma ActivesKept(w: World, c: Command, a: string)
    requires Inv(w) && Accepts(w, c) && Supported(a)
    ensures ActiveCount(Next(w, c).keys, a) == 1
  {
    var kept := Kept(w.keys, c.algorithm, RetireUntil(c.now, c.publishFor), c.now);
    KeptActives(w.keys, c.algorithm, RetireUntil(c.now, c.publishFor), c.now, a);
    CountAppended(kept, Entry(c.algorithm, c.kid, true, Absent), a);
  }

  lemma EntriesKept(w: World, c: Command, i: nat)
    requires Inv(w) && Accepts(w, c) && i < |Next(w, c).keys|
    ensures var w' := Next(w, c);
      && Supported(w'.keys[i].algorithm) && Honoured(w', w'.keys[i])
      && (i < |w'.keys| - 1 ==> w'.keys[i].kid in w.created)
  {
    var second := RetireUntil(c.now, c.publishFor);
    var kept := Kept(w.keys, c.algorithm, second, c.now);
    if i < |kept| {
      KeptMembers(w.keys, c.algorithm, second, c.now);
      assert kept[i] in kept;
      var f :| f in w.keys && !Expired(f, c.now) && kept[i] == Retire(f, c.algorithm, second);
      EntryHonoured(w, c, f);
    } else {
      ActiveKidIs(w.keys, c.algorithm);
    }
  }

  lemma RotationKeepsInv(w: World, c: Command)
    requires Inv(w) && Accepts(w, c)
    ensures Inv(Next(w, c))
  {
    var w' := Next(w, c);
    ActiveKidIs(w.keys, c.algorithm);
    KeptMembers(w.keys, c.algorithm, RetireUntil(c.now, c.publishFor), c.now);
    KeptDistinct(w.keys, c.algorithm, RetireUntil(c.now, c.publishFor), c.now);
    forall a | Supported(a) ensures ActiveCount(w'.keys, a) == 1 { ActivesKept(w, c, a); }
    forall i | 0 <= i < |w'.keys|
      ensures Supported(w'.keys[i].algorithm) && Honoured(w', w'.keys[i])
      ensures i < |w'.keys| - 1 ==> w'.keys[i].kid in w.created
    {
      EntriesKept(w, c, i);
    }
    forall kid | kid in w'.created && !Holds(w'.keys, kid)
      ensures kid in w'.retired && w'.retired[kid].at + w'.retired[kid].ttl + MARGIN - SECOND < w'.clock
    {
      MissingWasHonoured(w, c, kid);
    }
  }

  // ---------------------------------------------------------------------------
  // Every sequence of rotations
  // ---------------------------------------------------------------------------

  lemma InitialActives(rs: KeyId, es: KeyId, ed: KeyId, now: int, a: string)
    requires Supported(a)
    ensures ActiveCount(Initial(rs, es, ed, now).keys, a) == 1
  {
    var keys := Initial(rs, es, ed, now).keys;
    assert keys == [] + [keys[0]] + [keys[1]] + [keys[2]];
    CountAppended([], keys[0], a);
    CountAppended([] + [keys[0]], keys[1], a);
    CountAppended([] + [keys[0]] + [keys[1]], keys[2], a);
  }

  lemma InitialInv(rs: KeyId, es: KeyId, ed: KeyId, now: int)
    requires rs != es && es != ed && rs != ed
    ensures Inv(Initial(rs, es, ed, now))
  {
    var keys := Initial(rs, es, ed, now).keys;
    forall a | Supported(a) ensures ActiveCount(keys, a) == 1 { InitialActives(rs, es, ed, now, a); }
    assert keys[0].kid == rs && keys[1].kid == es && keys[2].kid == ed;
  }

  lemma {:induction false} ReachableInv(rs: KeyId, es: KeyId, ed: KeyId, now: int, commands: seq<Command>)
    requires rs != es && es != ed && rs != ed
    ensures Inv(Run(Initial(rs, es, ed, now), commands))
  {
    if commands == [] {
      InitialInv(rs, es, ed, now);
    } else {
      ReachableInv(rs, es, ed, now, commands[..|commands| - 1]);
      var before, c := Run(Initial(rs, es, ed, now), commands[..|commands| - 1]), commands[|commands| - 1];
      if Accepts(before, c) { RotationKeepsInv(before, c); }
    }
  }

  /** Every reachable manifest loads: one active key for each algorithm, at most 32 keys, a
      publish time on exactly the inactive ones, no key ID twice. */
  lemma ReachableLoads(rs: KeyId, es: KeyId, ed: KeyId, now: int, commands: seq<Command>)
    requires rs != es && es != ed && rs != ed
    ensures var w := Run(Initial(rs, es, ed, now), commands);
      && Loadable(w.keys) && forall a | Supported(a) :: ActiveCount(w.keys, a) == 1
  {
    ReachableInv(rs, es, ed, now, commands);
    var keys := Run(Initial(rs, es, ed, now), commands).keys;
    ActiveKidIs(keys, RS256);
    forall i, j | 0 <= i < j < |keys| ensures !(keys[i].active && keys[j].active && keys[i].algorithm == keys[j].algorithm) {
      if keys[i].active && keys[j].active && keys[i].algorithm == keys[j].algorithm {
        ActiveKidOnly(keys, keys[i].algorithm, keys[i]);
        ActiveKidOnly(keys, keys[i].algorithm, keys[j]);
      }
    }
  }

  /** Key IDs are never reused: a rotation's new key ID is one no manifest ever held. */
  lemma {:induction false} KeyIdsNeverReused(w: World, commands: seq<Command>, later: Command)
    requires Inv(w)
    ensures w.created <= Run(w, commands).created
    ensures Accepts(Run(w, commands), later) ==> forall i | 0 <= i < |w.keys| :: w.keys[i].kid != later.kid
  {
    if commands != [] { KeyIdsNeverReused(w, commands[..|commands| - 1], later); }
  }

  /** The server publishes a key at instant x (SigningKeyRing.JWKS). */
  ghost predicate Published(keys: seq<Entry>, kid: KeyId, x: int) {
    exists i :: 0 <= i < |keys| && keys[i].kid == kid
                && (keys[i].active || (keys[i].publish.Until? && x < keys[i].publish.second * SECOND))
  }

  /** A token signed by a key that was never retired, or no later than ten minutes less one
      second after its key was retired, finds its key published until it expires. */
  lemma TokenOutlived(rs: KeyId, es: KeyId, ed: KeyId, start: int, commands: seq<Command>, kid: KeyId, signed: int, ttl: int, x: int)
    requires rs != es && es != ed && rs != ed
    requires var w := Run(Initial(rs, es, ed, start), commands);
      && kid in w.created && w.clock <= x <= signed + ttl
      && (kid in w.retired ==> signed <= w.retired[kid].at + MARGIN - SECOND && ttl <= w.retired[kid].ttl)
    ensures Published(Run(Initial(rs, es, ed, start), commands).keys, kid, x)
  {
    ReachableInv(rs, es, ed, start, commands);
    var w := Run(Initial(rs, es, ed, start), commands);
    assert Holds(w.keys, kid);
    var i :| 0 <= i < |w.keys| && w.keys[i].kid == kid;
    assert Honoured(w, w.keys[i]);
  }

  /** The second taken off the margin is needed: after a rotation on the last nanosecond of a
      second, a token signed by the old key one nanosecond beyond it outlives that key. */
  lemma MarginIsTight(rs: KeyId, es: KeyId, ed: KeyId, kid: KeyId)
    requires rs != es && es != ed && rs != ed && kid !in {rs, es, ed}
    ensures var now := SECOND - 1; var c := Rotate(RS256, HOUR + MARGIN, HOUR, now, kid);
      var w := Run(Initial(rs, es, ed, 0), [c]);
      var signed := now + MARGIN - SECOND + 1; var x := signed + HOUR;
      && w.clock == now && rs in w.retired && w.retired[rs] == Retirement(now, HOUR)
      && x < now + c.publishFor
      && !Published(w.keys, rs, x)
  {
    var now := SECOND - 1;
    var c := Rotate(RS256, HOUR + MARGIN, HOUR, now, kid);
    var w := Initial(rs, es, ed, 0);
    ReachableInv(rs, es, ed, 0, []);
    assert [c][..0] == [] && Run(w, [c][..0]) == w;
    assert Accepts(w, c) && Run(w, [c]) == Next(w, c);
    KeptOfThree(w.keys, RetireUntil(now, HOUR + MARGIN), now);
    ActiveKidOnly(w.keys, RS256, w.keys[0]);
  }

  lemma KeptOfThree(keys: seq<Entry>, second: int, now: int)
    requires |keys| == 3 && (forall e | e in keys :: e.active)
    requires keys[0].algorithm == RS256 && keys[1].algorithm != RS256 && keys[2].algorithm != RS256
    ensures Kept(keys, RS256, second, now) == [Retire(keys[0], RS256, second), keys[1], keys[2]]
  {
    assert keys[..2][..1] == keys[..1] && keys[..1][..0] == [];
    assert keys[0] in keys && keys[1] in keys && keys[2] in keys;
    assert Kept(keys[..1], RS256, second, now) == [] + [Retire(keys[0], RS256, second)];
    assert Kept(keys[..2], RS256, second, now) == Kept(keys[..1], RS256, second, now) + [keys[1]];
  }

  // ---------------------------------------------------------------------------
  // A full manifest
  // ---------------------------------------------------------------------------

  /** A manifest of 32 keys is final: it is refused before its expired keys are pruned. */
  lemma {:induction false} FullIsFinal(w: World, commands: seq<Command>)
    requires |w.keys| >= MAX_KEYS
    ensures Run(w, commands) == w
  {
    if commands != [] { FullIsFinal(w, commands[..|commands| - 1]); }
  }

  /** What a reachable manifest admits, in nanoseconds: with room left, any of the three algorithms, a
      token lifetime from a minute to a day, a retirement window from ten minutes beyond it to ninety
      days, and a fresh key ID. */
  lemma RotatesExactly(w: World, c: Command)
    requires Inv(w)
    ensures Accepts(w, c) <==>
      && |w.keys| < 32 && w.clock <= c.now && c.kid !in w.created
      && c.algorithm in ["RS256", "ES256", "EdDSA"]
      && 60_000_000_000 <= c.ttl <= 86_400_000_000_000
      && c.ttl + 600_000_000_000 <= c.publishFor <= 7_776_000_000_000_000
  {
    forall i | 0 <= i < |w.keys| ensures w.keys[i].active || w.keys[i].publish.Until? { assert Honoured(w, w.keys[i]); }
  }

  function FillerKid(n: nat): KeyId {
    seq(n + 2, i => 'k')
  }

  const LONG := 90 * 24 * HOUR

  function Filler(n: nat): Command {
    Rotate(RS256, LONG, HOUR, 0, FillerKid(n))
  }

  function Fillers(n: nat): seq<Command> {
    if n == 0 then [] else Fillers(n - 1) + [Filler(n - 1)]
  }

  ghost predicate Filling(w: World, n: nat) {
    && |w.keys| == n + 3 && w.clock == 0
    && (forall e | e in w.keys :: !Expired(e, 0))
    && (forall kid | kid in w.created :: |kid| < n + 2)
  }

  lemma {:induction false} KeptAll(keys: seq<Entry>, algorithm: string, second: int, now: int)
    requires forall e | e in keys :: !Expired(e, now)
    ensures |Kept(keys, algorithm, second, now)| == |keys|
  {
    if keys != [] {
      assert keys[|keys| - 1] in keys && forall e | e in keys[..|keys| - 1] :: e in keys;
      KeptAll(keys[..|keys| - 1], algorithm, second, now);
    }
  }

  lemma FillerKeeps(w: World, n: nat)
    requires Filling(w, n)
    ensures var kept := Kept(w.keys, RS256, RetireUntil(0, LONG), 0);
      |kept| == n + 3 && forall e | e in kept :: !Expired(e, 0)
  {
    var second := RetireUntil(0, LONG);
    KeptAll(w.keys, RS256, second, 0);
    KeptMembers(w.keys, RS256, second, 0);
    forall e | e in Kept(w.keys, RS256, second, 0) ensures !Expired(e, 0) {
      var f :| f in w.keys && !Expired(f, 0) && e == Retire(f, RS256, second);
    }
  }

  lemma FillerAccepted(w: World, n: nat)
    requires Inv(w) && Filling(w, n) && n + 3 < MAX_KEYS
    ensures Accepts(w, Filler(n))
  {
    assert |FillerKid(n)| == n + 2;
    RotatesExactly(w, Filler(n));
  }

  lemma FillerFills(w: World, n: nat)
    requires Accepts(w, Filler(n)) && Filling(w, n)
    ensures Filling(Next(w, Filler(n)), n + 1)
  {
    FillerKeeps(w, n);
    assert |FillerKid(n)| == n + 2;
  }

  /** Three short key IDs to start with. */
  predicate ShortIds(rs: KeyId, es: KeyId, ed: KeyId) {
    rs != es && es != ed && rs != ed && |rs| < 2 && |es| < 2 && |ed| < 2
  }

  lemma StartsFilling(rs: KeyId, es: KeyId, ed: KeyId)
    requires ShortIds(rs, es, ed)
    ensures Filling(Run(Initial(rs, es, ed, 0), []), 0)
  {
    assert Run(Initial(rs, es, ed, 0), []) == Initial(rs, es, ed, 0);
  }

  lemma RunOneMore(w: World, commands: seq<Command>, c: Command)
    requires Accepts(Run(w, commands), c)
    ensures Run(w, commands + [c]) == Next(Run(w, commands), c)
  {
    assert (commands + [c])[..|commands|] == commands;
  }

  lemma FillOneMore(rs: KeyId, es: KeyId, ed: KeyId, commands: seq<Command>, n: nat)
    requires ShortIds(rs, es, ed) && Filling(Run(Initial(rs, es, ed, 0), commands), n) && n + 3 < MAX_KEYS
    ensures Filling(Run(Initial(rs, es, ed, 0), commands + [Filler(n)]), n + 1)
  {
    ReachableInv(rs, es, ed, 0, commands);
    FillerAccepted(Run(Initial(rs, es, ed, 0), commands), n);
    FillerFills(Run(Initial(rs, es, ed, 0), commands), n);
    RunOneMore(Initial(rs, es, ed, 0), commands, Filler(n));
  }

  /** It is reached: rotating often enough within the retirement window fills the manifest. */
  lemma {:induction false} FillsUp(rs: KeyId, es: KeyId, ed: KeyId, n: nat)
    requires ShortIds(rs, es, ed) && n + 3 <= MAX_KEYS
    ensures Filling(Run(Initial(rs, es, ed, 0), Fillers(n)), n)
  {
    if n == 0 {
      StartsFilling(rs, es, ed);
    } else {
      FillsUp(rs, es, ed, n - 1);
      FillOneMore(rs, es, ed, Fillers(n - 1), n - 1);
    }
  }

  /** From then on, even after every retired key has expired, no key can be rotated. */
  lemma FullInstance(rs: KeyId, es: KeyId, ed: KeyId, later: seq<Command>)
    requires ShortIds(rs, es, ed)
    ensures var w := Run(Initial(rs, es, ed, 0), Fillers(29));
      |w.keys| == 32 && Run(w, later) == w
  {
    FillsUp(rs, es, ed, 29);
    FullIsFinal(Run(Initial(rs, es, ed, 0), Fillers(29)), later);
  }

  // ---------------------------------------------------------------------------
  // The command line
  // ---------------------------------------------------------------------------

  function Mapped(upper: char -> char, s: string): string {
    seq(|s|, i requires 0 <= i < |s| => upper(s[i]))
  }

  /** The algorithm a flag names: trimmed and upper-cased. */
  function Algorithm(upper: char -> char, typed: string): string {
    Mapped(upper, Trim(typed))
  }

  /** The command line upper-cases the algorithm before it is compared, so whatever is typed, by
      any map to upper case that leaves no lower-case letter, rotates RS256 or ES256 or is
      refused: EdDSA, though generated by init, cannot be named. */
  lemma CommandLineAlgorithms(upper: char -> char, typed: string)
    requires forall c :: !('a' <= upper(c) <= 'z')
    requires forall c | 'A' <= c <= 'Z' || '0' <= c <= '9' :: upper(c) == c
    ensures Supported(Algorithm(upper, typed)) <==> Algorithm(upper, typed) == RS256 || Algorithm(upper, typed) == ES256
    ensures Algorithm(upper, typed) != EDDSA
    ensures Algorithm(upper, RS256) == RS256 && Algorithm(upper, ES256) == ES256
  {
    assert EDDSA[1] == 'd';
    assert |Trim(typed)| == 5 ==> Algorithm(upper, typed)[1] == upper(Trim(typed)[1]);
    TrimIsTrimmed(RS256);
    TrimIsTrimmed(ES256);
    assert forall i | 0 <= i < |RS256| :: upper(RS256[i]) == RS256[i];
    assert forall i | 0 <= i < |ES256| :: upper(ES256[i]) == ES256[i];
  }
}
