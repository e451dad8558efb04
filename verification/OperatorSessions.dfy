/**
 Logins interleaved with account edits.  A login reads the credential row in one step
 (cmd/telesrv-admin/adminauth.go) and mints its session in a later one; edits may fall between.
 Each request of a named session is then checked against the row as it is (security.go).
 */
module OperatorSessions {
  import opened Wrappers
  import opened Strings
  import opened Permissions
  import opened Operators
  import S = Session

  /** What the panel was started with: the two shared secrets, either of which may be unset, and
      the rights of the built-in operator. */
  datatype Config = Config(password: string, token: string, rights: seq<string>)

  /** Who a login turned out to be; the row's epoch travels with it. */
  datatype Identity = Identity(actor: string, userID: int, epoch: int, permissions: seq<string>)

  /** validSecret */
  predicate ValidSecret(cfg: Config, secret: string) {
    (cfg.password != "" && secret == cfg.password) || (cfg.token != "" && secret == cfg.token)
  }

  function Folded(fold: char -> char, s: string): string {
    seq(|s|, i requires 0 <= i < |s| => fold(s[i]))
  }

  /** A database's lower() of one character: beyond ASCII it is the collation's business. */
  ghost predicate Lowers(fold: char -> char) {
    forall c {:trigger fold(c)} :: c as int < 128 ==> fold(c) == LowerChar(c)
  }

  /** authenticateLogin.  The built-in name never reaches the table. */
  ghost function Authenticate(fold: char -> char, t: Table, cfg: Config, username: string, secret: string): Option<Identity> {
    var name := Trim(username);
    if name == "" then None
    else if Lower(name) == BREAK_GLASS then
      if ValidSecret(cfg, secret) then Some(Identity(BREAK_GLASS, 0, 0, cfg.rights)) else None
    else if !(exists id :: id in t.rows && Lower(t.rows[id].username) == Folded(fold, name)) then None
    else
      var id :| id in t.rows && Lower(t.rows[id].username) == Folded(fold, name);
      var row := t.rows[id];
      if row.password != secret || !row.enabled then None
      else Some(Identity(row.username, id, row.epoch, row.permissions))
  }

  /** handleAPILogin asks for the built-in operator when no name is given. */
  ghost function LogIn(fold: char -> char, t: Table, cfg: Config, username: string, secret: string): Option<Identity> {
    Authenticate(fold, t, cfg, if Trim(username) == "" then BREAK_GLASS else username, secret)
  }

  /** currentSessionPermissions: a session of the built-in operator keeps the rights in its claims,
      a named one gets its row's -- if the row is there, enabled and of the same epoch. */
  function CurrentRights(t: Table, claims: S.Claims): Option<seq<string>> {
    if claims.userID == 0 then Some(Names(claims.permissions))
    else if claims.userID !in t.rows then None
    else
      var row := t.rows[claims.userID];
      if !row.enabled || row.epoch != claims.epoch then None else Some(Names(row.permissions))
  }

  // ---------------------------------------------------------------------------
  // The step machine
  // ---------------------------------------------------------------------------

  /** A login that has read its credential: with which secret, and at which step. */
  datatype Login = Login(who: Identity, secret: string, readAt: nat)
  datatype Minted = Minted(claims: S.Claims, login: Login)

  /** changed records the step of each account's last password change. */
  datatype System = System(
    table: Table, config: Config, now: nat, logins: map<nat, Login>, minted: seq<Minted>, changed: map<int, nat>)

  /** Reconfigure restarts the panel with another configuration; the cookies already out, and
      logins an outgoing instance still completes, are not touched by it. */
  datatype Action =
    | Edit(command: Command)
    | ReadCredential(login: nat, username: string, secret: string)
    | Mint(login: nat, exp: int, nonce: string, csrf: string)
    | Reconfigure(config: Config)

  function ClaimsOf(who: Identity, exp: int, nonce: string, csrf: string): S.Claims {
    S.Claims(who.actor, exp, nonce, who.userID, who.epoch, Names(who.permissions), csrf)
  }

  ghost function Step(fold: char -> char, s: System, a: Action): System {
    var s' := match a
      case Edit(c) =>
        var (t, o) := Apply(s.table, c);
        s.(table := t, changed := if c.SetPassword? && o == Done then s.changed[c.id := s.now] else s.changed)
      case ReadCredential(login, username, secret) =>
        (match LogIn(fold, s.table, s.config, username, secret)
         case Some(who) => s.(logins := s.logins[login := Login(who, secret, s.now)])
         case None => s)
      case Mint(login, exp, nonce, csrf) =>
        if login !in s.logins then s
        else
          var l := s.logins[login];
          s.(minted := s.minted + [Minted(ClaimsOf(l.who, exp, nonce, csrf), l)], logins := s.logins - {login})
      case Reconfigure(config) => s.(config := config);
    s'.(now := s.now + 1)
  }

  ghost function Exec(fold: char -> char, start: Config, actions: seq<Action>): System {
    if actions == [] then System(Table(map[], 1), start, 0, map[], [], map[])
    else Step(fold, Exec(fold, start, actions[..|actions| - 1]), actions[|actions| - 1])
  }

  // ---------------------------------------------------------------------------
  // The invariant
  // ---------------------------------------------------------------------------

  /** A credential read is as new as the row's epoch says, and older than any change after it. */
  ghost predicate Based(s: System, l: Login) {
    && l.readAt < s.now
    && (l.who.userID != 0 ==>
          && 0 < l.who.userID < s.table.nextID
          && (l.who.userID in s.table.rows ==>
                var row := s.table.rows[l.who.userID];
                && l.who.actor == row.username && l.who.epoch <= row.epoch
                && (l.who.epoch == row.epoch ==> l.secret == row.password)
                && (l.who.userID in s.changed && l.readAt < s.changed[l.who.userID] ==> l.who.epoch < row.epoch)))
  }

  ghost predicate Inv(s: System) {
    && TableOk(s.table)
    && (forall id | id in s.changed :: id < s.table.nextID && s.changed[id] < s.now)
    && (forall k | k in s.logins :: Based(s, s.logins[k]))
    && (forall i | 0 <= i < |s.minted| :: Based(s, s.minted[i].login)
          && s.minted[i].claims.userID == s.minted[i].login.who.userID && s.minted[i].claims.epoch == s.minted[i].login.who.epoch
          && s.minted[i].claims.actor == s.minted[i].login.who.actor)
  }

  /** Only a password change touches an old row's password and epoch, and it moves the epoch on. */
  lemma EditMovesEpoch(t: Table, c: Command, id: int)
    requires TableOk(t) && 0 < id < t.nextID && id in Apply(t, c).0.rows
    ensures id in t.rows
    ensures var row := Apply(t, c).0.rows[id];
      if c.SetPassword? && c.id == id && Apply(t, c).1 == Done
      then row.epoch == t.rows[id].epoch + 1 && row.password == c.password
      else row.epoch == t.rows[id].epoch && row.password == t.rows[id].password
    ensures Apply(t, c).0.rows[id].username == t.rows[id].username
  {
    if !c.SetPassword? { OtherEditsKeepSecret(t, c, id); }
  }

  lemma OtherEditsKeepSecret(t: Table, c: Command, id: int)
    requires !c.SetPassword? && id < t.nextID && id in Apply(t, c).0.rows
    ensures id in t.rows && Apply(t, c).0.rows[id].epoch == t.rows[id].epoch && Apply(t, c).0.rows[id].password == t.rows[id].password
    ensures Apply(t, c).0.rows[id].username == t.rows[id].username
  {
  }

  /** An edit never takes an epoch back, and a changed password moves it on. */
  lemma EditKeepsBased(fold: char -> char, s: System, c: Command, l: Login)
    requires TableOk(s.table) && (forall id | id in s.changed :: id < s.table.nextID) && Based(s, l)
    ensures Based(Step(fold, s, Edit(c)), l)
  {
    IDsOnlyGrow(s.table, c);
    if 0 < l.who.userID < s.table.nextID && l.who.userID in Apply(s.table, c).0.rows { EditMovesEpoch(s.table, c, l.who.userID); }
  }

  lemma IDsOnlyGrow(t: Table, c: Command)
    ensures t.nextID <= Apply(t, c).0.nextID
  {
  }

  lemma EditKeepsInv(fold: char -> char, s: System, c: Command)
    requires Inv(s)
    ensures Inv(Step(fold, s, Edit(c)))
  {
    var s' := Step(fold, s, Edit(c));
    CommandKeepsTable(s.table, c);
    assert s.table.nextID <= s'.table.nextID;
    forall k | k in s'.logins ensures Based(s', s'.logins[k]) { EditKeepsBased(fold, s, c, s.logins[k]); }
    forall i | 0 <= i < |s'.minted| ensures Based(s', s'.minted[i].login) { EditKeepsBased(fold, s, c, s.minted[i].login); }
  }

  lemma AuthenticatedNow(fold: char -> char, t: Table, cfg: Config, username: string, secret: string, who: Identity)
    requires TableOk(t) && LogIn(fold, t, cfg, username, secret) == Some(who)
    ensures who.userID != 0 ==>
      && who.userID in t.rows && t.rows[who.userID].enabled && who.actor == t.rows[who.userID].username
      && who.epoch == t.rows[who.userID].epoch && secret == t.rows[who.userID].password
  {
  }

  lemma LoginKeepsInv(fold: char -> char, s: System, a: Action)
    requires Inv(s) && !a.Edit?
    ensures Inv(Step(fold, s, a))
  {
    var s' := Step(fold, s, a);
    assert forall l | Based(s, l) :: Based(s', l);
    if a.ReadCredential? {
      var r := LogIn(fold, s.table, s.config, a.username, a.secret);
      if r.Some? {
        AuthenticatedNow(fold, s.table, s.config, a.username, a.secret, r.value);
        assert Based(s', Login(r.value, a.secret, s.now));
      }
    }
  }

  lemma StepKeepsInv(fold: char -> char, s: System, a: Action)
    requires Inv(s)
    ensures Inv(Step(fold, s, a))
  {
    if a.Edit? { EditKeepsInv(fold, s, a.command); } else { LoginKeepsInv(fold, s, a); }
  }

  lemma {:induction false} Reachable(fold: char -> char, start: Config, actions: seq<Action>)
    ensures Inv(Exec(fold, start, actions))
  {
    if actions != [] {
      Reachable(fold, start, actions[..|actions| - 1]);
      StepKeepsInv(fold, Exec(fold, start, actions[..|actions| - 1]), actions[|actions| - 1]);
    }
  }

  // ---------------------------------------------------------------------------
  // Every interleaving
  // ---------------------------------------------------------------------------

  /** A named session is accepted only on an enabled row whose password is still the one it
      logged in with; it then acts under that row's name and has exactly that row's rights. */
  lemma AcceptedSession(fold: char -> char, start: Config, actions: seq<Action>, m: Minted)
    requires m in Exec(fold, start, actions).minted && m.claims.userID != 0
    requires CurrentRights(Exec(fold, start, actions).table, m.claims).Some?
    ensures var s := Exec(fold, start, actions); var id := m.claims.userID;
      && id in s.table.rows && s.table.rows[id].enabled && s.table.rows[id].password == m.login.secret
      && m.claims.actor == s.table.rows[id].username
      && CurrentRights(s.table, m.claims).value == s.table.rows[id].permissions
  {
    Reachable(fold, start, actions);
    var s := Exec(fold, start, actions);
    var i :| 0 <= i < |s.minted| && s.minted[i] == m;
    assert Based(s, m.login);
    NamesFixed([ALL]);
  }

  /** No session whose credential was read before a password change is accepted after it -- even
      when it was minted only afterwards. */
  lemma ChangeEndsOldSessions(fold: char -> char, start: Config, actions: seq<Action>, m: Minted)
    requires m in Exec(fold, start, actions).minted && m.claims.userID != 0
    requires var s := Exec(fold, start, actions); m.claims.userID in s.changed && m.login.readAt < s.changed[m.claims.userID]
    ensures CurrentRights(Exec(fold, start, actions).table, m.claims) == None
  {
    Reachable(fold, start, actions);
    var s := Exec(fold, start, actions);
    var i :| 0 <= i < |s.minted| && s.minted[i] == m;
    assert Based(s, m.login);
  }

  lemma StepKeepsOut(fold: char -> char, s: System, a: Action, id: int)
    requires id < s.table.nextID && id !in s.table.rows
    ensures id < Step(fold, s, a).table.nextID && id !in Step(fold, s, a).table.rows
  {
    if a.Edit? {
      var t := Apply(s.table, a.command).0;
      assert s.table.nextID <= t.nextID && id !in t.rows;
    }
  }

  /** A session of a deleted account stays refused: no later account takes over its ID. */
  lemma {:induction false} DeletedStaysOut(fold: char -> char, start: Config, actions: seq<Action>, id: int, more: seq<Action>)
    requires 0 < id < Exec(fold, start, actions).table.nextID && id !in Exec(fold, start, actions).table.rows
    ensures id !in Exec(fold, start, actions + more).table.rows && id < Exec(fold, start, actions + more).table.nextID
    decreases |more|
  {
    if more == [] {
      assert actions + more == actions;
    } else {
      DeletedStaysOut(fold, start, actions, id, more[..|more| - 1]);
      assert (actions + more)[..|actions + more| - 1] == actions + more[..|more| - 1];
      StepKeepsOut(fold, Exec(fold, start, actions + more[..|more| - 1]), more[|more| - 1], id);
    }
  }

  // ---------------------------------------------------------------------------
  // Edits act at once
  // ---------------------------------------------------------------------------

  /** Whatever a session may do after an update is what the update says, from its next request and
      without a new login; nobody else's rights move. */
  lemma UpdateActsAtOnce(t: Table, id: int, permissions: seq<string>, enabled: bool, claims: S.Claims, name: string)
    requires Apply(t, Update(id, permissions, enabled)).1 == Done
    ensures var t' := Apply(t, Update(id, permissions, enabled)).0;
      if claims.userID != id then CurrentRights(t', claims) == CurrentRights(t, claims)
      else
        && (CurrentRights(t', claims).Some? <==> enabled && t.rows[id].epoch == claims.epoch)
        && (CurrentRights(t', claims).Some? ==>
              (Has(CurrentRights(t', claims).value, name) <==> Has(permissions, name)))
  {
    NormalisingKeepsRights(permissions, name);
    var stored := Normalised(permissions);
    forall n | n in Names(stored) ensures n != "" && Trimmed(n) { NamesMeaning(stored, n); }
    NamesDistinct(stored);
    NamesFixed(Names(stored));
  }

  /** A login by any spelling of a row's name finds that row. */
  lemma NameFinds(fold: char -> char, t: Table, cfg: Config, username: string, secret: string, id: int)
    requires Lowers(fold) && TableOk(t) && id in t.rows && Folded(fold, Trim(username)) == Lower(t.rows[id].username) && Trim(username) != ""
    ensures LogIn(fold, t, cfg, username, secret) ==
      (var row := t.rows[id];
       if row.enabled && row.password == secret then Some(Identity(row.username, id, row.epoch, row.permissions)) else None)
  {
    FoldedIsNotBuiltIn(fold, Trim(username));
  }

  lemma FoldedIsNotBuiltIn(fold: char -> char, name: string)
    requires Lowers(fold)
    ensures Lower(name) == BREAK_GLASS ==> Folded(fold, name) == BREAK_GLASS
  {
    if Lower(name) == BREAK_GLASS {
      forall i | 0 <= i < |name| ensures fold(name[i]) == BREAK_GLASS[i] { assert LowerChar(name[i]) == Lower(name)[i] == BREAK_GLASS[i]; }
    }
  }

  /** A created operator can log in under any spelling of the name, with that password only and
      only if enabled, and is then granted exactly the rights asked for. */
  lemma CreatedCanLogIn(fold: char -> char, t: Table, cfg: Config, c: Command, username: string, secret: string, name: string)
    requires Lowers(fold) && TableOk(t) && c.Create? && Apply(t, c).1 == Done && Folded(fold, Trim(username)) == Lower(Trim(c.username))
    ensures var who := LogIn(fold, Apply(t, c).0, cfg, username, secret);
      && (who.Some? <==> c.enabled && secret == c.password)
      && (who.Some? ==> who.value.userID == t.nextID && who.value.epoch == 1 && (Has(who.value.permissions, name) <==> Has(c.permissions, name)))
  {
    CommandKeepsTable(t, c);
    NameFoldsNonEmpty(fold, c.username, username);
    NormalisingKeepsRights(c.permissions, name);
    NameFinds(fold, Apply(t, c).0, cfg, username, secret, t.nextID);
  }

  lemma NameFoldsNonEmpty(fold: char -> char, valid: string, username: string)
    requires ValidUsername(valid) && Folded(fold, Trim(username)) == Lower(Trim(valid))
    ensures Trim(username) != ""
  {
    assert valid[0] in valid && valid[|valid| - 1] in valid;
    SpaceIsNoDigit(valid[0]);
    SpaceIsNoDigit(valid[|valid| - 1]);
    TrimIsTrimmed(valid);
    assert |Folded(fold, Trim(username))| == |Trim(username)| && |Lower(Trim(valid))| == |valid|;
  }

  /** After a password change only the new password logs in, and every session of the account is
      refused until it does. */
  lemma ChangedPasswordRules(fold: char -> char, t: Table, cfg: Config, id: int, password: string, username: string, secret: string, claims: S.Claims)
    requires Lowers(fold) && TableOk(t) && Apply(t, SetPassword(id, password)).1 == Done
    requires Trim(username) != "" && Folded(fold, Trim(username)) == Lower(t.rows[id].username)
    requires claims.userID == id && CurrentRights(t, claims).Some?
    ensures var t' := Apply(t, SetPassword(id, password)).0;
      var who := LogIn(fold, t', cfg, username, secret);
      && CurrentRights(t', claims) == None
      && (who.Some? <==> t.rows[id].enabled && secret == password)
      && (who.Some? ==> CurrentRights(t', claims.(epoch := who.value.epoch)) == CurrentRights(t, claims))
  {
    CommandKeepsTable(t, SetPassword(id, password));
    NameFinds(fold, Apply(t, SetPassword(id, password)).0, cfg, username, secret, id);
  }

  /** A deleted operator's name no longer logs in. */
  lemma DeletedCannotLogIn(fold: char -> char, t: Table, cfg: Config, id: int, username: string, secret: string)
    requires Lowers(fold) && TableOk(t) && Apply(t, Delete(id)).1 == Done && Folded(fold, Trim(username)) == Lower(t.rows[id].username)
    ensures Authenticate(fold, Apply(t, Delete(id)).0, cfg, username, secret) == None
  {
    FoldedIsNotBuiltIn(fold, Trim(username));
    assert forall i | i in Apply(t, Delete(id)).0.rows :: i != id && i in t.rows;
  }

  // ---------------------------------------------------------------------------
  // The built-in operator
  // ---------------------------------------------------------------------------

  /** The login page refuses no blank name: it takes it for the built-in operator's.  That one logs
      in, with the rights configured, by a secret that is not empty and is the password or the token. */
  lemma BuiltInLogsInExactly(fold: char -> char, t: Table, cfg: Config, username: string, secret: string)
    requires Trim(username) == "" || Lower(Trim(username)) == "admin"
    ensures LogIn(fold, t, cfg, username, secret) ==
      if secret != "" && (secret == cfg.password || secret == cfg.token) then Some(Identity("admin", 0, 0, cfg.rights)) else None
    ensures Trim(username) == "" ==> Authenticate(fold, t, cfg, username, secret) == None
  {
    BuiltInName(fold, t, cfg, secret);
  }

  lemma BuiltInName(fold: char -> char, t: Table, cfg: Config, secret: string)
    ensures Authenticate(fold, t, cfg, BREAK_GLASS, secret) ==
      if ValidSecret(cfg, secret) then Some(Identity(BREAK_GLASS, 0, 0, cfg.rights)) else None
    ensures Trim(BREAK_GLASS) == BREAK_GLASS
  {
    TrimIsTrimmed(BREAK_GLASS);
    assert forall i | 0 <= i < |BREAK_GLASS| :: LowerChar(BREAK_GLASS[i]) == BREAK_GLASS[i];
    assert Lower(BREAK_GLASS) == BREAK_GLASS;
  }

  /** The configuration at a step of a run. */
  ghost function ConfigAt(fold: char -> char, start: Config, actions: seq<Action>, step: nat): Config
    requires step <= |actions|
  {
    Exec(fold, start, actions[..step]).config
  }

  /** What a built-in login carries: a secret that was valid, and the rights that were configured,
      at the step it read them. */
  ghost predicate AsConfigured(fold: char -> char, start: Config, actions: seq<Action>, l: Login) {
    l.who.userID == 0 ==>
      && l.readAt < |actions| && l.who.actor == "admin"
      && l.who.permissions == ConfigAt(fold, start, actions, l.readAt).rights
      && ValidSecret(ConfigAt(fold, start, actions, l.readAt), l.secret)
  }

  lemma ConfiguredNow(fold: char -> char, t: Table, cfg: Config, username: string, secret: string, who: Identity)
    requires TableOk(t) && LogIn(fold, t, cfg, username, secret) == Some(who) && who.userID == 0
    ensures who.permissions == cfg.rights && ValidSecret(cfg, secret) && who.actor == "admin"
  {
  }

  lemma AsConfiguredLater(fold: char -> char, start: Config, actions: seq<Action>, a: Action, l: Login)
    requires AsConfigured(fold, start, actions, l)
    ensures AsConfigured(fold, start, actions + [a], l)
  {
    if l.who.userID == 0 { assert (actions + [a])[..l.readAt] == actions[..l.readAt]; }
  }

  lemma {:induction false} LoginsAsConfigured(fold: char -> char, start: Config, actions: seq<Action>)
    ensures var s := Exec(fold, start, actions);
      && s.now == |actions|
      && (forall k | k in s.logins :: AsConfigured(fold, start, actions, s.logins[k]))
      && (forall m | m in s.minted :: AsConfigured(fold, start, actions, m.login)
            && m.claims.userID == m.login.who.userID && m.claims.permissions == Names(m.login.who.permissions)
            && m.claims.actor == m.login.who.actor)
  {
    if actions != [] {
      var init, a := actions[..|actions| - 1], actions[|actions| - 1];
      LoginsAsConfigured(fold, start, init);
      var s, s' := Exec(fold, start, init), Exec(fold, start, actions);
      assert actions == init + [a];
      assert forall l | AsConfigured(fold, start, init, l) :: AsConfigured(fold, start, actions, l) by {
        forall l | AsConfigured(fold, start, init, l) ensures AsConfigured(fold, start, actions, l) { AsConfiguredLater(fold, start, init, a, l); }
      }
      if a.ReadCredential? {
        var r := LogIn(fold, s.table, s.config, a.username, a.secret);
        if r.Some? {
          Reachable(fold, start, init);
          if r.value.userID == 0 { ConfiguredNow(fold, s.table, s.config, a.username, a.secret, r.value); }
          assert actions[..|init|] == init;
          assert AsConfigured(fold, start, actions, Login(r.value, a.secret, s.now));
        }
      }
    }
  }

  lemma {:induction false} NamesTwice(permissions: seq<string>)
    ensures Names(Names(permissions)) == Names(permissions)
  {
    forall n | n in Names(permissions) ensures n != "" && Trimmed(n) { NamesMeaning(permissions, n); }
    NamesDistinct(permissions);
    NamesFixed(Names(permissions));
  }

  /** In every run a session of the built-in operator is accepted, whatever was edited or
      reconfigured since, with exactly the rights configured when its credential was read -- when
      its secret was a valid one. */
  lemma BuiltInSession(fold: char -> char, start: Config, actions: seq<Action>, m: Minted)
    requires m in Exec(fold, start, actions).minted && m.claims.userID == 0
    ensures m.login.readAt < |actions| && m.claims.actor == "admin"
    ensures var was := ConfigAt(fold, start, actions, m.login.readAt);
      && CurrentRights(Exec(fold, start, actions).table, m.claims) == Some(Names(was.rights))
      && m.login.secret != "" && (m.login.secret == was.password || m.login.secret == was.token)
  {
    LoginsAsConfigured(fold, start, actions);
    NamesTwice(m.login.who.permissions);
  }

  /** The last reconfiguration at or after a step, if there was one. */
  function LastReconfigured(actions: seq<Action>, since: nat): Option<Config>
    requires since <= |actions|
  {
    if |actions| == since then None
    else
      var last := actions[|actions| - 1];
      if last.Reconfigure? then Some(last.config) else LastReconfigured(actions[..|actions| - 1], since)
  }

  lemma {:induction false} ConfigSince(fold: char -> char, start: Config, actions: seq<Action>, since: nat)
    requires since <= |actions|
    ensures Exec(fold, start, actions).config ==
      match LastReconfigured(actions, since)
      case Some(config) => config
      case None => ConfigAt(fold, start, actions, since)
    decreases |actions|
  {
    if |actions| == since {
      assert actions[..since] == actions;
    } else {
      assert actions[..|actions| - 1][..since] == actions[..since];
      ConfigSince(fold, start, actions[..|actions| - 1], since);
    }
  }

  /** A built-in session has the rights now configured if and only if there was no reconfiguration
      since its credential was read, or the last one names the same rights. */
  lemma BuiltInIsCurrentExactly(fold: char -> char, start: Config, actions: seq<Action>, m: Minted)
    requires m in Exec(fold, start, actions).minted && m.claims.userID == 0
    ensures m.login.readAt < |actions|
    ensures var s := Exec(fold, start, actions); var last := LastReconfigured(actions, m.login.readAt);
      CurrentRights(s.table, m.claims) == Some(Names(s.config.rights)) <==>
      last.None? || Names(last.value.rights) == Names(ConfigAt(fold, start, actions, m.login.readAt).rights)
  {
    BuiltInSession(fold, start, actions, m);
    ConfigSince(fold, start, actions, m.login.readAt);
  }

  function BuiltInRun(later: Config): seq<Action> {
    [ReadCredential(0, BREAK_GLASS, "old"), Mint(0, 100, "nonce", "csrf"), Reconfigure(later)]
  }

  lemma ThreeSteps(fold: char -> char, start: Config, a: Action, b: Action, c: Action)
    ensures Exec(fold, start, [a, b, c]) == Step(fold, Step(fold, Step(fold, Exec(fold, start, []), a), b), c)
  {
    assert [a][..0] == [] && Exec(fold, start, [a]) == Step(fold, Exec(fold, start, []), a);
    assert [a, b][..1] == [a] && Exec(fold, start, [a, b]) == Step(fold, Exec(fold, start, [a]), b);
    assert [a, b, c][..2] == [a, b];
  }

  /** The built-in operator logs in, then the panel is reconfigured: the session stays as it was. */
  lemma BuiltInRunKeeps(fold: char -> char, later: Config)
    ensures var start := Config("old", "", [ALL]); var s := Exec(fold, start, BuiltInRun(later));
      && s.config == later
      && |s.minted| == 1 && s.minted[0].claims.userID == 0 && s.minted[0].login.secret == "old"
      && CurrentRights(s.table, s.minted[0].claims) == Some([ALL])
  {
    var start := Config("old", "", [ALL]);
    ThreeSteps(fold, start, ReadCredential(0, BREAK_GLASS, "old"), Mint(0, 100, "nonce", "csrf"), Reconfigure(later));
    LogsInAndMints(fold, Exec(fold, start, []));
    ClaimsKeepAll();
  }

  lemma ClaimsKeepAll()
    ensures Names(Names([ALL])) == [ALL]
  {
    TrimIsTrimmed(ALL);
    NamesFixed([ALL]);
  }

  lemma LogsInAndMints(fold: char -> char, s: System)
    requires s.config == Config("old", "", [ALL]) && s.now == 0 && s.minted == [] && s.logins == map[]
    ensures var who := Identity(BREAK_GLASS, 0, 0, [ALL]);
      var s' := Step(fold, Step(fold, s, ReadCredential(0, BREAK_GLASS, "old")), Mint(0, 100, "nonce", "csrf"));
      s'.minted == [Minted(ClaimsOf(who, 100, "nonce", "csrf"), Login(who, "old", 0))] && s'.table == s.table
  {
    var who := Identity(BREAK_GLASS, 0, 0, [ALL]);
    BuiltInName(fold, s.table, s.config, "old");
    assert LogIn(fold, s.table, s.config, BREAK_GLASS, "old") == Some(who);
    var s1 := Step(fold, s, ReadCredential(0, BREAK_GLASS, "old"));
    assert s1 == s.(logins := map[0 := Login(who, "old", 0)], now := 1);
  }

  /** Narrowed rights do not narrow it. */
  lemma NarrowedInstance(fold: char -> char)
    ensures var s := Exec(fold, Config("old", "", [ALL]), BuiltInRun(Config("old", "", [])));
      && |s.minted| == 1 && s.config.rights == []
      && CurrentRights(s.table, s.minted[0].claims) == Some([ALL]) && Has([ALL], ADMINS_MANAGE)
  {
    BuiltInRunKeeps(fold, Config("old", "", []));
    TrimIsTrimmed(ALL);
    NamesFixed([ALL]);
  }

  /** A changed secret does not end it. */
  lemma ChangedSecretInstance(fold: char -> char)
    ensures var s := Exec(fold, Config("old", "", [ALL]), BuiltInRun(Config("new", "", [ALL])));
      && |s.minted| == 1 && s.minted[0].login.secret != s.config.password && s.minted[0].login.secret != s.config.token
      && CurrentRights(s.table, s.minted[0].claims) == Some([ALL])
  {
    BuiltInRunKeeps(fold, Config("new", "", [ALL]));
  }
}
