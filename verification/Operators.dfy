/**
 Named panel operators: the table, the commands that edit it with the last-manager guard
 (cmd/telesrv-admin/adminusers_api.go), logins (adminauth.go) and the per-request check of a
 session against its row (security.go).
 */
module Operators {
  import opened Strings
  import opened Permissions

  const BREAK_GLASS := "admin"
  const MAX_EPOCH := 0x7fff_ffff

  /** password stands for the stored hash: the one secret that it accepts. */
  datatype Row = Row(username: string, password: string, permissions: seq<string>, enabled: bool, epoch: int)

  /** The table; the serial hands out each ID once. */
  datatype Table = Table(rows: map<int, Row>, nextID: int)

  datatype Command =
    | Create(username: string, password: string, permissions: seq<string>, enabled: bool)
    | Update(id: int, permissions: seq<string>, enabled: bool)
    | SetPassword(id: int, password: string)
    | Delete(id: int)

  datatype Outcome = Done | UsernameInvalid | UsernameReserved | UsernameTaken | PasswordInvalid | NotFound | LastManager | Overflow

  predicate ValidUsername(s: string) {
    && 3 <= |s| <= 64
    && forall c | c in s :: 'a' <= c <= 'z' || 'A' <= c <= 'Z' || Digit(c) || c == '.' || c == '-' || c == '_'
  }

  predicate ValidPassword(s: string) {
    Trim(s) != "" && Utf8Length(s) <= 72
  }

  // ---------------------------------------------------------------------------
  // The guard
  // ---------------------------------------------------------------------------

  predicate Manages(r: Row) {
    r.enabled && Has(r.permissions, ADMINS_MANAGE)
  }

  /** CountEnabledAdminConsoleUsersWith: the SQL count over the other rows. */
  function OtherManagers(t: Table, id: int): set<int> {
    set i | i in t.rows && i != id && t.rows[i].enabled && StoredHas(t.rows[i].permissions, ADMINS_MANAGE)
  }

  /** guardManagerRemoval: the same three questions in the same order. */
  function Guard(t: Table, id: int, permissions: seq<string>, enabled: bool): Outcome {
    if enabled && Has(permissions, ADMINS_MANAGE) then Done
    else if id !in t.rows then NotFound
    else if !Manages(t.rows[id]) then Done
    else if |OtherManagers(t, id)| == 0 then LastManager
    else Done
  }

  // ---------------------------------------------------------------------------
  // The commands
  // ---------------------------------------------------------------------------

  function Apply(t: Table, c: Command): (Table, Outcome) {
    match c
    case Create(username, password, permissions, enabled) =>
      if !ValidUsername(username) then (t, UsernameInvalid)
      else if Lower(Trim(username)) == BREAK_GLASS then (t, UsernameReserved)
      else if !ValidPassword(password) then (t, PasswordInvalid)
      else if exists i | i in t.rows :: Lower(t.rows[i].username) == Lower(Trim(username)) then (t, UsernameTaken)
      else (Table(t.rows[t.nextID := Row(Trim(username), password, Normalised(permissions), enabled, 1)], t.nextID + 1), Done)
    case Update(id, permissions, enabled) =>
      if id <= 0 then (t, NotFound)
      else
        var verdict := Guard(t, id, Normalised(permissions), enabled);
        if verdict != Done then (t, verdict)
        else if id !in t.rows then (t, NotFound)
        else (t.(rows := t.rows[id := t.rows[id].(permissions := Normalised(Normalised(permissions)), enabled := enabled)]), Done)
    case SetPassword(id, password) =>
      if id <= 0 then (t, NotFound)
      else if !ValidPassword(password) then (t, PasswordInvalid)
      else if id !in t.rows then (t, NotFound)
      else if t.rows[id].epoch >= MAX_EPOCH then (t, Overflow)
      else (t.(rows := t.rows[id := t.rows[id].(password := password, epoch := t.rows[id].epoch + 1)]), Done)
    case Delete(id) =>
      if id <= 0 then (t, NotFound)
      else
        var verdict := Guard(t, id, [], false);
        if verdict != Done then (t, verdict)
        else if id !in t.rows then (t, NotFound)
        else (t.(rows := t.rows - {id}), Done)
  }

  /** The console as it edits its table in place; each command is Apply. */
  class Console {
    var rows: map<int, Row>
    var nextID: int

    ghost function View(): Table
      reads this
    {
      Table(rows, nextID)
    }

    constructor ()
      ensures View() == Table(map[], 1)
    {
      rows, nextID := map[], 1;
    }

    method CheckManagerRemoval(id: int, permissions: seq<string>, enabled: bool) returns (verdict: Outcome)
      ensures verdict == Guard(View(), id, permissions, enabled)
    {
      var all, names, list := NewPanelPermissions(permissions);
      if enabled && (all || ADMINS_MANAGE in names) { return Done; }
      if id !in rows { return NotFound; }
      all, names, list := NewPanelPermissions(rows[id].permissions);
      if !rows[id].enabled || !(all || ADMINS_MANAGE in names) { return Done; }
      var others := set i | i in rows && i != id && rows[i].enabled && StoredHas(rows[i].permissions, ADMINS_MANAGE);
      assert others == OtherManagers(View(), id);
      if |others| == 0 { return LastManager; }
      return Done;
    }

    method Create(username: string, password: string, permissions: seq<string>, enabled: bool) returns (o: Outcome)
      modifies this
      ensures (View(), o) == Apply(old(View()), Command.Create(username, password, permissions, enabled))
    {
      if !ValidUsername(username) { return UsernameInvalid; }
      if Lower(Trim(username)) == BREAK_GLASS { return UsernameReserved; }
      if !ValidPassword(password) { return PasswordInvalid; }
      var stored := NormalisePermissions(permissions);
      if exists i | i in rows :: Lower(rows[i].username) == Lower(Trim(username)) { return UsernameTaken; }
      rows := rows[nextID := Row(Trim(username), password, stored, enabled, 1)];
      nextID := nextID + 1;
      return Done;
    }

    method Update(id: int, permissions: seq<string>, enabled: bool) returns (o: Outcome)
      modifies this`rows
      ensures (View(), o) == Apply(old(View()), Command.Update(id, permissions, enabled))
    {
      var wanted := NormalisePermissions(permissions);
      if id <= 0 { return NotFound; }
      o := CheckManagerRemoval(id, wanted, enabled);
      if o != Done { return; }
      if id !in rows { return NotFound; }
      var stored := NormalisePermissions(wanted);
      rows := rows[id := rows[id].(permissions := stored, enabled := enabled)];
    }

    method SetPassword(id: int, password: string) returns (o: Outcome)
      modifies this`rows
      ensures (View(), o) == Apply(old(View()), Command.SetPassword(id, password))
    {
      if id <= 0 { return NotFound; }
      if !ValidPassword(password) { return PasswordInvalid; }
      if id !in rows { return NotFound; }
      if rows[id].epoch >= MAX_EPOCH { return Overflow; }
      rows := rows[id := rows[id].(password := password, epoch := rows[id].epoch + 1)];
      return Done;
    }

    method Delete(id: int) returns (o: Outcome)
      modifies this`rows
      ensures (View(), o) == Apply(old(View()), Command.Delete(id))
    {
      if id <= 0 { return NotFound; }
      o := CheckManagerRemoval(id, [], false);
      if o != Done { return; }
      if id !in rows { return NotFound; }
      rows := rows - {id};
    }
  }

  // ---------------------------------------------------------------------------
  // What is refused, and why
  // ---------------------------------------------------------------------------

  /** A password is refused if it is all white space, or longer than 72 bytes; a name if it is
      shorter than 3 characters or longer than 64, or holds anything but ASCII letters, decimal
      digits, dots, dashes and underscores. */
  lemma CredentialsExactly(name: string, password: string)
    ensures ValidPassword(password) <==> !(forall c | c in password :: Space(c)) && Utf8Length(password) <= 72
    ensures ValidUsername(name) <==>
      && 3 <= |name| <= 64
      && forall c | c in name :: Digit(c) || c as int in [45, 46, 95] || 65 <= c as int <= 90 || 97 <= c as int <= 122
    ensures ValidUsername(name) ==> Trim(name) == name
  {
    BlankExactly(password);
    if ValidUsername(name) {
      assert name[0] in name && name[|name| - 1] in name;
      SpaceIsNoDigit(name[0]);
      SpaceIsNoDigit(name[|name| - 1]);
      TrimIsTrimmed(name);
    }
  }

  ghost predicate NameTaken(t: Table, name: string) {
    exists i :: i in t.rows && Lower(t.rows[i].username) == Lower(name)
  }

  /** Nobody else who is enabled lists the right to manage. */
  ghost predicate SoleManager(t: Table, id: int) {
    && id in t.rows && t.rows[id].enabled && Has(t.rows[id].permissions, ADMINS_MANAGE)
    && forall i | i in t.rows && i != id && t.rows[i].enabled :: "admins.manage" !in t.rows[i].permissions && "*" !in t.rows[i].permissions
  }

  lemma SoleMeansNoOthers(t: Table, id: int)
    ensures OtherManagers(t, id) == {} <==>
      forall i | i in t.rows && i != id && t.rows[i].enabled :: "admins.manage" !in t.rows[i].permissions && "*" !in t.rows[i].permissions
  {
    forall i | i in t.rows && i != id && t.rows[i].enabled
      ensures i in OtherManagers(t, id) <==> "admins.manage" in t.rows[i].permissions || "*" in t.rows[i].permissions
    {
    }
  }

  /** Each answer of each command, exactly; what is not done changes nothing. */
  lemma AnswersExactly(t: Table, c: Command)
    ensures Apply(t, c).1 != Done ==> Apply(t, c).0 == t
    ensures Apply(t, c).1 ==
      match c
      case Create(name, password, _, _) =>
        if !ValidUsername(name) then UsernameInvalid
        else if Lower(name) == "admin" then UsernameReserved
        else if !ValidPassword(password) then PasswordInvalid
        else if NameTaken(t, name) then UsernameTaken
        else Done
      case Update(id, permissions, enabled) =>
        if id <= 0 || id !in t.rows then NotFound
        else if SoleManager(t, id) && !(enabled && Has(permissions, "admins.manage")) then LastManager
        else Done
      case SetPassword(id, password) =>
        if id <= 0 then NotFound
        else if !ValidPassword(password) then PasswordInvalid
        else if id !in t.rows then NotFound
        else if t.rows[id].epoch >= 2_147_483_647 then Overflow
        else Done
      case Delete(id) =>
        if id <= 0 || id !in t.rows then NotFound
        else if SoleManager(t, id) then LastManager
        else Done
  {
    match c
    case Create(name, password, _, _) => CredentialsExactly(name, password);
    case Update(id, permissions, _) =>
      NormalisingKeepsRights(permissions, ADMINS_MANAGE);
      SoleMeansNoOthers(t, id);
      assert |OtherManagers(t, id)| == 0 <==> OtherManagers(t, id) == {};
    case SetPassword(_, _) =>
    case Delete(id) =>
      SoleMeansNoOthers(t, id);
      assert |OtherManagers(t, id)| == 0 <==> OtherManagers(t, id) == {};
  }

  // ---------------------------------------------------------------------------
  // Somebody can always manage operators
  // ---------------------------------------------------------------------------

  ghost predicate ManagerExists(t: Table) {
    exists i :: i in t.rows && Manages(t.rows[i])
  }

  lemma OthersManage(t: Table, id: int)
    ensures forall i | i in OtherManagers(t, id) :: Manages(t.rows[i])
    ensures (forall i | i in t.rows :: t.rows[i].permissions == Normalised(t.rows[i].permissions)) ==>
      forall i | i in t.rows && i != id && Manages(t.rows[i]) :: i in OtherManagers(t, id)
  {
    forall i | i in t.rows
      ensures StoredHas(t.rows[i].permissions, ADMINS_MANAGE) ==> Has(t.rows[i].permissions, ADMINS_MANAGE)
      ensures t.rows[i].permissions == Normalised(t.rows[i].permissions) ==>
        (StoredHas(t.rows[i].permissions, ADMINS_MANAGE) <==> Has(t.rows[i].permissions, ADMINS_MANAGE))
    {
      StoredHasAgrees(t.rows[i].permissions, ADMINS_MANAGE);
    }
  }

  /** No command takes the last enabled manager away, whatever lists the rows hold. */
  lemma CommandKeepsManager(t: Table, c: Command)
    requires ManagerExists(t) && (forall i | i in t.rows :: i < t.nextID)
    ensures ManagerExists(Apply(t, c).0)
  {
    var m :| m in t.rows && Manages(t.rows[m]);
    var t' := Apply(t, c).0;
    match c
    case Create(_, _, _, _) => assert m in t'.rows && Manages(t'.rows[m]);
    case SetPassword(id, _) => assert m in t'.rows && Manages(t'.rows[m]);
    case Update(id, permissions, enabled) =>
      NormalisingKeepsRights(Normalised(permissions), ADMINS_MANAGE);
      EditKeepsManager(t, t', id, Normalised(permissions), enabled, m);
    case Delete(id) => EditKeepsManager(t, t', id, [], false, m);
  }

  /** The guarded edits: they touch one row, and either it manages afterwards, or it did not
      before, or another row does. */
  lemma EditKeepsManager(t: Table, t': Table, id: int, permissions: seq<string>, enabled: bool, m: int)
    requires m in t.rows && Manages(t.rows[m])
    requires t' == t || (Guard(t, id, permissions, enabled) == Done && id in t.rows)
    requires forall i | i in t.rows && i != id :: i in t'.rows && t'.rows[i] == t.rows[i]
    requires t' != t && enabled && Has(permissions, ADMINS_MANAGE) ==> id in t'.rows && Manages(t'.rows[id])
    ensures ManagerExists(t')
  {
    if t' == t || m != id {
      assert m in t'.rows && Manages(t'.rows[m]);
    } else if !(enabled && Has(permissions, ADMINS_MANAGE)) {
      OthersManage(t, id);
      var other :| other in OtherManagers(t, id);
      assert other in t'.rows && Manages(t'.rows[other]);
    }
  }

  function Run(t: Table, commands: seq<Command>): Table {
    if commands == [] then t else Apply(Run(t, commands[..|commands| - 1]), commands[|commands| - 1]).0
  }

  /** What every table built by the commands satisfies. */
  ghost predicate TableOk(t: Table) {
    && t.nextID >= 1
    && (forall i | i in t.rows :: 0 < i < t.nextID && t.rows[i].permissions == Normalised(t.rows[i].permissions))
    && (forall i | i in t.rows :: Lower(t.rows[i].username) != BREAK_GLASS)
    && (forall i, j | i in t.rows && j in t.rows && i != j :: Lower(t.rows[i].username) != Lower(t.rows[j].username))
  }

  lemma CreateKeepsTable(t: Table, c: Command)
    requires TableOk(t) && c.Create? && Apply(t, c).1 == Done
    ensures TableOk(Apply(t, c).0)
  {
    NormalisingKeepsRights(c.permissions, ALL);
    var t' := Apply(t, c).0;
    assert forall i | i in t'.rows && i != t.nextID :: i in t.rows && t'.rows[i] == t.rows[i];
    assert Lower(t'.rows[t.nextID].username) == Lower(Trim(c.username));
  }

  lemma CommandKeepsTable(t: Table, c: Command)
    requires TableOk(t)
    ensures TableOk(Apply(t, c).0)
  {
    var (t', o) := Apply(t, c);
    if o == Done {
      match c
      case Create(_, _, _, _) => CreateKeepsTable(t, c);
      case Update(id, permissions, _) =>
        NormalisingKeepsRights(permissions, ALL);
        assert forall i | i in t'.rows :: i in t.rows && t'.rows[i].username == t.rows[i].username;
      case SetPassword(_, _) => assert forall i | i in t'.rows :: i in t.rows && t'.rows[i].username == t.rows[i].username;
      case Delete(_) => assert forall i | i in t'.rows :: i in t.rows && t'.rows[i] == t.rows[i];
    }
  }

  /** Over every run of commands, once an enabled manager exists one always does. */
  lemma {:induction false} ManagerForever(t: Table, commands: seq<Command>)
    requires TableOk(t)
    ensures TableOk(Run(t, commands))
    ensures ManagerExists(t) ==> ManagerExists(Run(t, commands))
  {
    if commands != [] {
      var before := Run(t, commands[..|commands| - 1]);
      ManagerForever(t, commands[..|commands| - 1]);
      CommandKeepsTable(before, commands[|commands| - 1]);
      if ManagerExists(before) { CommandKeepsManager(before, commands[|commands| - 1]); }
    }
  }

  /** On a table the commands built, the guard refuses exactly the edit that would leave no
      enabled manager. */
  lemma GuardIsExact(t: Table, id: int, permissions: seq<string>, enabled: bool)
    requires TableOk(t) && id in t.rows && permissions == Normalised(permissions)
    ensures var edited := t.(rows := t.rows[id := t.rows[id].(permissions := permissions, enabled := enabled)]);
      Guard(t, id, permissions, enabled) == LastManager <==> ManagerExists(t) && !ManagerExists(edited)
  {
    var edited := t.(rows := t.rows[id := t.rows[id].(permissions := permissions, enabled := enabled)]);
    OthersManage(t, id);
    assert |OtherManagers(t, id)| == 0 <==> OtherManagers(t, id) == {};
    assert Manages(edited.rows[id]) <==> enabled && Has(permissions, ADMINS_MANAGE);
    if i :| i in OtherManagers(t, id) { assert i in edited.rows && Manages(edited.rows[i]); }
    if Manages(t.rows[id]) { assert ManagerExists(t); }
    if Manages(edited.rows[id]) { assert ManagerExists(edited); }
    if m :| m in t.rows && m != id && Manages(t.rows[m]) { assert Manages(edited.rows[m]) && m in OtherManagers(t, id); }
  }

  /** On any table whatever: the guard lets no edit through that takes the last manager away, and
      it wrongly refuses an edit exactly when the row manages and would stop to, some other enabled
      row is granted the right by the panel, and no other enabled row lists it word for word. */
  lemma GuardErrsExactly(t: Table, id: int, permissions: seq<string>, enabled: bool)
    requires id in t.rows
    ensures var edited := t.(rows := t.rows[id := t.rows[id].(permissions := permissions, enabled := enabled)]);
      && (Guard(t, id, permissions, enabled) == Done && ManagerExists(t) ==> ManagerExists(edited))
      && (Guard(t, id, permissions, enabled) == LastManager && ManagerExists(edited) <==>
            && Manages(t.rows[id]) && !(enabled && Has(permissions, ADMINS_MANAGE))
            && (exists i :: i in t.rows && i != id && Manages(t.rows[i]))
            && (forall i | i in t.rows && i != id && t.rows[i].enabled :: !StoredHas(t.rows[i].permissions, ADMINS_MANAGE)))
  {
    var edited := t.(rows := t.rows[id := t.rows[id].(permissions := permissions, enabled := enabled)]);
    OthersManage(t, id);
    assert |OtherManagers(t, id)| == 0 <==> OtherManagers(t, id) == {};
    assert Manages(edited.rows[id]) <==> enabled && Has(permissions, ADMINS_MANAGE);
    if i :| i in OtherManagers(t, id) { assert i in edited.rows && Manages(edited.rows[i]); }
    if m :| m in t.rows && m != id && Manages(t.rows[m]) { assert m in edited.rows && Manages(edited.rows[m]); }
    if forall i | i in t.rows && i != id && t.rows[i].enabled :: !StoredHas(t.rows[i].permissions, ADMINS_MANAGE) {
      assert OtherManagers(t, id) == {};
    } else {
      var i :| i in t.rows && i != id && t.rows[i].enabled && StoredHas(t.rows[i].permissions, ADMINS_MANAGE);
      assert i in OtherManagers(t, id);
    }
  }

  /** Normalisation is needed for that: beside a hand-written row the guard refuses an edit that
      would have left a manager. */
  lemma GuardWithoutNormalisation()
    ensures var t := Table(map[1 := Row("anna", "p", [ADMINS_MANAGE], true, 1), 2 := Row("bert", "q", [" admins.manage"], true, 1)], 3);
      && Guard(t, 1, [], false) == LastManager
      && ManagerExists(t.(rows := t.rows - {1}))
  {
    var t := Table(map[1 := Row("anna", "p", [ADMINS_MANAGE], true, 1), 2 := Row("bert", "q", [" admins.manage"], true, 1)], 3);
    StoredHasAgrees([ADMINS_MANAGE], ADMINS_MANAGE);
    assert " admins.manage"[1..] == ADMINS_MANAGE;
    assert TrimLeft(" admins.manage") == ADMINS_MANAGE;
    TrimIsTrimmed(ADMINS_MANAGE);
    NamesMeaning([" admins.manage"], ADMINS_MANAGE);
    assert OtherManagers(t, 1) == {};
    var left := t.(rows := t.rows - {1});
    assert 2 in left.rows && Manages(left.rows[2]);
  }
}
