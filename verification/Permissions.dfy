/**
 Panel permission lists: how they are normalised before they are stored
 (cmd/telesrv-admin/adminusers_api.go) and how a session's rights are read from them
 (cmd/telesrv-admin/security.go).
 */
module Permissions {
  import opened Strings

  const ALL := "*"
  const ADMINS_MANAGE := "admins.manage"

  /** The trimmed, non-empty names of a list, each at its first occurrence. */
  function Names(permissions: seq<string>): seq<string> {
    if permissions == [] then []
    else
      var before, name := Names(permissions[..|permissions| - 1]), Trim(permissions[|permissions| - 1]);
      if name == "" || name in before then before else before + [name]
  }

  /** normalisePermissions: the wildcard swallows everything else. */
  function Normalised(permissions: seq<string>): seq<string> {
    if ALL in Names(permissions) then [ALL] else Names(permissions)
  }

  /** newPanelPermissions(list).Has(name) */
  predicate Has(permissions: seq<string>, name: string) {
    ALL in Names(permissions) || name in Names(permissions)
  }

  /** The loop of normalisePermissions, which leaves early at a wildcard. */
  method NormalisePermissions(permissions: seq<string>) returns (out: seq<string>)
    ensures out == Normalised(permissions)
  {
    var seen := {};
    out := [];
    var i := 0;
    while i < |permissions|
      invariant 0 <= i <= |permissions| && out == Names(permissions[..i]) && ALL !in out
      invariant forall name :: name in seen <==> name in out
    {
      var name := Trim(permissions[i]);
      assert permissions[..i + 1][..i] == permissions[..i];
      i := i + 1;
      if name == "" { continue; }
      if name == ALL {
        assert ALL in Names(permissions[..i]);
        NamesGrow(permissions, i);
        return [ALL];
      }
      if name in seen { continue; }
      seen := seen + {name};
      out := out + [name];
    }
    assert permissions[..i] == permissions;
  }

  /** The loop of newPanelPermissions: the flag, the set and the list it builds. */
  method NewPanelPermissions(permissions: seq<string>) returns (all: bool, names: set<string>, list: seq<string>)
    ensures list == Names(permissions) && names == (set name | name in list) && (all <==> ALL in list)
  {
    all, names, list := false, {}, [];
    var i := 0;
    while i < |permissions|
      invariant 0 <= i <= |permissions| && list == Names(permissions[..i])
      invariant forall name :: name in names <==> name in list
      invariant all <==> ALL in list
    {
      var name := Trim(permissions[i]);
      assert permissions[..i + 1][..i] == permissions[..i];
      i := i + 1;
      if name == "" || name in names { continue; }
      if name == ALL { all := true; }
      names := names + {name};
      list := list + [name];
    }
    assert permissions[..i] == permissions;
  }

  lemma {:induction false} NamesGrow(permissions: seq<string>, i: nat)
    requires i <= |permissions|
    ensures forall name | name in Names(permissions[..i]) :: name in Names(permissions)
  {
    if i < |permissions| {
      NamesGrow(permissions[..|permissions| - 1], i);
      assert permissions[..|permissions| - 1][..i] == permissions[..i];
    } else {
      assert permissions[..i] == permissions;
    }
  }

  /** A name is granted exactly when some entry trims to it. */
  lemma {:induction false} NamesMeaning(permissions: seq<string>, name: string)
    ensures name in Names(permissions) <==> name != "" && exists p | p in permissions :: Trim(p) == name
    ensures name in Names(permissions) ==> Trimmed(name)
  {
    if permissions != [] {
      var init, last := permissions[..|permissions| - 1], permissions[|permissions| - 1];
      NamesMeaning(init, name);
      TrimIsTrimmed(last);
      assert forall p :: p in permissions <==> p in init || p == last;
    }
  }

  lemma {:induction false} NamesDistinct(permissions: seq<string>)
    ensures forall i, j | 0 <= i < j < |Names(permissions)| :: Names(permissions)[i] != Names(permissions)[j]
  {
    if permissions != [] { NamesDistinct(permissions[..|permissions| - 1]); }
  }

  /** Names of trimmed, non-empty, distinct names are those names. */
  lemma {:induction false} NamesFixed(names: seq<string>)
    requires forall name | name in names :: name != "" && Trimmed(name)
    requires forall i, j | 0 <= i < j < |names| :: names[i] != names[j]
    ensures Names(names) == names
  {
    if names != [] {
      var init, last := names[..|names| - 1], names[|names| - 1];
      assert forall name | name in init :: name in names;
      NamesFixed(init);
      assert last in names;
      TrimIsTrimmed(last);
      assert init + [last] == names;
    }
  }

  /** Normalising is idempotent and changes nobody's rights. */
  lemma NormalisingKeepsRights(permissions: seq<string>, name: string)
    ensures Normalised(Normalised(permissions)) == Normalised(permissions)
    ensures Has(Normalised(permissions), name) <==> Has(permissions, name)
  {
    forall n | n in Names(permissions) ensures n != "" && Trimmed(n) { NamesMeaning(permissions, n); }
    NamesDistinct(permissions);
    NamesFixed(Names(permissions));
    NamesFixed([ALL]);
  }

  /** What the SQL count tests on the stored array: exact elements, no trimming. */
  predicate StoredHas(permissions: seq<string>, name: string) {
    name in permissions || ALL in permissions
  }

  /** The SQL test never claims more than the panel grants, and on a normalised list says the same. */
  lemma StoredHasAgrees(permissions: seq<string>, name: string)
    requires name != "" && Trimmed(name)
    ensures StoredHas(permissions, name) ==> Has(permissions, name)
    ensures permissions == Normalised(permissions) ==> (StoredHas(permissions, name) <==> Has(permissions, name))
  {
    NamesMeaning(permissions, name);
    NamesMeaning(permissions, ALL);
    TrimIsTrimmed(name);
    TrimIsTrimmed(ALL);
  }
}
