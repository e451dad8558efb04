/**
 The optimistic lock behind the verification commands (internal/store/postgres/verification.go,
 internal/store/postgres/bot_verification.go): records are inserted once and never deleted, and
 every later statement names the version it read, moves the status only along the status machine,
 and raises the version.
 */
module RecordStore {
  import opened Wrappers
  import opened ReviewCommands

  datatype Store = Store(applications: map<int, Application>, requests: map<int, Request>)

  datatype Update =
    | FileApplication(id: int, app: Application)
    | EditDraft(id: int, version: int)
    | MoveApplication(id: int, version: int, status: Status)
    | FileRequest(r: Request)
    | DecideRequest(id: int, version: int, status: Status)

  /** One statement; it leaves the store alone when its guard fails. */
  function Commit(s: Store, u: Update): Store {
    match u
    case FileApplication(id, app) =>
      if id in s.applications then s else s.(applications := s.applications[id := app])
    case EditDraft(id, version) =>
      if id in s.applications && s.applications[id].version == version
      then s.(applications := s.applications[id := s.applications[id].(version := version + 1)]) else s
    case MoveApplication(id, version, status) =>
      if id in s.applications && s.applications[id].version == version && CanMove(s.applications[id].status, status)
      then s.(applications := s.applications[id := s.applications[id].(status := status, version := version + 1)]) else s
    case FileRequest(r) =>
      if r.id in s.requests then s else s.(requests := s.requests[r.id := r])
    case DecideRequest(id, version, status) =>
      if id in s.requests && s.requests[id].version == version && CanMoveCustom(s.requests[id].status, status)
      then s.(requests := s.requests[id := s.requests[id].(status := status, version := version + 1)]) else s
  }

  function After(s: Store, updates: seq<Update>): Store {
    if updates == [] then s else Commit(After(s, updates[..|updates| - 1]), updates[|updates| - 1])
  }

  /** The version of a record identifies it: it only grows, and while it is the same nothing about
      the record has changed. */
  lemma {:induction false} VersionIdentifies(s: Store, updates: seq<Update>)
    ensures var s' := After(s, updates);
      && (forall id | id in s.applications ::
            && id in s'.applications && s.applications[id].version <= s'.applications[id].version
            && (s.applications[id].version == s'.applications[id].version ==> s'.applications[id] == s.applications[id]))
      && (forall id | id in s.requests ::
            && id in s'.requests && s.requests[id].version <= s'.requests[id].version
            && (s.requests[id].version == s'.requests[id].version ==> s'.requests[id] == s.requests[id]))
  {
    if updates != [] { VersionIdentifies(s, updates[..|updates| - 1]); }
  }

  /** A dry run that read an open application holds for a real run that reads it after any further
      statements exactly as VersionDecides says. */
  lemma DryRunHoldsExactly(systemUser: int -> bool, c: Call, s: Store, updates: seq<Update>, earlier: View, later: View)
    requires c.Claim? || c.Approve? || c.Reject?
    requires c.id in s.applications && earlier.application == Some(Ok(s.applications[c.id]))
    requires c.id in After(s, updates).applications && later.application == Some(Ok(After(s, updates).applications[c.id]))
    requires Allowed(systemUser, c, earlier) && (c.Approve? ==> Read(later.target))
    requires s.applications[c.id].status != APPROVED && s.applications[c.id].status != REJECTED
    ensures var now := After(s, updates).applications[c.id];
      var same := now.version == s.applications[c.id].version;
      Allowed(systemUser, c, later) <==>
      match c
      case Claim(_, _) => same
      case Approve(_, _) => now.status == APPROVED || (same && later.target.value.value.eligible)
      case Reject(_, _) => now.status == REJECTED || same
  {
    VersionIdentifies(s, updates);
    VersionDecides(systemUser, c, earlier, later);
  }

  /** The same for a request to a verifier. */
  lemma RequestRunHoldsExactly(systemUser: int -> bool, c: Call, s: Store, updates: seq<Update>, earlier: View, later: View)
    requires c.ApproveRequest? || c.RejectRequest? || c.RevokeRequest?
    requires c.id in s.requests && s.requests[c.id].id == c.id && earlier.request == Some(Ok(s.requests[c.id]))
    requires c.id in After(s, updates).requests && later.request == Some(Ok(After(s, updates).requests[c.id]))
    requires Allowed(systemUser, c, earlier)
    requires s.requests[c.id].status != if c.ApproveRequest? then APPROVED else if c.RejectRequest? then REJECTED else REVOKED
    ensures var now := After(s, updates).requests[c.id];
      var same := now.version == s.requests[c.id].version;
      Allowed(systemUser, c, later) <==>
      match c
      case ApproveRequest(_, _) => now.status == APPROVED || (same && Verifies(later, now.botID))
      case RejectRequest(_, _) => now.status == REJECTED || same
      case RevokeRequest(_, _) => MarkReadable(later, now.botID, now.peer) && (now.status == REVOKED || same)
  {
    VersionIdentifies(s, updates);
    RequestKeepsName(s, updates, c.id);
    RequestVersionDecides(systemUser, c, earlier, later);
  }

  lemma {:induction false} RequestKeepsName(s: Store, updates: seq<Update>, id: int)
    requires id in s.requests
    ensures id in After(s, updates).requests && After(s, updates).requests[id].id == s.requests[id].id
  {
    if updates != [] { RequestKeepsName(s, updates[..|updates| - 1], id); }
  }
}
