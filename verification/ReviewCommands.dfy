/**
 The operator commands of official and third-party verification (internal/admin/verification.go,
 internal/admin/botverification.go).  Each command is one closure that reads a few records, one
 call at a time, and then refuses, stops short as a dry run, or makes its one mutating call.
 Other operators may act between any two of these reads, so a closure is written as what it does
 next given the answers it has heard.
 */
module ReviewCommands {
  import opened Wrappers

  type Status = string
  type Outcome<T> = Result<T, string>

  const DRAFT: Status := "draft"
  const SUBMITTED: Status := "submitted"
  const IN_REVIEW: Status := "in_review"
  const CANCELLED: Status := "cancelled"
  const PENDING: Status := "pending"
  const APPROVED: Status := "approved"
  const REJECTED: Status := "rejected"
  const REVOKED: Status := "revoked"

  datatype Application = Application(status: Status, version: int, targetType: string, targetID: int)
  datatype Target = Target(eligible: bool, reason: string)
  datatype Request = Request(id: int, status: Status, version: int, botID: int, peer: Peer)
  datatype Verifier = Verifier(botID: int, enabled: bool, version: int)
  datatype Icon = Icon(documentID: int, ownerBotID: int, active: bool)
  datatype Peer = Peer(kind: string, id: int)

  /** The calls that change something; a command is named by the call it is about. */
  datatype Call =
    | Claim(id: int, version: int)
    | Approve(id: int, version: int)
    | Reject(id: int, version: int)
    | Revoke(targetType: string, targetID: int)
    | GrantVerifier(botID: int, iconID: int, version: int, enabled: bool)
    | SetVerifierEnabled(botID: int, enabled: bool)
    | RevokeVerifier(botID: int)
    | UpsertIcon(documentID: int, ownerBotID: int, name: string)
    | SetIconActive(iconID: int, active: bool)
    | RevokeMark(botID: int, peer: Peer)
    | GrantDirect(botID: int, peer: Peer, description: string)
    | ApproveRequest(id: int, version: int)
    | RejectRequest(id: int, version: int)
    | RevokeRequest(id: int, version: int)

  datatype Query =
    | ApplicationOf(id: int)
    | TargetOf(targetType: string, targetID: int)
    | VerifierOf(botID: int)
    | IconPage
    | MarkOf(botID: int, peer: Peer)
    | MarkCountOf(botID: int)
    | RequestOf(id: int)

  /** The answers a closure has heard so far; it asks each question at most once. */
  datatype View = View(
    application: Option<Outcome<Application>>,
    target: Option<Outcome<Target>>,
    verifier: Option<Outcome<Verifier>>,
    icons: Option<Outcome<seq<Icon>>>,
    mark: Option<Outcome<nat>>,
    count: Option<Outcome<nat>>,
    request: Option<Outcome<Request>>)

  const NOTHING_HEARD := View(None, None, None, None, None, None, None)

  /** What a closure does next. */
  datatype Move = Ask(query: Query) | Refuse(error: string) | Pass | Do(call: Call)

  const NOT_FOUND := "VERIFIER_NOT_FOUND"

  // ---------------------------------------------------------------------------
  // Shared checks
  // ---------------------------------------------------------------------------

  /** CanTransitionVerificationStatus */
  predicate CanMove(from: Status, to: Status) {
    if from == DRAFT then to == SUBMITTED || to == CANCELLED
    else if from == SUBMITTED then to == IN_REVIEW || to == APPROVED || to == REJECTED || to == CANCELLED
    else if from == IN_REVIEW then to == APPROVED || to == REJECTED || to == SUBMITTED || to == CANCELLED
    else false
  }

  /** CanTransitionCustomVerificationStatus */
  predicate CanMoveCustom(from: Status, to: Status) {
    if from == PENDING then to == APPROVED || to == REJECTED
    else if from == APPROVED then to == REVOKED
    else false
  }

  /** verificationTransition */
  function Transition(app: Application, version: int, next: Status, idempotent: bool): Outcome<()> {
    if idempotent && app.status == next then Ok(())
    else if !CanMove(app.status, next) then Err("STATUS_INVALID")
    else if app.version != version then Err("CONFLICT")
    else Ok(())
  }

  /** botVerificationTransition */
  function CustomTransition(r: Request, version: int, next: Status): Outcome<()> {
    if r.status == next then Ok(())
    else if !CanMoveCustom(r.status, next) then Err("STATUS_INVALID")
    else if r.version != version then Err("CONFLICT")
    else Ok(())
  }

  datatype VerifierState = Present(v: Verifier) | Missing | Unreadable(error: string)

  /** botVerifierState: "not a verifier" is an answer, not a failure. */
  function StateOf(answer: Outcome<Verifier>, botID: int): VerifierState {
    match answer
    case Ok(v) => if v.botID == botID then Present(v) else Missing
    case Err(e) => if e == NOT_FOUND then Missing else Unreadable(e)
  }

  /** grantIconPreflight: only an icon found in the page and unusable is refused. */
  function IconPreflight(icons: seq<Icon>, botID: int, documentID: int): Outcome<()> {
    if icons == [] then Ok(())
    else if icons[0].documentID != documentID then IconPreflight(icons[1..], botID, documentID)
    else if !icons[0].active then Err("ICON_INACTIVE")
    else if icons[0].ownerBotID != 0 && icons[0].ownerBotID != botID then Err("ICON_NOT_FOUND")
    else Ok(())
  }

  /** botVerificationSubject */
  function Subject(answer: Outcome<Request>, id: int): Outcome<Request> {
    if answer.Ok? && answer.value.id != id then Err("REQUEST_NOT_FOUND") else answer
  }

  /** mergeVerifierDecisionDetails with the verifier required to be enabled */
  function RequireEnabled(v: VerifierState): Outcome<()> {
    match v
    case Unreadable(e) => Err(e)
    case Present(v) => if v.enabled then Ok(()) else Err("VERIFIER_FORBIDDEN")
    case Missing => Err("VERIFIER_FORBIDDEN")
  }

  /** CustomVerificationMarkActive asks nothing about an impossible pair. */
  predicate MarkKnown(view: View, botID: int, peer: Peer) {
    view.mark.Some? || botID <= 0 || peer.id <= 0
  }

  predicate UserNamespace(targetType: string) {
    targetType != "channel" && targetType != "supergroup"
  }

  // ---------------------------------------------------------------------------
  // The closures
  // ---------------------------------------------------------------------------

  function ClaimVerification(id: int, version: int, view: View, dry: bool): Move {
    match view.application
    case None => Ask(ApplicationOf(id))
    case Some(Err(e)) => Refuse(e)
    case Some(Ok(app)) =>
      match Transition(app, version, IN_REVIEW, false)
      case Err(e) => Refuse(e)
      case Ok(_) => if dry then Pass else Do(Claim(id, version))
  }

  /** An application already approved is a replay: its target is read but not required. */
  function ApproveVerification(id: int, version: int, view: View, dry: bool): Move {
    match view.application
    case None => Ask(ApplicationOf(id))
    case Some(Err(e)) => Refuse(e)
    case Some(Ok(app)) =>
      match Transition(app, version, APPROVED, true)
      case Err(e) => Refuse(e)
      case Ok(_) =>
        var replay := app.status == APPROVED;
        match view.target
        case None => Ask(TargetOf(app.targetType, app.targetID))
        case Some(Err(e)) => Refuse(e)
        case Some(Ok(t)) =>
          if !replay && !t.eligible then Refuse(t.reason)
          else if dry then Pass
          else Do(Approve(id, version))
  }

  function RejectVerification(id: int, version: int, view: View, dry: bool): Move {
    match view.application
    case None => Ask(ApplicationOf(id))
    case Some(Err(e)) => Refuse(e)
    case Some(Ok(app)) =>
      match Transition(app, version, REJECTED, true)
      case Err(e) => Refuse(e)
      case Ok(_) => if dry then Pass else Do(Reject(id, version))
  }

  function RevokeVerification(systemUser: int -> bool, targetType: string, targetID: int, view: View, dry: bool): Move {
    if UserNamespace(targetType) && systemUser(targetID) then Refuse("TARGET_SYSTEM")
    else
      match view.target
      case None => Ask(TargetOf(targetType, targetID))
      case Some(Err(e)) => Refuse(e)
      case Some(Ok(t)) => if dry then Pass else Do(Revoke(targetType, targetID))
  }

  function GrantBotVerifier(botID: int, iconID: int, version: int, view: View, dry: bool): Move {
    match view.verifier
    case None => Ask(VerifierOf(botID))
    case Some(answer) =>
      match StateOf(answer, botID)
      case Unreadable(e) => Refuse(e)
      case Missing => if version != 0 then Refuse(NOT_FOUND) else GrantWithIcon(botID, iconID, version, true, view, dry)
      case Present(v) =>
        if version != v.version then Refuse("CONFLICT") else GrantWithIcon(botID, iconID, version, v.enabled, view, dry)
  }

  function GrantWithIcon(botID: int, iconID: int, version: int, enabled: bool, view: View, dry: bool): Move {
    match view.icons
    case None => Ask(IconPage)
    case Some(answer) =>
      var icon := match answer
        case Err(_) => Ok(())
        case Ok(icons) => IconPreflight(icons, botID, iconID);
      match icon
      case Err(e) => Refuse(e)
      case Ok(_) => if dry then Pass else Do(GrantVerifier(botID, iconID, version, enabled))
  }

  function SetBotVerifierEnabled(botID: int, enabled: bool, view: View, dry: bool): Move {
    match view.verifier
    case None => Ask(VerifierOf(botID))
    case Some(answer) =>
      match StateOf(answer, botID)
      case Unreadable(e) => Refuse(e)
      case Missing => Refuse(NOT_FOUND)
      case Present(_) => if dry then Pass else Do(SetVerifierEnabled(botID, enabled))
  }

  /** The mark count it reports is advisory: a failing read does not stop it. */
  function RevokeBotVerifier(botID: int, view: View, dry: bool): Move {
    match view.verifier
    case None => Ask(VerifierOf(botID))
    case Some(answer) =>
      var state := StateOf(answer, botID);
      if state.Unreadable? then Refuse(state.error)
      else if state.Present? && view.count.None? then Ask(MarkCountOf(botID))
      else if dry then Pass
      else Do(RevokeVerifier(botID))
  }

  function RevokeCustomVerification(botID: int, peer: Peer, view: View, dry: bool): Move {
    if !MarkKnown(view, botID, peer) then Ask(MarkOf(botID, peer))
    else if view.mark.Some? && view.mark.value.Err? then Refuse(view.mark.value.error)
    else if dry then Pass
    else Do(RevokeMark(botID, peer))
  }

  function GrantCustomVerification(botID: int, peer: Peer, description: string, view: View, dry: bool): Move {
    match view.verifier
    case None => Ask(VerifierOf(botID))
    case Some(answer) =>
      match RequireEnabled(StateOf(answer, botID))
      case Err(e) => Refuse(e)
      case Ok(_) =>
        if !MarkKnown(view, botID, peer) then Ask(MarkOf(botID, peer))
        else if view.mark.Some? && view.mark.value.Err? then Refuse(view.mark.value.error)
        else if dry then Pass
        else Do(GrantDirect(botID, peer, description))
  }

  /** A request already approved is a replay: its verifier is not even read. */
  function ApproveBotVerification(id: int, version: int, view: View, dry: bool): Move {
    match view.request
    case None => Ask(RequestOf(id))
    case Some(answer) =>
      match Subject(answer, id)
      case Err(e) => Refuse(e)
      case Ok(r) =>
        match CustomTransition(r, version, APPROVED)
        case Err(e) => Refuse(e)
        case Ok(_) =>
          if r.status != APPROVED && view.verifier.None? then Ask(VerifierOf(r.botID))
          else
            var gate := if r.status == APPROVED then Ok(()) else RequireEnabled(StateOf(view.verifier.value, r.botID));
            match gate
            case Err(e) => Refuse(e)
            case Ok(_) => if dry then Pass else Do(ApproveRequest(id, version))
  }

  function RejectBotVerification(id: int, version: int, view: View, dry: bool): Move {
    match view.request
    case None => Ask(RequestOf(id))
    case Some(answer) =>
      match Subject(answer, id)
      case Err(e) => Refuse(e)
      case Ok(r) =>
        match CustomTransition(r, version, REJECTED)
        case Err(e) => Refuse(e)
        case Ok(_) => if dry then Pass else Do(RejectRequest(id, version))
  }

  function RevokeBotVerification(id: int, version: int, view: View, dry: bool): Move {
    match view.request
    case None => Ask(RequestOf(id))
    case Some(answer) =>
      match Subject(answer, id)
      case Err(e) => Refuse(e)
      case Ok(r) =>
        match CustomTransition(r, version, REVOKED)
        case Err(e) => Refuse(e)
        case Ok(_) =>
          if !MarkKnown(view, r.botID, r.peer) then Ask(MarkOf(r.botID, r.peer))
          else if view.mark.Some? && view.mark.value.Err? then Refuse(view.mark.value.error)
          else if dry then Pass
          else Do(RevokeRequest(id, version))
  }

  function Next(systemUser: int -> bool, c: Call, dry: bool, view: View): Move {
    match c
    case Claim(id, v) => ClaimVerification(id, v, view, dry)
    case Approve(id, v) => ApproveVerification(id, v, view, dry)
    case Reject(id, v) => RejectVerification(id, v, view, dry)
    case Revoke(k, id) => RevokeVerification(systemUser, k, id, view, dry)
    case GrantVerifier(b, i, v, _) => GrantBotVerifier(b, i, v, view, dry)
    case SetVerifierEnabled(b, e) => SetBotVerifierEnabled(b, e, view, dry)
    case RevokeVerifier(b) => RevokeBotVerifier(b, view, dry)
    case UpsertIcon(_, _, _) => if dry then Pass else Do(c)
    case SetIconActive(_, _) => if dry then Pass else Do(c)
    case RevokeMark(b, p) => RevokeCustomVerification(b, p, view, dry)
    case GrantDirect(b, p, d) => GrantCustomVerification(b, p, d, view, dry)
    case ApproveRequest(id, v) => ApproveBotVerification(id, v, view, dry)
    case RejectRequest(id, v) => RejectBotVerification(id, v, view, dry)
    case RevokeRequest(id, v) => RevokeBotVerification(id, v, view, dry)
  }

  // ---------------------------------------------------------------------------
  // What lets a command through
  // ---------------------------------------------------------------------------

  /** The first icon of the page for the document, if there is one, is active and usable. */
  ghost predicate IconUsable(icons: seq<Icon>, botID: int, documentID: int) {
    forall k | 0 <= k < |icons| && icons[k].documentID == documentID && (forall j | 0 <= j < k :: icons[j].documentID != documentID) ::
      icons[k].active && (icons[k].ownerBotID == 0 || icons[k].ownerBotID == botID)
  }

  predicate Read<T>(answer: Option<Outcome<T>>) {
    answer.Some? && answer.value.Ok?
  }

  predicate Decidable(view: View, version: int) {
    Read(view.application) && view.application.value.value.status in {SUBMITTED, IN_REVIEW} && view.application.value.value.version == version
  }

  predicate Already(view: View, status: Status) {
    Read(view.application) && view.application.value.value.status == status
  }

  predicate Requested(view: View, id: int, status: Status) {
    Read(view.request) && view.request.value.value.id == id && view.request.value.value.status == status
  }

  /** The read found a verifier row of the bot. */
  predicate HasVerifier(view: View, botID: int) {
    Read(view.verifier) && view.verifier.value.value.botID == botID
  }

  /** The read found that there is none. */
  predicate HasNoVerifier(view: View, botID: int) {
    (Read(view.verifier) && view.verifier.value.value.botID != botID) || view.verifier == Some(Err("VERIFIER_NOT_FOUND"))
  }

  predicate Verifies(view: View, botID: int) {
    HasVerifier(view, botID) && view.verifier.value.value.enabled
  }

  /** The mark of a pair that can have one was read. */
  predicate MarkReadable(view: View, botID: int, peer: Peer) {
    if view.mark.Some? then view.mark.value.Ok? else botID <= 0 || peer.id <= 0
  }

  /** The command as a condition on the records that were read, with no order of questions. */
  ghost predicate Allowed(systemUser: int -> bool, c: Call, view: View) {
    match c
    case Claim(_, v) => Already(view, SUBMITTED) && Decidable(view, v)
    case Approve(_, v) =>
      Read(view.target) && (Already(view, APPROVED) || (Decidable(view, v) && view.target.value.value.eligible))
    case Reject(_, v) => Already(view, REJECTED) || Decidable(view, v)
    case Revoke(k, id) => (systemUser(id) ==> k == "channel" || k == "supergroup") && Read(view.target)
    case GrantVerifier(b, i, v, _) =>
      && ((HasVerifier(view, b) && v == view.verifier.value.value.version) || (HasNoVerifier(view, b) && v == 0))
      && view.icons.Some? && (Read(view.icons) ==> IconUsable(view.icons.value.value, b, i))
    case SetVerifierEnabled(b, _) => HasVerifier(view, b)
    case RevokeVerifier(b) => HasNoVerifier(view, b) || (HasVerifier(view, b) && view.count.Some?)
    case UpsertIcon(_, _, _) => true
    case SetIconActive(_, _) => true
    case RevokeMark(b, p) => MarkReadable(view, b, p)
    case GrantDirect(b, p, _) => Verifies(view, b) && MarkReadable(view, b, p)
    case ApproveRequest(id, v) =>
      || Requested(view, id, APPROVED)
      || (Requested(view, id, PENDING) && view.request.value.value.version == v && Verifies(view, view.request.value.value.botID))
    case RejectRequest(id, v) =>
      Requested(view, id, REJECTED) || (Requested(view, id, PENDING) && view.request.value.value.version == v)
    case RevokeRequest(id, v) =>
      && (Requested(view, id, REVOKED) || (Requested(view, id, APPROVED) && view.request.value.value.version == v))
      && MarkReadable(view, view.request.value.value.botID, view.request.value.value.peer)
  }

  /** The call a command makes: its own, except that a reconfigured verifier keeps its kill switch. */
  function Granted(c: Call, view: View): Call {
    if !c.GrantVerifier? then c
    else GrantVerifier(c.botID, c.iconID, c.version, HasVerifier(view, c.botID) ==> view.verifier.value.value.enabled)
  }

  lemma {:induction false} PreflightMeans(icons: seq<Icon>, botID: int, documentID: int)
    ensures IconPreflight(icons, botID, documentID).Ok? <==> IconUsable(icons, botID, documentID)
  {
    if icons != [] {
      if icons[0].documentID == documentID {
        assert IconUsable(icons, botID, documentID) <==> icons[0].active && (icons[0].ownerBotID == 0 || icons[0].ownerBotID == botID);
      } else {
        PreflightMeans(icons[1..], botID, documentID);
        SkipFirst(icons, botID, documentID);
      }
    }
  }

  lemma SkipFirst(icons: seq<Icon>, botID: int, documentID: int)
    requires icons != [] && icons[0].documentID != documentID
    ensures IconUsable(icons, botID, documentID) <==> IconUsable(icons[1..], botID, documentID)
  {
    var rest := icons[1..];
    forall k | 0 <= k < |rest| && rest[k].documentID == documentID && (forall j | 0 <= j < k :: rest[j].documentID != documentID)
      ensures forall j | 0 <= j < k + 1 :: icons[j].documentID != documentID
    {
      forall j | 0 <= j < k + 1 ensures icons[j].documentID != documentID { if j > 0 { assert rest[j - 1] == icons[j]; } }
    }
    assert forall k | 1 <= k < |icons| :: icons[k] == rest[k - 1];
    assert forall k | 0 <= k < |rest| :: rest[k] == icons[k + 1];
  }

  /** A closure that has nothing left to ask goes through exactly when the command is allowed by
      what it heard: dry it stops short, real it makes the granted call. */
  lemma VerdictExactly(systemUser: int -> bool, c: Call, dry: bool, view: View)
    requires !Next(systemUser, c, dry, view).Ask?
    ensures Allowed(systemUser, c, view) <==> Next(systemUser, c, dry, view) == if dry then Pass else Do(Granted(c, view))
    ensures !Allowed(systemUser, c, view) <==> Next(systemUser, c, dry, view).Refuse?
  {
    if c.GrantVerifier? && Read(view.icons) { PreflightMeans(view.icons.value.value, c.botID, c.iconID); }
  }

  /** The ways an application may go, and those a request may go. */
  const WAYS: set<(Status, Status)> := {
    ("draft", "submitted"), ("draft", "cancelled"),
    ("submitted", "in_review"), ("submitted", "approved"), ("submitted", "rejected"), ("submitted", "cancelled"),
    ("in_review", "approved"), ("in_review", "rejected"), ("in_review", "submitted"), ("in_review", "cancelled")}
  const CUSTOM_WAYS: set<(Status, Status)> := {("pending", "approved"), ("pending", "rejected"), ("approved", "revoked")}

  lemma WaysMean(from: Status, to: Status)
    ensures CanMove(from, to) <==> (from, to) in WAYS
    ensures CanMoveCustom(from, to) <==> (from, to) in CUSTOM_WAYS
  {
  }

  /** Why a decision is refused: there is no way from the status the record is in, or there is one
      and the version has moved. */
  lemma RefusalMeans(app: Application, r: Request, version: int, next: Status, idempotent: bool)
    ensures Transition(app, version, next, idempotent) == Err("STATUS_INVALID") <==>
      !(idempotent && app.status == next) && (app.status, next) !in WAYS
    ensures Transition(app, version, next, idempotent) == Err("CONFLICT") <==>
      !(idempotent && app.status == next) && (app.status, next) in WAYS && app.version != version
    ensures CustomTransition(r, version, next) == Err("STATUS_INVALID") <==> r.status != next && (r.status, next) !in CUSTOM_WAYS
    ensures CustomTransition(r, version, next) == Err("CONFLICT") <==>
      r.status != next && (r.status, next) in CUSTOM_WAYS && r.version != version
  {
    WaysMean(app.status, next);
    WaysMean(r.status, next);
  }

  /** Why a command about a verifier is refused: its row is gone or has moved, or it may not verify
      now; a read that failed is passed on as it is. */
  lemma VerifierRefusals(systemUser: int -> bool, b: int, i: int, v: int, peer: Peer, text: string, view: View, dry: bool)
    ensures var grant := Next(systemUser, GrantVerifier(b, i, v, true), dry, view);
      && (HasVerifier(view, b) && v != view.verifier.value.value.version ==> grant == Refuse("CONFLICT"))
      && (HasNoVerifier(view, b) && v != 0 ==> grant == Refuse("VERIFIER_NOT_FOUND"))
    ensures HasNoVerifier(view, b) ==> Next(systemUser, SetVerifierEnabled(b, true), dry, view) == Refuse("VERIFIER_NOT_FOUND")
    ensures (HasVerifier(view, b) || HasNoVerifier(view, b)) && !Verifies(view, b) ==>
      Next(systemUser, GrantDirect(b, peer, text), dry, view) == Refuse("VERIFIER_FORBIDDEN")
    ensures view.verifier.Some? && !HasVerifier(view, b) && !HasNoVerifier(view, b) ==>
      && Next(systemUser, GrantVerifier(b, i, v, true), dry, view) == Refuse(view.verifier.value.error)
      && Next(systemUser, SetVerifierEnabled(b, true), dry, view) == Refuse(view.verifier.value.error)
      && Next(systemUser, RevokeVerifier(b), dry, view) == Refuse(view.verifier.value.error)
      && Next(systemUser, GrantDirect(b, peer, text), dry, view) == Refuse(view.verifier.value.error)
  {
  }

  /** An approval that could be decided is refused for its target: with the reason the target gives,
      or the error of the read. */
  lemma TargetRefusals(systemUser: int -> bool, id: int, v: int, kind: string, targetID: int, view: View, dry: bool)
    ensures Decidable(view, v) && Read(view.target) && !view.target.value.value.eligible ==>
      Next(systemUser, Approve(id, v), dry, view) == Refuse(view.target.value.value.reason)
    ensures (Decidable(view, v) || Already(view, "approved")) && view.target.Some? && view.target.value.Err? ==>
      Next(systemUser, Approve(id, v), dry, view) == Refuse(view.target.value.error)
    ensures systemUser(targetID) && kind in ["user", "bot"] ==>
      Next(systemUser, Revoke(kind, targetID), dry, view) == Refuse("TARGET_SYSTEM")
  {
  }

  /** A dry run asks what the real run asks. */
  lemma SameQuestions(systemUser: int -> bool, c: Call, view: View)
    ensures Next(systemUser, c, true, view).Ask? || Next(systemUser, c, false, view).Ask? ==>
      Next(systemUser, c, true, view) == Next(systemUser, c, false, view)
  {
  }

  // ---------------------------------------------------------------------------
  // When a dry run still holds
  // ---------------------------------------------------------------------------

  predicate Agree<T(==)>(a: Option<T>, b: Option<T>) {
    a.Some? && b.Some? ==> a == b
  }

  /** No question that both asked was answered differently. */
  predicate Consistent(a: View, b: View) {
    && Agree(a.application, b.application) && Agree(a.target, b.target) && Agree(a.verifier, b.verifier)
    && Agree(a.icons, b.icons) && Agree(a.mark, b.mark) && Agree(a.request, b.request)
  }

  /** A mark was asked about only where there can be one. */
  predicate Proper(c: Call, view: View) {
    view.mark.Some? ==>
      match c
      case RevokeMark(b, p) => b > 0 && p.id > 0
      case GrantDirect(b, p, _) => b > 0 && p.id > 0
      case RevokeRequest(_, _) => Read(view.request) && view.request.value.value.botID > 0 && view.request.value.value.peer.id > 0
      case _ => true
  }

  /** The later run decides as the dry run did if nothing it asks has changed. */
  lemma UnchangedStillHolds(systemUser: int -> bool, c: Call, earlier: View, later: View)
    requires !Next(systemUser, c, true, earlier).Ask? && !Next(systemUser, c, false, later).Ask?
    requires Consistent(earlier, later) && Proper(c, earlier) && Proper(c, later)
    ensures Allowed(systemUser, c, earlier) <==> Allowed(systemUser, c, later)
  {
    VerdictExactly(systemUser, c, true, earlier);
    VerdictExactly(systemUser, c, false, later);
  }

  /** Both views read the application, and equal versions mean equal status: the optimistic lock. */
  predicate ApplicationLocked(a: View, b: View) {
    && Read(a.application) && Read(b.application)
    && (a.application.value.value.version == b.application.value.value.version ==>
          a.application.value.value.status == b.application.value.value.status)
  }

  predicate RequestLocked(a: View, b: View) {
    && Read(a.request) && Read(b.request)
    && (a.request.value.value.version == b.request.value.value.version ==> a.request.value.value == b.request.value.value)
  }

  /** A dry run that found an open application holds for a later real run exactly as long as the
      version does -- or, for a decision, until that very decision has been taken -- and for an
      approval as long as the target stays eligible. */
  lemma VersionDecides(systemUser: int -> bool, c: Call, earlier: View, later: View)
    requires c.Claim? || c.Approve? || c.Reject?
    requires Allowed(systemUser, c, earlier) && ApplicationLocked(earlier, later) && (c.Approve? ==> Read(later.target))
    requires !Already(earlier, APPROVED) && !Already(earlier, REJECTED)
    ensures var same := later.application.value.value.version == earlier.application.value.value.version;
      Allowed(systemUser, c, later) <==>
      match c
      case Claim(_, _) => same
      case Approve(_, _) => Already(later, APPROVED) || (same && later.target.value.value.eligible)
      case Reject(_, _) => Already(later, REJECTED) || same
  {
  }

  /** The same for a request to a verifier, whose switch must also still be on for an approval. */
  lemma RequestVersionDecides(systemUser: int -> bool, c: Call, earlier: View, later: View)
    requires c.ApproveRequest? || c.RejectRequest? || c.RevokeRequest?
    requires Allowed(systemUser, c, earlier) && RequestLocked(earlier, later) && later.request.value.value.id == c.id
    requires !Requested(earlier, c.id, if c.ApproveRequest? then APPROVED else if c.RejectRequest? then REJECTED else REVOKED)
    ensures var same := later.request.value.value.version == earlier.request.value.value.version;
      Allowed(systemUser, c, later) <==>
      match c
      case ApproveRequest(id, _) => Requested(later, id, APPROVED) || (same && Verifies(later, later.request.value.value.botID))
      case RejectRequest(id, _) => Requested(later, id, REJECTED) || same
      case RevokeRequest(id, _) =>
        && MarkReadable(later, later.request.value.value.botID, later.request.value.value.peer)
        && (Requested(later, id, REVOKED) || same)
  {
  }

  /** A dry run can expire: somebody else moves the application on before the real run. */
  lemma DryRunCanExpire(systemUser: int -> bool)
    ensures var earlier := NOTHING_HEARD.(application := Some(Ok(Application(SUBMITTED, 5, "bot", 7))));
      var later := NOTHING_HEARD.(application := Some(Ok(Application(IN_REVIEW, 6, "bot", 7))));
      && Next(systemUser, Claim(1, 5), true, earlier) == Pass
      && Next(systemUser, Claim(1, 5), false, later) == Refuse("STATUS_INVALID")
      && Next(systemUser, Approve(1, 5), false, later) == Refuse("CONFLICT")
  {
  }
}
