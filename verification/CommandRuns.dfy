/**
 What a whole run of the command journal says about one process: where its answer came from, and
 where what it heard came from.
 */
module CommandRuns {
  import opened Wrappers
  import opened ReviewCommands
  import opened CommandJournal

  /** The records after the first k steps. */
  ghost function StateAt<S>(svc: Services<S>, state: S, actions: seq<Action<S>>, k: nat): S
    requires k <= |actions|
  {
    After(svc, state, actions[..k]).state
  }

  lemma StateAtKept<S>(svc: Services<S>, state: S, actions: seq<Action<S>>, a: Action<S>, k: nat)
    requires k <= |actions|
    ensures StateAt(svc, state, actions + [a], k) == StateAt(svc, state, actions, k)
  {
    assert (actions + [a])[..k] == actions[..k];
  }

  lemma OneMore<S>(svc: Services<S>, state: S, actions: seq<Action<S>>, a: Action<S>)
    ensures After(svc, state, actions + [a]) == Step(svc, After(svc, state, actions), a)
    ensures StateAt(svc, state, actions + [a], |actions|) == After(svc, state, actions).state
    ensures StateAt(svc, state, actions + [a], |actions| + 1) == After(svc, state, actions + [a]).state
  {
    assert (actions + [a])[..|actions|] == actions && (actions + [a])[..|actions| + 1] == actions + [a];
  }

  // ---------------------------------------------------------------------------
  // Calls and answers
  // ---------------------------------------------------------------------------

  /** No step but a mutating call, or somebody else, changes the records, and such a step leaves
      exactly what the service makes of them. */
  lemma OnlyCallsChange<S>(svc: Services<S>, s: System<S>, a: Action<S>)
    ensures var s' := Step(svc, s, a);
      if a.Mutate? && a.t in s.procs && s.procs[a.t].Running? && NextMove(svc, s.procs[a.t]).Do? then
        var call := NextMove(svc, s.procs[a.t]).call;
        && s'.made == s.made + [Made(a.t, s.procs[a.t].i.commandID, call)]
        && s'.state == svc.mutate(s.state, call).0
        && a.t in s'.procs && Returned(s'.procs[a.t], svc.mutate(s.state, call).1)
      else s'.made == s.made && (a.Elsewhere? || s'.state == s.state)
  {
  }

  /** At step k the process made the call, and this is what came of it. */
  ghost predicate CalledAt<S>(svc: Services<S>, state: S, actions: seq<Action<S>>, k: nat, t: Tid, call: Call, result: Outcome<()>) {
    && k < |actions| && actions[k] == Mutate(t)
    && svc.mutate(StateAt(svc, state, actions, k), call) == (StateAt(svc, state, actions, k + 1), result)
  }

  lemma CalledAtKept<S>(svc: Services<S>, state: S, actions: seq<Action<S>>, a: Action<S>, k: nat, t: Tid, call: Call, result: Outcome<()>)
    requires CalledAt(svc, state, actions, k, t, call, result)
    ensures CalledAt(svc, state, actions + [a], k, t, call, result)
  {
    StateAtKept(svc, state, actions, a, k);
    StateAtKept(svc, state, actions, a, k + 1);
  }

  /** A process that has an answer and made a call had both before the step, or made the call in it. */
  lemma AnswerStep<S>(svc: Services<S>, s: System<S>, a: Action<S>, t: Tid, result: Outcome<()>, m: Made)
    requires Inv(svc, s)
    requires var s' := Step(svc, s, a); t in s'.procs && Returned(s'.procs[t], result) && m in s'.made && m.t == t
    ensures (t in s.procs && Returned(s.procs[t], result) && m in s.made)
            || (a == Mutate(t) && svc.mutate(s.state, m.call) == (Step(svc, s, a).state, result))
  {
    OnlyCallsChange(svc, s, a);
    if t in s.procs { assert ProcessOk(svc, s, t, s.procs[t]); } else { NewcomerOwnsNothing(svc, s, t); }
  }

  /** In every interleaving: the answer of a process that made a call is what the service answered
      to that very call, on the records as they stood at that step, and the records after it are
      what the service made of them. */
  lemma {:induction false} CallAnswers<S>(svc: Services<S>, state: S, actions: seq<Action<S>>, t: Tid, result: Outcome<()>, m: Made)
    requires var s := After(svc, state, actions); t in s.procs && Returned(s.procs[t], result) && m in s.made && m.t == t
    ensures exists k :: CalledAt(svc, state, actions, k, t, m.call, result)
    decreases |actions|
  {
    var init, a := actions[..|actions| - 1], actions[|actions| - 1];
    assert actions == init + [a];
    OneMore(svc, state, init, a);
    Reachable(svc, Start(state), init);
    var s := After(svc, state, init);
    AnswerStep(svc, s, a, t, result, m);
    if t in s.procs && Returned(s.procs[t], result) && m in s.made {
      CallAnswers(svc, state, init, t, result, m);
      var k :| CalledAt(svc, state, init, k, t, m.call, result);
      CalledAtKept(svc, state, init, a, k, t, m.call, result);
    } else {
      assert CalledAt(svc, state, actions, |init|, t, m.call, result);
    }
  }

  /** The same of every answer ever given under its command ID, first or replayed. */
  lemma RecordedAnswers<S>(svc: Services<S>, state: S, actions: seq<Action<S>>, t: Tid, m: Made)
    requires var s := After(svc, state, actions);
      && t in s.procs && s.procs[t].Ended? && ResultOf(s.procs[t].reply).Some?
      && m in s.made && m.commandID == s.procs[t].i.commandID
    ensures var s := After(svc, state, actions);
      exists k :: CalledAt(svc, state, actions, k, m.t, m.call, ResultOf(s.procs[t].reply).value)
  {
    Reachable(svc, Start(state), actions);
    var s := After(svc, state, actions);
    AnswerIsOwners(svc, s, t);
    var k :| 0 <= k < |s.made| && s.made[k] == m;
    assert MadeOk(svc, s, s.made[k]);
    CallAnswers(svc, state, actions, m.t, ResultOf(s.procs[t].reply).value, m);
  }

  /** Binding a command ID: it goes to the first to insert it, bound to what that one asked for. */
  lemma InsertBindsExactly<S>(svc: Services<S>, s: System<S>, t: Tid)
    requires t in s.procs && s.procs[t].Arrived?
    ensures var s' := Step(svc, s, Insert(t)); var i := s.procs[t].i;
      if i.commandID in s.journal then s' == s.(procs := s.procs[t := Late(i)])
      else
        && s'.journal == s.journal[i.commandID := Row(i.command, i.dry, t, None)]
        && s'.procs == s.procs[t := Running(i, NOTHING_HEARD)] && s'.state == s.state && s'.made == s.made
  {
  }

  /** A failed statement has taken effect or not; the journal shows which. */
  lemma FailuresTakeEffectOrNot<S>(svc: Services<S>, s: System<S>, t: Tid, committed: bool)
    requires t in s.procs
    ensures s.procs[t].Arrived? && s.procs[t].i.commandID !in s.journal ==>
      (s.procs[t].i.commandID in Step(svc, s, InsertFails(t, committed)).journal <==> committed)
    ensures s.procs[t].Concluded? && s.procs[t].i.commandID in s.journal && s.journal[s.procs[t].i.commandID].result.None? ==>
      var id := s.procs[t].i.commandID; var s' := Step(svc, s, FinishFails(t, committed));
      id in s'.journal && s'.journal[id].result == (if committed then Some(s.procs[t].result) else None)
  {
  }

  // ---------------------------------------------------------------------------
  // What was heard
  // ---------------------------------------------------------------------------

  /** The request the command names, and the bot whose verifier row it is about: the one named, or
      that of the request read. */
  function VerifierNamed(c: Call, view: View): Option<int> {
    match c
    case GrantVerifier(b, _, _, _) => Some(b)
    case SetVerifierEnabled(b, _) => Some(b)
    case RevokeVerifier(b) => Some(b)
    case GrantDirect(b, _, _) => Some(b)
    case ApproveRequest(_, _) => if Read(view.request) then Some(view.request.value.value.botID) else None
    case _ => None
  }

  function MarkNamed(c: Call, view: View): Option<(int, Peer)> {
    match c
    case RevokeMark(b, p) => Some((b, p))
    case GrantDirect(b, p, _) => Some((b, p))
    case RevokeRequest(_, _) => if Read(view.request) then Some((view.request.value.value.botID, view.request.value.value.peer)) else None
    case _ => None
  }

  function TargetNamed(c: Call, view: View): Option<(string, int)> {
    match c
    case Revoke(k, id) => Some((k, id))
    case Approve(_, _) =>
      if Read(view.application) then Some((view.application.value.value.targetType, view.application.value.value.targetID)) else None
    case _ => None
  }

  /** In some state of the run the service answered so about this record. */
  ghost predicate ApplicationRead<S>(svc: Services<S>, state: S, actions: seq<Action<S>>, id: int, answer: Outcome<Application>) {
    exists k :: 0 <= k <= |actions| && answer == svc.application(StateAt(svc, state, actions, k), id)
  }
  ghost predicate RequestRead<S>(svc: Services<S>, state: S, actions: seq<Action<S>>, id: int, answer: Outcome<Request>) {
    exists k :: 0 <= k <= |actions| && answer == svc.request(StateAt(svc, state, actions, k), id)
  }
  ghost predicate TargetRead<S>(svc: Services<S>, state: S, actions: seq<Action<S>>, name: (string, int), answer: Outcome<Target>) {
    exists k :: 0 <= k <= |actions| && answer == svc.target(StateAt(svc, state, actions, k), name.0, name.1)
  }
  ghost predicate VerifierRead<S>(svc: Services<S>, state: S, actions: seq<Action<S>>, bot: int, answer: Outcome<Verifier>) {
    exists k :: 0 <= k <= |actions| && answer == svc.verifier(StateAt(svc, state, actions, k), bot)
  }
  ghost predicate MarksRead<S>(svc: Services<S>, state: S, actions: seq<Action<S>>, bot: int, peer: Option<Peer>, answer: Outcome<nat>) {
    exists k :: 0 <= k <= |actions| && answer == svc.marks(StateAt(svc, state, actions, k), bot, peer)
  }
  ghost predicate IconsRead<S>(svc: Services<S>, state: S, actions: seq<Action<S>>, answer: Outcome<seq<Icon>>) {
    exists k :: 0 <= k <= |actions| && answer == svc.icons(StateAt(svc, state, actions, k))
  }

  /** Every answer in the view is the service's, in some state of the run, about the record that the
      command names. */
  ghost predicate FromRecords<S>(svc: Services<S>, state: S, actions: seq<Action<S>>, c: Call, view: View) {
    && (view.application.Some? ==>
          (c.Claim? || c.Approve? || c.Reject?) && ApplicationRead(svc, state, actions, c.id, view.application.value))
    && (view.request.Some? ==>
          (c.ApproveRequest? || c.RejectRequest? || c.RevokeRequest?) && RequestRead(svc, state, actions, c.id, view.request.value))
    && (view.target.Some? ==>
          var name := TargetNamed(c, view); name.Some? && TargetRead(svc, state, actions, name.value, view.target.value))
    && (view.verifier.Some? ==>
          var bot := VerifierNamed(c, view); bot.Some? && VerifierRead(svc, state, actions, bot.value, view.verifier.value))
    && (view.mark.Some? ==>
          var pair := MarkNamed(c, view);
          pair.Some? && MarksRead(svc, state, actions, pair.value.0, Some(pair.value.1), view.mark.value))
    && (view.count.Some? ==> c.RevokeVerifier? && MarksRead(svc, state, actions, c.botID, None, view.count.value))
    && (view.icons.Some? ==> c.GrantVerifier? && IconsRead(svc, state, actions, view.icons.value))
  }

  lemma FromRecordsKept<S>(svc: Services<S>, state: S, actions: seq<Action<S>>, a: Action<S>, c: Call, view: View)
    requires FromRecords(svc, state, actions, c, view)
    ensures FromRecords(svc, state, actions + [a], c, view)
  {
    forall k | 0 <= k <= |actions| ensures StateAt(svc, state, actions + [a], k) == StateAt(svc, state, actions, k) {
      StateAtKept(svc, state, actions, a, k);
    }
  }

  /** What a closure asks next is about the record its command names. */
  predicate Named(c: Call, view: View, q: Query) {
    match q
    case ApplicationOf(id) => (c.Claim? || c.Approve? || c.Reject?) && id == c.id && view.application.None?
    case RequestOf(id) => (c.ApproveRequest? || c.RejectRequest? || c.RevokeRequest?) && id == c.id && view.request.None?
    case TargetOf(k, id) => TargetNamed(c, view) == Some((k, id))
    case VerifierOf(b) => VerifierNamed(c, view) == Some(b)
    case MarkOf(b, p) => MarkNamed(c, view) == Some((b, p))
    case MarkCountOf(b) => c.RevokeVerifier? && b == c.botID
    case IconPage => c.GrantVerifier?
  }

  lemma AsksWhatIsNamed(systemUser: int -> bool, c: Call, dry: bool, view: View)
    requires Next(systemUser, c, dry, view).Ask?
    ensures Named(c, view, Next(systemUser, c, dry, view).query)
  {
  }

  lemma HearsFromRecords<S>(svc: Services<S>, state: S, actions: seq<Action<S>>, k: nat, c: Call, view: View, q: Query)
    requires k <= |actions| && Named(c, view, q) && FromRecords(svc, state, actions, c, view)
    ensures FromRecords(svc, state, actions, c, Hear(svc, StateAt(svc, state, actions, k), q, view))
  {
  }

  /** The view of a process, if it has begun to read. */
  function ViewOf(p: Process): View {
    match p
    case Arrived(_) => NOTHING_HEARD
    case Late(_) => NOTHING_HEARD
    case _ => p.view
  }

  lemma ViewStep<S>(svc: Services<S>, s: System<S>, a: Action<S>, t: Tid)
    requires t in Step(svc, s, a).procs
    ensures var p' := Step(svc, s, a).procs[t];
      || ViewOf(p') == NOTHING_HEARD
      || (t in s.procs && p'.i == s.procs[t].i && (
            || ViewOf(p') == ViewOf(s.procs[t])
            || (s.procs[t].Running? && NextMove(svc, s.procs[t]).Ask?
                && ViewOf(p') == Hear(svc, s.state, NextMove(svc, s.procs[t]).query, ViewOf(s.procs[t])))))
  {
  }

  /** In every interleaving, nothing a process has heard is anything but what the service said, at
      some point of the run, about the record its command names. */
  lemma {:induction false} HeardFromRecords<S>(svc: Services<S>, state: S, actions: seq<Action<S>>, t: Tid)
    requires t in After(svc, state, actions).procs
    ensures var p := After(svc, state, actions).procs[t]; FromRecords(svc, state, actions, p.i.command, ViewOf(p))
    decreases |actions|
  {
    if actions == [] { return; }
    var init, a := actions[..|actions| - 1], actions[|actions| - 1];
    assert actions == init + [a];
    OneMore(svc, state, init, a);
    var s := After(svc, state, init);
    ViewStep(svc, s, a, t);
    if t in s.procs {
      HeardFromRecords(svc, state, init, t);
      FromRecordsKept(svc, state, init, a, s.procs[t].i.command, ViewOf(s.procs[t]));
      if s.procs[t].Running? && NextMove(svc, s.procs[t]).Ask? {
        AsksWhatIsNamed(svc.systemUser, s.procs[t].i.command, s.procs[t].i.dry, ViewOf(s.procs[t]));
        HearsFromRecords(svc, state, actions, |init|, s.procs[t].i.command, ViewOf(s.procs[t]), NextMove(svc, s.procs[t]).query);
      }
    }
  }
}
