/**
 The command journal (internal/admin/service.go, runCommand) as an interleaved machine.  Any
 number of processes submit commands; each journal statement, each service read and each mutating
 call is a step of its own, other operators may change the records between any two of them, and a
 process may die anywhere.  What the services answer and do is a parameter.
 */
module CommandJournal {
  import opened Wrappers
  import opened ReviewCommands

  type Tid = nat

  datatype Services<!S> = Services(
    application: (S, int) -> Outcome<Application>,
    target: (S, string, int) -> Outcome<Target>,
    verifier: (S, int) -> Outcome<Verifier>,
    icons: S -> Outcome<seq<Icon>>,
    marks: (S, int, Option<Peer>) -> Outcome<nat>,
    request: (S, int) -> Outcome<Request>,
    systemUser: int -> bool,
    mutate: (S, Call) -> (S, Outcome<()>))

  /** The answer to a question joins what was heard. */
  function Hear<S>(svc: Services<S>, s: S, q: Query, view: View): View {
    match q
    case ApplicationOf(id) => view.(application := Some(svc.application(s, id)))
    case TargetOf(k, id) => view.(target := Some(svc.target(s, k, id)))
    case VerifierOf(b) => view.(verifier := Some(svc.verifier(s, b)))
    case IconPage => view.(icons := Some(svc.icons(s)))
    case MarkOf(b, p) => view.(mark := Some(svc.marks(s, b, Some(p))))
    case MarkCountOf(b) => view.(count := Some(svc.marks(s, b, None)))
    case RequestOf(id) => view.(request := Some(svc.request(s, id)))
  }

  // ---------------------------------------------------------------------------
  // The machine
  // ---------------------------------------------------------------------------

  datatype Invocation = Invocation(commandID: string, command: Call, dry: bool)

  /** A journal row: what its command ID is bound to, by whom it was inserted, and its result
      column, which holds nothing until the command finishes. */
  datatype Row = Row(command: Call, dry: bool, owner: Tid, result: Option<Outcome<()>>)

  /** The operator's answer: the result of this run; the recorded one of an earlier run, empty if
      that has not finished, in either case without an error; a conflict; the result of this run
      with the failure to record it; or an error before anything was known. */
  datatype Reply =
    | First(result: Outcome<()>)
    | Replay(recorded: Option<Outcome<()>>)
    | IdConflict
    | Unrecorded(result: Outcome<()>)
    | NotBegun

  /** Where one call of runCommand stands. */
  datatype Process =
    | Arrived(i: Invocation)
    | Late(i: Invocation)
    | Running(i: Invocation, view: View)
    | Concluded(i: Invocation, view: View, result: Outcome<()>)
    | Ended(i: Invocation, view: View, reply: Reply)
    | Dead(i: Invocation, view: View)

  datatype Made = Made(t: Tid, commandID: string, call: Call)

  datatype System<S> = System(state: S, journal: map<string, Row>, procs: map<Tid, Process>, made: seq<Made>)

  datatype Action<S> =
    | Arrive(t: Tid, i: Invocation)
    | Insert(t: Tid)
    | InsertFails(t: Tid, committed: bool)
    | Select(t: Tid)
    | ReadOne(t: Tid)
    | Conclude(t: Tid)
    | Mutate(t: Tid)
    | Finish(t: Tid)
    | FinishFails(t: Tid, committed: bool)
    | Die(t: Tid)
    | Elsewhere(state: S)

  function NextMove<S>(svc: Services<S>, p: Process): Move
    requires p.Running? || p.Concluded? || p.Ended? || p.Dead?
  {
    Next(svc.systemUser, p.i.command, p.i.dry, p.view)
  }

  predicate Bound(row: Row, i: Invocation) {
    row.command == i.command && row.dry == i.dry
  }

  function Moved<S>(s: System<S>, t: Tid, p: Process): System<S> {
    s.(procs := s.procs[t := p])
  }

  function Recorded<S>(s: System<S>, id: string, result: Outcome<()>): System<S> {
    if id in s.journal then s.(journal := s.journal[id := s.journal[id].(result := Some(result))]) else s
  }

  function Inserted<S>(s: System<S>, t: Tid, i: Invocation): System<S> {
    s.(journal := s.journal[i.commandID := Row(i.command, i.dry, t, None)])
  }

  /** One step; an action that is not enabled leaves the system alone. */
  function Step<S>(svc: Services<S>, s: System<S>, a: Action<S>): System<S> {
    if a.Elsewhere? then s.(state := a.state)
    else if a.Arrive? then (if a.t in s.procs then s else Moved(s, a.t, Arrived(a.i)))
    else if a.t !in s.procs then s
    else
      var t, p := a.t, s.procs[a.t];
      var i := p.i;
      match a
      case Insert(_) =>
        if !p.Arrived? then s
        else if i.commandID in s.journal then Moved(s, t, Late(i))
        else Moved(Inserted(s, t, i), t, Running(i, NOTHING_HEARD))
      case InsertFails(_, committed) =>
        if !p.Arrived? then s
        else Moved(if committed && i.commandID !in s.journal then Inserted(s, t, i) else s, t, Ended(i, NOTHING_HEARD, NotBegun))
      case Select(_) =>
        if !p.Late? || i.commandID !in s.journal then s
        else
          var row := s.journal[i.commandID];
          Moved(s, t, Ended(i, NOTHING_HEARD, if Bound(row, i) then Replay(row.result) else IdConflict))
      case ReadOne(_) =>
        if p.Running? && NextMove(svc, p).Ask? then Moved(s, t, Running(i, Hear(svc, s.state, NextMove(svc, p).query, p.view))) else s
      case Conclude(_) =>
        if p.Running? && NextMove(svc, p).Refuse? then Moved(s, t, Concluded(i, p.view, Err(NextMove(svc, p).error)))
        else if p.Running? && NextMove(svc, p) == Pass then Moved(s, t, Concluded(i, p.view, Ok(())))
        else s
      case Mutate(_) =>
        if p.Running? && NextMove(svc, p).Do? then
          var call := NextMove(svc, p).call;
          var (state, result) := svc.mutate(s.state, call);
          Moved(s, t, Concluded(i, p.view, result)).(state := state, made := s.made + [Made(t, i.commandID, call)])
        else s
      case Finish(_) =>
        if p.Concluded? then Moved(Recorded(s, i.commandID, p.result), t, Ended(i, p.view, First(p.result))) else s
      case FinishFails(_, committed) =>
        if p.Concluded?
        then Moved(if committed then Recorded(s, i.commandID, p.result) else s, t, Ended(i, p.view, Unrecorded(p.result))) else s
      case Die(_) =>
        if p.Ended? || p.Dead? then s
        else Moved(s, t, Dead(i, if p.Running? || p.Concluded? then p.view else NOTHING_HEARD))
  }

  function Exec<S>(svc: Services<S>, s: System<S>, actions: seq<Action<S>>): System<S> {
    if actions == [] then s else Step(svc, Exec(svc, s, actions[..|actions| - 1]), actions[|actions| - 1])
  }

  function Start<S>(state: S): System<S> {
    System(state, map[], map[], [])
  }

  // ---------------------------------------------------------------------------
  // The invariant
  // ---------------------------------------------------------------------------

  /** The process inserted the row of its command ID. */
  ghost predicate Owns<S>(s: System<S>, t: Tid, i: Invocation) {
    i.commandID in s.journal && s.journal[i.commandID].owner == t && Bound(s.journal[i.commandID], i)
  }

  /** The closure returned: it made its call if and only if the command is allowed by what it heard
      and is no dry run, and otherwise passed or refused accordingly, with the closure's own error. */
  ghost predicate Settled<S>(svc: Services<S>, s: System<S>, t: Tid, i: Invocation, view: View, result: Outcome<()>) {
    var allowed := Allowed(svc.systemUser, i.command, view);
    && !Next(svc.systemUser, i.command, i.dry, view).Ask? && Proper(i.command, view)
    && (if allowed && !i.dry then Made(t, i.commandID, Granted(i.command, view)) in s.made else Idle(s, t))
    && var move := Next(svc.systemUser, i.command, i.dry, view);
    && (move.Refuse? ==> result == Err(move.error))
    && (move.Pass? ==> result == Ok(()))
  }

  ghost predicate Idle<S>(s: System<S>, t: Tid) {
    forall m | m in s.made :: m.t != t
  }

  ghost predicate ProcessOk<S>(svc: Services<S>, s: System<S>, t: Tid, p: Process) {
    match p
    case Arrived(i) => Idle(s, t)
    case Late(i) => i.commandID in s.journal && Idle(s, t)
    case Running(i, view) => Owns(s, t, i) && s.journal[i.commandID].result.None? && Idle(s, t) && Proper(i.command, view)
    case Concluded(i, view, r) => Owns(s, t, i) && s.journal[i.commandID].result.None? && Settled(svc, s, t, i, view, r)
    case Ended(i, view, First(r)) => Owns(s, t, i) && s.journal[i.commandID].result == Some(r) && Settled(svc, s, t, i, view, r)
    case Ended(i, view, Unrecorded(r)) => Owns(s, t, i) && Settled(svc, s, t, i, view, r)
    case Ended(i, _, Replay(r)) =>
      i.commandID in s.journal && Bound(s.journal[i.commandID], i) && (r.Some? ==> s.journal[i.commandID].result == r) && Idle(s, t)
    case Ended(i, _, IdConflict) => i.commandID in s.journal && !Bound(s.journal[i.commandID], i) && Idle(s, t)
    case Ended(_, _, NotBegun) => Idle(s, t)
    case Dead(i, view) => true
  }

  /** Whoever inserted a row got past the insertion, and what it recorded is what it concluded. */
  ghost predicate RowOk<S>(s: System<S>, id: string, row: Row) {
    && row.owner in s.procs && s.procs[row.owner].i.commandID == id && Bound(row, s.procs[row.owner].i)
    && !s.procs[row.owner].Arrived? && !s.procs[row.owner].Late?
    && (row.result.Some? ==>
          && s.procs[row.owner].Ended?
          && (s.procs[row.owner].reply == First(row.result.value) || s.procs[row.owner].reply == Unrecorded(row.result.value)))
  }

  predicate Closed(p: Process) {
    p.Concluded? || p.Ended? || p.Dead?
  }

  ghost predicate MadeOk<S>(svc: Services<S>, s: System<S>, m: Made) {
    && m.commandID in s.journal && s.journal[m.commandID].owner == m.t && !s.journal[m.commandID].dry
    && m.t in s.procs
    && var p := s.procs[m.t];
    && Closed(p)
    && Allowed(svc.systemUser, p.i.command, p.view) && m.call == Granted(p.i.command, p.view)
  }

  ghost predicate Inv<S>(svc: Services<S>, s: System<S>) {
    && (forall t | t in s.procs :: ProcessOk(svc, s, t, s.procs[t]))
    && (forall id | id in s.journal :: RowOk(s, id, s.journal[id]))
    && (forall k | 0 <= k < |s.made| :: MadeOk(svc, s, s.made[k]))
    && (forall k, l | 0 <= k < l < |s.made| :: s.made[k].commandID != s.made[l].commandID)
  }

  // ---------------------------------------------------------------------------
  // Every step keeps it
  // ---------------------------------------------------------------------------

  /** A step of one process that makes no call: the other processes and the rows of others stay. */
  ghost predicate Quiet<S>(s: System<S>, s': System<S>, t: Tid) {
    && t in s'.procs && s'.procs == s.procs[t := s'.procs[t]] && s'.made == s.made
    && (forall id | id in s.journal :: id in s'.journal && (s'.journal[id] == s.journal[id] ||
          (s.journal[id].owner == t && s.journal[id].result.None? && s'.journal[id] == s.journal[id].(result := s'.journal[id].result))))
    && (forall id | id in s'.journal && id !in s.journal :: s'.journal[id].owner == t)
  }

  /** The closure of the process has returned, before the step and after it. */
  ghost predicate SameRun<S>(s: System<S>, s': System<S>, t: Tid) {
    && t in s.procs && t in s'.procs && Closed(s.procs[t]) && Closed(s'.procs[t])
    && s'.procs[t].i == s.procs[t].i && s'.procs[t].view == s.procs[t].view
  }

  lemma OthersKept<S>(svc: Services<S>, s: System<S>, s': System<S>, t: Tid, u: Tid)
    requires Inv(svc, s) && Quiet(s, s', t) && u in s.procs && u != t
    ensures ProcessOk(svc, s', u, s'.procs[u])
  {
    assert ProcessOk(svc, s, u, s.procs[u]);
    assert forall m | m in s.made :: m in s'.made;
  }

  lemma RowsKept<S>(svc: Services<S>, s: System<S>, s': System<S>, t: Tid, id: string)
    requires Inv(svc, s) && Quiet(s, s', t) && id in s.journal && s.journal[id].owner != t
    ensures RowOk(s', id, s'.journal[id])
  {
    assert RowOk(s, id, s.journal[id]);
  }

  lemma MadeKept<S>(svc: Services<S>, s: System<S>, s': System<S>, t: Tid, m: Made)
    requires Inv(svc, s) && Quiet(s, s', t) && m in s.made
    requires m.t != t || SameRun(s, s', t)
    ensures MadeOk(svc, s', m)
  {
    assert MadeOk(svc, s, m);
  }

  /** A process that owns no row yet: nothing is bound to it and it has made nothing. */
  lemma NewcomerOwnsNothing<S>(svc: Services<S>, s: System<S>, t: Tid)
    requires Inv(svc, s) && (t !in s.procs || s.procs[t].Arrived? || s.procs[t].Late?)
    ensures forall id | id in s.journal :: s.journal[id].owner != t
    ensures Idle(s, t)
  {
    forall id | id in s.journal ensures s.journal[id].owner != t { assert RowOk(s, id, s.journal[id]); }
    forall m | m in s.made ensures m.t != t {
      var k :| 0 <= k < |s.made| && s.made[k] == m;
      assert MadeOk(svc, s, s.made[k]);
    }
  }

  /** A quiet step keeps the invariant if the process itself and its own row are right. */
  lemma QuietKeepsInv<S>(svc: Services<S>, s: System<S>, s': System<S>, t: Tid)
    requires Inv(svc, s) && Quiet(s, s', t)
    requires ProcessOk(svc, s', t, s'.procs[t])
    requires forall id | id in s'.journal && s'.journal[id].owner == t :: RowOk(s', id, s'.journal[id])
    requires Idle(s, t) || SameRun(s, s', t)
    ensures Inv(svc, s')
  {
    forall u | u in s'.procs ensures ProcessOk(svc, s', u, s'.procs[u]) { if u != t { OthersKept(svc, s, s', t, u); } }
    forall id | id in s'.journal ensures RowOk(s', id, s'.journal[id]) { if s'.journal[id].owner != t { RowsKept(svc, s, s', t, id); } }
    forall k | 0 <= k < |s'.made| ensures MadeOk(svc, s', s'.made[k]) { MadeKept(svc, s, s', t, s.made[k]); }
  }

  lemma BeginningKeepsInv<S>(svc: Services<S>, s: System<S>, a: Action<S>)
    requires Inv(svc, s) && (a.Arrive? || a.Insert? || a.InsertFails? || a.Select?)
    ensures Inv(svc, Step(svc, s, a))
  {
    var s', t := Step(svc, s, a), a.t;
    if s' != s {
      NewcomerOwnsNothing(svc, s, t);
      if t in s.procs { assert ProcessOk(svc, s, t, s.procs[t]); }
      QuietKeepsInv(svc, s, s', t);
    }
  }

  /** What is asked is what was still unknown, so hearing it keeps the view proper. */
  lemma HearingIsProper<S>(svc: Services<S>, s: S, c: Call, dry: bool, view: View)
    requires Next(svc.systemUser, c, dry, view).Ask? && Proper(c, view)
    ensures Proper(c, Hear(svc, s, Next(svc.systemUser, c, dry, view).query, view))
  {
  }

  lemma OwnRow<S>(svc: Services<S>, s: System<S>, t: Tid)
    requires Inv(svc, s) && t in s.procs && (s.procs[t].Running? || s.procs[t].Concluded?)
    ensures Owns(s, t, s.procs[t].i) && s.journal[s.procs[t].i.commandID].result.None?
    ensures forall id | id in s.journal && s.journal[id].owner == t :: id == s.procs[t].i.commandID
  {
    assert ProcessOk(svc, s, t, s.procs[t]);
    forall id | id in s.journal && s.journal[id].owner == t ensures id == s.procs[t].i.commandID { assert RowOk(s, id, s.journal[id]); }
  }

  lemma ReadingKeepsInv<S>(svc: Services<S>, s: System<S>, t: Tid)
    requires Inv(svc, s) && t in s.procs && s.procs[t].Running?
    ensures Inv(svc, Step(svc, s, ReadOne(t))) && Inv(svc, Step(svc, s, Conclude(t)))
  {
    var p := s.procs[t];
    OwnRow(svc, s, t);
    assert ProcessOk(svc, s, t, p);
    if NextMove(svc, p).Ask? {
      HearingIsProper(svc, s.state, p.i.command, p.i.dry, p.view);
      QuietKeepsInv(svc, s, Step(svc, s, ReadOne(t)), t);
    } else {
      VerdictExactly(svc.systemUser, p.i.command, p.i.dry, p.view);
      if !NextMove(svc, p).Do? { QuietKeepsInv(svc, s, Step(svc, s, Conclude(t)), t); }
    }
  }

  /** The last statement of a run, recorded or not. */
  lemma FinishingKeepsInv<S>(svc: Services<S>, s: System<S>, s': System<S>, t: Tid, reply: Reply, committed: bool)
    requires Inv(svc, s) && t in s.procs && s.procs[t].Concluded?
    requires var p := s.procs[t];
      && (reply == Unrecorded(p.result) || (committed && reply == First(p.result)))
      && s' == Moved(if committed then Recorded(s, p.i.commandID, p.result) else s, t, Ended(p.i, p.view, reply))
    ensures Inv(svc, s')
  {
    OwnRow(svc, s, t);
    SettledStays(svc, s, s', t);
    assert RowOk(s, s.procs[t].i.commandID, s.journal[s.procs[t].i.commandID]);
    QuietKeepsInv(svc, s, s', t);
  }

  lemma SettledStays<S>(svc: Services<S>, s: System<S>, s': System<S>, t: Tid)
    requires Inv(svc, s) && t in s.procs && s.procs[t].Concluded? && s'.made == s.made
    ensures Settled(svc, s', t, s.procs[t].i, s.procs[t].view, s.procs[t].result)
  {
    assert ProcessOk(svc, s, t, s.procs[t]);
  }

  lemma DyingKeepsInv<S>(svc: Services<S>, s: System<S>, t: Tid)
    requires Inv(svc, s) && t in s.procs
    ensures Inv(svc, Step(svc, s, Die(t)))
  {
    var p := s.procs[t];
    if !p.Ended? && !p.Dead? {
      assert ProcessOk(svc, s, t, p);
      if p.Arrived? || p.Late? { NewcomerOwnsNothing(svc, s, t); } else { OwnRow(svc, s, t); }
      forall id | id in s.journal && s.journal[id].owner == t ensures RowOk(s, id, s.journal[id]) { }
      QuietKeepsInv(svc, s, Step(svc, s, Die(t)), t);
    }
  }

  lemma CallLeavesOthers<S>(svc: Services<S>, s: System<S>, s': System<S>, m: Made, u: Tid)
    requires u in s.procs && u != m.t && u in s'.procs && s'.procs[u] == s.procs[u] && s'.journal == s.journal
    requires s'.made == s.made + [m] && ProcessOk(svc, s, u, s.procs[u])
    ensures ProcessOk(svc, s', u, s'.procs[u])
  {
    assert forall n | n in s'.made :: n in s.made || n == m;
    assert forall n | n in s.made :: n in s'.made;
  }

  /** The one step that adds a call. */
  lemma MutatingKeepsInv<S>(svc: Services<S>, s: System<S>, t: Tid)
    requires Inv(svc, s) && t in s.procs && s.procs[t].Running? && NextMove(svc, s.procs[t]).Do?
    ensures Inv(svc, Step(svc, s, Mutate(t)))
  {
    var s', p := Step(svc, s, Mutate(t)), s.procs[t];
    assert ProcessOk(svc, s, t, p);
    VerdictExactly(svc.systemUser, p.i.command, p.i.dry, p.view);
    var m := Made(t, p.i.commandID, Granted(p.i.command, p.view));
    assert s'.made == s.made + [m];
    forall u | u in s'.procs ensures ProcessOk(svc, s', u, s'.procs[u]) { if u != t { CallLeavesOthers(svc, s, s', m, u); } }
    forall id | id in s'.journal ensures RowOk(s', id, s'.journal[id]) { assert RowOk(s, id, s.journal[id]); }
    forall k | 0 <= k < |s'.made|
      ensures MadeOk(svc, s', s'.made[k]) && (k < |s.made| ==> s'.made[k].commandID != m.commandID)
    {
      if k < |s.made| { assert MadeOk(svc, s, s.made[k]) && s.made[k] in s.made; }
    }
  }

  lemma StepKeepsInv<S>(svc: Services<S>, s: System<S>, a: Action<S>)
    requires Inv(svc, s)
    ensures Inv(svc, Step(svc, s, a))
  {
    if a.Elsewhere? {
      ElsewhereKeepsInv(svc, s, a.state);
    } else if Step(svc, s, a) != s {
      match a
      case ReadOne(t) => ReadingKeepsInv(svc, s, t);
      case Conclude(t) => ReadingKeepsInv(svc, s, t);
      case Mutate(t) => MutatingKeepsInv(svc, s, t);
      case Finish(t) => FinishingKeepsInv(svc, s, Step(svc, s, a), t, First(s.procs[t].result), true);
      case FinishFails(t, committed) => FinishingKeepsInv(svc, s, Step(svc, s, a), t, Unrecorded(s.procs[t].result), committed);
      case Die(t) => DyingKeepsInv(svc, s, t);
      case _ => BeginningKeepsInv(svc, s, a);
    }
  }

  lemma ElsewhereKeepsInv<S>(svc: Services<S>, s: System<S>, state: S)
    requires Inv(svc, s)
    ensures Inv(svc, s.(state := state))
  {
    var s' := s.(state := state);
    forall t | t in s'.procs ensures ProcessOk(svc, s', t, s'.procs[t]) { assert ProcessOk(svc, s, t, s.procs[t]); }
    forall id | id in s'.journal ensures RowOk(s', id, s'.journal[id]) { assert RowOk(s, id, s.journal[id]); }
    forall k | 0 <= k < |s'.made| ensures MadeOk(svc, s', s'.made[k]) { assert MadeOk(svc, s, s.made[k]); }
  }

  lemma {:induction false} Reachable<S>(svc: Services<S>, s: System<S>, actions: seq<Action<S>>)
    requires Inv(svc, s)
    ensures Inv(svc, Exec(svc, s, actions))
  {
    if actions != [] {
      Reachable(svc, s, actions[..|actions| - 1]);
      StepKeepsInv(svc, Exec(svc, s, actions[..|actions| - 1]), actions[|actions| - 1]);
    }
  }

  // ---------------------------------------------------------------------------
  // Every interleaving
  // ---------------------------------------------------------------------------

  function After<S>(svc: Services<S>, state: S, actions: seq<Action<S>>): System<S> {
    Exec(svc, Start(state), actions)
  }

  /** No command ID ever makes two calls; a call is made under an ID bound to a real run, by the
      process that bound it, is the one its command asks for, and was allowed by what it had heard. */
  lemma AtMostOnce<S>(svc: Services<S>, state: S, actions: seq<Action<S>>)
    ensures var s := After(svc, state, actions);
      && (forall k, l | 0 <= k < l < |s.made| :: s.made[k].commandID != s.made[l].commandID)
      && (forall k | 0 <= k < |s.made| :: MadeOk(svc, s, s.made[k]))
  {
    Reachable(svc, Start(state), actions);
  }

  /** Nothing a dry run does changes a record or makes a call. */
  lemma DryRunTouchesNothing<S>(svc: Services<S>, s: System<S>, a: Action<S>)
    requires !a.Elsewhere? && a.t in s.procs && s.procs[a.t].i.dry
    ensures Step(svc, s, a).state == s.state && Step(svc, s, a).made == s.made
  {
    var p := s.procs[a.t];
    if a.Mutate? && p.Running? && !NextMove(svc, p).Ask? { VerdictExactly(svc.systemUser, p.i.command, p.i.dry, p.view); }
  }

  /** The result an answer carries, if it carries one. */
  function ResultOf(reply: Reply): Option<Outcome<()>> {
    match reply
    case First(r) => Some(r)
    case Unrecorded(r) => Some(r)
    case Replay(r) => r
    case _ => None
  }

  lemma AnswerIsOwners<S>(svc: Services<S>, s: System<S>, t: Tid)
    requires Inv(svc, s) && t in s.procs && s.procs[t].Ended? && ResultOf(s.procs[t].reply).Some?
    ensures var id := s.procs[t].i.commandID;
      && id in s.journal && s.journal[id].owner in s.procs && Bound(s.journal[id], s.procs[t].i)
      && var owner := s.procs[s.journal[id].owner];
      owner.Ended? && owner.i == s.procs[t].i && !owner.reply.Replay? && ResultOf(owner.reply) == ResultOf(s.procs[t].reply)
  {
    assert ProcessOk(svc, s, t, s.procs[t]);
    assert RowOk(s, s.procs[t].i.commandID, s.journal[s.procs[t].i.commandID]);
  }

  /** All results answered under one command ID are the same one, that of the run that bound it,
      and are answers to the same request. */
  lemma AnswersAgree<S>(svc: Services<S>, state: S, actions: seq<Action<S>>, t: Tid, u: Tid)
    requires var procs := After(svc, state, actions).procs;
      && t in procs && u in procs && procs[t].Ended? && procs[u].Ended? && procs[t].i.commandID == procs[u].i.commandID
      && ResultOf(procs[t].reply).Some? && ResultOf(procs[u].reply).Some?
    ensures var procs := After(svc, state, actions).procs;
      procs[t].i == procs[u].i && ResultOf(procs[t].reply) == ResultOf(procs[u].reply)
  {
    Reachable(svc, Start(state), actions);
    AnswerIsOwners(svc, After(svc, state, actions), t);
    AnswerIsOwners(svc, After(svc, state, actions), u);
  }

  /** Rows keep what they are bound to and, once recorded, their result; replies stand. */
  ghost predicate Extends<S>(s: System<S>, s': System<S>) {
    && (forall id | id in s.journal ::
          && id in s'.journal && s'.journal[id].(result := None) == s.journal[id].(result := None)
          && (s.journal[id].result.Some? ==> s'.journal[id] == s.journal[id]))
    && (forall t | t in s.procs && (s.procs[t].Ended? || s.procs[t].Dead?) :: t in s'.procs && s'.procs[t] == s.procs[t])
  }

  lemma StepExtends<S>(svc: Services<S>, s: System<S>, a: Action<S>)
    requires Inv(svc, s)
    ensures Extends(s, Step(svc, s, a))
  {
    forall id | id in s.journal
      ensures id in Step(svc, s, a).journal
      ensures Step(svc, s, a).journal[id] == s.journal[id] ||
        (s.journal[id].result.None? && Step(svc, s, a).journal[id].(result := None) == s.journal[id])
    {
      StepOnRow(svc, s, a, id);
    }
  }

  /** Only the process that bound a row changes it, once, by recording its result. */
  lemma StepOnRow<S>(svc: Services<S>, s: System<S>, a: Action<S>, id: string)
    requires Inv(svc, s) && id in s.journal
    ensures id in Step(svc, s, a).journal
    ensures Step(svc, s, a).journal[id] == s.journal[id] || (
      && (a.Finish? || a.FinishFails?) && a.t == s.journal[id].owner && a.t in s.procs && s.procs[a.t].Concluded?
      && s.journal[id].result.None? && Step(svc, s, a).journal[id].(result := None) == s.journal[id])
  {
    if (a.Finish? || a.FinishFails?) && a.t in s.procs && s.procs[a.t].Concluded? { OwnRow(svc, s, a.t); }
  }

  lemma {:induction false} LaterExtends<S>(svc: Services<S>, s: System<S>, more: seq<Action<S>>)
    requires Inv(svc, s)
    ensures Inv(svc, Exec(svc, s, more)) && Extends(s, Exec(svc, s, more))
  {
    if more != [] {
      LaterExtends(svc, s, more[..|more| - 1]);
      StepKeepsInv(svc, Exec(svc, s, more[..|more| - 1]), more[|more| - 1]);
      StepExtends(svc, Exec(svc, s, more[..|more| - 1]), more[|more| - 1]);
    }
  }

  /** A recorded command answers its result to every later submission of the same request, and a
      conflict to any other, whatever happens in between. */
  lemma AnswersNeverChange<S>(svc: Services<S>, s: System<S>, more: seq<Action<S>>, id: string, t: Tid)
    requires Inv(svc, s) && id in s.journal && s.journal[id].result.Some?
    requires var s' := Exec(svc, s, more); t in s'.procs && s'.procs[t].Late? && s'.procs[t].i.commandID == id
    ensures var s' := Exec(svc, s, more); var i := s'.procs[t].i;
      Step(svc, s', Select(t)).procs[t] ==
      Ended(i, NOTHING_HEARD, if Bound(s.journal[id], i) then Replay(s.journal[id].result) else IdConflict)
  {
    LaterExtends(svc, s, more);
    SelectAnswers(svc, Exec(svc, s, more), t);
  }

  lemma SelectAnswers<S>(svc: Services<S>, s: System<S>, t: Tid)
    requires t in s.procs && s.procs[t].Late? && s.procs[t].i.commandID in s.journal
    ensures var i := s.procs[t].i; var row := s.journal[i.commandID];
      Step(svc, s, Select(t)).procs[t] == Ended(i, NOTHING_HEARD, if Bound(row, i) then Replay(row.result) else IdConflict)
  {
  }

  // ---------------------------------------------------------------------------
  // Commands that are never recorded
  // ---------------------------------------------------------------------------

  function Unheard(view: View): nat {
    (if view.application.None? then 1 else 0) + (if view.target.None? then 1 else 0) + (if view.verifier.None? then 1 else 0)
    + (if view.icons.None? then 1 else 0) + (if view.mark.None? then 1 else 0) + (if view.count.None? then 1 else 0)
    + (if view.request.None? then 1 else 0)
  }

  /** Every question is a new one, so a closure comes to an end. */
  lemma HearsSomethingNew<S>(svc: Services<S>, s: S, c: Call, dry: bool, view: View)
    requires Next(svc.systemUser, c, dry, view).Ask?
    ensures Unheard(Hear(svc, s, Next(svc.systemUser, c, dry, view).query, view)) < Unheard(view)
  {
  }

  lemma {:induction false} ExecCons<S>(svc: Services<S>, s: System<S>, a: Action<S>, more: seq<Action<S>>)
    ensures Exec(svc, s, [a] + more) == Exec(svc, Step(svc, s, a), more)
    decreases |more|
  {
    if more == [] {
      assert ([a] + more)[..0] == [];
    } else {
      assert ([a] + more)[..|[a] + more| - 1] == [a] + more[..|more| - 1];
      ExecCons(svc, s, a, more[..|more| - 1]);
    }
  }

  ghost predicate Records<S>(svc: Services<S>, s: System<S>, id: string, more: seq<Action<S>>) {
    var journal := Exec(svc, s, more).journal;
    id in journal && journal[id].result.Some?
  }

  lemma ConcludedRecords<S>(svc: Services<S>, s: System<S>, t: Tid) returns (more: seq<Action<S>>)
    requires t in s.procs && s.procs[t].Concluded? && s.procs[t].i.commandID in s.journal
    ensures Records(svc, s, s.procs[t].i.commandID, more)
  {
    ExecCons(svc, s, Finish(t), []);
    more := [Finish(t)] + [];
  }

  lemma {:induction false} RunningRecords<S>(svc: Services<S>, s: System<S>, t: Tid) returns (more: seq<Action<S>>)
    requires t in s.procs && s.procs[t].Running? && s.procs[t].i.commandID in s.journal
    ensures Records(svc, s, s.procs[t].i.commandID, more)
    decreases Unheard(s.procs[t].view)
  {
    var p := s.procs[t];
    var a, rest;
    if NextMove(svc, p).Ask? {
      a := ReadOne(t);
      HearsSomethingNew(svc, s.state, p.i.command, p.i.dry, p.view);
      rest := RunningRecords(svc, Step(svc, s, a), t);
    } else {
      a := if NextMove(svc, p).Do? then Mutate(t) else Conclude(t);
      rest := ConcludedRecords(svc, Step(svc, s, a), t);
    }
    ExecCons(svc, s, a, rest);
    more := [a] + rest;
  }

  /** A command not yet recorded can still be if and only if the process that bound its ID has
      neither died nor given up; otherwise every retry is answered, without an error, that it was
      executed before -- with an empty result, and whether or not its call was ever made. */
  lemma RecordedExactly<S>(svc: Services<S>, s: System<S>, id: string)
    requires Inv(svc, s) && id in s.journal && s.journal[id].result.None?
    ensures s.journal[id].owner in s.procs
    ensures var owner := s.procs[s.journal[id].owner];
      (exists more :: Records(svc, s, id, more)) <==> owner.Running? || owner.Concluded?
  {
    assert RowOk(s, id, s.journal[id]);
    var t := s.journal[id].owner;
    assert ProcessOk(svc, s, t, s.procs[t]);
    if s.procs[t].Running? {
      var more := RunningRecords(svc, s, t);
    } else if s.procs[t].Concluded? {
      var more := ConcludedRecords(svc, s, t);
    } else {
      forall more ensures !Records(svc, s, id, more) { AbandonedStays(svc, s, id, more); }
    }
  }

  lemma {:induction false} AbandonedStays<S>(svc: Services<S>, s: System<S>, id: string, more: seq<Action<S>>)
    requires Inv(svc, s) && id in s.journal && s.journal[id].result.None?
    requires var t := s.journal[id].owner; t in s.procs && (s.procs[t].Ended? || s.procs[t].Dead?)
    ensures id in Exec(svc, s, more).journal && Exec(svc, s, more).journal[id] == s.journal[id]
  {
    if more != [] {
      var m, a := Exec(svc, s, more[..|more| - 1]), more[|more| - 1];
      AbandonedStays(svc, s, id, more[..|more| - 1]);
      LaterExtends(svc, s, more[..|more| - 1]);
      StepOnRow(svc, m, a, id);
    }
  }

  /** Every retry of such a command, whenever it comes, is told that the command was executed, with
      an empty result and no error; another request under its ID is told of the conflict. */
  lemma AbandonedAnswers<S>(svc: Services<S>, s: System<S>, id: string, more: seq<Action<S>>, t: Tid)
    requires Inv(svc, s) && id in s.journal && s.journal[id].result.None?
    requires var owner := s.journal[id].owner; owner in s.procs && (s.procs[owner].Ended? || s.procs[owner].Dead?)
    requires var s' := Exec(svc, s, more); t in s'.procs && s'.procs[t].Late? && s'.procs[t].i.commandID == id
    ensures var s' := Exec(svc, s, more); var i := s'.procs[t].i; var after := Step(svc, s', Select(t));
      && after.procs[t] == Ended(i, NOTHING_HEARD, if Bound(s.journal[id], i) then Replay(None) else IdConflict)
      && after.made == s'.made && after.state == s'.state
  {
    AbandonedStays(svc, s, id, more);
    SelectAnswers(svc, Exec(svc, s, more), t);
  }

  const ABANDONED := Invocation("c", UpsertIcon(1, 0, "x"), false)

  lemma ThreeSteps<S>(svc: Services<S>, s: System<S>, a: Action<S>, b: Action<S>, c: Action<S>)
    ensures Exec(svc, s, [a, b, c]) == Step(svc, Step(svc, Step(svc, s, a), b), c)
  {
    assert [a][..0] == [] && Exec(svc, s, []) == s;
    assert [a, b][..1] == [a] && Exec(svc, s, [a]) == Step(svc, s, a);
    assert [a, b, c][..2] == [a, b] && Exec(svc, s, [a, b]) == Step(svc, Step(svc, s, a), b);
  }

  /** It happens: a process dies between its insertion and its call.  The retry, and by
      RecordedExactly every one after it, is told that the command was executed; no call was made. */
  lemma AbandonedInstance<S>(svc: Services<S>, state: S)
    ensures var died := After(svc, state, [Arrive(0, ABANDONED), Insert(0), Die(0)]);
      var retried := Exec(svc, died, [Arrive(1, ABANDONED), Insert(1), Select(1)]);
      && died.made == [] && retried.made == []
      && 1 in retried.procs && retried.procs[1] == Ended(ABANDONED, NOTHING_HEARD, Replay(None))
  {
    ThreeSteps(svc, Start(state), Arrive(0, ABANDONED), Insert(0), Die(0));
    var died := After(svc, state, [Arrive(0, ABANDONED), Insert(0), Die(0)]);
    assert died == System(state, map["c" := Row(ABANDONED.command, false, 0, None)], map[0 := Dead(ABANDONED, NOTHING_HEARD)], []);
    RetryReplays(svc, died);
  }

  lemma RetryReplays<S>(svc: Services<S>, s: System<S>)
    requires ABANDONED.commandID in s.journal && Bound(s.journal[ABANDONED.commandID], ABANDONED) && 1 !in s.procs
    ensures var s' := Exec(svc, s, [Arrive(1, ABANDONED), Insert(1), Select(1)]);
      && s'.made == s.made && 1 in s'.procs
      && s'.procs[1] == Ended(ABANDONED, NOTHING_HEARD, Replay(s.journal[ABANDONED.commandID].result))
  {
    ThreeSteps(svc, s, Arrive(1, ABANDONED), Insert(1), Select(1));
  }

  // ---------------------------------------------------------------------------
  // Dry run and real run
  // ---------------------------------------------------------------------------

  /** The closure of the process returned, and this is what it answered. */
  ghost predicate Returned(p: Process, result: Outcome<()>) {
    || (p.Concluded? && p.result == result)
    || (p.Ended? && (p.reply == First(result) || p.reply == Unrecorded(result)))
  }

  lemma ReturnedSettled<S>(svc: Services<S>, s: System<S>, t: Tid, result: Outcome<()>)
    requires Inv(svc, s) && t in s.procs && Returned(s.procs[t], result)
    ensures s.procs[t].Concluded? || s.procs[t].Ended?
    ensures Settled(svc, s, t, s.procs[t].i, s.procs[t].view, result)
  {
    assert ProcessOk(svc, s, t, s.procs[t]);
  }

  /** A run's own verdict: a dry run passed, a real one made its call, if and only if the command is
      allowed by what it heard; a real run that made no call was refused. */
  lemma OwnVerdict<S>(svc: Services<S>, s: System<S>, t: Tid, i: Invocation, view: View, result: Outcome<()>)
    requires Settled(svc, s, t, i, view, result)
    ensures i.dry ==> (result.Ok? <==> Allowed(svc.systemUser, i.command, view)) && Idle(s, t)
    ensures !i.dry ==>
      var called := Made(t, i.commandID, Granted(i.command, view)) in s.made;
      (called <==> Allowed(svc.systemUser, i.command, view)) && (called || (Idle(s, t) && result.Err?))
  {
    VerdictExactly(svc.systemUser, i.command, i.dry, view);
  }

  /** For a dry run and a real run of one command, however they were interleaved with each other
      and with anything else: the dry run passed if and only if the command is allowed by what it
      heard, the real run made its call if and only if it is allowed by what that heard, and if
      nothing they both asked was answered differently the one holds for the other. */
  lemma DryRunPredicts<S>(svc: Services<S>, state: S, actions: seq<Action<S>>, dry: Tid, wet: Tid, rd: Outcome<()>, rr: Outcome<()>)
    requires var procs := After(svc, state, actions).procs;
      && dry in procs && wet in procs && Returned(procs[dry], rd) && Returned(procs[wet], rr)
      && procs[dry].i.command == procs[wet].i.command && procs[dry].i.dry && !procs[wet].i.dry
    ensures var s := After(svc, state, actions); var d, r := s.procs[dry], s.procs[wet];
      var called := Made(wet, r.i.commandID, Granted(r.i.command, r.view)) in s.made;
      && (rd.Ok? <==> Allowed(svc.systemUser, d.i.command, d.view))
      && (called <==> Allowed(svc.systemUser, r.i.command, r.view))
      && (called || (Idle(s, wet) && rr.Err?))
      && (Consistent(d.view, r.view) ==> (called <==> rd.Ok?))
  {
    Reachable(svc, Start(state), actions);
    var s := After(svc, state, actions);
    var d, r := s.procs[dry], s.procs[wet];
    ReturnedSettled(svc, s, dry, rd);
    ReturnedSettled(svc, s, wet, rr);
    OwnVerdict(svc, s, dry, d.i, d.view, rd);
    OwnVerdict(svc, s, wet, r.i, r.view, rr);
    SameQuestions(svc.systemUser, d.i.command, d.view);
    if Consistent(d.view, r.view) { UnchangedStillHolds(svc.systemUser, d.i.command, d.view, r.view); }
  }
}
