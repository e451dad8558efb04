/**
 Idempotent OTP delivery: any number of concurrent requests share one table of
 receipts under a mutex (cmd/otpwebhook-example/main.go, deliverOnce).

 The sections run under the mutex are functions on a Registry.  The system is a
 step machine whose actions are those sections and the steps between them, so a
 sequence of actions is one interleaving.
 */
module OtpProtocol {

  type DeliveryId = string
  type Fingerprint = string
  type Tid = nat

  /** What deliver answers: a message ID and whether an error came with it. */
  datatype Outcome = Outcome(messageID: string, failed: bool)

  /** A request body and what it decodes to; valid stands for the checks of validateRequest that
      look at the body alone. */
  datatype Body = Body(text: string, id: DeliveryId, expiresAt: int, valid: bool)

  /** A signed request: its body and its Idempotency-Key header. */
  datatype Request = Request(body: Body, key: string) {
    const id: DeliveryId := body.id
    const expiresAt: int := body.expiresAt
  }

  /** validateRequest: the gate in front of deliverOnce, with a clock reading of its own. */
  predicate Admissible(req: Request, now: int) {
    req.body.valid && req.id == req.key && req.expiresAt > now
  }

  /** A receipt.  Waiters hold it by reference, so its identity (its index in
      Registry.receipts) outlives its entry in the table.  closes counts how
      often its channel was closed: a second close would panic. */
  datatype Receipt = Receipt(
    owner: Tid, id: DeliveryId, fingerprint: Fingerprint, expiresAt: int,
    outcome: Outcome, completed: bool, closes: nat)

  datatype Registry = Registry(table: map<DeliveryId, nat>, receipts: seq<Receipt>) {
    predicate Valid() {
      forall id | id in table :: table[id] < |receipts| && receipts[table[id]].id == id
    }
  }

  datatype Decision = Own(rid: nat) | Wait(rid: nat) | Reject

  predicate Stale(r: Receipt, now: int) {
    r.completed && r.expiresAt <= now
  }

  function Purge(g: Registry, now: int): Registry
    requires g.Valid()
  {
    g.(table := map id | id in g.table && !Stale(g.receipts[g.table[id]], now) :: g.table[id])
  }

  /** The first locked section: purge, then wait on, conflict with, or own a receipt. */
  function Enter(g: Registry, t: Tid, id: DeliveryId, fp: Fingerprint, expiresAt: int, now: int): (Registry, Decision)
    requires g.Valid()
  {
    var p := Purge(g, now);
    if id in p.table then
      if p.receipts[p.table[id]].fingerprint != fp then (p, Reject) else (p, Wait(p.table[id]))
    else
      (Registry(p.table[id := |p.receipts|],
                p.receipts + [Receipt(t, id, fp, expiresAt, Outcome("", false), false, 0)]),
       Own(|p.receipts|))
  }

  /** The last locked section: store the result, mark completed, close the channel. */
  function Complete(g: Registry, rid: nat, outcome: Outcome): Registry
    requires rid < |g.receipts|
  {
    var r := g.receipts[rid];
    g.(receipts := g.receipts[rid := r.(outcome := outcome, completed := true, closes := r.closes + 1)])
  }

  // ---------------------------------------------------------------------------
  // The step machine
  // ---------------------------------------------------------------------------

  datatype Reply = Result(outcome: Outcome, rid: nat) | Conflict | Cancelled | Invalid

  /** Where one request stands, from the handler's gate to its reply. */
  datatype Call =
    | Arrived(req: Request)
    | Admitted(req: Request)
    | Stamped(req: Request, now: int)
    | Delivering(req: Request, rid: nat)
    | Delivered(req: Request, rid: nat, outcome: Outcome)
    | Panicked(req: Request, rid: nat)
    | Waiting(req: Request, rid: nat)
    | Woken(req: Request, rid: nat)
    | Returned(req: Request, reply: Reply)

  datatype Event =
    | Gate(t: Tid, now: int)
    | Clock(t: Tid, now: int)
    | Start(t: Tid, rid: nat)
    | Finish(t: Tid, rid: nat, outcome: Outcome)
    | Close(t: Tid, rid: nat, outcome: Outcome)

  datatype State = State(reg: Registry, calls: map<Tid, Call>, log: seq<Event>)

  datatype Action =
    | Arrive(t: Tid, req: Request)
    | ReadGate(t: Tid, now: int)
    | ReadClock(t: Tid, now: int)
    | LockedEnter(t: Tid)
    | DeliverReturns(t: Tid, outcome: Outcome)
    | DeliverPanics(t: Tid)
    | LockedComplete(t: Tid)
    | ObserveDone(t: Tid)
    | LockedRead(t: Tid)
    | Cancel(t: Tid)

  const INIT := State(Registry(map[], []), map[], [])

  function Decide(hash: Body -> Fingerprint, s: State, t: Tid): State
    requires s.reg.Valid() && t in s.calls && s.calls[t].Stamped?
  {
    var req, now := s.calls[t].req, s.calls[t].now;
    var (g, d) := Enter(s.reg, t, req.id, hash(req.body), req.expiresAt, now);
    match d
    case Own(rid) => State(g, s.calls[t := Delivering(req, rid)], s.log + [Start(t, rid)])
    case Wait(rid) => State(g, s.calls[t := Waiting(req, rid)], s.log)
    case Reject => State(g, s.calls[t := Returned(req, Conflict)], s.log)
  }

  function Completed(s: State, t: Tid): State
    requires t in s.calls && s.calls[t].Delivered? && s.calls[t].rid < |s.reg.receipts|
  {
    var c := s.calls[t];
    State(Complete(s.reg, c.rid, c.outcome), s.calls[t := Returned(c.req, Result(c.outcome, c.rid))], s.log + [Close(t, c.rid, c.outcome)])
  }

  /** The receipts a call refers to exist, as they do in every state a run reaches. */
  predicate Sound(s: State, c: Call) {
    && s.reg.Valid()
    && (c.Delivering? || c.Delivered? || c.Panicked? || c.Waiting? || c.Woken? ==> c.rid < |s.reg.receipts|)
  }

  /** One step of the system; an action that is not enabled leaves the state alone. */
  function Step(hash: Body -> Fingerprint, s: State, a: Action): State {
    if a.Arrive? then
      if a.t in s.calls then s else s.(calls := s.calls[a.t := Arrived(a.req)])
    else if a.t !in s.calls || !Sound(s, s.calls[a.t]) then s
    else
      var c := s.calls[a.t];
      match a
      case ReadGate(t, now) =>
        if c.Arrived?
        then s.(calls := s.calls[t := if Admissible(c.req, now) then Admitted(c.req) else Returned(c.req, Invalid)], log := s.log + [Gate(t, now)])
        else s
      case ReadClock(t, now) =>
        if c.Admitted? then s.(calls := s.calls[t := Stamped(c.req, now)], log := s.log + [Clock(t, now)]) else s
      case LockedEnter(t) =>
        if c.Stamped? then Decide(hash, s, t) else s
      case DeliverReturns(t, o) =>
        if c.Delivering?
        then s.(calls := s.calls[t := Delivered(c.req, c.rid, o)], log := s.log + [Finish(t, c.rid, o)])
        else s
      case DeliverPanics(t) =>
        if c.Delivering? then s.(calls := s.calls[t := Panicked(c.req, c.rid)]) else s
      case LockedComplete(t) =>
        if c.Delivered? then Completed(s, t) else s
      case ObserveDone(t) =>
        if c.Waiting? && s.reg.receipts[c.rid].closes > 0
        then s.(calls := s.calls[t := Woken(c.req, c.rid)])
        else s
      case LockedRead(t) =>
        if c.Woken?
        then s.(calls := s.calls[t := Returned(c.req, Result(s.reg.receipts[c.rid].outcome, c.rid))])
        else s
      case Cancel(t) =>
        if c.Waiting? then s.(calls := s.calls[t := Returned(c.req, Cancelled)]) else s
  }

  // ---------------------------------------------------------------------------
  // The invariant
  // ---------------------------------------------------------------------------

  /** Closed before log position j. */
  ghost predicate ClosedBefore(log: seq<Event>, rid: nat, j: nat)
    requires j <= |log|
  {
    exists e :: 0 <= e < j && log[e].Close? && log[e].rid == rid
  }

  /** Some clock reading before log position j had reached the expiry. */
  ghost predicate ExpiredBefore(log: seq<Event>, expiresAt: int, j: nat)
    requires j <= |log|
  {
    exists e :: 0 <= e < j && log[e].Clock? && expiresAt <= log[e].now
  }

  /** The owner is between its start and its close. */
  ghost predicate InFlight(s: State, rid: nat)
    requires rid < |s.reg.receipts|
  {
    var t := s.reg.receipts[rid].owner;
    t in s.calls && (s.calls[t].Delivering? || s.calls[t].Delivered?) && s.calls[t].rid == rid
  }

  /** The owner's delivery panicked: nobody is left to complete the receipt. */
  ghost predicate Wrecked(s: State, rid: nat)
    requires rid < |s.reg.receipts|
  {
    var t := s.reg.receipts[rid].owner;
    t in s.calls && s.calls[t].Panicked? && s.calls[t].rid == rid
  }

  ghost predicate Unfinished(s: State, rid: nat)
    requires rid < |s.reg.receipts|
  {
    InFlight(s, rid) || Wrecked(s, rid)
  }

  /** What a call must satisfy, by where it stands. */
  ghost predicate CallOk(hash: Body -> Fingerprint, s: State, t: Tid, c: Call) {
    var rs := s.reg.receipts;
    match c
    case Arrived(_) => true
    case Admitted(_) => true
    case Stamped(_, now) => exists e :: 0 <= e < |s.log| && s.log[e] == Clock(t, now)
    case Delivering(req, rid) => Owns(hash, s, t, req, rid) && !rs[rid].completed && Start(t, rid) in s.log
    case Delivered(req, rid, o) => Owns(hash, s, t, req, rid) && !rs[rid].completed && Finish(t, rid, o) in s.log
    case Panicked(req, rid) => Owns(hash, s, t, req, rid) && !rs[rid].completed
    case Waiting(req, rid) => Shares(hash, s, req, rid)
    case Woken(req, rid) => Shares(hash, s, req, rid) && rs[rid].completed
    case Returned(req, Result(o, rid)) => Shares(hash, s, req, rid) && rs[rid].completed && rs[rid].outcome == o
    case Returned(req, Conflict) => exists rid :: 0 <= rid < |rs| && rs[rid].id == req.id && rs[rid].fingerprint != hash(req.body)
    case Returned(_, Cancelled) => true
    case Returned(_, Invalid) => true
  }

  ghost predicate Shares(hash: Body -> Fingerprint, s: State, req: Request, rid: nat) {
    rid < |s.reg.receipts| && s.reg.receipts[rid].id == req.id && s.reg.receipts[rid].fingerprint == hash(req.body)
  }

  ghost predicate Owns(hash: Body -> Fingerprint, s: State, t: Tid, req: Request, rid: nat) {
    Shares(hash, s, req, rid) && s.reg.receipts[rid].owner == t && s.reg.receipts[rid].expiresAt == req.expiresAt
  }

  ghost predicate ReceiptOk(hash: Body -> Fingerprint, s: State, rid: nat)
    requires rid < |s.reg.receipts|
  {
    var r := s.reg.receipts[rid];
    && r.owner in s.calls
    && Owns(hash, s, r.owner, s.calls[r.owner].req, rid)
    && r.closes == (if r.completed then 1 else 0)
    && (!r.completed ==> Unfinished(s, rid) && r.id in s.reg.table && s.reg.table[r.id] == rid)
    && (r.completed ==>
          && ClosedBefore(s.log, rid, |s.log|)
          && s.calls[r.owner] == Returned(s.calls[r.owner].req, Result(r.outcome, rid))
          && ((r.id in s.reg.table && s.reg.table[r.id] == rid) || ExpiredBefore(s.log, r.expiresAt, |s.log|)))
  }

  /** What the log must satisfy at one position. */
  ghost predicate EventOk(s: State, j: nat)
    requires j < |s.log|
  {
    var rs := s.reg.receipts;
    match s.log[j]
    case Gate(_, _) => true
    case Clock(_, _) => true
    case Start(t, rid) =>
      && rid < |rs| && rs[rid].owner == t
      && (forall e :: 0 <= e < j && s.log[e].Start? ==> s.log[e].rid < rid)
      && (forall r {:trigger rs[r]} :: 0 <= r < rid && rs[r].id == rs[rid].id ==>
            ClosedBefore(s.log, r, j) && ExpiredBefore(s.log, rs[r].expiresAt, j))
    case Finish(t, rid, o) => rid < |rs| && rs[rid].owner == t && (exists e :: 0 <= e < j && s.log[e] == Start(t, rid))
    case Close(t, rid, o) =>
      && rid < |rs| && rs[rid].owner == t && rs[rid].completed && rs[rid].outcome == o
      && (forall e :: 0 <= e < j && s.log[e].Close? ==> s.log[e].rid != rid)
      && (exists e :: 0 <= e < j && s.log[e] == Finish(t, rid, o))
  }

  /** A newer receipt for the same delivery ID shows that this one left the table. */
  ghost predicate Ordered(s: State) {
    var rs := s.reg.receipts;
    forall id, r | id in s.reg.table && 0 <= r < |rs| && rs[r].id == id :: r <= s.reg.table[id]
  }

  ghost predicate Inv(hash: Body -> Fingerprint, s: State) {
    && s.reg.Valid()
    && Ordered(s)
    && (forall t | t in s.calls :: CallOk(hash, s, t, s.calls[t]))
    && (forall rid | 0 <= rid < |s.reg.receipts| :: ReceiptOk(hash, s, rid))
    && (forall j | 0 <= j < |s.log| :: EventOk(s, j))
  }


  // ---------------------------------------------------------------------------
  // Every step keeps the invariant
  // ---------------------------------------------------------------------------

  /** Receipts are only added; a completed one never changes again. */
  ghost predicate Grows(rs: seq<Receipt>, rs': seq<Receipt>) {
    && |rs| <= |rs'|
    && (forall r | 0 <= r < |rs| ::
          && rs'[r].owner == rs[r].owner && rs'[r].id == rs[r].id && rs'[r].fingerprint == rs[r].fingerprint
          && rs'[r].expiresAt == rs[r].expiresAt
          && (rs[r].completed ==> rs'[r] == rs[r]))
  }

  lemma EventKept(s: State, s': State, j: nat)
    requires j < |s.log| <= |s'.log| && s'.log[..|s.log|] == s.log
    requires Grows(s.reg.receipts, s'.reg.receipts)
    requires EventOk(s, j)
    ensures EventOk(s', j)
  {
    assert forall e :: 0 <= e <= j ==> s'.log[e] == s'.log[..|s.log|][e];
    match s.log[j]
    case Start(t, rid) =>
      var rs, rs' := s.reg.receipts, s'.reg.receipts;
      forall r {:trigger rs'[r]} | 0 <= r < rid && rs'[r].id == rs'[rid].id
        ensures ClosedBefore(s'.log, r, j) && ExpiredBefore(s'.log, rs'[r].expiresAt, j)
      {
        assert rs[r].id == rs[rid].id;
        PastKept(s.log, s'.log, r, rs[r].expiresAt, j);
      }
    case _ =>
  }

  lemma PastKept(log: seq<Event>, log': seq<Event>, rid: nat, expiresAt: int, j: nat)
    requires j <= |log| <= |log'| && log'[..|log|] == log
    ensures ClosedBefore(log, rid, j) ==> ClosedBefore(log', rid, j) && ClosedBefore(log', rid, |log'|)
    ensures ExpiredBefore(log, expiresAt, j) ==> ExpiredBefore(log', expiresAt, j) && ExpiredBefore(log', expiresAt, |log'|)
  {
    assert forall e :: 0 <= e < j ==> log'[e] == log'[..|log|][e];
  }

  /** A call that does not move keeps its clause, unless its own receipt is completed under it. */
  lemma CallKept(hash: Body -> Fingerprint, s: State, s': State, t: Tid, c: Call)
    requires |s.log| <= |s'.log| && s'.log[..|s.log|] == s.log
    requires Grows(s.reg.receipts, s'.reg.receipts)
    requires CallOk(hash, s, t, c)
    requires c.Delivering? || c.Delivered? || c.Panicked? ==> !s'.reg.receipts[c.rid].completed
    ensures CallOk(hash, s', t, c)
  {
    assert forall e :: 0 <= e < |s.log| ==> s'.log[e] == s'.log[..|s.log|][e];
    match c
    case Returned(req, Conflict) =>
      var rid :| 0 <= rid < |s.reg.receipts| && s.reg.receipts[rid].id == req.id && s.reg.receipts[rid].fingerprint != hash(req.body);
      assert s'.reg.receipts[rid].id == req.id;
    case Delivering(req, rid) => assert Start(t, rid) in s'.log[..|s.log|];
    case Delivered(req, rid, o) => assert Finish(t, rid, o) in s'.log[..|s.log|];
    case _ =>
  }

  /** A receipt is kept by any step that leaves the registry alone and moves no owner backwards. */
  lemma ReceiptKept(hash: Body -> Fingerprint, s: State, s': State, rid: nat)
    requires |s.log| <= |s'.log| && s'.log[..|s.log|] == s.log
    requires rid < |s.reg.receipts| && ReceiptOk(hash, s, rid)
    requires Grows(s.reg.receipts, s'.reg.receipts) && s'.reg.receipts[rid] == s.reg.receipts[rid]
    requires var t := s.reg.receipts[rid].owner;
      t in s'.calls && (s'.calls[t] == s.calls[t] || (!s.reg.receipts[rid].completed && Unfinished(s', rid) && s'.calls[t].req == s.calls[t].req))
    requires var r := s.reg.receipts[rid];
      r.id in s.reg.table && s.reg.table[r.id] == rid ==>
        || (r.id in s'.reg.table && s'.reg.table[r.id] == rid)
        || (r.completed && ExpiredBefore(s'.log, r.expiresAt, |s'.log|))
    ensures ReceiptOk(hash, s', rid)
  {
    PastKept(s.log, s'.log, rid, s.reg.receipts[rid].expiresAt, |s.log|);
  }

  /** Steps outside the locked sections: only one call moves, and the log may grow. */
  lemma MoveKept(hash: Body -> Fingerprint, s: State, s': State, t: Tid)
    requires Inv(hash, s) && s'.reg == s.reg
    requires |s.log| <= |s'.log| && s'.log[..|s.log|] == s.log
    requires forall j | |s.log| <= j < |s'.log| :: EventOk(s', j)
    requires t in s'.calls && s'.calls == s.calls[t := s'.calls[t]]
    requires CallOk(hash, s', t, s'.calls[t])
    requires t in s.calls ==>
      && s'.calls[t].req == s.calls[t].req
      && !(s.calls[t].Returned?)
      && (forall rid | 0 <= rid < |s.reg.receipts| && s.reg.receipts[rid].owner == t :: Unfinished(s', rid))
    ensures Inv(hash, s')
  {
    forall u | u in s'.calls ensures CallOk(hash, s', u, s'.calls[u]) {
      if u != t { CallKept(hash, s, s', u, s.calls[u]); }
    }
    forall rid | 0 <= rid < |s'.reg.receipts| ensures ReceiptOk(hash, s', rid) {
      assert ReceiptOk(hash, s, rid);
      ReceiptKept(hash, s, s', rid);
    }
    forall j | 0 <= j < |s'.log| ensures EventOk(s', j) {
      if j < |s.log| { EventKept(s, s', j); }
    }
  }

  /** A call that has not reached the table owns nothing. */
  lemma OwnsNothing(hash: Body -> Fingerprint, s: State, t: Tid)
    requires Inv(hash, s) && t in s.calls
    requires s.calls[t].Arrived? || s.calls[t].Admitted? || s.calls[t].Stamped? || s.calls[t].Waiting? || s.calls[t].Woken?
    ensures forall rid | 0 <= rid < |s.reg.receipts| :: s.reg.receipts[rid].owner != t
  {
    forall rid | 0 <= rid < |s.reg.receipts| ensures s.reg.receipts[rid].owner != t {
      assert ReceiptOk(hash, s, rid);
    }
  }

  lemma PurgeKept(hash: Body -> Fingerprint, s: State, s': State, t: Tid, rid: nat)
    requires Inv(hash, s) && t in s.calls && s.calls[t].Stamped? && rid < |s.reg.receipts|
    requires s' == Decide(hash, s, t)
    ensures ReceiptOk(hash, s', rid)
  {
    OwnsNothing(hash, s, t);
    var r, now := s.reg.receipts[rid], s.calls[t].now;
    assert ReceiptOk(hash, s, rid);
    assert ClockRead(s, t, now) by { assert CallOk(hash, s, t, s.calls[t]); }
    var e :| 0 <= e < |s.log| && s.log[e] == Clock(t, now);
    assert s'.log[e] == Clock(t, now);
    if r.id in s.reg.table && s.reg.table[r.id] == rid && Stale(r, now) {
      assert ExpiredBefore(s'.log, r.expiresAt, |s'.log|);
    }
    ReceiptKept(hash, s, s', rid);
  }

  ghost predicate ClockRead(s: State, t: Tid, now: int) {
    exists e :: 0 <= e < |s.log| && s.log[e] == Clock(t, now)
  }

  /** A new delivery starts only when every earlier receipt of its ID was closed and expired. */
  lemma StartJustified(hash: Body -> Fingerprint, s: State, s': State, t: Tid)
    requires Inv(hash, s) && t in s.calls && s.calls[t].Stamped?
    requires s' == Decide(hash, s, t) && s'.calls[t].Delivering?
    ensures EventOk(s', |s.log|)
  {
    var rs, rs', req, now := s.reg.receipts, s'.reg.receipts, s.calls[t].req, s.calls[t].now;
    assert s'.log[|s.log|] == Start(t, |rs|);
    assert forall e | 0 <= e < |s.log| && s.log[e].Start? :: EventOk(s, e);
    assert ClockRead(s, t, now) by { assert CallOk(hash, s, t, s.calls[t]); }
    forall r {:trigger rs'[r]} | 0 <= r < |rs| && rs'[r].id == req.id
      ensures ClosedBefore(s'.log, r, |s.log|) && ExpiredBefore(s'.log, rs'[r].expiresAt, |s.log|)
    {
      assert rs'[r] == rs[r] && ReceiptOk(hash, s, r);
      PastKept(s.log, s'.log, r, rs[r].expiresAt, |s.log|);
    }
  }

  lemma DecideCallsKept(hash: Body -> Fingerprint, s: State, s': State, t: Tid)
    requires Inv(hash, s) && t in s.calls && s.calls[t].Stamped?
    requires s' == Decide(hash, s, t)
    ensures forall u | u in s'.calls :: CallOk(hash, s', u, s'.calls[u])
  {
    if s'.calls[t].Delivering? { assert s'.log[|s.log|] == Start(t, s'.calls[t].rid); }
    forall u | u in s'.calls ensures CallOk(hash, s', u, s'.calls[u]) {
      if u != t {
        assert CallOk(hash, s, u, s.calls[u]);
        CallKept(hash, s, s', u, s.calls[u]);
      }
    }
  }

  lemma DecideKept(hash: Body -> Fingerprint, s: State, t: Tid)
    requires Inv(hash, s) && t in s.calls && s.calls[t].Stamped?
    ensures Inv(hash, Decide(hash, s, t))
  {
    var s' := Decide(hash, s, t);
    DecideCallsKept(hash, s, s', t);
    forall rid | 0 <= rid < |s'.reg.receipts| ensures ReceiptOk(hash, s', rid) {
      if rid < |s.reg.receipts| { PurgeKept(hash, s, s', t, rid); }
    }
    forall j | 0 <= j < |s'.log| ensures EventOk(s', j) {
      if j < |s.log| { EventKept(s, s', j); } else { StartJustified(hash, s, s', t); }
    }
  }

  lemma CompleteCallsKept(hash: Body -> Fingerprint, s: State, t: Tid, u: Tid)
    requires Inv(hash, s) && t in s.calls && s.calls[t].Delivered? && s.calls[t].rid < |s.reg.receipts| && u in s.calls
    ensures CallOk(hash, Completed(s, t), u, Completed(s, t).calls[u])
  {
    assert CallOk(hash, s, t, s.calls[t]) && CallOk(hash, s, u, s.calls[u]) && ReceiptOk(hash, s, s.calls[t].rid);
    if u != t { CallKept(hash, s, Completed(s, t), u, s.calls[u]); }
  }

  lemma CompleteEventsKept(hash: Body -> Fingerprint, s: State, t: Tid, j: nat)
    requires Inv(hash, s) && t in s.calls && s.calls[t].Delivered? && s.calls[t].rid < |s.reg.receipts| && j <= |s.log|
    ensures EventOk(Completed(s, t), j)
  {
    var s', c := Completed(s, t), s.calls[t];
    assert CallOk(hash, s, t, c) && ReceiptOk(hash, s, c.rid);
    if j < |s.log| {
      EventKept(s, s', j);
    } else {
      assert s'.log[j] == Close(t, c.rid, c.outcome);
      assert forall e | 0 <= e < j && s.log[e].Close? :: EventOk(s, e);
      var e :| 0 <= e < |s.log| && s.log[e] == Finish(t, c.rid, c.outcome);
      assert s'.log[e] == Finish(t, c.rid, c.outcome);
    }
  }

  lemma CompleteKept(hash: Body -> Fingerprint, s: State, t: Tid)
    requires Inv(hash, s) && t in s.calls && s.calls[t].Delivered? && s.calls[t].rid < |s.reg.receipts|
    ensures Inv(hash, Completed(s, t))
  {
    var s', c := Completed(s, t), s.calls[t];
    forall u | u in s'.calls ensures CallOk(hash, s', u, s'.calls[u]) { CompleteCallsKept(hash, s, t, u); }
    forall j | 0 <= j < |s'.log| ensures EventOk(s', j) { CompleteEventsKept(hash, s, t, j); }
    assert CallOk(hash, s, t, c) && CallOk(hash, s', t, s'.calls[t]);
    assert s'.log[|s.log|] == Close(t, c.rid, c.outcome);
    forall rid | 0 <= rid < |s'.reg.receipts| ensures ReceiptOk(hash, s', rid) {
      assert ReceiptOk(hash, s, rid);
      if rid != c.rid { ReceiptKept(hash, s, s', rid); }
    }
  }

  lemma ArrivalKept(hash: Body -> Fingerprint, s: State, a: Action)
    requires Inv(hash, s) && (a.Arrive? || a.ReadGate? || a.ReadClock?)
    ensures Inv(hash, Step(hash, s, a))
  {
    var s', t := Step(hash, s, a), a.t;
    if s' == s { return; }
    if a.Arrive? {
      forall rid | 0 <= rid < |s.reg.receipts| ensures s.reg.receipts[rid].owner != t { assert ReceiptOk(hash, s, rid); }
    } else {
      OwnsNothing(hash, s, t);
      assert s'.log[|s.log|] == if a.ReadGate? then Gate(t, a.now) else Clock(t, a.now);
    }
    MoveKept(hash, s, s', t);
  }

  lemma DeliveryKept(hash: Body -> Fingerprint, s: State, a: Action)
    requires Inv(hash, s) && (a.DeliverReturns? || a.DeliverPanics?)
    ensures Inv(hash, Step(hash, s, a))
  {
    var s', t := Step(hash, s, a), a.t;
    if s' == s { return; }
    OwnerMoves(hash, s, s', t);
    if a.DeliverReturns? {
      assert s'.log[|s.log|] == Finish(t, s.calls[t].rid, a.outcome);
      var e :| 0 <= e < |s.log| && s.log[e] == Start(t, s.calls[t].rid);
      assert s'.log[e] == Start(t, s.calls[t].rid);
    }
    MoveKept(hash, s, s', t);
  }

  lemma WaitKept(hash: Body -> Fingerprint, s: State, a: Action)
    requires Inv(hash, s) && (a.ObserveDone? || a.LockedRead? || a.Cancel?)
    ensures Inv(hash, Step(hash, s, a))
  {
    var s', t := Step(hash, s, a), a.t;
    if s' == s { return; }
    OwnsNothing(hash, s, t);
    assert CallOk(hash, s, t, s.calls[t]);
    if a.ObserveDone? { assert ReceiptOk(hash, s, s.calls[t].rid); }
    MoveKept(hash, s, s', t);
  }

  lemma StepKept(hash: Body -> Fingerprint, s: State, a: Action)
    requires Inv(hash, s)
    ensures Inv(hash, Step(hash, s, a))
  {
    if Step(hash, s, a) == s { return; }
    match a
    case LockedEnter(t) => DecideKept(hash, s, t);
    case LockedComplete(t) => CompleteKept(hash, s, t);
    case DeliverReturns(_, _) => DeliveryKept(hash, s, a);
    case DeliverPanics(_) => DeliveryKept(hash, s, a);
    case ObserveDone(_) => WaitKept(hash, s, a);
    case LockedRead(_) => WaitKept(hash, s, a);
    case Cancel(_) => WaitKept(hash, s, a);
    case _ => ArrivalKept(hash, s, a);
  }

  lemma OwnerMoves(hash: Body -> Fingerprint, s: State, s': State, t: Tid)
    requires Inv(hash, s) && t in s.calls && s.calls[t].Delivering?
    requires s'.reg == s.reg && t in s'.calls && (s'.calls[t].Delivered? || s'.calls[t].Panicked?) && s'.calls[t].rid == s.calls[t].rid
    ensures CallOk(hash, s, t, s.calls[t])
    ensures forall rid | 0 <= rid < |s.reg.receipts| && s.reg.receipts[rid].owner == t :: Unfinished(s', rid)
  {
    forall rid | 0 <= rid < |s.reg.receipts| && s.reg.receipts[rid].owner == t ensures Unfinished(s', rid) {
      assert ReceiptOk(hash, s, rid);
    }
  }

  // ---------------------------------------------------------------------------
  // Every interleaving
  // ---------------------------------------------------------------------------

  /** The state after more steps. */
  function Continue(hash: Body -> Fingerprint, s: State, more: seq<Action>): State {
    if more == [] then s else Step(hash, Continue(hash, s, more[..|more| - 1]), more[|more| - 1])
  }

  /** The state after an interleaving, from the empty table. */
  function Run(hash: Body -> Fingerprint, actions: seq<Action>): State {
    Continue(hash, INIT, actions)
  }

  lemma {:induction false} ContinueKept(hash: Body -> Fingerprint, s: State, more: seq<Action>)
    requires Inv(hash, s)
    ensures Inv(hash, Continue(hash, s, more))
  {
    if more != [] {
      ContinueKept(hash, s, more[..|more| - 1]);
      StepKept(hash, Continue(hash, s, more[..|more| - 1]), more[|more| - 1]);
    }
  }

  /** The invariant holds after every interleaving. */
  lemma RunKept(hash: Body -> Fingerprint, actions: seq<Action>)
    ensures Inv(hash, Run(hash, actions))
  {
    ContinueKept(hash, INIT, actions);
  }

  lemma {:induction false} ContinueTwice(hash: Body -> Fingerprint, s: State, first: seq<Action>, second: seq<Action>)
    ensures Continue(hash, s, first + second) == Continue(hash, Continue(hash, s, first), second)
    decreases |second|
  {
    if second == [] {
      assert first + second == first;
    } else {
      assert (first + second)[..|first + second| - 1] == first + second[..|second| - 1];
      ContinueTwice(hash, s, first, second[..|second| - 1]);
    }
  }

  ghost predicate CollisionFree(hash: Body -> Fingerprint) {
    forall a, b :: hash(a) == hash(b) ==> a == b
  }

  /** Two deliver calls for one delivery ID are never in progress together. */
  lemma DeliveriesNeverOverlap(hash: Body -> Fingerprint, actions: seq<Action>, t: Tid, u: Tid)
    requires var calls := Run(hash, actions).calls;
      && t in calls && u in calls && calls[t].Delivering? && calls[u].Delivering?
      && calls[t].req.id == calls[u].req.id
    ensures t == u
  {
    RunKept(hash, actions);
    var s := Run(hash, actions);
    assert CallOk(hash, s, t, s.calls[t]) && CallOk(hash, s, u, s.calls[u]);
    assert ReceiptOk(hash, s, s.calls[t].rid) && ReceiptOk(hash, s, s.calls[u].rid);
  }

  /** Between two deliveries for one ID, the first one's call finished and its receipt was
      closed, and some clock reading had reached its expiry. */
  lemma SecondDeliveryIsJustified(hash: Body -> Fingerprint, actions: seq<Action>, i: nat, j: nat)
    returns (finish: nat, close: nat, clock: nat)
    requires var s := Run(hash, actions);
      && i < j < |s.log| && s.log[i].Start? && s.log[j].Start?
      && s.log[i].rid < |s.reg.receipts| && s.log[j].rid < |s.reg.receipts|
      && s.reg.receipts[s.log[i].rid].id == s.reg.receipts[s.log[j].rid].id
    ensures var s := Run(hash, actions);
      && i < finish < close < j && clock < j
      && s.log[finish].Finish? && s.log[finish].t == s.log[i].t && s.log[finish].rid == s.log[i].rid
      && s.log[close] == Close(s.log[i].t, s.log[i].rid, s.log[finish].outcome)
      && s.log[clock].Clock? && s.reg.receipts[s.log[i].rid].expiresAt <= s.log[clock].now
  {
    RunKept(hash, actions);
    var s := Run(hash, actions);
    var log, r, expiresAt := s.log, s.log[i].rid, s.reg.receipts[s.log[i].rid].expiresAt;
    assert EventOk(s, i) && EventOk(s, j);
    assert ClosedBefore(log, r, j) && ExpiredBefore(log, expiresAt, j);
    close :| 0 <= close < j && log[close].Close? && log[close].rid == r;
    clock :| 0 <= clock < j && log[clock].Clock? && expiresAt <= log[clock].now;
    assert EventOk(s, close);
    finish :| 0 <= finish < close && log[finish] == Finish(log[close].t, r, log[close].outcome);
    assert EventOk(s, finish);
    var start :| 0 <= start < finish && log[start] == Start(log[close].t, r);
    assert EventOk(s, start);
  }

  lemma CloseIsOwners(hash: Body -> Fingerprint, s: State, t: Tid, rid: nat, o: Outcome)
    requires Inv(hash, s) && Close(t, rid, o) in s.log
    ensures rid < |s.reg.receipts| && t == s.reg.receipts[rid].owner
    ensures s.reg.receipts[rid].completed && o == s.reg.receipts[rid].outcome
    ensures Finish(t, rid, o) in s.log
  {
    var e :| 0 <= e < |s.log| && s.log[e] == Close(t, rid, o);
    assert EventOk(s, e);
  }

  /** A channel is closed at most once, by its owner, with the result deliver gave it. */
  lemma ClosedOnceByOwner(hash: Body -> Fingerprint, actions: seq<Action>, rid: nat)
    requires rid < |Run(hash, actions).reg.receipts|
    ensures var s := Run(hash, actions); var r := s.reg.receipts[rid];
      && r.closes == (if r.completed then 1 else 0)
      && (r.completed <==> Close(r.owner, rid, r.outcome) in s.log)
      && (forall i, j :: 0 <= i < j < |s.log| && s.log[i].Close? && s.log[j].Close? ==> s.log[i].rid != s.log[j].rid)
      && (forall t, o :: Close(t, rid, o) in s.log ==> t == r.owner && o == r.outcome && Finish(t, rid, o) in s.log)
  {
    RunKept(hash, actions);
    var s := Run(hash, actions);
    var r := s.reg.receipts[rid];
    assert ReceiptOk(hash, s, rid);
    if r.completed {
      var e :| 0 <= e < |s.log| && s.log[e].Close? && s.log[e].rid == rid;
      assert EventOk(s, e);
      assert s.log[e] == Close(r.owner, rid, r.outcome);
    }
    forall t, o | Close(t, rid, o) in s.log
      ensures r.completed && t == r.owner && o == r.outcome && Finish(t, rid, o) in s.log
    {
      CloseIsOwners(hash, s, t, rid, o);
    }
    forall i, j | 0 <= i < j < |s.log| && s.log[i].Close? && s.log[j].Close? ensures s.log[i].rid != s.log[j].rid {
      assert EventOk(s, j);
    }
  }

  lemma StepGrows(hash: Body -> Fingerprint, s: State, a: Action)
    requires Inv(hash, s)
    ensures Grows(s.reg.receipts, Step(hash, s, a).reg.receipts)
    ensures forall t | t in s.calls && s.calls[t].Returned? :: t in Step(hash, s, a).calls && Step(hash, s, a).calls[t] == s.calls[t]
  {
    if a.t in s.calls { assert CallOk(hash, s, a.t, s.calls[a.t]); }
  }

  /** Nothing that happens later changes a completed receipt or a reply already given. */
  lemma {:induction false} ResultsNeverChange(hash: Body -> Fingerprint, actions: seq<Action>, more: seq<Action>)
    ensures var s, s' := Run(hash, actions), Run(hash, actions + more);
      && Grows(s.reg.receipts, s'.reg.receipts)
      && (forall t | t in s.calls && s.calls[t].Returned? :: t in s'.calls && s'.calls[t] == s.calls[t])
    decreases |more|
  {
    if more == [] {
      assert actions + more == actions;
    } else {
      var init, last := more[..|more| - 1], more[|more| - 1];
      assert (actions + more)[..|actions + more| - 1] == actions + init;
      ResultsNeverChange(hash, actions, init);
      RunKept(hash, actions + init);
      StepGrows(hash, Run(hash, actions + init), last);
    }
  }

  /** Every call that returns a result returns the owner's exact result, and was sent the
      owner's exact body -- whether or not the receipt is still in the table. */
  lemma SharedResultIsOwners(hash: Body -> Fingerprint, actions: seq<Action>, t: Tid)
    requires CollisionFree(hash)
    requires var s := Run(hash, actions); t in s.calls && s.calls[t].Returned? && s.calls[t].reply.Result?
    ensures var s := Run(hash, actions); var c := s.calls[t]; var Result(o, rid) := c.reply;
      && rid < |s.reg.receipts|
      && var owner := s.reg.receipts[rid].owner;
      && owner in s.calls
      && s.calls[owner] == Returned(s.calls[owner].req, Result(o, rid))
      && s.calls[owner].req.id == c.req.id && s.calls[owner].req.body == c.req.body
      && Finish(owner, rid, o) in s.log && Close(owner, rid, o) in s.log
  {
    RunKept(hash, actions);
    var s := Run(hash, actions);
    assert CallOk(hash, s, t, s.calls[t]);
    ClosedOnceByOwner(hash, actions, s.calls[t].reply.rid);
    assert ReceiptOk(hash, s, s.calls[t].reply.rid);
  }

  lemma StarterOwns(hash: Body -> Fingerprint, s: State, t: Tid, rid: nat)
    requires Inv(hash, s) && Start(t, rid) in s.log
    ensures rid < |s.reg.receipts| && s.reg.receipts[rid].owner == t && t in s.calls
    ensures InFlight(s, rid) || Wrecked(s, rid) || s.calls[t] == Returned(s.calls[t].req, Result(s.reg.receipts[rid].outcome, rid))
  {
    var e :| 0 <= e < |s.log| && s.log[e] == Start(t, rid);
    assert EventOk(s, e) && ReceiptOk(hash, s, rid);
  }

  /** A refused call never called deliver, and some other call did send another body for its ID. */
  lemma ConflictDeliversNothing(hash: Body -> Fingerprint, actions: seq<Action>, t: Tid)
    requires var s := Run(hash, actions); t in s.calls && s.calls[t].Returned? && s.calls[t].reply.Conflict?
    ensures var s := Run(hash, actions);
      && (forall rid :: Start(t, rid) !in s.log)
      && (exists u :: u in s.calls && u != t && s.calls[u].req.id == s.calls[t].req.id && s.calls[u].req.body != s.calls[t].req.body)
  {
    RunKept(hash, actions);
    var s := Run(hash, actions);
    forall rid ensures Start(t, rid) !in s.log {
      if Start(t, rid) in s.log { StarterOwns(hash, s, t, rid); }
    }
    assert CallOk(hash, s, t, s.calls[t]);
    var rid :| 0 <= rid < |s.reg.receipts| && s.reg.receipts[rid].id == s.calls[t].req.id
               && s.reg.receipts[rid].fingerprint != hash(s.calls[t].req.body);
    assert ReceiptOk(hash, s, rid);
  }

  /** A receipt that still holds its delivery ID at a reading of the clock: it is in flight, or its
      expiry has not been reached. */
  ghost predicate Live(s: State, id: DeliveryId, now: int, rid: nat) {
    rid < |s.reg.receipts| && id in s.reg.table && s.reg.table[id] == rid
    && (s.reg.receipts[rid].completed ==> now < s.reg.receipts[rid].expiresAt)
  }

  /** What a call gets at the table, exactly: conflict against a live receipt of another body,
      the same receipt for the same body, and a delivery of its own only when none is live. */
  lemma EntryIsExact(hash: Body -> Fingerprint, actions: seq<Action>, t: Tid)
    requires CollisionFree(hash)
    requires var s := Run(hash, actions); t in s.calls && s.calls[t].Stamped?
    ensures var s := Run(hash, actions); var Stamped(req, now) := s.calls[t]; var c := Step(hash, s, LockedEnter(t)).calls[t];
      && (c.Delivering? <==> forall rid: nat :: !Live(s, req.id, now, rid))
      && (c == Returned(req, Conflict) <==>
            exists rid: nat :: Live(s, req.id, now, rid) && s.reg.receipts[rid].owner in s.calls
                          && s.calls[s.reg.receipts[rid].owner].req.body != req.body)
      && (forall rid: nat :: c == Waiting(req, rid) <==>
            Live(s, req.id, now, rid) && s.reg.receipts[rid].owner in s.calls
            && s.calls[s.reg.receipts[rid].owner].req.body == req.body)
  {
    RunKept(hash, actions);
    var s := Run(hash, actions);
    var Stamped(req, now) := s.calls[t];
    if req.id in s.reg.table {
      var rid := s.reg.table[req.id];
      assert ReceiptOk(hash, s, rid);
      assert Live(s, req.id, now, rid) <==> !Stale(s.reg.receipts[rid], now);
    }
  }

  lemma RunOneMore(hash: Body -> Fingerprint, actions: seq<Action>, a: Action)
    ensures Run(hash, actions + [a]) == Step(hash, Run(hash, actions), a)
  {
    assert (actions + [a])[..|actions|] == actions;
  }

  lemma WaiterWakes(hash: Body -> Fingerprint, s: State, t: Tid)
    requires Inv(hash, s) && t in s.calls && s.calls[t].Waiting?
    requires s.calls[t].rid < |s.reg.receipts| && s.reg.receipts[s.calls[t].rid].completed
    ensures var Waiting(req, rid) := s.calls[t]; var woken := Step(hash, s, ObserveDone(t));
      && Inv(hash, woken) && t in Step(hash, woken, LockedRead(t)).calls
      && Step(hash, woken, LockedRead(t)).calls[t] == Returned(req, Result(s.reg.receipts[rid].outcome, rid))
  {
    StepKept(hash, s, ObserveDone(t));
    assert ReceiptOk(hash, s, s.calls[t].rid);
  }

  /** Where a waiter stands, exactly: its next two steps return the owner's result, or its owner is
      in flight, or its owner panicked, and then it can only give up. */
  lemma WaiterProgress(hash: Body -> Fingerprint, actions: seq<Action>, t: Tid)
    requires var s := Run(hash, actions); t in s.calls && s.calls[t].Waiting?
    ensures var s := Run(hash, actions); var Waiting(req, rid) := s.calls[t];
      && rid < |s.reg.receipts|
      && var r := s.reg.receipts[rid];
      if r.completed then
        && r.owner in s.calls && s.calls[r.owner] == Returned(s.calls[r.owner].req, Result(r.outcome, rid))
        && var after := Run(hash, actions + [ObserveDone(t)] + [LockedRead(t)]).calls;
           t in after && after[t] == Returned(req, Result(r.outcome, rid))
      else
        && (InFlight(s, rid) || Wrecked(s, rid)) && !(InFlight(s, rid) && Wrecked(s, rid)) && r.owner != t
        && t in Step(hash, s, Cancel(t)).calls && Step(hash, s, Cancel(t)).calls[t] == Returned(req, Cancelled)
  {
    RunKept(hash, actions);
    var s := Run(hash, actions);
    assert CallOk(hash, s, t, s.calls[t]) && ReceiptOk(hash, s, s.calls[t].rid);
    if s.reg.receipts[s.calls[t].rid].completed {
      WaiterWakes(hash, s, t);
      RunOneMore(hash, actions, ObserveDone(t));
      RunOneMore(hash, actions + [ObserveDone(t)], LockedRead(t));
    }
  }

  // ---------------------------------------------------------------------------
  // A delivery that panics
  // ---------------------------------------------------------------------------

  /** A call that hangs on a receipt: still waiting for it, or given up. */
  ghost predicate Hangs(s: State, t: Tid, rid: nat) {
    t in s.calls && ((s.calls[t].Waiting? && s.calls[t].rid == rid) || (s.calls[t].Returned? && s.calls[t].reply == Cancelled))
  }

  /** The receipt is wrecked and holds its delivery ID. */
  ghost predicate Wedged(s: State, rid: nat, r: Receipt) {
    && rid < |s.reg.receipts| && s.reg.receipts[rid] == r && !r.completed
    && Wrecked(s, rid)
    && r.id in s.reg.table && s.reg.table[r.id] == rid
  }

  /** No delivery for the ID starts at log position n or later. */
  ghost predicate NoStartSince(s: State, id: DeliveryId, n: nat) {
    forall j | n <= j < |s.log| && s.log[j].Start? :: s.log[j].rid < |s.reg.receipts| && s.reg.receipts[s.log[j].rid].id != id
  }

  lemma StepStaysWedged(hash: Body -> Fingerprint, s: State, a: Action, rid: nat, r: Receipt)
    requires Inv(hash, s) && Wedged(s, rid, r)
    ensures Wedged(Step(hash, s, a), rid, r)
  {
    if a.t in s.calls { assert CallOk(hash, s, a.t, s.calls[a.t]); }
  }

  lemma StepStillHangs(hash: Body -> Fingerprint, s: State, a: Action, rid: nat, r: Receipt, t: Tid)
    requires Inv(hash, s) && Wedged(s, rid, r) && Hangs(s, t, rid)
    ensures Hangs(Step(hash, s, a), t, rid)
  {
    assert ReceiptOk(hash, s, rid);
  }

  lemma StepStartsElsewhere(hash: Body -> Fingerprint, s: State, a: Action, rid: nat, r: Receipt, n: nat)
    requires Inv(hash, s) && Wedged(s, rid, r) && n <= |s.log| && NoStartSince(s, r.id, n)
    ensures var s' := Step(hash, s, a); n <= |s'.log| && s'.log[..|s.log|] == s.log && NoStartSince(s', r.id, n)
  {
    StepGrows(hash, s, a);
  }

  /** What every later state keeps of a state in which the receipt is wrecked: it is neither
      completed nor purged, who hung on it hangs on it, and nothing was delivered for its ID. */
  ghost predicate Stuck(s: State, s': State, rid: nat)
    requires rid < |s.reg.receipts|
  {
    var r := s.reg.receipts[rid];
    && Wedged(s', rid, r)
    && (forall t | Hangs(s, t, rid) :: Hangs(s', t, rid))
    && |s.log| <= |s'.log| && s'.log[..|s.log|] == s.log && NoStartSince(s', r.id, |s.log|)
  }

  lemma StepStaysStuck(hash: Body -> Fingerprint, s: State, m: State, a: Action, rid: nat)
    requires rid < |s.reg.receipts| && Inv(hash, m) && Stuck(s, m, rid)
    ensures Stuck(s, Step(hash, m, a), rid)
  {
    var r := s.reg.receipts[rid];
    StepStaysWedged(hash, m, a, rid, r);
    StepStartsElsewhere(hash, m, a, rid, r, |s.log|);
    forall t | Hangs(s, t, rid) ensures Hangs(Step(hash, m, a), t, rid) { StepStillHangs(hash, m, a, rid, r, t); }
  }

  lemma StuckAtFirst(hash: Body -> Fingerprint, s: State, rid: nat)
    requires Inv(hash, s) && rid < |s.reg.receipts| && Wrecked(s, rid)
    ensures Stuck(s, s, rid)
  {
    assert ReceiptOk(hash, s, rid);
  }

  /** Once a delivery panicked, its ID is wedged whatever happens later, expiry included. */
  lemma {:induction false} PanicWedges(hash: Body -> Fingerprint, s: State, more: seq<Action>, rid: nat)
    requires Inv(hash, s) && rid < |s.reg.receipts| && Wrecked(s, rid)
    ensures Stuck(s, Continue(hash, s, more), rid)
  {
    if more == [] {
      StuckAtFirst(hash, s, rid);
    } else {
      PanicWedges(hash, s, more[..|more| - 1], rid);
      ContinueKept(hash, s, more[..|more| - 1]);
      StepStaysStuck(hash, s, Continue(hash, s, more[..|more| - 1]), more[|more| - 1], rid);
    }
  }

  // ---------------------------------------------------------------------------
  // Who is answered
  // ---------------------------------------------------------------------------

  /** After these steps the call has returned a result. */
  ghost predicate Answered(hash: Body -> Fingerprint, s: State, t: Tid, more: seq<Action>) {
    var calls := Continue(hash, s, more).calls;
    t in calls && calls[t].Returned? && calls[t].reply.Result?
  }

  /** What answers after a step answers with it. */
  lemma AnsweredAfter(hash: Body -> Fingerprint, s: State, a: Action, t: Tid, rest: seq<Action>)
    requires Answered(hash, Step(hash, s, a), t, rest)
    ensures Answered(hash, s, t, [a] + rest)
  {
    assert Continue(hash, s, [a]) == Step(hash, s, a) by { assert [a][..0] == []; assert Continue(hash, s, []) == s; }
    ContinueTwice(hash, s, [a], rest);
  }

  lemma CompletedAnswers(hash: Body -> Fingerprint, s: State, t: Tid) returns (more: seq<Action>)
    requires Inv(hash, s) && t in s.calls && s.calls[t].Waiting?
    requires s.calls[t].rid < |s.reg.receipts| && s.reg.receipts[s.calls[t].rid].completed
    ensures Answered(hash, s, t, more)
  {
    WaiterWakes(hash, s, t);
    var woken := Step(hash, s, ObserveDone(t));
    assert Answered(hash, Step(hash, woken, LockedRead(t)), t, []);
    AnsweredAfter(hash, woken, LockedRead(t), t, []);
    AnsweredAfter(hash, s, ObserveDone(t), t, [LockedRead(t)] + []);
    more := [ObserveDone(t)] + ([LockedRead(t)] + []);
  }

  lemma DeliveredAnswers(hash: Body -> Fingerprint, s: State, t: Tid) returns (more: seq<Action>)
    requires Inv(hash, s) && t in s.calls && s.calls[t].Waiting? && s.calls[t].rid < |s.reg.receipts|
    requires var owner := s.reg.receipts[s.calls[t].rid].owner;
      owner in s.calls && s.calls[owner].Delivered? && s.calls[owner].rid == s.calls[t].rid
    ensures Answered(hash, s, t, more)
  {
    var a := LockedComplete(s.reg.receipts[s.calls[t].rid].owner);
    StepKept(hash, s, a);
    var rest := CompletedAnswers(hash, Step(hash, s, a), t);
    AnsweredAfter(hash, s, a, t, rest);
    more := [a] + rest;
  }

  lemma InFlightAnswers(hash: Body -> Fingerprint, s: State, t: Tid) returns (more: seq<Action>)
    requires Inv(hash, s) && t in s.calls && s.calls[t].Waiting? && s.calls[t].rid < |s.reg.receipts|
    requires InFlight(s, s.calls[t].rid)
    ensures Answered(hash, s, t, more)
  {
    var owner := s.reg.receipts[s.calls[t].rid].owner;
    if s.calls[owner].Delivered? {
      more := DeliveredAnswers(hash, s, t);
    } else {
      var a := DeliverReturns(owner, Outcome("", false));
      StepKept(hash, s, a);
      var rest := DeliveredAnswers(hash, Step(hash, s, a), t);
      AnsweredAfter(hash, s, a, t, rest);
      more := [a] + rest;
    }
  }

  /** A waiter can still be answered if and only if its owner's delivery did not panic. */
  lemma AnsweredExactly(hash: Body -> Fingerprint, actions: seq<Action>, t: Tid)
    requires var s := Run(hash, actions); t in s.calls && s.calls[t].Waiting?
    ensures var s := Run(hash, actions); var rid := s.calls[t].rid;
      && rid < |s.reg.receipts|
      && ((exists more :: Answered(hash, s, t, more)) <==> !Wrecked(s, rid))
      && (forall more :: Run(hash, actions + more) == Continue(hash, s, more))
  {
    WaiterProgress(hash, actions, t);
    RunKept(hash, actions);
    var s := Run(hash, actions);
    AnsweredIffNotWrecked(hash, s, t);
    forall more ensures Run(hash, actions + more) == Continue(hash, s, more) { ContinueTwice(hash, INIT, actions, more); }
  }

  lemma AnsweredIffNotWrecked(hash: Body -> Fingerprint, s: State, t: Tid)
    requires Inv(hash, s) && t in s.calls && s.calls[t].Waiting? && s.calls[t].rid < |s.reg.receipts|
    ensures (exists more :: Answered(hash, s, t, more)) <==> !Wrecked(s, s.calls[t].rid)
  {
    var rid := s.calls[t].rid;
    assert ReceiptOk(hash, s, rid);
    if Wrecked(s, rid) {
      forall more ensures !Answered(hash, s, t, more) {
        PanicWedges(hash, s, more, rid);
        assert Hangs(s, t, rid);
      }
    } else if s.reg.receipts[rid].completed {
      var more := CompletedAnswers(hash, s, t);
    } else {
      var more := InFlightAnswers(hash, s, t);
    }
  }

  /** Whoever comes to the table for a wedged ID waits for good or is refused, whatever the clock
      says. */
  lemma LateCallerHangs(hash: Body -> Fingerprint, s: State, t: Tid, rid: nat)
    requires Inv(hash, s) && rid < |s.reg.receipts| && Wrecked(s, rid)
    requires t in s.calls && s.calls[t].Stamped? && s.calls[t].req.id == s.reg.receipts[rid].id
    ensures var req := s.calls[t].req;
      Step(hash, s, LockedEnter(t)).calls[t] ==
      if hash(req.body) == s.reg.receipts[rid].fingerprint then Waiting(req, rid) else Returned(req, Conflict)
  {
    assert ReceiptOk(hash, s, rid);
  }
}
