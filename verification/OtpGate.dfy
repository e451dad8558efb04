/**
 What the request gate adds to idempotent delivery (cmd/otpwebhook-example/main.go,
 validateRequest before deliverOnce): a request whose expiry has been reached is refused, so the
 receipts of a body are only ever asked for by calls that read a clock before its expiry.
 */
module OtpGate {
  import opened OtpProtocol

  // ---------------------------------------------------------------------------
  // Every run keeps it
  // ---------------------------------------------------------------------------

  /** Before log position j the call read a clock at the gate that stood before the expiry. */
  ghost predicate PassedGate(log: seq<Event>, t: Tid, expiresAt: int, j: nat)
    requires j <= |log|
  {
    exists e :: 0 <= e < j && log[e].Gate? && log[e].t == t && log[e].now < expiresAt
  }

  /** The call got past the gate. */
  predicate PastGate(c: Call) {
    !c.Arrived? && !(c.Returned? && c.reply == Invalid)
  }

  /** What a call past the gate has shown: the header names its body's delivery ID, the body is
      valid, and a clock at the gate stood before its expiry. */
  ghost predicate Shown(s: State, t: Tid, req: Request) {
    req.key == req.body.id && req.body.valid && PassedGate(s.log, t, req.body.expiresAt, |s.log|)
  }

  ghost predicate GateInv(s: State) {
    && (forall t | t in s.calls && PastGate(s.calls[t]) :: Shown(s, t, s.calls[t].req))
    && (forall j | 0 <= j < |s.log| && s.log[j].Start? :: StartPassed(s, j))
  }

  ghost predicate StartPassed(s: State, j: nat)
    requires j < |s.log| && s.log[j].Start?
  {
    s.log[j].rid < |s.reg.receipts| && PassedGate(s.log, s.log[j].t, s.reg.receipts[s.log[j].rid].expiresAt, j)
  }

  lemma PassedKept(log: seq<Event>, log': seq<Event>, t: Tid, expiresAt: int, j: nat)
    requires j <= |log| <= |log'| && log'[..|log|] == log && PassedGate(log, t, expiresAt, j)
    ensures PassedGate(log', t, expiresAt, j) && PassedGate(log', t, expiresAt, |log'|)
  {
    var e :| 0 <= e < j && log[e].Gate? && log[e].t == t && log[e].now < expiresAt;
    assert log'[e] == log'[..|log|][e];
  }

  lemma NewStartPassed(hash: Body -> Fingerprint, s: State, a: Action)
    requires Inv(hash, s) && GateInv(s)
    ensures var s' := Step(hash, s, a);
      |s.log| <= |s'.log| && s'.log[..|s.log|] == s.log
      && forall j | |s.log| <= j < |s'.log| && s'.log[j].Start? :: StartPassed(s', j)
  {
    if a.LockedEnter? && a.t in s.calls && s.calls[a.t].Stamped? {
      var s' := Step(hash, s, a);
      if |s'.log| > |s.log| { PassedKept(s.log, s'.log, a.t, s.calls[a.t].req.expiresAt, |s.log|); }
    }
  }

  lemma OldStartPassed(s: State, s': State, j: nat)
    requires j < |s.log| <= |s'.log| && s'.log[..|s.log|] == s.log && Grows(s.reg.receipts, s'.reg.receipts)
    requires s.log[j].Start? && StartPassed(s, j)
    ensures s'.log[j] == s.log[j] && StartPassed(s', j)
  {
    assert s'.log[j] == s'.log[..|s.log|][j];
    PassedKept(s.log, s'.log, s.log[j].t, s.reg.receipts[s.log[j].rid].expiresAt, j);
  }

  lemma CallsKeepGate(hash: Body -> Fingerprint, s: State, a: Action, t: Tid)
    requires GateInv(s) && t in Step(hash, s, a).calls && PastGate(Step(hash, s, a).calls[t])
    requires |s.log| <= |Step(hash, s, a).log| && Step(hash, s, a).log[..|s.log|] == s.log
    ensures Shown(Step(hash, s, a), t, Step(hash, s, a).calls[t].req)
  {
    var s' := Step(hash, s, a);
    if t in s.calls && PastGate(s.calls[t]) {
      PassedKept(s.log, s'.log, t, s.calls[t].req.body.expiresAt, |s.log|);
    } else {
      assert s'.log[|s.log|] == Gate(t, a.now);
    }
  }

  lemma StepKeepsGate(hash: Body -> Fingerprint, s: State, a: Action)
    requires Inv(hash, s) && GateInv(s)
    ensures GateInv(Step(hash, s, a))
  {
    var s' := Step(hash, s, a);
    NewStartPassed(hash, s, a);
    StepGrows(hash, s, a);
    forall j | 0 <= j < |s'.log| && s'.log[j].Start? ensures StartPassed(s', j) {
      if j < |s.log| {
        assert s'.log[j] == s'.log[..|s.log|][j];
        OldStartPassed(s, s', j);
      }
    }
    forall t | t in s'.calls && PastGate(s'.calls[t]) ensures Shown(s', t, s'.calls[t].req) { CallsKeepGate(hash, s, a, t); }
  }

  lemma {:induction false} RunKeepsGate(hash: Body -> Fingerprint, actions: seq<Action>)
    ensures GateInv(Run(hash, actions))
  {
    if actions != [] {
      var init := actions[..|actions| - 1];
      RunKeepsGate(hash, init);
      RunKept(hash, init);
      StepKeepsGate(hash, Run(hash, init), actions[|actions| - 1]);
    }
  }

  /** In every interleaving a delivery is started only for a request whose header names its body's
      delivery ID and whose body is valid, by a call that read a clock before its expiry. */
  lemma StartedWasShown(hash: Body -> Fingerprint, actions: seq<Action>, t: Tid, rid: nat)
    requires Start(t, rid) in Run(hash, actions).log
    ensures var s := Run(hash, actions);
      t in s.calls && Shown(s, t, s.calls[t].req) && rid < |s.reg.receipts| && s.reg.receipts[rid].id == s.calls[t].req.body.id
  {
    RunKept(hash, actions);
    RunKeepsGate(hash, actions);
    var s := Run(hash, actions);
    StarterOwns(hash, s, t, rid);
    assert ReceiptOk(hash, s, rid);
  }

  /** The gate, exactly: an arrived request gets in if and only if its body is valid, its header
      names the body's delivery ID, and the clock stands before the expiry; otherwise it is answered
      at once, and either way the table is not touched. */
  lemma GateExactly(hash: Body -> Fingerprint, s: State, t: Tid, now: int)
    requires Inv(hash, s) && t in s.calls && s.calls[t].Arrived?
    ensures var s' := Step(hash, s, ReadGate(t, now)); var req := s.calls[t].req;
      && s'.reg == s.reg
      && s'.calls == s.calls[t :=
        if req.body.valid && req.key == req.body.id && now < req.body.expiresAt then Admitted(req) else Returned(req, Invalid)]
  {
  }

  /** Who comes to the table for a wedged ID either sent the same body and read a clock before its
      expiry at the gate, and then waits for good, or sent another body and is refused. */
  lemma CallerAtWedgedId(hash: Body -> Fingerprint, actions: seq<Action>, t: Tid, rid: nat)
    requires CollisionFree(hash)
    requires var s := Run(hash, actions);
      && rid < |s.reg.receipts| && Wrecked(s, rid)
      && t in s.calls && s.calls[t].Stamped? && s.calls[t].req.id == s.reg.receipts[rid].id
    ensures var s := Run(hash, actions); var r := s.reg.receipts[rid]; var req := s.calls[t].req;
      var c := Step(hash, s, LockedEnter(t)).calls[t];
      && r.owner in s.calls
      && if req.body == s.calls[r.owner].req.body
         then c == Waiting(req, rid) && PassedGate(s.log, t, r.expiresAt, |s.log|)
         else c == Returned(req, Conflict)
  {
    RunKept(hash, actions);
    RunKeepsGate(hash, actions);
    var s := Run(hash, actions);
    assert ReceiptOk(hash, s, rid);
    LateCallerHangs(hash, s, t, rid);
  }

  // ---------------------------------------------------------------------------
  // When a body is delivered twice
  // ---------------------------------------------------------------------------

  predicate Reading(e: Event) {
    e.Gate? || e.Clock?
  }

  /** The clock does not run backwards between readings. */
  ghost predicate Monotone(log: seq<Event>) {
    forall i, j | 0 <= i < j < |log| && Reading(log[i]) && Reading(log[j]) :: log[i].now <= log[j].now
  }

  /** If one body is delivered twice, its expiry fell between the second deliverer's gate and its
      entry: it read the clock before the expiry at the gate, then some call read it at or after
      the expiry on its way to the table, and only then the second delivery started. */
  lemma SecondDeliveryStraddles(hash: Body -> Fingerprint, actions: seq<Action>, i: nat, j: nat) returns (gate: nat, clock: nat)
    requires CollisionFree(hash)
    requires var s := Run(hash, actions);
      && Monotone(s.log)
      && i < j < |s.log| && s.log[i].Start? && s.log[j].Start?
      && s.log[i].rid < |s.reg.receipts| && s.log[j].rid < |s.reg.receipts|
      && s.reg.receipts[s.log[i].rid].id == s.reg.receipts[s.log[j].rid].id
      && s.reg.receipts[s.log[i].rid].fingerprint == s.reg.receipts[s.log[j].rid].fingerprint
    ensures var s := Run(hash, actions); var expiresAt := s.reg.receipts[s.log[i].rid].expiresAt;
      && s.reg.receipts[s.log[j].rid].expiresAt == expiresAt
      && gate < clock < j
      && s.log[gate].Gate? && s.log[gate].t == s.log[j].t && s.log[gate].now < expiresAt
      && s.log[clock].Clock? && expiresAt <= s.log[clock].now
  {
    RunKept(hash, actions);
    RunKeepsGate(hash, actions);
    var s := Run(hash, actions);
    assert ReceiptOk(hash, s, s.log[i].rid) && ReceiptOk(hash, s, s.log[j].rid);
    var finish, close;
    finish, close, clock := SecondDeliveryIsJustified(hash, actions, i, j);
    assert StartPassed(s, j);
    gate :| 0 <= gate < j && s.log[gate].Gate? && s.log[gate].t == s.log[j].t
            && s.log[gate].now < s.reg.receipts[s.log[j].rid].expiresAt;
  }

  // ---------------------------------------------------------------------------
  // Concrete runs
  // ---------------------------------------------------------------------------

  const FIRST := Request(Body("first", "delivery", 10, true), "delivery")
  const FRESH := Request(Body("fresh", "delivery", 200, true), "delivery")
  const OTHER := Request(Body("other", "other", 50, true), "other")
  const ACCEPTED := Outcome("message", false)

  /** A call passes the gate at one reading and reads the clock again. */
  function Stamp(t: Tid, req: Request, gate: int, now: int): seq<Action> {
    [Arrive(t, req), ReadGate(t, gate), ReadClock(t, now)]
  }

  function AfterStamp(s: State, t: Tid, req: Request, gate: int, now: int): State {
    State(s.reg, s.calls[t := Stamped(req, now)], s.log + [Gate(t, gate), Clock(t, now)])
  }

  lemma OneStep(hash: Body -> Fingerprint, s: State, a: Action)
    ensures Continue(hash, s, [a]) == Step(hash, s, a)
  {
    assert [a][..0] == [] && Continue(hash, s, []) == s;
  }

  lemma Stamping(hash: Body -> Fingerprint, s: State, t: Tid, req: Request, gate: int, now: int)
    requires s.reg.Valid() && t !in s.calls && Admissible(req, gate)
    ensures Continue(hash, s, Stamp(t, req, gate, now)) == AfterStamp(s, t, req, gate, now)
  {
    var a := Stamp(t, req, gate, now);
    OneStep(hash, s, a[0]);
    assert a[..2][..1] == [a[0]] && a[..1] == [a[0]];
    var s1 := Step(hash, s, a[0]);
    assert s1 == s.(calls := s.calls[t := Arrived(req)]);
    var s2 := Step(hash, s1, a[1]);
    assert s2 == State(s.reg, s.calls[t := Admitted(req)], s.log + [Gate(t, gate)]);
    assert Continue(hash, s, a[..2]) == s2;
    assert Step(hash, s2, a[2]) == AfterStamp(s, t, req, gate, now);
  }

  function FirstReceipt(hash: Body -> Fingerprint): Receipt {
    Receipt(0, "delivery", hash(FIRST.body), 10, Outcome("", false), false, 0)
  }

  /** The first call is inside deliver. */
  function Started(hash: Body -> Fingerprint): State {
    State(Registry(map["delivery" := 0], [FirstReceipt(hash)]), map[0 := Delivering(FIRST, 0)], [Gate(0, 5), Clock(0, 5), Start(0, 0)])
  }

  const STARTING_RUN := Stamp(0, FIRST, 5, 5) + [LockedEnter(0)]

  lemma Starting(hash: Body -> Fingerprint)
    ensures Run(hash, STARTING_RUN) == Started(hash)
  {
    Stamping(hash, INIT, 0, FIRST, 5, 5);
    ContinueTwice(hash, INIT, Stamp(0, FIRST, 5, 5), [LockedEnter(0)]);
    var s := AfterStamp(INIT, 0, FIRST, 5, 5);
    OneStep(hash, s, LockedEnter(0));
    assert Purge(s.reg, 5).table == map[];
    assert Step(hash, s, LockedEnter(0)) == Decide(hash, s, 0);
  }

  const WEDGING_RUN := STARTING_RUN + [DeliverPanics(0)]
  const REPEAT := Stamp(1, FIRST, 7, 8) + [LockedEnter(1)]
  const LATER := Stamp(2, FRESH, 99, 99) + [LockedEnter(2)]

  lemma Wedging(hash: Body -> Fingerprint)
    ensures Run(hash, WEDGING_RUN) == Started(hash).(calls := map[0 := Panicked(FIRST, 0)])
  {
    Starting(hash);
    ContinueTwice(hash, INIT, STARTING_RUN, [DeliverPanics(0)]);
    OneStep(hash, Started(hash), DeliverPanics(0));
  }

  lemma EntersAtWreck(hash: Body -> Fingerprint, s: State, t: Tid)
    requires Inv(hash, s) && 0 < |s.reg.receipts| && Wrecked(s, 0)
    requires t in s.calls && s.calls[t].Stamped? && s.calls[t].req.id == s.reg.receipts[0].id
    ensures var s' := Step(hash, s, LockedEnter(t)); var req := s.calls[t].req;
      && 0 < |s'.reg.receipts| && s'.reg.receipts[0] == s.reg.receipts[0]
      && s'.calls == s.calls[t := if hash(req.body) == s.reg.receipts[0].fingerprint then Waiting(req, 0) else Returned(req, Conflict)]
  {
    assert ReceiptOk(hash, s, 0);
    LateCallerHangs(hash, s, t, 0);
  }

  /** A call comes for a wedged ID. */
  lemma EntersWedged(hash: Body -> Fingerprint, s: State, t: Tid, req: Request, gate: int, now: int)
    requires Inv(hash, s) && 0 < |s.reg.receipts| && Wrecked(s, 0) && t !in s.calls
    requires Admissible(req, gate) && req.id == s.reg.receipts[0].id
    ensures var s' := Continue(hash, s, Stamp(t, req, gate, now) + [LockedEnter(t)]);
      && t in s'.calls && 0 < |s'.reg.receipts| && Wrecked(s', 0) && s'.reg.receipts[0] == s.reg.receipts[0]
      && s'.calls == s.calls[t := if hash(req.body) == s.reg.receipts[0].fingerprint then Waiting(req, 0) else Returned(req, Conflict)]
  {
    Stamping(hash, s, t, req, gate, now);
    ContinueTwice(hash, s, Stamp(t, req, gate, now), [LockedEnter(t)]);
    ContinueKept(hash, s, Stamp(t, req, gate, now));
    OneStep(hash, AfterStamp(s, t, req, gate, now), LockedEnter(t));
    EntersAtWreck(hash, AfterStamp(s, t, req, gate, now), t);
  }

  /** The wedge happens: the first caller's delivery panics.  The same request, repeated before its
      expiry, waits and is never answered; a fresh one for the same ID, long after it, is refused. */
  lemma PanicInstance(hash: Body -> Fingerprint)
    requires CollisionFree(hash)
    ensures var s := Run(hash, WEDGING_RUN + REPEAT);
      && 1 in s.calls && s.calls[1] == Waiting(FIRST, 0) && (forall more :: !Answered(hash, s, 1, more))
      && var later := Continue(hash, s, LATER).calls; 2 in later && later[2] == Returned(FRESH, Conflict)
  {
    Wedging(hash);
    RunKept(hash, WEDGING_RUN);
    var s0 := Run(hash, WEDGING_RUN);
    ContinueTwice(hash, INIT, WEDGING_RUN, REPEAT);
    EntersWedged(hash, s0, 1, FIRST, 7, 8);
    RunKept(hash, WEDGING_RUN + REPEAT);
    var s := Run(hash, WEDGING_RUN + REPEAT);
    AnsweredIffNotWrecked(hash, s, 1);
    assert s.calls.Keys == {0, 1};
    EntersWedged(hash, s, 2, FRESH, 99, 99);
  }

  const DELIVERED_RUN := STARTING_RUN + [DeliverReturns(0, ACCEPTED), LockedComplete(0)]

  function Done(hash: Body -> Fingerprint): State {
    State(Registry(map["delivery" := 0], [FirstReceipt(hash).(outcome := ACCEPTED, completed := true, closes := 1)]),
          map[0 := Returned(FIRST, Result(ACCEPTED, 0))],
          Started(hash).log + [Finish(0, 0, ACCEPTED), Close(0, 0, ACCEPTED)])
  }

  lemma TwoSteps(hash: Body -> Fingerprint, s: State, a: Action, b: Action)
    ensures Continue(hash, s, [a, b]) == Step(hash, Step(hash, s, a), b)
  {
    OneStep(hash, s, a);
    assert [a, b][..1] == [a];
  }

  lemma Finishing(hash: Body -> Fingerprint)
    ensures Step(hash, Step(hash, Started(hash), DeliverReturns(0, ACCEPTED)), LockedComplete(0)) == Done(hash)
  {
    var s := Started(hash);
    var s1 := Step(hash, s, DeliverReturns(0, ACCEPTED));
    assert s1 == State(s.reg, map[0 := Delivered(FIRST, 0, ACCEPTED)], s.log + [Finish(0, 0, ACCEPTED)]);
    assert Step(hash, s1, LockedComplete(0)) == Completed(s1, 0);
  }

  lemma Delivery(hash: Body -> Fingerprint)
    ensures Run(hash, DELIVERED_RUN) == Done(hash)
  {
    Starting(hash);
    ContinueTwice(hash, INIT, STARTING_RUN, [DeliverReturns(0, ACCEPTED), LockedComplete(0)]);
    TwoSteps(hash, Started(hash), DeliverReturns(0, ACCEPTED), LockedComplete(0));
    Finishing(hash);
  }

  /** The log ends with a reading at or before now, and is monotone. */
  ghost predicate MonotoneTo(log: seq<Event>, now: int) {
    Monotone(log) && forall e | 0 <= e < |log| && Reading(log[e]) :: log[e].now <= now
  }

  lemma Extend(log: seq<Event>, e: Event, was: int, now: int)
    requires MonotoneTo(log, was) && was <= now && (Reading(e) ==> was <= e.now <= now)
    ensures MonotoneTo(log + [e], now)
  {
  }

  lemma ExtendByTwo(log: seq<Event>, a: Event, b: Event, was: int, now: int)
    requires MonotoneTo(log, was) && was <= now
    requires (Reading(a) ==> was <= a.now) && (Reading(b) ==> was <= b.now <= now) && (Reading(a) && Reading(b) ==> a.now <= b.now)
    requires Reading(a) ==> a.now <= now
    ensures MonotoneTo(log + [a, b], now)
  {
    Extend(log, a, was, if Reading(a) then a.now else was);
    Extend(log + [a], b, if Reading(a) then a.now else was, now);
    assert log + [a] + [b] == log + [a, b];
  }

  lemma DoneMonotone(hash: Body -> Fingerprint)
    ensures MonotoneTo(Done(hash).log, 5)
  {
    assert Done(hash).log == [] + [Gate(0, 5), Clock(0, 5)] + [Start(0, 0), Finish(0, 0, ACCEPTED)] + [Close(0, 0, ACCEPTED)];
    ExtendByTwo([], Gate(0, 5), Clock(0, 5), 5, 5);
    ExtendByTwo([] + [Gate(0, 5), Clock(0, 5)], Start(0, 0), Finish(0, 0, ACCEPTED), 5, 5);
    Extend([] + [Gate(0, 5), Clock(0, 5)] + [Start(0, 0), Finish(0, 0, ACCEPTED)], Close(0, 0, ACCEPTED), 5, 5);
  }

  /** The call read the clock before the expiry at the gate and at or after it on its way to the table. */
  ghost predicate Straddles(log: seq<Event>, t: Tid, expiresAt: int) {
    && (exists e :: 0 <= e < |log| && log[e].Gate? && log[e].t == t && log[e].now < expiresAt)
    && (exists e :: 0 <= e < |log| && log[e].Clock? && log[e].t == t && expiresAt <= log[e].now)
  }

  const STRADDLING := Stamp(1, FIRST, 9, 10) + [LockedEnter(1)]

  /** A call enters when the only receipt of its ID is completed and expired at its reading. */
  lemma EntersExpired(hash: Body -> Fingerprint, s: State)
    requires s.reg == Done(hash).reg && 1 in s.calls && s.calls[1] == Stamped(FIRST, 10)
    ensures var s' := Step(hash, s, LockedEnter(1));
      s'.calls == s.calls[1 := Delivering(FIRST, 1)] && s'.log == s.log + [Start(1, 1)]
  {
    assert Purge(s.reg, 10).table == map[];
    assert Step(hash, s, LockedEnter(1)) == Decide(hash, s, 1);
  }

  /** One call that reads the clock before the expiry at the gate and at the expiry before the table
      delivers the body a second time. */
  lemma StraddlingInstance(hash: Body -> Fingerprint)
    ensures var s := Run(hash, DELIVERED_RUN + STRADDLING);
      1 in s.calls && s.calls[1] == Delivering(FIRST, 1) && Monotone(s.log) && Straddles(s.log, 1, FIRST.expiresAt)
  {
    Delivery(hash);
    DoneMonotone(hash);
    var s := Done(hash);
    ContinueTwice(hash, INIT, DELIVERED_RUN, STRADDLING);
    Stamping(hash, s, 1, FIRST, 9, 10);
    ContinueTwice(hash, s, Stamp(1, FIRST, 9, 10), [LockedEnter(1)]);
    var stamped := AfterStamp(s, 1, FIRST, 9, 10);
    OneStep(hash, stamped, LockedEnter(1));
    EntersExpired(hash, stamped);
    ExtendByTwo(s.log, Gate(1, 9), Clock(1, 10), 5, 10);
    Extend(stamped.log, Start(1, 1), 10, 10);
    assert (stamped.log + [Start(1, 1)])[|s.log|] == Gate(1, 9) && (stamped.log + [Start(1, 1)])[|s.log| + 1] == Clock(1, 10);
  }

  const PURGED_BY_ANOTHER := Stamp(1, FIRST, 8, 9) + Stamp(2, OTHER, 11, 11) + [LockedEnter(2), LockedEnter(1)]

  /** Both enter, the one with another ID first: it purges the receipt. */
  lemma PurgeThenEnter(hash: Body -> Fingerprint, s: State)
    requires s.reg == Done(hash).reg && 1 in s.calls && s.calls[1] == Stamped(FIRST, 9) && 2 in s.calls && s.calls[2] == Stamped(OTHER, 11)
    ensures var s' := Step(hash, Step(hash, s, LockedEnter(2)), LockedEnter(1));
      && s'.calls == s.calls[2 := Delivering(OTHER, 1)][1 := Delivering(FIRST, 2)]
      && s'.log == s.log + [Start(2, 1), Start(1, 2)]
  {
    assert Purge(s.reg, 11).table == map[];
    var s1 := Step(hash, s, LockedEnter(2));
    assert s1 == Decide(hash, s, 2);
    var other := Receipt(2, "other", hash(OTHER.body), 50, Outcome("", false), false, 0);
    assert s1.reg == Registry(map["other" := 1], s.reg.receipts + [other]);
    EntersNext(hash, s1);
  }

  lemma EntersNext(hash: Body -> Fingerprint, s: State)
    requires s.reg.Valid() && s.reg.table.Keys == {"other"} && |s.reg.receipts| == 2 && 1 in s.calls && s.calls[1] == Stamped(FIRST, 9)
    ensures var s' := Step(hash, s, LockedEnter(1));
      s'.calls == s.calls[1 := Delivering(FIRST, 2)] && s'.log == s.log + [Start(1, 2)]
  {
    assert "delivery" !in Purge(s.reg, 9).table;
    assert Step(hash, s, LockedEnter(1)) == Decide(hash, s, 1);
  }

  function PurgedLog(hash: Body -> Fingerprint): seq<Event> {
    Done(hash).log + [Gate(1, 8), Clock(1, 9)] + [Gate(2, 11), Clock(2, 11)] + [Start(2, 1), Start(1, 2)]
  }

  lemma PurgedLogIs(hash: Body -> Fingerprint)
    ensures Monotone(PurgedLog(hash))
    ensures forall t :: !Straddles(PurgedLog(hash), t, FIRST.expiresAt)
  {
    DoneMonotone(hash);
    var log := Done(hash).log;
    var log1 := log + [Gate(1, 8), Clock(1, 9)];
    var log2 := log1 + [Gate(2, 11), Clock(2, 11)];
    ExtendByTwo(log, Gate(1, 8), Clock(1, 9), 5, 9);
    ExtendByTwo(log1, Gate(2, 11), Clock(2, 11), 9, 11);
    ExtendByTwo(log2, Start(2, 1), Start(1, 2), 11, 11);
    assert forall e | 0 <= e < |log1| :: PurgedLog(hash)[e] == log1[e];
    assert forall e | 0 <= e < |log| :: log1[e] == log[e];
    assert forall e | |log1| <= e < |PurgedLog(hash)| :: PurgedLog(hash)[e] in [Gate(2, 11), Clock(2, 11), Start(2, 1), Start(1, 2)];
    assert forall e | |log| <= e < |log1| :: log1[e] in [Gate(1, 8), Clock(1, 9)];
  }

  /** No single call need straddle the expiry: a call with another ID can purge the receipt between
      the last clock reading and the entry of a call that read the clock twice before it. */
  lemma PurgedByAnotherInstance(hash: Body -> Fingerprint)
    ensures var s := Run(hash, DELIVERED_RUN + PURGED_BY_ANOTHER);
      && 1 in s.calls && s.calls[1] == Delivering(FIRST, 2) && Monotone(s.log)
      && (forall t :: !Straddles(s.log, t, FIRST.expiresAt))
  {
    Delivery(hash);
    var s := Done(hash);
    ContinueTwice(hash, INIT, DELIVERED_RUN, PURGED_BY_ANOTHER);
    var first, second := Stamp(1, FIRST, 8, 9), Stamp(2, OTHER, 11, 11);
    ContinueTwice(hash, s, first + second, [LockedEnter(2), LockedEnter(1)]);
    ContinueTwice(hash, s, first, second);
    Stamping(hash, s, 1, FIRST, 8, 9);
    var s1 := AfterStamp(s, 1, FIRST, 8, 9);
    Stamping(hash, s1, 2, OTHER, 11, 11);
    var s2 := AfterStamp(s1, 2, OTHER, 11, 11);
    TwoSteps(hash, s2, LockedEnter(2), LockedEnter(1));
    PurgeThenEnter(hash, s2);
    assert s2.log + [Start(2, 1), Start(1, 2)] == PurgedLog(hash);
    PurgedLogIs(hash);
  }
}
