/**
 The receipt table as the program keeps it: a map of receipt objects that locked
 sections change in place.  Each method is one locked section of deliverOnce
 (cmd/otpwebhook-example/main.go) and is proved to be the Registry function the
 step machine of OtpProtocol is built from.
 */
module OtpService {
  import opened OtpProtocol

  class ReceiptCell {
    const fingerprint: Fingerprint
    const expiresAt: int
    var outcome: Outcome
    var completed: bool
    var closes: nat
    ghost const owner: Tid
    ghost const id: DeliveryId
    ghost const index: nat

    constructor (fingerprint: Fingerprint, expiresAt: int, ghost owner: Tid, ghost id: DeliveryId, ghost index: nat)
      ensures Value() == Receipt(owner, id, fingerprint, expiresAt, Outcome("", false), false, 0)
      ensures this.index == index
    {
      this.fingerprint, this.expiresAt := fingerprint, expiresAt;
      outcome, completed, closes := Outcome("", false), false, 0;
      this.owner, this.id, this.index := owner, id, index;
    }

    ghost function Value(): Receipt
      reads this
    {
      Receipt(owner, id, fingerprint, expiresAt, outcome, completed, closes)
    }
  }

  /** What the first locked section hands back to the caller. */
  datatype Entry = Refused | Joined(cell: ReceiptCell) | Registered(cell: ReceiptCell)

  class Application {
    var receipts: map<DeliveryId, ReceiptCell>
    ghost var all: seq<ReceiptCell>  // every receipt ever created, by index
    ghost var reg: Registry          // the abstract value

    ghost predicate Valid()
      reads this, all
    {
      && reg.Valid()
      && |reg.receipts| == |all|
      && (forall i | 0 <= i < |all| :: all[i].index == i && all[i].Value() == reg.receipts[i])
      && (forall id :: id in receipts <==> id in reg.table)
      && (forall id | id in receipts :: receipts[id] == all[reg.table[id]])
    }

    constructor ()
      ensures Valid() && reg == INIT.reg
    {
      receipts, all, reg := map[], [], INIT.reg;
    }

    method PurgeExpired(now: int)
      requires Valid()
      modifies this`receipts, this`reg
      ensures Valid() && reg == Purge(old(reg), now)
    {
      ghost var was, kept := receipts, Purge(reg, now).table;
      var ids := receipts.Keys;
      while ids != {}
        modifies this`receipts
        invariant forall id | id in ids :: id in was
        invariant forall id :: id in receipts <==> id in kept || id in ids
        invariant forall id | id in receipts :: receipts[id] == was[id]
        decreases |ids|
      {
        var id :| id in ids;
        ids := ids - {id};
        var existing := receipts[id];
        assert existing.Value() == reg.receipts[reg.table[id]];
        assert id in kept <==> !Stale(existing.Value(), now);
        if existing.completed && existing.expiresAt <= now {
          receipts := receipts - {id};
        }
      }
      reg := Purge(reg, now);
    }

    /** The first locked section. */
    method EnterLocked(ghost t: Tid, id: DeliveryId, fingerprint: Fingerprint, expiresAt: int, now: int) returns (entry: Entry)
      requires Valid()
      modifies this
      ensures Valid() && old(all) <= all && (forall i | |old(all)| <= i < |all| :: fresh(all[i]))
      ensures entry.Refused? || entry.cell in all
      ensures Enter(old(reg), t, id, fingerprint, expiresAt, now) == (reg,
        match entry
        case Refused => Reject
        case Joined(cell) => Wait(cell.index)
        case Registered(cell) => Own(cell.index))
    {
      PurgeExpired(now);
      if id in receipts {
        var existing := receipts[id];
        if existing.fingerprint != fingerprint {
          return Refused;
        }
        return Joined(existing);
      }
      var current := new ReceiptCell(fingerprint, expiresAt, t, id, |all|);
      reg := Registry(reg.table[id := |all|], reg.receipts + [current.Value()]);
      receipts := receipts[id := current];
      all := all + [current];
      return Registered(current);
    }

    /** The last locked section: of all receipts only the caller's own changes. */
    method CompleteLocked(current: ReceiptCell, outcome: Outcome)
      requires Valid() && current in all
      modifies current, this`reg
      ensures Valid() && reg == Complete(old(reg), current.index, outcome)
    {
      current.outcome := outcome;
      current.completed := true;
      current.closes := current.closes + 1;
      reg := Complete(reg, current.index, outcome);
    }

    /** A waiter reads the receipt it holds, in the table or not. */
    method ReadLocked(existing: ReceiptCell) returns (outcome: Outcome)
      requires Valid() && existing in all
      ensures outcome == reg.receipts[existing.index].outcome
    {
      outcome := existing.outcome;
    }
  }
}
