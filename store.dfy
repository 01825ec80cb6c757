/**
 * The store as the handlers use it: an object whose tables are fields that each
 * handler updates in place. Every method is proved to leave the store exactly as
 * the corresponding function of module Records describes.
 */
module Handlers {
  import opened Wrappers
  import opened Ledger
  import opened Records

  class Store {
    var trips: map<nat, Trip>
    var participants: map<nat, Participant>
    var debts: map<nat, Debt>
    var payments: seq<Payment>
    var modes: seq<string>
    var requests: map<nat, FundRequest>
    var nextId: nat

    /** The tables as one value. */
    function State(): Db
      reads this
    {
      Db(trips, participants, debts, payments, modes, requests, nextId)
    }

    ghost predicate Valid()
      reads this
    {
      WellFormed(State())
    }

    /** Opens a store holding the given rows. */
    constructor (db: Db)
      requires WellFormed(db)
      ensures Valid() && State() == db
    {
      trips, participants, debts := db.trips, db.participants, db.debts;
      payments, modes, requests, nextId := db.payments, db.modes, db.requests, db.nextId;
    }

    /** Looks a payment mode up by its label, inserting it when it is missing. */
    method FindOrCreateMode(name: string) returns (id: nat)
      modifies this`modes
      ensures (modes, id) == EnsureMode(old(modes), name)
    {
      var found := FindMode(modes, name);
      match found {
        case Some(i) =>
          id := i;
        case None =>
          id := |modes|;
          modes := modes + [name];
      }
    }

    /** ajouter_participant. */
    method AddParticipant(trip: nat, lastName: string, firstName: string, className: string) returns (outcome: Outcome)
      requires Valid()
      modifies this
      ensures Valid()
      ensures Step(State(), outcome) == Records.AddParticipant(old(State()), trip, lastName, firstName, className)
    {
      if trip == 0 || lastName == "" || firstName == "" || className == "" {
        return Skipped;
      }
      if trip !in trips {
        return NotFound;
      }
      var enrolled := EnrolledCount(State(), trip);
      var status := InitialStatus(enrolled, trips[trip].expectedParticipants);
      var id := nextId;
      participants := participants[id := Participant(trip, lastName, firstName, className, Student, status, Some(0), 0, 0)];
      debts := debts[id := Debt(trips[trip].price, 0)];
      nextId := nextId + 1;
      outcome := Committed;
      AddParticipantKeepsWellFormed(old(State()), trip, lastName, firstName, className);
    }

    /** modifier_statut_participant. */
    method ChangeStatus(pid: nat, requested: string) returns (outcome: Outcome)
      requires Valid()
      modifies this
      ensures Valid()
      ensures Step(State(), outcome) == Records.ChangeStatus(old(State()), pid, requested)
    {
      var final := requested;
      if requested == Cancelled && pid in debts {
        var paid := TotalPaid(payments, pid);
        if paid > 0 {
          final := ToRefund;
        }
      }
      if pid in participants {
        participants := participants[pid := participants[pid].(status := final)];
      }
      outcome := Committed;
    }

    /** valider_remboursement. */
    method ValidateRefund(pid: nat, today: Date) returns (outcome: Outcome)
      requires Valid()
      modifies this
      ensures Valid()
      ensures Step(State(), outcome) == Records.ValidateRefund(old(State()), pid, today)
    {
      if pid !in participants {
        return NotFound;
      }
      var p := participants[pid];
      var paid := 0;
      if pid in debts {
        paid := TotalPaid(payments, pid);
      }
      if AwaitingRefund(p) && paid > 0 {
        var mode := FindOrCreateMode(RefundMode);
        payments := payments + [Payment(pid, mode, -paid, today, RefundNote(pid))];
      }
      participants := participants[pid := p.(refundValidated := Some(1), status := Cancelled)];
      outcome := Committed;
    }

    /** The payment and the discount of an approved grant. */
    method RecordGrant(pid: nat, amount: int, date: Date)
      requires pid in debts
      modifies this
      ensures State() == Records.RecordGrant(old(State()), pid, amount, date)
    {
      var mode := FindOrCreateMode(SocialFundMode);
      payments := payments + [Payment(pid, mode, amount, date, CommissionNote(date))];
      debts := debts[pid := debts[pid].(discount := debts[pid].discount + amount)];
    }

    /** valider_demande_fonds_sociaux. */
    method DecideFundRequest(rid: nat, status: string, granted: Option<int>, meeting: Option<Date>, today: Date)
      returns (outcome: Outcome)
      requires Valid()
      modifies this
      ensures Valid()
      ensures Step(State(), outcome) == Records.DecideFundRequest(old(State()), rid, status, granted, meeting, today)
    {
      DecideFundRequestKeepsWellFormed(State(), rid, status, granted, meeting, today);
      if rid !in requests {
        return NotFound;
      }
      var req := requests[rid];
      if req.processed {
        return Skipped;
      }
      var amount := 0;
      if status == Approved {
        if granted.None? || granted.value < 0 {
          return Skipped;
        }
        amount := granted.value;
      }
      var date := meeting.GetOr(today);
      if status == Approved && amount > 0 && req.participant !in debts {
        return Crashed;
      }
      requests := requests[rid := req.(granted := Some(amount), meeting := Some(date), status := status, processed := true)];
      if status == Approved && amount > 0 {
        RecordGrant(req.participant, amount, date);
      }
      outcome := Committed;
    }

    /** toggle_validation: answers the new value of the checkbox, or why nothing was written. */
    method ToggleValidation(pid: nat, field: string) returns (result: Result<int, ToggleError>)
      requires Valid()
      modifies this
      ensures Valid()
      ensures ToggleStep(State(), result) == Records.ToggleValidation(old(State()), pid, field)
    {
      if field != CommitmentFormField && field != FinalListField {
        return Err(InvalidField);
      }
      if pid == 0 {
        return Err(MissingId);
      }
      if pid !in participants {
        return Err(NoSuchParticipant);
      }
      var p := participants[pid];
      var current := if field == CommitmentFormField then p.commitmentForm else p.finalList;
      var v := 1 - current;
      if field == CommitmentFormField {
        participants := participants[pid := p.(commitmentForm := v)];
      } else {
        participants := participants[pid := p.(finalList := v)];
      }
      result := Ok(v);
    }
  }
}
