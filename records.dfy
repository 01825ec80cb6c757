/**
 * The bookkeeping store as a value, and each state-changing handler as a
 * function from the store before to the store after (with the handler's
 * answer). The class in store.dfy performs the same updates in place and is
 * proved against these functions.
 */
module Records {
  import opened Wrappers
  import opened Ledger

  /** The columns of a trip the bookkeeping reads: price per student (cents) and expected participant count. */
  datatype Trip = Trip(price: int, expectedParticipants: int)

  datatype Participant = Participant(
    trip: nat,
    lastName: string,
    firstName: string,
    className: string,
    kind: string,
    status: string,
    refundValidated: Option<int>,   // NULL is possible for this column
    commitmentForm: int,            // fiche_engagement checkbox, 0 or 1
    finalList: int)                 // liste_definitive checkbox, 0 or 1

  /** The debt of one participant: what was asked initially and the discount granted since. */
  datatype Debt = Debt(initial: int, discount: int) {
    function Owed(): int { initial - discount }
  }

  datatype FundRequest = FundRequest(
    participant: nat,
    requested: int,
    granted: Option<int>,
    meeting: Option<Date>,
    status: string,
    processed: bool)

  /**
   * The store. Debts are keyed by the id of their participant (the schema links them one to
   * one); a payment's `debt` is that key. A payment mode's id is its index in `modes`.
   * `nextId` is the id the next inserted participant receives.
   */
  datatype Db = Db(
    trips: map<nat, Trip>,
    participants: map<nat, Participant>,
    debts: map<nat, Debt>,
    payments: seq<Payment>,
    modes: seq<string>,
    requests: map<nat, FundRequest>,
    nextId: nat)

  /** How a handler ends: committed (then redirected), redirected without writing, 404, or an uncaught error (nothing committed). */
  datatype Outcome = Committed | Skipped | NotFound | Crashed

  datatype Step = Step(db: Db, outcome: Outcome)

  const Student: string := "ELEVE"
  const RefundMode: string := "Remboursement"
  const SocialFundMode: string := "Fonds Social"
  const Approved: string := "VALIDE"
  const CommitmentFormField: string := "fiche_engagement"
  const FinalListField: string := "liste_definitive"

  /** Ids handed out so far are below `nextId`, and 0 is never an id. */
  predicate IdsBelowNext(db: Db) {
    && 0 < db.nextId
    && (forall id :: id in db.participants ==> 0 < id < db.nextId)
    && (forall id :: id in db.debts ==> 0 < id < db.nextId)
  }

  /** Every payment references an existing debt. */
  predicate PaymentsReferenceDebts(db: Db) {
    forall i :: 0 <= i < |db.payments| ==> db.payments[i].debt in db.debts
  }

  /** The invariant of the store. */
  predicate WellFormed(db: Db) {
    IdsBelowNext(db) && PaymentsReferenceDebts(db)
  }

  /** Every participant has exactly one debt, and every debt belongs to a participant. */
  predicate EveryParticipantHasDebt(db: Db) {
    db.participants.Keys == db.debts.Keys
  }

  /** Total paid by a participant; a participant without a debt has paid 0. */
  function Paid(db: Db, pid: nat): (r: int)
    ensures pid !in db.debts ==> r == 0
    ensures (forall i :: 0 <= i < |db.payments| ==> db.payments[i].debt != pid) ==> r == 0
  {
    if pid in db.debts then TotalPaid(db.payments, pid) else 0
  }

  /** The participants of a trip that are currently enrolled. */
  function EnrolledIds(db: Db, trip: nat): (ids: set<nat>)
    ensures ids <= db.participants.Keys
  {
    set id | id in db.participants && db.participants[id].trip == trip && db.participants[id].status == Enrolled
  }

  /** `SELECT COUNT(id) FROM participants WHERE voyage_id = ? AND statut = 'INSCRIT'`. */
  function EnrolledCount(db: Db, trip: nat): (n: nat)
    ensures n <= |db.participants|
  {
    SubsetCardinality(EnrolledIds(db, trip), db.participants.Keys);
    |EnrolledIds(db, trip)|
  }

  /** A subset is no larger than its superset. */
  lemma {:induction false} SubsetCardinality(a: set<nat>, b: set<nat>)
    requires a <= b
    ensures |a| <= |b|
  {
    if a != {} {
      var x :| x in a;
      SubsetCardinality(a - {x}, b - {x});
    }
  }

  /** `SELECT id FROM modes_paiement WHERE libelle = ?`: the first mode with that name. */
  function FindMode(modes: seq<string>, name: string): (r: Option<nat>)
    ensures r.None? <==> name !in modes
    ensures r.Some? ==> r.value < |modes| && modes[r.value] == name && name !in modes[..r.value]
  {
    if modes == [] then None
    else if modes[0] == name then Some(0)
    else match FindMode(modes[1..], name)
      case None => None
      case Some(i) =>
        assert modes[..i + 1] == [modes[0]] + modes[1..][..i];
        Some(i + 1)
  }

  /** The id of the mode with that name, inserting the mode first when there is none. */
  function EnsureMode(modes: seq<string>, name: string): (r: (seq<string>, nat))
    ensures r.1 < |r.0| && r.0[r.1] == name
    ensures name in modes ==> r.0 == modes
    ensures name !in modes ==> r.0 == modes + [name] && r.1 == |modes|
  {
    match FindMode(modes, name)
    case Some(i) => (modes, i)
    case None => (modes + [name], |modes|)
  }

  /** The status a new participant starts with, given the trip's enrolled count and expected count. */
  function InitialStatus(enrolled: nat, expected: int): (st: string)
    ensures st == Enrolled <==> enrolled < expected
    ensures st == Waitlisted <==> enrolled >= expected
  {
    if enrolled < expected then Enrolled else Waitlisted
  }

  /**
   * ajouter_participant: a student joins a trip, enrolled while the trip's enrolled count is
   * below its expected participant count and waitlisted otherwise, and gets a debt for the
   * trip's price. An empty field redirects without writing; an unknown trip is a 404.
   */
  function AddParticipant(db: Db, trip: nat, lastName: string, firstName: string, className: string): (s: Step)
    ensures trip == 0 || lastName == "" || firstName == "" || className == "" ==> s == Step(db, Skipped)
    ensures trip != 0 && lastName != "" && firstName != "" && className != "" && trip !in db.trips ==> s == Step(db, NotFound)
    ensures s.outcome == Committed <==> trip != 0 && lastName != "" && firstName != "" && className != "" && trip in db.trips
    ensures s.outcome != Committed ==> s.db == db
    ensures s.outcome == Committed ==>
      && trip in db.trips
      && var id := db.nextId;
         var t := db.trips[trip];
         && s.db.participants == db.participants[id := Participant(trip, lastName, firstName, className, Student,
                                                                   InitialStatus(EnrolledCount(db, trip), t.expectedParticipants),
                                                                   Some(0), 0, 0)]
         && s.db.debts == db.debts[id := Debt(t.price, 0)]
         && s.db == db.(participants := s.db.participants, debts := s.db.debts, nextId := id + 1)
  {
    if trip == 0 || lastName == "" || firstName == "" || className == "" then Step(db, Skipped)
    else if trip !in db.trips then Step(db, NotFound)
    else
      var t := db.trips[trip];
      var status := InitialStatus(EnrolledCount(db, trip), t.expectedParticipants);
      var id := db.nextId;
      var p := Participant(trip, lastName, firstName, className, Student, status, Some(0), 0, 0);
      Step(db.(participants := db.participants[id := p],
               debts := db.debts[id := Debt(t.price, 0)],
               nextId := id + 1),
           Committed)
  }

  /** Adding a participant keeps the store well formed, and keeps every participant with its debt. */
  lemma AddParticipantKeepsWellFormed(db: Db, trip: nat, lastName: string, firstName: string, className: string)
    requires WellFormed(db)
    ensures var s := AddParticipant(db, trip, lastName, firstName, className);
      && WellFormed(s.db)
      && (EveryParticipantHasDebt(db) ==> EveryParticipantHasDebt(s.db))
  {
    var s := AddParticipant(db, trip, lastName, firstName, className);
    if s.outcome == Committed {
      var id := db.nextId;
      assert s.db.participants == db.participants[id := s.db.participants[id]];
      assert s.db.debts == db.debts[id := s.db.debts[id]];
      assert s.db.payments == db.payments && s.db.nextId == id + 1;
    }
  }

  /**
   * In a well-formed store the new participant's id was unused: exactly one participant and
   * one debt are added, and every other participant is unchanged.
   */
  lemma AddParticipantFresh(db: Db, trip: nat, lastName: string, firstName: string, className: string)
    requires IdsBelowNext(db)
    ensures var s := AddParticipant(db, trip, lastName, firstName, className);
      (s.outcome == Committed ==>
            && db.nextId !in db.participants && db.nextId !in db.debts
            && s.db.participants.Keys == db.participants.Keys + {db.nextId}
            && s.db.debts.Keys == db.debts.Keys + {db.nextId}
            && (forall q :: q in db.participants ==> s.db.participants[q] == db.participants[q]))
  {
    var s := AddParticipant(db, trip, lastName, firstName, className);
    if s.outcome == Committed {
      var id := db.nextId;
      assert id !in db.participants && id !in db.debts;
      var p := s.db.participants[id];
      assert s.db.participants == db.participants[id := p];
      assert s.db.debts == db.debts[id := s.db.debts[id]];
      InsertUnder(db.participants, id, p);
      InsertUnder(db.debts, id, s.db.debts[id]);
    }
  }

  /** Inserting under an unused key adds exactly that key and keeps every other entry. */
  lemma InsertUnder<V>(m: map<nat, V>, k: nat, v: V)
    requires k !in m
    ensures m[k := v].Keys == m.Keys + {k}
    ensures forall q :: q in m ==> m[k := v][q] == m[q]
  {
  }

  /**
   * In a well-formed store no payment references the new participant's debt yet, so the new
   * participant has paid nothing and still owes the trip's full price.
   */
  lemma AddParticipantOwesFullPrice(db: Db, trip: nat, lastName: string, firstName: string, className: string)
    requires WellFormed(db)
    ensures var s := AddParticipant(db, trip, lastName, firstName, className);
      s.outcome == Committed ==>
        && Paid(s.db, db.nextId) == 0
        && s.db.debts[db.nextId].Owed() - Paid(s.db, db.nextId) == db.trips[trip].price
  {
    var s := AddParticipant(db, trip, lastName, firstName, className);
    if s.outcome == Committed {
      assert s.db.payments == db.payments;
      assert forall i :: 0 <= i < |db.payments| ==> db.payments[i].debt != db.nextId;
    }
  }

  /** Inserting a participant under a fresh id adds it to the enrolled ids of its trip when it is enrolled, and nothing else. */
  lemma EnrolledIdsInsert(db: Db, id: nat, p: Participant, trip: nat)
    requires id !in db.participants
    ensures EnrolledIds(db.(participants := db.participants[id := p]), trip)
            == EnrolledIds(db, trip) + if p.trip == trip && p.status == Enrolled then {id} else {}
  {
  }

  /** Adding a participant never pushes a trip's enrolled count past its expected count. */
  lemma AddParticipantKeepsCapacity(db: Db, trip: nat, lastName: string, firstName: string, className: string)
    requires IdsBelowNext(db)
    requires trip in db.trips && EnrolledCount(db, trip) <= db.trips[trip].expectedParticipants
    ensures EnrolledCount(AddParticipant(db, trip, lastName, firstName, className).db, trip) <= db.trips[trip].expectedParticipants
  {
    var s := AddParticipant(db, trip, lastName, firstName, className);
    if s.outcome == Committed {
      var id := db.nextId;
      var p := s.db.participants[id];
      assert s.db.participants == db.participants[id := p];
      assert id !in db.participants;
      EnrolledIdsInsert(db, id, p, trip);
      assert EnrolledIds(s.db, trip) == EnrolledIds(db.(participants := db.participants[id := p]), trip);
    }
  }

  /**
   * modifier_statut_participant: stores the requested status, except that a cancellation
   * of a participant who has paid more than 0 stores "to be refunded" instead.
   */
  function ChangeStatus(db: Db, pid: nat, requested: string): (s: Step)
    ensures s.outcome == Committed
    ensures pid !in db.participants ==> s.db == db
    ensures s.db.participants.Keys == db.participants.Keys
    ensures pid in db.participants ==>
      && s.db.participants[pid] == db.participants[pid].(status := s.db.participants[pid].status)
      && (requested == Cancelled && Paid(db, pid) > 0 ==> s.db.participants[pid].status == ToRefund)
      && (requested != Cancelled || Paid(db, pid) <= 0 ==> s.db.participants[pid].status == requested)
    ensures forall q :: q in db.participants && q != pid ==> s.db.participants[q] == db.participants[q]
    ensures s.db == db.(participants := s.db.participants)
    ensures WellFormed(db) ==> WellFormed(s.db)
  {
    var final := if requested == Cancelled && Paid(db, pid) > 0 then ToRefund else requested;
    if pid in db.participants then
      Step(db.(participants := db.participants[pid := db.participants[pid].(status := final)]), Committed)
    else
      Step(db, Committed)
  }

  /** modifier_statut_participant never stores a cancellation for a participant who has paid something. */
  lemma CancellationWithMoneyGoesThroughRefund(db: Db, pid: nat, requested: string)
    requires pid in db.participants && Paid(db, pid) > 0
    ensures ChangeStatus(db, pid, requested).db.participants[pid].status != Cancelled
  {
  }

  /** The pending-refund test of valider_remboursement and the payments page: "to be refunded", flag NULL or 0. */
  predicate AwaitingRefund(p: Participant) {
    p.status == ToRefund && (p.refundValidated.None? || p.refundValidated == Some(0))
  }

  /** The refund branch of valider_remboursement applies: a refund is pending and money is held. */
  predicate RefundPending(db: Db, pid: nat)
    requires pid in db.participants
  {
    AwaitingRefund(db.participants[pid]) && Paid(db, pid) > 0
  }

  /**
   * valider_remboursement: when a refund is pending, records one negative payment of what was
   * paid (under the "Remboursement" mode, created if needed); in every case marks the refund
   * validated and the participant cancelled. An unknown participant is a 404.
   */
  function ValidateRefund(db: Db, pid: nat, today: Date): (s: Step)
    ensures pid !in db.participants ==> s == Step(db, NotFound)
    ensures pid in db.participants ==>
      && s.outcome == Committed
      && s.db.participants == db.participants[pid := db.participants[pid].(refundValidated := Some(1), status := Cancelled)]
      && s.db.debts == db.debts && s.db.requests == db.requests && s.db.trips == db.trips
      && s.db.nextId == db.nextId
    ensures pid in db.participants && RefundPending(db, pid) ==>
      && |s.db.payments| == |db.payments| + 1
      && s.db.payments[..|db.payments|] == db.payments
      && (var last := s.db.payments[|db.payments|];
          && last.debt == pid && last.amount == -Paid(db, pid) && last.note == RefundNote(pid) && last.date == today
          && last.mode < |s.db.modes| && s.db.modes[last.mode] == RefundMode)
      && (RefundMode in db.modes ==> s.db.modes == db.modes)
      && (RefundMode !in db.modes ==> s.db.modes == db.modes + [RefundMode])
      && Paid(s.db, pid) == 0
    ensures pid in db.participants && !RefundPending(db, pid) ==>
      s.db.payments == db.payments && s.db.modes == db.modes
    ensures forall d :: d != pid ==> Paid(s.db, d) == Paid(db, d)
    ensures WellFormed(db) ==> WellFormed(s.db)
  {
    if pid !in db.participants then Step(db, NotFound)
    else
      var p := db.participants[pid];
      var closed := db.participants[pid := p.(refundValidated := Some(1), status := Cancelled)];
      if RefundPending(db, pid) then
        var (modes, mode) := EnsureMode(db.modes, RefundMode);
        var refund := Payment(pid, mode, -Paid(db, pid), today, RefundNote(pid));
        TotalPaidAppend(db.payments, refund, pid);
        assert (db.payments + [refund])[..|db.payments|] == db.payments;
        forall d ensures TotalPaid(db.payments + [refund], d) == TotalPaid(db.payments, d) + if d == pid then refund.amount else 0 {
          TotalPaidAppend(db.payments, refund, d);
        }
        Step(db.(participants := closed, payments := db.payments + [refund], modes := modes), Committed)
      else
        Step(db.(participants := closed), Committed)
  }

  /**
   * valider_remboursement cancels whatever the status: a participant who is not "to be
   * refunded" and has paid something ends cancelled with no refund recorded and the money kept.
   */
  lemma ValidateRefundCancelsWithoutRefund(db: Db, pid: nat, today: Date)
    requires pid in db.participants && db.participants[pid].status != ToRefund && Paid(db, pid) > 0
    ensures var s := ValidateRefund(db, pid, today);
            && s.outcome == Committed
            && s.db.participants[pid].status == Cancelled
            && s.db.payments == db.payments
            && Paid(s.db, pid) == Paid(db, pid) > 0
  {
    assert !RefundPending(db, pid);
  }

  /** Validating a refund a second time records nothing and changes nothing. */
  lemma ValidateRefundIdempotent(db: Db, pid: nat, today: Date, later: Date)
    ensures ValidateRefund(ValidateRefund(db, pid, today).db, pid, later) == ValidateRefund(db, pid, today)
  {
    var s := ValidateRefund(db, pid, today);
    if pid in db.participants {
      assert !RefundPending(s.db, pid);
      assert s.db.participants[pid := s.db.participants[pid].(refundValidated := Some(1), status := Cancelled)] == s.db.participants;
    }
  }

  /**
   * valider_demande_fonds_sociaux: decides a social-fund request once. An approval with a
   * positive granted amount G records a payment of G (mode "Fonds Social", created if needed)
   * AND raises the debt's discount by G. A processed request, or an approval without a
   * non-negative amount, is skipped; an unknown request is a 404; a grant for a participant
   * without a debt fails before anything is committed.
   */
  function DecideFundRequest(db: Db, rid: nat, status: string, granted: Option<int>,
                             meeting: Option<Date>, today: Date): (s: Step)
    ensures rid !in db.requests ==> s == Step(db, NotFound)
    ensures rid in db.requests && db.requests[rid].processed ==> s == Step(db, Skipped)
    ensures rid in db.requests && status == Approved && (granted.None? || granted.value < 0) ==> s == Step(db, Skipped)
    ensures s.outcome == Committed <==>
      && rid in db.requests && !db.requests[rid].processed
      && !(status == Approved && (granted.None? || granted.value < 0))
      && !(status == Approved && granted.Some? && granted.value > 0 && db.requests[rid].participant !in db.debts)
    ensures s.outcome == Crashed <==>
      && rid in db.requests && !db.requests[rid].processed
      && status == Approved && granted.Some? && granted.value > 0 && db.requests[rid].participant !in db.debts
    ensures s.outcome != Committed ==> s.db == db
    ensures s.db.participants == db.participants && s.db.trips == db.trips && s.db.nextId == db.nextId
    ensures s.outcome == Committed ==>
      && rid in db.requests && !db.requests[rid].processed
      && var g := if status == Approved then granted.value else 0;
         && s.db.requests == db.requests[rid := db.requests[rid].(granted := Some(g), meeting := Some(meeting.GetOr(today)),
                                                                   status := status, processed := true)]
         && (g > 0 ==>
               var pid := db.requests[rid].participant;
               && pid in db.debts
               && |s.db.payments| == |db.payments| + 1
               && s.db.payments[..|db.payments|] == db.payments
               && s.db.payments[|db.payments|].debt == pid
               && s.db.payments[|db.payments|].amount == g
               && s.db.payments[|db.payments|].date == meeting.GetOr(today)
               && s.db.payments[|db.payments|].note == CommissionNote(meeting.GetOr(today))
               && s.db.payments[|db.payments|].mode < |s.db.modes|
               && s.db.modes[s.db.payments[|db.payments|].mode] == SocialFundMode
               && (SocialFundMode in db.modes ==> s.db.modes == db.modes)
               && (SocialFundMode !in db.modes ==> s.db.modes == db.modes + [SocialFundMode])
               && s.db.debts == db.debts[pid := db.debts[pid].(discount := db.debts[pid].discount + g)]
               && Paid(s.db, pid) == Paid(db, pid) + g
               && s.db.debts[pid].Owed() - Paid(s.db, pid) == db.debts[pid].Owed() - Paid(db, pid) - 2 * g)
         && (g <= 0 ==> s.db.payments == db.payments && s.db.debts == db.debts && s.db.modes == db.modes)
  {
    if rid !in db.requests then Step(db, NotFound)
    else
      var req := db.requests[rid];
      if req.processed then Step(db, Skipped)
      else if status == Approved && (granted.None? || granted.value < 0) then Step(db, Skipped)
      else
        var g := if status == Approved then granted.value else 0;
        var date := meeting.GetOr(today);
        var requests := db.requests[rid := req.(granted := Some(g), meeting := Some(date), status := status, processed := true)];
        if status == Approved && g > 0 then
          var pid := req.participant;
          if pid !in db.debts then Step(db, Crashed)
          else Step(RecordGrant(db.(requests := requests), pid, g, date), Committed)
        else
          Step(db.(requests := requests), Committed)
  }

  /**
   * The money side of an approved grant of g for participant pid: one payment of +g dated at
   * the commission under the mode "Fonds Social" (created if needed), and the debt's discount
   * raised by g. Nothing else changes.
   */
  function RecordGrant(db: Db, pid: nat, g: int, date: Date): (r: Db)
    requires pid in db.debts
    ensures |r.payments| == |db.payments| + 1 && r.payments[..|db.payments|] == db.payments
    ensures var last := r.payments[|db.payments|];
            && last.debt == pid && last.amount == g && last.date == date && last.note == CommissionNote(date)
            && last.mode < |r.modes| && r.modes[last.mode] == SocialFundMode
    ensures SocialFundMode in db.modes ==> r.modes == db.modes
    ensures SocialFundMode !in db.modes ==> r.modes == db.modes + [SocialFundMode]
    ensures r.debts == db.debts[pid := db.debts[pid].(discount := db.debts[pid].discount + g)]
    ensures Paid(r, pid) == Paid(db, pid) + g
    ensures forall d :: d != pid ==> Paid(r, d) == Paid(db, d)
    ensures r == db.(payments := r.payments, modes := r.modes, debts := r.debts)
    ensures WellFormed(db) ==> WellFormed(r)
  {
    var (modes, mode) := EnsureMode(db.modes, SocialFundMode);
    var grant := Payment(pid, mode, g, date, CommissionNote(date));
    var payments := db.payments + [grant];
    assert payments[..|db.payments|] == db.payments;
    assert forall i :: 0 <= i < |db.payments| ==> payments[i] == db.payments[i];
    forall d ensures TotalPaid(payments, d) == TotalPaid(db.payments, d) + if d == pid then g else 0 {
      TotalPaidAppend(db.payments, grant, d);
    }
    var d := db.debts[pid];
    db.(payments := payments, modes := modes, debts := db.debts[pid := d.(discount := d.discount + g)])
  }

  /** Deciding a request keeps the store well formed: a grant's payment references the participant's existing debt. */
  lemma DecideFundRequestKeepsWellFormed(db: Db, rid: nat, status: string, granted: Option<int>,
                                         meeting: Option<Date>, today: Date)
    requires WellFormed(db)
    ensures WellFormed(DecideFundRequest(db, rid, status, granted, meeting, today).db)
  {
  }

  /** A request that was decided once is skipped by every later decision. */
  lemma FundRequestDecidedOnce(db: Db, rid: nat, status: string, granted: Option<int>, meeting: Option<Date>, today: Date,
                               status': string, granted': Option<int>, meeting': Option<Date>, today': Date)
    requires DecideFundRequest(db, rid, status, granted, meeting, today).outcome == Committed
    ensures var db' := DecideFundRequest(db, rid, status, granted, meeting, today).db;
            DecideFundRequest(db', rid, status', granted', meeting', today') == Step(db', Skipped)
  {
  }

  /** With the clamp: an approved grant G lowers the remaining due by 2G, down to 0 at most. */
  lemma FundGrantLowersRemainingDue(db: Db, rid: nat, g: int, meeting: Option<Date>, today: Date)
    requires rid in db.requests && g > 0
    requires DecideFundRequest(db, rid, Approved, Some(g), meeting, today).outcome == Committed
    ensures var pid := db.requests[rid].participant;
            var s := DecideFundRequest(db, rid, Approved, Some(g), meeting, today);
            RemainingDue(s.db.debts[pid].Owed(), Paid(s.db, pid))
              == RemainingDue(db.debts[pid].Owed() - 2 * g, Paid(db, pid))
  {
  }

  datatype ToggleError = InvalidField | MissingId | NoSuchParticipant

  datatype ToggleStep = ToggleStep(db: Db, result: Result<int, ToggleError>)

  /** The current value of one of the two paperwork checkboxes. */
  function CheckboxValue(p: Participant, field: string): int {
    if field == CommitmentFormField then p.commitmentForm else p.finalList
  }

  /**
   * toggle_validation: flips one of the two paperwork checkboxes to `1 - current` and answers
   * the new value. Any other field name, and a missing id, is refused with nothing written;
   * an id with no participant fails.
   */
  function ToggleValidation(db: Db, pid: nat, field: string): (s: ToggleStep)
    ensures field != CommitmentFormField && field != FinalListField ==> s == ToggleStep(db, Err(InvalidField))
    ensures (field == CommitmentFormField || field == FinalListField) && pid == 0 ==> s == ToggleStep(db, Err(MissingId))
    ensures (field == CommitmentFormField || field == FinalListField) && pid != 0 && pid !in db.participants ==>
              s == ToggleStep(db, Err(NoSuchParticipant))
    ensures s.result.Ok? <==> (field == CommitmentFormField || field == FinalListField) && pid != 0 && pid in db.participants
    ensures s.result.Err? ==> s.db == db
    ensures s.result.Ok? ==>
      && (field == CommitmentFormField || field == FinalListField) && pid in db.participants
      && s.result.value == 1 - CheckboxValue(db.participants[pid], field)
      && s.db.participants.Keys == db.participants.Keys
      && CheckboxValue(s.db.participants[pid], field) == s.result.value
      && (field == CommitmentFormField ==> s.db.participants[pid] == db.participants[pid].(commitmentForm := s.result.value))
      && (field == FinalListField ==> s.db.participants[pid] == db.participants[pid].(finalList := s.result.value))
      && (forall q :: q in db.participants && q != pid ==> s.db.participants[q] == db.participants[q])
      && s.db == db.(participants := s.db.participants)
    ensures WellFormed(db) ==> WellFormed(s.db)
  {
    if field != CommitmentFormField && field != FinalListField then ToggleStep(db, Err(InvalidField))
    else if pid == 0 then ToggleStep(db, Err(MissingId))
    else if pid !in db.participants then ToggleStep(db, Err(NoSuchParticipant))
    else
      var p := db.participants[pid];
      var v := 1 - CheckboxValue(p, field);
      var p' := if field == CommitmentFormField then p.(commitmentForm := v) else p.(finalList := v);
      ToggleStep(db.(participants := db.participants[pid := p']), Ok(v))
  }

  /** Toggling the same checkbox twice gives back the store it started from. */
  lemma ToggleTwiceRestores(db: Db, pid: nat, field: string)
    ensures ToggleValidation(ToggleValidation(db, pid, field).db, pid, field).db == db
  {
    var s := ToggleValidation(db, pid, field);
    if s.result.Ok? {
      var p := db.participants[pid];
      var s2 := ToggleValidation(s.db, pid, field);
      assert s2.db.participants[pid] == p;
      assert s2.db.participants == db.participants;
    }
  }

  /** What the trip view, the editable list and the PDF list show of the money side of a participant. */
  datatype Figures = Figures(paid: int, remaining: int, toRefund: int)

  /**
   * The financial columns of the trip view (voyage_details) for a participant listed there,
   * that is one joined with a debt.
   */
  function TripViewFigures(db: Db, pid: nat): (f: Figures)
    requires pid in db.participants && pid in db.debts
    ensures f.paid == TotalPaid(db.payments, pid)
    ensures f.remaining >= 0 && (f.remaining == 0 <==> f.paid >= db.debts[pid].Owed())
    ensures f.remaining > 0 ==> f.remaining == db.debts[pid].Owed() - f.paid
    ensures f.toRefund >= 0
    ensures f.toRefund > 0 <==> RefundPendingInTripView(db.participants[pid], f.paid)
    ensures f.toRefund > 0 ==> f.toRefund == f.paid
    ensures !RefundPendingInTripView(db.participants[pid], f.paid) ==> f.toRefund == 0
  {
    var p := db.participants[pid];
    var paid := TotalPaid(db.payments, pid);
    Figures(paid, RemainingDue(db.debts[pid].Owed(), paid), ToRefundInTripView(p.status, p.refundValidated, paid))
  }

  /** The trip view's own pending-refund test: the flag must read exactly 0. */
  predicate RefundPendingInTripView(p: Participant, paid: int) {
    p.status == ToRefund && p.refundValidated == Some(0) && paid > 0
  }

  /** One row of the participant list that generer_liste_participants_pdf filters. */
  function ListRowOf(db: Db, pid: nat): (r: ListRow)
    requires pid in db.participants && pid in db.debts
    ensures r.participant == pid && r.status == db.participants[pid].status
    ensures r.remaining <= 0 <==> TotalPaid(db.payments, pid) >= db.debts[pid].Owed()
  {
    ListRow(pid, db.participants[pid].status, RemainingDue(db.debts[pid].Owed(), TotalPaid(db.payments, pid)))
  }

  /**
   * participant_paiements: 404 without the participant, without its trip or without its debt;
   * otherwise total paid, remaining due, and "to refund" by the payments page's own formula.
   */
  function PaymentsPage(db: Db, pid: nat): (r: Option<Figures>)
    ensures r.None? <==> pid !in db.participants || db.participants[pid].trip !in db.trips || pid !in db.debts
    ensures r.Some? ==>
      var owed := db.debts[pid].Owed();
      && r.value.paid == TotalPaid(db.payments, pid)
      && r.value.remaining >= 0 && (r.value.remaining == 0 <==> r.value.paid >= owed)
      && (r.value.remaining > 0 ==> r.value.remaining == owed - r.value.paid)
    ensures r.Some? ==>
      var p := db.participants[pid];
      && r.value.toRefund >= 0
      && (AwaitingRefund(p) && r.value.paid > 0 ==> r.value.toRefund == r.value.paid)
      && (AwaitingRefund(p) && r.value.paid <= 0 ==> r.value.toRefund == 0)
      && (!AwaitingRefund(p) ==> r.value.toRefund == RemainingDue(r.value.paid, db.debts[pid].Owed()))
  {
    if pid !in db.participants || db.participants[pid].trip !in db.trips || pid !in db.debts then None
    else
      var p := db.participants[pid];
      var paid := TotalPaid(db.payments, pid);
      var owed := db.debts[pid].Owed();
      Some(Figures(paid, RemainingDue(owed, paid), ToRefundInPaymentsPage(p.status, p.refundValidated, paid, owed)))
  }
}
