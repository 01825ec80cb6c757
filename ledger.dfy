/**
 * Payments and the figures derived from them, in integer cents: total paid,
 * remaining due, the two "to refund" formulas and the paid/unpaid list filter.
 */
module Ledger {
  import opened Wrappers

  // Participant statuses, as the store spells them.
  const Enrolled: string := "INSCRIT"
  const Waitlisted: string := "LISTE_ATTENTE"
  const ToRefund: string := "A_REMBOURSER"
  const Cancelled: string := "ANNULÉ"

  /** A calendar date; the clock is not part of the model, handlers receive today's date. */
  datatype Date = Date(year: int, month: int, day: int)

  /** The free-text reference of a payment, for the references the handlers write themselves. */
  datatype Note =
    | RefundNote(participant: nat)    // "Remboursement participant <id>"
    | CommissionNote(meeting: Date)   // "Commission FS du <dd/mm/yyyy>"
    | Text(text: string)              // entered by hand

  /** A signed movement of money against a debt: positive = received, negative = returned. */
  datatype Payment = Payment(debt: nat, mode: nat, amount: int, date: Date, note: Note)

  /** `SUM(montant)` over the payments of one debt, with an empty sum read as 0. */
  function TotalPaid(payments: seq<Payment>, debt: nat): (t: int)
    ensures (forall i :: 0 <= i < |payments| ==> payments[i].debt != debt) ==> t == 0
    ensures (forall i :: 0 <= i < |payments| ==> payments[i].debt != debt || payments[i].amount >= 0) ==> t >= 0
  {
    if payments == [] then 0
    else (if payments[0].debt == debt then payments[0].amount else 0) + TotalPaid(payments[1..], debt)
  }

  /** Recording one more payment changes the total of its own debt by its amount and no other total. */
  lemma {:induction false} TotalPaidAppend(payments: seq<Payment>, p: Payment, debt: nat)
    ensures TotalPaid(payments + [p], debt) == TotalPaid(payments, debt) + if p.debt == debt then p.amount else 0
  {
    if payments == [] {
      assert [] + [p] == [p];
    } else {
      assert (payments + [p])[1..] == payments[1..] + [p];
      TotalPaidAppend(payments[1..], p, debt);
    }
  }

  /** remaining due = max(0, owed - paid): never negative, even when more than owed was paid. */
  function RemainingDue(owed: int, paid: int): (r: int)
    ensures r >= 0 && r >= owed - paid
    ensures r == 0 || r == owed - paid
    ensures r == 0 <==> paid >= owed
  {
    if owed - paid > 0 then owed - paid else 0
  }

  /** A trip at 500.00: after 200.00 paid 300.00 remain, after 300.00 more nothing, and after 50.00 more still nothing. */
  lemma RemainingDueExample(d: Date)
    ensures var p1 := [Payment(1, 0, 20000, d, Text(""))];
            var p2 := p1 + [Payment(1, 0, 30000, d, Text(""))];
            var p3 := p2 + [Payment(1, 0, 5000, d, Text(""))];
            && RemainingDue(50000, TotalPaid(p1, 1)) == 30000
            && RemainingDue(50000, TotalPaid(p2, 1)) == 0
            && TotalPaid(p3, 1) == 55000 && RemainingDue(50000, TotalPaid(p3, 1)) == 0
  {
    var p1 := [Payment(1, 0, 20000, d, Text(""))];
    var p2 := p1 + [Payment(1, 0, 30000, d, Text(""))];
    var p3 := p2 + [Payment(1, 0, 5000, d, Text(""))];
    TotalPaidAppend([], p1[0], 1);
    TotalPaidAppend(p1, p2[1], 1);
    TotalPaidAppend(p2, p3[2], 1);
    assert [] + [p1[0]] == p1;
  }

  /**
   * "To refund" as the trip view computes it: what was paid, but only while the participant
   * is waiting for a refund whose flag reads exactly 0 (a NULL flag does not qualify here).
   */
  function ToRefundInTripView(status: string, refundValidated: Option<int>, paid: int): (r: int)
    ensures r >= 0
    ensures r > 0 <==> status == ToRefund && refundValidated == Some(0) && paid > 0
    ensures r > 0 ==> r == paid
  {
    if status == ToRefund && refundValidated == Some(0) then (if paid > 0 then paid else 0) else 0
  }

  /**
   * "To refund" as the payments page computes it: while a refund is pending (flag NULL or 0)
   * what was paid, otherwise whatever was paid beyond the amount owed.
   */
  function ToRefundInPaymentsPage(status: string, refundValidated: Option<int>, paid: int, owed: int): (r: int)
    ensures r >= 0
    ensures status == ToRefund && refundValidated in {None, Some(0)} ==> (r > 0 <==> paid > 0) && (r > 0 ==> r == paid)
    ensures !(status == ToRefund && refundValidated in {None, Some(0)}) ==>
              (r > 0 <==> paid > owed) && (r > 0 ==> r == paid - owed)
  {
    if status == ToRefund && (refundValidated.None? || refundValidated == Some(0)) then
      (if paid > 0 then paid else 0)
    else
      (if paid - owed > 0 then paid - owed else 0)
  }

  /** While a refund is pending with flag 0 both views report the same amount. */
  lemma ToRefundViewsAgreeWhilePending(paid: int, owed: int)
    ensures ToRefundInTripView(ToRefund, Some(0), paid) == ToRefundInPaymentsPage(ToRefund, Some(0), paid, owed)
  {
  }

  /** Outside a pending refund the two views disagree as soon as more than owed was paid. */
  lemma ToRefundViewsDisagreeOnOverpayment(status: string, flag: Option<int>, paid: int, owed: int)
    requires status != ToRefund
    requires paid > owed
    ensures ToRefundInTripView(status, flag, paid) == 0
    ensures ToRefundInPaymentsPage(status, flag, paid, owed) == paid - owed > 0
  {
  }

  /** With a NULL flag the trip view shows nothing to refund while the payments page shows all that was paid. */
  lemma ToRefundViewsDisagreeOnNullFlag(paid: int, owed: int)
    requires paid > 0
    ensures ToRefundInTripView(ToRefund, None, paid) == 0
    ensures ToRefundInPaymentsPage(ToRefund, None, paid, owed) == paid
  {
  }

  /** One line of the participant list: who, with which status, and how much is still due. */
  datatype ListRow = ListRow(participant: nat, status: string, remaining: int)

  /** Enrolled rows whose remaining due is settled (filter 'paye'). */
  function SettledRows(rows: seq<ListRow>): (r: seq<ListRow>)
    ensures |r| <= |rows|
    ensures forall x :: x in r <==> x in rows && x.status == Enrolled && x.remaining <= 0
  {
    if rows == [] then []
    else (if rows[0].status == Enrolled && rows[0].remaining <= 0 then [rows[0]] else []) + SettledRows(rows[1..])
  }

  /** Enrolled rows that still owe something (filter 'non_paye'). */
  function PendingRows(rows: seq<ListRow>): (r: seq<ListRow>)
    ensures |r| <= |rows|
    ensures forall x :: x in r <==> x in rows && x.status == Enrolled && x.remaining > 0
  {
    if rows == [] then []
    else (if rows[0].status == Enrolled && rows[0].remaining > 0 then [rows[0]] else []) + PendingRows(rows[1..])
  }

  /** All enrolled rows, in order. */
  function EnrolledRows(rows: seq<ListRow>): (r: seq<ListRow>)
    ensures forall x :: x in r <==> x in rows && x.status == Enrolled
  {
    if rows == [] then []
    else (if rows[0].status == Enrolled then [rows[0]] else []) + EnrolledRows(rows[1..])
  }

  /** The filter of the participant-list export; any other value than the two known ones keeps every row. */
  function ListFilter(rows: seq<ListRow>, filter: string): (r: seq<ListRow>)
    ensures filter == "paye" ==> forall x :: x in r <==> x in rows && x.status == Enrolled && x.remaining <= 0
    ensures filter == "non_paye" ==> forall x :: x in r <==> x in rows && x.status == Enrolled && x.remaining > 0
    ensures filter != "paye" && filter != "non_paye" ==> r == rows
  {
    if filter == "paye" then SettledRows(rows)
    else if filter == "non_paye" then PendingRows(rows)
    else rows
  }

  /** 'paye' and 'non_paye' split the enrolled rows: every enrolled row, with its multiplicity, lands in exactly one. */
  lemma {:induction false} ListFilterPartition(rows: seq<ListRow>)
    ensures multiset(ListFilter(rows, "paye")) + multiset(ListFilter(rows, "non_paye")) == multiset(EnrolledRows(rows))
    ensures |ListFilter(rows, "paye")| + |ListFilter(rows, "non_paye")| == |EnrolledRows(rows)|
  {
    if rows != [] {
      ListFilterPartition(rows[1..]);
    }
  }
}
