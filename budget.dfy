/** A trip's budget: expense and revenue items, their totals and the balance, in cents. */
module Budget {

  const Expense: string := "depense"
  const Revenue: string := "recette"

  /** One budget line of a trip (the trip and the category join are assumed already applied). */
  datatype BudgetItem = BudgetItem(kind: string, category: string, description: string, amount: int)

  /** Sum of the amounts of the items of one kind. */
  function KindTotal(items: seq<BudgetItem>, kind: string): (t: int)
    ensures (forall i :: 0 <= i < |items| ==> items[i].kind != kind || items[i].amount >= 0) ==> t >= 0
  {
    if items == [] then 0
    else (if items[0].kind == kind then items[0].amount else 0) + KindTotal(items[1..], kind)
  }

  datatype BudgetTotals = BudgetTotals(expenses: int, revenues: int, balance: int)

  /** The totals shown on the budget page and in the budget PDF. */
  function Totals(items: seq<BudgetItem>): (t: BudgetTotals)
    ensures t.balance == t.revenues - t.expenses
    ensures (forall i :: 0 <= i < |items| ==> items[i].kind != Expense) ==> t.expenses == 0
    ensures (forall i :: 0 <= i < |items| ==> items[i].kind != Revenue) ==> t.revenues == 0
  {
    KindTotalAbsent(items, Expense);
    KindTotalAbsent(items, Revenue);
    var e := KindTotal(items, Expense);
    var r := KindTotal(items, Revenue);
    BudgetTotals(e, r, r - e)
  }

  /** A kind no item carries totals 0. */
  lemma {:induction false} KindTotalAbsent(items: seq<BudgetItem>, kind: string)
    ensures (forall i :: 0 <= i < |items| ==> items[i].kind != kind) ==> KindTotal(items, kind) == 0
  {
    if items != [] {
      KindTotalAbsent(items[1..], kind);
    }
  }

  /** The totals of two lists of items put together are the sums of their totals. */
  lemma {:induction false} KindTotalConcat(a: seq<BudgetItem>, b: seq<BudgetItem>, kind: string)
    ensures KindTotal(a + b, kind) == KindTotal(a, kind) + KindTotal(b, kind)
  {
    if a == [] {
      assert a + b == b;
    } else {
      assert (a + b)[1..] == a[1..] + b;
      KindTotalConcat(a[1..], b, kind);
    }
  }

  /** Reference definition of the balance: each revenue counts plus, each expense minus, anything else not at all. */
  function SignedSum(items: seq<BudgetItem>): int {
    if items == [] then 0
    else
      var it := items[0];
      (if it.kind == Revenue then it.amount else if it.kind == Expense then -it.amount else 0) + SignedSum(items[1..])
  }

  /** The balance computed from the two totals agrees with the signed one-pass sum. */
  lemma {:induction false} BalanceIsSignedSum(items: seq<BudgetItem>)
    ensures Totals(items).balance == SignedSum(items)
  {
    if items != [] {
      BalanceIsSignedSum(items[1..]);
    }
  }

  /** An item that is neither an expense nor a revenue, wherever it stands, changes no total. */
  lemma OtherKindIgnored(a: seq<BudgetItem>, it: BudgetItem, b: seq<BudgetItem>)
    requires it.kind != Expense && it.kind != Revenue
    ensures Totals(a + [it] + b) == Totals(a + b)
  {
    KindTotalConcat(a + [it], b, Expense);
    KindTotalConcat(a, [it], Expense);
    KindTotalConcat(a, b, Expense);
    KindTotalConcat(a + [it], b, Revenue);
    KindTotalConcat(a, [it], Revenue);
    KindTotalConcat(a, b, Revenue);
  }
}
