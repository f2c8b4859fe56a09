/** `src/components/SettlementView.tsx`: converts by
    `(amount / fromRate) * toRate` with rates looked up in a currency list,
    keeps balances unrounded, takes debtors as `Math.abs` of an ascending
    sort, rounds what it emits, and tags every transfer with the base
    currency. */
module SrcSettlementView {
  import opened Money
  import opened Ledger
  import opened Ordering
  import Greedy
  import opened Matching
  import opened Shares

  datatype Participant = Participant(id: string, name: string)

  datatype Expense = Expense(
    id: string,
    description: string,
    amount: real,
    currency: string,
    paidBy: string,
    sharedBy: seq<string>,
    date: string)

  /** A transfer as this variant reports it. */
  datatype Settlement = Settlement(from: string, to: string, amount: real, currency: string)

  const SweepRule: Greedy.Rule := Greedy.Rule(false, true)

  function ParticipantIds(participants: seq<Participant>): (r: seq<string>)
    ensures |r| == |participants| && forall k :: 0 <= k < |participants| ==> r[k] == participants[k].id
  {
    seq(|participants|, k requires 0 <= k < |participants| => participants[k].id)
  }

  /** Every payer and every sharer is a participant, and every expense has
      at least one sharer. */
  predicate ValidExpenses(participants: seq<Participant>, expenses: seq<Expense>) {
    forall e :: e in expenses ==>
      && e.paidBy in ParticipantIds(participants)
      && |e.sharedBy| > 0
      && forall k :: 0 <= k < |e.sharedBy| ==> e.sharedBy[k] in ParticipantIds(participants)
  }

  /** `convertToBaseCurrency(amount, fromCurrency)`. */
  function ConvertToBaseCurrency(amount: real, from: string, currencies: seq<Currency>, base: string): real {
    if from == base then amount
    else (amount / RateOf(currencies, from)) * RateOf(currencies, base)
  }

  function ToPosting(e: Expense, currencies: seq<Currency>, base: string): Posting {
    Posting(e.paidBy, e.sharedBy, ConvertToBaseCurrency(e.amount, e.currency, currencies, base))
  }

  function Postings(expenses: seq<Expense>, currencies: seq<Currency>, base: string): (r: seq<Posting>)
    ensures |r| == |expenses| && forall k :: 0 <= k < |expenses| ==> r[k] == ToPosting(expenses[k], currencies, base)
  {
    seq(|expenses|, k requires 0 <= k < |expenses| => ToPosting(expenses[k], currencies, base))
  }

  lemma PostingsKnown(participants: seq<Participant>, expenses: seq<Expense>, currencies: seq<Currency>, base: string)
    requires ValidExpenses(participants, expenses)
    ensures AllKnown(Init(ParticipantIds(participants)), Postings(expenses, currencies, base))
  {
    InitFacts(ParticipantIds(participants));
    var ps := Postings(expenses, currencies, base);
    forall k | 0 <= k < |ps| ensures Known(Init(ParticipantIds(participants)), ps[k]) {
      assert expenses[k] in expenses;
    }
  }

  /** What `calculateBalances()` returns. */
  function Balances(participants: seq<Participant>, expenses: seq<Expense>, currencies: seq<Currency>, base: string): Table
    requires ValidExpenses(participants, expenses)
  {
    PostingsKnown(participants, expenses, currencies, base);
    Accumulate(Init(ParticipantIds(participants)), Postings(expenses, currencies, base))
  }

  /** Every transfer tagged with the base currency. */
  function Tagged(ss: seq<Greedy.Settlement>, base: string): (r: seq<Settlement>)
    ensures |r| == |ss|
    ensures forall k :: 0 <= k < |ss| ==> r[k] == Settlement(ss[k].from, ss[k].to, ss[k].amount, base)
  {
    seq(|ss|, k requires 0 <= k < |ss| => Settlement(ss[k].from, ss[k].to, ss[k].amount, base))
  }

  lemma TaggedSnoc(ss: seq<Greedy.Settlement>, x: Greedy.Settlement, base: string)
    ensures Tagged(ss + [x], base) == Tagged(ss, base) + [Settlement(x.from, x.to, x.amount, base)]
  {
  }

  /** What `calculateSettlements()` returns. */
  function Settlements(participants: seq<Participant>, expenses: seq<Expense>, currencies: seq<Currency>, base: string): seq<Settlement>
    requires ValidExpenses(participants, expenses)
  {
    Tagged(Plan(Balances(participants, expenses, currencies, base), SweepRule), base)
  }

  /** `expenses.reduce((sum, expense) => sum + convertToBaseCurrency(...), 0)`,
      a left fold. */
  function TotalExpenses(expenses: seq<Expense>, currencies: seq<Currency>, base: string): real
    decreases |expenses|
  {
    if expenses == [] then 0.0
    else
      var last := expenses[|expenses| - 1];
      TotalExpenses(expenses[..|expenses| - 1], currencies, base)
        + ConvertToBaseCurrency(last.amount, last.currency, currencies, base)
  }

  // ---------------------------------------------------------------------------
  // The code, step by step

  /** Lines 27-46: every participant at 0, then credit the payer the
      converted amount and debit each `sharedBy` entry its share. */
  method CalculateBalances(participants: seq<Participant>, expenses: seq<Expense>, currencies: seq<Currency>, base: string)
    returns (balances: Table)
    requires ValidExpenses(participants, expenses)
    ensures balances == Balances(participants, expenses, currencies, base)
  {
    balances := InitBalances(ParticipantIds(participants));
    PostingsKnown(participants, expenses, currencies, base);
    ghost var ps := Postings(expenses, currencies, base);
    ghost var goal := Accumulate(balances, ps);
    var i := 0;
    assert ps[i..] == ps;
    while i < |expenses|
      invariant 0 <= i <= |expenses|
      invariant AllKnown(balances, ps[i..]) && Accumulate(balances, ps[i..]) == goal
    {
      var expense := expenses[i];
      var convertedAmount := ConvertToBaseCurrency(expense.amount, expense.currency, currencies, base);
      var posting := Posting(expense.paidBy, expense.sharedBy, convertedAmount);
      assert posting == ps[i];
      AccumulateStep(balances, ps, i);
      balances := ApplyExpense(balances, posting);
      i := i + 1;
    }
  }

  /** Lines 48-87: split and sort the balances, then the two-index sweep,
      pushing `{from, to, amount: Math.round(amount * 100) / 100, currency}`
      for each step whose amount is above 0.01. */
  method CalculateSettlements(participants: seq<Participant>, expenses: seq<Expense>, currencies: seq<Currency>, base: string)
    returns (settlements: seq<Settlement>)
    requires ValidExpenses(participants, expenses)
    ensures settlements == Settlements(participants, expenses, currencies, base)
  {
    var balances := CalculateBalances(participants, expenses, currencies, base);
    var creditors := Sort(Above(balances, Epsilon), Descending);
    var debtors := Absolute(Sort(Below(balances, -Epsilon), Ascending));
    AbsoluteAscendingIsDebtors(balances);
    settlements := Sweep(creditors, debtors, base);
  }

  /** Lines 62-84: the two-index sweep over creditors and positive debts.
      Each step settles `Math.min` of the two, records it when above 0.01,
      subtracts it from both, and moves past whichever fell below 0.01. */
  method Sweep(cs: Table, ds: Table, base: string) returns (settlements: seq<Settlement>)
    ensures settlements == Tagged(Greedy.Sweep(cs, ds, SweepRule), base)
  {
    var creditors, debtors := cs, ds;
    settlements := [];
    ghost var emitted: seq<Greedy.Settlement> := [];
    var i, j := 0, 0;
    assert creditors[i..] == cs && debtors[j..] == ds;
    while i < |creditors| && j < |debtors|
      invariant |creditors| == |cs| && |debtors| == |ds|
      invariant 0 <= i <= |creditors| && 0 <= j <= |debtors|
      invariant settlements == Tagged(emitted, base)
      invariant emitted + Greedy.Sweep(creditors[i..], debtors[j..], SweepRule) == Greedy.Sweep(cs, ds, SweepRule)
      decreases |creditors| - i + |debtors| - j
    {
      var creditor, debtor := creditors[i], debtors[j];
      var amount := Min(creditor.amount, debtor.amount);
      ghost var i0, j0, cs0, ds0, done := i, j, creditors, debtors, emitted;
      if amount > Epsilon {
        TaggedSnoc(emitted, Greedy.Settlement(debtor.id, creditor.id, Round2(amount)), base);
        settlements := settlements + [Settlement(debtor.id, creditor.id, Round2(amount), base)];
        emitted := emitted + [Greedy.Settlement(debtor.id, creditor.id, Round2(amount))];
      }
      var creditorLeft := Entry(creditor.id, creditor.amount - amount);
      var debtorLeft := Entry(debtor.id, debtor.amount - amount);
      creditors := creditors[i := creditorLeft];
      debtors := debtors[j := debtorLeft];
      if creditors[i].amount < Epsilon {
        i := i + 1;
      }
      if debtors[j].amount < Epsilon {
        j := j + 1;
      }
      Greedy.SweepTurn(cs0, i0, ds0, j0, SweepRule, done, Greedy.Sweep(cs, ds, SweepRule),
                       amount, emitted, creditorLeft, i, debtorLeft, j);
    }
    Greedy.SweepBound(creditors[i..], debtors[j..], SweepRule);
  }

  // ---------------------------------------------------------------------------
  // Properties

  /** The base currency comes back unchanged; otherwise the result is worth
      as much at the base rate as the amount at its own rate, absent and
      zero rates counting as 1. */
  lemma ConversionFacts(amount: real, from: string, currencies: seq<Currency>, base: string)
    ensures from == base ==> ConvertToBaseCurrency(amount, from, currencies, base) == amount
    ensures from != base ==>
              (ConvertToBaseCurrency(amount, from, currencies, base) * RateOf(currencies, from)
               == amount * RateOf(currencies, base))
    ensures RateOf(currencies, from) == RateOf(currencies, base) ==>
              ConvertToBaseCurrency(amount, from, currencies, base) == amount
  {
    var f, t := RateOf(currencies, from), RateOf(currencies, base);
    var r := ConvertToBaseCurrency(amount, from, currencies, base);
    if from != base {
      DivideThenMultiply(amount, f, t, r);
    }
  }

  lemma DivideThenMultiply(amount: real, f: real, t: real, r: real)
    requires f != 0.0 && r == (amount / f) * t
    ensures r * f == amount * t
    ensures f == t ==> r == amount
  {
    ShareTimesCount(amount, f);
    assert (amount / f) * t * f == (f * (amount / f)) * t;
  }

  /** Balances are keyed by participant, one entry per distinct id, and
      sum to zero. */
  lemma BalancesFacts(participants: seq<Participant>, expenses: seq<Expense>, currencies: seq<Currency>, base: string)
    requires ValidExpenses(participants, expenses)
    ensures Keyed(Balances(participants, expenses, currencies, base))
    ensures |Balances(participants, expenses, currencies, base)| <= |participants|
    ensures forall x :: x in Ids(Balances(participants, expenses, currencies, base)) <==> x in ParticipantIds(participants)
    ensures Sum(Balances(participants, expenses, currencies, base)) == 0.0
  {
    PostingsKnown(participants, expenses, currencies, base);
    PostedFacts(ParticipantIds(participants), Postings(expenses, currencies, base));
  }

  /** The split, person by person: a creditor for the balance exactly when
      it is above 0.01, a debtor for its absolute value exactly when it is
      below -0.01, never both; the `Math.abs` of the ascending sort is the
      debt list in descending order of absolute value. */
  lemma Classification(participants: seq<Participant>, expenses: seq<Expense>, currencies: seq<Currency>, base: string, who: string)
    requires ValidExpenses(participants, expenses)
    ensures var t := Balances(participants, expenses, currencies, base);
            && Balance(Creditors(t), who) == (if Balance(t, who) > Epsilon then Balance(t, who) else 0.0)
            && Balance(Debtors(t), who) == (if Balance(t, who) < -Epsilon then -Balance(t, who) else 0.0)
            && (who in Ids(Creditors(t)) ==> who !in Ids(Debtors(t)))
            && Sorted(Creditors(t), Descending) && Sorted(Debtors(t), Descending)
            && Absolute(Sort(Below(t, -Epsilon), Ascending)) == Debtors(t)
  {
    var t := Balances(participants, expenses, currencies, base);
    BalancesFacts(participants, expenses, currencies, base);
    ClassifiedBalance(t, who);
    CreditorsDebtorsDisjoint(t);
    CreditorsFacts(t);
    DebtorsFacts(t);
    AbsoluteAscendingIsDebtors(t);
  }

  /** Transfer count: none when either list is empty, otherwise at most one
      fewer than creditors and debtors together, and fewer than the
      participants. */
  lemma SettlementCount(participants: seq<Participant>, expenses: seq<Expense>, currencies: seq<Currency>, base: string)
    requires ValidExpenses(participants, expenses)
    ensures var t := Balances(participants, expenses, currencies, base);
            Creditors(t) == [] || Debtors(t) == [] ==> Settlements(participants, expenses, currencies, base) == []
    ensures var t := Balances(participants, expenses, currencies, base);
            Creditors(t) != [] && Debtors(t) != [] ==>
              |Settlements(participants, expenses, currencies, base)| <= |Creditors(t)| + |Debtors(t)| - 1
    ensures participants != [] ==> |Settlements(participants, expenses, currencies, base)| < |participants|
  {
    BalancesFacts(participants, expenses, currencies, base);
    PlanCount(Balances(participants, expenses, currencies, base), SweepRule);
  }

  /** With no expenses nobody pays anybody. */
  lemma NoExpensesNoSettlements(participants: seq<Participant>, currencies: seq<Currency>, base: string)
    ensures Settlements(participants, [], currencies, base) == []
  {
    InitFacts(ParticipantIds(participants));
    PlanOfSmall(Balances(participants, [], currencies, base), SweepRule);
  }

  /** Balances are not always brought within 0.01: three people each pay
      0.02 in the base currency for an expense shared with a fourth, who
      is left owing 0.03 while no transfer is produced. */
  lemma ResidualDebt(participants: seq<Participant>, expenses: seq<Expense>, currencies: seq<Currency>, base: string,
                     a: string, b: string, c: string, d: string)
    requires a in ParticipantIds(participants) && b in ParticipantIds(participants) && c in ParticipantIds(participants) && d in ParticipantIds(participants)
    requires a != b && a != c && b != c && d != a && d != b && d != c
    requires |expenses| == 3
    requires expenses[0].paidBy == a && expenses[0].sharedBy == [a, d]
    requires expenses[1].paidBy == b && expenses[1].sharedBy == [b, d]
    requires expenses[2].paidBy == c && expenses[2].sharedBy == [c, d]
    requires forall k :: 0 <= k < 3 ==> expenses[k].amount == 0.02 && expenses[k].currency == base
    ensures ValidExpenses(participants, expenses)
    ensures Balance(Balances(participants, expenses, currencies, base), d) == -0.03
    ensures Settlements(participants, expenses, currencies, base) == []
  {
    assert ValidExpenses(participants, expenses) by {
      forall e | e in expenses ensures e == expenses[0] || e == expenses[1] || e == expenses[2] { }
    }
    assert Postings(expenses, currencies, base) == DeadZone(a, b, c, d);
    UnsettledDebt(ParticipantIds(participants), a, b, c, d, SweepRule);
  }

  /** Every transfer runs from a participant whose balance is below -0.01
      to a different one whose balance is above 0.01, in the base currency,
      for at least one cent, in whole cents. */
  lemma SettlementParties(participants: seq<Participant>, expenses: seq<Expense>, currencies: seq<Currency>, base: string)
    requires ValidExpenses(participants, expenses)
    ensures var t, ss := Balances(participants, expenses, currencies, base), Settlements(participants, expenses, currencies, base);
            forall k :: 0 <= k < |ss| ==>
              && ss[k].from != ss[k].to
              && ss[k].from in ParticipantIds(participants) && ss[k].to in ParticipantIds(participants)
              && Balance(t, ss[k].from) < -Epsilon && Balance(t, ss[k].to) > Epsilon
              && ss[k].currency == base
              && ss[k].amount >= Epsilon && IsCents(ss[k].amount)
  {
    var t := Balances(participants, expenses, currencies, base);
    BalancesFacts(participants, expenses, currencies, base);
    PlanParties(t, SweepRule);
    Greedy.SweepAmounts(Creditors(t), Debtors(t), SweepRule);
  }

  /** Each transfer is the cent-rounding of the corresponding transfer of
      the unrounded sweep, and in that sweep nobody pays more than they owe
      nor receives more than they are owed. */
  lemma SettlementRounding(participants: seq<Participant>, expenses: seq<Expense>, currencies: seq<Currency>, base: string, who: string)
    requires ValidExpenses(participants, expenses)
    ensures var t, ss := Balances(participants, expenses, currencies, base), Settlements(participants, expenses, currencies, base);
            var raw := Plan(t, Greedy.Rule(false, false));
            && |ss| == |raw|
            && (forall k :: 0 <= k < |ss| ==> ss[k] == Settlement(raw[k].from, raw[k].to, Round2(raw[k].amount), base))
            && Greedy.PaidBy(raw, who) <= (if Balance(t, who) < -Epsilon then -Balance(t, who) else 0.0)
            && Greedy.ReceivedBy(raw, who) <= (if Balance(t, who) > Epsilon then Balance(t, who) else 0.0)
  {
    var t := Balances(participants, expenses, currencies, base);
    BalancesFacts(participants, expenses, currencies, base);
    Greedy.RoundedSweep(Creditors(t), Debtors(t), false);
    PlanConserves(t, false, who);
  }

  /** `totalExpenses` is the total of the converted amounts the balances
      are built from. */
  lemma {:induction false} TotalIsPaid(expenses: seq<Expense>, currencies: seq<Currency>, base: string)
    ensures TotalExpenses(expenses, currencies, base) == Paid(Postings(expenses, currencies, base))
    decreases |expenses|
  {
    if expenses != [] {
      var n := |expenses| - 1;
      TotalIsPaid(expenses[..n], currencies, base);
      assert Postings(expenses[..n], currencies, base) == Postings(expenses, currencies, base)[..n];
    }
  }

  /** A group spending only in the base currency gets the same total and
      the same settlements whatever the currency list holds. */
  lemma {:induction false} SingleCurrencyIgnoresRates(participants: seq<Participant>, expenses: seq<Expense>,
                                                      c1: seq<Currency>, c2: seq<Currency>, base: string)
    requires ValidExpenses(participants, expenses)
    requires forall k :: 0 <= k < |expenses| ==> expenses[k].currency == base
    ensures TotalExpenses(expenses, c1, base) == TotalExpenses(expenses, c2, base)
    ensures Settlements(participants, expenses, c1, base) == Settlements(participants, expenses, c2, base)
  {
    assert Postings(expenses, c1, base) == Postings(expenses, c2, base);
    TotalIsPaid(expenses, c1, base);
    TotalIsPaid(expenses, c2, base);
  }
}
